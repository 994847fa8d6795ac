/** The client's reply object: how concurrent push() and finished() calls reach the listener.

    `n` threads call into one reply object; each event is one atomic access or one critical section of
    one thread. finished() may be called by a thread of its own accord (a completion message, the
    reaper, the destructor) or at the end of a push() that failed or reached the result limit. */
module ReplyDelivery {

  datatype Pc =
    | Idle
    | Gated      // push(): finished_ was seen false, num_push_ not yet incremented
    | Pushing    // push(): counted, the listener's push is executing
    | AtFinish   // finished(): before the exchange on finished_
    | Waiting    // finished(): won the exchange, waits for num_push_ == 0
    | Cleared    // finished(): saw num_push_ == 0 and released the lock

  datatype State = State(finished: bool, numPush: nat, pcs: seq<Pc>, delivered: nat)

  datatype Action = BeginPush | Count | EndPush(stop: bool) | BeginFinish | Exchange | Proceed | Deliver

  datatype Event = Event(t: nat, act: Action)

  function Init(n: nat): State {
    State(false, 0, seq(n, _ => Idle), 0)
  }

  predicate Enabled(s: State, e: Event) {
    && e.t < |s.pcs|
    && match e.act
       case BeginPush => s.pcs[e.t].Idle?
       case Count => s.pcs[e.t].Gated?
       case EndPush(_) => s.pcs[e.t].Pushing? && s.numPush > 0
       case BeginFinish => s.pcs[e.t].Idle?
       case Exchange => s.pcs[e.t].AtFinish?
       case Proceed => s.pcs[e.t].Waiting? && s.numPush == 0
       case Deliver => s.pcs[e.t].Cleared?
  }

  function Apply(s: State, e: Event): State
    requires Enabled(s, e)
  {
    match e.act
    case BeginPush => if s.finished then s else s.(pcs := s.pcs[e.t := Gated])
    case Count => s.(numPush := s.numPush + 1, pcs := s.pcs[e.t := Pushing])
    case EndPush(stop) => s.(numPush := s.numPush - 1, pcs := s.pcs[e.t := if stop then AtFinish else Idle])
    case BeginFinish => s.(pcs := s.pcs[e.t := AtFinish])
    case Exchange => s.(finished := true, pcs := s.pcs[e.t := if s.finished then Idle else Waiting])
    case Proceed => s.(pcs := s.pcs[e.t := Cleared])
    case Deliver => s.(pcs := s.pcs[e.t := Idle], delivered := s.delivered + 1)
  }

  predicate IsRun(s: State, es: seq<Event>)
    decreases |es|
  {
    es == [] || (Enabled(s, es[0]) && IsRun(Apply(s, es[0]), es[1..]))
  }

  function After(s: State, es: seq<Event>): State
    requires IsRun(s, es)
    decreases |es|
  {
    if es == [] then s else After(Apply(s, es[0]), es[1..])
  }

  function CountOf(pcs: seq<Pc>, p: Pc -> bool): nat {
    if pcs == [] then 0 else CountOf(pcs[1..], p) + if p(pcs[0]) then 1 else 0
  }

  predicate IsPushing(pc: Pc) {
    pc.Pushing?
  }

  predicate IsFinishing(pc: Pc) {
    pc.Waiting? || pc.Cleared?
  }

  function Pushers(s: State): nat {
    CountOf(s.pcs, IsPushing)
  }

  function Finishers(s: State): nat {
    CountOf(s.pcs, IsFinishing)
  }

  lemma {:induction false} CountAfterUpdate(pcs: seq<Pc>, t: nat, pc: Pc, p: Pc -> bool)
    requires t < |pcs|
    ensures CountOf(pcs[t := pc], p) + (if p(pcs[t]) then 1 else 0) == CountOf(pcs, p) + (if p(pc) then 1 else 0)
  {
    var pcs' := pcs[t := pc];
    if t == 0 {
      assert pcs'[1..] == pcs[1..];
    } else {
      CountAfterUpdate(pcs[1..], t - 1, pc, p);
      assert pcs'[1..] == pcs[1..][t - 1 := pc];
    }
  }

  lemma {:induction false} CountZero(pcs: seq<Pc>, p: Pc -> bool)
    ensures CountOf(pcs, p) == 0 <==> forall t :: 0 <= t < |pcs| ==> !p(pcs[t])
  {
    if pcs != [] {
      CountZero(pcs[1..], p);
      assert forall t :: 1 <= t < |pcs| ==> pcs[t] == pcs[1..][t - 1];
    }
  }

  /** num_push_ counts the pushes in progress; whoever won the exchange is unique and either still on
      its way to the listener or has already told it. */
  ghost predicate Inv(s: State) {
    && s.numPush == Pushers(s)
    && Finishers(s) + s.delivered == if s.finished then 1 else 0
  }

  lemma InitInv(n: nat)
    ensures Inv(Init(n))
  {
    CountZero(Init(n).pcs, IsPushing);
    CountZero(Init(n).pcs, IsFinishing);
  }

  lemma StepInv(s: State, e: Event)
    requires Inv(s) && Enabled(s, e)
    ensures Inv(Apply(s, e))
  {
    var s' := Apply(s, e);
    if s'.pcs != s.pcs {
      CountAfterUpdate(s.pcs, e.t, s'.pcs[e.t], IsPushing);
      CountAfterUpdate(s.pcs, e.t, s'.pcs[e.t], IsFinishing);
    }
  }

  lemma {:induction false} RunKeepsInv(s: State, es: seq<Event>)
    requires Inv(s) && IsRun(s, es)
    ensures Inv(After(s, es)) && |After(s, es).pcs| == |s.pcs|
    decreases |es|
  {
    if es != [] {
      StepInv(s, es[0]);
      RunKeepsInv(Apply(s, es[0]), es[1..]);
    }
  }

  /** However many threads call finished(), the listener is told at most once; and when no call is in
      progress it has been told exactly if finished() was ever called. */
  lemma {:induction false} ListenerToldOnce(n: nat, es: seq<Event>)
    requires IsRun(Init(n), es)
    ensures var s := After(Init(n), es);
            && s.delivered <= 1
            && (s.delivered == 1 ==> s.finished)
            && ((forall t :: 0 <= t < |s.pcs| ==> s.pcs[t].Idle?) ==> s.delivered == if s.finished then 1 else 0)
  {
    InitInv(n);
    RunKeepsInv(Init(n), es);
    var s := After(Init(n), es);
    CountZero(s.pcs, IsFinishing);
  }

  /** Calls of finished(): a completion arrives, or a push failed or reached the result limit. */
  predicate CallsFinish(act: Action) {
    act.BeginFinish? || act == EndPush(true)
  }

  function FinishCalls(es: seq<Event>): nat {
    if es == [] then 0 else FinishCalls(es[1..]) + if CallsFinish(es[0].act) then 1 else 0
  }

  /** finished() has taken effect or is about to. */
  ghost predicate FinishPending(s: State) {
    s.finished || exists t :: 0 <= t < |s.pcs| && s.pcs[t].AtFinish?
  }

  lemma PendingStays(s: State, e: Event)
    requires Enabled(s, e) && (FinishPending(s) || CallsFinish(e.act))
    ensures FinishPending(Apply(s, e))
  {
    var s' := Apply(s, e);
    if CallsFinish(e.act) {
      assert s'.pcs[e.t].AtFinish?;
    } else if !s.finished {
      var t :| 0 <= t < |s.pcs| && s.pcs[t].AtFinish?;
      assert t != e.t ==> s'.pcs[t].AtFinish?;
    }
  }

  lemma {:induction false} FinishIsPending(s: State, es: seq<Event>)
    requires IsRun(s, es) && (FinishPending(s) || FinishCalls(es) > 0)
    ensures FinishPending(After(s, es))
    decreases |es|
  {
    if es != [] {
      if FinishPending(s) || CallsFinish(es[0].act) {
        PendingStays(s, es[0]);
      }
      FinishIsPending(Apply(s, es[0]), es[1..]);
    }
  }

  ghost predicate AllIdle(s: State) {
    forall t :: 0 <= t < |s.pcs| ==> s.pcs[t].Idle?
  }

  /** Once any completion has arrived, or a push has failed or reached the limit, and all calls are over, the listener has been told exactly once. */
  lemma {:induction false} CompletionIsDelivered(n: nat, es: seq<Event>)
    requires IsRun(Init(n), es) && FinishCalls(es) > 0 && AllIdle(After(Init(n), es))
    ensures After(Init(n), es).delivered == 1
  {
    FinishIsPending(Init(n), es);
    ListenerToldOnce(n, es);
  }

  // ----- pushes that come too late

  /** Somewhere in the run the listener is handed a result after it was told that the query is finished,
      or is told so while it is still being handed one. */
  predicate OutOfOrder(s: State, es: seq<Event>)
    requires IsRun(s, es)
    decreases |es|
  {
    && es != []
    && (|| (es[0].act.Count? && s.delivered > 0)
        || (es[0].act.Deliver? && s.numPush > 0)
        || OutOfOrder(Apply(s, es[0]), es[1..]))
  }

  /** A lone thread never has a push() in progress once finished() has won its exchange. */
  ghost predicate AloneInv(s: State) {
    && |s.pcs| <= 1
    && (s.delivered > 0 ==> s.finished)
    && (s.finished ==> s.numPush == 0 && forall t :: 0 <= t < |s.pcs| ==> !s.pcs[t].Gated? && !s.pcs[t].Pushing?)
    && s.numPush == (if |s.pcs| == 1 && s.pcs[0].Pushing? then 1 else 0)
    && (forall t :: 0 <= t < |s.pcs| && IsFinishing(s.pcs[t]) ==> s.finished)
  }

  lemma {:induction false} AloneIsInOrder(s: State, es: seq<Event>)
    requires AloneInv(s) && IsRun(s, es)
    ensures !OutOfOrder(s, es)
    decreases |es|
  {
    if es != [] {
      AloneIsInOrder(Apply(s, es[0]), es[1..]);
    }
  }

  /** Two threads: one passes the check in push(), the other finishes the query, then the first one
      goes on. */
  lemma Overtaking(n: nat) returns (es: seq<Event>)
    requires n >= 2
    ensures IsRun(Init(n), es) && OutOfOrder(Init(n), es)
  {
    es := [Event(0, BeginPush), Event(1, BeginFinish), Event(1, Exchange), Event(1, Proceed), Event(1, Deliver),
           Event(0, Count)];
    var s1 := Apply(Init(n), es[0]);
    var s2 := Apply(s1, es[1]);
    var s3 := Apply(s2, es[2]);
    var s4 := Apply(s3, es[3]);
    var s5 := Apply(s4, es[4]);
    assert s5.delivered == 1 && Enabled(s5, es[5]);
    assert es[5..] == [es[5]] && es[5..][1..] == [];
    assert IsRun(s5, es[5..]) && OutOfOrder(s5, es[5..]);
    assert es[4..][1..] == es[5..] && IsRun(s4, es[4..]) && OutOfOrder(s4, es[4..]);
    assert es[3..][1..] == es[4..] && IsRun(s3, es[3..]) && OutOfOrder(s3, es[3..]);
    assert es[2..][1..] == es[3..] && IsRun(s2, es[2..]) && OutOfOrder(s2, es[2..]);
    assert es[1..][1..] == es[2..] && IsRun(s1, es[1..]) && OutOfOrder(s1, es[1..]);
  }

  ghost predicate AlwaysInOrder(n: nat) {
    forall es :: IsRun(Init(n), es) ==> !OutOfOrder(Init(n), es)
  }

  /** The promise that no push() is passed on once finished() was, and finished() only once all
      executing pushes are over, holds of every run exactly when at most one thread serves the object. */
  lemma InOrderIffOneThread(n: nat)
    ensures AlwaysInOrder(n) <==> n <= 1
  {
    if n <= 1 {
      forall es | IsRun(Init(n), es)
        ensures !OutOfOrder(Init(n), es)
      {
        AloneIsInOrder(Init(n), es);
      }
    } else {
      var es := Overtaking(n);
      assert IsRun(Init(n), es) && OutOfOrder(Init(n), es);
    }
  }

  predicate IsGated(pc: Pc) {
    pc.Gated?
  }

  /** The listener's pushes that start in a run. */
  function Pushes(es: seq<Event>): nat {
    if es == [] then 0 else Pushes(es[1..]) + if es[0].act.Count? then 1 else 0
  }

  /** Only a push() that had passed its check before finished() won the exchange can still come late. */
  lemma {:induction false} LatePushesHadPassedTheCheck(s: State, es: seq<Event>)
    requires s.finished && IsRun(s, es)
    ensures Pushes(es) + CountOf(After(s, es).pcs, IsGated) == CountOf(s.pcs, IsGated)
    decreases |es|
  {
    if es != [] {
      var s' := Apply(s, es[0]);
      if s'.pcs != s.pcs {
        CountAfterUpdate(s.pcs, es[0].t, s'.pcs[es[0].t], IsGated);
      }
      LatePushesHadPassedTheCheck(s', es[1..]);
    }
  }
}
