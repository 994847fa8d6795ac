/** What the query protocol guarantees in every run. A run is any sequence of events that can happen,
    in that order, from the moment the scope has registered the query; nothing else restricts how the
    threads interleave, how often the client cancels or what the scope does. */
module QueryGuarantees {
  import opened QueryObjects
  import opened QueryProtocol

  function Start(kind: Kind, hasReply: bool, es: seq<Event>): State
    requires IsRun(Init(kind, hasReply), es)
  {
    After(Init(kind, hasReply), es)
  }

  lemma {:induction false} Reachable(kind: Kind, hasReply: bool, es: seq<Event>)
    requires IsRun(Init(kind, hasReply), es)
    ensures Inv(Start(kind, hasReply, es)) && Start(kind, hasReply, es).q.kind == kind
  {
    InitInv(kind, hasReply);
    RunKeepsInv(Init(kind, hasReply), es);
    WholeRunPersists(Init(kind, hasReply), es);
  }

  // ----- lifetime

  /** No thread ever uses the query object after it is freed; it is never freed between set_self() and
      the end of the dispatch of run(), nor while a reply proxy exists; and once run() has had the lock,
      whichever way it went, neither self_ nor the servant table keeps the object alive. */
  lemma {:induction false} QueryOutlivesItsUsers(kind: Kind, hasReply: bool, es: seq<Event>, e: Event)
    requires IsRun(Init(kind, hasReply), es)
    ensures var s := Start(kind, hasReply, es);
            && (Enabled(s, e) && TouchesQuery(e) ==> !s.refs.freed)
            && (!s.creator.Fresh? && !s.run.Done? ==> !s.refs.freed)
            && (s.reply.proxies > 0 ==> !s.refs.freed)
            && (s.refs.freed ==> s.refs.count == 0)
            && (!s.run.Unsent? && !s.run.Queued? && !s.run.Dispatched? ==> !s.q.selfHeld && !s.q.connected)
  {
    Reachable(kind, hasReply, es);
  }

  /** The design's "net effect": once the creating call has returned and run() has had the lock, the
      object is alive exactly as long as a reply proxy exists, run() is executing, or a cancellation
      is inside it. */
  lemma {:induction false} AliveExactlyWhileUsed(kind: Kind, hasReply: bool, es: seq<Event>)
    requires IsRun(Init(kind, hasReply), es)
    ensures var s := Start(kind, hasReply, es);
            s.creator.Returned? && !s.q.connected ==>
              (!s.refs.freed <==> s.reply.proxies > 0 || FrameHolds(s) || s.cancelHolds)
  {
    Reachable(kind, hasReply, es);
  }

  // ----- cancel against run

  /** What no later event can undo. */
  ghost predicate Persists(s: State, t: State) {
    && t.q.kind == s.q.kind
    && (!s.q.pushable ==> !t.q.pushable && t.log.taker == s.log.taker)
    && (s.refs.freed ==> t.refs.freed)
    && (s.ctrl.destroyed ==> t.ctrl.destroyed)
    && (s.log.taker.Canceller? && !s.q.kind.Activation? ==>
        t.q.replySet == s.q.replySet && t.log.scopeRuns == s.log.scopeRuns)
  }

  lemma RunStepPersists(s: State, e: RunEvent)
    requires FlagInv(s) && RunEnabled(s, e)
    ensures Persists(s, ApplyRun(s, e))
  {
  }

  lemma CancelStepPersists(s: State, e: CancelEvent)
    requires FlagInv(s) && CancelEnabled(s, e)
    ensures Persists(s, ApplyCancel(s, e))
  {
  }

  lemma StepPersists(s: State, e: Event)
    requires FlagInv(s) && Enabled(s, e)
    ensures Persists(s, Apply(s, e))
  {
    match e
    case Running(r) => RunStepPersists(s, r);
    case Cancelling(c) => CancelStepPersists(s, c);
    case _ =>
  }

  lemma {:induction false} WholeRunPersists(s: State, es: seq<Event>)
    requires Inv(s) && IsRun(s, es)
    ensures Persists(s, After(s, es))
    decreases |es|
  {
    if es != [] {
      StepPersists(s, es[0]);
      StepInv(s, es[0]);
      WholeRunPersists(Apply(s, es[0]), es[1..]);
    }
  }

  lemma {:induction false} RunSplits(s: State, es: seq<Event>, more: seq<Event>)
    ensures IsRun(s, es + more) <==> IsRun(s, es) && IsRun(After(s, es), more)
    ensures IsRun(s, es + more) ==> After(s, es + more) == After(After(s, es), more)
    decreases |es|
  {
    if es == [] {
      assert es + more == more;
    } else {
      assert (es + more)[0] == es[0] && (es + more)[1..] == es[1..] + more;
      if Enabled(s, es[0]) {
        RunSplits(Apply(s, es[0]), es[1..], more);
      }
    }
  }

  /** A search or preview that was cancelled before run() took the lock is never handed to the scope. */
  lemma {:induction false} CancelledFirstNeverRuns(kind: Kind, hasReply: bool, es: seq<Event>, more: seq<Event>)
    requires kind != Activation && IsRun(Init(kind, hasReply), es + more)
    ensures IsRun(Init(kind, hasReply), es)
    ensures var s, t := Start(kind, hasReply, es), Start(kind, hasReply, es + more);
            && t.log.scopeRuns <= 1
            && (s.log.taker.Canceller? && s.q.connected ==> t.log.scopeRuns == 0)
  {
    RunSplits(Init(kind, hasReply), es, more);
    Reachable(kind, hasReply, es);
    Reachable(kind, hasReply, es + more);
    WholeRunPersists(Start(kind, hasReply, es), more);
  }

  /** pushable_ only falls, and from the moment a cancellation has taken it down reply_proxy_ is never
      written, not even with the same value (the one place that writes it counts a run of the scope), so that the
      unlocked read in cancel() sees a stable value. */
  lemma {:induction false} FlagFallsOnceAndFreezesReplyProxy(kind: Kind, hasReply: bool, es: seq<Event>, more: seq<Event>)
    requires IsRun(Init(kind, hasReply), es + more)
    ensures IsRun(Init(kind, hasReply), es)
    ensures var s, t := Start(kind, hasReply, es), Start(kind, hasReply, es + more);
            && (!s.q.pushable ==> !t.q.pushable)
            && (s.log.taker.Canceller? && kind != Activation ==>
                t.q.replySet == s.q.replySet && t.log.scopeRuns == s.log.scopeRuns)
  {
    RunSplits(Init(kind, hasReply), es, more);
    Reachable(kind, hasReply, es);
    WholeRunPersists(Start(kind, hasReply, es), more);
  }

  // ----- completions

  /** A search or preview object sends at most one Error and at most one Cancelled, and both only if
      the cancellation took the flag before run() threw. If the cancellation kept run() out, the server
      sends nothing unless the scope's own cancel throws, in which case it sends Cancelled. */
  lemma {:induction false} SearchCompletions(kind: Kind, hasReply: bool, es: seq<Event>)
    requires kind != Activation && IsRun(Init(kind, hasReply), es)
    ensures var s := Start(kind, hasReply, es);
            && s.log.runErrors <= 1 && s.log.cancelleds <= 1 && s.log.runOks == 0 && s.reply.sends <= 1
            && (s.log.cancelleds == 1 ==> s.log.taker.Canceller?)
            && (s.log.taker.Thrower? ==> s.log.cancelleds == 0)
            && (s.log.refused ==>
                && s.log.taker.Canceller? && s.log.runErrors == 0 && s.reply.sends == 0
                && (s.cancel.CancelDone? ==> s.log.cancelleds == B(s.log.cancelThrew)))
  {
    Reachable(kind, hasReply, es);
  }

  ghost predicate CompletedOnce(s: State) {
    && s.log.runErrors + s.log.runOks <= 1
    && (s.run.Leaving? || s.run.Unwound? || s.run.Done? ==> s.log.runErrors + s.log.runOks == 1)
    && s.reply.sends == 0
  }

  lemma ActivationCounts(s: State)
    requires Inv(s) && s.q.kind == Activation
    ensures CompletedOnce(s)
  {
  }

  lemma {:induction false} ActivationsCompleteOnce(kind: Kind, hasReply: bool, es: seq<Event>)
    requires kind == Activation && IsRun(Init(kind, hasReply), es)
    ensures CompletedOnce(Start(kind, hasReply, es))
  {
    Reachable(kind, hasReply, es);
    ActivationCounts(Start(kind, hasReply, es));
  }

  /** Once an activation's run() is over it has sent exactly one completion, cancelled or not. */
  lemma {:induction false} ActivationCompletesOnce(hasReply: bool, es: seq<Event>)
    requires IsRun(Init(Activation, hasReply), es)
    ensures CompletedOnce(Start(Activation, hasReply, es))
  {
    ActivationsCompleteOnce(Activation, hasReply, es);
  }

  // ----- from the client's cancel() to the scope's

  const CANCEL := Controlling(ClientCancel)
  const SET_PROXY := Controlling(ClientSetProxy)

  function Cancels(es: seq<Event>): nat {
    if es == [] then 0 else B(es[0] == CANCEL) + Cancels(es[1..])
  }

  /** The events before set_proxy(), and the events after it. */
  function Before(es: seq<Event>): seq<Event> {
    if es == [] || es[0] == SET_PROXY then [] else [es[0]] + Before(es[1..])
  }

  function Later(es: seq<Event>): seq<Event> {
    if es == [] then [] else if es[0] == SET_PROXY then es[1..] else Later(es[1..])
  }

  /** How many cancel messages a client must have sent or be about to send after `es`. */
  function Owed(c: Client, given: bool, es: seq<Event>): nat {
    if !c.hasReply then 0
    else if given then Cancels(es)
    else if SET_PROXY !in es then 0
    else Cancels(Later(es)) + B(c.cancelled || Cancels(Before(es)) > 0)
  }

  lemma {:induction false} ForwardsAreOwed(s: State, es: seq<Event>)
    requires s.client.ready == (s.proxyGiven && s.client.hasReply) && IsRun(s, es)
    ensures var t := After(s, es);
            && t.client.hasReply == s.client.hasReply
            && t.log.forwards + t.toForward == s.log.forwards + s.toForward + Owed(s.client, s.proxyGiven, es)
    decreases |es|
  {
    if es != [] {
      var s' := Apply(s, es[0]);
      StepBookkeeping(s, es[0]);
      ForwardsAreOwed(s', es[1..]);
      assert es == [es[0]] + es[1..];
    }
  }

  /** Only the client's own events touch what ForwardsAreOwed counts. */
  ghost predicate Bookkeeping(s: State, t: State, cancelled: bool, given: bool) {
    && t.client.hasReply == s.client.hasReply
    && t.proxyGiven == (s.proxyGiven || given)
    && (given ==> !s.proxyGiven)
    && t.client.ready == (t.proxyGiven && t.client.hasReply)
    && t.client.cancelled == (s.client.cancelled || (cancelled && !s.client.ready))
    && t.log.forwards + t.toForward == s.log.forwards + s.toForward
       + B(cancelled && s.client.ready) + B(given && s.client.hasReply && s.client.cancelled)
  }

  lemma RunBookkeeping(s: State, e: RunEvent)
    requires s.client.ready == (s.proxyGiven && s.client.hasReply) && RunEnabled(s, e)
    ensures Bookkeeping(s, ApplyRun(s, e), false, false)
  {
  }

  lemma CancelBookkeeping(s: State, e: CancelEvent)
    requires s.client.ready == (s.proxyGiven && s.client.hasReply) && CancelEnabled(s, e)
    ensures Bookkeeping(s, ApplyCancel(s, e), false, false)
  {
  }

  lemma StepBookkeeping(s: State, e: Event)
    requires s.client.ready == (s.proxyGiven && s.client.hasReply) && Enabled(s, e)
    ensures Bookkeeping(s, Apply(s, e), e == CANCEL, e == SET_PROXY)
  {
    match e
    case Running(r) => RunBookkeeping(s, r);
    case Cancelling(c) => CancelBookkeeping(s, c);
    case _ =>
  }

  lemma CancelCounts(s: State)
    requires Inv(s)
    ensures s.log.localFinishes + s.toFinish == s.log.forwards && s.log.scopeCancels <= 1
  {
  }

  lemma {:induction false} ForwardsFromTheStart(kind: Kind, hasReply: bool, es: seq<Event>)
    requires IsRun(Init(kind, hasReply), es)
    ensures var s := Start(kind, hasReply, es);
            s.log.forwards + s.toForward ==
            (if hasReply && SET_PROXY in es then Cancels(Later(es)) + B(Cancels(Before(es)) > 0) else 0)
  {
    ForwardsAreOwed(Init(kind, hasReply), es);
  }

  /** With a reply proxy, the cancel messages that have left the client, plus those whose caller has
      passed the ready_ check, are exactly the cancel() calls after set_proxy() plus one if there was any
      before it; before set_proxy(), or without a reply proxy, nothing leaves. Each message is paired with
      one local Cancelled. However many arrive, the scope's own cancel runs at most once. */
  lemma {:induction false} CancellationReachesScopeOnce(kind: Kind, hasReply: bool, es: seq<Event>)
    requires IsRun(Init(kind, hasReply), es)
    ensures var s := Start(kind, hasReply, es);
            && s.log.forwards + s.toForward ==
               (if hasReply && SET_PROXY in es then Cancels(Later(es)) + B(Cancels(Before(es)) > 0) else 0)
            && s.log.localFinishes + s.toFinish == s.log.forwards
            && s.log.scopeCancels <= 1
  {
    var s := Start(kind, hasReply, es);
    ForwardsFromTheStart(kind, hasReply, es);
    assert s.log.localFinishes + s.toFinish == s.log.forwards && s.log.scopeCancels <= 1 by {
      Reachable(kind, hasReply, es);
      CancelCounts(s);
    }
  }

  /** The control servant leaves the middleware at most once, whether cancel or destroy gets there
      first, and exactly once when the query is freed and no message or handler is left. */
  lemma {:induction false} ControlDisconnectsOnce(kind: Kind, hasReply: bool, es: seq<Event>)
    requires IsRun(Init(kind, hasReply), es)
    ensures var s := Start(kind, hasReply, es);
            && s.log.disconnects <= 1
            && (Drained(s) && s.refs.freed ==> s.log.disconnects == 1 && !s.ctrl.connected)
  {
    Reachable(kind, hasReply, es);
  }

  /** No message in flight and no handler or client call in progress. */
  ghost predicate Drained(s: State) {
    && s.toForward == 0 && s.toFinish == 0 && s.cancelMsgs == 0 && s.refs.destroyMsgs == 0
    && (s.cancel.NoCancel? || s.cancel.CancelDone?) && !s.destroy.DestroyFirst?
  }

  // ----- every query ends, and the client hears of it

  function Completions(s: State): nat {
    s.log.runErrors + s.log.runOks + s.log.cancelleds + s.reply.sends + s.log.localFinishes
  }

  /** Everything but the client's wish to cancel and the scope's wish to keep replying. */
  predicate Internal(e: Event) {
    match e
    case Replying(p) => p.DropProxy?
    case Controlling(c) => !c.ClientCancel?
    case _ => true
  }

  ghost predicate AllInternal(es: seq<Event>) {
    forall e :: e in es ==> Internal(e)
  }

  function CreatorRank(pc: CreatorPc): nat {
    match pc case Fresh => 3 case SelfSet => 2 case RunSent => 1 case Returned => 0
  }

  function RunRank(pc: RunPc): nat {
    match pc
    case Unsent => 10 case Queued => 9 case Dispatched => 8 case InScope => 5 case Thrown => 4
    case Flagged => 3 case Leaving => 2 case Unwound => 1 case Done => 0
  }

  function CancelRank(pc: CancelPc): nat {
    match pc
    case First => 12 case Holding => 11 case Won => 10 case Forwarded => 9 case ScopeThrew => 6
    case ProxyHeld => 5 case ProxySent => 4 case Disconnecting => 2 case Ending => 1
    case NoCancel => 0 case CancelDone => 0
  }

  /** A bound on the internal events still to come. */
  function Work(s: State): nat {
    CreatorRank(s.creator) + RunRank(s.run) + CancelRank(s.cancel) + 2 * s.reply.proxies
    + 4 * B(!s.refs.freed) + 3 * s.refs.destroyMsgs + B(s.destroy.DestroyFirst?)
    + 20 * B(!s.proxyGiven) + 17 * s.toForward + s.toFinish + 13 * s.cancelMsgs
  }

  lemma RunEventsWork(s: State, e: RunEvent)
    requires Inv(s) && RunEnabled(s, e)
    ensures Work(ApplyRun(s, e)) < Work(s)
  {
  }

  lemma CancelEventsWork(s: State, e: CancelEvent)
    requires Inv(s) && CancelEnabled(s, e)
    ensures Work(ApplyCancel(s, e)) < Work(s)
  {
  }

  lemma ClientEventsWork(s: State, e: ClientEvent)
    requires Inv(s) && ClientEnabled(s, e) && !e.ClientCancel?
    ensures Work(ApplyClient(s, e)) < Work(s)
  {
  }

  lemma OtherEventsWork(s: State, e: Event)
    requires Inv(s) && Enabled(s, e) && Internal(e) && !e.Running? && !e.Cancelling? && !e.Controlling?
    ensures Work(Apply(s, e)) < Work(s)
  {
  }

  lemma InternalEventsWork(s: State, e: Event)
    requires Inv(s) && Enabled(s, e) && Internal(e)
    ensures Work(Apply(s, e)) < Work(s)
  {
    match e
    case Running(r) => RunEventsWork(s, r);
    case Cancelling(c) => CancelEventsWork(s, c);
    case Controlling(c) => ClientEventsWork(s, c);
    case _ => OtherEventsWork(s, e);
  }

  /** Whatever the schedule, only so many internal events fit into a run. */
  lemma {:induction false} InternalRunsAreBounded(s: State, es: seq<Event>)
    requires Inv(s) && IsRun(s, es) && AllInternal(es)
    ensures |es| <= Work(s)
    decreases |es|
  {
    if es != [] {
      InternalEventsWork(s, es[0]);
      StepInv(s, es[0]);
      InternalRunsAreBounded(Apply(s, es[0]), es[1..]);
    }
  }

  /** The object is freed, the control servant is gone, nothing is in flight, and the client was sent at
      least one completion. */
  ghost predicate Over(s: State) {
    s.refs.freed && Drained(s) && s.log.disconnects == 1 && Completions(s) >= 1
  }

  ghost predicate Settled(s: State) {
    forall e :: Enabled(s, e) ==> !Internal(e)
  }

  /** A state in which no internal event is possible is the end of the query. */
  lemma SettledMeansOver(s: State)
    requires Inv(s) && Settled(s)
    ensures Over(s)
  {
    assert !Enabled(s, Creating(SetSelf)) && !Enabled(s, Creating(SendRun)) && !Enabled(s, Creating(CreatorReturn));
    assert !Enabled(s, Running(RunDispatch)) && !Enabled(s, Running(RunEnter)) && !Enabled(s, Running(ScopeReturn));
    assert !Enabled(s, Running(ThrowFlag)) && !Enabled(s, Running(SendError)) && !Enabled(s, Running(RunLeave));
    assert !Enabled(s, Running(FrameDrop)) && !Enabled(s, Replying(DropProxy));
    assert !Enabled(s, Controlling(ClientSetProxy)) && !Enabled(s, Controlling(Forward)) && !Enabled(s, Controlling(LocalFinish));
    assert !Enabled(s, Cancelling(CancelArrive)) && !Enabled(s, Cancelling(LockQuery)) && !Enabled(s, Cancelling(CancelCheck));
    assert !Enabled(s, Cancelling(ScopeCancel(false))) && !Enabled(s, Cancelling(LockProxy));
    assert !Enabled(s, Cancelling(SendCancelled)) && !Enabled(s, Cancelling(DropLocked));
    assert !Enabled(s, Cancelling(CtrlDisconnect)) && !Enabled(s, Cancelling(CancelEnd));
    assert !Enabled(s, Destroying(DestroyArrive)) && !Enabled(s, Destroying(DestroyDisconnect));
  }

  /** From every state some run of internal events ends the query. */
  lemma {:induction false} CanEnd(s: State) returns (es: seq<Event>)
    requires Inv(s)
    ensures IsRun(s, es) && Over(After(s, es)) && AllInternal(es)
    ensures Settled(s) ==> es == []
    decreases Work(s)
  {
    if Settled(s) {
      SettledMeansOver(s);
      es := [];
    } else {
      var e :| Enabled(s, e) && Internal(e);
      InternalEventsWork(s, e);
      StepInv(s, e);
      var rest := CanEnd(Apply(s, e));
      es := [e] + rest;
      assert es[1..] == rest;
    }
  }

  lemma {:induction false} Continue(s: State, es: seq<Event>) returns (more: seq<Event>)
    requires Inv(s) && IsRun(s, es)
    ensures IsRun(s, es + more) && Over(After(s, es + more)) && AllInternal(more)
    ensures Settled(After(s, es)) ==> more == []
  {
    RunKeepsInv(s, es);
    more := CanEnd(After(s, es));
    RunSplits(s, es, more);
  }

  /** No interleaving leaks or wedges a query: any run can be continued by internal events alone to the query's end,
      and any run that cannot be continued by an internal event has reached it. */
  lemma {:induction false} EveryQueryEnds(kind: Kind, hasReply: bool, es: seq<Event>) returns (more: seq<Event>)
    requires IsRun(Init(kind, hasReply), es)
    ensures IsRun(Init(kind, hasReply), es + more) && Over(Start(kind, hasReply, es + more))
    ensures AllInternal(more)
    ensures Settled(Start(kind, hasReply, es)) ==> more == []
  {
    InitInv(kind, hasReply);
    more := Continue(Init(kind, hasReply), es);
  }
}
