/** The objects that carry one query between a client and a scope: the query object that runs it
    (search, preview and activation), the control object that receives cancel and destroy messages,
    and the client-side control through which an application cancels.

    Every critical section of the source is one function on a value (`Query`, `Ctrl`, `Client`) and
    one method on the class that owns the fields; the method's contract ties the two. QueryProtocol
    applies the same functions as events and lets them interleave freely. The `Outcome` functions say what a whole
    call amounts to: the methods are proved to have that outcome, and so are, in UndisturbedCalls, the events of a
    call that no other thread disturbs. */
module QueryObjects {

  datatype Kind = Search | Preview | Activation

  /** The status carried by a finished() message. */
  datatype Completion = OK | Error | Cancelled

  /** The fields of a query object. `selfHeld` is self_ != nullptr, `replySet` says that the weak
      pointer reply_proxy_ has been assigned, `connected` that the middleware still knows the servant. */
  datatype Query = Query(kind: Kind, pushable: bool, selfHeld: bool, replySet: bool, connected: bool)

  /** An activation runs whether or not it was cancelled; a search or a preview runs only while pushable. */
  predicate Admits(q: Query) {
    q.kind.Activation? || q.pushable
  }

  /** Effect of set_self(). */
  function HoldSelf(q: Query): Query {
    q.(selfHeld := true)
  }

  /** Effect of taking pushable_ down, in cancel() and after the scope's run() threw. */
  function TakeFlag(q: Query): Query {
    q.(pushable := false)
  }

  /** Effect of the locked part of run(). */
  function EnterRun(q: Query): Query {
    q.(selfHeld := false, connected := false, replySet := q.replySet || (Admits(q) && !q.kind.Activation?))
  }

  /** The control servant: its one-shot flag and whether the middleware still knows it. */
  datatype Ctrl = Ctrl(destroyed: bool, connected: bool)

  /** Effect of the atomic exchange on destroyed_. */
  function Exchanged(c: Ctrl): Ctrl {
    c.(destroyed := true)
  }

  function Disconnected(c: Ctrl): Ctrl {
    c.(connected := false)
  }

  /** The client-side control. `hasReply` is reply_proxy_ != nullptr, which never changes. */
  datatype Client = Client(hasReply: bool, ready: bool, cancelled: bool)

  /** Effect of the locked part of QueryCtrlImpl::cancel(). */
  function RecordCancel(c: Client): Client {
    if c.ready then c else c.(cancelled := true)
  }

  /** Effect of the locked part of QueryCtrlImpl::set_proxy(). */
  function InstallProxy(c: Client): Client {
    if c.hasReply then c.(ready := true) else c
  }

  // ----- whole calls

  /** The query object after a call, how often the scope was run and cancelled, and what was sent. */
  datatype Outcome = Outcome(q: Query, runs: nat, cancels: nat, sent: seq<Completion>)

  function RunOutcome(q: Query, scopeThrows: bool): Outcome {
    if !Admits(q) then Outcome(EnterRun(q), 0, 0, [])
    else if q.kind.Activation? then Outcome(EnterRun(q), 1, 0, [if scopeThrows then Error else OK])
    else if scopeThrows then Outcome(TakeFlag(EnterRun(q)), 1, 0, [Error])
    else Outcome(EnterRun(q), 1, 0, [])
  }

  /** `replyAlive` says whether some reply proxy still exists, so that reply_proxy_.lock() succeeds. */
  function CancelOutcome(q: Query, scopeThrows: bool, replyAlive: bool): Outcome {
    if !q.pushable then Outcome(q, 0, 0, [])
    else Outcome(TakeFlag(q), 0, 1, if scopeThrows || replyAlive then [Cancelled] else [])
  }

  /** The control servant after cancel() or destroy(), whichever comes first disconnecting it. */
  function ControlOutcome(c: Ctrl): Ctrl {
    if c.destroyed then c else Disconnected(Exchanged(c))
  }

  class QueryObject {
    const kind: Kind
    var pushable: bool
    var selfHeld: bool
    var replySet: bool
    var connected: bool
    var scopeRuns: nat
    var scopeCancels: nat
    var sent: seq<Completion>   // what this object has sent through reply_

    constructor (kind: Kind)
      ensures this.kind == kind && View() == Query(kind, true, false, false, true)
      ensures scopeRuns == 0 && scopeCancels == 0 && sent == []
    {
      this.kind := kind;
      pushable, selfHeld, replySet, connected := true, false, false, true;
      scopeRuns, scopeCancels, sent := 0, 0, [];
    }

    ghost function View(): Query
      reads this
    {
      Query(kind, pushable, selfHeld, replySet, connected)
    }

    method SetSelf()
      requires !selfHeld
      modifies this`selfHeld
      ensures View() == HoldSelf(old(View()))
    {
      selfHeld := true;
    }

    /** The part of run() that holds the lock. The reply proxy is created, and remembered weakly,
        before the object lets go of itself. */
    method EnterRunSection() returns (admitted: bool)
      requires Admits(View()) ==> selfHeld
      modifies this`selfHeld, this`connected, this`replySet
      ensures admitted == Admits(old(View()))
      ensures View() == EnterRun(old(View()))
    {
      if kind != Activation {
        if !pushable {
          selfHeld := false;
          connected := false;
          return false;
        }
        replySet := true;
      }
      selfHeld := false;
      connected := false;
      return true;
    }

    method ClearPushable()
      modifies this`pushable
      ensures View() == TakeFlag(old(View()))
    {
      pushable := false;
    }

    /** The call added this much to what the object has done. */
    twostate predicate Amounts(o: Outcome)
      reads this
    {
      && View() == o.q && sent == old(sent) + o.sent
      && scopeRuns == old(scopeRuns) + o.runs && scopeCancels == old(scopeCancels) + o.cancels
    }

    /** QueryObject::run and PreviewQueryObject::run. */
    method Run(scopeThrows: bool)
      requires kind != Activation
      requires pushable ==> selfHeld
      modifies this
      ensures Amounts(RunOutcome(old(View()), scopeThrows))
      ensures sent == old(sent) + if old(pushable) && scopeThrows then [Error] else []
      ensures scopeRuns == old(scopeRuns) + (if old(pushable) then 1 else 0) && scopeCancels == old(scopeCancels)
      ensures pushable == (old(pushable) && !scopeThrows) && replySet == (old(replySet) || old(pushable))
      ensures !selfHeld && !connected
    {
      var admitted := EnterRunSection();
      if !admitted {
        return;
      }
      scopeRuns := scopeRuns + 1;
      if scopeThrows {
        ClearPushable();
        sent := sent + [Error];
      }
    }

    /** ActivationQueryObject::run: cancelled or not, exactly one completion. */
    method Activate(scopeThrows: bool)
      requires kind == Activation && selfHeld
      modifies this
      ensures Amounts(RunOutcome(old(View()), scopeThrows))
      ensures sent == old(sent) + [if scopeThrows then Error else OK]
      ensures scopeRuns == old(scopeRuns) + 1 && scopeCancels == old(scopeCancels)
      ensures pushable == old(pushable) && replySet == old(replySet) && !selfHeld && !connected
    {
      var _ := EnterRunSection();
      scopeRuns := scopeRuns + 1;
      sent := sent + [if scopeThrows then Error else OK];
    }

    /** The part of cancel() that holds the lock: true for the one caller that takes the flag down. */
    method CancelSection() returns (won: bool)
      modifies this`pushable
      ensures won == old(pushable)
      ensures View() == TakeFlag(old(View()))
    {
      if !pushable {
        return false;
      }
      pushable := false;
      return true;
    }

    method Cancel(scopeThrows: bool, replyAlive: bool)
      requires replyAlive ==> replySet
      modifies this
      ensures Amounts(CancelOutcome(old(View()), scopeThrows, replyAlive))
      ensures sent == old(sent) + if old(pushable) && (scopeThrows || replyAlive) then [Cancelled] else []
      ensures scopeCancels == old(scopeCancels) + (if old(pushable) then 1 else 0) && scopeRuns == old(scopeRuns)
      ensures View() == old(View()).(pushable := false)
    {
      var won := CancelSection();
      if !won {
        return;
      }
      scopeCancels := scopeCancels + 1;
      if scopeThrows {
        sent := sent + [Cancelled];
      } else if replyAlive {
        sent := sent + [Cancelled];
      }
    }
  }

  class QueryCtrlObject {
    var destroyed: bool
    var connected: bool
    var disconnects: nat
    var query: QueryObject?   // qo_, a weak pointer

    constructor ()
      ensures View() == Ctrl(false, true) && disconnects == 0 && query == null
    {
      destroyed, connected, disconnects, query := false, true, 0, null;
    }

    ghost function View(): Ctrl
      reads this
    {
      Ctrl(destroyed, connected)
    }

    method SetQuery(qo: QueryObject)
      modifies this`query
      ensures query == qo
    {
      query := qo;
    }

    /** The atomic exchange on destroyed_: true for the one caller that gets through. */
    method Exchange() returns (first: bool)
      modifies this`destroyed
      ensures first == !old(destroyed) && View() == Exchanged(old(View()))
    {
      first := !destroyed;
      destroyed := true;
    }

    method Disconnect()
      modifies this`connected, this`disconnects
      ensures View() == Disconnected(old(View())) && disconnects == old(disconnects) + 1
    {
      connected := false;
      disconnects := disconnects + 1;
    }

    /** `alive` says whether qo_.lock() still finds the query object. */
    method Cancel(alive: bool, scopeThrows: bool, replyAlive: bool)
      requires alive ==> query != null && (replyAlive ==> query.replySet)
      modifies this, query
      ensures View() == ControlOutcome(old(View())) && query == old(query)
      ensures disconnects == old(disconnects) + if old(destroyed) then 0 else 1
      ensures destroyed && connected == (old(connected) && old(destroyed))
      ensures alive && !old(destroyed) ==>
                && query.sent == old(query.sent) + (if old(query.pushable) && (scopeThrows || replyAlive) then [Cancelled] else [])
                && query.scopeCancels == old(query.scopeCancels) + (if old(query.pushable) then 1 else 0)
      ensures alive && !old(destroyed) ==> query.Amounts(CancelOutcome(old(query.View()), scopeThrows, replyAlive))
      ensures query != null && (old(destroyed) || !alive) ==> unchanged(query)
    {
      var first := Exchange();
      if !first {
        return;
      }
      if alive {
        query.Cancel(scopeThrows, replyAlive);
      }
      Disconnect();
    }

    method Destroy()
      modifies this
      ensures View() == ControlOutcome(old(View())) && query == old(query)
      ensures destroyed && connected == (old(connected) && old(destroyed))
      ensures disconnects == old(disconnects) + if old(destroyed) then 0 else 1
    {
      var first := Exchange();
      if !first {
        return;
      }
      Disconnect();
    }
  }

  class QueryCtrlImpl {
    const hasReply: bool
    var ready: bool
    var cancelled: bool
    var forwards: nat        // cancel messages sent through the control proxy
    var localFinishes: nat   // Cancelled completions sent to our own reply object

    constructor (proxyGiven: bool, hasReply: bool)
      ensures View() == Client(hasReply, proxyGiven, false) && forwards == 0 && localFinishes == 0
    {
      this.hasReply := hasReply;
      ready, cancelled, forwards, localFinishes := proxyGiven, false, 0, 0;
    }

    ghost function View(): Client
      reads this
    {
      Client(hasReply, ready, cancelled)
    }

    method Cancel()
      modifies this
      ensures View() == RecordCancel(old(View()))
      ensures forwards == old(forwards) + if old(ready) then 1 else 0
      ensures localFinishes - old(localFinishes) == forwards - old(forwards)
    {
      if !ready {
        cancelled := true;
        return;
      }
      forwards := forwards + 1;
      localFinishes := localFinishes + 1;
    }

    method SetProxy()
      requires !ready
      modifies this
      ensures View() == InstallProxy(old(View()))
      ensures forwards == old(forwards) + if hasReply && old(cancelled) then 1 else 0
      ensures localFinishes - old(localFinishes) == forwards - old(forwards)
    {
      if !hasReply {
        return;
      }
      ready := true;
      if cancelled {
        Cancel();
      }
    }
  }
}
