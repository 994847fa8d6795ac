/** The events of a call that no other thread disturbs, taken together, have the outcome that is proved of the
    methods of QueryObjects. */
module UndisturbedCalls {
  import opened QueryObjects
  import opened QueryProtocol
  import QueryGuarantees

  function Occurrences(sent: seq<Completion>, c: Completion): nat {
    if sent == [] then 0 else B(sent[0] == c) + Occurrences(sent[1..], c)
  }

  /** Between `s` and `t` the query object went through `o` and nothing else was recorded about it. */
  ghost predicate Recorded(s: State, t: State, o: Outcome) {
    && t.q == o.q
    && t.log.scopeRuns == s.log.scopeRuns + o.runs && t.log.scopeCancels == s.log.scopeCancels + o.cancels
    && t.log.runErrors == s.log.runErrors + Occurrences(o.sent, Error)
    && t.log.runOks == s.log.runOks + Occurrences(o.sent, OK)
    && t.log.cancelleds == s.log.cancelleds + Occurrences(o.sent, Cancelled)
  }

  // ----- putting events together

  lemma RunOne(s: State, e: Event)
    requires Enabled(s, e)
    ensures IsRun(s, [e]) && After(s, [e]) == Apply(s, e)
  {
    assert [e][1..] == [];
    assert IsRun(Apply(s, e), []);
  }

  lemma RunMore(s: State, e: Event, es: seq<Event>)
    requires Enabled(s, e) && IsRun(Apply(s, e), es)
    ensures IsRun(s, [e] + es) && After(s, [e] + es) == After(Apply(s, e), es)
  {
    assert ([e] + es)[1..] == es;
  }

  // ----- run()

  /** What run() does from the moment it takes the lock until it returns. */
  function RunCall(q: Query, scopeThrows: bool): seq<Event> {
    [Running(RunEnter)] +
    if !Admits(q) then []
    else if !scopeThrows then [Running(ScopeReturn)]
    else if q.kind.Activation? then [Running(ScopeThrow)] + [Running(SendError)]
    else [Running(ScopeThrow)] + ([Running(ThrowFlag)] + [Running(SendError)])
  }

  lemma RunCallRefused(s: State)
    requires s.run.Dispatched? && !Admits(s.q)
    ensures IsRun(s, [Running(RunEnter)])
    ensures var t := After(s, [Running(RunEnter)]); t.run.Leaving? && Recorded(s, t, RunOutcome(s.q, false))
  {
    RunOne(s, Running(RunEnter));
  }

  lemma RunCallReturns(s: State)
    requires s.run.Dispatched? && Admits(s.q)
    ensures var es := [Running(RunEnter)] + [Running(ScopeReturn)];
            IsRun(s, es) && After(s, es).run.Leaving? && Recorded(s, After(s, es), RunOutcome(s.q, false))
  {
    var s1 := Apply(s, Running(RunEnter));
    RunOne(s1, Running(ScopeReturn));
    RunMore(s, Running(RunEnter), [Running(ScopeReturn)]);
  }

  lemma ActivationThrows(s: State)
    requires s.run.Dispatched? && s.q.kind.Activation?
    ensures var es := [Running(RunEnter)] + ([Running(ScopeThrow)] + [Running(SendError)]);
            IsRun(s, es) && After(s, es).run.Leaving? && Recorded(s, After(s, es), RunOutcome(s.q, true))
  {
    var s1 := Apply(s, Running(RunEnter));
    var s2 := Apply(s1, Running(ScopeThrow));
    RunOne(s2, Running(SendError));
    RunMore(s1, Running(ScopeThrow), [Running(SendError)]);
    RunMore(s, Running(RunEnter), [Running(ScopeThrow)] + [Running(SendError)]);
  }

  lemma SearchThrows(s: State)
    requires s.run.Dispatched? && Admits(s.q) && !s.q.kind.Activation?
    ensures var es := [Running(RunEnter)] + ([Running(ScopeThrow)] + ([Running(ThrowFlag)] + [Running(SendError)]));
            IsRun(s, es) && After(s, es).run.Leaving? && Recorded(s, After(s, es), RunOutcome(s.q, true))
  {
    var s1 := Apply(s, Running(RunEnter));
    var s2 := Apply(s1, Running(ScopeThrow));
    var s3 := Apply(s2, Running(ThrowFlag));
    RunOne(s3, Running(SendError));
    RunMore(s2, Running(ThrowFlag), [Running(SendError)]);
    RunMore(s1, Running(ScopeThrow), [Running(ThrowFlag)] + [Running(SendError)]);
    RunMore(s, Running(RunEnter), [Running(ScopeThrow)] + ([Running(ThrowFlag)] + [Running(SendError)]));
  }

  /** The events of an undisturbed run() have the outcome of the methods Run and Activate. */
  lemma UndisturbedRun(s: State, scopeThrows: bool)
    requires s.run.Dispatched?
    ensures var es := RunCall(s.q, scopeThrows);
            IsRun(s, es) && After(s, es).run.Leaving? && Recorded(s, After(s, es), RunOutcome(s.q, scopeThrows))
  {
    if !Admits(s.q) {
      assert RunCall(s.q, scopeThrows) == [Running(RunEnter)];
      RunCallRefused(s);
    } else if !scopeThrows {
      RunCallReturns(s);
    } else if s.q.kind.Activation? {
      ActivationThrows(s);
    } else {
      SearchThrows(s);
    }
  }

  // ----- cancel()

  /** What QueryObject::cancel does, seen from its caller, which holds a reference to the query object. */
  function CancelCall(q: Query, scopeThrows: bool, replyAlive: bool): seq<Event> {
    [Cancelling(CancelCheck)] +
    if !q.pushable then [] else [Cancelling(ScopeCancel(scopeThrows))] + AfterScopeCancel(scopeThrows, replyAlive)
  }

  function AfterScopeCancel(scopeThrows: bool, replyAlive: bool): seq<Event> {
    if scopeThrows then [Cancelling(SendCancelled)]
    else if replyAlive then [Cancelling(LockProxy)] + ([Cancelling(SendCancelled)] + [Cancelling(DropLocked)])
    else [Cancelling(LockProxy)]
  }

  lemma AfterScopeCancelRuns(s: State, scopeThrows: bool)
    requires if scopeThrows then s.cancel.ScopeThrew? else s.cancel.Forwarded?
    ensures var replyAlive := s.reply.proxies > 0;
            var es := AfterScopeCancel(scopeThrows, replyAlive);
            && IsRun(s, es)
            && var t := After(s, es);
               t.cancel.Disconnecting? && t.q == s.q && t.reply == s.reply && t.refs == s.refs && t.ctrl == s.ctrl &&
               t.log == s.log.(cancelleds := s.log.cancelleds + B(scopeThrows || replyAlive)) && t.cancelHolds == s.cancelHolds
  {
    if scopeThrows {
      RunOne(s, Cancelling(SendCancelled));
    } else if s.reply.proxies > 0 {
      var s1 := Apply(s, Cancelling(LockProxy));
      var s2 := Apply(s1, Cancelling(SendCancelled));
      RunOne(s2, Cancelling(DropLocked));
      RunMore(s1, Cancelling(SendCancelled), [Cancelling(DropLocked)]);
      RunMore(s, Cancelling(LockProxy), [Cancelling(SendCancelled)] + [Cancelling(DropLocked)]);
    } else {
      RunOne(s, Cancelling(LockProxy));
    }
  }

  /** What a cancellation leaves as it was. */
  ghost predicate OnlyTheQuery(s: State, t: State) {
    t.reply == s.reply && t.refs == s.refs && t.ctrl == s.ctrl && t.cancelHolds == s.cancelHolds &&
    t.log.disconnects == s.log.disconnects
  }

  /** The events of an undisturbed cancel() have the outcome of the method Cancel. */
  lemma UndisturbedCancel(s: State, scopeThrows: bool)
    requires s.cancel.Holding?
    ensures var replyAlive := s.reply.proxies > 0;
            var es := CancelCall(s.q, scopeThrows, replyAlive);
            && IsRun(s, es)
            && After(s, es).cancel.Disconnecting? && OnlyTheQuery(s, After(s, es))
            && Recorded(s, After(s, es), CancelOutcome(s.q, scopeThrows, replyAlive))
  {
    var check, scope := Cancelling(CancelCheck), Cancelling(ScopeCancel(scopeThrows));
    if !s.q.pushable {
      assert CancelCall(s.q, scopeThrows, s.reply.proxies > 0) == [check];
      RunOne(s, check);
    } else {
      var s1 := Apply(s, check);
      var s2 := Apply(s1, scope);
      var rest := AfterScopeCancel(scopeThrows, s.reply.proxies > 0);
      AfterScopeCancelRuns(s2, scopeThrows);
      RunMore(s1, scope, rest);
      RunMore(s, check, [scope] + rest);
    }
  }

  // ----- the control servant

  const HANG_UP := [Cancelling(CtrlDisconnect)] + [Cancelling(CancelEnd)]

  lemma HangUp(s: State)
    requires s.cancel.Disconnecting?
    ensures IsRun(s, HANG_UP)
    ensures var t := After(s, HANG_UP);
            t.q == s.q && t.ctrl == Disconnected(s.ctrl) && t.log == s.log.(disconnects := s.log.disconnects + 1)
  {
    RunOne(Apply(s, Cancelling(CtrlDisconnect)), Cancelling(CancelEnd));
    RunMore(s, Cancelling(CtrlDisconnect), [Cancelling(CancelEnd)]);
  }

  /** What QueryCtrlObject::cancel does once it has passed the exchange. */
  function FirstCancel(s: State, scopeThrows: bool): seq<Event> {
    [Cancelling(LockQuery)] +
    ((if s.refs.freed then [] else CancelCall(s.q, scopeThrows, s.reply.proxies > 0)) + HANG_UP)
  }

  /** The query part of QueryCtrlObject::cancel: a query that is gone is left alone. */
  function ForwardOutcome(s: State, scopeThrows: bool): Outcome {
    if s.refs.freed then Outcome(s.q, 0, 0, []) else CancelOutcome(s.q, scopeThrows, s.reply.proxies > 0)
  }

  lemma FirstCancelRuns(s: State, scopeThrows: bool)
    requires s.cancel.First?
    ensures var es := FirstCancel(s, scopeThrows);
            && IsRun(s, es)
            && var t := After(s, es);
               && t.ctrl == Disconnected(s.ctrl) && t.log.disconnects == s.log.disconnects + 1
               && Recorded(s, t, ForwardOutcome(s, scopeThrows))
  {
    var s1 := Apply(s, Cancelling(LockQuery));
    if s.refs.freed {
      HangUp(s1);
      assert [] + HANG_UP == HANG_UP;
      RunMore(s, Cancelling(LockQuery), HANG_UP);
    } else {
      var call := CancelCall(s.q, scopeThrows, s.reply.proxies > 0);
      UndisturbedCancel(s1, scopeThrows);
      HangUp(After(s1, call));
      QueryGuarantees.RunSplits(s1, call, HANG_UP);
      RunMore(s, Cancelling(LockQuery), call + HANG_UP);
    }
  }

  /** The events of an undisturbed cancel message have the outcome of the method QueryCtrlObject.Cancel. */
  lemma UndisturbedControlCancel(s: State, scopeThrows: bool)
    requires s.cancelMsgs > 0 && s.ctrl.connected
    ensures var es := [Cancelling(CancelArrive)] + if s.ctrl.destroyed then [] else FirstCancel(s, scopeThrows);
            && IsRun(s, es)
            && var t := After(s, es);
               && t.ctrl == ControlOutcome(s.ctrl) && t.log.disconnects == s.log.disconnects + B(!s.ctrl.destroyed)
               && Recorded(s, t, if s.ctrl.destroyed then Outcome(s.q, 0, 0, []) else ForwardOutcome(s, scopeThrows))
  {
    var arrive := Cancelling(CancelArrive);
    if s.ctrl.destroyed {
      assert [arrive] + [] == [arrive];
      RunOne(s, arrive);
    } else {
      var s1 := Apply(s, arrive);
      assert FirstCancel(s1, scopeThrows) == FirstCancel(s, scopeThrows);
      FirstCancelRuns(s1, scopeThrows);
      RunMore(s, arrive, FirstCancel(s, scopeThrows));
    }
  }

  /** The events of an undisturbed destroy message have the outcome of the method QueryCtrlObject.Destroy. */
  lemma UndisturbedDestroy(s: State)
    requires s.refs.destroyMsgs > 0 && s.ctrl.connected
    ensures var es := [Destroying(DestroyArrive)] + if s.ctrl.destroyed then [] else [Destroying(DestroyDisconnect)];
            && IsRun(s, es)
            && var t := After(s, es);
               t.q == s.q && t.ctrl == ControlOutcome(s.ctrl) && t.log.disconnects == s.log.disconnects + B(!s.ctrl.destroyed)
  {
    var arrive := Destroying(DestroyArrive);
    if s.ctrl.destroyed {
      assert [arrive] + [] == [arrive];
      RunOne(s, arrive);
    } else {
      RunOne(Apply(s, arrive), Destroying(DestroyDisconnect));
      RunMore(s, arrive, [Destroying(DestroyDisconnect)]);
    }
  }

  // ----- the client's control

  const FORWARD := [Controlling(Forward)] + [Controlling(LocalFinish)]

  lemma ForwardRuns(s: State)
    requires s.toForward > 0
    ensures IsRun(s, FORWARD)
    ensures var t := After(s, FORWARD);
            t.client == s.client && t.log.forwards == s.log.forwards + 1 && t.log.localFinishes == s.log.localFinishes + 1
  {
    RunOne(Apply(s, Controlling(Forward)), Controlling(LocalFinish));
    RunMore(s, Controlling(Forward), [Controlling(LocalFinish)]);
  }

  /** `n` messages were forwarded, each with its local completion. */
  ghost predicate Forwarded(s: State, t: State, n: nat) {
    t.log.forwards == s.log.forwards + n && t.log.localFinishes == s.log.localFinishes + n
  }

  /** The events of an undisturbed client cancel() have the outcome of the method QueryCtrlImpl.Cancel. */
  lemma UndisturbedClientCancel(s: State)
    ensures var es := [Controlling(ClientCancel)] + if s.client.ready then FORWARD else [];
            IsRun(s, es) && After(s, es).client == RecordCancel(s.client) && Forwarded(s, After(s, es), B(s.client.ready))
  {
    var cancel := Controlling(ClientCancel);
    if s.client.ready {
      ForwardRuns(Apply(s, cancel));
      RunMore(s, cancel, FORWARD);
    } else {
      assert [cancel] + [] == [cancel];
      RunOne(s, cancel);
    }
  }

  /** The events of an undisturbed set_proxy() have the outcome of the method QueryCtrlImpl.SetProxy. */
  lemma UndisturbedSetProxy(s: State)
    requires s.creator.Returned? && !s.proxyGiven
    ensures var owed := s.client.hasReply && s.client.cancelled;
            var es := [Controlling(ClientSetProxy)] + if owed then FORWARD else [];
            IsRun(s, es) && After(s, es).client == InstallProxy(s.client) && Forwarded(s, After(s, es), B(owed))
  {
    var install := Controlling(ClientSetProxy);
    if s.client.hasReply && s.client.cancelled {
      ForwardRuns(Apply(s, install));
      RunMore(s, install, FORWARD);
    } else {
      assert [install] + [] == [install];
      RunOne(s, install);
    }
  }
}
