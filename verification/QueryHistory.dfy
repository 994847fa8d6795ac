/** What a query has done, read off the events of its run: every completion, run and cancellation that the events
    call for has happened, and no other. */
module QueryHistory {
  import opened QueryObjects
  import opened QueryProtocol
  import opened QueryGuarantees

  const RUN_ENTER := Running(RunEnter)
  const RETURNED := Running(ScopeReturn)
  const THREW := Running(ScopeThrow)
  const FLAGGED := Running(ThrowFlag)
  const ARRIVE := Cancelling(CancelArrive)
  const DESTROY := Destroying(DestroyArrive)
  const CHECK := Cancelling(CancelCheck)
  const LOCK_QUERY := Cancelling(LockQuery)
  const LOCK_PROXY := Cancelling(LockProxy)
  const CANCEL_THREW := Cancelling(ScopeCancel(true))

  /** `e` happens in the run, and no `other` before it. */
  ghost predicate First(es: seq<Event>, e: Event, other: Event) {
    exists i :: 0 <= i < |es| && es[i] == e && other !in es[..i]
  }

  /** The scope's cancel returned while some reply proxy was alive. */
  ghost predicate ProxyFound(s0: State, es: seq<Event>) {
    exists i :: 0 <= i < |es| && es[i] == LOCK_PROXY && ProxyAlive(s0, es[..i])
  }

  /** The cancellation found the query object alive. */
  ghost predicate QueryFound(s0: State, es: seq<Event>) {
    exists i :: 0 <= i < |es| && es[i] == LOCK_QUERY && QueryAlive(s0, es[..i])
  }

  ghost predicate QueryAlive(s0: State, es: seq<Event>) {
    IsRun(s0, es) && !After(s0, es).refs.freed
  }

  ghost predicate ProxyAlive(s0: State, es: seq<Event>) {
    IsRun(s0, es) && After(s0, es).reply.proxies > 0
  }

  /** The facts about the events so far that the state depends on. */
  datatype Past = Past(
    entered: bool, admitted: bool, returned: bool, threw: bool, flagged: bool,
    arrived: bool, destroyed: bool, cancelFirst: bool, checked: bool, checkFirst: bool,
    cancelThrew: bool, proxyTried: bool, proxyFound: bool, queryFound: bool, replyFinished: bool)

  function Next(p: Past, s: State, e: Event): Past {
    p.(entered := p.entered || e == RUN_ENTER,
       admitted := p.admitted || (e == RUN_ENTER && !p.checked),
       returned := p.returned || e == RETURNED,
       threw := p.threw || e == THREW,
       flagged := p.flagged || e == FLAGGED,
       arrived := p.arrived || e == ARRIVE,
       destroyed := p.destroyed || e == DESTROY,
       cancelFirst := p.cancelFirst || (e == ARRIVE && !p.destroyed),
       checked := p.checked || e == CHECK,
       checkFirst := p.checkFirst || (e == CHECK && !p.flagged),
       cancelThrew := p.cancelThrew || e == CANCEL_THREW,
       proxyTried := p.proxyTried || e == LOCK_PROXY,
       queryFound := p.queryFound || (e == LOCK_QUERY && !s.refs.freed),
       proxyFound := p.proxyFound || (e == LOCK_PROXY && s.reply.proxies > 0),
       replyFinished := p.replyFinished || e == Replying(ReplyFinish))
  }

  ghost predicate RunPast(s: State, p: Past) {
    && p.entered == !s.q.connected
    && s.log.scopeRuns == B(p.entered && (p.admitted || s.q.kind.Activation?))
    && (p.admitted ==> p.entered)
    && (p.returned ==> !p.threw) && (p.returned || p.threw ==> s.log.scopeRuns == 1)
    && (s.run.InScope? ==> !p.returned && !p.threw)
    && (s.run.Thrown? || s.run.Flagged? ==> p.threw)
    && (Ended(s) && s.log.scopeRuns == 1 ==> p.returned || p.threw)
    && s.log.runErrors == B(p.threw && Ended(s))
    && s.log.runOks == B(p.returned && s.q.kind.Activation?)
    && p.flagged == (p.threw && !s.q.kind.Activation? && !s.run.Thrown?)
    && (p.replyFinished ==> s.reply.done)
  }

  ghost predicate FlagPast(s: State, p: Past) {
    && s.q.pushable == (!p.checked && !p.flagged)
    && s.log.taker.Canceller? == p.checkFirst
    && (p.checkFirst ==> p.checked)
  }

  ghost predicate CancelPast(s: State, p: Past) {
    && s.ctrl.destroyed == (p.arrived || p.destroyed)
    && !s.cancel.NoCancel? == p.cancelFirst
    && (p.arrived && !p.destroyed ==> p.cancelFirst) && (p.cancelFirst ==> p.arrived)
    && (p.checked ==> !s.cancel.NoCancel? && !s.cancel.First? && !s.cancel.Holding?)
    && s.log.cancelThrew == p.cancelThrew
    && (p.proxyFound ==> s.log.scopeCancels == 1 && !s.log.cancelThrew && !s.cancel.Forwarded?)
    && (CancelProxy(s) ==> p.proxyFound)
    && (s.log.cancelleds == 1 <==> (p.cancelThrew && !s.cancel.ScopeThrew?) || (p.proxyFound && !s.cancel.ProxyHeld?))
  }

  /** No step of a cancellation is skipped. */
  ghost predicate NothingSkipped(s: State, p: Past) {
    && (p.queryFound && !s.cancel.Holding? ==> p.checked)
    && (p.checkFirst && !s.cancel.Won? && !s.cancel.Forwarded? ==> p.cancelThrew || p.proxyTried)
    && (s.cancel.ScopeThrew? ==> p.cancelThrew)
  }

  /** run() is past the scope and past its own error report. */
  predicate Ended(s: State) {
    s.run.Leaving? || s.run.Unwound? || s.run.Done?
  }

  ghost predicate Fits(s: State, p: Past) {
    RunPast(s, p) && FlagPast(s, p) && CancelPast(s, p) && NothingSkipped(s, p)
  }

  const NOTHING := Past(false, false, false, false, false, false, false, false, false, false, false, false, false, false, false)

  lemma InitFits(kind: Kind, hasReply: bool)
    ensures Fits(Init(kind, hasReply), NOTHING)
  {
    var s := Init(kind, hasReply);
    assert RunPast(s, NOTHING);
    assert FlagPast(s, NOTHING);
  }

  lemma RunStartFits(s: State, p: Past, e: RunEvent)
    requires Inv(s) && Fits(s, p) && RunEnabled(s, e) && (e.RunDispatch? || e.RunEnter?)
    ensures Fits(ApplyRun(s, e), Next(p, s, Running(e)))
  {
  }

  lemma ScopeEndFits(s: State, p: Past, e: RunEvent)
    requires Inv(s) && Fits(s, p) && RunEnabled(s, e) && (e.ScopeReturn? || e.ScopeThrow? || e.ThrowFlag? || e.SendError?)
    ensures Fits(ApplyRun(s, e), Next(p, s, Running(e)))
  {
  }

  lemma RunEndFits(s: State, p: Past, e: RunEvent)
    requires Inv(s) && Fits(s, p) && RunEnabled(s, e) && (e.RunLeave? || e.FrameDrop?)
    ensures Fits(ApplyRun(s, e), Next(p, s, Running(e)))
  {
  }

  lemma CancelStartFits(s: State, p: Past, e: CancelEvent)
    requires Inv(s) && Fits(s, p) && CancelEnabled(s, e) && (e.CancelArrive? || e.LockQuery? || e.CancelCheck?)
    ensures Fits(ApplyCancel(s, e), Next(p, s, Cancelling(e)))
  {
  }

  lemma CancelSendFits(s: State, p: Past, e: CancelEvent)
    requires Inv(s) && Fits(s, p) && CancelEnabled(s, e) && (e.ScopeCancel? || e.LockProxy? || e.SendCancelled?)
    ensures Fits(ApplyCancel(s, e), Next(p, s, Cancelling(e)))
  {
  }

  lemma CancelEndFits(s: State, p: Past, e: CancelEvent)
    requires Inv(s) && Fits(s, p) && CancelEnabled(s, e) && (e.DropLocked? || e.CtrlDisconnect? || e.CancelEnd?)
    ensures Fits(ApplyCancel(s, e), Next(p, s, Cancelling(e)))
  {
  }

  lemma CreatorStepFits(s: State, p: Past, e: CreatorEvent)
    requires Inv(s) && Fits(s, p) && CreatorEnabled(s, e)
    ensures Fits(ApplyCreator(s, e), Next(p, s, Creating(e)))
  {
  }

  lemma ProxyStepFits(s: State, p: Past, e: ProxyEvent)
    requires Inv(s) && Fits(s, p) && ProxyEnabled(s, e)
    ensures Fits(ApplyProxy(s, e), Next(p, s, Replying(e)))
  {
  }

  lemma ClientStepFits(s: State, p: Past, e: ClientEvent)
    requires Inv(s) && Fits(s, p) && ClientEnabled(s, e)
    ensures Fits(ApplyClient(s, e), Next(p, s, Controlling(e)))
  {
  }

  lemma DestroyStepFits(s: State, p: Past, e: DestroyEvent)
    requires Inv(s) && Fits(s, p) && DestroyEnabled(s, e)
    ensures Fits(ApplyDestroy(s, e), Next(p, s, Destroying(e)))
  {
  }

  lemma RunStepFits(s: State, p: Past, e: RunEvent)
    requires Inv(s) && Fits(s, p) && RunEnabled(s, e)
    ensures Fits(ApplyRun(s, e), Next(p, s, Running(e)))
  {
    match e {
      case RunDispatch | RunEnter => RunStartFits(s, p, e);
      case ScopeReturn | ScopeThrow | ThrowFlag | SendError => ScopeEndFits(s, p, e);
      case RunLeave | FrameDrop => RunEndFits(s, p, e);
    }
  }

  lemma CancelStepFits(s: State, p: Past, e: CancelEvent)
    requires Inv(s) && Fits(s, p) && CancelEnabled(s, e)
    ensures Fits(ApplyCancel(s, e), Next(p, s, Cancelling(e)))
  {
    match e {
      case CancelArrive | LockQuery | CancelCheck => CancelStartFits(s, p, e);
      case ScopeCancel(_) | LockProxy | SendCancelled => CancelSendFits(s, p, e);
      case DropLocked | CtrlDisconnect | CancelEnd => CancelEndFits(s, p, e);
    }
  }

  lemma StepFits(s: State, p: Past, e: Event)
    requires Inv(s) && Fits(s, p) && Enabled(s, e)
    ensures Fits(Apply(s, e), Next(p, s, e))
  {
    match e
    case Running(r) => RunStepFits(s, p, r);
    case Cancelling(c) => CancelStepFits(s, p, c);
    case Creating(c) => CreatorStepFits(s, p, c);
    case Replying(r) => ProxyStepFits(s, p, r);
    case Controlling(c) => ClientStepFits(s, p, c);
    case Destroying(d) => DestroyStepFits(s, p, d);
  }

  // ----- the past of a run

  lemma {:induction false} LastStep(s0: State, es: seq<Event>)
    requires IsRun(s0, es) && es != []
    ensures var before, e := es[..|es| - 1], es[|es| - 1];
            IsRun(s0, before) && Enabled(After(s0, before), e) && After(s0, es) == Apply(After(s0, before), e)
  {
    var before, e := es[..|es| - 1], es[|es| - 1];
    assert es == before + [e];
    RunSplits(s0, before, [e]);
    assert [e][1..] == [];
  }

  ghost function PastOf(s0: State, es: seq<Event>): Past
    requires IsRun(s0, es)
    decreases |es|
  {
    if es == [] then NOTHING
    else
      LastStep(s0, es);
      var before := es[..|es| - 1];
      Next(PastOf(s0, before), After(s0, before), es[|es| - 1])
  }

  lemma {:induction false} RunFits(s0: State, es: seq<Event>)
    requires Inv(s0) && Fits(s0, NOTHING) && IsRun(s0, es)
    ensures Fits(After(s0, es), PastOf(s0, es))
    decreases |es|
  {
    if es != [] {
      var before := es[..|es| - 1];
      LastStep(s0, es);
      RunFits(s0, before);
      RunKeepsInv(s0, before);
      StepFits(After(s0, before), PastOf(s0, before), es[|es| - 1]);
    }
  }

  lemma FirstLast(es: seq<Event>, e: Event, other: Event)
    requires es != []
    ensures var before, last := es[..|es| - 1], es[|es| - 1];
            First(es, e, other) <==> First(before, e, other) || (last == e && other !in before)
  {
    var before, last := es[..|es| - 1], es[|es| - 1];
    if First(es, e, other) {
      var i :| 0 <= i < |es| && es[i] == e && other !in es[..i];
      if i < |before| {
        assert before[i] == e && before[..i] == es[..i];
      }
    }
    if First(before, e, other) {
      var i :| 0 <= i < |before| && before[i] == e && other !in before[..i];
      assert es[i] == e && before[..i] == es[..i];
    }
    if last == e && other !in before {
      assert es[|before|] == e && es[..|before|] == before;
    }
  }

  lemma ProxyFoundLast(s0: State, es: seq<Event>)
    requires es != []
    ensures var before, last := es[..|es| - 1], es[|es| - 1];
            ProxyFound(s0, es) <==> ProxyFound(s0, before) || (last == LOCK_PROXY && ProxyAlive(s0, before))
  {
    var before := es[..|es| - 1];
    assert forall i :: 0 <= i < |before| ==> before[..i] == es[..i] && before[i] == es[i];
    assert es[..|before|] == before;
  }

  lemma QueryFoundLast(s0: State, es: seq<Event>)
    requires es != []
    ensures var before, last := es[..|es| - 1], es[|es| - 1];
            QueryFound(s0, es) <==> QueryFound(s0, before) || (last == LOCK_QUERY && QueryAlive(s0, before))
  {
    var before := es[..|es| - 1];
    assert forall i :: 0 <= i < |before| ==> before[..i] == es[..i] && before[i] == es[i];
    assert es[..|before|] == before;
  }

  lemma InLast(es: seq<Event>, e: Event)
    requires es != []
    ensures e in es <==> e in es[..|es| - 1] || es[|es| - 1] == e
  {
    assert es == es[..|es| - 1] + [es[|es| - 1]];
  }

  ghost predicate Seen(p: Past, es: seq<Event>) {
    && p.entered == (RUN_ENTER in es) && p.returned == (RETURNED in es) && p.threw == (THREW in es)
    && p.flagged == (FLAGGED in es) && p.arrived == (ARRIVE in es) && p.destroyed == (DESTROY in es)
    && p.checked == (CHECK in es) && p.cancelThrew == (CANCEL_THREW in es)
    && p.proxyTried == (LOCK_PROXY in es) && p.replyFinished == (Replying(ReplyFinish) in es)
  }

  ghost predicate Ordered(p: Past, s0: State, es: seq<Event>) {
    && p.admitted == First(es, RUN_ENTER, CHECK) && p.cancelFirst == First(es, ARRIVE, DESTROY)
    && p.checkFirst == First(es, CHECK, FLAGGED) && p.proxyFound == ProxyFound(s0, es) && p.queryFound == QueryFound(s0, es)
  }

  lemma SeenNext(p: Past, s: State, es: seq<Event>)
    requires es != [] && Seen(p, es[..|es| - 1])
    ensures Seen(Next(p, s, es[|es| - 1]), es)
  {
    InLast(es, RUN_ENTER);
    InLast(es, RETURNED);
    InLast(es, THREW);
    InLast(es, FLAGGED);
    InLast(es, ARRIVE);
    InLast(es, DESTROY);
    InLast(es, CHECK);
    InLast(es, CANCEL_THREW);
    InLast(es, LOCK_PROXY);
    InLast(es, Replying(ReplyFinish));
  }

  lemma OrderedNext(p: Past, s0: State, es: seq<Event>)
    requires es != [] && IsRun(s0, es[..|es| - 1]) && Seen(p, es[..|es| - 1]) && Ordered(p, s0, es[..|es| - 1])
    ensures Ordered(Next(p, After(s0, es[..|es| - 1]), es[|es| - 1]), s0, es)
  {
    FirstLast(es, RUN_ENTER, CHECK);
    FirstLast(es, ARRIVE, DESTROY);
    FirstLast(es, CHECK, FLAGGED);
    ProxyFoundLast(s0, es);
    QueryFoundLast(s0, es);
  }

  lemma {:induction false} PastIsRecalled(s0: State, es: seq<Event>)
    requires IsRun(s0, es)
    ensures Seen(PastOf(s0, es), es) && Ordered(PastOf(s0, es), s0, es)
    decreases |es|
  {
    if es != [] {
      var before := es[..|es| - 1];
      LastStep(s0, es);
      PastIsRecalled(s0, before);
      SeenNext(PastOf(s0, before), After(s0, before), es);
      OrderedNext(PastOf(s0, before), s0, es);
    }
  }

  // ----- the counts, exactly

  ghost predicate RunReported(s: State, kind: Kind, es: seq<Event>) {
    && s.log.scopeRuns == B(if kind == Activation then RUN_ENTER in es else First(es, RUN_ENTER, CHECK))
    && s.log.runErrors == B(THREW in es && Ended(s))
    && s.log.runOks == B(kind == Activation && RETURNED in es)
    && (Ended(s) && s.log.scopeRuns == 1 ==> (THREW in es) != (RETURNED in es))
    && (Replying(ReplyFinish) in es ==> s.reply.sends == 1)
  }

  ghost predicate CancelPursued(s: State, s0: State, es: seq<Event>) {
    && s.ctrl.destroyed == (ARRIVE in es || DESTROY in es)
    && !s.cancel.NoCancel? == First(es, ARRIVE, DESTROY)
    && s.q.pushable == (CHECK !in es && FLAGGED !in es)
    && s.log.scopeCancels == B(First(es, CHECK, FLAGGED) && !s.cancel.Won?)
    && (s.cancel.CancelDone? && QueryFound(s0, es) ==> CHECK in es)
  }

  ghost predicate CancelReported(s: State, s0: State, es: seq<Event>) {
    s.cancel.CancelDone? ==>
      && s.log.cancelleds == B(CANCEL_THREW in es || ProxyFound(s0, es))
      && (First(es, CHECK, FLAGGED) ==> CANCEL_THREW in es || LOCK_PROXY in es)
  }

  lemma Reports(s: State, p: Past, s0: State, es: seq<Event>)
    requires Inv(s) && Fits(s, p) && Seen(p, es) && Ordered(p, s0, es)
    ensures RunReported(s, s.q.kind, es) && CancelPursued(s, s0, es) && CancelReported(s, s0, es)
  {
  }

  lemma {:induction false} Account(kind: Kind, hasReply: bool, es: seq<Event>)
    requires IsRun(Init(kind, hasReply), es)
    ensures var s := Start(kind, hasReply, es);
            RunReported(s, kind, es) && CancelPursued(s, Init(kind, hasReply), es) && CancelReported(s, Init(kind, hasReply), es)
  {
    var s0 := Init(kind, hasReply);
    InitInv(kind, hasReply);
    InitFits(kind, hasReply);
    Reachable(kind, hasReply, es);
    RunFits(s0, es);
    PastIsRecalled(s0, es);
    Reports(After(s0, es), PastOf(s0, es), s0, es);
  }

  /** The scope runs exactly if run() gets the lock before a cancellation checks the flag; an activation whenever
      run() gets the lock. Once run() is over, exactly a scope that threw has been reported as an Error, and exactly
      an activation that returned as OK. A scope that finishes its reply is heard. */
  lemma {:induction false} RunIsReported(kind: Kind, hasReply: bool, es: seq<Event>)
    requires IsRun(Init(kind, hasReply), es)
    ensures RunReported(Start(kind, hasReply, es), kind, es)
  {
    Account(kind, hasReply, es);
  }

  /** The first of cancel and destroy to arrive shuts the control servant, and exactly a cancel that arrives first is
      pursued, as far as the flag if the query object is alive. The flag falls exactly when a cancellation checks it
      or a scope's exception takes it down, and exactly a check that comes first is passed on to the scope. */
  lemma {:induction false} CancelIsPursued(kind: Kind, hasReply: bool, es: seq<Event>)
    requires IsRun(Init(kind, hasReply), es)
    ensures CancelPursued(Start(kind, hasReply, es), Init(kind, hasReply), es)
  {
    Account(kind, hasReply, es);
  }

  /** Once a cancellation is over, Cancelled has been sent exactly if the scope's cancel threw, or returned while a
      reply proxy was alive; and it has looked for a proxy unless the scope's cancel threw. */
  lemma {:induction false} CancelIsReported(kind: Kind, hasReply: bool, es: seq<Event>)
    requires IsRun(Init(kind, hasReply), es)
    ensures CancelReported(Start(kind, hasReply, es), Init(kind, hasReply), es)
  {
    Account(kind, hasReply, es);
  }
}
