/** One query as a transition system. Every critical section, message send, message delivery and
    reference-count change of the participating threads is one event, and events interleave freely.

    The query object is reference counted. Its holders are the creating call, the middleware's
    servant table, self_, the dispatch frame of run(), the reply object (alive while any reply proxy
    is) and the cancelling thread after a successful qo_.lock(). */
module QueryProtocol {
  import opened QueryObjects

  /** ScopeObject::query: set_self, send run, return the control proxy to the client. */
  datatype CreatorPc = Fresh | SelfSet | RunSent | Returned

  datatype RunPc =
    | Unsent | Queued
    | Dispatched   // the dispatch frame holds a reference, run() has not yet taken the lock
    | InScope      // inside the scope's run() or activate()
    | Thrown       // the scope's run() threw, pushable_ not yet cleared
    | Flagged      // pushable_ cleared, Error not yet sent
    | Leaving      // run() is over, its local reply proxy still exists
    | Unwound      // only the dispatch frame is left
    | Done

  datatype CancelPc =
    | NoCancel
    | First        // got through the exchange on destroyed_
    | Holding      // qo_.lock() succeeded
    | Won          // took pushable_ down
    | Forwarded    // the scope's cancel returned
    | ScopeThrew   // the scope's cancel threw
    | ProxyHeld    // reply_proxy_.lock() succeeded
    | ProxySent    // Cancelled sent, the locked proxy not yet dropped
    | Disconnecting
    | Ending       // disconnected, the locked query not yet dropped
    | CancelDone

  datatype DestroyPc = NoDestroy | DestroyFirst | DestroyDone

  /** Who took pushable_ down. */
  datatype Taker = Nobody | Canceller | Thrower

  /** What has happened so far; nothing in the protocol reads it. */
  datatype Log = Log(
    scopeRuns: nat, scopeCancels: nat, cancelThrew: bool, taker: Taker, refused: bool,
    runErrors: nat, runOks: nat, cancelleds: nat,
    forwards: nat, localFinishes: nat, disconnects: nat)

  /** The reference count of the query object, and the destroy messages its destructor sent. */
  datatype Refs = Refs(count: nat, freed: bool, destroyMsgs: nat)

  /** The reply object: how many reply proxies share it, ReplyImpl::finished_, and what it has sent. */
  datatype Reply = Reply(proxies: nat, done: bool, sends: nat)

  datatype State = State(
    q: Query, ctrl: Ctrl, client: Client,
    creator: CreatorPc, run: RunPc, cancel: CancelPc, destroy: DestroyPc,
    refs: Refs, reply: Reply,
    cancelHolds: bool,   // the cancelling thread owns a reference to the query object
    proxyGiven: bool,    // set_proxy() has been called
    toForward: nat,      // client calls past the ready_ check, before fwd()->cancel()
    toFinish: nat,       // client calls that forwarded, before the local finished()
    cancelMsgs: nat,
    log: Log)

  datatype CreatorEvent = SetSelf | SendRun | CreatorReturn

  datatype RunEvent =
    RunDispatch | RunEnter | ScopeReturn | ScopeThrow | ThrowFlag | SendError | RunLeave | FrameDrop

  /** What the scope does with its reply proxies. */
  datatype ProxyEvent = CopyProxy | DropProxy | ReplyFinish

  datatype ClientEvent = ClientCancel | ClientSetProxy | Forward | LocalFinish

  datatype CancelEvent =
    | CancelArrive | LockQuery | CancelCheck | ScopeCancel(throws: bool) | LockProxy
    | SendCancelled | DropLocked | CtrlDisconnect | CancelEnd

  datatype DestroyEvent = DestroyArrive | DestroyDisconnect

  datatype Event =
    | Creating(creating: CreatorEvent)
    | Running(running: RunEvent)
    | Replying(replying: ProxyEvent)
    | Controlling(controlling: ClientEvent)
    | Cancelling(cancelling: CancelEvent)
    | Destroying(destroying: DestroyEvent)

  /** The state just after ScopeObject::query registered both servants and called set_query(). */
  function Init(kind: Kind, hasReply: bool): State {
    State(Query(kind, true, false, false, true), Ctrl(false, true), Client(hasReply, false, false),
          Fresh, Unsent, NoCancel, NoDestroy,
          Refs(2, false, 0), Reply(0, false, 0), false, false, 0, 0, 0,
          Log(0, 0, false, Nobody, false, 0, 0, 0, 0, 0, 0))
  }

  function B(b: bool): nat {
    if b then 1 else 0
  }

  predicate FrameHolds(s: State) {
    s.run.Dispatched? || s.run.InScope? || s.run.Thrown? || s.run.Flagged? || s.run.Leaving? || s.run.Unwound?
  }

  /** The local variable reply_proxy of run(). */
  predicate FrameProxy(s: State) {
    s.q.replySet && (s.run.InScope? || s.run.Thrown? || s.run.Flagged? || s.run.Leaving?)
  }

  predicate CancelProxy(s: State) {
    s.cancel.ProxyHeld? || s.cancel.ProxySent?
  }

  /** Reply proxies that the scope itself keeps. */
  function ScopeProxies(s: State): int {
    s.reply.proxies - B(FrameProxy(s)) - B(CancelProxy(s))
  }

  // ----- reference counting

  function Acquire(r: Refs): Refs {
    r.(count := r.count + 1)
  }

  /** Dropping the last reference runs the destructor, which sends destroy to the control object. */
  function Release(r: Refs): Refs {
    if r.count <= 1 then Refs(0, true, r.destroyMsgs + 1) else r.(count := r.count - 1)
  }

  function ReleaseIf(r: Refs, b: bool): Refs {
    if b then Release(r) else r
  }

  /** finished(), which only the first call of sends a completion. */
  function Finish(r: Reply): Reply {
    r.(done := true, sends := r.sends + B(!r.done))
  }

  /** Dropping the last reply proxy destroys the reply object, which finishes it and lets go of the
      query object. */
  function ReleaseProxy(s: State): State {
    if s.reply.proxies <= 1 then s.(reply := Finish(s.reply).(proxies := 0), refs := Release(s.refs))
    else s.(reply := s.reply.(proxies := s.reply.proxies - 1))
  }

  // ----- events

  predicate Enabled(s: State, e: Event) {
    match e
    case Creating(c) => CreatorEnabled(s, c)
    case Running(r) => RunEnabled(s, r)
    case Replying(p) => ProxyEnabled(s, p)
    case Controlling(c) => ClientEnabled(s, c)
    case Cancelling(c) => CancelEnabled(s, c)
    case Destroying(d) => DestroyEnabled(s, d)
  }

  function Apply(s: State, e: Event): State
    requires Enabled(s, e)
  {
    match e
    case Creating(c) => ApplyCreator(s, c)
    case Running(r) => ApplyRun(s, r)
    case Replying(p) => ApplyProxy(s, p)
    case Controlling(c) => ApplyClient(s, c)
    case Cancelling(c) => ApplyCancel(s, c)
    case Destroying(d) => ApplyDestroy(s, d)
  }

  /** Events in which a thread reads or writes a member of the query object. */
  predicate TouchesQuery(e: Event) {
    match e
    case Creating(c) => !c.CreatorReturn?
    case Running(r) => !r.RunDispatch? && !r.RunLeave? && !r.FrameDrop?
    case Replying(_) => true
    case Controlling(_) => false
    case Cancelling(c) => c.CancelCheck? || c.ScopeCancel? || c.LockProxy? || c.SendCancelled? || c.DropLocked?
    case Destroying(_) => false
  }

  predicate CreatorEnabled(s: State, e: CreatorEvent) {
    match e
    case SetSelf => s.creator.Fresh?
    case SendRun => s.creator.SelfSet?
    case CreatorReturn => s.creator.RunSent?
  }

  function ApplyCreator(s: State, e: CreatorEvent): State {
    match e
    case SetSelf => s.(q := HoldSelf(s.q), creator := SelfSet, refs := Acquire(s.refs))
    case SendRun => s.(creator := RunSent, run := Queued)
    case CreatorReturn => s.(creator := Returned, refs := Release(s.refs))
  }

  predicate RunEnabled(s: State, e: RunEvent) {
    match e
    case RunDispatch => s.run.Queued?
    case RunEnter => s.run.Dispatched?
    case ScopeReturn => s.run.InScope?
    case ScopeThrow => s.run.InScope?
    case ThrowFlag => s.run.Thrown?
    case SendError => s.run.Flagged?
    case RunLeave => s.run.Leaving?
    case FrameDrop => s.run.Unwound?
  }

  function ApplyRun(s: State, e: RunEvent): State {
    match e
    case RunDispatch => s.(run := Dispatched, refs := Acquire(s.refs))
    case RunEnter =>
      var q := EnterRun(s.q);
      var replied := q.replySet && !s.q.replySet;   // a reply object, sharing self_, has been made
      s.(q := q, run := if Admits(s.q) then InScope else Leaving,
         reply := if replied then s.reply.(proxies := 1) else s.reply,
         refs := ReleaseIf(ReleaseIf(if replied then Acquire(s.refs) else s.refs, s.q.selfHeld), s.q.connected),
         log := s.log.(scopeRuns := s.log.scopeRuns + B(Admits(s.q)), refused := !Admits(s.q)))
    case ScopeReturn =>
      s.(run := Leaving, log := if s.q.kind.Activation? then s.log.(runOks := s.log.runOks + 1) else s.log)
    case ScopeThrow => s.(run := if s.q.kind.Activation? then Flagged else Thrown)
    case ThrowFlag =>
      s.(run := Flagged, q := TakeFlag(s.q),
         log := s.log.(taker := if s.q.pushable then Thrower else s.log.taker))
    case SendError => s.(run := Leaving, log := s.log.(runErrors := s.log.runErrors + 1))
    case RunLeave =>
      if FrameProxy(s) then ReleaseProxy(s).(run := Unwound) else s.(run := Unwound)
    case FrameDrop => s.(run := Done, refs := Release(s.refs))
  }

  predicate ProxyEnabled(s: State, e: ProxyEvent) {
    match e
    case CopyProxy => s.q.replySet && (s.run.InScope? || ScopeProxies(s) > 0)
    case DropProxy => ScopeProxies(s) > 0
    case ReplyFinish => s.q.replySet && (s.run.InScope? || ScopeProxies(s) > 0)
  }

  function ApplyProxy(s: State, e: ProxyEvent): State {
    match e
    case CopyProxy => s.(reply := s.reply.(proxies := s.reply.proxies + 1))
    case DropProxy => ReleaseProxy(s)
    case ReplyFinish => s.(reply := Finish(s.reply))
  }

  predicate ClientEnabled(s: State, e: ClientEvent) {
    match e
    case ClientCancel => true
    case ClientSetProxy => s.creator.Returned? && !s.proxyGiven
    case Forward => s.toForward > 0
    case LocalFinish => s.toFinish > 0
  }

  function ApplyClient(s: State, e: ClientEvent): State
    requires ClientEnabled(s, e)
  {
    match e
    case ClientCancel => s.(client := RecordCancel(s.client), toForward := s.toForward + B(s.client.ready))
    case ClientSetProxy =>
      s.(client := InstallProxy(s.client), proxyGiven := true,
         toForward := s.toForward + B(s.client.hasReply && s.client.cancelled))
    case Forward =>
      s.(toForward := s.toForward - 1, toFinish := s.toFinish + 1, cancelMsgs := s.cancelMsgs + 1,
         log := s.log.(forwards := s.log.forwards + 1))
    case LocalFinish =>
      s.(toFinish := s.toFinish - 1, log := s.log.(localFinishes := s.log.localFinishes + 1))
  }

  predicate CancelEnabled(s: State, e: CancelEvent) {
    match e
    case CancelArrive => s.cancelMsgs > 0
    case LockQuery => s.cancel.First?
    case CancelCheck => s.cancel.Holding?
    case ScopeCancel(_) => s.cancel.Won?
    case LockProxy => s.cancel.Forwarded?
    case SendCancelled => s.cancel.ScopeThrew? || s.cancel.ProxyHeld?
    case DropLocked => s.cancel.ProxySent?
    case CtrlDisconnect => s.cancel.Disconnecting?
    case CancelEnd => s.cancel.Ending?
  }

  function ApplyCancel(s: State, e: CancelEvent): State
    requires CancelEnabled(s, e)
  {
    match e
    case CancelArrive =>   // a message for a servant that is gone is dropped
      var s1 := s.(cancelMsgs := s.cancelMsgs - 1);
      if !s.ctrl.connected || s.ctrl.destroyed then s1
      else s1.(ctrl := Exchanged(s.ctrl), cancel := First)
    case LockQuery =>
      if s.refs.freed then s.(cancel := Disconnecting)
      else s.(cancel := Holding, cancelHolds := true, refs := Acquire(s.refs))
    case CancelCheck =>
      if !s.q.pushable then s.(cancel := Disconnecting)
      else s.(cancel := Won, q := TakeFlag(s.q), log := s.log.(taker := Canceller))
    case ScopeCancel(throws) =>
      s.(cancel := if throws then ScopeThrew else Forwarded,
         log := s.log.(scopeCancels := s.log.scopeCancels + 1, cancelThrew := throws))
    case LockProxy =>
      if s.reply.proxies == 0 then s.(cancel := Disconnecting)
      else s.(cancel := ProxyHeld, reply := s.reply.(proxies := s.reply.proxies + 1))
    case SendCancelled =>
      s.(cancel := if s.cancel.ProxyHeld? then ProxySent else Disconnecting,
         log := s.log.(cancelleds := s.log.cancelleds + 1))
    case DropLocked => ReleaseProxy(s).(cancel := Disconnecting)
    case CtrlDisconnect =>
      s.(cancel := Ending, ctrl := Disconnected(s.ctrl),
         log := s.log.(disconnects := s.log.disconnects + 1))
    case CancelEnd =>
      s.(cancel := CancelDone, cancelHolds := false, refs := ReleaseIf(s.refs, s.cancelHolds))
  }

  predicate DestroyEnabled(s: State, e: DestroyEvent) {
    match e
    case DestroyArrive => s.refs.destroyMsgs > 0
    case DestroyDisconnect => s.destroy.DestroyFirst?
  }

  function ApplyDestroy(s: State, e: DestroyEvent): State
    requires DestroyEnabled(s, e)
  {
    match e
    case DestroyArrive =>
      var s1 := s.(refs := s.refs.(destroyMsgs := s.refs.destroyMsgs - 1));
      if !s.ctrl.connected || s.ctrl.destroyed then s1
      else s1.(ctrl := Exchanged(s.ctrl), destroy := DestroyFirst)
    case DestroyDisconnect =>
      s.(destroy := DestroyDone, ctrl := Disconnected(s.ctrl),
         log := s.log.(disconnects := s.log.disconnects + 1))
  }

  /** `es` can happen, in this order, from `s`. */
  predicate IsRun(s: State, es: seq<Event>)
    decreases |es|
  {
    es == [] || (Enabled(s, es[0]) && IsRun(Apply(s, es[0]), es[1..]))
  }

  function After(s: State, es: seq<Event>): State
    requires IsRun(s, es)
    decreases |es|
  {
    if es == [] then s else After(Apply(s, es[0]), es[1..])
  }

  // ----- the invariant

  /** Every reference has exactly one holder. */
  ghost predicate RefsInv(s: State) {
    && s.refs.count == B(!s.creator.Returned?) + B(s.q.connected) + B(s.q.selfHeld) + B(FrameHolds(s))
                 + B(s.reply.proxies > 0) + B(s.cancelHolds)
    && s.refs.freed == (s.refs.count == 0)
  }

  ghost predicate RunInv(s: State) {
    && (s.run.Unsent? <==> s.creator.Fresh? || s.creator.SelfSet?)
    && s.q.selfHeld == (s.creator.SelfSet? || s.run.Queued? || s.run.Dispatched?)
    && s.q.connected == (s.run.Unsent? || s.run.Queued? || s.run.Dispatched?)
    && s.log.scopeRuns <= 1
    && (s.q.connected ==> s.log.scopeRuns == 0 && !s.log.refused)
    && (!s.q.connected ==> s.log.refused == (s.log.scopeRuns == 0))
    && (s.run.InScope? || s.run.Thrown? || s.run.Flagged? ==> s.log.scopeRuns == 1)
    && s.q.replySet == (s.log.scopeRuns == 1 && !s.q.kind.Activation?)
    && (s.run.Thrown? ==> !s.q.kind.Activation?)
  }

  ghost predicate ProxyInv(s: State) {
    && ScopeProxies(s) >= 0
    && (s.reply.proxies > 0 ==> s.q.replySet)
    && (s.q.replySet && s.reply.proxies == 0 ==> s.reply.done)
    && (s.reply.done ==> s.q.replySet)
    && s.reply.sends == B(s.reply.done)
  }

  ghost predicate FlagInv(s: State) {
    && s.q.pushable == s.log.taker.Nobody?
    && (s.log.taker.Thrower? ==> s.log.scopeRuns == 1 && !s.q.kind.Activation?)
    && (s.run.Flagged? && !s.q.kind.Activation? ==> !s.q.pushable)
    && (s.log.taker.Canceller? <==>
        s.cancel.Won? || s.cancel.Forwarded? || s.cancel.ScopeThrew? || CancelProxy(s) || s.log.scopeCancels > 0)
    && s.log.scopeCancels == B(s.log.taker.Canceller? && !s.cancel.Won?)
    && (s.cancel.NoCancel? || s.cancel.First? || s.cancel.Holding? ==> !s.log.taker.Canceller?)
    && (s.log.refused ==> s.log.taker.Canceller?)
    && (s.log.cancelThrew ==> s.log.scopeCancels == 1)
    && (s.cancel.ScopeThrew? ==> s.log.cancelThrew)
    && (s.cancel.Forwarded? || CancelProxy(s) ==> !s.log.cancelThrew)
    && (CancelProxy(s) ==> s.reply.proxies > 0)
  }

  ghost predicate SentInv(s: State) {
    && s.log.runErrors + s.log.runOks <= 1
    && (s.log.runErrors + s.log.runOks > 0 ==> s.log.scopeRuns == 1)
    && (s.q.connected || s.run.InScope? || s.run.Thrown? || s.run.Flagged? ==> s.log.runErrors + s.log.runOks == 0)
    && (s.q.kind.Activation? && !s.q.connected && !s.run.InScope? && !s.run.Flagged? ==>
        s.log.runErrors + s.log.runOks == 1)
    && (!s.q.kind.Activation? ==> s.log.runOks == 0)
    && (s.log.runErrors > 0 && !s.q.kind.Activation? ==> !s.q.pushable)
    && s.log.cancelleds <= 1
    && (s.log.cancelleds > 0 ==> s.log.scopeCancels == 1 && !s.cancel.ScopeThrew? && !s.cancel.ProxyHeld? && !s.cancel.Forwarded?)
    && (s.cancel.ProxySent? ==> s.log.cancelleds == 1)
    && (s.log.cancelleds > 0 && !s.log.cancelThrew ==> s.q.replySet)
    && (s.log.cancelThrew && !s.cancel.ScopeThrew? ==> s.log.cancelleds == 1)
  }

  ghost predicate CtrlInv(s: State) {
    && s.ctrl.destroyed == (!s.cancel.NoCancel? || !s.destroy.NoDestroy?)
    && (s.cancel.NoCancel? || s.destroy.NoDestroy?)
    && s.log.disconnects == B(s.cancel.Ending? || s.cancel.CancelDone? || s.destroy.DestroyDone?)
    && s.ctrl.connected == (s.log.disconnects == 0)
    && s.refs.destroyMsgs <= B(s.refs.freed)
    && (s.refs.freed && s.refs.destroyMsgs == 0 ==> s.ctrl.destroyed)
    && (!s.destroy.NoDestroy? ==> s.refs.freed)
    && (s.cancelHolds ==> !s.cancel.NoCancel? && !s.cancel.First? && !s.cancel.CancelDone?)
    && (s.cancel.Holding? || s.cancel.Won? || s.cancel.Forwarded? || s.cancel.ScopeThrew? || CancelProxy(s) ==> s.cancelHolds)
  }

  ghost predicate ClientInv(s: State) {
    && s.client.ready == (s.proxyGiven && s.client.hasReply)
    && (s.proxyGiven ==> s.creator.Returned?)
    && s.log.forwards == s.log.localFinishes + s.toFinish
    && (s.toForward > 0 || s.log.forwards > 0 ==> s.client.ready)
    && (s.cancelMsgs > 0 || !s.cancel.NoCancel? ==> s.log.forwards > 0)
  }

  ghost predicate Inv(s: State) {
    RefsInv(s) && RunInv(s) && ProxyInv(s) && FlagInv(s) && SentInv(s) && CtrlInv(s) && ClientInv(s)
  }

  lemma InitInv(kind: Kind, hasReply: bool)
    ensures Inv(Init(kind, hasReply))
  {
  }

  lemma CreatorStepInv(s: State, e: CreatorEvent)
    requires Inv(s) && CreatorEnabled(s, e)
    ensures Inv(ApplyCreator(s, e))
  {
  }

  lemma RunStartInv(s: State, e: RunEvent)
    requires Inv(s) && RunEnabled(s, e)
    requires e.RunDispatch? || e.RunEnter?
    ensures Inv(ApplyRun(s, e))
  {
  }

  lemma ScopeEndInv(s: State, e: RunEvent)
    requires Inv(s) && RunEnabled(s, e)
    requires e.ScopeReturn? || e.ScopeThrow? || e.ThrowFlag? || e.SendError?
    ensures Inv(ApplyRun(s, e))
  {
  }

  lemma RunLeaveInv(s: State, e: RunEvent)
    requires Inv(s) && RunEnabled(s, e)
    requires e.RunLeave?
    ensures Inv(ApplyRun(s, e))
  {
  }

  lemma FrameDropInv(s: State, e: RunEvent)
    requires Inv(s) && RunEnabled(s, e)
    requires e.FrameDrop?
    ensures Inv(ApplyRun(s, e))
  {
  }

  lemma ProxyStepInv(s: State, e: ProxyEvent)
    requires Inv(s) && ProxyEnabled(s, e)
    ensures Inv(ApplyProxy(s, e))
  {
  }

  lemma ClientCallInv(s: State, e: ClientEvent)
    requires Inv(s) && ClientEnabled(s, e)
    requires e.ClientCancel? || e.ClientSetProxy?
    ensures Inv(ApplyClient(s, e))
  {
  }

  lemma ClientSendInv(s: State, e: ClientEvent)
    requires Inv(s) && ClientEnabled(s, e)
    requires e.Forward? || e.LocalFinish?
    ensures Inv(ApplyClient(s, e))
  {
  }

  lemma ClientStepInv(s: State, e: ClientEvent)
    requires Inv(s) && ClientEnabled(s, e)
    ensures Inv(ApplyClient(s, e))
  {
    match e {
      case ClientCancel | ClientSetProxy => ClientCallInv(s, e);
      case Forward | LocalFinish => ClientSendInv(s, e);
    }
  }

  lemma CancelArriveInv(s: State, e: CancelEvent)
    requires Inv(s) && CancelEnabled(s, e)
    requires e.CancelArrive?
    ensures Inv(ApplyCancel(s, e))
  {
  }

  lemma LockQueryInv(s: State, e: CancelEvent)
    requires Inv(s) && CancelEnabled(s, e)
    requires e.LockQuery?
    ensures Inv(ApplyCancel(s, e))
  {
  }

  lemma CancelCheckInv(s: State, e: CancelEvent)
    requires Inv(s) && CancelEnabled(s, e)
    requires e.CancelCheck?
    ensures Inv(ApplyCancel(s, e))
  {
  }

  lemma CancelForwardInv(s: State, e: CancelEvent)
    requires Inv(s) && CancelEnabled(s, e)
    requires e.ScopeCancel? || e.LockProxy? || e.SendCancelled?
    ensures Inv(ApplyCancel(s, e))
  {
  }

  lemma DropLockedInv(s: State, e: CancelEvent)
    requires Inv(s) && CancelEnabled(s, e)
    requires e.DropLocked?
    ensures Inv(ApplyCancel(s, e))
  {
  }

  lemma CancelEndInv(s: State, e: CancelEvent)
    requires Inv(s) && CancelEnabled(s, e)
    requires e.CtrlDisconnect? || e.CancelEnd?
    ensures Inv(ApplyCancel(s, e))
  {
  }

  lemma DestroyStepInv(s: State, e: DestroyEvent)
    requires Inv(s) && DestroyEnabled(s, e)
    ensures Inv(ApplyDestroy(s, e))
  {
  }

  lemma RunStepInv(s: State, e: RunEvent)
    requires Inv(s) && RunEnabled(s, e)
    ensures Inv(ApplyRun(s, e))
  {
    match e {
      case RunDispatch | RunEnter => RunStartInv(s, e);
      case ScopeReturn | ScopeThrow | ThrowFlag | SendError => ScopeEndInv(s, e);
      case RunLeave => RunLeaveInv(s, e);
      case FrameDrop => FrameDropInv(s, e);
    }
  }

  lemma CancelStepInv(s: State, e: CancelEvent)
    requires Inv(s) && CancelEnabled(s, e)
    ensures Inv(ApplyCancel(s, e))
  {
    match e {
      case CancelArrive => CancelArriveInv(s, e);
      case LockQuery => LockQueryInv(s, e);
      case CancelCheck => CancelCheckInv(s, e);
      case ScopeCancel(_) | LockProxy | SendCancelled => CancelForwardInv(s, e);
      case DropLocked => DropLockedInv(s, e);
      case CtrlDisconnect | CancelEnd => CancelEndInv(s, e);
    }
  }

  lemma StepInv(s: State, e: Event)
    requires Inv(s) && Enabled(s, e)
    ensures Inv(Apply(s, e))
  {
    match e
    case Creating(c) => CreatorStepInv(s, c);
    case Running(r) => RunStepInv(s, r);
    case Replying(p) => ProxyStepInv(s, p);
    case Controlling(c) => ClientStepInv(s, c);
    case Cancelling(c) => CancelStepInv(s, c);
    case Destroying(d) => DestroyStepInv(s, d);
  }

  /** Every state of every run satisfies the invariant. */
  lemma {:induction false} RunKeepsInv(s: State, es: seq<Event>)
    requires Inv(s) && IsRun(s, es)
    ensures Inv(After(s, es))
    decreases |es|
  {
    if es != [] {
      StepInv(s, es[0]);
      RunKeepsInv(Apply(s, es[0]), es[1..]);
    }
  }
}
