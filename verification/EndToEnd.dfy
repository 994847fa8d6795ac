/** From the query's end to the application's listener. */
module EndToEnd {
  import QueryObjects
  import QueryProtocol
  import QueryGuarantees
  import ReplyDelivery

  /** Every completion that the query sends, and every local one, is a call of finished() on the client's reply
      object; the object may see further calls, from its reaper or its destructor, and any pushes. When an ended
      query's completions have all been handled, the listener has been told exactly once. */
  lemma {:induction false} ListenerHearsOfTheEndOnce(
    kind: QueryObjects.Kind, hasReply: bool, es: seq<QueryProtocol.Event>, n: nat, calls: seq<ReplyDelivery.Event>)
    requires QueryProtocol.IsRun(QueryProtocol.Init(kind, hasReply), es)
    requires QueryGuarantees.Over(QueryGuarantees.Start(kind, hasReply, es))
    requires ReplyDelivery.IsRun(ReplyDelivery.Init(n), calls)
    requires ReplyDelivery.FinishCalls(calls) >= QueryGuarantees.Completions(QueryGuarantees.Start(kind, hasReply, es))
    requires ReplyDelivery.AllIdle(ReplyDelivery.After(ReplyDelivery.Init(n), calls))
    ensures ReplyDelivery.After(ReplyDelivery.Init(n), calls).delivered == 1
  {
    ReplyDelivery.CompletionIsDelivered(n, calls);
  }
}
