/** The access check in front of every gRPC call of the microservice
    (08_microservices/99_hw/microservice/authMiddleware.go). The ACL maps a
    consumer name to the patterns of the methods it may call. The incoming call
    context is data: its metadata (absent when the call carried none), the
    peer address, and the clock reading stamped on the audit event. The
    admin service's broadcast is the list of events the check emits. */
module Acl {
  import opened Results
  import opened Text

  type Acl = map<string, seq<string>>

  datatype Context = Context(
    metadata: Option<map<string, seq<string>>>,
    peer: Option<string>,
    now: int)

  datatype Code = Unauthenticated

  datatype RpcError = RpcError(code: Code, message: string)

  const Denied := RpcError(Unauthenticated, "access denied")

  datatype Event = Event(timestamp: int, consumer: string, rpc: string, host: string)

  /** The check's verdict: `None` lets the call through; `events` is what was
      broadcast to the logging and statistics subscribers. */
  datatype Outcome = Outcome(err: Option<RpcError>, events: seq<Event>)

  /** One ACL entry admits the full method name `rpc`: the entry is that
      name, or it ends in `*` and the name starts with the rest of the entry. */
  predicate Admits(entry: string, rpc: string) {
    entry == rpc || (EndsWith(entry, "*") && StartsWith(rpc, TrimSuffix(entry, "*")))
  }

  /** Admits in plain terms: a trailing star matches any continuation, so
      "*" alone admits every method. */
  lemma AdmitsMeaning(entry: string, rpc: string)
    ensures Admits(entry, rpc) <==>
              || entry == rpc
              || (|entry| >= 1 && entry[|entry| - 1] == '*'
                  && |entry| - 1 <= |rpc| && rpc[..|entry| - 1] == entry[..|entry| - 1])
    ensures Admits("*", rpc)
  {
    if |entry| >= 1 && entry[|entry| - 1] == '*' {
      assert EndsWith(entry, "*") by { assert entry[|entry| - 1..] == "*"; }
      assert TrimSuffix(entry, "*") == entry[..|entry| - 1];
    }
    assert EndsWith("*", "*") && TrimSuffix("*", "*") == "";
    assert StartsWith(rpc, "");
  }

  /** Some entry of the list admits `rpc` (the loop over allowed methods). */
  function AnyAdmits(entries: seq<string>, rpc: string): (r: bool)
    ensures r <==> exists i :: 0 <= i < |entries| && Admits(entries[i], rpc)
    decreases |entries|
  {
    if |entries| == 0 then false
    else if Admits(entries[0], rpc) then true
    else
      assert forall i :: 1 <= i < |entries| ==> entries[i] == entries[1..][i - 1];
      AnyAdmits(entries[1..], rpc)
  }

  /** The consumer a context names: the first value under "consumer". */
  function Consumer(ctx: Context): (r: Option<string>)
    ensures r.Some? <==> ctx.metadata.Some? && "consumer" in ctx.metadata.value
                         && |ctx.metadata.value["consumer"]| > 0
    ensures r.Some? ==> r.value == ctx.metadata.value["consumer"][0]
  {
    match ctx.metadata
    case None => None
    case Some(md) =>
      if "consumer" !in md || |md["consumer"]| == 0 then None
      else Some(md["consumer"][0])
  }

  /** checkAccess: access is granted exactly when the context names a
      consumer the ACL lists and one of its entries admits the method; a
      grant broadcasts exactly one event naming the consumer, the method and
      the peer ("" when unknown), a denial broadcasts none. */
  function CheckAccess(acl: Acl, ctx: Context, rpc: string): (r: Outcome)
    ensures r.err.None? <==> Consumer(ctx).Some? && Consumer(ctx).value in acl
                             && exists i :: 0 <= i < |acl[Consumer(ctx).value]|
                                            && Admits(acl[Consumer(ctx).value][i], rpc)
    ensures r.err.Some? ==> r.err.value == Denied && r.events == []
    ensures r.err.None? ==>
              r.events == [Event(ctx.now, Consumer(ctx).value, rpc,
                                 if ctx.peer.Some? then ctx.peer.value else "")]
  {
    match Consumer(ctx)
    case None => Outcome(Some(Denied), [])
    case Some(consumer) =>
      if consumer !in acl then Outcome(Some(Denied), [])
      else
        var host := if ctx.peer.Some? then ctx.peer.value else "";
        if AnyAdmits(acl[consumer], rpc) then
          Outcome(None, [Event(ctx.now, consumer, rpc, host)])
        else Outcome(Some(Denied), [])
  }

  /** Only the first consumer value counts: contexts that agree on it, on
      the peer and on the clock get the same verdict and events. */
  lemma OnlyFirstConsumerCounts(acl: Acl, a: Context, b: Context, rpc: string)
    requires Consumer(a) == Consumer(b) && a.peer == b.peer && a.now == b.now
    ensures CheckAccess(acl, a, rpc) == CheckAccess(acl, b, rpc)
  {
  }

  /** A call without metadata, without a consumer value, or from a consumer
      the ACL does not list is denied. */
  lemma UnknownCallerDenied(acl: Acl, ctx: Context, rpc: string)
    requires || ctx.metadata.None?
             || "consumer" !in ctx.metadata.value
             || ctx.metadata.value["consumer"] == []
             || ctx.metadata.value["consumer"][0] !in acl
    ensures CheckAccess(acl, ctx, rpc) == Outcome(Some(Denied), [])
  {
  }

  // ---------------------------------------------------------------------------
  // Interceptors
  // ---------------------------------------------------------------------------

  /** What an intercepted call comes to: the handler ran or not, the result
      the caller sees, and the events broadcast. */
  datatype Intercepted<R> = Intercepted(ran: bool, result: Result<R, RpcError>, events: seq<Event>)

  /** authInterceptor: the unary handler runs only when the check passes;
      otherwise the caller gets the check's error. */
  function UnaryIntercept<Req, Resp>(acl: Acl, ctx: Context, rpc: string, req: Req,
                                     handler: Req -> Result<Resp, RpcError>): (r: Intercepted<Resp>)
    ensures r.ran <==> CheckAccess(acl, ctx, rpc).err.None?
    ensures r.ran ==> r.result == handler(req)
    ensures !r.ran ==> r.result == Err(Denied)
    ensures r.events == CheckAccess(acl, ctx, rpc).events
  {
    var check := CheckAccess(acl, ctx, rpc);
    match check.err
    case Some(e) => Intercepted(false, Err(e), check.events)
    case None => Intercepted(true, handler(req), check.events)
  }

  /** authStreamInterceptor: the same gate in front of a streaming handler,
      whose only result is an error or none. */
  function StreamIntercept(acl: Acl, ctx: Context, rpc: string,
                           handler: () -> Option<RpcError>): (r: Intercepted<()>)
    ensures r.ran <==> CheckAccess(acl, ctx, rpc).err.None?
    ensures r.ran ==> r.result == (if handler().Some? then Err(handler().value) else Ok(()))
    ensures !r.ran ==> r.result == Err(Denied)
    ensures r.events == CheckAccess(acl, ctx, rpc).events
  {
    var check := CheckAccess(acl, ctx, rpc);
    match check.err
    case Some(e) => Intercepted(false, Err(e), check.events)
    case None =>
      var res := handler();
      Intercepted(true, if res.Some? then Err(res.value) else Ok(()), check.events)
  }
}
