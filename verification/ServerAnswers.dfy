/** Which of the messages of `Ipc` the server answers: exactly those for which `ServerSpec.Dispatch` posts a response,
    whatever is in the cache. */
module ServerAnswers {
  import opened Words
  import opened Messages
  import opened CacheKeys
  import opened ServerSpec
  import opened RouteHash
  import opened EndToEnd
  import S = Store
  import Ipc

  /** The message a dispatch hands to the handlers: they take the id from `current_message_id`. */
  function AsMessage(d: Ipc.Delivery): Message {
    Message(d.route, d.payload, d.currentId)
  }

  function AllMessages(ds: seq<Ipc.Delivery>): (msgs: seq<Message>)
    ensures |msgs| == |ds|
  {
    seq(|ds|, i requires 0 <= i < |ds| => AsMessage(ds[i]))
  }

  predicate IsAnswered(d: Ipc.Delivery) {
    Posts(StandardRoutes(), AsMessage(d))
  }

  /** A dispatch posts one response, to the id it was given, or leaves the response half alone. */
  lemma DispatchPosts(v: Server, routes: Routes, msg: Message)
    requires S.Valid(v.store) && SizesOk(routes) && BlobsFit(v.store)
    ensures var mail := Dispatch(v, routes, msg).mail;
      if Posts(routes, msg) then mail.ready == v.mail.ready + 1 && mail.messageId == msg.id && mail.full
      else mail == v.mail
  {
    var hash := FieldText(msg.routeField);
    hide S.Valid, S.Put, S.Get, BlobsFit, FieldText, RequestHash, RequestSize, CacheKey;
    if Posts(routes, msg) {
      match routes[hash].handler
      case GetIrGraph => FetchAlwaysAnswered(v, IrGraph, msg.payload, msg.id);
      case GetBytecode => FetchAlwaysAnswered(v, Bytecode, msg.payload, msg.id);
      case _ =>
    }
  }

  /** A fetch is answered if and only if its payload holds the hash. */
  lemma FetchIsAnsweredIff(kind: Kind, payload: seq<byte>, id: uint32)
    requires CacheRoutesDistinct()
    ensures IsAnswered(Ipc.Delivery(id, id, TextField(HashRoute(FetchRoute(kind)), 0), payload)) <==> |payload| >= 256
  {
    hide HashRoute, FieldText, TextField, StandardRoutes, CacheRoutesDistinct;
    CacheRoutes(kind);
    RouteFieldRoundTrip(FetchRoute(kind));
  }

  /** A store is answered if and only if it is for bytecode and its payload holds the hash and the size. */
  lemma StoreIsAnsweredIff(kind: Kind, payload: seq<byte>, id: uint32)
    requires CacheRoutesDistinct()
    ensures IsAnswered(Ipc.Delivery(id, id, TextField(HashRoute(StoreRoute(kind)), 0), payload))
         <==> kind.Bytecode? && |payload| >= 260
  {
    hide HashRoute, FieldText, TextField, StandardRoutes, CacheRoutesDistinct;
    CacheRoutes(kind);
    RouteFieldRoundTrip(StoreRoute(kind));
  }
}
