/** What the server does with a message, as a function: dispatch by route hash, the request handlers of
    cache_server.cpp, and the response left in shared memory. */
module ServerSpec {
  import opened Words
  import opened CStrings
  import opened Messages
  import opened CacheKeys
  import S = Store
  import opened RouteHash

  // ----- routes

  datatype Handler =
    | CreateUser | GetUser | DeleteUser
    | AddIrGraph | GetIr | GetIrGraph
    | SaveBytecode | GetBytecode

  /** A registered route: the handler and the least payload its wrapper lets through (0 for variable routes). */
  datatype Route = Route(handler: Handler, minSize: nat)

  type Routes = map<seq<byte>, Route>

  // ----- responses

  datatype Reply =
    | SaveReply(success: bool)
    | BlobReply(success: bool, data: seq<byte>)
    | IrReply(success: bool, bits: nat, data: seq<byte>)

  function ReplySize(r: Reply): nat {
    match r
    case SaveReply(_) => SAVE_REPLY_SIZE
    case BlobReply(_, data) => BLOB_REPLY_HEADER + |data|
    case IrReply(_, _, data) => BLOB_REPLY_HEADER + |data|
  }

  /** The response half of `SharedData`; `ready` is the value of the semaphore `response_ready`. */
  datatype Mailbox = Mailbox(response: Reply, size: nat, messageId: uint32, full: bool, ready: nat)

  datatype Server = Server(store: S.Store, mail: Mailbox)

  /** `send_response`. */
  function SendResponse(mail: Mailbox, id: uint32, r: Reply): (Mailbox, bool) {
    if ReplySize(r) > MAX_MESSAGE_SIZE then (mail, false)
    else (Mailbox(r, ReplySize(r), id, true, mail.ready + 1), true)
  }

  /** `wait_for_response`, once `response_ready` lets it pass: a response to another message is refused. */
  function WaitForResponse(mail: Mailbox, expected: uint32): (Mailbox, bool, Reply, nat)
    requires mail.ready > 0
  {
    if mail.messageId != expected then (mail.(ready := mail.ready - 1), false, mail.response, 0)
    else (mail.(ready := mail.ready - 1, full := false, size := 0), true, mail.response, mail.size)
  }

  // ----- handlers

  function HandlerKind(h: Handler): Kind {
    if h.SaveBytecode? || h.GetBytecode? then Bytecode else IrGraph
  }

  /** `handle_save_bytecode` and `handle_add_function_ir_graph`; only the former answers. */
  ghost function HandleStore(v: Server, kind: Kind, payload: seq<byte>, id: uint32): Server
    requires S.Valid(v.store)
  {
    if |payload| < REQUEST_HEADER then v
    else if |payload| != REQUEST_HEADER + RequestSize(payload) then Answer(v, kind, id, false)
    else
      var (store, ok) := S.Put(v.store, CacheKey(kind, RequestHash(payload)), RequestData(payload));
      Answer(v.(store := store), kind, id, ok)
  }

  function Answer(v: Server, kind: Kind, id: uint32, ok: bool): Server {
    if kind.Bytecode? then v.(mail := SendResponse(v.mail, id, SaveReply(ok)).0) else v
  }

  /** `handle_get_bytecode` and `handle_get_function_ir_graph`. */
  function HandleFetch(v: Server, kind: Kind, payload: seq<byte>, id: uint32): Server
    requires S.Valid(v.store) && |payload| >= HASH_FIELD
  {
    match S.Get(v.store, CacheKey(kind, RequestHash(payload)))
    case NotFound => v.(mail := SendResponse(v.mail, id, BlobReply(false, [])).0)
    case Found(offset, length) =>
      FoundWithin(v.store, CacheKey(kind, RequestHash(payload)));
      v.(mail := SendResponse(v.mail, id, BlobReply(true, v.store.mem[offset..offset + length])).0)
  }

  lemma FoundWithin(s: S.Store, key: seq<byte>)
    requires S.Valid(s) && S.Get(s, key).Found?
    ensures S.Get(s, key).offset + S.Get(s, key).length <= |s.mem|
  {
    assert S.EntryOk(s.slots[S.FindEntry(s.slots, key)], s.base, s.nextOffset);
  }

  /** `handle_get_function_ir`: ten bytes for the one hash it knows. */
  function IrAnswer(known: bool): Reply {
    if known then IrReply(true, 80, [0x48, 0x89, 0xe5, 0x48, 0x83, 0xec, 0x10, 0xc7, 0x45, 0xfc])
    else IrReply(false, 0, [])
  }

  ghost function Handle(v: Server, h: Handler, payload: seq<byte>, id: uint32): Server
    requires S.Valid(v.store)
    requires h in {GetIr, GetIrGraph, GetBytecode} ==> |payload| >= HASH_FIELD
  {
    match h
    case AddIrGraph => HandleStore(v, IrGraph, payload, id)
    case SaveBytecode => HandleStore(v, Bytecode, payload, id)
    case GetIrGraph => HandleFetch(v, IrGraph, payload, id)
    case GetBytecode => HandleFetch(v, Bytecode, payload, id)
    case GetIr => v.(mail := SendResponse(v.mail, id, IrAnswer(RequestHash(payload) == Text("EXISTING_FUNCTION"))).0)
    case _ => v
  }

  /** A message as the server finds it: the route field, the payload, and `current_message_id`. */
  datatype Message = Message(routeField: seq<byte>, payload: seq<byte>, id: uint32)

  /** Fixed-size handlers are registered with the size of their request. */
  ghost predicate SizesOk(routes: Routes) {
    forall k :: k in routes && routes[k].handler in {GetIr, GetIrGraph, GetBytecode} ==> routes[k].minSize >= HASH_FIELD
  }

  /** `dispatch_message`. */
  ghost function Dispatch(v: Server, routes: Routes, msg: Message): Server
    requires S.Valid(v.store) && SizesOk(routes)
  {
    var hash := FieldText(msg.routeField);
    if hash !in routes || |msg.payload| < routes[hash].minSize then v
    else Handle(v, routes[hash].handler, msg.payload, msg.id)
  }

  /** The messages that lead to a response: those for the three fetching handlers that are long enough, and those for
      storing bytecode that hold at least the fixed part of the request. */
  predicate Posts(routes: Routes, msg: Message) {
    var hash := FieldText(msg.routeField);
    && hash in routes && |msg.payload| >= routes[hash].minSize
    && match routes[hash].handler
       case GetIr => true
       case GetIrGraph => true
       case GetBytecode => true
       case SaveBytecode => |msg.payload| >= REQUEST_HEADER
       case _ => false
  }

  lemma DispatchValid(v: Server, routes: Routes, msg: Message)
    requires S.Valid(v.store) && SizesOk(routes)
    ensures S.Valid(Dispatch(v, routes, msg).store)
  {
    var hash := FieldText(msg.routeField);
    hide S.Valid, S.Put;
    if hash in routes && |msg.payload| >= routes[hash].minSize && |msg.payload| >= REQUEST_HEADER {
      S.PutValid(v.store, CacheKey(IrGraph, RequestHash(msg.payload)), RequestData(msg.payload));
      S.PutValid(v.store, CacheKey(Bytecode, RequestHash(msg.payload)), RequestData(msg.payload));
    }
  }

  // ----- the routes the server registers

  function StandardRoutes(): (r: Routes)
    ensures SizesOk(r)
  {
    hide HashRoute;
    map[
      HashRoute(Text("user/create")) := Route(CreateUser, 192)][
      HashRoute(Text("user/get")) := Route(GetUser, 4)][
      HashRoute(Text("user/delete")) := Route(DeleteUser, 4)][
      HashRoute(Text("function/add_ir_graph")) := Route(AddIrGraph, 0)][
      HashRoute(Text("function/get_ir")) := Route(GetIr, HASH_FIELD)][
      HashRoute(Text("function/get_ir_graph")) := Route(GetIrGraph, HASH_FIELD)][
      HashRoute(Text("bytecode/save")) := Route(SaveBytecode, 0)][
      HashRoute(Text("bytecode/get")) := Route(GetBytecode, HASH_FIELD)]
  }

  /** The route under which a blob of the kind is stored, and the one under which it is fetched. */
  function StoreRoute(kind: Kind): seq<byte> {
    if kind.Bytecode? then Text("bytecode/save") else Text("function/add_ir_graph")
  }

  function FetchRoute(kind: Kind): seq<byte> {
    if kind.Bytecode? then Text("bytecode/get") else Text("function/get_ir_graph")
  }

  /** The hashes of the four cache routes differ from those of the routes registered after them. That SHA-256 keeps
      these few names apart is a hypothesis of the results that need it. */
  ghost predicate CacheRoutesDistinct() {
    var add, get := HashRoute(Text("function/add_ir_graph")), HashRoute(Text("function/get_ir_graph"));
    var save, fetch := HashRoute(Text("bytecode/save")), HashRoute(Text("bytecode/get"));
    && add != HashRoute(Text("function/get_ir")) && add != get && add != save && add != fetch
    && get != save && get != fetch && save != fetch
  }

  /** The hash of `function/get_ir` differs from those of the routes registered after it. */
  ghost predicate IrRouteDistinct() {
    var ir := HashRoute(Text("function/get_ir"));
    && ir != HashRoute(Text("function/get_ir_graph")) && ir != HashRoute(Text("bytecode/save"))
    && ir != HashRoute(Text("bytecode/get"))
  }

  lemma IrRoute()
    requires IrRouteDistinct()
    ensures var ir := HashRoute(Text("function/get_ir"));
      ir in StandardRoutes() && StandardRoutes()[ir] == Route(GetIr, 256)
  {
    hide HashRoute, Text;
  }

  /** The hashes of the user routes differ from each other and from those of the other routes. */
  ghost predicate UserRoutesDistinct() {
    var create, get := HashRoute(Text("user/create")), HashRoute(Text("user/get"));
    var delete := HashRoute(Text("user/delete"));
    && create != get && create != delete && get != delete
    && HashRoute(Text("function/add_ir_graph")) !in {create, get, delete}
    && HashRoute(Text("function/get_ir")) !in {create, get, delete}
    && HashRoute(Text("function/get_ir_graph")) !in {create, get, delete}
    && HashRoute(Text("bytecode/save")) !in {create, get, delete}
    && HashRoute(Text("bytecode/get")) !in {create, get, delete}
  }

  lemma UserRoutes()
    requires UserRoutesDistinct()
    ensures var routes := StandardRoutes();
      var create, get := HashRoute(Text("user/create")), HashRoute(Text("user/get"));
      var delete := HashRoute(Text("user/delete"));
      && create in routes && get in routes && delete in routes
      && routes[create] == Route(CreateUser, 192) && routes[get] == Route(GetUser, 4)
      && routes[delete] == Route(DeleteUser, 4)
  {
    hide HashRoute, Text;
  }

  lemma CacheRoutes(kind: Kind)
    requires CacheRoutesDistinct()
    ensures var routes := StandardRoutes();
      && HashRoute(StoreRoute(kind)) in routes && HashRoute(FetchRoute(kind)) in routes
      && routes[HashRoute(StoreRoute(kind))] == Route(if kind.Bytecode? then SaveBytecode else AddIrGraph, 0)
      && routes[HashRoute(FetchRoute(kind))] == Route(if kind.Bytecode? then GetBytecode else GetIrGraph, 256)
  {
    hide HashRoute, Text;
  }

  /** A route hash written into the message by the client is the key the router looks up. */
  lemma RouteFieldRoundTrip(route: seq<byte>)
    ensures FieldText(TextField(HashRoute(route), 0)) == HashRoute(route)
  {
    hide Cut, Strncpy;
    HexIsText(F.Sha256(route));
    FieldRoundTrip(HashRoute(route), 0);
  }

  // ----- the messages for the cache

  function StoreMessage(kind: Kind, payload: seq<byte>, id: uint32): Message {
    Message(TextField(HashRoute(StoreRoute(kind)), 0), payload, id)
  }

  function FetchMessage(kind: Kind, payload: seq<byte>, id: uint32): Message {
    Message(TextField(HashRoute(FetchRoute(kind)), 0), payload, id)
  }

  function IrMessage(payload: seq<byte>, id: uint32): Message {
    Message(TextField(HashRoute(Text("function/get_ir")), 0), payload, id)
  }

  /** `send_message` refuses anything larger. */
  predicate Sendable(payload: seq<byte>) {
    |payload| <= MAX_MESSAGE_SIZE - MESSAGE_HEADER
  }
}
