/** The classes of the server and the client: `IPCRouter`, `IPCServer` and `IPCClient` over the shared segment, each
    method proved to do what `ServerSpec` says. These methods describe each side by itself; their interleaving is the
    subject of `Ipc`. */
module ServerClasses {
  import opened Words
  import opened Messages
  import opened CacheKeys
  import opened ServerSpec
  import opened RouteHash
  import opened SharedCacheClass
  import S = Store

  /** `SharedData`. The semaphores are their values; the message is kept field by field. */
  class SharedData {
    var mutex: nat
    var dataReady: nat
    var responseReady: nat
    var messageId: uint32
    var routeField: seq<byte>
    var payload: seq<byte>
    var hasMessage: bool
    var messageSize: nat
    var currentMessageId: uint32
    var response: Reply
    var responseSize: nat
    var hasResponse: bool
    var responseMessageId: uint32

    /** The initial state set by `create_shared_memory`. */
    constructor ()
      ensures mutex == 1 && dataReady == 0 && responseReady == 0 && !hasMessage && !hasResponse
    {
      mutex, dataReady, responseReady := 1, 0, 0;
      messageId, routeField, payload := 0, [], [];
      hasMessage, messageSize, currentMessageId := false, 0, 0;
      response, responseSize, hasResponse, responseMessageId := IrReply(false, 0, []), 0, false, 0;
    }

    ghost function Mail(): Mailbox
      reads this
    {
      Mailbox(response, responseSize, responseMessageId, hasResponse, responseReady)
    }

    ghost function Pending(): Message
      reads this
    {
      Message(routeField, payload, currentMessageId)
    }
  }

  class IPCRouter {
    var routes: Routes

    constructor ()
      ensures routes == map[]
    {
      routes := map[];
    }

    /** `register_route`: the wrapper lets only payloads of at least the request's size through. */
    method RegisterRoute(route: seq<byte>, handler: Handler, requestSize: nat)
      modifies this
      ensures routes == old(routes)[HashRoute(route) := Route(handler, requestSize)]
    {
      var routeHash := ComputeHashRoute(route);
      routes := routes[routeHash := Route(handler, requestSize)];
    }

    /** `register_variable_route`. */
    method RegisterVariableRoute(route: seq<byte>, handler: Handler)
      modifies this
      ensures routes == old(routes)[HashRoute(route) := Route(handler, 0)]
    {
      var routeHash := ComputeHashRoute(route);
      routes := routes[routeHash := Route(handler, 0)];
    }
  }

  class IPCServer {
    const shared: SharedData
    const router: IPCRouter
    const cache: SharedCache
    var running: bool

    ghost predicate Valid()
      reads this, router, cache, cache.entries, cache.mem
    {
      cache.Valid() && SizesOk(router.routes)
    }

    ghost function View(): Server
      reads shared, cache, cache.entries, cache.mem
    {
      Server(cache.State(), shared.Mail())
    }

    /** `initialize`: the segment is new and the routes are registered. */
    constructor (shared: SharedData, cache: SharedCache)
      requires cache.Valid()
      ensures Valid() && this.shared == shared && this.cache == cache
      ensures fresh(router) && router.routes == StandardRoutes()
    {
      this.shared := shared;
      this.cache := cache;
      router := new IPCRouter();
      running := true;
      new;
      InitializeRoutes();
    }

    /** `initialize_routes`. */
    method InitializeRoutes()
      requires router.routes == map[]
      modifies router
      ensures router.routes == StandardRoutes()
    {
      hide HashRoute, Text;
      router.RegisterRoute(Text("user/create"), CreateUser, 192);
      router.RegisterRoute(Text("user/get"), GetUser, 4);
      router.RegisterRoute(Text("user/delete"), DeleteUser, 4);
      router.RegisterVariableRoute(Text("function/add_ir_graph"), AddIrGraph);
      router.RegisterRoute(Text("function/get_ir"), GetIr, HASH_FIELD);
      router.RegisterRoute(Text("function/get_ir_graph"), GetIrGraph, HASH_FIELD);
      router.RegisterVariableRoute(Text("bytecode/save"), SaveBytecode);
      router.RegisterRoute(Text("bytecode/get"), GetBytecode, HASH_FIELD);
    }

    /** `send_response`. */
    method SendResponse(messageId: uint32, reply: Reply) returns (ok: bool)
      modifies shared`response, shared`responseSize, shared`responseMessageId, shared`hasResponse, shared`responseReady
      ensures (shared.Mail(), ok) == ServerSpec.SendResponse(old(shared.Mail()), messageId, reply)
      ensures ok <==> ReplySize(reply) <= 20480
    {
      if ReplySize(reply) > MAX_MESSAGE_SIZE {
        return false;
      }
      shared.response := reply;
      shared.responseSize := ReplySize(reply);
      shared.responseMessageId := messageId;
      shared.hasResponse := true;
      shared.responseReady := shared.responseReady + 1;
      return true;
    }

    /** `handle_save_bytecode` and `handle_add_function_ir_graph`. */
    method HandleStore(kind: Kind, payload: seq<byte>)
      requires Valid()
      modifies shared`response, shared`responseSize, shared`responseMessageId, shared`hasResponse, shared`responseReady,
               cache, cache.entries, cache.mem
      ensures Valid() && View() == ServerSpec.HandleStore(old(View()), kind, payload, shared.currentMessageId)
    {
      hide S.Valid, S.Put, CacheKey, RequestHash, RequestSize, SizesOk;
      if |payload| < REQUEST_HEADER {
        return;
      }
      var ok := false;
      if |payload| == REQUEST_HEADER + RequestSize(payload) {
        ghost var s := cache.State();
        var data := RequestData(payload);
        var buffer := new byte[|data|](i requires 0 <= i < |data| => data[i]);
        assert buffer[0..0 + |data|] == data;
        ok := cache.Put(CacheKey(kind, RequestHash(payload)), buffer, 0, |data|);
      }
      if kind.Bytecode? {
        var sent := SendResponse(shared.currentMessageId, SaveReply(ok));
      }
    }

    /** `handle_get_bytecode` and `handle_get_function_ir_graph`. */
    method HandleFetch(kind: Kind, payload: seq<byte>, messageId: uint32)
      requires Valid() && |payload| >= HASH_FIELD
      modifies shared`response, shared`responseSize, shared`responseMessageId, shared`hasResponse, shared`responseReady
      ensures Valid() && View() == ServerSpec.HandleFetch(old(View()), kind, payload, messageId)
    {
      hide S.Valid, S.Get, CacheKey, RequestHash, SizesOk;
      var found, offset, length := cache.Get(CacheKey(kind, RequestHash(payload)));
      if found {
        var sent := SendResponse(messageId, BlobReply(true, cache.mem[offset..offset + length]));
      } else {
        var sent := SendResponse(messageId, BlobReply(false, []));
      }
    }

    /** `dispatch_message` and the handler it finds. */
    method DispatchMessage()
      requires Valid()
      modifies shared`response, shared`responseSize, shared`responseMessageId, shared`hasResponse, shared`responseReady,
               cache, cache.entries, cache.mem
      ensures Valid() && View() == Dispatch(old(View()), router.routes, shared.Pending())
    {
      hide S.Valid, FieldText, ServerSpec.HandleStore, ServerSpec.HandleFetch, RequestHash;
      var routeHash := FieldText(shared.routeField);
      if routeHash in router.routes && |shared.payload| >= router.routes[routeHash].minSize {
        match router.routes[routeHash].handler {
          case AddIrGraph =>
            HandleStore(IrGraph, shared.payload);
          case SaveBytecode =>
            HandleStore(Bytecode, shared.payload);
          case GetIrGraph =>
            HandleFetch(IrGraph, shared.payload, shared.currentMessageId);
          case GetBytecode =>
            HandleFetch(Bytecode, shared.payload, shared.currentMessageId);
          case GetIr =>
            var known := RequestHash(shared.payload) == Text("EXISTING_FUNCTION");
            var sent := SendResponse(shared.currentMessageId, IrAnswer(known));
          case _ =>
        }
      }
    }

    /** One turn of the loop in `run`, from the moment `data_ready` lets it pass. */
    method RunOnce() returns (stopped: bool)
      requires Valid() && shared.dataReady > 0
      modifies shared, cache, cache.entries, cache.mem
      ensures Valid() && shared.dataReady == old(shared.dataReady) - 1 && stopped == !running
      ensures shared.Pending() == old(shared.Pending())
      ensures stopped ==> View() == old(View()) && shared.mutex == old(shared.mutex)
      ensures stopped ==> shared.hasMessage == old(shared.hasMessage)
      ensures !stopped ==> shared.mutex == old(shared.mutex) + 1 && !shared.hasMessage
      ensures !stopped ==>
        View() == if !old(shared.hasMessage) then old(View())
                  else Dispatch(old(View()), router.routes, old(shared.Pending()))
    {
      hide S.Valid, Dispatch;
      shared.dataReady := shared.dataReady - 1;
      if !running {
        return true;
      }
      if shared.hasMessage {
        DispatchMessage();
        shared.hasMessage := false;
      }
      shared.mutex := shared.mutex + 1;
      return false;
    }

    /** `stop`. */
    method Stop()
      modifies this`running, shared`dataReady
      ensures !running && shared.dataReady == old(shared.dataReady) + 1
    {
      running := false;
      shared.dataReady := shared.dataReady + 1;
    }
  }

  class IPCClient {
    const shared: SharedData
    /** The counter of `generate_message_id`, one per process. */
    var counter: uint32

    constructor (shared: SharedData)
      ensures this.shared == shared && counter == 0
    {
      this.shared := shared;
      counter := 0;
    }

    /** `send_message` run without interference, once `mutex` lets it pass: a refused message changes nothing. */
    method SendMessage(payload: seq<byte>, routeHash: seq<byte>) returns (ok: bool)
      requires shared.mutex > 0
      modifies this`counter, shared
      ensures ok == Sendable(payload) && (ok <==> |payload| <= 20216)
      ensures shared.Mail() == old(shared.Mail()) && shared.mutex == old(shared.mutex)
      ensures !ok ==> shared.Pending() == old(shared.Pending()) && shared.hasMessage == old(shared.hasMessage)
      ensures !ok ==> shared.dataReady == old(shared.dataReady) && counter == old(counter)
      ensures ok ==> counter == (old(counter) + 1) % 0x1_0000_0000
      ensures ok ==> shared.Pending() == Message(TextField(routeHash, 0), payload, counter) && shared.hasMessage
      ensures ok ==> shared.dataReady == old(shared.dataReady) + 1
      ensures ok ==> shared.messageId == counter && shared.messageSize == 264 + |payload|
    {
      if |payload| > MAX_MESSAGE_SIZE - MESSAGE_HEADER {
        return false;
      }
      shared.mutex := shared.mutex - 1;
      counter := Add32(counter, 1);
      shared.messageId := counter;
      shared.routeField := TextField(routeHash, 0);
      shared.payload := payload;
      shared.messageSize := MESSAGE_HEADER + |payload|;
      shared.hasMessage := true;
      shared.currentMessageId := shared.messageId;
      shared.dataReady := shared.dataReady + 1;
      shared.mutex := shared.mutex + 1;
      return true;
    }

    /** `wait_for_response`, once `response_ready` lets it pass. */
    method WaitForResponse(expected: uint32) returns (ok: bool, reply: Reply, size: nat)
      requires shared.responseReady > 0
      modifies shared`responseReady, shared`hasResponse, shared`responseSize
      ensures (shared.Mail(), ok, reply, size) == ServerSpec.WaitForResponse(old(shared.Mail()), expected)
      ensures ok <==> shared.responseMessageId == expected
      ensures shared.responseReady == old(shared.responseReady) - 1
      ensures ok ==> size == old(shared.responseSize) && !shared.hasResponse && shared.responseSize == 0
      ensures ok ==> reply == shared.response
      ensures !ok ==> shared.hasResponse == old(shared.hasResponse) && shared.responseSize == old(shared.responseSize)
    {
      shared.responseReady := shared.responseReady - 1;
      reply, size := shared.response, 0;
      if shared.responseMessageId != expected {
        return false, reply, size;
      }
      size := shared.responseSize;
      shared.hasResponse := false;
      shared.responseSize := 0;
      return true, reply, size;
    }
  }
}
