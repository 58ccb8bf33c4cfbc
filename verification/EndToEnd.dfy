/** What a client gets back: bytes stored by one message and fetched by a later one, over any messages in between. */
module EndToEnd {
  import opened Words
  import opened Messages
  import opened CacheKeys
  import opened ServerSpec
  import opened RouteHash
  import opened Compaction
  import S = Store
  import opened Dictionary
  import opened Refinement
  import opened ExactRuns

  /** The messages, one after the other. */
  ghost function Serve(v: Server, routes: Routes, msgs: seq<Message>): (w: Server)
    requires S.Valid(v.store) && SizesOk(routes)
    ensures S.Valid(w.store)
    decreases |msgs|
  {
    if msgs == [] then v else
      DispatchValid(v, routes, msgs[0]);
      Serve(Dispatch(v, routes, msgs[0]), routes, msgs[1..])
  }

  /** The put a message amounts to, if any. */
  ghost function StoredBy(routes: Routes, msg: Message): Option<Op> {
    var hash := FieldText(msg.routeField);
    if hash !in routes || |msg.payload| < routes[hash].minSize then
      None
    else if !(routes[hash].handler in {AddIrGraph, SaveBytecode}) then
      None
    else if |msg.payload| < REQUEST_HEADER || |msg.payload| != REQUEST_HEADER + RequestSize(msg.payload) then
      None
    else
      Some(PutOp(CacheKey(HandlerKind(routes[hash].handler), RequestHash(msg.payload)), RequestData(msg.payload)))
  }

  /** A message changes the cache by its put and by nothing else. */
  lemma DispatchStore(v: Server, routes: Routes, msg: Message)
    requires S.Valid(v.store) && SizesOk(routes)
    ensures Dispatch(v, routes, msg).store
         == match StoredBy(routes, msg) case None => v.store case Some(op) => StoreStep(v.store, op).0
  {
    hide S.Valid, S.Put, FieldText, RequestHash, RequestSize, CacheKey, S.Get, S.Remove, S.Cleared, FetchedBytes;
  }

  ghost predicate SafeMessage(v: Server, routes: Routes, msg: Message)
    requires S.Valid(v.store)
  {
    StoredBy(routes, msg).Some? ==> Safe(v.store, StoredBy(routes, msg).value)
  }

  ghost predicate SafeMessages(v: Server, routes: Routes, msgs: seq<Message>)
    requires S.Valid(v.store) && SizesOk(routes)
    decreases |msgs|
  {
    msgs != [] ==>
      && SafeMessage(v, routes, msgs[0])
      && (DispatchValid(v, routes, msgs[0]); SafeMessages(Dispatch(v, routes, msgs[0]), routes, msgs[1..]))
  }

  /** The message does not store under the name `k`. */
  ghost predicate Spares(routes: Routes, msg: Message, k: seq<byte>) {
    StoredBy(routes, msg).Some? ==> S.Name(StoredBy(routes, msg).value.key) != k
  }

  ghost predicate AllSpare(routes: Routes, msgs: seq<Message>, k: seq<byte>) {
    forall i :: 0 <= i < |msgs| ==> Spares(routes, msgs[i], k)
  }

  lemma DispatchInStep(v: Server, m: Dict, routes: Routes, msg: Message, k: seq<byte>) returns (m': Dict)
    requires S.Valid(v.store) && SizesOk(routes) && InStep(v.store, m)
    requires SafeMessage(v, routes, msg) && Spares(routes, msg, k)
    ensures InStep(Dispatch(v, routes, msg).store, m')
    ensures k in m ==> k in m' && m'[k] == m[k]
  {
    hide S.Valid, InStep, Dispatch, StoredBy, Safe, StoreStep, DictStep, S.Name;
    DispatchStore(v, routes, msg);
    match StoredBy(routes, msg)
    case None =>
      m' := m;
    case Some(op) =>
      PutOpStored(routes, msg);
      StepExact(v.store, m, op);
      DictStepElsewhere(m, op, Capacity(v.store), |v.store.slots|, k);
      m' := DictStep(m, op, Capacity(v.store), |v.store.slots|).0;
  }

  lemma PutOpStored(routes: Routes, msg: Message)
    ensures StoredBy(routes, msg).Some? ==> StoredBy(routes, msg).value.PutOp?
  {
  }

  /** Messages that store under other names keep an entry, with its bytes. */
  lemma {:induction false} KeptByOthers(v: Server, m: Dict, routes: Routes, msgs: seq<Message>, k: seq<byte>)
      returns (m': Dict)
    requires S.Valid(v.store) && SizesOk(routes) && InStep(v.store, m)
    requires SafeMessages(v, routes, msgs) && AllSpare(routes, msgs, k)
    ensures InStep(Serve(v, routes, msgs).store, m')
    ensures k in m ==> k in m' && m'[k] == m[k]
    decreases |msgs|
  {
    hide S.Valid, InStep, Dispatch, SafeMessage, Spares;
    if msgs == [] {
      m' := m;
    } else {
      DispatchValid(v, routes, msgs[0]);
      assert Spares(routes, msgs[0], k);
      var n := DispatchInStep(v, m, routes, msgs[0], k);
      m' := KeptByOthers(Dispatch(v, routes, msgs[0]), n, routes, msgs[1..], k);
    }
  }

  // ----- a store message and a fetch message

  lemma StoreMessageStores(kind: Kind, p: seq<byte>, id: uint32)
    requires CacheRoutesDistinct() && WellFormed(p)
    ensures StoredBy(StandardRoutes(), StoreMessage(kind, p, id))
         == Some(PutOp(CacheKey(kind, RequestHash(p)), RequestData(p)))
  {
    hide HashRoute, FieldText, TextField, StandardRoutes, CacheRoutesDistinct, RequestHash, RequestSize, RequestData,
         CacheKey;
    CacheRoutes(kind);
    RouteFieldRoundTrip(StoreRoute(kind));
  }

  lemma FetchMessageFetches(v: Server, kind: Kind, q: seq<byte>, id: uint32)
    requires S.Valid(v.store) && CacheRoutesDistinct() && |q| >= HASH_FIELD
    ensures Dispatch(v, StandardRoutes(), FetchMessage(kind, q, id)).mail
         == SendResponse(v.mail, id, match FetchedBytes(v.store, CacheKey(kind, RequestHash(q)))
                                     case None => BlobReply(false, [])
                                     case Some(b) => BlobReply(true, b)).0
  {
    hide S.Valid, S.Get, HashRoute, FieldText, TextField, StandardRoutes, CacheRoutesDistinct, RequestHash, CacheKey,
         SendResponse;
    CacheRoutes(kind);
    RouteFieldRoundTrip(FetchRoute(kind));
  }

  /** A client can send a well-formed request exactly when it stores at most 19956 bytes, and then these bytes go out in
      a response: 136 bytes of header and the blob, which `send_response` does not find too large. */
  lemma RequestBlobFitsResponse(p: seq<byte>)
    requires WellFormed(p)
    ensures Sendable(p) <==> |RequestData(p)| <= 19956
    ensures ReplySize(BlobReply(true, RequestData(p))) == 136 + |RequestData(p)|
    ensures Sendable(p) ==> ReplySize(BlobReply(true, RequestData(p))) <= 20480
    ensures forall mail, id :: Sendable(p) ==> SendResponse(mail, id, BlobReply(true, RequestData(p))).1
  {
    WellFormedIff(p);
  }

  /** Two payloads name the same entry of a kind. */
  ghost predicate SameName(kind: Kind, p: seq<byte>, q: seq<byte>)
    requires |p| >= HASH_FIELD && |q| >= HASH_FIELD
  {
    S.Name(CacheKey(kind, RequestHash(p))) == S.Name(CacheKey(kind, RequestHash(q)))
  }

  /** What the results on storing and fetching ask of the system and of the messages in between. */
  ghost predicate StoreHypotheses(v: Server, kind: Kind, p: seq<byte>, id: uint32, mid: seq<Message>)
    requires S.Valid(v.store) && WellFormed(p)
  {
    && CacheRoutesDistinct() && Sendable(p)
    && SafeMessages(v, StandardRoutes(), [StoreMessage(kind, p, id)] + mid)
    && AllSpare(StandardRoutes(), mid, S.Name(CacheKey(kind, RequestHash(p))))
    && S.Put(v.store, CacheKey(kind, RequestHash(p)), RequestData(p)).1
  }

  /** After a successful store, and any messages that do not store under the same name, a fetch under that name is
      answered with exactly the bytes stored. */
  lemma StoreThenFetch(v: Server, m: Dict, kind: Kind, p: seq<byte>, id: uint32, mid: seq<Message>, q: seq<byte>,
                       id': uint32)
    requires S.Valid(v.store) && InStep(v.store, m) && WellFormed(p) && StoreHypotheses(v, kind, p, id, mid)
    requires |q| >= HASH_FIELD && SameName(kind, p, q)
    ensures var before := Serve(v, StandardRoutes(), [StoreMessage(kind, p, id)] + mid);
      Dispatch(before, StandardRoutes(), FetchMessage(kind, q, id')).mail
      == Mailbox(BlobReply(true, RequestData(p)), 136 + |RequestData(p)|, id', true,
                 before.mail.ready + 1)
  {
    hide S.Valid, InStep, S.Put, S.Name, CacheKey, StoreMessage, FetchMessage, StandardRoutes, Dispatch, StoredBy,
         DictBytes,
         Safe, FetchedBytes, CacheRoutesDistinct, RequestHash, RequestSize;
    var R, msg := StandardRoutes(), StoreMessage(kind, p, id);
    var key, data := CacheKey(kind, RequestHash(p)), RequestData(p);
    var k := S.Name(key);
    assert ([msg] + mid)[1..] == mid;
    StoreMessageStores(kind, p, id);
    DispatchStore(v, R, msg);
    DispatchValid(v, R, msg);
    StepExact(v.store, m, PutOp(key, data));
    var v1, m1 := Dispatch(v, R, msg), DictStep(m, PutOp(key, data), Capacity(v.store), |v.store.slots|).0;
    assert k in m1 && m1[k] == data;
    var m2 := KeptByOthers(v1, m1, R, mid, k);
    var w := Serve(v1, R, mid);
    FetchMessageFetches(w, kind, q, id');
    InStepGet(w.store, m2, CacheKey(kind, RequestHash(q)));
    RequestBlobFitsResponse(p);
  }

  lemma InStepGet(s: S.Store, m: Dict, key: seq<byte>)
    requires S.Valid(s) && InStep(s, m) && S.Name(key) in m
    ensures FetchedBytes(s, key) == Some(m[S.Name(key)])
  {
    hide S.Valid, FetchedBytes, S.Name;
    GetExact(s, m, key);
  }

  /** The cache takes the bytes of a request to store bytecode. */
  ghost predicate PutTakes(v: Server, p: seq<byte>)
    requires S.Valid(v.store) && |p| >= REQUEST_HEADER
  {
    S.Put(v.store, CacheKey(Bytecode, RequestHash(p)), RequestData(p)).1
  }

  /** The answer to a well-formed bytecode store says whether the cache took it; a payload with a wrong size field is
      answered with a failure and stores nothing. */
  lemma StoreAnswered(v: Server, p: seq<byte>, id: uint32)
    requires S.Valid(v.store) && CacheRoutesDistinct() && |p| >= 260
    ensures var w := Dispatch(v, StandardRoutes(), StoreMessage(Bytecode, p, id));
      && w.mail == Mailbox(SaveReply(WellFormed(p) && PutTakes(v, p)), 129, id, true, v.mail.ready + 1)
      && (!WellFormed(p) ==> w.store == v.store)
  {
    hide S.Valid, S.Put, HashRoute, FieldText, TextField, StandardRoutes, CacheRoutesDistinct, RequestHash, RequestSize,
         RequestData, CacheKey;
    CacheRoutes(Bytecode);
    RouteFieldRoundTrip(StoreRoute(Bytecode));
  }

  /** `EXISTING_FUNCTION` and its terminator at the start of a payload. */
  predicate AsksForKnown(p: seq<byte>)
    requires |p| >= 256
  {
    (forall i :: 0 <= i < 17 ==> p[i] == "EXISTING_FUNCTION"[i] as nat) && p[17] == 0
  }

  lemma AsksForKnownIff(p: seq<byte>)
    requires |p| >= 256
    ensures AsksForKnown(p) <==> RequestHash(p) == Text("EXISTING_FUNCTION")
  {
    var s := "EXISTING_FUNCTION";
    forall i | 0 <= i < 17
      ensures Text(s)[i] == s[i] as nat != 0
    {
    }
    RequestHashIff(p, Text(s));
  }

  /** A request for the IR of a function is answered with ten bytes for the one known hash and with a failure for any
      other, under the id of the message; the cache is not touched. */
  lemma IrAnswered(v: Server, p: seq<byte>, id: uint32)
    requires S.Valid(v.store) && IrRouteDistinct() && |p| >= 256
    ensures var w := Dispatch(v, StandardRoutes(), IrMessage(p, id));
      && w.store == v.store && w.mail.full && w.mail.messageId == id && w.mail.ready == v.mail.ready + 1
      && w.mail.size == (if AsksForKnown(p) then 146 else 136)
      && w.mail.response.IrReply? && (w.mail.response.success <==> AsksForKnown(p))
      && w.mail.response.bits == 8 * |w.mail.response.data|
      && w.mail.response.data
         == if AsksForKnown(p) then [0x48, 0x89, 0xe5, 0x48, 0x83, 0xec, 0x10, 0xc7, 0x45, 0xfc] else []
  {
    hide S.Valid, HashRoute, FieldText, TextField, StandardRoutes, IrRouteDistinct, RequestHash, Text, AsksForKnown;
    IrRoute();
    RouteFieldRoundTrip(Text("function/get_ir"));
    AsksForKnownIff(p);
  }

  /** A request for IR that is too short to hold a hash is dropped. */
  lemma IrTooShort(v: Server, p: seq<byte>, id: uint32)
    requires S.Valid(v.store) && IrRouteDistinct() && |p| < 256
    ensures Dispatch(v, StandardRoutes(), IrMessage(p, id)) == v
  {
    hide S.Valid, HashRoute, FieldText, TextField, StandardRoutes, IrRouteDistinct;
    IrRoute();
    RouteFieldRoundTrip(Text("function/get_ir"));
  }

  /** A message on any other route, registered or not, leaves cache and response half as they are. */
  lemma OthersIgnored(v: Server, msg: Message)
    requires S.Valid(v.store)
    requires var hash := FieldText(msg.routeField);
      && hash != HashRoute(Text("function/add_ir_graph")) && hash != HashRoute(Text("function/get_ir"))
      && hash != HashRoute(Text("function/get_ir_graph")) && hash != HashRoute(Text("bytecode/save"))
      && hash != HashRoute(Text("bytecode/get"))
    ensures Dispatch(v, StandardRoutes(), msg) == v
  {
    hide S.Valid, HashRoute, FieldText, Text;
  }

  // ----- the client's side

  /** A client that stores `data` under a hash and later fetches that hash receives exactly `data`. */
  lemma ClientReceives(v: Server, m: Dict, kind: Kind, hash: seq<byte>, data: seq<byte>, mid: seq<Message>,
                       last: byte, id: uint32, last': byte, id': uint32)
    requires 0 !in hash && |hash| < 255 && |data| < 0x1_0000_0000
    requires S.Valid(v.store) && InStep(v.store, m) && StoreHypotheses(v, kind, StoreRequest(hash, last, data), id, mid)
    ensures var before := Serve(v, StandardRoutes(), [StoreMessage(kind, StoreRequest(hash, last, data), id)] + mid);
      var after := Dispatch(before, StandardRoutes(), FetchMessage(kind, FetchRequest(hash, last'), id'));
      && after.mail.ready > 0
      && WaitForResponse(after.mail, id').1
      && WaitForResponse(after.mail, id').2 == BlobReply(true, data)
      && WaitForResponse(after.mail, id').3 == 136 + |data|
  {
    hide S.Valid, InStep, S.Put, S.Name, Dispatch, SafeMessages, AllSpare, Serve, RequestHash, RequestSize, RequestData,
         StoreRequest, FetchRequest, StoreHypotheses;
    StoreRequestRoundTrip(hash, last, data);
    FetchRequestRoundTrip(hash, last');
    StoreThenFetch(v, m, kind, StoreRequest(hash, last, data), id, mid, FetchRequest(hash, last'), id');
  }

  // ----- entries never interfere

  /** If the message stores, it stores under some proper hash for a kind, and not under this one for this kind. */
  ghost predicate StoresElsewhere(routes: Routes, msg: Message, kind: Kind, hash: seq<byte>) {
    StoredBy(routes, msg).Some? ==>
      exists kind', hash' ::
        && Proper(kind', hash') && (kind' != kind || hash' != hash)
        && StoredBy(routes, msg).value.key == CacheKey(kind', hash')
  }

  lemma ElsewhereSpares(routes: Routes, msg: Message, kind: Kind, hash: seq<byte>)
    requires Proper(kind, hash) && StoresElsewhere(routes, msg, kind, hash)
    ensures Spares(routes, msg, S.Name(CacheKey(kind, hash)))
  {
    PutOpStored(routes, msg);
    hide StoredBy, S.Name, CacheKey, Proper;
    if StoredBy(routes, msg).Some? {
      var kind', hash' :| Proper(kind', hash') && (kind' != kind || hash' != hash)
                          && StoredBy(routes, msg).value.key == CacheKey(kind', hash');
      ProperKeysInjective(kind, hash, kind', hash');
    }
  }

  /** Whatever is stored for the other kind, or for the same kind under other hashes, in whatever order and mixed in
      whatever way: an entry stays present, with its length and checksum. */
  lemma {:induction false} KindsNeverInterfere(v: Server, m: Dict, routes: Routes, msgs: seq<Message>,
                                               kind: Kind, hash: seq<byte>) returns (m': Dict)
    requires S.Valid(v.store) && SizesOk(routes) && Tracks(v.store, m)
    requires Proper(kind, hash)
    requires forall i :: 0 <= i < |msgs| ==> StoresElsewhere(routes, msgs[i], kind, hash)
    ensures Tracks(Serve(v, routes, msgs).store, m')
    ensures var k := S.Name(CacheKey(kind, hash)); (k in m <==> k in m') && (k in m ==> m'[k] == m[k])
    decreases |msgs|
  {
    hide S.Valid, Tracks, Dispatch, StoresElsewhere, CacheKey, S.Name, Proper, Spares;
    m' := m;
    if msgs != [] {
      DispatchValid(v, routes, msgs[0]);
      assert StoresElsewhere(routes, msgs[0], kind, hash);
      ElsewhereSpares(routes, msgs[0], kind, hash);
      m' := DispatchTracks(v, m, routes, msgs[0], S.Name(CacheKey(kind, hash)));
      m' := KindsNeverInterfere(Dispatch(v, routes, msgs[0]), m', routes, msgs[1..], kind, hash);
    }
  }

  lemma DispatchTracks(v: Server, m: Dict, routes: Routes, msg: Message, k: seq<byte>) returns (m': Dict)
    requires S.Valid(v.store) && SizesOk(routes) && Tracks(v.store, m) && Spares(routes, msg, k)
    ensures Tracks(Dispatch(v, routes, msg).store, m') && (k in m <==> k in m') && (k in m ==> m'[k] == m[k])
  {
    hide S.Valid, Tracks, Dispatch, StoredBy, StoreStep, DictStep, S.Name;
    DispatchStore(v, routes, msg);
    match StoredBy(routes, msg)
    case None =>
      m' := m;
    case Some(op) =>
      PutOpStored(routes, msg);
      StepTracks(v.store, m, op);
      DictStepElsewhere(m, op, Capacity(v.store), |v.store.slots|, k);
      m' := DictStep(m, op, Capacity(v.store), |v.store.slots|).0;
  }

  // ----- no response is ever refused

  /** Every blob is small enough for a response. */
  ghost predicate BlobsFit(s: S.Store) {
    forall i :: 0 <= i < |s.slots| && s.slots[i].used ==> BLOB_REPLY_HEADER + s.slots[i].length <= MAX_MESSAGE_SIZE
  }

  /** Messages a client can send keep it so. */
  lemma DispatchBlobsFit(v: Server, routes: Routes, msg: Message)
    requires S.Valid(v.store) && SizesOk(routes) && BlobsFit(v.store) && Sendable(msg.payload)
    ensures BlobsFit(Dispatch(v, routes, msg).store)
  {
    DispatchStore(v, routes, msg);
    hide S.Valid, Dispatch, FieldText, CacheKey, RequestHash, RequestSize, S.FirstMatch, S.FirstFree,
         S.KeyField, LiveBytes, MemAfter;
    match StoredBy(routes, msg)
    case None =>
    case Some(op) =>
      PutOpStored(routes, msg);
      assert |op.data| + REQUEST_HEADER == |msg.payload|;
      PutBlobsFit(v.store, op.key, op.data);
  }

  lemma PutBlobsFit(s: S.Store, key: seq<byte>, data: seq<byte>)
    requires S.Valid(s) && BlobsFit(s) && BLOB_REPLY_HEADER + |data| <= MAX_MESSAGE_SIZE
    ensures BlobsFit(S.Put(s, key, data).0)
  {
    hide S.Valid, S.FirstMatch, S.FirstFree, S.KeyField, LiveBytes, MemAfter;
    S.CompactedValid(s);
    var c := S.MakeRoom(s, |data|);
    assert BlobsFit(c);
  }

  /** Over every run of messages that clients can send. */
  lemma {:induction false} ServeBlobsFit(v: Server, routes: Routes, msgs: seq<Message>)
    requires S.Valid(v.store) && SizesOk(routes) && BlobsFit(v.store)
    requires forall i :: 0 <= i < |msgs| ==> Sendable(msgs[i].payload)
    ensures BlobsFit(Serve(v, routes, msgs).store)
    decreases |msgs|
  {
    hide S.Valid, BlobsFit, Dispatch, Sendable;
    if msgs != [] {
      DispatchValid(v, routes, msgs[0]);
      DispatchBlobsFit(v, routes, msgs[0]);
      ServeBlobsFit(Dispatch(v, routes, msgs[0]), routes, msgs[1..]);
    }
  }

  /** So a fetch always leaves an answer. */
  lemma FetchAlwaysAnswered(v: Server, kind: Kind, payload: seq<byte>, id: uint32)
    requires S.Valid(v.store) && BlobsFit(v.store) && |payload| >= HASH_FIELD
    ensures var mail := HandleFetch(v, kind, payload, id).mail;
      mail.ready == v.mail.ready + 1 && mail.messageId == id && mail.full
  {
    hide S.FirstMatch, Disjoint, S.DistinctNames, LiveBytes, S.UsedCount, RequestHash, CacheKey;
    var key := CacheKey(kind, RequestHash(payload));
    if S.Get(v.store, key).Found? {
      FoundWithin(v.store, key);
      S.MatchUsed(v.store.slots, key);
    }
  }
}
