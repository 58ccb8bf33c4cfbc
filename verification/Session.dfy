/** The whole path: clients, protocol, server and cache. In a run in turn the server serves exactly the messages
    sent, so a client that stored bytes and later fetches them is answered with those bytes. */
module Session {
  import opened Words
  import opened Messages
  import opened CacheKeys
  import opened ServerSpec
  import opened EndToEnd
  import S = Store
  import D = Dictionary
  import Refinement
  import ExactRuns
  import opened ServerAnswers
  import Ipc
  import Discipline

  lemma {:induction false} ServeConcat(v: Server, routes: Routes, a: seq<Message>, b: seq<Message>)
    requires S.Valid(v.store) && SizesOk(routes)
    ensures Serve(v, routes, a + b) == Serve(Serve(v, routes, a), routes, b)
    decreases |a|
  {
    hide S.Valid, Dispatch, SizesOk;
    if a == [] {
      assert a + b == b;
    } else {
      DispatchValid(v, routes, a[0]);
      assert (a + b)[1..] == a[1..] + b;
      ServeConcat(Dispatch(v, routes, a[0]), routes, a[1..], b);
    }
  }

  /** Safe messages keep the cache in step with some map. */
  lemma {:induction false} ServeInStep(v: Server, m: D.Dict, routes: Routes, msgs: seq<Message>) returns (m': D.Dict)
    requires S.Valid(v.store) && SizesOk(routes) && ExactRuns.InStep(v.store, m) && SafeMessages(v, routes, msgs)
    ensures ExactRuns.InStep(Serve(v, routes, msgs).store, m')
    decreases |msgs|
  {
    hide S.Valid, ExactRuns.InStep, Dispatch, SafeMessage;
    m' := m;
    if msgs != [] {
      DispatchValid(v, routes, msgs[0]);
      m' := DispatchInStepAny(v, m, routes, msgs[0]);
      m' := ServeInStep(Dispatch(v, routes, msgs[0]), m', routes, msgs[1..]);
    }
  }

  lemma DispatchInStepAny(v: Server, m: D.Dict, routes: Routes, msg: Message) returns (m': D.Dict)
    requires S.Valid(v.store) && SizesOk(routes) && ExactRuns.InStep(v.store, m) && SafeMessage(v, routes, msg)
    ensures ExactRuns.InStep(Dispatch(v, routes, msg).store, m')
  {
    hide S.Valid, ExactRuns.InStep, Dispatch, StoredBy, ExactRuns.Safe, Refinement.StoreStep, D.DictStep;
    DispatchStore(v, routes, msg);
    match StoredBy(routes, msg)
    case None =>
      m' := m;
    case Some(op) =>
      ExactRuns.StepExact(v.store, m, op);
      m' := D.DictStep(m, op, Refinement.Capacity(v.store), |v.store.slots|).0;
  }

  /** The messages are: any safe ones, a store that succeeds, safe ones that do not store under its name, and a fetch
      under that name. */
  ghost predicate StoresThenFetches(v: Server, m: D.Dict, msgs: seq<Message>, pre: seq<Message>, kind: Kind,
                                    p: seq<byte>, id: uint32, mid: seq<Message>, q: seq<byte>, id': uint32)
    requires S.Valid(v.store)
  {
    && msgs == pre + ([StoreMessage(kind, p, id)] + mid) + [FetchMessage(kind, q, id')]
    && ExactRuns.InStep(v.store, m) && SafeMessages(v, StandardRoutes(), pre)
    && WellFormed(p) && |q| >= HASH_FIELD && SameName(kind, p, q)
    && StoreHypotheses(Serve(v, StandardRoutes(), pre), kind, p, id, mid)
  }

  /** Then the response left by the server holds exactly the bytes stored and bears the fetch's id. */
  lemma ServedAsStored(v: Server, m: D.Dict, msgs: seq<Message>, pre: seq<Message>, kind: Kind, p: seq<byte>,
                       id: uint32, mid: seq<Message>, q: seq<byte>, id': uint32)
    requires S.Valid(v.store) && StoresThenFetches(v, m, msgs, pre, kind, p, id, mid, q, id')
    ensures |p| >= REQUEST_HEADER
    ensures var mail := Serve(v, StandardRoutes(), msgs).mail;
      && mail.response == BlobReply(true, RequestData(p)) && mail.size == 136 + |RequestData(p)|
      && mail.messageId == id' && mail.full
  {
    assert |p| >= REQUEST_HEADER;
    hide S.Valid, S.Name, ExactRuns.InStep, SafeMessages, Dispatch, SizesOk, StoreMessage, FetchMessage, StandardRoutes,
         SameName, WellFormed, StoreHypotheses, Serve;
    var R := StandardRoutes();
    var body := [StoreMessage(kind, p, id)] + mid;
    var fetch := FetchMessage(kind, q, id');
    var v1 := Serve(v, R, pre);
    var m1 := ServeInStep(v, m, R, pre);
    StoreThenFetch(v1, m1, kind, p, id, mid, q, id');
    ServeConcat(v, R, pre, body);
    ServeConcat(v, R, pre + body, [fetch]);
    ServeOne(Serve(v, R, pre + body), R, fetch);
  }

  /** Over every run in turn whose puts are safe: once nothing is in transit, that is what the server has left. */
  lemma FetchedAsStored(s: Ipc.System, steps: seq<Ipc.Step>, v: Server, m: D.Dict, pre: seq<Message>,
                        kind: Kind, p: seq<byte>, id: uint32, mid: seq<Message>, q: seq<byte>, id': uint32)
    requires Ipc.Initial(s) && Discipline.RunInTurn(s, steps) && Discipline.NothingInTransit(Ipc.Run(s, steps))
    requires S.Valid(v.store)
    requires StoresThenFetches(v, m, AllMessages(Ipc.Run(s, steps).sent), pre, kind, p, id, mid, q, id')
    ensures |p| >= REQUEST_HEADER
    ensures var mail := Serve(v, StandardRoutes(), AllMessages(Ipc.Run(s, steps).dispatched)).mail;
      && mail.response == BlobReply(true, RequestData(p)) && mail.size == 136 + |RequestData(p)|
      && mail.messageId == id' && mail.full
  {
    hide S.Valid, Ipc.Run, Ipc.CanRun, Ipc.Initial, Discipline.RunInTurn, Discipline.NothingInTransit, StandardRoutes,
         StoresThenFetches, Serve;
    Discipline.DeliveredExactly(s, steps);
    ServedAsStored(v, m, AllMessages(Ipc.Run(s, steps).sent), pre, kind, p, id, mid, q, id');
  }

  lemma ServeOne(v: Server, routes: Routes, msg: Message)
    requires S.Valid(v.store) && SizesOk(routes)
    ensures Serve(v, routes, [msg]) == Dispatch(v, routes, msg)
  {
    hide S.Valid, Dispatch, SizesOk;
    DispatchValid(v, routes, msg);
    assert [msg][1..] == [];
  }
}
