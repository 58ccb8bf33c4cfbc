/** Clients, protocol, server and responses in one system: every dispatch is `ServerSpec.Dispatch`, and what a client
    receives is what stands in the response half of shared memory at that moment. */
module Conversation {
  import opened Words
  import opened Messages
  import opened CacheKeys
  import opened ServerSpec
  import opened RouteHash
  import opened EndToEnd
  import S = Store
  import D = Dictionary
  import ExactRuns
  import opened Ipc
  import opened Discipline
  import opened Responses
  import opened CallGuard
  import opened ServerAnswers
  import Session

  /** `got` are the responses copied, with their sizes, one for each receipt. */
  datatype Whole = Whole(talk: Talk, server: Server, got: seq<(Reply, nat)>)

  ghost predicate Dispatches(w: Whole, step: TalkStep) {
    step == Protocol(ServerMove) && w.talk.system.server.DispatchMessage?
  }

  ghost function Next(w: Whole, step: TalkStep): Whole
    requires Possible(w.talk, step) && S.Valid(w.server.store)
  {
    var (v, mail) := (w.server, w.server.mail);
    var u := w.(talk := After(w.talk, step, IsAnswered));
    match step
    case Protocol(_) =>
      if !Dispatches(w, step) then u
      else u.(server := Dispatch(v, StandardRoutes(), AsMessage(Read(w.talk.system.buffer))))
    case Wait(_) => u.(server := v.(mail := mail.(ready := if mail.ready > 0 then mail.ready - 1 else 0)))
    case Check(_) => u
    case Copy(_) =>
      u.(server := v.(mail := mail.(full := false, size := 0)), got := w.got + [(mail.response, mail.size)])
  }

  lemma NextValid(w: Whole, step: TalkStep)
    requires Possible(w.talk, step) && S.Valid(w.server.store)
    ensures S.Valid(Next(w, step).server.store)
  {
    hide After, StandardRoutes, Dispatch, S.Valid, SizesOk;
    assert SizesOk(StandardRoutes());
    if Dispatches(w, step) {
      DispatchValid(w.server, StandardRoutes(), AsMessage(Read(w.talk.system.buffer)));
    }
  }

  ghost predicate CourteousWhole(w: Whole, steps: seq<TalkStep>)
    requires S.Valid(w.server.store)
    decreases |steps|
  {
    steps != [] ==>
      && Courteous(w.talk, steps[0], IsAnswered)
      && (NextValid(w, steps[0]); CourteousWhole(Next(w, steps[0]), steps[1..]))
  }

  ghost function WholeRun(w: Whole, steps: seq<TalkStep>): Whole
    requires S.Valid(w.server.store) && CourteousWhole(w, steps)
    decreases |steps|
  {
    if steps == [] then w else
      NextValid(w, steps[0]);
      WholeRun(Next(w, steps[0]), steps[1..])
  }

  /** The three statements of a wait, uninterrupted, are `wait_for_response`: refused after the second, or `w3`. */
  lemma ThreeStatements(w: Whole, c: nat) returns (w1: Whole, w2: Whole, w3: Whole)
    requires S.Valid(w.server.store) && Possible(w.talk, Wait(c))
    requires w.server.mail.ready == w.talk.ready && w.server.mail.messageId == w.talk.response.currentId
    ensures w1 == Next(w, Wait(c)) && w1.server.store == w2.server.store == w.server.store
    ensures Possible(w1.talk, Check(c)) && w2 == Next(w1, Check(c))
    ensures var (mail, ok, reply, size) := WaitForResponse(w.server.mail, w.talk.system.clients[c].counter);
      if ok then
        && Possible(w2.talk, Copy(c)) && w3 == Next(w2, Copy(c))
        && w3.server.mail == mail && w3.got == w.got + [(reply, size)]
      else w2.server.mail == mail && w2.got == w.got && w2.talk.waiters == w.talk.waiters[c := Away] && w3 == w2
  {
    hide S.Valid, Own, Take, Dispatch, StandardRoutes, IsAnswered;
    w1 := Next(w, Wait(c));
    w2 := Next(w1, Check(c));
    w3 := w2;
    if w2.talk.waiters[c].Matched? {
      w3 := Next(w2, Copy(c));
    }
  }

  // ----- what the server answers

  /** What the server makes of the messages `ds`, from `v`. */
  ghost function ServerAfter(v: Server, ds: seq<Delivery>): (u: Server)
    requires S.Valid(v.store)
    ensures S.Valid(u.store)
  {
    hide S.Valid;
    Serve(v, StandardRoutes(), AllMessages(ds))
  }

  lemma ServerSnoc(v: Server, ds: seq<Delivery>, d: Delivery)
    requires S.Valid(v.store)
    ensures ServerAfter(v, ds + [d]) == Dispatch(ServerAfter(v, ds), StandardRoutes(), AsMessage(d))
  {
    hide S.Valid, Dispatch, StandardRoutes, SizesOk;
    assert SizesOk(StandardRoutes());
    assert AllMessages(ds + [d]) == AllMessages(ds) + [AsMessage(d)];
    Session.ServeConcat(v, StandardRoutes(), AllMessages(ds), [AsMessage(d)]);
    Session.ServeOne(ServerAfter(v, ds), StandardRoutes(), AsMessage(d));
  }

  /** The responses to those among the messages `ds` that are answered, each as computed after the messages before. */
  ghost function RepliesTo(v: Server, ds: seq<Delivery>): seq<(Reply, nat)>
    requires S.Valid(v.store)
  {
    if ds == [] then [] else
      var (init, d, u) := (ds[..|ds| - 1], ds[|ds| - 1], ServerAfter(v, ds));
      RepliesTo(v, init) + (if IsAnswered(d) then [(u.mail.response, u.mail.size)] else [])
  }

  lemma RepliesSnoc(v: Server, ds: seq<Delivery>, d: Delivery)
    requires S.Valid(v.store)
    ensures var u := ServerAfter(v, ds + [d]);
      RepliesTo(v, ds + [d]) == RepliesTo(v, ds) + (if IsAnswered(d) then [(u.mail.response, u.mail.size)] else [])
  {
    hide ServerAfter, IsAnswered, S.Valid;
    assert (ds + [d])[..|ds|] == ds;
  }

  lemma SameFetch(v: Server, u: Server, kind: Kind, payload: seq<byte>, id: uint32)
    requires S.Valid(v.store) && u.store == v.store && BlobsFit(v.store) && |payload| >= HASH_FIELD
    ensures var (x, y) := (HandleFetch(v, kind, payload, id), HandleFetch(u, kind, payload, id));
      && y.store == x.store && y.mail.response == x.mail.response && y.mail.size == x.mail.size
  {
    FetchAlwaysAnswered(v, kind, payload, id);
    hide S.Valid, S.Get, BlobsFit, RequestHash, CacheKey;
  }

  lemma SameStore(v: Server, u: Server, kind: Kind, payload: seq<byte>, id: uint32)
    requires S.Valid(v.store) && u.store == v.store
    ensures var (x, y) := (HandleStore(v, kind, payload, id), HandleStore(u, kind, payload, id));
      && y.store == x.store
      && (kind.Bytecode? && |payload| >= REQUEST_HEADER ==>
            y.mail.response == x.mail.response && y.mail.size == x.mail.size)
  {
    hide S.Valid, S.Put, RequestHash, RequestSize, RequestData, CacheKey;
  }

  /** What is answered does not depend on the responses before. */
  lemma SameReply(v: Server, u: Server, routes: Routes, msg: Message)
    requires S.Valid(v.store) && SizesOk(routes) && u.store == v.store && BlobsFit(v.store)
    ensures var (x, y) := (Dispatch(v, routes, msg), Dispatch(u, routes, msg));
      && y.store == x.store
      && (Posts(routes, msg) ==> y.mail.response == x.mail.response && y.mail.size == x.mail.size)
  {
    var hash := FieldText(msg.routeField);
    hide S.Valid, BlobsFit, FieldText, HandleStore, HandleFetch, RequestHash;
    if hash in routes && |msg.payload| >= routes[hash].minSize {
      match routes[hash].handler
      case AddIrGraph => SameStore(v, u, IrGraph, msg.payload, msg.id);
      case SaveBytecode => SameStore(v, u, Bytecode, msg.payload, msg.id);
      case GetIrGraph => SameFetch(v, u, IrGraph, msg.payload, msg.id);
      case GetBytecode => SameFetch(v, u, Bytecode, msg.payload, msg.id);
      case _ =>
    }
  }

  // ----- the invariant

  /** The response half agrees with the history: its semaphore with the count, and an unread response with the last
      answer the server has computed. */
  ghost predicate MailFits(mail: Mailbox, t: Talk, replies: seq<(Reply, nat)>) {
    && mail.ready == t.ready && |replies| == |t.answered|
    && (t.answered != [] ==> mail.messageId == t.response.currentId)
    && (mail.full ==> replies != [] && replies[|replies| - 1] == (mail.response, mail.size))
    && (|t.answered| > |t.receipts| ==> mail.full)
  }

  /** Every response received is the one computed for the message it was made for. */
  ghost predicate GotFits(got: seq<(Reply, nat)>, t: Talk, replies: seq<(Reply, nat)>) {
    |got| == |t.receipts| && got <= replies
  }

  ghost predicate Linked(w: Whole, v: Server)
    requires S.Valid(v.store)
  {
    var replies := RepliesTo(v, w.talk.system.dispatched);
    && w.server.store == ServerAfter(v, w.talk.system.dispatched).store && BlobsFit(w.server.store)
    && MailFits(w.server.mail, w.talk, replies) && GotFits(w.got, w.talk, replies)
  }

  /** A dispatch as the responses see it: of an answered message. */
  lemma PostFits(mail: Mailbox, t: Talk, replies: seq<(Reply, nat)>, got: seq<(Reply, nat)>, mail': Mailbox, u: Talk)
    requires MailFits(mail, t, replies) && GotFits(got, t, replies)
    requires u.ready == t.ready + 1 && |u.answered| == |t.answered| + 1 && u.receipts == t.receipts
    requires mail'.ready == mail.ready + 1 && mail'.messageId == u.response.currentId && mail'.full
    ensures MailFits(mail', u, replies + [(mail'.response, mail'.size)])
    ensures GotFits(got, u, replies + [(mail'.response, mail'.size)])
  {
  }

  /** Or of one that is not answered, or no dispatch at all. */
  lemma SameFits(mail: Mailbox, t: Talk, replies: seq<(Reply, nat)>, got: seq<(Reply, nat)>, u: Talk)
    requires MailFits(mail, t, replies) && GotFits(got, t, replies)
    requires u.ready == t.ready && u.response == t.response && u.answered == t.answered && u.receipts == t.receipts
    ensures MailFits(mail, u, replies) && GotFits(got, u, replies)
  {
  }

  /** The statements of a wait. */
  lemma WaitFits(mail: Mailbox, t: Talk, replies: seq<(Reply, nat)>, got: seq<(Reply, nat)>, step: TalkStep)
    requires MailFits(mail, t, replies) && GotFits(got, t, replies)
    requires Possible(t, step) && !step.Protocol? && |t.answered| == |t.receipts| + 1
    ensures var u := After(t, step, IsAnswered);
      var left := mail.(ready := if mail.ready > 0 then mail.ready - 1 else 0);
      var taken := mail.(full := false, size := 0);
      match step
      case Wait(_) => MailFits(left, u, replies) && GotFits(got, u, replies)
      case Check(_) => MailFits(mail, u, replies) && GotFits(got, u, replies)
      case Copy(_) => MailFits(taken, u, replies) && GotFits(got + [(mail.response, mail.size)], u, replies)
      case _ => true
  {
    hide Own, IsAnswered;
  }

  /** What a dispatch does to store and responses, beside what the history says. */
  lemma DispatchFacts(w: Whole, v: Server)
    requires S.Valid(v.store) && S.Valid(w.server.store) && Linked(w, v)
    requires Lawful(w.talk.system) && Dispatches(w, Protocol(ServerMove))
    ensures var (ds, d) := (w.talk.system.dispatched, Read(w.talk.system.buffer));
      var u := Dispatch(w.server, StandardRoutes(), AsMessage(d));
      && u.store == ServerAfter(v, ds + [d]).store && BlobsFit(u.store)
      && RepliesTo(v, ds + [d]) == RepliesTo(v, ds) + (if IsAnswered(d) then [(u.mail.response, u.mail.size)] else [])
      && if IsAnswered(d) then u.mail.ready == w.server.mail.ready + 1 && u.mail.messageId == d.currentId && u.mail.full
         else u.mail == w.server.mail
  {
    var (s, d) := (w.talk.system, Read(w.talk.system.buffer));
    ReadFits(s);
    LinkedStore(w, v);
    assert SizesOk(StandardRoutes());
    hide *;
    ServerSnoc(v, s.dispatched, d);
    RepliesSnoc(v, s.dispatched, d);
    AnsweredPosts(d);
    DispatchPosts(w.server, StandardRoutes(), AsMessage(d));
    SameReply(w.server, ServerAfter(v, s.dispatched), StandardRoutes(), AsMessage(d));
    DispatchBlobsFit(w.server, StandardRoutes(), AsMessage(d));
  }

  lemma LinkedStore(w: Whole, v: Server)
    requires S.Valid(v.store) && Linked(w, v)
    ensures w.server.store == ServerAfter(v, w.talk.system.dispatched).store && BlobsFit(w.server.store)
  {
    hide ServerAfter, S.Valid, BlobsFit;
  }

  lemma DispatchLinked(w: Whole, v: Server)
    requires S.Valid(v.store) && S.Valid(w.server.store) && Linked(w, v) && Lawful(w.talk.system)
    requires Dispatches(w, Protocol(ServerMove)) && Possible(w.talk, Protocol(ServerMove))
    ensures Linked(Next(w, Protocol(ServerMove)), v)
  {
    var (t, d) := (w.talk, Read(w.talk.system.buffer));
    var u := Next(w, Protocol(ServerMove));
    var replies := RepliesTo(v, t.system.dispatched);
    NextDispatches(w);
    DispatchFacts(w, v);
    DispatchTalk(t);
    hide After, ServerAfter, RepliesTo, IsAnswered, Dispatch, StandardRoutes, S.Valid, BlobsFit, Read, SizesOk,
         AsMessage,
         Lawful, Next, Dispatches, MailFits, GotFits, Possible;
    if IsAnswered(d) {
      PostFits(w.server.mail, t, replies, w.got, u.server.mail, u.talk);
    } else {
      SameFits(w.server.mail, t, replies, w.got, u.talk);
      assert replies + [] == replies;
    }
  }

  lemma NextDispatches(w: Whole)
    requires S.Valid(w.server.store) && Dispatches(w, Protocol(ServerMove)) && Possible(w.talk, Protocol(ServerMove))
    ensures var u := Next(w, Protocol(ServerMove));
      && u.talk == After(w.talk, Protocol(ServerMove), IsAnswered) && u.got == w.got
      && u.server == Dispatch(w.server, StandardRoutes(), AsMessage(Read(w.talk.system.buffer)))
  {
    hide After, S.Valid, IsAnswered, Dispatch, StandardRoutes, Read;
  }

  lemma CoherentBounds(t: Talk)
    requires Coherent(t, IsAnswered)
    ensures Lawful(t.system) && |t.receipts| <= |t.answered| <= |t.receipts| + 1
  {
    CoherentSound(t, IsAnswered);
    hide Lawful, IsAnswered;
  }

  lemma DispatchTalk(t: Talk)
    requires t.system.server.DispatchMessage? && Possible(t, Protocol(ServerMove))
    ensures var (u, d) := (After(t, Protocol(ServerMove), IsAnswered), Read(t.system.buffer));
      && u.system.dispatched == t.system.dispatched + [d] && u.receipts == t.receipts
      && if IsAnswered(d) then u.ready == t.ready + 1 && u.response == d && u.answered == t.answered + [d]
         else u.ready == t.ready && u.response == t.response && u.answered == t.answered
  {
    hide Read, IsAnswered;
  }

  lemma AnsweredPosts(d: Delivery)
    ensures IsAnswered(d) <==> Posts(StandardRoutes(), AsMessage(d))
    ensures AsMessage(d).id == d.currentId
  {
    hide StandardRoutes, Posts;
  }

  /** What the server reads is no longer than a client may send. */
  lemma ReadFits(s: System)
    requires Lawful(s)
    ensures Sendable(AsMessage(Read(s.buffer)).payload)
  {
  }

  lemma NextWaits(w: Whole, step: TalkStep)
    requires S.Valid(w.server.store) && Possible(w.talk, step) && !step.Protocol?
    ensures var (u, mail) := (Next(w, step), w.server.mail);
      && u.talk == After(w.talk, step, IsAnswered) && u.talk.system == w.talk.system && u.server.store == w.server.store
      && match step
         case Wait(_) => u.server.mail == mail.(ready := if mail.ready > 0 then mail.ready - 1 else 0) && u.got == w.got
         case Check(_) => u.server.mail == mail && u.got == w.got
         case Copy(_) => u.server.mail == mail.(full := false, size := 0)
             && u.got == w.got + [(mail.response, mail.size)]
         case _ => true
  {
    hide S.Valid, IsAnswered, Dispatch, StandardRoutes, Own, Take;
  }

  lemma WaitLinked(w: Whole, v: Server, step: TalkStep)
    requires S.Valid(v.store) && S.Valid(w.server.store) && Linked(w, v)
    requires Coherent(w.talk, IsAnswered) && Courteous(w.talk, step, IsAnswered) && !step.Protocol?
    ensures Linked(Next(w, step), v)
  {
    WaiterOwed(w.talk, step);
    NextWaits(w, step);
    hide Coherent, Courteous, ServerAfter, RepliesTo, IsAnswered, StandardRoutes, S.Valid, BlobsFit, MailFits, GotFits,
         Next, After, Possible;
    WaitFits(w.server.mail, w.talk, RepliesTo(v, w.talk.system.dispatched), w.got, step);
  }

  /** Whoever is at a statement of `wait_for_response` is owed the last answer. */
  lemma WaiterOwed(t: Talk, step: TalkStep)
    requires Coherent(t, IsAnswered) && Courteous(t, step, IsAnswered) && !step.Protocol?
    ensures Possible(t, step) && |t.answered| == |t.receipts| + 1
  {
    var c := match step case Wait(k) => k case Check(k) => k case Copy(k) => k case _ => 0;
    WaiterCalls(t, step, c, IsAnswered);
    hide Coherent, IsAnswered, Own, OthersServed, TransitUnanswered;
  }

  lemma QuietLinked(w: Whole, v: Server, step: Step)
    requires S.Valid(v.store) && S.Valid(w.server.store) && Linked(w, v)
    requires Possible(w.talk, Protocol(step)) && !Dispatches(w, Protocol(step))
    ensures Linked(Next(w, Protocol(step)), v)
  {
    var u := Next(w, Protocol(step));
    KeepsDispatched(w.talk.system, step);
    hide ServerAfter, RepliesTo, IsAnswered, StandardRoutes, S.Valid, BlobsFit, Read, Dispatch, Take, MailFits, GotFits;
    SameFits(w.server.mail, w.talk, RepliesTo(v, w.talk.system.dispatched), w.got, u.talk);
  }

  lemma CourteousPossible(t: Talk, step: TalkStep)
    requires Courteous(t, step, IsAnswered)
    ensures Possible(t, step)
  {
    hide IsAnswered;
  }

  lemma KeepsDispatched(s: System, step: Step)
    requires Enabled(s, step) && !(step.ServerMove? && s.server.DispatchMessage?)
    ensures Take(s, step).dispatched == s.dispatched
  {
    hide TextField, Overwrite, Intended;
  }

  lemma StepLinked(w: Whole, v: Server, step: TalkStep)
    requires S.Valid(v.store) && S.Valid(w.server.store) && Linked(w, v)
    requires Coherent(w.talk, IsAnswered) && Courteous(w.talk, step, IsAnswered) && AnswersGiven(w.talk, IsAnswered)
    ensures Linked(Next(w, step), v) && Coherent(Next(w, step).talk, IsAnswered)
    ensures AnswersGiven(Next(w, step).talk, IsAnswered)
  {
    CourteousPossible(w.talk, step);
    NextTalk(w, step);
    hide Coherent, Linked, S.Valid, Courteous, Next, IsAnswered, After, AnswersGiven;
    StepGiven(w.talk, step, IsAnswered);
    StepCoherent(w.talk, step, IsAnswered);
    if Dispatches(w, step) {
      CoherentBounds(w.talk);
      DispatchLinked(w, v);
    } else if step.Protocol? {
      QuietLinked(w, v, step.step);
    } else {
      WaitLinked(w, v, step);
    }
  }

  lemma NextTalk(w: Whole, step: TalkStep)
    requires Possible(w.talk, step) && S.Valid(w.server.store)
    ensures Next(w, step).talk == After(w.talk, step, IsAnswered)
  {
    hide After, S.Valid, IsAnswered, Dispatch, StandardRoutes;
  }

  lemma {:induction false} LinkedAlways(w: Whole, v: Server, steps: seq<TalkStep>)
    requires S.Valid(v.store) && S.Valid(w.server.store) && Linked(w, v) && Coherent(w.talk, IsAnswered)
    requires AnswersGiven(w.talk, IsAnswered) && CourteousWhole(w, steps)
    ensures var u := WholeRun(w, steps);
      && Linked(u, v) && Coherent(u.talk, IsAnswered) && AnswersGiven(u.talk, IsAnswered)
    decreases |steps|
  {
    hide Coherent, Linked, S.Valid, Courteous, Next, IsAnswered, AnswersGiven;
    if steps != [] {
      CourteousPossible(w.talk, steps[0]);
      NextValid(w, steps[0]);
      StepLinked(w, v, steps[0]);
      LinkedAlways(Next(w, steps[0]), v, steps[1..]);
    }
  }

  /** A new segment beside a cache whose blobs all fit a response. */
  ghost predicate InitialWhole(w: Whole) {
    && InitialTalk(w.talk) && w.got == [] && S.Valid(w.server.store) && BlobsFit(w.server.store)
    && w.server.mail.ready == 0 && !w.server.mail.full
  }

  lemma InitiallyLinked(w: Whole)
    requires InitialWhole(w)
    ensures Linked(w, w.server) && Coherent(w.talk, IsAnswered) && AnswersGiven(w.talk, IsAnswered)
  {
    hide S.Valid, BlobsFit, IsAnswered, StandardRoutes;
    assert AllMessages([]) == [];
    CoherentInitially(w.talk, IsAnswered);
  }

  /** Over every courteous run of the whole system, whatever is in the cache: each response a client receives is the one
      the server computed for that client's own message, after serving the messages before it. */
  lemma OwnReplies(w: Whole, steps: seq<TalkStep>)
    requires InitialWhole(w) && CourteousWhole(w, steps)
    ensures var u := WholeRun(w, steps);
      && Sound(u.talk, IsAnswered)
      && |u.got| == |u.talk.receipts| && u.got <= RepliesTo(w.server, u.talk.system.dispatched)
      && |RepliesTo(w.server, u.talk.system.dispatched)| == |u.talk.answered|
  {
    hide Coherent, S.Valid, CourteousWhole, WholeRun, IsAnswered, RepliesTo, Sound, BlobsFit, InitialTalk, ServerAfter;
    InitiallyLinked(w);
    LinkedAlways(w, w.server, steps);
    CoherentSound(WholeRun(w, steps).talk, IsAnswered);
  }

  lemma FetchIsLast(v: Server, ds: seq<Delivery>, kind: Kind, q: seq<byte>, id: uint32)
    requires S.Valid(v.store) && CacheRoutesDistinct() && |q| >= HASH_FIELD
    requires ds != [] && AsMessage(ds[|ds| - 1]) == FetchMessage(kind, q, id)
    ensures var (replies, mail) := (RepliesTo(v, ds), ServerAfter(v, ds).mail);
      replies != [] && replies[|replies| - 1] == (mail.response, mail.size)
  {
    hide ServerAfter, StandardRoutes, S.Valid, HashRoute, CacheRoutesDistinct, FetchRoute, TextField, Posts;
    FetchIsAnsweredIff(kind, q, id);
  }

  lemma LastOfConcat(ds: seq<Delivery>, msgs: seq<Message>, last: Message)
    requires AllMessages(ds) == msgs + [last]
    ensures ds != [] && AsMessage(ds[|ds| - 1]) == last
  {
    assert AllMessages(ds)[|msgs|] == last;
  }

  /** At rest with everybody served, all answers have been received. */
  lemma AllReceived(u: Whole, v: Server)
    requires S.Valid(v.store) && Linked(u, v) && Coherent(u.talk, IsAnswered)
    requires NothingInTransit(u.talk.system) && AllServed(u.talk, IsAnswered)
    ensures u.talk.system.dispatched == u.talk.system.sent && u.got == RepliesTo(v, u.talk.system.sent)
    ensures OwnOnly(u.talk) && |u.talk.receipts| == |u.talk.answered| == |u.got|
  {
    LawfulDelivers(u.talk.system);
    CoherentSound(u.talk, IsAnswered);
    hide Coherent, S.Valid, RepliesTo, ServerAfter, IsAnswered, BlobsFit, AllServed;
  }

  /** From end to end: over every courteous run of the whole system whose messages are a store, fetched by the last of
      them, as `Session.StoresThenFetches` has it: once nothing is in transit and everybody has taken their answers,
      the response last received is of exactly the bytes stored, and the client that received it is the one that
      fetched. */
  lemma StoredIsReceived(w: Whole, steps: seq<TalkStep>, m: D.Dict, pre: seq<Message>, kind: Kind, p: seq<byte>,
                         id: uint32, mid: seq<Message>, q: seq<byte>, id': uint32)
    requires S.Valid(w.server.store) && InitialWhole(w) && CourteousWhole(w, steps)
    requires var t := WholeRun(w, steps).talk;
      && NothingInTransit(t.system) && AllServed(t, IsAnswered)
      && Session.StoresThenFetches(w.server, m, AllMessages(t.system.sent), pre, kind, p, id, mid, q, id')
    ensures |p| >= REQUEST_HEADER
    ensures var u := WholeRun(w, steps);
      && u.got != [] && |u.talk.receipts| == |u.got|
      && u.got[|u.got| - 1] == (BlobReply(true, RequestData(p)), 136 + |RequestData(p)|)
      && var r := u.talk.receipts[|u.got| - 1]; r.own == r.got && AsMessage(r.own) == FetchMessage(kind, q, id')
  {
    hide *;
    var u := WholeRun(w, steps);
    var (ds, fetch) := (u.talk.system.sent, FetchMessage(kind, q, id'));
    InitiallyLinked(w);
    LinkedAlways(w, w.server, steps);
    AllReceived(u, w.server);
    FetchComesLast(w.server, m, ds, pre, kind, p, id, mid, q, id');
    FetchIsLast(w.server, ds, kind, q, id');
    LastAnswered(u.talk, kind, q, id');
    Session.ServedAsStored(w.server, m, AllMessages(ds), pre, kind, p, id, mid, q, id');
    ServerAfterMeans(w.server, ds);
  }

  lemma FetchComesLast(v: Server, m: D.Dict, ds: seq<Delivery>, pre: seq<Message>, kind: Kind, p: seq<byte>, id: uint32,
                       mid: seq<Message>, q: seq<byte>, id': uint32)
    requires S.Valid(v.store) && Session.StoresThenFetches(v, m, AllMessages(ds), pre, kind, p, id, mid, q, id')
    ensures ds != [] && AsMessage(ds[|ds| - 1]) == FetchMessage(kind, q, id') && |q| >= HASH_FIELD
        && CacheRoutesDistinct()
  {
    hide S.Valid, CacheRoutesDistinct, WellFormed, S.Put, SafeMessages, ExactRuns.InStep, StoreMessage, FetchMessage,
         StandardRoutes, SameName, Serve, AllMessages, AllSpare;
    LastOfConcat(ds, pre + ([StoreMessage(kind, p, id)] + mid), FetchMessage(kind, q, id'));
  }

  lemma ServerAfterMeans(v: Server, ds: seq<Delivery>)
    requires S.Valid(v.store)
    ensures ServerAfter(v, ds) == Serve(v, StandardRoutes(), AllMessages(ds))
  {
    hide S.Valid, Serve, StandardRoutes, AllMessages;
  }

  /** The answer given last is to the fetch. */
  lemma LastAnswered(t: Talk, kind: Kind, q: seq<byte>, id: uint32)
    requires AnswersGiven(t, IsAnswered) && t.system.dispatched == t.system.sent != [] && OwnOnly(t)
    requires |t.receipts| == |t.answered| && CacheRoutesDistinct() && |q| >= HASH_FIELD
    requires AsMessage(t.system.sent[|t.system.sent| - 1]) == FetchMessage(kind, q, id)
    ensures t.receipts != []
    ensures var r := t.receipts[|t.receipts| - 1]; r.own == r.got == t.system.sent[|t.system.sent| - 1]
  {
    hide StandardRoutes, HashRoute, CacheRoutesDistinct, FetchRoute, TextField, Posts;
    FetchIsAnsweredIff(kind, q, id);
  }
}
