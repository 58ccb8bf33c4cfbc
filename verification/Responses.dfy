/** The way back: `send_response` and `wait_for_response` on top of the step system of `Ipc`. There is one response
    buffer, a semaphore counts the responses, and a client recognises its own by an id that every process counts for
    itself. Shown here is exactly when a client may begin a message so that each wait brings the answer to the
    caller's own; `CrossedAnswers` has a run where one does not. */
module Responses {
  import opened Messages
  import opened Ipc
  import opened Discipline

  /** A client as to responses: `Woken` is after `sem_wait(&response_ready)`, `Matched` after the comparison of ids. */
  datatype Waiter = Away | Expecting | Woken | Matched

  /** A successful wait: the client's own message, the message the response was made for, and its number among the
      responses given. */
  datatype Receipt = Receipt(client: nat, own: Delivery, got: Delivery, number: nat)

  /** The system with `response_ready` and the response buffer, which is described by the message it answers, and the
      history of answers and receipts. */
  datatype Talk = Talk(system: System, ready: nat, response: Delivery, waiters: seq<Waiter>,
                       answered: seq<Delivery>, receipts: seq<Receipt>, refused: nat)

  datatype TalkStep =
    | Protocol(step: Step)
    | Wait(client: nat)    // `sem_wait(&response_ready)` succeeds
    | Check(client: nat)   // `response_message_id != expected_message_id`
    | Copy(client: nat)    // the response is copied

  /** The message a client has sent last. Its id is the one the client expects in the response. */
  function Own(p: Client): Delivery {
    Delivery(p.counter, p.counter, TextField(p.route, 0), p.payload)
  }

  /** The message a client has begun last, whether or not it has its id. */
  function Due(p: Client): Delivery {
    if p.pc.WriteId? then Intended(p) else Own(p)
  }

  ghost predicate Possible(t: Talk, step: TalkStep) {
    match step
    case Protocol(p) =>
      Enabled(t.system, p) && (p.Begin? ==> p.client < |t.waiters| && t.waiters[p.client] in {Away, Expecting})
    case Wait(c) =>
      && c < |t.waiters| && c < |t.system.clients| && t.system.clients[c].pc.Idle?
      && t.waiters[c] in {Away, Expecting} && t.ready > 0
    case Check(c) => c < |t.waiters| && c < |t.system.clients| && t.waiters[c].Woken?
    case Copy(c) => c < |t.waiters| && c < |t.system.clients| && t.waiters[c].Matched?
  }

  /** The next step dispatches a message that is answered. `answers` says which are. */
  ghost predicate Answers(t: Talk, step: TalkStep, answers: Delivery -> bool) {
    step.Protocol? && step.step.ServerMove? && t.system.server.DispatchMessage? && answers(Read(t.system.buffer))
  }

  ghost function After(t: Talk, step: TalkStep, answers: Delivery -> bool): Talk
    requires Possible(t, step)
  {
    match step
    case Protocol(p) =>
      var u := t.(system := Take(t.system, p));
      if p.Begin? then u.(waiters := t.waiters[p.client := Expecting])
      else if Answers(t, step, answers) then
        u.(ready := t.ready + 1, response := Read(t.system.buffer), answered := t.answered + [Read(t.system.buffer)])
      else u
    case Wait(c) => t.(ready := t.ready - 1, waiters := t.waiters[c := Woken])
    case Check(c) =>
      if t.response.currentId == t.system.clients[c].counter then t.(waiters := t.waiters[c := Matched])
      else t.(waiters := t.waiters[c := Away], refused := t.refused + 1)
    case Copy(c) =>
      t.(waiters := t.waiters[c := Away],
         receipts := t.receipts + [Receipt(c, Own(t.system.clients[c]), t.response, LatestNumber(t))])
  }

  function LatestNumber(t: Talk): nat {
    if t.answered == [] then 0 else |t.answered| - 1
  }

  ghost predicate CanTalk(t: Talk, steps: seq<TalkStep>, answers: Delivery -> bool)
    decreases |steps|
  {
    steps != [] ==> Possible(t, steps[0]) && CanTalk(After(t, steps[0], answers), steps[1..], answers)
  }

  ghost function TalkRun(t: Talk, steps: seq<TalkStep>, answers: Delivery -> bool): Talk
    requires CanTalk(t, steps, answers)
    decreases |steps|
  {
    if steps == [] then t else TalkRun(After(t, steps[0], answers), steps[1..], answers)
  }

  ghost predicate InitialTalk(t: Talk) {
    && Initial(t.system) && t.ready == 0 && t.answered == [] && t.receipts == [] && t.refused == 0
    && |t.waiters| == |t.system.clients| && forall c :: 0 <= c < |t.waiters| ==> t.waiters[c].Away?
  }

  // ----- call and wait

  /** Client `k` has no response coming that it has not taken. */
  ghost predicate Served(t: Talk, k: nat, answers: Delivery -> bool)
    requires k < |t.waiters| && k < |t.system.clients|
  {
    t.waiters[k].Away? || (t.waiters[k].Expecting? && !answers(Due(t.system.clients[k])))
  }

  /** All clients but `c` are served. */
  ghost predicate OthersServed(t: Talk, c: int, answers: Delivery -> bool) {
    forall k :: 0 <= k < |t.waiters| && k < |t.system.clients| && k != c ==> Served(t, k, answers)
  }

  ghost predicate AllServed(t: Talk, answers: Delivery -> bool) {
    OthersServed(t, -1, answers)
  }

  /** The message a `Begin` is for. */
  function Begins(s: System, step: Step): Delivery
    requires step.Begin? && step.client < |s.clients|
  {
    Intended(s.clients[step.client].(route := step.routeHash, payload := step.payload))
  }

  /** What a client looks at before it begins a message: it has taken the answer to its last one, and if the new one
      will be answered, so have all others. */
  ghost predicate MayCall(t: Talk, step: Step, answers: Delivery -> bool)
    requires step.Begin? && step.client < |t.system.clients| && step.client < |t.waiters|
  {
    && Served(t, step.client, answers)
    && (answers(Begins(t.system, step)) ==> AllServed(t, answers))
  }

  /** Messages are begun only then; the statements of `send_message` are in turn, as `Discipline` asks; and a client
      waits once after each of its messages that is answered, not otherwise. */
  ghost predicate Courteous(t: Talk, step: TalkStep, answers: Delivery -> bool) {
    && Possible(t, step)
    && match step
       case Protocol(p) => InTurn(t.system, p) && (p.Begin? ==> MayCall(t, p, answers))
       case Wait(c) => t.waiters[c].Expecting? && answers(Own(t.system.clients[c]))
       case _ => true
  }

  ghost predicate CourteousRun(t: Talk, steps: seq<TalkStep>, answers: Delivery -> bool)
    ensures CourteousRun(t, steps, answers) ==> CanTalk(t, steps, answers)
    decreases |steps|
  {
    steps != [] ==> Courteous(t, steps[0], answers) && CourteousRun(After(t, steps[0], answers), steps[1..], answers)
  }

  // ----- the invariant of courteous runs

  /** A client inside `send_message` has not yet waited. */
  ghost predicate WaitersFit(t: Talk) {
    && |t.waiters| == |t.system.clients|
    && forall k :: 0 <= k < |t.waiters| && !t.system.clients[k].pc.Idle? ==> t.waiters[k].Expecting?
  }

  /** The answers received are the first ones given, in order, each once and by the client it was made for. */
  ghost predicate OwnOnly(t: Talk) {
    && t.refused == 0 && |t.receipts| <= |t.answered|
    && forall i :: 0 <= i < |t.receipts| ==>
         t.receipts[i].number == i && t.receipts[i].own == t.receipts[i].got == t.answered[i]
  }

  ghost predicate AllTaken(t: Talk) {
    t.ready == 0 && |t.answered| == |t.receipts|
  }

  /** A message sent and not yet dispatched is one that is not answered. */
  ghost predicate TransitUnanswered(s: System, answers: Delivery -> bool) {
    |s.dispatched| < |s.sent| ==> !answers(Last(s))
  }

  /** Client `c` has begun an answered message and the server has not dispatched it. */
  ghost predicate Asking(t: Talk, c: nat, answers: Delivery -> bool)
    requires c < |t.waiters| && c < |t.system.clients|
  {
    var (s, p) := (t.system, t.system.clients[c]);
    && t.waiters[c].Expecting? && AllTaken(t) && answers(Due(p))
    && if p.pc.WriteId? then TransitUnanswered(s, answers) else |s.sent| == |s.dispatched| + 1 && Last(s) == Own(p)
  }

  /** The server has answered the message of client `c`, which has still to take the answer. */
  ghost predicate Replied(t: Talk, c: nat, answers: Delivery -> bool)
    requires c < |t.waiters| && c < |t.system.clients|
  {
    var own := Own(t.system.clients[c]);
    && TransitUnanswered(t.system, answers) && Left(t.system.clients[c].pc) <= 1
    && |t.answered| == |t.receipts| + 1 && t.response == t.answered[|t.receipts|] == own
    && match t.waiters[c]
       case Away => false
       case Expecting => t.ready == 1 && answers(own)
       case _ => t.ready == 0
  }

  ghost predicate Calling(t: Talk, c: nat, answers: Delivery -> bool) {
    && c < |t.waiters| && c < |t.system.clients| && OthersServed(t, c, answers)
    && (Asking(t, c, answers) || Replied(t, c, answers))
  }

  ghost predicate Coherent(t: Talk, answers: Delivery -> bool) {
    && Lawful(t.system) && WaitersFit(t) && OwnOnly(t)
    && ((AllServed(t, answers) && AllTaken(t) && TransitUnanswered(t.system, answers))
        || exists c :: Calling(t, c, answers))
  }

  lemma CoherentInitially(t: Talk, answers: Delivery -> bool)
    requires InitialTalk(t)
    ensures Coherent(t, answers)
  {
    InitialLawful(t.system);
    hide Lawful;
  }

  /** A client that is calling is not served. */
  lemma CallerUnserved(t: Talk, c: nat, answers: Delivery -> bool)
    requires Calling(t, c, answers)
    ensures !Served(t, c, answers)
  {
    hide Own, TransitUnanswered, Intended;
    if Replied(t, c, answers) && t.waiters[c].Expecting? {
      assert Due(t.system.clients[c]) == Own(t.system.clients[c]);
    }
  }

  lemma BeginTalks(t: Talk, step: TalkStep, answers: Delivery -> bool)
    requires Coherent(t, answers) && Courteous(t, step, answers) && step.Protocol? && step.step.Begin?
    ensures Coherent(After(t, step, answers), answers)
  {
    var (s, p, u) := (t.system, step.step, After(t, step, answers));
    StepLawful(s, p);
    BeginChanges(s, p);
    hide Lawful, Take, InTurn, Enabled;
    forall k | 0 <= k < |u.waiters| && Served(t, k, answers) && k != p.client
      ensures Served(u, k, answers)
    {
    }
    if answers(Begins(s, p)) {
      AllServedIdle(t, answers);
      assert Asking(u, p.client, answers);
      assert Calling(u, p.client, answers);
    } else {
      assert Served(u, p.client, answers);
      if c: nat :| Calling(t, c, answers) {
        CallerUnserved(t, c, answers);
        assert Calling(u, c, answers);
      }
    }
  }

  lemma BeginChanges(s: System, p: Step)
    requires Enabled(s, p) && p.Begin?
    ensures var u := Take(s, p);
      && |u.clients| == |s.clients| && u.clients == s.clients[p.client := u.clients[p.client]]
      && u.clients[p.client].pc.WriteId? && Due(u.clients[p.client]) == Begins(s, p)
      && u.sent == s.sent && u.dispatched == s.dispatched
  {
    hide TextField;
  }

  lemma AllServedIdle(t: Talk, answers: Delivery -> bool)
    requires Coherent(t, answers) && AllServed(t, answers)
    ensures AllTaken(t) && TransitUnanswered(t.system, answers)
  {
    hide Lawful, OwnOnly, AllTaken, TransitUnanswered, Asking, Replied, Served;
    if c: nat :| Calling(t, c, answers) {
      CallerUnserved(t, c, answers);
    }
  }

  /** Statements of a client leave alone what it, or anybody, has begun. */
  lemma AdvanceChanges(s: System, c: nat)
    requires c < |s.clients| && !s.clients[c].pc.Idle?
    ensures var u := MoveClient(s, c);
      && |u.clients| == |s.clients| && u.clients == s.clients[c := u.clients[c]]
      && Due(u.clients[c]) == Due(s.clients[c]) && !u.clients[c].pc.WriteId?
      && (Left(s.clients[c].pc) <= 1 ==> Left(u.clients[c].pc) <= 1)
      && u.dispatched == s.dispatched
      && u.sent == s.sent + (if s.clients[c].pc.WriteId? then [Due(s.clients[c])] else [])
  {
    hide TextField, Overwrite;
  }

  /** As long as waiters and begun messages stay the same, so does who is served. */
  lemma SameServed(t: Talk, u: Talk, c: int, answers: Delivery -> bool)
    requires |t.waiters| == |t.system.clients| == |u.system.clients| && u.waiters == t.waiters
    requires forall k :: 0 <= k < |t.waiters| ==> Due(u.system.clients[k]) == Due(t.system.clients[k])
    ensures OthersServed(u, c, answers) <==> OthersServed(t, c, answers)
  {
    hide Due;
    assert forall k :: 0 <= k < |t.waiters| ==> (Served(t, k, answers) <==> Served(u, k, answers));
  }

  lemma AdvanceFits(t: Talk, j: nat)
    requires WaitersFit(t) && OwnOnly(t) && j < |t.system.clients| && !t.system.clients[j].pc.Idle?
    ensures var u := t.(system := MoveClient(t.system, j));
      && WaitersFit(u) && OwnOnly(u) && |u.system.clients| == |t.system.clients|
      && forall k :: 0 <= k < |t.waiters| ==> Due(u.system.clients[k]) == Due(t.system.clients[k])
  {
    AdvanceChanges(t.system, j);
    hide MoveClient, Due;
  }

  lemma AdvanceTalks(t: Talk, step: TalkStep, answers: Delivery -> bool)
    requires Coherent(t, answers) && Courteous(t, step, answers) && step.Protocol? && step.step.Advance?
    ensures Coherent(After(t, step, answers), answers)
  {
    var (s, j, u) := (t.system, step.step.client, After(t, step, answers));
    assert u == t.(system := MoveClient(s, j)) && t.waiters[j].Expecting?;
    hide MoveClient, After, Lawful, Due, Left, OwnOnly;
    StepLawful(s, step.step);
    AdvanceFits(t, j);
    if c: nat :| Calling(t, c, answers) {
      hide OthersServed, WaitersFit;
      SameServed(t, u, c, answers);
      CallerAdvances(t, c, j, answers);
      assert Calling(u, c, answers);
    } else {
      hide WaitersFit;
      SameServed(t, u, -1, answers);
      NoneAdvances(t, j, answers);
    }
  }

  lemma NoneAdvances(t: Talk, j: nat, answers: Delivery -> bool)
    requires AllServed(t, answers) && TransitUnanswered(t.system, answers)
    requires j < |t.waiters| && j < |t.system.clients| && !t.system.clients[j].pc.Idle? && t.waiters[j].Expecting?
    requires t.system.clients[j].pc.WriteId? ==> |t.system.dispatched| == |t.system.sent|
    ensures TransitUnanswered(MoveClient(t.system, j), answers)
  {
    AdvanceChanges(t.system, j);
    hide MoveClient, Due;
    assert Served(t, j, answers);
  }

  lemma CallerAdvances(t: Talk, c: nat, j: nat, answers: Delivery -> bool)
    requires Calling(t, c, answers) && j < |t.system.clients| && !t.system.clients[j].pc.Idle?
    requires j < |t.waiters| && t.waiters[j].Expecting?
    requires t.system.clients[j].pc.WriteId? ==> |t.system.dispatched| == |t.system.sent|
    ensures |MoveClient(t.system, j).clients| == |t.system.clients|
    ensures var u := t.(system := MoveClient(t.system, j)); Asking(u, c, answers) || Replied(u, c, answers)
  {
    assert j != c ==> Served(t, j, answers);
    assert j != c ==> !answers(Due(t.system.clients[j]));
    hide OthersServed, Served, MoveClient, Intended, Own;
    AdvanceChanges(t.system, j);
    if Asking(t, c, answers) {
      AskingAdvances(t, c, j, answers);
    } else {
      hide Asking;
      RepliedAdvances(t, c, j, answers);
    }
  }

  lemma AskingAdvances(t: Talk, c: nat, j: nat, answers: Delivery -> bool)
    requires c < |t.waiters| && c < |t.system.clients| && Asking(t, c, answers)
    requires j < |t.system.clients| && !t.system.clients[j].pc.Idle?
    requires t.system.clients[j].pc.WriteId? ==> |t.system.dispatched| == |t.system.sent|
    requires j != c ==> !answers(Due(t.system.clients[j]))
    ensures |MoveClient(t.system, j).clients| == |t.system.clients|
    ensures Asking(t.(system := MoveClient(t.system, j)), c, answers)
  {
    AdvanceChanges(t.system, j);
    hide MoveClient, Intended, Own;
  }

  lemma RepliedAdvances(t: Talk, c: nat, j: nat, answers: Delivery -> bool)
    requires c < |t.waiters| && c < |t.system.clients| && Replied(t, c, answers)
    requires j < |t.system.clients| && !t.system.clients[j].pc.Idle?
    requires t.system.clients[j].pc.WriteId? ==> |t.system.dispatched| == |t.system.sent|
    requires j != c ==> !answers(Due(t.system.clients[j]))
    ensures |MoveClient(t.system, j).clients| == |t.system.clients|
    ensures Replied(t.(system := MoveClient(t.system, j)), c, answers)
  {
    AdvanceChanges(t.system, j);
    hide MoveClient, Intended, Own;
  }

  lemma ServerTalks(t: Talk, step: TalkStep, answers: Delivery -> bool)
    requires Coherent(t, answers) && Courteous(t, step, answers) && step == Protocol(ServerMove)
    ensures Coherent(After(t, step, answers), answers)
  {
    var (s, u) := (t.system, After(t, step, answers));
    StepLawful(s, ServerMove);
    ServerChanges(s);
    hide Lawful, MoveServer, Due;
    if c: nat :| Calling(t, c, answers) {
      SameServed(t, u, c, answers);
      hide OthersServed;
      CallerServed(t, c, answers);
      assert Calling(u, c, answers);
    } else {
      SameServed(t, u, -1, answers);
    }
  }

  lemma CallerServed(t: Talk, c: nat, answers: Delivery -> bool)
    requires Calling(t, c, answers) && Lawful(t.system) && Enabled(t.system, ServerMove)
    ensures var u := After(t, Protocol(ServerMove), answers);
      c < |u.waiters| && c < |u.system.clients| && (Asking(u, c, answers) || Replied(u, c, answers))
  {
    ServerChanges(t.system);
    DispatchedOutside(t.system, c);
    hide Lawful, MoveServer, OthersServed;
    if Asking(t, c, answers) {
      AskingServed(t, c, answers);
    } else {
      RepliedServed(t, c, answers);
    }
  }

  lemma AskingServed(t: Talk, c: nat, answers: Delivery -> bool)
    requires c < |t.waiters| && c < |t.system.clients| && Asking(t, c, answers) && Enabled(t.system, ServerMove)
    requires var (s, u) := (t.system, MoveServer(t.system));
      && u.clients == s.clients && u.sent == s.sent
      && u.dispatched == (if s.server.DispatchMessage? then s.sent else s.dispatched)
      && (s.server.DispatchMessage? ==>
            |s.dispatched| < |s.sent| && Read(s.buffer) == Last(s) && !Active(s.clients[c].pc))
    ensures var u := After(t, Protocol(ServerMove), answers);
      c < |u.waiters| && c < |u.system.clients| && (Asking(u, c, answers) || Replied(u, c, answers))
  {
    hide MoveServer, Own, Intended, Read;
    assert t.system.clients[c].pc.WriteId? || Due(t.system.clients[c]) == Own(t.system.clients[c]);
  }

  lemma RepliedServed(t: Talk, c: nat, answers: Delivery -> bool)
    requires c < |t.waiters| && c < |t.system.clients| && Replied(t, c, answers) && Enabled(t.system, ServerMove)
    requires var (s, u) := (t.system, MoveServer(t.system));
      && u.clients == s.clients && u.sent == s.sent
      && u.dispatched == (if s.server.DispatchMessage? then s.sent else s.dispatched)
      && (s.server.DispatchMessage? ==> |s.dispatched| < |s.sent| && Read(s.buffer) == Last(s))
    ensures var u := After(t, Protocol(ServerMove), answers);
      c < |u.waiters| && c < |u.system.clients| && Replied(u, c, answers)
  {
    hide MoveServer, Own, Intended, Read;
  }

  lemma DispatchedOutside(s: System, c: nat)
    requires Lawful(s) && c < |s.clients|
    ensures s.server.DispatchMessage? ==> !Active(s.clients[c].pc)
  {
    hide Means, Written, Fitting;
  }

  /** What is dispatched is the message in transit, and it is then dispatched. */
  lemma ServerChanges(s: System)
    requires Lawful(s) && Enabled(s, ServerMove)
    ensures var u := MoveServer(s);
      && u.clients == s.clients && u.sent == s.sent
      && u.dispatched == (if s.server.DispatchMessage? then s.sent else s.dispatched)
      && (s.server.DispatchMessage? ==> |s.dispatched| < |s.sent| && Read(s.buffer) == Last(s))
  {
    hide Means, Fitting, OnlyActive;
    if s.server.DispatchMessage? {
      assert Delivering(s);
      DeliveringMoves(s);
    }
  }

  /** The three statements of `wait_for_response`. */
  lemma WaitTalks(t: Talk, step: TalkStep, answers: Delivery -> bool)
    requires Coherent(t, answers) && Courteous(t, step, answers) && !step.Protocol?
    ensures Coherent(After(t, step, answers), answers)
  {
    hide Lawful, TransitUnanswered;
    var c := match step case Wait(k) => k case Check(k) => k case Copy(k) => k case _ => 0;
    var u := After(t, step, answers);
    WaiterCalls(t, step, c, answers);
    forall k | 0 <= k < |u.waiters| && k != c
      ensures Served(u, k, answers)
    {
      assert Served(t, k, answers);
    }
    if !step.Copy? {
      assert Calling(u, c, answers);
    }
  }

  /** Only the caller waits, and only once it has been answered. */
  lemma WaiterCalls(t: Talk, step: TalkStep, c: nat, answers: Delivery -> bool)
    requires Coherent(t, answers) && Courteous(t, step, answers) && !step.Protocol?
    requires c == match step case Wait(k) => k case Check(k) => k case Copy(k) => k case _ => 0
    ensures Calling(t, c, answers) && Replied(t, c, answers)
  {
    hide Lawful, TransitUnanswered, OwnOnly, Own;
    assert !Served(t, c, answers);
  }

  lemma StepCoherent(t: Talk, step: TalkStep, answers: Delivery -> bool)
    requires Coherent(t, answers) && Courteous(t, step, answers)
    ensures Coherent(After(t, step, answers), answers)
  {
    if !step.Protocol? {
      hide After, Coherent, Courteous;
      WaitTalks(t, step, answers);
    } else {
      assert !IsStop(step.step);
      hide After, Coherent, Courteous;
      match step.step
      case Begin(_, _, _) => BeginTalks(t, step, answers);
      case Advance(_) => AdvanceTalks(t, step, answers);
      case ServerMove => ServerTalks(t, step, answers);
      case _ => assert false;
    }
  }

  lemma {:induction false} CoherentAlways(t: Talk, steps: seq<TalkStep>, answers: Delivery -> bool)
    requires Coherent(t, answers) && CourteousRun(t, steps, answers)
    ensures Coherent(TalkRun(t, steps, answers), answers)
    decreases |steps|
  {
    hide Coherent, After, Possible, Courteous;
    if steps != [] {
      StepCoherent(t, steps[0], answers);
      CoherentAlways(After(t, steps[0], answers), steps[1..], answers);
    }
  }

  /** At most the last answer has not been received, and if nobody has one to come, none. */
  ghost predicate Sound(t: Talk, answers: Delivery -> bool) {
    OwnOnly(t) && |t.answered| <= |t.receipts| + 1 && (AllServed(t, answers) ==> AllTaken(t))
  }

  lemma CoherentSound(t: Talk, answers: Delivery -> bool)
    requires Coherent(t, answers)
    ensures Sound(t, answers)
  {
    if AllServed(t, answers) {
      AllServedIdle(t, answers);
    }
    hide Lawful, OthersServed;
  }

  /** Over every courteous run each wait brings the answer to the caller's own message, no wait is refused, and no
      answer is lost: those received are, in order and each once, those given, but for at most one still to be taken. */
  lemma OwnAnswers(t: Talk, steps: seq<TalkStep>, answers: Delivery -> bool)
    requires InitialTalk(t) && CourteousRun(t, steps, answers)
    ensures Sound(TalkRun(t, steps, answers), answers)
  {
    hide InitialTalk, CourteousRun, TalkRun, CanTalk, Coherent, Sound;
    CoherentInitially(t, answers);
    CoherentAlways(t, steps, answers);
    CoherentSound(TalkRun(t, steps, answers), answers);
  }
}
