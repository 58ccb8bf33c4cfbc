/** Two runs against the server as it is: one client fetching and being answered, and two clients of which one takes
    the other's answer for its own. */
module CrossedAnswers {
  import opened Words
  import opened Messages
  import opened CacheKeys
  import opened ServerSpec
  import opened RouteHash
  import opened Ipc
  import opened IpcRuns
  import opened Discipline
  import opened Completion
  import opened Responses
  import opened CallGuard
  import opened ServerAnswers

  lemma TalkFirst(t: Talk, step: TalkStep, rest: seq<TalkStep>, answers: Delivery -> bool)
    requires Possible(t, step) && CanTalk(After(t, step, answers), rest, answers)
    ensures CanTalk(t, [step] + rest, answers)
    ensures TalkRun(t, [step] + rest, answers) == TalkRun(After(t, step, answers), rest, answers)
  {
    hide After, Possible;
    assert ([step] + rest)[1..] == rest;
  }

  lemma {:induction false} TalkConcat(t: Talk, a: seq<TalkStep>, b: seq<TalkStep>, answers: Delivery -> bool)
    requires CanTalk(t, a, answers) && CanTalk(TalkRun(t, a, answers), b, answers)
    ensures CanTalk(t, a + b, answers)
    ensures TalkRun(t, a + b, answers) == TalkRun(TalkRun(t, a, answers), b, answers)
    decreases |a|
  {
    hide After, Possible;
    if a == [] {
      assert a + b == b;
    } else {
      assert (a + b)[1..] == a[1..] + b;
      TalkConcat(After(t, a[0], answers), a[1..], b, answers);
    }
  }

  lemma {:induction false} CourteousConcat(t: Talk, a: seq<TalkStep>, b: seq<TalkStep>, answers: Delivery -> bool)
    requires CourteousRun(t, a, answers) && CourteousRun(TalkRun(t, a, answers), b, answers)
    ensures CourteousRun(t, a + b, answers)
    decreases |a|
  {
    hide After, Possible, Courteous;
    if a == [] {
      assert a + b == b;
    } else {
      assert (a + b)[1..] == a[1..] + b;
      CourteousConcat(After(t, a[0], answers), a[1..], b, answers);
    }
  }

  lemma TalkNone(t: Talk, answers: Delivery -> bool)
    ensures CanTalk(t, [], answers) && TalkRun(t, [], answers) == t
  {
  }

  // ----- sending a message that is answered before anybody waits

  /** The statements of a round after the first. */
  function RoundRest(c: nat): (r: seq<Step>)
    ensures NoBegin(r) && forall i :: 0 <= i < |r| ==> !IsStop(r[i])
  {
    Repeat(Advance(c), 5) + Repeat(Advance(c), 4) + Repeat(ServerMove, 7)
  }

  function AskSteps(c: nat, route: seq<byte>, payload: seq<byte>): seq<TalkStep> {
    [Protocol(Begin(c, route, payload))] + Lift(RoundRest(c))
  }

  lemma RoundSplit(s: System, c: nat, route: seq<byte>, payload: seq<byte>)
    requires Quiet(s) && s.mutex > 0 && c < |s.clients| && |payload| <= PAYLOAD_ROOM
    ensures Enabled(s, Begin(c, route, payload)) && CanRun(Take(s, Begin(c, route, payload)), RoundRest(c))
    ensures Run(Take(s, Begin(c, route, payload)), RoundRest(c)) == Round(s, c, route, payload)
  {
    hide Round, Repeat;
    OneRound(s, c, route, payload);
    var steps := RoundSteps(c, route, payload);
    assert steps[0] == Begin(c, route, payload) && steps[1..] == RoundRest(c);
  }

  lemma {:induction false} PlainDisciplined(s: System, steps: seq<Step>)
    requires CanRun(s, steps) && NoBegin(steps) && forall i :: 0 <= i < |steps| ==> !IsStop(steps[i])
    ensures Disciplined(s, steps)
    decreases |steps|
  {
    hide Take, Enabled;
    if steps != [] {
      assert !steps[0].Begin? && !IsStop(steps[0]);
      PlainDisciplined(Take(s, steps[0]), steps[1..]);
    }
  }

  lemma RoundInTurn(s: System, c: nat, route: seq<byte>, payload: seq<byte>)
    requires Lawful(s) && Quiet(s) && s.mutex > 0 && c < |s.clients| && |payload| <= PAYLOAD_ROOM
    ensures var u := Take(s, Begin(c, route, payload));
      InTurn(s, Begin(c, route, payload)) && RunInTurn(u, RoundRest(c))
          && Run(u, RoundRest(c)) == Round(s, c, route, payload)
    ensures Lawful(Round(s, c, route, payload))
  {
    var begin := Begin(c, route, payload);
    RoundSplit(s, c, route, payload);
    StepLawful(s, begin);
    BeginAlone(s, begin);
    hide Lawful, Alone, Take, Round, RoundRest;
    PlainDisciplined(Take(s, begin), RoundRest(c));
    DisciplinedInTurn(Take(s, begin), RoundRest(c));
    LawfulAlways(Take(s, begin), RoundRest(c));
  }

  /** A state to ask from: everything sent has been dispatched and the server waits. */
  ghost predicate Ready(t: Talk, c: nat, answers: Delivery -> bool) {
    && Lawful(t.system) && Quiet(t.system) && AnswersGiven(t, answers) && t.system.mutex > 0
    && c < |t.system.clients| == |t.waiters| && t.waiters[c] in {Away, Expecting}
  }

  ghost function Asked(t: Talk, c: nat, route: seq<byte>, payload: seq<byte>): Talk
    requires c < |t.system.clients| && c < |t.waiters| && t.system.mutex > 0
  {
    var id := NextId(t.system.clients[c].counter);
    var d := Delivery(id, id, TextField(route, 0), payload);
    t.(system := Round(t.system, c, route, payload), ready := t.ready + 1, response := d,
       waiters := t.waiters[c := Expecting], answered := t.answered + [d])
  }

  lemma Ask(t: Talk, c: nat, route: seq<byte>, payload: seq<byte>, answers: Delivery -> bool)
    requires Ready(t, c, answers) && |payload| <= PAYLOAD_ROOM
    requires var id := NextId(t.system.clients[c].counter); answers(Delivery(id, id, TextField(route, 0), payload))
    ensures CanTalk(t, AskSteps(c, route, payload), answers)
    ensures TalkRun(t, AskSteps(c, route, payload), answers) == Asked(t, c, route, payload)
    ensures AnswersGiven(Asked(t, c, route, payload), answers) && Lawful(Round(t.system, c, route, payload))
    ensures MayCall(t, Begin(c, route, payload), answers) ==> CourteousRun(t, AskSteps(c, route, payload), answers)
  {
    hide TextField, AnsweredOf, CanTalk, TalkRun, CanRun, Run, RoundRest, Fitting;
    var (begin, id) := (Begin(c, route, payload), NextId(t.system.clients[c].counter));
    var d := Delivery(id, id, TextField(route, 0), payload);
    var t1 := After(t, Protocol(begin), answers);
    RoundInTurn(t.system, c, route, payload);
    LiftRun(t1, RoundRest(c), answers);
    BufferFits(t.system);
    RoundFacts(t.system, c, route, payload);
    AnsweredSnoc(t.system.dispatched, d, answers);
    StepGiven(t, Protocol(begin), answers);
    GivenAlways(t1, Lift(RoundRest(c)), answers);
    hide Round, Lawful, MayCall, Quiet;
    TalkFirst(t, Protocol(begin), Lift(RoundRest(c)), answers);
    if MayCall(t, begin, answers) {
      BeginIsCourteous(t, begin, answers);
      hide After, Possible, Courteous;
      assert AskSteps(c, route, payload)[1..] == Lift(RoundRest(c));
    }
  }

  lemma BufferFits(s: System)
    requires Lawful(s)
    ensures |s.buffer.payload| == PAYLOAD_ROOM
  {
  }

  // ----- waiting

  function ListenSteps(c: nat): seq<TalkStep> {
    [Wait(c)] + ([Check(c)] + ([Copy(c)] + []))
  }

  lemma Listen(t: Talk, c: nat, answers: Delivery -> bool)
    requires c < |t.system.clients| == |t.waiters| && t.system.clients[c].pc.Idle? && t.waiters[c].Expecting?
        && t.ready > 0
    requires t.response.currentId == t.system.clients[c].counter
    ensures CanTalk(t, ListenSteps(c), answers)
    ensures TalkRun(t, ListenSteps(c), answers)
         == t.(ready := t.ready - 1, waiters := t.waiters[c := Away],
               receipts := t.receipts + [Receipt(c, Own(t.system.clients[c]), t.response, LatestNumber(t))])
    ensures answers(Own(t.system.clients[c])) ==> CourteousRun(t, ListenSteps(c), answers)
  {
    hide Own;
    var t1 := After(t, Wait(c), answers);
    var t2 := After(t1, Check(c), answers);
    var t3 := After(t2, Copy(c), answers);
    assert t3.waiters == t.waiters[c := Away];
    TalkNone(t3, answers);
    assert CourteousRun(t3, [], answers);
    hide After, CanTalk, TalkRun, CourteousRun;
    CourteousFirst(t2, Copy(c), [], answers);
    CourteousFirst(t1, Check(c), [Copy(c)] + [], answers);
    if answers(Own(t.system.clients[c])) {
      CourteousFirst(t, Wait(c), [Check(c)] + ([Copy(c)] + []), answers);
    }
    TalkFirst(t2, Copy(c), [], answers);
    TalkFirst(t1, Check(c), [Copy(c)] + [], answers);
    TalkFirst(t, Wait(c), [Check(c)] + ([Copy(c)] + []), answers);
  }

  lemma CourteousFirst(t: Talk, step: TalkStep, rest: seq<TalkStep>, answers: Delivery -> bool)
    requires Courteous(t, step, answers) && CourteousRun(After(t, step, answers), rest, answers)
    ensures CourteousRun(t, [step] + rest, answers)
  {
    hide After, Possible;
    assert ([step] + rest)[1..] == rest;
  }

  // ----- asked and answered

  /** Client `c` has sent a message and been answered; it has not waited. */
  ghost predicate Called(t: Talk, u: Talk, c: nat, payload: seq<byte>, answers: Delivery -> bool)
    requires c < |t.system.clients| == |t.waiters|
  {
    && |u.waiters| == |u.system.clients| == |t.waiters|
    && OthersSame(t, u, c) && JustAnswered(t, u, u.response)
    && Lawful(u.system) && Quiet(u.system) && AnswersGiven(u, answers) && u.system.mutex > 0
    && u.system.clients[c].pc.Idle? && u.waiters[c].Expecting?
    && u.response == Own(u.system.clients[c]) && answers(u.response) && u.response.payload == payload
    && u.response.currentId == u.system.clients[c].counter == NextId(t.system.clients[c].counter)
  }

  ghost predicate OthersSame(t: Talk, u: Talk, c: nat)
    requires |u.waiters| == |u.system.clients| == |t.waiters| == |t.system.clients|
  {
    forall k :: 0 <= k < |t.waiters| && k != c ==>
      u.system.clients[k] == t.system.clients[k] && u.waiters[k] == t.waiters[k]
  }

  ghost predicate JustAnswered(t: Talk, u: Talk, d: Delivery) {
    && u.ready == t.ready + 1 && u.receipts == t.receipts && u.refused == t.refused && u.answered == t.answered + [d]
    && u.system.sent == t.system.sent + [d] && u.system.dispatched == t.system.dispatched + [d]
  }

  lemma Call(t: Talk, c: nat, route: seq<byte>, payload: seq<byte>, answers: Delivery -> bool)
    requires Ready(t, c, answers) && |payload| <= PAYLOAD_ROOM
    requires var id := NextId(t.system.clients[c].counter); answers(Delivery(id, id, TextField(route, 0), payload))
    ensures CanTalk(t, AskSteps(c, route, payload), answers)
    ensures Called(t, TalkRun(t, AskSteps(c, route, payload), answers), c, payload, answers)
    ensures MayCall(t, Begin(c, route, payload), answers) ==> CourteousRun(t, AskSteps(c, route, payload), answers)
  {
    hide TextField, AskSteps, CanTalk, TalkRun, CourteousRun, MayCall, AnswersGiven, Fitting, NextId;
    Ask(t, c, route, payload, answers);
    BufferFits(t.system);
    RoundFacts(t.system, c, route, payload);
    hide Round, Lawful, Quiet;
    var u := Asked(t, c, route, payload);
    assert OthersSame(t, u, c) && JustAnswered(t, u, u.response);
    hide OthersSame, JustAnswered;
    assert Called(t, u, c, payload, answers);
  }

  lemma ReadyInitially(t: Talk, c: nat, answers: Delivery -> bool)
    requires InitialTalk(t) && c < |t.waiters|
    ensures Ready(t, c, answers)
    ensures t.answered == t.system.sent == t.system.dispatched == [] && t.receipts == []
        && |t.waiters| == |t.system.clients|
    ensures forall k :: 0 <= k < |t.waiters| ==> t.waiters[k].Away?
  {
    InitialLawful(t.system);
    hide Lawful;
  }

  lemma MayCallFirst(t: Talk, begin: Step, answers: Delivery -> bool)
    requires |t.waiters| == |t.system.clients| && forall k :: 0 <= k < |t.waiters| ==> t.waiters[k].Away?
    requires begin.Begin? && begin.client < |t.waiters|
    ensures MayCall(t, begin, answers)
  {
    hide Due;
  }

  lemma CalledThenListen(t: Talk, u: Talk, c: nat, payload: seq<byte>, answers: Delivery -> bool)
    requires c < |t.system.clients| == |t.waiters| && Called(t, u, c, payload, answers)
    requires t.answered == t.system.sent == [] && t.receipts == []
    ensures CourteousRun(u, ListenSteps(c), answers)
    ensures var w := TalkRun(u, ListenSteps(c), answers);
      |w.system.sent| == 1 && w.receipts == [Receipt(c, w.system.sent[0], w.system.sent[0], 0)]
  {
    hide Own, Quiet, Lawful, CourteousRun, CanTalk, TalkRun, ListenSteps, AnswersGiven, NextId;
    Listen(u, c, answers);
  }

  lemma SecondReady(t: Talk, t1: Talk, payload: seq<byte>, answers: Delivery -> bool)
    requires 1 < |t.waiters| == |t.system.clients| && t.waiters[1].Away? && Called(t, t1, 0, payload, answers)
    ensures Ready(t1, 1, answers) && |t1.waiters| == |t1.system.clients| == |t.waiters|
  {
    hide Lawful, Quiet, AnswersGiven, Own, NextId;
  }

  lemma BothCalled(t: Talk, t1: Talk, t2: Talk, payload: seq<byte>, payload': seq<byte>, answers: Delivery -> bool)
    requires 1 < |t.waiters| == |t.system.clients| && t.system.clients[0].counter == t.system.clients[1].counter
    requires t.answered == t.system.sent == t.system.dispatched == [] && t.receipts == []
    requires Called(t, t1, 0, payload, answers) && Called(t1, t2, 1, payload', answers)
    ensures CanTalk(t2, ListenSteps(0), answers)
    ensures var u := TalkRun(t2, ListenSteps(0), answers);
      && u.system.dispatched == u.system.sent == u.answered && |u.answered| == 2
      && u.receipts == [Receipt(0, u.answered[0], u.answered[1], 1)]
      && u.answered[0].payload == payload && u.answered[1].payload == payload'
  {
    hide Lawful, Quiet, AnswersGiven, Own, CanTalk, TalkRun, CourteousRun, ListenSteps, NextId;
    Listen(t2, 0, answers);
    OwnStays(t1.system.clients[0], t2.system.clients[0]);
  }

  lemma OwnStays(p: Client, q: Client)
    requires p == q
    ensures Own(p) == Own(q)
  {
  }

  // ----- with the routes of the server

  lemma FetchFits(hash: seq<byte>)
    ensures |FetchRequest(hash, 0)| == 256 <= PAYLOAD_ROOM
  {
    hide TextField;
  }

  /** Call and wait can be followed: a fetch, the turn of the server and the wait make a courteous run, which brings
      the client the answer to it. */
  lemma OneCall(t: Talk, c: nat, kind: Kind, hash: seq<byte>) returns (steps: seq<TalkStep>)
    requires CacheRoutesDistinct() && InitialTalk(t) && c < |t.waiters|
    ensures CourteousRun(t, steps, IsAnswered)
    ensures var u := TalkRun(t, steps, IsAnswered);
      |u.system.sent| == 1 && u.receipts == [Receipt(c, u.system.sent[0], u.system.sent[0], 0)]
  {
    hide *;
    var (route, payload) := (HashRoute(FetchRoute(kind)), FetchRequest(hash, 0));
    var (ask, listen) := (AskSteps(c, route, payload), ListenSteps(c));
    FetchFits(hash);
    ReadyInitially(t, c, IsAnswered);
    FetchIsAnsweredIff(kind, payload, NextId(t.system.clients[c].counter));
    Call(t, c, route, payload, IsAnswered);
    MayCallFirst(t, Begin(c, route, payload), IsAnswered);
    CalledThenListen(t, TalkRun(t, ask, IsAnswered), c, payload, IsAnswered);
    TalkConcat(t, ask, listen, IsAnswered);
    CourteousConcat(t, ask, listen, IsAnswered);
    steps := ask + listen;
  }

  /** Two processes whose counters agree, as they do from the start, fetch under different hashes. Every message is
      dispatched exactly and answered, and then the first client takes the answer to the other's fetch for its own.
      Its own answer is gone. */
  lemma AnothersAnswer(t: Talk, kind: Kind, hash: seq<byte>, hash': seq<byte>) returns (steps: seq<TalkStep>)
    requires CacheRoutesDistinct() && InitialTalk(t) && 1 < |t.waiters| == |t.system.clients|
    requires t.system.clients[0].counter == t.system.clients[1].counter
    requires 0 !in hash && 0 !in hash' && |hash| < 255 && |hash'| < 255 && hash != hash'
    ensures CanTalk(t, steps, IsAnswered)
    ensures var u := TalkRun(t, steps, IsAnswered);
      && u.system.dispatched == u.system.sent == u.answered && |u.answered| == 2
      && u.receipts == [Receipt(0, u.answered[0], u.answered[1], 1)]
      && u.answered[0].payload == FetchRequest(hash, 0) && u.answered[1].payload == FetchRequest(hash', 0)
    ensures |FetchRequest(hash, 0)| == |FetchRequest(hash', 0)| == 256
    ensures RequestHash(FetchRequest(hash, 0)) == hash && RequestHash(FetchRequest(hash', 0)) == hash'
  {
    hide *;
    FetchRequestRoundTrip(hash, 0);
    FetchRequestRoundTrip(hash', 0);
    var (route, payload, payload') := (HashRoute(FetchRoute(kind)), FetchRequest(hash, 0), FetchRequest(hash', 0));
    var (ask, ask', listen) := (AskSteps(0, route, payload), AskSteps(1, route, payload'), ListenSteps(0));
    FetchFits(hash);
    FetchFits(hash');
    ReadyInitially(t, 0, IsAnswered);
    FetchIsAnsweredIff(kind, payload, NextId(t.system.clients[0].counter));
    Call(t, 0, route, payload, IsAnswered);
    var t1 := TalkRun(t, ask, IsAnswered);
    SecondReady(t, t1, payload, IsAnswered);
    FetchIsAnsweredIff(kind, payload', NextId(t1.system.clients[1].counter));
    Call(t1, 1, route, payload', IsAnswered);
    var t2 := TalkRun(t1, ask', IsAnswered);
    BothCalled(t, t1, t2, payload, payload', IsAnswered);
    TalkConcat(t1, ask', listen, IsAnswered);
    TalkConcat(t, ask, ask' + listen, IsAnswered);
    steps := ask + (ask' + listen);
  }
}
