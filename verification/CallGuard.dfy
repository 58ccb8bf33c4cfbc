/** The condition under which `Responses` lets a client begin a message is exact: begun otherwise, the message has a
    continuation, itself well-behaved and without further messages, after which an answer can no longer reach its
    caller. */
module CallGuard {
  import opened Messages
  import opened Ipc
  import opened IpcRuns
  import opened Discipline
  import opened Completion
  import opened Responses

  // ----- counting answers

  /** The messages among `ds` that are answered. */
  ghost function AnsweredOf(ds: seq<Delivery>, answers: Delivery -> bool): seq<Delivery> {
    if ds == [] then [] else
      var (init, d) := (ds[..|ds| - 1], ds[|ds| - 1]);
      AnsweredOf(init, answers) + (if answers(d) then [d] else [])
  }

  lemma AnsweredSnoc(ds: seq<Delivery>, d: Delivery, answers: Delivery -> bool)
    ensures AnsweredOf(ds + [d], answers) == AnsweredOf(ds, answers) + (if answers(d) then [d] else [])
  {
    assert (ds + [d])[..|ds|] == ds;
  }

  /** Clients among the first `n` that are about to take the id of a message that will be answered. */
  ghost function AtId(clients: seq<Client>, answers: Delivery -> bool, n: nat): nat
    requires n <= |clients|
  {
    if n == 0 then 0 else AtId(clients, answers, n - 1) + (if WillAnswer(clients[n - 1], answers) then 1 else 0)
  }

  ghost predicate WillAnswer(p: Client, answers: Delivery -> bool) {
    p.pc.WriteId? && answers(Due(p))
  }

  lemma {:induction false} AtIdUpdate(clients: seq<Client>, answers: Delivery -> bool, c: nat, p: Client, n: nat)
    requires c < |clients| && n <= |clients|
    ensures AtId(clients[c := p], answers, n) - AtId(clients, answers, n)
         == if c >= n then 0
            else (if WillAnswer(p, answers) then 1 else 0) - (if WillAnswer(clients[c], answers) then 1 else 0)
    decreases n
  {
    hide WillAnswer;
    if n > 0 {
      AtIdUpdate(clients, answers, c, p, n - 1);
    }
  }

  lemma {:induction false} AtIdNone(clients: seq<Client>, answers: Delivery -> bool, n: nat)
    requires n <= |clients| && AllIdle(clients)
    ensures AtId(clients, answers, n) == 0
  {
    if n > 0 {
      AtIdNone(clients, answers, n - 1);
    }
  }

  lemma {:induction false} AtIdSome(clients: seq<Client>, answers: Delivery -> bool, c: nat, n: nat)
    requires c < n <= |clients| && WillAnswer(clients[c], answers)
    ensures AtId(clients, answers, n) >= 1
    decreases n
  {
    hide WillAnswer;
    if c < n - 1 {
      AtIdSome(clients, answers, c, n - 1);
    }
  }

  /** The answers the server will have given once everything begun is dispatched. */
  ghost function Expected(s: System, answers: Delivery -> bool): nat {
    |AnsweredOf(s.sent, answers)| + AtId(s.clients, answers, |s.clients|)
  }

  lemma ExpectedAdvance(s: System, c: nat, answers: Delivery -> bool)
    requires c < |s.clients| && !s.clients[c].pc.Idle?
    ensures var t := MoveClient(s, c);
      && Expected(t, answers) == Expected(s, answers) && |t.clients| == |s.clients|
      && forall k :: 0 <= k < |s.clients| ==> Due(t.clients[k]) == Due(s.clients[k])
  {
    var t := MoveClient(s, c);
    AdvanceChanges(s, c);
    AtIdUpdate(s.clients, answers, c, t.clients[c], |s.clients|);
    AnsweredSnoc(s.sent, Due(s.clients[c]), answers);
    hide MoveClient, AnsweredOf, AtId, Due;
    assert s.sent + [] == s.sent;
  }

  lemma ExpectedStep(s: System, step: Step, answers: Delivery -> bool)
    requires Enabled(s, step) && !step.Begin?
    ensures var t := Take(s, step);
      && Expected(t, answers) == Expected(s, answers) && |t.clients| == |s.clients|
      && forall k :: 0 <= k < |s.clients| ==> Due(t.clients[k]) == Due(s.clients[k])
  {
    match step
    case Advance(c) => hide MoveClient, Expected, Due; ExpectedAdvance(s, c, answers);
    case ServerMove => hide AnsweredOf, AtId, Due, Read, MoveClient;
    case _ => hide AnsweredOf, AtId, Due, MoveServer, MoveClient;
  }

  lemma {:induction false} ExpectedStays(s: System, steps: seq<Step>, answers: Delivery -> bool)
    requires CanRun(s, steps) && NoBegin(steps)
    ensures var t := Run(s, steps);
      && Expected(t, answers) == Expected(s, answers) && |t.clients| == |s.clients|
      && forall k :: 0 <= k < |s.clients| ==> Due(t.clients[k]) == Due(s.clients[k])
    decreases |steps|
  {
    hide Take, Enabled, Expected, Due;
    if steps != [] {
      assert !steps[0].Begin?;
      ExpectedStep(s, steps[0], answers);
      ExpectedStays(Take(s, steps[0]), steps[1..], answers);
    }
  }

  lemma ExpectedBegin(s: System, step: Step, answers: Delivery -> bool)
    requires Enabled(s, step) && step.Begin?
    ensures Expected(Take(s, step), answers) == Expected(s, answers) + (if answers(Begins(s, step)) then 1 else 0)
  {
    BeginChanges(s, step);
    var t := Take(s, step);
    AtIdUpdate(s.clients, answers, step.client, t.clients[step.client], |s.clients|);
    hide AnsweredOf, AtId, Due, Begins;
  }

  /** The answers given are those to what has been dispatched. */
  ghost predicate AnswersGiven(t: Talk, answers: Delivery -> bool) {
    t.answered == AnsweredOf(t.system.dispatched, answers)
  }

  lemma StepGiven(t: Talk, step: TalkStep, answers: Delivery -> bool)
    requires AnswersGiven(t, answers) && Possible(t, step)
    ensures AnswersGiven(After(t, step, answers), answers)
  {
    hide AnsweredOf, TextField, Overwrite, Read, Intended;
    AnsweredSnoc(t.system.dispatched, Read(t.system.buffer), answers);
  }

  lemma {:induction false} GivenAlways(t: Talk, steps: seq<TalkStep>, answers: Delivery -> bool)
    requires AnswersGiven(t, answers) && CanTalk(t, steps, answers)
    ensures AnswersGiven(TalkRun(t, steps, answers), answers)
    decreases |steps|
  {
    hide AnswersGiven, After, Possible;
    if steps != [] {
      StepGiven(t, steps[0], answers);
      GivenAlways(After(t, steps[0], answers), steps[1..], answers);
    }
  }

  // ----- steps of the protocol alone

  function Lift(steps: seq<Step>): (r: seq<TalkStep>)
    ensures |r| == |steps|
  {
    seq(|steps|, i requires 0 <= i < |steps| => Protocol(steps[i]))
  }

  /** What changes when neither a message is begun nor a response received. */
  ghost predicate OnlyAnswers(t: Talk, u: Talk) {
    && u.waiters == t.waiters && u.receipts == t.receipts && u.refused == t.refused
    && |u.answered| >= |t.answered| && u.ready == t.ready + |u.answered| - |t.answered|
    && (if |u.answered| > |t.answered| then u.response == u.answered[|u.answered| - 1]
        else u.response == t.response && u.answered == t.answered)
  }

  lemma ProtocolStep(t: Talk, step: Step, answers: Delivery -> bool)
    requires InTurn(t.system, step) && !step.Begin?
    ensures Possible(t, Protocol(step)) && Courteous(t, Protocol(step), answers)
    ensures var u := After(t, Protocol(step), answers); u.system == Take(t.system, step) && OnlyAnswers(t, u)
  {
    hide Take, Read;
  }

  lemma OnlyTransitive(t: Talk, u: Talk, v: Talk)
    requires OnlyAnswers(t, u) && OnlyAnswers(u, v)
    ensures OnlyAnswers(t, v)
  {
  }

  lemma {:induction false} LiftRun(t: Talk, steps: seq<Step>, answers: Delivery -> bool)
    requires RunInTurn(t.system, steps) && NoBegin(steps)
    ensures CourteousRun(t, Lift(steps), answers)
    ensures var u := TalkRun(t, Lift(steps), answers); u.system == Run(t.system, steps) && OnlyAnswers(t, u)
    decreases |steps|
  {
    hide Take, Enabled, After, Possible, Courteous, InTurn;
    if steps != [] {
      assert !steps[0].Begin?;
      ProtocolStep(t, steps[0], answers);
      assert Lift(steps)[1..] == Lift(steps[1..]);
      var u := After(t, Protocol(steps[0]), answers);
      LiftRun(u, steps[1..], answers);
      hide OnlyAnswers;
      OnlyTransitive(t, u, TalkRun(u, Lift(steps[1..]), answers));
    }
  }

  // ----- the other half

  /** Nothing but statements in progress: no message is begun. */
  predicate NoCalls(steps: seq<TalkStep>) {
    forall i :: 0 <= i < |steps| ==> !(steps[i].Protocol? && steps[i].step.Begin?)
  }

  lemma LiftNoCalls(steps: seq<Step>)
    requires NoBegin(steps)
    ensures NoCalls(Lift(steps))
  {
  }

  /** While a client has an answer to come, more answers are given or under way than received. */
  lemma CallerCounts(t: Talk, c: nat, answers: Delivery -> bool)
    requires Calling(t, c, answers) && AnswersGiven(t, answers) && Lawful(t.system) && OwnOnly(t)
    ensures Expected(t.system, answers) >= |t.receipts| + 1
  {
    var s := t.system;
    LawfulDelivers(s);
    hide Lawful, OthersServed, OwnOnly;
    if s.dispatched != s.sent {
      AnsweredSnoc(s.dispatched, Last(s), answers);
      assert s.dispatched + [Last(s)] == s.sent;
    }
    hide AnsweredOf, Intended;
    if Asking(t, c, answers) && s.clients[c].pc.WriteId? {
      AtIdSome(s.clients, answers, c, |s.clients|);
    }
  }

  lemma QuietCount(t: Talk, answers: Delivery -> bool)
    requires Lawful(t.system) && Quiet(t.system) && AnswersGiven(t, answers)
    ensures |t.answered| == Expected(t.system, answers)
  {
    LawfulDelivers(t.system);
    hide Lawful, AnsweredOf;
    AtIdNone(t.system.clients, answers, |t.system.clients|);
  }

  /** A message begun out of turn: what everything in progress then comes to. */
  lemma OutOfTurnCall(t: Talk, begin: Step, answers: Delivery -> bool) returns (rest: seq<TalkStep>)
    requires Coherent(t, answers) && AnswersGiven(t, answers)
    requires Possible(t, Protocol(begin)) && begin.Begin? && !MayCall(t, begin, answers)
    ensures NoCalls(rest) && CourteousRun(After(t, Protocol(begin), answers), rest, answers)
    ensures var u := TalkRun(After(t, Protocol(begin), answers), rest, answers);
      && Quiet(u.system)
      && (|u.answered| >= |u.receipts| + 2 || (AllServed(u, answers) && |u.answered| > |u.receipts|))
  {
    var t1 := After(t, Protocol(begin), answers);
    assert t1.system == Take(t.system, begin) && t1.receipts == t.receipts;
    var c := UnservedCalls(t, answers, begin);
    StepLawful(t.system, begin);
    CallerCounts(t, c, answers);
    ExpectedBegin(t.system, begin, answers);
    StepGiven(t, Protocol(begin), answers);
    ServedAfterwards(t, begin, c, answers);
    hide Coherent, Lawful, After, MayCall, AnswersGiven, Expected, Take, Enabled, Calling, Quiet, OthersServed,
         Possible;
    var steps := Complete(t1.system);
    rest := Lift(steps);
    LiftNoCalls(steps);
    LiftRun(t1, steps, answers);
    GivenAlways(t1, rest, answers);
    ExpectedStays(t1.system, steps, answers);
    var u := TalkRun(t1, rest, answers);
    QuietCount(u, answers);
    if !answers(Begins(t.system, begin)) {
      hide CanTalk, TalkRun, CourteousRun;
      SameServed(t1, u, -1, answers);
    }
  }

  lemma UnservedCalls(t: Talk, answers: Delivery -> bool, begin: Step) returns (c: nat)
    requires Coherent(t, answers) && Possible(t, Protocol(begin)) && begin.Begin? && !MayCall(t, begin, answers)
    ensures Calling(t, c, answers)
  {
    hide Lawful, Calling;
    c :| Calling(t, c, answers);
  }

  /** An unanswered message begun by a client that had an answer to come leaves everybody served. */
  lemma ServedAfterwards(t: Talk, begin: Step, c: nat, answers: Delivery -> bool)
    requires Coherent(t, answers) && Calling(t, c, answers)
    requires Possible(t, Protocol(begin)) && begin.Begin? && !MayCall(t, begin, answers)
    ensures var u := After(t, Protocol(begin), answers);
      && |u.waiters| == |u.system.clients|
      && (!answers(Begins(t.system, begin)) ==> AllServed(u, answers))
  {
    hide Lawful, Asking, Replied, Begins, Due;
    BeginChanges(t.system, begin);
    var u := After(t, Protocol(begin), answers);
    hide Take;
    if !answers(Begins(t.system, begin)) {
      assert begin.client == c;
      forall k | 0 <= k < |u.waiters|
        ensures Served(u, k, answers)
      {
        assert k != c ==> Served(t, k, answers);
      }
    }
  }

  /** The exact condition on beginning a message. At the end of any courteous run, a client may begin one if and only
      if, however the steps then in progress and the waits are carried on, each answer given is received by its own
      caller, once and in order, or is the last one and still to be taken by it. */
  lemma MayCallIff(t: Talk, pre: seq<TalkStep>, begin: Step, answers: Delivery -> bool)
    requires InitialTalk(t) && CourteousRun(t, pre, answers)
    requires begin.Begin? && Possible(TalkRun(t, pre, answers), Protocol(begin))
    ensures var u := After(TalkRun(t, pre, answers), Protocol(begin), answers);
      MayCall(TalkRun(t, pre, answers), begin, answers)
      <==> forall rest :: CourteousRun(u, rest, answers) && NoCalls(rest) ==> Sound(TalkRun(u, rest, answers), answers)
  {
    var t0 := TalkRun(t, pre, answers);
    var u := After(t0, Protocol(begin), answers);
    CoherentInitially(t, answers);
    CoherentAlways(t, pre, answers);
    assert AnswersGiven(t, answers);
    GivenAlways(t, pre, answers);
    hide Coherent, AnswersGiven, InitialTalk, After, TalkRun, CanTalk, CourteousRun, Sound, MayCall, NoCalls;
    if MayCall(t0, begin, answers) {
      BeginIsCourteous(t0, begin, answers);
      StepCoherent(t0, Protocol(begin), answers);
      forall rest | CourteousRun(u, rest, answers) && NoCalls(rest)
        ensures Sound(TalkRun(u, rest, answers), answers)
      {
        CoherentAlways(u, rest, answers);
        CoherentSound(TalkRun(u, rest, answers), answers);
      }
    } else {
      var rest := OutOfTurnCall(t0, begin, answers);
      NotSound(TalkRun(u, rest, answers), answers);
    }
  }

  lemma BeginIsCourteous(t: Talk, begin: Step, answers: Delivery -> bool)
    requires begin.Begin? && Possible(t, Protocol(begin)) && MayCall(t, begin, answers)
    ensures Courteous(t, Protocol(begin), answers)
  {
    hide MayCall;
  }

  lemma NotSound(u: Talk, answers: Delivery -> bool)
    requires |u.answered| >= |u.receipts| + 2 || (AllServed(u, answers) && |u.answered| > |u.receipts|)
    ensures !Sound(u, answers)
  {
    hide AllServed, OwnOnly;
  }

  // ----- it cannot be made up for

  /** An answer has been written over before it was received: two are outstanding, or one was received in place of
      another. */
  ghost predicate Missed(t: Talk) {
    || |t.answered| >= |t.receipts| + 2
    || exists i :: 0 <= i < |t.receipts| && t.receipts[i].number != i
  }

  lemma StepMissed(t: Talk, step: TalkStep, answers: Delivery -> bool)
    requires Missed(t) && Possible(t, step)
    ensures Missed(After(t, step, answers))
  {
    hide Take, Read, Own;
    var u := After(t, step, answers);
    if i :| 0 <= i < |t.receipts| && t.receipts[i].number != i {
      assert u.receipts[i].number != i;
    } else if step.Copy? {
      assert u.receipts[|t.receipts|].number != |t.receipts|;
    }
  }

  /** From then on, whatever anybody does, never has each answer been received by its own caller. */
  lemma {:induction false} NeverMadeUp(t: Talk, steps: seq<TalkStep>, answers: Delivery -> bool)
    requires Missed(t) && CanTalk(t, steps, answers)
    ensures var u := TalkRun(t, steps, answers); !(OwnOnly(u) && |u.answered| <= |u.receipts| + 1)
    decreases |steps|
  {
    if steps != [] {
      hide Missed, After, Possible, OwnOnly;
      StepMissed(t, steps[0], answers);
      NeverMadeUp(After(t, steps[0], answers), steps[1..], answers);
    }
  }
}
