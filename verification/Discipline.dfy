/** Exactly which runs of the protocol of `Ipc` deliver every message once, in order and unaltered: those in which an
    id is taken only when everything sent before has been dispatched, and the flag is raised only when it is down.
    Nothing else needs to be excluded; clients may otherwise be anywhere in `send_message`. */
module Discipline {
  import opened Messages
  import opened Ipc

  /** What is looked at before two of the statements of `send_message`: taking the id and raising the flag. */
  ghost predicate InTurn(s: System, step: Step) {
    && Enabled(s, step) && !IsStop(step)
    && (step.Advance? && s.clients[step.client].pc.WriteId? ==> |s.dispatched| == |s.sent|)
    && (step.Advance? && s.clients[step.client].pc.SetFlag? ==> !s.buffer.hasMessage)
  }

  ghost predicate RunInTurn(s: System, steps: seq<Step>)
    ensures RunInTurn(s, steps) ==> CanRun(s, steps)
    decreases |steps|
  {
    steps != [] ==> InTurn(s, steps[0]) && RunInTurn(Take(s, steps[0]), steps[1..])
  }

  // ----- such runs deliver: their invariant

  /** How much of message `d` a position with `left` statements to go says is in the buffer. */
  ghost predicate Written(b: Buffer, d: Delivery, left: nat) {
    && (left < 9 ==> b.id == d.id)
    && (left < 8 ==> b.route == d.route)
    && (left < 7 ==> b.size == |d.payload|)
    && (left < 6 ==> |d.payload| <= |b.payload| && b.payload[..|d.payload|] == d.payload)
    && (left < 5 ==> b.messageSize == 264 + |d.payload|)
    && (left < 3 ==> b.currentId == d.currentId)
  }

  /** The client still holds the arguments of the message it is writing. */
  ghost predicate Means(p: Client, d: Delivery) {
    d.route == TextField(p.route, 0) && d.payload == p.payload && d.id == d.currentId == p.counter
  }

  /** The message in transit: the last one sent. */
  ghost function Last(s: System): Delivery
    requires s.sent != []
  {
    s.sent[|s.sent| - 1]
  }

  /** A message of this client is begun and the server not yet told. */
  predicate Active(pc: ClientPc) {
    2 <= Left(pc) <= 8
  }

  ghost predicate OnlyActive(clients: seq<Client>, c: int) {
    forall k :: 0 <= k < |clients| && k != c ==> !Active(clients[k].pc)
  }

  predicate BetweenMessages(server: ServerPc) {
    server in {WaitData, ReleaseMutex, TestLoop}
  }

  /** The server is done with all messages; at most it has still to clear the flag. */
  predicate ServerDone(s: System) {
    if s.buffer.hasMessage then s.server.ClearFlag? else BetweenMessages(s.server)
  }

  /** Nothing in transit. */
  ghost predicate Free(s: System) {
    OnlyActive(s.clients, -1) && s.dataReady == 0 && ServerDone(s) && s.dispatched == s.sent
  }

  /** Client `c` is writing its message; the server has not been woken for it. */
  ghost predicate Writing(s: System, c: nat) {
    && c < |s.clients| && OnlyActive(s.clients, c) && Active(s.clients[c].pc) && s.dataReady == 0
    && (if Left(s.clients[c].pc) < 4 then s.buffer.hasMessage && BetweenMessages(s.server) else ServerDone(s))
    && s.sent != [] && s.dispatched + [Last(s)] == s.sent
    && Means(s.clients[c], Last(s)) && Written(s.buffer, Last(s), Left(s.clients[c].pc))
  }

  /** The message is complete and the server has been told. */
  ghost predicate Delivering(s: System) {
    && OnlyActive(s.clients, -1) && s.buffer.hasMessage
    && (if BetweenMessages(s.server) then s.dataReady == 1
        else s.dataReady == 0 && s.server in {CheckRunning, CheckFlag, DispatchMessage})
    && s.sent != [] && s.dispatched + [Last(s)] == s.sent && Written(s.buffer, Last(s), 1)
  }

  /** Every message has the length `send_message` lets through. */
  ghost predicate Fitting(s: System) {
    && |s.buffer.payload| == PAYLOAD_ROOM
    && forall c :: 0 <= c < |s.clients| && !s.clients[c].pc.Idle? ==> |s.clients[c].payload| <= PAYLOAD_ROOM
  }

  ghost predicate Lawful(s: System) {
    && s.running && s.stopping == 0 && Fitting(s)
    && (Free(s) || Delivering(s) || exists c :: Writing(s, c))
  }

  lemma InitialLawful(s: System)
    requires Initial(s)
    ensures Lawful(s)
  {
  }

  lemma StepFitting(s: System, step: Step)
    requires Fitting(s) && Enabled(s, step)
    ensures Fitting(Take(s, step))
  {
    hide TextField, Read, Intended;
    var t := Take(s, step);
    if step.Begin? || step.Advance? {
      forall c | 0 <= c < |t.clients| && !t.clients[c].pc.Idle?
        ensures |t.clients[c].payload| <= PAYLOAD_ROOM
      {
        assert c != step.client ==> t.clients[c] == s.clients[c];
      }
    }
  }

  /** A step of a client outside its message disturbs nothing. */
  lemma OutsideStep(s: System, step: Step)
    requires Enabled(s, step) && (step.Begin? || (step.Advance? && s.clients[step.client].pc.PostMutex?))
    ensures var t := Take(s, step);
      && (Free(s) ==> Free(t)) && (Delivering(s) ==> Delivering(t)) && forall c :: Writing(s, c) ==> Writing(t, c)
  {
    hide Written;
    var t := Take(s, step);
    var c := step.client;
    assert forall k :: 0 <= k < |s.clients| && k != c ==> t.clients[k] == s.clients[k];
    assert !Active(s.clients[c].pc) && !Active(t.clients[c].pc);
  }

  /** Taking the id, while nothing is in transit. */
  lemma IdStep(s: System, c: nat)
    requires Free(s) && c < |s.clients| && s.clients[c].pc.WriteId?
    ensures Writing(MoveClient(s, c), c)
  {
    hide TextField;
    var t := MoveClient(s, c);
    assert Last(t) == Intended(s.clients[c]);
  }

  /** A writing statement of the client whose message is in transit. */
  lemma WritingStep(s: System, c: nat)
    requires Writing(s, c) && Fitting(s) && Left(s.clients[c].pc) >= 3
    requires s.clients[c].pc.SetFlag? ==> !s.buffer.hasMessage
    ensures Writing(MoveClient(s, c), c)
  {
    hide TextField, Intended, Means;
    var t := MoveClient(s, c);
    var d := Last(s);
    assert d.payload == s.clients[c].payload && d.route == TextField(s.clients[c].route, 0) && d.id == d.currentId
      by { MeansFields(s.clients[c], d); }
    assert |d.payload| <= PAYLOAD_ROOM;
    assert s.clients[c].pc.WritePayload? ==> t.buffer.payload[..|d.payload|] == d.payload;
    assert Means(t.clients[c], d) by { MeansStays(s.clients[c], t.clients[c].pc, d); }
  }

  lemma MeansFields(p: Client, d: Delivery)
    requires Means(p, d)
    ensures d.payload == p.payload && d.route == TextField(p.route, 0) && d.id == d.currentId
  {
  }

  lemma MeansStays(p: Client, pc: ClientPc, d: Delivery)
    requires Means(p, d)
    ensures Means(p.(pc := pc), d)
  {
  }

  /** Telling the server. */
  lemma PostStep(s: System, c: nat)
    requires Writing(s, c) && s.clients[c].pc.PostDataReady?
    ensures Delivering(MoveClient(s, c))
  {
  }

  lemma AdvanceLawful(s: System, step: Step)
    requires Lawful(s) && InTurn(s, step) && step.Advance?
    ensures Lawful(Take(s, step))
  {
    StepFitting(s, step);
    var p := s.clients[step.client];
    hide Written, Means, MoveClient, Fitting;
    StillRunning(s, step);
    if p.pc.PostMutex? {
      OutsideStep(s, step);
    } else if p.pc.WriteId? {
      IdleIsFree(s);
      IdStep(s, step.client);
    } else {
      ActiveWrites(s, step.client);
      if p.pc.PostDataReady? {
        PostStep(s, step.client);
      } else {
        WritingStep(s, step.client);
      }
    }
  }

  lemma StillRunning(s: System, step: Step)
    requires Enabled(s, step) && !IsStop(step)
    ensures Take(s, step).running == s.running && Take(s, step).stopping == s.stopping
  {
    hide TextField, Overwrite, Intended, Read;
  }

  lemma ActiveWrites(s: System, c: nat)
    requires Lawful(s) && c < |s.clients| && Active(s.clients[c].pc)
    ensures Writing(s, c)
  {
    hide Written, Means;
  }

  /** With everything dispatched, nothing is in transit. */
  lemma IdleIsFree(s: System)
    requires Lawful(s) && |s.dispatched| == |s.sent|
    ensures Free(s)
  {
    hide Written, Means, Fitting;
  }

  lemma ServerLawful(s: System)
    requires Lawful(s) && Enabled(s, ServerMove)
    ensures Lawful(Take(s, ServerMove))
  {
    StepFitting(s, ServerMove);
    StillRunning(s, ServerMove);
    hide Fitting, OnlyActive;
    if Delivering(s) {
      DeliveringMoves(s);
    } else if Free(s) {
      assert Free(MoveServer(s));
    } else {
      hide Written, Means;
      var c :| Writing(s, c);
      assert Writing(MoveServer(s), c);
    }
  }

  /** The message dispatched is the one in transit. */
  lemma DeliveringMoves(s: System)
    requires Delivering(s) && Enabled(s, ServerMove) && s.running
    ensures s.server.DispatchMessage? ==> Read(s.buffer) == Last(s) && Free(MoveServer(s))
    ensures !s.server.DispatchMessage? ==> Delivering(MoveServer(s))
  {
    hide OnlyActive;
    if s.server.DispatchMessage? {
      assert Read(s.buffer) == Last(s);
      assert MoveServer(s).dispatched == s.sent;
    }
  }

  lemma StepLawful(s: System, step: Step)
    requires Lawful(s) && InTurn(s, step)
    ensures Lawful(Take(s, step))
  {
    match step
    case Begin(_, _, _) => BeginLawful(s, step);
    case Advance(_) => hide Lawful, InTurn, Take; AdvanceLawful(s, step);
    case ServerMove => hide Lawful, Take; ServerLawful(s);
    case _ => assert false;
  }

  lemma BeginLawful(s: System, step: Step)
    requires Lawful(s) && Enabled(s, step) && step.Begin?
    ensures Lawful(Take(s, step))
  {
    StepFitting(s, step);
    StillRunning(s, step);
    OutsideStep(s, step);
    hide Take, Enabled, Writing, Free, Delivering, Fitting;
    if c :| Writing(s, c) {
      assert Writing(Take(s, step), c);
    }
  }

  lemma {:induction false} LawfulAlways(s: System, steps: seq<Step>)
    requires Lawful(s) && RunInTurn(s, steps)
    ensures Lawful(Run(s, steps))
    decreases |steps|
  {
    hide Lawful, Take, Enabled, InTurn;
    if steps != [] {
      StepLawful(s, steps[0]);
      LawfulAlways(Take(s, steps[0]), steps[1..]);
    }
  }

  /** Nobody is between taking an id and telling the server, and no message is pending. */
  ghost predicate NothingInTransit(s: System) {
    OnlyActive(s.clients, -1) && !s.buffer.hasMessage
  }

  lemma LawfulDelivers(s: System)
    requires Lawful(s)
    ensures s.dispatched == s.sent || (s.sent != [] && s.dispatched == s.sent[..|s.sent| - 1])
    ensures NothingInTransit(s) ==> s.dispatched == s.sent
  {
    hide Written, Means, Fitting;
    if s.sent != [] && s.dispatched + [Last(s)] == s.sent {
      assert s.dispatched == s.sent[..|s.sent| - 1];
    }
  }

  /** Exactly once, in order, unaltered, over every run in turn: what has been dispatched is what has been sent, but
      for the message in transit; and when none is in transit there is no difference. */
  lemma DeliveredExactly(s: System, steps: seq<Step>)
    requires Initial(s) && RunInTurn(s, steps)
    ensures var t := Run(s, steps);
      && (t.dispatched == t.sent || (t.sent != [] && t.dispatched == t.sent[..|t.sent| - 1]))
      && (NothingInTransit(t) ==> t.dispatched == t.sent)
  {
    hide Lawful, Run, Initial, RunInTurn, NothingInTransit;
    InitialLawful(s);
    LawfulAlways(s, steps);
    LawfulDelivers(Run(s, steps));
  }

  // ----- no other runs do

  /** What has been sent and dispatched stays so. */
  lemma {:induction false} HistoryGrows(s: System, steps: seq<Step>)
    requires CanRun(s, steps)
    ensures var t := Run(s, steps); s.sent <= t.sent && s.dispatched <= t.dispatched && s.overwrites <= t.overwrites
    decreases |steps|
  {
    if steps != [] {
      StepGrows(s, steps[0]);
      hide Take, Enabled;
      HistoryGrows(Take(s, steps[0]), steps[1..]);
    }
  }

  lemma StepGrows(s: System, step: Step)
    requires Enabled(s, step)
    ensures var t := Take(s, step); s.sent <= t.sent && s.dispatched <= t.dispatched && s.overwrites <= t.overwrites
  {
    hide TextField, Overwrite, Read, Intended;
  }

  ghost predicate DistinctIds(ds: seq<Delivery>) {
    forall i, j :: 0 <= i < j < |ds| ==> ds[i].id != ds[j].id
  }

  /** Two messages or more are to be dispatched, and the id in the buffer is that of the last. */
  ghost predicate Overtaken(s: System) {
    |s.sent| >= |s.dispatched| + 2 && s.buffer.id == Last(s).id
  }

  lemma StepOvertaken(s: System, step: Step)
    requires Overtaken(s) && Enabled(s, step) && !(step.ServerMove? && s.server.DispatchMessage?)
    ensures Overtaken(Take(s, step))
  {
    hide TextField, Overwrite, Read;
  }

  /** Then the next dispatch is not of the message that is due, and nothing makes up for it. */
  lemma {:induction false} NeverRecovers(s: System, steps: seq<Step>)
    requires Overtaken(s) && CanRun(s, steps) && DistinctIds(Run(s, steps).sent)
    ensures Run(s, steps).dispatched != Run(s, steps).sent
    decreases |steps|
  {
    hide Take, Enabled, Overtaken, DistinctIds;
    var t := Run(s, steps);
    if steps == [] {
      ShortOf(s);
    } else {
      HistoryGrows(Take(s, steps[0]), steps[1..]);
      if steps[0].ServerMove? && s.server.DispatchMessage? {
        WrongDispatch(s, t);
      } else {
        StepOvertaken(s, steps[0]);
        NeverRecovers(Take(s, steps[0]), steps[1..]);
      }
    }
  }

  lemma ShortOf(s: System)
    requires Overtaken(s)
    ensures s.dispatched != s.sent
  {
  }

  lemma WrongDispatch(s: System, t: System)
    requires Overtaken(s) && s.server.DispatchMessage? && DistinctIds(t.sent)
    requires var u := Take(s, ServerMove); u.sent <= t.sent && u.dispatched <= t.dispatched
    ensures t.dispatched != t.sent
  {
    var i := |s.dispatched|;
    assert s.sent <= t.sent && t.sent[|s.sent| - 1] == Last(s);
    assert t.dispatched[i] == MoveServer(s).dispatched[i] == Read(s.buffer);
    assert t.dispatched[i].id != t.sent[i].id;
  }

  /** A step out of turn overwrites a flag, or lets a message overtake another. */
  lemma OutOfTurn(s: System, step: Step)
    requires Enabled(s, step) && !IsStop(step) && !InTurn(s, step) && |s.dispatched| <= |s.sent|
    ensures Take(s, step).overwrites > 0 || Overtaken(Take(s, step))
  {
    hide TextField, Overwrite;
  }

  lemma {:induction false} MustBeInTurn(s: System, steps: seq<Step>)
    requires CanRun(s, steps) && forall i :: 0 <= i < |steps| ==> !IsStop(steps[i])
    requires Ledger(s) && FlagLedger(s)
    requires var t := Run(s, steps); t.overwrites == 0 && t.dispatched == t.sent && DistinctIds(t.sent)
    ensures RunInTurn(s, steps)
    decreases |steps|
  {
    hide Take, Enabled, Overtaken, DistinctIds, InTurn, Ledger, FlagLedger;
    if steps != [] {
      StepLedger(s, steps[0]);
      DispatchedOfSent(s);
      HistoryGrows(Take(s, steps[0]), steps[1..]);
      if !InTurn(s, steps[0]) {
        OutOfTurn(s, steps[0]);
        NeverRecovers(Take(s, steps[0]), steps[1..]);
      }
      MustBeInTurn(Take(s, steps[0]), steps[1..]);
    }
  }

  lemma DispatchedOfSent(s: System)
    requires FlagLedger(s)
    ensures |s.dispatched| <= |s.sent|
  {
    hide Count;
  }

  /** At rest: nobody sends, nothing is pending. */
  ghost predicate AtRest(s: System) {
    AllIdle(s.clients) && !s.buffer.hasMessage
  }

  /** The exact condition. A run without `stop` that comes to rest, its messages bearing different ids, has
      dispatched exactly what was sent, in order and content, if and only if it was in turn throughout. For the one
      half ids do not matter (`DeliveredExactly`); for the other they do, as a message could otherwise pass for
      another (`Races.EqualIdsHide`). */
  lemma DeliveredIff(s: System, steps: seq<Step>)
    requires Initial(s) && CanRun(s, steps) && forall i :: 0 <= i < |steps| ==> !IsStop(steps[i])
    requires AtRest(Run(s, steps)) && DistinctIds(Run(s, steps).sent)
    ensures Run(s, steps).dispatched == Run(s, steps).sent <==> RunInTurn(s, steps)
  {
    var t := Run(s, steps);
    hide CanRun, Run, DistinctIds, Ledger, FlagLedger;
    InitialLedger(s);
    DispatchCount(s, steps);
    if t.dispatched == t.sent {
      hide Initial, AtRest;
      MustBeInTurn(s, steps);
    } else if RunInTurn(s, steps) {
      DeliveredExactly(s, steps);
    }
  }

  /** The flag is never raised while it is up. */
  ghost predicate FlagsDown(s: System, steps: seq<Step>)
    requires CanRun(s, steps)
    decreases |steps|
  {
    steps != [] ==>
      && (steps[0].Advance? && s.clients[steps[0].client].pc.SetFlag? ==> !s.buffer.hasMessage)
      && FlagsDown(Take(s, steps[0]), steps[1..])
  }

  lemma {:induction false} OverwritesIff(s: System, steps: seq<Step>)
    requires CanRun(s, steps)
    ensures Run(s, steps).overwrites >= s.overwrites
    ensures Run(s, steps).overwrites == s.overwrites <==> FlagsDown(s, steps)
    decreases |steps|
  {
    if steps != [] {
      FlagStep(s, steps[0]);
      OverwritesIff(Take(s, steps[0]), steps[1..]);
    }
  }

  lemma FlagStep(s: System, step: Step)
    requires Enabled(s, step)
    ensures Take(s, step).overwrites == s.overwrites
         + (if step.Advance? && s.clients[step.client].pc.SetFlag? && s.buffer.hasMessage then 1 else 0)
  {
    hide TextField, Overwrite, Read, Intended;
  }

  /** As to numbers only: in any interleaving that comes to rest, as many messages have been dispatched as were sent if
      and only if the flag was never raised while it was up. */
  lemma CountIff(s: System, steps: seq<Step>)
    requires Initial(s) && CanRun(s, steps) && AtRest(Run(s, steps))
    ensures |Run(s, steps).dispatched| == |Run(s, steps).sent| <==> FlagsDown(s, steps)
  {
    hide CanRun, Run, FlagsDown;
    DispatchCount(s, steps);
    OverwritesIff(s, steps);
  }

  // ----- one send at a time

  /** Nobody sends and the server is blocked on an empty `data_ready`. */
  ghost predicate MayBegin(s: System) {
    AllIdle(s.clients) && s.server == WaitData && s.dataReady == 0
  }

  /** A message is begun only then. */
  ghost predicate Allowed(s: System, step: Step) {
    Enabled(s, step) && (step.Begin? ==> MayBegin(s)) && !IsStop(step)
  }

  ghost predicate Disciplined(s: System, steps: seq<Step>)
    ensures Disciplined(s, steps) ==> CanRun(s, steps)
    decreases |steps|
  {
    steps != [] ==> Allowed(s, steps[0]) && Disciplined(Take(s, steps[0]), steps[1..])
  }

  /** At most one client is in `send_message`; before it raises its flag nothing is pending or to be dispatched. */
  ghost predicate Alone(s: System) {
    && (forall i, j :: 0 <= i < j < |s.clients| ==> s.clients[i].pc.Idle? || s.clients[j].pc.Idle?)
    && (forall c :: 0 <= c < |s.clients| && Left(s.clients[c].pc) >= 4 ==> !s.buffer.hasMessage)
    && (forall c :: 0 <= c < |s.clients| && s.clients[c].pc.WriteId? ==> s.dispatched == s.sent)
  }

  lemma AloneInTurn(s: System, step: Step)
    requires Alone(s) && Allowed(s, step)
    ensures InTurn(s, step)
  {
  }

  lemma BeginAlone(s: System, step: Step)
    requires Lawful(s) && Allowed(s, step) && step.Begin?
    ensures Alone(Take(s, step))
  {
    MayBeginFree(s);
    hide Lawful;
    var t := Take(s, step);
    assert forall k :: 0 <= k < |s.clients| && k != step.client ==> t.clients[k] == s.clients[k];
    assert forall k :: 0 <= k < |s.clients| ==> s.clients[k].pc.Idle?;
  }

  lemma AdvanceAlone(s: System, c: nat)
    requires Alone(s) && c < |s.clients| && !s.clients[c].pc.Idle?
    ensures Alone(MoveClient(s, c))
  {
    hide TextField, Overwrite, Intended;
    var t := MoveClient(s, c);
    forall k | 0 <= k < |s.clients| && k != c
      ensures t.clients[k] == s.clients[k] && s.clients[k].pc.Idle?
    {
      assert k < c || c < k;
    }
    hide Alone, MoveClient;
    AdvanceFlag(s, c);
    OneSender(t, c);
  }

  lemma AdvanceFlag(s: System, c: nat)
    requires Alone(s) && c < |s.clients| && !s.clients[c].pc.Idle?
    ensures var t := MoveClient(s, c);
      !t.clients[c].pc.WriteId? && (Left(t.clients[c].pc) >= 4 ==> !t.buffer.hasMessage)
  {
    hide TextField, Overwrite, Intended;
  }

  lemma OneSender(s: System, c: nat)
    requires c < |s.clients| && (Left(s.clients[c].pc) >= 4 ==> !s.buffer.hasMessage) && !s.clients[c].pc.WriteId?
    requires forall k :: 0 <= k < |s.clients| && k != c ==> s.clients[k].pc.Idle?
    ensures Alone(s)
  {
  }

  lemma StepAlone(s: System, step: Step)
    requires Lawful(s) && Alone(s) && Allowed(s, step)
    ensures Alone(Take(s, step))
  {
    match step
    case Begin(_, _, _) => hide Lawful, Alone, Take; BeginAlone(s, step);
    case Advance(c) => hide Lawful, Alone, MoveClient; AdvanceAlone(s, c);
    case ServerMove => ServerAlone(s);
    case _ => assert false;
  }

  lemma ServerAlone(s: System)
    requires Lawful(s) && Alone(s) && Enabled(s, ServerMove)
    ensures Alone(MoveServer(s))
  {
    hide Read, Written, Means, Fitting;
    assert s.server.DispatchMessage? ==> s.buffer.hasMessage;
  }

  lemma MayBeginFree(s: System)
    requires Lawful(s) && MayBegin(s)
    ensures !s.buffer.hasMessage && NothingInTransit(s) && s.dispatched == s.sent
  {
    hide Written, Means, Fitting;
  }

  /** Sending one message at a time, each once the server is blocked again, is in turn throughout. */
  lemma {:induction false} DisciplinedInTurn(s: System, steps: seq<Step>)
    requires Lawful(s) && Alone(s) && Disciplined(s, steps)
    ensures RunInTurn(s, steps)
    decreases |steps|
  {
    hide Lawful, Alone, Take, Enabled, InTurn, Allowed;
    if steps != [] {
      AloneInTurn(s, steps[0]);
      StepLawful(s, steps[0]);
      StepAlone(s, steps[0]);
      DisciplinedInTurn(Take(s, steps[0]), steps[1..]);
    }
  }

  lemma InitialAlone(s: System)
    requires Initial(s)
    ensures Alone(s)
  {
  }

  /** So over every such run each message is dispatched once, in order, as meant. */
  lemma DisciplinedDelivers(s: System, steps: seq<Step>)
    requires Initial(s) && Disciplined(s, steps)
    ensures RunInTurn(s, steps)
    ensures MayBegin(Run(s, steps)) ==> Run(s, steps).dispatched == Run(s, steps).sent
  {
    hide Lawful, Alone, Run, Initial, RunInTurn, Disciplined, MayBegin;
    InitialLawful(s);
    InitialAlone(s);
    DisciplinedInTurn(s, steps);
    LawfulAlways(s, steps);
    if MayBegin(Run(s, steps)) {
      MayBeginFree(Run(s, steps));
    }
  }
}
