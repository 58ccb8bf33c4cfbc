/** Runs of the protocol of `Ipc` that are not in turn: one that loses a message, one in which counting would not show
    it, and one whose equal ids hide it. */
module Races {
  import opened Words
  import opened Messages
  import opened Ipc
  import opened IpcRuns
  import opened Discipline

  ghost function TurnedIdly(s: System): System
    requires s.dataReady > 0
  {
    s.(dataReady := s.dataReady - 1, wakeUps := s.wakeUps + 1, mutex := s.mutex + 1, iterations := s.iterations + 1)
  }

  /** Woken with no message pending, the server only posts `mutex`. */
  lemma EmptyTurn(s: System)
    requires s.server == WaitData && s.dataReady > 0 && s.running && !s.buffer.hasMessage
    ensures CanRun(s, Repeat(ServerMove, 5)) && Run(s, Repeat(ServerMove, 5)) == TurnedIdly(s)
  {
    var m := ServerMove;
    var s1 := Take(s, m);
    var s2 := Take(s1, m);
    var s3 := Take(s2, m);
    var s4 := Take(s3, m);
    var s5 := Take(s4, m);
    assert s5 == TurnedIdly(s);
    hide Take, CanRun, Run, Repeat, TurnedIdly;
    Stay(s5);
    NoneRepeated(m);
    OnceMore(s4, m, 0);
    OnceMore(s3, m, 1);
    OnceMore(s2, m, 2);
    OnceMore(s1, m, 3);
    OnceMore(s, m, 4);
  }

  const LOST: seq<Step> :=
    SendSteps(0, [], []) + (SendSteps(0, [], []) + (Repeat(ServerMove, 7) + Repeat(ServerMove, 5)))

  /** Two sends before the server wakes: two posts, but the first message has been overwritten and only one is ever
      dispatched. */
  lemma MessageLost(s: System)
    requires Initial(s) && |s.clients| > 0
    ensures CanRun(s, LOST)
    ensures var t := Run(s, LOST); Quiet(t) && |t.sent| == 2 && |t.dispatched| == 1
  {
    hide CanRun, Run, Repeat, SendSteps, TextField, Overwrite, Read, Intended;
    var s1 := Sent(s, 0, [], []);
    var s2 := Sent(s1, 0, [], []);
    var s3 := Turned(s2);
    Send(s, 0, [], []);
    Send(s1, 0, [], []);
    FinishTurn(s2);
    EmptyTurn(s3);
    RunConcat(s2, Repeat(ServerMove, 7), Repeat(ServerMove, 5));
    RunConcat(s1, SendSteps(0, [], []), Repeat(ServerMove, 7) + Repeat(ServerMove, 5));
    RunConcat(s, SendSteps(0, [], []), SendSteps(0, [], []) + (Repeat(ServerMove, 7) + Repeat(ServerMove, 5)));
  }

  /** After one turn two clients are let in, and the second writes over what the first has written .. */
  const COLLIDE: seq<Step> :=
    SendSteps(0, [], []) + (Repeat(ServerMove, 7) + (
    [Begin(0, [97], [])] + (Repeat(Advance(0), 5) + (
    [Begin(1, [98], [])] + Repeat(Advance(1), 5)))))

  /** .. then they raise their flags, one after the other. */
  const TAKE_TURNS: seq<Step> :=
    Repeat(Advance(0), 4) + (Repeat(ServerMove, 7) + (Repeat(Advance(1), 4) + Repeat(ServerMove, 7)))

  ghost function FirstIn(s: System): System
    requires Initial(s) && |s.clients| >= 2
  {
    WrittenUp(Begun(Turned(Sent(s, 0, [], [])), 0, [97], []), 0)
  }

  ghost function Collided(s: System): System
    requires Initial(s) && |s.clients| >= 2
  {
    WrittenUp(Begun(FirstIn(s), 1, [98], []), 1)
  }

  lemma Collision(s: System)
    requires Initial(s) && |s.clients| >= 2
    ensures CanRun(s, COLLIDE) && Run(s, COLLIDE) == Collided(s)
  {
    hide CanRun, Run, Repeat, SendSteps, TextField, Overwrite, Read, Intended;
    var s1 := Sent(s, 0, [], []);
    var s2 := Turned(s1);
    var s3 := Begun(s2, 0, [97], []);
    var s4 := WrittenUp(s3, 0);
    var s5 := Begun(s4, 1, [98], []);
    assert Take(s2, Begin(0, [97], [])) == s3;
    assert Take(s4, Begin(1, [98], [])) == s5;
    Send(s, 0, [], []);
    FinishTurn(s1);
    WriteUp(s3, 0);
    WriteUp(s5, 1);
    hide Sent, Turned, Begun, WrittenUp, Take;
    FirstStep(s4, Begin(1, [98], []), Repeat(Advance(1), 5));
    RunConcat(s3, Repeat(Advance(0), 5), [Begin(1, [98], [])] + Repeat(Advance(1), 5));
    FirstStep(s2, Begin(0, [97], []), Repeat(Advance(0), 5) + ([Begin(1, [98], [])] + Repeat(Advance(1), 5)));
    RunConcat(s1, Repeat(ServerMove, 7), [Begin(0, [97], [])] + (Repeat(Advance(0), 5)
                                         + ([Begin(1, [98], [])] + Repeat(Advance(1), 5))));
    RunConcat(s, SendSteps(0, [], []), Repeat(ServerMove, 7) + ([Begin(0, [97], [])] + (Repeat(Advance(0), 5)
                                                          + ([Begin(1, [98], [])] + Repeat(Advance(1), 5)))));
  }

  lemma BothDispatched(s: System)
    requires |s.clients| >= 2 && s.clients[0].pc.SetFlag? && s.clients[1].pc.SetFlag?
    requires s.server == WaitData && s.dataReady == 0 && s.running && !s.buffer.hasMessage
    ensures CanRun(s, TAKE_TURNS) && Run(s, TAKE_TURNS) == Turned(Signalled(Turned(Signalled(s, 0)), 1))
  {
    hide CanRun, Run, Repeat, Read;
    var s1 := Signalled(s, 0);
    var s2 := Turned(s1);
    var s3 := Signalled(s2, 1);
    Signal(s, 0);
    FinishTurn(s1);
    Signal(s2, 1);
    FinishTurn(s3);
    hide Turned, Signalled;
    RunConcat(s2, Repeat(Advance(1), 4), Repeat(ServerMove, 7));
    RunConcat(s1, Repeat(ServerMove, 7), Repeat(Advance(1), 4) + Repeat(ServerMove, 7));
    RunConcat(s, Repeat(Advance(0), 4), Repeat(ServerMove, 7) + (Repeat(Advance(1), 4) + Repeat(ServerMove, 7)));
  }

  /** The message of client 1 is dispatched twice and that of client 0 never, though no flag was raised over another
      and as many messages are dispatched as were sent. */
  lemma DispatchedTwice(s: System)
    requires Initial(s) && |s.clients| >= 2
    ensures CanRun(s, COLLIDE + TAKE_TURNS)
    ensures var t := Run(s, COLLIDE + TAKE_TURNS);
      && Quiet(t) && t.overwrites == 0 && |t.sent| == |t.dispatched| == 3
      && t.dispatched[1] == t.dispatched[2] == t.sent[2]
      && forall i :: 0 <= i < 3 ==> t.dispatched[i].route != t.sent[1].route
  {
    hide CanRun, Run, Repeat, SendSteps, Overwrite;
    Collision(s);
    var u := Collided(s);
    CollidedFacts(s);
    BothDispatched(u);
    RunConcat(s, COLLIDE, TAKE_TURNS);
    hide Collided;
    OneByteField(97);
    OneByteField(98);
    hide TextField;
    assert AllIdle(Run(s, COLLIDE + TAKE_TURNS).clients);
  }

  lemma OneByteField(x: byte)
    ensures |TextField([], 0)| > 0 && TextField([], 0)[0] == 0
    ensures x != 0 ==> |TextField([x], 0)| > 0 && TextField([x], 0)[0] == x
  {
  }

  /** Where the collision leaves the system. */
  lemma CollidedFacts(s: System)
    requires Initial(s) && |s.clients| >= 2
    ensures var u := Collided(s);
      && |u.clients| == |s.clients| && u.clients[0].pc.SetFlag? && u.clients[1].pc.SetFlag?
      && (forall k :: 2 <= k < |u.clients| ==> u.clients[k].pc.Idle?)
      && u.server == WaitData && u.dataReady == 0 && u.running && u.stopping == 0 && !u.buffer.hasMessage
      && u.overwrites == 0 && |u.sent| == 3 && |u.dispatched| == 1
      && u.dispatched[0].route == TextField([], 0) && u.sent[1].route == TextField([97], 0)
      && u.sent[2] == Delivery(u.buffer.id, u.buffer.id, TextField([98], 0), [])
      && u.buffer.route == TextField([98], 0) && u.buffer.size == 0
  {
    hide TextField, Overwrite;
  }

  // ----- equal ids

  /** Client 2 takes its id, the same as that of client 1, while the message of client 1 is still to be dispatched .. */
  const SAME_ID: seq<Step> := [Begin(1, [97], [])] + (Repeat(Advance(1), 5) + ([Begin(2, [98], [])] + []))

  /** .. and writes the rest once that has happened. */
  const WRITE_REST: seq<Step> :=
    [Advance(2)] + (Repeat(Advance(1), 4) + (Repeat(ServerMove, 7) + (
    Repeat(Advance(2), 4) + (Repeat(Advance(2), 4) + Repeat(ServerMove, 7)))))

  ghost function RestWritten(s: System, c: nat): System
    requires c < |s.clients|
  {
    var (p, b) := (s.clients[c], s.buffer);
    s.(clients := s.clients[c := p.(pc := SetFlag)],
       buffer := b.(route := TextField(p.route, 0), size := |p.payload| % 0x1_0000_0000,
                    payload := Overwrite(b.payload, p.payload), messageSize := MESSAGE_HEADER + |p.payload|))
  }

  lemma WriteRest(s: System, c: nat)
    requires c < |s.clients| && s.clients[c].pc.WriteRoute?
    ensures CanRun(s, Repeat(Advance(c), 4)) && Run(s, Repeat(Advance(c), 4)) == RestWritten(s, c)
  {
    hide TextField, Overwrite;
    var a := Advance(c);
    var s1 := Take(s, a);
    var s2 := Take(s1, a);
    var s3 := Take(s2, a);
    var s4 := Take(s3, a);
    assert s4 == RestWritten(s, c);
    hide Take, CanRun, Run, Repeat, RestWritten;
    Stay(s4);
    NoneRepeated(a);
    OnceMore(s3, a, 0);
    OnceMore(s2, a, 1);
    OnceMore(s1, a, 2);
    OnceMore(s, a, 3);
  }

  ghost function BothIn(s: System): System
    requires |s.clients| >= 3 && s.mutex >= 2
  {
    Begun(WrittenUp(Begun(s, 1, [97], []), 1), 2, [98], [])
  }

  lemma EnterBoth(s: System)
    requires Quiet(s) && |s.clients| >= 3 && s.mutex >= 2
    ensures CanRun(s, SAME_ID) && Run(s, SAME_ID) == BothIn(s)
  {
    hide CanRun, Run, Repeat, TextField, Overwrite, Intended;
    var s1 := Begun(s, 1, [97], []);
    var s2 := WrittenUp(s1, 1);
    var s3 := Begun(s2, 2, [98], []);
    assert Take(s, Begin(1, [97], [])) == s1;
    assert Take(s2, Begin(2, [98], [])) == s3;
    WriteUp(s1, 1);
    hide Begun, WrittenUp, Take;
    Stay(s3);
    FirstStep(s2, Begin(2, [98], []), []);
    RunConcat(s1, Repeat(Advance(1), 5), [Begin(2, [98], [])] + []);
    FirstStep(s, Begin(1, [97], []), Repeat(Advance(1), 5) + ([Begin(2, [98], [])] + []));
  }

  ghost function FirstServed(s: System): System
    requires |s.clients| >= 3
  {
    Turned(Signalled(MoveClient(s, 2), 1))
  }

  ghost function BothServed(s: System): System
    requires |s.clients| >= 3
  {
    Turned(Signalled(RestWritten(FirstServed(s), 2), 2))
  }

  lemma ServeBoth(s: System)
    requires |s.clients| >= 3 && s.clients[1].pc.SetFlag? && s.clients[2].pc.WriteId?
    requires s.server == WaitData && s.dataReady == 0 && s.running && !s.buffer.hasMessage
    ensures CanRun(s, WRITE_REST) && Run(s, WRITE_REST) == BothServed(s)
  {
    hide CanRun, Run, Repeat, Read, TextField, Overwrite, Intended;
    var s1 := MoveClient(s, 2);
    var s2 := Signalled(s1, 1);
    var s3 := Turned(s2);
    var s4 := RestWritten(s3, 2);
    var s5 := Signalled(s4, 2);
    Signal(s1, 1);
    FinishTurn(s2);
    WriteRest(s3, 2);
    Signal(s4, 2);
    FinishTurn(s5);
    assert Enabled(s, Advance(2)) && Take(s, Advance(2)) == s1;
    hide Turned, Signalled, RestWritten, MoveClient, Take, Enabled;
    RunConcat(s4, Repeat(Advance(2), 4), Repeat(ServerMove, 7));
    RunConcat(s3, Repeat(Advance(2), 4), Repeat(Advance(2), 4) + Repeat(ServerMove, 7));
    RunConcat(s2, Repeat(ServerMove, 7), Repeat(Advance(2), 4) + (Repeat(Advance(2), 4) + Repeat(ServerMove, 7)));
    RunConcat(s1, Repeat(Advance(1), 4),
              Repeat(ServerMove, 7) + (Repeat(Advance(2), 4) + (Repeat(Advance(2), 4) + Repeat(ServerMove, 7))));
    FirstStep(s, Advance(2), Repeat(Advance(1), 4) + (Repeat(ServerMove, 7)
                             + (Repeat(Advance(2), 4) + (Repeat(Advance(2), 4) + Repeat(ServerMove, 7)))));
  }

  lemma {:induction false} InTurnAt(s: System, a: seq<Step>, b: seq<Step>)
    requires RunInTurn(s, a + b) && b != []
    ensures CanRun(s, a) && InTurn(Run(s, a), b[0])
    decreases |a|
  {
    hide Take, Enabled, InTurn;
    if a == [] {
      assert a + b == b;
    } else {
      assert (a + b)[0] == a[0] && (a + b)[1..] == a[1..] + b;
      InTurnAt(Take(s, a[0]), a[1..], b);
    }
  }

  lemma BothInFacts(s: System)
    requires Quiet(s) && |s.clients| >= 3 && s.mutex >= 2
    ensures var t := BothIn(s);
      && |t.clients| == |s.clients| && t.clients[1].pc.SetFlag? && t.clients[2].pc.WriteId?
      && t.server == WaitData && t.dataReady == 0 && t.running && !t.buffer.hasMessage
      && |t.sent| == |s.sent| + 1 && t.dispatched == s.dispatched
  {
    hide TextField, Overwrite, Intended;
  }

  lemma FirstServedFacts(s: System)
    requires Quiet(s) && |s.clients| >= 3 && s.mutex >= 2
    requires s.clients[1].counter == s.clients[2].counter && s.dispatched == s.sent
    ensures var (t, id) := (FirstServed(BothIn(s)), NextId(s.clients[1].counter));
      && t.sent == t.dispatched + [Delivery(id, id, TextField([98], 0), [])] && |t.sent| == |s.sent| + 2
      && |t.clients| == |s.clients| && t.clients[2] == Client(WriteRoute, [98], [], id) && t.buffer.id == id
      && (forall k :: 0 <= k < |t.clients| && k != 2 ==> t.clients[k].pc.Idle?)
      && t.server == WaitData && t.dataReady == 0 && t.running && t.stopping == 0 && !t.buffer.hasMessage
  {
    hide TextField;
  }

  lemma SecondServedFacts(t: System)
    requires |t.clients| >= 3 && t.sent != [] && t.dispatched + [Last(t)] == t.sent
    requires t.clients[2].route == [98] && t.clients[2].payload == []
    requires Last(t) == Delivery(t.buffer.id, t.buffer.id, TextField([98], 0), [])
    requires forall k :: 0 <= k < |t.clients| && k != 2 ==> t.clients[k].pc.Idle?
    requires t.server == WaitData && t.dataReady == 0 && t.running && t.stopping == 0
    ensures var u := Turned(Signalled(RestWritten(t, 2), 2)); Quiet(u) && u.dispatched == u.sent == t.sent
  {
    hide TextField, Overwrite;
    var r := RestWritten(t, 2);
    assert r.clients == t.clients[2 := t.clients[2].(pc := SetFlag)] && r.sent == t.sent;
    assert r.buffer.id == t.buffer.id && r.buffer.route == TextField([98], 0) && r.buffer.size == 0;
    hide RestWritten;
    assert Read(Signalled(r, 2).buffer) == Last(t);
  }

  lemma BothServedFacts(s: System)
    requires Quiet(s) && |s.clients| >= 3 && s.mutex >= 2
    requires s.clients[1].counter == s.clients[2].counter && s.dispatched == s.sent
    ensures var t := BothServed(BothIn(s)); Quiet(t) && t.dispatched == t.sent && |t.sent| == |s.sent| + 2
  {
    FirstServedFacts(s);
    hide FirstServed, BothIn, TextField, Turned, Signalled, RestWritten;
    SecondServedFacts(FirstServed(BothIn(s)));
  }

  /** What the hypothesis on ids in `Discipline.DeliveredIff` is for: a run that is not in turn and delivers exactly,
      because the id written too early equals the one it overwrites. */
  lemma EqualIdsHide(s: System)
    requires Initial(s) && |s.clients| >= 3 && s.clients[1].counter == s.clients[2].counter
    ensures CanRun(s, RoundSteps(0, [], []) + (SAME_ID + WRITE_REST))
    ensures var t := Run(s, RoundSteps(0, [], []) + (SAME_ID + WRITE_REST));
      Quiet(t) && t.dispatched == t.sent && |t.sent| == 3
    ensures !RunInTurn(s, RoundSteps(0, [], []) + (SAME_ID + WRITE_REST))
  {
    hide CanRun, Run, Repeat, RoundSteps;
    OneRound(s, 0, [], []);
    RoundFacts(s, 0, [], []);
    var s1 := Round(s, 0, [], []);
    hide Round;
    EnterBoth(s1);
    var s2 := BothIn(s1);
    BothInFacts(s1);
    ServeBoth(s2);
    RunConcat(s1, SAME_ID, WRITE_REST);
    RunConcat(s, RoundSteps(0, [], []), SAME_ID + WRITE_REST);
    BothServedFacts(s1);
    hide BothServed, BothIn;
    if RunInTurn(s, RoundSteps(0, [], []) + (SAME_ID + WRITE_REST)) {
      assert RoundSteps(0, [], []) + (SAME_ID + WRITE_REST) == (RoundSteps(0, [], []) + SAME_ID) + WRITE_REST;
      InTurnAt(s, RoundSteps(0, [], []) + SAME_ID, WRITE_REST);
      RunConcat(s, RoundSteps(0, [], []), SAME_ID);
      assert false;
    }
  }
}
