/** Pieces of runs of the protocol: a client's statements in one go, a turn of the server, letting everything in
    progress finish. With them, the bound on the holders of `mutex` is shown to be reached. */
module IpcRuns {
  import opened Words
  import opened Messages
  import opened Ipc

  function Repeat(step: Step, n: nat): (r: seq<Step>)
    ensures |r| == n
    ensures forall i :: 0 <= i < n ==> r[i] == step
  {
    if n == 0 then [] else [step] + Repeat(step, n - 1)
  }

  lemma FirstStep(s: System, step: Step, rest: seq<Step>)
    requires Enabled(s, step) && CanRun(Take(s, step), rest)
    ensures CanRun(s, [step] + rest) && Run(s, [step] + rest) == Run(Take(s, step), rest)
  {
    hide Take, Enabled;
    assert ([step] + rest)[1..] == rest;
  }

  lemma Stay(s: System)
    ensures CanRun(s, []) && Run(s, []) == s
  {
  }

  /** `n` more of the same after one. */
  lemma OnceMore(s: System, step: Step, n: nat)
    requires Enabled(s, step) && CanRun(Take(s, step), Repeat(step, n))
    ensures CanRun(s, Repeat(step, n + 1)) && Run(s, Repeat(step, n + 1)) == Run(Take(s, step), Repeat(step, n))
  {
    hide Take, Enabled, CanRun, Run;
    FirstStep(s, step, Repeat(step, n));
  }

  // ----- a client's statements

  /** The state once client `c` has written its message, up to raising the flag. */
  ghost function WrittenUp(s: System, c: nat): System
    requires c < |s.clients|
  {
    var (p, b) := (s.clients[c], s.buffer);
    s.(clients := s.clients[c := p.(pc := SetFlag, counter := NextId(p.counter))],
       buffer := b.(id := NextId(p.counter), route := TextField(p.route, 0), size := |p.payload| % 0x1_0000_0000,
                    payload := Overwrite(b.payload, p.payload), messageSize := MESSAGE_HEADER + |p.payload|),
       sent := s.sent + [Intended(p)])
  }

  lemma WriteUp(s: System, c: nat)
    requires c < |s.clients| && s.clients[c].pc.WriteId?
    ensures CanRun(s, Repeat(Advance(c), 5)) && Run(s, Repeat(Advance(c), 5)) == WrittenUp(s, c)
  {
    hide TextField, Overwrite, Intended, NextId;
    var a := Advance(c);
    var s1 := Take(s, a);
    var s2 := Take(s1, a);
    var s3 := Take(s2, a);
    var s4 := Take(s3, a);
    var s5 := Take(s4, a);
    assert s5 == WrittenUp(s, c);
    hide Take, CanRun, Run, Repeat, WrittenUp;
    Stay(s5);
    NoneRepeated(a);
    OnceMore(s4, a, 0);
    OnceMore(s3, a, 1);
    OnceMore(s2, a, 2);
    OnceMore(s1, a, 3);
    OnceMore(s, a, 4);
  }

  lemma NoneRepeated(step: Step)
    ensures Repeat(step, 0) == []
  {
  }

  /** The state once client `c` has raised the flag, woken the server and left. */
  ghost function Signalled(s: System, c: nat): System
    requires c < |s.clients|
  {
    s.(clients := s.clients[c := s.clients[c].(pc := Idle)],
       buffer := s.buffer.(hasMessage := true, currentId := s.buffer.id),
       flagged := s.flagged + 1, overwrites := if s.buffer.hasMessage then s.overwrites + 1 else s.overwrites,
       dataReady := s.dataReady + 1, posts := s.posts + 1, mutex := s.mutex + 1)
  }

  lemma Signal(s: System, c: nat)
    requires c < |s.clients| && s.clients[c].pc.SetFlag?
    ensures CanRun(s, Repeat(Advance(c), 4)) && Run(s, Repeat(Advance(c), 4)) == Signalled(s, c)
  {
    var a := Advance(c);
    var s1 := Take(s, a);
    var s2 := Take(s1, a);
    var s3 := Take(s2, a);
    var s4 := Take(s3, a);
    assert s4 == Signalled(s, c);
    hide Take, CanRun, Run, Repeat, Signalled;
    Stay(s4);
    NoneRepeated(a);
    OnceMore(s3, a, 0);
    OnceMore(s2, a, 1);
    OnceMore(s1, a, 2);
    OnceMore(s, a, 3);
  }

  /** One statement of a client concerns no other client. */
  lemma OneStatement(s: System, c: nat)
    requires c < |s.clients| && Left(s.clients[c].pc) > 0
    ensures Enabled(s, Advance(c))
    ensures var t := MoveClient(s, c);
      && |t.clients| == |s.clients| && t.clients == s.clients[c := t.clients[c]]
      && Left(t.clients[c].pc) == Left(s.clients[c].pc) - 1
      && t.buffer.hasMessage == (s.buffer.hasMessage || Left(s.clients[c].pc) == 4)
      && t.overwrites == s.overwrites + (if s.buffer.hasMessage && Left(s.clients[c].pc) == 4 then 1 else 0)
  {
    hide TextField, Overwrite, Intended;
  }

  lemma NoneLeft(pc: ClientPc)
    ensures Left(pc) == 0 <==> pc.Idle?
  {
  }

  /** A client left alone finishes its message; nobody else moves. */
  lemma {:induction false} FinishSend(s: System, c: nat)
    requires c < |s.clients|
    ensures var steps := Repeat(Advance(c), Left(s.clients[c].pc));
      && CanRun(s, steps)
      && var t := Run(s, steps);
         && |t.clients| == |s.clients| && t.clients == s.clients[c := t.clients[c]] && t.clients[c].pc.Idle?
    decreases Left(s.clients[c].pc)
  {
    NoneLeft(s.clients[c].pc);
    hide MoveClient, CanRun, Run, Left;
    if Left(s.clients[c].pc) == 0 {
      Stay(s);
      NoneRepeated(Advance(c));
    } else {
      var t := Take(s, Advance(c));
      OneStatement(s, c);
      FinishSend(t, c);
      OnceMore(s, Advance(c), Left(t.clients[c].pc));
    }
  }

  // ----- a turn of the server

  /** The state once the server has dispatched the pending message and waits again. */
  ghost function Turned(s: System): System
    requires s.dataReady > 0
  {
    s.(dataReady := s.dataReady - 1, wakeUps := s.wakeUps + 1, mutex := s.mutex + 1, iterations := s.iterations + 1,
       dispatched := s.dispatched + [Read(s.buffer)], buffer := s.buffer.(hasMessage := false))
  }

  /** With a message pending, seven moves bring the server back to waiting. */
  lemma FinishTurn(s: System)
    requires s.server == WaitData && s.dataReady > 0 && s.running && s.buffer.hasMessage
    ensures CanRun(s, Repeat(ServerMove, 7)) && Run(s, Repeat(ServerMove, 7)) == Turned(s)
  {
    hide Read;
    var m := ServerMove;
    var s1 := Take(s, m);
    var s2 := Take(s1, m);
    var s3 := Take(s2, m);
    var s4 := Take(s3, m);
    var s5 := Take(s4, m);
    var s6 := Take(s5, m);
    var s7 := Take(s6, m);
    assert s7 == Turned(s);
    hide Take, CanRun, Run, Repeat, Turned;
    Stay(s7);
    NoneRepeated(m);
    OnceMore(s6, m, 0);
    OnceMore(s5, m, 1);
    OnceMore(s4, m, 2);
    OnceMore(s3, m, 3);
    OnceMore(s2, m, 4);
    OnceMore(s1, m, 5);
    OnceMore(s, m, 6);
  }

  // ----- a whole message

  /** One message of client `c`, without waiting for the server. */
  function SendSteps(c: nat, route: seq<byte>, payload: seq<byte>): seq<Step> {
    [Begin(c, route, payload)] + (Repeat(Advance(c), 5) + Repeat(Advance(c), 4))
  }

  ghost function Begun(s: System, c: nat, route: seq<byte>, payload: seq<byte>): System
    requires c < |s.clients| && s.mutex > 0
  {
    s.(mutex := s.mutex - 1,
       clients := s.clients[c := s.clients[c].(pc := WriteId, route := route, payload := payload)])
  }

  ghost function Sent(s: System, c: nat, route: seq<byte>, payload: seq<byte>): System
    requires c < |s.clients| && s.mutex > 0
  {
    Signalled(WrittenUp(Begun(s, c, route, payload), c), c)
  }

  lemma Send(s: System, c: nat, route: seq<byte>, payload: seq<byte>)
    requires c < |s.clients| && s.mutex > 0 && s.clients[c].pc.Idle? && |payload| <= PAYLOAD_ROOM
    ensures CanRun(s, SendSteps(c, route, payload))
    ensures Run(s, SendSteps(c, route, payload)) == Sent(s, c, route, payload)
  {
    hide CanRun, Run, Repeat, WrittenUp, Signalled, TextField, Overwrite;
    var s1 := Begun(s, c, route, payload);
    assert Take(s, Begin(c, route, payload)) == s1;
    WriteUp(s1, c);
    WrittenPc(s1, c);
    Signal(WrittenUp(s1, c), c);
    RunConcat(s1, Repeat(Advance(c), 5), Repeat(Advance(c), 4));
    FirstStep(s, Begin(c, route, payload), Repeat(Advance(c), 5) + Repeat(Advance(c), 4));
  }

  lemma WrittenPc(s: System, c: nat)
    requires c < |s.clients|
    ensures var t := WrittenUp(s, c); |t.clients| == |s.clients| && t.clients[c].pc.SetFlag?
  {
    hide TextField, Overwrite, Intended;
  }

  // ----- letting everything finish

  ghost predicate IdleFrom(clients: seq<Client>, n: nat) {
    forall c :: n <= c < |clients| ==> clients[c].pc.Idle?
  }

  predicate NoStop(steps: seq<Step>) {
    forall i :: 0 <= i < |steps| ==> !IsStop(steps[i])
  }

  /** Every client can finish what it is sending. */
  lemma {:induction false} FinishClients(s: System, n: nat) returns (steps: seq<Step>)
    requires n <= |s.clients| && IdleFrom(s.clients, n)
    ensures CanRun(s, steps) && NoStop(steps) && AllIdle(Run(s, steps).clients)
    decreases n
  {
    if n == 0 {
      steps := [];
    } else {
      hide CanRun, Run, Left;
      FinishSend(s, n - 1);
      var a := Repeat(Advance(n - 1), Left(s.clients[n - 1].pc));
      var b := FinishClients(Run(s, a), n - 1);
      RunConcat(s, a, b);
      steps := a + b;
    }
  }

  function Place(server: ServerPc): nat {
    match server
    case CheckRunning => 7
    case CheckFlag => 6
    case DispatchMessage => 5
    case ClearFlag => 4
    case ReleaseMutex => 3
    case TestLoop => 2
    case WaitData => 1
    case Stopped => 0
  }

  /** The server then works off all wake-ups. */
  lemma {:induction false} FinishServer(s: System) returns (steps: seq<Step>)
    requires s.running && !s.server.Stopped? && AllIdle(s.clients)
    ensures CanRun(s, steps) && NoStop(steps)
    ensures var t := Run(s, steps); AllIdle(t.clients) && t.server == WaitData && t.dataReady == 0
    decreases 8 * s.dataReady + Place(s.server)
  {
    hide Read;
    if s.server == WaitData && s.dataReady == 0 {
      steps := [];
    } else {
      var rest := FinishServer(Take(s, ServerMove));
      FirstStep(s, ServerMove, rest);
      steps := [ServerMove] + rest;
    }
  }

  /** Nobody sends, the server is blocked, nothing is pending. */
  ghost predicate Quiet(s: System) {
    && AllIdle(s.clients) && s.server == WaitData && s.dataReady == 0 && !s.buffer.hasMessage
    && s.running && s.stopping == 0
  }

  /** From wherever it stands, a system that has not been stopped can come to rest. */
  lemma Finish(s: System) returns (steps: seq<Step>)
    requires Alive(s)
    ensures CanRun(s, steps) && NoStop(steps)
    ensures Quiet(Run(s, steps)) && Run(s, steps).overwrites >= s.overwrites
  {
    var a := FinishClients(s, |s.clients|);
    NeverStranded(s, a);
    var u := Run(s, a);
    assert u.running && !u.server.Stopped?;
    hide CanRun, Run, AllIdle;
    var b := FinishServer(u);
    RunConcat(s, a, b);
    steps := a + b;
    NeverStranded(s, steps);
    AliveRuns(Run(s, steps));
  }

  lemma AliveRuns(s: System)
    requires Alive(s)
    ensures s.running && s.stopping == 0
  {
  }

  // ----- the bound on the holders is reached

  /** One whole message and one turn. */
  function RoundSteps(c: nat, route: seq<byte>, payload: seq<byte>): seq<Step> {
    SendSteps(c, route, payload) + Repeat(ServerMove, 7)
  }

  ghost function Round(s: System, c: nat, route: seq<byte>, payload: seq<byte>): System
    requires c < |s.clients| && s.mutex > 0
  {
    Turned(Sent(s, c, route, payload))
  }

  lemma OneRound(s: System, c: nat, route: seq<byte>, payload: seq<byte>)
    requires Quiet(s) && s.mutex > 0 && c < |s.clients| && |payload| <= PAYLOAD_ROOM
    ensures CanRun(s, RoundSteps(c, route, payload))
    ensures Run(s, RoundSteps(c, route, payload)) == Round(s, c, route, payload)
  {
    hide CanRun, Run, Repeat, SendSteps, Turned;
    Send(s, c, route, payload);
    SentWakes(s, c, route, payload);
    hide Sent;
    FinishTurn(Sent(s, c, route, payload));
    RunConcat(s, SendSteps(c, route, payload), Repeat(ServerMove, 7));
  }

  lemma SentWakes(s: System, c: nat, route: seq<byte>, payload: seq<byte>)
    requires Quiet(s) && s.mutex > 0 && c < |s.clients|
    ensures var t := Sent(s, c, route, payload);
      t.server == WaitData && t.dataReady > 0 && t.running && t.buffer.hasMessage
  {
    hide TextField, Overwrite, Intended;
  }

  /** It leaves the system quiet, with one more unit of `mutex` and the message dispatched. */
  lemma RoundFacts(s: System, c: nat, route: seq<byte>, payload: seq<byte>)
    requires Quiet(s) && s.mutex > 0 && c < |s.clients|
    requires |payload| <= PAYLOAD_ROOM == |s.buffer.payload|
    ensures var (t, id) := (Round(s, c, route, payload), NextId(s.clients[c].counter));
      var d := Delivery(id, id, TextField(route, 0), payload);
      && Quiet(t) && t.mutex == s.mutex + 1 && t.iterations == s.iterations + 1 && t.overwrites == s.overwrites
      && |t.clients| == |s.clients| && t.clients == s.clients[c := Client(Idle, route, payload, id)]
      && t.sent == s.sent + [d] && t.dispatched == s.dispatched + [d] && Read(t.buffer) == d
      && |t.buffer.payload| == PAYLOAD_ROOM
  {
    hide TextField;
    assert Overwrite(s.buffer.payload, payload)[..|payload|] == payload;
  }

  lemma {:induction false} Rounds(s: System, k: nat) returns (steps: seq<Step>)
    requires Quiet(s) && s.mutex > 0 && |s.clients| > 0 && |s.buffer.payload| == PAYLOAD_ROOM
    ensures CanRun(s, steps)
    ensures var t := Run(s, steps);
      Quiet(t) && t.mutex == s.mutex + k && t.iterations == s.iterations + k && |t.clients| == |s.clients|
    decreases k
  {
    if k == 0 {
      steps := [];
    } else {
      hide Quiet, CanRun, Run, RoundSteps, Round;
      OneRound(s, 0, [], []);
      RoundFacts(s, 0, [], []);
      var a := RoundSteps(0, [], []);
      var b := Rounds(Run(s, a), k - 1);
      RunConcat(s, a, b);
      steps := a + b;
    }
  }

  /** As many clients enter `send_message` together as `mutex` has units. */
  lemma {:induction false} Enter(s: System, n: nat) returns (steps: seq<Step>)
    requires n <= s.mutex && n <= |s.clients|
    requires AllIdle(s.clients)
    ensures CanRun(s, steps)
    ensures var t := Run(s, steps);
      && t.iterations == s.iterations && t.mutex == s.mutex - n && |t.clients| == |s.clients|
      && Holding(t) == n && forall c :: n <= c < |t.clients| ==> t.clients[c].pc.Idle?
    decreases n
  {
    if n == 0 {
      steps := [];
      CountNone(s.clients, IsHolding, |s.clients|);
    } else {
      hide CanRun, Run, Count;
      var a := Enter(s, n - 1);
      var t := Run(s, a);
      var step := Begin(n - 1, [], []);
      assert Enabled(t, step);
      var u := Take(t, step);
      CountUpdate(t.clients, IsHolding, n - 1, u.clients[n - 1], |t.clients|);
      Stay(u);
      FirstStep(t, step, []);
      RunConcat(s, a, [step] + []);
      steps := a + ([step] + []);
    }
  }

  function Min(a: nat, b: nat): nat {
    if a < b then a else b
  }

  /** After any number `k` of turns, `k + 1` clients can hold `mutex` together, or all of them if there are fewer. */
  lemma BoundReached(s: System, k: nat) returns (steps: seq<Step>)
    requires Initial(s) && |s.clients| > 0
    ensures CanRun(s, steps) && Run(s, steps).iterations == k && Holding(Run(s, steps)) == Min(k + 1, |s.clients|)
  {
    hide CanRun, Run, Count;
    assert Quiet(s);
    var a := Rounds(s, k);
    var b := Enter(Run(s, a), Min(k + 1, |s.clients|));
    RunConcat(s, a, b);
    steps := a + b;
  }

  lemma {:induction false} ClientsStay(s: System, steps: seq<Step>)
    requires CanRun(s, steps)
    ensures |Run(s, steps).clients| == |s.clients|
    decreases |steps|
  {
    if steps != [] {
      ClientsStay(Take(s, steps[0]), steps[1..]);
    }
  }

  /** Some run with `k` completed turns ends with two clients inside. */
  ghost predicate ExclusionFails(s: System, k: nat) {
    exists steps :: CanRun(s, steps) && Run(s, steps).iterations == k && Holding(Run(s, steps)) >= 2
  }

  /** `mutex` excludes exactly as long as the server has completed no turn, or there is one client only. */
  lemma ExclusionFailsIff(s: System, k: nat)
    requires Initial(s)
    ensures ExclusionFails(s, k) <==> k >= 1 && |s.clients| >= 2
  {
    hide CanRun, Run, Initial, Count;
    if k >= 1 && |s.clients| >= 2 {
      var steps := BoundReached(s, k);
    } else if steps :| CanRun(s, steps) && Run(s, steps).iterations == k && Holding(Run(s, steps)) >= 2 {
      HoldersBounded(s, steps);
      ClientsStay(s, steps);
      assert false;
    }
  }
}
