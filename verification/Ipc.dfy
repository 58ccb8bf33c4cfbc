/** The shared-memory protocol of client_test.cpp and cache_server.cpp as a step system: any number of clients and one
    server, interleaved statement by statement, the semaphores as counters.

    As written, a client gives `mutex` back at the end of `send_message`, and the server posts it once more after
    every message. The results here hold in every interleaving. */
module Ipc {
  import opened Words
  import opened Messages

  /** Where a client is in `send_message`; each value names the next statement. */
  datatype ClientPc =
    | Idle
    | WriteId | WriteRoute | WriteSize | WritePayload
    | WriteMessageSize | SetFlag | SetCurrentId
    | PostDataReady | PostMutex

  /** A client process: its position, its arguments, and the counter of `generate_message_id`. */
  datatype Client = Client(pc: ClientPc, route: seq<byte>, payload: seq<byte>, counter: uint32)

  /** Where the server is in `run`. */
  datatype ServerPc =
    | WaitData | CheckRunning | CheckFlag | DispatchMessage | ClearFlag | ReleaseMutex | TestLoop | Stopped

  /** The request half of the shared segment. */
  datatype Buffer = Buffer(id: uint32, route: seq<byte>, size: uint32, payload: seq<byte>,
                           messageSize: nat, hasMessage: bool, currentId: uint32)

  /** What a dispatch reads. */
  datatype Delivery = Delivery(id: uint32, currentId: uint32, route: seq<byte>, payload: seq<byte>)

  /** The system, with the history of what was sent, in the order of taking ids, of what was dispatched, and of how
      often each semaphore was used. */
  datatype System = System(
    mutex: nat, dataReady: nat, buffer: Buffer, clients: seq<Client>, server: ServerPc, running: bool, stopping: nat,
    sent: seq<Delivery>, dispatched: seq<Delivery>, posts: nat, wakeUps: nat, iterations: nat,
    flagged: nat, overwrites: nat)  // how often `has_message` was set, and how often it was set already

  const PAYLOAD_ROOM: nat := MAX_MESSAGE_SIZE - MESSAGE_HEADER

  datatype Step =
    | Begin(client: nat, routeHash: seq<byte>, payload: seq<byte>)  // `sem_wait(&mutex)` succeeds
    | Advance(client: nat)                                         // the client's next statement
    | ServerMove                                                   // the server's next statement
    | StopFlag | StopPost                                          // the two statements of `stop`

  // ----- one step

  ghost predicate Enabled(s: System, step: Step) {
    match step
    case Begin(c, _, payload) =>
      c < |s.clients| && s.clients[c].pc.Idle? && s.mutex > 0 && |payload| <= PAYLOAD_ROOM
    case Advance(c) => c < |s.clients| && !s.clients[c].pc.Idle?
    case ServerMove => (s.server.WaitData? && s.dataReady > 0) || !(s.server in {WaitData, Stopped})
    case StopFlag => true
    case StopPost => s.stopping > 0
  }

  function NextId(counter: uint32): uint32 {
    Add32(counter, 1)
  }

  /** `memcpy` into the payload area: what lies behind the copy stays. */
  function Overwrite(old_: seq<byte>, data: seq<byte>): seq<byte> {
    if |data| <= |old_| then data + old_[|data|..] else data
  }

  /** A message in full, as the client means it when it takes the id. */
  function Intended(p: Client): Delivery {
    Delivery(NextId(p.counter), NextId(p.counter), TextField(p.route, 0), p.payload)
  }

  function MoveClient(s: System, c: nat): System
    requires c < |s.clients|
  {
    var p := s.clients[c];
    match p.pc
    case Idle => s
    case WriteId =>
      s.(clients := s.clients[c := p.(pc := WriteRoute, counter := NextId(p.counter))],
         buffer := s.buffer.(id := NextId(p.counter)), sent := s.sent + [Intended(p)])
    case WriteRoute =>
      s.(clients := s.clients[c := p.(pc := WriteSize)], buffer := s.buffer.(route := TextField(p.route, 0)))
    case WriteSize =>
      s.(clients := s.clients[c := p.(pc := WritePayload)], buffer := s.buffer.(size := |p.payload| % 0x1_0000_0000))
    case WritePayload =>
      s.(clients := s.clients[c := p.(pc := WriteMessageSize)],
         buffer := s.buffer.(payload := Overwrite(s.buffer.payload, p.payload)))
    case WriteMessageSize =>
      s.(clients := s.clients[c := p.(pc := SetFlag)], buffer := s.buffer.(messageSize := MESSAGE_HEADER + |p.payload|))
    case SetFlag =>
      s.(clients := s.clients[c := p.(pc := SetCurrentId)], buffer := s.buffer.(hasMessage := true),
         flagged := s.flagged + 1, overwrites := if s.buffer.hasMessage then s.overwrites + 1 else s.overwrites)
    case SetCurrentId =>
      s.(clients := s.clients[c := p.(pc := PostDataReady)], buffer := s.buffer.(currentId := s.buffer.id))
    case PostDataReady =>
      s.(clients := s.clients[c := p.(pc := PostMutex)], dataReady := s.dataReady + 1, posts := s.posts + 1)
    case PostMutex => s.(clients := s.clients[c := p.(pc := Idle)], mutex := s.mutex + 1)
  }

  /** What the server takes from the buffer. */
  function Read(b: Buffer): Delivery {
    Delivery(b.id, b.currentId, b.route, if b.size <= |b.payload| then b.payload[..b.size] else b.payload)
  }

  function MoveServer(s: System): System {
    match s.server
    case WaitData =>
      if s.dataReady > 0 then s.(server := CheckRunning, dataReady := s.dataReady - 1, wakeUps := s.wakeUps + 1) else s
    case CheckRunning => if s.running then s.(server := CheckFlag) else s.(server := Stopped)
    case CheckFlag => if s.buffer.hasMessage then s.(server := DispatchMessage) else s.(server := ReleaseMutex)
    case DispatchMessage => s.(server := ClearFlag, dispatched := s.dispatched + [Read(s.buffer)])
    case ClearFlag => s.(server := ReleaseMutex, buffer := s.buffer.(hasMessage := false))
    case ReleaseMutex => s.(server := TestLoop, mutex := s.mutex + 1, iterations := s.iterations + 1)
    case TestLoop => s.(server := if s.running then WaitData else Stopped)
    case Stopped => s
  }

  ghost function Take(s: System, step: Step): System
    requires Enabled(s, step)
  {
    match step
    case Begin(c, routeHash, payload) =>
      s.(mutex := s.mutex - 1,
         clients := s.clients[c := s.clients[c].(pc := WriteId, route := routeHash, payload := payload)])
    case Advance(c) => MoveClient(s, c)
    case ServerMove => MoveServer(s)
    case StopFlag => s.(running := false, stopping := s.stopping + 1)
    case StopPost => s.(dataReady := s.dataReady + 1, posts := s.posts + 1, stopping := s.stopping - 1)
  }

  /** A client gets past the size check of `send_message` and the semaphore exactly with at most 20216 bytes, when it is
      idle and `mutex` is up. */
  lemma BeginIff(s: System, c: nat, routeHash: seq<byte>, payload: seq<byte>)
    ensures Enabled(s, Begin(c, routeHash, payload))
        <==> c < |s.clients| && s.clients[c].pc.Idle? && s.mutex > 0 && |payload| <= 20216
  {
  }

  // ----- runs

  /** After `create_shared_memory` and the first lines of `run`, with clients that have sent nothing. */
  ghost predicate Initial(s: System) {
    && s.mutex == 1 && s.dataReady == 0 && !s.buffer.hasMessage && |s.buffer.payload| == PAYLOAD_ROOM
    && (forall c :: 0 <= c < |s.clients| ==> s.clients[c].pc.Idle?)
    && s.server == WaitData && s.running && s.stopping == 0
    && s.sent == [] && s.dispatched == [] && s.posts == s.wakeUps == s.iterations == s.flagged == s.overwrites == 0
  }

  ghost predicate CanRun(s: System, steps: seq<Step>)
    decreases |steps|
  {
    steps != [] ==> Enabled(s, steps[0]) && CanRun(Take(s, steps[0]), steps[1..])
  }

  ghost function Run(s: System, steps: seq<Step>): System
    requires CanRun(s, steps)
    decreases |steps|
  {
    if steps == [] then s else Run(Take(s, steps[0]), steps[1..])
  }

  lemma {:induction false} RunConcat(s: System, a: seq<Step>, b: seq<Step>)
    requires CanRun(s, a) && CanRun(Run(s, a), b)
    ensures CanRun(s, a + b) && Run(s, a + b) == Run(Run(s, a), b)
    decreases |a|
  {
    hide Take, Enabled;
    if a == [] {
      assert a + b == b;
    } else {
      assert (a + b)[1..] == a[1..] + b;
      RunConcat(Take(s, a[0]), a[1..], b);
    }
  }

  /** Statements left in `send_message`. */
  function Left(pc: ClientPc): nat {
    match pc
    case Idle => 0
    case PostMutex => 1
    case PostDataReady => 2
    case SetCurrentId => 3
    case SetFlag => 4
    case WriteMessageSize => 5
    case WritePayload => 6
    case WriteSize => 7
    case WriteRoute => 8
    case WriteId => 9
  }

  // ----- what every interleaving keeps

  /** Clients whose position satisfies `f`, among the first `n`. */
  ghost function Count(clients: seq<Client>, f: ClientPc -> bool, n: nat): (h: nat)
    requires n <= |clients|
    ensures h <= n
  {
    if n == 0 then 0 else Count(clients, f, n - 1) + (if f(clients[n - 1].pc) then 1 else 0)
  }

  /** Between `sem_wait(&mutex)` and `sem_post(&mutex)`. */
  predicate IsHolding(pc: ClientPc) {
    !pc.Idle?
  }

  /** The message has its id, and `has_message` is not yet set for it. */
  predicate IsUnflagged(pc: ClientPc) {
    4 <= Left(pc) <= 8
  }

  ghost function Holding(s: System): nat {
    Count(s.clients, IsHolding, |s.clients|)
  }

  ghost function Unflagged(s: System): nat {
    Count(s.clients, IsUnflagged, |s.clients|)
  }

  lemma {:induction false} CountUpdate(clients: seq<Client>, f: ClientPc -> bool, c: nat, p: Client, n: nat)
    requires c < |clients| && n <= |clients|
    ensures Count(clients[c := p], f, n) - Count(clients, f, n)
         == if c < n then (if f(p.pc) then 1 else 0) - (if f(clients[c].pc) then 1 else 0) else 0
    decreases n
  {
    if n > 0 {
      CountUpdate(clients, f, c, p, n - 1);
    }
  }

  lemma {:induction false} CountNone(clients: seq<Client>, f: ClientPc -> bool, n: nat)
    requires n <= |clients| && forall c :: 0 <= c < |clients| ==> !f(clients[c].pc)
    ensures Count(clients, f, n) == 0
  {
    if n > 0 {
      CountNone(clients, f, n - 1);
    }
  }

  /** Server turns that have begun and not yet given `mutex` back. */
  ghost function Busy(s: System): nat {
    if s.server in {CheckRunning, CheckFlag, DispatchMessage, ClearFlag, ReleaseMutex} then 1 else 0
  }

  ghost predicate Ledger(s: System) {
    && s.mutex + Holding(s) == 1 + s.iterations
    && s.dataReady + s.wakeUps == s.posts
    && s.iterations + Busy(s) <= s.wakeUps
    && |s.dispatched| + (if s.server in {CheckRunning, CheckFlag, DispatchMessage} then 1 else 0) <= s.wakeUps
  }

  /** Every message is still to be flagged, or was flagged; every flag raised is pending, was dispatched, or was
      raised over another. */
  ghost predicate FlagLedger(s: System) {
    && |s.sent| == s.flagged + Unflagged(s)
    && (s.server in {DispatchMessage, ClearFlag} ==> s.buffer.hasMessage)
    && s.flagged + (if s.server.ClearFlag? then 1 else 0)
       == |s.dispatched| + (if s.buffer.hasMessage then 1 else 0) + s.overwrites
  }

  lemma InitialLedger(s: System)
    requires Initial(s)
    ensures Ledger(s) && FlagLedger(s)
  {
    CountNone(s.clients, IsHolding, |s.clients|);
    CountNone(s.clients, IsUnflagged, |s.clients|);
  }

  lemma ClientLedger(s: System, step: Step)
    requires Ledger(s) && Enabled(s, step) && (step.Begin? || step.Advance?)
    ensures Ledger(Take(s, step))
  {
    hide Count, TextField, Overwrite, Intended;
    var t := Take(s, step);
    CountUpdate(s.clients, IsHolding, step.client, t.clients[step.client], |s.clients|);
    assert t.clients == s.clients[step.client := t.clients[step.client]];
  }

  lemma ClientFlagLedger(s: System, step: Step)
    requires FlagLedger(s) && Enabled(s, step) && (step.Begin? || step.Advance?)
    ensures FlagLedger(Take(s, step))
  {
    hide Count, TextField, Overwrite, Intended;
    var t := Take(s, step);
    CountUpdate(s.clients, IsUnflagged, step.client, t.clients[step.client], |s.clients|);
    assert t.clients == s.clients[step.client := t.clients[step.client]];
  }

  lemma StepLedger(s: System, step: Step)
    requires Ledger(s) && FlagLedger(s) && Enabled(s, step)
    ensures Ledger(Take(s, step)) && FlagLedger(Take(s, step))
  {
    hide Count;
    match step
    case Begin(_, _, _) => hide Ledger, FlagLedger, Take; ClientLedger(s, step); ClientFlagLedger(s, step);
    case Advance(_) => hide Ledger, FlagLedger, Take; ClientLedger(s, step); ClientFlagLedger(s, step);
    case ServerMove =>
    case StopFlag =>
    case StopPost =>
  }

  /** In every run, `mutex` plus the clients holding it is one more than the server's completed turns; a turn needs a
      wake-up, a wake-up a post, and no wake-up dispatches twice. */
  lemma {:induction false} LedgerAlways(s: System, steps: seq<Step>)
    requires Ledger(s) && FlagLedger(s) && CanRun(s, steps)
    ensures Ledger(Run(s, steps)) && FlagLedger(Run(s, steps))
    decreases |steps|
  {
    hide Ledger, FlagLedger, Take, Enabled;
    if steps != [] {
      StepLedger(s, steps[0]);
      LedgerAlways(Take(s, steps[0]), steps[1..]);
    }
  }

  /** Exclusion is exact until the server completes its first turn, and weakens by one client with every turn. */
  lemma HoldersBounded(s: System, steps: seq<Step>)
    requires Initial(s) && CanRun(s, steps)
    ensures Holding(Run(s, steps)) <= 1 + Run(s, steps).iterations
    ensures Run(s, steps).iterations == 0 ==> Holding(Run(s, steps)) <= 1
    ensures |Run(s, steps).dispatched| <= Run(s, steps).wakeUps <= Run(s, steps).posts
  {
    InitialLedger(s);
    LedgerAlways(s, steps);
  }

  /** Nobody is sending. */
  ghost predicate AllIdle(clients: seq<Client>) {
    forall c :: 0 <= c < |clients| ==> clients[c].pc.Idle?
  }

  /** In every interleaving, once nobody sends and nothing is pending, there are fewer dispatches than messages by
      exactly the number of times `has_message` was set while it was set already. This counts, it does not compare:
      with equal numbers one message may still have been dispatched twice and another never
      (`Races.DispatchedTwice`). */
  lemma DispatchCount(s: System, steps: seq<Step>)
    requires Initial(s) && CanRun(s, steps)
    requires var t := Run(s, steps); AllIdle(t.clients) && !t.buffer.hasMessage
    ensures var t := Run(s, steps); |t.dispatched| + t.overwrites == |t.sent|
  {
    InitialLedger(s);
    LedgerAlways(s, steps);
    var t := Run(s, steps);
    CountNone(t.clients, IsUnflagged, |t.clients|);
  }

  // ----- a flagged message is never stranded

  /** Somebody will still look at the flag. */
  ghost predicate Attended(s: System) {
    || s.dataReady > 0
    || s.server in {CheckRunning, CheckFlag, DispatchMessage, ClearFlag}
    || exists c :: 0 <= c < |s.clients| && 2 <= Left(s.clients[c].pc) <= 3
  }

  predicate IsStop(step: Step) {
    step.StopFlag? || step.StopPost?
  }

  /** The server has not been stopped, and a pending message has someone to attend to it. */
  ghost predicate Alive(s: System) {
    s.running && s.stopping == 0 && !s.server.Stopped? && (s.buffer.hasMessage ==> Attended(s))
  }

  /** While one of the two statements is left, somebody will attend; executing the last one wakes the server. */
  lemma SenderAttends(s: System, c: nat)
    requires c < |s.clients| && Attended(s) && !s.clients[c].pc.Idle?
    ensures Attended(MoveClient(s, c))
  {
    hide TextField, Overwrite;
    var t := MoveClient(s, c);
    if k :| 0 <= k < |s.clients| && 2 <= Left(s.clients[k].pc) <= 3 {
      assert k != c ==> t.clients[k] == s.clients[k];
      assert 2 <= Left(t.clients[k].pc) <= 3 || t.dataReady > 0;
    }
  }

  lemma ClientAlive(s: System, c: nat)
    requires Alive(s) && c < |s.clients| && !s.clients[c].pc.Idle?
    ensures Alive(MoveClient(s, c)) && |MoveClient(s, c).clients| == |s.clients|
    ensures MoveClient(s, c).overwrites >= s.overwrites
  {
    hide TextField, Overwrite, Attended;
    if s.buffer.hasMessage {
      SenderAttends(s, c);
    } else if s.clients[c].pc.SetFlag? {
      var t := MoveClient(s, c);
      assert Left(t.clients[c].pc) == 3;
      SetterAttends(t, c);
    }
  }

  lemma SetterAttends(s: System, c: nat)
    requires c < |s.clients| && Left(s.clients[c].pc) == 3
    ensures Attended(s)
  {
  }

  lemma BeginAlive(s: System, step: Step)
    requires Alive(s) && Enabled(s, step) && step.Begin?
    ensures Alive(Take(s, step)) && |Take(s, step).clients| == |s.clients|
    ensures Take(s, step).overwrites >= s.overwrites
  {
    var t := Take(s, step);
    if k :| 0 <= k < |s.clients| && 2 <= Left(s.clients[k].pc) <= 3 {
      assert t.clients[k] == s.clients[k];
    }
  }

  lemma StepAlive(s: System, step: Step)
    requires Alive(s) && Enabled(s, step) && !IsStop(step)
    ensures Alive(Take(s, step)) && |Take(s, step).clients| == |s.clients|
    ensures Take(s, step).overwrites >= s.overwrites
  {
    hide Left, Read;
    match step
    case Begin(_, _, _) => hide Take, Alive, Enabled; BeginAlive(s, step);
    case Advance(c) => hide MoveClient, Alive; ClientAlive(s, c);
    case ServerMove =>
    case _ => assert false;
  }

  /** As long as nobody calls `stop`: when nobody sends and the server is blocked, nothing is pending. */
  lemma {:induction false} NeverStranded(s: System, steps: seq<Step>)
    requires Alive(s) && CanRun(s, steps) && forall i :: 0 <= i < |steps| ==> !IsStop(steps[i])
    ensures var t := Run(s, steps);
      && Alive(t) && |t.clients| == |s.clients| && t.overwrites >= s.overwrites
      && (AllIdle(t.clients) && t.server == WaitData && t.dataReady == 0 ==> !t.buffer.hasMessage)
    decreases |steps|
  {
    hide Alive, Take, Enabled;
    if steps == [] {
      BlockedIsClear(s);
    } else {
      StepAlive(s, steps[0]);
      NeverStranded(Take(s, steps[0]), steps[1..]);
    }
  }

  lemma BlockedIsClear(s: System)
    requires Alive(s)
    ensures AllIdle(s.clients) && s.server == WaitData && s.dataReady == 0 ==> !s.buffer.hasMessage
  {
  }

  // ----- ids

  predicate TakesId(s: System, step: Step, c: nat) {
    step == Advance(c) && c < |s.clients| && s.clients[c].pc.WriteId?
  }

  /** How many ids client `c` takes in a run. */
  ghost function IdsTaken(s: System, steps: seq<Step>, c: nat): nat
    requires CanRun(s, steps)
    decreases |steps|
  {
    if steps == [] then 0
    else (if TakesId(s, steps[0], c) then 1 else 0) + IdsTaken(Take(s, steps[0]), steps[1..], c)
  }

  lemma StepCounter(s: System, step: Step, c: nat)
    requires Enabled(s, step) && c < |s.clients|
    ensures var t := Take(s, step);
      && |t.clients| == |s.clients|
      && t.clients[c].counter
         == (if TakesId(s, step, c) then (s.clients[c].counter + 1) % 0x1_0000_0000 else s.clients[c].counter)
      && (TakesId(s, step, c) ==>
            t.buffer.id == t.clients[c].counter && |t.sent| == |s.sent| + 1
            && t.sent[|s.sent|].id == t.sent[|s.sent|].currentId == t.clients[c].counter)
  {
    hide TextField, Overwrite;
  }

  /** In every interleaving a client counts its own messages modulo 2^32, whatever the others do; the number reached is
      the id of the message it takes it for. */
  lemma {:induction false} CounterCounts(s: System, steps: seq<Step>, c: nat)
    requires CanRun(s, steps) && c < |s.clients|
    ensures var t := Run(s, steps);
      && |t.clients| == |s.clients|
      && t.clients[c].counter == (s.clients[c].counter + IdsTaken(s, steps, c)) % 0x1_0000_0000
    decreases |steps|
  {
    hide Take, Enabled;
    if steps != [] {
      StepCounter(s, steps[0], c);
      CounterCounts(Take(s, steps[0]), steps[1..], c);
    }
  }
}
