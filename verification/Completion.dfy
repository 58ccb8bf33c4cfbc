/** Whatever is going on in a run in turn, it can be completed in turn: the clients inside finish, the server dispatches
    every message, and the system comes to rest. So the condition of `Discipline` never leads into a dead end. */
module Completion {
  import opened Ipc
  import opened IpcRuns
  import opened Discipline

  /** A run that begins no further message. */
  predicate NoBegin(steps: seq<Step>) {
    forall i :: 0 <= i < |steps| ==> !steps[i].Begin?
  }

  /** Statements left to the first `n` clients together. */
  ghost function LeftSum(clients: seq<Client>, n: nat): nat
    requires n <= |clients|
  {
    if n == 0 then 0 else LeftSum(clients, n - 1) + Left(clients[n - 1].pc)
  }

  lemma {:induction false} LeftSumUpdate(clients: seq<Client>, c: nat, p: Client, n: nat)
    requires c < |clients| && n <= |clients|
    ensures LeftSum(clients[c := p], n)
         == LeftSum(clients, n) + (if c < n then Left(p.pc) - Left(clients[c].pc) else 0)
    decreases n
  {
    hide Left;
    if n > 0 {
      LeftSumUpdate(clients, c, p, n - 1);
    }
  }

  ghost function Remaining(s: System): nat {
    9 * LeftSum(s.clients, |s.clients|) + 8 * s.dataReady + Place(s.server)
  }

  /** The next step towards rest: the server's if it is not blocked, otherwise that of a client inside. */
  lemma NextStep(s: System) returns (step: Step)
    requires Lawful(s) && !Quiet(s)
    ensures Enabled(s, step) && InTurn(s, step) && !step.Begin?
  {
    hide Means, Written, Fitting;
    if Enabled(s, ServerMove) {
      step := ServerMove;
    } else if c :| Writing(s, c) {
      step := Advance(c);
    } else {
      assert Free(s) && !s.buffer.hasMessage;
      assert !AllIdle(s.clients);
      var c :| 0 <= c < |s.clients| && !s.clients[c].pc.Idle?;
      step := Advance(c);
    }
  }

  lemma StepsOn(s: System, step: Step)
    requires Lawful(s) && InTurn(s, step) && !step.Begin?
    ensures Remaining(Take(s, step)) < Remaining(s)
  {
    match step
    case Advance(c) =>
      var t := MoveClient(s, c);
      NoneLeft(s.clients[c].pc);
      OneStatement(s, c);
      LeftSumUpdate(s.clients, c, t.clients[c], |s.clients|);
      PostsOnce(s, c);
      hide MoveClient, Lawful, LeftSum, Left;
    case ServerMove =>
      hide LeftSum, Read, Written, Means, Fitting;
    case _ => assert false;
  }

  lemma PostsOnce(s: System, c: nat)
    requires c < |s.clients|
    ensures MoveClient(s, c).dataReady <= s.dataReady + 1 && MoveClient(s, c).server == s.server
  {
    hide Intended;
  }

  lemma {:induction false} Complete(s: System) returns (steps: seq<Step>)
    requires Lawful(s)
    ensures RunInTurn(s, steps) && NoBegin(steps) && Quiet(Run(s, steps)) && Lawful(Run(s, steps))
    decreases Remaining(s)
  {
    hide Lawful, Quiet, InTurn, Take, Enabled, Remaining;
    if Quiet(s) {
      steps := [];
    } else {
      var step := NextStep(s);
      StepsOn(s, step);
      StepLawful(s, step);
      var rest := Complete(Take(s, step));
      FirstStep(s, step, rest);
      FirstInTurn(s, step, rest);
      steps := [step] + rest;
    }
  }

  lemma FirstInTurn(s: System, step: Step, rest: seq<Step>)
    requires InTurn(s, step) && RunInTurn(Take(s, step), rest)
    ensures RunInTurn(s, [step] + rest)
  {
    hide Take, Enabled;
    assert ([step] + rest)[1..] == rest;
  }
}
