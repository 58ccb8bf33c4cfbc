/** What `stop` does in the protocol of `Ipc`, in every interleaving with clients and server: once its flag is cleared
    at most the turn in progress dispatches, and once it has posted `data_ready` the server comes to its end. */
module Shutdown {
  import opened Ipc
  import opened IpcRuns

  /** Dispatches still possible after the flag is cleared. */
  function LastDispatches(pc: ServerPc): nat {
    if pc in {CheckFlag, DispatchMessage} then 1 else 0
  }

  lemma StepAfterFlag(s: System, step: Step)
    requires !s.running && Enabled(s, step)
    ensures var t := Take(s, step);
      && !t.running && s.dispatched <= t.dispatched
      && |t.dispatched| + LastDispatches(t.server) <= |s.dispatched| + LastDispatches(s.server)
      && (s.server.Stopped? ==> t.server.Stopped?)
  {
    hide Read, Overwrite, Intended;
  }

  lemma {:induction false} RunAfterFlag(s: System, steps: seq<Step>)
    requires !s.running && CanRun(s, steps)
    ensures var t := Run(s, steps);
      && !t.running && s.dispatched <= t.dispatched
      && |t.dispatched| + LastDispatches(t.server) <= |s.dispatched| + LastDispatches(s.server)
      && (s.server.Stopped? ==> t.server.Stopped?)
    decreases |steps|
  {
    hide Take, Enabled, LastDispatches;
    if steps != [] {
      StepAfterFlag(s, steps[0]);
      RunAfterFlag(Take(s, steps[0]), steps[1..]);
    }
  }

  /** Whatever happens after the flag is cleared, in whatever state: nothing is dispatched any more, but for the one
      message of a turn that had passed its test already. */
  lemma StopIsSafe(s: System, after: seq<Step>)
    requires CanRun(s, [StopFlag] + after)
    ensures var t := Run(s, [StopFlag] + after);
      && !t.running
      && (t.dispatched == s.dispatched
          || (s.server in {CheckFlag, DispatchMessage} && |t.dispatched| == |s.dispatched| + 1
              && s.dispatched == t.dispatched[..|s.dispatched|]))
  {
    assert ([StopFlag] + after)[1..] == after;
    RunAfterFlag(Take(s, StopFlag), after);
  }

  // ----- nothing else stops the server

  lemma StepKeepsRunning(s: System, step: Step)
    requires Enabled(s, step) && (s.server.Stopped? ==> !s.running)
    ensures var t := Take(s, step);
      (t.running <==> s.running && step != StopFlag) && (t.server.Stopped? ==> !t.running)
  {
    hide Read, Overwrite, Intended;
  }

  /** Over every run: the server has been told to stop exactly if `StopFlag` is among the steps, and it has stopped only
      if it has been told to. */
  lemma {:induction false} RunningIff(s: System, steps: seq<Step>)
    requires CanRun(s, steps) && (s.server.Stopped? ==> !s.running)
    ensures var t := Run(s, steps);
      (t.running <==> s.running && StopFlag !in steps) && (t.server.Stopped? ==> !t.running)
    decreases |steps|
  {
    hide Take, Enabled;
    if steps != [] {
      StepKeepsRunning(s, steps[0]);
      RunningIff(Take(s, steps[0]), steps[1..]);
      assert steps == [steps[0]] + steps[1..];
    }
  }

  // ----- the server comes to its end

  /** Moves left, at most, once the flag is cleared. */
  function MovesLeft(pc: ServerPc): nat {
    match pc
    case CheckFlag => 5
    case DispatchMessage => 4
    case ClearFlag => 3
    case ReleaseMutex => 2
    case TestLoop => 1
    case WaitData => 2
    case CheckRunning => 1
    case Stopped => 0
  }

  /** The flag is cleared, and the server does not wait in vain. */
  ghost predicate Ending(s: System) {
    !s.running && (s.server.WaitData? ==> s.dataReady > 0)
  }

  function Moves(steps: seq<Step>): nat {
    if steps == [] then 0 else (if steps[0].ServerMove? then 1 else 0) + Moves(steps[1..])
  }

  lemma StepEnding(s: System, step: Step)
    requires Ending(s) && Enabled(s, step)
    ensures var t := Take(s, step);
      Ending(t) && MovesLeft(t.server) + (if step.ServerMove? then 1 else 0) <= MovesLeft(s.server)
  {
    hide Read, Overwrite, Intended;
  }

  lemma {:induction false} RunEnding(s: System, steps: seq<Step>)
    requires Ending(s) && CanRun(s, steps)
    ensures Ending(Run(s, steps)) && MovesLeft(Run(s, steps).server) + Moves(steps) <= MovesLeft(s.server)
    decreases |steps|
  {
    hide Take, Enabled, Ending, MovesLeft;
    if steps != [] {
      StepEnding(s, steps[0]);
      RunEnding(Take(s, steps[0]), steps[1..]);
    }
  }

  /** Once both statements of `stop` have been executed, with anything before, in between and afterwards: the server
      makes at most five more moves, and until it has ended its next move is possible. */
  lemma StopEnds(s: System, between: seq<Step>, after: seq<Step>)
    requires CanRun(s, [StopFlag] + between + [StopPost] + after)
    ensures Moves(after) <= 5
    ensures var t := Run(s, [StopFlag] + between + [StopPost] + after);
      && (t.server.Stopped? || Enabled(t, ServerMove))
      && (Moves(after) == 5 ==> t.server.Stopped?)
  {
    var u := AtPost(s, between, after);
    hide Take, CanRun, Run;
    RunEnding(Take(u, StopPost), after);
  }

  /** The state in which the second statement is executed. */
  lemma AtPost(s: System, between: seq<Step>, after: seq<Step>) returns (u: System)
    requires CanRun(s, [StopFlag] + between + [StopPost] + after)
    ensures Enabled(u, StopPost) && Ending(Take(u, StopPost)) && CanRun(Take(u, StopPost), after)
    ensures Run(s, [StopFlag] + between + [StopPost] + after) == Run(Take(u, StopPost), after)
  {
    assert [StopFlag] + between + [StopPost] + after == [StopFlag] + (between + ([StopPost] + after));
    assert ([StopFlag] + (between + ([StopPost] + after)))[1..] == between + ([StopPost] + after);
    var r := Take(s, StopFlag);
    RunSplit(r, between, [StopPost] + after);
    RunAfterFlag(r, between);
    u := Run(r, between);
    assert ([StopPost] + after)[1..] == after;
  }

  lemma {:induction false} RunSplit(s: System, a: seq<Step>, b: seq<Step>)
    requires CanRun(s, a + b)
    ensures CanRun(s, a) && CanRun(Run(s, a), b) && Run(s, a + b) == Run(Run(s, a), b)
    decreases |a|
  {
    hide Take, Enabled;
    if a == [] {
      assert a + b == b;
    } else {
      assert (a + b)[1..] == a[1..] + b;
      RunSplit(Take(s, a[0]), a[1..], b);
    }
  }

  /** And left to itself it does come to its end. */
  lemma {:induction false} ServerEnds(s: System) returns (n: nat)
    requires Ending(s)
    ensures n <= MovesLeft(s.server) <= 5
    ensures CanRun(s, Repeat(ServerMove, n)) && Run(s, Repeat(ServerMove, n)).server.Stopped?
    decreases MovesLeft(s.server)
  {
    if s.server.Stopped? {
      n := 0;
      Stay(s);
    } else {
      assert Enabled(s, ServerMove);
      StepEnding(s, ServerMove);
      hide Take, Enabled, Ending, Repeat;
      var k := ServerEnds(Take(s, ServerMove));
      OnceMore(s, ServerMove, k);
      n := k + 1;
    }
  }
}
