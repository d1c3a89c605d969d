/**
 * The pacing rules of `ClientInterfacer` in lib/client_interfacer.py, stated
 * on values: the bounds on how many sent commands are still pending, the
 * queue pump with its "stay" no-op rule, and what a "watch comc"
 * acknowledgement removes from the pending commands.
 *
 * `Pump` is the pump as it is evidently meant to behave; `PumpAsWritten`
 * follows the source line by line, including its stale local lower bound.
 */
module Pacing {
  import opened Wrappers
  import opened Commands

  function Max(a: int, b: int): int {
    if a >= b then a else b
  }

  /**
   * The number of pending commands at the front that get no "comc": no
   * acknowledgement will tell whether they have resolved.
   */
  function LeadingUncertain(pending: seq<Command>): (n: nat)
    ensures n <= |pending|
    ensures forall i :: 0 <= i < n ==> !pending[i].GetsComc()
    ensures n < |pending| ==> pending[n].GetsComc()
  {
    if pending == [] || pending[0].GetsComc() then 0
    else
      var m := LeadingUncertain(pending[1..]);
      assert forall i :: 1 <= i < m + 1 ==> pending[i] == pending[1..][i - 1];
      m + 1
  }

  /** Whether some pending command will be acknowledged. */
  predicate AnyGetsComc(pending: seq<Command>) {
    exists i :: 0 <= i < |pending| && pending[i].GetsComc()
  }

  /** `_boundPendingCommandsLow`: the fewest commands that can still be pending. */
  function LowBound(pending: seq<Command>): (r: nat)
    ensures r <= |pending|
  {
    |pending| - LeadingUncertain(pending)
  }

  /** `_boundPendingCommandsHigh`: the most commands that can still be pending. */
  function HighBound(pending: seq<Command>): (r: nat)
    ensures r == |pending| && LowBound(pending) <= r
  {
    |pending|
  }

  /** The lower bound is zero exactly when no pending command gets a "comc". */
  lemma LowBoundZeroIff(pending: seq<Command>)
    ensures LowBound(pending) == 0 <==> !AnyGetsComc(pending)
  {
    var n := LeadingUncertain(pending);
    if n < |pending| {
      assert pending[n].GetsComc();
    }
  }

  lemma {:induction false} LeadingUncertainAppend(pending: seq<Command>, c: Command)
    ensures LeadingUncertain(pending + [c])
         == if LeadingUncertain(pending) < |pending| then LeadingUncertain(pending)
            else if c.GetsComc() then |pending| else |pending| + 1
  {
    if pending != [] {
      assert (pending + [c])[0] == pending[0];
      assert (pending + [c])[1..] == pending[1..] + [c];
      LeadingUncertainAppend(pending[1..], c);
    }
  }

  /** How sending one more command moves the lower bound. */
  lemma LowBoundAppend(pending: seq<Command>, c: Command)
    ensures LowBound(pending + [c])
         == if AnyGetsComc(pending) then LowBound(pending) + 1
            else if c.GetsComc() then 1 else 0
  {
    LeadingUncertainAppend(pending, c);
    LowBoundZeroIff(pending);
  }

  /** Sending a command never lowers the lower bound. */
  lemma LowBoundGrows(pending: seq<Command>, c: Command)
    ensures LowBound(pending) <= LowBound(pending + [c])
    ensures c.GetsComc() ==> AnyGetsComc(pending + [c])
    ensures AnyGetsComc(pending) ==> AnyGetsComc(pending + [c])
  {
    LowBoundAppend(pending, c);
    LowBoundZeroIff(pending);
    if c.GetsComc() {
      assert (pending + [c])[|pending|] == c;
    }
    if AnyGetsComc(pending) {
      var i :| 0 <= i < |pending| && pending[i].GetsComc();
      assert (pending + [c])[i] == pending[i];
    }
  }

  /**
   * `_canWaitOnPendingCommands`: waiting for an acknowledgement cannot hang,
   * because nothing is pending or something pending will be acknowledged.
   */
  predicate CanWait(pending: seq<Command>) {
    pending == [] || AnyGetsComc(pending)
  }

  /** The longest run of unacknowledged commands the pump sends on its own. */
  function MaxConsecutiveNonComc(target: int): (r: int)
    ensures r >= 1 && r >= target - 1
  {
    Max(target - 1, 1)
  }

  /** The pump's condition for sending a "stay" no-op before `next`. */
  predicate NeedsNoOp(pending: seq<Command>, next: Command, target: int) {
    !AnyGetsComc(pending) && !next.GetsComc() && |pending| >= MaxConsecutiveNonComc(target)
  }

  /** What one round of the pump appends to the pending commands. */
  function PumpStep(pending: seq<Command>, next: Command, target: int): (r: seq<Command>)
    ensures r == pending + [next] || r == pending + [NoOp, next]
  {
    if NeedsNoOp(pending, next, target) then pending + [NoOp] + [next] else pending + [next]
  }

  /**
   * `sent` is `cmds` in order, each one possibly preceded by a "stay"
   * no-op and nothing else.
   */
  predicate Dispatched(sent: seq<Command>, cmds: seq<Command>)
    decreases |cmds|
  {
    if cmds == [] then sent == []
    else
      || (|sent| >= 1 && sent[0] == cmds[0] && Dispatched(sent[1..], cmds[1..]))
      || (|sent| >= 2 && sent[0] == NoOp && sent[1] == cmds[0] && Dispatched(sent[2..], cmds[1..]))
  }

  /**
   * The invariant the client interfacer keeps between public calls: no
   * command waits in the queue unless the pending commands already reach
   * the target.
   */
  predicate Paced(queue: seq<Command>, pending: seq<Command>, target: int) {
    LowBound(pending) >= target || queue == []
  }

  /**
   * `_pumpQueue`, as evidently intended: send commands from the front of
   * the queue until it is empty or the lower bound reaches the target,
   * putting a "stay" first whenever `NeedsNoOp` says so. The result is the
   * new queue and the new pending commands.
   */
  function Pump(queue: seq<Command>, pending: seq<Command>, target: int): (r: (seq<Command>, seq<Command>))
    ensures |r.0| <= |queue| && |pending| <= |r.1|
    decreases |queue|
  {
    if queue == [] || LowBound(pending) >= target then (queue, pending)
    else Pump(queue[1..], PumpStep(pending, queue[0], target), target)
  }

  /** The pump stops only once the invariant holds again. */
  lemma {:induction false} PumpPaced(queue: seq<Command>, pending: seq<Command>, target: int)
    ensures var r := Pump(queue, pending, target); Paced(r.0, r.1, target)
    decreases |queue|
  {
    if queue != [] && LowBound(pending) < target {
      PumpPaced(queue[1..], PumpStep(pending, queue[0], target), target);
    }
  }

  /** What is left in the queue is its back: commands leave from the front only. */
  lemma {:induction false} PumpTakesFront(queue: seq<Command>, pending: seq<Command>, target: int)
    ensures var r := Pump(queue, pending, target); r.0 == queue[|queue| - |r.0|..]
    decreases |queue|
  {
    if queue != [] && LowBound(pending) < target {
      var r := Pump(queue[1..], PumpStep(pending, queue[0], target), target);
      PumpTakesFront(queue[1..], PumpStep(pending, queue[0], target), target);
      assert queue[1..][|queue[1..]| - |r.0|..] == queue[|queue| - |r.0|..];
    }
  }

  /**
   * The old pending commands stay at the front of the new ones, and nothing
   * is sent when nothing leaves the queue.
   */
  lemma {:induction false} PumpAppends(queue: seq<Command>, pending: seq<Command>, target: int)
    ensures var r := Pump(queue, pending, target);
      && r.1[..|pending|] == pending
      && (|r.0| == |queue| ==> r.1 == pending)
    decreases |queue|
  {
    if queue != [] && LowBound(pending) < target {
      var step := PumpStep(pending, queue[0], target);
      var r := Pump(queue[1..], step, target);
      PumpAppends(queue[1..], step, target);
      assert r.1[..|pending|] == r.1[..|step|][..|pending|];
    }
  }

  /** What the pump leaves behind, all together. */
  lemma PumpResult(queue: seq<Command>, pending: seq<Command>, target: int)
    ensures var r := Pump(queue, pending, target);
      && Paced(r.0, r.1, target)
      && r.0 == queue[|queue| - |r.0|..]
      && r.1[..|pending|] == pending
      && (|r.0| == |queue| ==> r.1 == pending)
  {
    PumpPaced(queue, pending, target);
    PumpTakesFront(queue, pending, target);
    PumpAppends(queue, pending, target);
  }

  /** A pump from a state that already keeps the invariant sends nothing. */
  lemma PumpIdle(queue: seq<Command>, pending: seq<Command>, target: int)
    requires Paced(queue, pending, target)
    ensures Pump(queue, pending, target) == (queue, pending)
  {
  }

  /** One round of the pump: a queue that may still be pumped sends its front command. */
  lemma PumpUnfold(queue: seq<Command>, pending: seq<Command>, target: int)
    requires queue != [] && LowBound(pending) < target
    ensures Pump(queue, pending, target) == Pump(queue[1..], PumpStep(pending, queue[0], target), target)
  {
  }

  lemma DispatchedStep(pending: seq<Command>, next: Command, target: int, sent: seq<Command>, cmds: seq<Command>)
    requires Dispatched(sent, cmds)
    ensures Dispatched((PumpStep(pending, next, target) + sent)[|pending|..], [next] + cmds)
  {
    var step := PumpStep(pending, next, target);
    var all := (step + sent)[|pending|..];
    assert ([next] + cmds)[0] == next && ([next] + cmds)[1..] == cmds;
    if step == pending + [next] {
      assert all == [next] + sent;
      assert all[1..] == sent;
    } else {
      assert all == [NoOp, next] + sent;
      assert all[2..] == sent;
    }
  }

  lemma DispatchedPrepend(step: seq<Command>, pending: seq<Command>, next: Command, target: int,
                          r1: seq<Command>, queue: seq<Command>, k: nat)
    requires step == PumpStep(pending, next, target)
    requires |step| <= |r1| && r1[..|step|] == step
    requires 1 <= k <= |queue| && queue[0] == next
    requires Dispatched(r1[|step|..], queue[1..k])
    ensures Dispatched(r1[|pending|..], queue[..k])
  {
    var sent := r1[|step|..];
    DispatchedStep(pending, next, target, sent, queue[1..k]);
    assert r1 == step + sent;
    assert queue[..k] == [next] + queue[1..k];
  }

  /**
   * What `Pump` sent is the front of the queue it consumed, in order, each
   * command possibly preceded by a "stay".
   */
  predicate PumpsInOrder(queue: seq<Command>, pending: seq<Command>, target: int) {
    var r := Pump(queue, pending, target);
    Dispatched(r.1[|pending|..], queue[..|queue| - |r.0|])
  }

  /**
   * The pump moves commands from the front of the queue to the back of the
   * pending commands in order, adding nothing but "stay" no-ops.
   */
  lemma {:induction false} PumpDispatchesInOrder(queue: seq<Command>, pending: seq<Command>, target: int)
    ensures PumpsInOrder(queue, pending, target)
    decreases |queue|
  {
    if queue == [] || LowBound(pending) >= target {
      var r := Pump(queue, pending, target);
      assert r == (queue, pending);
      assert r.1[|pending|..] == [] && queue[..|queue| - |r.0|] == [];
    } else {
      var step := PumpStep(pending, queue[0], target);
      var r := Pump(queue[1..], step, target);
      assert r == Pump(queue, pending, target);
      var k := |queue| - |r.0|;
      assert Dispatched(r.1[|step|..], queue[1..k]) by {
        PumpDispatchesInOrder(queue[1..], step, target);
        assert queue[1..][..|queue[1..]| - |r.0|] == queue[1..k];
      }
      PumpResult(queue[1..], step, target);
      DispatchedPrepend(step, pending, queue[0], target, r.1, queue, k);
    }
  }

  /**
   * A "stay" is sent only before a command that gets no "comc", when no
   * pending command gets one and at least `MaxConsecutiveNonComc` commands
   * are pending.
   */
  lemma PumpStepNoOpRule(pending: seq<Command>, next: Command, target: int)
    ensures PumpStep(pending, next, target) == pending + [NoOp, next]
        <==> (!AnyGetsComc(pending) && !next.GetsComc() && |pending| >= MaxConsecutiveNonComc(target))
  {
    if !NeedsNoOp(pending, next, target) {
      assert |pending + [next]| != |pending + [NoOp, next]|;
    }
  }

  lemma StepBound(pending: seq<Command>, next: Command, target: int)
    requires LowBound(pending) < target
    ensures LowBound(PumpStep(pending, next, target)) <= Max(2, target)
  {
    if NeedsNoOp(pending, next, target) {
      LowBoundAppend(pending, NoOp);
      LowBoundGrows(pending, NoOp);
      LowBoundAppend(pending + [NoOp], next);
    } else {
      LowBoundAppend(pending, next);
    }
  }

  /**
   * The bound asserted after a pump that sent anything: it adds only what
   * it must, so the lower bound is at most the target, or 2 when a "stay"
   * went out ahead of the last command.
   */
  lemma {:induction false} PumpBound(queue: seq<Command>, pending: seq<Command>, target: int)
    ensures var r := Pump(queue, pending, target);
      |r.0| < |queue| ==> LowBound(r.1) <= Max(2, target)
    decreases |queue|
  {
    if queue != [] && LowBound(pending) < target {
      var step := PumpStep(pending, queue[0], target);
      StepBound(pending, queue[0], target);
      PumpBound(queue[1..], step, target);
    }
  }

  lemma StepBlindWindow(pending: seq<Command>, next: Command, target: int)
    ensures var s := PumpStep(pending, next, target);
      !AnyGetsComc(s) ==> !AnyGetsComc(pending) && |s| <= Max(|pending|, MaxConsecutiveNonComc(target))
  {
    if NeedsNoOp(pending, next, target) {
      LowBoundGrows(pending, NoOp);
      LowBoundGrows(pending + [NoOp], next);
    } else {
      LowBoundGrows(pending, next);
    }
  }

  /**
   * The point of the no-op rule: when nothing pending will be acknowledged
   * after a pump, the pump did not grow that unacknowledged run beyond
   * `MaxConsecutiveNonComc`, so waiting on pending commands stays bounded.
   */
  lemma {:induction false} PumpBlindWindow(queue: seq<Command>, pending: seq<Command>, target: int)
    ensures var r := Pump(queue, pending, target);
      !AnyGetsComc(r.1) ==> |r.1| <= Max(|pending|, MaxConsecutiveNonComc(target))
    decreases |queue|
  {
    if queue != [] && LowBound(pending) < target {
      var step := PumpStep(pending, queue[0], target);
      PumpBlindWindow(queue[1..], step, target);
      StepBlindWindow(pending, queue[0], target);
      var r := Pump(queue[1..], step, target);
    }
  }

  /**
   * The pending commands left once a "watch comc" arrives: everything up to
   * and including the first command that gets a "comc" has resolved, or
   * everything when no pending command gets one.
   */
  function Acknowledge(pending: seq<Command>): (r: seq<Command>)
    ensures |r| <= |pending| && r == pending[|pending| - |r|..]
    ensures pending != [] ==> |r| < |pending|
    ensures !AnyGetsComc(pending) ==> r == []
    ensures AnyGetsComc(pending) ==> pending[|pending| - |r| - 1].GetsComc()
    ensures forall i :: 0 <= i < |pending| - |r| - 1 ==> !pending[i].GetsComc()
    ensures LowBound(r) <= Max(LowBound(pending) - 1, 0)
  {
    var n := LeadingUncertain(pending);
    LowBoundZeroIff(pending);
    if n < |pending| then pending[n + 1..] else []
  }

  /** Popping `pending` in the acknowledgement loop, one command at a time, ends at `Acknowledge`. */
  lemma AcknowledgeStep(pending: seq<Command>)
    requires pending != [] && !pending[0].GetsComc()
    ensures Acknowledge(pending[1..]) == Acknowledge(pending)
  {
    assert LeadingUncertain(pending) == LeadingUncertain(pending[1..]) + 1;
  }

  lemma AcknowledgeFirst(pending: seq<Command>)
    requires pending != [] && pending[0].GetsComc()
    ensures Acknowledge(pending) == pending[1..]
  {
  }

  /**
   * `_pumpQueue` as written: the local `lowBound` goes up after a send only
   * when `anyGetsComc` was already true, and `anyGetsComc` is set only by a
   * "stay" no-op, never by the sent command itself.
   */
  function PumpAsWritten(queue: seq<Command>, pending: seq<Command>, target: int,
                         lowBound: int, anyGetsComc: bool): (r: (seq<Command>, seq<Command>))
    ensures |r.0| <= |queue| && |pending| <= |r.1|
    decreases |queue|
  {
    if queue == [] || lowBound >= target then (queue, pending)
    else
      var next := queue[0];
      var noOp := !anyGetsComc && !next.GetsComc() && |pending| >= MaxConsecutiveNonComc(target);
      var pending1 := if noOp then pending + [NoOp] else pending;
      var low1 := if noOp then 1 else lowBound;
      var any1 := noOp || anyGetsComc;
      PumpAsWritten(queue[1..], pending1 + [next], target, if any1 then low1 + 1 else low1, any1)
  }

  /**
   * The postcondition the source checks first still holds as written: the
   * local bound never exceeds the real one, so the loop cannot stop early.
   */
  lemma {:induction false} PumpAsWrittenKeepsInvariant(queue: seq<Command>, pending: seq<Command>, target: int,
                                                       lowBound: int, anyGetsComc: bool)
    requires lowBound <= LowBound(pending)
    requires anyGetsComc ==> AnyGetsComc(pending)
    ensures var r := PumpAsWritten(queue, pending, target, lowBound, anyGetsComc);
      r.0 == [] || LowBound(r.1) >= target
    decreases |queue|
  {
    if queue != [] && lowBound < target {
      var next := queue[0];
      var noOp := !anyGetsComc && !next.GetsComc() && |pending| >= MaxConsecutiveNonComc(target);
      var pending1 := if noOp then pending + [NoOp] else pending;
      var low1 := if noOp then 1 else lowBound;
      var any1 := noOp || anyGetsComc;
      LowBoundGrows(pending, NoOp);
      LowBoundAppend(pending, NoOp);
      assert low1 <= LowBound(pending1) && (any1 ==> AnyGetsComc(pending1));
      LowBoundGrows(pending1, next);
      LowBoundAppend(pending1, next);
      PumpAsWrittenKeepsInvariant(queue[1..], pending1 + [next], target,
                                  if any1 then low1 + 1 else low1, any1);
    }
  }

  /** An ordinary command, acknowledged with a "comc". */
  const East: Command := Command("east", None, false)

  /**
   * The asserted bound fails as written. With a target of 1, one "east"
   * pending and three more queued (a state where the queue may be
   * non-empty), the "comc" for the first empties the pending commands and
   * the pump as written sends all three, leaving a lower bound of 3 where at
   * most 2 is asserted. The intended pump sends one.
   */
  lemma PumpAsWrittenOverfills()
    ensures LowBound([East]) >= 1 && Acknowledge([East]) == []
    ensures PumpAsWritten([East, East, East], [], 1, LowBound([]), AnyGetsComc([])) == ([], [East, East, East])
    ensures LowBound([East, East, East]) == 3 > Max(2, 1)
    ensures Pump([East, East, East], [], 1) == ([East, East], [East])
  {
    assert [East, East, East][1..] == [East, East];
    assert [East, East][1..] == [East];
    assert [East][1..] == [];
    assert LeadingUncertain([East, East, East]) == 0;
    assert LowBound([East]) == 1;
    assert PumpStep([], East, 1) == [East];
    assert !AnyGetsComc([]);
    assert AnyGetsComc([East]) by { assert [East][0].GetsComc(); }
    assert [East] + [East] == [East, East];
    assert [East, East] + [East] == [East, East, East];
    assert PumpAsWritten([], [East, East, East], 1, 0, false) == ([], [East, East, East]);
    assert PumpAsWritten([East], [East, East], 1, 0, false) == ([], [East, East, East]);
    assert PumpAsWritten([East, East], [East], 1, 0, false) == ([], [East, East, East]);
  }
}
