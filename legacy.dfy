/**
 * The earlier `ClientInterfacer` of client_interfacer.py at the top of the
 * repository: commands are encoded as they are queued, and the pacing
 * keeps only a count of the commands sent but not yet acknowledged,
 * which each "watch comc" lowers by one.
 */
module Legacy {
  import opened Wrappers
  import opened Strings
  import opened Commands

  /** `ClientInterfacer.DEFAULT_COUNT`. */
  const LegacyDefaultCount: int := 1

  /** `_encodeCommand`: "issue <count> 1 <command>". */
  function EncodeCommand(command: string, count: int): (r: string)
    ensures StartsWith(r, "issue ") && EndsWith(r, command)
  {
    Command(command, Some(count), false).Encode()
  }

  /** An encoded command reads back as its count and its text. */
  lemma DecodeEncodeCommand(command: string, count: int)
    ensures Decode(EncodeCommand(command, count)) == Issue(count, command)
  {
    DecodeEncode(Command(command, Some(count), false));
  }

  /**
   * The encoding the later `Command.encode` gives an ordinary command with
   * no count is the old one with the default count.
   */
  lemma EncodeDefaultCount(command: string)
    ensures EncodeCommand(command, LegacyDefaultCount) == Command(command, None, false).Encode()
    ensures Decode(EncodeCommand(command, LegacyDefaultCount)) == Issue(DefaultCount, command)
  {
    DecodeEncodeCommand(command, LegacyDefaultCount);
  }

  /** How many commands `issueCommandsFromQueue` sends from a queue of `queued` commands. */
  function Issued(queued: nat, numPending: int, maxPending: int): (k: nat)
    ensures k <= queued
    ensures k == queued || numPending + k >= maxPending
    ensures numPending >= maxPending ==> k == 0
    ensures numPending + k <= maxPending || k == 0
  {
    if numPending >= maxPending then 0
    else if queued <= maxPending - numPending then queued
    else maxPending - numPending
  }

  class ClientInterfacer {
    /** The encoded commands not yet sent, oldest first. */
    var commandQueue: seq<string>
    var numPendingCommands: int
    var maxPendingCommands: int
    /** The lines from the client other than "watch comc", oldest first. */
    var pendingInputs: seq<string>
    /** Every line written to the client, oldest first. */
    var toClient: seq<string>

    /** The counter of pending commands never goes below zero. */
    predicate Valid()
      reads this
    {
      numPendingCommands >= 0
    }

    /** The postcondition of `issueCommandsFromQueue`. */
    predicate Drained()
      reads this
    {
      commandQueue == [] || numPendingCommands >= maxPendingCommands
    }

    /** `__init__`: "watch comc" is sent and nothing is pending. */
    constructor (maxPendingCommands: int)
      ensures Valid() && Drained()
      ensures commandQueue == [] && numPendingCommands == 0 && pendingInputs == []
      ensures this.maxPendingCommands == maxPendingCommands
      ensures toClient == ["watch comc"]
    {
      toClient := ["watch comc"];
      commandQueue := [];
      numPendingCommands := 0;
      this.maxPendingCommands := maxPendingCommands;
      pendingInputs := [];
    }

    /** `setMaxPendingCommands`: nothing is sent until the next call that issues. */
    method SetMaxPendingCommands(maxPendingCommands: int)
      modifies this
      ensures this.maxPendingCommands == maxPendingCommands
      ensures commandQueue == old(commandQueue) && numPendingCommands == old(numPendingCommands)
      ensures pendingInputs == old(pendingInputs) && toClient == old(toClient)
    {
      this.maxPendingCommands := maxPendingCommands;
    }

    /** `_sendCommand`: one line out, one more pending command. */
    method SendCommand(encodedCommand: string)
      modifies this
      ensures toClient == old(toClient) + [encodedCommand]
      ensures numPendingCommands == old(numPendingCommands) + 1
      ensures commandQueue == old(commandQueue) && maxPendingCommands == old(maxPendingCommands)
      ensures pendingInputs == old(pendingInputs)
    {
      toClient := toClient + [encodedCommand];
      numPendingCommands := numPendingCommands + 1;
    }

    /**
     * `issueCommandsFromQueue`: the oldest queued commands are sent, in
     * order, until the queue is empty or the count reaches the maximum;
     * exactly `Issued` of them go out, one pending command each.
     */
    method IssueCommandsFromQueue()
      modifies this
      ensures Drained()
      ensures var k := Issued(|old(commandQueue)|, old(numPendingCommands), maxPendingCommands);
        && commandQueue == old(commandQueue)[k..]
        && toClient == old(toClient) + old(commandQueue)[..k]
        && numPendingCommands == old(numPendingCommands) + k
      ensures maxPendingCommands == old(maxPendingCommands) && pendingInputs == old(pendingInputs)
    {
      ghost var k: nat := 0;
      while commandQueue != [] && numPendingCommands < maxPendingCommands
        invariant k <= |old(commandQueue)|
        invariant commandQueue == old(commandQueue)[k..]
        invariant toClient == old(toClient) + old(commandQueue)[..k]
        invariant numPendingCommands == old(numPendingCommands) + k
        invariant k == 0 || numPendingCommands <= maxPendingCommands
        invariant maxPendingCommands == old(maxPendingCommands) && pendingInputs == old(pendingInputs)
        decreases |commandQueue|
      {
        var next := commandQueue[0];
        commandQueue := commandQueue[1..];
        SendCommand(next);
        assert old(commandQueue)[..k + 1] == old(commandQueue)[..k] + [next];
        k := k + 1;
      }
    }

    /**
     * `queueCommand`: after the queue is drained, the encoded command is
     * queued when the count is at the maximum and sent otherwise, which
     * happens only with an empty queue. Either way every command, queued
     * or sent, keeps its place in one first-in first-out order, and the
     * pending count grows by the number of lines sent.
     */
    method QueueCommand(command: string, count: int)
      requires Valid()
      modifies this
      ensures Valid() && Drained()
      ensures toClient + commandQueue == old(toClient) + old(commandQueue) + [EncodeCommand(command, count)]
      ensures |old(toClient)| <= |toClient|
      ensures numPendingCommands == old(numPendingCommands) + (|toClient| - |old(toClient)|)
      ensures |toClient| > |old(toClient)| + |old(commandQueue)| ==> commandQueue == []
      ensures var k := Issued(|old(commandQueue)| + 1, old(numPendingCommands), maxPendingCommands);
        && toClient == old(toClient) + (old(commandQueue) + [EncodeCommand(command, count)])[..k]
        && numPendingCommands == old(numPendingCommands) + k
      ensures maxPendingCommands == old(maxPendingCommands) && pendingInputs == old(pendingInputs)
    {
      IssueCommandsFromQueue();
      var encoded := EncodeCommand(command, count);
      ghost var k := Issued(|old(commandQueue)|, old(numPendingCommands), maxPendingCommands);
      assert old(commandQueue) == old(commandQueue)[..k] + commandQueue;
      ghost var all := old(commandQueue) + [encoded];
      if numPendingCommands >= maxPendingCommands {
        assert all[..k] == old(commandQueue)[..k];
        commandQueue := commandQueue + [encoded];
      } else {
        assert k == |old(commandQueue)| && all[..k + 1] == all;
        SendCommand(encoded);
      }
    }

    /** `dropAllQueuedCommands`: the queue is emptied and the count stays. */
    method DropAllQueuedCommands()
      modifies this
      ensures commandQueue == [] && Drained()
      ensures numPendingCommands == old(numPendingCommands) && maxPendingCommands == old(maxPendingCommands)
      ensures pendingInputs == old(pendingInputs) && toClient == old(toClient)
    {
      commandQueue := [];
    }

    /**
     * `_handleClientInput`: "watch comc" lowers the count by one, but not
     * below zero, and is not kept; any other line is kept unchanged. The
     * queue is not pumped here.
     */
    method HandleClientInput(msg: string)
      requires Valid()
      modifies this
      ensures Valid()
      ensures StartsWith(msg, "watch comc") ==>
        && pendingInputs == old(pendingInputs)
        && numPendingCommands == (if old(numPendingCommands) > 0 then old(numPendingCommands) - 1 else 0)
      ensures !StartsWith(msg, "watch comc") ==>
        pendingInputs == old(pendingInputs) + [msg] && numPendingCommands == old(numPendingCommands)
      ensures commandQueue == old(commandQueue) && maxPendingCommands == old(maxPendingCommands)
      ensures toClient == old(toClient)
    {
      if StartsWith(msg, "watch comc") {
        if numPendingCommands > 0 {
          numPendingCommands := numPendingCommands - 1;
        }
      } else {
        pendingInputs := pendingInputs + [msg];
      }
    }

    /**
     * `handlePendingClientInputs`: the lines that have arrived, each
     * without its newline, handled in turn. Waiting on standard input is
     * not part of the model.
     */
    method HandlePendingClientInputs(lines: seq<string>)
      requires Valid()
      modifies this
      ensures Valid()
      ensures pendingInputs == old(pendingInputs) + Kept(lines)
      ensures numPendingCommands == Floored(old(numPendingCommands), Acks(lines))
      ensures commandQueue == old(commandQueue) && toClient == old(toClient)
      ensures maxPendingCommands == old(maxPendingCommands)
    {
      var i := 0;
      while i < |lines|
        invariant 0 <= i <= |lines| && Valid()
        invariant pendingInputs == old(pendingInputs) + Kept(lines[..i])
        invariant numPendingCommands == Floored(old(numPendingCommands), Acks(lines[..i]))
        invariant commandQueue == old(commandQueue) && toClient == old(toClient)
        invariant maxPendingCommands == old(maxPendingCommands)
      {
        var msg := ChompSuffix(lines[i], "\n");
        KeptStep(lines, i);
        HandleClientInput(msg);
        i := i + 1;
      }
      assert lines[..|lines|] == lines;
    }
  }

  /** `count` lowered by one `acks` times, never below zero. */
  function Floored(count: int, acks: nat): (r: int)
    ensures r >= 0 && r <= (if count > 0 then count else 0)
    ensures count >= acks ==> r == count - acks
    ensures count < acks ==> r == 0
  {
    if count >= acks then count - acks else 0
  }

  /** The lines `handlePendingClientInputs` keeps from `lines`: all but the acknowledgements, chomped. */
  function Kept(lines: seq<string>): seq<string> {
    if lines == [] then []
    else
      var msg := ChompSuffix(lines[|lines| - 1], "\n");
      Kept(lines[..|lines| - 1]) + (if StartsWith(msg, "watch comc") then [] else [msg])
  }

  /** What one more line adds to `Kept` and `Acks`. */
  lemma KeptStep(lines: seq<string>, i: nat)
    requires i < |lines|
    ensures var msg := ChompSuffix(lines[i], "\n");
      && Kept(lines[..i + 1]) == Kept(lines[..i]) + (if StartsWith(msg, "watch comc") then [] else [msg])
      && Acks(lines[..i + 1]) == Acks(lines[..i]) + (if StartsWith(msg, "watch comc") then 1 else 0)
  {
    assert lines[..i + 1][..i] == lines[..i];
  }

  /** The number of acknowledgements among `lines`. */
  function Acks(lines: seq<string>): (n: nat)
    ensures n <= |lines|
  {
    if lines == [] then 0
    else
      var msg := ChompSuffix(lines[|lines| - 1], "\n");
      Acks(lines[..|lines| - 1]) + (if StartsWith(msg, "watch comc") then 1 else 0)
  }

  /** `chompSuffix` with its default: exactly one trailing newline is removed, when there is one. */
  lemma ChompNewline(s: string)
    ensures s != [] && s[|s| - 1] == '\n' ==> ChompSuffix(s, "\n") == s[..|s| - 1]
    ensures (s == [] || s[|s| - 1] != '\n') ==> ChompSuffix(s, "\n") == s
  {
    if s != [] && s[|s| - 1] == '\n' {
      assert s[|s| - 1..] == "\n";
    }
  }
}
