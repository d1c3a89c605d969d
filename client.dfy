/**
 * `ClientInterfacer` of lib/client_interfacer.py: the command pipeline
 * (queued, then pending, then done) paced by "watch comc" acknowledgements,
 * and the routing of the lines the client sends.
 *
 * The lines the interfacer writes to the client (commands, requests and the
 * "draw" lines of its error and warning messages) are kept, in order, in
 * `toClient`. The lines it reads are handed to `HandleClientInput` one at a
 * time, or as a batch to `HandlePendingClientInputs`.
 */
module Client {
  import opened Wrappers
  import opened Strings
  import opened Items
  import opened Commands
  import opened Player
  import opened Pacing
  import opened Routing

  /** `Color.RED`, the colour of `logError`. */
  const Red: int := 3
  /** `Color.ORANGE`, the colour of `logWarning`. */
  const Orange: int := 4

  /** `draw(msg, color)`: the line that shows `msg` to the player. */
  function DrawLine(color: int, msg: string): string {
    "draw " + IntToString(color) + " " + msg
  }

  /** `logError(msg)`: the line it draws. */
  function ErrorLine(msg: string): string {
    DrawLine(Red, "ERROR: " + msg)
  }

  /** `logWarning(msg)`: the line it draws. */
  function WarningLine(msg: string): string {
    DrawLine(Orange, "WARNING: " + msg)
  }

  /** The error `_handleRequestStat` logs for a block with the wrong number of fields. */
  function StatCountMessage(c: Category, got: nat): string {
    "\"request stat " + StatKeyword(c) + "\": got " + IntToString(got)
      + " items, expected " + IntToString(|Members(c)|) + "."
  }

  /** The error `_handleRequestItem` logs for an item line with the wrong number of fields. */
  function ItemCountMessage(requestType: string, got: nat): string {
    "\"request items " + requestType + "\": got " + IntToString(got) + " fields, expected 6."
  }

  /** `after` is `before` with one more element at its end. */
  predicate Appended<T(==)>(before: seq<T>, after: seq<T>) {
    |after| == |before| + 1 && after[..|before|] == before
  }

  /** The fields of `item` are the ones given. */
  predicate ItemHas(item: Item, tag: int, num: int, weight: int, flags: int, clientType: int, name: string)
    reads item
  {
    && item.tag == tag && item.num == num && item.weight == weight
    && item.flags == flags && item.clientType == clientType && item.name == name
  }

  /** The lines `_sendCommand` writes for `cmds`, in order. */
  function Encodings(cmds: seq<Command>): (r: seq<string>)
    ensures |r| == |cmds|
    ensures forall i :: 0 <= i < |cmds| ==> r[i] == cmds[i].Encode()
  {
    if cmds == [] then [] else [cmds[0].Encode()] + Encodings(cmds[1..])
  }

  lemma {:induction false} EncodingsConcat(a: seq<Command>, b: seq<Command>)
    ensures Encodings(a + b) == Encodings(a) + Encodings(b)
    decreases |a|
  {
    if a != [] {
      assert (a + b)[1..] == a[1..] + b;
      EncodingsConcat(a[1..], b);
    } else {
      assert a + b == b;
    }
  }

  lemma ConcatAssoc<T>(a: seq<T>, b: seq<T>, c: seq<T>)
    ensures a + b + c == a + (b + c)
  {
  }

  class ClientInterfacer {
    var commandQueue: seq<Command>
    var pendingCommands: seq<Command>
    var targetPendingCommands: int
    var pendingScripttells: seq<string>
    var pendingMiscInputs: seq<string>
    /** The last complete item list of each request type. */
    var itemLists: map<string, seq<Item>>
    /** The item list being received for each request type still in progress. */
    var itemListsInProgress: map<string, seq<Item>>
    const playerInfo: PlayerInfo
    /** Every line written to the client, oldest first. */
    var toClient: seq<string>

    /** `_checkInvariants`, together with the player record's own invariant. */
    ghost predicate Valid()
      reads this, playerInfo
    {
      playerInfo.Valid() && Paced(commandQueue, pendingCommands, targetPendingCommands)
    }

    twostate predicate InputsUnchanged()
      reads this
    {
      && pendingScripttells == old(pendingScripttells)
      && pendingMiscInputs == old(pendingMiscInputs)
      && itemLists == old(itemLists)
      && itemListsInProgress == old(itemListsInProgress)
    }

    twostate predicate PacingUnchanged()
      reads this
    {
      && commandQueue == old(commandQueue)
      && pendingCommands == old(pendingCommands)
      && targetPendingCommands == old(targetPendingCommands)
    }

    /**
     * `__init__`: empty queues, "watch comc" and "request player" sent.
     * Waiting for the player's tag to arrive is not part of the model.
     */
    constructor (targetPendingCommands: int)
      ensures Valid() && fresh(playerInfo)
      ensures commandQueue == [] && pendingCommands == []
      ensures this.targetPendingCommands == targetPendingCommands
      ensures pendingScripttells == [] && pendingMiscInputs == []
      ensures itemLists == map[] && itemListsInProgress == map[]
      ensures toClient == ["watch comc", "request player"]
      ensures playerInfo.tag == None && playerInfo.stats == map[]
    {
      playerInfo := new PlayerInfo();
      itemLists, itemListsInProgress := map[], map[];
      commandQueue, pendingCommands := [], [];
      this.targetPendingCommands := targetPendingCommands;
      pendingScripttells, pendingMiscInputs := [], [];
      toClient := ["watch comc", "request player"];
    }

    /** `_sendToClient`. */
    method SendToClient(line: string)
      modifies this
      ensures toClient == old(toClient) + [line]
      ensures PacingUnchanged() && InputsUnchanged()
    {
      toClient := toClient + [line];
    }

    /** `logError`: an error drawn in red. */
    method LogError(msg: string)
      modifies this
      ensures toClient == old(toClient) + [ErrorLine(msg)]
      ensures PacingUnchanged() && InputsUnchanged()
    {
      SendToClient(ErrorLine(msg));
    }

    /** `logWarning`: a warning drawn in orange. */
    method LogWarning(msg: string)
      modifies this
      ensures toClient == old(toClient) + [WarningLine(msg)]
      ensures PacingUnchanged() && InputsUnchanged()
    {
      SendToClient(WarningLine(msg));
    }

    /** `_sendCommand`: the command goes out and joins the pending commands. */
    method SendCommand(c: Command)
      modifies this
      ensures pendingCommands == old(pendingCommands) + [c]
      ensures toClient == old(toClient) + [c.Encode()]
      ensures commandQueue == old(commandQueue) && targetPendingCommands == old(targetPendingCommands)
      ensures InputsUnchanged()
    {
      SendToClient(c.Encode());
      pendingCommands := pendingCommands + [c];
    }

    /** `_sendNoOp`: "stay" on its own, which the server only acknowledges. */
    method SendNoOp()
      modifies this
      ensures pendingCommands == old(pendingCommands) + [NoOp]
      ensures toClient == old(toClient) + [NoOp.Encode()]
      ensures commandQueue == old(commandQueue) && targetPendingCommands == old(targetPendingCommands)
      ensures InputsUnchanged()
    {
      SendCommand(NoOp);
    }

    /** `_boundPendingCommandsLow`: the pending commands minus the unacknowledged run at the front. */
    method BoundPendingCommandsLow() returns (n: int)
      ensures n == LowBound(pendingCommands)
      ensures n == 0 <==> !AnyGetsComc(pendingCommands)
    {
      var numUncertain := 0;
      while numUncertain < |pendingCommands| && !pendingCommands[numUncertain].GetsComc()
        invariant 0 <= numUncertain <= |pendingCommands|
        invariant forall i :: 0 <= i < numUncertain ==> !pendingCommands[i].GetsComc()
        decreases |pendingCommands| - numUncertain
      {
        numUncertain := numUncertain + 1;
      }
      n := |pendingCommands| - numUncertain;
      LowBoundZeroIff(pendingCommands);
    }

    /** `_boundPendingCommandsHigh`: every pending command may still be pending. */
    method BoundPendingCommandsHigh() returns (n: int)
      ensures n == |pendingCommands| && LowBound(pendingCommands) <= n
    {
      n := |pendingCommands|;
    }

    /** `_hasTargetPendingCommands`. */
    method HasTargetPendingCommands() returns (b: bool)
      ensures b <==> LowBound(pendingCommands) >= targetPendingCommands
      ensures !b ==> Valid() ==> commandQueue == []
    {
      var low := BoundPendingCommandsLow();
      b := low >= targetPendingCommands;
    }

    /** `_canWaitOnPendingCommands`: nothing pending, or something pending will be acknowledged. */
    method CanWaitOnPendingCommands() returns (b: bool)
      ensures b <==> CanWait(pendingCommands)
    {
      if |pendingCommands| == 0 {
        return true;
      }
      b := false;
      var i := 0;
      while i < |pendingCommands|
        invariant 0 <= i <= |pendingCommands|
        invariant b <==> exists j :: 0 <= j < i && pendingCommands[j].GetsComc()
      {
        b := b || pendingCommands[i].GetsComc();
        i := i + 1;
      }
    }

    /**
     * `_ensureCanWaitOnPendingCommands`: when nothing pending would be
     * acknowledged, one "stay" goes out so that waiting cannot hang.
     */
    method EnsureCanWaitOnPendingCommands()
      requires Valid()
      modifies this
      ensures Valid() && CanWait(pendingCommands)
      ensures old(CanWait(pendingCommands)) ==> pendingCommands == old(pendingCommands) && toClient == old(toClient)
      ensures !old(CanWait(pendingCommands)) ==> (pendingCommands == old(pendingCommands) + [NoOp]
                                                  && toClient == old(toClient) + [NoOp.Encode()])
      ensures commandQueue == old(commandQueue) && targetPendingCommands == old(targetPendingCommands)
      ensures InputsUnchanged()
    {
      var canWait := CanWaitOnPendingCommands();
      if !canWait {
        ghost var before := pendingCommands;
        SendNoOp();
        LowBoundGrows(before, NoOp);
      }
    }

    /**
     * One round of the loop in `_pumpQueue`: a "stay" first when the no-op
     * rule asks for one, then `nextCommand`, with the local `lowBound` and
     * `anyGetsComc` brought up to date. `anyGetsComc` also takes the sent
     * command into account, which the source omits.
     */
    method SendNext(nextCommand: Command, anyGetsComc: bool, lowBound: int, maxConsecutiveNonComc: int)
      returns (anyGetsComc': bool, lowBound': int, ghost sentNow: seq<Command>)
      requires lowBound == LowBound(pendingCommands) && (anyGetsComc <==> AnyGetsComc(pendingCommands))
      requires maxConsecutiveNonComc == MaxConsecutiveNonComc(targetPendingCommands)
      modifies this
      ensures pendingCommands == old(pendingCommands) + sentNow
      ensures pendingCommands == PumpStep(old(pendingCommands), nextCommand, targetPendingCommands)
      ensures toClient == old(toClient) + Encodings(sentNow)
      ensures lowBound' == LowBound(pendingCommands) && (anyGetsComc' <==> AnyGetsComc(pendingCommands))
      ensures commandQueue == old(commandQueue) && targetPendingCommands == old(targetPendingCommands)
      ensures InputsUnchanged()
    {
      anyGetsComc', lowBound' := anyGetsComc, lowBound;
      sentNow := [];
      if !anyGetsComc' && !nextCommand.GetsComc() && |pendingCommands| >= maxConsecutiveNonComc {
        LowBoundAppend(pendingCommands, NoOp);
        SendNoOp();
        sentNow := [NoOp];
        anyGetsComc' := true;
        lowBound' := 1;
      }
      LowBoundAppend(pendingCommands, nextCommand);
      LowBoundZeroIff(pendingCommands);
      SendCommand(nextCommand);
      sentNow := sentNow + [nextCommand];
      anyGetsComc' := anyGetsComc' || nextCommand.GetsComc();
      if anyGetsComc' {
        lowBound' := lowBound' + 1;
      }
      LowBoundZeroIff(pendingCommands);
    }

    /**
     * What the loop of `_pumpQueue` keeps: the queue and pending commands
     * still pump to the same result, `sent` is what was sent so far, in
     * order, and the local bound and flag match the pending commands.
     */
    ghost predicate Pumping(queue0: seq<Command>, pending0: seq<Command>, toClient0: seq<string>, sent: seq<Command>,
                            lowBound: int, anyGetsComc: bool)
      reads this
    {
      && Pump(commandQueue, pendingCommands, targetPendingCommands) == Pump(queue0, pending0, targetPendingCommands)
      && lowBound == LowBound(pendingCommands) && (anyGetsComc <==> AnyGetsComc(pendingCommands))
      && pendingCommands == pending0 + sent
      && toClient == toClient0 + Encodings(sent)
    }

    /** One round of the loop of `_pumpQueue`: the head of the queue is sent. */
    method PumpRound(ghost queue0: seq<Command>, ghost pending0: seq<Command>, ghost toClient0: seq<string>,
                     ghost sent: seq<Command>, anyGetsComc: bool, lowBound: int, maxConsecutiveNonComc: int)
      returns (anyGetsComc': bool, lowBound': int, ghost sent': seq<Command>)
      requires Pumping(queue0, pending0, toClient0, sent, lowBound, anyGetsComc)
      requires commandQueue != [] && lowBound < targetPendingCommands
      requires maxConsecutiveNonComc == MaxConsecutiveNonComc(targetPendingCommands)
      modifies this
      ensures Pumping(queue0, pending0, toClient0, sent', lowBound', anyGetsComc')
      ensures |commandQueue| < |old(commandQueue)| && sent' != []
      ensures targetPendingCommands == old(targetPendingCommands) && InputsUnchanged()
    {
      PumpUnfold(commandQueue, pendingCommands, targetPendingCommands);
      var nextCommand := commandQueue[0];
      commandQueue := commandQueue[1..];
      ghost var step;
      anyGetsComc', lowBound', step := SendNext(nextCommand, anyGetsComc, lowBound, maxConsecutiveNonComc);
      ConcatAssoc(pending0, sent, step);
      ConcatAssoc(toClient0, Encodings(sent), Encodings(step));
      EncodingsConcat(sent, step);
      sent' := sent + step;
    }

    /**
     * `_pumpQueue`, with the local lower bound kept equal to the real one
     * (the source's stale local bound is `Pacing.PumpAsWritten`): the queue
     * and pending commands become what `Pump` says, and each command sent
     * is written to the client in order.
     */
    method PumpQueue()
      modifies this
      ensures (commandQueue, pendingCommands) == Pump(old(commandQueue), old(pendingCommands), targetPendingCommands)
      ensures targetPendingCommands == old(targetPendingCommands)
      ensures |old(pendingCommands)| <= |pendingCommands|
      ensures toClient == old(toClient) + Encodings(pendingCommands[|old(pendingCommands)|..])
      ensures Paced(commandQueue, pendingCommands, targetPendingCommands)
      ensures |pendingCommands| > |old(pendingCommands)| ==> LowBound(pendingCommands) <= Max(2, targetPendingCommands)
      ensures InputsUnchanged()
    {
      ghost var queue0, pending0, toClient0 := commandQueue, pendingCommands, toClient;
      ghost var sent: seq<Command> := [];
      var lowBound := BoundPendingCommandsLow();
      var anyGetsComc := lowBound != 0;
      var maxConsecutiveNonComc := MaxConsecutiveNonComc(targetPendingCommands);
      var sentAny := false;
      while commandQueue != [] && lowBound < targetPendingCommands
        invariant Pumping(queue0, pending0, toClient0, sent, lowBound, anyGetsComc)
        invariant targetPendingCommands == old(targetPendingCommands)
        invariant sentAny <==> sent != []
        invariant InputsUnchanged()
        decreases |commandQueue|
      {
        anyGetsComc, lowBound, sent := PumpRound(queue0, pending0, toClient0, sent, anyGetsComc, lowBound, maxConsecutiveNonComc);
        sentAny := true;
      }
      assert pendingCommands[|pending0|..] == sent;
      PumpPaced(queue0, pending0, targetPendingCommands);
      PumpBound(queue0, pending0, targetPendingCommands);
    }
  
    /**
     * `queueCommand`: the command joins the back of the queue and the queue
     * is pumped. While commands are already waiting, nothing is sent.
     */
    method QueueCommand(c: Command)
      requires Valid()
      modifies this
      ensures Valid()
      ensures (commandQueue, pendingCommands) == Pump(old(commandQueue) + [c], old(pendingCommands), targetPendingCommands)
      ensures targetPendingCommands == old(targetPendingCommands)
      ensures |old(pendingCommands)| <= |pendingCommands|
      ensures toClient == old(toClient) + Encodings(pendingCommands[|old(pendingCommands)|..])
      ensures old(commandQueue) != [] ==> commandQueue == old(commandQueue) + [c] && pendingCommands == old(pendingCommands)
      ensures InputsUnchanged()
    {
      if commandQueue != [] {
        PumpIdle(commandQueue + [c], pendingCommands, targetPendingCommands);
      }
      commandQueue := commandQueue + [c];
      PumpQueue();
    }

    /**
     * `setTargetPendingCommands`: a larger target sends the oldest queued
     * commands at once; a smaller one waits for nothing.
     */
    method SetTargetPendingCommands(target: int)
      requires Valid()
      modifies this
      ensures Valid() && targetPendingCommands == target
      ensures (commandQueue, pendingCommands) == Pump(old(commandQueue), old(pendingCommands), target)
      ensures |old(pendingCommands)| <= |pendingCommands|
      ensures toClient == old(toClient) + Encodings(pendingCommands[|old(pendingCommands)|..])
      ensures target <= old(targetPendingCommands) ==> commandQueue == old(commandQueue) && pendingCommands == old(pendingCommands)
      ensures InputsUnchanged()
    {
      if target <= targetPendingCommands {
        PumpIdle(commandQueue, pendingCommands, target);
      }
      targetPendingCommands := target;
      PumpQueue();
    }

    /**
     * `dropAllQueuedCommands`: the queue is emptied, nothing is sent and the
     * pending commands stay as they are; a second call changes nothing.
     */
    method DropAllQueuedCommands()
      requires Valid()
      modifies this
      ensures Valid() && commandQueue == []
      ensures pendingCommands == old(pendingCommands) && targetPendingCommands == old(targetPendingCommands)
      ensures toClient == old(toClient) && InputsUnchanged()
      ensures old(commandQueue) == [] ==> unchanged(this)
    {
      commandQueue := [];
    }

    /**
     * The popping half of the "watch comc" branch: pending commands leave
     * from the front up to and including the first one that gets a "comc".
     */
    method PopAcknowledged()
      modifies this
      ensures pendingCommands == Acknowledge(old(pendingCommands))
      ensures commandQueue == old(commandQueue) && toClient == old(toClient)
      ensures targetPendingCommands == old(targetPendingCommands) && InputsUnchanged()
    {
      while pendingCommands != []
        invariant Acknowledge(pendingCommands) == Acknowledge(old(pendingCommands))
        invariant commandQueue == old(commandQueue) && toClient == old(toClient)
        invariant targetPendingCommands == old(targetPendingCommands) && InputsUnchanged()
        decreases |pendingCommands|
      {
        var cmd := pendingCommands[0];
        if cmd.GetsComc() {
          AcknowledgeFirst(pendingCommands);
          pendingCommands := pendingCommands[1..];
          return;
        }
        AcknowledgeStep(pendingCommands);
        pendingCommands := pendingCommands[1..];
      }
    }

    /**
     * The "watch comc" branch of `_handleClientInput`: when commands are
     * pending, acknowledge them and pump; otherwise swallow the line.
     */
    method HandleComc()
      requires Valid()
      modifies this
      ensures Valid()
      ensures old(pendingCommands) == [] ==> unchanged(this)
      ensures old(pendingCommands) != [] ==>
        (commandQueue, pendingCommands) == Pump(old(commandQueue), Acknowledge(old(pendingCommands)), targetPendingCommands)
      ensures old(pendingCommands) != [] ==>
        |Acknowledge(old(pendingCommands))| <= |pendingCommands|
        && toClient == old(toClient) + Encodings(pendingCommands[|Acknowledge(old(pendingCommands))|..])
      ensures targetPendingCommands == old(targetPendingCommands) && InputsUnchanged()
    {
      if pendingCommands != [] {
        PopAcknowledged();
        PumpQueue();
      }
    }

    /**
     * `_handleWatch`: a known stat with a readable value is stored; a
     * value `int()` rejects raises, reported here as `ok == false`; every
     * other watch is ignored.
     */
    method HandleWatch(msg: string) returns (ok: bool)
      requires Valid()
      modifies playerInfo
      ensures Valid() && WatchOutcome(msg, ok)
    {
      match ParseWatch(msg)
      case StatUpdate(stat, value) =>
        playerInfo.SetStat(stat, value);
        ok := true;
      case BadStatValue(_, _) =>
        ok := false;
      case Ignored =>
        ok := true;
    }

    /**
     * What handling "watch <msg>" did to the player's stats: only a stat
     * update changes them, and `ok` is false exactly for a value `int()`
     * rejects.
     */
    twostate predicate WatchOutcome(msg: string, ok: bool)
      reads playerInfo
    {
      && (ok <==> !ParseWatch(msg).BadStatValue?)
      && (ParseWatch(msg).StatUpdate? ==>
            && playerInfo.stats == old(playerInfo.stats)[ParseWatch(msg).stat := ParseWatch(msg).value]
            && playerInfo.IdUnchanged()
            && forall c :: playerInfo.Have(c) == old(playerInfo.Have(c)))
      && (!ParseWatch(msg).StatUpdate? ==> unchanged(playerInfo))
    }

    /** The setter of block `c`, given the block's values in the client's order. */
    method SetStatBlock(c: Category, values: seq<int>)
      requires Valid() && |values| == |Members(c)|
      modifies playerInfo
      ensures Valid()
      ensures playerInfo.stats == WithBlock(old(playerInfo.stats), c, values)
      ensures playerInfo.Have(c) && forall d :: d != c ==> playerInfo.Have(d) == old(playerInfo.Have(d))
      ensures playerInfo.IdUnchanged()
    {
      match c
      case Vital =>
        playerInfo.SetVitalStats(values[0], values[1], values[2], values[3], values[4], values[5], values[6]);
      case Combat =>
        playerInfo.SetCombatStats(values[0], values[1], values[2], values[3], values[4]);
      case Abilities =>
        playerInfo.SetAbilityScores(values[0], values[1], values[2], values[3], values[4], values[5], values[6]);
    }

    /**
     * What handling a "request stat" line `r` did: a whole block is stored
     * and its flag set, a block of the wrong size or an unknown keyword is
     * logged as an error, and a value `int()` rejects stops the handler
     * with `ok == false` before anything is stored.
     */
    twostate predicate StatOutcome(r: RequestLine, ok: bool)
      reads this, playerInfo
    {
      && PacingUnchanged() && InputsUnchanged()
      && (ok <==> !r.StatBadValue?)
      && (r.StatBlock? ==>
            && |r.values| == |Members(r.category)|
            && playerInfo.stats == WithBlock(old(playerInfo.stats), r.category, r.values)
            && playerInfo.Have(r.category)
            && (forall d :: d != r.category ==> playerInfo.Have(d) == old(playerInfo.Have(d)))
            && playerInfo.IdUnchanged()
            && toClient == old(toClient))
      && (r.StatWrongCount? ==>
            toClient == old(toClient) + [ErrorLine(StatCountMessage(r.category, r.got))] && unchanged(playerInfo))
      && (r.StatBadValue? ==> toClient == old(toClient) && unchanged(playerInfo))
      && (r.UnknownStat? ==>
            toClient == old(toClient) + [ErrorLine("Unrecognized request stat \"" + r.text + "\"")]
            && unchanged(playerInfo))
    }

    /** One branch of `_handleRequestStat`: the fields of block `c`. */
    method HandleStatBlock(c: Category, rest: string) returns (ok: bool)
      requires Valid()
      modifies this, playerInfo
      ensures Valid() && StatOutcome(StatFields(c, rest), ok)
    {
      var parts := SplitWs(rest, None);
      if |parts| != |Members(c)| {
        LogError(StatCountMessage(c, |parts|));
        return true;
      }
      var values := ParseInts(parts);
      if values.None? {
        return false;
      }
      SetStatBlock(c, values.value);
      ok := true;
    }

    /** `_handleRequestStat`. */
    method HandleRequestStat(msg: string) returns (ok: bool)
      requires Valid()
      modifies this, playerInfo
      ensures Valid() && StatOutcome(ParseStat(msg), ok)
    {
      var (isVital, rest) := CheckPrefix(msg, "hp ");
      if isVital {
        ok := HandleStatBlock(Vital, rest);
        return;
      }
      var (isCombat, rest') := CheckPrefix(msg, "cmbt ");
      if isCombat {
        ok := HandleStatBlock(Combat, rest');
        return;
      }
      var (isAbil, rest'') := CheckPrefix(msg, "stats ");
      if isAbil {
        ok := HandleStatBlock(Abilities, rest'');
        return;
      }
      LogError("Unrecognized request stat \"" + msg + "\"");
      ok := true;
    }

    /** `hasItemsOfType`: a complete list of this type has arrived at some point. */
    predicate HasItemsOfType(requestType: string)
      reads this
    {
      requestType in itemLists
    }

    /** `hasUpdItemsOfType`: the latest request of this type has been answered in full. */
    predicate HasUpdItemsOfType(requestType: string)
      reads this
    {
      requestType in itemLists && requestType !in itemListsInProgress
    }

    /** `itemsOfType`: the latest complete list of this type, if there is one. */
    function ItemsOfType(requestType: string): (r: Option<seq<Item>>)
      reads this
      ensures r.Some? <==> HasItemsOfType(requestType)
      ensures r.Some? ==> r.value == itemLists[requestType]
    {
      if requestType in itemLists then Some(itemLists[requestType]) else None
    }

    /**
     * `requestItemsOfType`: start a list of this type and ask the client
     * for it, unless one is already being received, which is an error.
     */
    method RequestItemsOfType(requestType: string)
      modifies this
      ensures PacingUnchanged()
      ensures pendingScripttells == old(pendingScripttells) && pendingMiscInputs == old(pendingMiscInputs)
      ensures itemLists == old(itemLists) && !HasUpdItemsOfType(requestType)
      ensures requestType in old(itemListsInProgress) ==>
        && itemListsInProgress == old(itemListsInProgress)
        && toClient == old(toClient)
             + [ErrorLine("Already in the middle of requesting items " + requestType + ", better not request them again.")]
      ensures requestType !in old(itemListsInProgress) ==>
        && itemListsInProgress == old(itemListsInProgress)[requestType := []]
        && toClient == old(toClient) + ["request items " + requestType]
    {
      if requestType in itemListsInProgress {
        LogError("Already in the middle of requesting items " + requestType + ", better not request them again.");
        return;
      }
      itemListsInProgress := itemListsInProgress[requestType := []];
      SendToClient("request items " + requestType);
    }

    /** The items `ItemOutcome` may speak of: the newest item of the list of this type. */
    function NewestItem(requestType: string): set<object>
      reads this
    {
      if requestType in itemListsInProgress && itemListsInProgress[requestType] != [] then
        {itemListsInProgress[requestType][|itemListsInProgress[requestType]| - 1]}
      else {}
    }

    /**
     * What handling "request items <requestType> <rest>" did: ignored with
     * a warning when no list of that type is being received; otherwise
     * "end" completes the list, a well-formed line adds a new item to its
     * end, a line with the wrong number of fields is logged as an error,
     * and a number `int()` rejects stops the handler with `ok == false`.
     */
    twostate predicate ItemOutcome(requestType: string, rest: string, ok: bool)
      reads this, NewestItem(requestType)
    {
      && PacingUnchanged()
      && pendingScripttells == old(pendingScripttells) && pendingMiscInputs == old(pendingMiscInputs)
      && (requestType !in old(itemListsInProgress) ==>
        && ok && itemLists == old(itemLists) && itemListsInProgress == old(itemListsInProgress)
        && toClient == old(toClient) + [WarningLine("Received unexpected request items " + requestType + " \"" + rest + "\"")])
      && (requestType in old(itemListsInProgress) ==>
        match ParseItemLine(rest)
        case ItemsEnd =>
          && ok && toClient == old(toClient)
          && itemLists == old(itemLists)[requestType := old(itemListsInProgress)[requestType]]
          && itemListsInProgress == old(itemListsInProgress) - {requestType}
          && HasUpdItemsOfType(requestType)
        case ItemWrongCount(got) =>
          && ok && itemLists == old(itemLists) && itemListsInProgress == old(itemListsInProgress)
          && toClient == old(toClient) + [ErrorLine(ItemCountMessage(requestType, got))]
        case ItemBadValue =>
          && !ok && itemLists == old(itemLists) && itemListsInProgress == old(itemListsInProgress)
          && toClient == old(toClient)
        case ItemFields(tag, num, weight, flags, clientType, name) =>
          && ok && itemLists == old(itemLists) && toClient == old(toClient)
          && requestType in itemListsInProgress
          && var list := itemListsInProgress[requestType];
          && itemListsInProgress == old(itemListsInProgress)[requestType := list]
          && Appended(old(itemListsInProgress)[requestType], list)
          && fresh(list[|list| - 1])
          && ItemHas(list[|list| - 1], tag, num, weight, flags, clientType, name))
    }

    /** `_handleRequestItem`, for a line "request items <requestType> <rest>". */
    method HandleRequestItem(requestType: string, rest: string) returns (ok: bool)
      modifies this
      ensures PacingUnchanged()
      ensures pendingScripttells == old(pendingScripttells) && pendingMiscInputs == old(pendingMiscInputs)
      ensures ItemOutcome(requestType, rest, ok)
    {
      if requestType !in itemListsInProgress {
        LogWarning("Received unexpected request items " + requestType + " \"" + rest + "\"");
        return true;
      }
      match ParseItemLine(rest)
      case ItemsEnd =>
        itemLists := itemLists[requestType := itemListsInProgress[requestType]];
        itemListsInProgress := itemListsInProgress - {requestType};
        ok := true;
      case ItemWrongCount(got) =>
        LogError(ItemCountMessage(requestType, got));
        ok := true;
      case ItemBadValue =>
        ok := false;
      case ItemFields(tag, num, weight, flags, clientType, name) =>
        var item := new Item(tag, num, weight, flags, clientType, name);
        itemListsInProgress := itemListsInProgress[requestType := itemListsInProgress[requestType] + [item]];
        ok := true;
    }

    /** The items `RequestOutcome` may speak of. */
    function RequestedItem(msg: string): set<object>
      reads this
    {
      var r := ParseRequest(msg);
      if r.Items? then NewestItem(r.requestType) else {}
    }

    /**
     * What handling "request <msg>" did: a stat line as `StatOutcome`
     * says, an item line as `ItemOutcome` says, the player's tag and title
     * stored, a tag `int()` rejects stops the handler with `ok == false`
     * before anything changes, and anything else is logged as an error.
     */
    twostate predicate RequestOutcome(msg: string, ok: bool)
      reads this, playerInfo, RequestedItem(msg)
    {
      var r := ParseRequest(msg);
      && ((r.StatBlock? || r.StatWrongCount? || r.StatBadValue? || r.UnknownStat?) ==> StatOutcome(r, ok))
      && (r.Items? ==> unchanged(playerInfo) && ItemOutcome(r.requestType, r.rest, ok))
      && (r.PlayerId? ==>
            && ok && playerInfo.tag == Some(r.tag) && playerInfo.title == Some(r.title) && playerInfo.havePlayerId
            && playerInfo.stats == old(playerInfo.stats)
            && (forall c :: playerInfo.Have(c) == old(playerInfo.Have(c)))
            && toClient == old(toClient) && InputsUnchanged())
      && (r.PlayerBadTag? ==> !ok && unchanged(this) && unchanged(playerInfo))
      && (r.Unrecognized? ==>
            && ok && unchanged(playerInfo) && InputsUnchanged()
            && toClient == old(toClient) + [ErrorLine("Unrecognized request \"" + msg + "\"")])
    }

    /** `_handleRequest`: stat blocks, item lines and the player's identification. */
    method HandleRequest(msg: string) returns (ok: bool)
      requires Valid()
      modifies this, playerInfo
      ensures Valid() && PacingUnchanged() && RequestOutcome(msg, ok)
    {
      var (isStat, rest) := CheckPrefix(msg, "stat ");
      if isStat {
        ok := HandleRequestStat(rest);
        return;
      }
      var (isItem, rest') := CheckPrefix(msg, "items ");
      if isItem {
        var (requestType, _, more) := Partition(rest', ' ');
        ok := HandleRequestItem(requestType, more);
        return;
      }
      var (isPlayer, rest'') := CheckPrefix(msg, "player ");
      if isPlayer {
        var player := ParsePlayer(rest'');
        assert ParseRequest(msg) == player;
        if player.PlayerBadTag? {
          return false;
        }
        playerInfo.SetPlayerId(player.tag, player.title);
        return true;
      }
      LogError("Unrecognized request \"" + msg + "\"");
      ok := true;
    }

    /**
     * `_handleClientInput`: an acknowledgement releases pending commands,
     * "watch" and "request" lines go to their handlers, a scripttell and any
     * other line join their queues. `ok == false` stands for the
     * `ValueError` a handler raises on a number `int()` rejects.
     */
    method HandleClientInput(msg: string) returns (ok: bool)
      requires Valid()
      modifies this, playerInfo
      ensures Valid()
      ensures pendingScripttells == old(pendingScripttells) + ScripttellOf(msg)
      ensures pendingMiscInputs == old(pendingMiscInputs) + MiscOf(msg)
      ensures !Classify(msg).Ack? ==> PacingUnchanged()
      ensures targetPendingCommands == old(targetPendingCommands)
      ensures (commandQueue, pendingCommands) == AckStep((old(commandQueue), old(pendingCommands)), targetPendingCommands, msg)
      ensures !ok ==> MayRaise(msg)
      ensures Classify(msg).Ack? ==>
        && ok && unchanged(playerInfo) && InputsUnchanged()
        && (old(pendingCommands) == [] ==> unchanged(this))
        && (old(pendingCommands) != [] ==>
              && (commandQueue, pendingCommands) == Pump(old(commandQueue), Acknowledge(old(pendingCommands)), targetPendingCommands)
              && |Acknowledge(old(pendingCommands))| <= |pendingCommands|
              && toClient == old(toClient) + Encodings(pendingCommands[|Acknowledge(old(pendingCommands))|..]))
      ensures Classify(msg).Watch? ==>
        toClient == old(toClient) && InputsUnchanged() && WatchOutcome(Classify(msg).rest, ok)
      ensures Classify(msg).Request? ==> RequestOutcome(Classify(msg).rest, ok)
      ensures Classify(msg).Scripttell? || Classify(msg).Misc? ==>
        ok && unchanged(playerInfo) && toClient == old(toClient)
        && itemLists == old(itemLists) && itemListsInProgress == old(itemListsInProgress)
    {
      var input := Classify(msg);
      assert ScripttellOf(msg) == (if input.Scripttell? then [input.text] else []);
      assert MiscOf(msg) == (if input.Misc? then [msg] else []);
      match input
      case Ack =>
        HandleComc();
        ok := true;
      case Watch(rest) =>
        ok := HandleWatch(rest);
      case Request(rest) =>
        ok := HandleRequest(rest);
      case Scripttell(text) =>
        pendingScripttells := pendingScripttells + [text];
        ok := true;
      case Misc(line) =>
        pendingMiscInputs := pendingMiscInputs + [line];
        ok := true;
    }

    /**
     * `_handlePendingClientInputs`: each line that has arrived, without its
     * newline, is handled in turn. The lines are given; waiting on standard
     * input is not part of the model. The handling stops at the first line
     * whose handler raises.
     */
    method HandlePendingClientInputs(lines: seq<string>) returns (handled: nat, ok: bool)
      requires Valid()
      modifies this, playerInfo
      ensures Valid() && handled <= |lines|
      ensures ok ==> handled == |lines|
      ensures !ok ==> 0 < handled && MayRaise(ChompSuffix(lines[handled - 1], "\n"))
      ensures pendingScripttells == old(pendingScripttells) + Scripttells(Chomped(lines[..handled]))
      ensures pendingMiscInputs == old(pendingMiscInputs) + MiscInputs(Chomped(lines[..handled]))
      ensures targetPendingCommands == old(targetPendingCommands)
      ensures (commandQueue, pendingCommands)
        == AfterAcks((old(commandQueue), old(pendingCommands)), targetPendingCommands, Chomped(lines[..handled]))
    {
      handled, ok := 0, true;
      ghost var done: seq<string> := [];
      while handled < |lines|
        invariant Valid() && handled <= |lines| && ok
        invariant done == Chomped(lines[..handled])
        invariant pendingScripttells == old(pendingScripttells) + Scripttells(done)
        invariant pendingMiscInputs == old(pendingMiscInputs) + MiscInputs(done)
        invariant targetPendingCommands == old(targetPendingCommands)
        invariant (commandQueue, pendingCommands)
          == AfterAcks((old(commandQueue), old(pendingCommands)), targetPendingCommands, done)
      {
        var msg := ChompSuffix(lines[handled], "\n");
        ok := HandleClientInput(msg);
        AfterAcksSnoc((old(commandQueue), old(pendingCommands)), targetPendingCommands, done, msg);
        QueuesSnoc(done, msg);
        ConcatAssoc(old(pendingScripttells), Scripttells(done), ScripttellOf(msg));
        ConcatAssoc(old(pendingMiscInputs), MiscInputs(done), MiscOf(msg));
        ChompedPrefix(lines, handled);
        done := done + [msg];
        handled := handled + 1;
        if !ok {
          return;
        }
      }
    }
  }

  /**
   * The lines whose handler can raise `ValueError`: a watched stat, a
   * stat block, an item line or a player tag with a number `int()`
   * rejects. (An item line for a list not being received is only warned
   * about, so whether it raises also depends on the state.)
   */
  predicate MayRaise(msg: string) {
    match Classify(msg)
    case Watch(rest) => ParseWatch(rest).BadStatValue?
    case Request(rest) =>
      var r := ParseRequest(rest);
      r.StatBadValue? || r.PlayerBadTag? || (r.Items? && ParseItemLine(r.rest).ItemBadValue?)
    case _ => false
  }

  /**
   * What one line does to the queued and the pending commands: an
   * acknowledgement with commands pending releases them as `Acknowledge`
   * says and pumps the queue; every other line leaves both alone.
   */
  function AckStep(state: (seq<Command>, seq<Command>), target: int, msg: string): (seq<Command>, seq<Command>) {
    if Classify(msg).Ack? && state.1 != [] then Pump(state.0, Acknowledge(state.1), target) else state
  }

  /** The queued and pending commands after the lines `msgs`, one `AckStep` each. */
  function AfterAcks(state: (seq<Command>, seq<Command>), target: int, msgs: seq<string>): (seq<Command>, seq<Command>)
  {
    if msgs == [] then state
    else AckStep(AfterAcks(state, target, msgs[..|msgs| - 1]), target, msgs[|msgs| - 1])
  }

  lemma AfterAcksSnoc(state: (seq<Command>, seq<Command>), target: int, msgs: seq<string>, msg: string)
    ensures AfterAcks(state, target, msgs + [msg]) == AckStep(AfterAcks(state, target, msgs), target, msg)
  {
    assert (msgs + [msg])[..|msgs|] == msgs;
  }

  /** A batch of lines keeps the pacing invariant, and the queue only loses commands from its front. */
  lemma {:induction false} AfterAcksPaced(state: (seq<Command>, seq<Command>), target: int, msgs: seq<string>)
    requires Paced(state.0, state.1, target)
    ensures var r := AfterAcks(state, target, msgs);
      && Paced(r.0, r.1, target)
      && |r.0| <= |state.0| && r.0 == state.0[|state.0| - |r.0|..]
    decreases |msgs|
  {
    if msgs != [] {
      var before := AfterAcks(state, target, msgs[..|msgs| - 1]);
      AfterAcksPaced(state, target, msgs[..|msgs| - 1]);
      if Classify(msgs[|msgs| - 1]).Ack? && before.1 != [] {
        PumpResult(before.0, Acknowledge(before.1), target);
      }
    }
  }

  /** Lines without an acknowledgement leave the queued and pending commands alone. */
  lemma {:induction false} AfterAcksNoAcks(state: (seq<Command>, seq<Command>), target: int, msgs: seq<string>)
    requires forall i :: 0 <= i < |msgs| ==> !Classify(msgs[i]).Ack?
    ensures AfterAcks(state, target, msgs) == state
    decreases |msgs|
  {
    if msgs != [] {
      AfterAcksNoAcks(state, target, msgs[..|msgs| - 1]);
    }
  }

  /** Handling one more line adds what that line brings to each queue. */
  lemma QueuesSnoc(msgs: seq<string>, msg: string)
    ensures Scripttells(msgs + [msg]) == Scripttells(msgs) + ScripttellOf(msg)
    ensures MiscInputs(msgs + [msg]) == MiscInputs(msgs) + MiscOf(msg)
  {
    assert (msgs + [msg])[..|msgs|] == msgs;
  }

  lemma ChompedPrefix(lines: seq<string>, n: nat)
    requires n < |lines|
    ensures Chomped(lines[..n + 1]) == Chomped(lines[..n]) + [ChompSuffix(lines[n], "\n")]
  {
    assert lines[..n + 1] == lines[..n] + [lines[n]];
    ChompedSnoc(lines[..n], lines[n]);
  }

  /** What a line adds to the scripttell queue. */
  function ScripttellOf(msg: string): (r: seq<string>)
    ensures |r| <= 1
    ensures r != [] <==> StartsWith(msg, "scripttell ") && !StartsWith(msg, "watch ") && !StartsWith(msg, "request ")
    ensures r != [] ==> "scripttell " + r[0] == msg
  {
    match Classify(msg)
    case Scripttell(text) => [text]
    case _ => []
  }

  /** What a line adds to the queue of other inputs: the line itself when no handler takes it. */
  function MiscOf(msg: string): (r: seq<string>)
    ensures r == [] || r == [msg]
    ensures r != [] <==> !StartsWith(msg, "watch ") && !StartsWith(msg, "request ") && !StartsWith(msg, "scripttell ")
  {
    if Classify(msg).Misc? then [msg] else []
  }

  /** The scripttells among `msgs`, in order. */
  function Scripttells(msgs: seq<string>): seq<string> {
    if msgs == [] then [] else Scripttells(msgs[..|msgs| - 1]) + ScripttellOf(msgs[|msgs| - 1])
  }

  /** The other inputs among `msgs`, in order. */
  function MiscInputs(msgs: seq<string>): seq<string> {
    if msgs == [] then [] else MiscInputs(msgs[..|msgs| - 1]) + MiscOf(msgs[|msgs| - 1])
  }

  /** `chompSuffix` of each line: the lines without their newlines. */
  function Chomped(lines: seq<string>): (r: seq<string>)
    ensures |r| == |lines|
    ensures forall i :: 0 <= i < |lines| ==> r[i] == ChompSuffix(lines[i], "\n")
  {
    if lines == [] then [] else Chomped(lines[..|lines| - 1]) + [ChompSuffix(lines[|lines| - 1], "\n")]
  }

  lemma ChompedSnoc(lines: seq<string>, line: string)
    ensures Chomped(lines + [line]) == Chomped(lines) + [ChompSuffix(line, "\n")]
  {
    assert (lines + [line])[..|lines|] == lines;
  }

  /** "scripttell <text>" for each text, as the client sends them. */
  function Tells(texts: seq<string>): (r: seq<string>)
    ensures |r| == |texts|
    ensures forall i :: 0 <= i < |texts| ==> r[i] == "scripttell " + texts[i]
  {
    if texts == [] then [] else Tells(texts[..|texts| - 1]) + ["scripttell " + texts[|texts| - 1]]
  }

  /** Every scripttell reaches its queue, with its text intact and in order. */
  lemma {:induction false} ScripttellsOfTells(texts: seq<string>)
    ensures Scripttells(Tells(texts)) == texts
    ensures MiscInputs(Tells(texts)) == []
    decreases |texts|
  {
    if texts != [] {
      var init := texts[..|texts| - 1];
      var last := texts[|texts| - 1];
      assert Tells(texts)[..|texts| - 1] == Tells(init);
      ScripttellsOfTells(init);
      ClassifyScripttell(last);
      assert texts == init + [last];
    }
  }

  /** Lines read with their newlines are chomped back to what was sent. */
  lemma {:induction false} ChompedLines(msgs: seq<string>, lines: seq<string>)
    requires |lines| == |msgs|
    requires forall i :: 0 <= i < |msgs| ==> lines[i] == msgs[i] + "\n"
    ensures Chomped(lines) == msgs
  {
    forall i | 0 <= i < |msgs|
      ensures Chomped(lines)[i] == msgs[i]
    {
      ChompSuffixOfConcat(msgs[i], "\n");
    }
  }
}
