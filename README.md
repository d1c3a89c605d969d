# crossfire-cyborg core, modelled in Dafny

crossfire-cyborg drives a Crossfire game client from scripts. A script talks to
the client over standard input and output. Commands go out as "issue" lines.
The client sends back "watch", "request", "scripttell" and other lines.

This project models three parts of it:

- **The client interfacer of `lib/client_interfacer.py`** (modules `Client`,
  `Pacing`, `Routing`, `Commands`, `Player`, `Items`, `Strings`).
  - Commands wait in a queue. They move to a list of *pending* commands as the
    pump (`_pumpQueue`) sends them.
  - A "watch comc" acknowledgement releases pending commands up to and
    including the first one the server acknowledges. "Special" commands get no
    acknowledgement, so the pump puts a "stay" no-op before a long run of them.
  - The pacing invariant (`_checkInvariants`) says the queue holds commands
    only when the lower bound on pending commands has reached the target.
  - Incoming lines are routed:
    - "watch stats" lines update the player record;
    - "request stat", "request items" and "request player" lines fill the
      player record and the item lists;
    - scripttells and all other lines go into their own queues.
- **The older `client_interfacer.py` at the top of the repository** (module
  `Legacy`). It encodes commands when they are queued and keeps only a count of
  pending commands. Each "watch comc" lowers that count.
- **`main/walk.py`** (modules `Walk` and `Graphs`).
  - Walks can be reversed step by step, and a walk's file name encodes its two
    ends.
  - A `Graph` is an adjacency matrix whose `-1` means "not connected". It is
    built, then finalized, then answers shortest-path queries with Dijkstra's
    algorithm, storing its answers as `Path`s.

The model's shape:

- Objects whose fields the source updates in place are classes:
  `ClientInterfacer` (both versions), `PlayerInfo`, `Item`, `Graph` and `Path`.
  Their methods carry `modifies` clauses.
- Loops stay loops: pumping the queue, handling pending input, the three loops
  of `dijkstra`, and copying, reversing and weighing a path.
- Parsing, encoding and the pacing rules are pure functions. Each method is
  proved against them.
- Standard input and output become sequences of lines. `toClient` holds every
  line written to the client.
- A `ValueError` that `int()` raises on a malformed number becomes `ok ==
  false` from the handler, and the state it would leave half-written is
  left unchanged.

Python's `"%d" %` and `int()` are written out as `IntToString` and `ParseInt`.
`str.split()` (with and without `maxsplit`), `str.partition`, `lstrip`,
`rstrip`, `startswith` and `endswith` are written out in module `Strings`. The
item flag bits are modelled exactly on unbounded integers: `(x & 2^i) != 0` is
bit `i` of `floor(x / 2^i)`.

Special commands (mark, apply, move) still go out with an "issue" prefix:
`Command.encode` (lib/client_interfacer.py:1402-1410) writes them as
"issue <text>", without the count fields, and `Commands.Command.Encode` does
the same.

## Model

| member | source | states |
|---|---|---|
| Strings.CheckPrefix | lib/client_interfacer.py:1497-1511 | the flag holds exactly when `s` starts with `prefix`; then `prefix + rest == s`, otherwise `rest == s` |
| Strings.CheckPrefixOfConcat | lib/client_interfacer.py:1497-1511 | `checkPrefix(prefix + rest, prefix)` gives back `(True, rest)` |
| Strings.ChompPrefix | lib/client_interfacer.py:1519-1523 | with the prefix present, `prefix + result == s`; otherwise `s` is returned unchanged |
| Strings.ChompSuffix | lib/client_interfacer.py:1513-1517 | with the suffix present, `result + suffix == s`; otherwise `s` is returned unchanged (corrected for the empty suffix, see Findings) |
| Strings.ChompSuffixOfConcat | client_interfacer.py:417-421 | chomping a suffix that was just appended gives back the original string |
| Strings.ChompSuffixAsWritten | lib/client_interfacer.py:1513-1517 | `chompSuffix` as written: a present non-empty suffix is removed, a missing one leaves the string, and the empty suffix gives "" |
| Strings.ChompSuffixAgreesOnNonEmptySuffix | lib/client_interfacer.py:1513-1517 | the corrected chomp and the code as written agree for every non-empty suffix |
| Strings.ChompSuffixAsWrittenErasesOnEmptySuffix | lib/client_interfacer.py:1513-1517 | as written, `chompSuffix("abc", "")` returns "" where the corrected chomp returns "abc" |
| Strings.Partition | lib/client_interfacer.py:1001 | `str.partition`: the head has no separator; when one is found, `head + sep + tail == s`, otherwise the head is `s` and the tail is empty |
| Strings.PartitionOfConcat | lib/client_interfacer.py:1001 | partitioning `a + sep + b`, where `a` has no separator, gives back `(a, True, b)` |
| Strings.Split | main/walk.py:81 | `str.split(sep)` has at least one part, and no part contains the separator |
| Strings.SplitOfConcat | main/walk.py:81 | splitting `a + sep + b`, where `a` has no separator, gives `a` followed by the split of `b` |
| Strings.SplitNoSep | main/walk.py:81 | a string without the separator splits into itself alone |
| Strings.LStrip | lib/client_interfacer.py:1071 | `lstrip()` returns a suffix of the string that has no leading whitespace, and everything it removed is whitespace |
| Strings.LStripOfSpaces | lib/client_interfacer.py:1071 | `lstrip()` of a run of whitespace followed by a string that does not start with whitespace is that string |
| Strings.SplitWs | lib/client_interfacer.py:1141 | `split(None, maxsplit)` has at most `maxsplit + 1` fields |
| Strings.SplitWsFields | lib/client_interfacer.py:1085-1141 | every field of `split()` is non-empty with no leading space; all fields but the last of `split(None, n)` contain no space |
| Strings.SplitJoinSpaces | lib/client_interfacer.py:1085 | `split()` of non-empty, space-free words joined by single spaces gives back the words |
| Strings.SplitWsWord | lib/client_interfacer.py:1141 | a leading word followed by whitespace or the end is the first field, and splitting continues on the rest with one split fewer |
| Strings.SplitWsLeadingSpace | lib/client_interfacer.py:1141 | a leading space does not change the fields of `split()` |
| Strings.IntToString | lib/client_interfacer.py:655 | `"%d" % i` is non-empty, contains no space, and starts with '-' exactly for negative `i` |
| Strings.ParseInt | lib/client_interfacer.py:1005 | `int()` in base 10: optional surrounding whitespace, an optional sign and at least one digit, `None` for the `ValueError`; `Strings.ParseIntOfIntToString` makes it the inverse of `"%d"` |
| Strings.ParseIntOfIntToString | lib/client_interfacer.py:1005 | `int("%d" % i) == i` for every integer `i` |
| Strings.ParseIntOfNatToString | lib/client_interfacer.py:1005 | `int()` reads back the decimal digits of every natural number |
| Strings.ParseIntOfNegative | lib/client_interfacer.py:1005 | `int()` reads back "-" followed by the digits of `-i`, for every negative `i` |
| Strings.DigitsOfNat | lib/client_interfacer.py:1005 | the digit string of `n` has the value `n` |
| Items.BitIndex | lib/client_interfacer.py:1443-1461 | each of the ten flags has its own bit below 10, from 0x0200 (unidentified) down to 0x0001 (invUpdated) |
| Items.BitIndexInjective | lib/client_interfacer.py:1443-1461 | no two flags share a bit |
| Items.SetBitSpec | lib/client_interfacer.py:1490-1494 | `flags \| 2^i` or `flags & ~2^i` sets bit `i` to the given value and leaves every other bit as it was |
| Items.SetBitRestores | lib/client_interfacer.py:1490-1494 | setting a bit to its opposite and back restores the flags |
| Items.BitOfAddPow2 | lib/client_interfacer.py:1492 | adding `2^i` to flags whose bit `i` is clear sets that bit and no other |
| Items.BitOfSubPow2 | lib/client_interfacer.py:1494 | subtracting `2^i` from flags whose bit `i` is set clears it |
| Items.BitQuotient | lib/client_interfacer.py:1487-1488 | bit `i` is set exactly when the floor quotient by `2**i` is odd, which is `(x & 2**i) != 0` on unbounded two's complement |
| Items.Item.Has | lib/client_interfacer.py:1443-1461 | each flag getter is `(flags & bit) != 0` for the flag's own bit, 0x0200 for `unidentified` down to 0x0001 for `invUpdated` |
| Items.Item.Set | lib/client_interfacer.py:1465-1494 | a flag setter gives the flag the new value and leaves the other nine flags unchanged |
| Items.Item.constructor | lib/client_interfacer.py:1416-1442 | an item holds the tag, count, weight, flags, type and name it was built with |
| Items.LockedMagicalExample | lib/client_interfacer.py:1443-1494 | flags 0x0110 report locked and magical and nothing else, and clearing locked leaves 0x0100 |
| Commands.Command.GetsComc | lib/client_interfacer.py:1395-1400 | a "comc" comes back exactly for commands that are not special |
| Commands.Command.Encode | lib/client_interfacer.py:1402-1410 | the wire line starts with "issue " and ends with the command's text; a special command is exactly "issue " + text |
| Commands.DecodeEncode | lib/client_interfacer.py:1402-1410 | an ordinary command's line reads back as its count (1 when none is given) and its text |
| Commands.DecodeEncodeSpecial | lib/client_interfacer.py:1402-1410 | a special command's line reads back as its text, unless that text itself starts like a count |
| Commands.CountPrefixOfEncoded | lib/client_interfacer.py:1408 | the "<count> 1 " head of an encoded command is found, partitioned off and parsed back to the count |
| Commands.MarkCommand | lib/client_interfacer.py:593-598 | `getMarkCommand` is special, gets no "comc", and is sent as "issue mark <tag>" |
| Commands.ApplyCommand | lib/client_interfacer.py:600-605 | `getApplyCommand` is special, gets no "comc", and is sent as "issue apply <tag>" |
| Commands.MoveCommand | lib/client_interfacer.py:644-656 | `_getMoveCommand` refuses exactly the locked items; otherwise it is special and sent as "issue move <dest> <tag> <count>" |
| Commands.DropCommand | lib/client_interfacer.py:607-622 | `getDropCommand` moves to destination 0 and refuses exactly the locked items |
| Commands.PickupCommand | lib/client_interfacer.py:624-631 | `getPickupCommand` moves into the player's tag and refuses exactly the locked items |
| Commands.MoveIntoCommand | lib/client_interfacer.py:633-640 | `getMoveCommand` moves into the container's tag and refuses exactly the locked items |
| Player.StatNamed | lib/client_interfacer.py:999-1045 | the stat a "watch stats" name selects is the one of that name |
| Player.StatNamedOfName | lib/client_interfacer.py:999-1045 | each of the nineteen stats is selected by its own name, and no name contains a space |
| Player.WithBlock | lib/client_interfacer.py:1346-1372 | storing a block sets each member of the block to its value in order, keeps every other known stat, and adds no other stat |
| Player.PlayerInfo.constructor | lib/client_interfacer.py:1286-1318 | a new player record knows no id and no stats, and no block is marked complete |
| Player.PlayerInfo.Name | lib/client_interfacer.py:1327-1331 | `name` is absent exactly when the title is, and otherwise is the title's whole first word: a space-free prefix that ends the title or is followed by a space |
| Player.PlayerInfo.HaveAllStats | lib/client_interfacer.py:1374-1376 | the tag and the three stat blocks have all arrived |
| Player.PlayerInfo.AllStatsKnown | lib/client_interfacer.py:1374-1376 | once `haveAllStats` holds, the tag and every one of the nineteen stats are known |
| Player.PlayerInfo.SetPlayerId | lib/client_interfacer.py:1341-1344 | stores tag and title and marks the id known; stats and block flags are untouched |
| Player.PlayerInfo.SetStat | lib/client_interfacer.py:1005-1045 | one stat takes the new value; nothing else changes |
| Player.PlayerInfo.SetVitalStats | lib/client_interfacer.py:1346-1354 | the seven vital stats take the new values and the vital flag is set; the other flags and the id are untouched |
| Player.PlayerInfo.SetCombatStats | lib/client_interfacer.py:1356-1362 | the five combat stats take the new values and the combat flag is set; the rest is untouched |
| Player.PlayerInfo.SetAbilityScores | lib/client_interfacer.py:1364-1372 | the seven ability scores take the new values and the ability flag is set; the rest is untouched |
| Pacing.LeadingUncertain | lib/client_interfacer.py:562-567 | counts the pending commands before the first one that gets a "comc", none of which gets one |
| Pacing.LowBound | lib/client_interfacer.py:548-569 | the lower bound never exceeds the number of pending commands |
| Pacing.HighBound | lib/client_interfacer.py:571-576 | the upper bound is the number of pending commands and is at least the lower bound |
| Pacing.LowBoundZeroIff | lib/client_interfacer.py:402-404 | the lower bound is 0 exactly when no pending command gets a "comc" (the assertion at line 404) |
| Pacing.LowBoundGrows | lib/client_interfacer.py:463-466 | sending one more command never lowers the lower bound |
| Pacing.LowBoundAppend | lib/client_interfacer.py:463-466 | sending one command adds 1 to the lower bound when some pending command already gets a "comc"; otherwise the bound becomes 1 if the new command gets one and stays 0 if not |
| Pacing.MaxConsecutiveNonComc | lib/client_interfacer.py:409 | the run limit is at least 1 and at least `target - 1` |
| Pacing.CanWait | lib/client_interfacer.py:499-513 | waiting is safe exactly when nothing is pending or some pending command gets a "comc" |
| Pacing.Pump | lib/client_interfacer.py:391-479 | the corrected `_pumpQueue`: the queue never grows and the pending commands never shrink; `PumpResult`, `PumpDispatchesInOrder` and `PumpBound` state what it sends |
| Pacing.PumpStep | lib/client_interfacer.py:452-463 | one round sends the next command, preceded by a "stay" only under the no-op rule |
| Pacing.PumpStepNoOpRule | lib/client_interfacer.py:452-457 | when nothing pending gets a "comc", the next command does not either, and the run is long enough, a "stay" goes first |
| Pacing.PumpPaced | lib/client_interfacer.py:412-469 | after the pump, the queue is empty or the lower bound has reached the target (the postcondition at line 469) |
| Pacing.PumpTakesFront | lib/client_interfacer.py:413 | what remains of the queue is a suffix of it: commands leave from the front |
| Pacing.PumpAppends | lib/client_interfacer.py:455-463 | the old pending commands stay in place as a prefix, and nothing is sent when nothing leaves the queue |
| Pacing.PumpResult | lib/client_interfacer.py:391-469 | the four facts above about one pump, together |
| Pacing.PumpIdle | lib/client_interfacer.py:412 | a pump on a state that already keeps the invariant changes nothing |
| Pacing.PumpDispatchesInOrder | lib/client_interfacer.py:412-463 | the newly pending commands are the commands taken from the queue, in order, each possibly preceded by a "stay" and nothing else |
| Pacing.StepBound | lib/client_interfacer.py:471-479 | one round started below the target ends with a lower bound of at most `max(2, target)` |
| Pacing.PumpBound | lib/client_interfacer.py:471-479 | after a pump that sent anything, the lower bound is at most `max(2, target)` (the assertion at line 478, for the corrected pump) |
| Pacing.PumpBlindWindow | lib/client_interfacer.py:415-446 | when no pending command gets a "comc" after a pump, the run of them did not grow beyond the run limit |
| Pacing.Acknowledge | lib/client_interfacer.py:955-961 | "watch comc" releases a prefix: all commands up to and including the first that gets a "comc", or all of them when none does; the lower bound drops by at least one |
| Pacing.AcknowledgeStep | lib/client_interfacer.py:958-961 | popping a command that gets no "comc" does not change what the acknowledgement leaves |
| Pacing.AcknowledgeFirst | lib/client_interfacer.py:958-961 | when the first pending command gets a "comc", only it is released |
| Pacing.PumpAsWritten | lib/client_interfacer.py:402-469 | `_pumpQueue` as written, with its local `lowBound` and `anyGetsComc`: the queue never grows and the pending commands never shrink |
| Pacing.PumpAsWrittenKeepsInvariant | lib/client_interfacer.py:402-469 | as written, the pump still ends with an empty queue or the lower bound at the target |
| Pacing.PumpAsWrittenOverfills | lib/client_interfacer.py:402-479 | as written, target 1 with three ordinary commands queued sends all three, and the lower bound of 3 breaks the assertion at line 478; the corrected pump sends one |
| Routing.Classify | lib/client_interfacer.py:955-989 | the five kinds of line are told apart by their prefixes, in the source's order, and each keeps the rest of the line after its prefix |
| Routing.ClassifyScripttell | lib/client_interfacer.py:982-985 | "scripttell " + text is a scripttell carrying `text` |
| Routing.ParseWatch | lib/client_interfacer.py:999-1045 | a stat is reported only for lines "stats <name>…", and a value only after "stats <name> "; anything without "stats " is ignored |
| Routing.ParseWatchOfUpdate | lib/client_interfacer.py:999-1045 | "stats <name> <value>" is read back as that stat and value, for each of the nineteen stats |
| Routing.ParseWatchOfNamed | lib/client_interfacer.py:999-1045 | any known name followed by any text `int()` accepts is read as that stat and value |
| Routing.ParseInts | lib/client_interfacer.py:1347-1371 | the `int()` of every field succeeds exactly when each field is a number, and then each value is its field's |
| Routing.ParseIntStrings | lib/client_interfacer.py:1347-1371 | the decimal forms of a list of integers read back as the list |
| Routing.StatFields | lib/client_interfacer.py:1085-1113 | a block's fields are accepted only at the block's size, and a wrong size reports how many `split()` found |
| Routing.StatFieldsOfValues | lib/client_interfacer.py:1085-1113 | a block's values written with single spaces read back as those values |
| Routing.ParseStat | lib/client_interfacer.py:1083-1116 | "hp ", "cmbt " and "stats " select the three blocks; anything else is unrecognized with its text |
| Routing.ParseStatOfKeyword | lib/client_interfacer.py:1083-1113 | each block keyword selects that block's fields |
| Routing.ParseRequest | lib/client_interfacer.py:1058-1075 | stat blocks have the right size, item request types contain no space, and an unrecognized request keeps its text |
| Routing.ParsePlayer | lib/client_interfacer.py:1068-1073 | the tag is the first word read by `int()`, and a bad tag is reported exactly when `int()` rejects it |
| Routing.ParseRequestOfStat | lib/client_interfacer.py:1058-1061 | "stat " + rest is read as a stat line |
| Routing.ParseRequestOfItems | lib/client_interfacer.py:1063-1066 | "items <type> <more>" with a space-free type is read as an item line of that type with the rest `more` |
| Routing.ParseRequestOfPlayer | lib/client_interfacer.py:1068-1073 | "player " + rest goes to the player branch with `rest` |
| Routing.ParsePlayerOfId | lib/client_interfacer.py:1068-1073 | a tag written by `%d`, then " Player:", whitespace and a name read back as that tag and that name: "Player:" and the leading whitespace are removed from the title |
| Routing.ParseStatBlock | lib/client_interfacer.py:1058-1113 | "stat <keyword> <values>" is read back as that block with those values |
| Routing.ParseItemLine | lib/client_interfacer.py:1133-1148 | "end" and only "end" ends a list; a wrong count is never 6; an item's name is a non-empty field |
| Routing.ParseItemLineOfFields | lib/client_interfacer.py:1141-1148 | five integers and a name, joined by spaces, read back as those fields, for any name (spaces inside it included) |
| Routing.SplitWsWordsThenName | lib/client_interfacer.py:1141 | `split(None, n)` of `n` words followed by a name gives the words and the whole name |
| Client.Encodings | lib/client_interfacer.py:534 | each command sent is written as its encoding, in order |
| Client.ScripttellOf | lib/client_interfacer.py:982-985 | a line is queued as a scripttell exactly when it starts with "scripttell " and not with "watch " or "request ", and the queued text is the rest |
| Client.MiscOf | lib/client_interfacer.py:987-989 | a line goes to the misc queue unchanged exactly when it has none of the three prefixes |
| Client.Chomped | lib/client_interfacer.py:1254-1257 | each line read loses one trailing newline |
| Client.ChompedLines | lib/client_interfacer.py:1254-1257 | lines that are messages plus a newline read back as the messages |
| Client.ScripttellsOfTells | lib/client_interfacer.py:982-985 | a run of scripttell lines fills the scripttell queue with their texts and the misc queue with nothing |
| Client.ClientInterfacer.constructor | lib/client_interfacer.py:155-181 | empty queues and item lists, and "watch comc" then "request player" sent |
| Client.ClientInterfacer.SendCommand | lib/client_interfacer.py:527-535 | the command's encoding is written and the command joins the end of the pending commands |
| Client.ClientInterfacer.SendNoOp | lib/client_interfacer.py:515-525 | a "stay" is sent and becomes pending |
| Client.ClientInterfacer.LogError | lib/client_interfacer.py:1194-1195 | one red "ERROR: " line is written; nothing else changes |
| Client.ClientInterfacer.LogWarning | lib/client_interfacer.py:1191-1192 | one orange "WARNING: " line is written; nothing else changes |
| Client.ClientInterfacer.BoundPendingCommandsLow | lib/client_interfacer.py:548-569 | returns the lower bound, which is 0 exactly when no pending command gets a "comc" |
| Client.ClientInterfacer.BoundPendingCommandsHigh | lib/client_interfacer.py:571-576 | returns the number of pending commands, at least the lower bound |
| Client.ClientInterfacer.HasTargetPendingCommands | lib/client_interfacer.py:541-546 | true exactly when the lower bound reaches the target; when false, the invariant leaves the queue empty |
| Client.ClientInterfacer.CanWaitOnPendingCommands | lib/client_interfacer.py:499-513 | true exactly when nothing is pending or some pending command gets a "comc" |
| Client.ClientInterfacer.EnsureCanWaitOnPendingCommands | lib/client_interfacer.py:481-497 | afterwards waiting is safe; a "stay" is sent exactly when it was not |
| Client.ClientInterfacer.SendNext | lib/client_interfacer.py:413-466 | one round of the pump loop: the pending commands become `PumpStep` of the old ones, their encodings are written, and the local bound and flag stay exact |
| Client.ClientInterfacer.PumpQueue | lib/client_interfacer.py:391-479 | queue and pending commands become `Pump` of the old ones; the newly pending commands are written in order; the invariant holds; after any send the lower bound is at most `max(2, target)` |
| Client.ClientInterfacer.QueueCommand | lib/client_interfacer.py:197-220 | the command joins the end of the queue and the queue is pumped; with commands already waiting, nothing is sent |
| Client.ClientInterfacer.SetTargetPendingCommands | lib/client_interfacer.py:343-357 | the target changes and the queue is pumped; lowering the target sends nothing |
| Client.ClientInterfacer.DropAllQueuedCommands | lib/client_interfacer.py:359-371 | the queue is emptied; pending commands and the invariant remain |
| Client.ClientInterfacer.PopAcknowledged | lib/client_interfacer.py:956-961 | the pending commands become their `Acknowledge` |
| Client.ClientInterfacer.HandleComc | lib/client_interfacer.py:955-967 | with nothing pending, "watch comc" is swallowed; otherwise the pending commands are acknowledged and the queue is pumped, with the new lines written |
| Client.ClientInterfacer.HandleWatch | lib/client_interfacer.py:991-1050 | a known stat with a readable value is stored and nothing else changes; a value `int()` rejects fails; every other watch changes nothing |
| Client.ClientInterfacer.SetStatBlock | lib/client_interfacer.py:1091-1113 | a block's setter stores its values and sets only its flag |
| Client.ClientInterfacer.HandleStatBlock | lib/client_interfacer.py:1085-1092 | a block of the right size with readable values is stored; a wrong size logs the count; a bad value fails with nothing stored |
| Client.ClientInterfacer.HandleRequestStat | lib/client_interfacer.py:1077-1116 | the outcome matches `ParseStat`: a block stored, a count error, a failure, or "Unrecognized request stat" |
| Client.ClientInterfacer.HasItemsOfType | lib/client_interfacer.py:849-856 | a complete list of the type has arrived, even while a newer request is outstanding |
| Client.ClientInterfacer.HasUpdItemsOfType | lib/client_interfacer.py:858-865 | a complete list has arrived and no newer request of the type is outstanding |
| Client.ClientInterfacer.ItemsOfType | lib/client_interfacer.py:832-856 | a list is returned exactly when one has completed, and it is the last complete one |
| Client.ClientInterfacer.RequestItemsOfType | lib/client_interfacer.py:817-830 | a list in progress is an error and nothing is sent; otherwise an empty list is started and "request items <type>" sent; either way `hasUpdItemsOfType` is false |
| Client.ClientInterfacer.HandleRequestItem | lib/client_interfacer.py:1118-1149 | unexpected types are warned about; "end" completes the list and makes `hasUpdItemsOfType` true; a wrong count is an error; a good line appends a new item with its fields; a bad number fails |
| Client.ClientInterfacer.HandleRequest | lib/client_interfacer.py:1052-1075 | stat and item lines go to their handlers; "player <tag> <title>" stores the id; any other request is logged as unrecognized |
| Client.ClientInterfacer.HandleClientInput | lib/client_interfacer.py:946-989 | "watch comc" acknowledges and pumps, with the lines the pump writes; "watch" and "request" lines have exactly the effect their handlers state (`WatchOutcome`, `RequestOutcome`); scripttells and other lines join their queues; nothing else changes; the queued and pending commands change as `AckStep` says and the target never changes |
| Client.ClientInterfacer.HandlePendingClientInputs | lib/client_interfacer.py:937-944 | the chomped lines are handled in order, all of them unless one raises, in which case that line is the last handled; the two queues grow by exactly the scripttells and misc lines among the handled ones; the queued and pending commands are those `AfterAcks` gives: each handled acknowledgement, when commands are pending, releases them as `Acknowledge` says and pumps the queue, and no other line touches them |
| Client.AfterAcksPaced | lib/client_interfacer.py:937-959 | after a batch of lines the pacing invariant still holds, and the queue has lost commands only from its front |
| Client.AfterAcksNoAcks | lib/client_interfacer.py:937-959 | a batch without an acknowledgement leaves the queued and pending commands unchanged |
| Legacy.EncodeCommand | client_interfacer.py:275-276 | the encoded line starts with "issue " and ends with the command |
| Legacy.DecodeEncodeCommand | client_interfacer.py:275-276 | "issue <count> 1 <command>" reads back as the count and the command |
| Legacy.EncodeDefaultCount | client_interfacer.py:275-276 | with the default count of 1, the old encoding is the new one for an ordinary command without a count |
| Legacy.Issued | client_interfacer.py:236-241 | the number sent stops at the queue length or at the maximum, and is 0 when already at the maximum |
| Legacy.ClientInterfacer.constructor | client_interfacer.py:73-115 | an empty queue, no pending commands, and "watch comc" sent |
| Legacy.ClientInterfacer.SetMaxPendingCommands | client_interfacer.py:122-123 | only the maximum changes |
| Legacy.ClientInterfacer.SendCommand | client_interfacer.py:271-273 | the line is written and the count grows by one |
| Legacy.ClientInterfacer.IssueCommandsFromQueue | client_interfacer.py:225-241 | exactly `Issued` commands leave the front of the queue and are written in order, the count grows by as many, and the postcondition at line 240 holds |
| Legacy.ClientInterfacer.QueueCommand | client_interfacer.py:133-155 | the written lines followed by the queue are the old ones plus the new encoded command (first in, first out); exactly `Issued` of the old queue plus the new command are sent, so nothing is sent at or above the maximum, and the count grows by the lines written |
| Legacy.ClientInterfacer.DropAllQueuedCommands | client_interfacer.py:243-253 | the queue is emptied and the count stays |
| Legacy.ClientInterfacer.HandleClientInput | client_interfacer.py:314-323 | "watch comc" lowers the count by one but not below zero and is not kept; any other line is kept |
| Legacy.ClientInterfacer.HandlePendingClientInputs | client_interfacer.py:310-312 | the kept lines are the chomped non-acknowledgements, in order, and the count drops by the number of acknowledgements, floored at zero |
| Legacy.KeptStep | client_interfacer.py:310-323 | one more line adds its own contribution to the kept lines and to the acknowledgements |
| Legacy.ChompNewline | client_interfacer.py:417-421 | exactly one trailing newline is removed when there is one |
| Walk.ReverseStep | main/walk.py:86-98 | a compass step becomes another compass step, different from it; any other step is returned as it is |
| Walk.ReverseStepTwice | main/walk.py:86-98 | reversing a step is an involution; it changes every compass step and leaves every other step alone |
| Walk.ReverseWalk | main/walk.py:100-104 | the reversed walk has the same length |
| Walk.ReverseWalkTwice | main/walk.py:100-104 | reversing a walk twice gives it back |
| Walk.GetFname | main/walk.py:77-78 | the file name starts with "<start>-" and ends with "-path.txt" |
| Walk.GetStartEnd | main/walk.py:80-84 | fails exactly when the name has no "-"; the two parts contain no "-" |
| Walk.GetStartEndOfFname | main/walk.py:77-84 | the ends of a file name made from two "-"-free names are read back |
| Graphs.PathWeightAppend | main/walk.py:167-171 | extending a path by a node adds that edge's weight |
| Graphs.PathWeightReversed | main/walk.py:167-188 | on a symmetric matrix, a reversed path has the same weight |
| Graphs.ReversedTwice | main/walk.py:183-188 | reversing a node list twice gives it back |
| Graphs.ReversedIsPath | main/walk.py:183-188 | on a symmetric matrix, a reversed path from `s` to `t` is a path from `t` to `s` |
| Graphs.Plus | main/walk.py:150-151 | `INFINITY + w` is `INFINITY`, and a finite weight adds |
| Graphs.IndexOf | main/walk.py:228-229 | `getNodeIndex`: the first position holding the name |
| Graphs.PathExtend | main/walk.py:294-300 | a path extended along an edge is a path to the new node, and its weight grows by that edge |
| Graphs.ReachableHasPath | main/walk.py:284-311 | once every node is visited, every node reachable from the source has a path in the table |
| Graphs.DijkstraRound | main/walk.py:292-301 | one round keeps Dijkstra's invariants: visited nodes have their neighbours reached, and an unreached visited node means nothing unvisited is reached |
| Graphs.Graph.constructor | main/walk.py:204-208 | a new graph is empty and mutable |
| Graphs.Graph.TotalWeight | main/walk.py:275-282 | the weight of the stored path, or `INFINITY` exactly when there is none |
| Graphs.Graph.ContainsNode | main/walk.py:222-223 | the name is one of the graph's nodes |
| Graphs.Graph.AddNode | main/walk.py:232-239 | a finalized graph refuses; otherwise the node is appended and the matrix grows to n×n with NOT_CONNECTED in the new row and column and the old entries kept |
| Graphs.Graph.Link | main/walk.py:247-255 | succeeds exactly on a mutable graph, for in-range indices, when the edge is not there yet, and then changes only that entry |
| Graphs.Graph.AddEdge | main/walk.py:247-265 | refused exactly on a finalized graph or an existing edge, with nothing changed; otherwise missing endpoints are added first, in order, the edge then holds the weight and every other entry of the grown matrix is the old one or `NOT_CONNECTED` |
| Graphs.Graph.Finalize | main/walk.py:268-272 | the graph becomes immutable and the table holds `[i]` on its diagonal and nothing else |
| Graphs.Graph.Relax | main/walk.py:292-300 | only the source's row changes, and never for the worse; from a reached node every unvisited neighbour becomes reached, and its path is no heavier than the path to `curr` plus the edge |
| Graphs.Graph.Closest | main/walk.py:302-307 | -1 exactly when all nodes are visited; otherwise an unvisited node no farther than any other unvisited node, and strictly nearer than every unvisited node before it, so the first of equals |
| Graphs.Graph.Dijkstra | main/walk.py:284-311 | only the source's row changes, never for the worse, and afterwards it is closed: every neighbour of a reached node is reached |
| Graphs.Graph.FindShortestPath | main/walk.py:314-326 | fails on an unfinalized graph or a missing name; otherwise returns the table's path, a real path when there is one, and `None` only when there is no path at all |
| Graphs.Path.constructor | main/walk.py:158-162 | a path on a finalized graph starts at `first` |
| Graphs.Path.Append | main/walk.py:173-174 | the node joins the end |
| Graphs.Path.Copy | main/walk.py:176-181 | a fresh path on the same graph with the same nodes |
| Graphs.Path.Reverse | main/walk.py:183-188 | a fresh path on the same graph with the nodes reversed |
| Graphs.Path.GetTotalWeight | main/walk.py:167-171 | the sum of the weights of consecutive edges |

## Left out

- Reading from standard input, `select` timeouts and writing to standard output are not modelled. Input is a given sequence of lines and output is the `toClient` sequence. The blocking loops built on them (`_idleUntil`, `idle`, `pumpEvents`, `execCommand`, `flushCommands`, `waitFor…`, the legacy `_waitUntilNextCommandFinishes`) are left out because they wait on the client.
- `draw` is modelled only for the two colours the core uses: `logError` and `logWarning` write "draw 3 ERROR: …" and "draw 4 WARNING: …" to `toClient` (`ErrorLine`/`WarningLine`). The other colours, the lower panel, the console copy, `_debug` and the process exit of `fatal` are not modelled.
- `Client.ClientInterfacer.constructor` does not model the class counter that raises `RuntimeError` on a second instance (lib/client_interfacer.py:84-86), nor the Linux check before it: the counter is process-wide state outside the object.
- `Legacy.ClientInterfacer.constructor` does not model the `NotImplementedError` raised off Linux (client_interfacer.py:81-83): the platform is outside the model.
- Default arguments are not modelled; callers pass every value. The source's defaults are `targetPendingCommands=6` (lib/client_interfacer.py:72), `maxPendingCommands=6` (client_interfacer.py:73) and `count=0` for the drop, pickup and move builders (lib/client_interfacer.py:607-633).
- `Client.ClientInterfacer.constructor` does not wait for the player's tag, which the source does with `_idleUntil`.
- `Commands.PickupCommand` requires the player's tag to be known, which the source guarantees by waiting in the constructor.
- `Commands.MoveCommand` models the locked-item `fatal` as `None`. The process exit it causes is not modelled.
- `Player.PlayerInfo.SetVitalStats`, `SetCombatStats`, `SetAbilityScores`: the source calls `int()` field by field and can fail half-way. The model parses all fields first and changes nothing on failure.
- `Client.ClientInterfacer.HandlePendingClientInputs` stops at the first line whose handler fails, standing for the uncaught `ValueError`.
- `Routing.ParseItemLine` does not state that the item's name is the line's suffix. `Routing.ParseItemLineOfFields` states the round trip instead.
- `Graphs.Graph.Dijkstra` and `Graphs.Graph.FindShortestPath`, which returns Dijkstra's table entry, are proved sound (every stored path is a real path, and entries only improve) and complete (every reachable node gets a path). Minimality of the stored paths is not proved: `link` accepts any weight, negative ones included, and Dijkstra is not optimal then.
- `Graphs.Graph.Link` takes node indices as natural numbers. The source's `max(start, end) >= n` check lets a negative Python index through, which then wraps around; that case is not modelled.
- The `fatal` calls on a finalized graph, an unknown node or an existing edge become `ok == false` or `Shortest.NoNode`/`NotFinalized` results. `Graphs.Path.constructor` and `Graphs.Graph.TotalWeight` turn their `fatal` into a precondition.
- The graph's table stores node lists, not `Path` objects. `Graphs.Path` is modelled separately with its own methods.
- `Graphs.Graph.TotalWeight` returns `None` for `INFINITY`, and turns the `fatal` on an unfinalized graph (main/walk.py:276-278) into the precondition `!mutable`. The `Infinity` class's comparisons are modelled by `Less`.
- `buildgraph`, `loadwalk`, `savewalk`, `followwalk`, `gettodest`, `main` and `getallservers` read files or drive the client. They are not part of this model.
- `Walk.ReverseWalk` states only the length. The pointwise relation is its definition, and `Walk.ReverseWalkTwice` states the involution.
- Commands are not checked to be well-formed Crossfire commands. Text is carried as given.
- `Strings.IsSpace` and `Strings.ParseInt` know only ASCII whitespace and ASCII decimal digits. Python 3's `str.split()`, `lstrip()` and `int()` also accept the characters \x1c-\x1f, \x85, \xa0 and other Unicode spaces, non-ASCII digits, and underscores between digits (`int("1_0")` is 10). Lines using those are handled differently: "watch stats hp 1_0" stores 10 in the source, while `Client.ClientInterfacer.HandleWatch` reports a failure.
- `Client.ClientInterfacer.HandlePendingClientInputs` does not state the exact lines written to `toClient` for a batch. The per-line effects are stated by `HandleClientInput`.

## Findings

| source | as written | input that shows it | evidently intended | confidence | as-written member | corrected member |
|---|---|---|---|---|---|---|
| lib/client_interfacer.py:465-466 | the local `lowBound` of `_pumpQueue` goes up after a send only when `anyGetsComc` was already true, and sending a command that gets a "comc" does not set `anyGetsComc` | target 1, pending `[east]`, queue `[east, east, east]`, then "watch comc": the pump sends all three, the lower bound becomes 3, and the assertion at line 478 (at most `max(2, 1)`) fails | the bound tracks the real lower bound, so exactly one command is sent | not executed | Pacing.PumpAsWrittenOverfills | Client.ClientInterfacer.PumpQueue |
| lib/client_interfacer.py:1513-1517 | `chompSuffix(s, "")` returns `s[:-0]`, which is "" | `chompSuffix("abc", "")` returns "" | removing an empty suffix leaves the string unchanged | not executed | Strings.ChompSuffixAsWrittenErasesOnEmptySuffix | Strings.ChompSuffix |
