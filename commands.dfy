/**
 * `Command` of lib/client_interfacer.py: a command's text, an optional
 * repeat count and whether it is "special", together with its wire
 * encoding (`Command.encode`) and the commands the client interfacer builds
 * for items (`getMarkCommand`, `getApplyCommand`, `_getMoveCommand` and the
 * three callers of the latter).
 */
module Commands {
  import opened Wrappers
  import opened Strings
  import opened Items

  /** `Command.DEFAULT_COUNT`: the count sent when none is given. */
  const DefaultCount: int := 1

  datatype Command = Command(text: string, count: Option<int>, isSpecial: bool) {

    /** `getsComc`: will the server acknowledge this command with a "comc"? */
    predicate GetsComc() {
      !isSpecial
    }

    /**
     * `encode`: "issue <count> 1 <text>" for an ordinary command, with the
     * default count when none is given, and "issue <text>" for a special
     * one (the client's own "issue mark", "issue apply" and "issue move"
     * forms).
     */
    function Encode(): (r: string)
      ensures StartsWith(r, "issue ") && EndsWith(r, text)
      ensures isSpecial ==> r == "issue " + text
    {
      var head := if isSpecial then "" else IntToString(count.GetOr(DefaultCount)) + " 1 ";
      assert ("issue " + head + text)[..6] == "issue ";
      assert ("issue " + head + text)[|"issue " + head + text| - |text|..] == text;
      "issue " + head + text
    }
  }

  /** The "stay" no-op: an ordinary direction command that the server acknowledges. */
  const NoOp: Command := Command("stay", None, false)

  /** What a line sent to the client says, read back. */
  datatype Wire = Issue(count: int, text: string) | SpecialIssue(text: string) | NotIssue

  /**
   * Reads an outbound line: "issue <int> 1 <text>" is an ordinary command,
   * any other "issue <text>" a special one.
   */
  function Decode(line: string): Wire {
    var (isIssue, rest) := CheckPrefix(line, "issue ");
    if !isIssue then NotIssue
    else if HasCountPrefix(rest) then
      var (countText, _, after) := Partition(rest, ' ');
      Issue(ParseInt(countText).value, after[2..])
    else SpecialIssue(rest)
  }

  /** Whether `rest` starts with an integer, a space and "1 ". */
  predicate HasCountPrefix(rest: string) {
    var (countText, found, after) := Partition(rest, ' ');
    found && ParseInt(countText).Some? && StartsWith(after, "1 ")
  }

  /** An ordinary command decodes to its count (or the default) and its text. */
  lemma DecodeEncode(c: Command)
    requires !c.isSpecial
    ensures Decode(c.Encode()) == Issue(c.count.GetOr(DefaultCount), c.text)
  {
    var n := c.count.GetOr(DefaultCount);
    var rest := IntToString(n) + " 1 " + c.text;
    assert c.Encode() == "issue " + rest;
    CheckPrefixOfConcat("issue ", rest);
    CountPrefixOfEncoded(n, c.text);
  }

  /** The part after "issue " of an ordinary command's encoding has the count shape. */
  lemma CountPrefixOfEncoded(n: int, text: string)
    ensures var rest := IntToString(n) + " 1 " + text;
      && HasCountPrefix(rest)
      && Partition(rest, ' ') == (IntToString(n), true, "1 " + text)
      && ParseInt(IntToString(n)) == Some(n)
      && ("1 " + text)[2..] == text
  {
    var digits := IntToString(n);
    assert digits + " 1 " + text == digits + [' '] + ("1 " + text);
    PartitionOfConcat(digits, ' ', "1 " + text);
    ParseIntOfIntToString(n);
    StartsWithConcat("1 ", text);
  }

  /**
   * A special command decodes as special, unless its own text has the
   * shape of an ordinary command's count and "1".
   */
  lemma DecodeEncodeSpecial(c: Command)
    requires c.isSpecial && !HasCountPrefix(c.text)
    ensures Decode(c.Encode()) == SpecialIssue(c.text)
  {
    CheckPrefixOfConcat("issue ", c.text);
  }

  /** `getMarkCommand`: the special command "mark <tag>". */
  function MarkCommand(item: Item): (c: Command)
    reads item
    ensures c.isSpecial && !c.GetsComc()
    ensures c.Encode() == "issue mark " + IntToString(item.tag)
  {
    Command("mark " + IntToString(item.tag), None, true)
  }

  /** `getApplyCommand`: the special command "apply <tag>". */
  function ApplyCommand(item: Item): (c: Command)
    reads item
    ensures c.isSpecial && !c.GetsComc()
    ensures c.Encode() == "issue apply " + IntToString(item.tag)
  {
    Command("apply " + IntToString(item.tag), None, true)
  }

  /**
   * `_getMoveCommand`: the special command "move <dest> <tag> <count>",
   * refused (`fatal`, here `None`) for a locked item, because "move"
   * ignores the lock.
   */
  function MoveCommand(item: Item, destTag: int, count: int): (r: Option<Command>)
    reads item
    ensures r.None? <==> item.Has(Locked)
    ensures r.Some? ==> r.value.isSpecial && !r.value.GetsComc()
    ensures r.Some? ==> (r.value.Encode()
      == "issue move " + (IntToString(destTag) + " " + IntToString(item.tag) + " " + IntToString(count)))
  {
    if item.Has(Locked) then None
    else
      var args := IntToString(destTag) + " " + IntToString(item.tag) + " " + IntToString(count);
      var c := Command("move " + args, None, true);
      assert "issue " + c.text == "issue move " + args;
      Some(c)
  }

  /** `getDropCommand`: move the item to destination 0, the floor. */
  function DropCommand(item: Item, count: int): (r: Option<Command>)
    reads item
    ensures r.None? <==> item.Has(Locked)
    ensures r.Some? ==> r.value.isSpecial && !r.value.GetsComc()
    ensures r.Some? ==> (r.value.Encode()
      == "issue move " + (IntToString(0) + " " + IntToString(item.tag) + " " + IntToString(count)))
  {
    MoveCommand(item, 0, count)
  }

  /**
   * `getPickupCommand`: move the item into the player. The player's tag is
   * known once the client interfacer's constructor has returned.
   */
  function PickupCommand(item: Item, playerTag: Option<int>, count: int): (r: Option<Command>)
    reads item
    requires playerTag.Some?
    ensures r.None? <==> item.Has(Locked)
    ensures r.Some? ==> r.value.isSpecial && !r.value.GetsComc()
    ensures r.Some? ==> (r.value.Encode()
      == "issue move " + (IntToString(playerTag.value) + " " + IntToString(item.tag) + " " + IntToString(count)))
  {
    MoveCommand(item, playerTag.value, count)
  }

  /** `getMoveCommand`: move the item into the container `dest`. */
  function MoveIntoCommand(item: Item, dest: Item, count: int): (r: Option<Command>)
    reads item, dest
    ensures r.None? <==> item.Has(Locked)
    ensures r.Some? ==> r.value.isSpecial && !r.value.GetsComc()
    ensures r.Some? ==> (r.value.Encode()
      == "issue move " + (IntToString(dest.tag) + " " + IntToString(item.tag) + " " + IntToString(count)))
  {
    MoveCommand(item, dest.tag, count)
  }
}
