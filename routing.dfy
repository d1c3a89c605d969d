/**
 * How `ClientInterfacer` in lib/client_interfacer.py reads the lines the
 * client sends it: which handler a line goes to (`_handleClientInput`) and
 * what the "watch" and "request" handlers make of their text
 * (`_handleWatch`, `_handleRequest`, `_handleRequestStat` and the parsing
 * half of `_handleRequestItem`). The effects on the interfacer's state are
 * in the Client module.
 *
 * A field that Python's `int()` rejects raises `ValueError` in the source;
 * here the parse says so with a `Bad...` result.
 */
module Routing {
  import opened Wrappers
  import opened Strings
  import opened Player

  /** The handler a line from the client goes to. */
  datatype Input =
    | Ack                      // "watch comc...": a command resolved
    | Watch(rest: string)      // "watch <rest>"
    | Request(rest: string)    // "request <rest>"
    | Scripttell(text: string) // "scripttell <text>"
    | Misc(line: string)       // anything else, kept verbatim

  /**
   * `_handleClientInput`: the prefixes are tried in the order "watch comc",
   * "watch ", "request ", "scripttell ", and the prefix is stripped.
   */
  function Classify(msg: string): (r: Input)
    ensures r.Ack? <==> StartsWith(msg, "watch comc")
    ensures r.Watch? <==> !StartsWith(msg, "watch comc") && StartsWith(msg, "watch ")
    ensures r.Request? <==> !StartsWith(msg, "watch ") && StartsWith(msg, "request ")
    ensures r.Scripttell? <==> (!StartsWith(msg, "watch ") && !StartsWith(msg, "request ")
                                && StartsWith(msg, "scripttell "))
    ensures r.Watch? ==> "watch " + r.rest == msg
    ensures r.Request? ==> "request " + r.rest == msg
    ensures r.Scripttell? ==> "scripttell " + r.text == msg
    ensures r.Misc? ==> r.line == msg
  {
    if StartsWith(msg, "watch comc") then
      assert msg[..6] == msg[..10][..6];
      Ack
    else
      var (isWatch, rest) := CheckPrefix(msg, "watch ");
      if isWatch then Watch(rest)
      else
        var (isRequest, rest) := CheckPrefix(msg, "request ");
        if isRequest then Request(rest)
        else
          var (isScripttell, rest) := CheckPrefix(msg, "scripttell ");
          if isScripttell then Scripttell(rest) else Misc(msg)
  }

  /** A scripttell reaches its queue with exactly the text the player typed. */
  lemma ClassifyScripttell(text: string)
    ensures Classify("scripttell " + text) == Scripttell(text)
  {
    var msg := "scripttell " + text;
    assert msg[0] == 's';
    CheckPrefixOfConcat("scripttell ", text);
  }

  /** What "watch <rest>" means to `_handleWatch`. */
  datatype WatchLine =
    | StatUpdate(stat: Stat, value: int)     // "stats <name> <int>" for a known stat
    | BadStatValue(stat: Stat, text: string) // a known stat whose value `int()` rejects
    | Ignored                                // any other watch

  /** `_handleWatch`: only "stats ..." watches are read. */
  function ParseWatch(msg: string): (r: WatchLine)
    ensures !r.Ignored? ==> StartsWith(msg, "stats " + StatName(r.stat))
    ensures r.StatUpdate? ==> StartsWith(msg, "stats " + StatName(r.stat) + " ")
    ensures !StartsWith(msg, "stats ") ==> r == Ignored
  {
    var (isStats, rest) := CheckPrefix(msg, "stats ");
    if !isStats then Ignored
    else
      var r := ParseStatsWatch(rest);
      if r.Ignored? then r
      else
        StartsWithPrepend("stats ", rest, StatName(r.stat));
        if r.StatUpdate? then
          StartsWithPrepend("stats ", rest, StatName(r.stat) + " ");
          assert "stats " + (StatName(r.stat) + " ") == "stats " + StatName(r.stat) + " ";
          r
        else r
  }

  /**
   * The stat name before the first space and the value after it; a stat
   * the source does not know is ignored.
   */
  function ParseStatsWatch(rest: string): (r: WatchLine)
    ensures !r.Ignored? ==> StartsWith(rest, StatName(r.stat))
    ensures r.StatUpdate? ==> StartsWith(rest, StatName(r.stat) + " ")
  {
    var (name, found, value) := Partition(rest, ' ');
    match StatNamed(name)
    case None => Ignored
    case Some(stat) =>
      if !found then
        assert rest == name + [];
        StartsWithConcat(name, []);
        BadStatValue(stat, value)
      else
        assert rest == (name + " ") + value;
        StartsWithConcat(name + " ", value);
        StartsWithTrans(rest, name, " ");
        match ParseInt(value)
        case None => BadStatValue(stat, value)
        case Some(v) => StatUpdate(stat, v)
  }

  /** Every stat the client watches is read back with its value. */
  lemma ParseWatchOfUpdate(stat: Stat, value: int)
    ensures ParseWatch("stats " + StatName(stat) + " " + IntToString(value)) == StatUpdate(stat, value)
  {
    StatNamedOfName(stat);
    ParseIntOfIntToString(value);
    ParseWatchOfNamed(StatName(stat), stat, IntToString(value), value);
  }

  lemma ParseWatchOfNamed(name: string, stat: Stat, text: string, value: int)
    requires StatNamed(name) == Some(stat) && ' ' !in name && ParseInt(text) == Some(value)
    ensures ParseWatch("stats " + name + " " + text) == StatUpdate(stat, value)
  {
    assert "stats " + name + " " + text == "stats " + (name + " " + text);
    ParseWatchOfStats(name + " " + text);
    ParseStatsWatchOf(name, stat, text, value);
  }

  /** A "stats" watch is read by `ParseStatsWatch` on what follows "stats ". */
  lemma ParseWatchOfStats(rest: string)
    ensures ParseWatch("stats " + rest) == ParseStatsWatch(rest)
  {
    CheckPrefixOfConcat("stats ", rest);
  }

  lemma ParseStatsWatchOf(name: string, stat: Stat, text: string, value: int)
    requires StatNamed(name) == Some(stat) && ' ' !in name && ParseInt(text) == Some(value)
    ensures ParseStatsWatch(name + " " + text) == StatUpdate(stat, value)
  {
    assert name + " " + text == name + [' '] + text;
    PartitionOfConcat(name, ' ', text);
  }

  /** The keyword of each "request stat" block. */
  function StatKeyword(c: Category): string {
    match c
    case Vital => "hp"
    case Combat => "cmbt"
    case Abilities => "stats"
  }

  /** What "request <rest>" means to `_handleRequest`. */
  datatype RequestLine =
    | StatBlock(category: Category, values: seq<int>)   // a block with the right number of fields
    | StatWrongCount(category: Category, got: nat)      // logged and dropped
    | StatBadValue(category: Category)                  // a field `int()` rejects
    | UnknownStat(text: string)                         // logged and dropped
    | Items(requestType: string, rest: string)          // one line of "request items"
    | PlayerId(tag: int, title: string)                 // "request player"
    | PlayerBadTag(text: string)                        // a tag `int()` rejects
    | Unrecognized(text: string)                        // logged and dropped

  /** Every one of `parts` is accepted by `int()`. */
  predicate AllInts(parts: seq<string>) {
    forall i :: 0 <= i < |parts| ==> ParseInt(parts[i]).Some?
  }

  /** `values` are what `int()` makes of `parts`, one for one. */
  predicate ParsedAs(parts: seq<string>, values: seq<int>) {
    |values| == |parts| && forall i :: 0 <= i < |parts| ==> ParseInt(parts[i]) == Some(values[i])
  }

  /** `int()` applied to each of `parts`; `None` when any of them fails. */
  function ParseInts(parts: seq<string>): (r: Option<seq<int>>)
    ensures r.Some? <==> AllInts(parts)
    ensures r.Some? ==> ParsedAs(parts, r.value)
  {
    if parts == [] then Some([])
    else
      match (ParseInt(parts[0]), ParseInts(parts[1..]))
      case (None, _) =>
        assert !AllInts(parts) by { assert ParseInt(parts[0]).None?; }
        None
      case (Some(_), None) =>
        assert !AllInts(parts) by {
          if AllInts(parts) { AllIntsTail(parts); }
        }
        None
      case (Some(head), Some(tail)) =>
        ParsedAsCons(parts, head, tail);
        Some([head] + tail)
  }

  lemma AllIntsTail(parts: seq<string>)
    requires parts != [] && AllInts(parts)
    ensures AllInts(parts[1..])
  {
    forall i | 0 <= i < |parts| - 1 ensures ParseInt(parts[1..][i]).Some? {
      assert parts[1..][i] == parts[i + 1];
    }
  }

  lemma ParsedAsCons(parts: seq<string>, head: int, tail: seq<int>)
    requires parts != [] && ParseInt(parts[0]) == Some(head) && ParsedAs(parts[1..], tail)
    ensures ParsedAs(parts, [head] + tail) && AllInts(parts)
  {
    var values := [head] + tail;
    forall i | 1 <= i < |parts| ensures ParseInt(parts[i]) == Some(values[i]) {
      assert parts[i] == parts[1..][i - 1];
    }
  }

  /** A block of whitespace-separated stat values, as each branch of `_handleRequestStat` treats it. */
  function StatFields(c: Category, rest: string): (r: RequestLine)
    ensures r.StatBlock? || r.StatWrongCount? || r.StatBadValue?
    ensures r.category == c
    ensures r.StatBlock? ==> |r.values| == |Members(c)|
    ensures r.StatWrongCount? ==> r.got != |Members(c)| && r.got == |SplitWs(rest, None)|
  {
    var parts := SplitWs(rest, None);
    if |parts| != |Members(c)| then StatWrongCount(c, |parts|)
    else
      match ParseInts(parts)
      case None => StatBadValue(c)
      case Some(values) => StatBlock(c, values)
  }

  /** `_handleRequestStat`. */
  function ParseStat(msg: string): (r: RequestLine)
    ensures r.StatBlock? || r.StatWrongCount? || r.StatBadValue? || r.UnknownStat?
    ensures r.StatBlock? ==> |r.values| == |Members(r.category)|
    ensures r.StatWrongCount? ==> r.got != |Members(r.category)|
    ensures r.UnknownStat? ==> r.text == msg
  {
    var (isVital, rest) := CheckPrefix(msg, "hp ");
    if isVital then StatFields(Vital, rest)
    else
      var (isCombat, rest) := CheckPrefix(msg, "cmbt ");
      if isCombat then StatFields(Combat, rest)
      else
        var (isAbil, rest) := CheckPrefix(msg, "stats ");
        if isAbil then StatFields(Abilities, rest)
        else UnknownStat(msg)
  }

  /** `_handleRequest`, for every kind of request but the item lines' effect. */
  function ParseRequest(msg: string): (r: RequestLine)
    ensures r.StatBlock? ==> |r.values| == |Members(r.category)|
    ensures r.StatWrongCount? ==> r.got != |Members(r.category)|
    ensures r.Items? ==> ' ' !in r.requestType
    ensures r.Unrecognized? ==> r.text == msg
  {
    var (isStat, rest) := CheckPrefix(msg, "stat ");
    if isStat then ParseStat(rest)
    else
      var (isItem, rest) := CheckPrefix(msg, "items ");
      if isItem then
        var (requestType, _, more) := Partition(rest, ' ');
        Items(requestType, more)
      else
        var (isPlayer, rest) := CheckPrefix(msg, "player ");
        if isPlayer then ParsePlayer(rest)
        else Unrecognized(msg)
  }

  /** The "request player <tag> <title>" branch: the tag and the name after "Player:". */
  function ParsePlayer(rest: string): (r: RequestLine)
    ensures r.PlayerId? || r.PlayerBadTag?
    ensures r.PlayerBadTag? <==> ParseInt(Partition(rest, ' ').0).None?
    ensures r.PlayerId? ==> ParseInt(Partition(rest, ' ').0) == Some(r.tag)
  {
    var (tag, _, title) := Partition(rest, ' ');
    var name := LStrip(ChompPrefix(title, "Player:"));
    match ParseInt(tag)
    case None => PlayerBadTag(tag)
    case Some(t) => PlayerId(t, name)
  }

  /** The decimal strings of `values`, as the client writes them. */
  function IntStrings(values: seq<int>): (r: seq<string>)
    ensures |r| == |values|
    ensures forall i :: 0 <= i < |r| ==> r[i] == IntToString(values[i])
  {
    if values == [] then [] else [IntToString(values[0])] + IntStrings(values[1..])
  }

  lemma ParseIntStrings(values: seq<int>)
    ensures ParseInts(IntStrings(values)) == Some(values)
  {
    var parts := IntStrings(values);
    forall i | 0 <= i < |parts|
      ensures ParseInt(parts[i]) == Some(values[i])
    {
      ParseIntOfIntToString(values[i]);
    }
    assert AllInts(parts);
    var r := ParseInts(parts);
    assert ParsedAs(parts, r.value);
    assert r.value == values;
  }

  /** The values of a block, written as the client writes them, are read back. */
  lemma StatFieldsOfValues(c: Category, values: seq<int>)
    requires |values| == |Members(c)|
    ensures StatFields(c, JoinSpaces(IntStrings(values))) == StatBlock(c, values)
  {
    assert Words(IntStrings(values));
    SplitJoinSpaces(IntStrings(values));
    ParseIntStrings(values);
  }

  /** A block's keyword selects its category. */
  lemma ParseStatOfKeyword(c: Category, fields: string)
    ensures ParseStat(StatKeyword(c) + " " + fields) == StatFields(c, fields)
  {
    match c
    case Vital =>
      assert StatKeyword(c) + " " + fields == "hp " + fields;
      CheckPrefixOfConcat("hp ", fields);
    case Combat =>
      assert StatKeyword(c) + " " + fields == "cmbt " + fields;
      ParseStatOfCombat(fields);
    case Abilities =>
      assert StatKeyword(c) + " " + fields == "stats " + fields;
      ParseStatOfAbilities(fields);
  }

  lemma ParseStatOfCombat(fields: string)
    ensures ParseStat("cmbt " + fields) == StatFields(Combat, fields)
  {
    var msg := "cmbt " + fields;
    assert msg[0] == 'c';
    CheckPrefixOfConcat("cmbt ", fields);
  }

  lemma ParseStatOfAbilities(fields: string)
    ensures ParseStat("stats " + fields) == StatFields(Abilities, fields)
  {
    var msg := "stats " + fields;
    assert msg[0] == 's';
    CheckPrefixOfConcat("stats ", fields);
  }

  /**
   * A stat block with one value per stat of its category, as the client
   * sends it, is read back as exactly those values.
   */
  lemma ParseStatBlock(c: Category, values: seq<int>)
    requires |values| == |Members(c)|
    ensures ParseRequest("stat " + StatKeyword(c) + " " + JoinSpaces(IntStrings(values)))
         == StatBlock(c, values)
  {
    ParseRequestOfStatKeyword(c, JoinSpaces(IntStrings(values)));
    StatFieldsOfValues(c, values);
  }

  lemma ParseRequestOfStatKeyword(c: Category, fields: string)
    ensures ParseRequest("stat " + StatKeyword(c) + " " + fields) == StatFields(c, fields)
  {
    var msg := StatKeyword(c) + " " + fields;
    assert "stat " + StatKeyword(c) + " " + fields == "stat " + msg;
    ParseRequestOfStat(msg);
    ParseStatOfKeyword(c, fields);
  }

  /** "request stat <rest>" goes to `_handleRequestStat` with `rest`. */
  lemma ParseRequestOfStat(msg: string)
    ensures ParseRequest("stat " + msg) == ParseStat(msg)
  {
    CheckPrefixOfConcat("stat ", msg);
  }

  /** "request items <type> <more>" names the type and keeps the rest of the line. */
  lemma ParseRequestOfItems(requestType: string, more: string)
    requires ' ' !in requestType
    ensures ParseRequest("items " + requestType + " " + more) == Items(requestType, more)
  {
    var rest := requestType + " " + more;
    assert "items " + requestType + " " + more == "items " + rest;
    assert ("items " + rest)[0] == 'i';
    CheckPrefixOfConcat("items ", rest);
    PartitionOfConcat(requestType, ' ', more);
  }

  /** "request player <rest>" goes to the player branch with `rest`. */
  lemma ParseRequestOfPlayer(rest: string)
    ensures ParseRequest("player " + rest) == ParsePlayer(rest)
  {
    assert ("player " + rest)[0] == 'p';
    CheckPrefixOfConcat("player ", rest);
  }

  /**
   * The tag the client writes and a title "Player:" followed by whitespace
   * and the name read back as that tag and that name.
   */
  lemma ParsePlayerOfId(tag: int, ws: string, name: string)
    requires forall i :: 0 <= i < |ws| ==> IsSpace(ws[i])
    requires name == [] || !IsSpace(name[0])
    ensures ParsePlayer(IntToString(tag) + " Player:" + ws + name) == PlayerId(tag, name)
  {
    var digits := IntToString(tag);
    var title := "Player:" + (ws + name);
    var rest := digits + [' '] + title;
    assert digits + " Player:" + ws + name == rest;
    PartitionOfConcat(digits, ' ', title);
    CheckPrefixOfConcat("Player:", ws + name);
    assert ChompPrefix(title, "Player:") == ws + name;
    LStripOfSpaces(ws, name);
    ParseIntOfIntToString(tag);
    assert ParsePlayer(rest) == PlayerId(tag, name);
  }

  /** What one line of "request items <type> ..." says. */
  datatype ItemLine =
    | ItemsEnd                                      // "end": the list is complete
    | ItemFields(tag: int, num: int, weight: int, flags: int, clientType: int, name: string)
    | ItemWrongCount(got: nat)                      // logged and dropped
    | ItemBadValue                                  // a number `int()` rejects

  /**
   * The parsing half of `_handleRequestItem`: "end", or six fields of which
   * the last, the item's name, is the rest of the line after five splits.
   */
  function ParseItemLine(rest: string): (r: ItemLine)
    ensures rest == "end" <==> r.ItemsEnd?
    ensures r.ItemWrongCount? ==> r.got != 6
    ensures r.ItemFields? ==> IsField(r.name)
  {
    if rest == "end" then ItemsEnd
    else
      var parts := SplitWs(rest, Some(5));
      if |parts| != 6 then ItemWrongCount(|parts|)
      else
        match ParseInts(parts[..5])
        case None => ItemBadValue
        case Some(v) =>
          SplitWsFields(rest, Some(5));
          ItemFields(v[0], v[1], v[2], v[3], v[4], parts[5])
  }

  /** Splitting off one word and the whitespace after it. */
  lemma {:induction false} SplitWsCons(line: string, w: string, rest: string, n: nat, fields: seq<string>)
    requires w != [] && NoSpace(w)
    requires line == w + " " + rest
    requires SplitWs(rest, Some(n)) == fields
    ensures SplitWs(line, Some(n + 1)) == [w] + fields
  {
    assert line == w + (" " + rest);
    SplitWsWord(w, " " + rest, Some(n + 1));
    SplitWsLeadingSpace(rest, Some(n));
  }

  lemma SplitWsWhole(name: string)
    requires IsField(name)
    ensures SplitWs(name, Some(0)) == [name]
  {
    LStripOfNonSpace(name);
  }

  /** `words` and then `last`, separated by single spaces. */
  function JoinThen(words: seq<string>, last: string): string {
    if words == [] then last else words[0] + " " + JoinThen(words[1..], last)
  }


  lemma ConsThenAppend(words: seq<string>, name: string)
    requires words != []
    ensures [words[0]] + (words[1..] + [name]) == words + [name]
  {
  }

  /** A word in front of a line `split(None, k)` takes apart adds one field. */
  lemma SplitWsJoinThenStep(words: seq<string>, name: string)
    requires words != [] && words[0] != [] && NoSpace(words[0])
    requires SplitWs(JoinThen(words[1..], name), Some(|words[1..]|)) == words[1..] + [name]
    ensures SplitWs(JoinThen(words, name), Some(|words|)) == words + [name]
  {
    assert |words[1..]| == |words| - 1;
    ConsThenAppend(words, name);
    SplitWsCons(JoinThen(words, name), words[0], JoinThen(words[1..], name), |words| - 1, words[1..] + [name]);
  }

  lemma SplitWsNameOnly(words: seq<string>, name: string)
    requires words == [] && IsField(name)
    ensures SplitWs(JoinThen(words, name), Some(|words|)) == words + [name]
  {
    SplitWsWhole(name);
    assert words + [name] == [name];
  }

  /** `split(None, n)` of `n` words and a name gives back the words and the name. */
  lemma {:induction false} SplitWsWordsThenName(words: seq<string>, name: string)
    requires Words(words)
    requires IsField(name)
    ensures SplitWs(JoinThen(words, name), Some(|words|)) == words + [name]
    decreases |words|
  {
    if words == [] {
      SplitWsNameOnly(words, name);
    } else {
      WordsTail(words);
      SplitWsWordsThenName(words[1..], name);
      SplitWsJoinThenStep(words, name);
    }
  }

  /** An item line as the client writes it is read back field for field. */
  lemma ParseItemLineOfFields(tag: int, num: int, weight: int, flags: int, clientType: int, name: string)
    requires IsField(name)
    ensures ParseItemLine(JoinThen(IntStrings([tag, num, weight, flags, clientType]), name))
         == ItemFields(tag, num, weight, flags, clientType, name)
  {
    var values := [tag, num, weight, flags, clientType];
    var nums := IntStrings(values);
    var line := JoinThen(nums, name);
    assert Words(nums);
    SplitWsWordsThenName(nums, name);
    var parts := SplitWs(line, Some(5));
    assert parts[..5] == nums && parts[5] == name;
    ParseIntStrings(values);
    assert line != "end" by {
      assert line[0] == nums[0][0];
      if tag >= 0 { assert IsDigit(nums[0][0]); }
    }
  }
}
