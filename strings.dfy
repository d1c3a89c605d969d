/**
 * The string helpers of lib/client_interfacer.py (`checkPrefix`,
 * `chompSuffix`, `chompPrefix`) together with the pieces of Python's `str`
 * behaviour the client interfacer relies on: `startswith`, `endswith`,
 * `partition(" ")`, `split()`, `split(None, n)`, `split("-")`, `lstrip()`,
 * `int()` and `"%d" % n`. Only ASCII whitespace and ASCII decimal digits
 * are treated as special; the wider sets Python 3 accepts are not modelled.
 */
module Strings {
  import opened Wrappers

  predicate StartsWith(s: string, prefix: string) {
    |prefix| <= |s| && s[..|prefix|] == prefix
  }

  predicate EndsWith(s: string, suffix: string) {
    |suffix| <= |s| && s[|s| - |suffix|..] == suffix
  }

  lemma StartsWithConcat(a: string, b: string)
    ensures StartsWith(a + b, a)
  {
    assert (a + b)[..|a|] == a;
  }

  lemma StartsWithPrepend(a: string, s: string, p: string)
    requires StartsWith(s, p)
    ensures StartsWith(a + s, a + p)
  {
    assert (a + s)[..|a + p|] == a + s[..|p|];
  }

  /** A prefix of a prefix is a prefix. */
  lemma StartsWithTrans(s: string, p: string, q: string)
    requires StartsWith(s, p + q)
    ensures StartsWith(s, p)
  {
    assert s[..|p|] == s[..|p + q|][..|p|];
  }

  /** `checkPrefix(s, prefix)`: whether `s` starts with `prefix`, and what follows it. */
  function CheckPrefix(s: string, prefix: string): (r: (bool, string))
    ensures r.0 <==> StartsWith(s, prefix)
    ensures r.0 ==> prefix + r.1 == s
    ensures !r.0 ==> r.1 == s
  {
    if StartsWith(s, prefix) then (true, s[|prefix|..]) else (false, s)
  }

  lemma CheckPrefixOfConcat(prefix: string, rest: string)
    ensures CheckPrefix(prefix + rest, prefix) == (true, rest)
  {
    assert (prefix + rest)[..|prefix|] == prefix;
    assert (prefix + rest)[|prefix|..] == rest;
  }

  /** `chompPrefix(s, prefix)`: `s` without one leading `prefix`, if it has one. */
  function ChompPrefix(s: string, prefix: string): (r: string)
    ensures StartsWith(s, prefix) ==> prefix + r == s
    ensures !StartsWith(s, prefix) ==> r == s
  {
    CheckPrefix(s, prefix).1
  }

  /**
   * `chompSuffix(s, suffix)` exactly as written: `s[:-len(suffix)]` when `s`
   * ends with `suffix`. For the empty suffix Python's `s[:-0]` is `s[:0]`,
   * the empty string.
   */
  function ChompSuffixAsWritten(s: string, suffix: string): (r: string)
    ensures EndsWith(s, suffix) && suffix != [] ==> r + suffix == s
    ensures EndsWith(s, suffix) && suffix == [] ==> r == []
    ensures !EndsWith(s, suffix) ==> r == s
  {
    if EndsWith(s, suffix) then
      (if |suffix| == 0 then s[..0] else s[..|s| - |suffix|])
    else s
  }

  /** The empty suffix makes the as-written helper erase the whole string. */
  lemma ChompSuffixAsWrittenErasesOnEmptySuffix()
    ensures ChompSuffixAsWritten("abc", "") == ""
    ensures ChompSuffix("abc", "") == "abc"
  {
  }

  /**
   * `chompSuffix(s, suffix)` as intended: `s` without one trailing `suffix`
   * if it has one, otherwise `s` unchanged. Every caller uses the default
   * suffix "\n", where both definitions agree.
   */
  function ChompSuffix(s: string, suffix: string): (r: string)
    ensures EndsWith(s, suffix) ==> r + suffix == s
    ensures !EndsWith(s, suffix) ==> r == s
  {
    if EndsWith(s, suffix) then s[..|s| - |suffix|] else s
  }

  lemma ChompSuffixAgreesOnNonEmptySuffix(s: string, suffix: string)
    requires suffix != []
    ensures ChompSuffixAsWritten(s, suffix) == ChompSuffix(s, suffix)
  {
  }

  /** Chomping a suffix that was just appended gives back the original string. */
  lemma ChompSuffixOfConcat(s: string, suffix: string)
    ensures ChompSuffix(s + suffix, suffix) == s
  {
    assert (s + suffix)[|s + suffix| - |suffix|..] == suffix;
    assert (s + suffix)[..|s + suffix| - |suffix|] == s;
  }

  /** The ASCII whitespace characters: those `str.isspace` accepts below 0x1c. */
  predicate IsSpace(c: char) {
    c == ' ' || c == '\t' || c == '\n' || c == '\r' || c == '\U{B}' || c == '\U{C}'
  }

  predicate NoSpace(s: string) {
    forall i :: 0 <= i < |s| ==> !IsSpace(s[i])
  }

  /** `s.lstrip()`: `s` without its leading whitespace. */
  function LStrip(s: string): (r: string)
    ensures |r| <= |s| && r == s[|s| - |r|..]
    ensures r == [] || !IsSpace(r[0])
    ensures forall i :: 0 <= i < |s| - |r| ==> IsSpace(s[i])
  {
    if s != [] && IsSpace(s[0]) then LStrip(s[1..]) else s
  }

  /** `lstrip` removes exactly a run of leading whitespace. */
  lemma {:induction false} LStripOfSpaces(ws: string, s: string)
    requires forall i :: 0 <= i < |ws| ==> IsSpace(ws[i])
    requires s == [] || !IsSpace(s[0])
    ensures LStrip(ws + s) == s
    decreases |ws|
  {
    if ws != [] {
      assert (ws + s)[1..] == ws[1..] + s;
      LStripOfSpaces(ws[1..], s);
    }
  }

  /** `s.rstrip()`: `s` without its trailing whitespace. */
  function RStrip(s: string): (r: string)
    ensures |r| <= |s|
  {
    if s != [] && IsSpace(s[|s| - 1]) then RStrip(s[..|s| - 1]) else s
  }

  /** The length of the run of non-whitespace characters that `s` starts with. */
  function WordLength(s: string): (n: nat)
    ensures n <= |s|
    ensures NoSpace(s[..n])
    ensures n < |s| ==> IsSpace(s[n])
  {
    if s == [] || IsSpace(s[0]) then 0
    else
      var m := WordLength(s[1..]);
      assert s[..m + 1] == [s[0]] + s[1..][..m];
      m + 1
  }

  /**
   * Python's `s.split()` (`maxsplit == None`) and `s.split(None, n)`
   * (`maxsplit == Some(n)`): runs of whitespace separate the fields; once
   * `n` fields have been split off, the rest of the string, stripped of its
   * leading whitespace only, is the last field.
   */
  function SplitWs(s: string, maxsplit: Option<nat>): (r: seq<string>)
    ensures maxsplit.Some? ==> |r| <= maxsplit.value + 1
    decreases |s|
  {
    var t := LStrip(s);
    if t == [] then []
    else if maxsplit == Some(0) then [t]
    else
      var n := WordLength(t);
      assert n > 0;
      [t[..n]] + SplitWs(t[n..], OneFewer(maxsplit))
  }

  /**
   * Fields as `split` returns them: each is non-empty and starts with a
   * non-space, and each but the rest-of-string one holds no whitespace.
   */
  predicate SplitFields(r: seq<string>, maxsplit: Option<nat>) {
    forall i :: 0 <= i < |r| ==> IsField(r[i]) && ((maxsplit.None? || i < maxsplit.value) ==> NoSpace(r[i]))
  }

  lemma {:induction false} SplitWsFields(s: string, maxsplit: Option<nat>)
    ensures SplitFields(SplitWs(s, maxsplit), maxsplit)
    decreases |s|
  {
    var t := LStrip(s);
    if t != [] && maxsplit != Some(0) {
      var n := WordLength(t);
      SplitWsFields(t[n..], OneFewer(maxsplit));
      SplitWsUnfold(s, maxsplit);
      SplitFieldsCons(t[..n], SplitWs(t[n..], OneFewer(maxsplit)), maxsplit);
    }
  }

  /** One step of `split`: the first word, then the split of what follows it. */
  lemma SplitWsUnfold(s: string, maxsplit: Option<nat>)
    requires LStrip(s) != [] && maxsplit != Some(0)
    ensures var t := LStrip(s); var n := WordLength(t);
      && 0 < n && IsField(t[..n]) && NoSpace(t[..n])
      && SplitWs(s, maxsplit) == [t[..n]] + SplitWs(t[n..], OneFewer(maxsplit))
  {
    var t := LStrip(s);
    assert t[..WordLength(t)][0] == t[0];
  }

  lemma SplitFieldsCons(head: string, more: seq<string>, maxsplit: Option<nat>)
    requires IsField(head) && NoSpace(head) && maxsplit != Some(0)
    requires SplitFields(more, OneFewer(maxsplit))
    ensures SplitFields([head] + more, maxsplit)
  {
    var r := [head] + more;
    forall i | 0 <= i < |r|
      ensures IsField(r[i]) && ((maxsplit.None? || i < maxsplit.value) ==> NoSpace(r[i]))
    {
      if i > 0 {
        assert r[i] == more[i - 1];
      }
    }
  }

  /** The split budget left once one field has been split off. */
  function OneFewer(maxsplit: Option<nat>): (r: Option<nat>)
    requires maxsplit != Some(0)
    ensures maxsplit.Some? ==> r.Some? && r.value + 1 == maxsplit.value
    ensures maxsplit.None? ==> r.None?
  {
    if maxsplit.Some? then Some(maxsplit.value - 1) else None
  }

  /** What `split()` can return as a field: non-empty, not starting with whitespace. */
  predicate IsField(w: string) {
    w != [] && !IsSpace(w[0])
  }

  /** Fields joined by single spaces: the shape `split()` takes apart. */
  function JoinSpaces(words: seq<string>): string {
    if words == [] then []
    else if |words| == 1 then words[0]
    else words[0] + " " + JoinSpaces(words[1..])
  }

  lemma WordLengthOfWord(w: string, rest: string)
    requires NoSpace(w)
    requires rest == [] || IsSpace(rest[0])
    ensures WordLength(w + rest) == |w|
    decreases |w|
  {
    if w != [] {
      assert (w + rest)[1..] == w[1..] + rest;
      WordLengthOfWord(w[1..], rest);
    }
  }

  lemma {:induction false} LStripOfNonSpace(s: string)
    requires s == [] || !IsSpace(s[0])
    ensures LStrip(s) == s
  {
  }

  /** Leading whitespace makes no difference to `split`. */
  lemma SplitWsLeadingSpace(rest: string, maxsplit: Option<nat>)
    ensures SplitWs(" " + rest, maxsplit) == SplitWs(rest, maxsplit)
  {
    assert (" " + rest)[1..] == rest;
    assert LStrip(" " + rest) == LStrip(rest);
  }

  /**
   * `split()` takes back apart what `JoinSpaces` put together, as long as
   * every field is non-empty and free of whitespace.
   */
  lemma {:induction false} SplitJoinSpaces(words: seq<string>)
    requires Words(words)
    ensures SplitWs(JoinSpaces(words), None) == words
    decreases |words|
  {
    if |words| == 1 {
      SplitWsWord(words[0], [], None);
      assert words[0] + [] == words[0];
    } else if |words| > 1 {
      WordsTail(words);
      SplitJoinSpaces(words[1..]);
      SplitJoinSpacesStep(words);
    }
  }

  lemma SplitJoinSpacesStep(words: seq<string>)
    requires |words| > 1 && Words(words)
    requires SplitWs(JoinSpaces(words[1..]), None) == words[1..]
    ensures SplitWs(JoinSpaces(words), None) == words
  {
    var w := words[0];
    var tail := JoinSpaces(words[1..]);
    assert JoinSpaces(words) == w + (" " + tail);
    SplitWsWord(w, " " + tail, None);
    SplitWsLeadingSpace(tail, None);
    assert [w] + words[1..] == words;
  }

  /** Non-empty fields without whitespace: what `JoinSpaces` can join and `split()` take back. */
  predicate Words(words: seq<string>) {
    forall i :: 0 <= i < |words| ==> words[i] != [] && NoSpace(words[i])
  }

  lemma WordsTail(words: seq<string>)
    requires words != [] && Words(words)
    ensures Words(words[1..])
  {
    forall i | 0 <= i < |words| - 1 ensures words[1..][i] != [] && NoSpace(words[1..][i]) {
      assert words[1..][i] == words[i + 1];
    }
  }

  /** A word at the front of a string is its first field. */
  lemma SplitWsWord(w: string, rest: string, maxsplit: Option<nat>)
    requires w != [] && NoSpace(w) && maxsplit != Some(0)
    requires rest == [] || IsSpace(rest[0])
    ensures SplitWs(w + rest, maxsplit) == [w] + SplitWs(rest, OneFewer(maxsplit))
  {
    var s := w + rest;
    assert s[0] == w[0];
    LStripOfNonSpace(s);
    WordLengthOfWord(w, rest);
    assert s[..|w|] == w;
    assert s[|w|..] == rest;
  }

  /**
   * `s.partition(" ")` for a one-character separator: the text before the
   * first `sep`, whether there was one, and the text after it.
   */
  function Partition(s: string, sep: char): (r: (string, bool, string))
    ensures sep !in r.0
    ensures r.1 ==> r.0 + [sep] + r.2 == s
    ensures !r.1 ==> r.0 == s && r.2 == []
  {
    if s == [] then ([], false, [])
    else if s[0] == sep then ([], true, s[1..])
    else
      var p := Partition(s[1..], sep);
      ([s[0]] + p.0, p.1, p.2)
  }

  lemma {:induction false} PartitionOfConcat(a: string, sep: char, b: string)
    requires sep !in a
    ensures Partition(a + [sep] + b, sep) == (a, true, b)
    decreases |a|
  {
    if a != [] {
      assert a[0] != sep;
      assert (a + [sep] + b)[0] == a[0];
      assert (a + [sep] + b)[1..] == a[1..] + [sep] + b;
      PartitionOfConcat(a[1..], sep, b);
      assert [a[0]] + a[1..] == a;
    } else {
      assert a + [sep] + b == [sep] + b;
    }
  }

  /** Python's `s.split(sep)` for a one-character separator: never empty. */
  function Split(s: string, sep: char): (r: seq<string>)
    ensures |r| >= 1
    ensures forall i :: 0 <= i < |r| ==> sep !in r[i]
  {
    if s == [] then [[]]
    else if s[0] == sep then [[]] + Split(s[1..], sep)
    else
      var p := Split(s[1..], sep);
      [[s[0]] + p[0]] + p[1..]
  }

  lemma {:induction false} SplitNoSep(a: string, sep: char)
    requires sep !in a
    ensures Split(a, sep) == [a]
    decreases |a|
  {
    if a != [] {
      SplitNoSep(a[1..], sep);
      assert [a[0]] + a[1..] == a;
    }
  }

  lemma {:induction false} SplitOfConcat(a: string, sep: char, b: string)
    requires sep !in a
    ensures Split(a + [sep] + b, sep) == [a] + Split(b, sep)
    decreases |a|
  {
    if a == [] {
      assert a + [sep] + b == [sep] + b;
      assert ([sep] + b)[1..] == b;
    } else {
      assert (a + [sep] + b)[1..] == a[1..] + [sep] + b;
      SplitOfConcat(a[1..], sep, b);
      assert [a[0]] + a[1..] == a;
    }
  }

  // Decimal integers, as written by `"%d" % n` and read by `int()`.

  predicate IsDigit(c: char) {
    '0' <= c <= '9'
  }

  predicate AllDigits(s: string) {
    forall i :: 0 <= i < |s| ==> IsDigit(s[i])
  }

  function DigitChar(d: nat): (c: char)
    requires d < 10
    ensures IsDigit(c)
  {
    "0123456789"[d]
  }

  function DigitValue(c: char): nat
    requires IsDigit(c)
  {
    (c as int - '0' as int) as nat
  }

  /** The value of a string of decimal digits, most significant first. */
  function DigitsValue(s: string): nat
    requires AllDigits(s)
  {
    if s == [] then 0 else DigitsValue(s[..|s| - 1]) * 10 + DigitValue(s[|s| - 1])
  }

  /** `"%d" % n` for a natural number: its decimal digits, no leading zeros. */
  function NatToString(n: nat): (r: string)
    ensures r != [] && AllDigits(r)
  {
    if n < 10 then [DigitChar(n)] else NatToString(n / 10) + [DigitChar(n % 10)]
  }

  /** `"%d" % i`: a minus sign before the digits of a negative number. */
  function IntToString(i: int): (r: string)
    ensures r != [] && NoSpace(r) && ' ' !in r
    ensures (r[0] == '-') <==> i < 0
  {
    if i < 0 then "-" + NatToString(-i) else NatToString(i)
  }

  /**
   * Python's `int(s)` in base 10: optional surrounding whitespace, an
   * optional sign and at least one decimal digit. `None` stands for the
   * `ValueError` that `int` raises on anything else.
   */
  function ParseInt(s: string): Option<int> {
    ParseNumeral(RStrip(LStrip(s)))
  }

  /** `int()` of a string without surrounding whitespace. */
  function ParseNumeral(t: string): Option<int> {
    if t != [] && (t[0] == '-' || t[0] == '+') then
      if |t| > 1 && AllDigits(t[1..]) then
        Some(if t[0] == '-' then -(DigitsValue(t[1..]) as int) else DigitsValue(t[1..]))
      else None
    else if t != [] && AllDigits(t) then Some(DigitsValue(t))
    else None
  }

  lemma {:induction false} DigitsOfNat(n: nat)
    ensures DigitsValue(NatToString(n)) == n
  {
    var r := NatToString(n);
    if n < 10 {
      assert r[..0] == [];
    } else {
      DigitsOfNat(n / 10);
      assert r[..|r| - 1] == NatToString(n / 10);
    }
  }

  lemma LStripNoop(s: string)
    requires s != [] && !IsSpace(s[0])
    ensures LStrip(s) == s
  {
  }

  lemma RStripNoop(s: string)
    requires s != [] && !IsSpace(s[|s| - 1])
    ensures RStrip(s) == s
  {
  }

  /** A numeral has no surrounding whitespace to strip. */
  lemma StripNumeral(r: string)
    requires r != [] && (r[0] == '-' || IsDigit(r[0])) && IsDigit(r[|r| - 1])
    ensures RStrip(LStrip(r)) == r
  {
    LStripNoop(r);
    RStripNoop(r);
  }

  lemma ParseIntOfNatToString(n: nat)
    ensures ParseInt(IntToString(n)) == Some(n)
  {
    var r := NatToString(n);
    assert IntToString(n) == r;
    StripNumeral(r);
    DigitsOfNat(n);
  }

  lemma ParseIntOfNegative(i: int)
    requires i < 0
    ensures ParseInt(IntToString(i)) == Some(i)
  {
    var n: nat := -i;
    var d := NatToString(n);
    var r := "-" + d;
    assert IntToString(i) == r;
    assert r[0] == '-' && r[1..] == d && |r| > 1;
    assert r[|r| - 1] == d[|d| - 1];
    StripNumeral(r);
    DigitsOfNat(n);
    ParseIntOfSigned(r);
  }

  /** `int()` of a minus sign and digits. */
  lemma ParseIntOfSigned(r: string)
    requires |r| > 1 && r[0] == '-' && AllDigits(r[1..]) && RStrip(LStrip(r)) == r
    ensures ParseInt(r) == Some(-(DigitsValue(r[1..]) as int))
  {
    assert ParseInt(r) == ParseNumeral(r);
  }

  /** `int()` reads back what `"%d" %` writes. */
  lemma ParseIntOfIntToString(i: int)
    ensures ParseInt(IntToString(i)) == Some(i)
  {
    if i < 0 {
      ParseIntOfNegative(i);
    } else {
      ParseIntOfNatToString(i);
    }
  }
}
