/**
 * The string operations the analysis scripts apply to file and directory
 * names and to CSV header cells: Python's `str.startswith`, `str.endswith`,
 * `in` on strings, `str.split(sep)`, `str.isdigit`, `int(str)`, `str.lower`
 * and `str.strip`, restricted to ASCII.
 */
module Text {
  import opened Wrappers

  predicate StartsWith(s: string, prefix: string) {
    |prefix| <= |s| && s[..|prefix|] == prefix
  }

  predicate EndsWith(s: string, suffix: string) {
    |suffix| <= |s| && s[|s| - |suffix|..] == suffix
  }

  /** `sub in s` */
  predicate Contains(s: string, sub: string) {
    exists i :: 0 <= i <= |s| - |sub| && OccursAt(s, sub, i)
  }

  predicate OccursAt(s: string, sub: string, i: int) {
    0 <= i <= |s| - |sub| && s[i..i + |sub|] == sub
  }

  /**
   * `s.split(sep)` for a non-empty separator: the pieces between the
   * non-overlapping occurrences of `sep`, scanned from the left.
   */
  function Split(s: string, sep: string): (parts: seq<string>)
    requires sep != []
    ensures |parts| >= 1
    decreases |s|
  {
    if |s| < |sep| then [s]
    else if s[..|sep|] == sep then [""] + Split(s[|sep|..], sep)
    else
      var rest := Split(s[1..], sep);
      [[s[0]] + rest[0]] + rest[1..]
  }

  /** `sep.join(parts)` */
  function Join(parts: seq<string>, sep: string): string
    requires |parts| >= 1
  {
    if |parts| == 1 then parts[0] else parts[0] + sep + Join(parts[1..], sep)
  }

  /** Splitting and joining again gives back the original string. */
  lemma {:induction false} JoinSplit(s: string, sep: string)
    requires sep != []
    ensures Join(Split(s, sep), sep) == s
    decreases |s|
  {
    if |s| < |sep| {
    } else if s[..|sep|] == sep {
      var rest := Split(s[|sep|..], sep);
      JoinSplit(s[|sep|..], sep);
      assert Split(s, sep) == [""] + rest;
      JoinCons("", rest, sep);
      assert s == s[..|sep|] + s[|sep|..];
    } else {
      var rest := Split(s[1..], sep);
      JoinSplit(s[1..], sep);
      assert Split(s, sep) == [[s[0]] + rest[0]] + rest[1..];
      JoinExtendHead(s[0], rest, sep);
      assert s == [s[0]] + s[1..];
    }
  }

  /** Joining a piece in front of at least one other piece puts the separator between them. */
  lemma JoinCons(a: string, rest: seq<string>, sep: string)
    requires |rest| >= 1
    ensures Join([a] + rest, sep) == a + sep + Join(rest, sep)
  {
    assert ([a] + rest)[1..] == rest;
  }

  /** Prepending a character to the first piece prepends it to the joined string. */
  lemma JoinExtendHead(c: char, rest: seq<string>, sep: string)
    requires |rest| >= 1
    ensures Join([[c] + rest[0]] + rest[1..], sep) == [c] + Join(rest, sep)
  {
    var parts := [[c] + rest[0]] + rest[1..];
    if |rest| == 1 {
      assert parts == [[c] + rest[0]];
    } else {
      assert parts[1..] == rest[1..];
      assert Join(parts, sep) == ([c] + rest[0]) + sep + Join(rest[1..], sep);
      assert Join(rest, sep) == rest[0] + sep + Join(rest[1..], sep);
    }
  }

  /** The first piece of a split is a prefix of the string. */
  lemma {:induction false} HeadIsPrefix(s: string, sep: string)
    requires sep != []
    ensures |Split(s, sep)[0]| <= |s| && Split(s, sep)[0] == s[..|Split(s, sep)[0]|]
    decreases |s|
  {
    if |s| < |sep| {
      assert Split(s, sep) == [s];
    } else if s[..|sep|] == sep {
      assert Split(s, sep)[0] == "";
    } else {
      var rest := Split(s[1..], sep);
      HeadIsPrefix(s[1..], sep);
      var head := [s[0]] + rest[0];
      assert Split(s, sep)[0] == head;
      PrefixCons(s, rest[0]);
    }
  }

  lemma PrefixCons(s: string, t: string)
    requires |s| >= 1 && |t| <= |s| - 1 && t == s[1..][..|t|]
    ensures |[s[0]] + t| <= |s| && [s[0]] + t == s[..|t| + 1]
  {
    assert s[..|t| + 1] == [s[0]] + s[1..][..|t|];
  }

  /** No occurrence of `sep` starts inside the first `n` characters of `s`. */
  predicate NoMatchBefore(s: string, sep: string, n: nat) {
    forall i :: 0 <= i < n ==> !OccursAt(s, sep, i)
  }

  /**
   * A prefix in which no separator starts is glued to the first piece of
   * the rest.
   */
  lemma {:induction false} SplitSkip(a: string, b: string, sep: string)
    requires sep != [] && NoMatchBefore(a + b, sep, |a|)
    ensures Split(a + b, sep) == [a + Split(b, sep)[0]] + Split(b, sep)[1..]
    decreases |a|
  {
    if a == [] {
      var parts := Split(b, sep);
      assert a + b == b && a + parts[0] == parts[0];
      assert [parts[0]] + parts[1..] == parts;
    } else {
      var s := a + b;
      assert s[1..] == a[1..] + b;
      NoMatchShift(a, b, sep);
      SplitSkip(a[1..], b, sep);
      var rest := Split(b, sep);
      SplitGlue(s, sep);
      assert [a[0]] + (a[1..] + rest[0]) == a + rest[0];
    }
  }

  /** With no separator at its start, the first character goes to the first piece of the rest. */
  lemma SplitGlue(s: string, sep: string)
    requires sep != [] && |s| >= 1 && !OccursAt(s, sep, 0)
    ensures Split(s, sep) == [[s[0]] + Split(s[1..], sep)[0]] + Split(s[1..], sep)[1..]
  {
    if |s| < |sep| {
      assert Split(s[1..], sep) == [s[1..]];
      assert [s[0]] + s[1..] == s;
    }
  }

  lemma NoMatchShift(a: string, b: string, sep: string)
    requires |a| >= 1 && NoMatchBefore(a + b, sep, |a|)
    ensures NoMatchBefore(a[1..] + b, sep, |a| - 1)
    ensures !OccursAt(a + b, sep, 0)
  {
    var s := a + b;
    forall i | 0 <= i < |a| - 1
      ensures !OccursAt(a[1..] + b, sep, i)
    {
      assert !OccursAt(s, sep, i + 1);
      if 0 <= i <= |a[1..] + b| - |sep| {
        assert (a[1..] + b)[i..i + |sep|] == s[i + 1..i + 1 + |sep|];
      }
    }
  }

  /** A string that starts with the separator splits off an empty first piece. */
  lemma SplitAtSeparator(b: string, sep: string)
    requires sep != []
    ensures Split(sep + b, sep) == [""] + Split(b, sep)
  {
    assert (sep + b)[..|sep|] == sep;
    assert (sep + b)[|sep|..] == b;
  }

  /** A string in which the separator never occurs is its own single piece. */
  lemma SplitNoMatch(a: string, sep: string)
    requires sep != [] && NoMatchBefore(a, sep, |a|)
    ensures Split(a, sep) == [a]
  {
    assert a + [] == a;
    SplitSkip(a, [], sep);
  }

  /** No character of `s` is `c`. */
  predicate Lacks(s: string, c: char) {
    forall i :: 0 <= i < |s| ==> s[i] != c
  }

  /** A separator cannot start at a character that differs from its first one. */
  lemma LacksNoMatch(s: string, sep: string, n: nat)
    requires sep != [] && n <= |s| && Lacks(s[..n], sep[0])
    ensures NoMatchBefore(s, sep, n)
  {
    forall i | 0 <= i < n
      ensures !OccursAt(s, sep, i)
    {
      assert s[..n][i] == s[i];
    }
  }

  /** `s.split(sep)[k]`, or `None` where Python raises IndexError. */
  function Field(s: string, sep: string, k: nat): (r: Option<string>)
    requires sep != []
    ensures r.Some? <==> k < |Split(s, sep)|
  {
    var parts := Split(s, sep);
    if k < |parts| then Some(parts[k]) else None
  }

  /**
   * `readlines`: the text cut at each newline, where the final newline
   * closes a line rather than opening one. No line holds a newline, and
   * the lines joined by newlines, plus the final newline if there is one,
   * give back the text.
   */
  function Lines(s: string): (lines: seq<string>)
    ensures |lines| <= |Split(s, "\n")|
    ensures forall k :: 0 <= k < |lines| ==> Lacks(lines[k], '\n')
    ensures lines == [] <==> s == []
    ensures lines != [] ==> Join(lines, "\n") + (if EndsWith(s, "\n") then "\n" else "") == s
  {
    var parts := Split(s, "\n");
    if parts[|parts| - 1] == "" then
      LinesDropLast(s);
      parts[..|parts| - 1]
    else
      LinesKeepAll(s);
      parts
  }

  /** `lines` are the lines of `s`: newline-free, and rejoined they give back `s`. */
  ghost predicate Rejoins(s: string, lines: seq<string>) {
    && (forall k :: 0 <= k < |lines| ==> Lacks(lines[k], '\n'))
    && (lines == [] <==> s == [])
    && (lines != [] ==> Join(lines, "\n") + (if EndsWith(s, "\n") then "\n" else "") == s)
  }

  lemma LinesDropLast(s: string)
    requires Split(s, "\n")[|Split(s, "\n")| - 1] == ""
    ensures Rejoins(s, Split(s, "\n")[..|Split(s, "\n")| - 1])
  {
    var parts := Split(s, "\n");
    SplitPiecesLack(s, '\n');
    DropLastLacks(parts, parts[..|parts| - 1]);
    JoinSplit(s, "\n");
    RejoinDropLast(s, parts);
  }

  lemma LinesKeepAll(s: string)
    requires Split(s, "\n")[|Split(s, "\n")| - 1] != ""
    ensures Rejoins(s, Split(s, "\n"))
  {
    var parts := Split(s, "\n");
    SplitPiecesLack(s, '\n');
    JoinSplit(s, "\n");
    RejoinKeepAll(s, parts);
  }

  lemma LastSplitOff(xs: seq<string>)
    requires |xs| >= 1
    ensures xs == xs[..|xs| - 1] + [xs[|xs| - 1]]
  {
  }

  /** Dropping the last piece keeps the others newline-free. */
  lemma DropLastLacks(parts: seq<string>, init: seq<string>)
    requires |parts| >= 1 && init == parts[..|parts| - 1]
    requires forall k :: 0 <= k < |parts| ==> Lacks(parts[k], '\n')
    ensures forall k :: 0 <= k < |init| ==> Lacks(init[k], '\n')
  {
    forall k | 0 <= k < |init|
      ensures Lacks(init[k], '\n')
    {
      assert init[k] == parts[k];
    }
  }

  /** Pieces ending in an empty one rejoin, without it, to the text less its final newline. */
  lemma RejoinDropLast(s: string, parts: seq<string>)
    requires |parts| >= 1 && Join(parts, "\n") == s && parts[|parts| - 1] == ""
    ensures parts[..|parts| - 1] == [] <==> s == []
    ensures |parts| > 1 ==> Join(parts[..|parts| - 1], "\n") + (if EndsWith(s, "\n") then "\n" else "") == s
  {
    var n := |parts|;
    if n > 1 {
      var init := parts[..n - 1];
      LastSplitOff(parts);
      JoinSnoc(init, "", "\n");
      assert s == Join(init, "\n") + "\n";
      assert EndsWith(s, "\n");
    }
  }

  /** Pieces ending in a non-empty newline-free one rejoin to a text with no final newline. */
  lemma RejoinKeepAll(s: string, parts: seq<string>)
    requires |parts| >= 1 && Join(parts, "\n") == s && parts[|parts| - 1] != ""
    requires Lacks(parts[|parts| - 1], '\n')
    ensures s != [] && !EndsWith(s, "\n")
  {
    var last := parts[|parts| - 1];
    JoinEndsWithLast(parts, "\n");
    assert s[|s| - 1] == last[|last| - 1];
  }

  /** A joined string ends with its last piece. */
  lemma JoinEndsWithLast(parts: seq<string>, sep: string)
    requires |parts| >= 1
    ensures EndsWith(Join(parts, sep), parts[|parts| - 1])
  {
    if |parts| > 1 {
      var init := parts[..|parts| - 1];
      LastSplitOff(parts);
      JoinSnoc(init, parts[|parts| - 1], sep);
    }
  }

  /** A newline-free first line is cut off whole. */
  lemma LinesCons(a: string, t: string)
    requires Lacks(a, '\n')
    ensures Lines(a + "\n" + t) == [a] + Lines(t)
  {
    SplitFirstChar(a, t, '\n');
    var rest := Split(t, "\n");
    var parts := [a] + rest;
    assert parts[|parts| - 1] == rest[|rest| - 1];
    if rest[|rest| - 1] == "" {
      assert parts[..|parts| - 1] == [a] + rest[..|rest| - 1];
    }
  }

  /** Lowering leaves a string without capitals unchanged. */
  lemma LowerUnchanged(s: string)
    requires forall i :: 0 <= i < |s| ==> !('A' <= s[i] <= 'Z')
    ensures Lower(s) == s
  {
  }

  /** The pieces of a split at a one-character separator never hold that character. */
  lemma {:induction false} SplitPiecesLack(s: string, c: char)
    ensures forall k :: 0 <= k < |Split(s, [c])| ==> Lacks(Split(s, [c])[k], c)
    decreases |s|
  {
    var parts := Split(s, [c]);
    if |s| < 1 {
      assert parts == [s];
    } else if s[..1] == [c] {
      SplitPiecesLack(s[1..], c);
      assert parts == [""] + Split(s[1..], [c]);
      forall k | 0 <= k < |parts|
        ensures Lacks(parts[k], c)
      {
        if k > 0 {
          assert parts[k] == Split(s[1..], [c])[k - 1];
        }
      }
    } else {
      SplitPiecesLack(s[1..], c);
      var rest := Split(s[1..], [c]);
      assert s[0] != c by {
        assert s[..1] == [s[0]];
      }
      assert parts == [[s[0]] + rest[0]] + rest[1..];
      forall k | 0 <= k < |parts|
        ensures Lacks(parts[k], c)
      {
        if k > 0 {
          assert parts[k] == rest[k];
        } else {
          assert Lacks(rest[0], c);
        }
      }
    }
  }

  /** Joining one piece more appends the separator and that piece. */
  lemma {:induction false} JoinSnoc(ps: seq<string>, x: string, sep: string)
    requires |ps| >= 1
    ensures Join(ps + [x], sep) == Join(ps, sep) + sep + x
    decreases |ps|
  {
    var qs := ps + [x];
    if |ps| == 1 {
      assert qs[1..] == [x];
    } else {
      assert qs[1..] == ps[1..] + [x];
      JoinSnoc(ps[1..], x, sep);
    }
  }

  /** Cutting at a first separator: the piece before it, then the pieces of the rest. */
  lemma SplitFirst(a: string, b: string, sep: string)
    requires sep != [] && NoMatchBefore(a + sep + b, sep, |a|)
    ensures Split(a + sep + b, sep) == [a] + Split(b, sep)
  {
    assert a + sep + b == a + (sep + b);
    SplitSkip(a, sep + b, sep);
    SplitAtSeparator(b, sep);
    var rest := Split(b, sep);
    assert ([""] + rest)[0] == "" && ([""] + rest)[1..] == rest;
    assert a + "" == a;
  }

  /** A piece free of a one-character separator is cut off whole. */
  lemma SplitFirstChar(a: string, b: string, c: char)
    requires Lacks(a, c)
    ensures Split(a + [c] + b, [c]) == [a] + Split(b, [c])
  {
    var s := a + [c] + b;
    assert s[..|a|] == a;
    LacksNoMatch(s, [c], |a|);
    SplitFirst(a, b, [c]);
  }

  /** A string free of a one-character separator is its own single piece. */
  lemma SplitLacking(a: string, c: char)
    requires Lacks(a, c)
    ensures Split(a, [c]) == [a]
  {
    assert a[..|a|] == a;
    LacksNoMatch(a, [c], |a|);
    SplitNoMatch(a, [c]);
  }

  predicate IsDigit(c: char) {
    '0' <= c <= '9'
  }

  /** `s.isdigit()` for ASCII digits */
  predicate IsDigits(s: string) {
    |s| > 0 && forall i :: 0 <= i < |s| ==> IsDigit(s[i])
  }

  function DigitsValue(s: string): nat
    requires forall i :: 0 <= i < |s| ==> IsDigit(s[i])
  {
    if s == [] then 0
    else
      assert IsDigit(s[|s| - 1]);
      10 * DigitsValue(s[..|s| - 1]) + (s[|s| - 1] as int - '0' as int)
  }

  /** `int(s)`: an optional sign followed by ASCII digits; anything else raises ValueError. */
  function ParseInt(s: string): Option<int> {
    if IsDigits(s) then Some(DigitsValue(s) as int)
    else if |s| > 1 && s[0] == '+' && IsDigits(s[1..]) then Some(DigitsValue(s[1..]) as int)
    else if |s| > 1 && s[0] == '-' && IsDigits(s[1..]) then Some(-(DigitsValue(s[1..]) as int))
    else None
  }

  /** `int(s)`: Python strips surrounding whitespace first. */
  function PyInt(s: string): Option<int> {
    ParseInt(Strip(s))
  }

  /** Zero or more ASCII digits. */
  predicate AllDigits(s: string) {
    forall i :: 0 <= i < |s| ==> IsDigit(s[i])
  }

  function Pow10(n: nat): (p: nat)
    ensures p > 0
  {
    if n == 0 then 1 else 10 * Pow10(n - 1)
  }

  /** The value of the digits `a` before a decimal point and `b` after it. */
  function PointValue(a: string, b: string): real
    requires AllDigits(a) && AllDigits(b)
  {
    DigitsValue(a) as real + DigitsValue(b) as real / Pow10(|b|) as real
  }

  /** Digits with at most one decimal point and at least one digit: `12`, `1.5`, `.5` or `5.`. */
  function UnsignedDecimal(s: string): Option<real> {
    var parts := Split(s, ".");
    if |parts| == 1 then
      if IsDigits(s) then Some(DigitsValue(s) as real) else None
    else if |parts| == 2 && AllDigits(parts[0]) && AllDigits(parts[1]) && |parts[0]| + |parts[1]| > 0 then
      Some(PointValue(parts[0], parts[1]))
    else None
  }

  /** `float(s)` on decimal notation: an optional sign before an unsigned decimal; anything else raises ValueError. */
  function ParseFloat(s: string): Option<real> {
    if |s| > 0 && (s[0] == '+' || s[0] == '-') then
      match UnsignedDecimal(s[1..])
      case None => None
      case Some(x) => Some(if s[0] == '-' then -x else x)
    else UnsignedDecimal(s)
  }

  /** `float(s)`: Python strips surrounding whitespace first. */
  function PyFloat(s: string): Option<real> {
    ParseFloat(Strip(s))
  }

  /** Whatever `int` accepts, `float` accepts too, with the same value. */
  lemma FloatExtendsInt(s: string)
    requires ParseInt(s).Some?
    ensures ParseFloat(s) == Some(ParseInt(s).value as real)
  {
    var d := if IsDigits(s) then s else s[1..];
    assert IsDigits(d);
    assert Lacks(d[..|d|], '.') by { assert d[..|d|] == d; }
    LacksNoMatch(d, ".", |d|);
    SplitNoMatch(d, ".");
  }

  /** Splitting on the only point of a string gives the text before and after it. */
  lemma SplitAtOnlyPoint(a: string, b: string)
    requires Lacks(a, '.') && Lacks(b, '.')
    ensures Split(a + "." + b, ".") == [a, b]
  {
    var s := a + "." + b;
    assert s == a + ("." + b);
    assert Lacks(s[..|a|], '.') by { assert s[..|a|] == a; }
    LacksNoMatch(s, ".", |a|);
    SplitSkip(a, "." + b, ".");
    assert Lacks(b[..|b|], '.') by { assert b[..|b|] == b; }
    LacksNoMatch(b, ".", |b|);
    SplitNoMatch(b, ".");
    SplitAtSeparator(b, ".");
    assert Split("." + b, ".") == ["", b];
    assert a + "" == a;
  }

  lemma UnsignedDecimalPoint(a: string, b: string)
    requires AllDigits(a) && AllDigits(b) && |a| + |b| > 0
    ensures UnsignedDecimal(a + "." + b) == Some(PointValue(a, b))
  {
    assert Lacks(a, '.') && Lacks(b, '.');
    SplitAtOnlyPoint(a, b);
    var parts := Split(a + "." + b, ".");
    assert |parts| == 2 && parts[0] == a && parts[1] == b;
  }

  /** `float` reads a run of digits as the number they write. */
  lemma PyFloatDigits(s: string)
    requires IsDigits(s)
    ensures PyFloat(s) == Some(DigitsValue(s) as real)
  {
    StripUnspaced(s);
    FloatDigits(s);
  }

  lemma FloatDigits(s: string)
    requires IsDigits(s)
    ensures ParseFloat(s) == Some(DigitsValue(s) as real)
  {
    FloatExtendsInt(s);
  }

  /** A decimal point between two runs of digits reads as the integer part plus the scaled fraction. */
  lemma ParseFloatDecimal(a: string, b: string)
    requires AllDigits(a) && AllDigits(b) && |a| + |b| > 0
    ensures ParseFloat(a + "." + b) == Some(PointValue(a, b))
  {
    var s := a + "." + b;
    assert s[0] != '+' && s[0] != '-' by {
      if a != [] {
        assert s[0] == a[0] && IsDigit(a[0]);
      } else {
        assert s[0] == '.';
      }
    }
    UnsignedDecimalPoint(a, b);
  }

  /** `float(s)` rejects a string with no digit. */
  lemma ParseFloatRejects(s: string)
    requires forall i :: 0 <= i < |s| ==> !IsDigit(s[i])
    ensures ParseFloat(s) == None
  {
    var t := if |s| > 0 && (s[0] == '+' || s[0] == '-') then s[1..] else s;
    JoinSplit(t, ".");
  }

  /** The decimal rendering of a natural number, as `str(n)` writes it. */
  function NatToString(n: nat): (s: string)
    ensures IsDigits(s)
  {
    if n < 10 then [('0' as int + n) as char]
    else NatToString(n / 10) + [('0' as int + n % 10) as char]
  }

  function IntToString(n: int): string {
    if n < 0 then "-" + NatToString(-n) else NatToString(n)
  }

  /** `int(str(n)) == n` for every integer. */
  lemma {:induction false} ParseIntToString(n: int)
    ensures ParseInt(IntToString(n)) == Some(n)
  {
    if n < 0 {
      var s := IntToString(n);
      NatToStringValue(-n);
      assert s[1..] == NatToString(-n);
      assert !IsDigits(s) by { assert !IsDigit(s[0]); }
    } else {
      NatToStringValue(n);
    }
  }

  lemma {:induction false} NatToStringValue(n: nat)
    ensures DigitsValue(NatToString(n)) == n
  {
    if n >= 10 {
      NatToStringValue(n / 10);
      var s := NatToString(n);
      assert s[..|s| - 1] == NatToString(n / 10);
    }
  }

  function LowerChar(c: char): char {
    if 'A' <= c <= 'Z' then (c as int + 32) as char else c
  }

  /** `s.lower()` on ASCII text */
  function Lower(s: string): (r: string)
    ensures |r| == |s|
    ensures forall i :: 0 <= i < |s| ==> r[i] == LowerChar(s[i])
  {
    if s == [] then [] else [LowerChar(s[0])] + Lower(s[1..])
  }

  /** ASCII whitespace as Python's `str.strip()` sees it: space, `\t` to `\r`, and the separators 0x1c to 0x1f. */
  predicate IsSpace(c: char) {
    c == ' ' || 9 <= c as int <= 13 || 28 <= c as int <= 31
  }

  /** The number of whitespace characters at the start of `s`. */
  function LeadingSpace(s: string): (n: nat)
    ensures n <= |s|
  {
    if s != [] && IsSpace(s[0]) then 1 + LeadingSpace(s[1..]) else 0
  }

  /** The number of whitespace characters at the end of `s`. */
  function TrailingSpace(s: string): (n: nat)
    ensures n <= |s|
  {
    if s != [] && IsSpace(s[|s| - 1]) then 1 + TrailingSpace(s[..|s| - 1]) else 0
  }

  /** `s.strip()` with ASCII whitespace */
  function Strip(s: string): string {
    var t := s[LeadingSpace(s)..];
    t[..|t| - TrailingSpace(t)]
  }

  /** A string that neither starts nor ends with whitespace is its own strip. */
  lemma StripUnspaced(s: string)
    requires s != [] && !IsSpace(s[0]) && !IsSpace(s[|s| - 1])
    ensures Strip(s) == s
  {
    assert s[0..] == s;
  }

  /**
   * Python's `<` on strings: lexicographic by code point, a proper prefix
   * coming first.
   */
  predicate LexLess(a: string, b: string) {
    if a == [] then b != []
    else if b == [] then false
    else a[0] < b[0] || (a[0] == b[0] && LexLess(a[1..], b[1..]))
  }

  lemma {:induction false} LexLessTotal(a: string, b: string)
    ensures a == b || LexLess(a, b) || LexLess(b, a)
  {
    if a != [] && b != [] && a[0] == b[0] {
      LexLessTotal(a[1..], b[1..]);
      if a[1..] == b[1..] {
        assert a == [a[0]] + a[1..] && b == [b[0]] + b[1..];
      }
    }
  }

  lemma {:induction false} LexLessTransitive(a: string, b: string, c: string)
    requires LexLess(a, b) && LexLess(b, c)
    ensures LexLess(a, c)
  {
    if a != [] && a[0] == b[0] && b[0] == c[0] {
      LexLessTransitive(a[1..], b[1..], c[1..]);
    }
  }

  lemma {:induction false} LexLessIrreflexive(a: string)
    ensures !LexLess(a, a)
  {
    if a != [] {
      LexLessIrreflexive(a[1..]);
    }
  }
}
