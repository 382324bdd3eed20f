/** String primitives of the JavaScript runtime that the report normaliser relies on:
    the whitespace class shared by `String.prototype.trim`, the regular expression
    class `\s` and `parseInt`; trimming; whitespace-run collapsing; splitting a dotted
    path; and decimal digit strings. */
module JsStrings {

  /** ECMAScript WhiteSpace or LineTerminator code point. */
  predicate IsSpace(c: char) {
    || ('\t' <= c <= '\r') || c == ' ' || c == '\U{00A0}' || c == '\U{1680}'
    || ('\U{2000}' <= c <= '\U{200A}') || ('\U{2028}' <= c <= '\U{2029}')
    || c == '\U{202F}' || c == '\U{205F}' || c == '\U{3000}' || c == '\U{FEFF}'
  }

  predicate AllSpace(s: string) {
    forall i :: 0 <= i < |s| ==> IsSpace(s[i])
  }

  /** Drops the leading whitespace: the result is a suffix of `s` that does not start
      with whitespace (and everything dropped was whitespace, `TrimStartDropsSpace`). */
  function TrimStart(s: string): (r: string)
    ensures |r| <= |s| && r == s[|s| - |r|..]
    ensures r == [] || !IsSpace(r[0])
  {
    if s != [] && IsSpace(s[0]) then TrimStart(s[1..]) else s
  }

  /** Drops the trailing whitespace: the result is a prefix of `s` that does not end
      with whitespace (and everything dropped was whitespace, `TrimEndDropsSpace`). */
  function TrimEnd(s: string): (r: string)
    ensures |r| <= |s| && r == s[..|r|]
    ensures r == [] || !IsSpace(r[|r| - 1])
  {
    if s != [] && IsSpace(s[|s| - 1]) then TrimEnd(s[..|s| - 1]) else s
  }

  lemma {:induction false} TrimStartDropsSpace(s: string)
    ensures forall i :: 0 <= i < |s| - |TrimStart(s)| ==> IsSpace(s[i])
  {
    if s != [] && IsSpace(s[0]) {
      TrimStartDropsSpace(s[1..]);
      forall i | 0 < i < |s| - |TrimStart(s)| ensures IsSpace(s[i]) {
        assert s[i] == s[1..][i - 1];
      }
    }
  }

  lemma {:induction false} TrimEndDropsSpace(s: string)
    ensures forall i :: |TrimEnd(s)| <= i < |s| ==> IsSpace(s[i])
  {
    if s != [] && IsSpace(s[|s| - 1]) {
      TrimEndDropsSpace(s[..|s| - 1]);
      forall i | |TrimEnd(s)| <= i < |s| - 1 ensures IsSpace(s[i]) {
        assert s[i] == s[..|s| - 1][i];
      }
    }
  }

  /** `String.prototype.trim`. */
  function Trim(s: string): (r: string)
  {
    TrimEnd(TrimStart(s))
  }

  /** How many leading characters `Trim` cuts. */
  function TrimOffset(s: string): (lo: nat)
    ensures lo <= |s|
  {
    |s| - |TrimStart(s)|
  }

  /** What `Trim` keeps is a contiguous slice of `s`. */
  lemma {:induction false} TrimSlice(s: string)
    ensures TrimOffset(s) + |Trim(s)| <= |s|
    ensures Trim(s) == s[TrimOffset(s)..TrimOffset(s) + |Trim(s)|]
  {
    var t := TrimStart(s);
    var r := TrimEnd(t);
    assert t == s[TrimOffset(s)..];
    assert r == t[..|r|];
  }

  /** What `Trim` cuts on either side of that slice is whitespace only. */
  lemma {:induction false} TrimCutsOnlySpace(s: string)
    ensures TrimOffset(s) + |Trim(s)| <= |s|
    ensures forall i :: 0 <= i < TrimOffset(s) ==> IsSpace(s[i])
    ensures forall i :: TrimOffset(s) + |Trim(s)| <= i < |s| ==> IsSpace(s[i])
  {
    TrimStartDropsSpace(s);
    TrimCutsTrailing(s);
  }

  lemma {:induction false} TrimCutsTrailing(s: string)
    ensures TrimOffset(s) + |Trim(s)| <= |s|
    ensures forall i :: TrimOffset(s) + |Trim(s)| <= i < |s| ==> IsSpace(s[i])
  {
    var t := TrimStart(s);
    TrimEndDropsSpace(t);
    SpaceAfterSuffix(s, TrimOffset(s), |TrimEnd(t)|);
  }

  lemma {:induction false} SpaceAfterSuffix(s: string, lo: nat, k: nat)
    requires lo + k <= |s|
    requires forall j :: k <= j < |s[lo..]| ==> IsSpace(s[lo..][j])
    ensures forall i :: lo + k <= i < |s| ==> IsSpace(s[i])
  {
    forall i | lo + k <= i < |s| ensures IsSpace(s[i]) {
      assert s[i] == s[lo..][i - lo];
    }
  }

  /** The result of `Trim` neither starts nor ends with whitespace. */
  lemma {:induction false} TrimEdges(s: string)
    ensures Trim(s) == [] || (!IsSpace(Trim(s)[0]) && !IsSpace(Trim(s)[|Trim(s)| - 1]))
  {
    var t := TrimStart(s);
    var r := TrimEnd(t);
    if r != [] {
      assert r[0] == t[0];
    }
  }

  /** `Trim` yields the empty string exactly when `s` is all whitespace. */
  lemma {:induction false} TrimEmptyIffAllSpace(s: string)
    ensures Trim(s) == [] <==> AllSpace(s)
  {
    var t := TrimStart(s);
    TrimStartDropsSpace(s);
    TrimEndDropsSpace(t);
  }

  /** A string with no whitespace at either end is its own trim. */
  lemma {:induction false} TrimOfUnpadded(s: string)
    requires s == [] || (!IsSpace(s[0]) && !IsSpace(s[|s| - 1]))
    ensures Trim(s) == s
  {
  }

  /** No two adjacent whitespace characters. */
  predicate NoSpaceRun(s: string) {
    forall i :: 0 <= i < |s| - 1 ==> !(IsSpace(s[i]) && IsSpace(s[i + 1]))
  }

  /** Every whitespace character is a plain space U+0020. */
  predicate OnlyPlainSpaces(s: string) {
    forall i :: 0 <= i < |s| && IsSpace(s[i]) ==> s[i] == ' '
  }

  /** `s.replace(/\s+/g, ' ')`: each maximal whitespace run becomes one space. Read left
      to right, a whitespace character followed by another is dropped, and the last one
      of a run becomes ' '. */
  function CollapseWhitespace(s: string): (r: string)
    ensures |r| <= |s|
  {
    if s == [] then []
    else if IsSpace(s[0]) && |s| > 1 && IsSpace(s[1]) then CollapseWhitespace(s[1..])
    else [if IsSpace(s[0]) then ' ' else s[0]] + CollapseWhitespace(s[1..])
  }

  /** What collapsing promises about `s`: the result has no whitespace run and no
      whitespace but plain spaces; it is empty only for the empty string, and it starts
      and ends with whitespace exactly when `s` does. */
  predicate CollapsesWell(s: string) {
    var r := CollapseWhitespace(s);
    && NoSpaceRun(r) && OnlyPlainSpaces(r)
    && (r == [] <==> s == [])
    && (s != [] ==> (IsSpace(r[0]) <==> IsSpace(s[0])))
    && (s != [] ==> (IsSpace(r[|r| - 1]) <==> IsSpace(s[|s| - 1])))
  }

  lemma {:induction false} CollapseShape(s: string)
    ensures CollapsesWell(s)
  {
    if s != [] {
      CollapseShape(s[1..]);
      CollapseShapeStep(s);
    }
  }

  lemma {:induction false} CollapseShapeStep(s: string)
    requires s != [] && CollapsesWell(s[1..])
    ensures CollapsesWell(s)
  {
    var r := CollapseWhitespace(s);
    var t := CollapseWhitespace(s[1..]);
    if IsSpace(s[0]) && |s| > 1 && IsSpace(s[1]) {
      assert r == t;
      assert s[1..][|s| - 2] == s[|s| - 1];
    } else {
      var x := if IsSpace(s[0]) then ' ' else s[0];
      assert IsSpace(' ');
      assert r == [x] + t;
      ConsShape(x, t);
      if |s| > 1 {
        assert s[1..][0] == s[1];
        assert s[1..][|s| - 2] == s[|s| - 1];
      }
    }
  }

  lemma {:induction false} ConsShape(x: char, y: string)
    requires NoSpaceRun(y) && OnlyPlainSpaces(y)
    requires !IsSpace(x) || (x == ' ' && (y == [] || !IsSpace(y[0])))
    ensures NoSpaceRun([x] + y) && OnlyPlainSpaces([x] + y)
  {
    var r := [x] + y;
    assert forall i :: 0 < i < |r| ==> r[i] == y[i - 1];
  }

  /** The characters that are not whitespace, in order. */
  function NonSpace(s: string): (r: string)
    ensures |r| <= |s|
  {
    if s == [] then []
    else (if IsSpace(s[0]) then [] else [s[0]]) + NonSpace(s[1..])
  }

  lemma {:induction false} NonSpaceConcat(a: string, b: string)
    ensures NonSpace(a + b) == NonSpace(a) + NonSpace(b)
  {
    if a != [] {
      assert (a + b)[1..] == a[1..] + b;
      NonSpaceConcat(a[1..], b);
    } else {
      assert a + b == b;
    }
  }

  /** Collapsing keeps every non-whitespace character, in order. */
  lemma {:induction false} CollapseKeepsText(s: string)
    ensures NonSpace(CollapseWhitespace(s)) == NonSpace(s)
  {
    if s != [] {
      CollapseKeepsText(s[1..]);
      if !(IsSpace(s[0]) && |s| > 1 && IsSpace(s[1])) {
        var x := if IsSpace(s[0]) then ' ' else s[0];
        assert IsSpace(' ');
        NonSpaceConcat([x], CollapseWhitespace(s[1..]));
      }
    }
  }

  /** A string with no whitespace at either end collapses to a non-empty one with none
      either, with single plain spaces inside and the same text. */
  lemma {:induction false} CollapseOfTrimmed(s: string)
    requires s != [] && !IsSpace(s[0]) && !IsSpace(s[|s| - 1])
    ensures CollapseWhitespace(s) != []
    ensures !IsSpace(CollapseWhitespace(s)[0])
    ensures !IsSpace(CollapseWhitespace(s)[|CollapseWhitespace(s)| - 1])
    ensures NoSpaceRun(CollapseWhitespace(s)) && OnlyPlainSpaces(CollapseWhitespace(s))
    ensures NonSpace(CollapseWhitespace(s)) == NonSpace(s)
  {
    CollapseShape(s);
    CollapseKeepsText(s);
  }

  lemma {:induction false} TrimStartSkipsSpace(ws: string, s: string)
    requires AllSpace(ws)
    ensures TrimStart(ws + s) == TrimStart(s)
  {
    if ws == [] {
      assert ws + s == s;
    } else {
      assert (ws + s)[1..] == ws[1..] + s;
      TrimStartSkipsSpace(ws[1..], s);
    }
  }

  /** A whitespace run before a non-whitespace character (or the end) collapses to one
      space, however long the run. */
  lemma {:induction false} CollapseSpaceRun(ws: string, s: string)
    requires ws != [] && AllSpace(ws)
    requires s == [] || !IsSpace(s[0])
    ensures CollapseWhitespace(ws + s) == [' '] + CollapseWhitespace(s)
  {
    var t := ws + s;
    assert t[0] == ws[0];
    if |ws| == 1 {
      assert t[1..] == s;
    } else {
      assert t[1] == ws[1];
      assert t[1..] == ws[1..] + s;
      CollapseSpaceRun(ws[1..], s);
    }
  }

  /** A non-whitespace character is kept as it is, in front of the rest collapsed. */
  lemma {:induction false} CollapseNonSpaceHead(c: char, u: string)
    requires !IsSpace(c)
    ensures CollapseWhitespace([c] + u) == [c] + CollapseWhitespace(u)
  {
    var t := [c] + u;
    assert t[0] == c && t[1..] == u;
  }

  /** A character followed by a whitespace run collapses to the character and one space. */
  lemma {:induction false} CollapseAfterChar(c: char, ws: string, s: string)
    requires !IsSpace(c) && ws != [] && AllSpace(ws)
    requires s == [] || !IsSpace(s[0])
    ensures CollapseWhitespace([c] + ws + s) == [c, ' '] + CollapseWhitespace(s)
  {
    assert [c] + ws + s == [c] + (ws + s);
    CollapseNonSpaceHead(c, ws + s);
    CollapseSpaceRun(ws, s);
  }

  /** A prefix that does not end in whitespace collapses on its own: no run crosses the
      cut between `p` and `u`. */
  lemma {:induction false} CollapseSplitsAfterText(p: string, u: string)
    requires p == [] || !IsSpace(p[|p| - 1])
    ensures CollapseWhitespace(p + u) == CollapseWhitespace(p) + CollapseWhitespace(u)
  {
    if p == [] {
      assert p + u == u;
    } else if |p| == 1 {
      CollapseNonSpaceHead(p[0], u);
      assert p == [p[0]] && CollapseWhitespace(p) == [p[0]] + CollapseWhitespace([]);
    } else {
      var t := p + u;
      assert t[0] == p[0] && t[1] == p[1];
      assert t[1..] == p[1..] + u;
      assert p[1..][|p| - 2] == p[|p| - 1];
      CollapseSplitsAfterText(p[1..], u);
    }
  }

  /** So texts that differ only in the length of one whitespace run, placed after any
      prefix that does not end in whitespace, collapse alike. */
  lemma {:induction false} CollapseIgnoresRunLength(p: string, ws1: string, ws2: string, s: string)
    requires p == [] || !IsSpace(p[|p| - 1])
    requires ws1 != [] && AllSpace(ws1) && ws2 != [] && AllSpace(ws2)
    requires s == [] || !IsSpace(s[0])
    ensures CollapseWhitespace(p + ws1 + s) == CollapseWhitespace(p + ws2 + s)
    ensures |ws1| != |ws2| ==> p + ws1 + s != p + ws2 + s
  {
    assert p + ws1 + s == p + (ws1 + s);
    assert p + ws2 + s == p + (ws2 + s);
    CollapseSplitsAfterText(p, ws1 + s);
    CollapseSplitsAfterText(p, ws2 + s);
    CollapseSpaceRun(ws1, s);
    CollapseSpaceRun(ws2, s);
  }

  // ---- dotted paths ----

  /** Index of the first '.' of `s`. */
  function FirstDot(s: string): (i: nat)
    requires '.' in s
    ensures i < |s| && s[i] == '.' && '.' !in s[..i]
  {
    if s[0] == '.' then 0
    else
      assert '.' in s[1..] by {
        var k :| 0 <= k < |s| && s[k] == '.';
        assert s[1..][k - 1] == '.';
      }
      var j := FirstDot(s[1..]);
      assert s[..j + 1] == [s[0]] + s[1..][..j];
      j + 1
  }

  /** `s.split('.')`. */
  function Split(s: string): (r: seq<string>)
    ensures |r| >= 1
    decreases |s|
  {
    if '.' !in s then [s]
    else
      var i := FirstDot(s);
      [s[..i]] + Split(s[i + 1..])
  }

  /** `parts.join(sep)`. */
  function Join(parts: seq<string>, sep: string): string
  {
    if |parts| == 0 then ""
    else if |parts| == 1 then parts[0]
    else parts[0] + sep + Join(parts[1..], sep)
  }

  predicate DotFree(segments: seq<string>) {
    forall i :: 0 <= i < |segments| ==> '.' !in segments[i]
  }

  /** Splitting a path and joining the pieces gives the path back. */
  lemma {:induction false} JoinSplit(s: string)
    ensures Join(Split(s), ".") == s
    decreases |s|
  {
    if '.' in s {
      var i := FirstDot(s);
      var tail := s[i + 1..];
      JoinSplit(tail);
      JoinCons(s[..i], Split(tail), ".");
      assert s == s[..i] + "." + tail;
    }
  }

  lemma {:induction false} JoinCons(head: string, tail: seq<string>, sep: string)
    requires tail != []
    ensures Join([head] + tail, sep) == head + sep + Join(tail, sep)
  {
    var parts := [head] + tail;
    assert parts[0] == head && parts[1..] == tail;
  }

  /** No piece of a split path holds a dot. */
  lemma {:induction false} SplitDotFree(s: string)
    ensures DotFree(Split(s))
    decreases |s|
  {
    if '.' in s {
      var i := FirstDot(s);
      var tail := Split(s[i + 1..]);
      SplitDotFree(s[i + 1..]);
      var parts := Split(s);
      assert parts == [s[..i]] + tail;
      forall k | 0 <= k < |parts| ensures '.' !in parts[k] {
        if k > 0 {
          assert parts[k] == tail[k - 1];
        }
      }
    }
  }

  /** The first dot of `head + "." + rest` is the one after `head` when `head` has none. */
  lemma {:induction false} FirstDotAfterHead(head: string, rest: string)
    requires '.' !in head
    ensures '.' in head + "." + rest
    ensures FirstDot(head + "." + rest) == |head|
  {
    var s := head + "." + rest;
    assert s[|head|] == '.';
    assert s[..|head|] == head;
  }

  /** Joining dot-free pieces and splitting gives the pieces back: a dotted literal path
      stands for exactly the key sequence it spells. */
  lemma {:induction false} SplitJoin(segments: seq<string>)
    requires |segments| >= 1 && DotFree(segments)
    ensures Split(Join(segments, ".")) == segments
  {
    if |segments| > 1 {
      var head := segments[0];
      var rest := Join(segments[1..], ".");
      var s := head + "." + rest;
      assert '.' !in head;
      FirstDotAfterHead(head, rest);
      assert s[..|head|] == head;
      assert s[|head| + 1..] == rest;
      SplitJoin(segments[1..]);
      assert Split(s) == [head] + Split(rest);
    }
  }

  // ---- decimal digits ----

  predicate IsDigit(c: char) {
    '0' <= c <= '9'
  }

  predicate AllDigits(s: string) {
    forall i :: 0 <= i < |s| ==> IsDigit(s[i])
  }

  function DigitChar(d: nat): (c: char)
    requires d < 10
    ensures IsDigit(c)
  {
    (('0' as int) + d) as char
  }

  /** The number a string of decimal digits denotes, most significant digit first. */
  function DigitsValue(ds: string): nat
    requires AllDigits(ds)
  {
    if ds == [] then 0
    else DigitsValue(ds[..|ds| - 1]) * 10 + ((ds[|ds| - 1] as int) - ('0' as int))
  }

  /** The canonical decimal form of a natural number: digits only, and no leading zero
      unless the number is zero. */
  function NatToDecimal(n: nat): (r: string)
    ensures r != [] && AllDigits(r)
    ensures r[0] == '0' <==> n == 0
    ensures n == 0 ==> r == "0"
  {
    if n < 10 then [DigitChar(n)]
    else NatToDecimal(n / 10) + [DigitChar(n % 10)]
  }

  /** `String(n)` for an integer. */
  function IntToDecimal(n: int): string
  {
    if n < 0 then "-" + NatToDecimal(-n) else NatToDecimal(n)
  }

  /** The decimal form denotes the number it was made from. */
  lemma {:induction false} NatToDecimalValue(n: nat)
    ensures DigitsValue(NatToDecimal(n)) == n
  {
    if n >= 10 {
      NatToDecimalValue(n / 10);
      var r := NatToDecimal(n);
      assert r[..|r| - 1] == NatToDecimal(n / 10);
    }
  }

  /** A digit string with a non-zero leading digit denotes a positive number. */
  lemma {:induction false} LeadingDigitPositive(ds: string)
    requires ds != [] && AllDigits(ds) && ds[0] != '0'
    ensures DigitsValue(ds) >= 1
  {
    if |ds| > 1 {
      LeadingDigitPositive(ds[..|ds| - 1]);
    }
  }

  /** A digit string without a superfluous leading zero is the canonical decimal form of
      the number it denotes. */
  lemma {:induction false} CanonicalDecimal(ds: string)
    requires ds != [] && AllDigits(ds) && (ds[0] != '0' || |ds| == 1)
    ensures NatToDecimal(DigitsValue(ds)) == ds
  {
    if |ds| > 1 {
      var front := ds[..|ds| - 1];
      CanonicalDecimal(front);
      LeadingDigitPositive(front);
      var v := DigitsValue(ds);
      var d := (ds[|ds| - 1] as int) - ('0' as int);
      assert v == DigitsValue(front) * 10 + d;
      assert v / 10 == DigitsValue(front) && v % 10 == d;
      assert ds == front + [ds[|ds| - 1]];
    }
  }
}
