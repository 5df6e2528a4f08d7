/**
 * The string operations the source takes from the JavaScript runtime:
 * `trim`, `toLowerCase`/`toUpperCase`, `includes`, `startsWith`/`endsWith`,
 * `split` on a one-character separator and `join`. Case mapping and
 * whitespace are the ASCII parts of the runtime's definitions.
 */
module Strings {

  // ---------------------------------------------------------------------------
  // Whitespace and trimming
  // ---------------------------------------------------------------------------

  /** The ASCII characters `String.prototype.trim` and the regex class `\s` remove. */
  predicate IsSpace(c: char) {
    c == ' ' || c == '\t' || c == '\n' || c == '\r' || c == '\U{000B}' || c == '\U{000C}'
  }

  predicate AllSpace(s: string) {
    forall i :: 0 <= i < |s| ==> IsSpace(s[i])
  }

  /** Number of leading whitespace characters. */
  function LeadingSpaces(s: string): (n: nat)
    ensures n <= |s|
    ensures AllSpace(s[..n])
    ensures n < |s| ==> !IsSpace(s[n])
  {
    if |s| == 0 || !IsSpace(s[0]) then 0
    else
      var m := LeadingSpaces(s[1..]);
      assert s[..m + 1] == [s[0]] + s[1..][..m];
      m + 1
  }

  /** Number of trailing whitespace characters. */
  function TrailingSpaces(s: string): (n: nat)
    ensures n <= |s|
    ensures AllSpace(s[|s| - n..])
    ensures n < |s| ==> !IsSpace(s[|s| - n - 1])
  {
    if |s| == 0 || !IsSpace(s[|s| - 1]) then 0
    else
      var init := s[..|s| - 1];
      var m := TrailingSpaces(init);
      assert s[|s| - (m + 1)..] == init[|init| - m..] + [s[|s| - 1]];
      m + 1
  }

  /** `s.trimStart()` */
  function TrimStart(s: string): (r: string)
    ensures |r| <= |s| && r == s[|s| - |r|..]
    ensures AllSpace(s[..|s| - |r|])
    ensures r == [] || !IsSpace(r[0])
  {
    s[LeadingSpaces(s)..]
  }

  /** `s.trimEnd()` */
  function TrimEnd(s: string): (r: string)
    ensures |r| <= |s| && r == s[..|r|]
    ensures AllSpace(s[|r|..])
    ensures r == [] || !IsSpace(r[|r| - 1])
  {
    s[..|s| - TrailingSpaces(s)]
  }

  /** `s.trim()`: `s` is whitespace, then the result, then whitespace, and the
      result neither starts nor ends with whitespace. */
  function Trim(s: string): (r: string)
    ensures |r| <= |s|
    ensures exists i :: 0 <= i <= |s| - |r| && s[i..i + |r|] == r
                        && AllSpace(s[..i]) && AllSpace(s[i + |r|..])
    ensures r == [] || (!IsSpace(r[0]) && !IsSpace(r[|r| - 1]))
  {
    var t := TrimStart(s);
    var r := TrimEnd(t);
    var i := |s| - |t|;
    assert s[i..i + |r|] == r;
    assert s[i + |r|..] == t[|r|..];
    r
  }

  /** Neither starts nor ends with whitespace. */
  predicate Unpadded(s: string) {
    s == [] || (!IsSpace(s[0]) && !IsSpace(s[|s| - 1]))
  }

  /** A string with no surrounding whitespace is its own trim. */
  lemma TrimIdentity(s: string)
    requires Unpadded(s)
    ensures Trim(s) == s
  {
  }

  /** Trimming whitespace-wrapped text recovers the text. */
  lemma {:induction false} TrimPadded(pre: string, s: string, suf: string)
    requires AllSpace(pre) && AllSpace(suf)
    requires s == [] || (!IsSpace(s[0]) && !IsSpace(s[|s| - 1]))
    ensures Trim(pre + s + suf) == s
  {
    var w := pre + s + suf;
    if s == [] {
      assert AllSpace(w);
      AllSpaceTrimsToEmpty(w);
    } else {
      LeadingOfPadded(pre, s + suf);
      assert pre + (s + suf) == w;
      assert TrimStart(w) == s + suf;
      TrailingOfPadded(s, suf);
    }
  }

  lemma {:induction false} AllSpaceTrimsToEmpty(s: string)
    requires AllSpace(s)
    ensures Trim(s) == []
  {
    if s != [] {
      AllSpaceTrimsToEmpty(s[1..]);
      assert LeadingSpaces(s) == 1 + LeadingSpaces(s[1..]);
    }
  }

  lemma {:induction false} LeadingOfPadded(pre: string, t: string)
    requires AllSpace(pre)
    requires t != [] && !IsSpace(t[0])
    ensures LeadingSpaces(pre + t) == |pre|
  {
    if pre != [] {
      assert (pre + t)[1..] == pre[1..] + t;
      LeadingOfPadded(pre[1..], t);
    }
  }

  /** Trimming text behind leading blanks recovers the text. */
  lemma TrimAfterBlanks(pre: string, s: string)
    requires AllSpace(pre)
    requires s != [] && !IsSpace(s[0]) && !IsSpace(s[|s| - 1])
    ensures Trim(pre + s) == s
  {
    TrimPadded(pre, s, []);
    assert pre + s + [] == pre + s;
  }

  /** Leading blanks are exactly what `TrimStart` drops. */
  lemma TrimStartPadded(pre: string, t: string)
    requires AllSpace(pre)
    requires t != [] && !IsSpace(t[0])
    ensures TrimStart(pre + t) == t
  {
    LeadingOfPadded(pre, t);
    assert (pre + t)[|pre|..] == t;
  }

  lemma {:induction false} TrailingOfPadded(t: string, suf: string)
    requires AllSpace(suf)
    requires t != [] && !IsSpace(t[|t| - 1])
    ensures TrimEnd(t + suf) == t
    ensures TrailingSpaces(t + suf) == |suf|
  {
    if suf != [] {
      var w := t + suf;
      assert w[..|w| - 1] == t + suf[..|suf| - 1];
      TrailingOfPadded(t, suf[..|suf| - 1]);
    }
  }

  // ---------------------------------------------------------------------------
  // ASCII case mapping
  // ---------------------------------------------------------------------------

  predicate IsAsciiUpper(c: char) { 'A' <= c <= 'Z' }

  predicate IsAsciiLower(c: char) { 'a' <= c <= 'z' }

  function LowerChar(c: char): (r: char)
    ensures IsAsciiUpper(c) ==> IsAsciiLower(r) && r as int == c as int + 32
    ensures !IsAsciiUpper(c) ==> r == c
  {
    if IsAsciiUpper(c) then (c as int + 32) as char else c
  }

  function UpperChar(c: char): (r: char)
    ensures IsAsciiLower(c) ==> IsAsciiUpper(r) && r as int == c as int - 32
    ensures !IsAsciiLower(c) ==> r == c
  {
    if IsAsciiLower(c) then (c as int - 32) as char else c
  }

  /** `s.toLowerCase()` over ASCII. */
  function Lower(s: string): (r: string)
    ensures |r| == |s|
    ensures forall i :: 0 <= i < |s| ==> r[i] == LowerChar(s[i])
  {
    seq(|s|, i requires 0 <= i < |s| => LowerChar(s[i]))
  }

  /** `s.toUpperCase()` over ASCII. */
  function Upper(s: string): (r: string)
    ensures |r| == |s|
    ensures forall i :: 0 <= i < |s| ==> r[i] == UpperChar(s[i])
  {
    seq(|s|, i requires 0 <= i < |s| => UpperChar(s[i]))
  }

  lemma LowerAppend(a: string, b: string)
    ensures Lower(a + b) == Lower(a) + Lower(b)
  {
    assert forall i :: 0 <= i < |a + b| ==> Lower(a + b)[i] == (Lower(a) + Lower(b))[i];
  }

  // ---------------------------------------------------------------------------
  // Prefix, suffix and substring tests
  // ---------------------------------------------------------------------------

  /** `s.startsWith(p)` */
  predicate StartsWith(s: string, p: string) {
    |p| <= |s| && s[..|p|] == p
  }

  /** `s.endsWith(p)` */
  predicate EndsWith(s: string, p: string) {
    |p| <= |s| && s[|s| - |p|..] == p
  }

  /** `sub` occurs in `s` at position `i`. */
  ghost predicate OccursAt(s: string, sub: string, i: int) {
    0 <= i && i + |sub| <= |s| && s[i..i + |sub|] == sub
  }

  /** `s.includes(sub)`: a left-to-right scan for an occurrence. */
  function Contains(s: string, sub: string): (b: bool)
    ensures b <==> exists i :: OccursAt(s, sub, i)
    decreases |s|
  {
    if StartsWith(s, sub) then
      assert OccursAt(s, sub, 0);
      true
    else if |s| == 0 then
      false
    else
      var b := Contains(s[1..], sub);
      ContainsShift(s, sub);
      b
  }

  /** Occurrences in `s` past position 0 are the occurrences in `s[1..]`, shifted. */
  lemma ContainsShift(s: string, sub: string)
    requires |s| > 0 && !StartsWith(s, sub)
    ensures (exists i :: OccursAt(s, sub, i)) <==> (exists i :: OccursAt(s[1..], sub, i))
  {
    if i :| OccursAt(s[1..], sub, i) {
      assert s[1..][i..i + |sub|] == s[i + 1..i + 1 + |sub|];
      assert OccursAt(s, sub, i + 1);
    }
    if i :| OccursAt(s, sub, i) {
      assert i != 0;
      assert s[1..][i - 1..i - 1 + |sub|] == s[i..i + |sub|];
      assert OccursAt(s[1..], sub, i - 1);
    }
  }

  /** An occurrence inside a part is an occurrence inside the whole. */
  lemma ContainsInfix(a: string, sub: string, b: string)
    ensures Contains(a + sub + b, sub)
  {
    assert (a + sub + b)[|a|..|a| + |sub|] == sub;
    assert OccursAt(a + sub + b, sub, |a|);
  }

  // ---------------------------------------------------------------------------
  // split / join on a one-character separator
  // ---------------------------------------------------------------------------

  /** Position of the first `c` in `s`, or |s| when there is none. */
  function IndexOf(s: string, c: char): (k: nat)
    ensures k <= |s|
    ensures c !in s[..k]
    ensures k < |s| <==> c in s
    ensures k < |s| ==> s[k] == c
  {
    if |s| == 0 then 0
    else if s[0] == c then 0
    else
      var k := 1 + IndexOf(s[1..], c);
      assert s[..k] == [s[0]] + s[1..][..k - 1];
      k
  }

  /** `pieces.join(sep)` */
  function Join(pieces: seq<string>, sep: char): string
    decreases |pieces|
  {
    if |pieces| == 0 then ""
    else if |pieces| == 1 then pieces[0]
    else pieces[0] + [sep] + Join(pieces[1..], sep)
  }

  /** Joining a first piece before at least one more. */
  lemma JoinCons(x: string, rest: seq<string>, sep: char)
    requires |rest| >= 1
    ensures Join([x] + rest, sep) == x + [sep] + Join(rest, sep)
  {
    assert ([x] + rest)[1..] == rest;
  }

  /** Joining keeps a non-empty first piece in front. */
  lemma JoinNonEmpty(pieces: seq<string>, sep: char)
    requires |pieces| >= 1 && pieces[0] != ""
    ensures Join(pieces, sep) != "" && Join(pieces, sep)[0] == pieces[0][0]
  {
    if |pieces| > 1 {
      assert Join(pieces, sep) == pieces[0] + ([sep] + Join(pieces[1..], sep));
    }
  }

  /** A single line of text. */
  predicate NoNewline(s: string) {
    '\n' !in s
  }

  /** Gluing two single lines gives a single line. */
  lemma PrefixedSingle(p: string, s: string)
    requires '\n' !in p && '\n' !in s
    ensures '\n' !in p + s
  {
    assert forall c :: c in p + s ==> c in p || c in s;
  }

  /** No line contains a newline. */
  predicate SingleLines(lines: seq<string>) {
    forall i :: 0 <= i < |lines| ==> '\n' !in lines[i]
  }

  lemma SingleLinesConcat(a: seq<string>, b: seq<string>)
    requires SingleLines(a) && SingleLines(b)
    ensures SingleLines(a + b)
  {
    forall i | 0 <= i < |a + b| ensures '\n' !in (a + b)[i] {
      if i < |a| {
        assert (a + b)[i] == a[i];
      } else {
        assert (a + b)[i] == b[i - |a|];
      }
    }
  }

  /** `s.split(sep)`: the maximal separator-free pieces, in order. */
  function Split(s: string, sep: char): (pieces: seq<string>)
    ensures |pieces| >= 1
    ensures forall i :: 0 <= i < |pieces| ==> sep !in pieces[i]
    ensures Join(pieces, sep) == s
    decreases |s|
  {
    var k := IndexOf(s, sep);
    if k == |s| then
      assert s[..k] == s;
      [s]
    else
      var rest := Split(s[k + 1..], sep);
      assert s == s[..k] + [sep] + s[k + 1..];
      assert ([s[..k]] + rest)[1..] == rest;
      [s[..k]] + rest
  }

  /** Splitting at the first separator: the piece before it, then the
      pieces of what follows. */
  lemma SplitAtFirst(s: string, sep: char, k: nat)
    requires k == IndexOf(s, sep) && k < |s|
    ensures Split(s, sep) == [s[..k]] + Split(s[k + 1..], sep)
  {
  }

  /** Splitting a join of separator-free pieces gives the pieces back. */
  lemma {:induction false} SplitJoin(pieces: seq<string>, sep: char)
    requires |pieces| >= 1
    requires forall i :: 0 <= i < |pieces| ==> sep !in pieces[i]
    ensures Split(Join(pieces, sep), sep) == pieces
    decreases |pieces|
  {
    var s := Join(pieces, sep);
    if |pieces| == 1 {
      assert sep !in s;
    } else {
      var tail := pieces[1..];
      SplitJoin(tail, sep);
      var p := pieces[0];
      assert s == p + [sep] + Join(tail, sep);
      assert s[..|p|] == p;
      assert IndexOf(s, sep) == |p| by {
        assert s[|p|] == sep;
        assert sep !in s[..|p|];
      }
      assert s[|p| + 1..] == Join(tail, sep);
      assert Split(s, sep) == [p] + Split(Join(tail, sep), sep);
    }
  }

  /** A string without the separator splits into itself alone. */
  lemma SplitNoSeparator(s: string, sep: char)
    requires sep !in s
    ensures Split(s, sep) == [s]
  {
    assert IndexOf(s, sep) == |s|;
    assert s[..|s|] == s;
  }

  /** `s.split(sep).map(p => p.trim())` */
  function SplitTrim(s: string, sep: char): (r: seq<string>)
    ensures |r| == |Split(s, sep)| >= 1
    ensures forall i :: 0 <= i < |r| ==> r[i] == Trim(Split(s, sep)[i])
  {
    var pieces := Split(s, sep);
    seq(|pieces|, i requires 0 <= i < |pieces| => Trim(pieces[i]))
  }

  /** A single item with no separator and no surrounding blanks splits to
      itself. */
  lemma SplitTrimSingle(p: string, sep: char)
    requires sep !in p && p != [] && !IsSpace(p[0]) && !IsSpace(p[|p| - 1])
    ensures SplitTrim(p, sep) == [p]
  {
    TrimIdentity(p);
    SplitTrimJoin([p], sep);
    assert Join([p], sep) == p;
  }

  /** Round trip: a comma-joined list of separator-free, already-trimmed items
      splits and trims back to the same list, in order. */
  lemma SplitTrimJoin(items: seq<string>, sep: char)
    requires |items| >= 1
    requires forall i :: 0 <= i < |items| ==> sep !in items[i]
    requires forall i :: 0 <= i < |items| ==> Trim(items[i]) == items[i]
    ensures SplitTrim(Join(items, sep), sep) == items
  {
    SplitJoin(items, sep);
  }

  /** `path.join(a, b)` for a relative `b`, without normalisation. */
  function PathJoin(a: string, b: string): (r: string)
    ensures StartsWith(r, a) && EndsWith(r, b)
    ensures |r| == |a| + 1 + |b| && r[|a|] == '/'
  {
    var r := a + "/" + b;
    assert r[..|a|] == a;
    assert r[|r| - |b|..] == b;
    r
  }

  /** Concatenation regrouped: the last three pieces taken together. */
  lemma Regroup(a: string, b: string, c: string, d: string)
    ensures a + b + c + d == a + (b + c + d)
  {
  }
}
