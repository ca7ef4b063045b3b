/** The Python string operations the greeting flow relies on: `str.isspace`,
    `strip`, `upper`, `lower`, `sep.join` and `split`, plus substring search. */
module Text {

  /** Python's `str.isspace`: the code points `strip()` removes by default. */
  predicate IsSpace(c: char) {
    var n := c as int;
    || 0x09 <= n <= 0x0D
    || 0x1C <= n <= 0x20
    || n == 0x85 || n == 0xA0 || n == 0x1680
    || 0x2000 <= n <= 0x200A
    || n == 0x2028 || n == 0x2029 || n == 0x202F || n == 0x205F || n == 0x3000
  }

  /* ---------------------------------------------------------------- strip */

  /** `s.lstrip()`: drops the longest all-whitespace prefix. */
  function LStrip(s: string): (r: string)
    ensures |r| <= |s| && r == s[|s| - |r|..]
    ensures forall i | 0 <= i < |s| - |r| :: IsSpace(s[i])
    ensures r == [] || !IsSpace(r[0])
    decreases |s|
  {
    if |s| > 0 && IsSpace(s[0]) then LStrip(s[1..]) else s
  }

  /** `s.rstrip()`: drops the longest all-whitespace suffix. */
  function RStrip(s: string): (r: string)
    ensures |r| <= |s| && r == s[..|r|]
    ensures forall i | |r| <= i < |s| :: IsSpace(s[i])
    ensures r == [] || !IsSpace(r[|r| - 1])
    decreases |s|
  {
    if |s| > 0 && IsSpace(s[|s| - 1]) then RStrip(s[..|s| - 1]) else s
  }

  /** `r` is what is left of `s` once the whitespace before position `k` and
      after position `k + |r|` is removed, and `r` neither starts nor ends
      with whitespace. */
  predicate TrimmedAt(s: string, r: string, k: int) {
    && 0 <= k <= |s| - |r|
    && s[k..k + |r|] == r
    && (forall i | 0 <= i < k :: IsSpace(s[i]))
    && (forall i | k + |r| <= i < |s| :: IsSpace(s[i]))
    && (r == [] || (!IsSpace(r[0]) && !IsSpace(r[|r| - 1])))
  }

  /** `r` is `s` with its surrounding whitespace removed. */
  predicate IsTrimOf(s: string, r: string) {
    exists k | 0 <= k <= |s| - |r| :: TrimmedAt(s, r, k)
  }

  /** `s.strip()`. */
  function Strip(s: string): (r: string)
    ensures IsTrimOf(s, r)
  {
    var l := LStrip(s);
    var r := RStrip(l);
    StripsTrim(s, l, r);
    r
  }

  /** Right-stripping a left-stripped string trims it. Stated over the
      contracts of `LStrip` and `RStrip` alone, so that the verifier does not
      unfold their bodies. */
  lemma StripsTrim(s: string, l: string, r: string)
    requires |l| <= |s| && l == s[|s| - |l|..]
    requires forall i | 0 <= i < |s| - |l| :: IsSpace(s[i])
    requires l == [] || !IsSpace(l[0])
    requires |r| <= |l| && r == l[..|r|]
    requires forall i | |r| <= i < |l| :: IsSpace(l[i])
    requires r == [] || !IsSpace(r[|r| - 1])
    ensures TrimmedAt(s, r, |s| - |l|)
  {
    assert s[|s| - |l|..][..|r|] == s[|s| - |l|..|s| - |l| + |r|];
  }

  /** What a trimming says about the characters of the original string. */
  lemma TrimmedAtChars(s: string, r: string, k: int)
    requires TrimmedAt(s, r, k)
    ensures r == [] ==> forall i | 0 <= i < |s| :: IsSpace(s[i])
    ensures r != [] ==> !IsSpace(s[k]) && !IsSpace(s[k + |r| - 1])
  {
    assert forall m | 0 <= m < |r| :: r[m] == s[k + m];
  }

  /** There is only one way to trim a string, so `Strip` is exactly the
      trimming relation. */
  lemma StripUnique(s: string, r: string)
    requires IsTrimOf(s, r)
    ensures r == Strip(s)
  {
    var k :| 0 <= k <= |s| - |r| && TrimmedAt(s, r, k);
    var t := Strip(s);
    var j :| 0 <= j <= |s| - |t| && TrimmedAt(s, t, j);
    TrimmedAtChars(s, r, k);
    TrimmedAtChars(s, t, j);
    if r != [] && t != [] {
      assert k == j;
      assert k + |r| == j + |t|;
    }
  }

  /** Stripping twice is stripping once. */
  lemma StripIdempotent(s: string)
    ensures Strip(Strip(s)) == Strip(s)
  {
    var t := Strip(s);
    assert TrimmedAt(t, t, 0);
    StripUnique(t, t);
  }

  /* ----------------------------------------------------------- case maps */

  predicate IsLowerAscii(c: char) { 'a' <= c <= 'z' }
  predicate IsUpperAscii(c: char) { 'A' <= c <= 'Z' }

  function UpperChar(c: char): char {
    if IsLowerAscii(c) then (c as int - 32) as char else c
  }

  function LowerChar(c: char): char {
    if IsUpperAscii(c) then (c as int + 32) as char else c
  }

  /** `s` and `r` spell the same letters, ignoring ASCII case. */
  predicate SameUpToCase(s: string, r: string) {
    |r| == |s| && forall i | 0 <= i < |s| :: UpperChar(r[i]) == UpperChar(s[i])
  }

  /** `s.upper()` on ASCII letters. */
  function Upper(s: string): (r: string)
    ensures SameUpToCase(s, r)
    ensures forall i | 0 <= i < |r| :: !IsLowerAscii(r[i])
    ensures forall i | 0 <= i < |s| :: !IsLowerAscii(s[i]) ==> r[i] == s[i]
  {
    seq(|s|, i requires 0 <= i < |s| => UpperChar(s[i]))
  }

  /** `s.lower()` on ASCII letters. */
  function Lower(s: string): (r: string)
    ensures SameUpToCase(s, r)
    ensures forall i | 0 <= i < |r| :: !IsUpperAscii(r[i])
    ensures forall i | 0 <= i < |s| :: !IsUpperAscii(s[i]) ==> r[i] == s[i]
  {
    seq(|s|, i requires 0 <= i < |s| => LowerChar(s[i]))
  }

  /* ----------------------------------------------------------- substrings */

  predicate StartsWith(s: string, t: string) {
    |t| <= |s| && s[..|t|] == t
  }

  predicate OccursAt(s: string, t: string, i: int) {
    0 <= i <= |s| - |t| && s[i..i + |t|] == t
  }

  /** Python's `t in s` for strings. */
  predicate Contains(s: string, t: string) {
    exists i | 0 <= i <= |s| - |t| :: OccursAt(s, t, i)
  }

  lemma ContainsMiddle(x: string, t: string, y: string)
    ensures Contains(x + t + y, t)
  {
    assert (x + t + y)[|x|..|x| + |t|] == t;
    assert OccursAt(x + t + y, t, |x|);
  }

  lemma ContainsTransitive(s: string, u: string, t: string)
    requires Contains(s, u) && Contains(u, t)
    ensures Contains(s, t)
  {
    var i :| 0 <= i <= |s| - |u| && OccursAt(s, u, i);
    var j :| 0 <= j <= |u| - |t| && OccursAt(u, t, j);
    forall m | 0 <= m < |t| ensures s[i + j + m] == t[m] {
      assert u[j + m] == t[m];
      assert s[i + (j + m)] == u[j + m];
    }
    assert s[i + j..i + j + |t|] == t;
    assert OccursAt(s, t, i + j);
  }

  /** `x` directly followed by `y` at position `i` of `s`. */
  predicate AdjacentAt(s: string, x: char, y: char, i: int) {
    0 <= i < |s| - 1 && s[i] == x && s[i + 1] == y
  }

  predicate NoAdjacent(s: string, x: char, y: char) {
    forall i | 0 <= i < |s| - 1 :: !AdjacentAt(s, x, y, i)
  }

  lemma NoAdjacentConcat(a: string, b: string, x: char, y: char)
    requires NoAdjacent(a, x, y) && NoAdjacent(b, x, y)
    requires |a| == 0 || |b| == 0 || a[|a| - 1] != x || b[0] != y
    ensures NoAdjacent(a + b, x, y)
  {
    forall i | 0 <= i < |a + b| - 1 ensures !AdjacentAt(a + b, x, y, i) {
      if i + 1 < |a| {
        assert !AdjacentAt(a, x, y, i);
      } else if i >= |a| {
        assert !AdjacentAt(b, x, y, i - |a|);
      }
    }
  }

  /** A string in which the first two letters of `t` never stand side by
      side cannot contain `t`. */
  lemma NotContainsByPair(s: string, t: string)
    requires |t| >= 2 && NoAdjacent(s, t[0], t[1])
    ensures !Contains(s, t)
  {
    forall i | 0 <= i <= |s| - |t| ensures !OccursAt(s, t, i) {
      assert !AdjacentAt(s, t[0], t[1], i);
      assert s[i..i + |t|][0] == s[i] && s[i..i + |t|][1] == s[i + 1];
    }
  }

  /* --------------------------------------------------------- join, split */

  /** `sep.join(parts)`. */
  function Join(sep: string, parts: seq<string>): (r: string)
    decreases |parts|
  {
    if |parts| == 0 then ""
    else if |parts| == 1 then parts[0]
    else parts[0] + sep + Join(sep, parts[1..])
  }

  /** The joined string has every part, plus one separator between each two. */
  lemma {:induction false} JoinLength(sep: string, parts: seq<string>)
    requires |parts| > 0
    ensures |Join(sep, parts)| == SumLengths(parts) + (|parts| - 1) * |sep|
    decreases |parts|
  {
    if |parts| > 1 {
      JoinLength(sep, parts[1..]);
    }
  }

  function SumLengths(parts: seq<string>): nat
    decreases |parts|
  {
    if |parts| == 0 then 0 else |parts[0]| + SumLengths(parts[1..])
  }

  /** Every part appears in the joined string. */
  lemma {:induction false} JoinContainsEach(sep: string, parts: seq<string>, i: int)
    requires 0 <= i < |parts|
    ensures Contains(Join(sep, parts), parts[i])
    decreases |parts|
  {
    if |parts| == 1 {
      assert OccursAt(parts[0], parts[0], 0);
    } else if i == 0 {
      var s := Join(sep, parts);
      assert s == parts[0] + sep + Join(sep, parts[1..]);
      assert s[..|parts[0]|] == parts[0];
      assert OccursAt(s, parts[0], 0);
    } else {
      JoinContainsEach(sep, parts[1..], i - 1);
      var rest := Join(sep, parts[1..]);
      ContainsMiddle(parts[0] + sep, rest, "");
      assert parts[0] + sep + rest + "" == Join(sep, parts);
      ContainsTransitive(Join(sep, parts), rest, parts[i]);
    }
  }

  /** `s.split(c)` for a one-character separator: the pieces between
      occurrences of `c`, always at least one. */
  function SplitOn(s: string, c: char): (parts: seq<string>)
    ensures |parts| >= 1
    ensures forall k | 0 <= k < |parts| :: c !in parts[k]
    ensures |parts[0]| <= |s| && parts[0] == s[..|parts[0]|]
    ensures |parts[0]| < |s| ==> s[|parts[0]|] == c
    decreases |s|
  {
    if |s| == 0 then [""]
    else
      var rest := SplitOn(s[1..], c);
      if s[0] == c then [""] + rest
      else [[s[0]] + rest[0]] + rest[1..]
  }

  /** Joining the pieces with the separator gives back the original. */
  lemma {:induction false} JoinSplit(s: string, c: char)
    ensures Join([c], SplitOn(s, c)) == s
    decreases |s|
  {
    if |s| > 0 {
      JoinSplit(s[1..], c);
      var rest := SplitOn(s[1..], c);
      if s[0] == c {
        assert SplitOn(s, c) == [""] + rest;
        assert ([""] + rest)[1..] == rest;
      } else {
        var parts := SplitOn(s, c);
        assert parts == [[s[0]] + rest[0]] + rest[1..];
        if |rest| == 1 {
          assert Join([c], rest) == rest[0];
        } else {
          assert parts[1..] == rest[1..];
          assert Join([c], rest) == rest[0] + [c] + Join([c], rest[1..]);
        }
      }
    }
  }

  /** Splitting pieces that do not hold the separator after joining them with
      it gives back the pieces. */
  lemma {:induction false} SplitJoin(parts: seq<string>, c: char)
    requires |parts| >= 1
    requires forall k | 0 <= k < |parts| :: c !in parts[k]
    ensures SplitOn(Join([c], parts), c) == parts
    decreases |parts|, |parts[0]|
  {
    var p := parts[0];
    if |p| == 0 {
      if |parts| > 1 {
        SplitJoin(parts[1..], c);
        var s := Join([c], parts);
        assert s == [c] + Join([c], parts[1..]);
        assert s[1..] == Join([c], parts[1..]);
        assert parts == [""] + parts[1..];
      }
    } else {
      var tail := [p[1..]] + parts[1..];
      assert tail[1..] == parts[1..];
      assert forall k | 0 <= k < |tail| :: c !in tail[k] by {
        forall k | 0 <= k < |tail| ensures c !in tail[k] {
          if k == 0 {
            assert forall x | x in p[1..] :: x in p;
          } else {
            assert tail[k] == parts[k];
          }
        }
      }
      SplitJoin(tail, c);
      var s := Join([c], parts);
      if |parts| == 1 {
        assert s == p;
        assert Join([c], tail) == p[1..];
      } else {
        assert s == p + [c] + Join([c], parts[1..]);
        assert Join([c], tail) == p[1..] + [c] + Join([c], parts[1..]);
      }
      assert s[0] == p[0] && s[1..] == Join([c], tail);
      assert p[0] != c;
      assert [p[0]] + p[1..] == p;
      assert parts == [p] + parts[1..];
    }
  }

  /** `s.split(c)[0]`: everything before the first `c`. */
  function FirstPiece(s: string, c: char): (r: string)
    ensures c !in r
    ensures |r| <= |s| && r == s[..|r|]
    ensures |r| < |s| ==> s[|r|] == c
    ensures c !in s ==> r == s
  {
    SplitOn(s, c)[0]
  }

  /** The first piece of `a + [c] + b` is `a` when `a` has no `c`. */
  lemma FirstPieceOfConcat(a: string, c: char, b: string)
    requires c !in a
    ensures FirstPiece(a + [c] + b, c) == a
  {
    var s := a + [c] + b;
    var r := FirstPiece(s, c);
    assert s[|a|] == c;
    assert forall m | 0 <= m < |a| :: s[m] == a[m] && a[m] in a;
    assert forall m | 0 <= m < |r| :: s[m] == r[m] && r[m] in r;
    assert r == s[..|a|] == a;
  }
}
