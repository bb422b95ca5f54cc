/**
 * The handful of Python `str` operations the connection tester relies on, stated on
 * `seq<char>`: `strip()`, `startswith`, `endswith`, `in`, `replace(p, '')`, `rstrip(c)`,
 * `split(c, 1)` and `split(c)`.
 */
module PyStr {

  /** The characters `str.isspace` accepts, which `str.strip()` with no argument removes. */
  predicate IsSpace(c: char) {
    || ('\t' <= c <= '\r')
    || ('\U{1C}' <= c <= '\U{1F}')
    || c == ' ' || c == '\U{85}' || c == '\U{A0}' || c == '\U{1680}'
    || ('\U{2000}' <= c <= '\U{200A}')
    || c == '\U{2028}' || c == '\U{2029}' || c == '\U{202F}' || c == '\U{205F}' || c == '\U{3000}'
  }

  predicate AllSpace(s: string) {
    forall k :: 0 <= k < |s| ==> IsSpace(s[k])
  }

  /** `s.startswith(p)` */
  predicate StartsWith(s: string, p: string) {
    |p| <= |s| && s[..|p|] == p
  }

  /** `s.endswith(p)` */
  predicate EndsWith(s: string, p: string) {
    |p| <= |s| && s[|s| - |p|..] == p
  }

  /** `p in s` for a substring `p`: some position of `s` starts an occurrence of `p`. */
  predicate Contains(s: string, p: string)
    decreases |s|
  {
    |p| <= |s| && (StartsWith(s, p) || Contains(s[1..], p))
  }

  /** `s.lstrip()` */
  function LStrip(s: string): string
    decreases |s|
  {
    if |s| > 0 && IsSpace(s[0]) then LStrip(s[1..]) else s
  }

  /** `s.rstrip()` */
  function RStrip(s: string): string
    decreases |s|
  {
    if |s| > 0 && IsSpace(s[|s| - 1]) then RStrip(s[..|s| - 1]) else s
  }

  /** `s.strip()` */
  function Strip(s: string): string {
    RStrip(LStrip(s))
  }

  /** `lstrip()` drops the leading whitespace and nothing else: what is left is a suffix
      that starts with a non-space, and what was dropped is all whitespace. */
  lemma {:induction false} LStripSpec(s: string)
    ensures |LStrip(s)| <= |s| && LStrip(s) == s[|s| - |LStrip(s)|..]
    ensures AllSpace(s[..|s| - |LStrip(s)|])
    ensures LStrip(s) == [] || !IsSpace(LStrip(s)[0])
    decreases |s|
  {
    if |s| > 0 && IsSpace(s[0]) {
      LStripSpec(s[1..]);
      var n := |s| - |LStrip(s)|;
      assert s[..n] == [s[0]] + s[1..][..n - 1];
    }
  }

  /** `rstrip()` drops the trailing whitespace and nothing else: what is left is a prefix
      that ends with a non-space, and what was dropped is all whitespace. */
  lemma {:induction false} RStripSpec(s: string)
    ensures RStrip(s) <= s
    ensures AllSpace(s[|RStrip(s)|..])
    ensures RStrip(s) == [] || !IsSpace(RStrip(s)[|RStrip(s)| - 1])
    decreases |s|
  {
    if |s| > 0 && IsSpace(s[|s| - 1]) {
      RStripSpec(s[..|s| - 1]);
      var n := |RStrip(s)|;
      assert s[n..] == s[..|s| - 1][n..] + [s[|s| - 1]];
    }
  }

  /** `strip()` leaves no whitespace at either end, is empty exactly when the string is all
      whitespace, and leaves a string with no whitespace at its ends unchanged. */
  lemma {:induction false} StripSpec(s: string)
    ensures |Strip(s)| <= |s|
    ensures Strip(s) == [] || (!IsSpace(Strip(s)[0]) && !IsSpace(Strip(s)[|Strip(s)| - 1]))
    ensures Strip(s) == [] <==> AllSpace(s)
    ensures (s == [] || (!IsSpace(s[0]) && !IsSpace(s[|s| - 1]))) ==> Strip(s) == s
  {
    var l := LStrip(s);
    LStripSpec(s);
    RStripSpec(l);
    assert l == [] ==> AllSpace(s) by {
      if l == [] { assert s[..|s|] == s; }
    }
    if Strip(s) != [] {
      assert Strip(s)[0] == l[0];
    }
  }

  /** `s.replace(p, '')` for a non-empty `p`: scanning left to right, every occurrence that
      does not overlap an earlier removed one is deleted. */
  function RemoveAll(s: string, p: string): (r: string)
    requires p != []
    ensures |r| <= |s|
    ensures !Contains(s, p) ==> r == s
    decreases |s|
  {
    if |s| < |p| then s
    else if s[..|p|] == p then RemoveAll(s[|p|..], p)
    else [s[0]] + RemoveAll(s[1..], p)
  }

  /** `s.rstrip(c)` for one character `c`: drops every trailing `c` and nothing else. */
  function RStripChar(s: string, c: char): (r: string)
    ensures r <= s
    ensures r == [] || r[|r| - 1] != c
    ensures forall k :: |r| <= k < |s| ==> s[k] == c
  {
    if |s| > 0 && s[|s| - 1] == c then RStripChar(s[..|s| - 1], c) else s
  }

  /** The position of the first `c` in `s`. */
  function IndexOf(s: string, c: char): (i: nat)
    requires c in s
    ensures i < |s| && s[i] == c && c !in s[..i]
  {
    if s[0] == c then 0
    else
      var j := IndexOf(s[1..], c);
      assert s[..j + 1] == [s[0]] + s[1..][..j];
      j + 1
  }

  /** `s.split(c, 1)` when `c` occurs: the text before the first `c` and everything after it. */
  function SplitOnce(s: string, c: char): (r: (string, string))
    requires c in s
    ensures s == r.0 + [c] + r.1
    ensures c !in r.0
  {
    var i := IndexOf(s, c);
    assert s == s[..i] + [c] + s[i + 1..];
    (s[..i], s[i + 1..])
  }

  /** `s.split(c)`: the maximal runs between occurrences of `c`; there is always at least one. */
  function Split(s: string, c: char): (r: seq<string>)
    ensures |r| >= 1
    ensures forall k :: 0 <= k < |r| ==> c !in r[k]
    decreases |s|
  {
    if c in s then
      var (a, b) := SplitOnce(s, c);
      [a] + Split(b, c)
    else [s]
  }

  /** Splitting at the first `c` is determined by where that `c` is. */
  lemma {:induction false} SplitOnceAt(a: string, b: string, c: char)
    requires c !in a
    ensures c in a + [c] + b
    ensures SplitOnce(a + [c] + b, c) == (a, b)
  {
    var s := a + [c] + b;
    assert s[|a|] == c;
    var (x, y) := SplitOnce(s, c);
    assert |x| == |a|;
    assert x == s[..|a|] == a;
    assert y == s[|a| + 1..] == b;
  }

  /** A `c` between two pieces splits them apart, the first piece being free of `c`. */
  lemma {:induction false} SplitAt(a: string, b: string, c: char)
    requires c !in a
    ensures Split(a + [c] + b, c) == [a] + Split(b, c)
  {
    SplitOnceAt(a, b, c);
  }

  /** `c.join(pieces)` */
  function Join(pieces: seq<string>, c: char): string
    requires |pieces| >= 1
    decreases |pieces|
  {
    if |pieces| == 1 then pieces[0] else pieces[0] + [c] + Join(pieces[1..], c)
  }

  lemma {:induction false} JoinThree(a: string, b: string, d: string, c: char)
    ensures Join([a, b, d], c) == a + [c] + (b + [c] + d)
  {
    assert [a, b, d][1..] == [b, d] && [b, d][1..] == [d];
    assert Join([b, d], c) == b + [c] + d;
  }

  /** Four pieces free of `c`, the middle two joined first, split back into those pieces. */
  lemma {:induction false} SplitFour(p1: string, p2: string, p3: string, p4: string, c: char)
    requires c !in p1 && c !in p2 && c !in p3 && c !in p4
    ensures Split(p1 + [c] + ((p2 + [c] + p3) + [c] + p4), c) == [p1, p2, p3, p4]
  {
    var pieces := [p1, p2, p3, p4];
    JoinThree(p2, p3, p4, c);
    assert pieces[1..] == [p2, p3, p4];
    assert Join(pieces, c) == p1 + [c] + ((p2 + [c] + p3) + [c] + p4);
    SplitJoin(pieces, c);
  }

  /** Splitting undoes joining, when no piece holds the separator. */
  lemma {:induction false} SplitJoin(pieces: seq<string>, c: char)
    requires |pieces| >= 1
    requires forall k :: 0 <= k < |pieces| ==> c !in pieces[k]
    ensures Split(Join(pieces, c), c) == pieces
    decreases |pieces|
  {
    if |pieces| > 1 {
      SplitJoin(pieces[1..], c);
      SplitAt(pieces[0], Join(pieces[1..], c), c);
    }
  }

  /** Joining undoes splitting. */
  lemma {:induction false} JoinSplit(s: string, c: char)
    ensures Join(Split(s, c), c) == s
    decreases |s|
  {
    if c in s {
      var (a, b) := SplitOnce(s, c);
      JoinSplit(b, c);
    }
  }

  /** Every occurrence of `p` in `a + s` that starts inside `s` is an occurrence in `s`. */
  lemma {:induction false} NotContainsPrefixed(a: string, s: string, p: string)
    requires !Contains(s, p)
    requires forall k :: 0 <= k < |a| ==> !StartsWith((a + s)[k..], p)
    ensures !Contains(a + s, p)
    decreases |a|
  {
    if a != [] {
      assert (a + s)[1..] == a[1..] + s;
      forall k | 0 <= k < |a| - 1 ensures !StartsWith((a[1..] + s)[k..], p) {
        assert (a[1..] + s)[k..] == (a + s)[k + 1..];
      }
      NotContainsPrefixed(a[1..], s, p);
      assert (a + s)[0..] == a + s;
    } else {
      assert a + s == s;
    }
  }
}
