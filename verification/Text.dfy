/** The pieces of Go's `strings` package that the modelled code leans on. */
module Text {

  /** The first position of `c` in `s`. */
  predicate IsFirst(s: string, c: char, i: int) {
    0 <= i < |s| && s[i] == c && c !in s[..i]
  }

  lemma {:induction false} HasFirst(s: string, c: char) returns (i: nat)
    requires c in s
    ensures IsFirst(s, c, i)
  {
    if s[0] == c {
      i := 0;
    } else {
      i := HasFirst(s[1..], c);
      assert s[..i + 1] == [s[0]] + s[1..][..i];
      i := i + 1;
    }
  }

  lemma OneFirst(s: string, c: char, i: int, j: int)
    requires IsFirst(s, c, i) && IsFirst(s, c, j)
    ensures i == j
  {
    NotInPrefix(s, c, i);
    NotInPrefix(s, c, j);
  }

  lemma FirstExistsOnce(s: string, c: char)
    requires c in s
    ensures exists i :: IsFirst(s, c, i)
    ensures forall i, j :: IsFirst(s, c, i) && IsFirst(s, c, j) ==> i == j
  {
    var i := HasFirst(s, c);
    forall i, j | IsFirst(s, c, i) && IsFirst(s, c, j) ensures i == j { OneFirst(s, c, i, j); }
  }

  /** strings.IndexByte: the first position of `c` in `s`, or -1. */
  function IndexOf(s: string, c: char): (i: int)
    ensures -1 <= i < |s|
    ensures i >= 0 ==> s[i] == c && c !in s[..i]
    ensures i == -1 ==> c !in s
  {
    if c !in s then -1
    else
      FirstExistsOnce(s, c);
      var i: int :| IsFirst(s, c, i);
      i
  }

  lemma NotInPrefix(s: string, c: char, i: nat)
    requires i <= |s| && c !in s[..i]
    ensures forall p :: 0 <= p < i ==> s[p] != c
  {
    forall p | 0 <= p < i ensures s[p] != c {
      assert s[p] == s[..i][p];
    }
  }

  /** The position reported by IndexOf is the only one of its kind. */
  lemma IndexOfIs(s: string, c: char, i: nat)
    requires i < |s| && s[i] == c && c !in s[..i]
    ensures IndexOf(s, c) == i
  {
    OneFirst(s, c, i, IndexOf(s, c));
  }

  /** An occurrence bounds the first one. */
  lemma FirstIsBefore(s: string, c: char, i: nat)
    requires i < |s| && s[i] == c
    ensures 0 <= IndexOf(s, c) <= i
  {
    if IndexOf(s, c) >= 0 { NotInPrefix(s, c, IndexOf(s, c)); }
  }

  /** Two texts split at the first occurrence of `c` agree piece by piece. */
  lemma FirstSplit(a: string, x: string, b: string, y: string, c: char)
    requires a + [c] + x == b + [c] + y
    requires c !in a && c !in b
    ensures a == b && x == y
  {
    var s := a + [c] + x;
    assert s[..|a|] == a && s[..|b|] == b;
    IndexOfIs(s, c, |a|);
    IndexOfIs(s, c, |b|);
    assert x == s[|a| + 1..] && y == s[|b| + 1..];
  }

  /** Neither of the characters that end a key segment. */
  predicate Clean(s: string) { '.' !in s && '[' !in s }

  /** revel's nextKey: the text before the first dot or opening bracket. */
  function NextKey(key: string): (r: string)
    ensures r <= key && Clean(r)
    ensures |r| < |key| ==> key[|r|] == '.' || key[|r|] == '['
  {
    if key == "" || key[0] == '.' || key[0] == '[' then ""
    else
      var rest := NextKey(key[1..]);
      assert key == [key[0]] + key[1..];
      [key[0]] + rest
  }

  /** A clean segment followed by nothing or by a separator is what nextKey finds. */
  lemma NextKeyIs(segment: string, key: string)
    requires Clean(segment) && segment <= key
    requires |segment| == |key| || key[|segment|] == '.' || key[|segment|] == '['
    ensures NextKey(key) == segment
  {
    var r := NextKey(key);
    assert forall i :: 0 <= i < |segment| ==> key[i] == segment[i] && segment[i] in segment;
    assert forall i :: 0 <= i < |r| ==> key[i] == r[i] && r[i] in r;
    assert !(|r| < |segment|) && !(|segment| < |r|);
  }

  // ----- white space -----

  predicate IsSpace(c: char) {
    var n := c as int;
    || 9 <= n <= 13 || n == 32 || n == 0x85 || n == 0xA0 || n == 0x1680 || 0x2000 <= n <= 0x200A
    || n == 0x2028 || n == 0x2029 || n == 0x202F || n == 0x205F || n == 0x3000
  }

  function TrimSpace(s: string): string {
    if s == "" then s
    else if IsSpace(s[0]) then TrimSpace(s[1..])
    else if IsSpace(s[|s| - 1]) then TrimSpace(s[..|s| - 1])
    else s
  }

  predicate AllSpace(s: string) { forall i :: 0 <= i < |s| ==> IsSpace(s[i]) }

  /** No white space at either end. */
  predicate Tight(s: string) { s == "" || (!IsSpace(s[0]) && !IsSpace(s[|s| - 1])) }

  ghost predicate Surrounds(a: string, t: string, b: string, s: string) {
    s == a + t + b && AllSpace(a) && AllSpace(b) && Tight(t)
  }

  lemma {:induction false} TrimSpaceFinds(s: string) returns (a: string, b: string)
    ensures Surrounds(a, TrimSpace(s), b, s)
    decreases |s|
  {
    if s != "" && IsSpace(s[0]) {
      a, b := TrimSpaceFinds(s[1..]);
      a := [s[0]] + a;
      assert s == [s[0]] + s[1..];
    } else if s != "" && IsSpace(s[|s| - 1]) {
      var n := |s| - 1;
      a, b := TrimSpaceFinds(s[..n]);
      b := b + [s[n]];
      assert s == s[..n] + [s[n]];
    } else {
      a, b := "", "";
      assert s == a + s + b;
    }
  }

  lemma {:induction false} TrimmedOf(a: string, t: string, b: string)
    requires AllSpace(a) && AllSpace(b) && Tight(t)
    ensures TrimSpace(a + t + b) == t
    decreases |a| + |b|
  {
    var s := a + t + b;
    if a != "" {
      assert s[0] == a[0] && s[1..] == a[1..] + t + b;
      TrimmedOf(a[1..], t, b);
    } else if b != "" {
      var n := |b| - 1;
      assert s == t + b;
      if t == "" {
        assert s == b && s[1..] == "" + t + b[1..];
        TrimmedOf("", t, b[1..]);
      } else {
        assert s[0] == t[0] && s[|s| - 1] == b[n] && s[..|s| - 1] == a + t + b[..n];
        TrimmedOf(a, t, b[..n]);
      }
    } else {
      assert s == t;
    }
  }

  /** TrimSpace takes off exactly the white space around a text. */
  lemma TrimSpaceIff(s: string, t: string)
    ensures TrimSpace(s) == t <==> exists a, b :: Surrounds(a, t, b, s)
  {
    var a, b := TrimSpaceFinds(s);
    forall x, y | Surrounds(x, t, y, s) ensures TrimSpace(s) == t { TrimmedOf(x, t, y); }
  }
}
