/**
  The key/value text of revel's cookies: `\0key:value\0` for each pair on the way out, and the
  regular expression \x00([^:]*):([^\x00]*)\x00, applied with FindAll, on the way in.
 */
module CookieText {
  import opened Common
  import opened Text

  /** Go strings are byte strings. */
  type Byte = c: char | c as int < 256
  type Bytes = seq<Byte>

  const NUL: Byte := '\0'

  datatype Pair = Pair(key: Bytes, val: Bytes)

  function PrintPair(p: Pair): Bytes { [NUL] + p.key + [':'] + p.val + [NUL] }

  function Print(ps: seq<Pair>): Bytes {
    if ps == [] then [] else Print(ps[..|ps| - 1]) + PrintPair(ps[|ps| - 1])
  }

  /** What the pattern can give back: no colon in a key, no NUL in a value. */
  predicate Fits(p: Pair) { ':' !in p.key && NUL !in p.val }

  // ----- the regular expression -----

  /** The pattern matches s[p..q + 1], and its groups are s[p + 1..c] and s[c + 1..q]. */
  ghost predicate MatchAt(s: Bytes, p: nat, c: nat, q: nat) {
    && p < c < q < |s|
    && s[p] == NUL && ':' !in s[p + 1..c] && s[c] == ':' && NUL !in s[c + 1..q] && s[q] == NUL
  }

  /** `ps` are the groups of the successive leftmost, non-overlapping matches in `s`. */
  ghost predicate IsFindAll(s: Bytes, ps: seq<Pair>)
    decreases |s|
  {
    if ps == [] then forall p: nat, c: nat, q: nat :: !MatchAt(s, p, c, q)
    else exists p: nat, c: nat, q: nat :: IsFirstMatch(s, ps, p, c, q)
  }

  ghost predicate IsFirstMatch(s: Bytes, ps: seq<Pair>, p: nat, c: nat, q: nat)
    requires ps != []
    decreases |s|, 0
  {
    && MatchAt(s, p, c, q)
    && (forall p': nat, c': nat, q': nat :: MatchAt(s, p', c', q') ==> p <= p')
    && ps[0] == Pair(s[p + 1..c], s[c + 1..q])
    && |s[q + 1..]| < |s| && IsFindAll(s[q + 1..], ps[1..])
  }

  // ----- the scan it amounts to -----

  datatype Found = Nothing | Found(pair: Pair, rest: Bytes)

  /** The first match: from a NUL the key runs to the next colon, and the value to the next NUL. */
  function First(s: Bytes): (f: Found)
    ensures f.Found? ==> |f.rest| < |s|
  {
    var p := IndexOf(s, NUL);
    if p == -1 then Nothing
    else
      var key := IndexOf(s[p + 1..], ':');
      if key == -1 then Nothing
      else
        var c := p + 1 + key;
        var val := IndexOf(s[c + 1..], NUL);
        if val == -1 then Nothing
        else
          var q := c + 1 + val;
          Found(Pair(s[p + 1..c], s[c + 1..q]), s[q + 1..])
  }

  function Parse(s: Bytes): (ps: seq<Pair>)
    decreases |s|
  {
    var f := First(s);
    if f.Nothing? then [] else [f.pair] + Parse(f.rest)
  }

  /** Two matches from the same NUL are the same match. */
  lemma MatchUnique(s: Bytes, p: nat, c: nat, q: nat, c': nat, q': nat)
    requires MatchAt(s, p, c, q) && MatchAt(s, p, c', q')
    ensures c == c' && q == q'
  {
    NotInside(s, ':', p + 1, c);
    NotInside(s, ':', p + 1, c');
    NotInside(s, NUL, c + 1, q);
    NotInside(s, NUL, c' + 1, q');
  }

  lemma NotInside(s: Bytes, b: Byte, i: nat, j: nat)
    requires i <= j <= |s| && b !in s[i..j]
    ensures forall k :: i <= k < j ==> s[k] != b
  {
    forall k | i <= k < j ensures s[k] != b {
      assert s[k] == s[i..j][k - i];
    }
  }

  /** If anything matches, the scan finds a match, and one that starts no later. */
  lemma FirstFinds(s: Bytes, p: nat, c: nat, q: nat)
    requires MatchAt(s, p, c, q)
    ensures First(s).Found? && IndexOf(s, NUL) <= p
  {
    FirstIsBefore(s, NUL, p);
    var p0 := IndexOf(s, NUL);
    FirstIsBefore(s[p0 + 1..], ':', c - p0 - 1);
    var c0 := p0 + 1 + IndexOf(s[p0 + 1..], ':');
    FirstIsBefore(s[c0 + 1..], NUL, q - c0 - 1);
  }

  /** What the scan finds is a match. */
  lemma FirstMatches(s: Bytes) returns (p: nat, c: nat, q: nat)
    requires First(s).Found?
    ensures MatchAt(s, p, c, q) && p == IndexOf(s, NUL)
    ensures First(s) == Found(Pair(s[p + 1..c], s[c + 1..q]), s[q + 1..])
  {
    p := IndexOf(s, NUL);
    c := p + 1 + IndexOf(s[p + 1..], ':');
    q := c + 1 + IndexOf(s[c + 1..], NUL);
    PartOfTail(s, p + 1, c);
    PartOfTail(s, c + 1, q);
  }

  lemma PartOfTail(s: Bytes, i: nat, j: nat)
    requires i <= j <= |s|
    ensures s[i..j] == s[i..][..j - i]
  {
  }

  /** Parse is FindAll of the pattern. */
  lemma {:induction false} ParseIsFindAll(s: Bytes)
    ensures IsFindAll(s, Parse(s))
    decreases |s|
  {
    forall p: nat, c: nat, q: nat | MatchAt(s, p, c, q) ensures First(s).Found? && IndexOf(s, NUL) <= p {
      FirstFinds(s, p, c, q);
    }
    if First(s).Found? {
      var p, c, q := FirstMatches(s);
      ParseIsFindAll(s[q + 1..]);
      assert Parse(s)[1..] == Parse(s[q + 1..]);
      assert IsFirstMatch(s, Parse(s), p, c, q);
    }
  }

  /** FindAll has one answer. */
  lemma {:induction false} FindAllUnique(s: Bytes, ps: seq<Pair>, qs: seq<Pair>)
    requires IsFindAll(s, ps) && IsFindAll(s, qs)
    ensures ps == qs
    decreases |s|
  {
    if ps != [] && qs != [] {
      var p: nat, c: nat, q: nat :| IsFirstMatch(s, ps, p, c, q);
      var p': nat, c': nat, q': nat :| IsFirstMatch(s, qs, p', c', q');
      MatchUnique(s, p, c, q, c', q');
      FindAllUnique(s[q + 1..], ps[1..], qs[1..]);
      assert ps == [ps[0]] + ps[1..] && qs == [qs[0]] + qs[1..];
    }
  }

  // ----- print and parse -----

  lemma SplitLast<T>(a: seq<T>)
    requires a != []
    ensures a[..|a| - 1] + [a[|a| - 1]] == a
  {
  }

  lemma PrintedSlices(p: Pair, rest: Bytes)
    ensures var s, c := PrintPair(p) + rest, 1 + |p.key|;
            var q := c + 1 + |p.val|;
            && s[0] == NUL && s[1..c] == p.key && s[c] == ':' && s[c + 1..q] == p.val && s[q] == NUL
            && s[q + 1..] == rest
  {
  }

  lemma FirstIsMatch(s: Bytes, c: nat, q: nat)
    requires MatchAt(s, 0, c, q)
    ensures First(s) == Found(Pair(s[1..c], s[c + 1..q]), s[q + 1..])
  {
    FirstFinds(s, 0, c, q);
    var p', c', q' := FirstMatches(s);
    MatchUnique(s, 0, c, q, c', q');
  }

  lemma ParseOfPrinted(p: Pair, rest: Bytes)
    requires Fits(p)
    ensures Parse(PrintPair(p) + rest) == [p] + Parse(rest)
  {
    var s, c := PrintPair(p) + rest, 1 + |p.key|;
    PrintedSlices(p, rest);
    FirstIsMatch(s, c, c + 1 + |p.val|);
    assert First(s) == Found(p, rest);
  }

  lemma {:induction false} ParseAfterPrint(ps: seq<Pair>, s: Bytes)
    requires forall i :: 0 <= i < |ps| ==> Fits(ps[i])
    ensures Parse(Print(ps) + s) == ps + Parse(s)
    decreases |ps|
  {
    if ps == [] {
      assert Print(ps) + s == s;
    } else {
      var init, last := ps[..|ps| - 1], ps[|ps| - 1];
      var rest := PrintPair(last) + s;
      ParseAfterPrint(init, rest);
      ParseOfPrinted(last, s);
      Reassociate(Print(init), PrintPair(last), s);
      Reassociate(init, [last], Parse(s));
      SplitLast(ps);
    }
  }

  lemma FirstFits(s: Bytes)
    requires First(s).Found?
    ensures Fits(First(s).pair)
  {
  }

  lemma {:induction false} ParsedFit(s: Bytes)
    ensures forall i :: 0 <= i < |Parse(s)| ==> Fits(Parse(s)[i])
    decreases |s|
  {
    if First(s).Found? {
      var p, rest := First(s).pair, Parse(First(s).rest);
      FirstFits(s);
      ParsedFit(First(s).rest);
      assert Parse(s) == [p] + rest;
      assert forall i :: 0 <= i < |rest| ==> ([p] + rest)[i + 1] == rest[i];
    }
  }

  /** Exactly the lists whose keys lack colons and whose values lack NULs come back. */
  lemma PrintedListComesBack(ps: seq<Pair>)
    ensures Parse(Print(ps)) == ps <==> forall i :: 0 <= i < |ps| ==> Fits(ps[i])
  {
    ParsedFit(Print(ps));
    if forall i :: 0 <= i < |ps| ==> Fits(ps[i]) {
      ParseAfterPrint(ps, []);
      assert Print(ps) + [] == Print(ps) && Parse([]) == [];
    }
  }

  /** For every text, parsing what was parsed and printed gives the same list again. */
  lemma ParseIsStable(s: Bytes)
    ensures Parse(Print(Parse(s))) == Parse(s)
  {
    ParsedFit(s);
    PrintedListComesBack(Parse(s));
  }

  // ----- maps as pair lists -----

  /** `ps` lists the entries of `m`, each once, in some order. */
  ghost predicate Lists(ps: seq<Pair>, m: map<Bytes, Bytes>) {
    && (forall i :: 0 <= i < |ps| ==> ps[i].key in m && m[ps[i].key] == ps[i].val)
    && (forall k :: k in m ==> exists i :: 0 <= i < |ps| && ps[i].key == k)
    && (forall i, j :: 0 <= i < j < |ps| ==> ps[i].key != ps[j].key)
  }

  /** Storing the pairs one after the other. */
  function AsMap(ps: seq<Pair>): map<Bytes, Bytes> {
    if ps == [] then map[] else AsMap(ps[..|ps| - 1])[ps[|ps| - 1].key := ps[|ps| - 1].val]
  }

  /** A callback that stores each pair. */
  method StoreAll(calls: seq<Pair>) returns (m: map<Bytes, Bytes>)
    ensures m == AsMap(calls)
  {
    m := map[];
    for i := 0 to |calls|
      invariant m == AsMap(calls[..i])
    {
      m := m[calls[i].key := calls[i].val];
      assert calls[..i + 1][..i] == calls[..i];
    }
    assert calls[..|calls|] == calls;
  }

  lemma {:induction false} AsMapKeys(ps: seq<Pair>)
    ensures forall i :: 0 <= i < |ps| ==> ps[i].key in AsMap(ps)
    ensures forall k :: k in AsMap(ps) ==> Pair(k, AsMap(ps)[k]) in ps
  {
    if ps != [] {
      var init, last := ps[..|ps| - 1], ps[|ps| - 1];
      AsMapKeys(init);
      forall k | k in AsMap(ps) ensures Pair(k, AsMap(ps)[k]) in ps {
        assert k != last.key ==> Pair(k, AsMap(init)[k]) in init;
      }
      forall i | 0 <= i < |ps| ensures ps[i].key in AsMap(ps) {
        assert i < |init| ==> init[i].key in AsMap(init);
      }
    }
  }

  /** The pair at `i` is the last one with its key. */
  predicate IsLast(ps: seq<Pair>, i: int) {
    0 <= i < |ps| && forall j :: i < j < |ps| ==> ps[j].key != ps[i].key
  }

  /** Of the pairs with one key the last one stays. */
  lemma {:induction false} AsMapIff(ps: seq<Pair>, k: Bytes, v: Bytes)
    ensures k in AsMap(ps) && AsMap(ps)[k] == v <==> exists i :: IsLast(ps, i) && ps[i] == Pair(k, v)
  {
    if ps != [] {
      var n := |ps| - 1;
      var init := ps[..n];
      AsMapIff(init, k, v);
      if ps[n].key == k {
        assert IsLast(ps, n);
        forall i | IsLast(ps, i) && ps[i].key == k ensures i == n {}
      } else {
        forall i | 0 <= i < n && ps[i].key == k ensures IsLast(ps, i) <==> IsLast(init, i) {}
      }
    }
  }

  /** A listing stored back gives the map, in whatever order it was made. */
  lemma ListingAsMap(ps: seq<Pair>, m: map<Bytes, Bytes>)
    requires Lists(ps, m)
    ensures AsMap(ps) == m
  {
    AsMapKeys(ps);
    assert forall k :: k in AsMap(ps) ==> k in m && AsMap(ps)[k] == m[k];
    assert forall k :: k in m ==> k in AsMap(ps);
  }

  // ----- printing a map -----

  /** The entries a loop over `m` has visited. */
  function Visited(m: map<Bytes, Bytes>, left: set<Bytes>): map<Bytes, Bytes> {
    map k | k in m && k !in left :: m[k]
  }

  lemma VisitedMore(m: map<Bytes, Bytes>, left: set<Bytes>, key: Bytes)
    requires left <= m.Keys && key in left
    ensures Visited(m, left - {key}) == Visited(m, left)[key := m[key]] && key !in Visited(m, left)
  {
  }

  lemma VisitedAll(m: map<Bytes, Bytes>)
    ensures Visited(m, {}) == m
  {
  }

  lemma PrintMore(ps: seq<Pair>, p: Pair)
    ensures Print(ps + [p]) == Print(ps) + [NUL] + p.key + [':'] + p.val + [NUL]
  {
    assert (ps + [p])[..|ps|] == ps;
  }

  lemma ListsMore(ps: seq<Pair>, m: map<Bytes, Bytes>, p: Pair)
    requires Lists(ps, m) && p.key !in m
    ensures Lists(ps + [p], m[p.key := p.val])
  {
    var qs, m' := ps + [p], m[p.key := p.val];
    forall k | k in m' ensures exists i :: 0 <= i < |qs| && qs[i].key == k {
      if k == p.key {
        assert qs[|ps|].key == k;
      } else {
        var i :| 0 <= i < |ps| && ps[i].key == k;
        assert qs[i].key == k;
      }
    }
  }

  /** One more entry printed. */
  lemma PrintedMore(m: map<Bytes, Bytes>, left: set<Bytes>, order: seq<Pair>, key: Bytes)
    requires left <= m.Keys && key in left && Lists(order, Visited(m, left))
    ensures Lists(order + [Pair(key, m[key])], Visited(m, left - {key}))
    ensures Print(order + [Pair(key, m[key])]) == Print(order) + [NUL] + key + [':'] + m[key] + [NUL]
  {
    VisitedMore(m, left, key);
    ListsMore(order, Visited(m, left), Pair(key, m[key]));
    PrintMore(order, Pair(key, m[key]));
  }
}
