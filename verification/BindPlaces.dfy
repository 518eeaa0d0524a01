/**
  Exactly when the visiting order of the parameter map cannot be seen in a bound value: place by place,
  the parameters that compete for an index, a map key or a turn among the un-indexed ones agree.
 */
module BindPlaces {
  import opened Common
  import opened BinderTypes
  import opened BindSpec
  import opened BindOrder

  /** Bind can return one value only, if any. */
  ghost predicate Decided(c: Config, params: Params, name: string, t: Typ)
    requires c.Ok() && c.TypOk(t)
  {
    forall v, w :: Outcome(c, params, name, t, v) && Outcome(c, params, name, t, w) ==> v == w
  }

  /** Whatever the nested calls for the two names return is the same value. */
  ghost predicate Agree(c: Config, params: Params, name1: string, name2: string, t: Typ)
    requires c.Ok() && c.TypOk(t)
  {
    forall v, w :: Outcome(c, params, name1, t, v) && Outcome(c, params, name2, t, w) ==> v == w
  }

  ghost predicate PlacesAgree(c: Config, params: Params, name: string, t: Typ)
    requires c.Ok() && c.TypOk(t)
  {
    match t
    case Basic(_) => true
    case BytesT => true
    case SliceT(e) =>
      && (forall k1, k2 :: k1 in params && k2 in params && SameIndex(c, name, k1, k2)
            ==> Agree(c, params, SliceChild(name, k1), SliceChild(name, k2), e))
      && (forall k1, k2 :: k1 in params && k2 in params && k1 != k2 && Unindexed(name, k1) && Unindexed(name, k2)
            ==> Commute(c, params, name, t, k1, k2))
    case StructT(id) => forall i :: 0 <= i < |c.structs[id]| ==> FieldDecided(c, params, name, id, i)
    case MapT(key, e) =>
      forall k1, k2 :: k1 in params && k2 in params && SameKey(key, name, k1, k2)
        ==> Agree(c, params, MapChild(name, MapText(name, k1)), MapChild(name, MapText(name, k2)), e)
    case PtrT(e) => Addressable(params, name, e) ==> Agree(c, params, name, name, e)
  }

  ghost predicate FieldDecided(c: Config, params: Params, name: string, id: nat, i: nat)
    requires c.Ok() && id < |c.structs| && i < |c.structs[id]|
  {
    assert c.FieldsOk(id);
    var f := c.structs[id][i];
    f.exported && Touched(params, name, f.name) ==> Agree(c, params, name + "." + f.name, name + "." + f.name, f.typ)
  }

  /** The values of the two keys' texts give the same elements in either order. */
  ghost predicate Commute(c: Config, params: Params, name: string, t: Typ, k1: string, k2: string)
    requires c.Ok() && c.TypOk(t) && t.SliceT? && k1 in params && k2 in params
  {
    forall xs, ys :: AreBound(c, params, name, t, params[k1], xs) && AreBound(c, params, name, t, params[k2], ys)
      ==> xs + ys == ys + xs
  }

  ghost predicate AreBound(c: Config, params: Params, name: string, t: Typ, texts: seq<string>, vs: seq<Value>)
    requires c.Ok() && c.TypOk(t) && t.SliceT?
  {
    |vs| == |texts| && forall j :: 0 <= j < |texts| ==> LooseOutcome(c, params, name, t, texts[j], vs[j])
  }

  // ----- lists laid end to end in some order -----

  function Flat(order: seq<string>, vals: map<string, seq<Value>>): seq<Value> {
    if order == [] then []
    else
      var k := order[|order| - 1];
      Flat(order[..|order| - 1], vals) + (if k in vals then vals[k] else [])
  }

  predicate Distinct(order: seq<string>) { forall i, j :: 0 <= i < j < |order| ==> order[i] != order[j] }

  lemma {:induction false} FlatConcat(a: seq<string>, b: seq<string>, vals: map<string, seq<Value>>)
    ensures Flat(a + b, vals) == Flat(a, vals) + Flat(b, vals)
    decreases |b|
  {
    if b == [] {
      assert a + b == a;
    } else {
      assert (a + b)[..|a + b| - 1] == a + b[..|b| - 1];
      FlatConcat(a, b[..|b| - 1], vals);
    }
  }

  ghost predicate Swappable(x: seq<Value>, y: seq<Value>) { x + y == y + x }

  ghost predicate AllSwap(order: seq<string>, k: string, vals: map<string, seq<Value>>) {
    forall j :: j in order && j in vals && k in vals ==> Swappable(vals[j], vals[k])
  }

  /** A list that swaps with each of the others swaps with all of them together. */
  lemma {:induction false} SwapsWithAll(order: seq<string>, k: string, vals: map<string, seq<Value>>)
    requires k in vals && AllSwap(order, k, vals)
    ensures Swappable(Flat(order, vals), vals[k])
    decreases |order|
  {
    if order != [] {
      var init, j := order[..|order| - 1], order[|order| - 1];
      SwapsWithAll(init, k, vals);
      if j in vals {
        SwapTwo(Flat(init, vals), vals[j], vals[k]);
      } else {
        assert Flat(order, vals) == Flat(init, vals);
      }
    }
  }

  lemma SwapTwo(x: seq<Value>, y: seq<Value>, z: seq<Value>)
    requires Swappable(x, z) && Swappable(y, z)
    ensures Swappable(x + y, z)
  {
    Reassociate(x, y, z);
    Reassociate(x, z, y);
    Reassociate(z, x, y);
  }

  /** Moving one key to the end. */
  lemma MoveLast(a: seq<string>, k: string, b: seq<string>, vals: map<string, seq<Value>>)
    requires AllSwap(b, k, vals)
    ensures Flat(a + [k] + b, vals) == Flat(a + b + [k], vals)
  {
    FlatConcat(a + [k], b, vals);
    FlatConcat(a, b, vals);
    assert (a + [k])[..|a|] == a && (a + b + [k])[..|a + b|] == a + b;
    if k in vals {
      SwapsWithAll(b, k, vals);
      Reassociate(Flat(a, vals), vals[k], Flat(b, vals));
      Reassociate(Flat(a, vals), Flat(b, vals), vals[k]);
    } else {
      assert Flat(a, vals) + [] + Flat(b, vals) == Flat(a, vals) + Flat(b, vals) + [];
    }
  }

  /** When all the lists swap, every order of the keys gives the same elements. */
  lemma {:induction false} AnyOrder(a: seq<string>, b: seq<string>, vals: map<string, seq<Value>>)
    requires Distinct(a) && Distinct(b) && forall k :: k in a <==> k in b
    requires forall k :: k in a ==> AllSwap(a, k, vals)
    ensures Flat(a, vals) == Flat(b, vals)
    decreases |a|
  {
    if a == [] {
      FirstIsIn(b);
    } else {
      var init, k := a[..|a| - 1], a[|a| - 1];
      assert k in a;
      var i :| 0 <= i < |b| && b[i] == k;
      var before, after := b[..i], b[i + 1..];
      assert b == before + [k] + after;
      assert forall j :: j in after ==> j in a;
      MoveLast(before, k, after, vals);
      var rest := before + after;
      LastApart(a);
      TakenOut(b, i);
      assert forall j :: j in init <==> j in a && j != k;
      AnyOrder(init, rest, vals);
      assert (rest + [k])[..|rest|] == rest;
    }
  }

  lemma FirstIsIn(b: seq<string>)
    ensures b == [] || b[0] in b
  {
  }

  lemma LastApart(a: seq<string>)
    requires a != [] && Distinct(a)
    ensures Distinct(a[..|a| - 1]) && a[|a| - 1] !in a[..|a| - 1]
  {
  }

  lemma TakenOut(b: seq<string>, i: nat)
    requires i < |b| && Distinct(b)
    ensures Distinct(b[..i] + b[i + 1..])
    ensures forall j :: j in b[..i] + b[i + 1..] <==> j in b && j != b[i]
  {
    var rest := b[..i] + b[i + 1..];
    forall j | j in b && j != b[i] ensures j in rest {
      var p :| 0 <= p < |b| && b[p] == j;
      assert rest[if p < i then p else p - 1] == j;
    }
  }

  // ----- the un-indexed elements -----

  /** The one value of an un-indexed text that has one. */
  ghost function TextValue(c: Config, params: Params, name: string, t: Typ, text: string): Value
    requires c.Ok() && c.TypOk(t) && t.SliceT?
  {
    if exists v :: LooseOutcome(c, params, name, t, text, v)
    then var v :| LooseOutcome(c, params, name, t, text, v); v
    else SliceV([])
  }

  ghost function Values(c: Config, params: Params, name: string, t: Typ, texts: seq<string>): (r: seq<Value>)
    requires c.Ok() && c.TypOk(t) && t.SliceT?
    ensures |r| == |texts|
  {
    seq(|texts|, j requires 0 <= j < |texts| => TextValue(c, params, name, t, texts[j]))
  }

  lemma BoundAreValues(c: Config, params: Params, name: string, t: Typ, texts: seq<string>, vs: seq<Value>)
    requires c.Ok() && c.TypOk(t) && t.SliceT? && AreBound(c, params, name, t, texts, vs)
    ensures vs == Values(c, params, name, t, texts)
  {
    forall j | 0 <= j < |texts| ensures vs[j] == TextValue(c, params, name, t, texts[j]) {
      LooseOrderIndependent(c, params, name, t, texts[j], vs[j], TextValue(c, params, name, t, texts[j]));
    }
  }

  ghost function KeyValues(c: Config, params: Params, name: string, t: Typ): map<string, seq<Value>>
    requires c.Ok() && c.TypOk(t) && t.SliceT?
  {
    map k | k in params :: Values(c, params, name, t, params[k])
  }

  lemma {:induction false} FlatIsValues(c: Config, params: Params, name: string, t: Typ, order: seq<string>)
    requires c.Ok() && c.TypOk(t) && t.SliceT? && forall i :: 0 <= i < |order| ==> order[i] in params
    ensures Flat(order, KeyValues(c, params, name, t)) == Values(c, params, name, t, Texts(params, order))
  {
    if order != [] {
      var init, k := order[..|order| - 1], order[|order| - 1];
      FlatIsValues(c, params, name, t, init);
      ValuesConcat(c, params, name, t, Texts(params, init), params[k]);
    }
  }

  lemma ValuesConcat(c: Config, params: Params, name: string, t: Typ, a: seq<string>, b: seq<string>)
    requires c.Ok() && c.TypOk(t) && t.SliceT?
    ensures Values(c, params, name, t, a + b) == Values(c, params, name, t, a) + Values(c, params, name, t, b)
  {
  }

  /** The elements of a slice after its indexed part are the values of the texts, in the order visited. */
  lemma LoosePart(c: Config, params: Params, name: string, t: Typ, es: seq<Value>, n: nat, order: seq<string>)
    requires c.Ok() && c.TypOk(t) && t.SliceT? && SliceOutcome(c, params, name, t, es, n, order)
    ensures es[n..] == Flat(order, KeyValues(c, params, name, t))
    ensures AreBound(c, params, name, t, Texts(params, order), es[n..])
  {
    var texts := Texts(params, order);
    forall j | 0 <= j < |texts| ensures LooseOutcome(c, params, name, t, texts[j], es[n..][j]) {
      assert es[n..][j] == es[n + j];
    }
    BoundAreValues(c, params, name, t, texts, es[n..]);
    FlatIsValues(c, params, name, t, order);
  }

  ghost predicate Valued(c: Config, params: Params, name: string, t: Typ, texts: seq<string>)
    requires c.Ok() && c.TypOk(t) && t.SliceT?
  {
    AreBound(c, params, name, t, texts, Values(c, params, name, t, texts))
  }

  lemma ValuedConcat(c: Config, params: Params, name: string, t: Typ, a: seq<string>, b: seq<string>)
    requires c.Ok() && c.TypOk(t) && t.SliceT?
    ensures Valued(c, params, name, t, a + b) <==> Valued(c, params, name, t, a) && Valued(c, params, name, t, b)
  {
    ValuesConcat(c, params, name, t, a, b);
    var vs := Values(c, params, name, t, a + b);
    if Valued(c, params, name, t, a + b) {
      forall j | 0 <= j < |a| ensures LooseOutcome(c, params, name, t, a[j], Values(c, params, name, t, a)[j]) {
        assert LooseOutcome(c, params, name, t, (a + b)[j], vs[j]);
      }
      forall j | 0 <= j < |b| ensures LooseOutcome(c, params, name, t, b[j], Values(c, params, name, t, b)[j]) {
        assert LooseOutcome(c, params, name, t, (a + b)[|a| + j], vs[|a| + j]);
      }
    }
  }

  /** The texts of some keys all have values exactly when those of each key do. */
  lemma {:induction false} ValuedByKey(c: Config, params: Params, name: string, t: Typ, order: seq<string>)
    requires c.Ok() && c.TypOk(t) && t.SliceT? && forall i :: 0 <= i < |order| ==> order[i] in params
    ensures Valued(c, params, name, t, Texts(params, order)) <==>
              forall k :: k in order ==> Valued(c, params, name, t, params[k])
  {
    if order != [] {
      var init, k := order[..|order| - 1], order[|order| - 1];
      ValuedByKey(c, params, name, t, init);
      ValuedConcat(c, params, name, t, Texts(params, init), params[k]);
      assert forall j :: j in order <==> j in init || j == k;
    }
  }

  /** In every outcome the un-indexed keys can be taken in any order. */
  lemma EveryListingIsPossible(c: Config, params: Params, name: string, t: Typ, es: seq<Value>, n: nat,
                               order: seq<string>, other: seq<string>)
    requires c.Ok() && c.TypOk(t) && t.SliceT? && SliceOutcome(c, params, name, t, es, n, order)
    requires Listing(params, name, other)
    ensures SliceOutcome(c, params, name, t, es[..n] + Flat(other, KeyValues(c, params, name, t)), n, other)
  {
    LoosePart(c, params, name, t, es, n, order);
    BoundAreValues(c, params, name, t, Texts(params, order), es[n..]);
    ValuedByKey(c, params, name, t, order);
    assert forall k :: k in other ==> k in order;
    ValuedByKey(c, params, name, t, other);
    FlatIsValues(c, params, name, t, other);
    FromParts(c, params, name, t, es, n, order, other);
  }

  lemma FromParts(c: Config, params: Params, name: string, t: Typ, es: seq<Value>, n: nat,
                  order: seq<string>, other: seq<string>)
    requires c.Ok() && c.TypOk(t) && t.SliceT? && SliceOutcome(c, params, name, t, es, n, order)
    requires Listing(params, name, other) && Valued(c, params, name, t, Texts(params, other))
    ensures SliceOutcome(c, params, name, t, es[..n] + Values(c, params, name, t, Texts(params, other)), n, other)
  {
    var loose := Values(c, params, name, t, Texts(params, other));
    var fs := es[..n] + loose;
    assert fs[n..] == loose;
    forall i | 0 <= i < n ensures SlotOutcome(c, params, name, t, i, fs[i]) {
      assert SlotOutcome(c, params, name, t, i, es[i]);
    }
    TwoParts(c, params, name, t, fs, n, other);
  }

  lemma TwoParts(c: Config, params: Params, name: string, t: Typ, es: seq<Value>, n: nat, order: seq<string>)
    requires c.Ok() && c.TypOk(t) && t.SliceT? && Extent(c, params, name, n) && Listing(params, name, order)
    requires n <= |es| && forall i :: 0 <= i < n ==> SlotOutcome(c, params, name, t, i, es[i])
    requires AreBound(c, params, name, t, Texts(params, order), es[n..])
    ensures SliceOutcome(c, params, name, t, es, n, order)
  {
    var texts := Texts(params, order);
    forall j | 0 <= j < |texts| ensures LooseOutcome(c, params, name, t, texts[j], es[n + j]) {
      assert es[n + j] == es[n..][j];
    }
  }

  // ----- slices -----

  /** An indexed place takes the value of any of the keys that have its index. */
  lemma SlotTakes(c: Config, params: Params, name: string, t: Typ, es: seq<Value>, n: nat, order: seq<string>,
                  k: string, v: Value)
    requires c.Ok() && c.TypOk(t) && t.SliceT? && SliceOutcome(c, params, name, t, es, n, order)
    requires k in params && Indexed(c, name, k) && Outcome(c, params, SliceChild(name, k), t.elem, v)
    ensures SliceIndex(name, k) < n
    ensures SliceOutcome(c, params, name, t, es[SliceIndex(name, k) := v], n, order)
  {
    var i := SliceIndex(name, k);
    var fs := es[i := v];
    SliceChildSmaller(c, params, name, k);
    assert SlotKey(c, params, name, i, k);
    forall j | 0 <= j < n ensures SlotOutcome(c, params, name, t, j, fs[j]) {
      assert SlotOutcome(c, params, name, t, j, es[j]);
    }
    LoosePart(c, params, name, t, es, n, order);
    assert fs[n..] == es[n..];
    TwoParts(c, params, name, t, fs, n, order);
  }

  lemma SliceIsOutcome(c: Config, params: Params, name: string, t: Typ, es: seq<Value>, n: nat, order: seq<string>)
    requires c.Ok() && c.TypOk(t) && t.SliceT? && SliceOutcome(c, params, name, t, es, n, order)
    ensures Outcome(c, params, name, t, SliceV(es))
  {
    assert SliceV(es).elems == es;
  }

  lemma SlotIsOutcome(c: Config, params: Params, name: string, t: Typ, es: seq<Value>, n: nat, order: seq<string>,
                      k: string, v: Value)
    requires c.Ok() && c.TypOk(t) && t.SliceT? && SliceOutcome(c, params, name, t, es, n, order)
    requires k in params && Indexed(c, name, k) && Outcome(c, params, SliceChild(name, k), t.elem, v)
    ensures SliceIndex(name, k) < |es| && Outcome(c, params, name, t, SliceV(es[SliceIndex(name, k) := v]))
  {
    SlotTakes(c, params, name, t, es, n, order, k, v);
    SliceIsOutcome(c, params, name, t, es[SliceIndex(name, k) := v], n, order);
  }

  /** Two keys with one index and different values make two outcomes. */
  lemma SameIndexShows(c: Config, params: Params, name: string, t: Typ, v: Value, k1: string, k2: string,
                       x: Value, y: Value)
    requires c.Ok() && c.TypOk(t) && t.SliceT? && Outcome(c, params, name, t, v) && Decided(c, params, name, t)
    requires k1 in params && k2 in params && SameIndex(c, name, k1, k2)
    requires Outcome(c, params, SliceChild(name, k1), t.elem, x) && Outcome(c, params, SliceChild(name, k2), t.elem, y)
    ensures x == y
  {
    var n: nat, order: seq<string> :| SliceOutcome(c, params, name, t, v.elems, n, order);
    var i := SliceIndex(name, k1);
    SlotIsOutcome(c, params, name, t, v.elems, n, order, k1, x);
    SlotIsOutcome(c, params, name, t, v.elems, n, order, k2, y);
    SameSlice(v.elems[i := x], v.elems[i := y]);
    assert v.elems[i := x][i] == x && v.elems[i := y][i] == y;
  }

  /** Two un-indexed keys whose values do not swap make two outcomes. */
  lemma TurnsShow(c: Config, params: Params, name: string, t: Typ, v: Value, k1: string, k2: string)
    requires c.Ok() && c.TypOk(t) && t.SliceT? && Outcome(c, params, name, t, v) && Decided(c, params, name, t)
    requires k1 in params && k2 in params && k1 != k2 && Unindexed(name, k1) && Unindexed(name, k2)
    ensures Commute(c, params, name, t, k1, k2)
  {
    var n: nat, order: seq<string> :| SliceOutcome(c, params, name, t, v.elems, n, order);
    TwoTurns(c, params, name, t, v.elems, n, order, k1, k2);
    ValuesCommute(c, params, name, t, k1, k2);
  }

  lemma TwoTurns(c: Config, params: Params, name: string, t: Typ, es: seq<Value>, n: nat, order: seq<string>,
                 k1: string, k2: string)
    requires c.Ok() && c.TypOk(t) && t.SliceT? && SliceOutcome(c, params, name, t, es, n, order)
    requires Decided(c, params, name, t) && k1 in order && k2 in order && k1 != k2
    ensures Swappable(KeyValues(c, params, name, t)[k1], KeyValues(c, params, name, t)[k2])
  {
    var vals := KeyValues(c, params, name, t);
    var rest := Others(params, name, order, k1, k2);
    ListingIsOutcome(c, params, name, t, es, n, order, [k1, k2] + rest);
    ListingIsOutcome(c, params, name, t, es, n, order, [k2, k1] + rest);
    SameSlice(es[..n] + Flat([k1, k2] + rest, vals), es[..n] + Flat([k2, k1] + rest, vals));
    TwoFirst(k1, k2, rest, vals);
    TwoFirst(k2, k1, rest, vals);
    SameHeads(es[..n], vals[k1] + vals[k2], vals[k2] + vals[k1], Flat(rest, vals));
  }

  lemma SameSlice(es: seq<Value>, fs: seq<Value>)
    ensures SliceV(es) == SliceV(fs) ==> es == fs
  {
  }

  lemma ListingIsOutcome(c: Config, params: Params, name: string, t: Typ, es: seq<Value>, n: nat,
                         order: seq<string>, other: seq<string>)
    requires c.Ok() && c.TypOk(t) && t.SliceT? && SliceOutcome(c, params, name, t, es, n, order)
    requires Listing(params, name, other)
    ensures Outcome(c, params, name, t, SliceV(es[..n] + Flat(other, KeyValues(c, params, name, t))))
  {
    EveryListingIsPossible(c, params, name, t, es, n, order, other);
    SliceIsOutcome(c, params, name, t, es[..n] + Flat(other, KeyValues(c, params, name, t)), n, other);
  }

  lemma ValuesCommute(c: Config, params: Params, name: string, t: Typ, k1: string, k2: string)
    requires c.Ok() && c.TypOk(t) && t.SliceT? && k1 in params && k2 in params
    requires Swappable(KeyValues(c, params, name, t)[k1], KeyValues(c, params, name, t)[k2])
    ensures Commute(c, params, name, t, k1, k2)
  {
    forall xs, ys | AreBound(c, params, name, t, params[k1], xs) && AreBound(c, params, name, t, params[k2], ys)
      ensures xs + ys == ys + xs
    {
      BoundAreValues(c, params, name, t, params[k1], xs);
      BoundAreValues(c, params, name, t, params[k2], ys);
    }
  }

  lemma SameHeads(a: seq<Value>, x: seq<Value>, y: seq<Value>, b: seq<Value>)
    requires a + (x + b) == a + (y + b)
    ensures x == y
  {
    assert (a + (x + b))[|a|..|a| + |x|] == x;
    assert (a + (y + b))[|a|..|a| + |y|] == y;
  }

  lemma TwoFirst(k1: string, k2: string, rest: seq<string>, vals: map<string, seq<Value>>)
    requires k1 in vals && k2 in vals
    ensures Flat([k1, k2] + rest, vals) == vals[k1] + vals[k2] + Flat(rest, vals)
  {
    FlatConcat([k1, k2], rest, vals);
    assert [k1, k2][..1] == [k1] && [k1][..0] == [];
    assert Flat([k1], vals) == [] + vals[k1] == vals[k1];
    assert Flat([k1, k2], vals) == Flat([k1], vals) + vals[k2];
  }

  /** The other un-indexed keys, after these two in either order. */
  lemma Others(params: Params, name: string, order: seq<string>, k1: string, k2: string) returns (rest: seq<string>)
    requires Listing(params, name, order) && k1 in order && k2 in order && k1 != k2
    ensures Listing(params, name, [k1, k2] + rest) && Listing(params, name, [k2, k1] + rest)
  {
    var i :| 0 <= i < |order| && order[i] == k1;
    TakenOut(order, i);
    var without := order[..i] + order[i + 1..];
    assert k2 in without;
    var j :| 0 <= j < |without| && without[j] == k2;
    TakenOut(without, j);
    rest := without[..j] + without[j + 1..];
    TwoMore(params, name, order, k1, k2, rest);
    TwoMore(params, name, order, k2, k1, rest);
  }

  lemma TwoMore(params: Params, name: string, order: seq<string>, k1: string, k2: string, rest: seq<string>)
    requires Listing(params, name, order) && k1 in order && k2 in order && k1 != k2 && Distinct(rest)
    requires forall k :: k in rest <==> k in order && k != k1 && k != k2
    ensures Listing(params, name, [k1, k2] + rest)
  {
    var all := [k1, k2] + rest;
    forall i | 0 <= i < |all| ensures all[i] in order && (i > 1 ==> all[i] != k1 && all[i] != k2) {
      assert i > 1 ==> all[i] == rest[i - 2] && rest[i - 2] in rest;
    }
    forall i, j | 0 <= i < j < |all| ensures all[i] != all[j] {
      assert i > 1 ==> all[i] == rest[i - 2] && all[j] == rest[j - 2];
    }
    forall k | k in params && Unindexed(name, k) ensures k in all {
      assert k in order;
      if k in rest { assert all[2..] == rest; }
    }
  }

  /** The places of a slice decide its outcome. */
  lemma SliceDecided(c: Config, params: Params, name: string, t: Typ, v: Value, w: Value)
    requires c.Ok() && c.TypOk(t) && t.SliceT? && PlacesAgree(c, params, name, t)
    requires Outcome(c, params, name, t, v) && Outcome(c, params, name, t, w)
    ensures v == w
  {
    var n: nat, a: seq<string> :| SliceOutcome(c, params, name, t, v.elems, n, a);
    var m: nat, b: seq<string> :| SliceOutcome(c, params, name, t, w.elems, m, b);
    ExtentUnique(c, params, name, n, m);
    ElementsDecided(c, params, name, t, v.elems, w.elems, n, a, b);
  }

  lemma ElementsDecided(c: Config, params: Params, name: string, t: Typ, es: seq<Value>, fs: seq<Value>, n: nat,
                        a: seq<string>, b: seq<string>)
    requires c.Ok() && c.TypOk(t) && t.SliceT? && PlacesAgree(c, params, name, t)
    requires SliceOutcome(c, params, name, t, es, n, a) && SliceOutcome(c, params, name, t, fs, n, b)
    ensures es == fs
  {
    forall i | 0 <= i < n ensures es[i] == fs[i] {
      SlotDecided(c, params, name, t, i, es[i], fs[i]);
    }
    LoosePart(c, params, name, t, es, n, a);
    LoosePart(c, params, name, t, fs, n, b);
    TurnsDecided(c, params, name, t, es, n, a, b);
    SameParts(es, fs, n);
  }

  lemma SameParts(es: seq<Value>, fs: seq<Value>, n: nat)
    requires n <= |es| && n <= |fs| && es[n..] == fs[n..] && forall i :: 0 <= i < n ==> es[i] == fs[i]
    ensures es == fs
  {
    assert es == es[..n] + es[n..] && fs == fs[..n] + fs[n..];
  }

  lemma SlotDecided(c: Config, params: Params, name: string, t: Typ, i: nat, v: Value, w: Value)
    requires c.Ok() && c.TypOk(t) && t.SliceT? && PlacesAgree(c, params, name, t)
    requires SlotOutcome(c, params, name, t, i, v) && SlotOutcome(c, params, name, t, i, w)
    ensures v == w
  {
    if Filled(c, params, name, i) {
      var k1 :| SlotKey(c, params, name, i, k1) && Outcome(c, params, SliceChild(name, k1), t.elem, v);
      var k2 :| SlotKey(c, params, name, i, k2) && Outcome(c, params, SliceChild(name, k2), t.elem, w);
      assert SameIndex(c, name, k1, k2);
      assert Agree(c, params, SliceChild(name, k1), SliceChild(name, k2), t.elem);
    }
  }

  lemma TurnsDecided(c: Config, params: Params, name: string, t: Typ, es: seq<Value>, n: nat,
                     a: seq<string>, b: seq<string>)
    requires c.Ok() && c.TypOk(t) && t.SliceT? && PlacesAgree(c, params, name, t)
    requires SliceOutcome(c, params, name, t, es, n, a) && Listing(params, name, b)
    ensures Flat(a, KeyValues(c, params, name, t)) == Flat(b, KeyValues(c, params, name, t))
  {
    var vals := KeyValues(c, params, name, t);
    LoosePart(c, params, name, t, es, n, a);
    BoundAreValues(c, params, name, t, Texts(params, a), es[n..]);
    ValuedByKey(c, params, name, t, a);
    forall k, j | k in a && j in a ensures Swappable(vals[j], vals[k]) {
      if j != k { assert Commute(c, params, name, t, j, k); }
    }
    AnyOrder(a, b, vals);
  }

  // ----- structs, maps and pointers -----

  lemma StructShows(c: Config, params: Params, name: string, t: Typ, v: Value, i: nat, x: Value, y: Value)
    requires c.Ok() && c.TypOk(t) && t.StructT? && Outcome(c, params, name, t, v) && Decided(c, params, name, t)
    requires i < |c.structs[t.id]| && FieldOutcome(c, params, name, t, i, x) && FieldOutcome(c, params, name, t, i, y)
    ensures x == y
  {
    var vx, vy := StructV(v.fields[i := x]), StructV(v.fields[i := y]);
    assert Outcome(c, params, name, t, vx) && Outcome(c, params, name, t, vy);
    assert vx.fields[i] == x && vy.fields[i] == y;
  }

  lemma FieldsAgree(c: Config, params: Params, name: string, t: Typ, v: Value)
    requires c.Ok() && c.TypOk(t) && t.StructT? && Outcome(c, params, name, t, v) && Decided(c, params, name, t)
    ensures PlacesAgree(c, params, name, t)
  {
    forall i | 0 <= i < |c.structs[t.id]| ensures FieldDecided(c, params, name, t.id, i) {
      assert c.FieldsOk(t.id);
      var f := c.structs[t.id][i];
      if f.exported && Touched(params, name, f.name) {
        FieldChildSmaller(params, name, f.name);
        var child := name + "." + f.name;
        forall x, y | Outcome(c, params, child, f.typ, x) && Outcome(c, params, child, f.typ, y) ensures x == y {
          assert FieldOutcome(c, params, name, t, i, x) && FieldOutcome(c, params, name, t, i, y);
          StructShows(c, params, name, t, v, i, x, y);
        }
      }
    }
  }

  lemma StructDecided(c: Config, params: Params, name: string, t: Typ, v: Value, w: Value)
    requires c.Ok() && c.TypOk(t) && t.StructT? && PlacesAgree(c, params, name, t)
    requires Outcome(c, params, name, t, v) && Outcome(c, params, name, t, w)
    ensures v == w
  {
    forall i | 0 <= i < |v.fields| ensures v.fields[i] == w.fields[i] {
      assert FieldOutcome(c, params, name, t, i, v.fields[i]) && FieldOutcome(c, params, name, t, i, w.fields[i]);
      FieldIsDecided(c, params, name, t, i, v.fields[i], w.fields[i]);
    }
  }

  lemma FieldIsDecided(c: Config, params: Params, name: string, t: Typ, i: nat, x: Value, y: Value)
    requires c.Ok() && c.TypOk(t) && t.StructT? && i < |c.structs[t.id]| && FieldDecided(c, params, name, t.id, i)
    requires FieldOutcome(c, params, name, t, i, x) && FieldOutcome(c, params, name, t, i, y)
    ensures x == y
  {
    assert c.FieldsOk(t.id);
    var f := c.structs[t.id][i];
    if f.exported && Touched(params, name, f.name) {
      FieldChildSmaller(params, name, f.name);
      assert Agree(c, params, name + "." + f.name, name + "." + f.name, f.typ);
    }
  }

  /** An entry takes the value of any of the parameters that name its key. */
  lemma EntryTakes(c: Config, params: Params, name: string, t: Typ, v: Value, k: string, x: Value)
    requires c.Ok() && c.TypOk(t) && t.MapT? && Outcome(c, params, name, t, v)
    requires k in params && MapHit(name, k) && Outcome(c, params, MapChild(name, MapText(name, k)), t.elem, x)
    ensures Outcome(c, params, name, t, MapV(v.entries[ParsePrim(t.key, MapText(name, k)).0 := x]))
  {
    var p := ParsePrim(t.key, MapText(name, k)).0;
    var w := MapV(v.entries[p := x]);
    MapChildSmaller(params, name, k);
    assert KeyBound(name, t.key, k, v.entries.Keys);
    assert w.entries.Keys == v.entries.Keys;
    assert forall j :: j in params ==> KeyBound(name, t.key, j, v.entries.Keys);
    forall q | q in w.entries ensures EntryOutcome(c, params, name, t, q, w.entries[q]) {
      assert EntryOutcome(c, params, name, t, q, v.entries[q]);
    }
  }

  /** Two parameters for one map key with different values make two outcomes. */
  lemma SameKeyShows(c: Config, params: Params, name: string, t: Typ, v: Value, k1: string, k2: string,
                     x: Value, y: Value)
    requires c.Ok() && c.TypOk(t) && t.MapT? && Outcome(c, params, name, t, v) && Decided(c, params, name, t)
    requires k1 in params && k2 in params && SameKey(t.key, name, k1, k2)
    requires Outcome(c, params, MapChild(name, MapText(name, k1)), t.elem, x)
    requires Outcome(c, params, MapChild(name, MapText(name, k2)), t.elem, y)
    ensures x == y
  {
    EntryTakes(c, params, name, t, v, k1, x);
    EntryTakes(c, params, name, t, v, k2, y);
    var p := ParsePrim(t.key, MapText(name, k1)).0;
    assert MapV(v.entries[p := x]).entries[p] == x && MapV(v.entries[p := y]).entries[p] == y;
  }

  lemma MapDecided(c: Config, params: Params, name: string, t: Typ, v: Value, w: Value)
    requires c.Ok() && c.TypOk(t) && t.MapT? && PlacesAgree(c, params, name, t)
    requires Outcome(c, params, name, t, v) && Outcome(c, params, name, t, w)
    ensures v == w
  {
    SameKeys(c, params, name, t, v, w);
    SameKeys(c, params, name, t, w, v);
    forall p | p in v.entries ensures v.entries[p] == w.entries[p] {
      assert EntryOutcome(c, params, name, t, p, v.entries[p]) && EntryOutcome(c, params, name, t, p, w.entries[p]);
      var k1 :| k1 in params && MapHit(name, k1) && ParsePrim(t.key, MapText(name, k1)).0 == p
             && Outcome(c, params, MapChild(name, MapText(name, k1)), t.elem, v.entries[p]);
      var k2 :| k2 in params && MapHit(name, k2) && ParsePrim(t.key, MapText(name, k2)).0 == p
             && Outcome(c, params, MapChild(name, MapText(name, k2)), t.elem, w.entries[p]);
      assert SameKey(t.key, name, k1, k2);
    }
    assert v.entries == w.entries;
  }

  lemma PointerAgrees(c: Config, params: Params, name: string, t: Typ)
    requires c.Ok() && c.TypOk(t) && t.PtrT? && Decided(c, params, name, t)
    ensures PlacesAgree(c, params, name, t)
  {
    if Addressable(params, name, t.elem) {
      forall x, y | Outcome(c, params, name, t.elem, x) && Outcome(c, params, name, t.elem, y) ensures x == y {
        assert Outcome(c, params, name, t, PtrV(x)) && Outcome(c, params, name, t, PtrV(y));
      }
    }
  }

  // ----- both directions -----

  /**
    Where Bind returns a value at all, every visiting order gives the same one exactly when at each
    place the parameters that compete for it agree.
   */
  lemma DecidedIff(c: Config, params: Params, name: string, t: Typ, v: Value)
    requires c.Ok() && c.TypOk(t) && Outcome(c, params, name, t, v)
    ensures Decided(c, params, name, t) <==> PlacesAgree(c, params, name, t)
  {
    if PlacesAgree(c, params, name, t) { PlacesDecide(c, params, name, t); }
    if Decided(c, params, name, t) { DecidedAgrees(c, params, name, t, v); }
  }

  lemma PlacesDecide(c: Config, params: Params, name: string, t: Typ)
    requires c.Ok() && c.TypOk(t) && PlacesAgree(c, params, name, t)
    ensures Decided(c, params, name, t)
  {
    forall v, w | Outcome(c, params, name, t, v) && Outcome(c, params, name, t, w) ensures v == w {
      match t
      case Basic(_) =>
      case BytesT =>
      case SliceT(_) => SliceDecided(c, params, name, t, v, w);
      case StructT(_) => StructDecided(c, params, name, t, v, w);
      case MapT(_, _) => MapDecided(c, params, name, t, v, w);
      case PtrT(_) => PointerDecided(c, params, name, t, v, w);
    }
  }

  lemma PointerDecided(c: Config, params: Params, name: string, t: Typ, v: Value, w: Value)
    requires c.Ok() && c.TypOk(t) && t.PtrT? && PlacesAgree(c, params, name, t)
    requires Outcome(c, params, name, t, v) && Outcome(c, params, name, t, w)
    ensures v == w
  {
    if Addressable(params, name, t.elem) { assert v == PtrV(v.to) && w == PtrV(w.to) && v.to == w.to; }
  }

  lemma DecidedAgrees(c: Config, params: Params, name: string, t: Typ, v: Value)
    requires c.Ok() && c.TypOk(t) && Outcome(c, params, name, t, v) && Decided(c, params, name, t)
    ensures PlacesAgree(c, params, name, t)
  {
    match t
    case Basic(_) =>
    case BytesT =>
    case SliceT(e) => SliceAgrees(c, params, name, t, v);
    case StructT(_) => FieldsAgree(c, params, name, t, v);
    case MapT(key, e) =>
      forall k1, k2 | k1 in params && k2 in params && SameKey(key, name, k1, k2)
        ensures Agree(c, params, MapChild(name, MapText(name, k1)), MapChild(name, MapText(name, k2)), e)
      {
        forall x, y | Outcome(c, params, MapChild(name, MapText(name, k1)), e, x)
                      && Outcome(c, params, MapChild(name, MapText(name, k2)), e, y)
          ensures x == y
        {
          SameKeyShows(c, params, name, t, v, k1, k2, x, y);
        }
      }
    case PtrT(_) => PointerAgrees(c, params, name, t);
  }

  lemma SliceAgrees(c: Config, params: Params, name: string, t: Typ, v: Value)
    requires c.Ok() && c.TypOk(t) && t.SliceT? && Outcome(c, params, name, t, v) && Decided(c, params, name, t)
    ensures PlacesAgree(c, params, name, t)
  {
    forall k1, k2 | k1 in params && k2 in params && SameIndex(c, name, k1, k2)
      ensures Agree(c, params, SliceChild(name, k1), SliceChild(name, k2), t.elem)
    {
      forall x, y | Outcome(c, params, SliceChild(name, k1), t.elem, x)
                    && Outcome(c, params, SliceChild(name, k2), t.elem, y)
        ensures x == y
      {
        SameIndexShows(c, params, name, t, v, k1, k2, x, y);
      }
    }
    forall k1, k2 | k1 in params && k2 in params && k1 != k2 && Unindexed(name, k1) && Unindexed(name, k2)
      ensures Commute(c, params, name, t, k1, k2)
    {
      TurnsShow(c, params, name, t, v, k1, k2);
    }
  }
}
