/** When the visiting order of the parameter map cannot be seen in the bound value, and when it can. */
module BindOrder {
  import opened BinderTypes
  import opened BindSpec

  /**
    At every call that Bind makes: a slice has at most one un-indexed key, two keys with the same
    index have the same bracket text, and two bracket texts of a map denote different keys.
   */
  ghost predicate Unambiguous(c: Config, params: Params, name: string, t: Typ)
    requires c.Ok() && c.TypOk(t)
    decreases Slack(params, name), PtrDepth(t)
  {
    && (t.SliceT? ==> SliceUnambiguous(c, params, name))
    && (t.MapT? ==> MapUnambiguous(t.key, params, name))
    && forall x :: x in Children(c, params, name, t) ==> Unambiguous(c, params, x.0, x.1)
  }

  ghost predicate SliceUnambiguous(c: Config, params: Params, name: string) {
    && (forall k1, k2 :: k1 in params && k2 in params && Unindexed(name, k1) && Unindexed(name, k2) ==> k1 == k2)
    && (forall k1, k2 :: k1 in params && k2 in params && SameIndex(c, name, k1, k2)
          ==> SliceChild(name, k1) == SliceChild(name, k2))
  }

  ghost predicate SameIndex(c: Config, name: string, k1: string, k2: string) {
    Indexed(c, name, k1) && Indexed(c, name, k2) && SliceIndex(name, k1) == SliceIndex(name, k2)
  }

  ghost predicate MapUnambiguous(key: Scalar, params: Params, name: string) {
    forall k1, k2 :: k1 in params && k2 in params && SameKey(key, name, k1, k2)
      ==> MapText(name, k1) == MapText(name, k2)
  }

  ghost predicate SameKey(key: Scalar, name: string, k1: string, k2: string) {
    && MapHit(name, k1) && MapHit(name, k2)
    && ParsePrim(key, MapText(name, k1)).0 == ParsePrim(key, MapText(name, k2)).0
  }

  /** One text alone is never ambiguous. */
  lemma {:induction false} SingleUnambiguous(c: Config, text: string, t: Typ)
    requires c.Ok() && c.TypOk(t)
    ensures Unambiguous(c, Single(text), "", t)
    decreases PtrDepth(t)
  {
    assert forall k :: k in Single(text) ==> k == "";
    if t.PtrT? {
      SingleUnambiguous(c, text, t.elem);
    } else {
      assert Children(c, Single(text), "", t) == {};
    }
  }

  lemma SamePosition(params: Params, name: string, a: seq<string>, i: nat, j: nat)
    requires Listing(params, name, a) && i < |a| && j < |a|
    requires forall k1, k2 :: k1 in params && k2 in params && Unindexed(name, k1) && Unindexed(name, k2) ==> k1 == k2
    ensures i == j
  {
    assert a[i] == a[j];
  }

  lemma ListingUnique(params: Params, name: string, a: seq<string>, b: seq<string>)
    requires Listing(params, name, a) && Listing(params, name, b)
    requires forall k1, k2 :: k1 in params && k2 in params && Unindexed(name, k1) && Unindexed(name, k2) ==> k1 == k2
    ensures a == b
  {
    if |a| > 1 { SamePosition(params, name, a, 0, 1); }
    if |b| > 1 { SamePosition(params, name, b, 0, 1); }
    assert |a| == 1 ==> a[0] in b;
    assert |b| == 1 ==> b[0] in a;
  }

  /** Every visiting order gives the same value. */
  lemma {:induction false} OrderIndependent(c: Config, params: Params, name: string, t: Typ, v: Value, w: Value)
    requires c.Ok() && c.TypOk(t) && Unambiguous(c, params, name, t)
    requires Outcome(c, params, name, t, v) && Outcome(c, params, name, t, w)
    ensures v == w
    decreases Slack(params, name), PtrDepth(t), 3
  {
    match t
    case Basic(_) =>
    case BytesT =>
    case SliceT(_) => SliceOrderIndependent(c, params, name, t, v, w);
    case StructT(_) => StructOrderIndependent(c, params, name, t, v, w);
    case MapT(_, _) => MapOrderIndependent(c, params, name, t, v, w);
    case PtrT(e) =>
      assert (name, e) in Children(c, params, name, t);
      if Addressable(params, name, e) {
        OrderIndependent(c, params, name, e, v.to, w.to);
      }
  }

  lemma StructOrderIndependent(c: Config, params: Params, name: string, t: Typ, v: Value, w: Value)
    requires c.Ok() && c.TypOk(t) && Unambiguous(c, params, name, t) && t.StructT?
    requires Outcome(c, params, name, t, v) && Outcome(c, params, name, t, w)
    ensures v == w
    decreases Slack(params, name), 0, 2
  {
    forall i | 0 <= i < |v.fields| ensures v.fields[i] == w.fields[i] {
      assert FieldOutcome(c, params, name, t, i, v.fields[i]) && FieldOutcome(c, params, name, t, i, w.fields[i]);
      var f := c.structs[t.id][i];
      if f.exported && Touched(params, name, f.name) {
        assert (name + "." + f.name, f.typ) in Children(c, params, name, t);
        OrderIndependent(c, params, name + "." + f.name, f.typ, v.fields[i], w.fields[i]);
      }
    }
  }

  lemma MapOrderIndependent(c: Config, params: Params, name: string, t: Typ, v: Value, w: Value)
    requires c.Ok() && c.TypOk(t) && Unambiguous(c, params, name, t) && t.MapT?
    requires Outcome(c, params, name, t, v) && Outcome(c, params, name, t, w)
    ensures v == w
    decreases Slack(params, name), 0, 2
  {
    SameKeys(c, params, name, t, v, w);
    SameKeys(c, params, name, t, w, v);
    forall p | p in v.entries ensures v.entries[p] == w.entries[p] {
      assert EntryOutcome(c, params, name, t, p, v.entries[p]) && EntryOutcome(c, params, name, t, p, w.entries[p]);
      var k1 :| k1 in params && MapHit(name, k1) && ParsePrim(t.key, MapText(name, k1)).0 == p
             && Outcome(c, params, MapChild(name, MapText(name, k1)), t.elem, v.entries[p]);
      var k2 :| k2 in params && MapHit(name, k2) && ParsePrim(t.key, MapText(name, k2)).0 == p
             && Outcome(c, params, MapChild(name, MapText(name, k2)), t.elem, w.entries[p]);
      assert SameKey(t.key, name, k1, k2);
      assert (MapChild(name, MapText(name, k1)), t.elem) in Children(c, params, name, t);
      OrderIndependent(c, params, MapChild(name, MapText(name, k1)), t.elem, v.entries[p], w.entries[p]);
    }
  }

  lemma SameKeys(c: Config, params: Params, name: string, t: Typ, v: Value, w: Value)
    requires c.Ok() && c.TypOk(t) && t.MapT?
    requires Outcome(c, params, name, t, v) && Outcome(c, params, name, t, w)
    ensures v.entries.Keys <= w.entries.Keys
  {
    forall p | p in v.entries ensures p in w.entries {
      assert EntryOutcome(c, params, name, t, p, v.entries[p]);
      var k :| k in params && MapHit(name, k) && ParsePrim(t.key, MapText(name, k)).0 == p;
      assert KeyBound(name, t.key, k, w.entries.Keys);
    }
  }

  lemma SliceOrderIndependent(c: Config, params: Params, name: string, t: Typ, v: Value, w: Value)
    requires c.Ok() && c.TypOk(t) && Unambiguous(c, params, name, t) && t.SliceT?
    requires Outcome(c, params, name, t, v) && Outcome(c, params, name, t, w)
    ensures v == w
    decreases Slack(params, name), 0, 2
  {
    var n: nat, order: seq<string> :| SliceOutcome(c, params, name, t, v.elems, n, order);
    var m: nat, order': seq<string> :| SliceOutcome(c, params, name, t, w.elems, m, order');
    ExtentUnique(c, params, name, n, m);
    ListingUnique(params, name, order, order');
    var texts := Texts(params, order);
    forall i | 0 <= i < |v.elems| ensures v.elems[i] == w.elems[i] {
      ElementOrderIndependent(c, params, name, t, v.elems, w.elems, n, order, i);
    }
  }

  lemma ElementOrderIndependent(c: Config, params: Params, name: string, t: Typ, es: seq<Value>, fs: seq<Value>,
                                n: nat, order: seq<string>, i: nat)
    requires c.Ok() && c.TypOk(t) && Unambiguous(c, params, name, t) && t.SliceT?
    requires SliceOutcome(c, params, name, t, es, n, order) && SliceOutcome(c, params, name, t, fs, n, order)
    requires i < |es|
    ensures i < |fs| && es[i] == fs[i]
    decreases Slack(params, name), 0, 1, 1
  {
    if i < n {
      SlotOrderIndependent(c, params, name, t, i, es[i], fs[i]);
    } else {
      var text := Texts(params, order)[i - n];
      assert LooseOutcome(c, params, name, t, text, es[n + (i - n)]);
      LooseOrderIndependent(c, params, name, t, text, es[i], fs[i]);
    }
  }

  lemma LooseOrderIndependent(c: Config, params: Params, name: string, t: Typ, text: string, v: Value, w: Value)
    requires c.Ok() && c.TypOk(t) && t.SliceT?
    requires LooseOutcome(c, params, name, t, text, v) && LooseOutcome(c, params, name, t, text, w)
    ensures v == w
    decreases Slack(params, name), 0, 1, 0
  {
    SingleHasNoSlack(text);
    SingleUnambiguous(c, text, t.elem);
    OrderIndependent(c, Single(text), "", t.elem, v, w);
  }

  lemma ExtentUnique(c: Config, params: Params, name: string, n: nat, m: nat)
    requires Extent(c, params, name, n) && Extent(c, params, name, m)
    ensures n == m
  {
  }

  lemma SlotOrderIndependent(c: Config, params: Params, name: string, t: Typ, i: nat, v: Value, w: Value)
    requires c.Ok() && c.TypOk(t) && Unambiguous(c, params, name, t) && t.SliceT?
    requires SlotOutcome(c, params, name, t, i, v) && SlotOutcome(c, params, name, t, i, w)
    ensures v == w
    decreases Slack(params, name), 0, 1, 0
  {
    if Filled(c, params, name, i) {
      var k1 :| SlotKey(c, params, name, i, k1) && Outcome(c, params, SliceChild(name, k1), t.elem, v);
      var k2 :| SlotKey(c, params, name, i, k2) && Outcome(c, params, SliceChild(name, k2), t.elem, w);
      assert SameIndex(c, name, k1, k2);
      assert (SliceChild(name, k1), t.elem) in Children(c, params, name, t);
      OrderIndependent(c, params, SliceChild(name, k1), t.elem, v, w);
    }
  }

  function Strings(texts: seq<string>): Value {
    SliceV(seq(|texts|, i requires 0 <= i < |texts| => PrimV(StrV(texts[i]))))
  }

  /** With un-indexed keys only, every listing of them is a possible []string. */
  lemma StringListing(c: Config, params: Params, name: string, order: seq<string>)
    requires c.Ok() && Extent(c, params, name, 0) && Listing(params, name, order)
    ensures Outcome(c, params, name, SliceT(Basic(StringT)), Strings(Texts(params, order)))
  {
    var t := SliceT(Basic(StringT));
    var texts := Texts(params, order);
    var es := Strings(texts).elems;
    forall j | 0 <= j < |texts| ensures LooseOutcome(c, params, name, t, texts[j], es[0 + j]) {
      UnindexedHasSlack(params, name, order[0]);
    }
    assert SliceOutcome(c, params, name, t, es, 0, order);
  }

  /** Two un-indexed keys come back in either order. */
  lemma OrderCanShow(c: Config, name: string, k1: string, k2: string, x: string, y: string)
    requires c.Ok() && k1 != k2 && Unindexed(name, k1) && Unindexed(name, k2)
    ensures Outcome(c, map[k1 := [x], k2 := [y]], name, SliceT(Basic(StringT)), Strings([x, y]))
    ensures Outcome(c, map[k1 := [x], k2 := [y]], name, SliceT(Basic(StringT)), Strings([y, x]))
  {
    var params := map[k1 := [x], k2 := [y]];
    assert [k1, k2][..1] == [k1] && [k2, k1][..1] == [k2];
    assert [k1][..0] == [] && [k2][..0] == [];
    assert Texts(params, [k1]) == [x] && Texts(params, [k2]) == [y];
    assert Texts(params, [k1, k2]) == [x, y] && Texts(params, [k2, k1]) == [y, x];
    StringListing(c, params, name, [k1, k2]);
    StringListing(c, params, name, [k2, k1]);
  }
}
