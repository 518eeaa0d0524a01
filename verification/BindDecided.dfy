/**
  The one value that Bind can return, read off the parameters: every parameter that competes for a place
  must be bound to the value at that place, at every depth.
 */
module BindDecided {
  import opened BinderTypes
  import opened BindSpec
  import opened BindOrder
  import opened BindPlaces
  import opened BindPlans

  /** `v` is what Bind returns in every order. */
  ghost predicate DecidedBy(c: Config, params: Params, name: string, t: Typ, v: Value)
    requires c.Ok() && c.TypOk(t)
    decreases Slack(params, name), PtrDepth(t), 2
  {
    match t
    case Basic(s) =>
      v == PrimV(if name in params && params[name] != [] then ParsePrim(s, params[name][0]).0 else ZeroPrim(s))
    case BytesT => v == BytesV("")
    case SliceT(e) =>
      v.SliceV? && exists n: nat, order: seq<string> :: DecidedSlice(c, params, name, t, v.elems, n, order)
    case StructT(id) =>
      assert c.FieldsOk(id);
      && v.StructV? && |v.fields| == |c.structs[id]|
      && forall i :: 0 <= i < |v.fields| ==> DecidedField(c, params, name, t, i, v.fields[i])
    case MapT(key, e) =>
      && v.MapV?
      && (forall k :: k in params && MapHit(name, k) ==> DecidedEntry(c, params, name, t, k, v.entries))
      && (forall p :: p in v.entries ==>
            exists k :: k in params && MapHit(name, k) && ParsePrim(key, MapText(name, k)).0 == p)
    case PtrT(e) =>
      if Addressable(params, name, e) then v.PtrV? && DecidedBy(c, params, name, e, v.to) else v == NilPtr
  }

  /** Every key with an index gives the element there, and the un-indexed texts give theirs in any order. */
  ghost predicate DecidedSlice(c: Config, params: Params, name: string, t: Typ, es: seq<Value>, n: nat,
                               order: seq<string>)
    requires c.Ok() && c.TypOk(t) && t.SliceT?
    decreases Slack(params, name), 0, 1
  {
    && Extent(c, params, name, n) && n <= |es| && Listing(params, name, order)
    && (forall k :: k in params && Indexed(c, name, k) ==> DecidedElement(c, params, name, t, k, es))
    && (forall i :: 0 <= i < n && !Filled(c, params, name, i) ==> es[i] == c.Zero(t.elem))
    && es[n..] == TextValues(c, t.elem, Texts(params, order))
    && (forall k1, k2 :: k1 in params && k2 in params && k1 != k2 && Unindexed(name, k1) && Unindexed(name, k2)
          ==> Swappable(TextValues(c, t.elem, params[k1]), TextValues(c, t.elem, params[k2])))
  }

  ghost predicate DecidedElement(c: Config, params: Params, name: string, t: Typ, k: string, es: seq<Value>)
    requires c.Ok() && c.TypOk(t) && t.SliceT? && k in params && Indexed(c, name, k)
    decreases Slack(params, name), 0, 0
  {
    SliceChildSmaller(c, params, name, k);
    SliceIndex(name, k) < |es| && DecidedBy(c, params, SliceChild(name, k), t.elem, es[SliceIndex(name, k)])
  }

  ghost predicate DecidedField(c: Config, params: Params, name: string, t: Typ, i: nat, v: Value)
    requires c.Ok() && c.TypOk(t) && t.StructT? && i < |c.structs[t.id]|
    decreases Slack(params, name), 0, 0
  {
    assert c.FieldsOk(t.id);
    var f := c.structs[t.id][i];
    if f.exported && Touched(params, name, f.name) then
      FieldChildSmaller(params, name, f.name);
      DecidedBy(c, params, name + "." + f.name, f.typ, v)
    else v == c.Zero(f.typ)
  }

  ghost predicate DecidedEntry(c: Config, params: Params, name: string, t: Typ, k: string, m: map<Prim, Value>)
    requires c.Ok() && c.TypOk(t) && t.MapT? && k in params && MapHit(name, k)
    decreases Slack(params, name), 0, 0
  {
    MapChildSmaller(params, name, k);
    var p := ParsePrim(t.key, MapText(name, k)).0;
    p in m && DecidedBy(c, params, MapChild(name, MapText(name, k)), t.elem, m[p])
  }

  // ----- what is decided is the only outcome -----

  /** The values of the un-indexed keys. */
  function TextMap(c: Config, params: Params, elem: Typ): map<string, seq<Value>>
    requires c.Ok() && c.TypOk(elem)
  {
    map k | k in params :: TextValues(c, elem, params[k])
  }

  lemma {:induction false} FlatIsTexts(c: Config, params: Params, elem: Typ, order: seq<string>)
    requires c.Ok() && c.TypOk(elem) && forall i :: 0 <= i < |order| ==> order[i] in params
    ensures Flat(order, TextMap(c, params, elem)) == TextValues(c, elem, Texts(params, order))
  {
    if order != [] {
      var init, k := order[..|order| - 1], order[|order| - 1];
      FlatIsTexts(c, params, elem, init);
      TextValuesConcat(c, elem, Texts(params, init), params[k]);
    }
  }

  /** Two listings of keys whose values swap give the same elements. */
  lemma ListingsAgree(c: Config, params: Params, name: string, elem: Typ, a: seq<string>, b: seq<string>)
    requires c.Ok() && c.TypOk(elem) && Listing(params, name, a) && Listing(params, name, b)
    requires forall k1, k2 :: k1 in params && k2 in params && k1 != k2 && Unindexed(name, k1) && Unindexed(name, k2)
               ==> Swappable(TextValues(c, elem, params[k1]), TextValues(c, elem, params[k2]))
    ensures TextValues(c, elem, Texts(params, a)) == TextValues(c, elem, Texts(params, b))
  {
    FlatIsTexts(c, params, elem, a);
    FlatIsTexts(c, params, elem, b);
    var vals := TextMap(c, params, elem);
    forall j, k | j in a && k in a ensures Swappable(vals[j], vals[k]) {}
    AnyOrder(a, b, vals);
  }

  lemma {:induction false} DecidedIsOutcome(c: Config, params: Params, name: string, t: Typ, v: Value)
    requires c.Ok() && c.TypOk(t) && DecidedBy(c, params, name, t, v)
    ensures Outcome(c, params, name, t, v)
    decreases Slack(params, name), PtrDepth(t), 2
  {
    match t
    case Basic(_) =>
    case BytesT =>
    case SliceT(_) =>
      var n: nat, order: seq<string> :| DecidedSlice(c, params, name, t, v.elems, n, order);
      DecidedSliceIsOutcome(c, params, name, t, v.elems, n, order);
      assert v == SliceV(v.elems);
    case StructT(id) =>
      assert c.FieldsOk(id);
      forall i | 0 <= i < |v.fields| ensures FieldOutcome(c, params, name, t, i, v.fields[i]) {
        assert DecidedField(c, params, name, t, i, v.fields[i]);
        var f := c.structs[id][i];
        if f.exported && Touched(params, name, f.name) {
          FieldChildSmaller(params, name, f.name);
          DecidedIsOutcome(c, params, name + "." + f.name, f.typ, v.fields[i]);
        }
      }
    case MapT(key, e) =>
      forall k | k in params ensures KeyBound(name, key, k, v.entries.Keys) {
        if MapHit(name, k) { assert DecidedEntry(c, params, name, t, k, v.entries); }
      }
      forall p | p in v.entries ensures EntryOutcome(c, params, name, t, p, v.entries[p]) {
        var k :| k in params && MapHit(name, k) && ParsePrim(key, MapText(name, k)).0 == p;
        assert DecidedEntry(c, params, name, t, k, v.entries);
        MapChildSmaller(params, name, k);
        DecidedIsOutcome(c, params, MapChild(name, MapText(name, k)), e, v.entries[p]);
      }
    case PtrT(e) =>
      if Addressable(params, name, e) { DecidedIsOutcome(c, params, name, e, v.to); }
  }

  lemma DecidedSliceIsOutcome(c: Config, params: Params, name: string, t: Typ, es: seq<Value>, n: nat,
                              order: seq<string>)
    requires c.Ok() && c.TypOk(t) && t.SliceT? && DecidedSlice(c, params, name, t, es, n, order)
    ensures SliceOutcome(c, params, name, t, es, n, order)
    decreases Slack(params, name), 0, 1
  {
    forall i | 0 <= i < n ensures SlotOutcome(c, params, name, t, i, es[i]) {
      if Filled(c, params, name, i) {
        var k :| SlotKey(c, params, name, i, k);
        assert DecidedElement(c, params, name, t, k, es);
        SliceChildSmaller(c, params, name, k);
        DecidedIsOutcome(c, params, SliceChild(name, k), t.elem, es[i]);
      }
    }
    TextsAreBound(c, params, name, t, order);
    TwoParts(c, params, name, t, es, n, order);
  }

  lemma {:induction false} DecidedIsOnly(c: Config, params: Params, name: string, t: Typ, v: Value, w: Value)
    requires c.Ok() && c.TypOk(t) && DecidedBy(c, params, name, t, v) && Outcome(c, params, name, t, w)
    ensures w == v
    decreases Slack(params, name), PtrDepth(t), 2
  {
    match t
    case Basic(_) =>
    case BytesT =>
    case SliceT(_) =>
      var n: nat, a: seq<string> :| DecidedSlice(c, params, name, t, v.elems, n, a);
      var m: nat, b: seq<string> :| SliceOutcome(c, params, name, t, w.elems, m, b);
      ExtentUnique(c, params, name, n, m);
      OnlySlice(c, params, name, t, v.elems, w.elems, n, a, b);
    case StructT(id) =>
      forall i | 0 <= i < |v.fields| ensures w.fields[i] == v.fields[i] {
        OnlyField(c, params, name, t, i, v.fields[i], w.fields[i]);
      }
    case MapT(_, _) => OnlyMap(c, params, name, t, v, w);
    case PtrT(e) =>
      if Addressable(params, name, e) { DecidedIsOnly(c, params, name, e, v.to, w.to); }
  }

  lemma OnlyField(c: Config, params: Params, name: string, t: Typ, i: nat, v: Value, w: Value)
    requires c.Ok() && c.TypOk(t) && t.StructT? && i < |c.structs[t.id]|
    requires DecidedField(c, params, name, t, i, v) && FieldOutcome(c, params, name, t, i, w)
    ensures w == v
    decreases Slack(params, name), 0, 0
  {
    assert c.FieldsOk(t.id);
    var f := c.structs[t.id][i];
    if f.exported && Touched(params, name, f.name) {
      FieldChildSmaller(params, name, f.name);
      DecidedIsOnly(c, params, name + "." + f.name, f.typ, v, w);
    }
  }

  lemma OnlyMap(c: Config, params: Params, name: string, t: Typ, v: Value, w: Value)
    requires c.Ok() && c.TypOk(t) && t.MapT? && DecidedBy(c, params, name, t, v) && Outcome(c, params, name, t, w)
    ensures w == v
    decreases Slack(params, name), 0, 1
  {
    DecidedKeys(c, params, name, t, v, w);
    forall p | p in w.entries ensures p in v.entries && w.entries[p] == v.entries[p] {
      assert EntryOutcome(c, params, name, t, p, w.entries[p]);
      OnlyEntry(c, params, name, t, v, p, w.entries[p]);
    }
    SameEntries(v.entries, w.entries);
  }

  lemma SameEntries(m: map<Prim, Value>, n: map<Prim, Value>)
    requires m.Keys <= n.Keys && forall p :: p in n ==> p in m && n[p] == m[p]
    ensures n == m
  {
  }

  lemma DecidedKeys(c: Config, params: Params, name: string, t: Typ, v: Value, w: Value)
    requires c.Ok() && c.TypOk(t) && t.MapT? && DecidedBy(c, params, name, t, v) && Outcome(c, params, name, t, w)
    ensures w.MapV? && v.entries.Keys <= w.entries.Keys
  {
    forall p | p in v.entries ensures p in w.entries {
      var k :| k in params && MapHit(name, k) && ParsePrim(t.key, MapText(name, k)).0 == p;
      assert KeyBound(name, t.key, k, w.entries.Keys);
    }
  }

  lemma OnlyEntry(c: Config, params: Params, name: string, t: Typ, v: Value, p: Prim, w: Value)
    requires c.Ok() && c.TypOk(t) && t.MapT? && DecidedBy(c, params, name, t, v)
    requires EntryOutcome(c, params, name, t, p, w)
    ensures p in v.entries && w == v.entries[p]
    decreases Slack(params, name), 0, 0
  {
    var k :| k in params && MapHit(name, k) && ParsePrim(t.key, MapText(name, k)).0 == p
          && Outcome(c, params, MapChild(name, MapText(name, k)), t.elem, w);
    assert DecidedEntry(c, params, name, t, k, v.entries);
    MapChildSmaller(params, name, k);
    DecidedIsOnly(c, params, MapChild(name, MapText(name, k)), t.elem, v.entries[p], w);
  }

  lemma OnlySlice(c: Config, params: Params, name: string, t: Typ, es: seq<Value>, fs: seq<Value>, n: nat,
                  a: seq<string>, b: seq<string>)
    requires c.Ok() && c.TypOk(t) && t.SliceT?
    requires DecidedSlice(c, params, name, t, es, n, a) && SliceOutcome(c, params, name, t, fs, n, b)
    ensures fs == es
    decreases Slack(params, name), 0, 1
  {
    forall i | 0 <= i < n ensures fs[i] == es[i] {
      assert SlotOutcome(c, params, name, t, i, fs[i]);
      if Filled(c, params, name, i) {
        var k :| SlotKey(c, params, name, i, k) && Outcome(c, params, SliceChild(name, k), t.elem, fs[i]);
        assert DecidedElement(c, params, name, t, k, es);
        SliceChildSmaller(c, params, name, k);
        DecidedIsOnly(c, params, SliceChild(name, k), t.elem, es[i], fs[i]);
      }
    }
    LooseReturned(c, params, name, t, fs, n, b);
    ListingsAgree(c, params, name, t.elem, a, b);
    SameParts(fs, es, n);
  }

  // ----- the only outcome is decided -----

  /** A nested call that agrees with one that can return `v` returns `v` only. */
  lemma AgreedOutcome(c: Config, params: Params, name1: string, name2: string, t: Typ, v: Value)
    requires c.Ok() && c.TypOk(t) && Agree(c, params, name1, name2, t) && Outcome(c, params, name1, t, v)
    ensures Outcome(c, params, name2, t, v)
  {
    SomeOutcome(c, params, name2, t);
    var w :| Outcome(c, params, name2, t, w);
    assert v == w;
  }

  lemma {:induction false} OnlyIsDecided(c: Config, params: Params, name: string, t: Typ, v: Value)
    requires c.Ok() && c.TypOk(t) && Outcome(c, params, name, t, v) && Decided(c, params, name, t)
    ensures DecidedBy(c, params, name, t, v)
    decreases Slack(params, name), PtrDepth(t), 2
  {
    DecidedAgrees(c, params, name, t, v);
    match t
    case Basic(_) =>
    case BytesT =>
    case SliceT(_) =>
      var n: nat, order: seq<string> :| SliceOutcome(c, params, name, t, v.elems, n, order);
      SliceIsDecided(c, params, name, t, v.elems, n, order);
    case StructT(id) =>
      assert c.FieldsOk(id);
      forall i | 0 <= i < |v.fields| ensures DecidedField(c, params, name, t, i, v.fields[i]) {
        FieldIsDecidedBy(c, params, name, t, i, v.fields[i]);
      }
    case MapT(_, _) => MapIsDecided(c, params, name, t, v);
    case PtrT(e) =>
      if Addressable(params, name, e) { OnlyIsDecided(c, params, name, e, v.to); }
  }

  lemma FieldIsDecidedBy(c: Config, params: Params, name: string, t: Typ, i: nat, v: Value)
    requires c.Ok() && c.TypOk(t) && t.StructT? && i < |c.structs[t.id]|
    requires FieldOutcome(c, params, name, t, i, v) && FieldDecided(c, params, name, t.id, i)
    ensures DecidedField(c, params, name, t, i, v)
    decreases Slack(params, name), 0, 1
  {
    assert c.FieldsOk(t.id);
    var f := c.structs[t.id][i];
    if f.exported && Touched(params, name, f.name) {
      FieldChildSmaller(params, name, f.name);
      OnlyIsDecided(c, params, name + "." + f.name, f.typ, v);
    }
  }

  lemma MapIsDecided(c: Config, params: Params, name: string, t: Typ, v: Value)
    requires c.Ok() && c.TypOk(t) && t.MapT? && Outcome(c, params, name, t, v) && PlacesAgree(c, params, name, t)
    ensures DecidedBy(c, params, name, t, v)
    decreases Slack(params, name), 0, 1
  {
    forall k | k in params && MapHit(name, k) ensures DecidedEntry(c, params, name, t, k, v.entries) {
      EntryIsDecided(c, params, name, t, v, k);
    }
    forall p | p in v.entries
      ensures exists k :: k in params && MapHit(name, k) && ParsePrim(t.key, MapText(name, k)).0 == p
    {
      assert EntryOutcome(c, params, name, t, p, v.entries[p]);
    }
  }

  lemma EntryIsDecided(c: Config, params: Params, name: string, t: Typ, v: Value, k: string)
    requires c.Ok() && c.TypOk(t) && t.MapT? && Outcome(c, params, name, t, v) && PlacesAgree(c, params, name, t)
    requires k in params && MapHit(name, k)
    ensures DecidedEntry(c, params, name, t, k, v.entries)
    decreases Slack(params, name), 0, 0
  {
    var p := ParsePrim(t.key, MapText(name, k)).0;
    assert KeyBound(name, t.key, k, v.entries.Keys);
    assert EntryOutcome(c, params, name, t, p, v.entries[p]);
    var g :| g in params && MapHit(name, g) && ParsePrim(t.key, MapText(name, g)).0 == p
          && Outcome(c, params, MapChild(name, MapText(name, g)), t.elem, v.entries[p]);
    assert SameKey(t.key, name, g, k) && SameKey(t.key, name, k, k);
    MapChildSmaller(params, name, k);
    AgreedOutcome(c, params, MapChild(name, MapText(name, g)), MapChild(name, MapText(name, k)), t.elem, v.entries[p]);
    OnlyIsDecided(c, params, MapChild(name, MapText(name, k)), t.elem, v.entries[p]);
  }

  lemma SliceIsDecided(c: Config, params: Params, name: string, t: Typ, es: seq<Value>, n: nat, order: seq<string>)
    requires c.Ok() && c.TypOk(t) && t.SliceT? && SliceOutcome(c, params, name, t, es, n, order)
    requires PlacesAgree(c, params, name, t)
    ensures DecidedSlice(c, params, name, t, es, n, order)
    decreases Slack(params, name), 0, 1
  {
    LooseReturned(c, params, name, t, es, n, order);
    forall k | k in params && Indexed(c, name, k) ensures DecidedElement(c, params, name, t, k, es) {
      ElementIsDecided(c, params, name, t, es, n, order, k);
    }
    forall i | 0 <= i < n && !Filled(c, params, name, i) ensures es[i] == c.Zero(t.elem) {
      assert SlotOutcome(c, params, name, t, i, es[i]);
    }
    forall k1, k2 | k1 in params && k2 in params && k1 != k2 && Unindexed(name, k1) && Unindexed(name, k2)
      ensures Swappable(TextValues(c, t.elem, params[k1]), TextValues(c, t.elem, params[k2]))
    {
      TextsSwap(c, params, name, t, k1, k2);
    }
  }

  lemma TextsSwap(c: Config, params: Params, name: string, t: Typ, k1: string, k2: string)
    requires c.Ok() && c.TypOk(t) && t.SliceT? && k1 in params && k2 in params && Unindexed(name, k1)
    requires Commute(c, params, name, t, k1, k2)
    ensures Swappable(TextValues(c, t.elem, params[k1]), TextValues(c, t.elem, params[k2]))
  {
    UnindexedHasSlack(params, name, k1);
    KeyTextsAreBound(c, params, name, t, k1);
    KeyTextsAreBound(c, params, name, t, k2);
  }

  lemma KeyTextsAreBound(c: Config, params: Params, name: string, t: Typ, k: string)
    requires c.Ok() && c.TypOk(t) && t.SliceT? && k in params && Slack(params, name) > 0
    ensures AreBound(c, params, name, t, params[k], TextValues(c, t.elem, params[k]))
  {
    forall j | 0 <= j < |params[k]|
      ensures LooseOutcome(c, params, name, t, params[k][j], BindText(c, params[k][j], t.elem))
    {
      TextIsLoose(c, params, name, t, params[k][j]);
    }
  }

  lemma ElementIsDecided(c: Config, params: Params, name: string, t: Typ, es: seq<Value>, n: nat,
                         order: seq<string>, k: string)
    requires c.Ok() && c.TypOk(t) && t.SliceT? && SliceOutcome(c, params, name, t, es, n, order)
    requires PlacesAgree(c, params, name, t) && k in params && Indexed(c, name, k)
    ensures DecidedElement(c, params, name, t, k, es)
    decreases Slack(params, name), 0, 0
  {
    var i := SliceIndex(name, k);
    assert SlotKey(c, params, name, i, k);
    assert SlotOutcome(c, params, name, t, i, es[i]);
    var g :| SlotKey(c, params, name, i, g) && Outcome(c, params, SliceChild(name, g), t.elem, es[i]);
    assert SameIndex(c, name, g, k) && SameIndex(c, name, k, k);
    SliceChildSmaller(c, params, name, k);
    AgreedOutcome(c, params, SliceChild(name, g), SliceChild(name, k), t.elem, es[i]);
    OnlyIsDecided(c, params, SliceChild(name, k), t.elem, es[i]);
  }

  // ----- both directions -----

  ghost predicate OnlyOutcome(c: Config, params: Params, name: string, t: Typ, v: Value)
    requires c.Ok() && c.TypOk(t)
  {
    Outcome(c, params, name, t, v) && forall w :: Outcome(c, params, name, t, w) ==> w == v
  }

  lemma DecidedIffOnly(c: Config, params: Params, name: string, t: Typ, v: Value)
    requires c.Ok() && c.TypOk(t)
    ensures DecidedBy(c, params, name, t, v) <==> OnlyOutcome(c, params, name, t, v)
  {
    if DecidedBy(c, params, name, t, v) {
      DecidedIsOutcome(c, params, name, t, v);
      forall w | Outcome(c, params, name, t, w) ensures w == v { DecidedIsOnly(c, params, name, t, v, w); }
    }
    if OnlyOutcome(c, params, name, t, v) {
      forall x, y | Outcome(c, params, name, t, x) && Outcome(c, params, name, t, y) ensures x == y {}
      OnlyIsDecided(c, params, name, t, v);
    }
  }

  lemma OnlyReturn(c: Config, params: Params, name: string, t: Typ, v: Value)
    requires c.Ok() && c.TypOk(t)
    ensures OnlyOutcome(c, params, name, t, v) <==> forall w :: CanReturn(c, params, name, t, w) <==> w == v
  {
    if OnlyOutcome(c, params, name, t, v) {
      forall w ensures CanReturn(c, params, name, t, w) <==> w == v { OutcomeIff(c, params, name, t, w); }
    }
    if forall w :: CanReturn(c, params, name, t, w) <==> w == v { ReturnedIsOnly(c, params, name, t, v); }
  }

  lemma ReturnedIsOnly(c: Config, params: Params, name: string, t: Typ, v: Value)
    requires c.Ok() && c.TypOk(t) && forall w :: CanReturn(c, params, name, t, w) <==> w == v
    ensures OnlyOutcome(c, params, name, t, v)
  {
    assert CanReturn(c, params, name, t, v);
    ReturnedIsOutcome(c, params, name, t, v);
    forall w | Outcome(c, params, name, t, w) ensures w == v { OutcomeIsReturned(c, params, name, t, w); }
  }

  /** Bind can return `v` and nothing else, in any order, exactly when the parameters decide on `v`. */
  lemma DecidedExactly(c: Config, params: Params, name: string, t: Typ, v: Value)
    requires c.Ok() && c.TypOk(t)
    ensures DecidedBy(c, params, name, t, v) <==> (forall w :: CanReturn(c, params, name, t, w) <==> w == v)
  {
    DecidedIffOnly(c, params, name, t, v);
    OnlyReturn(c, params, name, t, v);
  }

  lemma DecidedDecides(c: Config, params: Params, name: string, t: Typ, v: Value)
    requires c.Ok() && c.TypOk(t) && DecidedBy(c, params, name, t, v)
    ensures Decided(c, params, name, t)
  {
    forall x | Outcome(c, params, name, t, x) ensures x == v { DecidedIsOnly(c, params, name, t, v, x); }
  }

  lemma SomeDecided(c: Config, params: Params, name: string, t: Typ) returns (v: Value)
    requires c.Ok() && c.TypOk(t) && Decided(c, params, name, t)
    ensures DecidedBy(c, params, name, t, v)
  {
    SomeOutcome(c, params, name, t);
    v :| Outcome(c, params, name, t, v);
    OnlyIsDecided(c, params, name, t, v);
  }

  /** All orders give one value exactly when there is a value that the parameters decide on. */
  lemma OneValueIff(c: Config, params: Params, name: string, t: Typ)
    requires c.Ok() && c.TypOk(t)
    ensures Decided(c, params, name, t) <==> exists v :: DecidedBy(c, params, name, t, v)
  {
    if Decided(c, params, name, t) {
      var v := SomeDecided(c, params, name, t);
      assert exists w :: DecidedBy(c, params, name, t, w);
    } else if exists v :: DecidedBy(c, params, name, t, v) {
      var v :| DecidedBy(c, params, name, t, v);
      DecidedDecides(c, params, name, t, v);
    }
  }
}
