/** The binder's two directions together, and bindSlice, bindStruct and bindMap read by the parameter names. */
module Binder {
  import opened Text
  import opened Decimal
  import opened BinderTypes
  import opened UnbindSpec
  import opened UnbindImpl
  import opened UnbindKeys
  import opened BindSpec
  import opened BindTexts
  import opened BindImpl
  import opened BindKeys
  import opened BindOrder
  import opened BindPlaces
  import opened BindRoundTrip

  /** Each stored text becomes the one value of its parameter. */
  function AsParams(entries: map<string, string>): Params {
    map k | k in entries :: [entries[k]]
  }

  lemma EntriesHold(c: Config, name: string, t: Typ, v: Value, entries: map<string, string>)
    requires c.Ok() && c.TypOk(t) && c.HasType(t, v) && KeysClean(c, t, v)
    requires Merged(map[], Writes(c, name, t, v), entries)
    ensures Holds(AsParams(entries), name, Writes(c, name, t, v))
  {
    EntriesAreWrites(c, name, t, v, entries);
    assert entries.Keys == Keys(Writes(c, name, t, v));
    forall w | w in Writes(c, name, t, v) ensures w.0 in AsParams(entries) && AsParams(entries)[w.0] == [w.1] {
      assert w in entries.Items;
    }
  }

  /** The values that survive Unbind into an empty map and Bind of the result. */
  predicate Recovered(c: Config, t: Typ, v: Value)
    requires c.Ok() && c.TypOk(t) && c.HasType(t, v)
  {
    Printable(c, t, v) && KeysClean(c, t, v) && RoundTrips(c, t, v)
  }

  /**
    Unbind into an empty map and Bind the result, for every value of every type. Unbind panics on
    nil pointers alone. With separators out of the map keys one entry is stored for each scalar
    leaf and Norm comes back. The value itself comes back exactly when Recovered says so.
   */
  method UnbindThenBind(c: Config, name: string, t: Typ, v: Value)
    returns (ok: bool, entries: map<string, string>, r: Result)
    requires c.Ok() && c.TypOk(t) && c.HasType(t, v)
    ensures ok <==> Printable(c, t, v)
    ensures ok && KeysClean(c, t, v) ==> entries.Items == Writes(c, name, t, v) && |entries| == |Leaves(c, t, v)|
    ensures ok && KeysClean(c, t, v) ==> r.Bound? && r.v == Norm(c, t, v)
    ensures ok && r.Bound? && r.v == v <==> Recovered(c, t, v)
  {
    var out := new Output();
    ok := Unbind(c, out, name, t, v);
    entries, r := out.entries, Panic;
    if ok {
      r := Bind(c, AsParams(entries), name, t);
      if KeysClean(c, t, v) {
        OwnEntries(c, name, t, v, entries);
        var comesBack := r.v;
        ComesBack(c, AsParams(entries), name, t, v, comesBack);
        RoundTripsIffNorm(c, t, v);
      } else if r.Bound? && r.v == v {
        TypedIsCountable(c, t, v);
        OutcomeKeysClean(c, AsParams(entries), name, t, v);
      }
    }
  }

  lemma OwnEntries(c: Config, name: string, t: Typ, v: Value, entries: map<string, string>)
    requires c.Ok() && c.TypOk(t) && c.HasType(t, v) && Printable(c, t, v) && KeysClean(c, t, v)
    requires Merged(map[], Writes(c, name, t, v), entries)
    ensures entries.Items == Writes(c, name, t, v) && |entries| == |Leaves(c, t, v)|
    ensures Holds(AsParams(entries), name, Writes(c, name, t, v)) && !Panics(c, AsParams(entries), name, t)
  {
    EntriesAreWrites(c, name, t, v, entries);
    EntriesMatchLeaves(c, name, t, v, entries);
    EntriesHold(c, name, t, v, entries);
    NeverPanics(c, AsParams(entries), name, t, v);
  }

  /**
    Two runs of Bind, whatever orders they visit the parameters in: they panic together, and agree when
    the parameters are unambiguous or agree place by place.
   */
  method BindTwice(c: Config, params: Params, name: string, t: Typ) returns (r1: Result, r2: Result)
    requires c.Ok() && c.TypOk(t)
    ensures r1.Bound? <==> r2.Bound?
    ensures Unambiguous(c, params, name, t) || PlacesAgree(c, params, name, t) ==> r1 == r2
  {
    r1 := Bind(c, params, name, t);
    r2 := Bind(c, params, name, t);
    if r1.Bound? && r2.Bound? {
      if Unambiguous(c, params, name, t) {
        OrderIndependent(c, params, name, t, r1.v, r2.v);
      } else if PlacesAgree(c, params, name, t) {
        DecidedIff(c, params, name, t, r1.v);
      }
    }
  }

  // ----- bindSlice -----

  function ElementName(name: string, i: nat): string { name + "[" + FormatNat(i) + "]" }

  /** Every allowed index of the slice is written in plain decimal. */
  ghost predicate CanonicalIndexes(c: Config, params: Params, name: string) {
    forall k :: k in params && Indexed(c, name, k) ==> ElementName(name, SliceIndex(name, k)) == SliceChild(name, k)
  }

  /** `v` is bound at name[i], or is zero when no parameter starts with that. */
  ghost predicate ElementAt(c: Config, params: Params, name: string, elem: Typ, i: nat, v: Value)
    requires c.Ok() && c.TypOk(elem)
  {
    if exists k :: k in params && ElementName(name, i) <= k then Outcome(c, params, ElementName(name, i), elem, v)
    else v == c.Zero(elem)
  }

  lemma FilledByName(c: Config, params: Params, name: string, i: nat)
    requires i <= c.maxIndex < TWO63 && CanonicalIndexes(c, params, name)
    ensures Filled(c, params, name, i) <==> exists k :: k in params && ElementName(name, i) <= k
  {
    if Filled(c, params, name, i) {
      var k :| SlotKey(c, params, name, i, k);
      assert ElementName(name, i) <= k;
    }
    if k :| k in params && ElementName(name, i) <= k {
      SliceKeyReads(name, i, k);
      assert SlotKey(c, params, name, i, k);
    }
  }

  lemma SlotByName(c: Config, params: Params, name: string, t: Typ, i: nat, v: Value)
    requires c.Ok() && c.TypOk(t) && t.SliceT? && i <= c.maxIndex < TWO63 && CanonicalIndexes(c, params, name)
    requires SlotOutcome(c, params, name, t, i, v)
    ensures ElementAt(c, params, name, t.elem, i, v)
  {
    FilledByName(c, params, name, i);
    if Filled(c, params, name, i) {
      var k :| SlotKey(c, params, name, i, k) && Outcome(c, params, SliceChild(name, k), t.elem, v);
      assert SliceChild(name, k) == ElementName(name, i);
    }
  }

  /**
    With plain indices: position i below the extent holds what name[i] is bound to or zero, the
    un-indexed texts follow in the order visited, and the indexed part is at most max_index + 1 long.
   */
  lemma SliceByPosition(c: Config, params: Params, name: string, t: Typ, v: Value)
    requires c.Ok() && c.TypOk(t) && t.SliceT? && c.maxIndex < TWO63 && CanonicalIndexes(c, params, name)
    requires Outcome(c, params, name, t, v)
    ensures exists n: nat, order: seq<string> ::
              && SliceOutcome(c, params, name, t, v.elems, n, order)
              && (n == 0 || n <= c.maxIndex + 1) && |v.elems| == n + |Texts(params, order)|
              && forall i :: 0 <= i < n ==> ElementAt(c, params, name, t.elem, i, v.elems[i])
  {
    var n: nat, order: seq<string> :| SliceOutcome(c, params, name, t, v.elems, n, order);
    if n > 0 {
      var k :| k in params && Indexed(c, name, k) && SliceIndex(name, k) == n - 1;
    }
    forall i | 0 <= i < n ensures ElementAt(c, params, name, t.elem, i, v.elems[i]) {
      assert SlotOutcome(c, params, name, t, i, v.elems[i]);
      SlotByName(c, params, name, t, i, v.elems[i]);
    }
  }

  /**
    Whatever stands in the brackets: name[text] is bound at the number that Atoi leaves of the text, which is
    0 when it is no number, as long as no parameter with other brackets has that index.
   */
  lemma ElementByText(c: Config, params: Params, name: string, t: Typ, v: Value, text: string, rest: string, n: nat)
    requires c.Ok() && c.TypOk(t) && t.SliceT? && Outcome(c, params, name, t, v)
    requires text != "" && ']' !in text && name + "[" + text + "]" + rest in params
    requires AtoiGives(text, n) && n <= c.maxIndex
    requires forall k :: k in params && Indexed(c, name, k) && SliceIndex(name, k) == n ==>
               SliceChild(name, k) == name + "[" + text + "]"
    ensures n < |v.elems| && Outcome(c, params, name + "[" + text + "]", t.elem, v.elems[n])
  {
    var key := name + "[" + text + "]" + rest;
    IndexRead(name, text, rest, n);
    IndexText(name, text, rest);
    assert name + "[" <= key;
    var m: nat, order: seq<string> :| SliceOutcome(c, params, name, t, v.elems, m, order);
    assert SlotKey(c, params, name, n, key);
    assert SlotOutcome(c, params, name, t, n, v.elems[n]);
  }

  // ----- bindStruct and bindMap -----

  /** Some parameter is `prefix`, or continues it with a dot or an opening bracket. */
  ghost predicate Mentions(params: Params, prefix: string) {
    exists k, rest :: k in params && Ends(rest) && k == prefix + rest
  }

  lemma TouchedIff(params: Params, name: string, field: string)
    requires Clean(field)
    ensures Touched(params, name, field) <==> Mentions(params, name + "." + field)
  {
    if Touched(params, name, field) {
      var k :| k in params && Touches(name, field, k);
      TouchesIff(name, field, k);
      var rest :| Ends(rest) && k == name + "." + field + rest;
      assert k == (name + "." + field) + rest;
    }
    if Mentions(params, name + "." + field) {
      var k, rest :| k in params && Ends(rest) && k == (name + "." + field) + rest;
      assert k == name + "." + field + rest;
      TouchesIff(name, field, k);
    }
  }

  /** Each exported field that a parameter mentions is bound at name.Field, and every other field is zero. */
  lemma StructByName(c: Config, params: Params, name: string, t: Typ, v: Value, i: nat)
    requires c.Ok() && c.TypOk(t) && t.StructT? && Outcome(c, params, name, t, v) && i < |c.structs[t.id]|
    ensures v.StructV? && |v.fields| == |c.structs[t.id]|
    ensures c.FieldsOk(t.id)
    ensures var f := c.structs[t.id][i];
            if f.exported && Mentions(params, name + "." + f.name)
            then Outcome(c, params, name + "." + f.name, f.typ, v.fields[i])
            else v.fields[i] == c.Zero(f.typ)
  {
    assert c.FieldsOk(t.id);
    TouchedIff(params, name, c.structs[t.id][i].name);
    assert FieldOutcome(c, params, name, t, i, v.fields[i]);
  }

  /** The parameter `k` names the map key `p`, by the text in its brackets. */
  ghost predicate NamesKey(name: string, key: Scalar, k: string, text: string, p: Prim) {
    Clean(text) && (exists rest :: Ends(rest) && k == MapChild(name, text) + rest) && ReadsText(key, text, p)
  }

  lemma NamesKeyIff(name: string, key: Scalar, k: string, text: string, p: Prim)
    ensures NamesKey(name, key, k, text, p)
       <==> MapHit(name, k) && MapText(name, k) == text && ParsePrim(key, text).0 == p
  {
    MapHitIff(name, text, k);
    PrimTexts(key, text, p);
  }

  /** The keys are those that the parameters name, and each entry is bound at name[text] for one text of its key. */
  lemma MapByText(c: Config, params: Params, name: string, t: Typ, v: Value, p: Prim)
    requires c.Ok() && c.TypOk(t) && t.MapT? && Outcome(c, params, name, t, v)
    ensures v.MapV?
    ensures p in v.entries <==> exists k, text :: k in params && NamesKey(name, t.key, k, text, p)
    ensures p in v.entries ==>
              exists k, text :: k in params && NamesKey(name, t.key, k, text, p)
                                && Outcome(c, params, MapChild(name, text), t.elem, v.entries[p])
  {
    if p in v.entries {
      assert EntryOutcome(c, params, name, t, p, v.entries[p]);
      var k :| k in params && MapHit(name, k) && ParsePrim(t.key, MapText(name, k)).0 == p
            && Outcome(c, params, MapChild(name, MapText(name, k)), t.elem, v.entries[p]);
      NamesKeyIff(name, t.key, k, MapText(name, k), p);
    }
    forall k, text | k in params && NamesKey(name, t.key, k, text, p) ensures p in v.entries {
      NamesKeyIff(name, t.key, k, text, p);
      assert KeyBound(name, t.key, k, v.entries.Keys);
    }
  }

  // ----- panics -----

  /** A parameter with exactly the name of a map makes Bind panic. */
  lemma MapNamePanics(c: Config, params: Params, name: string, t: Typ)
    requires c.Ok() && c.TypOk(t) && t.MapT? && name in params
    ensures Panics(c, params, name, t) && Panics(c, params, name, PtrT(t))
  {
    assert (name, t) in Children(c, params, name, PtrT(t));
  }

  /** A panic in a field, an entry or an element goes all the way up. */
  lemma FieldPanics(c: Config, params: Params, name: string, t: Typ, i: nat)
    requires c.Ok() && c.TypOk(t) && t.StructT? && i < |c.structs[t.id]| && c.structs[t.id][i].exported
    requires c.FieldsOk(t.id) && Mentions(params, name + "." + c.structs[t.id][i].name)
    requires Panics(c, params, name + "." + c.structs[t.id][i].name, c.structs[t.id][i].typ)
    ensures Panics(c, params, name, t)
  {
    var f := c.structs[t.id][i];
    TouchedIff(params, name, f.name);
    assert (name + "." + f.name, f.typ) in Children(c, params, name, t);
  }

  lemma EntryPanics(c: Config, params: Params, name: string, t: Typ, text: string)
    requires c.Ok() && c.TypOk(t) && t.MapT? && Clean(text) && Mentions(params, MapChild(name, text))
    requires Panics(c, params, MapChild(name, text), t.elem)
    ensures Panics(c, params, name, t)
  {
    var k, rest :| k in params && Ends(rest) && k == MapChild(name, text) + rest;
    MapHitIff(name, text, k);
    assert (MapChild(name, text), t.elem) in Children(c, params, name, t);
  }

  lemma ElementPanics(c: Config, params: Params, name: string, t: Typ, text: string, rest: string, n: int)
    requires c.Ok() && c.TypOk(t) && t.SliceT? && text != "" && ']' !in text
    requires name + "[" + text + "]" + rest in params && AtoiGives(text, n) && 0 <= n <= c.maxIndex
    requires Panics(c, params, name + "[" + text + "]", t.elem)
    ensures Panics(c, params, name, t)
  {
    ElementIsChild(c, params, name, t, text, rest, n);
  }

  lemma ElementIsChild(c: Config, params: Params, name: string, t: Typ, text: string, rest: string, n: int)
    requires c.Ok() && c.TypOk(t) && t.SliceT? && text != "" && ']' !in text
    requires name + "[" + text + "]" + rest in params && AtoiGives(text, n) && 0 <= n <= c.maxIndex
    ensures (name + "[" + text + "]", t.elem) in Children(c, params, name, t)
  {
    var key := name + "[" + text + "]" + rest;
    IndexRead(name, text, rest, n);
    IndexText(name, text, rest);
    assert name + "[" <= key;
    assert Indexed(c, name, key);
  }

  /** So does one in binding an un-indexed text. */
  lemma LoosePanics(c: Config, params: Params, name: string, t: Typ, key: string, text: string)
    requires c.Ok() && c.TypOk(t) && t.SliceT? && key in params && Unindexed(name, key) && text in params[key]
    requires Panics(c, Single(text), "", t.elem)
    ensures Panics(c, params, name, t)
  {
    UnindexedHasSlack(params, name, key);
    SingleHasNoSlack(text);
    assert text in LooseTexts(params, name);
  }

  /** No map type is mentioned. */
  predicate NoMap(t: Typ) {
    match t
    case SliceT(e) => NoMap(e)
    case PtrT(e) => NoMap(e)
    case MapT(_, _) => false
    case _ => true
  }

  predicate NoMaps(c: Config) {
    forall id, i :: 0 <= id < |c.structs| && 0 <= i < |c.structs[id]| ==> NoMap(c.structs[id][i].typ)
  }

  /** Without maps Bind panics on no parameters at all. */
  lemma {:induction false} NoMapNoPanic(c: Config, params: Params, name: string, t: Typ)
    requires c.Ok() && c.TypOk(t) && NoMap(t) && NoMaps(c)
    ensures !Panics(c, params, name, t)
    decreases Slack(params, name), PtrDepth(t)
  {
    forall x | x in Children(c, params, name, t) ensures !Panics(c, params, x.0, x.1) {
      NoMapNoPanic(c, params, x.0, x.1);
    }
    if t.SliceT? && Slack(params, name) > 0 {
      forall text | text in LooseTexts(params, name) ensures !Panics(c, Single(text), "", t.elem) {
        SingleHasNoSlack(text);
        NoMapNoPanic(c, Single(text), "", t.elem);
      }
    }
  }
}
