/**
  The bind half of binder.go as it runs: the kind binders with their loops over the parameter map.
  The map is visited in any order (`:|`), so each contract holds for every order Go may choose.
 */
module BindImpl {
  import opened BinderTypes
  import opened BindSpec
  import opened BindTexts

  /** A reflect.Value and whether it is addressable, or the panic that stopped the call. */
  datatype Result = Panic | Bound(v: Value, addressable: bool)

  ghost predicate Returns(c: Config, params: Params, name: string, t: Typ, r: Result)
    requires c.Ok() && c.TypOk(t)
  {
    match r
    case Panic => Panics(c, params, name, t)
    case Bound(v, a) =>
      !Panics(c, params, name, t) && Outcome(c, params, name, t, v) && a == Addressable(params, name, t)
  }

  /** Ends for every parameter map and every type; the result is one that the visiting orders allow. */
  method Bind(c: Config, params: Params, name: string, t: Typ) returns (r: Result)
    requires c.Ok() && c.TypOk(t)
    ensures Returns(c, params, name, t, r)
    ensures t.Basic? ==> r.Bound? && r.v.PrimV? && ReadsFirst(t.s, TextsAt(params, name), r.v.p)
    ensures t.PtrT? && t.elem.Basic? && r.Bound? ==>
              (r.v.PtrV? <==> TextsAt(params, name) != [] && IsNumber(t.elem.s, TextsAt(params, name)[0]))
    ensures t.MapT? && name in params ==> r.Panic?
    decreases Slack(params, name), PtrDepth(t), 4
  {
    match t
    case Basic(s) =>
      r := BindScalar(c, params, name, s);
      ScalarOutcome(c, params, name, s, r.v);
    case BytesT => r := Bound(BytesV(""), false);
    case SliceT(_) => r := BindSlice(c, params, name, t);
    case StructT(_) => r := BindStruct(c, params, name, t);
    case MapT(_, _) => r := BindMap(c, params, name, t);
    case PtrT(e) =>
      r := Bind(c, params, name, e);
      assert Children(c, params, name, t) == {(name, e)};
      if e.Basic? && r.Bound? { ScalarOutcome(c, params, name, e.s, r.v); }
      if r.Bound? {
        r := Bound(if r.addressable then PtrV(r.v) else NilPtr, false);
      }
  }

  /** BindValue: one text, bound under the empty name. */
  method BindValue(c: Config, text: string, t: Typ) returns (r: Result)
    requires c.Ok() && c.TypOk(t)
    ensures Returns(c, Single(text), "", t, r)
    decreases 0, PtrDepth(t), 5
  {
    SingleHasNoSlack(text);
    r := Bind(c, Single(text), "", t);
  }

  /** ValueBinder around the int, uint, string and bool conversions. */
  method BindScalar(c: Config, params: Params, name: string, s: Scalar) returns (r: Result)
    requires c.Ok()
    ensures Returns(c, params, name, Basic(s), r) && r.Bound?
  {
    if name !in params || params[name] == [] {
      return Bound(PrimV(ZeroPrim(s)), false);
    }
    var parsed := ParsePrim(s, params[name][0]);
    r := Bound(PrimV(parsed.0), parsed.1);
  }

  // ----- structs -----

  /** The fields after the keys in `seen` have been visited. */
  ghost predicate FieldsSoFar(c: Config, params: Params, name: string, t: Typ, seen: set<string>,
                              bound: set<string>, fields: seq<Value>)
    requires c.Ok() && c.TypOk(t) && t.StructT?
  {
    && |fields| == |c.structs[t.id]|
    && (forall i {:trigger FieldSoFar(c, params, name, t, bound, i, fields[i])} ::
          0 <= i < |fields| ==> FieldSoFar(c, params, name, t, bound, i, fields[i]))
    && (forall i, k {:trigger NamesField(c, name, t, i, k)} ::
          0 <= i < |fields| && k in seen && NamesField(c, name, t, i, k) ==> c.structs[t.id][i].name in bound)
  }

  /** A key for an exported field. */
  ghost predicate NamesField(c: Config, name: string, t: Typ, i: nat, k: string)
    requires t.StructT? && t.id < |c.structs| && i < |c.structs[t.id]|
  {
    c.structs[t.id][i].exported && Touches(name, c.structs[t.id][i].name, k)
  }

  ghost predicate FieldSoFar(c: Config, params: Params, name: string, t: Typ, bound: set<string>, i: nat, v: Value)
    requires c.Ok() && c.TypOk(t) && t.StructT? && i < |c.structs[t.id]|
  {
    assert c.FieldsOk(t.id);
    var f := c.structs[t.id][i];
    if f.name in bound then
      && f.exported && Touched(params, name, f.name)
      && FieldOutcome(c, params, name, t, i, v) && !Panics(c, params, name + "." + f.name, f.typ)
    else
      v == c.Zero(f.typ)
  }

  method BindStruct(c: Config, params: Params, name: string, t: Typ) returns (r: Result)
    requires c.Ok() && c.TypOk(t) && t.StructT?
    ensures Returns(c, params, name, t, r)
    decreases Slack(params, name), 0, 0
  {
    var fields := c.Zero(t).fields;
    var left := params.Keys;
    var bound := {};
    NoFieldYet(c, params, name, t);
    while left != {}
      invariant left <= params.Keys
      invariant FieldsSoFar(c, params, name, t, params.Keys - left, bound, fields)
      decreases |left|
    {
      var key :| key in left;
      ghost var seen := params.Keys - left;
      left := left - {key};
      assert params.Keys - left == seen + {key};
      if name + "." <= key {
        var field := FieldText(name, key);
        var i := c.FieldIndex(t.id, field);
        if field !in bound && i >= 0 && c.structs[t.id][i].exported {
          FieldNamePrefix(name, key);
          var child := key[..|name| + 1 + |field|];
          FieldChildPanics(c, params, name, t, i, key, child);
          r := Bind(c, params, child, c.structs[t.id][i].typ);
          if r.Panic? { return Panic; }
          FieldBound(c, params, name, t, seen, bound, fields, i, key, child, r.v);
          fields := fields[i := r.v];
          bound := bound + {field};
        } else {
          FieldPassed(c, params, name, t, seen, bound, fields, key);
        }
      } else {
        FieldPassed(c, params, name, t, seen, bound, fields, key);
      }
    }
    assert params.Keys - left == params.Keys;
    NoFieldPanics(c, params, name, t, bound, fields);
    r := Bound(StructV(fields), true);
  }

  lemma NoFieldYet(c: Config, params: Params, name: string, t: Typ)
    requires c.Ok() && c.TypOk(t) && t.StructT?
    ensures FieldsSoFar(c, params, name, t, {}, {}, c.Zero(t).fields)
  {
  }

  lemma FieldChildPanics(c: Config, params: Params, name: string, t: Typ, i: nat, key: string, child: string)
    requires c.Ok() && c.TypOk(t) && t.StructT? && i < |c.structs[t.id]| && c.structs[t.id][i].exported
    requires key in params && Touches(name, c.structs[t.id][i].name, key)
    requires child <= key && |child| == |name| + 1 + |c.structs[t.id][i].name|
    ensures c.TypOk(c.structs[t.id][i].typ)
    ensures child == name + "." + c.structs[t.id][i].name
    ensures Slack(params, child) < Slack(params, name)
    ensures Panics(c, params, child, c.structs[t.id][i].typ) ==> Panics(c, params, name, t)
  {
    var f := c.structs[t.id][i];
    assert c.FieldsOk(t.id);
    assert Touched(params, name, f.name);
    FieldNamePrefix(name, key);
    FieldChildSmaller(params, name, f.name);
    assert child == name + "." + f.name;
    assert (name + "." + f.name, f.typ) in Children(c, params, name, t);
  }

  /** Once a field is bound, later keys for it change nothing. */
  lemma FieldBound(c: Config, params: Params, name: string, t: Typ, seen: set<string>,
                   bound: set<string>, fields: seq<Value>, i: nat, key: string, child: string, v: Value)
    requires c.Ok() && c.TypOk(t) && t.StructT? && FieldsSoFar(c, params, name, t, seen, bound, fields)
    requires i < |fields| && c.structs[t.id][i].exported && key in params && Touches(name, c.structs[t.id][i].name, key)
    requires c.TypOk(c.structs[t.id][i].typ) && child == name + "." + c.structs[t.id][i].name
    requires Outcome(c, params, child, c.structs[t.id][i].typ, v) && !Panics(c, params, child, c.structs[t.id][i].typ)
    ensures FieldsSoFar(c, params, name, t, seen + {key}, bound + {c.structs[t.id][i].name}, fields[i := v])
  {
    var f := c.structs[t.id][i];
    assert c.FieldsOk(t.id);
    assert Touched(params, name, f.name);
    var fields' := fields[i := v];
    forall j | 0 <= j < |fields| ensures FieldSoFar(c, params, name, t, bound + {f.name}, j, fields'[j]) {
      assert FieldSoFar(c, params, name, t, bound, j, fields[j]);
      assert j != i ==> c.structs[t.id][j].name != f.name;
    }
  }

  /** A key for a field already bound, unknown or unexported is passed over. */
  lemma FieldPassed(c: Config, params: Params, name: string, t: Typ, seen: set<string>,
                    bound: set<string>, fields: seq<Value>, key: string)
    requires c.Ok() && c.TypOk(t) && t.StructT? && FieldsSoFar(c, params, name, t, seen, bound, fields)
    requires name + "." <= key ==>
               var i := c.FieldIndex(t.id, FieldText(name, key));
               FieldText(name, key) in bound || i < 0 || !c.structs[t.id][i].exported
    ensures FieldsSoFar(c, params, name, t, seen + {key}, bound, fields)
  {
    assert c.FieldsOk(t.id);
  }

  lemma NoFieldPanics(c: Config, params: Params, name: string, t: Typ, bound: set<string>, fields: seq<Value>)
    requires c.Ok() && c.TypOk(t) && t.StructT?
    requires FieldsSoFar(c, params, name, t, params.Keys, bound, fields)
    ensures !Panics(c, params, name, t) && Outcome(c, params, name, t, StructV(fields))
  {
    assert c.FieldsOk(t.id);
    var fs := c.structs[t.id];
    forall i | 0 <= i < |fields| && fs[i].exported && Touched(params, name, fs[i].name)
      ensures fs[i].name in bound
    {
      var k :| k in params && Touches(name, fs[i].name, k);
      assert NamesField(c, name, t, i, k);
    }
    forall i | 0 <= i < |fields| ensures FieldOutcome(c, params, name, t, i, fields[i]) {
      assert FieldSoFar(c, params, name, t, bound, i, fields[i]);
    }
    forall x | x in Children(c, params, name, t) ensures !Panics(c, params, x.0, x.1) {
      var i :| 0 <= i < |fields| && fs[i].exported && Touched(params, name, fs[i].name)
            && x == (name + "." + fs[i].name, fs[i].typ);
      assert FieldSoFar(c, params, name, t, bound, i, fields[i]);
    }
  }

  // ----- maps -----

  ghost predicate EntriesSoFar(c: Config, params: Params, name: string, t: Typ, seen: set<string>,
                               entries: map<Prim, Value>)
    requires c.Ok() && c.TypOk(t) && t.MapT?
  {
    && KeysSoFar(c, params, name, t, seen, entries.Keys)
    && forall p {:trigger EntryOutcome(c, params, name, t, p, entries[p])} ::
         p in entries ==> EntryOutcome(c, params, name, t, p, entries[p])
  }

  ghost predicate KeysSoFar(c: Config, params: Params, name: string, t: Typ, seen: set<string>, ps: set<Prim>)
    requires c.Ok() && c.TypOk(t) && t.MapT?
  {
    forall k {:trigger KeyDone(c, params, name, t, k, ps)} :: k in seen ==> KeyDone(c, params, name, t, k, ps)
  }

  ghost predicate KeyDone(c: Config, params: Params, name: string, t: Typ, k: string, ps: set<Prim>)
    requires c.Ok() && c.TypOk(t) && t.MapT?
  {
    && k != name
    && (MapHit(name, k) ==>
          && ParsePrim(t.key, MapText(name, k)).0 in ps
          && !Panics(c, params, MapChild(name, MapText(name, k)), t.elem))
  }

  method BindMap(c: Config, params: Params, name: string, t: Typ) returns (r: Result)
    requires c.Ok() && c.TypOk(t) && t.MapT?
    ensures Returns(c, params, name, t, r)
    decreases Slack(params, name), 0, 0
  {
    var entries := map[];
    var left := params.Keys;
    while left != {}
      invariant left <= params.Keys
      invariant EntriesSoFar(c, params, name, t, params.Keys - left, entries)
      decreases |left|
    {
      var key :| key in left;
      ghost var seen := params.Keys - left;
      left := left - {key};
      assert params.Keys - left == seen + {key};
      if name <= key {
        if |key| == |name| {
          assert key == name;
          return Panic;
        }
        var text := MapText(name, key);
        if MapChild(name, text) <= key {
          MapChildPanics(c, params, name, t, key);
          var k := BindKey(c, text, t.key);
          r := Bind(c, params, MapChild(name, text), t.elem);
          if r.Panic? { return; }
          assert EntryOutcome(c, params, name, t, k, r.v);
          EntryAdded(c, params, name, t, seen, key, entries, k, r.v);
          entries := entries[k := r.v];
        } else {
          EntrySkipped(c, params, name, t, seen, key, entries);
        }
      } else {
        EntrySkipped(c, params, name, t, seen, key, entries);
      }
    }
    assert params.Keys - left == params.Keys;
    NoEntryPanics(c, params, name, t, entries.Keys);
    EntriesAreOutcome(c, params, name, t, entries);
    r := Bound(MapV(entries), true);
  }

  /** BindValue at a map's key type, which is always a scalar. */
  method BindKey(c: Config, text: string, key: Scalar) returns (p: Prim)
    requires c.Ok()
    ensures p == ParsePrim(key, text).0
    decreases 0, 0, 6
  {
    var r := BindValue(c, text, Basic(key));
    assert Children(c, Single(text), "", Basic(key)) == {};
    p := r.v.p;
  }

  lemma MapChildPanics(c: Config, params: Params, name: string, t: Typ, key: string)
    requires c.Ok() && c.TypOk(t) && t.MapT? && key in params && MapHit(name, key)
    ensures Slack(params, MapChild(name, MapText(name, key))) < Slack(params, name)
    ensures Panics(c, params, MapChild(name, MapText(name, key)), t.elem) ==> Panics(c, params, name, t)
  {
    MapChildSmaller(params, name, key);
    assert (MapChild(name, MapText(name, key)), t.elem) in Children(c, params, name, t);
  }

  lemma EntrySkipped(c: Config, params: Params, name: string, t: Typ, seen: set<string>, key: string,
                     entries: map<Prim, Value>)
    requires c.Ok() && c.TypOk(t) && t.MapT? && key != name && !MapHit(name, key)
    requires EntriesSoFar(c, params, name, t, seen, entries)
    ensures EntriesSoFar(c, params, name, t, seen + {key}, entries)
  {
    KeysAdded(c, params, name, t, seen, key, entries.Keys, entries.Keys);
  }

  /** One SetMapIndex. */
  lemma EntryAdded(c: Config, params: Params, name: string, t: Typ, seen: set<string>, key: string,
                   entries: map<Prim, Value>, p: Prim, v: Value)
    requires c.Ok() && c.TypOk(t) && t.MapT?
    requires EntriesSoFar(c, params, name, t, seen, entries)
    requires KeyDone(c, params, name, t, key, {p}) && EntryOutcome(c, params, name, t, p, v)
    ensures EntriesSoFar(c, params, name, t, seen + {key}, entries[p := v])
  {
    KeysAdded(c, params, name, t, seen, key, entries.Keys, {p});
    assert entries[p := v].Keys == entries.Keys + {p};
    forall q | q in entries ensures EntryOutcome(c, params, name, t, q, entries[q]) { }
  }

  lemma KeysAdded(c: Config, params: Params, name: string, t: Typ, seen: set<string>, key: string,
                  ps: set<Prim>, more: set<Prim>)
    requires c.Ok() && c.TypOk(t) && t.MapT?
    requires KeysSoFar(c, params, name, t, seen, ps) && KeyDone(c, params, name, t, key, more)
    ensures KeysSoFar(c, params, name, t, seen + {key}, ps + more)
  {
    forall k | k in seen + {key} ensures KeyDone(c, params, name, t, k, ps + more) {
      assert k != key ==> KeyDone(c, params, name, t, k, ps);
    }
  }

  lemma NoEntryPanics(c: Config, params: Params, name: string, t: Typ, ps: set<Prim>)
    requires c.Ok() && c.TypOk(t) && t.MapT?
    requires KeysSoFar(c, params, name, t, params.Keys, ps)
    ensures !Panics(c, params, name, t)
  {
    assert name in params ==> KeyDone(c, params, name, t, name, ps);
    forall x | x in Children(c, params, name, t) ensures !Panics(c, params, x.0, x.1) {
      var k :| k in params && MapHit(name, k) && x == (MapChild(name, MapText(name, k)), t.elem);
      assert KeyDone(c, params, name, t, k, ps);
    }
  }

  lemma EntriesAreOutcome(c: Config, params: Params, name: string, t: Typ, entries: map<Prim, Value>)
    requires c.Ok() && c.TypOk(t) && t.MapT?
    requires EntriesSoFar(c, params, name, t, params.Keys, entries)
    ensures Outcome(c, params, name, t, MapV(entries))
  {
    forall k | k in params ensures KeyBound(name, t.key, k, entries.Keys) {
      assert KeyDone(c, params, name, t, k, entries.Keys);
    }
  }

  // ----- slices -----

  /** sliceValue: a bound element and its index, -1 when the key gave none. */
  datatype SliceValue = SliceValue(index: int, value: Value)

  /** The un-indexed elements, in order. */
  function Loose(svs: seq<SliceValue>): seq<Value> {
    if svs == [] then []
    else
      var last := svs[|svs| - 1];
      Loose(svs[..|svs| - 1]) + (if last.index == -1 then [last.value] else [])
  }

  lemma LooseAppend(svs: seq<SliceValue>, sv: SliceValue)
    ensures Loose(svs + [sv]) == Loose(svs) + (if sv.index == -1 then [sv.value] else [])
  {
    assert (svs + [sv])[..|svs|] == svs;
  }

  /** An indexed element came from a key with its index. */
  ghost predicate FromKey(c: Config, params: Params, name: string, t: Typ, sv: SliceValue)
    requires c.Ok() && c.TypOk(t) && t.SliceT?
  {
    exists k :: SlotKey(c, params, name, sv.index, k)
             && Slack(params, SliceChild(name, k)) < Slack(params, name)
             && Outcome(c, params, SliceChild(name, k), t.elem, sv.value)
  }

  ghost predicate HasIndex(svs: seq<SliceValue>, index: int) {
    exists j :: 0 <= j < |svs| && svs[j].index == index
  }

  ghost predicate KeyPlaced(c: Config, params: Params, name: string, t: Typ, svs: seq<SliceValue>, k: string)
    requires c.Ok() && c.TypOk(t) && t.SliceT?
  {
    Indexed(c, name, k) ==> HasIndex(svs, SliceIndex(name, k)) && !Panics(c, params, SliceChild(name, k), t.elem)
  }

  ghost predicate IndexedSoFar(c: Config, params: Params, name: string, t: Typ, seen: set<string>,
                               svs: seq<SliceValue>, maxIndex: int)
    requires c.Ok() && c.TypOk(t) && t.SliceT?
  {
    && -1 <= maxIndex
    && (forall j :: 0 <= j < |svs| ==>
          svs[j].index == -1 || (0 <= svs[j].index <= maxIndex && FromKey(c, params, name, t, svs[j])))
    && (forall k {:trigger KeyPlaced(c, params, name, t, svs, k)} ::
          k in seen ==> KeyPlaced(c, params, name, t, svs, k))
    && (maxIndex >= 0 ==> HasIndex(svs, maxIndex))
  }

  ghost predicate LooseSoFar(c: Config, params: Params, name: string, t: Typ, texts: seq<string>, svs: seq<SliceValue>)
    requires c.Ok() && c.TypOk(t) && t.SliceT?
  {
    LooseMatch(c, params, name, t, texts, Loose(svs))
  }

  ghost predicate LooseMatch(c: Config, params: Params, name: string, t: Typ, texts: seq<string>, vs: seq<Value>)
    requires c.Ok() && c.TypOk(t) && t.SliceT?
  {
    |vs| == |texts| && forall j :: 0 <= j < |texts| ==> LooseDone(c, params, name, t, texts[j], vs[j])
  }

  ghost predicate LooseDone(c: Config, params: Params, name: string, t: Typ, text: string, v: Value)
    requires c.Ok() && c.TypOk(t) && t.SliceT?
  {
    LooseOutcome(c, params, name, t, text, v) && !Panics(c, Single(text), "", t.elem)
  }

  /** `order` lists the un-indexed keys among those seen. */
  ghost predicate ListingSoFar(params: Params, name: string, seen: set<string>, order: seq<string>) {
    && (forall i :: 0 <= i < |order| ==> order[i] in params && order[i] in seen && Unindexed(name, order[i]))
    && (forall i, j :: 0 <= i < j < |order| ==> order[i] != order[j])
    && (forall k :: k in seen && Unindexed(name, k) ==> k in order)
  }

  ghost predicate SliceSoFar(c: Config, params: Params, name: string, t: Typ, seen: set<string>,
                             order: seq<string>, svs: seq<SliceValue>, maxIndex: int)
    requires c.Ok() && c.TypOk(t) && t.SliceT?
  {
    && IndexedSoFar(c, params, name, t, seen, svs, maxIndex)
    && ListingSoFar(params, name, seen, order)
    && LooseSoFar(c, params, name, t, Texts(params, order), svs)
  }

  method BindSlice(c: Config, params: Params, name: string, t: Typ) returns (r: Result)
    requires c.Ok() && c.TypOk(t) && t.SliceT?
    ensures Returns(c, params, name, t, r)
    decreases Slack(params, name), 0, 2
  {
    var maxIndex := -1;
    var sliceValues: seq<SliceValue> := [];
    var left := params.Keys;
    ghost var order: seq<string> := [];
    assert params.Keys - left == {};
    NothingSeen(c, params, name, t);
    while left != {}
      invariant left <= params.Keys
      invariant SliceSoFar(c, params, name, t, params.Keys - left, order, sliceValues, maxIndex)
      decreases |left|
    {
      var key :| key in left;
      ghost var seen := params.Keys - left;
      left := left - {key};
      assert params.Keys - left == seen + {key};
      if name + "[" <= key {
        var panicked;
        panicked, sliceValues, maxIndex, order :=
          ProcessElement(c, params, name, t, key, sliceValues, maxIndex, seen, order);
        if panicked { return Panic; }
      } else {
        KeyPassed(c, params, name, t, seen, order, sliceValues, maxIndex, key);
      }
    }
    assert params.Keys - left == params.Keys;
    r := MakeSlice(c, params, name, t, order, sliceValues, maxIndex);
  }

  lemma NothingSeen(c: Config, params: Params, name: string, t: Typ)
    requires c.Ok() && c.TypOk(t) && t.SliceT?
    ensures SliceSoFar(c, params, name, t, {}, [], [], -1)
  {
  }

  /** The result, once every key has been visited. */
  method MakeSlice(c: Config, params: Params, name: string, t: Typ, ghost order: seq<string>,
                   sliceValues: seq<SliceValue>, maxIndex: int) returns (r: Result)
    requires c.Ok() && c.TypOk(t) && t.SliceT?
    requires SliceSoFar(c, params, name, t, params.Keys, order, sliceValues, maxIndex)
    ensures Returns(c, params, name, t, r)
  {
    SliceSoFarIsPlaceable(c, params, name, t, order, sliceValues, maxIndex);
    var result := Place(c, t.elem, sliceValues, maxIndex);
    NoElementPanics(c, params, name, t, order, sliceValues, maxIndex);
    PlacedIsOutcome(c, params, name, t, order, sliceValues, maxIndex, result);
    r := Bound(SliceV(result), false);
  }

  /** A key that does not continue `name` with a bracket changes nothing. */
  lemma KeyPassed(c: Config, params: Params, name: string, t: Typ, seen: set<string>, order: seq<string>,
                  svs: seq<SliceValue>, maxIndex: int, key: string)
    requires c.Ok() && c.TypOk(t) && t.SliceT? && !(name + "[" <= key)
    requires SliceSoFar(c, params, name, t, seen, order, svs, maxIndex)
    ensures SliceSoFar(c, params, name, t, seen + {key}, order, svs, maxIndex)
  {
    SeenLoose(c, params, name, t, seen, key, svs, maxIndex);
  }

  lemma SliceSoFarIsPlaceable(c: Config, params: Params, name: string, t: Typ, order: seq<string>,
                              svs: seq<SliceValue>, maxIndex: int)
    requires c.Ok() && c.TypOk(t) && t.SliceT? && SliceSoFar(c, params, name, t, params.Keys, order, svs, maxIndex)
    ensures c.TypOk(t.elem) && -1 <= maxIndex && forall j :: 0 <= j < |svs| ==> -1 <= svs[j].index <= maxIndex
  {
  }

  /** The closure that bindSlice runs on each of its keys. */
  method ProcessElement(c: Config, params: Params, name: string, t: Typ, key: string,
                        sliceValues: seq<SliceValue>, maxIndex: int, ghost seen: set<string>, ghost order: seq<string>)
    returns (panicked: bool, svs: seq<SliceValue>, max: int, ghost order': seq<string>)
    requires c.Ok() && c.TypOk(t) && t.SliceT? && key in params && name + "[" <= key && key !in seen
    requires SliceSoFar(c, params, name, t, seen, order, sliceValues, maxIndex)
    ensures panicked ==> Panics(c, params, name, t)
    ensures !panicked ==> SliceSoFar(c, params, name, t, seen + {key}, order', svs, max)
    decreases Slack(params, name), 0, 1
  {
    svs, max, order' := sliceValues, maxIndex, order;
    panicked := false;
    var index := SliceIndex(name, key);
    if index > -1 {
      if index > c.maxIndex {
        SeenLoose(c, params, name, t, seen, key, svs, max);
        return;
      }
      SliceChildPanics(c, params, name, t, key);
      var r := Bind(c, params, SliceChild(name, key), t.elem);
      if r.Panic? { return true, svs, max, order'; }
      max := if index > maxIndex then index else maxIndex;
      svs := sliceValues + [SliceValue(index, r.v)];
      IndexedVisited(c, params, name, t, seen, order, sliceValues, maxIndex, key, r.v);
      return;
    }
    panicked, svs := AppendLoose(c, params, name, t, key, sliceValues, maxIndex, seen, order);
    order' := order + [key];
    if !panicked { LooseVisited(c, params, name, t, seen, order, svs, maxIndex, key); }
  }

  lemma IndexedVisited(c: Config, params: Params, name: string, t: Typ, seen: set<string>, order: seq<string>,
                       svs: seq<SliceValue>, maxIndex: int, key: string, v: Value)
    requires c.Ok() && c.TypOk(t) && t.SliceT? && key in params && Indexed(c, name, key)
    requires SliceSoFar(c, params, name, t, seen, order, svs, maxIndex)
    requires !Panics(c, params, SliceChild(name, key), t.elem) && Outcome(c, params, SliceChild(name, key), t.elem, v)
    ensures var index := SliceIndex(name, key);
            SliceSoFar(c, params, name, t, seen + {key}, order, svs + [SliceValue(index, v)],
                       if index > maxIndex then index else maxIndex)
  {
    SliceChildSmaller(c, params, name, key);
    IndexedAdded(c, params, name, t, seen, svs, maxIndex, key, v);
    LooseAppend(svs, SliceValue(SliceIndex(name, key), v));
  }

  lemma LooseVisited(c: Config, params: Params, name: string, t: Typ, seen: set<string>, order: seq<string>,
                     svs: seq<SliceValue>, maxIndex: int, key: string)
    requires c.Ok() && c.TypOk(t) && t.SliceT? && key in params && Unindexed(name, key) && key !in seen
    requires ListingSoFar(params, name, seen, order) && IndexedSoFar(c, params, name, t, seen, svs, maxIndex)
    requires LooseSoFar(c, params, name, t, Texts(params, order) + params[key], svs)
    ensures SliceSoFar(c, params, name, t, seen + {key}, order + [key], svs, maxIndex)
  {
    TextsAppend(params, order, key);
    SeenLoose(c, params, name, t, seen, key, svs, maxIndex);
    ListingVisited(params, name, seen, order, key);
  }

  lemma ListingVisited(params: Params, name: string, seen: set<string>, order: seq<string>, key: string)
    requires ListingSoFar(params, name, seen, order) && key in params && Unindexed(name, key) && key !in seen
    ensures ListingSoFar(params, name, seen + {key}, order + [key])
  {
    assert key in order + [key];
  }

  /** Its second half: un-indexed values are bound directly. */
  method AppendLoose(c: Config, params: Params, name: string, t: Typ, key: string,
                     sliceValues: seq<SliceValue>, maxIndex: int, ghost seen: set<string>, ghost order: seq<string>)
    returns (panicked: bool, svs: seq<SliceValue>)
    requires c.Ok() && c.TypOk(t) && t.SliceT? && key in params && Unindexed(name, key)
    requires forall i :: 0 <= i < |order| ==> order[i] in params
    requires IndexedSoFar(c, params, name, t, seen, sliceValues, maxIndex)
    requires LooseSoFar(c, params, name, t, Texts(params, order), sliceValues)
    ensures panicked ==> Panics(c, params, name, t)
    ensures !panicked ==> IndexedSoFar(c, params, name, t, seen, svs, maxIndex)
    ensures !panicked ==> LooseSoFar(c, params, name, t, Texts(params, order) + params[key], svs)
    decreases Slack(params, name), 0, 0
  {
    svs, panicked := sliceValues, false;
    UnindexedHasSlack(params, name, key);
    var vals := params[key];
    assert Texts(params, order) + vals[..0] == Texts(params, order);
    for i := 0 to |vals|
      invariant IndexedSoFar(c, params, name, t, seen, svs, maxIndex)
      invariant LooseSoFar(c, params, name, t, Texts(params, order) + vals[..i], svs)
    {
      var r := BindValue(c, vals[i], t.elem);
      if r.Panic? {
        LoosePanic(c, params, name, t, key, vals[i]);
        panicked := true;
        return;
      }
      assert LooseDone(c, params, name, t, vals[i], r.v);
      LooseAdded(c, params, name, t, Texts(params, order), vals, i, svs, r.v);
      IndexedKept(c, params, name, t, seen, svs, maxIndex, r.v);
      svs := svs + [SliceValue(-1, r.v)];
    }
    assert vals[..|vals|] == vals;
  }

  lemma SeenLoose(c: Config, params: Params, name: string, t: Typ, seen: set<string>, key: string,
                  svs: seq<SliceValue>, maxIndex: int)
    requires c.Ok() && c.TypOk(t) && t.SliceT? && !Indexed(c, name, key)
    requires IndexedSoFar(c, params, name, t, seen, svs, maxIndex)
    ensures IndexedSoFar(c, params, name, t, seen + {key}, svs, maxIndex)
  {
    forall k | k in seen + {key} ensures KeyPlaced(c, params, name, t, svs, k) {
      assert k != key ==> KeyPlaced(c, params, name, t, svs, k);
    }
  }

  lemma SliceChildPanics(c: Config, params: Params, name: string, t: Typ, key: string)
    requires c.Ok() && c.TypOk(t) && t.SliceT? && key in params && Indexed(c, name, key)
    ensures Slack(params, SliceChild(name, key)) < Slack(params, name)
    ensures Panics(c, params, SliceChild(name, key), t.elem) ==> Panics(c, params, name, t)
  {
    SliceChildSmaller(c, params, name, key);
    assert (SliceChild(name, key), t.elem) in Children(c, params, name, t);
  }

  lemma TextsAppend(params: Params, order: seq<string>, key: string)
    requires key in params && forall i :: 0 <= i < |order| ==> order[i] in params
    ensures Texts(params, order + [key]) == Texts(params, order) + params[key]
  {
    assert (order + [key])[..|order|] == order;
  }

  lemma IndexedAdded(c: Config, params: Params, name: string, t: Typ, seen: set<string>,
                     svs: seq<SliceValue>, maxIndex: int, key: string, v: Value)
    requires c.Ok() && c.TypOk(t) && t.SliceT?
    requires IndexedSoFar(c, params, name, t, seen, svs, maxIndex)
    requires key in params && Indexed(c, name, key)
    requires !Panics(c, params, SliceChild(name, key), t.elem)
    requires Outcome(c, params, SliceChild(name, key), t.elem, v)
    ensures var index := SliceIndex(name, key);
            IndexedSoFar(c, params, name, t, seen + {key}, svs + [SliceValue(index, v)],
                         if index > maxIndex then index else maxIndex)
  {
    var sv := SliceValue(SliceIndex(name, key), v);
    SliceChildSmaller(c, params, name, key);
    assert SlotKey(c, params, name, sv.index, key);
    KeysStayPlaced(c, params, name, t, seen, svs, key, sv);
    FromKeyAdded(c, params, name, t, svs, maxIndex, sv);
    HasIndexMonotone(svs, sv);
  }

  lemma KeysStayPlaced(c: Config, params: Params, name: string, t: Typ, seen: set<string>,
                       svs: seq<SliceValue>, key: string, sv: SliceValue)
    requires c.Ok() && c.TypOk(t) && t.SliceT? && Indexed(c, name, key) && sv.index == SliceIndex(name, key)
    requires forall k {:trigger KeyPlaced(c, params, name, t, svs, k)} ::
               k in seen ==> KeyPlaced(c, params, name, t, svs, k)
    requires !Panics(c, params, SliceChild(name, key), t.elem)
    ensures forall k {:trigger KeyPlaced(c, params, name, t, svs + [sv], k)} ::
              k in seen + {key} ==> KeyPlaced(c, params, name, t, svs + [sv], k)
  {
    HasIndexMonotone(svs, sv);
    forall k | k in seen + {key} ensures KeyPlaced(c, params, name, t, svs + [sv], k) {
      assert k != key ==> KeyPlaced(c, params, name, t, svs, k);
    }
  }

  lemma FromKeyAdded(c: Config, params: Params, name: string, t: Typ, svs: seq<SliceValue>, maxIndex: int,
                     sv: SliceValue)
    requires c.Ok() && c.TypOk(t) && t.SliceT? && sv.index >= 0 && FromKey(c, params, name, t, sv)
    requires forall j :: 0 <= j < |svs| ==>
               svs[j].index == -1 || (0 <= svs[j].index <= maxIndex && FromKey(c, params, name, t, svs[j]))
    ensures var svs', max := svs + [sv], if sv.index > maxIndex then sv.index else maxIndex;
            forall j :: 0 <= j < |svs'| ==>
              svs'[j].index == -1 || (0 <= svs'[j].index <= max && FromKey(c, params, name, t, svs'[j]))
  {
  }

  lemma HasIndexMonotone(svs: seq<SliceValue>, sv: SliceValue)
    ensures forall i :: HasIndex(svs, i) ==> HasIndex(svs + [sv], i)
    ensures HasIndex(svs + [sv], sv.index)
  {
    assert (svs + [sv])[|svs|] == sv;
    forall i | HasIndex(svs, i) ensures HasIndex(svs + [sv], i) {
      var j :| 0 <= j < |svs| && svs[j].index == i;
      assert (svs + [sv])[j].index == i;
    }
  }

  lemma LoosePanic(c: Config, params: Params, name: string, t: Typ, key: string, text: string)
    requires c.Ok() && c.TypOk(t) && t.SliceT? && key in params && Unindexed(name, key) && text in params[key]
    requires Panics(c, Single(text), "", t.elem)
    ensures Panics(c, params, name, t)
  {
    UnindexedHasSlack(params, name, key);
    assert text in LooseTexts(params, name);
  }

  /** One un-indexed value, the i-th of its key. */
  lemma LooseAdded(c: Config, params: Params, name: string, t: Typ, texts: seq<string>,
                   vals: seq<string>, i: nat, svs: seq<SliceValue>, v: Value)
    requires c.Ok() && c.TypOk(t) && t.SliceT? && i < |vals|
    requires LooseSoFar(c, params, name, t, texts + vals[..i], svs)
    requires LooseDone(c, params, name, t, vals[i], v)
    ensures LooseSoFar(c, params, name, t, texts + vals[..i + 1], svs + [SliceValue(-1, v)])
  {
    LooseAppend(svs, SliceValue(-1, v));
    MatchAppend(c, params, name, t, texts + vals[..i], Loose(svs), vals[i], v);
    assert texts + vals[..i + 1] == (texts + vals[..i]) + [vals[i]];
  }

  lemma MatchAppend(c: Config, params: Params, name: string, t: Typ, texts: seq<string>, vs: seq<Value>,
                    text: string, v: Value)
    requires c.Ok() && c.TypOk(t) && t.SliceT?
    requires LooseMatch(c, params, name, t, texts, vs) && LooseDone(c, params, name, t, text, v)
    ensures LooseMatch(c, params, name, t, texts + [text], vs + [v])
  {
  }

  lemma IndexedKept(c: Config, params: Params, name: string, t: Typ, seen: set<string>,
                    svs: seq<SliceValue>, maxIndex: int, v: Value)
    requires c.Ok() && c.TypOk(t) && t.SliceT? && IndexedSoFar(c, params, name, t, seen, svs, maxIndex)
    ensures IndexedSoFar(c, params, name, t, seen, svs + [SliceValue(-1, v)], maxIndex)
  {
    HasIndexMonotone(svs, SliceValue(-1, v));
    forall k | k in seen ensures KeyPlaced(c, params, name, t, svs + [SliceValue(-1, v)], k) {
      assert KeyPlaced(c, params, name, t, svs, k);
    }
  }

  lemma NoElementPanics(c: Config, params: Params, name: string, t: Typ, order: seq<string>,
                        svs: seq<SliceValue>, maxIndex: int)
    requires c.Ok() && c.TypOk(t) && t.SliceT?
    requires SliceSoFar(c, params, name, t, params.Keys, order, svs, maxIndex)
    ensures !Panics(c, params, name, t)
  {
    forall x | x in Children(c, params, name, t) ensures !Panics(c, params, x.0, x.1) {
      var k :| k in params && Indexed(c, name, k) && x == (SliceChild(name, k), t.elem);
      assert KeyPlaced(c, params, name, t, svs, k);
    }
    forall text | text in LooseTexts(params, name)
      ensures !Panics(c, Single(text), "", t.elem)
    {
      var k :| k in params && Unindexed(name, k) && text in params[k];
      TextsHold(params, order, k, text);
    }
  }

  lemma TextsHold(params: Params, order: seq<string>, key: string, text: string)
    requires forall i :: 0 <= i < |order| ==> order[i] in params
    requires key in order && text in params[key]
    ensures text in Texts(params, order)
  {
    var last := order[|order| - 1];
    if key != last {
      var i :| 0 <= i < |order| && order[i] == key;
      assert order[..|order| - 1][i] == key;
      TextsHold(params, order[..|order| - 1], key, text);
    }
  }

  /** `j` is the last one with the index. */
  predicate LastAt(svs: seq<SliceValue>, index: int, j: int) {
    0 <= j < |svs| && svs[j].index == index && forall l :: j < l < |svs| ==> svs[l].index != index
  }

  /** What a slot holds: the last value stored at its index, or zero. */
  ghost predicate Slot(c: Config, elem: Typ, svs: seq<SliceValue>, i: int, v: Value)
    requires c.Ok() && c.TypOk(elem)
  {
    if HasIndex(svs, i) then exists j :: LastAt(svs, i, j) && svs[j].value == v
    else v == c.Zero(elem)
  }

  /** Makes the slice: indexed elements go to their places, the others are appended. */
  method Place(c: Config, elem: Typ, svs: seq<SliceValue>, maxIndex: int) returns (result: seq<Value>)
    requires c.Ok() && c.TypOk(elem) && -1 <= maxIndex
    requires forall j :: 0 <= j < |svs| ==> -1 <= svs[j].index <= maxIndex
    ensures |result| == maxIndex + 1 + |Loose(svs)| && result[maxIndex + 1..] == Loose(svs)
    ensures forall i :: 0 <= i <= maxIndex ==> Slot(c, elem, svs, i, result[i])
  {
    var zero := c.Zero(elem);
    result := seq(maxIndex + 1, i => zero);
    for j := 0 to |svs|
      invariant |result| == maxIndex + 1 + |Loose(svs[..j])| && result[maxIndex + 1..] == Loose(svs[..j])
      invariant forall i :: 0 <= i <= maxIndex ==> Slot(c, elem, svs[..j], i, result[i])
    {
      var sv := svs[j];
      assert svs[..j + 1] == svs[..j] + [sv];
      LooseAppend(svs[..j], sv);
      ghost var before := result;
      if sv.index != -1 {
        result := result[sv.index := sv.value];
      } else {
        result := result + [sv.value];
      }
      forall i | 0 <= i <= maxIndex ensures Slot(c, elem, svs[..j + 1], i, result[i]) {
        SlotStep(c, elem, svs[..j], sv, i, before[i], result[i]);
      }
    }
    assert svs[..|svs|] == svs;
  }

  lemma SlotStep(c: Config, elem: Typ, svs: seq<SliceValue>, sv: SliceValue, i: nat, before: Value, after: Value)
    requires c.Ok() && c.TypOk(elem) && Slot(c, elem, svs, i, before)
    requires after == if sv.index == i then sv.value else before
    ensures Slot(c, elem, svs + [sv], i, after)
  {
    var svs' := svs + [sv];
    HasIndexMonotone(svs, sv);
    assert svs'[|svs|] == sv;
    if sv.index == i {
      assert LastAt(svs', i, |svs|);
    } else if HasIndex(svs, i) {
      var j :| LastAt(svs, i, j) && svs[j].value == before;
      assert LastAt(svs', i, j);
    }
  }

  lemma PlacedIsOutcome(c: Config, params: Params, name: string, t: Typ, order: seq<string>,
                        svs: seq<SliceValue>, maxIndex: int, result: seq<Value>)
    requires c.Ok() && c.TypOk(t) && t.SliceT?
    requires SliceSoFar(c, params, name, t, params.Keys, order, svs, maxIndex)
    requires |result| == maxIndex + 1 + |Loose(svs)| && result[maxIndex + 1..] == Loose(svs)
    requires forall i :: 0 <= i <= maxIndex ==> Slot(c, t.elem, svs, i, result[i])
    ensures Outcome(c, params, name, t, SliceV(result))
  {
    var n := maxIndex + 1;
    ExtentIs(c, params, name, t, svs, maxIndex);
    forall i | 0 <= i < n ensures SlotOutcome(c, params, name, t, i, result[i]) {
      SlotIsOutcome(c, params, name, t, svs, maxIndex, i, result[i]);
    }
    AllSeenIsListing(params, name, order);
    LooseIsOutcome(c, params, name, t, Texts(params, order), Loose(svs), result, n);
    PartsAreOutcome(c, params, name, t, result, n, order);
  }

  lemma AllSeenIsListing(params: Params, name: string, order: seq<string>)
    requires ListingSoFar(params, name, params.Keys, order)
    ensures Listing(params, name, order)
  {
  }

  lemma LooseIsOutcome(c: Config, params: Params, name: string, t: Typ, texts: seq<string>,
                       loose: seq<Value>, result: seq<Value>, n: nat)
    requires c.Ok() && c.TypOk(t) && t.SliceT? && LooseMatch(c, params, name, t, texts, loose)
    requires n <= |result| && result[n..] == loose
    ensures forall j :: 0 <= j < |texts| ==> LooseOutcome(c, params, name, t, texts[j], result[n + j])
  {
    forall j | 0 <= j < |texts| ensures LooseOutcome(c, params, name, t, texts[j], result[n + j]) {
      assert result[n + j] == result[n..][j];
      assert LooseDone(c, params, name, t, texts[j], loose[j]);
    }
  }

  lemma PartsAreOutcome(c: Config, params: Params, name: string, t: Typ, es: seq<Value>, n: nat, order: seq<string>)
    requires c.Ok() && c.TypOk(t) && t.SliceT?
    requires Extent(c, params, name, n) && Listing(params, name, order) && |es| == n + |Texts(params, order)|
    requires forall i :: 0 <= i < n ==> SlotOutcome(c, params, name, t, i, es[i])
    requires forall j :: 0 <= j < |Texts(params, order)| ==>
               LooseOutcome(c, params, name, t, Texts(params, order)[j], es[n + j])
    ensures Outcome(c, params, name, t, SliceV(es))
  {
    assert SliceOutcome(c, params, name, t, es, n, order);
    assert SliceV(es).elems == es;
  }

  lemma ExtentIs(c: Config, params: Params, name: string, t: Typ, svs: seq<SliceValue>, maxIndex: int)
    requires c.Ok() && c.TypOk(t) && t.SliceT?
    requires IndexedSoFar(c, params, name, t, params.Keys, svs, maxIndex)
    ensures Extent(c, params, name, maxIndex + 1)
  {
    forall k | k in params && Indexed(c, name, k) ensures SliceIndex(name, k) <= maxIndex {
      assert KeyPlaced(c, params, name, t, svs, k);
    }
    if maxIndex >= 0 {
      var j :| 0 <= j < |svs| && svs[j].index == maxIndex;
      assert FromKey(c, params, name, t, svs[j]);
    }
  }

  lemma SlotIsOutcome(c: Config, params: Params, name: string, t: Typ,
                      svs: seq<SliceValue>, maxIndex: int, i: nat, v: Value)
    requires c.Ok() && c.TypOk(t) && t.SliceT?
    requires IndexedSoFar(c, params, name, t, params.Keys, svs, maxIndex)
    requires Slot(c, t.elem, svs, i, v)
    ensures SlotOutcome(c, params, name, t, i, v)
  {
    if HasIndex(svs, i) {
      var j :| LastAt(svs, i, j) && svs[j].value == v;
      assert FromKey(c, params, name, t, svs[j]);
    } else {
      forall k | k in params && Indexed(c, name, k) ensures SliceIndex(name, k) != i {
        assert KeyPlaced(c, params, name, t, svs, k);
      }
    }
  }
}
