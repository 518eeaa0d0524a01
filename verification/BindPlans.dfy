/**
  Bind with the visiting order of every call made explicit. Outcome holds of exactly the values that
  Bind returns for some orders. Whether Bind panics does not depend on the orders.
 */
module BindPlans {
  import opened BinderTypes
  import opened BindSpec
  import opened BindOrder
  import opened BindImpl
  import opened BindPlaces

  /** The order in which a call visits the parameters, and the plan of the nested call made at each of them. */
  datatype Plan = Plan(order: seq<string>, nested: map<string, Plan>)

  // ----- one text -----

  /** BindValue. Its map has one key, so there is one order. */
  function BindText(c: Config, text: string, t: Typ): Value
    requires c.Ok() && c.TypOk(t)
    decreases PtrDepth(t)
  {
    match t
    case Basic(s) => PrimV(ParsePrim(s, text).0)
    case BytesT => BytesV("")
    case SliceT(_) => SliceV([])
    case StructT(_) => c.Zero(t)
    case MapT(_, _) => MapV(map[])
    case PtrT(e) => if Addressable(Single(text), "", e) then PtrV(BindText(c, text, e)) else NilPtr
  }

  lemma {:induction false} BindTextIs(c: Config, text: string, t: Typ, v: Value)
    requires c.Ok() && c.TypOk(t)
    ensures Outcome(c, Single(text), "", t, v) <==> v == BindText(c, text, t)
    decreases PtrDepth(t)
  {
    SingleUnambiguous(c, text, t);
    TextHasOutcome(c, text, t);
    if Outcome(c, Single(text), "", t, v) { OrderIndependent(c, Single(text), "", t, v, BindText(c, text, t)); }
  }

  lemma {:induction false} TextHasOutcome(c: Config, text: string, t: Typ)
    requires c.Ok() && c.TypOk(t)
    ensures Outcome(c, Single(text), "", t, BindText(c, text, t))
    decreases PtrDepth(t)
  {
    var params := Single(text);
    match t
    case Basic(_) =>
    case BytesT =>
    case SliceT(_) =>
      assert Texts(params, []) == [];
      assert SliceOutcome(c, params, "", t, [], 0, []);
    case StructT(id) =>
      assert c.FieldsOk(id);
      forall i | 0 <= i < |c.structs[id]| ensures FieldOutcome(c, params, "", t, i, c.Zero(t).fields[i]) {
        assert !Touched(params, "", c.structs[id][i].name);
      }
    case MapT(key, _) =>
      forall k | k in params ensures KeyBound("", key, k, {}) {}
    case PtrT(e) => TextHasOutcome(c, text, e);
  }

  // ----- Bind -----

  /** What Bind returns with the orders of the plan, where it does not panic. */
  function BindBy(c: Config, params: Params, name: string, t: Typ, plan: Plan): Value
    requires c.Ok() && c.TypOk(t)
    decreases plan, t, |plan.order| + 2
  {
    match t
    case Basic(s) =>
      PrimV(if name in params && params[name] != [] then ParsePrim(s, params[name][0]).0 else ZeroPrim(s))
    case BytesT => BytesV("")
    case SliceT(e) => SliceV(Placed(c, e, ElementsBy(c, params, name, t, plan, plan.order)))
    case StructT(_) => StructV(FieldsBy(c, params, name, t, plan, plan.order))
    case MapT(_, _) => MapV(EntriesBy(c, params, name, t, plan, plan.order))
    case PtrT(e) => if Addressable(params, name, e) then PtrV(BindBy(c, params, name, e, plan)) else NilPtr
  }

  /** The loop of bindSlice. */
  function ElementsBy(c: Config, params: Params, name: string, t: Typ, plan: Plan, keys: seq<string>): seq<SliceValue>
    requires c.Ok() && c.TypOk(t) && t.SliceT?
    decreases plan, t, |keys| + 1
  {
    if keys == [] then []
    else
      var before, k := ElementsBy(c, params, name, t, plan, keys[..|keys| - 1]), keys[|keys| - 1];
      if Indexed(c, name, k) then
        if k !in plan.nested then before
        else before + [SliceValue(SliceIndex(name, k), BindBy(c, params, SliceChild(name, k), t.elem, plan.nested[k]))]
      else if k in params && Unindexed(name, k) then before + LooseValues(c, t.elem, params[k])
      else before
  }

  function LooseValues(c: Config, elem: Typ, texts: seq<string>): seq<SliceValue>
    requires c.Ok() && c.TypOk(elem)
  {
    seq(|texts|, j requires 0 <= j < |texts| => SliceValue(-1, BindText(c, texts[j], elem)))
  }

  /** The loop that makes the slice. */
  function Placed(c: Config, elem: Typ, svs: seq<SliceValue>): seq<Value>
    requires c.Ok() && c.TypOk(elem)
  {
    seq(Top(svs), i requires 0 <= i < Top(svs) => SlotOf(c, elem, svs, i)) + Loose(svs)
  }

  /** One more than the largest index. */
  function Top(svs: seq<SliceValue>): nat {
    if svs == [] then 0
    else
      var before, index := Top(svs[..|svs| - 1]), svs[|svs| - 1].index;
      if index >= before then index + 1 else before
  }

  /** The last value stored at an index. */
  function SlotOf(c: Config, elem: Typ, svs: seq<SliceValue>, i: nat): Value
    requires c.Ok() && c.TypOk(elem)
  {
    if svs == [] then c.Zero(elem)
    else if svs[|svs| - 1].index == i then svs[|svs| - 1].value
    else SlotOf(c, elem, svs[..|svs| - 1], i)
  }

  /** The position of the exported field that a key names, or -1. */
  function FieldAt(c: Config, name: string, id: nat, key: string): (i: int)
    requires id < |c.structs|
    ensures -1 <= i < |c.structs[id]|
  {
    if !(name + "." <= key) then -1
    else
      var i := c.FieldIndex(id, FieldText(name, key));
      if i >= 0 && c.structs[id][i].exported then i else -1
  }

  /** The loop of bindStruct: the first key of a field binds it. */
  function FieldsBy(c: Config, params: Params, name: string, t: Typ, plan: Plan, keys: seq<string>): (r: seq<Value>)
    requires c.Ok() && c.TypOk(t) && t.StructT?
    ensures |r| == |c.structs[t.id]|
    decreases plan, t, |keys| + 1
  {
    if keys == [] then c.Zero(t).fields
    else
      var before, k := FieldsBy(c, params, name, t, plan, keys[..|keys| - 1]), keys[|keys| - 1];
      var i := FieldAt(c, name, t.id, k);
      if i < 0 || k !in plan.nested || AlreadyBound(c, name, t.id, keys[..|keys| - 1], i) then before
      else
        assert c.FieldsOk(t.id);
        var f := c.structs[t.id][i];
        before[i := BindBy(c, params, name + "." + f.name, f.typ, plan.nested[k])]
  }

  predicate AlreadyBound(c: Config, name: string, id: nat, keys: seq<string>, i: int)
    requires id < |c.structs|
  {
    exists j :: 0 <= j < |keys| && FieldAt(c, name, id, keys[j]) == i
  }

  /** The loop of bindMap: the last key of an entry stays. */
  function EntriesBy(c: Config, params: Params, name: string, t: Typ, plan: Plan, keys: seq<string>): map<Prim, Value>
    requires c.Ok() && c.TypOk(t) && t.MapT?
    decreases plan, t, |keys| + 1
  {
    if keys == [] then map[]
    else
      var before, k := EntriesBy(c, params, name, t, plan, keys[..|keys| - 1]), keys[|keys| - 1];
      if !MapHit(name, k) || k !in plan.nested then before
      else
        var text := MapText(name, k);
        before[ParsePrim(t.key, text).0 := BindBy(c, params, MapChild(name, text), t.elem, plan.nested[k])]
  }

  // ----- plans that a run can have -----

  ghost predicate IsOrder(params: Params, order: seq<string>) {
    Distinct(order) && forall k :: k in order <==> k in params
  }

  /** Each call visits each parameter once, and has a plan for each nested call. */
  ghost predicate IsPlan(c: Config, params: Params, name: string, t: Typ, plan: Plan)
    requires c.Ok() && c.TypOk(t)
    decreases plan, t
  {
    match t
    case Basic(_) => true
    case BytesT => true
    case SliceT(e) =>
      && IsOrder(params, plan.order)
      && forall k :: k in params && Indexed(c, name, k) ==>
           k in plan.nested && IsPlan(c, params, SliceChild(name, k), e, plan.nested[k])
    case StructT(id) =>
      && IsOrder(params, plan.order)
      && forall k :: k in params && FieldAt(c, name, id, k) >= 0 ==>
           && k in plan.nested
           && assert c.FieldsOk(id);
              var f := c.structs[id][FieldAt(c, name, id, k)];
              IsPlan(c, params, name + "." + f.name, f.typ, plan.nested[k])
    case MapT(_, e) =>
      && IsOrder(params, plan.order)
      && forall k :: k in params && MapHit(name, k) ==>
           k in plan.nested && IsPlan(c, params, MapChild(name, MapText(name, k)), e, plan.nested[k])
    case PtrT(e) => IsPlan(c, params, name, e, plan)
  }

  // ----- what a plan returns is an outcome -----

  lemma {:induction false} TopIs(svs: seq<SliceValue>)
    ensures forall j :: 0 <= j < |svs| ==> svs[j].index < Top(svs)
    ensures Top(svs) > 0 ==> HasIndex(svs, Top(svs) - 1)
  {
    if svs != [] {
      var init := svs[..|svs| - 1];
      TopIs(init);
      assert svs == init + [svs[|svs| - 1]];
      HasIndexMonotone(init, svs[|svs| - 1]);
    }
  }

  lemma {:induction false} SlotOfIs(c: Config, elem: Typ, svs: seq<SliceValue>, i: nat)
    requires c.Ok() && c.TypOk(elem)
    ensures Slot(c, elem, svs, i, SlotOf(c, elem, svs, i))
  {
    if svs != [] {
      var init, sv := svs[..|svs| - 1], svs[|svs| - 1];
      assert svs == init + [sv];
      var before, after := SlotOf(c, elem, init, i), SlotOf(c, elem, svs, i);
      assert after == if sv.index == i then sv.value else before;
      SlotOfIs(c, elem, init, i);
      SlotStep(c, elem, init, sv, i, before, after);
    }
  }

  /** An indexed element came from one of the keys. */
  ghost predicate FromKeys(c: Config, params: Params, name: string, t: Typ, plan: Plan, keys: seq<string>,
                           sv: SliceValue)
    requires c.Ok() && c.TypOk(t) && t.SliceT?
  {
    exists k :: k in keys && IsElement(c, params, name, t, plan, k, sv)
  }

  predicate IsElement(c: Config, params: Params, name: string, t: Typ, plan: Plan, k: string, sv: SliceValue)
    requires c.Ok() && c.TypOk(t) && t.SliceT?
  {
    && Indexed(c, name, k) && k in plan.nested && sv.index == SliceIndex(name, k)
    && sv.value == BindBy(c, params, SliceChild(name, k), t.elem, plan.nested[k])
  }

  lemma {:induction false} ElementIsFrom(c: Config, params: Params, name: string, t: Typ, plan: Plan,
                                         keys: seq<string>, j: nat)
    requires c.Ok() && c.TypOk(t) && t.SliceT? && j < |ElementsBy(c, params, name, t, plan, keys)|
    requires ElementsBy(c, params, name, t, plan, keys)[j].index != -1
    ensures FromKeys(c, params, name, t, plan, keys, ElementsBy(c, params, name, t, plan, keys)[j])
    decreases |keys|
  {
    var init, last := keys[..|keys| - 1], keys[|keys| - 1];
    var before, sv := ElementsBy(c, params, name, t, plan, init), ElementsBy(c, params, name, t, plan, keys)[j];
    if j < |before| {
      assert sv == before[j];
      ElementIsFrom(c, params, name, t, plan, init, j);
      var k :| k in init && IsElement(c, params, name, t, plan, k, sv);
      assert k in keys;
    } else {
      assert IsElement(c, params, name, t, plan, last, sv);
    }
  }

  lemma {:induction false} KeyHasElement(c: Config, params: Params, name: string, t: Typ, plan: Plan,
                                         keys: seq<string>, k: string)
    requires c.Ok() && c.TypOk(t) && t.SliceT? && k in keys && Indexed(c, name, k) && k in plan.nested
    ensures HasIndex(ElementsBy(c, params, name, t, plan, keys), SliceIndex(name, k))
    decreases |keys|
  {
    var init, svs := keys[..|keys| - 1], ElementsBy(c, params, name, t, plan, keys);
    var before := ElementsBy(c, params, name, t, plan, init);
    if k in init {
      KeyHasElement(c, params, name, t, plan, init, k);
      var j :| 0 <= j < |before| && before[j].index == SliceIndex(name, k);
      assert svs[j] == before[j];
    } else {
      assert svs[|before|].index == SliceIndex(name, k);
    }
  }

  /** The un-indexed keys of a list, in order. */
  function LooseKeys(params: Params, name: string, keys: seq<string>): seq<string> {
    if keys == [] then []
    else
      var before, k := LooseKeys(params, name, keys[..|keys| - 1]), keys[|keys| - 1];
      if k in params && Unindexed(name, k) then before + [k] else before
  }

  lemma {:induction false} LooseKeysAre(params: Params, name: string, keys: seq<string>)
    ensures forall k :: k in LooseKeys(params, name, keys) <==> k in keys && k in params && Unindexed(name, k)
    ensures Distinct(keys) ==> Distinct(LooseKeys(params, name, keys))
    decreases |keys|
  {
    if keys != [] {
      var init, k := keys[..|keys| - 1], keys[|keys| - 1];
      LooseKeysAre(params, name, init);
      assert forall x :: x in keys <==> x in init || x == k;
      if Distinct(keys) {
        LastApart(keys);
        OneMoreDistinct(LooseKeys(params, name, init), k);
      }
    }
  }

  lemma OneMoreDistinct(keys: seq<string>, k: string)
    requires Distinct(keys)
    ensures k !in keys ==> Distinct(keys + [k])
  {
  }

  function TextValues(c: Config, elem: Typ, texts: seq<string>): (r: seq<Value>)
    requires c.Ok() && c.TypOk(elem)
    ensures |r| == |texts|
  {
    seq(|texts|, j requires 0 <= j < |texts| => BindText(c, texts[j], elem))
  }

  lemma TextValuesConcat(c: Config, elem: Typ, a: seq<string>, b: seq<string>)
    requires c.Ok() && c.TypOk(elem)
    ensures TextValues(c, elem, a + b) == TextValues(c, elem, a) + TextValues(c, elem, b)
  {
  }

  lemma {:induction false} LooseConcat(a: seq<SliceValue>, b: seq<SliceValue>)
    ensures Loose(a + b) == Loose(a) + Loose(b)
    decreases |b|
  {
    if b == [] {
      assert a + b == a;
    } else {
      assert (a + b)[..|a + b| - 1] == a + b[..|b| - 1];
      LooseConcat(a, b[..|b| - 1]);
    }
  }

  lemma {:induction false} LooseOfTexts(c: Config, elem: Typ, texts: seq<string>)
    requires c.Ok() && c.TypOk(elem)
    ensures Loose(LooseValues(c, elem, texts)) == TextValues(c, elem, texts)
    decreases |texts|
  {
    if texts != [] {
      var init := texts[..|texts| - 1];
      var svs := LooseValues(c, elem, texts);
      assert svs[..|svs| - 1] == LooseValues(c, elem, init);
      LooseOfTexts(c, elem, init);
      assert texts == init + [texts[|texts| - 1]];
      TextValuesConcat(c, elem, init, [texts[|texts| - 1]]);
    }
  }

  lemma {:induction false} LooseOfElements(c: Config, params: Params, name: string, t: Typ, plan: Plan,
                                           keys: seq<string>)
    requires c.Ok() && c.TypOk(t) && t.SliceT? && forall k :: k in keys ==> k in params
    ensures Loose(ElementsBy(c, params, name, t, plan, keys))
         == TextValues(c, t.elem, TextsOf(params, LooseKeys(params, name, keys)))
    decreases |keys|
  {
    if keys != [] {
      var init, k := keys[..|keys| - 1], keys[|keys| - 1];
      var before := ElementsBy(c, params, name, t, plan, init);
      LooseOfElements(c, params, name, t, plan, init);
      if Unindexed(name, k) {
        LooseConcat(before, LooseValues(c, t.elem, params[k]));
        LooseOfTexts(c, t.elem, params[k]);
        TextValuesConcat(c, t.elem, TextsOf(params, LooseKeys(params, name, init)), params[k]);
        var loose := LooseKeys(params, name, init);
        assert (loose + [k])[..|loose|] == loose;
      } else if Indexed(c, name, k) && k in plan.nested {
        var v := BindBy(c, params, SliceChild(name, k), t.elem, plan.nested[k]);
        LooseAppend(before, SliceValue(SliceIndex(name, k), v));
      }
    }
  }

  /** The texts of keys, in order. */
  function TextsOf(params: Params, keys: seq<string>): seq<string> {
    if keys == [] then []
    else
      var k := keys[|keys| - 1];
      TextsOf(params, keys[..|keys| - 1]) + (if k in params then params[k] else [])
  }

  lemma {:induction false} TextsOfIs(params: Params, keys: seq<string>)
    requires forall i :: 0 <= i < |keys| ==> keys[i] in params
    ensures TextsOf(params, keys) == Texts(params, keys)
  {
    if keys != [] { TextsOfIs(params, keys[..|keys| - 1]); }
  }

  /** The nested calls of a slice return outcomes. */
  ghost predicate ElementsKnown(c: Config, params: Params, name: string, t: Typ, plan: Plan)
    requires c.Ok() && c.TypOk(t) && t.SliceT?
  {
    forall k :: k in params && Indexed(c, name, k) && k in plan.nested ==>
      Outcome(c, params, SliceChild(name, k), t.elem, BindBy(c, params, SliceChild(name, k), t.elem, plan.nested[k]))
  }

  lemma SlicePlan(c: Config, params: Params, name: string, t: Typ, plan: Plan)
    requires c.Ok() && c.TypOk(t) && t.SliceT? && IsPlan(c, params, name, t, plan)
    requires ElementsKnown(c, params, name, t, plan)
    ensures Outcome(c, params, name, t, BindBy(c, params, name, t, plan))
  {
    TopIsExtent(c, params, name, t, plan);
    PlannedListing(params, name, plan.order);
    LooseOfElements(c, params, name, t, plan, plan.order);
    TextsOfIs(params, LooseKeys(params, name, plan.order));
    var svs := ElementsBy(c, params, name, t, plan, plan.order);
    forall i | 0 <= i < Top(svs) ensures SlotOutcome(c, params, name, t, i, SlotOf(c, t.elem, svs, i)) {
      PlannedSlot(c, params, name, t, plan, i);
    }
    PlacedSlice(c, params, name, t, svs, LooseKeys(params, name, plan.order));
  }

  /** The made slice, from what its collected elements are. */
  lemma PlacedSlice(c: Config, params: Params, name: string, t: Typ, svs: seq<SliceValue>, listing: seq<string>)
    requires c.Ok() && c.TypOk(t) && t.SliceT?
    requires Extent(c, params, name, Top(svs)) && Listing(params, name, listing)
    requires forall i :: 0 <= i < Top(svs) ==> SlotOutcome(c, params, name, t, i, SlotOf(c, t.elem, svs, i))
    requires Loose(svs) == TextValues(c, t.elem, Texts(params, listing))
    ensures Outcome(c, params, name, t, SliceV(Placed(c, t.elem, svs)))
  {
    var n, es := Top(svs), Placed(c, t.elem, svs);
    forall i | 0 <= i < n ensures SlotOutcome(c, params, name, t, i, es[i]) {
      assert es[i] == SlotOf(c, t.elem, svs, i);
    }
    TextsAreBound(c, params, name, t, listing);
    assert es[n..] == Loose(svs);
    TwoParts(c, params, name, t, es, n, listing);
    SliceIsOutcome(c, params, name, t, es, n, listing);
  }

  lemma TextIsLoose(c: Config, params: Params, name: string, t: Typ, text: string)
    requires c.Ok() && c.TypOk(t) && t.SliceT? && Slack(params, name) > 0
    ensures LooseOutcome(c, params, name, t, text, BindText(c, text, t.elem))
  {
    TextHasOutcome(c, text, t.elem);
  }

  lemma TextsAreBound(c: Config, params: Params, name: string, t: Typ, listing: seq<string>)
    requires c.Ok() && c.TypOk(t) && t.SliceT? && Listing(params, name, listing)
    ensures AreBound(c, params, name, t, Texts(params, listing), TextValues(c, t.elem, Texts(params, listing)))
  {
    var texts := Texts(params, listing);
    forall j | 0 <= j < |texts| ensures LooseOutcome(c, params, name, t, texts[j], BindText(c, texts[j], t.elem)) {
      UnindexedHasSlack(params, name, listing[0]);
      TextIsLoose(c, params, name, t, texts[j]);
    }
  }

  lemma PlannedListing(params: Params, name: string, order: seq<string>)
    requires IsOrder(params, order)
    ensures Listing(params, name, LooseKeys(params, name, order))
  {
    LooseKeysAre(params, name, order);
    var listing := LooseKeys(params, name, order);
    forall i | 0 <= i < |listing| ensures listing[i] in params && Unindexed(name, listing[i]) {
      assert listing[i] in listing;
    }
  }

  lemma TopIsExtent(c: Config, params: Params, name: string, t: Typ, plan: Plan)
    requires c.Ok() && c.TypOk(t) && t.SliceT? && IsPlan(c, params, name, t, plan)
    ensures Extent(c, params, name, Top(ElementsBy(c, params, name, t, plan, plan.order)))
  {
    var svs := ElementsBy(c, params, name, t, plan, plan.order);
    TopIs(svs);
    forall k | k in params && Indexed(c, name, k) ensures SliceIndex(name, k) < Top(svs) {
      KeyHasElement(c, params, name, t, plan, plan.order, k);
      var j :| 0 <= j < |svs| && svs[j].index == SliceIndex(name, k);
    }
    if Top(svs) > 0 {
      var j: nat :| j < |svs| && svs[j].index == Top(svs) - 1;
      ElementIsFrom(c, params, name, t, plan, plan.order, j);
    }
  }

  lemma PlannedSlot(c: Config, params: Params, name: string, t: Typ, plan: Plan, i: nat)
    requires c.Ok() && c.TypOk(t) && t.SliceT? && IsPlan(c, params, name, t, plan)
    requires ElementsKnown(c, params, name, t, plan)
    ensures SlotOutcome(c, params, name, t, i, SlotOf(c, t.elem, ElementsBy(c, params, name, t, plan, plan.order), i))
  {
    var svs := ElementsBy(c, params, name, t, plan, plan.order);
    SlotOfIs(c, t.elem, svs, i);
    IndexIsFilled(c, params, name, t, plan, i);
    if HasIndex(svs, i) {
      var j: nat :| LastAt(svs, i, j) && svs[j].value == SlotOf(c, t.elem, svs, i);
      ElementIsFrom(c, params, name, t, plan, plan.order, j);
      var k :| k in plan.order && IsElement(c, params, name, t, plan, k, svs[j]);
      SliceChildSmaller(c, params, name, k);
      assert SlotKey(c, params, name, i, k);
    }
  }

  lemma IndexIsFilled(c: Config, params: Params, name: string, t: Typ, plan: Plan, i: nat)
    requires c.Ok() && c.TypOk(t) && t.SliceT? && IsPlan(c, params, name, t, plan)
    ensures HasIndex(ElementsBy(c, params, name, t, plan, plan.order), i) <==> Filled(c, params, name, i)
  {
    var svs := ElementsBy(c, params, name, t, plan, plan.order);
    if Filled(c, params, name, i) {
      var k :| SlotKey(c, params, name, i, k);
      KeyHasElement(c, params, name, t, plan, plan.order, k);
    }
    if HasIndex(svs, i) {
      var j: nat :| j < |svs| && svs[j].index == i;
      ElementIsFrom(c, params, name, t, plan, plan.order, j);
      var k :| k in plan.order && IsElement(c, params, name, t, plan, k, svs[j]);
      assert SlotKey(c, params, name, i, k);
    }
  }

  lemma {:induction false} FieldsAre(c: Config, params: Params, name: string, t: Typ, plan: Plan,
                                     keys: seq<string>, i: nat)
    requires c.Ok() && c.TypOk(t) && t.StructT? && i < |c.structs[t.id]|
    requires forall k :: k in keys && FieldAt(c, name, t.id, k) >= 0 ==> k in plan.nested
    ensures c.TypOk(c.structs[t.id][i].typ)
    ensures var f, v := c.structs[t.id][i], FieldsBy(c, params, name, t, plan, keys)[i];
            if AlreadyBound(c, name, t.id, keys, i)
            then exists k :: k in keys && FieldAt(c, name, t.id, k) == i && k in plan.nested
                          && v == BindBy(c, params, name + "." + f.name, f.typ, plan.nested[k])
            else v == c.Zero(f.typ)
    decreases |keys|
  {
    assert c.FieldsOk(t.id);
    if keys != [] {
      var init, k := keys[..|keys| - 1], keys[|keys| - 1];
      FieldsAre(c, params, name, t, plan, init, i);
      BoundMore(c, name, t.id, init, k, i);
      assert keys == init + [k] && k in keys;
      assert forall x :: x in init ==> x in keys;
    }
  }

  lemma BoundMore(c: Config, name: string, id: nat, keys: seq<string>, k: string, i: int)
    requires id < |c.structs|
    ensures AlreadyBound(c, name, id, keys + [k], i)
        <==> AlreadyBound(c, name, id, keys, i) || FieldAt(c, name, id, k) == i
  {
    if AlreadyBound(c, name, id, keys, i) {
      var j :| 0 <= j < |keys| && FieldAt(c, name, id, keys[j]) == i;
      assert (keys + [k])[j] == keys[j];
    }
    assert (keys + [k])[|keys|] == k;
  }

  lemma StructPlan(c: Config, params: Params, name: string, t: Typ, plan: Plan)
    requires c.Ok() && c.TypOk(t) && t.StructT? && IsPlan(c, params, name, t, plan)
    requires forall k :: k in params && FieldAt(c, name, t.id, k) >= 0 ==>
               assert c.FieldsOk(t.id);
               var f := c.structs[t.id][FieldAt(c, name, t.id, k)];
               var child := name + "." + f.name;
               Outcome(c, params, child, f.typ, BindBy(c, params, child, f.typ, plan.nested[k]))
    ensures Outcome(c, params, name, t, BindBy(c, params, name, t, plan))
  {
    assert c.FieldsOk(t.id);
    var v := BindBy(c, params, name, t, plan);
    forall i | 0 <= i < |v.fields| ensures FieldOutcome(c, params, name, t, i, v.fields[i]) {
      FieldsAre(c, params, name, t, plan, plan.order, i);
      TouchedIsBound(c, params, name, t.id, plan.order, i);
      if c.structs[t.id][i].exported && Touched(params, name, c.structs[t.id][i].name) {
        FieldChildSmaller(params, name, c.structs[t.id][i].name);
      }
    }
  }

  lemma TouchedIsBound(c: Config, params: Params, name: string, id: nat, order: seq<string>, i: nat)
    requires c.Ok() && id < |c.structs| && i < |c.structs[id]| && IsOrder(params, order)
    ensures AlreadyBound(c, name, id, order, i)
        <==> c.structs[id][i].exported && Touched(params, name, c.structs[id][i].name)
  {
    assert c.FieldsOk(id);
    var f := c.structs[id][i];
    if AlreadyBound(c, name, id, order, i) {
      var j :| 0 <= j < |order| && FieldAt(c, name, id, order[j]) == i;
      assert order[j] in params && Touches(name, f.name, order[j]);
    }
    if f.exported && Touched(params, name, f.name) {
      var k :| k in params && Touches(name, f.name, k);
      assert k in order && FieldAt(c, name, id, k) == i;
      var j :| 0 <= j < |order| && order[j] == k;
    }
  }

  predicate IsEntry(c: Config, params: Params, name: string, t: Typ, plan: Plan, k: string, p: Prim, v: Value)
    requires c.Ok() && c.TypOk(t) && t.MapT?
  {
    && MapHit(name, k) && k in plan.nested && p == ParsePrim(t.key, MapText(name, k)).0
    && v == BindBy(c, params, MapChild(name, MapText(name, k)), t.elem, plan.nested[k])
  }

  lemma {:induction false} EntryIsFrom(c: Config, params: Params, name: string, t: Typ, plan: Plan,
                                       keys: seq<string>, p: Prim) returns (k: string)
    requires c.Ok() && c.TypOk(t) && t.MapT? && p in EntriesBy(c, params, name, t, plan, keys)
    ensures k in keys && IsEntry(c, params, name, t, plan, k, p, EntriesBy(c, params, name, t, plan, keys)[p])
    decreases |keys|
  {
    var init, last := keys[..|keys| - 1], keys[|keys| - 1];
    if IsEntry(c, params, name, t, plan, last, p, EntriesBy(c, params, name, t, plan, keys)[p]) {
      k := last;
    } else {
      k := EntryIsFrom(c, params, name, t, plan, init, p);
    }
  }

  lemma {:induction false} KeyHasEntry(c: Config, params: Params, name: string, t: Typ, plan: Plan,
                                       keys: seq<string>, k: string)
    requires c.Ok() && c.TypOk(t) && t.MapT? && k in keys && MapHit(name, k) && k in plan.nested
    ensures ParsePrim(t.key, MapText(name, k)).0 in EntriesBy(c, params, name, t, plan, keys)
    decreases |keys|
  {
    var init, last := keys[..|keys| - 1], keys[|keys| - 1];
    assert keys == init + [last];
    if k in init { KeyHasEntry(c, params, name, t, plan, init, k); } else { assert last == k; }
  }

  lemma MapPlan(c: Config, params: Params, name: string, t: Typ, plan: Plan)
    requires c.Ok() && c.TypOk(t) && t.MapT? && IsPlan(c, params, name, t, plan)
    requires forall k :: k in params && MapHit(name, k) ==>
               var child := MapChild(name, MapText(name, k));
               Outcome(c, params, child, t.elem, BindBy(c, params, child, t.elem, plan.nested[k]))
    ensures Outcome(c, params, name, t, BindBy(c, params, name, t, plan))
  {
    var v := BindBy(c, params, name, t, plan);
    forall k | k in params ensures KeyBound(name, t.key, k, v.entries.Keys) {
      if MapHit(name, k) { KeyHasEntry(c, params, name, t, plan, plan.order, k); }
    }
    forall p | p in v.entries ensures EntryOutcome(c, params, name, t, p, v.entries[p]) {
      var k := EntryIsFrom(c, params, name, t, plan, plan.order, p);
      MapChildSmaller(params, name, k);
    }
  }

  /** What Bind returns for any orders is an outcome. */
  lemma {:induction false} PlanIsOutcome(c: Config, params: Params, name: string, t: Typ, plan: Plan)
    requires c.Ok() && c.TypOk(t) && IsPlan(c, params, name, t, plan)
    ensures Outcome(c, params, name, t, BindBy(c, params, name, t, plan))
    decreases plan, t
  {
    match t
    case Basic(_) =>
    case BytesT =>
    case SliceT(e) =>
      forall k | k in params && Indexed(c, name, k)
        ensures Outcome(c, params, SliceChild(name, k), e, BindBy(c, params, SliceChild(name, k), e, plan.nested[k]))
      {
        PlanIsOutcome(c, params, SliceChild(name, k), e, plan.nested[k]);
      }
      SlicePlan(c, params, name, t, plan);
    case StructT(id) =>
      assert c.FieldsOk(id);
      forall k | k in params && FieldAt(c, name, id, k) >= 0
        ensures var f := c.structs[id][FieldAt(c, name, id, k)];
                var child := name + "." + f.name;
                Outcome(c, params, child, f.typ, BindBy(c, params, child, f.typ, plan.nested[k]))
      {
        var f := c.structs[id][FieldAt(c, name, id, k)];
        PlanIsOutcome(c, params, name + "." + f.name, f.typ, plan.nested[k]);
      }
      StructPlan(c, params, name, t, plan);
    case MapT(_, e) =>
      forall k | k in params && MapHit(name, k)
        ensures var child := MapChild(name, MapText(name, k));
                Outcome(c, params, child, e, BindBy(c, params, child, e, plan.nested[k]))
      {
        PlanIsOutcome(c, params, MapChild(name, MapText(name, k)), e, plan.nested[k]);
      }
      MapPlan(c, params, name, t, plan);
    case PtrT(e) => PlanIsOutcome(c, params, name, e, plan);
  }

  // ----- every outcome has a plan -----

  ghost predicate HasPlan(c: Config, params: Params, name: string, t: Typ)
    requires c.Ok() && c.TypOk(t)
  {
    exists plan :: IsPlan(c, params, name, t, plan)
  }

  /** Bind returns `v` for some orders. */
  ghost predicate CanReturn(c: Config, params: Params, name: string, t: Typ, v: Value)
    requires c.Ok() && c.TypOk(t)
  {
    exists plan :: IsPlan(c, params, name, t, plan) && BindBy(c, params, name, t, plan) == v
  }

  /** A plan that returns `v` if there is one, and otherwise any. */
  ghost function PlanTo(c: Config, params: Params, name: string, t: Typ, v: Value): Plan
    requires c.Ok() && c.TypOk(t)
  {
    if CanReturn(c, params, name, t, v) then
      var plan :| IsPlan(c, params, name, t, plan) && BindBy(c, params, name, t, plan) == v; plan
    else if HasPlan(c, params, name, t) then var plan :| IsPlan(c, params, name, t, plan); plan
    else Plan([], map[])
  }

  lemma PlanToIs(c: Config, params: Params, name: string, t: Typ, v: Value)
    requires c.Ok() && c.TypOk(t) && HasPlan(c, params, name, t)
    ensures IsPlan(c, params, name, t, PlanTo(c, params, name, t, v))
    ensures CanReturn(c, params, name, t, v) ==> BindBy(c, params, name, t, PlanTo(c, params, name, t, v)) == v
  {
  }

  ghost function ListOf(keys: set<string>): (r: seq<string>)
    ensures Distinct(r) && forall k :: k in r <==> k in keys
  {
    if keys == {} then []
    else
      var k :| k in keys;
      var rest := ListOf(keys - {k});
      OneMoreDistinct(rest, k);
      rest + [k]
  }

  lemma DistinctConcat(a: seq<string>, b: seq<string>)
    requires Distinct(a) && Distinct(b) && forall k :: k in a ==> k !in b
    ensures Distinct(a + b)
  {
    var all := a + b;
    forall i, j | 0 <= i < j < |all| ensures all[i] != all[j] {
      if i < |a| <= j { assert a[i] in a && b[j - |a|] in b; }
    }
  }

  /** Nested plans for the elements, fields or entries of `v`. */
  ghost function ElementPlans(c: Config, params: Params, name: string, t: Typ, es: seq<Value>): map<string, Plan>
    requires c.Ok() && c.TypOk(t) && t.SliceT?
  {
    map k | k in params && Indexed(c, name, k) ::
      PlanTo(c, params, SliceChild(name, k), t.elem,
             if SliceIndex(name, k) < |es| then es[SliceIndex(name, k)] else SliceV([]))
  }

  ghost function FieldPlans(c: Config, params: Params, name: string, t: Typ, fs: seq<Value>): map<string, Plan>
    requires c.Ok() && c.TypOk(t) && t.StructT? && |fs| == |c.structs[t.id]|
  {
    map k | k in params && FieldAt(c, name, t.id, k) >= 0 ::
      assert c.FieldsOk(t.id);
      var i := FieldAt(c, name, t.id, k);
      PlanTo(c, params, name + "." + c.structs[t.id][i].name, c.structs[t.id][i].typ, fs[i])
  }

  ghost function EntryPlans(c: Config, params: Params, name: string, t: Typ, m: map<Prim, Value>): map<string, Plan>
    requires c.Ok() && c.TypOk(t) && t.MapT?
  {
    map k | k in params && MapHit(name, k) ::
      var p := ParsePrim(t.key, MapText(name, k)).0;
      PlanTo(c, params, MapChild(name, MapText(name, k)), t.elem, if p in m then m[p] else SliceV([]))
  }

  ghost predicate NestedHavePlans(c: Config, params: Params, name: string, t: Typ)
    requires c.Ok() && c.TypOk(t)
  {
    forall x :: x in Children(c, params, name, t) ==> HasPlan(c, params, x.0, x.1)
  }

  lemma SliceChildHasPlan(c: Config, params: Params, name: string, t: Typ, k: string)
    requires c.Ok() && c.TypOk(t) && t.SliceT? && NestedHavePlans(c, params, name, t)
    requires k in params && Indexed(c, name, k)
    ensures HasPlan(c, params, SliceChild(name, k), t.elem)
  {
    assert (SliceChild(name, k), t.elem) in Children(c, params, name, t);
  }

  lemma ElementHasPlan(c: Config, params: Params, name: string, t: Typ, es: seq<Value>, k: string)
    requires c.Ok() && c.TypOk(t) && t.SliceT? && NestedHavePlans(c, params, name, t)
    requires k in params && Indexed(c, name, k)
    ensures k in ElementPlans(c, params, name, t, es)
    ensures IsPlan(c, params, SliceChild(name, k), t.elem, ElementPlans(c, params, name, t, es)[k])
  {
    SliceChildHasPlan(c, params, name, t, k);
    var i := SliceIndex(name, k);
    PlanToIs(c, params, SliceChild(name, k), t.elem, if i < |es| then es[i] else SliceV([]));
  }

  /** A call has a plan when its nested calls have. */
  lemma SliceHasPlan(c: Config, params: Params, name: string, t: Typ, es: seq<Value>, order: seq<string>)
    requires c.Ok() && c.TypOk(t) && t.SliceT? && IsOrder(params, order) && NestedHavePlans(c, params, name, t)
    ensures IsPlan(c, params, name, t, Plan(order, ElementPlans(c, params, name, t, es)))
  {
    var nested := ElementPlans(c, params, name, t, es);
    forall k | k in params && Indexed(c, name, k)
      ensures k in nested && IsPlan(c, params, SliceChild(name, k), t.elem, nested[k])
    {
      ElementHasPlan(c, params, name, t, es, k);
    }
    SliceIsPlan(c, params, name, t, order, nested);
  }

  lemma SliceIsPlan(c: Config, params: Params, name: string, t: Typ, order: seq<string>, nested: map<string, Plan>)
    requires c.Ok() && c.TypOk(t) && t.SliceT? && IsOrder(params, order)
    requires forall k :: k in params && Indexed(c, name, k) ==>
               k in nested && IsPlan(c, params, SliceChild(name, k), t.elem, nested[k])
    ensures IsPlan(c, params, name, t, Plan(order, nested))
  {
  }

  lemma StructHasPlan(c: Config, params: Params, name: string, t: Typ, fs: seq<Value>, order: seq<string>)
    requires c.Ok() && c.TypOk(t) && t.StructT? && IsOrder(params, order) && NestedHavePlans(c, params, name, t)
    requires |fs| == |c.structs[t.id]|
    ensures IsPlan(c, params, name, t, Plan(order, FieldPlans(c, params, name, t, fs)))
  {
    assert c.FieldsOk(t.id);
    forall k | k in params && FieldAt(c, name, t.id, k) >= 0
      ensures var f := c.structs[t.id][FieldAt(c, name, t.id, k)];
              IsPlan(c, params, name + "." + f.name, f.typ, FieldPlans(c, params, name, t, fs)[k])
    {
      var f := c.structs[t.id][FieldAt(c, name, t.id, k)];
      assert Touches(name, f.name, k);
      assert (name + "." + f.name, f.typ) in Children(c, params, name, t);
    }
  }

  lemma MapChildHasPlan(c: Config, params: Params, name: string, t: Typ, k: string)
    requires c.Ok() && c.TypOk(t) && t.MapT? && NestedHavePlans(c, params, name, t) && k in params && MapHit(name, k)
    ensures HasPlan(c, params, MapChild(name, MapText(name, k)), t.elem)
  {
    assert (MapChild(name, MapText(name, k)), t.elem) in Children(c, params, name, t);
  }

  lemma EntryHasPlan(c: Config, params: Params, name: string, t: Typ, m: map<Prim, Value>, k: string)
    requires c.Ok() && c.TypOk(t) && t.MapT? && NestedHavePlans(c, params, name, t) && k in params && MapHit(name, k)
    ensures k in EntryPlans(c, params, name, t, m)
    ensures IsPlan(c, params, MapChild(name, MapText(name, k)), t.elem, EntryPlans(c, params, name, t, m)[k])
  {
    MapChildHasPlan(c, params, name, t, k);
    var p := ParsePrim(t.key, MapText(name, k)).0;
    PlanToIs(c, params, MapChild(name, MapText(name, k)), t.elem, if p in m then m[p] else SliceV([]));
  }

  lemma MapHasPlan(c: Config, params: Params, name: string, t: Typ, m: map<Prim, Value>, order: seq<string>)
    requires c.Ok() && c.TypOk(t) && t.MapT? && IsOrder(params, order) && NestedHavePlans(c, params, name, t)
    ensures IsPlan(c, params, name, t, Plan(order, EntryPlans(c, params, name, t, m)))
  {
    forall k | k in params && MapHit(name, k)
      ensures k in EntryPlans(c, params, name, t, m)
      ensures IsPlan(c, params, MapChild(name, MapText(name, k)), t.elem, EntryPlans(c, params, name, t, m)[k])
    {
      EntryHasPlan(c, params, name, t, m, k);
    }
  }

  /** Every call has a plan. */
  lemma {:induction false} SomePlan(c: Config, params: Params, name: string, t: Typ)
    requires c.Ok() && c.TypOk(t)
    ensures HasPlan(c, params, name, t)
    decreases Slack(params, name), PtrDepth(t)
  {
    forall x | x in Children(c, params, name, t) ensures HasPlan(c, params, x.0, x.1) {
      SomePlan(c, params, x.0, x.1);
    }
    var order := ListOf(params.Keys);
    match t
    case Basic(_) => assert IsPlan(c, params, name, t, Plan([], map[]));
    case BytesT => assert IsPlan(c, params, name, t, Plan([], map[]));
    case SliceT(_) => SliceHasPlan(c, params, name, t, [], order);
    case StructT(_) => StructHasPlan(c, params, name, t, c.Zero(t).fields, order);
    case MapT(_, _) => MapHasPlan(c, params, name, t, map[], order);
    case PtrT(e) =>
      assert (name, e) in Children(c, params, name, t);
      var plan :| IsPlan(c, params, name, e, plan);
      assert IsPlan(c, params, name, t, plan);
  }

  lemma EveryNested(c: Config, params: Params, name: string, t: Typ)
    requires c.Ok() && c.TypOk(t)
    ensures NestedHavePlans(c, params, name, t)
  {
    forall x | x in Children(c, params, name, t) ensures HasPlan(c, params, x.0, x.1) {
      SomePlan(c, params, x.0, x.1);
    }
  }

  // ----- the last key of an index or of an entry -----

  lemma {:induction false} SlotOfConcat(c: Config, elem: Typ, a: seq<SliceValue>, b: seq<SliceValue>, i: nat)
    requires c.Ok() && c.TypOk(elem) && forall j :: 0 <= j < |b| ==> b[j].index != i
    ensures SlotOf(c, elem, a + b, i) == SlotOf(c, elem, a, i)
    decreases |b|
  {
    if b == [] {
      assert a + b == a;
    } else {
      assert (a + b)[..|a + b| - 1] == a + b[..|b| - 1];
      SlotOfConcat(c, elem, a, b[..|b| - 1], i);
    }
  }

  /** No key from position `from` on has the index. */
  ghost predicate NoneAfter(c: Config, name: string, keys: seq<string>, from: nat, i: nat) {
    forall q :: from <= q < |keys| ==> !(Indexed(c, name, keys[q]) && SliceIndex(name, keys[q]) == i)
  }

  lemma {:induction false} LastKeyWins(c: Config, params: Params, name: string, t: Typ, plan: Plan,
                                       keys: seq<string>, pos: nat)
    requires c.Ok() && c.TypOk(t) && t.SliceT? && pos < |keys|
    requires Indexed(c, name, keys[pos]) && keys[pos] in plan.nested
    requires NoneAfter(c, name, keys, pos + 1, SliceIndex(name, keys[pos]))
    ensures SlotOf(c, t.elem, ElementsBy(c, params, name, t, plan, keys), SliceIndex(name, keys[pos]))
         == BindBy(c, params, SliceChild(name, keys[pos]), t.elem, plan.nested[keys[pos]])
    decreases |keys|
  {
    if pos < |keys| - 1 {
      var init, last, i := keys[..|keys| - 1], keys[|keys| - 1], SliceIndex(name, keys[pos]);
      LastKeyWins(c, params, name, t, plan, init, pos);
      var before := ElementsBy(c, params, name, t, plan, init);
      if Indexed(c, name, last) && last in plan.nested {
        var v := BindBy(c, params, SliceChild(name, last), t.elem, plan.nested[last]);
        var sv := SliceValue(SliceIndex(name, last), v);
        SlotOfConcat(c, t.elem, before, [sv], i);
      } else if last in params && Unindexed(name, last) {
        SlotOfConcat(c, t.elem, before, LooseValues(c, t.elem, params[last]), i);
      }
    }
  }

  ghost predicate NoHitAfter(key: Scalar, name: string, keys: seq<string>, from: nat, p: Prim) {
    forall q :: from <= q < |keys| ==> !(MapHit(name, keys[q]) && ParsePrim(key, MapText(name, keys[q])).0 == p)
  }

  lemma {:induction false} LastHitWins(c: Config, params: Params, name: string, t: Typ, plan: Plan,
                                       keys: seq<string>, pos: nat)
    requires c.Ok() && c.TypOk(t) && t.MapT? && pos < |keys| && MapHit(name, keys[pos]) && keys[pos] in plan.nested
    requires NoHitAfter(t.key, name, keys, pos + 1, ParsePrim(t.key, MapText(name, keys[pos])).0)
    ensures var p, m := ParsePrim(t.key, MapText(name, keys[pos])).0, EntriesBy(c, params, name, t, plan, keys);
            var child := MapChild(name, MapText(name, keys[pos]));
            p in m && m[p] == BindBy(c, params, child, t.elem, plan.nested[keys[pos]])
    decreases |keys|
  {
    if pos < |keys| - 1 { LastHitWins(c, params, name, t, plan, keys[..|keys| - 1], pos); }
  }

  lemma {:induction false} LooseKeysConcat(params: Params, name: string, a: seq<string>, b: seq<string>)
    ensures LooseKeys(params, name, a + b) == LooseKeys(params, name, a) + LooseKeys(params, name, b)
    decreases |b|
  {
    if b == [] {
      assert a + b == a;
    } else {
      assert (a + b)[..|a + b| - 1] == a + b[..|b| - 1];
      LooseKeysConcat(params, name, a, b[..|b| - 1]);
    }
  }

  lemma {:induction false} AllLoose(params: Params, name: string, keys: seq<string>)
    requires forall i :: 0 <= i < |keys| ==> keys[i] in params && Unindexed(name, keys[i])
    ensures LooseKeys(params, name, keys) == keys
  {
    if keys != [] {
      AllLoose(params, name, keys[..|keys| - 1]);
      assert keys == keys[..|keys| - 1] + [keys[|keys| - 1]];
    }
  }

  lemma NoneLoose(params: Params, name: string, keys: seq<string>)
    requires forall k :: k in keys ==> !Unindexed(name, k)
    ensures LooseKeys(params, name, keys) == []
  {
    LooseKeysAre(params, name, keys);
    if LooseKeys(params, name, keys) != [] { assert LooseKeys(params, name, keys)[0] in LooseKeys(params, name, keys); }
  }

  // ----- choosing the orders for a given outcome -----

  /** A key that is bound to the element at position `i`. */
  ghost predicate Gives(c: Config, params: Params, name: string, t: Typ, es: seq<Value>, i: nat, k: string)
    requires c.Ok() && c.TypOk(t) && t.SliceT? && i < |es|
  {
    SlotKey(c, params, name, i, k) && Outcome(c, params, SliceChild(name, k), t.elem, es[i])
  }

  ghost function Chosen(c: Config, params: Params, name: string, t: Typ, es: seq<Value>, i: nat): string
    requires c.Ok() && c.TypOk(t) && t.SliceT? && i < |es|
  {
    if exists k :: Gives(c, params, name, t, es, i, k) then var k :| Gives(c, params, name, t, es, i, k); k else ""
  }

  ghost predicate IsChosen(c: Config, params: Params, name: string, t: Typ, es: seq<Value>, k: string)
    requires c.Ok() && c.TypOk(t) && t.SliceT?
  {
    && k in params && Indexed(c, name, k) && SliceIndex(name, k) < |es|
    && k == Chosen(c, params, name, t, es, SliceIndex(name, k))
  }

  /** The keys that give the elements come last, and the un-indexed ones in their order before them. */
  ghost function SliceOrder(c: Config, params: Params, name: string, t: Typ, es: seq<Value>,
                            loose: seq<string>): seq<string>
    requires c.Ok() && c.TypOk(t) && t.SliceT?
  {
    ListOf(set k | k in params && !Unindexed(name, k) && !IsChosen(c, params, name, t, es, k))
    + loose + ListOf(set k | k in params && IsChosen(c, params, name, t, es, k))
  }

  lemma SliceOrderIs(c: Config, params: Params, name: string, t: Typ, es: seq<Value>, loose: seq<string>)
    requires c.Ok() && c.TypOk(t) && t.SliceT? && Listing(params, name, loose)
    ensures IsOrder(params, SliceOrder(c, params, name, t, es, loose))
    ensures LooseKeys(params, name, SliceOrder(c, params, name, t, es, loose)) == loose
  {
    var a := set k | k in params && !Unindexed(name, k) && !IsChosen(c, params, name, t, es, k);
    var b := set k | k in params && IsChosen(c, params, name, t, es, k);
    assert forall k :: k in loose <==> k in params && Unindexed(name, k);
    PartsAreOrder(params, a, loose, b);
    PartsLoose(params, name, a, loose, b);
  }

  lemma PartsAreOrder(params: Params, a: set<string>, loose: seq<string>, b: set<string>)
    requires Distinct(loose) && forall k :: k in loose ==> k !in a && k !in b
    requires a !! b && forall k :: k in params <==> k in a || k in loose || k in b
    ensures IsOrder(params, ListOf(a) + loose + ListOf(b))
  {
    DistinctConcat(ListOf(a), loose);
    DistinctConcat(ListOf(a) + loose, ListOf(b));
  }

  lemma PartsLoose(params: Params, name: string, a: set<string>, loose: seq<string>, b: set<string>)
    requires forall k :: k in a || k in b ==> !Unindexed(name, k)
    requires forall i :: 0 <= i < |loose| ==> loose[i] in params && Unindexed(name, loose[i])
    ensures LooseKeys(params, name, ListOf(a) + loose + ListOf(b)) == loose
  {
    LooseKeysConcat(params, name, ListOf(a) + loose, ListOf(b));
    LooseKeysConcat(params, name, ListOf(a), loose);
    NoneLoose(params, name, ListOf(a));
    NoneLoose(params, name, ListOf(b));
    AllLoose(params, name, loose);
    assert [] + loose + [] == loose;
  }

  /** The chosen key of a position is the last one with its index. */
  lemma ChosenIsLast(c: Config, params: Params, name: string, t: Typ, es: seq<Value>, loose: seq<string>, i: nat)
    returns (pos: nat)
    requires c.Ok() && c.TypOk(t) && t.SliceT? && Listing(params, name, loose) && i < |es|
    requires exists k :: Gives(c, params, name, t, es, i, k)
    ensures var order := SliceOrder(c, params, name, t, es, loose);
            && pos < |order| && Gives(c, params, name, t, es, i, order[pos])
            && NoneAfter(c, name, order, pos + 1, i)
  {
    var order, k := SliceOrder(c, params, name, t, es, loose), Chosen(c, params, name, t, es, i);
    var last := set x | x in params && IsChosen(c, params, name, t, es, x);
    assert IsChosen(c, params, name, t, es, k);
    var front := ListOf(set x | x in params && !Unindexed(name, x) && !IsChosen(c, params, name, t, es, x));
    pos := InLastPart(front + loose, last, k);
    forall q | pos + 1 <= q < |order|
      ensures !(Indexed(c, name, order[q]) && SliceIndex(name, order[q]) == i)
    {
      assert order[q] in last && order[q] != k;
    }
  }

  /** A key of the last part, and nothing but other keys of it after that. */
  lemma InLastPart(front: seq<string>, last: set<string>, k: string) returns (pos: nat)
    requires k in last
    ensures var order := front + ListOf(last);
            && pos < |order| && order[pos] == k
            && forall q :: pos < q < |order| ==> order[q] in last && order[q] != k
  {
    var b := ListOf(last);
    assert k in b;
    var j: nat :| j < |b| && b[j] == k;
    pos := |front| + j;
    var order := front + b;
    forall q | pos < q < |order| ensures order[q] in last && order[q] != k {
      assert order[q] == b[q - |front|] && b[q - |front|] in b && b[j] != b[q - |front|];
    }
  }

  /** The nested calls can return each of their outcomes. */
  ghost predicate NestedReturn(c: Config, params: Params, name: string, t: Typ)
    requires c.Ok() && c.TypOk(t)
  {
    forall x, v :: x in Children(c, params, name, t) && Outcome(c, params, x.0, x.1, v) ==>
      CanReturn(c, params, x.0, x.1, v)
  }

  lemma FilledReturned(c: Config, params: Params, name: string, t: Typ, es: seq<Value>, loose: seq<string>,
                       i: nat, plan: Plan)
    requires c.Ok() && c.TypOk(t) && t.SliceT? && Listing(params, name, loose) && i < |es|
    requires exists k :: Gives(c, params, name, t, es, i, k)
    requires NestedHavePlans(c, params, name, t) && NestedReturn(c, params, name, t)
    requires plan == Plan(SliceOrder(c, params, name, t, es, loose), ElementPlans(c, params, name, t, es))
    ensures SlotOf(c, t.elem, ElementsBy(c, params, name, t, plan, plan.order), i) == es[i]
  {
    var pos := ChosenIsLast(c, params, name, t, es, loose, i);
    var k := plan.order[pos];
    KeyReturns(c, params, name, t, es, i, k);
    LastKeyWins(c, params, name, t, plan, plan.order, pos);
  }

  lemma KeyReturns(c: Config, params: Params, name: string, t: Typ, es: seq<Value>, i: nat, k: string)
    requires c.Ok() && c.TypOk(t) && t.SliceT? && i < |es| && Gives(c, params, name, t, es, i, k)
    requires NestedHavePlans(c, params, name, t) && NestedReturn(c, params, name, t)
    ensures k in ElementPlans(c, params, name, t, es)
    ensures BindBy(c, params, SliceChild(name, k), t.elem, ElementPlans(c, params, name, t, es)[k]) == es[i]
  {
    assert (SliceChild(name, k), t.elem) in Children(c, params, name, t);
    PlanToIs(c, params, SliceChild(name, k), t.elem, es[i]);
  }

  lemma UnfilledReturned(c: Config, params: Params, name: string, t: Typ, i: nat, plan: Plan)
    requires c.Ok() && c.TypOk(t) && t.SliceT? && IsPlan(c, params, name, t, plan) && !Filled(c, params, name, i)
    ensures SlotOf(c, t.elem, ElementsBy(c, params, name, t, plan, plan.order), i) == c.Zero(t.elem)
  {
    IndexIsFilled(c, params, name, t, plan, i);
    SlotOfIs(c, t.elem, ElementsBy(c, params, name, t, plan, plan.order), i);
  }

  lemma SlotReturned(c: Config, params: Params, name: string, t: Typ, es: seq<Value>, loose: seq<string>,
                     i: nat, plan: Plan)
    requires c.Ok() && c.TypOk(t) && t.SliceT? && Listing(params, name, loose) && i < |es|
    requires SlotOutcome(c, params, name, t, i, es[i]) && IsPlan(c, params, name, t, plan)
    requires NestedHavePlans(c, params, name, t) && NestedReturn(c, params, name, t)
    requires plan == Plan(SliceOrder(c, params, name, t, es, loose), ElementPlans(c, params, name, t, es))
    ensures SlotOf(c, t.elem, ElementsBy(c, params, name, t, plan, plan.order), i) == es[i]
  {
    if Filled(c, params, name, i) {
      var g :| SlotKey(c, params, name, i, g) && Outcome(c, params, SliceChild(name, g), t.elem, es[i]);
      assert Gives(c, params, name, t, es, i, g);
      FilledReturned(c, params, name, t, es, loose, i, plan);
    } else {
      UnfilledReturned(c, params, name, t, i, plan);
    }
  }

  lemma LooseReturned(c: Config, params: Params, name: string, t: Typ, es: seq<Value>, n: nat, loose: seq<string>)
    requires c.Ok() && c.TypOk(t) && t.SliceT? && SliceOutcome(c, params, name, t, es, n, loose)
    ensures es[n..] == TextValues(c, t.elem, Texts(params, loose))
  {
    var texts := Texts(params, loose);
    forall j | 0 <= j < |texts| ensures es[n..][j] == BindText(c, texts[j], t.elem) {
      assert LooseOutcome(c, params, name, t, texts[j], es[n + j]);
      BindTextIs(c, texts[j], t.elem, es[n + j]);
    }
  }

  lemma SliceReturned(c: Config, params: Params, name: string, t: Typ, es: seq<Value>, n: nat, loose: seq<string>)
    requires c.Ok() && c.TypOk(t) && t.SliceT? && SliceOutcome(c, params, name, t, es, n, loose)
    requires NestedHavePlans(c, params, name, t) && NestedReturn(c, params, name, t)
    ensures CanReturn(c, params, name, t, SliceV(es))
  {
    var plan := Plan(SliceOrder(c, params, name, t, es, loose), ElementPlans(c, params, name, t, es));
    var svs := ElementsBy(c, params, name, t, plan, plan.order);
    SliceOrderIs(c, params, name, t, es, loose);
    SliceHasPlan(c, params, name, t, es, plan.order);
    TopIsExtent(c, params, name, t, plan);
    ExtentUnique(c, params, name, n, Top(svs));
    LooseReturned(c, params, name, t, es, n, loose);
    LooseOfElements(c, params, name, t, plan, plan.order);
    TextsOfIs(params, loose);
    forall i | 0 <= i < n ensures SlotOf(c, t.elem, svs, i) == es[i] {
      SlotReturned(c, params, name, t, es, loose, i, plan);
    }
    PlacedIs(c, t.elem, svs, es, n);
    assert BindBy(c, params, name, t, plan) == SliceV(es);
  }

  lemma PlacedIs(c: Config, elem: Typ, svs: seq<SliceValue>, es: seq<Value>, n: nat)
    requires c.Ok() && c.TypOk(elem) && Top(svs) == n <= |es| && Loose(svs) == es[n..]
    requires forall i :: 0 <= i < n ==> SlotOf(c, elem, svs, i) == es[i]
    ensures Placed(c, elem, svs) == es
  {
    assert Placed(c, elem, svs)[n..] == Loose(svs);
    SameParts(Placed(c, elem, svs), es, n);
  }

  lemma StructReturned(c: Config, params: Params, name: string, t: Typ, v: Value)
    requires c.Ok() && c.TypOk(t) && t.StructT? && Outcome(c, params, name, t, v)
    requires NestedHavePlans(c, params, name, t) && NestedReturn(c, params, name, t)
    ensures CanReturn(c, params, name, t, v)
  {
    assert c.FieldsOk(t.id);
    var plan := Plan(ListOf(params.Keys), FieldPlans(c, params, name, t, v.fields));
    StructHasPlan(c, params, name, t, v.fields, plan.order);
    var r := BindBy(c, params, name, t, plan);
    forall i | 0 <= i < |v.fields| ensures r.fields[i] == v.fields[i] {
      FieldReturned(c, params, name, t, v, i);
    }
    assert r == v;
  }

  lemma FieldReturned(c: Config, params: Params, name: string, t: Typ, v: Value, i: nat)
    requires c.Ok() && c.TypOk(t) && t.StructT? && Outcome(c, params, name, t, v) && i < |v.fields|
    requires NestedHavePlans(c, params, name, t) && NestedReturn(c, params, name, t)
    ensures var plan := Plan(ListOf(params.Keys), FieldPlans(c, params, name, t, v.fields));
            FieldsBy(c, params, name, t, plan, plan.order)[i] == v.fields[i]
  {
    assert c.FieldsOk(t.id);
    var plan := Plan(ListOf(params.Keys), FieldPlans(c, params, name, t, v.fields));
    FieldsAre(c, params, name, t, plan, plan.order, i);
    TouchedIsBound(c, params, name, t.id, plan.order, i);
    assert FieldOutcome(c, params, name, t, i, v.fields[i]);
    var f := c.structs[t.id][i];
    if AlreadyBound(c, name, t.id, plan.order, i) {
      assert (name + "." + f.name, f.typ) in Children(c, params, name, t);
      PlanToIs(c, params, name + "." + f.name, f.typ, v.fields[i]);
    }
  }

  // ----- maps -----

  ghost predicate GivesEntry(c: Config, params: Params, name: string, t: Typ, m: map<Prim, Value>, p: Prim, k: string)
    requires c.Ok() && c.TypOk(t) && t.MapT? && p in m
  {
    && k in params && MapHit(name, k) && ParsePrim(t.key, MapText(name, k)).0 == p
    && Outcome(c, params, MapChild(name, MapText(name, k)), t.elem, m[p])
  }

  ghost function ChosenHit(c: Config, params: Params, name: string, t: Typ, m: map<Prim, Value>, p: Prim): string
    requires c.Ok() && c.TypOk(t) && t.MapT? && p in m
  {
    if exists k :: GivesEntry(c, params, name, t, m, p, k) then
      var k :| GivesEntry(c, params, name, t, m, p, k);
      k
    else ""
  }

  ghost predicate IsChosenHit(c: Config, params: Params, name: string, t: Typ, m: map<Prim, Value>, k: string)
    requires c.Ok() && c.TypOk(t) && t.MapT?
  {
    && k in params && MapHit(name, k)
    && var p := ParsePrim(t.key, MapText(name, k)).0;
       p in m && k == ChosenHit(c, params, name, t, m, p)
  }

  ghost function MapOrder(c: Config, params: Params, name: string, t: Typ, m: map<Prim, Value>): seq<string>
    requires c.Ok() && c.TypOk(t) && t.MapT?
  {
    ListOf(set k | k in params && !IsChosenHit(c, params, name, t, m, k))
    + ListOf(set k | k in params && IsChosenHit(c, params, name, t, m, k))
  }

  lemma ChosenHitIsLast(c: Config, params: Params, name: string, t: Typ, m: map<Prim, Value>, p: Prim)
    returns (pos: nat)
    requires c.Ok() && c.TypOk(t) && t.MapT? && p in m && exists k :: GivesEntry(c, params, name, t, m, p, k)
    ensures var order := MapOrder(c, params, name, t, m);
            && pos < |order| && GivesEntry(c, params, name, t, m, p, order[pos])
            && NoHitAfter(t.key, name, order, pos + 1, p)
  {
    var order, k := MapOrder(c, params, name, t, m), ChosenHit(c, params, name, t, m, p);
    var last := set x | x in params && IsChosenHit(c, params, name, t, m, x);
    assert IsChosenHit(c, params, name, t, m, k);
    pos := InLastPart(ListOf(set x | x in params && !IsChosenHit(c, params, name, t, m, x)), last, k);
    forall q | pos + 1 <= q < |order|
      ensures !(MapHit(name, order[q]) && ParsePrim(t.key, MapText(name, order[q])).0 == p)
    {
      assert order[q] in last && order[q] != k;
    }
  }

  lemma MapReturned(c: Config, params: Params, name: string, t: Typ, v: Value)
    requires c.Ok() && c.TypOk(t) && t.MapT? && Outcome(c, params, name, t, v)
    requires NestedHavePlans(c, params, name, t) && NestedReturn(c, params, name, t)
    ensures CanReturn(c, params, name, t, v)
  {
    var m := v.entries;
    var plan := Plan(MapOrder(c, params, name, t, m), EntryPlans(c, params, name, t, m));
    MapOrderIs(c, params, name, t, m);
    MapHasPlan(c, params, name, t, m, plan.order);
    EntriesReturned(c, params, name, t, v, plan);
    assert BindBy(c, params, name, t, plan) == v;
  }

  lemma EntriesReturned(c: Config, params: Params, name: string, t: Typ, v: Value, plan: Plan)
    requires c.Ok() && c.TypOk(t) && t.MapT? && Outcome(c, params, name, t, v)
    requires NestedHavePlans(c, params, name, t) && NestedReturn(c, params, name, t)
    requires IsOrder(params, plan.order)
    requires plan == Plan(MapOrder(c, params, name, t, v.entries), EntryPlans(c, params, name, t, v.entries))
    ensures EntriesBy(c, params, name, t, plan, plan.order) == v.entries
  {
    var m, r := v.entries, EntriesBy(c, params, name, t, plan, plan.order);
    forall p | p in m ensures p in r && r[p] == m[p] { EntryReturned(c, params, name, t, v, p); }
    forall p | p in r ensures p in m {
      var k := EntryIsFrom(c, params, name, t, plan, plan.order, p);
      assert KeyBound(name, t.key, k, m.Keys);
    }
  }

  lemma MapOrderIs(c: Config, params: Params, name: string, t: Typ, m: map<Prim, Value>)
    requires c.Ok() && c.TypOk(t) && t.MapT?
    ensures IsOrder(params, MapOrder(c, params, name, t, m))
  {
    DistinctConcat(ListOf(set k | k in params && !IsChosenHit(c, params, name, t, m, k)),
                   ListOf(set k | k in params && IsChosenHit(c, params, name, t, m, k)));
  }

  lemma EntryReturned(c: Config, params: Params, name: string, t: Typ, v: Value, p: Prim)
    requires c.Ok() && c.TypOk(t) && t.MapT? && Outcome(c, params, name, t, v) && p in v.entries
    requires NestedHavePlans(c, params, name, t) && NestedReturn(c, params, name, t)
    ensures var plan := Plan(MapOrder(c, params, name, t, v.entries), EntryPlans(c, params, name, t, v.entries));
            var r := EntriesBy(c, params, name, t, plan, plan.order);
            p in r && r[p] == v.entries[p]
  {
    var m := v.entries;
    var plan := Plan(MapOrder(c, params, name, t, m), EntryPlans(c, params, name, t, m));
    assert EntryOutcome(c, params, name, t, p, m[p]);
    var g :| g in params && MapHit(name, g) && ParsePrim(t.key, MapText(name, g)).0 == p
          && Outcome(c, params, MapChild(name, MapText(name, g)), t.elem, m[p]);
    assert GivesEntry(c, params, name, t, m, p, g);
    var pos := ChosenHitIsLast(c, params, name, t, m, p);
    var k := plan.order[pos];
    assert (MapChild(name, MapText(name, k)), t.elem) in Children(c, params, name, t);
    PlanToIs(c, params, MapChild(name, MapText(name, k)), t.elem, m[p]);
    LastHitWins(c, params, name, t, plan, plan.order, pos);
  }

  lemma PointerReturned(c: Config, params: Params, name: string, t: Typ, v: Value)
    requires c.Ok() && c.TypOk(t) && t.PtrT? && Outcome(c, params, name, t, v)
    requires NestedHavePlans(c, params, name, t) && NestedReturn(c, params, name, t)
    ensures CanReturn(c, params, name, t, v)
  {
    assert (name, t.elem) in Children(c, params, name, t);
    var plan := PlanTo(c, params, name, t.elem, if v.PtrV? then v.to else v);
    PlanToIs(c, params, name, t.elem, if v.PtrV? then v.to else v);
    assert IsPlan(c, params, name, t, plan);
    if v.PtrV? { assert v == PtrV(v.to); }
    assert BindBy(c, params, name, t, plan) == v;
  }

  lemma AnyPlanReturns(c: Config, params: Params, name: string, t: Typ, v: Value)
    requires c.Ok() && c.TypOk(t) && (t.Basic? || t.BytesT?) && Outcome(c, params, name, t, v)
    ensures CanReturn(c, params, name, t, v)
  {
    var plan := Plan([], map[]);
    assert BindBy(c, params, name, t, plan) == v && IsPlan(c, params, name, t, plan);
  }

  /** Bind returns each of its outcomes for some orders. */
  lemma {:induction false} OutcomeIsReturned(c: Config, params: Params, name: string, t: Typ, v: Value)
    requires c.Ok() && c.TypOk(t) && Outcome(c, params, name, t, v)
    ensures CanReturn(c, params, name, t, v)
    decreases Slack(params, name), PtrDepth(t)
  {
    EveryNested(c, params, name, t);
    forall x, w | x in Children(c, params, name, t) && Outcome(c, params, x.0, x.1, w)
      ensures CanReturn(c, params, x.0, x.1, w)
    {
      OutcomeIsReturned(c, params, x.0, x.1, w);
    }
    match t
    case Basic(_) => AnyPlanReturns(c, params, name, t, v);
    case BytesT => AnyPlanReturns(c, params, name, t, v);
    case SliceT(_) =>
      var n: nat, loose: seq<string> :| SliceOutcome(c, params, name, t, v.elems, n, loose);
      SliceReturned(c, params, name, t, v.elems, n, loose);
    case StructT(_) => StructReturned(c, params, name, t, v);
    case MapT(_, _) => MapReturned(c, params, name, t, v);
    case PtrT(_) => PointerReturned(c, params, name, t, v);
  }

  lemma ReturnedIsOutcome(c: Config, params: Params, name: string, t: Typ, v: Value)
    requires c.Ok() && c.TypOk(t) && CanReturn(c, params, name, t, v)
    ensures Outcome(c, params, name, t, v)
  {
    var plan :| IsPlan(c, params, name, t, plan) && BindBy(c, params, name, t, plan) == v;
    PlanIsOutcome(c, params, name, t, plan);
  }

  /** Outcome holds of exactly the values that Bind returns for some orders of its calls. */
  lemma OutcomeIff(c: Config, params: Params, name: string, t: Typ, v: Value)
    requires c.Ok() && c.TypOk(t)
    ensures Outcome(c, params, name, t, v) <==> CanReturn(c, params, name, t, v)
  {
    if Outcome(c, params, name, t, v) { OutcomeIsReturned(c, params, name, t, v); }
    if CanReturn(c, params, name, t, v) { ReturnedIsOutcome(c, params, name, t, v); }
  }

  /** Every call has an outcome. */
  lemma SomeOutcome(c: Config, params: Params, name: string, t: Typ)
    requires c.Ok() && c.TypOk(t)
    ensures exists v :: Outcome(c, params, name, t, v)
  {
    SomePlan(c, params, name, t);
    var plan :| IsPlan(c, params, name, t, plan);
    PlanIsOutcome(c, params, name, t, plan);
  }
}
