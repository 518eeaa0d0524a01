/** Bind over the entries that Unbind wrote: what comes back, for every value, and when it is the value itself. */
module BindRoundTrip {
  import opened Text
  import opened Decimal
  import opened BinderTypes
  import opened UnbindSpec
  import opened UnbindKeys
  import opened BindSpec

  /** The parameters at and below `name` are exactly the pairs `ws`; any others may be there too. */
  ghost predicate Holds(params: Params, name: string, ws: set<(string, string)>) {
    && (forall w :: w in ws ==> w.0 in params && params[w.0] == [w.1])
    && (forall k :: k in params && Under(name, k) ==> k in Keys(ws))
  }

  // ----- the value that comes back -----

  /** The types whose bound values are addressable, so that a pointer to them survives. */
  predicate Pointable(t: Typ) {
    (t.Basic? && (t.s.IntT? || t.s.UintT?)) || t.StructT? || t.MapT?
  }

  function Least(a: int, b: int): int { if a < b then a else b }

  /** How many of the first `n` elements are left once silent ones are dropped from the end. */
  function Visible(c: Config, t: Typ, v: Value, n: int): (r: nat)
    requires c.Ok() && c.TypOk(t) && c.HasType(t, v) && v.SliceV? && n <= |v.elems|
    ensures r <= n || r == 0
    ensures r > 0 ==> !Silent(c, t.elem, v.elems[r - 1])
    ensures forall i :: r <= i < n ==> Silent(c, t.elem, v.elems[i])
  {
    if n <= 0 then 0 else if !Silent(c, t.elem, v.elems[n - 1]) then n else Visible(c, t, v, n - 1)
  }

  /** The length that Norm gives a slice. */
  function VisibleLength(c: Config, t: Typ, v: Value): nat
    requires c.Ok() && c.TypOk(t) && c.HasType(t, v) && v.SliceV?
  {
    Visible(c, t, v, Least(|v.elems|, c.maxIndex + 1))
  }

  /** What Bind makes of the entries of `v`. */
  function Norm(c: Config, t: Typ, v: Value): Value
    requires c.Ok() && c.TypOk(t) && c.HasType(t, v)
    decreases v
  {
    match v
    case PrimV(_) => v
    case BytesV(_) => BytesV("")
    case NilPtr => NilPtr
    case PtrV(p) => if Pointable(t.elem) then PtrV(Norm(c, t.elem, p)) else NilPtr
    case SliceV(es) =>
      SliceV(seq(VisibleLength(c, t, v), i requires 0 <= i < |es| =>
                   if Silent(c, t.elem, es[i]) then c.Zero(t.elem) else Norm(c, t.elem, es[i])))
    case StructV(fs) =>
      assert c.FieldsOk(t.id);
      StructV(seq(|fs|, i requires 0 <= i < |fs| =>
        var f := c.structs[t.id][i];
        if !f.exported || Silent(c, f.typ, fs[i]) then c.Zero(f.typ) else Norm(c, f.typ, fs[i])))
    case MapV(m) => MapV(map k | k in m && !Silent(c, t.elem, m[k]) :: Norm(c, t.elem, m[k]))
  }

  // ----- parameters and steps -----

  /** Going one step down keeps the correspondence: no other step owns parameters below this one. */
  lemma SubHolds(c: Config, params: Params, name: string, t: Typ, v: Value, s: Step)
    requires c.Ok() && c.TypOk(t) && c.HasType(t, v) && KeysClean(c, t, v) && s in Steps(c, t, v)
    requires Holds(params, name, Writes(c, name, t, v))
    ensures Holds(params, SubName(c, name, t, v, s), SubWrites(c, name, t, v, s))
  {
    var sub := SubName(c, name, t, v, s);
    forall w | w in SubWrites(c, name, t, v, s) ensures w.0 in params && params[w.0] == [w.1] {
      assert w in Writes(c, name, t, v);
    }
    forall k | k in params && Under(sub, k) ensures k in Keys(SubWrites(c, name, t, v, s)) {
      StepIsUnder(c, name, t, v, s);
      UnderTrans(name, sub, k);
      var s' := StepOf(c, params, name, t, v, k);
      StepsApart(c, name, t, v, s, s', k);
    }
  }

  /** The step that wrote a parameter. */
  lemma StepOf(c: Config, params: Params, name: string, t: Typ, v: Value, k: string) returns (s: Step)
    requires c.Ok() && c.TypOk(t) && c.HasType(t, v) && !v.PrimV?
    requires Holds(params, name, Writes(c, name, t, v))
    requires k in params && Under(name, k)
    ensures s in Steps(c, t, v) && Under(SubName(c, name, t, v, s), k)
    ensures k in Keys(SubWrites(c, name, t, v, s))
  {
    var w :| w in Writes(c, name, t, v) && w.0 == k;
    s :| s in Steps(c, t, v)
      && w in Writes(c, SubName(c, name, t, v, s), SubTyp(c, t, v, s), SubVal(c, t, v, s));
    WritesAreUnder(c, SubName(c, name, t, v, s), SubTyp(c, t, v, s), SubVal(c, t, v, s), w);
    assert w in SubWrites(c, name, t, v, s);
  }

  lemma {:induction false} SilentWritesNothing(c: Config, name: string, t: Typ, v: Value)
    requires c.Ok() && c.TypOk(t) && c.HasType(t, v)
    ensures Silent(c, t, v) <==> Writes(c, name, t, v) == {}
    decreases v
  {
    if !v.PrimV? {
      forall s | s in Steps(c, t, v)
        ensures Silent(c, SubTyp(c, t, v, s), SubVal(c, t, v, s)) <==> SubWrites(c, name, t, v, s) == {}
      {
        SilentWritesNothing(c, SubName(c, name, t, v, s), SubTyp(c, t, v, s), SubVal(c, t, v, s));
      }
      if !Silent(c, t, v) {
        var s :| s in Steps(c, t, v) && !Silent(c, SubTyp(c, t, v, s), SubVal(c, t, v, s));
        var w :| w in SubWrites(c, name, t, v, s);
        assert w in Writes(c, name, t, v);
      }
    }
  }

  /** A step has parameters exactly when its value is not silent. */
  lemma StepIsHeard(c: Config, params: Params, name: string, t: Typ, v: Value, s: Step)
    requires c.Ok() && c.TypOk(t) && c.HasType(t, v) && KeysClean(c, t, v) && s in Steps(c, t, v)
    requires Holds(params, name, Writes(c, name, t, v))
    ensures !Silent(c, SubTyp(c, t, v, s), SubVal(c, t, v, s))
       <==> exists k :: k in params && Under(SubName(c, name, t, v, s), k)
  {
    var sub := SubName(c, name, t, v, s);
    SubHolds(c, params, name, t, v, s);
    SilentWritesNothing(c, sub, SubTyp(c, t, v, s), SubVal(c, t, v, s));
    if !Silent(c, SubTyp(c, t, v, s), SubVal(c, t, v, s)) {
      var w :| w in SubWrites(c, name, t, v, s);
      WritesAreUnder(c, sub, SubTyp(c, t, v, s), SubVal(c, t, v, s), w);
    }
  }

  // ----- reading the keys of a slice and of a map -----

  lemma AtoiOfIndex(i: nat)
    requires i < TWO63
    ensures AtoiDroppingError(FormatNat(i)) == i && ']' !in FormatNat(i)
  {
    ParseIntOfFormat(i);
  }

  lemma SliceKeyReads(name: string, i: nat, k: string)
    requires i < TWO63 && name + "[" + FormatNat(i) + "]" <= k
    ensures name + "[" <= k
    ensures SliceIndex(name, k) == i && SliceChild(name, k) == name + "[" + FormatNat(i) + "]"
  {
    var text := FormatNat(i);
    var sub := name + "[" + text + "]";
    assert k[..|name| + 1] == name + "[";
    var rest := k[|name|..];
    assert rest[..1 + |text|] == "[" + text;
    assert ']' !in rest[..1 + |text|];
    IndexOfIs(rest, ']', 1 + |text|);
    assert CloseBracket(k, |name|) == |name| + 1 + |text|;
    assert k[|name| + 1..|name| + 1 + |text|] == text;
    AtoiOfIndex(i);
    assert k[..|name| + 2 + |text|] == sub;
  }

  lemma MapKeyReads(name: string, text: string, k: string)
    requires Clean(text) && Under(MapChild(name, text), k)
    ensures MapHit(name, k) && MapText(name, k) == text
  {
    var sub := MapChild(name, text);
    assert sub <= k && sub[|name| + 1..] == text + "]";
    assert k[..|name| + 1] == name + "[";
    NextKeyIs(text + "]", k[|name| + 1..]);
  }

  // ----- one case for each kind of type -----

  /** Every bracketed parameter belongs to the element its index says. */
  lemma SliceKeyStep(c: Config, params: Params, name: string, t: Typ, v: Value, k: string) returns (i: nat)
    requires c.Ok() && c.TypOk(t) && c.HasType(t, v) && v.SliceV?
    requires Holds(params, name, Writes(c, name, t, v)) && k in params && name + "[" <= k
    ensures i < |v.elems| && Under(name + "[" + FormatNat(i) + "]", k) && SliceIndex(name, k) == i
  {
    var s := StepOf(c, params, name, t, v, k);
    i := s.i;
    SliceKeyReads(name, i, k);
  }

  /** The slot of an element is filled exactly when the element is heard and its index allowed. */
  lemma SlotIsHeard(c: Config, params: Params, name: string, t: Typ, v: Value, i: nat)
    requires c.Ok() && c.TypOk(t) && c.HasType(t, v) && v.SliceV? && KeysClean(c, t, v)
    requires Holds(params, name, Writes(c, name, t, v))
    ensures Filled(c, params, name, i)
       <==> i < |v.elems| && i <= c.maxIndex && !Silent(c, t.elem, v.elems[i])
  {
    if k :| SlotKey(c, params, name, i, k) {
      var j := SliceKeyStep(c, params, name, t, v, k);
      assert Index(i) in Steps(c, t, v);
      StepIsHeard(c, params, name, t, v, Index(i));
    }
    if i < |v.elems| && i <= c.maxIndex && !Silent(c, t.elem, v.elems[i]) {
      assert Index(i) in Steps(c, t, v);
      StepIsHeard(c, params, name, t, v, Index(i));
      var k :| k in params && Under(name + "[" + FormatNat(i) + "]", k);
      SliceKeyReads(name, i, k);
      assert SlotKey(c, params, name, i, k);
    }
  }

  lemma NothingUnindexed(c: Config, params: Params, name: string, t: Typ, v: Value, k: string)
    requires c.Ok() && c.TypOk(t) && c.HasType(t, v) && v.SliceV?
    requires Holds(params, name, Writes(c, name, t, v)) && k in params
    ensures !Unindexed(name, k)
  {
    if name + "[" <= k {
      var i := SliceKeyStep(c, params, name, t, v, k);
    }
  }

  lemma ExtentIsVisible(c: Config, params: Params, name: string, t: Typ, v: Value, n: nat)
    requires c.Ok() && c.TypOk(t) && c.HasType(t, v) && v.SliceV? && KeysClean(c, t, v)
    requires Holds(params, name, Writes(c, name, t, v)) && Extent(c, params, name, n)
    ensures n == VisibleLength(c, t, v)
  {
    ExtentAtMostVisible(c, params, name, t, v, n);
    ExtentAtLeastVisible(c, params, name, t, v, n);
  }

  lemma ExtentAtMostVisible(c: Config, params: Params, name: string, t: Typ, v: Value, n: nat)
    requires c.Ok() && c.TypOk(t) && c.HasType(t, v) && v.SliceV? && KeysClean(c, t, v)
    requires Holds(params, name, Writes(c, name, t, v)) && Extent(c, params, name, n)
    ensures n <= VisibleLength(c, t, v)
  {
    if n > 0 {
      LastSlot(c, params, name, n);
      FilledBelowVisible(c, params, name, t, v, n - 1);
    }
  }

  lemma ExtentAtLeastVisible(c: Config, params: Params, name: string, t: Typ, v: Value, n: nat)
    requires c.Ok() && c.TypOk(t) && c.HasType(t, v) && v.SliceV? && KeysClean(c, t, v)
    requires Holds(params, name, Writes(c, name, t, v)) && Extent(c, params, name, n)
    ensures n >= VisibleLength(c, t, v)
  {
    if VisibleLength(c, t, v) > 0 {
      LastVisibleFilled(c, params, name, t, v);
      FilledBelowExtent(c, params, name, n, VisibleLength(c, t, v) - 1);
    }
  }

  lemma FilledBelowVisible(c: Config, params: Params, name: string, t: Typ, v: Value, i: nat)
    requires c.Ok() && c.TypOk(t) && c.HasType(t, v) && v.SliceV? && KeysClean(c, t, v)
    requires Holds(params, name, Writes(c, name, t, v)) && Filled(c, params, name, i)
    ensures i < VisibleLength(c, t, v)
  {
    SlotIsHeard(c, params, name, t, v, i);
  }

  lemma LastVisibleFilled(c: Config, params: Params, name: string, t: Typ, v: Value)
    requires c.Ok() && c.TypOk(t) && c.HasType(t, v) && v.SliceV? && KeysClean(c, t, v)
    requires Holds(params, name, Writes(c, name, t, v)) && VisibleLength(c, t, v) > 0
    ensures Filled(c, params, name, VisibleLength(c, t, v) - 1)
  {
    SlotIsHeard(c, params, name, t, v, VisibleLength(c, t, v) - 1);
  }

  lemma FilledBelowExtent(c: Config, params: Params, name: string, n: nat, i: nat)
    requires Extent(c, params, name, n) && Filled(c, params, name, i)
    ensures i < n
  {
  }

  lemma LastSlot(c: Config, params: Params, name: string, n: nat)
    requires Extent(c, params, name, n) && n > 0
    ensures Filled(c, params, name, n - 1)
  {
    var k :| k in params && Indexed(c, name, k) && SliceIndex(name, k) == n - 1;
    assert SlotKey(c, params, name, n - 1, k);
  }

  lemma {:induction false} SliceComesBack(c: Config, params: Params, name: string, t: Typ, v: Value, r: Value)
    requires c.Ok() && c.TypOk(t) && c.HasType(t, v) && v.SliceV? && Printable(c, t, v) && KeysClean(c, t, v)
    requires Holds(params, name, Writes(c, name, t, v)) && Outcome(c, params, name, t, r)
    ensures r == Norm(c, t, v)
    decreases v, 1
  {
    var n: nat, order: seq<string> :| SliceOutcome(c, params, name, t, r.elems, n, order);
    ExtentIsVisible(c, params, name, t, v, n);
    NoneListed(c, params, name, t, v, order);
    var norm := Norm(c, t, v).elems;
    assert |r.elems| == |norm|;
    forall i | 0 <= i < |norm| ensures r.elems[i] == norm[i] {
      assert SlotOutcome(c, params, name, t, i, r.elems[i]);
      ElementComesBack(c, params, name, t, v, i, r.elems[i]);
    }
  }

  lemma NoneListed(c: Config, params: Params, name: string, t: Typ, v: Value, order: seq<string>)
    requires c.Ok() && c.TypOk(t) && c.HasType(t, v) && v.SliceV?
    requires Holds(params, name, Writes(c, name, t, v)) && Listing(params, name, order)
    ensures order == [] && Texts(params, order) == []
  {
    if order != [] { NothingUnindexed(c, params, name, t, v, order[0]); }
  }

  /** A heard element is bound under its own name. */
  lemma ElementBound(c: Config, params: Params, name: string, t: Typ, v: Value, i: nat, r: Value)
    requires c.Ok() && c.TypOk(t) && c.HasType(t, v) && v.SliceV?
    requires Holds(params, name, Writes(c, name, t, v)) && i < |v.elems|
    requires Filled(c, params, name, i) && SlotOutcome(c, params, name, t, i, r)
    ensures Outcome(c, params, name + "[" + FormatNat(i) + "]", t.elem, r)
  {
    var k :| SlotKey(c, params, name, i, k) && Outcome(c, params, SliceChild(name, k), t.elem, r);
    var j := SliceKeyStep(c, params, name, t, v, k);
    SliceKeyReads(name, i, k);
  }

  lemma {:induction false} ElementComesBack(c: Config, params: Params, name: string, t: Typ, v: Value, i: nat, r: Value)
    requires c.Ok() && c.TypOk(t) && c.HasType(t, v) && v.SliceV? && Printable(c, t, v) && KeysClean(c, t, v)
    requires Holds(params, name, Writes(c, name, t, v)) && i < |v.elems| && i <= c.maxIndex
    requires SlotOutcome(c, params, name, t, i, r)
    ensures r == if Silent(c, t.elem, v.elems[i]) then c.Zero(t.elem) else Norm(c, t.elem, v.elems[i])
    decreases v, 0
  {
    SlotIsHeard(c, params, name, t, v, i);
    if !Silent(c, t.elem, v.elems[i]) {
      ElementBound(c, params, name, t, v, i, r);
      assert Index(i) in Steps(c, t, v);
      SubHolds(c, params, name, t, v, Index(i));
      ComesBack(c, params, name + "[" + FormatNat(i) + "]", t.elem, v.elems[i], r);
    }
  }

  lemma FieldIsHeard(c: Config, params: Params, name: string, t: Typ, v: Value, i: nat)
    requires c.Ok() && c.TypOk(t) && c.HasType(t, v) && v.StructV? && KeysClean(c, t, v)
    requires Holds(params, name, Writes(c, name, t, v)) && i < |v.fields| && c.structs[t.id][i].exported
    ensures c.TypOk(c.structs[t.id][i].typ) && c.HasType(c.structs[t.id][i].typ, v.fields[i])
    ensures Touched(params, name, c.structs[t.id][i].name) <==> !Silent(c, c.structs[t.id][i].typ, v.fields[i])
  {
    assert c.FieldsOk(t.id);
    var f := c.structs[t.id][i];
    assert Fld(i) in Steps(c, t, v);
    StepIsHeard(c, params, name, t, v, Fld(i));
    if k :| k in params && Under(name + "." + f.name, k) {
      FieldKeyTouches(c, name, t, v, i, k);
    }
    if k :| k in params && Touches(name, f.name, k) {
      FieldKeyStep(c, params, name, t, v, i, k);
    }
  }

  lemma FieldKeyTouches(c: Config, name: string, t: Typ, v: Value, i: nat, k: string)
    requires c.Ok() && c.TypOk(t) && c.HasType(t, v) && v.StructV? && KeysClean(c, t, v)
    requires i < |v.fields| && c.structs[t.id][i].exported && Under(name + "." + c.structs[t.id][i].name, k)
    ensures Touches(name, c.structs[t.id][i].name, k)
  {
    assert Fld(i) in Steps(c, t, v);
    StepTextShows(c, name, t, v, Fld(i), k);
    assert k[..|name| + 1] == name + ".";
  }

  lemma FieldKeyStep(c: Config, params: Params, name: string, t: Typ, v: Value, i: nat, k: string)
    requires c.Ok() && c.TypOk(t) && c.HasType(t, v) && v.StructV? && KeysClean(c, t, v)
    requires Holds(params, name, Writes(c, name, t, v)) && i < |v.fields| && c.structs[t.id][i].exported
    requires k in params && Touches(name, c.structs[t.id][i].name, k)
    ensures Under(name + "." + c.structs[t.id][i].name, k)
  {
    assert Fld(i) in Steps(c, t, v);
    var s := StepOf(c, params, name, t, v, k);
    StepTextShows(c, name, t, v, s, k);
    StepTextInjective(c, t, v, Fld(i), s);
  }

  lemma {:induction false} StructComesBack(c: Config, params: Params, name: string, t: Typ, v: Value, r: Value)
    requires c.Ok() && c.TypOk(t) && c.HasType(t, v) && v.StructV? && Printable(c, t, v) && KeysClean(c, t, v)
    requires Holds(params, name, Writes(c, name, t, v)) && Outcome(c, params, name, t, r)
    ensures r == Norm(c, t, v)
    decreases v, 1
  {
    assert c.FieldsOk(t.id);
    forall i | 0 <= i < |v.fields| ensures r.fields[i] == Norm(c, t, v).fields[i] {
      assert FieldOutcome(c, params, name, t, i, r.fields[i]);
      var f := c.structs[t.id][i];
      if f.exported {
        FieldIsHeard(c, params, name, t, v, i);
        if !Silent(c, f.typ, v.fields[i]) {
          assert Fld(i) in Steps(c, t, v);
          SubHolds(c, params, name, t, v, Fld(i));
          ComesBack(c, params, name + "." + f.name, f.typ, v.fields[i], r.fields[i]);
        }
      }
    }
  }

  /** Every parameter that bindMap accepts belongs to the entry whose key it spells. */
  lemma MapKeyStep(c: Config, params: Params, name: string, t: Typ, v: Value, k: string) returns (p: Prim)
    requires c.Ok() && c.TypOk(t) && c.HasType(t, v) && v.MapV? && KeysClean(c, t, v)
    requires Holds(params, name, Writes(c, name, t, v)) && k in params && MapHit(name, k)
    ensures p in v.entries && Under(MapChild(name, PrimText(p)), k)
    ensures MapText(name, k) == PrimText(p) && ParsePrim(t.key, MapText(name, k)).0 == p
  {
    assert name + "[" <= k;
    var s := StepOf(c, params, name, t, v, k);
    p := s.k;
    MapKeyReads(name, PrimText(p), k);
    ScalarRoundTrip(t.key, p);
  }

  lemma EntryIsHeard(c: Config, params: Params, name: string, t: Typ, v: Value, p: Prim) returns (k: string)
    requires c.Ok() && c.TypOk(t) && c.HasType(t, v) && v.MapV? && KeysClean(c, t, v)
    requires Holds(params, name, Writes(c, name, t, v)) && p in v.entries && !Silent(c, t.elem, v.entries[p])
    ensures k in params && MapHit(name, k) && ParsePrim(t.key, MapText(name, k)).0 == p
  {
    assert Key(p) in Steps(c, t, v);
    StepIsHeard(c, params, name, t, v, Key(p));
    k :| k in params && Under(MapChild(name, PrimText(p)), k);
    MapKeyReads(name, PrimText(p), k);
    ScalarRoundTrip(t.key, p);
  }

  lemma {:induction false} MapComesBack(c: Config, params: Params, name: string, t: Typ, v: Value, r: Value)
    requires c.Ok() && c.TypOk(t) && c.HasType(t, v) && v.MapV? && Printable(c, t, v) && KeysClean(c, t, v)
    requires Holds(params, name, Writes(c, name, t, v)) && Outcome(c, params, name, t, r)
    ensures r == Norm(c, t, v)
    decreases v, 1
  {
    var norm := Norm(c, t, v).entries;
    HeardEntriesAreBound(c, params, name, t, v, r);
    forall p | p in r.entries ensures p in norm && r.entries[p] == norm[p] {
      assert EntryOutcome(c, params, name, t, p, r.entries[p]);
      EntryComesBack(c, params, name, t, v, p, r.entries[p]);
    }
    assert r.entries == norm;
  }

  lemma HeardEntriesAreBound(c: Config, params: Params, name: string, t: Typ, v: Value, r: Value)
    requires c.Ok() && c.TypOk(t) && c.HasType(t, v) && v.MapV? && KeysClean(c, t, v)
    requires Holds(params, name, Writes(c, name, t, v)) && Outcome(c, params, name, t, r)
    ensures forall p :: p in v.entries && !Silent(c, t.elem, v.entries[p]) ==> p in r.entries
  {
    forall p | p in v.entries && !Silent(c, t.elem, v.entries[p]) ensures p in r.entries {
      var k := EntryIsHeard(c, params, name, t, v, p);
      assert KeyBound(name, t.key, k, r.entries.Keys);
    }
  }

  /** An entry that comes back is a heard one, bound under its own name. */
  lemma EntryBound(c: Config, params: Params, name: string, t: Typ, v: Value, p: Prim, r: Value)
    requires c.Ok() && c.TypOk(t) && c.HasType(t, v) && v.MapV? && KeysClean(c, t, v)
    requires Holds(params, name, Writes(c, name, t, v)) && EntryOutcome(c, params, name, t, p, r)
    ensures p in v.entries && !Silent(c, t.elem, v.entries[p])
    ensures Outcome(c, params, MapChild(name, PrimText(p)), t.elem, r)
  {
    var k :| k in params && MapHit(name, k) && ParsePrim(t.key, MapText(name, k)).0 == p
          && Outcome(c, params, MapChild(name, MapText(name, k)), t.elem, r);
    KeyIsHeard(c, params, name, t, v, k);
  }

  lemma KeyIsHeard(c: Config, params: Params, name: string, t: Typ, v: Value, k: string)
    requires c.Ok() && c.TypOk(t) && c.HasType(t, v) && v.MapV? && KeysClean(c, t, v)
    requires Holds(params, name, Writes(c, name, t, v)) && k in params && MapHit(name, k)
    ensures var p := ParsePrim(t.key, MapText(name, k)).0;
            p in v.entries && MapText(name, k) == PrimText(p) && !Silent(c, t.elem, v.entries[p])
  {
    var p := MapKeyStep(c, params, name, t, v, k);
    assert Key(p) in Steps(c, t, v);
    StepIsHeard(c, params, name, t, v, Key(p));
  }

  lemma EntryParts(c: Config, t: Typ, v: Value, p: Prim)
    requires c.Ok() && c.TypOk(t) && c.HasType(t, v) && v.MapV? && Printable(c, t, v) && KeysClean(c, t, v)
    requires p in v.entries && !Silent(c, t.elem, v.entries[p])
    ensures Key(p) in Steps(c, t, v)
    ensures Printable(c, t.elem, v.entries[p]) && KeysClean(c, t.elem, v.entries[p])
  {
    assert Key(p) in Steps(c, t, v);
  }

  lemma {:induction false} EntryComesBack(c: Config, params: Params, name: string, t: Typ, v: Value, p: Prim, r: Value)
    requires c.Ok() && c.TypOk(t) && c.HasType(t, v) && v.MapV? && Printable(c, t, v) && KeysClean(c, t, v)
    requires Holds(params, name, Writes(c, name, t, v)) && EntryOutcome(c, params, name, t, p, r)
    ensures p in v.entries && !Silent(c, t.elem, v.entries[p]) && r == Norm(c, t.elem, v.entries[p])
    decreases v, 0
  {
    EntryBound(c, params, name, t, v, p, r);
    EntryParts(c, t, v, p);
    SubHolds(c, params, name, t, v, Key(p));
    ComesBack(c, params, MapChild(name, PrimText(p)), t.elem, v.entries[p], r);
  }

  lemma AddressableIsPointable(c: Config, params: Params, name: string, t: Typ, v: Value)
    requires c.Ok() && c.TypOk(t) && c.HasType(t, v)
    requires Holds(params, name, Writes(c, name, t, v))
    ensures Addressable(params, name, t) == Pointable(t)
  {
    if v.PrimV? {
      assert (name, PrimText(v.p)) in Writes(c, name, t, v);
      ScalarRoundTrip(t.s, v.p);
    }
  }

  /**
    What Bind returns on the entries of `v`, whatever else is in the parameter map and in whatever
    order it is visited.
   */
  lemma {:induction false} ComesBack(c: Config, params: Params, name: string, t: Typ, v: Value, r: Value)
    requires c.Ok() && c.TypOk(t) && c.HasType(t, v) && Printable(c, t, v) && KeysClean(c, t, v)
    requires Holds(params, name, Writes(c, name, t, v)) && Outcome(c, params, name, t, r)
    ensures r == Norm(c, t, v)
    decreases v, 2
  {
    match v
    case PrimV(p) =>
      assert (name, PrimText(p)) in Writes(c, name, t, v);
      ScalarRoundTrip(t.s, p);
    case BytesV(_) =>
    case SliceV(_) => SliceComesBack(c, params, name, t, v, r);
    case StructV(_) => StructComesBack(c, params, name, t, v, r);
    case MapV(_) => MapComesBack(c, params, name, t, v, r);
    case PtrV(p) =>
      assert Deref in Steps(c, t, v);
      SubHolds(c, params, name, t, v, Deref);
      AddressableIsPointable(c, params, name, t.elem, p);
      if Pointable(t.elem) {
        ComesBack(c, params, name, t.elem, p, r.to);
      }
  }

  // ----- no panic -----

  /** Bind does not panic on the entries of a value: no entry carries the bare name of a map. */
  lemma {:induction false} NeverPanics(c: Config, params: Params, name: string, t: Typ, v: Value)
    requires c.Ok() && c.TypOk(t) && c.HasType(t, v) && Printable(c, t, v) && KeysClean(c, t, v)
    requires Holds(params, name, Writes(c, name, t, v))
    ensures !Panics(c, params, name, t)
    decreases v
  {
    NotAMapName(c, params, name, t, v);
    forall text ensures text !in LooseTexts(params, name) || !t.SliceT? {
      if t.SliceT? && text in LooseTexts(params, name) {
        var k :| k in params && Unindexed(name, k) && text in params[k];
        NothingUnindexed(c, params, name, t, v, k);
      }
    }
    forall x | x in Children(c, params, name, t) ensures !Panics(c, params, x.0, x.1) {
      var s := ChildStep(c, params, name, t, v, x);
      SubHolds(c, params, name, t, v, s);
      NeverPanics(c, params, x.0, x.1, SubVal(c, t, v, s));
    }
  }

  lemma NotAMapName(c: Config, params: Params, name: string, t: Typ, v: Value)
    requires c.Ok() && c.TypOk(t) && c.HasType(t, v) && Holds(params, name, Writes(c, name, t, v))
    ensures t.MapT? ==> name !in params
  {
    if t.MapT? {
      forall k | k in Keys(Writes(c, name, t, v)) ensures |name| < |k| {
        MapKeysAreLonger(c, name, t, v, k);
      }
    }
  }

  lemma MapKeysAreLonger(c: Config, name: string, t: Typ, v: Value, k: string)
    requires c.Ok() && c.TypOk(t) && c.HasType(t, v) && t.MapT? && k in Keys(Writes(c, name, t, v))
    ensures |name| < |k|
  {
    var w :| w in Writes(c, name, t, v) && w.0 == k;
    var s :| s in Steps(c, t, v)
          && w in Writes(c, SubName(c, name, t, v, s), SubTyp(c, t, v, s), SubVal(c, t, v, s));
    WritesAreUnder(c, SubName(c, name, t, v, s), SubTyp(c, t, v, s), SubVal(c, t, v, s), w);
  }

  /** Bind's nested calls are among Unbind's. */
  lemma ChildStep(c: Config, params: Params, name: string, t: Typ, v: Value, x: (string, Typ)) returns (s: Step)
    requires c.Ok() && c.TypOk(t) && c.HasType(t, v) && Printable(c, t, v) && KeysClean(c, t, v)
    requires Holds(params, name, Writes(c, name, t, v)) && x in Children(c, params, name, t)
    ensures s in Steps(c, t, v) && x == (SubName(c, name, t, v, s), SubTyp(c, t, v, s))
  {
    match t
    case SliceT(e) => s := SliceChildStep(c, params, name, t, v, x);
    case StructT(id) =>
      var fs := c.structs[id];
      var i :| 0 <= i < |fs| && fs[i].exported && x == (name + "." + fs[i].name, fs[i].typ);
      s := Fld(i);
    case MapT(_, e) =>
      var k :| k in params && MapHit(name, k) && x == (MapChild(name, MapText(name, k)), e);
      s := MapChildStep(c, params, name, t, v, k);
    case PtrT(_) => s := Deref;
    case _ =>
  }

  lemma SliceChildStep(c: Config, params: Params, name: string, t: Typ, v: Value, x: (string, Typ)) returns (s: Step)
    requires c.Ok() && c.TypOk(t) && c.HasType(t, v) && t.SliceT?
    requires Holds(params, name, Writes(c, name, t, v)) && x in Children(c, params, name, t)
    ensures s in Steps(c, t, v) && x == (SubName(c, name, t, v, s), SubTyp(c, t, v, s))
  {
    var k :| k in params && Indexed(c, name, k) && x == (SliceChild(name, k), t.elem);
    var i := SliceKeyStep(c, params, name, t, v, k);
    SliceKeyReads(name, i, k);
    s := Index(i);
  }

  lemma MapChildStep(c: Config, params: Params, name: string, t: Typ, v: Value, k: string) returns (s: Step)
    requires c.Ok() && c.TypOk(t) && c.HasType(t, v) && t.MapT? && KeysClean(c, t, v)
    requires Holds(params, name, Writes(c, name, t, v)) && k in params && MapHit(name, k)
    ensures s in Steps(c, t, v) && SubTyp(c, t, v, s) == t.elem
    ensures SubName(c, name, t, v, s) == MapChild(name, MapText(name, k))
  {
    var p := MapKeyStep(c, params, name, t, v, k);
    s := Key(p);
  }

  // ----- the round trip -----

  /** `v` is what Bind makes of its own entries, read off the value alone. */
  predicate RoundTrips(c: Config, t: Typ, v: Value)
    requires c.Ok() && c.TypOk(t) && c.HasType(t, v)
    decreases v, 0
  {
    match v
    case PrimV(_) => true
    case BytesV(bs) => bs == ""
    case NilPtr => true
    case PtrV(p) => Pointable(t.elem) && RoundTrips(c, t.elem, p)
    case SliceV(es) =>
      es == [] || (|es| <= c.maxIndex + 1 && !Silent(c, t.elem, es[|es| - 1])
                   && forall i :: 0 <= i < |es| ==> Survives(c, t.elem, es[i]))
    case StructV(fs) =>
      assert c.FieldsOk(t.id);
      forall i :: 0 <= i < |fs| ==>
        var f := c.structs[t.id][i];
        if f.exported then Survives(c, f.typ, fs[i]) else fs[i] == c.Zero(f.typ)
    case MapV(m) => forall k :: k in m ==> !Silent(c, t.elem, m[k]) && RoundTrips(c, t.elem, m[k])
  }

  /** A part that stores nothing must be zero. */
  predicate Survives(c: Config, t: Typ, v: Value)
    requires c.Ok() && c.TypOk(t) && c.HasType(t, v)
    decreases v, 1
  {
    if Silent(c, t, v) then v == c.Zero(t) else RoundTrips(c, t, v)
  }

  lemma {:induction false} RoundTripsIffNorm(c: Config, t: Typ, v: Value)
    requires c.Ok() && c.TypOk(t) && c.HasType(t, v)
    ensures RoundTrips(c, t, v) <==> Norm(c, t, v) == v
    decreases v
  {
    match v
    case PrimV(_) =>
    case BytesV(_) =>
    case NilPtr =>
    case PtrV(p) => RoundTripsIffNorm(c, t.elem, p);
    case SliceV(es) =>
      forall i | 0 <= i < |es| ensures Survives(c, t.elem, es[i]) <==> NormElement(c, t.elem, es[i]) == es[i] {
        RoundTripsIffNorm(c, t.elem, es[i]);
        ElementIffNorm(c, t.elem, es[i]);
      }
      SliceIffNorm(c, t, v);
    case StructV(fs) =>
      assert c.FieldsOk(t.id);
      var norm := Norm(c, t, v).fields;
      forall i | 0 <= i < |fs|
        ensures var f := c.structs[t.id][i];
                (if f.exported then Survives(c, f.typ, fs[i]) else fs[i] == c.Zero(f.typ)) <==> norm[i] == fs[i]
      {
        RoundTripsIffNorm(c, c.structs[t.id][i].typ, fs[i]);
      }
      assert |norm| == |fs|;
    case MapV(m) =>
      var norm := Norm(c, t, v).entries;
      forall k | k in m ensures RoundTrips(c, t.elem, m[k]) <==> Norm(c, t.elem, m[k]) == m[k] {
        RoundTripsIffNorm(c, t.elem, m[k]);
      }
      if norm == m {
        forall k | k in m ensures !Silent(c, t.elem, m[k]) && RoundTrips(c, t.elem, m[k]) {
          assert k in norm;
        }
      }
  }

  /** What Norm makes of one element below the visible length. */
  function NormElement(c: Config, t: Typ, v: Value): Value
    requires c.Ok() && c.TypOk(t) && c.HasType(t, v)
  {
    if Silent(c, t, v) then c.Zero(t) else Norm(c, t, v)
  }

  lemma NormSlice(c: Config, t: Typ, v: Value)
    requires c.Ok() && c.TypOk(t) && c.HasType(t, v) && v.SliceV?
    ensures |Norm(c, t, v).elems| == VisibleLength(c, t, v)
    ensures forall i :: 0 <= i < VisibleLength(c, t, v) ==> Norm(c, t, v).elems[i] == NormElement(c, t.elem, v.elems[i])
  {
  }

  ghost predicate SameElements(c: Config, t: Typ, v: Value)
    requires c.Ok() && c.TypOk(t) && c.HasType(t, v) && v.SliceV?
  {
    forall i :: 0 <= i < |v.elems| ==> NormElement(c, t.elem, v.elems[i]) == v.elems[i]
  }

  lemma NormSliceSame(c: Config, t: Typ, v: Value)
    requires c.Ok() && c.TypOk(t) && c.HasType(t, v) && v.SliceV?
    ensures Norm(c, t, v) == v <==> VisibleLength(c, t, v) == |v.elems| && SameElements(c, t, v)
  {
    NormSlice(c, t, v);
    var es, norm := v.elems, Norm(c, t, v).elems;
    if VisibleLength(c, t, v) == |es| && SameElements(c, t, v) {
      assert norm == es;
    }
  }

  ghost predicate AllSurvive(c: Config, t: Typ, v: Value)
    requires c.Ok() && c.TypOk(t) && c.HasType(t, v) && v.SliceV?
  {
    forall i :: 0 <= i < |v.elems| ==> Survives(c, t.elem, v.elems[i])
  }

  lemma RoundTripsSlice(c: Config, t: Typ, v: Value)
    requires c.Ok() && c.TypOk(t) && c.HasType(t, v) && v.SliceV?
    ensures RoundTrips(c, t, v) <==> VisibleLength(c, t, v) == |v.elems| && AllSurvive(c, t, v)
  {
  }

  lemma ElementIffNorm(c: Config, t: Typ, v: Value)
    requires c.Ok() && c.TypOk(t) && c.HasType(t, v)
    requires RoundTrips(c, t, v) <==> Norm(c, t, v) == v
    ensures Survives(c, t, v) <==> NormElement(c, t, v) == v
  {
  }

  lemma SliceIffNorm(c: Config, t: Typ, v: Value)
    requires c.Ok() && c.TypOk(t) && c.HasType(t, v) && v.SliceV?
    requires forall i :: 0 <= i < |v.elems| ==>
               (Survives(c, t.elem, v.elems[i]) <==> NormElement(c, t.elem, v.elems[i]) == v.elems[i])
    ensures RoundTrips(c, t, v) <==> Norm(c, t, v) == v
  {
    NormSliceSame(c, t, v);
    RoundTripsSlice(c, t, v);
    assert AllSurvive(c, t, v) <==> SameElements(c, t, v);
  }

  /** Bind after Unbind is the identity exactly on the values that RoundTrips describes. */
  lemma RoundTripExactly(c: Config, params: Params, name: string, t: Typ, v: Value, r: Value)
    requires c.Ok() && c.TypOk(t) && c.HasType(t, v) && Printable(c, t, v) && KeysClean(c, t, v)
    requires Holds(params, name, Writes(c, name, t, v)) && Outcome(c, params, name, t, r)
    ensures r == v <==> RoundTrips(c, t, v)
  {
    ComesBack(c, params, name, t, v, r);
    RoundTripsIffNorm(c, t, v);
  }
}
