/** Unbind writes each key once: keys of different fields, indices and map entries never meet. */
module UnbindKeys {
  import opened Text
  import opened Decimal
  import opened BinderTypes
  import opened UnbindSpec

  /** The text a step adds after its separator. */
  function StepText(c: Config, t: Typ, v: Value, s: Step): string
    requires c.Ok() && c.TypOk(t) && c.HasType(t, v) && s in Steps(c, t, v) && !s.Deref?
  {
    match s
    case Fld(i) => c.structs[t.id][i].name
    case Index(i) => FormatNat(i) + "]"
    case Key(k) => PrimText(k) + "]"
  }

  lemma PrimTextInjective(s: Scalar, p: Prim, q: Prim)
    requires Fits(s, p) && Fits(s, q) && PrimText(p) == PrimText(q)
    ensures p == q
  {
    ScalarRoundTrip(s, p);
    ScalarRoundTrip(s, q);
  }

  /** A key below a step shows the step's text right after `name` and the separator. */
  lemma StepTextShows(c: Config, name: string, t: Typ, v: Value, s: Step, k: string)
    requires c.Ok() && c.TypOk(t) && c.HasType(t, v) && KeysClean(c, t, v) && s in Steps(c, t, v) && !s.Deref?
    requires Under(SubName(c, name, t, v, s), k)
    ensures |name| < |k| && NextKey(k[|name| + 1..]) == StepText(c, t, v, s)
  {
    var text := StepText(c, t, v, s);
    var sub := SubName(c, name, t, v, s);
    assert c.Ok() && (t.StructT? ==> c.FieldsOk(t.id));
    assert Clean(text);
    assert sub[|name| + 1..] == text;
    assert sub <= k;
    NextKeyIs(text, k[|name| + 1..]);
  }

  lemma StepTextInjective(c: Config, t: Typ, v: Value, s1: Step, s2: Step)
    requires c.Ok() && c.TypOk(t) && c.HasType(t, v) && s1 in Steps(c, t, v) && s2 in Steps(c, t, v)
    requires !s1.Deref? && !s2.Deref? && StepText(c, t, v, s1) == StepText(c, t, v, s2)
    ensures s1 == s2
  {
    var text := StepText(c, t, v, s1);
    match v
    case StructV(_) => assert c.FieldsOk(t.id);
    case SliceV(_) =>
      assert FormatNat(s1.i) == text[..|text| - 1] == FormatNat(s2.i);
      FormatNatInjective(s1.i, s2.i);
    case MapV(_) =>
      assert PrimText(s1.k) == text[..|text| - 1] == PrimText(s2.k);
      PrimTextInjective(t.key, s1.k, s2.k);
    case _ =>
  }

  /** No parameter lies below two different steps of one value. */
  lemma StepsApart(c: Config, name: string, t: Typ, v: Value, s1: Step, s2: Step, k: string)
    requires c.Ok() && c.TypOk(t) && c.HasType(t, v) && KeysClean(c, t, v)
    requires s1 in Steps(c, t, v) && s2 in Steps(c, t, v)
    requires Under(SubName(c, name, t, v, s1), k) && Under(SubName(c, name, t, v, s2), k)
    ensures s1 == s2
  {
    if !s1.Deref? && !s2.Deref? {
      StepTextShows(c, name, t, v, s1, k);
      StepTextShows(c, name, t, v, s2, k);
      StepTextInjective(c, t, v, s1, s2);
    }
  }

  // ----- counting: one key for each scalar leaf -----

  /** Where the scalars of a value are, with no reference to names or texts. */
  function Leaves(c: Config, t: Typ, v: Value): set<seq<Step>>
    requires c.Ok() && c.TypOk(t) && c.HasType(t, v)
    decreases v
  {
    if v.PrimV? then {[]}
    else set s, p | s in Steps(c, t, v) && p in Leaves(c, SubTyp(c, t, v, s), SubVal(c, t, v, s)) :: [s] + p
  }

  function LeafVal(c: Config, t: Typ, v: Value, path: seq<Step>): Prim
    requires c.Ok() && c.TypOk(t) && c.HasType(t, v) && path in Leaves(c, t, v)
    decreases v
  {
    if v.PrimV? then v.p
    else
      LeafStep(c, t, v, path);
      LeafVal(c, SubTyp(c, t, v, path[0]), SubVal(c, t, v, path[0]), path[1..])
  }

  /** The parameter name that spells a path. */
  function LeafName(c: Config, name: string, t: Typ, v: Value, path: seq<Step>): string
    requires c.Ok() && c.TypOk(t) && c.HasType(t, v) && path in Leaves(c, t, v)
    decreases v
  {
    if v.PrimV? then name
    else
      LeafStep(c, t, v, path);
      LeafName(c, SubName(c, name, t, v, path[0]), SubTyp(c, t, v, path[0]), SubVal(c, t, v, path[0]), path[1..])
  }

  lemma LeafStep(c: Config, t: Typ, v: Value, path: seq<Step>)
    requires c.Ok() && c.TypOk(t) && c.HasType(t, v) && path in Leaves(c, t, v) && !v.PrimV?
    ensures path != [] && path[0] in Steps(c, t, v)
    ensures path[1..] in Leaves(c, SubTyp(c, t, v, path[0]), SubVal(c, t, v, path[0]))
  {
    var s, p :| s in Steps(c, t, v) && p in Leaves(c, SubTyp(c, t, v, s), SubVal(c, t, v, s)) && path == [s] + p;
    assert path[1..] == p;
  }

  ghost predicate IsLeafWrite(c: Config, name: string, t: Typ, v: Value, w: (string, string))
    requires c.Ok() && c.TypOk(t) && c.HasType(t, v)
  {
    exists p :: p in Leaves(c, t, v) && w == LeafWrite(c, name, t, v, p)
  }

  function LeafWrite(c: Config, name: string, t: Typ, v: Value, p: seq<Step>): (string, string)
    requires c.Ok() && c.TypOk(t) && c.HasType(t, v) && p in Leaves(c, t, v)
  {
    (LeafName(c, name, t, v, p), PrimText(LeafVal(c, t, v, p)))
  }

  lemma {:induction false} EveryLeafIsWritten(c: Config, name: string, t: Typ, v: Value, p: seq<Step>)
    requires c.Ok() && c.TypOk(t) && c.HasType(t, v) && p in Leaves(c, t, v)
    ensures LeafWrite(c, name, t, v, p) in Writes(c, name, t, v)
    decreases v
  {
    if !v.PrimV? {
      LeafStep(c, t, v, p);
      EveryLeafIsWritten(c, SubName(c, name, t, v, p[0]), SubTyp(c, t, v, p[0]), SubVal(c, t, v, p[0]), p[1..]);
    }
  }

  lemma {:induction false} EveryWriteIsALeaf(c: Config, name: string, t: Typ, v: Value, w: (string, string))
    requires c.Ok() && c.TypOk(t) && c.HasType(t, v) && w in Writes(c, name, t, v)
    ensures IsLeafWrite(c, name, t, v, w)
    decreases v
  {
    if v.PrimV? {
      assert [] in Leaves(c, t, v);
      assert w == LeafWrite(c, name, t, v, []);
    } else {
      var s :| s in Steps(c, t, v)
            && w in Writes(c, SubName(c, name, t, v, s), SubTyp(c, t, v, s), SubVal(c, t, v, s));
      EveryWriteIsALeaf(c, SubName(c, name, t, v, s), SubTyp(c, t, v, s), SubVal(c, t, v, s), w);
      var q :| q in Leaves(c, SubTyp(c, t, v, s), SubVal(c, t, v, s))
            && w == LeafWrite(c, SubName(c, name, t, v, s), SubTyp(c, t, v, s), SubVal(c, t, v, s), q);
      LeafOfStep(c, name, t, v, s, q);
    }
  }

  lemma LeafOfStep(c: Config, name: string, t: Typ, v: Value, s: Step, q: seq<Step>)
    requires c.Ok() && c.TypOk(t) && c.HasType(t, v) && !v.PrimV? && s in Steps(c, t, v)
    requires q in Leaves(c, SubTyp(c, t, v, s), SubVal(c, t, v, s))
    ensures [s] + q in Leaves(c, t, v)
    ensures LeafWrite(c, name, t, v, [s] + q)
         == LeafWrite(c, SubName(c, name, t, v, s), SubTyp(c, t, v, s), SubVal(c, t, v, s), q)
  {
    var p := [s] + q;
    assert p in Leaves(c, t, v);
    assert p[0] == s && p[1..] == q;
  }

  /** Different leaves have different parameter names, at every depth. */
  lemma {:induction false} LeafNamesInjective(c: Config, name: string, t: Typ, v: Value, p: seq<Step>, q: seq<Step>)
    requires c.Ok() && c.TypOk(t) && c.HasType(t, v) && KeysClean(c, t, v)
    requires p in Leaves(c, t, v) && q in Leaves(c, t, v)
    requires LeafName(c, name, t, v, p) == LeafName(c, name, t, v, q)
    ensures p == q
    decreases v
  {
    if !v.PrimV? {
      LeafStep(c, t, v, p);
      LeafStep(c, t, v, q);
      var k := LeafName(c, name, t, v, p);
      LeafNameUnder(c, SubName(c, name, t, v, p[0]), SubTyp(c, t, v, p[0]), SubVal(c, t, v, p[0]), p[1..]);
      LeafNameUnder(c, SubName(c, name, t, v, q[0]), SubTyp(c, t, v, q[0]), SubVal(c, t, v, q[0]), q[1..]);
      StepsApart(c, name, t, v, p[0], q[0], k);
      LeafNamesInjective(c, SubName(c, name, t, v, p[0]), SubTyp(c, t, v, p[0]), SubVal(c, t, v, p[0]), p[1..], q[1..]);
      assert p == [p[0]] + p[1..] && q == [q[0]] + q[1..];
    }
  }

  lemma LeafNameUnder(c: Config, name: string, t: Typ, v: Value, p: seq<Step>)
    requires c.Ok() && c.TypOk(t) && c.HasType(t, v) && p in Leaves(c, t, v)
    ensures Under(name, LeafName(c, name, t, v, p))
  {
    EveryLeafIsWritten(c, name, t, v, p);
    WritesAreUnder(c, name, t, v, LeafWrite(c, name, t, v, p));
  }

  /** No two pairs of Writes share a key. */
  lemma WritesFunctional(c: Config, name: string, t: Typ, v: Value, w1: (string, string), w2: (string, string))
    requires c.Ok() && c.TypOk(t) && c.HasType(t, v) && KeysClean(c, t, v)
    requires w1 in Writes(c, name, t, v) && w2 in Writes(c, name, t, v) && w1.0 == w2.0
    ensures w1 == w2
  {
    EveryWriteIsALeaf(c, name, t, v, w1);
    EveryWriteIsALeaf(c, name, t, v, w2);
    var p :| p in Leaves(c, t, v) && w1 == LeafWrite(c, name, t, v, p);
    var q :| q in Leaves(c, t, v) && w2 == LeafWrite(c, name, t, v, q);
    LeafNamesInjective(c, name, t, v, p, q);
  }

  /** Unbind into an empty map stores each pair exactly once: no entry overwrites another. */
  lemma EntriesAreWrites(c: Config, name: string, t: Typ, v: Value, out: map<string, string>)
    requires c.Ok() && c.TypOk(t) && c.HasType(t, v) && KeysClean(c, t, v)
    requires Merged(map[], Writes(c, name, t, v), out)
    ensures out.Items == Writes(c, name, t, v)
  {
    var ws := Writes(c, name, t, v);
    assert out.Keys == Keys(ws);
    forall w | w in ws ensures w in out.Items {
      assert w.0 in out;
      WritesFunctional(c, name, t, v, w, (w.0, out[w.0]));
    }
    forall w | w in out.Items ensures w in ws {
      assert w.0 in out && out[w.0] == w.1;
    }
  }

  function LeafNames(c: Config, name: string, t: Typ, v: Value): (r: map<seq<Step>, string>)
    requires c.Ok() && c.TypOk(t) && c.HasType(t, v)
    ensures r.Keys == Leaves(c, t, v)
  {
    map p | p in Leaves(c, t, v) :: LeafName(c, name, t, v, p)
  }

  lemma KeyIsLeafName(c: Config, name: string, t: Typ, v: Value, k: string)
    requires c.Ok() && c.TypOk(t) && c.HasType(t, v)
    ensures k in Keys(Writes(c, name, t, v)) <==> k in LeafNames(c, name, t, v).Values
  {
    var names := LeafNames(c, name, t, v);
    if k in Keys(Writes(c, name, t, v)) {
      var w :| w in Writes(c, name, t, v) && w.0 == k;
      EveryWriteIsALeaf(c, name, t, v, w);
      var p :| p in Leaves(c, t, v) && w == LeafWrite(c, name, t, v, p);
      assert p in names && names[p] == k;
    }
    if k in names.Values {
      var p :| p in names && names[p] == k;
      EveryLeafIsWritten(c, name, t, v, p);
      assert LeafWrite(c, name, t, v, p).0 == k;
    }
  }

  lemma KeysAreLeafNames(c: Config, name: string, t: Typ, v: Value)
    requires c.Ok() && c.TypOk(t) && c.HasType(t, v)
    ensures Keys(Writes(c, name, t, v)) == LeafNames(c, name, t, v).Values
  {
    forall k ensures k in Keys(Writes(c, name, t, v)) <==> k in LeafNames(c, name, t, v).Values {
      KeyIsLeafName(c, name, t, v, k);
    }
  }

  ghost predicate Injective<A, B>(m: map<A, B>) {
    forall x, y :: x in m && y in m && m[x] == m[y] ==> x == y
  }

  lemma LeafNamesAreInjective(c: Config, name: string, t: Typ, v: Value)
    requires c.Ok() && c.TypOk(t) && c.HasType(t, v) && KeysClean(c, t, v)
    ensures Injective(LeafNames(c, name, t, v))
  {
    var names := LeafNames(c, name, t, v);
    forall p, q | p in names && q in names && names[p] == names[q] ensures p == q {
      LeafNamesInjective(c, name, t, v, p, q);
    }
  }

  /** One entry for each scalar leaf of the value, at every nesting depth. */
  lemma EntriesMatchLeaves(c: Config, name: string, t: Typ, v: Value, out: map<string, string>)
    requires c.Ok() && c.TypOk(t) && c.HasType(t, v) && KeysClean(c, t, v)
    requires Merged(map[], Writes(c, name, t, v), out)
    ensures |out| == |Leaves(c, t, v)|
  {
    KeysAreLeafNames(c, name, t, v);
    LeafNamesAreInjective(c, name, t, v);
    SameSize(LeafNames(c, name, t, v));
    assert out.Keys == Keys(Writes(c, name, t, v));
  }

  /** An injective map has as many values as keys. */
  lemma {:induction false} SameSize<A, B>(m: map<A, B>)
    requires Injective(m)
    ensures |m.Values| == |m.Keys|
    decreases |m|
  {
    if m != map[] {
      var x :| x in m;
      var rest := m - {x};
      SameSize(rest);
      assert m.Keys == rest.Keys + {x};
      assert m.Values == rest.Values + {m[x]};
    }
  }
}
