/** The unbind half of binder.go as it runs: recursion over a shared output map. */
module UnbindImpl {
  import opened Decimal
  import opened BinderTypes
  import opened UnbindSpec

  /** The caller's map[string]string. */
  class Output {
    var entries: map<string, string>

    constructor ()
      ensures entries == map[]
    {
      entries := map[];
    }

    method Set(key: string, text: string)
      modifies this
      ensures entries == old(entries)[key := text]
    {
      entries := entries[key := text];
    }
  }

  ghost function WritesOver(c: Config, name: string, t: Typ, v: Value, steps: set<Step>): set<(string, string)>
    requires c.Ok() && c.TypOk(t) && c.HasType(t, v) && steps <= Steps(c, t, v)
  {
    set s, w | s in steps && w in SubWrites(c, name, t, v, s) :: w
  }

  lemma WritesOverAll(c: Config, name: string, t: Typ, v: Value)
    requires c.Ok() && c.TypOk(t) && c.HasType(t, v) && !v.PrimV?
    ensures WritesOver(c, name, t, v, Steps(c, t, v)) == Writes(c, name, t, v)
  {
    forall w | w in Writes(c, name, t, v)
      ensures w in WritesOver(c, name, t, v, Steps(c, t, v))
    {
      var s :| s in Steps(c, t, v)
            && w in Writes(c, SubName(c, name, t, v, s), SubTyp(c, t, v, s), SubVal(c, t, v, s));
      assert w in SubWrites(c, name, t, v, s);
    }
  }

  /** What one more nested call adds to the output. */
  lemma MergedStep(c: Config, name: string, t: Typ, v: Value, steps: set<Step>, s: Step,
                   a: map<string, string>, b: map<string, string>, d: map<string, string>)
    requires c.Ok() && c.TypOk(t) && c.HasType(t, v) && steps <= Steps(c, t, v) && s in Steps(c, t, v)
    requires Merged(a, WritesOver(c, name, t, v, steps), b) && Merged(b, SubWrites(c, name, t, v, s), d)
    ensures Merged(a, WritesOver(c, name, t, v, steps + {s}), d)
  {
    MergedTwice(a, WritesOver(c, name, t, v, steps), b, SubWrites(c, name, t, v, s), d);
    assert WritesOver(c, name, t, v, steps + {s})
        == WritesOver(c, name, t, v, steps) + SubWrites(c, name, t, v, s);
  }

  /** The steps of an aggregate that its loop has finished, all of them without meeting a nil pointer. */
  ghost predicate DoneOver(c: Config, name: string, t: Typ, v: Value, steps: set<Step>,
                           before: map<string, string>, now: map<string, string>)
    requires c.Ok() && c.TypOk(t) && c.HasType(t, v)
  {
    && steps <= Steps(c, t, v)
    && Merged(before, WritesOver(c, name, t, v, steps), now)
    && forall s :: s in steps ==> Printable(c, SubTyp(c, t, v, s), SubVal(c, t, v, s))
  }

  /**
    Stores every pair of Writes, and touches no other key. The call panics (`ok` is false)
    exactly when it meets a nil pointer.
   */
  method Unbind(c: Config, out: Output, name: string, t: Typ, v: Value) returns (ok: bool)
    requires c.Ok() && c.TypOk(t) && c.HasType(t, v)
    modifies out
    ensures ok <==> Printable(c, t, v)
    ensures ok ==> Merged(old(out.entries), Writes(c, name, t, v), out.entries)
    decreases v, 1
  {
    match t
    case Basic(_) =>
      out.Set(name, PrimText(v.p));
      ok := true;
    case BytesT => ok := true;
    case SliceT(_) => ok := UnbindSlice(c, out, name, t, v);
    case StructT(_) => ok := UnbindStruct(c, out, name, t, v);
    case MapT(_, _) => ok := UnbindMap(c, out, name, t, v);
    case PtrT(e) =>
      if v.NilPtr? { return false; }
      ok := Unbind(c, out, name, e, v.to);
      assert Deref in Steps(c, t, v);
      if ok {
        WritesOverAll(c, name, t, v);
        assert WritesOver(c, name, t, v, Steps(c, t, v)) == SubWrites(c, name, t, v, Deref);
      }
  }

  method UnbindSlice(c: Config, out: Output, name: string, t: Typ, v: Value) returns (ok: bool)
    requires c.Ok() && c.TypOk(t) && c.HasType(t, v) && v.SliceV?
    modifies out
    ensures ok <==> Printable(c, t, v)
    ensures ok ==> Merged(old(out.entries), Writes(c, name, t, v), out.entries)
    decreases v, 0
  {
    ghost var done := {};
    for i := 0 to |v.elems|
      invariant done == set j | 0 <= j < i :: Index(j)
      invariant DoneOver(c, name, t, v, done, old(out.entries), out.entries)
    {
      ghost var mid := out.entries;
      assert Index(i) in Steps(c, t, v);
      ok := Unbind(c, out, name + "[" + FormatNat(i) + "]", t.elem, v.elems[i]);
      if !ok { return; }
      MergedStep(c, name, t, v, done, Index(i), old(out.entries), mid, out.entries);
      done := done + {Index(i)};
    }
    assert done == Steps(c, t, v);
    WritesOverAll(c, name, t, v);
    ok := true;
  }

  method UnbindStruct(c: Config, out: Output, name: string, t: Typ, v: Value) returns (ok: bool)
    requires c.Ok() && c.TypOk(t) && c.HasType(t, v) && v.StructV?
    modifies out
    ensures ok <==> Printable(c, t, v)
    ensures ok ==> Merged(old(out.entries), Writes(c, name, t, v), out.entries)
    decreases v, 0
  {
    ghost var done := {};
    for i := 0 to |v.fields|
      invariant done == set j | 0 <= j < i && c.structs[t.id][j].exported :: Fld(j)
      invariant DoneOver(c, name, t, v, done, old(out.entries), out.entries)
    {
      var f := c.structs[t.id][i];
      if f.exported {
        ghost var mid := out.entries;
        assert Fld(i) in Steps(c, t, v);
        assert c.TypOk(f.typ) by { assert c.FieldsOk(t.id); }
        ok := Unbind(c, out, name + "." + f.name, f.typ, v.fields[i]);
        if !ok { return; }
        MergedStep(c, name, t, v, done, Fld(i), old(out.entries), mid, out.entries);
        done := done + {Fld(i)};
      }
    }
    assert done == Steps(c, t, v);
    WritesOverAll(c, name, t, v);
    ok := true;
  }

  /** The keys come in any order. */
  method UnbindMap(c: Config, out: Output, name: string, t: Typ, v: Value) returns (ok: bool)
    requires c.Ok() && c.TypOk(t) && c.HasType(t, v) && v.MapV?
    modifies out
    ensures ok <==> Printable(c, t, v)
    ensures ok ==> Merged(old(out.entries), Writes(c, name, t, v), out.entries)
    decreases v, 0
  {
    var left := v.entries.Keys;
    ghost var done := {};
    while left != {}
      invariant left <= v.entries.Keys
      invariant done == set k | k in v.entries && k !in left :: Key(k)
      invariant DoneOver(c, name, t, v, done, old(out.entries), out.entries)
      decreases |left|
    {
      var k :| k in left;
      left := left - {k};
      ghost var mid := out.entries;
      assert Key(k) in Steps(c, t, v);
      ok := Unbind(c, out, name + "[" + PrimText(k) + "]", t.elem, v.entries[k]);
      if !ok { return; }
      MergedStep(c, name, t, v, done, Key(k), old(out.entries), mid, out.entries);
      done := done + {Key(k)};
    }
    assert done == Steps(c, t, v);
    WritesOverAll(c, name, t, v);
    ok := true;
  }
}
