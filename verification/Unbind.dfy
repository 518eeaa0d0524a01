/** Unbind: flattening a typed value into `name`, `name.Field`, `name[3]` and `name[key]` entries. */
module UnbindSpec {
  import opened Text
  import opened Decimal
  import opened BinderTypes

  /** One level of the value: how a nested Unbind call is reached. */
  datatype Step = Fld(i: nat) | Index(i: nat) | Key(k: Prim) | Deref

  /** The nested calls that Unbind makes on `v`; unexported fields are never visited. */
  function Steps(c: Config, t: Typ, v: Value): set<Step>
    requires c.Ok() && c.TypOk(t) && c.HasType(t, v)
  {
    match v
    case SliceV(es) => set i | 0 <= i < |es| :: Index(i)
    case StructV(fs) => set i | 0 <= i < |fs| && c.structs[t.id][i].exported :: Fld(i)
    case MapV(m) => set k | k in m :: Key(k)
    case PtrV(_) => {Deref}
    case _ => {}
  }

  function SubVal(c: Config, t: Typ, v: Value, s: Step): (r: Value)
    requires c.Ok() && c.TypOk(t) && c.HasType(t, v) && s in Steps(c, t, v)
    ensures r < v
  {
    match s
    case Fld(i) => v.fields[i]
    case Index(i) => v.elems[i]
    case Key(k) => v.entries[k]
    case Deref => v.to
  }

  function SubTyp(c: Config, t: Typ, v: Value, s: Step): (r: Typ)
    requires c.Ok() && c.TypOk(t) && c.HasType(t, v) && s in Steps(c, t, v)
    ensures c.TypOk(r) && c.HasType(r, SubVal(c, t, v, s))
  {
    match s
    case Fld(i) => assert c.FieldsOk(t.id); c.structs[t.id][i].typ
    case Index(_) => t.elem
    case Key(_) => t.elem
    case Deref => t.elem
  }

  function SubName(c: Config, name: string, t: Typ, v: Value, s: Step): string
    requires c.Ok() && c.TypOk(t) && c.HasType(t, v) && s in Steps(c, t, v)
  {
    match s
    case Fld(i) => name + "." + c.structs[t.id][i].name
    case Index(i) => name + "[" + FormatNat(i) + "]"
    case Key(k) => name + "[" + PrimText(k) + "]"
    case Deref => name
  }

  /** Every (key, text) pair that Unbind stores for `v` under `name`. */
  function Writes(c: Config, name: string, t: Typ, v: Value): set<(string, string)>
    requires c.Ok() && c.TypOk(t) && c.HasType(t, v)
    decreases v
  {
    if v.PrimV? then {(name, PrimText(v.p))}
    else
      set s, w | s in Steps(c, t, v)
              && w in Writes(c, SubName(c, name, t, v, s), SubTyp(c, t, v, s), SubVal(c, t, v, s)) :: w
  }

  function SubWrites(c: Config, name: string, t: Typ, v: Value, s: Step): set<(string, string)>
    requires c.Ok() && c.TypOk(t) && c.HasType(t, v) && s in Steps(c, t, v)
  {
    Writes(c, SubName(c, name, t, v, s), SubTyp(c, t, v, s), SubVal(c, t, v, s))
  }

  function Keys(ws: set<(string, string)>): set<string> {
    set w | w in ws :: w.0
  }

  /** No nil pointer is visited: Unbind dereferences every pointer it meets. */
  predicate Printable(c: Config, t: Typ, v: Value)
    requires c.Ok() && c.TypOk(t) && c.HasType(t, v)
    decreases v
  {
    v != NilPtr && forall s :: s in Steps(c, t, v) ==> Printable(c, SubTyp(c, t, v, s), SubVal(c, t, v, s))
  }

  /** Unbind stores nothing for `v`. */
  predicate Silent(c: Config, t: Typ, v: Value)
    requires c.Ok() && c.TypOk(t) && c.HasType(t, v)
    decreases v
  {
    !v.PrimV? && forall s :: s in Steps(c, t, v) ==> Silent(c, SubTyp(c, t, v, s), SubVal(c, t, v, s))
  }

  /** No visited map key holds a separator. */
  predicate KeysClean(c: Config, t: Typ, v: Value)
    requires c.Ok() && c.TypOk(t) && c.HasType(t, v)
    decreases v
  {
    forall s :: s in Steps(c, t, v) ==>
      (s.Key? ==> Clean(PrimText(s.k))) && KeysClean(c, SubTyp(c, t, v, s), SubVal(c, t, v, s))
  }

  /** `out` is `before` overwritten by one pair of `ws` at each key of `ws`. */
  ghost predicate Merged(before: map<string, string>, ws: set<(string, string)>, out: map<string, string>) {
    && out.Keys == before.Keys + Keys(ws)
    && forall k :: k in out ==> if k in Keys(ws) then (k, out[k]) in ws else out[k] == before[k]
  }

  lemma MergedTwice(a: map<string, string>, ws: set<(string, string)>, b: map<string, string>,
                    vs: set<(string, string)>, d: map<string, string>)
    requires Merged(a, ws, b) && Merged(b, vs, d)
    ensures Merged(a, ws + vs, d)
  {
    assert Keys(ws + vs) == Keys(ws) + Keys(vs);
  }

  // ----- the keys of one value -----

  /** `k` is `name` itself or a parameter nested below it. */
  predicate Under(name: string, k: string) {
    k == name || name + "." <= k || name + "[" <= k
  }

  lemma UnderTrans(a: string, b: string, k: string)
    requires Under(a, b) && Under(b, k)
    ensures Under(a, k)
  {
  }

  lemma StepIsUnder(c: Config, name: string, t: Typ, v: Value, s: Step)
    requires c.Ok() && c.TypOk(t) && c.HasType(t, v) && s in Steps(c, t, v)
    ensures Under(name, SubName(c, name, t, v, s))
  {
    var n := SubName(c, name, t, v, s);
    match s
    case Fld(i) => assert n[..|name| + 1] == name + ".";
    case Index(i) => assert n[..|name| + 1] == name + "[";
    case Key(k) => assert n[..|name| + 1] == name + "[";
    case Deref =>
  }

  lemma {:induction false} WritesAreUnder(c: Config, name: string, t: Typ, v: Value, w: (string, string))
    requires c.Ok() && c.TypOk(t) && c.HasType(t, v) && w in Writes(c, name, t, v)
    ensures Under(name, w.0)
    decreases v
  {
    if !v.PrimV? {
      var s :| s in Steps(c, t, v)
            && w in Writes(c, SubName(c, name, t, v, s), SubTyp(c, t, v, s), SubVal(c, t, v, s));
      WritesAreUnder(c, SubName(c, name, t, v, s), SubTyp(c, t, v, s), SubVal(c, t, v, s), w);
      StepIsUnder(c, name, t, v, s);
      UnderTrans(name, SubName(c, name, t, v, s), w.0);
    }
  }
}
