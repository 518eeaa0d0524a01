/**
  What Bind returns has the type that was asked for, and no map key that holds a separator, so a value
  with such a key cannot come back.
 */
module BindKeys {
  import opened Text
  import opened Decimal
  import opened BinderTypes
  import opened UnbindSpec
  import opened BindSpec

  /** No slice in the value is longer than an int can count. */
  predicate Countable(v: Value) {
    match v
    case SliceV(es) => |es| < TWO63 && forall i :: 0 <= i < |es| ==> Countable(es[i])
    case StructV(fs) => forall i :: 0 <= i < |fs| ==> Countable(fs[i])
    case MapV(m) => forall k :: k in m ==> Countable(m[k])
    case PtrV(p) => Countable(p)
    case _ => true
  }

  ghost predicate CleanTyped(c: Config, t: Typ, v: Value)
    requires c.Ok() && c.TypOk(t)
  {
    c.HasType(t, v) && KeysClean(c, t, v)
  }

  lemma {:induction false} ZeroKeysClean(c: Config, t: Typ)
    requires c.Ok() && c.TypOk(t)
    ensures CleanTyped(c, t, c.Zero(t))
    decreases if t.StructT? then t.id + 1 else 0
  {
    if t.StructT? {
      assert c.FieldsOk(t.id);
      forall i | 0 <= i < |c.structs[t.id]|
        ensures var f := c.structs[t.id][i]; CleanTyped(c, f.typ, c.Zero(f.typ))
      {
        ZeroKeysClean(c, c.structs[t.id][i].typ);
      }
    }
  }

  lemma CleanPrefix(a: string, b: string)
    requires a <= b && Clean(b)
    ensures Clean(a)
  {
    assert forall i :: 0 <= i < |a| ==> a[i] == b[i] && b[i] in b;
  }

  /** Whatever the bracket text, the key it parses to prints without separators. */
  lemma BoundKeyIsClean(s: Scalar, name: string, k: string)
    requires MapHit(name, k)
    ensures Clean(PrimText(ParsePrim(s, MapText(name, k)).0))
  {
    var segment := NextKey(k[|name| + 1..]);
    CleanPrefix(MapText(name, k), segment);
  }

  /** Whatever the parameters: a bound value is of its type, and its map keys are clean at every depth. */
  lemma {:induction false} OutcomeKeysClean(c: Config, params: Params, name: string, t: Typ, v: Value)
    requires c.Ok() && c.TypOk(t) && Countable(v) && Outcome(c, params, name, t, v)
    ensures CleanTyped(c, t, v)
    decreases Slack(params, name), PtrDepth(t), 3
  {
    match t
    case Basic(_) =>
    case BytesT =>
    case SliceT(e) =>
      forall i | 0 <= i < |v.elems| ensures CleanTyped(c, e, v.elems[i]) {
        ElementKeysClean(c, params, name, t, v.elems, i);
      }
    case StructT(id) =>
      assert c.FieldsOk(id);
      forall i | 0 <= i < |v.fields| ensures CleanTyped(c, c.structs[id][i].typ, v.fields[i]) {
        assert FieldOutcome(c, params, name, t, i, v.fields[i]);
        FieldKeysClean(c, params, name, t, i, v.fields[i]);
      }
    case MapT(key, e) =>
      forall p | p in v.entries ensures Fits(key, p) && Clean(PrimText(p)) && CleanTyped(c, e, v.entries[p]) {
        assert EntryOutcome(c, params, name, t, p, v.entries[p]);
        EntryKeysClean(c, params, name, t, p, v.entries[p]);
      }
    case PtrT(e) =>
      if v.PtrV? { OutcomeKeysClean(c, params, name, e, v.to); }
  }

  lemma ElementKeysClean(c: Config, params: Params, name: string, t: Typ, es: seq<Value>, i: nat)
    requires c.Ok() && c.TypOk(t) && t.SliceT? && i < |es| && Countable(es[i])
    requires Outcome(c, params, name, t, SliceV(es))
    ensures CleanTyped(c, t.elem, es[i])
    decreases Slack(params, name), 0, 2
  {
    var n: nat, order: seq<string> :| SliceOutcome(c, params, name, t, es, n, order);
    if i < n {
      SlotKeysClean(c, params, name, t, i, es[i]);
    } else {
      var text := Texts(params, order)[i - n];
      assert LooseOutcome(c, params, name, t, text, es[n + (i - n)]);
      SingleHasNoSlack(text);
      OutcomeKeysClean(c, Single(text), "", t.elem, es[i]);
    }
  }

  lemma FieldKeysClean(c: Config, params: Params, name: string, t: Typ, i: nat, v: Value)
    requires c.Ok() && c.TypOk(t) && t.StructT? && i < |c.structs[t.id]|
    requires c.TypOk(c.structs[t.id][i].typ) && Countable(v)
    requires FieldOutcome(c, params, name, t, i, v)
    ensures CleanTyped(c, c.structs[t.id][i].typ, v)
    decreases Slack(params, name), 0, 2
  {
    var f := c.structs[t.id][i];
    if f.exported && Touched(params, name, f.name) {
      FieldChildSmaller(params, name, f.name);
      OutcomeKeysClean(c, params, name + "." + f.name, f.typ, v);
    } else {
      ZeroKeysClean(c, f.typ);
    }
  }

  lemma SlotKeysClean(c: Config, params: Params, name: string, t: Typ, i: nat, v: Value)
    requires c.Ok() && c.TypOk(t) && t.SliceT? && Countable(v)
    requires SlotOutcome(c, params, name, t, i, v)
    ensures CleanTyped(c, t.elem, v)
    decreases Slack(params, name), 0, 1
  {
    if Filled(c, params, name, i) {
      var k :| SlotKey(c, params, name, i, k) && Outcome(c, params, SliceChild(name, k), t.elem, v);
      SliceChildSmaller(c, params, name, k);
      OutcomeKeysClean(c, params, SliceChild(name, k), t.elem, v);
    } else {
      ZeroKeysClean(c, t.elem);
    }
  }

  lemma EntryKeysClean(c: Config, params: Params, name: string, t: Typ, p: Prim, v: Value)
    requires c.Ok() && c.TypOk(t) && t.MapT? && Countable(v)
    requires EntryOutcome(c, params, name, t, p, v)
    ensures Fits(t.key, p) && Clean(PrimText(p)) && CleanTyped(c, t.elem, v)
    decreases Slack(params, name), 0, 2
  {
    var k :| k in params && MapHit(name, k) && ParsePrim(t.key, MapText(name, k)).0 == p
          && Outcome(c, params, MapChild(name, MapText(name, k)), t.elem, v);
    BoundKeyIsClean(t.key, name, k);
    MapChildSmaller(params, name, k);
    OutcomeKeysClean(c, params, MapChild(name, MapText(name, k)), t.elem, v);
  }

  lemma {:induction false} TypedIsCountable(c: Config, t: Typ, v: Value)
    requires c.Ok() && c.TypOk(t) && c.HasType(t, v)
    ensures Countable(v)
    decreases v
  {
    match v
    case SliceV(es) =>
      forall i | 0 <= i < |es| ensures Countable(es[i]) { TypedIsCountable(c, t.elem, es[i]); }
    case StructV(fs) =>
      assert c.FieldsOk(t.id);
      forall i | 0 <= i < |fs| ensures Countable(fs[i]) { TypedIsCountable(c, c.structs[t.id][i].typ, fs[i]); }
    case MapV(m) =>
      forall k | k in m ensures Countable(m[k]) { TypedIsCountable(c, t.elem, m[k]); }
    case PtrV(p) => TypedIsCountable(c, t.elem, p);
    case _ =>
  }
}
