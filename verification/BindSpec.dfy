/**
  What Bind may return. Go visits the parameter map in an unspecified order, and the order can
  matter, so the specification is a relation: Outcome holds of every value that some visiting
  order produces. Panics says exactly when the call does not return.
 */
module BindSpec {
  import opened Text
  import opened Decimal
  import opened BinderTypes

  type Params = map<string, seq<string>>

  /** The parameters of BindValue: one text under the empty name. */
  function Single(text: string): Params { map["" := [text]] }

  // ----- reading a key of a slice: name[3], name[3].sub, name[] -----

  /** The position of the first closing bracket at or after `from`, or `from` - 1. */
  function CloseBracket(key: string, from: nat): (r: int)
    requires from <= |key|
    ensures from - 1 <= r < |key|
  {
    IndexOf(key[from..], ']') + from
  }

  /** The index of an element key, or a negative number when it is un-indexed. */
  function SliceIndex(name: string, key: string): int
    requires name + "[" <= key
  {
    var right := CloseBracket(key, |name|);
    if right > |name| + 1 then AtoiDroppingError(key[|name| + 1..right]) else -1
  }

  predicate Indexed(c: Config, name: string, key: string) {
    name + "[" <= key && 0 <= SliceIndex(name, key) <= c.maxIndex
  }

  predicate Unindexed(name: string, key: string) {
    name + "[" <= key && SliceIndex(name, key) < 0
  }

  /** The name under which an indexed element is bound: the key up to its closing bracket. */
  function SliceChild(name: string, key: string): string
    requires name + "[" <= key
  {
    key[..CloseBracket(key, |name|) + 1]
  }

  // ----- reading a key of a struct: name.Field, name.Field[0] -----

  function FieldText(name: string, key: string): string
    requires name + "." <= key
  {
    NextKey(key[|name| + 1..])
  }

  predicate Touches(name: string, field: string, key: string) {
    name + "." <= key && FieldText(name, key) == field
  }

  predicate Touched(params: Params, name: string, field: string) {
    exists k :: k in params && Touches(name, field, k)
  }

  // ----- reading a key of a map: name[key] -----

  /** The bracket text as bindMap takes it: the next segment, without its last character. */
  function MapText(name: string, key: string): string
    requires |name| < |key|
  {
    var segment := NextKey(key[|name| + 1..]);
    if segment == "" then "" else segment[..|segment| - 1]
  }

  function MapChild(name: string, text: string): string { name + "[" + text + "]" }

  predicate MapHit(name: string, key: string) {
    |name| < |key| && MapChild(name, MapText(name, key)) <= key
  }

  // ----- the nested calls -----

  ghost function MaxLen(keys: set<string>): (n: nat)
    ensures forall k :: k in keys ==> |k| <= n
    ensures n > 0 ==> exists k :: k in keys && |k| == n
  {
    if keys == {} then 0
    else
      var k :| k in keys;
      var rest := MaxLen(keys - {k});
      assert forall x :: x in keys ==> x == k || x in keys - {k};
      if |k| > rest then |k| else rest
  }

  /** How much longer a name can grow while it is still a prefix of some parameter. */
  ghost function Slack(params: Params, name: string): nat {
    if |name| <= MaxLen(params.Keys) then MaxLen(params.Keys) - |name| else 0
  }

  lemma LongerName(params: Params, name: string, child: string, key: string)
    requires key in params && child <= key && |name| < |child|
    ensures Slack(params, child) < Slack(params, name)
  {
  }

  /** The calls that Bind makes on the same parameters: (name, type) pairs. */
  ghost function Children(c: Config, params: Params, name: string, t: Typ): (r: set<(string, Typ)>)
    requires c.Ok() && c.TypOk(t)
    ensures forall x :: x in r ==> c.TypOk(x.1)
    ensures forall x :: x in r ==> if t.PtrT? then x == (name, t.elem) else Slack(params, x.0) < Slack(params, name)
  {
    match t
    case SliceT(e) =>
      forall k | k in params && Indexed(c, name, k)
        ensures Slack(params, SliceChild(name, k)) < Slack(params, name)
      {
        SliceChildSmaller(c, params, name, k);
      }
      set k | k in params && Indexed(c, name, k) :: (SliceChild(name, k), e)
    case StructT(id) =>
      assert c.FieldsOk(id);
      var fs := c.structs[id];
      forall i | 0 <= i < |fs| && Touched(params, name, fs[i].name)
        ensures Slack(params, name + "." + fs[i].name) < Slack(params, name)
      {
        FieldChildSmaller(params, name, fs[i].name);
      }
      set i | 0 <= i < |fs| && fs[i].exported && Touched(params, name, fs[i].name)
           :: (name + "." + fs[i].name, fs[i].typ)
    case MapT(_, e) =>
      forall k | k in params && MapHit(name, k)
        ensures Slack(params, MapChild(name, MapText(name, k))) < Slack(params, name)
      {
        MapChildSmaller(params, name, k);
      }
      set k | k in params && MapHit(name, k) :: (MapChild(name, MapText(name, k)), e)
    case PtrT(e) => {(name, e)}
    case _ => {}
  }

  lemma SliceChildSmaller(c: Config, params: Params, name: string, key: string)
    requires key in params && Indexed(c, name, key)
    ensures Slack(params, SliceChild(name, key)) < Slack(params, name)
  {
    LongerName(params, name, SliceChild(name, key), key);
  }

  lemma FieldChildSmaller(params: Params, name: string, field: string)
    requires Touched(params, name, field)
    ensures Slack(params, name + "." + field) < Slack(params, name)
  {
    var k :| k in params && Touches(name, field, k);
    FieldNamePrefix(name, k);
    LongerName(params, name, name + "." + field, k);
  }

  lemma MapChildSmaller(params: Params, name: string, key: string)
    requires key in params && MapHit(name, key)
    ensures Slack(params, MapChild(name, MapText(name, key))) < Slack(params, name)
  {
    LongerName(params, name, MapChild(name, MapText(name, key)), key);
  }

  lemma FieldNamePrefix(name: string, key: string)
    requires name + "." <= key
    ensures name + "." + FieldText(name, key) <= key
  {
    assert key == name + "." + key[|name| + 1..];
  }

  /**
    Bind panics: bindMap slices one past a parameter that equals the map's own name, here or in a
    nested call, including the one-parameter calls that bind un-indexed slice elements.
   */
  ghost predicate Panics(c: Config, params: Params, name: string, t: Typ)
    requires c.Ok() && c.TypOk(t)
    decreases Slack(params, name), PtrDepth(t)
  {
    || (t.MapT? && name in params)
    || (t.SliceT? && Slack(params, name) > 0
        && exists text :: text in LooseTexts(params, name)
                          && (SingleHasNoSlack(text); Panics(c, Single(text), "", t.elem)))
    || exists x :: x in Children(c, params, name, t) && Panics(c, params, x.0, x.1)
  }

  /** The un-indexed texts of a slice. */
  ghost function LooseTexts(params: Params, name: string): set<string> {
    set k, text | k in params && Unindexed(name, k) && text in params[k] :: text
  }

  lemma SingleHasNoSlack(text: string)
    ensures Slack(Single(text), "") == 0
  {
    assert Single(text).Keys == {""};
  }

  lemma UnindexedHasSlack(params: Params, name: string, key: string)
    requires key in params && name + "[" <= key
    ensures Slack(params, name) > 0
  {
    LongerName(params, name, name + "[", key);
  }

  // ----- the bound value -----

  /** Whether reflect can take the address of what Bind returns: PointerBinder gives nil otherwise. */
  predicate Addressable(params: Params, name: string, t: Typ) {
    match t
    case Basic(s) => name in params && params[name] != [] && ParsePrim(s, params[name][0]).1
    case StructT(_) => true
    case MapT(_, _) => true
    case _ => false
  }

  /** `n` is one more than the largest index among the parameters of a slice. */
  ghost predicate Extent(c: Config, params: Params, name: string, n: nat) {
    && (forall k :: k in params && Indexed(c, name, k) ==> SliceIndex(name, k) < n)
    && (n > 0 ==> exists k :: k in params && Indexed(c, name, k) && SliceIndex(name, k) == n - 1)
  }

  /** `order` lists the un-indexed keys of a slice, each once. */
  ghost predicate Listing(params: Params, name: string, order: seq<string>) {
    && (forall i :: 0 <= i < |order| ==> order[i] in params && Unindexed(name, order[i]))
    && (forall i, j :: 0 <= i < j < |order| ==> order[i] != order[j])
    && (forall k :: k in params && Unindexed(name, k) ==> k in order)
  }

  /** The texts of the listed keys, in order. */
  ghost function Texts(params: Params, order: seq<string>): seq<string>
    requires forall i :: 0 <= i < |order| ==> order[i] in params
  {
    if order == [] then []
    else Texts(params, order[..|order| - 1]) + params[order[|order| - 1]]
  }

  /** `v` is what Bind(params, name, t) returns for some visiting orders, as BindPlans.OutcomeIff states. */
  ghost predicate Outcome(c: Config, params: Params, name: string, t: Typ, v: Value)
    requires c.Ok() && c.TypOk(t)
    decreases Slack(params, name), PtrDepth(t), 2
  {
    match t
    case Basic(s) =>
      v == PrimV(if name in params && params[name] != [] then ParsePrim(s, params[name][0]).0 else ZeroPrim(s))
    case BytesT => v == BytesV("")
    case SliceT(e) =>
      v.SliceV? && exists n: nat, order: seq<string> :: SliceOutcome(c, params, name, t, v.elems, n, order)
    case StructT(id) =>
      assert c.FieldsOk(id);
      && v.StructV? && |v.fields| == |c.structs[id]|
      && forall i :: 0 <= i < |v.fields| ==> FieldOutcome(c, params, name, t, i, v.fields[i])
    case MapT(key, e) =>
      && v.MapV?
      && (forall k {:trigger KeyBound(name, key, k, v.entries.Keys)} ::
            k in params ==> KeyBound(name, key, k, v.entries.Keys))
      && (forall p {:trigger EntryOutcome(c, params, name, t, p, v.entries[p])} ::
            p in v.entries ==> EntryOutcome(c, params, name, t, p, v.entries[p]))
    case PtrT(e) =>
      if Addressable(params, name, e) then v.PtrV? && Outcome(c, params, name, e, v.to) else v == NilPtr
  }

  ghost predicate KeyBound(name: string, key: Scalar, k: string, ps: set<Prim>) {
    MapHit(name, k) ==> ParsePrim(key, MapText(name, k)).0 in ps
  }

  /** An entry is what one of the parameters that name its key is bound to. */
  ghost predicate EntryOutcome(c: Config, params: Params, name: string, t: Typ, p: Prim, v: Value)
    requires c.Ok() && c.TypOk(t) && t.MapT?
    decreases Slack(params, name), 0, 0
  {
    exists k :: k in params && MapHit(name, k) && ParsePrim(t.key, MapText(name, k)).0 == p
             && Slack(params, MapChild(name, MapText(name, k))) < Slack(params, name)
             && Outcome(c, params, MapChild(name, MapText(name, k)), t.elem, v)
  }

  /** An exported field that some key names is bound; every other field stays zero. */
  ghost predicate FieldOutcome(c: Config, params: Params, name: string, t: Typ, i: nat, v: Value)
    requires c.Ok() && c.TypOk(t) && t.StructT? && i < |c.structs[t.id]|
    decreases Slack(params, name), 0, 0
  {
    assert c.FieldsOk(t.id);
    var f := c.structs[t.id][i];
    if f.exported && Touched(params, name, f.name) then
      FieldChildSmaller(params, name, f.name);
      Outcome(c, params, name + "." + f.name, f.typ, v)
    else v == c.Zero(f.typ)
  }

  /**
    The elements are `n` indexed slots and then the un-indexed texts in the order visited. A slot
    holds what one of the keys with its index is bound to, or zero when there is none.
   */
  ghost predicate SliceOutcome(c: Config, params: Params, name: string, t: Typ, es: seq<Value>, n: nat,
                               order: seq<string>)
    requires c.Ok() && c.TypOk(t) && t.SliceT?
    decreases Slack(params, name), 0, 1
  {
    && Extent(c, params, name, n) && n <= |es|
    && Listing(params, name, order)
    && (forall i :: 0 <= i < n ==> SlotOutcome(c, params, name, t, i, es[i]))
    && var texts := Texts(params, order);
       |es| == n + |texts| && forall j :: 0 <= j < |texts| ==> LooseOutcome(c, params, name, t, texts[j], es[n + j])
  }

  ghost predicate SlotOutcome(c: Config, params: Params, name: string, t: Typ, i: nat, v: Value)
    requires c.Ok() && c.TypOk(t) && t.SliceT?
    decreases Slack(params, name), 0, 0
  {
    if Filled(c, params, name, i) then
      exists k :: SlotKey(c, params, name, i, k)
               && Slack(params, SliceChild(name, k)) < Slack(params, name)
               && Outcome(c, params, SliceChild(name, k), t.elem, v)
    else v == c.Zero(t.elem)
  }

  /** Some parameter has index `i`. */
  ghost predicate Filled(c: Config, params: Params, name: string, i: int) {
    exists k :: SlotKey(c, params, name, i, k)
  }

  ghost predicate SlotKey(c: Config, params: Params, name: string, i: int, k: string) {
    k in params && Indexed(c, name, k) && SliceIndex(name, k) == i
  }

  /** An un-indexed text is bound on its own. (Its key is below `name`, so there is slack.) */
  ghost predicate LooseOutcome(c: Config, params: Params, name: string, t: Typ, text: string, v: Value)
    requires c.Ok() && c.TypOk(t) && t.SliceT?
    decreases Slack(params, name), 0, 0
  {
    SingleHasNoSlack(text);
    Slack(params, name) > 0 && Outcome(c, Single(text), "", t.elem, v)
  }
}
