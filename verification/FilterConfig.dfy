/**
  filterconfig.go with its slices: a chain is a length of a backing array, an edit appends in place when
  the array has room, and getChain hands out a controller's slice uncopied. So an action's edit can write
  into its controller's chain. FilterEdits says what the edits promise; here is when that is kept.
 */
module FilterConfig {
  import opened Common
  import opened Slices
  import opened FilterEdits

  /** Whether an edit that adds a filter goes to a new array. */
  predicate Full(st: Store, s: Slice)
    requires In(st, s)
  {
    s.len == |st[s.arr]|
  }

  /** What an edit keeps of a chain, and what it appends to that; None is the panic of Add on an empty chain. */
  function Parts(e: Edit, fc: Chain): (r: Option<(nat, Chain)>)
    ensures r.Some? ==> r.value.0 <= |fc|
  {
    match e
    case Add(f) => if fc == [] then None else Some((|fc| - 1, [f, fc[|fc| - 1]]))
    case Remove(target) =>
      var i := Position(fc, target);
      Some(if i == -1 then (|fc|, []) else (i, fc[i + 1..]))
    case Insert(insert, where, target) =>
      var i := Position(fc, target);
      var at := if where == BEFORE then i else i + 1;
      Some(if i == -1 then (|fc|, []) else (at, [insert] + fc[at..]))
  }

  lemma PartsMakeEdit(e: Edit, fc: Chain)
    ensures Parts(e, fc).Some? <==> Edited(e, fc).Some?
    ensures Parts(e, fc).Some? ==>
              var (n, xs) := Parts(e, fc).value;
              Edited(e, fc) == Some(fc[..n] + xs)
  {
    var fc' := fc[..|fc|] + [];
    assert fc' == fc;
    if e.Insert? && Position(fc, e.target) >= 0 {
      var at := if e.where == BEFORE then Position(fc, e.target) else Position(fc, e.target) + 1;
      Reassociate(fc[..at], [e.insert], fc[at..]);
    }
  }

  /** addFilter, rmFilter and insertFilter. */
  function EditSlice(grow: Growth, st: Store, s: Slice, e: Edit): Option<(Store, Slice)>
    requires In(st, s)
  {
    var parts := Parts(e, View(st, s));
    if parts.None? then None else Some(Append(grow, st, Slice(s.arr, parts.value.0), parts.value.1))
  }

  /** The edited slice holds the edited chain, in the old array or in a new one. */
  lemma EditSliceView(grow: Growth, st: Store, s: Slice, e: Edit)
    requires In(st, s)
    ensures var fc, r := View(st, s), EditSlice(grow, st, s, e);
            && (r.Some? <==> Edited(e, fc).Some?)
            && (r.Some? ==>
                  var (st', s') := r.value;
                  && In(st', s') && Some(View(st', s')) == Edited(e, fc)
                  && OnlyAt(st, st', s.arr)
                  && s'.arr == (if Moves(st, s, e) then |st| else s.arr)
                  && (Moves(st, s, e) ==> st' == st + [st'[|st|]]))
  {
    var parts := Parts(e, View(st, s));
    PartsMakeEdit(e, View(st, s));
    MovesIff(st, s, e);
    if parts.Some? {
      AppendView(grow, st, Slice(s.arr, parts.value.0), parts.value.1);
      assert View(st, Slice(s.arr, parts.value.0)) == View(st, s)[..parts.value.0];
    }
  }

  /** The edit makes the chain longer than its array. */
  predicate Moves(st: Store, s: Slice, e: Edit)
    requires In(st, s)
  {
    match e
    case Add(_) => s.len > 0 && Full(st, s)
    case Remove(_) => false
    case Insert(_, _, target) => target in View(st, s) && Full(st, s)
  }

  lemma MovesIff(st: Store, s: Slice, e: Edit)
    requires In(st, s)
    ensures var parts := Parts(e, View(st, s));
            Moves(st, s, e) <==> parts.Some? && parts.value.0 + |parts.value.1| > |st[s.arr]|
  {
  }

  // ----- when an edit in place writes over the slice it started from -----

  /** One of the filters that an edit in place writes over is a different one. */
  predicate Disturbs(e: Edit, fc: Chain) {
    match e
    case Add(f) => fc != [] && fc[|fc| - 1] != f
    case Remove(target) => target in fc && AnyOther(fc, Position(fc, target), target)
    case Insert(insert, where, target) =>
      target in fc && AnyOther(fc, if where == BEFORE then Position(fc, target) else Position(fc, target) + 1, insert)
  }

  /** The edit stays in the array and disturbs what the old slice shows. */
  predicate Overwrites(st: Store, s: Slice, e: Edit)
    requires In(st, s)
  {
    Disturbs(e, View(st, s)) && (e.Remove? || !Full(st, s))
  }

  predicate AnyOther(fc: Chain, from: nat, f: Filter) { exists j :: from <= j < |fc| && fc[j] != f }

  lemma OverwritesIff(grow: Growth, st: Store, s: Slice, e: Edit)
    requires In(st, s) && EditSlice(grow, st, s, e).Some?
    ensures In(EditSlice(grow, st, s, e).value.0, s)
    ensures View(EditSlice(grow, st, s, e).value.0, s) != View(st, s) <==> Overwrites(st, s, e)
  {
    var fc, parts := View(st, s), Parts(e, View(st, s));
    var (n, xs) := parts.value;
    AppendInPlace(grow, st, s, n, xs);
    MovesIff(st, s, e);
    if !Moves(st, s, e) { WritesOver(fc, e, st[s.arr][n + |xs|..]); }
  }

  /** With room in the array, or with nothing added, what the old length shows afterwards. */
  lemma WritesOver(fc: Chain, e: Edit, rest: Chain)
    requires Parts(e, fc).Some?
    requires var (n, xs) := Parts(e, fc).value;
             n + |xs| + |rest| >= |fc| && (n + |xs| <= |fc| ==> rest[..|fc| - n - |xs|] == fc[n + |xs|..])
    ensures var (n, xs) := Parts(e, fc).value;
            (fc[..n] + xs + rest)[..|fc|] != fc <==> Disturbs(e, fc)
  {
    var (n, xs) := Parts(e, fc).value;
    match e
    case Add(f) =>
      assert (fc[..n] + xs + rest)[..|fc|] == fc[..n] + [f];
      assert fc == fc[..n] + [fc[n]];
    case Remove(target) =>
      if target in fc { RemoveWrites(fc, n, rest); } else { NothingWrites(fc, rest); }
    case Insert(insert, where, target) =>
      if target in fc { InsertWrites(fc, n, insert, rest); } else { NothingWrites(fc, rest); }
  }

  lemma NothingWrites(fc: Chain, rest: Chain)
    ensures (fc[..|fc|] + [] + rest)[..|fc|] == fc
  {
  }

  lemma RemoveWrites(fc: Chain, i: nat, rest: Chain)
    requires i < |fc| && rest != [] && rest[0] == fc[|fc| - 1]
    ensures (fc[..i] + fc[i + 1..] + rest)[..|fc|] != fc <==> AnyOther(fc, i, fc[i])
  {
    assert (fc[..i] + fc[i + 1..] + rest)[..|fc|] == fc[..i] + fc[i + 1..] + [fc[|fc| - 1]];
    ShiftedLeft(fc, i);
  }

  lemma InsertWrites(fc: Chain, at: nat, f: Filter, rest: Chain)
    requires at <= |fc|
    ensures (fc[..at] + ([f] + fc[at..]) + rest)[..|fc|] != fc <==> AnyOther(fc, at, f)
  {
    assert (fc[..at] + ([f] + fc[at..]) + rest)[..|fc|] == (fc[..at] + ([f] + fc[at..]))[..|fc|];
    ShiftedRight(fc, at, f);
  }

  /** What the whole slice shows after an append to its first `n` filters. */
  lemma AppendInPlace(grow: Growth, st: Store, s: Slice, n: nat, xs: Chain)
    requires In(st, s) && n <= s.len
    ensures var fc, st' := View(st, s), Append(grow, st, Slice(s.arr, n), xs).0;
            && In(st', s)
            && View(st', s) == if n + |xs| > |st[s.arr]| then fc else (fc[..n] + xs + st[s.arr][n + |xs|..])[..s.len]
  {
    var a, fc := st[s.arr], View(st, s);
    assert fc[..n] == a[..n];
    if n + |xs| <= |a| {
      assert Append(grow, st, Slice(s.arr, n), xs).0[s.arr] == a[..n] + xs + a[n + |xs|..];
    } else {
      assert Append(grow, st, Slice(s.arr, n), xs).0[s.arr] == a;
    }
  }

  lemma {:induction false} AllTheSame(fc: Chain, i: nat, k: nat)
    requires i <= k < |fc| && forall j :: i <= j < k ==> fc[j + 1] == fc[j]
    ensures fc[k] == fc[i]
    decreases k
  {
    if i < k { AllTheSame(fc, i, k - 1); }
  }

  lemma ShiftedLeft(fc: Chain, i: nat)
    requires i < |fc|
    ensures fc[..i] + fc[i + 1..] + [fc[|fc| - 1]] != fc <==> AnyOther(fc, i, fc[i])
  {
    var after := fc[..i] + fc[i + 1..] + [fc[|fc| - 1]];
    if after == fc {
      forall j | i <= j < |fc| ensures fc[j] == fc[i] {
        assert forall k :: i <= k < |fc| - 1 ==> fc[k + 1] == after[k];
        AllTheSame(fc, i, j);
      }
    }
  }

  lemma ShiftedRight(fc: Chain, at: nat, f: Filter)
    requires at <= |fc|
    ensures (fc[..at] + ([f] + fc[at..]))[..|fc|] != fc <==> AnyOther(fc, at, f)
  {
    var after := (fc[..at] + ([f] + fc[at..]))[..|fc|];
    if after == fc {
      forall j | at <= j < |fc| ensures fc[j] == f {
        assert fc[at] == after[at] == f;
        forall k | at <= k < j ensures fc[k + 1] == fc[k] { assert fc[k + 1] == after[k + 1]; }
        AllTheSame(fc, at, j);
      }
    }
  }

  // ----- the configuration -----

  /** The arrays, and the overriding slices by key. */
  datatype State = State(store: Store, over: map<string, Slice>)

  ghost predicate Ok(s: State) { forall k :: k in s.over ==> In(s.store, s.over[k]) }

  /** The overriding chains that can be seen. */
  ghost function Seen(s: State): Overrides
    requires Ok(s)
  {
    map k | k in s.over :: View(s.store, s.over[k])
  }

  /** No two overrides share an array. */
  ghost predicate Apart(s: State) {
    forall k1, k2 :: k1 in s.over && k2 in s.over && k1 != k2 ==> s.over[k1].arr != s.over[k2].arr
  }

  /** Stores the edited slice under a key. */
  function EditKey(grow: Growth, s: State, k: string, chain: Slice, e: Edit): Option<State>
    requires In(s.store, chain)
  {
    var r := EditSlice(grow, s.store, chain, e);
    if r.None? then None else Some(State(r.value.0, s.over[k := r.value.1]))
  }

  /** Only the array of the edited slice is written; `k` gets that array or a new one. */
  lemma EditKeyKeeps(grow: Growth, s: State, k: string, chain: Slice, e: Edit)
    requires Ok(s) && In(s.store, chain)
    ensures var r, fc := EditKey(grow, s, k, chain, e), View(s.store, chain);
            && (r.Some? <==> Edited(e, fc).Some?)
            && (r.Some? ==> Ok(r.value) && k in r.value.over && Some(Seen(r.value)[k]) == Edited(e, fc)
                            && OnlyAt(s.store, r.value.store, chain.arr))
  {
    EditSliceView(grow, s.store, chain, e);
  }

  /** An override with another array, or any other one when the edit moves, is left alone. */
  lemma OtherKey(grow: Growth, s: State, k: string, chain: Slice, e: Edit, j: string)
    requires Ok(s) && In(s.store, chain) && EditKey(grow, s, k, chain, e).Some?
    requires j in s.over && j != k && (s.over[j].arr != chain.arr || Moves(s.store, chain, e))
    ensures var t := EditKey(grow, s, k, chain, e).value;
            && t.over[j] == s.over[j] && In(t.store, t.over[j]) && t.over[j].arr != t.over[k].arr
            && View(t.store, t.over[j]) == View(s.store, s.over[j])
  {
    EditSliceView(grow, s.store, chain, e);
  }

  /**
    An edit of an array that no other override uses, or one that moves, is seen under its key only and
    keeps the arrays apart.
   */
  lemma EditApart(grow: Growth, s: State, k: string, chain: Slice, e: Edit)
    requires Ok(s) && Apart(s) && In(s.store, chain) && EditKey(grow, s, k, chain, e).Some?
    requires Moves(s.store, chain, e) || forall j :: j in s.over && j != k ==> s.over[j].arr != chain.arr
    ensures var t := EditKey(grow, s, k, chain, e).value;
            Ok(t) && Apart(t) && Seen(t) == Seen(s)[k := Edited(e, View(s.store, chain)).value]
  {
    EditKeyKeeps(grow, s, k, chain, e);
    forall j | j in s.over && j != k ensures OtherKept(s, EditKey(grow, s, k, chain, e).value, k, j) {
      OtherKey(grow, s, k, chain, e, j);
    }
    OneKeyDiffers(s, EditKey(grow, s, k, chain, e).value, k);
  }

  ghost predicate OtherKept(s: State, t: State, k: string, j: string)
    requires Ok(s) && Ok(t) && j in s.over && k in t.over
  {
    && j in t.over && t.over[j] == s.over[j] && t.over[j].arr != t.over[k].arr
    && View(t.store, t.over[j]) == View(s.store, s.over[j])
  }

  lemma OneKeyDiffers(s: State, t: State, k: string)
    requires Ok(s) && Ok(t) && Apart(s) && t.over.Keys == s.over.Keys + {k}
    requires forall j :: j in s.over && j != k ==> OtherKept(s, t, k, j)
    ensures Apart(t) && Seen(t) == Seen(s)[k := View(t.store, t.over[k])]
  {
    forall j | j in s.over && j != k ensures Seen(t)[j] == Seen(s)[j] { assert OtherKept(s, t, k, j); }
    SeenDiffers(s, t, k);
    forall k1, k2 | k1 in t.over && k2 in t.over && k1 != k2 ensures t.over[k1].arr != t.over[k2].arr {
      assert k1 != k ==> OtherKept(s, t, k, k1);
      assert k2 != k ==> OtherKept(s, t, k, k2);
    }
  }

  predicate AllIn(s: State, keys: seq<string>) { forall i :: 0 <= i < |keys| ==> keys[i] in s.over }

  predicate Distinct(keys: seq<string>) { forall i, j :: 0 <= i < j < |keys| ==> keys[i] != keys[j] }

  /** A controller's edit goes to the overrides of its actions first, in the order they are visited. */
  function EditEach(grow: Growth, s: State, keys: seq<string>, e: Edit): Option<State>
    requires Ok(s) && AllIn(s, keys)
    ensures var r := EditEach(grow, s, keys, e); r.Some? ==> Ok(r.value) && r.value.over.Keys == s.over.Keys
  {
    if keys == [] then Some(s)
    else
      var before, k := EditEach(grow, s, keys[..|keys| - 1], e), keys[|keys| - 1];
      if before.None? then None
      else
        EditKeyKeeps(grow, before.value, k, before.value.over[k], e);
        EditKey(grow, before.value, k, before.value.over[k], e)
  }

  /** getChain: an override as it is, or a copy of the default chain. */
  function ChainSlice(s: State, base: Option<Chain>, t: Target): Option<(Store, Slice)> {
    if Key(t) in s.over then Some((s.store, s.over[Key(t)]))
    else if t.controllerName in s.over then Some((s.store, s.over[t.controllerName]))
    else if base.None? then None
    else Some((s.store + [base.value], Slice(|s.store|, |base.value|)))
  }

  lemma ChainSliceIn(s: State, base: Option<Chain>, t: Target)
    requires Ok(s) && ChainSlice(s, base, t).Some?
    ensures var (st, chain) := ChainSlice(s, base, t).value;
            In(st, chain) && Ok(s.(store := st)) && Seen(s.(store := st)) == Seen(s)
            && Some(View(st, chain)) == ChainFor(Seen(s), base, t)
  {
    var (st, chain) := ChainSlice(s, base, t).value;
    assert forall k :: k in s.over ==> st[s.over[k].arr] == s.store[s.over[k].arr];
    assert base.Some? ==> base.value[..|base.value|] == base.value;
  }

  /** `order` lists the keys that apply visits, each once. */
  ghost predicate Visits(keys: set<string>, t: Target, order: seq<string>) {
    && (forall i :: 0 <= i < |order| ==> order[i] in keys && Affected(t, order[i]))
    && Distinct(order)
    && (forall k :: k in keys && Affected(t, k) ==> k in order)
  }

  /** apply; None when some step of it panics. */
  function AppliedIn(grow: Growth, s: State, base: Option<Chain>, c: Change, order: seq<string>): Option<State>
    requires Ok(s) && AllIn(s, order)
  {
    var actions := EditEach(grow, s, order, c.edit);
    if actions.None? then None else OwnAppliedIn(grow, actions.value, base, c)
  }

  /** Its last line, for the target's own chain. */
  function OwnAppliedIn(grow: Growth, s: State, base: Option<Chain>, c: Change): Option<State>
    requires Ok(s)
  {
    var chain := ChainSlice(s, base, c.target);
    if chain.None? then None
    else
      ChainSliceIn(s, base, c.target);
      EditKey(grow, s.(store := chain.value.0), Key(c.target), chain.value.1, c.edit)
  }

  // ----- when the promise is kept -----

  /** An action without an override of its own takes over its controller's slice, array and all. */
  predicate Borrows(s: State, t: Target) {
    t.Action? && Key(t) !in s.over && t.controllerName in s.over
  }

  ghost predicate Safe(s: State, c: Change)
    requires Ok(s)
  {
    Borrows(s, c.target) ==> Moves(s.store, s.over[c.target.controllerName], c.edit)
  }

  /** The keys visited have the edit, and the others are as before. */
  ghost predicate EachEdited(before: Overrides, now: Overrides, keys: seq<string>, e: Edit) {
    && now.Keys == before.Keys
    && forall k :: k in before ==> if k in keys then Some(now[k]) == Edited(e, before[k]) else now[k] == before[k]
  }

  ghost predicate SomePanics(before: Overrides, keys: seq<string>, e: Edit) {
    exists i :: 0 <= i < |keys| && keys[i] in before && Edited(e, before[keys[i]]).None?
  }

  /** What the visits so far have led to. */
  ghost predicate EachResult(s: State, r: Option<State>, keys: seq<string>, e: Edit)
    requires Ok(s)
  {
    if r.Some? then Ok(r.value) && Apart(r.value) && EachEdited(Seen(s), Seen(r.value), keys, e)
    else SomePanics(Seen(s), keys, e)
  }

  lemma {:induction false} EachApart(grow: Growth, s: State, keys: seq<string>, e: Edit)
    requires Ok(s) && Apart(s) && AllIn(s, keys) && Distinct(keys)
    ensures EachResult(s, EditEach(grow, s, keys, e), keys, e)
  {
    if keys != [] {
      var init, k := keys[..|keys| - 1], keys[|keys| - 1];
      EachApart(grow, s, init, e);
      assert keys == init + [k] && k !in init;
      OneMoreResult(grow, s, EditEach(grow, s, init, e), init, k, e);
    }
  }

  lemma OneMoreResult(grow: Growth, s: State, before: Option<State>, keys: seq<string>, k: string, e: Edit)
    requires Ok(s) && k in s.over && k !in keys && EachResult(s, before, keys, e)
    ensures before.Some? ==> k in before.value.over && In(before.value.store, before.value.over[k])
    ensures EachResult(s, if before.None? then None else EditKey(grow, before.value, k, before.value.over[k], e),
                       keys + [k], e)
  {
    PanicsMore(Seen(s), keys, k, e);
    if before.Some? {
      assert k in Seen(before.value);
      EditKeyKeeps(grow, before.value, k, before.value.over[k], e);
      OneMoreApart(grow, s, before.value, keys, k, e);
    }
  }

  lemma PanicsMore(over: Overrides, keys: seq<string>, k: string, e: Edit)
    requires k in over
    ensures SomePanics(over, keys, e) || Edited(e, over[k]).None? ==> SomePanics(over, keys + [k], e)
  {
    if SomePanics(over, keys, e) {
      var i :| 0 <= i < |keys| && keys[i] in over && Edited(e, over[keys[i]]).None?;
      assert (keys + [k])[i] == keys[i];
    }
    assert (keys + [k])[|keys|] == k;
  }

  lemma OneMoreApart(grow: Growth, s: State, before: State, keys: seq<string>, k: string, e: Edit)
    requires Ok(s) && Ok(before) && Apart(before) && EachEdited(Seen(s), Seen(before), keys, e)
    requires k in before.over && k !in keys
    ensures Seen(before)[k] == Seen(s)[k]
    ensures var r := EditKey(grow, before, k, before.over[k], e);
            r.Some? ==> Apart(r.value) && Ok(r.value) && EachEdited(Seen(s), Seen(r.value), keys + [k], e)
  {
    assert k in Seen(before);
    EditKeyKeeps(grow, before, k, before.over[k], e);
    if EditKey(grow, before, k, before.over[k], e).Some? {
      EditApart(grow, before, k, before.over[k], e);
      EachOneMore(Seen(s), Seen(before), keys, k, e);
    }
  }

  lemma EachOneMore(before: Overrides, now: Overrides, keys: seq<string>, k: string, e: Edit)
    requires EachEdited(before, now, keys, e) && k in before && k !in keys && Edited(e, before[k]).Some?
    ensures EachEdited(before, now[k := Edited(e, now[k]).value], keys + [k], e)
  {
  }

  lemma PanicIsPromised(before: Overrides, t: Target, order: seq<string>, e: Edit)
    requires Visits(before.Keys, t, order) && SomePanics(before, order, e)
    ensures EditedActions(before, t, e).None?
  {
  }

  /** What the visits lead to is what the promise asks for. */
  lemma EachIsPromised(before: Overrides, now: Overrides, t: Target, order: seq<string>, e: Edit)
    requires Visits(before.Keys, t, order) && EachEdited(before, now, order, e)
    ensures EditedActions(before, t, e) == Some(now)
  {
    forall k | k in before
      ensures Affected(t, k) <==> k in order
      ensures Affected(t, k) ==> Edited(e, before[k]).Some?
    {
      if k in order { var i :| 0 <= i < |order| && order[i] == k; }
    }
    assert (map k | k in before :: if Affected(t, k) then Edited(e, before[k]).value else before[k]) == now;
  }

  /** A safe edit of overrides that are apart is seen as promised, and leaves them apart. */
  lemma SafeEdit(grow: Growth, s: State, base: Option<Chain>, c: Change, order: seq<string>)
    requires Ok(s) && Apart(s) && Named(c.target) && Visits(s.over.Keys, c.target, order) && Safe(s, c)
    ensures var r, promised := AppliedIn(grow, s, base, c, order), Applied(Seen(s), base, c.target, c.edit);
            && (r.Some? <==> promised.Some?)
            && (r.Some? ==> Ok(r.value) && Apart(r.value) && Seen(r.value) == promised.value)
  {
    EachApart(grow, s, order, c.edit);
    var actions := EditEach(grow, s, order, c.edit);
    assert Seen(s).Keys == s.over.Keys;
    if actions.None? {
      PanicIsPromised(Seen(s), c.target, order, c.edit);
    } else {
      EachIsPromised(Seen(s), Seen(actions.value), c.target, order, c.edit);
      StaysSafe(grow, s, c, order);
      OwnEdit(grow, actions.value, base, c);
    }
  }

  lemma ActionVisitsNone(keys: set<string>, t: Target, order: seq<string>)
    requires Visits(keys, t, order) && t.Action?
    ensures order == []
  {
    assert order != [] ==> Affected(t, order[0]);
  }

  /** An action's edit visits no other key. */
  lemma StaysSafe(grow: Growth, s: State, c: Change, order: seq<string>)
    requires Ok(s) && Visits(s.over.Keys, c.target, order) && Safe(s, c) && EditEach(grow, s, order, c.edit).Some?
    ensures Safe(EditEach(grow, s, order, c.edit).value, c)
  {
    if c.target.Action? { ActionVisitsNone(s.over.Keys, c.target, order); }
  }

  lemma OwnEdit(grow: Growth, s: State, base: Option<Chain>, c: Change)
    requires Ok(s) && Apart(s) && Safe(s, c)
    ensures var r, promised := OwnAppliedIn(grow, s, base, c), OwnApplied(Seen(s), base, c.target, c.edit);
            && (r.Some? <==> promised.Some?)
            && (r.Some? ==> Ok(r.value) && Apart(r.value) && Seen(r.value) == promised.value)
  {
    var slice := ChainSlice(s, base, c.target);
    if slice.Some? {
      var (st, chain) := slice.value;
      ChainSliceIn(s, base, c.target);
      EditKeyKeeps(grow, s.(store := st), Key(c.target), chain, c.edit);
      if EditKey(grow, s.(store := st), Key(c.target), chain, c.edit).Some? {
        EditApart(grow, s.(store := st), Key(c.target), chain, c.edit);
      }
    }
  }

  // ----- every sequence of edits -----

  /** An edit, and the order in which apply visited the other overrides. */
  datatype Step = Step(change: Change, order: seq<string>)

  function Changes(steps: seq<Step>): seq<Change> {
    if steps == [] then [] else Changes(steps[..|steps| - 1]) + [steps[|steps| - 1].change]
  }

  lemma AppliedOk(grow: Growth, s: State, base: Option<Chain>, c: Change, order: seq<string>)
    requires Ok(s) && AllIn(s, order)
    ensures var r := AppliedIn(grow, s, base, c, order); r.Some? ==> Ok(r.value)
  {
    var actions := EditEach(grow, s, order, c.edit);
    if actions.Some? && ChainSlice(actions.value, base, c.target).Some? {
      var (st, chain) := ChainSlice(actions.value, base, c.target).value;
      ChainSliceIn(actions.value, base, c.target);
      EditKeyKeeps(grow, actions.value.(store := st), Key(c.target), chain, c.edit);
    }
  }

  /** The state after some edits; None when one of them panics, or its order is none that apply can take. */
  ghost function RunIn(grow: Growth, base: Option<Chain>, steps: seq<Step>): (r: Option<State>)
    ensures r.Some? ==> Ok(r.value)
  {
    if steps == [] then Some(State([], map[]))
    else
      var before, last := RunIn(grow, base, steps[..|steps| - 1]), steps[|steps| - 1];
      if before.None? || !Visits(before.value.over.Keys, last.change.target, last.order) then None
      else
        AppliedOk(grow, before.value, base, last.change, last.order);
        AppliedIn(grow, before.value, base, last.change, last.order)
  }

  ghost predicate SafeRun(grow: Growth, base: Option<Chain>, steps: seq<Step>) {
    steps != [] ==>
      var before := RunIn(grow, base, steps[..|steps| - 1]);
      && SafeRun(grow, base, steps[..|steps| - 1])
      && (before.Some? ==> Safe(before.value, steps[|steps| - 1].change))
  }

  /** What is there after safe edits is what was promised. */
  lemma {:induction false} SafeRunIsPromised(grow: Growth, base: Option<Chain>, steps: seq<Step>)
    requires SafeRun(grow, base, steps) && RunIn(grow, base, steps).Some? && AllNamed(Changes(steps))
    ensures Apart(RunIn(grow, base, steps).value)
    ensures Run(base, Changes(steps)) == Some(Seen(RunIn(grow, base, steps).value))
  {
    if steps == [] {
      assert Seen(State([], map[])) == map[];
    } else {
      var init, last := steps[..|steps| - 1], steps[|steps| - 1];
      NamedBefore(Changes(init), last.change);
      SafeRunIsPromised(grow, base, init);
      SafeEdit(grow, RunIn(grow, base, init).value, base, last.change, last.order);
      RunMore(base, Changes(init), last.change);
    }
  }

  lemma RunMore(base: Option<Chain>, history: seq<Change>, c: Change)
    requires Run(base, history).Some?
    ensures Run(base, history + [c]) == Applied(Run(base, history).value, base, c.target, c.edit)
  {
    assert (history + [c])[..|history|] == history;
  }

  ghost predicate AsPromised(s: State, base: Chain, history: seq<Change>, t: Target)
    requires Ok(s)
  {
    ChainFor(Seen(s), Some(base), t) == Fold(base, Concerning(history, t))
  }

  ghost predicate AllAsPromised(s: State, base: Chain, history: seq<Change>)
    requires Ok(s)
  {
    forall t {:trigger AsPromised(s, base, history, t)} :: Named(t) ==> AsPromised(s, base, history, t)
  }

  lemma RunIsAsPromised(s: State, base: Chain, history: seq<Change>)
    requires Ok(s) && AllNamed(history) && Run(Some(base), history) == Some(Seen(s))
    ensures AllAsPromised(s, base, history)
  {
    forall t | Named(t) ensures AsPromised(s, base, history, t) { EffectiveChain(base, history, t); }
  }

  /**
    An edit after safe ones: every controller and every action has the chain that was promised, if and
    only if the edit does not borrow a controller's array and write another filter over a part of it that
    the controller shows. The arrays stay apart exactly when the edit is safe.
   */
  lemma OneMoreEdit(grow: Growth, base: Chain, steps: seq<Step>, last: Step)
    requires SafeRun(grow, Some(base), steps) && RunIn(grow, Some(base), steps + [last]).Some?
    requires AllNamed(Changes(steps)) && Named(last.change.target)
    ensures RunIn(grow, Some(base), steps).Some?
    ensures var s, c := RunIn(grow, Some(base), steps).value, last.change;
            var after := RunIn(grow, Some(base), steps + [last]).value;
            && (AllAsPromised(after, base, Changes(steps) + [c]) <==>
                  !(Borrows(s, c.target) && Overwrites(s.store, s.over[c.target.controllerName], c.edit)))
            && (Apart(after) <==> Safe(s, c))
  {
    assert (steps + [last])[..|steps|] == steps;
    var s, c := RunIn(grow, Some(base), steps).value, last.change;
    SafeRunIsPromised(grow, Some(base), steps);
    RunMore(Some(base), Changes(steps), c);
    NamedToo(Changes(steps), c);
    var after := RunIn(grow, Some(base), steps + [last]).value;
    if Safe(s, c) {
      SafeEdit(grow, s, Some(base), c, last.order);
      RunIsAsPromised(after, base, Changes(steps) + [c]);
    } else {
      ActionVisitsNone(s.over.Keys, c.target, last.order);
      UnsafeEdit(grow, s, base, Changes(steps), c);
    }
  }

  lemma NamedToo(history: seq<Change>, c: Change)
    requires AllNamed(history) && Named(c.target)
    ensures AllNamed(history + [c])
  {
  }

  lemma UnsafeEdit(grow: Growth, s: State, base: Chain, history: seq<Change>, c: Change)
    requires Ok(s) && Apart(s) && AllNamed(history) && Named(c.target) && AllNamed(history + [c])
    requires Run(Some(base), history) == Some(Seen(s)) && !Safe(s, c) && AppliedIn(grow, s, Some(base), c, []).Some?
    ensures var name, after := c.target.controllerName, AppliedIn(grow, s, Some(base), c, []).value;
            && Ok(after) && !Apart(after)
            && (AllAsPromised(after, base, history + [c]) <==> !Overwrites(s.store, s.over[name], c.edit))
  {
    var name, k := c.target.controllerName, Key(c.target);
    var chain, after := s.over[name], AppliedIn(grow, s, Some(base), c, []).value;
    AppliedOk(grow, s, Some(base), c, []);
    EditSliceView(grow, s.store, chain, c.edit);
    OverwritesIff(grow, s.store, chain, c.edit);
    assert after.over[k].arr == after.over[name].arr && k != name;
    if Overwrites(s.store, chain, c.edit) {
      ControllerIsLost(s, after, base, history, c);
    } else {
      SeenAsApplied(grow, s, base, c);
      RunMore(Some(base), history, c);
      RunIsAsPromised(after, base, history + [c]);
    }
  }

  /** A controller's chain that changed with an edit of an action is not the promised one any more. */
  lemma ControllerIsLost(s: State, after: State, base: Chain, history: seq<Change>, c: Change)
    requires Ok(s) && Ok(after) && AllNamed(history) && Named(c.target) && c.target.Action?
    requires Run(Some(base), history) == Some(Seen(s))
    requires var name := c.target.controllerName;
             name in s.over && name in after.over && Seen(after)[name] != Seen(s)[name]
    ensures !AllAsPromised(after, base, history + [c])
  {
    var t := Controller(c.target.controllerName);
    RunIsAsPromised(s, base, history);
    assert AsPromised(s, base, history, t);
    ConcerningMore(history, c, t);
    assert !AsPromised(after, base, history + [c], t);
  }

  lemma SeenAsApplied(grow: Growth, s: State, base: Chain, c: Change)
    requires Ok(s) && Apart(s) && Borrows(s, c.target) && AppliedIn(grow, s, Some(base), c, []).Some?
    requires !Overwrites(s.store, s.over[c.target.controllerName], c.edit)
    ensures var after := AppliedIn(grow, s, Some(base), c, []).value;
            Ok(after) && Applied(Seen(s), Some(base), c.target, c.edit) == Some(Seen(after))
  {
    var name, k := c.target.controllerName, Key(c.target);
    var chain, after := s.over[name], AppliedIn(grow, s, Some(base), c, []).value;
    AppliedOk(grow, s, Some(base), c, []);
    EditSliceView(grow, s.store, chain, c.edit);
    OverwritesIff(grow, s.store, chain, c.edit);
    EachIsPromised(Seen(s), Seen(s), c.target, [], c.edit);
    assert EditKey(grow, s, k, chain, c.edit) == Some(after);
    OthersKept(grow, s, after, k, name, c.edit);
  }

  lemma OthersKept(grow: Growth, s: State, after: State, k: string, name: string, e: Edit)
    requires Ok(s) && Apart(s) && name in s.over && EditKey(grow, s, k, s.over[name], e) == Some(after)
    requires !Overwrites(s.store, s.over[name], e) && Ok(after)
    ensures k in after.over && Seen(after) == Seen(s)[k := Seen(after)[k]]
  {
    forall j | j in s.over && j != k ensures after.over[j] == s.over[j] && Seen(after)[j] == Seen(s)[j] {
      BorrowedKept(grow, s, k, name, e, j);
    }
    SeenDiffers(s, after, k);
  }

  lemma BorrowedKept(grow: Growth, s: State, k: string, name: string, e: Edit, j: string)
    requires Ok(s) && Apart(s) && name in s.over && EditKey(grow, s, k, s.over[name], e).Some?
    requires !Overwrites(s.store, s.over[name], e) && j in s.over && j != k
    ensures var after := EditKey(grow, s, k, s.over[name], e).value;
            && after.over[j] == s.over[j] && In(after.store, after.over[j])
            && View(after.store, after.over[j]) == View(s.store, s.over[j])
  {
    EditSliceView(grow, s.store, s.over[name], e);
    OverwritesIff(grow, s.store, s.over[name], e);
    if j != name { assert s.over[j].arr != s.over[name].arr; }
  }

  lemma SeenDiffers(s: State, t: State, k: string)
    requires Ok(s) && Ok(t) && t.over.Keys == s.over.Keys + {k}
    requires forall j :: j in s.over && j != k ==> Seen(t)[j] == Seen(s)[j]
    ensures Seen(t) == Seen(s)[k := Seen(t)[k]]
  {
  }

  // ----- a guard that can be read off the edits -----

  /** The action has been edited before, or its controller has not. */
  ghost predicate Guard(before: seq<Change>, c: Change) {
    c.target.Action? ==> Edits(before, c.target) || !Edits(before, Controller(c.target.controllerName))
  }

  ghost predicate Guarded(history: seq<Change>) {
    history != [] ==> Guarded(history[..|history| - 1]) && Guard(history[..|history| - 1], history[|history| - 1])
  }

  lemma {:induction false} GuardedIsSafe(grow: Growth, base: Option<Chain>, steps: seq<Step>)
    requires Guarded(Changes(steps)) && AllNamed(Changes(steps)) && RunIn(grow, base, steps).Some?
    ensures SafeRun(grow, base, steps)
  {
    if steps != [] {
      var init, last := steps[..|steps| - 1], steps[|steps| - 1];
      var history := Changes(init);
      assert Changes(steps)[..|history|] == history;
      NamedBefore(history, last.change);
      GuardedIsSafe(grow, base, init);
      SafeRunIsPromised(grow, base, init);
      RunAgrees(base, history, last.change.target);
      RunAgrees(base, history, Controller(last.change.target.controllerName));
      assert Seen(RunIn(grow, base, init).value).Keys == RunIn(grow, base, init).value.over.Keys;
    }
  }

  /**
    When no action is edited for the first time after its controller has been edited, every target has
    the default chain with exactly the edits that concern it, in order.
   */
  lemma GuardedRun(grow: Growth, base: Chain, steps: seq<Step>)
    requires Guarded(Changes(steps)) && AllNamed(Changes(steps)) && RunIn(grow, Some(base), steps).Some?
    ensures AllAsPromised(RunIn(grow, Some(base), steps).value, base, Changes(steps))
  {
    GuardedIsSafe(grow, Some(base), steps);
    SafeRunIsPromised(grow, Some(base), steps);
    RunIsAsPromised(RunIn(grow, Some(base), steps).value, base, Changes(steps));
  }

  // ----- any sequence of edits, edit by edit -----

  /** One edit of one slice: apply makes one for each override it visits and one for the target itself. */
  datatype Single = Visit(key: string, edit: Edit) | Own(change: Change)

  function KeyOf(m: Single): string { if m.Visit? then m.key else Key(m.change.target) }

  function EditOf(m: Single): Edit { if m.Visit? then m.edit else m.change.edit }

  /** The store and the slice that the edit starts from. */
  function Source(s: State, base: Option<Chain>, m: Single): Option<(Store, Slice)> {
    match m
    case Visit(k, _) => if k in s.over then Some((s.store, s.over[k])) else None
    case Own(c) => ChainSlice(s, base, c.target)
  }

  lemma SourceIn(s: State, base: Option<Chain>, m: Single)
    requires Ok(s) && Source(s, base, m).Some?
    ensures var (st, chain) := Source(s, base, m).value;
            In(st, chain) && Ok(s.(store := st)) && Seen(s.(store := st)) == Seen(s)
  {
    if m.Own? { ChainSliceIn(s, base, m.change.target); }
  }

  ghost function After(grow: Growth, s: State, base: Option<Chain>, m: Single): (r: Option<State>)
    requires Ok(s)
    ensures r.Some? ==> Ok(r.value)
  {
    var source := Source(s, base, m);
    if source.None? then None
    else
      SourceIn(s, base, m);
      EditKeyKeeps(grow, s.(store := source.value.0), KeyOf(m), source.value.1, EditOf(m));
      EditKey(grow, s.(store := source.value.0), KeyOf(m), source.value.1, EditOf(m))
  }

  /** What the edit promises of the chains. */
  function Promised(over: Overrides, base: Option<Chain>, m: Single): Option<Overrides> {
    match m
    case Visit(k, e) =>
      if k !in over || Edited(e, over[k]).None? then None else Some(over[k := Edited(e, over[k]).value])
    case Own(c) => OwnApplied(over, base, c.target, c.edit)
  }

  /** The edit stays in its array and puts a different filter at a place that `u` shows. */
  predicate WritesInto(st: Store, s: Slice, e: Edit, u: Slice)
    requires In(st, s) && In(st, u)
  {
    var parts := Parts(e, View(st, s));
    && parts.Some? && u.arr == s.arr && !Moves(st, s, e)
    && Differs(st[s.arr], parts.value.0, parts.value.1, u.len)
  }

  predicate Differs(a: Chain, n: nat, xs: Chain, len: nat) {
    exists i :: n <= i < len && i < |a| && i < n + |xs| && xs[i - n] != a[i]
  }

  lemma DiffersIff(a: Chain, n: nat, xs: Chain, len: nat)
    requires n + |xs| <= |a| && len <= |a|
    ensures (a[..n] + xs + a[n + |xs|..])[..len] != a[..len] <==> Differs(a, n, xs, len)
  {
    var b := a[..n] + xs + a[n + |xs|..];
    assert |b| == |a|;
    assert forall i :: n <= i < n + |xs| ==> b[i] == xs[i - n];
    if !Differs(a, n, xs, len) {
      forall i | 0 <= i < len ensures b[i] == a[i] {}
      assert b[..len] == a[..len];
    } else {
      var i :| n <= i < len && i < |a| && i < n + |xs| && xs[i - n] != a[i];
      assert b[..len][i] != a[..len][i];
    }
  }

  lemma WritesIntoIff(grow: Growth, st: Store, s: Slice, e: Edit, u: Slice)
    requires In(st, s) && In(st, u) && EditSlice(grow, st, s, e).Some?
    ensures In(EditSlice(grow, st, s, e).value.0, u)
    ensures View(EditSlice(grow, st, s, e).value.0, u) != View(st, u) <==> WritesInto(st, s, e, u)
  {
    var (n, xs) := Parts(e, View(st, s)).value;
    EditSliceView(grow, st, s, e);
    MovesIff(st, s, e);
    if u.arr == s.arr && !Moves(st, s, e) { DiffersIff(st[s.arr], n, xs, u.len); }
  }

  /** Some other override shows what the edit writes. */
  ghost predicate Spills(s: State, base: Option<Chain>, m: Single)
    requires Ok(s) && Source(s, base, m).Some?
  {
    SourceIn(s, base, m);
    var (st, chain) := Source(s, base, m).value;
    exists j :: j in s.over && j != KeyOf(m) && WritesInto(st, chain, EditOf(m), s.over[j])
  }

  /** One edit does what it promises exactly when it does not spill. */
  lemma SingleIff(grow: Growth, s: State, base: Option<Chain>, m: Single)
    requires Ok(s) && After(grow, s, base, m).Some?
    ensures Promised(Seen(s), base, m).Some?
    ensures Promised(Seen(s), base, m) == Some(Seen(After(grow, s, base, m).value)) <==> !Spills(s, base, m)
  {
    OwnSeen(grow, s, base, m);
    OthersSeenIff(grow, s, base, m);
    SeenIff(s, After(grow, s, base, m).value, KeyOf(m));
  }

  /** The edited chain is always the promised one. */
  lemma OwnSeen(grow: Growth, s: State, base: Option<Chain>, m: Single)
    requires Ok(s) && After(grow, s, base, m).Some?
    ensures var t := After(grow, s, base, m).value;
            && t.over.Keys == s.over.Keys + {KeyOf(m)}
            && Promised(Seen(s), base, m) == Some(Seen(s)[KeyOf(m) := Seen(t)[KeyOf(m)]])
  {
    var (st, chain) := Source(s, base, m).value;
    SourceIn(s, base, m);
    EditKeyKeeps(grow, s.(store := st), KeyOf(m), chain, EditOf(m));
    PromisedIs(s, base, m);
  }

  ghost predicate OthersSeen(s: State, t: State, k: string)
    requires Ok(s) && Ok(t) && s.over.Keys <= t.over.Keys
  {
    forall j :: j in s.over && j != k ==> Seen(t)[j] == Seen(s)[j]
  }

  lemma OthersSeenIff(grow: Growth, s: State, base: Option<Chain>, m: Single)
    requires Ok(s) && After(grow, s, base, m).Some? && s.over.Keys <= After(grow, s, base, m).value.over.Keys
    ensures OthersSeen(s, After(grow, s, base, m).value, KeyOf(m)) <==> !Spills(s, base, m)
  {
    var (st, chain) := Source(s, base, m).value;
    var k, e, t := KeyOf(m), EditOf(m), After(grow, s, base, m).value;
    SourceIn(s, base, m);
    forall j | j in s.over && j != k ensures Seen(t)[j] != Seen(s)[j] <==> WritesInto(st, chain, e, s.over[j]) {
      OtherSeenIff(grow, s.(store := st), k, chain, e, j);
      assert Seen(s.(store := st))[j] == Seen(s)[j];
    }
  }

  lemma OtherSeenIff(grow: Growth, s: State, k: string, chain: Slice, e: Edit, j: string)
    requires Ok(s) && In(s.store, chain) && EditKey(grow, s, k, chain, e).Some? && j in s.over && j != k
    ensures var t := EditKey(grow, s, k, chain, e).value;
            && Ok(t) && j in t.over
            && (Seen(t)[j] != Seen(s)[j] <==> WritesInto(s.store, chain, e, s.over[j]))
  {
    EditKeyKeeps(grow, s, k, chain, e);
    WritesIntoIff(grow, s.store, chain, e, s.over[j]);
  }

  lemma PromisedIs(s: State, base: Option<Chain>, m: Single)
    requires Ok(s) && Source(s, base, m).Some?
    ensures var (st, chain) := Source(s, base, m).value;
            && In(st, chain)
            && Promised(Seen(s), base, m)
            == if Edited(EditOf(m), View(st, chain)).None? then None
               else Some(Seen(s)[KeyOf(m) := Edited(EditOf(m), View(st, chain)).value])
  {
    if m.Own? { ChainSliceIn(s, base, m.change.target); }
  }

  lemma SeenIff(s: State, t: State, k: string)
    requires Ok(s) && Ok(t) && t.over.Keys == s.over.Keys + {k}
    ensures Seen(t) == Seen(s)[k := Seen(t)[k]] <==> OthersSeen(s, t, k)
  {
    if OthersSeen(s, t, k) { SeenDiffers(s, t, k); }
  }

  ghost function AfterAll(grow: Growth, s: State, base: Option<Chain>, ms: seq<Single>): (r: Option<State>)
    requires Ok(s)
    ensures r.Some? ==> Ok(r.value)
  {
    if ms == [] then Some(s)
    else
      var before := AfterAll(grow, s, base, ms[..|ms| - 1]);
      if before.None? then None else After(grow, before.value, base, ms[|ms| - 1])
  }

  function PromisedAll(over: Overrides, base: Option<Chain>, ms: seq<Single>): Option<Overrides> {
    if ms == [] then Some(over)
    else
      var before := PromisedAll(over, base, ms[..|ms| - 1]);
      if before.None? then None else Promised(before.value, base, ms[|ms| - 1])
  }

  /** After each edit of the run the chains are the promised ones. */
  ghost predicate KeptThroughout(grow: Growth, s: State, base: Option<Chain>, ms: seq<Single>)
    requires Ok(s) && AfterAll(grow, s, base, ms).Some?
  {
    && PromisedAll(Seen(s), base, ms) == Some(Seen(AfterAll(grow, s, base, ms).value))
    && (ms != [] ==> KeptThroughout(grow, s, base, ms[..|ms| - 1]))
  }

  ghost predicate NeverSpills(grow: Growth, s: State, base: Option<Chain>, ms: seq<Single>)
    requires Ok(s) && AfterAll(grow, s, base, ms).Some?
  {
    ms != [] ==>
      && NeverSpills(grow, s, base, ms[..|ms| - 1])
      && !Spills(AfterAll(grow, s, base, ms[..|ms| - 1]).value, base, ms[|ms| - 1])
  }

  /** Any run, whatever arrays are shared: the promise is kept throughout exactly when no edit spills. */
  lemma {:induction false} KeptIffNoSpill(grow: Growth, s: State, base: Option<Chain>, ms: seq<Single>)
    requires Ok(s) && AfterAll(grow, s, base, ms).Some?
    ensures KeptThroughout(grow, s, base, ms) <==> NeverSpills(grow, s, base, ms)
  {
    if ms != [] {
      var init := ms[..|ms| - 1];
      KeptIffNoSpill(grow, s, base, init);
      SingleIff(grow, AfterAll(grow, s, base, init).value, base, ms[|ms| - 1]);
    }
  }

  function VisitsOf(order: seq<string>, e: Edit): seq<Single> {
    if order == [] then [] else VisitsOf(order[..|order| - 1], e) + [Visit(order[|order| - 1], e)]
  }

  function Singles(steps: seq<Step>): seq<Single> {
    if steps == [] then []
    else
      var last := steps[|steps| - 1];
      Singles(steps[..|steps| - 1]) + (VisitsOf(last.order, last.change.edit) + [Own(last.change)])
  }

  lemma {:induction false} AfterConcat(grow: Growth, s: State, base: Option<Chain>, a: seq<Single>, b: seq<Single>)
    requires Ok(s)
    ensures var before := AfterAll(grow, s, base, a);
            AfterAll(grow, s, base, a + b) == if before.None? then None else AfterAll(grow, before.value, base, b)
    decreases |b|
  {
    if b == [] {
      assert a + b == a;
    } else {
      assert (a + b)[..|a + b| - 1] == a + b[..|b| - 1];
      AfterConcat(grow, s, base, a, b[..|b| - 1]);
    }
  }

  lemma {:induction false} PromisedConcat(over: Overrides, base: Option<Chain>, a: seq<Single>, b: seq<Single>)
    ensures var before := PromisedAll(over, base, a);
            PromisedAll(over, base, a + b) == if before.None? then None else PromisedAll(before.value, base, b)
    decreases |b|
  {
    if b == [] {
      assert a + b == a;
    } else {
      assert (a + b)[..|a + b| - 1] == a + b[..|b| - 1];
      PromisedConcat(over, base, a, b[..|b| - 1]);
    }
  }

  lemma {:induction false} VisitsAre(grow: Growth, s: State, base: Option<Chain>, order: seq<string>, e: Edit)
    requires Ok(s) && AllIn(s, order)
    ensures AfterAll(grow, s, base, VisitsOf(order, e)) == EditEach(grow, s, order, e)
  {
    if order != [] {
      var visits := VisitsOf(order, e);
      assert visits[..|visits| - 1] == VisitsOf(order[..|order| - 1], e);
      VisitsAre(grow, s, base, order[..|order| - 1], e);
    }
  }

  /** apply is its single edits, one after the other. */
  lemma AppliedAre(grow: Growth, s: State, base: Option<Chain>, c: Change, order: seq<string>)
    requires Ok(s) && AllIn(s, order)
    ensures AfterAll(grow, s, base, VisitsOf(order, c.edit) + [Own(c)]) == AppliedIn(grow, s, base, c, order)
  {
    var visits := VisitsOf(order, c.edit);
    assert (visits + [Own(c)])[..|visits|] == visits;
    VisitsAre(grow, s, base, order, c.edit);
  }

  predicate KeysIn(over: Overrides, keys: seq<string>) { forall i :: 0 <= i < |keys| ==> keys[i] in over }

  lemma {:induction false} VisitsPromise(over: Overrides, base: Option<Chain>, order: seq<string>, e: Edit)
    requires Distinct(order) && KeysIn(over, order) && PromisedAll(over, base, VisitsOf(order, e)).Some?
    ensures EachEdited(over, PromisedAll(over, base, VisitsOf(order, e)).value, order, e)
  {
    if order != [] {
      var init, k, visits := order[..|order| - 1], order[|order| - 1], VisitsOf(order, e);
      assert visits[..|visits| - 1] == VisitsOf(init, e);
      assert k in over && k !in init && order == init + [k];
      VisitsPromise(over, base, init, e);
      OneVisitMore(over, PromisedAll(over, base, VisitsOf(init, e)).value, base, init, k, e);
    }
  }

  lemma OneVisitMore(over: Overrides, now: Overrides, base: Option<Chain>, keys: seq<string>, k: string, e: Edit)
    requires EachEdited(over, now, keys, e) && k in over && k !in keys && Promised(now, base, Visit(k, e)).Some?
    ensures EachEdited(over, Promised(now, base, Visit(k, e)).value, keys + [k], e)
  {
    EachOneMore(over, now, keys, k, e);
  }

  lemma AppliedPromise(over: Overrides, base: Option<Chain>, c: Change, order: seq<string>)
    requires Visits(over.Keys, c.target, order)
    requires PromisedAll(over, base, VisitsOf(order, c.edit) + [Own(c)]).Some?
    ensures PromisedAll(over, base, VisitsOf(order, c.edit) + [Own(c)]) == Applied(over, base, c.target, c.edit)
  {
    var visits := VisitsOf(order, c.edit);
    assert (visits + [Own(c)])[..|visits|] == visits;
    VisitsPromise(over, base, order, c.edit);
    EachIsPromised(over, PromisedAll(over, base, visits).value, c.target, order, c.edit);
  }

  const NEW: State := State([], map[])

  lemma {:induction false} RunIsSingles(grow: Growth, base: Option<Chain>, steps: seq<Step>)
    requires RunIn(grow, base, steps).Some?
    ensures AfterAll(grow, NEW, base, Singles(steps)) == RunIn(grow, base, steps)
  {
    if steps != [] {
      var init, last := steps[..|steps| - 1], steps[|steps| - 1];
      RunIsSingles(grow, base, init);
      AfterConcat(grow, NEW, base, Singles(init), VisitsOf(last.order, last.change.edit) + [Own(last.change)]);
      AppliedAre(grow, RunIn(grow, base, init).value, base, last.change, last.order);
    }
  }

  /** The keys that are edited. */
  function TargetKeys(steps: seq<Step>): set<string> {
    if steps == [] then {} else TargetKeys(steps[..|steps| - 1]) + {Key(steps[|steps| - 1].change.target)}
  }

  /** Each order lists the keys there are by then. */
  ghost predicate OrdersFit(steps: seq<Step>) {
    steps != [] ==>
      var init, last := steps[..|steps| - 1], steps[|steps| - 1];
      OrdersFit(init) && Visits(TargetKeys(init), last.change.target, last.order)
  }

  lemma AppliedKeys(grow: Growth, s: State, base: Option<Chain>, c: Change, order: seq<string>)
    requires Ok(s) && AllIn(s, order) && AppliedIn(grow, s, base, c, order).Some?
    ensures AppliedIn(grow, s, base, c, order).value.over.Keys == s.over.Keys + {Key(c.target)}
  {
  }

  lemma {:induction false} RunKeys(grow: Growth, base: Option<Chain>, steps: seq<Step>)
    requires RunIn(grow, base, steps).Some?
    ensures RunIn(grow, base, steps).value.over.Keys == TargetKeys(steps) && OrdersFit(steps)
  {
    if steps != [] {
      var init, last := steps[..|steps| - 1], steps[|steps| - 1];
      RunKeys(grow, base, init);
      AppliedKeys(grow, RunIn(grow, base, init).value, base, last.change, last.order);
    }
  }

  /** A run that no single edit of it makes panic promises what its changes do. */
  lemma {:induction false} SinglesPromise(base: Option<Chain>, steps: seq<Step>)
    requires OrdersFit(steps) && PromisedAll(map[], base, Singles(steps)).Some?
    ensures Run(base, Changes(steps)) == PromisedAll(map[], base, Singles(steps))
    ensures PromisedAll(map[], base, Singles(steps)).value.Keys == TargetKeys(steps)
  {
    if steps != [] {
      var init, last := steps[..|steps| - 1], steps[|steps| - 1];
      var more := VisitsOf(last.order, last.change.edit) + [Own(last.change)];
      PromisedConcat(map[], base, Singles(init), more);
      SinglesPromise(base, init);
      ChangePromise(base, Changes(init), PromisedAll(map[], base, Singles(init)).value, last);
    }
  }

  lemma ChangePromise(base: Option<Chain>, history: seq<Change>, over: Overrides, last: Step)
    requires Run(base, history) == Some(over) && Visits(over.Keys, last.change.target, last.order)
    requires PromisedAll(over, base, VisitsOf(last.order, last.change.edit) + [Own(last.change)]).Some?
    ensures var promised := PromisedAll(over, base, VisitsOf(last.order, last.change.edit) + [Own(last.change)]);
            && Run(base, history + [last.change]) == promised
            && promised.value.Keys == over.Keys + {Key(last.change.target)}
  {
    AppliedPromise(over, base, last.change, last.order);
    RunMore(base, history, last.change);
  }

  /**
    Any sequence of edits, whatever arrays come to be shared: the chains seen are the promised ones after
    each single edit exactly when no single edit writes a different filter at a place that another override
    shows; and then every target has the default chain with exactly the edits that concern it.
   */
  lemma AnyRun(grow: Growth, base: Chain, steps: seq<Step>)
    requires RunIn(grow, Some(base), steps).Some? && AllNamed(Changes(steps))
    ensures AfterAll(grow, NEW, Some(base), Singles(steps)) == RunIn(grow, Some(base), steps)
    ensures KeptThroughout(grow, NEW, Some(base), Singles(steps))
       <==> NeverSpills(grow, NEW, Some(base), Singles(steps))
    ensures NeverSpills(grow, NEW, Some(base), Singles(steps)) ==>
              AllAsPromised(RunIn(grow, Some(base), steps).value, base, Changes(steps))
  {
    RunIsSingles(grow, Some(base), steps);
    KeptIffNoSpill(grow, NEW, Some(base), Singles(steps));
    if NeverSpills(grow, NEW, Some(base), Singles(steps)) {
      RunKeys(grow, Some(base), steps);
      SinglesPromise(Some(base), steps);
      assert Seen(NEW) == map[];
      RunIsAsPromised(RunIn(grow, Some(base), steps).value, base, Changes(steps));
    }
  }

  /** OneMoreEdit, for an edit that may follow any others. */
  ghost predicate KeptExactly(grow: Growth, base: Option<Chain>, steps: seq<Step>, s: State,
                              steps': seq<Step>, after: State, c: Change)
  {
    Ok(s) && Ok(after) && base.Some? && SafeRun(grow, base, steps) && AllNamed(Changes(steps')) ==>
      (AllAsPromised(after, base.value, Changes(steps')) <==>
         !(Borrows(s, c.target) && Overwrites(s.store, s.over[c.target.controllerName], c.edit)))
  }

  lemma KeptIff(grow: Growth, base: Option<Chain>, steps: seq<Step>, last: Step)
    requires RunIn(grow, base, steps).Some? && RunIn(grow, base, steps + [last]).Some?
    ensures KeptExactly(grow, base, steps, RunIn(grow, base, steps).value,
                        steps + [last], RunIn(grow, base, steps + [last]).value, last.change)
  {
    assert (steps + [last])[..|steps|] == steps;
    if base.Some? && SafeRun(grow, base, steps) && AllNamed(Changes(steps + [last])) {
      NamedBefore(Changes(steps), last.change);
      OneMoreEdit(grow, base.value, steps, last);
    }
  }

  // ----- the object -----

  class Configurator {
    var store: Store
    var filterOverrides: map<string, Slice>
    const filters: Chain
    const configuring: Filter
    const grow: Growth
    ghost var steps: seq<Step>

    function Now(): State reads this { State(store, filterOverrides) }

    /** The state is what the edits so far lead to. */
    ghost predicate Valid()
      reads this
    {
      RunIn(grow, DefaultChain(filters, configuring), steps) == Some(Now())
    }

    constructor (filters: Chain, configuring: Filter, grow: Growth)
      ensures Valid() && steps == []
      ensures this.filters == filters && this.configuring == configuring && this.grow == grow
    {
      this.store, this.filterOverrides := [], map[];
      this.filters, this.configuring, this.grow := filters, configuring, grow;
      this.steps := [];
    }

    /** Go's append: in place when the array has room. */
    method AppendTo(s: Slice, xs: Chain) returns (r: Slice)
      requires In(store, s)
      modifies this`store
      ensures (store, r) == Append(grow, old(store), s, xs)
      ensures In(store, r) && View(store, r) == old(View(store, s)) + xs
    {
      AppendView(grow, store, s, xs);
      var a, n := store[s.arr], s.len + |xs|;
      if n <= |a| {
        store := store[s.arr := a[..s.len] + xs + a[n..]];
        r := Slice(s.arr, n);
      } else {
        r := Slice(|store|, n);
        store := store + [a[..s.len] + xs + Room(grow(|a|, n))];
      }
    }

    /** The new filter stands just before the last one, which stays the last. */
    method AddFilter(f: Filter, fc: Slice) returns (r: Option<Slice>)
      requires In(store, fc)
      modifies this`store
      ensures if r.None? then fc.len == 0 && store == old(store)
              else fc.len > 0 && In(store, r.value) && r.value.len == fc.len + 1
                   && View(store, r.value)[..fc.len - 1] == old(View(store, fc))[..fc.len - 1]
                   && View(store, r.value)[fc.len - 1] == f
                   && View(store, r.value)[fc.len] == old(View(store, fc))[fc.len - 1]
      ensures EditSlice(grow, old(store), fc, Add(f)) == if r.None? then None else Some((store, r.value))
    {
      if fc.len == 0 { return None; }
      var s := AppendTo(Slice(fc.arr, fc.len - 1), [f, store[fc.arr][fc.len - 1]]);
      r := Some(s);
    }

    /** The first occurrence goes; in the array, everything after it moves down and the last filter stays doubled. */
    method RmFilter(target: Filter, fc: Slice) returns (r: Slice)
      requires In(store, fc)
      modifies this`store
      ensures EditSlice(grow, old(store), fc, Remove(target)) == Some((store, r))
      ensures In(store, r) && Some(View(store, r)) == Edited(Remove(target), old(View(store, fc)))
    {
      EditSliceView(grow, store, fc, Remove(target));
      for i := 0 to fc.len
        invariant store == old(store) && target !in View(store, fc)[..i]
      {
        if store[fc.arr][i] == target {
          PositionIs(View(store, fc), target, i);
          assert store[fc.arr][i + 1..fc.len] == View(store, fc)[i + 1..];
          r := AppendTo(Slice(fc.arr, i), store[fc.arr][i + 1..fc.len]);
          return;
        }
      }
      NothingToEdit(grow, store, fc, Remove(target));
      r := fc;
    }

    /** Beside the first occurrence. */
    method InsertFilter(insert: Filter, where: When, target: Filter, fc: Slice) returns (r: Slice)
      requires In(store, fc)
      modifies this`store
      ensures EditSlice(grow, old(store), fc, Insert(insert, where, target)) == Some((store, r))
      ensures In(store, r) && Some(View(store, r)) == Edited(Insert(insert, where, target), old(View(store, fc)))
    {
      EditSliceView(grow, store, fc, Insert(insert, where, target));
      for i := 0 to fc.len
        invariant store == old(store) && target !in View(store, fc)[..i]
      {
        if store[fc.arr][i] == target {
          PositionIs(View(store, fc), target, i);
          var at := if where == BEFORE then i else i + 1;
          assert store[fc.arr][at..fc.len] == View(store, fc)[at..];
          r := AppendTo(Slice(fc.arr, at), [insert] + store[fc.arr][at..fc.len]);
          return;
        }
      }
      NothingToEdit(grow, store, fc, Insert(insert, where, target));
      r := fc;
    }

    method RunEdit(e: Edit, fc: Slice) returns (r: Option<Slice>)
      requires In(store, fc)
      modifies this`store
      ensures EditSlice(grow, old(store), fc, e) == if r.None? then None else Some((store, r.value))
    {
      match e
      case Add(f) => r := AddFilter(f, fc);
      case Remove(target) => var s := RmFilter(target, fc); r := Some(s);
      case Insert(insert, where, target) => var s := InsertFilter(insert, where, target, fc); r := Some(s);
    }

    /** An override as it is, array and all; or a copy of the filters after FilterConfiguringFilter. */
    method GetChain(t: Target) returns (chain: Option<Slice>)
      requires Ok(Now())
      modifies this`store
      ensures ChainSlice(old(Now()), DefaultChain(filters, configuring), t)
           == if chain.None? then None else Some((store, chain.value))
      ensures chain.None? ==> store == old(store)
    {
      if Key(t) in filterOverrides { return Some(filterOverrides[Key(t)]); }
      if t.controllerName in filterOverrides { return Some(filterOverrides[t.controllerName]); }
      var copy := CopyDefault();
      if copy.None? { return None; }
      store := store + [copy.value];
      chain := Some(Slice(|store| - 1, |copy.value|));
    }

    method CopyDefault() returns (copy: Option<Chain>)
      ensures copy == DefaultChain(filters, configuring)
    {
      for i := 0 to |filters|
        invariant configuring !in filters[..i]
      {
        if filters[i] == configuring {
          PositionIs(filters, configuring, i);
          return Some(filters[i + 1..]);
        }
      }
      assert filters[..|filters|] == filters;
      copy := None;
    }

    /** The chain that a request to the target runs with; None means the filters that are left of the default ones. */
    method GetOverrideChain(t: Target) returns (chain: Option<Chain>)
      requires Ok(Now())
      ensures chain == OverrideChain(Seen(Now()), t.controllerName, Key(t))
    {
      if Key(t) in filterOverrides {
        chain := Some(View(store, filterOverrides[Key(t)]));
      } else if t.controllerName in filterOverrides {
        chain := Some(View(store, filterOverrides[t.controllerName]));
      } else {
        chain := None;
      }
    }

    /** Go's range over the map, in any order, with the test for the controller's actions. */
    method VisitOrder(t: Target) returns (order: seq<string>)
      ensures Visits(filterOverrides.Keys, t, order)
    {
      order := [];
      if t.Action? { return; }
      var left := filterOverrides.Keys;
      while left != {}
        invariant left <= filterOverrides.Keys && Visits(filterOverrides.Keys - left, t, order)
        decreases |left|
      {
        var k :| k in left;
        if t.controllerName + "." <= k { order := order + [k]; }
        left := left - {k};
      }
      assert filterOverrides.Keys - {} == filterOverrides.Keys;
    }

    /**
      An edit of a controller goes to the overrides of its actions, in any order, and then to its own
      chain; an edit of an action to its own. After safe edits every chain is as promised unless the edit
      borrows the controller's array and overwrites a part that shows. Not ok is a panic.
     */
    method Apply(t: Target, e: Edit) returns (ok: bool, ghost order: seq<string>)
      requires Valid()
      modifies this
      ensures Visits(old(filterOverrides).Keys, t, order)
      ensures AppliedIn(grow, old(Now()), DefaultChain(filters, configuring), Change(t, e), order)
           == if ok then Some(Now()) else None
      ensures ok ==> Valid() && steps == old(steps) + [Step(Change(t, e), order)]
      ensures ok ==> KeptExactly(grow, DefaultChain(filters, configuring), old(steps), old(Now()), steps, Now(),
                                 Change(t, e))
    {
      var visits := VisitOrder(t);
      order := visits;
      ok := EditActions(e, visits);
      if !ok { return; }
      ok := EditOwn(t, e);
      if !ok { return; }
      assert (steps + [Step(Change(t, e), order)])[..|steps|] == steps;
      KeptIff(grow, DefaultChain(filters, configuring), steps, Step(Change(t, e), order));
      steps := steps + [Step(Change(t, e), order)];
    }

    /** The last line of apply. */
    method EditOwn(t: Target, e: Edit) returns (ok: bool)
      requires Ok(Now())
      modifies this`store, this`filterOverrides
      ensures OwnAppliedIn(grow, old(Now()), DefaultChain(filters, configuring), Change(t, e))
           == if ok then Some(Now()) else None
    {
      ghost var before := Now();
      var chain := GetChain(t);
      if chain.None? { return false; }
      ChainSliceIn(before, DefaultChain(filters, configuring), t);
      var last := RunEdit(e, chain.value);
      if last.None? { return false; }
      filterOverrides := filterOverrides[Key(t) := last.value];
      ok := true;
    }

    /** The loop of apply. */
    method EditActions(e: Edit, visits: seq<string>) returns (ok: bool)
      requires Ok(Now()) && AllIn(Now(), visits)
      modifies this`store, this`filterOverrides
      ensures EditEach(grow, old(Now()), visits, e) == if ok then Some(Now()) else None
    {
      for i := 0 to |visits|
        invariant EditEach(grow, old(Now()), visits[..i], e) == Some(Now())
      {
        var k := visits[i];
        EachOneStep(grow, old(Now()), visits, i, e);
        ok := EditOverride(k, e);
        if !ok { return; }
      }
      assert visits[..|visits|] == visits;
      ok := true;
    }

    method EditOverride(k: string, e: Edit) returns (ok: bool)
      requires Ok(Now()) && k in filterOverrides
      modifies this`store, this`filterOverrides
      ensures EditKey(grow, old(Now()), k, old(filterOverrides)[k], e) == if ok then Some(Now()) else None
    {
      var chain := RunEdit(e, filterOverrides[k]);
      if chain.None? { return false; }
      filterOverrides := filterOverrides[k := chain.value];
      ok := true;
    }

    /** After edits each of which passed the guard: the promised chain, and no other. */
    method EffectiveChainOf(t: Target) returns (chain: Option<Chain>)
      requires Valid() && Named(t) && AllNamed(Changes(steps)) && Guarded(Changes(steps))
      ensures DefaultChain(filters, configuring).Some? ==>
                chain == Fold(DefaultChain(filters, configuring).value, Concerning(Changes(steps), t))
    {
      chain := GetOverrideChain(t);
      if chain.None? { chain := CopyDefault(); }
      var base := DefaultChain(filters, configuring);
      if base.Some? {
        GuardedRun(grow, base.value, steps);
        assert AsPromised(Now(), base.value, Changes(steps), t);
      }
    }
  }

  lemma NothingToEdit(grow: Growth, st: Store, s: Slice, e: Edit)
    requires In(st, s) && !e.Add? && e.target !in View(st, s)
    ensures EditSlice(grow, st, s, e) == Some((st, s))
  {
    var a := st[s.arr];
    var fc := View(st, s);
    assert Position(fc, e.target) == -1 && Parts(e, fc) == Some((s.len, []));
    assert a[..s.len] + [] + a[s.len..] == a && st[s.arr := a] == st;
  }

  lemma EachOneStep(grow: Growth, s: State, keys: seq<string>, i: nat, e: Edit)
    requires Ok(s) && AllIn(s, keys) && i < |keys|
    requires EditEach(grow, s, keys[..i], e).Some?
    ensures var before := EditEach(grow, s, keys[..i], e).value;
            && keys[i] in before.over
            && EditEach(grow, s, keys[..i + 1], e) == EditKey(grow, before, keys[i], before.over[keys[i]], e)
    ensures EditEach(grow, s, keys[..i + 1], e).None? ==> EditEach(grow, s, keys, e).None?
  {
    assert keys[..i + 1][..i] == keys[..i];
    if EditEach(grow, s, keys[..i + 1], e).None? { StaysNone(grow, s, keys, i + 1, e); }
  }

  lemma {:induction false} StaysNone(grow: Growth, s: State, keys: seq<string>, i: nat, e: Edit)
    requires Ok(s) && AllIn(s, keys) && i <= |keys|
    requires EditEach(grow, s, keys[..i], e).None?
    ensures EditEach(grow, s, keys, e).None?
    decreases |keys| - i
  {
    if i < |keys| {
      assert keys[..i + 1][..i] == keys[..i];
      StaysNone(grow, s, keys, i + 1, e);
    } else {
      assert keys[..i] == keys;
    }
  }

  // ----- where the promise is broken -----

  /** Filter 5 is added for the controller App. The default chain is some filter 3 and the invoker 4. */
  lemma ControllerAdds(grow: Growth)
    ensures var s := AppliedIn(grow, State([], map[]), Some([3, 4]), Change(Controller("App"), Add(5)), []);
            && s == Some(State([[3, 4], [3, 5, 4] + Room(grow(2, 3))], map["App" := Slice(1, 3)]))
  {
    var fc: Chain, s0 := [3, 4], State([], map[]);
    assert EditEach(grow, s0, [], Add(5)) == Some(s0);
    assert s0.store + [fc] == [fc];
    assert ChainSlice(s0, Some(fc), Controller("App")) == Some(([fc], Slice(0, 2)));
    assert View([fc], Slice(0, 2)) == fc && Parts(Add(5), fc) == Some((1, [5, 4]));
    assert [fc][0][..1] + [5, 4] == [3, 5, 4];
    assert Append(grow, [fc], Slice(0, 1), [5, 4]) == ([fc] + [[3, 5, 4] + Room(grow(2, 3))], Slice(1, 3));
    assert [fc] + [[3, 5, 4] + Room(grow(2, 3))] == [[3, 4], [3, 5, 4] + Room(grow(2, 3))];
  }

  /** Removing filter 3 for an action takes it from the controller's chain too, and doubles the invoker there. */
  lemma ActionRemoves(grow: Growth)
    ensures var s1 := AppliedIn(grow, State([], map[]), Some([3, 4]), Change(Controller("App"), Add(5)), []).value;
            && Ok(s1) && Seen(s1)["App"] == [3, 5, 4]
            && var s2 := AppliedIn(grow, s1, Some([3, 4]), Change(Action("App", "Index"), Remove(3)), []);
               s2.Some? && Ok(s2.value) && Seen(s2.value)["App"] == [5, 4, 4]
  {
    ControllerAdds(grow);
    var s1 := AppliedIn(grow, State([], map[]), Some([3, 4]), Change(Controller("App"), Add(5)), []).value;
    var a, chain := s1.store[1], s1.over["App"];
    assert a[..3] == [3, 5, 4];
    var fc: Chain := [3, 5, 4];
    PositionIs(fc, 3, 0);
    assert Parts(Remove(3), fc) == Some((0, [5, 4])) by { assert fc[1..] == [5, 4]; }
    assert a[2] == a[..3][2] == 4;
    assert (a[..0] + [5, 4] + a[2..])[..3] == [5, 4, 4];
    assert Key(Action("App", "Index")) != "App" by { assert |Key(Action("App", "Index"))| == 9; }
  }

  /**
    Adding filter 6 for the action, when append left room in the controller's array, takes the
    controller's invoker away.
   */
  lemma ActionAdds(grow: Growth)
    requires grow(2, 3) > 0
    ensures var s1 := AppliedIn(grow, State([], map[]), Some([3, 4]), Change(Controller("App"), Add(5)), []).value;
            && Ok(s1)
            && var s2 := AppliedIn(grow, s1, Some([3, 4]), Change(Action("App", "Index"), Add(6)), []);
               s2.Some? && Ok(s2.value) && Seen(s2.value)["App"] == [3, 5, 6]
  {
    ControllerAdds(grow);
    var s1 := AppliedIn(grow, State([], map[]), Some([3, 4]), Change(Controller("App"), Add(5)), []).value;
    var a, chain := s1.store[1], s1.over["App"];
    assert a[..3] == [3, 5, 4];
    assert Parts(Add(6), [3, 5, 4]) == Some((2, [6, 4]));
    assert (a[..2] + [6, 4] + a[4..])[..3] == [3, 5, 6];
    assert Key(Action("App", "Index")) != "App" by { assert |Key(Action("App", "Index"))| == 9; }
  }
}
