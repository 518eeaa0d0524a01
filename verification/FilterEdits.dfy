/**
  What filterconfig.go promises: per-controller and per-action edits of the filter chain. Chains are
  values here, and each edit yields a new one.
 */
module FilterEdits {
  import opened Text
  import opened Common

  /** Filters are compared by the identity of their function. */
  type Filter = nat
  type Chain = seq<Filter>

  datatype When = BEFORE | AFTER

  datatype Edit = Add(f: Filter) | Remove(target: Filter) | Insert(insert: Filter, where: When, target: Filter)

  // ----- one edit -----

  /** The first position of a filter in a chain, or -1. */
  function Position(fc: Chain, f: Filter): (i: int)
    ensures -1 <= i < |fc|
    ensures i >= 0 ==> fc[i] == f && f !in fc[..i]
    ensures i == -1 ==> f !in fc
  {
    if fc == [] then -1
    else if fc[0] == f then 0
    else
      var i := Position(fc[1..], f);
      assert fc == [fc[0]] + fc[1..];
      if i == -1 then -1 else assert fc[..i + 1] == [fc[0]] + fc[1..][..i]; i + 1
  }

  lemma PositionIs(fc: Chain, f: Filter, i: nat)
    requires i < |fc| && fc[i] == f && f !in fc[..i]
    ensures Position(fc, f) == i
  {
    var j := Position(fc, f);
    assert forall k :: 0 <= k < i ==> fc[k] == fc[..i][k];
    assert forall k :: 0 <= k < j ==> fc[k] == fc[..j][k];
  }

  /** None is the panic of Add on an empty chain. */
  function Edited(e: Edit, fc: Chain): Option<Chain> {
    match e
    case Add(f) => if fc == [] then None else Some(fc[..|fc| - 1] + [f, fc[|fc| - 1]])
    case Remove(target) =>
      var i := Position(fc, target);
      Some(if i == -1 then fc else fc[..i] + fc[i + 1..])
    case Insert(insert, where, target) =>
      var i := Position(fc, target);
      Some(if i == -1 then fc else
             var at := if where == BEFORE then i else i + 1;
             fc[..at] + [insert] + fc[at..])
  }

  /** Where a new filter ends up: just before the last one, or next to the first occurrence of the target. */
  lemma NewFilterAt(fc: Chain, f: Filter, target: Filter)
    requires fc != []
    ensures Edited(Add(f), fc).value[|fc| - 1..] == [f, fc[|fc| - 1]]
    ensures target in fc ==>
              var i := Position(fc, target);
              var b, a := Edited(Insert(f, BEFORE, target), fc).value, Edited(Insert(f, AFTER, target), fc).value;
              && |b| == |a| == |fc| + 1 && target !in fc[..i]
              && b[..i] == a[..i] == fc[..i] && b[i] == f && b[i + 1] == target && a[i] == target && a[i + 1] == f
  {
  }

  /** Remove undoes Add and Insert of a filter that was not in the chain. */
  lemma RemoveUndoes(fc: Chain, f: Filter, where: When, target: Filter)
    requires fc != [] && f !in fc
    ensures Edited(Remove(f), Edited(Add(f), fc).value) == Some(fc)
    ensures Edited(Remove(f), Edited(Insert(f, where, target), fc).value) == Some(fc)
  {
    RemoveInserted(fc, f, |fc| - 1);
    AddIs(fc, f);
    RemoveUndoesInsert(fc, f, where, target);
  }

  lemma RemoveUndoesInsert(fc: Chain, f: Filter, where: When, target: Filter)
    requires f !in fc
    ensures Edited(Remove(f), Edited(Insert(f, where, target), fc).value) == Some(fc)
  {
    var i := Position(fc, target);
    if i >= 0 {
      var at := if where == BEFORE then i else i + 1;
      InsertIs(fc, f, where, target);
      RemoveInserted(fc, f, at);
    } else {
      NothingInserted(fc, f, where, target);
    }
  }

  lemma NothingInserted(fc: Chain, f: Filter, where: When, target: Filter)
    requires target !in fc
    ensures Edited(Insert(f, where, target), fc) == Some(fc)
  {
  }

  lemma AddIs(fc: Chain, f: Filter)
    requires fc != []
    ensures Edited(Add(f), fc) == Some(fc[..|fc| - 1] + [f] + fc[|fc| - 1..])
  {
    assert fc[|fc| - 1..] == [fc[|fc| - 1]];
    assert fc[..|fc| - 1] + [f] + fc[|fc| - 1..] == fc[..|fc| - 1] + [f, fc[|fc| - 1]];
  }

  lemma InsertIs(fc: Chain, f: Filter, where: When, target: Filter)
    requires target in fc
    ensures var i := Position(fc, target);
            var at := if where == BEFORE then i else i + 1;
            Edited(Insert(f, where, target), fc) == Some(fc[..at] + [f] + fc[at..])
  {
  }

  lemma RemoveInserted(fc: Chain, f: Filter, at: nat)
    requires at <= |fc| && f !in fc
    ensures Edited(Remove(f), fc[..at] + [f] + fc[at..]) == Some(fc)
  {
    var r := fc[..at] + [f] + fc[at..];
    assert r[..at] == fc[..at] && r[at + 1..] == fc[at..];
    PositionIs(r, f, at);
    assert fc[..at] + fc[at..] == fc;
  }

  /** Edits one after the other. */
  function Fold(fc: Chain, edits: seq<Edit>): Option<Chain> {
    if edits == [] then Some(fc)
    else
      var before := Fold(fc, edits[..|edits| - 1]);
      if before.None? then None else Edited(edits[|edits| - 1], before.value)
  }

  // ----- targets -----

  /** A controller, or one of its actions. */
  datatype Target = Controller(controllerName: string) | Action(controllerName: string, methodName: string)

  /** Go names hold no dot, and a method has a name. */
  predicate Named(t: Target) {
    '.' !in t.controllerName && (t.Action? ==> t.methodName != "")
  }

  function Key(t: Target): string {
    match t
    case Controller(c) => c
    case Action(c, m) => c + "." + m
  }

  lemma HasDot(c: string, k: string)
    requires c + "." <= k
    ensures '.' in k
  {
    assert k[|c|] == '.';
  }

  lemma KeyInjective(t: Target, u: Target)
    requires Named(t) && Named(u) && Key(t) == Key(u)
    ensures t == u
  {
    if t.Action? && u.Action? {
      FirstSplit(t.controllerName, t.methodName, u.controllerName, u.methodName, '.');
    } else if t.Action? {
      HasDot(t.controllerName, Key(t));
    } else if u.Action? {
      HasDot(u.controllerName, Key(u));
    }
  }

  /** A key starts with "C." exactly when it belongs to an action of C. */
  lemma PrefixIsController(c: string, t: Target)
    requires '.' !in c && Named(t)
    ensures c + "." <= Key(t) <==> t.Action? && t.controllerName == c
  {
    if c + "." <= Key(t) {
      if t.Action? {
        var rest := Key(t)[|c| + 1..];
        assert Key(t) == c + "." + rest;
        FirstSplit(c, rest, t.controllerName, t.methodName, '.');
      } else {
        HasDot(c, Key(t));
      }
    }
  }

  // ----- the configuration -----

  type Overrides = map<string, Chain>

  function OverrideChain(over: Overrides, controllerName: string, action: string): Option<Chain> {
    if action in over then Some(over[action])
    else if controllerName in over then Some(over[controllerName])
    else None
  }

  /** The filters after FilterConfiguringFilter; None is the panic when it is not there. */
  function DefaultChain(filters: Chain, configuring: Filter): Option<Chain> {
    var i := Position(filters, configuring);
    if i == -1 then None else Some(filters[i + 1..])
  }

  /** They are what follows its first occurrence. */
  lemma DefaultChainIff(filters: Chain, configuring: Filter, chain: Chain)
    ensures DefaultChain(filters, configuring) == Some(chain)
       <==> exists before :: filters == before + [configuring] + chain && configuring !in before
    ensures DefaultChain(filters, configuring).None? <==> configuring !in filters
  {
    var i := Position(filters, configuring);
    if i >= 0 { assert filters == filters[..i] + [configuring] + filters[i + 1..]; }
    forall before | filters == before + [configuring] + chain && configuring !in before
      ensures DefaultChain(filters, configuring) == Some(chain)
    {
      SplitsAt(filters, before, configuring, chain);
    }
  }

  lemma SplitsAt(fc: Chain, before: Chain, target: Filter, after: Chain)
    requires fc == before + [target] + after && target !in before
    ensures Position(fc, target) == |before| && fc[..|before|] == before && fc[|before| + 1..] == after
  {
    assert fc[..|before|] == before;
    PositionIs(fc, target, |before|);
  }

  /** What an edit makes of a chain, by the first occurrence of its target. */
  lemma EditIs(before: Chain, target: Filter, after: Chain, f: Filter)
    requires target !in before
    ensures var fc := before + [target] + after;
            && Edited(Remove(target), fc) == Some(before + after)
            && Edited(Insert(f, BEFORE, target), fc) == Some(before + [f, target] + after)
            && Edited(Insert(f, AFTER, target), fc) == Some(before + [target, f] + after)
    ensures Edited(Remove(target), before) == Edited(Insert(f, BEFORE, target), before) == Some(before)
    ensures Edited(Insert(f, AFTER, target), before) == Some(before)
    ensures Edited(Add(f), before + [target]) == Some(before + [f, target]) && Edited(Add(f), []).None?
  {
    var fc := before + [target] + after;
    SplitsAt(fc, before, target, after);
    var n := |before|;
    assert fc[..n] + [f] + fc[n..] == before + [f, target] + after;
    assert fc[..n + 1] + [f] + fc[n + 1..] == before + [target, f] + after;
    assert (before + [target])[..n] == before;
  }

  function ChainFor(over: Overrides, base: Option<Chain>, t: Target): Option<Chain> {
    var chain := OverrideChain(over, t.controllerName, Key(t));
    if chain.Some? then chain else base
  }

  predicate Affected(t: Target, k: string) {
    t.Controller? && t.controllerName + "." <= k
  }

  /** A controller's edit goes to the chains of its actions too; None when one of them panics. */
  function EditedActions(over: Overrides, t: Target, e: Edit): Option<Overrides> {
    if exists k :: k in over && Affected(t, k) && Edited(e, over[k]) == None then None
    else Some(map k | k in over :: if Affected(t, k) then Edited(e, over[k]).value else over[k])
  }

  /** The configuration after an edit; None when some step of it panics. */
  function Applied(over: Overrides, base: Option<Chain>, t: Target, e: Edit): Option<Overrides> {
    var actions := EditedActions(over, t, e);
    if actions.None? then None else OwnApplied(actions.value, base, t, e)
  }

  /** The target's own chain edited. */
  function OwnApplied(over: Overrides, base: Option<Chain>, t: Target, e: Edit): Option<Overrides> {
    var chain := ChainFor(over, base, t);
    if chain.None? then None
    else
      var last := Edited(e, chain.value);
      if last.None? then None else Some(over[Key(t) := last.value])
  }

  // ----- every sequence of edits -----

  datatype Change = Change(target: Target, edit: Edit)

  function Run(base: Option<Chain>, history: seq<Change>): Option<Overrides> {
    if history == [] then Some(map[])
    else
      var before := Run(base, history[..|history| - 1]);
      var last := history[|history| - 1];
      if before.None? then None else Applied(before.value, base, last.target, last.edit)
  }

  /** The edits that concern a target: its own and, for an action, its controller's, in order. */
  function Concerning(history: seq<Change>, t: Target): seq<Edit> {
    if history == [] then []
    else
      var last := history[|history| - 1];
      Concerning(history[..|history| - 1], t) + (if Concerns(last.target, t) then [last.edit] else [])
  }

  predicate Concerns(edited: Target, t: Target) {
    edited == t || (t.Action? && edited == Controller(t.controllerName))
  }

  ghost predicate Edits(history: seq<Change>, t: Target) {
    exists i :: 0 <= i < |history| && history[i].target == t
  }

  /** An override is there exactly for the targets edited, and holds their edits. */
  ghost predicate Agrees(over: Overrides, base: Option<Chain>, history: seq<Change>, t: Target) {
    && (Key(t) in over <==> Edits(history, t))
    && (Key(t) in over ==> base.Some? && Fold(base.value, Concerning(history, t)) == Some(over[Key(t)]))
  }

  lemma EditsMore(history: seq<Change>, t: Target)
    requires history != []
    ensures Edits(history, t) <==> Edits(history[..|history| - 1], t) || history[|history| - 1].target == t
  {
    if Edits(history, t) {
      var i :| 0 <= i < |history| && history[i].target == t;
      if i < |history| - 1 { assert history[..|history| - 1][i].target == t; }
    }
    if Edits(history[..|history| - 1], t) {
      var i :| 0 <= i < |history| - 1 && history[..|history| - 1][i].target == t;
      assert history[i].target == t;
    }
  }

  /** An action without edits of its own follows its controller. */
  lemma {:induction false} OnlyControllerEdits(history: seq<Change>, t: Target)
    requires t.Action? && !Edits(history, t)
    ensures Concerning(history, t) == Concerning(history, Controller(t.controllerName))
  {
    if history != [] {
      EditsMore(history, t);
      OnlyControllerEdits(history[..|history| - 1], t);
    }
  }

  lemma {:induction false} NoEdits(history: seq<Change>, t: Target)
    requires t.Controller? && !Edits(history, t)
    ensures Concerning(history, t) == []
  {
    if history != [] {
      EditsMore(history, t);
      NoEdits(history[..|history| - 1], t);
    }
  }

  /** The chain that GetChain finds for a target is the default with the edits that concern it. */
  lemma ChainIsFold(over: Overrides, base: Option<Chain>, history: seq<Change>, t: Target)
    requires Named(t) && Agrees(over, base, history, t) && Agrees(over, base, history, Controller(t.controllerName))
    ensures ChainFor(over, base, t).Some? ==>
              base.Some? && Fold(base.value, Concerning(history, t)) == ChainFor(over, base, t)
  {
    var c := Controller(t.controllerName);
    if Key(t) !in over {
      if t.Action? { OnlyControllerEdits(history, t); }
      if Key(c) !in over { NoEdits(history, c); }
    }
  }

  lemma FoldMore(fc: Chain, edits: seq<Edit>, e: Edit)
    ensures Fold(fc, edits + [e]) == if Fold(fc, edits).Some? then Edited(e, Fold(fc, edits).value) else None
  {
    assert (edits + [e])[..|edits|] == edits;
  }

  /** What an edit leaves at each key. */
  lemma AppliedAt(over: Overrides, base: Option<Chain>, u: Target, e: Edit, k: string)
    requires Named(u) && Applied(over, base, u, e).Some?
    ensures var after := Applied(over, base, u, e).value;
            if k == Key(u) then
              k in after && ChainFor(over, base, u).Some? && Edited(e, ChainFor(over, base, u).value) == Some(after[k])
            else if k in over && Affected(u, k) then k in after && Edited(e, over[k]) == Some(after[k])
            else (k in after <==> k in over) && (k in after ==> after[k] == over[k])
  {
    ChainOwnKey(over, base, u, e);
  }

  /** One more edit keeps every target's override in step with the edits that concern it. */
  lemma StepAgrees(over: Overrides, base: Option<Chain>, before: seq<Change>, last: Change, t: Target)
    requires Named(t) && Named(last.target) && Applied(over, base, last.target, last.edit).Some?
    requires Agrees(over, base, before, t) && Agrees(over, base, before, last.target)
    requires Agrees(over, base, before, Controller(last.target.controllerName))
    ensures Agrees(Applied(over, base, last.target, last.edit).value, base, before + [last], t)
  {
    var history := before + [last];
    assert history[..|history| - 1] == before;
    EditsMore(history, t);
    AppliedAt(over, base, last.target, last.edit, Key(t));
    PrefixIsController(last.target.controllerName, t);
    if Key(t) == Key(last.target) {
      KeyInjective(t, last.target);
      ChainIsFold(over, base, before, t);
    }
    if base.Some? {
      FoldMore(base.value, Concerning(before, t), last.edit);
      ConcerningMore(before, last, t);
    }
  }

  lemma ConcerningMore(before: seq<Change>, last: Change, t: Target)
    ensures Concerning(before + [last], t)
         == if Concerns(last.target, t) then Concerning(before, t) + [last.edit] else Concerning(before, t)
  {
    assert (before + [last])[..|before|] == before;
  }

  /** A target's own chain is not among the actions that its edit reaches. */
  lemma ChainOwnKey(over: Overrides, base: Option<Chain>, t: Target, e: Edit)
    requires Named(t) && EditedActions(over, t, e).Some?
    ensures ChainFor(EditedActions(over, t, e).value, base, t) == ChainFor(over, base, t)
  {
    if t.Controller? { PrefixIsController(t.controllerName, t); }
  }

  predicate AllNamed(history: seq<Change>) {
    forall i :: 0 <= i < |history| ==> Named(history[i].target)
  }

  lemma NamedBefore(before: seq<Change>, last: Change)
    requires AllNamed(before + [last])
    ensures AllNamed(before) && Named(last.target)
  {
    var all := before + [last];
    forall i | 0 <= i < |before| ensures Named(before[i].target) { assert all[i] == before[i]; }
    assert all[|before|] == last;
  }

  /** After every sequence of edits, each target's override holds exactly the edits that concern it. */
  lemma {:induction false} RunAgrees(base: Option<Chain>, history: seq<Change>, t: Target)
    requires Run(base, history).Some? && Named(t)
    requires AllNamed(history)
    ensures Agrees(Run(base, history).value, base, history, t)
    decreases |history|
  {
    if history != [] {
      var before, last := history[..|history| - 1], history[|history| - 1];
      assert history == before + [last];
      NamedBefore(before, last);
      RunAgrees(base, before, t);
      RunAgrees(base, before, last.target);
      RunAgrees(base, before, Controller(last.target.controllerName));
      StepAgrees(Run(base, before).value, base, before, last, t);
    }
  }

  /**
    The chain of a target after any sequence of edits that did not panic: the default chain with the
    edits of its controller and its own, in order, and no others.
   */
  lemma EffectiveChain(base: Chain, history: seq<Change>, t: Target)
    requires Named(t) && AllNamed(history) && Run(Some(base), history).Some?
    ensures ChainFor(Run(Some(base), history).value, Some(base), t) == Fold(base, Concerning(history, t))
  {
    RunAgrees(Some(base), history, t);
    RunAgrees(Some(base), history, Controller(t.controllerName));
    ChainIsFold(Run(Some(base), history).value, Some(base), history, t);
  }
}
