/**
  What the filters promise, told by the hooks and the events alone: which hooks a stage calls and what they
  leave, who is called with which result, and which stages run in which order.
 */
module FilterLaws {
  import opened Common
  import opened Filters

  // ----- one stage -----

  /** The hook returns and, where the first result counts, gives none. */
  predicate Goes<R, E>(hook: Hook<R, E>, first: bool) { hook.Gives? && (first ==> hook.given.None?) }

  /** The first `n` hooks are called: up to one that panics or, when `first`, gives a result, or all of them. */
  predicate Calls<R, E>(hooks: seq<Hook<R, E>>, first: bool, n: nat) {
    && n <= |hooks|
    && (forall i :: 0 <= i < n - 1 ==> Goes(hooks[i], first))
    && (n < |hooks| ==> n > 0 && !Goes(hooks[n - 1], first))
  }

  /** What the hooks do, one after the other. */
  function HookEvents<R, E>(hooks: seq<Hook<R, E>>, depth: nat): seq<Event<R, E>> {
    if hooks == [] then []
    else
      Sets(hooks[0].sets) + (if hooks[0].Panics? then [Threw(depth, hooks[0].error)] else [])
      + HookEvents(hooks[1..], depth)
  }

  /** The last result that one of the hooks gives. */
  function LastGivenBy<R, E>(hooks: seq<Hook<R, E>>): Option<R> {
    if hooks == [] then None
    else if LastGivenBy(hooks[1..]).Some? then LastGivenBy(hooks[1..])
    else if hooks[0].Gives? then hooks[0].given
    else None
  }

  /** The controller's result after what the hooks set themselves. */
  function LastSetBy<R, E>(r: Option<R>, hooks: seq<Hook<R, E>>): Option<R>
    decreases |hooks|
  {
    if hooks == [] then r
    else LastSetBy(if hooks[0].sets == [] then r else hooks[0].sets[|hooks[0].sets| - 1], hooks[1..])
  }

  function ExitOf<R, E>(hooks: seq<Hook<R, E>>): Exit<E> {
    if hooks != [] && hooks[|hooks| - 1].Panics? then Panicked(hooks[|hooks| - 1].error) else Returned
  }

  lemma {:induction false} HooksAre<R, E>(r: Option<R>, hooks: seq<Hook<R, E>>, first: bool, sofar: Option<R>,
                                          depth: nat)
    returns (n: nat)
    requires !(first && sofar.Some?)
    ensures Calls(hooks, first, n)
    ensures var leg, called := Hooks(r, hooks, first, sofar, depth), hooks[..n];
            && leg.trace == HookEvents(called, depth) && leg.result == LastSetBy(r, called)
            && leg.exit == ExitOf(called)
            && (leg.exit.Returned? ==>
                  Given(hooks, first, sofar) == if LastGivenBy(called).Some? then LastGivenBy(called) else sofar)
    decreases |hooks|
  {
    n := 0;
    if hooks != [] {
      var h, leg := hooks[0], Called(r, hooks[0], depth);
      if !Goes(h, first) {
        n := 1;
        OneHook(r, h, depth);
        assert hooks[..1] == [h];
      } else {
        var now := if h.given.Some? then h.given else sofar;
        var m := HooksAre(leg.result, hooks[1..], first, now, depth);
        n := m + 1;
        assert hooks[..n] == [h] + hooks[1..][..m];
        MoreHooks(r, h, hooks[1..][..m], depth);
      }
    }
  }

  lemma OneHook<R, E>(r: Option<R>, h: Hook<R, E>, depth: nat)
    ensures HookEvents([h], depth) == Called(r, h, depth).trace
    ensures LastSetBy(r, [h]) == Called(r, h, depth).result && ExitOf([h]) == Called(r, h, depth).exit
    ensures LastGivenBy([h]) == if h.Gives? then h.given else None
  {
    assert [h][1..] == [];
  }

  lemma MoreHooks<R, E>(r: Option<R>, h: Hook<R, E>, rest: seq<Hook<R, E>>, depth: nat)
    requires h.Gives?
    ensures var leg := Called(r, h, depth);
            && HookEvents([h] + rest, depth) == leg.trace + HookEvents(rest, depth)
            && LastSetBy(r, [h] + rest) == LastSetBy(leg.result, rest)
            && ExitOf([h] + rest) == ExitOf(rest)
            && LastGivenBy([h] + rest) == if LastGivenBy(rest).Some? then LastGivenBy(rest) else h.given
  {
    assert ([h] + rest)[1..] == rest;
  }

  function HooksOf<R, E>(s: Stages<R, E>, when: When): seq<Hook<R, E>> {
    if when == BEFORE then s.before
    else if when == AFTER then s.after
    else if when == PANIC then s.panics
    else s.finally
  }

  /**
    A stage calls its hooks up to the first panic, and up to the first result in BEFORE stages and in all stages
    of BeforeAfterFilter. The result given last becomes the controller's, over what the hooks set themselves,
    unless a hook panics.
   */
  lemma StageIs<R, E>(r: Option<R>, layer: Layer<R, E>, depth: nat, when: When) returns (n: nat)
    requires !layer.Catch?
    ensures Calls(HooksOf(layer.stages, when), layer.BeforeAfter? || when == BEFORE, n)
    ensures var stage, called := Stage(r, layer, depth, when), HooksOf(layer.stages, when)[..n];
            var gives := ExitOf(called).Returned? && LastGivenBy(called).Some?;
            && stage.exit == ExitOf(called)
            && stage.trace == [Begin(depth, when)] + HookEvents(called, depth)
                              + (if gives then [Gave(LastGivenBy(called))] else [])
            && stage.result == if gives then LastGivenBy(called) else LastSetBy(r, called)
  {
    var hooks, first := layer.stages.At(when), StopsAtFirst(layer, when);
    n := HooksAre(r, hooks, first, None, depth);
    var leg, called := Hooks(r, hooks, first, None, depth), hooks[..n];
    if leg.exit.Returned? && LastGivenBy(called).Some? {
      Reassociate([Begin(depth, when)], leg.trace, [Gave(LastGivenBy(called))]);
    } else {
      assert [Begin(depth, when)] + leg.trace + [] == [Begin(depth, when)] + leg.trace;
    }
  }

  /** One of the hooks called panics. */
  predicate StagePanics<R, E>(hooks: seq<Hook<R, E>>, first: bool) {
    exists i :: 0 <= i < |hooks| && hooks[i].Panics? && forall j :: 0 <= j < i ==> Goes(hooks[j], first)
  }

  lemma PanicsIff<R, E>(r: Option<R>, layer: Layer<R, E>, depth: nat, when: When)
    requires !layer.Catch?
    ensures Stage(r, layer, depth, when).exit.Panicked?
       <==> StagePanics(HooksOf(layer.stages, when), layer.BeforeAfter? || when == BEFORE)
  {
    var n := StageIs(r, layer, depth, when);
    LastPanics(HooksOf(layer.stages, when), layer.BeforeAfter? || when == BEFORE, n);
  }

  /** A hook that panics is the last one called. */
  lemma LastPanics<R, E>(hooks: seq<Hook<R, E>>, first: bool, n: nat)
    requires Calls(hooks, first, n)
    ensures StagePanics(hooks, first) <==> ExitOf(hooks[..n]).Panicked?
  {
    if StagePanics(hooks, first) {
      var i :| 0 <= i < |hooks| && hooks[i].Panics? && forall j :: 0 <= j < i ==> Goes(hooks[j], first);
      assert i == n - 1;
    }
  }

  // ----- who is called -----

  /** Every BEFORE hook returns without a result and, for InterceptorFilter, the controller has none after them. */
  predicate LetsThrough<R, E>(layer: Layer<R, E>, x: Option<R>) {
    layer.Catch? ||
    (&& (forall i :: 0 <= i < |layer.stages.before| ==> Goes(layer.stages.before[i], true))
     && (layer.Interceptors? ==> LastSetBy(x, layer.stages.before).None?))
  }

  /** The controller's result when what is inside the filter is called. */
  function HandsOn<R, E>(layer: Layer<R, E>, x: Option<R>): Option<R> {
    if layer.Catch? then x else LastSetBy(x, layer.stages.before)
  }

  /** The filters and the action that are to be called, each with the controller's result then. */
  function Reached<R, E>(x: Option<R>, c: Chain<R, E>, depth: nat): seq<(nat, Option<R>)>
    requires depth <= |c.layers|
    decreases |c.layers| - depth
  {
    [(depth, x)] + if depth < |c.layers| && LetsThrough(c.layers[depth], x)
                   then Reached(HandsOn(c.layers[depth], x), c, depth + 1) else []
  }

  /** The filters and the action that were called. */
  function Entries<R, E>(trace: seq<Event<R, E>>): seq<(nat, Option<R>)> {
    if trace == [] then []
    else (if trace[0].Enter? then [(trace[0].depth, trace[0].sofar)] else []) + Entries(trace[1..])
  }

  lemma {:induction false} EntriesConcat<R, E>(a: seq<Event<R, E>>, b: seq<Event<R, E>>)
    ensures Entries(a + b) == Entries(a) + Entries(b)
  {
    if a == [] {
      assert a + b == b;
    } else {
      assert (a + b)[0] == a[0] && (a + b)[1..] == a[1..] + b;
      EntriesConcat(a[1..], b);
    }
  }

  lemma {:induction false} NoEntries<R, E>(trace: seq<Event<R, E>>)
    requires forall i :: 0 <= i < |trace| ==> !trace[i].Enter?
    ensures Entries(trace) == []
  {
    if trace != [] { NoEntries(trace[1..]); }
  }

  lemma StageEntries<R, E>(r: Option<R>, layer: Layer<R, E>, depth: nat, when: When)
    requires !layer.Catch?
    ensures Entries(Stage(r, layer, depth, when).trace) == []
  {
    var trace := Stage(r, layer, depth, when).trace;
    forall i | 0 <= i < |trace| ensures !trace[i].Enter? { StageEvents(r, layer, depth, when, trace[i]); }
    NoEntries(trace);
  }

  lemma ActEntries<R, E>(r: Option<R>, action: Hook<R, E>, depth: nat)
    ensures Entries(Act(r, action, depth).trace) == []
  {
    var trace, leg := Act(r, action, depth).trace, Called(r, action, depth);
    forall i | 0 <= i < |trace| ensures !trace[i].Enter? {
      if trace[i] in leg.trace { CalledEvents(r, action, depth, trace[i]); }
    }
    NoEntries(trace);
  }

  lemma QuietHooks<R, E>(hooks: seq<Hook<R, E>>)
    requires forall i :: 0 <= i < |hooks| ==> Goes(hooks[i], true)
    ensures LastGivenBy(hooks).None? && ExitOf(hooks).Returned?
  {
    if hooks != [] { QuietHooks(hooks[1..]); }
  }

  lemma {:induction false} LoudHook<R, E>(hooks: seq<Hook<R, E>>)
    requires hooks != [] && hooks[|hooks| - 1].Gives? && hooks[|hooks| - 1].given.Some?
    ensures LastGivenBy(hooks) == hooks[|hooks| - 1].given
  {
    if |hooks| > 1 { LoudHook(hooks[1..]); }
  }

  /** The BEFORE stage lets the request through exactly when its hooks say so. */
  lemma ThroughIff<R, E>(r: Option<R>, layer: Layer<R, E>, depth: nat)
    requires !layer.Catch?
    ensures var before := Stage(r, layer, depth, BEFORE);
            && (before.exit.Returned? && !ReturnsEarly(before.result, layer) <==> LetsThrough(layer, r))
            && (LetsThrough(layer, r) ==> before.result == HandsOn(layer, r))
  {
    var hooks := layer.stages.before;
    var n := StageIs(r, layer, depth, BEFORE);
    var m := HooksAre(r, hooks, true, None, depth);
    assert n == m;
    if forall i :: 0 <= i < |hooks| ==> Goes(hooks[i], true) {
      assert hooks[..n] == hooks;
      QuietHooks(hooks);
    } else {
      assert !Goes(hooks[n - 1], true);
      if hooks[n - 1].Gives? { LoudHook(hooks[..n]); }
    }
  }

  lemma ClosedEntries<R, E>(body: Leg<R, E>, layer: Layer<R, E>, depth: nat)
    requires !layer.Catch?
    ensures Entries(Closed(body, layer, depth).trace) == Entries(body.trace)
  {
    var leg := Recovered(body, layer, depth);
    EntriesConcat(body.trace, Stage(body.result, layer, depth, PANIC).trace);
    StageEntries(body.result, layer, depth, PANIC);
    EntriesConcat(leg.trace, Stage(leg.result, layer, depth, FINALLY).trace);
    StageEntries(leg.result, layer, depth, FINALLY);
  }

  lemma BodyEntries<R, E>(r: Option<R>, c: Chain<R, E>, depth: nat)
    requires depth < |c.layers| && !c.layers[depth].Catch?
    ensures Entries(Body(r, c, depth).trace)
         == if !LetsThrough(c.layers[depth], r) then []
            else Entries(Run(HandsOn(c.layers[depth], r), c, depth + 1).trace)
  {
    var layer := c.layers[depth];
    var before := Stage(r, layer, depth, BEFORE);
    ThroughIff(r, layer, depth);
    StageEntries(r, layer, depth, BEFORE);
    if LetsThrough(layer, r) {
      var run := Run(before.result, c, depth + 1);
      EntriesConcat(before.trace, run.trace);
      EntriesConcat(before.trace + run.trace, Stage(run.result, layer, depth, AFTER).trace);
      StageEntries(run.result, layer, depth, AFTER);
    }
  }

  /** In every run of every chain, exactly those are called, once each and from the outside in. */
  lemma {:induction false} WhoIsCalled<R, E>(r: Option<R>, c: Chain<R, E>, depth: nat)
    requires depth <= |c.layers|
    ensures Entries(Run(r, c, depth).trace) == Reached(r, c, depth)
    decreases |c.layers| - depth
  {
    EntriesConcat([Enter(depth, r)], Handled(r, c, depth).trace);
    if depth == |c.layers| {
      ActEntries(r, c.action, depth);
    } else if c.layers[depth].Catch? {
      var leg := Run(r, c, depth + 1);
      WhoIsCalled(r, c, depth + 1);
      EntriesConcat(leg.trace, Assigned<R, E>(leg.result, c.layers[depth].page).trace);
    } else {
      ClosedEntries(Body(r, c, depth), c.layers[depth], depth);
      BodyEntries(r, c, depth);
      if LetsThrough(c.layers[depth], r) { WhoIsCalled(HandsOn(c.layers[depth], r), c, depth + 1); }
    }
  }

  // ----- which stages run -----

  ghost predicate Entered<R, E>(trace: seq<Event<R, E>>, d: nat) {
    exists e :: e in trace && e.Enter? && e.depth == d
  }

  /** An error comes out of what is inside filter `d`. */
  ghost predicate InsideRaises<R, E>(c: Chain<R, E>, d: nat, trace: seq<Event<R, E>>) {
    exists e :: e in trace && e.Threw? && d < e.depth && Uncaught(c, d + 1, e.depth)
  }

  predicate IsFrom<R, E>(e: Event<R, E>, d: nat) { !e.Gave? && e.depth >= d }

  ghost predicate Covers<R, E>(a: seq<Event<R, E>>, b: seq<Event<R, E>>, d: nat) {
    forall i :: 0 <= i < |a| && IsFrom(a[i], d) ==> a[i] in b
  }

  /** The events of filter `d` and of what is inside it, in a run that starts further out. */
  ghost predicate SameFrom<R, E>(a: seq<Event<R, E>>, b: seq<Event<R, E>>, d: nat) {
    Covers(a, b, d) && Covers(b, a, d)
  }

  lemma SameHas<R, E>(a: seq<Event<R, E>>, b: seq<Event<R, E>>, d: nat, e: Event<R, E>)
    requires SameFrom(a, b, d) && IsFrom(e, d)
    ensures e in a <==> e in b
  {
    if e in a { var i :| 0 <= i < |a| && a[i] == e; }
    if e in b { var i :| 0 <= i < |b| && b[i] == e; }
  }

  lemma {:induction false} SameTrans<R, E>(a: seq<Event<R, E>>, b: seq<Event<R, E>>, c: seq<Event<R, E>>, d: nat)
    requires SameFrom(a, b, d) && SameFrom(b, c, d)
    ensures SameFrom(a, c, d)
  {
    forall i | 0 <= i < |a| && IsFrom(a[i], d) ensures a[i] in c { SameHas(b, c, d, a[i]); }
    forall i | 0 <= i < |c| && IsFrom(c[i], d) ensures c[i] in a { SameHas(a, b, d, c[i]); }
  }

  /** They are those of a run of filter `d` alone, or none. */
  lemma {:induction false} Descend<R, E>(r: Option<R>, c: Chain<R, E>, depth: nat, d: nat)
    returns (reached: bool, x: Option<R>)
    requires depth <= d <= |c.layers|
    ensures SameFrom(Run(r, c, depth).trace, if reached then Run(x, c, d).trace else [], d)
    decreases |c.layers| - depth
  {
    if depth == d { return true, r; }
    if c.layers[depth].Catch? {
      reached, x := Descend(r, c, depth + 1, d);
      SameInside(r, c, depth, d, Run(r, c, depth + 1).trace);
      SameTrans(Run(r, c, depth).trace, Run(r, c, depth + 1).trace, if reached then Run(x, c, d).trace else [], d);
    } else {
      reached, x := DescendInside(r, c, depth, d);
      SameInside(r, c, depth, d, Inner(r, c, depth).trace);
      SameTrans(Run(r, c, depth).trace, Inner(r, c, depth).trace, if reached then Run(x, c, d).trace else [], d);
    }
  }

  lemma SameInside<R, E>(r: Option<R>, c: Chain<R, E>, depth: nat, d: nat, inside: seq<Event<R, E>>)
    requires depth < d <= |c.layers|
    requires inside == if c.layers[depth].Catch? then Run(r, c, depth + 1).trace else Inner(r, c, depth).trace
    ensures SameFrom(Run(r, c, depth).trace, inside, d)
  {
    var all := Run(r, c, depth).trace;
    forall i | 0 <= i < |all| && IsFrom(all[i], d) ensures all[i] in inside {
      PassesThrough(r, c, depth, all[i], inside);
    }
    forall i | 0 <= i < |inside| && IsFrom(inside[i], d) ensures inside[i] in all {
      PassesThrough(r, c, depth, inside[i], inside);
    }
  }

  lemma PassesThrough<R, E>(r: Option<R>, c: Chain<R, E>, depth: nat, e: Event<R, E>, inside: seq<Event<R, E>>)
    requires depth < |c.layers| && !e.Gave? && e.depth != depth
    requires inside == if c.layers[depth].Catch? then Run(r, c, depth + 1).trace else Inner(r, c, depth).trace
    ensures e in Run(r, c, depth).trace <==> e in inside
  {
    if c.layers[depth].Catch? { CatchEvents(r, c, depth, e); } else { ComesFromInside(r, c, depth, e); }
  }

  lemma {:induction false} DescendInside<R, E>(r: Option<R>, c: Chain<R, E>, depth: nat, d: nat)
    returns (reached: bool, x: Option<R>)
    requires depth < d <= |c.layers| && !c.layers[depth].Catch?
    ensures SameFrom(Inner(r, c, depth).trace, if reached then Run(x, c, d).trace else [], d)
    decreases |c.layers| - depth, 0
  {
    var before := Stage(r, c.layers[depth], depth, BEFORE);
    if before.exit.Panicked? || ReturnsEarly(before.result, c.layers[depth]) { return false, None; }
    reached, x := Descend(before.result, c, depth + 1, d);
  }

  /** AFTER runs exactly when what is inside was called and no error came out of it. */
  ghost predicate AfterLaw<R, E>(c: Chain<R, E>, d: nat, trace: seq<Event<R, E>>) {
    Begin(d, AFTER) in trace <==> Entered(trace, d + 1) && !InsideRaises(c, d, trace)
  }

  /** PANIC runs exactly when BEFORE or AFTER panics or an error comes out of what is inside. */
  ghost predicate PanicLaw<R, E>(c: Chain<R, E>, d: nat, trace: seq<Event<R, E>>)
    requires d < |c.layers| && !c.layers[d].Catch?
  {
    var stages := c.layers[d].stages;
    Begin(d, PANIC) in trace <==>
      || (Entered(trace, d) && StagePanics(stages.before, true))
      || InsideRaises(c, d, trace)
      || (Begin(d, AFTER) in trace && StagePanics(stages.after, c.layers[d].BeforeAfter?))
  }

  /** BEFORE and FINALLY run exactly when the filter was called. */
  ghost predicate OuterLaw<R, E>(d: nat, trace: seq<Event<R, E>>) {
    (Begin(d, BEFORE) in trace <==> Entered(trace, d)) && (Begin(d, FINALLY) in trace <==> Entered(trace, d))
  }

  ghost predicate StageLaws<R, E>(c: Chain<R, E>, d: nat, trace: seq<Event<R, E>>)
    requires d < |c.layers| && !c.layers[d].Catch?
  {
    AfterLaw(c, d, trace) && PanicLaw(c, d, trace) && OuterLaw(d, trace)
  }

  lemma {:induction false} RaisedIsThrown<R, E>(c: Chain<R, E>, low: nat, trace: seq<Event<R, E>>)
    requires Raised(c, low, trace).Some?
    ensures exists e :: e in trace && e.Threw? && Uncaught(c, low, e.depth)
  {
    var last := trace[|trace| - 1];
    if last.Threw? && Uncaught(c, low, last.depth) {
      assert last in trace;
    } else {
      RaisedIsThrown(c, low, trace[..|trace| - 1]);
      var e :| e in trace[..|trace| - 1] && e.Threw? && Uncaught(c, low, e.depth);
      assert e in trace;
    }
  }

  /** What is inside panics exactly when an error comes out of it. */
  lemma InsideRaisesIff<R, E>(r: Option<R>, c: Chain<R, E>, d: nat)
    requires d < |c.layers| && !c.layers[d].Catch?
    ensures InsideRaises(c, d, Run(r, c, d).trace) <==> Inner(r, c, d).exit.Panicked?
  {
    var before, inner, trace := Stage(r, c.layers[d], d, BEFORE), Inner(r, c, d), Run(r, c, d).trace;
    if inner.exit.Panicked? {
      EveryExit(before.result, c, d + 1);
      InnerWithin(r, c, d);
      RaisedIsThrown(c, d + 1, inner.trace);
      var e :| e in inner.trace && e.Threw? && Uncaught(c, d + 1, e.depth);
      ComesFromInside(r, c, d, e);
    }
    if InsideRaises(c, d, trace) {
      var e :| e in trace && e.Threw? && d < e.depth && Uncaught(c, d + 1, e.depth);
      ComesFromInside(r, c, d, e);
      ThrownIsRaised(c, d + 1, inner.trace, e);
      EveryExit(before.result, c, d + 1);
    }
  }

  /** What is inside was called exactly when the BEFORE stage let the request through. */
  lemma EnteredIff<R, E>(r: Option<R>, c: Chain<R, E>, d: nat)
    requires d < |c.layers| && !c.layers[d].Catch?
    ensures Entered(Run(r, c, d).trace, d + 1) <==> LetsThrough(c.layers[d], r)
    ensures Entered(Run(r, c, d).trace, d)
  {
    var before := Stage(r, c.layers[d], d, BEFORE);
    ThroughIff(r, c.layers[d], d);
    EnterEvents(r, c, d, Enter(d, r));
    ComesFromInside(r, c, d, Enter(d + 1, before.result));
    if Entered(Run(r, c, d).trace, d + 1) {
      var e :| e in Run(r, c, d).trace && e.Enter? && e.depth == d + 1;
      ComesFromInside(r, c, d, e);
    }
  }

  lemma StageHas<R, E>(r: Option<R>, layer: Layer<R, E>, depth: nat, at: When, when: When)
    requires !layer.Catch?
    ensures Begin(depth, when) in Stage(r, layer, depth, at).trace <==> at == when
  {
    var trace := Stage(r, layer, depth, at).trace;
    assert trace[0] == Begin(depth, at);
    if Begin(depth, when) in trace { StageEvents(r, layer, depth, at, Begin(depth, when)); }
  }

  lemma BodyHas<R, E>(r: Option<R>, c: Chain<R, E>, d: nat, when: When)
    requires d < |c.layers| && !c.layers[d].Catch?
    ensures Begin(d, when) in Body(r, c, d).trace
       <==> when == BEFORE || (when == AFTER && LetsThrough(c.layers[d], r) && Inner(r, c, d).exit.Returned?)
    ensures Body(r, c, d).exit.Panicked?
       <==> || StagePanics(c.layers[d].stages.before, true)
            || Inner(r, c, d).exit.Panicked?
            || (Begin(d, AFTER) in Body(r, c, d).trace
                && StagePanics(c.layers[d].stages.after, c.layers[d].BeforeAfter?))
  {
    var layer := c.layers[d];
    var before := Stage(r, layer, d, BEFORE);
    ThroughIff(r, layer, d);
    PanicsIff(r, layer, d, BEFORE);
    StageHas(r, layer, d, BEFORE, when);
    StageHas(r, layer, d, BEFORE, AFTER);
    if LetsThrough(layer, r) {
      InnerWithin(r, c, d);
      ContinuedHas(before, c, d, when);
      ContinuedHas(before, c, d, AFTER);
      PanicsIff(Inner(r, c, d).result, layer, d, AFTER);
    }
  }

  lemma ContinuedHas<R, E>(before: Leg<R, E>, c: Chain<R, E>, d: nat, when: When)
    requires d < |c.layers| && !c.layers[d].Catch?
    requires Within(Run(before.result, c, d + 1).trace, d + 1, |c.layers|)
    ensures Begin(d, when) in Continued(before, c, d).trace
       <==> Begin(d, when) in before.trace || (Run(before.result, c, d + 1).exit.Returned? && when == AFTER)
  {
    var run := Run(before.result, c, d + 1);
    var after := Stage(run.result, c.layers[d], d, AFTER);
    StageHas(run.result, c.layers[d], d, AFTER, when);
    InParts(before.trace, run.trace, after.trace, Begin(d, when));
  }

  lemma RunHas<R, E>(r: Option<R>, c: Chain<R, E>, d: nat, when: When)
    requires d < |c.layers| && !c.layers[d].Catch?
    ensures Begin(d, when) in Run(r, c, d).trace
       <==> || Begin(d, when) in Body(r, c, d).trace
            || (when == PANIC && Body(r, c, d).exit.Panicked?)
            || when == FINALLY
  {
    var layer, body := c.layers[d], Body(r, c, d);
    var leg := Recovered(body, layer, d);
    EnterEvents(r, c, d, Begin(d, when));
    StageHas(body.result, layer, d, PANIC, when);
    StageHas(leg.result, layer, d, FINALLY, when);
  }

  lemma LawsHere<R, E>(r: Option<R>, c: Chain<R, E>, d: nat)
    requires d < |c.layers| && !c.layers[d].Catch?
    ensures StageLaws(c, d, Run(r, c, d).trace)
  {
    EnteredIff(r, c, d);
    InsideRaisesIff(r, c, d);
    RunHas(r, c, d, BEFORE);
    RunHas(r, c, d, AFTER);
    RunHas(r, c, d, PANIC);
    RunHas(r, c, d, FINALLY);
    BodyHas(r, c, d, BEFORE);
    BodyHas(r, c, d, AFTER);
    BodyHas(r, c, d, PANIC);
  }

  lemma SameLaws<R, E>(c: Chain<R, E>, d: nat, a: seq<Event<R, E>>, b: seq<Event<R, E>>)
    requires d < |c.layers| && !c.layers[d].Catch? && SameFrom(a, b, d)
    ensures StageLaws(c, d, a) <==> StageLaws(c, d, b)
  {
    forall when ensures Begin(d, when) in a <==> Begin(d, when) in b { SameHas(a, b, d, Begin(d, when)); }
    SameEntered(a, b, d, d);
    SameEntered(a, b, d, d + 1);
    if InsideRaises(c, d, a) { SameRaises(c, d, a, b); }
    if InsideRaises(c, d, b) { SameRaises(c, d, b, a); }
  }

  lemma SameEntered<R, E>(a: seq<Event<R, E>>, b: seq<Event<R, E>>, d: nat, k: nat)
    requires SameFrom(a, b, d) && d <= k
    ensures Entered(a, k) <==> Entered(b, k)
  {
    if Entered(a, k) {
      var e :| e in a && e.Enter? && e.depth == k;
      SameHas(a, b, d, e);
    }
    if Entered(b, k) {
      var e :| e in b && e.Enter? && e.depth == k;
      SameHas(a, b, d, e);
    }
  }

  lemma SameRaises<R, E>(c: Chain<R, E>, d: nat, a: seq<Event<R, E>>, b: seq<Event<R, E>>)
    requires SameFrom(a, b, d) && InsideRaises(c, d, a)
    ensures InsideRaises(c, d, b)
  {
    var e :| e in a && e.Threw? && d < e.depth && Uncaught(c, d + 1, e.depth);
    SameHas(a, b, d, e);
  }

  /**
    In every run of every chain, for every filter with stages in it: BEFORE and FINALLY run when it is called,
    AFTER when what is inside was called and no error came out of it, PANIC when an error went through it.
   */
  lemma WhichStagesRun<R, E>(r: Option<R>, c: Chain<R, E>, depth: nat, d: nat)
    requires depth <= d < |c.layers| && !c.layers[d].Catch?
    ensures StageLaws(c, d, Run(r, c, depth).trace)
  {
    var reached, x := Descend(r, c, depth, d);
    if reached {
      LawsHere(x, c, d);
      SameLaws(c, d, Run(r, c, depth).trace, Run(x, c, d).trace);
    } else {
      SameLaws(c, d, Run(r, c, depth).trace, []);
    }
  }

  // ----- in which order -----

  function RankOf(when: When): int {
    match when
    case BEFORE => 1
    case AFTER => 3
    case PANIC => 4
    case FINALLY => 5
  }

  /** Where an event stands among those of filter `d` and of what is inside it; -1 for the other events. */
  function Rank<R, E>(e: Event<R, E>, d: nat): int {
    match e
    case Enter(k, _) => if k == d then 0 else if k > d then 2 else -1
    case Begin(k, when) => if k == d then RankOf(when) else if k > d then 2 else -1
    case Threw(k, _) => if k > d then 2 else -1
    case Gave(_) => -1
  }

  /** The ranks go up, the one of what is inside apart, and stay within bounds. */
  ghost predicate InOrder<R, E>(trace: seq<Event<R, E>>, d: nat, low: int, high: int) {
    && (forall i :: 0 <= i < |trace| && Rank(trace[i], d) >= 0 ==> low <= Rank(trace[i], d) <= high)
    && (forall i, j :: 0 <= i < j < |trace| && Rank(trace[i], d) >= 0 && Rank(trace[j], d) >= 0 ==>
          Rank(trace[i], d) < Rank(trace[j], d) || Rank(trace[i], d) == Rank(trace[j], d) == 2)
  }

  lemma OrderConcat<R, E>(a: seq<Event<R, E>>, b: seq<Event<R, E>>, d: nat, low: int, mid: int, next: int, high: int)
    requires InOrder(a, d, low, mid) && InOrder(b, d, next, high) && low <= next && mid < next && mid <= high
    ensures InOrder(a + b, d, low, high)
  {
    var t := a + b;
    forall i, j | 0 <= i < j < |t| && Rank(t[i], d) >= 0 && Rank(t[j], d) >= 0
      ensures Rank(t[i], d) < Rank(t[j], d) || Rank(t[i], d) == Rank(t[j], d) == 2
    {
      if i < |a| <= j { assert t[j] == b[j - |a|]; }
      if |a| <= i { assert t[i] == b[i - |a|] && t[j] == b[j - |a|]; }
    }
  }

  /** Ranks are between 0 and 5. */
  lemma OrderBounds<R, E>(trace: seq<Event<R, E>>, d: nat, low: int, high: int)
    requires InOrder(trace, d, low, high)
    ensures InOrder(trace, d, 0, 5)
  {
  }

  /** Nothing but results and errors of the filter at `depth`. */
  predicate Plain<R, E>(trace: seq<Event<R, E>>, depth: nat) {
    forall i :: 0 <= i < |trace| ==> trace[i].Gave? || (trace[i].Threw? && trace[i].depth == depth)
  }

  lemma Unranked<R, E>(trace: seq<Event<R, E>>, depth: nat, d: nat, low: int, high: int)
    requires depth <= d && Plain(trace, depth)
    ensures InOrder(trace, d, low, high)
  {
  }

  lemma StageOrder<R, E>(r: Option<R>, layer: Layer<R, E>, depth: nat, when: When, d: nat, k: int)
    requires !layer.Catch? && depth <= d && (depth == d ==> k == RankOf(when))
    ensures InOrder(Stage(r, layer, depth, when).trace, d, k, k)
  {
    var first := StopsAtFirst(layer, when);
    var leg := Hooks(r, layer.stages.At(when), first, None, depth);
    forall i | 0 <= i < |leg.trace| ensures leg.trace[i].Gave? || (leg.trace[i].Threw? && leg.trace[i].depth == depth) {
      HooksEvents(r, layer.stages.At(when), first, None, depth, leg.trace[i]);
    }
    var rest := if leg.exit.Panicked? then leg.trace
                else leg.trace + Assigned<R, E>(leg.result, GivenAt(layer, when)).trace;
    assert Plain(rest, depth);
    assert Stage(r, layer, depth, when).trace == [Begin(depth, when)] + rest;
    BeginOrder(rest, depth, when, d, k);
  }

  lemma BeginOrder<R, E>(rest: seq<Event<R, E>>, depth: nat, when: When, d: nat, k: int)
    requires Plain(rest, depth) && depth <= d && (depth == d ==> k == RankOf(when))
    ensures InOrder([Begin(depth, when)] + rest, d, k, k)
  {
    var t := [Begin(depth, when)] + rest;
    forall i | 0 < i < |t| ensures Rank(t[i], d) == -1 { assert t[i] == rest[i - 1]; }
  }

  lemma InsideOrder<R, E>(trace: seq<Event<R, E>>, d: nat, high: nat)
    requires Within(trace, d + 1, high)
    ensures InOrder(trace, d, 2, 2)
  {
    forall i | 0 <= i < |trace| && Rank(trace[i], d) >= 0 ensures Rank(trace[i], d) == 2 {
      assert trace[i] in trace;
    }
  }

  /**
    In every run of every chain and for every filter in it: the call, BEFORE, all that happens inside, AFTER,
    PANIC, FINALLY, in this order, and each stage at most once.
   */
  lemma {:induction false} StagesInOrder<R, E>(r: Option<R>, c: Chain<R, E>, depth: nat, d: nat)
    requires depth <= d <= |c.layers|
    ensures InOrder(Run(r, c, depth).trace, d, 0, 5)
    decreases |c.layers| - depth, 2
  {
    var own := depth == d;
    HandledOrder(r, c, depth, d);
    OrderConcat([Enter(depth, r)], Handled(r, c, depth).trace, d,
                if own then 0 else -3, if own then 0 else -3, if own then 1 else -2, 8);
    OrderBounds(Run(r, c, depth).trace, d, if own then 0 else -3, 8);
  }

  lemma {:induction false} HandledOrder<R, E>(r: Option<R>, c: Chain<R, E>, depth: nat, d: nat)
    requires depth <= d <= |c.layers|
    ensures InOrder(Handled(r, c, depth).trace, d, if depth == d then 1 else -2, 8)
    decreases |c.layers| - depth, 1
  {
    if depth == |c.layers| {
      ActOrder(r, c.action, depth, d);
    } else if c.layers[depth].Catch? {
      RunInsideOrder(r, c, depth, d);
      CatchOrder(Run(r, c, depth + 1), c.layers[depth].page, depth, d);
    } else {
      BodyOrder(r, c, depth, d);
      ClosedOrder(Body(r, c, depth), c.layers[depth], depth, d);
    }
  }

  lemma CatchOrder<R, E>(run: Leg<R, E>, page: Option<R>, depth: nat, d: nat)
    requires depth <= d && InOrder(run.trace, d, if depth == d then 2 else 0, if depth == d then 2 else 5)
    ensures InOrder(run.trace, d, if depth == d then 1 else -2, 8)
    ensures InOrder(run.Then(Assigned(run.result, page)).trace, d, if depth == d then 1 else -2, 8)
  {
    var shown := Assigned<R, E>(run.result, page).trace;
    Unranked(shown, depth, d, 6, 6);
    OrderConcat(run.trace, shown, d, if depth == d then 2 else 0, if depth == d then 2 else 5, 6, 6);
  }

  lemma ActOrder<R, E>(r: Option<R>, action: Hook<R, E>, depth: nat, d: nat)
    requires depth <= d
    ensures InOrder(Act(r, action, depth).trace, d, 1, 1)
  {
    var trace, leg := Act(r, action, depth).trace, Called(r, action, depth);
    forall i | 0 <= i < |trace| ensures trace[i].Gave? || (trace[i].Threw? && trace[i].depth == depth) {
      if trace[i] in leg.trace { CalledEvents(r, action, depth, trace[i]); }
    }
    Unranked(trace, depth, d, 1, 1);
  }

  /** What is inside the filter at `depth`. */
  lemma {:induction false} RunInsideOrder<R, E>(r: Option<R>, c: Chain<R, E>, depth: nat, d: nat)
    requires depth <= d <= |c.layers| && depth < |c.layers|
    ensures InOrder(Run(r, c, depth + 1).trace, d, if depth == d then 2 else 0, if depth == d then 2 else 5)
    decreases |c.layers| - depth, 0, 0
  {
    if depth == d {
      RunWithin(r, c, depth + 1);
      InsideOrder(Run(r, c, depth + 1).trace, d, |c.layers|);
    } else {
      StagesInOrder(r, c, depth + 1, d);
    }
  }

  lemma {:induction false} BodyOrder<R, E>(r: Option<R>, c: Chain<R, E>, depth: nat, d: nat)
    requires depth <= d <= |c.layers| && depth < |c.layers| && !c.layers[depth].Catch?
    ensures InOrder(Body(r, c, depth).trace, d, if depth == d then 1 else -2, if depth == d then 3 else 6)
    decreases |c.layers| - depth, 0, 1
  {
    var layer, k := c.layers[depth], if depth == d then 1 else -2;
    var before := Stage(r, layer, depth, BEFORE);
    StageOrder(r, layer, depth, BEFORE, d, k);
    if before.exit.Panicked? || ReturnsEarly(before.result, layer) {
      OrderWider(before.trace, d, k, k, if depth == d then 3 else 6);
    } else {
      var run := Run(before.result, c, depth + 1);
      RunInsideOrder(before.result, c, depth, d);
      ContinuedOrder(before.trace, run, layer, depth, d);
      ContinuedIs(before, c, depth, run);
    }
  }

  lemma ContinuedIs<R, E>(before: Leg<R, E>, c: Chain<R, E>, depth: nat, run: Leg<R, E>)
    requires depth < |c.layers| && !c.layers[depth].Catch? && run == Run(before.result, c, depth + 1)
    ensures Continued(before, c, depth).trace
         == if run.exit.Panicked? then before.trace + run.trace
            else before.trace + run.trace + Stage(run.result, c.layers[depth], depth, AFTER).trace
  {
  }

  lemma OrderWider<R, E>(trace: seq<Event<R, E>>, d: nat, low: int, high: int, wide: int)
    requires InOrder(trace, d, low, high) && high <= wide
    ensures InOrder(trace, d, low, wide)
  {
  }

  lemma ContinuedOrder<R, E>(before: seq<Event<R, E>>, run: Leg<R, E>, layer: Layer<R, E>, depth: nat, d: nat)
    requires !layer.Catch? && depth <= d
    requires InOrder(before, d, if depth == d then 1 else -2, if depth == d then 1 else -2)
    requires InOrder(run.trace, d, if depth == d then 2 else 0, if depth == d then 2 else 5)
    ensures var low, high := if depth == d then 1 else -2, if depth == d then 3 else 6;
            && InOrder(before + run.trace, d, low, high)
            && InOrder(before + run.trace + Stage(run.result, layer, depth, AFTER).trace, d, low, high)
  {
    var own := depth == d;
    var low, high := if own then 1 else -2, if own then 3 else 6;
    OrderConcat(before, run.trace, d, low, low, if own then 2 else 0, if own then 2 else 5);
    StageOrder(run.result, layer, depth, AFTER, d, high);
    OrderConcat(before + run.trace, Stage(run.result, layer, depth, AFTER).trace, d,
                low, if own then 2 else 5, high, high);
  }

  lemma ClosedOrder<R, E>(body: Leg<R, E>, layer: Layer<R, E>, depth: nat, d: nat)
    requires !layer.Catch? && depth <= d
    requires InOrder(body.trace, d, if depth == d then 1 else -2, if depth == d then 3 else 6)
    ensures InOrder(Closed(body, layer, depth).trace, d, if depth == d then 1 else -2, 8)
  {
    var low, own := if depth == d then 1 else -2, depth == d;
    var leg := Recovered(body, layer, depth);
    StageOrder(body.result, layer, depth, PANIC, d, if own then 4 else 7);
    if body.exit.Panicked? {
      OrderConcat(body.trace, Stage(body.result, layer, depth, PANIC).trace, d, low, if own then 3 else 6,
                  if own then 4 else 7, if own then 4 else 7);
    }
    StageOrder(leg.result, layer, depth, FINALLY, d, if own then 5 else 8);
    OrderConcat(leg.trace, Stage(leg.result, layer, depth, FINALLY).trace, d, low, if own then 4 else 7,
                if own then 5 else 8, 8);
  }

  /** A filter is called once, with one result. */
  lemma OneEnter<R, E>(r: Option<R>, c: Chain<R, E>, d: nat, x: Option<R>)
    requires d <= |c.layers| && Enter(d, x) in Run(r, c, d).trace
    ensures x == r
  {
    var trace := Run(r, c, d).trace;
    StagesInOrder(r, c, d, d);
    var i :| 0 <= i < |trace| && trace[i] == Enter(d, x);
    assert Rank(trace[0], d) == 0 && Rank(trace[i], d) == 0;
  }

  /**
    In every run: when a filter is called with the controller's result `x`, the filter or the action inside it is
    called if and only if every BEFORE hook returns without a result and, for InterceptorFilter, the hooks leave
    the controller without one.
   */
  lemma InsideIsCalledIff<R, E>(r: Option<R>, c: Chain<R, E>, depth: nat, d: nat, x: Option<R>)
    requires depth <= d < |c.layers| && Enter(d, x) in Run(r, c, depth).trace
    ensures Entered(Run(r, c, depth).trace, d + 1) <==> LetsThrough(c.layers[d], x)
  {
    var reached, y := Descend(r, c, depth, d);
    var trace, own := Run(r, c, depth).trace, if reached then Run(y, c, d).trace else [];
    SameHas(trace, own, d, Enter(d, x));
    OneEnter(y, c, d, x);
    SameEntered(trace, own, d, d + 1);
    if c.layers[d].Catch? {
      EnterEvents(y, c, d + 1, Enter(d + 1, y));
      CatchEvents(y, c, d, Enter(d + 1, y));
    } else {
      EnteredIff(y, c, d);
    }
  }

  // ----- the results of the action and of PanicFilter -----

  /** An action that gives a result leaves it in the controller. */
  lemma ActionResult<R, E>(r: Option<R>, c: Chain<R, E>)
    ensures var run := Run(r, c, |c.layers|);
            && run.exit == ExitOf([c.action])
            && run.result == if LastGivenBy([c.action]).Some? then LastGivenBy([c.action]) else LastSetBy(r, [c.action])
  {
    OneHook(r, c.action, |c.layers|);
  }

  /** PanicFilter returns, with its page as the result when an error reaches it. */
  lemma PageIsShown<R, E>(r: Option<R>, c: Chain<R, E>, d: nat)
    requires d < |c.layers| && c.layers[d].Catch?
    ensures var run := Run(r, c, d);
            && run.exit.Returned?
            && run.result == if InsideRaises(c, d, run.trace) && c.layers[d].page.Some? then c.layers[d].page
                             else LastGiven(r, Run(r, c, d + 1).trace)
  {
    var inner := Run(r, c, d + 1);
    EveryExit(r, c, d + 1);
    RunWithin(r, c, d + 1);
    if inner.exit.Panicked? {
      RaisedIsThrown(c, d + 1, inner.trace);
      var e :| e in inner.trace && e.Threw? && Uncaught(c, d + 1, e.depth);
      CatchEvents(r, c, d, e);
    }
    if InsideRaises(c, d, Run(r, c, d).trace) {
      var e :| e in Run(r, c, d).trace && e.Threw? && d < e.depth && Uncaught(c, d + 1, e.depth);
      CatchEvents(r, c, d, e);
      ThrownIsRaised(c, d + 1, inner.trace, e);
    }
  }
}
