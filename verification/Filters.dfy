/**
  The filters that wrap an action with deferred stages: InterceptorFilter, BeforeAfterFilter and
  PanicFilter. A stage is a list of hooks, and a hook may set the controller's result itself, and may panic.
 */
module Filters {
  import opened Common

  /** What a hook does when called: it sets the controller's result, or not, and then gives one or panics. */
  datatype Hook<R, E> = Gives(sets: seq<Option<R>>, given: Option<R>) | Panics(sets: seq<Option<R>>, error: E)

  datatype When = BEFORE | AFTER | PANIC | FINALLY

  datatype Stages<R, E> = Stages(before: seq<Hook<R, E>>, after: seq<Hook<R, E>>,
                                 panics: seq<Hook<R, E>>, finally: seq<Hook<R, E>>)
  {
    function At(when: When): seq<Hook<R, E>> {
      match when
      case BEFORE => before
      case AFTER => after
      case PANIC => panics
      case FINALLY => finally
    }
  }

  /** `page` is the result that PanicFilter sets for an error, if it does. */
  datatype Layer<R, E> = Interceptors(stages: Stages<R, E>) | BeforeAfter(stages: Stages<R, E>) | Catch(page: Option<R>)

  /** The filters, outermost first, and the action. */
  datatype Chain<R, E> = Chain(layers: seq<Layer<R, E>>, action: Hook<R, E>)

  datatype Exit<E> = Returned | Panicked(error: E)

  /**
    What happens: a filter or the action is called with the controller's result as it is, a filter's stage
    begins, the controller's result is set, a hook panics.
   */
  datatype Event<R, E> =
    | Enter(depth: nat, sofar: Option<R>)
    | Begin(depth: nat, when: When)
    | Gave(result: Option<R>)
    | Threw(depth: nat, error: E)

  /** How a part of a request ends, the controller's result then, and what happened in it. */
  datatype Leg<R, E> = Leg(exit: Exit<E>, result: Option<R>, trace: seq<Event<R, E>>)
  {
    function Then(next: Leg<R, E>): Leg<R, E> { next.(trace := trace + next.trace) }

    /** A deferred stage leaves the exit as it was unless it panics. */
    function Deferred(stage: Leg<R, E>): Leg<R, E> {
      Leg(if stage.exit.Panicked? then stage.exit else exit, stage.result, trace + stage.trace)
    }
  }

  // ----- one stage -----

  function Sets<R, E>(sets: seq<Option<R>>): seq<Event<R, E>> {
    if sets == [] then [] else Sets(sets[..|sets| - 1]) + [Gave(sets[|sets| - 1])]
  }

  /** One hook. */
  function Called<R, E>(r: Option<R>, hook: Hook<R, E>, depth: nat): Leg<R, E> {
    var leg := Leg(Returned, if hook.sets == [] then r else hook.sets[|hook.sets| - 1], Sets(hook.sets));
    if hook.Panics? then leg.(exit := Panicked(hook.error), trace := leg.trace + [Threw(depth, hook.error)]) else leg
  }

  /** What a list of hooks gives: the first result when `first`, otherwise the last; nothing when one panics. */
  function Given<R, E>(hooks: seq<Hook<R, E>>, first: bool, sofar: Option<R>): Option<R> {
    if hooks == [] || (first && sofar.Some?) then sofar
    else if hooks[0].Panics? then None
    else Given(hooks[1..], first, if hooks[0].given.Some? then hooks[0].given else sofar)
  }

  /** The hooks of a stage, called until one panics or, when `first`, gives a result. */
  function Hooks<R, E>(r: Option<R>, hooks: seq<Hook<R, E>>, first: bool, sofar: Option<R>, depth: nat): Leg<R, E>
    decreases |hooks|
  {
    if hooks == [] || (first && sofar.Some?) then Leg(Returned, r, [])
    else
      var leg := Called(r, hooks[0], depth);
      if leg.exit.Panicked? then leg
      else
        leg.Then(Hooks(leg.result, hooks[1..], first, if hooks[0].given.Some? then hooks[0].given else sofar, depth))
  }

  /** InterceptorFilter's stages run to the end, BEFORE apart; BeforeAfterFilter's stop at a result. */
  predicate StopsAtFirst<R, E>(layer: Layer<R, E>, when: When) { layer.BeforeAfter? || when == BEFORE }

  /** Setting the controller's result to one that is there. */
  function Assigned<R, E>(r: Option<R>, given: Option<R>): Leg<R, E> {
    if given.Some? then Leg(Returned, given, [Gave(given)]) else Leg(Returned, r, [])
  }

  function Stage<R, E>(r: Option<R>, layer: Layer<R, E>, depth: nat, when: When): Leg<R, E>
    requires !layer.Catch?
  {
    var leg := Hooks(r, layer.stages.At(when), StopsAtFirst(layer, when), None, depth);
    var done := if leg.exit.Panicked? then leg else leg.Then(Assigned(leg.result, GivenAt(layer, when)));
    done.(trace := [Begin(depth, when)] + done.trace)
  }

  function GivenAt<R, E>(layer: Layer<R, E>, when: When): Option<R>
    requires !layer.Catch?
  {
    Given(layer.stages.At(when), StopsAtFirst(layer, when), None)
  }

  // ----- a chain -----

  function Act<R, E>(r: Option<R>, action: Hook<R, E>, depth: nat): Leg<R, E> {
    var leg := Called(r, action, depth);
    if action.Panics? then leg else leg.Then(Assigned(leg.result, action.given))
  }

  /**
    Whether a filter returns after its BEFORE stage. InterceptorFilter looks at the controller's result,
    which an earlier filter may have set; BeforeAfterFilter at what its own hooks gave.
   */
  predicate ReturnsEarly<R, E>(r: Option<R>, layer: Layer<R, E>)
    requires !layer.Catch?
  {
    if layer.Interceptors? then r.Some? else GivenAt(layer, BEFORE).Some?
  }

  /** The filters from `depth` on, with the controller's result `r` so far. */
  function Run<R, E>(r: Option<R>, c: Chain<R, E>, depth: nat): Leg<R, E>
    requires depth <= |c.layers|
    decreases |c.layers| - depth, 2
  {
    Entering(r, depth, Handled(r, c, depth))
  }

  function Entering<R, E>(r: Option<R>, depth: nat, leg: Leg<R, E>): Leg<R, E> {
    leg.(trace := [Enter(depth, r)] + leg.trace)
  }

  /** What a filter or the action does once it is called. */
  function Handled<R, E>(r: Option<R>, c: Chain<R, E>, depth: nat): Leg<R, E>
    requires depth <= |c.layers|
    decreases |c.layers| - depth, 1
  {
    if depth == |c.layers| then Act(r, c.action, depth)
    else
      var layer := c.layers[depth];
      if layer.Catch? then
        var leg := Run(r, c, depth + 1);
        if leg.exit.Panicked? then leg.Then(Assigned(leg.result, layer.page)) else leg
      else
        Closed(Body(r, c, depth), layer, depth)
  }

  /** The deferred stages: PANIC on a panic, and FINALLY. */
  function Recovered<R, E>(body: Leg<R, E>, layer: Layer<R, E>, depth: nat): Leg<R, E>
    requires !layer.Catch?
  {
    if body.exit.Panicked? then body.Deferred(Stage(body.result, layer, depth, PANIC)) else body
  }

  function Closed<R, E>(body: Leg<R, E>, layer: Layer<R, E>, depth: nat): Leg<R, E>
    requires !layer.Catch?
  {
    var leg := Recovered(body, layer, depth);
    leg.Deferred(Stage(leg.result, layer, depth, FINALLY))
  }

  /** A filter without its deferred stages. */
  function Body<R, E>(r: Option<R>, c: Chain<R, E>, depth: nat): Leg<R, E>
    requires depth < |c.layers| && !c.layers[depth].Catch?
    decreases |c.layers| - depth, 0
  {
    var layer := c.layers[depth];
    var before := Stage(r, layer, depth, BEFORE);
    if before.exit.Panicked? || ReturnsEarly(before.result, layer) then before
    else Continued(before, c, depth)
  }

  /** The filters inside, and then the AFTER stage. */
  function Continued<R, E>(before: Leg<R, E>, c: Chain<R, E>, depth: nat): Leg<R, E>
    requires depth < |c.layers| && !c.layers[depth].Catch?
    decreases |c.layers| - depth - 1, 3
  {
    var inner := before.Then(Run(before.result, c, depth + 1));
    if inner.exit.Panicked? then inner else inner.Then(Stage(inner.result, c.layers[depth], depth, AFTER))
  }

  /** What the filters inside do, when this one lets the request through. */
  function Inner<R, E>(r: Option<R>, c: Chain<R, E>, depth: nat): (inner: Leg<R, E>)
    requires depth < |c.layers| && !c.layers[depth].Catch?
  {
    var before := Stage(r, c.layers[depth], depth, BEFORE);
    if before.exit.Panicked? || ReturnsEarly(before.result, c.layers[depth]) then Leg(Returned, before.result, [])
    else Run(before.result, c, depth + 1)
  }

  // ----- what is true of every run -----

  /** The filters whose stage began, in order. */
  function Starts<R, E>(trace: seq<Event<R, E>>, when: When): seq<nat> {
    if trace == [] then []
    else (if trace[0].Begin? && trace[0].when == when then [trace[0].depth] else []) + Starts(trace[1..], when)
  }

  lemma {:induction false} StartsConcat<R, E>(a: seq<Event<R, E>>, b: seq<Event<R, E>>, when: When)
    ensures Starts(a + b, when) == Starts(a, when) + Starts(b, when)
  {
    if a == [] {
      assert a + b == b;
    } else {
      assert (a + b)[0] == a[0] && (a + b)[1..] == a[1..] + b;
      StartsConcat(a[1..], b, when);
    }
  }

  lemma StageStarts<R, E>(r: Option<R>, layer: Layer<R, E>, depth: nat, at: When, when: When)
    requires !layer.Catch?
    ensures Starts(Stage(r, layer, depth, at).trace, when) == if at == when then [depth] else []
  {
    HooksStart(r, layer.stages.At(at), StopsAtFirst(layer, at), None, depth, when);
    var leg := Hooks(r, layer.stages.At(at), StopsAtFirst(layer, at), None, depth);
    AssignedStarts(leg, GivenAt(layer, at), when);
    var done := if leg.exit.Panicked? then leg else leg.Then(Assigned(leg.result, GivenAt(layer, at)));
    StartsConcat([Begin(depth, at)], done.trace, when);
  }

  lemma AssignedStarts<R, E>(leg: Leg<R, E>, given: Option<R>, when: When)
    ensures Starts(leg.Then(Assigned(leg.result, given)).trace, when) == Starts(leg.trace, when)
  {
    StartsConcat(leg.trace, Assigned<R, E>(leg.result, given).trace, when);
  }

  lemma {:induction false} SetsStart<R, E>(sets: seq<Option<R>>, when: When)
    ensures Starts<R, E>(Sets(sets), when) == []
  {
    if sets != [] {
      SetsStart<R, E>(sets[..|sets| - 1], when);
      StartsConcat<R, E>(Sets(sets[..|sets| - 1]), [Gave(sets[|sets| - 1])], when);
    }
  }

  lemma CalledStarts<R, E>(r: Option<R>, hook: Hook<R, E>, depth: nat, when: When)
    ensures Starts(Called(r, hook, depth).trace, when) == []
  {
    SetsStart<R, E>(hook.sets, when);
    if hook.Panics? { StartsConcat(Sets(hook.sets), [Threw(depth, hook.error)], when); }
  }

  lemma {:induction false} HooksStart<R, E>(r: Option<R>, hooks: seq<Hook<R, E>>, first: bool, sofar: Option<R>,
                                            depth: nat, when: When)
    ensures Starts(Hooks(r, hooks, first, sofar, depth).trace, when) == []
    decreases |hooks|
  {
    if hooks != [] && !(first && sofar.Some?) {
      var leg := Called(r, hooks[0], depth);
      CalledStarts(r, hooks[0], depth, when);
      if leg.exit.Returned? {
        var now := if hooks[0].given.Some? then hooks[0].given else sofar;
        HooksStart(leg.result, hooks[1..], first, now, depth, when);
        StartsConcat(leg.trace, Hooks(leg.result, hooks[1..], first, now, depth).trace, when);
      }
    }
  }

  function Reverse(s: seq<nat>): seq<nat> { if s == [] then [] else Reverse(s[1..]) + [s[0]] }

  /** Strictly increasing, from `low` on. */
  predicate Ascending(s: seq<nat>, low: nat) { s == [] || (s[0] >= low && Ascending(s[1..], s[0] + 1)) }

  lemma {:induction false} AscendingFrom(s: seq<nat>, low: nat, lower: nat)
    requires Ascending(s, low) && lower <= low
    ensures Ascending(s, lower)
  {
  }

  lemma EnterStarts<R, E>(r: Option<R>, c: Chain<R, E>, depth: nat, when: When)
    requires depth <= |c.layers|
    ensures Starts(Run(r, c, depth).trace, when) == Starts(Handled(r, c, depth).trace, when)
  {
    StartsConcat([Enter(depth, r)], Handled(r, c, depth).trace, when);
  }

  /** What the body of a filter adds to the stages of the filters inside it. */
  lemma BodyStarts<R, E>(r: Option<R>, c: Chain<R, E>, depth: nat, when: When)
    requires depth < |c.layers| && !c.layers[depth].Catch? && (when == BEFORE || when == FINALLY)
    ensures var inner := Starts(Inner(r, c, depth).trace, when);
            Starts(Body(r, c, depth).trace, when) == if when == BEFORE then [depth] + inner else inner
  {
    var before := Stage(r, c.layers[depth], depth, BEFORE);
    StageStarts(r, c.layers[depth], depth, BEFORE, when);
    if !before.exit.Panicked? && !ReturnsEarly(before.result, c.layers[depth]) {
      ContinuedStarts(before, c, depth, when);
    }
  }

  lemma ContinuedStarts<R, E>(before: Leg<R, E>, c: Chain<R, E>, depth: nat, when: When)
    requires depth < |c.layers| && !c.layers[depth].Catch? && when != AFTER
    ensures Starts(Continued(before, c, depth).trace, when)
         == Starts(before.trace, when) + Starts(Run(before.result, c, depth + 1).trace, when)
  {
    var run := before.Then(Run(before.result, c, depth + 1));
    StartsConcat(before.trace, Run(before.result, c, depth + 1).trace, when);
    StartsConcat(run.trace, Stage(run.result, c.layers[depth], depth, AFTER).trace, when);
    StageStarts(run.result, c.layers[depth], depth, AFTER, when);
  }

  /** The deferred stages come after everything else. */
  lemma RunStarts<R, E>(r: Option<R>, c: Chain<R, E>, depth: nat, when: When)
    requires depth < |c.layers| && !c.layers[depth].Catch? && (when == BEFORE || when == FINALLY)
    ensures var body := Starts(Body(r, c, depth).trace, when);
            Starts(Run(r, c, depth).trace, when) == if when == FINALLY then body + [depth] else body
  {
    var layer, body := c.layers[depth], Body(r, c, depth);
    var leg := if body.exit.Panicked? then body.Deferred(Stage(body.result, layer, depth, PANIC)) else body;
    EnterStarts(r, c, depth, when);
    StartsConcat(body.trace, Stage(body.result, layer, depth, PANIC).trace, when);
    StageStarts(body.result, layer, depth, PANIC, when);
    StartsConcat(leg.trace, Stage(leg.result, layer, depth, FINALLY).trace, when);
    StageStarts(leg.result, layer, depth, FINALLY, when);
  }

  predicate Mirrored(entered: seq<nat>, finals: seq<nat>, low: nat) {
    finals == Reverse(entered) && Ascending(entered, low)
  }

  /**
    On every exit, panics and early returns included: each filter that was entered runs its FINALLY
    stage exactly once, the inner ones first.
   */
  lemma {:induction false} FinallyInnerFirst<R, E>(r: Option<R>, c: Chain<R, E>, depth: nat)
    requires depth <= |c.layers|
    ensures var trace := Run(r, c, depth).trace;
            Mirrored(Starts(trace, BEFORE), Starts(trace, FINALLY), depth)
    decreases |c.layers| - depth
  {
    if depth == |c.layers| {
      EnterStarts(r, c, depth, BEFORE);
      EnterStarts(r, c, depth, FINALLY);
      ActStarts(r, c.action, depth, BEFORE);
      ActStarts(r, c.action, depth, FINALLY);
    } else if c.layers[depth].Catch? {
      FinallyInnerFirst(r, c, depth + 1);
      CatchStarts(r, c, depth);
      AscendingFrom(Starts(Run(r, c, depth).trace, BEFORE), depth + 1, depth);
    } else {
      FinallyInnerFirst(Stage(r, c.layers[depth], depth, BEFORE).result, c, depth + 1);
      OneMoreFilter(r, c, depth);
    }
  }

  lemma OneMoreFilter<R, E>(r: Option<R>, c: Chain<R, E>, depth: nat)
    requires depth < |c.layers| && !c.layers[depth].Catch?
    requires var inside := Run(Stage(r, c.layers[depth], depth, BEFORE).result, c, depth + 1).trace;
             Mirrored(Starts(inside, BEFORE), Starts(inside, FINALLY), depth + 1)
    ensures var trace := Run(r, c, depth).trace;
            Mirrored(Starts(trace, BEFORE), Starts(trace, FINALLY), depth)
  {
    BodyStarts(r, c, depth, BEFORE);
    BodyStarts(r, c, depth, FINALLY);
    RunStarts(r, c, depth, BEFORE);
    RunStarts(r, c, depth, FINALLY);
    var inner := Inner(r, c, depth).trace;
    OneMore(Starts(inner, BEFORE), Starts(inner, FINALLY), depth);
  }

  lemma OneMore(entered: seq<nat>, finals: seq<nat>, depth: nat)
    requires Mirrored(entered, finals, depth + 1)
    ensures Mirrored([depth] + entered, finals + [depth], depth)
  {
    assert ([depth] + entered)[1..] == entered;
  }

  lemma ActStarts<R, E>(r: Option<R>, action: Hook<R, E>, depth: nat, when: When)
    ensures Starts(Act(r, action, depth).trace, when) == []
  {
    CalledStarts(r, action, depth, when);
    AssignedStarts(Called(r, action, depth), if action.Gives? then action.given else None, when);
  }

  lemma CatchStarts<R, E>(r: Option<R>, c: Chain<R, E>, depth: nat)
    requires depth < |c.layers| && c.layers[depth].Catch?
    ensures forall when :: Starts(Run(r, c, depth).trace, when) == Starts(Run(r, c, depth + 1).trace, when)
  {
    forall when ensures Starts(Run(r, c, depth).trace, when) == Starts(Run(r, c, depth + 1).trace, when) {
      EnterStarts(r, c, depth, when);
      AssignedStarts(Run(r, c, depth + 1), c.layers[depth].page, when);
    }
  }

  // ----- errors and results -----

  /** No PanicFilter among the filters from `low` up to `high`. */
  predicate Uncaught<R, E>(c: Chain<R, E>, low: nat, high: nat) {
    forall k :: low <= k < high && k < |c.layers| ==> !c.layers[k].Catch?
  }

  /** The last error thrown that no PanicFilter from `low` on stands in the way of. */
  function Raised<R, E>(c: Chain<R, E>, low: nat, trace: seq<Event<R, E>>): Option<E> {
    if trace == [] then None
    else
      var last := trace[|trace| - 1];
      if last.Threw? && Uncaught(c, low, last.depth) then Some(last.error) else Raised(c, low, trace[..|trace| - 1])
  }

  /** The result last given, or the one there was. */
  function LastGiven<R, E>(r: Option<R>, trace: seq<Event<R, E>>): Option<R> {
    if trace == [] then r
    else if trace[|trace| - 1].Gave? then trace[|trace| - 1].result
    else LastGiven(r, trace[..|trace| - 1])
  }

  lemma {:induction false} RaisedConcat<R, E>(c: Chain<R, E>, low: nat, a: seq<Event<R, E>>, b: seq<Event<R, E>>)
    ensures Raised(c, low, a + b) == if Raised(c, low, b).Some? then Raised(c, low, b) else Raised(c, low, a)
  {
    if b == [] {
      assert a + b == a;
    } else {
      assert (a + b)[..|a + b| - 1] == a + b[..|b| - 1];
      RaisedConcat(c, low, a, b[..|b| - 1]);
    }
  }

  lemma {:induction false} LastGivenConcat<R, E>(r: Option<R>, a: seq<Event<R, E>>, b: seq<Event<R, E>>)
    ensures LastGiven(r, a + b) == LastGiven(LastGiven(r, a), b)
  {
    if b == [] {
      assert a + b == a;
    } else {
      assert (a + b)[..|a + b| - 1] == a + b[..|b| - 1];
      LastGivenConcat(r, a, b[..|b| - 1]);
    }
  }

  /** The trace tells how a leg ends, and with which result. */
  ghost predicate Told<R, E>(r: Option<R>, c: Chain<R, E>, low: nat, leg: Leg<R, E>) {
    && leg.exit == (if Raised(c, low, leg.trace).None? then Returned else Panicked(Raised(c, low, leg.trace).value))
    && leg.result == LastGiven(r, leg.trace)
  }

  lemma AssignedTold<R, E>(r: Option<R>, c: Chain<R, E>, depth: nat, given: Option<R>)
    ensures Told(r, c, depth, Assigned(r, given))
  {
    var t := Assigned<R, E>(r, given).trace;
    assert t == [] || t[..|t| - 1] == [];
  }

  lemma {:induction false} SetsTold<R, E>(r: Option<R>, c: Chain<R, E>, depth: nat, sets: seq<Option<R>>)
    ensures Raised(c, depth, Sets(sets)).None?
    ensures LastGiven(r, Sets<R, E>(sets)) == if sets == [] then r else sets[|sets| - 1]
  {
    if sets != [] {
      SetsTold(r, c, depth, sets[..|sets| - 1]);
      var init: seq<Event<R, E>> := Sets(sets[..|sets| - 1]);
      assert (init + [Gave(sets[|sets| - 1])])[..|init|] == init;
    }
  }

  lemma ThrewTold<R, E>(r: Option<R>, c: Chain<R, E>, depth: nat, error: E)
    ensures Told(r, c, depth, Leg(Panicked(error), r, [Threw(depth, error)]))
  {
    var t: seq<Event<R, E>> := [Threw(depth, error)];
    assert t[..0] == [];
  }

  lemma CalledTold<R, E>(r: Option<R>, c: Chain<R, E>, depth: nat, hook: Hook<R, E>)
    ensures Told(r, c, depth, Called(r, hook, depth))
  {
    var leg: Leg<R, E> := Called(r, Gives(hook.sets, None), depth);
    SetsTold(r, c, depth, hook.sets);
    if hook.Panics? {
      ThrewTold(leg.result, c, depth, hook.error);
      ToldConcat(r, c, depth, leg, Leg(Panicked(hook.error), leg.result, [Threw(depth, hook.error)]));
    }
  }

  lemma {:induction false} HooksTold<R, E>(r: Option<R>, c: Chain<R, E>, depth: nat, hooks: seq<Hook<R, E>>,
                                           first: bool, sofar: Option<R>)
    ensures Told(r, c, depth, Hooks(r, hooks, first, sofar, depth))
    decreases |hooks|
  {
    if hooks != [] && !(first && sofar.Some?) {
      var leg := Called(r, hooks[0], depth);
      CalledTold(r, c, depth, hooks[0]);
      if leg.exit.Returned? {
        var now := if hooks[0].given.Some? then hooks[0].given else sofar;
        HooksTold(leg.result, c, depth, hooks[1..], first, now);
        ToldConcat(r, c, depth, leg, Hooks(leg.result, hooks[1..], first, now, depth));
      }
    }
  }

  lemma StageTold<R, E>(r: Option<R>, c: Chain<R, E>, layer: Layer<R, E>, depth: nat, when: When)
    requires !layer.Catch?
    ensures Told(r, c, depth, Stage(r, layer, depth, when))
  {
    var leg := Hooks(r, layer.stages.At(when), StopsAtFirst(layer, when), None, depth);
    HooksTold(r, c, depth, layer.stages.At(when), StopsAtFirst(layer, when), None);
    AssignedTold(leg.result, c, depth, GivenAt(layer, when));
    ToldConcat(r, c, depth, leg, Assigned(leg.result, GivenAt(layer, when)));
    var begin: Leg<R, E> := Leg(Returned, r, [Begin(depth, when)]);
    assert begin.trace[..0] == [];
    ToldConcat(r, c, depth, begin,
               if leg.exit.Panicked? then leg else leg.Then(Assigned(leg.result, GivenAt(layer, when))));
  }

  /** A leg followed by another, when the first did not panic or what follows was deferred. */
  lemma ToldConcat<R, E>(r: Option<R>, c: Chain<R, E>, low: nat, leg: Leg<R, E>, next: Leg<R, E>)
    requires Told(r, c, low, leg) && Told(leg.result, c, low, next)
    ensures Told(r, c, low, leg.Deferred(next))
    ensures leg.exit.Returned? ==> leg.Then(next) == leg.Deferred(next)
  {
    RaisedConcat(c, low, leg.trace, next.trace);
    LastGivenConcat(r, leg.trace, next.trace);
  }

  /** Where the events of a run come from. */
  ghost predicate Within<R, E>(trace: seq<Event<R, E>>, low: nat, high: nat) {
    forall e :: e in trace && !e.Gave? ==> low <= e.depth <= high
  }

  lemma {:induction false} SetsEvents<R, E>(sets: seq<Option<R>>, e: Event<R, E>)
    requires e in Sets<R, E>(sets)
    ensures e.Gave?
  {
    if e != Gave(sets[|sets| - 1]) { SetsEvents(sets[..|sets| - 1], e); }
  }

  lemma CalledEvents<R, E>(r: Option<R>, hook: Hook<R, E>, depth: nat, e: Event<R, E>)
    requires e in Called(r, hook, depth).trace
    ensures e.Gave? || (e.Threw? && e.depth == depth)
  {
    if e in Sets<R, E>(hook.sets) { SetsEvents(hook.sets, e); }
  }

  lemma {:induction false} HooksEvents<R, E>(r: Option<R>, hooks: seq<Hook<R, E>>, first: bool, sofar: Option<R>,
                                             depth: nat, e: Event<R, E>)
    requires e in Hooks(r, hooks, first, sofar, depth).trace
    ensures e.Gave? || (e.Threw? && e.depth == depth)
    decreases |hooks|
  {
    var leg := Called(r, hooks[0], depth);
    if e in leg.trace {
      CalledEvents(r, hooks[0], depth, e);
    } else {
      HooksEvents(leg.result, hooks[1..], first, if hooks[0].given.Some? then hooks[0].given else sofar, depth, e);
    }
  }

  lemma StageEvents<R, E>(r: Option<R>, layer: Layer<R, E>, depth: nat, when: When, e: Event<R, E>)
    requires !layer.Catch? && e in Stage(r, layer, depth, when).trace
    ensures e.Gave? || e == Begin(depth, when) || (e.Threw? && e.depth == depth)
  {
    if e in Hooks(r, layer.stages.At(when), StopsAtFirst(layer, when), None, depth).trace {
      HooksEvents(r, layer.stages.At(when), StopsAtFirst(layer, when), None, depth, e);
    }
  }

  /** An event in a filter is its own or from inside. */
  lemma BodyEvents<R, E>(r: Option<R>, c: Chain<R, E>, depth: nat, e: Event<R, E>)
    requires depth < |c.layers| && !c.layers[depth].Catch?
    ensures e in Body(r, c, depth).trace && !e.Gave? && e.depth != depth ==> e in Inner(r, c, depth).trace
    ensures e in Inner(r, c, depth).trace ==> e in Body(r, c, depth).trace
    ensures e == Begin(depth, AFTER) && e in Body(r, c, depth).trace ==>
              Inner(r, c, depth).exit.Returned? || e in Inner(r, c, depth).trace
    ensures Inner(r, c, depth).exit.Panicked? ==> Body(r, c, depth).exit.Panicked?
  {
    var layer := c.layers[depth];
    var before := Stage(r, layer, depth, BEFORE);
    if e in before.trace { StageEvents(r, layer, depth, BEFORE, e); }
    if !before.exit.Panicked? && !ReturnsEarly(before.result, layer) {
      ContinuedEvents(before, c, depth, e);
    }
  }

  lemma ContinuedEvents<R, E>(before: Leg<R, E>, c: Chain<R, E>, depth: nat, e: Event<R, E>)
    requires depth < |c.layers| && !c.layers[depth].Catch?
    ensures var run, all := Run(before.result, c, depth + 1), Continued(before, c, depth);
            && (e in before.trace || e in run.trace ==> e in all.trace)
            && (e in all.trace && !e.Gave? ==>
                  e in before.trace || e in run.trace || (run.exit.Returned? && e.depth == depth))
            && (run.exit.Panicked? ==> all.exit.Panicked?)
  {
    var run := Run(before.result, c, depth + 1);
    var after := Stage(run.result, c.layers[depth], depth, AFTER);
    var all := Continued(before, c, depth);
    InParts(before.trace, run.trace, after.trace, e);
    if run.exit.Panicked? {
      assert all.trace == before.trace + run.trace;
    } else {
      assert all.trace == before.trace + run.trace + after.trace;
      if e in after.trace { StageEvents(run.result, c.layers[depth], depth, AFTER, e); }
    }
  }

  lemma InParts<R, E>(a: seq<Event<R, E>>, b: seq<Event<R, E>>, c: seq<Event<R, E>>, e: Event<R, E>)
    ensures e in a + b <==> e in a || e in b
    ensures e in a + b + c <==> e in a || e in b || e in c
  {
  }

  lemma EnterEvents<R, E>(r: Option<R>, c: Chain<R, E>, depth: nat, e: Event<R, E>)
    requires depth <= |c.layers|
    ensures e in Run(r, c, depth).trace <==> e == Enter(depth, r) || e in Handled(r, c, depth).trace
  {
  }

  lemma RunEvents<R, E>(r: Option<R>, c: Chain<R, E>, depth: nat, e: Event<R, E>)
    requires depth < |c.layers| && !c.layers[depth].Catch?
    ensures e in Body(r, c, depth).trace ==> e in Run(r, c, depth).trace
    ensures e in Run(r, c, depth).trace && !e.Gave? && (e.depth != depth || e == Begin(depth, AFTER)) ==>
              e in Body(r, c, depth).trace
    ensures Body(r, c, depth).exit.Panicked? ==> Begin(depth, PANIC) in Run(r, c, depth).trace
  {
    EnterEvents(r, c, depth, e);
    EnterEvents(r, c, depth, Begin(depth, PANIC));
    var layer, body := c.layers[depth], Body(r, c, depth);
    var panics := Stage(body.result, layer, depth, PANIC);
    var leg := if body.exit.Panicked? then body.Deferred(panics) else body;
    var finally := Stage(leg.result, layer, depth, FINALLY);
    if e in panics.trace { StageEvents(body.result, layer, depth, PANIC, e); }
    if e in finally.trace { StageEvents(leg.result, layer, depth, FINALLY, e); }
    assert Begin(depth, PANIC) == panics.trace[0];
  }

  lemma CatchEvents<R, E>(r: Option<R>, c: Chain<R, E>, depth: nat, e: Event<R, E>)
    requires depth < |c.layers| && c.layers[depth].Catch? && !e.Gave? && e.depth != depth
    ensures e in Run(r, c, depth).trace <==> e in Run(r, c, depth + 1).trace
  {
    EnterEvents(r, c, depth, e);
  }

  lemma {:induction false} RunWithin<R, E>(r: Option<R>, c: Chain<R, E>, depth: nat)
    requires depth <= |c.layers|
    ensures Within(Run(r, c, depth).trace, depth, |c.layers|)
    decreases |c.layers| - depth, 1
  {
    if depth < |c.layers| && c.layers[depth].Catch? { RunWithin(r, c, depth + 1); }
    if depth < |c.layers| && !c.layers[depth].Catch? { InnerWithin(r, c, depth); }
    forall e | e in Run(r, c, depth).trace && !e.Gave? ensures depth <= e.depth <= |c.layers| {
      EventWithin(r, c, depth, e);
    }
  }

  lemma EventWithin<R, E>(r: Option<R>, c: Chain<R, E>, depth: nat, e: Event<R, E>)
    requires depth <= |c.layers| && e in Run(r, c, depth).trace && !e.Gave?
    requires depth < |c.layers| && c.layers[depth].Catch? ==> Within(Run(r, c, depth + 1).trace, depth + 1, |c.layers|)
    requires depth < |c.layers| && !c.layers[depth].Catch? ==> Within(Inner(r, c, depth).trace, depth + 1, |c.layers|)
    ensures depth <= e.depth <= |c.layers|
  {
    if depth == |c.layers| {
      EnterEvents(r, c, depth, e);
      if e in Called(r, c.action, depth).trace { CalledEvents(r, c.action, depth, e); }
    } else if e.depth != depth {
      if c.layers[depth].Catch? { CatchEvents(r, c, depth, e); } else { ComesFromInside(r, c, depth, e); }
    }
  }

  lemma {:induction false} InnerWithin<R, E>(r: Option<R>, c: Chain<R, E>, depth: nat)
    requires depth < |c.layers| && !c.layers[depth].Catch?
    ensures Within(Inner(r, c, depth).trace, depth + 1, |c.layers|)
    decreases |c.layers| - depth, 0
  {
    RunWithin(Stage(r, c.layers[depth], depth, BEFORE).result, c, depth + 1);
  }

  lemma {:induction false} RaisedBelow<R, E>(c: Chain<R, E>, low: nat, trace: seq<Event<R, E>>, high: nat)
    requires low < |c.layers| && Within(trace, low + 1, high)
    ensures Raised(c, low, trace) == if c.layers[low].Catch? then None else Raised(c, low + 1, trace)
  {
    if trace != [] {
      var last := trace[|trace| - 1];
      RaisedBelow(c, low, trace[..|trace| - 1], high);
      if last.Threw? { UncaughtFrom(c, low, last.depth); }
    }
  }

  lemma UncaughtFrom<R, E>(c: Chain<R, E>, low: nat, high: nat)
    requires low < |c.layers| && low < high
    ensures Uncaught(c, low, high) <==> !c.layers[low].Catch? && Uncaught(c, low + 1, high)
  {
  }

  /**
    A run panics exactly when a hook or the action threw an error with no PanicFilter around it in the
    run, and then with the last such error; the controller's result is the last one given.
   */
  lemma {:induction false} EveryExit<R, E>(r: Option<R>, c: Chain<R, E>, depth: nat)
    requires depth <= |c.layers|
    ensures Told(r, c, depth, Run(r, c, depth))
    decreases |c.layers| - depth, 1
  {
    HandledTold(r, c, depth);
    var enter: Leg<R, E> := Leg(Returned, r, [Enter(depth, r)]);
    assert enter.trace[..0] == [];
    ToldConcat(r, c, depth, enter, Handled(r, c, depth));
  }

  lemma {:induction false} HandledTold<R, E>(r: Option<R>, c: Chain<R, E>, depth: nat)
    requires depth <= |c.layers|
    ensures Told(r, c, depth, Handled(r, c, depth))
    decreases |c.layers| - depth, 0
  {
    if depth == |c.layers| {
      var leg := Called(r, c.action, depth);
      CalledTold(r, c, depth, c.action);
      if c.action.Gives? {
        AssignedTold(leg.result, c, depth, c.action.given);
        ToldConcat(r, c, depth, leg, Assigned(leg.result, c.action.given));
      }
    } else if c.layers[depth].Catch? {
      CatchTold(r, c, depth);
    } else {
      var layer, body := c.layers[depth], Body(r, c, depth);
      var before := Stage(r, layer, depth, BEFORE);
      StageTold(r, c, layer, depth, BEFORE);
      if !before.exit.Panicked? && !ReturnsEarly(before.result, layer) {
        var run := Run(before.result, c, depth + 1);
        EveryExit(before.result, c, depth + 1);
        RunWithin(before.result, c, depth + 1);
        RaisedBelow(c, depth, run.trace, |c.layers|);
        ToldConcat(r, c, depth, before, run);
        StageTold(run.result, c, layer, depth, AFTER);
        ToldConcat(r, c, depth, before.Then(run), Stage(run.result, layer, depth, AFTER));
      }
      DeferredTold(r, c, depth);
    }
  }

  lemma DeferredTold<R, E>(r: Option<R>, c: Chain<R, E>, depth: nat)
    requires depth < |c.layers| && !c.layers[depth].Catch? && Told(r, c, depth, Body(r, c, depth))
    ensures Told(r, c, depth, Handled(r, c, depth))
  {
    var layer, body := c.layers[depth], Body(r, c, depth);
    var leg := if body.exit.Panicked? then body.Deferred(Stage(body.result, layer, depth, PANIC)) else body;
    StageTold(body.result, c, layer, depth, PANIC);
    ToldConcat(r, c, depth, body, Stage(body.result, layer, depth, PANIC));
    StageTold(leg.result, c, layer, depth, FINALLY);
    ToldConcat(r, c, depth, leg, Stage(leg.result, layer, depth, FINALLY));
  }

  lemma {:induction false} CatchTold<R, E>(r: Option<R>, c: Chain<R, E>, depth: nat)
    requires depth < |c.layers| && c.layers[depth].Catch?
    ensures Told(r, c, depth, Handled(r, c, depth))
    decreases |c.layers| - depth - 1, 2
  {
    var leg := Run(r, c, depth + 1);
    EveryExit(r, c, depth + 1);
    RunWithin(r, c, depth + 1);
    RaisedBelow(c, depth, leg.trace, |c.layers|);
    AssignedTold(leg.result, c, depth, c.layers[depth].page);
    if leg.exit.Panicked? {
      ToldConcat(r, c, depth, leg.(exit := Returned), Assigned(leg.result, c.layers[depth].page));
    }
  }

  /** An error thrown in a trace is raised from it, as far as it goes. */
  lemma {:induction false} ThrownIsRaised<R, E>(c: Chain<R, E>, low: nat, trace: seq<Event<R, E>>, e: Event<R, E>)
    requires e in trace && e.Threw? && Uncaught(c, low, e.depth)
    ensures Raised(c, low, trace).Some?
  {
    if trace[|trace| - 1] != e { ThrownIsRaised(c, low, trace[..|trace| - 1], e); }
  }

  /**
    Every filter that an error passes on its way out runs its PANIC stage and not its AFTER stage.
   */
  lemma {:induction false} ErrorsAreSeen<R, E>(r: Option<R>, c: Chain<R, E>, depth: nat, e: Event<R, E>, d: nat)
    requires depth <= d < |c.layers|
    requires e in Run(r, c, depth).trace && e.Threw? && d < e.depth && Uncaught(c, d, e.depth)
    ensures Begin(d, PANIC) in Run(r, c, depth).trace && Begin(d, AFTER) !in Run(r, c, depth).trace
    decreases |c.layers| - depth
  {
    if c.layers[depth].Catch? {
      RunWithin(r, c, depth + 1);
      CatchEvents(r, c, depth, e);
      CatchEvents(r, c, depth, Begin(d, PANIC));
      CatchEvents(r, c, depth, Begin(d, AFTER));
      ErrorsAreSeen(r, c, depth + 1, e, d);
    } else {
      ComesFromInside(r, c, depth, e);
      if d == depth {
        InnerPanics(r, c, depth, e);
        InnerWithin(r, c, depth);
        RunEvents(r, c, depth, Begin(d, AFTER));
        BodyEvents(r, c, depth, Begin(d, AFTER));
      } else {
        ComesFromInside(r, c, depth, Begin(d, PANIC));
        ComesFromInside(r, c, depth, Begin(d, AFTER));
        ErrorsAreSeen(Stage(r, c.layers[depth], depth, BEFORE).result, c, depth + 1, e, d);
      }
    }
  }

  lemma ComesFromInside<R, E>(r: Option<R>, c: Chain<R, E>, depth: nat, e: Event<R, E>)
    requires depth < |c.layers| && !c.layers[depth].Catch? && !e.Gave? && e.depth != depth
    ensures e in Run(r, c, depth).trace <==> e in Inner(r, c, depth).trace
  {
    RunEvents(r, c, depth, e);
    BodyEvents(r, c, depth, e);
  }

  lemma InnerPanics<R, E>(r: Option<R>, c: Chain<R, E>, depth: nat, e: Event<R, E>)
    requires depth < |c.layers| && !c.layers[depth].Catch?
    requires e in Inner(r, c, depth).trace && e.Threw? && depth < e.depth && Uncaught(c, depth, e.depth)
    ensures Inner(r, c, depth).exit.Panicked? && Body(r, c, depth).exit.Panicked?
  {
    var before := Stage(r, c.layers[depth], depth, BEFORE);
    UncaughtFrom(c, depth, e.depth);
    ThrownIsRaised(c, depth + 1, Inner(r, c, depth).trace, e);
    EveryExit(before.result, c, depth + 1);
    BodyEvents(r, c, depth, e);
  }

  // ----- the filters -----

  /** The hooks called so far make up `leg` and gave `sofar`; `rest` is to be called. */
  ghost predicate SoFar<R, E>(r: Option<R>, hooks: seq<Hook<R, E>>, first: bool, depth: nat,
                              leg: Leg<R, E>, rest: seq<Hook<R, E>>, sofar: Option<R>)
  {
    && Hooks(r, hooks, first, None, depth) == leg.Then(Hooks(leg.result, rest, first, sofar, depth))
    && Given(hooks, first, None) == Given(rest, first, sofar)
  }

  lemma NextHook<R, E>(r: Option<R>, hooks: seq<Hook<R, E>>, first: bool, depth: nat,
                       leg: Leg<R, E>, rest: seq<Hook<R, E>>, sofar: Option<R>)
    requires rest != [] && !(first && sofar.Some?) && SoFar(r, hooks, first, depth, leg, rest, sofar)
    ensures var called := Called(leg.result, rest[0], depth);
            if called.exit.Panicked? then
              Hooks(r, hooks, first, None, depth) == leg.Then(called) && Given(hooks, first, None).None?
            else
              SoFar(r, hooks, first, depth, leg.Then(called), rest[1..],
                    if rest[0].given.Some? then rest[0].given else sofar)
  {
    var called := Called(leg.result, rest[0], depth);
    if called.exit.Returned? {
      var now := if rest[0].given.Some? then rest[0].given else sofar;
      Reassociate(leg.trace, called.trace, Hooks(called.result, rest[1..], first, now, depth).trace);
    }
  }

  class Controller<R, E> {
    var Result: Option<R>
    ghost var trace: seq<Event<R, E>>

    ghost predicate Did(was: seq<Event<R, E>>, leg: Leg<R, E>, exit: Exit<E>)
      reads this
    {
      exit == leg.exit && Result == leg.result && trace == was + leg.trace
    }

    method Assign(r: Option<R>)
      modifies this
      ensures Did(old(trace), Assigned(old(Result), r), Returned)
    {
      if r.Some? {
        Result := r;
        trace := trace + [Gave(r)];
      }
    }

    /** Whatever the hook does to the controller's result, it does before it ends. */
    method Call(hook: Hook<R, E>, depth: nat) returns (exit: Exit<E>)
      modifies this
      ensures Did(old(trace), Called(old(Result), hook, depth), exit)
    {
      for i := 0 to |hook.sets|
        invariant Result == (if i == 0 then old(Result) else hook.sets[i - 1])
        invariant trace == old(trace) + Sets(hook.sets[..i])
      {
        Result := hook.sets[i];
        trace := trace + [Gave(Result)];
        assert hook.sets[..i + 1][..i] == hook.sets[..i];
      }
      assert hook.sets[..|hook.sets|] == hook.sets;
      exit := Returned;
      if hook.Panics? {
        trace := trace + [Threw(depth, hook.error)];
        exit := Panicked(hook.error);
      }
    }

    method CallHooks(hooks: seq<Hook<R, E>>, first: bool, depth: nat) returns (exit: Exit<E>, result: Option<R>)
      modifies this
      ensures Did(old(trace), Hooks(old(Result), hooks, first, None, depth), exit)
      ensures result == Given(hooks, first, None)
    {
      result := None;
      ghost var leg: Leg<R, E> := Leg(Returned, Result, []);
      for i := 0 to |hooks|
        invariant first ==> result.None?
        invariant Did(old(trace), leg, Returned) && SoFar(old(Result), hooks, first, depth, leg, hooks[i..], result)
      {
        NextHook(old(Result), hooks, first, depth, leg, hooks[i..], result);
        assert hooks[i..][0] == hooks[i] && hooks[i..][1..] == hooks[i + 1..];
        ghost var called := Called(Result, hooks[i], depth);
        exit := Call(hooks[i], depth);
        assert Did(old(trace), leg.Then(called), exit);
        leg := leg.Then(called);
        if exit.Panicked? { return exit, None; }
        if hooks[i].given.Some? { result := hooks[i].given; }
        if first && result.Some? { break; }
      }
      exit := Returned;
    }

    method InvokeInterceptors(layer: Layer<R, E>, depth: nat, when: When) returns (exit: Exit<E>)
      requires layer.Interceptors?
      modifies this
      ensures Did(old(trace), Stage(old(Result), layer, depth, when), exit)
    {
      trace := trace + [Begin(depth, when)];
      var result;
      exit, result := CallHooks(layer.stages.At(when), when == BEFORE, depth);
      if exit.Returned? { Assign(result); }
    }

    method InterceptorBody(c: Chain<R, E>, depth: nat) returns (exit: Exit<E>)
      requires depth < |c.layers| && c.layers[depth].Interceptors?
      modifies this
      ensures Did(old(trace), Body(old(Result), c, depth), exit)
      decreases |c.layers| - depth, 0
    {
      exit := InvokeInterceptors(c.layers[depth], depth, BEFORE);
      if exit.Panicked? || Result.Some? { return; }
      exit := Inside(c, depth, Result, old(trace), Stage(old(Result), c.layers[depth], depth, BEFORE));
    }

    /** The filters inside, and then the AFTER stage. */
    method Inside(c: Chain<R, E>, depth: nat, ghost r: Option<R>, ghost was: seq<Event<R, E>>, ghost before: Leg<R, E>)
      returns (exit: Exit<E>)
      requires depth < |c.layers| && !c.layers[depth].Catch? && Did(was, before, Returned) && r == Result
      modifies this
      ensures Did(was, Continued(before, c, depth), exit)
      decreases |c.layers| - depth - 1, 3
    {
      exit := Next(c, depth + 1);
      Reassociate(was, before.trace, Run(r, c, depth + 1).trace);
      ghost var inner := before.Then(Run(r, c, depth + 1));
      assert Did(was, inner, exit);
      if exit.Returned? {
        exit := RunStage(c.layers[depth], depth, AFTER);
        Reassociate(was, inner.trace, Stage(inner.result, c.layers[depth], depth, AFTER).trace);
      }
    }

    method RunStage(layer: Layer<R, E>, depth: nat, when: When) returns (exit: Exit<E>)
      requires !layer.Catch?
      modifies this
      ensures Did(old(trace), Stage(old(Result), layer, depth, when), exit)
    {
      if layer.Interceptors? {
        exit := InvokeInterceptors(layer, depth, when);
      } else {
        var given;
        exit, given := BeforeAfterStage(layer, depth, when);
      }
    }

    /** A deferred stage, after what `leg` did. */
    method Defer(layer: Layer<R, E>, depth: nat, when: When, exit: Exit<E>,
                 ghost was: seq<Event<R, E>>, ghost leg: Leg<R, E>)
      returns (exit': Exit<E>)
      requires !layer.Catch? && Did(was, leg, exit)
      modifies this
      ensures Did(was, leg.Deferred(Stage(leg.result, layer, depth, when)), exit')
    {
      exit' := RunStage(layer, depth, when);
      Reassociate(was, leg.trace, Stage(leg.result, layer, depth, when).trace);
      if exit'.Returned? { exit' := exit; }
    }

    /** The deferred functions of both filters. */
    method Close(c: Chain<R, E>, depth: nat, exit: Exit<E>, ghost was: seq<Event<R, E>>, ghost body: Leg<R, E>)
      returns (exit': Exit<E>)
      requires depth < |c.layers| && !c.layers[depth].Catch? && Did(was, body, exit)
      modifies this
      ensures Did(was, Closed(body, c.layers[depth], depth), exit')
    {
      exit' := exit;
      if exit.Panicked? { exit' := Defer(c.layers[depth], depth, PANIC, exit, was, body); }
      exit' := Defer(c.layers[depth], depth, FINALLY, exit', was, Recovered(body, c.layers[depth], depth));
    }

    method InterceptorFilter(c: Chain<R, E>, depth: nat) returns (exit: Exit<E>)
      requires depth < |c.layers| && c.layers[depth].Interceptors?
      modifies this
      ensures Did(old(trace), Handled(old(Result), c, depth), exit)
      decreases |c.layers| - depth, 1
    {
      exit := InterceptorBody(c, depth);
      exit := Close(c, depth, exit, old(trace), Body(old(Result), c, depth));
    }

    /** beforeAfterFilterInvoke, which leaves setting the result to its caller. */
    method BeforeAfterInvoke(layer: Layer<R, E>, depth: nat, when: When) returns (exit: Exit<E>, r: Option<R>)
      requires layer.BeforeAfter?
      modifies this
      ensures Did(old(trace) + [Begin(depth, when)],
                  Hooks(old(Result), layer.stages.At(when), true, None, depth), exit)
      ensures r == GivenAt(layer, when)
    {
      trace := trace + [Begin(depth, when)];
      exit, r := CallHooks(layer.stages.At(when), true, depth);
    }

    method BeforeAfterStage(layer: Layer<R, E>, depth: nat, when: When) returns (exit: Exit<E>, r: Option<R>)
      requires layer.BeforeAfter?
      modifies this
      ensures Did(old(trace), Stage(old(Result), layer, depth, when), exit)
      ensures r == GivenAt(layer, when)
    {
      exit, r := BeforeAfterInvoke(layer, depth, when);
      if exit.Returned? { Assign(r); }
    }

    method BeforeAfterBody(c: Chain<R, E>, depth: nat) returns (exit: Exit<E>)
      requires depth < |c.layers| && c.layers[depth].BeforeAfter?
      modifies this
      ensures Did(old(trace), Body(old(Result), c, depth), exit)
      decreases |c.layers| - depth, 0
    {
      var given;
      exit, given := BeforeAfterStage(c.layers[depth], depth, BEFORE);
      if exit.Panicked? || given.Some? { return; }
      exit := Inside(c, depth, Result, old(trace), Stage(old(Result), c.layers[depth], depth, BEFORE));
    }

    method BeforeAfterFilter(c: Chain<R, E>, depth: nat) returns (exit: Exit<E>)
      requires depth < |c.layers| && c.layers[depth].BeforeAfter?
      modifies this
      ensures Did(old(trace), Handled(old(Result), c, depth), exit)
      decreases |c.layers| - depth, 1
    {
      exit := BeforeAfterBody(c, depth);
      exit := Close(c, depth, exit, old(trace), Body(old(Result), c, depth));
    }

    method PanicFilter(c: Chain<R, E>, depth: nat) returns (exit: Exit<E>)
      requires depth < |c.layers| && c.layers[depth].Catch?
      modifies this
      ensures Did(old(trace), Handled(old(Result), c, depth), exit)
      decreases |c.layers| - depth, 0
    {
      exit := Next(c, depth + 1);
      if exit.Panicked? {
        Assign(c.layers[depth].page);
        exit := Returned;
      }
    }

    /** The next filter, or the action. */
    method Next(c: Chain<R, E>, depth: nat) returns (exit: Exit<E>)
      requires depth <= |c.layers|
      modifies this
      ensures Did(old(trace), Run(old(Result), c, depth), exit)
      decreases |c.layers| - depth, 2
    {
      trace := trace + [Enter(depth, Result)];
      Reassociate(old(trace), [Enter(depth, Result)], Handled(Result, c, depth).trace);
      if depth < |c.layers| {
        match c.layers[depth]
        case Interceptors(_) => exit := InterceptorFilter(c, depth);
        case BeforeAfter(_) => exit := BeforeAfterFilter(c, depth);
        case Catch(_) => exit := PanicFilter(c, depth);
      } else {
        exit := Call(c.action, depth);
        if c.action.Gives? { Assign(c.action.given); }
      }
    }
  }
}
