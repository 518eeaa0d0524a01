/**
  Watcher.notifyInProcess run by any number of goroutines at once: the first call becomes the
  leader by creating the timer, later calls register and wait on a buffered channel, and the leader
  refreshes and sends one result for each registered call while it holds the mutex.
  Each step is one action of one goroutine, or the timer firing; steps interleave in any way.
 */
module Watcher {

  const CAPACITY := 10

  datatype Outcome = NoError | Error(code: int)

  /**
    A result in the channel, and the round it comes from. The rounds are numbered for the proofs: a round
    is what one timer is for, and round r is the one of the r-th refresh.
   */
  datatype Message = Message(err: Outcome, round: nat)

  /** Where one call of notifyInProcess is. */
  datatype PC =
    | Arriving                                                  // wants timerMutex
    | Entering                                                  // holds it, in the first block
    | Waiting(joined: nat)                                      // registered, blocked on refreshChannel
    | Timing                                                    // leader, blocked on the timer
    | Fired                                                     // leader, wants timerMutex again
    | Refreshing                                                // holds it, inside listener.Refresh
    | Sending(sent: nat, msg: Message, panicked: bool)          // holds it, in the deferred loop
    | Returned(joined: nat, msg: Message)                       // with the error of `msg`
    | Panicked

  /** A created timer may be running, and may have an unread tick in its channel. */
  datatype Timer = NoTimer | Timer(running: bool, tick: bool)

  datatype Holder = Free | HeldBy(p: nat)

  datatype State = State(
    pcs: seq<PC>,
    timerMutex: Holder,
    refreshTimer: Timer,
    refreshChannel: seq<Message>,
    refreshChannelCount: nat,
    forceRefresh: bool,
    lastError: int,
    reports: seq<Outcome>)              // what the refreshes reported, for the proofs

  datatype Step =
    | Lock(p: nat)
    | Enter(p: nat, keepTick: bool)       // Reset may or may not discard a tick that is already there
    | Fire
    | Tick(p: nat)
    | Relock(p: nat)
    | Refresh(p: nat, err: Outcome)
    | RefreshPanics(p: nat)
    | Send(p: nat)
    | Finish(p: nat)
    | Receive(p: nat)

  predicate At(s: State, p: nat, pc: PC) { p < |s.pcs| && s.pcs[p] == pc }

  predicate Enabled(s: State, step: Step) {
    match step
    case Lock(p) => At(s, p, Arriving) && s.timerMutex == Free
    case Enter(p, _) => At(s, p, Entering)
    case Fire => s.refreshTimer.Timer? && s.refreshTimer.running
    case Tick(p) => At(s, p, Timing) && s.refreshTimer.Timer? && s.refreshTimer.tick
    case Relock(p) => At(s, p, Fired) && s.timerMutex == Free
    case Refresh(p, _) => At(s, p, Refreshing)
    case RefreshPanics(p) => At(s, p, Refreshing)
    case Send(p) =>
      p < |s.pcs| && s.pcs[p].Sending? && s.pcs[p].sent < s.refreshChannelCount && |s.refreshChannel| < CAPACITY
    case Finish(p) => p < |s.pcs| && s.pcs[p].Sending? && s.pcs[p].sent >= s.refreshChannelCount
    case Receive(p) => p < |s.pcs| && s.pcs[p].Waiting? && s.refreshChannel != []
  }

  function Apply(s: State, step: Step): State
    requires Enabled(s, step)
  {
    match step
    case Lock(p) => s.(pcs := s.pcs[p := Entering], timerMutex := HeldBy(p))
    case Enter(p, keepTick) =>
      var t := s.refreshTimer;
      var u := s.(forceRefresh := true, timerMutex := Free);
      if t.Timer? then
        u.(refreshTimer := Timer(true, t.tick && keepTick),
           refreshChannelCount := s.refreshChannelCount + 1,
           pcs := s.pcs[p := Waiting(|s.reports|)])
      else
        u.(refreshTimer := Timer(true, false), pcs := s.pcs[p := Timing])
    case Fire => s.(refreshTimer := Timer(false, true))
    case Tick(p) => s.(refreshTimer := s.refreshTimer.(tick := false), pcs := s.pcs[p := Fired])
    case Relock(p) => s.(pcs := s.pcs[p := Refreshing], timerMutex := HeldBy(p))
    case Refresh(p, err) =>
      var u := s.(pcs := s.pcs[p := Sending(0, Message(err, |s.reports|), false)], reports := s.reports + [err]);
      if err == NoError then u.(lastError := -1, forceRefresh := false) else u
    case RefreshPanics(p) =>            // err is still nil
      s.(pcs := s.pcs[p := Sending(0, Message(NoError, |s.reports|), true)], reports := s.reports + [NoError])
    case Send(p) =>
      var pc := s.pcs[p];
      s.(refreshChannel := s.refreshChannel + [pc.msg], pcs := s.pcs[p := pc.(sent := pc.sent + 1)])
    case Finish(p) =>
      var pc := s.pcs[p];
      s.(refreshChannelCount := 0, refreshTimer := NoTimer, timerMutex := Free,
         pcs := s.pcs[p := if pc.panicked then Panicked else Returned(pc.msg.round, pc.msg)])
    case Receive(p) =>
      s.(refreshChannel := s.refreshChannel[1..], pcs := s.pcs[p := Returned(s.pcs[p].joined, s.refreshChannel[0])])
  }

  /** `n` calls about to start; each may start at any time. */
  function Init(n: nat): State {
    State(seq(n, _ => Arriving), Free, NoTimer, [], 0, true, -1, [])
  }

  ghost predicate IsRun(s: State, steps: seq<Step>)
    decreases |steps|
  {
    steps == [] || (Enabled(s, steps[0]) && IsRun(Apply(s, steps[0]), steps[1..]))
  }

  ghost function End(s: State, steps: seq<Step>): State
    requires IsRun(s, steps)
    decreases |steps|
  {
    if steps == [] then s else End(Apply(s, steps[0]), steps[1..])
  }

  // ----- sums over the calls -----

  function Sum(pcs: seq<PC>, f: PC -> nat): nat {
    if pcs == [] then 0 else f(pcs[0]) + Sum(pcs[1..], f)
  }

  lemma {:induction false} SumUpdate(pcs: seq<PC>, p: nat, pc: PC, f: PC -> nat)
    requires p < |pcs|
    ensures Sum(pcs[p := pc], f) + f(pcs[p]) == Sum(pcs, f) + f(pc)
  {
    var pcs' := pcs[p := pc];
    if p == 0 {
      assert pcs'[1..] == pcs[1..];
    } else {
      assert pcs'[1..] == pcs[1..][p - 1 := pc];
      SumUpdate(pcs[1..], p - 1, pc, f);
    }
  }

  lemma {:induction false} SumOfOne(pcs: seq<PC>, p: nat, f: PC -> nat)
    requires p < |pcs|
    ensures f(pcs[p]) <= Sum(pcs, f)
  {
    if p > 0 { SumOfOne(pcs[1..], p - 1, f); }
  }

  lemma {:induction false} SumOfTwo(pcs: seq<PC>, p: nat, q: nat, f: PC -> nat)
    requires p < q < |pcs|
    ensures f(pcs[p]) + f(pcs[q]) <= Sum(pcs, f)
  {
    if p > 0 { SumOfTwo(pcs[1..], p - 1, q - 1, f); } else { SumOfOne(pcs[1..], q - 1, f); }
  }

  lemma {:induction false} SomeSummand(pcs: seq<PC>, f: PC -> nat) returns (p: nat)
    requires Sum(pcs, f) > 0
    ensures p < |pcs| && f(pcs[p]) > 0
  {
    if f(pcs[0]) > 0 { p := 0; } else { p := SomeSummand(pcs[1..], f); p := p + 1; }
  }

  lemma {:induction false} SumOfSame(n: nat, pc: PC, f: PC -> nat)
    ensures Sum(seq(n, _ => pc), f) == n * f(pc)
  {
    if n > 0 {
      assert seq(n, _ => pc)[1..] == seq(n - 1, _ => pc);
      SumOfSame(n - 1, pc, f);
    }
  }

  // ----- the invariant -----

  function WaitsOne(pc: PC): nat { if pc.Waiting? then 1 else 0 }
  function LeadsOne(pc: PC): nat { if pc.Timing? || pc.Fired? || pc.Refreshing? || pc.Sending? then 1 else 0 }
  predicate Holds(pc: PC) { pc.Entering? || pc.Refreshing? || pc.Sending? }

  function Waiters(s: State): nat { Sum(s.pcs, WaitsOne) }
  function Leaders(s: State): nat { Sum(s.pcs, LeadsOne) }

  /** Messages that the leader has already sent in this round. */
  function SentSoFar(s: State): nat {
    if s.timerMutex.HeldBy? && s.timerMutex.p < |s.pcs| && s.pcs[s.timerMutex.p].Sending?
    then s.pcs[s.timerMutex.p].sent else 0
  }

  /** Every waiter has exactly one message: in the channel, or still to be sent. */
  ghost predicate Conserved(s: State) {
    Waiters(s) + SentSoFar(s) == |s.refreshChannel| + s.refreshChannelCount
  }

  ghost predicate MutexInv(s: State) {
    && (s.timerMutex.HeldBy? ==> s.timerMutex.p < |s.pcs|)
    && forall p :: 0 <= p < |s.pcs| ==> (Holds(s.pcs[p]) <==> s.timerMutex == HeldBy(p))
  }

  ghost predicate TimerInv(s: State) {
    && Leaders(s) == (if s.refreshTimer.Timer? then 1 else 0)
    && (s.refreshTimer.NoTimer? ==> s.refreshChannelCount == 0)
    && forall p :: 0 <= p < |s.pcs| && s.pcs[p].Timing? ==>
         s.refreshTimer.Timer? && (s.refreshTimer.running || s.refreshTimer.tick)
  }

  ghost predicate Inv(s: State) {
    && MutexInv(s) && TimerInv(s) && Conserved(s)
    && |s.refreshChannel| <= CAPACITY
    && SentSoFar(s) <= s.refreshChannelCount
  }

  lemma InitInv(n: nat)
    ensures Inv(Init(n))
  {
    SumOfSame(n, Arriving, WaitsOne);
    SumOfSame(n, Arriving, LeadsOne);
  }

  /** How a step at call `p` moves the sums. */
  lemma SumsAt(s: State, p: nat, pc: PC)
    requires p < |s.pcs|
    ensures Sum(s.pcs[p := pc], WaitsOne) + WaitsOne(s.pcs[p]) == Waiters(s) + WaitsOne(pc)
    ensures Sum(s.pcs[p := pc], LeadsOne) + LeadsOne(s.pcs[p]) == Leaders(s) + LeadsOne(pc)
  {
    SumUpdate(s.pcs, p, pc, WaitsOne);
    SumUpdate(s.pcs, p, pc, LeadsOne);
  }

  lemma OneLeader(s: State, p: nat, q: nat)
    requires Inv(s) && p < |s.pcs| && q < |s.pcs| && LeadsOne(s.pcs[p]) == 1 && LeadsOne(s.pcs[q]) == 1
    ensures p == q
  {
    if p < q { SumOfTwo(s.pcs, p, q, LeadsOne); }
    if q < p { SumOfTwo(s.pcs, q, p, LeadsOne); }
  }

  lemma StepKeepsMutex(s: State, step: Step)
    requires MutexInv(s) && Enabled(s, step)
    ensures MutexInv(Apply(s, step))
  {
  }

  lemma StepKeepsTimer(s: State, step: Step)
    requires Inv(s) && Enabled(s, step)
    ensures TimerInv(Apply(s, step))
  {
    var u := Apply(s, step);
    if !step.Fire? {
      SumsAt(s, step.p, u.pcs[step.p]);
      SumOfOne(s.pcs, step.p, LeadsOne);
      if LeadsOne(s.pcs[step.p]) == 1 {
        forall q | 0 <= q < |s.pcs| && LeadsOne(s.pcs[q]) == 1 ensures q == step.p {
          OneLeader(s, q, step.p);
        }
      }
    }
  }

  lemma StepKeepsConserved(s: State, step: Step)
    requires Inv(s) && Enabled(s, step)
    ensures Conserved(Apply(s, step))
    ensures SentSoFar(Apply(s, step)) <= Apply(s, step).refreshChannelCount
  {
    if !step.Fire? {
      SumsAt(s, step.p, Apply(s, step).pcs[step.p]);
    }
  }

  /** Every step keeps the invariant. */
  lemma StepInv(s: State, step: Step)
    requires Inv(s) && Enabled(s, step)
    ensures Inv(Apply(s, step))
  {
    StepKeepsMutex(s, step);
    StepKeepsTimer(s, step);
    StepKeepsConserved(s, step);
  }

  /** Every state of every run satisfies the invariant: in particular each waiter has one message. */
  lemma {:induction false} RunInv(s: State, steps: seq<Step>)
    requires Inv(s) && IsRun(s, steps)
    ensures Inv(End(s, steps))
    decreases |steps|
  {
    if steps != [] {
      StepInv(s, steps[0]);
      RunInv(Apply(s, steps[0]), steps[1..]);
    }
  }

  /** No message is lost and none is sent twice, in every reachable state. */
  lemma Conservation(n: nat, steps: seq<Step>)
    requires IsRun(Init(n), steps)
    ensures Conserved(End(Init(n), steps))
  {
    InitInv(n);
    RunInv(Init(n), steps);
  }

  // ----- progress -----

  predicate Finished(pc: PC) { pc.Returned? || pc.Panicked? }

  predicate AllFinished(s: State) { forall p :: 0 <= p < |s.pcs| ==> Finished(s.pcs[p]) }

  /** The step that the holder of the mutex, or a waiter it needs, can take. */
  lemma HolderMoves(s: State) returns (step: Step)
    requires Inv(s) && s.timerMutex.HeldBy?
    ensures Enabled(s, step)
  {
    var p := s.timerMutex.p;
    match s.pcs[p]
    case Entering => step := Enter(p, true);
    case Refreshing => step := Refresh(p, NoError);
    case Sending(sent, _, _) =>
      if sent >= s.refreshChannelCount {
        step := Finish(p);
      } else if |s.refreshChannel| < CAPACITY {
        step := Send(p);
      } else {
        var q := SomeSummand(s.pcs, WaitsOne);
        step := Receive(q);
      }
  }

  lemma LeaderMoves(s: State) returns (step: Step)
    requires Inv(s) && s.timerMutex.Free? && s.refreshTimer.Timer?
    ensures Enabled(s, step)
  {
    var p := SomeSummand(s.pcs, LeadsOne);
    if s.pcs[p].Fired? {
      step := Relock(p);
    } else if s.refreshTimer.tick {
      step := Tick(p);
    } else {
      step := Fire;
    }
  }

  /** No reachable state with an unfinished call is stuck, not even with the channel full. */
  lemma Progress(s: State) returns (step: Step)
    requires Inv(s) && !AllFinished(s)
    ensures Enabled(s, step)
  {
    var p :| 0 <= p < |s.pcs| && !Finished(s.pcs[p]);
    if s.timerMutex.HeldBy? {
      step := HolderMoves(s);
    } else if s.refreshTimer.Timer? {
      step := LeaderMoves(s);
    } else if s.pcs[p].Waiting? {
      SumOfOne(s.pcs, p, WaitsOne);
      step := Receive(p);
    } else {
      SumOfOne(s.pcs, p, LeadsOne);
      step := Lock(p);
    }
  }

  // ----- every run ends -----

  function Weight(pc: PC): nat {
    match pc
    case Arriving => 7
    case Entering => 6
    case Timing => 4
    case Fired => 3
    case Refreshing => 2
    case Sending(_, _, _) => 1
    case Waiting(_) => 1
    case Returned(_, _) => 0
    case Panicked => 0
  }

  ghost function Measure(s: State): int {
    Sum(s.pcs, Weight) + Running(s) + Pending(s)
  }

  /** Messages of this round still to be sent. */
  function Pending(s: State): int { s.refreshChannelCount - SentSoFar(s) }

  lemma WeightMoves(s: State, step: Step)
    requires Enabled(s, step)
    ensures step.Fire? ==> Apply(s, step).pcs == s.pcs
    ensures !step.Fire? ==> Sum(Apply(s, step).pcs, Weight) + Weight(s.pcs[step.p])
                            == Sum(s.pcs, Weight) + Weight(Apply(s, step).pcs[step.p])
  {
    if !step.Fire? {
      SumUpdate(s.pcs, step.p, Apply(s, step).pcs[step.p], Weight);
    }
  }

  /** Outside the sending loop no message is sent or forgotten. */
  lemma PendingMoves(s: State, step: Step)
    requires Inv(s) && Enabled(s, step)
    ensures Pending(Apply(s, step))
         == Pending(s) + (if step.Send? then -1 else if step.Enter? && s.refreshTimer.Timer? then 1 else 0)
  {
  }

  lemma StepDecreases(s: State, step: Step)
    requires Inv(s) && Enabled(s, step)
    ensures Measure(Apply(s, step)) < Measure(s)
  {
    WeightMoves(s, step);
    PendingMoves(s, step);
    TimerMoves(s, step);
  }

  function Running(s: State): int { if s.refreshTimer.Timer? && s.refreshTimer.running then 1 else 0 }

  /** The timer starts running at most when a call enters, and stops when it fires. */
  lemma TimerMoves(s: State, step: Step)
    requires Enabled(s, step)
    ensures Running(Apply(s, step)) <= Running(s) + (if step.Enter? then 1 else if step.Fire? then -1 else 0)
  {
  }

  lemma {:induction false} RunIsBounded(s: State, steps: seq<Step>)
    requires Inv(s) && IsRun(s, steps)
    ensures |steps| + Measure(End(s, steps)) <= Measure(s) && 0 <= Measure(End(s, steps))
    decreases |steps|
  {
    if steps != [] {
      StepInv(s, steps[0]);
      StepDecreases(s, steps[0]);
      RunIsBounded(Apply(s, steps[0]), steps[1..]);
    }
  }

  ghost predicate Stuck(s: State) { forall step :: !Enabled(s, step) }

  /** `n` calls take at most 7n steps together, however they interleave. */
  lemma RunLength(n: nat, steps: seq<Step>)
    requires IsRun(Init(n), steps)
    ensures |steps| <= 7 * n
  {
    InitInv(n);
    RunIsBounded(Init(n), steps);
    SumOfSame(n, Arriving, Weight);
    assert Measure(Init(n)) == Sum(Init(n).pcs, Weight) == n * Weight(Arriving);
  }

  /**
    When no step is left every call has returned or panicked, and no message, registration, timer
    or lock is left behind.
   */
  lemma EveryCallEnds(n: nat, steps: seq<Step>)
    requires IsRun(Init(n), steps) && Stuck(End(Init(n), steps))
    ensures Quiet(End(Init(n), steps))
  {
    InitInv(n);
    RunInv(Init(n), steps);
    StuckIsOver(End(Init(n), steps));
  }

  ghost predicate Quiet(s: State) {
    && AllFinished(s) && s.refreshChannel == [] && s.refreshChannelCount == 0
    && s.refreshTimer == NoTimer && s.timerMutex == Free
  }

  lemma StuckIsOver(s: State)
    requires Inv(s)
    ensures Stuck(s) ==> Quiet(s)
  {
    if AllFinished(s) {
      NothingLeft(s);
    } else {
      var step := Progress(s);
    }
  }

  lemma NothingLeft(s: State)
    requires Inv(s) && AllFinished(s)
    ensures Quiet(s)
  {
    if Waiters(s) > 0 { var p := SomeSummand(s.pcs, WaitsOne); }
    if Leaders(s) > 0 { var p := SomeSummand(s.pcs, LeadsOne); }
  }

  // ----- which results are returned -----

  /** Whatever is sent or returned was reported by the refresh of its round. */
  ghost predicate Reported(s: State) {
    && (forall i :: 0 <= i < |s.refreshChannel| ==> FromReport(s, s.refreshChannel[i]))
    && (forall p :: 0 <= p < |s.pcs| && (s.pcs[p].Sending? || s.pcs[p].Returned?) ==> FromReport(s, s.pcs[p].msg))
  }

  predicate FromReport(s: State, m: Message) { m.round < |s.reports| && m.err == s.reports[m.round] }

  lemma StepKeepsReported(s: State, step: Step)
    requires Reported(s) && Enabled(s, step)
    ensures Reported(Apply(s, step))
  {
    var u := Apply(s, step);
    forall m | FromReport(s, m) ensures FromReport(u, m) {}
    forall i | 0 <= i < |u.refreshChannel| ensures FromReport(u, u.refreshChannel[i]) {
      if step.Receive? { assert u.refreshChannel[i] == s.refreshChannel[i + 1]; }
      else if i < |s.refreshChannel| { assert u.refreshChannel[i] == s.refreshChannel[i]; }
    }
  }

  /** Each result returned is the one that the refresh of some round of the run reported. */
  lemma {:induction false} ResultsComeFromRefreshes(s: State, steps: seq<Step>)
    requires Reported(s) && IsRun(s, steps)
    ensures Reported(End(s, steps))
    decreases |steps|
  {
    if steps != [] {
      StepKeepsReported(s, steps[0]);
      ResultsComeFromRefreshes(Apply(s, steps[0]), steps[1..]);
    }
  }

  // ----- whose result is returned -----

  /** A timer is created. */
  predicate StartsRound(s: State, step: Step) { step.Enter? && s.refreshTimer.NoTimer? }

  /** Each round starts with no message left from the rounds before. */
  ghost predicate StartsClean(s: State, steps: seq<Step>)
    requires IsRun(s, steps)
    decreases |steps|
  {
    steps != [] ==>
      && (StartsRound(s, steps[0]) ==> s.refreshChannel == [])
      && StartsClean(Apply(s, steps[0]), steps[1..])
  }

  predicate Sends(s: State) {
    s.timerMutex.HeldBy? && s.timerMutex.p < |s.pcs| && s.pcs[s.timerMutex.p].Sending?
  }

  /** The round under way, or the last one. */
  function Round(s: State): int { if s.refreshTimer.Timer? && !Sends(s) then |s.reports| else |s.reports| - 1 }

  /** All waiters and all messages belong to one round. */
  ghost predicate OneRound(s: State) {
    && (forall p :: 0 <= p < |s.pcs| && s.pcs[p].Waiting? ==> s.pcs[p].joined == Round(s))
    && (forall p :: 0 <= p < |s.pcs| && s.pcs[p].Sending? ==> s.pcs[p].msg.round == Round(s))
    && (forall i :: 0 <= i < |s.refreshChannel| ==> s.refreshChannel[i].round == Round(s))
  }

  /** The call has returned what its own round's refresh reported. */
  predicate GotOwn(s: State, p: nat) {
    p < |s.pcs| && s.pcs[p].Returned? && s.pcs[p].joined == s.pcs[p].msg.round
  }

  lemma NobodyWaits(s: State)
    requires Inv(s) && s.refreshTimer.NoTimer? && s.refreshChannel == [] && !Sends(s)
    ensures forall p :: 0 <= p < |s.pcs| ==> !s.pcs[p].Waiting?
  {
    forall p | 0 <= p < |s.pcs| ensures !s.pcs[p].Waiting? { SumOfOne(s.pcs, p, WaitsOne); }
  }

  lemma SendingHolds(s: State)
    requires Inv(s)
    ensures forall p :: 0 <= p < |s.pcs| && s.pcs[p].Sending? ==> Sends(s) && s.timerMutex == HeldBy(p)
    ensures forall p :: 0 <= p < |s.pcs| && LeadsOne(s.pcs[p]) == 1 ==> s.refreshTimer.Timer?
  {
    forall p | 0 <= p < |s.pcs| && LeadsOne(s.pcs[p]) == 1 ensures s.refreshTimer.Timer? {
      SumOfOne(s.pcs, p, LeadsOne);
    }
  }

  lemma RoundMoves(s: State, step: Step)
    requires Inv(s) && Enabled(s, step)
    ensures !StartsRound(s, step) ==> Round(Apply(s, step)) == Round(s)
    ensures step.Enter? && !StartsRound(s, step) ==> Round(s) == |s.reports|
    ensures step.Refresh? || step.RefreshPanics? ==> Round(s) == |s.reports|
  {
    SendingHolds(s);
  }

  lemma StepKeepsRound(s: State, step: Step)
    requires Inv(s) && OneRound(s) && Enabled(s, step) && (StartsRound(s, step) ==> s.refreshChannel == [])
    ensures OneRound(Apply(s, step))
  {
    RoundMoves(s, step);
    SendingHolds(s);
    if StartsRound(s, step) { NobodyWaits(s); }
  }

  /** The calls that have returned since `s` did so with their own round's result. */
  ghost predicate NewGotOwn(s: State, now: State) {
    && |now.pcs| == |s.pcs|
    && forall p :: 0 <= p < |s.pcs| && now.pcs[p].Returned? ==> GotOwn(now, p) || s.pcs[p] == now.pcs[p]
  }

  lemma StepGetsOwn(s: State, step: Step)
    requires OneRound(s) && Enabled(s, step)
    ensures NewGotOwn(s, Apply(s, step))
  {
  }

  lemma OwnTrans(s: State, t: State, u: State)
    requires NewGotOwn(s, t) && NewGotOwn(t, u)
    ensures NewGotOwn(s, u)
  {
  }

  /**
    While each round starts with an empty channel, each call that returns does so with what the refresh
    of its own round reported.
   */
  lemma {:induction false} CleanStartsGiveOwn(s: State, steps: seq<Step>)
    requires Inv(s) && OneRound(s) && IsRun(s, steps) && StartsClean(s, steps)
    ensures NewGotOwn(s, End(s, steps))
    decreases |steps|
  {
    if steps != [] {
      StepInv(s, steps[0]);
      StepKeepsRound(s, steps[0]);
      StepGetsOwn(s, steps[0]);
      CleanStartsGiveOwn(Apply(s, steps[0]), steps[1..]);
      OwnTrans(s, Apply(s, steps[0]), End(s, steps));
    }
  }

  /** So it is for any number of calls from the start. */
  lemma OwnRound(n: nat, steps: seq<Step>, p: nat)
    requires IsRun(Init(n), steps) && StartsClean(Init(n), steps)
    requires p < |End(Init(n), steps).pcs| && End(Init(n), steps).pcs[p].Returned?
    ensures var end := End(Init(n), steps);
            GotOwn(end, p) && end.pcs[p].joined < |end.reports| && end.pcs[p].msg.err == end.reports[end.pcs[p].joined]
  {
    InitInv(n);
    CleanStartsGiveOwn(Init(n), steps);
    ResultsComeFromRefreshes(Init(n), steps);
  }

  // ----- exactly when a result can be of another round -----

  /** How many rounds a run starts. */
  ghost function Starts(s: State, steps: seq<Step>): nat
    requires IsRun(s, steps)
    decreases |steps|
  {
    if steps == [] then 0
    else (if StartsRound(s, steps[0]) then 1 else 0) + Starts(Apply(s, steps[0]), steps[1..])
  }

  /** Within the next round, a call that is about to start can return the result of another round. */
  ghost predicate CanBeStale(s: State) {
    exists steps: seq<Step>, q: nat ::
      && IsRun(s, steps) && Starts(s, steps) <= 1 && At(s, q, Arriving)
      && q < |End(s, steps).pcs| && End(s, steps).pcs[q].Returned? && !GotOwn(End(s, steps), q)
  }

  /** A round may start: no timer, and nobody in the middle of anything. */
  ghost predicate BetweenRounds(s: State) {
    Inv(s) && Reported(s) && s.refreshTimer == NoTimer && s.timerMutex == Free
  }

  ghost predicate TwoArriving(s: State) { exists p: nat, q: nat :: p != q && At(s, p, Arriving) && At(s, q, Arriving) }

  /** Call `p` leads the next round, call `q` registers and reads a message meant for somebody else. */
  lemma StaleRun(s: State, p: nat, q: nat) returns (steps: seq<Step>)
    requires BetweenRounds(s) && s.refreshChannel != [] && p != q && At(s, p, Arriving) && At(s, q, Arriving)
    ensures IsRun(s, steps) && Starts(s, steps) == 1 && End(s, steps).reports == s.reports
    ensures At(End(s, steps), q, Returned(|s.reports|, s.refreshChannel[0]))
  {
    var s1 := Apply(s, Lock(p));
    var s2 := Apply(s1, Enter(p, true));
    var s3 := Apply(s2, Lock(q));
    var s4 := Apply(s3, Enter(q, true));
    steps := [];
    ConsRun(s4, Receive(q), steps); steps := [Receive(q)] + steps;
    ConsRun(s3, Enter(q, true), steps); steps := [Enter(q, true)] + steps;
    ConsRun(s2, Lock(q), steps); steps := [Lock(q)] + steps;
    ConsRun(s1, Enter(p, true), steps); steps := [Enter(p, true)] + steps;
    ConsRun(s, Lock(p), steps); steps := [Lock(p)] + steps;
  }

  lemma ConsRun(s: State, step: Step, rest: seq<Step>)
    requires Enabled(s, step) && IsRun(Apply(s, step), rest)
    ensures IsRun(s, [step] + rest) && End(s, [step] + rest) == End(Apply(s, step), rest)
    ensures Starts(s, [step] + rest) == (if StartsRound(s, step) then 1 else 0) + Starts(Apply(s, step), rest)
  {
    assert ([step] + rest)[1..] == rest;
  }

  lemma {:induction false} NoStartIsClean(s: State, steps: seq<Step>)
    requires IsRun(s, steps) && Starts(s, steps) == 0
    ensures StartsClean(s, steps)
    decreases |steps|
  {
    if steps != [] { NoStartIsClean(Apply(s, steps[0]), steps[1..]); }
  }

  /** With nothing in the channel the next round starts clean. */
  lemma {:induction false} OneStartIsClean(s: State, steps: seq<Step>)
    requires Inv(s) && s.refreshTimer.NoTimer? && s.refreshChannel == [] && !Sends(s)
    requires IsRun(s, steps) && Starts(s, steps) <= 1
    ensures StartsClean(s, steps)
    decreases |steps|
  {
    if steps != [] {
      NobodyWaits(s);
      SendingHolds(s);
      StepInv(s, steps[0]);
      if StartsRound(s, steps[0]) {
        NoStartIsClean(Apply(s, steps[0]), steps[1..]);
      } else {
        OneStartIsClean(Apply(s, steps[0]), steps[1..]);
      }
    }
  }

  /** Nobody but `q` is left to start, and nobody else leads. */
  ghost predicate Alone(s: State, q: nat) {
    && q < |s.pcs|
    && (forall p :: 0 <= p < |s.pcs| && p != q ==> s.pcs[p].Waiting? || Finished(s.pcs[p]))
    && !s.pcs[q].Waiting? && (s.pcs[q].Returned? ==> GotOwn(s, q))
    && (s.pcs[q].Arriving? || s.pcs[q].Entering? ==> s.refreshTimer.NoTimer?)
  }

  lemma {:induction false} AloneGetsOwn(s: State, q: nat, steps: seq<Step>)
    requires Alone(s, q) && IsRun(s, steps)
    ensures Alone(End(s, steps), q)
    decreases |steps|
  {
    if steps != [] {
      assert Alone(Apply(s, steps[0]), q);
      AloneGetsOwn(Apply(s, steps[0]), q, steps[1..]);
    }
  }

  lemma OnlyOneIsAlone(s: State, q: nat)
    requires BetweenRounds(s) && At(s, q, Arriving) && !TwoArriving(s)
    ensures Alone(s, q)
  {
    SendingHolds(s);
    forall p | 0 <= p < |s.pcs| && p != q ensures s.pcs[p].Waiting? || Finished(s.pcs[p]) {
      assert !At(s, p, Arriving) && !Holds(s.pcs[p]) && LeadsOne(s.pcs[p]) == 0;
    }
  }

  /**
    A call can return the result of a round that is not its own exactly when its round starts with a
    message left in the channel, and somebody else starts it.
   */
  lemma StaleIff(s: State)
    requires BetweenRounds(s)
    ensures CanBeStale(s) <==> s.refreshChannel != [] && TwoArriving(s)
  {
    if s.refreshChannel != [] && TwoArriving(s) {
      var p: nat, q: nat :| p != q && At(s, p, Arriving) && At(s, q, Arriving);
      var steps := StaleRun(s, p, q);
      assert FromReport(s, s.refreshChannel[0]);
    }
    if CanBeStale(s) {
      var steps: seq<Step>, q: nat :|
        && IsRun(s, steps) && Starts(s, steps) <= 1 && At(s, q, Arriving)
        && q < |End(s, steps).pcs| && End(s, steps).pcs[q].Returned? && !GotOwn(End(s, steps), q);
      if s.refreshChannel == [] { OwnFromEmpty(s, steps); }
      if !TwoArriving(s) {
        OnlyOneIsAlone(s, q);
        AloneGetsOwn(s, q, steps);
      }
    }
  }

  lemma OwnFromEmpty(s: State, steps: seq<Step>)
    requires BetweenRounds(s) && s.refreshChannel == [] && IsRun(s, steps) && Starts(s, steps) <= 1
    ensures NewGotOwn(s, End(s, steps))
  {
    NobodyWaits(s);
    SendingHolds(s);
    OneStartIsClean(s, steps);
    CleanStartsGiveOwn(s, steps);
  }

  // ----- such a state is reached -----

  /** Call 0 leads, call 1 registers, and the timer has fired. */
  function Registered(): State {
    State([Fired, Waiting(0), Arriving, Arriving], Free, Timer(false, false), [], 1, true, -1, [])
  }

  /** That round is over, and the message to call 1 is still unread. */
  function RoundOver(): State {
    var m := Message(Error(1), 0);
    State([Returned(0, m), Waiting(0), Arriving, Arriving], Free, NoTimer, [m], 0, true, -1, [Error(1)])
  }

  lemma RoundEnds() returns (steps: seq<Step>)
    ensures IsRun(Registered(), steps) && End(Registered(), steps) == RoundOver()
  {
    var s0 := Registered();
    var s1 := Apply(s0, Relock(0));
    var s2 := Apply(s1, Refresh(0, Error(1)));
    var s3 := Apply(s2, Send(0));
    var s4 := Apply(s3, Finish(0));
    assert s4 == RoundOver();
    steps := [];
    ConsRun(s3, Finish(0), steps); steps := [Finish(0)] + steps;
    ConsRun(s2, Send(0), steps); steps := [Send(0)] + steps;
    ConsRun(s1, Refresh(0, Error(1)), steps); steps := [Refresh(0, Error(1))] + steps;
    ConsRun(s0, Relock(0), steps); steps := [Relock(0)] + steps;
  }

  lemma FirstRound() returns (steps: seq<Step>)
    ensures IsRun(Init(4), steps) && End(Init(4), steps) == RoundOver()
  {
    var s0 := Init(4);
    assert s0.pcs == [Arriving, Arriving, Arriving, Arriving];
    var s1 := Apply(s0, Lock(0));
    var s2 := Apply(s1, Enter(0, true));
    var s3 := Apply(s2, Lock(1));
    var s4 := Apply(s3, Enter(1, true));
    var s5 := Apply(s4, Fire);
    var s6 := Apply(s5, Tick(0));
    assert s6 == Registered();
    steps := RoundEnds();
    ConsRun(s5, Tick(0), steps); steps := [Tick(0)] + steps;
    ConsRun(s4, Fire, steps); steps := [Fire] + steps;
    ConsRun(s3, Enter(1, true), steps); steps := [Enter(1, true)] + steps;
    ConsRun(s2, Lock(1), steps); steps := [Lock(1)] + steps;
    ConsRun(s1, Enter(0, true), steps); steps := [Enter(0, true)] + steps;
    ConsRun(s0, Lock(0), steps); steps := [Lock(0)] + steps;
  }

  lemma RoundOverIsReached()
    ensures exists steps: seq<Step> :: IsRun(Init(4), steps) && End(Init(4), steps) == RoundOver()
    ensures BetweenRounds(RoundOver())
  {
    var steps := FirstRound();
    InitInv(4);
    RunInv(Init(4), steps);
    ResultsComeFromRefreshes(Init(4), steps);
  }

  /** Four calls are enough: an old error can be returned to a call that starts after its round is over. */
  lemma StaleResult()
    ensures exists steps: seq<Step> :: IsRun(Init(4), steps) && CanBeStale(End(Init(4), steps))
  {
    RoundOverIsReached();
    assert At(RoundOver(), 2, Arriving) && At(RoundOver(), 3, Arriving);
    StaleIff(RoundOver());
  }
}
