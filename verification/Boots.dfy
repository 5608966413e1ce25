/** What becomes of a call after each answer it gets, over whole runs: the steps named,
    the other calls interleaved in any way. */
module Boots {
  import opened Lifecycle
  import opened ClaimsSpec

  /** A run with the steps that made it. */
  ghost predicate Traced(run: seq<Process>, steps: seq<Step>) {
    && |run| == |steps| + 1 && Init(run[0])
    && forall i :: 0 <= i < |steps| ==> Made(run, steps, i)
  }

  ghost predicate Made(run: seq<Process>, steps: seq<Step>, i: nat)
    requires i < |steps| && |run| == |steps| + 1
  {
    Enabled(run[i], steps[i]) && run[i + 1] == Apply(run[i], steps[i])
  }

  /** The steps of one call among those from `i` up to `j`, in order. */
  function Own(steps: seq<Step>, c: CallId, i: nat, j: nat): seq<Step>
    requires i <= j <= |steps|
    decreases j - i
  {
    if i == j then []
    else (if steps[i].c == c then [steps[i]] else []) + Own(steps, c, i + 1, j)
  }

  /** The call, and what is in its hand. */
  predicate SameCall(s: Process, s': Process, c: CallId) {
    && c in s.calls && c in s'.calls && s'.calls[c] == s.calls[c]
    && (c in s'.receipts <==> c in s.receipts)
    && (c in s.receipts ==> s'.receipts[c] == s.receipts[c])
  }

  predicate InHand(s: Process, c: CallId) {
    c in s.receipts && !s.receipts[c].given
  }

  predicate GivenBack(s: Process, c: CallId) {
    c in s.receipts && s.receipts[c].given
  }

  lemma TracedIsRun(run: seq<Process>, steps: seq<Step>)
    requires Traced(run, steps)
    ensures IsRun(run)
  {
    forall i | 0 <= i < |run| - 1 ensures Follows(run[i], run[i + 1]) {
      assert Made(run, steps, i);
    }
  }

  lemma OthersLeaveIt(s: Process, step: Step, c: CallId)
    requires Enabled(s, step) && step.c != c && c in s.calls
    ensures SameCall(s, Apply(s, step), c)
  {
  }

  /** Until the call itself steps, it stands where it stood. */
  lemma {:induction false} StandsStill(run: seq<Process>, steps: seq<Step>, c: CallId, i: nat, j: nat)
    requires Traced(run, steps) && i <= j <= |steps| && c in run[i].calls
    requires Own(steps, c, i, j) == []
    ensures SameCall(run[i], run[j], c)
    decreases j - i
  {
    if i < j {
      assert Made(run, steps, i);
      OthersLeaveIt(run[i], steps[i], c);
      StandsStill(run, steps, c, i + 1, j);
    }
  }

  /** Where the call steps next, if it does. */
  lemma {:induction false} NextOwn(steps: seq<Step>, c: CallId, i: nat, j: nat) returns (k: nat)
    requires i <= j <= |steps| && Own(steps, c, i, j) != []
    ensures i <= k < j && steps[k].c == c && Own(steps, c, i, k) == []
    ensures Own(steps, c, i, j) == [steps[k]] + Own(steps, c, k + 1, j)
    decreases j - i
  {
    if steps[i].c == c {
      k := i;
    } else {
      k := NextOwn(steps, c, i + 1, j);
    }
  }

  lemma {:induction false} LastIsOwn(steps: seq<Step>, c: CallId, i: nat, j: nat)
    requires i < j <= |steps| && steps[j - 1].c == c
    ensures Own(steps, c, i, j) != [] && Own(steps, c, i, j)[|Own(steps, c, i, j)| - 1] == steps[j - 1]
    decreases j - i
  {
    if i + 1 < j {
      LastIsOwn(steps, c, i + 1, j);
    }
  }

  /** The call holds its app's mutex and the app is not built. */
  predicate HoldsUnbuilt(s: Process, c: CallId, a: AppId) {
    a in s.apps && s.apps[a].locked && s.apps[a].owner == c && !s.apps[a].built
  }

  predicate Free(s: Process, a: AppId) {
    a in s.apps && !s.apps[a].locked && !s.apps[a].built
  }

  /** The call's phase, its app, and whether a claim is in its hand. */
  predicate Stands(s: Process, c: CallId, a: AppId, phase: Phase) {
    c in s.calls && s.calls[c].app == a && s.calls[c].phase == phase
  }

  /** What the invariant says of a call, as far as its own course goes. */
  predicate Sound(s: Process, c: CallId, a: AppId, phase: Phase) {
    && a in s.apps
    && (InHand(s, c) <==> Holding(phase))
    && (Past(phase) ==> s.apps[a].built)
    && (Inside(phase) ==> s.apps[a].locked && s.apps[a].owner == c)
    && (phase in {Claiming, Constructing, Unwinding} ==> !s.apps[a].built)
    && (phase in {Planning, Waiting, Entered, Claiming} ==> c !in s.receipts)
  }

  lemma IsSound(run: seq<Process>, steps: seq<Step>, n: nat, c: CallId, a: AppId, phase: Phase)
    requires Traced(run, steps) && n <= |steps| && Stands(run[n], c, a, phase)
    ensures Sound(run[n], c, a, phase)
  {
    TracedIsRun(run, steps);
    InvAlways(run, n);
    assert CallOk(run[n], c);
  }

  /** The call's next step, the state it is taken in and the state it leads to. */
  lemma NextStep(run: seq<Process>, steps: seq<Step>, c: CallId, a: AppId, phase: Phase, i: nat, j: nat) returns (k: nat)
    requires Traced(run, steps) && i <= j <= |steps| && Stands(run[i], c, a, phase)
    ensures i <= k <= j && SameCall(run[i], run[k], c) && Stands(run[k], c, a, phase) && Sound(run[k], c, a, phase)
    ensures Own(steps, c, i, j) == [] ==> k == j
    ensures Own(steps, c, i, j) != [] ==> k < j && Taken(steps, run, c, i, j, k)
  {
    k := j;
    if Own(steps, c, i, j) != [] {
      k := NextOwn(steps, c, i, j);
      assert Made(run, steps, k);
    }
    StandsStill(run, steps, c, i, k);
    IsSound(run, steps, k, c, a, phase);
  }

  ghost predicate Taken(steps: seq<Step>, run: seq<Process>, c: CallId, i: nat, j: nat, k: nat)
    requires i <= k < j <= |steps| && |run| == |steps| + 1
  {
    && Own(steps, c, i, j) == [steps[k]] + Own(steps, c, k + 1, j)
    && steps[k].c == c && Made(run, steps, k)
  }

  /** A call that came back takes no further step. */
  lemma Over(run: seq<Process>, steps: seq<Step>, c: CallId, a: AppId, phase: Phase, i: nat, j: nat)
    requires Traced(run, steps) && i <= j <= |steps| && Stands(run[i], c, a, phase) && phase in {Refused, Spent}
    ensures Own(steps, c, i, j) == [] && SameCall(run[i], run[j], c)
  {
    var k := NextStep(run, steps, c, a, phase, i, j);
  }

  // ------------------------------------------------------------ one step of one call

  lemma OnlyGives(s: Process, step: Step, c: CallId, a: AppId, before: bool)
    requires Enabled(s, step) && step.c == c && Stands(s, c, a, GivingBack(before)) && Sound(s, c, a, GivingBack(before))
    ensures step == GiveBack(c)
    ensures Stands(Apply(s, step), c, a, if before then Settling else Spent) && GivenBack(Apply(s, step), c)
  {
  }

  lemma OnlySettles(s: Process, step: Step, c: CallId, a: AppId)
    requires Enabled(s, step) && step.c == c && Stands(s, c, a, Settling)
    ensures step == Settle(c)
    ensures Stands(Apply(s, step), c, a, Refused)
    ensures GivenBack(s, c) ==> GivenBack(Apply(s, step), c)
  {
  }

  lemma OnlyUnwinds(s: Process, step: Step, c: CallId, a: AppId)
    requires Enabled(s, step) && step.c == c && Stands(s, c, a, Unwinding) && Sound(s, c, a, Unwinding)
    ensures step == Unwind(c)
    ensures Stands(Apply(s, step), c, a, Refused) && GivenBack(Apply(s, step), c) && Free(Apply(s, step), a)
  {
  }

  lemma OnlyClosing(s: Process, step: Step, c: CallId, a: AppId, phase: Phase)
    requires Enabled(s, step) && step.c == c && Stands(s, c, a, phase) && phase in {Open, Closed} && c in s.receipts
    ensures step == Close(c)
    ensures Stands(Apply(s, step), c, a, Closed) && GivenBack(Apply(s, step), c)
  {
  }

  /** Given its claim to give back, the call does that first. */
  lemma GivesNext(run: seq<Process>, steps: seq<Step>, c: CallId, a: AppId, before: bool, i: nat, j: nat) returns (k: nat)
    requires Traced(run, steps) && i <= j <= |steps| && Stands(run[i], c, a, GivingBack(before))
    ensures i <= k <= j
    ensures k == j ==> Own(steps, c, i, j) == [] && Stands(run[j], c, a, GivingBack(before))
    ensures k < j ==> Own(steps, c, i, j) == [GiveBack(c)] + Own(steps, c, k + 1, j)
    ensures k < j ==> Stands(run[k + 1], c, a, if before then Settling else Spent) && GivenBack(run[k + 1], c)
  {
    k := NextStep(run, steps, c, a, GivingBack(before), i, j);
    if Own(steps, c, i, j) != [] {
      OnlyGives(run[k], steps[k], c, a, before);
    }
  }

  /** And then clears `built` and is over. */
  lemma SettlesNext(run: seq<Process>, steps: seq<Step>, c: CallId, a: AppId, i: nat, j: nat)
    requires Traced(run, steps) && i <= j <= |steps| && Stands(run[i], c, a, Settling) && GivenBack(run[i], c)
    ensures Own(steps, c, i, j) == [] ==> Stands(run[j], c, a, Settling)
    ensures Own(steps, c, i, j) != [] ==> Own(steps, c, i, j) == [Settle(c)] && Stands(run[j], c, a, Refused)
    ensures GivenBack(run[j], c)
  {
    var k := NextStep(run, steps, c, a, Settling, i, j);
    if Own(steps, c, i, j) != [] {
      OnlySettles(run[k], steps[k], c, a);
      Over(run, steps, c, a, Refused, k + 1, j);
    }
  }

  /** The call as its own step leaves it. */
  lemma EndsAs(s: Process, c: CallId, started: bool, before: bool)
    requires Enabled(s, EngineEnds(c, started, before))
    ensures c in s.calls && Stands(Apply(s, EngineEnds(c, started, before)), c, s.calls[c].app, if started then Open else GivingBack(before))
  {
  }

  // ------------------------------------------------------------ the engine's answers

  /** A boot the engine refuses before its effects: what the call does from there is give
      its claim back and then clear `built`, and nothing else. */
  lemma RefusedBootGivesItsAppBack(run: seq<Process>, steps: seq<Step>, i: nat, j: nat, c: CallId)
    requires Traced(run, steps) && i < j <= |steps| && steps[i] == EngineEnds(c, false, true)
    ensures c in run[i].calls && run[i].calls[c].app in run[j].apps
    ensures Own(steps, c, i + 1, j) in {[], [GiveBack(c)], [GiveBack(c), Settle(c)]}
    ensures Own(steps, c, i + 1, j) == [] ==> InHand(run[j], c)
    ensures Own(steps, c, i + 1, j) != [] ==> GivenBack(run[j], c)
    ensures |Own(steps, c, i + 1, j)| < 2 ==> run[j].apps[run[i].calls[c].app].built
    ensures |Own(steps, c, i + 1, j)| == 2 ==> InPhase(run[j], c, Refused)
  {
    assert Made(run, steps, i);
    EndsAs(run[i], c, false, true);
    var a := run[i].calls[c].app;
    var k := GivesNext(run, steps, c, a, true, i + 1, j);
    if k < j {
      SettlesNext(run, steps, c, a, k + 1, j);
      assert [GiveBack(c)] + [Settle(c)] == [GiveBack(c), Settle(c)];
      assert [GiveBack(c)] + [] == [GiveBack(c)];
    }
    IsSound(run, steps, j, c, a, run[j].calls[c].phase);
  }

  /** When it has done both, nobody is past `newEngine` on the app, and whoever reads
      `built` next goes on to claim. */
  lemma RefusedBootLeavesAppBuildable(run: seq<Process>, steps: seq<Step>, i: nat, j: nat, c: CallId)
    requires Traced(run, steps) && i < j <= |steps| && steps[i] == EngineEnds(c, false, true)
    requires steps[j - 1].c == c && Own(steps, c, i + 1, j) == [GiveBack(c), Settle(c)]
    ensures c in run[i].calls && run[i].calls[c].app in run[j].apps
    ensures Buildable(run[j], run[i].calls[c].app)
  {
    RefusedBootGivesItsAppBack(run, steps, i, j, c);
    LastIsOwn(steps, c, i + 1, j);
    AppStays(run, steps, i, j - 1, c);
    ClearingIsBuildable(run, steps, j - 1, c);
  }

  /** Nobody is past `newEngine` on the app, and whoever reads `built` next goes on. */
  ghost predicate Buildable(s: Process, a: AppId) {
    && a in s.apps && !s.apps[a].built && !SomebodyPast(s, a)
    && forall d :: Enabled(s, ReadBuilt(d)) && s.calls[d].app == a ==> InPhase(Apply(s, ReadBuilt(d)), d, Claiming)
  }

  lemma ClearingIsBuildable(run: seq<Process>, steps: seq<Step>, n: nat, c: CallId)
    requires Traced(run, steps) && n < |steps| && steps[n] == Settle(c) && c in run[n].calls
    ensures Buildable(run[n + 1], run[n].calls[c].app)
  {
    assert Made(run, steps, n);
    TracedIsRun(run, steps);
    InvAlways(run, n);
    ClearedIsBuildable(run[n], c);
  }

  /** A call stays with the app it began on. */
  lemma {:induction false} AppStays(run: seq<Process>, steps: seq<Step>, i: nat, j: nat, c: CallId)
    requires Traced(run, steps) && i <= j <= |steps| && c in run[i].calls
    ensures c in run[j].calls && run[j].calls[c].app == run[i].calls[c].app
    decreases j - i
  {
    if i < j {
      assert Made(run, steps, i);
      AppKept(run[i], steps[i], c);
      AppStays(run, steps, i + 1, j, c);
    }
  }

  lemma AppKept(s: Process, step: Step, c: CallId)
    requires Enabled(s, step) && c in s.calls
    ensures c in Apply(s, step).calls && Apply(s, step).calls[c].app == s.calls[c].app
  {
  }

  /** A boot that failed once its effects were reached gives its claim back, and the app
      is spent for the rest of the run. */
  lemma FailedBootSpendsTheApp(run: seq<Process>, steps: seq<Step>, i: nat, j: nat, c: CallId)
    requires Traced(run, steps) && i < j <= |steps| && steps[i] == EngineEnds(c, false, false)
    ensures c in run[i].calls && run[i].calls[c].app in run[j].apps
    ensures run[j].apps[run[i].calls[c].app].built
    ensures Own(steps, c, i + 1, j) in {[], [GiveBack(c)]}
    ensures Own(steps, c, i + 1, j) == [] ==> InHand(run[j], c)
    ensures Own(steps, c, i + 1, j) != [] ==> GivenBack(run[j], c)
  {
    assert Made(run, steps, i);
    EndsAs(run[i], c, false, false);
    var a := run[i].calls[c].app;
    var k := GivesNext(run, steps, c, a, false, i + 1, j);
    if k < j {
      Over(run, steps, c, a, Spent, k + 1, j);
      assert [GiveBack(c)] + [] == [GiveBack(c)];
    }
    IsSound(run, steps, j, c, a, run[j].calls[c].phase);
  }

  /** A boot that started hands its claim to a Runtime, whose first Close gives it back;
      the app is spent for the rest of the run. */
  lemma StartedBootSpendsTheApp(run: seq<Process>, steps: seq<Step>, i: nat, j: nat, c: CallId, before: bool)
    requires Traced(run, steps) && i < j <= |steps| && steps[i] == EngineEnds(c, true, before)
    ensures c in run[i].calls && run[i].calls[c].app in run[j].apps
    ensures run[j].apps[run[i].calls[c].app].built
    ensures OnlyCloses(Own(steps, c, i + 1, j), c)
    ensures Own(steps, c, i + 1, j) == [] ==> InHand(run[j], c)
    ensures Own(steps, c, i + 1, j) != [] ==> GivenBack(run[j], c)
  {
    assert Made(run, steps, i);
    EndsAs(run[i], c, true, before);
    var a := run[i].calls[c].app;
    IsSound(run, steps, i + 1, c, a, Open);
    ClosesOn(run, steps, i + 1, j, c, a, Open);
    IsSound(run, steps, j, c, a, run[j].calls[c].phase);
  }

  predicate OnlyCloses(own: seq<Step>, c: CallId) {
    forall step :: step in own ==> step == Close(c)
  }

  lemma {:induction false} ClosesOn(run: seq<Process>, steps: seq<Step>, i: nat, j: nat, c: CallId, a: AppId, phase: Phase)
    requires Traced(run, steps) && i <= j <= |steps| && Stands(run[i], c, a, phase) && phase in {Open, Closed}
    requires c in run[i].receipts && (phase == Closed ==> GivenBack(run[i], c))
    ensures OnlyCloses(Own(steps, c, i, j), c)
    ensures Own(steps, c, i, j) == [] ==> SameCall(run[i], run[j], c)
    ensures Own(steps, c, i, j) != [] ==> GivenBack(run[j], c) && Stands(run[j], c, a, Closed)
    decreases j - i
  {
    var k := NextStep(run, steps, c, a, phase, i, j);
    if Own(steps, c, i, j) != [] {
      OnlyClosing(run[k], steps[k], c, a, phase);
      ClosesOn(run, steps, k + 1, j, c, a, Closed);
    }
  }

  /** The engine's own checks: `built` is set exactly when they pass, and the mutex is
      free with it. */
  lemma ChecksDecideBuilt(run: seq<Process>, steps: seq<Step>, i: nat, j: nat, c: CallId, ok: bool)
    requires Traced(run, steps) && i < j <= |steps| && steps[i] == EngineChecks(c, ok)
    ensures c in run[i].calls && run[i].calls[c].app in run[i + 1].apps && run[i].calls[c].app in run[j].apps
    ensures run[i + 1].apps[run[i].calls[c].app].built <==> ok
    ensures run[i + 1].apps[run[i].calls[c].app].locked <==> !ok
    ensures ok && Own(steps, c, i + 1, j) == [] ==> run[j].apps[run[i].calls[c].app].built && InHand(run[j], c)
    ensures ok && Own(steps, c, i + 1, j) != [] ==> Own(steps, c, i + 1, j)[0].EngineEnds?
    ensures !ok ==> Own(steps, c, i + 1, j) in {[], [Unwind(c)]}
    ensures !ok && Own(steps, c, i + 1, j) == [] ==> HoldsUnbuilt(run[j], c, run[i].calls[c].app) && InHand(run[j], c)
    ensures !ok && Own(steps, c, i + 1, j) != [] ==> InPhase(run[j], c, Refused) && GivenBack(run[j], c)
  {
    assert Made(run, steps, i);
    var a := run[i].calls[c].app;
    IsSound(run, steps, i, c, a, Constructing);
    ChecksAs(run[i], c, a, ok);
    AppStays(run, steps, i, j, c);
    IsSound(run, steps, j, c, a, run[j].calls[c].phase);
    if ok {
      var k := NextStep(run, steps, c, a, Running, i + 1, j);
    } else {
      UnwindsNext(run, steps, c, a, i + 1, j);
    }
  }

  lemma ChecksAs(s: Process, c: CallId, a: AppId, ok: bool)
    requires Enabled(s, EngineChecks(c, ok)) && s.calls[c].app == a && Sound(s, c, a, Constructing)
    ensures var s' := Apply(s, EngineChecks(c, ok));
      && a in s'.apps && (s'.apps[a].built <==> ok) && (s'.apps[a].locked <==> !ok)
      && Stands(s', c, a, if ok then Running else Unwinding)
  {
  }

  lemma UnwindsNext(run: seq<Process>, steps: seq<Step>, c: CallId, a: AppId, i: nat, j: nat)
    requires Traced(run, steps) && i <= j <= |steps| && Stands(run[i], c, a, Unwinding)
    ensures Own(steps, c, i, j) in {[], [Unwind(c)]}
    ensures Own(steps, c, i, j) == [] ==> Stands(run[j], c, a, Unwinding)
    ensures Own(steps, c, i, j) != [] ==> Stands(run[j], c, a, Refused) && GivenBack(run[j], c)
  {
    var k := NextStep(run, steps, c, a, Unwinding, i, j);
    if Own(steps, c, i, j) != [] {
      OnlyUnwinds(run[k], steps[k], c, a);
      Over(run, steps, c, a, Refused, k + 1, j);
      assert [Unwind(c)] + [] == [Unwind(c)];
    }
  }

  /** A call the checks refused leaves its app's mutex free and the app not built. */
  lemma UnwoundIsBuildable(run: seq<Process>, steps: seq<Step>, i: nat, j: nat, c: CallId)
    requires Traced(run, steps) && i < j <= |steps| && steps[i] == EngineChecks(c, false)
    requires steps[j - 1].c == c && Own(steps, c, i + 1, j) != []
    ensures c in run[i].calls && Free(run[j], run[i].calls[c].app)
  {
    ChecksDecideBuilt(run, steps, i, j, c, false);
    LastIsOwn(steps, c, i + 1, j);
    AppStays(run, steps, i, j - 1, c);
    assert Made(run, steps, j - 1);
    var a := run[i].calls[c].app;
    IsSound(run, steps, j - 1, c, a, Unwinding);
    OnlyUnwinds(run[j - 1], steps[j - 1], c, a);
  }

  // -------------------------------------------------------------- the way to the engine

  /** Plan's answer lets the call go on exactly when it is no refusal. */
  lemma PlanDecidesTheCall(run: seq<Process>, steps: seq<Step>, i: nat, j: nat, c: CallId, ok: bool)
    requires Traced(run, steps) && i < j <= |steps| && steps[i] == PlanAnswers(c, ok)
    ensures !ok ==> Own(steps, c, i + 1, j) == [] && InPhase(run[j], c, Refused) && c !in run[j].receipts
    ensures ok && Own(steps, c, i + 1, j) == [] ==> InPhase(run[j], c, Waiting) && c !in run[j].receipts
    ensures ok && Own(steps, c, i + 1, j) != [] ==> Own(steps, c, i + 1, j)[0] == Enter(c)
  {
    assert Made(run, steps, i);
    var a := run[i].calls[c].app;
    IsSound(run, steps, i, c, a, Planning);
    PlansAs(run[i], c, a, ok);
    if ok {
      var k := NextStep(run, steps, c, a, Waiting, i + 1, j);
    } else {
      Over(run, steps, c, a, Refused, i + 1, j);
    }
  }

  lemma PlansAs(s: Process, c: CallId, a: AppId, ok: bool)
    requires Enabled(s, PlanAnswers(c, ok)) && s.calls[c].app == a && Sound(s, c, a, Planning)
    ensures var s' := Apply(s, PlanAnswers(c, ok));
      Stands(s', c, a, if ok then Waiting else Refused) && c !in s'.receipts
  {
  }

  /** A built app turns the call away with nothing taken; one that is not lets it claim. */
  lemma BuiltTurnsAway(run: seq<Process>, steps: seq<Step>, i: nat, j: nat, c: CallId)
    requires Traced(run, steps) && i < j <= |steps| && steps[i] == ReadBuilt(c)
    ensures c in run[i].calls && run[i].calls[c].app in run[i].apps
    ensures var a := run[i].calls[c].app;
      var own := Own(steps, c, i + 1, j);
      if run[i].apps[a].built then
        && own == [] && InPhase(run[j], c, Refused) && c !in run[j].receipts
        && a in run[i + 1].apps && run[i + 1].apps[a].built && !run[i + 1].apps[a].locked
      else
        && (own == [] ==> HoldsUnbuilt(run[j], c, a) && c !in run[j].receipts)
        && (own != [] ==> own[0] == TakeClaim(c))
  {
    assert Made(run, steps, i);
    var a := run[i].calls[c].app;
    IsSound(run, steps, i, c, a, Entered);
    ReadsAs(run[i], c, a);
    if run[i].apps[a].built {
      Over(run, steps, c, a, Refused, i + 1, j);
    } else {
      var k := NextStep(run, steps, c, a, Claiming, i + 1, j);
    }
  }

  lemma ReadsAs(s: Process, c: CallId, a: AppId)
    requires Enabled(s, ReadBuilt(c)) && s.calls[c].app == a && Sound(s, c, a, Entered)
    ensures var s' := Apply(s, ReadBuilt(c));
      && Stands(s', c, a, if s.apps[a].built then Refused else Claiming) && c !in s'.receipts
      && (s.apps[a].built ==> a in s'.apps && s'.apps[a].built && !s'.apps[a].locked)
  {
  }

  /** The database is nobody's, or this application's with this very composition. */
  predicate FreeOrAlike(s: Process, key: string, name: string, composition: string) {
    key !in s.record || (s.record[key].app == name && s.record[key].composition == composition)
  }

  /** How many lifecycles the record counts on a database. */
  function Count(s: Process, key: string): int {
    if key in s.record then s.record[key].lifecycles else 0
  }

  /** The claim is taken exactly when the database is free or held alike, and the record
      then counts one more; a call that is turned away leaves the record, gives its app's
      mutex back and is over. */
  lemma ClaimIsTakenWhereItFits(run: seq<Process>, steps: seq<Step>, i: nat, j: nat, c: CallId)
    requires Traced(run, steps) && i < j <= |steps| && steps[i] == TakeClaim(c)
    ensures c in run[i].calls && run[i].calls[c].app in run[i].apps
    ensures var call := run[i].calls[c];
      var app := run[i].apps[call.app];
      var own := Own(steps, c, i + 1, j);
      if FreeOrAlike(run[i], call.key, app.name, call.composition) then
        && run[i + 1].record == run[i].record[call.key := Hold(app.name, call.composition, Count(run[i], call.key) + 1)]
        && (own == [] ==> HoldsUnbuilt(run[j], c, call.app) && InHand(run[j], c) && run[j].receipts[c].key == call.key)
        && (own != [] ==> own[0].EngineChecks?)
      else
        && run[i + 1].record == run[i].record && Free(run[i + 1], call.app)
        && own == [] && InPhase(run[j], c, Refused) && c !in run[j].receipts
  {
    assert Made(run, steps, i);
    var a := run[i].calls[c].app;
    IsSound(run, steps, i, c, a, Claiming);
    TakesAs(run[i], c, a);
    if FreeOrAlike(run[i], run[i].calls[c].key, run[i].apps[a].name, run[i].calls[c].composition) {
      var k := NextStep(run, steps, c, a, Constructing, i + 1, j);
    } else {
      Over(run, steps, c, a, Refused, i + 1, j);
    }
  }

  lemma TakesAs(s: Process, c: CallId, a: AppId)
    requires Enabled(s, TakeClaim(c)) && s.calls[c].app == a && Sound(s, c, a, Claiming)
    ensures var call := s.calls[c];
      var s' := Apply(s, TakeClaim(c));
      if FreeOrAlike(s, call.key, s.apps[a].name, call.composition) then
        && s'.record == s.record[call.key := Hold(s.apps[a].name, call.composition, Count(s, call.key) + 1)]
        && Stands(s', c, a, Constructing) && InHand(s', c) && s'.receipts[c].key == call.key
      else s'.record == s.record && Free(s', a) && Stands(s', c, a, Refused) && c !in s'.receipts
  {
  }
}
