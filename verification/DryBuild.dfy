/** `App.compose` and `App.Plan`: every surviving module is built in order, and what
    waits on a refused one is suppressed. */
module DryBuild {
  import opened Composition
  import opened Options
  import opened ResolutionSpec
  import opened BuildOrder
  import opened Resolver
  import opened WiringModel

  datatype Problem =
    | Unresolved(issue: Issue)
    | BadName
    | ReadRefused(name: string, failure: Failure)
    | Faulted(name: string, error: BuildError)
    | Gated

  /** What became of the modules of the order: refused ones map to themselves,
      suppressed ones to the refused module they waited on, built ones are absent. */
  type Fates = map<Module, Module>

  ghost predicate Refused(fates: Fates, m: Module) {
    m in fates && fates[m] == m
  }

  ghost predicate Suppressed(fates: Fates, m: Module) {
    m in fates && fates[m] != m
  }

  /** `m` depends on `r`, directly or through others. */
  ghost predicate Reaches(g: Graph, m: Module, r: Module) {
    exists walk :: IsTrail(g, walk, m, r)
  }

  ghost predicate IsTrail(g: Graph, walk: seq<Module>, m: Module, r: Module) {
    |walk| >= 2 && walk[0] == m && walk[|walk| - 1] == r && Path(g, walk)
  }

  /** The first dependency in list order that did not build decides. */
  ghost predicate FollowsFirst(deps: seq<Module>, fates: Fates, culprit: Module) {
    exists i :: 0 <= i < |deps| && deps[i] in fates && fates[deps[i]] == culprit &&
                forall j :: 0 <= j < i ==> deps[j] !in fates
  }

  ghost predicate Fated(g: Graph, fates: Fates, m: Module) {
    if Suppressed(fates, m) then FollowsFirst(Deps(g, m), fates, fates[m]) && Refused(fates, fates[m])
    else forall c :: c in Deps(g, m) ==> c !in fates
  }

  /** The refused module this module's build would read a hole from. */
  method RefusedDependency(g: Graph, m: Module, fates: Fates) returns (culprit: Option<Module>)
    ensures culprit.None? <==> forall c :: c in Deps(g, m) ==> c !in fates
    ensures culprit.Some? ==> FollowsFirst(Deps(g, m), fates, culprit.value)
  {
    var deps := Deps(g, m);
    for i := 0 to |deps|
      invariant forall j :: 0 <= j < i ==> deps[j] !in fates
    {
      if deps[i] in fates {
        return Some(fates[deps[i]]);
      }
    }
    return None;
  }

  /** A declaration not put as declared, and what is said of it. */
  predicate CountWrong(m: Module, put: Puts, e: BuildError) {
    match e
    case NotProvidedOnce(k) => Provides(k) in m.decls && |Get(put, k)| != 1
    case NotContributed(k) => Contributes(k) in m.decls && |Get(put, k)| == 0
    case ContributedOften(k, n) => Contributes(k) in m.decls && |Get(put, k)| == n > 1
    case _ => false
  }

  /** What a module that built declared and did not put as declared. */
  method PutCountProblems(m: Module, put: Puts) returns (errs: seq<BuildError>)
    ensures forall e :: e in errs <==> CountWrong(m, put, e)
    ensures errs == [] <==> forall k :: Supplies(m, k) ==> |Get(put, k)| == 1
    ensures CleanErrors(errs)
  {
    errs := [];
    for i := 0 to |m.decls|
      invariant forall e :: e in errs <==> exists j :: 0 <= j < i && SaidOf(m.decls[j], put, e)
    {
      var dl := m.decls[i];
      if dl.Provides? || dl.Contributes? {
        var n := |Get(put, dl.key)|;
        if dl.Provides? && n != 1 {
          errs := errs + [NotProvidedOnce(dl.key)];
        } else if dl.Contributes? && n == 0 {
          errs := errs + [NotContributed(dl.key)];
        } else if dl.Contributes? && n > 1 {
          errs := errs + [ContributedOften(dl.key, n)];
        }
      }
    }
    forall e ensures e in errs <==> CountWrong(m, put, e) { CountsAre(m, put, e); }
    RightCounts(m, put, errs);
  }

  predicate SaidOf(dl: Declaration, put: Puts, e: BuildError) {
    match dl
    case Provides(k) => |Get(put, k)| != 1 && e == NotProvidedOnce(k)
    case Contributes(k) =>
      if |Get(put, k)| == 0 then e == NotContributed(k) else |Get(put, k)| > 1 && e == ContributedOften(k, |Get(put, k)|)
    case _ => false
  }

  lemma CountsAre(m: Module, put: Puts, e: BuildError)
    ensures (exists j :: 0 <= j < |m.decls| && SaidOf(m.decls[j], put, e)) <==> CountWrong(m, put, e)
  {
    if CountWrong(m, put, e) {
      var dl := if e.NotProvidedOnce? then Provides(e.key) else Contributes(e.key);
      var j :| 0 <= j < |m.decls| && m.decls[j] == dl;
      assert SaidOf(m.decls[j], put, e);
    }
    if j :| 0 <= j < |m.decls| && SaidOf(m.decls[j], put, e) {
      assert m.decls[j] in m.decls;
    }
  }

  lemma RightCounts(m: Module, put: Puts, errs: seq<BuildError>)
    requires forall e :: e in errs <==> CountWrong(m, put, e)
    ensures errs == [] <==> forall k :: Supplies(m, k) ==> |Get(put, k)| == 1
    ensures CleanErrors(errs)
  {
    if errs != [] {
      assert errs[0] in errs;
    } else {
      forall k | Supplies(m, k) ensures |Get(put, k)| == 1 {
        assert !CountWrong(m, put, NotProvidedOnce(k)) && !CountWrong(m, put, NotContributed(k));
        assert !CountWrong(m, put, ContributedOften(k, |Get(put, k)|));
      }
    }
  }

  // --------------------------------------------------------- what the loop keeps

  /** What the dry build relies on: the plan of an app that resolves. */
  ghost predicate Sound(alive: set<Module>, p: Plan) {
    && LinearExtension(alive, p.order)
    && (forall m :: m in alive ==> SaysItStraight(m))
    && (forall m, c :: c in Deps(p.deps, m) <==> DependsOn(alive, m, c))
    && (forall m, k :: m in alive && TakesOne(m, k) ==> WiringRight(alive, p.from, m, k))
    && (forall k :: ListedRight(alive, Get(p.contributors, k), k))
    && (p.last.Some? && p.last.value in alive ==> p.order[|p.order| - 1] == p.last.value)
  }

  /** A module that built put exactly one value for each contract it supplies, and
      nothing else. */
  ghost predicate PutAsDeclared(values: map<Module, Puts>, m: Module) {
    && (forall k :: Supplies(m, k) ==> |PutBy(values, m, k)| == 1)
    && (forall k :: m in values && k in values[m] ==> Supplies(m, k))
  }

  /** Everything before position `n` has met its fate. */
  ghost predicate AllFated(p: Plan, n: nat, fates: Fates) {
    forall m {:trigger Fated(p.deps, fates, m)} :: Before(p.order, n, m) ==> Fated(p.deps, fates, m)
  }

  ghost predicate LoopInv(p: Plan, n: nat, fates: Fates, manifests: map<Module, Manifest>, values: map<Module, Puts>)
    requires n <= |p.order|
  {
    && (forall m :: m in fates ==> Before(p.order, n, m))
    && (forall m :: m in manifests ==> Before(p.order, n, m))
    && (forall m :: Before(p.order, n, m) ==> (m in fates <==> m !in manifests))
    && AllFated(p, n, fates)
    && (forall m :: m in values ==> m in manifests)
    && (forall m :: m in manifests ==> PutAsDeclared(values, m))
  }

  /** A module none of whose dependencies failed has everything it needs in reach. */
  lemma NeedsInReach(alive: set<Module>, p: Plan, n: nat, fates: Fates, manifests: map<Module, Manifest>, values: map<Module, Puts>)
    requires Sound(alive, p) && n < |p.order| && LoopInv(p, n, fates, manifests, values)
    requires forall c :: c in Deps(p.deps, p.order[n]) ==> c !in fates
    ensures InReach(p, values, p.order[n])
  {
    var m := p.order[n];
    assert m in Elements(p.order);
    forall c | DependsOn(alive, m, c) ensures c in manifests {
      assert c in Deps(p.deps, m) && Before(p.order, n, c);
    }
    forall k | TakesOne(m, k) && Edge(m, k) in p.from
      ensures p.from[Edge(m, k)] != m && |PutBy(values, p.from[Edge(m, k)], k)| == 1
    {
      assert WiringRight(alive, p.from, m, k);
      assert DependsOn(alive, m, p.from[Edge(m, k)]);
    }
    forall k, c | TakesEvery(m, k) && c in Get(p.contributors, k)
      ensures c != m && |PutBy(values, c, k)| == 1
    {
      assert ListedRight(alive, Get(p.contributors, k), k);
      assert DependsOn(alive, m, c);
    }
    forall k | Needs(k, false) in m.decls ensures Edge(m, k) in p.from {
      assert WiringRight(alive, p.from, m, k);
    }
  }

  lemma FollowsKept(deps: seq<Module>, fates: Fates, culprit: Module, x: Module, given: Module)
    requires FollowsFirst(deps, fates, culprit) && x !in deps
    ensures FollowsFirst(deps, fates[x := given], culprit)
  {
    var i :| 0 <= i < |deps| && deps[i] in fates && fates[deps[i]] == culprit && forall j :: 0 <= j < i ==> deps[j] !in fates;
    assert forall j :: 0 <= j <= i ==> deps[j] in deps;
  }

  /** A fate once given is never revised by a later module's. */
  lemma FatesKeep(g: Graph, fates: Fates, x: Module, culprit: Module, m: Module)
    requires Fated(g, fates, m) && x !in fates && x != m && x !in Deps(g, m)
    ensures Fated(g, fates[x := culprit], m)
  {
    var fates' := fates[x := culprit];
    if Suppressed(fates, m) {
      FollowsKept(Deps(g, m), fates, fates[m], x, culprit);
    }
  }

  lemma EarlierFatesKeep(alive: set<Module>, p: Plan, n: nat, fates: Fates, culprit: Module)
    requires Sound(alive, p) && n < |p.order| && p.order[n] !in fates
    requires AllFated(p, n, fates)
    ensures AllFated(p, n, fates[p.order[n] := culprit])
  {
    forall m | Before(p.order, n, m) ensures Fated(p.deps, fates[p.order[n] := culprit], m) {
      assert Fated(p.deps, fates, m);
      var i :| 0 <= i < n && p.order[i] == m;
      forall c | c in Deps(p.deps, m) ensures c != p.order[n] {
        assert DependsOn(alive, p.order[i], c) && Before(p.order, i, c);
      }
      FatesKeep(p.deps, fates, p.order[n], culprit, m);
    }
  }

  lemma BeforeStep(order: seq<Module>, n: nat)
    requires n < |order|
    ensures forall m :: Before(order, n + 1, m) <==> Before(order, n, m) || m == order[n]
  {
    assert order[n] == order[n];
    forall m | Before(order, n, m) ensures Before(order, n + 1, m) {}
  }

  // ---------------------------------------------------------------- the dry build

  /** What one build could see while it ran, whose values and which manifests, what it
      heard, and how it ended. */
  datatype Run = Run(visible: map<Module, Puts>, manifests: seq<Manifest>, heard: seq<Heard>, outcome: Outcome)

  /** Everything a module needs was in sight, and everything it heard is what was there. */
  ghost predicate RunHeard(p: Plan, m: Module, run: Run) {
    InReach(p, run.visible, m) && RightAnswers(p, m, run.visible, run.manifests, run.heard)
  }

  /** The run is the one course the module's script takes beside what it saw. */
  ghost predicate IsCourse(p: Plan, m: Module, b: Build, run: Run) {
    Ran(p, m, b, run.visible, run.manifests, run.heard, run.outcome)
  }

  /** The build puts nothing undeclared and reads no nil. */
  ghost predicate LogClean(p: Plan, m: Module, run: Run) {
    !PutsUndeclared(m, run.heard) && !ReadsNil(p, run.visible, run.heard)
  }

  /** The script returned a manifest, put nothing it did not declare, read no nil, and put
      one value for each contract it supplies. */
  ghost predicate Faultless(p: Plan, m: Module, run: Run) {
    && run.outcome.Returned? && run.outcome.result.Some?
    && LogClean(p, m, run)
    && forall k :: Supplies(m, k) ==> |ScriptPuts(m, run.heard, k)| == 1
  }

  /** What is said of a run that is not faultless: the read that stopped it, whatever it
      recorded, and, when it was not stopped, an error it returned and the counts it got
      wrong. */
  ghost predicate WrongWith(p: Plan, m: Module, run: Run, pr: Problem) {
    || (run.outcome.Stopped? && pr == ReadRefused(m.name, run.outcome.failure))
    || (exists e :: e in ScriptErrors(p, m, run.visible, run.heard) && pr == Faulted(m.name, e))
    || (run.outcome.Returned? && run.outcome.result.None? && pr == Faulted(m.name, BuildFailed))
    || (run.outcome.Returned? && exists e :: LogCountWrong(m, run.heard, e) && pr == Faulted(m.name, e))
  }

  predicate LogCountWrong(m: Module, log: seq<Heard>, e: BuildError) {
    match e
    case NotProvidedOnce(k) => Provides(k) in m.decls && |ScriptPuts(m, log, k)| != 1
    case NotContributed(k) => Contributes(k) in m.decls && |ScriptPuts(m, log, k)| == 0
    case ContributedOften(k, n) => Contributes(k) in m.decls && |ScriptPuts(m, log, k)| == n > 1
    case _ => false
  }

  /** The module put exactly what its run put. */
  ghost predicate PutByRun(values: map<Module, Puts>, m: Module, run: Run) {
    forall k :: PutsAre(m, run.heard, values, k)
  }

  lemma CountsOfTheLog(m: Module, run: Run, values: map<Module, Puts>, e: BuildError)
    requires PutByRun(values, m, run)
    ensures CountWrong(m, if m in values then values[m] else map[], e) <==> LogCountWrong(m, run.heard, e)
  {
    if e.NotProvidedOnce? || e.NotContributed? || e.ContributedOften? { assert PutsAre(m, run.heard, values, e.key); }
  }

  /** The values a build saw stand unchanged. */
  ghost predicate StillStand(values: map<Module, Puts>, run: Run) {
    forall x :: x in run.visible ==> x in values && values[x] == run.visible[x]
  }

  ghost predicate AllHeard(p: Plan, values: map<Module, Puts>, runs: map<Module, Run>) {
    forall m :: m in runs ==> RunHeard(p, m, runs[m]) && StillStand(values, runs[m])
  }

  lemma OneMoreRun(p: Plan, values: map<Module, Puts>, values': map<Module, Puts>, runs: map<Module, Run>, m: Module, run: Run)
    requires AllHeard(p, values, runs) && RunHeard(p, m, run) && run.visible == values
    requires forall x :: x in values ==> x in values' && values'[x] == values[x]
    ensures AllHeard(p, values', runs[m := run])
  {
  }

  function ManifestsOf(order: seq<Module>, manifests: map<Module, Manifest>): seq<Manifest> {
    if order == [] then []
    else ManifestsOf(order[..|order| - 1], manifests) +
         if order[|order| - 1] in manifests then [manifests[order[|order| - 1]]] else []
  }

  lemma {:induction false} ManifestsUnchanged(order: seq<Module>, manifests: map<Module, Manifest>, m: Module, man: Manifest)
    requires m !in order
    ensures ManifestsOf(order, manifests[m := man]) == ManifestsOf(order, manifests)
  {
    if order != [] {
      ManifestsUnchanged(order[..|order| - 1], manifests, m, man);
    }
  }

  predicate About(pr: Problem, m: Module) {
    (pr.ReadRefused? || pr.Faulted?) && pr.name == m.name
  }

  ghost predicate HasSentence(problems: seq<Problem>, m: Module) {
    exists pr :: pr in problems && About(pr, m)
  }

  ghost predicate HasCulprit(fates: Fates, pr: Problem) {
    exists m :: Refused(fates, m) && About(pr, m)
  }

  /** Refused modules have sentences, and only they do. */
  ghost predicate Blames(problems: seq<Problem>, fates: Fates) {
    && (forall m {:trigger HasSentence(problems, m)} :: Refused(fates, m) ==> HasSentence(problems, m))
    && (forall pr {:trigger HasCulprit(fates, pr)} :: pr in problems ==> HasCulprit(fates, pr))
  }

  function FaultsOf(m: Module, errs: seq<BuildError>): (r: seq<Problem>)
    ensures |r| == |errs|
    ensures forall pr :: pr in r <==> exists e :: e in errs && pr == Faulted(m.name, e)
  {
    var r := seq(|errs|, i requires 0 <= i < |errs| => Faulted(m.name, errs[i]));
    assert forall i :: 0 <= i < |errs| ==> errs[i] in errs && r[i] == Faulted(m.name, errs[i]);
    assert forall e :: e in errs ==> exists i :: 0 <= i < |errs| && r[i] == Faulted(m.name, e);
    r
  }

  /** Runs one module and turns what went wrong into its problems. */
  method RunModule(w: Wiring, m: Module, b: Build)
    returns (manifest: Option<Manifest>, problems: seq<Problem>, ghost run: Run)
    requires InReach(w.plan, w.values, m) && m !in w.values
    modifies w`at, w`errs, w`values
    ensures forall x :: x in old(w.values) ==> x in w.values && w.values[x] == old(w.values)[x]
    ensures w.values.Keys <= old(w.values).Keys + {m}
    ensures problems == [] <==> manifest.Some?
    ensures problems == [] ==> PutAsDeclared(w.values, m)
    ensures forall pr :: pr in problems ==> About(pr, m)
    ensures Answered(problems)
    ensures run.visible == old(w.values) && run.manifests == w.built
    ensures RunHeard(w.plan, m, run) && IsCourse(w.plan, m, b, run)
    ensures PutByRun(w.values, m, run)
    ensures forall pr :: pr in problems <==> WrongWith(w.plan, m, run, pr)
    ensures manifest.Some? ==> run.outcome == Returned(manifest)
  {
    w.at, w.errs := Some(m), [];
    var failure;
    ghost var log;
    manifest, failure, log := w.BuildOne(m, b);
    run := Run(old(w.values), w.built, log, if failure.Some? then Stopped(failure.value) else Returned(manifest));
    if failure.Some? {
      problems := [ReadRefused(m.name, failure.value)] + FaultsOf(m, w.errs);
    } else {
      var counts := PutCountProblems(m, if m in w.values then w.values[m] else map[]);
      forall e ensures e in counts <==> LogCountWrong(m, log, e) { CountsOfTheLog(m, run, w.values, e); }
      problems := FaultsOf(m, w.errs + (if manifest.None? then [BuildFailed] else []) + counts);
    }
    if problems != [] {
      manifest := None;
    }
  }

  /** The runs so far: each saw only values of modules that built, and the manifests of
      those built before it. */
  ghost predicate RunsRight(p: Plan, n: nat, manifests: map<Module, Manifest>, fates: Fates, runs: map<Module, Run>)
    requires n <= |p.order|
  {
    forall i :: 0 <= i < n && !Suppressed(fates, p.order[i]) ==> RunRight(p, i, manifests, runs)
  }

  ghost predicate RunRight(p: Plan, i: nat, manifests: map<Module, Manifest>, runs: map<Module, Run>)
    requires i < |p.order|
  {
    && p.order[i] in runs
    && runs[p.order[i]].visible.Keys <= manifests.Keys
    && runs[p.order[i]].manifests == ManifestsOf(p.order[..i], manifests)
  }

  lemma RunsKept(p: Plan, n: nat, manifests: map<Module, Manifest>, fates: Fates, runs: map<Module, Run>,
                 manifests': map<Module, Manifest>, fates': Fates, runs': map<Module, Run>)
    requires n < |p.order| && NoDup(p.order) && RunsRight(p, n, manifests, fates, runs)
    requires p.order[n] !in manifests
    requires manifests' == manifests || (p.order[n] in manifests' && manifests' == manifests[p.order[n] := manifests'[p.order[n]]])
    requires forall m :: m != p.order[n] ==> (m in fates' <==> m in fates) && (m in fates ==> fates'[m] == fates[m])
    requires forall m :: m in runs && m != p.order[n] ==> m in runs' && runs'[m] == runs[m]
    ensures RunsRight(p, n, manifests', fates', runs')
  {
    forall i | 0 <= i < n && !Suppressed(fates', p.order[i]) ensures RunRight(p, i, manifests', runs') {
      assert p.order[i] != p.order[n];
      assert RunRight(p, i, manifests, runs);
      if manifests' != manifests {
        ManifestsUnchanged(p.order[..i], manifests, p.order[n], manifests'[p.order[n]]);
      }
    }
  }

  lemma BlamesMore(problems: seq<Problem>, fates: Fates, m: Module, more: seq<Problem>)
    requires Blames(problems, fates) && m !in fates
    requires more != [] && forall pr :: pr in more ==> About(pr, m)
    ensures Blames(problems + more, fates[m := m])
  {
    var fates' := fates[m := m];
    forall x | Refused(fates', x) ensures HasSentence(problems + more, x) {
      if x == m {
        assert more[0] in problems + more && About(more[0], m);
      } else {
        assert Refused(fates, x) && HasSentence(problems, x);
        var pr :| pr in problems && About(pr, x);
        assert pr in problems + more;
      }
    }
    forall pr | pr in problems + more ensures HasCulprit(fates', pr) {
      if pr in problems {
        assert HasCulprit(fates, pr);
        var x :| Refused(fates, x) && About(pr, x);
        assert Refused(fates', x);
      } else {
        assert Refused(fates', m);
      }
    }
  }

  lemma BlamesSuppressed(problems: seq<Problem>, fates: Fates, m: Module, culprit: Module)
    requires Blames(problems, fates) && m !in fates && culprit != m
    ensures Blames(problems, fates[m := culprit])
  {
    var fates' := fates[m := culprit];
    forall x | Refused(fates', x) ensures HasSentence(problems, x) {
      assert Refused(fates, x);
    }
    forall pr | pr in problems ensures HasCulprit(fates', pr) {
      assert HasCulprit(fates, pr);
      var x :| Refused(fates, x) && About(pr, x);
      assert Refused(fates', x);
    }
  }

  /** A read or a put the plan cannot answer is never the reason. */
  ghost predicate Answered(problems: seq<Problem>) {
    forall pr :: pr in problems ==>
      !(pr.ReadRefused? && pr.failure.NoSupplier?) && !(pr.Faulted? && pr.error.WrongCount?)
  }

  ghost predicate BuildInv(p: Plan, n: nat, fates: Fates, manifests: map<Module, Manifest>, values: map<Module, Puts>,
                           built: seq<Manifest>, problems: seq<Problem>, runs: map<Module, Run>)
    requires n <= |p.order|
  {
    && LoopInv(p, n, fates, manifests, values)
    && built == ManifestsOf(p.order[..n], manifests)
    && Blames(problems, fates) && Answered(problems)
    && RunsRight(p, n, manifests, fates, runs) && AllHeard(p, values, runs)
  }

  lemma CleanLogRecordsNothing(p: Plan, m: Module, run: Run)
    ensures LogClean(p, m, run) <==> ScriptErrors(p, m, run.visible, run.heard) == []
  {
    RecordsExactly(p, m, run.visible, run.heard);
  }

  lemma FaultlessSaysNothing(p: Plan, m: Module, run: Run, pr: Problem)
    requires Faultless(p, m, run)
    ensures !WrongWith(p, m, run, pr)
  {
    CleanLogRecordsNothing(p, m, run);
  }

  /** Of any other run something is said. */
  lemma FaultyIsSaid(p: Plan, m: Module, run: Run) returns (pr: Problem)
    requires !Faultless(p, m, run)
    ensures WrongWith(p, m, run, pr)
  {
    CleanLogRecordsNothing(p, m, run);
    var errs := ScriptErrors(p, m, run.visible, run.heard);
    if errs != [] {
      pr := Faulted(m.name, errs[0]);
      assert errs[0] in errs;
    } else if run.outcome.Stopped? {
      pr := ReadRefused(m.name, run.outcome.failure);
    } else if run.outcome.result.None? {
      pr := Faulted(m.name, BuildFailed);
    } else {
      var k :| Supplies(m, k) && |ScriptPuts(m, run.heard, k)| != 1;
      var e := WrongCountOf(m, run.heard, k);
      pr := Faulted(m.name, e);
    }
  }

  lemma WrongCountOf(m: Module, log: seq<Heard>, k: Contract) returns (e: BuildError)
    requires Supplies(m, k) && |ScriptPuts(m, log, k)| != 1
    ensures LogCountWrong(m, log, e)
  {
    var n := |ScriptPuts(m, log, k)|;
    e := if Provides(k) in m.decls then NotProvidedOnce(k) else if n == 0 then NotContributed(k) else ContributedOften(k, n);
  }

  /** What became of a module that ran: kept with its script's manifest and its script's
      puts when the run is faultless, refused with nothing kept when it is not. */
  ghost predicate Kept(p: Plan, fates: Fates, manifests: map<Module, Manifest>, values: map<Module, Puts>, m: Module, run: Run) {
    if Faultless(p, m, run) then
      m !in fates && m in manifests && manifests[m] == run.outcome.result.value && PutByRun(values, m, run)
    else Refused(fates, m) && m !in manifests && m !in values
  }

  ghost predicate AllKept(p: Plan, builds: Module -> Build, fates: Fates, manifests: map<Module, Manifest>,
                          values: map<Module, Puts>, runs: map<Module, Run>) {
    forall m :: m in runs ==> IsCourse(p, m, builds(m), runs[m]) && Kept(p, fates, manifests, values, m, runs[m])
  }

  /** The problems are what is wrong with the runs, and nothing else. */
  ghost predicate SaysWhatIsWrong(p: Plan, problems: seq<Problem>, runs: map<Module, Run>) {
    forall pr :: pr in problems <==> exists m :: m in runs && WrongWith(p, m, runs[m], pr)
  }

  lemma WrongOneMore(p: Plan, problems: seq<Problem>, runs: map<Module, Run>, m: Module, run: Run, more: seq<Problem>)
    requires SaysWhatIsWrong(p, problems, runs) && m !in runs
    requires forall pr :: pr in more <==> WrongWith(p, m, run, pr)
    ensures SaysWhatIsWrong(p, problems + more, runs[m := run])
  {
    var runs' := runs[m := run];
    forall pr ensures pr in problems + more <==> exists x :: x in runs' && WrongWith(p, x, runs'[x], pr) {
      if pr in problems {
        var x :| x in runs && WrongWith(p, x, runs[x], pr);
        assert x in runs' && runs'[x] == runs[x];
      }
      if pr in more { assert m in runs' && WrongWith(p, m, runs'[m], pr); }
      if x :| x in runs' && WrongWith(p, x, runs'[x], pr) {
        if x != m { assert x in runs && WrongWith(p, x, runs[x], pr); }
      }
    }
  }

  /** One more run, and what became of its module. */
  lemma KeptOneMore(p: Plan, builds: Module -> Build, fates: Fates, manifests: map<Module, Manifest>, values: map<Module, Puts>,
                    runs: map<Module, Run>, m: Module, run: Run,
                    fates': Fates, manifests': map<Module, Manifest>, values': map<Module, Puts>)
    requires AllKept(p, builds, fates, manifests, values, runs) && m !in runs
    requires IsCourse(p, m, builds(m), run) && Kept(p, fates', manifests', values', m, run)
    requires OnlyIts(m, fates, manifests, values, fates', manifests', values')
    ensures AllKept(p, builds, fates', manifests', values', runs[m := run])
  {
    var runs' := runs[m := run];
    forall x | x in runs' ensures IsCourse(p, x, builds(x), runs'[x]) && Kept(p, fates', manifests', values', x, runs'[x]) {
      if x != m {
        assert IsCourse(p, x, builds(x), runs[x]) && Kept(p, fates, manifests, values, x, runs[x]);
        KeptAlike(p, fates, manifests, values, x, runs[x], fates', manifests', values');
      }
    }
  }

  predicate SameState<V(==)>(a: map<Module, V>, b: map<Module, V>, x: Module) {
    (x in a <==> x in b) && (x in a ==> a[x] == b[x])
  }

  lemma KeptAlike(p: Plan, fates: Fates, manifests: map<Module, Manifest>, values: map<Module, Puts>, x: Module, run: Run,
                  fates': Fates, manifests': map<Module, Manifest>, values': map<Module, Puts>)
    requires Kept(p, fates, manifests, values, x, run)
    requires SameState(fates, fates', x) && SameState(manifests, manifests', x) && SameState(values, values', x)
    ensures Kept(p, fates', manifests', values', x, run)
  {
    forall k | PutByRun(values, x, run) ensures PutsAre(x, run.heard, values', k) {
      assert PutsAre(x, run.heard, values, k);
    }
  }

  /** Nobody has run whose turn has not come. */
  lemma NotYetRun(p: Plan, builds: Module -> Build, n: nat, fates: Fates, manifests: map<Module, Manifest>,
                  values: map<Module, Puts>, runs: map<Module, Run>)
    requires n < |p.order| && NoDup(p.order) && LoopInv(p, n, fates, manifests, values)
    requires AllKept(p, builds, fates, manifests, values, runs)
    ensures p.order[n] !in runs
  {
    forall m | m in runs ensures Before(p.order, n, m) {
      assert Kept(p, fates, manifests, values, m, runs[m]);
    }
  }

  /** Builds the next module of the order: kept, or refused with its values dropped. */
  method BuildNext(ghost alive: set<Module>, p: Plan, n: nat, w: Wiring, b: Build, fates: Fates,
                   manifests: map<Module, Manifest>, problems: seq<Problem>, ghost runs: map<Module, Run>)
    returns (fates': Fates, manifests': map<Module, Manifest>, problems': seq<Problem>, more: seq<Problem>, ghost run: Run)
    requires Sound(alive, p) && n < |p.order| && w.plan == p
    requires BuildInv(p, n, fates, manifests, w.values, w.built, problems, runs)
    requires forall c :: c in Deps(p.deps, p.order[n]) ==> c !in fates
    modifies w
    ensures BuildInv(p, n + 1, fates', manifests', w.values, w.built, problems', runs[p.order[n] := run])
    ensures IsCourse(p, p.order[n], b, run) && Kept(p, fates', manifests', w.values, p.order[n], run)
    ensures OnlyIts(p.order[n], fates, manifests, old(w.values), fates', manifests', w.values)
    ensures problems' == problems + more && forall pr :: pr in more <==> WrongWith(p, p.order[n], run, pr)
  {
    var m := p.order[n];
    NeedsInReach(alive, p, n, fates, manifests, w.values);
    ghost var before, built := w.values, w.built;
    var manifest;
    manifest, more, run := RunModule(w, m, b);
    AfterRun(alive, p, n, fates, manifests, before, w.values, built, problems, runs, run, manifest, more);
    BecomesKept(p, m, fates, manifests, before, w.values, run, manifest, more);
    problems' := problems + more;
    if manifest.None? {
      w.values := w.values - {m};
      fates', manifests' := fates[m := m], manifests;
    } else {
      w.built := w.built + [manifest.value];
      fates', manifests' := fates, manifests[m := manifest.value];
    }
  }

  /** Only this module's state moves. */
  ghost predicate OnlyIts(m: Module, fates: Fates, manifests: map<Module, Manifest>, values: map<Module, Puts>,
                          fates': Fates, manifests': map<Module, Manifest>, values': map<Module, Puts>) {
    forall x :: x != m ==> SameState(fates, fates', x) && SameState(manifests, manifests', x) && SameState(values, values', x)
  }

  lemma BecomesKept(p: Plan, m: Module, fates: Fates, manifests: map<Module, Manifest>, values: map<Module, Puts>,
                    values': map<Module, Puts>, run: Run, manifest: Option<Manifest>, more: seq<Problem>)
    requires m !in fates && m !in manifests && m !in values
    requires forall x :: x in values ==> x in values' && values'[x] == values[x]
    requires values'.Keys <= values.Keys + {m}
    requires PutByRun(values', m, run) && (manifest.Some? ==> run.outcome == Returned(manifest))
    requires forall pr :: pr in more <==> WrongWith(p, m, run, pr)
    requires more == [] <==> manifest.Some?
    ensures match manifest
            case None => Kept(p, fates[m := m], manifests, values' - {m}, m, run)
                         && OnlyIts(m, fates, manifests, values, fates[m := m], manifests, values' - {m})
            case Some(man) => Kept(p, fates, manifests[m := man], values', m, run)
                              && OnlyIts(m, fates, manifests, values, fates, manifests[m := man], values')
  {
    SilentWhenKept(p, m, run, more);
  }

  lemma SilentWhenKept(p: Plan, m: Module, run: Run, more: seq<Problem>)
    requires forall pr :: pr in more <==> WrongWith(p, m, run, pr)
    ensures more == [] <==> Faultless(p, m, run)
  {
    if Faultless(p, m, run) {
      if more != [] {
        assert more[0] in more;
        FaultlessSaysNothing(p, m, run, more[0]);
      }
    } else {
      var pr := FaultyIsSaid(p, m, run);
      assert pr in more;
    }
  }

  /** Either way the run ended, the next state is as it should be. */
  lemma AfterRun(alive: set<Module>, p: Plan, n: nat, fates: Fates, manifests: map<Module, Manifest>, values: map<Module, Puts>,
                 values': map<Module, Puts>, built: seq<Manifest>, problems: seq<Problem>, runs: map<Module, Run>, run: Run,
                 manifest: Option<Manifest>, more: seq<Problem>)
    requires Sound(alive, p) && n < |p.order| && BuildInv(p, n, fates, manifests, values, built, problems, runs)
    requires forall c :: c in Deps(p.deps, p.order[n]) ==> c !in fates
    requires forall x :: x in values ==> x in values' && values'[x] == values[x]
    requires values'.Keys <= values.Keys + {p.order[n]}
    requires more == [] <==> manifest.Some?
    requires more == [] ==> PutAsDeclared(values', p.order[n])
    requires Answered(more) && forall pr :: pr in more ==> About(pr, p.order[n])
    requires run.visible == values && run.manifests == built && RunHeard(p, p.order[n], run)
    ensures var m := p.order[n]; var runs' := runs[m := run];
            match manifest
            case None => BuildInv(p, n + 1, fates[m := m], manifests, values' - {m}, built, problems + more, runs')
            case Some(man) => BuildInv(p, n + 1, fates, manifests[m := man], values', built + [man], problems + more, runs')
  {
    var m := p.order[n];
    assert !Before(p.order, n, m);
    if manifest.None? {
      assert values' - {m} == values;
      AfterRefusal(alive, p, n, fates, manifests, values, built, problems, runs, run, more);
    } else {
      assert problems + more == problems;
      AfterBuild(p, n, fates, manifests, values, values', built, problems, runs, run, manifest.value);
    }
  }

  /** Everything the loop keeps: the fates, and of every module that ran what its script says. */
  ghost predicate BuiltTo(p: Plan, builds: Module -> Build, n: nat, fates: Fates, manifests: map<Module, Manifest>,
                          values: map<Module, Puts>, built: seq<Manifest>, problems: seq<Problem>, runs: map<Module, Run>)
    requires n <= |p.order|
  {
    && BuildInv(p, n, fates, manifests, values, built, problems, runs)
    && AllKept(p, builds, fates, manifests, values, runs) && SaysWhatIsWrong(p, problems, runs)
  }

  /** Builds the next module, and keeps what is known of the runs before it. */
  method BuildAndKeep(ghost alive: set<Module>, p: Plan, n: nat, w: Wiring, builds: Module -> Build, fates: Fates,
                      manifests: map<Module, Manifest>, problems: seq<Problem>, ghost runs: map<Module, Run>)
    returns (fates': Fates, manifests': map<Module, Manifest>, problems': seq<Problem>, ghost runs': map<Module, Run>)
    requires Sound(alive, p) && n < |p.order| && w.plan == p && p.order[n] !in runs
    requires BuiltTo(p, builds, n, fates, manifests, w.values, w.built, problems, runs)
    requires forall c :: c in Deps(p.deps, p.order[n]) ==> c !in fates
    modifies w
    ensures BuiltTo(p, builds, n + 1, fates', manifests', w.values, w.built, problems', runs')
  {
    ghost var m, run := p.order[n], Run(w.values, w.built, [], Returned(None));
    var more;
    fates', manifests', problems', more, run := BuildNext(alive, p, n, w, builds(p.order[n]), fates, manifests, problems, runs);
    KeptOneMore(p, builds, fates, manifests, old(w.values), runs, m, run, fates', manifests', w.values);
    WrongOneMore(p, problems, runs, m, run, more);
    runs' := runs[m := run];
  }

  /** The module at `n` waits on a refused one. */
  lemma SuppressNext(alive: set<Module>, p: Plan, builds: Module -> Build, n: nat, fates: Fates, manifests: map<Module, Manifest>,
                     values: map<Module, Puts>, built: seq<Manifest>, problems: seq<Problem>, runs: map<Module, Run>, culprit: Module)
    requires Sound(alive, p) && n < |p.order| && p.order[n] !in runs
    requires BuiltTo(p, builds, n, fates, manifests, values, built, problems, runs)
    requires FollowsFirst(Deps(p.deps, p.order[n]), fates, culprit)
    ensures BuiltTo(p, builds, n + 1, fates[p.order[n] := culprit], manifests, values, built, problems, runs)
  {
    assert !Before(p.order, n, p.order[n]);
    AfterSuppression(alive, p, n, fates, manifests, values, built, problems, runs, culprit);
    SuppressedKept(p, builds, fates, manifests, values, runs, p.order[n], culprit);
  }

  lemma NothingBuilt(p: Plan, builds: Module -> Build)
    ensures BuiltTo(p, builds, 0, map[], map[], map[], [], [], map[])
  {
  }

  /** Builds every surviving module in order. */
  method BuildInOrder(ghost alive: set<Module>, p: Plan, builds: Module -> Build)
    returns (fates: Fates, manifests: map<Module, Manifest>, built: seq<Manifest>, values: map<Module, Puts>,
             problems: seq<Problem>, ghost runs: map<Module, Run>)
    requires Sound(alive, p)
    ensures BuiltTo(p, builds, |p.order|, fates, manifests, values, built, problems, runs)
  {
    var w := new Wiring(p);
    fates, manifests, problems, runs := map[], map[], [], map[];
    NothingBuilt(p, builds);
    for n := 0 to |p.order|
      invariant w.plan == p && fresh(w)
      invariant BuiltTo(p, builds, n, fates, manifests, w.values, w.built, problems, runs)
    {
      var m := p.order[n];
      NotYetRun(p, builds, n, fates, manifests, w.values, runs);
      var culprit := RefusedDependency(p.deps, m, fates);
      if culprit.Some? {
        SuppressNext(alive, p, builds, n, fates, manifests, w.values, w.built, problems, runs, culprit.value);
        fates := fates[m := culprit.value];
      } else {
        fates, manifests, problems, runs := BuildAndKeep(alive, p, n, w, builds, fates, manifests, problems, runs);
      }
    }
    built, values := w.built, w.values;
  }

  lemma SuppressedKept(p: Plan, builds: Module -> Build, fates: Fates, manifests: map<Module, Manifest>, values: map<Module, Puts>,
                       runs: map<Module, Run>, m: Module, culprit: Module)
    requires AllKept(p, builds, fates, manifests, values, runs) && m !in runs
    ensures AllKept(p, builds, fates[m := culprit], manifests, values, runs)
  {
    forall x | x in runs ensures IsCourse(p, x, builds(x), runs[x]) && Kept(p, fates[m := culprit], manifests, values, x, runs[x]) {
      KeptAlike(p, fates, manifests, values, x, runs[x], fates[m := culprit], manifests, values);
    }
  }

  lemma AfterSuppression(alive: set<Module>, p: Plan, n: nat, fates: Fates, manifests: map<Module, Manifest>, values: map<Module, Puts>,
                         built: seq<Manifest>, problems: seq<Problem>, runs: map<Module, Run>, culprit: Module)
    requires Sound(alive, p) && n < |p.order| && BuildInv(p, n, fates, manifests, values, built, problems, runs)
    requires !Before(p.order, n, p.order[n]) && FollowsFirst(Deps(p.deps, p.order[n]), fates, culprit)
    ensures BuildInv(p, n + 1, fates[p.order[n] := culprit], manifests, values, built, problems, runs)
  {
    SuppressKeeps(alive, p, n, fates, manifests, values, culprit);
    BlamesSuppressed(problems, fates, p.order[n], culprit);
    RunsKept(p, n, manifests, fates, runs, manifests, fates[p.order[n] := culprit], runs);
    ManifestsSame(p, n, manifests);
  }

  lemma AnsweredMore(problems: seq<Problem>, more: seq<Problem>)
    requires Answered(problems) && Answered(more)
    ensures Answered(problems + more)
  {
  }

  /** This module's own run, with the ones before it. */
  lemma RunsStep(p: Plan, n: nat, manifests: map<Module, Manifest>, fates: Fates, runs: map<Module, Run>, run: Run,
                 manifests': map<Module, Manifest>, fates': Fates)
    requires n < |p.order| && NoDup(p.order) && RunsRight(p, n, manifests, fates, runs)
    requires p.order[n] !in manifests && run.visible.Keys <= manifests.Keys && run.manifests == ManifestsOf(p.order[..n], manifests)
    requires manifests' == manifests || (p.order[n] in manifests' && manifests' == manifests[p.order[n] := manifests'[p.order[n]]])
    requires fates' == fates || fates' == fates[p.order[n] := p.order[n]]
    ensures RunsRight(p, n + 1, manifests', fates', runs[p.order[n] := run])
  {
    var runs' := runs[p.order[n] := run];
    RunsKept(p, n, manifests, fates, runs, manifests', fates', runs');
    if manifests' != manifests {
      assert p.order[n] !in p.order[..n];
      ManifestsUnchanged(p.order[..n], manifests, p.order[n], manifests'[p.order[n]]);
    }
    assert RunRight(p, n, manifests', runs');
  }

  lemma AfterRefusal(alive: set<Module>, p: Plan, n: nat, fates: Fates, manifests: map<Module, Manifest>, values: map<Module, Puts>,
                     built: seq<Manifest>, problems: seq<Problem>, runs: map<Module, Run>, run: Run, more: seq<Problem>)
    requires Sound(alive, p) && n < |p.order| && BuildInv(p, n, fates, manifests, values, built, problems, runs)
    requires !Before(p.order, n, p.order[n]) && forall c :: c in Deps(p.deps, p.order[n]) ==> c !in fates
    requires more != [] && Answered(more) && forall pr :: pr in more ==> About(pr, p.order[n])
    requires run.visible == values && run.manifests == built && RunHeard(p, p.order[n], run)
    ensures var m := p.order[n];
            BuildInv(p, n + 1, fates[m := m], manifests, values, built, problems + more, runs[m := run])
  {
    var m := p.order[n];
    RefuseKeepsLoop(alive, p, n, fates, manifests, values);
    BlamesMore(problems, fates, m, more);
    AnsweredMore(problems, more);
    RunsStep(p, n, manifests, fates, runs, run, manifests, fates[m := m]);
    OneMoreRun(p, values, values, runs, m, run);
    ManifestsSame(p, n, manifests);
  }

  lemma AfterBuild(p: Plan, n: nat, fates: Fates, manifests: map<Module, Manifest>, values: map<Module, Puts>, values': map<Module, Puts>,
                   built: seq<Manifest>, problems: seq<Problem>, runs: map<Module, Run>, run: Run, man: Manifest)
    requires n < |p.order| && NoDup(p.order) && BuildInv(p, n, fates, manifests, values, built, problems, runs)
    requires !Before(p.order, n, p.order[n]) && forall c :: c in Deps(p.deps, p.order[n]) ==> c !in fates
    requires forall x :: x in values ==> x in values' && values'[x] == values[x]
    requires values'.Keys <= values.Keys + {p.order[n]} && PutAsDeclared(values', p.order[n])
    requires run.visible == values && run.manifests == built && RunHeard(p, p.order[n], run)
    ensures var m := p.order[n];
            BuildInv(p, n + 1, fates, manifests[m := man], values', built + [man], problems, runs[m := run])
  {
    var m := p.order[n];
    BuildKeepsLoop(p, n, fates, manifests, values, values', man);
    ManifestsGrow(p, n, manifests, man);
    RunsStep(p, n, manifests, fates, runs, run, manifests[m := man], fates);
    OneMoreRun(p, values, values', runs, m, run);
  }

  lemma ManifestsGrow(p: Plan, n: nat, manifests: map<Module, Manifest>, man: Manifest)
    requires n < |p.order| && NoDup(p.order)
    ensures ManifestsOf(p.order[..n + 1], manifests[p.order[n] := man]) == ManifestsOf(p.order[..n], manifests) + [man]
  {
    assert p.order[n] !in p.order[..n];
    ManifestsUnchanged(p.order[..n], manifests, p.order[n], man);
    assert p.order[..n + 1][..n] == p.order[..n];
  }

  lemma ManifestsSame(p: Plan, n: nat, manifests: map<Module, Manifest>)
    requires n < |p.order| && p.order[n] !in manifests
    ensures ManifestsOf(p.order[..n + 1], manifests) == ManifestsOf(p.order[..n], manifests)
  {
    assert p.order[..n + 1][..n] == p.order[..n];
  }

  lemma SuppressKeeps(alive: set<Module>, p: Plan, n: nat, fates: Fates, manifests: map<Module, Manifest>,
                      values: map<Module, Puts>, culprit: Module)
    requires Sound(alive, p) && n < |p.order| && LoopInv(p, n, fates, manifests, values)
    requires p.order[n] !in fates && FollowsFirst(Deps(p.deps, p.order[n]), fates, culprit)
    ensures culprit != p.order[n]
    ensures LoopInv(p, n + 1, fates[p.order[n] := culprit], manifests, values)
  {
    var m := p.order[n];
    var deps := Deps(p.deps, m);
    CulpritRefused(p, n, fates, manifests, values, m, culprit);
    EarlierFatesKeep(alive, p, n, fates, culprit);
    BeforeStep(p.order, n);
    forall c | c in deps ensures c != m {
      assert DependsOn(alive, m, c);
    }
    FollowsKept(deps, fates, culprit, m, culprit);
  }

  /** The module a suppression is traced to was itself refused. */
  lemma CulpritRefused(p: Plan, n: nat, fates: Fates, manifests: map<Module, Manifest>, values: map<Module, Puts>, m: Module, culprit: Module)
    requires n <= |p.order| && LoopInv(p, n, fates, manifests, values)
    requires FollowsFirst(Deps(p.deps, m), fates, culprit)
    ensures Refused(fates, culprit)
  {
    var deps := Deps(p.deps, m);
    var i :| 0 <= i < |deps| && deps[i] in fates && fates[deps[i]] == culprit && forall j :: 0 <= j < i ==> deps[j] !in fates;
    assert Before(p.order, n, deps[i]) && Fated(p.deps, fates, deps[i]);
  }

  lemma RefuseKeepsLoop(alive: set<Module>, p: Plan, n: nat, fates: Fates, manifests: map<Module, Manifest>, values: map<Module, Puts>)
    requires Sound(alive, p) && n < |p.order| && LoopInv(p, n, fates, manifests, values)
    requires !Before(p.order, n, p.order[n])
    requires forall c :: c in Deps(p.deps, p.order[n]) ==> c !in fates
    ensures LoopInv(p, n + 1, fates[p.order[n] := p.order[n]], manifests, values)
  {
    var m := p.order[n];
    EarlierFatesKeep(alive, p, n, fates, m);
    BeforeStep(p.order, n);
    forall c | c in Deps(p.deps, m) ensures c !in fates[m := m] {
      assert DependsOn(alive, m, c);
    }
    assert Fated(p.deps, fates[m := m], m);
  }

  lemma BuildKeepsLoop(p: Plan, n: nat, fates: Fates, manifests: map<Module, Manifest>,
                       values: map<Module, Puts>, values': map<Module, Puts>, man: Manifest)
    requires n < |p.order| && LoopInv(p, n, fates, manifests, values)
    requires forall c :: c in Deps(p.deps, p.order[n]) ==> c !in fates
    requires !Before(p.order, n, p.order[n])
    requires forall x :: x in values ==> x in values' && values'[x] == values[x]
    requires values'.Keys <= values.Keys + {p.order[n]}
    requires PutAsDeclared(values', p.order[n])
    ensures LoopInv(p, n + 1, fates, manifests[p.order[n] := man], values')
  {
    BeforeStep(p.order, n);
    forall m | m in manifests ensures PutAsDeclared(values', m) {
      assert PutAsDeclared(values, m) && Before(p.order, n, m);
      forall k | Supplies(m, k) ensures |PutBy(values', m, k)| == 1 {
        assert |PutBy(values, m, k)| == 1;
      }
    }
  }

  // -------------------------------------------------- what became of everybody

  /** How the dry build of a sound plan ended. */
  ghost predicate BuiltOut(alive: set<Module>, p: Plan, fates: Fates, manifests: map<Module, Manifest>, values: map<Module, Puts>) {
    Sound(alive, p) && LoopInv(p, |p.order|, fates, manifests, values)
  }

  /** A suppressed module's culprit is a refused module it depends on. */
  lemma {:induction false} CulpritIsReached(alive: set<Module>, p: Plan, fates: Fates, manifests: map<Module, Manifest>,
                                            values: map<Module, Puts>, n: nat)
    requires BuiltOut(alive, p, fates, manifests, values) && n < |p.order|
    requires Suppressed(fates, p.order[n])
    ensures Refused(fates, fates[p.order[n]]) && Reaches(p.deps, p.order[n], fates[p.order[n]])
    decreases n
  {
    var m := p.order[n];
    var deps := Deps(p.deps, m);
    assert Before(p.order, |p.order|, m) && Fated(p.deps, fates, m);
    var i :| 0 <= i < |deps| && deps[i] in fates && fates[deps[i]] == fates[m] && forall j :: 0 <= j < i ==> deps[j] !in fates;
    assert deps[i] in deps && DependsOn(alive, m, deps[i]);
    var at :| 0 <= at < n && p.order[at] == deps[i];
    if Refused(fates, deps[i]) {
      assert IsTrail(p.deps, [m, deps[i]], m, deps[i]);
    } else {
      CulpritIsReached(alive, p, fates, manifests, values, at);
      var walk :| IsTrail(p.deps, walk, deps[i], fates[m]);
      TrailGrows(p.deps, walk, m, deps[i], fates[m]);
    }
  }

  lemma TrailGrows(g: Graph, walk: seq<Module>, m: Module, c: Module, r: Module)
    requires IsTrail(g, walk, c, r) && c in Deps(g, m)
    ensures IsTrail(g, [m] + walk, m, r)
  {
    var longer := [m] + walk;
    assert longer[|longer| - 1] == walk[|walk| - 1];
    assert forall i :: 0 < i < |longer| ==> longer[i] == walk[i - 1];
  }

  /** Everything upstream of which something was refused is suppressed. */
  lemma {:induction false} DownstreamIsSuppressed(alive: set<Module>, p: Plan, fates: Fates, manifests: map<Module, Manifest>,
                                                  values: map<Module, Puts>, walk: seq<Module>, m: Module, r: Module)
    requires BuiltOut(alive, p, fates, manifests, values)
    requires IsTrail(p.deps, walk, m, r) && Refused(fates, r)
    ensures Suppressed(fates, m)
    decreases |walk|
  {
    assert walk[1] in Deps(p.deps, m) && DependsOn(alive, m, walk[1]);
    assert m in Elements(p.order) && Before(p.order, |p.order|, m);
    if |walk| > 2 {
      var rest := walk[1..];
      assert forall i :: 0 <= i < |rest| ==> rest[i] == walk[i + 1];
      DownstreamIsSuppressed(alive, p, fates, manifests, values, rest, walk[1], r);
    }
    assert Fated(p.deps, fates, m);
  }

  /** The order splits into built, refused and suppressed; suppression is exactly
      depending, at any distance, on a refused module. */
  lemma SuppressionIsDownstream(alive: set<Module>, p: Plan, fates: Fates, manifests: map<Module, Manifest>,
                                values: map<Module, Puts>, m: Module)
    requires BuiltOut(alive, p, fates, manifests, values) && m in p.order
    ensures m in manifests <==> !Refused(fates, m) && !Suppressed(fates, m)
    ensures Suppressed(fates, m) <==> exists r :: Refused(fates, r) && Reaches(p.deps, m, r)
    ensures Suppressed(fates, m) ==> Refused(fates, fates[m]) && Reaches(p.deps, m, fates[m]) && FollowsFirst(Deps(p.deps, m), fates, fates[m])
  {
    var n := Position(p.order, m);
    assert Before(p.order, |p.order|, m) && Fated(p.deps, fates, m);
    if Suppressed(fates, m) {
      CulpritIsReached(alive, p, fates, manifests, values, n);
    }
    if r :| Refused(fates, r) && Reaches(p.deps, m, r) {
      var walk :| IsTrail(p.deps, walk, m, r);
      DownstreamIsSuppressed(alive, p, fates, manifests, values, walk, m, r);
    }
  }

  /** No build ran beside a value of a module that was refused or suppressed. */
  lemma NobodyReadsTheRefused(p: Plan, fates: Fates, manifests: map<Module, Manifest>, values: map<Module, Puts>,
                              runs: map<Module, Run>, n: nat)
    requires LoopInv(p, |p.order|, fates, manifests, values) && RunsRight(p, |p.order|, manifests, fates, runs)
    requires n < |p.order| && !Suppressed(fates, p.order[n])
    ensures p.order[n] in runs && runs[p.order[n]].visible.Keys !! fates.Keys
  {
    assert RunRight(p, n, manifests, runs);
    forall m | m in runs[p.order[n]].visible ensures m !in fates {
      assert m in manifests && Before(p.order, |p.order|, m);
    }
  }

  /** A module whose dependencies all built ran, and is refused exactly when its script
      failed, returned no manifest, put a contract it did not declare, read a nil
      contribution or put a wrong count; what is kept of it otherwise is its script's. */
  lemma RefusedExactly(alive: set<Module>, p: Plan, builds: Module -> Build, fates: Fates, manifests: map<Module, Manifest>,
                       values: map<Module, Puts>, runs: map<Module, Run>, m: Module)
    requires BuiltOut(alive, p, fates, manifests, values) && RunsRight(p, |p.order|, manifests, fates, runs)
    requires AllKept(p, builds, fates, manifests, values, runs)
    requires m in p.order && forall c :: c in Deps(p.deps, m) ==> c in manifests
    ensures m in runs && IsCourse(p, m, builds(m), runs[m])
    ensures Refused(fates, m) <==>
      || runs[m].outcome.Stopped? || runs[m].outcome.result.None?
      || PutsUndeclared(m, runs[m].heard) || ReadsNil(p, runs[m].visible, runs[m].heard)
      || exists k :: Supplies(m, k) && |ScriptPuts(m, runs[m].heard, k)| != 1
    ensures m in manifests <==> !Refused(fates, m)
    ensures m in manifests ==> runs[m].outcome == Returned(Some(manifests[m]))
    ensures m in manifests ==> forall k :: PutBy(values, m, k) == ScriptPuts(m, runs[m].heard, k)
  {
    ReadyRan(alive, p, fates, manifests, values, runs, m);
    KeptPuts(p, fates, manifests, values, m, runs[m]);
    FaultlessIs(p, m, runs[m]);
  }

  lemma FaultlessIs(p: Plan, m: Module, run: Run)
    ensures !Faultless(p, m, run) <==>
      (run.outcome.Stopped? || run.outcome.result.None? || PutsUndeclared(m, run.heard) || ReadsNil(p, run.visible, run.heard)
       || exists k :: Supplies(m, k) && |ScriptPuts(m, run.heard, k)| != 1)
  {
  }

  lemma ReadyRan(alive: set<Module>, p: Plan, fates: Fates, manifests: map<Module, Manifest>, values: map<Module, Puts>,
                 runs: map<Module, Run>, m: Module)
    requires BuiltOut(alive, p, fates, manifests, values) && RunsRight(p, |p.order|, manifests, fates, runs)
    requires m in p.order && forall c :: c in Deps(p.deps, m) ==> c in manifests
    ensures m in runs
  {
    var n := Position(p.order, m);
    assert Before(p.order, |p.order|, m) && Fated(p.deps, fates, m);
    forall c | c in Deps(p.deps, m) ensures c !in fates {
      assert DependsOn(alive, m, c) && Before(p.order, |p.order|, c);
    }
    NotSuppressed(p, fates, m);
    assert RunRight(p, n, manifests, runs);
  }

  lemma NotSuppressed(p: Plan, fates: Fates, m: Module)
    requires Fated(p.deps, fates, m) && forall c :: c in Deps(p.deps, m) ==> c !in fates
    ensures !Suppressed(fates, m)
  {
  }

  lemma KeptPuts(p: Plan, fates: Fates, manifests: map<Module, Manifest>, values: map<Module, Puts>, m: Module, run: Run)
    requires Kept(p, fates, manifests, values, m, run)
    ensures Refused(fates, m) <==> !Faultless(p, m, run)
    ensures m in manifests <==> Faultless(p, m, run)
    ensures m in manifests ==> run.outcome == Returned(Some(manifests[m]))
    ensures m in manifests ==> forall k :: PutBy(values, m, k) == ScriptPuts(m, run.heard, k)
  {
    if m in manifests {
      forall k ensures PutBy(values, m, k) == ScriptPuts(m, run.heard, k) { assert PutsAre(m, run.heard, values, k); }
    }
  }

  /** And beside what it saw its script could have taken no other course. */
  lemma RunIsTheOne(p: Plan, m: Module, b: Build, run: Run, other: Run)
    requires IsCourse(p, m, b, run) && IsCourse(p, m, b, other)
    requires run.visible == other.visible && run.manifests == other.manifests
    ensures run == other
  {
    OneCourse(p, m, b, run.visible, run.manifests, run.heard, run.outcome, other.heard, other.outcome);
  }

  lemma PutStands(values: map<Module, Puts>, run: Run, c: Module, k: Contract)
    requires StillStand(values, run) && |PutBy(run.visible, c, k)| == 1
    ensures PutBy(values, c, k) == PutBy(run.visible, c, k)
  {
  }

  /** In every build that ran, every `All` heard the values its contributors are known by
      afterwards: one from each, in order, exactly when none of them put nil. */
  lemma EveryAllIsWhole(p: Plan, values: map<Module, Puts>, runs: map<Module, Run>, m: Module, i: nat, k: Contract)
    requires AllHeard(p, values, runs) && m in runs && i < |runs[m].heard| && runs[m].heard[i].step == GetAll(k)
    ensures runs[m].heard[i].answer.GotAll?
    ensures var heard, from := runs[m].heard[i].answer.values, Get(p.contributors, k);
            && |heard| <= |from|
            && (|heard| == |from| <==> forall c :: c in from ==> PutBy(values, c, k) != [Nil])
            && (|heard| == |from| ==> forall j :: 0 <= j < |from| ==> PutBy(values, from[j], k) == [heard[j]])
  {
    var run, from := runs[m], Get(p.contributors, k);
    assert RunHeard(p, m, run) && RightAnswer(p, m, run.visible, run.manifests, run.heard[i]);
    forall c | c in from ensures |PutBy(run.visible, c, k)| == 1 && PutBy(values, c, k) == PutBy(run.visible, c, k) {
      assert TakesEvery(m, k);
      PutStands(values, run, c, k);
    }
    OnePerContributor(run.visible, from, k);
  }

  /** And every `Get` of a wired need heard the one value its supplier is known by. */
  lemma EveryGetIsTheOne(p: Plan, values: map<Module, Puts>, runs: map<Module, Run>, m: Module, i: nat, k: Contract, many: bool)
    requires AllHeard(p, values, runs) && m in runs && i < |runs[m].heard| && runs[m].heard[i].step == GetOne(k, many)
    ensures runs[m].heard[i].answer.Got?
    ensures var heard := runs[m].heard[i].answer.value;
            if Edge(m, k) in p.from then heard.Some? && PutBy(values, p.from[Edge(m, k)], k) == [heard.value]
            else heard.None? && Needs(k, false) !in m.decls
  {
    var run := runs[m];
    assert RunHeard(p, m, run) && RightAnswer(p, m, run.visible, run.manifests, run.heard[i]);
    if Edge(m, k) in p.from { PutStands(values, run, p.from[Edge(m, k)], k); }
  }

  lemma {:induction false} AllManifests(order: seq<Module>, manifests: map<Module, Manifest>)
    requires forall m :: m in order ==> m in manifests
    ensures |ManifestsOf(order, manifests)| == |order|
    ensures forall i :: 0 <= i < |order| ==> ManifestsOf(order, manifests)[i] == manifests[order[i]]
  {
    if order != [] {
      AllManifests(order[..|order| - 1], manifests);
    }
  }

  /** When every module built, the one that runs last saw every other manifest. */
  lemma TheLastSeesEverything(alive: set<Module>, p: Plan, fates: Fates, manifests: map<Module, Manifest>,
                              values: map<Module, Puts>, runs: map<Module, Run>)
    requires BuiltOut(alive, p, fates, manifests, values) && RunsRight(p, |p.order|, manifests, fates, runs)
    requires fates == map[] && p.last.Some? && p.last.value in alive
    ensures p.last.value in runs
    ensures var seen := runs[p.last.value].manifests;
            |seen| == |p.order| - 1 && forall i :: 0 <= i < |seen| ==> p.order[i] != p.last.value && seen[i] == manifests[p.order[i]]
  {
    LastIsLast(alive, p);
    AllBuilt(p, fates, manifests, values);
    assert RunRight(p, |p.order| - 1, manifests, runs);
    SeesTheOthers(p, |p.order| - 1, manifests, runs);
  }

  lemma LastIsLast(alive: set<Module>, p: Plan)
    requires Sound(alive, p) && p.last.Some? && p.last.value in alive
    ensures p.order != [] && p.order[|p.order| - 1] == p.last.value && NoDup(p.order)
  {
    assert p.last.value in Elements(p.order);
  }

  lemma AllBuilt(p: Plan, fates: Fates, manifests: map<Module, Manifest>, values: map<Module, Puts>)
    requires LoopInv(p, |p.order|, fates, manifests, values) && fates == map[]
    ensures forall m :: m in p.order ==> m in manifests
  {
    forall m | m in p.order ensures m in manifests {
      assert Before(p.order, |p.order|, m);
    }
  }

  lemma SeesTheOthers(p: Plan, n: nat, manifests: map<Module, Manifest>, runs: map<Module, Run>)
    requires n < |p.order| && RunRight(p, n, manifests, runs) && NoDup(p.order)
    requires forall m :: m in p.order ==> m in manifests
    ensures var seen := runs[p.order[n]].manifests;
            |seen| == n && forall i :: 0 <= i < n ==> p.order[i] != p.order[n] && seen[i] == manifests[p.order[i]]
  {
    AllManifests(p.order[..n], manifests);
  }

  // ------------------------------------------------------------------ the phases

  datatype Composed = Composed(
    plan: Plan, problems: seq<Problem>, fates: Fates, manifests: map<Module, Manifest>,
    values: map<Module, Puts>, answer: Option<seq<Manifest>>)

  lemma PlanIsSound(uses: seq<Module>, choices: seq<Module>, d: Deployment, p: Plan)
    requires Resolvable(uses, choices, d) && PlanFor(uses, choices, p)
    ensures Sound(Survivors(Elements(uses), Elements(choices)), p)
  {
  }

  /** Everything refused or suppressed has a problem behind it. */
  lemma NoProblemNoFate(p: Plan, fates: Fates, problems: seq<Problem>)
    requires AllFated(p, |p.order|, fates) && Blames(problems, fates)
    requires forall m :: m in fates ==> Before(p.order, |p.order|, m)
    ensures problems == [] <==> fates == map[]
  {
    if fates != map[] {
      var m :| m in fates;
      assert Fated(p.deps, fates, m);
      var r := if Refused(fates, m) then m else fates[m];
      assert Refused(fates, r) && HasSentence(problems, r);
    }
    if problems != [] {
      assert problems[0] in problems && HasCulprit(fates, problems[0]);
    }
  }

  function Unresolveds(issues: seq<Issue>): (r: seq<Problem>)
    ensures |r| == |issues|
  {
    seq(|issues|, i requires 0 <= i < |issues| => Unresolved(issues[i]))
  }

  /** `App.compose`: nothing is built while the composition owes a sentence, and the
      answer is given only when every module built and the kernel's gates passed. */
  method Compose(uses: seq<Module>, choices: seq<Module>, d: Deployment, builds: Module -> Build,
                 nameOk: bool, gate: seq<Manifest> -> bool)
    returns (c: Composed, ghost runs: map<Module, Run>)
    ensures c.problems == [] <==> c.answer.Some?
    ensures c.answer.Some? <==> Resolvable(uses, choices, d) && nameOk && c.fates == map[] && gate(ManifestsOf(c.plan.order, c.manifests))
    ensures c.answer.Some? ==> c.answer.value == ManifestsOf(c.plan.order, c.manifests)
    ensures Resolvable(uses, choices, d) ==> PlanFor(uses, choices, c.plan)
    ensures Resolvable(uses, choices, d) && nameOk ==>
              && BuiltOut(Survivors(Elements(uses), Elements(choices)), c.plan, c.fates, c.manifests, c.values)
              && RunsRight(c.plan, |c.plan.order|, c.manifests, c.fates, runs) && AllHeard(c.plan, c.values, runs)
              && AllKept(c.plan, builds, c.fates, c.manifests, c.values, runs)
              && (c.problems == [Gated] || SaysWhatIsWrong(c.plan, c.problems, runs))
              && Answered(c.problems)
    ensures !Resolvable(uses, choices, d) || !nameOk ==> c.manifests == map[] && c.values == map[] && runs == map[]
  {
    var p, issues, verdict, reasons := Resolve(uses, choices, d);
    var problems := Unresolveds(issues) + if nameOk then [] else [BadName];
    if problems != [] {
      return Composed(p, problems, map[], map[], map[], None), map[];
    }
    assert |issues| == 0;
    PlanIsSound(uses, choices, d, p);
    ghost var alive := Survivors(Elements(uses), Elements(choices));
    var fates, manifests, built, values;
    fates, manifests, built, values, problems, runs := BuildInOrder(alive, p, builds);
    assert p.order[..|p.order|] == p.order;
    NoProblemNoFate(p, fates, problems);
    if problems != [] {
      return Composed(p, problems, fates, manifests, values, None), runs;
    }
    if !gate(built) {
      return Composed(p, [Gated], fates, manifests, values, None), runs;
    }
    return Composed(p, [], fates, manifests, values, Some(built)), runs;
  }

  // ------------------------------------------------------------------ the ports

  datatype Ports = Ports(values: Puts, putBy: map<Contract, seq<Module>>, ports: map<Contract, Value>)

  /** Who put a value for the contract, in build order. */
  function PuttersOf(order: seq<Module>, puts: map<Module, Puts>, k: Contract): seq<Module> {
    if order == [] then []
    else PuttersOf(order[..|order| - 1], puts, k) + if PutAny(puts, order[|order| - 1], k) then [order[|order| - 1]] else []
  }

  predicate PutAny(puts: map<Module, Puts>, m: Module, k: Contract) {
    m in puts && k in puts[m]
  }

  /** Exactly one module put the contract when exactly one is listed. */
  lemma {:induction false} ListedPutters(order: seq<Module>, puts: map<Module, Puts>, k: Contract)
    ensures forall m :: m in PuttersOf(order, puts, k) <==> m in order && PutAny(puts, m, k)
  {
    if order != [] {
      var rest, m := order[..|order| - 1], order[|order| - 1];
      assert order == rest + [m];
      ListedPutters(rest, puts, k);
    }
  }

  function PutsFor(order: seq<Module>, puts: map<Module, Puts>, k: Contract): seq<Value> {
    if order == [] then [] else PutsFor(order[..|order| - 1], puts, k) + PutBy(puts, order[|order| - 1], k)
  }

  /** Modules that put as declared put one value each. */
  lemma {:induction false} OneValueEach(order: seq<Module>, puts: map<Module, Puts>, k: Contract)
    requires forall m :: m in order && m in puts ==> PutAsDeclared(puts, m)
    ensures |PutsFor(order, puts, k)| == |PuttersOf(order, puts, k)|
    ensures |PuttersOf(order, puts, k)| == 1 ==> PutsFor(order, puts, k) == PutBy(puts, PuttersOf(order, puts, k)[0], k)
  {
    if order != [] {
      var rest, m := order[..|order| - 1], order[|order| - 1];
      assert order == rest + [m];
      OneValueEach(rest, puts, k);
      if PutAny(puts, m, k) {
        assert PutAsDeclared(puts, m) && Supplies(m, k);
      }
    }
  }

  /** Adds one module's puts to the totals; the order of the map's keys does not matter. */
  method AddPuts(m: Module, mine: Puts, values: Puts, putBy: map<Contract, seq<Module>>)
    returns (values': Puts, putBy': map<Contract, seq<Module>>)
    ensures forall k :: Get(values', k) == Get(values, k) + Get(mine, k)
    ensures forall k :: Get(putBy', k) == Get(putBy, k) + if k in mine then [m] else []
  {
    values', putBy' := values, putBy;
    var left := mine.Keys;
    while left != {}
      invariant left <= mine.Keys
      invariant forall k :: Get(values', k) == Get(values, k) + if k in left then [] else Get(mine, k)
      invariant forall k :: Get(putBy', k) == Get(putBy, k) + if k in mine && k !in left then [m] else []
      decreases left
    {
      var k :| k in left;
      left := left - {k};
      values' := values'[k := Get(values', k) + mine[k]];
      putBy' := putBy'[k := Get(putBy', k) + [m]];
    }
  }

  lemma TotalsStep(order: seq<Module>, puts: map<Module, Puts>, i: nat, k: Contract)
    requires i < |order|
    ensures PutsFor(order[..i + 1], puts, k) == PutsFor(order[..i], puts, k) + PutBy(puts, order[i], k)
    ensures PuttersOf(order[..i + 1], puts, k) == PuttersOf(order[..i], puts, k) + if PutAny(puts, order[i], k) then [order[i]] else []
  {
    assert order[..i + 1][..i] == order[..i];
  }

  method TotalPuts(order: seq<Module>, puts: map<Module, Puts>)
    returns (values: Puts, putBy: map<Contract, seq<Module>>)
    ensures forall k :: Get(values, k) == PutsFor(order, puts, k)
    ensures forall k :: Get(putBy, k) == PuttersOf(order, puts, k)
  {
    values, putBy := map[], map[];
    for i := 0 to |order|
      invariant forall k :: Get(values, k) == PutsFor(order[..i], puts, k)
      invariant forall k :: Get(putBy, k) == PuttersOf(order[..i], puts, k)
    {
      if order[i] in puts {
        values, putBy := AddPuts(order[i], puts[order[i]], values, putBy);
      }
      forall k
        ensures Get(values, k) == PutsFor(order[..i + 1], puts, k) && Get(putBy, k) == PuttersOf(order[..i + 1], puts, k)
      {
        TotalsStep(order, puts, i, k);
      }
    }
    assert order[..|order|] == order;
  }

  /** The contracts with exactly one value from exactly one module. */
  method SingleAnswers(values: Puts, putBy: map<Contract, seq<Module>>) returns (ports: map<Contract, Value>)
    ensures forall k :: k in ports <==> |Get(values, k)| == 1 && |Get(putBy, k)| == 1
    ensures forall k :: k in ports ==> Get(values, k) == [ports[k]]
  {
    ports := map[];
    var left := values.Keys;
    while left != {}
      invariant left <= values.Keys
      invariant forall k :: k in ports <==> k in values && k !in left && |values[k]| == 1 && |Get(putBy, k)| == 1
      invariant forall k :: k in ports ==> values[k] == [ports[k]]
      decreases left
    {
      var k :| k in left;
      left := left - {k};
      if |values[k]| == 1 && |Get(putBy, k)| == 1 {
        ports := ports[k := values[k][0]];
      }
    }
  }

  /** The ports are the contracts exactly one module put, with the value it put. */
  ghost predicate PortsRight(order: seq<Module>, puts: map<Module, Puts>, ports: map<Contract, Value>) {
    && (forall k :: k in ports <==> |PuttersOf(order, puts, k)| == 1)
    && (forall k :: k in ports ==> PutBy(puts, PuttersOf(order, puts, k)[0], k) == [ports[k]])
  }

  lemma SingleAnswersArePorts(order: seq<Module>, puts: map<Module, Puts>, values: Puts, putBy: map<Contract, seq<Module>>, ports: map<Contract, Value>)
    requires forall m :: m in puts ==> PutAsDeclared(puts, m)
    requires forall k :: Get(values, k) == PutsFor(order, puts, k)
    requires forall k :: Get(putBy, k) == PuttersOf(order, puts, k)
    requires forall k :: k in ports <==> |Get(values, k)| == 1 && |Get(putBy, k)| == 1
    requires forall k :: k in ports ==> Get(values, k) == [ports[k]]
    ensures PortsRight(order, puts, ports)
  {
    forall k ensures k in ports <==> |PuttersOf(order, puts, k)| == 1 {
      OneValueEach(order, puts, k);
    }
    forall k | k in ports ensures PutBy(puts, PuttersOf(order, puts, k)[0], k) == [ports[k]] {
      OneValueEach(order, puts, k);
    }
  }

  method CheckRequired(putBy: map<Contract, seq<Module>>, required: seq<Contract>) returns (unanswered: seq<Contract>)
    ensures unanswered == [] <==> forall k :: k in required ==> |Get(putBy, k)| == 1
  {
    unanswered := [];
    for i := 0 to |required|
      invariant unanswered == [] <==> forall j :: 0 <= j < i ==> |Get(putBy, required[j])| == 1
    {
      if |Get(putBy, required[i])| != 1 {
        unanswered := unanswered + [required[i]];
      }
    }
  }

  /** `Plan`'s reading of the puts: a plan that succeeds has exactly one module and one
      value for every required port, and that value is the port. */
  method SelectPorts(order: seq<Module>, puts: map<Module, Puts>, required: seq<Contract>)
    returns (dry: Ports, unanswered: seq<Contract>)
    requires forall m :: m in puts ==> PutAsDeclared(puts, m)
    ensures PortsRight(order, puts, dry.ports)
    ensures unanswered == [] <==> forall k :: k in required ==> k in dry.ports
  {
    var values, putBy := TotalPuts(order, puts);
    var ports := SingleAnswers(values, putBy);
    SingleAnswersArePorts(order, puts, values, putBy, ports);
    unanswered := CheckRequired(putBy, required);
    dry := Ports(values, putBy, ports);
  }

  // -------------------------------------------------------------------- the plan

  /** Modules listed without repeats that put a contract are one exactly when only one could. */
  lemma OnePutter(order: seq<Module>, puts: map<Module, Puts>, k: Contract)
    requires NoDup(order)
    requires forall m :: m in order ==> (PutAny(puts, m, k) <==> Supplies(m, k))
    ensures |PuttersOf(order, puts, k)| == 1 <==> exists s :: OnlySupplier(Elements(order), k, s)
    ensures forall s :: OnlySupplier(Elements(order), k, s) ==> PuttersOf(order, puts, k) == [s]
  {
    var who := PuttersOf(order, puts, k);
    ListedPutters(order, puts, k);
    PuttersOnce(order, puts, k);
    if |who| == 1 {
      assert who[0] in who;
      assert OnlySupplier(Elements(order), k, who[0]);
    }
    forall s | OnlySupplier(Elements(order), k, s) ensures who == [s] {
      assert forall m :: m in who ==> m in Elements(order) && Supplies(m, k);
      OnlyOne(who, s);
    }
  }

  lemma OnlyOne(who: seq<Module>, s: Module)
    requires NoDup(who) && s in who && forall m :: m in who ==> m == s
    ensures who == [s]
  {
    var i := Position(who, s);
    forall j | 0 <= j < |who| ensures who[j] == s && j == i {
      assert who[j] in who;
    }
    assert who[0] == s && who[|who| - 1] == s;
  }

  lemma {:induction false} PuttersOnce(order: seq<Module>, puts: map<Module, Puts>, k: Contract)
    requires NoDup(order)
    ensures NoDup(PuttersOf(order, puts, k))
  {
    if order != [] {
      var rest, m := order[..|order| - 1], order[|order| - 1];
      assert order == rest + [m];
      PuttersOnce(rest, puts, k);
      ListedPutters(rest, puts, k);
      assert m !in rest;
    }
  }

  /** When everything built, the ports are the contracts with one declared supplier. */
  lemma PortsAreDeclared(alive: set<Module>, p: Plan, manifests: map<Module, Manifest>, values: map<Module, Puts>,
                         ports: map<Contract, Value>, k: Contract)
    requires BuiltOut(alive, p, map[], manifests, values) && PortsRight(p.order, values, ports)
    ensures k in ports <==> exists s :: OnlySupplier(alive, k, s)
    ensures forall s :: k in ports && OnlySupplier(alive, k, s) ==> PutBy(values, s, k) == [ports[k]]
  {
    AllBuilt(p, map[], manifests, values);
    assert Elements(p.order) == alive;
    forall m | m in p.order ensures PutAny(values, m, k) <==> Supplies(m, k) {
      assert m in manifests && PutAsDeclared(values, m);
    }
    OnePutter(p.order, values, k);
  }

  lemma BuiltPutsItsScript(alive: set<Module>, p: Plan, builds: Module -> Build, manifests: map<Module, Manifest>,
                           values: map<Module, Puts>, runs: map<Module, Run>, s: Module)
    requires BuiltOut(alive, p, map[], manifests, values) && RunsRight(p, |p.order|, manifests, map[], runs)
    requires AllKept(p, builds, map[], manifests, values, runs) && s in alive
    ensures s in runs && forall k :: PutBy(values, s, k) == ScriptPuts(s, runs[s].heard, k)
  {
    AllBuilt(p, map[], manifests, values);
    assert s in Elements(p.order);
    var n := Position(p.order, s);
    assert RunRight(p, n, manifests, runs);
    KeptPuts(p, map[], manifests, values, s, runs[s]);
  }

  /** `App.Plan`.  With every module built, a plan is returned exactly when each required
      port has one composed module that declares it; its port is the value that module put. */
  method MakePlan(uses: seq<Module>, choices: seq<Module>, d: Deployment, builds: Module -> Build,
                  settingsOk: bool, nameOk: bool, gate: seq<Manifest> -> bool,
                  required: seq<Contract>, rolesOk: seq<Manifest> -> bool)
    returns (planned: Option<Ports>, composed: Option<Composed>, ghost runs: map<Module, Run>)
    ensures composed.Some? <==> settingsOk
    ensures var alive := Survivors(Elements(uses), Elements(choices));
            planned.Some? <==>
              && settingsOk && nameOk && Resolvable(uses, choices, d)
              && composed.value.fates == map[] && gate(ManifestsOf(composed.value.plan.order, composed.value.manifests))
              && (forall k :: k in required ==> exists s :: OnlySupplier(alive, k, s))
              && rolesOk(ManifestsOf(composed.value.plan.order, composed.value.manifests))
    ensures composed.Some? && nameOk && Resolvable(uses, choices, d) ==>
              var c := composed.value;
              && PlanFor(uses, choices, c.plan)
              && BuiltOut(Survivors(Elements(uses), Elements(choices)), c.plan, c.fates, c.manifests, c.values)
              && RunsRight(c.plan, |c.plan.order|, c.manifests, c.fates, runs) && AllHeard(c.plan, c.values, runs)
              && AllKept(c.plan, builds, c.fates, c.manifests, c.values, runs)
    ensures planned.Some? ==>
              forall k, s :: OnlySupplier(Survivors(Elements(uses), Elements(choices)), k, s) ==>
                s in runs && k in planned.value.ports && ScriptPuts(s, runs[s].heard, k) == [planned.value.ports[k]]
    ensures planned.Some? ==>
              forall k, s :: OnlySupplier(Survivors(Elements(uses), Elements(choices)), k, s) ==>
                k in planned.value.ports && PutBy(composed.value.values, s, k) == [planned.value.ports[k]]
    ensures planned.Some? ==>
              forall k :: k in planned.value.ports ==> exists s :: OnlySupplier(Survivors(Elements(uses), Elements(choices)), k, s)
    ensures !settingsOk || !nameOk || !Resolvable(uses, choices, d) ==> runs == map[]
  {
    if !settingsOk {
      return None, None, map[];
    }
    var c;
    c, runs := Compose(uses, choices, d, builds, nameOk, gate);
    composed := Some(c);
    if c.answer.None? {
      return None, composed, runs;
    }
    ghost var alive := Survivors(Elements(uses), Elements(choices));
    var dry, unanswered := SelectPorts(c.plan.order, c.values, required);
    forall k
      ensures k in dry.ports <==> exists s :: OnlySupplier(alive, k, s)
      ensures forall s :: k in dry.ports && OnlySupplier(alive, k, s) ==> PutBy(c.values, s, k) == [dry.ports[k]]
    {
      PortsAreDeclared(alive, c.plan, c.manifests, c.values, dry.ports, k);
    }
    forall s | s in alive ensures s in runs && forall k :: PutBy(c.values, s, k) == ScriptPuts(s, runs[s].heard, k) {
      BuiltPutsItsScript(alive, c.plan, builds, c.manifests, c.values, runs, s);
    }
    planned := if unanswered == [] && rolesOk(c.answer.value) then Some(dry) else None;
  }
}
