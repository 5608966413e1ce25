/** `App.resolve`: the declared app answered for one deployment. */
module Resolver {
  import opened Composition
  import opened Options
  import opened ResolutionSpec
  import opened NeedSettling
  import opened Declarations
  import opened Sentences
  import opened BuildOrder

  /** The resolved graph.  `contributors` holds a list per contract somebody living
      contributes to; `from` the supplier of each settled single need. */
  datatype Plan = Plan(
    order: seq<Module>, deps: Graph, from: map<Edge, Module>,
    contributors: map<Contract, seq<Module>>, impl: map<Module, string>, last: Option<Module>)

  // ------------------------------------------------- what the deployment picks

  /** The first implementation picked. */
  function FirstPicked(d: Deployment, impls: seq<Implementation>): (name: Option<string>)
    ensures name.Some? <==> exists i :: 0 <= i < |impls| && Picks(d, impls[i])
  {
    if impls == [] then None else if Picks(d, impls[0]) then Some(impls[0].name) else FirstPicked(d, impls[1..])
  }

  /** The first implementation the environment allows with no named input missing. */
  method PickImplementation(m: Module, impls: seq<Implementation>, d: Deployment)
    returns (name: Option<string>, issue: Option<Issue>)
    ensures name.Some? <==> exists i :: 0 <= i < |impls| && Picks(d, impls[i])
    ensures name.Some? ==> exists i :: 0 <= i < |impls| && Picks(d, impls[i]) && impls[i].name == name.value &&
                                       forall j :: 0 <= j < i ==> !Picks(d, impls[j])
    ensures name == FirstPicked(d, impls)
    ensures issue.Some? <==> name.None?
    ensures issue.Some? ==> Unpicked(d, m, impls, issue.value)
  {
    if |impls| == 0 {
      return None, Some(NoImplementation(m.name));
    }
    var firstMissing := "";
    assert impls[0..] == impls;
    for i := 0 to |impls|
      invariant forall j :: 0 <= j < i ==> !Picks(d, impls[j])
      invariant FirstPicked(d, impls) == FirstPicked(d, impls[i..])
      invariant firstMissing == "" ==> forall j :: 0 <= j < i ==> !Wanted(d, impls[j])
      invariant firstMissing != "" ==> exists w :: FirstWanted(d, impls, w) && firstMissing == FirstUnset(d, impls[w].inputs)
    {
      assert impls[i..][1..] == impls[i + 1..];
      if !Wanted(d, impls[i]) {
        continue;
      }
      var inputs := impls[i].inputs;
      var missing := MissingFrom(d, inputs);
      if missing == "" {
        return Some(impls[i].name), None;
      }
      if firstMissing == "" {
        assert FirstWanted(d, impls, i);
        firstMissing := missing;
      }
    }
    issue := if firstMissing != "" then Some(MissingInput(m.name, firstMissing)) else Some(OnlySimulated(m.name));
    name := None;
  }

  /** The loop over one implementation's inputs. */
  method MissingFrom(d: Deployment, inputs: seq<string>) returns (missing: string)
    ensures missing == FirstUnset(d, inputs)
  {
    missing := "";
    assert inputs[0..] == inputs;
    for j := 0 to |inputs|
      invariant missing == "" && FirstUnset(d, inputs) == FirstUnset(d, inputs[j..])
    {
      assert inputs[j..][1..] == inputs[j + 1..];
      if !InputSet(d, inputs[j]) {
        missing := inputs[j];
        break;
      }
    }
  }

  /** What a module is answered with: the pick of its last FromDeployment that has one. */
  function PickFor(d: Deployment, decls: seq<Declaration>): Option<string> {
    if decls == [] then None
    else
      var dl := decls[|decls| - 1];
      if dl.FromDeployment? && FirstPicked(d, dl.impls).Some? then FirstPicked(d, dl.impls)
      else PickFor(d, decls[..|decls| - 1])
  }

  ghost predicate ImplRight(d: Deployment, impl: map<Module, string>, m: Module) {
    (if m in impl then Some(impl[m]) else None) == PickFor(d, m.decls)
  }

  /** What the first `j` declarations of a module have picked and said. */
  ghost predicate PickedSoFar(d: Deployment, m: Module, impl: map<Module, string>, impl': map<Module, string>, j: nat)
    requires j <= |m.decls|
  {
    var pick := PickFor(d, m.decls[..j]);
    if pick.Some? then impl' == impl[m := pick.value] else impl' == impl
  }

  ghost predicate SaidSoFar(d: Deployment, m: Module, silent: bool, j: nat)
    requires j <= |m.decls|
  {
    silent <==> forall a :: 0 <= a < j && m.decls[a].FromDeployment? ==>
                  exists x :: 0 <= x < |m.decls[a].impls| && Picks(d, m.decls[a].impls[x])
  }

  lemma OneMorePick(d: Deployment, m: Module, impl: map<Module, string>, impl': map<Module, string>, j: nat)
    requires j < |m.decls| && PickedSoFar(d, m, impl, impl', j)
    ensures var name := if m.decls[j].FromDeployment? then FirstPicked(d, m.decls[j].impls) else None;
            PickedSoFar(d, m, impl, if name.Some? then impl'[m := name.value] else impl', j + 1)
  {
    assert m.decls[..j + 1][..j] == m.decls[..j];
  }

  /** One module's FromDeployment declarations. */
  method PickModule(m: Module, d: Deployment, impl: map<Module, string>, issues: seq<Issue>)
    returns (impl': map<Module, string>, issues': seq<Issue>)
    requires m in impl ==> ImplRight(d, impl, m)
    ensures issues <= issues'
    ensures issues' == issues <==> PicksWell(d, m)
    ensures forall issue :: issue in issues' ==> issue in issues || PickFails(d, m, issue)
    ensures ImplRight(d, impl', m) && impl'.Keys <= impl.Keys + {m}
    ensures forall x :: x in impl ==> x in impl' && (x != m ==> impl'[x] == impl[x])
  {
    impl', issues' := impl, issues;
    for j := 0 to |m.decls|
      invariant issues <= issues'
      invariant SaidSoFar(d, m, issues' == issues, j)
      invariant forall issue :: issue in issues' ==> issue in issues || PickFails(d, m, issue)
      invariant PickedSoFar(d, m, impl, impl', j)
    {
      OneMorePick(d, m, impl, impl', j);
      if m.decls[j].FromDeployment? {
        var name, issue := PickImplementation(m, m.decls[j].impls, d);
        if issue.Some? {
          issues' := issues' + [issue.value];
        } else {
          impl' := impl'[m := name.value];
        }
      }
    }
    assert m.decls[..|m.decls|] == m.decls;
  }

  method PickAll(living: seq<Module>, d: Deployment, issues: seq<Issue>)
    returns (impl: map<Module, string>, issues': seq<Issue>)
    ensures issues <= issues'
    ensures issues' == issues <==> forall m :: m in living ==> PicksWell(d, m)
    ensures forall issue :: issue in issues' ==> issue in issues || exists m :: m in living && PickFails(d, m, issue)
    ensures forall m :: m in living ==> ImplRight(d, impl, m)
    ensures forall m :: m in impl ==> m in living
  {
    impl, issues' := map[], issues;
    for i := 0 to |living|
      invariant issues <= issues'
      invariant issues' == issues <==> forall a :: 0 <= a < i ==> PicksWell(d, living[a])
      invariant forall issue :: issue in issues' ==> issue in issues || exists m :: m in living && PickFails(d, m, issue)
      invariant forall m :: m in impl ==> m in living && ImplRight(d, impl, m)
      invariant forall a :: 0 <= a < i ==> ImplRight(d, impl, living[a])
    {
      impl, issues' := PickModule(living[i], d, impl, issues');
    }
  }

  // ---------------------------------------------------- contributors and the graph

  /** One entry per Contributes a module declares, in declaration order. */
  function Copies(m: Module, decls: seq<Declaration>, k: Contract): (r: seq<Module>)
    ensures forall x :: x in r <==> x == m && Contributes(k) in decls
  {
    if decls == [] then []
    else
      assert decls == decls[..|decls| - 1] + [decls[|decls| - 1]];
      Copies(m, decls[..|decls| - 1], k) + if decls[|decls| - 1] == Contributes(k) then [m] else []
  }

  function ContributorList(living: seq<Module>, k: Contract): (r: seq<Module>)
    ensures forall m :: m in r <==> m in living && Contributes(k) in m.decls
  {
    if living == [] then []
    else
      var rest, m := living[..|living| - 1], living[|living| - 1];
      assert living == rest + [m];
      ContributorList(rest, k) + Copies(m, m.decls, k)
  }

  /** Contributors are listed in the order they stand in Use. */
  lemma {:induction false} ContributorsInOrder(living: seq<Module>, k: Contract)
    ensures InOrderOf(ContributorList(living, k), living)
  {
    if living != [] {
      var rest, m := living[..|living| - 1], living[|living| - 1];
      assert living == rest + [m];
      ContributorsInOrder(rest, k);
      InOrderAppend(ContributorList(rest, k), rest, m, Copies(m, m.decls, k));
    }
  }

  lemma {:induction false} OutsideInOrder(lives: seq<Module>, dead: set<Module>)
    ensures InOrderOf(Outside(lives, dead), lives)
  {
    if lives != [] {
      var rest, m := lives[..|lives| - 1], lives[|lives| - 1];
      assert lives == rest + [m];
      OutsideInOrder(rest, dead);
      InOrderAppend(Outside(rest, dead), rest, m, if m !in dead then [m] else []);
    }
  }

  lemma InOrderTwice<T>(list: seq<T>, s: seq<T>, r: seq<T>)
    requires InOrderOf(list, s) && InOrderOf(s, r)
    ensures InOrderOf(list, r)
  {
    forall i, j | 0 <= i <= j < |list| ensures NotAfter(r, list[i], list[j]) {
      assert NotAfter(s, list[i], list[j]);
      var a, b :| 0 <= a <= b < |s| && s[a] == list[i] && s[b] == list[j];
      assert NotAfter(r, s[a], s[b]);
    }
  }

  /** When no module repeats itself, every contributor is listed exactly once. */
  lemma {:induction false} ContributorsListedOnce(living: seq<Module>, k: Contract)
    requires NoDup(living) && forall m :: m in living ==> NoRepeats(m)
    ensures NoDup(ContributorList(living, k))
  {
    if living != [] {
      var rest, m := living[..|living| - 1], living[|living| - 1];
      assert living == rest + [m];
      ContributorsListedOnce(rest, k);
      OneCopy(m, |m.decls|, k);
      assert m.decls[..|m.decls|] == m.decls;
      assert m !in rest;
      var a, b := ContributorList(rest, k), Copies(m, m.decls, k);
      if b != [] {
        assert b == [b[0]] && b[0] in b;
        NoDupAppend(a, m);
      }
    }
  }

  lemma {:induction false} OneCopy(m: Module, n: nat, k: Contract)
    requires n <= |m.decls| && NoRepeats(m)
    ensures |Copies(m, m.decls[..n], k)| <= 1
  {
    if n > 0 {
      var decls := m.decls[..n];
      assert decls[..n - 1] == m.decls[..n - 1] && decls[n - 1] == m.decls[n - 1];
      OneCopy(m, n - 1, k);
      if m.decls[n - 1] == Contributes(k) {
        assert Contributes(k) !in m.decls[..n - 1];
        NoCopies(m, m.decls[..n - 1], k);
      }
    }
  }

  lemma {:induction false} NoCopies(m: Module, decls: seq<Declaration>, k: Contract)
    requires Contributes(k) !in decls
    ensures Copies(m, decls, k) == []
  {
    if decls != [] { NoCopies(m, decls[..|decls| - 1], k); }
  }

  function Get<K, V>(m: map<K, seq<V>>, k: K): seq<V> {
    if k in m then m[k] else []
  }

  lemma CopiesStep(m: Module, j: nat, k: Contract)
    requires j < |m.decls|
    ensures Copies(m, m.decls[..j + 1], k) == Copies(m, m.decls[..j], k) + if m.decls[j] == Contributes(k) then [m] else []
  {
    assert m.decls[..j + 1][..j] == m.decls[..j];
  }

  lemma OneMoreCopy(m: Module, j: nat, k: Contract, base: seq<Module>, was: seq<Module>, now: seq<Module>)
    requires j < |m.decls| && was == base + Copies(m, m.decls[..j], k)
    requires now == was + if m.decls[j] == Contributes(k) then [m] else []
    ensures now == base + Copies(m, m.decls[..j + 1], k)
  {
    CopiesStep(m, j, k);
  }

  method AddContributions(m: Module, contributors: map<Contract, seq<Module>>)
    returns (contributors': map<Contract, seq<Module>>)
    ensures forall k :: Get(contributors', k) == Get(contributors, k) + Copies(m, m.decls, k)
  {
    contributors' := contributors;
    for j := 0 to |m.decls|
      invariant forall k :: Get(contributors', k) == Get(contributors, k) + Copies(m, m.decls[..j], k)
    {
      var dl := m.decls[j];
      ghost var was := contributors';
      if dl.Contributes? {
        contributors' := contributors'[dl.key := Get(contributors', dl.key) + [m]];
      }
      forall k ensures Get(contributors', k) == Get(contributors, k) + Copies(m, m.decls[..j + 1], k) {
        OneMoreCopy(m, j, k, Get(contributors, k), Get(was, k), Get(contributors', k));
      }
    }
    assert m.decls[..|m.decls|] == m.decls;
  }

  /** Contributors, read off the survivors in Use order. */
  method ReadContributors(living: seq<Module>) returns (contributors: map<Contract, seq<Module>>)
    ensures forall k :: Get(contributors, k) == ContributorList(living, k)
  {
    contributors := map[];
    for i := 0 to |living|
      invariant forall k :: Get(contributors, k) == ContributorList(living[..i], k)
    {
      assert living[..i + 1][..i] == living[..i];
      contributors := AddContributions(living[i], contributors);
    }
    assert living[..|living|] == living;
  }

  /** One reason `m` is built after `c`, as `order` and `cycleReasons` both read it. */
  predicate Reason(from: map<Edge, Module>, contributors: map<Contract, seq<Module>>, m: Module, dl: Declaration, c: Module) {
    || (SingleNeed(dl) && Edge(m, dl.key) in from && from[Edge(m, dl.key)] == c)
    || (ManyNeed(dl) && c in Get(contributors, dl.key))
  }

  ghost predicate HasReason(from: map<Edge, Module>, contributors: map<Contract, seq<Module>>, m: Module, c: Module) {
    exists dl :: dl in m.decls && Reason(from, contributors, m, dl, c)
  }

  ghost predicate DepsRight(list: seq<Module>, m: Module, lives: seq<Module>, from: map<Edge, Module>, contributors: map<Contract, seq<Module>>) {
    forall c :: c in list <==> c in lives && c != m && HasReason(from, contributors, m, c)
  }

  method DepsOf(m: Module, lives: seq<Module>, from: map<Edge, Module>, contributors: map<Contract, seq<Module>>)
    returns (list: seq<Module>)
    ensures DepsRight(list, m, lives, from, contributors)
  {
    var d: set<Module> := {};
    for i := 0 to |m.decls|
      invariant forall c :: c in d <==> c != m && exists j :: 0 <= j < i && Reason(from, contributors, m, m.decls[j], c)
    {
      var dl := m.decls[i];
      if SingleNeed(dl) {
        if Edge(m, dl.key) in from && from[Edge(m, dl.key)] != m {
          d := d + {from[Edge(m, dl.key)]};
        }
      } else if ManyNeed(dl) {
        d := d + (Elements(Get(contributors, dl.key)) - {m});
      }
    }
    list := Within(lives, d);
  }

  method DependencyGraph(lives: seq<Module>, dead: set<Module>, from: map<Edge, Module>, contributors: map<Contract, seq<Module>>)
    returns (g: Graph)
    requires NoDup(lives)
    ensures GraphOver(g, lives, dead)
    ensures forall m :: m in g ==> DepsRight(g[m], m, lives, from, contributors)
  {
    g := map[];
    for i := 0 to |lives|
      invariant forall m :: m in g <==> m in lives[..i] && m !in dead
      invariant forall m :: m in g ==> DepsRight(g[m], m, lives, from, contributors)
    {
      assert lives[..i + 1] == lives[..i] + [lives[i]];
      if lives[i] !in dead {
        var list := DepsOf(lives[i], lives, from, contributors);
        g := g[lives[i] := list];
      }
    }
    assert lives[..|lives|] == lives;
  }

  datatype Verb = NeedsOne | UsesOne | TakesAll

  /** What one reason says: two declarations can say the same thing. */
  datatype Sentence = Sentence(verb: Verb, spelling: string)

  function Says(dl: Declaration): Sentence
    requires dl.Needs? || dl.Optional?
  {
    Sentence(if dl.many then TakesAll else if dl.Needs? then NeedsOne else UsesOne, dl.key.spelling)
  }

  /** The words for a hard need, an optional one and one that takes every contribution. */
  lemma ReasonsInWords(k: Contract)
    ensures Says(Needs(k, false)) == Sentence(NeedsOne, k.spelling)
    ensures Says(Optional(k, false)) == Sentence(UsesOne, k.spelling)
    ensures Says(Needs(k, true)) == Says(Optional(k, true)) == Sentence(TakesAll, k.spelling)
  {
  }

  ghost predicate Said(from: map<Edge, Module>, contributors: map<Contract, seq<Module>>,
                       consumer: Module, supplier: Module, decls: seq<Declaration>, says: Sentence) {
    exists dl :: dl in decls && Reason(from, contributors, consumer, dl, supplier) && Says(dl) == says
  }

  /** The reasons behind one edge of a cycle: at least one, all of them, each said once. */
  ghost predicate EdgeExplained(reasons: seq<Sentence>, from: map<Edge, Module>, contributors: map<Contract, seq<Module>>,
                                consumer: Module, supplier: Module) {
    && reasons != [] && NoDup(reasons)
    && forall says :: says in reasons <==> Said(from, contributors, consumer, supplier, consumer.decls, says)
  }

  /** Every edge of a reported cycle is explained by the plan's own wiring. */
  ghost predicate CycleExplained(reasons: seq<seq<Sentence>>, p: Plan, walk: seq<Module>) {
    && |reasons| == |walk| - 1 && |walk| >= 2
    && forall i :: 0 <= i < |reasons| ==> EdgeExplained(reasons[i], p.from, p.contributors, walk[i], walk[i + 1])
  }

  method EdgeReasons(from: map<Edge, Module>, contributors: map<Contract, seq<Module>>, consumer: Module, supplier: Module)
    returns (reasons: seq<Sentence>)
    requires HasReason(from, contributors, consumer, supplier)
    ensures EdgeExplained(reasons, from, contributors, consumer, supplier)
  {
    reasons := [];
    for j := 0 to |consumer.decls|
      invariant NoDup(reasons)
      invariant forall says :: says in reasons <==> Said(from, contributors, consumer, supplier, consumer.decls[..j], says)
    {
      var dl := consumer.decls[j];
      assert consumer.decls[..j + 1] == consumer.decls[..j] + [dl];
      if Reason(from, contributors, consumer, dl, supplier) && Says(dl) !in reasons {
        NoDupAppend(reasons, Says(dl));
        reasons := reasons + [Says(dl)];
      }
    }
    assert consumer.decls[..|consumer.decls|] == consumer.decls;
    var dl :| dl in consumer.decls && Reason(from, contributors, consumer, dl, supplier);
    assert Says(dl) in reasons;
  }

  /** Explains every edge of a cycle. */
  method CycleReasons(g: Graph, lives: seq<Module>, from: map<Edge, Module>, contributors: map<Contract, seq<Module>>, cycle: seq<Module>)
    returns (edges: seq<seq<Sentence>>)
    requires Cycle(g, cycle)
    requires forall m :: m in g ==> DepsRight(g[m], m, lives, from, contributors)
    ensures |edges| == |cycle| - 1
    ensures forall i :: 0 <= i < |edges| ==> EdgeExplained(edges[i], from, contributors, cycle[i], cycle[i + 1])
  {
    edges := [];
    for i := 0 to |cycle| - 1
      invariant |edges| == i
      invariant forall a :: 0 <= a < i ==> EdgeExplained(edges[a], from, contributors, cycle[a], cycle[a + 1])
    {
      assert cycle[i + 1] in Deps(g, cycle[i]);
      var reasons := EdgeReasons(from, contributors, cycle[i], cycle[i + 1]);
      edges := edges + [reasons];
    }
  }

  // -------------------------------------------------------------- the whole answer

  ghost predicate ChoicesStand(uses: seq<Module>, choices: seq<Module>) {
    UniqueNames(uses) && forall c :: c in choices ==> c in uses && Contested(Elements(uses), c)
  }

  ghost predicate DeclarationsStand(lives: seq<Module>) {
    && (forall m :: m in lives ==> SaysItStraight(m))
    && (forall a, b :: RunsLast(Elements(lives), a) && RunsLast(Elements(lives), b) ==> a == b)
    && (forall k :: !BothWays(lives, k))
  }

  /** What the phases before the sweep ask of an app. */
  ghost predicate Prepared(uses: seq<Module>, choices: seq<Module>) {
    ChoicesStand(uses, choices) && DeclarationsStand(uses)
  }

  /** One module may run after everything; the others that ask are refused. */
  method SettleTheLast(lives: seq<Module>, issues: seq<Issue>)
    returns (last: Option<Module>, refused: set<Module>, issues': seq<Issue>)
    requires NoDup(lives)
    ensures issues <= issues' && refused <= Elements(lives)
    ensures forall m :: m in refused ==> Traced(m, issues')
    ensures issues' == issues <==> forall a, b :: RunsLast(Elements(lives), a) && RunsLast(Elements(lives), b) ==> a == b
    ensures issues' == issues ==> refused == {} && forall m :: last == Some(m) <==> RunsLast(Elements(lives), m)
    ensures last.Some? ==> RunsLast(Elements(lives), last.value) && FirstAsks(lives, last.value)
    ensures forall m :: m in refused <==> RunsLast(Elements(lives), m) && last != Some(m)
    ensures issues' == issues || exists afters :: LastAsk(lives, afters) && issues' == issues + [ManyRunLast(afters)]
  {
    var afters := ThoseThatRunLast(lives);
    last, refused, issues' := None, {}, issues;
    if |afters| > 0 {
      assert afters[0] in afters;
      last := Some(afters[0]);
    }
    if |afters| > 1 {
      assert afters[1] in afters && afters[0] != afters[1];
      assert LastAsk(lives, afters);
      assert afters == [afters[0]] + afters[1..];
      issues' := issues + [ManyRunLast(afters)];
      refused := Elements(afters[1..]);
      forall m | m in refused ensures Traced(m, issues') && m in lives {
        TraceSelf(m, ManyRunLast(afters), issues');
      }
    } else {
      assert forall a :: a in afters ==> a == afters[0];
    }
  }

  /** A sentence about what Use and Choose name. */
  ghost predicate UsedWrong(uses: seq<Module>, choices: seq<Module>, lives: seq<Module>, issue: Issue) {
    RepeatedName(uses, issue) || exists c :: c in choices && IdleChoice(lives, c, issue)
  }

  method NameAndChoose(uses: seq<Module>, choices: seq<Module>, issues: seq<Issue>)
    returns (lives: seq<Module>, chosen: set<Module>, issues': seq<Issue>)
    ensures lives == FirstOfName(uses) && chosen == Elements(choices) * Elements(lives)
    ensures UniqueNames(lives) && issues <= issues'
    ensures forall issue :: issue in issues' ==> issue in issues || UsedWrong(uses, choices, lives, issue)
    ensures ChoicesStand(uses, choices) <==> issues' == issues
    ensures ChoicesStand(uses, choices) ==> lives == uses
  {
    FirstOfNameUnique(uses);
    var named;
    lives, named := UseOnce(uses, issues);
    chosen, issues' := ReadChoices(lives, choices, named);
    assert issues' == issues + Since(named, |issues|) + Since(issues', |named|);
  }

  /** A sentence about what the modules declare. */
  ghost predicate DeclaredWrong(lives: seq<Module>, mixed: set<Contract>, issue: Issue) {
    || (exists m :: m in lives && Misspeaks(m, issue))
    || (exists afters :: LastAsk(lives, afters) && issue == ManyRunLast(afters))
    || (exists k :: k in mixed && issue == Mixed(k.spelling))
  }

  lemma SweptWrong(lives: seq<Module>, mixed: set<Contract>, issues: seq<Issue>, swept: seq<Issue>, issue: Issue)
    requires issues <= swept && SaysWhoMisspeaks(lives, Since(swept, |issues|)) && issue in swept
    ensures issue in issues || DeclaredWrong(lives, mixed, issue)
  {
    assert swept == issues + Since(swept, |issues|);
  }

  method ReadDeclarations(lives: seq<Module>, issues: seq<Issue>)
    returns (last: Option<Module>, refused: set<Module>, mixed: set<Contract>, issues': seq<Issue>)
    requires NoDup(lives)
    ensures issues <= issues' && refused <= Elements(lives)
    ensures forall m :: m in refused ==> Traced(m, issues')
    ensures forall k :: k in mixed ==> Mixed(k.spelling) in issues'
    ensures last.Some? ==> RunsLast(Elements(lives), last.value) && FirstAsks(lives, last.value)
    ensures forall m :: m in refused <==> RunsLast(Elements(lives), m) && last != Some(m)
    ensures forall k :: k in mixed ==> BothWays(lives, k)
    ensures forall issue :: issue in issues' ==> issue in issues || DeclaredWrong(lives, mixed, issue)
    ensures DeclarationsStand(lives) ==> issues' == issues && refused == {}
    ensures DeclarationsStand(lives) ==> forall m :: last == Some(m) <==> RunsLast(Elements(lives), m)
    ensures issues' == [] ==> DeclarationsStand(lives)
  {
    var swept := SweepDeclarations(lives, issues);
    var settled;
    last, refused, settled := SettleTheLast(lives, swept);
    mixed, issues' := MixedContracts(lives, settled);
    forall issue | issue in issues' ensures issue in issues || DeclaredWrong(lives, mixed, issue) {
      if issue in swept { SweptWrong(lives, mixed, issues, swept, issue); }
    }
    TracesKept(refused, settled, issues');
  }

  lemma OpeningIs(uses: seq<Module>, choices: seq<Module>, lives: seq<Module>, mixed: set<Contract>, issue: Issue)
    requires UsedWrong(uses, choices, lives, issue) || DeclaredWrong(lives, mixed, issue)
    requires forall k :: k in mixed ==> BothWays(lives, k)
    ensures Opening(uses, choices, lives, issue) && (issue.Mixed? ==> exists k :: k in mixed && k.spelling == issue.spelling)
  {
    if m :| m in lives && Misspeaks(m, issue) {
      assert issue.Contradiction? || issue.SaidTwice?;
    }
  }

  /** A sentence of the opening owes the sweep nothing. */
  lemma OpeningIsOwed(uses: seq<Module>, choices: seq<Module>, sc: Scene, dead: set<Module>, issue: Issue)
    requires issue == NotAnEnvironment || Opening(uses, choices, sc.lives, issue)
    requires issue.Mixed? ==> exists k :: k in sc.mixed && k.spelling == issue.spelling
    ensures Owed(sc, dead, issue)
  {
  }

  /** Nothing is said but this, and what the phases before the sweep say. */
  ghost predicate Opened(uses: seq<Module>, choices: seq<Module>, lives: seq<Module>, issues: seq<Issue>, issues': seq<Issue>) {
    forall issue :: issue in issues' ==> issue in issues || Opening(uses, choices, lives, issue)
  }

  method Prepare(uses: seq<Module>, choices: seq<Module>, issues: seq<Issue>) returns (sc: Scene, st: State)
    requires forall issue :: issue in issues ==> issue == NotAnEnvironment
    ensures SceneIs(sc) && Inv(sc, st)
    ensures sc.lives == FirstOfName(uses) && sc.chosen == Elements(choices) * Elements(sc.lives)
    ensures issues <= st.issues && Opened(uses, choices, sc.lives, issues, st.issues)
    ensures st.issues == [] ==> Prepared(uses, choices)
    ensures Prepared(uses, choices) ==> st.issues == issues && st.refused == {} && Staged(uses, choices, sc)
  {
    var lives, chosen, chose := NameAndChoose(uses, choices, issues);
    var withdrawn, surviving := Withdraw(lives, chosen);
    var last, refused, mixed, said := ReadDeclarations(lives, chose);
    sc := Scene(lives, chosen, withdrawn, surviving, mixed, last);
    st := State(withdrawn + refused, refused, map[], said);
    forall issue | issue in said && issue !in issues
      ensures Opening(uses, choices, lives, issue) && Owed(sc, st.dead, issue)
    {
      OpeningIs(uses, choices, lives, mixed, issue);
      OpeningIsOwed(uses, choices, sc, st.dead, issue);
    }
  }

  // --------------------------------------------- what a settled scene amounts to

  ghost predicate AllSettled(sc: Scene, st: State) {
    SceneOk(sc) && Inv(sc, st) && forall m :: m in Alive(sc, st) ==> ModuleSettled(sc, st, m)
  }

  /** A living module's single need is wired exactly to the living supplier. */
  lemma WiredToTheSupplier(sc: Scene, st: State, m: Module, k: Contract)
    requires AllSettled(sc, st) && m in Alive(sc, st) && TakesOne(m, k)
    ensures Edge(m, k) in st.from ==> OnlySupplier(Alive(sc, st), k, st.from[Edge(m, k)])
    ensures Edge(m, k) !in st.from ==> Needs(k, false) !in m.decls && forall s :: s in Alive(sc, st) ==> !Supplies(s, k)
  {
    assert NeedsSettled(sc, st, m);
    if Needs(k, false) in m.decls { assert EdgeSettled(sc, st, m, Needs(k, false)); }
    if Optional(k, false) in m.decls { assert EdgeSettled(sc, st, m, Optional(k, false)); }
    if Edge(m, k) in st.from { assert WiredWell(sc, st, Edge(m, k), st.from[Edge(m, k)]); }
  }

  /** With nobody refused, a settled scene is a clean one. */
  lemma SettledIsClean(sc: Scene, st: State)
    requires AllSettled(sc, st) && st.refused == {}
    ensures Clean(sc)
  {
    QuietIsSurvival(sc, st, st.issues);
    var alive := Alive(sc, st);
    forall m | m in alive ensures NeedsAnswered(alive, m) {
      forall k | Needs(k, false) in m.decls ensures exists s :: OnlySupplier(alive, k, s) {
        WiredToTheSupplier(sc, st, m, k);
      }
      forall k | Optional(k, false) in m.decls ensures AtMostOneSupplier(alive, k) {
        WiredToTheSupplier(sc, st, m, k);
      }
    }
    forall m | m in alive && sc.last.Some? && m != sc.last.value ensures ClearOfTheLast(alive, sc.last.value, m) {
      ClearOf(sc, st, m);
    }
  }

  lemma ClearOf(sc: Scene, st: State, m: Module)
    requires AllSettled(sc, st) && m in Alive(sc, st) && sc.last.Some? && m != sc.last.value
    ensures ClearOfTheLast(Alive(sc, st), sc.last.value, m)
  {
    var last := sc.last.value;
    assert ClearlyFirst(sc, st, m);
    forall k | TakesEvery(m, k) ensures Contributes(k) !in last.decls {
      assert !ReadsTheLast(st.from, last, m, Needs(k, true)) || !ReadsTheLast(st.from, last, m, Optional(k, true));
    }
    forall k | TakesOne(m, k) && last in Alive(sc, st) ensures !Supplies(last, k) {
      WiredToTheSupplier(sc, st, m, k);
      assert !ReadsTheLast(st.from, last, m, Needs(k, false)) || !ReadsTheLast(st.from, last, m, Optional(k, false));
    }
  }

  lemma OneReason(sc: Scene, st: State, m: Module, dl: Declaration, c: Module)
    requires AllSettled(sc, st) && m in Alive(sc, st) && dl in m.decls && SingleNeed(dl) && c != m
    requires Edge(m, dl.key) in st.from && st.from[Edge(m, dl.key)] == c
    ensures DependsOn(Alive(sc, st), m, c)
  {
    assert TakesOne(m, dl.key);
    WiredToTheSupplier(sc, st, m, dl.key);
  }

  /** The wiring and the contributor lists give each living module exactly its
      dependencies. */
  lemma ReasonsAreDependencies(sc: Scene, st: State, contributors: map<Contract, seq<Module>>, m: Module, c: Module)
    requires AllSettled(sc, st) && m in Alive(sc, st)
    requires forall k :: Get(contributors, k) == ContributorList(Outside(sc.lives, st.dead), k)
    ensures c in sc.lives && c != m && HasReason(st.from, contributors, m, c) ==> DependsOn(Alive(sc, st), m, c)
  {
    if c in sc.lives && c != m && HasReason(st.from, contributors, m, c) {
      var dl :| dl in m.decls && Reason(st.from, contributors, m, dl, c);
      if SingleNeed(dl) {
        OneReason(sc, st, m, dl, c);
      } else {
        assert TakesEvery(m, dl.key) && c in ContributorList(Outside(sc.lives, st.dead), dl.key);
      }
    }
  }

  lemma DependenciesHaveReasons(sc: Scene, st: State, contributors: map<Contract, seq<Module>>, m: Module, c: Module)
    requires AllSettled(sc, st) && m in Alive(sc, st)
    requires forall k :: Get(contributors, k) == ContributorList(Outside(sc.lives, st.dead), k)
    ensures DependsOn(Alive(sc, st), m, c) ==> c in sc.lives && c != m && HasReason(st.from, contributors, m, c)
  {
    if DependsOn(Alive(sc, st), m, c) {
      var k :| (TakesOne(m, k) && Supplies(c, k)) || (TakesEvery(m, k) && Contributes(k) in c.decls);
      if TakesOne(m, k) && Supplies(c, k) {
        WiredToTheSupplier(sc, st, m, k);
        var dl := if Needs(k, false) in m.decls then Needs(k, false) else Optional(k, false);
        assert dl in m.decls && Reason(st.from, contributors, m, dl, c);
      } else {
        assert c in ContributorList(Outside(sc.lives, st.dead), k);
        var dl := if Needs(k, true) in m.decls then Needs(k, true) else Optional(k, true);
        assert dl in m.decls && Reason(st.from, contributors, m, dl, c);
      }
    }
  }

  /** The graph is the dependency relation, and nothing in it waits for the dead or
      for the module that runs last. */
  lemma GraphIsDependency(sc: Scene, st: State, contributors: map<Contract, seq<Module>>, g: Graph)
    requires AllSettled(sc, st)
    requires forall k :: Get(contributors, k) == ContributorList(Outside(sc.lives, st.dead), k)
    requires GraphOver(g, sc.lives, st.dead)
    requires forall m :: m in g ==> DepsRight(g[m], m, sc.lives, st.from, contributors)
    ensures forall m, c :: c in Deps(g, m) <==> DependsOn(Alive(sc, st), m, c)
  {
    forall m, c ensures c in Deps(g, m) <==> DependsOn(Alive(sc, st), m, c) {
      if m in g {
        ReasonsAreDependencies(sc, st, contributors, m, c);
        DependenciesHaveReasons(sc, st, contributors, m, c);
      }
    }
  }

  lemma GraphIsSettled(sc: Scene, st: State, g: Graph)
    requires AllSettled(sc, st)
    requires forall m, c :: c in Deps(g, m) <==> DependsOn(Alive(sc, st), m, c)
    ensures Settled(g, sc.lives, st.dead, sc.last)
  {
    forall m, c | m in g && c in g[m] ensures Living(sc.lives, st.dead, c) && Some(c) != sc.last {
      assert c in Deps(g, m);
      NobodyWaitsForTheLast(sc, st, m, c);
    }
  }

  lemma NobodyWaitsForTheLast(sc: Scene, st: State, m: Module, c: Module)
    requires AllSettled(sc, st) && DependsOn(Alive(sc, st), m, c)
    ensures c in Alive(sc, st) && Some(c) != sc.last
  {
    if sc.last == Some(c) { ClearOf(sc, st, m); }
  }

  lemma CycleIsClosedWalk(alive: set<Module>, g: Graph, walk: seq<Module>)
    requires forall m, c :: c in Deps(g, m) <==> DependsOn(alive, m, c)
    requires Cycle(g, walk)
    ensures ClosedWalk(alive, walk)
  {
  }

  lemma GroundedIsExtension(alive: set<Module>, g: Graph, out: seq<Module>)
    requires forall m, c :: c in Deps(g, m) <==> DependsOn(alive, m, c)
    requires NoDup(out) && Grounded(g, out) && forall m :: m in out <==> m in alive
    ensures LinearExtension(alive, out)
  {
    forall i, c | 0 <= i < |out| && DependsOn(alive, out[i], c) ensures Before(out, i, c) {
      assert c in Deps(g, out[i]);
    }
  }

  /** Over unique names, the phases and a clean scene together are `Answerable`. */
  lemma AnswerableIs(uses: seq<Module>, choices: seq<Module>, sc: Scene)
    requires Prepared(uses, choices) && Staged(uses, choices, sc)
    ensures Answerable(Elements(uses), Elements(choices)) <==> Clean(sc)
  {
    var used := Elements(uses);
    forall a, b, k | a in used && b in used && Provides(k) in a.decls ensures Contributes(k) !in b.decls {
      assert !BothWays(uses, k);
    }
  }

  lemma AnswerableIsPrepared(uses: seq<Module>, choices: seq<Module>)
    requires UniqueNames(uses) && Answerable(Elements(uses), Elements(choices))
    ensures Prepared(uses, choices)
  {
    assert forall c :: c in choices ==> c in Elements(choices);
    forall k ensures !BothWays(uses, k) {
      assert forall a, b :: a in uses && b in uses && Provides(k) in a.decls ==>
          a in Elements(uses) && b in Elements(uses) && Contributes(k) !in b.decls;
    }
  }

  // ------------------------------------------------------------- the promise kept

  /** What a resolved plan is, in terms of the declared app alone. */
  ghost predicate PlanFor(uses: seq<Module>, choices: seq<Module>, p: Plan) {
    var used := Elements(uses);
    var alive := Survivors(used, Elements(choices));
    && LinearExtension(alive, p.order)
    && (forall m :: p.last == Some(m) <==> RunsLast(used, m))
    && (p.last.Some? && p.last.value in alive ==> p.order != [] && p.order[|p.order| - 1] == p.last.value)
    && (forall m, c :: c in Deps(p.deps, m) <==> DependsOn(alive, m, c))
    && (forall m, k :: m in alive && TakesOne(m, k) ==> WiringRight(alive, p.from, m, k))
    && (forall k :: ListedRight(alive, Get(p.contributors, k), k) && InOrderOf(Get(p.contributors, k), uses))
  }

  /** The need is wired to its one living supplier, or nothing living supplies it. */
  ghost predicate WiringRight(alive: set<Module>, from: map<Edge, Module>, m: Module, k: Contract) {
    if Edge(m, k) in from then OnlySupplier(alive, k, from[Edge(m, k)])
    else Needs(k, false) !in m.decls && forall s :: s in alive ==> !Supplies(s, k)
  }

  ghost predicate ListedRight(alive: set<Module>, list: seq<Module>, k: Contract) {
    NoDup(list) && forall c :: c in list <==> c in alive && Contributes(k) in c.decls
  }

  lemma SameWiring(alive: set<Module>, from: map<Edge, Module>, from': map<Edge, Module>, m: Module, k: Contract)
    requires WiringRight(alive, from, m, k) && WiringRight(alive, from', m, k)
    ensures Edge(m, k) in from <==> Edge(m, k) in from'
    ensures Edge(m, k) in from ==> from[Edge(m, k)] == from'[Edge(m, k)]
  {
  }

  /** Two plans of one app, however Use and Choose were ordered, build the same modules,
      the same one last, wire every living single need to the same supplier, take the same
      contributors and depend alike; only the order of independent modules may differ. */
  lemma SamePlanWhateverOrder(uses: seq<Module>, uses': seq<Module>, choices: seq<Module>, choices': seq<Module>,
                              d: Deployment, p: Plan, q: Plan)
    requires multiset(uses) == multiset(uses') && Elements(choices) == Elements(choices')
    requires PlanFor(uses, choices, p) && PlanFor(uses', choices', q)
    ensures Elements(p.order) == Elements(q.order) && p.last == q.last
    ensures forall m, k :: m in p.order && TakesOne(m, k) ==>
      (Edge(m, k) in p.from <==> Edge(m, k) in q.from) && (Edge(m, k) in p.from ==> p.from[Edge(m, k)] == q.from[Edge(m, k)])
    ensures forall k :: Elements(Get(p.contributors, k)) == Elements(Get(q.contributors, k))
    ensures forall m :: Elements(Deps(p.deps, m)) == Elements(Deps(q.deps, m))
  {
    OrderIndependence(uses, uses', choices, choices', d);
    SameElements(uses, uses');
    var alive := Survivors(Elements(uses), Elements(choices));
    forall m, k | m in p.order && TakesOne(m, k)
      ensures (Edge(m, k) in p.from <==> Edge(m, k) in q.from) && (Edge(m, k) in p.from ==> p.from[Edge(m, k)] == q.from[Edge(m, k)])
    {
      assert m in Elements(p.order);
      SameWiring(alive, p.from, q.from, m, k);
    }
    forall k ensures Elements(Get(p.contributors, k)) == Elements(Get(q.contributors, k)) {
      assert ListedRight(alive, Get(p.contributors, k), k) && ListedRight(alive, Get(q.contributors, k), k);
    }
    forall m ensures Elements(Deps(p.deps, m)) == Elements(Deps(q.deps, m)) {
      assert forall c :: c in Deps(p.deps, m) <==> c in Deps(q.deps, m);
    }
    if p.last.Some? { assert RunsLast(Elements(uses'), p.last.value); }
    if q.last.Some? { assert RunsLast(Elements(uses), q.last.value); }
  }

  /** And Use order breaks the ties: there is one build order to answer with. */
  lemma OneBuildOrder(uses: seq<Module>, choices: seq<Module>, p: Plan, q: Plan)
    requires NoDup(uses) && PlanFor(uses, choices, p) && PlanFor(uses, choices, q)
    requires Queue(p.deps, uses, p.order, p.last) && Queue(q.deps, uses, q.order, q.last)
    ensures p.order == q.order && p.last == q.last
  {
    var alive := Survivors(Elements(uses), Elements(choices));
    if p.last.Some? { assert RunsLast(Elements(uses), p.last.value); }
    if q.last.Some? { assert RunsLast(Elements(uses), q.last.value); }
    SameQueue(q.deps, p.deps, uses, q.order, q.last);
    OneOrder(p.deps, uses, p.order, q.order, p.last);
  }

  lemma SameElements(a: seq<Module>, b: seq<Module>)
    requires multiset(a) == multiset(b)
    ensures Elements(a) == Elements(b)
  {
    forall m ensures m in a <==> m in b {
      assert m in a <==> m in multiset(a);
      assert m in b <==> m in multiset(b);
    }
  }

  /** Every composed module is built, was withdrawn by a choice, or is answered for by
      a recorded sentence: its own, one at the end of a chain of needs, or a cycle. */
  ghost predicate AccountedFor(lives: seq<Module>, chosen: set<Module>, order: seq<Module>, issues: seq<Issue>, m: Module) {
    || m in order
    || m in Withdrawn(Elements(lives), chosen)
    || Traced(m, issues)
    || exists walk :: Cyclic(walk) in issues && ClosedWalk(Elements(lives), walk)
  }

  /** What preparing a sound app leaves for the sweep to read. */
  ghost predicate Staged(uses: seq<Module>, choices: seq<Module>, sc: Scene) {
    && sc.lives == uses && sc.chosen == Elements(choices)
    && forall m :: sc.last == Some(m) <==> RunsLast(Elements(uses), m)
  }

  lemma AnswerableIsClean(uses: seq<Module>, choices: seq<Module>, sc: Scene)
    requires UniqueNames(uses) && Answerable(Elements(uses), Elements(choices))
    requires Prepared(uses, choices) ==> Staged(uses, choices, sc)
    ensures Prepared(uses, choices) && Clean(sc)
  {
    AnswerableIsPrepared(uses, choices);
    AnswerableIs(uses, choices, sc);
  }

  lemma SilenceIsAnswerable(uses: seq<Module>, choices: seq<Module>, sc: Scene, st: State)
    requires AllSettled(sc, st) && st.issues == []
    requires Prepared(uses, choices) && Staged(uses, choices, sc)
    ensures UniqueNames(uses) && Answerable(Elements(uses), Elements(choices))
    ensures Alive(sc, st) == Survivors(Elements(uses), Elements(choices))
  {
    NobodyRefused(sc, st);
    SettledIsClean(sc, st);
    QuietIsSurvival(sc, st, []);
    AnswerableIs(uses, choices, sc);
  }

  /** Everything said so far is the opening's or the sweep's, and has its reason. */
  ghost predicate SweptUp(uses: seq<Module>, choices: seq<Module>, sc: Scene, st: State, issues: seq<Issue>) {
    forall issue :: issue in st.issues ==>
      issue in issues || Opening(uses, choices, sc.lives, issue) || (OfTheSweep(issue) && Owed(sc, st.dead, issue))
  }

  /** The phases and the sweep: silent exactly on an answerable app. */
  method Sweep(uses: seq<Module>, choices: seq<Module>, issues: seq<Issue>) returns (sc: Scene, st: State)
    requires forall issue :: issue in issues ==> issue == NotAnEnvironment
    ensures AllSettled(sc, st) && SceneIs(sc)
    ensures SweptUp(uses, choices, sc, st, issues)
    ensures sc.lives == FirstOfName(uses) && sc.chosen == Elements(choices) * Elements(sc.lives)
    ensures issues <= st.issues
    ensures UniqueNames(uses) && Answerable(Elements(uses), Elements(choices)) ==> st.issues == issues
    ensures st.issues == [] ==> UniqueNames(uses) && Answerable(Elements(uses), Elements(choices))
    ensures st.issues == [] ==> Alive(sc, st) == Survivors(Elements(uses), Elements(choices)) && Staged(uses, choices, sc) && Prepared(uses, choices)
  {
    var began;
    sc, began := Prepare(uses, choices, issues);
    st := Settle(sc, began);
    if UniqueNames(uses) && Answerable(Elements(uses), Elements(choices)) {
      AnswerableIsClean(uses, choices, sc);
    }
    if st.issues == [] {
      SilenceIsAnswerable(uses, choices, sc, st);
    }
  }

  lemma NobodyRefused(sc: Scene, st: State)
    requires Inv(sc, st) && st.issues == []
    ensures st.refused == {}
  {
    forall m | m in st.refused ensures false {
      TracedMeansIssue(m, st.issues);
    }
  }

  function Verdicts(verdict: Verdict): (r: seq<Issue>)
    ensures r == [] ==> verdict.Placed? || verdict == Unplaced([])
  {
    match verdict
    case Placed => []
    case InCycle(walk) => [Cyclic(walk)]
    case Unplaced(left) => seq(|left|, i requires 0 <= i < |left| => NeverPlaced(left[i].name))
  }

  /** Everything but the order has been asked and answered without a word. */
  ghost predicate AnsweredSoFar(uses: seq<Module>, choices: seq<Module>, d: Deployment) {
    && UniqueNames(uses) && Answerable(Elements(uses), Elements(choices))
    && d.environment != Unknown
    && forall m :: m in Survivors(Elements(uses), Elements(choices)) ==> PicksWell(d, m)
  }

  method AnswerNeeds(uses: seq<Module>, choices: seq<Module>, d: Deployment)
    returns (sc: Scene, st: State, impl: map<Module, string>, issues: seq<Issue>)
    ensures AllSettled(sc, st) && st.issues <= issues
    ensures sc.lives == FirstOfName(uses) && sc.chosen == Elements(choices) * Elements(sc.lives)
    ensures SceneIs(sc) && forall issue :: issue in issues ==> Justified(uses, choices, d, sc.last, issue)
    ensures issues == [] <==> AnsweredSoFar(uses, choices, d)
    ensures issues == [] ==> Alive(sc, st) == Survivors(Elements(uses), Elements(choices)) && Staged(uses, choices, sc) && Prepared(uses, choices)
    ensures issues == [] ==> forall m :: m in Alive(sc, st) ==> ImplRight(d, impl, m)
  {
    var opening := if d.environment == Unknown then [NotAnEnvironment] else [];
    sc, st := Sweep(uses, choices, opening);
    impl, issues := map[], st.issues;
    if d.environment != Unknown {
      impl, issues := PickAll(Outside(sc.lives, st.dead), d, st.issues);
    }
    forall issue | issue in issues ensures Justified(uses, choices, d, sc.last, issue) {
      if issue in st.issues { SweptIsJustified(uses, choices, d, sc, st, opening, issue); }
      else { PickIsJustified(uses, choices, d, sc, st, issue); }
    }
  }

  lemma SweptIsJustified(uses: seq<Module>, choices: seq<Module>, d: Deployment, sc: Scene, st: State, issues: seq<Issue>, issue: Issue)
    requires SceneIs(sc) && sc.lives == FirstOfName(uses) && sc.chosen == Elements(choices) * Elements(sc.lives)
    requires SweptUp(uses, choices, sc, st, issues) && issue in st.issues
    requires forall other :: other in issues ==> other == NotAnEnvironment && d.environment == Unknown
    ensures Justified(uses, choices, d, sc.last, issue)
  {
    if issue !in issues && !Opening(uses, choices, sc.lives, issue) {
      OwedIsJustified(uses, choices, d, sc, st.dead, issue);
    }
  }

  lemma PickIsJustified(uses: seq<Module>, choices: seq<Module>, d: Deployment, sc: Scene, st: State, issue: Issue)
    requires SceneIs(sc) && Inv(sc, st) && sc.lives == FirstOfName(uses) && sc.chosen == Elements(choices) * Elements(sc.lives)
    requires d.environment != Unknown && exists m :: m in Outside(sc.lives, st.dead) && PickFails(d, m, issue)
    ensures Justified(uses, choices, d, sc.last, issue)
  {
    var m :| m in Outside(sc.lives, st.dead) && PickFails(d, m, issue);
    OutsideSurvives(sc, st, m);
    FailedPickIsJustified(uses, choices, d, sc.last, m, issue);
  }

  lemma OutsideSurvives(sc: Scene, st: State, m: Module)
    requires SceneOk(sc) && Inv(sc, st) && m in Outside(sc.lives, st.dead)
    ensures m in Survivors(Elements(sc.lives), sc.chosen)
  {
  }

  /** The answers and the order together are `Resolvable`. */
  lemma IssuesSayIt(uses: seq<Module>, choices: seq<Module>, d: Deployment, sc: Scene, st: State,
                    order: seq<Module>, verdict: Verdict, picked: seq<Issue>)
    requires picked == [] <==> AnsweredSoFar(uses, choices, d)
    requires picked == [] ==> Alive(sc, st) == Survivors(Elements(uses), Elements(choices))
    requires verdict.Placed? ==> LinearExtension(Alive(sc, st), order)
    requires verdict.InCycle? ==> ClosedWalk(Alive(sc, st), verdict.walk)
    requires !verdict.Unplaced?
    ensures picked + Verdicts(verdict) == [] <==> Resolvable(uses, choices, d)
  {
    if verdict.Placed? {
      ExtensionExcludesCycles(Alive(sc, st), order);
    }
  }

  lemma PlanIsRight(uses: seq<Module>, choices: seq<Module>, sc: Scene, st: State, p: Plan)
    requires AllSettled(sc, st) && Staged(uses, choices, sc) && Prepared(uses, choices)
    requires Alive(sc, st) == Survivors(Elements(uses), Elements(choices))
    requires LinearExtension(Alive(sc, st), p.order) && p.last == sc.last && p.from == st.from
    requires p.last.Some? && p.last.value in Alive(sc, st) ==> p.order != [] && p.order[|p.order| - 1] == p.last.value
    requires forall m, c :: c in Deps(p.deps, m) <==> DependsOn(Alive(sc, st), m, c)
    requires forall k :: Get(p.contributors, k) == ContributorList(Outside(sc.lives, st.dead), k)
    ensures PlanFor(uses, choices, p)
  {
    var alive := Alive(sc, st);
    forall m, k | m in alive && TakesOne(m, k) ensures WiringRight(alive, p.from, m, k) {
      WiredToTheSupplier(sc, st, m, k);
    }
    OutsideInOrder(sc.lives, st.dead);
    forall k ensures ListedRight(alive, Get(p.contributors, k), k) && InOrderOf(Get(p.contributors, k), uses) {
      ContributorsListedOnce(Outside(sc.lives, st.dead), k);
      ContributorsInOrder(Outside(sc.lives, st.dead), k);
      InOrderTwice(ContributorList(Outside(sc.lives, st.dead), k), Outside(sc.lives, st.dead), sc.lives);
    }
  }

  lemma Accounting(sc: Scene, st: State, order: seq<Module>, verdict: Verdict, issues: seq<Issue>)
    requires AllSettled(sc, st) && st.issues <= issues
    requires verdict.Placed? ==> forall m :: m in Alive(sc, st) ==> m in order
    requires verdict.InCycle? ==> Cyclic(verdict.walk) in issues && ClosedWalk(Alive(sc, st), verdict.walk)
    requires !verdict.Unplaced?
    ensures forall m :: m in sc.lives ==> AccountedFor(sc.lives, sc.chosen, order, issues, m)
  {
    TracesKept(st.refused, st.issues, issues);
    if verdict.InCycle? {
      assert ClosedWalk(Elements(sc.lives), verdict.walk);
    }
  }

  lemma CycleIsJustified(uses: seq<Module>, choices: seq<Module>, d: Deployment, sc: Scene, st: State, walk: seq<Module>)
    requires SceneIs(sc) && Inv(sc, st) && sc.lives == FirstOfName(uses) && sc.chosen == Elements(choices) * Elements(sc.lives)
    requires ClosedWalk(Alive(sc, st), walk)
    ensures Justified(uses, choices, d, sc.last, Cyclic(walk))
  {
    var alive := Survivors(Elements(sc.lives), sc.chosen);
    forall i | 0 <= i < |walk| - 1 ensures DependsOn(alive, walk[i], walk[i + 1]) {
      assert DependsOn(Alive(sc, st), walk[i], walk[i + 1]);
    }
  }

  lemma VerdictIsJustified(uses: seq<Module>, choices: seq<Module>, d: Deployment, sc: Scene, st: State, verdict: Verdict, picked: seq<Issue>)
    requires SceneIs(sc) && Inv(sc, st) && sc.lives == FirstOfName(uses) && sc.chosen == Elements(choices) * Elements(sc.lives)
    requires verdict.InCycle? ==> ClosedWalk(Alive(sc, st), verdict.walk)
    requires !verdict.Unplaced? && forall issue :: issue in picked ==> Justified(uses, choices, d, sc.last, issue)
    ensures forall issue :: issue in picked + Verdicts(verdict) ==> Justified(uses, choices, d, sc.last, issue)
  {
    if verdict.InCycle? { CycleIsJustified(uses, choices, d, sc, st, verdict.walk); }
  }

  method Resolve(uses: seq<Module>, choices: seq<Module>, d: Deployment)
    returns (p: Plan, issues: seq<Issue>, verdict: Verdict, reasons: seq<seq<Sentence>>)
    ensures issues == [] <==> Resolvable(uses, choices, d)
    ensures forall issue :: issue in issues ==> Justified(uses, choices, d, p.last, issue)
    ensures issues == [] ==> PlanFor(uses, choices, p)
    ensures issues == [] ==> Queue(p.deps, uses, p.order, p.last)
    ensures issues == [] ==> forall m :: m in Survivors(Elements(uses), Elements(choices)) ==> ImplRight(d, p.impl, m)
    ensures !verdict.Unplaced?
    ensures verdict.InCycle? ==> CycleExplained(reasons, p, verdict.walk)
    ensures verdict.Placed? ==> reasons == []
    ensures var lives := FirstOfName(uses);
            forall m :: m in lives ==> AccountedFor(lives, Elements(choices) * Elements(lives), p.order, issues, m)
  {
    var sc, st, impl, picked := AnswerNeeds(uses, choices, d);
    var contributors := ReadContributors(Outside(sc.lives, st.dead));
    var g, order;
    g, order, verdict := OrderSettled(sc, st, contributors);
    p := Plan(order, g, st.from, contributors, impl, sc.last);
    issues := picked + Verdicts(verdict);
    reasons := [];
    if verdict.InCycle? {
      reasons := CycleReasons(g, sc.lives, st.from, contributors, verdict.walk);
    }
    IssuesSayIt(uses, choices, d, sc, st, order, verdict, picked);
    VerdictIsJustified(uses, choices, d, sc, st, verdict, picked);
    Accounting(sc, st, order, verdict, issues);
    if issues == [] {
      PlanIsRight(uses, choices, sc, st, p);
    }
  }

  /** The order of a settled scene, in terms of the dependency relation. */
  method OrderSettled(sc: Scene, st: State, contributors: map<Contract, seq<Module>>)
    returns (g: Graph, order: seq<Module>, verdict: Verdict)
    requires AllSettled(sc, st)
    requires forall k :: Get(contributors, k) == ContributorList(Outside(sc.lives, st.dead), k)
    ensures forall m, c :: c in Deps(g, m) <==> DependsOn(Alive(sc, st), m, c)
    ensures !verdict.Unplaced?
    ensures verdict.Placed? ==> LinearExtension(Alive(sc, st), order)
    ensures verdict.InCycle? ==> ClosedWalk(Alive(sc, st), verdict.walk) && Cycle(g, verdict.walk)
    ensures forall m :: m in g ==> DepsRight(g[m], m, sc.lives, st.from, contributors)
    ensures verdict.Placed? ==> Queue(g, sc.lives, order, sc.last)
    ensures sc.last.Some? && sc.last.value in Alive(sc, st) ==> order != [] && order[|order| - 1] == sc.last.value
  {
    g := DependencyGraph(sc.lives, st.dead, st.from, contributors);
    GraphIsDependency(sc, st, contributors, g);
    GraphIsSettled(sc, st, g);
    order, verdict := Order(g, sc.lives, st.dead, sc.last);
    if verdict.Placed? {
      GroundedIsExtension(Alive(sc, st), g, order);
    } else if verdict.InCycle? {
      CycleIsClosedWalk(Alive(sc, st), g, verdict.walk);
    }
  }
}
