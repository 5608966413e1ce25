/** What it means for a composition to resolve, said over the *sets* of modules that
    Use and Choose named: no list order appears below except in `NoRepeats`, so the
    meaning is independent of it by construction.  `Resolver.Resolve` is proved to
    answer exactly this question. */
module ResolutionSpec {
  import opened Composition

  /** The modules Choose withdraws: unchosen suppliers of a contract a chosen module
      also supplies. */
  ghost predicate IsWithdrawn(used: set<Module>, chosen: set<Module>, m: Module) {
    m in used && m !in chosen &&
    exists k, c :: c in used && c in chosen && Supplies(m, k) && Supplies(c, k)
  }

  ghost function Withdrawn(used: set<Module>, chosen: set<Module>): set<Module> {
    set m | m in used && IsWithdrawn(used, chosen, m)
  }

  ghost function Survivors(used: set<Module>, chosen: set<Module>): set<Module> {
    used - Withdrawn(used, chosen)
  }

  /** `s` is the one module of `alive` that supplies the contract. */
  ghost predicate OnlySupplier(alive: set<Module>, k: Contract, s: Module) {
    s in alive && Supplies(s, k) && forall t :: t in alive && Supplies(t, k) ==> t == s
  }

  ghost predicate AtMostOneSupplier(alive: set<Module>, k: Contract) {
    forall s, t :: s in alive && t in alive && Supplies(s, k) && Supplies(t, k) ==> s == t
  }

  /** Every hard need has exactly one living supplier, every optional one at most one. */
  ghost predicate NeedsAnswered(alive: set<Module>, m: Module) {
    && (forall k :: Needs(k, false) in m.decls ==> exists s :: OnlySupplier(alive, k, s))
    && (forall k :: Optional(k, false) in m.decls ==> AtMostOneSupplier(alive, k))
  }

  /** A module that runs after everything answers nobody: nothing living takes one
      value it would supply while living, and nothing takes every contribution to a
      contract it contributes to, even when Choose withdrew it. */
  ghost predicate ClearOfTheLast(alive: set<Module>, last: Module, m: Module) {
    && (forall k :: TakesEvery(m, k) ==> Contributes(k) !in last.decls)
    && (forall k :: TakesOne(m, k) && last in alive ==> !Supplies(last, k))
  }

  ghost predicate RunsLast(used: set<Module>, m: Module) {
    m in used && After in m.decls
  }

  // ------------------------------------------------- what one module says of itself

  predicate Swept(dl: Declaration) {
    dl.Provides? || dl.Needs? || dl.Optional? || dl.Contributes?
  }

  ghost predicate NoRepeats(m: Module) {
    forall i, j :: 0 <= i < j < |m.decls| && Swept(m.decls[i]) ==> m.decls[i] != m.decls[j]
  }

  ghost predicate SaysItStraight(m: Module) {
    && (forall k :: TakesEvery(m, k) ==> Contributes(k) !in m.decls)
    && (forall k :: TakesOne(m, k) ==> !Supplies(m, k))
    && (forall k :: Provides(k) in m.decls ==> Contributes(k) !in m.decls)
    && NoRepeats(m)
  }

  // ------------------------------------------------------------ the dependency graph

  /** Among `alive`, `m` is built after `c`. */
  ghost predicate DependsOn(alive: set<Module>, m: Module, c: Module) {
    m in alive && c in alive && c != m &&
    exists k :: (TakesOne(m, k) && Supplies(c, k)) || (TakesEvery(m, k) && Contributes(k) in c.decls)
  }

  ghost predicate ClosedWalk(alive: set<Module>, walk: seq<Module>) {
    && |walk| >= 2 && walk[0] == walk[|walk| - 1]
    && forall i :: 0 <= i < |walk| - 1 ==> DependsOn(alive, walk[i], walk[i + 1])
  }

  ghost predicate Acyclic(alive: set<Module>) {
    forall walk :: !ClosedWalk(alive, walk)
  }

  /** The list holds every member of `alive` once, each after what it depends on. */
  ghost predicate LinearExtension(alive: set<Module>, order: seq<Module>) {
    && NoDup(order)
    && Elements(order) == alive
    && forall i, c :: 0 <= i < |order| && DependsOn(alive, order[i], c) ==> Before(order, i, c)
  }

  // ----------------------------------------------------------- the deployment's picks

  predicate Wanted(d: Deployment, impl: Implementation) {
    d.environment == Development || !impl.simulated
  }

  predicate InputSet(d: Deployment, input: string) {
    input in d.inputs && d.inputs[input] != ""
  }

  /** The documented rule: wanted here, and every input set. */
  predicate Runnable(d: Deployment, impl: Implementation) {
    Wanted(d, impl) && forall input :: input in impl.inputs ==> InputSet(d, input)
  }

  /** The first input that is not set; the empty string stands for none missing. */
  function FirstUnset(d: Deployment, inputs: seq<string>): string {
    if inputs == [] then "" else if InputSet(d, inputs[0]) then FirstUnset(d, inputs[1..]) else inputs[0]
  }

  /** The rule as it is applied: wanted here, and no missing input has a name. */
  predicate Picks(d: Deployment, impl: Implementation) {
    Wanted(d, impl) && FirstUnset(d, impl.inputs) == ""
  }

  ghost predicate PicksWell(d: Deployment, m: Module) {
    forall dl :: dl in m.decls && dl.FromDeployment? ==>
      exists i :: 0 <= i < |dl.impls| && Picks(d, dl.impls[i])
  }

  ghost predicate PicksAsDocumented(d: Deployment, m: Module) {
    forall dl :: dl in m.decls && dl.FromDeployment? ==>
      exists i :: 0 <= i < |dl.impls| && Runnable(d, dl.impls[i])
  }

  /** The first unset input is the one without a name. */
  ghost predicate NamelessFirst(d: Deployment, inputs: seq<string>) {
    exists i :: 0 <= i < |inputs| && NamelessAt(d, inputs, i)
  }

  ghost predicate NamelessAt(d: Deployment, inputs: seq<string>, i: nat)
    requires i < |inputs|
  {
    inputs[i] == "" && !InputSet(d, "") && forall j :: 0 <= j < i ==> InputSet(d, inputs[j])
  }

  // ------------------------------------------------------------------- the whole rule

  ghost predicate Contested(used: set<Module>, c: Module) {
    exists k, s :: s in used && s != c && Supplies(c, k) && Supplies(s, k)
  }

  /** A use list names every module and every module name once. */
  ghost predicate UniqueNames(uses: seq<Module>) {
    forall i, j :: 0 <= i < j < |uses| ==> uses[i].name != uses[j].name
  }

  /** Everything that has to hold of the modules Use named, as a set, for the
      declarations, the choices and the needs to be answerable. */
  ghost predicate Answerable(used: set<Module>, chosen: set<Module>) {
    var alive := Survivors(used, chosen);
    && chosen <= used
    && (forall c :: c in chosen ==> Contested(used, c))
    && (forall m :: m in used ==> SaysItStraight(m))
    && (forall a, b :: RunsLast(used, a) && RunsLast(used, b) ==> a == b)
    && (forall a, b, k :: a in used && b in used && Provides(k) in a.decls ==> Contributes(k) !in b.decls)
    && (forall m :: m in alive ==> NeedsAnswered(alive, m))
    && (forall m, last :: m in alive && RunsLast(used, last) && m != last ==> ClearOfTheLast(alive, last, m))
  }

  ghost predicate Resolvable(uses: seq<Module>, choices: seq<Module>, d: Deployment) {
    var used, chosen := Elements(uses), Elements(choices);
    var alive := Survivors(used, chosen);
    && UniqueNames(uses)
    && Answerable(used, chosen)
    && Acyclic(alive)
    && d.environment != Unknown
    && (forall m :: m in alive ==> PicksWell(d, m))
  }

  // --------------------------------------------------------------------- its theorems

  lemma NamelessLater(d: Deployment, first: string, rest: seq<string>)
    requires InputSet(d, first)
    ensures NamelessFirst(d, [first] + rest) <==> NamelessFirst(d, rest)
  {
    var inputs := [first] + rest;
    if i :| 0 <= i < |rest| && NamelessAt(d, rest, i) {
      assert NamelessAt(d, inputs, i + 1);
    }
    if i :| 0 <= i < |inputs| && NamelessAt(d, inputs, i) {
      forall j | 0 <= j < i - 1 ensures InputSet(d, rest[j]) { assert rest[j] == inputs[j + 1]; }
      assert NamelessAt(d, rest, i - 1);
    }
  }

  lemma {:induction false} FirstUnsetIs(d: Deployment, inputs: seq<string>)
    ensures FirstUnset(d, inputs) == "" <==> (forall input :: input in inputs ==> InputSet(d, input)) || NamelessFirst(d, inputs)
  {
    if inputs != [] {
      var first, rest := inputs[0], inputs[1..];
      assert inputs == [first] + rest;
      FirstUnsetIs(d, rest);
      if InputSet(d, first) {
        NamelessLater(d, first, rest);
      } else if first == "" {
        assert NamelessAt(d, inputs, 0);
      }
    }
  }

  /** A simulated implementation runs in development only; a real one, its inputs set, runs
      everywhere. */
  lemma SimulatedInDevelopmentOnly(d: Deployment, impl: Implementation)
    requires forall input :: input in impl.inputs ==> InputSet(d, input)
    ensures Picks(d, impl) <==> !impl.simulated || d.environment == Development
  {
    FirstUnsetIs(d, impl.inputs);
  }

  /** An implementation is picked exactly as documented unless it is wanted and its first
      unset input has no name: that one is picked although an input is missing. */
  lemma PicksExactly(d: Deployment, impl: Implementation)
    ensures (Picks(d, impl) <==> Runnable(d, impl)) <==> !(Wanted(d, impl) && NamelessFirst(d, impl.inputs))
  {
    FirstUnsetIs(d, impl.inputs);
    if NamelessFirst(d, impl.inputs) { assert "" in impl.inputs; }
  }

  /** A module none of whose implementations lists a nameless input is picked for exactly
      as documented. */
  lemma PicksWellAsDocumented(d: Deployment, m: Module)
    requires forall dl, i :: dl in m.decls && dl.FromDeployment? && 0 <= i < |dl.impls| ==> "" !in dl.impls[i].inputs
    ensures PicksWell(d, m) <==> PicksAsDocumented(d, m)
  {
    forall dl, i | dl in m.decls && dl.FromDeployment? && 0 <= i < |dl.impls|
      ensures Picks(d, dl.impls[i]) <==> Runnable(d, dl.impls[i])
    {
      PicksExactly(d, dl.impls[i]);
    }
  }

  /** One nameless input, nothing set: picked, and not runnable. */
  lemma NamelessInputIsPicked(name: string, d: Deployment)
    requires d.inputs == map[]
    ensures Picks(d, Implementation(name, [""], false)) && !Runnable(d, Implementation(name, [""], false))
  {
    var impl := Implementation(name, [""], false);
    assert impl.inputs[0] == "" && "" in impl.inputs;
    assert FirstUnset(d, [""]) == "";
  }

  /** A graph that can be listed has no closed walk: along a walk the positions fall. */
  lemma {:induction false} ExtensionExcludesCycles(alive: set<Module>, order: seq<Module>)
    requires LinearExtension(alive, order)
    ensures Acyclic(alive)
  {
    forall walk | ClosedWalk(alive, walk)
      ensures false
    {
      assert DependsOn(alive, walk[0], walk[1]);
      var i := Position(order, walk[0]);
      PositionsFall(alive, order, walk, i);
    }
  }

  ghost function Position(order: seq<Module>, m: Module): (i: nat)
    requires m in order
    ensures i < |order| && order[i] == m
  {
    var i :| 0 <= i < |order| && order[i] == m; i
  }

  lemma {:induction false} PositionsFall(alive: set<Module>, order: seq<Module>, walk: seq<Module>, i: nat)
    requires LinearExtension(alive, order)
    requires |walk| >= 2 && i < |order| && order[i] == walk[0]
    requires forall j :: 0 <= j < |walk| - 1 ==> DependsOn(alive, walk[j], walk[j + 1])
    ensures Before(order, i, walk[|walk| - 1])
    decreases |walk|
  {
    assert DependsOn(alive, walk[0], walk[1]);
    var j :| 0 <= j < i && order[j] == walk[1];
    if |walk| > 2 {
      forall n | 0 <= n < |walk[1..]| - 1
        ensures DependsOn(alive, walk[1..][n], walk[1..][n + 1])
      {
        assert DependsOn(alive, walk[n + 1], walk[n + 2]);
      }
      PositionsFall(alive, order, walk[1..], j);
    }
  }

  /** A chosen module is never withdrawn, and every withdrawn one lost a contract to a
      chosen module that is built. */
  lemma WithdrawnLostToAChoice(used: set<Module>, chosen: set<Module>, m: Module)
    requires m in Withdrawn(used, chosen)
    ensures m !in chosen
    ensures exists k, c :: c in Survivors(used, chosen) && c in chosen && Supplies(m, k) && Supplies(c, k)
  {
    var k, c :| c in used && c in chosen && Supplies(m, k) && Supplies(c, k);
    assert c in Survivors(used, chosen);
  }

  lemma UniqueNamesOfPermutation(uses: seq<Module>, uses': seq<Module>)
    requires multiset(uses) == multiset(uses')
    requires UniqueNames(uses)
    ensures UniqueNames(uses')
  {
    forall i, j | 0 <= i < j < |uses'|
      ensures uses'[i].name != uses'[j].name
    {
      if uses'[i].name == uses'[j].name {
        var a, b := uses'[i], uses'[j];
        assert a in multiset(uses') && b in multiset(uses');
        assert a in uses && b in uses;
        var x, y := Position(uses, a), Position(uses, b);
        assert x == y && a == b;
        TwoPlaces(uses', i, j);
        OnePlace(uses, x);
        assert false;
      }
    }
  }

  lemma TwoPlaces(s: seq<Module>, i: nat, j: nat)
    requires i < j < |s| && s[i] == s[j]
    ensures multiset(s)[s[i]] >= 2
  {
    assert s == s[..j] + s[j..];
    assert s[i] in s[..j] && s[j] in s[j..];
  }

  lemma OnePlace(s: seq<Module>, i: nat)
    requires i < |s| && UniqueNames(s)
    ensures multiset(s)[s[i]] == 1
  {
    assert s == s[..i] + [s[i]] + s[i + 1..];
    assert s[i] !in s[..i] && s[i] !in s[i + 1..];
  }

  /** Order independence: permuting Use, and reordering or repeating Choose, changes
      neither whether the app resolves, nor which modules are built, nor which module
      supplies which need, nor what is built after what. */
  lemma OrderIndependence(uses: seq<Module>, uses': seq<Module>, choices: seq<Module>, choices': seq<Module>, d: Deployment)
    requires multiset(uses) == multiset(uses')
    requires Elements(choices) == Elements(choices')
    ensures Resolvable(uses, choices, d) <==> Resolvable(uses', choices', d)
    ensures Survivors(Elements(uses), Elements(choices)) == Survivors(Elements(uses'), Elements(choices'))
    ensures forall k, s :: OnlySupplier(Survivors(Elements(uses), Elements(choices)), k, s) <==>
                           OnlySupplier(Survivors(Elements(uses'), Elements(choices')), k, s)
    ensures forall order :: LinearExtension(Survivors(Elements(uses), Elements(choices)), order) <==>
                            LinearExtension(Survivors(Elements(uses'), Elements(choices')), order)
  {
    assert Elements(uses) == Elements(uses') by {
      forall m ensures m in uses <==> m in uses' {
        assert m in uses <==> m in multiset(uses);
        assert m in uses' <==> m in multiset(uses');
      }
    }
    if UniqueNames(uses) { UniqueNamesOfPermutation(uses, uses'); }
    if UniqueNames(uses') { UniqueNamesOfPermutation(uses', uses); }
  }
}
