/** Why the resolver says each of its sentences, in terms of the declared app alone. */
module Sentences {
  import opened Composition
  import opened Options
  import opened ResolutionSpec
  import opened NeedSettling
  import opened Declarations

  /** The first implementation the environment allows, if any. */
  ghost predicate FirstWanted(d: Deployment, impls: seq<Implementation>, i: int) {
    0 <= i < |impls| && Wanted(d, impls[i]) && forall j :: 0 <= j < i ==> !Wanted(d, impls[j])
  }

  /** Why nothing is picked: nothing was named, the first implementation the environment
      allows misses this input, or it allows none. */
  ghost predicate Unpicked(d: Deployment, m: Module, impls: seq<Implementation>, issue: Issue) {
    && (forall i :: 0 <= i < |impls| ==> !Picks(d, impls[i]))
    && if impls == [] then issue == NoImplementation(m.name)
       else if forall i :: 0 <= i < |impls| ==> !Wanted(d, impls[i]) then issue == OnlySimulated(m.name)
       else exists i :: FirstWanted(d, impls, i) && issue == MissingInput(m.name, FirstUnset(d, impls[i].inputs))
  }

  /** The sentence about a declaration of the module that picks nothing. */
  ghost predicate PickFails(d: Deployment, m: Module, issue: Issue) {
    exists dl :: dl in m.decls && dl.FromDeployment? && Unpicked(d, m, dl.impls, issue)
  }

  /** The modules that ask to run after everything, in Use order, more than one of them. */
  ghost predicate LastAsk(lives: seq<Module>, afters: seq<Module>) {
    |afters| > 1 && NoDup(afters) && InOrderOf(afters, lives) && forall m :: m in afters <==> RunsLast(Elements(lives), m)
  }

  // --------------------------------------------------- what each sentence answers for

  /** A sentence of the phases before the sweep. */
  ghost predicate Opening(uses: seq<Module>, choices: seq<Module>, lives: seq<Module>, issue: Issue) {
    match issue
    case UsedTwice(_) => RepeatedName(uses, issue)
    case ChoiceNotInUse(_) => exists c :: c in choices && IdleChoice(lives, c, issue)
    case ChoosesNothing(_) => exists c :: c in choices && IdleChoice(lives, c, issue)
    case Contradiction(_, _) => exists m :: m in lives && Misspeaks(m, issue)
    case SaidTwice(_, _) => exists m :: m in lives && Misspeaks(m, issue)
    case ManyRunLast(afters) => LastAsk(lives, afters)
    case Mixed(spelling) => exists k :: BothWays(lives, k) && k.spelling == spelling
    case _ => false
  }

  /** Choose took a candidate away and nothing else did: it asks for no place that another
      module has already. */
  ghost predicate TakenByChoice(lives: seq<Module>, chosen: set<Module>, last: Option<Module>, s: Module) {
    s in Withdrawn(Elements(lives), chosen) && !(After in s.decls && last != Some(s))
  }

  /** The module has a hard need for the contract, and nobody in use supplies it or Choose
      took one of its candidates away. */
  ghost predicate LacksSupplier(lives: seq<Module>, chosen: set<Module>, last: Option<Module>, m: Module, k: Contract) {
    && m in Survivors(Elements(lives), chosen) && Needs(k, false) in m.decls
    && ((forall s :: s in lives ==> !Supplies(s, k)) ||
        exists s :: Candidate(lives, chosen, s, k) && TakenByChoice(lives, chosen, last, s))
  }

  /** The module takes one of a contract two surviving candidates supply. */
  ghost predicate HasTwo(lives: seq<Module>, chosen: set<Module>, m: Module, k: Contract, a: Module, b: Module) {
    var alive := Survivors(Elements(lives), chosen);
    && m in alive && TakesOne(m, k) && a != b && a in alive && b in alive
    && Candidate(lives, chosen, a, k) && Candidate(lives, chosen, b, k)
  }

  /** The module reads what the last one supplies or contributes. */
  ghost predicate ReadsLast(lives: seq<Module>, chosen: set<Module>, last: Option<Module>, m: Module, dl: Declaration) {
    && m in Survivors(Elements(lives), chosen) && dl in m.decls
    && last.Some? && RunsLast(Elements(lives), last.value) && m != last.value
    && ((ManyNeed(dl) && Contributes(dl.key) in last.value.decls) || (SingleNeed(dl) && Supplies(last.value, dl.key)))
  }

  /** The sentence is true of the app. */
  ghost predicate Justified(uses: seq<Module>, choices: seq<Module>, d: Deployment, last: Option<Module>, issue: Issue) {
    var lives := FirstOfName(uses);
    var chosen := Elements(choices) * Elements(lives);
    match issue
    case NotAnEnvironment => d.environment == Unknown
    case Missing(name, spelling) =>
      exists m, k :: LacksSupplier(lives, chosen, last, m, k) && m.name == name && k.spelling == spelling
    case Ambiguous(spelling) => exists m, k, a, b :: HasTwo(lives, chosen, m, k, a, b) && k.spelling == spelling
    case NeedsTheLast(name, key) =>
      exists m, dl :: ReadsLast(lives, chosen, last, m, dl) && m.name == name && dl.key == key
    case NoImplementation(_) => PicksFailSomewhere(lives, chosen, d, issue)
    case MissingInput(_, _) => PicksFailSomewhere(lives, chosen, d, issue)
    case OnlySimulated(_) => PicksFailSomewhere(lives, chosen, d, issue)
    case Cyclic(walk) => ClosedWalk(Survivors(Elements(lives), chosen), walk)
    case _ => Opening(uses, choices, lives, issue)
  }

  ghost predicate PicksFailSomewhere(lives: seq<Module>, chosen: set<Module>, d: Deployment, issue: Issue) {
    d.environment != Unknown && exists m :: m in Survivors(Elements(lives), chosen) && PickFails(d, m, issue)
  }

  // ------------------------------------------------------------ from the sweep's reasons

  /** What the sweep reads is the app's own: who runs last, and which contracts are mixed. */
  ghost predicate SceneIs(sc: Scene) {
    && SceneOk(sc)
    && (sc.last.Some? ==> RunsLast(Elements(sc.lives), sc.last.value))
    && (forall k :: k in sc.mixed ==> BothWays(sc.lives, k))
  }

  lemma NeedIsLacked(sc: Scene, dead: set<Module>, m: Module, k: Contract)
    requires SceneIs(sc) && NeedIsOwed(sc, dead, m, k)
    ensures LacksSupplier(sc.lives, sc.chosen, sc.last, m, k)
  {
    var list := Lookup(sc.surviving, k);
    assert SupplierList(sc.lives, sc.chosen, sc.withdrawn, sc.surviving, k);
    if list == [] {
      if s :| s in sc.lives && Supplies(s, k) {
        assert !Candidate(sc.lives, sc.chosen, s, k);
        var c :| c in sc.lives && c in sc.chosen && Supplies(c, k);
        assert Candidate(sc.lives, sc.chosen, c, k);
        assert false;
      }
    } else {
      var s :| s in list && ChosenAway(sc, s);
      assert TakenByChoice(sc.lives, sc.chosen, sc.last, s);
    }
  }

  lemma PickIsTwo(sc: Scene, m: Module, k: Contract, a: Module, b: Module)
    requires SceneIs(sc) && PickIsOwed(sc, m, k, a, b)
    ensures HasTwo(sc.lives, sc.chosen, m, k, a, b)
  {
    assert SupplierList(sc.lives, sc.chosen, sc.withdrawn, sc.surviving, k);
  }

  lemma OwedIsJustified(uses: seq<Module>, choices: seq<Module>, d: Deployment, sc: Scene, dead: set<Module>, issue: Issue)
    requires SceneIs(sc) && sc.lives == FirstOfName(uses) && sc.chosen == Elements(choices) * Elements(sc.lives)
    requires Owed(sc, dead, issue) && (issue.Missing? || issue.Ambiguous? || issue.NeedsTheLast? || issue.Mixed?)
    ensures Justified(uses, choices, d, sc.last, issue)
  {
    match issue
    case Missing(name, spelling) =>
      var m, k :| NeedIsOwed(sc, dead, m, k) && m.name == name && k.spelling == spelling;
      NeedIsLacked(sc, dead, m, k);
    case Ambiguous(spelling) =>
      var m, k, a, b :| PickIsOwed(sc, m, k, a, b) && k.spelling == spelling;
      PickIsTwo(sc, m, k, a, b);
    case NeedsTheLast(name, key) =>
      var m, dl :| PlaceIsOwed(sc, m, dl) && m.name == name && dl.key == key;
      assert ReadsLast(sc.lives, sc.chosen, sc.last, m, dl);
    case Mixed(spelling) =>
      var k :| k in sc.mixed && k.spelling == spelling;
      assert BothWays(sc.lives, k);
  }

  lemma FailedPickIsJustified(uses: seq<Module>, choices: seq<Module>, d: Deployment, last: Option<Module>, m: Module, issue: Issue)
    requires d.environment != Unknown && PickFails(d, m, issue)
    requires m in Survivors(Elements(FirstOfName(uses)), Elements(choices) * Elements(FirstOfName(uses)))
    ensures Justified(uses, choices, d, last, issue)
  {
    FailedPickTag(d, m, issue);
    assert PicksFailSomewhere(FirstOfName(uses), Elements(choices) * Elements(FirstOfName(uses)), d, issue);
  }

  lemma FailedPickTag(d: Deployment, m: Module, issue: Issue)
    requires PickFails(d, m, issue)
    ensures issue.NoImplementation? || issue.MissingInput? || issue.OnlySimulated?
  {
  }

  // ------------------------------------------------------------------- what it rules out

  /** With nothing chosen, a missing need is one nobody in use supplies: whatever else went
      wrong with its suppliers, their own sentences are the only ones. */
  lemma WithoutChoicesMissingIsAbsent(uses: seq<Module>, d: Deployment, last: Option<Module>, name: string, spelling: string)
    requires Justified(uses, [], d, last, Missing(name, spelling))
    ensures exists m, k :: m in uses && m.name == name && Needs(k, false) in m.decls && k.spelling == spelling
                           && forall s :: s in FirstOfName(uses) ==> !Supplies(s, k)
  {
    var lives := FirstOfName(uses);
    assert Elements<Module>([]) * Elements(lives) == {};
    var m, k :| LacksSupplier(lives, {}, last, m, k) && m.name == name && k.spelling == spelling;
    FirstOfNameUnique(uses);
  }
}
