/** The resolver's repeat-until-unchanged sweep: it wires every single need to the one
    living module that supplies it, and refuses the modules no living module answers. */
module NeedSettling {
  import opened Composition
  import opened Options
  import opened ResolutionSpec

  /** What the sweep reads and never changes. */
  datatype Scene = Scene(
    lives: seq<Module>, chosen: set<Module>, withdrawn: set<Module>,
    surviving: map<Contract, seq<Module>>, mixed: set<Contract>, last: Option<Module>)

  /** What the sweep updates. `from` holds no entry where the source stores nil. */
  datatype State = State(dead: set<Module>, refused: set<Module>, from: map<Edge, Module>, issues: seq<Issue>)

  function Lookup(surviving: map<Contract, seq<Module>>, k: Contract): seq<Module> {
    if k in surviving then surviving[k] else []
  }

  ghost predicate SceneOk(sc: Scene) {
    && NoDup(sc.lives)
    && sc.chosen <= Elements(sc.lives)
    && sc.withdrawn == Withdrawn(Elements(sc.lives), sc.chosen)
    && (sc.last.Some? ==> sc.last.value in sc.lives)
    && forall k :: SupplierList(sc.lives, sc.chosen, sc.withdrawn, sc.surviving, k)
  }

  /** Where a contract has chosen suppliers they are its candidates, otherwise all are. */
  ghost predicate Candidate(lives: seq<Module>, chosen: set<Module>, s: Module, k: Contract) {
    s in lives && Supplies(s, k) && (s in chosen || forall c :: c in lives && c in chosen ==> !Supplies(c, k))
  }

  /** The candidates, each once; the suppliers passed over are withdrawn. */
  ghost predicate SupplierList(lives: seq<Module>, chosen: set<Module>, withdrawn: set<Module>, surviving: map<Contract, seq<Module>>, k: Contract) {
    var list := Lookup(surviving, k);
    && NoDup(list)
    && (forall s :: s in list <==> Candidate(lives, chosen, s, k))
    && (forall s :: s in lives && Supplies(s, k) && s !in list ==> s in withdrawn)
  }

  ghost function Alive(sc: Scene, st: State): set<Module> {
    Elements(sc.lives) - st.dead
  }

  // ------------------------------------------------- why a module is not built

  ghost predicate HardNeeds(a: Module, b: Module) {
    exists k :: Needs(k, false) in a.decls && Supplies(b, k)
  }

  /** The sentence is about this module, or about a contract it takes one of. */
  ghost predicate Explains(issue: Issue, m: Module) {
    match issue
    case ManyRunLast(afters) => m in afters
    case Missing(name, spelling) => name == m.name && exists k :: Needs(k, false) in m.decls && k.spelling == spelling
    case Ambiguous(spelling) => exists k :: TakesOne(m, k) && k.spelling == spelling
    case Mixed(spelling) => exists k :: TakesOne(m, k) && k.spelling == spelling
    case NeedsTheLast(name, _) => name == m.name
    case _ => false
  }

  /** A chain of hard needs that ends at a module a recorded sentence is about. */
  ghost predicate Trail(chain: seq<Module>, issues: seq<Issue>) {
    && chain != []
    && (forall i :: 0 <= i < |chain| - 1 ==> HardNeeds(chain[i], chain[i + 1]))
    && exists issue :: issue in issues && Explains(issue, chain[|chain| - 1])
  }

  ghost predicate Traced(m: Module, issues: seq<Issue>) {
    exists chain :: Trail(chain, issues) && chain[0] == m
  }

  lemma TraceSelf(m: Module, issue: Issue, issues: seq<Issue>)
    requires issue in issues && Explains(issue, m)
    ensures Traced(m, issues)
  {
    assert Trail([m], issues);
  }

  lemma TraceVia(m: Module, s: Module, issues: seq<Issue>)
    requires HardNeeds(m, s) && Traced(s, issues)
    ensures Traced(m, issues)
  {
    var chain :| Trail(chain, issues) && chain[0] == s;
    var longer := [m] + chain;
    assert longer[|longer| - 1] == chain[|chain| - 1];
    assert forall i :: 0 < i < |longer| ==> longer[i] == chain[i - 1];
    assert Trail(longer, issues);
  }

  lemma TraceKept(m: Module, issues: seq<Issue>, issues': seq<Issue>)
    requires Traced(m, issues) && issues <= issues'
    ensures Traced(m, issues')
  {
    var chain :| Trail(chain, issues) && chain[0] == m;
    var issue :| issue in issues && Explains(issue, chain[|chain| - 1]);
    assert issue in issues';
    assert Trail(chain, issues');
  }

  lemma TracesKept(ms: set<Module>, issues: seq<Issue>, issues': seq<Issue>)
    requires (forall m :: m in ms ==> Traced(m, issues)) && issues <= issues'
    ensures forall m :: m in ms ==> Traced(m, issues')
  {
    forall m | m in ms ensures Traced(m, issues') { TraceKept(m, issues, issues'); }
  }

  lemma TracedMeansIssue(m: Module, issues: seq<Issue>)
    requires Traced(m, issues)
    ensures issues != []
  {
    var chain :| Trail(chain, issues) && chain[0] == m;
  }

  // ------------------------------------------------------------- the invariant

  /** A wired edge leads to a module that supplied the contract, was not withdrawn and
      is the only one that can still be living. */
  ghost predicate WiredWell(sc: Scene, st: State, e: Edge, s: Module) {
    && e.to in sc.lives && e.to !in sc.withdrawn && TakesOne(e.to, e.key)
    && s in sc.lives && s !in sc.withdrawn && Supplies(s, e.key)
    && forall t :: t in Alive(sc, st) && Supplies(t, e.key) ==> t == s
  }

  /** Refused before the sweep: it asks to run after everything, and another does first. */
  ghost predicate TooLate(sc: Scene, m: Module) {
    m in sc.lives && After in m.decls && sc.last != Some(m)
  }

  /** Choose alone took it away, without a word. */
  ghost predicate ChosenAway(sc: Scene, s: Module) {
    s in sc.withdrawn && !TooLate(sc, s)
  }

  /** No candidate is left, and no refusal has said so: there never was one, or a choice
      took one away. */
  ghost predicate Unanswered(sc: Scene, dead: set<Module>, k: Contract) {
    var list := Lookup(sc.surviving, k);
    && (forall s :: s in list ==> s in dead)
    && (list == [] || exists s :: s in list && ChosenAway(sc, s))
  }

  /** The module is owed a sentence about its hard need. */
  ghost predicate NeedIsOwed(sc: Scene, dead: set<Module>, m: Module, k: Contract) {
    m in sc.lives && m !in sc.withdrawn && Needs(k, false) in m.decls && Unanswered(sc, dead, k)
  }

  ghost predicate PickIsOwed(sc: Scene, m: Module, k: Contract, a: Module, b: Module) {
    && m in sc.lives && m !in sc.withdrawn && TakesOne(m, k) && k !in sc.mixed
    && a != b && a in Lookup(sc.surviving, k) && b in Lookup(sc.surviving, k)
    && a !in sc.withdrawn && b !in sc.withdrawn
  }

  ghost predicate PlaceIsOwed(sc: Scene, m: Module, dl: Declaration) {
    && m in sc.lives && m !in sc.withdrawn && dl in m.decls && sc.last.Some? && m != sc.last.value
    && ((ManyNeed(dl) && Contributes(dl.key) in sc.last.value.decls) || (SingleNeed(dl) && Supplies(sc.last.value, dl.key)))
  }

  /** Every sentence of the sweep has its reason. */
  ghost predicate Owed(sc: Scene, dead: set<Module>, issue: Issue) {
    match issue
    case Missing(name, spelling) => exists m, k :: NeedIsOwed(sc, dead, m, k) && m.name == name && k.spelling == spelling
    case Ambiguous(spelling) => exists m, k, a, b :: PickIsOwed(sc, m, k, a, b) && k.spelling == spelling
    case NeedsTheLast(name, key) => exists m, dl :: PlaceIsOwed(sc, m, dl) && m.name == name && dl.key == key
    case Mixed(spelling) => exists k :: k in sc.mixed && k.spelling == spelling
    case _ => true
  }

  ghost predicate AllOwed(sc: Scene, dead: set<Module>, issues: seq<Issue>) {
    forall issue :: issue in issues ==> Owed(sc, dead, issue)
  }

  /** The modules refused before the sweep stay so, and no other withdrawn one ever is. */
  ghost predicate RefusedApart(sc: Scene, refused: set<Module>) {
    forall m :: m in sc.withdrawn || TooLate(sc, m) ==> (m in refused <==> TooLate(sc, m))
  }

  ghost predicate Inv(sc: Scene, st: State) {
    && RefusedApart(sc, st.refused)
    && AllOwed(sc, st.dead, st.issues)
    && st.dead == sc.withdrawn + st.refused
    && st.dead <= Elements(sc.lives)
    && (forall e :: e in st.from ==> WiredWell(sc, st, e, st.from[e]))
    && (forall m :: m in st.refused ==> Traced(m, st.issues))
    && (forall k :: k in sc.mixed ==> Mixed(k.spelling) in st.issues)
  }

  /** An edge that is wired or could still be. */
  ghost predicate Hope(sc: Scene, st: State, e: Edge) {
    e in st.from || exists s :: s in Alive(sc, st) && Supplies(s, e.key)
  }

  ghost function Hopes(sc: Scene, st: State): set<Edge> {
    set m, dl | m in sc.lives && dl in m.decls && SingleNeed(dl) && Hope(sc, st, Edge(m, dl.key)) :: Edge(m, dl.key)
  }

  predicate OfTheSweep(issue: Issue) {
    issue.Missing? || issue.Ambiguous? || issue.NeedsTheLast? || issue.Mixed?
  }

  /** Nothing is said but what the sweep says. */
  ghost predicate OnlySweeps(issues: seq<Issue>, issues': seq<Issue>) {
    forall issue :: issue in issues' ==> issue in issues || OfTheSweep(issue)
  }

  /** What every step keeps: the dead stay dead, sentences stay said, no edge that lost
      its last candidate regains one, and only `m`'s edges move. */
  ghost predicate Advance(sc: Scene, st: State, st': State, m: Module) {
    && st.dead <= st'.dead && st.issues <= st'.issues && OnlySweeps(st.issues, st'.issues)
    && (forall e :: Hope(sc, st', e) ==> Hope(sc, st, e))
    && (forall e: Edge :: e.to != m ==> (e in st'.from <==> e in st.from))
    && (forall e: Edge :: e.to != m && e in st.from ==> st'.from[e] == st.from[e])
    && NeverRewired(sc, st, st')
  }

  /** A wired edge keeps its supplier, or is unwired and can never be wired again. */
  ghost predicate NeverRewired(sc: Scene, st: State, st': State) {
    forall e :: e in st.from ==> if e in st'.from then st'.from[e] == st.from[e] else !Hope(sc, st', e)
  }

  lemma RewiringComposes(sc: Scene, a: State, b: State, c: State)
    requires NeverRewired(sc, a, b) && NeverRewired(sc, b, c)
    requires forall e :: Hope(sc, c, e) ==> Hope(sc, b, e)
    ensures NeverRewired(sc, a, c)
  {
    forall e | e in a.from ensures if e in c.from then c.from[e] == a.from[e] else !Hope(sc, c, e) {
      if e in c.from { assert Hope(sc, c, e); }
    }
  }

  /** The measure: someone died, or an edge lost its last hope. */
  ghost predicate Progress(sc: Scene, st: State, st': State) {
    Alive(sc, st') < Alive(sc, st) || (Alive(sc, st') == Alive(sc, st) && Hopes(sc, st') < Hopes(sc, st))
  }

  ghost predicate EdgeSettled(sc: Scene, st: State, m: Module, dl: Declaration)
    requires SingleNeed(dl)
  {
    var e := Edge(m, dl.key);
    if e in st.from then st.from[e] !in st.dead
    else dl.Optional? && forall s :: s in Alive(sc, st) ==> !Supplies(s, dl.key)
  }

  ghost predicate NeedsSettled(sc: Scene, st: State, m: Module) {
    forall dl :: dl in m.decls && SingleNeed(dl) ==> EdgeSettled(sc, st, m, dl)
  }

  predicate ReadsTheLast(from: map<Edge, Module>, last: Module, m: Module, dl: Declaration) {
    || (ManyNeed(dl) && Contributes(dl.key) in last.decls)
    || (SingleNeed(dl) && Edge(m, dl.key) in from && from[Edge(m, dl.key)] == last)
  }

  ghost predicate ClearlyFirst(sc: Scene, st: State, m: Module) {
    sc.last.Some? && m != sc.last.value ==>
      forall dl :: dl in m.decls ==> !ReadsTheLast(st.from, sc.last.value, m, dl)
  }

  ghost predicate ModuleSettled(sc: Scene, st: State, m: Module) {
    NeedsSettled(sc, st, m) && ClearlyFirst(sc, st, m)
  }

  /** What makes the sweep silent: every survivor of Choose is answered and clear of
      the module that runs last. */
  ghost predicate Clean(sc: Scene) {
    var alive := Survivors(Elements(sc.lives), sc.chosen);
    && (forall m :: m in alive ==> NeedsAnswered(alive, m))
    && (forall m :: m in alive && sc.last.Some? && m != sc.last.value ==> ClearOfTheLast(alive, sc.last.value, m))
  }

  ghost predicate Quiet(st: State, base: seq<Issue>) {
    st.refused == {} && st.issues == base
  }

  // ---------------------------------------------------------------- small steps

  function FailOnce(issues: seq<Issue>, issue: Issue): (r: seq<Issue>)
    ensures issues <= r && issue in r
  {
    if issue in issues then issues else issues + [issue]
  }

  /** The candidates left are the living suppliers, each once. */
  lemma CandidatesAreLiving(sc: Scene, st: State, k: Contract)
    requires SceneOk(sc) && Inv(sc, st)
    ensures var cand := Outside(Lookup(sc.surviving, k), st.dead);
            NoDup(cand) && forall s :: s in cand <==> s in Alive(sc, st) && Supplies(s, k)
  {
    assert SupplierList(sc.lives, sc.chosen, sc.withdrawn, sc.surviving, k);
  }

  lemma OwedKept(sc: Scene, dead: set<Module>, dead': set<Module>, issue: Issue)
    requires Owed(sc, dead, issue) && dead <= dead'
    ensures Owed(sc, dead', issue)
  {
    if issue.Missing? {
      var m, k :| NeedIsOwed(sc, dead, m, k) && m.name == issue.name && k.spelling == issue.spelling;
      assert NeedIsOwed(sc, dead', m, k);
    }
  }

  lemma AllOwedKept(sc: Scene, dead: set<Module>, dead': set<Module>, issues: seq<Issue>)
    requires AllOwed(sc, dead, issues) && dead <= dead'
    ensures AllOwed(sc, dead', issues)
  {
    forall issue | issue in issues ensures Owed(sc, dead', issue) { OwedKept(sc, dead, dead', issue); }
  }

  lemma OneMoreOwed(sc: Scene, dead: set<Module>, issues: seq<Issue>, issue: Issue)
    requires AllOwed(sc, dead, issues) && Owed(sc, dead, issue)
    ensures AllOwed(sc, dead, FailOnce(issues, issue)) && AllOwed(sc, dead, issues + [issue])
  {
  }

  function Refuse(st: State, m: Module, issues: seq<Issue>): State {
    st.(dead := st.dead + {m}, refused := st.refused + {m}, issues := issues)
  }

  /** Refusing a traced module keeps the invariant and is progress when it was living. */
  lemma RefuseKeeps(sc: Scene, st: State, m: Module, issues: seq<Issue>)
    requires SceneOk(sc) && Inv(sc, st) && m in sc.lives && st.issues <= issues && Traced(m, issues)
    requires m !in sc.withdrawn && AllOwed(sc, st.dead, issues) && OnlySweeps(st.issues, issues)
    ensures Inv(sc, Refuse(st, m, issues)) && Advance(sc, st, Refuse(st, m, issues), m)
    ensures m !in st.dead ==> Progress(sc, st, Refuse(st, m, issues))
  {
    var st' := Refuse(st, m, issues);
    TracesKept(st.refused, st.issues, issues);
    AllOwedKept(sc, st.dead, st'.dead, issues);
    assert Alive(sc, st') <= Alive(sc, st);
    forall e | e in st'.from ensures WiredWell(sc, st', e, st'.from[e]) {
      assert WiredWell(sc, st, e, st.from[e]);
    }
    if m !in st.dead {
      assert m in Alive(sc, st) && m !in Alive(sc, st');
    }
  }

  lemma WireKeeps(sc: Scene, st: State, e: Edge, s: Module)
    requires SceneOk(sc) && Inv(sc, st) && e !in st.from
    requires WiredWell(sc, st, e, s) && s in Alive(sc, st)
    ensures var st' := st.(from := st.from[e := s]); Inv(sc, st') && Advance(sc, st, st', e.to)
  {
    var st' := st.(from := st.from[e := s]);
    assert Alive(sc, st') == Alive(sc, st);
    forall x | x in st'.from ensures WiredWell(sc, st', x, st'.from[x]) {
      if x != e { assert WiredWell(sc, st, x, st.from[x]); }
    }
  }

  lemma HopeLostForGood(sc: Scene, st: State, e: Edge)
    requires Inv(sc, st) && e in st.from && st.from[e] in st.dead
    ensures forall s :: s in Alive(sc, st) ==> !Supplies(s, e.key)
  {
    assert WiredWell(sc, st, e, st.from[e]);
  }

  lemma UnwireKeepsInv(sc: Scene, st: State, e: Edge)
    requires Inv(sc, st)
    ensures Inv(sc, st.(from := st.from - {e}))
  {
    var st' := st.(from := st.from - {e});
    assert Alive(sc, st') == Alive(sc, st);
    forall x | x in st'.from ensures WiredWell(sc, st', x, st'.from[x]) {
      assert WiredWell(sc, st, x, st.from[x]);
    }
  }

  /** Unwiring an edge whose supplier died loses its last hope for good. */
  lemma UnwireKeeps(sc: Scene, st: State, e: Edge, dl: Declaration)
    requires SceneOk(sc) && Inv(sc, st) && e in st.from && st.from[e] in st.dead
    requires dl in e.to.decls && SingleNeed(dl) && dl.key == e.key
    ensures var st' := st.(from := st.from - {e});
            Inv(sc, st') && Advance(sc, st, st', e.to) && Progress(sc, st, st')
  {
    var st' := st.(from := st.from - {e});
    assert Alive(sc, st') == Alive(sc, st);
    UnwireKeepsInv(sc, st, e);
    HopeLostForGood(sc, st, e);
    NoHopeLeft(sc, st, e);
    HopeLost(sc, st, st', e, dl);
  }

  lemma NoHopeLeft(sc: Scene, st: State, e: Edge)
    requires e in st.from && forall s :: s in Alive(sc, st) ==> !Supplies(s, e.key)
    ensures var st' := st.(from := st.from - {e});
            !Hope(sc, st', e) && (forall x :: Hope(sc, st', x) ==> Hope(sc, st, x)) && NeverRewired(sc, st, st')
  {
    assert Alive(sc, st.(from := st.from - {e})) == Alive(sc, st);
  }

  lemma HopeLost(sc: Scene, st: State, st': State, e: Edge, dl: Declaration)
    requires Alive(sc, st') == Alive(sc, st)
    requires forall x :: Hope(sc, st', x) ==> Hope(sc, st, x)
    requires Hope(sc, st, e) && !Hope(sc, st', e)
    requires e.to in sc.lives && dl in e.to.decls && SingleNeed(dl) && dl.key == e.key
    ensures Progress(sc, st, st')
  {
    HopesShrink(sc, st, st');
    assert e == Edge(e.to, dl.key);
    assert e in Hopes(sc, st) && e !in Hopes(sc, st');
  }

  lemma AdvanceComposes(sc: Scene, a: State, b: State, c: State, m: Module)
    requires Advance(sc, a, b, m) && Advance(sc, b, c, m)
    ensures Advance(sc, a, c, m)
  {
    RewiringComposes(sc, a, b, c);
  }

  /** Progress anywhere in a run is progress over the run. */
  lemma ProgressCarries(sc: Scene, a: State, b: State, c: State)
    requires a.dead <= b.dead <= c.dead
    requires forall e :: Hope(sc, b, e) ==> Hope(sc, a, e)
    requires forall e :: Hope(sc, c, e) ==> Hope(sc, b, e)
    requires Progress(sc, a, b) || Progress(sc, b, c)
    ensures Progress(sc, a, c)
  {
    assert Alive(sc, c) <= Alive(sc, b) <= Alive(sc, a);
    HopesShrink(sc, a, b);
    HopesShrink(sc, b, c);
  }

  lemma HopesShrink(sc: Scene, a: State, b: State)
    requires forall e :: Hope(sc, b, e) ==> Hope(sc, a, e)
    ensures Hopes(sc, b) <= Hopes(sc, a)
  {
  }

  // ------------------------------------------------------------------ the sweep

  /** What any stretch of the sweep over one module keeps and achieves. */
  ghost predicate Ran(sc: Scene, st: State, st': State, m: Module, changed: bool, base: seq<Issue>) {
    && Inv(sc, st') && Advance(sc, st, st', m)
    && (!changed ==> st'.dead == st.dead && st'.issues == st.issues)
    && (changed && m !in st.dead ==> Progress(sc, st, st'))
    && (Clean(sc) && Quiet(st, base) ==> Quiet(st', base))
  }

  lemma RanOn(sc: Scene, a: State, b: State, c: State, m: Module, first: bool, second: bool, base: seq<Issue>)
    requires Ran(sc, a, b, m, first, base) && Ran(sc, b, c, m, second, base)
    ensures Ran(sc, a, c, m, first || second, base)
  {
    AdvanceComposes(sc, a, b, c, m);
    if m !in a.dead && (first || second) {
      ProgressCarries(sc, a, b, c);
    }
  }

  /** Every candidate was itself refused, by a sentence already said. */
  ghost predicate AnsweredByARefusal(sc: Scene, refused: set<Module>, k: Contract) {
    var list := Lookup(sc.surviving, k);
    list != [] && forall s :: s in list ==> s in refused
  }

  /** A hard need no living module answers is said once, unless the contract has candidates
      and all of them were themselves refused; either way the refusal is traced. */
  method MissingNeed(sc: Scene, st: State, m: Module, k: Contract) returns (issues: seq<Issue>)
    requires SceneOk(sc) && Inv(sc, st) && Needs(k, false) in m.decls
    ensures issues == if AnsweredByARefusal(sc, st.refused, k) || Missing(m.name, k.spelling) in st.issues then st.issues
                      else st.issues + [Missing(m.name, k.spelling)]
    ensures Traced(m, issues)
  {
    assert SupplierList(sc.lives, sc.chosen, sc.withdrawn, sc.surviving, k);
    var sup := Lookup(sc.surviving, k);
    var i := 0;
    while i < |sup|
      invariant 0 <= i <= |sup|
      invariant forall j :: 0 <= j < i ==> sup[j] in st.refused
    {
      if sup[i] !in st.refused {
        break;
      }
      i := i + 1;
    }
    if i == |sup| && i > 0 {
      assert sup[0] in sup && HardNeeds(m, sup[0]);
      TraceVia(m, sup[0], st.issues);
      return st.issues;
    }
    assert i < |sup| ==> sup[i] in sup;
    issues := FailOnce(st.issues, Missing(m.name, k.spelling));
    TraceSelf(m, Missing(m.name, k.spelling), issues);
  }

  /** A need left without a candidate, none of which a refusal answers for, is owed its
      sentence. */
  lemma MissingIsOwed(sc: Scene, st: State, m: Module, k: Contract)
    requires SceneOk(sc) && Inv(sc, st) && m in sc.lives && m !in sc.withdrawn && Needs(k, false) in m.decls
    requires (forall s :: s in Lookup(sc.surviving, k) ==> s in st.dead) && !AnsweredByARefusal(sc, st.refused, k)
    ensures Owed(sc, st.dead, Missing(m.name, k.spelling))
  {
    var list := Lookup(sc.surviving, k);
    if list != [] {
      var s :| s in list && s !in st.refused;
      assert ChosenAway(sc, s);
    }
    assert NeedIsOwed(sc, st.dead, m, k);
  }

  /** The wiring is kept, and at most this edge is new. */
  ghost predicate OnlyWires(from: map<Edge, Module>, from': map<Edge, Module>, e: Edge) {
    && (forall x :: x in from ==> x in from' && from'[x] == from[x])
    && (forall x :: x in from' ==> x in from || x == e)
  }

  lemma RefusedRan(sc: Scene, st: State, m: Module, issues: seq<Issue>, base: seq<Issue>)
    requires SceneOk(sc) && Inv(sc, st) && m in sc.lives && st.issues <= issues && Traced(m, issues)
    requires m !in sc.withdrawn && AllOwed(sc, st.dead, issues) && OnlySweeps(st.issues, issues)
    requires !(Clean(sc) && Quiet(st, base))
    ensures Ran(sc, st, Refuse(st, m, issues), m, true, base)
  {
    RefuseKeeps(sc, st, m, issues);
  }

  lemma UnwiredRan(sc: Scene, st: State, e: Edge, dl: Declaration, base: seq<Issue>)
    requires SceneOk(sc) && Inv(sc, st) && e in st.from && st.from[e] in st.dead
    requires dl in e.to.decls && SingleNeed(dl) && dl.key == e.key
    ensures Ran(sc, st, st.(from := st.from - {e}), e.to, true, base)
  {
    UnwireKeeps(sc, st, e, dl);
  }

  lemma WiredRan(sc: Scene, st: State, e: Edge, s: Module, base: seq<Issue>)
    requires SceneOk(sc) && Inv(sc, st) && e !in st.from && WiredWell(sc, st, e, s) && s in Alive(sc, st)
    ensures Ran(sc, st, st.(from := st.from[e := s]), e.to, false, base)
  {
    WireKeeps(sc, st, e, s);
  }

  /** A clean scene has said nothing while a need is left without its one supplier. */
  lemma NotQuiet(sc: Scene, st: State, m: Module, dl: Declaration, base: seq<Issue>)
    requires SceneOk(sc) && Inv(sc, st) && m in sc.lives && m !in sc.withdrawn && dl in m.decls && SingleNeed(dl)
    requires dl.Needs? ==> forall s :: !OnlySupplier(Alive(sc, st), dl.key, s)
    requires dl.Optional? ==> !AtMostOneSupplier(Alive(sc, st), dl.key)
    ensures !(Clean(sc) && Quiet(st, base))
  {
    CleanAnswers(sc, st, m, base);
  }

  lemma SeveralIsOwed(sc: Scene, st: State, m: Module, k: Contract, a: Module, b: Module)
    requires Inv(sc, st) && m in sc.lives && m !in sc.withdrawn && TakesOne(m, k)
    requires a != b && a in Outside(Lookup(sc.surviving, k), st.dead) && b in Outside(Lookup(sc.surviving, k), st.dead)
    ensures Owed(sc, st.dead, if k in sc.mixed then Mixed(k.spelling) else Ambiguous(k.spelling))
  {
    if k !in sc.mixed { assert PickIsOwed(sc, m, k, a, b); }
  }

  /** One single need of one module: kept, wired, unwired, left empty or refused. */
  method SettleNeed(sc: Scene, st: State, m: Module, dl: Declaration, ghost base: seq<Issue>)
    returns (st': State, changed: bool, stop: bool)
    requires SceneOk(sc) && Inv(sc, st)
    requires m in sc.lives && m !in sc.withdrawn && dl in m.decls && SingleNeed(dl)
    ensures Ran(sc, st, st', m, changed, base)
    ensures !changed ==> EdgeSettled(sc, st', m, dl) && OnlyWires(st.from, st'.from, Edge(m, dl.key))
    ensures stop ==> changed
  {
    var e := Edge(m, dl.key);
    stop := false;
    if e in st.from {
      assert WiredWell(sc, st, e, st.from[e]);
      if st.from[e] !in st.dead {
        return st, false, false;
      }
      if dl.Needs? {
        assert HardNeeds(m, st.from[e]);
        TraceVia(m, st.from[e], st.issues);
        RefusedRan(sc, st, m, st.issues, base);
        return Refuse(st, m, st.issues), true, true;
      }
      UnwiredRan(sc, st, e, dl, base);
      return st.(from := st.from - {e}), true, true;
    }
    st', changed := FillNeed(sc, st, m, dl, base);
  }

  /** A need that is not wired: one living candidate wires it, none or several refuse it. */
  method FillNeed(sc: Scene, st: State, m: Module, dl: Declaration, ghost base: seq<Issue>)
    returns (st': State, changed: bool)
    requires SceneOk(sc) && Inv(sc, st)
    requires m in sc.lives && m !in sc.withdrawn && dl in m.decls && SingleNeed(dl) && Edge(m, dl.key) !in st.from
    ensures Ran(sc, st, st', m, changed, base)
    ensures !changed ==> EdgeSettled(sc, st', m, dl) && OnlyWires(st.from, st'.from, Edge(m, dl.key))
  {
    CandidatesAreLiving(sc, st, dl.key);
    var cand := Outside(Lookup(sc.surviving, dl.key), st.dead);
    if |cand| == 1 {
      OneIsWired(sc, st, m, dl, cand[0], base);
      return st.(from := st.from[Edge(m, dl.key) := cand[0]]), false;
    }
    if |cand| == 0 && dl.Optional? {
      NoneIsLeft(sc, st, m, dl, base);
      return st, false;
    }
    st' := RefuseNeed(sc, st, m, dl, cand, base);
    changed := true;
  }

  lemma OneIsWired(sc: Scene, st: State, m: Module, dl: Declaration, s: Module, base: seq<Issue>)
    requires SceneOk(sc) && Inv(sc, st)
    requires m in sc.lives && m !in sc.withdrawn && dl in m.decls && SingleNeed(dl) && Edge(m, dl.key) !in st.from
    requires Outside(Lookup(sc.surviving, dl.key), st.dead) == [s]
    ensures var st' := st.(from := st.from[Edge(m, dl.key) := s]);
            Ran(sc, st, st', m, false, base) && EdgeSettled(sc, st', m, dl) && OnlyWires(st.from, st'.from, Edge(m, dl.key))
  {
    CandidatesAreLiving(sc, st, dl.key);
    assert s in [s];
    WiredRan(sc, st, Edge(m, dl.key), s, base);
  }

  lemma NoneIsLeft(sc: Scene, st: State, m: Module, dl: Declaration, base: seq<Issue>)
    requires SceneOk(sc) && Inv(sc, st) && dl.Optional? && SingleNeed(dl) && Edge(m, dl.key) !in st.from
    requires Outside(Lookup(sc.surviving, dl.key), st.dead) == []
    ensures Ran(sc, st, st, m, false, base) && EdgeSettled(sc, st, m, dl)
  {
    CandidatesAreLiving(sc, st, dl.key);
  }

  /** Without one candidate: the module is refused, with what is owed about its need. */
  method RefuseNeed(sc: Scene, st: State, m: Module, dl: Declaration, cand: seq<Module>, ghost base: seq<Issue>)
    returns (st': State)
    requires SceneOk(sc) && Inv(sc, st)
    requires m in sc.lives && m !in sc.withdrawn && dl in m.decls && SingleNeed(dl)
    requires cand == Outside(Lookup(sc.surviving, dl.key), st.dead) && |cand| != 1 && (|cand| == 0 ==> dl.Needs?)
    ensures Ran(sc, st, st', m, true, base)
  {
    CandidatesAreLiving(sc, st, dl.key);
    var issues;
    if |cand| == 0 {
      NotQuiet(sc, st, m, dl, base);
      issues := MissingNeed(sc, st, m, dl.key);
      MissingRan(sc, st, m, dl.key, issues, base);
    } else {
      assert cand[0] in cand && cand[1] in cand && cand[0] != cand[1];
      NotQuiet(sc, st, m, dl, base);
      var issue := if dl.key in sc.mixed then Mixed(dl.key.spelling) else Ambiguous(dl.key.spelling);
      issues := FailOnce(st.issues, issue);
      SeveralRan(sc, st, m, dl.key, cand[0], cand[1], issue, base);
    }
    st' := Refuse(st, m, issues);
  }

  lemma MissingRan(sc: Scene, st: State, m: Module, k: Contract, issues: seq<Issue>, base: seq<Issue>)
    requires SceneOk(sc) && Inv(sc, st) && m in sc.lives && m !in sc.withdrawn && Needs(k, false) in m.decls
    requires forall s :: s in Lookup(sc.surviving, k) ==> s in st.dead
    requires issues == if AnsweredByARefusal(sc, st.refused, k) || Missing(m.name, k.spelling) in st.issues then st.issues
                       else st.issues + [Missing(m.name, k.spelling)]
    requires Traced(m, issues) && !(Clean(sc) && Quiet(st, base))
    ensures Ran(sc, st, Refuse(st, m, issues), m, true, base)
  {
    if issues != st.issues {
      MissingIsOwed(sc, st, m, k);
      OneMoreOwed(sc, st.dead, st.issues, Missing(m.name, k.spelling));
    }
    RefusedRan(sc, st, m, issues, base);
  }

  lemma SeveralRan(sc: Scene, st: State, m: Module, k: Contract, a: Module, b: Module, issue: Issue, base: seq<Issue>)
    requires SceneOk(sc) && Inv(sc, st) && m in sc.lives && m !in sc.withdrawn && TakesOne(m, k)
    requires a != b && a in Outside(Lookup(sc.surviving, k), st.dead) && b in Outside(Lookup(sc.surviving, k), st.dead)
    requires issue == if k in sc.mixed then Mixed(k.spelling) else Ambiguous(k.spelling)
    requires !(Clean(sc) && Quiet(st, base))
    ensures Ran(sc, st, Refuse(st, m, FailOnce(st.issues, issue)), m, true, base)
  {
    var issues := FailOnce(st.issues, issue);
    TraceSelf(m, issue, issues);
    SeveralIsOwed(sc, st, m, k, a, b);
    OneMoreOwed(sc, st.dead, st.issues, issue);
    RefusedRan(sc, st, m, issues, base);
  }

  lemma QuietIsSurvival(sc: Scene, st: State, base: seq<Issue>)
    requires SceneOk(sc) && Inv(sc, st) && Quiet(st, base)
    ensures Alive(sc, st) == Survivors(Elements(sc.lives), sc.chosen)
  {
  }

  /** While nothing has been said, a clean scene answers every living module. */
  lemma CleanAnswers(sc: Scene, st: State, m: Module, base: seq<Issue>)
    requires SceneOk(sc) && Inv(sc, st) && m in sc.lives && m !in sc.withdrawn
    ensures Clean(sc) && Quiet(st, base) ==>
              && m in Alive(sc, st) && NeedsAnswered(Alive(sc, st), m)
              && (sc.last.Some? && m != sc.last.value ==> ClearOfTheLast(Alive(sc, st), sc.last.value, m))
  {
    if Clean(sc) && Quiet(st, base) {
      QuietIsSurvival(sc, st, base);
    }
  }

  ghost predicate SettledTo(sc: Scene, st: State, m: Module, n: nat)
    requires n <= |m.decls|
  {
    forall j :: 0 <= j < n && SingleNeed(m.decls[j]) ==> EdgeSettled(sc, st, m, m.decls[j])
  }

  lemma StaysSettled(sc: Scene, was: State, st: State, m: Module, n: nat)
    requires n < |m.decls| && SingleNeed(m.decls[n]) && st.dead == was.dead
    requires OnlyWires(was.from, st.from, Edge(m, m.decls[n].key))
    requires SettledTo(sc, was, m, n) && EdgeSettled(sc, st, m, m.decls[n])
    ensures SettledTo(sc, st, m, n + 1)
  {
    forall j | 0 <= j < n && SingleNeed(m.decls[j]) ensures EdgeSettled(sc, st, m, m.decls[j]) {
      assert EdgeSettled(sc, was, m, m.decls[j]);
    }
  }

  method SettleNeeds(sc: Scene, st: State, m: Module, ghost base: seq<Issue>) returns (st': State, changed: bool)
    requires SceneOk(sc) && Inv(sc, st)
    requires m in sc.lives && m !in st.dead
    ensures Ran(sc, st, st', m, changed, base)
    ensures !changed ==> NeedsSettled(sc, st', m)
  {
    st', changed := st, false;
    for i := 0 to |m.decls|
      invariant Ran(sc, st, st', m, changed, base)
      invariant !changed ==> SettledTo(sc, st', m, i)
    {
      var dl := m.decls[i];
      if !SingleNeed(dl) {
        continue;
      }
      ghost var was := st';
      var hit, stop;
      st', hit, stop := SettleNeed(sc, st', m, dl, base);
      RanOn(sc, st, was, st', m, changed, hit, base);
      changed := changed || hit;
      if stop {
        break;
      }
      if !changed {
        StaysSettled(sc, was, st', m, i);
      }
    }
  }

  /** The sentences about `m` coming after the module that runs last: one for each of its
      first `n` declarations that reads it. */
  function LastSentences(from: map<Edge, Module>, last: Module, m: Module, n: nat): seq<Issue>
    requires n <= |m.decls|
  {
    if n == 0 then []
    else LastSentences(from, last, m, n - 1) +
         if ReadsTheLast(from, last, m, m.decls[n - 1]) then [NeedsTheLast(m.name, m.decls[n - 1].key)] else []
  }

  /** Refuses each way `m` could be placed after the module that runs last. */
  method DependsOnLast(from: map<Edge, Module>, issues: seq<Issue>, last: Module, m: Module)
    returns (issues': seq<Issue>, died: bool)
    ensures issues' == issues + LastSentences(from, last, m, |m.decls|)
    ensures died <==> exists dl :: dl in m.decls && ReadsTheLast(from, last, m, dl)
    ensures died <==> issues' != issues
    ensures died ==> Traced(m, issues')
  {
    issues', died := issues, false;
    for i := 0 to |m.decls|
      invariant issues' == issues + LastSentences(from, last, m, i)
      invariant died <==> LastSentences(from, last, m, i) != []
    {
      if ReadsTheLast(from, last, m, m.decls[i]) {
        issues' := issues' + [NeedsTheLast(m.name, m.decls[i].key)];
        died := true;
      }
    }
    SaidOfTheReaders(from, last, m, |m.decls|, issues);
  }

  /** There is a sentence exactly when some declaration reads the last module, and it is
      about this one. */
  lemma {:induction false} SaidOfTheReaders(from: map<Edge, Module>, last: Module, m: Module, n: nat, issues: seq<Issue>)
    requires n <= |m.decls|
    ensures LastSentences(from, last, m, n) != [] <==> exists j :: 0 <= j < n && ReadsTheLast(from, last, m, m.decls[j])
    ensures LastSentences(from, last, m, n) != [] ==> Traced(m, issues + LastSentences(from, last, m, n))
  {
    if n > 0 {
      SaidOfTheReaders(from, last, m, n - 1, issues);
      if ReadsTheLast(from, last, m, m.decls[n - 1]) {
        TraceSelf(m, NeedsTheLast(m.name, m.decls[n - 1].key), issues + LastSentences(from, last, m, n));
      } else {
        assert LastSentences(from, last, m, n) == LastSentences(from, last, m, n - 1);
      }
    }
  }

  lemma {:induction false} LastSentencesOwed(sc: Scene, st: State, m: Module, n: nat)
    requires Inv(sc, st) && m in sc.lives && m !in sc.withdrawn && sc.last.Some? && m != sc.last.value && n <= |m.decls|
    ensures forall issue :: issue in LastSentences(st.from, sc.last.value, m, n) ==> Owed(sc, st.dead, issue) && OfTheSweep(issue)
  {
    if n > 0 {
      LastSentencesOwed(sc, st, m, n - 1);
      var dl := m.decls[n - 1];
      if ReadsTheLast(st.from, sc.last.value, m, dl) {
        if SingleNeed(dl) { assert WiredWell(sc, st, Edge(m, dl.key), st.from[Edge(m, dl.key)]); }
        assert PlaceIsOwed(sc, m, dl);
      }
    }
  }

  /** Refusing a module that reads the last one. */
  lemma LastRan(sc: Scene, st: State, m: Module, issues: seq<Issue>, base: seq<Issue>)
    requires SceneOk(sc) && Inv(sc, st) && m in sc.lives && m !in st.dead && sc.last.Some? && m != sc.last.value
    requires issues == st.issues + LastSentences(st.from, sc.last.value, m, |m.decls|) && Traced(m, issues)
    requires exists dl :: dl in m.decls && ReadsTheLast(st.from, sc.last.value, m, dl)
    ensures Ran(sc, st, Refuse(st, m, issues), m, true, base)
  {
    LastSentencesOwed(sc, st, m, |m.decls|);
    CleanAnswers(sc, st, m, base);
    ReadsNotClear(sc, st, m);
    RefusedRan(sc, st, m, issues, base);
  }

  /** Whoever reads the last module is not clear of it, unless that one was refused. */
  lemma ReadsNotClear(sc: Scene, st: State, m: Module)
    requires SceneOk(sc) && Inv(sc, st) && m in sc.lives && m !in st.dead && sc.last.Some? && m != sc.last.value
    requires exists dl :: dl in m.decls && ReadsTheLast(st.from, sc.last.value, m, dl)
    ensures ClearOfTheLast(Alive(sc, st), sc.last.value, m) ==> sc.last.value !in sc.withdrawn && sc.last.value !in Alive(sc, st)
  {
    var dl :| dl in m.decls && ReadsTheLast(st.from, sc.last.value, m, dl);
    if ManyNeed(dl) {
      assert TakesEvery(m, dl.key);
    } else {
      assert WiredWell(sc, st, Edge(m, dl.key), sc.last.value);
    }
  }

  method SettleModule(sc: Scene, st: State, m: Module, ghost base: seq<Issue>) returns (st': State, changed: bool)
    requires SceneOk(sc) && Inv(sc, st)
    requires m in sc.lives && m !in st.dead
    ensures Ran(sc, st, st', m, changed, base)
    ensures !changed ==> ModuleSettled(sc, st', m)
  {
    st', changed := SettleNeeds(sc, st, m, base);
    if m !in st'.dead && sc.last.Some? && m != sc.last.value {
      var issues, died := DependsOnLast(st'.from, st'.issues, sc.last.value, m);
      if died {
        LastRan(sc, st', m, issues, base);
        RanOn(sc, st, st', Refuse(st', m, issues), m, changed, true, base);
        st' := Refuse(st', m, issues);
        changed := true;
      }
    }
  }

  /** What any stretch of a pass keeps and achieves. */
  ghost predicate Swept(sc: Scene, st: State, st': State, changed: bool, base: seq<Issue>) {
    && Inv(sc, st') && st.dead <= st'.dead && st.issues <= st'.issues && OnlySweeps(st.issues, st'.issues)
    && (forall e :: Hope(sc, st', e) ==> Hope(sc, st, e)) && NeverRewired(sc, st, st')
    && (!changed ==> st'.dead == st.dead)
    && (changed ==> Progress(sc, st, st'))
    && (Clean(sc) && Quiet(st, base) ==> Quiet(st', base))
  }

  lemma SweptOn(sc: Scene, a: State, b: State, c: State, m: Module, first: bool, second: bool, base: seq<Issue>)
    requires Swept(sc, a, b, first, base) && Ran(sc, b, c, m, second, base) && m !in b.dead
    ensures Swept(sc, a, c, first || second, base)
  {
    RewiringComposes(sc, a, b, c);
    if first || second { ProgressCarries(sc, a, b, c); }
  }

  /** The living among the first `n` are settled. */
  ghost predicate SettledSoFar(sc: Scene, st: State, n: nat)
    requires n <= |sc.lives|
  {
    forall j :: 0 <= j < n && sc.lives[j] !in st.dead ==> ModuleSettled(sc, st, sc.lives[j])
  }

  lemma OneMoreSettled(sc: Scene, was: State, st: State, n: nat)
    requires SceneOk(sc) && n < |sc.lives| && SettledSoFar(sc, was, n)
    requires Advance(sc, was, st, sc.lives[n]) && st.dead == was.dead && ModuleSettled(sc, st, sc.lives[n])
    ensures SettledSoFar(sc, st, n + 1)
  {
    forall j | 0 <= j < n && sc.lives[j] !in st.dead ensures ModuleSettled(sc, st, sc.lives[j]) {
      SettledElsewhere(sc, was, st, sc.lives[n], sc.lives[j]);
    }
  }

  /** One pass over the modules in Use order. */
  method Pass(sc: Scene, st: State, ghost base: seq<Issue>) returns (st': State, changed: bool)
    requires SceneOk(sc) && Inv(sc, st)
    ensures Inv(sc, st') && st.dead <= st'.dead && st.issues <= st'.issues && OnlySweeps(st.issues, st'.issues)
    ensures (forall e :: Hope(sc, st', e) ==> Hope(sc, st, e)) && NeverRewired(sc, st, st')
    ensures !changed ==> forall m :: m in Alive(sc, st') ==> ModuleSettled(sc, st', m)
    ensures changed ==> Progress(sc, st, st')
    ensures Clean(sc) && Quiet(st, base) ==> Quiet(st', base)
  {
    st', changed := st, false;
    for i := 0 to |sc.lives|
      invariant Swept(sc, st, st', changed, base)
      invariant !changed ==> SettledSoFar(sc, st', i)
    {
      var m := sc.lives[i];
      if m in st'.dead {
        continue;
      }
      ghost var was := st';
      var hit;
      st', hit := SettleModule(sc, st', m, base);
      SweptOn(sc, st, was, st', m, changed, hit, base);
      changed := changed || hit;
      if !changed {
        OneMoreSettled(sc, was, st', i);
      }
    }
  }

  lemma SettledElsewhere(sc: Scene, st: State, st': State, m: Module, other: Module)
    requires Advance(sc, st, st', m) && st'.dead == st.dead && other != m
    requires ModuleSettled(sc, st, other)
    ensures ModuleSettled(sc, st', other)
  {
    forall dl | dl in other.decls && SingleNeed(dl) ensures EdgeSettled(sc, st', other, dl) {
      assert EdgeSettled(sc, st, other, dl);
    }
  }

  lemma LivingSuppliers(sc: Scene, st: State)
    requires Inv(sc, st) && forall m :: m in Alive(sc, st) ==> ModuleSettled(sc, st, m)
    ensures forall e :: e in st.from && e.to in Alive(sc, st) ==> st.from[e] in Alive(sc, st)
  {
    forall e | e in st.from && e.to in Alive(sc, st) ensures st.from[e] in Alive(sc, st) {
      assert WiredWell(sc, st, e, st.from[e]) && NeedsSettled(sc, st, e.to);
      assert e == Edge(e.to, e.key);
      if Needs(e.key, false) in e.to.decls {
        assert EdgeSettled(sc, st, e.to, Needs(e.key, false));
      } else {
        assert EdgeSettled(sc, st, e.to, Optional(e.key, false));
      }
    }
  }

  /** The whole sweep terminates on every input and leaves every living module settled: an
      edge that lost its last candidate regains none, a wired one keeps its supplier or is
      unwired for good, and every supplier left is living.  Every module it refuses is
      traced by a chain of hard needs to a recorded sentence, and it says nothing when
      nothing was wrong. */
  method Settle(sc: Scene, st: State) returns (st': State)
    requires SceneOk(sc) && Inv(sc, st)
    ensures Inv(sc, st') && st.dead <= st'.dead && st.issues <= st'.issues && OnlySweeps(st.issues, st'.issues)
    ensures forall m :: m in st'.refused ==> Traced(m, st'.issues)
    ensures forall m :: m in Alive(sc, st') ==> ModuleSettled(sc, st', m)
    ensures (forall e :: Hope(sc, st', e) ==> Hope(sc, st, e)) && NeverRewired(sc, st, st')
    ensures forall e :: e in st'.from && e.to in Alive(sc, st') ==> st'.from[e] in Alive(sc, st')
    ensures Clean(sc) && st.refused == {} ==> Quiet(st', st.issues)
  {
    st' := st;
    var changed := true;
    while changed
      invariant Inv(sc, st') && st.dead <= st'.dead && st.issues <= st'.issues && OnlySweeps(st.issues, st'.issues)
      invariant (forall e :: Hope(sc, st', e) ==> Hope(sc, st, e)) && NeverRewired(sc, st, st')
      invariant !changed ==> forall m :: m in Alive(sc, st') ==> ModuleSettled(sc, st', m)
      invariant Clean(sc) && st.refused == {} ==> Quiet(st', st.issues)
      decreases changed, Alive(sc, st'), Hopes(sc, st')
    {
      ghost var was := st';
      st', changed := Pass(sc, st', st.issues);
      RewiringComposes(sc, st, was, st');
    }
    LivingSuppliers(sc, st');
  }
}
