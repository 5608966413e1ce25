/** What a module's build reads and writes: the values it declared it needs, and the
    ones it declared it provides or contributes. */
module WiringModel {
  import opened Composition
  import opened Options
  import opened Resolver

  /** A value put for a contract; `Nil` is a nil of an interface type. */
  datatype Value = Nil | Payload(n: int)

  type Puts = map<Contract, seq<Value>>

  datatype Manifest = Manifest(name: string)

  /** Why a read stops a build. */
  datatype Failure = Undeclared(key: Contract) | NoSupplier(key: Contract)

  datatype BuildError =
    | WrongCount(key: Contract, supplier: Module, n: nat)
    | NilContribution(key: Contract, contributor: Module)
    | PutUndeclared(key: Contract)
    | BuildFailed
    | NotProvidedOnce(key: Contract)
    | NotContributed(key: Contract)
    | ContributedOften(key: Contract, n: nat)

  /** What a build does next, and what it hears back.  `Get` of an unnamed slice type
      (`many`) is a read nothing can have declared for `Get`. */
  datatype Step =
    | GetOne(key: Contract, many: bool)
    | GetAll(key: Contract)
    | PutOne(key: Contract, value: Value)
    | ReadComposition
    | Finish(result: Option<Manifest>)

  datatype Answer =
    | Got(value: Option<Value>)
    | GotAll(values: seq<Value>)
    | PutDone
    | Saw(manifests: seq<Manifest>)

  /** An arbitrary terminating build: its next step depends on everything it has heard.
      A result of None is an error the build returns. */
  datatype Build = Build(limit: nat, next: seq<Answer> -> Step, final: seq<Answer> -> Option<Manifest>)

  /** A step a build took and what it heard back. */
  datatype Heard = Heard(step: Step, answer: Answer)

  function AnswersOf(log: seq<Heard>): seq<Answer> {
    seq(|log|, i requires 0 <= i < |log| => log[i].answer)
  }

  /** The steps are the script's, each decided by what was heard before it. */
  ghost predicate Scripted(b: Build, log: seq<Heard>) {
    forall i :: 0 <= i < |log| ==> log[i].step == b.next(AnswersOf(log[..i]))
  }

  function PutBy(values: map<Module, Puts>, m: Module, k: Contract): seq<Value> {
    if m in values then Get(values[m], k) else []
  }

  // ------------------------------------------------------- what a read answers

  /** The first declaration of the module that takes the contract this way. */
  predicate Declares(m: Module, k: Contract, many: bool) {
    Needs(k, many) in m.decls || Optional(k, many) in m.decls
  }

  /** The declaration a read answers to when a module declares several: the first. */
  function FirstDeclared(decls: seq<Declaration>, k: Contract, many: bool): (dl: Option<Declaration>)
    ensures dl.Some? <==> Needs(k, many) in decls || Optional(k, many) in decls
    ensures dl.Some? ==> dl.value in decls && dl.value in {Needs(k, many), Optional(k, many)}
  {
    if decls == [] then None
    else if decls[0] == Needs(k, many) || decls[0] == Optional(k, many) then Some(decls[0])
    else FirstDeclared(decls[1..], k, many)
  }

  /** A module's needs are all in reach: the supplier of each wired need put exactly
      one value, and so did every contributor to each contract it takes every of. */
  ghost predicate InReach(p: Plan, values: map<Module, Puts>, m: Module) {
    && (forall k :: TakesOne(m, k) && Edge(m, k) in p.from ==>
          p.from[Edge(m, k)] != m && |PutBy(values, p.from[Edge(m, k)], k)| == 1)
    && (forall k :: Needs(k, false) in m.decls ==> Edge(m, k) in p.from)
    && (forall k, c :: TakesEvery(m, k) && c in Get(p.contributors, k) ==> c != m && |PutBy(values, c, k)| == 1)
  }

  /** What the step must hear, by what was put before the build: the one value of a wired
      need, the zero value of one nobody supplies, every contribution in order, and every
      manifest for the module that runs last. */
  ghost predicate RightAnswer(p: Plan, m: Module, values: map<Module, Puts>, built: seq<Manifest>, h: Heard) {
    match h.step
    case GetOne(k, many) =>
      !many && Declares(m, k, false) &&
      if Edge(m, k) in p.from then exists v :: PutBy(values, p.from[Edge(m, k)], k) == [v] && h.answer == Got(Some(v))
      else h.answer == Got(None)
    case GetAll(k) => Declares(m, k, true) && h.answer == GotAll(Contributions(values, Get(p.contributors, k), k))
    case PutOne(_, _) => h.answer == PutDone
    case ReadComposition => h.answer == Saw(if p.last == Some(m) then built else [])
    case Finish(_) => false
  }

  ghost predicate RightAnswers(p: Plan, m: Module, values: map<Module, Puts>, built: seq<Manifest>, log: seq<Heard>) {
    forall i :: 0 <= i < |log| ==> RightAnswer(p, m, values, built, log[i])
  }

  lemma {:induction false} ContributionsSame(values: map<Module, Puts>, values': map<Module, Puts>, from: seq<Module>, k: Contract)
    requires forall c :: c in from ==> PutBy(values', c, k) == PutBy(values, c, k)
    ensures Contributions(values', from, k) == Contributions(values, from, k)
  {
    if from != [] {
      assert from == from[..|from| - 1] + [from[|from| - 1]];
      ContributionsSame(values, values', from[..|from| - 1], k);
    }
  }

  lemma OneMoreHeard(p: Plan, m: Module, values: map<Module, Puts>, built: seq<Manifest>, b: Build, log: seq<Heard>, h: Heard)
    requires RightAnswers(p, m, values, built, log) && Scripted(b, log)
    requires RightAnswer(p, m, values, built, h) && h.step == b.next(AnswersOf(log))
    ensures RightAnswers(p, m, values, built, log + [h]) && Scripted(b, log + [h])
    ensures AnswersOf(log + [h]) == AnswersOf(log) + [h.answer]
  {
    var longer := log + [h];
    forall i | 0 <= i < |longer| ensures longer[i].step == b.next(AnswersOf(longer[..i])) {
      assert longer[..i] == log[..i];
      assert i == |log| ==> log[..i] == log;
    }
  }

  /** The values of the contributors in order, nils left out. */
  function Contributions(values: map<Module, Puts>, from: seq<Module>, k: Contract): seq<Value> {
    if from == [] then []
    else Contributions(values, from[..|from| - 1], k) + NonNil(PutBy(values, from[|from| - 1], k))
  }

  function NonNil(vs: seq<Value>): seq<Value> {
    if vs == [] then []
    else NonNil(vs[..|vs| - 1]) + if vs[|vs| - 1].Nil? then [] else [vs[|vs| - 1]]
  }

  /** All answers one value per contributor, exactly when no contributor put a nil. */
  lemma {:induction false} OnePerContributor(values: map<Module, Puts>, from: seq<Module>, k: Contract)
    requires forall c :: c in from ==> |PutBy(values, c, k)| == 1
    ensures |Contributions(values, from, k)| <= |from|
    ensures |Contributions(values, from, k)| == |from| <==> forall c :: c in from ==> PutBy(values, c, k) != [Nil]
    ensures |Contributions(values, from, k)| == |from| ==>
              forall i :: 0 <= i < |from| ==> PutBy(values, from[i], k) == [Contributions(values, from, k)[i]]
  {
    if from != [] {
      var rest, c := from[..|from| - 1], from[|from| - 1];
      assert from == rest + [c];
      OnePerContributor(values, rest, k);
      var put := PutBy(values, c, k);
      assert c in from && put == [put[0]];
      JustOne(put[0]);
    }
  }

  lemma JustOne(v: Value)
    ensures NonNil([v]) == if v.Nil? then [] else [v]
  {
    assert [v][..0] == [];
  }

  /** What reading a list of contributions records: one error for every nil, in order. */
  function NilErrors(values: map<Module, Puts>, from: seq<Module>, k: Contract): seq<BuildError> {
    if from == [] then []
    else
      var c := from[|from| - 1];
      NilErrors(values, from[..|from| - 1], k) + NilsOf(c, PutBy(values, c, k), k)
  }

  function NilsOf(c: Module, put: seq<Value>, k: Contract): seq<BuildError> {
    if put == [] then []
    else NilsOf(c, put[..|put| - 1], k) + if put[|put| - 1].Nil? then [NilContribution(k, c)] else []
  }

  /** What a read has collected and recorded after its first `n` contributors. */
  ghost predicate HeardSoFar(values: map<Module, Puts>, from: seq<Module>, k: Contract, before: seq<BuildError>,
                             n: nat, all: seq<Value>, errs: seq<BuildError>) {
    n <= |from| && all == Contributions(values, from[..n], k) && errs == before + NilErrors(values, from[..n], k)
  }

  lemma HeardOneMore(values: map<Module, Puts>, from: seq<Module>, k: Contract, before: seq<BuildError>,
                     n: nat, all: seq<Value>, errs: seq<BuildError>)
    requires n < |from| && HeardSoFar(values, from, k, before, n, all, errs)
    ensures var put := PutBy(values, from[n], k);
            HeardSoFar(values, from, k, before, n + 1, all + NonNil(put), errs + NilsOf(from[n], put, k))
  {
    assert from[..n + 1][..n] == from[..n];
  }

  /** The read is told of every contributor that put a nil and of no other. */
  lemma {:induction false} NilsAreRecorded(values: map<Module, Puts>, from: seq<Module>, k: Contract)
    ensures forall e :: e in NilErrors(values, from, k) <==>
              exists c :: c in from && Nil in PutBy(values, c, k) && e == NilContribution(k, c)
    ensures |NilErrors(values, from, k)| + |Contributions(values, from, k)| == TotalPut(values, from, k)
  {
    if from != [] {
      var rest, c := from[..|from| - 1], from[|from| - 1];
      assert from == rest + [c];
      NilsAreRecorded(values, rest, k);
      NilsOfOne(c, PutBy(values, c, k), k);
    }
  }

  lemma {:induction false} NilsOfOne(c: Module, put: seq<Value>, k: Contract)
    ensures forall e :: e in NilsOf(c, put, k) <==> Nil in put && e == NilContribution(k, c)
    ensures |NilsOf(c, put, k)| + |NonNil(put)| == |put|
  {
    if put != [] {
      assert put == put[..|put| - 1] + [put[|put| - 1]];
      NilsOfOne(c, put[..|put| - 1], k);
    }
  }

  function TotalPut(values: map<Module, Puts>, from: seq<Module>, k: Contract): nat {
    if from == [] then 0 else TotalPut(values, from[..|from| - 1], k) + |PutBy(values, from[|from| - 1], k)|
  }

  lemma StillClean(before: seq<BuildError>, values: map<Module, Puts>, from: seq<Module>, k: Contract)
    ensures CleanErrors(before) ==> CleanErrors(before + NilErrors(values, from, k))
  {
    NilsAreRecorded(values, from, k);
  }

  ghost predicate CleanErrors(errs: seq<BuildError>) {
    forall e :: e in errs ==> !e.WrongCount?
  }

  // --------------------------------------------------------- what a build comes to

  /** How a build ended: cut short at a read, or with what it returned; None is an error. */
  datatype Outcome = Stopped(failure: Failure) | Returned(result: Option<Manifest>)

  /** A read the module did not declare. */
  predicate Refuses(m: Module, step: Step) {
    match step
    case GetOne(k, many) => many || !Declares(m, k, false)
    case GetAll(k) => !Declares(m, k, true)
    case _ => false
  }

  /** After this log the build is over: the script is at its end, or its next step finishes
      or reads what the module did not declare. */
  predicate EndsAs(m: Module, b: Build, log: seq<Heard>, outcome: Outcome) {
    |log| <= b.limit &&
    if |log| == b.limit then outcome == Returned(b.final(AnswersOf(log)))
    else
      var step := b.next(AnswersOf(log));
      if step.Finish? then outcome == Returned(step.result)
      else Refuses(m, step) && outcome == Stopped(Undeclared(step.key))
  }

  /** The whole course of a build beside these values and manifests: every step is the
      script's, every answer the right one, and it ends where the script does. */
  ghost predicate Ran(p: Plan, m: Module, b: Build, values: map<Module, Puts>, built: seq<Manifest>, log: seq<Heard>, outcome: Outcome) {
    Scripted(b, log) && RightAnswers(p, m, values, built, log) && EndsAs(m, b, log, outcome)
  }

  /** What one step puts for a contract, and what it records. */
  function StepPuts(m: Module, step: Step, k: Contract): seq<Value> {
    if step.PutOne? && step.key == k && Supplies(m, k) then [step.value] else []
  }

  function StepErrors(p: Plan, m: Module, values: map<Module, Puts>, step: Step): seq<BuildError> {
    match step
    case PutOne(k, _) => if Supplies(m, k) then [] else [PutUndeclared(k)]
    case GetAll(k) => NilErrors(values, Get(p.contributors, k), k)
    case _ => []
  }

  /** The values the logged steps put for a contract the module supplies, in order. */
  function ScriptPuts(m: Module, log: seq<Heard>, k: Contract): seq<Value> {
    if log == [] then [] else ScriptPuts(m, log[..|log| - 1], k) + StepPuts(m, log[|log| - 1].step, k)
  }

  /** What the logged steps record, in order. */
  function ScriptErrors(p: Plan, m: Module, values: map<Module, Puts>, log: seq<Heard>): seq<BuildError> {
    if log == [] then [] else ScriptErrors(p, m, values, log[..|log| - 1]) + StepErrors(p, m, values, log[|log| - 1].step)
  }

  /** The build has put and recorded exactly what its log says. */
  ghost predicate Recorded(p: Plan, m: Module, values: map<Module, Puts>, log: seq<Heard>, values': map<Module, Puts>, errs: seq<BuildError>) {
    && errs == ScriptErrors(p, m, values, log)
    && forall k :: PutsAre(m, log, values', k)
  }

  ghost predicate PutsAre(m: Module, log: seq<Heard>, values: map<Module, Puts>, k: Contract) {
    && PutBy(values, m, k) == ScriptPuts(m, log, k)
    && ((m in values && k in values[m]) <==> ScriptPuts(m, log, k) != [])
  }

  lemma LogGrows(p: Plan, m: Module, values: map<Module, Puts>, log: seq<Heard>, h: Heard, k: Contract)
    ensures ScriptPuts(m, log + [h], k) == ScriptPuts(m, log, k) + StepPuts(m, h.step, k)
    ensures ScriptErrors(p, m, values, log + [h]) == ScriptErrors(p, m, values, log) + StepErrors(p, m, values, h.step)
  {
    assert (log + [h])[..|log|] == log;
  }

  /** A step that puts nothing. */
  lemma RecordedQuiet(p: Plan, m: Module, values: map<Module, Puts>, log: seq<Heard>, values': map<Module, Puts>,
                      errs: seq<BuildError>, h: Heard, errs': seq<BuildError>)
    requires Recorded(p, m, values, log, values', errs) && !h.step.PutOne?
    requires errs' == errs + StepErrors(p, m, values, h.step)
    ensures Recorded(p, m, values, log + [h], values', errs')
  {
    forall k ensures PutsAre(m, log + [h], values', k) && ScriptErrors(p, m, values, log + [h]) == errs' {
      assert PutsAre(m, log, values', k);
      LogGrows(p, m, values, log, h, k);
    }
    LogGrows(p, m, values, log, h, Contract(0, ""));
  }

  /** A put: kept for a contract the module supplies, recorded as an error for any other. */
  lemma RecordedPut(p: Plan, m: Module, values: map<Module, Puts>, log: seq<Heard>, before: map<Module, Puts>,
                    errs: seq<BuildError>, k: Contract, v: Value, after: map<Module, Puts>, errs': seq<BuildError>)
    requires Recorded(p, m, values, log, before, errs)
    requires if Supplies(m, k) then errs' == errs && after == before[m := (if m in before then before[m] else map[])[k := PutBy(before, m, k) + [v]]]
             else errs' == errs + [PutUndeclared(k)] && after == before
    ensures Recorded(p, m, values, log + [Heard(PutOne(k, v), PutDone)], after, errs')
  {
    var h := Heard(PutOne(k, v), PutDone);
    forall j ensures PutsAre(m, log + [h], after, j) {
      assert PutsAre(m, log, before, j);
      LogGrows(p, m, values, log, h, j);
    }
    LogGrows(p, m, values, log, h, k);
  }

  lemma {:induction false} NilErrorsSame(values: map<Module, Puts>, values': map<Module, Puts>, from: seq<Module>, k: Contract)
    requires forall c :: c in from ==> PutBy(values', c, k) == PutBy(values, c, k)
    ensures NilErrors(values', from, k) == NilErrors(values, from, k)
  {
    if from != [] {
      assert from == from[..|from| - 1] + [from[|from| - 1]];
      NilErrorsSame(values, values', from[..|from| - 1], k);
    }
  }

  // ------------------------------------------------------- there is one course of it

  lemma OneAnswer(p: Plan, m: Module, values: map<Module, Puts>, built: seq<Manifest>, h: Heard, g: Heard)
    requires RightAnswer(p, m, values, built, h) && RightAnswer(p, m, values, built, g) && h.step == g.step
    ensures h == g
  {
  }

  /** Up to the shorter of two logs they agree. */
  lemma {:induction false} LogsAgree(p: Plan, m: Module, b: Build, values: map<Module, Puts>, built: seq<Manifest>,
                                     log: seq<Heard>, other: seq<Heard>, n: nat)
    requires Scripted(b, log) && RightAnswers(p, m, values, built, log)
    requires Scripted(b, other) && RightAnswers(p, m, values, built, other)
    requires n <= |log| && n <= |other|
    ensures log[..n] == other[..n]
  {
    if n > 0 {
      LogsAgree(p, m, b, values, built, log, other, n - 1);
      assert log[n - 1].step == b.next(AnswersOf(log[..n - 1])) == other[n - 1].step;
      OneAnswer(p, m, values, built, log[n - 1], other[n - 1]);
      assert log[..n] == log[..n - 1] + [log[n - 1]] && other[..n] == other[..n - 1] + [other[n - 1]];
    }
  }

  /** A log that goes on was not the end. */
  lemma NotOver(p: Plan, m: Module, b: Build, values: map<Module, Puts>, built: seq<Manifest>, log: seq<Heard>, outcome: Outcome, longer: seq<Heard>)
    requires |log| < |longer| <= b.limit && longer[..|log|] == log
    requires Scripted(b, longer) && RightAnswers(p, m, values, built, longer)
    ensures !EndsAs(m, b, log, outcome)
  {
    var n := |log|;
    assert longer[n].step == b.next(AnswersOf(longer[..n]));
    assert RightAnswer(p, m, values, built, longer[n]);
  }

  /** A script run beside the same values and manifests takes one course and ends one way. */
  lemma OneCourse(p: Plan, m: Module, b: Build, values: map<Module, Puts>, built: seq<Manifest>,
                  log: seq<Heard>, outcome: Outcome, other: seq<Heard>, outcome2: Outcome)
    requires Ran(p, m, b, values, built, log, outcome) && Ran(p, m, b, values, built, other, outcome2)
    ensures log == other && outcome == outcome2
  {
    var n := if |log| <= |other| then |log| else |other|;
    LogsAgree(p, m, b, values, built, log, other, n);
    assert log[..|log|] == log && other[..|other|] == other;
    if |log| < |other| { NotOver(p, m, b, values, built, log, outcome, other); }
    if |other| < |log| { NotOver(p, m, b, values, built, other, outcome2, log); }
  }

  // ------------------------------------------------------- when nothing is recorded

  /** The build puts a contract the module does not supply. */
  ghost predicate PutsUndeclared(m: Module, log: seq<Heard>) {
    exists i :: 0 <= i < |log| && log[i].step.PutOne? && !Supplies(m, log[i].step.key)
  }

  /** The step reads every contribution to a contract one of whose contributors put nil. */
  ghost predicate ReadsNilAt(p: Plan, values: map<Module, Puts>, h: Heard) {
    h.step.GetAll? && exists c :: c in Get(p.contributors, h.step.key) && Nil in PutBy(values, c, h.step.key)
  }

  ghost predicate ReadsNil(p: Plan, values: map<Module, Puts>, log: seq<Heard>) {
    exists i :: 0 <= i < |log| && ReadsNilAt(p, values, log[i])
  }

  lemma StepRecords(p: Plan, m: Module, values: map<Module, Puts>, step: Step)
    ensures StepErrors(p, m, values, step) != [] <==>
      (step.PutOne? && !Supplies(m, step.key)) ||
      (step.GetAll? && exists c :: c in Get(p.contributors, step.key) && Nil in PutBy(values, c, step.key))
  {
    if step.GetAll? {
      var from, k := Get(p.contributors, step.key), step.key;
      NilsAreRecorded(values, from, k);
      var errs := NilErrors(values, from, k);
      if errs != [] { assert errs[0] in errs; }
      if c :| c in from && Nil in PutBy(values, c, k) { assert NilContribution(k, c) in errs; }
    }
  }

  /** Something is recorded exactly for these two mistakes. */
  lemma {:induction false} RecordsExactly(p: Plan, m: Module, values: map<Module, Puts>, log: seq<Heard>)
    ensures ScriptErrors(p, m, values, log) != [] <==> PutsUndeclared(m, log) || ReadsNil(p, values, log)
  {
    if log != [] {
      var before, h := log[..|log| - 1], log[|log| - 1];
      RecordsExactly(p, m, values, before);
      StepRecords(p, m, values, h.step);
      assert forall i :: 0 <= i < |before| ==> before[i] == log[i];
      assert PutsUndeclared(m, log) <==> PutsUndeclared(m, before) || (h.step.PutOne? && !Supplies(m, h.step.key));
      ReadsOneMore(p, values, log);
    }
  }

  lemma ReadsOneMore(p: Plan, values: map<Module, Puts>, log: seq<Heard>)
    requires log != []
    ensures ReadsNil(p, values, log) <==> (ReadsNil(p, values, log[..|log| - 1]) || ReadsNilAt(p, values, log[|log| - 1]))
  {
    var n := |log| - 1;
    assert forall i :: 0 <= i < n ==> log[..n][i] == log[i];
    if i :| 0 <= i < |log| && ReadsNilAt(p, values, log[i]) {
      if i < n { assert log[..n][i] == log[i]; }
    }
  }

  class Wiring {
    const plan: Plan
    var at: Option<Module>
    var values: map<Module, Puts>
    var built: seq<Manifest>
    var errs: seq<BuildError>

    constructor (p: Plan)
      ensures plan == p && at == None && values == map[] && built == [] && errs == []
    {
      plan, at, values, built, errs := p, None, map[], [], [];
    }

    method Declared(k: Contract, many: bool) returns (dl: Option<Declaration>)
      requires at.Some?
      ensures dl == FirstDeclared(at.value.decls, k, many)
    {
      assert at.value.decls[0..] == at.value.decls;
      for i := 0 to |at.value.decls|
        invariant FirstDeclared(at.value.decls, k, many) == FirstDeclared(at.value.decls[i..], k, many)
      {
        assert at.value.decls[i..][1..] == at.value.decls[i + 1..];
        if at.value.decls[i] == Needs(k, many) || at.value.decls[i] == Optional(k, many) {
          return Some(at.value.decls[i]);
        }
      }
      return None;
    }

    /** The one value declared with Needs or Optional; None stands for the zero value. */
    method GetOne(k: Contract, many: bool) returns (value: Option<Value>, failure: Option<Failure>)
      requires at.Some?
      modifies this`errs
      ensures failure == Some(Undeclared(k)) <==> many || !Declares(at.value, k, false)
      ensures failure == Some(NoSupplier(k)) <==>
                !many && Edge(at.value, k) !in plan.from && FirstDeclared(at.value.decls, k, false) == Some(Needs(k, false))
      ensures failure.None? || failure == Some(Undeclared(k)) || failure == Some(NoSupplier(k))
      ensures failure.None? && Edge(at.value, k) in plan.from ==>
                var put := PutBy(values, plan.from[Edge(at.value, k)], k);
                if |put| == 1 then value == Some(put[0]) && errs == old(errs)
                else value == None && errs == old(errs) + [WrongCount(k, plan.from[Edge(at.value, k)], |put|)]
      ensures failure.Some? || Edge(at.value, k) !in plan.from ==> value == None && errs == old(errs)
    {
      var dl := Declared(k, many);
      if dl.None? || many {
        return None, Some(Undeclared(k));
      }
      var e := Edge(at.value, k);
      if e !in plan.from {
        return None, if dl.value.Needs? then Some(NoSupplier(k)) else None;
      }
      var put := PutBy(values, plan.from[e], k);
      if |put| != 1 {
        errs := errs + [WrongCount(k, plan.from[e], |put|)];
        return None, None;
      }
      return Some(put[0]), None;
    }

    method ReadContribution(c: Module, put: seq<Value>, k: Contract, before: seq<Value>) returns (all: seq<Value>)
      modifies this`errs
      ensures all == before + NonNil(put)
      ensures errs == old(errs) + NilsOf(c, put, k)
    {
      all := before;
      for j := 0 to |put|
        invariant all == before + NonNil(put[..j])
        invariant errs == old(errs) + NilsOf(c, put[..j], k)
      {
        assert put[..j + 1][..j] == put[..j];
        if put[j].Nil? {
          errs := errs + [NilContribution(k, c)];
        } else {
          all := all + [put[j]];
        }
      }
      assert put[..|put|] == put;
    }

    /** Every contribution, in contributor order; a nil one is an error of the reader. */
    method GetAll(k: Contract) returns (all: seq<Value>, failure: Option<Failure>)
      requires at.Some?
      modifies this`errs
      ensures failure == if Declares(at.value, k, true) then None else Some(Undeclared(k))
      ensures failure.Some? ==> all == [] && errs == old(errs)
      ensures failure.None? ==> all == Contributions(values, Get(plan.contributors, k), k)
      ensures failure.None? ==> errs == old(errs) + NilErrors(values, Get(plan.contributors, k), k)
      ensures CleanErrors(old(errs)) ==> CleanErrors(errs)
    {
      var dl := Declared(k, true);
      all := [];
      if dl.None? {
        return [], Some(Undeclared(k));
      }
      var from := Get(plan.contributors, k);
      for i := 0 to |from|
        invariant HeardSoFar(values, from, k, old(errs), i, all, errs)
      {
        HeardOneMore(values, from, k, old(errs), i, all, errs);
        all := ReadContribution(from[i], PutBy(values, from[i], k), k, all);
      }
      assert from[..|from|] == from;
      StillClean(old(errs), values, from, k);
      return all, None;
    }

    method PutOne(k: Contract, v: Value)
      requires at.Some?
      modifies this`errs, this`values
      ensures !Supplies(at.value, k) ==> values == old(values) && errs == old(errs) + [PutUndeclared(k)]
      ensures Supplies(at.value, k) ==> errs == old(errs)
      ensures Supplies(at.value, k) ==>
                values == old(values)[at.value := (if at.value in old(values) then old(values)[at.value] else map[])
                                                  [k := PutBy(old(values), at.value, k) + [v]]]
    {
      var m := at.value;
      if !Supplies(m, k) {
        errs := errs + [PutUndeclared(k)];
        return;
      }
      var mine: Puts := if m in values then values[m] else map[];
      values := values[m := mine[k := Get(mine, k) + [v]]];
    }

    /** Every other module's manifest, for the module that runs after everything. */
    method Composition() returns (manifests: seq<Manifest>)
      ensures manifests == if at.Some? && at == plan.last then built else []
    {
      if at.None? || at != plan.last {
        return [];
      }
      return built;
    }

    /** Runs one build to its end or to the first read that cannot be answered.  With
        the module's needs in reach, a hard need always answers: the two branches for a
        missing supplier and a wrong count are never taken, and everything the build hears
        is what was put before it. */
    method BuildOne(m: Module, b: Build) returns (manifest: Option<Manifest>, failure: Option<Failure>, ghost log: seq<Heard>)
      requires at == Some(m) && InReach(plan, values, m)
      requires m !in values && errs == []
      modifies this`errs, this`values
      ensures values.Keys <= old(values).Keys + {m}
      ensures forall x :: x in old(values) ==> x in values && values[x] == old(values)[x]
      ensures forall k :: m in values && k in values[m] ==> Supplies(m, k)
      ensures InReach(plan, values, m)
      ensures CleanErrors(errs)
      ensures failure.Some? ==> failure.value.Undeclared? && manifest == None
      ensures Ran(plan, m, b, old(values), built, log, if failure.Some? then Stopped(failure.value) else Returned(manifest))
      ensures Recorded(plan, m, old(values), log, values, errs)
    {
      var heard: seq<Answer> := [];
      log := [];
      for i := 0 to b.limit
        invariant OnlyPuts(plan, m, old(values), values)
        invariant CleanErrors(errs)
        invariant RightAnswers(plan, m, old(values), built, log) && Scripted(b, log) && heard == AnswersOf(log) && |log| == i
        invariant Recorded(plan, m, old(values), log, values, errs)
      {
        ghost var before, recorded := values, errs;
        var step := b.next(heard);
        match step
        case Finish(result) => return result, None, log;
        case GetOne(k, many) =>
          var value;
          value, failure := GetOne(k, many);
          if failure.Some? {
            return None, failure, log;
          }
          GotRight(plan, m, old(values), values, built, k, many, value);
          OneMoreHeard(plan, m, old(values), built, b, log, Heard(step, Got(value)));
          RecordedQuiet(plan, m, old(values), log, values, recorded, Heard(step, Got(value)), errs);
          log, heard := log + [Heard(step, Got(value))], heard + [Got(value)];
        case GetAll(k) =>
          var all;
          all, failure := GetAll(k);
          if failure.Some? {
            return None, failure, log;
          }
          GotAllRight(plan, m, old(values), values, k);
          OneMoreHeard(plan, m, old(values), built, b, log, Heard(step, GotAll(all)));
          RecordedQuiet(plan, m, old(values), log, values, recorded, Heard(step, GotAll(all)), errs);
          log, heard := log + [Heard(step, GotAll(all))], heard + [GotAll(all)];
        case PutOne(k, v) =>
          PutOne(k, v);
          StillOnlyPuts(plan, m, old(values), before, values);
          OneMoreHeard(plan, m, old(values), built, b, log, Heard(step, PutDone));
          RecordedPut(plan, m, old(values), log, before, recorded, k, v, values, errs);
          log, heard := log + [Heard(step, PutDone)], heard + [PutDone];
        case ReadComposition =>
          var manifests := Composition();
          OneMoreHeard(plan, m, old(values), built, b, log, Heard(step, Saw(manifests)));
          RecordedQuiet(plan, m, old(values), log, values, recorded, Heard(step, Saw(manifests)), errs);
          log, heard := log + [Heard(step, Saw(manifests))], heard + [Saw(manifests)];
      }
      return b.final(heard), None, log;
    }
  }

  /** A build has put what it supplies, and nobody else's values moved. */
  ghost predicate OnlyPuts(p: Plan, m: Module, values: map<Module, Puts>, values': map<Module, Puts>) {
    && values'.Keys <= values.Keys + {m}
    && (forall x :: x in values ==> x in values' && values'[x] == values[x])
    && (forall k :: m in values' && k in values'[m] ==> Supplies(m, k))
    && InReach(p, values', m) && InReach(p, values, m) && m !in values
  }

  lemma StillOnlyPuts(p: Plan, m: Module, values: map<Module, Puts>, before: map<Module, Puts>, after: map<Module, Puts>)
    requires OnlyPuts(p, m, values, before)
    requires after == before || (m in after && after == before[m := after[m]] && forall k :: k in after[m] ==> Supplies(m, k))
    ensures OnlyPuts(p, m, values, after)
  {
    OthersPut(p, m, values, after);
  }

  /** What others put is what they had put. */
  lemma OthersPut(p: Plan, m: Module, values: map<Module, Puts>, values': map<Module, Puts>)
    requires values'.Keys <= values.Keys + {m} && m !in values
    requires forall x :: x in values ==> x in values' && values'[x] == values[x]
    ensures forall x, k :: x != m ==> PutBy(values', x, k) == PutBy(values, x, k)
    ensures InReach(p, values, m) ==> InReach(p, values', m)
  {
  }

  lemma GotRight(p: Plan, m: Module, values: map<Module, Puts>, values': map<Module, Puts>, built: seq<Manifest>,
                 k: Contract, many: bool, value: Option<Value>)
    requires OnlyPuts(p, m, values, values') && !many && Declares(m, k, false)
    requires if Edge(m, k) in p.from then
               var put := PutBy(values', p.from[Edge(m, k)], k); |put| == 1 ==> value == Some(put[0])
             else value == None
    ensures RightAnswer(p, m, values, built, Heard(GetOne(k, many), Got(value)))
  {
    OthersPut(p, m, values, values');
    if Edge(m, k) in p.from {
      var put := PutBy(values, p.from[Edge(m, k)], k);
      assert put == [put[0]];
    }
  }

  lemma GotAllRight(p: Plan, m: Module, values: map<Module, Puts>, values': map<Module, Puts>, k: Contract)
    requires OnlyPuts(p, m, values, values') && Declares(m, k, true)
    ensures Contributions(values', Get(p.contributors, k), k) == Contributions(values, Get(p.contributors, k), k)
    ensures NilErrors(values', Get(p.contributors, k), k) == NilErrors(values, Get(p.contributors, k), k)
  {
    OthersPut(p, m, values, values');
    ContributionsSame(values, values', Get(p.contributors, k), k);
    NilErrorsSame(values, values', Get(p.contributors, k), k);
  }
}
