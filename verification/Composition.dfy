/** What an application declares: modules, the things each says about itself, and
    the problems a composition can have.  A module is an identity (`ptr` stands for
    the pointer) with a name and a list of declarations; a contract is an opaque key
    whose `spelling` is only used in the identifiers of once-only sentences. */
module Composition {
  datatype Contract = Contract(ptr: nat, spelling: string)

  datatype Implementation = Implementation(name: string, inputs: seq<string>, simulated: bool)

  datatype Declaration =
    | Provides(key: Contract)
    | Needs(key: Contract, many: bool)
    | Optional(key: Contract, many: bool)
    | Contributes(key: Contract)
    | After
    | FromDeployment(impls: seq<Implementation>)
    | Describes

  datatype Module = Module(ptr: nat, name: string, decls: seq<Declaration>)

  /** One module's single need for one contract. */
  datatype Edge = Edge(to: Module, key: Contract)

  datatype Environment = Development | Staging | Production | Unknown

  datatype Deployment = Deployment(environment: Environment, inputs: map<string, string>)

  datatype Issue =
    | NotAnEnvironment
    | UsedTwice(name: string)
    | ChoiceNotInUse(name: string)
    | ChoosesNothing(name: string)
    | Contradiction(name: string, key: Contract)
    | SaidTwice(name: string, decl: Declaration)
    | ManyRunLast(afters: seq<Module>)
    | Mixed(spelling: string)
    | Missing(name: string, spelling: string)
    | Ambiguous(spelling: string)
    | NeedsTheLast(name: string, key: Contract)
    | NoImplementation(name: string)
    | MissingInput(name: string, input: string)
    | OnlySimulated(name: string)
    | Cyclic(walk: seq<Module>)
    | NeverPlaced(name: string)

  // ---------------------------------------------------------------- vocabulary

  predicate Supplies(m: Module, k: Contract) {
    Provides(k) in m.decls || Contributes(k) in m.decls
  }

  /** The module takes one value of the contract, whether it must have it or not. */
  predicate TakesOne(m: Module, k: Contract) {
    Needs(k, false) in m.decls || Optional(k, false) in m.decls
  }

  /** The module takes every contribution to the contract. */
  predicate TakesEvery(m: Module, k: Contract) {
    Needs(k, true) in m.decls || Optional(k, true) in m.decls
  }

  predicate SingleNeed(dl: Declaration) {
    (dl.Needs? || dl.Optional?) && !dl.many
  }

  predicate ManyNeed(dl: Declaration) {
    (dl.Needs? || dl.Optional?) && dl.many
  }

  // ------------------------------------------------------------ lists in Use order

  predicate NoDup<T(==)>(s: seq<T>) {
    forall i, j :: 0 <= i < j < |s| ==> s[i] != s[j]
  }

  lemma NoDupAppend<T>(s: seq<T>, x: T)
    requires NoDup(s) && x !in s
    ensures NoDup(s + [x])
  {
  }

  /** `x` stands before position `i` of the list. */
  ghost predicate Before<T>(s: seq<T>, i: int, x: T) {
    exists j :: 0 <= j < i && j < |s| && s[j] == x
  }

  /** `a` stands in the list no later than `b`. */
  ghost predicate NotAfter<T>(s: seq<T>, a: T, b: T) {
    exists i, j :: 0 <= i <= j < |s| && s[i] == a && s[j] == b
  }

  /** The list names its members in the order they stand in the other. */
  ghost predicate InOrderOf<T>(list: seq<T>, s: seq<T>) {
    forall i, j :: 0 <= i <= j < |list| ==> NotAfter(s, list[i], list[j])
  }

  /** Adding a newcomer at the end of both, any number of times to the list, keeps it. */
  lemma InOrderAppend<T>(list: seq<T>, s: seq<T>, x: T, more: seq<T>)
    requires InOrderOf(list, s) && forall y :: y in more ==> y == x
    ensures InOrderOf(list + more, s + [x])
  {
    forall i, j | 0 <= i <= j < |list + more| ensures NotAfter(s + [x], (list + more)[i], (list + more)[j]) {
      assert (s + [x])[|s|] == x;
      if j < |list| {
        assert NotAfter(s, list[i], list[j]);
        var a, b :| 0 <= a <= b < |s| && s[a] == list[i] && s[b] == list[j];
        assert (s + [x])[a] == list[i] && (s + [x])[b] == list[j];
      } else if i < |list| {
        assert NotAfter(s, list[i], list[i]);
        var a :| 0 <= a < |s| && s[a] == list[i];
        assert (s + [x])[a] == list[i] && (list + more)[j] == more[j - |list|] && more[j - |list|] in more;
      } else {
        assert (list + more)[i] == more[i - |list|] && (list + more)[j] == more[j - |list|];
        assert more[i - |list|] in more && more[j - |list|] in more;
      }
    }
  }

  function Elements<T>(s: seq<T>): set<T> {
    set x | x in s
  }

  /** The members of a list that belong to a set, in the list's order. */
  function Within(ms: seq<Module>, keep: set<Module>): (r: seq<Module>)
    ensures forall m :: m in r <==> m in ms && m in keep
    ensures NoDup(ms) ==> NoDup(r)
  {
    if ms == [] then []
    else
      var rest, m := ms[..|ms| - 1], ms[|ms| - 1];
      assert ms == rest + [m];
      Within(rest, keep) + if m in keep then [m] else []
  }

  /** The members of a list outside a set, in the list's order. */
  function Outside(ms: seq<Module>, drop: set<Module>): (r: seq<Module>)
    ensures forall m :: m in r <==> m in ms && m !in drop
    ensures NoDup(ms) ==> NoDup(r)
  {
    if ms == [] then []
    else
      var rest, m := ms[..|ms| - 1], ms[|ms| - 1];
      assert ms == rest + [m];
      Outside(rest, drop) + if m !in drop then [m] else []
  }

  function SuppliersOf(ms: seq<Module>, k: Contract): (r: seq<Module>)
    ensures forall m :: m in r <==> m in ms && Supplies(m, k)
    ensures NoDup(ms) ==> NoDup(r)
  {
    if ms == [] then []
    else
      var rest, m := ms[..|ms| - 1], ms[|ms| - 1];
      assert ms == rest + [m];
      SuppliersOf(rest, k) + if Supplies(m, k) then [m] else []
  }
}
