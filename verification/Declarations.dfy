/** The resolver's opening phases: what Use named, what Choose withdraws, what each
    module says about itself, who runs last and which contracts are mixed. */
module Declarations {
  import opened Composition
  import opened ResolutionSpec
  import NeedSettling

  /** The first module of each name, in Use order. */
  function FirstOfName(uses: seq<Module>): (r: seq<Module>)
    ensures |r| <= |uses|
    ensures |r| == |uses| ==> r == uses
  {
    if uses == [] then []
    else
      var rest, m := FirstOfName(uses[..|uses| - 1]), uses[|uses| - 1];
      assert uses == uses[..|uses| - 1] + [m];
      if exists l :: l in rest && l.name == m.name then rest else rest + [m]
  }

  lemma {:induction false} FirstOfNameUnique(uses: seq<Module>)
    ensures UniqueNames(FirstOfName(uses))
    ensures forall m :: m in FirstOfName(uses) ==> m in uses
    ensures UniqueNames(uses) ==> FirstOfName(uses) == uses
  {
    if uses != [] {
      var rest, m := uses[..|uses| - 1], uses[|uses| - 1];
      assert uses == rest + [m];
      FirstOfNameUnique(rest);
      PrefixUnique(rest, uses);
    }
  }

  /** The first module in use of its name. */
  ghost predicate FirstNamed(uses: seq<Module>, i: int) {
    0 <= i < |uses| && forall j :: 0 <= j < i ==> uses[j].name != uses[i].name
  }

  lemma FirstNamedOnward(rest: seq<Module>, m: Module, i: int)
    ensures FirstNamed(rest + [m], i) <==> FirstNamed(rest, i) || (i == |rest| && m.name !in Names(rest))
  {
    var uses := rest + [m];
    assert forall j :: 0 <= j < |rest| ==> uses[j] == rest[j];
    if i == |rest| && m.name in Names(rest) {
      var l :| l in rest && l.name == m.name;
      var j :| 0 <= j < |rest| && rest[j] == l;
      assert uses[j] == l;
    }
    if i == |rest| && m.name !in Names(rest) {
      forall j | 0 <= j < i ensures uses[j].name != uses[i].name { assert rest[j] in rest && uses[j] == rest[j]; }
    }
  }

  /** What is kept of Use: the first module of every name, in Use order. */
  lemma {:induction false} FirstOfNameIs(uses: seq<Module>)
    ensures forall m :: m in FirstOfName(uses) <==> exists i :: FirstNamed(uses, i) && uses[i] == m
    ensures InOrderOf(FirstOfName(uses), uses)
  {
    if uses != [] {
      var rest, m := uses[..|uses| - 1], uses[|uses| - 1];
      assert uses == rest + [m];
      FirstOfNameIs(rest);
      FirstOfNameCovers(rest);
      var more := if m.name in Names(rest) then [] else [m];
      assert FirstOfName(uses) == FirstOfName(rest) + more;
      InOrderAppend(FirstOfName(rest), rest, m, more);
      forall l ensures l in FirstOfName(uses) <==> exists i :: FirstNamed(uses, i) && uses[i] == l {
        OneMoreFirst(rest, m, l);
      }
    }
  }

  lemma OneMoreFirst(rest: seq<Module>, m: Module, l: Module)
    ensures (exists i :: FirstNamed(rest + [m], i) && (rest + [m])[i] == l) <==>
            (exists i :: FirstNamed(rest, i) && rest[i] == l) || (l == m && m.name !in Names(rest))
  {
    if i :| FirstNamed(rest + [m], i) && (rest + [m])[i] == l { FirstNamedOnward(rest, m, i); }
    if i :| FirstNamed(rest, i) && rest[i] == l {
      FirstNamedOnward(rest, m, i);
      assert (rest + [m])[i] == l;
    }
    if l == m && m.name !in Names(rest) {
      FirstNamedOnward(rest, m, |rest|);
      assert (rest + [m])[|rest|] == l;
    }
  }

  lemma {:induction false} FirstOfNameCovers(uses: seq<Module>)
    ensures Names(FirstOfName(uses)) == Names(uses)
  {
    if uses != [] {
      var rest, m := uses[..|uses| - 1], uses[|uses| - 1];
      assert uses == rest + [m];
      FirstOfNameCovers(rest);
      NamesAppend(rest, m);
      NamesAppend(FirstOfName(rest), m);
    }
  }

  function Names(ms: seq<Module>): set<string> {
    set m | m in ms :: m.name
  }

  lemma NamesAppend(ms: seq<Module>, m: Module)
    ensures Names(ms + [m]) == Names(ms) + {m.name}
  {
    assert forall l :: l in ms + [m] <==> l in ms || l == m;
  }

  /** The module at `j` bears a name that stood before it. */
  ghost predicate NamedAgain(uses: seq<Module>, j: nat, name: string) {
    j < |uses| && uses[j].name == name && exists i :: 0 <= i < j && uses[i].name == name
  }

  ghost predicate RepeatedName(uses: seq<Module>, issue: Issue) {
    issue.UsedTwice? && exists j :: NamedAgain(uses, j, issue.name)
  }

  /** What was said after the first `n` sentences. */
  function Since(issues: seq<Issue>, n: nat): seq<Issue>
    requires n <= |issues|
  {
    issues[n..]
  }

  /** Exactly the repeated names are said, and one sentence for each further use. */
  ghost predicate SaysWhoRepeats(uses: seq<Module>, said: seq<Issue>) {
    && (forall issue :: issue in said ==> RepeatedName(uses, issue))
    && (forall j, name :: NamedAgain(uses, j, name) ==> UsedTwice(name) in said)
  }

  lemma OneMoreUse(uses: seq<Module>, i: nat, said: seq<Issue>)
    requires i < |uses| && SaysWhoRepeats(uses[..i], said)
    ensures uses[i].name in Names(uses[..i]) ==> SaysWhoRepeats(uses[..i + 1], said + [UsedTwice(uses[i].name)])
    ensures uses[i].name !in Names(uses[..i]) ==> SaysWhoRepeats(uses[..i + 1], said)
  {
    var before, now := uses[..i], uses[..i + 1];
    assert forall k :: 0 <= k < i ==> before[k] == now[k];
    forall j, name ensures NamedAgain(now, j, name) <==> NamedAgain(before, j, name) || (j == i && name == uses[i].name && name in Names(before)) {
      if j == i && name == uses[i].name && name in Names(before) {
        var m :| m in before && m.name == name;
        var k :| 0 <= k < i && before[k] == m;
        assert now[k].name == name;
      }
      if NamedAgain(now, j, name) {
        var k :| 0 <= k < j && now[k].name == name;
        assert before[k] in before;
      }
    }
    forall issue | RepeatedName(before, issue) ensures RepeatedName(now, issue) {
      var j :| NamedAgain(before, j, issue.name);
      assert NamedAgain(now, j, issue.name);
    }
    if uses[i].name in Names(before) { assert NamedAgain(now, i, uses[i].name); }
  }

  /** One manifest named twice is one manifest built once and one sentence. */
  method UseOnce(uses: seq<Module>, issues: seq<Issue>) returns (lives: seq<Module>, issues': seq<Issue>)
    ensures lives == FirstOfName(uses)
    ensures issues <= issues'
    ensures SaysWhoRepeats(uses, Since(issues', |issues|)) && |issues'| - |issues| == |uses| - |lives|
    ensures UniqueNames(uses) <==> issues' == issues
    ensures UniqueNames(lives) && Names(lives) == Names(uses)
  {
    lives, issues' := [], issues;
    var names: set<string> := {};
    for i := 0 to |uses|
      invariant issues <= issues'
      invariant lives == FirstOfName(uses[..i])
      invariant names == Names(lives) == Names(uses[..i])
      invariant SaysWhoRepeats(uses[..i], Since(issues', |issues|)) && |issues'| - |issues| == i - |lives|
    {
      assert uses[..i + 1][..i] == uses[..i];
      assert uses[..i + 1] == uses[..i] + [uses[i]];
      NamesAppend(uses[..i], uses[i]);
      OneMoreUse(uses, i, Since(issues', |issues|));
      if uses[i].name in names {
        AppendSince(issues', [UsedTwice(uses[i].name)], |issues|);
        issues' := issues' + [UsedTwice(uses[i].name)];
        continue;
      }
      NamesAppend(lives, uses[i]);
      names, lives := names + {uses[i].name}, lives + [uses[i]];
    }
    assert uses[..|uses|] == uses;
    FirstOfNameUnique(uses);
    FirstOfNameCovers(uses);
  }

  lemma AppendSince(issues: seq<Issue>, more: seq<Issue>, n: nat)
    requires n <= |issues|
    ensures Since(issues + more, n) == Since(issues, n) + more
  {
  }

  lemma PrefixUnique(s: seq<Module>, t: seq<Module>)
    requires s <= t
    ensures UniqueNames(t) ==> UniqueNames(s)
  {
    assert forall i :: 0 <= i < |s| ==> s[i] == t[i];
  }

  lemma ContestedMeansTwo(lives: seq<Module>, c: Module, k: Contract)
    requires NoDup(lives) && c in lives && Supplies(c, k)
    ensures |SuppliersOf(lives, k)| > 1 <==> exists s :: s in lives && s != c && Supplies(s, k)
  {
    var r := SuppliersOf(lives, k);
    if |r| > 1 {
      assert r[0] in r && r[1] in r && r[0] != r[1];
      assert r[0] != c || r[1] != c;
    }
    if s :| s in lives && s != c && Supplies(s, k) {
      assert s in r && c in r;
      var i, j := Position(r, s), Position(r, c);
      assert i != j;
    }
  }

  /** What is wrong with a choice: it names nobody in use, or it settles nothing. */
  ghost predicate IdleChoice(lives: seq<Module>, c: Module, issue: Issue) {
    if c !in lives then issue == ChoiceNotInUse(c.name)
    else !Contested(Elements(lives), c) && issue == ChoosesNothing(c.name)
  }

  /** Exactly the choices that are wrong are said, with no more sentences than choices. */
  ghost predicate SaysIdleChoices(lives: seq<Module>, choices: seq<Module>, said: seq<Issue>) {
    && (forall issue :: issue in said ==> exists c :: c in choices && IdleChoice(lives, c, issue))
    && (forall c, issue :: c in choices && IdleChoice(lives, c, issue) ==> issue in said)
    && |said| <= |choices|
  }

  lemma OneMoreChoice(lives: seq<Module>, choices: seq<Module>, c: Module, said: seq<Issue>, more: seq<Issue>)
    requires SaysIdleChoices(lives, choices, said) && |more| <= 1
    requires forall issue :: issue in more <==> IdleChoice(lives, c, issue)
    ensures SaysIdleChoices(lives, choices + [c], said + more)
  {
    forall issue | issue in said + more ensures exists d :: d in choices + [c] && IdleChoice(lives, d, issue) {
      if issue in said {
        var d :| d in choices && IdleChoice(lives, d, issue);
        assert d in choices + [c];
      } else {
        assert c in choices + [c] && IdleChoice(lives, c, issue);
      }
    }
  }

  /** Choose may only name a composed module, and it has to settle something. */
  method ReadChoices(lives: seq<Module>, choices: seq<Module>, issues: seq<Issue>)
    returns (chosen: set<Module>, issues': seq<Issue>)
    requires NoDup(lives)
    ensures chosen == Elements(choices) * Elements(lives)
    ensures issues <= issues' && SaysIdleChoices(lives, choices, Since(issues', |issues|))
    ensures issues' == issues <==> forall c :: c in choices ==> c in lives && Contested(Elements(lives), c)
  {
    chosen, issues' := {}, issues;
    for i := 0 to |choices|
      invariant chosen == Elements(choices[..i]) * Elements(lives)
      invariant issues <= issues' && SaysIdleChoices(lives, choices[..i], Since(issues', |issues|))
      invariant issues' == issues <==> forall j :: 0 <= j < i ==> choices[j] in lives && Contested(Elements(lives), choices[j])
    {
      var c := choices[i];
      assert choices[..i + 1] == choices[..i] + [c];
      if c !in lives {
        OneMoreChoice(lives, choices[..i], c, Since(issues', |issues|), [ChoiceNotInUse(c.name)]);
        AppendSince(issues', [ChoiceNotInUse(c.name)], |issues|);
        issues' := issues' + [ChoiceNotInUse(c.name)];
        continue;
      }
      chosen := chosen + {c};
      var contested := false;
      for j := 0 to |c.decls|
        invariant contested ==> Contested(Elements(lives), c)
        invariant !contested ==> forall k, s :: s in lives && s != c && Supplies(s, k) ==>
                                   Provides(k) !in c.decls[..j] && Contributes(k) !in c.decls[..j]
      {
        var dl := c.decls[j];
        assert c.decls[..j + 1] == c.decls[..j] + [dl];
        if (dl.Provides? || dl.Contributes?) {
          ContestedMeansTwo(lives, c, dl.key);
          if |SuppliersOf(lives, dl.key)| > 1 {
            contested := true;
          }
        }
      }
      assert c.decls[..|c.decls|] == c.decls;
      assert contested <==> Contested(Elements(lives), c);
      ghost var more := if contested then [] else [ChoosesNothing(c.name)];
      OneMoreChoice(lives, choices[..i], c, Since(issues', |issues|), more);
      AppendSince(issues', more, |issues|);
      if !contested {
        issues' := issues' + [ChoosesNothing(c.name)];
      }
    }
    assert choices[..|choices|] == choices;
  }

  /** Every contract some module supplies, each once, in the order first declared. */
  method DeclaredKeys(lives: seq<Module>) returns (keys: seq<Contract>)
    ensures NoDup(keys)
    ensures forall k :: k in keys <==> exists m :: m in lives && Supplies(m, k)
  {
    keys := [];
    for i := 0 to |lives|
      invariant NoDup(keys)
      invariant forall k :: k in keys <==> exists a :: 0 <= a < i && Supplies(lives[a], k)
    {
      var m := lives[i];
      ghost var before := keys;
      for j := 0 to |m.decls|
        invariant NoDup(keys)
        invariant forall k :: k in keys <==> k in before || Provides(k) in m.decls[..j] || Contributes(k) in m.decls[..j]
      {
        var dl := m.decls[j];
        assert m.decls[..j + 1] == m.decls[..j] + [dl];
        if (dl.Provides? || dl.Contributes?) && dl.key !in keys {
          NoDupAppend(keys, dl.key);
          keys := keys + [dl.key];
        }
      }
      assert m.decls[..|m.decls|] == m.decls;
    }
  }

  ghost predicate LosesFor(lives: seq<Module>, chosen: set<Module>, k: Contract, m: Module) {
    m in lives && m !in chosen && Supplies(m, k) && exists c :: c in lives && c in chosen && Supplies(c, k)
  }

  /** One contract: the candidates that remain, and the modules the choice passed over. */
  method WithdrawFor(lives: seq<Module>, chosen: set<Module>, key: Contract)
    returns (remaining: seq<Module>, passed: set<Module>)
    requires NoDup(lives)
    ensures NoDup(remaining) && forall s :: s in remaining <==> NeedSettling.Candidate(lives, chosen, s, key)
    ensures forall s :: s in lives && Supplies(s, key) && s !in remaining ==> s in passed
    ensures forall m :: m in passed <==> LosesFor(lives, chosen, key, m)
  {
    var cand := SuppliersOf(lives, key);
    var picked := Within(cand, chosen);
    if picked == [] {
      assert forall c :: c in lives && c in chosen && Supplies(c, key) ==> c in picked;
      return cand, {};
    }
    assert picked[0] in picked;
    var others := Outside(cand, chosen);
    passed := if |cand| > 1 then Elements(others) else {};
    forall m | m in others ensures |cand| > 1 {
      assert m in cand && picked[0] in cand && m != picked[0];
      var i, j := Position(cand, m), Position(cand, picked[0]);
      assert i != j;
    }
    return picked, passed;
  }

  /** Where a contract has chosen suppliers, the others are not built at all. */
  method Withdraw(lives: seq<Module>, chosen: set<Module>)
    returns (dead: set<Module>, surviving: map<Contract, seq<Module>>)
    requires NoDup(lives) && chosen <= Elements(lives)
    ensures dead == Withdrawn(Elements(lives), chosen)
    ensures forall k :: NeedSettling.SupplierList(lives, chosen, dead, surviving, k)
  {
    var keys := DeclaredKeys(lives);
    dead, surviving := {}, map[];
    for i := 0 to |keys|
      invariant surviving.Keys == Elements(keys[..i])
      invariant forall m :: m in dead <==> exists j :: 0 <= j < i && LosesFor(lives, chosen, keys[j], m)
      invariant forall k :: k in surviving ==> NeedSettling.SupplierList(lives, chosen, dead, surviving, k)
    {
      var key := keys[i];
      assert keys[..i + 1] == keys[..i] + [key];
      var remaining, passed := WithdrawFor(lives, chosen, key);
      ghost var was, wasDead := surviving, dead;
      surviving, dead := surviving[key := remaining], dead + passed;
      forall k | k in surviving ensures NeedSettling.SupplierList(lives, chosen, dead, surviving, k) {
        if k != key { assert NeedSettling.SupplierList(lives, chosen, wasDead, was, k); }
      }
    }
    assert keys[..|keys|] == keys;
    forall m ensures m in dead <==> IsWithdrawn(Elements(lives), chosen, m) {
      if IsWithdrawn(Elements(lives), chosen, m) {
        var k, c :| c in Elements(lives) && c in chosen && Supplies(m, k) && Supplies(c, k);
        assert k in keys && LosesFor(lives, chosen, k, m);
      }
    }
    forall k ensures NeedSettling.SupplierList(lives, chosen, dead, surviving, k) {
      if k !in surviving { assert k !in keys; }
    }
  }

  // --------------------------------------------- what one module says about itself

  /** A declaration no build order can hold beside the module's other ones. */
  predicate Contradicts(m: Module, dl: Declaration) {
    match dl
    case Needs(k, many) => if many then Contributes(k) in m.decls else Supplies(m, k)
    case Optional(k, many) => if many then Contributes(k) in m.decls else Supplies(m, k)
    case Provides(k) => Contributes(k) in m.decls
    case _ => false
  }

  ghost predicate StraightTo(m: Module, n: nat)
    requires n <= |m.decls|
  {
    && (forall i :: 0 <= i < n ==> !Contradicts(m, m.decls[i]))
    && (forall i, j :: 0 <= i < j < n && Swept(m.decls[i]) ==> m.decls[i] != m.decls[j])
  }

  lemma StraightThrough(m: Module)
    ensures StraightTo(m, |m.decls|) <==> SaysItStraight(m)
  {
    if SaysItStraight(m) {
      forall i | 0 <= i < |m.decls| ensures !Contradicts(m, m.decls[i]) {
        assert m.decls[i] in m.decls;
      }
    }
    if StraightTo(m, |m.decls|) {
      assert forall dl :: dl in m.decls ==> !Contradicts(m, dl);
      forall k | TakesEvery(m, k) ensures Contributes(k) !in m.decls {
        assert !Contradicts(m, Needs(k, true)) || !Contradicts(m, Optional(k, true));
      }
      forall k | TakesOne(m, k) ensures !Supplies(m, k) {
        assert !Contradicts(m, Needs(k, false)) || !Contradicts(m, Optional(k, false));
      }
      forall k | Provides(k) in m.decls ensures Contributes(k) !in m.decls {
        assert !Contradicts(m, Provides(k));
      }
    }
  }

  /** What a declaration at `i` is refused for: it contradicts the module's others, or it was
      said before. */
  ghost predicate Misspoken(m: Module, i: nat, issue: Issue)
    requires i < |m.decls|
  {
    var dl := m.decls[i];
    if Contradicts(m, dl) then issue == Contradiction(m.name, dl.key)
    else Swept(dl) && issue == SaidTwice(m.name, dl) && exists j :: 0 <= j < i && m.decls[j] == dl
  }

  /** The sentences about the first `n` declarations: those they are refused for, one each
      at most. */
  ghost predicate SaysWhatIsMisspoken(m: Module, n: nat, said: seq<Issue>)
    requires n <= |m.decls|
  {
    && (forall issue :: issue in said ==> exists i :: 0 <= i < n && Misspoken(m, i, issue))
    && (forall i, issue :: 0 <= i < n && Misspoken(m, i, issue) ==> issue in said)
    && |said| <= n
  }

  lemma OneMoreSaid(m: Module, n: nat, said: seq<Issue>, more: seq<Issue>)
    requires n < |m.decls| && SaysWhatIsMisspoken(m, n, said) && |more| <= 1
    requires forall issue :: issue in more <==> Misspoken(m, n, issue)
    ensures SaysWhatIsMisspoken(m, n + 1, said + more)
  {
    forall issue | issue in said + more ensures exists i :: 0 <= i < n + 1 && Misspoken(m, i, issue) {
      if issue in said {
        var i :| 0 <= i < n && Misspoken(m, i, issue);
      } else {
        assert Misspoken(m, n, issue);
      }
    }
  }

  /** What the declaration at `i` adds. */
  lemma SaidOfOne(m: Module, i: nat, once: set<Declaration>) returns (more: seq<Issue>)
    requires i < |m.decls|
    requires forall dl :: dl in once <==> Swept(dl) && dl in m.decls[..i] && !Contradicts(m, dl)
    ensures more == if !Swept(m.decls[i]) then [] else if Contradicts(m, m.decls[i]) then [Contradiction(m.name, m.decls[i].key)]
                    else if m.decls[i] in once then [SaidTwice(m.name, m.decls[i])] else []
    ensures forall issue :: issue in more <==> Misspoken(m, i, issue)
  {
    var dl := m.decls[i];
    more := if !Swept(dl) then [] else if Contradicts(m, dl) then [Contradiction(m.name, dl.key)]
            else if dl in once then [SaidTwice(m.name, dl)] else [];
    if dl in once {
      var j :| 0 <= j < |m.decls[..i]| && m.decls[..i][j] == dl;
      assert m.decls[j] == dl;
    }
    if j :| 0 <= j < i && m.decls[j] == dl { assert m.decls[..i][j] == dl; }
  }

  method SweepModule(m: Module, issues: seq<Issue>) returns (issues': seq<Issue>)
    ensures issues <= issues' && SaysWhatIsMisspoken(m, |m.decls|, Since(issues', |issues|))
    ensures issues' == issues <==> SaysItStraight(m)
  {
    issues' := issues;
    var once: set<Declaration> := {};
    for i := 0 to |m.decls|
      invariant issues <= issues' && SaysWhatIsMisspoken(m, i, Since(issues', |issues|))
      invariant forall dl :: dl in once <==> Swept(dl) && dl in m.decls[..i] && !Contradicts(m, dl)
    {
      var dl := m.decls[i];
      assert m.decls[..i + 1] == m.decls[..i] + [dl];
      ghost var more := SaidOfOne(m, i, once);
      OneMoreSaid(m, i, Since(issues', |issues|), more);
      AppendSince(issues', more, |issues|);
      if !Swept(dl) {
        continue;
      }
      if Contradicts(m, dl) {
        issues' := issues' + [Contradiction(m.name, dl.key)];
        continue;
      }
      if dl in once {
        issues' := issues' + [SaidTwice(m.name, dl)];
        continue;
      }
      once := once + {dl};
    }
    NothingMisspoken(m, Since(issues', |issues|));
  }

  /** Nothing is said exactly of a module that says everything straight. */
  lemma NothingMisspoken(m: Module, said: seq<Issue>)
    requires SaysWhatIsMisspoken(m, |m.decls|, said)
    ensures said == [] <==> SaysItStraight(m)
  {
    StraightThrough(m);
    if said != [] {
      assert said[0] in said;
      var i :| 0 <= i < |m.decls| && Misspoken(m, i, said[0]);
      assert !StraightTo(m, |m.decls|);
    } else {
      forall i | 0 <= i < |m.decls| ensures !Contradicts(m, m.decls[i]) {
        assert !Misspoken(m, i, Contradiction(m.name, KeyOf(m.decls[i])));
      }
      forall i, j | 0 <= i < j < |m.decls| && Swept(m.decls[i]) ensures m.decls[i] != m.decls[j] {
        assert !Misspoken(m, j, SaidTwice(m.name, m.decls[j]));
      }
    }
  }

  function KeyOf(dl: Declaration): Contract {
    if Swept(dl) then dl.key else Contract(0, "")
  }

  /** Some declaration of the module is refused with this sentence. */
  ghost predicate Misspeaks(m: Module, issue: Issue) {
    exists i :: 0 <= i < |m.decls| && Misspoken(m, i, issue)
  }

  ghost predicate SaysWhoMisspeaks(lives: seq<Module>, said: seq<Issue>) {
    && (forall issue :: issue in said ==> exists m :: m in lives && Misspeaks(m, issue))
    && (forall m, issue :: m in lives && Misspeaks(m, issue) ==> issue in said)
  }

  lemma OneMoreSwept(lives: seq<Module>, m: Module, said: seq<Issue>, more: seq<Issue>)
    requires SaysWhoMisspeaks(lives, said) && SaysWhatIsMisspoken(m, |m.decls|, more)
    ensures SaysWhoMisspeaks(lives + [m], said + more)
  {
    forall issue | issue in said + more ensures exists l :: l in lives + [m] && Misspeaks(l, issue) {
      if issue in said {
        var l :| l in lives && Misspeaks(l, issue);
        assert l in lives + [m];
      } else {
        assert m in lives + [m] && Misspeaks(m, issue);
      }
    }
  }

  lemma SinceTwice(issues: seq<Issue>, n: nat, k: nat)
    requires n <= k <= |issues|
    ensures Since(issues, n) == Since(issues[..k], n) + Since(issues, k)
  {
  }

  method SweepDeclarations(lives: seq<Module>, issues: seq<Issue>) returns (issues': seq<Issue>)
    ensures issues <= issues' && SaysWhoMisspeaks(lives, Since(issues', |issues|))
    ensures issues' == issues <==> forall m :: m in lives ==> SaysItStraight(m)
  {
    issues' := issues;
    for i := 0 to |lives|
      invariant issues <= issues' && SaysWhoMisspeaks(lives[..i], Since(issues', |issues|))
      invariant issues' == issues <==> forall j :: 0 <= j < i ==> SaysItStraight(lives[j])
    {
      ghost var was := issues';
      issues' := SweepModule(lives[i], issues');
      assert issues'[..|was|] == was && lives[..i + 1] == lives[..i] + [lives[i]];
      SinceTwice(issues', |issues|, |was|);
      OneMoreSwept(lives[..i], lives[i], Since(was, |issues|), Since(issues', |was|));
    }
    assert lives[..|lives|] == lives;
  }

  // --------------------------------------------------------------- who runs last

  /** The first module in Use order that asks to run after everything. */
  ghost predicate FirstAsks(lives: seq<Module>, m: Module) {
    exists i :: 0 <= i < |lives| && lives[i] == m && After in m.decls && forall j :: 0 <= j < i ==> After !in lives[j].decls
  }

  /** The modules of a prefix of Use that ask, once each and in Use order. */
  ghost predicate AskersOf(lives: seq<Module>, afters: seq<Module>) {
    && NoDup(afters) && InOrderOf(afters, lives)
    && (forall m :: m in afters <==> m in lives && After in m.decls)
  }

  lemma OneMoreAsker(lives: seq<Module>, m: Module, afters: seq<Module>)
    requires AskersOf(lives, afters) && m !in lives
    ensures AskersOf(lives + [m], if After in m.decls then afters + [m] else afters)
  {
    var more := if After in m.decls then [m] else [];
    InOrderAppend(afters, lives, m, more);
    if After in m.decls { NoDupAppend(afters, m); }
    assert afters + [] == afters;
  }

  lemma FirstAskerStays(lives: seq<Module>, more: seq<Module>, m: Module)
    requires FirstAsks(lives, m)
    ensures FirstAsks(lives + more, m)
  {
    var i :| 0 <= i < |lives| && lives[i] == m && After in m.decls && forall j :: 0 <= j < i ==> After !in lives[j].decls;
    assert (lives + more)[i] == m;
    assert forall j :: 0 <= j < i ==> (lives + more)[j] == lives[j];
  }

  /** Whoever asks when nobody asked before it is the first. */
  lemma FirstToAsk(lives: seq<Module>, m: Module)
    requires AskersOf(lives, []) && After in m.decls
    ensures FirstAsks(lives + [m], m)
  {
    var n := |lives|;
    assert (lives + [m])[n] == m;
    forall j | 0 <= j < n ensures After !in (lives + [m])[j].decls {
      assert lives[j] in lives && lives[j] !in [];
    }
  }

  /** The askers, the first of whom is the first in Use. */
  ghost predicate Asked(lives: seq<Module>, afters: seq<Module>) {
    AskersOf(lives, afters) && (afters != [] ==> FirstAsks(lives, afters[0]))
  }

  lemma OneMoreAsked(lives: seq<Module>, m: Module, afters: seq<Module>)
    requires Asked(lives, afters) && m !in lives
    ensures Asked(lives + [m], if After in m.decls then afters + [m] else afters)
  {
    OneMoreAsker(lives, m, afters);
    if afters != [] {
      FirstAskerStays(lives, [m], afters[0]);
    } else if After in m.decls {
      FirstToAsk(lives, m);
    }
  }

  /** The modules that ask to run after everything, withdrawn ones included, in Use order. */
  method ThoseThatRunLast(lives: seq<Module>) returns (afters: seq<Module>)
    requires NoDup(lives)
    ensures AskersOf(lives, afters)
    ensures forall m :: m in afters <==> RunsLast(Elements(lives), m)
    ensures afters != [] ==> FirstAsks(lives, afters[0])
  {
    afters := [];
    for i := 0 to |lives|
      invariant Asked(lives[..i], afters)
    {
      assert lives[..i + 1] == lives[..i] + [lives[i]];
      OneMoreAsked(lives[..i], lives[i], afters);
      if After in lives[i].decls {
        afters := afters + [lives[i]];
      }
    }
    assert lives[..|lives|] == lives;
  }

  // -------------------------------------------------------------- mixed contracts

  ghost predicate BothWays(lives: seq<Module>, k: Contract) {
    exists a, b :: a in lives && b in lives && Provides(k) in a.decls && Contributes(k) in b.decls
  }

  /** The modules that provide a contract and those that contribute to it. */
  method SidesOf(lives: seq<Module>, key: Contract) returns (providers: seq<Module>, contributors: seq<Module>)
    ensures forall m :: m in providers <==> m in lives && Provides(key) in m.decls
    ensures forall m :: m in contributors <==> m in lives && Contributes(key) in m.decls
  {
    providers, contributors := [], [];
    var sup := SuppliersOf(lives, key);
    for j := 0 to |sup|
      invariant forall m :: m in providers <==> m in sup[..j] && Provides(key) in m.decls
      invariant forall m :: m in contributors <==> m in sup[..j] && Contributes(key) in m.decls
    {
      assert sup[..j + 1] == sup[..j] + [sup[j]];
      if Provides(key) in sup[j].decls { providers := providers + [sup[j]]; }
      if Contributes(key) in sup[j].decls { contributors := contributors + [sup[j]]; }
    }
    assert sup[..|sup|] == sup;
  }

  /** Said both ways by two modules, or by one beside another. */
  method IsMixed(lives: seq<Module>, key: Contract) returns (mixed: bool)
    ensures mixed ==> BothWays(lives, key)
    ensures (forall m :: m in lives ==> SaysItStraight(m)) && BothWays(lives, key) ==> mixed
  {
    var providers, contributors := SidesOf(lives, key);
    if |providers| == 0 || |contributors| == 0 {
      return false;
    }
    assert providers[0] in providers && contributors[0] in contributors;
    if |providers| == 1 && |contributors| == 1 && providers[0] == contributors[0] {
      assert !SaysItStraight(providers[0]);
      return false;
    }
    return true;
  }

  /** A contract is the app's one provider or a contribution, never both. */
  method MixedContracts(lives: seq<Module>, issues: seq<Issue>) returns (mixed: set<Contract>, issues': seq<Issue>)
    ensures issues <= issues'
    ensures forall issue :: issue in issues' ==> issue in issues || exists k :: k in mixed && issue == Mixed(k.spelling)
    ensures forall k :: k in mixed ==> Mixed(k.spelling) in issues'
    ensures mixed == {} ==> issues' == issues
    ensures (forall m :: m in lives ==> SaysItStraight(m)) ==> forall k :: k in mixed <==> BothWays(lives, k)
    ensures forall k :: k in mixed ==> BothWays(lives, k)
  {
    var keys := DeclaredKeys(lives);
    mixed, issues' := {}, issues;
    for i := 0 to |keys|
      invariant issues <= issues'
      invariant forall issue :: issue in issues' ==> issue in issues || exists k :: k in mixed && issue == Mixed(k.spelling)
      invariant forall k :: k in mixed ==> Mixed(k.spelling) in issues'
      invariant mixed == {} ==> issues' == issues
      invariant forall k :: k in mixed ==> BothWays(lives, k)
      invariant (forall m :: m in lives ==> SaysItStraight(m)) ==> forall k :: k in keys[..i] && BothWays(lives, k) ==> k in mixed
    {
      assert keys[..i + 1] == keys[..i] + [keys[i]];
      var both := IsMixed(lives, keys[i]);
      if both {
        mixed := mixed + {keys[i]};
        issues' := NeedSettling.FailOnce(issues', Mixed(keys[i].spelling));
      }
    }
    assert keys[..|keys|] == keys;
    forall k | BothWays(lives, k) ensures k in keys {
      var a, b :| a in lives && b in lives && Provides(k) in a.decls && Contributes(k) in b.decls;
      assert Supplies(a, k);
    }
  }
}
