/** The build order: a queue drains the modules whose dependencies are placed, Use
    order breaking ties, and a depth-first walk from the first leftover names a cycle. */
module BuildOrder {
  import opened Composition
  import opened Options

  type Graph = map<Module, seq<Module>>

  function Deps(g: Graph, m: Module): seq<Module> {
    if m in g then g[m] else []
  }

  ghost predicate Path(g: Graph, walk: seq<Module>) {
    forall i :: 0 <= i < |walk| - 1 ==> walk[i + 1] in Deps(g, walk[i])
  }

  ghost predicate Cycle(g: Graph, walk: seq<Module>) {
    |walk| >= 2 && walk[0] == walk[|walk| - 1] && Path(g, walk)
  }

  // ------------------------------------------------------------ the depth-first walk

  datatype Mark = OnWalk | Done

  /** Everything listed comes after all of its own dependencies. */
  ghost predicate Grounded(g: Graph, fin: seq<Module>) {
    forall i, c :: 0 <= i < |fin| && c in Deps(g, fin[i]) ==> Before(fin, i, c)
  }

  lemma GroundedExtends(g: Graph, fin: seq<Module>, m: Module)
    requires Grounded(g, fin)
    requires forall c :: c in Deps(g, m) ==> c in fin
    ensures Grounded(g, fin + [m])
  {
    forall i, c | 0 <= i <= |fin| && c in Deps(g, (fin + [m])[i])
      ensures Before(fin + [m], i, c)
    {
      if i < |fin| { assert Before(fin, i, c); }
      var j :| 0 <= j < i && fin[j] == c;
      assert (fin + [m])[j] == c;
    }
  }

  ghost predicate WalkInv(g: Graph, marks: map<Module, Mark>, stack: seq<Module>, fin: seq<Module>) {
    && Path(g, stack)
    && Grounded(g, fin)
    && (forall x :: x in stack <==> x in marks && marks[x] == OnWalk)
    && (forall x :: x in fin <==> x in marks && marks[x] == Done)
  }

  ghost predicate ClosedUnder(g: Graph, universe: set<Module>) {
    forall x, c :: x in universe && c in Deps(g, x) ==> c in universe
  }

  method IndexOf(stack: seq<Module>, m: Module) returns (i: nat)
    requires m in stack
    ensures i < |stack| && stack[i] == m
    ensures m !in stack[..i]
  {
    i := 0;
    while stack[i] != m
      invariant i < |stack| && m !in stack[..i]
      decreases |stack| - i
    {
      i := i + 1;
    }
  }

  lemma WalkCloses(g: Graph, stack: seq<Module>, si: nat, dep: Module)
    requires Path(g, stack) && si < |stack| && stack[si] == dep && dep in Deps(g, stack[|stack| - 1])
    ensures Cycle(g, stack[si..] + [dep])
  {
  }

  lemma Enters(g: Graph, marks: map<Module, Mark>, stack: seq<Module>, m: Module, fin: seq<Module>)
    requires WalkInv(g, marks, stack, fin) && m !in marks
    requires stack != [] ==> m in Deps(g, stack[|stack| - 1])
    ensures WalkInv(g, marks[m := OnWalk], stack + [m], fin)
  {
  }

  lemma Leaves(g: Graph, marks: map<Module, Mark>, stack: seq<Module>, m: Module, fin: seq<Module>)
    requires WalkInv(g, marks, stack + [m], fin) && m !in stack && Path(g, stack)
    requires forall c :: c in Deps(g, m) ==> c in fin
    ensures WalkInv(g, marks[m := Done], stack, fin + [m])
  {
    GroundedExtends(g, fin, m);
    assert forall x :: x in stack + [m] <==> x in stack || x == m;
    assert forall x :: x in fin + [m] <==> x in fin || x == m;
  }

  /** One step of the walk: it closes a genuine cycle, or it finishes `m` and
      everything `m` reaches, each after its own dependencies. */
  method Visit(g: Graph, marks: map<Module, Mark>, stack: seq<Module>, m: Module,
               ghost fin: seq<Module>, ghost universe: set<Module>)
    returns (marks': map<Module, Mark>, stack': seq<Module>, cycle: Option<seq<Module>>, ghost fin': seq<Module>)
    requires ClosedUnder(g, universe) && marks.Keys <= universe && m in universe
    requires m !in marks
    requires WalkInv(g, marks, stack, fin)
    requires stack != [] ==> m in Deps(g, stack[|stack| - 1])
    ensures marks.Keys <= marks'.Keys <= universe
    ensures cycle.Some? ==> Cycle(g, cycle.value)
    ensures cycle.None? ==> stack' == stack && WalkInv(g, marks', stack, fin') && m in fin' && fin <= fin'
    decreases universe - marks.Keys
  {
    Enters(g, marks, stack, m, fin);
    marks', stack', fin' := marks[m := OnWalk], stack + [m], fin;
    var deps := Deps(g, m);
    var i := 0;
    while i < |deps|
      invariant 0 <= i <= |deps|
      invariant marks.Keys + {m} <= marks'.Keys <= universe
      invariant stack' == stack + [m]
      invariant fin <= fin'
      invariant WalkInv(g, marks', stack', fin')
      invariant forall j :: 0 <= j < i ==> deps[j] in fin'
    {
      var dep := deps[i];
      if dep in marks' && marks'[dep] == OnWalk {
        var si := IndexOf(stack', dep);
        var walk := stack'[si..] + [dep];
        WalkCloses(g, stack', si, dep);
        return marks', stack', Some(walk), fin';
      } else if dep !in marks' {
        ghost var before := fin';
        marks', stack', cycle, fin' := Visit(g, marks', stack', dep, fin', universe);
        if cycle.Some? {
          return;
        }
        assert forall j :: 0 <= j < i ==> deps[j] in before;
      }
      i := i + 1;
    }
    stack' := stack'[..|stack'| - 1];
    assert stack' == stack;
    Leaves(g, marks', stack, m, fin');
    marks' := marks'[m := Done];
    fin' := fin' + [m];
    cycle := None;
  }

  /** The first cycle a walk from `start` closes, or a list of everything `start`
      reaches in which nothing precedes its dependencies. */
  method CycleThrough(g: Graph, start: Module, ghost universe: set<Module>)
    returns (cycle: Option<seq<Module>>, ghost fin: seq<Module>)
    requires ClosedUnder(g, universe) && start in universe
    ensures cycle.Some? ==> Cycle(g, cycle.value)
    ensures cycle.None? ==> Grounded(g, fin) && start in fin
  {
    var marks, stack;
    marks, stack, cycle, fin := Visit(g, map[], [], start, [], universe);
  }

  /** A set in which everything waits for another member never appears in such a list. */
  lemma {:induction false} WaitersNeverFinish(g: Graph, fin: seq<Module>, waiting: set<Module>, n: nat)
    requires Grounded(g, fin) && n <= |fin|
    requires AllWait(g, waiting)
    ensures forall i :: 0 <= i < n ==> fin[i] !in waiting
  {
    if n > 0 {
      WaitersNeverFinish(g, fin, waiting, n - 1);
      var m := fin[n - 1];
      assert m in waiting ==> HeldBy(g, m, waiting);
      assert forall c :: c in Deps(g, m) ==> Before(fin, n - 1, c);
    }
  }

  /** `m` depends on a member of the set. */
  ghost predicate HeldBy(g: Graph, m: Module, waiting: set<Module>) {
    exists c :: c in Deps(g, m) && c in waiting
  }

  ghost predicate AllWait(g: Graph, waiting: set<Module>) {
    forall m {:trigger HeldBy(g, m, waiting)} :: m in waiting ==> HeldBy(g, m, waiting)
  }

  // -------------------------------------------------------------------- the queue

  ghost predicate Living(lives: seq<Module>, dead: set<Module>, m: Module) {
    m in lives && m !in dead
  }

  ghost predicate GraphOver(g: Graph, lives: seq<Module>, dead: set<Module>) {
    && (forall m :: m in g <==> Living(lives, dead, m))
    && (forall m, c :: m in g && c in g[m] ==> c in lives)
  }

  predicate AllPlaced(deps: seq<Module>, placed: set<Module>) {
    forall c :: c in deps ==> c in placed
  }

  /** Who is still waiting: unplaced, living, and either queued or held by an
      unplaced dependency. */
  ghost predicate Held(g: Graph, m: Module, out: seq<Module>) {
    exists c :: c in Deps(g, m) && c !in out
  }

  ghost predicate NobodyForgotten(g: Graph, lives: seq<Module>, dead: set<Module>, last: Option<Module>,
                                  out: seq<Module>, queue: seq<Module>) {
    forall m {:trigger Held(g, m, out)} :: Living(lives, dead, m) && m !in out && Some(m) != last && m !in queue ==> Held(g, m, out)
  }

  ghost predicate Queued(lives: seq<Module>, dead: set<Module>, last: Option<Module>, queue: seq<Module>) {
    forall m :: m in queue ==> Living(lives, dead, m) && Some(m) != last
  }

  // -------------------------------------------------------- who comes before whom

  ghost predicate UseBefore(lives: seq<Module>, x: Module, y: Module) {
    exists a, b :: 0 <= a < b < |lives| && lives[a] == x && lives[b] == y
  }

  /** Something the module depends on is not among the first `n` built. */
  ghost predicate HeldUp(g: Graph, out: seq<Module>, n: int, m: Module) {
    exists c :: c in Deps(g, m) && !Before(out, n, c)
  }

  /** The module became ready when the `n`-th was built, at the start for 0. */
  ghost predicate ReadyAt(g: Graph, out: seq<Module>, n: nat, m: Module) {
    n <= |out| && !HeldUp(g, out, n, m) && (n > 0 ==> HeldUp(g, out, n - 1, m))
  }

  /** One became ready before the other, or together with it and stands first in Use. */
  ghost predicate ComesFirst(g: Graph, lives: seq<Module>, out: seq<Module>, x: Module, y: Module) {
    exists n: nat, k: nat :: ReadyAt(g, out, n, x) && ReadyAt(g, out, k, y) && (n < k || (n == k && UseBefore(lives, x, y)))
  }

  ghost predicate InTurn(g: Graph, lives: seq<Module>, out: seq<Module>, line: seq<Module>) {
    forall i, j :: 0 <= i < j < |line| ==> ComesFirst(g, lives, out, line[i], line[j])
  }

  ghost predicate Ready(g: Graph, out: seq<Module>, m: Module) {
    exists n: nat :: ReadyAt(g, out, n, m)
  }

  ghost predicate AllReady(g: Graph, out: seq<Module>, line: seq<Module>) {
    forall m :: m in line ==> Ready(g, out, m)
  }

  lemma BeforeStays(out: seq<Module>, more: seq<Module>, n: int, c: Module)
    requires n <= |out|
    ensures Before(out + more, n, c) <==> Before(out, n, c)
  {
    if Before(out + more, n, c) {
      var j :| 0 <= j < n && j < |out + more| && (out + more)[j] == c;
      assert out[j] == c;
    }
    if Before(out, n, c) {
      var j :| 0 <= j < n && j < |out| && out[j] == c;
      assert (out + more)[j] == c;
    }
  }

  lemma HeldUpStays(g: Graph, out: seq<Module>, more: seq<Module>, n: int, m: Module)
    requires n <= |out|
    ensures HeldUp(g, out + more, n, m) <==> HeldUp(g, out, n, m)
  {
    forall c ensures Before(out + more, n, c) <==> Before(out, n, c) { BeforeStays(out, more, n, c); }
  }

  /** Building more changes nobody's turn. */
  lemma ReadyStays(g: Graph, out: seq<Module>, more: seq<Module>, n: nat, m: Module)
    requires ReadyAt(g, out, n, m)
    ensures ReadyAt(g, out + more, n, m)
  {
    HeldUpStays(g, out, more, n, m);
    HeldUpStays(g, out, more, n - 1, m);
  }

  lemma TurnsStay(g: Graph, lives: seq<Module>, out: seq<Module>, more: seq<Module>, line: seq<Module>)
    requires InTurn(g, lives, out, line)
    ensures InTurn(g, lives, out + more, line)
  {
    forall i, j | 0 <= i < j < |line| ensures ComesFirst(g, lives, out + more, line[i], line[j]) {
      assert ComesFirst(g, lives, out, line[i], line[j]);
      var n: nat, k: nat :| ReadyAt(g, out, n, line[i]) && ReadyAt(g, out, k, line[j])
                            && (n < k || (n == k && UseBefore(lives, line[i], line[j])));
      ReadyStays(g, out, more, n, line[i]);
      ReadyStays(g, out, more, k, line[j]);
    }
  }

  lemma AllReadyStays(g: Graph, out: seq<Module>, more: seq<Module>, line: seq<Module>)
    requires AllReady(g, out, line)
    ensures AllReady(g, out + more, line)
  {
    forall m | m in line ensures Ready(g, out + more, m) {
      var n: nat :| ReadyAt(g, out, n, m);
      ReadyStays(g, out, more, n, m);
    }
  }

  /** Those the last build made ready, in Use order, come after everybody in line. */
  lemma LineGrows(g: Graph, lives: seq<Module>, out: seq<Module>, m: Module, line: seq<Module>, added: seq<Module>)
    requires InTurn(g, lives, out, line) && AllReady(g, out, line)
    requires forall i, j :: 0 <= i < j < |added| ==> UseBefore(lives, added[i], added[j])
    requires forall c :: c in added ==> ReadyAt(g, out + [m], |out| + 1, c)
    ensures InTurn(g, lives, out + [m], line + added) && AllReady(g, out + [m], line + added)
  {
    TurnsStay(g, lives, out, [m], line);
    AllReadyStays(g, out, [m], line);
    var longer, now := line + added, out + [m];
    forall i, j | 0 <= i < j < |longer| ensures ComesFirst(g, lives, now, longer[i], longer[j]) {
      if j < |line| {
        assert ComesFirst(g, lives, now, line[i], line[j]);
      } else if i < |line| {
        assert line[i] in line && Ready(g, out, line[i]);
        var n: nat :| ReadyAt(g, out, n, line[i]);
        ReadyStays(g, out, [m], n, line[i]);
        assert added[j - |line|] in added && ReadyAt(g, now, |out| + 1, added[j - |line|]);
      } else {
        var a, b := i - |line|, j - |line|;
        assert added[a] in added && added[b] in added && UseBefore(lives, added[a], added[b]);
      }
    }
  }

  lemma StillReady(g: Graph, out: seq<Module>, n: int, k: int, m: Module)
    ensures n <= k && !HeldUp(g, out, n, m) ==> !HeldUp(g, out, k, m)
  {
    if n <= k && !HeldUp(g, out, n, m) {
      forall c | c in Deps(g, m) ensures Before(out, k, c) { assert Before(out, n, c); }
    }
  }

  /** A module becomes ready exactly once. */
  lemma OneTurn(g: Graph, out: seq<Module>, n: nat, k: nat, m: Module)
    requires ReadyAt(g, out, n, m) && ReadyAt(g, out, k, m)
    ensures n == k
  {
    StillReady(g, out, n, k - 1, m);
    StillReady(g, out, k, n - 1, m);
  }

  /** After placing `m`, the modules it made ready join the queue in Use order. */
  method Wake(g: Graph, lives: seq<Module>, dead: set<Module>, last: Option<Module>,
              placed: set<Module>, m: Module, queue: seq<Module>) returns (queue': seq<Module>, ghost added: seq<Module>)
    requires GraphOver(g, lives, dead)
    requires Queued(lives, dead, last, queue)
    ensures queue' == queue + added
    ensures Queued(lives, dead, last, queue')
    ensures forall c :: c in added <==> Woken(g, lives, dead, last, placed, m, c)
    ensures forall i, j :: 0 <= i < j < |added| ==> UseBefore(lives, added[i], added[j])
  {
    queue', added := queue, [];
    for i := 0 to |lives|
      invariant queue' == queue + added
      invariant forall c :: c in added <==> c in lives[..i] && Woken(g, lives, dead, last, placed, m, c)
      invariant forall a :: 0 <= a < |added| ==> Before(lives, i, added[a])
      invariant forall a, b :: 0 <= a < b < |added| ==> UseBefore(lives, added[a], added[b])
    {
      var c := lives[i];
      assert lives[..i + 1] == lives[..i] + [c];
      if c in dead || c in placed || Some(c) == last || m !in Deps(g, c) {
        continue;
      }
      if AllPlaced(Deps(g, c), placed) {
        queue' := queue' + [c];
        added := added + [c];
      }
    }
    assert lives[..|lives|] == lives;
  }

  /** The modules the last build made ready. */
  ghost predicate Woken(g: Graph, lives: seq<Module>, dead: set<Module>, last: Option<Module>,
                        placed: set<Module>, m: Module, c: Module) {
    Living(lives, dead, c) && c !in placed && Some(c) != last && m in Deps(g, c) && AllPlaced(Deps(g, c), placed)
  }

  lemma WokenIsReady(g: Graph, lives: seq<Module>, dead: set<Module>, last: Option<Module>, out: seq<Module>, m: Module, c: Module)
    requires m !in out && Woken(g, lives, dead, last, Elements(out + [m]), m, c)
    ensures ReadyAt(g, out + [m], |out| + 1, c)
  {
    var now := out + [m];
    forall d | d in Deps(g, c) ensures Before(now, |now|, d) {
      assert d in now;
    }
    assert !Before(now, |out|, m);
  }

  lemma StepOut(g: Graph, lives: seq<Module>, out: seq<Module>, m: Module, rest: seq<Module>)
    requires InTurn(g, lives, out, out + ([m] + rest)) && AllReady(g, out, out + ([m] + rest))
    ensures InTurn(g, lives, out, out + rest) && AllReady(g, out, out + rest)
    ensures InTurn(g, lives, out, (out + [m]) + rest) && AllReady(g, out, (out + [m]) + rest)
  {
    var line, fewer := out + ([m] + rest), out + rest;
    assert (out + [m]) + rest == line;
    forall i, j | 0 <= i < j < |fewer| ensures ComesFirst(g, lives, out, fewer[i], fewer[j]) {
      assert ComesFirst(g, lives, out, line[if i < |out| then i else i + 1], line[if j < |out| then j else j + 1]);
    }
    forall x | x in fewer ensures Ready(g, out, x) { assert x in line; }
  }

  /** What the queue keeps: everybody built or queued came in turn, and nobody else is ready. */
  ghost predicate DrainInv(g: Graph, lives: seq<Module>, dead: set<Module>, last: Option<Module>,
                           out: seq<Module>, queue: seq<Module>) {
    && NoDup(out) && Grounded(g, out)
    && Queued(lives, dead, last, out) && Queued(lives, dead, last, queue)
    && NobodyForgotten(g, lives, dead, last, out, queue)
    && InTurn(g, lives, out, out + queue) && AllReady(g, out, out + queue)
  }

  lemma Skipped(g: Graph, lives: seq<Module>, dead: set<Module>, last: Option<Module>,
                out: seq<Module>, m: Module, rest: seq<Module>)
    requires DrainInv(g, lives, dead, last, out, [m] + rest)
    requires m in out || Held(g, m, out)
    ensures DrainInv(g, lives, dead, last, out, rest)
  {
    StepOut(g, lives, out, m, rest);
    forall x | Living(lives, dead, x) && x !in out && Some(x) != last && x !in rest ensures Held(g, x, out) {
      assert x == m || x !in [m] + rest;
    }
    assert forall x :: x in rest ==> x in [m] + rest;
  }

  lemma StillNobodyForgotten(g: Graph, lives: seq<Module>, dead: set<Module>, last: Option<Module>,
                             out: seq<Module>, m: Module, rest: seq<Module>, added: seq<Module>)
    requires NobodyForgotten(g, lives, dead, last, out, [m] + rest)
    requires forall c :: c in added <==> Woken(g, lives, dead, last, Elements(out + [m]), m, c)
    ensures NobodyForgotten(g, lives, dead, last, out + [m], rest + added)
  {
    var now := out + [m];
    forall x | Living(lives, dead, x) && x !in now && Some(x) != last && x !in rest + added ensures Held(g, x, now) {
      assert x !in [m] + rest && x !in added && Held(g, x, out);
      var c :| c in Deps(g, x) && c !in out;
      if c == m {
        var d :| d in Deps(g, x) && d !in Elements(now);
        assert d !in now;
      } else {
        assert c !in now;
      }
    }
  }

  lemma JustPlaced(g: Graph, lives: seq<Module>, dead: set<Module>, last: Option<Module>,
                out: seq<Module>, m: Module, rest: seq<Module>, added: seq<Module>)
    requires DrainInv(g, lives, dead, last, out, [m] + rest)
    requires m !in out && AllPlaced(Deps(g, m), Elements(out))
    requires forall c :: c in added <==> Woken(g, lives, dead, last, Elements(out + [m]), m, c)
    requires forall i, j :: 0 <= i < j < |added| ==> UseBefore(lives, added[i], added[j])
    ensures DrainInv(g, lives, dead, last, out + [m], rest + added)
  {
    GroundedExtends(g, out, m);
    NoDupAppend(out, m);
    assert m in [m] + rest && forall x :: x in rest ==> x in [m] + rest;
    StillNobodyForgotten(g, lives, dead, last, out, m, rest, added);
    StepOut(g, lives, out, m, rest);
    forall c | c in added ensures ReadyAt(g, out + [m], |out| + 1, c) {
      WokenIsReady(g, lives, dead, last, out, m, c);
    }
    LineGrows(g, lives, out, m, (out + [m]) + rest, added);
    assert ((out + [m]) + rest) + added == (out + [m]) + (rest + added);
  }

  method Drain(g: Graph, lives: seq<Module>, dead: set<Module>, last: Option<Module>, first: seq<Module>)
    returns (out: seq<Module>)
    requires GraphOver(g, lives, dead)
    requires Queued(lives, dead, last, first)
    requires NobodyForgotten(g, lives, dead, last, [], first)
    requires InTurn(g, lives, [], first) && AllReady(g, [], first)
    ensures NoDup(out) && Grounded(g, out)
    ensures InTurn(g, lives, out, out)
    ensures Queued(lives, dead, last, out)
    ensures NobodyForgotten(g, lives, dead, last, out, [])
  {
    out := [];
    var queue, placed := first, {};
    assert [] + first == first;
    while |queue| > 0
      invariant placed == Elements(out)
      invariant DrainInv(g, lives, dead, last, out, queue)
      decreases Elements(lives) - placed, |queue|
    {
      var m := queue[0];
      var rest := queue[1..];
      assert queue == [m] + rest;
      queue := rest;
      if m in placed || !AllPlaced(Deps(g, m), placed) {
        Skipped(g, lives, dead, last, out, m, rest);
        continue;
      }
      ghost var before, added := out, [];
      placed, out := placed + {m}, out + [m];
      assert placed == Elements(out);
      assert m in [m] + rest && m in Elements(lives);
      queue, added := Wake(g, lives, dead, last, placed, m, queue);
      JustPlaced(g, lives, dead, last, before, m, rest, added);
    }
    assert out + [] == out;
  }

  /** The modules nothing holds back start the queue, in Use order. */
  method Seeds(g: Graph, lives: seq<Module>, dead: set<Module>, last: Option<Module>) returns (queue: seq<Module>)
    requires GraphOver(g, lives, dead)
    ensures Queued(lives, dead, last, queue)
    ensures NobodyForgotten(g, lives, dead, last, [], queue)
    ensures InTurn(g, lives, [], queue) && AllReady(g, [], queue)
  {
    queue := [];
    for i := 0 to |lives|
      invariant forall m :: m in queue ==> ReadyAt(g, [], 0, m)
      invariant forall a :: 0 <= a < |queue| ==> Before(lives, i, queue[a])
      invariant forall a, b :: 0 <= a < b < |queue| ==> UseBefore(lives, queue[a], queue[b])
      invariant Queued(lives, dead, last, queue)
      invariant forall m :: m in lives[..i] && m !in dead && Some(m) != last && Deps(g, m) == [] ==> m in queue
    {
      assert lives[..i + 1] == lives[..i] + [lives[i]];
      if lives[i] !in dead && Some(lives[i]) != last && Deps(g, lives[i]) == [] {
        queue := queue + [lives[i]];
      }
    }
    assert lives[..|lives|] == lives;
    SeedsInTurn(g, lives, queue);
    SeedsAreAll(g, lives, dead, last, queue);
  }

  lemma SeedsAreAll(g: Graph, lives: seq<Module>, dead: set<Module>, last: Option<Module>, queue: seq<Module>)
    requires forall m :: m in lives && m !in dead && Some(m) != last && Deps(g, m) == [] ==> m in queue
    ensures NobodyForgotten(g, lives, dead, last, [], queue)
  {
    forall m | Living(lives, dead, m) && Some(m) != last && m !in queue ensures Held(g, m, []) {
      assert Deps(g, m)[0] in Deps(g, m);
    }
  }

  lemma SeedsInTurn(g: Graph, lives: seq<Module>, queue: seq<Module>)
    requires forall m :: m in queue ==> ReadyAt(g, [], 0, m)
    requires forall a, b :: 0 <= a < b < |queue| ==> UseBefore(lives, queue[a], queue[b])
    ensures InTurn(g, lives, [], queue) && AllReady(g, [], queue)
  {
    forall a, b | 0 <= a < b < |queue| ensures ComesFirst(g, lives, [], queue[a], queue[b]) {
      assert queue[a] in queue && queue[b] in queue;
    }
  }

  datatype Verdict = Placed | InCycle(walk: seq<Module>) | Unplaced(left: seq<Module>)

  /** Nothing living depends on a dead module or on the one that runs last. */
  ghost predicate Settled(g: Graph, lives: seq<Module>, dead: set<Module>, last: Option<Module>) {
    forall m, c :: m in g && c in g[m] ==> Living(lives, dead, c) && Some(c) != last
  }

  /** Drains the queue and puts the last module, if it lives, at the end. */
  method Place(g: Graph, lives: seq<Module>, dead: set<Module>, last: Option<Module>)
    returns (out: seq<Module>, left: seq<Module>)
    requires NoDup(lives) && GraphOver(g, lives, dead)
    requires last.Some? ==> last.value in lives
    ensures NoDup(out) && forall m :: m in out ==> Living(lives, dead, m)
    ensures last.Some? && Living(lives, dead, last.value) ==> out != [] && out[|out| - 1] == last.value
    ensures forall i, c :: 0 <= i < |out| && Some(out[i]) != last && c in Deps(g, out[i]) ==> Before(out, i, c)
    ensures TiesInUseOrder(g, lives, out, last)
    ensures forall m :: m in left <==> Living(lives, dead, m) && m !in out
    ensures Settled(g, lives, dead, last) ==> AllWait(g, Elements(left))
    ensures Settled(g, lives, dead, last) && left == [] ==> Grounded(g, out)
  {
    var queue := Seeds(g, lives, dead, last);
    var drained := Drain(g, lives, dead, last, queue);
    out := drained;
    if last.Some? && last.value !in dead {
      assert last.value !in drained;
      NoDupAppend(drained, last.value);
      out := drained + [last.value];
      assert forall m :: m in out <==> m in drained || m == last.value;
    }
    left := Outside(Outside(lives, dead), Elements(out));
    KeepsGround(g, drained, out, last);
    TurnsKept(g, lives, drained, out, last);
    if Settled(g, lives, dead, last) {
      LeftoversWait(g, lives, dead, last, drained, left);
      if left == [] {
        LastCloses(g, lives, dead, last, drained, out);
      }
    }
  }

  /** Everybody but the one that runs last was built in turn: as soon as it was ready, and
      in Use order among those ready together. */
  ghost predicate TiesInUseOrder(g: Graph, lives: seq<Module>, out: seq<Module>, last: Option<Module>) {
    forall i, j :: 0 <= i < j < |out| && Some(out[j]) != last ==> ComesFirst(g, lives, out, out[i], out[j])
  }

  lemma TurnsKept(g: Graph, lives: seq<Module>, drained: seq<Module>, out: seq<Module>, last: Option<Module>)
    requires InTurn(g, lives, drained, drained)
    requires out == drained || (last.Some? && out == drained + [last.value])
    ensures TiesInUseOrder(g, lives, out, last)
  {
    var more := out[|drained|..];
    assert out == drained + more;
    TurnsStay(g, lives, drained, more, drained);
    forall i, j | 0 <= i < j < |out| && Some(out[j]) != last ensures ComesFirst(g, lives, out, out[i], out[j]) {
      assert ComesFirst(g, lives, drained + more, drained[i], drained[j]);
    }
  }

  lemma UseIsStrict(lives: seq<Module>, x: Module, y: Module)
    requires NoDup(lives)
    ensures !(UseBefore(lives, x, y) && UseBefore(lives, y, x))
  {
  }

  lemma FirstIsStrict(g: Graph, lives: seq<Module>, out: seq<Module>, x: Module, y: Module)
    requires NoDup(lives)
    ensures !(ComesFirst(g, lives, out, x, y) && ComesFirst(g, lives, out, y, x))
  {
    if ComesFirst(g, lives, out, x, y) && ComesFirst(g, lives, out, y, x) {
      var n: nat, k: nat :| ReadyAt(g, out, n, x) && ReadyAt(g, out, k, y) && (n < k || (n == k && UseBefore(lives, x, y)));
      var k': nat, n': nat :| ReadyAt(g, out, k', y) && ReadyAt(g, out, n', x) && (k' < n' || (k' == n' && UseBefore(lives, y, x)));
      OneTurn(g, out, n, n', x);
      OneTurn(g, out, k, k', y);
      UseIsStrict(lives, x, y);
    }
  }

  lemma KeepsGround(g: Graph, drained: seq<Module>, out: seq<Module>, last: Option<Module>)
    requires Grounded(g, drained)
    requires out == drained || (last.Some? && out == drained + [last.value])
    ensures forall i, c :: 0 <= i < |out| && Some(out[i]) != last && c in Deps(g, out[i]) ==> Before(out, i, c)
  {
    forall i, c | 0 <= i < |out| && Some(out[i]) != last && c in Deps(g, out[i])
      ensures Before(out, i, c)
    {
      assert Before(drained, i, c);
      var j :| 0 <= j < i && j < |drained| && drained[j] == c;
      assert out[j] == c;
    }
  }

  lemma LastCloses(g: Graph, lives: seq<Module>, dead: set<Module>, last: Option<Module>, drained: seq<Module>, out: seq<Module>)
    requires Grounded(g, drained) && Settled(g, lives, dead, last) && GraphOver(g, lives, dead)
    requires out == drained || (last.Some? && Living(lives, dead, last.value) && out == drained + [last.value])
    requires forall m :: Living(lives, dead, m) ==> m in out
    ensures Grounded(g, out)
  {
    if out != drained {
      forall c | c in Deps(g, last.value)
        ensures c in drained
      {
        assert Living(lives, dead, c) && c in out;
      }
      GroundedExtends(g, drained, last.value);
    }
  }

  /** Either every living module stands once in the answer, each after what it depends
      on and the last one at the end, or the verdict is a genuine cycle.  Leaving a
      module out without naming a cycle is impossible on a settled graph. */
  method Order(g: Graph, lives: seq<Module>, dead: set<Module>, last: Option<Module>)
    returns (out: seq<Module>, verdict: Verdict)
    requires NoDup(lives) && GraphOver(g, lives, dead)
    requires last.Some? ==> last.value in lives
    ensures NoDup(out) && forall m :: m in out ==> Living(lives, dead, m)
    ensures last.Some? && Living(lives, dead, last.value) ==> out != [] && out[|out| - 1] == last.value
    ensures forall i, c :: 0 <= i < |out| && Some(out[i]) != last && c in Deps(g, out[i]) ==> Before(out, i, c)
    ensures TiesInUseOrder(g, lives, out, last)
    ensures verdict.Placed? <==> forall m :: Living(lives, dead, m) ==> m in out
    ensures verdict.Placed? && Settled(g, lives, dead, last) ==> Grounded(g, out)
    ensures verdict.InCycle? ==> Cycle(g, verdict.walk)
    ensures verdict.Unplaced? ==> forall m :: m in verdict.left <==> Living(lives, dead, m) && m !in out
    ensures Settled(g, lives, dead, last) ==> !verdict.Unplaced?
  {
    var left;
    out, left := Place(g, lives, dead, last);
    if left == [] {
      return out, Placed;
    }
    assert left[0] in left;
    var cycle; ghost var fin;
    cycle, fin := CycleThrough(g, left[0], Elements(lives));
    if cycle.Some? {
      return out, InCycle(cycle.value);
    }
    verdict := Unplaced(left);
    if Settled(g, lives, dead, last) {
      WaitersNeverFinish(g, fin, Elements(left), |fin|);
      assert false;
    }
  }

  lemma LeftoversWait(g: Graph, lives: seq<Module>, dead: set<Module>, last: Option<Module>,
                      drained: seq<Module>, left: seq<Module>)
    requires GraphOver(g, lives, dead) && Settled(g, lives, dead, last)
    requires NobodyForgotten(g, lives, dead, last, drained, [])
    requires forall m :: m in left <==> Living(lives, dead, m) && m !in drained && Some(m) != last
    ensures AllWait(g, Elements(left))
  {
    forall m | m in Elements(left)
      ensures HeldBy(g, m, Elements(left))
    {
      assert Held(g, m, drained);
      var c :| c in Deps(g, m) && c !in drained;
      assert c in Elements(left);
    }
  }

  // ------------------------------------------------------------- there is one such order

  /** A build order as the queue leaves it. */
  ghost predicate Queue(g: Graph, lives: seq<Module>, out: seq<Module>, last: Option<Module>) {
    && NoDup(out) && TiesInUseOrder(g, lives, out, last)
    && (forall i, c :: 0 <= i < |out| && Some(out[i]) != last && c in Deps(g, out[i]) ==> Before(out, i, c))
    && (forall i :: 0 <= i < |out| && Some(out[i]) == last ==> i == |out| - 1)
  }

  lemma SameLength(a: seq<Module>, b: seq<Module>)
    requires NoDup(a) && NoDup(b) && Elements(a) == Elements(b)
    ensures |a| == |b|
  {
    CountsElements(a);
    CountsElements(b);
  }

  lemma {:induction false} CountsElements(a: seq<Module>)
    requires NoDup(a)
    ensures |Elements(a)| == |a|
  {
    if a != [] {
      var rest, m := a[..|a| - 1], a[|a| - 1];
      assert a == rest + [m];
      CountsElements(rest);
      assert m !in rest && Elements(a) == Elements(rest) + {m};
    }
  }

  /** Whose turn it is depends on what was built before. */
  lemma TurnByPrefix(g: Graph, out: seq<Module>, out': seq<Module>, n: nat, m: Module)
    requires n <= |out| && n <= |out'| && out[..n] == out'[..n] && !HeldUp(g, out, n, m)
    ensures exists k: nat :: k <= n && ReadyAt(g, out, k, m) && ReadyAt(g, out', k, m)
    decreases n
  {
    SameHeld(g, out, out', n, m);
    if n == 0 || HeldUp(g, out, n - 1, m) {
      if n > 0 { SamePrefix(out, out', n); SameHeld(g, out, out', n - 1, m); }
      assert ReadyAt(g, out, n, m) && ReadyAt(g, out', n, m);
    } else {
      SamePrefix(out, out', n);
      TurnByPrefix(g, out, out', n - 1, m);
    }
  }

  lemma SamePrefix(out: seq<Module>, out': seq<Module>, n: nat)
    requires 0 < n <= |out| && n <= |out'| && out[..n] == out'[..n]
    ensures out[..n - 1] == out'[..n - 1]
  {
    assert out[..n][..n - 1] == out[..n - 1] && out'[..n][..n - 1] == out'[..n - 1];
  }

  lemma SameHeld(g: Graph, out: seq<Module>, out': seq<Module>, n: nat, m: Module)
    requires n <= |out| && n <= |out'| && out[..n] == out'[..n]
    ensures HeldUp(g, out, n, m) <==> HeldUp(g, out', n, m)
  {
    forall c ensures Before(out, n, c) <==> Before(out', n, c) {
      assert out == out[..n] + out[n..] && out' == out'[..n] + out'[n..];
      BeforeStays(out[..n], out[n..], n, c);
      BeforeStays(out'[..n], out'[n..], n, c);
    }
  }

  /** Two such orders of the same modules agree at every position. */
  lemma {:induction false} SameSoFar(g: Graph, lives: seq<Module>, out: seq<Module>, out': seq<Module>, last: Option<Module>, n: nat)
    requires NoDup(lives) && Queue(g, lives, out, last) && Queue(g, lives, out', last)
    requires Elements(out) == Elements(out') && |out| == |out'| && n <= |out|
    ensures out[..n] == out'[..n]
  {
    if n > 0 {
      SameSoFar(g, lives, out, out', last, n - 1);
      SameNext(g, lives, out, out', last, n - 1);
      assert out[..n] == out[..n - 1] + [out[n - 1]] && out'[..n] == out'[..n - 1] + [out'[n - 1]];
    }
  }

  /** The later place of a module that does not stand next. */
  lemma StandsLater(out: seq<Module>, out': seq<Module>, n: nat) returns (k: nat)
    requires NoDup(out') && Elements(out) == Elements(out') && n < |out| && n < |out'|
    requires out[..n] == out'[..n] && NoDup(out) && out[n] != out'[n]
    ensures n < k < |out| && out[k] == out'[n]
  {
    assert out'[n] in Elements(out') && out'[n] in Elements(out);
    k :| 0 <= k < |out| && out[k] == out'[n];
    forall i | 0 <= i < n ensures out[i] == out'[i] { assert out[..n][i] == out'[..n][i]; }
  }

  lemma NextIsReady(g: Graph, lives: seq<Module>, out: seq<Module>, last: Option<Module>, n: nat)
    requires Queue(g, lives, out, last) && n < |out| && Some(out[n]) != last
    ensures !HeldUp(g, out, n, out[n])
  {
  }

  lemma SameNext(g: Graph, lives: seq<Module>, out: seq<Module>, out': seq<Module>, last: Option<Module>, n: nat)
    requires NoDup(lives) && Queue(g, lives, out, last) && Queue(g, lives, out', last)
    requires Elements(out) == Elements(out') && |out| == |out'| && n < |out| && out[..n] == out'[..n]
    ensures out[n] == out'[n]
  {
    var x, y := out[n], out'[n];
    if x != y {
      var k := StandsLater(out, out', n);
      var j := StandsLater(out', out, n);
      NextIsReady(g, lives, out, last, n);
      NextIsReady(g, lives, out', last, n);
      assert ComesFirst(g, lives, out, out[n], out[k]) && ComesFirst(g, lives, out', out'[n], out'[j]);
      TurnByPrefix(g, out, out', n, x);
      TurnByPrefix(g, out', out, n, y);
      SameTurns(g, lives, out, out', y, x);
      FirstIsStrict(g, lives, out, x, y);
    }
  }

  lemma SameTurns(g: Graph, lives: seq<Module>, out: seq<Module>, out': seq<Module>, x: Module, y: Module)
    requires ComesFirst(g, lives, out', x, y)
    requires exists n: nat :: ReadyAt(g, out, n, x) && ReadyAt(g, out', n, x)
    requires exists n: nat :: ReadyAt(g, out, n, y) && ReadyAt(g, out', n, y)
    ensures ComesFirst(g, lives, out, x, y)
  {
    var n: nat :| ReadyAt(g, out, n, x) && ReadyAt(g, out', n, x);
    var k: nat :| ReadyAt(g, out, k, y) && ReadyAt(g, out', k, y);
    var n': nat, k': nat :| ReadyAt(g, out', n', x) && ReadyAt(g, out', k', y) && (n' < k' || (n' == k' && UseBefore(lives, x, y)));
    OneTurn(g, out', n, n', x);
    OneTurn(g, out', k, k', y);
  }

  lemma SameComesFirst(g: Graph, g': Graph, lives: seq<Module>, out: seq<Module>, x: Module, y: Module)
    requires forall m, c :: c in Deps(g, m) <==> c in Deps(g', m)
    requires ComesFirst(g, lives, out, x, y)
    ensures ComesFirst(g', lives, out, x, y)
  {
    forall n, m ensures HeldUp(g, out, n, m) <==> HeldUp(g', out, n, m) {
    }
    var n: nat, k: nat :| ReadyAt(g, out, n, x) && ReadyAt(g, out, k, y) && (n < k || (n == k && UseBefore(lives, x, y)));
    assert ReadyAt(g', out, n, x) && ReadyAt(g', out, k, y);
  }

  /** Only what depends on what matters, not the order a module's dependencies are listed in. */
  lemma SameQueue(g: Graph, g': Graph, lives: seq<Module>, out: seq<Module>, last: Option<Module>)
    requires forall m, c :: c in Deps(g, m) <==> c in Deps(g', m)
    requires Queue(g, lives, out, last)
    ensures Queue(g', lives, out, last)
  {
    forall i, j | 0 <= i < j < |out| && Some(out[j]) != last ensures ComesFirst(g', lives, out, out[i], out[j]) {
      SameComesFirst(g, g', lives, out, out[i], out[j]);
    }
  }

  /** Use order and the graph leave one build order: two such orders of the same modules
      are the same list. */
  lemma OneOrder(g: Graph, lives: seq<Module>, out: seq<Module>, out': seq<Module>, last: Option<Module>)
    requires NoDup(lives) && Queue(g, lives, out, last) && Queue(g, lives, out', last)
    requires Elements(out) == Elements(out')
    ensures out == out'
  {
    SameLength(out, out');
    SameSoFar(g, lives, out, out', last, |out|);
    assert out[..|out|] == out && out'[..|out'|] == out';
  }
}
