/** The App lifecycle as a protocol: any number of apps, any number of overlapping
    Build, Run and Server calls, any interleaving of their atomic steps, and an engine
    that may answer anything.  One step is one critical section of `buildMu`, one of the
    claim record's mutex, or one answer of the engine. */
module Lifecycle {
  import opened ClaimsSpec

  type AppId = nat
  type CallId = nat

  /** Build hands its caller a Runtime; Run serves and returns.  Server.Build and
      Server.Run are these two doors over the one app they host. */
  datatype Door = BuildDoor | RunDoor

  datatype Phase =
    | Planning                    // Plan has not answered
    | Waiting                     // planned; waits for the app's mutex
    | Entered                     // holds the mutex, has not read `built`
    | Claiming                    // `built` was false
    | Constructing                // the claim is taken; the engine's own checks run
    | Unwinding                   // the engine refused; the claim goes back, mutex held
    | Running                     // `built` is set, mutex free; Start or Run is under way
    | GivingBack(before: bool)    // no Runtime to travel into; the claim goes back next
    | Settling                    // refused before effects; `built` is to be cleared
    | Open                        // a Runtime holds the claim
    | Closed                      // that Runtime was closed, once or more
    | Refused                     // the call came back and spent nothing
    | Spent                       // the call came back and the app's one lifecycle is spent

  datatype Call = Call(app: AppId, key: string, composition: string, door: Door, phase: Phase)

  datatype App = App(name: string, built: bool, locked: bool, owner: CallId)

  /** `given` is the once of the receipt. */
  datatype Receipt = Receipt(key: string, given: bool)

  datatype Process = Process(
    record: Record, apps: map<AppId, App>, calls: map<CallId, Call>, receipts: map<CallId, Receipt>)

  datatype Step =
    | Begin(c: CallId, a: AppId, key: string, composition: string, door: Door)
    | PlanAnswers(c: CallId, ok: bool)
    | Enter(c: CallId)
    | ReadBuilt(c: CallId)
    | TakeClaim(c: CallId)
    | EngineChecks(c: CallId, ok: bool)
    | Unwind(c: CallId)
    | EngineEnds(c: CallId, started: bool, before: bool)
    | GiveBack(c: CallId)
    | Settle(c: CallId)
    | Close(c: CallId)

  predicate InPhase(s: Process, c: CallId, phase: Phase) {
    c in s.calls && s.calls[c].phase == phase
  }

  function Move(s: Process, c: CallId, phase: Phase): Process
    requires c in s.calls
  {
    s.(calls := s.calls[c := s.calls[c].(phase := phase)])
  }

  function SetApp(s: Process, a: AppId, app: App): Process {
    s.(apps := s.apps[a := app])
  }

  /** `held.release`: the first time, the record's count drops; after that, nothing. */
  function Release(s: Process, c: CallId): Process {
    if c !in s.receipts || s.receipts[c].given then s
    else
      var r := s.receipts[c];
      s.(record := if r.key in s.record then Released(s.record, r.key) else s.record,
         receipts := s.receipts[c := r.(given := true)])
  }

  predicate Enabled(s: Process, step: Step) {
    match step
    case Begin(c, a, _, _, _) => c !in s.calls && a in s.apps
    case PlanAnswers(c, _) => InPhase(s, c, Planning)
    case Enter(c) => InPhase(s, c, Waiting) && s.calls[c].app in s.apps && !s.apps[s.calls[c].app].locked
    case ReadBuilt(c) => InPhase(s, c, Entered) && s.calls[c].app in s.apps
    case TakeClaim(c) => InPhase(s, c, Claiming) && s.calls[c].app in s.apps
    case EngineChecks(c, _) => InPhase(s, c, Constructing) && s.calls[c].app in s.apps
    case Unwind(c) => InPhase(s, c, Unwinding) && s.calls[c].app in s.apps
    case EngineEnds(c, started, _) => InPhase(s, c, Running) && (started ==> s.calls[c].door == BuildDoor)
    case GiveBack(c) => InPhase(s, c, GivingBack(true)) || InPhase(s, c, GivingBack(false))
    case Settle(c) => InPhase(s, c, Settling) && s.calls[c].app in s.apps && !s.apps[s.calls[c].app].locked
    case Close(c) => InPhase(s, c, Open) || InPhase(s, c, Closed)
  }

  function Apply(s: Process, step: Step): Process
    requires Enabled(s, step)
  {
    match step
    case Begin(c, a, key, composition, door) => s.(calls := s.calls[c := Call(a, key, composition, door, Planning)])
    case PlanAnswers(c, ok) => Move(s, c, if ok then Waiting else Refused)
    case Enter(c) =>
      var a := s.calls[c].app;
      Move(SetApp(s, a, s.apps[a].(locked := true, owner := c)), c, Entered)
    case ReadBuilt(c) =>
      var a := s.calls[c].app;
      if s.apps[a].built then Move(SetApp(s, a, s.apps[a].(locked := false)), c, Refused)
      else Move(s, c, Claiming)
    case TakeClaim(c) =>
      var call := s.calls[c];
      var app := s.apps[call.app];
      if Accepts(s.record, call.key, app.name, call.composition) then
        Move(s.(record := Claimed(s.record, call.key, app.name, call.composition),
                receipts := s.receipts[c := Receipt(call.key, false)]), c, Constructing)
      else Move(SetApp(s, call.app, app.(locked := false)), c, Refused)
    case EngineChecks(c, ok) =>
      var a := s.calls[c].app;
      if ok then Move(SetApp(s, a, s.apps[a].(built := true, locked := false)), c, Running)
      else Move(s, c, Unwinding)
    case Unwind(c) =>
      var a := s.calls[c].app;
      Move(SetApp(Release(s, c), a, s.apps[a].(locked := false)), c, Refused)
    case EngineEnds(c, started, before) => Move(s, c, if started then Open else GivingBack(before))
    case GiveBack(c) => Move(Release(s, c), c, if s.calls[c].phase.before then Settling else Spent)
    case Settle(c) =>
      var a := s.calls[c].app;
      Move(SetApp(s, a, s.apps[a].(built := false)), c, Refused)
    case Close(c) => Move(Release(s, c), c, Closed)
  }

  // ------------------------------------------------------------------ vocabulary

  /** The call is inside `newEngine`, holding its app's mutex. */
  predicate Inside(phase: Phase) {
    phase in {Entered, Claiming, Constructing, Unwinding}
  }

  /** The call got past `newEngine` and has not handed the app back. */
  predicate Past(phase: Phase) {
    phase in {Running, Settling, Open, Closed, Spent} || phase.GivingBack?
  }

  /** The call's claim is in hand. */
  predicate Holding(phase: Phase) {
    phase in {Constructing, Unwinding, Running, Open} || phase.GivingBack?
  }

  predicate Ended(phase: Phase) {
    phase in {Closed, Refused, Spent}
  }

  ghost function LiveOn(receipts: map<CallId, Receipt>, key: string): set<CallId> {
    set c | c in receipts && !receipts[c].given && receipts[c].key == key
  }

  // ------------------------------------------------------------------- invariant

  /** The entry exists exactly while somebody holds the database, and counts them. */
  ghost predicate Counted(record: Record, receipts: map<CallId, Receipt>, key: string) {
    var live := LiveOn(receipts, key);
    if key in record then record[key].lifecycles == |live| && live != {} else live == {}
  }

  ghost predicate AllCounted(record: Record, receipts: map<CallId, Receipt>) {
    forall key :: Counted(record, receipts, key)
  }

  /** What a call's phase says of its app, its receipt and the record. */
  ghost predicate CallFits(c: CallId, call: Call, app: App, record: Record, receipts: map<CallId, Receipt>) {
    && (Inside(call.phase) ==> app.locked && app.owner == c)
    && (call.phase in {Claiming, Constructing, Unwinding} ==> !app.built)
    && (Past(call.phase) ==> app.built)
    && (Holding(call.phase) <==> c in receipts && !receipts[c].given)
    && (Holding(call.phase) ==> receipts[c].key == call.key && HeldFor(record, call, app))
    && (call.phase in {Planning, Waiting, Entered, Claiming} ==> c !in receipts)
    && (call.door == RunDoor ==> !call.phase.Open? && !call.phase.Closed?)
  }

  predicate HeldFor(record: Record, call: Call, app: App) {
    call.key in record && record[call.key].app == app.name && record[call.key].composition == call.composition
  }

  ghost predicate CallOk(s: Process, c: CallId)
    requires c in s.calls
  {
    s.calls[c].app in s.apps && CallFits(c, s.calls[c], s.apps[s.calls[c].app], s.record, s.receipts)
  }

  ghost predicate OnePast(s: Process, c: CallId, d: CallId)
    requires c in s.calls && d in s.calls
  {
    Past(s.calls[c].phase) && Past(s.calls[d].phase) && s.calls[c].app == s.calls[d].app ==> c == d
  }

  ghost predicate Inv(s: Process) {
    && AllCounted(s.record, s.receipts)
    && (forall c :: c in s.calls ==> CallOk(s, c))
    && (forall c, d {:trigger OnePast(s, c, d)} :: c in s.calls && d in s.calls ==> OnePast(s, c, d))
    && (forall c :: c in s.receipts ==> c in s.calls)
    && (forall a {:trigger LockHeld(s, a)} :: a in s.apps && s.apps[a].locked ==> LockHeld(s, a))
    && (forall a {:trigger SomebodyPast(s, a)} :: a in s.apps && s.apps[a].built ==> SomebodyPast(s, a))
  }

  /** A locked mutex has a holder inside. */
  ghost predicate LockHeld(s: Process, a: AppId)
    requires a in s.apps
  {
    s.apps[a].owner in s.calls && s.calls[s.apps[a].owner].app == a && Inside(s.calls[s.apps[a].owner].phase)
  }

  ghost predicate SomebodyPast(s: Process, a: AppId) {
    exists c :: c in s.calls && s.calls[c].app == a && Past(s.calls[c].phase)
  }

  ghost predicate Init(s: Process) {
    s.record == map[] && s.calls == map[] && s.receipts == map[] &&
    forall a :: a in s.apps ==> !s.apps[a].built && !s.apps[a].locked
  }

  lemma InitInv(s: Process)
    requires Init(s)
    ensures Inv(s)
  {
    forall key ensures Counted(s.record, s.receipts, key) {
      assert LiveOn(s.receipts, key) == {};
    }
  }

  // ------------------------------------------------- every step keeps the invariant

  /** Taking a receipt adds one to the live receipts on its database alone. */
  lemma TakingCounts(record: Record, receipts: map<CallId, Receipt>, c: CallId, key: string, app: string, composition: string)
    requires AllCounted(record, receipts)
    requires c !in receipts && Accepts(record, key, app, composition)
    ensures AllCounted(Claimed(record, key, app, composition), receipts[c := Receipt(key, false)])
  {
    var record', receipts' := Claimed(record, key, app, composition), receipts[c := Receipt(key, false)];
    forall k ensures Counted(record', receipts', k) {
      assert Counted(record, receipts, k);
      LiveAfterTaking(receipts, c, key, k);
    }
  }

  lemma LiveAfterTaking(receipts: map<CallId, Receipt>, c: CallId, key: string, k: string)
    requires c !in receipts
    ensures LiveOn(receipts[c := Receipt(key, false)], k) == LiveOn(receipts, k) + if k == key then {c} else {}
  {
  }

  /** Giving one back takes one away, and the entry goes with the last. */
  lemma GivingCounts(record: Record, receipts: map<CallId, Receipt>, c: CallId)
    requires AllCounted(record, receipts)
    requires c in receipts && !receipts[c].given
    ensures receipts[c].key in record
    ensures AllCounted(Released(record, receipts[c].key), receipts[c := receipts[c].(given := true)])
    ensures forall d :: d in receipts && d != c && !receipts[d].given && receipts[d].key == receipts[c].key ==>
              receipts[c].key in Released(record, receipts[c].key)
  {
    var key := receipts[c].key;
    var receipts' := receipts[c := receipts[c].(given := true)];
    assert c in LiveOn(receipts, key) && Counted(record, receipts, key);
    var record' := Released(record, key);
    forall k ensures Counted(record', receipts', k) {
      assert Counted(record, receipts, k);
      if k == key {
        assert LiveOn(receipts', k) == LiveOn(receipts, k) - {c};
        assert |LiveOn(receipts', k)| == |LiveOn(receipts, k)| - 1;
      } else {
        assert LiveOn(receipts', k) == LiveOn(receipts, k);
      }
    }
    forall d | d in receipts && d != c && !receipts[d].given && receipts[d].key == key ensures key in Released(record, key) {
      assert d in LiveOn(receipts', key) && Counted(Released(record, key), receipts', key);
    }
  }

  /** One call moved, with its own app, its own receipt and the record. */
  function Update(s: Process, c: CallId, call: Call, app: App, record: Record, receipts: map<CallId, Receipt>): Process {
    Process(record, s.apps[call.app := app], s.calls[c := call], receipts)
  }

  /** What such a move has to respect of everybody else. */
  ghost predicate Respects(s: Process, c: CallId, call: Call, app: App, record: Record, receipts: map<CallId, Receipt>) {
    var a := call.app;
    && a in s.apps && app.name == s.apps[a].name && (c in s.calls ==> s.calls[c].app == a)
    && AllCounted(record, receipts)
    && (forall d :: d != c ==> (d in receipts <==> d in s.receipts) && (d in receipts ==> receipts[d] == s.receipts[d]))
    && (forall d :: d in s.calls && d != c && Holding(s.calls[d].phase) ==> SameHold(s.record, record, s.calls[d].key))
    && (app == s.apps[a] || (s.apps[a].locked ==> s.apps[a].owner == c))
    && (app.locked ==> if s.apps[a].locked && s.apps[a].owner != c then app.owner == s.apps[a].owner
                       else app.owner == c && Inside(call.phase))
    && (Past(call.phase) && !WasPast(s, c) ==> !s.apps[a].built)
    && (s.apps[a].built && !app.built ==> WasPast(s, c))
    && (app.built && !s.apps[a].built ==> Past(call.phase))
    && (app.built && WasPast(s, c) ==> Past(call.phase))
  }

  predicate WasPast(s: Process, c: CallId) {
    c in s.calls && Past(s.calls[c].phase)
  }

  predicate SameHold(record: Record, record': Record, key: string) {
    key in record ==> key in record' && record'[key].app == record[key].app && record'[key].composition == record[key].composition
  }

  lemma OthersStayOk(s: Process, c: CallId, call: Call, app: App, record: Record, receipts: map<CallId, Receipt>, d: CallId)
    requires Inv(s) && Respects(s, c, call, app, record, receipts)
    requires d in s.calls && d != c
    ensures CallOk(Update(s, c, call, app, record, receipts), d)
  {
    assert CallOk(s, d);
    if s.calls[d].app == call.app {
      if c in s.calls { assert OnePast(s, c, d); }
      assert LockHeld(s, call.app) || !s.apps[call.app].locked;
    }
  }

  lemma UpdateKeeps(s: Process, c: CallId, call: Call, app: App, record: Record, receipts: map<CallId, Receipt>)
    requires Inv(s) && Respects(s, c, call, app, record, receipts)
    requires CallFits(c, call, app, record, receipts)
    ensures Inv(Update(s, c, call, app, record, receipts))
  {
    var s' := Update(s, c, call, app, record, receipts);
    forall d | d in s'.calls ensures CallOk(s', d) {
      if d != c { OthersStayOk(s, c, call, app, record, receipts, d); }
    }
    forall d, e | d in s'.calls && e in s'.calls ensures OnePast(s', d, e) {
      OnePastKept(s, c, call, app, record, receipts, d, e);
    }
    forall a | a in s'.apps && s'.apps[a].locked ensures LockHeld(s', a) {
      LockKept(s, c, call, app, record, receipts, a);
    }
    forall a | a in s'.apps && s'.apps[a].built ensures SomebodyPast(s', a) {
      PastKept(s, c, call, app, record, receipts, a);
    }
  }

  lemma OnePastKept(s: Process, c: CallId, call: Call, app: App, record: Record, receipts: map<CallId, Receipt>, d: CallId, e: CallId)
    requires Inv(s) && Respects(s, c, call, app, record, receipts)
    requires (d in s.calls || d == c) && (e in s.calls || e == c)
    ensures OnePast(Update(s, c, call, app, record, receipts), d, e)
  {
    if d in s.calls && e in s.calls { assert OnePast(s, d, e); }
    if d in s.calls { assert CallOk(s, d); }
    if e in s.calls { assert CallOk(s, e); }
  }

  lemma LockKept(s: Process, c: CallId, call: Call, app: App, record: Record, receipts: map<CallId, Receipt>, a: AppId)
    requires Inv(s) && Respects(s, c, call, app, record, receipts)
    requires var s' := Update(s, c, call, app, record, receipts); a in s'.apps && s'.apps[a].locked
    ensures LockHeld(Update(s, c, call, app, record, receipts), a)
  {
    if a in s.apps && s.apps[a].locked { assert LockHeld(s, a); }
  }

  lemma PastKept(s: Process, c: CallId, call: Call, app: App, record: Record, receipts: map<CallId, Receipt>, a: AppId)
    requires Inv(s) && Respects(s, c, call, app, record, receipts)
    requires var s' := Update(s, c, call, app, record, receipts); a in s'.apps && s'.apps[a].built
    ensures SomebodyPast(Update(s, c, call, app, record, receipts), a)
  {
    var s' := Update(s, c, call, app, record, receipts);
    if a == call.app && Past(call.phase) {
      assert c in s'.calls;
    } else {
      assert SomebodyPast(s, a);
      var d :| d in s.calls && s.calls[d].app == a && Past(s.calls[d].phase);
      assert d != c && s'.calls[d] == s.calls[d];
    }
  }

  /** A step moves one call, and respects everybody else. */
  ghost predicate Fits(s: Process, step: Step)
    requires Enabled(s, step)
  {
    var s' := Apply(s, step);
    var call := s'.calls[step.c];
    && call.app in s'.apps
    && Respects(s, step.c, call, s'.apps[call.app], s'.record, s'.receipts)
    && CallFits(step.c, call, s'.apps[call.app], s'.record, s'.receipts)
  }

  lemma StepIsUpdate(s: Process, step: Step)
    requires Enabled(s, step) && Apply(s, step).calls[step.c].app in Apply(s, step).apps
    ensures var s' := Apply(s, step); var call := s'.calls[step.c];
            Update(s, step.c, call, s'.apps[call.app], s'.record, s'.receipts) == s'
  {
    var s' := Apply(s, step);
    var call := s'.calls[step.c];
    assert s.apps[call.app := s'.apps[call.app]] == s'.apps;
    assert s.calls[step.c := call] == s'.calls;
  }

  /** What the invariant says of the call a step moves and of its app. */
  lemma Known(s: Process, c: CallId, a: AppId)
    requires Inv(s) && (c in s.calls ==> s.calls[c].app == a)
    ensures c in s.calls ==> CallOk(s, c)
    ensures a in s.apps && s.apps[a].locked ==> LockHeld(s, a)
    ensures c !in s.calls ==> c !in s.receipts
  {
  }

  lemma BeginFits(s: Process, step: Step)
    requires Inv(s) && step.Begin? && Enabled(s, step)
    ensures Fits(s, step)
  {
    Known(s, step.c, step.a);
  }

  lemma PlanFits(s: Process, step: Step)
    requires Inv(s) && step.PlanAnswers? && Enabled(s, step)
    ensures Fits(s, step)
  {
    Known(s, step.c, s.calls[step.c].app);
  }

  lemma EndFits(s: Process, step: Step)
    requires Inv(s) && step.EngineEnds? && Enabled(s, step)
    ensures Fits(s, step)
  {
    Known(s, step.c, s.calls[step.c].app);
  }

  lemma EnterFits(s: Process, step: Step)
    requires Inv(s) && step.Enter? && Enabled(s, step)
    ensures Fits(s, step)
  {
    Known(s, step.c, s.calls[step.c].app);
  }

  lemma ReadFits(s: Process, step: Step)
    requires Inv(s) && step.ReadBuilt? && Enabled(s, step)
    ensures Fits(s, step)
  {
    Known(s, step.c, s.calls[step.c].app);
  }

  lemma CheckFits(s: Process, step: Step)
    requires Inv(s) && step.EngineChecks? && Enabled(s, step)
    ensures Fits(s, step)
  {
    Known(s, step.c, s.calls[step.c].app);
  }

  lemma SettleFits(s: Process, step: Step)
    requires Inv(s) && step.Settle? && Enabled(s, step)
    ensures Fits(s, step)
  {
    Known(s, step.c, s.calls[step.c].app);
  }

  lemma TakeFits(s: Process, step: Step)
    requires Inv(s) && step.TakeClaim? && Enabled(s, step)
    ensures Fits(s, step)
  {
    var call := s.calls[step.c];
    Known(s, step.c, call.app);
    if Accepts(s.record, call.key, s.apps[call.app].name, call.composition) {
      TakingCounts(s.record, s.receipts, step.c, call.key, s.apps[call.app].name, call.composition);
    }
  }

  /** A receipt in hand goes back for good, and nobody else's hold is touched. */
  lemma ReleaseFits(s: Process, c: CallId)
    requires Inv(s) && c in s.calls && Holding(s.calls[c].phase)
    ensures var s' := Release(s, c);
            && AllCounted(s'.record, s'.receipts)
            && c in s'.receipts && s'.receipts[c].given
            && (forall d :: d != c ==> (d in s'.receipts <==> d in s.receipts) && (d in s'.receipts ==> s'.receipts[d] == s.receipts[d]))
            && (forall d :: d in s.calls && d != c && Holding(s.calls[d].phase) ==> SameHold(s.record, s'.record, s.calls[d].key))
            && s'.apps == s.apps && s'.calls == s.calls
  {
    assert CallOk(s, c);
    GivingCounts(s.record, s.receipts, c);
    forall d | d in s.calls && d != c && Holding(s.calls[d].phase)
      ensures SameHold(s.record, Release(s, c).record, s.calls[d].key)
    {
      assert CallOk(s, d);
    }
  }

  lemma UnwindFits(s: Process, step: Step)
    requires Inv(s) && step.Unwind? && Enabled(s, step)
    ensures Fits(s, step)
  {
    Known(s, step.c, s.calls[step.c].app);
    ReleaseFits(s, step.c);
  }

  lemma GiveFits(s: Process, step: Step)
    requires Inv(s) && step.GiveBack? && Enabled(s, step)
    ensures Fits(s, step)
  {
    Known(s, step.c, s.calls[step.c].app);
    ReleaseFits(s, step.c);
  }

  lemma CloseFits(s: Process, step: Step)
    requires Inv(s) && step.Close? && Enabled(s, step)
    ensures Fits(s, step)
  {
    Known(s, step.c, s.calls[step.c].app);
    if Holding(s.calls[step.c].phase) {
      ReleaseFits(s, step.c);
    }
  }

  lemma StepKeeps(s: Process, step: Step)
    requires Inv(s) && Enabled(s, step)
    ensures Inv(Apply(s, step))
  {
    if step.Begin? { BeginFits(s, step); }
    else if step.PlanAnswers? { PlanFits(s, step); }
    else if step.EngineEnds? { EndFits(s, step); }
    else if step.Enter? { EnterFits(s, step); }
    else if step.ReadBuilt? { ReadFits(s, step); }
    else if step.EngineChecks? { CheckFits(s, step); }
    else if step.Settle? { SettleFits(s, step); }
    else if step.TakeClaim? { TakeFits(s, step); }
    else if step.Unwind? { UnwindFits(s, step); }
    else if step.GiveBack? { GiveFits(s, step); }
    else { CloseFits(s, step); }
    var s' := Apply(s, step);
    var call := s'.calls[step.c];
    StepIsUpdate(s, step);
    UpdateKeeps(s, step.c, call, s'.apps[call.app], s'.record, s'.receipts);
  }

  // ----------------------------------------------------------------- whole runs

  /** A run: every state follows from the one before by one enabled step. */
  ghost predicate IsRun(run: seq<Process>) {
    && run != [] && Init(run[0])
    && forall i :: 0 <= i < |run| - 1 ==> Follows(run[i], run[i + 1])
  }

  ghost predicate Follows(s: Process, s': Process) {
    exists step :: Enabled(s, step) && Apply(s, step) == s'
  }

  lemma {:induction false} InvAlways(run: seq<Process>, n: nat)
    requires IsRun(run) && n < |run|
    ensures Inv(run[n])
  {
    if n == 0 {
      InitInv(run[0]);
    } else {
      InvAlways(run, n - 1);
      assert Follows(run[n - 1], run[n - 1 + 1]);
      var step :| Enabled(run[n - 1], step) && Apply(run[n - 1], step) == run[n];
      StepKeeps(run[n - 1], step);
    }
  }

  /** At every moment of every run: a database's count is its unreleased receipts and
      its entry exists exactly while there is one; receipts live at once on one database
      are one application with one composition; each app has at most one call past
      `newEngine`, and is marked built exactly while it has one. */
  lemma SafetyOfEveryRun(run: seq<Process>, n: nat)
    requires IsRun(run) && n < |run|
    ensures var s := run[n];
      && (forall key :: key in s.record <==> LiveOn(s.receipts, key) != {})
      && (forall key :: key in s.record ==> s.record[key].lifecycles == |LiveOn(s.receipts, key)|)
      && (forall c :: c in s.calls ==> s.calls[c].app in s.apps)
      && (forall c, d :: c in s.calls && d in s.calls && Holding(s.calls[c].phase) && Holding(s.calls[d].phase) && s.calls[c].key == s.calls[d].key ==>
            s.calls[c].composition == s.calls[d].composition && s.apps[s.calls[c].app].name == s.apps[s.calls[d].app].name)
      && (forall c, d :: c in s.calls && d in s.calls && Past(s.calls[c].phase) && Past(s.calls[d].phase) && s.calls[c].app == s.calls[d].app ==> c == d)
      && (forall a :: a in s.apps ==> (s.apps[a].built <==> SomebodyPast(s, a)))
  {
    InvAlways(run, n);
    CountsAreRight(run[n]);
    HoldersAgree(run[n]);
    OnePerApp(run[n]);
  }

  lemma CountsAreRight(s: Process)
    requires Inv(s)
    ensures forall key :: key in s.record <==> LiveOn(s.receipts, key) != {}
    ensures forall key :: key in s.record ==> s.record[key].lifecycles == |LiveOn(s.receipts, key)|
  {
    forall key ensures key in s.record <==> LiveOn(s.receipts, key) != {} {
      assert Counted(s.record, s.receipts, key);
    }
    forall key | key in s.record ensures s.record[key].lifecycles == |LiveOn(s.receipts, key)| {
      assert Counted(s.record, s.receipts, key);
    }
  }

  lemma HoldersAgree(s: Process)
    requires Inv(s)
    ensures forall c :: c in s.calls ==> s.calls[c].app in s.apps
    ensures forall c, d :: c in s.calls && d in s.calls && Holding(s.calls[c].phase) && Holding(s.calls[d].phase) && s.calls[c].key == s.calls[d].key ==>
              s.calls[c].composition == s.calls[d].composition && s.apps[s.calls[c].app].name == s.apps[s.calls[d].app].name
  {
    forall c | c in s.calls ensures s.calls[c].app in s.apps { assert CallOk(s, c); }
    forall c, d | c in s.calls && d in s.calls && Holding(s.calls[c].phase) && Holding(s.calls[d].phase) && s.calls[c].key == s.calls[d].key
      ensures s.calls[c].composition == s.calls[d].composition && s.apps[s.calls[c].app].name == s.apps[s.calls[d].app].name
    {
      assert CallOk(s, c) && CallOk(s, d);
    }
  }

  lemma OnePerApp(s: Process)
    requires Inv(s)
    ensures forall c, d :: c in s.calls && d in s.calls && Past(s.calls[c].phase) && Past(s.calls[d].phase) && s.calls[c].app == s.calls[d].app ==> c == d
    ensures forall a :: a in s.apps ==> (s.apps[a].built <==> SomebodyPast(s, a))
  {
    forall c, d | c in s.calls && d in s.calls && Past(s.calls[c].phase) && Past(s.calls[d].phase) && s.calls[c].app == s.calls[d].app
      ensures c == d
    {
      assert OnePast(s, c, d);
    }
    forall a | a in s.apps ensures s.apps[a].built <==> SomebodyPast(s, a) {
      if SomebodyPast(s, a) {
        var c :| c in s.calls && s.calls[c].app == a && Past(s.calls[c].phase);
        assert CallOk(s, c);
      }
    }
  }

  /** A call that ended gave its claim back, and when every call of a run has ended,
      every Runtime among them closed, nothing is held. */
  lemma NothingLeaks(run: seq<Process>, n: nat)
    requires IsRun(run) && n < |run|
    ensures forall c :: c in run[n].calls && Ended(run[n].calls[c].phase) && c in run[n].receipts ==> run[n].receipts[c].given
    ensures (forall c :: c in run[n].calls ==> Ended(run[n].calls[c].phase)) ==> run[n].record == map[]
  {
    InvAlways(run, n);
    var s := run[n];
    forall c | c in s.calls && Ended(s.calls[c].phase) && c in s.receipts ensures s.receipts[c].given {
      assert CallOk(s, c);
    }
    if forall c :: c in s.calls ==> Ended(s.calls[c].phase) {
      forall key ensures key !in s.record {
        assert LiveOn(s.receipts, key) == {};
        assert Counted(s.record, s.receipts, key);
      }
    }
  }

  /** One release per receipt: a step either leaves the record alone, takes one claim
      for a call that had none, or gives one back that had not been given. */
  lemma EachClaimOnce(s: Process, step: Step)
    requires Inv(s) && Enabled(s, step)
    ensures var s' := Apply(s, step);
      || (s'.record == s.record && s'.receipts == s.receipts)
      || (step.c !in s.receipts && s'.receipts == s.receipts[step.c := Receipt(s.calls[step.c].key, false)]
          && s'.record == Claimed(s.record, s.calls[step.c].key, s.apps[s.calls[step.c].app].name, s.calls[step.c].composition))
      || (step.c in s.receipts && !s.receipts[step.c].given && s.receipts[step.c].key in s.record
          && s'.receipts == s.receipts[step.c := s.receipts[step.c].(given := true)]
          && s'.record == Released(s.record, s.receipts[step.c].key))
  {
    if step.c in s.calls { assert CallOk(s, step.c); }
    if step.c in s.receipts && !s.receipts[step.c].given {
      GivingCounts(s.record, s.receipts, step.c);
    }
  }

  /** Closing a Runtime again changes nothing. */
  lemma CloseTwiceIsCloseOnce(s: Process, c: CallId)
    requires Inv(s) && Enabled(s, Close(c))
    ensures var once := Apply(s, Close(c));
            Enabled(once, Close(c)) && Apply(once, Close(c)) == once
  {
    StepKeeps(s, Close(c));
    var once := Apply(s, Close(c));
    assert CallOk(once, c);
    assert once.calls[c := once.calls[c].(phase := Closed)] == once.calls;
  }

  /** Once `built` is cleared nobody is past `newEngine` on the app, and whoever reads
      `built` next goes on to claim. */
  lemma ClearedIsBuildable(s: Process, c: CallId)
    requires Inv(s) && Enabled(s, Settle(c))
    ensures var s' := Apply(s, Settle(c));
      var a := s.calls[c].app;
      && !s'.apps[a].built && !SomebodyPast(s', a)
      && (forall d :: Enabled(s', ReadBuilt(d)) && s'.calls[d].app == a ==> InPhase(Apply(s', ReadBuilt(d)), d, Claiming))
  {
    StepKeeps(s, Settle(c));
    var s' := Apply(s, Settle(c));
    assert forall d :: d in s'.calls ==> CallOk(s', d);
  }

  predicate UsedUp(phase: Phase) {
    phase in {Open, Closed, Spent} || phase == GivingBack(false)
  }

  lemma SpentStays(s: Process, step: Step, c: CallId)
    requires Enabled(s, step) && c in s.calls && UsedUp(s.calls[c].phase)
    ensures var s' := Apply(s, step);
            c in s'.calls && UsedUp(s'.calls[c].phase) && s'.calls[c].app == s.calls[c].app
  {
  }

  /** The app of a lifecycle that reached its effects stays built. */
  lemma SpentIsBuilt(s: Process, c: CallId)
    requires Inv(s) && c in s.calls && UsedUp(s.calls[c].phase)
    ensures s.calls[c].app in s.apps && s.apps[s.calls[c].app].built
  {
    assert CallOk(s, c);
  }

  lemma SpentFollows(s: Process, s': Process, c: CallId)
    requires Follows(s, s') && c in s.calls && UsedUp(s.calls[c].phase)
    ensures c in s'.calls && UsedUp(s'.calls[c].phase) && s'.calls[c].app == s.calls[c].app
  {
    var step :| Enabled(s, step) && Apply(s, step) == s';
    SpentStays(s, step, c);
  }

  lemma OneStep(run: seq<Process>, n: nat)
    requires IsRun(run) && 0 < n < |run|
    ensures Follows(run[n - 1], run[n])
  {
    var before := n - 1;
    assert Follows(run[before], run[before + 1]);
  }

  /** A lifecycle that is used up spends the app for the rest of the run. */
  lemma {:induction false} UsedUpForGood(run: seq<Process>, i: nat, j: nat, c: CallId)
    requires IsRun(run) && i <= j < |run|
    requires c in run[i].calls && UsedUp(run[i].calls[c].phase)
    ensures c in run[j].calls && UsedUp(run[j].calls[c].phase) && run[j].calls[c].app == run[i].calls[c].app
    ensures run[j].calls[c].app in run[j].apps && run[j].apps[run[j].calls[c].app].built
  {
    if i < j {
      UsedUpForGood(run, i, j - 1, c);
      OneStep(run, j);
      SpentFollows(run[j - 1], run[j], c);
    }
    InvAlways(run, j);
    SpentIsBuilt(run[j], c);
  }

  /** Nobody is stuck: a call that has not ended can step, or waits for a mutex whose
      holder can step. */
  lemma NobodyIsStuck(s: Process, c: CallId)
    requires Inv(s) && c in s.calls && !Ended(s.calls[c].phase)
    ensures exists step :: Enabled(s, step) && (step.c == c || (step.c in s.calls && Inside(s.calls[step.c].phase) && s.calls[step.c].app == s.calls[c].app))
  {
    var a := s.calls[c].app;
    Known(s, c, a);
    var d := if s.calls[c].phase in {Waiting, Settling} && s.apps[a].locked then s.apps[a].owner else c;
    Known(s, d, a);
    assert Enabled(s, NextOf(d, s.calls[d].phase));
  }

  /** A step a call in this phase takes. */
  function NextOf(c: CallId, phase: Phase): Step {
    match phase
    case Planning => PlanAnswers(c, true)
    case Waiting => Enter(c)
    case Entered => ReadBuilt(c)
    case Claiming => TakeClaim(c)
    case Constructing => EngineChecks(c, true)
    case Unwinding => Unwind(c)
    case Running => EngineEnds(c, false, false)
    case GivingBack(_) => GiveBack(c)
    case Settling => Settle(c)
    case _ => Close(c)
  }
}
