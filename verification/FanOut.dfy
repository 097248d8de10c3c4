/**
 The verification fan-out: one goroutine a candidate, a semaphore of three slots, a wait
 group, and one shared slice. Every goroutine step is a step of its own, and the scheduler
 may order enabled steps in any way. Deferred calls run last-in first-out, so a slot is
 given back before the wait group is told.
 */
module FanOut {
  import opened Text

  const MAX_CANDIDATES := 8
  const SLOTS := 3

  /** The main goroutine: in its loop at an index, holding a slot for it, counted in, waiting, done. */
  datatype Main = At(index: nat) | Acquired(index: nat) | Counted(index: nat) | Waiting | Returned

  /** A goroutine: not started, started, inside the verifier, written, slot released, done. */
  datatype Worker<C> = Idle | Started | Verifying(input: C) | Written | Released | Finished

  datatype State<C> = State(main: Main, candidates: seq<C>, workers: seq<Worker<C>>, slots: nat, group: nat,
      writes: seq<nat>)

  datatype Move = MainMove | WorkerMove(i: nat)

  /** The slice verifyCandidates works on. */
  function Batch<C>(cs: seq<C>): seq<C> {
    if |cs| > MAX_CANDIDATES then cs[..MAX_CANDIDATES] else cs
  }

  function Start<C>(cs: seq<C>): State<C> {
    var n := |Batch(cs)|;
    State(At(0), Batch(cs), seq(n, i => Idle), 0, 0, seq(n, i => 0))
  }

  /** A candidate that needs verifying: its start is Go's zero time. */
  type NeedsWork<!C> = C -> bool

  function MainStep<C>(s: State<C>, needs: NeedsWork<C>): Option<State<C>> {
    match s.main
    case At(i) =>
      if i >= |s.candidates| then Some(s.(main := Waiting))
      else if !needs(s.candidates[i]) then Some(s.(main := At(i + 1)))
      else if s.slots < SLOTS then Some(s.(main := Acquired(i), slots := s.slots + 1))
      else None
    case Acquired(i) => Some(s.(main := Counted(i), group := s.group + 1))
    case Counted(i) =>
      if i < |s.workers| then Some(s.(main := At(i + 1), workers := s.workers[i := Started])) else None
    case Waiting => if s.group == 0 then Some(s.(main := Returned)) else None
    case Returned => None
  }

  function WorkerStep<C>(s: State<C>, i: nat, verify: C -> C): Option<State<C>> {
    if i >= |s.workers| || |s.candidates| != |s.workers| || |s.writes| != |s.workers| then None
    else
      match s.workers[i]
      case Started => Some(s.(workers := s.workers[i := Verifying(s.candidates[i])]))
      case Verifying(input) =>
        Some(s.(workers := s.workers[i := Written], candidates := s.candidates[i := verify(input)],
                writes := s.writes[i := s.writes[i] + 1]))
      case Written => if s.slots > 0 then Some(s.(workers := s.workers[i := Released], slots := s.slots - 1)) else None
      case Released => if s.group > 0 then Some(s.(workers := s.workers[i := Finished], group := s.group - 1)) else None
      case _ => None
  }

  function Step<C>(s: State<C>, move: Move, needs: NeedsWork<C>, verify: C -> C): Option<State<C>> {
    match move
    case MainMove => MainStep(s, needs)
    case WorkerMove(i) => WorkerStep(s, i, verify)
  }

  /** The state after a schedule; None when it asks for a step that is not enabled. */
  function Run<C>(cs: seq<C>, moves: seq<Move>, needs: NeedsWork<C>, verify: C -> C): Option<State<C>> {
    if moves == [] then Some(Start(cs))
    else
      match Run(cs, moves[..|moves| - 1], needs, verify)
      case None => None
      case Some(s) => Step(s, moves[|moves| - 1], needs, verify)
  }

  /** What a loop without goroutines computes. */
  function Sequential<C>(cs: seq<C>, needs: NeedsWork<C>, verify: C -> C): (r: seq<C>)
    ensures |r| == |Batch(cs)|
  {
    seq(|Batch(cs)|, i requires 0 <= i < |Batch(cs)| =>
        if needs(Batch(cs)[i]) then verify(Batch(cs)[i]) else Batch(cs)[i])
  }

  // ---------- counting workers ----------

  predicate HoldsSlot<C>(w: Worker<C>) {
    w.Started? || w.Verifying? || w.Written?
  }

  predicate InGroup<C>(w: Worker<C>) {
    HoldsSlot(w) || w.Released?
  }

  function Count<C>(ws: seq<Worker<C>>, p: Worker<C> -> bool): nat {
    if ws == [] then 0 else Count(ws[..|ws| - 1], p) + if p(ws[|ws| - 1]) then 1 else 0
  }

  lemma {:induction false} CountUpdate<C>(ws: seq<Worker<C>>, i: nat, w: Worker<C>, p: Worker<C> -> bool)
    requires i < |ws|
    ensures Count(ws[i := w], p) == Count(ws, p) - (if p(ws[i]) then 1 else 0) + (if p(w) then 1 else 0)
  {
    var n := |ws| - 1;
    if i < n {
      assert ws[i := w][..n] == ws[..n][i := w];
      CountUpdate(ws[..n], i, w, p);
    } else {
      assert ws[i := w][..n] == ws[..n];
    }
  }

  lemma {:induction false} CountNone<C>(ws: seq<Worker<C>>, p: Worker<C> -> bool)
    ensures Count(ws, p) == 0 <==> forall i :: 0 <= i < |ws| ==> !p(ws[i])
  {
    if ws == [] {
    } else {
      CountNone(ws[..|ws| - 1], p);
    }
  }

  function Slotted<C>(): Worker<C> -> bool { (w: Worker<C>) => HoldsSlot(w) }
  function Grouped<C>(): Worker<C> -> bool { (w: Worker<C>) => InGroup(w) }
  function InVerifier<C>(): Worker<C> -> bool { (w: Worker<C>) => w.Verifying? }

  // ---------- the invariant ----------

  predicate Done<C>(w: Worker<C>) {
    w.Written? || w.Released? || w.Finished?
  }

  /** What one index holds: its candidate is untouched until its single write. */
  ghost predicate IndexOk<C>(s: State<C>, i: nat, original: C, verify: C -> C)
    requires i < |s.candidates| && i < |s.workers| && i < |s.writes|
  {
    && s.candidates[i] == (if Done(s.workers[i]) then verify(original) else original)
    && s.writes[i] == (if Done(s.workers[i]) then 1 else 0)
    && (s.workers[i].Verifying? ==> s.workers[i].input == original)
  }

  /** The indices before k have a worker exactly when they need one; the others have none. */
  ghost predicate SpawnedBefore<C>(s: State<C>, originals: seq<C>, needs: NeedsWork<C>, k: nat)
    requires |s.workers| == |originals|
  {
    forall i :: 0 <= i < |originals| ==> (s.workers[i].Idle? <==> i >= k || !needs(originals[i]))
  }

  /** Workers have been started for the indices the main goroutine has passed. */
  ghost predicate Spawned<C>(s: State<C>, originals: seq<C>, needs: NeedsWork<C>)
    requires |s.workers| == |originals|
  {
    match s.main
    case At(k) => k <= |originals| && SpawnedBefore(s, originals, needs, k)
    case Acquired(k) => k < |originals| && needs(originals[k]) && SpawnedBefore(s, originals, needs, k)
    case Counted(k) => k < |originals| && needs(originals[k]) && SpawnedBefore(s, originals, needs, k)
    case _ => SpawnedBefore(s, originals, needs, |originals|)
  }

  ghost predicate DataOk<C>(s: State<C>, originals: seq<C>, verify: C -> C) {
    && |s.candidates| == |s.workers| == |s.writes| == |originals|
    && forall i :: 0 <= i < |originals| ==> IndexOk(s, i, originals[i], verify)
  }

  predicate CountsOk<C>(s: State<C>) {
    && s.slots == Count(s.workers, Slotted()) + (if s.main.Acquired? || s.main.Counted? then 1 else 0)
    && s.slots <= SLOTS
    && s.group == Count(s.workers, Grouped()) + (if s.main.Counted? then 1 else 0)
    && (s.main.Returned? ==> s.group == 0)
  }

  ghost predicate Inv<C>(s: State<C>, originals: seq<C>, needs: NeedsWork<C>, verify: C -> C) {
    DataOk(s, originals, verify) && Spawned(s, originals, needs) && CountsOk(s)
  }

  lemma StartOk<C>(cs: seq<C>, needs: NeedsWork<C>, verify: C -> C)
    ensures Inv(Start(cs), Batch(cs), needs, verify)
  {
    CountNone(Start(cs).workers, Slotted());
    CountNone(Start(cs).workers, Grouped());
  }

  lemma MainCounts<C>(s: State<C>, needs: NeedsWork<C>)
    requires CountsOk(s) && MainStep(s, needs).Some?
    requires s.main.Counted? ==> s.workers[s.main.index].Idle?
    ensures CountsOk(MainStep(s, needs).value)
  {
    if s.main.Counted? {
      CountUpdate(s.workers, s.main.index, Started, Slotted());
      CountUpdate(s.workers, s.main.index, Started, Grouped());
    }
  }

  lemma MainData<C>(s: State<C>, originals: seq<C>, needs: NeedsWork<C>, verify: C -> C)
    requires DataOk(s, originals, verify) && Spawned(s, originals, needs) && MainStep(s, needs).Some?
    ensures DataOk(MainStep(s, needs).value, originals, verify)
  {
    var next := MainStep(s, needs).value;
    forall j | 0 <= j < |originals| ensures IndexOk(next, j, originals[j], verify) {
      assert IndexOk(s, j, originals[j], verify);
    }
  }

  lemma MainSpawned<C>(s: State<C>, originals: seq<C>, needs: NeedsWork<C>, verify: C -> C)
    requires DataOk(s, originals, verify) && Spawned(s, originals, needs) && MainStep(s, needs).Some?
    ensures Spawned(MainStep(s, needs).value, originals, needs)
    ensures s.main.Counted? ==> s.workers[s.main.index].Idle?
  {
    if s.main.At? && s.main.index < |originals| {
      assert IndexOk(s, s.main.index, originals[s.main.index], verify);
    }
  }

  lemma MainStepOk<C>(s: State<C>, originals: seq<C>, needs: NeedsWork<C>, verify: C -> C)
    requires Inv(s, originals, needs, verify) && MainStep(s, needs).Some?
    ensures Inv(MainStep(s, needs).value, originals, needs, verify)
  {
    MainSpawned(s, originals, needs, verify);
    MainData(s, originals, needs, verify);
    MainCounts(s, needs);
  }

  /** A worker step changes one worker, and at most one candidate. */
  lemma WorkerFrame<C>(s: State<C>, i: nat, verify: C -> C) returns (w: Worker<C>)
    requires WorkerStep(s, i, verify).Some?
    ensures i < |s.workers| && WorkerStep(s, i, verify).value.workers == s.workers[i := w]
    ensures w == WorkerStep(s, i, verify).value.workers[i] && InGroup(s.workers[i])
    ensures !s.workers[i].Idle? && !w.Idle? && WorkerStep(s, i, verify).value.main == s.main
  {
    w := WorkerStep(s, i, verify).value.workers[i];
  }

  lemma WorkerCounts<C>(s: State<C>, i: nat, verify: C -> C)
    requires CountsOk(s) && WorkerStep(s, i, verify).Some? && !s.main.Returned?
    ensures CountsOk(WorkerStep(s, i, verify).value)
  {
    var w := WorkerFrame(s, i, verify);
    CountUpdate(s.workers, i, w, Slotted());
    CountUpdate(s.workers, i, w, Grouped());
  }

  lemma WorkerData<C>(s: State<C>, i: nat, originals: seq<C>, verify: C -> C)
    requires DataOk(s, originals, verify) && WorkerStep(s, i, verify).Some?
    ensures DataOk(WorkerStep(s, i, verify).value, originals, verify)
  {
    var next := WorkerStep(s, i, verify).value;
    assert IndexOk(s, i, originals[i], verify);
    forall j | 0 <= j < |originals| ensures IndexOk(next, j, originals[j], verify) {
      assert IndexOk(s, j, originals[j], verify);
    }
  }

  lemma WorkerStepOk<C>(s: State<C>, i: nat, originals: seq<C>, needs: NeedsWork<C>, verify: C -> C)
    requires Inv(s, originals, needs, verify) && WorkerStep(s, i, verify).Some?
    ensures Inv(WorkerStep(s, i, verify).value, originals, needs, verify)
  {
    WorkerData(s, i, originals, verify);
    var w := WorkerFrame(s, i, verify);
    if s.main.Returned? {
      CountAtLeast(s.workers, i, Grouped());
    } else {
      WorkerCounts(s, i, verify);
    }
  }

  lemma {:induction false} RunOk<C>(cs: seq<C>, moves: seq<Move>, needs: NeedsWork<C>, verify: C -> C)
    requires Run(cs, moves, needs, verify).Some?
    ensures Inv(Run(cs, moves, needs, verify).value, Batch(cs), needs, verify)
  {
    if moves == [] {
      StartOk(cs, needs, verify);
    } else {
      var before := moves[..|moves| - 1];
      RunOk(cs, before, needs, verify);
      var s := Run(cs, before, needs, verify).value;
      match moves[|moves| - 1]
      case MainMove => MainStepOk(s, Batch(cs), needs, verify);
      case WorkerMove(i) => WorkerStepOk(s, i, Batch(cs), needs, verify);
    }
  }

  // ---------- what every schedule gives ----------

  /** Whatever the schedule, at most three verifications run at a time. */
  lemma AtMostThree<C>(cs: seq<C>, moves: seq<Move>, needs: NeedsWork<C>, verify: C -> C)
    requires Run(cs, moves, needs, verify).Some?
    ensures Count(Run(cs, moves, needs, verify).value.workers, InVerifier()) <= 3
  {
    RunOk(cs, moves, needs, verify);
    CountLess(Run(cs, moves, needs, verify).value.workers, InVerifier(), Slotted());
  }

  lemma {:induction false} CountLess<C>(ws: seq<Worker<C>>, p: Worker<C> -> bool, q: Worker<C> -> bool)
    requires forall w :: p(w) ==> q(w)
    ensures Count(ws, p) <= Count(ws, q)
  {
    if ws == [] {
    } else {
      CountLess(ws[..|ws| - 1], p, q);
    }
  }

  /**
   Every schedule that returns has computed the sequential map over the first eight: each
   candidate that needed verifying was written once, with its verification, and every other is
   untouched.
   */
  lemma ReturnsSequential<C>(cs: seq<C>, moves: seq<Move>, needs: NeedsWork<C>, verify: C -> C)
    requires Run(cs, moves, needs, verify).Some? && Run(cs, moves, needs, verify).value.main == Returned
    ensures var s := Run(cs, moves, needs, verify).value;
            && s.candidates == Sequential(cs, needs, verify)
            && |s.candidates| == |s.writes| == (if |cs| < 8 then |cs| else 8)
            && forall i :: 0 <= i < |s.candidates| ==>
                 && s.candidates[i] == (if needs(cs[i]) then verify(cs[i]) else cs[i])
                 && s.writes[i] == (if needs(cs[i]) then 1 else 0)
  {
    RunOk(cs, moves, needs, verify);
    var s := Run(cs, moves, needs, verify).value;
    CountNone(s.workers, Grouped());
    forall i | 0 <= i < |Batch(cs)|
      ensures s.candidates[i] == Sequential(cs, needs, verify)[i] && s.writes[i] == if needs(Batch(cs)[i]) then 1 else 0
    {
      assert IndexOk(s, i, Batch(cs)[i], verify);
      assert !Grouped()(s.workers[i]);
    }
  }

  lemma RunNext<C>(cs: seq<C>, moves: seq<Move>, move: Move, s: State<C>, next: State<C>, needs: NeedsWork<C>,
      verify: C -> C)
    requires Run(cs, moves, needs, verify) == Some(s) && Step(s, move, needs, verify) == Some(next)
    ensures Run(cs, moves + [move], needs, verify) == Some(next)
  {
    assert (moves + [move])[..|moves|] == moves;
  }

  lemma MainMoves<C>(cs: seq<C>, moves: seq<Move>, s: State<C>, next: State<C>, needs: NeedsWork<C>, verify: C -> C)
    returns (more: seq<Move>)
    requires Run(cs, moves, needs, verify) == Some(s) && MainStep(s, needs) == Some(next)
    ensures Run(cs, more, needs, verify) == Some(next)
  {
    more := moves + [MainMove];
    RunNext(cs, moves, MainMove, s, next, needs, verify);
  }

  lemma ThreeMainMoves<C>(cs: seq<C>, moves: seq<Move>, s: State<C>, one: State<C>, two: State<C>, three: State<C>,
      needs: NeedsWork<C>, verify: C -> C)
    returns (more: seq<Move>)
    requires Run(cs, moves, needs, verify) == Some(s)
    requires MainStep(s, needs) == Some(one) && MainStep(one, needs) == Some(two) && MainStep(two, needs) == Some(three)
    ensures Run(cs, more, needs, verify) == Some(three)
  {
    more := MainMoves(cs, moves, s, one, needs, verify);
    more := MainMoves(cs, more, one, two, needs, verify);
    more := MainMoves(cs, more, two, three, needs, verify);
  }

  /** The main goroutine starts one worker. */
  lemma StartsWorker<C>(s: State<C>, i: nat, needs: NeedsWork<C>)
    returns (one: State<C>, two: State<C>, three: State<C>)
    requires s.main == At(i) && i < |s.candidates| == |s.workers| && needs(s.candidates[i]) && s.slots < SLOTS
    ensures MainStep(s, needs) == Some(one) && MainStep(one, needs) == Some(two) && MainStep(two, needs) == Some(three)
    ensures three == s.(main := At(i + 1), workers := s.workers[i := Started], slots := s.slots + 1,
                        group := s.group + 1)
  {
    one := s.(main := Acquired(i), slots := s.slots + 1);
    two := one.(main := Counted(i), group := s.group + 1);
    three := two.(main := At(i + 1), workers := s.workers[i := Started]);
  }

  lemma EntersVerifier<C>(cs: seq<C>, moves: seq<Move>, s: State<C>, i: nat, needs: NeedsWork<C>, verify: C -> C)
    returns (more: seq<Move>)
    requires Run(cs, moves, needs, verify) == Some(s) && i < |s.workers| == |s.candidates| == |s.writes|
    requires s.workers[i].Started?
    ensures Run(cs, more, needs, verify) == Some(s.(workers := s.workers[i := Verifying(s.candidates[i])]))
  {
    RunNext(cs, moves, WorkerMove(i), s, s.(workers := s.workers[i := Verifying(s.candidates[i])]), needs, verify);
    more := moves + [WorkerMove(i)];
  }

  lemma CountStarts<C>(n: nat)
    requires n >= 3
    ensures var idle: seq<Worker<C>> := seq(n, i => Idle);
            Count(idle, InVerifier()) == 0
  {
    CountNone<C>(seq(n, i => Idle), InVerifier());
  }

  /** And three may be in the verifier at once. */
  lemma ThreeAtOnce<C>(cs: seq<C>, needs: NeedsWork<C>, verify: C -> C) returns (moves: seq<Move>)
    requires |cs| >= 3 && needs(cs[0]) && needs(cs[1]) && needs(cs[2])
    ensures Run(cs, moves, needs, verify).Some?
    ensures Count(Run(cs, moves, needs, verify).value.workers, InVerifier()) == 3
  {
    var s := Start(cs);
    CountStarts<C>(|s.workers|);
    moves := [];
    for i := 0 to 3
      invariant Run(cs, moves, needs, verify) == Some(s)
      invariant s.main == At(i) && s.slots == i && s.candidates == Batch(cs)
      invariant |s.workers| == |s.candidates| == |s.writes| && Count(s.workers, InVerifier()) == 0
      invariant forall j :: 0 <= j < i ==> s.workers[j].Started?
      invariant forall j :: i <= j < |s.workers| ==> s.workers[j].Idle?
    {
      var one, two, next := StartsWorker(s, i, needs);
      CountUpdate(s.workers, i, Started, InVerifier());
      moves := ThreeMainMoves(cs, moves, s, one, two, next, needs, verify);
      s := next;
    }
    for i := 0 to 3
      invariant Run(cs, moves, needs, verify) == Some(s)
      invariant |s.workers| == |s.candidates| == |s.writes| >= 3 && Count(s.workers, InVerifier()) == i
      invariant forall j :: i <= j < 3 ==> s.workers[j].Started?
    {
      moves := EntersVerifier(cs, moves, s, i, needs, verify);
      CountUpdate(s.workers, i, Verifying(s.candidates[i]), InVerifier());
      s := Run(cs, moves, needs, verify).value;
    }
  }

  /** No reachable state but the last is stuck. */
  lemma NeverStuck<C>(cs: seq<C>, moves: seq<Move>, needs: NeedsWork<C>, verify: C -> C) returns (move: Move)
    requires Run(cs, moves, needs, verify).Some? && Run(cs, moves, needs, verify).value.main != Returned
    ensures Step(Run(cs, moves, needs, verify).value, move, needs, verify).Some?
  {
    RunOk(cs, moves, needs, verify);
    var s := Run(cs, moves, needs, verify).value;
    if MainStep(s, needs).Some? {
      move := MainMove;
    } else {
      var i := BusyWorker(s, Batch(cs), needs, verify);
      CountAtLeast(s.workers, i, Slotted());
      CountAtLeast(s.workers, i, Grouped());
      move := WorkerMove(i);
    }
  }

  lemma BusyWorker<C>(s: State<C>, originals: seq<C>, needs: NeedsWork<C>, verify: C -> C) returns (i: nat)
    requires Inv(s, originals, needs, verify) && s.main != Returned && MainStep(s, needs).None?
    ensures i < |s.workers| && InGroup(s.workers[i])
  {
    CountNone(s.workers, Slotted());
    CountNone(s.workers, Grouped());
    if s.main.At? {
      i :| 0 <= i < |s.workers| && Slotted()(s.workers[i]);
    } else {
      i :| 0 <= i < |s.workers| && Grouped()(s.workers[i]);
    }
  }

  lemma CountAtLeast<C>(ws: seq<Worker<C>>, i: nat, p: Worker<C> -> bool)
    requires i < |ws|
    ensures p(ws[i]) ==> Count(ws, p) >= 1
  {
    CountNone(ws, p);
  }

  // ---------- every schedule ends ----------

  function WorkLeft<C>(w: Worker<C>): nat {
    match w
    case Idle => 5
    case Started => 4
    case Verifying(_) => 3
    case Written => 2
    case Released => 1
    case Finished => 0
  }

  function AllWork<C>(ws: seq<Worker<C>>): nat {
    if ws == [] then 0 else AllWork(ws[..|ws| - 1]) + WorkLeft(ws[|ws| - 1])
  }

  function MainLeft(m: Main, n: nat): int {
    match m
    case At(i) => 3 * (n - i) + 2
    case Acquired(i) => 3 * (n - i) + 1
    case Counted(i) => 3 * (n - i)
    case Waiting => 1
    case Returned => 0
  }

  function Measure<C>(s: State<C>): int {
    MainLeft(s.main, |s.candidates|) + AllWork(s.workers)
  }

  lemma {:induction false} AllWorkUpdate<C>(ws: seq<Worker<C>>, i: nat, w: Worker<C>)
    requires i < |ws|
    ensures AllWork(ws[i := w]) == AllWork(ws) - WorkLeft(ws[i]) + WorkLeft(w)
  {
    var n := |ws| - 1;
    if i < n {
      assert ws[i := w][..n] == ws[..n][i := w];
      AllWorkUpdate(ws[..n], i, w);
    } else {
      assert ws[i := w][..n] == ws[..n];
    }
  }

  lemma MainDecreases<C>(s: State<C>, needs: NeedsWork<C>)
    requires MainStep(s, needs).Some?
    requires |s.candidates| == |s.workers| && (s.main.At? ==> s.main.index <= |s.candidates|)
    requires s.main.Counted? ==> s.workers[s.main.index].Idle?
    ensures Measure(MainStep(s, needs).value) < Measure(s)
  {
    if s.main.Counted? { AllWorkUpdate(s.workers, s.main.index, Started); }
  }

  lemma WorkerDecreases<C>(s: State<C>, i: nat, verify: C -> C)
    requires WorkerStep(s, i, verify).Some?
    ensures Measure(WorkerStep(s, i, verify).value) < Measure(s)
  {
    var w := WorkerFrame(s, i, verify);
    AllWorkUpdate(s.workers, i, w);
  }

  lemma StepDecreases<C>(s: State<C>, move: Move, originals: seq<C>, needs: NeedsWork<C>, verify: C -> C)
    requires Inv(s, originals, needs, verify) && Step(s, move, needs, verify).Some?
    ensures Measure(Step(s, move, needs, verify).value) < Measure(s)
  {
    match move
    case MainMove =>
      MainSpawned(s, originals, needs, verify);
      MainDecreases(s, needs);
    case WorkerMove(i) =>
      WorkerDecreases(s, i, verify);
  }

  lemma MeasureNatural<C>(s: State<C>, originals: seq<C>, needs: NeedsWork<C>, verify: C -> C)
    requires Inv(s, originals, needs, verify)
    ensures Measure(s) >= 0
  {
  }

  lemma {:induction false} AllIdle<C>(n: nat)
    ensures AllWork<C>(seq(n, i => Idle)) == 5 * n
  {
    var ws: seq<Worker<C>> := seq(n, i => Idle);
    if n == 0 {
    } else {
      assert ws[..n - 1] == seq(n - 1, i => Idle);
      AllIdle<C>(n - 1);
    }
  }

  /** Every schedule is at most eight steps a candidate and two more. */
  lemma {:induction false} RunsAreBounded<C>(cs: seq<C>, moves: seq<Move>, needs: NeedsWork<C>, verify: C -> C)
    requires Run(cs, moves, needs, verify).Some?
    ensures 0 <= Measure(Run(cs, moves, needs, verify).value) <= 8 * |Batch(cs)| + 2 - |moves|
  {
    if moves == [] {
      AllIdle<C>(|Batch(cs)|);
    } else {
      var before := moves[..|moves| - 1];
      RunsAreBounded(cs, before, needs, verify);
      RunOk(cs, before, needs, verify);
      StepDecreases(Run(cs, before, needs, verify).value, moves[|moves| - 1], Batch(cs), needs, verify);
      RunOk(cs, moves, needs, verify);
      MeasureNatural(Run(cs, moves, needs, verify).value, Batch(cs), needs, verify);
    }
  }

  // ---------- running a schedule ----------

  /** The schedule is one the goroutines can follow, to the end. */
  predicate Completes<C>(cs: seq<C>, moves: seq<Move>, needs: NeedsWork<C>, verify: C -> C) {
    Run(cs, moves, needs, verify).Some? && Run(cs, moves, needs, verify).value.main.Returned?
  }

  lemma {:induction false} RunPrefix<C>(cs: seq<C>, moves: seq<Move>, i: nat, needs: NeedsWork<C>, verify: C -> C)
    requires i <= |moves| && Run(cs, moves, needs, verify).Some?
    ensures Run(cs, moves[..i], needs, verify).Some?
  {
    if i < |moves| {
      RunPrefix(cs, moves[..|moves| - 1], i, needs, verify);
      assert moves[..|moves| - 1][..i] == moves[..i];
    } else {
      assert moves[..i] == moves;
    }
  }

  /** The goroutines under a scheduler; which schedule it is makes no difference. */
  method Execute<C>(cs: seq<C>, schedule: seq<Move>, needs: NeedsWork<C>, verify: C -> C) returns (r: seq<C>)
    requires Completes(cs, schedule, needs, verify)
    ensures r == Sequential(cs, needs, verify)
  {
    var s := Start(cs);
    for i := 0 to |schedule|
      invariant Run(cs, schedule[..i], needs, verify) == Some(s)
    {
      RunPrefix(cs, schedule, i + 1, needs, verify);
      assert schedule[..i + 1][..i] == schedule[..i];
      s := Step(s, schedule[i], needs, verify).value;
    }
    assert schedule[..|schedule|] == schedule;
    ReturnsSequential(cs, schedule, needs, verify);
    r := s.candidates;
  }

  /** Any schedule so far can be followed to the end. */
  lemma {:induction false} CanComplete<C>(cs: seq<C>, moves: seq<Move>, needs: NeedsWork<C>, verify: C -> C)
    returns (all: seq<Move>)
    requires Run(cs, moves, needs, verify).Some?
    ensures moves <= all && Completes(cs, all, needs, verify)
    decreases Measure(Run(cs, moves, needs, verify).value)
  {
    RunsAreBounded(cs, moves, needs, verify);
    if Run(cs, moves, needs, verify).value.main.Returned? {
      all := moves;
    } else {
      var move := NeverStuck(cs, moves, needs, verify);
      var s := Run(cs, moves, needs, verify).value;
      assert (moves + [move])[..|moves|] == moves;
      RunOk(cs, moves, needs, verify);
      StepDecreases(s, move, Batch(cs), needs, verify);
      RunsAreBounded(cs, moves + [move], needs, verify);
      all := CanComplete(cs, moves + [move], needs, verify);
    }
  }
}
