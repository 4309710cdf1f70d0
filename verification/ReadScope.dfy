/**
 * Bounded read scopes over the bounded connection pool
 * (src/backend/core/read_context.py, src/backend/core/db_pool.py).  A run
 * interleaves any number of scopes, their worker threads, cancellations at any
 * await, and other users of the pool.  One event loop per process, so one
 * semaphore.
 */
module ReadScope {
  import opened Prelude

  const READ_SLOTS := 4

  const DB_POOL_MAX_SIZE := 5

  /**
   * Where a `read_scope` call is.  `cancelled` records a cancellation that
   * `_worker` keeps back until its thread is done.
   */
  datatype Phase =
    | Waiting
    | Admitted
    | Entering(cancelled: bool)
    | Connected(cancelled: bool)
    | CleaningUp
    | Beginning(cancelled: bool)
    | Open
    | Finishing(cancelled: bool)
    | Closing(cancelled: bool)
    | Leaving(cancelled: bool)
    | Done

  /** `lease` is the holder of the frame's lock; `closed` its flag. */
  datatype Scope = Scope(phase: Phase, closed: bool, lease: Option<nat>)

  datatype State = State(slots: int, pool: int, others: nat, scopes: map<nat, Scope>)

  datatype Step =
    | Start(scope: nat)
    | Admit(scope: nat)
    | StopWaiting(scope: nat)
    | AdmissionExpired(scope: nat)
    | StartEnter(scope: nat)
    | GetConnection(scope: nat)
    | EnterFails(scope: nat)
    | Cancel(scope: nat)
    | Resume(scope: nat)
    | CleanupPutsBack(scope: nat)
    | BeginDone(scope: nat, ok: bool)
    | Borrow(scope: nat, lease: nat)
    | GiveBack(scope: nat)
    | ExitBody(scope: nat)
    | CloseFrame(scope: nat)
    | PutConnection(scope: nat)
    | ReleaseSlot(scope: nat)
    | OtherGets
    | OtherPuts

  // ------------------------------------------------------------------ what each step does

  /** A cancellation ends the wait for a slot and the body at once; while a worker runs it is kept back. */
  function Asked(phase: Phase): Phase {
    match phase
    case Waiting => Done
    case Entering(_) => Entering(true)
    case Connected(_) => Connected(true)
    case Beginning(_) => Beginning(true)
    case Open => Finishing(false)
    case Finishing(_) => Finishing(true)
    case Closing(_) => Closing(true)
    case Leaving(_) => Leaving(true)
    case other => other
  }

  function To(c: Scope, possible: bool, phase: Phase): Option<Scope> {
    if possible then Some(c.(phase := phase)) else None
  }

  /** What the step makes of its scope, if it is possible there. */
  function Local(c: Scope, step: Step): Option<Scope> {
    match step
    case Admit(_) => To(c, c.phase.Waiting?, Admitted)
    case StopWaiting(_) => To(c, c.phase.Waiting?, Done)
    case AdmissionExpired(_) => To(c, c.phase.Admitted?, Leaving(false))
    case StartEnter(_) => To(c, c.phase.Admitted?, Entering(false))
    case GetConnection(_) => if c.phase.Entering? then Some(c.(phase := Connected(c.phase.cancelled))) else None
    case EnterFails(_) => To(c, c.phase.Entering?, Leaving(false))
    case Cancel(_) => Some(c.(phase := Asked(c.phase)))
    case Resume(_) => if c.phase.Connected? then Some(c.(phase := if c.phase.cancelled then CleaningUp else Beginning(false))) else None
    case CleanupPutsBack(_) => To(c, c.phase.CleaningUp?, Leaving(false))
    case BeginDone(_, ok) => if c.phase.Beginning? then Some(c.(phase := if ok && !c.phase.cancelled then Open else Finishing(false))) else None
    case Borrow(_, l) => if (c.phase.Open? || c.phase.Finishing?) && !c.closed && c.lease.None? then Some(c.(lease := Some(l))) else None
    case GiveBack(_) => if c.lease.Some? then Some(c.(lease := None)) else None
    case ExitBody(_) => To(c, c.phase.Open?, Finishing(false))
    case CloseFrame(_) => if c.phase.Finishing? && c.lease.None? then Some(Scope(Closing(c.phase.cancelled), true, None)) else None
    case PutConnection(_) => if c.phase.Closing? then Some(c.(phase := Leaving(c.phase.cancelled))) else None
    case ReleaseSlot(_) => To(c, c.phase.Leaving?, Done)
    case _ => None
  }

  /** A frame is lent exactly while it is open or finishing, not closed and not lent; the lease goes to that borrower until it is given back. */
  lemma LendingAFrame(c: Scope, t: nat, lease: nat)
    ensures Local(c, Borrow(t, lease)).Some? <==> (c.phase.Open? || c.phase.Finishing?) && !c.closed && c.lease.None?
    ensures Local(c, Borrow(t, lease)).Some? ==> Local(c, Borrow(t, lease)).value == Scope(c.phase, c.closed, Some(lease))
    ensures Local(c, GiveBack(t)).Some? <==> c.lease.Some?
    ensures c.lease.Some? ==> Local(c, GiveBack(t)).value == Scope(c.phase, c.closed, None)
  {
  }

  /** A cancellation came and is to be raised once the worker is done. */
  predicate Pending(phase: Phase) {
    match phase
    case Entering(cancelled) => cancelled
    case Connected(cancelled) => cancelled
    case Beginning(cancelled) => cancelled
    case Finishing(cancelled) => cancelled
    case Closing(cancelled) => cancelled
    case Leaving(cancelled) => cancelled
    case _ => false
  }

  /** A cancellation is raised at once in the wait for a slot and in the body; everywhere else it is kept back, and nothing else makes one. */
  lemma CancellationIsKept(c: Scope, step: Step, c': Scope)
    requires Local(c, step) == Some(c')
    ensures step.Cancel? && c.phase.Waiting? ==> c'.phase == Done
    ensures step.Cancel? && c.phase.Open? ==> c'.phase.Finishing? && !Pending(c'.phase)
    ensures step.Cancel? && (c.phase.Entering? || c.phase.Connected? || c.phase.Beginning? || c.phase.Finishing? || c.phase.Closing? || c.phase.Leaving?) ==>
              Pending(c'.phase)
    ensures Pending(c'.phase) ==> step.Cancel? || Pending(c.phase)
    ensures Pending(c.phase) && !Pending(c'.phase) ==>
              step.EnterFails? || (step.Resume? && c'.phase == CleaningUp) || (step.BeginDone? && c'.phase.Finishing?) || c'.phase == Done
  {
  }

  /** The transaction begins only on a connection without a pending cancellation, and the body only after a successful begin without one. */
  lemma BodyStartsUncancelled(c: Scope, step: Step, c': Scope)
    requires Local(c, step) == Some(c')
    ensures c'.phase.Beginning? && !c.phase.Beginning? ==> step.Resume? && c.phase == Connected(false)
    ensures c'.phase.Open? && !c.phase.Open? ==> step == BeginDone(step.scope, true) && c.phase == Beginning(false)
    ensures step.Resume? && c.phase == Connected(false) ==> c'.phase == Beginning(false)
    ensures step.BeginDone? && step.ok && c.phase == Beginning(false) ==> c'.phase == Open
  {
  }

  /** Slots a step takes, or gives back. */
  function Slots(step: Step): int {
    if step.Admit? then 1 else if step.ReleaseSlot? then -1 else 0
  }

  function Connections(step: Step): int {
    if step.GetConnection? || step.OtherGets? then 1
    else if step.PutConnection? || step.CleanupPutsBack? || step.OtherPuts? then -1
    else 0
  }

  const NEW_SCOPE := Scope(Waiting, false, None)

  /** No step takes a slot or a connection that is not there. */
  function Next(s: State, step: Step): Option<State> {
    if s.slots < Slots(step) || s.pool < Connections(step) then None
    else if step.OtherGets? then Some(s.(pool := s.pool - 1, others := s.others + 1))
    else if step.OtherPuts? then (if s.others > 0 then Some(s.(pool := s.pool + 1, others := s.others - 1)) else None)
    else if step.Start? then (if step.scope in s.scopes then None else Some(s.(scopes := s.scopes[step.scope := NEW_SCOPE])))
    else if step.scope !in s.scopes || Local(s.scopes[step.scope], step).None? then None
    else Some(State(s.slots - Slots(step), s.pool - Connections(step), s.others, s.scopes[step.scope := Local(s.scopes[step.scope], step).value]))
  }

  /** A call starts under a new name, waiting for its slot. */
  lemma CallsStartWaiting(s: State, t: nat)
    requires s.slots >= 0 && s.pool >= 0
    ensures Next(s, Start(t)).Some? <==> t !in s.scopes
    ensures t !in s.scopes ==> Next(s, Start(t)).value == s.(scopes := s.scopes + map[t := Scope(Waiting, false, None)])
    ensures Next(s, OtherPuts).Some? <==> s.others > 0
  {
  }

  const START := State(READ_SLOTS, DB_POOL_MAX_SIZE, 0, map[])

  ghost predicate Run(states: seq<State>, steps: seq<Step>) {
    && |states| == |steps| + 1 && states[0] == START
    && forall i :: 0 <= i < |steps| ==> Next(states[i], steps[i]) == Some(states[i + 1])
  }

  // ------------------------------------------------------------------ what a scope holds

  predicate UsesSlot(c: Scope) {
    !c.phase.Waiting? && !c.phase.Done?
  }

  predicate UsesConnection(c: Scope) {
    match c.phase
    case Connected(_) => true
    case CleaningUp => true
    case Beginning(_) => true
    case Open => true
    case Finishing(_) => true
    case Closing(_) => true
    case _ => false
  }

  predicate HoldsSlot(s: State, t: nat) {
    t in s.scopes && UsesSlot(s.scopes[t])
  }

  predicate HoldsConnection(s: State, t: nat) {
    t in s.scopes && UsesConnection(s.scopes[t])
  }

  function SlotHolders(s: State): set<nat> {
    set t | t in s.scopes && HoldsSlot(s, t)
  }

  function ConnectionHolders(s: State): set<nat> {
    set t | t in s.scopes && HoldsConnection(s, t)
  }

  /** `ReadConnection.check` passes: the lease is active and its frame not closed. */
  predicate Usable(s: State, t: nat, lease: nat) {
    t in s.scopes && s.scopes[t].lease == Some(lease) && !s.scopes[t].closed
  }

  predicate FrameOk(c: Scope) {
    && (c.lease.Some? ==> (c.phase.Open? || c.phase.Finishing?) && !c.closed)
    && (c.closed ==> c.phase.Closing? || c.phase.Leaving? || c.phase.Done?)
  }

  ghost predicate Inv(s: State) {
    && s.slots >= 0 && s.pool >= 0
    && s.slots + |SlotHolders(s)| == READ_SLOTS
    && s.pool + s.others + |ConnectionHolders(s)| == DB_POOL_MAX_SIZE
    && (forall t :: t in s.scopes ==> FrameOk(s.scopes[t]))
  }

  function Change(before: bool, after: bool): int {
    (if after then 1 else 0) - (if before then 1 else 0)
  }

  /** A step takes a slot or a connection exactly when its scope comes to hold one, and gives it back when it stops. */
  lemma LocalBalance(c: Scope, step: Step)
    requires Local(c, step).Some?
    ensures Slots(step) == Change(UsesSlot(c), UsesSlot(Local(c, step).value))
    ensures Connections(step) == Change(UsesConnection(c), UsesConnection(Local(c, step).value))
    ensures FrameOk(c) ==> FrameOk(Local(c, step).value)
    ensures c.closed ==> Local(c, step).value.closed
  {
  }

  ghost predicate OnlyChanges(s: State, s': State, t: nat) {
    forall u :: u != t ==> (u in s'.scopes <==> u in s.scopes) && (u in s.scopes ==> s'.scopes[u] == s.scopes[u])
  }

  /** The step concerns one scope. */
  predicate OfScope(step: Step, t: nat) {
    !step.OtherGets? && !step.OtherPuts? && step.scope == t
  }

  lemma CountersFollow(s: State, step: Step, s': State, t: nat)
    requires Next(s, step) == Some(s') && OfScope(step, t)
    ensures s'.slots == s.slots - Change(HoldsSlot(s, t), HoldsSlot(s', t))
    ensures s'.pool == s.pool - Change(HoldsConnection(s, t), HoldsConnection(s', t)) && s'.others == s.others
    ensures OnlyChanges(s, s', t)
  {
    if !step.Start? {
      LocalBalance(s.scopes[t], step);
    }
  }

  lemma SlotHoldersFollow(s: State, s': State, t: nat)
    requires OnlyChanges(s, s', t)
    ensures |SlotHolders(s')| == |SlotHolders(s)| + Change(HoldsSlot(s, t), HoldsSlot(s', t))
  {
    forall u | u != t ensures HoldsSlot(s', u) == HoldsSlot(s, u) {
    }
    SameExcept(SlotHolders(s), SlotHolders(s'), t);
  }

  lemma ConnectionHoldersFollow(s: State, s': State, t: nat)
    requires OnlyChanges(s, s', t)
    ensures |ConnectionHolders(s')| == |ConnectionHolders(s)| + Change(HoldsConnection(s, t), HoldsConnection(s', t))
  {
    forall u | u != t ensures HoldsConnection(s', u) == HoldsConnection(s, u) {
    }
    SameExcept(ConnectionHolders(s), ConnectionHolders(s'), t);
  }

  lemma SameExcept(a: set<nat>, b: set<nat>, t: nat)
    requires forall u :: u != t ==> (u in a <==> u in b)
    ensures |b| == |a| + Change(t in a, t in b)
  {
    assert b - {t} == a - {t};
    OneElement(a, t);
    OneElement(b, t);
  }

  lemma OneElement(a: set<nat>, t: nat)
    ensures |a| == |a - {t}| + if t in a then 1 else 0
  {
    if t !in a { assert a - {t} == a; }
  }

  lemma StepKeepsFrames(s: State, step: Step, s': State)
    requires (forall t :: t in s.scopes ==> FrameOk(s.scopes[t])) && Next(s, step) == Some(s')
    ensures forall t :: t in s'.scopes ==> FrameOk(s'.scopes[t])
  {
    if !step.OtherGets? && !step.OtherPuts? && !step.Start? {
      LocalBalance(s.scopes[step.scope], step);
    }
  }

  lemma StepKeepsInv(s: State, step: Step, s': State)
    requires Inv(s) && Next(s, step) == Some(s')
    ensures Inv(s')
  {
    StepKeepsFrames(s, step, s');
    if step.OtherGets? || step.OtherPuts? {
      assert SlotHolders(s') == SlotHolders(s) && ConnectionHolders(s') == ConnectionHolders(s);
    } else {
      CountersFollow(s, step, s', step.scope);
      SlotHoldersFollow(s, s', step.scope);
      ConnectionHoldersFollow(s, s', step.scope);
    }
    CountersStayNatural(s, step, s');
  }

  lemma CountersStayNatural(s: State, step: Step, s': State)
    requires Next(s, step) == Some(s') && s.slots >= 0 && s.pool >= 0
    ensures s'.slots >= 0 && s'.pool >= 0
  {
  }

  lemma {:induction false} RunsKeepInv(states: seq<State>, steps: seq<Step>, i: nat)
    requires Run(states, steps) && i <= |steps|
    ensures Inv(states[i])
  {
    if i == 0 {
      assert SlotHolders(START) == {} && ConnectionHolders(START) == {};
    } else {
      RunsKeepInv(states, steps, i - 1);
      StepKeepsInv(states[i - 1], steps[i - 1], states[i]);
    }
  }

  // ------------------------------------------------------------------ what holds of every run

  /** Read scopes never hold more than four of the five pooled connections, and each holder has a slot. */
  lemma ReadsLeaveAConnection(states: seq<State>, steps: seq<Step>, i: nat)
    requires Run(states, steps) && i <= |steps|
    ensures ConnectionHolders(states[i]) <= SlotHolders(states[i])
    ensures |ConnectionHolders(states[i])| <= |SlotHolders(states[i])| <= READ_SLOTS
    ensures states[i].pool + states[i].others >= DB_POOL_MAX_SIZE - READ_SLOTS
  {
    RunsKeepInv(states, steps, i);
    SubsetCardinality(ConnectionHolders(states[i]), SlotHolders(states[i]));
  }

  /** A usable lease belongs to a scope that still has its connection, and it is the only one of its scope. */
  lemma UsableLeaseHasItsConnection(states: seq<State>, steps: seq<Step>, i: nat, t: nat, lease: nat)
    requires Run(states, steps) && i <= |steps| && Usable(states[i], t, lease)
    ensures HoldsConnection(states[i], t)
    ensures states[i].scopes[t].phase.Open? || states[i].scopes[t].phase.Finishing?
    ensures forall other :: Usable(states[i], t, other) ==> other == lease
  {
    RunsKeepInv(states, steps, i);
  }

  lemma ClosedStep(s: State, step: Step, s': State, t: nat)
    requires Next(s, step) == Some(s') && t in s.scopes && s.scopes[t].closed
    ensures t in s'.scopes && s'.scopes[t].closed
  {
    if OfScope(step, t) && !step.Start? {
      LocalBalance(s.scopes[t], step);
    }
  }

  /** After a frame was closed no lease of it, old or new, is ever usable. */
  lemma {:induction false} ClosedForGood(states: seq<State>, steps: seq<Step>, i: nat, j: nat, t: nat, lease: nat)
    requires Run(states, steps) && i <= j <= |steps| && t in states[i].scopes && states[i].scopes[t].closed
    ensures t in states[j].scopes && states[j].scopes[t].closed && !Usable(states[j], t, lease)
    decreases j
  {
    if i < j {
      ClosedForGood(states, steps, i, j - 1, t, lease);
      ClosedStep(states[j - 1], steps[j - 1], states[j], t);
    }
  }

  /** Slots taken (positive) and released (negative) by the scope in one step. */
  function SlotEvent(step: Step, t: nat): int {
    if OfScope(step, t) then Slots(step) else 0
  }

  function ConnectionEvent(step: Step, t: nat): int {
    if OfScope(step, t) then Connections(step) else 0
  }

  function Total(steps: seq<Step>, event: Step -> int): int {
    if steps == [] then 0 else Total(steps[..|steps| - 1], event) + event(steps[|steps| - 1])
  }

  lemma EventsChangeHoldings(s: State, step: Step, s': State, t: nat)
    requires Next(s, step) == Some(s')
    ensures SlotEvent(step, t) == Change(HoldsSlot(s, t), HoldsSlot(s', t))
    ensures ConnectionEvent(step, t) == Change(HoldsConnection(s, t), HoldsConnection(s', t))
  {
    if OfScope(step, t) && !step.Start? {
      LocalBalance(s.scopes[t], step);
    }
  }

  /** Slots taken less slots released is one while the scope holds its slot and zero otherwise; so with connections. */
  lemma {:induction false} TakenLessReturned(states: seq<State>, steps: seq<Step>, i: nat, t: nat)
    requires Run(states, steps) && i <= |steps|
    ensures Total(steps[..i], step => SlotEvent(step, t)) == if HoldsSlot(states[i], t) then 1 else 0
    ensures Total(steps[..i], step => ConnectionEvent(step, t)) == if HoldsConnection(states[i], t) then 1 else 0
  {
    if i > 0 {
      TakenLessReturned(states, steps, i - 1, t);
      EventsChangeHoldings(states[i - 1], steps[i - 1], states[i], t);
      assert steps[..i][..i - 1] == steps[..i - 1] && steps[..i][i - 1] == steps[i - 1];
    }
  }

  function Rank(phase: Phase): nat {
    match phase
    case Waiting => 10
    case Admitted => 9
    case Entering(_) => 8
    case Connected(_) => 7
    case CleaningUp => 6
    case Beginning(_) => 5
    case Open => 4
    case Finishing(_) => 3
    case Closing(_) => 2
    case Leaving(_) => 1
    case Done => 0
  }

  predicate MovesOn(step: Step) {
    Slots(step) != 0 || Connections(step) != 0
  }

  lemma RankFalls(c: Scope, step: Step)
    requires Local(c, step).Some?
    ensures Rank(Local(c, step).value.phase) <= Rank(c.phase)
    ensures MovesOn(step) ==> Rank(Local(c, step).value.phase) < Rank(c.phase)
  {
  }

  lemma RankStep(s: State, step: Step, s': State, t: nat)
    requires Next(s, step) == Some(s') && t in s.scopes
    ensures t in s'.scopes && Rank(s'.scopes[t].phase) <= Rank(s.scopes[t].phase)
    ensures OfScope(step, t) && MovesOn(step) ==> Rank(s'.scopes[t].phase) < Rank(s.scopes[t].phase)
  {
    if OfScope(step, t) && !step.Start? {
      RankFalls(s.scopes[t], step);
    }
  }

  lemma {:induction false} RanksFall(states: seq<State>, steps: seq<Step>, i: nat, j: nat, t: nat)
    requires Run(states, steps) && i <= j <= |steps| && t in states[i].scopes
    ensures t in states[j].scopes && Rank(states[j].scopes[t].phase) <= Rank(states[i].scopes[t].phase)
    decreases j
  {
    if i < j {
      RanksFall(states, steps, i, j - 1, t);
      RankStep(states[j - 1], steps[j - 1], states[j], t);
    }
  }

  lemma ReleaseStep(s: State, s': State, t: nat)
    requires Next(s, ReleaseSlot(t)) == Some(s')
    ensures HoldsSlot(s, t) && !HoldsConnection(s, t) && t in s'.scopes && s'.scopes[t].phase == Done
  {
  }

  /** No slot is released, and no connection put back, twice; a slot is released only after the connection is back. */
  lemma ReleasedOnce(states: seq<State>, steps: seq<Step>, i: nat, t: nat)
    requires Run(states, steps) && i < |steps| && steps[i] == ReleaseSlot(t)
    ensures HoldsSlot(states[i], t) && !HoldsConnection(states[i], t) && states[i + 1].scopes[t].phase == Done
    ensures forall j :: 0 <= j < |steps| && j != i ==> steps[j] != ReleaseSlot(t)
    ensures forall j :: i < j < |steps| ==> steps[j] != PutConnection(t) && steps[j] != CleanupPutsBack(t) && steps[j] != GetConnection(t)
  {
    ReleaseStep(states[i], states[i + 1], t);
    forall j | 0 <= j < |steps| && j != i ensures steps[j] != ReleaseSlot(t) {
      if steps[j] == ReleaseSlot(t) {
        ReleaseStep(states[j], states[j + 1], t);
        RanksFall(states, steps, if i < j then i + 1 else j + 1, if i < j then j else i, t);
      }
    }
    forall j | i < j < |steps| ensures steps[j] != PutConnection(t) && steps[j] != CleanupPutsBack(t) && steps[j] != GetConnection(t) {
      RanksFall(states, steps, i + 1, j, t);
      RankStep(states[j], steps[j], states[j + 1], t);
    }
  }

  /** When all scopes are done, all slots are free and the pool lacks only what others hold. */
  lemma NothingLeaks(states: seq<State>, steps: seq<Step>, i: nat)
    requires Run(states, steps) && i <= |steps| && forall t :: t in states[i].scopes ==> states[i].scopes[t].phase == Done
    ensures states[i].slots == READ_SLOTS && states[i].pool + states[i].others == DB_POOL_MAX_SIZE
  {
    RunsKeepInv(states, steps, i);
    assert SlotHolders(states[i]) == {} && ConnectionHolders(states[i]) == {};
  }

  // ------------------------------------------------------------------ no scope is ever stuck

  /** The step that takes the scope out, whatever the pool and the other scopes do. */
  function WayOut(c: Scope, t: nat): Step {
    match c.phase
    case Waiting => StopWaiting(t)
    case Admitted => AdmissionExpired(t)
    case Entering(_) => EnterFails(t)
    case Connected(_) => Resume(t)
    case CleaningUp => CleanupPutsBack(t)
    case Beginning(_) => BeginDone(t, false)
    case Open => ExitBody(t)
    case Finishing(_) => if c.lease.Some? then GiveBack(t) else CloseFrame(t)
    case Closing(_) => PutConnection(t)
    case Leaving(_) => ReleaseSlot(t)
    case Done => Cancel(t)
  }

  /** Every scope that is not done can always take a step towards its end, without a free slot or connection. */
  lemma NeverStuck(s: State, t: nat)
    requires Inv(s) && t in s.scopes && s.scopes[t].phase != Done
    ensures var c := s.scopes[t];
            var next := Next(s, WayOut(c, t));
            && next.Some? && t in next.value.scopes
            && (Rank(next.value.scopes[t].phase) < Rank(c.phase) || (c.lease.Some? && next.value.scopes[t].phase == c.phase && next.value.scopes[t].lease.None?))
  {
  }
}
