/**
 * The code of one `read_scope` call over the semaphore and the pool, while
 * other calls, worker threads, pool users and cancellations go on between its
 * own steps; the wait for a worker thread; and the frame's lease and statement
 * limit (src/backend/core/read_context.py, src/backend/core/db_pool.py).
 */
module ReadScopeRuntime {
  import opened Prelude
  import opened ReadScope

  datatype Checkout = Connects | PoolTimesOut | CheckoutFails

  datatype Work = Succeeds | Expires | Fails

  /** What decides about one call besides the state: the time left and the results of the work. */
  datatype Fate = Fate(admitted: bool, left: int, checkout: Checkout, begin: Work, body: Work, finishFails: bool)

  datatype Outcome = Completed | CapacityExceeded | CancelledError | Failed

  /** Steps that are not the call's own: those of others, and what its environment does to it. */
  predicate Foreign(step: Step, t: nat) {
    step.OtherGets? || step.OtherPuts? || step.scope != t || step.Cancel? || step.Borrow? || step.GiveBack?
  }

  /** What happens during each await of the call. */
  type Awaits = seq<seq<Step>>

  function During(awaits: Awaits, k: nat): seq<Step> {
    if k < |awaits| then awaits[k] else []
  }

  // ------------------------------------------------------------------ paths through the machine

  /** The steps lead from one state to the other. */
  ghost predicate Path(s: State, trace: seq<Step>, s': State)
    decreases |trace|
  {
    if trace == [] then s' == s
    else Next(s, trace[0]).Some? && Path(Next(s, trace[0]).value, trace[1..], s')
  }

  lemma {:induction false} PathThen(s: State, trace: seq<Step>, middle: State, step: Step, s': State)
    requires Path(s, trace, middle) && Next(middle, step) == Some(s')
    ensures Path(s, trace + [step], s')
    decreases |trace|
  {
    if trace == [] {
      assert ([step])[1..] == [];
    } else {
      assert (trace + [step])[1..] == trace[1..] + [step];
      PathThen(Next(s, trace[0]).value, trace[1..], middle, step, s');
    }
  }

  /** Along a path a scope's slots and connections taken less given back are the change of what it holds. */
  lemma {:induction false} PathBalance(s: State, trace: seq<Step>, s': State, t: nat)
    requires Path(s, trace, s')
    ensures Total(trace, step => SlotEvent(step, t)) == Change(HoldsSlot(s, t), HoldsSlot(s', t))
    ensures Total(trace, step => ConnectionEvent(step, t)) == Change(HoldsConnection(s, t), HoldsConnection(s', t))
    decreases |trace|
  {
    if trace != [] {
      var next := Next(s, trace[0]).value;
      PathBalance(next, trace[1..], s', t);
      EventsChangeHoldings(s, trace[0], next, t);
      TotalFirst(trace, step => SlotEvent(step, t));
      TotalFirst(trace, step => ConnectionEvent(step, t));
    }
  }

  lemma {:induction false} TotalFirst(steps: seq<Step>, event: Step -> int)
    requires steps != []
    ensures Total(steps, event) == event(steps[0]) + Total(steps[1..], event)
  {
    if |steps| > 1 {
      TotalFirst(steps[..|steps| - 1], event);
      assert steps[1..][..|steps| - 2] == steps[..|steps| - 1][1..];
    }
  }

  // ------------------------------------------------------------------ what others do to a scope

  /** Others only cancel the call and borrow or give back its frame. */
  predicate Drifted(before: Scope, after: Scope) {
    && (after.phase == before.phase || after.phase == Asked(before.phase) || after.phase == Asked(Asked(before.phase)))
    && after.closed == before.closed
    && (before.lease.None? && !before.phase.Open? && !before.phase.Finishing? ==> after.lease.None?)
  }

  /** The phase tells whether the call was cancelled in the meantime, where that matters. */
  predicate Marked(before: Scope, after: Scope, cancelled: bool) {
    && (!cancelled ==> after.phase == before.phase)
    && (cancelled && Asked(before.phase) != before.phase ==> after.phase != before.phase)
  }

  lemma DriftsOn(a: Scope, b: Scope, step: Step, cancelled: bool)
    requires Drifted(a, b) && Marked(a, b, cancelled) && Local(b, step).Some? && (step.Cancel? || step.Borrow? || step.GiveBack?)
    ensures Drifted(a, Local(b, step).value) && Marked(a, Local(b, step).value, cancelled || step.Cancel?)
  {
  }

  // ------------------------------------------------------------------ the call

  /** Which of the decisive steps of a call have happened; `late` is a cancellation after the begin had ended. */
  datatype Seen = Seen(cancelled: bool, admitted: bool, connected: bool, begun: bool, late: bool, bodyLeft: bool)

  const NOTHING := Seen(false, false, false, false, false, false)

  ghost function SeenIn(t: nat, trace: seq<Step>): Seen {
    if trace == [] then NOTHING
    else
      var last := |trace| - 1;
      if OfScope(trace[last], t) then After(SeenIn(t, trace[..last]), trace[last]) else SeenIn(t, trace[..last])
  }

  function After(seen: Seen, step: Step): Seen {
    match step
    case Cancel(_) => seen.(cancelled := true, late := seen.late || seen.begun)
    case Admit(_) => seen.(admitted := true)
    case GetConnection(_) => seen.(connected := true)
    case BeginDone(_, _) => seen.(begun := true)
    case ExitBody(_) => seen.(bodyLeft := true)
    case _ => seen
  }

  function AlsoCancelled(seen: Seen, cancelled: bool): Seen {
    if cancelled then seen.(cancelled := true, late := seen.late || seen.begun) else seen
  }

  lemma {:induction false} SeenAfter(t: nat, trace: seq<Step>, step: Step)
    ensures SeenIn(t, trace + [step]) == if OfScope(step, t) then After(SeenIn(t, trace), step) else SeenIn(t, trace)
  {
    assert (trace + [step])[..|trace|] == trace;
  }

  ghost predicate LateAt(t: nat, trace: seq<Step>, i: int, j: int) {
    0 <= i < j < |trace| && trace[i].BeginDone? && trace[i].scope == t && trace[j] == Cancel(t)
  }

  ghost predicate LateIn(t: nat, trace: seq<Step>) {
    exists i, j :: LateAt(t, trace, i, j)
  }

  /** What the recorded facts mean for a trace. */
  ghost predicate Recounts(seen: Seen, t: nat, trace: seq<Step>) {
    && (seen.cancelled <==> Cancel(t) in trace) && (seen.admitted <==> Admit(t) in trace)
    && (seen.connected <==> GetConnection(t) in trace) && (seen.bodyLeft <==> ExitBody(t) in trace)
    && (seen.begun <==> BeginDone(t, true) in trace || BeginDone(t, false) in trace)
    && (seen.late <==> LateIn(t, trace))
  }

  lemma RecountsOneMore(seen: Seen, t: nat, rest: seq<Step>, last: Step)
    requires Recounts(seen, t, rest)
    ensures Recounts(if OfScope(last, t) then After(seen, last) else seen, t, rest + [last])
  {
    LateOneMore(t, rest, last);
  }

  /** The decisive steps are those of the trace, and a cancellation is late when it comes after the end of the begin. */
  lemma {:induction false} SeenMeans(t: nat, trace: seq<Step>)
    ensures Recounts(SeenIn(t, trace), t, trace)
  {
    if trace != [] {
      var rest, last := trace[..|trace| - 1], trace[|trace| - 1];
      SeenMeans(t, rest);
      assert trace == rest + [last];
      RecountsOneMore(SeenIn(t, rest), t, rest, last);
    }
  }

  lemma LateOneMore(t: nat, rest: seq<Step>, last: Step)
    ensures LateIn(t, rest + [last]) <==> LateIn(t, rest) || (last == Cancel(t) && (BeginDone(t, true) in rest || BeginDone(t, false) in rest))
  {
    var trace := rest + [last];
    if i, j :| LateAt(t, rest, i, j) {
      assert LateAt(t, trace, i, j);
    }
    if i, j :| LateAt(t, trace, i, j) {
      assert trace[i] == rest[i] && trace[i] == BeginDone(t, trace[i].ok);
      if j < |rest| {
        assert LateAt(t, rest, i, j);
      }
    }
    if last == Cancel(t) && (BeginDone(t, true) in rest || BeginDone(t, false) in rest) {
      var i :| 0 <= i < |rest| && rest[i].BeginDone? && rest[i].scope == t;
      assert LateAt(t, trace, i, |rest|);
    }
  }

  /**
   * How a call ends, by its fate and its decisive steps.  A cancellation
   * counts while it waits, while the checkout succeeds, and from a successful
   * begin on; it is lost only to a failure of the checkout, of the begin or of
   * the finish that it meets.
   */
  function OutcomeFor(f: Fate, seen: Seen): Outcome {
    if !seen.admitted then (if seen.cancelled then CancelledError else CapacityExceeded)
    else if f.left <= 0 then CapacityExceeded
    else if !seen.connected then (if f.checkout.CheckoutFails? then Failed else CapacityExceeded)
    else if !seen.begun then CancelledError
    else if f.finishFails then Failed
    else if seen.late then CancelledError
    else if !f.begin.Succeeds? then OutcomeOf(f.begin)
    else if seen.cancelled then CancelledError
    else OutcomeOf(f.body)
  }

  /** The end is that of the steps, and a call completes only after its body was left. */
  ghost predicate Told(f: Fate, outcome: Outcome, seen: Seen) {
    outcome == OutcomeFor(f, seen) && (outcome == Completed ==> seen.bodyLeft)
  }

  /** What is known when the transaction is over and its end begins. */
  ghost predicate Left(f: Fate, failure: Outcome, seen: Seen, pending: bool) {
    && f.left > 0 && seen.admitted && seen.connected && seen.begun && Told(f.(finishFails := false), failure, seen)
    && (pending ==> seen.late)
  }

  function OutcomeOf(w: Work): Outcome {
    match w
    case Succeeds => Completed
    case Expires => CapacityExceeded
    case Fails => Failed
  }

  class Runtime {
    var slots: int
    var pool: int
    var others: nat
    var scopes: map<nat, Scope>
    ghost var origin: State
    ghost var trace: seq<Step>

    function Snapshot(): State
      reads this`slots, this`pool, this`others, this`scopes
    {
      State(slots, pool, others, scopes)
    }

    ghost predicate Valid()
      reads this
    {
      slots >= 0 && pool >= 0 && Path(origin, trace, Snapshot())
    }

    constructor ()
      ensures Valid() && Snapshot() == START
    {
      slots, pool, others, scopes := READ_SLOTS, DB_POOL_MAX_SIZE, 0, map[];
      origin, trace := START, [];
    }

    /** One step of anybody, as the machine has it. */
    method Take(step: Step)
      requires Valid() && Next(Snapshot(), step).Some?
      modifies this
      ensures Valid() && origin == old(origin) && trace == old(trace) + [step]
      ensures Snapshot() == Next(old(Snapshot()), step).value
    {
      ghost var before := Snapshot();
      var next := Next(Snapshot(), step).value;
      slots, pool, others, scopes := next.slots, next.pool, next.others, next.scopes;
      PathThen(origin, trace, before, step, next);
      trace := trace + [step];
    }

    /** One step of the call itself. */
    method Own(t: nat, step: Step)
      requires Valid() && t in scopes && OfScope(step, t) && !step.Start? && Local(scopes[t], step).Some?
      requires slots >= Slots(step) && pool >= Connections(step)
      modifies this
      ensures Valid() && origin == old(origin) && SeenIn(t, trace) == After(SeenIn(t, old(trace)), step)
      ensures t in scopes && scopes[t] == Local(old(scopes[t]), step).value
    {
      Take(step);
      SeenAfter(t, old(trace), step);
    }

    /** While the call awaits, others take those of their steps that are possible; `cancelled` says whether the call was cancelled. */
    method Await(t: nat, steps: seq<Step>) returns (ghost cancelled: bool)
      requires Valid() && t in scopes
      modifies this
      ensures Valid() && origin == old(origin)
      ensures t in scopes && Drifted(old(scopes[t]), scopes[t]) && Marked(old(scopes[t]), scopes[t], cancelled)
      ensures SeenIn(t, trace) == AlsoCancelled(SeenIn(t, old(trace)), cancelled)
    {
      cancelled := false;
      for i := 0 to |steps|
        invariant Valid() && origin == old(origin)
        invariant t in scopes && Drifted(old(scopes[t]), scopes[t]) && Marked(old(scopes[t]), scopes[t], cancelled)
        invariant SeenIn(t, trace) == AlsoCancelled(SeenIn(t, old(trace)), cancelled)
      {
        if Foreign(steps[i], t) && Next(Snapshot(), steps[i]).Some? {
          if OfScope(steps[i], t) {
            DriftsOn(old(scopes[t]), scopes[t], steps[i], cancelled);
          }
          SeenAfter(t, trace, steps[i]);
          Take(steps[i]);
          cancelled := cancelled || steps[i] == Cancel(t);
        }
      }
    }

    /**
     * The whole call with everything that goes on around it.  However it ends,
     * it is a path of the machine on which this call gave back exactly the
     * slot and the connection it took, and its end tells what happened.
     */
    method CallReadScope(t: nat, f: Fate, awaits: Awaits) returns (outcome: Outcome)
      requires Valid() && t !in scopes
      modifies this
      ensures Valid() && origin == old(Snapshot())
      ensures t in scopes && scopes[t].phase.Done?
      ensures Total(trace, step => SlotEvent(step, t)) == 0 && Total(trace, step => ConnectionEvent(step, t)) == 0
      ensures Told(f, outcome, SeenIn(t, trace))
    {
      origin, trace := Snapshot(), [];
      Take(Start(t));
      outcome := WaitForSlot(t, f, awaits);
      PathBalance(origin, trace, Snapshot(), t);
    }

    method WaitForSlot(t: nat, f: Fate, awaits: Awaits) returns (outcome: Outcome)
      requires Valid() && t in scopes && scopes[t] == NEW_SCOPE && SeenIn(t, trace) == NOTHING
      modifies this
      ensures Valid() && origin == old(origin)
      ensures t in scopes && scopes[t].phase.Done?
      ensures Told(f, outcome, SeenIn(t, trace))
    {
      ghost var cancelled := Await(t, During(awaits, 0));
      if scopes[t].phase.Done? {
        outcome := CancelledError;
      } else if !f.admitted || slots <= 0 {
        Own(t, StopWaiting(t));
        outcome := CapacityExceeded;
      } else {
        outcome := UseSlot(t, f, awaits);
      }
    }

    /** However it goes on, the slot is released last. */
    method UseSlot(t: nat, f: Fate, awaits: Awaits) returns (outcome: Outcome)
      requires Valid() && t in scopes && scopes[t] == NEW_SCOPE && slots > 0 && SeenIn(t, trace) == NOTHING
      modifies this
      ensures Valid() && origin == old(origin)
      ensures t in scopes && scopes[t].phase.Done?
      ensures Told(f, outcome, SeenIn(t, trace))
    {
      Own(t, Admit(t));
      if f.left <= 0 {
        Own(t, AdmissionExpired(t));
        outcome := CapacityExceeded;
      } else {
        outcome := CheckOut(t, f, awaits);
      }
      Own(t, ReleaseSlot(t));
    }

    /** From the checkout on; the connection is in the pool again at the end. */
    method CheckOut(t: nat, f: Fate, awaits: Awaits) returns (outcome: Outcome)
      requires Valid() && t in scopes && scopes[t] == Scope(Admitted, false, None) && SeenIn(t, trace) == NOTHING.(admitted := true) && f.left > 0
      modifies this
      ensures Valid() && origin == old(origin)
      ensures t in scopes && scopes[t].phase.Leaving?
      ensures Told(f, outcome, SeenIn(t, trace))
    {
      Own(t, StartEnter(t));
      ghost var cancelled := Await(t, During(awaits, 1));
      if f.checkout != Connects || pool <= 0 {
        Own(t, EnterFails(t));
        outcome := if f.checkout.CheckoutFails? then Failed else CapacityExceeded;
      } else {
        outcome := UseConnection(t, f, awaits);
      }
    }

    /** The worker gets the connection; a cancelled checkout only puts it back. */
    method UseConnection(t: nat, f: Fate, awaits: Awaits) returns (outcome: Outcome)
      requires Valid() && t in scopes && scopes[t] == Scope(Entering(SeenIn(t, trace).cancelled), false, None) && pool > 0
      requires SeenIn(t, trace).(cancelled := false) == NOTHING.(admitted := true) && f.left > 0
      modifies this
      ensures Valid() && origin == old(origin)
      ensures t in scopes && scopes[t].phase.Leaving?
      ensures Told(f, outcome, SeenIn(t, trace))
    {
      TakeConnection(t, awaits);
      if scopes[t].phase.CleaningUp? {
        ghost var cancelled := Await(t, During(awaits, 3));
        Own(t, CleanupPutsBack(t));
        outcome := CancelledError;
      } else {
        outcome := UseTransaction(t, f, awaits);
      }
    }

    /** The call goes on with the connection exactly when it was not cancelled until the worker was done. */
    method TakeConnection(t: nat, awaits: Awaits)
      requires Valid() && t in scopes && scopes[t] == Scope(Entering(SeenIn(t, trace).cancelled), false, None) && pool > 0
      requires SeenIn(t, trace).(cancelled := false) == NOTHING.(admitted := true)
      modifies this
      ensures Valid() && origin == old(origin)
      ensures t in scopes && scopes[t] == Scope(if SeenIn(t, trace).cancelled then CleaningUp else Beginning(false), false, None)
      ensures SeenIn(t, trace) == NOTHING.(admitted := true, connected := true, cancelled := SeenIn(t, trace).cancelled)
    {
      Own(t, GetConnection(t));
      ghost var cancelled := Await(t, During(awaits, 2));
      Own(t, Resume(t));
    }

    /** The transaction and its end. */
    method UseTransaction(t: nat, f: Fate, awaits: Awaits) returns (outcome: Outcome)
      requires Valid() && t in scopes && scopes[t] == Scope(Beginning(false), false, None)
      requires SeenIn(t, trace) == NOTHING.(admitted := true, connected := true) && f.left > 0
      modifies this
      ensures Valid() && origin == old(origin)
      ensures t in scopes && scopes[t].phase.Leaving?
      ensures Told(f, outcome, SeenIn(t, trace))
    {
      var failure := BeginAndBody(t, f, awaits);
      outcome := Finish(t, f, awaits, failure);
    }

    method BeginAndBody(t: nat, f: Fate, awaits: Awaits) returns (failure: Outcome)
      requires Valid() && t in scopes && scopes[t] == Scope(Beginning(false), false, None)
      requires SeenIn(t, trace) == NOTHING.(admitted := true, connected := true) && f.left > 0
      modifies this
      ensures Valid() && origin == old(origin)
      ensures t in scopes && scopes[t].phase.Finishing? && !scopes[t].closed
      ensures Left(f, failure, SeenIn(t, trace), scopes[t].phase.cancelled)
    {
      ghost var asked := Await(t, During(awaits, 4));
      var ok, cancelled := f.begin.Succeeds?, scopes[t].phase.cancelled;
      Own(t, BeginDone(t, ok));
      if !ok || cancelled {
        failure := if ok then CancelledError else OutcomeOf(f.begin);
      } else {
        failure := RunBody(t, f, awaits);
      }
    }

    /** A cancellation ends the body at once. */
    method RunBody(t: nat, f: Fate, awaits: Awaits) returns (failure: Outcome)
      requires Valid() && t in scopes && scopes[t] == Scope(Open, false, None)
      requires SeenIn(t, trace) == NOTHING.(admitted := true, connected := true, begun := true) && f.left > 0 && f.begin.Succeeds?
      modifies this
      ensures Valid() && origin == old(origin)
      ensures t in scopes && scopes[t].phase.Finishing? && !scopes[t].closed
      ensures Left(f, failure, SeenIn(t, trace), scopes[t].phase.cancelled)
    {
      ghost var asked := Await(t, During(awaits, 5));
      if scopes[t].phase.Open? {
        Own(t, ExitBody(t));
        failure := OutcomeOf(f.body);
      } else {
        failure := CancelledError;
      }
    }

    /** `finish`: the frame closes before the connection goes back. */
    method Finish(t: nat, f: Fate, awaits: Awaits, failure: Outcome) returns (outcome: Outcome)
      requires Valid() && t in scopes && scopes[t].phase.Finishing? && !scopes[t].closed
      requires Left(f, failure, SeenIn(t, trace), scopes[t].phase.cancelled)
      modifies this
      ensures Valid() && origin == old(origin)
      ensures t in scopes && scopes[t].phase.Leaving? && scopes[t].closed
      ensures Told(f, outcome, SeenIn(t, trace))
    {
      ghost var asked := LockAndClose(t, awaits);
      ghost var again := PutBack(t, awaits);
      outcome := if f.finishFails then Failed else if scopes[t].phase.cancelled then CancelledError else failure;
    }

    method PutBack(t: nat, awaits: Awaits) returns (ghost cancelled: bool)
      requires Valid() && t in scopes && scopes[t].phase.Closing?
      modifies this
      ensures Valid() && origin == old(origin)
      ensures t in scopes && scopes[t].phase == Leaving(old(scopes[t].phase.cancelled) || cancelled) && scopes[t].closed == old(scopes[t].closed)
      ensures SeenIn(t, trace) == AlsoCancelled(SeenIn(t, old(trace)), cancelled)
    {
      ghost var before := Await(t, During(awaits, 7));
      ghost var later := PutBackNow(t, awaits);
      cancelled := before || later;
    }

    method PutBackNow(t: nat, awaits: Awaits) returns (ghost cancelled: bool)
      requires Valid() && t in scopes && scopes[t].phase.Closing?
      modifies this
      ensures Valid() && origin == old(origin)
      ensures t in scopes && scopes[t].phase == Leaving(old(scopes[t].phase.cancelled) || cancelled) && scopes[t].closed == old(scopes[t].closed)
      ensures SeenIn(t, trace) == AlsoCancelled(SeenIn(t, old(trace)), cancelled)
    {
      Own(t, PutConnection(t));
      cancelled := Await(t, During(awaits, 8));
    }

    method LockAndClose(t: nat, awaits: Awaits) returns (ghost cancelled: bool)
      requires Valid() && t in scopes && scopes[t].phase.Finishing? && !scopes[t].closed
      modifies this
      ensures Valid() && origin == old(origin)
      ensures t in scopes && scopes[t] == Scope(Closing(old(scopes[t].phase.cancelled) || cancelled), true, None)
      ensures SeenIn(t, trace) == AlsoCancelled(SeenIn(t, old(trace)), cancelled)
    {
      cancelled := WaitForLease(t, awaits);
      Own(t, CloseFrame(t));
    }

    /** The frame's lock waits for a lease that is still out. */
    method WaitForLease(t: nat, awaits: Awaits) returns (ghost cancelled: bool)
      requires Valid() && t in scopes && scopes[t].phase.Finishing? && !scopes[t].closed
      modifies this
      ensures Valid() && origin == old(origin)
      ensures t in scopes && scopes[t] == Scope(Finishing(old(scopes[t].phase.cancelled) || cancelled), false, None)
      ensures SeenIn(t, trace) == AlsoCancelled(SeenIn(t, old(trace)), cancelled)
    {
      cancelled := Await(t, During(awaits, 6));
      if scopes[t].lease.Some? {
        Own(t, GiveBack(t));
      }
    }
  }

  // ------------------------------------------------------------------ waiting for a worker thread

  /** How an await on the shielded thread comes back. */
  datatype Wake<T> = Interrupted | Returns(value: T) | Raises

  datatype WorkerResult<T> = Value(value: T) | CancelledAfter(cleanedUp: bool) | Raised

  /** The thread ends at some point. */
  predicate Ends<T>(wakes: seq<Wake<T>>) {
    exists i :: 0 <= i < |wakes| && !wakes[i].Interrupted?
  }

  function EndOf<T>(wakes: seq<Wake<T>>): (i: nat)
    requires Ends(wakes)
    ensures i < |wakes| && !wakes[i].Interrupted? && forall k :: 0 <= k < i ==> wakes[k].Interrupted?
  {
    if wakes[0].Interrupted? then
      assert Ends(wakes[1..]) by {
        var k :| 0 <= k < |wakes| && !wakes[k].Interrupted?;
        assert wakes[1..][k - 1] == wakes[k];
      }
      1 + EndOf(wakes[1..])
    else 0
  }

  /** Goes on waiting through every cancellation until the thread is done. */
  method Wait<T>(wakes: seq<Wake<T>>) returns (last: Wake<T>, cancelled: bool)
    requires Ends(wakes)
    ensures last == wakes[EndOf(wakes)] && !last.Interrupted?
    ensures cancelled <==> EndOf(wakes) > 0
  {
    var i := 0;
    cancelled := false;
    while wakes[i].Interrupted?
      invariant i <= EndOf(wakes) && (cancelled <==> i > 0)
      decreases EndOf(wakes) - i
    {
      cancelled := true;
      i := i + 1;
    }
    last := wakes[i];
  }

  /**
   * `_worker`: the result comes only after the thread has ended.  A
   * cancellation during a successful call is raised after the clean-up has
   * ended as well; a failing call holds nothing and needs no clean-up.
   */
  method Worker<T, U>(wakes: seq<Wake<T>>, cleanup: Option<seq<Wake<U>>>) returns (r: WorkerResult<T>)
    requires Ends(wakes) && (cleanup.Some? ==> Ends(cleanup.value))
    ensures var last := wakes[EndOf(wakes)];
            && (last.Raises? ==> r == Raised)
            && (last.Returns? && EndOf(wakes) == 0 ==> r == Value(last.value))
            && (last.Returns? && EndOf(wakes) > 0 && cleanup.None? ==> r == CancelledAfter(false))
            && (last.Returns? && EndOf(wakes) > 0 && cleanup.Some? ==>
                  r == if cleanup.value[EndOf(cleanup.value)].Raises? then Raised else CancelledAfter(true))
  {
    var last, cancelled := Wait(wakes);
    if last.Raises? {
      return Raised;
    }
    if cancelled {
      if cleanup.Some? {
        var ended, again := Wait(cleanup.value);
        return if ended.Raises? then Raised else CancelledAfter(true);
      }
      return CancelledAfter(false);
    }
    return Value(last.value);
  }

  // ------------------------------------------------------------------ the frame

  datatype LeaseError = ForeignTask | InvalidOwner | Concurrent | ExpiredLease | NotReadOnly | DeadlinePassed

  /** Who calls: the asyncio task if there is one, the thread, the current frame of the context, and the tenant. */
  datatype Caller = Caller(task: Option<nat>, thread: nat, frame: nat, tenant: Name)

  datatype Lease = Lease(number: nat, thread: nat)

  function Smaller(a: int, b: int): int {
    if a <= b then a else b
  }

  /** The whole milliseconds of a time left, within 1 and the 3000 that a statement may take at all. */
  function WholeMilliseconds(micros: int): int {
    Smaller(3000, if micros < 2000 then 1 else micros / 1000)
  }

  /** It is never 0 and never above 3 seconds, and apart from that the time left is cut to whole milliseconds. */
  lemma MillisecondsLeft(micros: int)
    requires micros > 0
    ensures var ms := WholeMilliseconds(micros);
            && 1 <= ms <= 3000 && (ms * 1000 <= micros || ms == 1) && (micros < (ms + 1) * 1000 || ms == 3000)
  {
  }

  /** Times are microseconds. */
  class ReadContext {
    const id: nat
    const tenant: Name
    const ownerTask: nat
    const deadline: int
    var closed: bool
    var lease: Option<Lease>
    var issued: nat
    var statementLimitMs: int
    var lockLimitMs: int

    constructor (id: nat, tenant: Name, ownerTask: nat, deadline: int)
      ensures this.id == id && this.tenant == tenant && this.ownerTask == ownerTask && this.deadline == deadline
      ensures !closed && lease == None && issued == 0 && statementLimitMs == 3000 && lockLimitMs == 1000
    {
      this.id, this.tenant, this.ownerTask, this.deadline := id, tenant, ownerTask, deadline;
      closed, lease, issued, statementLimitMs, lockLimitMs := false, None, 0, 3000, 1000;
    }

    predicate Owns(c: Caller)
      reads this`closed
    {
      (c.task.Some? ==> c.task.value == ownerTask) && !closed && c.frame == id && c.tenant == tenant
    }

    method CheckOwner(c: Caller) returns (e: Option<LeaseError>)
      ensures e.None? <==> Owns(c)
      ensures e.Some? ==> e.value == if c.task.Some? && c.task.value != ownerTask then ForeignTask else InvalidOwner
    {
      if c.task.Some? && c.task.value != ownerTask {
        return Some(ForeignTask);
      }
      if closed || c.frame != id || c.tenant != tenant {
        return Some(InvalidOwner);
      }
      return None;
    }

    /** Every lease is new; it is refused to strangers, while another one is out and after the deadline. */
    method Borrow(c: Caller, now: int) returns (r: Result<Lease, LeaseError>)
      modifies this`lease, this`issued
      ensures r.Ok? <==> Owns(c) && old(lease).None? && now < deadline
      ensures r.Ok? ==> lease == Some(r.value) && r.value == Lease(old(issued), c.thread) && issued == old(issued) + 1
      ensures r.Err? ==> lease == old(lease)
      ensures r.Err? ==> r.error == if c.task.Some? && c.task.value != ownerTask then ForeignTask
                                    else if !Owns(c) then InvalidOwner
                                    else if old(lease).Some? then Concurrent
                                    else DeadlinePassed
    {
      var e := CheckOwner(c);
      if e.Some? {
        return Err(e.value);
      }
      if lease.Some? {
        return Err(Concurrent);
      }
      lease, issued := Some(Lease(issued, c.thread)), issued + 1;
      if deadline - now <= 0 {
        lease := None;
        return Err(DeadlinePassed);
      }
      return Ok(lease.value);
    }

    /**
     * A statement runs only for the owner, in the thread of the current lease
     * and as a SELECT or WITH; both limits fit the time left and never grow.
     */
    method Execute(c: Caller, l: Lease, readOnly: bool, now: int) returns (r: Result<int, LeaseError>)
      modifies this`statementLimitMs, this`lockLimitMs
      ensures r.Ok? <==> Owns(c) && lease == Some(l) && l.thread == c.thread && readOnly && now < deadline
      ensures r.Ok? ==> r.value == statementLimitMs && statementLimitMs == Smaller(old(statementLimitMs), WholeMilliseconds(deadline - now))
      ensures r.Ok? ==> lockLimitMs == if statementLimitMs == old(statementLimitMs) then old(lockLimitMs) else Smaller(1000, statementLimitMs)
      ensures old(statementLimitMs) >= 1 && 1 <= old(lockLimitMs) <= old(statementLimitMs) ==> 1 <= lockLimitMs <= statementLimitMs
      ensures r.Err? ==> statementLimitMs == old(statementLimitMs) && lockLimitMs == old(lockLimitMs)
      ensures r.Err? ==> r.error == if c.task.Some? && c.task.value != ownerTask then ForeignTask
                                    else if !Owns(c) then InvalidOwner
                                    else if lease != Some(l) || l.thread != c.thread then ExpiredLease
                                    else if !readOnly then NotReadOnly
                                    else DeadlinePassed
    {
      var e := CheckOwner(c);
      if e.Some? {
        return Err(e.value);
      }
      if lease != Some(l) || l.thread != c.thread {
        return Err(ExpiredLease);
      }
      if !readOnly {
        return Err(NotReadOnly);
      }
      var remaining := deadline - now;
      if remaining <= 0 {
        return Err(DeadlinePassed);
      }
      var budget := if remaining < 3000000 then remaining else 3000000;
      var milliseconds := if budget / 1000 < 1 then 1 else budget / 1000;
      if milliseconds < statementLimitMs {
        statementLimitMs := milliseconds;
        lockLimitMs := if milliseconds < 1000 then milliseconds else 1000;
      }
      return Ok(statementLimitMs);
    }

    /** The end of the borrowing block, and of the frame. */
    method GiveBack(l: Lease)
      requires lease == Some(l)
      modifies this`lease
      ensures lease == None
    {
      lease := None;
    }

    method Close()
      requires lease.None?
      modifies this`closed
      ensures closed && forall c: Caller :: !Owns(c)
    {
      closed := true;
    }
  }
}
