/**
 * Leases on idempotent operations, in the three forms of the repository:
 * portal files, promotions and sheets.  An operation key is processed by one
 * attempt at a time; another attempt may take over when the lease ended, and
 * a terminal result is written once.
 */
module Leases {
  import opened Prelude

  /** Which repository's rules apply. */
  datatype Form = Portal | Promotion | Sheet

  datatype Phase = Processing | Succeeded | Rejected

  datatype Request = Request(kind: Name, verb: Name, digest: Name)

  /** Times are microseconds on the database clock. */
  datatype Operation = Operation(request: Request, phase: Phase, attempt: nat, leaseUntil: int, status: int)

  type Operations = map<Name, Operation>

  datatype Reservation = Claimed(op: Operation) | Busy(op: Operation) | Conflict(op: Operation)

  const LEASE := 600_000_000

  /** What a repeated key must agree on. */
  predicate SameRequest(form: Form, a: Request, b: Request) {
    && a.digest == b.digest
    && (form != Promotion ==> a.kind == b.kind)
    && (form == Portal ==> a.verb == b.verb)
  }

  /** `require_attempt`: this attempt owns a live lease. */
  predicate Passes(ops: Operations, key: Name, attempt: nat, now: int) {
    key in ops && ops[key].phase == Processing && ops[key].attempt == attempt && now < ops[key].leaseUntil
  }

  /** The guard of `finish`; only the portal and promotion forms look at the lease again. */
  predicate MayFinish(form: Form, ops: Operations, key: Name, attempt: nat, now: int) {
    key in ops && ops[key].phase == Processing && ops[key].attempt == attempt && (form != Sheet ==> now < ops[key].leaseUntil)
  }

  /** The guard of `release`; the promotion form refuses an ended lease. */
  predicate MayRelease(form: Form, ops: Operations, key: Name, attempt: nat, now: int) {
    key in ops && ops[key].phase == Processing && ops[key].attempt == attempt && (form == Promotion ==> now < ops[key].leaseUntil)
  }

  function Outcome(status: int): Phase {
    if status < 400 then Succeeded else Rejected
  }

  /**
   * What `reserve` comes down to.  `now` is the first clock reading and `later`
   * the one next to the takeover statement, which only promotions use; portal
   * takeovers use the second fresh id.
   */
  function Reserve(form: Form, ops: Operations, key: Name, request: Request, now: int, later: int, first: nat, second: nat): (Operations, Reservation) {
    if key !in ops then
      var op := Operation(request, Processing, first, now + LEASE, 0);
      (ops[key := op], Claimed(op))
    else
      var op := ops[key];
      if !SameRequest(form, op.request, request) then (ops, Conflict(op))
      else if op.phase == Processing && op.leaseUntil <= (if form == Promotion then later else now) then
        var taken := op.(attempt := if form == Portal then second else first, leaseUntil := (if form == Promotion then later else now) + LEASE);
        (ops[key := taken], Claimed(taken))
      else (ops, Busy(op))
  }

  function Finish(form: Form, ops: Operations, key: Name, attempt: nat, now: int, status: int): Operations {
    if MayFinish(form, ops, key, attempt, now) then ops[key := ops[key].(phase := Outcome(status), status := status)] else ops
  }

  function Release(form: Form, ops: Operations, key: Name, attempt: nat, now: int): Operations {
    if MayRelease(form, ops, key, attempt, now) then ops[key := ops[key].(leaseUntil := now)] else ops
  }

  // ------------------------------------------------------------------ the SQL statements

  /** The operation rows; each method is one transaction of the repository. */
  class OperationTable {
    const form: Form
    var rows: Operations

    constructor (form: Form)
      ensures this.form == form && rows == map[]
    {
      this.form, rows := form, map[];
    }

    /** `INSERT ... ON CONFLICT DO NOTHING`. */
    method InsertIfAbsent(key: Name, op: Operation)
      modifies this`rows
      ensures rows == if key in old(rows) then old(rows) else old(rows)[key := op]
    {
      if key !in rows {
        rows := rows[key := op];
      }
    }

    /** The compare-and-update of a takeover; the result is the row count. */
    method TakeOver(key: Name, seen: nat, attempt: nat, leaseUntil: int, endedBy: Option<int>) returns (count: nat)
      modifies this`rows
      ensures var guard := key in old(rows) && old(rows)[key].phase == Processing && old(rows)[key].attempt == seen &&
                           (endedBy.Some? ==> old(rows)[key].leaseUntil <= endedBy.value);
              && count == (if guard then 1 else 0)
              && rows == (if guard then old(rows)[key := old(rows)[key].(attempt := attempt, leaseUntil := leaseUntil)] else old(rows))
    {
      count := 0;
      if key in rows && rows[key].phase == Processing && rows[key].attempt == seen && (endedBy.Some? ==> rows[key].leaseUntil <= endedBy.value) {
        rows := rows[key := rows[key].(attempt := attempt, leaseUntil := leaseUntil)];
        count := 1;
      }
    }

    /** `reserve`: insert, read back, compare, and take over an ended lease. */
    method ReserveOperation(key: Name, request: Request, now: int, later: int, first: nat, second: nat) returns (r: Reservation)
      requires key in rows ==> rows[key].attempt != first
      modifies this`rows
      ensures (rows, r) == Reserve(form, old(rows), key, request, now, later, first, second)
    {
      InsertIfAbsent(key, Operation(request, Processing, first, now + LEASE, 0));
      var op := rows[key];
      if !SameRequest(form, op.request, request) {
        return Conflict(op);
      }
      if op.attempt == first {
        return Claimed(op);
      }
      if op.phase == Processing && (form == Promotion || op.leaseUntil <= now) {
        var attempt := if form == Portal then second else first;
        var count := TakeOver(key, op.attempt, attempt, (if form == Promotion then later else now) + LEASE, if form == Promotion then Some(later) else None);
        if count == 1 {
          return Claimed(rows[key]);
        }
      }
      return Busy(op);
    }

    /** `finish`; `false` stands for `LostAttempt`. */
    method FinishOperation(key: Name, attempt: nat, now: int, status: int) returns (ok: bool)
      modifies this`rows
      ensures ok <==> MayFinish(form, old(rows), key, attempt, now)
      ensures rows == Finish(form, old(rows), key, attempt, now, status)
    {
      ok := key in rows && rows[key].phase == Processing && rows[key].attempt == attempt && (form == Sheet || rows[key].leaseUntil > now);
      if ok {
        rows := rows[key := rows[key].(phase := if status < 400 then Succeeded else Rejected, status := status)];
      }
    }

    method ReleaseOperation(key: Name, attempt: nat, now: int) returns (ok: bool)
      modifies this`rows
      ensures ok <==> MayRelease(form, old(rows), key, attempt, now)
      ensures rows == Release(form, old(rows), key, attempt, now)
    {
      ok := key in rows && rows[key].phase == Processing && rows[key].attempt == attempt && (form != Promotion || rows[key].leaseUntil > now);
      if ok {
        rows := rows[key := rows[key].(leaseUntil := now)];
      }
    }
  }

  // ------------------------------------------------------------------ runs

  /** One committed transaction by some worker, at a database time not before the previous one. */
  datatype Step =
    | DoReserve(key: Name, request: Request, now: int, later: int, first: nat, second: nat)
    | DoFinish(key: Name, attempt: nat, now: int, status: int)
    | DoRelease(key: Name, attempt: nat, now: int)

  datatype State = State(ops: Operations, clock: int, issued: set<nat>)

  ghost predicate Next(form: Form, s: State, step: Step, s': State) {
    match step
    case DoReserve(key, request, now, later, first, second) =>
      && s.clock <= now <= later == s'.clock && first !in s.issued && second !in s.issued
      && s'.issued == s.issued + {first, second}
      && s'.ops == Reserve(form, s.ops, key, request, now, later, first, second).0
    case DoFinish(key, attempt, now, status) =>
      s.clock <= now == s'.clock && s'.issued == s.issued && s'.ops == Finish(form, s.ops, key, attempt, now, status)
    case DoRelease(key, attempt, now) =>
      s.clock <= now == s'.clock && s'.issued == s.issued && s'.ops == Release(form, s.ops, key, attempt, now)
  }

  ghost predicate Run(form: Form, states: seq<State>, steps: seq<Step>) {
    && |states| == |steps| + 1 && states[0].ops == map[]
    && forall i :: 0 <= i < |steps| ==> Next(form, states[i], steps[i], states[i + 1])
  }

  /** Attempt ids in the table were issued. */
  lemma {:induction false} AttemptsWereIssued(form: Form, states: seq<State>, steps: seq<Step>, i: nat)
    requires Run(form, states, steps) && i <= |steps|
    ensures forall k :: k in states[i].ops ==> states[i].ops[k].attempt in states[i].issued
  {
    if i > 0 {
      AttemptsWereIssued(form, states, steps, i - 1);
      assert Next(form, states[i - 1], steps[i - 1], states[i]);
    }
  }

  /** The attempt can never pass again: the row has another attempt, is terminal, or its lease ended by the clock. */
  ghost predicate Fenced(s: State, key: Name, attempt: nat) {
    attempt in s.issued && !Passes(s.ops, key, attempt, s.clock)
  }

  lemma StepKeepsFence(form: Form, s: State, step: Step, s': State, key: Name, attempt: nat)
    requires Next(form, s, step, s') && Fenced(s, key, attempt)
    requires forall k :: k in s.ops ==> s.ops[k].attempt in s.issued
    ensures Fenced(s', key, attempt)
  {
  }

  /** Rejected once, rejected forever. */
  lemma {:induction false} RejectedForever(form: Form, states: seq<State>, steps: seq<Step>, i: nat, j: nat, key: Name, attempt: nat, now: int)
    requires Run(form, states, steps) && i <= j <= |steps| && Fenced(states[i], key, attempt) && states[j].clock <= now
    ensures Fenced(states[j], key, attempt) && !Passes(states[j].ops, key, attempt, now)
    decreases j
  {
    if i < j {
      assert Next(form, states[j - 1], steps[j - 1], states[j]);
      RejectedForever(form, states, steps, i, j - 1, key, attempt, states[j - 1].clock);
      AttemptsWereIssued(form, states, steps, j - 1);
      StepKeepsFence(form, states[j - 1], steps[j - 1], states[j], key, attempt);
    }
  }

  /** Two attempts never pass at one time, and when one passes later the other is gone for good. */
  lemma OneOwnerAtATime(form: Form, states: seq<State>, steps: seq<Step>, i: nat, j: nat, k: nat, key: Name, a: nat, b: nat, now: int)
    requires Run(form, states, steps) && i <= j <= k <= |steps| && a != b
    requires Passes(states[i].ops, key, a, states[i].clock) && Passes(states[j].ops, key, b, states[j].clock)
    requires states[k].clock <= now
    ensures i < j && !Passes(states[k].ops, key, a, now)
  {
    AttemptsWereIssued(form, states, steps, i);
    IssuedGrows(form, states, steps, i, j);
    RejectedForever(form, states, steps, j, k, key, a, now);
  }

  lemma {:induction false} IssuedGrows(form: Form, states: seq<State>, steps: seq<Step>, i: nat, j: nat)
    requires Run(form, states, steps) && i <= j <= |steps|
    ensures states[i].issued <= states[j].issued
    decreases j
  {
    if i < j {
      IssuedGrows(form, states, steps, i, j - 1);
      assert Next(form, states[j - 1], steps[j - 1], states[j]);
    }
  }

  /** A terminal operation keeps its phase, status and owner. */
  lemma {:induction false} TerminalIsFinal(form: Form, states: seq<State>, steps: seq<Step>, i: nat, j: nat, key: Name)
    requires Run(form, states, steps) && i <= j <= |steps|
    requires key in states[i].ops && states[i].ops[key].phase != Processing
    ensures key in states[j].ops && states[j].ops[key] == states[i].ops[key]
    decreases j
  {
    if i < j {
      TerminalIsFinal(form, states, steps, i, j - 1, key);
      assert Next(form, states[j - 1], steps[j - 1], states[j]);
    }
  }

  /** The step wrote a terminal result for the key. */
  ghost predicate Terminates(form: Form, s: State, step: Step, key: Name) {
    step.DoFinish? && step.key == key && MayFinish(form, s.ops, key, step.attempt, step.now)
  }

  /** At most one terminal write per key in any run. */
  lemma FinishedOnce(form: Form, states: seq<State>, steps: seq<Step>, i: nat, j: nat, key: Name)
    requires Run(form, states, steps) && i < |steps| && j < |steps|
    requires Terminates(form, states[i], steps[i], key) && Terminates(form, states[j], steps[j], key)
    ensures i == j
  {
    if i < j {
      assert Next(form, states[i], steps[i], states[i + 1]);
      TerminalIsFinal(form, states, steps, i + 1, j, key);
    } else if j < i {
      assert Next(form, states[j], steps[j], states[j + 1]);
      TerminalIsFinal(form, states, steps, j + 1, i, key);
    }
  }

  /** A claim replaces an attempt only when that attempt no longer passes at the time of the claim. */
  lemma TakeoverAfterLease(form: Form, s: State, step: Step, s': State)
    requires Next(form, s, step, s') && step.DoReserve? && step.key in s.ops
    requires s'.ops[step.key].attempt != s.ops[step.key].attempt
    ensures !Passes(s.ops, step.key, s.ops[step.key].attempt, s'.clock)
  {
  }

  /** A rejected attempt finishes exactly when the sheet form applies and only its lease ran out. */
  lemma RejectedAttemptFinishes(form: Form, ops: Operations, key: Name, attempt: nat, now: int)
    requires !Passes(ops, key, attempt, now)
    ensures MayFinish(form, ops, key, attempt, now) <==>
              form == Sheet && key in ops && ops[key].phase == Processing && ops[key].attempt == attempt && ops[key].leaseUntil <= now
  {
  }

  /** In the two re-checking forms an attempt rejected once never writes a result. */
  lemma RejectedNeverFinishes(form: Form, states: seq<State>, steps: seq<Step>, i: nat, j: nat, key: Name, attempt: nat)
    requires Run(form, states, steps) && i <= j < |steps| && form != Sheet && Fenced(states[i], key, attempt)
    requires steps[j].DoFinish? && steps[j].key == key && steps[j].attempt == attempt
    ensures !Terminates(form, states[j], steps[j], key)
  {
    assert Next(form, states[j], steps[j], states[j + 1]);
    RejectedForever(form, states, steps, i, j, key, attempt, steps[j].now);
  }

  /** The sheet form does allow it: reserve, let the lease run out, get rejected, finish. */
  lemma SheetFinishesAfterItsLease(key: Name, request: Request)
    ensures var ops := Reserve(Sheet, map[], key, request, 0, 0, 1, 2).0;
            && !Passes(ops, key, 1, LEASE)
            && MayFinish(Sheet, ops, key, 1, LEASE)
            && Finish(Sheet, ops, key, 1, LEASE, 200)[key].phase == Succeeded
  {
  }

  /** A released key can be claimed at once by the same request, and the releasing attempt is fenced. */
  lemma ReleasedKeyResumes(form: Form, ops: Operations, key: Name, attempt: nat, released: int, request: Request, now: int, later: int, first: nat, second: nat)
    requires MayRelease(form, ops, key, attempt, released) && released <= now <= later
    requires SameRequest(form, ops[key].request, request) && attempt != first && attempt != second
    ensures var after := Release(form, ops, key, attempt, released);
            var (taken, r) := Reserve(form, after, key, request, now, later, first, second);
            r.Claimed? && !Passes(taken, key, attempt, later) && (later < now + LEASE ==> Passes(taken, key, r.op.attempt, later))
  {
  }

  /** A repeated request after the end changes nothing and reads the stored result. */
  lemma ReplayReadsTheResult(form: Form, states: seq<State>, steps: seq<Step>, i: nat, j: nat, key: Name, request: Request, now: int, later: int, first: nat, second: nat)
    requires Run(form, states, steps) && i <= j <= |steps|
    requires key in states[i].ops && states[i].ops[key].phase != Processing && SameRequest(form, states[i].ops[key].request, request)
    ensures Reserve(form, states[j].ops, key, request, now, later, first, second) == (states[j].ops, Busy(states[i].ops[key]))
  {
    TerminalIsFinal(form, states, steps, i, j, key);
  }

  // ------------------------------------------------------------------ what the calls answer

  /** What a reservation answers, for every form: each answer exactly under its condition. */
  lemma ReservationAnswers(form: Form, ops: Operations, key: Name, request: Request, now: int, later: int, first: nat, second: nat)
    ensures var (after, r) := Reserve(form, ops, key, request, now, later, first, second);
            && (r.Conflict? <==> key in ops && Differs(form, ops[key].request, request))
            && (r.Busy? <==> key in ops && !Differs(form, ops[key].request, request) && !Resumable(ops[key], if form == Promotion then later else now))
            && (!r.Claimed? ==> after == ops && r.op == ops[key])
  {
  }

  /** Still in process, with its lease over. */
  predicate Resumable(op: Operation, now: int) {
    op.phase == Processing && op.leaseUntil <= now
  }

  /** The digests differ, or what else the form compares. */
  predicate Differs(form: Form, a: Request, b: Request) {
    match form
    case Portal => a.digest != b.digest || a.kind != b.kind || a.verb != b.verb
    case Sheet => a.digest != b.digest || a.kind != b.kind
    case Promotion => a.digest != b.digest
  }

  /**
   * A claim gives the key to a new attempt for exactly one lease from its
   * reading of the clock, keeps the request the key was first used with, and
   * touches no other key.
   */
  lemma ClaimPasses(form: Form, ops: Operations, key: Name, request: Request, now: int, later: int, first: nat, second: nat, t: int)
    requires Reserve(form, ops, key, request, now, later, first, second).1.Claimed?
    ensures var (after, r) := Reserve(form, ops, key, request, now, later, first, second);
            var start := if key in ops && form == Promotion then later else now;
            && after.Keys == ops.Keys + {key} && after[key] == r.op && (forall k :: k in ops && k != key ==> after[k] == ops[k])
            && r.op.attempt == (if key in ops && form == Portal then second else first)
            && r.op.request == (if key in ops then ops[key].request else request)
            && r.op.phase == Processing
            && (Passes(after, key, r.op.attempt, t) <==> t < start + LEASE)
  {
  }

  /** While it passes an attempt can finish and release in every form; after its lease it can finish only a sheet and release all but promotions. */
  lemma OwnerMay(form: Form, ops: Operations, key: Name, now: int)
    requires key in ops && ops[key].phase == Processing
    ensures var live := now < ops[key].leaseUntil; var attempt := ops[key].attempt;
            && (Passes(ops, key, attempt, now) <==> live)
            && (MayFinish(form, ops, key, attempt, now) <==> live || form == Sheet)
            && (MayRelease(form, ops, key, attempt, now) <==> live || form != Promotion)
  {
  }

  /** Nobody but the attempt that owns a processing key can do anything with it. */
  lemma StrangersMayNot(form: Form, ops: Operations, key: Name, attempt: nat, now: int)
    requires key !in ops || ops[key].phase != Processing || ops[key].attempt != attempt
    ensures !Passes(ops, key, attempt, now) && !MayFinish(form, ops, key, attempt, now) && !MayRelease(form, ops, key, attempt, now)
    ensures forall status :: Finish(form, ops, key, attempt, now, status) == ops
    ensures Release(form, ops, key, attempt, now) == ops
  {
  }

  /** A release ends the lease and changes nothing else. */
  lemma ReleaseEndsTheLease(form: Form, ops: Operations, key: Name, attempt: nat, now: int)
    requires MayRelease(form, ops, key, attempt, now)
    ensures var after := Release(form, ops, key, attempt, now);
            && after.Keys == ops.Keys && (forall k :: k in ops && k != key ==> after[k] == ops[k])
            && after[key].leaseUntil == now && after[key].phase == Processing
            && after[key].request == ops[key].request && after[key].attempt == attempt
  {
  }

  /** A key keeps the request it was first used with. */
  lemma {:induction false} RequestStays(form: Form, states: seq<State>, steps: seq<Step>, i: nat, j: nat, key: Name)
    requires Run(form, states, steps) && i <= j <= |steps| && key in states[i].ops
    ensures key in states[j].ops && states[j].ops[key].request == states[i].ops[key].request
    decreases j
  {
    if i < j {
      RequestStays(form, states, steps, i, j - 1, key);
      assert Next(form, states[j - 1], steps[j - 1], states[j]);
    }
  }

  /** The step claims the key for its request. */
  ghost predicate Claims(form: Form, s: State, step: Step, key: Name) {
    step.DoReserve? && step.key == key &&
    Reserve(form, s.ops, key, step.request, step.now, step.later, step.first, step.second).1.Claimed?
  }

  /**
   * Whoever claimed a key, and whichever attempt then finished it: from there
   * on repeating the claimed request answers with exactly the status that was
   * finished with, as a success exactly below 400, and changes nothing.
   */
  lemma FinishedResultIsReplayed(form: Form, states: seq<State>, steps: seq<Step>, h: nat, i: nat, j: nat, key: Name, now: int, later: int, first: nat, second: nat)
    requires Run(form, states, steps) && h < i < j <= |steps|
    requires Claims(form, states[h], steps[h], key) && Terminates(form, states[i], steps[i], key)
    ensures var (after, r) := Reserve(form, states[j].ops, key, steps[h].request, now, later, first, second);
            && after == states[j].ops && r.Busy?
            && r.op.status == steps[i].status && (r.op.phase == Succeeded <==> steps[i].status < 400)
  {
    assert Next(form, states[h], steps[h], states[h + 1]) && Next(form, states[i], steps[i], states[i + 1]);
    RequestStays(form, states, steps, h + 1, i + 1, key);
    TerminalIsFinal(form, states, steps, i + 1, j, key);
  }

  /** After any use of a key a request that differs from its first one conflicts, for good, and changes nothing. */
  lemma OtherRequestConflicts(form: Form, states: seq<State>, steps: seq<Step>, h: nat, j: nat, key: Name, request: Request, now: int, later: int, first: nat, second: nat)
    requires Run(form, states, steps) && h < j <= |steps| && steps[h].DoReserve? && steps[h].key == key && key !in states[h].ops
    requires Differs(form, steps[h].request, request)
    ensures var (after, r) := Reserve(form, states[j].ops, key, request, now, later, first, second);
            after == states[j].ops && r.Conflict?
  {
    assert Next(form, states[h], steps[h], states[h + 1]);
    RequestStays(form, states, steps, h + 1, j, key);
  }
}
