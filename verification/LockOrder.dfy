/**
 * The lock order of the row stores: advisory keys in key order, then row locks
 * in id order, then id allocation
 * (src/backend/repositories/db_item_repository.py, src/backend/repositories/sheet_repository.py).
 * Any number of transactions that keep this order never deadlock.
 */
module LockOrder {
  import opened Prelude
  import Orders

  /** Different keys are taken to hash to different advisory locks. */
  datatype Lock = Advisory(key: Name) | ChildAllocation(table: nat) | RowLock(table: nat, id: nat) | Allocation(table: nat)

  // ------------------------------------------------------------------ the order

  /** Code point order, as `sorted` compares strings. */
  predicate TextLess(a: string, b: string) {
    b != "" && (a == "" || a[0] < b[0] || (a[0] == b[0] && TextLess(a[1..], b[1..])))
  }

  /** Keys, then the id locks of child tables, then rows, then the id locks of the tables themselves. */
  function Rank(l: Lock): nat {
    match l
    case Advisory(_) => 0
    case ChildAllocation(_) => 1
    case RowLock(_, _) => 2
    case Allocation(_) => 3
  }

  predicate Less(a: Lock, b: Lock) {
    if Rank(a) != Rank(b) then Rank(a) < Rank(b)
    else
      match a
      case Advisory(k) => TextLess(k.text, b.key.text)
      case RowLock(t, i) => t < b.table || (t == b.table && i < b.id)
      case ChildAllocation(t) => t < b.table
      case Allocation(t) => t < b.table
  }

  lemma {:induction false} TextLessIsTotal(a: string, b: string)
    ensures TextLess(a, b) || a == b || TextLess(b, a)
    ensures !(TextLess(a, b) && TextLess(b, a)) && !TextLess(a, a)
  {
    if a != "" && b != "" {
      TextLessIsTotal(a[1..], b[1..]);
      TextLessIsTotal(a[1..], a[1..]);
      if a[0] == b[0] && a[1..] == b[1..] {
        assert a == [a[0]] + a[1..] && b == [b[0]] + b[1..];
      }
    } else if a != "" {
      TextLessIsTotal(a[1..], a[1..]);
    }
  }

  lemma {:induction false} TextLessIsTransitive(a: string, b: string, c: string)
    requires TextLess(a, b) && TextLess(b, c)
    ensures TextLess(a, c)
  {
    if a != "" && a[0] == b[0] && b[0] == c[0] {
      TextLessIsTransitive(a[1..], b[1..], c[1..]);
    }
  }

  /** The order of texts: a proper prefix comes first, and otherwise the first different character decides. */
  lemma {:induction false} TextLessMeans(a: string, b: string)
    ensures TextLess(a, b) <==> a < b || exists p :: DiffersFirst(a, b, p)
  {
    if a != "" && b != "" && a[0] == b[0] {
      TextLessMeans(a[1..], b[1..]);
      assert a == [a[0]] + a[1..] && b == [b[0]] + b[1..];
      assert a < b <==> a[1..] < b[1..];
      if p :| DiffersFirst(a[1..], b[1..], p) {
        assert a[..p + 1] == [a[0]] + a[1..][..p] && b[..p + 1] == [b[0]] + b[1..][..p];
        assert DiffersFirst(a, b, p + 1);
      }
      if p :| DiffersFirst(a, b, p) {
        assert p > 0 && a[1..][..p - 1] == a[..p][1..] && b[1..][..p - 1] == b[..p][1..];
        assert DiffersFirst(a[1..], b[1..], p - 1);
      }
    } else if a != "" && b != "" {
      if a[0] < b[0] {
        assert DiffersFirst(a, b, 0);
      }
      if p :| DiffersFirst(a, b, p) {
        assert p > 0 ==> a[..p][0] == b[..p][0];
      }
    }
  }

  predicate DiffersFirst(a: string, b: string, p: int) {
    0 <= p < |a| && p < |b| && a[..p] == b[..p] && a[p] < b[p]
  }

  lemma LessIsTotal(a: Lock, b: Lock)
    ensures Less(a, b) || a == b || Less(b, a)
    ensures !Less(a, a)
  {
    if a.Advisory? && b.Advisory? {
      TextLessIsTotal(a.key.text, b.key.text);
    }
    if a.Advisory? {
      TextLessIsTotal(a.key.text, a.key.text);
    }
  }

  lemma LessIsTransitive(a: Lock, b: Lock, c: Lock)
    requires Less(a, b) && Less(b, c)
    ensures Less(a, c)
  {
    if a.Advisory? && b.Advisory? && c.Advisory? {
      TextLessIsTransitive(a.key.text, b.key.text, c.key.text);
    }
  }

  lemma LessIsAnOrder()
    ensures Orders.StrictOrder(Less) && Orders.StrictOrder((a, b) => Less(b, a))
  {
    forall a, b, c ensures Less(a, b) || a == b || Less(b, a) ensures !Less(a, a) ensures Less(a, b) && Less(b, c) ==> Less(a, c) {
      LessIsTotal(a, b);
      if Less(a, b) && Less(b, c) { LessIsTransitive(a, b, c); }
    }
  }

  ghost predicate Greatest(x: Lock, s: set<Lock>) {
    x in s && forall y :: y in s && y != x ==> Less(y, x)
  }

  lemma GreatestExists(s: set<Lock>)
    requires s != {}
    ensures exists x :: Greatest(x, s)
  {
    LessIsAnOrder();
    Orders.GreatestExists(s, Less);
    var x :| Orders.Greatest(x, s, Less);
    assert Greatest(x, s);
  }

  lemma LeastExists(s: set<Lock>)
    requires s != {}
    ensures exists x :: x in s && forall y :: y in s && y != x ==> Less(x, y)
  {
    LessIsAnOrder();
    var greater := (a: Lock, b: Lock) => Less(b, a);
    Orders.GreatestExists(s, greater);
    var x :| Orders.Greatest(x, s, greater);
    assert forall y :: y in s && y != x ==> greater(y, x);
  }

  ghost predicate Ascending(s: seq<Lock>) {
    forall i, j :: 0 <= i < j < |s| ==> Less(s[i], s[j])
  }

  /** The ascending list of a set is unique, so `sorted(set)` is a function of the set. */
  lemma {:induction false} AscendingIsUnique(a: seq<Lock>, b: seq<Lock>)
    requires Ascending(a) && Ascending(b) && Elements(a) == Elements(b)
    ensures a == b
  {
    assert a != [] ==> a[0] in Elements(a);
    assert b != [] ==> b[0] in Elements(b);
    if a == [] {
      assert Elements(b) == {};
    } else {
      assert b != [];
      FirstsAgree(a, b);
      RestElements(a);
      RestElements(b);
      AscendingIsUnique(a[1..], b[1..]);
      assert a == [a[0]] + a[1..] && b == [b[0]] + b[1..];
    }
  }

  lemma FirstsAgree(a: seq<Lock>, b: seq<Lock>)
    requires Ascending(a) && Ascending(b) && a != [] && b != []
    requires a[0] in b && b[0] in a
    ensures a[0] == b[0]
  {
    if a[0] != b[0] {
      assert Less(a[0], b[0]) && Less(b[0], a[0]);
      LessIsTransitive(a[0], b[0], a[0]);
      LessIsTotal(a[0], a[0]);
      assert false;
    }
  }

  lemma RestElements(s: seq<Lock>)
    requires Ascending(s) && s != []
    ensures Elements(s[1..]) == Elements(s) - {s[0]}
  {
    forall i | 1 <= i < |s| ensures s[i] != s[0] {
      LessIsTotal(s[0], s[0]);
    }
    assert forall x :: x in s[1..] <==> x in s && x != s[0];
  }

  // ------------------------------------------------------------------ transactions

  /** `plan` lists the lock requests of a transaction in order; the first `taken` are granted. */
  datatype Txn = Txn(plan: seq<Lock>, taken: nat)

  datatype State = State(txns: map<nat, Txn>, holder: map<Lock, nat>)

  datatype Step = Begin(txn: nat, plan: seq<Lock>) | Acquire(txn: nat) | End(txn: nat)

  /** Some locks are guarded: who asks for one has its guard already. */
  type Guards = map<Lock, Lock>

  /**
   * The request is for a lock requested before, for a guarded lock whose guard
   * was requested before, or above all unguarded locks requested before.
   */
  ghost predicate Fits(guards: Guards, plan: seq<Lock>, j: nat)
    requires j < |plan|
  {
    plan[j] in plan[..j] ||
    if plan[j] in guards then guards[plan[j]] in plan[..j]
    else forall i :: 0 <= i < j && plan[i] !in guards ==> Less(plan[i], plan[j])
  }

  ghost predicate Disciplined(guards: Guards, plan: seq<Lock>) {
    forall j :: 0 <= j < |plan| ==> Fits(guards, plan, j)
  }

  const NO_GUARDS: Guards := map[]

  /** Every request is for a lock requested before, or above all locks requested before. */
  ghost predicate Ordered(plan: seq<Lock>) {
    Disciplined(NO_GUARDS, plan)
  }

  ghost predicate Waiting(s: State, t: nat) {
    t in s.txns && s.txns[t].taken < |s.txns[t].plan|
  }

  function Wanted(s: State, t: nat): Lock
    requires t in s.txns && s.txns[t].taken < |s.txns[t].plan|
  {
    s.txns[t].plan[s.txns[t].taken]
  }

  /** `End` is a commit, and just as well a rollback at any point: it releases everything. */
  ghost predicate Next(s: State, step: Step, s': State) {
    match step
    case Begin(t, plan) => t !in s.txns && s' == s.(txns := s.txns[t := Txn(plan, 0)])
    case Acquire(t) =>
      && Waiting(s, t)
      && (Wanted(s, t) in s.holder ==> s.holder[Wanted(s, t)] == t)
      && s' == State(s.txns[t := s.txns[t].(taken := s.txns[t].taken + 1)], s.holder[Wanted(s, t) := t])
    case End(t) => t in s.txns && s' == State(s.txns - {t}, map l | l in s.holder && s.holder[l] != t :: s.holder[l])
  }

  ghost predicate Run(states: seq<State>, steps: seq<Step>) {
    && |states| == |steps| + 1 && states[0] == State(map[], map[])
    && forall i :: 0 <= i < |steps| ==> Next(states[i], steps[i], states[i + 1])
  }

  ghost predicate Inv(s: State) {
    && (forall t :: t in s.txns ==> s.txns[t].taken <= |s.txns[t].plan|)
    && (forall l :: l in s.holder ==> s.holder[l] in s.txns && l in s.txns[s.holder[l]].plan[..s.txns[s.holder[l]].taken])
    && (forall t, k :: t in s.txns && 0 <= k < s.txns[t].taken ==> s.txns[t].plan[k] in s.holder && s.holder[s.txns[t].plan[k]] == t)
  }

  lemma AcquireKeepsInv(s: State, t: nat, s': State)
    requires Inv(s) && Next(s, Acquire(t), s')
    ensures Inv(s')
  {
    var plan, n, l := s.txns[t].plan, s.txns[t].taken, Wanted(s, t);
    assert plan[..n + 1] == plan[..n] + [l];
    forall m | m in s'.holder ensures s'.holder[m] in s'.txns && m in s'.txns[s'.holder[m]].plan[..s'.txns[s'.holder[m]].taken] {
      if m != l {
        assert m in s.txns[s.holder[m]].plan[..s.txns[s.holder[m]].taken];
      }
    }
  }

  lemma EndKeepsInv(s: State, t: nat, s': State)
    requires Inv(s) && Next(s, End(t), s')
    ensures Inv(s')
  {
  }

  lemma StepKeepsInv(s: State, step: Step, s': State)
    requires Inv(s) && Next(s, step, s')
    ensures Inv(s')
  {
    match step
    case Begin(_, _) =>
    case Acquire(t) => AcquireKeepsInv(s, t, s');
    case End(t) => EndKeepsInv(s, t, s');
  }

  lemma {:induction false} RunsKeepInv(states: seq<State>, steps: seq<Step>, i: nat)
    requires Run(states, steps) && i <= |steps|
    ensures Inv(states[i])
  {
    if i > 0 {
      RunsKeepInv(states, steps, i - 1);
      StepKeepsInv(states[i - 1], steps[i - 1], states[i]);
    }
  }

  ghost predicate AllDisciplined(guards: Guards, steps: seq<Step>) {
    forall k :: 0 <= k < |steps| && steps[k].Begin? ==> Disciplined(guards, steps[k].plan)
  }

  ghost predicate Kept(guards: Guards, s: State) {
    Inv(s) && forall t :: t in s.txns ==> Disciplined(guards, s.txns[t].plan)
  }

  lemma {:induction false} PlansAreKept(guards: Guards, states: seq<State>, steps: seq<Step>, i: nat)
    requires Run(states, steps) && i <= |steps| && AllDisciplined(guards, steps)
    ensures Kept(guards, states[i])
  {
    RunsKeepInv(states, steps, i);
    if i > 0 {
      PlansAreKept(guards, states, steps, i - 1);
      assert Next(states[i - 1], steps[i - 1], states[i]);
    }
  }

  /** Transaction `a` cannot go on because `b` holds the lock it wants. */
  ghost predicate WaitsFor(s: State, a: nat, b: nat) {
    Waiting(s, a) && Wanted(s, a) in s.holder && s.holder[Wanted(s, a)] == b && a != b
  }

  /** The lock a waiting transaction wants is one it has not asked for before. */
  lemma WantedIsNew(s: State, a: nat, b: nat)
    requires Inv(s) && WaitsFor(s, a, b)
    ensures Wanted(s, a) !in s.txns[a].plan[..s.txns[a].taken]
  {
    var plan, n := s.txns[a].plan, s.txns[a].taken;
    forall m | 0 <= m < n ensures plan[m] != plan[n] {
      assert s.holder[plan[m]] == a;
    }
  }

  /** A held guarded lock has its guard held by the same transaction. */
  lemma {:induction false} GuardIsHeld(guards: Guards, plan: seq<Lock>, n: nat, l: Lock)
    requires Disciplined(guards, plan) && n <= |plan| && l in plan[..n] && l in guards
    ensures guards[l] in plan[..n]
  {
    var k :| 0 <= k < n && plan[k] == l;
    assert Fits(guards, plan, k);
    if l in plan[..k] {
      GuardIsHeld(guards, plan, k, l);
    }
  }

  /** Nobody ever waits for a guarded lock: its holder has the guard, and so has the one who asks. */
  lemma NobodyWaitsForGuarded(guards: Guards, s: State, a: nat, b: nat)
    requires Kept(guards, s) && WaitsFor(s, a, b)
    ensures Wanted(s, a) !in guards
  {
    var l := Wanted(s, a);
    if l in guards {
      WantedIsNew(s, a, b);
      assert Fits(guards, s.txns[a].plan, s.txns[a].taken);
      GuardIsHeld(guards, s.txns[b].plan, s.txns[b].taken, l);
      HeldBy(s, a, guards[l]);
      HeldBy(s, b, guards[l]);
    }
  }

  lemma HeldBy(s: State, t: nat, l: Lock)
    requires Inv(s) && t in s.txns && l in s.txns[t].plan[..s.txns[t].taken]
    ensures l in s.holder && s.holder[l] == t
  {
  }

  /** Along a wait-for edge the wanted locks ascend. */
  lemma WaitingClimbs(guards: Guards, s: State, a: nat, b: nat, c: nat)
    requires Kept(guards, s) && WaitsFor(s, a, b) && WaitsFor(s, b, c)
    ensures Less(Wanted(s, a), Wanted(s, b))
  {
    var plan, n := s.txns[b].plan, s.txns[b].taken;
    var k :| 0 <= k < n && plan[k] == Wanted(s, a);
    NobodyWaitsForGuarded(guards, s, a, b);
    NobodyWaitsForGuarded(guards, s, b, c);
    WantedIsNew(s, b, c);
    assert Fits(guards, plan, n);
  }

  ghost predicate WaitCycle(s: State, c: seq<nat>) {
    |c| > 0 && WaitsFor(s, c[|c| - 1], c[0]) && forall i :: 0 <= i < |c| - 1 ==> WaitsFor(s, c[i], c[i + 1])
  }

  /** Everyone on a cycle waits for the next one. */
  lemma NextOnCycle(s: State, c: seq<nat>, i: nat)
    requires WaitCycle(s, c) && i < |c|
    ensures WaitsFor(s, c[i], c[if i + 1 < |c| then i + 1 else 0])
  {
  }

  lemma {:induction false} WantsAscendAlong(guards: Guards, s: State, c: seq<nat>, i: nat)
    requires Kept(guards, s) && WaitCycle(s, c) && 0 < i < |c|
    ensures Waiting(s, c[0]) && Waiting(s, c[i])
    ensures Less(Wanted(s, c[0]), Wanted(s, c[i]))
  {
    NextOnCycle(s, c, 0);
    NextOnCycle(s, c, i - 1);
    NextOnCycle(s, c, i);
    WaitingClimbs(guards, s, c[i - 1], c[i], c[if i + 1 < |c| then i + 1 else 0]);
    if i > 1 {
      WantsAscendAlong(guards, s, c, i - 1);
      LessIsTransitive(Wanted(s, c[0]), Wanted(s, c[i - 1]), Wanted(s, c[i]));
    }
  }

  lemma KeptHasNoCycle(guards: Guards, s: State, c: seq<nat>)
    requires Kept(guards, s)
    ensures !WaitCycle(s, c)
  {
    if WaitCycle(s, c) {
      var last := |c| - 1;
      NextOnCycle(s, c, last);
      NextOnCycle(s, c, 0);
      WaitingClimbs(guards, s, c[last], c[0], c[if 1 < |c| then 1 else 0]);
      if last > 0 {
        WantsAscendAlong(guards, s, c, last);
        LessIsTransitive(Wanted(s, c[last]), Wanted(s, c[0]), Wanted(s, c[last]));
      }
      LessIsTotal(Wanted(s, c[last]), Wanted(s, c[last]));
    }
  }

  /** No reachable state of any number of disciplined transactions has a wait-for cycle. */
  lemma NoDeadlock(guards: Guards, states: seq<State>, steps: seq<Step>, i: nat, c: seq<nat>)
    requires Run(states, steps) && i <= |steps| && AllDisciplined(guards, steps)
    ensures !WaitCycle(states[i], c)
  {
    PlansAreKept(guards, states, steps, i);
    KeptHasNoCycle(guards, states[i], c);
  }

  /** The transaction can take its next lock, or has all locks and can commit. */
  ghost predicate CanGoOn(s: State, t: nat) {
    t in s.txns && (Waiting(s, t) ==> Wanted(s, t) in s.holder ==> s.holder[Wanted(s, t)] == t)
  }

  ghost predicate Stuck(s: State) {
    forall t :: t in s.txns ==> exists b :: WaitsFor(s, t, b)
  }

  ghost function WantedLocks(s: State): set<Lock> {
    set t | t in s.txns && Waiting(s, t) :: Wanted(s, t)
  }

  /** Whoever blocks a waiting transaction wants a greater lock, so no wanted lock is the greatest. */
  lemma NoGreatestWanted(guards: Guards, s: State, t: nat)
    requires Kept(guards, s) && Stuck(s) && t in s.txns
    ensures Waiting(s, t) && !Greatest(Wanted(s, t), WantedLocks(s))
  {
    var b :| WaitsFor(s, t, b);
    var c :| WaitsFor(s, b, c);
    WaitingClimbs(guards, s, t, b, c);
    LessIsTotal(Wanted(s, t), Wanted(s, t));
    assert Wanted(s, b) in WantedLocks(s);
    if Less(Wanted(s, b), Wanted(s, t)) {
      LessIsTransitive(Wanted(s, t), Wanted(s, b), Wanted(s, t));
    }
  }

  lemma SomeoneWantsTheGreatest(s: State, t0: nat) returns (t: nat)
    requires Waiting(s, t0)
    ensures Waiting(s, t) && Greatest(Wanted(s, t), WantedLocks(s))
  {
    assert Wanted(s, t0) in WantedLocks(s);
    GreatestExists(WantedLocks(s));
    var top :| Greatest(top, WantedLocks(s));
    t :| Waiting(s, t) && Wanted(s, t) == top;
  }

  lemma NotAllAreStuck(guards: Guards, s: State)
    requires Kept(guards, s) && s.txns != map[]
    ensures !Stuck(s)
  {
    if Stuck(s) {
      var t0 :| t0 in s.txns;
      NoGreatestWanted(guards, s, t0);
      var t := SomeoneWantsTheGreatest(s, t0);
      NoGreatestWanted(guards, s, t);
    }
  }

  /** As long as a transaction is open, some transaction can go on without any rollback. */
  lemma SomeoneCanGoOn(guards: Guards, states: seq<State>, steps: seq<Step>, i: nat)
    requires Run(states, steps) && i <= |steps| && AllDisciplined(guards, steps) && states[i].txns != map[]
    ensures exists t :: CanGoOn(states[i], t)
  {
    PlansAreKept(guards, states, steps, i);
    NotAllAreStuck(guards, states[i]);
    var t :| t in states[i].txns && forall b :: !WaitsFor(states[i], t, b);
    if Waiting(states[i], t) && Wanted(states[i], t) in states[i].holder {
      assert !WaitsFor(states[i], t, states[i].holder[Wanted(states[i], t)]);
    }
    assert CanGoOn(states[i], t);
  }

  /** A transaction step that goes on is a step of the machine. */
  lemma GoingOnIsAStep(s: State, t: nat)
    requires CanGoOn(s, t)
    ensures exists step, s' :: Next(s, step, s') && step.txn == t && !step.Begin? && (step.End? ==> s.txns[t].taken >= |s.txns[t].plan|)
  {
    if Waiting(s, t) {
      var s' := State(s.txns[t := s.txns[t].(taken := s.txns[t].taken + 1)], s.holder[Wanted(s, t) := t]);
      assert Next(s, Acquire(t), s');
    } else {
      var s' := State(s.txns - {t}, map l | l in s.holder && s.holder[l] != t :: s.holder[l]);
      assert Next(s, End(t), s');
    }
  }

  // ------------------------------------------------------------------ exactly when two transactions deadlock

  /** After these prefixes, granted to both, each wants a lock of the other. */
  ghost predicate CrossAt(p: seq<Lock>, q: seq<Lock>, j: nat, l: nat)
    requires j < |p| && l < |q|
  {
    p[j] in q[..l] && q[l] in p[..j] && Elements(p[..j]) !! Elements(q[..l])
  }

  ghost predicate Interlocked(p: seq<Lock>, q: seq<Lock>) {
    exists j, l :: 0 <= j < |p| && 0 <= l < |q| && CrossAt(p, q, j, l)
  }

  /** Only transaction 1 with plan `p` and transaction 2 with plan `q` take part. */
  ghost predicate Between(steps: seq<Step>, p: seq<Lock>, q: seq<Lock>) {
    forall k :: 0 <= k < |steps| && steps[k].Begin? ==> steps[k] == Begin(1, p) || steps[k] == Begin(2, q)
  }

  /** A run of the two from the empty state into a wait-for cycle. */
  ghost predicate DeadlockRun(states: seq<State>, steps: seq<Step>, c: seq<nat>, p: seq<Lock>, q: seq<Lock>) {
    Run(states, steps) && Between(steps, p, q) && WaitCycle(states[|steps|], c)
  }

  ghost predicate CanDeadlock(p: seq<Lock>, q: seq<Lock>) {
    exists states, steps, c :: DeadlockRun(states, steps, c, p, q)
  }

  /** Both are open and have been granted these prefixes. */
  ghost function Both(p: seq<Lock>, q: seq<Lock>, j: nat, l: nat): State
    requires j <= |p| && l <= |q|
  {
    State(map[1 := Txn(p, j), 2 := Txn(q, l)], map x | x in Elements(p[..j]) + Elements(q[..l]) :: if x in p[..j] then 1 else 2)
  }

  lemma GrantFirst(p: seq<Lock>, q: seq<Lock>, j: nat)
    requires j < |p|
    ensures Next(Both(p, q, j, 0), Acquire(1), Both(p, q, j + 1, 0))
  {
    assert p[..j + 1] == p[..j] + [p[j]];
    assert Both(p, q, j, 0).holder[p[j] := 1] == Both(p, q, j + 1, 0).holder;
  }

  lemma GrantSecond(p: seq<Lock>, q: seq<Lock>, j: nat, l: nat)
    requires j <= |p| && l < |q| && q[l] !in p[..j]
    ensures Next(Both(p, q, j, l), Acquire(2), Both(p, q, j, l + 1))
  {
    assert q[..l + 1] == q[..l] + [q[l]];
    assert Both(p, q, j, l).holder[q[l] := 2] == Both(p, q, j, l + 1).holder;
  }

  lemma ExtendRun(states: seq<State>, steps: seq<Step>, step: Step, s: State)
    requires Run(states, steps) && Next(states[|steps|], step, s)
    ensures Run(states + [s], steps + [step])
  {
  }

  /** Disjoint prefixes can be granted to both. */
  lemma {:induction false} ReachBoth(p: seq<Lock>, q: seq<Lock>, j: nat, l: nat) returns (states: seq<State>, steps: seq<Step>)
    requires j <= |p| && l <= |q| && Elements(p[..j]) !! Elements(q[..l])
    ensures Run(states, steps) && Between(steps, p, q) && states[|steps|] == Both(p, q, j, l)
    decreases l, j
  {
    if l > 0 {
      assert q[..l] == q[..l - 1] + [q[l - 1]];
      assert q[l - 1] in Elements(q[..l]);
      states, steps := ReachBoth(p, q, j, l - 1);
      GrantSecond(p, q, j, l - 1);
      ExtendRun(states, steps, Acquire(2), Both(p, q, j, l));
      states, steps := states + [Both(p, q, j, l)], steps + [Acquire(2)];
    } else if j > 0 {
      states, steps := ReachBoth(p, q, j - 1, 0);
      GrantFirst(p, q, j - 1);
      ExtendRun(states, steps, Acquire(1), Both(p, q, j, 0));
      states, steps := states + [Both(p, q, j, 0)], steps + [Acquire(1)];
    } else {
      var none := State(map[], map[]);
      var one := none.(txns := map[1 := Txn(p, 0)]);
      states, steps := [none, one, Both(p, q, 0, 0)], [Begin(1, p), Begin(2, q)];
      assert Next(none, Begin(1, p), one);
      assert Next(one, Begin(2, q), Both(p, q, 0, 0));
    }
  }

  lemma InterlockDeadlocks(p: seq<Lock>, q: seq<Lock>, j: nat, l: nat) returns (states: seq<State>, steps: seq<Step>)
    requires j < |p| && l < |q| && CrossAt(p, q, j, l)
    ensures DeadlockRun(states, steps, [1, 2], p, q)
  {
    states, steps := ReachBoth(p, q, j, l);
    var s, c := Both(p, q, j, l), [1, 2];
    assert p[j] in Elements(q[..l]) && q[l] in Elements(p[..j]);
    assert WaitsFor(s, 1, 2) && WaitsFor(s, 2, 1);
    assert c[|c| - 1] == 2 && c[0] == 1;
  }

  lemma {:induction false} PlansComeFromBegins(states: seq<State>, steps: seq<Step>, i: nat, p: seq<Lock>, q: seq<Lock>)
    requires Run(states, steps) && i <= |steps| && Between(steps, p, q)
    ensures forall t :: t in states[i].txns ==> (t == 1 && states[i].txns[t].plan == p) || (t == 2 && states[i].txns[t].plan == q)
  {
    if i > 0 {
      PlansComeFromBegins(states, steps, i - 1, p, q);
      assert Next(states[i - 1], steps[i - 1], states[i]);
    }
  }

  /** With two transactions a wait-for cycle is the two waiting for each other. */
  lemma CycleOfTwo(s: State, c: seq<nat>)
    requires WaitCycle(s, c) && Inv(s) && forall t :: t in s.txns ==> t == 1 || t == 2
    ensures WaitsFor(s, 1, 2) && WaitsFor(s, 2, 1)
  {
    NextOnCycle(s, c, 0);
    NextOnCycle(s, c, |c| - 1);
    if |c| > 1 {
      NextOnCycle(s, c, 1);
    }
  }

  lemma WaitingIsInterlocked(s: State, p: seq<Lock>, q: seq<Lock>)
    requires Inv(s) && WaitsFor(s, 1, 2) && WaitsFor(s, 2, 1) && s.txns[1].plan == p && s.txns[2].plan == q
    ensures Interlocked(p, q)
  {
    var j, l := s.txns[1].taken, s.txns[2].taken;
    forall x | x in p[..j] && x in q[..l] ensures false {
      HeldBy(s, 1, x);
      HeldBy(s, 2, x);
    }
    assert CrossAt(p, q, j, l);
  }

  /** Two transactions can deadlock exactly when each, after disjoint prefixes of the two, wants a lock of the other's. */
  lemma DeadlocksExactly(p: seq<Lock>, q: seq<Lock>)
    ensures CanDeadlock(p, q) <==> Interlocked(p, q)
  {
    if Interlocked(p, q) {
      var j, l :| 0 <= j < |p| && 0 <= l < |q| && CrossAt(p, q, j, l);
      var states, steps := InterlockDeadlocks(p, q, j, l);
    }
    if CanDeadlock(p, q) {
      var states, steps, c :| DeadlockRun(states, steps, c, p, q);
      RunsKeepInv(states, steps, |steps|);
      PlansComeFromBegins(states, steps, |steps|, p, q);
      CycleOfTwo(states[|steps|], c);
      WaitingIsInterlocked(states[|steps|], p, q);
    }
  }

  /** A request out of order, and the two locks it concerns. */
  lemma DisorderInterlocks(q: seq<Lock>, l: nat)
    requires l < |q| && !Fits(NO_GUARDS, q, l)
    ensures exists i :: 0 <= i < l && Less(q[l], q[i]) && Ordered([q[l], q[i]]) && CrossAt([q[l], q[i]], q, 1, l)
  {
    var i :| 0 <= i < l && !Less(q[i], q[l]);
    LessIsTotal(q[i], q[l]);
    assert q[i] in q[..l] && Less(q[l], q[i]);
    var p := [q[l], q[i]];
    assert p[..1] == [q[l]];
    assert Fits(NO_GUARDS, p, 0) && Fits(NO_GUARDS, p, 1);
  }

  /** The order is exactly what is needed: a plan keeps it if and only if no ordered plan can deadlock with it. */
  lemma OrderIsExact(q: seq<Lock>)
    ensures Ordered(q) <==> forall p :: Ordered(p) ==> !CanDeadlock(p, q)
  {
    if Ordered(q) {
      forall p | Ordered(p) ensures !CanDeadlock(p, q) {
        if CanDeadlock(p, q) {
          var states, steps, c :| DeadlockRun(states, steps, c, p, q);
          NoDeadlock(NO_GUARDS, states, steps, |steps|, c);
        }
      }
    } else {
      var l :| 0 <= l < |q| && !Fits(NO_GUARDS, q, l);
      DisorderInterlocks(q, l);
      var i :| 0 <= i < l && Less(q[l], q[i]) && Ordered([q[l], q[i]]) && CrossAt([q[l], q[i]], q, 1, l);
      DeadlocksExactly([q[l], q[i]], q);
    }
  }

  // ------------------------------------------------------------------ the lock requests of the code

  /** Keys, then rows, each in ascending order. */
  lemma KeysThenRowsAreOrdered(keys: seq<Lock>, rows: seq<Lock>)
    requires Ascending(keys) && Ascending(rows)
    requires (forall k :: k in keys ==> k.Advisory?) && (forall r :: r in rows ==> !r.Advisory?)
    ensures Ordered(keys + rows)
  {
    var plan := keys + rows;
    forall j | 0 <= j < |plan| ensures Fits(NO_GUARDS, plan, j) {
      forall i | 0 <= i < j ensures Less(plan[i], plan[j]) {
        assert i < |keys| <= j ==> keys[i] in keys && rows[j - |keys|] in rows;
      }
    }
  }

  /** What is asked later does not matter to the earlier requests. */
  lemma PrefixFits(guards: Guards, plan: seq<Lock>, more: seq<Lock>, j: nat)
    requires j < |plan|
    ensures Fits(guards, plan + more, j) <==> Fits(guards, plan, j)
  {
    assert (plan + more)[..j] == plan[..j];
  }

  /** The second pass of a two-phase renumbering asks for rows that are locked already. */
  lemma SecondPassIsOrdered(plan: seq<Lock>, again: seq<Lock>)
    requires Ordered(plan) && forall l :: l in again ==> l in plan
    ensures Ordered(plan + again)
  {
    var all := plan + again;
    forall j | 0 <= j < |all| ensures Fits(NO_GUARDS, all, j) {
      if j < |plan| {
        PrefixFits(NO_GUARDS, plan, again, j);
      } else {
        assert all[j] == again[j - |plan|] && all[j] in plan;
        var k :| 0 <= k < |plan| && plan[k] == all[j];
        assert all[..j][k] == all[j];
      }
    }
  }

  /** The id lock of an insert comes after all of them. */
  lemma AllocationComesLast(plan: seq<Lock>, table: nat)
    requires Ordered(plan) && forall l :: l in plan ==> !l.Allocation?
    ensures Ordered(plan + [Allocation(table)])
  {
    var all := plan + [Allocation(table)];
    forall j | 0 <= j < |all| ensures Fits(NO_GUARDS, all, j) {
      if j < |plan| {
        PrefixFits(NO_GUARDS, plan, [Allocation(table)], j);
      } else {
        forall i | 0 <= i < j ensures Less(all[i], all[j]) {
          assert all[i] == plan[i];
        }
      }
    }
  }

  /** An album upload allocates the photo id before it locks its album. */
  lemma ChildAllocationComesBeforeRows(child: nat, table: nat, id: nat)
    ensures Ordered([ChildAllocation(child), RowLock(table, id)])
    ensures !Ordered([Allocation(child), RowLock(table, id)])
  {
    var plan, other := [ChildAllocation(child), RowLock(table, id)], [Allocation(child), RowLock(table, id)];
    assert Fits(NO_GUARDS, plan, 0) && Fits(NO_GUARDS, plan, 1);
    assert other[1] !in other[..1] && !Less(other[0], other[1]);
    assert !Fits(NO_GUARDS, other, 1);
  }

  /**
   * Rows whose group keys are all held may be asked for in any order: moving
   * one item locks it first and renumbers its groups afterwards.
   */
  lemma GuardedRowsAreDisciplined(guards: Guards, keys: seq<Lock>, rows: seq<Lock>)
    requires Ascending(keys) && (forall k :: k in keys ==> k !in guards)
    requires forall r :: r in rows ==> r in guards && guards[r] in keys
    ensures Disciplined(guards, keys + rows)
  {
    var plan := keys + rows;
    forall j | 0 <= j < |plan| ensures Fits(guards, plan, j) {
      if j < |keys| {
        assert plan[j] == keys[j] && keys[j] in keys;
        assert forall i :: 0 <= i < j ==> plan[i] == keys[i];
      } else {
        assert plan[j] == rows[j - |keys|] && rows[j - |keys|] in rows;
        var k :| 0 <= k < |keys| && keys[k] == guards[plan[j]];
        assert plan[..j][k] == keys[k];
      }
    }
  }

  /** A second sorted call keeps the order exactly when it asks only for locks above everything that is held. */
  lemma SecondCallIsOrdered(held: seq<Lock>, asked: seq<Lock>)
    requires Ascending(held) && Ascending(asked) && Elements(held) !! Elements(asked)
    ensures Ordered(held + asked) <==> forall i, j :: 0 <= i < |held| && 0 <= j < |asked| ==> Less(held[i], asked[j])
  {
    var plan := held + asked;
    if Ordered(plan) {
      forall i, j | 0 <= i < |held| && 0 <= j < |asked| ensures Less(held[i], asked[j]) {
        var n := |held| + j;
        assert Fits(NO_GUARDS, plan, n) && plan[i] == held[i] && plan[n] == asked[j];
        assert asked[j] !in plan[..n] by {
          forall m | 0 <= m < n ensures plan[m] != asked[j] {
            if m < |held| {
              assert held[m] in Elements(held) && asked[j] in Elements(asked);
            } else {
              LessIsTotal(asked[j], asked[j]);
            }
          }
        }
      }
    }
    if forall i, j :: 0 <= i < |held| && 0 <= j < |asked| ==> Less(held[i], asked[j]) {
      forall j | 0 <= j < |plan| ensures Fits(NO_GUARDS, plan, j) {
      }
    }
  }

  /** `sorted(...)` of a set. */
  method Sorted(s: set<Lock>) returns (list: seq<Lock>)
    ensures Ascending(list) && Elements(list) == s
  {
    list := [];
    var todo := s;
    while todo != {}
      invariant todo <= s && Elements(list) == s - todo && Ascending(list)
      invariant forall i, x :: 0 <= i < |list| && x in todo ==> Less(list[i], x)
      decreases todo
    {
      LeastExists(todo);
      var x :| x in todo && forall y :: y in todo && y != x ==> Less(x, y);
      assert Elements(list + [x]) == Elements(list) + {x};
      list := list + [x];
      todo := todo - {x};
    }
  }

  function KeyName(tenant: string, name: string, key: string): Lock {
    Advisory(Name("portal:" + tenant + ":" + name + ":" + key))
  }

  /** One transaction of a row store; `requests` logs its lock statements. */
  class ItemContext {
    const tenant: string
    var lockedKeys: set<Lock>
    var requests: seq<Lock>

    constructor (tenant: string)
      ensures this.tenant == tenant && lockedKeys == {} && requests == []
    {
      this.tenant := tenant;
      lockedKeys, requests := {}, [];
    }

    /** Takes the keys not held yet, each once and in key order. */
    method LockKeys(name: string, keys: set<string>) returns (ghost asked: seq<Lock>)
      modifies this
      ensures requests == old(requests) + asked && Ascending(asked)
      ensures Elements(asked) == KeyLocks(tenant, name, keys) - old(lockedKeys)
      ensures lockedKeys == old(lockedKeys) + KeyLocks(tenant, name, keys)
    {
      var all := KeyLocks(tenant, name, keys);
      var wanted := Sorted(all - lockedKeys);
      for i := 0 to |wanted|
        invariant requests == old(requests) + wanted[..i]
        invariant lockedKeys == old(lockedKeys) + Elements(wanted[..i])
      {
        assert wanted[..i + 1] == wanted[..i] + [wanted[i]];
        assert Elements(wanted[..i + 1]) == Elements(wanted[..i]) + {wanted[i]};
        requests := requests + [wanted[i]];
        lockedKeys := lockedKeys + {wanted[i]};
      }
      assert wanted[..|wanted|] == wanted;
      asked := wanted;
    }

    /** `SELECT … FOR UPDATE` row by row in ascending id order; a missing row is not locked. */
    method LockRows<R(!new)>(table: nat, ids: seq<nat>, rows: map<nat, R>) returns (found: map<nat, R>, ghost asked: seq<Lock>)
      modifies this`requests
      ensures found == map id | id in ids && id in rows :: rows[id]
      ensures requests == old(requests) + asked && Ascending(asked)
      ensures forall i, j :: 0 <= i < j < |asked| ==> asked[i].RowLock? && asked[j].RowLock? && asked[i].id < asked[j].id
      ensures forall l :: l in asked <==> l.RowLock? && l.table == table && l.id in ids && l.id in rows
    {
      found, asked := map[], [];
      var wanted := Sorted(RowLocks(table, ids));
      for i := 0 to |wanted|
        invariant requests == old(requests) + asked
        invariant ChosenFrom(wanted[..i], asked, rows.Keys)
        invariant FoundAmong(found, wanted[..i], rows)
      {
        assert wanted[i] in Elements(wanted);
        assert wanted[..i + 1] == wanted[..i] + [wanted[i]];
        var id := wanted[i].id;
        ChooseNext(wanted, i, asked, rows.Keys);
        if id in rows {
          requests := requests + [wanted[i]];
          asked := asked + [wanted[i]];
          found := found[id := rows[id]];
        }
      }
      assert wanted[..|wanted|] == wanted;
      AllRowsFound(table, ids, wanted, asked, found, rows);
    }

    /** The requests of a two-phase `update_many`, alone in its transaction, are ordered. */
    method UpdateManyLocks<R(!new)>(name: string, keys: set<string>, table: nat, ids: seq<nat>, rows: map<nat, R>)
      requires requests == [] && lockedKeys == {}
      modifies this
      ensures Ordered(requests)
      ensures forall k :: k in keys ==> KeyName(tenant, name, k) in requests
      ensures forall id :: id in ids && id in rows ==> RowLock(table, id) in requests
    {
      ghost var asked := LockKeys(name, keys);
      assert forall k :: k in keys ==> KeyName(tenant, name, k) in Elements(asked);
      assert forall l :: l in asked ==> l in Elements(asked);
      var moved, first := LockRows(table, ids, rows);
      KeysThenRowsAreOrdered(asked, first);
      var found, second := LockRows(table, ids, rows);
      SecondPassIsOrdered(asked + first, second);
      assert requests == asked + first + second;
    }

    /**
     * Two `lock` calls in one transaction.  The requests keep the order, and
     * so no ordered transaction can deadlock with this one, exactly when every
     * key that the second call still has to take is above every key of the first.
     */
    method LockTwice(name: string, first: set<string>, second: set<string>) returns (ghost held: seq<Lock>, ghost asked: seq<Lock>)
      requires requests == [] && lockedKeys == {}
      modifies this
      ensures requests == held + asked && Ascending(held) && Ascending(asked)
      ensures Elements(held) == KeyLocks(tenant, name, first) && Elements(asked) == KeyLocks(tenant, name, second) - Elements(held)
      ensures Ordered(requests) <==> forall a, b :: a in Elements(held) && b in Elements(asked) ==> Less(a, b)
      ensures Ordered(requests) <==> forall p :: Ordered(p) ==> !CanDeadlock(p, requests)
    {
      held := LockKeys(name, first);
      asked := LockKeys(name, second);
      assert requests == held + asked;
      SecondCallIsOrdered(held, asked);
      AllPairs(held, asked);
      OrderIsExact(requests);
    }
  }

  /** Up to the first colon two texts that read on alike agree. */
  lemma SameUpToColon(a: string, b: string, x: string, y: string)
    requires ':' !in a && ':' !in b && a + ":" + x == b + ":" + y
    ensures a == b && x == y
  {
    var s := a + ":" + x;
    assert s[|a|] == ':' && s[|b|] == ':';
    assert s[..|a|] == a && s[..|b|] == b;
    assert s[|a| + 1..] == x && s[|b| + 1..] == y;
  }

  /** Different tenants, collections and keys have different locks, as long as the first two hold no colon. */
  lemma LocksAreSeparate(tenant: string, name: string, key: string, tenant': string, name': string, key': string)
    requires ':' !in tenant && ':' !in name && ':' !in tenant' && ':' !in name'
    ensures KeyName(tenant, name, key) == KeyName(tenant', name', key') <==> tenant == tenant' && name == name' && key == key'
  {
    if KeyName(tenant, name, key) == KeyName(tenant', name', key') {
      var rest, rest' := tenant + ":" + (name + ":" + key), tenant' + ":" + (name' + ":" + key');
      assert "portal:" + tenant + ":" + name + ":" + key == "portal:" + rest;
      assert "portal:" + tenant' + ":" + name' + ":" + key' == "portal:" + rest';
      assert ("portal:" + rest)[7..] == rest && ("portal:" + rest')[7..] == rest';
      SameUpToColon(tenant, tenant', name + ":" + key, name' + ":" + key');
      SameUpToColon(name, name', key, key');
    }
  }

  function KeyLocks(tenant: string, name: string, keys: set<string>): set<Lock> {
    set k | k in keys :: KeyName(tenant, name, k)
  }

  lemma AllPairs(held: seq<Lock>, asked: seq<Lock>)
    ensures (forall i, j :: 0 <= i < |held| && 0 <= j < |asked| ==> Less(held[i], asked[j])) <==>
              forall a, b :: a in Elements(held) && b in Elements(asked) ==> Less(a, b)
  {
    forall i, j | 0 <= i < |held| && 0 <= j < |asked| ensures held[i] in Elements(held) && asked[j] in Elements(asked) {
    }
  }

  /** One sorted call for two keys, and two calls for the same keys the other way round: the logged requests run into a deadlock. */
  method TwoCallsCanDeadlock(tenant: string, name: string, k: string, l: string)
    returns (one: ItemContext, two: ItemContext, ghost states: seq<State>, ghost steps: seq<Step>)
    requires Less(KeyName(tenant, name, k), KeyName(tenant, name, l))
    ensures DeadlockRun(states, steps, [1, 2], one.requests, two.requests)
    ensures Ordered(one.requests)
  {
    ghost var a, b := KeyName(tenant, name, k), KeyName(tenant, name, l);
    LessIsTotal(a, a);
    one := new ItemContext(tenant);
    two := new ItemContext(tenant);
    ghost var both := one.LockKeys(name, {k, l});
    ghost var first := two.LockKeys(name, {l});
    ghost var second := two.LockKeys(name, {k});
    OnlyElement(first, b);
    OnlyElement(second, a);
    TwoElements(both, a, b);
    KeysThenRowsAreOrdered(both, []);
    assert one.requests == [a, b] == both + [] && two.requests == [b, a];
    states, steps := OppositeOrders(a, b);
  }

  lemma OppositeOrders(a: Lock, b: Lock) returns (states: seq<State>, steps: seq<Step>)
    requires Less(a, b)
    ensures DeadlockRun(states, steps, [1, 2], [a, b], [b, a])
  {
    LessIsTotal(a, a);
    assert [a, b][..1] == [a] && [b, a][..1] == [b];
    assert CrossAt([a, b], [b, a], 1, 1);
    states, steps := InterlockDeadlocks([a, b], [b, a], 1, 1);
  }

  lemma OnlyElement(s: seq<Lock>, x: Lock)
    requires Ascending(s) && Elements(s) == {x}
    ensures s == [x]
  {
    AscendingIsUnique(s, [x]);
  }

  lemma TwoElements(s: seq<Lock>, x: Lock, y: Lock)
    requires Ascending(s) && Elements(s) == {x, y} && Less(x, y)
    ensures s == [x, y]
  {
    assert Elements([x, y]) == {x, y};
    AscendingIsUnique(s, [x, y]);
  }

  function RowLocks(table: nat, ids: seq<nat>): set<Lock> {
    set id | id in ids :: RowLock(table, id)
  }

  /** The requested locks are the existing rows among the wanted ones, in the same order. */
  ghost predicate ChosenFrom(wanted: seq<Lock>, asked: seq<Lock>, existing: set<nat>) {
    Ascending(asked) && forall l :: l in asked <==> l in wanted && l.RowLock? && l.id in existing
  }

  ghost predicate FoundAmong<R(!new)>(found: map<nat, R>, wanted: seq<Lock>, rows: map<nat, R>) {
    && (forall l :: l in wanted && l.RowLock? && l.id in rows ==> l.id in found)
    && (forall id :: id in found ==> id in rows && found[id] == rows[id] && exists l :: l in wanted && l.RowLock? && l.id == id)
  }

  lemma ChooseNext(wanted: seq<Lock>, i: nat, asked: seq<Lock>, existing: set<nat>)
    requires Ascending(wanted) && i < |wanted| && wanted[i].RowLock? && ChosenFrom(wanted[..i], asked, existing)
    ensures ChosenFrom(wanted[..i + 1], if wanted[i].id in existing then asked + [wanted[i]] else asked, existing)
  {
    assert wanted[..i + 1] == wanted[..i] + [wanted[i]];
    forall k | 0 <= k < |asked| ensures Less(asked[k], wanted[i]) {
      assert asked[k] in wanted[..i];
      var m :| 0 <= m < i && wanted[m] == asked[k];
    }
  }

  lemma WantedRows(table: nat, ids: seq<nat>, wanted: seq<Lock>)
    requires Elements(wanted) == RowLocks(table, ids)
    ensures forall l :: l in wanted <==> l.RowLock? && l.table == table && l.id in ids
  {
    forall l ensures l in wanted <==> l.RowLock? && l.table == table && l.id in ids {
      assert l in wanted <==> l in Elements(wanted);
    }
  }

  lemma AllRowsFound<R(!new)>(table: nat, ids: seq<nat>, wanted: seq<Lock>, asked: seq<Lock>, found: map<nat, R>, rows: map<nat, R>)
    requires Elements(wanted) == RowLocks(table, ids) && ChosenFrom(wanted, asked, rows.Keys) && FoundAmong(found, wanted, rows)
    ensures found == map id | id in ids && id in rows :: rows[id]
    ensures forall l :: l in asked <==> l.RowLock? && l.table == table && l.id in ids && l.id in rows
  {
    WantedRows(table, ids, wanted);
    forall id ensures id in found <==> id in ids && id in rows {
      assert id in ids ==> RowLock(table, id) in wanted;
    }
  }
}
