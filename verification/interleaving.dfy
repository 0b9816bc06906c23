/**
  Concurrent `charge` invocations on one account as interleavings of atomic
  store calls. A system state is the shared store and one program point per
  invocation; an event lets one invocation make its next store call. Lock
  expiry is not an event here (see the counterexample in Scenarios).
 */
module Interleaving {
  import opened Wrappers
  import opened KeyValue
  import opened Charge

  /** One in-flight `charge(account, charges)` request. */
  datatype Proc = Proc(charges: int, pc: Pc)

  datatype System = System(store: Store, procs: seq<Proc>)

  /** The scheduler lets invocation `pid` make its next call, with `token` as the lock value and `call` as how the call ends. */
  datatype Event = Event(pid: nat, token: string, call: Call)

  function Step(sys: System, account: string, e: Event): (t: System)
    ensures |t.procs| == |sys.procs|
    ensures forall j :: 0 <= j < |sys.procs| && j != e.pid ==> t.procs[j] == sys.procs[j]
    ensures forall j :: 0 <= j < |sys.procs| ==> t.procs[j].charges == sys.procs[j].charges
  {
    if e.pid < |sys.procs| then
      var p := sys.procs[e.pid];
      var c := Advance(sys.store, account, p.charges, p.pc, e.token, e.call);
      System(c.store, sys.procs[e.pid := Proc(p.charges, c.pc)])
    else
      sys
  }

  /** The state after the events of `trace`, in order. */
  function Run(sys: System, account: string, trace: seq<Event>): (t: System)
    ensures |t.procs| == |sys.procs|
    ensures forall j :: 0 <= j < |sys.procs| ==> t.procs[j].charges == sys.procs[j].charges
    decreases |trace|
  {
    if trace == [] then sys else Run(Step(sys, account, trace[0]), account, trace[1..])
  }

  /** No store call in the trace throws. */
  predicate FaultFree(trace: seq<Event>) {
    forall i :: 0 <= i < |trace| ==> trace[i].call == Completes
  }

  /** Requests about to be issued, with the given amounts. */
  function Spawn(amounts: seq<int>): (ps: seq<Proc>)
    ensures |ps| == |amounts|
    ensures forall i :: 0 <= i < |ps| ==> ps[i] == Proc(amounts[i], Acquiring)
  {
    if amounts == [] then [] else [Proc(amounts[0], Acquiring)] + Spawn(amounts[1..])
  }

  predicate AllFinished(sys: System) {
    forall i :: 0 <= i < |sys.procs| ==> sys.procs[i].pc.Finished?
  }

  // ---------------------------------------------------------------------------
  // Sums over the invocations

  function Sum(ps: seq<Proc>, f: Proc -> int): int {
    if ps == [] then 0 else f(ps[0]) + Sum(ps[1..], f)
  }

  lemma {:induction false} SumUpdate(ps: seq<Proc>, i: int, p: Proc, f: Proc -> int)
    requires 0 <= i < |ps|
    ensures Sum(ps[i := p], f) == Sum(ps, f) - f(ps[i]) + f(p)
  {
    if i > 0 {
      assert ps[i := p][1..] == ps[1..][i - 1 := p];
      SumUpdate(ps[1..], i - 1, p, f);
    }
  }

  lemma {:induction false} SumPointwiseLe(ps: seq<Proc>, f: Proc -> int, g: Proc -> int)
    requires forall i :: 0 <= i < |ps| ==> f(ps[i]) <= g(ps[i])
    ensures Sum(ps, f) <= Sum(ps, g)
  {
    if ps != [] {
      assert f(ps[0]) <= g(ps[0]);
      SumPointwiseLe(ps[1..], f, g);
    }
  }

  lemma {:induction false} SumScaled(ps: seq<Proc>, f: Proc -> int, g: Proc -> int, k: int)
    requires forall i :: 0 <= i < |ps| ==> f(ps[i]) == k * g(ps[i])
    ensures Sum(ps, f) == k * Sum(ps, g)
  {
    if ps != [] {
      assert f(ps[0]) == k * g(ps[0]);
      SumScaled(ps[1..], f, g, k);
    }
  }

  /** What an invocation has actually taken off the balance so far. */
  function Debited(p: Proc): int {
    match p.pc
    case Releasing(r) => Debit(r)
    case Finished(_, d) => d
    case _ => 0
  }

  /** What an invocation's decided result reports as charged (0 before it has decided). */
  function Committed(p: Proc): int {
    match p.pc
    case Releasing(r) => Debit(r)
    case Finished(r, _) => Debit(r)
    case _ => 0
  }

  /** 1 for an invocation that returned an authorized result, else 0. */
  function Authorizations(p: Proc): int {
    if p.pc.Finished? && p.pc.result.isAuthorized then 1 else 0
  }

  // ---------------------------------------------------------------------------
  // Invariants

  /** The balance key holds an integer. */
  predicate HasBalance(s: Store, account: string) {
    Get(s, BalanceKey(account)).Some? && Get(s, BalanceKey(account)).value.Num?
  }

  function BalanceOf(s: Store, account: string): int
    requires HasBalance(s, account)
  {
    Get(s, BalanceKey(account)).value.n
  }

  /** What a result decided at a balance read promises about itself. */
  predicate Reports(r: ChargeResult, charges: int) {
    && (r.isAuthorized ==> r.charges == charges && r.remainingBalance.NonNegative())
    && (!r.isAuthorized ==> r.charges == 0)
  }

  /** The per-invocation part of the invariant. */
  ghost predicate ProcOk(s: Store, account: string, p: Proc)
    requires HasBalance(s, account)
  {
    match p.pc
    case Acquiring => true
    case Reading => true
    case Writing(nb) => nb == BalanceOf(s, account) - p.charges && nb >= 0
    case Releasing(r) => Reports(r, p.charges)
    case Finished(r, d) => Reports(r, p.charges) && (d == Debit(r) || (r == Failed && d == p.charges))
  }

  /** Every invocation that holds the lock finds the lock key set. */
  ghost predicate LockedWhileHeld(sys: System, account: string) {
    forall i :: 0 <= i < |sys.procs| && HoldsLock(sys.procs[i].pc) ==> Get(sys.store, LockKey(account)).Some?
  }

  /** At most one invocation holds the lock. */
  ghost predicate MutualExclusion(sys: System) {
    forall i, j ::
      0 <= i < |sys.procs| && 0 <= j < |sys.procs| && HoldsLock(sys.procs[i].pc) && HoldsLock(sys.procs[j].pc)
      ==> i == j
  }

  /**
    The invariant of every interleaving, faults included: the balance is a
    non-negative integer, it plus everything debited is the default balance,
    the lock excludes, and each invocation's state is consistent.
   */
  ghost predicate Inv(sys: System, account: string) {
    && HasBalance(sys.store, account)
    && BalanceOf(sys.store, account) >= 0
    && BalanceOf(sys.store, account) + Sum(sys.procs, Debited) == DEFAULT_BALANCE
    && LockedWhileHeld(sys, account)
    && MutualExclusion(sys)
    && (forall i :: 0 <= i < |sys.procs| ==> ProcOk(sys.store, account, sys.procs[i]))
  }

  /** Right after `reset`, with the lock free and every request yet to make its first call. */
  ghost predicate Initial(sys: System, account: string) {
    && Get(sys.store, BalanceKey(account)) == Some(Num(DEFAULT_BALANCE))
    && Get(sys.store, LockKey(account)) == None
    && (forall i :: 0 <= i < |sys.procs| ==> sys.procs[i].pc == Acquiring)
  }

  /** Issuing requests right after a `reset` of a store whose lock key is free is an initial state. */
  lemma ResetStartsARun(s: Store, account: string, amounts: seq<int>)
    requires Get(s, LockKey(account)) == None
    ensures Initial(System(Reset(s, account), Spawn(amounts)), account)
  {
  }

  lemma {:induction false} SumOfUnstarted(ps: seq<Proc>, f: Proc -> int)
    requires forall i :: 0 <= i < |ps| ==> f(ps[i]) == 0
    ensures Sum(ps, f) == 0
  {
    if ps != [] {
      assert f(ps[0]) == 0;
      SumOfUnstarted(ps[1..], f);
    }
  }

  lemma InitialInv(sys: System, account: string)
    requires Initial(sys, account)
    ensures Inv(sys, account)
  {
    SumOfUnstarted(sys.procs, Debited);
  }

  /** A step that does not touch the balance key keeps every other invocation's state consistent. */
  lemma OthersStayOk(sys: System, t: System, account: string, i: int)
    requires Inv(sys, account)
    requires 0 <= i < |sys.procs| && |t.procs| == |sys.procs|
    requires forall j :: 0 <= j < |sys.procs| && j != i ==> t.procs[j] == sys.procs[j]
    requires Get(t.store, BalanceKey(account)) == Get(sys.store, BalanceKey(account))
    ensures HasBalance(t.store, account)
    ensures forall j :: 0 <= j < |t.procs| && j != i ==> ProcOk(t.store, account, t.procs[j])
  {
  }

  /** Every step preserves the invariant, whichever invocation moves and however its call ends. */
  lemma StepInv(sys: System, account: string, e: Event)
    requires Inv(sys, account)
    ensures Inv(Step(sys, account, e), account)
  {
    if e.pid >= |sys.procs| {
      return;
    }
    LockKeyIsNotBalanceKey(account);
    var i := e.pid;
    var p := sys.procs[i];
    var c := Advance(sys.store, account, p.charges, p.pc, e.token, e.call);
    var p' := Proc(p.charges, c.pc);
    var t := Step(sys, account, e);
    assert t == System(c.store, sys.procs[i := p']);
    SumUpdate(sys.procs, i, p', Debited);
    assert ProcOk(sys.store, account, p);
    match p.pc {
      case Acquiring =>
        OthersStayOk(sys, t, account, i);
        if HoldsLock(c.pc) {
          assert forall j :: 0 <= j < |sys.procs| && j != i ==> !HoldsLock(sys.procs[j].pc);
        }
      case Reading =>
        OthersStayOk(sys, t, account, i);
      case Writing(nb) =>
        assert forall j :: 0 <= j < |sys.procs| && j != i ==> !HoldsLock(sys.procs[j].pc);
        forall j | 0 <= j < |t.procs| && j != i
          ensures ProcOk(t.store, account, t.procs[j])
        {
          assert ProcOk(sys.store, account, sys.procs[j]);
        }
      case Releasing(r) =>
        OthersStayOk(sys, t, account, i);
        assert forall j :: 0 <= j < |sys.procs| && j != i ==> !HoldsLock(sys.procs[j].pc);
      case Finished(_, _) =>
        assert t == sys;
    }
  }

  lemma {:induction false} RunInv(sys: System, account: string, trace: seq<Event>)
    requires Inv(sys, account)
    ensures Inv(Run(sys, account, trace), account)
    decreases |trace|
  {
    if trace != [] {
      StepInv(sys, account, trace[0]);
      RunInv(Step(sys, account, trace[0]), account, trace[1..]);
    }
  }

  /** A refused acquire that completes is a stutter: the whole system is unchanged and the request stays at its retry. */
  lemma ContendedStepStutters(sys: System, account: string, e: Event)
    requires e.pid < |sys.procs| && sys.procs[e.pid].pc == Acquiring
    requires Get(sys.store, LockKey(account)).Some? && e.call == Completes
    ensures Step(sys, account, e) == sys
  {
  }

  /** The sum of the charges reported as authorized never exceeds the default balance, when no request asks for a negative amount. */
  lemma NoOverDebit(sys: System, account: string, trace: seq<Event>)
    requires Initial(sys, account)
    requires forall i :: 0 <= i < |sys.procs| ==> sys.procs[i].charges >= 0
    ensures Sum(Run(sys, account, trace).procs, Committed) <= DEFAULT_BALANCE
  {
    InitialInv(sys, account);
    RunInv(sys, account, trace);
    var t := Run(sys, account, trace);
    forall i | 0 <= i < |t.procs| ensures Committed(t.procs[i]) <= Debited(t.procs[i]) {
      assert ProcOk(t.store, account, t.procs[i]);
    }
    SumPointwiseLe(t.procs, Committed, Debited);
  }

  // ---------------------------------------------------------------------------
  // Interleavings in which no store call throws

  /** Some invocation holds the lock. */
  ghost predicate SomeHolder(sys: System) {
    exists i :: 0 <= i < |sys.procs| && HoldsLock(sys.procs[i].pc)
  }

  /**
    Without faults, additionally: every returned invocation debited exactly what
    its result reports, and the lock key is set only while someone holds it.
   */
  ghost predicate FaultFreeInv(sys: System, account: string) {
    && Inv(sys, account)
    && (forall i :: 0 <= i < |sys.procs| && sys.procs[i].pc.Finished? ==>
          sys.procs[i].pc.debited == Debit(sys.procs[i].pc.result))
    && (Get(sys.store, LockKey(account)).Some? ==> SomeHolder(sys))
  }

  lemma FaultFreeStepInv(sys: System, account: string, e: Event)
    requires FaultFreeInv(sys, account) && e.call == Completes
    ensures FaultFreeInv(Step(sys, account, e), account)
  {
    StepInv(sys, account, e);
    if e.pid >= |sys.procs| {
      return;
    }
    LockKeyIsNotBalanceKey(account);
    var i := e.pid;
    var p := sys.procs[i];
    var c := Advance(sys.store, account, p.charges, p.pc, e.token, e.call);
    var t := Step(sys, account, e);
    assert t.procs[i].pc == c.pc;
    if Get(t.store, LockKey(account)).Some? {
      if HoldsLock(c.pc) {
        assert HoldsLock(t.procs[i].pc);
      } else {
        assert Get(sys.store, LockKey(account)).Some?;
        var j :| 0 <= j < |sys.procs| && HoldsLock(sys.procs[j].pc);
        if j == i {
          assert false;
        }
        assert HoldsLock(t.procs[j].pc);
      }
    }
  }

  lemma {:induction false} FaultFreeRunInv(sys: System, account: string, trace: seq<Event>)
    requires FaultFreeInv(sys, account) && FaultFree(trace)
    ensures FaultFreeInv(Run(sys, account, trace), account)
    decreases |trace|
  {
    if trace != [] {
      FaultFreeStepInv(sys, account, trace[0]);
      FaultFreeRunInv(Step(sys, account, trace[0]), account, trace[1..]);
    }
  }

  lemma InitialFaultFreeInv(sys: System, account: string)
    requires Initial(sys, account)
    ensures FaultFreeInv(sys, account)
  {
    InitialInv(sys, account);
  }

  lemma {:induction false} SumPointwiseEq(ps: seq<Proc>, f: Proc -> int, g: Proc -> int)
    requires forall i :: 0 <= i < |ps| ==> f(ps[i]) == g(ps[i])
    ensures Sum(ps, f) == Sum(ps, g)
  {
    SumPointwiseLe(ps, f, g);
    SumPointwiseLe(ps, g, f);
  }

  /**
    Conservation: after a reset, along any fault-free interleaving, the current
    balance plus the charges reported as authorized is the default balance, the
    balance is never negative, and once every request has returned the lock key
    is free.
   */
  lemma Conservation(sys: System, account: string, trace: seq<Event>)
    requires Initial(sys, account) && FaultFree(trace)
    ensures var t := Run(sys, account, trace);
      && HasBalance(t.store, account)
      && BalanceOf(t.store, account) >= 0
      && BalanceOf(t.store, account) + Sum(t.procs, Committed) == DEFAULT_BALANCE
      && (AllFinished(t) ==> Get(t.store, LockKey(account)) == None)
  {
    InitialFaultFreeInv(sys, account);
    FaultFreeRunInv(sys, account, trace);
    var t := Run(sys, account, trace);
    forall i | 0 <= i < |t.procs| ensures Debited(t.procs[i]) == Committed(t.procs[i]) {
    }
    SumPointwiseEq(t.procs, Debited, Committed);
  }

  /** The lock key is set but no invocation holds the lock, as after a throw inside the critical section. */
  ghost predicate LeakedLock(sys: System, account: string) {
    Get(sys.store, LockKey(account)).Some? && !SomeHolder(sys)
  }

  /** A throw while reading or writing the balance returns `Failed` and leaves the lock set with no holder. */
  lemma ThrowInCriticalSectionLeaksLock(sys: System, account: string, e: Event)
    requires Inv(sys, account)
    requires e.pid < |sys.procs| && (sys.procs[e.pid].pc.Reading? || sys.procs[e.pid].pc.Writing?)
    requires e.call != Completes
    ensures Step(sys, account, e).procs[e.pid].pc.result == Failed
    ensures LeakedLock(Step(sys, account, e), account)
  {
  }

  /**
    Without expiry a leaked lock is never freed: along any interleaving, faults
    included, the lock stays set with no holder, no request ever enters the
    critical section, and the balance never changes.
   */
  lemma {:induction false} LeakedLockIsPermanent(sys: System, account: string, trace: seq<Event>)
    requires LeakedLock(sys, account)
    ensures LeakedLock(Run(sys, account, trace), account)
    ensures Get(Run(sys, account, trace).store, BalanceKey(account)) == Get(sys.store, BalanceKey(account))
    decreases |trace|
  {
    if trace != [] {
      var e := trace[0];
      var t := Step(sys, account, e);
      if e.pid < |sys.procs| {
        var p := sys.procs[e.pid];
        assert !HoldsLock(p.pc);
        var c := Advance(sys.store, account, p.charges, p.pc, e.token, e.call);
        assert !HoldsLock(c.pc);
        assert t.procs[e.pid].pc == c.pc;
        assert !SomeHolder(t);
      }
      LeakedLockIsPermanent(t, account, trace[1..]);
    }
  }

  /** The store expiring the lock key (`EX: 1`); not an event of `Run`, used only to exhibit what expiry breaks. */
  function Expire(sys: System, account: string): (t: System)
    ensures Get(t.store, LockKey(account)) == None
    ensures AgreeExcept(sys.store, t.store, {LockKey(account)})
    ensures t.procs == sys.procs
  {
    System(Del(sys.store, LockKey(account)), sys.procs)
  }
}
