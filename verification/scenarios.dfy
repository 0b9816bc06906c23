/**
  The behaviours the backend's own test exercises, and the one lock expiry
  allows, stated over the models of Charge and Interleaving.
 */
module Scenarios {
  import opened Wrappers
  import opened KeyValue
  import opened Charge
  import opened Interleaving

  /** `reset`, then charges of 30, 40 and 40 one after another: 70 left, 30 left, then a decline at 30. */
  lemma SequentialCharges(s: Store, account: string, token: string)
    requires Get(s, LockKey(account)) == None
    ensures
      var a1 := Attempt(Reset(s, account), account, 30, token);
      var a2 := Attempt(a1.store, account, 40, token);
      var a3 := Attempt(a2.store, account, 40, token);
      && a1.outcome == Done(ChargeResult(true, Int(70), 30))
      && a2.outcome == Done(ChargeResult(true, Int(30), 40))
      && a3.outcome == Done(ChargeResult(false, Int(30), 0))
      && Get(a3.store, BalanceKey(account)) == Some(Num(30))
      && Get(a3.store, LockKey(account)) == None
  {
  }

  /** The invariant of interleavings in which every request charges the whole default balance. */
  ghost predicate FullChargeInv(sys: System, account: string) {
    && FaultFreeInv(sys, account)
    && (forall i :: 0 <= i < |sys.procs| ==> sys.procs[i].charges == DEFAULT_BALANCE)
    && (BalanceOf(sys.store, account) == 0 || BalanceOf(sys.store, account) == DEFAULT_BALANCE)
    && (forall i :: 0 <= i < |sys.procs| && (sys.procs[i].pc.Releasing? || sys.procs[i].pc.Finished?) ==>
          && BalanceOf(sys.store, account) == 0
          && sys.procs[i].pc.result.remainingBalance == Int(0))
  }

  lemma FullChargeStepInv(sys: System, account: string, e: Event)
    requires FullChargeInv(sys, account) && e.call == Completes
    ensures FullChargeInv(Step(sys, account, e), account)
  {
    FaultFreeStepInv(sys, account, e);
    if e.pid >= |sys.procs| {
      return;
    }
    LockKeyIsNotBalanceKey(account);
    var i := e.pid;
    var p := sys.procs[i];
    assert ProcOk(sys.store, account, p);
    var t := Step(sys, account, e);
    if p.pc.Writing? {
      assert BalanceOf(sys.store, account) == DEFAULT_BALANCE;
      assert forall j :: 0 <= j < |sys.procs| ==> !(sys.procs[j].pc.Releasing? || sys.procs[j].pc.Finished?);
    }
  }

  lemma {:induction false} FullChargeRunInv(sys: System, account: string, trace: seq<Event>)
    requires FullChargeInv(sys, account) && FaultFree(trace)
    ensures FullChargeInv(Run(sys, account, trace), account)
    decreases |trace|
  {
    if trace != [] {
      FullChargeStepInv(sys, account, trace[0]);
      FullChargeRunInv(Step(sys, account, trace[0]), account, trace[1..]);
    }
  }

  /**
    Any number of concurrent requests each charging the whole default balance,
    issued right after a reset and interleaved in any order without faults:
    once all have returned, exactly one was authorized, every result reports a
    remaining balance of 0, the balance is 0 and the lock key is free.
   */
  lemma ConcurrentFullCharges(sys: System, account: string, trace: seq<Event>)
    requires Initial(sys, account) && |sys.procs| >= 1
    requires forall i :: 0 <= i < |sys.procs| ==> sys.procs[i].charges == DEFAULT_BALANCE
    requires FaultFree(trace)
    requires AllFinished(Run(sys, account, trace))
    ensures
      var t := Run(sys, account, trace);
      && Sum(t.procs, Authorizations) == 1
      && (forall i :: 0 <= i < |t.procs| ==> t.procs[i].pc.result.remainingBalance == Int(0))
      && HasBalance(t.store, account)
      && BalanceOf(t.store, account) == 0
      && Get(t.store, LockKey(account)) == None
  {
    InitialFaultFreeInv(sys, account);
    FullChargeRunInv(sys, account, trace);
    Conservation(sys, account, trace);
    var t := Run(sys, account, trace);
    assert t.procs[0].pc.Finished?;
    forall i | 0 <= i < |t.procs|
      ensures Committed(t.procs[i]) == DEFAULT_BALANCE * Authorizations(t.procs[i])
    {
      assert ProcOk(t.store, account, t.procs[i]);
    }
    SumScaled(t.procs, Committed, Authorizations, DEFAULT_BALANCE);
  }

  /**
    The backend test's case: four requests of 100 after a reset. The test sends
    three at once and the fourth only after those return; that is one of the
    schedules covered here. The test also expects the first of the three in
    particular to win, which the code does not guarantee (a refused request
    retries with no ordering), so only "exactly one is authorized" is proved.
   */
  lemma FourConcurrentCharges(s: Store, account: string, trace: seq<Event>)
    requires Get(s, LockKey(account)) == None
    requires FaultFree(trace)
    requires AllFinished(Run(System(Reset(s, account), Spawn([100, 100, 100, 100])), account, trace))
    ensures
      var t := Run(System(Reset(s, account), Spawn([100, 100, 100, 100])), account, trace);
      && |t.procs| == 4
      && Sum(t.procs, Authorizations) == 1
      && (forall i :: 0 <= i < |t.procs| ==> t.procs[i].pc.result.remainingBalance == Int(0))
  {
    var amounts := [100, 100, 100, 100];
    ResetStartsARun(s, account, amounts);
    ConcurrentFullCharges(System(Reset(s, account), Spawn(amounts)), account, trace);
  }

  /** Invocation `pid` makes its next call, which completes. */
  function Go(pid: nat): Event {
    Event(pid, "t", Completes)
  }

  /**
    With lock expiry, mutual exclusion fails: the lock of the first request
    expires mid-section, a second request takes it, the first request's
    unconditional delete then frees the second's lock, and both charges of 100
    are authorized against a balance of 100.
   */
  lemma ExpiryBreaksConservation(account: string)
    ensures
      var s0 := System(Reset(map[], account), Spawn([100, 100]));
      var s1 := Step(Step(s0, account, Go(0)), account, Go(0));  // first acquires, reads 100
      var s2 := Expire(s1, account);                               // its lock expires
      var s3 := Step(Step(s2, account, Go(1)), account, Go(1));  // second acquires, reads 100
      var s4 := Step(Step(s3, account, Go(0)), account, Go(0));  // first writes 0, deletes the second's lock
      var s5 := Step(Step(s4, account, Go(1)), account, Go(1));  // second writes 0 and releases
      && HoldsLock(s4.procs[1].pc) && Get(s4.store, LockKey(account)) == None
      && s5.procs == [Proc(100, Finished(ChargeResult(true, Int(0), 100), 100)),
                      Proc(100, Finished(ChargeResult(true, Int(0), 100), 100))]
      && Get(s5.store, BalanceKey(account)) == Some(Num(0))
      && Sum(s5.procs, Committed) == 2 * DEFAULT_BALANCE
  {
    LockKeyIsNotBalanceKey(account);
    var bk, lk := BalanceKey(account), LockKey(account);
    var s0 := System(Reset(map[], account), Spawn([100, 100]));
    assert s0.procs == [Proc(100, Acquiring), Proc(100, Acquiring)];
    assert Get(s0.store, bk) == Some(Num(100)) && Get(s0.store, lk) == None;

    var a := Step(s0, account, Go(0));
    assert a.procs == [Proc(100, Reading), Proc(100, Acquiring)];
    assert Get(a.store, bk) == Some(Num(100)) && Get(a.store, lk).Some?;
    var s1 := Step(a, account, Go(0));
    assert s1.procs == [Proc(100, Writing(0)), Proc(100, Acquiring)];
    assert Get(s1.store, bk) == Some(Num(100));

    var s2 := Expire(s1, account);
    assert Get(s2.store, bk) == Some(Num(100)) && Get(s2.store, lk) == None;

    var b := Step(s2, account, Go(1));
    assert b.procs == [Proc(100, Writing(0)), Proc(100, Reading)];
    assert Get(b.store, bk) == Some(Num(100)) && Get(b.store, lk).Some?;
    var s3 := Step(b, account, Go(1));
    assert s3.procs == [Proc(100, Writing(0)), Proc(100, Writing(0))];
    assert Get(s3.store, bk) == Some(Num(100)) && Get(s3.store, lk).Some?;

    var c := Step(s3, account, Go(0));
    assert c.procs == [Proc(100, Releasing(ChargeResult(true, Int(0), 100))), Proc(100, Writing(0))];
    assert Get(c.store, bk) == Some(Num(0));
    var s4 := Step(c, account, Go(0));
    assert s4.procs == [Proc(100, Finished(ChargeResult(true, Int(0), 100), 100)), Proc(100, Writing(0))];
    assert Get(s4.store, bk) == Some(Num(0)) && Get(s4.store, lk) == None;

    var d := Step(s4, account, Go(1));
    assert d.procs == [Proc(100, Finished(ChargeResult(true, Int(0), 100), 100)),
                       Proc(100, Releasing(ChargeResult(true, Int(0), 100)))];
    var s5 := Step(d, account, Go(1));
    var done := Proc(100, Finished(ChargeResult(true, Int(0), 100), 100));
    assert s5.procs == [done, done];
    assert Get(s5.store, bk) == Some(Num(0));
    assert Committed(done) == 100;
    assert Sum([done, done], Committed) == 200 by {
      assert [done][1..] == [];
      assert Sum([done], Committed) == 100;
      assert [done, done][1..] == [done];
    }
  }
}
