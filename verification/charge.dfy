/**
  The charge-authorization protocol of the backend: balance and lock keys, the
  `reset` operation, the decision taken inside the critical section, one
  uncontended-or-contended attempt of the pessimistic-lock `charge`, and the
  same attempt broken into the store calls at which a concurrent request can
  interleave.
 */
module Charge {
  import opened Wrappers
  import opened KeyValue

  /** The balance `reset` gives an account. */
  const DEFAULT_BALANCE: int := 100

  /**
    A JavaScript number as this code produces one: an integer, or the NaN that
    `parseInt` yields for a missing or non-numeric stored value.
   */
  datatype Number = Int(value: int) | NaN {

    /** `this - k`; NaN stays NaN. */
    function Minus(k: int): Number {
      match this
      case Int(v) => Int(v - k)
      case NaN => NaN
    }

    /** `this >= 0`, which is false for NaN. */
    predicate NonNegative() {
      Int? && value >= 0
    }
  }

  /** What `charge` returns to its caller. */
  datatype ChargeResult = ChargeResult(isAuthorized: bool, remainingBalance: Number, charges: int)

  /** The declined result the catch-all returns for any thrown error. */
  const Failed: ChargeResult := ChargeResult(false, Int(0), 0)

  /** The amount a result reports as taken from the balance. */
  function Debit(r: ChargeResult): int {
    if r.isAuthorized then r.charges else 0
  }

  /** `${account}/balance`: the account name followed by the suffix `/balance`. */
  function BalanceKey(account: string): (k: string)
    ensures |k| == |account| + 8
    ensures k[..|account|] == account && k[|account|..] == "/balance"
  {
    account + "/balance"
  }

  /** `resource_lock_${balanceKey}`: the prefix `resource_lock_` followed by the balance key. */
  function LockKey(account: string): (k: string)
    ensures |k| == |BalanceKey(account)| + 14
    ensures k[..14] == "resource_lock_" && k[14..] == BalanceKey(account)
  {
    "resource_lock_" + BalanceKey(account)
  }

  /** An account's lock key and balance key never coincide. */
  lemma LockKeyIsNotBalanceKey(account: string)
    ensures LockKey(account) != BalanceKey(account)
  {
  }

  /** Distinct accounts have distinct balance keys. */
  lemma BalanceKeyInjective(a: string, b: string)
    requires BalanceKey(a) == BalanceKey(b)
    ensures a == b
  {
    assert |a| == |b|;
    assert a == BalanceKey(a)[..|a|];
    assert b == BalanceKey(b)[..|b|];
  }

  /**
    The key scheme is not collision-free across accounts: the balance key of the
    account named `resource_lock_<a>` is the lock key of account `a`.
   */
  lemma BalanceKeyCanBeAnotherLockKey(account: string)
    ensures BalanceKey("resource_lock_" + account) == LockKey(account)
  {
  }

  /** `parseInt(value ?? "")` on a GET reply: a stored integer reads as itself, anything else as NaN. */
  function ParseBalance(v: Option<Value>): (n: Number)
    ensures n.Int? <==> v.Some? && v.value.Num?
    ensures n.Int? ==> v.value == Num(n.value)
  {
    match v
    case Some(Num(b)) => Int(b)
    case _ => NaN
  }

  /** A stored balance entry that holds a non-negative integer. */
  predicate NonNegativeEntry(v: Option<Value>) {
    v.Some? && v.value.Num? && v.value.n >= 0
  }

  /** `reset`: overwrite the account's balance with the default, without taking the lock. */
  function Reset(s: Store, account: string): (r: Store)
    ensures Get(r, BalanceKey(account)) == Some(Num(DEFAULT_BALANCE))
    ensures AgreeExcept(s, r, {BalanceKey(account)})
  {
    Set(s, BalanceKey(account), Num(DEFAULT_BALANCE))
  }

  /** Resetting twice is resetting once. */
  lemma ResetIdempotent(s: Store, account: string)
    ensures Reset(Reset(s, account), account) == Reset(s, account)
  {
  }

  /** The store after `reset` does not depend on the balance held before it. */
  lemma ResetForgetsPriorBalance(s: Store, t: Store, account: string)
    requires AgreeExcept(s, t, {BalanceKey(account)})
    ensures Reset(s, account) == Reset(t, account)
  {
    var rs := Reset(s, account);
    var rt := Reset(t, account);
    forall k ensures Get(rs, k) == Get(rt, k) {
      if k != BalanceKey(account) {
        assert Get(rs, k) == Get(s, k) == Get(t, k) == Get(rt, k);
      }
    }
    GetExtensional(rs, rt);
  }

  /** What the critical section decides from the balance it read: the balance to write, if any, and the result. */
  datatype Decision = Decision(write: Option<int>, result: ChargeResult)

  /** The check-and-debit decision of the critical section. */
  function Decide(balance: Number, charges: int): (d: Decision)
    ensures d.result.isAuthorized <==> balance.Int? && balance.value - charges >= 0
    ensures d.result.isAuthorized ==>
      && d.result == ChargeResult(true, Int(balance.value - charges), charges)
      && d.write == Some(balance.value - charges)
    ensures !d.result.isAuthorized ==> d.result == ChargeResult(false, balance, 0) && d.write == None
    ensures d.write.Some? ==> d.write.value >= 0
  {
    var newBalance := balance.Minus(charges);
    if newBalance.NonNegative() then
      Decision(Some(newBalance.value), ChargeResult(true, newBalance, charges))
    else
      Decision(None, ChargeResult(false, balance, 0))
  }

  /** How one attempt ends: with a result, or refused the lock and to be retried. */
  datatype Outcome = Done(result: ChargeResult) | Retry

  datatype AttemptResult = AttemptResult(outcome: Outcome, store: Store)

  /**
    One pass through the pessimistic-lock body of `charge` with no store call
    throwing and no other request running in between: take the lock with
    set-if-absent; if refused, retry; otherwise read, decide, write only an
    authorized balance, and delete the lock on both branches.
   */
  function Attempt(s: Store, account: string, charges: int, token: string): (a: AttemptResult)
    ensures Get(s, LockKey(account)).Some? ==> a == AttemptResult(Retry, s)
    ensures Get(s, LockKey(account)) == None ==>
      && a.outcome.Done?
      && Get(a.store, LockKey(account)) == None
      && AgreeExcept(s, a.store, {LockKey(account), BalanceKey(account)})
    ensures a.outcome.Done? ==>
      var balance := ParseBalance(Get(s, BalanceKey(account)));
      var r := a.outcome.result;
      && (r.isAuthorized <==> balance.Int? && balance.value - charges >= 0)
      && (r.isAuthorized ==>
            && r == ChargeResult(true, Int(balance.value - charges), charges)
            && Get(a.store, BalanceKey(account)) == Some(Num(balance.value - charges)))
      && (!r.isAuthorized ==>
            && r == ChargeResult(false, balance, 0)
            && Get(a.store, BalanceKey(account)) == Get(s, BalanceKey(account)))
    ensures Get(a.store, BalanceKey(account)) == Get(s, BalanceKey(account))
            || NonNegativeEntry(Get(a.store, BalanceKey(account)))
  {
    LockKeyIsNotBalanceKey(account);
    var balanceKey := BalanceKey(account);
    var lockKey := LockKey(account);
    var lock := SetIfAbsent(s, lockKey, Token(token));
    if !lock.written then
      AttemptResult(Retry, s)
    else
      var balance := ParseBalance(Get(lock.store, balanceKey));
      var d := Decide(balance, charges);
      var written := if d.write.Some? then Set(lock.store, balanceKey, Num(d.write.value)) else lock.store;
      AttemptResult(Done(d.result), Del(written, lockKey))
  }

  /** An attempt that finds the balance missing or non-numeric declines with NaN, writes no balance, and still releases the lock. */
  lemma MissingBalanceDeclines(s: Store, account: string, charges: int, token: string)
    requires Get(s, LockKey(account)) == None
    requires !(Get(s, BalanceKey(account)).Some? && Get(s, BalanceKey(account)).value.Num?)
    ensures Attempt(s, account, charges, token).outcome == Done(ChargeResult(false, NaN, 0))
    ensures Get(Attempt(s, account, charges, token).store, BalanceKey(account)) == Get(s, BalanceKey(account))
    ensures Get(Attempt(s, account, charges, token).store, LockKey(account)) == None
  {
  }

  // ---------------------------------------------------------------------------
  // The attempt split at its store calls, the points where `await` lets another
  // request run.

  /** How one store call ends: it completes, or it throws, before or after its effect reaches the store. */
  datatype Call = Completes | FailsUnapplied | FailsApplied

  /** The store after a call whose full effect would give `after`. */
  function Landed(call: Call, before: Store, after: Store): Store {
    if call == FailsUnapplied then before else after
  }

  /** Where one invocation of `charge` stands: before its next store call, or returned. */
  datatype Pc =
    | Acquiring                                     // next call: set-if-absent on the lock (again after a refusal)
    | Reading                                       // holds the lock; next call: get the balance
    | Writing(newBalance: int)                      // holds the lock; next call: set the balance
    | Releasing(result: ChargeResult)               // holds the lock; next call: delete the lock
    | Finished(result: ChargeResult, debited: int)  // returned `result`, having taken `debited` off the balance

  /** The invocation is between a successful acquire and its delete of the lock. */
  predicate HoldsLock(pc: Pc) {
    pc.Reading? || pc.Writing? || pc.Releasing?
  }

  datatype Config = Config(store: Store, pc: Pc)

  /**
    The next store call of an invocation at `pc`, ending as `call`. A throw
    anywhere goes to the catch-all and returns `Failed`; there is no `finally`,
    so a throw after the lock was taken leaves the lock key in place.
   */
  function Advance(s: Store, account: string, charges: int, pc: Pc, token: string, call: Call): (c: Config)
    ensures pc.Finished? ==> c == Config(s, pc)
    ensures call != Completes && !pc.Finished? ==> c.pc.Finished? && c.pc.result == Failed
    ensures AgreeExcept(s, c.store, {LockKey(account), BalanceKey(account)})
    ensures !pc.Writing? ==> Get(c.store, BalanceKey(account)) == Get(s, BalanceKey(account))
    ensures pc.Writing? ==>
      Get(c.store, BalanceKey(account)) == Get(s, BalanceKey(account))
      || Get(c.store, BalanceKey(account)) == Some(Num(pc.newBalance))
    ensures !pc.Acquiring? && !pc.Releasing? ==> Get(c.store, LockKey(account)) == Get(s, LockKey(account))
    ensures pc.Acquiring? && Get(s, LockKey(account)).Some? ==>
      c.store == s && (call == Completes ==> c.pc == Acquiring)
    ensures pc.Acquiring? && HoldsLock(c.pc) ==>
      Get(s, LockKey(account)) == None && Get(c.store, LockKey(account)) == Some(Token(token))
    ensures pc.Releasing? && call == Completes ==>
      Get(c.store, LockKey(account)) == None && c.pc == Finished(pc.result, Debit(pc.result))
  {
    LockKeyIsNotBalanceKey(account);
    match pc
    case Acquiring =>
      var lock := SetIfAbsent(s, LockKey(account), Token(token));
      if call != Completes then Config(Landed(call, s, lock.store), Finished(Failed, 0))
      else if lock.written then Config(lock.store, Reading)
      else Config(s, Acquiring)
    case Reading =>
      if call != Completes then Config(s, Finished(Failed, 0))
      else
        var d := Decide(ParseBalance(Get(s, BalanceKey(account))), charges);
        if d.write.Some? then Config(s, Writing(d.write.value)) else Config(s, Releasing(d.result))
    case Writing(newBalance) =>
      var written := Set(s, BalanceKey(account), Num(newBalance));
      if call == Completes then Config(written, Releasing(ChargeResult(true, Int(newBalance), charges)))
      else if call == FailsApplied then Config(written, Finished(Failed, charges))
      else Config(s, Finished(Failed, 0))
    case Releasing(result) =>
      var released := Del(s, LockKey(account));
      if call == Completes then Config(released, Finished(result, Debit(result)))
      else Config(Landed(call, s, released), Finished(Failed, Debit(result)))
    case Finished(_, _) =>
      Config(s, pc)
  }

  /**
    Run alone and with every call completing, the steps compose to `Attempt`:
    a refused acquire is a retry with nothing changed, and otherwise the read,
    the optional write and the release return the attempt's result.
   */
  lemma AttemptIsItsStepsRunAlone(s: Store, account: string, charges: int, token: string)
    ensures
      var c1 := Advance(s, account, charges, Acquiring, token, Completes);
      var a := Attempt(s, account, charges, token);
      if c1.pc == Acquiring then
        a == AttemptResult(Retry, c1.store)
      else
        var c2 := Advance(c1.store, account, charges, c1.pc, token, Completes);
        var c3 := if c2.pc.Writing? then Advance(c2.store, account, charges, c2.pc, token, Completes) else c2;
        var c4 := Advance(c3.store, account, charges, c3.pc, token, Completes);
        c4.pc.Finished? && a == AttemptResult(Done(c4.pc.result), c4.store)
  {
  }
}
