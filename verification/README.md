# Charge authorization with a pessimistic store lock — a Dafny model

The backend authorizes charges against a per-account balance held in a shared
Redis store. `reset(account)` writes the default balance of 100 to
`<account>/balance`. `charge(account, charges)` takes the lock key
`resource_lock_<account>/balance` with `SET … NX`, reads the balance, debits it
only if the result stays non-negative, deletes the lock, and retries when the
lock was taken. Any thrown error becomes the declined result
`{isAuthorized: false, remainingBalance: 0, charges: 0}`.

The model has five modules:

- `Wrappers` — `Option`.
- `KeyValue` — the store as an immutable `map<string, Value>`. The four calls the
  protocol uses (`Get`, `Set`, `SetIfAbsent` for `SET … NX`, `Del`) are each one
  atomic step. `Value` is an integer or an opaque lock token.
- `Charge` — `DEFAULT_BALANCE`, `ChargeResult`, the key derivation and `Reset`.
  It also has the critical-section decision `Decide` and one pass of the
  pessimistic-lock body as `Attempt`, which returns `Done(result)` or `Retry`.
  `Retry` stands in for the recursive call. `Advance` is the same body cut at
  its four store calls, the `await` points where another request can run. Each
  call may complete or throw. A throw can happen before the call's effect
  reaches the store or after it. `remainingBalance` is a `Number`, either an
  integer or NaN, because `parseInt` of a missing value gives NaN and the code
  returns that NaN as the remaining balance.
- `Interleaving` — any number of concurrent `charge` requests on one account,
  as arbitrary schedules of their store calls. `Inv` holds on every schedule,
  faults included:
  - the balance is a non-negative integer;
  - the balance plus what each request has actually debited equals 100;
  - at most one request holds the lock, and the lock key is set while it does.

  On fault-free schedules the balance plus the charges reported as authorized
  equals 100, and the lock key is free once every request has returned.
- `Scenarios` — the sequential example (reset, then 30, 40, 40), the
  concurrent test of `backend/test.ts` generalized to any number of requests
  of 100, and a trace showing that lock expiry breaks mutual exclusion.

Behaviours of the code the model keeps:

- When four charges of 100 race after a reset, the three declined requests
  report `remainingBalance` 0, the balance they read after the winner's debit
  (backend/app.ts:63, 72).
- A missing or non-numeric balance does not throw. The request declines with
  `{false, NaN, 0}`, writes nothing, and still deletes the lock
  (backend/app.ts:63-75).
- `charge` does not check that `charges >= 0`, so the model accepts any integer.
  The committed balance stays non-negative for any sign. The bound "authorized
  charges never exceed the starting balance" needs non-negative amounts.
- There is no `finally`. A throw after the lock was taken skips the `del`, so the
  lock is freed only by its one-second TTL. With no expiry in the model, such a
  lock stays forever (`LeakedLockIsPermanent`).
- The key scheme is not collision-free. The balance key of the account
  `resource_lock_<a>` is the lock key of account `a`
  (`BalanceKeyCanBeAnotherLockKey`). The real lock value is an ISO timestamp
  (backend/app.ts:58), and `parseInt` of it gives the year, not NaN. So a charge
  on `resource_lock_<a>` made while `a` holds its lock reads a balance of about
  the current year, and writes a number over `a`'s lock that carries no TTL. The
  model's `ParseBalance` reads every lock token as NaN and does not show this.

## Model

| member | source | states |
|---|---|---|
| `KeyValue.Get` | backend/app.ts:63 | `client.get`: a value exactly when the key is present, and then the value stored under it |
| `KeyValue.SetIfAbsent` | backend/app.ts:58 | writes exactly when the key is absent and reports whether it wrote; a refused call leaves the store unchanged |
| `KeyValue.Set` | backend/app.ts:68 | the key then reads back the written value and no other key changes |
| `KeyValue.Del` | backend/app.ts:75 | the key then reads as absent and no other key changes |
| `KeyValue.SetIfAbsentThenDel` | backend/app.ts:58-75 | taking a free lock and deleting it restores the store exactly |
| `Charge.BalanceKey` | backend/app.ts:54 | the balance key is the account name followed by `/balance` |
| `Charge.LockKey` | backend/app.ts:55 | the lock key is `resource_lock_` followed by the account's balance key |
| `Charge.LockKeyIsNotBalanceKey` | backend/app.ts:54-55 | an account's lock key differs from its balance key |
| `Charge.BalanceKeyInjective` | backend/app.ts:54 | different accounts have different balance keys |
| `Charge.BalanceKeyCanBeAnotherLockKey` | backend/app.ts:54-55 | the balance key of account `resource_lock_<a>` equals the lock key of `a` |
| `Charge.ParseBalance` | backend/app.ts:63 | a stored integer reads as that integer; an absent or non-numeric entry reads as NaN |
| `Charge.Reset` | backend/app.ts:13-15 | the balance key then holds 100 and no other key changes |
| `Charge.ResetIdempotent` | backend/app.ts:13-15 | resetting twice equals resetting once |
| `Charge.ResetForgetsPriorBalance` | backend/app.ts:13-15 | the store after a reset does not depend on the balance before it |
| `Charge.Decide` | backend/app.ts:64-73 | authorizes iff the read balance is a number and balance − charges ≥ 0; authorized writes and reports balance − charges with the requested charges; declined writes nothing and reports the read balance with charges 0; a write is never negative |
| `Charge.Attempt` | backend/app.ts:53-83 | a taken lock gives Retry with the store unchanged; a free lock gives Done, leaves the lock key absent and changes no key but the lock and balance keys; authorized iff read balance − charges ≥ 0, with the new balance stored; a decline leaves the balance entry as it was; a changed balance is a non-negative integer |
| `Charge.MissingBalanceDeclines` | backend/app.ts:63-75 | with a missing or non-numeric balance the attempt returns {false, NaN, 0}, leaves the balance entry alone and still deletes the lock |
| `Charge.Advance` | backend/app.ts:53-99 | any throw ends the request with the catch-all result {false, 0, 0}; only the write step changes the balance key, and only to the decided balance; only acquire and release touch the lock key; an acquire succeeds only on a free lock; a completed release frees the lock and returns the decided result; no other key changes |
| `Charge.AttemptIsItsStepsRunAlone` | backend/app.ts:58-77 | the store-call steps run back to back without faults compose to `Attempt` |
| `Interleaving.Step` | backend/app.ts:58-82 | a scheduled event moves only its own request and never changes any request's amount |
| `Interleaving.Run` | backend/app.ts:58-82 | a schedule keeps the set of requests and their amounts |
| `Interleaving.ResetStartsARun` | backend/app.ts:13-15 | requests issued after a reset of a store with a free lock start from balance 100 with the lock free |
| `Interleaving.StepInv` | backend/app.ts:58-99 | every store call of every request, faulting or not, preserves non-negativity of the balance, the debit ledger, mutual exclusion and per-request consistency |
| `Interleaving.RunInv` | backend/app.ts:53-99 | the invariant holds after any schedule |
| `Interleaving.ContendedStepStutters` | backend/app.ts:78-82 | a refused acquire changes neither the store nor any request, and the request stays at its retry point |
| `Interleaving.NoOverDebit` | backend/app.ts:63-73 | with non-negative amounts the charges reported as authorized never sum to more than 100, faults included |
| `Interleaving.FaultFreeStepInv` | backend/app.ts:58-77 | without throws a returned request debited exactly what it reports, and the lock key is set only while someone holds it |
| `Interleaving.FaultFreeRunInv` | backend/app.ts:53-83 | that fault-free invariant holds after any fault-free schedule |
| `Interleaving.Conservation` | backend/app.ts:54-77 | after a reset and any fault-free schedule, the balance is non-negative, the balance plus the authorized charges equals 100, and once all requests have returned the lock key is free |
| `Interleaving.ThrowInCriticalSectionLeaksLock` | backend/app.ts:60-99 | a throw while reading or writing returns {false, 0, 0} and leaves the lock key set with no holder |
| `Interleaving.LeakedLockIsPermanent` | backend/app.ts:58-82 | without expiry a leaked lock stays set with no holder along every schedule, and the balance never changes |
| `Interleaving.Expire` | backend/app.ts:58 | TTL expiry removes the lock key and nothing else |
| `Scenarios.SequentialCharges` | backend/app.ts:63-73 | reset, then charges of 30, 40, 40 give {true, 70, 30}, {true, 30, 40}, {false, 30, 0}, leaving balance 30 and the lock free |
| `Scenarios.FullChargeStepInv` | backend/app.ts:63-73 | with every request charging 100 and no throws, the balance is 0 or 100, and is 0 as soon as any request has decided; every decided result reports a remaining balance of 0 |
| `Scenarios.FullChargeRunInv` | backend/app.ts:63-73 | that invariant holds after any fault-free schedule |
| `Scenarios.ConcurrentFullCharges` | backend/test.ts:42-57 | any number ≥ 1 of concurrent charges of 100 after a reset, in any fault-free order: once all have returned, exactly one is authorized, all report remaining balance 0, the balance is 0 and the lock is free |
| `Scenarios.FourConcurrentCharges` | backend/test.ts:46-57 | the test's four charges of 100: exactly one authorized, each reporting remaining balance 0 |
| `Scenarios.ExpiryBreaksConservation` | backend/app.ts:58-75 | with the lock expiring mid-section, the first request's delete frees the second's lock while the second still holds it, and both charges of 100 are authorized against a balance of 100 |

## Left out

- HTTP routing, body parsing, default amounts, status codes, `requestCount` and logging (backend/app.ts:109-139): transport plumbing around the two operations.
- The `beforeExit` disconnect, `backend/redis.ts` and `backend/local.ts`: connection setup and bootstrap. They are not part of this model.
- The `sleep(10)` backoff and the ISO timestamp lock value. Timing has no effect on the invariants. The lock value is an opaque token supplied by the scheduler's event.
- Lock TTL expiry as a schedule event. It appears only in `Scenarios.ExpiryBreaksConservation`, to show what it breaks. No invariant is claimed under expiry.
- The commented-out strategies: naive read/write, WATCH/MULTI, and DECRBY with compensation. They are dead code.
- The latency harness of `backend/test.ts`, `calculateAverage` and `calculatePercentile`: floating-point benchmarking over a network client.
- Amounts are integers. The source's `charges` is a JavaScript number and may be fractional. A charge of 0.5 writes `"99.5"` (backend/app.ts:64, 68), which the next `parseInt` (backend/app.ts:63) reads as 99. So the source loses value on non-integer amounts, and `Interleaving.Conservation` does not cover them.
- String/number conversion. Balances are stored as integers. A non-numeric entry stands for every value `parseInt` turns into NaN. Numeric-prefix strings and JavaScript's floating-point number range are not modelled.
- Errors from `reset`, which the HTTP layer turns into a 500, are not modelled. `Reset` always succeeds.
- A `reset` racing with charges. Schedules start right after a reset and contain no reset events.
- Several accounts in one system. Each system concerns one account.
- Liveness and fairness. Nothing proves that a schedule lets every request finish, so `Scenarios.ConcurrentFullCharges` assumes that all requests have returned.
- The unbounded recursion of the retry. It is a request staying at `Acquiring` (or `Retry` from `Attempt`) for as long as the schedule keeps it refused. No bound on retries is modelled, since the code has none.
- Interleaving.NoOverDebit: requires every amount to be non-negative. With negative amounts, a throw after a landed write can raise the balance while reporting a decline.
- Interleaving.Conservation: stated for fault-free schedules only. A throw after a landed write, or at the delete, reports a decline for a debit that was committed. On schedules with faults, `Inv` keeps the ledger exact in terms of what was actually debited.
