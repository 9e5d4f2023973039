# Bank transfer service — a Dafny model

This project models the money-transfer core of a small Node.js service backed by
PostgreSQL. A transfer `{from, to, amount}` goes through these steps:

- It is first **debounced**: an identical request seen within the last 5000 ms is
  refused with `Debounce_Request`.
- It then gets a pooled connection and runs one transaction on it:
  - `begin`;
  - lock the sender row with `select … for update`;
  - refuse an unknown sender or a balance below the amount;
  - debit the sender;
  - credit the receiver, refusing an unknown one;
  - insert a record into `transactions`;
  - `commit`.
  Any failure rolls the transaction back.
- The connection is released whatever happened.
- Every failure becomes a resolved `{error}` reply:
  - a user error, meaning one tagged by `clientErr`, replies with its code;
  - anything else replies `Internal_Error`.

The refactored service is split into `transferDAL`, `transferUtils`,
`transferErrors` and `transferController`. It also refuses a transfer to
oneself. The older single-file prototype `src/app.js` runs the same
transaction without that check. It debounces with a 1000 ms default window and
classifies errors by membership in a `Set` of client errors. The model also
covers three more pieces:

- the request validator;
- the two small "operational error" helpers;
- the prototype's own errors.

Modules:

- `Ledger`: the value-level meaning of a transfer.
  - `Execute` is the statement sequence shared by both versions.
  - `ExecuteChecked` adds the self-transfer refusal.
  - The module also holds the invariants of a run of transfers: no negative
    balance, money conserved, the ledger append-only.
- `Database`: the tables, the pool and a pooled connection as mutable objects.
  - Every statement a connection issues is logged.
  - A rollback restores the tables from the snapshot taken at `begin`.
  - The `SERIAL` reference counter is not rolled back, as in PostgreSQL.
- `ErrorObject`, `TransferErrors`, `ErrorManagement`, `LibErrors`: JavaScript
  `Error` objects as heap objects. `clientErr` and `markAsOperationalError`
  mutate them.
- `Timers`: a JavaScript `Set` whose members are deleted by `setTimeout`
  callbacks. An explicit clock (`AdvanceTo`) stands in for the event loop.
- `DecimalText`: the rendering of numbers inside the template literal
  `${from}!${to}!${amount}`. It also holds the parse that inverts the rendering,
  which is used to prove the debounce key injective.
- `TransferUtils`, `TransferDal`, `TransferController`,
  `TransferDetailsValidator`: the refactored service.
- `PrototypeApp`: `src/app.js`.

Money is a whole number of cents, which fits the `NUMERIC(12,2)` columns of the
schema. The schema's `CHECK (balance >= 0)` is modelled as a credit statement
that fails, and the transaction then rolls back. Because the data-access code
does not validate the amount, this is reachable only with a negative amount.

Three points where the code does not do what it evidently means:

- The data-access module and the validator read their errors from
  `transferErrors`, a name the errors module does not export. As written, every
  business failure therefore throws a TypeError and is replied as
  `Internal_Error`. `TransferController.HandleFaultAsWritten` models that
  behaviour. The service members (`TransferDal.InsertTransfer`,
  `TransferController.CheckDbClientErrs`, `TransferController.TransferController.HandleTransfer`
  and `.Transact`) use the corrected lookup in `clientErrs`, so each failure
  replies its own code (see Findings).
- `handleErr` consults `isClientError`, a flag no error ever carries. It only
  decides whether to log, so every error is logged and the reply is unaffected.
- The controller never calls the validator. The controller and data-access
  models take any request of three integers, including one the validator would
  refuse. Bodies with missing fields are out of scope (see Left out).

## Model

| member | source | states |
|---|---|---|
| Ledger.ExecuteCases | src/api/transfer/transferDAL.js:13-52 | each outcome happens exactly when its guard holds: unknown sender; balance below the amount; unknown receiver; a credit that would break the balance check; otherwise commit |
| Ledger.CommitEffect | src/api/transfer/transferDAL.js:26-52 | a commit debits the sender, credits the receiver and appends one record `(reference, amount, from)` with a fresh reference. It reports the sender's balance after the debit |
| Ledger.SelfTransferCommits | src/app.js:25-71 | without a self check, a covered transfer to oneself commits, leaves every balance unchanged and still appends a record |
| Ledger.SelfTransferRefused | src/api/transfer/transferDAL.js:5 | the refactored routine refuses `from === to` as an invalid receiver before issuing any statement, so the store is unchanged |
| Ledger.ExecuteKeepsNonNegative | src/api/transfer/transferDAL.js:22-39 | from non-negative balances, both routines leave every balance non-negative |
| Ledger.ExecuteConservesTotal | src/api/transfer/transferDAL.js:26-39 | with either routine, a transfer neither creates nor destroys money: the sum of all balances is unchanged |
| Ledger.RunInvariants | src/api/transfer/transferDAL.js:12-56 | over any sequence of transfers: balances stay non-negative, the total is conserved, no account appears or disappears, the old ledger is a prefix of the new one, and the ledger grows by exactly the number of commits |
| Database.Pool.Connect | src/lib/db/index.js:18 | `pool.connect()` hands out one fresh idle connection and counts it, or fails without effect |
| Database.Connection.Begin | src/api/transfer/transferDAL.js:13 | logs `begin` and snapshots the tables when no transaction is open |
| Database.Connection.SelectForUpdate | src/api/transfer/transferDAL.js:16-20 | returns the sender's balance, or no row for an unknown account; nothing changes |
| Database.Connection.Debit | src/api/transfer/transferDAL.js:26-31 | the guarded update subtracts the amount only from a row holding at least the amount and returns the new balance; otherwise it matches no row |
| Database.Connection.Credit | src/api/transfer/transferDAL.js:35-39 | adds the amount and returns the account number; an unknown account matches no row; a result below zero fails without effect |
| Database.Connection.InsertRecord | src/api/transfer/transferDAL.js:43-47 | appends one record and returns the next reference; the counter advances by one |
| Database.Connection.Commit | src/api/transfer/transferDAL.js:51 | logs `commit` and closes the transaction, keeping its effects |
| Database.Connection.Rollback | src/api/transfer/transferDAL.js:54 | restores balances and ledger to the snapshot taken at `begin`; the reference counter keeps its value |
| Database.Connection.Release | src/api/transfer/transferController.js:12 | gives the connection back to the pool exactly once, without touching the session (statement log, transaction flag, snapshot) |
| ErrorObject.Error.constructor | src/api/transfer/transferErrors.js:25-28 | `new Error(message)` carries the message and none of the flags |
| TransferErrors.ClientErr | src/api/transfer/transferErrors.js:1-5 | returns the same object, marked as a user error whose code is its message; nothing else changes |
| TransferErrors.ClientErrs.constructor | src/api/transfer/transferErrors.js:25-35 | the four exported errors are distinct user errors with codes `Insufficient_Funds`, `Invalid_Sender`, `Invalid_Receiver`, `Debounce_Request` |
| TransferErrors.ClientErrorFor | src/api/transfer/transferErrors.js:30-35 | the exported error for each business failure is a user error whose message is that failure's code |
| TransferErrors.TransferErrorsAsWritten | src/api/transfer/transferDAL.js:1 | reading a property of the undefined `transferErrors` raises a fresh TypeError that is not a user error |
| Timers.ExpiringSet.constructor | src/api/transfer/transferUtils.js:14 | a new set is empty with no callbacks pending |
| Timers.ExpiringSet.Add | src/api/transfer/transferUtils.js:18-19 | adds the key and schedules exactly one deletion at `now + delay` (Node's 1 ms for an out-of-range delay). It keeps one callback per key when the key was absent |
| Timers.ExpiringSet.AdvanceTo | src/api/transfer/transferUtils.js:19 | letting time pass runs exactly the callbacks that have come due, deletes their keys and keeps the others pending |
| DecimalText.NatTextRoundTrip | src/api/transfer/transferUtils.js:25 | the decimal rendering of a natural number parses back to it |
| DecimalText.IntTextRoundTrip | src/api/transfer/transferUtils.js:25 | the rendering of an account number (sign included) parses back to it |
| DecimalText.CentsTextRoundTrip | src/api/transfer/transferUtils.js:25 | the JavaScript rendering of an amount (`10`, `10.5`, `10.05`, `-0.05`) parses back to the amount in cents |
| TransferUtils.TxKeyRoundTrip | src/api/transfer/transferUtils.js:25 | splitting the key at its two `!` separators recovers the request |
| TransferUtils.TxKeyInjective | src/api/transfer/transferUtils.js:25 | two requests get the same debounce key if and only if they are equal |
| TransferUtils.Cache.CheckSert | src/api/transfer/transferUtils.js:15-21 | refuses with `DebounceReq` exactly when the key is present, changing nothing. Otherwise it inserts the key and schedules its deletion `expire` ms later. No other key's membership changes |
| TransferUtils.Debouncer.DebounceTx | src/api/transfer/transferUtils.js:27-31 | `checkSert` of the request's key with a 5000 ms window: refused exactly when the key is cached |
| TransferDal.TransactionStatements | src/api/transfer/transferDAL.js:12-56 | every transaction starts with `begin` and the sender lock, and ends with `commit` when it commits and `rollback` otherwise |
| TransferDal.InsertTransfer | src/api/transfer/transferDAL.js:4-57 | with the corrected error lookup: the tables end as `ExecuteChecked` says, with exactly the statements of that outcome issued. A commit resolves the payload (sender balance after the debit, new reference). A business failure rejects with its client error; a refused credit rejects with a database error that is not a user error |
| TransferDetailsValidator.Validate | src/api/transfer/transferDetailsValidator.js:4-22 | accepts exactly when there are no unknown keys, both account numbers are present and at least 1, the amount is present and above 0, and `from !== to`; a missing body is `{}` |
| TransferDetailsValidator.ValidatedRequestOutcomes | src/api/transfer/transferDetailsValidator.js:19 | for a validated request the self check is moot and the balance check can never fire. It commits whenever both accounts exist and the funds suffice |
| TransferController.HandleErr | src/api/transfer/transferController.js:15-19 | always resolves: a user error replies its code, anything else `Internal_Error` |
| TransferController.FaultsReportDistinctCodes | src/api/transfer/transferController.js:17 | with the corrected error lookup, each business failure replies its own code, and two failures reply alike only if they are the same |
| TransferController.CheckDbClientErrs | src/api/transfer/transferController.js:6-13 | with the corrected error lookup: runs the transaction and releases the connection exactly once, whether it resolved or rejected. The reply matches the transaction's outcome |
| TransferController.TransferController.HandleTransfer | src/api/transfer/transferController.js:21-25 | with the corrected error lookup: a cached key replies `Debounce_Request` without touching the cache, the pool or the tables. A pool failure replies `Internal_Error`. Otherwise one connection runs `ExecuteChecked` and the reply reports its outcome. No connection stays checked out, and the key ends up cached |
| TransferController.TransferController.Transact | src/api/transfer/transferController.js:23-25 | with the corrected error lookup: connect, transact, release, classify. The tables follow `ExecuteChecked` and the pool count returns to where it was |
| TransferController.RepeatInsideWindow | src/api/transfer/transferUtils.js:27-31 | a second identical request less than 5000 ms after the first is refused with `Debounce_Request` and takes no connection |
| TransferController.AdmittedAfterWindow | src/api/transfer/transferUtils.js:19 | once 5000 ms have passed the key is gone and the same request reaches the database again |
| TransferController.HandleFaultAsWritten | src/api/transfer/transferDAL.js:1-5 | as written, each business failure replies `Internal_Error` and never its own code |
| ErrorManagement.MarkAsOperationalError | src/lib/errorManagement/index.js:11-14 | returns the same object with `isOperationalError` set and every other field kept; the result is trusted |
| ErrorManagement.NewErrorIsUntrusted | src/lib/errorManagement/index.js:16 | an error nobody marked is untrusted |
| ErrorManagement.MarkTwice | src/lib/errorManagement/index.js:11-16 | marking is idempotent, and a marked error is never untrusted |
| LibErrors.MarkAsOperationalError | src/lib/errors/index.js:12-15 | returns the same object with `isOperationalError` set and every other field kept; an already marked error is unchanged |
| PrototypeApp.AppErrors.constructor | src/app.js:3-17 | six distinct errors with their messages; `clientErrors` holds five of them and not the internal one |
| PrototypeApp.ErrorMessage | src/app.js:115-121 | an error in `clientErrors` (the dev-only test error included) replies its message, any other `Internal error` |
| PrototypeApp.AgreesWithService | src/app.js:25-71 | for `from != to` the prototype and the refactored service reach the same tables, and a committed transfer gets the same payload from both |
| PrototypeApp.SelfTransferAccepted | src/app.js:25-71 | for a covered transfer to oneself, the prototype records it with balances unchanged; the refactored service replies `Invalid_Receiver` |
| PrototypeApp.DbTransfer | src/app.js:25-71 | the tables end as `Execute` says, with that outcome's statements issued. A commit resolves the new reference and the sender's balance. A failure rejects with the matching module-level error, or a fresh database error |
| PrototypeApp.PrototypeCache.constructor | src/app.js:72-73 | `getCache()` starts empty with a 1000 ms window unless told otherwise |
| PrototypeApp.PrototypeCache.Add | src/app.js:74-77 | inserts the key and schedules its deletion `timeoutMs` later |
| PrototypeApp.App.constructor | src/app.js:84-92 | the module-level errors and one cache with the default window |
| PrototypeApp.App.DebounceTx | src/app.js:84-92 | refuses with `ErrDebounceReq` exactly when the key is cached, changing nothing; otherwise it caches the key |
| PrototypeApp.App.HandleTransfer | src/app.js:94-122 | a cached key replies `Repeated transfer` and changes neither the cache nor the pool. Otherwise exactly the request's key is added, with its deletion due `timeoutMs` later. A pool failure replies `Internal error` and takes no connection. Otherwise the tables follow `Execute`, the reply matches the outcome, and the connection is released |
| PrototypeApp.App.Transact | src/app.js:96-121 | connect, transact, release, then shape the payload or the message |

## Left out

- HTTP, logging and the `console.error` of `handleErr`: no effect on the reply or on the tables.
- Concurrency: the model is sequential. There are no overlapping requests and no row locks held across requests, and debounce admission is atomic because the model has one thread.
- The `error` event listener on a pooled client: a connection here never fails after it was handed out.
- Failures of individual queries: `begin`, the lock, `commit`, `rollback` or `release` itself failing, and a network error in mid-transaction. Only connecting is allowed to fail.
- The foreign-key violation an insert would raise for an unknown account: unreachable, since the sender's row was just locked; `Database.Connection.InsertRecord` requires the account to exist.
- Overflow of `NUMERIC(12,2)`: amounts and balances are unbounded integers of cents.
- `parseFloat` of numeric columns (`src/lib/db/index.js:5`): balances are exact cents, not floating point.
- Non-integer account numbers, JavaScript number coercion and exponent notation for magnitudes of at least 10^21 in the key: accounts are integers and amounts are cents.
- `TransferDetailsValidator.Validate`: Joi's type coercion of strings to numbers is not modelled, and an amount below one cent cannot be expressed. The rejection value is modelled as a validation error, although as written it is the TypeError of `transferErrors.InvalidDetails`.
- Request bodies that are not objects, and `null` fields: a body is either missing or a record of optional fields.
- Requests with missing fields in the controller and data-access models. These models take only requests of three integers, so two paths of `transferDAL.js` are not modelled:
  - `{}` is refused at line 5 because `undefined === undefined`, before any statement is issued;
  - `{from: 1, to: 2}` reaches the debit with a NULL amount. The debit matches no row, line 32 throws a TypeError, and the transaction is rolled back and replied as `Internal_Error`.
- The prototype's `main` driver and its `timer` helper: demonstration code with console output only.
- `prTrace` and `timer` in `transferUtils.js`: unused helpers.
- The commented-out `UserError` constructor in `transferErrors.js`: dead code.
- `handleError` in both error modules: logging only.
- `TransferController.TransferController.HandleTransfer`: `isClientError` (`transferController.js:16`) only gates logging and is not modelled.
- `Timers.ExpiringSet.AdvanceTo`: the order in which due callbacks run is not modelled. They only delete keys, so the order has no effect on the set.

## Findings

| source | as written | input that shows it | evidently intended | confidence | as-written member | corrected member |
|---|---|---|---|---|---|---|
| src/api/transfer/transferDAL.js:1 | `const { transferErrors } = require("./transferErrors")` binds `undefined`, because the module exports only `clientErrs`. Every `throw transferErrors.X` therefore throws a TypeError that is not a user error | `handleTransfer({from: 1, to: 1, amount: 10})` replies `{error: "Internal_Error"}`; likewise an unknown sender or insufficient funds | reply `Invalid_Receiver`, `Invalid_Sender` or `Insufficient_Funds` | not executed | TransferController.HandleFaultAsWritten | TransferController.FaultsReportDistinctCodes |
