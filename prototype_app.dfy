/** The single-file prototype of the service: the same transaction without
    the self-transfer check, a debounce cache with a 1000 ms default
    window, and classification by membership in a set of client errors. */
module PrototypeApp {
  import opened Wrappers
  import opened Ledger
  import opened Database
  import opened ErrorObject
  import opened Timers
  import opened TransferDal
  import opened TransferUtils
  import TransferController
  import TransferErrors

  const InternalErrorMessage := "Internal error"
  const InsufficientFundsMessage := "Insufficient funds"
  const InvalidSenderMessage := "Invalid Sender account number"
  const InvalidReceiverMessage := "Invalid Receiver account number"
  const DebounceReqMessage := "Repeated transfer"
  const TestErrorMessage := "Sample generic error for dev only"

  /** The default window of `getCache`, in milliseconds. */
  const DefaultTimeoutMs := 1000

  /** The prototype's module-level errors and its `clientErrors` set. */
  class AppErrors {
    const internalError: Error
    const insufficientFunds: Error
    const invalidSender: Error
    const invalidReceiver: Error
    const debounceReq: Error
    const testError: Error
    const clientErrors: set<Error>

    ghost predicate Valid()
    {
      && internalError.message == InternalErrorMessage
      && insufficientFunds.message == InsufficientFundsMessage
      && invalidSender.message == InvalidSenderMessage
      && invalidReceiver.message == InvalidReceiverMessage
      && debounceReq.message == DebounceReqMessage
      && testError.message == TestErrorMessage
      && clientErrors == {insufficientFunds, invalidSender, invalidReceiver, debounceReq, testError}
      && internalError !in clientErrors
    }

    constructor ()
      ensures Valid()
    {
      var internal := new Error(InternalErrorMessage);
      var funds := new Error(InsufficientFundsMessage);
      var sender := new Error(InvalidSenderMessage);
      var receiver := new Error(InvalidReceiverMessage);
      var debounce := new Error(DebounceReqMessage);
      var test := new Error(TestErrorMessage);
      internalError, insufficientFunds, invalidSender := internal, funds, sender;
      invalidReceiver, debounceReq, testError := receiver, debounce, test;
      clientErrors := {funds, sender, receiver, debounce, test};
    }
  }

  /** The catch of `handleTransfer`: the message of an error in
      `clientErrors` (the dev-only test error included), the generic
      internal message for any other. */
  function ErrorMessage(errors: AppErrors, err: Error): (m: string)
    requires errors.Valid()
    ensures err in errors.clientErrors ==> m == err.message
    ensures err !in errors.clientErrors ==> m == InternalErrorMessage
    ensures err == errors.testError ==> m == TestErrorMessage
  {
    if err in errors.clientErrors then err.message else errors.internalError.message
  }

  /** The error object raised for each way the transaction can fail. */
  function FaultError(errors: AppErrors, f: Fault): Error
    requires f != CheckViolation
  {
    match f
    case InsufficientFunds => errors.insufficientFunds
    case InvalidSender => errors.invalidSender
    case InvalidReceiver => errors.invalidReceiver
  }

  /** The message each failure reaches the caller with. */
  function FaultMessage(f: Fault): string
  {
    match f
    case InsufficientFunds => InsufficientFundsMessage
    case InvalidSender => InvalidSenderMessage
    case InvalidReceiver => InvalidReceiverMessage
    case CheckViolation => InternalErrorMessage
  }

  /** The reply of the prototype to a transaction that ended with `o`. */
  function ReplyFor(r: Request, o: TxOutcome): TransferController.Reply
  {
    match o
    case Committed(_, _, _) => TransferController.Transferred(PayloadFor(r, o))
    case RolledBack(f) => TransferController.Rejected(Some(FaultMessage(f)))
  }

  /** Off the diagonal the prototype and the refactored service reach the
      same database state, and a committed transfer gets the same payload
      from both. */
  lemma AgreesWithService(s: Store, r: Request)
    requires r.from != r.to
    ensures After(s, Execute(s, r)) == After(s, ExecuteChecked(s, r))
    ensures ReplyFor(r, Execute(s, r)).Transferred? <==> TransferController.ReplyFor(r, ExecuteChecked(s, r)).Transferred?
    ensures ReplyFor(r, Execute(s, r)).Transferred? ==> ReplyFor(r, Execute(s, r)) == TransferController.ReplyFor(r, ExecuteChecked(s, r))
  {
  }

  /** On the diagonal they differ: the prototype records a self-transfer
      with a covered amount, leaving every balance as it was, where the
      refactored service refuses it as an invalid receiver. */
  lemma SelfTransferAccepted(s: Store, r: Request)
    requires r.from == r.to && r.from in s.balances
    requires 0 <= s.balances[r.from] && r.amount <= s.balances[r.from]
    ensures ReplyFor(r, Execute(s, r)).Transferred?
    ensures After(s, Execute(s, r)).balances == s.balances
    ensures |After(s, Execute(s, r)).ledger| == |s.ledger| + 1
    ensures TransferController.ReplyFor(r, ExecuteChecked(s, r)) == TransferController.Rejected(Some(TransferErrors.InvalidReceiverCode))
  {
    SelfTransferCommits(s, r);
    SelfTransferRefused(s, r);
  }

  /** `dbTransfer(client, from, to, amount)`: the transaction without a
      self-transfer check; resolves with the new record's reference and the
      sender's balance after the debit. */
  method DbTransfer(client: Connection, r: Request, errors: AppErrors) returns (res: Result<(nat, Cents), Error>)
    requires !client.inTransaction
    requires errors.Valid()
    modifies client, client.db
    ensures !client.inTransaction && client.released == old(client.released)
    ensures var o := Execute(old(client.db.State()), r);
      && client.db.State() == After(old(client.db.State()), o)
      && client.issued == old(client.issued) + TransactionStatements(r, o)
      && (o.Committed? ==> res == Success((o.reference, o.senderBalance)))
      && (o.RolledBack? && o.fault != CheckViolation ==> res == Failure(FaultError(errors, o.fault)))
      && (o == RolledBack(CheckViolation) ==>
            res.Failure? && fresh(res.error) && res.error.View() == Fields(CheckViolationMessage, false, None, false))
  {
    ghost var s := client.db.State();
    ghost var o := Execute(s, r);
    client.Begin();
    assert client.snapshot == s;
    var senderRow := client.SelectForUpdate(r.from);
    if senderRow.None? {
      assert o == RolledBack(InvalidSender);
      client.Rollback();
      return Failure(errors.invalidSender);
    }
    if senderRow.value < r.amount {
      assert o == RolledBack(InsufficientFunds);
      client.Rollback();
      return Failure(errors.insufficientFunds);
    }
    var debited := client.Debit(r.amount, r.from);
    var credited := client.Credit(r.amount, r.to);
    if credited.Failure? {
      assert o == RolledBack(CheckViolation);
      var dbError := new Error(CheckViolationMessage);
      client.Rollback();
      return Failure(dbError);
    }
    if credited.value.None? {
      assert o == RolledBack(InvalidReceiver);
      client.Rollback();
      return Failure(errors.invalidReceiver);
    }
    assert o.Committed? && o.senderBalance == debited.value;
    var reference := client.InsertRecord(r.amount, r.from);
    client.Commit();
    assert client.db.State() == o.after;
    res := Success((reference, debited.value));
  }

  /** The object `getCache(timeoutMs)` returns: `add` and `has` over a
      private set, each added key deleted `timeoutMs` later. */
  class PrototypeCache {
    const keys: ExpiringSet
    const timeoutMs: int

    constructor (timeoutMs: int := DefaultTimeoutMs)
      ensures keys.Valid() && keys.OneTimerPerKey() && fresh(keys) && this.timeoutMs == timeoutMs
      ensures keys.members == {} && keys.now == 0
    {
      keys := new ExpiringSet();
      this.timeoutMs := timeoutMs;
    }

    /** `has(key)`. */
    predicate Has(key: string)
      reads keys
    {
      keys.Has(key)
    }

    /** `add(key)`: inserts the key and schedules its deletion. */
    method Add(key: string)
      requires keys.Valid()
      modifies keys
      ensures keys.Valid()
      ensures keys.now == old(keys.now)
      ensures keys.members == old(keys.members) + {key}
      ensures keys.timers == old(keys.timers)[old(keys.nextId) := Timer(key, keys.now + TimerDelay(timeoutMs))]
      ensures old(keys.OneTimerPerKey()) && !old(Has(key)) ==> keys.OneTimerPerKey()
    {
      keys.Add(key, timeoutMs);
    }
  }

  class App {
    const cache: PrototypeCache
    const pool: Pool
    const errors: AppErrors

    ghost predicate Valid()
      reads cache.keys
    {
      cache.keys.Valid() && cache.keys.OneTimerPerKey() && errors.Valid()
    }

    /** The module-level state: the errors and `getCache()` with its default window. */
    constructor (pool: Pool)
      ensures Valid() && this.pool == pool && fresh(cache) && fresh(cache.keys)
      ensures cache.timeoutMs == DefaultTimeoutMs && cache.keys.members == {}
    {
      var e := new AppErrors();
      var c := new PrototypeCache();
      errors, cache, this.pool := e, c, pool;
    }

    /** `debounceTx(from, to, amount)`: rejects with the repeated-transfer
        error when the key is cached, changing nothing; otherwise adds it. */
    method DebounceTx(r: Request) returns (o: Outcome<Error>)
      requires Valid()
      modifies cache.keys
      ensures Valid()
      ensures cache.keys.now == old(cache.keys.now)
      ensures o.Fail? <==> old(cache.Has(TxKey(r)))
      ensures o.Fail? ==> o.error == errors.debounceReq
      ensures o.Fail? ==>
        && cache.keys.members == old(cache.keys.members) && cache.keys.timers == old(cache.keys.timers)
        && cache.keys.nextId == old(cache.keys.nextId)
      ensures o.Pass? ==>
        && cache.keys.members == old(cache.keys.members) + {TxKey(r)}
        && cache.keys.timers
             == old(cache.keys.timers)[old(cache.keys.nextId) := Timer(TxKey(r), cache.keys.now + TimerDelay(cache.timeoutMs))]
    {
      var key := TxKey(r);
      if cache.Has(key) {
        return Fail(errors.debounceReq);
      }
      cache.Add(key);
      o := Pass;
    }

    /** `handleTransfer(from, to, amount)`: always resolves; a repeated
        request is refused before any connection is taken, and otherwise
        the transaction runs on one connection that is always released. */
    method HandleTransfer(r: Request, poolFails: bool) returns (reply: TransferController.Reply)
      requires Valid()
      modifies cache.keys, pool, pool.db
      ensures Valid()
      ensures cache.Has(TxKey(r))
      ensures cache.keys.now == old(cache.keys.now)
      ensures pool.checkedOut == old(pool.checkedOut)
      ensures old(cache.Has(TxKey(r))) ==>
        && reply == TransferController.Rejected(Some(DebounceReqMessage))
        && pool.db.State() == old(pool.db.State())
        && pool.acquisitions == old(pool.acquisitions)
        && cache.keys.members == old(cache.keys.members)
        && cache.keys.timers == old(cache.keys.timers)
        && cache.keys.nextId == old(cache.keys.nextId)
      ensures !old(cache.Has(TxKey(r))) ==>
        && cache.keys.members == old(cache.keys.members) + {TxKey(r)}
        && cache.keys.timers
             == old(cache.keys.timers)[old(cache.keys.nextId) := Timer(TxKey(r), cache.keys.now + TimerDelay(cache.timeoutMs))]
      ensures !old(cache.Has(TxKey(r))) && poolFails ==>
        && reply == TransferController.Rejected(Some(InternalErrorMessage))
        && pool.db.State() == old(pool.db.State())
        && pool.acquisitions == old(pool.acquisitions)
      ensures !old(cache.Has(TxKey(r))) && !poolFails ==>
        && pool.acquisitions == old(pool.acquisitions) + 1
        && var o := Execute(old(pool.db.State()), r);
           pool.db.State() == After(old(pool.db.State()), o) && reply == ReplyFor(r, o)
    {
      var admitted := DebounceTx(r);
      if admitted.Fail? {
        return TransferController.Rejected(Some(ErrorMessage(errors, admitted.error)));
      }
      reply := Transact(r, poolFails);
    }

    /** `db.getClient`, the transaction with its unconditional release, and
        the shaping of the reply. */
    method Transact(r: Request, poolFails: bool) returns (reply: TransferController.Reply)
      requires errors.Valid()
      modifies pool, pool.db
      ensures pool.checkedOut == old(pool.checkedOut)
      ensures poolFails ==>
        && reply == TransferController.Rejected(Some(InternalErrorMessage))
        && pool.db.State() == old(pool.db.State())
        && pool.acquisitions == old(pool.acquisitions)
      ensures !poolFails ==>
        && pool.acquisitions == old(pool.acquisitions) + 1
        && var o := Execute(old(pool.db.State()), r);
           pool.db.State() == After(old(pool.db.State()), o) && reply == ReplyFor(r, o)
    {
      var client := pool.Connect(poolFails);
      if client.None? {
        var connectError := new Error(TransferController.ConnectFailedMessage);
        return TransferController.Rejected(Some(ErrorMessage(errors, connectError)));
      }
      var conn := client.value;
      var res := DbTransfer(conn, r, errors);
      conn.Release();
      match res
      case Success(receipt) =>
        reply := TransferController.Transferred(Payload(Sender(r.from, Some(receipt.1)), r.to, r.amount, Some(receipt.0)));
      case Failure(e) =>
        reply := TransferController.Rejected(Some(ErrorMessage(errors, e)));
    }
  }
}
