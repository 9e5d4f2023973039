/** `handleTransfer` of the refactored service: debounce, then acquire a
    connection, then run the transaction, then always release the
    connection, then turn any failure into an `{error}` reply. */
module TransferController {
  import opened Wrappers
  import opened Ledger
  import opened Database
  import opened ErrorObject
  import opened TransferErrors
  import opened TransferDal
  import opened Timers
  import opened TransferUtils

  const InternalErrorCode := "Internal_Error"

  /** The message of the error the pool raises when it cannot connect. */
  const ConnectFailedMessage := "connect ECONNREFUSED"

  /** What `handleTransfer` resolves with: the payload, or `{error}`. */
  datatype Reply = Transferred(payload: Payload) | Rejected(error: Option<string>)

  /** `handleErr`: every error becomes a resolved `{error}` reply; a user
      error is reported under its code and anything else under the generic
      internal code, so an error tagged by `clientErr` reports its message. */
  function HandleErr(err: Error): (r: Reply)
    reads err
    ensures r.Rejected?
    ensures err.isUserError ==> r.error == err.userErrorCode
    ensures !err.isUserError ==> r.error == Some(InternalErrorCode)
    ensures IsClientTagged(err) ==> r.error == Some(err.message)
  {
    Rejected(if err.isUserError then err.userErrorCode else Some(InternalErrorCode))
  }

  /** Each business failure reaches the caller under its own code, so the
      caller can tell the three apart; a refused credit is internal. */
  lemma FaultsReportDistinctCodes(errs: ClientErrs, f: Fault, g: Fault)
    requires errs.Valid()
    requires f != CheckViolation && g != CheckViolation
    ensures HandleErr(ClientErrorFor(errs, f)) == Rejected(Some(FaultCode(f)))
    ensures HandleErr(ClientErrorFor(errs, f)) == HandleErr(ClientErrorFor(errs, g)) <==> f == g
  {
  }

  /** The reply to a transfer whose transaction ended with outcome `o`. */
  function ReplyFor(r: Request, o: TxOutcome): Reply
  {
    match o
    case Committed(_, _, _) => Transferred(PayloadFor(r, o))
    case RolledBack(f) => if f == CheckViolation then Rejected(Some(InternalErrorCode)) else Rejected(Some(FaultCode(f)))
  }

  /** `checkDBClientErrs(insertTransfer(details))(client)`: runs the
      transaction and releases the client afterwards, whether the
      transaction resolved or rejected. */
  method CheckDbClientErrs(r: Request, client: Connection, errs: ClientErrs) returns (res: Result<Payload, Error>)
    requires !client.inTransaction && !client.released
    requires errs.Valid()
    modifies client, client.db, client.pool
    ensures client.released
    ensures client.pool.checkedOut == old(client.pool.checkedOut) - 1
    ensures client.pool.acquisitions == old(client.pool.acquisitions)
    ensures var o := ExecuteChecked(old(client.db.State()), r);
      && client.db.State() == After(old(client.db.State()), o)
      && (o.Committed? ==> res == Success(PayloadFor(r, o)))
      && (o.RolledBack? ==> res.Failure? && HandleErr(res.error) == ReplyFor(r, o))
  {
    res := InsertTransfer(r, client, errs);
    client.Release();
  }

  class TransferController {
    const debouncer: Debouncer
    const pool: Pool
    const errs: ClientErrs

    ghost predicate Valid()
      reads debouncer.cache.keys, errs.insufficientFunds, errs.invalidSender, errs.invalidReceiver, errs.debounceReq
    {
      debouncer.Valid() && errs.Valid() && debouncer.cache.errs == errs
    }

    /** The module-level state: the four user errors and the one cache. */
    constructor (pool: Pool)
      ensures Valid() && this.pool == pool
      ensures fresh(debouncer) && fresh(debouncer.cache) && fresh(debouncer.cache.keys)
      ensures debouncer.cache.keys.members == {}
    {
      var e := new ClientErrs();
      var d := new Debouncer(e);
      errs, debouncer, this.pool := e, d, pool;
    }

    /** `handleTransfer(details)`. It always resolves with a reply. A
        repeated request inside the window is refused without touching the
        pool or the tables; a request the pool cannot serve is an internal
        error; otherwise the transaction runs on one connection, which is
        given back exactly once, and the reply reports its outcome. Either
        way the request's key stays in the cache. */
    method HandleTransfer(r: Request, poolFails: bool) returns (reply: Reply)
      requires Valid()
      modifies debouncer.cache.keys, pool, pool.db
      ensures Valid()
      ensures debouncer.cache.keys.Has(TxKey(r))
      ensures debouncer.cache.keys.now == old(debouncer.cache.keys.now)
      ensures pool.checkedOut == old(pool.checkedOut)
      ensures old(debouncer.cache.keys.Has(TxKey(r))) ==>
        && reply == Rejected(Some(DebounceRequestCode))
        && pool.db.State() == old(pool.db.State())
        && pool.acquisitions == old(pool.acquisitions)
        && debouncer.cache.keys.members == old(debouncer.cache.keys.members)
        && debouncer.cache.keys.timers == old(debouncer.cache.keys.timers)
        && debouncer.cache.keys.nextId == old(debouncer.cache.keys.nextId)
      ensures !old(debouncer.cache.keys.Has(TxKey(r))) ==>
        && debouncer.cache.keys.members == old(debouncer.cache.keys.members) + {TxKey(r)}
        && debouncer.cache.keys.timers
             == old(debouncer.cache.keys.timers)[old(debouncer.cache.keys.nextId)
                  := Timer(TxKey(r), debouncer.cache.keys.now + DebounceWindow)]
      ensures !old(debouncer.cache.keys.Has(TxKey(r))) && poolFails ==>
        && reply == Rejected(Some(InternalErrorCode))
        && pool.db.State() == old(pool.db.State())
        && pool.acquisitions == old(pool.acquisitions)
      ensures !old(debouncer.cache.keys.Has(TxKey(r))) && !poolFails ==>
        && pool.acquisitions == old(pool.acquisitions) + 1
        && var o := ExecuteChecked(old(pool.db.State()), r);
           pool.db.State() == After(old(pool.db.State()), o) && reply == ReplyFor(r, o)
    {
      var admitted := debouncer.DebounceTx(r);
      if admitted.Fail? {
        return HandleErr(admitted.error);
      }
      reply := Transact(r, poolFails);
    }

    /** The part of `handleTransfer` after admission: `db.getClient`, then
        the transaction with its unconditional release, then `handleErr`. */
    method Transact(r: Request, poolFails: bool) returns (reply: Reply)
      requires errs.Valid()
      modifies pool, pool.db
      ensures pool.checkedOut == old(pool.checkedOut)
      ensures poolFails ==>
        && reply == Rejected(Some(InternalErrorCode))
        && pool.db.State() == old(pool.db.State())
        && pool.acquisitions == old(pool.acquisitions)
      ensures !poolFails ==>
        && pool.acquisitions == old(pool.acquisitions) + 1
        && var o := ExecuteChecked(old(pool.db.State()), r);
           pool.db.State() == After(old(pool.db.State()), o) && reply == ReplyFor(r, o)
    {
      var client := pool.Connect(poolFails);
      if client.None? {
        var connectError := new Error(ConnectFailedMessage);
        return HandleErr(connectError);
      }
      var res := CheckDbClientErrs(r, client.value, errs);
      match res
      case Success(payload) => reply := Transferred(payload);
      case Failure(e) => reply := HandleErr(e);
    }
  }

  /** A second identical request before the window of an admitted first one
      has passed is refused and changes no balance. */
  method RepeatInsideWindow(c: TransferController, r: Request, poolFails: bool, t: int)
    returns (first: Reply, second: Reply)
    requires c.Valid()
    requires !c.debouncer.cache.keys.Has(TxKey(r))
    requires c.debouncer.cache.keys.now <= t < c.debouncer.cache.keys.now + DebounceWindow
    modifies c.debouncer.cache.keys, c.pool, c.pool.db
    ensures second == Rejected(Some(DebounceRequestCode))
    ensures c.pool.acquisitions == old(c.pool.acquisitions) + (if poolFails then 0 else 1)
  {
    var keys := c.debouncer.cache.keys;
    var key := TxKey(r);
    ghost var id := keys.nextId;
    first := c.HandleTransfer(r, poolFails);
    assert keys.timers[id] == Timer(key, keys.now + DebounceWindow);
    ghost var timersBefore := keys.timers;
    keys.AdvanceTo(t);
    assert key !in Fired(timersBefore, t) by {
      forall j | j in timersBefore && timersBefore[j].key == key
        ensures timersBefore[j].due > t
      {
        assert j == id;
      }
    }
    second := c.HandleTransfer(r, false);
  }

  /** Once the window has passed the key has been deleted and the same
      request reaches the database again. */
  method AdmittedAfterWindow(c: TransferController, r: Request, poolFails: bool, t: int)
    returns (first: Reply, second: Reply)
    requires c.Valid()
    requires !c.debouncer.cache.keys.Has(TxKey(r))
    requires t >= c.debouncer.cache.keys.now + DebounceWindow
    modifies c.debouncer.cache.keys, c.pool, c.pool.db
    ensures second != Rejected(Some(DebounceRequestCode))
    ensures c.pool.acquisitions == old(c.pool.acquisitions) + (if poolFails then 1 else 2)
  {
    var keys := c.debouncer.cache.keys;
    var key := TxKey(r);
    ghost var id := keys.nextId;
    first := c.HandleTransfer(r, poolFails);
    assert keys.timers[id] == Timer(key, keys.now + DebounceWindow);
    ghost var timersBefore := keys.timers;
    keys.AdvanceTo(t);
    assert key in Fired(timersBefore, t);
    second := c.HandleTransfer(r, false);
  }

  /** The JavaScript property names of the three business errors. */
  function FaultProperty(f: Fault): string
  {
    match f
    case InsufficientFunds => "InsufficientFunds"
    case InvalidSender => "InvalidSender"
    case InvalidReceiver => "InvalidReceiver"
    case CheckViolation => ""
  }

  /** As the data-access module is written, a business failure raises the
      TypeError of reading `transferErrors.X` from `undefined`, and the
      caller receives the internal code instead of the failure's own. */
  method HandleFaultAsWritten(f: Fault) returns (asWritten: Reply)
    requires f != CheckViolation
    ensures asWritten == Rejected(Some(InternalErrorCode))
    ensures asWritten != Rejected(Some(FaultCode(f)))
  {
    var e := TransferErrorsAsWritten(FaultProperty(f));
    asWritten := HandleErr(e);
  }
}
