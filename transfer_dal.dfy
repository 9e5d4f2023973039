/** `insertTransfer`: one transfer as a single database transaction on a
    pooled connection, producing the payload returned to the caller. */
module TransferDal {
  import opened Wrappers
  import opened Ledger
  import opened Database
  import opened ErrorObject
  import opened TransferErrors

  datatype Sender = Sender(id: AccountId, balance: Option<Cents>)

  /** `{from: {id, balance}, to: {id}, transfered, id}`; `balance` and `id`
      are filled in as the transaction proceeds. */
  datatype Payload = Payload(from: Sender, to: AccountId, transfered: Cents, id: Option<nat>)

  /** The payload of a committed transfer. */
  function PayloadFor(r: Request, o: TxOutcome): Payload
    requires o.Committed?
  {
    Payload(Sender(r.from, Some(o.senderBalance)), r.to, r.amount, Some(o.reference))
  }

  /** The statements one transaction sends, ending in `commit` exactly when
      it committed and in `rollback` otherwise. */
  function TransactionStatements(r: Request, o: TxOutcome): (ss: seq<Statement>)
    ensures |ss| >= 3 && ss[0] == Statement.Begin && ss[1] == SelectForUpdate(r.from)
    ensures ss[|ss| - 1] == if o.Committed? then Statement.Commit else Statement.Rollback
  {
    match o
    case Committed(_, _, _) =>
      [Statement.Begin, SelectForUpdate(r.from), Debit(r.amount, r.from), Credit(r.amount, r.to),
       InsertRecord(r.amount, r.from), Statement.Commit]
    case RolledBack(f) =>
      if f == InvalidSender || f == InsufficientFunds
      then [Statement.Begin, SelectForUpdate(r.from), Statement.Rollback]
      else [Statement.Begin, SelectForUpdate(r.from), Debit(r.amount, r.from), Credit(r.amount, r.to),
            Statement.Rollback]
  }

  /** The database error raised when a credit would break `CHECK (balance >= 0)`. */
  const CheckViolationMessage := "new row for relation \"balances\" violates check constraint"

  /** `insertTransfer(details)(client)`. A transfer to oneself is refused
      before any statement is sent; every other failure rolls the
      transaction back and raises its error; a success commits and returns
      the payload. The tables end up as the specification `ExecuteChecked`
      says. */
  method InsertTransfer(r: Request, client: Connection, errs: ClientErrs) returns (res: Result<Payload, Error>)
    requires !client.inTransaction
    requires errs.Valid()
    modifies client, client.db
    ensures !client.inTransaction && client.released == old(client.released)
    ensures var o := ExecuteChecked(old(client.db.State()), r);
      && client.db.State() == After(old(client.db.State()), o)
      && client.issued == old(client.issued) + (if r.from == r.to then [] else TransactionStatements(r, o))
      && (o.Committed? ==> res == Success(PayloadFor(r, o)))
      && (o.RolledBack? && o.fault != CheckViolation ==> res == Failure(ClientErrorFor(errs, o.fault)))
      && (o == RolledBack(CheckViolation) ==>
            res.Failure? && fresh(res.error) && res.error.View() == Fields(CheckViolationMessage, false, None, false))
  {
    ghost var s := client.db.State();
    ghost var o := ExecuteChecked(s, r);
    if r.from == r.to {
      return Failure(errs.invalidReceiver);
    }
    var payload := Payload(Sender(r.from, None), r.to, r.amount, None);
    client.Begin();
    assert client.snapshot == s;
    var senderRow := client.SelectForUpdate(r.from);
    if senderRow.None? {
      assert o == RolledBack(InvalidSender);
      client.Rollback();
      return Failure(errs.invalidSender);
    }
    if senderRow.value < r.amount {
      assert o == RolledBack(InsufficientFunds);
      client.Rollback();
      return Failure(errs.insufficientFunds);
    }
    var debited := client.Debit(r.amount, r.from);
    payload := payload.(from := payload.from.(balance := Some(debited.value)));
    var credited := client.Credit(r.amount, r.to);
    if credited.Failure? {
      assert o == RolledBack(CheckViolation);
      var dbError := new Error(CheckViolationMessage);
      client.Rollback();
      return Failure(dbError);
    }
    if credited.value.None? {
      assert o == RolledBack(InvalidReceiver);
      client.Rollback();
      return Failure(errs.invalidReceiver);
    }
    assert o.Committed? && o.senderBalance == debited.value;
    var reference := client.InsertRecord(r.amount, r.from);
    payload := payload.(id := Some(reference));
    client.Commit();
    assert client.db.State() == o.after;
    res := Success(payload);
  }
}
