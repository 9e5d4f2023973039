/** The PostgreSQL side as the transfer code uses it: the two tables, a
    connection pool and a pooled connection that runs one statement per call
    and can begin, commit and roll back a transaction. */
module Database {
  import opened Wrappers
  import opened Ledger

  /** The statements a connection has been sent, in order. */
  datatype Statement =
    | Begin                                          // begin transaction isolation level read committed
    | SelectForUpdate(account: AccountId)            // select balance ... where account_nr = $1 for update
    | Debit(amount: Cents, account: AccountId)       // update ... balance - $1 where ... and balance >= $1
    | Credit(amount: Cents, account: AccountId)      // update ... balance + $1 where account_nr = $2
    | InsertRecord(amount: Cents, account: AccountId) // insert into transactions(amount, account)
    | Commit
    | Rollback

  /** The `balances` and `transactions` tables and the sequence that numbers
      `transactions.reference` (a SERIAL column, starting at 1). */
  class Database {
    var balances: map<AccountId, Cents>
    var ledger: seq<Record>
    var nextRef: nat

    function State(): Store
      reads this
    {
      Store(balances, ledger, nextRef)
    }

    constructor (balances: map<AccountId, Cents>)
      ensures State() == Store(balances, [], 1)
    {
      this.balances := balances;
      ledger := [];
      nextRef := 1;
    }
  }

  /** The connection pool; it counts the connections it has handed out. */
  class Pool {
    const db: Database
    var checkedOut: int
    var acquisitions: nat

    constructor (db: Database)
      ensures this.db == db && checkedOut == 0 && acquisitions == 0
    {
      this.db := db;
      checkedOut := 0;
      acquisitions := 0;
    }

    /** `pool.connect()`. `fails` stands for a pool that cannot hand out a
        connection (the database is down, the pool is exhausted). */
    method Connect(fails: bool) returns (c: Option<Connection>)
      modifies this
      ensures fails ==> c == None && checkedOut == old(checkedOut) && acquisitions == old(acquisitions)
      ensures !fails ==>
        && c.Some? && fresh(c.value)
        && c.value.pool == this && c.value.db == db && c.value.Idle()
        && checkedOut == old(checkedOut) + 1 && acquisitions == old(acquisitions) + 1
    {
      if fails {
        c := None;
      } else {
        var conn := new Connection(this);
        checkedOut := checkedOut + 1;
        acquisitions := acquisitions + 1;
        c := Some(conn);
      }
    }
  }

  /** A pooled client. Outside a transaction each statement takes effect at
      once; inside one, `Rollback` restores the tables as they were at
      `Begin`. The reference sequence is not transactional: a rollback does
      not give numbers back. */
  class Connection {
    const pool: Pool
    const db: Database
    var inTransaction: bool
    var snapshot: Store
    var issued: seq<Statement>
    var released: bool

    /** Nothing sent yet, not in a transaction, not given back to the pool. */
    predicate Idle()
      reads this
    {
      !inTransaction && issued == [] && !released
    }

    /** The connection's own state apart from the statements it has sent. */
    function Session(): (bool, Store, bool)
      reads this
    {
      (inTransaction, snapshot, released)
    }

    constructor (pool: Pool)
      ensures this.pool == pool && db == pool.db && Idle()
    {
      this.pool := pool;
      db := pool.db;
      inTransaction := false;
      snapshot := Store(map[], [], 0);
      issued := [];
      released := false;
    }

    method Begin()
      modifies this
      ensures issued == old(issued) + [Statement.Begin]
      ensures inTransaction && released == old(released)
      ensures snapshot == if old(inTransaction) then old(snapshot) else db.State()
    {
      issued := issued + [Statement.Begin];
      if !inTransaction {
        inTransaction := true;
        snapshot := db.State();
      }
    }

    /** The sender's row, locked; no row for an unknown account. */
    method SelectForUpdate(account: AccountId) returns (row: Option<Cents>)
      modifies this
      ensures issued == old(issued) + [Statement.SelectForUpdate(account)]
      ensures Session() == old(Session())
      ensures row == if account in db.balances then Some(db.balances[account]) else None
    {
      issued := issued + [Statement.SelectForUpdate(account)];
      row := if account in db.balances then Some(db.balances[account]) else None;
    }

    /** Subtracts `amount` from a row that holds at least `amount` and
        returns the new balance; matches no row otherwise. */
    method Debit(amount: Cents, account: AccountId) returns (row: Option<Cents>)
      modifies this, db
      ensures issued == old(issued) + [Statement.Debit(amount, account)]
      ensures Session() == old(Session())
      ensures db.ledger == old(db.ledger) && db.nextRef == old(db.nextRef)
      ensures var b := old(db.balances);
        if account in b && b[account] >= amount
        then row == Some(b[account] - amount) && db.balances == b[account := b[account] - amount]
        else row == None && db.balances == b
    {
      issued := issued + [Statement.Debit(amount, account)];
      if account in db.balances && db.balances[account] >= amount {
        db.balances := db.balances[account := db.balances[account] - amount];
        row := Some(db.balances[account]);
      } else {
        row := None;
      }
    }

    /** Adds `amount` to a row and returns its account number; matches no
        row for an unknown account, and fails without effect when the new
        balance would break `CHECK (balance >= 0)`. */
    method Credit(amount: Cents, account: AccountId) returns (r: Result<Option<AccountId>, Fault>)
      modifies this, db
      ensures issued == old(issued) + [Statement.Credit(amount, account)]
      ensures Session() == old(Session())
      ensures db.ledger == old(db.ledger) && db.nextRef == old(db.nextRef)
      ensures var b := old(db.balances);
        if account !in b then r == Success(None) && db.balances == b
        else if b[account] + amount < 0 then r == Failure(CheckViolation) && db.balances == b
        else r == Success(Some(account)) && db.balances == b[account := b[account] + amount]
    {
      issued := issued + [Statement.Credit(amount, account)];
      if account !in db.balances {
        r := Success(None);
      } else if db.balances[account] + amount < 0 {
        r := Failure(CheckViolation);
      } else {
        db.balances := db.balances[account := db.balances[account] + amount];
        r := Success(Some(account));
      }
    }

    /** Inserts one record and returns its generated reference. */
    method InsertRecord(amount: Cents, account: AccountId) returns (reference: nat)
      requires account in db.balances
      modifies this, db
      ensures issued == old(issued) + [Statement.InsertRecord(amount, account)]
      ensures Session() == old(Session())
      ensures reference == old(db.nextRef)
      ensures db.ledger == old(db.ledger) + [Record(reference, amount, account)]
      ensures db.nextRef == old(db.nextRef) + 1 && db.balances == old(db.balances)
    {
      issued := issued + [Statement.InsertRecord(amount, account)];
      reference := db.nextRef;
      db.ledger := db.ledger + [Record(reference, amount, account)];
      db.nextRef := db.nextRef + 1;
    }

    method Commit()
      modifies this
      ensures issued == old(issued) + [Statement.Commit]
      ensures !inTransaction && snapshot == old(snapshot) && released == old(released)
    {
      issued := issued + [Statement.Commit];
      inTransaction := false;
    }

    /** Undoes every change to the tables since `Begin`. */
    method Rollback()
      modifies this, db
      ensures issued == old(issued) + [Statement.Rollback]
      ensures !inTransaction && snapshot == old(snapshot) && released == old(released)
      ensures db.nextRef == old(db.nextRef)
      ensures old(inTransaction) ==> db.balances == snapshot.balances && db.ledger == snapshot.ledger
      ensures !old(inTransaction) ==> db.balances == old(db.balances) && db.ledger == old(db.ledger)
    {
      issued := issued + [Statement.Rollback];
      if inTransaction {
        db.balances := snapshot.balances;
        db.ledger := snapshot.ledger;
        inTransaction := false;
      }
    }

    /** `client.release()`: gives the connection back to the pool; releasing
        it a second time is an error, so it may happen only once. */
    method Release()
      requires !released
      modifies this, pool
      ensures released && issued == old(issued) && inTransaction == old(inTransaction) && snapshot == old(snapshot)
      ensures pool.checkedOut == old(pool.checkedOut) - 1 && pool.acquisitions == old(pool.acquisitions)
    {
      released := true;
      pool.checkedOut := pool.checkedOut - 1;
    }
  }
}
