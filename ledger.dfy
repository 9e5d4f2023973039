/** The state a transfer works on, as values: the `balances` table, the
    `transactions` table and the sequence behind `transactions.reference`,
    and the statement sequence that both transfer routines run against it.
    Money is held in integer cents (the tables declare NUMERIC(12,2)). */
module Ledger {

  type AccountId = int
  type Cents = int

  /** The `{from, to, amount}` of one transfer request. */
  datatype Request = Request(from: AccountId, to: AccountId, amount: Cents)

  /** A row of the `transactions` table. */
  datatype Record = Record(reference: nat, amount: Cents, account: AccountId)

  /** Everything the database holds that a transfer reads or writes. */
  datatype Store = Store(balances: map<AccountId, Cents>, ledger: seq<Record>, nextRef: nat)

  /** Why a transaction was rolled back: the three business conditions and
      the database's refusal of a negative balance (`CHECK balance >= 0`). */
  datatype Fault = InsufficientFunds | InvalidSender | InvalidReceiver | CheckViolation

  /** A committed transaction carries the new store, the generated reference
      and the sender's balance returned by the debit; otherwise the fault. */
  datatype TxOutcome =
    | Committed(after: Store, reference: nat, senderBalance: Cents)
    | RolledBack(fault: Fault)

  /** The statements of one transfer, from the locked read of the sender to
      the insert of the record, with the error each failing step raises. */
  function Execute(s: Store, r: Request): TxOutcome
  {
    if r.from !in s.balances then RolledBack(InvalidSender)
    else if s.balances[r.from] < r.amount then RolledBack(InsufficientFunds)
    else
      var debited := s.balances[r.from := s.balances[r.from] - r.amount];
      if r.to !in debited then RolledBack(InvalidReceiver)
      else if debited[r.to] + r.amount < 0 then RolledBack(CheckViolation)
      else
        var credited := debited[r.to := debited[r.to] + r.amount];
        Committed(Store(credited, s.ledger + [Record(s.nextRef, r.amount, r.from)], s.nextRef + 1),
                  s.nextRef, debited[r.from])
  }

  /** The same transaction preceded by the refusal of a transfer to oneself,
      which raises InvalidReceiver before any statement is issued. */
  function ExecuteChecked(s: Store, r: Request): TxOutcome
  {
    if r.from == r.to then RolledBack(InvalidReceiver) else Execute(s, r)
  }

  /** The store once the outcome is final: a rollback restores `s`. */
  function After(s: Store, o: TxOutcome): Store
  {
    if o.Committed? then o.after else s
  }

  ghost predicate NonNegative(m: map<AccountId, Cents>)
  {
    forall a :: a in m ==> m[a] >= 0
  }

  /** The money held in all accounts together. */
  ghost function Total(m: map<AccountId, Cents>): int
    decreases m.Keys
  {
    if m == map[] then 0
    else
      HasKey(m);
      var a :| a in m;
      m[a] + Total(m - {a})
  }

  lemma HasKey(m: map<AccountId, Cents>)
    requires m != map[]
    ensures exists a :: a in m
  {
    if forall a :: a !in m {
      assert false;
    }
  }

  lemma {:induction false} TotalRemove(m: map<AccountId, Cents>, a: AccountId)
    requires a in m
    ensures Total(m) == m[a] + Total(m - {a})
    decreases m.Keys
  {
    var b :| b in m && Total(m) == m[b] + Total(m - {b});
    if b != a {
      TotalRemove(m - {b}, a);
      TotalRemove(m - {a}, b);
      assert (m - {b}) - {a} == (m - {a}) - {b};
    }
  }

  lemma {:induction false} TotalUpdate(m: map<AccountId, Cents>, a: AccountId, v: Cents)
    requires a in m
    ensures Total(m[a := v]) == Total(m) - m[a] + v
  {
    TotalRemove(m, a);
    TotalRemove(m[a := v], a);
    assert m[a := v] - {a} == m - {a};
  }

  /** Each way a transaction can end, and exactly when it ends that way. */
  lemma ExecuteCases(s: Store, r: Request)
    ensures (Execute(s, r) == RolledBack(InvalidSender)) <==> r.from !in s.balances
    ensures (Execute(s, r) == RolledBack(InsufficientFunds))
        <==> (r.from in s.balances && s.balances[r.from] < r.amount)
    ensures (Execute(s, r) == RolledBack(InvalidReceiver))
        <==> (r.from in s.balances && s.balances[r.from] >= r.amount && r.to !in s.balances)
    ensures (Execute(s, r) == RolledBack(CheckViolation))
        <==> (&& r.from in s.balances && s.balances[r.from] >= r.amount && r.to in s.balances
              && (if r.to == r.from then s.balances[r.from] else s.balances[r.to] + r.amount) < 0)
    ensures Execute(s, r).Committed?
        <==> (&& r.from in s.balances && s.balances[r.from] >= r.amount && r.to in s.balances
              && (if r.to == r.from then s.balances[r.from] else s.balances[r.to] + r.amount) >= 0)
  {
  }

  /** A commit debits the sender and credits the receiver by `amount`, keeps
      their sum, touches no other account and appends exactly one record. */
  lemma CommitEffect(s: Store, r: Request)
    requires Execute(s, r).Committed?
    ensures var o := Execute(s, r);
      && o.after.balances.Keys == s.balances.Keys
      && (r.from != r.to ==>
            && o.after.balances[r.from] == s.balances[r.from] - r.amount
            && o.after.balances[r.to] == s.balances[r.to] + r.amount
            && o.after.balances[r.from] + o.after.balances[r.to] == s.balances[r.from] + s.balances[r.to])
      && (forall a :: a in s.balances && a != r.from && a != r.to ==> o.after.balances[a] == s.balances[a])
      && o.after.ledger == s.ledger + [Record(o.reference, r.amount, r.from)]
      && o.reference == s.nextRef && o.after.nextRef == s.nextRef + 1
      && o.senderBalance == s.balances[r.from] - r.amount
  {
  }

  /** The prototype has no self-transfer check: a transfer to oneself that
      the sender can cover commits, leaves every balance as it was, still
      inserts a record and reports the balance between debit and credit. */
  lemma SelfTransferCommits(s: Store, r: Request)
    requires r.from == r.to && r.from in s.balances && s.balances[r.from] >= r.amount
    requires s.balances[r.from] >= 0
    ensures var o := Execute(s, r);
      && o.Committed?
      && o.after.balances == s.balances
      && o.after.ledger == s.ledger + [Record(s.nextRef, r.amount, r.from)]
      && o.senderBalance == s.balances[r.from] - r.amount
  {
  }

  /** The refactored routine refuses a transfer to oneself outright. */
  lemma SelfTransferRefused(s: Store, r: Request)
    requires r.from == r.to
    ensures ExecuteChecked(s, r) == RolledBack(InvalidReceiver)
    ensures After(s, ExecuteChecked(s, r)) == s
  {
  }

  /** No balance ever becomes negative: the debit is guarded by
      `balance >= amount` and a negative credit is refused by the table. */
  lemma ExecuteKeepsNonNegative(s: Store, r: Request)
    requires NonNegative(s.balances)
    ensures NonNegative(After(s, Execute(s, r)).balances)
    ensures NonNegative(After(s, ExecuteChecked(s, r)).balances)
  {
  }

  /** A committed transfer neither creates nor destroys money. */
  lemma {:induction false} ExecuteConservesTotal(s: Store, r: Request)
    ensures Total(After(s, Execute(s, r)).balances) == Total(s.balances)
    ensures Total(After(s, ExecuteChecked(s, r)).balances) == Total(s.balances)
  {
    var o := Execute(s, r);
    if o.Committed? {
      var debited := s.balances[r.from := s.balances[r.from] - r.amount];
      TotalUpdate(s.balances, r.from, s.balances[r.from] - r.amount);
      TotalUpdate(debited, r.to, debited[r.to] + r.amount);
    }
  }

  function Step(s: Store, r: Request, checked: bool): TxOutcome
  {
    if checked then ExecuteChecked(s, r) else Execute(s, r)
  }

  /** The store after a series of transfers, one after another. */
  function Run(s: Store, reqs: seq<Request>, checked: bool): Store
    decreases |reqs|
  {
    if reqs == [] then s else Run(After(s, Step(s, reqs[0], checked)), reqs[1..], checked)
  }

  /** How many transfers of the series commit. */
  function Commits(s: Store, reqs: seq<Request>, checked: bool): nat
    decreases |reqs|
  {
    if reqs == [] then 0
    else
      var o := Step(s, reqs[0], checked);
      (if o.Committed? then 1 else 0) + Commits(After(s, o), reqs[1..], checked)
  }

  /** Over any series of transfers: no balance goes negative, the total is
      conserved, no account appears or disappears, earlier records are kept
      and there is exactly one new record per committed transfer. */
  lemma {:induction false} RunInvariants(s: Store, reqs: seq<Request>, checked: bool)
    requires NonNegative(s.balances)
    ensures var t := Run(s, reqs, checked);
      && NonNegative(t.balances)
      && Total(t.balances) == Total(s.balances)
      && t.balances.Keys == s.balances.Keys
      && s.ledger <= t.ledger
      && |t.ledger| == |s.ledger| + Commits(s, reqs, checked)
    decreases |reqs|
  {
    if reqs != [] {
      var r := reqs[0];
      var o := Step(s, r, checked);
      ExecuteKeepsNonNegative(s, r);
      ExecuteConservesTotal(s, r);
      if o.Committed? {
        CommitEffect(s, r);
      }
      RunInvariants(After(s, o), reqs[1..], checked);
    }
  }
}
