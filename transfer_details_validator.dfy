/** `validate`: the acceptance predicate on a transfer request body. */
module TransferDetailsValidator {
  import opened Wrappers
  import opened Ledger

  /** A request body as the schema sees it: each of the three fields is
      absent or a number, and `unknownKeys` says whether the object has any
      other property (an object schema refuses keys it does not list). */
  datatype RawDetails = RawDetails(from: Option<int>, to: Option<int>, amount: Option<Cents>, unknownKeys: bool)

  datatype ValidationError = InvalidDetails

  /** `accountNumSchema`: a required number of at least 1. */
  predicate AccountNumOk(v: Option<int>)
  {
    v.Some? && v.value >= 1
  }

  /** The amount: a required number greater than 0. */
  predicate AmountOk(v: Option<Cents>)
  {
    v.Some? && v.value > 0
  }

  /** `validate(details = {})`: resolves with the validated value when the
      schema accepts the body and `to` differs from `from`; rejects
      otherwise, also when no body is given at all. */
  function Validate(details: Option<RawDetails>): (r: Result<Request, ValidationError>)
    ensures r.Success? ==>
      && r.value.from >= 1 && r.value.to >= 1 && r.value.amount > 0
      && r.value.from != r.value.to
      && details == Some(RawDetails(Some(r.value.from), Some(r.value.to), Some(r.value.amount), false))
    ensures details.None? ==> r == Failure(InvalidDetails)
    ensures details.Some? && AccountNumOk(details.value.from) && AccountNumOk(details.value.to)
              && AmountOk(details.value.amount) && !details.value.unknownKeys
              && details.value.from != details.value.to
            ==> r.Success?
  {
    var d := if details.None? then RawDetails(None, None, None, false) else details.value;
    if !AccountNumOk(d.from) || !AccountNumOk(d.to) || !AmountOk(d.amount) || d.unknownKeys
       || d.to.value == d.from.value
    then Failure(InvalidDetails)
    else Success(Request(d.from.value, d.to.value, d.amount.value))
  }

  /** A validated request is never refused as a transfer to oneself, and
      with a positive amount the table's non-negativity check can never
      fire: only the three business failures or a commit remain. */
  lemma ValidatedRequestOutcomes(s: Store, details: Option<RawDetails>)
    requires Validate(details).Success?
    requires NonNegative(s.balances)
    ensures var r := Validate(details).value;
      && ExecuteChecked(s, r) == Execute(s, r)
      && ExecuteChecked(s, r) != RolledBack(CheckViolation)
      && (r.from in s.balances && r.to in s.balances && s.balances[r.from] >= r.amount
          ==> ExecuteChecked(s, r).Committed?)
  {
  }
}
