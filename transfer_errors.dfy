/** The user-visible errors of the refactored transfer service: `clientErr`
    tags an error as safe to show, and four tagged errors are created once
    and shared by every request. */
module TransferErrors {
  import opened Wrappers
  import opened ErrorObject
  import opened Ledger

  const InsufficientFundsCode := "Insufficient_Funds"
  const InvalidSenderCode := "Invalid_Sender"
  const InvalidReceiverCode := "Invalid_Receiver"
  const DebounceRequestCode := "Debounce_Request"

  /** An error as `clientErr` leaves it: shown to the caller under its message. */
  ghost predicate IsClientTagged(e: Error)
    reads e
  {
    e.isUserError && e.userErrorCode == Some(e.message)
  }

  /** `clientErr`: marks the error as a user error whose code is its message
      and hands back the same object; nothing else about it changes. */
  method ClientErr(err: Error) returns (r: Error)
    modifies err
    ensures r == err
    ensures err.View() == old(err.View()).(isUserError := true, userErrorCode := Some(err.message))
    ensures IsClientTagged(r)
  {
    err.isUserError := true;
    err.userErrorCode := Some(err.message);
    r := err;
  }

  /** The `clientErrs` export: the four module-level user errors. */
  class ClientErrs {
    const insufficientFunds: Error
    const invalidSender: Error
    const invalidReceiver: Error
    const debounceReq: Error

    ghost predicate Valid()
      reads insufficientFunds, invalidSender, invalidReceiver, debounceReq
    {
      && insufficientFunds.message == InsufficientFundsCode && IsClientTagged(insufficientFunds)
      && invalidSender.message == InvalidSenderCode && IsClientTagged(invalidSender)
      && invalidReceiver.message == InvalidReceiverCode && IsClientTagged(invalidReceiver)
      && debounceReq.message == DebounceRequestCode && IsClientTagged(debounceReq)
    }

    /** Each error is `clientErr(new Error(code))`, with four distinct codes. */
    constructor ()
      ensures Valid()
      ensures fresh(insufficientFunds) && fresh(invalidSender) && fresh(invalidReceiver) && fresh(debounceReq)
      ensures |{InsufficientFundsCode, InvalidSenderCode, InvalidReceiverCode, DebounceRequestCode}| == 4
    {
      var e1 := new Error(InsufficientFundsCode);
      e1 := ClientErr(e1);
      var e2 := new Error(InvalidSenderCode);
      e2 := ClientErr(e2);
      var e3 := new Error(InvalidReceiverCode);
      e3 := ClientErr(e3);
      var e4 := new Error(DebounceRequestCode);
      e4 := ClientErr(e4);
      insufficientFunds, invalidSender, invalidReceiver, debounceReq := e1, e2, e3, e4;
    }
  }

  /** The code under which a business failure is reported to the caller. */
  function FaultCode(f: Fault): string
    requires f != CheckViolation
  {
    match f
    case InsufficientFunds => InsufficientFundsCode
    case InvalidSender => InvalidSenderCode
    case InvalidReceiver => InvalidReceiverCode
  }

  /** The shared error object raised for a business failure: `clientErrs.X`. */
  function ClientErrorFor(errs: ClientErrs, f: Fault): (e: Error)
    requires f != CheckViolation
    reads errs.insufficientFunds, errs.invalidSender, errs.invalidReceiver, errs.debounceReq
    ensures errs.Valid() ==> IsClientTagged(e) && e.message == FaultCode(f)
  {
    match f
    case InsufficientFunds => errs.insufficientFunds
    case InvalidSender => errs.invalidSender
    case InvalidReceiver => errs.invalidReceiver
  }

  /** What `transferErrors.X` evaluates to as the data-access and validator
      modules are written: they import a `transferErrors` name that the
      errors module does not export, so the name is `undefined` and reading
      a property of it raises a fresh TypeError that carries no user tag.
      The message is the wording of recent Node versions and is only
      illustrative: older versions word it differently, and no reply
      depends on it. */
  method TransferErrorsAsWritten(property: string) returns (e: Error)
    ensures fresh(e)
    ensures e.View() == Fields("Cannot read properties of undefined (reading '" + property + "')", false, None, false)
  {
    e := new Error("Cannot read properties of undefined (reading '" + property + "')");
  }
}
