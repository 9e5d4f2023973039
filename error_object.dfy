/** A JavaScript `Error` object and the properties the service sets on it.
    A property that was never set reads as `undefined`, which the code only
    ever tests for truthiness, so the flags start out false and the code
    starts out absent. */
module ErrorObject {
  import opened Wrappers

  /** The observable properties of an error at one moment. */
  datatype Fields = Fields(
    message: string,
    isUserError: bool,
    userErrorCode: Option<string>,
    isOperationalError: bool)

  class Error {
    const message: string
    var isUserError: bool
    var userErrorCode: Option<string>
    var isOperationalError: bool

    function View(): Fields
      reads this
    {
      Fields(message, isUserError, userErrorCode, isOperationalError)
    }

    /** `new Error(message)`. */
    constructor (message: string)
      ensures View() == Fields(message, false, None, false)
    {
      this.message := message;
      isUserError := false;
      userErrorCode := None;
      isOperationalError := false;
    }
  }
}
