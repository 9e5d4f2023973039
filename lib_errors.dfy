/** The second copy of the operational-error flag, kept beside the console
    error handler. */
module LibErrors {
  import opened ErrorObject

  /** `markAsOperationalError`: sets the flag on the given error and returns
      that same object; its message and every other property are unchanged,
      so marking an already marked error changes nothing. */
  method MarkAsOperationalError(err: Error) returns (r: Error)
    modifies err
    ensures r == err
    ensures err.View() == old(err.View()).(isOperationalError := true)
    ensures old(err.isOperationalError) ==> err.View() == old(err.View())
  {
    err.isOperationalError := true;
    r := err;
  }
}
