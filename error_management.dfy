/** Operational ("trusted") errors: expected failures for which logging
    suffices, as opposed to programmer errors. */
module ErrorManagement {
  import opened ErrorObject

  /** `markAsOperationalError`: sets the flag on the error itself and
      returns the same object; every other property is left as it was. */
  method MarkAsOperationalError(err: Error) returns (r: Error)
    modifies err
    ensures r == err
    ensures err.View() == old(err.View()).(isOperationalError := true)
    ensures !IsUntrustedError(r)
  {
    err.isOperationalError := true;
    r := err;
  }

  /** `isUntrustedError`: an error is untrusted unless it was marked. */
  predicate IsUntrustedError(err: Error)
    reads err
  {
    !err.isOperationalError
  }

  /** A freshly created error has never been marked, so it is untrusted. */
  method NewErrorIsUntrusted(message: string) returns (e: Error)
    ensures fresh(e) && e.message == message
    ensures IsUntrustedError(e)
  {
    e := new Error(message);
  }

  /** Marking an error twice leaves it exactly as marking it once. */
  method MarkTwice(err: Error)
    modifies err
    ensures err.View() == old(err.View()).(isOperationalError := true)
    ensures !IsUntrustedError(err)
  {
    var once := MarkAsOperationalError(err);
    ghost var afterOnce := err.View();
    var twice := MarkAsOperationalError(once);
    assert err.View() == afterOnce;
  }
}
