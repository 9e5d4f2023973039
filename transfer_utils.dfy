/** Request debouncing for the refactored service: `getCache` builds a set
    of recently seen keys with `checkSert` (test-and-insert, the insert
    undone by a timer), and `debounceTx` runs every request through one
    shared cache with a 5000 ms window. */
module TransferUtils {
  import opened Wrappers
  import opened Ledger
  import opened DecimalText
  import opened ErrorObject
  import opened TransferErrors
  import opened Timers

  /** The window `debounceTx` passes to `checkSert`, in milliseconds. */
  const DebounceWindow := 5000

  /** `getTxKey`: `${from}!${to}!${amount}`. */
  function TxKey(r: Request): string
  {
    IntText(r.from) + "!" + IntText(r.to) + "!" + CentsText(r.amount)
  }

  function ParseTxKey(key: string): Request
  {
    var (from, rest) := SplitAt(key, '!');
    var (to, amount) := SplitAt(rest, '!');
    Request(ParseInt(from), ParseInt(to), ParseCents(amount))
  }

  lemma TxKeyRoundTrip(r: Request)
    ensures ParseTxKey(TxKey(r)) == r
  {
    var f, t, a := IntText(r.from), IntText(r.to), CentsText(r.amount);
    IntTextChars(r.from);
    IntTextChars(r.to);
    IntTextRoundTrip(r.from);
    IntTextRoundTrip(r.to);
    CentsTextRoundTrip(r.amount);
    assert '!' !in f;
    assert '!' !in t;
    SplitAtJoin(f, t + "!" + a, '!');
    assert TxKey(r) == f + ['!'] + (t + "!" + a);
    SplitAtJoin(t, a, '!');
    assert t + "!" + a == t + ['!'] + a;
  }

  /** Two requests share a debounce key exactly when they agree on sender,
      receiver and amount: identical requests always collide and no two
      different ones ever do. */
  lemma TxKeyInjective(r1: Request, r2: Request)
    ensures TxKey(r1) == TxKey(r2) <==> r1 == r2
  {
    TxKeyRoundTrip(r1);
    TxKeyRoundTrip(r2);
  }

  /** The object `getCache()` returns: `checkSert` over a private set. */
  class Cache {
    const keys: ExpiringSet
    const errs: ClientErrs

    ghost predicate Valid()
      reads keys
    {
      keys.Valid() && keys.OneTimerPerKey()
    }

    constructor (errs: ClientErrs)
      ensures Valid() && fresh(keys) && this.errs == errs
      ensures keys.members == {} && keys.now == 0
    {
      keys := new ExpiringSet();
      this.errs := errs;
    }

    /** `checkSert(key, expire)`: rejects with the debounce error when the
        key is present, changing nothing; otherwise inserts it, schedules
        its deletion `expire` ms from now and resolves. No other key's
        membership changes. */
    method CheckSert(key: string, expire: int) returns (r: Outcome<Error>)
      requires Valid()
      modifies keys
      ensures Valid()
      ensures keys.now == old(keys.now)
      ensures r.Fail? <==> old(keys.Has(key))
      ensures r.Fail? ==> r.error == errs.debounceReq
      ensures r.Fail? ==> keys.members == old(keys.members) && keys.timers == old(keys.timers) && keys.nextId == old(keys.nextId)
      ensures r.Pass? ==>
        && keys.members == old(keys.members) + {key}
        && keys.timers == old(keys.timers)[old(keys.nextId) := Timer(key, keys.now + TimerDelay(expire))]
      ensures forall k :: k != key ==> (keys.Has(k) <==> old(keys.Has(k)))
    {
      if keys.Has(key) {
        return Fail(errs.debounceReq);
      }
      keys.Add(key, expire);
      r := Pass;
    }
  }

  /** The `debounceTx` closure over the single cache created when the
      module is loaded. */
  class Debouncer {
    const cache: Cache

    ghost predicate Valid()
      reads cache.keys
    {
      cache.Valid()
    }

    constructor (errs: ClientErrs)
      ensures Valid() && fresh(cache) && fresh(cache.keys) && cache.errs == errs
      ensures cache.keys.members == {} && cache.keys.now == 0
    {
      cache := new Cache(errs);
    }

    /** `debounceTx(details)`: `checkSert(getTxKey(details), 5000)`. */
    method DebounceTx(r: Request) returns (o: Outcome<Error>)
      requires Valid()
      modifies cache.keys
      ensures Valid()
      ensures cache.keys.now == old(cache.keys.now)
      ensures o.Fail? <==> old(cache.keys.Has(TxKey(r)))
      ensures o.Fail? ==> o.error == cache.errs.debounceReq
      ensures o.Fail? ==>
        && cache.keys.members == old(cache.keys.members) && cache.keys.timers == old(cache.keys.timers)
        && cache.keys.nextId == old(cache.keys.nextId)
      ensures o.Pass? ==>
        && cache.keys.members == old(cache.keys.members) + {TxKey(r)}
        && cache.keys.timers
             == old(cache.keys.timers)[old(cache.keys.nextId) := Timer(TxKey(r), cache.keys.now + DebounceWindow)]
    {
      o := cache.CheckSert(TxKey(r), DebounceWindow);
    }
  }
}
