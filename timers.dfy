/** A JavaScript `Set` of strings whose members are deleted by callbacks
    scheduled with `setTimeout`, driven by an explicit clock in place of
    the event loop: `AdvanceTo` lets time pass and runs every callback that
    has come due. */
module Timers {

  /** A pending `setTimeout(() => set.delete(key), ms)`. */
  datatype Timer = Timer(key: string, due: int)

  /** Node runs a callback whose delay is below 1 ms or above 2^31 - 1 ms
      after 1 ms. */
  function TimerDelay(ms: int): int
  {
    if 1 <= ms <= 0x7fff_ffff then ms else 1
  }

  /** The callbacks still pending once the clock has reached `t`. */
  function Pending(timers: map<nat, Timer>, t: int): map<nat, Timer>
  {
    map id | id in timers && timers[id].due > t :: timers[id]
  }

  /** The keys deleted by the callbacks due by `t`. */
  function Fired(timers: map<nat, Timer>, t: int): set<string>
  {
    set id | id in timers && timers[id].due <= t :: timers[id].key
  }

  class ExpiringSet {
    var now: int
    var members: set<string>
    var timers: map<nat, Timer>
    var nextId: nat

    /** Callback ids are never reused, a callback that has come due has
        run, and every member still has a callback pending that will delete
        it. */
    ghost predicate Valid()
      reads this
    {
      && (forall id :: id in timers ==> id < nextId)
      && (forall id :: id in timers ==> timers[id].due > now)
      && (forall k :: k in members ==> exists id :: id in timers && timers[id].key == k)
    }

    /** Each member has exactly one pending callback and no callback is
        pending for a key that is not a member. */
    ghost predicate OneTimerPerKey()
      reads this
    {
      && (forall id :: id in timers ==> timers[id].key in members)
      && (forall i, j :: i in timers && j in timers && timers[i].key == timers[j].key ==> i == j)
    }

    constructor ()
      ensures Valid() && OneTimerPerKey()
      ensures now == 0 && members == {} && timers == map[] && nextId == 0
    {
      now := 0;
      members := {};
      timers := map[];
      nextId := 0;
    }

    /** `set.has(key)`. */
    predicate Has(key: string)
      reads this
    {
      key in members
    }

    /** `set.add(key); setTimeout(() => set.delete(key), ms)`. */
    method Add(key: string, ms: int)
      requires Valid()
      modifies this
      ensures Valid()
      ensures now == old(now) && nextId == old(nextId) + 1
      ensures members == old(members) + {key}
      ensures timers == old(timers)[old(nextId) := Timer(key, now + TimerDelay(ms))]
      ensures old(OneTimerPerKey()) && key !in old(members) ==> OneTimerPerKey()
    {
      ghost var before := timers;
      timers := timers[nextId := Timer(key, now + TimerDelay(ms))];
      forall k | k in members + {key}
        ensures exists id :: id in timers && timers[id].key == k
      {
        if k == key {
          assert timers[nextId].key == k;
        } else {
          var id :| id in before && before[id].key == k;
          assert timers[id] == before[id];
        }
      }
      members := members + {key};
      nextId := nextId + 1;
    }

    /** Lets the clock reach `t`; each callback due by then deletes its key. */
    method AdvanceTo(t: int)
      requires Valid() && now <= t
      modifies this
      ensures Valid()
      ensures now == t && nextId == old(nextId)
      ensures timers == Pending(old(timers), t)
      ensures members == old(members) - Fired(old(timers), t)
      ensures old(OneTimerPerKey()) ==> OneTimerPerKey()
    {
      ghost var before := timers;
      ghost var wasMember := members;
      members := members - Fired(timers, t);
      timers := Pending(timers, t);
      now := t;
      forall k | k in members
        ensures exists id :: id in timers && timers[id].key == k
      {
        var id :| id in before && before[id].key == k;
        assert k !in Fired(before, t);
        assert before[id].due > t;
        assert id in timers;
      }
      if old(OneTimerPerKey()) {
        forall id | id in timers
          ensures timers[id].key in members
        {
          var k := timers[id].key;
          assert k in wasMember;
          assert before[id].due > t;
          assert k !in Fired(before, t);
        }
      }
    }
  }
}
