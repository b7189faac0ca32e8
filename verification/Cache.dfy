/** The memory cache of AI reviews, specified by the history of its calls. Times are integers; an expiry
    of None is Go's zero time, which never passes. */
module Cache {
  import opened Wrappers

  datatype Entry<T> = Entry(value: T, expires: Option<int>)

  datatype Call<T> = Put(key: string, entry: Entry<T>) | Look(key: string, at: int)

  predicate Expired<T>(e: Entry<T>, now: int) {
    e.expires.Some? && now > e.expires.value
  }

  /** What the cache holds for a key after some calls: looking at an expired entry removes it. */
  function Held<T>(calls: seq<Call<T>>, key: string): Option<Entry<T>> {
    if calls == [] then None
    else
      var c, before := calls[|calls| - 1], Held(calls[..|calls| - 1], key);
      if c.key != key then before
      else if c.Put? then Some(c.entry)
      else if before.Some? && Expired(before.value, c.at) then None
      else before
  }

  /** The last entry put under a key. */
  function LastPut<T>(calls: seq<Call<T>>, key: string): Option<Entry<T>> {
    if calls == [] then None
    else
      var c := calls[|calls| - 1];
      if c.Put? && c.key == key then Some(c.entry) else LastPut(calls[..|calls| - 1], key)
  }

  /** No look was later than now. */
  ghost predicate LooksBefore<T>(calls: seq<Call<T>>, now: int) {
    forall i :: 0 <= i < |calls| && calls[i].Look? ==> calls[i].at <= now
  }

  /** If the clock never runs backwards, removing expired entries is not noticed: a look finds the last
      entry put under its key unless that has expired. */
  lemma {:induction false} RemovalUnnoticed<T>(calls: seq<Call<T>>, key: string, now: int)
    requires LooksBefore(calls, now)
    ensures Held(calls, key) == LastPut(calls, key)
            || (Held(calls, key) == None && LastPut(calls, key).Some? && Expired(LastPut(calls, key).value, now))
  {
    if calls != [] {
      RemovalUnnoticed(calls[..|calls| - 1], key, now);
    }
  }

  class MemoryCache<T(==)> {
    var m: map<string, Entry<T>>
    ghost var calls: seq<Call<T>>

    ghost predicate Valid()
      reads this
    {
      forall key :: Held(calls, key) == if key in m then Some(m[key]) else None
    }

    constructor ()
      ensures Valid() && calls == []
    {
      m, calls := map[], [];
    }

    /** The value held, unless it has expired; with a clock that does not run backwards, that is the last
        value set. */
    method Get(key: string, now: int) returns (r: Option<T>)
      requires Valid()
      modifies this
      ensures Valid() && calls == old(calls) + [Look(key, now)]
      ensures var e := Held(old(calls), key); r == if e.Some? && !Expired(e.value, now) then Some(e.value.value) else None
      ensures LooksBefore(old(calls), now) ==>
                var e := LastPut(old(calls), key);
                && r == (if e.Some? && !Expired(e.value, now) then Some(e.value.value) else None)
                && (r.Some? <==> e.Some? && (e.value.expires == None || now <= e.value.expires.value))
                && (r.Some? ==> r.value == e.value.value)
    {
      assert (calls + [Look(key, now)])[..|calls|] == calls;
      if LooksBefore(calls, now) {
        RemovalUnnoticed(calls, key, now);
      }
      assert Held(calls, key) == if key in m then Some(m[key]) else None;
      calls := calls + [Look(key, now)];
      if key !in m {
        return None;
      }
      var e := m[key];
      if e.expires.Some? && now > e.expires.value {
        m := m - {key};
        return None;
      }
      r := Some(e.value);
    }

    method Set(key: string, value: T, expires: Option<int>)
      requires Valid()
      modifies this
      ensures Valid() && calls == old(calls) + [Put(key, Entry(value, expires))]
    {
      assert (calls + [Put(key, Entry(value, expires))])[..|calls|] == calls;
      m := m[key := Entry(value, expires)];
      calls := calls + [Put(key, Entry(value, expires))];
    }
  }
}
