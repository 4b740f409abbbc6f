/** The `TimedCache` of sc/util.py: a dict of values plus a FIFO deque of
    `(time, key)` entries in the order the keys were set. A lookup first
    evicts from the front of the deque every entry that is too old or that
    leaves too many entries behind it, then reads the dict. The clock is a
    parameter: `now` is the `time.time()` of the call. */
module Cache {
  import opened Wrappers

  datatype CacheError<K> = KeyError(key: K) | RuntimeError(message: string)

  /** What an eviction pass leaves: the remaining deque, the remaining
      values, and the key whose `del` raised `KeyError`, if one did. */
  datatype Eviction<K, V> = Eviction(added: seq<(real, K)>, values: map<K, V>, failed: Option<K>)

  /** The eviction loop of `__getitem__`: pop the front entry; if it is older
      than `lifetime` or more than `maxsize` entries remain behind it, delete
      its key (which raises `KeyError` when the key is already gone), else
      put it back and stop. An empty deque stops the loop. */
  function Evict<K, V>(added: seq<(real, K)>, values: map<K, V>, now: real,
                       lifetime: real, maxsize: int): Eviction<K, V>
    decreases |added|
  {
    if added == [] then Eviction(added, values, None)
    else
      var (t, k) := added[0];
      if now - t > lifetime || |added| - 1 > maxsize then
        if k in values then Evict(added[1..], values - {k}, now, lifetime, maxsize)
        else Eviction(added[1..], values, Some(k))
      else Eviction(added, values, None)
  }

  /** The keys of the entries in `added`. */
  function KeysOf<K>(added: seq<(real, K)>): set<K>
  {
    set i | 0 <= i < |added| :: added[i].1
  }

  /** Eviction removes entries from the front only, so the survivors are a
      suffix of the deque in their old order; the values left are the old
      ones minus the evicted keys. */
  lemma {:induction false} EvictSuffix<K, V>(added: seq<(real, K)>, values: map<K, V>, now: real,
                                             lifetime: real, maxsize: int)
    ensures var e := Evict(added, values, now, lifetime, maxsize);
            |e.added| <= |added| && e.added == added[|added| - |e.added|..] &&
            e.values.Keys <= values.Keys &&
            (forall k :: k in e.values ==> e.values[k] == values[k]) &&
            (forall k :: k in values && k !in KeysOf(added[..|added| - |e.added|]) ==> k in e.values)
    decreases |added|
  {
    if added != [] {
      var (t, k) := added[0];
      if (now - t > lifetime || |added| - 1 > maxsize) && k in values {
        EvictSuffix(added[1..], values - {k}, now, lifetime, maxsize);
        var e := Evict(added[1..], values - {k}, now, lifetime, maxsize);
        var n := |added| - |e.added|;
        assert added[1..][|added| - 1 - |e.added|..] == added[n..];
        forall j | j in values && j !in KeysOf(added[..n]) ensures j in e.values {
          assert added[..n][0] == added[0];
        }
      }
    }
  }

  /** When no `KeyError` is raised, the deque that is left is empty, or its
      front entry is at most `lifetime` old and at most `maxsize` entries
      follow it, so at most `maxsize + 1` entries remain. */
  lemma {:induction false} EvictStopsAtFresh<K, V>(added: seq<(real, K)>, values: map<K, V>, now: real,
                                                   lifetime: real, maxsize: int)
    ensures var e := Evict(added, values, now, lifetime, maxsize);
            e.failed.None? && e.added != [] ==>
              now - e.added[0].0 <= lifetime && |e.added| <= maxsize + 1
    decreases |added|
  {
    if added != [] {
      var (t, k) := added[0];
      if (now - t > lifetime || |added| - 1 > maxsize) && k in values {
        EvictStopsAtFresh(added[1..], values - {k}, now, lifetime, maxsize);
      }
    }
  }

  /** The use the cache is designed for (a key is set only while it is not
      in the cache): every deque entry has its own key, and the keys of the
      deque are exactly the keys that hold values. */
  ghost predicate NormalUse<K, V>(added: seq<(real, K)>, values: map<K, V>) {
    && (forall i, j :: 0 <= i < j < |added| ==> added[i].1 != added[j].1)
    && KeysOf(added) == values.Keys
  }

  lemma {:induction false} EvictNormal<K, V>(added: seq<(real, K)>, values: map<K, V>, now: real,
                                             lifetime: real, maxsize: int)
    requires NormalUse(added, values)
    ensures var e := Evict(added, values, now, lifetime, maxsize);
            e.failed.None? && NormalUse(e.added, e.values)
    decreases |added|
  {
    if added != [] {
      var (t, k) := added[0];
      assert k in KeysOf(added);
      if now - t > lifetime || |added| - 1 > maxsize {
        var rest := added[1..];
        forall i, j | 0 <= i < j < |rest| ensures rest[i].1 != rest[j].1 {
          assert rest[i] == added[i + 1] && rest[j] == added[j + 1];
        }
        assert KeysOf(rest) == values.Keys - {k} by {
          forall j | j in KeysOf(rest) ensures j in values.Keys - {k} {
            var i :| 0 <= i < |rest| && rest[i].1 == j;
            assert added[i + 1].1 == j;
          }
          forall j | j in values.Keys - {k} ensures j in KeysOf(rest) {
            var i :| 0 <= i < |added| && added[i].1 == j;
            assert i > 0 && rest[i - 1].1 == j;
          }
        }
        EvictNormal(rest, values - {k}, now, lifetime, maxsize);
      }
    }
  }

  /** `__setitem__` on a key not in the cache keeps the cache in normal use. */
  lemma SetKeepsNormal<K, V>(added: seq<(real, K)>, values: map<K, V>, now: real, key: K, value: V)
    requires NormalUse(added, values) && key !in values
    ensures NormalUse(added + [(now, key)], values[key := value])
  {
    var a := added + [(now, key)];
    assert KeysOf(a) == KeysOf(added) + {key} by {
      forall j | j in KeysOf(a) ensures j in KeysOf(added) + {key} {
        var i :| 0 <= i < |a| && a[i].1 == j;
        if i < |added| { assert added[i].1 == j; }
      }
      assert a[|added|].1 == key;
      forall j | j in KeysOf(added) ensures j in KeysOf(a) {
        var i :| 0 <= i < |added| && added[i].1 == j;
        assert a[i].1 == j;
      }
    }
    forall i, j | 0 <= i < j < |a| ensures a[i].1 != a[j].1 {
      if j == |added| { assert a[i].1 in KeysOf(added); }
    }
  }

  /** Setting `key` and then reading it back, while the new entry is at
      most `lifetime` old, gives the stored value, whatever older entries
      expire meanwhile. */
  lemma SetThenGet<K, V>(added: seq<(real, K)>, values: map<K, V>, t0: real, key: K, value: V,
                         now: real, lifetime: real, maxsize: int)
    requires NormalUse(added, values) && key !in values
    requires now - t0 <= lifetime && maxsize >= 0
    ensures var e := Evict(added + [(t0, key)], values[key := value], now, lifetime, maxsize);
            e.failed.None? && key in e.values && e.values[key] == value
  {
    var a, m := added + [(t0, key)], values[key := value];
    SetKeepsNormal(added, values, t0, key, value);
    EvictNormal(a, m, now, lifetime, maxsize);
    EvictSuffix(a, m, now, lifetime, maxsize);
    EvictStopsAtFresh(a, m, now, lifetime, maxsize);
    var e := Evict(a, m, now, lifetime, maxsize);
    LastEntrySurvives(a, m, now, lifetime, maxsize);
    var n := |a| - |e.added|;
    assert key !in KeysOf(a[..n]) by {
      forall i | 0 <= i < n ensures a[..n][i].1 != key {
        assert a[..n][i] == a[i] && i < |added|;
        assert added[i].1 in values.Keys by { assert added[i].1 in KeysOf(added); }
      }
    }
  }

  /** The newest entry is evicted only on age: with `maxsize >= 0` the size
      test cannot fire on the last entry. */
  lemma {:induction false} LastEntrySurvives<K, V>(added: seq<(real, K)>, values: map<K, V>, now: real,
                                                   lifetime: real, maxsize: int)
    requires added != [] && now - added[|added| - 1].0 <= lifetime && maxsize >= 0
    ensures Evict(added, values, now, lifetime, maxsize).added != []
    decreases |added|
  {
    if |added| > 1 {
      var (t, k) := added[0];
      if (now - t > lifetime || |added| - 1 > maxsize) && k in values {
        assert added[1..][|added| - 2] == added[|added| - 1];
        LastEntrySurvives(added[1..], values - {k}, now, lifetime, maxsize);
      }
    }
  }

  /** A key that holds no value is never given one by eviction, so reading
      it raises `KeyError`. */
  lemma NeverSetMisses<K, V>(added: seq<(real, K)>, values: map<K, V>, key: K, now: real,
                             lifetime: real, maxsize: int)
    requires key !in values
    ensures key !in Evict(added, values, now, lifetime, maxsize).values
  {
    EvictSuffix(added, values, now, lifetime, maxsize);
  }

  /** What `__getitem__` returns once the eviction pass `e` is done. */
  function Lookup<K, V>(e: Eviction<K, V>, key: K): Result<V, CacheError<K>>
  {
    match e.failed
    case Some(k) => Err(KeyError(k))
    case None => if key in e.values then Ok(e.values[key]) else Err(KeyError(key))
  }

  /** The deque's times do not decrease: `__setitem__` appends `(now, key)`
      with a clock that does not run backwards. */
  ghost predicate Ascending<K>(added: seq<(real, K)>) {
    forall i, j :: 0 <= i < j < |added| ==> added[i].0 <= added[j].0
  }

  /** Setting at a time no earlier than the newest entry keeps the times
      ascending. */
  lemma SetAscending<K>(added: seq<(real, K)>, key: K, now: real)
    requires Ascending(added) && (added == [] || added[|added| - 1].0 <= now)
    ensures Ascending(added + [(now, key)])
  {
    var a := added + [(now, key)];
    forall i, j | 0 <= i < j < |a| ensures a[i].0 <= a[j].0 {
      if j == |added| && i < |added| - 1 {
        assert a[i] == added[i];
        assert added[i].0 <= added[|added| - 1].0;
      }
    }
  }

  /** An eviction pass keeps the times ascending: it keeps a suffix. */
  lemma EvictAscending<K, V>(added: seq<(real, K)>, values: map<K, V>, now: real,
                             lifetime: real, maxsize: int)
    requires Ascending(added)
    ensures Ascending(Evict(added, values, now, lifetime, maxsize).added)
  {
    EvictSuffix(added, values, now, lifetime, maxsize);
    var e := Evict(added, values, now, lifetime, maxsize);
    var n := |added| - |e.added|;
    forall i, j | 0 <= i < j < |e.added| ensures e.added[i].0 <= e.added[j].0 {
      assert e.added[i] == added[n + i] && e.added[j] == added[n + j];
    }
  }

  /** In normal use, with ascending times, a value a read returns belongs to
      an entry that is still in the deque and is at most `lifetime` old: the
      returned object is never older than the lifetime. */
  lemma FreshLookup<K, V>(added: seq<(real, K)>, values: map<K, V>, key: K, now: real,
                          lifetime: real, maxsize: int)
    requires NormalUse(added, values) && Ascending(added)
    ensures var e := Evict(added, values, now, lifetime, maxsize);
            Lookup(e, key).Ok? ==>
              exists i :: 0 <= i < |e.added| && e.added[i].1 == key && now - e.added[i].0 <= lifetime
  {
    var e := Evict(added, values, now, lifetime, maxsize);
    EvictNormal(added, values, now, lifetime, maxsize);
    if Lookup(e, key).Ok? {
      assert key in e.values;
      assert key in KeysOf(e.added);
      var i :| 0 <= i < |e.added| && e.added[i].1 == key;
      EvictAscending(added, values, now, lifetime, maxsize);
      EvictStopsAtFresh(added, values, now, lifetime, maxsize);
      assert e.added[0].0 <= e.added[i].0;
    }
  }

  class TimedCache<K(==), V> {
    const lifetime: real
    const maxsize: int
    /** `_added`: the deque of `(time, key)` entries, oldest first. */
    var added: seq<(real, K)>
    /** `_values` */
    var values: map<K, V>

    /** `TimedCache(lifetime, maxsize)`; the source's defaults are 300
        seconds and 100 entries. */
    constructor(lifetime: real, maxsize: int)
      ensures this.lifetime == lifetime && this.maxsize == maxsize
      ensures added == [] && values == map[]
    {
      this.lifetime := lifetime;
      this.maxsize := maxsize;
      added := [];
      values := map[];
    }

    /** `cache[key]` at time `now`. */
    method Get(key: K, now: real) returns (r: Result<V, CacheError<K>>)
      modifies this
      ensures var e := Evict(old(added), old(values), now, lifetime, maxsize);
              added == e.added && values == e.values && r == Lookup(e, key)
    {
      ghost var target := Evict(added, values, now, lifetime, maxsize);
      while added != []
        invariant Evict(added, values, now, lifetime, maxsize) == target
        decreases |added|
      {
        var (t, k) := added[0];
        added := added[1..];
        if now - t > lifetime || |added| > maxsize {
          if k !in values {
            return Err(KeyError(k));
          }
          values := values - {k};
        } else {
          added := [(t, k)] + added;
          break;
        }
      }
      if key in values {
        r := Ok(values[key]);
      } else {
        r := Err(KeyError(key));
      }
    }

    /** `cache[key] = value` at time `now`. */
    method Set(key: K, value: V, now: real)
      modifies this
      ensures added == old(added) + [(now, key)]
      ensures values == old(values)[key := value]
    {
      added := added + [(now, key)];
      values := values[key := value];
    }

    /** `key in cache` always raises `RuntimeError`: the cache is meant to
        be read inside `try`/`except KeyError`. */
    method Contains(key: K) returns (r: Result<bool, CacheError<K>>)
      ensures r == Err(RuntimeError("Inappropriate operation, use Try/Catch."))
    {
      r := Err(RuntimeError("Inappropriate operation, use Try/Catch."));
    }
  }
}
