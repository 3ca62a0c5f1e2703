/**
 * The local-storage weather cache: `saveWeatherToCache` and
 * `loadWeatherFromCache`.
 *
 * The browser's `localStorage` becomes a map from cache keys to entries, and
 * `Date.now()` becomes an explicit `now` argument (milliseconds since the
 * epoch). Entries are held as structured values; their JSON text form is not
 * part of this model.
 */
module ExpiringCache {
  import opened Options

  /** The stored record `{timestamp, data}`. */
  datatype Entry<T> = Entry(timestamp: int, data: T)

  type Store<T> = map<string, Entry<T>>

  /** Expiry window used when the caller gives none: one hour. */
  const DefaultExpiryMs: int := 3600000

  /** An entry is stale when its age is STRICTLY greater than the window. */
  predicate Expired<T>(e: Entry<T>, now: int, expiryMs: int) {
    now - e.timestamp > expiryMs
  }

  /** What a load returns: the payload of a present, fresh entry, or null. */
  function LoadResult<T>(store: Store<T>, key: string, now: int, expiryMs: int): Option<T> {
    if key !in store then None
    else if Expired(store[key], now, expiryMs) then None
    else Some(store[key].data)
  }

  /** The store after a load: a stale entry is removed, nothing else changes. */
  function AfterLoad<T>(store: Store<T>, key: string, now: int, expiryMs: int): Store<T> {
    if key in store && Expired(store[key], now, expiryMs) then store - {key} else store
  }

  /**
   * The cache as the page sees it. Every method changes `store` exactly as
   * the pure functions above say; `Replay` below carries this over to whole
   * sequences of calls, so the lemmas about `Run` hold of the object.
   */
  class WeatherCache<T> {
    var store: Store<T>

    /** An empty storage area. */
    constructor ()
      ensures store == map[]
    {
      store := map[];
    }

    /** `saveWeatherToCache(key, data)` at clock reading `now`. */
    method Save(key: string, data: T, now: int)
      modifies this
      ensures store == old(store)[key := Entry(now, data)]
      ensures key in store && store[key] == Entry(now, data)
      ensures forall k :: k != key ==> (k in store <==> k in old(store))
      ensures forall k :: k != key && k in store ==> store[k] == old(store)[k]
    {
      store := store[key := Entry(now, data)];
    }

    /** `loadWeatherFromCache(key, expiryMs)` at clock reading `now`. */
    method Load(key: string, now: int, expiryMs: int := DefaultExpiryMs) returns (r: Option<T>)
      modifies this
      ensures r == LoadResult(old(store), key, now, expiryMs)
      ensures store == AfterLoad(old(store), key, now, expiryMs)
      ensures key !in old(store) ==> r == None && store == old(store)
      ensures key in old(store) && Expired(old(store)[key], now, expiryMs) ==>
                r == None && store == old(store) - {key} && key !in store
      ensures key in old(store) && !Expired(old(store)[key], now, expiryMs) ==>
                r == Some(old(store)[key].data) && store == old(store)
    {
      if key !in store {
        return None;
      }
      var parsed := store[key];
      var isExpired := now - parsed.timestamp > expiryMs;
      if isExpired {
        store := store - {key};
        return None;
      }
      return Some(parsed.data);
    }
  }

  /** One call against the cache, with the clock reading it sees. */
  datatype CacheOp<T> =
    | SaveOp(key: string, data: T, now: int)
    | LoadOp(key: string, now: int, expiryMs: int)

  /**
   * The effect of one call: the new store and what the call returns (a save
   * returns nothing, written `None`). Entries under other keys are untouched.
   */
  function Step<T>(store: Store<T>, op: CacheOp<T>): (r: (Store<T>, Option<T>))
    ensures forall k :: k != op.key ==> (k in r.0 <==> k in store)
    ensures forall k :: k != op.key && k in store ==> r.0[k] == store[k]
    ensures op.SaveOp? ==> op.key in r.0 && r.0[op.key] == Entry(op.now, op.data)
    ensures op.LoadOp? && r.1.Some? ==> op.key in store && r.0 == store
  {
    match op
    case SaveOp(key, data, now) => (store[key := Entry(now, data)], None)
    case LoadOp(key, now, expiryMs) =>
      (AfterLoad(store, key, now, expiryMs), LoadResult(store, key, now, expiryMs))
  }

  /**
   * A sequence of calls run in order: the final store and, for each call,
   * what it returned (position i answers ops[i]).
   */
  function Run<T>(store: Store<T>, ops: seq<CacheOp<T>>): (r: (Store<T>, seq<Option<T>>))
    ensures |r.1| == |ops|
    ensures |ops| > 0 ==> r.1[0] == Step(store, ops[0]).1
    decreases |ops|
  {
    if ops == [] then (store, [])
    else
      var first := Step(store, ops[0]);
      var rest := Run(first.0, ops[1..]);
      (rest.0, [first.1] + rest.1)
  }

  /**
   * Running `a` then `b` is running `a + b`: the store left by `a` is where
   * `b` starts, and the answers are `a`'s followed by `b`'s.
   */
  lemma {:induction false} RunAppend<T>(store: Store<T>, a: seq<CacheOp<T>>, b: seq<CacheOp<T>>)
    ensures Run(store, a + b).0 == Run(Run(store, a).0, b).0
    ensures Run(store, a + b).1 == Run(store, a).1 + Run(Run(store, a).0, b).1
    decreases |a|
  {
    if a == [] {
      assert a + b == b;
    } else {
      assert (a + b)[0] == a[0];
      assert (a + b)[1..] == a[1..] + b;
      RunAppend(Step(store, a[0]).0, a[1..], b);
    }
  }

  /** A run of one call is that call's step. */
  lemma RunOne<T>(store: Store<T>, op: CacheOp<T>)
    ensures Run(store, [op]).0 == Step(store, op).0
    ensures Run(store, [op]).1 == [Step(store, op).1]
  {
    assert [op][1..] == [];
    var s1 := Step(store, op).0;
    assert Run(s1, []) == (s1, []);
  }

  /** Answer i is what `ops[i]` returns on the store left by the calls before it. */
  lemma RunAnswerAt<T>(store: Store<T>, ops: seq<CacheOp<T>>, i: nat)
    requires i < |ops|
    ensures Run(store, ops).1[i] == Step(Run(store, ops[..i]).0, ops[i]).1
  {
    assert ops == ops[..i] + ops[i..];
    RunAppend(store, ops[..i], ops[i..]);
  }

  /** No call in `ops` saves under `key`. */
  predicate NoSaveOf<T>(ops: seq<CacheOp<T>>, key: string) {
    forall i :: 0 <= i < |ops| ==> !(ops[i].SaveOp? && ops[i].key == key)
  }

  /**
   * Driving a `WeatherCache` through a sequence of calls does to its store,
   * and answers, exactly what `Run` says.
   */
  method Replay<T>(c: WeatherCache<T>, ops: seq<CacheOp<T>>) returns (answers: seq<Option<T>>)
    modifies c
    ensures c.store == Run(old(c.store), ops).0
    ensures answers == Run(old(c.store), ops).1
  {
    answers := [];
    var i := 0;
    while i < |ops|
      invariant 0 <= i <= |ops|
      invariant c.store == Run(old(c.store), ops[..i]).0
      invariant answers == Run(old(c.store), ops[..i]).1
    {
      var before := c.store;
      var out;
      match ops[i] {
        case SaveOp(key, data, now) =>
          c.Save(key, data, now);
          out := None;
        case LoadOp(key, now, expiryMs) =>
          out := c.Load(key, now, expiryMs);
      }
      assert (c.store, out) == Step(before, ops[i]);
      RunAppend(old(c.store), ops[..i], [ops[i]]);
      assert ops[..i + 1] == ops[..i] + [ops[i]];
      RunOne(before, ops[i]);
      answers := answers + [out];
      i := i + 1;
    }
    assert ops[..i] == ops;
  }

  /** On a `WeatherCache` object: save, then load at the same time with any window >= 0, gives the data back. */
  method SaveThenLoadOnCache<T>(c: WeatherCache<T>, key: string, data: T, t: int, expiryMs: int) returns (r: Option<T>)
    requires expiryMs >= 0
    modifies c
    ensures r == Some(data)
    ensures c.store == old(c.store)[key := Entry(t, data)]
  {
    c.Save(key, data, t);
    r := c.Load(key, t, expiryMs);
  }

  /** A loaded payload is never older than the window it was loaded with. */
  lemma LoadIsFresh<T>(store: Store<T>, key: string, now: int, expiryMs: int, d: T)
    requires LoadResult(store, key, now, expiryMs) == Some(d)
    ensures key in store && store[key].data == d
    ensures now - store[key].timestamp <= expiryMs
  {
  }

  /**
   * Save then load at the same clock reading, with any window that is not
   * negative, gives back exactly the saved payload and leaves the saved entry.
   */
  lemma SaveThenLoad<T>(store: Store<T>, key: string, data: T, t: int, expiryMs: int)
    requires expiryMs >= 0
    ensures Run(store, [SaveOp(key, data, t), LoadOp(key, t, expiryMs)]).1[1] == Some(data)
    ensures Run(store, [SaveOp(key, data, t), LoadOp(key, t, expiryMs)]).0 == store[key := Entry(t, data)]
  {
    var load := LoadOp(key, t, expiryMs);
    assert [SaveOp(key, data, t), load][1..] == [load];
    RunOne(store[key := Entry(t, data)], load);
  }

  /** An entry whose age equals the window exactly is still served. */
  lemma AgeEqualToWindowIsServed<T>(store: Store<T>, key: string, expiryMs: int)
    requires key in store
    ensures LoadResult(store, key, store[key].timestamp + expiryMs, expiryMs) == Some(store[key].data)
    ensures AfterLoad(store, key, store[key].timestamp + expiryMs, expiryMs) == store
  {
  }

  /**
   * Once `key` is absent, it stays absent, and every load of it returns null,
   * for as long as no call saves under `key` again.
   */
  lemma {:induction false} AbsentStaysAbsent<T>(store: Store<T>, key: string, ops: seq<CacheOp<T>>)
    requires key !in store
    requires NoSaveOf(ops, key)
    ensures key !in Run(store, ops).0
    ensures forall i :: 0 <= i < |ops| && ops[i].LoadOp? && ops[i].key == key ==> Run(store, ops).1[i] == None
    decreases |ops|
  {
    if ops != [] {
      var s1 := Step(store, ops[0]).0;
      assert key !in s1;
      assert NoSaveOf(ops[1..], key) by {
        forall i | 0 <= i < |ops[1..]| ensures !(ops[1..][i].SaveOp? && ops[1..][i].key == key) {
          assert ops[1..][i] == ops[i + 1];
        }
      }
      AbsentStaysAbsent(s1, key, ops[1..]);
      forall i | 0 <= i < |ops| && ops[i].LoadOp? && ops[i].key == key
        ensures Run(store, ops).1[i] == None
      {
        if i > 0 {
          assert ops[1..][i - 1] == ops[i];
        }
      }
    }
  }

  /**
   * A load that finds its entry stale returns null and purges it; every later
   * load of that key, under any window and clock, returns null until a new save.
   */
  lemma ExpiryIsPermanent<T>(store: Store<T>, key: string, now: int, expiryMs: int, later: seq<CacheOp<T>>)
    requires key in store && Expired(store[key], now, expiryMs)
    requires NoSaveOf(later, key)
    ensures Run(store, [LoadOp(key, now, expiryMs)] + later).1[0] == None
    ensures key !in Run(store, [LoadOp(key, now, expiryMs)] + later).0
    ensures forall i :: 0 <= i < |later| && later[i].LoadOp? && later[i].key == key ==>
              Run(store, [LoadOp(key, now, expiryMs)] + later).1[i + 1] == None
  {
    var ops := [LoadOp(key, now, expiryMs)] + later;
    assert ops[1..] == later;
    var s1 := store - {key};
    assert Step(store, ops[0]) == (s1, None);
    AbsentStaysAbsent(s1, key, later);
  }
}
