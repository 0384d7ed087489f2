/**
 * The cache-aside protocol the macros generate around a function body.
 *
 * A call obtains a store handle, builds the key, and issues one GET. A
 * successful GET is decoded and returned without running the body (a value
 * that does not decode aborts the call). Otherwise the body runs once, its
 * result is encoded and written with one SET carrying the expiry in
 * milliseconds, and the result is returned (a failed SET aborts the call).
 *
 * The store is a map from keys to entries with a log of the requests it
 * received; whether a request fails is chosen by the environment. The body
 * is a function of how many times it has already run, which is enough to
 * observe whether and how often it ran. The codec is a pair of functions;
 * where a property needs decoding to undo encoding, it says so in `requires`.
 */
module Executor {
  import opened Wrappers
  import opened KeyTemplate
  import opened MacroArgs
  import opened Pool

  /** A stored value and the expiry (ms) it was written with. */
  datatype Entry = Entry(data: string, expiry: int)

  /** A request as the store receives it. */
  datatype Op = GetOp(key: string) | SetOp(key: string, data: string, expiry: int)

  /** Why a call ends without a value (a panic in Rust, or no wrapper at all). */
  datatype Abort =
    | PoolMissing                   // pool() on an empty slot
    | ConnectFailed                 // the root crate could not open a connection
    | Unbound(error: BindingError)  // a placeholder path with no string form: a compile error in Rust
    | DecodeFailed                  // a hit that does not decode
    | SetFailed                     // the write after a miss failed

  datatype Outcome<T> = Returned(value: T) | Aborted(reason: Abort)

  datatype Codec<!T> = Codec(encode: T -> string, decode: string -> Option<T>)

  ghost predicate RoundTrips<T(!new)>(codec: Codec<T>) {
    forall v :: codec.decode(codec.encode(v)) == Some(v)
  }

  /** Which store requests fail on this call. */
  datatype Faults = Faults(getFails: bool, setFails: bool)

  const NoFaults := Faults(false, false)

  /** The effect of one call: its outcome, the new entries and run count, and the requests issued. */
  datatype Call<T> = Call(outcome: Outcome<T>, entries: map<string, Entry>, runs: nat, ops: seq<Op>)

  /** A GET succeeds when it does not fail and the key holds an entry. */
  predicate Hit(entries: map<string, Entry>, key: string, faults: Faults) {
    !faults.getFails && key in entries
  }

  /** One cache-aside call on a known key. */
  function CacheAside<T>(entries: map<string, Entry>, runs: nat, key: string, expiry: int,
                         codec: Codec<T>, body: nat -> T, faults: Faults): (c: Call<T>)
    ensures c.outcome.Returned? ==> key in c.entries
    ensures entries.Keys <= c.entries.Keys && c.runs <= runs + 1
  {
    if Hit(entries, key, faults) then
      var decoded := codec.decode(entries[key].data);
      Call(if decoded.Some? then Returned(decoded.value) else Aborted(DecodeFailed), entries, runs, [GetOp(key)])
    else
      var v := body(runs);
      var data := codec.encode(v);
      var ops := [GetOp(key), SetOp(key, data, expiry)];
      if faults.setFails then Call(Aborted(SetFailed), entries, runs + 1, ops)
      else Call(Returned(v), entries[key := Entry(data, expiry)], runs + 1, ops)
  }

  /** On a hit the stored value is decoded and returned; the body does not run and nothing is written. */
  lemma HitSkipsBody<T>(entries: map<string, Entry>, runs: nat, key: string, expiry: int,
                        codec: Codec<T>, body: nat -> T, faults: Faults)
    requires Hit(entries, key, faults)
    ensures var c := CacheAside(entries, runs, key, expiry, codec, body, faults);
      && c.runs == runs && c.entries == entries && c.ops == [GetOp(key)]
      && (c.outcome.Returned? <==> codec.decode(entries[key].data).Some?)
      && (c.outcome.Returned? ==> Some(c.outcome.value) == codec.decode(entries[key].data))
      && (c.outcome.Aborted? ==> c.outcome.reason == DecodeFailed)
  {
  }

  /**
   * On a miss the body runs exactly once; its encoded result is written under
   * the same key with the expiry; the result is returned unless the write fails.
   */
  lemma MissRunsBodyOnce<T>(entries: map<string, Entry>, runs: nat, key: string, expiry: int,
                            codec: Codec<T>, body: nat -> T, faults: Faults)
    requires !Hit(entries, key, faults)
    ensures var c := CacheAside(entries, runs, key, expiry, codec, body, faults);
      && c.runs == runs + 1
      && c.ops == [GetOp(key), SetOp(key, codec.encode(body(runs)), expiry)]
      && (c.outcome.Returned? <==> !faults.setFails)
      && (c.outcome.Returned? ==> c.outcome.value == body(runs)
                                  && c.entries == entries[key := Entry(codec.encode(body(runs)), expiry)])
      && (c.outcome.Aborted? ==> c.outcome.reason == SetFailed && c.entries == entries)
  {
  }

  /** Every call issues one GET, then at most one SET, both on the call's key. */
  lemma OneGetAtMostOneSet<T>(entries: map<string, Entry>, runs: nat, key: string, expiry: int,
                              codec: Codec<T>, body: nat -> T, faults: Faults)
    ensures var c := CacheAside(entries, runs, key, expiry, codec, body, faults);
      && 1 <= |c.ops| <= 2 && c.ops[0] == GetOp(key)
      && (forall i :: 0 <= i < |c.ops| ==> c.ops[i].key == key)
      && (|c.ops| == 2 <==> c.runs == runs + 1)
  {
  }

  /** A call changes no entry but its own key's. */
  lemma OtherKeysUntouched<T>(entries: map<string, Entry>, runs: nat, key: string, expiry: int,
                              codec: Codec<T>, body: nat -> T, faults: Faults, other: string)
    requires other != key
    ensures var c := CacheAside(entries, runs, key, expiry, codec, body, faults);
      && (other in c.entries <==> other in entries)
      && (other in entries ==> c.entries[other] == entries[other])
  {
  }

  /**
   * A completed miss makes the next identical call a hit that returns the
   * same value without running the body, when decoding undoes encoding. This
   * holds for every value, `None` included.
   */
  lemma MissThenHit<T(!new)>(entries: map<string, Entry>, runs: nat, key: string, expiry: int,
                       codec: Codec<T>, body: nat -> T, faults: Faults)
    requires RoundTrips(codec)
    requires CacheAside(entries, runs, key, expiry, codec, body, faults).outcome.Returned?
    requires !Hit(entries, key, faults)
    ensures var first := CacheAside(entries, runs, key, expiry, codec, body, faults);
      var second := CacheAside(first.entries, first.runs, key, expiry, codec, body, NoFaults);
      && second.outcome == first.outcome
      && second.runs == first.runs
      && second.entries == first.entries
  {
    var first := CacheAside(entries, runs, key, expiry, codec, body, faults);
    assert first.entries[key].data == codec.encode(body(runs));
    assert codec.decode(codec.encode(body(runs))) == Some(body(runs));
  }

  /**
   * Calls on distinct keys do not interfere: after a completed call on k1, a
   * call on k2 leaves k1's entry in place, so a third call on k1 still hits.
   */
  lemma DistinctKeysIndependent<T>(entries: map<string, Entry>, runs: nat, k1: string, k2: string, expiry: int,
                                   codec: Codec<T>, body: nat -> T, f1: Faults, f2: Faults)
    requires k1 != k2
    requires CacheAside(entries, runs, k1, expiry, codec, body, f1).outcome.Returned?
    ensures var first := CacheAside(entries, runs, k1, expiry, codec, body, f1);
      var second := CacheAside(first.entries, first.runs, k2, expiry, codec, body, f2);
      && k1 in second.entries && second.entries[k1] == first.entries[k1]
      && Hit(second.entries, k1, NoFaults)
  {
    var first := CacheAside(entries, runs, k1, expiry, codec, body, f1);
    if Hit(entries, k1, f1) {
      assert first.entries == entries;
    }
    OtherKeysUntouched(first.entries, first.runs, k2, expiry, codec, body, f2, k1);
  }

  // ---------------------------------------------------------------------
  // The store and the body as objects

  class Store {
    var entries: map<string, Entry>
    var log: seq<Op>

    constructor ()
      ensures entries == map[] && log == []
    {
      entries := map[];
      log := [];
    }

    /** GET: the stored data, or nothing when the key is absent or the request fails. */
    method Get(key: string, fails: bool) returns (r: Option<string>)
      modifies this
      ensures entries == old(entries) && log == old(log) + [GetOp(key)]
      ensures r.Some? <==> !fails && key in entries
      ensures r.Some? ==> r.value == entries[key].data
    {
      log := log + [GetOp(key)];
      if !fails && key in entries {
        r := Some(entries[key].data);
      } else {
        r := None;
      }
    }

    /** SET with an expiry in milliseconds; a failed request changes no entry. */
    method Set(key: string, data: string, expiry: int, fails: bool) returns (ok: bool)
      modifies this
      ensures ok == !fails
      ensures log == old(log) + [SetOp(key, data, expiry)]
      ensures entries == if fails then old(entries) else old(entries)[key := Entry(data, expiry)]
    {
      log := log + [SetOp(key, data, expiry)];
      ok := !fails;
      if ok {
        entries := entries[key := Entry(data, expiry)];
      }
    }
  }

  /** The wrapped function's body and how many times it has run. */
  class Computation<T> {
    const body: nat -> T
    var runs: nat

    constructor (body: nat -> T)
      ensures this.body == body && runs == 0
    {
      this.body := body;
      runs := 0;
    }

    method Run() returns (v: T)
      modifies this
      ensures v == body(old(runs)) && runs == old(runs) + 1
    {
      v := body(runs);
      runs := runs + 1;
    }
  }

  /** GET, then on a miss run the body and SET its encoded result. */
  method CachedCall<T>(store: Store, comp: Computation<T>, key: string, expiry: int, codec: Codec<T>, faults: Faults)
    returns (out: Outcome<T>)
    modifies store, comp
    ensures var c := CacheAside(old(store.entries), old(comp.runs), key, expiry, codec, comp.body, faults);
      && out == c.outcome
      && store.entries == c.entries
      && comp.runs == c.runs
      && store.log == old(store.log) + c.ops
  {
    var cached := store.Get(key, faults.getFails);
    if cached.Some? {
      var decoded := codec.decode(cached.value);
      if decoded.None? {
        return Aborted(DecodeFailed);
      }
      return Returned(decoded.value);
    }
    var result := comp.Run();
    var serialized := codec.encode(result);
    var ok := store.Set(key, serialized, expiry, faults.setFails);
    if !ok {
      return Aborted(SetFailed);
    }
    return Returned(result);
  }

  // ---------------------------------------------------------------------
  // The generated wrappers

  /** The whole wrapper of an attribute macro: acquire the store, build the key, then cache-aside. */
  function Wrapper<T>(variant: Variant, exp: Expansion, args: map<string, Value>, poolReady: bool, connectFails: bool,
                      entries: map<string, Entry>, runs: nat, codec: Codec<T>, body: nat -> T, faults: Faults): (c: Call<T>)
    requires WellFormed(exp.edits)
    ensures c.outcome.Returned? ==>
      Substitute(exp.template, exp.edits, args).Ok? && Substitute(exp.template, exp.edits, args).value in c.entries
    ensures entries.Keys <= c.entries.Keys && c.runs <= runs + 1
  {
    if variant == RootCrate && connectFails then Call(Aborted(ConnectFailed), entries, runs, [])
    else if variant != RootCrate && !poolReady then Call(Aborted(PoolMissing), entries, runs, [])
    else
      match Substitute(exp.template, exp.edits, args)
      case Err(e) => Call(Aborted(Unbound(e)), entries, runs, [])
      case Ok(key) => CacheAside(entries, runs, key, exp.expiry, codec, body, faults)
  }

  /**
   * The wrapper touches the store only after it holds a pool (or a
   * connection) and a key; it then issues the GET on the derived key. Any
   * earlier stop leaves the store and the body untouched.
   */
  lemma WrapperOrder<T>(variant: Variant, args: seq<NestedMeta>, isAsync: bool, a: map<string, Value>,
                        poolReady: bool, connectFails: bool, entries: map<string, Entry>, runs: nat,
                        codec: Codec<T>, body: nat -> T, faults: Faults)
    requires FitsU64(TtlOf(args))
    ensures var exp := Expansion(TemplateOf(args), Replaces(TemplateOf(args)), ExpiryArg(variant, TtlOf(args)), !isAsync);
      var c := Wrapper(variant, exp, a, poolReady, connectFails, entries, runs, codec, body, faults);
      var ready := if variant == RootCrate then !connectFails else poolReady;
      var key := DeriveKey(TemplateOf(args), a);
      && (c.ops != [] <==> ready && key.Ok?)
      && (c.ops != [] ==> c.ops[0] == GetOp(key.value))
      && (c.ops == [] ==> c.entries == entries && c.runs == runs)
      && (!ready ==> c.outcome == Aborted(if variant == RootCrate then ConnectFailed else PoolMissing))
      && (ready && key.Err? ==> c.outcome == Aborted(Unbound(key.error)))
  {
  }

  /**
   * The body of an attribute-generated wrapper. The root crate opens a
   * connection (which may fail); the others read the pool slot. The key is
   * built before the store is touched. Sync and async wrappers run the same
   * steps.
   */
  method GeneratedBody<T>(variant: Variant, exp: Expansion, args: map<string, Value>, slot: Slot, connectFails: bool,
                          store: Store, comp: Computation<T>, codec: Codec<T>, faults: Faults)
    returns (out: Outcome<T>)
    requires WellFormed(exp.edits)
    modifies store, comp
    ensures var c := Wrapper(variant, exp, args, old(slot.current).Some?, connectFails,
                             old(store.entries), old(comp.runs), codec, comp.body, faults);
      && out == c.outcome
      && store.entries == c.entries
      && comp.runs == c.runs
      && store.log == old(store.log) + c.ops
  {
    if variant == RootCrate {
      if connectFails {
        return Aborted(ConnectFailed);
      }
    } else {
      var pool := slot.Get();
      if pool.Err? {
        return Aborted(PoolMissing);
      }
    }
    var key := BuildKey(exp.template, exp.edits, args);
    if key.Err? {
      return Aborted(Unbound(key.error));
    }
    out := CachedCall(store, comp, key.value, exp.expiry, codec, faults);
  }

  /**
   * The body of get!(key, ttl, async { ... }): read the pool slot, turn the
   * evaluated key expression into a string and use it as the key as it is,
   * then cache-aside with the ttl as expiry.
   */
  method GetCallBody<T>(exp: CallExpansion, keyValue: string, slot: Slot,
                        store: Store, comp: Computation<T>, codec: Codec<T>, faults: Faults)
    returns (out: Outcome<T>)
    modifies store, comp
    ensures if old(slot.current).None? then
        && out == Aborted(PoolMissing)
        && store.entries == old(store.entries) && store.log == old(store.log) && comp.runs == old(comp.runs)
      else
        var c := CacheAside(old(store.entries), old(comp.runs), keyValue, exp.ttl, codec, comp.body, faults);
        && out == c.outcome
        && store.entries == c.entries
        && comp.runs == c.runs
        && store.log == old(store.log) + c.ops
  {
    var pool := slot.Get();
    if pool.Err? {
      return Aborted(PoolMissing);
    }
    out := CachedCall(store, comp, keyValue, exp.ttl, codec, faults);
  }

  /**
   * The same call twice on a fresh key: the first misses, runs the body and
   * stores the result; the second returns the same result from the store
   * without running the body. Holds for any result, an absent one included.
   */
  method CallTwice<T(!new)>(variant: Variant, exp: Expansion, args: map<string, Value>, slot: Slot,
                            store: Store, comp: Computation<T>, codec: Codec<T>)
    returns (first: Outcome<T>, second: Outcome<T>)
    requires WellFormed(exp.edits) && RoundTrips(codec)
    requires variant != RootCrate ==> slot.current.Some?
    requires Substitute(exp.template, exp.edits, args).Ok?
    requires Substitute(exp.template, exp.edits, args).value !in store.entries
    modifies store, comp
    ensures first == Returned(comp.body(old(comp.runs))) && second == first
    ensures comp.runs == old(comp.runs) + 1
    ensures var key := Substitute(exp.template, exp.edits, args).value;
      && store.log == old(store.log) + [GetOp(key), SetOp(key, codec.encode(comp.body(old(comp.runs))), exp.expiry), GetOp(key)]
      && store.entries == old(store.entries)[key := Entry(codec.encode(comp.body(old(comp.runs))), exp.expiry)]
  {
    ghost var key := Substitute(exp.template, exp.edits, args).value;
    MissRunsBodyOnce(store.entries, comp.runs, key, exp.expiry, codec, comp.body, NoFaults);
    first := GeneratedBody(variant, exp, args, slot, false, store, comp, codec, NoFaults);
    MissThenHit(old(store.entries), old(comp.runs), key, exp.expiry, codec, comp.body, NoFaults);
    second := GeneratedBody(variant, exp, args, slot, false, store, comp, codec, NoFaults);
  }
}
