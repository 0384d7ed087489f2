/**
 * The repository's own wrapper scenarios, run against the cache-aside
 * protocol with the concrete templates and arguments of its tests.
 */
module Scenarios {
  import opened Wrappers
  import opened KeyTemplate
  import opened MacroArgs
  import opened Pool
  import opened KeyCases
  import opened Executor

  /** The attribute arguments of the nested-field test: the template and `ttl = 100`. */
  const UserAttrArgs := [Literal(StrLit(UserTemplate)), NameValue("ttl", IntLit(100))]

  /**
   * The nested-field wrapper of the repository's test, expanded by
   * mcache-attr from its own attribute arguments and called twice with
   * p = { id: 1, token: "1" }: both calls use the key "user2:1-1" and the
   * body runs once.
   */
  method FetchUserByStructTwice<T(!new)>(slot: Slot, store: Store, comp: Computation<T>, codec: Codec<T>)
    returns (first: Outcome<T>, second: Outcome<T>)
    requires RoundTrips(codec) && slot.current.Some?
    requires "user2:1-1" !in store.entries
    modifies store, comp
    ensures first == second == Returned(comp.body(old(comp.runs)))
    ensures comp.runs == old(comp.runs) + 1
    ensures store.log == old(store.log) +
      [GetOp("user2:1-1"), SetOp("user2:1-1", codec.encode(comp.body(old(comp.runs))), 100), GetOp("user2:1-1")]
    ensures store.entries == old(store.entries)["user2:1-1" := Entry(codec.encode(comp.body(old(comp.runs))), 100)]
  {
    assert LastTtl(UserAttrArgs) == Some(100);
    assert UserAttrArgs[..1] == [Literal(StrLit(UserTemplate))];
    assert LastString(UserAttrArgs) == LastString([Literal(StrLit(UserTemplate))]) == Some(UserTemplate);
    var expanded := ExpandGet(AttrCrate, UserAttrArgs, true);
    var exp := expanded.value;
    NestedFieldKey();
    first, second := CallTwice(AttrCrate, exp, UserArgs, slot, store, comp, codec);
  }
}
