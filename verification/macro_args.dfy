/**
 * What the `get` macros read from their input, before any code is generated.
 *
 * The attribute form, `#[get("user:{id}", ttl = 10000)]`, takes a list of
 * nested meta items: the last string literal is the key template and an
 * integer `ttl = N` sets the expiry in milliseconds (60000 by default). The
 * integer is parsed into a u64 and expansion panics when it does not fit.
 * The three attribute crates read their arguments the same way; they differ
 * in how the ttl reaches the store (a cast to i64, or the u64 as it is) and
 * in whether a sync function is accepted.
 *
 * The function-like form, `get!(key, ttl, async { ... })`, takes exactly a
 * key expression, a comma, an integer literal, a comma and an async block;
 * its ttl is parsed into an i64.
 */
module MacroArgs {
  import opened Wrappers
  import opened KeyTemplate

  const DEFAULT_TTL_MS: nat := 60000

  /** 2^64: the integers a u64 holds are those below it. */
  const U64_LIMIT: nat := 0x1_0000_0000_0000_0000

  /** 2^63: the non-negative integers an i64 holds are those below it. */
  const I64_LIMIT: nat := 0x8000_0000_0000_0000

  /** A literal token; an integer literal carries its value, a leading `-` included. */
  datatype Lit = StrLit(value: string) | IntLit(number: int) | OtherLit

  /** One attribute argument: a bare literal, `name = literal`, or anything else. */
  datatype NestedMeta = Literal(lit: Lit) | NameValue(name: string, lit: Lit) | OtherMeta

  /** Why expansion stops (a panic or a compile error in Rust). */
  datatype ExpandError = InvalidTtl | SyncFunction | MalformedInput

  datatype Config = Config(template: string, ttl: int)

  /** The integers `base10_parse::<u64>` accepts. */
  predicate FitsU64(n: int) {
    0 <= n < U64_LIMIT
  }

  /** The integers `base10_parse::<i64>` accepts. */
  predicate FitsI64(n: int) {
    -(I64_LIMIT as int) <= n < I64_LIMIT
  }

  /** `ttl = N` with an N that is not a u64 (negative, or 2^64 or more): the parse panics on it. */
  predicate Overflows(m: NestedMeta) {
    m.NameValue? && m.name == "ttl" && m.lit.IntLit? && !FitsU64(m.lit.number)
  }

  /** A bare string literal: the key template. */
  predicate IsTemplateArg(m: NestedMeta) {
    m.Literal? && m.lit.StrLit?
  }

  /** `ttl = <integer>`. */
  predicate IsTtlArg(m: NestedMeta) {
    m.NameValue? && m.name == "ttl" && m.lit.IntLit?
  }

  /** The value of the last string literal among the arguments. */
  function LastString(args: seq<NestedMeta>): (r: Option<string>)
    ensures r.None? <==> forall i :: 0 <= i < |args| ==> !IsTemplateArg(args[i])
    ensures r.Some? ==> exists i :: 0 <= i < |args| && args[i] == Literal(StrLit(r.value))
                          && forall j :: i < j < |args| ==> !IsTemplateArg(args[j])
  {
    if args == [] then None
    else
      var m := args[|args| - 1];
      if IsTemplateArg(m) then Some(m.lit.value) else LastString(args[..|args| - 1])
  }

  /** The value of the last integer `ttl = N` among the arguments. */
  function LastTtl(args: seq<NestedMeta>): (r: Option<int>)
    ensures r.None? <==> forall i :: 0 <= i < |args| ==> !IsTtlArg(args[i])
    ensures r.Some? ==> exists i :: 0 <= i < |args| && args[i] == NameValue("ttl", IntLit(r.value))
                          && forall j :: i < j < |args| ==> !IsTtlArg(args[j])
  {
    if args == [] then None
    else
      var m := args[|args| - 1];
      if IsTtlArg(m) then Some(m.lit.number) else LastTtl(args[..|args| - 1])
  }

  function TemplateOf(args: seq<NestedMeta>): string {
    match LastString(args)
    case None => ""
    case Some(t) => t
  }

  function TtlOf(args: seq<NestedMeta>): int {
    match LastTtl(args)
    case None => DEFAULT_TTL_MS
    case Some(n) => n
  }

  /**
   * The argument loop of the attribute macros. A string literal replaces the
   * template; an integer `ttl` replaces the ttl, or stops expansion when it
   * is not a u64; every other argument is skipped.
   */
  method ParseAttributeArgs(args: seq<NestedMeta>) returns (r: Result<Config, ExpandError>)
    ensures r.Err? <==> exists i :: 0 <= i < |args| && Overflows(args[i])
    ensures r.Err? ==> r.error == InvalidTtl
    ensures r.Ok? ==> r.value == Config(TemplateOf(args), TtlOf(args)) && FitsU64(r.value.ttl)
  {
    var template := "";
    var ttl := DEFAULT_TTL_MS;
    for i := 0 to |args|
      invariant template == TemplateOf(args[..i])
      invariant ttl == TtlOf(args[..i]) && FitsU64(ttl)
      invariant forall j :: 0 <= j < i ==> !Overflows(args[j])
    {
      assert args[..i + 1][..i] == args[..i];
      match args[i]
      case Literal(StrLit(v)) =>
        template := v;
      case NameValue(name, IntLit(n)) =>
        if name == "ttl" {
          if !FitsU64(n) {
            return Err(InvalidTtl);
          }
          ttl := n;
        }
      case _ =>
    }
    assert args[..|args|] == args;
    return Ok(Config(template, ttl));
  }

  /** Only the last string literal counts: earlier ones are overwritten. */
  lemma {:induction false} LaterTemplateWins(args: seq<NestedMeta>, t: string)
    ensures TemplateOf(args + [Literal(StrLit(t))]) == t
  {
    assert (args + [Literal(StrLit(t))])[..|args|] == args;
  }

  /** Arguments that are neither a string literal nor `ttl = <integer>` change nothing. */
  lemma {:induction false} IgnoredArgument(args: seq<NestedMeta>, m: NestedMeta)
    requires !(m.Literal? && m.lit.StrLit?) && !(m.NameValue? && m.name == "ttl" && m.lit.IntLit?)
    ensures TemplateOf(args + [m]) == TemplateOf(args) && TtlOf(args + [m]) == TtlOf(args)
  {
    assert (args + [m])[..|args|] == args;
  }

  // ---------------------------------------------------------------------
  // The ttl as it reaches the store

  /** The three attribute crates. */
  datatype Variant =
    | AttrCrate   // mcache-attr: async functions only, pool from the global slot
    | RootCrate   // the root crate: sync and async, a fresh Redis connection, PSETEX
    | MacroCrate  // mcache-macro: sync and async, pool from the global slot

  /** `ttl as i64`: a u64 at or above 2^63 wraps to a negative number. */
  function AsI64(ttl: int): (px: int)
    requires FitsU64(ttl)
    ensures FitsI64(px)
    ensures (px - ttl) % (U64_LIMIT as int) == 0
  {
    if ttl < I64_LIMIT then ttl else ttl - U64_LIMIT
  }

  /** The expiry argument handed to the store for a parsed ttl. */
  function ExpiryArg(variant: Variant, ttl: int): (px: int)
    requires FitsU64(ttl)
    ensures (px - ttl) % (U64_LIMIT as int) == 0
    ensures px == ttl <==> variant == RootCrate || ttl < I64_LIMIT
  {
    if variant == RootCrate then ttl else AsI64(ttl)
  }

  /** Every variant passes the same positive expiry as long as the ttl fits an i64. */
  lemma ExpiryAgrees(variant: Variant, ttl: int)
    requires FitsU64(ttl)
    ensures ttl < I64_LIMIT ==> ExpiryArg(variant, ttl) == ttl
    ensures ttl >= I64_LIMIT ==> (ExpiryArg(variant, ttl) < 0 <==> variant != RootCrate)
  {
  }

  // ---------------------------------------------------------------------
  // Expanding the attribute

  /** What the generated wrapper is built from. */
  datatype Expansion = Expansion(template: string, edits: seq<Replace>, expiry: int, sync: bool)

  /**
   * Read the arguments, scan the template, then (mcache-attr only) refuse a
   * function that is not async. The scan itself cannot fail.
   */
  method ExpandGet(variant: Variant, args: seq<NestedMeta>, isAsync: bool) returns (r: Result<Expansion, ExpandError>)
    ensures r == Err(InvalidTtl) <==> exists i :: 0 <= i < |args| && Overflows(args[i])
    ensures r == Err(SyncFunction) <==>
      (forall i :: 0 <= i < |args| ==> !Overflows(args[i])) && variant == AttrCrate && !isAsync
    ensures r.Ok? <==> (forall i :: 0 <= i < |args| ==> !Overflows(args[i])) && !(variant == AttrCrate && !isAsync)
    ensures r.Ok? ==>
      && FitsU64(TtlOf(args))
      && r.value == Expansion(TemplateOf(args), Replaces(TemplateOf(args)), ExpiryArg(variant, TtlOf(args)), !isAsync)
  {
    var config := ParseAttributeArgs(args);
    if config.Err? {
      return Err(config.error);
    }
    var edits := CompileReplaces(config.value.template);
    if variant == AttrCrate && !isAsync {
      return Err(SyncFunction);
    }
    return Ok(Expansion(config.value.template, edits, ExpiryArg(variant, config.value.ttl), !isAsync));
  }

  // ---------------------------------------------------------------------
  // The input of get!(key, ttl, async { ... })

  /** A top-level item of the macro input. */
  datatype Item =
    | Expression(text: string)   // any expression that is not one of the two kinds below
    | IntLiteral(value: int)
    | AsyncBlock(body: string)
    | Comma
    | Punct(symbol: string)      // any other token that cannot start an expression

  predicate IsExpression(t: Item) {
    t.Expression? || t.IntLiteral? || t.AsyncBlock?
  }

  datatype GetInput = GetInput(key: Item, ttl: int, body: string)

  /** The only shape accepted: expression, comma, integer literal, comma, async block, nothing more. */
  predicate WellShaped(items: seq<Item>) {
    && |items| == 5
    && IsExpression(items[0])
    && items[1] == Comma
    && items[2].IntLiteral?
    && items[3] == Comma
    && items[4].AsyncBlock?
  }

  /** A stream of items consumed from the front, one parse at a time. */
  class ParseStream {
    const items: seq<Item>
    var pos: nat

    constructor (items: seq<Item>)
      ensures this.items == items && pos == 0
    {
      this.items := items;
      pos := 0;
    }

    predicate Valid()
      reads this
    {
      pos <= |items|
    }

    /** Take one item when it satisfies the expected kind; otherwise fail and leave the stream. */
    method Take(kind: Item -> bool) returns (r: Option<Item>)
      requires Valid()
      modifies this
      ensures Valid()
      ensures if old(pos) < |items| && kind(items[old(pos)])
              then r == Some(items[old(pos)]) && pos == old(pos) + 1
              else r == None && pos == old(pos)
    {
      if pos < |items| && kind(items[pos]) {
        r := Some(items[pos]);
        pos := pos + 1;
      } else {
        r := None;
      }
    }
  }

  /**
   * The five parses in order, each of which fails the whole input, followed
   * by the check that the input is used up.
   */
  method ParseGetInput(items: seq<Item>) returns (r: Result<GetInput, ExpandError>)
    ensures r.Ok? <==> WellShaped(items)
    ensures r.Err? ==> r.error == MalformedInput
    ensures r.Ok? ==> r.value == GetInput(items[0], items[2].value, items[4].body)
  {
    var input := new ParseStream(items);
    var key := input.Take(IsExpression);
    if key.None? { return Err(MalformedInput); }
    var comma1 := input.Take((t: Item) => t == Comma);
    if comma1.None? { return Err(MalformedInput); }
    var ttl := input.Take((t: Item) => t.IntLiteral?);
    if ttl.None? { return Err(MalformedInput); }
    var comma2 := input.Take((t: Item) => t == Comma);
    if comma2.None? { return Err(MalformedInput); }
    var body := input.Take((t: Item) => t.AsyncBlock?);
    if body.None? { return Err(MalformedInput); }
    if input.pos != |items| { return Err(MalformedInput); }
    return Ok(GetInput(key.value, ttl.value.value, body.value.body));
  }

  /**
   * What the get! expansion is built from: the key expression, evaluated and
   * turned into a string when the call runs, the ttl as an i64, and the body.
   */
  datatype CallExpansion = CallExpansion(key: Item, ttl: int, body: string)

  /** Parse the input, then the ttl literal into an i64 (a panic when it does not fit). */
  method ExpandGetCall(items: seq<Item>) returns (r: Result<CallExpansion, ExpandError>)
    ensures r == Err(MalformedInput) <==> !WellShaped(items)
    ensures r == Err(InvalidTtl) <==> WellShaped(items) && !FitsI64(items[2].value)
    ensures r.Ok? <==> WellShaped(items) && FitsI64(items[2].value)
    ensures r.Ok? ==> r.value == CallExpansion(items[0], items[2].value, items[4].body)
                      && FitsI64(r.value.ttl)
  {
    var input := ParseGetInput(items);
    if input.Err? {
      return Err(input.error);
    }
    if !FitsI64(input.value.ttl) {
      return Err(InvalidTtl);
    }
    return Ok(CallExpansion(input.value.key, input.value.ttl, input.value.body));
  }
}
