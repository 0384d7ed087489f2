# mcache, modelled in Dafny

mcache puts a cache-aside Redis cache in front of a Rust function. The
attribute `#[get("user:{id}-{token}", ttl = 10000)]` rewrites the function
so that each call does four things:

1. It obtains a store handle. The root crate opens a fresh connection. The
   `mcache-attr` and `mcache-macro` crates read a process-wide pool slot
   filled by `mcache_core::init`.
2. It builds the key. It starts from the template and runs one
   `cache_key.replace("{path}", &(path).to_string())` statement per
   placeholder, in template order.
3. It issues one GET. On success the stored JSON is decoded and returned.
4. Otherwise it runs the body, encodes the result, writes it with one SET
   (expiry in milliseconds) and returns it.

The function-like `get!(key_expr, ttl, async { ... })` of `mcache-call` does
the same around an async block, with a key computed at run time.

The project models the following:

- **The placeholder scanner.** `placeholder.dfy` writes the pattern
  `\{([a-zA-Z_]\w*(?:\.[a-zA-Z_]\w*)*)\}` out as a scanner over positions. It
  proves that the scan finds exactly the leftmost, non-overlapping matches.
  It also models the split of a path on `.`.
- **Key construction.** `key_template.dfy` gives a template two readings:
  - the expansion-time list of replace statements, one per match, each
    carrying the match's text and its split path;
  - a list of literal pieces and holes.

  The pieces round-trip with the template text. It proves that running the
  replace statements gives exactly the template with each hole written as
  its value, whenever neither the literal text nor any value holds `{`.
  `key_cases.dfy` works through concrete templates, including the
  nested-field key of the repository's test.
- **Argument parsing.** `macro_args.dfy` covers:
  - the attribute's argument loop: last string wins, `ttl` defaults to
    60000 and must fit a u64 (a negative literal is refused);
  - the async-only rule of `mcache-attr`;
  - the ttl as each crate hands it to the store;
  - the exact shape the `get!` input must have.
- **The pool slot.** `pool.dfy` is the slot of `mcache-core`.
- **The executor.** `executor.dfy` states the cache-aside protocol as a
  function. It then implements it with a `Store` and a `Computation` class
  and the generated bodies, each proved to follow that function.
  `scenarios.dfy` runs the nested-field wrapper of the repository's test
  against it.

Two failures abort the call through `.unwrap()`:

- a failed SET after the body has run;
- a stored value that does not decode.

A failed GET is a miss. The nested-field example follows
`tests/get_macro.rs:82-92`: with `p = {id: 1, token: "1"}` the key is
`user2:1-1`.

## Model

| member | source | states |
|---|---|---|
| Placeholder.PathEndIsMaximal | mcache-attr/src/lib.rs:35 | the run of word characters and dots after a position ends exactly at the first character that is neither |
| Placeholder.MatchAtIsTheMatch | mcache-attr/src/lib.rs:35 | a match found at a position is a real one (`{`, a path, `}`), and any match starting there is the one found: matches are unique per start |
| Placeholder.MatchAt | mcache-attr/src/lib.rs:35 | a match found at a position starts with `{` there and ends with a `}` at least two characters further on, inside the text |
| Placeholder.ScanSpans | mcache-attr/src/lib.rs:38 | every span the scan yields is a match at or after its start position, and each span starts after the previous one's `}` |
| Placeholder.Scan | mcache-attr/src/lib.rs:35-38 | the scan from a position yields at most one match per three characters of the rest, since every match takes `{`, an identifier character and `}`; where a match stands it is recorded and the scan resumes after its `}` (ScanTakes) |
| Placeholder.ScanComplete | mcache-attr/src/lib.rs:38 | every position where the pattern matches starts one of the scanned spans (no match is skipped) |
| Placeholder.ScanPasses | mcache-attr/src/lib.rs:38 | text without `{` contributes no match |
| Placeholder.Matches | mcache-attr/src/lib.rs:38 | the captures of the whole template are braced spans inside it, in order and without overlap |
| Placeholder.MatchesMatch | mcache-attr/src/lib.rs:35-38 | every capture of the whole template is a match of the pattern |
| Placeholder.MatchesExactly | mcache-attr/src/lib.rs:35-38 | a position starts a match if and only if it starts one of the scanned spans |
| Placeholder.FirstDot | mcache-attr/src/lib.rs:43 | the first `.` at or after a position, or the end |
| Placeholder.Split | mcache-attr/src/lib.rs:43 | `split('.')` always yields at least one part |
| Placeholder.JoinSplit | mcache-attr/src/lib.rs:43-49 | joining the parts with `.` gives the path back |
| Placeholder.SplitCount | mcache-attr/src/lib.rs:43-49 | a path splits into one part more than it has dots |
| Placeholder.SplitNoDots | mcache-attr/src/lib.rs:43-49 | no part holds a dot |
| Placeholder.SplitPath | mcache-attr/src/lib.rs:43-49 | a matched path splits into non-empty identifiers, so every `Ident::new` call gets a valid name |
| KeyTemplate.ReplaceSkip | mcache-attr/src/lib.rs:53-56 | `replace` of a placeholder text keeps a prefix without `{` unchanged |
| KeyTemplate.ReplaceAll | mcache-attr/src/lib.rs:53-56 | replacing a text by itself leaves the string unchanged; an occurrence at the front is rewritten and the rest is replaced after it (ReplaceHit) |
| KeyTemplate.ReplaceOne | mcache-attr/src/lib.rs:53-56 | one placeholder between texts without `{` becomes the value, whatever the value holds, because `replace` does not look again at what it inserted |
| KeyTemplate.ReplaceOther | mcache-attr/src/lib.rs:53-56 | `replace` of one placeholder leaves the text of a different placeholder alone |
| KeyTemplate.Braced | mcache-attr/src/lib.rs:39 | the full text of a placeholder is its path between `{` and `}` |
| KeyTemplate.TemplateRoundTrip | mcache-attr/src/lib.rs:35-58 | the literal pieces and placeholders the scan cuts a template into write back out to the template |
| KeyTemplate.CompileText | mcache-attr/src/lib.rs:35-58 | conversely, a list of brace-free literals alternating with paths is what the scan reads back from its text |
| KeyTemplate.PiecesHoles | mcache-attr/src/lib.rs:38-40 | the holes of a compiled template are the captured paths, one per match, in order |
| KeyTemplate.ReplacesFor | mcache-attr/src/lib.rs:51-57 | one replace statement per path, carrying its braced text and its split path |
| KeyTemplate.Replaces | mcache-attr/src/lib.rs:37-58 | a template yields exactly one replace statement per match |
| KeyTemplate.ReplacesAt | mcache-attr/src/lib.rs:38-57 | the k-th statement belongs to the k-th match |
| KeyTemplate.FullIsBraced | mcache-attr/src/lib.rs:39-40 | capture 0 is capture 1 between braces |
| KeyTemplate.CompileReplaces | mcache-attr/src/lib.rs:37-58 | the expansion loop over the captures builds exactly the template's replace statements |
| KeyTemplate.ReplacesAreIdentifierChains | mcache-attr/src/lib.rs:38-49 | each statement's text is the match and its path is a chain of identifiers that joins back to the capture, one more than the dots |
| KeyTemplate.Walk | mcache-attr/src/lib.rs:43-49 | a chain of field accesses fails only on a field the value does not have, and names that field; with WalkStep (one access) and WalkThen (splitting a chain) this fixes the result of every chain |
| KeyTemplate.WalkStep | mcache-attr/src/lib.rs:47-48 | one field access yields that field of a record, and otherwise fails naming the field |
| KeyTemplate.WalkThen | mcache-attr/src/lib.rs:45-48 | `a.f.g` is `(a.f).g`: a field chain can be split at any point |
| KeyTemplate.Resolve | mcache-attr/src/lib.rs:43-55 | the string form of a path: an unknown first name is exactly the "unknown argument" failure; a success is the text of the leaf the field chain reaches, and when the chain reaches a leaf the result is that text (a record instead is "not displayable"); a failing field walk is reported as Walk's own unknown-field error |
| KeyTemplate.SubstituteOutcome | mcache-attr/src/lib.rs:75-76 | the replace statements fail exactly when some path has no string form, and then with the error of the first such path |
| KeyTemplate.DeriveKeyFails | mcache-attr/src/lib.rs:35-58 | a template's key fails exactly when some placeholder's path has no string form |
| KeyTemplate.BuildKey | mcache-attr/src/lib.rs:75-76 | the generated statements, run in order from the template text, give the sequential substitution or stop at the first path without a string form |
| KeyTemplate.NoPlaceholdersKey | mcache-attr/src/lib.rs:75-76 | a template with no match is its own key |
| KeyTemplate.ReplaceText | mcache-attr/src/lib.rs:53-56 | on a key made of brace-free literals and placeholders, one replace turns exactly the holes of its path into the value |
| KeyTemplate.SubstituteFills | mcache-attr/src/lib.rs:75-76 | running the statements for a list of paths fills those holes, or fails at the first path that cannot be resolved |
| KeyTemplate.RenderFills | mcache-attr/src/lib.rs:75-76 | rendering the pieces fills every hole, or fails at the first path that cannot be resolved |
| KeyTemplate.KeyIsRendering | mcache-attr/src/lib.rs:51-58 | when literals and values hold no `{`, the key equals the template with each placeholder written as its value, errors included |
| KeyCases.UserCompiles | tests/get_macro.rs:44 | `user2:{p.id}-{p.token}` compiles to `user2:`, hole `p.id`, `-`, hole `p.token`, `` |
| KeyCases.NestedFieldKey | tests/get_macro.rs:82-92 | with p = {id: 1, token: "1"} that template gives the key `user2:1-1` |
| KeyCases.OneHoleKey | mcache-attr/src/lib.rs:35-58 | a single placeholder between brace-free literals becomes its value, for every literal, path and value (a value holding `{` included) |
| KeyCases.ItemKey | mcache-attr/src/lib.rs:35-58 | `item:{id}` gives `item:` followed by the value of id, whatever that value holds |
| KeyCases.ItemKeysDiffer | mcache-attr/src/lib.rs:35-58 | any two different values of the argument give different keys |
| KeyCases.EmptyBracesKept | mcache-attr/src/lib.rs:35 | `{}` is not a placeholder and stays in the key |
| KeyCases.DigitFirstKept | mcache-attr/src/lib.rs:35 | `{1a}` is not a placeholder (a path starts with a letter or `_`) |
| KeyCases.DoubleDotKept | mcache-attr/src/lib.rs:35 | `{a..b}` is not a placeholder (every dot is followed by an identifier) |
| KeyCases.UnclosedKept | mcache-attr/src/lib.rs:35 | `{x` without a closing brace stays in the key |
| KeyCases.DoubledKey | mcache-attr/src/lib.rs:35-58 | in `{{id}}` only the inner pair matches, giving `{7}` for id = 7 |
| KeyCases.ValueNotEscaped | mcache-attr/src/lib.rs:51-57 | a value holding a later placeholder's text is itself replaced: `{a}-{b}` with a = `{b}`, b = `x` gives `x-x`, not the rendering `{b}-x` |
| MacroArgs.LastString | mcache-attr/src/lib.rs:13-15 | none exactly when no argument is a string literal; otherwise the value of a string literal with none after it |
| MacroArgs.LastTtl | mcache-attr/src/lib.rs:13-20 | none exactly when no argument is an integer `ttl`; otherwise the value of an integer `ttl` with none after it |
| MacroArgs.ParseAttributeArgs | mcache-attr/src/lib.rs:10-23 | the loop fails if and only if some integer `ttl = N` is not a u64 (negative, or 2^64 or more); otherwise it yields the last string literal (or "") and the last integer ttl (or 60000) |
| MacroArgs.LaterTemplateWins | mcache-attr/src/lib.rs:15 | a later string literal replaces an earlier template |
| MacroArgs.IgnoredArgument | mcache-attr/src/lib.rs:16-21 | any other argument, a non-integer `ttl` included, changes neither template nor ttl |
| MacroArgs.AsI64 | mcache-attr/src/lib.rs:89 | `ttl as i64` lies in the i64 range and is congruent to the ttl modulo 2^64 |
| MacroArgs.ExpiryAgrees | src/lib.rs:89 | all three crates send the ttl itself when it fits an i64; above that only the casting crates send a negative expiry |
| MacroArgs.ExpiryArg | mcache-attr/src/lib.rs:89 | the expiry each crate sends is congruent to the ttl modulo 2^64, and equals it exactly for the root crate or a ttl below 2^63 |
| MacroArgs.ExpandGet | mcache-attr/src/lib.rs:10-68 | expansion fails on an integer ttl that is not a u64 (negative or too large), and with mcache-attr on a sync function too (and only then); otherwise it carries the template, its replace statements and the crate's expiry |
| MacroArgs.ParseStream.Take | mcache-call/src/lib.rs:19-27 | one parse takes the next item when it has the expected kind, else fails and consumes nothing |
| MacroArgs.ParseGetInput | mcache-call/src/lib.rs:8-28 | the input parses if and only if it is an expression, a comma, an integer literal, a comma and an async block with nothing after |
| MacroArgs.ExpandGetCall | mcache-call/src/lib.rs:32-35 | malformed input and a ttl that does not fit an i64 are the only failures, so a negative ttl down to -2^63 is accepted; otherwise key, ttl and body pass through |
| Pool.Slot.constructor | mcache-core/src/lib.rs:8 | the slot starts empty |
| Pool.Slot.Init | mcache-core/src/lib.rs:11-14 | `init` installs the pool, replacing any earlier one |
| Pool.Slot.Get | mcache-core/src/lib.rs:17-22 | `pool()` fails with "not initialized" exactly when the slot is empty, else returns the installed pool |
| Pool.ReadBeforeInit | mcache-core/src/lib.rs:16-22 | reading before any `init` fails |
| Pool.ReplaceKeepsOldHandle | mcache-core/src/lib.rs:5-22 | a handle read before a second `init` still names the first pool; later reads give the second |
| Executor.CacheAside | mcache-attr/src/lib.rs:78-94 | a call that returns leaves its key stored; no entry is removed and the body runs at most once |
| Executor.HitSkipsBody | mcache-attr/src/lib.rs:78-80 | on a hit the decoded value is returned, or the call aborts when it does not decode; the body does not run and nothing is written |
| Executor.MissRunsBodyOnce | mcache-attr/src/lib.rs:82-94 | on a miss the body runs once, its encoding is written under the key with the expiry, and the result is returned unless the SET fails |
| Executor.OneGetAtMostOneSet | mcache-attr/src/lib.rs:78-93 | a call issues one GET then at most one SET, both on its key, and the SET happens exactly when the body ran |
| Executor.OtherKeysUntouched | mcache-attr/src/lib.rs:85-93 | no entry but the call's own key changes |
| Executor.MissThenHit | mcache-attr/src/lib.rs:78-94 | after a completed miss, the same call hits and returns the same value without running the body, for every value (absent ones included) |
| Executor.DistinctKeysIndependent | mcache-attr/src/lib.rs:75-93 | a call on another key keeps a completed call's entry, so that call still hits |
| Executor.Store.Get | mcache-attr/src/lib.rs:78 | GET returns the stored data exactly when the request succeeds and the key is present; it is logged and changes no entry |
| Executor.Store.Set | mcache-attr/src/lib.rs:85-93 | SET with an expiry stores the entry unless the request fails; it is logged |
| Executor.Computation.Run | mcache-attr/src/lib.rs:82 | the body runs once more and returns its next result |
| Executor.CachedCall | mcache-macro/src/lib.rs:71-87 | the GET / run / SET sequence changes the store, the run count and the log exactly as the cache-aside protocol says |
| Executor.WrapperOrder | src/lib.rs:68-80 | the store is touched only once a handle and a key exist, the first request is a GET of the derived key, and each earlier stop has its own reason |
| Executor.Wrapper | mcache-attr/src/lib.rs:72-95 | a wrapper that returns had a derived key and leaves it stored; no entry is removed and the body runs at most once |
| Executor.GeneratedBody | mcache-attr/src/lib.rs:72-95 | the generated body acquires, builds the key and runs cache-aside exactly as the wrapper specification says |
| Executor.GetCallBody | mcache-call/src/lib.rs:38-70 | `get!` fails without a pool, otherwise runs cache-aside on the evaluated key with the ttl as expiry |
| Executor.CallTwice | tests/get_macro.rs:61-70 | two identical calls on a fresh key: the body runs once, both return its result, and the log is GET, SET, GET; the store gains exactly the key with the encoded result and the expiry |
| Scenarios.FetchUserByStructTwice | tests/get_macro.rs:44-92 | the nested-field wrapper, expanded by mcache-attr from its own arguments `"user2:{p.id}-{p.token}", ttl = 100` and called twice, uses key `user2:1-1`, runs the body once, returns the same result and leaves exactly that key newly stored with expiry 100 |

## Left out

- Code generation itself is left out: `quote!` token streams, visibility and signatures are not modelled. The generated body is modelled by what it does at run time.
- The Redis client, the wire protocol and the fred pool are left out. A store is a map with a request log, and which requests fail is an input. The pool read from the slot only decides between aborting and continuing: nothing ties the store a call uses to the pool that was installed.
- Expiry is left out. The expiry is recorded with each entry, but entries never expire, because there is no clock.
- `serde_json` is an arbitrary pair of encode and decode functions. Encoding is total: `to_string` of a serializable type is assumed not to fail. Round-trip properties state that decoding undoes encoding as a requirement.
- `async`/`await`, `block_on` and the sync closure are left out. The sync and async bodies run the same steps, so both are one method.
- `Mutex`, `Arc` and `Lazy` are left out, along with concurrent callers and lock poisoning. The slot is read and written in sequence.
- Placeholder.IsWordChar: `\w` is taken as ASCII `[A-Za-z0-9_]`. The regex crate's `\w` is Unicode-aware by default, so placeholders with non-ASCII letters after the first character are not modelled.
- KeyTemplate.Resolve: the first name of a path is looked up among the call's arguments only. The generated statements run after the locals `pool` and `cache_key` (and `conn` in the root crate) are declared, with call-site spans, so in Rust those three names refer to the locals and shadow an argument of the same name: `k:{cache_key}` gives `k:k:{cache_key}`, and `{pool}` is a compile error. The model treats them as ordinary argument names.
- Value formatting is left out: `to_string()` of a value is its `Leaf` text. A path that does not exist or has no `Display` is a compile error in Rust and appears as an error result here.
- Executor.GetCallBody: evaluating the `get!` key expression is not modelled; its string value is a parameter.
- The commented-out `get_sync` in `mcache-attr/src/lib.rs:102-288` is not part of this model.
- The tests' Redis setup (`tests/get_macro.rs:18-29`) is not part of this model.
