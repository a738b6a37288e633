# match-values in Dafny

This is a Dafny model of the match-values value-dispatch library. The library picks one of several declared results by comparing a search key against a pattern. The model covers two variants of the library:

- **`src/index.ts`**, the current source (module `Dispatch`). It has:
  - literal dispatch (`matchValue`): an object pattern, its own string keys, and an optional entry under the `last` symbol;
  - conditional dispatch (`matchCond`): an array of `[predicate | last, value]` branches, scanned in order;
  - the entry point `match`, which sends arrays to `matchCond` and every other pattern to `matchValue`;
  - the curried form `lazyMatch`.
- **`dist/index.js`**, the older compiled variant (module `LegacyDispatch`). Its literal `match` returns the property of the first own key whose text equals `String(value)`, unless that key is the falsy `''` (`LegacyDispatch.EmptyKeyQuirk`). Otherwise it returns the own `'_'` property, and otherwise it throws. Its `lazyMatch` binds the pattern.

Two modules are shared:

- `Js` holds the JavaScript semantics both variants rely on:
  - `ToBoolean` truthiness;
  - `String(n)` for integer numbers, with its inverse parser;
  - own-property lookup (`in`, `hasOwnProperty`, `o[k]`) and `Object.keys(o).find(p)` on an object given as its own (key, value) pairs.
- `Outcomes` holds the result of a call: a value, or one of the four error kinds.
  - `NoMatch` is the ReferenceError, a lookup failure.
  - `DefaultNotLast`, `InvalidBranch` and `InvalidPredicate` are the usage errors of conditional patterns.

`matchCond` is modelled in its own form, as a method with an indexed loop and early returns (`Dispatch.MatchCond`). The method is proved equal to a recursive scan function, `CondOutcome`. The properties of conditional dispatch are lemmas about `CondOutcome`:

- first match wins;
- where `last` may stand;
- when each error is raised;
- later branches are never examined.

The other operations are pure and are modelled as functions.

Where the library's own comments and tests say something other than the code does, the model follows the code:

- **Predicate test.** The `Predicate<T>` type comment (src/index.ts:16-20) describes a function that "returns true for a match". The loop at src/index.ts:87 tests `if (predicate(searchKey))`, which is truthiness. The model uses truthiness (`Js.Truthy`), and `Dispatch.TruthyPredicates` shows that a predicate returning `1` matches.
- **No misplaced-default error for literal patterns.** test/index.test.js:63-64 expects `match('f', { first: '1', _: '10', second: '2' })` to throw "_ must be the last branch.". Neither variant raises such an error for an object pattern. `MatchValue` and both `Match` functions never fail with anything but `NoMatch`, and dist/index.js returns the `'_'` value there (`LegacyDispatch.LegacyDefault`).
- **No `'_'` default in `src/index.ts`.** test/index.test.ts imports src/ and expects the `_: 13` entry (test/index.test.ts:9) to answer `'unknown'` (test/index.test.ts:15). In src/index.ts:43-51 `'_'` is an ordinary key, and only the `last` symbol is a default (`Dispatch.LiteralScenarios`, last clause). Only dist/index.js treats `'_'` as the default.

The two test files are crossed with the variants: test/index.test.js loads dist/index.js (test/index.test.js:1), whose exports have no `last` and no `matchCond` (dist/index.js:36-39), and test/index.test.ts imports src/ (test/index.test.ts:1). Their expectations are read here against the other variant, whose semantics they describe: the conditional and `last` examples of test/index.test.js against src/index.ts, and the `'_'` examples of test/index.test.ts against dist/index.js.

## Model

| member | source | states |
|---|---|---|
| `Js.Truthy` | src/index.ts:87 | `ToBoolean`: exactly undefined, null, false, 0 and "" are falsy |
| `Js.NatToDecimal` | src/index.ts:43 | the text a number key becomes is a non-empty run of decimal digits with no leading zero, and is "0" only for 0 |
| `Js.IntToDecimal` | src/index.ts:43 | `String(n)` of an integer is canonical decimal text: digits without a leading zero, a minus sign exactly for negative numbers, never "-0" |
| `Js.Stringify` | dist/index.js:8 | `String(k)`: a string key is its own property name; a number key's name is canonical decimal text that reads back as the number |
| `Js.DecimalRoundTrip` | dist/index.js:8 | `String(n)` of an integer can be read back as `n` |
| `Js.NumberKeysInjective` | src/index.ts:43-44 | two number keys select the same property name iff they are equal |
| `Js.CanonicalNatUnique` | src/index.ts:43 | canonical digits are the one text the decimal rendering writes for the number they read as |
| `Js.NumberStringCoincide` | src/index.ts:43-44 | a number selects the property named `s` iff `s` is canonical decimal text that reads as the number ("01", "+1" and "-0" never do) |
| `Js.HasOwn` | src/index.ts:43 | the own-key test (`in` on own properties, `hasOwnProperty`) holds iff some own entry has that name |
| `Js.Get` | src/index.ts:44 | a property read finds a value iff the key is an own key; the value belongs to an entry with that key; with unique keys it is that entry's value |
| `Js.FindKey` | dist/index.js:9 | `Object.keys(o).find(p)` returns the key at the first position satisfying `p`, and returns nothing iff no key satisfies `p` |
| `Dispatch.MatchValue` | src/index.ts:36-52 | literal dispatch fails iff the key names no own property and there is no `last` entry; its only error is NoMatch (there is no misplaced-default error) |
| `Dispatch.LiteralHit` | src/index.ts:43-45 | a key naming an own property returns that property's value, whether or not a `last` entry exists |
| `Dispatch.LiteralMiss` | src/index.ts:47-51 | a key naming no own property returns the `last` value if the pattern has one, and fails with NoMatch otherwise |
| `Dispatch.NumberKeyCoercion` | src/index.ts:43-45 | `n` and `String(n)` reach the same entry; a different number never reaches that entry |
| `Dispatch.LiteralScenarios` | src/index.ts:105 | 200 selects 'OK'; exact and `last` hits of the font-size pattern; "1" selects 'a'; a `'_'` key is not a default |
| `Dispatch.CondOutcomeFrom` | src/index.ts:63-94 | scanning from index `i`: a value comes from a deciding branch at or after `i`; NoMatch iff every branch from `i` on is a falsy predicate |
| `Dispatch.CondOutcome` | src/index.ts:57-95 | a value is that of some deciding branch; NoMatch iff every branch is a falsy predicate; the empty pattern fails with NoMatch |
| `Dispatch.MatchCond` | src/index.ts:57-95 | the indexed scan with early returns yields exactly the value or error of `CondOutcome` |
| `Dispatch.ScanSkips` | src/index.ts:63-90 | skipping branches that are falsy predicates does not change the outcome |
| `Dispatch.ReachedBranch` | src/index.ts:66-89 | at a reached branch: bad shape gives InvalidBranch; `last` gives its value iff it is at the final index and DefaultNotLast otherwise; a non-function gives InvalidPredicate; a truthy predicate gives its value |
| `Dispatch.Exhausted` | src/index.ts:92-94 | a scan past every branch fails with NoMatch; the empty pattern always fails |
| `Dispatch.FirstStop` | src/index.ts:63-90 | every scan stops at one index, and no index after it is reached |
| `Dispatch.CondOkIff` | src/index.ts:63-89 | the call yields `v` iff a reached branch is a truthy predicate with value `v`, or `last` with value `v` at the final index (first match wins) |
| `Dispatch.CondErrorIff` | src/index.ts:66-94 | DefaultNotLast, InvalidBranch, InvalidPredicate and NoMatch are each raised iff the scan reaches a `last` before the final index, a malformed branch, a non-function selector, or the end of the pattern |
| `Dispatch.LaterBranchesIgnored` | src/index.ts:63-89 | patterns that agree up to the deciding branch have the same outcome, whatever follows it (for `last`, when both agree on whether it is the final branch) |
| `Dispatch.TruthyPredicates` | src/index.ts:87-89 | a predicate returning 1 matches; predicates returning 0 or "" are passed over |
| `Dispatch.ConditionalScenarios` | test/index.test.js:75-86 | on the five-branch `cond` pattern, 5 gives 'ok', 6 and 10 give 'great', 4 gives 'default' |
| `Dispatch.ObjectConditionScenarios` | test/index.test.js:82-87 | on the same pattern, `{name: 'Smith'}` gives 'Hello', `{name: 'Marie'}` gives 'Bonjour', `{name: 'John'}` gives 'default' |
| `Dispatch.ConditionalErrorScenarios` | test/index.test.js:93-100 | a `last` before the end gives DefaultNotLast, `[2, 'greater']` InvalidPredicate, `[2]` InvalidBranch, no match NoMatch |
| `Dispatch.Match` | src/index.ts:120-129 | an array pattern gets conditional dispatch and any other pattern literal dispatch; a literal pattern never raises a usage error |
| `Dispatch.LazyMatch` | src/index.ts:144-150 | the curried selector gives, for every key, exactly what `match` gives (value or error kind) |
| `Dispatch.LazyStatusExample` | src/index.ts:136-137 | `lazyMatch` over the status pattern answers 'Not Found' for 404 |
| `Dispatch.LazyMatchScenario` | test/index.test.js:114-115 | mapping the curried selector over "h1", "h2", "unknown" gives 20, 18, 13, with the catch-all given as the `last` entry |
| `LegacyDispatch.HasKey` | dist/index.js:8 | `hasKey` accepts exactly the key `String(value)`; for a number, exactly the canonical decimal text that reads as it |
| `LegacyDispatch.Match` | dist/index.js:7-16 | the call fails iff the value's text is not a non-empty own key and there is no own `'_'`; its only error is NoMatch |
| `LegacyDispatch.FindsSearchedText` | dist/index.js:8-9 | `find(hasKey)` returns the searched text iff it is an own key |
| `LegacyDispatch.LegacyHit` | dist/index.js:8-15 | a non-empty own key equal to `String(value)` returns its property |
| `LegacyDispatch.LegacyDefault` | dist/index.js:10-15 | when no own key matches, the own `'_'` value is returned wherever `'_'` stands among the keys |
| `LegacyDispatch.UnderscoreSearch` | dist/index.js:8-15 | searching for `'_'` is an ordinary key match on the `'_'` entry |
| `LegacyDispatch.EmptyKeyQuirk` | dist/index.js:12-15 | a hit on key `''` counts as falsy: the call returns the `'_'` value if present and fails with NoMatch otherwise |
| `LegacyDispatch.EmptyKeyCounterexample` | dist/index.js:12-15 | `match('', {'': 1})` fails; `match('', {'': 1, _: 2})` returns 2 |
| `LegacyDispatch.SameProperties` | dist/index.js:9-11 | two orderings of the same unique-keyed entries agree on membership and on every property read |
| `LegacyDispatch.KeyOrderIrrelevant` | dist/index.js:9-15 | reordering the keys does not change the result |
| `LegacyDispatch.LegacyNumberCoercion` | dist/index.js:8 | the number `n` and the string `String(n)` give the same result |
| `LegacyDispatch.LegacyStringScenarios` | test/index.test.ts:12-16 | 'title' selects 16; an unknown key selects the `'_'` value 13 |
| `LegacyDispatch.LegacyNumberScenarios` | test/index.test.ts:18-28 | `1` selects 'a' under key "1"; a missing key selects 'any' |
| `LegacyDispatch.LazyMatch` | dist/index.js:37 | the curried selector gives, for every value, exactly what `match` gives |
| `LegacyDispatch.LegacyLazyScenario` | test/index.test.js:114-115 | mapping the curried selector over "h1", "h2", "unknown" on the `_: 13` pattern gives 20, 18, 13 |

## Left out

- `matchArray` (dist/index.js:17-35): it uses the foreign `js-function-reflector` package to read parameter names and defaults at run time. That is reflection, not modellable logic.
- Prototype-chain hits of `in` (src/index.ts:43), e.g. `'toString' in {}`: the model looks at own properties only.
- Number keys are safe integers (`Js.SafeInt`, |n| < 2^53): every integer in this range is a distinct JavaScript number, so no two keys stand for the same number (beyond it, 2^53 + 1 already rounds to 2^53). Their `String(n)` is plain decimal text, because `String` only switches to exponent notation from 10^21. Floats, NaN, Infinity, `-0` and integers beyond 2^53 are not modelled.
- `LegacyDispatch.Match`: patterns are plain objects that inherit `Object.prototype.hasOwnProperty` and have no own `hasOwnProperty` key. An own `hasOwnProperty` key or an `Object.create(null)` pattern makes dist/index.js:11 throw a TypeError, and that is not modelled. Non-enumerable own `'_'` properties, which `hasOwnProperty` sees but `Object.keys` does not, are not modelled either. Values are strings or safe integers; `String(value)` of booleans, null, undefined and objects is left out.
- Error message texts and the `JSON.stringify` renderings in them: only the error kinds are modelled.
- Predicates that throw or have side effects: a predicate is a total pure function from the key to a JavaScript value. Its result is tested for truthiness, and NaN and BigInt results are not modelled.
- Branches are given already classified (`Branch`). The tests for "not an array, not two elements", "is `last`" and "is a function" are the constructors.
- `Dispatch.Match`: the `searchKey as string | number` cast is a parameter, `asLiteral`. The TypeScript overloads admit an object pattern only for string and number keys, where the cast is the identity. Search keys of other types under an object pattern are not modelled.
- No mutation: patterns are values here, so nothing the library does can write to them. For the same reason, a caller mutating a pattern after `lazyMatch` captured it cannot be expressed.
- The TypeScript types and overloads, dist/index.d.ts, jest.config.js, and test/index.ts, which tests an older curried API.
- The deep-equality array and object matching that test/index.test.ts expects, and the literal "misplaced default" error that test/index.test.js expects: neither source implements them.
