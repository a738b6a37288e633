/**
 * The dispatch functions of src/index.ts: literal dispatch over an object
 * pattern (matchValue), conditional dispatch over an array of
 * `[predicate | last, value]` branches (matchCond), the shape-dispatching
 * entry point (match) and its curried form (lazyMatch).
 *
 * The `last` symbol is not a value of the model: in an object pattern it is
 * the `last` field of ObjectPattern (a symbol key can never be a string
 * key), and in a conditional pattern it is the Last branch.
 */
module Dispatch {
  import opened Js
  import opened Outcomes

  // --- Literal dispatch ---

  /** An object pattern: its own string keys in key order, and the property under the `last` symbol if present. */
  datatype ObjectPattern<R> = ObjectPattern(entries: seq<(string, R)>, last: Option<R>)

  /**
   * matchValue: the property named by the key when the pattern has one,
   * otherwise the `last` property, otherwise a NoMatch error.
   */
  function MatchValue<R>(searchKey: Key, pattern: ObjectPattern<R>): (r: Outcome<R>)
    ensures r.Fail? ==> r.error == NoMatch
    ensures r.Fail? <==> !HasOwn(pattern.entries, Stringify(searchKey)) && pattern.last.None?
  {
    var name := Stringify(searchKey);
    if HasOwn(pattern.entries, name) then
      Ok(Get(pattern.entries, name).value)
    else if pattern.last.Some? then
      Ok(pattern.last.value)
    else
      Fail(NoMatch)
  }

  /** A key that names an own property selects that property, whether or not there is a `last` entry. */
  lemma LiteralHit<R>(searchKey: Key, pattern: ObjectPattern<R>, i: nat)
    requires UniqueKeys(pattern.entries)
    requires i < |pattern.entries| && pattern.entries[i].0 == Stringify(searchKey)
    ensures MatchValue(searchKey, pattern) == Ok(pattern.entries[i].1)
  {
  }

  /** A key that names no own property selects the `last` entry, or fails with NoMatch when there is none. */
  lemma LiteralMiss<R>(searchKey: Key, pattern: ObjectPattern<R>)
    requires !HasOwn(pattern.entries, Stringify(searchKey))
    ensures pattern.last.Some? ==> MatchValue(searchKey, pattern) == Ok(pattern.last.value)
    ensures pattern.last.None? ==> MatchValue(searchKey, pattern) == Fail(NoMatch)
  {
  }

  /**
   * A number selects the entry its decimal text names, just as that text
   * given as a string key does; two different numbers never select the same
   * own entry.
   */
  lemma NumberKeyCoercion<R>(n: SafeInt, m: SafeInt, pattern: ObjectPattern<R>, i: nat)
    requires UniqueKeys(pattern.entries)
    requires i < |pattern.entries| && pattern.entries[i].0 == IntToDecimal(n as int)
    ensures MatchValue(KNum(n), pattern) == MatchValue(KStr(IntToDecimal(n as int)), pattern) == Ok(pattern.entries[i].1)
    ensures m != n ==> Stringify(KNum(m)) != pattern.entries[i].0
  {
    NumberKeysInjective(n, m);
  }

  /** The example of src/index.ts:105 and the font-size and numeric patterns: exact, numeric and default hits. */
  lemma LiteralScenarios()
    ensures MatchValue(KNum(200), ObjectPattern([("200", "OK"), ("404", "Not Found")], Some("Unknown"))) == Ok("OK")
    ensures MatchValue(KStr("h1"), ObjectPattern([("h1", 20), ("h2", 18), ("title", 16)], Some(13))) == Ok(20)
    ensures MatchValue(KStr("unknown"), ObjectPattern([("h1", 20), ("h2", 18), ("title", 16)], Some(13))) == Ok(13)
    ensures MatchValue(KStr("1"), ObjectPattern([("1", "a"), ("2", "b")], Some("any"))) == Ok("a")
    ensures MatchValue(KStr("x"), ObjectPattern([("_", "underscore")], None)) == Fail(NoMatch)
  {
    var status := ObjectPattern([("200", "OK"), ("404", "Not Found")], Some("Unknown"));
    var format := ObjectPattern([("h1", 20), ("h2", 18), ("title", 16)], Some(13));
    var numbers := ObjectPattern([("1", "a"), ("2", "b")], Some("any"));
    assert IntToDecimal(200) == "200";
    LiteralHit(KNum(200), status, 0);
    LiteralHit(KStr("h1"), format, 0);
    LiteralHit(KStr("1"), numbers, 0);
    assert !HasOwn(format.entries, "unknown");
    assert !HasOwn([("_", "underscore")], "x");
  }

  // --- Conditional dispatch ---

  /**
   * One element of a conditional pattern, classified by the tests matchCond
   * applies to it: a 2-element array whose first element is a function
   * (Pred), the `last` symbol (Last) or anything else (NotFunction), or a
   * value that is not a 2-element array at all (BadShape).
   */
  datatype Branch<!T, R> =
    | Pred(test: T -> JsValue, value: R)
    | Last(value: R)
    | NotFunction(value: R)
    | BadShape

  /** Branch `i` decides the scan with value `v`: a truthy predicate, or `last` at the final index. */
  ghost predicate WinsAt<T, R>(searchKey: T, pattern: seq<Branch<T, R>>, i: int, v: R) {
    0 <= i < |pattern| &&
    ((pattern[i].Pred? && Truthy(pattern[i].test(searchKey))) || (pattern[i].Last? && i == |pattern| - 1)) &&
    pattern[i].value == v
  }

  /**
   * The outcome of scanning `pattern` from index `i` on, as matchCond's loop
   * does: a value always comes from a deciding branch at or after `i`, and
   * NoMatch only when every branch from `i` on is a falsy predicate.
   */
  function CondOutcomeFrom<T, R>(searchKey: T, pattern: seq<Branch<T, R>>, i: nat): (r: Outcome<R>)
    requires i <= |pattern|
    ensures r.Ok? ==> exists j :: i <= j && WinsAt(searchKey, pattern, j, r.value)
    ensures r == Fail(NoMatch) <==>
      forall j :: i <= j < |pattern| ==> pattern[j].Pred? && !Truthy(pattern[j].test(searchKey))
    decreases |pattern| - i
  {
    if i == |pattern| then Fail(NoMatch)
    else
      match pattern[i]
      case BadShape => Fail(InvalidBranch)
      case Last(v) =>
        if i != |pattern| - 1 then Fail(DefaultNotLast)
        else
          assert WinsAt(searchKey, pattern, i, v);
          Ok(v)
      case NotFunction(_) => Fail(InvalidPredicate)
      case Pred(test, v) =>
        if Truthy(test(searchKey)) then
          assert WinsAt(searchKey, pattern, i, v);
          Ok(v)
        else
          CondOutcomeFrom(searchKey, pattern, i + 1)
  }

  /**
   * The outcome of matchCond on the whole pattern: a value is that of some
   * deciding branch, and NoMatch means every branch is a falsy predicate
   * (so the empty pattern never matches).
   */
  function CondOutcome<T, R>(searchKey: T, pattern: seq<Branch<T, R>>): (r: Outcome<R>)
    ensures r.Ok? ==> exists j :: WinsAt(searchKey, pattern, j, r.value)
    ensures r == Fail(NoMatch) <==>
      forall j :: 0 <= j < |pattern| ==> pattern[j].Pred? && !Truthy(pattern[j].test(searchKey))
    ensures pattern == [] ==> r == Fail(NoMatch)
  {
    CondOutcomeFrom(searchKey, pattern, 0)
  }

  /** matchCond: scans the branches in order and stops at the first one that decides. */
  method MatchCond<T, R>(searchKey: T, pattern: seq<Branch<T, R>>) returns (r: Outcome<R>)
    ensures r == CondOutcome(searchKey, pattern)
  {
    var lastIndex := |pattern| - 1;
    for i := 0 to |pattern|
      invariant CondOutcomeFrom(searchKey, pattern, i) == CondOutcome(searchKey, pattern)
    {
      var currentBranch := pattern[i];
      if currentBranch.BadShape? {
        return Fail(InvalidBranch);
      }
      if currentBranch.Last? {
        if i != lastIndex {
          return Fail(DefaultNotLast);
        }
        return Ok(currentBranch.value);
      }
      if currentBranch.NotFunction? {
        return Fail(InvalidPredicate);
      }
      if Truthy(currentBranch.test(searchKey)) {
        return Ok(currentBranch.value);
      }
    }
    return Fail(NoMatch);
  }

  /** The scan reaches index `i`: every earlier branch is a predicate whose result is falsy. */
  ghost predicate Reaches<T, R>(searchKey: T, pattern: seq<Branch<T, R>>, i: int) {
    0 <= i <= |pattern| &&
    forall j :: 0 <= j < i ==> pattern[j].Pred? && !Truthy(pattern[j].test(searchKey))
  }

  /** The scan reaches index `i` and stops there (at the end, or at a branch that is not a falsy predicate). */
  ghost predicate StopsAt<T, R>(searchKey: T, pattern: seq<Branch<T, R>>, i: int) {
    Reaches(searchKey, pattern, i) &&
    (i < |pattern| ==> !(pattern[i].Pred? && !Truthy(pattern[i].test(searchKey))))
  }

  /** Skipping the falsy predicates before a reached index does not change the outcome. */
  lemma {:induction false} ScanSkips<T, R>(searchKey: T, pattern: seq<Branch<T, R>>, i: nat)
    requires Reaches(searchKey, pattern, i)
    ensures CondOutcomeFrom(searchKey, pattern, i) == CondOutcome(searchKey, pattern)
    decreases i
  {
    if i > 0 {
      assert Reaches(searchKey, pattern, i - 1);
      ScanSkips(searchKey, pattern, i - 1);
    }
  }

  /**
   * What happens when the scan reaches branch `i`: a malformed branch is
   * rejected before its selector is looked at, `last` yields its value only
   * at the final index, a non-function selector is rejected, and a truthy
   * predicate yields its value.
   */
  lemma ReachedBranch<T, R>(searchKey: T, pattern: seq<Branch<T, R>>, i: nat)
    requires Reaches(searchKey, pattern, i) && i < |pattern|
    ensures pattern[i].BadShape? ==> CondOutcome(searchKey, pattern) == Fail(InvalidBranch)
    ensures pattern[i].Last? && i == |pattern| - 1 ==> CondOutcome(searchKey, pattern) == Ok(pattern[i].value)
    ensures pattern[i].Last? && i != |pattern| - 1 ==> CondOutcome(searchKey, pattern) == Fail(DefaultNotLast)
    ensures pattern[i].NotFunction? ==> CondOutcome(searchKey, pattern) == Fail(InvalidPredicate)
    ensures pattern[i].Pred? && Truthy(pattern[i].test(searchKey)) ==> CondOutcome(searchKey, pattern) == Ok(pattern[i].value)
  {
    ScanSkips(searchKey, pattern, i);
  }

  /** A scan that passes every branch fails with NoMatch; in particular the empty pattern always fails. */
  lemma Exhausted<T, R>(searchKey: T, pattern: seq<Branch<T, R>>)
    requires Reaches(searchKey, pattern, |pattern|)
    ensures CondOutcome(searchKey, pattern) == Fail(NoMatch)
    ensures CondOutcome<T, R>(searchKey, []) == Fail(NoMatch)
  {
    ScanSkips(searchKey, pattern, |pattern|);
  }

  lemma {:induction false} FirstStopFrom<T, R>(searchKey: T, pattern: seq<Branch<T, R>>, i: nat) returns (k: nat)
    requires Reaches(searchKey, pattern, i)
    ensures i <= k && StopsAt(searchKey, pattern, k)
    decreases |pattern| - i
  {
    if i < |pattern| && pattern[i].Pred? && !Truthy(pattern[i].test(searchKey)) {
      assert Reaches(searchKey, pattern, i + 1);
      k := FirstStopFrom(searchKey, pattern, i + 1);
    } else {
      k := i;
    }
  }

  /** Every scan stops somewhere, and only at one index. */
  lemma FirstStop<T, R>(searchKey: T, pattern: seq<Branch<T, R>>) returns (k: nat)
    ensures StopsAt(searchKey, pattern, k)
    ensures forall j :: Reaches(searchKey, pattern, j) ==> j <= k
  {
    assert Reaches(searchKey, pattern, 0);
    k := FirstStopFrom(searchKey, pattern, 0);
  }

  /**
   * First match wins: the call yields `v` exactly when some branch reached
   * by the scan (all earlier ones well formed and falsy) is a truthy
   * predicate with value `v`, or `last` with value `v` at the final index.
   */
  lemma CondOkIff<T, R>(searchKey: T, pattern: seq<Branch<T, R>>, v: R)
    ensures CondOutcome(searchKey, pattern) == Ok(v) <==>
      exists i :: Reaches(searchKey, pattern, i) && WinsAt(searchKey, pattern, i, v)
  {
    if exists i :: Reaches(searchKey, pattern, i) && WinsAt(searchKey, pattern, i, v) {
      var i :| Reaches(searchKey, pattern, i) && WinsAt(searchKey, pattern, i, v);
      ReachedBranch(searchKey, pattern, i);
    }
    if CondOutcome(searchKey, pattern) == Ok(v) {
      var k := FirstStop(searchKey, pattern);
      if k == |pattern| {
        Exhausted(searchKey, pattern);
      } else {
        ReachedBranch(searchKey, pattern, k);
        assert WinsAt(searchKey, pattern, k, v);
      }
    }
  }

  /**
   * Each error is raised exactly when the scan reaches the offending branch:
   * a misplaced `last`, a malformed branch, a non-function selector, or the
   * end of the pattern.
   */
  lemma CondErrorIff<T, R>(searchKey: T, pattern: seq<Branch<T, R>>)
    ensures CondOutcome(searchKey, pattern) == Fail(DefaultNotLast) <==>
      exists i :: Reaches(searchKey, pattern, i) && i < |pattern| - 1 && pattern[i].Last?
    ensures CondOutcome(searchKey, pattern) == Fail(InvalidBranch) <==>
      exists i :: Reaches(searchKey, pattern, i) && i < |pattern| && pattern[i].BadShape?
    ensures CondOutcome(searchKey, pattern) == Fail(InvalidPredicate) <==>
      exists i :: Reaches(searchKey, pattern, i) && i < |pattern| && pattern[i].NotFunction?
    ensures CondOutcome(searchKey, pattern) == Fail(NoMatch) <==> Reaches(searchKey, pattern, |pattern|)
  {
    var k := FirstStop(searchKey, pattern);
    if k == |pattern| {
      Exhausted(searchKey, pattern);
    } else {
      ReachedBranch(searchKey, pattern, k);
      assert !Reaches(searchKey, pattern, |pattern|);
    }
    forall i | StopsAt(searchKey, pattern, i)
      ensures i == k
    {
      assert i <= k;
    }
  }

  /**
   * Branches after the one that decides are never examined: any pattern that
   * agrees up to that branch (and, when it is `last`, agrees on whether it is the final branch)
   * has the same outcome, however malformed its later branches are.
   */
  lemma LaterBranchesIgnored<T, R>(searchKey: T, pattern: seq<Branch<T, R>>, other: seq<Branch<T, R>>, i: nat)
    requires StopsAt(searchKey, pattern, i) && i < |pattern|
    requires i < |other| && forall j :: 0 <= j <= i ==> other[j] == pattern[j]
    requires pattern[i].Last? ==> (i == |pattern| - 1 <==> i == |other| - 1)
    ensures CondOutcome(searchKey, other) == CondOutcome(searchKey, pattern)
  {
    assert Reaches(searchKey, other, i);
    ReachedBranch(searchKey, pattern, i);
    ReachedBranch(searchKey, other, i);
  }

  /** The branch test is truthiness, not `=== true`: a predicate returning 1 matches, one returning 0 or "" does not. */
  lemma TruthyPredicates<T, R>(searchKey: T, v: R, w: R)
    ensures CondOutcome(searchKey, [Pred(_ => Number(1), v), Last(w)]) == Ok(v)
    ensures CondOutcome(searchKey, [Pred(_ => Number(0), v), Pred(_ => Str(""), v), Last(w)]) == Ok(w)
  {
    var falsy := [Pred(_ => Number(0), v), Pred(_ => Str(""), v), Last(w)];
    assert Reaches(searchKey, falsy, 2);
    ReachedBranch(searchKey, falsy, 2);
  }

  /**
   * The search keys of the conditional examples of test/index.test.js: a
   * number, or an object with a `name` property. `x === 5` and `x > 5` are
   * false for an object, and `person.name` is undefined for a number.
   */
  datatype Subject = Num(n: int) | Person(name: string)

  /** The pattern `cond` of test/index.test.js. */
  function CondExample(): seq<Branch<Subject, string>> {
    [ Pred(x => Bool(x == Num(5)), "ok"),
      Pred((x: Subject) => Bool(x.Num? && x.n > 5), "great"),
      Pred((x: Subject) => Bool(x.Person? && x.name == "Smith"), "Hello"),
      Pred((x: Subject) => Bool(x.Person? && x.name == "Marie"), "Bonjour"),
      Last("default") ]
  }

  /** The number examples of `cond` in test/index.test.js: the exact and numeric conditions, and the default. */
  lemma ConditionalScenarios()
    ensures CondOutcome(Num(5), CondExample()) == Ok("ok")
    ensures CondOutcome(Num(6), CondExample()) == Ok("great")
    ensures CondOutcome(Num(10), CondExample()) == Ok("great")
    ensures CondOutcome(Num(4), CondExample()) == Ok("default")
  {
    var p := CondExample();
    ReachedBranch(Num(5), p, 0);
    assert Reaches(Num(6), p, 1);
    ReachedBranch(Num(6), p, 1);
    assert Reaches(Num(10), p, 1);
    ReachedBranch(Num(10), p, 1);
    assert Reaches(Num(4), p, 4);
    ReachedBranch(Num(4), p, 4);
  }

  /** The object examples of `cond` in test/index.test.js: `name` conditions, and the default for an unknown name. */
  lemma ObjectConditionScenarios()
    ensures CondOutcome(Person("Smith"), CondExample()) == Ok("Hello")
    ensures CondOutcome(Person("Marie"), CondExample()) == Ok("Bonjour")
    ensures CondOutcome(Person("John"), CondExample()) == Ok("default")
  {
    var p := CondExample();
    assert Reaches(Person("Smith"), p, 2);
    ReachedBranch(Person("Smith"), p, 2);
    assert Reaches(Person("Marie"), p, 3);
    ReachedBranch(Person("Marie"), p, 3);
    assert Reaches(Person("John"), p, 4);
    ReachedBranch(Person("John"), p, 4);
  }

  /** The failing conditional examples of test/index.test.js, with the search key an integer. */
  lemma ConditionalErrorScenarios()
    ensures CondOutcome(10, [Pred(x => Bool(x == 5), "5"), Last("unknown"), Pred(x => Bool(x > 5), "greater")]) == Fail(DefaultNotLast)
    ensures CondOutcome(50, [Pred(x => Bool(x == 5), "5"), NotFunction("greater"), Last("unknown")]) == Fail(InvalidPredicate)
    ensures CondOutcome(50, [Pred(x => Bool(x == 5), "5"), BadShape, Last("unknown")]) == Fail(InvalidBranch)
    ensures CondOutcome(1, [Pred(x => Bool(x == 5), "5"), Pred(x => Bool(x > 5), "greater")]) == Fail(NoMatch)
  {
  }

  // --- The public entry points ---

  /** A pattern as `match` sees it: an array (conditional) or any other object (literal). */
  datatype Pattern<!T, R> = Conditional(branches: seq<Branch<T, R>>) | Literal(cases: ObjectPattern<R>)

  /**
   * match: an array pattern goes to conditional dispatch, any other pattern
   * to literal dispatch. `asLiteral` is the `searchKey as string | number`
   * cast: the overloads admit an object pattern only for string and number
   * keys, for which it is the identity.
   */
  function Match<T, R>(searchKey: T, pattern: Pattern<T, R>, asLiteral: T -> Key): (r: Outcome<R>)
    ensures pattern.Conditional? ==> r == CondOutcome(searchKey, pattern.branches)
    ensures pattern.Literal? ==> r == MatchValue(asLiteral(searchKey), pattern.cases)
    ensures pattern.Literal? && r.Fail? ==> !r.error.IsUsageError()
  {
    match pattern
    case Conditional(branches) => CondOutcome(searchKey, branches)
    case Literal(cases) => MatchValue(asLiteral(searchKey), cases)
  }

  /** lazyMatch: a selector with the pattern bound, answering every key exactly as `match` does. */
  function LazyMatch<T(!new), R>(pattern: Pattern<T, R>, asLiteral: T -> Key): (selector: T -> Outcome<R>)
    ensures forall k :: selector(k) == Match(k, pattern, asLiteral)
  {
    k => Match(k, pattern, asLiteral)
  }

  /** `getStatus = lazyMatch({200: 'OK', 404: 'Not Found', [last]: 'Unknown'})` answers 'Not Found' for 404. */
  lemma LazyStatusExample()
    ensures LazyMatch(Literal(ObjectPattern([("200", "OK"), ("404", "Not Found")], Some("Unknown"))), (k: Key) => k)(KNum(404)) == Ok("Not Found")
  {
    var status := ObjectPattern([("200", "OK"), ("404", "Not Found")], Some("Unknown"));
    assert IntToDecimal(404) == "404";
    LiteralHit(KNum(404), status, 1);
  }

  /** `["h1", "h2", "unknown"].map(lazyMatch(P))` answers 20, 18 and 13 for P = {h1: 20, h2: 18, [last]: 13}. */
  lemma LazyMatchScenario()
    ensures var select := LazyMatch(Literal(ObjectPattern([("h1", 20), ("h2", 18)], Some(13))), (k: Key) => k);
      select(KStr("h1")) == Ok(20) && select(KStr("h2")) == Ok(18) && select(KStr("unknown")) == Ok(13)
  {
    var fontSizes := ObjectPattern([("h1", 20), ("h2", 18)], Some(13));
    LiteralHit(KStr("h1"), fontSizes, 0);
    LiteralHit(KStr("h2"), fontSizes, 1);
    assert !HasOwn(fontSizes.entries, "unknown");
  }
}
