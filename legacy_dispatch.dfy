/**
 * The literal `match` and `lazyMatch` of dist/index.js, the older compiled
 * variant: the property of the first own key whose text is `String(value)`,
 * unless that key is the falsy `''` (see EmptyKeyQuirk); otherwise the own
 * `'_'` property; otherwise a ReferenceError. The pattern is the
 * sequence of the object's own (key, value) pairs in `Object.keys` order.
 */
module LegacyDispatch {
  import opened Js
  import opened Outcomes

  /**
   * `hasKey`: the test `find` applies to each own key. It accepts exactly
   * the text `String(value)`; for a number, exactly the canonical decimal
   * text that reads as it.
   */
  function HasKey(value: Key): (hasKey: string -> bool)
    ensures forall key :: hasKey(key) <==> key == Stringify(value)
    ensures value.KStr? ==> forall key :: hasKey(key) <==> key == value.s
    ensures value.KNum? ==> forall key :: hasKey(key) <==>
      CanonicalDecimal(key) && ParseDecimal(key) == Some(value.n as int)
  {
    assert value.KNum? ==> forall key :: Stringify(value) == key <==>
      CanonicalDecimal(key) && ParseDecimal(key) == Some(value.n as int) by {
      if value.KNum? {
        forall key
          ensures Stringify(value) == key <==> CanonicalDecimal(key) && ParseDecimal(key) == Some(value.n as int)
        {
          NumberStringCoincide(value.n, key);
        }
      }
    }
    key => Stringify(value) == key
  }

  /** The name of the default property. */
  const DefaultCase: string := "_"

  /**
   * match: the property whose name is the searched value's text, unless
   * that name is missing or is the (falsy) empty string; then the `'_'`
   * property; otherwise a NoMatch error.
   */
  function Match<R>(value: Key, pattern: seq<(string, R)>): (r: Outcome<R>)
    ensures r.Fail? ==> r.error == NoMatch
    ensures r.Fail? <==>
      (!HasOwn(pattern, Stringify(value)) || Stringify(value) == "") && !HasOwn(pattern, DefaultCase)
  {
    var matchingCase := FindKey(pattern, HasKey(value));
    var hasDefault := HasOwn(pattern, DefaultCase);
    var found := Truthy(if matchingCase.Some? then Str(matchingCase.value) else Undefined);
    if !found && !hasDefault then
      Fail(NoMatch)
    else
      Ok(Get(pattern, if found then matchingCase.value else DefaultCase).value)
  }

  /** `find(hasKey)` yields the searched text itself exactly when it is an own key. */
  lemma FindsSearchedText<R>(value: Key, pattern: seq<(string, R)>)
    ensures FindKey(pattern, HasKey(value)) ==
      if HasOwn(pattern, Stringify(value)) then Some(Stringify(value)) else None
  {
  }

  /** A non-empty own key equal to the value's text selects its property. */
  lemma LegacyHit<R>(value: Key, pattern: seq<(string, R)>, i: nat)
    requires UniqueKeys(pattern)
    requires i < |pattern| && pattern[i].0 == Stringify(value) && Stringify(value) != ""
    ensures Match(value, pattern) == Ok(pattern[i].1)
  {
  }

  /** With no own key for the value, the `'_'` property is used wherever it stands among the keys. */
  lemma LegacyDefault<R>(value: Key, pattern: seq<(string, R)>, i: nat)
    requires UniqueKeys(pattern)
    requires !HasOwn(pattern, Stringify(value))
    requires i < |pattern| && pattern[i].0 == DefaultCase
    ensures Match(value, pattern) == Ok(pattern[i].1)
  {
  }

  /** Searching for `'_'` itself is an ordinary key match on the `'_'` property. */
  lemma UnderscoreSearch<R>(pattern: seq<(string, R)>, i: nat)
    requires UniqueKeys(pattern)
    requires i < |pattern| && pattern[i].0 == DefaultCase
    ensures Match(KStr("_"), pattern) == Ok(pattern[i].1)
  {
  }

  /**
   * The empty-key quirk: a hit on the key `''` is falsy, so the `''`
   * property is never returned; the call falls back to `'_'` or fails.
   */
  lemma EmptyKeyQuirk<R>(pattern: seq<(string, R)>, i: nat)
    requires UniqueKeys(pattern)
    requires i < |pattern| && pattern[i].0 == ""
    ensures !HasOwn(pattern, DefaultCase) ==> Match(KStr(""), pattern) == Fail(NoMatch)
    ensures forall j :: 0 <= j < |pattern| && pattern[j].0 == DefaultCase ==> Match(KStr(""), pattern) == Ok(pattern[j].1)
  {
  }

  /** `match('', {'': 1})` throws although the key is present. */
  lemma EmptyKeyCounterexample()
    ensures Match(KStr(""), [("", 1)]) == Fail(NoMatch)
    ensures Match(KStr(""), [("", 1), ("_", 2)]) == Ok(2)
  {
    EmptyKeyQuirk([("", 1), ("_", 2)], 0);
    assert [("", 1), ("_", 2)][1].0 == DefaultCase;
  }

  /** Two orderings of the same own properties agree on every key: membership and property reads. */
  lemma SameProperties<R>(pattern: seq<(string, R)>, reordered: seq<(string, R)>, key: string)
    requires UniqueKeys(pattern) && UniqueKeys(reordered)
    requires multiset(pattern) == multiset(reordered)
    ensures HasOwn(pattern, key) <==> HasOwn(reordered, key)
    ensures Get(pattern, key) == Get(reordered, key)
  {
    if HasOwn(pattern, key) {
      var i :| 0 <= i < |pattern| && pattern[i].0 == key;
      assert pattern[i] in multiset(reordered);
      var j :| 0 <= j < |reordered| && reordered[j] == pattern[i];
    }
    if HasOwn(reordered, key) {
      var j :| 0 <= j < |reordered| && reordered[j].0 == key;
      assert reordered[j] in multiset(pattern);
      var i :| 0 <= i < |pattern| && pattern[i] == reordered[j];
    }
  }

  /** Own keys are unique, so at most one key matches and the order of `Object.keys` does not matter. */
  lemma KeyOrderIrrelevant<R>(value: Key, pattern: seq<(string, R)>, reordered: seq<(string, R)>)
    requires UniqueKeys(pattern) && UniqueKeys(reordered)
    requires multiset(pattern) == multiset(reordered)
    ensures Match(value, pattern) == Match(value, reordered)
  {
    SameProperties(pattern, reordered, Stringify(value));
    SameProperties(pattern, reordered, DefaultCase);
    FindsSearchedText(value, pattern);
    FindsSearchedText(value, reordered);
  }

  /** A number selects the property named by its decimal text, as that text given as a string does. */
  lemma LegacyNumberCoercion<R>(n: SafeInt, pattern: seq<(string, R)>)
    ensures Match(KNum(n), pattern) == Match(KStr(IntToDecimal(n as int)), pattern)
  {
  }

  /** The string examples of test/index.test.ts: exact keys and the `'_'` default. */
  lemma LegacyStringScenarios()
    ensures Match(KStr("title"), [("h1", 20), ("title", 16), ("_", 13)]) == Ok(16)
    ensures Match(KStr("unknown"), [("h1", 20), ("title", 16), ("_", 13)]) == Ok(13)
  {
  }

  /** The numeric examples of test/index.test.ts: `1` selects the key `"1"`, a missing key the `'_'` default. */
  lemma LegacyNumberScenarios()
    ensures Match(KNum(1), [("1", "a"), ("2", "b"), ("_", "any")]) == Ok("a")
    ensures Match(KStr("title"), [("1", "a"), ("2", "b"), ("_", "any")]) == Ok("any")
  {
  }

  /** lazyMatch: a selector with the pattern bound, answering every value exactly as `match` does. */
  function LazyMatch<R>(pattern: seq<(string, R)>): (selector: Key -> Outcome<R>)
    ensures forall value :: selector(value) == Match(value, pattern)
  {
    value => Match(value, pattern)
  }

  /** `['h1', 'h2', 'unknown'].map(lazyMatch(format))` of test/index.test.js answers 20, 18 and the `'_'` value 13. */
  lemma LegacyLazyScenario()
    ensures var select := LazyMatch([("h1", 20), ("h2", 18), ("title", 16), ("description", 14), ("_", 13)]);
      select(KStr("h1")) == Ok(20) && select(KStr("h2")) == Ok(18) && select(KStr("unknown")) == Ok(13)
  {
    var format := [("h1", 20), ("h2", 18), ("title", 16), ("description", 14), ("_", 13)];
    assert UniqueKeys(format);
    LegacyHit(KStr("h1"), format, 0);
    LegacyHit(KStr("h2"), format, 1);
    assert !HasOwn(format, "unknown");
    LegacyDefault(KStr("unknown"), format, 4);
  }
}
