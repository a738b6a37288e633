/**
 * The pieces of JavaScript semantics that both dispatch variants rely on:
 * truthiness of the value a predicate returns, the text a string or number
 * key turns into when it is used as a property name (`String(k)`), and the
 * own string-keyed properties of a plain object.
 */
module Js {

  datatype Option<T> = None | Some(value: T)

  /**
   * A value as far as `ToBoolean` can tell values apart. Numbers are
   * integers here: NaN and -0 (both falsy) are not modelled.
   */
  datatype JsValue = Undefined | Null | Bool(b: bool) | Number(n: int) | Str(s: string) | Object

  /** `ToBoolean`: undefined, null, false, 0 and "" are falsy, everything else is truthy. */
  predicate Truthy(v: JsValue)
    ensures Truthy(v) <==> v !in {Undefined, Null, Bool(false), Number(0), Str("")}
  {
    match v
    case Undefined => false
    case Null => false
    case Bool(b) => b
    case Number(n) => n != 0
    case Str(s) => s != ""
    case Object => true
  }

  /**
   * The safe integers, |n| < 2^53: every integer in this range is a
   * distinct number, so no two keys stand for the same number. Their `String(n)` is plain decimal text, well below the 10^21 from
   * which `String` switches to exponent notation.
   */
  newtype SafeInt = n: int | -0x20_0000_0000_0000 < n < 0x20_0000_0000_0000

  /** A search key of literal dispatch: a string or a safe-integer number. */
  datatype Key = KStr(s: string) | KNum(n: SafeInt)

  function DigitChar(d: nat): (c: char)
    requires d < 10
    ensures '0' <= c <= '9'
  {
    ('0' as int + d) as char
  }

  function CharDigit(c: char): Option<nat> {
    if '0' <= c <= '9' then Some(c as int - '0' as int) else None
  }

  predicate IsDigits(s: string) {
    forall i :: 0 <= i < |s| ==> '0' <= s[i] <= '9'
  }

  /** Decimal digits of a natural number as `String` writes them: non-empty, no leading zero. */
  predicate CanonicalNat(s: string) {
    |s| > 0 && IsDigits(s) && (|s| > 1 ==> s[0] != '0')
  }

  /** Decimal text of an integer as `String` writes it: canonical digits, or a minus sign before non-zero canonical digits. */
  predicate CanonicalDecimal(s: string) {
    CanonicalNat(s) || (|s| > 1 && s[0] == '-' && CanonicalNat(s[1..]) && s[1..] != "0")
  }

  /** The decimal text of a natural number, without leading zeros. */
  function NatToDecimal(n: nat): (s: string)
    ensures CanonicalNat(s)
    ensures s == "0" <==> n == 0
    decreases n
  {
    if n < 10 then [DigitChar(n)] else NatToDecimal(n / 10) + [DigitChar(n % 10)]
  }

  /** `String(n)` for an integer number: an optional minus sign, then the decimal digits. */
  function IntToDecimal(n: int): (s: string)
    ensures CanonicalDecimal(s)
    ensures s[0] == '-' <==> n < 0
  {
    if n < 0 then "-" + NatToDecimal(-n) else NatToDecimal(n)
  }

  /** Reads a non-empty run of decimal digits; the partner of NatToDecimal. */
  function ParseDigits(s: string): Option<int>
    decreases |s|
  {
    if |s| == 0 then None
    else
      match CharDigit(s[|s| - 1])
      case None => None
      case Some(d) =>
        if |s| == 1 then Some(d)
        else
          match ParseDigits(s[..|s| - 1])
          case None => None
          case Some(m) => Some(10 * m + d)
  }

  /** Reads an optionally signed decimal integer; the partner of IntToDecimal. */
  function ParseDecimal(s: string): Option<int> {
    if |s| > 0 && s[0] == '-' then
      match ParseDigits(s[1..])
      case None => None
      case Some(m) => Some(-m)
    else
      match ParseDigits(s)
      case None => None
      case Some(m) => Some(m)
  }

  lemma {:induction false} NatDecimalRoundTrip(n: nat)
    ensures ParseDigits(NatToDecimal(n)) == Some(n)
    decreases n
  {
    if n >= 10 {
      var s := NatToDecimal(n);
      NatDecimalRoundTrip(n / 10);
      assert s[..|s| - 1] == NatToDecimal(n / 10);
      assert CharDigit(s[|s| - 1]) == Some(n % 10);
    }
  }

  /** The decimal text of a number can be read back as that number. */
  lemma {:induction false} DecimalRoundTrip(n: int)
    ensures ParseDecimal(IntToDecimal(n)) == Some(n)
  {
    var s := IntToDecimal(n);
    if n < 0 {
      var digits := NatToDecimal(-n);
      assert s == "-" + digits;
      assert s[1..] == digits;
      NatDecimalRoundTrip(-n);
      assert ParseDigits(s[1..]) == Some(-n);
    } else {
      assert s == NatToDecimal(n);
      NatDecimalRoundTrip(n);
    }
  }

  /** Digits that do not start with '0' read as a positive number. */
  lemma {:induction false} LeadingDigitPositive(s: string)
    requires |s| > 0 && IsDigits(s) && s[0] != '0'
    ensures ParseDigits(s).Some? && ParseDigits(s).value > 0
    decreases |s|
  {
    if |s| > 1 {
      var prefix := s[..|s| - 1];
      assert IsDigits(prefix) && prefix[0] == s[0];
      LeadingDigitPositive(prefix);
    }
  }

  /** Canonical digits are the one text NatToDecimal writes for the number they read as. */
  lemma {:induction false} CanonicalNatUnique(s: string)
    requires CanonicalNat(s)
    ensures ParseDigits(s).Some? && ParseDigits(s).value >= 0
    ensures NatToDecimal(ParseDigits(s).value) == s
    decreases |s|
  {
    var d := CharDigit(s[|s| - 1]).value;
    assert DigitChar(d) == s[|s| - 1];
    if |s| > 1 {
      var prefix := s[..|s| - 1];
      assert IsDigits(prefix) && prefix[0] == s[0];
      assert CanonicalNat(prefix);
      LeadingDigitPositive(prefix);
      CanonicalNatUnique(prefix);
      var m := ParseDigits(prefix).value;
      var n := 10 * m + d;
      assert n / 10 == m && n % 10 == d;
      assert s == prefix + [s[|s| - 1]];
    }
  }

  /** `String(k)`: the property name a search key selects; a number's name is its canonical decimal text. */
  function Stringify(k: Key): (name: string)
    ensures k.KStr? ==> name == k.s
    ensures k.KNum? ==> CanonicalDecimal(name) && ParseDecimal(name) == Some(k.n as int)
  {
    match k
    case KStr(s) => s
    case KNum(n) => DecimalRoundTrip(n as int); IntToDecimal(n as int)
  }

  /** Two different numbers never select the same property name. */
  lemma NumberKeysInjective(a: SafeInt, b: SafeInt)
    ensures Stringify(KNum(a)) == Stringify(KNum(b)) <==> a == b
  {
  }

  /**
   * A number's property name is exactly the canonical decimal text that
   * reads as it: "01", "+1" or "-0" never name the entry of 1 or 0.
   */
  lemma NumberStringCoincide(n: SafeInt, s: string)
    ensures Stringify(KNum(n)) == s <==> CanonicalDecimal(s) && ParseDecimal(s) == Some(n as int)
  {
    if CanonicalDecimal(s) && ParseDecimal(s) == Some(n as int) {
      if CanonicalNat(s) {
        CanonicalNatUnique(s);
        assert s[0] != '-';
      } else {
        var digits := s[1..];
        CanonicalNatUnique(digits);
        LeadingDigitPositive(digits);
        assert s == "-" + digits;
      }
    }
  }

  // --- Own string-keyed properties of a plain object ---
  // An object is the sequence of its own (key, value) pairs in `Object.keys` order.

  /** An object never has two own properties with the same name. */
  ghost predicate UniqueKeys<R>(entries: seq<(string, R)>) {
    forall i, j :: 0 <= i < j < |entries| ==> entries[i].0 != entries[j].0
  }

  /**
   * `Object.prototype.hasOwnProperty` / the `in` operator restricted to own
   * properties, as a scan of the keys: true iff some own property has that name.
   */
  predicate HasOwn<R>(entries: seq<(string, R)>, key: string)
    ensures HasOwn(entries, key) <==> exists i :: 0 <= i < |entries| && entries[i].0 == key
    decreases |entries|
  {
    if |entries| == 0 then false
    else
      assert forall i :: 1 <= i < |entries| ==> entries[1..][i - 1] == entries[i];
      entries[0].0 == key || HasOwn(entries[1..], key)
  }

  /** Reading `o[key]`: the value of the own property named `key`, if there is one. */
  function Get<R>(entries: seq<(string, R)>, key: string): (r: Option<R>)
    ensures r.Some? <==> HasOwn(entries, key)
    ensures r.Some? ==> exists i :: 0 <= i < |entries| && entries[i] == (key, r.value)
    ensures UniqueKeys(entries) ==>
      forall i :: 0 <= i < |entries| && entries[i].0 == key ==> r == Some(entries[i].1)
    decreases |entries|
  {
    if |entries| == 0 then None
    else if entries[0].0 == key then Some(entries[0].1)
    else
      var r := Get(entries[1..], key);
      assert forall i :: 1 <= i < |entries| ==> entries[1..][i - 1] == entries[i];
      r
  }

  /** Is `i` the first position whose key satisfies `p`? */
  ghost predicate FirstKeyAt<R>(entries: seq<(string, R)>, p: string -> bool, i: int) {
    0 <= i < |entries| && p(entries[i].0) && forall j :: 0 <= j < i ==> !p(entries[j].0)
  }

  /** `Object.keys(o).find(p)`: the first own key, in key order, that satisfies `p`. */
  function FindKey<R>(entries: seq<(string, R)>, p: string -> bool): (r: Option<string>)
    ensures r.Some? ==> exists i :: FirstKeyAt(entries, p, i) && entries[i].0 == r.value
    ensures r.None? <==> forall i :: 0 <= i < |entries| ==> !p(entries[i].0)
    decreases |entries|
  {
    if |entries| == 0 then None
    else if p(entries[0].0) then
      assert FirstKeyAt(entries, p, 0);
      Some(entries[0].0)
    else
      var r := FindKey(entries[1..], p);
      assert forall i :: 1 <= i < |entries| ==> entries[1..][i - 1] == entries[i];
      assert r.Some? ==> exists i :: FirstKeyAt(entries[1..], p, i) && entries[1..][i].0 == r.value;
      assert r.Some? ==> exists i :: FirstKeyAt(entries, p, i) && entries[i].0 == r.value by {
        if r.Some? {
          var i :| FirstKeyAt(entries[1..], p, i) && entries[1..][i].0 == r.value;
          assert FirstKeyAt(entries, p, i + 1);
        }
      }
      r
  }
}
