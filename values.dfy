/**
 * The JavaScript values that patterns produce and that the transforms reshape:
 * strings, numbers (integers, NaN and +Infinity), arrays, plain objects and
 * `undefined`, together with the parts of JavaScript's property access and
 * string conversion the library relies on.
 */
module Values {
  import opened Wrappers

  datatype Value =
    | Undefined
    | Str(s: string)
    | Num(n: int)
    | NaN
    | Infinity
    | List(items: seq<Value>)
    | Record(fields: map<string, Value>)

  /** JavaScript truthiness of a value (`null` and booleans are not modelled). */
  predicate Truthy(v: Value) {
    match v
    case Undefined => false
    case Str(s) => s != ""
    case Num(n) => n != 0
    case NaN => false
    case _ => true
  }

  // ---------------------------------------------------------------------------
  // Digits and numerals

  /** The value of `c` as a digit in radix 36 (`0`-`9`, `a`-`z`, `A`-`Z`); 36 for any other character. */
  function DigitValue(c: char): (d: nat)
    ensures d <= 36
  {
    if '0' <= c <= '9' then c as int - '0' as int
    else if 'a' <= c <= 'z' then c as int - 'a' as int + 10
    else if 'A' <= c <= 'Z' then c as int - 'A' as int + 10
    else 36
  }

  predicate IsDecimalDigit(c: char) { '0' <= c <= '9' }

  /** The lower-case digit character for `d`. */
  function DigitChar(d: nat): (c: char)
    requires d < 36
    ensures DigitValue(c) == d
    ensures d < 10 ==> IsDecimalDigit(c)
  {
    if d < 10 then ('0' as int + d) as char else ('a' as int + d - 10) as char
  }

  /** All characters of `ds` are digits of `radix`. */
  predicate AllDigits(ds: string, radix: nat) {
    forall i :: 0 <= i < |ds| ==> DigitValue(ds[i]) < radix
  }

  /** The number a digit string denotes in `radix`, read most significant digit first. */
  function NumeralValue(ds: string, radix: nat): nat
  {
    if ds == [] then 0
    else NumeralValue(ds[..|ds| - 1], radix) * radix + DigitValue(ds[|ds| - 1])
  }

  /** The canonical numeral of `n` in `radix`: lower-case digits, no leading zero. */
  function Numeral(n: nat, radix: nat): (ds: string)
    requires 2 <= radix <= 36
    ensures |ds| > 0 && AllDigits(ds, radix)
    ensures |ds| > 1 ==> ds[0] != '0'
    decreases n
  {
    if n < radix then [DigitChar(n)]
    else
      var q, d := n / radix, n % radix;
      assert 1 <= q < n && d < radix by { DivModBounds(n, radix); }
      var init := Numeral(q, radix);
      assert |init| == 1 ==> init[0] == DigitChar(q);
      init + [DigitChar(d)]
  }

  lemma DivModBounds(n: nat, radix: nat)
    requires 2 <= radix <= n
    ensures 1 <= n / radix < n && n % radix < radix && n == (n / radix) * radix + n % radix
  {
  }

  /** Reading a rendered numeral gives the number back, in every radix. */
  lemma {:induction false} NumeralRoundTrip(n: nat, radix: nat)
    requires 2 <= radix <= 36
    ensures NumeralValue(Numeral(n, radix), radix) == n
    decreases n
  {
    var ds := Numeral(n, radix);
    if n >= radix {
      DivModBounds(n, radix);
      NumeralRoundTrip(n / radix, radix);
      assert ds[..|ds| - 1] == Numeral(n / radix, radix);
      assert DigitValue(ds[|ds| - 1]) == n % radix;
    } else {
      assert ds[..0] == [];
    }
  }

  function DecimalString(n: nat): (ds: string)
    ensures |ds| > 0 && forall i :: 0 <= i < |ds| ==> IsDecimalDigit(ds[i])
    ensures |ds| > 1 ==> ds[0] != '0'
  {
    var ds := Numeral(n, 10);
    assert forall i :: 0 <= i < |ds| ==> IsDecimalDigit(ds[i]) by {
      forall i | 0 <= i < |ds| ensures IsDecimalDigit(ds[i]) {
        assert DigitValue(ds[i]) < 10;
      }
    }
    ds
  }

  /** JavaScript's `String(i)` for an integer. */
  function IntString(i: int): string {
    if i < 0 then "-" + DecimalString(-i) else DecimalString(i)
  }

  /** A property key that names an array index: a canonical decimal numeral. */
  function ArrayIndex(k: string): (r: Option<nat>)
  {
    if |k| > 0 && (forall i :: 0 <= i < |k| ==> IsDecimalDigit(k[i])) && (|k| == 1 || k[0] != '0')
    then Some(NumeralValue(k, 10))
    else None
  }

  lemma {:induction false} DecimalDigitsAreDigits(ds: string)
    requires forall i :: 0 <= i < |ds| ==> IsDecimalDigit(ds[i])
    ensures AllDigits(ds, 10)
  {
  }

  /** A numeral whose first digit is not zero denotes at least `radix ^ (|ds| - 1)`, so at least 1. */
  lemma {:induction false} LeadingDigitPositive(ds: string, radix: nat)
    requires radix >= 2 && |ds| > 0 && AllDigits(ds, radix) && DigitValue(ds[0]) > 0
    ensures NumeralValue(ds, radix) >= 1
    decreases |ds|
  {
    var init := ds[..|ds| - 1];
    if |ds| == 1 {
      assert init == [];
      assert NumeralValue(ds, radix) == 0 * radix + DigitValue(ds[0]);
    } else {
      assert init[0] == ds[0];
      assert AllDigits(init, radix) by {
        forall i | 0 <= i < |init| ensures DigitValue(init[i]) < radix { assert init[i] == ds[i]; }
      }
      LeadingDigitPositive(init, radix);
      var m := NumeralValue(init, radix);
      assert NumeralValue(ds, radix) == m * radix + DigitValue(ds[|ds| - 1]);
      ProductPositive(m, radix);
    }
  }

  lemma ProductPositive(a: nat, b: nat)
    requires a >= 1 && b >= 1
    ensures a * b >= 1
  {
  }

  /** Every integer index renders to a key that `ArrayIndex` reads back. */
  lemma {:induction false} ArrayIndexOfDecimal(n: nat)
    ensures ArrayIndex(DecimalString(n)) == Some(n)
  {
    NumeralRoundTrip(n, 10);
  }

  /** The only key that `ArrayIndex` reads as `n` is the decimal numeral of `n`. */
  lemma {:induction false} ArrayIndexCanonical(k: string, n: nat)
    requires ArrayIndex(k) == Some(n)
    ensures k == DecimalString(n)
    decreases |k|
  {
    DecimalDigitsAreDigits(k);
    var last := k[|k| - 1];
    assert DigitValue(last) < 10;
    if |k| == 1 {
      assert k[..0] == [];
      assert n == NumeralValue(k, 10) == NumeralValue(k[..0], 10) * 10 + DigitValue(last);
      assert n == DigitValue(last);
      assert DigitChar(n) == last;
    } else {
      var init := k[..|k| - 1];
      assert init[0] == k[0];
      assert forall i :: 0 <= i < |init| ==> IsDecimalDigit(init[i]) by {
        forall i | 0 <= i < |init| ensures IsDecimalDigit(init[i]) { assert init[i] == k[i]; }
      }
      DecimalDigitsAreDigits(init);
      LeadingDigitPositive(init, 10);
      var m := NumeralValue(init, 10);
      assert n == m * 10 + DigitValue(last);
      assert n / 10 == m && n % 10 == DigitValue(last);
      assert ArrayIndex(init) == Some(m);
      ArrayIndexCanonical(init, m);
      assert DigitChar(n % 10) == last;
    }
  }

  /** The characters JavaScript counts as white space (`\s`, `String.prototype.trim`): WhiteSpace and LineTerminator. */
  predicate IsJsSpace(c: char) {
    c == '\t' || c == '\n' || c == '\U{000B}' || c == '\U{000C}' || c == '\r' || c == ' '
    || c == '\U{00A0}' || c == '\U{1680}' || ('\U{2000}' <= c <= '\U{200A}') || c == '\U{2028}' || c == '\U{2029}'
    || c == '\U{202F}' || c == '\U{205F}' || c == '\U{3000}' || c == '\U{FEFF}'
  }

  // ---------------------------------------------------------------------------
  // Property access

  /** The character of `s` or the element of `xs` named by key `k`, as `v[k]` reads it in JavaScript. */
  function Get(v: Value, k: string): Value {
    match v
    case List(xs) =>
      if k == "length" then Num(|xs|)
      else (match ArrayIndex(k)
            case Some(i) => if i < |xs| then xs[i] else Undefined
            case None => Undefined)
    case Str(s) =>
      if k == "length" then Num(|s|)
      else (match ArrayIndex(k)
            case Some(i) => if i < |s| then Str([s[i]]) else Undefined
            case None => Undefined)
    case Record(m) => if k in m then m[k] else Undefined
    case _ => Undefined
  }

  lemma IntStringNotLength(i: int)
    ensures IntString(i) != "length"
  {
    var k := IntString(i);
    if i >= 0 { assert IsDecimalDigit(k[0]); } else { assert k[0] == '-'; }
  }

  /** An integer index reads the element at that position, and `undefined` outside the list. */
  lemma {:induction false} GetIndex(xs: seq<Value>, i: int)
    ensures Get(List(xs), IntString(i)) == if 0 <= i < |xs| then xs[i] else Undefined
  {
    IntStringNotLength(i);
    if i >= 0 {
      ArrayIndexOfDecimal(i);
    } else {
      assert IntString(i)[0] == '-';
      assert ArrayIndex(IntString(i)) == None;
    }
  }

  /** The first three indices and the length of a list, as property keys. */
  lemma ListKeys(xs: seq<Value>)
    ensures |xs| > 0 ==> Get(List(xs), "0") == xs[0]
    ensures |xs| > 1 ==> Get(List(xs), "1") == xs[1]
    ensures |xs| > 2 ==> Get(List(xs), "2") == xs[2]
    ensures Get(List(xs), "length") == Num(|xs|)
  {
    assert IntString(0) == "0";
    assert IntString(1) == "1";
    assert IntString(2) == "2";
    GetIndex(xs, 0);
    GetIndex(xs, 1);
    GetIndex(xs, 2);
  }

  /** As `GetIndex`, for a string: an index reads a one-character string. */
  lemma {:induction false} GetCharIndex(s: string, i: int)
    ensures Get(Str(s), IntString(i)) == if 0 <= i < |s| then Str([s[i]]) else Undefined
  {
    IntStringNotLength(i);
    if i >= 0 {
      ArrayIndexOfDecimal(i);
    } else {
      assert IntString(i)[0] == '-';
      assert ArrayIndex(IntString(i)) == None;
    }
  }

  // ---------------------------------------------------------------------------
  // Conversion to string

  /** `strs` joined with `sep` between neighbours, as `Array.prototype.join` does. */
  function JoinStrings(strs: seq<string>, sep: string): string {
    if strs == [] then ""
    else if |strs| == 1 then strs[0]
    else JoinStrings(strs[..|strs| - 1], sep) + sep + strs[|strs| - 1]
  }

  /** JavaScript's `String(v)`. */
  function ToText(v: Value): string
    decreases v
  {
    match v
    case Undefined => "undefined"
    case Str(s) => s
    case Num(n) => IntString(n)
    case NaN => "NaN"
    case Infinity => "Infinity"
    case List(xs) =>
      JoinStrings(seq(|xs|, i requires 0 <= i < |xs| => if xs[i].Undefined? then "" else ToText(xs[i])), ",")
    case Record(_) => "[object Object]"
  }

  /** The strings `Array.prototype.join` joins: `undefined` elements become empty. */
  function ElementTexts(xs: seq<Value>): (r: seq<string>)
    ensures |r| == |xs|
    ensures forall i :: 0 <= i < |xs| ==> r[i] == if xs[i].Undefined? then "" else ToText(xs[i])
  {
    seq(|xs|, i requires 0 <= i < |xs| => if xs[i].Undefined? then "" else ToText(xs[i]))
  }

  /** A list of strings, each element carried as a `Str`. */
  function Strs(ss: seq<string>): (r: seq<Value>)
    ensures |r| == |ss| && forall i :: 0 <= i < |ss| ==> r[i] == Str(ss[i])
  {
    seq(|ss|, i requires 0 <= i < |ss| => Str(ss[i]))
  }

  /** The one-character strings of `s`, as iterating a JavaScript string yields them. */
  function Chars(s: string): (r: seq<Value>)
    ensures |r| == |s| && forall i :: 0 <= i < |s| ==> r[i] == Str([s[i]])
  {
    seq(|s|, i requires 0 <= i < |s| => Str([s[i]]))
  }

  // ---------------------------------------------------------------------------
  // Conversion to number

  /**
   * JavaScript's unary `+` on a string of decimal digits (the empty string gives 0)
   * and on a number; every other value is taken as NaN.
   */
  function ToNumber(v: Value): (r: Value)
    ensures r.Num? || r.NaN? || r.Infinity?
    ensures v.Str? && (forall i :: 0 <= i < |v.s| ==> IsDecimalDigit(v.s[i])) ==> r == Num(NumeralValue(v.s, 10))
  {
    match v
    case Str(t) => if forall i :: 0 <= i < |t| ==> IsDecimalDigit(t[i]) then Num(NumeralValue(t, 10)) else NaN
    case Num(_) => v
    case Infinity => v
    case _ => NaN
  }

  /** `a || b`. */
  function Or(a: Value, b: Value): (r: Value)
    ensures Truthy(a) ==> r == a
    ensures !Truthy(a) ==> r == b
  {
    if Truthy(a) then a else b
  }
}
