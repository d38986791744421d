/**
 * The predefined result transforms that core.then.js adds to every pattern.
 * Each reshapes the value of a successful match; `None` stands for a
 * JavaScript exception raised by the transform on a value of the wrong shape.
 */
module Transforms {
  import opened Wrappers
  import opened Values

  /** A transform, as a pattern's `then` receives it. */
  datatype Transform =
    | Select(key: string)                   // select(index)
    | As(name: string)                      // as(name)
    | MapTo(mapping: map<string, int>)      // map({field: index, ...})
    | ParseInt(radix: int)                  // parseInt(radix); 0 stands for an absent radix
    | Merge(sep: string)                    // merge(separator)
    | Slice(start: int, end: Option<int>)   // slice(start, end)
    | Text                                  // text()
    | Join(key: string, val: string)        // join(key, val)
    | Flatten                               // flatten()
    | Make(v: Value)                        // make(v): a constant result
    | Custom(f: (Value, string) -> Option<Value>)   // any other callback

  /** The result of transform `t` on value `r`, matched on the input `input`. */
  function Apply(t: Transform, r: Value, input: string): Option<Value> {
    match t
    case Select(k) => Some(SelectOf(r, k))
    case As(name) => Some(AsOf(r, name))
    case MapTo(mapping) => MapFields(r, mapping)
    case ParseInt(radix) => Some(ParseIntOf(ToText(r), radix))
    case Merge(sep) => MergeOf(r, sep)
    case Slice(start, end) => SliceOf(r, start, end)
    case Text => Some(Str(input))
    case Join(key, val) => JoinOf(r, key, val)
    case Flatten => FlattenOf(r)
    case Make(v) => Some(v)
    case Custom(f) => f(r, input)
  }

  // ---------------------------------------------------------------------------
  // select and as

  /** `r ? r[k] : undefined`. */
  function SelectOf(r: Value, k: string): Value {
    if Truthy(r) then Get(r, k) else Undefined
  }

  /** Selecting by an index gives that element of a list, and `undefined` out of range or on an absent value. */
  lemma SelectIndex(r: Value, i: int)
    ensures r.List? ==> SelectOf(r, IntString(i)) == if 0 <= i < |r.items| then r.items[i] else Undefined
    ensures r.Undefined? ==> SelectOf(r, IntString(i)) == Undefined
  {
    if r.List? { GetIndex(r.items, i); }
  }

  /** The single-entry object `{name: r}`. */
  function AsOf(r: Value, name: string): (m: Value)
    ensures m.Record? && m.fields.Keys == {name}
  {
    Record(map[name := r])
  }

  /** `as` wraps and `select` of the same name unwraps: the two are inverse. */
  lemma SelectAfterAs(r: Value, name: string)
    ensures SelectOf(AsOf(r, name), name) == r
  {
  }

  /** Two `as` calls nest: the later name is outermost. */
  lemma AsTwice(r: Value, inner: string, outer: string)
    ensures AsOf(AsOf(r, inner), outer) == Record(map[outer := Record(map[inner := r])])
  {
  }

  // ---------------------------------------------------------------------------
  // map

  /**
   * `m[i] = r[mapping[i]]` for every field `i` of the mapping. Reading a property of
   * `undefined` throws, which happens only when the mapping is not empty.
   */
  function MapFields(r: Value, mapping: map<string, int>): Option<Value> {
    if mapping == map[] then Some(Record(map[]))
    else if r.Undefined? then None
    else Some(Record(map k | k in mapping :: Get(r, IntString(mapping[k]))))
  }

  /**
   * On a list, `map` yields an object whose keys are exactly the mapping's keys, each bound
   * to the element at its index, or to `undefined` when the index is out of range.
   */
  lemma {:induction false} MapFieldsOfList(xs: seq<Value>, mapping: map<string, int>)
    ensures MapFields(List(xs), mapping).Some?
    ensures var m := MapFields(List(xs), mapping).value;
      && m.Record? && m.fields.Keys == mapping.Keys
      && forall k :: k in mapping ==>
           m.fields[k] == if 0 <= mapping[k] < |xs| then xs[mapping[k]] else Undefined
  {
    forall k | k in mapping { GetIndex(xs, mapping[k]); }
  }

  /** The `for (i in mapping)` loop of core.then.js that fills the fresh object. */
  method MapObject(r: Value, mapping: map<string, int>) returns (res: Option<Value>)
    ensures res == MapFields(r, mapping)
  {
    if mapping == map[] {
      return Some(Record(map[]));
    }
    var m: map<string, Value> := map[];
    var rest := mapping.Keys;
    while rest != {}
      invariant rest <= mapping.Keys
      invariant m.Keys == mapping.Keys - rest
      invariant forall k :: k in m ==> m[k] == Get(r, IntString(mapping[k]))
      invariant r.Undefined? ==> rest == mapping.Keys
      decreases rest
    {
      var k :| k in rest;
      if r.Undefined? {
        return None;
      }
      m := m[k := Get(r, IntString(mapping[k]))];
      rest := rest - {k};
    }
    assert m == map k | k in mapping :: Get(r, IntString(mapping[k]));
    return Some(Record(m));
  }

  // ---------------------------------------------------------------------------
  // parseInt

  /** The input without its leading white space. */
  function TrimStart(s: string): (t: string)
    ensures |t| <= |s| && t == s[|s| - |t|..]
    ensures t == [] || !IsJsSpace(t[0])
  {
    if s != [] && IsJsSpace(s[0]) then TrimStart(s[1..]) else s
  }

  /** The length of the longest prefix of `s` made of digits of `radix`. */
  function DigitPrefix(s: string, radix: nat): (n: nat)
    ensures n <= |s| && AllDigits(s[..n], radix)
    ensures n < |s| ==> DigitValue(s[n]) >= radix
  {
    if s != [] && DigitValue(s[0]) < radix then
      var n := 1 + DigitPrefix(s[1..], radix);
      assert forall i :: 1 <= i < n ==> s[..n][i] == s[1..][..n - 1][i - 1];
      n
    else 0
  }

  /**
   * JavaScript's `parseInt(s, radix)`: leading white space and one sign are skipped;
   * radix 0 (absent) means 10, or 16 after a `0x` prefix; radix 16 also accepts the
   * prefix; the longest run of digits is read and anything after it is ignored; the
   * result is NaN when there is no digit or the radix is outside 2..36.
   */
  function ParseIntOf(input: string, radix: int): Value {
    var s0 := TrimStart(input);
    var negative := s0 != [] && s0[0] == '-';
    var s1 := if s0 != [] && (s0[0] == '-' || s0[0] == '+') then s0[1..] else s0;
    if radix != 0 && (radix < 2 || radix > 36) then NaN
    else
      var stripPrefix := radix == 0 || radix == 16;
      var hasPrefix := stripPrefix && |s1| >= 2 && s1[0] == '0' && (s1[1] == 'x' || s1[1] == 'X');
      var s2 := if hasPrefix then s1[2..] else s1;
      var r: nat := if hasPrefix then 16 else if radix == 0 then 10 else radix;
      var n := DigitPrefix(s2, r);
      if n == 0 then NaN
      else
        var v: int := NumeralValue(s2[..n], r);
        Num(if negative then -v else v)
  }

  /**
   * A well-formed digit string, followed by anything that is not a digit of the radix,
   * parses to the number it denotes. (In radix 16 the string must not be read as a `0x` prefix.)
   */
  lemma {:induction false} ParseIntDigits(ds: string, rest: string, radix: int)
    requires 2 <= radix <= 36 && |ds| > 0 && AllDigits(ds, radix)
    requires rest == [] || DigitValue(rest[0]) >= radix
    requires radix == 16 ==> !(ds == "0" && rest != [] && (rest[0] == 'x' || rest[0] == 'X'))
    ensures ParseIntOf(ds + rest, radix) == Num(NumeralValue(ds, radix))
  {
    var s := ds + rest;
    assert s[0] == ds[0] && DigitValue(ds[0]) < 36;
    assert !(radix == 16 && |s| >= 2 && s[0] == '0' && (s[1] == 'x' || s[1] == 'X')) by {
      if |ds| >= 2 {
        assert s[1] == ds[1] && DigitValue(ds[1]) < radix;
      } else if |s| >= 2 {
        assert ds == [ds[0]] && s[1] == rest[0];
      }
    }
    DigitPrefixOf(ds, rest, radix);
    ParseIntPlain(s, radix, |ds|);
  }

  /** Input that starts with a digit, has no sign and no `0x` prefix is read from its first character. */
  lemma ParseIntPlain(s: string, radix: int, n: nat)
    requires 2 <= radix <= 36 && s != [] && DigitValue(s[0]) < 36
    requires !(radix == 16 && |s| >= 2 && s[0] == '0' && (s[1] == 'x' || s[1] == 'X'))
    requires n == DigitPrefix(s, radix) && n > 0
    ensures ParseIntOf(s, radix) == Num(NumeralValue(s[..n], radix))
  {
    NoLeadingSpace(s);
  }

  /** Input that starts with a digit has no white space or sign to skip. */
  lemma NoLeadingSpace(s: string)
    requires s != [] && DigitValue(s[0]) < 36
    ensures TrimStart(s) == s && s[0] != '-' && s[0] != '+'
  {
    assert !IsJsSpace(s[0]);
  }

  lemma {:induction false} DigitPrefixOf(ds: string, rest: string, radix: nat)
    requires AllDigits(ds, radix)
    requires rest == [] || DigitValue(rest[0]) >= radix
    ensures DigitPrefix(ds + rest, radix) == |ds|
    ensures (ds + rest)[..|ds|] == ds
  {
    if ds != [] {
      assert (ds + rest)[1..] == ds[1..] + rest;
      assert AllDigits(ds[1..], radix) by {
        forall i | 0 <= i < |ds[1..]| ensures DigitValue(ds[1..][i]) < radix { assert ds[1..][i] == ds[i + 1]; }
      }
      DigitPrefixOf(ds[1..], rest, radix);
    } else {
      assert ds + rest == rest;
    }
  }

  /** Rendering a number in a radix and parsing it back gives the number. */
  lemma {:induction false} ParseIntRoundTrip(n: nat, radix: int)
    requires 2 <= radix <= 36
    ensures ParseIntOf(Numeral(n, radix), radix) == Num(n)
  {
    var ds := Numeral(n, radix);
    assert ds + [] == ds;
    ParseIntDigits(ds, [], radix);
    NumeralRoundTrip(n, radix);
  }

  // ---------------------------------------------------------------------------
  // merge

  /** `r.join(sep)`: only arrays have `join`; on anything else the call throws. */
  function MergeOf(r: Value, sep: string): Option<Value> {
    if r.List? then Some(Str(JoinStrings(ElementTexts(r.items), sep))) else None
  }

  /** Appending one element adds a separator and that element's text. */
  lemma MergeSnoc(xs: seq<Value>, x: Value, sep: string)
    requires |xs| > 0
    ensures MergeOf(List(xs + [x]), sep)
         == Some(Str(MergeOf(List(xs), sep).value.s + sep + (if x.Undefined? then "" else ToText(x))))
  {
    var ys := xs + [x];
    assert ElementTexts(ys)[..|ys| - 1] == ElementTexts(xs);
  }

  /** The merged text is as long as the parts plus one separator between each pair of neighbours. */
  lemma {:induction false} MergeLength(ss: seq<string>, sep: string)
    ensures |JoinStrings(ss, sep)| == SumLengths(ss) + (if ss == [] then 0 else (|ss| - 1) * |sep|)
  {
    if |ss| > 1 {
      MergeLength(ss[..|ss| - 1], sep);
      SumLengthsSnoc(ss[..|ss| - 1], ss[|ss| - 1]);
      assert ss[..|ss| - 1] + [ss[|ss| - 1]] == ss;
    } else if |ss| == 1 {
      assert ss == [] + [ss[0]];
      SumLengthsSnoc([], ss[0]);
    }
  }

  /** With the default (empty) separator, `merge` concatenates the parts in order. */
  lemma {:induction false} MergeConcat(ss: seq<string>)
    ensures JoinStrings(ss, "") == Concat(ss)
  {
    if |ss| > 1 {
      MergeConcat(ss[..|ss| - 1]);
      ConcatSnoc(ss[..|ss| - 1], ss[|ss| - 1]);
      assert ss[..|ss| - 1] + [ss[|ss| - 1]] == ss;
    } else if |ss| == 1 {
      assert Concat(ss) == ss[0] + Concat(ss[1..]);
    }
  }

  function Concat(ss: seq<string>): string {
    if ss == [] then "" else ss[0] + Concat(ss[1..])
  }

  function SumLengths(ss: seq<string>): nat {
    if ss == [] then 0 else |ss[0]| + SumLengths(ss[1..])
  }

  lemma {:induction false} ConcatSnoc(ss: seq<string>, t: string)
    ensures Concat(ss + [t]) == Concat(ss) + t
  {
    if ss != [] {
      assert (ss + [t])[1..] == ss[1..] + [t];
      ConcatSnoc(ss[1..], t);
    }
  }

  lemma {:induction false} SumLengthsSnoc(ss: seq<string>, t: string)
    ensures SumLengths(ss + [t]) == SumLengths(ss) + |t|
  {
    if ss != [] {
      assert (ss + [t])[1..] == ss[1..] + [t];
      SumLengthsSnoc(ss[1..], t);
    }
  }

  // ---------------------------------------------------------------------------
  // slice

  /** The bounds `slice(start, end)` picks on a sequence of length `len`. */
  function SliceBounds(len: nat, start: int, end: Option<int>): (b: (nat, nat))
    ensures b.0 <= b.1 <= len
  {
    var from := if start < 0 then (if len + start < 0 then 0 else len + start) else (if start > len then len else start);
    var to := match end
      case None => len
      case Some(e) => if e < 0 then (if len + e < 0 then 0 else len + e) else (if e > len then len else e);
    if from < to then (from, to) else (from, from)
  }

  /** `r.slice(start, end)` on a string or an array; anything else has no `slice` and throws. */
  function SliceOf(r: Value, start: int, end: Option<int>): Option<Value> {
    match r
    case Str(s) => var b := SliceBounds(|s|, start, end); Some(Str(s[b.0..b.1]))
    case List(xs) => var b := SliceBounds(|xs|, start, end); Some(List(xs[b.0..b.1]))
    case _ => None
  }

  /** `slice(1, -1)` strips the first and the last character, as the quoted-string reader uses it. */
  lemma SliceStrip(s: string)
    requires |s| >= 2
    ensures SliceOf(Str(s), 1, Some(-1)) == Some(Str(s[1..|s| - 1]))
  {
  }

  /** A non-negative start and end inside the string select exactly `s[start..end]`. */
  lemma SliceInside(s: string, start: nat, end: nat)
    requires start <= end <= |s|
    ensures SliceOf(Str(s), start, Some(end)) == Some(Str(s[start..end]))
  {
  }

  // ---------------------------------------------------------------------------
  // join

  /** The property name `r[i][key]` becomes in the object `join` builds. */
  function KeyOf(x: Value, key: string): string { ToText(Get(x, key)) }

  /** `m[r[i][key]] = r[i][val]` for `i` in order, so a later element overwrites an earlier one. */
  function JoinFold(xs: seq<Value>, key: string, val: string): map<string, Value> {
    if xs == [] then map[]
    else JoinFold(xs[..|xs| - 1], key, val)[KeyOf(xs[|xs| - 1], key) := Get(xs[|xs| - 1], val)]
  }

  /**
   * `join(key, val)`. Reading a property of an `undefined` element, or the length of
   * `undefined`, throws. A value without a `length` (a number, an object) gives `{}`.
   */
  function JoinOf(r: Value, key: string, val: string): Option<Value> {
    match r
    case Undefined => None
    case List(xs) => if exists i :: 0 <= i < |xs| && xs[i].Undefined? then None else Some(Record(JoinFold(xs, key, val)))
    case Str(s) => Some(Record(JoinFold(Chars(s), key, val)))
    case _ => Some(Record(map[]))
  }

  /** The object `join` builds holds exactly one key per element. */
  lemma {:induction false} JoinKeys(xs: seq<Value>, key: string, val: string)
    ensures JoinFold(xs, key, val).Keys == set i | 0 <= i < |xs| :: KeyOf(xs[i], key)
  {
    if xs != [] {
      var init := xs[..|xs| - 1];
      JoinKeys(init, key, val);
      var keys := set i | 0 <= i < |xs| :: KeyOf(xs[i], key);
      var initKeys := set i | 0 <= i < |init| :: KeyOf(init[i], key);
      assert keys == initKeys + {KeyOf(xs[|xs| - 1], key)} by {
        forall k | k in keys ensures k in initKeys + {KeyOf(xs[|xs| - 1], key)} {
          var i :| 0 <= i < |xs| && k == KeyOf(xs[i], key);
          if i < |init| { assert KeyOf(init[i], key) == k; }
        }
        forall k | k in initKeys ensures k in keys {
          var i :| 0 <= i < |init| && k == KeyOf(init[i], key);
          assert init[i] == xs[i];
        }
      }
    }
  }

  /**
   * The key of element `i` is bound to element `i`'s value when no later element has
   * the same key: when a key repeats, the last occurrence wins.
   */
  lemma {:induction false} JoinLastWins(xs: seq<Value>, key: string, val: string, i: nat)
    requires i < |xs|
    requires forall j :: i < j < |xs| ==> KeyOf(xs[j], key) != KeyOf(xs[i], key)
    ensures KeyOf(xs[i], key) in JoinFold(xs, key, val)
    ensures JoinFold(xs, key, val)[KeyOf(xs[i], key)] == Get(xs[i], val)
  {
    var init := xs[..|xs| - 1];
    if i < |xs| - 1 {
      assert init[i] == xs[i];
      forall j | i < j < |init| ensures KeyOf(init[j], key) != KeyOf(init[i], key) {
        assert init[j] == xs[j];
      }
      JoinLastWins(init, key, val, i);
    }
  }

  /** The `for` loop of core.then.js's `join`, over the elements of an array. */
  method JoinRecords(xs: seq<Value>, key: string, val: string) returns (res: Option<Value>)
    ensures res == JoinOf(List(xs), key, val)
  {
    var m: map<string, Value> := map[];
    var i := 0;
    while i < |xs|
      invariant 0 <= i <= |xs|
      invariant m == JoinFold(xs[..i], key, val)
      invariant forall j :: 0 <= j < i ==> !xs[j].Undefined?
    {
      if xs[i].Undefined? {
        return None;
      }
      assert xs[..i + 1][..i] == xs[..i];
      m := m[KeyOf(xs[i], key) := Get(xs[i], val)];
      i := i + 1;
    }
    assert xs[..i] == xs;
    return Some(Record(m));
  }

  // ---------------------------------------------------------------------------
  // flatten

  /** No element is a list. */
  predicate IsFlat(xs: seq<Value>) {
    forall i :: 0 <= i < |xs| ==> !xs[i].List?
  }

  /** The non-list leaves of nested lists, left to right. */
  function Leaves(xs: seq<Value>): seq<Value>
    decreases xs
  {
    if xs == [] then []
    else (if xs[0].List? then Leaves(xs[0].items) else [xs[0]]) + Leaves(xs[1..])
  }

  /** `flatten()`: arrays are flattened and strings split into characters; `undefined` has no `length` and throws. */
  function FlattenOf(r: Value): Option<Value> {
    match r
    case Undefined => None
    case List(xs) => Some(List(Leaves(xs)))
    case Str(s) => Some(List(Chars(s)))
    case _ => Some(List([]))
  }

  lemma {:induction false} LeavesAppend(a: seq<Value>, b: seq<Value>)
    ensures Leaves(a + b) == Leaves(a) + Leaves(b)
    decreases a
  {
    if a != [] {
      assert (a + b)[0] == a[0] && (a + b)[1..] == a[1..] + b;
      LeavesAppend(a[1..], b);
    } else {
      assert a + b == b;
    }
  }

  /** The result of `flatten` contains no list. */
  lemma {:induction false} LeavesAreFlat(xs: seq<Value>)
    ensures IsFlat(Leaves(xs))
    decreases xs
  {
    if xs != [] {
      if xs[0].List? { LeavesAreFlat(xs[0].items); }
      LeavesAreFlat(xs[1..]);
    }
  }

  /** A list that is already flat is left unchanged. */
  lemma {:induction false} LeavesOfFlat(xs: seq<Value>)
    requires IsFlat(xs)
    ensures Leaves(xs) == xs
    decreases xs
  {
    if xs != [] {
      LeavesOfFlat(xs[1..]);
      assert [xs[0]] + xs[1..] == xs;
    }
  }

  /** Flattening twice is flattening once. */
  lemma FlattenIdempotent(xs: seq<Value>)
    ensures Leaves(Leaves(xs)) == Leaves(xs)
  {
    LeavesAreFlat(xs);
    LeavesOfFlat(Leaves(xs));
  }

  /** The recursive `flatten` helper of core.then.js: a loop that concatenates nested results and pushes leaves. */
  method FlattenArray(a: seq<Value>) returns (f: seq<Value>)
    ensures f == Leaves(a)
    decreases a
  {
    f := [];
    var i := 0;
    while i < |a|
      invariant 0 <= i <= |a|
      invariant f == Leaves(a[..i])
    {
      assert a[..i + 1] == a[..i] + [a[i]];
      LeavesAppend(a[..i], [a[i]]);
      if a[i].List? {
        var g := FlattenArray(a[i].items);
        f := f + g;
      } else {
        f := f + [a[i]];
      }
      i := i + 1;
    }
    assert a[..i] == a;
  }
}
