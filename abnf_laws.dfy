/** What the ABNF front-end promises: its callbacks, its meta-grammar's references, and `compile`. */
module AbnfLaws {
  import opened Wrappers
  import opened Values
  import opened Transforms
  import opened Core
  import opened CoreLaws
  import opened Lexical
  import opened Abnf
  import opened Failures

  // ---------------------------------------------------------------------------
  // The callbacks

  /**
   * `a*b` gives `{min: a, max: b}`; an empty `a` reads as 0, and an empty `b` as
   * unbounded, and so, as `+'0' || +Infinity` is also unbounded, does `b` = 0.
   */
  lemma RepeatRangeOf(a: string, star: Value, b: string, text: string)
    requires forall i :: 0 <= i < |a| ==> IsDecimalDigit(a[i])
    requires forall i :: 0 <= i < |b| ==> IsDecimalDigit(b[i])
    ensures RepeatRange(List([Str(a), star, Str(b)]), text)
         == Some(Record(map["min" := Num(NumeralValue(a, 10)),
                            "max" := if NumeralValue(b, 10) == 0 then Infinity else Num(NumeralValue(b, 10))]))
  {
    ListKeys([Str(a), star, Str(b)]);
  }

  /** `n` gives `{min: n, max: n}`. */
  lemma RepeatExactOf(d: string, text: string)
    requires forall i :: 0 <= i < |d| ==> IsDecimalDigit(d[i])
    ensures RepeatExact(Str(d), text) == Some(Record(map["min" := Num(NumeralValue(d, 10)), "max" := Num(NumeralValue(d, 10))]))
  {
  }

  /** `repeat [separator] element` gives the element under `rep`, the separator under `sep`, and the bounds of the repeat. */
  lemma RepetitionNodeOf(repeat: Value, sep: Value, element: Value, text: string)
    ensures RepetitionNode(List([repeat, sep, element]), text)
         == Some(Record(map["rep" := element, "sep" := sep, "min" := Get(repeat, "min"), "max" := Get(repeat, "max")]))
  {
    ListKeys([repeat, sep, element]);
  }

  /** `a ~ b` gives `{exc: [a, b]}`; without the `~` part the result is `a` itself. */
  lemma ExclusionNodeOf(lhs: Value, tilde: Value, rhs: Value, text: string)
    ensures ExclusionNode(List([lhs, List([tilde, rhs])]), text) == Some(Record(map["exc" := List([lhs, rhs])]))
    ensures ExclusionNode(List([lhs, Undefined]), text) == Some(lhs)
  {
    ListKeys([lhs, List([tilde, rhs])]);
    ListKeys([tilde, rhs]);
    ListKeys([lhs, Undefined]);
  }

  /** A concatenation or alternation of one item is that item; of several, a `seq` or `any` node over all of them. */
  lemma UnwrapOf(xs: seq<Value>, tag: string)
    ensures Unwrap(List(xs), tag) == if |xs| == 1 then xs[0] else Record(map[tag := List(xs)])
  {
    ListKeys(xs);
  }

  // ---------------------------------------------------------------------------
  // numval

  /** A run of digits matches in full and is read in the radix. */
  lemma {:induction false} NumberMatches(env: Env, digit: char -> bool, radix: int, s: string, k: nat, fuel: nat, n: nat, i: nat)
    requires k <= |s| && n == Span(s[k..], digit) && n > 0 && i == k + n
    ensures Exec(env, Number(digit, radix), s, k, fuel + 2) == Match(ParseIntOf(s[k..i], radix), n)
  {
    var rgx := Number(digit, radix).p;
    var t := s[k..i];
    assert s[k..][..n] == t;
    assert Exec(env, rgx, s, k, fuel + 1) == Match(Str(t), n);
    ThenMatches(env, rgx, ParseInt(radix), s, k, fuel + 1, Str(t), n);
    assert Apply(ParseInt(radix), Str(t), t) == Some(ParseIntOf(t, radix));
  }

  /** Without a leading digit a number does not match. */
  lemma {:induction false} NumberFails(env: Env, digit: char -> bool, radix: int, s: string, k: nat, fuel: nat)
    requires k <= |s| && Span(s[k..], digit) == 0
    ensures Exec(env, Number(digit, radix), s, k, fuel + 2) == NoMatch
  {
    var rgx := Number(digit, radix).p;
    assert Exec(env, rgx, s, k, fuel + 1) == NoMatch;
    ThenFails(env, rgx, ParseInt(radix), s, k, fuel + 1);
  }

  /** The first alternative of `numval` over any number pattern `q`. */
  function RangeAlt(prefix: string, q: Pattern): Pattern {
    Then(Seq([Txt(prefix), q, Txt("-"), q]), MapTo(map["min" := 1, "max" := 3]))
  }

  /** The second alternative of `numval` over any number pattern `q`. */
  function SingleAlt(prefix: string, q: Pattern): Pattern {
    Then(Seq([Txt(prefix), q]), MapTo(map["min" := 1, "max" := 1]))
  }

  lemma NumValAlts(prefix: string, digit: char -> bool, radix: int)
    ensures NumVal(prefix, digit, radix) == Any([RangeAlt(prefix, Number(digit, radix)), SingleAlt(prefix, Number(digit, radix))])
  {
  }

  /** `map({min: i, max: j})` on a list picks the elements at `i` and `j`. */
  lemma MinMaxOf(xs: seq<Value>, i: int, j: int)
    requires 0 <= i < |xs| && 0 <= j < |xs|
    ensures MapFields(List(xs), map["min" := i, "max" := j]) == Some(Record(map["min" := xs[i], "max" := xs[j]]))
  {
    var mapping := map["min" := i, "max" := j];
    MapFieldsOfList(xs, mapping);
    var m := MapFields(List(xs), mapping).value;
    assert m.fields.Keys == {"min", "max"};
    assert m.fields == map["min" := xs[i], "max" := xs[j]];
  }

  /** `"-" n2` inside the range form, the `-` at `i` and the second number from `j`. */
  lemma DashNumber(env: Env, q: Pattern, s: string, i: nat, j: nat, fuel: nat, v: Value, m: nat)
    requires i < |s| && s[i] == '-' && j == i + 1
    requires Exec(env, q, s, j, fuel + 2) == Match(v, m)
    ensures ExecSeq(env, [Txt("-"), q], s, i, fuel + 2) == Match(List([Str("-"), v]), 1 + m)
  {
    TxtMatch(env, "-", s, i, fuel + 1);
    assert s[i..i + 1] == "-";
    Seq2Run(env, Txt("-"), q, s, i, j, fuel + 2, Str("-"), 1, v, m);
  }

  /** `n1 "-" n2` inside the range form, the first number from `k`. */
  lemma NumberDashNumber(env: Env, q: Pattern, s: string, k: nat, i: nat, j: nat, fuel: nat,
                         v1: Value, n: nat, v2: Value, m: nat)
    requires i == k + n && i < |s| && s[i] == '-' && j == i + 1
    requires Exec(env, q, s, k, fuel + 2) == Match(v1, n)
    requires Exec(env, q, s, j, fuel + 2) == Match(v2, m)
    ensures ExecSeq(env, [q, Txt("-"), q], s, k, fuel + 2) == Match(List([v1, Str("-"), v2]), n + 1 + m)
  {
    DashNumber(env, q, s, i, j, fuel, v2, m);
    SeqCons(env, q, [Txt("-"), q], s, k, i, fuel + 2, v1, n, [Str("-"), v2], 1 + m);
    Cons2(q, Txt("-"), q);
    Cons2(v1, Str("-"), v2);
  }

  /** The parts of the range form, one after the other. */
  lemma RangeParts(env: Env, prefix: string, q: Pattern, s: string, pos: nat, k: nat, i: nat, j: nat, fuel: nat,
                   v1: Value, n: nat, v2: Value, m: nat)
    requires k == pos + |prefix| && k <= |s| && s[pos..k] == prefix
    requires i == k + n && i < |s| && s[i] == '-' && j == i + 1
    requires Exec(env, q, s, k, fuel + 2) == Match(v1, n)
    requires Exec(env, q, s, j, fuel + 2) == Match(v2, m)
    ensures Exec(env, Seq([Txt(prefix), q, Txt("-"), q]), s, pos, fuel + 3)
         == Match(List([Str(prefix), v1, Str("-"), v2]), |prefix| + n + 1 + m)
  {
    TxtMatch(env, prefix, s, pos, fuel + 1);
    NumberDashNumber(env, q, s, k, i, j, fuel, v1, n, v2, m);
    SeqCons(env, Txt(prefix), [q, Txt("-"), q], s, pos, k, fuel + 2, Str(prefix), |prefix|, [v1, Str("-"), v2], n + 1 + m);
    Cons3(Txt(prefix), q, Txt("-"), q);
    Cons3(Str(prefix), v1, Str("-"), v2);
  }

  /**
   * The range form `prefix n1 "-" n2` over numbers read as `v1` and `v2` gives `{min: v1, max: v2}`:
   * the prefix ends at `k`, the first number at `i`, where the `-` is, and the second number starts at `j`.
   */
  lemma {:induction false} RangeForm(env: Env, prefix: string, q: Pattern, s: string, pos: nat, k: nat, i: nat, j: nat, fuel: nat,
                                     v1: Value, n: nat, v2: Value, m: nat)
    requires k == pos + |prefix| && k <= |s| && s[pos..k] == prefix
    requires i == k + n && i < |s| && s[i] == '-' && j == i + 1
    requires Exec(env, q, s, k, fuel + 2) == Match(v1, n)
    requires Exec(env, q, s, j, fuel + 2) == Match(v2, m)
    ensures Exec(env, RangeAlt(prefix, q), s, pos, fuel + 4)
         == Match(Record(map["min" := v1, "max" := v2]), |prefix| + n + 1 + m)
  {
    var vs := [Str(prefix), v1, Str("-"), v2];
    RangeParts(env, prefix, q, s, pos, k, i, j, fuel, v1, n, v2, m);
    MinMaxOf(vs, 1, 3);
    ThenMatches(env, Seq([Txt(prefix), q, Txt("-"), q]), MapTo(map["min" := 1, "max" := 3]), s, pos, fuel + 3,
                List(vs), |prefix| + n + 1 + m);
  }

  /** `"-" n2` fails when there is no `-` at `i`, or no number after it. */
  lemma DashNumberFails(env: Env, q: Pattern, s: string, i: nat, j: nat, fuel: nat)
    requires i <= |s| && j == i + 1
    requires i < |s| && s[i] == '-' ==> Exec(env, q, s, j, fuel + 2).NoMatch?
    ensures ExecSeq(env, [Txt("-"), q], s, i, fuel + 2) == NoMatch
  {
    TxtMatch(env, "-", s, i, fuel + 1);
    if i < |s| && s[i] == '-' {
      assert s[i..i + 1] == "-";
      assert ExecSeq(env, [q], s, j, fuel + 2) == NoMatch;
      SeqConsFails(env, Txt("-"), [q], s, i, j, fuel + 2, Str("-"), 1);
      Cons1(Txt("-"), q);
    } else {
      assert j <= |s| ==> s[i..j] != "-";
    }
  }

  /** The range form fails when the first number, ending at `i`, is followed by something other than `-` and a second number. */
  lemma {:induction false} RangeFormFails(env: Env, prefix: string, q: Pattern, s: string, pos: nat, k: nat, i: nat, fuel: nat,
                                          v: Value, n: nat)
    requires k == pos + |prefix| && k <= |s| && s[pos..k] == prefix
    requires i == k + n && i <= |s|
    requires Exec(env, q, s, k, fuel + 2) == Match(v, n)
    requires i < |s| && s[i] == '-' ==> Exec(env, q, s, i + 1, fuel + 2).NoMatch?
    ensures Exec(env, RangeAlt(prefix, q), s, pos, fuel + 4) == NoMatch
  {
    var ps := [Txt(prefix), q, Txt("-"), q];
    TxtMatch(env, prefix, s, pos, fuel + 1);
    DashNumberFails(env, q, s, i, i + 1, fuel);
    SeqConsFails(env, q, [Txt("-"), q], s, k, i, fuel + 2, v, n);
    Cons2(q, Txt("-"), q);
    SeqConsFails(env, Txt(prefix), [q, Txt("-"), q], s, pos, k, fuel + 2, Str(prefix), |prefix|);
    Cons3(Txt(prefix), q, Txt("-"), q);
    SeqOf(env, ps, s, pos, fuel + 2);
    ThenFails(env, Seq(ps), MapTo(map["min" := 1, "max" := 3]), s, pos, fuel + 3);
  }

  /** The single form `prefix n` over a number read as `v` gives `{min: v, max: v}`. */
  lemma {:induction false} SingleForm(env: Env, prefix: string, q: Pattern, s: string, pos: nat, k: nat, fuel: nat, v: Value, n: nat)
    requires k == pos + |prefix| && k <= |s| && s[pos..k] == prefix
    requires Exec(env, q, s, k, fuel + 2) == Match(v, n)
    ensures Exec(env, SingleAlt(prefix, q), s, pos, fuel + 4) == Match(Record(map["min" := v, "max" := v]), |prefix| + n)
  {
    TxtMatch(env, prefix, s, pos, fuel + 1);
    Seq2Run(env, Txt(prefix), q, s, pos, k, fuel + 2, Str(prefix), |prefix|, v, n);
    SeqOf(env, [Txt(prefix), q], s, pos, fuel + 2);
    var ws := [Str(prefix), v];
    MinMaxOf(ws, 1, 1);
    ThenMatches(env, Seq([Txt(prefix), q]), MapTo(map["min" := 1, "max" := 1]), s, pos, fuel + 3, List(ws), |prefix| + n);
  }

  /** With the prefix in place up to `k` but no number after it, neither form matches. */
  lemma {:induction false} FailsAtNumber(env: Env, prefix: string, q: Pattern, s: string, pos: nat, k: nat, fuel: nat)
    requires k == pos + |prefix| && k <= |s| && s[pos..k] == prefix
    requires Exec(env, q, s, k, fuel + 2) == NoMatch
    ensures Exec(env, RangeAlt(prefix, q), s, pos, fuel + 4) == NoMatch
    ensures Exec(env, SingleAlt(prefix, q), s, pos, fuel + 4) == NoMatch
  {
    TxtMatch(env, prefix, s, pos, fuel + 1);
    assert ExecSeq(env, [q, Txt("-"), q], s, k, fuel + 2) == NoMatch;
    SeqConsFails(env, Txt(prefix), [q, Txt("-"), q], s, pos, k, fuel + 2, Str(prefix), |prefix|);
    Cons3(Txt(prefix), q, Txt("-"), q);
    assert ExecSeq(env, [q], s, k, fuel + 2) == NoMatch;
    SeqConsFails(env, Txt(prefix), [q], s, pos, k, fuel + 2, Str(prefix), |prefix|);
    Cons1(Txt(prefix), q);
  }

  /** Without the prefix, neither form matches. */
  lemma FailsAtPrefix(env: Env, prefix: string, q: Pattern, s: string, pos: nat, fuel: nat)
    requires pos <= |s| && !(pos + |prefix| <= |s| && s[pos..pos + |prefix|] == prefix)
    ensures Exec(env, RangeAlt(prefix, q), s, pos, fuel + 4) == NoMatch
    ensures Exec(env, SingleAlt(prefix, q), s, pos, fuel + 4) == NoMatch
  {
    TxtMatch(env, prefix, s, pos, fuel + 1);
    assert ExecSeq(env, [Txt(prefix), q, Txt("-"), q], s, pos, fuel + 2) == NoMatch;
    assert ExecSeq(env, [Txt(prefix), q], s, pos, fuel + 2) == NoMatch;
  }

  /** Two runs of digits, from `k` and from `j`, read as numbers. */
  lemma TwoNumbers(env: Env, digit: char -> bool, radix: int, s: string, fuel: nat, k: nat, n: nat, i: nat, j: nat, m: nat, e: nat)
    requires k <= |s| && n == Span(s[k..], digit) && n > 0 && i == k + n
    requires j <= |s| && m == Span(s[j..], digit) && m > 0 && e == j + m
    ensures Exec(env, Number(digit, radix), s, k, fuel + 2) == Match(ParseIntOf(s[k..i], radix), n)
    ensures Exec(env, Number(digit, radix), s, j, fuel + 2) == Match(ParseIntOf(s[j..e], radix), m)
  {
    NumberMatches(env, digit, radix, s, k, fuel, n, i);
    NumberMatches(env, digit, radix, s, j, fuel, m, e);
  }

  /**
   * `prefix n1-n2` gives `{min: n1, max: n2}`, the range form being tried first: the prefix
   * ends at `k`, the digits of `n1` run from `k` to the `-` at `i`, and those of `n2` from `j` to `e`.
   */
  lemma {:induction false} NumValRange(env: Env, prefix: string, digit: char -> bool, radix: int, s: string, pos: nat, fuel: nat,
                                       k: nat, n: nat, i: nat, j: nat, m: nat, e: nat)
    requires k == pos + |prefix| && k <= |s| && s[pos..k] == prefix
    requires n == Span(s[k..], digit) && n > 0 && i == k + n && i < |s| && s[i] == '-' && j == i + 1
    requires m == Span(s[j..], digit) && m > 0 && e == j + m
    ensures Exec(env, NumVal(prefix, digit, radix), s, pos, fuel + 5)
         == Match(Record(map["min" := ParseIntOf(s[k..i], radix), "max" := ParseIntOf(s[j..e], radix)]), e - pos)
  {
    var num := Number(digit, radix);
    TwoNumbers(env, digit, radix, s, fuel, k, n, i, j, m, e);
    RangeForm(env, prefix, num, s, pos, k, i, j, fuel, ParseIntOf(s[k..i], radix), n, ParseIntOf(s[j..e], radix), m);
    NumValAlts(prefix, digit, radix);
    AnyOfTwo(env, RangeAlt(prefix, num), SingleAlt(prefix, num), s, pos, fuel + 4);
  }

  /**
   * A lone `prefix n` gives `{min: n, max: n}`: the prefix ends at `k` and the digits of `n`
   * at `i`, where no `-` followed by a digit comes next.
   */
  lemma {:induction false} NumValSingle(env: Env, prefix: string, digit: char -> bool, radix: int, s: string, pos: nat, fuel: nat,
                                        k: nat, n: nat, i: nat)
    requires k == pos + |prefix| && k <= |s| && s[pos..k] == prefix
    requires n == Span(s[k..], digit) && n > 0 && i == k + n
    requires !(i < |s| && s[i] == '-' && Span(s[i + 1..], digit) > 0)
    ensures Exec(env, NumVal(prefix, digit, radix), s, pos, fuel + 5)
         == Match(Record(map["min" := ParseIntOf(s[k..i], radix), "max" := ParseIntOf(s[k..i], radix)]), i - pos)
  {
    var v := ParseIntOf(s[k..i], radix);
    var num := Number(digit, radix);
    NumberMatches(env, digit, radix, s, k, fuel, n, i);
    if i < |s| && s[i] == '-' {
      NumberFails(env, digit, radix, s, i + 1, fuel);
    }
    RangeFormFails(env, prefix, num, s, pos, k, i, fuel, v, n);
    SingleForm(env, prefix, num, s, pos, k, fuel, v, n);
    NumValAlts(prefix, digit, radix);
    AnyOfTwo(env, RangeAlt(prefix, num), SingleAlt(prefix, num), s, pos, fuel + 4);
  }

  /** Without the prefix, or a digit right after it, `numval` does not match. */
  lemma {:induction false} NumValFails(env: Env, prefix: string, digit: char -> bool, radix: int, s: string, pos: nat, fuel: nat)
    requires pos <= |s|
    requires !(pos + |prefix| <= |s| && s[pos..pos + |prefix|] == prefix && Span(s[pos + |prefix|..], digit) > 0)
    ensures Exec(env, NumVal(prefix, digit, radix), s, pos, fuel + 5) == NoMatch
  {
    var num := Number(digit, radix);
    var k := pos + |prefix|;
    TxtMatch(env, prefix, s, pos, fuel + 1);
    if pos + |prefix| <= |s| && s[pos..pos + |prefix|] == prefix {
      NumberFails(env, digit, radix, s, k, fuel);
      FailsAtNumber(env, prefix, num, s, pos, k, fuel);
    } else {
      FailsAtPrefix(env, prefix, num, s, pos, fuel);
    }
    NumValAlts(prefix, digit, radix);
    AnyOfTwo(env, RangeAlt(prefix, num), SingleAlt(prefix, num), s, pos, fuel + 4);
  }

  // ---------------------------------------------------------------------------
  // The meta-grammar's references

  /** The names `ABNF.pattern` defines. */
  lemma MetaRuleNames()
    ensures MetaRules().Keys == {"hexval", "decval", "binval", "repeat", "repetition", "exclusion",
                                 "concatenation", "alternation", "separator", "element"}
  {
  }

  /** A reference is eager when the rule is already defined and lazy otherwise. */
  lemma MetaRefOf(rules: map<string, Pattern>, name: string)
    ensures name in rules ==> MetaRef(rules, name) == rules[name]
    ensures name !in rules ==> LazyNames(MetaRef(rules, name), MetaScope) == {name}
  {
  }

  /** Every rule of `rules` reaches, through lazy references, only names in `names`. */
  predicate Within(rules: map<string, Pattern>, names: set<string>) {
    forall n :: n in rules ==> LazyNames(rules[n], MetaScope) <= names
  }

  lemma MetaRefWithin(rules: map<string, Pattern>, name: string, names: set<string>)
    requires Within(rules, names) && (name in rules || name in names)
    ensures LazyNames(MetaRef(rules, name), MetaScope) <= names
  {
  }

  lemma WithinUpdate(rules: map<string, Pattern>, name: string, p: Pattern, names: set<string>)
    requires Within(rules, names) && LazyNames(p, MetaScope) <= names
    ensures Within(rules[name := p], names)
  {
  }

  lemma NumValClosed(prefix: string, digit: char -> bool, radix: int)
    ensures LazyNames(NumVal(prefix, digit, radix), MetaScope) == {}
  {
    var alts := NumVal(prefix, digit, radix).alts;
    var num := alts[0].p.parts[1];
    LazyNames4(Txt(prefix), num, Txt("-"), num, MetaScope);
    LazyNames2(Txt(prefix), num, MetaScope);
    LazyNames2(alts[0], alts[1], MetaScope);
  }

  lemma RepeatClosed()
    ensures LazyNames(RepeatRule(), MetaScope) == {}
  {
    var alts := RepeatRule().alts;
    var parts := alts[0].p.parts;
    LazyNames3(parts[0], parts[1], parts[2], MetaScope);
    LazyNames2(alts[0], alts[1], MetaScope);
  }

  lemma RepetitionWithin(r: map<string, Pattern>, names: set<string>)
    requires Within(r, names) && "repeat" in r && {"separator", "element"} <= names
    ensures LazyNames(RepetitionRule(r), MetaScope) <= names
  {
    MetaRefWithin(r, "repeat", names);
    MetaRefWithin(r, "separator", names);
    MetaRefWithin(r, "element", names);
    LazyNames3(MetaRef(r, "repeat"), Opt(MetaRef(r, "separator"), Undefined), MetaRef(r, "element"), MetaScope);
    var alts := RepetitionRule(r).alts;
    LazyNames2(alts[0], alts[1], MetaScope);
  }

  lemma ExclusionWithin(r: map<string, Pattern>, names: set<string>)
    requires Within(r, names) && "repetition" in r
    ensures LazyNames(ExclusionRule(r), MetaScope) <= names
  {
    MetaRefWithin(r, "repetition", names);
    LazyNames2(Padding('~'), MetaRef(r, "repetition"), MetaScope);
    LazyNames2(MetaRef(r, "repetition"), Opt(Seq([Padding('~'), MetaRef(r, "repetition")]), Undefined), MetaScope);
  }

  lemma ConcatenationWithin(r: map<string, Pattern>, names: set<string>)
    requires Within(r, names) && "exclusion" in r
    ensures LazyNames(ConcatenationRule(r), MetaScope) <= names
  {
    MetaRefWithin(r, "exclusion", names);
    var rep := Rep(MetaRef(r, "exclusion"), Some(Rgx(s => Star(s, IsJsSpace))));
    assert LazyNames(rep, MetaScope) == LazyNames(MetaRef(r, "exclusion"), MetaScope);
  }

  lemma AlternationWithin(r: map<string, Pattern>, names: set<string>)
    requires Within(r, names) && "concatenation" in r
    ensures LazyNames(AlternationRule(r), MetaScope) <= names
  {
    MetaRefWithin(r, "concatenation", names);
    var rep := Rep(MetaRef(r, "concatenation"), Some(Padding('/')));
    assert LazyNames(rep, MetaScope) == LazyNames(MetaRef(r, "concatenation"), MetaScope);
  }

  /** A group `{x}`, `(x)` or `[x]` around a reference to `alternation`. */
  lemma GroupWithin(r: map<string, Pattern>, names: set<string>, lq: char, rq: char)
    requires Within(r, names) && "alternation" in r && !IsJsSpace(lq) && !IsJsSpace(rq)
    ensures LazyNames(Group(r, lq, rq), MetaScope) <= names
  {
    MetaRefWithin(r, "alternation", names);
    LazyNames3(Padding(lq), MetaRef(r, "alternation"), Padding(rq), MetaScope);
  }

  lemma RangeWithin(r: map<string, Pattern>, names: set<string>)
    requires Within(r, names) && {"hexval", "decval", "binval"} <= r.Keys
    ensures LazyNames(RangeElement(r), MetaScope) <= names
  {
    var a, b, c := MetaRef(r, "hexval"), MetaRef(r, "decval"), MetaRef(r, "binval");
    MetaRefWithin(r, "hexval", names);
    MetaRefWithin(r, "decval", names);
    MetaRefWithin(r, "binval", names);
    LazyNames3(a, b, c, MetaScope);
    LazyNames2(Txt("%"), Any([a, b, c]), MetaScope);
    var inner := Seq([Txt("%"), Any([a, b, c])]);
    assert LazyNames(RangeElement(r), MetaScope) == LazyNames(Then(inner, Select("1")), MetaScope);
    assert LazyNames(Then(inner, Select("1")), MetaScope) == LazyNames(inner, MetaScope);
  }

  lemma QuestionWithin(r: map<string, Pattern>, names: set<string>)
    requires Within(r, names) && "element" in names
    ensures LazyNames(QuestionElement(r), MetaScope) <= names
  {
    MetaRefWithin(r, "element", names);
    LazyNames2(Txt("?"), MetaRef(r, "element"), MetaScope);
    var inner := Seq([Txt("?"), MetaRef(r, "element")]);
    assert LazyNames(QuestionElement(r), MetaScope) == LazyNames(Then(inner, Select("1")), MetaScope);
    assert LazyNames(Then(inner, Select("1")), MetaScope) == LazyNames(inner, MetaScope);
  }

  lemma QuotedClosed()
    ensures LazyNames(Then(Any([QuotedText('"', '"'), QuotedText('\'', '\''), QuotedText('<', '>')]), As("txt")), MetaScope) == {}
  {
    LazyNames3(QuotedText('"', '"'), QuotedText('\'', '\''), QuotedText('<', '>'), MetaScope);
  }

  lemma ElementHeadWithin(r: map<string, Pattern>, names: set<string>)
    requires Within(r, names) && {"hexval", "decval", "binval", "alternation"} <= r.Keys
    ensures forall i :: 0 <= i < 4 ==> LazyNames(ElementRule(r).alts[i], MetaScope) <= names
  {
    QuotedClosed();
    RangeWithin(r, names);
    GroupWithin(r, names, '(', ')');
  }

  lemma ElementTailWithin(r: map<string, Pattern>, names: set<string>)
    requires Within(r, names) && "alternation" in r && "element" in names
    ensures forall i :: 4 <= i < 7 ==> LazyNames(ElementRule(r).alts[i], MetaScope) <= names
  {
    GroupWithin(r, names, '[', ']');
    QuestionWithin(r, names);
  }

  lemma ElementWithin(r: map<string, Pattern>, names: set<string>)
    requires Within(r, names) && {"hexval", "decval", "binval", "alternation"} <= r.Keys && "element" in names
    ensures LazyNames(ElementRule(r), MetaScope) <= names
  {
    ElementHeadWithin(r, names);
    ElementTailWithin(r, names);
    LazyNamesAllWithin(ElementRule(r).alts, MetaScope, names);
  }

  /**
   * The only rules of `ABNF.pattern` referred to before they are defined are
   * `separator` and `element`; both are defined by the end, so every lazy
   * reference of the meta-grammar resolves.
   */
  lemma MetaLazyNames()
    ensures Within(MetaRules(), {"separator", "element"})
    ensures "separator" in MetaRules() && "element" in MetaRules()
  {
    var names := {"separator", "element"};
    ThroughSeparatorWithin();
    ElementWithin(ThroughSeparator(), names);
    WithinUpdate(ThroughSeparator(), "element", ElementRule(ThroughSeparator()), names);
    MetaKeys();
  }

  lemma MetaKeys()
    ensures "separator" in MetaRules() && "element" in MetaRules()
  {}

  /** The rules up to `separator` refer, lazily, only to `separator` and `element`. */
  lemma ThroughSeparatorWithin()
    ensures Within(ThroughSeparator(), {"separator", "element"})
  {
    var names := {"separator", "element"};
    ThroughConcatenationWithin();
    AlternationWithin(ThroughConcatenation(), names);
    WithinUpdate(ThroughConcatenation(), "alternation", AlternationRule(ThroughConcatenation()), names);
    GroupWithin(ThroughAlternation(), names, '{', '}');
    WithinUpdate(ThroughAlternation(), "separator", SeparatorRule(ThroughAlternation()), names);
  }

  /** The rules up to `concatenation` refer, lazily, only to `separator` and `element`. */
  lemma ThroughConcatenationWithin()
    ensures Within(ThroughConcatenation(), {"separator", "element"})
  {
    var names := {"separator", "element"};
    ThroughRepeatWithin();
    RepetitionWithin(ThroughRepeat(), names);
    WithinUpdate(ThroughRepeat(), "repetition", RepetitionRule(ThroughRepeat()), names);
    ExclusionWithin(ThroughRepetition(), names);
    WithinUpdate(ThroughRepetition(), "exclusion", ExclusionRule(ThroughRepetition()), names);
    ConcatenationWithin(ThroughExclusion(), names);
    WithinUpdate(ThroughExclusion(), "concatenation", ConcatenationRule(ThroughExclusion()), names);
  }

  /** The first four rules refer to no rule at all. */
  lemma ThroughRepeatWithin()
    ensures Within(ThroughRepeat(), {"separator", "element"})
  {
    NumValClosed("x", IsHexDigit, 16);
    NumValClosed("d", IsDecimalDigit, 10);
    NumValClosed("b", IsBinDigit, 2);
    RepeatClosed();
  }

  // ---------------------------------------------------------------------------
  // compile

  /**
   * The lazy references of a compiled rule are to names `compile` passed to `ref`
   * or to names the table already holds: once `ref` has recorded its names, the
   * table is closed again.
   */
  lemma {:induction false} CompileClosed(ast: Value, refs: map<string, Option<Pattern>>, scope: nat)
    requires Closed(refs, scope)
    ensures Compile(ast, refs, scope).Some? ==>
      LazyNames(Compile(ast, refs, scope).value, scope) <= Elems(RefNames(ast)) + refs.Keys
    decreases ast, 1
  {
    if ast.Record? && TagOf(ast.fields).Some? {
      var tag := TagOf(ast.fields).value;
      var v := ast.fields[tag];
      if tag == "seq" || tag == "any" || tag == "exc" {
        CompileListClosed(ast, refs, scope);
      } else if tag == "rep" {
        CompileRepClosed(ast, refs, scope);
      } else if tag == "opt" {
        CompileClosed(v, refs, scope);
      }
    }
  }

  /** The same for `rep` nodes, whose names are those of the element and then of the separator. */
  lemma {:induction false} CompileRepClosed(ast: Value, refs: map<string, Option<Pattern>>, scope: nat)
    requires Closed(refs, scope)
    requires ast.Record? && TagOf(ast.fields) == Some("rep")
    ensures Compile(ast, refs, scope).Some? ==>
      LazyNames(Compile(ast, refs, scope).value, scope) <= Elems(RefNames(ast)) + refs.Keys
    decreases ast, 0
  {
    var v := ast.fields["rep"];
    var c := Compile(ast, refs, scope);
    if c.Some? {
      CompileClosed(v, refs, scope);
      var p := Compile(v, refs, scope).value;
      if "sep" in ast.fields && Truthy(ast.fields["sep"]) {
        var sep := ast.fields["sep"];
        CompileClosed(sep, refs, scope);
        var x := Compile(sep, refs, scope).value;
        assert c.value == Rep(p, Some(x));
        assert RefNames(ast) == RefNames(v) + RefNames(sep);
        ElemsConcat(RefNames(v), RefNames(sep));
      } else {
        assert c.value == Rep(p, None);
        assert RefNames(ast) == RefNames(v) + [];
        ElemsConcat(RefNames(v), []);
      }
    }
  }

  /** The same for `seq`, `any` and `exc` nodes. */
  lemma {:induction false} CompileListClosed(ast: Value, refs: map<string, Option<Pattern>>, scope: nat)
    requires Closed(refs, scope)
    requires ast.Record? && TagOf(ast.fields) in {Some("seq"), Some("any"), Some("exc")}
    ensures Compile(ast, refs, scope).Some? ==>
      LazyNames(Compile(ast, refs, scope).value, scope) <= Elems(RefNames(ast)) + refs.Keys
    decreases ast, 0
  {
    var tag := TagOf(ast.fields).value;
    var v := ast.fields[tag];
    if v.List? {
      CompileAllClosed(v.items, refs, scope);
      var r := CompileAll(v.items, refs, scope);
      if tag == "exc" && r.Some? && |r.value| == 2 {
        var ps := r.value;
        assert ps == [ps[0], ps[1]];
        LazyNames2(ps[0], ps[1], scope);
      }
    }
  }

  lemma {:induction false} CompileAllClosed(asts: seq<Value>, refs: map<string, Option<Pattern>>, scope: nat)
    requires Closed(refs, scope)
    ensures CompileAll(asts, refs, scope).Some? ==>
      LazyNamesAll(CompileAll(asts, refs, scope).value, scope) <= Elems(RefNamesAll(asts)) + refs.Keys
    decreases asts
  {
    if asts != [] {
      CompileClosed(asts[0], refs, scope);
      CompileAllClosed(asts[1..], refs, scope);
      ElemsConcat(RefNames(asts[0]), RefNamesAll(asts[1..]));
    }
  }

  // ---------------------------------------------------------------------------
  // The round trip through the syntax tree

  /** The patterns `compile` builds: ABNF's combinators, with no default values and references into `scope`. */
  predicate AbnfShape(p: Pattern, scope: nat)
    decreases p
  {
    match p
    case Txt(_) => true
    case Rng(_, _) => true
    case Chr => true
    case Opt(q, d) => d == Undefined && AbnfShape(q, scope)
    case Exc(q, e) => AbnfShape(q, scope) && AbnfShape(e, scope)
    case Seq(ps) => AbnfShapeAll(ps, scope)
    case Any(ps) => AbnfShapeAll(ps, scope)
    case Rep(q, sep) => AbnfShape(q, scope) && (sep.Some? ==> AbnfShape(sep.value, scope))
    case Ref(sc, _) => sc == scope
    case _ => false
  }

  predicate AbnfShapeAll(ps: seq<Pattern>, scope: nat)
    decreases ps
  {
    ps == [] || (AbnfShape(ps[0], scope) && AbnfShapeAll(ps[1..], scope))
  }

  /** The syntax tree `ABNF.pattern` gives for a rule that denotes `p` (a repetition with the bounds `*`). */
  function AstOf(p: Pattern): Value
    decreases p
  {
    match p
    case Txt(t) => Record(map["txt" := Str(t)])
    case Rng(lo, hi) => Record(map["rng" := Record(map["min" := Num(lo), "max" := Num(hi)])])
    case Chr => Record(map["chr" := Str(".")])
    case Opt(q, _) => Record(map["opt" := AstOf(q)])
    case Exc(q, e) => Record(map["exc" := List([AstOf(q), AstOf(e)])])
    case Seq(ps) => Record(map["seq" := List(AstOfAll(ps))])
    case Any(ps) => Record(map["any" := List(AstOfAll(ps))])
    case Rep(q, sep) =>
      Record(map["rep" := AstOf(q), "sep" := (if sep.Some? then AstOf(sep.value) else Undefined),
                 "min" := Num(0), "max" := Infinity])
    case Ref(_, name) => Record(map["ref" := Str(name)])
    case _ => Undefined
  }

  function AstOfAll(ps: seq<Pattern>): seq<Value>
    decreases ps
  {
    if ps == [] then [] else [AstOf(ps[0])] + AstOfAll(ps[1..])
  }

  /** None of `names` is a rule the table defines. */
  predicate Unbound(refs: map<string, Option<Pattern>>, names: set<string>) {
    forall n :: n in names ==> !(n in refs && refs[n].Some?)
  }

  /** An `exc` node of two compiles to `exc` of the two. */
  lemma CompileExc(a: Value, b: Value, refs: map<string, Option<Pattern>>, scope: nat)
    ensures var r := Compile(Record(map["exc" := List([a, b])]), refs, scope);
      && (Compile(a, refs, scope).Some? && Compile(b, refs, scope).Some? ==>
            r == Some(Exc(Compile(a, refs, scope).value, Compile(b, refs, scope).value)))
      && RefNames(Record(map["exc" := List([a, b])])) == RefNames(a) + RefNames(b)
  {
    var xs := [a, b];
    var ast := Record(map["exc" := List(xs)]);
    assert TagOf(ast.fields) == Some("exc");
    assert ast.fields["exc"] == List(xs);
    assert RefNames(ast) == RefNamesAll(xs);
    RefNamesPair(a, b);
    CompileAllPair(a, b, refs, scope);
  }

  /** The names of a list of two trees are those of the first, then those of the second. */
  lemma RefNamesPair(a: Value, b: Value)
    ensures RefNamesAll([a, b]) == RefNames(a) + RefNames(b)
  {
    var xs := [a, b];
    assert xs[1..] == [b] && xs[1..][1..] == [];
    assert RefNamesAll(xs[1..]) == RefNames(b) + [];
    assert RefNamesAll(xs) == RefNames(a) + (RefNames(b) + []);
  }

  /** A list of two trees that both compile compiles to the list of the two patterns. */
  lemma CompileAllPair(a: Value, b: Value, refs: map<string, Option<Pattern>>, scope: nat)
    ensures Compile(a, refs, scope).Some? && Compile(b, refs, scope).Some? ==>
      CompileAll([a, b], refs, scope) == Some([Compile(a, refs, scope).value, Compile(b, refs, scope).value])
  {
    var xs := [a, b];
    assert xs[0] == a && xs[1..] == [b] && xs[1..][0] == b && xs[1..][1..] == [];
    if Compile(a, refs, scope).Some? && Compile(b, refs, scope).Some? {
      var q, e := Compile(a, refs, scope).value, Compile(b, refs, scope).value;
      assert CompileAll([], refs, scope) == Some([]);
      assert CompileAll(xs[1..], refs, scope) == Some([e] + []);
      assert [e] + [] == [e];
      Cons1(q, e);
      assert CompileAll(xs, refs, scope) == Some([q] + [e]);
    }
  }

  /**
   * `compile` inverts the meta-grammar's syntax tree: the tree of an ABNF pattern
   * compiles back to that pattern, and the names it hands to `ref` are exactly the
   * pattern's references (so long as the table defines none of them yet, which
   * makes `ref` give a lazy reference).
   */
  lemma {:induction false} CompileAstOf(p: Pattern, refs: map<string, Option<Pattern>>, scope: nat)
    requires AbnfShape(p, scope) && Unbound(refs, LazyNames(p, scope))
    ensures Compile(AstOf(p), refs, scope) == Some(p)
    ensures Elems(RefNames(AstOf(p))) == LazyNames(p, scope)
    decreases p, 2
  {
    if p.Opt? || p.Exc? || p.Rep? {
      CompileAstOfWrapper(p, refs, scope);
    } else if p.Seq? || p.Any? {
      CompileAstOfList(p, refs, scope);
    } else {
      CompileAstOfLeaf(p, refs, scope);
    }
  }

  /** The same for the leaves `txt`, `rng`, `chr` and `ref`. */
  lemma CompileAstOfLeaf(p: Pattern, refs: map<string, Option<Pattern>>, scope: nat)
    requires p.Txt? || p.Rng? || p.Chr? || p.Ref?
    requires AbnfShape(p, scope) && Unbound(refs, LazyNames(p, scope))
    ensures Compile(AstOf(p), refs, scope) == Some(p)
    ensures Elems(RefNames(AstOf(p))) == LazyNames(p, scope)
  {
    match p
    case Txt(_) =>
      assert TagOf(AstOf(p).fields) == Some("txt");
    case Rng(_, _) =>
      assert TagOf(AstOf(p).fields) == Some("rng");
    case Chr =>
      assert TagOf(AstOf(p).fields) == Some("chr");
    case Ref(_, name) =>
      assert TagOf(AstOf(p).fields) == Some("ref");
      assert name in LazyNames(p, scope);
      assert Elems([name]) == {name};
  }

  /** The same for `seq` and `any` nodes. */
  lemma {:induction false} CompileAstOfList(p: Pattern, refs: map<string, Option<Pattern>>, scope: nat)
    requires p.Seq? || p.Any?
    requires AbnfShape(p, scope) && Unbound(refs, LazyNames(p, scope))
    ensures Compile(AstOf(p), refs, scope) == Some(p)
    ensures Elems(RefNames(AstOf(p))) == LazyNames(p, scope)
    decreases p, 1
  {
    match p
    case Seq(ps) =>
      assert TagOf(AstOf(p).fields) == Some("seq");
      CompileAstOfAll(ps, refs, scope);
    case Any(ps) =>
      assert TagOf(AstOf(p).fields) == Some("any");
      CompileAstOfAll(ps, refs, scope);
  }

  /** The same for `opt`, `exc` and `rep` nodes. */
  lemma {:induction false} CompileAstOfWrapper(p: Pattern, refs: map<string, Option<Pattern>>, scope: nat)
    requires p.Opt? || p.Exc? || p.Rep?
    requires AbnfShape(p, scope) && Unbound(refs, LazyNames(p, scope))
    ensures Compile(AstOf(p), refs, scope) == Some(p)
    ensures Elems(RefNames(AstOf(p))) == LazyNames(p, scope)
    decreases p, 1
  {
    match p
    case Opt(q, _) =>
      assert TagOf(AstOf(p).fields) == Some("opt");
      CompileAstOf(q, refs, scope);
    case Exc(q, e) =>
      CompileAstOf(q, refs, scope);
      CompileAstOf(e, refs, scope);
      CompileExc(AstOf(q), AstOf(e), refs, scope);
      ElemsConcat(RefNames(AstOf(q)), RefNames(AstOf(e)));
    case Rep(_, _) =>
      CompileAstOfRep(p, refs, scope);
  }

  /** The same for `rep` nodes, with or without a separator. */
  lemma {:induction false} CompileAstOfRep(p: Pattern, refs: map<string, Option<Pattern>>, scope: nat)
    requires p.Rep?
    requires AbnfShape(p, scope) && Unbound(refs, LazyNames(p, scope))
    ensures Compile(AstOf(p), refs, scope) == Some(p)
    ensures Elems(RefNames(AstOf(p))) == LazyNames(p, scope)
    decreases p, 0
  {
    var q, sep := p.p, p.sep;
    var ast := AstOf(p);
    assert TagOf(ast.fields) == Some("rep");
    assert ast.fields["rep"] == AstOf(q);
    CompileAstOf(q, refs, scope);
    if sep.Some? {
      CompileAstOf(sep.value, refs, scope);
      assert AstOf(sep.value).Record?;
      assert ast.fields["sep"] == AstOf(sep.value) && Truthy(AstOf(sep.value));
      assert RefNames(ast) == RefNames(AstOf(q)) + RefNames(AstOf(sep.value));
      ElemsConcat(RefNames(AstOf(q)), RefNames(AstOf(sep.value)));
    } else {
      assert ast.fields["sep"] == Undefined;
      assert RefNames(ast) == RefNames(AstOf(q)) + [];
      ElemsConcat(RefNames(AstOf(q)), []);
    }
  }

  lemma {:induction false} CompileAstOfAll(ps: seq<Pattern>, refs: map<string, Option<Pattern>>, scope: nat)
    requires AbnfShapeAll(ps, scope) && Unbound(refs, LazyNamesAll(ps, scope))
    ensures CompileAll(AstOfAll(ps), refs, scope) == Some(ps)
    ensures Elems(RefNamesAll(AstOfAll(ps))) == LazyNamesAll(ps, scope)
    decreases ps
  {
    if ps != [] {
      CompileAstOf(ps[0], refs, scope);
      CompileAstOfAll(ps[1..], refs, scope);
      var asts := AstOfAll(ps);
      assert asts[0] == AstOf(ps[0]) && asts[1..] == AstOfAll(ps[1..]);
      assert [ps[0]] + ps[1..] == ps;
      ElemsConcat(RefNames(AstOf(ps[0])), RefNamesAll(AstOfAll(ps[1..])));
    }
  }

  // ---------------------------------------------------------------------------
  // parse

  /** The syntax tree `parse` gives, and its error, do not depend on the fuel once there is enough of it. */
  lemma ParseFuelMono(text: string, fuel: nat, more: nat)
    requires fuel <= more && Parse(text, fuel) != Err(NoFuel)
    ensures Parse(text, more) == Parse(text, fuel)
  {
    ExecFuelMono(MetaEnv(), MetaGrammar(), text, 0, fuel, more);
  }
}
