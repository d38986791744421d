/**
 * One rule read by `ABNF.pattern`, step by step: the alternation `a / b` becomes
 * the node `{any: [{ref: "a"}, {ref: "b"}]}`. Each step is a lemma about one rule of
 * the meta-grammar on any text with the shape it needs, from an element up to the
 * alternation.
 */
module AbnfExample {
  import opened Wrappers
  import opened Values
  import opened Transforms
  import opened Core
  import opened CoreLaws
  import opened Lexical
  import opened Abnf
  import opened AbnfLaws
  import opened Failures

  /** The node `{ref: name}` the meta-grammar makes of a rule name. */
  function RefNode(name: string): Value {
    Record(map["ref" := Str(name)])
  }

  /** The length of the rule name at `pos`. */
  function NameLen(s: string, pos: nat): (k: nat)
    requires pos < |s| && IsLetter(s[pos])
    ensures 0 < k && pos + k <= |s|
  {
    RuleName(s[pos..]).value
  }

  /** A position where no element and no repetition count starts: the end of the text, or a character such as `/`. */
  predicate Inert(s: string, pos: nat)
    requires pos <= |s|
  {
    pos == |s|
    || (!IsLetter(s[pos]) && !IsDecimalDigit(s[pos]) && !IsJsSpace(s[pos])
        && s[pos] != '"' && s[pos] != '\'' && s[pos] != '<' && s[pos] != '%'
        && s[pos] != '(' && s[pos] != '[' && s[pos] != '?' && s[pos] != '.' && s[pos] != '*')
  }

  /** A rule table in which `element` is the element rule of `ABNF.pattern`. */
  ghost predicate HasElement(env: Env, r: map<string, Pattern>) {
    MetaScope in env && "element" in env[MetaScope] && env[MetaScope]["element"] == ElementRule(r)
  }

  lemma MetaHasElement()
    ensures HasElement(MetaEnv(), ThroughSeparator())
  {
    MetaKeys();
  }

  /** A white-space run is empty where the text does not start with white space. */
  lemma NoSpace(s: string, p: char -> bool)
    requires s == [] || !p(s[0])
    ensures Span(s, p) == 0
  {
  }

  /** `\s*c\s*` fails where the text starts with neither white space nor `c`. */
  lemma PaddedFails(s: string, c: char)
    requires !IsJsSpace(c) && (s == [] || (!IsJsSpace(s[0]) && s[0] != c))
    ensures Padded(s, c).None?
  {
    NoSpace(s, IsJsSpace);
  }

  /** The count `*digit "*" *digit` fails on text that starts with neither a digit nor `*`. */
  lemma RangeCountFails(env: Env, s: string, pos: nat, fuel: nat)
    requires pos <= |s| && fuel >= 3
    requires pos == |s| || (!IsDecimalDigit(s[pos]) && s[pos] != '*')
    ensures Exec(env, RepeatRule().alts[0], s, pos, fuel) == NoMatch
  {
    var parts := RepeatRule().alts[0].p.parts;
    NoSpace(s[pos..], IsDecimalDigit);
    assert Exec(env, parts[0], s, pos, fuel - 2) == Match(Str(s[pos..pos]), 0);
    assert Exec(env, parts[1], s, pos, fuel - 2) == NoMatch;
    assert parts[1..][0] == parts[1];
    assert ExecSeq(env, parts[1..], s, pos, fuel - 2) == NoMatch;
    assert ExecSeq(env, parts, s, pos, fuel - 2) == NoMatch;
    SeqOf(env, parts, s, pos, fuel - 2);
    ThenFails(env, Seq(parts), Custom(RepeatRange), s, pos, fuel - 1);
  }

  /** The repetition count `*digit "*" *digit / 1*digit` fails on text that starts with neither a digit nor `*`. */
  lemma RepeatFails(env: Env, s: string, pos: nat, fuel: nat)
    requires pos <= |s| && fuel >= 4
    requires pos == |s| || (!IsDecimalDigit(s[pos]) && s[pos] != '*')
    ensures Exec(env, RepeatRule(), s, pos, fuel) == NoMatch
  {
    var alts := RepeatRule().alts;
    RangeCountFails(env, s, pos, fuel - 1);
    assert Exec(env, alts[1], s, pos, fuel - 1) == NoMatch;
    assert RepeatRule() == Any([alts[0], alts[1]]);
    AnyOfTwo(env, alts[0], alts[1], s, pos, fuel - 1);
  }

  /** None of the three quoted forms of an element matches where the text does not start with a quote. */
  lemma QuotedFails(env: Env, s: string, pos: nat, fuel: nat)
    requires pos <= |s| && fuel >= 4
    requires pos == |s| || (s[pos] != '"' && s[pos] != '\'' && s[pos] != '<')
    ensures Exec(env, Then(Any([QuotedText('"', '"'), QuotedText('\'', '\''), QuotedText('<', '>')]), As("txt")), s, pos, fuel) == NoMatch
  {
    var a, b, c := QuotedText('"', '"'), QuotedText('\'', '\''), QuotedText('<', '>');
    assert Exec(env, a, s, pos, fuel - 2) == NoMatch;
    assert Exec(env, b, s, pos, fuel - 2) == NoMatch;
    assert Exec(env, c, s, pos, fuel - 2) == NoMatch;
    AnyOfThree(env, a, b, c, s, pos, fuel - 2);
  }

  /** At a letter the rule name regular expression takes the longest name, tagged `ref`. */
  lemma RuleNameElement(env: Env, s: string, pos: nat, fuel: nat)
    requires pos < |s| && IsLetter(s[pos]) && fuel >= 2
    ensures Exec(env, Then(Rgx(RuleName), As("ref")), s, pos, fuel)
         == Match(RefNode(s[pos..pos + NameLen(s, pos)]), NameLen(s, pos))
  {
  }

  /** At a letter the rule `element` reads a rule name. */
  lemma ElementRuleName(env: Env, r: map<string, Pattern>, s: string, pos: nat, fuel: nat)
    requires pos < |s| && IsLetter(s[pos]) && fuel >= 5
    ensures Exec(env, ElementRule(r), s, pos, fuel) == Match(RefNode(s[pos..pos + NameLen(s, pos)]), NameLen(s, pos))
  {
    QuotedFails(env, s, pos, fuel - 1);
    RuleNameElement(env, s, pos, fuel - 1);
    AnyFirst(env, ElementRule(r).alts, 1, s, pos, fuel - 1);
  }

  /** At a letter an element is a rule name, read as the node `{ref: name}`. */
  lemma ElementName(env: Env, r: map<string, Pattern>, s: string, pos: nat, fuel: nat)
    requires pos < |s| && IsLetter(s[pos]) && fuel >= 7 && HasElement(env, r)
    ensures Exec(env, Ref(MetaScope, "element"), s, pos, fuel)
         == Match(RefNode(s[pos..pos + NameLen(s, pos)]), NameLen(s, pos))
  {
    ElementRuleName(env, r, s, pos, fuel - 1);
  }

  /** No rule name starts at an inert position. */
  lemma RuleNameFails(env: Env, s: string, pos: nat, fuel: nat)
    requires pos <= |s| && Inert(s, pos) && fuel >= 2
    ensures Exec(env, Then(Rgx(RuleName), As("ref")), s, pos, fuel) == NoMatch
  {
  }

  /** No `%` range starts at an inert position. */
  lemma RangeElementFails(env: Env, r: map<string, Pattern>, s: string, pos: nat, fuel: nat)
    requires pos <= |s| && Inert(s, pos) && fuel >= 4
    ensures Exec(env, RangeElement(r), s, pos, fuel) == NoMatch
  {
    var range := RangeElement(r).p.p;
    Seq2First(env, range.parts[0], range.parts[1], s, pos, fuel - 3);
    SeqOf(env, range.parts, s, pos, fuel - 3);
    ThenFails(env, range, Select("1"), s, pos, fuel - 2);
    ThenFails(env, RangeElement(r).p, As("rng"), s, pos, fuel - 1);
  }

  /** No group opened by `lq` starts where the text starts with neither white space nor `lq`. */
  lemma GroupFails(env: Env, r: map<string, Pattern>, lq: char, rq: char, s: string, pos: nat, fuel: nat)
    requires !IsJsSpace(lq) && !IsJsSpace(rq) && pos <= |s| && fuel >= 3
    requires pos == |s| || (!IsJsSpace(s[pos]) && s[pos] != lq)
    ensures Exec(env, Group(r, lq, rq), s, pos, fuel) == NoMatch
  {
    var group := Group(r, lq, rq).p;
    PaddedFails(s[pos..], lq);
    Seq3First(env, group.parts[0], group.parts[1], group.parts[2], s, pos, fuel - 2);
    SeqOf(env, group.parts, s, pos, fuel - 2);
    ThenFails(env, group, Select("1"), s, pos, fuel - 1);
  }

  /** No `?element` starts at an inert position. */
  lemma QuestionFails(env: Env, r: map<string, Pattern>, s: string, pos: nat, fuel: nat)
    requires pos <= |s| && Inert(s, pos) && fuel >= 4
    ensures Exec(env, QuestionElement(r), s, pos, fuel) == NoMatch
  {
    var question := QuestionElement(r).p.p;
    Seq2First(env, question.parts[0], question.parts[1], s, pos, fuel - 3);
    SeqOf(env, question.parts, s, pos, fuel - 3);
    ThenFails(env, question, Select("1"), s, pos, fuel - 2);
    ThenFails(env, QuestionElement(r).p, As("opt"), s, pos, fuel - 1);
  }

  /** The first four forms of an element fail at an inert position. */
  lemma ElementHeadFails(env: Env, r: map<string, Pattern>, s: string, pos: nat, fuel: nat)
    requires pos <= |s| && Inert(s, pos) && fuel >= 6
    ensures forall i :: 0 <= i < 4 ==> Exec(env, ElementRule(r).alts[i], s, pos, fuel) == NoMatch
  {
    QuotedFails(env, s, pos, fuel);
    RuleNameFails(env, s, pos, fuel);
    RangeElementFails(env, r, s, pos, fuel);
    GroupFails(env, r, '(', ')', s, pos, fuel);
  }

  /** The last three forms of an element fail at an inert position. */
  lemma ElementTailFails(env: Env, r: map<string, Pattern>, s: string, pos: nat, fuel: nat)
    requires pos <= |s| && Inert(s, pos) && fuel >= 6
    ensures forall i :: 4 <= i < 7 ==> Exec(env, ElementRule(r).alts[i], s, pos, fuel) == NoMatch
  {
    GroupFails(env, r, '[', ']', s, pos, fuel - 1);
    ThenFails(env, Group(r, '[', ']'), As("opt"), s, pos, fuel - 1);
    QuestionFails(env, r, s, pos, fuel);
    assert Exec(env, Then(Txt("."), As("chr")), s, pos, fuel) == NoMatch;
  }

  /** No element starts at an inert position. */
  lemma ElementFails(env: Env, r: map<string, Pattern>, s: string, pos: nat, fuel: nat)
    requires pos <= |s| && Inert(s, pos) && fuel >= 8 && HasElement(env, r)
    ensures Exec(env, Ref(MetaScope, "element"), s, pos, fuel) == NoMatch
  {
    ElementHeadFails(env, r, s, pos, fuel - 2);
    ElementTailFails(env, r, s, pos, fuel - 2);
    AnyFails(env, ElementRule(r).alts, s, pos, fuel - 2);
  }

  /** A table `r` as `repetition` sees it: `repeat` defined, `separator` and `element` still to come. */
  ghost predicate RepetitionTable(r: map<string, Pattern>) {
    "repeat" in r && r["repeat"] == RepeatRule() && "separator" !in r && "element" !in r
  }

  /** Where no repetition count starts, the first form of a repetition, the counted element, fails. */
  lemma CountedFails(env: Env, r: map<string, Pattern>, s: string, pos: nat, fuel: nat)
    requires pos <= |s| && fuel >= 6 && RepetitionTable(r)
    requires pos == |s| || (!IsDecimalDigit(s[pos]) && s[pos] != '*')
    ensures Exec(env, RepetitionRule(r).alts[0], s, pos, fuel) == NoMatch
  {
    var parts := RepetitionRule(r).alts[0].p.parts;
    RepeatFails(env, s, pos, fuel - 2);
    Seq3First(env, parts[0], parts[1], parts[2], s, pos, fuel - 2);
    SeqOf(env, parts, s, pos, fuel - 2);
    ThenFails(env, RepetitionRule(r).alts[0].p, Custom(RepetitionNode), s, pos, fuel - 1);
  }

  /** At a letter a repetition is the bare element, a rule name: no repetition count precedes it. */
  lemma RepetitionName(env: Env, er: map<string, Pattern>, r: map<string, Pattern>, s: string, pos: nat, fuel: nat)
    requires pos < |s| && IsLetter(s[pos]) && fuel >= 10 && HasElement(env, er) && RepetitionTable(r)
    ensures Exec(env, RepetitionRule(r), s, pos, fuel) == Match(RefNode(s[pos..pos + NameLen(s, pos)]), NameLen(s, pos))
  {
    var alts := RepetitionRule(r).alts;
    CountedFails(env, r, s, pos, fuel - 1);
    ElementName(env, er, s, pos, fuel - 1);
    AnyOfTwo(env, alts[0], alts[1], s, pos, fuel - 1);
  }

  /** No repetition starts at an inert position. */
  lemma RepetitionFails(env: Env, er: map<string, Pattern>, r: map<string, Pattern>, s: string, pos: nat, fuel: nat)
    requires pos <= |s| && Inert(s, pos) && fuel >= 10 && HasElement(env, er) && RepetitionTable(r)
    ensures Exec(env, RepetitionRule(r), s, pos, fuel) == NoMatch
  {
    var alts := RepetitionRule(r).alts;
    CountedFails(env, r, s, pos, fuel - 1);
    ElementFails(env, er, s, pos, fuel - 1);
    AnyOfTwo(env, alts[0], alts[1], s, pos, fuel - 1);
  }

  /** The tables `exclusion` is defined over, one rule at a time. */
  ghost predicate ExclusionTables(env: Env, er: map<string, Pattern>, r1: map<string, Pattern>, r2: map<string, Pattern>) {
    HasElement(env, er) && RepetitionTable(r1) && "repetition" in r2 && r2["repetition"] == RepetitionRule(r1)
  }

  /** The optional `~ repetition` tail of an exclusion is absent where no `~` follows. */
  lemma NoTilde(env: Env, q: Pattern, s: string, at: nat, fuel: nat)
    requires at <= |s| && fuel >= 3 && Padded(s[at..], '~').None?
    ensures Exec(env, Opt(Seq([Padding('~'), q]), Undefined), s, at, fuel) == Match(Undefined, 0)
  {
    Seq2First(env, Padding('~'), q, s, at, fuel - 2);
    SeqOf(env, [Padding('~'), q], s, at, fuel - 2);
  }

  /** The `seq` of an exclusion whose left-hand side matched and whose `~` tail is absent. */
  lemma ExclusionSeqOfOne(env: Env, lhs: Pattern, s: string, pos: nat, fuel: nat, node: Value, k: nat)
    requires pos + k <= |s| && fuel >= 4 && Exec(env, lhs, s, pos, fuel - 1) == Match(node, k)
    requires Padded(s[pos + k..], '~').None?
    ensures Exec(env, Seq([lhs, Opt(Seq([Padding('~'), lhs]), Undefined)]), s, pos, fuel) == Match(List([node, Undefined]), k)
  {
    var tail := Opt(Seq([Padding('~'), lhs]), Undefined);
    NoTilde(env, lhs, s, pos + k, fuel - 1);
    Seq2Run(env, lhs, tail, s, pos, pos + k, fuel - 1, node, k, Undefined, 0);
    SeqOf(env, [lhs, tail], s, pos, fuel - 1);
  }

  /** An exclusion whose left-hand side matched and whose tail is absent is its left-hand side. */
  lemma ExclusionOfOne(env: Env, lhs: Pattern, s: string, pos: nat, fuel: nat, node: Value, k: nat)
    requires pos + k <= |s| && fuel >= 5 && Exec(env, lhs, s, pos, fuel - 2) == Match(node, k)
    requires Padded(s[pos + k..], '~').None?
    ensures Exec(env, Then(Seq([lhs, Opt(Seq([Padding('~'), lhs]), Undefined)]), Custom(ExclusionNode)), s, pos, fuel)
         == Match(node, k)
  {
    ExclusionSeqOfOne(env, lhs, s, pos, fuel - 1, node, k);
    ExclusionNodeOf(node, Undefined, Undefined, s[pos..pos + k]);
    ThenYields(env, Seq([lhs, Opt(Seq([Padding('~'), lhs]), Undefined)]), Custom(ExclusionNode), s, pos, fuel - 1,
               List([node, Undefined]), k, node);
  }

  /** A rule name with no `~` after it is an exclusion that is just that name. */
  lemma ExclusionName(env: Env, er: map<string, Pattern>, r1: map<string, Pattern>, r2: map<string, Pattern>,
                      s: string, pos: nat, fuel: nat)
    requires pos < |s| && IsLetter(s[pos]) && fuel >= 12 && ExclusionTables(env, er, r1, r2)
    requires Padded(s[pos + NameLen(s, pos)..], '~').None?
    ensures Exec(env, ExclusionRule(r2), s, pos, fuel) == Match(RefNode(s[pos..pos + NameLen(s, pos)]), NameLen(s, pos))
  {
    RepetitionName(env, er, r1, s, pos, fuel - 2);
    ExclusionOfOne(env, RepetitionRule(r1), s, pos, fuel, RefNode(s[pos..pos + NameLen(s, pos)]), NameLen(s, pos));
  }

  /** No exclusion starts at an inert position. */
  lemma ExclusionFails(env: Env, er: map<string, Pattern>, r1: map<string, Pattern>, r2: map<string, Pattern>,
                       s: string, pos: nat, fuel: nat)
    requires pos <= |s| && Inert(s, pos) && fuel >= 12 && ExclusionTables(env, er, r1, r2)
    ensures Exec(env, ExclusionRule(r2), s, pos, fuel) == NoMatch
  {
    var parts := ExclusionRule(r2).p.parts;
    RepetitionFails(env, er, r1, s, pos, fuel - 2);
    Seq2First(env, parts[0], parts[1], s, pos, fuel - 2);
    SeqOf(env, parts, s, pos, fuel - 2);
    ThenFails(env, ExclusionRule(r2).p, Custom(ExclusionNode), s, pos, fuel - 1);
  }

  /** The table `concatenation` is defined over. */
  ghost predicate ConcatenationTables(env: Env, er: map<string, Pattern>, r1: map<string, Pattern>, r2: map<string, Pattern>,
                                      r3: map<string, Pattern>) {
    ExclusionTables(env, er, r1, r2) && "exclusion" in r3 && r3["exclusion"] == ExclusionRule(r2)
  }

  /** `rep` that matches once and then stops. */
  lemma RepOfOne(env: Env, q: Pattern, sep: Pattern, s: string, pos: nat, fuel: nat, v: Value, k: nat)
    requires pos + k <= |s| && k > 0 && Exec(env, q, s, pos, fuel) == Match(v, k)
    requires Exec(env, Separated(q, Some(sep)), s, pos + k, fuel) == NoMatch
    ensures Exec(env, Rep(q, Some(sep)), s, pos, fuel + 1) == Match(List([v]), k)
  {
    RepUnfold(env, q, Some(sep), s, pos, 0, k, pos + k, [], Match(v, k), NoMatch, fuel);
    assert [] + [v] == [v];
  }

  /** `rep` that matches twice and then stops. */
  lemma RepOfTwo(env: Env, q: Pattern, sep: Pattern, s: string, pos: nat, fuel: nat, v: Value, k: nat, w: Value, m: nat)
    requires pos + k + m <= |s| && k > 0 && m > 0 && Exec(env, q, s, pos, fuel) == Match(v, k)
    requires Exec(env, Separated(q, Some(sep)), s, pos + k, fuel) == Match(w, m)
    requires Exec(env, Separated(q, Some(sep)), s, pos + k + m, fuel) == NoMatch
    ensures Exec(env, Rep(q, Some(sep)), s, pos, fuel + 1) == Match(List([v, w]), k + m)
  {
    RepUnfold(env, q, Some(sep), s, pos, 0, k, pos + k, [], Match(v, k), Match(w, m), fuel);
    assert [] + [v] == [v];
    RepUnfold(env, q, Some(sep), s, pos, k, k + m, pos + k + m, [v], Match(w, m), NoMatch, fuel);
    assert [v] + [w] == [v, w];
  }

  /** `rep` over an element that matches once, then a separator that matches and an element that does not. */
  lemma RepOfSeparatedOne(env: Env, e: Pattern, sp: Pattern, s: string, pos: nat, fuel: nat, node: Value, k: nat,
                          sv: Value, w: nat)
    requires pos + k + w <= |s| && k > 0 && fuel >= 6
    requires Exec(env, e, s, pos, fuel - 2) == Match(node, k)
    requires Exec(env, sp, s, pos + k, fuel - 4) == Match(sv, w)
    requires Exec(env, e, s, pos + k + w, fuel - 4) == NoMatch
    ensures Exec(env, Rep(e, Some(sp)), s, pos, fuel - 1) == Match(List([node]), k)
  {
    SeparatedNoElement(env, e, sp, s, pos + k, fuel - 5, sv, w);
    RepOfOne(env, e, sp, s, pos, fuel - 2, node, k);
  }

  /** A concatenation of one exclusion, after which the separated step fails, unwraps to that exclusion. */
  lemma ConcatenationOfOne(env: Env, e: Pattern, sp: Pattern, s: string, pos: nat, fuel: nat, node: Value, k: nat, w: nat)
    requires pos + k + w <= |s| && k > 0 && fuel >= 6
    requires Exec(env, e, s, pos, fuel - 2) == Match(node, k)
    requires Exec(env, sp, s, pos + k, fuel - 4) == Match(Str(s[pos + k..pos + k + w]), w)
    requires Exec(env, e, s, pos + k + w, fuel - 4) == NoMatch
    ensures Exec(env, Then(Rep(e, Some(sp)), Custom(ConcatenationNode)), s, pos, fuel) == Match(node, k)
  {
    RepOfSeparatedOne(env, e, sp, s, pos, fuel, node, k, Str(s[pos + k..pos + k + w]), w);
    UnwrapOf([node], "seq");
    ThenYields(env, Rep(e, Some(sp)), Custom(ConcatenationNode), s, pos, fuel - 1, List([node]), k, node);
  }

  /** The rule `concatenation` over a table in which `exclusion` is defined. */
  lemma ConcatenationShape(r3: map<string, Pattern>, e: Pattern)
    requires "exclusion" in r3 && r3["exclusion"] == e
    ensures ConcatenationRule(r3) == Then(Rep(e, Some(ConcatenationRule(r3).p.sep.value)), Custom(ConcatenationNode))
  {}

  /** The separator `\s*` of a concatenation takes the white-space run, empty or not. */
  lemma ConcatenationSpace(env: Env, r3: map<string, Pattern>, s: string, at: nat, w: nat, fuel: nat)
    requires at <= |s| && fuel > 0 && w == Span(s[at..], IsJsSpace)
    ensures at + w <= |s| && Exec(env, ConcatenationRule(r3).p.sep.value, s, at, fuel) == Match(Str(s[at..at + w]), w)
  {}

  /**
   * An exclusion `e` that matches, followed by white space and then no exclusion, is
   * a concatenation of that one exclusion, which unwraps to the exclusion's node.
   */
  lemma ConcatenationOfExclusion(env: Env, r3: map<string, Pattern>, e: Pattern, s: string, pos: nat, fuel: nat,
                                 node: Value, k: nat, w: nat)
    requires "exclusion" in r3 && r3["exclusion"] == e
    requires pos + k <= |s| && k > 0 && fuel >= 6 && w == Span(s[pos + k..], IsJsSpace)
    requires Exec(env, e, s, pos, fuel - 2) == Match(node, k)
    requires Exec(env, e, s, pos + k + w, fuel - 4) == NoMatch
    ensures Exec(env, ConcatenationRule(r3), s, pos, fuel) == Match(node, k)
  {
    ConcatenationShape(r3, e);
    ConcatenationSpace(env, r3, s, pos + k, w, fuel - 4);
    ConcatenationOfOne(env, e, ConcatenationRule(r3).p.sep.value, s, pos, fuel, node, k, w);
  }

  /** The table `alternation` is defined over. */
  ghost predicate AlternationTables(env: Env, er: map<string, Pattern>, r1: map<string, Pattern>, r2: map<string, Pattern>,
                                    r3: map<string, Pattern>, r4: map<string, Pattern>) {
    ConcatenationTables(env, er, r1, r2, r3) && "concatenation" in r4 && r4["concatenation"] == ConcatenationRule(r3)
  }

  /** The characters of `a / b` that the steps below look at. */
  lemma ABText()
    ensures NameLen("a / b", 0) == 1 && NameLen("a / b", 4) == 1
    ensures "a / b"[0..1] == "a" && "a / b"[4..5] == "b"
    ensures "a / b"[1..] == " / b" && "a / b"[5..] == []
    ensures Span(" / b", IsJsSpace) == 1 && Span([], IsJsSpace) == 0
    ensures Padded(" / b", '~').None? && Padded([], '~').None? && Padded([], '/').None?
    ensures Padded(" / b", '/') == Some(3)
    ensures Inert("a / b", 2) && Inert("a / b", 5)
  {
    assert "a / b"[0..] == "a / b";
    assert "a / b"[4..] == "b";
    assert "a / b"[1..] == " / b";
    assert " / b"[1..] == "/ b";
    assert " / b"[2..] == " b";
    assert " b"[1..] == "b";
    assert "a / b"[1..][1..] == "/ b";
    assert Span("/ b", IsJsSpace) == 0;
    assert Span(" / b", IsJsSpace) == 1;
    assert Span(" b", IsJsSpace) == 1;
    assert Span("a / b"[1..], IsNameChar) == 0;
    assert "b"[1..] == [];
  }

  /** The names of `a / b`: `a` at 0 and `b` at 4, each with no `~` after it. */
  lemma NamesAB()
    ensures NameLen("a / b", 0) == 1 && "a / b"[0..1] == "a" && Padded("a / b"[1..], '~').None?
    ensures NameLen("a / b", 4) == 1 && "a / b"[4..5] == "b" && Padded("a / b"[5..], '~').None?
  {
    ABText();
  }

  /** Neither the `/` of `a / b` nor its end starts an element. */
  lemma InertAB()
    ensures Inert("a / b", 2) && Inert("a / b", 5)
  {
    ABText();
  }

  /** The exclusions `a / b` is made of: `a` at 0 and `b` at 4, and none at the `/` or at the end. */
  lemma ExclusionAtA(env: Env, er: map<string, Pattern>, r1: map<string, Pattern>, r2: map<string, Pattern>, fuel: nat)
    requires fuel >= 12 && ExclusionTables(env, er, r1, r2)
    ensures Exec(env, ExclusionRule(r2), "a / b", 0, fuel) == Match(RefNode("a"), 1)
  {
    NamesAB();
    ExclusionName(env, er, r1, r2, "a / b", 0, fuel);
  }

  lemma ExclusionAtB(env: Env, er: map<string, Pattern>, r1: map<string, Pattern>, r2: map<string, Pattern>, fuel: nat)
    requires fuel >= 12 && ExclusionTables(env, er, r1, r2)
    ensures Exec(env, ExclusionRule(r2), "a / b", 4, fuel) == Match(RefNode("b"), 1)
  {
    NamesAB();
    ExclusionName(env, er, r1, r2, "a / b", 4, fuel);
  }

  lemma ExclusionAtSlash(env: Env, er: map<string, Pattern>, r1: map<string, Pattern>, r2: map<string, Pattern>, fuel: nat)
    requires fuel >= 12 && ExclusionTables(env, er, r1, r2)
    ensures Exec(env, ExclusionRule(r2), "a / b", 2, fuel) == NoMatch
  {
    InertAB();
    ExclusionFails(env, er, r1, r2, "a / b", 2, fuel);
  }

  lemma ExclusionAtEnd(env: Env, er: map<string, Pattern>, r1: map<string, Pattern>, r2: map<string, Pattern>, fuel: nat)
    requires fuel >= 12 && ExclusionTables(env, er, r1, r2)
    ensures Exec(env, ExclusionRule(r2), "a / b", 5, fuel) == NoMatch
  {
    InertAB();
    ExclusionFails(env, er, r1, r2, "a / b", 5, fuel);
  }

  /** The runs of `exclusion` the concatenation at 0 makes: `a`, and none at the `/` after the white space. */
  lemma ExclusionsNearA(env: Env, er: map<string, Pattern>, r1: map<string, Pattern>, r2: map<string, Pattern>, fuel: nat)
    requires fuel >= 16 && ExclusionTables(env, er, r1, r2)
    ensures Exec(env, ExclusionRule(r2), "a / b", 0, fuel - 2) == Match(RefNode("a"), 1)
    ensures Exec(env, ExclusionRule(r2), "a / b", 2, fuel - 4) == NoMatch
  {
    ExclusionAtA(env, er, r1, r2, fuel - 2);
    ExclusionAtSlash(env, er, r1, r2, fuel - 4);
  }

  /** The runs of `exclusion` the concatenation at 4 makes: `b`, and none at the end. */
  lemma ExclusionsNearB(env: Env, er: map<string, Pattern>, r1: map<string, Pattern>, r2: map<string, Pattern>, fuel: nat)
    requires fuel >= 16 && ExclusionTables(env, er, r1, r2)
    ensures Exec(env, ExclusionRule(r2), "a / b", 4, fuel - 2) == Match(RefNode("b"), 1)
    ensures Exec(env, ExclusionRule(r2), "a / b", 5, fuel - 4) == NoMatch
  {
    ExclusionAtB(env, er, r1, r2, fuel - 2);
    ExclusionAtEnd(env, er, r1, r2, fuel - 4);
  }

  /** The white space after each name of `a / b`. */
  lemma SpacesAB()
    ensures Span("a / b"[1..], IsJsSpace) == 1 && Span("a / b"[5..], IsJsSpace) == 0
  {
    ABText();
  }

  /** `a`, then white space and the `/`, where no exclusion starts: the concatenation at 0 is `a` alone. */
  lemma ConcatenationAtA(env: Env, er: map<string, Pattern>, r1: map<string, Pattern>, r2: map<string, Pattern>,
                         r3: map<string, Pattern>, fuel: nat)
    requires fuel >= 16 && ConcatenationTables(env, er, r1, r2, r3)
    ensures Exec(env, ConcatenationRule(r3), "a / b", 0, fuel) == Match(RefNode("a"), 1)
  {
    ExclusionsNearA(env, er, r1, r2, fuel);
    SpacesAB();
    ConcatenationOfExclusion(env, r3, ExclusionRule(r2), "a / b", 0, fuel, RefNode("a"), 1, 1);
  }

  /** `b` at the end of the text: the concatenation at 4 is `b` alone. */
  lemma ConcatenationAtB(env: Env, er: map<string, Pattern>, r1: map<string, Pattern>, r2: map<string, Pattern>,
                         r3: map<string, Pattern>, fuel: nat)
    requires fuel >= 16 && ConcatenationTables(env, er, r1, r2, r3)
    ensures Exec(env, ConcatenationRule(r3), "a / b", 4, fuel) == Match(RefNode("b"), 1)
  {
    ExclusionsNearB(env, er, r1, r2, fuel);
    SpacesAB();
    ConcatenationOfExclusion(env, r3, ExclusionRule(r2), "a / b", 4, fuel, RefNode("b"), 1, 0);
  }

  /** The separated steps of an alternation of two concatenations: one to `b`, and none after it. */
  lemma AlternationSteps(env: Env, c: Pattern, sp: Pattern, s: string, fuel: nat, sv: Value, nb: Value)
    requires |s| == 5 && fuel >= 6
    requires Exec(env, sp, s, 1, fuel - 4) == Match(sv, 3) && Exec(env, sp, s, 5, fuel - 4) == NoMatch
    requires Exec(env, c, s, 4, fuel - 4) == Match(nb, 1)
    ensures Exec(env, Separated(c, Some(sp)), s, 1, fuel - 2) == Match(nb, 4)
    ensures Exec(env, Separated(c, Some(sp)), s, 5, fuel - 2) == NoMatch
  {
    SeparatedYields(env, c, sp, s, 1, fuel - 5, sv, 3, nb, 1);
    SeparatorNoMatch(env, c, sp, s, 5, fuel - 5);
  }

  /** The `rep` of an alternation of two concatenations, after which the separated step fails. */
  lemma AlternationRepOfTwo(env: Env, c: Pattern, sp: Pattern, s: string, fuel: nat, na: Value, nb: Value)
    requires |s| == 5 && fuel >= 6
    requires Exec(env, c, s, 0, fuel - 2) == Match(na, 1)
    requires Exec(env, sp, s, 1, fuel - 4) == Match(Str(s[1..4]), 3) && Exec(env, sp, s, 5, fuel - 4) == NoMatch
    requires Exec(env, c, s, 4, fuel - 4) == Match(nb, 1)
    ensures Exec(env, Rep(c, Some(sp)), s, 0, fuel - 1) == Match(List([na, nb]), 5)
  {
    AlternationSteps(env, c, sp, s, fuel, Str(s[1..4]), nb);
    RepOfTwo(env, c, sp, s, 0, fuel - 2, na, 1, nb, 4);
  }

  /** An alternation of two concatenations, after which the separated step fails. */
  lemma AlternationOfTwo(env: Env, c: Pattern, sp: Pattern, s: string, fuel: nat, na: Value, nb: Value)
    requires |s| == 5 && fuel >= 6
    requires Exec(env, c, s, 0, fuel - 2) == Match(na, 1)
    requires Exec(env, sp, s, 1, fuel - 4) == Match(Str(s[1..4]), 3) && Exec(env, sp, s, 5, fuel - 4) == NoMatch
    requires Exec(env, c, s, 4, fuel - 4) == Match(nb, 1)
    ensures Exec(env, Then(Rep(c, Some(sp)), Custom(AlternationNode)), s, 0, fuel)
         == Match(Record(map["any" := List([na, nb])]), 5)
  {
    AlternationRepOfTwo(env, c, sp, s, fuel, na, nb);
    UnwrapOf([na, nb], "any");
    ThenYields(env, Rep(c, Some(sp)), Custom(AlternationNode), s, 0, fuel - 1, List([na, nb]), 5,
               Record(map["any" := List([na, nb])]));
  }

  /** The two concatenations of `a / b`. */
  lemma ConcatenationsAB(env: Env, er: map<string, Pattern>, r1: map<string, Pattern>, r2: map<string, Pattern>,
                         r3: map<string, Pattern>, fuel: nat)
    requires fuel >= 20 && ConcatenationTables(env, er, r1, r2, r3)
    ensures Exec(env, ConcatenationRule(r3), "a / b", 0, fuel - 2) == Match(RefNode("a"), 1)
    ensures Exec(env, ConcatenationRule(r3), "a / b", 4, fuel - 4) == Match(RefNode("b"), 1)
  {
    ConcatenationAtA(env, er, r1, r2, r3, fuel - 2);
    ConcatenationAtB(env, er, r1, r2, r3, fuel - 4);
  }

  /** The `/` of `a / b` with the white space around it, and no `/` at the end. */
  lemma SlashesAB(env: Env, fuel: nat)
    requires fuel > 0
    ensures Exec(env, Padding('/'), "a / b", 1, fuel) == Match(Str("a / b"[1..4]), 3)
    ensures Exec(env, Padding('/'), "a / b", 5, fuel) == NoMatch
  {
    ABText();
  }

  /** Any rule `c` that reads `a` at 0 and `b` at 4 makes `a / b` a choice of two in the rule `alternation` over it. */
  lemma AlternationOfConcatenations(env: Env, r4: map<string, Pattern>, c: Pattern, fuel: nat)
    requires fuel >= 20 && "concatenation" in r4 && r4["concatenation"] == c
    requires Exec(env, c, "a / b", 0, fuel - 2) == Match(RefNode("a"), 1)
    requires Exec(env, c, "a / b", 4, fuel - 4) == Match(RefNode("b"), 1)
    ensures Exec(env, AlternationRule(r4), "a / b", 0, fuel)
         == Match(Record(map["any" := List([RefNode("a"), RefNode("b")])]), 5)
  {
    var rep := AlternationRule(r4).p;
    assert rep.p == c && rep.sep.value == Padding('/');
    SlashesAB(env, fuel - 4);
    AlternationOfTwo(env, c, rep.sep.value, "a / b", fuel, RefNode("a"), RefNode("b"));
  }

  /** `a / b` is an alternation of the two names. */
  lemma AlternationAB(env: Env, er: map<string, Pattern>, r1: map<string, Pattern>, r2: map<string, Pattern>,
                      r3: map<string, Pattern>, r4: map<string, Pattern>, fuel: nat)
    requires fuel >= 20 && AlternationTables(env, er, r1, r2, r3, r4)
    ensures Exec(env, AlternationRule(r4), "a / b", 0, fuel)
         == Match(Record(map["any" := List([RefNode("a"), RefNode("b")])]), 5)
  {
    ConcatenationsAB(env, er, r1, r2, r3, fuel);
    AlternationOfConcatenations(env, r4, ConcatenationRule(r3), fuel);
  }

  // The rule tables of the meta-grammar meet the hypotheses above.

  lemma GrammarIsAlternation()
    ensures MetaGrammar() == AlternationRule(ThroughConcatenation())
  {
    assert "alternation" != "element" && "alternation" != "separator";
  }

  lemma RepeatTable()
    ensures RepetitionTable(ThroughRepeat())
  {}

  lemma RepetitionEntry()
    ensures "repetition" in ThroughRepetition() && ThroughRepetition()["repetition"] == RepetitionRule(ThroughRepeat())
  {}

  lemma ExclusionEntry()
    ensures "exclusion" in ThroughExclusion() && ThroughExclusion()["exclusion"] == ExclusionRule(ThroughRepetition())
  {}

  lemma ConcatenationEntry()
    ensures "concatenation" in ThroughConcatenation()
    ensures ThroughConcatenation()["concatenation"] == ConcatenationRule(ThroughExclusion())
  {}

  /** The ABNF rule text `a / b` is the choice between the rules `a` and `b`. */
  lemma ParseAB(fuel: nat)
    requires fuel >= 20
    ensures Parse("a / b", fuel) == Ok(Record(map["any" := List([RefNode("a"), RefNode("b")])]))
  {
    MetaHasElement();
    RepeatTable();
    RepetitionEntry();
    ExclusionEntry();
    ConcatenationEntry();
    AlternationAB(MetaEnv(), ThroughSeparator(), ThroughRepeat(), ThroughRepetition(), ThroughExclusion(),
                  ThroughConcatenation(), fuel);
    GrammarIsAlternation();
  }
}
