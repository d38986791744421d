/**
 * `ABNF.pattern` never throws: every lazy reference in it resolves, and none of its
 * transforms meets a value it fails on, so `parse` gives a syntax tree, a syntax
 * error, or (in the model only) runs out of fuel.
 */
module AbnfSafety {
  import opened Wrappers
  import opened Values
  import opened Transforms
  import opened Core
  import opened Lexical
  import opened Abnf
  import opened AbnfLaws
  import opened Failures
  import opened Safety

  /** The rules of `ABNF.pattern` referred to before they are defined; their values may be anything. */
  function Lazy(): map<string, Kind> {
    map["separator" := AnyK, "element" := AnyK]
  }

  /** `Infer` accepts every rule of `rules`. */
  ghost predicate Accepted(rules: map<string, Pattern>) {
    forall n :: n in rules ==> Infer(Lazy(), MetaScope, rules[n]).Some?
  }

  lemma AcceptedUpdate(rules: map<string, Pattern>, name: string, p: Pattern)
    requires Accepted(rules) && Infer(Lazy(), MetaScope, p).Some?
    ensures Accepted(rules[name := p])
  {
  }

  lemma MetaRefAccepted(rules: map<string, Pattern>, name: string)
    requires Accepted(rules) && (name in rules || name in Lazy())
    ensures Infer(Lazy(), MetaScope, MetaRef(rules, name)).Some?
  {
  }

  lemma Seq2(a: Pattern, b: Pattern)
    requires Infer(Lazy(), MetaScope, a).Some? && Infer(Lazy(), MetaScope, b).Some?
    ensures Infer(Lazy(), MetaScope, Seq([a, b])).Some?
  {
    InferSeqSome(Lazy(), MetaScope, [a, b]);
  }

  lemma Seq3(a: Pattern, b: Pattern, c: Pattern)
    requires Infer(Lazy(), MetaScope, a).Some? && Infer(Lazy(), MetaScope, b).Some? && Infer(Lazy(), MetaScope, c).Some?
    ensures Infer(Lazy(), MetaScope, Seq([a, b, c])).Some?
  {
    InferSeqSome(Lazy(), MetaScope, [a, b, c]);
  }

  lemma Any2(a: Pattern, b: Pattern)
    requires Infer(Lazy(), MetaScope, a).Some? && Infer(Lazy(), MetaScope, b).Some?
    ensures Infer(Lazy(), MetaScope, Any([a, b])).Some?
  {
    InferAnySome(Lazy(), MetaScope, [a, b]);
  }

  lemma Any3(a: Pattern, b: Pattern, c: Pattern)
    requires Infer(Lazy(), MetaScope, a).Some? && Infer(Lazy(), MetaScope, b).Some? && Infer(Lazy(), MetaScope, c).Some?
    ensures Infer(Lazy(), MetaScope, Any([a, b, c])).Some?
  {
    InferAnySome(Lazy(), MetaScope, [a, b, c]);
  }

  lemma NumValAccepted(prefix: string, digit: char -> bool, radix: int)
    ensures Infer(Lazy(), MetaScope, NumVal(prefix, digit, radix)).Some?
  {
    var num := Number(digit, radix);
    InferSeqSome(Lazy(), MetaScope, [Txt(prefix), num, Txt("-"), num]);
    Seq2(Txt(prefix), num);
    var alts := NumVal(prefix, digit, radix).alts;
    Any2(alts[0], alts[1]);
  }

  lemma RepeatAccepted()
    ensures Infer(Lazy(), MetaScope, RepeatRule()).Some?
  {
    var alts := RepeatRule().alts;
    var parts := alts[0].p.parts;
    Seq3(parts[0], parts[1], parts[2]);
    CustomTotal(RepeatRange, TupleK(InferSeq(Lazy(), MetaScope, parts).value));
    CustomTotal(RepeatExact, StrK);
    Any2(alts[0], alts[1]);
  }

  lemma RepetitionAccepted(r: map<string, Pattern>)
    requires Accepted(r) && "repeat" in r
    ensures Infer(Lazy(), MetaScope, RepetitionRule(r)).Some?
  {
    MetaRefAccepted(r, "repeat");
    MetaRefAccepted(r, "separator");
    MetaRefAccepted(r, "element");
    var parts := [MetaRef(r, "repeat"), Opt(MetaRef(r, "separator"), Undefined), MetaRef(r, "element")];
    Seq3(parts[0], parts[1], parts[2]);
    CustomTotal(RepetitionNode, TupleK(InferSeq(Lazy(), MetaScope, parts).value));
    var alts := RepetitionRule(r).alts;
    Any2(alts[0], alts[1]);
  }

  lemma ExclusionAccepted(r: map<string, Pattern>)
    requires Accepted(r) && "repetition" in r
    ensures Infer(Lazy(), MetaScope, ExclusionRule(r)).Some?
  {
    MetaRefAccepted(r, "repetition");
    Seq2(Padding('~'), MetaRef(r, "repetition"));
    var parts := [MetaRef(r, "repetition"), Opt(Seq([Padding('~'), MetaRef(r, "repetition")]), Undefined)];
    Seq2(parts[0], parts[1]);
    CustomTotal(ExclusionNode, TupleK(InferSeq(Lazy(), MetaScope, parts).value));
  }

  lemma ConcatenationAccepted(r: map<string, Pattern>)
    requires Accepted(r) && "exclusion" in r
    ensures Infer(Lazy(), MetaScope, ConcatenationRule(r)).Some?
  {
    MetaRefAccepted(r, "exclusion");
    assert Infer(Lazy(), MetaScope, ConcatenationRule(r).p) == Some(ListK);
    CustomTotal(ConcatenationNode, ListK);
  }

  lemma AlternationAccepted(r: map<string, Pattern>)
    requires Accepted(r) && "concatenation" in r
    ensures Infer(Lazy(), MetaScope, AlternationRule(r)).Some?
  {
    MetaRefAccepted(r, "concatenation");
    assert Infer(Lazy(), MetaScope, AlternationRule(r).p) == Some(ListK);
    CustomTotal(AlternationNode, ListK);
  }

  lemma GroupAccepted(r: map<string, Pattern>, lq: char, rq: char)
    requires Accepted(r) && "alternation" in r && !IsJsSpace(lq) && !IsJsSpace(rq)
    ensures Infer(Lazy(), MetaScope, Group(r, lq, rq)).Some?
  {
    MetaRefAccepted(r, "alternation");
    Seq3(Padding(lq), MetaRef(r, "alternation"), Padding(rq));
  }

  lemma RangeAccepted(r: map<string, Pattern>)
    requires Accepted(r) && {"hexval", "decval", "binval"} <= r.Keys
    ensures Infer(Lazy(), MetaScope, RangeElement(r)).Some?
  {
    var a, b, c := MetaRef(r, "hexval"), MetaRef(r, "decval"), MetaRef(r, "binval");
    MetaRefAccepted(r, "hexval");
    MetaRefAccepted(r, "decval");
    MetaRefAccepted(r, "binval");
    Any3(a, b, c);
    Seq2(Txt("%"), Any([a, b, c]));
  }

  lemma QuestionAccepted(r: map<string, Pattern>)
    requires Accepted(r)
    ensures Infer(Lazy(), MetaScope, QuestionElement(r)).Some?
  {
    MetaRefAccepted(r, "element");
    Seq2(Txt("?"), MetaRef(r, "element"));
  }

  /** The three quoted forms of an element, tagged `txt`. */
  lemma QuotedElementAccepted()
    ensures Infer(Lazy(), MetaScope, Then(Any([QuotedText('"', '"'), QuotedText('\'', '\''), QuotedText('<', '>')]), As("txt"))).Some?
  {
    Any3(QuotedText('"', '"'), QuotedText('\'', '\''), QuotedText('<', '>'));
  }

  lemma ElementHeadAccepted(r: map<string, Pattern>)
    requires Accepted(r) && {"hexval", "decval", "binval", "alternation"} <= r.Keys
    ensures forall i :: 0 <= i < 4 ==> Infer(Lazy(), MetaScope, ElementRule(r).alts[i]).Some?
  {
    QuotedElementAccepted();
    RangeAccepted(r);
    GroupAccepted(r, '(', ')');
  }

  lemma ElementTailAccepted(r: map<string, Pattern>)
    requires Accepted(r) && "alternation" in r
    ensures forall i :: 4 <= i < 7 ==> Infer(Lazy(), MetaScope, ElementRule(r).alts[i]).Some?
  {
    GroupAccepted(r, '[', ']');
    QuestionAccepted(r);
  }

  lemma ElementAccepted(r: map<string, Pattern>)
    requires Accepted(r) && {"hexval", "decval", "binval", "alternation"} <= r.Keys
    ensures Infer(Lazy(), MetaScope, ElementRule(r)).Some?
  {
    ElementHeadAccepted(r);
    ElementTailAccepted(r);
    InferAnySome(Lazy(), MetaScope, ElementRule(r).alts);
  }

  lemma ThroughRepeatAccepted()
    ensures Accepted(ThroughRepeat())
  {
    NumValAccepted("x", IsHexDigit, 16);
    NumValAccepted("d", IsDecimalDigit, 10);
    NumValAccepted("b", IsBinDigit, 2);
    RepeatAccepted();
  }

  lemma ThroughConcatenationAccepted()
    ensures Accepted(ThroughConcatenation())
  {
    ThroughRepeatAccepted();
    RepetitionAccepted(ThroughRepeat());
    AcceptedUpdate(ThroughRepeat(), "repetition", RepetitionRule(ThroughRepeat()));
    ExclusionAccepted(ThroughRepetition());
    AcceptedUpdate(ThroughRepetition(), "exclusion", ExclusionRule(ThroughRepetition()));
    ConcatenationAccepted(ThroughExclusion());
    AcceptedUpdate(ThroughExclusion(), "concatenation", ConcatenationRule(ThroughExclusion()));
  }

  lemma MetaRulesAccepted()
    ensures Accepted(MetaRules())
  {
    ThroughConcatenationAccepted();
    AlternationAccepted(ThroughConcatenation());
    AcceptedUpdate(ThroughConcatenation(), "alternation", AlternationRule(ThroughConcatenation()));
    GroupAccepted(ThroughAlternation(), '{', '}');
    AcceptedUpdate(ThroughAlternation(), "separator", SeparatorRule(ThroughAlternation()));
    ElementAccepted(ThroughSeparator());
    AcceptedUpdate(ThroughSeparator(), "element", ElementRule(ThroughSeparator()));
  }

  /** The rule table of `ABNF.pattern` holds both lazily referred rules, and `Infer` accepts them. */
  lemma MetaTyped()
    ensures Typed(MetaEnv(), MetaScope, Lazy())
    ensures Infer(Lazy(), MetaScope, MetaGrammar()).Some?
  {
    MetaRulesAccepted();
    MetaKeys();
  }

  /**
   * `parse` of the ABNF front-end never fails with an exception: on any text it
   * gives a syntax tree, the `Invalid ABNF rule` error, or (in the model only) no
   * answer within the fuel.
   */
  lemma ParseNeverThrows(text: string, fuel: nat)
    ensures !Exec(MetaEnv(), MetaGrammar(), text, 0, fuel).Thrown?
    ensures Parse(text, fuel).Ok? || Parse(text, fuel) == Err(SyntaxError("Invalid ABNF rule: " + text))
         || Parse(text, fuel) == Err(NoFuel)
  {
    MetaTyped();
    ExecSafe(MetaEnv(), MetaScope, Lazy(), MetaGrammar(), text, 0, fuel);
  }
}
