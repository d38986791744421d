/**
 * `PEG.pattern` never throws: every lazy reference in it names one of its rules, and
 * the two callbacks that could fail, which set a field on the node of a term, are
 * only ever handed a node. So `parse` gives a syntax tree, which is always an
 * object, a syntax error, or (in the model only) runs out of fuel.
 */
module PegSafety {
  import opened Wrappers
  import opened Values
  import opened Transforms
  import opened Core
  import opened Lexical
  import opened Peg
  import opened Failures
  import opened Safety

  /** The shape of the values of each rule of `PEG.pattern`: `sep` gives any value, `lbl` a string, every other rule a node. */
  function RuleKind(name: string): Kind {
    match name
    case "sep" => AnyK
    case "lbl" => StrK
    case _ => RecordK
  }

  function Shapes(): map<string, Kind> {
    map name | name in MetaNames() :: RuleKind(name)
  }

  lemma RefKind(name: string)
    requires name in MetaNames()
    ensures Infer(Shapes(), PegScope, MetaRefTo(name)) == Some(RuleKind(name))
  {
  }

  lemma AltAccepted()
    ensures Infer(Shapes(), PegScope, AltRule()) == Some(RecordK)
  {
    RefKind("seq");
  }

  lemma SeqAccepted()
    ensures Infer(Shapes(), PegScope, SeqRule()) == Some(RecordK)
  {
    RefKind("exc");
    RefKind("trm");
    InferAnySome(Shapes(), PegScope, [MetaRefTo("exc"), MetaRefTo("trm")]);
  }

  lemma ExcAccepted()
    ensures Infer(Shapes(), PegScope, ExcRule()) == Some(RecordK)
  {
    RefKind("trm");
    InferSeqSome(Shapes(), PegScope, ExcRule().p.p.parts);
  }

  lemma AtmAccepted()
    ensures Infer(Shapes(), PegScope, AtmRule()) == Some(RecordK)
  {
    RefKind("txt");
    RefKind("grp");
    RefKind("chr");
    RefKind("ref");
    InferAnySame(Shapes(), PegScope, AtmRule().alts, RecordK);
  }

  /** An escaped delimiter. */
  lemma EscapedAccepted(c: char)
    ensures Infer(Shapes(), PegScope, Escaped(c)).Some?
  {
    InferSeqSome(Shapes(), PegScope, Escaped(c).p.parts);
  }

  /** One character of a quoted string. */
  lemma StrCharAccepted(lq: char, rq: char)
    ensures Infer(Shapes(), PegScope, StrChar(lq, rq)).Some?
  {
    EscapedAccepted(lq);
    EscapedAccepted(rq);
    InferAnySome(Shapes(), PegScope, StrChar(lq, rq).alts);
  }

  /** The characters of a quoted string, a list before they are joined. */
  lemma StrBodyAccepted(lq: char, rq: char)
    ensures Infer(Shapes(), PegScope, StrBody(lq, rq)).Some?
  {
    StrCharAccepted(lq, rq);
    var items := StrBody(lq, rq).p;
    assert Infer(Shapes(), PegScope, items.p) == Some(ListK);
    assert Infer(Shapes(), PegScope, items) == Some(ListK);
  }

  lemma QuotedAccepted(lq: char, rq: char)
    ensures Infer(Shapes(), PegScope, QuotedString(lq, rq)).Some?
  {
    StrBodyAccepted(lq, rq);
    InferSeqSome(Shapes(), PegScope, QuotedString(lq, rq).p.parts);
  }

  lemma TxtAccepted()
    ensures Infer(Shapes(), PegScope, TxtRule()) == Some(RecordK)
  {
    QuotedAccepted('"', '"');
    QuotedAccepted('\'', '\'');
    InferAnySome(Shapes(), PegScope, TxtRule().p.alts);
  }

  lemma ChrAccepted()
    ensures Infer(Shapes(), PegScope, ChrRule()) == Some(RecordK)
  {
    QuotedAccepted('[', ']');
  }

  /** `LabelNode` sets the label on a node, and a `lbl ":" trm` match hands it one. */
  lemma LabelTermAccepted()
    ensures Infer(Shapes(), PegScope, LabelTerm()) == Some(RecordK)
  {
    RefKind("lbl");
    RefKind("trm");
    InferSeq3(Shapes(), PegScope, MetaRefTo("lbl"), Txt(":"), MetaRefTo("trm"));
    var k := TupleK([StrK, StrK, RecordK]);
    forall v: Value, s: string | HasKind(v, k)
      ensures LabelNode(v, s).Some? && LabelNode(v, s).value.Record?
    {
      ListKeys(v.items);
      assert HasKind(v.items[2], k.parts[2]);
    }
    CustomRecord(LabelNode, k);
  }

  /** `QuantNode` sets the atom on the quantifier's node, and an `atm qtf` match hands it one. */
  lemma QuantTermAccepted()
    ensures Infer(Shapes(), PegScope, QuantTerm()) == Some(RecordK)
  {
    AtmAccepted();
    RefKind("qtf");
    InferSeq2(Shapes(), PegScope, AtmRule(), MetaRefTo("qtf"));
    var k := TupleK([RecordK, RecordK]);
    forall v: Value, s: string | HasKind(v, k)
      ensures QuantNode(v, s).Some? && QuantNode(v, s).value.Record?
    {
      ListKeys(v.items);
      assert HasKind(v.items[1], k.parts[1]);
    }
    CustomRecord(QuantNode, k);
  }

  lemma AndTermAccepted()
    ensures Infer(Shapes(), PegScope, AndTerm()) == Some(RecordK)
  {
    RefKind("trm");
    InferSeqSome(Shapes(), PegScope, [Txt("&"), MetaRefTo("trm")]);
  }

  lemma NotTermAccepted()
    ensures Infer(Shapes(), PegScope, NotTerm()) == Some(RecordK)
  {
    RefKind("trm");
    InferSeqSome(Shapes(), PegScope, [Txt("!"), MetaRefTo("trm")]);
  }

  lemma OptTermAccepted()
    ensures Infer(Shapes(), PegScope, OptTerm()) == Some(RecordK)
  {
    AtmAccepted();
    InferSeqSome(Shapes(), PegScope, [AtmRule(), Txt("?")]);
  }

  lemma TrmAccepted()
    ensures Infer(Shapes(), PegScope, TrmRule()) == Some(RecordK)
  {
    LabelTermAccepted();
    AndTermAccepted();
    NotTermAccepted();
    OptTermAccepted();
    QuantTermAccepted();
    AtmAccepted();
    InferAnySame(Shapes(), PegScope, TrmRule().alts, RecordK);
  }

  lemma GrpAccepted()
    ensures Infer(Shapes(), PegScope, GrpRule()) == Some(RecordK)
  {
    RefKind("def");
    RefKind("lbl");
    InferSeqSome(Shapes(), PegScope, [Txt("."), MetaRefTo("lbl")]);
    InferSeqSome(Shapes(), PegScope, GrpRule().p.parts);
  }

  /** The sign of a quantifier, `*`, `+` or `?`. */
  lemma QuantSignAccepted()
    ensures Infer(Shapes(), PegScope, QuantSign()).Some?
  {
    InferAnySome(Shapes(), PegScope, QuantSign().alts);
  }

  lemma QtfAccepted()
    ensures Infer(Shapes(), PegScope, QtfRule()) == Some(RecordK)
  {
    RefKind("sep");
    QuantSignAccepted();
    InferSeqSome(Shapes(), PegScope, QtfRule().p.parts);
  }

  lemma SepAccepted()
    ensures Infer(Shapes(), PegScope, SepRule()) == Some(AnyK)
  {
    RefKind("def");
    InferSeqSome(Shapes(), PegScope, SepRule().p.parts);
  }

  /** Each rule of `PEG.pattern` gives values of the shape `RuleKind` names. */
  lemma RuleAccepted(name: string)
    requires name in MetaNames()
    ensures Infer(Shapes(), PegScope, MetaRule(name)) == Some(RuleKind(name))
  {
    match name
    case "alt" => AltAccepted();
    case "seq" => SeqAccepted();
    case "exc" => ExcAccepted();
    case "atm" => AtmAccepted();
    case "txt" => TxtAccepted();
    case "chr" => ChrAccepted();
    case "ref" =>
    case "trm" => TrmAccepted();
    case "grp" => GrpAccepted();
    case "qtf" => QtfAccepted();
    case "sep" => SepAccepted();
    case "lbl" =>
    case _ => AltAccepted();
  }

  lemma MetaTyped()
    ensures Typed(MetaEnv(), PegScope, Shapes())
    ensures Infer(Shapes(), PegScope, MetaGrammar()) == Some(RecordK)
  {
    forall n | n in Shapes()
      ensures n in MetaRules() && Infer(Shapes(), PegScope, MetaRules()[n]) == Some(Shapes()[n])
    {
      RuleAccepted(n);
    }
    RuleAccepted("def");
  }

  /**
   * `parse` of the PEG front-end never fails with an exception: on any text it gives
   * a syntax tree, and that tree is an object, or the `Invalid PEG rule` error, or
   * (in the model only) no answer within the fuel.
   */
  lemma ParseNeverThrows(text: string, fuel: nat)
    ensures !Exec(MetaEnv(), MetaGrammar(), text, 0, fuel).Thrown?
    ensures Parse(text, fuel).Ok? || Parse(text, fuel) == Err(SyntaxError("Invalid PEG rule: " + text))
         || Parse(text, fuel) == Err(NoFuel)
    ensures Parse(text, fuel).Ok? ==> Parse(text, fuel).value.Record?
  {
    MetaTyped();
    ExecSafe(MetaEnv(), PegScope, Shapes(), MetaGrammar(), text, 0, fuel);
  }
}
