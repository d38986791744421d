/**
 * The ABNF front-end of abnf.js: the terminals `numval`, `quoted`, the meta-grammar
 * `ABNF.pattern` that reads a rule into a syntax tree, and `compile`, which turns the
 * tree into a pattern.
 */
module Abnf {
  import opened Wrappers
  import opened Values
  import opened Transforms
  import opened Core
  import opened Lexical
  import opened Failures

  /** The rule table of the meta-grammar `ABNF.pattern`. */
  const MetaScope: nat := 0

  // ---------------------------------------------------------------------------
  // Terminals

  /** `numval(prefix, regex, radix)`: `prefix n-m` or `prefix n`, read in `radix`, the range form tried first. */
  function NumVal(prefix: string, digit: char -> bool, radix: int): Pattern {
    var num := Number(digit, radix);
    Any([Then(Seq([Txt(prefix), num, Txt("-"), num]), MapTo(map["min" := 1, "max" := 3])),
         Then(Seq([Txt(prefix), num]), MapTo(map["min" := 1, "max" := 1]))])
  }

  /** `rgx(regex).parseInt(radix)`: a run of digits and the number it denotes. */
  function Number(digit: char -> bool, radix: int): Pattern {
    Then(Rgx(s => Plus(s, digit)), ParseInt(radix))
  }

  /** `quoted(lq, rq)`: a quoted run of printable characters, giving the text between the quotes. */
  function QuotedText(lq: char, rq: char): Pattern {
    Then(Rgx(s => Quoted(s, lq, rq)), Slice(1, Some(-1)))
  }

  // `rgx(/\s*c\s*/)`: the character c with any white space around it.
  function Padding(c: char): Pattern
    requires !IsJsSpace(c)
  {
    Rgx(s => Padded(s, c))
  }

  // ---------------------------------------------------------------------------
  // The callbacks of the meta-grammar

  /** `repeat = *digit "*" *digit`: `{min: +r[0] || 0, max: +r[2] || +Infinity}`. */
  function RepeatRange(r: Value, text: string): Option<Value> {
    Some(Record(map["min" := Or(ToNumber(Get(r, "0")), Num(0)), "max" := Or(ToNumber(Get(r, "2")), Infinity)]))
  }

  /** `repeat = 1*digit`: `{min: +r, max: +r}`. */
  function RepeatExact(r: Value, text: string): Option<Value> {
    Some(Record(map["min" := ToNumber(r), "max" := ToNumber(r)]))
  }

  /** `repetition = repeat [separator] element`: `{rep: r[2], sep: r[1], min: r[0].min, max: r[0].max}`. */
  function RepetitionNode(r: Value, text: string): Option<Value> {
    Some(Record(map["rep" := Get(r, "2"), "sep" := Get(r, "1"),
                    "min" := Get(Get(r, "0"), "min"), "max" := Get(Get(r, "0"), "max")]))
  }

  /** `exclusion = repetition ["~" repetition]`: `{exc: [lhs, rhs]}` when the `~` part is there, else the lhs. */
  function ExclusionNode(r: Value, text: string): Option<Value> {
    if Truthy(Get(r, "1")) then Some(Record(map["exc" := List([Get(r, "0"), Get(Get(r, "1"), "1")])]))
    else Some(Get(r, "0"))
  }

  /** A list of one item is that item; a longer one is tagged `tag`. */
  function Unwrap(r: Value, tag: string): Value {
    if Get(r, "length") == Num(1) then Get(r, "0") else Record(map[tag := r])
  }

  /** `concatenation = exclusion *(" " exclusion)`. */
  function ConcatenationNode(r: Value, text: string): Option<Value> {
    Some(Unwrap(r, "seq"))
  }

  /** `alternation = concatenation *("/" concatenation)`. */
  function AlternationNode(r: Value, text: string): Option<Value> {
    Some(Unwrap(r, "any"))
  }

  // ---------------------------------------------------------------------------
  // The meta-grammar

  /** `ref(name)` of `ABNF.pattern`: the rule itself once it is defined, a lazy reference before. */
  function MetaRef(rules: map<string, Pattern>, name: string): Pattern {
    if name in rules then rules[name] else Ref(MetaScope, name)
  }

  // Each rule of `ABNF.pattern`, given the rules defined before it.

  function RepeatRule(): Pattern {
    Any([Then(Seq([Rgx(s => Star(s, IsDecimalDigit)), Txt("*"), Rgx(s => Star(s, IsDecimalDigit))]), Custom(RepeatRange)),
         Then(Rgx(s => Plus(s, IsDecimalDigit)), Custom(RepeatExact))])
  }

  function RepetitionRule(r: map<string, Pattern>): Pattern {
    Any([Then(Seq([MetaRef(r, "repeat"), Opt(MetaRef(r, "separator"), Undefined), MetaRef(r, "element")]), Custom(RepetitionNode)),
         MetaRef(r, "element")])
  }

  function ExclusionRule(r: map<string, Pattern>): Pattern {
    Then(Seq([MetaRef(r, "repetition"), Opt(Seq([Padding('~'), MetaRef(r, "repetition")]), Undefined)]), Custom(ExclusionNode))
  }

  function ConcatenationRule(r: map<string, Pattern>): Pattern {
    Then(Rep(MetaRef(r, "exclusion"), Some(Rgx(s => Star(s, IsJsSpace)))), Custom(ConcatenationNode))
  }

  function AlternationRule(r: map<string, Pattern>): Pattern {
    Then(Rep(MetaRef(r, "concatenation"), Some(Padding('/'))), Custom(AlternationNode))
  }

  function SeparatorRule(r: map<string, Pattern>): Pattern {
    Group(r, '{', '}')
  }

  /** `%x..`, `%d..` or `%b..`, tagged `rng`. */
  function RangeElement(r: map<string, Pattern>): Pattern {
    Then(Then(Seq([Txt("%"), Any([MetaRef(r, "hexval"), MetaRef(r, "decval"), MetaRef(r, "binval")])]), Select("1")), As("rng"))
  }

  /** The alternation between the brackets `lq` and `rq`. */
  function Group(r: map<string, Pattern>, lq: char, rq: char): Pattern
    requires !IsJsSpace(lq) && !IsJsSpace(rq)
  {
    Then(Seq([Padding(lq), MetaRef(r, "alternation"), Padding(rq)]), Select("1"))
  }

  /** `?element`, tagged `opt`. */
  function QuestionElement(r: map<string, Pattern>): Pattern {
    Then(Then(Seq([Txt("?"), MetaRef(r, "element")]), Select("1")), As("opt"))
  }

  function ElementRule(r: map<string, Pattern>): Pattern {
    Any([Then(Any([QuotedText('"', '"'), QuotedText('\'', '\''), QuotedText('<', '>')]), As("txt")),
         Then(Rgx(RuleName), As("ref")),
         RangeElement(r),
         Group(r, '(', ')'),
         Then(Group(r, '[', ']'), As("opt")),
         QuestionElement(r),
         Then(Txt("."), As("chr"))])
  }

  // The rules of `ABNF.pattern` as they stand after each definition, in the order
  // abnf.js defines them.

  /** The rules that refer to no other: `hexval`, `decval`, `binval` and `repeat`. */
  function ThroughRepeat(): map<string, Pattern> {
    map["hexval" := NumVal("x", IsHexDigit, 16), "decval" := NumVal("d", IsDecimalDigit, 10),
        "binval" := NumVal("b", IsBinDigit, 2), "repeat" := RepeatRule()]
  }

  function ThroughRepetition(): map<string, Pattern> {
    ThroughRepeat()["repetition" := RepetitionRule(ThroughRepeat())]
  }

  function ThroughExclusion(): map<string, Pattern> {
    ThroughRepetition()["exclusion" := ExclusionRule(ThroughRepetition())]
  }

  function ThroughConcatenation(): map<string, Pattern> {
    ThroughExclusion()["concatenation" := ConcatenationRule(ThroughExclusion())]
  }

  function ThroughAlternation(): map<string, Pattern> {
    ThroughConcatenation()["alternation" := AlternationRule(ThroughConcatenation())]
  }

  function ThroughSeparator(): map<string, Pattern> {
    ThroughAlternation()["separator" := SeparatorRule(ThroughAlternation())]
  }

  /** All the rules of `ABNF.pattern`. */
  function MetaRules(): map<string, Pattern> {
    ThroughSeparator()["element" := ElementRule(ThroughSeparator())]
  }

  /** The rule tables the meta-grammar runs in. */
  function MetaEnv(): Env {
    map[MetaScope := MetaRules()]
  }

  /** `ABNF.pattern` itself, the rule `alternation`. */
  function MetaGrammar(): Pattern {
    MetaRules()["alternation"]
  }

  /**
   * `parse(abnf)`: the syntax tree the meta-grammar reads from the text. As the
   * engine's `exec` does not ask for the whole input, text after the part the
   * meta-grammar matches is not looked at.
   */
  function Parse(text: string, fuel: nat): (r: Result<Value, Failure>)
    ensures Exec(MetaEnv(), MetaGrammar(), text, 0, fuel).NoMatch? <==> r == Err(SyntaxError("Invalid ABNF rule: " + text))
    ensures Exec(MetaEnv(), MetaGrammar(), text, 0, fuel).Match? <==> r.Ok?
    ensures r.Ok? ==> r.value == Exec(MetaEnv(), MetaGrammar(), text, 0, fuel).value
    ensures r.Err? && r.error.SyntaxError? ==> r.error.message == "Invalid ABNF rule: " + text
    ensures Exec(MetaEnv(), MetaGrammar(), text, 0, fuel).Thrown? <==> r == Err(Exception)
  {
    ParseBy(MetaEnv(), MetaGrammar(), "Invalid ABNF rule: ", text, fuel)
  }

  // ---------------------------------------------------------------------------
  // compile

  /**
   * The tag of a syntax-tree node: the first of `seq`, `any`, `rep`, `opt`, `rng`,
   * `txt`, `chr`, `exc`, `ref` that it holds, the order in which `compile` tests them.
   */
  function TagOf(fields: map<string, Value>): (r: Option<string>)
    ensures r.Some? ==> r.value in fields
  {
    if "seq" in fields then Some("seq")
    else if "any" in fields then Some("any")
    else if "rep" in fields then Some("rep")
    else if "opt" in fields then Some("opt")
    else if "rng" in fields then Some("rng")
    else if "txt" in fields then Some("txt")
    else if "chr" in fields then Some("chr")
    else if "exc" in fields then Some("exc")
    else if "ref" in fields then Some("ref")
    else None
  }

  /**
   * `compile(ast)`: the node's tag decides the combinator, and its children are
   * compiled in order. A node the meta-grammar cannot produce (no tag, a child of
   * the wrong kind) gives `None`, where abnf.js would throw or go on with `undefined`.
   */
  function Compile(ast: Value, refs: map<string, Option<Pattern>>, scope: nat): Option<Pattern>
    decreases ast
  {
    if !ast.Record? then None
    else
      match TagOf(ast.fields)
      case None => None
      case Some(tag) =>
        var v := ast.fields[tag];
        if tag == "seq" || tag == "any" || tag == "exc" then
          (if !v.List? then None
           else match CompileAll(v.items, refs, scope)
             case None => None
             case Some(ps) =>
               if tag == "seq" then Some(Seq(ps))
               else if tag == "any" then Some(Any(ps))
               else if |ps| == 2 then Some(Exc(ps[0], ps[1]))
               else None)
        else if tag == "rep" then
          (match Compile(v, refs, scope)
           case None => None
           case Some(p) =>
             if "sep" in ast.fields && Truthy(ast.fields["sep"]) then
               (match Compile(ast.fields["sep"], refs, scope) case Some(x) => Some(Rep(p, Some(x))) case None => None)
             else Some(Rep(p, None)))
        else if tag == "opt" then
          (match Compile(v, refs, scope) case Some(p) => Some(Opt(p, Undefined)) case None => None)
        else if tag == "rng" then
          (if v.Record? && "min" in v.fields && "max" in v.fields && v.fields["min"].Num? && v.fields["max"].Num?
           then Some(Rng(v.fields["min"].n, v.fields["max"].n)) else None)
        else if tag == "txt" then
          (if v.Str? then Some(Txt(v.s)) else None)
        else if tag == "chr" then Some(Chr)
        else
          (if v.Str? then Some(Lookup(refs, scope, v.s)) else None)
  }

  /** `asts.map(compile)`. */
  function CompileAll(asts: seq<Value>, refs: map<string, Option<Pattern>>, scope: nat): (r: Option<seq<Pattern>>)
    ensures r.Some? ==> |r.value| == |asts|
    decreases asts
  {
    if asts == [] then Some([])
    else
      match Compile(asts[0], refs, scope)
      case None => None
      case Some(p) =>
        match CompileAll(asts[1..], refs, scope)
        case None => None
        case Some(ps) => Some([p] + ps)
  }

  /** The names `compile` passes to `ref`, in the order it does. */
  function RefNames(ast: Value): seq<string>
    decreases ast
  {
    if !ast.Record? then []
    else
      match TagOf(ast.fields)
      case None => []
      case Some(tag) =>
        var v := ast.fields[tag];
        if tag == "seq" || tag == "any" || tag == "exc" then (if v.List? then RefNamesAll(v.items) else [])
        else if tag == "rep" then
          RefNames(v) + (if "sep" in ast.fields && Truthy(ast.fields["sep"]) then RefNames(ast.fields["sep"]) else [])
        else if tag == "opt" then RefNames(v)
        else if tag == "ref" && v.Str? then [v.s]
        else []
  }

  function RefNamesAll(asts: seq<Value>): seq<string>
    decreases asts
  {
    if asts == [] then [] else RefNames(asts[0]) + RefNamesAll(asts[1..])
  }
}
