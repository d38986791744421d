/**
 * The PEG front-end of peg.js: the quoted-string terminal `str`, the meta-grammar
 * `PEG.pattern` that reads a rule into a syntax tree, and `compile` with its helpers
 * `compile_seq`, `compile_alt`, `compile_def` and `compile_rep`. The lookahead `not`
 * is `Core.Not`.
 */
module Peg {
  import opened Wrappers
  import opened Values
  import opened Transforms
  import opened Core
  import opened Lexical
  import opened Failures

  /** The rule table of the meta-grammar `PEG.pattern`. */
  const PegScope: nat := 1

  // ---------------------------------------------------------------------------
  // str(lq, rq)

  /** A backslash followed by `c`, standing for `c`. */
  function Escaped(c: char): Pattern {
    Then(Seq([Txt("\\"), Txt([c])]), Select("1"))
  }

  /** One character of a quoted string: an escaped delimiter, or any character but `rq`. */
  function StrChar(lq: char, rq: char): Pattern {
    Any([Escaped(lq), Escaped(rq), Exc(Rgx(AnyChar), Txt([rq]))])
  }

  /** The characters between the delimiters, none or more, joined into one string. */
  function StrBody(lq: char, rq: char): Pattern {
    Then(Opt(Rep(StrChar(lq, rq), None), List([])), Merge(""))
  }

  /** `str(lq, rq)`: a string between `lq` and `rq`, giving the decoded text between them. */
  function QuotedString(lq: char, rq: char): Pattern {
    Then(Seq([Txt([lq]), StrBody(lq, rq), Txt([rq])]), Select("1"))
  }

  // The decoding `str` performs, written directly on the input.

  /** The character of a quoted string that starts at `i`, and how many input characters it takes. */
  function CharAt(s: string, i: nat, lq: char, rq: char): (r: Option<(char, nat)>)
    requires i <= |s|
    ensures r.Some? ==> 1 <= r.value.1 <= 2 && i + r.value.1 <= |s|
  {
    if i + 1 < |s| && s[i] == '\\' && s[i + 1] == lq then Some((lq, 2))
    else if i + 1 < |s| && s[i] == '\\' && s[i + 1] == rq then Some((rq, 2))
    else if i < |s| && s[i] != rq then Some((s[i], 1))
    else None
  }

  /** The longest run of quoted-string characters from `i`: the text it stands for and its length in the input. */
  function Unquote(s: string, i: nat, lq: char, rq: char): (r: (string, nat))
    requires i <= |s|
    ensures |r.0| <= r.1 && i + r.1 <= |s|
    ensures r.1 == 0 ==> r.0 == []
    decreases |s| - i
  {
    match CharAt(s, i, lq, rq)
    case None => ([], 0)
    case Some((c, k)) =>
      var rest := Unquote(s, i + k, lq, rq);
      ([c] + rest.0, k + rest.1)
  }

  /** A quoted string at `pos`: its decoded text and the length it takes, delimiters included. */
  function QuotedAt(s: string, pos: nat, lq: char, rq: char): (r: Option<(string, nat)>)
    requires pos <= |s|
    ensures r.Some? ==> 2 <= r.value.1 && pos + r.value.1 <= |s|
                        && s[pos] == lq && s[pos + r.value.1 - 1] == rq
  {
    if pos < |s| && s[pos] == lq then
      var body := Unquote(s, pos + 1, lq, rq);
      var e := pos + 1 + body.1;
      if e < |s| && s[e] == rq then Some((body.0, body.1 + 2)) else None
    else None
  }

  /** The way to write `t` between `lq` and `rq`: each delimiter behind a backslash. */
  function Escape(t: string, lq: char, rq: char): (r: string)
    ensures |t| <= |r|
  {
    if t == [] then []
    else (if t[0] == lq || t[0] == rq then ['\\', t[0]] else [t[0]]) + Escape(t[1..], lq, rq)
  }

  // ---------------------------------------------------------------------------
  // The callbacks of the meta-grammar

  /** `lbl ":" trm`: the term's node with the label set on it, `r[2].lbl = r[0]`. */
  function LabelNode(r: Value, text: string): Option<Value> {
    var node := Get(r, "2");
    if node.Record? then Some(Record(node.fields["lbl" := Get(r, "0")])) else None
  }

  /** `atm qtf`: the quantifier's node with the repeated atom set on it, `r[1].rep = r[0]`. */
  function QuantNode(r: Value, text: string): Option<Value> {
    var node := Get(r, "1");
    if node.Record? then Some(Record(node.fields["rep" := Get(r, "0")])) else None
  }

  // ---------------------------------------------------------------------------
  // The meta-grammar
  //
  // `compose` runs the rule definitions in the order alt, seq, exc, atm, txt, chr, ref,
  // trm, grp, qtf, sep, lbl, def; within a definition, `$(name)` is the rule itself
  // when it is defined earlier in that order, and a lazy reference otherwise. The
  // rules below are written with each `$(name)` resolved that way.

  function MetaRefTo(name: string): Pattern {
    Ref(PegScope, name)
  }

  /** `alt`: one or more sequences separated by a slash with white space around it, as the node `any`. */
  function AltRule(): Pattern {
    Then(Rep(MetaRefTo("seq"), Some(Rgx(s => Spaced(s, '/')))), As("any"))
  }

  /** `seq`: one or more exceptions or terms separated by white space, as the node `seq`. */
  function SeqRule(): Pattern {
    Then(Rep(Any([MetaRefTo("exc"), MetaRefTo("trm")]), Some(Rgx(s => Plus(s, IsJsSpace)))), As("seq"))
  }

  /** `exc`: two terms around a spaced tilde, as the node `exc` holding `lhs` and `rhs`. */
  function ExcRule(): Pattern {
    Then(Then(Seq([MetaRefTo("trm"), Rgx(s => Spaced(s, '~')), MetaRefTo("trm")]), MapTo(map["lhs" := 0, "rhs" := 2])), As("exc"))
  }

  /** `atm`: a literal, a group, a character class or a rule name; all four are defined later, so all are lazy. */
  function AtmRule(): Pattern {
    Any([MetaRefTo("txt"), MetaRefTo("grp"), MetaRefTo("chr"), MetaRefTo("ref")])
  }

  /** `txt`: a double- or single-quoted string, as the node `txt`. */
  function TxtRule(): Pattern {
    Then(Any([QuotedString('"', '"'), QuotedString('\'', '\'')]), As("txt"))
  }

  /** `chr`: the bracketed text, brackets included, as the node `rgx` (a regular expression's source). */
  function ChrRule(): Pattern {
    Then(Then(QuotedString('[', ']'), Text), As("rgx"))
  }

  /** `ref`: one or more letters, as the node `ref`. */
  function RefRule(): Pattern {
    Then(Rgx(s => Plus(s, IsLetter)), As("ref"))
  }

  /** `trm`: a labelled term, `&` and `!` lookahead, `?`, a quantified atom, or an atom; `atm` is defined by now. */
  function TrmRule(): Pattern {
    Any([LabelTerm(), AndTerm(), NotTerm(), OptTerm(), QuantTerm(), AtmRule()])
  }

  /** A label, a colon and a term: the term's node, labelled. */
  function LabelTerm(): Pattern {
    Then(Seq([MetaRefTo("lbl"), Txt(":"), MetaRefTo("trm")]), Custom(LabelNode))
  }

  /** An ampersand and a term: the term wrapped twice in the node `not`. */
  function AndTerm(): Pattern {
    Then(Then(Then(Seq([Txt("&"), MetaRefTo("trm")]), Select("1")), As("not")), As("not"))
  }

  /** An exclamation mark and a term: the term wrapped in the node `not`. */
  function NotTerm(): Pattern {
    Then(Then(Seq([Txt("!"), MetaRefTo("trm")]), Select("1")), As("not"))
  }

  /** An atom and a question mark: the atom wrapped in the node `opt`. */
  function OptTerm(): Pattern {
    Then(Then(Seq([AtmRule(), Txt("?")]), Select("0")), As("opt"))
  }

  /** An atom and a quantifier: the quantifier's node, holding the atom. */
  function QuantTerm(): Pattern {
    Then(Seq([AtmRule(), MetaRefTo("qtf")]), Custom(QuantNode))
  }

  /** A plus or a star, read as the least number of repetitions it asks for (1 or 0). */
  function QuantSign(): Pattern {
    Any([Then(Txt("+"), Make(Num(1))), Then(Txt("*"), Make(Num(0)))])
  }

  /** `grp`: a parenthesised definition with an optional `.key` after it, as the fields `def` and `key`. */
  function GrpRule(): Pattern {
    Then(Seq([Txt("("), MetaRefTo("def"), Txt(")"), Opt(Then(Seq([Txt("."), MetaRefTo("lbl")]), Select("1")), Undefined)]),
         MapTo(map["def" := 1, "key" := 3]))
  }

  /** `qtf`: an optional separator and a quantifier sign, as the fields `sep` and `min`. */
  function QtfRule(): Pattern {
    Then(Seq([Opt(MetaRefTo("sep"), Undefined), QuantSign()]),
         MapTo(map["sep" := 0, "min" := 1]))
  }

  /** `sep`: a definition in angle brackets. */
  function SepRule(): Pattern {
    Then(Seq([Txt("<"), MetaRefTo("def"), Txt(">")]), Select("1"))
  }

  /** `lbl`: one or more letters or digits. */
  function LblRule(): Pattern {
    Rgx(s => Plus(s, IsAlnum))
  }

  /** The names of the rules of `PEG.pattern`. */
  function MetaNames(): set<string> {
    {"alt", "seq", "exc", "atm", "txt", "chr", "ref", "trm", "grp", "qtf", "sep", "lbl", "def"}
  }

  /** The rule of `PEG.pattern` with a given name; `def` is the rule `alt` itself. */
  function MetaRule(name: string): Pattern {
    match name
    case "alt" => AltRule()
    case "seq" => SeqRule()
    case "exc" => ExcRule()
    case "atm" => AtmRule()
    case "txt" => TxtRule()
    case "chr" => ChrRule()
    case "ref" => RefRule()
    case "trm" => TrmRule()
    case "grp" => GrpRule()
    case "qtf" => QtfRule()
    case "sep" => SepRule()
    case "lbl" => LblRule()
    case _ => AltRule()
  }

  /** The rules of `PEG.pattern`. */
  function MetaRules(): map<string, Pattern> {
    map name | name in MetaNames() :: MetaRule(name)
  }

  /** The rule tables the meta-grammar runs in. */
  function MetaEnv(): Env {
    map[PegScope := MetaRules()]
  }

  /** `PEG.pattern`, the rule `def`. */
  function MetaGrammar(): Pattern {
    MetaRules()["def"]
  }

  /**
   * `parse(rule)`: the syntax tree the meta-grammar reads from the text; as with the
   * ABNF front-end, text after the part the meta-grammar matches is not looked at.
   */
  function Parse(text: string, fuel: nat): (r: Result<Value, Failure>)
    ensures Exec(MetaEnv(), MetaGrammar(), text, 0, fuel).NoMatch? <==> r == Err(SyntaxError("Invalid PEG rule: " + text))
    ensures Exec(MetaEnv(), MetaGrammar(), text, 0, fuel).Match? <==> r.Ok?
    ensures r.Ok? ==> r.value == Exec(MetaEnv(), MetaGrammar(), text, 0, fuel).value
    ensures r.Err? && r.error.SyntaxError? ==> r.error.message == "Invalid PEG rule: " + text
    ensures Exec(MetaEnv(), MetaGrammar(), text, 0, fuel).Thrown? <==> r == Err(Exception)
  {
    ParseBy(MetaEnv(), MetaGrammar(), "Invalid PEG rule: ", text, fuel)
  }

  // ---------------------------------------------------------------------------
  // compile

  /** A regular-expression compiler: the matcher `new RegExp(source)` stands for, or `None` where it throws. */
  type RegexCompiler = string -> Option<string -> Option<nat>>

  /**
   * The tag of a syntax-tree node: the first of `ref`, `txt`, `rgx`, `opt`, `not`,
   * `def`, `seq`, `any`, `sep`, `exc` that it holds, the order in which `compile` tests them.
   */
  function TagOf(fields: map<string, Value>): (r: Option<string>)
    ensures r.Some? ==> r.value in fields
  {
    if "ref" in fields then Some("ref")
    else if "txt" in fields then Some("txt")
    else if "rgx" in fields then Some("rgx")
    else if "opt" in fields then Some("opt")
    else if "not" in fields then Some("not")
    else if "def" in fields then Some("def")
    else if "seq" in fields then Some("seq")
    else if "any" in fields then Some("any")
    else if "sep" in fields then Some("sep")
    else if "exc" in fields then Some("exc")
    else None
  }

  /** The label a syntax-tree node carries, if any. */
  function LabelOf(ast: Value): Option<string> {
    if ast.Record? && "lbl" in ast.fields then Some(ToText(ast.fields["lbl"])) else None
  }

  /** The label map of `compile_seq`: each label bound to the index of the last element carrying it. */
  function Labels(asts: seq<Value>): map<string, int>
    decreases |asts|
  {
    if asts == [] then map[]
    else
      var m := Labels(asts[..|asts| - 1]);
      match LabelOf(asts[|asts| - 1])
      case None => m
      case Some(l) => m[l := |asts| - 1]
  }

  /**
   * `compile(ast)`: the node's tag decides the combinator, and its children are
   * compiled in order. A node the meta-grammar cannot produce (no tag, a child of
   * the wrong kind), or a character class `new RegExp` rejects, gives `None`, where
   * peg.js would throw or go on with `undefined`.
   */
  function Compile(ast: Value, refs: map<string, Option<Pattern>>, scope: nat, rx: RegexCompiler): Option<Pattern>
    decreases ast, 1
  {
    if !ast.Record? then None
    else
      match TagOf(ast.fields)
      case None => None
      case Some(tag) =>
        var v := ast.fields[tag];
        if tag == "ref" then (if v.Str? then Some(Lookup(refs, scope, v.s)) else None)
        else if tag == "txt" then (if v.Str? then Some(Txt(v.s)) else None)
        else if tag == "rgx" then
          (if !v.Str? then None
           else match rx(v.s) case Some(m) => Some(Rgx(m)) case None => None)
        else if tag == "opt" then
          (match Compile(v, refs, scope, rx) case Some(p) => Some(Opt(p, Undefined)) case None => None)
        else if tag == "not" then
          (match Compile(v, refs, scope, rx) case Some(p) => Some(Not(p)) case None => None)
        else if tag == "def" then CompileDef(ast, refs, scope, rx)
        else if tag == "seq" then CompileSeq(v, refs, scope, rx)
        else if tag == "any" then CompileAlt(v, refs, scope, rx)
        else if tag == "sep" then CompileRep(ast, refs, scope, rx)
        else CompileExc(v, refs, scope, rx)
  }

  /** `compile_def`: the group's pattern, selecting `key` from its result when the key is there and truthy. */
  function CompileDef(ast: Value, refs: map<string, Option<Pattern>>, scope: nat, rx: RegexCompiler): Option<Pattern>
    requires ast.Record? && "def" in ast.fields
    decreases ast, 0
  {
    match Compile(ast.fields["def"], refs, scope, rx)
    case None => None
    case Some(p) => Some(DefOf(p, if "key" in ast.fields then ast.fields["key"] else Undefined))
  }

  function DefOf(p: Pattern, key: Value): Pattern {
    if Truthy(key) then Then(p, Select(ToText(key))) else p
  }

  /**
   * `compile_seq`: the elements compiled; the sequence mapped through the label map
   * if an element is labelled, else one element unwrapped, else a `seq`.
   */
  function CompileSeq(v: Value, refs: map<string, Option<Pattern>>, scope: nat, rx: RegexCompiler): Option<Pattern>
    decreases v, 0
  {
    if !v.List? then None
    else match CompileAll(v.items, refs, scope, rx)
      case None => None
      case Some(ps) => SeqOfParts(v.items, ps)
  }

  function SeqOfParts(asts: seq<Value>, ps: seq<Pattern>): Option<Pattern> {
    var m := Labels(asts);
    if m != map[] then Some(Then(Seq(ps), MapTo(m)))
    else if |ps| > 1 then Some(Seq(ps))
    else if |ps| == 1 then Some(ps[0])
    else None
  }

  /** `compile_alt`: the alternatives compiled; one unwrapped, several as an ordered choice. */
  function CompileAlt(v: Value, refs: map<string, Option<Pattern>>, scope: nat, rx: RegexCompiler): Option<Pattern>
    decreases v, 0
  {
    if !v.List? then None
    else match CompileAll(v.items, refs, scope, rx)
      case None => None
      case Some(ps) => AltOfParts(ps)
  }

  function AltOfParts(ps: seq<Pattern>): Option<Pattern> {
    if |ps| > 1 then Some(Any(ps))
    else if |ps| == 1 then Some(ps[0])
    else None
  }

  /** `compile_rep`: the repeated atom, with the separator when the node's `sep` is truthy; `min` is passed to `rep`, which takes no such argument. */
  function CompileRep(ast: Value, refs: map<string, Option<Pattern>>, scope: nat, rx: RegexCompiler): Option<Pattern>
    requires ast.Record? && "sep" in ast.fields
    decreases ast, 0
  {
    if "rep" !in ast.fields then None
    else match Compile(ast.fields["rep"], refs, scope, rx)
      case None => None
      case Some(p) =>
        var sep := ast.fields["sep"];
        if Truthy(sep) then
          (match Compile(sep, refs, scope, rx) case Some(x) => Some(Rep(p, Some(x))) case None => None)
        else Some(Rep(p, None))
  }

  /** An exception node `{lhs, rhs}`: what `lhs` matches unless `rhs` matches there. */
  function CompileExc(v: Value, refs: map<string, Option<Pattern>>, scope: nat, rx: RegexCompiler): Option<Pattern>
    decreases v, 0
  {
    if !(v.Record? && "lhs" in v.fields && "rhs" in v.fields) then None
    else match Compile(v.fields["lhs"], refs, scope, rx)
      case None => None
      case Some(a) =>
        match Compile(v.fields["rhs"], refs, scope, rx)
        case None => None
        case Some(b) => Some(Exc(a, b))
  }

  /** `asts.map(compile)`. */
  function CompileAll(asts: seq<Value>, refs: map<string, Option<Pattern>>, scope: nat, rx: RegexCompiler): (r: Option<seq<Pattern>>)
    ensures r.Some? ==> |r.value| == |asts|
    decreases asts, 0
  {
    if asts == [] then Some([])
    else
      match Compile(asts[0], refs, scope, rx)
      case None => None
      case Some(p) =>
        match CompileAll(asts[1..], refs, scope, rx)
        case None => None
        case Some(ps) => Some([p] + ps)
  }

  /** The names `compile` passes to `ref`, in the order it does. */
  function RefNames(ast: Value): seq<string>
    decreases ast
  {
    if !ast.Record? then []
    else
      match TagOf(ast.fields)
      case None => []
      case Some(tag) =>
        var v := ast.fields[tag];
        if tag == "ref" then (if v.Str? then [v.s] else [])
        else if tag == "opt" || tag == "not" || tag == "def" then RefNames(v)
        else if tag == "seq" || tag == "any" then (if v.List? then RefNamesAll(v.items) else [])
        else if tag == "sep" then
          (if "rep" in ast.fields then RefNames(ast.fields["rep"]) else [])
          + (if Truthy(v) then RefNames(v) else [])
        else if tag == "exc" && v.Record? && "lhs" in v.fields && "rhs" in v.fields then
          RefNames(v.fields["lhs"]) + RefNames(v.fields["rhs"])
        else []
  }

  function RefNamesAll(asts: seq<Value>): seq<string>
    decreases asts
  {
    if asts == [] then [] else RefNames(asts[0]) + RefNamesAll(asts[1..])
  }

  /**
   * The `forEach` of `compile_seq` that builds the label map `m`: `m` stays absent
   * until the first labelled element, and each label is bound to the index of the
   * last element carrying it.
   */
  method LabelMap(asts: seq<Value>) returns (m: Option<map<string, int>>)
    ensures m == if Labels(asts) == map[] then None else Some(Labels(asts))
  {
    m := None;
    var i := 0;
    while i < |asts|
      invariant 0 <= i <= |asts|
      invariant m == if Labels(asts[..i]) == map[] then None else Some(Labels(asts[..i]))
    {
      assert asts[..i + 1][..i] == asts[..i];
      var l := LabelOf(asts[i]);
      assert asts[..i + 1][i] == asts[i];
      if l.Some? {
        var base := if m.Some? then m.value else map[];
        m := Some(base[l.value := i]);
        assert Labels(asts[..i + 1]) == Labels(asts[..i])[l.value := i];
        assert l.value in Labels(asts[..i + 1]);
      } else {
        assert Labels(asts[..i + 1]) == Labels(asts[..i]);
      }
      i := i + 1;
    }
    assert asts[..|asts|] == asts;
  }
}
