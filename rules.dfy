/**
 * The rule table of the ABNF and PEG constructors (abnf.js, peg.js), whose code for
 * it is the same in both: `ref`, which hands out a rule, or a lazy reference to one
 * not defined yet, and records every name it is asked for; `build`, which turns one
 * definition into a pattern; and `init`, which builds the rules in order, then the
 * grammar's own definition, and rejects a grammar that refers to a rule it never
 * defines.
 *
 * `refs` is a JavaScript object: a dictionary whose keys are visited in the order
 * they were added. Here it is the map `refs` with the list `order` of its keys.
 */
module Rules {
  import opened Wrappers
  import opened Values
  import opened Core
  import opened CoreLaws
  import opened Failures
  import Abnf
  import AbnfLaws
  import Peg
  import PegLaws

  /** The front-end that reads text definitions: ABNF, or PEG with the regular-expression compiler its character classes use. */
  datatype Syntax = AbnfSyntax | PegSyntax(rx: Peg.RegexCompiler)

  /** A grammar under construction: the number of its rule table, its syntax, and the fuel its text definitions are read with. */
  datatype Config = Config(scope: nat, syntax: Syntax, fuel: nat)

  /** A definition as `build` receives it. */
  datatype Definition =
    | RegexDef(m: string -> Option<nat>)                 // a RegExp
    | FunctionDef(f: string -> Option<(Value, nat)>)     // a matching function
    | PatternDef(p: Pattern)                             // a ready pattern
    | TextDef(text: string)                              // anything else, read as a rule of the grammar's syntax

  /** `refs` with its keys in the order they were added. */
  datatype Table = Table(refs: map<string, Option<Pattern>>, order: seq<string>)

  predicate Distinct(xs: seq<string>) {
    forall i, j :: 0 <= i < j < |xs| ==> xs[i] != xs[j]
  }

  /** `order` lists each key of `refs` once. */
  predicate WellFormed(t: Table) {
    Elems(t.order) == t.refs.Keys && Distinct(t.order)
  }

  /** The entries of `t` that are defined. */
  function Defined(t: Table): map<string, Pattern> {
    map n | n in t.refs && t.refs[n].Some? :: t.refs[n].value
  }

  // ---------------------------------------------------------------------------
  // ref

  /** What `ref(name)` leaves in the table: the name, if it is new, added as not yet defined. */
  function Note(t: Table, name: string): Table {
    if name in t.refs then t else Table(t.refs[name := None], t.order + [name])
  }

  /** The table after `ref` has been asked for each of `names` in turn. */
  function Recorded(t: Table, names: seq<string>): Table
    decreases |names|
  {
    if names == [] then t else Note(Recorded(t, names[..|names| - 1]), names[|names| - 1])
  }

  /** `refs[name] = p`: the name defined, keeping its place if it was already there. */
  function Put(t: Table, name: string, p: Pattern): Table {
    Table(t.refs[name := Some(p)], if name in t.refs then t.order else t.order + [name])
  }

  // ---------------------------------------------------------------------------
  // build

  function ParseWith(syntax: Syntax, text: string, fuel: nat): Result<Value, Failure> {
    match syntax
    case AbnfSyntax => Abnf.Parse(text, fuel)
    case PegSyntax(_) => Peg.Parse(text, fuel)
  }

  function CompileWith(syntax: Syntax, ast: Value, refs: map<string, Option<Pattern>>, scope: nat): Option<Pattern> {
    match syntax
    case AbnfSyntax => Abnf.Compile(ast, refs, scope)
    case PegSyntax(rx) => Peg.Compile(ast, refs, scope, rx)
  }

  function RefNamesWith(syntax: Syntax, ast: Value): seq<string> {
    match syntax
    case AbnfSyntax => Abnf.RefNames(ast)
    case PegSyntax(_) => Peg.RefNames(ast)
  }

  /** The names `build(d)` asks `ref` for, in order: those of the syntax tree of a text that parses, none otherwise. */
  function BuildNames(cfg: Config, d: Definition): seq<string> {
    if d.TextDef? then
      match ParseWith(cfg.syntax, d.text, cfg.fuel)
      case Ok(ast) => RefNamesWith(cfg.syntax, ast)
      case Err(_) => []
    else []
  }

  /**
   * What `build(d)` gives with the table `refs` as it stands when it starts: a
   * regular expression, a function or a pattern as the pattern it stands for; a text
   * parsed and compiled, failing as `parse` does, or with an exception where
   * `compile` throws (a character class `new RegExp` rejects).
   */
  function BuildResult(cfg: Config, refs: map<string, Option<Pattern>>, d: Definition): Result<Pattern, Failure> {
    match d
    case RegexDef(m) => Ok(Rgx(m))
    case FunctionDef(f) => Ok(Native(f))
    case PatternDef(p) => Ok(p)
    case TextDef(text) =>
      match ParseWith(cfg.syntax, text, cfg.fuel)
      case Err(e) => Err(e)
      case Ok(ast) =>
        match CompileWith(cfg.syntax, ast, refs, cfg.scope)
        case None => Err(Exception)
        case Some(p) => Ok(p)
  }

  // ---------------------------------------------------------------------------
  // init

  function Names(rules: seq<(string, Definition)>): seq<string>
    decreases |rules|
  {
    if rules == [] then [] else [rules[0].0] + Names(rules[1..])
  }

  /** The names the rules' definitions refer to, in the order `build` asks for them. */
  function Referenced(cfg: Config, rules: seq<(string, Definition)>): seq<string>
    decreases |rules|
  {
    if rules == [] then [] else BuildNames(cfg, rules[0].1) + Referenced(cfg, rules[1..])
  }

  /** The loop of `init` over the rules from the table `t`: `refs[name] = build(rules[name])` for each; the first failure ends it. */
  function Fill(cfg: Config, t: Table, rules: seq<(string, Definition)>): Result<Table, Failure>
    decreases |rules|
  {
    if rules == [] then Ok(t)
    else
      var name, d := rules[0].0, rules[0].1;
      match BuildResult(cfg, t.refs, d)
      case Err(e) => Err(e)
      case Ok(p) => Fill(cfg, Put(Recorded(t, BuildNames(cfg, d)), name, p), rules[1..])
  }

  /** The first of `names`, in order, that the table holds as not yet defined. */
  function FirstNone(refs: map<string, Option<Pattern>>, names: seq<string>): Option<string>
    decreases |names|
  {
    if names == [] then None
    else if names[0] in refs && refs[names[0]].None? then Some(names[0])
    else FirstNone(refs, names[1..])
  }

  /**
   * `init`: the rules built in order into the empty table, then the grammar's own
   * definition; a name still not defined after that is an error, the first such name
   * in the table's order being the one reported. With the result, the table it is
   * left with when it succeeds.
   */
  function InitRun(cfg: Config, rules: seq<(string, Definition)>, definition: Definition): (Result<Pattern, Failure>, Table) {
    match Fill(cfg, Table(map[], []), rules)
    case Err(e) => (Err(e), Table(map[], []))
    case Ok(t) =>
      match BuildResult(cfg, t.refs, definition)
      case Err(e) => (Err(e), t)
      case Ok(p) =>
        var last := Recorded(t, BuildNames(cfg, definition));
        match FirstNone(last.refs, last.order)
        case Some(n) => (Err(SyntaxError("Rule is not defined: " + n)), last)
        case None => (Ok(p), last)
  }

  /**
   * The table as `ABNF(definition, rules)` and `PEG(definition, rules)` build it.
   * Once `init` has succeeded, `Rules()` is the rule table the grammar's lazy
   * references are looked up in.
   */
  class Grammar {
    const cfg: Config
    var refs: map<string, Option<Pattern>>
    var order: seq<string>

    function State(): Table
      reads this
    {
      Table(refs, order)
    }

    /** The defined rules, the table lazy references into this grammar use. */
    function Rules(): map<string, Pattern>
      reads this
    {
      Defined(State())
    }

    /** `var refs = {}`. */
    constructor(scope: nat, syntax: Syntax, fuel: nat)
      ensures cfg == Config(scope, syntax, fuel)
      ensures refs == map[] && order == []
    {
      cfg := Config(scope, syntax, fuel);
      refs := map[];
      order := [];
    }

    /** `ref(name)`: the rule when it is defined, a lazy reference otherwise; the name is recorded if it is new. */
    method Ref(name: string) returns (p: Pattern)
      modifies this
      ensures p == Lookup(old(refs), cfg.scope, name)
      ensures State() == Note(old(State()), name)
    {
      if name in refs && refs[name].Some? {
        p := refs[name].value;
      } else {
        p := Pattern.Ref(cfg.scope, name);
      }
      if name !in refs {
        refs := refs[name := None];
        order := order + [name];
      }
    }

    /**
     * `build(d)`. `compile` calls `ref` once for each reference in the syntax tree, in
     * the order `RefNamesWith` lists them; the pattern each call gives is the one
     * `Lookup` gives on the table as it was before (`RecordLookup`), so the pattern is
     * the pure compilation on that table.
     */
    method Build(d: Definition) returns (r: Result<Pattern, Failure>)
      modifies this
      ensures r == BuildResult(cfg, old(refs), d)
      ensures State() == Recorded(old(State()), BuildNames(cfg, d))
    {
      match d
      case RegexDef(m) => r := Ok(Rgx(m));
      case FunctionDef(f) => r := Ok(Native(f));
      case PatternDef(p) => r := Ok(p);
      case TextDef(text) =>
        var parsed := ParseWith(cfg.syntax, text, cfg.fuel);
        if parsed.Err? {
          r := Err(parsed.error);
          return;
        }
        var names := RefNamesWith(cfg.syntax, parsed.value);
        var c := CompileWith(cfg.syntax, parsed.value, refs, cfg.scope);
        RefAll(names);
        r := if c.Some? then Ok(c.value) else Err(Exception);
    }

    /** The calls of `ref` that `compile` makes, one per name, in order. */
    method RefAll(names: seq<string>)
      modifies this
      ensures State() == Recorded(old(State()), names)
    {
      for k := 0 to |names|
        invariant State() == Recorded(old(State()), names[..k])
      {
        assert names[..k + 1][..k] == names[..k];
        var _ := Ref(names[k]);
      }
      assert names[..|names|] == names;
    }

    /** `refs[name] = p`. */
    method Define(name: string, p: Pattern)
      modifies this
      ensures State() == Put(old(State()), name, p)
    {
      if name !in refs {
        order := order + [name];
      }
      refs := refs[name := Some(p)];
    }

    /** The check of `init`: the first name, in the table's order, that is not defined. */
    method FirstUndefined() returns (n: Option<string>)
      ensures n == FirstNone(refs, order)
    {
      var i := 0;
      while i < |order|
        invariant 0 <= i <= |order|
        invariant FirstNone(refs, order) == FirstNone(refs, order[i..])
      {
        var name := order[i];
        if name in refs && refs[name].None? {
          return Some(name);
        }
        assert order[i..][1..] == order[i + 1..];
        i := i + 1;
      }
      return None;
    }

    /**
     * `init`: each rule built and defined in order, then the grammar's definition
     * built; a parse or compile failure stops it, and so does a name that is still
     * not defined.
     */
    method Init(rules: seq<(string, Definition)>, definition: Definition) returns (r: Result<Pattern, Failure>)
      requires refs == map[] && order == []
      modifies this
      ensures r == InitRun(cfg, rules, definition).0
      ensures r.Ok? ==> State() == InitRun(cfg, rules, definition).1
    {
      var i := 0;
      while i < |rules|
        invariant 0 <= i <= |rules|
        invariant Fill(cfg, Table(map[], []), rules) == Fill(cfg, State(), rules[i..])
      {
        var name, d := rules[i].0, rules[i].1;
        ghost var before := State();
        var b := Build(d);
        assert rules[i..][0] == rules[i] && rules[i..][1..] == rules[i + 1..];
        if b.Err? {
          return Err(b.error);
        }
        Define(name, b.value);
        i := i + 1;
      }
      assert rules[|rules|..] == [];
      var top := Build(definition);
      if top.Err? {
        return top;
      }
      var missing := FirstUndefined();
      if missing.Some? {
        return Err(SyntaxError("Rule is not defined: " + missing.value));
      }
      return top;
    }
  }
}
