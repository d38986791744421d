/**
 * The pattern engine of core.js: terminal patterns, the combinators built on
 * them, and the `exec` of each.
 *
 * core.js runs every sub-pattern on `str.slice(n)`, the part of the input left
 * after what has been consumed. Here a pattern runs on the whole input `s` from
 * offset `pos`, and the length it consumes is counted from `pos`. Every terminal
 * and combinator reads only `s[pos..]`, as on the slice; the one difference is
 * `then`, whose transform here receives the consumed text `s[pos..pos + len]`
 * where core.js:20 passes the whole rest (`ThenAsWritten` is the code as
 * written; README's findings say why). The custom patterns defined in
 * abnf.js (`rng`, `chr`) and peg.js (`not`) are part of the same datatype.
 *
 * Rule references make patterns recursive, so `Exec` carries fuel: every nested
 * `exec` call costs one unit, and running out is reported as `OutOfFuel`, which
 * the source has no counterpart for (see `CoreLaws.ExecFuelMono`).
 */
module Core {
  import opened Wrappers
  import opened Values
  import opened Transforms
  import opened Failures

  datatype Pattern =
    | Txt(text: string)                            // txt(text)
    | Rgx(m: string -> Option<nat>)                // rgx(regexp): the length it matches at the start, if any
    | Native(f: string -> Option<(Value, nat)>)    // a raw matching function given as a rule definition
    | Opt(p: Pattern, default: Value)              // opt(pattern, defval)
    | Exc(p: Pattern, except: Pattern)             // exc(pattern, except)
    | Any(alts: seq<Pattern>)                      // any(p1, ..., pn)
    | Seq(parts: seq<Pattern>)                     // seq(p1, ..., pn)
    | Rep(p: Pattern, sep: Option<Pattern>)        // rep(pattern, separator)
    | Then(p: Pattern, t: Transform)               // pattern.then(transform)
    | Ref(scope: nat, name: string)                // a lazy reference to rule `name` of rule table `scope`
    | Rng(lo: int, hi: int)                        // rng(min, max) of abnf.js
    | Chr                                          // chr() of abnf.js
    | Not(p: Pattern)                              // not(pattern) of peg.js

  /** The rule tables lazy references are looked up in, one per grammar. */
  type Env = map<nat, map<string, Pattern>>

  /**
   * What one `exec` call gives: a value and the length consumed; a non-match
   * (a falsy result); an exception (a transform that throws, or a reference to a
   * rule that was never defined); or no answer within the fuel.
   */
  datatype Res = Match(value: Value, len: nat) | NoMatch | Thrown | OutOfFuel

  /** The pattern `rep` runs after its first element: the separator, if any, then the element, keeping the element. */
  function Separated(p: Pattern, sep: Option<Pattern>): Pattern {
    match sep
    case None => p
    case Some(x) => Then(Seq([x, p]), Select("1"))
  }

  /** `p.exec(s.slice(pos))`. */
  function Exec(env: Env, p: Pattern, s: string, pos: nat, fuel: nat): (r: Res)
    requires pos <= |s|
    ensures r.Match? ==> pos + r.len <= |s|
    decreases fuel, 0, 0
  {
    if fuel == 0 then OutOfFuel
    else match p
      case Txt(t) => if t <= s[pos..] then Match(Str(t), |t|) else NoMatch
      case Rgx(m) =>
        (match m(s[pos..])
         case Some(k) => if pos + k <= |s| then Match(Str(s[pos..pos + k]), k) else NoMatch
         case None => NoMatch)
      case Native(f) =>
        (match f(s[pos..])
         case Some(vk) => if pos + vk.1 <= |s| then Match(vk.0, vk.1) else NoMatch
         case None => NoMatch)
      case Opt(q, d) =>
        var r := Exec(env, q, s, pos, fuel - 1);
        if r.NoMatch? then Match(d, 0) else r
      case Exc(q, e) =>
        var x := Exec(env, e, s, pos, fuel - 1);
        if x.Match? then NoMatch
        else if x.NoMatch? then Exec(env, q, s, pos, fuel - 1)
        else x
      case Any(ps) => ExecAny(env, ps, s, pos, fuel - 1)
      case Seq(ps) => ExecSeq(env, ps, s, pos, fuel - 1)
      case Rep(q, sep) => ExecRep(env, q, sep, s, pos, 0, [], Exec(env, q, s, pos, fuel - 1), fuel - 1)
      case Then(q, t) =>
        var r := Exec(env, q, s, pos, fuel - 1);
        if r.Match? then
          (match Apply(t, r.value, s[pos..pos + r.len])
           case Some(v) => Match(v, r.len)
           case None => Thrown)
        else r
      case Ref(scope, name) =>
        if scope in env && name in env[scope] then Exec(env, env[scope][name], s, pos, fuel - 1) else Thrown
      case Rng(lo, hi) => if pos < |s| && lo <= s[pos] as int <= hi then Match(Str([s[pos]]), 1) else NoMatch
      case Chr => if pos < |s| then Match(Str([s[pos]]), 1) else NoMatch
      case Not(q) =>
        var r := Exec(env, q, s, pos, fuel - 1);
        if r.Match? then NoMatch else if r.NoMatch? then Match(Undefined, 0) else r
  }

  /**
   * What `ref(name)` (abnf.js, peg.js) hands out from the rule table `refs` of the
   * grammar `scope`: the rule's pattern when it is already defined, otherwise a lazy
   * reference that looks the rule up when it runs.
   */
  function Lookup(refs: map<string, Option<Pattern>>, scope: nat, name: string): Pattern {
    if name in refs && refs[name].Some? then refs[name].value else Ref(scope, name)
  }

  /** The names of the rules of grammar `scope` that `p` reaches through lazy references of its own. */
  function LazyNames(p: Pattern, scope: nat): set<string>
    decreases p
  {
    match p
    case Opt(q, _) => LazyNames(q, scope)
    case Exc(q, e) => LazyNames(q, scope) + LazyNames(e, scope)
    case Any(ps) => LazyNamesAll(ps, scope)
    case Seq(ps) => LazyNamesAll(ps, scope)
    case Rep(q, sep) => LazyNames(q, scope) + (if sep.Some? then LazyNames(sep.value, scope) else {})
    case Then(q, _) => LazyNames(q, scope)
    case Ref(sc, name) => if sc == scope then {name} else {}
    case Not(q) => LazyNames(q, scope)
    case _ => {}
  }

  function LazyNamesAll(ps: seq<Pattern>, scope: nat): set<string>
    decreases ps
  {
    if ps == [] then {} else LazyNames(ps[0], scope) + LazyNamesAll(ps[1..], scope)
  }

  /** The names listed in `names`. */
  function Elems(names: seq<string>): set<string> {
    set n | n in names
  }

  /**
   * `then` as core.js:16-22 writes it: the transform receives `str`, the whole input the
   * pattern ran on, where `Exec` passes only the consumed text.
   */
  function ThenAsWritten(env: Env, q: Pattern, t: Transform, s: string, pos: nat, fuel: nat): (r: Res)
    requires pos <= |s|
    ensures !Exec(env, q, s, pos, fuel).Match? ==> r == Exec(env, Then(q, t), s, pos, fuel + 1)
    ensures r.Match? ==> Exec(env, q, s, pos, fuel).Match? && r.len == Exec(env, q, s, pos, fuel).len
    ensures Exec(env, q, s, pos, fuel).Match? && pos + Exec(env, q, s, pos, fuel).len == |s| ==>
      r == Exec(env, Then(q, t), s, pos, fuel + 1)
  {
    var r := Exec(env, q, s, pos, fuel);
    assert r.Match? && pos + r.len == |s| ==> s[pos..] == s[pos..pos + r.len];
    if r.Match? then
      (match Apply(t, r.value, s[pos..])
       case Some(v) => Match(v, r.len)
       case None => Thrown)
    else r
  }

  /** Ordered choice: the first alternative that does not fail decides. */
  function ExecAny(env: Env, ps: seq<Pattern>, s: string, pos: nat, fuel: nat): (r: Res)
    requires pos <= |s|
    ensures r.Match? ==> pos + r.len <= |s|
    decreases fuel, 1, |ps|
  {
    if ps == [] then NoMatch
    else
      var r := Exec(env, ps[0], s, pos, fuel);
      if r.NoMatch? then ExecAny(env, ps[1..], s, pos, fuel) else r
  }

  /** Sequence: each part runs where the previous one stopped; the values are collected in order. */
  function ExecSeq(env: Env, ps: seq<Pattern>, s: string, pos: nat, fuel: nat): (r: Res)
    requires pos <= |s|
    ensures r.Match? ==> pos + r.len <= |s| && r.value.List? && |r.value.items| == |ps|
    decreases fuel, 1, |ps|
  {
    if ps == [] then Match(List([]), 0)
    else
      var r := Exec(env, ps[0], s, pos, fuel);
      if !r.Match? then r
      else
        var rest := ExecSeq(env, ps[1..], s, pos + r.len, fuel);
        if rest.Match? then Match(List([r.value] + rest.value.items), r.len + rest.len) else rest
  }

  /**
   * The loop of `rep` from the state `a = acc`, offset `n`, last result `r`: while the
   * last step matched and consumed something, keep its value and run the separated
   * pattern after it.
   */
  function ExecRep(env: Env, q: Pattern, sep: Option<Pattern>, s: string, pos: nat, n: nat,
                   acc: seq<Value>, r: Res, fuel: nat): (res: Res)
    requires pos + n <= |s|
    requires r.Match? ==> pos + n + r.len <= |s|
    ensures res.Match? ==> pos + res.len <= |s|
    decreases fuel, 1, |s| - (pos + n)
  {
    if r.Match? && r.len > 0 then
      var n' := n + r.len;
      ExecRep(env, q, sep, s, pos, n', acc + [r.value], Exec(env, Separated(q, sep), s, pos + n', fuel), fuel)
    else if r.Thrown? || r.OutOfFuel? then r
    else if |acc| > 0 then Match(List(acc), n)
    else NoMatch
  }

  /** The result of a sequence whose first parts matched with values `a` over `n` characters. */
  function Prepend(a: seq<Value>, n: nat, r: Res): Res {
    if r.Match? && r.value.List? then Match(List(a + r.value.items), n + r.len) else r
  }

  /** The loop of `any` (core.js): try each alternative until one gives a result. */
  method RunAny(env: Env, ps: seq<Pattern>, s: string, pos: nat, fuel: nat) returns (r: Res)
    requires pos <= |s|
    ensures r == Exec(env, Any(ps), s, pos, fuel + 1)
  {
    r := NoMatch;
    var i := 0;
    while i < |ps| && r.NoMatch?
      invariant 0 <= i <= |ps|
      invariant ExecAny(env, ps, s, pos, fuel) == if r.NoMatch? then ExecAny(env, ps[i..], s, pos, fuel) else r
    {
      assert ps[i..][1..] == ps[i + 1..];
      r := Exec(env, ps[i], s, pos, fuel);
      i := i + 1;
    }
  }

  /** The loop of `seq` (core.js): run each part on what is left, collect the values, add up the lengths. */
  method RunSeq(env: Env, ps: seq<Pattern>, s: string, pos: nat, fuel: nat) returns (r: Res)
    requires pos <= |s|
    ensures r == Exec(env, Seq(ps), s, pos, fuel + 1)
  {
    ghost var whole := ExecSeq(env, ps, s, pos, fuel);
    assert Exec(env, Seq(ps), s, pos, fuel + 1) == whole;
    assert ps[0..] == ps;
    var a: seq<Value> := [];
    var n: nat := 0;
    var at: nat := pos;
    var i := 0;
    while i < |ps|
      invariant 0 <= i <= |ps| && at <= |s|
      invariant whole == Prepend(a, n, ExecSeq(env, ps[i..], s, at, fuel))
    {
      var x := Exec(env, ps[i], s, at, fuel);
      if !x.Match? {
        SeqStepFails(env, ps, s, at, fuel, i, a, n, x);
        return x;
      }
      var next := at + x.len;
      SeqStep(env, ps, s, at, next, fuel, i, a, n, x);
      a := a + [x.value];
      n := n + x.len;
      at := next;
      i := i + 1;
    }
    SeqDone(env, ps, s, at, fuel, i, a, n);
    return Match(List(a), n);
  }

  /** One iteration of the loop of `seq`: a part that matches at `at` moves its value and length into the prefix. */
  lemma SeqStep(env: Env, ps: seq<Pattern>, s: string, at: nat, next: nat, fuel: nat, i: nat, a: seq<Value>, n: nat, x: Res)
    requires i < |ps| && at <= |s| && x == Exec(env, ps[i], s, at, fuel) && x.Match? && next == at + x.len
    ensures next <= |s|
    ensures Prepend(a, n, ExecSeq(env, ps[i..], s, at, fuel))
         == Prepend(a + [x.value], n + x.len, ExecSeq(env, ps[i + 1..], s, next, fuel))
  {
    assert ps[i..][0] == ps[i] && ps[i..][1..] == ps[i + 1..];
    var rest := ExecSeq(env, ps[i + 1..], s, next, fuel);
    if rest.Match? {
      assert a + ([x.value] + rest.value.items) == (a + [x.value]) + rest.value.items;
    }
  }

  /** The loop of `seq` stops at the first part that does not match, with that part's result. */
  lemma SeqStepFails(env: Env, ps: seq<Pattern>, s: string, at: nat, fuel: nat, i: nat, a: seq<Value>, n: nat, x: Res)
    requires i < |ps| && at <= |s| && x == Exec(env, ps[i], s, at, fuel) && !x.Match?
    ensures Prepend(a, n, ExecSeq(env, ps[i..], s, at, fuel)) == x
  {
    assert ps[i..][0] == ps[i];
  }

  /** With no part left, the loop of `seq` gives the collected values and the total length. */
  lemma SeqDone(env: Env, ps: seq<Pattern>, s: string, at: nat, fuel: nat, i: nat, a: seq<Value>, n: nat)
    requires i == |ps| && at <= |s|
    ensures Prepend(a, n, ExecSeq(env, ps[i..], s, at, fuel)) == Match(List(a), n)
  {
    assert ps[i..] == [];
    assert a + [] == a;
  }

  /**
   * The loop of `rep` (core.js): after a first match, repeat the separated pattern
   * while each step matches and consumes something; the offset grows on every
   * iteration, which is why the loop ends.
   */
  method RunRep(env: Env, q: Pattern, sep: Option<Pattern>, s: string, pos: nat, fuel: nat) returns (res: Res)
    requires pos <= |s|
    ensures res == Exec(env, Rep(q, sep), s, pos, fuel + 1)
  {
    var a: seq<Value> := [];
    var n: nat := 0;
    var r := Exec(env, q, s, pos, fuel);
    while r.Match? && r.len > 0
      invariant pos + n <= |s| && (r.Match? ==> pos + n + r.len <= |s|)
      invariant Exec(env, Rep(q, sep), s, pos, fuel + 1) == ExecRep(env, q, sep, s, pos, n, a, r, fuel)
      decreases |s| - (pos + n)
    {
      a := a + [r.value];
      n := n + r.len;
      r := Exec(env, Separated(q, sep), s, pos + n, fuel);
    }
    if r.Thrown? || r.OutOfFuel? {
      return r;
    }
    if |a| > 0 {
      return Match(List(a), n);
    }
    return NoMatch;
  }

  /**
   * `parse` of the ABNF and PEG constructors: the value a meta-grammar matches at the
   * start of the text, or a `SyntaxError` with the given message prefix and the text
   * where it does not match. Text after the part it matches is not looked at.
   */
  function ParseBy(env: Env, grammar: Pattern, prefix: string, text: string, fuel: nat): (r: Result<Value, Failure>)
    ensures Exec(env, grammar, text, 0, fuel).NoMatch? <==> r == Err(SyntaxError(prefix + text))
    ensures Exec(env, grammar, text, 0, fuel).Match? <==> r.Ok?
    ensures r.Ok? ==> r.value == Exec(env, grammar, text, 0, fuel).value
    ensures Exec(env, grammar, text, 0, fuel).Thrown? <==> r == Err(Exception)
  {
    match Exec(env, grammar, text, 0, fuel)
    case Match(v, _) => Ok(v)
    case NoMatch => Err(SyntaxError(prefix + text))
    case Thrown => Err(Exception)
    case OutOfFuel => Err(NoFuel)
  }
}
