/** What each pattern of core.js, abnf.js and peg.js promises, stated about `Core.Exec`. */
module CoreLaws {
  import opened Wrappers
  import opened Values
  import opened Transforms
  import opened Core

  // ---------------------------------------------------------------------------
  // Terminals

  /** `txt(t)` matches exactly when `t` is a prefix of the input; it consumes `|t|` and yields `t`. */
  lemma TxtMatch(env: Env, t: string, s: string, pos: nat, fuel: nat)
    requires pos <= |s|
    ensures var r := Exec(env, Txt(t), s, pos, fuel + 1);
      && (r.Match? <==> pos + |t| <= |s| && s[pos..pos + |t|] == t)
      && (r.Match? ==> r == Match(Str(t), |t|))
      && (!r.Match? ==> r == NoMatch)
  {
  }

  /** The empty text matches everywhere, consuming nothing. */
  lemma TxtEmpty(env: Env, s: string, pos: nat, fuel: nat)
    requires pos <= |s|
    ensures Exec(env, Txt(""), s, pos, fuel + 1) == Match(Str(""), 0)
  {
  }

  /** A one-character text matches exactly that character. */
  lemma TxtChar(env: Env, c: char, s: string, pos: nat, fuel: nat)
    requires pos <= |s|
    ensures Exec(env, Txt([c]), s, pos, fuel + 1) == if pos < |s| && s[pos] == c then Match(Str([c]), 1) else NoMatch
  {
    if pos < |s| {
      assert ([c] <= s[pos..]) == (s[pos] == c);
    }
  }

  /** `rng(lo, hi)` matches one character whose code lies in `[lo, hi]`, and fails otherwise, also at the end of the input. */
  lemma RngMatch(env: Env, lo: int, hi: int, s: string, pos: nat, fuel: nat)
    requires pos <= |s|
    ensures var r := Exec(env, Rng(lo, hi), s, pos, fuel + 1);
      && (r.Match? <==> pos < |s| && lo <= s[pos] as int <= hi)
      && (r.Match? ==> r == Match(Str([s[pos]]), 1))
      && (!r.Match? ==> r == NoMatch)
  {
  }

  /** `chr()` matches any one character, exactly when the input is not exhausted. */
  lemma ChrMatch(env: Env, s: string, pos: nat, fuel: nat)
    requires pos <= |s|
    ensures var r := Exec(env, Chr, s, pos, fuel + 1);
      && (r.Match? <==> pos < |s|)
      && (r.Match? ==> r == Match(Str([s[pos]]), 1))
      && (!r.Match? ==> r == NoMatch)
  {
  }

  // ---------------------------------------------------------------------------
  // opt, exc, not

  /** `opt(p, d)` never fails: it gives p's result when p matches, otherwise `d` consuming nothing. */
  lemma OptNeverFails(env: Env, p: Pattern, d: Value, s: string, pos: nat, fuel: nat)
    requires pos <= |s|
    ensures var r := Exec(env, Opt(p, d), s, pos, fuel + 1);
      && !r.NoMatch?
      && (Exec(env, p, s, pos, fuel).Match? ==> r == Exec(env, p, s, pos, fuel))
      && (Exec(env, p, s, pos, fuel).NoMatch? ==> r == Match(d, 0))
  {
  }

  /**
   * `exc(p, e)` matches exactly when `e` fails on the same input and `p` matches, and then its
   * result is p's result. `e` runs first, so an `e` that matches rules out `p` whatever `p` does.
   */
  lemma ExcMatch(env: Env, p: Pattern, e: Pattern, s: string, pos: nat, fuel: nat)
    requires pos <= |s|
    ensures var r := Exec(env, Exc(p, e), s, pos, fuel + 1);
      && (r.Match? <==> Exec(env, e, s, pos, fuel).NoMatch? && Exec(env, p, s, pos, fuel).Match?)
      && (r.Match? ==> r == Exec(env, p, s, pos, fuel))
      && (Exec(env, e, s, pos, fuel).Match? ==> r == NoMatch)
  {
  }

  /** `not(p)` succeeds with `undefined`, consuming nothing, exactly when `p` fails; it fails when `p` matches. */
  lemma NotMatch(env: Env, p: Pattern, s: string, pos: nat, fuel: nat)
    requires pos <= |s|
    ensures var r := Exec(env, Not(p), s, pos, fuel + 1);
      && (r == Match(Undefined, 0) <==> Exec(env, p, s, pos, fuel).NoMatch?)
      && (r.NoMatch? <==> Exec(env, p, s, pos, fuel).Match?)
  {
  }

  /** `&x`, compiled as `not(not(x))`, succeeds consuming nothing exactly when `x` matches, and fails when `x` fails. */
  lemma AndMatch(env: Env, p: Pattern, s: string, pos: nat, fuel: nat)
    requires pos <= |s|
    ensures var r := Exec(env, Not(Not(p)), s, pos, fuel + 2);
      && (r == Match(Undefined, 0) <==> Exec(env, p, s, pos, fuel).Match?)
      && (r.NoMatch? <==> Exec(env, p, s, pos, fuel).NoMatch?)
  {
    NotMatch(env, p, s, pos, fuel);
    NotMatch(env, Not(p), s, pos, fuel + 1);
  }

  // ---------------------------------------------------------------------------
  // then

  /** A `then` fails exactly as its pattern fails, whatever the transform: the callback is not consulted. */
  lemma ThenFails(env: Env, p: Pattern, t: Transform, s: string, pos: nat, fuel: nat)
    requires pos <= |s|
    requires !Exec(env, p, s, pos, fuel).Match?
    ensures Exec(env, Then(p, t), s, pos, fuel + 1) == Exec(env, p, s, pos, fuel)
  {
  }

  /** On a match, `then` keeps the consumed length and replaces the value by `transform(value, text)`, `text` being the consumed input. */
  lemma ThenMatches(env: Env, p: Pattern, t: Transform, s: string, pos: nat, fuel: nat, v: Value, n: nat)
    requires pos <= |s|
    requires Exec(env, p, s, pos, fuel) == Match(v, n)
    ensures Exec(env, Then(p, t), s, pos, fuel + 1)
         == match Apply(t, v, s[pos..pos + n]) case Some(w) => Match(w, n) case None => Thrown
  {
  }

  /** `then` over a match whose transform gives `w`. */
  lemma ThenYields(env: Env, p: Pattern, t: Transform, s: string, pos: nat, fuel: nat, v: Value, n: nat, w: Value)
    requires pos <= |s| && Exec(env, p, s, pos, fuel) == Match(v, n) && Apply(t, v, s[pos..pos + n]) == Some(w)
    ensures Exec(env, Then(p, t), s, pos, fuel + 1) == Match(w, n)
  {
    ThenMatches(env, p, t, s, pos, fuel, v, n);
  }

  /** `text()` yields the text the pattern consumed. */
  lemma TextIsConsumed(env: Env, p: Pattern, s: string, pos: nat, fuel: nat, v: Value, n: nat)
    requires pos <= |s|
    requires Exec(env, p, s, pos, fuel) == Match(v, n)
    ensures Exec(env, Then(p, Text), s, pos, fuel + 1) == Match(Str(s[pos..pos + n]), n)
  {
  }

  /**
   * As core.js writes `then`, `text()` yields the whole rest of the input instead: the
   * character class `[a]` at the start of the PEG rule `[a] [b]` gives the text
   * `[a] [b]`, which peg.js then compiles as the class's regular expression.
   */
  lemma TextAsWrittenKeepsRest(env: Env)
    ensures ThenAsWritten(env, Txt("[a]"), Text, "[a] [b]", 0, 1) == Match(Str("[a] [b]"), 3)
    ensures Exec(env, Then(Txt("[a]"), Text), "[a] [b]", 0, 2) == Match(Str("[a]"), 3)
  {
    assert "[a]" <= "[a] [b]";
    assert "[a] [b]"[0..3] == "[a]";
  }

  // ---------------------------------------------------------------------------
  // Lazy references

  /** A reference runs the rule registered under its name at call time; an unregistered name throws. */
  lemma RefLookup(env: Env, scope: nat, name: string, s: string, pos: nat, fuel: nat)
    requires pos <= |s|
    ensures scope in env && name in env[scope] ==>
      Exec(env, Ref(scope, name), s, pos, fuel + 1) == Exec(env, env[scope][name], s, pos, fuel)
    ensures !(scope in env && name in env[scope]) ==> Exec(env, Ref(scope, name), s, pos, fuel + 1) == Thrown
  {
  }

  // ---------------------------------------------------------------------------
  // any

  /**
   * `any` gives the result of the lowest-index alternative that does not fail; the
   * alternatives after it play no part.
   */
  lemma {:induction false} AnyFirst(env: Env, ps: seq<Pattern>, i: nat, s: string, pos: nat, fuel: nat)
    requires pos <= |s| && i < |ps|
    requires forall j :: 0 <= j < i ==> Exec(env, ps[j], s, pos, fuel).NoMatch?
    requires !Exec(env, ps[i], s, pos, fuel).NoMatch?
    ensures Exec(env, Any(ps), s, pos, fuel + 1) == Exec(env, ps[i], s, pos, fuel)
  {
    AnyFrom(env, ps, i, s, pos, fuel);
  }

  /** Of two alternatives, the first decides unless it fails. */
  lemma AnyOfTwo(env: Env, a: Pattern, b: Pattern, s: string, pos: nat, fuel: nat)
    requires pos <= |s|
    ensures Exec(env, Any([a, b]), s, pos, fuel + 1)
         == if Exec(env, a, s, pos, fuel).NoMatch? then Exec(env, b, s, pos, fuel) else Exec(env, a, s, pos, fuel)
  {
    assert [a, b][1..] == [b] && [b][1..] == [];
    assert ExecAny(env, [], s, pos, fuel) == NoMatch;
    assert ExecAny(env, [b], s, pos, fuel) == Exec(env, b, s, pos, fuel);
  }

  /** Of three alternatives, the first that does not fail decides. */
  lemma AnyOfThree(env: Env, a: Pattern, b: Pattern, c: Pattern, s: string, pos: nat, fuel: nat)
    requires pos <= |s|
    ensures Exec(env, Any([a, b, c]), s, pos, fuel + 1)
         == if !Exec(env, a, s, pos, fuel).NoMatch? then Exec(env, a, s, pos, fuel)
            else if !Exec(env, b, s, pos, fuel).NoMatch? then Exec(env, b, s, pos, fuel)
            else Exec(env, c, s, pos, fuel)
  {
    assert [a, b, c][1..] == [b, c];
    AnyOfTwo(env, b, c, s, pos, fuel);
    assert ExecAny(env, [b, c], s, pos, fuel) == Exec(env, Any([b, c]), s, pos, fuel + 1);
  }

  lemma {:induction false} AnyFrom(env: Env, ps: seq<Pattern>, i: nat, s: string, pos: nat, fuel: nat)
    requires pos <= |s| && i <= |ps|
    requires forall j :: 0 <= j < i ==> Exec(env, ps[j], s, pos, fuel).NoMatch?
    ensures ExecAny(env, ps, s, pos, fuel) == ExecAny(env, ps[i..], s, pos, fuel)
    decreases i
  {
    if i > 0 {
      AnyFrom(env, ps[1..], i - 1, s, pos, fuel);
      assert ps[1..][i - 1..] == ps[i..];
    }
  }

  /** `any` fails exactly when every alternative fails. */
  lemma {:induction false} AnyFails(env: Env, ps: seq<Pattern>, s: string, pos: nat, fuel: nat)
    requires pos <= |s|
    ensures ExecAny(env, ps, s, pos, fuel).NoMatch? <==> forall j :: 0 <= j < |ps| ==> Exec(env, ps[j], s, pos, fuel).NoMatch?
    decreases |ps|
  {
    if ps != [] {
      AnyFails(env, ps[1..], s, pos, fuel);
      if forall j :: 0 <= j < |ps| ==> Exec(env, ps[j], s, pos, fuel).NoMatch? {
        assert forall j :: 0 <= j < |ps[1..]| ==> Exec(env, ps[1..][j], s, pos, fuel).NoMatch? by {
          forall j | 0 <= j < |ps[1..]| ensures Exec(env, ps[1..][j], s, pos, fuel).NoMatch? { assert ps[1..][j] == ps[j + 1]; }
        }
      }
      if ExecAny(env, ps, s, pos, fuel).NoMatch? {
        forall j | 0 <= j < |ps| ensures Exec(env, ps[j], s, pos, fuel).NoMatch? {
          if j > 0 { assert ps[1..][j - 1] == ps[j]; }
        }
      }
    }
  }

  // ---------------------------------------------------------------------------
  // seq

  function Sum(lens: seq<nat>): nat {
    if lens == [] then 0 else lens[0] + Sum(lens[1..])
  }

  /**
   * A run of `ps` from `pos`: the first part matches `vs[0]` over `lens[0]` characters,
   * and the other parts run in the same way from where it stopped.
   */
  ghost predicate SeqRun(env: Env, ps: seq<Pattern>, s: string, pos: nat, fuel: nat, vs: seq<Value>, lens: seq<nat>)
    requires pos <= |s|
    decreases |ps|
  {
    && |vs| == |ps| && |lens| == |ps|
    && (ps != [] ==>
          && pos + lens[0] <= |s|
          && Exec(env, ps[0], s, pos, fuel) == Match(vs[0], lens[0])
          && SeqRun(env, ps[1..], s, pos + lens[0], fuel, vs[1..], lens[1..]))
  }

  /** If every part matches where the previous one stopped, `seq` matches with their values in order and consumes their lengths together. */
  lemma {:induction false} SeqComplete(env: Env, ps: seq<Pattern>, s: string, pos: nat, fuel: nat, vs: seq<Value>, lens: seq<nat>)
    requires pos <= |s|
    requires SeqRun(env, ps, s, pos, fuel, vs, lens)
    ensures Exec(env, Seq(ps), s, pos, fuel + 1) == Match(List(vs), Sum(lens))
    decreases |ps|
  {
    if ps != [] {
      SeqComplete(env, ps[1..], s, pos + lens[0], fuel, vs[1..], lens[1..]);
      assert [vs[0]] + vs[1..] == vs;
    }
  }

  /** The part lengths of a match of `seq`. */
  ghost function SeqLens(env: Env, ps: seq<Pattern>, s: string, pos: nat, fuel: nat): seq<nat>
    requires pos <= |s|
    decreases |ps|
  {
    if ps == [] then []
    else
      var r := Exec(env, ps[0], s, pos, fuel);
      if r.Match? then [r.len] + SeqLens(env, ps[1..], s, pos + r.len, fuel) else []
  }

  /** Conversely, a match of `seq` comes from such a run of its parts: one value per part, in order, lengths adding up. */
  lemma {:induction false} SeqSound(env: Env, ps: seq<Pattern>, s: string, pos: nat, fuel: nat, vs: seq<Value>, m: nat)
    requires pos <= |s|
    requires Exec(env, Seq(ps), s, pos, fuel + 1) == Match(List(vs), m)
    ensures var lens := SeqLens(env, ps, s, pos, fuel); SeqRun(env, ps, s, pos, fuel, vs, lens) && Sum(lens) == m
    decreases |ps|
  {
    if ps != [] {
      var r := Exec(env, ps[0], s, pos, fuel);
      var rest := ExecSeq(env, ps[1..], s, pos + r.len, fuel);
      SeqSound(env, ps[1..], s, pos + r.len, fuel, rest.value.items, rest.len);
      assert vs == [r.value] + rest.value.items;
      var lens := SeqLens(env, ps, s, pos, fuel);
      assert lens[1..] == SeqLens(env, ps[1..], s, pos + r.len, fuel);
      assert vs[1..] == rest.value.items;
    }
  }

  /** `seq` fails, with no partial result, when some part fails after the parts before it matched. */
  lemma {:induction false} SeqFails(env: Env, ps: seq<Pattern>, s: string, pos: nat, fuel: nat, k: nat, vs: seq<Value>, lens: seq<nat>)
    requires pos <= |s| && k < |ps|
    requires SeqRun(env, ps[..k], s, pos, fuel, vs, lens)
    requires pos + Sum(lens) <= |s| && Exec(env, ps[k], s, pos + Sum(lens), fuel).NoMatch?
    ensures Exec(env, Seq(ps), s, pos, fuel + 1) == NoMatch
    decreases k
  {
    if k > 0 {
      assert ps[..k][0] == ps[0];
      assert ps[..k][1..] == ps[1..][..k - 1];
      assert ps[1..][k - 1] == ps[k];
      SeqFails(env, ps[1..], s, pos + lens[0], fuel, k - 1, vs[1..], lens[1..]);
    }
  }

  /** Prepending to a literal sequence, stated once for every element type. */
  lemma Cons1<T>(a: T, b: T)
    ensures [a] + [b] == [a, b]
  {
  }

  lemma Cons2<T>(a: T, b: T, c: T)
    ensures [a] + [b, c] == [a, b, c]
  {
  }

  lemma Cons3<T>(a: T, b: T, c: T, d: T)
    ensures [a] + [b, c, d] == [a, b, c, d]
  {
  }

  /** One step of `seq`: a part that matches up to `next`, followed by the rest of the parts that match from there. */
  lemma SeqCons(env: Env, p: Pattern, rest: seq<Pattern>, s: string, pos: nat, next: nat, fuel: nat,
                v: Value, n: nat, vs: seq<Value>, m: nat)
    requires next == pos + n && next <= |s| && Exec(env, p, s, pos, fuel) == Match(v, n)
    requires ExecSeq(env, rest, s, next, fuel) == Match(List(vs), m)
    ensures ExecSeq(env, [p] + rest, s, pos, fuel) == Match(List([v] + vs), n + m)
  {
    assert ([p] + rest)[0] == p && ([p] + rest)[1..] == rest;
  }

  /** One step of `seq`: a part that matches up to `next`, followed by the rest of the parts that fail from there. */
  lemma SeqConsFails(env: Env, p: Pattern, rest: seq<Pattern>, s: string, pos: nat, next: nat, fuel: nat, v: Value, n: nat)
    requires next == pos + n && next <= |s| && Exec(env, p, s, pos, fuel) == Match(v, n)
    requires ExecSeq(env, rest, s, next, fuel) == NoMatch
    ensures ExecSeq(env, [p] + rest, s, pos, fuel) == NoMatch
  {
    assert ([p] + rest)[0] == p && ([p] + rest)[1..] == rest;
  }

  /** Two parts that match one after the other, inside `seq`. */
  lemma Seq2Run(env: Env, c: Pattern, d: Pattern, s: string, pos: nat, next: nat, fuel: nat,
                vc: Value, nc: nat, vd: Value, nd: nat)
    requires next == pos + nc && next <= |s|
    requires Exec(env, c, s, pos, fuel) == Match(vc, nc) && Exec(env, d, s, next, fuel) == Match(vd, nd)
    ensures ExecSeq(env, [c, d], s, pos, fuel) == Match(List([vc, vd]), nc + nd)
  {
    assert ExecSeq(env, [], s, next + nd, fuel) == Match(List([]), 0);
    SeqCons(env, d, [], s, next, next + nd, fuel, vd, nd, [], 0);
    assert [d] + [] == [d] && [vd] + [] == [vd];
    SeqCons(env, c, [d], s, pos, next, fuel, vc, nc, [vd], nd);
    Cons1(c, d);
    Cons1(vc, vd);
  }

  /** Two parts inside `seq`, the first of which does not match: its result is that of the `seq`. */
  lemma Seq2First(env: Env, c: Pattern, d: Pattern, s: string, pos: nat, fuel: nat)
    requires pos <= |s| && !Exec(env, c, s, pos, fuel).Match?
    ensures ExecSeq(env, [c, d], s, pos, fuel) == Exec(env, c, s, pos, fuel)
  {
    assert [c, d][0] == c;
  }

  /** Two parts inside `seq`, the first matching up to `next` and the second not matching there. */
  lemma Seq2Second(env: Env, c: Pattern, d: Pattern, s: string, pos: nat, next: nat, fuel: nat, vc: Value, nc: nat)
    requires next == pos + nc && next <= |s|
    requires Exec(env, c, s, pos, fuel) == Match(vc, nc) && !Exec(env, d, s, next, fuel).Match?
    ensures ExecSeq(env, [c, d], s, pos, fuel) == Exec(env, d, s, next, fuel)
  {
    assert [c, d][0] == c && [c, d][1..] == [d] && [d][0] == d;
  }

  /** Three parts that match one after the other, inside `seq`. */
  lemma Seq3Run(env: Env, a: Pattern, b: Pattern, c: Pattern, s: string, pos: nat, k: nat, e: nat, fuel: nat,
                va: Value, na: nat, vb: Value, nb: nat, vc: Value, nc: nat)
    requires k == pos + na && e == k + nb && e <= |s|
    requires Exec(env, a, s, pos, fuel) == Match(va, na) && Exec(env, b, s, k, fuel) == Match(vb, nb)
    requires Exec(env, c, s, e, fuel) == Match(vc, nc)
    ensures ExecSeq(env, [a, b, c], s, pos, fuel) == Match(List([va, vb, vc]), na + nb + nc)
  {
    Seq2Run(env, b, c, s, k, e, fuel, vb, nb, vc, nc);
    SeqCons(env, a, [b, c], s, pos, k, fuel, va, na, [vb, vc], nb + nc);
    Cons2(a, b, c);
    Cons2(va, vb, vc);
  }

  /** Three parts inside `seq`, the first two matching up to `e` and the third not matching there. */
  lemma Seq3Third(env: Env, a: Pattern, b: Pattern, c: Pattern, s: string, pos: nat, k: nat, e: nat, fuel: nat,
                  va: Value, na: nat, vb: Value, nb: nat)
    requires k == pos + na && e == k + nb && e <= |s|
    requires Exec(env, a, s, pos, fuel) == Match(va, na) && Exec(env, b, s, k, fuel) == Match(vb, nb)
    requires Exec(env, c, s, e, fuel) == NoMatch
    ensures ExecSeq(env, [a, b, c], s, pos, fuel) == NoMatch
  {
    Seq2Second(env, b, c, s, k, e, fuel, vb, nb);
    SeqConsFails(env, a, [b, c], s, pos, k, fuel, va, na);
    Cons2(a, b, c);
  }

  /** Three parts inside `seq`, the first of which does not match. */
  lemma Seq3First(env: Env, a: Pattern, b: Pattern, c: Pattern, s: string, pos: nat, fuel: nat)
    requires pos <= |s| && !Exec(env, a, s, pos, fuel).Match?
    ensures ExecSeq(env, [a, b, c], s, pos, fuel) == Exec(env, a, s, pos, fuel)
  {
    assert [a, b, c][0] == a;
  }

  /** `seq` runs its parts one fuel unit further down. */
  lemma SeqOf(env: Env, ps: seq<Pattern>, s: string, pos: nat, fuel: nat)
    requires pos <= |s|
    ensures Exec(env, Seq(ps), s, pos, fuel + 1) == ExecSeq(env, ps, s, pos, fuel)
  {
  }

  // ---------------------------------------------------------------------------
  // rep

  /** The separated step fails or matches without consuming anything: where `rep` stops. */
  ghost predicate StopsAt(env: Env, q: Pattern, sep: Option<Pattern>, s: string, p: nat, fuel: nat)
    requires p <= |s|
  {
    var z := Exec(env, Separated(q, sep), s, p, fuel);
    z.NoMatch? || (z.Match? && z.len == 0)
  }

  /** `rep` fails when its first match is absent or consumes nothing. */
  lemma RepFirstFails(env: Env, q: Pattern, sep: Option<Pattern>, s: string, pos: nat, fuel: nat)
    requires pos <= |s|
    requires var r := Exec(env, q, s, pos, fuel); r.NoMatch? || (r.Match? && r.len == 0)
    ensures Exec(env, Rep(q, sep), s, pos, fuel + 1) == NoMatch
  {
  }

  /** Otherwise `rep` never fails: a first match that consumes something is always kept. */
  lemma {:induction false} RepFirstMatches(env: Env, q: Pattern, sep: Option<Pattern>, s: string, pos: nat, fuel: nat)
    requires pos <= |s|
    requires var r := Exec(env, q, s, pos, fuel); r.Match? && r.len > 0
    ensures !Exec(env, Rep(q, sep), s, pos, fuel + 1).NoMatch?
  {
    var r := Exec(env, q, s, pos, fuel);
    assert [] + [r.value] == [r.value];
    RepLoopNonEmpty(env, q, sep, s, pos, 0 + r.len, [r.value], Exec(env, Separated(q, sep), s, pos + r.len, fuel), fuel);
  }

  lemma {:induction false} RepLoopNonEmpty(env: Env, q: Pattern, sep: Option<Pattern>, s: string, pos: nat, n: nat,
                                           acc: seq<Value>, r: Res, fuel: nat)
    requires pos + n <= |s| && (r.Match? ==> pos + n + r.len <= |s|)
    requires |acc| > 0
    ensures !ExecRep(env, q, sep, s, pos, n, acc, r, fuel).NoMatch?
    decreases |s| - (pos + n)
  {
    if r.Match? && r.len > 0 {
      var n' := n + r.len;
      RepLoopNonEmpty(env, q, sep, s, pos, n', acc + [r.value], Exec(env, Separated(q, sep), s, pos + n', fuel), fuel);
    }
  }

  /**
   * What the loop of `rep` returns from a state: the values already collected come
   * first, the offset only grows, and the loop stopped either at once, on a step that
   * failed or consumed nothing, or later, at an offset where the separated step fails
   * or consumes nothing.
   */
  lemma {:induction false} RepLoopResult(env: Env, q: Pattern, sep: Option<Pattern>, s: string, pos: nat, n: nat,
                                         acc: seq<Value>, r: Res, fuel: nat)
    requires pos + n <= |s| && (r.Match? ==> pos + n + r.len <= |s|)
    requires ExecRep(env, q, sep, s, pos, n, acc, r, fuel).Match?
    ensures var res := ExecRep(env, q, sep, s, pos, n, acc, r, fuel);
      && res.value.List? && |res.value.items| >= |acc| && res.value.items[..|acc|] == acc && res.len >= n
      && pos + res.len <= |s|
      && ((res.len == n && res.value.items == acc && (r.NoMatch? || (r.Match? && r.len == 0)))
          || (res.len > n && |res.value.items| > |acc| && StopsAt(env, q, sep, s, pos + res.len, fuel)))
    decreases |s| - (pos + n)
  {
    if r.Match? && r.len > 0 {
      var n' := n + r.len;
      var at := pos + n';
      var r' := Exec(env, Separated(q, sep), s, at, fuel);
      RepUnfold(env, q, sep, s, pos, n, n', at, acc, r, r', fuel);
      RepLoopResult(env, q, sep, s, pos, n', acc + [r.value], r', fuel);
      PrefixOfLonger(ExecRep(env, q, sep, s, pos, n', acc + [r.value], r', fuel).value.items, acc, r.value);
    }
  }

  /**
   * A match of `rep` collects at least one element, the first being p's match at the
   * start, consumes something but no more than the input holds, and ends where one
   * more separated step would fail or consume nothing: the repetition is greedy, and a
   * trailing separator not followed by an element is left unconsumed.
   */
  lemma {:induction false} RepMatch(env: Env, q: Pattern, sep: Option<Pattern>, s: string, pos: nat, fuel: nat)
    requires pos <= |s|
    requires Exec(env, Rep(q, sep), s, pos, fuel + 1).Match?
    ensures var res := Exec(env, Rep(q, sep), s, pos, fuel + 1);
      && res.value.List? && |res.value.items| >= 1 && res.len > 0 && pos + res.len <= |s|
      && Exec(env, q, s, pos, fuel).Match? && Exec(env, q, s, pos, fuel).len > 0
      && res.value.items[0] == Exec(env, q, s, pos, fuel).value
      && StopsAt(env, q, sep, s, pos + res.len, fuel)
  {
    var r := Exec(env, q, s, pos, fuel);
    assert r.Match? && r.len > 0;
    var r' := Exec(env, Separated(q, sep), s, pos + r.len, fuel);
    assert [] + [r.value] == [r.value];
    RepLoopResult(env, q, sep, s, pos, r.len, [r.value], r', fuel);
    var res := ExecRep(env, q, sep, s, pos, r.len, [r.value], r', fuel);
    assert res.value.items[..1] == [r.value];
  }

  /** `then(select(1))` on a pattern that matches a list of two or more keeps its second element. */
  lemma ThenSecond(env: Env, p: Pattern, s: string, pos: nat, fuel: nat, xs: seq<Value>, n: nat)
    requires pos <= |s| && |xs| >= 2 && Exec(env, p, s, pos, fuel) == Match(List(xs), n)
    ensures Exec(env, Then(p, Select("1")), s, pos, fuel + 1) == Match(xs[1], n)
  {
    assert IntString(1) == "1";
    GetIndex(xs, 1);
    assert Apply(Select("1"), List(xs), s[pos..pos + n]) == Some(xs[1]);
  }

  /**
   * The separated step runs the separator, then the element after it; it fails as the
   * first of them that fails, and otherwise gives the element's value over both lengths.
   */
  lemma SeparatedMatch(env: Env, q: Pattern, x: Pattern, s: string, p: nat, fuel: nat)
    requires p <= |s|
    ensures var a := Exec(env, x, s, p, fuel + 1);
      Exec(env, Separated(q, Some(x)), s, p, fuel + 3)
        == if !a.Match? then a
           else var b := Exec(env, q, s, p + a.len, fuel + 1);
             if !b.Match? then b else Match(b.value, a.len + b.len)
  {
    var a := Exec(env, x, s, p, fuel + 1);
    assert Separated(q, Some(x)) == Then(Seq([x, q]), Select("1"));
    SeqOf(env, [x, q], s, p, fuel + 1);
    if !a.Match? {
      Seq2First(env, x, q, s, p, fuel + 1);
      ThenFails(env, Seq([x, q]), Select("1"), s, p, fuel + 2);
    } else {
      SeparatedAfter(env, q, x, s, p, p + a.len, fuel, a.value, a.len);
    }
  }

  /** The separated step once the separator has matched up to `next`. */
  lemma SeparatedAfter(env: Env, q: Pattern, x: Pattern, s: string, p: nat, next: nat, fuel: nat, v: Value, n: nat)
    requires next == p + n && next <= |s| && Exec(env, x, s, p, fuel + 1) == Match(v, n)
    ensures var b := Exec(env, q, s, next, fuel + 1);
      Exec(env, Then(Seq([x, q]), Select("1")), s, p, fuel + 3) == if !b.Match? then b else Match(b.value, n + b.len)
  {
    var b := Exec(env, q, s, next, fuel + 1);
    if b.Match? {
      SeparatedBoth(env, q, x, s, p, next, fuel, v, n, b.value, b.len);
    } else {
      SeparatedElementFails(env, q, x, s, p, next, fuel, v, n);
    }
  }

  /** The separated step fails where its separator does not match. */
  lemma SeparatorNoMatch(env: Env, q: Pattern, x: Pattern, s: string, p: nat, fuel: nat)
    requires p <= |s| && Exec(env, x, s, p, fuel + 1) == NoMatch
    ensures Exec(env, Separated(q, Some(x)), s, p, fuel + 3) == NoMatch
  {
    SeqOf(env, [x, q], s, p, fuel + 1);
    Seq2First(env, x, q, s, p, fuel + 1);
    ThenFails(env, Seq([x, q]), Select("1"), s, p, fuel + 2);
  }

  /** The separated step fails where its separator matches and the element after it does not. */
  lemma SeparatedNoElement(env: Env, q: Pattern, x: Pattern, s: string, p: nat, fuel: nat, v: Value, n: nat)
    requires p + n <= |s| && Exec(env, x, s, p, fuel + 1) == Match(v, n) && Exec(env, q, s, p + n, fuel + 1) == NoMatch
    ensures Exec(env, Separated(q, Some(x)), s, p, fuel + 3) == NoMatch
  {
    SeparatedElementFails(env, q, x, s, p, p + n, fuel, v, n);
  }

  /** The separated step over a separator and an element that both match gives the element over both lengths. */
  lemma SeparatedYields(env: Env, q: Pattern, x: Pattern, s: string, p: nat, fuel: nat, v: Value, n: nat, w: Value, m: nat)
    requires p + n <= |s| && Exec(env, x, s, p, fuel + 1) == Match(v, n) && Exec(env, q, s, p + n, fuel + 1) == Match(w, m)
    ensures Exec(env, Separated(q, Some(x)), s, p, fuel + 3) == Match(w, n + m)
  {
    SeparatedBoth(env, q, x, s, p, p + n, fuel, v, n, w, m);
  }

  /** The separated step when both the separator and the element after it match. */
  lemma SeparatedBoth(env: Env, q: Pattern, x: Pattern, s: string, p: nat, next: nat, fuel: nat,
                      v: Value, n: nat, w: Value, m: nat)
    requires next == p + n && next <= |s| && Exec(env, x, s, p, fuel + 1) == Match(v, n)
    requires Exec(env, q, s, next, fuel + 1) == Match(w, m)
    ensures Exec(env, Then(Seq([x, q]), Select("1")), s, p, fuel + 3) == Match(w, n + m)
  {
    SeqOf(env, [x, q], s, p, fuel + 1);
    Seq2Run(env, x, q, s, p, next, fuel + 1, v, n, w, m);
    ThenSecond(env, Seq([x, q]), s, p, fuel + 2, [v, w], n + m);
  }

  /** The separated step when the separator matches and the element after it does not. */
  lemma SeparatedElementFails(env: Env, q: Pattern, x: Pattern, s: string, p: nat, next: nat, fuel: nat, v: Value, n: nat)
    requires next == p + n && next <= |s| && Exec(env, x, s, p, fuel + 1) == Match(v, n)
    requires !Exec(env, q, s, next, fuel + 1).Match?
    ensures Exec(env, Then(Seq([x, q]), Select("1")), s, p, fuel + 3) == Exec(env, q, s, next, fuel + 1)
  {
    SeqOf(env, [x, q], s, p, fuel + 1);
    Seq2Second(env, x, q, s, p, next, fuel + 1, v, n);
    ThenFails(env, Seq([x, q]), Select("1"), s, p, fuel + 2);
  }

  /** With the separator matching and no element after it, the separated step fails: `rep` leaves a trailing separator unconsumed. */
  lemma TrailingSeparator(env: Env, q: Pattern, x: Pattern, s: string, p: nat, fuel: nat)
    requires p <= |s|
    requires Exec(env, x, s, p, fuel + 1).Match?
    requires Exec(env, q, s, p + Exec(env, x, s, p, fuel + 1).len, fuel + 1).NoMatch?
    ensures StopsAt(env, q, Some(x), s, p, fuel + 3)
  {
    SeparatedMatch(env, q, x, s, p, fuel);
  }

  // ---------------------------------------------------------------------------
  // Fuel

  /**
   * Fuel only bounds the search: an answer given with some fuel is the answer with any
   * more fuel, so every `Match`, `NoMatch` and `Thrown` is the source's own result.
   */
  lemma {:induction false} ExecFuelMono(env: Env, p: Pattern, s: string, pos: nat, fuel: nat, more: nat)
    requires pos <= |s| && fuel <= more
    requires !Exec(env, p, s, pos, fuel).OutOfFuel?
    ensures Exec(env, p, s, pos, more) == Exec(env, p, s, pos, fuel)
    decreases fuel, 0, 0
  {
    if p.Opt? || p.Exc? || p.Then? || p.Ref? || p.Not? {
      WrapperFuelMono(env, p, s, pos, fuel - 1, more - 1);
    } else if p.Any? || p.Seq? || p.Rep? {
      ListFuelMono(env, p, s, pos, fuel - 1, more - 1);
    }
  }

  /** The same for the patterns that wrap one or two others. */
  lemma {:induction false} WrapperFuelMono(env: Env, p: Pattern, s: string, pos: nat, fuel: nat, more: nat)
    requires pos <= |s| && fuel <= more
    requires p.Opt? || p.Exc? || p.Then? || p.Ref? || p.Not?
    requires !Exec(env, p, s, pos, fuel + 1).OutOfFuel?
    ensures Exec(env, p, s, pos, more + 1) == Exec(env, p, s, pos, fuel + 1)
    decreases fuel, 2, 0
  {
    match p
    case Opt(q, d) => ExecFuelMono(env, q, s, pos, fuel, more);
    case Exc(q, e) =>
      ExecFuelMono(env, e, s, pos, fuel, more);
      if Exec(env, e, s, pos, fuel).NoMatch? { ExecFuelMono(env, q, s, pos, fuel, more); }
    case Then(q, t) => ExecFuelMono(env, q, s, pos, fuel, more);
    case Ref(scope, name) =>
      if scope in env && name in env[scope] { ExecFuelMono(env, env[scope][name], s, pos, fuel, more); }
    case Not(q) => ExecFuelMono(env, q, s, pos, fuel, more);
  }

  /** The same for the patterns over a list of parts or a repeated pattern. */
  lemma {:induction false} ListFuelMono(env: Env, p: Pattern, s: string, pos: nat, fuel: nat, more: nat)
    requires pos <= |s| && fuel <= more
    requires p.Any? || p.Seq? || p.Rep?
    requires !Exec(env, p, s, pos, fuel + 1).OutOfFuel?
    ensures Exec(env, p, s, pos, more + 1) == Exec(env, p, s, pos, fuel + 1)
    decreases fuel, 2, 0
  {
    match p
    case Any(ps) => AnyFuelMono(env, ps, s, pos, fuel, more);
    case Seq(ps) => SeqFuelMono(env, ps, s, pos, fuel, more);
    case Rep(q, sep) =>
      ExecFuelMono(env, q, s, pos, fuel, more);
      RepFuelMono(env, q, sep, s, pos, 0, [], Exec(env, q, s, pos, fuel), fuel, more);
  }

  lemma {:induction false} AnyFuelMono(env: Env, ps: seq<Pattern>, s: string, pos: nat, fuel: nat, more: nat)
    requires pos <= |s| && fuel <= more
    requires !ExecAny(env, ps, s, pos, fuel).OutOfFuel?
    ensures ExecAny(env, ps, s, pos, more) == ExecAny(env, ps, s, pos, fuel)
    decreases fuel, 1, |ps|
  {
    if ps != [] {
      ExecFuelMono(env, ps[0], s, pos, fuel, more);
      if Exec(env, ps[0], s, pos, fuel).NoMatch? { AnyFuelMono(env, ps[1..], s, pos, fuel, more); }
    }
  }

  lemma {:induction false} SeqFuelMono(env: Env, ps: seq<Pattern>, s: string, pos: nat, fuel: nat, more: nat)
    requires pos <= |s| && fuel <= more
    requires !ExecSeq(env, ps, s, pos, fuel).OutOfFuel?
    ensures ExecSeq(env, ps, s, pos, more) == ExecSeq(env, ps, s, pos, fuel)
    decreases fuel, 1, |ps|
  {
    if ps != [] {
      ExecFuelMono(env, ps[0], s, pos, fuel, more);
      var r := Exec(env, ps[0], s, pos, fuel);
      if r.Match? { SeqFuelMono(env, ps[1..], s, pos + r.len, fuel, more); }
    }
  }

  lemma {:induction false} RepFuelMono(env: Env, q: Pattern, sep: Option<Pattern>, s: string, pos: nat, n: nat,
                                       acc: seq<Value>, r: Res, fuel: nat, more: nat)
    requires pos + n <= |s| && (r.Match? ==> pos + n + r.len <= |s|) && fuel <= more
    requires !ExecRep(env, q, sep, s, pos, n, acc, r, fuel).OutOfFuel?
    ensures ExecRep(env, q, sep, s, pos, n, acc, r, more) == ExecRep(env, q, sep, s, pos, n, acc, r, fuel)
    decreases fuel, 1, |s| - (pos + n)
  {
    if r.Match? && r.len > 0 {
      var n' := n + r.len;
      var at := pos + n';
      var next := Exec(env, Separated(q, sep), s, at, fuel);
      RepUnfold(env, q, sep, s, pos, n, n', at, acc, r, next, fuel);
      NextFuelMono(env, q, sep, s, pos, n', at, acc + [r.value], next, fuel, more);
      RepUnfold(env, q, sep, s, pos, n, n', at, acc, r, next, more);
      RepFuelMono(env, q, sep, s, pos, n', acc + [r.value], next, fuel, more);
    }
  }

  /** A step of the fuel argument for `rep`: the next separated step does not depend on the extra fuel. */
  lemma {:induction false} NextFuelMono(env: Env, q: Pattern, sep: Option<Pattern>, s: string, pos: nat, n': nat, at: nat,
                                        acc: seq<Value>, next: Res, fuel: nat, more: nat)
    requires at == pos + n' && at <= |s| && fuel <= more
    requires next == Exec(env, Separated(q, sep), s, at, fuel)
    requires !ExecRep(env, q, sep, s, pos, n', acc, next, fuel).OutOfFuel?
    ensures next == Exec(env, Separated(q, sep), s, at, more)
    decreases fuel, 1, 0
  {
    assert !next.OutOfFuel?;
    ExecFuelMono(env, Separated(q, sep), s, at, fuel, more);
  }

  /** A sequence that starts with `acc + [v]` starts with `acc`. */
  lemma PrefixOfLonger(xs: seq<Value>, acc: seq<Value>, v: Value)
    requires |xs| >= |acc| + 1 && xs[..|acc| + 1] == acc + [v]
    ensures xs[..|acc|] == acc
  {
    assert xs[..|acc|] == xs[..|acc| + 1][..|acc|];
  }

  /** One step of `rep` whose last step matched and consumed something. */
  lemma RepUnfold(env: Env, q: Pattern, sep: Option<Pattern>, s: string, pos: nat, n: nat, n': nat, at: nat,
                  acc: seq<Value>, r: Res, next: Res, fuel: nat)
    requires pos + n <= |s| && r.Match? && r.len > 0 && pos + n + r.len <= |s|
    requires n' == n + r.len && at == pos + n'
    requires next == Exec(env, Separated(q, sep), s, at, fuel)
    ensures ExecRep(env, q, sep, s, pos, n, acc, r, fuel) == ExecRep(env, q, sep, s, pos, n', acc + [r.value], next, fuel)
  {
  }

  // ---------------------------------------------------------------------------
  // The names a pattern reaches through lazy references

  lemma ElemsConcat(a: seq<string>, b: seq<string>)
    ensures Elems(a + b) == Elems(a) + Elems(b)
  {
    assert forall n :: n in a + b <==> n in a || n in b;
  }

  /** Every defined rule reaches, through lazy references, only names the table holds. */
  predicate Closed(refs: map<string, Option<Pattern>>, scope: nat) {
    forall n :: n in refs && refs[n].Some? ==> LazyNames(refs[n].value, scope) <= refs.Keys
  }

  lemma LazyNames2(a: Pattern, b: Pattern, scope: nat)
    ensures LazyNamesAll([a, b], scope) == LazyNames(a, scope) + LazyNames(b, scope)
  {
    assert [a, b][1..] == [b];
    assert [b][1..] == [];
    assert LazyNamesAll([b], scope) == LazyNames(b, scope) + LazyNamesAll([], scope);
    assert LazyNamesAll([a, b], scope) == LazyNames(a, scope) + LazyNamesAll([b], scope);
  }

  lemma LazyNames3(a: Pattern, b: Pattern, c: Pattern, scope: nat)
    ensures LazyNamesAll([a, b, c], scope) == LazyNames(a, scope) + LazyNames(b, scope) + LazyNames(c, scope)
  {
    assert [a, b, c][1..] == [b, c];
    LazyNames2(b, c, scope);
    assert LazyNamesAll([a, b, c], scope) == LazyNames(a, scope) + LazyNamesAll([b, c], scope);
  }

  lemma LazyNames4(a: Pattern, b: Pattern, c: Pattern, d: Pattern, scope: nat)
    ensures LazyNamesAll([a, b, c, d], scope)
         == LazyNames(a, scope) + LazyNames(b, scope) + LazyNames(c, scope) + LazyNames(d, scope)
  {
    assert [a, b, c, d][1..] == [b, c, d];
    LazyNames3(b, c, d, scope);
    assert LazyNamesAll([a, b, c, d], scope) == LazyNames(a, scope) + LazyNamesAll([b, c, d], scope);
  }

  /** A list reaches only `names` when each of its patterns does. */
  lemma {:induction false} LazyNamesAllWithin(ps: seq<Pattern>, scope: nat, names: set<string>)
    requires forall i :: 0 <= i < |ps| ==> LazyNames(ps[i], scope) <= names
    ensures LazyNamesAll(ps, scope) <= names
    decreases |ps|
  {
    if ps != [] {
      LazyNamesAllWithin(ps[1..], scope, names);
    }
  }

  /**
   * Handing out a defined rule's own pattern, as `ref(name)` does, and handing out a
   * lazy reference give the same outcome, once the rule table the grammar runs in
   * holds the rules defined so far.
   */
  lemma LookupAgrees(env: Env, refs: map<string, Option<Pattern>>, scope: nat, name: string, s: string, pos: nat, fuel: nat)
    requires pos <= |s| && scope in env && name in env[scope]
    requires name in refs && refs[name].Some? ==> env[scope][name] == refs[name].value
    requires !Exec(env, Lookup(refs, scope, name), s, pos, fuel).OutOfFuel?
    ensures Exec(env, Ref(scope, name), s, pos, fuel + 1) == Exec(env, Lookup(refs, scope, name), s, pos, fuel)
  {
    if !(name in refs && refs[name].Some?) {
      ExecFuelMono(env, Ref(scope, name), s, pos, fuel, fuel + 1);
    }
  }
}
