/**
 * Patterns that cannot throw. A pattern throws in two ways: through a lazy reference
 * to a rule its table lacks, and through a transform that fails on the value it gets
 * (`map` on `undefined`, `merge` on a value with no `join`, `slice` on a value with
 * no `slice`, a callback that throws). `Infer` reads a pattern against a table of the
 * shapes its rules give, and where it can rule out both ways it gives the shape of
 * the pattern's values; `ExecSafe` proves that reading sound.
 */
module Safety {
  import opened Wrappers
  import opened Values
  import opened Transforms
  import opened Core

  /** A shape of values: anything, a string, an object, an array, or an array of known length and element shapes. */
  datatype Kind = AnyK | StrK | RecordK | ListK | TupleK(parts: seq<Kind>)

  predicate HasKind(v: Value, k: Kind)
    decreases k
  {
    match k
    case AnyK => true
    case StrK => v.Str?
    case RecordK => v.Record?
    case ListK => v.List?
    case TupleK(ks) => v.List? && |v.items| == |ks| && forall i :: 0 <= i < |ks| ==> HasKind(v.items[i], ks[i])
  }

  predicate IsListKind(k: Kind) { k.ListK? || k.TupleK? }

  /** The least shape of the two that this reading knows of. */
  function Union(a: Kind, b: Kind): (c: Kind)
    ensures a == b ==> c == a
  {
    if a == b then a else if IsListKind(a) && IsListKind(b) then ListK else AnyK
  }

  lemma UnionHas(v: Value, a: Kind, b: Kind)
    ensures HasKind(v, a) ==> HasKind(v, Union(a, b))
    ensures HasKind(v, b) ==> HasKind(v, Union(a, b))
  {
  }

  /** `b` admits every value `a` admits. */
  predicate Sub(a: Kind, b: Kind) {
    a == b || b.AnyK? || (b.ListK? && a.TupleK?)
  }

  lemma SubHas(v: Value, a: Kind, b: Kind)
    requires Sub(a, b) && HasKind(v, a)
    ensures HasKind(v, b)
  {
  }

  /** The shape of a constant value. */
  function ValueKind(v: Value): (k: Kind)
    ensures HasKind(v, k)
  {
    match v
    case Str(_) => StrK
    case Record(_) => RecordK
    case List(_) => ListK
    case _ => AnyK
  }

  /**
   * The shape of what transform `t` makes of a value of shape `k`, when `t` cannot
   * fail on such a value.
   */
  ghost function Out(t: Transform, k: Kind): Option<Kind> {
    match t
    case Select(_) => Some(AnyK)
    case As(_) => Some(RecordK)
    case MapTo(m) => if m == map[] || !k.AnyK? then Some(RecordK) else None
    case ParseInt(_) => Some(AnyK)
    case Merge(_) => if IsListKind(k) then Some(StrK) else None
    case Slice(_, _) => if k.StrK? then Some(StrK) else if IsListKind(k) then Some(ListK) else None
    case Text => Some(StrK)
    case Join(_, _) => if k.StrK? || k.RecordK? then Some(RecordK) else None
    case Flatten => if !k.AnyK? then Some(ListK) else None
    case Make(v) => Some(ValueKind(v))
    case Custom(f) =>
      if forall v, s :: HasKind(v, k) ==> f(v, s).Some? && f(v, s).value.Record? then Some(RecordK)
      else if forall v, s :: HasKind(v, k) ==> f(v, s).Some? then Some(AnyK)
      else None
  }

  /** `Out` is sound: the transform succeeds and its value has the shape `Out` names. */
  lemma OutSound(t: Transform, k: Kind, v: Value, input: string)
    requires Out(t, k).Some? && HasKind(v, k)
    ensures Apply(t, v, input).Some? && HasKind(Apply(t, v, input).value, Out(t, k).value)
  {
    match t
    case Custom(f) =>
      assert f(v, input).Some?;
    case _ =>
  }

  /** A callback that always returns is safe on any shape. */
  lemma CustomTotal(f: (Value, string) -> Option<Value>, k: Kind)
    requires forall v, s :: f(v, s).Some?
    ensures Out(Custom(f), k).Some?
  {
  }

  /** A callback that returns an object on every value of shape `k`. */
  lemma CustomRecord(f: (Value, string) -> Option<Value>, k: Kind)
    requires forall v, s :: HasKind(v, k) ==> f(v, s).Some? && f(v, s).value.Record?
    ensures Out(Custom(f), k) == Some(RecordK)
  {
  }

  /**
   * The shape of the values of `p`, run against a table of rule `scope` whose rule
   * `n` gives values of shape `g[n]`, or `None` when this reading cannot rule out an
   * exception. A lazy reference is accepted only to a rule `g` lists.
   */
  ghost function Infer(g: map<string, Kind>, scope: nat, p: Pattern): Option<Kind>
    decreases p
  {
    match p
    case Txt(_) => Some(StrK)
    case Rgx(_) => Some(StrK)
    case Native(_) => Some(AnyK)
    case Opt(q, d) => var kq := Infer(g, scope, q); if kq.Some? then Some(Union(kq.value, ValueKind(d))) else None
    case Exc(q, e) => if Infer(g, scope, e).Some? then Infer(g, scope, q) else None
    case Any(ps) => InferAny(g, scope, ps)
    case Seq(ps) => var ks := InferSeq(g, scope, ps); if ks.Some? then Some(TupleK(ks.value)) else None
    case Rep(q, sep) =>
      if Infer(g, scope, q).Some? && (sep.Some? ==> Infer(g, scope, sep.value).Some?) then Some(ListK) else None
    case Then(q, t) => var kq := Infer(g, scope, q); if kq.Some? then Out(t, kq.value) else None
    case Ref(sc, name) => if sc == scope && name in g then Some(g[name]) else None
    case Rng(_, _) => Some(StrK)
    case Chr => Some(StrK)
    case Not(q) => if Infer(g, scope, q).Some? then Some(AnyK) else None
  }

  ghost function InferAny(g: map<string, Kind>, scope: nat, ps: seq<Pattern>): Option<Kind>
    decreases ps
  {
    if ps == [] then Some(AnyK)
    else
      var h := Infer(g, scope, ps[0]);
      if h.None? || |ps| == 1 then h
      else
        var t := InferAny(g, scope, ps[1..]);
        if t.Some? then Some(Union(h.value, t.value)) else None
  }

  ghost function InferSeq(g: map<string, Kind>, scope: nat, ps: seq<Pattern>): (r: Option<seq<Kind>>)
    ensures r.Some? ==> |r.value| == |ps|
    decreases ps
  {
    if ps == [] then Some([])
    else
      var h := Infer(g, scope, ps[0]);
      var t := InferSeq(g, scope, ps[1..]);
      if h.Some? && t.Some? then Some([h.value] + t.value) else None
  }

  /** Every rule `g` lists is in table `scope` of `env`, and gives values of the shape `g` names. */
  ghost predicate Typed(env: Env, scope: nat, g: map<string, Kind>) {
    scope in env
    && forall n :: n in g ==>
         && n in env[scope]
         && Infer(g, scope, env[scope][n]).Some?
         && Sub(Infer(g, scope, env[scope][n]).value, g[n])
  }

  /** A result that is not an exception, and whose value, if any, has shape `k`. */
  ghost predicate Safe(r: Res, k: Kind) {
    !r.Thrown? && (r.Match? ==> HasKind(r.value, k))
  }

  /** A pattern `Infer` accepts never throws, and its values have the shape `Infer` gives. */
  lemma {:induction false} ExecSafe(env: Env, scope: nat, g: map<string, Kind>, p: Pattern, s: string, pos: nat, fuel: nat)
    requires pos <= |s| && Typed(env, scope, g) && Infer(g, scope, p).Some?
    ensures Safe(Exec(env, p, s, pos, fuel), Infer(g, scope, p).value)
    decreases fuel, 0, 0
  {
    if fuel > 0 {
      match p
      case Opt(q, d) => OptSafe(env, scope, g, q, d, s, pos, fuel - 1);
      case Exc(q, e) =>
        ExecSafe(env, scope, g, e, s, pos, fuel - 1);
        ExecSafe(env, scope, g, q, s, pos, fuel - 1);
      case Any(ps) => AnySafe(env, scope, g, ps, s, pos, fuel - 1);
      case Seq(ps) => SeqSafe(env, scope, g, ps, s, pos, fuel - 1);
      case Rep(q, sep) =>
        ExecSafe(env, scope, g, q, s, pos, fuel - 1);
        RepSafe(env, scope, g, q, sep, s, pos, 0, [], Exec(env, q, s, pos, fuel - 1), fuel - 1);
      case Then(q, t) => ThenSafe(env, scope, g, q, t, s, pos, fuel - 1);
      case Ref(sc, name) => RefSafe(env, scope, g, sc, name, s, pos, fuel - 1);
      case Not(q) => ExecSafe(env, scope, g, q, s, pos, fuel - 1);
      case _ =>
    }
  }

  /** The `opt` case of `ExecSafe`: the value is the inner pattern's or the default. */
  lemma {:induction false} OptSafe(env: Env, scope: nat, g: map<string, Kind>, q: Pattern, d: Value, s: string, pos: nat, fuel: nat)
    requires pos <= |s| && Typed(env, scope, g) && Infer(g, scope, Opt(q, d)).Some?
    ensures Safe(Exec(env, Opt(q, d), s, pos, fuel + 1), Infer(g, scope, Opt(q, d)).value)
    decreases fuel, 2, 0
  {
    ExecSafe(env, scope, g, q, s, pos, fuel);
    var r := Exec(env, q, s, pos, fuel);
    if r.Match? { UnionHas(r.value, Infer(g, scope, q).value, ValueKind(d)); }
    else { UnionHas(d, Infer(g, scope, q).value, ValueKind(d)); }
  }

  /** The `then` case of `ExecSafe`: the transform accepts the inner pattern's values. */
  lemma {:induction false} ThenSafe(env: Env, scope: nat, g: map<string, Kind>, q: Pattern, t: Transform, s: string, pos: nat, fuel: nat)
    requires pos <= |s| && Typed(env, scope, g) && Infer(g, scope, Then(q, t)).Some?
    ensures Safe(Exec(env, Then(q, t), s, pos, fuel + 1), Infer(g, scope, Then(q, t)).value)
    decreases fuel, 2, 0
  {
    ExecSafe(env, scope, g, q, s, pos, fuel);
    var r := Exec(env, q, s, pos, fuel);
    if r.Match? { OutSound(t, Infer(g, scope, q).value, r.value, s[pos..pos + r.len]); }
  }

  /** The reference case of `ExecSafe`: the rule's body gives values of the shape the reference is given. */
  lemma {:induction false} RefSafe(env: Env, scope: nat, g: map<string, Kind>, sc: nat, name: string, s: string, pos: nat, fuel: nat)
    requires pos <= |s| && Typed(env, scope, g) && Infer(g, scope, Ref(sc, name)).Some?
    ensures Safe(Exec(env, Ref(sc, name), s, pos, fuel + 1), Infer(g, scope, Ref(sc, name)).value)
    decreases fuel, 2, 0
  {
    var body := env[scope][name];
    ExecSafe(env, scope, g, body, s, pos, fuel);
    var r := Exec(env, body, s, pos, fuel);
    if r.Match? { SubHas(r.value, Infer(g, scope, body).value, g[name]); }
  }

  lemma {:induction false} AnySafe(env: Env, scope: nat, g: map<string, Kind>, ps: seq<Pattern>, s: string, pos: nat, fuel: nat)
    requires pos <= |s| && Typed(env, scope, g) && InferAny(g, scope, ps).Some?
    ensures Safe(ExecAny(env, ps, s, pos, fuel), InferAny(g, scope, ps).value)
    decreases fuel, 1, |ps|
  {
    if ps != [] {
      ExecSafe(env, scope, g, ps[0], s, pos, fuel);
      var r := Exec(env, ps[0], s, pos, fuel);
      if |ps| == 1 {
        assert ps[1..] == [];
      } else {
        AnySafe(env, scope, g, ps[1..], s, pos, fuel);
        var h := Infer(g, scope, ps[0]).value;
        var t := InferAny(g, scope, ps[1..]).value;
        if r.Match? { UnionHas(r.value, h, t); }
        var rest := ExecAny(env, ps[1..], s, pos, fuel);
        if rest.Match? { UnionHas(rest.value, h, t); }
      }
    }
  }

  lemma {:induction false} SeqSafe(env: Env, scope: nat, g: map<string, Kind>, ps: seq<Pattern>, s: string, pos: nat, fuel: nat)
    requires pos <= |s| && Typed(env, scope, g) && InferSeq(g, scope, ps).Some?
    ensures Safe(ExecSeq(env, ps, s, pos, fuel), TupleK(InferSeq(g, scope, ps).value))
    decreases fuel, 1, |ps|
  {
    if ps != [] {
      ExecSafe(env, scope, g, ps[0], s, pos, fuel);
      var r := Exec(env, ps[0], s, pos, fuel);
      if r.Match? {
        SeqSafe(env, scope, g, ps[1..], s, pos + r.len, fuel);
        var rest := ExecSeq(env, ps[1..], s, pos + r.len, fuel);
        if rest.Match? {
          var ks := InferSeq(g, scope, ps).value;
          var items := [r.value] + rest.value.items;
          assert forall i :: 1 <= i < |ks| ==> ks[i] == InferSeq(g, scope, ps[1..]).value[i - 1] && items[i] == rest.value.items[i - 1];
        }
      }
    }
  }

  lemma {:induction false} RepSafe(env: Env, scope: nat, g: map<string, Kind>, q: Pattern, sep: Option<Pattern>,
                                   s: string, pos: nat, n: nat, acc: seq<Value>, r: Res, fuel: nat)
    requires pos + n <= |s| && (r.Match? ==> pos + n + r.len <= |s|)
    requires Typed(env, scope, g) && Infer(g, scope, Rep(q, sep)).Some? && !r.Thrown?
    ensures Safe(ExecRep(env, q, sep, s, pos, n, acc, r, fuel), ListK)
    decreases fuel, 1, |s| - (pos + n)
  {
    if r.Match? && r.len > 0 {
      var n' := n + r.len;
      SeparatedInfer(g, scope, q, sep);
      ExecSafe(env, scope, g, Separated(q, sep), s, pos + n', fuel);
      RepSafe(env, scope, g, q, sep, s, pos, n', acc + [r.value], Exec(env, Separated(q, sep), s, pos + n', fuel), fuel);
    }
  }

  /** What `rep` runs after its first element is accepted when the element and the separator are. */
  lemma SeparatedInfer(g: map<string, Kind>, scope: nat, q: Pattern, sep: Option<Pattern>)
    requires Infer(g, scope, Rep(q, sep)).Some?
    ensures Infer(g, scope, Separated(q, sep)).Some?
  {
    if sep.Some? {
      InferSeq2(g, scope, sep.value, q);
    }
  }

  // ---------------------------------------------------------------------------
  // Reading lists of patterns

  /** A choice is accepted when each of its alternatives is. */
  lemma {:induction false} InferAnySome(g: map<string, Kind>, scope: nat, ps: seq<Pattern>)
    requires forall i :: 0 <= i < |ps| ==> Infer(g, scope, ps[i]).Some?
    ensures InferAny(g, scope, ps).Some?
    decreases ps
  {
    if |ps| > 1 {
      assert forall i :: 0 <= i < |ps| - 1 ==> ps[1..][i] == ps[i + 1];
      InferAnySome(g, scope, ps[1..]);
    }
  }

  /** A choice whose alternatives all give values of shape `k` gives values of shape `k`. */
  lemma {:induction false} InferAnySame(g: map<string, Kind>, scope: nat, ps: seq<Pattern>, k: Kind)
    requires |ps| > 0 && forall i :: 0 <= i < |ps| ==> Infer(g, scope, ps[i]) == Some(k)
    ensures InferAny(g, scope, ps) == Some(k)
    decreases ps
  {
    if |ps| > 1 {
      assert forall i :: 0 <= i < |ps| - 1 ==> ps[1..][i] == ps[i + 1];
      InferAnySame(g, scope, ps[1..], k);
    }
  }

  /** A sequence is accepted when each of its parts is. */
  lemma {:induction false} InferSeqSome(g: map<string, Kind>, scope: nat, ps: seq<Pattern>)
    requires forall i :: 0 <= i < |ps| ==> Infer(g, scope, ps[i]).Some?
    ensures InferSeq(g, scope, ps).Some?
    decreases ps
  {
    if ps != [] {
      assert forall i :: 0 <= i < |ps| - 1 ==> ps[1..][i] == ps[i + 1];
      InferSeqSome(g, scope, ps[1..]);
    }
  }

  lemma InferSeq1(g: map<string, Kind>, scope: nat, a: Pattern)
    requires Infer(g, scope, a).Some?
    ensures InferSeq(g, scope, [a]) == Some([Infer(g, scope, a).value])
  {
    assert [a][1..] == [];
    assert [Infer(g, scope, a).value] + [] == [Infer(g, scope, a).value];
  }

  lemma InferSeq2(g: map<string, Kind>, scope: nat, a: Pattern, b: Pattern)
    requires Infer(g, scope, a).Some? && Infer(g, scope, b).Some?
    ensures InferSeq(g, scope, [a, b]) == Some([Infer(g, scope, a).value, Infer(g, scope, b).value])
  {
    assert [a, b][1..] == [b];
    InferSeq1(g, scope, b);
    assert [Infer(g, scope, a).value] + [Infer(g, scope, b).value] == [Infer(g, scope, a).value, Infer(g, scope, b).value];
  }

  lemma InferSeq3(g: map<string, Kind>, scope: nat, a: Pattern, b: Pattern, c: Pattern)
    requires Infer(g, scope, a).Some? && Infer(g, scope, b).Some? && Infer(g, scope, c).Some?
    ensures InferSeq(g, scope, [a, b, c])
         == Some([Infer(g, scope, a).value, Infer(g, scope, b).value, Infer(g, scope, c).value])
  {
    assert [a, b, c][1..] == [b, c];
    InferSeq2(g, scope, b, c);
    var ka, kb, kc := Infer(g, scope, a).value, Infer(g, scope, b).value, Infer(g, scope, c).value;
    assert [ka] + [kb, kc] == [ka, kb, kc];
  }

  lemma InferSeq4(g: map<string, Kind>, scope: nat, a: Pattern, b: Pattern, c: Pattern, d: Pattern)
    requires Infer(g, scope, a).Some? && Infer(g, scope, b).Some? && Infer(g, scope, c).Some? && Infer(g, scope, d).Some?
    ensures InferSeq(g, scope, [a, b, c, d])
         == Some([Infer(g, scope, a).value, Infer(g, scope, b).value, Infer(g, scope, c).value, Infer(g, scope, d).value])
  {
    assert [a, b, c, d][1..] == [b, c, d];
    InferSeq3(g, scope, b, c, d);
    var ka, kb, kc, kd := Infer(g, scope, a).value, Infer(g, scope, b).value, Infer(g, scope, c).value, Infer(g, scope, d).value;
    assert [ka] + [kb, kc, kd] == [ka, kb, kc, kd];
  }

  lemma InferAny2(g: map<string, Kind>, scope: nat, a: Pattern, b: Pattern)
    requires Infer(g, scope, a).Some? && Infer(g, scope, b).Some?
    ensures InferAny(g, scope, [a, b]) == Some(Union(Infer(g, scope, a).value, Infer(g, scope, b).value))
  {
    assert [a, b][1..] == [b];
  }

  lemma InferAny3(g: map<string, Kind>, scope: nat, a: Pattern, b: Pattern, c: Pattern)
    requires Infer(g, scope, a).Some? && Infer(g, scope, b).Some? && Infer(g, scope, c).Some?
    ensures InferAny(g, scope, [a, b, c])
         == Some(Union(Infer(g, scope, a).value, Union(Infer(g, scope, b).value, Infer(g, scope, c).value)))
  {
    assert [a, b, c][1..] == [b, c];
    InferAny2(g, scope, b, c);
  }
}
