/**
 * Properties of the rule table of `init`: what `ref` adds to it, that the patterns
 * it hands out do not change as names are recorded, that the loop over the rules
 * keeps the table closed under lazy references, and that `init` reports an
 * undefined rule exactly when some definition refers to a name no rule defines.
 */
module RulesLaws {
  import opened Wrappers
  import opened Values
  import opened Core
  import opened CoreLaws
  import opened Failures
  import opened Rules
  import AbnfLaws
  import PegLaws

  // ---------------------------------------------------------------------------
  // ref

  lemma ElemsOne(name: string)
    ensures Elems([name]) == {name}
  {
    assert name in [name];
  }

  /** `ref` only adds names, as not yet defined, and keeps every entry it finds. */
  lemma {:induction false} RecordedEntries(t: Table, names: seq<string>)
    ensures Recorded(t, names).refs.Keys == t.refs.Keys + Elems(names)
    ensures forall n :: n in Recorded(t, names).refs ==>
      Recorded(t, names).refs[n] == if n in t.refs then t.refs[n] else None
    decreases |names|
  {
    if names == [] {
      assert Elems(names) == {};
    } else {
      var front, last := names[..|names| - 1], names[|names| - 1];
      RecordedEntries(t, front);
      assert names == front + [last];
      ElemsConcat(front, [last]);
      ElemsOne(last);
    }
  }

  /** Recording names does not change what `ref` hands out for any name. */
  lemma RecordedLookup(t: Table, names: seq<string>, scope: nat, name: string)
    ensures Lookup(Recorded(t, names).refs, scope, name) == Lookup(t.refs, scope, name)
  {
    RecordedEntries(t, names);
  }

  lemma NoteWellFormed(t: Table, name: string)
    requires WellFormed(t)
    ensures WellFormed(Note(t, name))
  {
    if name !in t.refs {
      ElemsConcat(t.order, [name]);
      ElemsOne(name);
      assert name !in t.order;
    }
  }

  /** The order lists each key once, however many names `ref` records. */
  lemma {:induction false} RecordedWellFormed(t: Table, names: seq<string>)
    requires WellFormed(t)
    ensures WellFormed(Recorded(t, names))
    decreases |names|
  {
    if names != [] {
      RecordedWellFormed(t, names[..|names| - 1]);
      NoteWellFormed(Recorded(t, names[..|names| - 1]), names[|names| - 1]);
    }
  }

  lemma PutWellFormed(t: Table, name: string, p: Pattern)
    requires WellFormed(t)
    ensures WellFormed(Put(t, name, p))
  {
    if name !in t.refs {
      ElemsConcat(t.order, [name]);
      ElemsOne(name);
      assert name !in t.order;
    }
  }

  // ---------------------------------------------------------------------------
  // init: the table the rules leave

  /** One turn of the loop over the rules: the first rule built and defined. */
  lemma FillStep(cfg: Config, t: Table, rules: seq<(string, Definition)>, p: Pattern, mid: Table)
    requires rules != []
    requires BuildResult(cfg, t.refs, rules[0].1) == Ok(p)
    requires mid == Put(Recorded(t, BuildNames(cfg, rules[0].1)), rules[0].0, p)
    ensures Fill(cfg, t, rules) == Fill(cfg, mid, rules[1..])
  {
  }

  lemma FillFirst(cfg: Config, t: Table, rules: seq<(string, Definition)>)
    requires rules != [] && Fill(cfg, t, rules).Ok?
    ensures BuildResult(cfg, t.refs, rules[0].1).Ok?
  {
  }

  lemma NamesCons(cfg: Config, rules: seq<(string, Definition)>)
    requires rules != []
    ensures Elems(Names(rules)) == {rules[0].0} + Elems(Names(rules[1..]))
    ensures Elems(Referenced(cfg, rules)) == Elems(BuildNames(cfg, rules[0].1)) + Elems(Referenced(cfg, rules[1..]))
  {
    ElemsConcat([rules[0].0], Names(rules[1..]));
    ElemsOne(rules[0].0);
    ElemsConcat(BuildNames(cfg, rules[0].1), Referenced(cfg, rules[1..]));
  }

  /** The loop over the rules keeps the order a list of the keys, each once. */
  lemma {:induction false} FillWellFormed(cfg: Config, t: Table, rules: seq<(string, Definition)>, r: Table)
    requires WellFormed(t)
    requires Fill(cfg, t, rules) == Ok(r)
    ensures WellFormed(r)
    decreases |rules|
  {
    if rules != [] {
      FillFirst(cfg, t, rules);
      var p := BuildResult(cfg, t.refs, rules[0].1).value;
      var noted := Recorded(t, BuildNames(cfg, rules[0].1));
      var mid := Put(noted, rules[0].0, p);
      FillStep(cfg, t, rules, p, mid);
      RecordedWellFormed(t, BuildNames(cfg, rules[0].1));
      PutWellFormed(noted, rules[0].0, p);
      FillWellFormed(cfg, mid, rules[1..], r);
    }
  }

  /** What one turn of the loop does to the entries. */
  lemma StepEntries(t: Table, names: seq<string>, name: string, p: Pattern, mid: Table)
    requires mid == Put(Recorded(t, names), name, p)
    ensures mid.refs.Keys == t.refs.Keys + Elems(names) + {name}
    ensures forall n :: n in mid.refs ==>
      (mid.refs[n].Some? <==> n == name || (n in t.refs && t.refs[n].Some?))
  {
    RecordedEntries(t, names);
  }

  /**
   * After the rules, the table holds every rule's name and every name the rules
   * refer to; a name is defined exactly when a rule defines it or it already was.
   */
  lemma {:induction false} FillTable(cfg: Config, t: Table, rules: seq<(string, Definition)>, r: Table)
    requires Fill(cfg, t, rules) == Ok(r)
    ensures r.refs.Keys == t.refs.Keys + Elems(Names(rules)) + Elems(Referenced(cfg, rules))
    ensures forall n :: n in r.refs ==>
      (r.refs[n].Some? <==> n in Names(rules) || (n in t.refs && t.refs[n].Some?))
    decreases |rules|
  {
    if rules == [] {
      assert Elems([]) == {};
    } else {
      FillFirst(cfg, t, rules);
      var p := BuildResult(cfg, t.refs, rules[0].1).value;
      var mid := Put(Recorded(t, BuildNames(cfg, rules[0].1)), rules[0].0, p);
      FillStep(cfg, t, rules, p, mid);
      StepEntries(t, BuildNames(cfg, rules[0].1), rules[0].0, p, mid);
      FillTable(cfg, mid, rules[1..], r);
      NamesCons(cfg, rules);
      assert forall n :: n in Names(rules) <==> n == rules[0].0 || n in Names(rules[1..]);
    }
  }

  // ---------------------------------------------------------------------------
  // init: the check for undefined rules

  /** `FirstNone` finds an undefined name exactly when there is one, and the one it finds is undefined. */
  lemma {:induction false} FirstNoneSpec(refs: map<string, Option<Pattern>>, names: seq<string>)
    ensures FirstNone(refs, names).Some? <==> exists n :: n in names && n in refs && refs[n].None?
    ensures FirstNone(refs, names).Some? ==>
      FirstNone(refs, names).value in names && FirstNone(refs, names).value in refs &&
      refs[FirstNone(refs, names).value].None?
    decreases |names|
  {
    if names != [] {
      FirstNoneSpec(refs, names[1..]);
      assert names == [names[0]] + names[1..];
      assert forall n :: n in names <==> n == names[0] || n in names[1..];
    }
  }

  /** The name `FirstNone` finds comes before every other undefined name. */
  lemma {:induction false} FirstNoneFirst(refs: map<string, Option<Pattern>>, names: seq<string>, k: nat)
    requires k < |names| && names[k] in refs && refs[names[k]].None?
    ensures FirstNone(refs, names).Some?
    ensures exists i :: 0 <= i <= k && names[i] == FirstNone(refs, names).value
    decreases k
  {
    if names[0] in refs && refs[names[0]].None? {
      assert names[0] == FirstNone(refs, names).value;
    } else {
      FirstNoneFirst(refs, names[1..], k - 1);
      var i :| 0 <= i <= k - 1 && names[1..][i] == FirstNone(refs, names[1..]).value;
      assert names[i + 1] == FirstNone(refs, names).value;
    }
  }

  /** The names some definition refers to that no rule defines. */
  function Missing(cfg: Config, rules: seq<(string, Definition)>, definition: Definition): set<string> {
    Elems(Referenced(cfg, rules)) + Elems(BuildNames(cfg, definition)) - Elems(Names(rules))
  }

  /** `init` once the rules and the grammar's definition have been built. */
  lemma InitRunOf(cfg: Config, rules: seq<(string, Definition)>, definition: Definition, t: Table, p: Pattern, last: Table)
    requires Fill(cfg, Table(map[], []), rules) == Ok(t)
    requires BuildResult(cfg, t.refs, definition) == Ok(p)
    requires last == Recorded(t, BuildNames(cfg, definition))
    ensures InitRun(cfg, rules, definition).1 == last
    ensures InitRun(cfg, rules, definition).0 ==
      if FirstNone(last.refs, last.order).Some? then
        Err(SyntaxError("Rule is not defined: " + FirstNone(last.refs, last.order).value))
      else Ok(p)
  {
  }

  /** The names the table holds as not defined when `init` checks it are exactly the missing ones. */
  lemma LastTable(cfg: Config, rules: seq<(string, Definition)>, definition: Definition, t: Table, last: Table)
    requires Fill(cfg, Table(map[], []), rules) == Ok(t)
    requires last == Recorded(t, BuildNames(cfg, definition))
    ensures WellFormed(last)
    ensures forall n :: n in last.order && n in last.refs && last.refs[n].None? <==> n in Missing(cfg, rules, definition)
  {
    var names := BuildNames(cfg, definition);
    FillTable(cfg, Table(map[], []), rules, t);
    FillWellFormed(cfg, Table(map[], []), rules, t);
    RecordedEntries(t, names);
    RecordedWellFormed(t, names);
    forall n
      ensures n in last.order && n in last.refs && last.refs[n].None? <==> n in Missing(cfg, rules, definition)
    {
      assert n in last.order <==> n in Elems(last.order);
      assert n in Referenced(cfg, rules) <==> n in Elems(Referenced(cfg, rules));
      assert n in names <==> n in Elems(names);
      assert n in Names(rules) <==> n in Elems(Names(rules));
    }
  }

  /**
   * When every definition builds, `init` fails exactly when some definition refers
   * to a name no rule defines, and the error it raises names one such rule.
   */
  lemma InitUndefined(cfg: Config, rules: seq<(string, Definition)>, definition: Definition)
    requires Fill(cfg, Table(map[], []), rules).Ok?
    requires BuildResult(cfg, Fill(cfg, Table(map[], []), rules).value.refs, definition).Ok?
    ensures InitRun(cfg, rules, definition).0.Ok? <==> Missing(cfg, rules, definition) == {}
    ensures InitRun(cfg, rules, definition).0.Err? ==> exists n ::
      n in Missing(cfg, rules, definition) &&
      InitRun(cfg, rules, definition).0.error == SyntaxError("Rule is not defined: " + n)
  {
    var t := Fill(cfg, Table(map[], []), rules).value;
    var p := BuildResult(cfg, t.refs, definition).value;
    var last := Recorded(t, BuildNames(cfg, definition));
    InitRunOf(cfg, rules, definition, t, p, last);
    LastTable(cfg, rules, definition, t, last);
    FirstNoneSpec(last.refs, last.order);
    var missing := Missing(cfg, rules, definition);
    if missing != {} {
      var n :| n in missing;
      assert n in last.order && n in last.refs && last.refs[n].None?;
    }
  }

  // ---------------------------------------------------------------------------
  // init: closure under lazy references

  /** A definition that is not text brings no lazy reference into the grammar being built. */
  predicate Foreign(d: Definition, scope: nat) {
    d.PatternDef? ==> LazyNames(d.p, scope) == {}
  }

  /** `build` refers lazily only to names it records or the table already holds. */
  lemma BuildClosed(cfg: Config, refs: map<string, Option<Pattern>>, d: Definition)
    requires Closed(refs, cfg.scope) && Foreign(d, cfg.scope)
    ensures BuildResult(cfg, refs, d).Ok? ==>
      LazyNames(BuildResult(cfg, refs, d).value, cfg.scope) <= Elems(BuildNames(cfg, d)) + refs.Keys
  {
    if d.TextDef? {
      var parsed := ParseWith(cfg.syntax, d.text, cfg.fuel);
      if parsed.Ok? {
        match cfg.syntax
        case AbnfSyntax => AbnfLaws.CompileClosed(parsed.value, refs, cfg.scope);
        case PegSyntax(rx) => PegLaws.CompileClosed(parsed.value, refs, cfg.scope, rx);
      }
    }
  }

  lemma RecordedClosed(t: Table, names: seq<string>, scope: nat)
    requires Closed(t.refs, scope)
    ensures Closed(Recorded(t, names).refs, scope)
  {
    RecordedEntries(t, names);
  }

  /** One turn of the loop keeps the table closed. */
  lemma StepClosed(cfg: Config, t: Table, d: Definition, name: string, p: Pattern, mid: Table)
    requires Closed(t.refs, cfg.scope) && Foreign(d, cfg.scope)
    requires BuildResult(cfg, t.refs, d) == Ok(p)
    requires mid == Put(Recorded(t, BuildNames(cfg, d)), name, p)
    ensures Closed(mid.refs, cfg.scope)
  {
    BuildClosed(cfg, t.refs, d);
    RecordedEntries(t, BuildNames(cfg, d));
    RecordedClosed(t, BuildNames(cfg, d), cfg.scope);
  }

  /** The loop over the rules keeps every defined rule's lazy references within the table. */
  lemma {:induction false} FillClosed(cfg: Config, t: Table, rules: seq<(string, Definition)>, r: Table)
    requires Closed(t.refs, cfg.scope)
    requires forall i :: 0 <= i < |rules| ==> Foreign(rules[i].1, cfg.scope)
    requires Fill(cfg, t, rules) == Ok(r)
    ensures Closed(r.refs, cfg.scope)
    decreases |rules|
  {
    if rules != [] {
      FillFirst(cfg, t, rules);
      var p := BuildResult(cfg, t.refs, rules[0].1).value;
      var mid := Put(Recorded(t, BuildNames(cfg, rules[0].1)), rules[0].0, p);
      FillStep(cfg, t, rules, p, mid);
      StepClosed(cfg, t, rules[0].1, rules[0].0, p, mid);
      assert forall i :: 0 <= i < |rules[1..]| ==> rules[1..][i] == rules[i + 1];
      FillClosed(cfg, mid, rules[1..], r);
    }
  }

  /**
   * When `init` succeeds on rules whose ready-made patterns do not refer into the
   * grammar, every name in the table is defined, and the grammar's pattern and every
   * rule refer lazily only to defined rules: no lazy reference can find its rule
   * missing.
   */
  lemma InitClosed(cfg: Config, rules: seq<(string, Definition)>, definition: Definition)
    requires forall i :: 0 <= i < |rules| ==> Foreign(rules[i].1, cfg.scope)
    requires Foreign(definition, cfg.scope)
    requires InitRun(cfg, rules, definition).0.Ok?
    ensures forall n :: n in InitRun(cfg, rules, definition).1.refs ==> InitRun(cfg, rules, definition).1.refs[n].Some?
    ensures LazyNames(InitRun(cfg, rules, definition).0.value, cfg.scope) <= Defined(InitRun(cfg, rules, definition).1).Keys
    ensures forall n :: n in Defined(InitRun(cfg, rules, definition).1) ==>
      LazyNames(Defined(InitRun(cfg, rules, definition).1)[n], cfg.scope) <= Defined(InitRun(cfg, rules, definition).1).Keys
  {
    var t := Fill(cfg, Table(map[], []), rules).value;
    var p := BuildResult(cfg, t.refs, definition).value;
    var last := Recorded(t, BuildNames(cfg, definition));
    InitRunOf(cfg, rules, definition, t, p, last);
    InitTableClosed(cfg, rules, definition, t, p, last);
  }

  lemma InitTableClosed(cfg: Config, rules: seq<(string, Definition)>, definition: Definition, t: Table, p: Pattern, last: Table)
    requires forall i :: 0 <= i < |rules| ==> Foreign(rules[i].1, cfg.scope)
    requires Foreign(definition, cfg.scope)
    requires Fill(cfg, Table(map[], []), rules) == Ok(t)
    requires BuildResult(cfg, t.refs, definition) == Ok(p)
    requires last == Recorded(t, BuildNames(cfg, definition))
    requires FirstNone(last.refs, last.order).None?
    ensures forall n :: n in last.refs ==> last.refs[n].Some?
    ensures LazyNames(p, cfg.scope) <= Defined(last).Keys
    ensures forall n :: n in Defined(last) ==> LazyNames(Defined(last)[n], cfg.scope) <= Defined(last).Keys
  {
    var names := BuildNames(cfg, definition);
    FillClosed(cfg, Table(map[], []), rules, t);
    FillWellFormed(cfg, Table(map[], []), rules, t);
    BuildClosed(cfg, t.refs, definition);
    RecordedEntries(t, names);
    RecordedClosed(t, names, cfg.scope);
    RecordedWellFormed(t, names);
    AllDefined(last);
    DefinedClosed(last, cfg.scope);
  }

  /** A well-formed table in which `FirstNone` finds nothing has every name defined. */
  lemma AllDefined(t: Table)
    requires WellFormed(t) && FirstNone(t.refs, t.order).None?
    ensures forall n :: n in t.refs ==> t.refs[n].Some?
  {
    FirstNoneSpec(t.refs, t.order);
    forall n | n in t.refs
      ensures t.refs[n].Some?
    {
      assert n in Elems(t.order);
    }
  }

  /** A closed table with every name defined is, as a table of rules, closed under lazy references. */
  lemma DefinedClosed(t: Table, scope: nat)
    requires Closed(t.refs, scope)
    requires forall n :: n in t.refs ==> t.refs[n].Some?
    ensures Defined(t).Keys == t.refs.Keys
    ensures forall n :: n in Defined(t) ==> LazyNames(Defined(t)[n], scope) <= Defined(t).Keys
  {
    assert Defined(t).Keys == t.refs.Keys;
  }
}
