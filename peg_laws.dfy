/** What the PEG front-end promises: `str`, the meta-grammar's callbacks and references, and `compile`. */
module PegLaws {
  import opened Wrappers
  import opened Values
  import opened Transforms
  import opened Core
  import opened CoreLaws
  import opened Lexical
  import opened Failures
  import opened Peg

  // ---------------------------------------------------------------------------
  // str(lq, rq)

  /** A decoded character as the result of a pattern. */
  function CharRes(c: Option<(char, nat)>): Res {
    match c
    case Some((ch, k)) => Match(Str([ch]), k)
    case None => NoMatch
  }

  /** A decoded quoted string as the result of a pattern. */
  function QuotedRes(q: Option<(string, nat)>): Res {
    match q
    case Some((t, k)) => Match(Str(t), k)
    case None => NoMatch
  }

  /** An escaped delimiter matches a backslash followed by the delimiter, and stands for the delimiter. */
  lemma EscapedExec(env: Env, c: char, s: string, i: nat, fuel: nat)
    requires i <= |s|
    ensures Exec(env, Escaped(c), s, i, fuel + 3)
         == if i + 1 < |s| && s[i] == '\\' && s[i + 1] == c then Match(Str([c]), 2) else NoMatch
  {
    var bs, q := Txt("\\"), Txt([c]);
    TxtChar(env, '\\', s, i, fuel);
    SeqOf(env, [bs, q], s, i, fuel + 1);
    if i < |s| && s[i] == '\\' {
      EscapedAfterBackslash(env, c, s, i, i + 1, fuel);
    } else {
      Seq2First(env, bs, q, s, i, fuel + 1);
      ThenFails(env, Seq([bs, q]), Select("1"), s, i, fuel + 2);
    }
  }

  lemma EscapedAfterBackslash(env: Env, c: char, s: string, i: nat, j: nat, fuel: nat)
    requires j == i + 1 && j <= |s| && s[i] == '\\'
    ensures Exec(env, Escaped(c), s, i, fuel + 3)
         == if j < |s| && s[j] == c then Match(Str([c]), 2) else NoMatch
  {
    var bs, q := Txt("\\"), Txt([c]);
    TxtChar(env, '\\', s, i, fuel);
    TxtChar(env, c, s, j, fuel);
    SeqOf(env, [bs, q], s, i, fuel + 1);
    if j < |s| && s[j] == c {
      Seq2Run(env, bs, q, s, i, j, fuel + 1, Str("\\"), 1, Str([c]), 1);
      ThenSecond(env, Seq([bs, q]), s, i, fuel + 2, [Str("\\"), Str([c])], 2);
    } else {
      Seq2Second(env, bs, q, s, i, j, fuel + 1, Str("\\"), 1);
      ThenFails(env, Seq([bs, q]), Select("1"), s, i, fuel + 2);
    }
  }

  /** Any character but the closing delimiter stands for itself. */
  lemma PlainExec(env: Env, rq: char, s: string, i: nat, fuel: nat)
    requires i <= |s|
    ensures Exec(env, Exc(Rgx(AnyChar), Txt([rq])), s, i, fuel + 2)
         == if i < |s| && s[i] != rq then Match(Str([s[i]]), 1) else NoMatch
  {
    TxtChar(env, rq, s, i, fuel);
    if i < |s| {
      assert s[i..i + 1] == [s[i]];
    }
  }

  /** One step of `str`'s character pattern is one step of the decoder `CharAt`. */
  lemma StrCharExec(env: Env, lq: char, rq: char, s: string, i: nat, fuel: nat)
    requires i <= |s|
    ensures Exec(env, StrChar(lq, rq), s, i, fuel + 4) == CharRes(CharAt(s, i, lq, rq))
  {
    EscapedExec(env, lq, s, i, fuel);
    EscapedExec(env, rq, s, i, fuel);
    PlainExec(env, rq, s, i, fuel + 1);
    AnyOfThree(env, Escaped(lq), Escaped(rq), Exc(Rgx(AnyChar), Txt([rq])), s, i, fuel + 3);
  }

  lemma CharsCons(c: char, t: string)
    ensures Chars([c] + t) == [Str([c])] + Chars(t)
  {
  }

  /** The loop of `rep(chr)` from a state that has decoded something: it finishes the decoding `Unquote` does. */
  lemma {:induction false} StrLoop(env: Env, lq: char, rq: char, s: string, pos: nat, n: nat, at: nat,
                                   acc: seq<Value>, r: Res, fuel: nat)
    requires at == pos + n && at <= |s| && |acc| > 0
    requires r == Exec(env, StrChar(lq, rq), s, at, fuel + 4)
    ensures ExecRep(env, StrChar(lq, rq), None, s, pos, n, acc, r, fuel + 4)
         == Match(List(acc + Chars(Unquote(s, at, lq, rq).0)), n + Unquote(s, at, lq, rq).1)
    decreases |s| - at, 1
  {
    StrCharExec(env, lq, rq, s, at, fuel);
    var ch := CharAt(s, at, lq, rq);
    if ch.None? {
      assert Unquote(s, at, lq, rq) == ([], 0);
      assert acc + Chars([]) == acc;
    } else {
      StrLoopMore(env, lq, rq, s, pos, n, at, acc, r, ch.value.0, ch.value.1, fuel);
    }
  }

  /** The loop of `rep(chr)` on a character the decoder reads: that character, then the rest. */
  lemma {:induction false} StrLoopMore(env: Env, lq: char, rq: char, s: string, pos: nat, n: nat, at: nat,
                                       acc: seq<Value>, r: Res, c: char, k: nat, fuel: nat)
    requires at == pos + n && at <= |s| && |acc| > 0
    requires CharAt(s, at, lq, rq) == Some((c, k)) && r == Match(Str([c]), k)
    ensures ExecRep(env, StrChar(lq, rq), None, s, pos, n, acc, r, fuel + 4)
         == Match(List(acc + Chars(Unquote(s, at, lq, rq).0)), n + Unquote(s, at, lq, rq).1)
    decreases |s| - at, 0
  {
    var r' := Exec(env, StrChar(lq, rq), s, at + k, fuel + 4);
    StrStep(env, lq, rq, s, pos, n, at, at + k, c, k, acc, r, r', fuel);
    StrLoop(env, lq, rq, s, pos, n + k, at + k, acc + [Str([c])], r', fuel);
    StrCombine(s, at, lq, rq, c, k, acc, n);
  }

  /** What the loop collects after one decoded character, put together with that character. */
  lemma StrCombine(s: string, at: nat, lq: char, rq: char, c: char, k: nat, acc: seq<Value>, n: nat)
    requires at <= |s| && CharAt(s, at, lq, rq) == Some((c, k))
    ensures var rest := Unquote(s, at + k, lq, rq);
      Match(List(acc + [Str([c])] + Chars(rest.0)), n + k + rest.1)
      == Match(List(acc + Chars(Unquote(s, at, lq, rq).0)), n + Unquote(s, at, lq, rq).1)
  {
    var rest := Unquote(s, at + k, lq, rq);
    assert Unquote(s, at, lq, rq) == ([c] + rest.0, k + rest.1);
    StrAppend(acc, c, rest.0);
  }

  /** One turn of the loop of `rep(chr)`, on a character the decoder reads. */
  lemma StrStep(env: Env, lq: char, rq: char, s: string, pos: nat, n: nat, at: nat, next: nat,
                c: char, k: nat, acc: seq<Value>, r: Res, r': Res, fuel: nat)
    requires at == pos + n && next == at + k && k > 0 && next <= |s|
    requires r == Match(Str([c]), k) && r' == Exec(env, StrChar(lq, rq), s, next, fuel + 4)
    ensures ExecRep(env, StrChar(lq, rq), None, s, pos, n, acc, r, fuel + 4)
         == ExecRep(env, StrChar(lq, rq), None, s, pos, n + k, acc + [Str([c])], r', fuel + 4)
  {
    RepUnfold(env, StrChar(lq, rq), None, s, pos, n, n + k, next, acc, r, r', fuel + 4);
  }

  lemma StrAppend(acc: seq<Value>, c: char, t: string)
    ensures acc + [Str([c])] + Chars(t) == acc + Chars([c] + t)
  {
    CharsCons(c, t);
  }

  /** `rep(chr)` matches exactly when the decoder reads at least one character, and collects them one by one. */
  lemma RepStr(env: Env, lq: char, rq: char, s: string, at: nat, fuel: nat)
    requires at <= |s|
    ensures var u := Unquote(s, at, lq, rq);
      Exec(env, Rep(StrChar(lq, rq), None), s, at, fuel + 5) == if u.1 > 0 then Match(List(Chars(u.0)), u.1) else NoMatch
  {
    StrCharExec(env, lq, rq, s, at, fuel);
    var ch := CharAt(s, at, lq, rq);
    if ch.Some? {
      RepStrFirst(env, lq, rq, s, at, ch.value.0, ch.value.1, fuel);
    }
  }

  /** `rep(chr)` once the decoder reads a first character. */
  lemma RepStrFirst(env: Env, lq: char, rq: char, s: string, at: nat, c: char, k: nat, fuel: nat)
    requires at <= |s| && CharAt(s, at, lq, rq) == Some((c, k))
    requires Exec(env, StrChar(lq, rq), s, at, fuel + 4) == Match(Str([c]), k)
    ensures ExecRep(env, StrChar(lq, rq), None, s, at, 0, [], Match(Str([c]), k), fuel + 4)
         == Match(List(Chars(Unquote(s, at, lq, rq).0)), Unquote(s, at, lq, rq).1)
  {
    var q := StrChar(lq, rq);
    var x := Exec(env, q, s, at + k, fuel + 4);
    RepUnfold(env, q, None, s, at, 0, k, at + k, [], Match(Str([c]), k), x, fuel + 4);
    StrLoop(env, lq, rq, s, at, k, at + k, [Str([c])], x, fuel);
    StrCombine(s, at, lq, rq, c, k, [], 0);
    assert [] + [Str([c])] == [Str([c])];
    assert [] + Chars(Unquote(s, at, lq, rq).0) == Chars(Unquote(s, at, lq, rq).0);
  }

  /** Joining one-character strings gives back the string. */
  lemma {:induction false} ConcatChars(t: string)
    ensures Concat(ElementTexts(Chars(t))) == t
  {
    if t != [] {
      ConcatChars(t[1..]);
      assert ElementTexts(Chars(t))[1..] == ElementTexts(Chars(t[1..]));
      assert [t[0]] + t[1..] == t;
    }
  }

  lemma MergeChars(t: string)
    ensures MergeOf(List(Chars(t)), "") == Some(Str(t))
  {
    MergeConcat(ElementTexts(Chars(t)));
    ConcatChars(t);
  }

  /** The body of a quoted string never fails: it gives the decoded text, empty when nothing decodes. */
  lemma StrBodyExec(env: Env, lq: char, rq: char, s: string, at: nat, fuel: nat)
    requires at <= |s|
    ensures var u := Unquote(s, at, lq, rq);
      Exec(env, StrBody(lq, rq), s, at, fuel + 7) == Match(Str(u.0), u.1)
  {
    var u := Unquote(s, at, lq, rq);
    RepStr(env, lq, rq, s, at, fuel);
    assert Chars([]) == [];
    assert Exec(env, Opt(Rep(StrChar(lq, rq), None), List([])), s, at, fuel + 6) == Match(List(Chars(u.0)), u.1);
    MergeChars(u.0);
  }

  /**
   * `str(lq, rq)` matches exactly where `QuotedAt` finds `lq`, a decoded run and
   * `rq`, and gives the decoded text over the whole length, delimiters included.
   */
  lemma QuotedExec(env: Env, lq: char, rq: char, s: string, pos: nat, fuel: nat)
    requires pos <= |s|
    ensures Exec(env, QuotedString(lq, rq), s, pos, fuel + 9) == QuotedRes(QuotedAt(s, pos, lq, rq))
  {
    var open, body, close := Txt([lq]), StrBody(lq, rq), Txt([rq]);
    TxtChar(env, lq, s, pos, fuel + 6);
    if pos < |s| && s[pos] == lq {
      QuotedAfterOpen(env, lq, rq, s, pos, pos + 1, fuel);
    } else {
      SeqOf(env, [open, body, close], s, pos, fuel + 7);
      Seq3First(env, open, body, close, s, pos, fuel + 7);
      ThenFails(env, Seq([open, body, close]), Select("1"), s, pos, fuel + 8);
    }
  }

  lemma QuotedAfterOpen(env: Env, lq: char, rq: char, s: string, pos: nat, at: nat, fuel: nat)
    requires at == pos + 1 && pos < |s| && s[pos] == lq
    ensures Exec(env, QuotedString(lq, rq), s, pos, fuel + 9) == QuotedRes(QuotedAt(s, pos, lq, rq))
  {
    var u := Unquote(s, at, lq, rq);
    var e := at + u.1;
    TxtChar(env, lq, s, pos, fuel + 6);
    StrBodyExec(env, lq, rq, s, at, fuel);
    TxtChar(env, rq, s, e, fuel + 6);
    if e < |s| && s[e] == rq {
      QuotedClosed(env, lq, rq, s, pos, at, e, u.0, u.1, fuel);
    } else {
      QuotedUnclosed(env, lq, rq, s, pos, at, e, u.0, u.1, fuel);
    }
  }

  lemma QuotedClosed(env: Env, lq: char, rq: char, s: string, pos: nat, at: nat, e: nat, t: string, k: nat, fuel: nat)
    requires at == pos + 1 && e == at + k && e <= |s|
    requires Exec(env, Txt([lq]), s, pos, fuel + 7) == Match(Str([lq]), 1)
    requires Exec(env, StrBody(lq, rq), s, at, fuel + 7) == Match(Str(t), k)
    requires Exec(env, Txt([rq]), s, e, fuel + 7) == Match(Str([rq]), 1)
    ensures Exec(env, QuotedString(lq, rq), s, pos, fuel + 9) == Match(Str(t), k + 2)
  {
    var open, body, close := Txt([lq]), StrBody(lq, rq), Txt([rq]);
    SeqOf(env, [open, body, close], s, pos, fuel + 7);
    Seq3Run(env, open, body, close, s, pos, at, e, fuel + 7, Str([lq]), 1, Str(t), k, Str([rq]), 1);
    ThenSecond(env, Seq([open, body, close]), s, pos, fuel + 8, [Str([lq]), Str(t), Str([rq])], 1 + k + 1);
  }

  lemma QuotedUnclosed(env: Env, lq: char, rq: char, s: string, pos: nat, at: nat, e: nat, t: string, k: nat, fuel: nat)
    requires at == pos + 1 && e == at + k && e <= |s|
    requires Exec(env, Txt([lq]), s, pos, fuel + 7) == Match(Str([lq]), 1)
    requires Exec(env, StrBody(lq, rq), s, at, fuel + 7) == Match(Str(t), k)
    requires Exec(env, Txt([rq]), s, e, fuel + 7) == NoMatch
    ensures Exec(env, QuotedString(lq, rq), s, pos, fuel + 9) == NoMatch
  {
    var open, body, close := Txt([lq]), StrBody(lq, rq), Txt([rq]);
    SeqOf(env, [open, body, close], s, pos, fuel + 7);
    Seq3Third(env, open, body, close, s, pos, at, e, fuel + 7, Str([lq]), 1, Str(t), k);
    ThenFails(env, Seq([open, body, close]), Select("1"), s, pos, fuel + 8);
  }

  /**
   * Decoding what `Escape` wrote gives the text back and stops at the closing
   * delimiter, provided neither delimiter is a backslash and the text does not end
   * in one (a final backslash would escape the closing delimiter).
   */
  lemma {:induction false} UnquoteEscape(s: string, i: nat, t: string, lq: char, rq: char)
    requires lq != '\\' && rq != '\\'
    requires t == [] || t[|t| - 1] != '\\'
    requires i + |Escape(t, lq, rq)| < |s|
    requires s[i..i + |Escape(t, lq, rq)|] == Escape(t, lq, rq) && s[i + |Escape(t, lq, rq)|] == rq
    ensures Unquote(s, i, lq, rq) == (t, |Escape(t, lq, rq)|)
    decreases t
  {
    if t != [] {
      var e := Escape(t, lq, rq);
      var c := t[0];
      var head := if c == lq || c == rq then ['\\', c] else [c];
      var tail := Escape(t[1..], lq, rq);
      assert e == head + tail;
      assert s[i + |head|..i + |head| + |tail|] == tail by {
        assert s[i + |head|..i + |head| + |tail|] == s[i..i + |e|][|head|..];
      }
      assert s[i] == e[0];
      if |head| == 2 {
        assert s[i + 1] == e[1];
      } else if c == '\\' {
        assert |t| >= 2;
        assert t[1..][0] == t[1];
        assert s[i + 1] == tail[0] by { assert s[i + 1] == e[1]; }
      }
      assert CharAt(s, i, lq, rq) == Some((c, |head|));
      UnquoteEscape(s, i + |head|, t[1..], lq, rq);
      assert [c] + t[1..] == t;
    }
  }

  /** `str(lq, rq)` reads back any text written by `Escape` between the delimiters, whatever follows it. */
  lemma QuotedRoundTrip(env: Env, lq: char, rq: char, t: string, rest: string, fuel: nat)
    requires lq != '\\' && rq != '\\'
    requires t == [] || t[|t| - 1] != '\\'
    ensures Exec(env, QuotedString(lq, rq), [lq] + Escape(t, lq, rq) + [rq] + rest, 0, fuel + 9)
         == Match(Str(t), |Escape(t, lq, rq)| + 2)
  {
    var e := Escape(t, lq, rq);
    var s := [lq] + e + [rq] + rest;
    assert s[1..1 + |e|] == e;
    assert s[1 + |e|] == rq;
    UnquoteEscape(s, 1, t, lq, rq);
    QuotedExec(env, lq, rq, s, 0, fuel);
  }

  // ---------------------------------------------------------------------------
  // The meta-grammar

  /** `lbl ":" trm` puts the label on the term's node and keeps the rest of the node. */
  lemma LabelNodeOf(l: Value, colon: Value, fields: map<string, Value>, text: string)
    ensures LabelNode(List([l, colon, Record(fields)]), text) == Some(Record(fields["lbl" := l]))
  {
    ListKeys([l, colon, Record(fields)]);
  }

  /** `atm qtf` puts the atom on the quantifier's node under `rep`. */
  lemma QuantNodeOf(atom: Value, sep: Value, min: Value, text: string)
    ensures QuantNode(List([atom, Record(map["sep" := sep, "min" := min])]), text)
         == Some(Record(map["sep" := sep, "min" := min, "rep" := atom]))
  {
    ListKeys([atom, Record(map["sep" := sep, "min" := min])]);
  }

  /** `+` asks for at least one repetition and `*` for at least none; no other character is a quantifier sign. */
  lemma QuantSignExec(env: Env, s: string, pos: nat, fuel: nat)
    requires pos <= |s|
    ensures Exec(env, QuantSign(), s, pos, fuel + 3)
         == if pos < |s| && s[pos] == '+' then Match(Num(1), 1)
            else if pos < |s| && s[pos] == '*' then Match(Num(0), 1)
            else NoMatch
  {
    TxtChar(env, '+', s, pos, fuel);
    TxtChar(env, '*', s, pos, fuel);
    AnyOfTwo(env, Then(Txt("+"), Make(Num(1))), Then(Txt("*"), Make(Num(0))), s, pos, fuel + 2);
  }

  lemma QtfNode(sep: Value, min: Value)
    ensures MapFields(List([sep, min]), map["sep" := 0, "min" := 1]) == Some(Record(map["sep" := sep, "min" := min]))
  {
    var mapping := map["sep" := 0, "min" := 1];
    MapFieldsOfList([sep, min], mapping);
    var fields := MapFields(List([sep, min]), mapping).value.fields;
    assert fields.Keys == {"sep", "min"};
    assert fields["sep"] == sep && fields["min"] == min;
    assert fields == map["sep" := sep, "min" := min];
  }

  /**
   * A quantifier, after its optional `<sep>`, is `+` or `*`, and reads as the node
   * `{sep, min}` with `min` 1 for `+` and 0 for `*`.
   */
  lemma QtfExec(env: Env, s: string, pos: nat, next: nat, fuel: nat, v: Value, n: nat)
    requires next == pos + n && next <= |s|
    requires Exec(env, Opt(MetaRefTo("sep"), Undefined), s, pos, fuel + 3) == Match(v, n)
    ensures Exec(env, QtfRule(), s, pos, fuel + 5)
         == if next < |s| && s[next] == '+' then Match(Record(map["sep" := v, "min" := Num(1)]), n + 1)
            else if next < |s| && s[next] == '*' then Match(Record(map["sep" := v, "min" := Num(0)]), n + 1)
            else NoMatch
  {
    var o := Opt(MetaRefTo("sep"), Undefined);
    QuantSignExec(env, s, next, fuel);
    SeqOf(env, [o, QuantSign()], s, pos, fuel + 3);
    var sign := Exec(env, QuantSign(), s, next, fuel + 3);
    if sign.Match? {
      Seq2Run(env, o, QuantSign(), s, pos, next, fuel + 3, v, n, sign.value, 1);
      QtfNode(v, sign.value);
      ThenMatches(env, Seq([o, QuantSign()]), MapTo(map["sep" := 0, "min" := 1]), s, pos, fuel + 4, List([v, sign.value]), n + 1);
    } else {
      Seq2Second(env, o, QuantSign(), s, pos, next, fuel + 3, v, n);
      ThenFails(env, Seq([o, QuantSign()]), MapTo(map["sep" := 0, "min" := 1]), s, pos, fuel + 4);
    }
  }

  /** `&x` reads as the node `{not: {not: x}}`. */
  lemma AndTermExec(env: Env, s: string, pos: nat, next: nat, fuel: nat, v: Value, n: nat)
    requires next == pos + 1 && next <= |s| && s[pos] == '&'
    requires Exec(env, MetaRefTo("trm"), s, next, fuel + 1) == Match(v, n)
    ensures Exec(env, AndTerm(), s, pos, fuel + 5) == Match(Record(map["not" := Record(map["not" := v])]), n + 1)
  {
    var amp := Txt("&");
    TxtChar(env, '&', s, pos, fuel);
    SeqOf(env, [amp, MetaRefTo("trm")], s, pos, fuel + 1);
    Seq2Run(env, amp, MetaRefTo("trm"), s, pos, next, fuel + 1, Str("&"), 1, v, n);
    ThenSecond(env, Seq([amp, MetaRefTo("trm")]), s, pos, fuel + 2, [Str("&"), v], 1 + n);
  }

  /** `!x` reads as the node `{not: x}`. */
  lemma NotTermExec(env: Env, s: string, pos: nat, next: nat, fuel: nat, v: Value, n: nat)
    requires next == pos + 1 && next <= |s| && s[pos] == '!'
    requires Exec(env, MetaRefTo("trm"), s, next, fuel + 1) == Match(v, n)
    ensures Exec(env, NotTerm(), s, pos, fuel + 4) == Match(Record(map["not" := v]), n + 1)
  {
    var bang := Txt("!");
    TxtChar(env, '!', s, pos, fuel);
    SeqOf(env, [bang, MetaRefTo("trm")], s, pos, fuel + 1);
    Seq2Run(env, bang, MetaRefTo("trm"), s, pos, next, fuel + 1, Str("!"), 1, v, n);
    ThenSecond(env, Seq([bang, MetaRefTo("trm")]), s, pos, fuel + 2, [Str("!"), v], 1 + n);
  }

  /** Every lazy reference of the meta-grammar names one of its rules. */
  lemma MetaRulesClosed()
    ensures forall name :: name in MetaRules() ==> LazyNames(MetaRules()[name], PegScope) <= MetaRules().Keys
  {
    forall name: string ensures LazyNames(MetaRule(name), PegScope) <= MetaNames() {
      MetaRuleClosed(name);
    }
  }

  lemma MetaRuleClosed(name: string)
    ensures LazyNames(MetaRule(name), PegScope) <= MetaNames()
  {
    match name
    case "alt" => AltRuleNames();
    case "seq" => SeqRuleNames();
    case "exc" => ExcRuleNames();
    case "atm" => AtmRuleNames();
    case "txt" => TxtRuleNames();
    case "chr" => QuotedNames('[', ']');
    case "ref" =>
    case "trm" => TrmRuleNames();
    case "grp" => GrpRuleNames();
    case "qtf" => QtfRuleNames();
    case "sep" => SepRuleNames();
    case "lbl" =>
    case _ => AltRuleNames();
  }

  lemma AltRuleNames()
    ensures LazyNames(AltRule(), PegScope) == {"seq"}
  {}

  lemma SeqRuleNames()
    ensures LazyNames(SeqRule(), PegScope) == {"exc", "trm"}
  {
    LazyNames2(MetaRefTo("exc"), MetaRefTo("trm"), PegScope);
  }

  lemma ExcRuleNames()
    ensures LazyNames(ExcRule(), PegScope) == {"trm"}
  {
    LazyNames3(MetaRefTo("trm"), Rgx(s => Spaced(s, '~')), MetaRefTo("trm"), PegScope);
  }

  lemma AtmRuleNames()
    ensures LazyNames(AtmRule(), PegScope) == {"txt", "grp", "chr", "ref"}
  {
    LazyNames4(MetaRefTo("txt"), MetaRefTo("grp"), MetaRefTo("chr"), MetaRefTo("ref"), PegScope);
  }

  /** A quoted string refers to no rule. */
  lemma QuotedNames(lq: char, rq: char)
    ensures LazyNames(QuotedString(lq, rq), PegScope) == {}
  {
    EscapedNames(lq);
    EscapedNames(rq);
    LazyNames3(Escaped(lq), Escaped(rq), Exc(Rgx(AnyChar), Txt([rq])), PegScope);
    assert LazyNames(Exc(Rgx(AnyChar), Txt([rq])), PegScope) == {};
    assert LazyNames(StrChar(lq, rq), PegScope) == {};
    assert LazyNames(Rep(StrChar(lq, rq), None), PegScope) == {};
    assert LazyNames(Opt(Rep(StrChar(lq, rq), None), List([])), PegScope) == {};
    assert LazyNames(StrBody(lq, rq), PegScope) == {};
    LazyNames3(Txt([lq]), StrBody(lq, rq), Txt([rq]), PegScope);
  }

  lemma EscapedNames(c: char)
    ensures LazyNames(Escaped(c), PegScope) == {}
  {
    LazyNames2(Txt("\\"), Txt([c]), PegScope);
  }

  lemma TxtRuleNames()
    ensures LazyNames(TxtRule(), PegScope) == {}
  {
    QuotedNames('"', '"');
    QuotedNames('\'', '\'');
    LazyNames2(QuotedString('"', '"'), QuotedString('\'', '\''), PegScope);
  }

  lemma TrmRuleNames()
    ensures LazyNames(TrmRule(), PegScope) == {"lbl", "trm", "txt", "grp", "chr", "ref", "qtf"}
  {
    AtmRuleNames();
    LabelTermNames();
    PrefixTermNames();
    OptTermNames();
    QuantTermNames();
    LazyNamesSix(LabelTerm(), AndTerm(), NotTerm(), OptTerm(), QuantTerm(), AtmRule());
  }

  lemma LabelTermNames()
    ensures LazyNames(LabelTerm(), PegScope) == {"lbl", "trm"}
  {
    LazyNames3(MetaRefTo("lbl"), Txt(":"), MetaRefTo("trm"), PegScope);
  }

  lemma PrefixTermNames()
    ensures LazyNames(AndTerm(), PegScope) == {"trm"} && LazyNames(NotTerm(), PegScope) == {"trm"}
  {
    LazyNames2(Txt("&"), MetaRefTo("trm"), PegScope);
    LazyNames2(Txt("!"), MetaRefTo("trm"), PegScope);
  }

  lemma OptTermNames()
    ensures LazyNames(OptTerm(), PegScope) == {"txt", "grp", "chr", "ref"}
  {
    AtmRuleNames();
    LazyNames2(AtmRule(), Txt("?"), PegScope);
  }

  lemma QuantTermNames()
    ensures LazyNames(QuantTerm(), PegScope) == {"txt", "grp", "chr", "ref", "qtf"}
  {
    AtmRuleNames();
    LazyNames2(AtmRule(), MetaRefTo("qtf"), PegScope);
  }

  lemma LazyNamesSix(a: Pattern, b: Pattern, c: Pattern, d: Pattern, e: Pattern, f: Pattern)
    ensures LazyNamesAll([a, b, c, d, e, f], PegScope)
         == LazyNames(a, PegScope) + LazyNames(b, PegScope) + LazyNames(c, PegScope)
          + LazyNames(d, PegScope) + LazyNames(e, PegScope) + LazyNames(f, PegScope)
  {
    assert [a, b, c, d, e, f][1..] == [b, c, d, e, f];
    assert [b, c, d, e, f][1..] == [c, d, e, f];
    LazyNames4(c, d, e, f, PegScope);
  }

  lemma GrpRuleNames()
    ensures LazyNames(GrpRule(), PegScope) == {"def", "lbl"}
  {
    var key := Opt(Then(Seq([Txt("."), MetaRefTo("lbl")]), Select("1")), Undefined);
    LazyNames2(Txt("."), MetaRefTo("lbl"), PegScope);
    LazyNames4(Txt("("), MetaRefTo("def"), Txt(")"), key, PegScope);
  }

  lemma QtfRuleNames()
    ensures LazyNames(QtfRule(), PegScope) == {"sep"}
  {
    LazyNames2(Then(Txt("+"), Make(Num(1))), Then(Txt("*"), Make(Num(0))), PegScope);
    LazyNames2(Opt(MetaRefTo("sep"), Undefined), QuantSign(), PegScope);
  }

  lemma SepRuleNames()
    ensures LazyNames(SepRule(), PegScope) == {"def"}
  {
    LazyNames3(Txt("<"), MetaRefTo("def"), Txt(">"), PegScope);
  }

  /** The syntax tree `parse` gives, and its error, do not depend on the fuel once there is enough of it. */
  lemma ParseFuelMono(text: string, fuel: nat, more: nat)
    requires fuel <= more && Parse(text, fuel) != Err(NoFuel)
    ensures Parse(text, more) == Parse(text, fuel)
  {
    ExecFuelMono(MetaEnv(), MetaGrammar(), text, 0, fuel, more);
  }

  // ---------------------------------------------------------------------------
  // compile

  /**
   * The label map of `compile_seq` holds exactly the labels the elements carry, each
   * bound to the index of the last element carrying it.
   */
  lemma LabelsSpec(asts: seq<Value>)
    ensures forall k :: k in Labels(asts) <==> exists i :: 0 <= i < |asts| && LabelOf(asts[i]) == Some(k)
    ensures forall k :: k in Labels(asts) ==>
      var i := Labels(asts)[k];
      && 0 <= i < |asts| && LabelOf(asts[i]) == Some(k)
      && forall j :: i < j < |asts| ==> LabelOf(asts[j]) != Some(k)
  {
    LabelsIndex(asts);
    forall k | exists i :: 0 <= i < |asts| && LabelOf(asts[i]) == Some(k) ensures k in Labels(asts) {
      var i :| 0 <= i < |asts| && LabelOf(asts[i]) == Some(k);
      LabelsHas(asts, i);
    }
  }

  /** Each label the map holds is bound to the last element carrying it. */
  lemma {:induction false} LabelsIndex(asts: seq<Value>)
    ensures forall k :: k in Labels(asts) ==>
      var i := Labels(asts)[k];
      && 0 <= i < |asts| && LabelOf(asts[i]) == Some(k)
      && forall j :: i < j < |asts| ==> LabelOf(asts[j]) != Some(k)
    decreases |asts|
  {
    if asts != [] {
      var last := |asts| - 1;
      var init := asts[..last];
      LabelsIndex(init);
      assert forall i :: 0 <= i < last ==> init[i] == asts[i];
      if LabelOf(asts[last]).None? {
        assert Labels(asts) == Labels(init);
      } else {
        assert Labels(asts) == Labels(init)[LabelOf(asts[last]).value := last];
      }
    }
  }

  /** Every label an element carries is in the map. */
  lemma {:induction false} LabelsHas(asts: seq<Value>, i: nat)
    requires i < |asts| && LabelOf(asts[i]).Some?
    ensures LabelOf(asts[i]).value in Labels(asts)
    decreases |asts|
  {
    var last := |asts| - 1;
    var init := asts[..last];
    if i < last {
      LabelsHas(init, i);
      assert init[i] == asts[i];
      assert Labels(init).Keys <= Labels(asts).Keys;
    }
  }

  /** The label map is empty exactly when no element carries a label, so the `map` step of `compile_seq` happens exactly when one does. */
  lemma LabelsEmpty(asts: seq<Value>)
    ensures Labels(asts) == map[] <==> forall i :: 0 <= i < |asts| ==> LabelOf(asts[i]).None?
  {
    LabelsSpec(asts);
    forall i | 0 <= i < |asts| && LabelOf(asts[i]).Some? ensures LabelOf(asts[i]).value in Labels(asts) {
      LabelsHas(asts, i);
    }
    if Labels(asts) != map[] {
      var k :| k in Labels(asts);
      assert LabelOf(asts[Labels(asts)[k]]).Some?;
    }
  }

  /**
   * `compile_seq`: with a label among the elements, their sequence mapped through the
   * label map; with none, one element unwrapped and several as a `seq`. This only
   * unfolds `Compile`; what the labelled case then matches is `LabelledSeqExec`.
   */
  lemma CompileSeqCases(ast: Value, items: seq<Value>, refs: map<string, Option<Pattern>>, scope: nat, rx: RegexCompiler,
                        ps: seq<Pattern>)
    requires ast.Record? && TagOf(ast.fields) == Some("seq") && ast.fields["seq"] == List(items)
    requires CompileAll(items, refs, scope, rx) == Some(ps)
    ensures (exists i :: 0 <= i < |items| && LabelOf(items[i]).Some?) ==>
      Compile(ast, refs, scope, rx) == Some(Then(Seq(ps), MapTo(Labels(items))))
    ensures (forall i :: 0 <= i < |items| ==> LabelOf(items[i]).None?) ==>
      Compile(ast, refs, scope, rx) == if |ps| > 1 then Some(Seq(ps)) else if |ps| == 1 then Some(ps[0]) else None
  {
    LabelsEmpty(items);
  }

  /**
   * A labelled sequence gives the record with one field per label, holding the part
   * of the sequence's result at the label's (last) position.
   */
  lemma LabelledSeqExec(env: Env, items: seq<Value>, ps: seq<Pattern>, s: string, pos: nat, fuel: nat, xs: seq<Value>, n: nat)
    requires pos <= |s| && |items| == |ps|
    requires ExecSeq(env, ps, s, pos, fuel) == Match(List(xs), n)
    ensures var r := Exec(env, Then(Seq(ps), MapTo(Labels(items))), s, pos, fuel + 2);
      && r.Match? && r.len == n && r.value.Record?
      && r.value.fields.Keys == Labels(items).Keys
      && forall k :: k in Labels(items) ==>
           0 <= Labels(items)[k] < |xs| && r.value.fields[k] == xs[Labels(items)[k]]
  {
    LabelsSpec(items);
    SeqOf(env, ps, s, pos, fuel);
    MapFieldsOfList(xs, Labels(items));
    ThenMatches(env, Seq(ps), MapTo(Labels(items)), s, pos, fuel + 1, List(xs), n);
  }

  /**
   * `compile_alt`: one alternative unwrapped, several as an ordered choice. This only
   * unfolds `Compile`; that the unwrapping is harmless is `AnyOfOne`.
   */
  lemma CompileAltCases(ast: Value, items: seq<Value>, refs: map<string, Option<Pattern>>, scope: nat, rx: RegexCompiler,
                        ps: seq<Pattern>)
    requires ast.Record? && TagOf(ast.fields) == Some("any") && ast.fields["any"] == List(items)
    requires CompileAll(items, refs, scope, rx) == Some(ps)
    ensures |ps| == 1 ==> Compile(ast, refs, scope, rx) == Some(ps[0])
    ensures |ps| > 1 ==> Compile(ast, refs, scope, rx) == Some(Any(ps))
  {}

  /** Unwrapping a single alternative changes nothing: a choice of one is that one pattern. */
  lemma AnyOfOne(env: Env, p: Pattern, s: string, pos: nat, fuel: nat)
    requires pos <= |s|
    ensures Exec(env, Any([p]), s, pos, fuel + 1) == Exec(env, p, s, pos, fuel)
  {
    assert [p][1..] == [];
    assert ExecAny(env, [], s, pos, fuel) == NoMatch;
  }

  /**
   * `compile_def`: a group with a truthy key selects that key from the group's result;
   * without one it is the group's pattern. This only unfolds `Compile`; what the keyed
   * pattern matches is `DefOfExec`.
   */
  lemma CompileDefKey(ast: Value, refs: map<string, Option<Pattern>>, scope: nat, rx: RegexCompiler)
    requires ast.Record? && TagOf(ast.fields) == Some("def")
    requires Compile(ast.fields["def"], refs, scope, rx).Some?
    ensures var p := Compile(ast.fields["def"], refs, scope, rx).value;
      var key := if "key" in ast.fields then ast.fields["key"] else Undefined;
      Compile(ast, refs, scope, rx) == Some(if Truthy(key) then Then(p, Select(ToText(key))) else p)
  {}

  /** The pattern of a keyed group gives the key's part of what the group matched, over the same text. */
  lemma DefOfExec(env: Env, p: Pattern, key: Value, s: string, pos: nat, fuel: nat, v: Value, n: nat)
    requires pos <= |s| && Exec(env, p, s, pos, fuel) == Match(v, n)
    ensures Exec(env, DefOf(p, key), s, pos, fuel + 1)
         == if Truthy(key) then Match(SelectOf(v, ToText(key)), n) else Match(v, n)
  {
    if Truthy(key) {
      ThenMatches(env, p, Select(ToText(key)), s, pos, fuel, v, n);
    } else {
      ExecFuelMono(env, p, s, pos, fuel, fuel + 1);
    }
  }

  /**
   * `compile_rep`: the repeated atom, with the separator when the node has a truthy
   * one; the least count `min` plays no part, as `rep` takes no such argument. This
   * only unfolds `Compile`; the consequence for `min` is `CompileRepIgnoresMin`.
   */
  lemma CompileRepOf(ast: Value, refs: map<string, Option<Pattern>>, scope: nat, rx: RegexCompiler)
    requires ast.Record? && TagOf(ast.fields) == Some("sep") && "rep" in ast.fields
    requires Compile(ast.fields["rep"], refs, scope, rx).Some?
    requires Truthy(ast.fields["sep"]) ==> Compile(ast.fields["sep"], refs, scope, rx).Some?
    ensures Compile(ast, refs, scope, rx)
         == Some(Rep(Compile(ast.fields["rep"], refs, scope, rx).value,
                     if Truthy(ast.fields["sep"]) then Some(Compile(ast.fields["sep"], refs, scope, rx).value) else None))
  {}

  /** The node a repetition gets is one whose `min` does not change the compiled pattern. */
  lemma CompileRepIgnoresMin(atom: Value, sep: Value, refs: map<string, Option<Pattern>>, scope: nat, rx: RegexCompiler)
    ensures Compile(Record(map["sep" := sep, "min" := Num(0), "rep" := atom]), refs, scope, rx)
         == Compile(Record(map["sep" := sep, "min" := Num(1), "rep" := atom]), refs, scope, rx)
  {
    var star := map["sep" := sep, "min" := Num(0), "rep" := atom];
    var plus := map["sep" := sep, "min" := Num(1), "rep" := atom];
    assert TagOf(star) == Some("sep") && TagOf(plus) == Some("sep");
    assert star["sep"] == plus["sep"] && star["rep"] == plus["rep"];
  }

  /** `&x`: the node `{not: {not: x}}` compiles to a double lookahead, which matches, consuming nothing, exactly when `x` does. */
  lemma CompileAnd(x: Value, refs: map<string, Option<Pattern>>, scope: nat, rx: RegexCompiler,
                   env: Env, s: string, pos: nat, fuel: nat)
    requires Compile(x, refs, scope, rx).Some? && pos <= |s|
    ensures Compile(Record(map["not" := Record(map["not" := x])]), refs, scope, rx)
         == Some(Not(Not(Compile(x, refs, scope, rx).value)))
    ensures var p := Compile(x, refs, scope, rx).value;
      var r := Exec(env, Not(Not(p)), s, pos, fuel + 2);
      && (r == Match(Undefined, 0) <==> Exec(env, p, s, pos, fuel).Match?)
      && (r.NoMatch? <==> Exec(env, p, s, pos, fuel).NoMatch?)
  {
    var inner := Record(map["not" := x]);
    assert TagOf(inner.fields) == Some("not");
    assert TagOf(map["not" := inner]) == Some("not");
    AndMatch(env, Compile(x, refs, scope, rx).value, s, pos, fuel);
  }

  /**
   * The lazy references of a compiled rule are to names `compile` passed to `ref`
   * or to names the table already holds: once `ref` has recorded its names, the
   * table is closed again.
   */
  lemma {:induction false} CompileClosed(ast: Value, refs: map<string, Option<Pattern>>, scope: nat, rx: RegexCompiler)
    requires Closed(refs, scope)
    ensures Compile(ast, refs, scope, rx).Some? ==>
      LazyNames(Compile(ast, refs, scope, rx).value, scope) <= Elems(RefNames(ast)) + refs.Keys
    decreases ast, 1
  {
    if ast.Record? && TagOf(ast.fields).Some? {
      var tag := TagOf(ast.fields).value;
      var v := ast.fields[tag];
      if tag == "seq" || tag == "any" {
        if v.List? {
          assert RefNames(ast) == RefNamesAll(v.items);
          CompileListClosed(v, refs, scope, rx);
        }
      } else if tag == "sep" {
        CompileRepClosed(ast, refs, scope, rx);
      } else if tag == "exc" {
        assert Compile(ast, refs, scope, rx) == CompileExc(v, refs, scope, rx);
        CompileExcClosed(v, refs, scope, rx);
      } else if tag == "def" {
        CompileDefClosed(ast, refs, scope, rx);
      } else if tag == "opt" || tag == "not" {
        assert RefNames(ast) == RefNames(v);
        CompileClosed(v, refs, scope, rx);
      }
    }
  }

  /** The same for `compile_def`: a group reaches what its definition does. */
  lemma {:induction false} CompileDefClosed(ast: Value, refs: map<string, Option<Pattern>>, scope: nat, rx: RegexCompiler)
    requires Closed(refs, scope)
    requires ast.Record? && TagOf(ast.fields) == Some("def")
    ensures Compile(ast, refs, scope, rx).Some? ==>
      LazyNames(Compile(ast, refs, scope, rx).value, scope) <= Elems(RefNames(ast)) + refs.Keys
    decreases ast, 0
  {
    var v := ast.fields["def"];
    assert Compile(ast, refs, scope, rx) == CompileDef(ast, refs, scope, rx);
    assert RefNames(ast) == RefNames(v);
    CompileClosed(v, refs, scope, rx);
  }

  /** The same for `compile_rep`, whose names are those of the element and then of the separator. */
  lemma {:induction false} CompileRepClosed(ast: Value, refs: map<string, Option<Pattern>>, scope: nat, rx: RegexCompiler)
    requires Closed(refs, scope)
    requires ast.Record? && TagOf(ast.fields) == Some("sep")
    ensures Compile(ast, refs, scope, rx).Some? ==>
      LazyNames(Compile(ast, refs, scope, rx).value, scope) <= Elems(RefNames(ast)) + refs.Keys
    decreases ast, 0
  {
    assert Compile(ast, refs, scope, rx) == CompileRep(ast, refs, scope, rx);
    var c := CompileRep(ast, refs, scope, rx);
    if c.Some? {
      var v, sep := ast.fields["rep"], ast.fields["sep"];
      RepNodeNames(ast);
      CompileClosed(v, refs, scope, rx);
      if Truthy(sep) {
        CompileClosed(sep, refs, scope, rx);
        ElemsConcat(RefNames(v), RefNames(sep));
      } else {
        ElemsConcat(RefNames(v), []);
      }
    }
  }

  lemma RepNodeNames(ast: Value)
    requires ast.Record? && TagOf(ast.fields) == Some("sep") && "rep" in ast.fields
    ensures RefNames(ast) == RefNames(ast.fields["rep"]) + if Truthy(ast.fields["sep"]) then RefNames(ast.fields["sep"]) else []
  {}

  /** The same for exceptions, whose names are those of `lhs` and then of `rhs`. */
  lemma {:induction false} CompileExcClosed(v: Value, refs: map<string, Option<Pattern>>, scope: nat, rx: RegexCompiler)
    requires Closed(refs, scope)
    ensures CompileExc(v, refs, scope, rx).Some? ==>
      LazyNames(CompileExc(v, refs, scope, rx).value, scope)
      <= Elems(RefNames(v.fields["lhs"]) + RefNames(v.fields["rhs"])) + refs.Keys
    decreases v, 0
  {
    if CompileExc(v, refs, scope, rx).Some? {
      var lhs, rhs := v.fields["lhs"], v.fields["rhs"];
      CompileClosed(lhs, refs, scope, rx);
      CompileClosed(rhs, refs, scope, rx);
      ElemsConcat(RefNames(lhs), RefNames(rhs));
    }
  }

  /** The same for `compile_seq` and `compile_alt`, through the labels' `map` step when there is one. */
  lemma {:induction false} CompileListClosed(v: Value, refs: map<string, Option<Pattern>>, scope: nat, rx: RegexCompiler)
    requires Closed(refs, scope) && v.List?
    ensures CompileSeq(v, refs, scope, rx).Some? ==>
      LazyNames(CompileSeq(v, refs, scope, rx).value, scope) <= Elems(RefNamesAll(v.items)) + refs.Keys
    ensures CompileAlt(v, refs, scope, rx).Some? ==>
      LazyNames(CompileAlt(v, refs, scope, rx).value, scope) <= Elems(RefNamesAll(v.items)) + refs.Keys
    decreases v, 0
  {
    CompileAllClosed(v.items, refs, scope, rx);
    var r := CompileAll(v.items, refs, scope, rx);
    if r.Some? {
      SeqOfPartsNames(v.items, r.value, scope);
      AltOfPartsNames(r.value, scope);
    }
  }

  lemma SeqOfPartsNames(asts: seq<Value>, ps: seq<Pattern>, scope: nat)
    ensures SeqOfParts(asts, ps).Some? ==> LazyNames(SeqOfParts(asts, ps).value, scope) <= LazyNamesAll(ps, scope)
  {
    if |ps| > 0 { LazyNamesOfElement(ps, 0, scope); }
  }

  lemma AltOfPartsNames(ps: seq<Pattern>, scope: nat)
    ensures AltOfParts(ps).Some? ==> LazyNames(AltOfParts(ps).value, scope) <= LazyNamesAll(ps, scope)
  {
    if |ps| > 0 { LazyNamesOfElement(ps, 0, scope); }
  }

  /** A pattern of a list reaches no more than the list does. */
  lemma {:induction false} LazyNamesOfElement(ps: seq<Pattern>, i: nat, scope: nat)
    requires i < |ps|
    ensures LazyNames(ps[i], scope) <= LazyNamesAll(ps, scope)
    decreases i
  {
    if i > 0 {
      LazyNamesOfElement(ps[1..], i - 1, scope);
    }
  }

  lemma {:induction false} CompileAllClosed(asts: seq<Value>, refs: map<string, Option<Pattern>>, scope: nat, rx: RegexCompiler)
    requires Closed(refs, scope)
    ensures CompileAll(asts, refs, scope, rx).Some? ==>
      LazyNamesAll(CompileAll(asts, refs, scope, rx).value, scope) <= Elems(RefNamesAll(asts)) + refs.Keys
    decreases asts, 0
  {
    if asts != [] {
      CompileClosed(asts[0], refs, scope, rx);
      CompileAllClosed(asts[1..], refs, scope, rx);
      ElemsConcat(RefNames(asts[0]), RefNamesAll(asts[1..]));
    }
  }
}
