# llkp in Dafny

A model of llkp, a small LL(k) parser-combinator library for JavaScript, with proofs of what it promises. It has four parts:

- **The pattern engine of core.js.** It provides the terminals `txt` and `rgx` and the combinators `opt`, `exc`, `any`, `seq`, `rep` and `then`.
- **The result transforms of core.then.js.** These are `select`, `as`, `map`, `parseInt`, `merge`, `slice`, `text`, `join` and `flatten`.
- **The ABNF and PEG front-ends, abnf.js and peg.js.** Each turns grammar text into a pattern. It reads the text with a meta-grammar that is itself built from the combinators; compiles the resulting syntax tree into a pattern; and keeps a rule table, `refs`, in which a rule that is not yet defined is handed out as a lazy reference.
- **The rule table**, shared by both front-ends: `ref`, `build` and `init`.

## Layout

| file | module | part of the library |
|---|---|---|
| wrappers.dfy | `Wrappers` | `Option` and `Result` |
| failures.dfy | `Failures` | the exceptions a grammar constructor throws |
| values.dfy | `Values` | JavaScript values, property access, `String(v)`, unary `+`, `\|\|` |
| transforms.dfy | `Transforms` | core.then.js |
| core.dfy, core_laws.dfy | `Core`, `CoreLaws` | core.js, with `rng`/`chr` (abnf.js) and `not` (peg.js) |
| lexical.dfy | `Lexical` | the fixed regular expressions of the two meta-grammars |
| abnf.dfy, abnf_laws.dfy | `Abnf`, `AbnfLaws` | abnf.js: `numval`, `quoted`, `ABNF.pattern`, `parse`, `compile` |
| peg.dfy, peg_laws.dfy | `Peg`, `PegLaws` | peg.js: `str`, `PEG.pattern` (`compose`), `parse`, `compile` and its helpers |
| rules.dfy, rules_laws.dfy | `Rules`, `RulesLaws` | `ref`, `build` and `init`, which abnf.js:68-103 and peg.js:70-105 write identically |
| safety.dfy | `Safety` | which patterns cannot throw, and the shape of the values they give |
| abnf_safety.dfy, peg_safety.dfy | `AbnfSafety`, `PegSafety` | the two meta-grammars never throw, so `parse` fails only with its syntax error |
| abnf_example.dfy | `AbnfExample` | `ABNF.pattern` reading the rule `a / b`, step by step |

## How the model reads the source

- **Running a pattern.** `Core.Exec(env, p, s, pos, fuel)` runs `p` on the input `s` from offset `pos` and counts the consumed length from `pos`. core.js runs each part on `str.slice(n)`. Every terminal and combinator of `Exec` reads only `s[pos..]`, as it would read that slice, except `then`. `Exec` runs the corrected `then` of "## Findings": its transform receives the consumed text `s[pos..pos + len]`, where core.js:20 passes `str`, the whole rest of the input. `Core.ThenAsWritten` is `then` as written, and it agrees with `Exec` whenever the pattern fails or consumes the whole rest. So every transform that reads its second argument, `text()` among them, sees the consumed text in the model.
  - A result is one of:
    - `Match(value, len)`;
    - `NoMatch`, for a falsy result;
    - `Thrown`, for a transform that throws or a lazy reference to a rule that does not exist;
    - `OutOfFuel`.
  - Fuel bounds the recursion that rule references allow. `CoreLaws.ExecFuelMono` proves that an answer given with some fuel is the answer with any more fuel. So `OutOfFuel` is the only artefact of the model.
- **Lazy references.** `Ref(scope, name)` is looked up, when it runs, in the rule table `env[scope]`. Each grammar has its own scope:
  - 0 is `ABNF.pattern`;
  - 1 is `PEG.pattern`;
  - a user grammar takes any other number.
- **Calling conventions.** The front-ends were written against a different calling convention from the core.js they are shipped with: `exec(str, pos)` returning `{res, end}`. `rng`, `chr` (abnf.js:27-45) and `not` (peg.js:158-162) are modelled by what they evidently do: consume one character, or none, at the current offset. The same goes for the meta-grammars' `new Pattern(name, function (str, pos) …)` placeholders, which are modelled as lazy references. `parse` takes the value of the meta-grammar's match; as written, it would hand the one-element result array to `compile`.
- **Whole input.** The engine's `exec` does not require the whole input to be consumed. `parse` therefore accepts a rule whose text has a tail the meta-grammar does not read.
- **`rep` and its bounds.** core.js's `rep(pattern, separator)` takes no bounds, so the `min`/`max` that abnf.js:59 and peg.js:44 pass are dropped. The PEG quantifiers `+` and `*` both compile to the same one-or-more repetition (`PegLaws.CompileRepIgnoresMin`).
- **`make`.** peg.js:129 uses `make`, which core.then.js does not define. It is modelled as the transform that yields a constant.
- **Strings and regular expressions.**
  - Strings are sequences of Dafny characters, which are Unicode scalar values. A JavaScript string is a sequence of UTF-16 code units. The two agree on every text without characters outside the Basic Multilingual Plane; "## Left out" lists where they differ.
  - Regular expressions are matchers `string -> Option<nat>` giving the length they match at the start of their input.
  - The fixed ones of the meta-grammars are written out in `Lexical`.
  - A character class that PEG compiles with `new RegExp` goes through a parameter `rx` of type `Peg.RegexCompiler`.
- **Impossible trees.** `compile` gives `None` for a syntax tree the meta-grammar cannot produce, and for a class `new RegExp` rejects. `build` reports that `None` as an exception.
- **The rule table.** The JavaScript object `refs` is a map with the list of its keys in insertion order, which is the order `for (name in refs)` visits them. The class `Rules.Grammar` keeps the table in place, as `init` does: `Ref`, `Build`, `Define`, `FirstUndefined` and `Init` change its fields. Each method is proved against a pure function of the table (`Note`, `Recorded`, `Put`, `BuildResult`, `FirstNone`, `Fill`, `InitRun`), and `RulesLaws` proves what `init` promises about those functions.

## Model

| member | source | states |
|---|---|---|
| Core.Exec | core.js:38-111 | a match never consumes more than what is left of the input |
| Core.ExecAny | core.js:70-78 | a match of the ordered choice stays within the input |
| Core.ExecSeq | core.js:81-95 | a match of a sequence yields a list with one value per part, within the input |
| Core.ExecRep | core.js:100-110 | the loop of `rep` never consumes past the end of the input |
| Core.RunAny | core.js:70-78 | the `for` loop of `any` returns what the ordered choice specifies |
| Core.RunSeq | core.js:81-95 | the loop of `seq`, with its offset `n` and accumulator `a`, returns what the sequence specifies |
| Core.RunRep | core.js:98-111 | the `while` loop of `rep` returns what the repetition specifies; its offset strictly grows, so it ends |
| CoreLaws.ExecFuelMono | core.js:38-111 | an answer given with some fuel is the answer with any more fuel: fuel decides nothing but running out |
| CoreLaws.TxtMatch | core.js:39-44 | `txt(t)` matches iff `t` is a prefix of the rest of the input, then yields `t` over `\|t\|` characters; otherwise it fails |
| CoreLaws.TxtEmpty | core.js:39-44 | the empty text matches everywhere, consuming nothing |
| CoreLaws.TxtChar | core.js:39-44 | a one-character text matches exactly that character at the offset |
| CoreLaws.RngMatch | abnf.js:27-34 | `rng(lo, hi)` matches one character iff its code is in `[lo, hi]`, and fails at the end of the input |
| CoreLaws.ChrMatch | abnf.js:41-45 | `chr()` matches one character iff the input is not exhausted |
| CoreLaws.OptNeverFails | core.js:56-60 | `opt(p, d)` never fails: p's result when p matches, else `d` over no characters |
| CoreLaws.ExcMatch | core.js:63-67 | `exc(p, e)` matches iff `e` fails and `p` matches, with p's result; a matching `e` excludes `p` |
| CoreLaws.NotMatch | peg.js:158-162 | `not(p)` gives `undefined` over no characters iff `p` fails, and fails iff `p` matches |
| CoreLaws.AndMatch | peg.js:123 | `&x`, i.e. `not(not(x))`, succeeds consuming nothing iff `x` matches, and fails iff `x` fails |
| CoreLaws.ThenFails | core.js:16-22 | `then` fails exactly as its pattern does; the transform plays no part |
| CoreLaws.ThenMatches | core.js:16-22 | on a match `then` keeps the length and replaces the value by the transform's result, or throws when the transform does |
| CoreLaws.TextIsConsumed | core.then.js:65-69 | `text()` yields the text its pattern consumed |
| CoreLaws.TextAsWrittenKeepsRest | core.js:16-22 | as written, `then` passes the whole rest of the input, so `text()` on the class `[a]` of `[a] [b]` gives `[a] [b]` |
| Core.ThenAsWritten | core.js:16-22 | `then` as written, transforming the value with the whole rest of the input: it fails as its pattern does, keeps the pattern's length, and on a match that consumes the whole rest it is the corrected `then` |
| Core.Lookup | abnf.js:81-85 | what `ref(name)` hands out; stated by `CoreLaws.LookupAgrees` |
| CoreLaws.LookupAgrees | abnf.js:81-85 | handing out a defined rule's own pattern and handing out a lazy reference give the same outcome, once the run-time table holds the defined rules |
| CoreLaws.RefLookup | abnf.js:81-85 | a lazy reference runs the rule its table holds when it runs; a name the table lacks throws |
| CoreLaws.AnyFirst | core.js:70-78 | `any` gives the result of the lowest-index alternative that does not fail; later ones play no part |
| CoreLaws.AnyOfTwo | core.js:70-78 | of two alternatives, the first decides unless it fails |
| CoreLaws.AnyOfThree | core.js:70-78 | of three alternatives, the first that does not fail decides |
| CoreLaws.AnyFails | core.js:70-78 | `any` fails iff every alternative fails |
| CoreLaws.SeqComplete | core.js:81-95 | parts that each match where the previous one stopped make `seq` match, with their values in order and the sum of their lengths |
| CoreLaws.SeqSound | core.js:81-95 | conversely every match of `seq` comes from such a run of its parts |
| CoreLaws.SeqFails | core.js:86-88 | a part that fails after the previous ones matched makes `seq` fail, with no partial result |
| CoreLaws.RepFirstFails | core.js:101-109 | `rep` fails when its first match is absent or consumes nothing |
| CoreLaws.RepFirstMatches | core.js:101-109 | otherwise `rep` does not fail |
| CoreLaws.RepLoopResult | core.js:103-109 | the loop keeps what it collected, never moves back, and stops at once or where the next separated step fails or consumes nothing |
| CoreLaws.RepMatch | core.js:98-111 | a match of `rep` has at least one element, the first being p's match, consumes something within the input, and is greedy: one more separated step would fail or consume nothing |
| CoreLaws.SeparatedMatch | core.js:99 | the separated step runs the separator, then the element, failing as the first that fails, and otherwise gives the element over both lengths |
| CoreLaws.TrailingSeparator | core.js:99-107 | a separator with no element after it stops `rep`, so it is left unconsumed |
| Transforms.Apply | core.then.js:12-94 | runs one built-in transform or a callback; stated case by case by the rows that follow and by `Safety.OutSound` |
| Transforms.SelectOf | core.then.js:12-16 | `select`; stated by `Transforms.SelectIndex` and `SelectAfterAs` |
| Transforms.MapFields | core.then.js:26-33 | `map`; stated by `Transforms.MapFieldsOfList` and `MapObject` |
| Transforms.ParseIntOf | core.then.js:35-39 | `parseInt`; stated by `Transforms.ParseIntDigits`, `ParseIntPlain` and `ParseIntRoundTrip` |
| Transforms.MergeOf | core.then.js:47-51 | `merge`; stated by `Transforms.MergeSnoc`, `MergeLength` and `MergeConcat` |
| Transforms.SliceOf | core.then.js:59-63 | `slice`; stated by `Transforms.SliceBounds`, `SliceStrip` and `SliceInside` |
| Transforms.JoinOf | core.then.js:71-78 | `join`; stated by `Transforms.JoinKeys`, `JoinLastWins` and `JoinRecords` |
| Transforms.FlattenOf | core.then.js:80-94 | `flatten`; stated by `Transforms.LeavesAreFlat`, `LeavesOfFlat`, `FlattenIdempotent` and `FlattenArray` |
| Transforms.SelectIndex | core.then.js:12-16 | `select(i)` gives element `i`, or `undefined` out of range or on an absent value |
| Transforms.AsOf | core.then.js:18-24 | `as(name)` yields an object whose only key is `name` |
| Transforms.SelectAfterAs | core.then.js:12-24 | selecting the name `as` wrapped under gives the value back |
| Transforms.AsTwice | core.then.js:18-24 | two `as` calls nest, the later name outermost |
| Transforms.MapFieldsOfList | core.then.js:26-33 | `map(mapping)` on a list yields an object with exactly the mapping's keys, each bound to the element at its index or `undefined` |
| Transforms.MapObject | core.then.js:26-33 | the `for` loop filling the fresh object computes `map` |
| Transforms.ParseIntDigits | core.then.js:35-39 | `parseInt(radix)` reads a well-formed digit string, followed by anything but a digit, as the number it denotes |
| Transforms.ParseIntRoundTrip | core.then.js:35-39 | the numeral of `n` in any radix 2-36 parses back to `n` |
| Transforms.ParseIntPlain | core.then.js:35-39 | a string that starts with a digit is read as the value of its longest digit prefix |
| Transforms.MergeSnoc | core.then.js:47-51 | appending an element adds the separator and that element's text |
| Transforms.MergeLength | core.then.js:47-51 | the merged text is as long as the parts plus one separator between neighbours |
| Transforms.MergeConcat | core.then.js:47-51 | with the default separator, `merge` concatenates the parts in order |
| Transforms.SliceBounds | core.then.js:59-63 | the bounds `slice` picks lie within the value |
| Transforms.SliceStrip | abnf.js:38 | `slice(1, -1)` strips the first and last character |
| Transforms.SliceInside | core.then.js:59-63 | a start and end inside the string select exactly that part |
| Transforms.JoinKeys | core.then.js:71-78 | `join(key, val)` has exactly one key per element's `key` |
| Transforms.JoinLastWins | core.then.js:71-78 | an element's key holds that element's `val` when no later element repeats the key: the last occurrence wins |
| Transforms.JoinRecords | core.then.js:71-78 | the `for` loop of `join` computes the fold |
| Transforms.LeavesAreFlat | core.then.js:80-94 | `flatten` yields a list containing no list |
| Transforms.LeavesOfFlat | core.then.js:80-94 | a flat list is left unchanged |
| Transforms.FlattenIdempotent | core.then.js:80-94 | flattening twice is flattening once |
| Transforms.FlattenArray | core.then.js:81-89 | the loop with `push` and `concat` yields the leaves left to right |
| Values.ToNumber | abnf.js:129 | unary `+` reads a string of decimal digits as its number and gives a number, NaN or Infinity |
| Values.GetIndex | core.then.js:12-16 | an integer key reads the list element at that position, and `undefined` outside the list |
| Values.NumeralRoundTrip | core.then.js:35-39 | reading the numeral of `n` in a radix gives `n` |
| Lexical.Plus | abnf.js:123-125 | a `[...]+` class matches iff the input starts with one of its characters, taking the whole run |
| Lexical.Padded | abnf.js:147 | `\s*c\s*` matches iff white space then `c` starts the input, taking both white-space runs whole |
| Lexical.Spaced | peg.js:114 | `\s+c\s+` is `\s*c\s*` with both runs non-empty |
| Lexical.RuleName | abnf.js:158 | an ABNF rule name is a letter followed by the longest run of letters, digits and dashes |
| Lexical.AnyChar | peg.js:153 | `[\u0000-￿]` matches one character iff there is one |
| Lexical.Quoted | abnf.js:36-38 | `lq[\x20-\x7E]*?rq` matches from `lq` to the first `rq` over printable characters, and fails iff there is no such `rq` |
| Core.ParseBy | abnf.js:50-54 | `parse` on a meta-grammar: a syntax error carrying the prefix and the text iff the meta-grammar fails; the matched value iff it matches; an exception iff the meta-grammar throws |
| Abnf.Parse | abnf.js:50-54 | the text throws `Invalid ABNF rule: ` followed by the text iff `ABNF.pattern` fails on it; otherwise `parse` gives what `ABNF.pattern` matched, or the exception it threw |
| Abnf.Compile | abnf.js:56-66 | the nine node kinds of `compile`, tried in the source's order; stated by `AbnfLaws.CompileAstOf` (compile inverts the syntax tree) and `AbnfLaws.CompileClosed` (its lazy names) |
| Abnf.NumVal | abnf.js:20-25 | `numval`; stated by `AbnfLaws.NumValRange`, `NumValSingle` and `NumValFails` |
| Abnf.QuotedText | abnf.js:36-39 | `quoted(lq, rq)`; its regular expression is stated by `Lexical.Quoted`, and `AbnfExample.QuotedFails` states that the three quoted forms of an element fail where no opening quote starts the text |
| Abnf.RepeatRule | abnf.js:127-130 | the rule `repeat`; stated by `AbnfLaws.RepeatRangeOf` and `RepeatExactOf` |
| Abnf.RepetitionRule | abnf.js:132-136 | the rule `repetition`; its node is stated by `AbnfLaws.RepetitionNodeOf`, and `AbnfExample.RepetitionName` states that a rule name is a bare element |
| Abnf.ExclusionRule | abnf.js:138-140 | the rule `exclusion`; its node is stated by `AbnfLaws.ExclusionNodeOf`, and `AbnfExample.ExclusionName` runs it on a rule name |
| Abnf.ConcatenationRule | abnf.js:142-144 | the rule `concatenation`; its node is stated by `AbnfLaws.UnwrapOf`, and `AbnfExample.ConcatenationOfExclusion` runs it on one exclusion |
| Abnf.AlternationRule | abnf.js:146-148 | the rule `alternation`; its node is stated by `AbnfLaws.UnwrapOf`, and `AbnfExample.AlternationAB` runs it on `a / b` |
| Abnf.SeparatorRule | abnf.js:150-151 | the rule `separator`; `AbnfSafety.GroupAccepted` states that it cannot throw |
| Abnf.ElementRule | abnf.js:153-168 | the rule `element` with its seven alternatives in order; `AbnfExample.ElementName` and `ElementFails` state what it does on a rule name and where it fails |
| Abnf.MetaRules | abnf.js:113-171 | the rules of `ABNF.pattern`; stated by `AbnfLaws.MetaRuleNames` and `MetaLazyNames` |
| Abnf.MetaGrammar | abnf.js:170 | `ABNF.pattern`, the rule `alternation`; `AbnfSafety.MetaTyped` states that it cannot throw |
| Abnf.CompileAll | abnf.js:57 | compiling a list of trees gives one pattern per tree |
| AbnfLaws.RepeatRangeOf | abnf.js:129 | `a*b` gives `{min: a, max: b}` with an empty `a` read as 0 and an empty or zero `b` as unbounded |
| AbnfLaws.RepeatExactOf | abnf.js:130 | `n` gives `{min: n, max: n}` |
| AbnfLaws.RepetitionNodeOf | abnf.js:133-135 | `repeat [separator] element` gives the element under `rep`, the separator under `sep` and the repeat's bounds |
| AbnfLaws.ExclusionNodeOf | abnf.js:139-140 | `a ~ b` gives `{exc: [a, b]}`; without the `~` part, `a` unchanged |
| AbnfLaws.UnwrapOf | abnf.js:143-148 | one item is returned as it is, several are tagged `seq` or `any` |
| AbnfLaws.NumberMatches | abnf.js:21 | a digit run matches in full and is read in the radix |
| AbnfLaws.NumberFails | abnf.js:21 | no digit, no number |
| AbnfLaws.RangeForm | abnf.js:23 | `prefix n1-n2` matched by the range form gives `{min: n1, max: n2}` |
| AbnfLaws.SingleForm | abnf.js:24 | `prefix n` matched by the single form gives `{min: n, max: n}` |
| AbnfLaws.RangeFormFails | abnf.js:23 | the range form fails when no `-` and second number follow the first |
| AbnfLaws.FailsAtNumber | abnf.js:22-24 | with no digit after the prefix neither form matches |
| AbnfLaws.FailsAtPrefix | abnf.js:22-24 | without the prefix neither form matches |
| AbnfLaws.NumValRange | abnf.js:20-25 | `numval` on `prefix n1-n2` gives `{min: n1, max: n2}` over the whole text, the range form being tried first |
| AbnfLaws.NumValSingle | abnf.js:20-25 | `numval` on a lone `prefix n` gives `{min: n, max: n}` |
| AbnfLaws.NumValFails | abnf.js:20-25 | `numval` fails iff the prefix or the digit after it is missing |
| AbnfLaws.MetaRuleNames | abnf.js:122-168 | `ABNF.pattern` defines exactly its ten rules |
| AbnfLaws.MetaRefOf | abnf.js:116-120 | the meta-grammar's `ref` is the rule itself once defined and a lazy reference to that name before |
| AbnfLaws.MetaLazyNames | abnf.js:113-171 | only `separator` and `element` are referred to before they are defined, and both are defined by the end |
| AbnfLaws.CompileClosed | abnf.js:56-66 | a compiled rule refers lazily only to names `compile` passed to `ref` or names the table already holds |
| AbnfLaws.CompileRepClosed | abnf.js:59 | the same for `rep` nodes |
| AbnfLaws.CompileListClosed | abnf.js:57-64 | the same for `seq`, `any` and `exc` nodes |
| AbnfLaws.CompileAllClosed | abnf.js:57 | the same for a list of trees |
| AbnfLaws.CompileExc | abnf.js:64 | an `exc` node of two trees compiles to `exc` of the two, its names being theirs in order |
| AbnfLaws.CompileAstOf | abnf.js:56-66 | `compile` inverts the syntax tree: the tree of an ABNF pattern compiles back to it (`opt` with no default), handing `ref` exactly its references |
| AbnfLaws.CompileAstOfLeaf | abnf.js:61-65 | the same for `rng`, `txt`, `chr` and `ref` leaves |
| AbnfLaws.CompileAstOfList | abnf.js:57-58 | the same for `seq` and `any` nodes, children in order |
| AbnfLaws.CompileAstOfWrapper | abnf.js:59-64 | the same for `rep`, `opt` and `exc` nodes |
| AbnfLaws.CompileAstOfRep | abnf.js:59 | the same for `rep` nodes with and without a separator |
| AbnfLaws.CompileAstOfAll | abnf.js:57 | the same for a list of trees |
| AbnfLaws.ParseFuelMono | abnf.js:50-54 | the tree or error `parse` gives does not depend on the fuel once it suffices |
| Peg.CharAt | peg.js:150-153 | a character of a quoted string takes one or two input characters |
| Peg.Unquote | peg.js:155 | the decoded run is no longer than the input it takes, and empty when it takes nothing |
| Peg.QuotedAt | peg.js:149-156 | a quoted string starts with `lq` and ends with `rq` |
| Peg.Escape | peg.js:151-152 | the model's own encoder, which the source does not have: it writes a text with the escapes that peg.js:151-152 decodes, and never shortens it. It is the inverse that `PegLaws.QuotedRoundTrip` uses |
| Peg.Parse | peg.js:24-28 | the text throws `Invalid PEG rule: ` followed by the text iff `PEG.pattern` fails on it; otherwise `parse` gives what `PEG.pattern` matched, or the exception it threw |
| Peg.QuotedString | peg.js:149-156 | `str(lq, rq)`; stated by `PegLaws.QuotedExec` and `QuotedRoundTrip` |
| Peg.AltRule | peg.js:114 | the rule `alt`; `PegLaws.AltRuleNames` gives its lazy names and `PegSafety.AltAccepted` says it gives objects and cannot throw |
| Peg.SeqRule | peg.js:115 | the rule `seq`; `PegLaws.SeqRuleNames` and `PegSafety.SeqAccepted` do the same for it |
| Peg.ExcRule | peg.js:116 | the rule `exc`; likewise `PegLaws.ExcRuleNames` and `PegSafety.ExcAccepted` |
| Peg.AtmRule | peg.js:117 | the rule `atm`; likewise `PegLaws.AtmRuleNames` and `PegSafety.AtmAccepted` |
| Peg.TxtRule | peg.js:118 | the rule `txt`; likewise `PegLaws.TxtRuleNames` and `PegSafety.TxtAccepted` |
| Peg.ChrRule | peg.js:119 | the rule `chr`; `PegSafety.ChrAccepted` says it gives objects and cannot throw |
| Peg.RefRule | peg.js:120 | the rule `ref`; `PegLaws.MetaRuleClosed` covers it |
| Peg.TrmRule | peg.js:121-127 | the rule `trm`; `PegLaws.TrmRuleNames`, `LabelNodeOf`, `QuantNodeOf`, `AndTermExec`, `NotTermExec` and `PegSafety.TrmAccepted` state its alternatives |
| Peg.GrpRule | peg.js:128 | the rule `grp`; likewise `PegLaws.GrpRuleNames` and `PegSafety.GrpAccepted` |
| Peg.QtfRule | peg.js:129 | the rule `qtf`; stated by `PegLaws.QtfExec`, `QtfRuleNames` and `PegSafety.QtfAccepted` |
| Peg.SepRule | peg.js:130 | the rule `sep`; likewise `PegLaws.SepRuleNames` and `PegSafety.SepAccepted` |
| Peg.LblRule | peg.js:131 | the rule `lbl`; `PegLaws.MetaRuleClosed` covers it |
| Peg.MetaRule | peg.js:113-133 | the table `compose` fills; `PegLaws.MetaRuleClosed` gives each rule's lazy names and `PegSafety.RuleAccepted` its shape |
| Peg.Compile | peg.js:30-41 | the ten node kinds of `compile`, tried in the source's order; stated by `PegLaws.CompileClosed` and `CompileAnd` |
| Peg.CompileRep | peg.js:43-45 | `compile_rep`; `PegLaws.CompileRepOf` unfolds it and `CompileRepIgnoresMin` states its consequence |
| Peg.CompileDef | peg.js:47-50 | `compile_def`; `PegLaws.CompileDefKey` unfolds it and `DefOfExec` states what the keyed pattern matches |
| Peg.CompileAlt | peg.js:52-55 | `compile_alt`; `PegLaws.CompileAltCases` unfolds it and `AnyOfOne` states that the unwrapping is harmless |
| Peg.CompileSeq | peg.js:57-68 | `compile_seq`; `PegLaws.CompileSeqCases` unfolds it and `LabelledSeqExec` states what the labelled case matches |
| Peg.CompileExc | peg.js:40 | the `exc` node; `PegLaws.CompileExcClosed` states its lazy names |
| Peg.CompileAll | peg.js:58 | compiling a list of trees gives one pattern per tree |
| Peg.LabelMap | peg.js:58-65 | the `forEach` building `m` leaves it absent when no element is labelled and otherwise binds each label to its last index |
| PegLaws.EscapedExec | peg.js:151-152 | a backslash followed by a delimiter stands for the delimiter |
| PegLaws.PlainExec | peg.js:153 | any character but `rq` stands for itself |
| PegLaws.StrCharExec | peg.js:150-153 | one step of the character pattern is one step of the decoder |
| PegLaws.RepStr | peg.js:155 | `rep(chr)` matches iff the decoder reads a character, and collects the decoded characters |
| PegLaws.StrBodyExec | peg.js:155 | the body never fails and gives the decoded text, empty when nothing decodes |
| PegLaws.MergeChars | peg.js:155 | `merge('')` of the collected characters is the text they spell |
| PegLaws.QuotedExec | peg.js:149-156 | `str(lq, rq)` matches exactly where a decoded run lies between `lq` and `rq`, and gives the decoded text over the whole length |
| PegLaws.QuotedUnclosed | peg.js:149-156 | a decoded run not followed by `rq` makes `str(lq, rq)` fail |
| PegLaws.UnquoteEscape | peg.js:150-155 | decoding an escaped text gives it back and stops at the closing delimiter |
| PegLaws.QuotedRoundTrip | peg.js:149-156 | `str(lq, rq)` reads back any text written escaped between the delimiters, whatever follows |
| PegLaws.LabelNodeOf | peg.js:122 | `lbl:trm` puts the label on the term's node and keeps the rest of it |
| PegLaws.QuantNodeOf | peg.js:126 | `atm qtf` puts the atom on the quantifier's node under `rep` |
| PegLaws.QuantSignExec | peg.js:129 | `+` reads as 1, `*` as 0, and nothing else is a quantifier |
| PegLaws.QtfExec | peg.js:129 | a quantifier gives `{sep, min}`, `min` 1 for `+` and 0 for `*`, and fails without a sign |
| PegLaws.AndTermExec | peg.js:123 | `&x` reads as `{not: {not: x}}` |
| PegLaws.NotTermExec | peg.js:124 | `!x` reads as `{not: x}` |
| PegLaws.MetaRulesClosed | peg.js:113-147 | every lazy reference of `PEG.pattern` names one of its rules |
| PegLaws.MetaRuleClosed | peg.js:113-133 | each rule refers lazily only to rules `compose` defines |
| PegLaws.AltRuleNames | peg.js:114 | `alt` refers to `seq` |
| PegLaws.SeqRuleNames | peg.js:115 | `seq` refers to `exc` and `trm` |
| PegLaws.ExcRuleNames | peg.js:116 | `exc` refers to `trm` |
| PegLaws.AtmRuleNames | peg.js:117 | `atm` refers to `txt`, `grp`, `chr` and `ref` |
| PegLaws.TxtRuleNames | peg.js:118 | `txt` refers to no rule |
| PegLaws.QuotedNames | peg.js:149-156 | `str` refers to no rule |
| PegLaws.TrmRuleNames | peg.js:121-127 | `trm` refers to `lbl`, `trm`, `txt`, `grp`, `chr`, `ref` and `qtf` |
| PegLaws.LabelTermNames | peg.js:122 | a labelled term refers to `lbl` and `trm` |
| PegLaws.PrefixTermNames | peg.js:123-124 | `&` and `!` terms refer to `trm` |
| PegLaws.OptTermNames | peg.js:125 | `atm?` refers to what `atm` refers to |
| PegLaws.QuantTermNames | peg.js:126 | a quantified atom refers to what `atm` refers to and `qtf` |
| PegLaws.GrpRuleNames | peg.js:128 | `grp` refers to `def` and `lbl` |
| PegLaws.QtfRuleNames | peg.js:129 | `qtf` refers to `sep` |
| PegLaws.SepRuleNames | peg.js:130 | `sep` refers to `def` |
| PegLaws.ParseFuelMono | peg.js:24-28 | the tree or error `parse` gives does not depend on the fuel once it suffices |
| PegLaws.LabelsSpec | peg.js:60-65 | the label map holds exactly the labels the elements carry, each bound to the last element carrying it |
| PegLaws.LabelsIndex | peg.js:60-65 | each label is bound to an index in range whose element carries it and after which none does |
| PegLaws.LabelsHas | peg.js:60-65 | every label an element carries is in the map |
| PegLaws.LabelsEmpty | peg.js:60-67 | the map is empty iff no element is labelled |
| PegLaws.CompileSeqCases | peg.js:57-68 | with a label, the sequence mapped through the label map; without, one element unwrapped or several as `seq` |
| PegLaws.LabelledSeqExec | peg.js:67 | a labelled sequence yields one field per label, holding the part at the label's index |
| PegLaws.CompileAltCases | peg.js:52-55 | one alternative unwrapped, several as `any` |
| PegLaws.AnyOfOne | peg.js:54 | unwrapping a single alternative changes nothing |
| PegLaws.CompileDefKey | peg.js:47-50 | a group with a truthy key selects that key, without one it is the group's pattern |
| PegLaws.DefOfExec | peg.js:49 | a keyed group gives the key's part of what the group matched, over the same text |
| PegLaws.CompileRepOf | peg.js:43-45 | `compile_rep` repeats the atom, with the separator when `sep` is truthy |
| PegLaws.CompileRepIgnoresMin | peg.js:44 | `min` 0 and `min` 1 give the same pattern, as `rep` takes no `min` |
| PegLaws.CompileAnd | peg.js:35 | `{not: {not: x}}` compiles to a double lookahead that succeeds consuming nothing iff `x` matches |
| PegLaws.CompileClosed | peg.js:30-41 | a compiled rule refers lazily only to names `compile` passed to `ref` or names the table already holds |
| PegLaws.CompileDefClosed | peg.js:47-50 | the same for groups |
| PegLaws.CompileRepClosed | peg.js:43-45 | the same for repetitions |
| PegLaws.CompileExcClosed | peg.js:40 | the same for exceptions |
| PegLaws.CompileListClosed | peg.js:52-68 | the same for sequences and alternatives |
| PegLaws.CompileAllClosed | peg.js:58 | the same for a list of trees |
| Rules.BuildResult | abnf.js:68-79 | what `build` gives; `Rules.Grammar.Build` is proved against it and `RulesLaws.BuildClosed` states its lazy names |
| Rules.Fill | abnf.js:93-94 | the loop over the rules; stated by `RulesLaws.FillWellFormed`, `FillTable` and `FillClosed` |
| Rules.FirstNone | abnf.js:98-100 | the check for undefined names; stated by `RulesLaws.FirstNoneSpec`, `FirstNoneFirst` and `AllDefined` |
| Rules.InitRun | abnf.js:87-103 | what `init` gives; `Rules.Grammar.Init` is proved against it, and `RulesLaws.InitUndefined` and `InitClosed` state what it promises |
| Rules.Grammar.constructor | abnf.js:48 | a grammar starts with an empty rule table |
| Rules.Grammar.Ref | abnf.js:81-85 | `ref` hands out the defined rule or a lazy reference, and records a new name as not yet defined |
| Rules.Grammar.Build | abnf.js:68-79 | `build` gives a regular expression, function or pattern as it is, and compiles text on the table as it was, recording the names `compile` asks for |
| Rules.Grammar.RefAll | abnf.js:65 | the calls of `ref` that `compile` makes record their names in order |
| Rules.Grammar.Define | abnf.js:94 | `refs[name] = p` defines the name, keeping its place |
| Rules.Grammar.FirstUndefined | abnf.js:98-100 | the check finds the first name, in the table's order, that is not defined |
| Rules.Grammar.Init | abnf.js:87-103 | `init` gives what the fold over the rules, the build of the definition and the check give, and leaves that table |
| RulesLaws.RecordedEntries | abnf.js:81-85 | `ref` only adds names, as not defined, and keeps every entry it finds |
| RulesLaws.RecordedLookup | abnf.js:81-85 | recording names never changes what `ref` hands out |
| RulesLaws.RecordedWellFormed | abnf.js:82 | the table's order lists each key once however many names `ref` records |
| RulesLaws.FillWellFormed | abnf.js:93-94 | the loop over the rules keeps that so |
| RulesLaws.FillTable | abnf.js:93-94 | after the rules, the table holds every rule's name and every name they refer to, and a name is defined iff some rule defines it |
| RulesLaws.FirstNoneSpec | abnf.js:98-100 | the check finds a name iff one is undefined, and the one it finds is undefined |
| RulesLaws.FirstNoneFirst | abnf.js:98-100 | the name it finds comes no later than any undefined name |
| RulesLaws.AllDefined | abnf.js:98-100 | a table in which the check finds nothing has every name defined |
| RulesLaws.InitUndefined | abnf.js:87-103 | when every definition builds, `init` fails iff some definition refers to a name no rule defines, and then throws `Rule is not defined: ` with such a name |
| RulesLaws.BuildClosed | abnf.js:68-79 | `build` refers lazily only to names it records or the table holds |
| RulesLaws.FillClosed | abnf.js:93-94 | the loop over the rules keeps every defined rule's references within the table |
| RulesLaws.InitTableClosed | abnf.js:87-103 | when the check passes, the table is fully defined and every rule and the grammar refer lazily only to its rules |
| Safety.OutSound | core.then.js:12-94 | a transform `Out` accepts on a shape succeeds on every value of that shape, and its value has the shape `Out` gives |
| Safety.CustomRecord | core.js:16-22 | a callback that gives an object on every value of a shape is accepted on that shape, with objects as its values |
| Safety.ExecSafe | core.js:38-111 | a pattern `Infer` accepts, run on a table whose rules have the shapes it assumes, never throws, and its values have the inferred shape |
| AbnfSafety.MetaTyped | abnf.js:113-171 | the rules of `ABNF.pattern` meet what `Infer` assumes of them, and `Infer` accepts `ABNF.pattern` |
| AbnfSafety.ParseNeverThrows | abnf.js:50-54 | `ABNF.pattern` never throws, so `parse` gives a tree or the `Invalid ABNF rule` error (or, in the model only, runs out of fuel) |
| PegSafety.MetaTyped | peg.js:113-147 | the rules of `PEG.pattern` meet what `Infer` assumes of them, and `PEG.pattern` gives objects |
| PegSafety.ParseNeverThrows | peg.js:24-28 | `PEG.pattern` never throws, so `parse` gives an object or the `Invalid PEG rule` error (or, in the model only, runs out of fuel) |
| AbnfExample.ElementName | abnf.js:158 | at a letter, `element` reads the rule name as `{ref: name}` over the longest name |
| AbnfExample.ElementFails | abnf.js:153-168 | `element` fails at a character that starts none of its alternatives |
| AbnfExample.RepetitionName | abnf.js:132-136 | at a letter, a repetition is the bare element, as no repeat count can start there |
| AbnfExample.ExclusionName | abnf.js:138-140 | a rule name with no `~` after it is an exclusion of one part, the name's node unchanged |
| AbnfExample.ConcatenationOfExclusion | abnf.js:142-144 | an exclusion followed by white space and then no exclusion is a concatenation of one, the exclusion's node unchanged and the white space left unconsumed |
| AbnfExample.ConcatenationAtA | abnf.js:142-144 | in `a / b`, the concatenation at the start is `a` alone, since no exclusion starts at the `/` |
| AbnfExample.AlternationOfConcatenations | abnf.js:146-148 | any concatenation rule that reads `a` at 0 and `b` at 4 makes `alternation` read `a / b` whole as the choice of the two |
| AbnfExample.AlternationAB | abnf.js:146-148 | `alternation` reads `a / b` whole as `{any: [{ref: "a"}, {ref: "b"}]}` |
| AbnfExample.ParseAB | abnf.js:50-54 | `parse` gives `{any: [{ref: "a"}, {ref: "b"}]}` for the ABNF text `a / b` |
| RulesLaws.InitClosed | abnf.js:87-103 | after a successful `init` every name is defined, and the grammar and its rules refer lazily only to defined rules, so no lazy reference throws for want of its rule |

## Left out

- The function form of `rules` (abnf.js:90-91, peg.js:92-93) is left out, because it runs arbitrary user code that calls `build` itself. The rules are given as a list of name and definition pairs.
- Integer-like rule names are left out. JavaScript visits them first in `for (name in …)`; the model visits every name in insertion order.
- Pattern names and `toString` are left out. This covers the display name `build` passes along and the `Pattern.call(self, pattern + '', …)` of `init`. The model's grammar is the pattern `init` returns.
- The JavaScript regular-expression engine is left out. `rgx` takes any matcher, and PEG's character classes go through the parameter `rx`.
- `parseFloat` and `trim` are left out, because they involve floating point and Unicode white space.
- core.debug.js is left out: it is console tracing.
- The `module`/`window` export blocks are environment wiring and are left out.
- The state of the rule table after `init` throws is left out, because the constructor throws and no caller can see it.
- User transform callbacks that throw are left out as code. `Thrown` is only the result of the built-in transforms on a value of the wrong shape.
- `OutOfFuel` has no counterpart in the source; `CoreLaws.ExecFuelMono` shows that more fuel never changes any other answer.
- Rules.Grammar.Init: on failure it states only the result, not the table left behind.
- RulesLaws.InitUndefined: it assumes that every definition builds. Otherwise the earlier parse or compile error is what `init` throws.
- RulesLaws.InitClosed: it assumes that ready-made patterns passed as rules do not themselves refer lazily into the grammar being built, which `init` cannot check.
- Abnf.Compile and Peg.Compile: a tree the meta-grammar cannot produce gives `None`. JavaScript would throw there, or go on with `undefined`.
- PegLaws.CompileRepOf: the repetition ignores `min`, as core.js's `rep` does, so `*` does not allow zero repetitions.
- A function definition is modelled as a matcher on the rest of the input, as `exec` calls it in core.js.
- UTF-16 code units are left out: a Dafny character is a Unicode scalar value. So `rng` (abnf.js:27-34) compares the code of a whole character where the source compares `charCodeAt`. `%x10000-10FFFF` matches an astral character in the model and never in the source. `%xD800-DFFF` matches half of a surrogate pair in the source, and no model string holds such a half. `chr()` (abnf.js:41-45) and `[\u0000-\uffff]` (peg.js:153) take half of an astral character in the source and the whole character in the model.
- Object.prototype is left out: `refs` and the objects the transforms build are maps with no inherited keys. In the source `refs[name]` (abnf.js:82) is a function for the rule names `constructor`, `toString`, `valueOf` and `hasOwnProperty`. `ref` then hands out that function, and the check at abnf.js:98-100 does not report the rule as undefined. The model's `Core.Lookup`, `Rules.Note` and `RulesLaws.InitUndefined` treat such a name like any other. Likewise `as`, `join` and `map` with the key `__proto__` set the prototype in the source and a field in the model.
- Floating point is left out: `Num` is an unbounded integer, while JavaScript numbers are doubles. `parseInt` of a numeral above 2^53 loses precision in the source and not in the model, and `String(n)` of a number from 10^21 up is written with an exponent (`1e+21`) in the source and in full in the model.

## Findings

| source | as written | input that shows it | evidently intended | confidence | as-written member | corrected member |
|---|---|---|---|---|---|---|
| core.js:16-22 | `then` passes the transform `str`, the whole input the pattern ran on, so `text()` (core.then.js:65-69) yields the rest of the input, not what the pattern consumed | the PEG rule `[a] [b]`: the class rule (peg.js:119) gives the source `[a] [b]` to `new RegExp` instead of `[a]` (test/peg.js:148-150 expects `[a]` alone) | the transform receives the consumed text `str.slice(0, r.end)` | not executed | CoreLaws.TextAsWrittenKeepsRest | CoreLaws.TextIsConsumed |
