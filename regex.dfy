/**
 * The regular expressions of the transpiler, the uniform parser and the
 * diagnostic remapper, each written out as an explicit matcher, together with
 * the three ways JavaScript applies a regular expression: `test`/`match`
 * (leftmost match), `replace` with the `g` flag (every match, left to right,
 * resuming after each one) and `replace` without it (the leftmost match only).
 *
 * None of the patterns looks behind its start (there is no `^`, `\b` or
 * lookbehind), so a matcher only needs the text from its start onwards: a
 * matcher takes that suffix. Every greedy run in these patterns (`\s*`, `\s+`,
 * `\w+`, `[0-9]+`, ...) is followed by a character outside its class, so the
 * longest run is the only one the rest of the pattern can accept and
 * backtracking into a run never helps; alternations are tried in their
 * written order, the first alternative for which the rest of the pattern
 * matches winning, as in JavaScript's backtracking.
 */
module Regex {
  import opened Wrappers
  import opened Text

  /** A match at the start of a string: the text it spans and its capture groups. */
  datatype Match = Match(text: string, groups: seq<string>)

  /** The name position of a declaration pattern. */
  datatype Names =
    | AnyIdentifier                      // ([a-zA-Z0-9_]+)
    | OneOf(alternatives: seq<string>)   // (?:n1|n2|...)

  datatype Pattern =
      /** uniform\s+(?:t1|t2|...)\s+NAME\s*;  — groups: [type token, name] */
    | Declaration(types: seq<string>, names: Names)
      /** (\w+)\.eval\s*\(  — groups: [receiver] */
    | EvalCall
      /** layout\s*\(\s*color\s*\)  followed by  \s*  when trailingSpace — no groups */
    | LayoutColor(trailingSpace: bool)
      /** for\s*\(\s*float\s+([a-zA-Z0-9_]+)\s*=\s*([0-9]+)\.0\s*;\s*\1\s*<\s*([0-9]+)\.0\s*;\s*\1\s*\+\+\s*\)
        * — groups: [counter, lower bound, upper bound] */
    | FloatCounterLoop
      /** (half4|vec4|float4)\s+main\s*\(\s*(?:in\s+)?(float2|vec2)\s+([a-zA-Z0-9_]+)\s*\)
        * — groups: [return type, parameter type, parameter name] */
    | MainSignature
      /** #define\s+  — no groups */
    | DefineDirective
      /** for\s*\(.*;\s*[a-zA-Z0-9_]+\s*[<>=]+\s*[a-zA-Z_]  — no groups */
    | DynamicLoop
      /** ERROR:\s+\d+:(\d+):  — groups: [line] */
    | CompileError

  /** Whether pattern `p` matches at the start of `t`, and the match it finds. */
  function MatchPrefix(p: Pattern, t: string): (r: Option<Match>)
    ensures r.Some? ==> r.value.text != [] && r.value.text <= t
  {
    match p
    case Declaration(types, names) => MatchDeclaration(t, types, names)
    case EvalCall => MatchEvalCall(t)
    case LayoutColor(trailingSpace) => MatchLayoutColor(t, trailingSpace)
    case FloatCounterLoop => MatchFloatCounterLoop(t)
    case MainSignature => MainReturn(t, ["half4", "vec4", "float4"])
    case DefineDirective => MatchDefineDirective(t)
    case DynamicLoop => MatchDynamicLoop(t)
    case CompileError => MatchCompileError(t)
  }

  // ---------------------------------------------------------------------------
  // Declarations

  function MatchDeclaration(t: string, types: seq<string>, names: Names): (r: Option<Match>)
    ensures r.Some? ==> r.value.text != [] && r.value.text <= t
  {
    var a :- Literal(t, 0, "uniform");
    var b :- Plus(t, a, Space);
    DeclarationType(t, b, types, names)
  }

  /** The type alternatives of a declaration, tried in order from position `b`. */
  function DeclarationType(t: string, b: nat, types: seq<string>, names: Names): (r: Option<Match>)
    requires b <= |t|
    ensures r.Some? ==> |r.value.text| > b && r.value.text <= t
    decreases |types|
  {
    if types == [] then None
    else
      var r := DeclarationTail(t, b, types[0], names);
      if r.Some? then r else DeclarationType(t, b, types[1..], names)
  }

  /** `ty\s+NAME\s*;` from position `b`. */
  function DeclarationTail(t: string, b: nat, ty: string, names: Names): (r: Option<Match>)
    requires b <= |t|
    ensures r.Some? ==> |r.value.text| > b && r.value.text <= t
  {
    var c :- Literal(t, b, ty);
    var d :- Plus(t, c, Space);
    match names
    case AnyIdentifier =>
      var e :- Plus(t, d, Word);
      Terminated(t, d, e, ty)
    case OneOf(alternatives) => NameAlternatives(t, d, alternatives, ty)
  }

  /** The name alternatives, tried in order from position `d`. */
  function NameAlternatives(t: string, d: nat, alternatives: seq<string>, ty: string): (r: Option<Match>)
    requires d <= |t|
    ensures r.Some? ==> |r.value.text| > d && r.value.text <= t
    decreases |alternatives|
  {
    if alternatives == [] then None
    else if Literal(t, d, alternatives[0]).Some? && Terminated(t, d, d + |alternatives[0]|, ty).Some? then
      Terminated(t, d, d + |alternatives[0]|, ty)
    else NameAlternatives(t, d, alternatives[1..], ty)
  }

  /** `\s*;` after a name spanning `t[d..e]`. */
  function Terminated(t: string, d: nat, e: nat, ty: string): (r: Option<Match>)
    requires d <= e <= |t|
    ensures r.Some? ==> |r.value.text| > e && r.value.text <= t
    ensures r.Some? ==> r.value.groups == [ty, t[d..e]]
  {
    var f := Span(t, e, Space);
    var g :- Literal(t, f, ";");
    Some(Match(t[..g], [ty, t[d..e]]))
  }

  // ---------------------------------------------------------------------------
  // The remaining patterns

  /** `tok0\s*tok1\s*...\s*tokN` from position `i`: where the match ends. */
  function Tokens(t: string, i: nat, toks: seq<string>): (r: Option<nat>)
    requires i <= |t|
    ensures r.Some? ==> i <= r.value <= |t|
    decreases |toks|
  {
    if toks == [] then Some(i)
    else
      var j :- Literal(t, i, toks[0]);
      if |toks| == 1 then Some(j) else Tokens(t, Span(t, j, Space), toks[1..])
  }

  function MatchEvalCall(t: string): (r: Option<Match>)
    ensures r.Some? ==> r.value.text != [] && r.value.text <= t
  {
    var a :- Plus(t, 0, Word);
    var b :- Literal(t, a, ".eval");
    var c := Span(t, b, Space);
    var d :- Literal(t, c, "(");
    Some(Match(t[..d], [t[..a]]))
  }

  function MatchLayoutColor(t: string, trailingSpace: bool): (r: Option<Match>)
    ensures r.Some? ==> r.value.text != [] && r.value.text <= t
  {
    var d :- Tokens(t, 0, ["layout", "(", "color", ")"]);
    var e := if trailingSpace then Span(t, d, Space) else d;
    Some(Match(t[..e], []))
  }

  function MatchFloatCounterLoop(t: string): (r: Option<Match>)
    ensures r.Some? ==> r.value.text != [] && r.value.text <= t
  {
    var c :- Tokens(t, 0, ["for", "(", "float"]);
    var d :- Plus(t, c, Space);
    var e :- Plus(t, d, Word);
    LoopBounds(t, d, e)
  }

  /** `\s*=\s*([0-9]+)` and the rest of the loop header, after the counter `t[d..e]`. */
  function LoopBounds(t: string, d: nat, e: nat): (r: Option<Match>)
    requires d <= e <= |t|
    ensures r.Some? ==> |r.value.text| > e && r.value.text <= t
  {
    var f :- Literal(t, Span(t, e, Space), "=");
    var g := Span(t, f, Space);
    var h :- Plus(t, g, Digit);
    LoopLimit(t, t[d..e], g, h)
  }

  /** `\.0\s*;\s*\1\s*<\s*([0-9]+)\.0\s*;\s*\1\s*\+\+\s*\)` after the lower bound `t[g..h]`. */
  function LoopLimit(t: string, counter: string, g: nat, h: nat): (r: Option<Match>)
    requires g <= h <= |t|
    ensures r.Some? ==> |r.value.text| > h && r.value.text <= t
  {
    var l :- Tokens(t, h, [".0", ";", counter, "<"]);
    var m := Span(t, l, Space);
    var n :- Plus(t, m, Digit);
    var end :- Tokens(t, n, [".0", ";", counter, "++", ")"]);
    Some(Match(t[..end], [counter, t[g..h], t[m..n]]))
  }

  /** The return-type alternatives of the entry point, tried in order. */
  function MainReturn(t: string, alternatives: seq<string>): (r: Option<Match>)
    ensures r.Some? ==> r.value.text != [] && r.value.text <= t
    decreases |alternatives|
  {
    if alternatives == [] then None
    else
      var r := MainAfterReturn(t, alternatives[0]);
      if r.Some? then r else MainReturn(t, alternatives[1..])
  }

  function MainAfterReturn(t: string, ret: string): (r: Option<Match>)
    ensures r.Some? ==> r.value.text != [] && r.value.text <= t
  {
    var a :- Literal(t, 0, ret);
    var b :- Plus(t, a, Space);
    MainName(t, b, ret)
  }

  /** `main\s*\(\s*` and the rest of the signature, from position `b`. */
  function MainName(t: string, b: nat, ret: string): (r: Option<Match>)
    requires b <= |t|
    ensures r.Some? ==> |r.value.text| > b && r.value.text <= t
  {
    var d :- Tokens(t, b, ["main", "("]);
    var e := Span(t, d, Space);
    // (?:in\s+)? is greedy: first with the qualifier, then without it
    var qualified := Qualified(t, e, ret);
    if qualified.Some? then qualified else MainParameter(t, e, ["float2", "vec2"], ret)
  }

  /** `in\s+` and the parameter, from position `e`. */
  function Qualified(t: string, e: nat, ret: string): (r: Option<Match>)
    requires e <= |t|
    ensures r.Some? ==> |r.value.text| > e && r.value.text <= t
  {
    var f :- Literal(t, e, "in");
    var g :- Plus(t, f, Space);
    MainParameter(t, g, ["float2", "vec2"], ret)
  }

  /** The parameter-type alternatives, tried in order from position `i`. */
  function MainParameter(t: string, i: nat, types: seq<string>, ret: string): (r: Option<Match>)
    requires i <= |t|
    ensures r.Some? ==> |r.value.text| > i && r.value.text <= t
    decreases |types|
  {
    if types == [] then None
    else
      var r := MainParameterAs(t, i, types[0], ret);
      if r.Some? then r else MainParameter(t, i, types[1..], ret)
  }

  /** `ty\s+([a-zA-Z0-9_]+)\s*\)` from position `i`. */
  function MainParameterAs(t: string, i: nat, ty: string, ret: string): (r: Option<Match>)
    requires i <= |t|
    ensures r.Some? ==> |r.value.text| > i && r.value.text <= t
  {
    var a :- Literal(t, i, ty);
    var b :- Plus(t, a, Space);
    var c :- Plus(t, b, Word);
    var d :- Literal(t, Span(t, c, Space), ")");
    Some(Match(t[..d], [ret, ty, t[b..c]]))
  }

  function MatchDefineDirective(t: string): (r: Option<Match>)
    ensures r.Some? ==> r.value.text != [] && r.value.text <= t
  {
    var a :- Literal(t, 0, "#define");
    var b :- Plus(t, a, Space);
    Some(Match(t[..b], []))
  }

  function MatchDynamicLoop(t: string): (r: Option<Match>)
    ensures r.Some? ==> r.value.text != [] && r.value.text <= t
  {
    var c :- Tokens(t, 0, ["for", "("]);
    LoopCondition(t, c, Span(t, c, NotLineTerminator))
  }

  /** `.*;\s*[a-zA-Z0-9_]+\s*[<>=]+\s*[a-zA-Z_]` from position `c`: the greedy
    * `.*` runs to the end of the line and gives back characters from the
    * right, so the `;` candidates are tried from `q` down to `c`. */
  function LoopCondition(t: string, c: nat, q: nat): (r: Option<Match>)
    requires c <= q <= |t|
    ensures r.Some? ==> |r.value.text| > c && r.value.text <= t
    decreases q - c
  {
    var r := ConditionAt(t, q);
    if r.Some? || q == c then r else LoopCondition(t, c, q - 1)
  }

  /** `;\s*[a-zA-Z0-9_]+\s*[<>=]+\s*[a-zA-Z_]` with the `;` at position `q`. */
  function ConditionAt(t: string, q: nat): (r: Option<Match>)
    requires q <= |t|
    ensures r.Some? ==> |r.value.text| > q && r.value.text <= t
  {
    var a :- Literal(t, q, ";");
    var b :- Plus(t, Span(t, a, Space), Word);
    var d :- Plus(t, Span(t, b, Space), Comparison);
    var e := Span(t, d, Space);
    if e < |t| && InClass(t[e], IdentStart) then Some(Match(t[..e + 1], [])) else None
  }

  function MatchCompileError(t: string): (r: Option<Match>)
    ensures r.Some? ==> r.value.text != [] && r.value.text <= t
  {
    var a :- Literal(t, 0, "ERROR:");
    var b :- Plus(t, a, Space);
    var c :- Plus(t, b, Digit);
    var d :- Literal(t, c, ":");
    var e :- Plus(t, d, Digit);
    var f :- Literal(t, e, ":");
    Some(Match(t[..f], [t[d..e]]))
  }

  // ---------------------------------------------------------------------------
  // Applying a pattern

  /** A matcher at the start of a string, such as `MatchPrefix(p, _)`. */
  type Matcher = string -> Option<Match>

  /** Every match a matcher reports is a non-empty prefix of its input. */
  ghost predicate Consumes(f: Matcher) {
    forall u :: f(u).Some? ==> f(u).value.text != [] && f(u).value.text <= u
  }

  function MatcherOf(p: Pattern): (f: Matcher)
    ensures Consumes(f)
  {
    u => MatchPrefix(p, u)
  }

  /** The leftmost match: what `test`, `match` and a replace without `g` use. */
  function FindWith(f: Matcher, t: string): (r: Option<(nat, Match)>)
    requires Consumes(f)
    ensures r.Some? ==> r.value.0 < |t| && f(t[r.value.0..]) == Some(r.value.1)
    ensures r.Some? ==> forall k :: 0 <= k < r.value.0 ==> f(t[k..]).None?
    ensures r.None? ==> forall k :: 0 <= k <= |t| ==> f(t[k..]).None?
    decreases |t|
  {
    var here := f(t);
    if here.Some? then Some((0, here.value))
    else if t == [] then None
    else
      var rest := FindWith(f, t[1..]);
      assert forall k :: 1 <= k <= |t| ==> t[1..][k - 1..] == t[k..];
      if rest.Some? then Some((rest.value.0 + 1, rest.value.1)) else None
  }

  /** The leftmost match is the one at the first position where there is one. */
  lemma {:induction false} FindAt(f: Matcher, t: string, k: nat)
    requires Consumes(f) && k <= |t| && f(t[k..]).Some?
    requires forall j :: 0 <= j < k ==> f(t[j..]).None?
    ensures FindWith(f, t) == Some((k, f(t[k..]).value))
    decreases k
  {
    assert t[0..] == t;
    if k > 0 {
      forall j | 0 <= j < k - 1
        ensures f(t[1..][j..]).None?
      {
        assert t[1..][j..] == t[j + 1..];
      }
      assert t[1..][k - 1..] == t[k..];
      FindAt(f, t[1..], k - 1);
    }
  }

  function Find(p: Pattern, t: string): Option<(nat, Match)> {
    FindWith(MatcherOf(p), t)
  }

  /** `regex.test(t)`. */
  predicate Test(p: Pattern, t: string) {
    Find(p, t).Some?
  }

  /** One step of a global replace: a match, or a character no match starts at. */
  datatype Piece = Keep(c: char) | Hit(m: Match)

  /** What a replace with the `g` flag visits: from the left, the match at the
    * current position when there is one (resuming right after it), otherwise
    * the character there (resuming at the next one). */
  function ScanWith(f: Matcher, t: string): seq<Piece>
    requires Consumes(f)
    decreases |t|
  {
    if t == [] then []
    else
      var here := f(t);
      if here.Some? then [Hit(here.value)] + ScanWith(f, t[|here.value.text|..])
      else [Keep(t[0])] + ScanWith(f, t[1..])
  }

  function Scan(p: Pattern, t: string): seq<Piece> {
    ScanWith(MatcherOf(p), t)
  }

  /** The text a sequence of pieces spans. */
  function Source(pieces: seq<Piece>): string {
    if pieces == [] then []
    else (match pieces[0] case Keep(c) => [c] case Hit(m) => m.text) + Source(pieces[1..])
  }

  /** The pieces of a scan tile the scanned text, in order. */
  lemma {:induction false} ScanTiles(f: Matcher, t: string)
    requires Consumes(f)
    ensures Source(ScanWith(f, t)) == t
    decreases |t|
  {
    if t != [] {
      var here := f(t);
      if here.Some? {
        var rest := ScanWith(f, t[|here.value.text|..]);
        ScanTiles(f, t[|here.value.text|..]);
        assert ([Hit(here.value)] + rest)[1..] == rest;
        assert here.value.text + t[|here.value.text|..] == t;
      } else {
        var rest := ScanWith(f, t[1..]);
        ScanTiles(f, t[1..]);
        assert ([Keep(t[0])] + rest)[1..] == rest;
        assert [t[0]] + t[1..] == t;
      }
    }
  }

  /** Whatever holds of every match a matcher can report holds of every match
    * a scan with it visits. */
  lemma {:induction false} ScanHitsSatisfy(f: Matcher, t: string, P: Match -> bool)
    requires Consumes(f)
    requires forall u :: f(u).Some? ==> P(f(u).value)
    ensures forall k :: 0 <= k < |ScanWith(f, t)| && ScanWith(f, t)[k].Hit? ==> P(ScanWith(f, t)[k].m)
    decreases |t|
  {
    if t != [] {
      var here := f(t);
      var rest := if here.Some? then t[|here.value.text|..] else t[1..];
      ScanHitsSatisfy(f, rest, P);
    }
  }

  /** A pre-parsed replacement string: literal text and `$n` references. */
  datatype TemplatePart = Chars(s: string) | Capture(n: nat)

  /** The replacement text a template gives for a match with these groups. */
  function Expand(template: seq<TemplatePart>, groups: seq<string>): string {
    if template == [] then [] else PartText(template[0], groups) + Expand(template[1..], groups)
  }

  /** A literal part stands for itself, `$n` for group `n` when there is one
    * and for itself otherwise. */
  function PartText(part: TemplatePart, groups: seq<string>): string {
    match part
    case Chars(s) => s
    case Capture(n) => if 1 <= n <= |groups| then groups[n - 1] else "$" + ShowNat(n)
  }

  lemma ExpandFrom(template: seq<TemplatePart>, groups: seq<string>, k: nat)
    requires k < |template|
    ensures Expand(template[k..], groups) == PartText(template[k], groups) + Expand(template[k + 1..], groups)
  {
    assert template[k..][1..] == template[k + 1..];
  }

  function RenderTemplate(pieces: seq<Piece>, template: seq<TemplatePart>): string {
    if pieces == [] then []
    else
      (match pieces[0] case Keep(c) => [c] case Hit(m) => Expand(template, m.groups))
      + RenderTemplate(pieces[1..], template)
  }

  function ReplaceAllWith(f: Matcher, t: string, template: seq<TemplatePart>): string
    requires Consumes(f)
  {
    RenderTemplate(ScanWith(f, t), template)
  }

  /** `t.replace(/p/g, template)`. */
  function ReplaceAll(p: Pattern, t: string, template: seq<TemplatePart>): string {
    ReplaceAllWith(MatcherOf(p), t, template)
  }

  /** `t.replace(/p/, template)`: the leftmost match only. */
  function ReplaceFirst(p: Pattern, t: string, template: seq<TemplatePart>): string {
    var found := Find(p, t);
    if found.None? then t
    else
      var (k, m) := found.value;
      t[..k] + Expand(template, m.groups) + t[k + |m.text|..]
  }

  /** One step of a global replace. */
  lemma ReplaceAllStep(f: Matcher, t: string, template: seq<TemplatePart>)
    requires Consumes(f) && t != []
    ensures f(t).Some? ==>
      ReplaceAllWith(f, t, template) == Expand(template, f(t).value.groups) + ReplaceAllWith(f, t[|f(t).value.text|..], template)
    ensures f(t).None? ==> ReplaceAllWith(f, t, template) == [t[0]] + ReplaceAllWith(f, t[1..], template)
  {
    var here := f(t);
    if here.Some? {
      var rest := ScanWith(f, t[|here.value.text|..]);
      assert ([Hit(here.value)] + rest)[1..] == rest;
    } else {
      var rest := ScanWith(f, t[1..]);
      assert ([Keep(t[0])] + rest)[1..] == rest;
    }
  }

  /** A match at the start is replaced, and the global replace goes on with
    * the text after it. */
  lemma ReplaceAllAt(p: Pattern, text: string, groups: seq<string>, rest: string, template: seq<TemplatePart>)
    requires MatchPrefix(p, text + rest) == Some(Match(text, groups))
    ensures ReplaceAll(p, text + rest, template) == Expand(template, groups) + ReplaceAll(p, rest, template)
  {
    ReplaceAllStep(MatcherOf(p), text + rest, template);
    assert (text + rest)[|text|..] == rest;
  }

  /** When the first match starts after `before`, a replace without `g`
    * changes that match only: the text before it and after it is kept. */
  lemma ReplaceFirstAt(p: Pattern, before: string, text: string, groups: seq<string>, rest: string, template: seq<TemplatePart>)
    requires MatchPrefix(p, text + rest) == Some(Match(text, groups))
    requires forall k :: 0 <= k < |before| ==> MatchPrefix(p, (before + text + rest)[k..]).None?
    ensures ReplaceFirst(p, before + text + rest, template) == before + Expand(template, groups) + rest
  {
    FirstMatchAt(p, before, text, groups, rest);
    ReplaceFirstFound(p, before + text + rest, template, |before|, Match(text, groups));
    ThreeParts(before, text, rest);
  }

  /** A match right after a stretch where nothing matches is the first one found. */
  lemma FirstMatchAt(p: Pattern, before: string, text: string, groups: seq<string>, rest: string)
    requires MatchPrefix(p, text + rest) == Some(Match(text, groups))
    requires forall k :: 0 <= k < |before| ==> MatchPrefix(p, (before + text + rest)[k..]).None?
    ensures Find(p, before + text + rest) == Some((|before|, Match(text, groups)))
  {
    var t := before + text + rest;
    assert t[|before|..] == text + rest;
    FindAt(MatcherOf(p), t, |before|);
  }

  lemma ReplaceFirstFound(p: Pattern, t: string, template: seq<TemplatePart>, k: nat, m: Match)
    requires Find(p, t) == Some((k, m))
    ensures k + |m.text| <= |t|
    ensures ReplaceFirst(p, t, template) == t[..k] + Expand(template, m.groups) + t[k + |m.text|..]
  {
    assert MatchPrefix(p, t[k..]) == Some(m);
  }

  lemma ThreeParts(before: string, text: string, rest: string)
    ensures (before + text + rest)[..|before|] == before
    ensures (before + text + rest)[|before| + |text|..] == rest
  {
  }

  /** `test` succeeds on any text that holds a match somewhere. */
  lemma MatchTested(p: Pattern, before: string, u: string)
    requires MatchPrefix(p, u).Some?
    ensures Test(p, before + u)
  {
    assert (before + u)[|before|..] == u;
  }

  /** Without a match anywhere, a global replace leaves the text unchanged. */
  lemma {:induction false} ReplaceAllWithoutMatch(f: Matcher, t: string, template: seq<TemplatePart>)
    requires Consumes(f) && FindWith(f, t).None?
    ensures ReplaceAllWith(f, t, template) == t
    decreases |t|
  {
    if t != [] {
      assert t[0..] == t;
      ReplaceAllStep(f, t, template);
      assert forall k :: 0 <= k <= |t[1..]| ==> t[1..][k..] == t[k + 1..];
      ReplaceAllWithoutMatch(f, t[1..], template);
      assert [t[0]] + t[1..] == t;
    }
  }

  /** A global replace keeps the characters before the first position where
    * the matcher finds something. */
  lemma {:induction false} ReplaceAllSkips(f: Matcher, t: string, template: seq<TemplatePart>, k: nat)
    requires Consumes(f) && k <= |t|
    requires forall j :: 0 <= j < k ==> f(t[j..]).None?
    ensures ReplaceAllWith(f, t, template) == t[..k] + ReplaceAllWith(f, t[k..], template)
    decreases k
  {
    if k == 0 {
      assert t[..0] == [] && t[0..] == t;
    } else {
      assert t[0..] == t;
      ReplaceAllStep(f, t, template);
      forall j | 0 <= j < k - 1
        ensures f(t[1..][j..]).None?
      {
        assert t[1..][j..] == t[j + 1..];
      }
      ReplaceAllSkips(f, t[1..], template, k - 1);
      assert t[1..][k - 1..] == t[k..];
      PrependChar(t, k, ReplaceAllWith(f, t[k..], template));
    }
  }

  lemma PrependChar(t: string, k: nat, after: string)
    requires 0 < k <= |t|
    ensures [t[0]] + (t[1..][..k - 1] + after) == t[..k] + after
  {
    assert t[..k] == [t[0]] + t[1..][..k - 1];
  }

  /** A global replace is a repeated non-global one: the text before the
    * leftmost match is kept, the match is replaced, and the replace goes on
    * after it. */
  lemma ReplaceAllRepeatsFind(f: Matcher, t: string, template: seq<TemplatePart>, k: nat, m: Match)
    requires Consumes(f) && FindWith(f, t) == Some((k, m))
    ensures k + |m.text| <= |t|
    ensures ReplaceAllWith(f, t, template) == t[..k] + Expand(template, m.groups) + ReplaceAllWith(f, t[k + |m.text|..], template)
  {
    ReplaceAllFirstAt(f, t, template, k, m);
  }

  lemma ReplaceAllFirstAt(f: Matcher, t: string, template: seq<TemplatePart>, k: nat, m: Match)
    requires Consumes(f) && k < |t| && f(t[k..]) == Some(m)
    requires forall j :: 0 <= j < k ==> f(t[j..]).None?
    ensures k + |m.text| <= |t|
    ensures ReplaceAllWith(f, t, template) == t[..k] + Expand(template, m.groups) + ReplaceAllWith(f, t[k + |m.text|..], template)
  {
    assert t[k..][..|m.text|] == m.text;
    ReplaceAllSkips(f, t, template, k);
    ReplaceAllHere(f, t[k..], template, m, t[k + |m.text|..]);
  }

  lemma ReplaceAllHere(f: Matcher, u: string, template: seq<TemplatePart>, m: Match, rest: string)
    requires Consumes(f) && u != [] && f(u) == Some(m) && |m.text| <= |u| && rest == u[|m.text|..]
    ensures ReplaceAllWith(f, u, template) == Expand(template, m.groups) + ReplaceAllWith(f, rest, template)
  {
    ReplaceAllStep(f, u, template);
  }
}
