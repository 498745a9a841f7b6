/**
 * What each matcher of the Regex module accepts, stated without the matcher:
 * the text a match spans is a concatenation of literal tokens, whitespace
 * runs, identifiers and digit strings, and the capture groups are the parts
 * the regular expression brackets. Soundness lemmas go from a match to that
 * shape; completeness lemmas go from the shape (followed by anything) to the
 * match the matcher reports.
 */
module Shapes {
  import opened Wrappers
  import opened Text
  import opened Regex

  /** A run of whitespace (`\s*`). */
  predicate Blank(s: string) {
    AllIn(s, Space)
  }

  /** A non-empty run of word characters (`[a-zA-Z0-9_]+`). */
  predicate Identifier(s: string) {
    s != [] && AllIn(s, Word)
  }

  /** A non-empty run of decimal digits (`[0-9]+`). */
  predicate Digits(s: string) {
    s != [] && AllIn(s, Digit)
  }

  /** Whitespace runs `w[0..n)`, the ones at the indices in `plus` non-empty. */
  predicate Spacing(w: seq<string>, n: nat, plus: set<nat>) {
    |w| == n && (forall k :: 0 <= k < n ==> Blank(w[k])) && (forall k :: k in plus && k < n ==> w[k] != [])
  }

  /** Every token is a run of word characters. */
  predicate WordTokens(tokens: seq<string>) {
    forall k :: 0 <= k < |tokens| ==> Identifier(tokens[k])
  }

  /** The names a declaration pattern accepts. */
  predicate NameAllowed(names: Names, name: string) {
    match names
    case AnyIdentifier => Identifier(name)
    case OneOf(alternatives) => name in alternatives
  }

  /** Tokens separated by whitespace runs: toks[0] ws[0] toks[1] ... toks[n]. */
  function Spaced(toks: seq<string>, ws: seq<string>): string
    requires |toks| == |ws| + 1
    decreases |ws|
  {
    if ws == [] then toks[0] else toks[0] + ws[0] + Spaced(toks[1..], ws[1..])
  }

  /** What a match of a token sequence spans. */
  lemma {:induction false} TokensSound(t: string, i: nat, toks: seq<string>) returns (ws: seq<string>)
    requires i <= |t| && toks != [] && Tokens(t, i, toks).Some?
    ensures |ws| + 1 == |toks| && (forall k :: 0 <= k < |ws| ==> Blank(ws[k]))
    ensures t[i..Tokens(t, i, toks).value] == Spaced(toks, ws)
    decreases |toks|
  {
    var j := i + |toks[0]|;
    assert t[i..j] == toks[0] by {
      assert toks[0] <= t[i..];
    }
    if |toks| == 1 {
      ws := [];
    } else {
      var s := Span(t, j, Space);
      var end := Tokens(t, s, toks[1..]).value;
      assert Tokens(t, i, toks).value == end;
      var rest := TokensSound(t, s, toks[1..]);
      ws := [t[j..s]] + rest;
      SpacedCons(toks, ws);
      Slices3(t, i, j, s, end);
    }
  }

  lemma SpacedCons(toks: seq<string>, ws: seq<string>)
    requires |toks| == |ws| + 1 && ws != []
    ensures Spaced(toks, ws) == toks[0] + ws[0] + Spaced(toks[1..], ws[1..])
  {
  }

  lemma Slices3(t: string, i: nat, j: nat, s: nat, end: nat)
    requires i <= j <= s <= end <= |t|
    ensures t[i..end] == t[i..j] + t[j..s] + t[s..end]
  {
  }

  /** Equal concatenations whose first two parts have equal lengths have equal parts. */
  lemma SameParts(x: string, y: string, z: string, a: string, b: string, c: string)
    requires x + y + z == a + b + c && |x| == |a| && |y| == |b|
    ensures x == a && y == b && z == c
  {
    assert x == (x + y + z)[..|x|] && a == (a + b + c)[..|a|];
    assert y == (x + y + z)[|x|..|x| + |y|] && b == (a + b + c)[|a|..|a| + |b|];
    assert z == (x + y + z)[|x| + |y|..] && c == (a + b + c)[|a| + |b|..];
  }

  /** A slice is the concatenation of its two halves around any cut. */
  lemma Cut(t: string, i: nat, j: nat, k: nat)
    requires i <= j <= k <= |t|
    ensures t[i..k] == t[i..j] + t[j..k]
  {
  }

  /** Splitting a written-out concatenation at the boundary. */
  lemma SliceSplit(t: string, i: nat, a: string, b: string)
    requires i + |a + b| <= |t| && t[i..i + |a + b|] == a + b
    ensures t[i..i + |a|] == a && t[i + |a|..i + |a| + |b|] == b
  {
    assert t[i..i + |a|] == t[i..i + |a + b|][..|a|];
    assert t[i + |a|..i + |a| + |b|] == t[i..i + |a + b|][|a|..];
  }

  /** A token sequence matches wherever it is written out, provided no token
    * after the first starts with whitespace. */
  lemma {:induction false} TokensAt(t: string, i: nat, j: nat, toks: seq<string>, ws: seq<string>)
    requires |toks| == |ws| + 1 && (forall k :: 0 <= k < |ws| ==> Blank(ws[k]))
    requires forall k :: 1 <= k < |toks| ==> toks[k] != [] && !IsSpace(toks[k][0])
    requires i <= j <= |t| && t[i..j] == Spaced(toks, ws)
    ensures Tokens(t, i, toks) == Some(j)
    decreases |ws|
  {
    if ws == [] {
      LiteralAt(t, i, j, toks[0]);
    } else {
      var rest := Spaced(toks[1..], ws[1..]);
      SpacedCons(toks, ws);
      var a := i + |toks[0]|;
      var s := a + |ws[0]|;
      Pieces3(t, i, j, toks[0], ws[0], rest);
      LiteralAt(t, i, a, toks[0]);
      SpacedFirst(toks[1..], ws[1..]);
      SpanOfRun(t, a, s, Space);
      TokensAt(t, s, j, toks[1..], ws[1..]);
      TokensStep(t, i, a, s, toks);
    }
  }

  lemma LiteralAt(t: string, i: nat, j: nat, w: string)
    requires i <= j <= |t| && t[i..j] == w
    ensures Literal(t, i, w) == Some(j)
  {
    assert t[i..][..|w|] == w;
  }

  /** The three parts of a slice that spells `a + b + c`. */
  lemma Pieces3(t: string, i: nat, j: nat, a: string, b: string, c: string)
    requires i <= j <= |t| && t[i..j] == a + b + c
    ensures i + |a| + |b| <= j
    ensures t[i..i + |a|] == a && t[i + |a|..i + |a| + |b|] == b && t[i + |a| + |b|..j] == c
  {
    var p, q := i + |a|, i + |a| + |b|;
    Slices3(t, i, p, q, j);
    assert |t[i..p]| == |a| && |t[p..q]| == |b|;
    SameParts(t[i..p], t[p..q], t[q..j], a, b, c);
  }

  lemma TokensStep(t: string, i: nat, a: nat, s: nat, toks: seq<string>)
    requires i <= a <= s <= |t| && |toks| > 1
    requires Literal(t, i, toks[0]) == Some(a) && Span(t, a, Space) == s
    ensures Tokens(t, i, toks) == Tokens(t, s, toks[1..])
  {
  }

  lemma SpacedFirst(toks: seq<string>, ws: seq<string>)
    requires |toks| == |ws| + 1 && toks[0] != []
    ensures Spaced(toks, ws) != [] && Spaced(toks, ws)[0] == toks[0][0]
  {
  }

  // ---------------------------------------------------------------------------
  // Declarations

  /** `uniform` w0 ty w1 name w2 `;` */
  function DeclarationText(w: seq<string>, ty: string, name: string): string
    requires |w| == 3
  {
    "uniform" + w[0] + ty + w[1] + name + w[2] + ";"
  }

  lemma {:induction false} DeclarationTypeFound(t: string, b: nat, types: seq<string>, names: Names) returns (ty: string)
    requires b <= |t| && DeclarationType(t, b, types, names).Some?
    ensures ty in types && DeclarationType(t, b, types, names) == DeclarationTail(t, b, ty, names)
    decreases |types|
  {
    if DeclarationTail(t, b, types[0], names).Some? {
      ty := types[0];
    } else {
      ty := DeclarationTypeFound(t, b, types[1..], names);
      InTail(types, ty);
    }
  }

  /** A name-alternatives match stops at the first listed name that is
    * written at `d` and followed by `\s*;`. */
  lemma {:induction false} NameFound(t: string, d: nat, alternatives: seq<string>, ty: string) returns (e: nat)
    requires d <= |t| && NameAlternatives(t, d, alternatives, ty).Some?
    ensures d <= e <= |t| && t[d..e] in alternatives
    ensures NameAlternatives(t, d, alternatives, ty) == Terminated(t, d, e, ty)
    decreases |alternatives|
  {
    NameAlternativesStep(t, d, alternatives, ty);
    if Literal(t, d, alternatives[0]).Some? && Terminated(t, d, d + |alternatives[0]|, ty).Some? {
      e := NameFoundFirst(t, d, alternatives, ty);
    } else {
      e := NameFound(t, d, alternatives[1..], ty);
      InTail(alternatives, t[d..e]);
    }
  }

  lemma NameFoundFirst(t: string, d: nat, alternatives: seq<string>, ty: string) returns (e: nat)
    requires d <= |t| && alternatives != [] && Literal(t, d, alternatives[0]).Some?
    ensures e == d + |alternatives[0]| <= |t| && t[d..e] == alternatives[0]
  {
    e := d + |alternatives[0]|;
    LiteralFound(t, d, alternatives[0]);
  }

  lemma LiteralFound(t: string, i: nat, w: string)
    requires i <= |t| && Literal(t, i, w).Some?
    ensures i + |w| <= |t| && t[i..i + |w|] == w
  {
    assert t[i..i + |w|] == t[i..][..|w|];
  }

  lemma TerminatedShape(t: string, d: nat, e: nat, ty: string) returns (f: nat)
    requires d <= e <= |t| && Terminated(t, d, e, ty).Some?
    ensures e <= f < |t| && Blank(t[e..f]) && t[f] == ';'
    ensures Terminated(t, d, e, ty) == Some(Match(t[..f + 1], [ty, t[d..e]]))
  {
    f := Span(t, e, Space);
  }

  /** What follows a name that `\s*;` accepts is not a word character. */
  lemma TerminatorFollows(t: string, d: nat, e: nat, ty: string)
    requires d <= e <= |t| && Terminated(t, d, e, ty).Some?
    ensures e < |t| && !IsWordChar(t[e])
  {
    var f := TerminatedShape(t, d, e, ty);
    if f > e {
      assert t[e] == t[e..f][0];
    }
  }

  lemma DeclarationTailShape(t: string, b: nat, ty: string, names: Names) returns (c: nat, d: nat, e: nat, f: nat)
    requires b <= |t| && DeclarationTail(t, b, ty, names).Some?
    ensures b <= c < d <= e <= f < |t|
    ensures t[b..c] == ty && Blank(t[c..d]) && NameAllowed(names, t[d..e]) && Blank(t[e..f]) && t[f] == ';'
    ensures DeclarationTail(t, b, ty, names) == Some(Match(t[..f + 1], [ty, t[d..e]]))
  {
    c := b + |ty|;
    d := Plus(t, c, Space).value;
    if names.AnyIdentifier? {
      e := Plus(t, d, Word).value;
    } else {
      e := NameFound(t, d, names.alternatives, ty);
    }
    f := TerminatedShape(t, d, e, ty);
  }

  lemma DeclarationAssembled(t: string, b: nat, c: nat, d: nat, e: nat, f: nat)
    requires 7 <= b <= c <= d <= e <= f < |t| && t[..7] == "uniform" && t[f] == ';'
    ensures t[..f + 1] == DeclarationText([t[7..b], t[c..d], t[e..f]], t[b..c], t[d..e])
  {
    assert t[..b] == t[..7] + t[7..b];
    assert t[..c] == t[..b] + t[b..c];
    assert t[..d] == t[..c] + t[c..d];
    assert t[..e] == t[..d] + t[d..e];
    assert t[..f] == t[..e] + t[e..f];
    assert t[..f + 1] == t[..f] + [t[f]];
  }

  /** A declaration match spans `uniform`, a listed type, an accepted name and
    * the `;`, separated by whitespace, and captures the type and the name. */
  lemma DeclarationSound(types: seq<string>, names: Names, t: string)
    requires MatchPrefix(Declaration(types, names), t).Some?
    ensures var m := MatchPrefix(Declaration(types, names), t).value;
      |m.groups| == 2 && m.groups[0] in types && NameAllowed(names, m.groups[1]) &&
      exists w :: Spacing(w, 3, {0, 1}) && m.text == DeclarationText(w, m.groups[0], m.groups[1])
  {
    assert MatchPrefix(Declaration(types, names), t) == MatchDeclaration(t, types, names);
    var w := DeclarationSpacing(types, names, t);
    var m := MatchDeclaration(t, types, names).value;
    assert Spacing(w, 3, {0, 1}) && m.text == DeclarationText(w, m.groups[0], m.groups[1]);
  }

  lemma DeclarationSpacing(types: seq<string>, names: Names, t: string) returns (w: seq<string>)
    requires MatchDeclaration(t, types, names).Some?
    ensures var m := MatchDeclaration(t, types, names).value;
      |m.groups| == 2 && m.groups[0] in types && NameAllowed(names, m.groups[1]) &&
      Spacing(w, 3, {0, 1}) && m.text == DeclarationText(w, m.groups[0], m.groups[1])
  {
    var b, ty := DeclarationHead(t, types, names);
    var c, d, e, f := DeclarationTailShape(t, b, ty, names);
    w := DeclarationPieces(t, b, c, d, e, f);
  }

  lemma DeclarationPieces(t: string, b: nat, c: nat, d: nat, e: nat, f: nat) returns (w: seq<string>)
    requires 7 < b <= c < d <= e <= f < |t| && t[..7] == "uniform" && t[f] == ';'
    requires Blank(t[7..b]) && Blank(t[c..d]) && Blank(t[e..f])
    ensures Spacing(w, 3, {0, 1}) && t[..f + 1] == DeclarationText(w, t[b..c], t[d..e])
  {
    DeclarationAssembled(t, b, c, d, e, f);
    w := [t[7..b], t[c..d], t[e..f]];
  }

  lemma DeclarationHead(t: string, types: seq<string>, names: Names) returns (b: nat, ty: string)
    requires MatchDeclaration(t, types, names).Some?
    ensures 7 < b <= |t| && t[..7] == "uniform" && Blank(t[7..b]) && ty in types
    ensures MatchDeclaration(t, types, names) == DeclarationTail(t, b, ty, names)
  {
    b := Plus(t, 7, Space).value;
    ty := DeclarationTypeFound(t, b, types, names);
  }

  /** Two word tokens that both match at position `i`, each followed by a
    * character that is not a word character, are the same token. */
  lemma SameToken(t: string, i: nat, u: string, v: string)
    requires i + |u| < |t| && t[i..i + |u|] == u && !IsWordChar(t[i + |u|])
    requires i + |v| < |t| && t[i..i + |v|] == v && !IsWordChar(t[i + |v|])
    requires AllIn(u, Word) && AllIn(v, Word)
    ensures u == v
  {
  }

  lemma DeclarationLayout(t: string, w: seq<string>, ty: string, name: string)
    requires |w| == 3 && |DeclarationText(w, ty, name)| <= |t| && t[..|DeclarationText(w, ty, name)|] == DeclarationText(w, ty, name)
    ensures var p2 := 7 + |w[0]|; var p3 := p2 + |ty|; var p4 := p3 + |w[1]|;
      var p5 := p4 + |name|; var p6 := p5 + |w[2]|;
      p6 + 1 == |DeclarationText(w, ty, name)| && t[..7] == "uniform" && t[7..p2] == w[0] && t[p2..p3] == ty &&
      t[p3..p4] == w[1] && t[p4..p5] == name && t[p5..p6] == w[2] && t[p6] == ';'
  {
    var x1 := "uniform";
    var x2 := x1 + w[0];
    var x3 := x2 + ty;
    var x4 := x3 + w[1];
    var x5 := x4 + name;
    var x6 := x5 + w[2];
    var x7 := x6 + ";";
    assert x7 == DeclarationText(w, ty, name);
    Peel(t, x6, ";");
    Peel(t, x5, w[2]);
    Peel(t, x4, name);
    Peel(t, x3, w[1]);
    Peel(t, x2, ty);
    Peel(t, x1, w[0]);
  }

  /** Among word-token alternatives, only `ty` can let the declaration go on. */
  lemma {:induction false} DeclarationTypeChosen(t: string, b: nat, types: seq<string>, ty: string, names: Names)
    requires b <= |t| && WordTokens(types) && AllIn(ty, Word)
    requires b + |ty| < |t| && t[b..b + |ty|] == ty && IsSpace(t[b + |ty|])
    ensures DeclarationType(t, b, types, names) == if ty in types then DeclarationTail(t, b, ty, names) else None
    decreases |types|
  {
    if types != [] {
      DeclarationTypeChosen(t, b, types[1..], ty, names);
      InTail(types, ty);
      if types[0] != ty {
        OtherType(t, b, types[0], ty, names);
      }
    }
  }

  /** A word token other than `ty` cannot start a declaration tail where `ty` is written. */
  lemma OtherType(t: string, b: nat, u: string, ty: string, names: Names)
    requires b <= |t| && Identifier(u) && AllIn(ty, Word) && u != ty
    requires b + |ty| < |t| && t[b..b + |ty|] == ty && IsSpace(t[b + |ty|])
    ensures DeclarationTail(t, b, u, names).None?
  {
    if DeclarationTail(t, b, u, names).Some? {
      var c, d, e, f := DeclarationTailShape(t, b, u, names);
      SameToken(t, b, u, ty);
    }
  }

  /** Among word-token name alternatives, only `name` can be followed by `\s*;`. */
  lemma {:induction false} NameChosen(t: string, d: nat, alternatives: seq<string>, name: string, ty: string)
    requires d <= |t| && WordTokens(alternatives) && AllIn(name, Word)
    requires d + |name| < |t| && t[d..d + |name|] == name && !IsWordChar(t[d + |name|])
    ensures NameAlternatives(t, d, alternatives, ty) == if name in alternatives then Terminated(t, d, d + |name|, ty) else None
    decreases |alternatives|
  {
    if alternatives != [] {
      NameChosen(t, d, alternatives[1..], name, ty);
      InTail(alternatives, name);
      if alternatives[0] == name {
        NameChosenHere(t, d, alternatives, name, ty);
      } else {
        NameChosenLater(t, d, alternatives, name, ty);
      }
    }
  }

  lemma NameChosenHere(t: string, d: nat, alternatives: seq<string>, name: string, ty: string)
    requires d + |name| <= |t| && t[d..d + |name|] == name && alternatives != [] && alternatives[0] == name
    requires var r := Terminated(t, d, d + |name|, ty);
      var rest := NameAlternatives(t, d, alternatives[1..], ty);
      rest == r || rest == None
    ensures NameAlternatives(t, d, alternatives, ty) == Terminated(t, d, d + |name|, ty)
  {
    LiteralAt(t, d, d + |name|, name);
    NameAlternativesHere(t, d, alternatives, ty);
  }

  lemma NameChosenLater(t: string, d: nat, alternatives: seq<string>, name: string, ty: string)
    requires d <= |t| && alternatives != [] && Identifier(alternatives[0]) && AllIn(name, Word) && alternatives[0] != name
    requires d + |name| < |t| && t[d..d + |name|] == name && !IsWordChar(t[d + |name|])
    ensures NameAlternatives(t, d, alternatives, ty) == NameAlternatives(t, d, alternatives[1..], ty)
  {
    OtherAlternative(t, d, alternatives[0], name, ty);
    NameAlternativesStep(t, d, alternatives, ty);
  }

  lemma NameAlternativesStep(t: string, d: nat, alternatives: seq<string>, ty: string)
    requires d <= |t| && alternatives != []
    ensures var u := alternatives[0];
      NameAlternatives(t, d, alternatives, ty)
      == if Literal(t, d, u).Some? && Terminated(t, d, d + |u|, ty).Some? then Terminated(t, d, d + |u|, ty)
         else NameAlternatives(t, d, alternatives[1..], ty)
  {
  }

  lemma NameAlternativesHere(t: string, d: nat, alternatives: seq<string>, ty: string)
    requires d <= |t| && alternatives != [] && Literal(t, d, alternatives[0]).Some?
    ensures var r := Terminated(t, d, d + |alternatives[0]|, ty);
      NameAlternatives(t, d, alternatives, ty) == if r.Some? then r else NameAlternatives(t, d, alternatives[1..], ty)
  {
  }

  /** A word token other than `name` cannot be followed by `\s*;` where `name` is written. */
  lemma OtherAlternative(t: string, d: nat, u: string, name: string, ty: string)
    requires d <= |t| && Identifier(u) && AllIn(name, Word) && u != name
    requires d + |name| < |t| && t[d..d + |name|] == name && !IsWordChar(t[d + |name|])
    ensures !(Literal(t, d, u).Some? && Terminated(t, d, d + |u|, ty).Some?)
  {
    if Literal(t, d, u).Some? && Terminated(t, d, d + |u|, ty).Some? {
      TerminatorFollows(t, d, d + |u|, ty);
      SameToken(t, d, u, name);
    }
  }

  lemma InTail<T>(s: seq<T>, x: T)
    requires s != []
    ensures x in s <==> x == s[0] || x in s[1..]
  {
    assert s == [s[0]] + s[1..];
  }

  lemma TerminatedAt(t: string, d: nat, e: nat, f: nat, ty: string)
    requires d <= e <= f < |t| && Blank(t[e..f]) && t[f] == ';'
    ensures Terminated(t, d, e, ty) == Some(Match(t[..f + 1], [ty, t[d..e]]))
  {
    SpanOfRun(t, e, f, Space);
  }

  lemma DeclarationTailAt(t: string, b: nat, c: nat, d: nat, e: nat, f: nat, names: Names)
    requires b <= c < d < e <= f < |t|
    requires Blank(t[c..d]) && NameAllowed(names, t[d..e]) && Blank(t[e..f]) && t[f] == ';'
    requires AllIn(t[d..e], Word) && (names.OneOf? ==> WordTokens(names.alternatives))
    ensures DeclarationTail(t, b, t[b..c], names) == Some(Match(t[..f + 1], [t[b..c], t[d..e]]))
  {
    var ty := t[b..c];
    NameBounds(t, d, e, f);
    LiteralAt(t, b, c, ty);
    PlusOfRun(t, c, d, Space);
    DeclarationTailFrom(t, b, c, d, ty, names);
    TerminatedAt(t, d, e, f, ty);
    if names.AnyIdentifier? {
      DeclarationTailAny(t, d, e, f, ty);
    } else {
      DeclarationTailOneOf(t, d, e, f, names.alternatives, ty);
    }
  }

  lemma DeclarationTailAny(t: string, d: nat, e: nat, f: nat, ty: string)
    requires d < e <= f < |t| && AllIn(t[d..e], Word) && !IsWordChar(t[e])
    requires Terminated(t, d, e, ty) == Some(Match(t[..f + 1], [ty, t[d..e]]))
    ensures (if Plus(t, d, Word).Some? then Terminated(t, d, Plus(t, d, Word).value, ty) else None)
         == Some(Match(t[..f + 1], [ty, t[d..e]]))
  {
    PlusOfRun(t, d, e, Word);
  }

  lemma DeclarationTailOneOf(t: string, d: nat, e: nat, f: nat, alternatives: seq<string>, ty: string)
    requires d < e <= f < |t| && AllIn(t[d..e], Word) && !IsWordChar(t[e])
    requires WordTokens(alternatives) && t[d..e] in alternatives
    requires Terminated(t, d, e, ty) == Some(Match(t[..f + 1], [ty, t[d..e]]))
    ensures NameAlternatives(t, d, alternatives, ty) == Some(Match(t[..f + 1], [ty, t[d..e]]))
  {
    NameChosen(t, d, alternatives, t[d..e], ty);
  }

  /** A name followed by optional whitespace and `;` starts and ends at word boundaries. */
  lemma NameBounds(t: string, d: nat, e: nat, f: nat)
    requires d < e <= f < |t| && AllIn(t[d..e], Word) && Blank(t[e..f]) && t[f] == ';'
    ensures !IsSpace(t[d]) && !IsWordChar(t[e])
  {
    assert t[d] == t[d..e][0];
    if f > e {
      assert t[e] == t[e..f][0];
    }
  }

  lemma DeclarationTailFrom(t: string, b: nat, c: nat, d: nat, ty: string, names: Names)
    requires b <= c <= d <= |t| && Literal(t, b, ty) == Some(c) && Plus(t, c, Space) == Some(d)
    ensures names.AnyIdentifier? ==>
      DeclarationTail(t, b, ty, names) == if Plus(t, d, Word).Some? then Terminated(t, d, Plus(t, d, Word).value, ty) else None
    ensures names.OneOf? ==> DeclarationTail(t, b, ty, names) == NameAlternatives(t, d, names.alternatives, ty)
  {
  }

  lemma DeclarationAt(types: seq<string>, names: Names, t: string, b: nat, c: nat, d: nat, e: nat, f: nat)
    requires 7 < b < c < d < e <= f < |t| && t[..7] == "uniform" && Blank(t[7..b])
    requires t[b..c] in types && WordTokens(types)
    requires Blank(t[c..d]) && NameAllowed(names, t[d..e]) && Blank(t[e..f]) && t[f] == ';'
    requires AllIn(t[d..e], Word) && (names.OneOf? ==> WordTokens(names.alternatives))
    ensures MatchDeclaration(t, types, names) == Some(Match(t[..f + 1], [t[b..c], t[d..e]]))
  {
    var ty := t[b..c];
    assert Literal(t, 0, "uniform") == Some(7) by {
      assert t[0..] == t;
    }
    assert Plus(t, 7, Space) == Some(b) by {
      assert t[b] == ty[0] && t[7] == t[7..b][0];
      SpanOfRun(t, 7, b, Space);
    }
    assert DeclarationType(t, b, types, names) == DeclarationTail(t, b, ty, names) by {
      assert Identifier(ty);
      assert t[c] == t[c..d][0];
      DeclarationTypeChosen(t, b, types, ty, names);
    }
    DeclarationTailAt(t, b, c, d, e, f, names);
  }

  /** Conversely, `uniform`, a listed type, an accepted name and `;`,
    * separated by whitespace, match whatever follows them, with the type and
    * the name as the groups. */
  lemma DeclarationComplete(types: seq<string>, names: Names, w: seq<string>, ty: string, name: string, rest: string)
    requires Spacing(w, 3, {0, 1}) && ty in types && NameAllowed(names, name)
    requires WordTokens(types) && (names.OneOf? ==> WordTokens(names.alternatives))
    ensures MatchPrefix(Declaration(types, names), DeclarationText(w, ty, name) + rest)
         == Some(Match(DeclarationText(w, ty, name), [ty, name]))
  {
    var t := DeclarationText(w, ty, name) + rest;
    assert t[..|DeclarationText(w, ty, name)|] == DeclarationText(w, ty, name);
    DeclarationOn(t, types, names, w, ty, name);
  }

  lemma DeclarationOn(t: string, types: seq<string>, names: Names, w: seq<string>, ty: string, name: string)
    requires Spacing(w, 3, {0, 1}) && ty in types && NameAllowed(names, name)
    requires WordTokens(types) && (names.OneOf? ==> WordTokens(names.alternatives))
    requires |DeclarationText(w, ty, name)| <= |t| && t[..|DeclarationText(w, ty, name)|] == DeclarationText(w, ty, name)
    ensures MatchPrefix(Declaration(types, names), t) == Some(Match(DeclarationText(w, ty, name), [ty, name]))
  {
    DeclarationLayout(t, w, ty, name);
    var p2 := 7 + |w[0]|;
    var p3 := p2 + |ty|;
    var p4 := p3 + |w[1]|;
    var p5 := p4 + |name|;
    assert Identifier(name);
    DeclarationAt(types, names, t, p2, p3, p4, p5, p5 + |w[2]|);
  }

  // ---------------------------------------------------------------------------
  // Compiler diagnostics

  /** `ERROR:` w first `:` line `:` */
  function ErrorHeaderText(w: string, first: string, line: string): string {
    "ERROR:" + w + first + ":" + line + ":"
  }

  lemma CompileErrorParts(t: string) returns (b: nat, c: nat, e: nat)
    requires MatchCompileError(t).Some?
    ensures 6 < b < c && c + 1 < e < |t| && t[..6] == "ERROR:" && Blank(t[6..b])
    ensures Digits(t[b..c]) && t[c] == ':' && Digits(t[c + 1..e]) && t[e] == ':'
    ensures MatchCompileError(t) == Some(Match(t[..e + 1], [t[c + 1..e]]))
  {
    b := Plus(t, 6, Space).value;
    c := Plus(t, b, Digit).value;
    e := Plus(t, c + 1, Digit).value;
    assert t[c] == t[c..][0] && t[e] == t[e..][0];
  }

  lemma ErrorHeaderAssembled(t: string, b: nat, c: nat, e: nat)
    requires 6 <= b <= c && c + 1 <= e < |t| && t[..6] == "ERROR:" && t[c] == ':' && t[e] == ':'
    ensures t[..e + 1] == ErrorHeaderText(t[6..b], t[b..c], t[c + 1..e])
  {
    assert t[..b] == t[..6] + t[6..b];
    assert t[..c] == t[..b] + t[b..c];
    assert t[..c + 1] == t[..c] + [t[c]];
    assert t[..e] == t[..c + 1] + t[c + 1..e];
    assert t[..e + 1] == t[..e] + [t[e]];
  }

  /** A diagnostic header match spans `ERROR:`, whitespace, two numbers each
    * followed by `:`, and captures the second number. */
  lemma CompileErrorMatcher(t: string)
    ensures MatchPrefix(CompileError, t) == MatchCompileError(t)
  {
  }

  lemma CompileErrorSound(t: string)
    requires MatchPrefix(CompileError, t).Some?
    ensures var m := MatchPrefix(CompileError, t).value;
      |m.groups| == 1 && Digits(m.groups[0]) &&
      exists w, first :: Blank(w) && w != [] && Digits(first) && m.text == ErrorHeaderText(w, first, m.groups[0])
  {
    assert MatchPrefix(CompileError, t) == MatchCompileError(t);
    var b, c, e := CompileErrorParts(t);
    ErrorHeaderAssembled(t, b, c, e);
    var w, first := t[6..b], t[b..c];
    assert Blank(w) && w != [] && Digits(first) && t[..e + 1] == ErrorHeaderText(w, first, t[c + 1..e]);
  }

  lemma CompileErrorAt(t: string, b: nat, c: nat, e: nat)
    requires 6 < b < c && c + 1 < e < |t| && t[..6] == "ERROR:" && Blank(t[6..b])
    requires Digits(t[b..c]) && t[c] == ':' && Digits(t[c + 1..e]) && t[e] == ':'
    ensures MatchCompileError(t) == Some(Match(t[..e + 1], [t[c + 1..e]]))
  {
    LiteralAt(t, 0, 6, "ERROR:");
    CompileErrorRuns(t, b, c, e);
    LiteralAt(t, e, e + 1, ":");
    CompileErrorFrom(t, b, c, e);
  }

  lemma CompileErrorRuns(t: string, b: nat, c: nat, e: nat)
    requires 6 < b < c && c + 1 < e < |t| && Blank(t[6..b])
    requires Digits(t[b..c]) && t[c] == ':' && Digits(t[c + 1..e]) && t[e] == ':'
    ensures Plus(t, 6, Space) == Some(b) && Plus(t, b, Digit) == Some(c) && Plus(t, c + 1, Digit) == Some(e)
  {
    assert t[b] == t[b..c][0];
    PlusOfRun(t, 6, b, Space);
    PlusOfRun(t, b, c, Digit);
    PlusOfRun(t, c + 1, e, Digit);
  }

  lemma CompileErrorFrom(t: string, b: nat, c: nat, e: nat)
    requires 6 < b < c && c + 1 < e < |t| && t[c] == ':'
    requires Literal(t, 0, "ERROR:") == Some(6) && Plus(t, 6, Space) == Some(b) && Plus(t, b, Digit) == Some(c)
    requires Plus(t, c + 1, Digit) == Some(e) && Literal(t, e, ":") == Some(e + 1)
    ensures MatchCompileError(t) == Some(Match(t[..e + 1], [t[c + 1..e]]))
  {
    LiteralAt(t, c, c + 1, ":");
  }

  lemma ErrorHeaderLayout(t: string, w: string, first: string, line: string)
    requires |ErrorHeaderText(w, first, line)| <= |t| && t[..|ErrorHeaderText(w, first, line)|] == ErrorHeaderText(w, first, line)
    ensures var b := 6 + |w|; var c := b + |first|; var e := c + 1 + |line|;
      e + 1 == |ErrorHeaderText(w, first, line)| && t[..6] == "ERROR:" && t[6..b] == w && t[b..c] == first &&
      t[c] == ':' && t[c + 1..e] == line && t[e] == ':'
  {
    var x1 := "ERROR:";
    var x2 := x1 + w;
    var x3 := x2 + first;
    var x4 := x3 + ":";
    var x5 := x4 + line;
    var x6 := x5 + ":";
    assert x6 == ErrorHeaderText(w, first, line);
    Peel(t, x5, ":");
    Peel(t, x4, line);
    Peel(t, x3, ":");
    Peel(t, x2, first);
    Peel(t, x1, w);
  }

  /** Conversely, such a header matches whatever follows it. */
  lemma CompileErrorComplete(w: string, first: string, line: string, rest: string)
    requires Blank(w) && w != [] && Digits(first) && Digits(line)
    ensures MatchPrefix(CompileError, ErrorHeaderText(w, first, line) + rest)
         == Some(Match(ErrorHeaderText(w, first, line), [line]))
  {
    var header := ErrorHeaderText(w, first, line);
    var t := header + rest;
    CompileErrorMatcher(t);
    assert t[..|header|] == header;
    CompileErrorOn(t, w, first, line);
  }

  lemma CompileErrorOn(t: string, w: string, first: string, line: string)
    requires Blank(w) && w != [] && Digits(first) && Digits(line)
    requires |ErrorHeaderText(w, first, line)| <= |t| && t[..|ErrorHeaderText(w, first, line)|] == ErrorHeaderText(w, first, line)
    ensures MatchCompileError(t) == Some(Match(ErrorHeaderText(w, first, line), [line]))
  {
    ErrorHeaderLayout(t, w, first, line);
    var b := 6 + |w|;
    var c := b + |first|;
    var e := c + 1 + |line|;
    assert t[6..b] == w && t[b..c] == first && t[c + 1..e] == line;
    CompileErrorAt(t, b, c, e);
  }

  // ---------------------------------------------------------------------------
  // Method-style child shader calls

  /** receiver `.eval` w `(` */
  function EvalCallText(receiver: string, w: string): string {
    receiver + ".eval" + w + "("
  }

  lemma EvalCallParts(t: string) returns (a: nat, c: nat)
    requires MatchEvalCall(t).Some?
    ensures 0 < a && a + 5 <= c < |t| && Identifier(t[..a]) && t[a..a + 5] == ".eval"
    ensures Blank(t[a + 5..c]) && t[c] == '('
    ensures MatchEvalCall(t) == Some(Match(t[..c + 1], [t[..a]]))
  {
    a := Plus(t, 0, Word).value;
    assert t[..a] == t[0..a];
    c := Span(t, a + 5, Space);
    assert t[c] == t[c..][0];
  }

  /** An `.eval(` match spans an identifier, `.eval`, whitespace and `(`, and
    * captures the identifier. */
  lemma EvalCallSound(t: string)
    requires MatchPrefix(EvalCall, t).Some?
    ensures var m := MatchPrefix(EvalCall, t).value;
      |m.groups| == 1 && Identifier(m.groups[0]) &&
      exists w :: Blank(w) && m.text == EvalCallText(m.groups[0], w)
  {
    assert MatchPrefix(EvalCall, t) == MatchEvalCall(t);
    var a, c := EvalCallParts(t);
    EvalCallAssembled(t, a, c);
  }

  lemma EvalCallAssembled(t: string, a: nat, c: nat)
    requires a + 5 <= c < |t| && t[a..a + 5] == ".eval" && t[c] == '('
    ensures t[..c + 1] == EvalCallText(t[..a], t[a + 5..c])
  {
    assert t[..a + 5] == t[..a] + t[a..a + 5];
    assert t[..c] == t[..a + 5] + t[a + 5..c];
    assert t[..c + 1] == t[..c] + [t[c]];
  }

  lemma EvalCallAt(t: string, a: nat, c: nat)
    requires 0 < a && a + 5 <= c < |t| && AllIn(t[..a], Word) && t[a..a + 5] == ".eval"
    requires Blank(t[a + 5..c]) && t[c] == '('
    ensures MatchEvalCall(t) == Some(Match(t[..c + 1], [t[..a]]))
  {
    assert Plus(t, 0, Word) == Some(a) by {
      assert t[0..a] == t[..a] && t[0] == t[..a][0] && t[a] == t[a..a + 5][0];
      SpanOfRun(t, 0, a, Word);
    }
    assert Literal(t, a, ".eval") == Some(a + 5) by {
      assert t[a..][..5] == t[a..a + 5];
    }
    assert Span(t, a + 5, Space) == c by {
      SpanOfRun(t, a + 5, c, Space);
    }
    assert Literal(t, c, "(") == Some(c + 1) by {
      assert t[c..][..1] == [t[c]];
    }
  }

  lemma EvalCallLayout(t: string, receiver: string, w: string)
    requires |EvalCallText(receiver, w)| <= |t| && t[..|EvalCallText(receiver, w)|] == EvalCallText(receiver, w)
    ensures var a := |receiver|; var c := a + 5 + |w|;
      c + 1 == |EvalCallText(receiver, w)| && t[..a] == receiver && t[a..a + 5] == ".eval" && t[a + 5..c] == w && t[c] == '('
  {
    var x1 := receiver;
    var x2 := x1 + ".eval";
    var x3 := x2 + w;
    var x4 := x3 + "(";
    assert x4 == EvalCallText(receiver, w);
    Peel(t, x3, "(");
    Peel(t, x2, w);
    Peel(t, x1, ".eval");
  }

  /** Conversely, an identifier followed by `.eval`, whitespace and `(`
    * matches whatever follows it. */
  lemma EvalCallComplete(receiver: string, w: string, rest: string)
    requires Identifier(receiver) && Blank(w)
    ensures MatchPrefix(EvalCall, EvalCallText(receiver, w) + rest) == Some(Match(EvalCallText(receiver, w), [receiver]))
  {
    var t := EvalCallText(receiver, w) + rest;
    assert t[..|EvalCallText(receiver, w)|] == EvalCallText(receiver, w);
    EvalCallOn(t, receiver, w);
  }

  lemma EvalCallOn(t: string, receiver: string, w: string)
    requires Identifier(receiver) && Blank(w)
    requires |EvalCallText(receiver, w)| <= |t| && t[..|EvalCallText(receiver, w)|] == EvalCallText(receiver, w)
    ensures MatchPrefix(EvalCall, t) == Some(Match(EvalCallText(receiver, w), [receiver]))
  {
    EvalCallLayout(t, receiver, w);
    EvalCallAt(t, |receiver|, |receiver| + 5 + |w|);
  }

  // ---------------------------------------------------------------------------
  // layout(color) qualifiers

  const LayoutTokens: seq<string> := ["layout", "(", "color", ")"]

  /** `layout` w0 `(` w1 `color` w2 `)`, then the whitespace `trail` that the
    * pattern takes after it when it ends in `\s*`. */
  function LayoutColorText(w: seq<string>, trail: string): string
    requires |w| == 3
  {
    Spaced(LayoutTokens, w) + trail
  }

  /** A `layout(color)` match spans the four tokens with whitespace between
    * them; with the trailing `\s*` it also takes all the whitespace after
    * them, line breaks included. */
  lemma LayoutColorSound(t: string, trailingSpace: bool)
    requires MatchPrefix(LayoutColor(trailingSpace), t).Some?
    ensures var m := MatchPrefix(LayoutColor(trailingSpace), t).value;
      m.groups == [] &&
      exists w, trail :: Spacing(w, 3, {}) && Blank(trail) && (trailingSpace || trail == []) &&
        m.text == LayoutColorText(w, trail)
    ensures var m := MatchPrefix(LayoutColor(trailingSpace), t).value;
      trailingSpace ==> |m.text| == |t| || !IsSpace(t[|m.text|])
  {
    assert MatchPrefix(LayoutColor(trailingSpace), t) == MatchLayoutColor(t, trailingSpace);
    var d := Tokens(t, 0, LayoutTokens).value;
    var w := TokensSound(t, 0, LayoutTokens);
    var e := if trailingSpace then Span(t, d, Space) else d;
    LayoutColorAssembled(t, d, e, w);
  }

  lemma LayoutColorAssembled(t: string, d: nat, e: nat, w: seq<string>)
    requires d <= e <= |t| && |w| == 3 && t[0..d] == Spaced(LayoutTokens, w)
    ensures t[..e] == LayoutColorText(w, t[d..e])
  {
    assert t[..e] == t[0..d] + t[d..e];
  }

  /** Conversely, the four tokens with whitespace between them match, and
    * with the trailing `\s*` the whitespace after them is taken up to the
    * first character that is not whitespace. */
  lemma LayoutColorComplete(w: seq<string>, trail: string, rest: string, trailingSpace: bool)
    requires Spacing(w, 3, {}) && Blank(trail) && (trailingSpace || trail == [])
    requires trailingSpace ==> rest == [] || !IsSpace(rest[0])
    ensures MatchPrefix(LayoutColor(trailingSpace), LayoutColorText(w, trail) + rest)
         == Some(Match(LayoutColorText(w, trail), []))
  {
    var t := LayoutColorText(w, trail) + rest;
    var d := |Spaced(LayoutTokens, w)|;
    var e := d + |trail|;
    assert t[0..d] == Spaced(LayoutTokens, w);
    LayoutTokensAt(t, d, w);
    if trailingSpace {
      assert t[d..e] == trail;
      SpanOfRun(t, d, e, Space);
    }
    assert t[..e] == LayoutColorText(w, trail);
  }

  lemma LayoutTokensAt(t: string, d: nat, w: seq<string>)
    requires Spacing(w, 3, {}) && d <= |t| && t[0..d] == Spaced(LayoutTokens, w)
    ensures Tokens(t, 0, LayoutTokens) == Some(d)
  {
    assert forall k :: 1 <= k < |LayoutTokens| ==> LayoutTokens[k] != [] && !IsSpace(LayoutTokens[k][0]);
    TokensAt(t, 0, d, LayoutTokens, w);
  }

  // ---------------------------------------------------------------------------
  // Float-counter loops

  /** `for` w0 `(` w1 `float` w2 v w3 `=` w4 a `.0` w5 `;` w6 v w7 `<` w8 b `.0`
    * w9 `;` w10 v w11 `++` w12 `)` */
  function LoopText(w: seq<string>, v: string, a: string, b: string): string
    requires |w| == 13
  {
    Spaced(["for", "(", "float"], w[..2]) + w[2] + v + w[3] + "=" + w[4] + a +
    Spaced([".0", ";", v, "<"], w[5..8]) + w[8] + b + Spaced([".0", ";", v, "++", ")"], w[9..])
  }

  lemma LoopLimitParts(t: string, v: string, g: nat, h: nat) returns (l: nat, m: nat, n: nat, end: nat, limit: seq<string>, step: seq<string>)
    requires g <= h <= |t| && LoopLimit(t, v, g, h).Some?
    ensures h <= l <= m < n <= end <= |t|
    ensures |limit| == 3 && (forall k :: 0 <= k < 3 ==> Blank(limit[k]))
    ensures |step| == 4 && (forall k :: 0 <= k < 4 ==> Blank(step[k]))
    ensures t[h..l] == Spaced([".0", ";", v, "<"], limit) && Blank(t[l..m]) && Digits(t[m..n])
    ensures t[n..end] == Spaced([".0", ";", v, "++", ")"], step)
    ensures LoopLimit(t, v, g, h) == Some(Match(t[..end], [v, t[g..h], t[m..n]]))
  {
    l := Tokens(t, h, [".0", ";", v, "<"]).value;
    limit := TokensSound(t, h, [".0", ";", v, "<"]);
    m := Span(t, l, Space);
    n := Plus(t, m, Digit).value;
    end := Tokens(t, n, [".0", ";", v, "++", ")"]).value;
    step := TokensSound(t, n, [".0", ";", v, "++", ")"]);
  }

  lemma LoopBoundsParts(t: string, d: nat, e: nat) returns (s: nat, g: nat, h: nat)
    requires d <= e <= |t| && LoopBounds(t, d, e).Some?
    ensures e <= s && s + 1 <= g < h <= |t|
    ensures Blank(t[e..s]) && t[s] == '=' && Blank(t[s + 1..g]) && Digits(t[g..h])
    ensures LoopBounds(t, d, e) == LoopLimit(t, t[d..e], g, h)
  {
    s, g, h := LoopBoundsPositions(t, d, e);
    LoopBoundsShape(t, e, s, g, h);
    LoopBoundsFrom(t, d, e, s, g, h);
  }

  lemma LoopBoundsPositions(t: string, d: nat, e: nat) returns (s: nat, g: nat, h: nat)
    requires d <= e <= |t| && LoopBounds(t, d, e).Some?
    ensures e <= s < |t| && g <= h <= |t|
    ensures Span(t, e, Space) == s && Literal(t, s, "=") == Some(s + 1) && Span(t, s + 1, Space) == g
    ensures Plus(t, g, Digit) == Some(h)
  {
    s := Span(t, e, Space);
    LoopBoundsLiteral(t, d, e, s);
    g := Span(t, s + 1, Space);
    LoopBoundsDigits(t, d, e, s, g);
    h := Plus(t, g, Digit).value;
  }

  lemma LoopBoundsLiteral(t: string, d: nat, e: nat, s: nat)
    requires d <= e <= |t| && LoopBounds(t, d, e).Some? && s == Span(t, e, Space)
    ensures Literal(t, s, "=") == Some(s + 1)
  {
  }

  lemma LoopBoundsDigits(t: string, d: nat, e: nat, s: nat, g: nat)
    requires d <= e <= s < |t| && LoopBounds(t, d, e).Some? && s == Span(t, e, Space) && Literal(t, s, "=") == Some(s + 1)
    requires g == Span(t, s + 1, Space)
    ensures Plus(t, g, Digit).Some?
  {
  }

  lemma LoopBoundsShape(t: string, e: nat, s: nat, g: nat, h: nat)
    requires e <= s < |t| && g <= h <= |t|
    requires Span(t, e, Space) == s && Literal(t, s, "=") == Some(s + 1) && Span(t, s + 1, Space) == g
    requires Plus(t, g, Digit) == Some(h)
    ensures s + 1 <= g < h
    ensures Blank(t[e..s]) && t[s] == '=' && Blank(t[s + 1..g]) && Digits(t[g..h])
  {
    LiteralFound(t, s, "=");
    assert t[s] == t[s..s + 1][0];
  }

  /** `LoopBounds` unfolded at the positions its parts reach. */
  lemma LoopBoundsFrom(t: string, d: nat, e: nat, s: nat, g: nat, h: nat)
    requires d <= e <= s < |t| && g <= h <= |t|
    requires Span(t, e, Space) == s && Literal(t, s, "=") == Some(s + 1) && Span(t, s + 1, Space) == g
    requires Plus(t, g, Digit) == Some(h)
    ensures LoopBounds(t, d, e) == LoopLimit(t, t[d..e], g, h)
  {
  }

  lemma LoopHeadParts(t: string) returns (c: nat, d: nat, e: nat, head: seq<string>)
    requires MatchFloatCounterLoop(t).Some?
    ensures c < d < e <= |t|
    ensures |head| == 2 && (forall k :: 0 <= k < 2 ==> Blank(head[k]))
    ensures t[..c] == Spaced(["for", "(", "float"], head) && Blank(t[c..d]) && Identifier(t[d..e])
    ensures MatchFloatCounterLoop(t) == LoopBounds(t, d, e)
  {
    c := Tokens(t, 0, ["for", "(", "float"]).value;
    head := TokensSound(t, 0, ["for", "(", "float"]);
    d := Plus(t, c, Space).value;
    e := Plus(t, d, Word).value;
  }

  lemma LoopAssembled(t: string, c: nat, d: nat, e: nat, s: nat, g: nat, h: nat, l: nat, m: nat, n: nat, end: nat,
                      w: seq<string>, v: string)
    requires c <= d <= e <= s && s + 1 <= g <= h <= l <= m <= n <= end <= |t| && |w| == 13
    requires t[..c] == Spaced(["for", "(", "float"], w[..2]) && t[c..d] == w[2] && t[d..e] == v
    requires t[e..s] == w[3] && t[s] == '=' && t[s + 1..g] == w[4]
    requires t[h..l] == Spaced([".0", ";", v, "<"], w[5..8]) && t[l..m] == w[8]
    requires t[n..end] == Spaced([".0", ";", v, "++", ")"], w[9..])
    ensures t[..end] == LoopText(w, v, t[g..h], t[m..n])
  {
    LoopAssembledHead(t, c, d, e, s, g, w, v);
    assert t[..h] == t[..g] + t[g..h];
    assert t[..l] == t[..h] + t[h..l];
    assert t[..m] == t[..l] + t[l..m];
    assert t[..n] == t[..m] + t[m..n];
    assert t[..end] == t[..n] + t[n..end];
  }

  lemma LoopAssembledHead(t: string, c: nat, d: nat, e: nat, s: nat, g: nat, w: seq<string>, v: string)
    requires c <= d <= e <= s && s + 1 <= g <= |t| && |w| == 13
    requires t[..c] == Spaced(["for", "(", "float"], w[..2]) && t[c..d] == w[2] && t[d..e] == v
    requires t[e..s] == w[3] && t[s] == '=' && t[s + 1..g] == w[4]
    ensures t[..g] == Spaced(["for", "(", "float"], w[..2]) + w[2] + v + w[3] + "=" + w[4]
  {
    assert t[..d] == t[..c] + t[c..d];
    assert t[..e] == t[..d] + t[d..e];
    assert t[..s] == t[..e] + t[e..s];
    assert t[..s + 1] == t[..s] + "=";
    assert t[..g] == t[..s + 1] + t[s + 1..g];
  }

  lemma LoopSpacing(head: seq<string>, w2: string, w3: string, w4: string, limit: seq<string>, gap: string, step: seq<string>)
    requires |head| == 2 && (forall k :: 0 <= k < 2 ==> Blank(head[k]))
    requires Blank(w2) && Blank(w3) && Blank(w4) && w2 != []
    requires |limit| == 3 && (forall k :: 0 <= k < 3 ==> Blank(limit[k])) && Blank(gap)
    requires |step| == 4 && (forall k :: 0 <= k < 4 ==> Blank(step[k]))
    ensures var w := head + [w2, w3, w4] + limit + [gap] + step;
      Spacing(w, 13, {2}) && w[..2] == head && w[2] == w2 && w[3] == w3 && w[4] == w4 &&
      w[5..8] == limit && w[8] == gap && w[9..] == step
  {
    var w := head + [w2, w3, w4] + limit + [gap] + step;
    assert w[..2] == head && w[5..8] == limit && w[9..] == step;
    forall k | 0 <= k < 13
      ensures Blank(w[k])
    {
      if k < 2 {
        assert w[k] == head[k];
      } else if 5 <= k < 8 {
        assert w[k] == limit[k - 5];
      } else if k > 8 {
        assert w[k] == step[k - 9];
      }
    }
  }

  lemma LoopMatchShape(t: string) returns (w: seq<string>, v: string, a: string, b: string)
    requires MatchFloatCounterLoop(t).Some?
    ensures Identifier(v) && Digits(a) && Digits(b) && Spacing(w, 13, {2})
    ensures MatchFloatCounterLoop(t) == Some(Match(LoopText(w, v, a, b), [v, a, b]))
  {
    var c, d, e, head := LoopHeadParts(t);
    var s, g, h := LoopBoundsParts(t, d, e);
    var l, m, n, end, limit, step := LoopLimitParts(t, t[d..e], g, h);
    LoopSpacing(head, t[c..d], t[e..s], t[s + 1..g], limit, t[l..m], step);
    w := head + [t[c..d], t[e..s], t[s + 1..g]] + limit + [t[l..m]] + step;
    v, a, b := t[d..e], t[g..h], t[m..n];
    LoopAssembled(t, c, d, e, s, g, h, l, m, n, end, w, v);
  }

  /** A loop match has the counter in all three places, integer bounds written
    * with `.0`, and captures the counter and both bounds. */
  lemma FloatCounterLoopSound(t: string)
    requires MatchPrefix(FloatCounterLoop, t).Some?
    ensures var m := MatchPrefix(FloatCounterLoop, t).value;
      |m.groups| == 3 && Identifier(m.groups[0]) && Digits(m.groups[1]) && Digits(m.groups[2]) &&
      exists w :: Spacing(w, 13, {2}) && m.text == LoopText(w, m.groups[0], m.groups[1], m.groups[2])
  {
    LoopPattern(t);
    var w, v, a, b := LoopMatchShape(t);
    assert Spacing(w, 13, {2}) && MatchPrefix(FloatCounterLoop, t).value.text == LoopText(w, v, a, b);
  }

  lemma LoopLayout(t: string, w: seq<string>, v: string, a: string, b: string)
      returns (c: nat, d: nat, e: nat, s: nat, g: nat, h: nat, l: nat, m: nat, n: nat, end: nat)
    requires |w| == 13 && |LoopText(w, v, a, b)| <= |t| && t[..|LoopText(w, v, a, b)|] == LoopText(w, v, a, b)
    ensures d == c + |w[2]| && e == d + |v| && s == e + |w[3]| && g == s + 1 + |w[4]| && h == g + |a|
    ensures h <= l && m == l + |w[8]| && n == m + |b| && n <= end == |LoopText(w, v, a, b)|
    ensures t[..c] == Spaced(["for", "(", "float"], w[..2]) && t[c..d] == w[2] && t[d..e] == v && t[e..s] == w[3]
    ensures t[s] == '=' && t[s + 1..g] == w[4] && t[g..h] == a && t[h..l] == Spaced([".0", ";", v, "<"], w[5..8])
    ensures t[l..m] == w[8] && t[m..n] == b && t[n..end] == Spaced([".0", ";", v, "++", ")"], w[9..])
  {
    c := |Spaced(["for", "(", "float"], w[..2])|;
    d := c + |w[2]|;
    e := d + |v|;
    s := e + |w[3]|;
    g := s + 1 + |w[4]|;
    h := g + |a|;
    l := h + |Spaced([".0", ";", v, "<"], w[5..8])|;
    m := l + |w[8]|;
    n := m + |b|;
    end := n + |Spaced([".0", ";", v, "++", ")"], w[9..])|;
    var x1 := Spaced(["for", "(", "float"], w[..2]);
    var x2 := x1 + w[2];
    var x3 := x2 + v;
    var x4 := x3 + w[3];
    var x5 := x4 + "=";
    var x6 := x5 + w[4];
    var x7 := x6 + a;
    var x8 := x7 + Spaced([".0", ";", v, "<"], w[5..8]);
    var x9 := x8 + w[8];
    var x10 := x9 + b;
    var x11 := x10 + Spaced([".0", ";", v, "++", ")"], w[9..]);
    assert x11 == LoopText(w, v, a, b);
    Peel(t, x10, Spaced([".0", ";", v, "++", ")"], w[9..]));
    Peel(t, x9, b);
    Peel(t, x8, w[8]);
    Peel(t, x7, Spaced([".0", ";", v, "<"], w[5..8]));
    Peel(t, x6, a);
    Peel(t, x5, w[4]);
    Peel(t, x4, "=");
    Peel(t, x3, w[3]);
    Peel(t, x2, v);
    Peel(t, x1, w[2]);
  }

  lemma Peel(t: string, x: string, y: string)
    requires |x + y| <= |t| && t[..|x + y|] == x + y
    ensures t[..|x|] == x && t[|x|..|x + y|] == y
  {
    assert t[..|x|] == t[..|x + y|][..|x|];
    assert t[|x|..|x + y|] == t[..|x + y|][|x|..];
  }

  lemma LoopLimitAt(t: string, v: string, g: nat, h: nat, l: nat, m: nat, n: nat, end: nat, limit: seq<string>, step: seq<string>)
    requires g <= h <= l <= m < n <= end <= |t| && Identifier(v)
    requires |limit| == 3 && (forall k :: 0 <= k < 3 ==> Blank(limit[k]))
    requires |step| == 4 && (forall k :: 0 <= k < 4 ==> Blank(step[k]))
    requires t[h..l] == Spaced([".0", ";", v, "<"], limit) && Blank(t[l..m]) && Digits(t[m..n])
    requires t[n..end] == Spaced([".0", ";", v, "++", ")"], step)
    ensures LoopLimit(t, v, g, h) == Some(Match(t[..end], [v, t[g..h], t[m..n]]))
  {
    var lower, upper := [".0", ";", v, "<"], [".0", ";", v, "++", ")"];
    LimitTokens(v, lower, upper);
    TokensAt(t, h, l, lower, limit);
    DotFollows(t, n, end, upper, step);
    BlankThenDigits(t, l, m, n);
    PlusOfRun(t, m, n, Digit);
    TokensAt(t, n, end, upper, step);
    LoopLimitFrom(t, v, g, h, l, m, n, end, lower, upper);
  }

  lemma LoopLimitFrom(t: string, v: string, g: nat, h: nat, l: nat, m: nat, n: nat, end: nat,
                      lower: seq<string>, upper: seq<string>)
    requires g <= h <= l <= m <= n <= end <= |t|
    requires lower == [".0", ";", v, "<"] && upper == [".0", ";", v, "++", ")"]
    requires Tokens(t, h, lower) == Some(l) && Span(t, l, Space) == m
    requires Plus(t, m, Digit) == Some(n) && Tokens(t, n, upper) == Some(end)
    ensures LoopLimit(t, v, g, h) == Some(Match(t[..end], [v, t[g..h], t[m..n]]))
  {
  }

  /** The tokens after each bound of a loop header do not start with whitespace. */
  lemma LimitTokens(v: string, lower: seq<string>, upper: seq<string>)
    requires Identifier(v) && lower == [".0", ";", v, "<"] && upper == [".0", ";", v, "++", ")"]
    ensures forall k :: 1 <= k < |lower| ==> lower[k] != [] && !IsSpace(lower[k][0])
    ensures forall k :: 1 <= k < |upper| ==> upper[k] != [] && !IsSpace(upper[k][0])
    ensures lower[0] == ".0" && upper[0] == ".0"
  {
    assert InClass(v[0], Word);
  }

  lemma BlankThenDigits(t: string, l: nat, m: nat, n: nat)
    requires l <= m < n <= |t| && Blank(t[l..m]) && Digits(t[m..n])
    ensures Span(t, l, Space) == m
  {
    assert t[m] == t[m..n][0];
    SpanOfRun(t, l, m, Space);
  }


  lemma LoopBoundsAt(t: string, d: nat, e: nat, s: nat, g: nat, h: nat)
    requires d <= e <= s && s + 1 <= g < h < |t|
    requires Blank(t[e..s]) && t[s] == '=' && Blank(t[s + 1..g]) && Digits(t[g..h]) && t[h] == '.'
    ensures LoopBounds(t, d, e) == LoopLimit(t, t[d..e], g, h)
  {
    SpanOfRun(t, e, s, Space);
    LiteralAt(t, s, s + 1, "=");
    assert t[g] == t[g..h][0];
    SpanOfRun(t, s + 1, g, Space);
    PlusOfRun(t, g, h, Digit);
    LoopBoundsFrom(t, d, e, s, g, h);
  }

  lemma LoopHeadAt(t: string, c: nat, d: nat, e: nat, head: seq<string>)
    requires c < d < e < |t| && |head| == 2 && (forall k :: 0 <= k < 2 ==> Blank(head[k]))
    requires t[..c] == Spaced(["for", "(", "float"], head) && Blank(t[c..d]) && Identifier(t[d..e])
    requires !IsWordChar(t[e])
    ensures MatchFloatCounterLoop(t) == LoopBounds(t, d, e)
  {
    LoopHeadTokens(t, c, head);
    LoopHeadRuns(t, c, d, e);
    LoopHeadFrom(t, c, d, e, ["for", "(", "float"]);
  }

  lemma LoopHeadTokens(t: string, c: nat, head: seq<string>)
    requires c <= |t| && |head| == 2 && (forall k :: 0 <= k < 2 ==> Blank(head[k]))
    requires t[..c] == Spaced(["for", "(", "float"], head)
    ensures Tokens(t, 0, ["for", "(", "float"]) == Some(c)
  {
    assert t[0..c] == t[..c];
    TokensAt(t, 0, c, ["for", "(", "float"], head);
  }

  lemma LoopHeadRuns(t: string, c: nat, d: nat, e: nat)
    requires c < d < e < |t| && Blank(t[c..d]) && Identifier(t[d..e]) && !IsWordChar(t[e])
    ensures Plus(t, c, Space) == Some(d) && Plus(t, d, Word) == Some(e)
  {
    WordStart(t, d, e);
    PlusOfRun(t, c, d, Space);
    PlusOfRun(t, d, e, Word);
  }

  lemma LoopHeadFrom(t: string, c: nat, d: nat, e: nat, toks: seq<string>)
    requires c <= d <= e <= |t| && toks == ["for", "(", "float"]
    requires Tokens(t, 0, toks) == Some(c) && Plus(t, c, Space) == Some(d) && Plus(t, d, Word) == Some(e)
    ensures MatchFloatCounterLoop(t) == LoopBounds(t, d, e)
  {
  }

  /** An identifier starts with a word character, which is not whitespace. */
  lemma WordStart(t: string, d: nat, e: nat)
    requires d < e <= |t| && Identifier(t[d..e])
    ensures IsWordChar(t[d]) && !IsSpace(t[d])
  {
    assert t[d] == t[d..e][0];
  }

  lemma LoopAt(t: string, c: nat, d: nat, e: nat, s: nat, g: nat, h: nat, l: nat, m: nat, n: nat, end: nat,
               head: seq<string>, limit: seq<string>, step: seq<string>)
    requires c < d < e <= s && s + 1 <= g < h <= l <= m < n <= end <= |t|
    requires |head| == 2 && (forall k :: 0 <= k < 2 ==> Blank(head[k]))
    requires |limit| == 3 && (forall k :: 0 <= k < 3 ==> Blank(limit[k]))
    requires |step| == 4 && (forall k :: 0 <= k < 4 ==> Blank(step[k]))
    requires t[..c] == Spaced(["for", "(", "float"], head) && Blank(t[c..d]) && Identifier(t[d..e])
    requires Blank(t[e..s]) && t[s] == '=' && Blank(t[s + 1..g]) && Digits(t[g..h])
    requires t[h..l] == Spaced([".0", ";", t[d..e], "<"], limit) && Blank(t[l..m]) && Digits(t[m..n])
    requires t[n..end] == Spaced([".0", ";", t[d..e], "++", ")"], step)
    ensures MatchFloatCounterLoop(t) == Some(Match(t[..end], [t[d..e], t[g..h], t[m..n]]))
  {
    DotFollows(t, h, l, [".0", ";", t[d..e], "<"], limit);
    NameEnds(t, e, s);
    LoopHeadAt(t, c, d, e, head);
    LoopBoundsAt(t, d, e, s, g, h);
    LoopLimitAt(t, t[d..e], g, h, l, m, n, end, limit, step);
  }

  /** Text spelling out tokens that start with `.0` starts with a dot. */
  lemma DotFollows(t: string, h: nat, l: nat, toks: seq<string>, ws: seq<string>)
    requires h <= l <= |t| && |toks| == |ws| + 1 && toks[0] == ".0" && t[h..l] == Spaced(toks, ws)
    ensures h < |t| && t[h] == '.'
  {
    SpacedFirst(toks, ws);
    assert t[h] == t[h..l][0];
  }

  lemma NameEnds(t: string, e: nat, s: nat)
    requires e <= s < |t| && Blank(t[e..s]) && t[s] == '='
    ensures !IsWordChar(t[e])
  {
    if s > e {
      assert t[e] == t[e..s][0];
    }
  }

  /** Conversely, such a loop header matches whatever follows it. */
  lemma FloatCounterLoopComplete(w: seq<string>, v: string, a: string, b: string, rest: string)
    requires Spacing(w, 13, {2}) && Identifier(v) && Digits(a) && Digits(b)
    ensures MatchPrefix(FloatCounterLoop, LoopText(w, v, a, b) + rest) == Some(Match(LoopText(w, v, a, b), [v, a, b]))
  {
    var t := LoopText(w, v, a, b) + rest;
    assert t[..|LoopText(w, v, a, b)|] == LoopText(w, v, a, b);
    LoopCompleteOn(t, w, v, a, b);
    LoopPattern(t);
  }

  lemma LoopCompleteOn(t: string, w: seq<string>, v: string, a: string, b: string)
    requires Spacing(w, 13, {2}) && Identifier(v) && Digits(a) && Digits(b)
    requires |LoopText(w, v, a, b)| <= |t| && t[..|LoopText(w, v, a, b)|] == LoopText(w, v, a, b)
    ensures MatchFloatCounterLoop(t) == Some(Match(LoopText(w, v, a, b), [v, a, b]))
  {
    var c, d, e, s, g, h, l, m, n, end := LoopLayout(t, w, v, a, b);
    LoopWhitespace(w);
    LoopAt(t, c, d, e, s, g, h, l, m, n, end, w[..2], w[5..8], w[9..]);
  }

  lemma LoopWhitespace(w: seq<string>)
    requires Spacing(w, 13, {2})
    ensures w[2] != [] && Blank(w[2]) && Blank(w[3]) && Blank(w[4]) && Blank(w[8])
    ensures |w[..2]| == 2 && (forall k :: 0 <= k < 2 ==> Blank(w[..2][k]))
    ensures |w[5..8]| == 3 && (forall k :: 0 <= k < 3 ==> Blank(w[5..8][k]))
    ensures |w[9..]| == 4 && (forall k :: 0 <= k < 4 ==> Blank(w[9..][k]))
  {
  }

  lemma LoopPattern(t: string)
    ensures MatchPrefix(FloatCounterLoop, t) == MatchFloatCounterLoop(t)
  {
  }

  // ---------------------------------------------------------------------------
  // Entry-point signatures

  const Returns: seq<string> := ["half4", "vec4", "float4"]
  const Parameters: seq<string> := ["float2", "vec2"]

  /** ret w0 `main` w1 `(` w2 [`in` w3] pty w4 id w5 `)` */
  function MainText(w: seq<string>, qualified: bool, ret: string, pty: string, id: string): string
    requires |w| == 6
  {
    ret + w[0] + NameText(w[1], w[2], w[3], qualified) + pty + w[4] + id + w[5] + ")"
  }

  /** `main` w1 `(` w2 [`in` w3]: the text between the return type's spacing
    * and the parameter type. */
  function NameText(w1: string, w2: string, w3: string, qualified: bool): string {
    "main" + w1 + "(" + w2 + (if qualified then "in" + w3 else "")
  }

  /** The whitespace of a signature: runs everywhere, non-empty after the
    * return type, after `in` when it is there, and after the parameter type. */
  predicate MainSpacing(w: seq<string>, qualified: bool) {
    Spacing(w, 6, {0, 4}) && (qualified ==> w[3] != [])
  }

  lemma MainReturnStep(t: string, alternatives: seq<string>)
    requires alternatives != []
    ensures var first := MainAfterReturn(t, alternatives[0]);
      MainReturn(t, alternatives) == if first.Some? then first else MainReturn(t, alternatives[1..])
  {
  }

  /** The return type a signature match starts with. */
  lemma MainReturnFound(t: string) returns (ret: string)
    requires MainReturn(t, Returns).Some?
    ensures ret in Returns && MainReturn(t, Returns) == MainAfterReturn(t, ret)
  {
    MainReturnStep(t, Returns);
    if MainAfterReturn(t, Returns[0]).Some? {
      return Returns[0];
    }
    assert Returns[1..] == ["vec4", "float4"];
    MainReturnStep(t, Returns[1..]);
    if MainAfterReturn(t, Returns[1]).Some? {
      return Returns[1];
    }
    assert Returns[2..] == ["float4"];
    assert Returns[1..][1..] == Returns[2..];
    MainReturnStep(t, Returns[2..]);
    return Returns[2];
  }

  lemma {:induction false} MainParameterFound(t: string, i: nat, types: seq<string>, ret: string) returns (j: nat)
    requires i <= |t| && MainParameter(t, i, types, ret).Some?
    ensures j < |types| && MainParameter(t, i, types, ret) == MainParameterAs(t, i, types[j], ret)
    decreases |types|
  {
    if MainParameterAs(t, i, types[0], ret).Some? {
      j := 0;
    } else {
      var k := MainParameterFound(t, i, types[1..], ret);
      j := k + 1;
    }
  }

  lemma MainParameterParts(t: string, i: nat, ty: string, ret: string) returns (a: nat, b: nat, c: nat, d: nat)
    requires i <= |t| && MainParameterAs(t, i, ty, ret).Some?
    ensures i <= a < b < c <= d < |t| && t[i..a] == ty && Blank(t[a..b]) && Identifier(t[b..c])
    ensures Blank(t[c..d]) && t[d] == ')'
    ensures MainParameterAs(t, i, ty, ret) == Some(Match(t[..d + 1], [ret, ty, t[b..c]]))
  {
    a := i + |ty|;
    b := Plus(t, a, Space).value;
    c := Plus(t, b, Word).value;
    d := Span(t, c, Space);
    assert t[d] == t[d..][0];
  }

  lemma MainParameterMatch(t: string, i: nat, ret: string) returns (pty: string, a: nat, b: nat, c: nat, d: nat)
    requires i <= |t| && MainParameter(t, i, Parameters, ret).Some?
    ensures pty in Parameters && i <= a < b < c <= d < |t| && t[i..a] == pty && Blank(t[a..b]) && Identifier(t[b..c])
    ensures Blank(t[c..d]) && t[d] == ')'
    ensures MainParameter(t, i, Parameters, ret) == Some(Match(t[..d + 1], [ret, pty, t[b..c]]))
  {
    var j := MainParameterFound(t, i, Parameters, ret);
    pty := Parameters[j];
    a, b, c, d := MainParameterParts(t, i, pty, ret);
  }

  lemma MainHeadParts(t: string, ret: string) returns (a: nat, b: nat)
    requires MainAfterReturn(t, ret).Some?
    ensures a < b <= |t| && t[..a] == ret && Blank(t[a..b]) && MainAfterReturn(t, ret) == MainName(t, b, ret)
  {
    a := |ret|;
    assert t[..a] == ret by {
      assert ret <= t[0..];
    }
    b := Plus(t, a, Space).value;
  }

  lemma MainNameParts(t: string, b: nat, ret: string) returns (d: nat, e: nat, w1: string)
    requires b <= |t| && MainName(t, b, ret).Some?
    ensures b <= d <= e <= |t| && Blank(w1) && t[b..d] == "main" + w1 + "(" && Blank(t[d..e])
    ensures var q := Qualified(t, e, ret);
      MainName(t, b, ret) == if q.Some? then q else MainParameter(t, e, Parameters, ret)
  {
    d := Tokens(t, b, ["main", "("]).value;
    var ws := TokensSound(t, b, ["main", "("]);
    w1 := ws[0];
    assert Spaced(["main", "("], ws) == "main" + w1 + "(";
    e := Span(t, d, Space);
  }

  lemma QualifiedParts(t: string, e: nat, ret: string) returns (g: nat)
    requires e <= |t| && Qualified(t, e, ret).Some?
    ensures e + 2 < g <= |t| && t[e..e + 2] == "in" && Blank(t[e + 2..g])
    ensures Qualified(t, e, ret) == MainParameter(t, g, Parameters, ret)
  {
    g := Plus(t, e + 2, Space).value;
  }

  lemma MainNameMatch(t: string, b: nat, ret: string) returns (qualified: bool, g: nat, w1: string, w2: string, w3: string)
    requires b <= |t| && MainName(t, b, ret).Some?
    ensures b <= g <= |t| && Blank(w1) && Blank(w2) && Blank(w3) && (qualified ==> w3 != [])
    ensures t[b..g] == NameText(w1, w2, w3, qualified)
    ensures MainName(t, b, ret) == MainParameter(t, g, Parameters, ret)
  {
    var d, e;
    d, e, w1 := MainNameParts(t, b, ret);
    w2 := t[d..e];
    qualified, g, w3 := QualifierMatch(t, e, ret);
    NameAssembled(t, b, d, e, g, w1, w3, qualified);
  }

  /** The optional `in\s+` qualifier at `e`: taken when the rest matches after it. */
  lemma QualifierMatch(t: string, e: nat, ret: string) returns (qualified: bool, g: nat, w3: string)
    requires e <= |t|
    ensures qualified <==> Qualified(t, e, ret).Some?
    ensures e <= g <= |t| && Blank(w3) && (qualified ==> w3 != [] && t[e..g] == "in" + w3)
    ensures !qualified ==> g == e && w3 == ""
    ensures qualified ==> Qualified(t, e, ret) == MainParameter(t, g, Parameters, ret)
  {
    qualified := Qualified(t, e, ret).Some?;
    if qualified {
      g := QualifiedParts(t, e, ret);
      w3 := t[e + 2..g];
      Cut(t, e, e + 2, g);
    } else {
      g, w3 := e, "";
    }
  }

  lemma NameAssembled(t: string, b: nat, d: nat, e: nat, g: nat, w1: string, w3: string, qualified: bool)
    requires b <= d <= e <= g <= |t| && t[b..d] == "main" + w1 + "("
    requires qualified ==> t[e..g] == "in" + w3
    requires !qualified ==> g == e && w3 == ""
    ensures t[b..g] == NameText(w1, t[d..e], w3, qualified)
  {
    Cut(t, b, d, e);
    Cut(t, b, e, g);
  }

  lemma HeadSpacing(w0: string, w1: string, w2: string, w3: string)
    requires w0 != [] && Blank(w0) && Blank(w1) && Blank(w2) && Blank(w3)
    ensures Spacing([w0, w1, w2, w3], 4, {0})
  {
    var w := [w0, w1, w2, w3];
    forall k | 0 <= k < 4
      ensures Blank(w[k])
    {
    }
  }

  lemma MainTailAssembled(t: string, g: nat, pa: nat, pb: nat, pc: nat, pd: nat)
    requires g <= pa <= pb <= pc <= pd < |t| && t[pd] == ')'
    ensures t[..pd + 1] == t[..g] + t[g..pa] + t[pa..pb] + t[pb..pc] + t[pc..pd] + ")"
  {
    Cut(t, 0, g, pa);
    Cut(t, 0, pa, pb);
    Cut(t, 0, pb, pc);
    Cut(t, 0, pc, pd);
    Cut(t, 0, pd, pd + 1);
    assert t[pd..pd + 1] == ")";
  }

  lemma MainHeadMatch(t: string) returns (ret: string, qualified: bool, g: nat, head: seq<string>)
    requires MainReturn(t, Returns).Some?
    ensures ret in Returns && g <= |t| && |head| == 4 && Spacing(head, 4, {0}) && (qualified ==> head[3] != [])
    ensures t[..g] == ret + head[0] + NameText(head[1], head[2], head[3], qualified)
    ensures MainReturn(t, Returns) == MainParameter(t, g, Parameters, ret)
  {
    ret := MainReturnFound(t);
    var a, b := MainHeadParts(t, ret);
    var w1, w2, w3;
    qualified, g, w1, w2, w3 := MainNameMatch(t, b, ret);
    head := [t[a..b], w1, w2, w3];
    HeadSpacing(t[a..b], w1, w2, w3);
    Cut(t, 0, a, b);
    Cut(t, 0, b, g);
  }

  lemma MainMatchShape(t: string) returns (w: seq<string>, qualified: bool, ret: string, pty: string, id: string)
    requires MainReturn(t, Returns).Some?
    ensures MainSpacing(w, qualified) && ret in Returns && pty in Parameters && Identifier(id)
    ensures MainReturn(t, Returns) == Some(Match(MainText(w, qualified, ret, pty, id), [ret, pty, id]))
  {
    var g, head;
    ret, qualified, g, head := MainHeadMatch(t);
    var pa, pb, pc, pd;
    pty, pa, pb, pc, pd := MainParameterMatch(t, g, ret);
    id := t[pb..pc];
    w := head + [t[pa..pb], t[pc..pd]];
    assert w[..4] == head;
    MainTailAssembled(t, g, pa, pb, pc, pd);
  }

  /** A signature match has one of the listed return and parameter types, an
    * identifier as the parameter name, and an optional `in` qualifier, and
    * captures the return type, the parameter type and the parameter name. */
  lemma MainSignatureSound(t: string)
    requires MatchPrefix(MainSignature, t).Some?
    ensures var m := MatchPrefix(MainSignature, t).value;
      |m.groups| == 3 && m.groups[0] in Returns && m.groups[1] in Parameters && Identifier(m.groups[2]) &&
      exists w, qualified :: MainSpacing(w, qualified) && m.text == MainText(w, qualified, m.groups[0], m.groups[1], m.groups[2])
  {
    var w, qualified, ret, pty, id := MainMatchShape(t);
  }

  /** The listed return types start with different letters, so only the one
    * written can be tried past its first character. */
  lemma MainReturnChosen(t: string, ret: string)
    requires ret in Returns && |ret| <= |t| && t[..|ret|] == ret
    ensures MainReturn(t, Returns) == MainAfterReturn(t, ret)
  {
    var half, vec, float := MainAfterReturn(t, "half4"), MainAfterReturn(t, "vec4"), MainAfterReturn(t, "float4");
    MainReturnUnfold(t);
    ReturnLetters(ret);
    assert t[0] == t[..|ret|][0];
    if ret != "half4" {
      ReturnMisses(t, "half4");
    }
    if ret != "vec4" {
      ReturnMisses(t, "vec4");
    }
    if ret != "float4" {
      ReturnMisses(t, "float4");
    }
  }

  /** The return types differ in their first letter. */
  lemma ReturnLetters(ret: string)
    requires ret in Returns
    ensures ret != [] && (ret[0] == 'h' <==> ret == "half4") && (ret[0] == 'v' <==> ret == "vec4")
    ensures ret[0] == 'f' <==> ret == "float4"
  {
  }

  /** The three return types, tried in order. */
  lemma MainReturnUnfold(t: string)
    ensures var half, vec, float := MainAfterReturn(t, "half4"), MainAfterReturn(t, "vec4"), MainAfterReturn(t, "float4");
      MainReturn(t, Returns) == if half.Some? then half else if vec.Some? then vec else float
  {
    MainReturnStep(t, Returns);
    assert Returns[1..] == ["vec4", "float4"];
    MainReturnStep(t, Returns[1..]);
    assert Returns[1..][1..] == ["float4"];
    MainReturnStep(t, Returns[1..][1..]);
  }

  /** A return type whose first letter is not the text's first letter does not match. */
  lemma ReturnMisses(t: string, other: string)
    requires t != [] && other != [] && t[0] != other[0]
    ensures MainAfterReturn(t, other) == None
  {
    assert Literal(t, 0, other) == None;
  }

  lemma MainParameterChosen(t: string, i: nat, pty: string, ret: string)
    requires pty in Parameters && i + |pty| <= |t| && t[i..i + |pty|] == pty
    ensures MainParameter(t, i, Parameters, ret) == MainParameterAs(t, i, pty, ret)
  {
    assert t[i] == pty[0];
    assert Parameters[1..] == ["vec2"];
    if pty == Parameters[1] {
      assert Literal(t, i, Parameters[0]).None?;
    }
  }

  lemma MainParameterAt(t: string, i: nat, a: nat, b: nat, c: nat, d: nat, ret: string)
    requires i <= a < b < c <= d < |t| && Blank(t[a..b]) && Identifier(t[b..c]) && Blank(t[c..d]) && t[d] == ')'
    ensures MainParameterAs(t, i, t[i..a], ret) == Some(Match(t[..d + 1], [ret, t[i..a], t[b..c]]))
  {
    assert Literal(t, i, t[i..a]) == Some(a);
    assert Plus(t, a, Space) == Some(b) by {
      assert t[b] == t[b..c][0];
      assert t[a] == t[a..b][0];
      SpanOfRun(t, a, b, Space);
    }
    assert Plus(t, b, Word) == Some(c) by {
      if c < d {
        assert t[c] == t[c..d][0];
      }
      assert t[b] == t[b..c][0];
      SpanOfRun(t, b, c, Word);
    }
    assert Span(t, c, Space) == d by {
      SpanOfRun(t, c, d, Space);
    }
    assert Literal(t, d, ")") == Some(d + 1) by {
      assert t[d..][..1] == [t[d]];
    }
  }

  lemma QualifiedAt(t: string, e: nat, g: nat, ret: string)
    requires e + 2 < g < |t| && t[e..e + 2] == "in" && Blank(t[e + 2..g]) && !IsSpace(t[g])
    ensures Qualified(t, e, ret) == MainParameter(t, g, Parameters, ret)
  {
    assert Literal(t, e, "in") == Some(e + 2) by {
      assert t[e..][..2] == t[e..e + 2];
    }
    assert Plus(t, e + 2, Space) == Some(g) by {
      assert t[e + 2] == t[e + 2..g][0];
      SpanOfRun(t, e + 2, g, Space);
    }
  }

  lemma MainNamePrefix(t: string, b: nat, d: nat, e: nat, w1: string, ret: string)
    requires b <= d <= e < |t| && Blank(w1) && t[b..d] == "main" + w1 + "(" && Blank(t[d..e]) && !IsSpace(t[e])
    ensures var q := Qualified(t, e, ret);
      MainName(t, b, ret) == if q.Some? then q else MainParameter(t, e, Parameters, ret)
  {
    assert Tokens(t, b, ["main", "("]) == Some(d) by {
      assert Spaced(["main", "("], [w1]) == "main" + w1 + "(";
      TokensAt(t, b, d, ["main", "("], [w1]);
    }
    assert Span(t, d, Space) == e by {
      SpanOfRun(t, d, e, Space);
    }
  }

  lemma MainNameAt(t: string, b: nat, d: nat, e: nat, g: nat, w1: string, qualified: bool, ret: string)
    requires b <= d <= e <= g < |t| && Blank(w1) && t[b..d] == "main" + w1 + "(" && Blank(t[d..e]) && !IsSpace(t[e])
    requires qualified ==> e + 2 < g && t[e..e + 2] == "in" && Blank(t[e + 2..g]) && !IsSpace(t[g])
    requires !qualified ==> g == e && t[e] != 'i'
    requires MainParameter(t, g, Parameters, ret).Some?
    ensures MainName(t, b, ret) == MainParameter(t, g, Parameters, ret)
  {
    MainNamePrefix(t, b, d, e, w1, ret);
    if qualified {
      QualifiedAt(t, e, g, ret);
    } else {
      assert Literal(t, e, "in").None? by {
        assert t[e..][0] == t[e];
      }
    }
  }

  lemma MainHeadAt(t: string, a: nat, b: nat, ret: string)
    requires ret in Returns && a < b < |t| && t[..a] == ret && Blank(t[a..b]) && !IsSpace(t[b])
    ensures MainReturn(t, Returns) == MainName(t, b, ret)
  {
    MainReturnChosen(t, ret);
    assert Literal(t, 0, ret) == Some(a) by {
      assert t[0..][..a] == t[..a];
    }
    assert Plus(t, a, Space) == Some(b) by {
      assert t[a] == t[a..b][0];
      SpanOfRun(t, a, b, Space);
    }
  }

  lemma NameLayout(t: string, b: nat, w1: string, w2: string, w3: string, qualified: bool) returns (d: nat, e: nat, g: nat)
    requires b + |NameText(w1, w2, w3, qualified)| <= |t| && t[b..b + |NameText(w1, w2, w3, qualified)|] == NameText(w1, w2, w3, qualified)
    ensures b <= d <= e <= g == b + |NameText(w1, w2, w3, qualified)| && t[b..d] == "main" + w1 + "(" && t[d..e] == w2
    ensures qualified ==> e + 2 <= g && t[e..e + 2] == "in" && t[e + 2..g] == w3
    ensures !qualified ==> g == e
  {
    var x := "main" + w1 + "(";
    var q := if qualified then "in" + w3 else "";
    assert NameText(w1, w2, w3, qualified) == x + w2 + q;
    SliceSplit(t, b, x + w2, q);
    SliceSplit(t, b, x, w2);
    d, e, g := b + |x|, b + |x| + |w2|, b + |NameText(w1, w2, w3, qualified)|;
    if qualified {
      SliceSplit(t, e, "in", w3);
    }
  }

  lemma MainLayout(t: string, w: seq<string>, qualified: bool, ret: string, pty: string, id: string)
      returns (a: nat, b: nat, g: nat, pa: nat, pb: nat, pc: nat, pd: nat)
    requires |w| == 6
    requires |MainText(w, qualified, ret, pty, id)| <= |t| && t[..|MainText(w, qualified, ret, pty, id)|] == MainText(w, qualified, ret, pty, id)
    ensures a <= b <= g <= pa <= pb <= pc <= pd < |t| && pd + 1 == |MainText(w, qualified, ret, pty, id)|
    ensures t[..a] == ret && t[a..b] == w[0] && t[b..g] == NameText(w[1], w[2], w[3], qualified)
    ensures t[g..pa] == pty && t[pa..pb] == w[4] && t[pb..pc] == id && t[pc..pd] == w[5] && t[pd] == ')'
  {
    var x1 := ret + w[0];
    var x2 := x1 + NameText(w[1], w[2], w[3], qualified);
    var x3 := x2 + pty;
    var x4 := x3 + w[4];
    var x5 := x4 + id;
    var x6 := x5 + w[5];
    Peel(t, x6, ")");
    Peel(t, x5, w[5]);
    Peel(t, x4, id);
    Peel(t, x3, w[4]);
    Peel(t, x2, pty);
    Peel(t, x1, NameText(w[1], w[2], w[3], qualified));
    Peel(t, ret, w[0]);
    a, b, g, pa, pb, pc, pd := |ret|, |x1|, |x2|, |x3|, |x4|, |x5|, |x6|;
    assert t[pd] == t[pd..pd + 1][0];
  }

  lemma MainAt(t: string, a: nat, b: nat, d: nat, e: nat, g: nat, pa: nat, pb: nat, pc: nat, pd: nat,
               w1: string, qualified: bool, ret: string)
    requires a < b <= d <= e <= g < pa < pb < pc <= pd < |t| && ret in Returns && t[g..pa] in Parameters
    requires t[..a] == ret && Blank(t[a..b]) && !IsSpace(t[b])
    requires Blank(w1) && t[b..d] == "main" + w1 + "(" && Blank(t[d..e]) && !IsSpace(t[e])
    requires qualified ==> e + 2 < g && t[e..e + 2] == "in" && Blank(t[e + 2..g]) && !IsSpace(t[g])
    requires !qualified ==> g == e && t[e] != 'i'
    requires Blank(t[pa..pb]) && Identifier(t[pb..pc]) && Blank(t[pc..pd]) && t[pd] == ')'
    ensures MainReturn(t, Returns) == Some(Match(t[..pd + 1], [ret, t[g..pa], t[pb..pc]]))
  {
    MainParameterChosen(t, g, t[g..pa], ret);
    MainParameterAt(t, g, pa, pb, pc, pd, ret);
    MainNameAt(t, b, d, e, g, w1, qualified, ret);
    MainHeadAt(t, a, b, ret);
  }

  lemma MainOn(t: string, w: seq<string>, qualified: bool, ret: string, pty: string, id: string)
    requires MainSpacing(w, qualified) && ret in Returns && pty in Parameters && Identifier(id)
    requires |MainText(w, qualified, ret, pty, id)| <= |t| && t[..|MainText(w, qualified, ret, pty, id)|] == MainText(w, qualified, ret, pty, id)
    ensures MainReturn(t, Returns) == Some(Match(MainText(w, qualified, ret, pty, id), [ret, pty, id]))
  {
    var a, b, g, pa, pb, pc, pd := MainLayout(t, w, qualified, ret, pty, id);
    var d, e, g' := NameLayout(t, b, w[1], w[2], w[3], qualified);
    MainStarts(t, a, b, d, e, g, pa, pb, pc, pd, w, qualified, ret, pty, id);
    MainAt(t, a, b, d, e, g, pa, pb, pc, pd, w[1], qualified, ret);
    MainGroups(t, g, pa, pb, pc, pd, ret, pty, id, MainText(w, qualified, ret, pty, id));
  }

  lemma MainGroups(t: string, g: nat, pa: nat, pb: nat, pc: nat, pd: nat, ret: string, pty: string, id: string, text: string)
    requires g <= pa <= pb <= pc <= pd < |t| && t[g..pa] == pty && t[pb..pc] == id
    requires pd + 1 == |text| && t[..|text|] == text
    ensures Match(t[..pd + 1], [ret, t[g..pa], t[pb..pc]]) == Match(text, [ret, pty, id])
  {
  }

  /** The facts about the written-out signature that the matcher relies on. */
  lemma MainStarts(t: string, a: nat, b: nat, d: nat, e: nat, g: nat, pa: nat, pb: nat, pc: nat, pd: nat,
                   w: seq<string>, qualified: bool, ret: string, pty: string, id: string)
    requires MainSpacing(w, qualified) && pty in Parameters && Identifier(id)
    requires a <= b <= g <= pa <= pb <= pc <= pd < |t|
    requires t[a..b] == w[0] && t[g..pa] == pty && t[pa..pb] == w[4] && t[pb..pc] == id && t[pc..pd] == w[5]
    requires b <= d <= e <= g && t[b..d] == "main" + w[1] + "(" && t[d..e] == w[2]
    requires qualified ==> e + 2 <= g && t[e..e + 2] == "in" && t[e + 2..g] == w[3]
    requires !qualified ==> g == e
    ensures a < b < d && g < pa < pb < pc
    ensures Blank(t[a..b]) && !IsSpace(t[b]) && Blank(w[1]) && Blank(t[d..e]) && !IsSpace(t[e])
    ensures qualified ==> e + 2 < g && Blank(t[e + 2..g]) && !IsSpace(t[g])
    ensures !qualified ==> t[e] != 'i'
    ensures Blank(t[pa..pb]) && Identifier(t[pb..pc]) && Blank(t[pc..pd])
  {
    assert t[b] == t[b..d][0];
    assert t[g] == t[g..pa][0];
    MainNameStart(t, e, g, pa, pty, qualified);
  }

  /** After `(` and its whitespace comes `in` or the parameter type. */
  lemma MainNameStart(t: string, e: nat, g: nat, pa: nat, pty: string, qualified: bool)
    requires e <= g < pa <= |t| && t[g..pa] == pty && pty in Parameters
    requires qualified ==> e + 2 <= g && t[e..e + 2] == "in"
    requires !qualified ==> g == e
    ensures !IsSpace(t[e]) && (!qualified ==> t[e] != 'i')
  {
    if qualified {
      assert t[e] == t[e..e + 2][0];
    } else {
      assert t[e] == t[g..pa][0];
    }
  }

  /** Every signature written with one of the listed return and parameter
    * types, an identifier and any whitespace the pattern allows is matched
    * whole, with its three groups. */
  lemma MainSignatureComplete(w: seq<string>, qualified: bool, ret: string, pty: string, id: string, rest: string)
    requires MainSpacing(w, qualified) && ret in Returns && pty in Parameters && Identifier(id)
    ensures MatchPrefix(MainSignature, MainText(w, qualified, ret, pty, id) + rest) ==
            Some(Match(MainText(w, qualified, ret, pty, id), [ret, pty, id]))
  {
    var t := MainText(w, qualified, ret, pty, id) + rest;
    assert t[..|MainText(w, qualified, ret, pty, id)|] == MainText(w, qualified, ret, pty, id);
    MainOn(t, w, qualified, ret, pty, id);
  }

  // ---------------------------------------------------------------------------
  // Advisory patterns

  /** A `#define` match is the directive followed by all the whitespace
    * after it. */
  lemma DefineDirectiveSound(t: string)
    requires MatchPrefix(DefineDirective, t).Some?
    ensures var m := MatchPrefix(DefineDirective, t).value;
      m.groups == [] && (exists w :: w != [] && Blank(w) && m.text == "#define" + w) &&
      (|m.text| == |t| || !IsSpace(t[|m.text|]))
  {
    assert MatchPrefix(DefineDirective, t) == MatchDefineDirective(t);
    var b := Span(t, 7, Space);
    assert t[..7] == "#define" by {
      assert "#define" <= t[0..];
    }
    assert t[..b] == "#define" + t[7..b] by {
      assert t[..b] == t[..7] + t[7..b];
    }
  }

  /** Conversely, `#define` and whitespace up to a character that is not
    * whitespace match whole. */
  lemma DefineDirectiveComplete(w: string, rest: string)
    requires w != [] && Blank(w) && (rest == [] || !IsSpace(rest[0]))
    ensures MatchPrefix(DefineDirective, "#define" + w + rest) == Some(Match("#define" + w, []))
  {
    var t := "#define" + w + rest;
    assert t[..7] == "#define" && t[7..7 + |w|] == w;
    LiteralAt(t, 0, 7, "#define");
    PlusOfRun(t, 7, 7 + |w|, Space);
    assert t[..7 + |w|] == "#define" + w;
  }

  /** `for` w0 `(` body `;` w1 v w2 op w3 c */
  function DynamicLoopText(w0: string, body: string, w: seq<string>, v: string, op: string, c: char): string
    requires |w| == 3
  {
    "for" + w0 + "(" + body + ";" + w[0] + v + w[1] + op + w[2] + [c]
  }

  /** The parts of a dynamic-loop condition text. */
  predicate DynamicLoopParts(w0: string, body: string, w: seq<string>, v: string, op: string, c: char) {
    Blank(w0) && AllIn(body, NotLineTerminator) && Spacing(w, 3, {}) && Identifier(v)
    && op != [] && AllIn(op, Comparison) && InClass(c, IdentStart)
  }

  /** A dynamic-loop match is `for`, whitespace, `(`, the rest of a line up
    * to a `;`, then a word, comparison operators and the first letter of
    * what is compared, with whitespace allowed between them. */
  lemma DynamicLoopSound(t: string)
    requires MatchPrefix(DynamicLoop, t).Some?
    ensures var m := MatchPrefix(DynamicLoop, t).value;
      m.groups == [] &&
      exists w0, body, w, v, op, c :: |w| == 3 && DynamicLoopParts(w0, body, w, v, op, c) &&
        m.text == DynamicLoopText(w0, body, w, v, op, c)
  {
    DynamicLoopMatcher(t);
    var w0, body, w, v, op, c := DynamicLoopWitness(t);
  }

  lemma DynamicLoopMatcher(t: string)
    ensures MatchPrefix(DynamicLoop, t) == MatchDynamicLoop(t)
  {
  }

  lemma DynamicLoopWitness(t: string) returns (w0: string, body: string, w: seq<string>, v: string, op: string, c: char)
    requires MatchDynamicLoop(t).Some?
    ensures |w| == 3 && DynamicLoopParts(w0, body, w, v, op, c)
    ensures MatchDynamicLoop(t) == Some(Match(DynamicLoopText(w0, body, w, v, op, c), []))
  {
    var c0 := Tokens(t, 0, ["for", "("]).value;
    var ws := TokensSound(t, 0, ["for", "("]);
    var q := Span(t, c0, NotLineTerminator);
    var p := LoopConditionFound(t, c0, q);
    var s1, b, s2, d, e := ConditionParts(t, p);
    SliceIn(t, c0, p, q, NotLineTerminator);
    w0, body, w, v, op, c := ws[0], t[c0..p], [t[p + 1..s1], t[b..s2], t[d..e]], t[s1..b], t[s2..d], t[e];
    assert Blank(w0);
    PartsHold(w0, body, w[0], w[1], w[2], v, op, c);
    DynamicLoopAssembled(t, w0, c0, p, s1, b, s2, d, e);
  }

  lemma PartsHold(w0: string, body: string, w1: string, w2: string, w3: string, v: string, op: string, c: char)
    requires Blank(w0) && AllIn(body, NotLineTerminator) && Blank(w1) && Blank(w2) && Blank(w3) && Identifier(v)
    requires op != [] && AllIn(op, Comparison) && InClass(c, IdentStart)
    ensures DynamicLoopParts(w0, body, [w1, w2, w3], v, op, c)
  {
  }

  /** A slice of a run of `cls` characters is one too. */
  lemma SliceIn(t: string, i: nat, j: nat, q: nat, cls: CharClass)
    requires i <= j <= q <= |t| && AllIn(t[i..q], cls)
    ensures AllIn(t[i..j], cls)
  {
    assert forall k :: 0 <= k < j - i ==> t[i..j][k] == t[i..q][k];
  }

  /** The `;` candidate that the condition search succeeds at. */
  lemma {:induction false} LoopConditionFound(t: string, c: nat, q: nat) returns (p: nat)
    requires c <= q <= |t| && LoopCondition(t, c, q).Some?
    ensures c <= p <= q && LoopCondition(t, c, q) == ConditionAt(t, p)
    decreases q - c
  {
    if ConditionAt(t, q).Some? || q == c {
      p := q;
    } else {
      p := LoopConditionFound(t, c, q - 1);
    }
  }

  lemma ConditionParts(t: string, p: nat) returns (s1: nat, b: nat, s2: nat, d: nat, e: nat)
    requires p <= |t| && ConditionAt(t, p).Some?
    ensures p < s1 <= b <= s2 <= d <= e < |t| && t[p] == ';'
    ensures Blank(t[p + 1..s1]) && Identifier(t[s1..b]) && Blank(t[b..s2])
    ensures t[s2..d] != [] && AllIn(t[s2..d], Comparison) && Blank(t[d..e]) && InClass(t[e], IdentStart)
    ensures ConditionAt(t, p) == Some(Match(t[..e + 1], []))
  {
    assert t[p] == t[p..][0];
    s1 := Span(t, p + 1, Space);
    b := Plus(t, s1, Word).value;
    s2 := Span(t, b, Space);
    d := Plus(t, s2, Comparison).value;
    e := Span(t, d, Space);
  }

  lemma DynamicLoopAssembled(t: string, w0: string, c0: nat, p: nat, s1: nat, b: nat, s2: nat, d: nat, e: nat)
    requires c0 <= p < s1 <= b <= s2 <= d <= e < |t| && t[p] == ';'
    requires t[0..c0] == Spaced(["for", "("], [w0])
    ensures t[..e + 1] == DynamicLoopText(w0, t[c0..p], [t[p + 1..s1], t[b..s2], t[d..e]], t[s1..b], t[s2..d], t[e])
  {
    assert Spaced(["for", "("], [w0]) == "for" + w0 + "(";
    assert t[..p] == t[..c0] + t[c0..p];
    assert t[..s1] == t[..p] + ";" + t[p + 1..s1];
    assert t[..b] == t[..s1] + t[s1..b];
    assert t[..s2] == t[..b] + t[b..s2];
    assert t[..d] == t[..s2] + t[s2..d];
    assert t[..e] == t[..d] + t[d..e];
    assert t[..e + 1] == t[..e] + [t[e]];
  }

  /** Conversely, every such text is the start of a dynamic-loop match,
    * whatever follows it (the match may run further along the line, as the
    * `.*` tries the last `;` first). */
  lemma DynamicLoopComplete(w0: string, body: string, w: seq<string>, v: string, op: string, c: char, rest: string)
    requires |w| == 3 && DynamicLoopParts(w0, body, w, v, op, c)
    ensures MatchPrefix(DynamicLoop, DynamicLoopText(w0, body, w, v, op, c) + rest).Some?
  {
    var t := DynamicLoopText(w0, body, w, v, op, c) + rest;
    assert t[..|DynamicLoopText(w0, body, w, v, op, c)|] == DynamicLoopText(w0, body, w, v, op, c);
    var c0 := 3 + |w0| + 1;
    var p := c0 + |body|;
    var s1 := p + 1 + |w[0]|;
    var b := s1 + |v|;
    var s2 := b + |w[1]|;
    var d := s2 + |op|;
    var e := d + |w[2]|;
    DynamicLoopLayout(t, w0, body, w, v, op, c, c0, p, s1, b, s2, d, e);
    DynamicLoopHead(t, w0, c0);
    BodyOnLine(t, c0, p, body);
    ConditionChars(t, w, v, op, c, s1, b, s2, d, e);
    ConditionFrom(t, p, s1, b, s2, d, e);
    DynamicLoopMatcher(t);
    LoopConditionReaches(t, c0, Span(t, c0, NotLineTerminator), p);
  }

  /** Where the parts of a dynamic-loop text lie in a string that starts with it. */
  lemma DynamicLoopLayout(t: string, w0: string, body: string, w: seq<string>, v: string, op: string, c: char,
                          c0: nat, p: nat, s1: nat, b: nat, s2: nat, d: nat, e: nat)
    requires |w| == 3
    requires |DynamicLoopText(w0, body, w, v, op, c)| <= |t|
    requires t[..|DynamicLoopText(w0, body, w, v, op, c)|] == DynamicLoopText(w0, body, w, v, op, c)
    requires c0 == 3 + |w0| + 1 && p == c0 + |body| && s1 == p + 1 + |w[0]| && b == s1 + |v|
    requires s2 == b + |w[1]| && d == s2 + |op| && e == d + |w[2]|
    ensures e < |t| && t[0..c0] == "for" + w0 + "(" && t[c0..p] == body && t[p] == ';' && t[p + 1..s1] == w[0]
    ensures t[s1..b] == v && t[b..s2] == w[1] && t[s2..d] == op && t[d..e] == w[2] && t[e] == c
  {
    var x1 := "for" + w0 + "(";
    var x2 := x1 + body;
    var x3 := x2 + ";";
    var x4 := x3 + w[0];
    var x5 := x4 + v;
    var x6 := x5 + w[1];
    var x7 := x6 + op;
    var x8 := x7 + w[2];
    assert x8 + [c] == DynamicLoopText(w0, body, w, v, op, c);
    Peel(t, x8, [c]);
    Peel(t, x7, w[2]);
    Peel(t, x6, op);
    Peel(t, x5, w[1]);
    Peel(t, x4, v);
    Peel(t, x3, w[0]);
    Peel(t, x2, ";");
    Peel(t, x1, body);
    assert t[0..|x1|] == t[..|x1|];
    assert t[|x8|] == t[|x8|..|x8| + 1][0];
    assert t[|x2|] == t[|x2|..|x3|][0];
  }

  lemma DynamicLoopHead(t: string, w0: string, c0: nat)
    requires Blank(w0) && c0 <= |t| && t[0..c0] == "for" + w0 + "("
    ensures Tokens(t, 0, ["for", "("]) == Some(c0)
  {
    assert Spaced(["for", "("], [w0]) == "for" + w0 + "(";
    assert forall k :: 1 <= k < |["for", "("]| ==> ["for", "("][k] != [] && !IsSpace(["for", "("][k][0]);
    TokensAt(t, 0, c0, ["for", "("], [w0]);
  }

  /** The `.*` reaches past the `;`: the body and the `;` are on one line. */
  lemma BodyOnLine(t: string, c0: nat, p: nat, body: string)
    requires c0 <= p < |t| && t[c0..p] == body && AllIn(body, NotLineTerminator) && t[p] == ';'
    ensures p < Span(t, c0, NotLineTerminator)
  {
    var s := t[c0..p + 1];
    forall k | 0 <= k < |s|
      ensures InClass(s[k], NotLineTerminator)
    {
      if k < |body| {
        assert s[k] == body[k];
      } else {
        assert s[k] == ';';
      }
    }
    SpanAtLeast(t, c0, p + 1, NotLineTerminator);
  }

  /** A greedy run goes at least as far as any run of its class. */
  lemma {:induction false} SpanAtLeast(t: string, i: nat, j: nat, cls: CharClass)
    requires i <= j <= |t| && AllIn(t[i..j], cls)
    ensures j <= Span(t, i, cls)
    decreases j - i
  {
    if i < j {
      assert t[i] == t[i..j][0];
      assert t[i + 1..j] == t[i..j][1..];
      SpanAtLeast(t, i + 1, j, cls);
    }
  }

  /** The character classes around the condition's parts. */
  lemma ConditionChars(t: string, w: seq<string>, v: string, op: string, c: char, s1: nat, b: nat, s2: nat, d: nat, e: nat)
    requires |w| == 3 && Spacing(w, 3, {}) && Identifier(v) && op != [] && AllIn(op, Comparison) && InClass(c, IdentStart)
    requires s1 < b <= s2 < d <= e < |t|
    requires t[s1..b] == v && t[b..s2] == w[1] && t[s2..d] == op && t[d..e] == w[2] && t[e] == c
    ensures !IsSpace(t[s1]) && AllIn(t[s1..b], Word) && !IsWordChar(t[b])
    ensures !IsSpace(t[s2]) && AllIn(t[s2..d], Comparison) && !InClass(t[d], Comparison)
    ensures Blank(t[b..s2]) && Blank(t[d..e]) && !IsSpace(t[e]) && InClass(t[e], IdentStart)
  {
    assert t[s1] == t[s1..b][0] && t[s2] == t[s2..d][0];
    if b < s2 {
      assert t[b] == t[b..s2][0];
    }
    if d < e {
      assert t[d] == t[d..e][0];
    }
  }

  /** The condition after the `;` at `p` matches when its parts are in place. */
  lemma ConditionFrom(t: string, p: nat, s1: nat, b: nat, s2: nat, d: nat, e: nat)
    requires p < s1 < b <= s2 < d <= e < |t| && t[p] == ';'
    requires Blank(t[p + 1..s1]) && !IsSpace(t[s1]) && AllIn(t[s1..b], Word) && !IsWordChar(t[b])
    requires Blank(t[b..s2]) && !IsSpace(t[s2]) && AllIn(t[s2..d], Comparison) && !InClass(t[d], Comparison)
    requires Blank(t[d..e]) && !IsSpace(t[e]) && InClass(t[e], IdentStart)
    ensures ConditionAt(t, p).Some?
  {
    assert Literal(t, p, ";") == Some(p + 1) by {
      assert t[p..][..1] == [t[p]];
    }
    SpanOfRun(t, p + 1, s1, Space);
    PlusOfRun(t, s1, b, Word);
    SpanOfRun(t, b, s2, Space);
    PlusOfRun(t, s2, d, Comparison);
    SpanOfRun(t, d, e, Space);
  }

  /** The search over `;` candidates finds a match when one of them has one. */
  lemma {:induction false} LoopConditionReaches(t: string, c: nat, q: nat, p: nat)
    requires c <= p <= q <= |t| && ConditionAt(t, p).Some?
    ensures LoopCondition(t, c, q).Some?
    decreases q - p
  {
    if q > p && ConditionAt(t, q).None? {
      LoopConditionReaches(t, c, q - 1, p);
    }
  }
}
