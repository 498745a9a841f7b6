/**
 * What each rewrite stage of the transpiler does to the text it is given:
 * a re-declared built-in becomes its comment, an image declaration becomes
 * its comment and contributes its name, a `.eval` call loses its dot, a
 * float-counter loop header gets an int counter, and the first entry point
 * is renamed while the text after it is kept as it is.
 */
module Stages {
  import opened Wrappers
  import opened Text
  import opened Regex
  import opened Shapes
  import opened Transpiler
  import UniformParser

  /** A re-declaration matched by a built-in pattern becomes the comment, and
    * the replace goes on after it. */
  lemma DeclarationCommented(types: seq<string>, names: Names, w: seq<string>, ty: string, name: string,
                             rest: string, comment: string)
    requires Spacing(w, 3, {0, 1}) && ty in types && NameAllowed(names, name)
    requires WordTokens(types) && (names.OneOf? ==> WordTokens(names.alternatives))
    ensures ReplaceAll(Declaration(types, names), DeclarationText(w, ty, name) + rest, [Chars(comment)])
         == comment + ReplaceAll(Declaration(types, names), rest, [Chars(comment)])
  {
    DeclarationComplete(types, names, w, ty, name, rest);
    ReplaceAllAt(Declaration(types, names), DeclarationText(w, ty, name), [ty, name], rest, [Chars(comment)]);
    LiteralExpansion(comment, [ty, name]);
  }

  lemma LiteralExpansion(s: string, groups: seq<string>)
    ensures Expand([Chars(s)], groups) == s
  {
    assert [Chars(s)][1..] == [];
  }

  /** `uniform sampler2D uShapeMask;` (with any spacing) becomes
    * `// uShapeMask removed`. */
  lemma MaskCommented(w: seq<string>, rest: string)
    requires Spacing(w, 3, {0, 1})
    ensures ReplaceAll(MaskDecl, DeclarationText(w, "sampler2D", "uShapeMask") + rest, [Chars("// uShapeMask removed")])
         == "// uShapeMask removed" + ReplaceAll(MaskDecl, rest, [Chars("// uShapeMask removed")])
  {
    assert WordTokens(["sampler2D"]) && WordTokens(["uShapeMask"]) by {
      assert Identifier("sampler2D") && Identifier("uShapeMask");
    }
    DeclarationCommented(["sampler2D"], OneOf(["uShapeMask"]), w, "sampler2D", "uShapeMask", rest, "// uShapeMask removed");
  }

  /** An image declaration is one piece of the scan; the callback replaces it
    * by `// moved <name>` and pushes the name, or by `// built-in mask` and
    * pushes nothing when the name is `uShapeMask`. */
  lemma ImageDeclarationMoved(w: seq<string>, ty: string, name: string, rest: string)
    requires Spacing(w, 3, {0, 1}) && ty in ["shader", "sampler2D"] && Identifier(name)
    ensures ImageHits(Scan(ImageDecl, DeclarationText(w, ty, name) + rest)) && ImageHits(Scan(ImageDecl, rest))
    ensures MovedText(Scan(ImageDecl, DeclarationText(w, ty, name) + rest)) ==
      (if name == "uShapeMask" then "// built-in mask" else "// moved " + name) + MovedText(Scan(ImageDecl, rest))
    ensures ImageNames(Scan(ImageDecl, DeclarationText(w, ty, name) + rest)) ==
      (if name == "uShapeMask" then [] else [name]) + ImageNames(Scan(ImageDecl, rest))
  {
    var t := DeclarationText(w, ty, name) + rest;
    ImageScanFirst(w, ty, name, rest);
    ImageScanHits(t);
    ImageScanHits(rest);
    var pieces := Scan(ImageDecl, t);
    assert pieces[1..] == Scan(ImageDecl, rest);
  }

  /** The scan of an image declaration starts with its hit and goes on with the rest. */
  lemma ImageScanFirst(w: seq<string>, ty: string, name: string, rest: string)
    requires Spacing(w, 3, {0, 1}) && ty in ["shader", "sampler2D"] && Identifier(name)
    ensures Scan(ImageDecl, DeclarationText(w, ty, name) + rest) ==
      [Hit(Match(DeclarationText(w, ty, name), [ty, name]))] + Scan(ImageDecl, rest)
  {
    var t := DeclarationText(w, ty, name) + rest;
    assert WordTokens(["shader", "sampler2D"]) by {
      assert Identifier("shader") && Identifier("sampler2D");
    }
    DeclarationComplete(["shader", "sampler2D"], AnyIdentifier, w, ty, name, rest);
    assert t[|DeclarationText(w, ty, name)|..] == rest;
  }

  /** `receiver.eval (` becomes `receiver_eval(` for any identifier, and the
    * replace goes on with the text after the parenthesis. */
  lemma EvalRewrite(receiver: string, w: string, rest: string)
    requires Identifier(receiver) && Blank(w)
    ensures ReplaceAll(EvalCall, EvalCallText(receiver, w) + rest, EvalTemplate)
         == receiver + "_eval(" + ReplaceAll(EvalCall, rest, EvalTemplate)
  {
    EvalCallComplete(receiver, w, rest);
    ReplaceAllAt(EvalCall, EvalCallText(receiver, w), [receiver], rest, EvalTemplate);
    EvalExpansion(receiver);
  }

  lemma EvalExpansion(receiver: string)
    ensures Expand(EvalTemplate, [receiver]) == receiver + "_eval("
  {
    ExpandFrom(EvalTemplate, [receiver], 0);
    ExpandFrom(EvalTemplate, [receiver], 1);
    assert EvalTemplate[0..] == EvalTemplate;
  }

  /** A `layout(color)` qualifier and all the whitespace after it, line
    * breaks included, are deleted, and the replace goes on with the rest. */
  lemma LayoutStripped(w: seq<string>, trail: string, rest: string)
    requires Spacing(w, 3, {}) && Blank(trail) && (rest == [] || !IsSpace(rest[0]))
    ensures ReplaceAll(LayoutColor(true), LayoutColorText(w, trail) + rest, [])
         == ReplaceAll(LayoutColor(true), rest, [])
  {
    LayoutColorComplete(w, trail, rest, true);
    ReplaceAllAt(LayoutColor(true), LayoutColorText(w, trail), [], rest, []);
  }

  /** Line numbers drift across the strip: when the rest holds no other
    * qualifier, a character of the rest sits as many lines higher in the
    * stripped text as the qualifier and its trailing whitespace held line
    * breaks. */
  lemma LayoutLineDrift(w: seq<string>, trail: string, rest: string, p: nat)
    requires Spacing(w, 3, {}) && Blank(trail) && (rest == [] || !IsSpace(rest[0]))
    requires Find(LayoutColor(true), rest).None? && p <= |rest|
    ensures ReplaceAll(LayoutColor(true), LayoutColorText(w, trail) + rest, []) == rest
    ensures LineOf(LayoutColorText(w, trail) + rest, |LayoutColorText(w, trail)| + p)
         == LineOf(rest, p) + Count(LayoutColorText(w, trail), '\n')
  {
    var text := LayoutColorText(w, trail);
    LayoutStripped(w, trail, rest);
    ReplaceAllWithoutMatch(MatcherOf(LayoutColor(true)), rest, []);
    assert (text + rest)[..|text| + p] == text + rest[..p];
    CountConcat(text, rest[..p], '\n');
  }

  /** `#define` and a whitespace character start at position `k`. */
  predicate DefineAt(s: string, k: nat) {
    k + 8 <= |s| && s[k..k + 7] == "#define" && IsSpace(s[k + 7])
  }

  /** The `#define` advisory is raised exactly when `#define` followed by
    * whitespace appears somewhere in the source. */
  lemma DefineWarning(source: string)
    ensures Test(DefineDirective, source) <==> exists k: nat :: DefineAt(source, k)
  {
    if Test(DefineDirective, source) {
      var (k, m) := Find(DefineDirective, source).value;
      DefineMatchAt(source, k);
    }
    if exists k: nat :: DefineAt(source, k) {
      var k: nat :| DefineAt(source, k);
      DefineMatchAt(source, k);
      MatchTested(DefineDirective, source[..k], source[k..]);
      assert source[..k] + source[k..] == source;
    }
  }

  lemma DefineMatchAt(s: string, k: nat)
    requires k <= |s|
    ensures MatchPrefix(DefineDirective, s[k..]).Some? <==> DefineAt(s, k)
  {
    var u := s[k..];
    assert MatchPrefix(DefineDirective, u) == MatchDefineDirective(u);
    if |u| >= 7 {
      assert u[..7] == s[k..k + 7];
    }
    if |u| > 7 {
      assert u[7] == s[k + 7];
    }
  }

  /** A dynamic-loop header anywhere in the source raises its advisory. */
  lemma DynamicLoopWarned(before: string, w0: string, body: string, w: seq<string>, v: string, op: string, c: char, rest: string)
    requires |w| == 3 && DynamicLoopParts(w0, body, w, v, op, c)
    ensures Test(DynamicLoop, before + (DynamicLoopText(w0, body, w, v, op, c) + rest))
  {
    DynamicLoopComplete(w0, body, w, v, op, c, rest);
    MatchTested(DynamicLoop, before, DynamicLoopText(w0, body, w, v, op, c) + rest);
  }

  /** A float-counter loop header with one counter name in all three places
    * becomes the int-counter header, and the replace goes on after it. */
  lemma LoopRewrite(w: seq<string>, v: string, a: string, b: string, rest: string)
    requires Spacing(w, 13, {2}) && Identifier(v) && Digits(a) && Digits(b)
    ensures ReplaceAll(FloatCounterLoop, LoopText(w, v, a, b) + rest, LoopTemplate)
         == IntCounterHeader(v, a, b) + ReplaceAll(FloatCounterLoop, rest, LoopTemplate)
  {
    FloatCounterLoopComplete(w, v, a, b, rest);
    ReplaceAllAt(FloatCounterLoop, LoopText(w, v, a, b), [v, a, b], rest, LoopTemplate);
    LoopExpansion(v, a, b);
  }

  /** `for (int v = a; v < b; v++)` */
  function IntCounterHeader(v: string, a: string, b: string): string {
    "for (int " + (v + (" = " + (a + ("; " + (v + (" < " + (b + ("; " + (v + "++)")))))))))
  }

  lemma LoopExpansion(v: string, a: string, b: string)
    ensures Expand(LoopTemplate, [v, a, b]) == IntCounterHeader(v, a, b)
  {
    var g := [v, a, b];
    LoopExpansionMiddle(v, a, b);
    assert Expand(LoopTemplate[2..], g) == " = " + (a + ("; " + (v + (" < " + (b + ("; " + (v + "++)"))))))) by { ExpandFrom(LoopTemplate, g, 2); }
    assert Expand(LoopTemplate[1..], g) == v + (" = " + (a + ("; " + (v + (" < " + (b + ("; " + (v + "++)")))))))) by { ExpandFrom(LoopTemplate, g, 1); }
    assert Expand(LoopTemplate[0..], g) == "for (int " + (v + (" = " + (a + ("; " + (v + (" < " + (b + ("; " + (v + "++)"))))))))) by { ExpandFrom(LoopTemplate, g, 0); }
    assert LoopTemplate[0..] == LoopTemplate;
  }

  lemma LoopExpansionMiddle(v: string, a: string, b: string)
    ensures Expand(LoopTemplate[3..], [v, a, b]) == a + ("; " + (v + (" < " + (b + ("; " + (v + "++)"))))))
  {
    var g := [v, a, b];
    LoopExpansionTail(v, a, b);
    assert Expand(LoopTemplate[4..], g) == "; " + (v + (" < " + (b + ("; " + (v + "++)"))))) by { ExpandFrom(LoopTemplate, g, 4); }
    ExpandFrom(LoopTemplate, g, 3);
  }

  lemma LoopExpansionTail(v: string, a: string, b: string)
    ensures Expand(LoopTemplate[5..], [v, a, b]) == v + (" < " + (b + ("; " + (v + "++)"))))
  {
    var g := [v, a, b];
    assert Expand(LoopTemplate[11..], g) == [] by { assert LoopTemplate[11..] == []; }
    assert Expand(LoopTemplate[10..], g) == "++)" by { ExpandFrom(LoopTemplate, g, 10); }
    assert Expand(LoopTemplate[9..], g) == v + "++)" by { ExpandFrom(LoopTemplate, g, 9); }
    assert Expand(LoopTemplate[8..], g) == "; " + (v + "++)") by { ExpandFrom(LoopTemplate, g, 8); }
    assert Expand(LoopTemplate[7..], g) == b + ("; " + (v + "++)")) by { ExpandFrom(LoopTemplate, g, 7); }
    assert Expand(LoopTemplate[6..], g) == " < " + (b + ("; " + (v + "++)"))) by { ExpandFrom(LoopTemplate, g, 6); }
    ExpandFrom(LoopTemplate, g, 5);
  }

  /** The first signature is renamed and everything after it, later
    * signatures included, is kept as it is. */
  lemma MainRename(before: string, w: seq<string>, qualified: bool, ret: string, pty: string, id: string, rest: string)
    requires MainSpacing(w, qualified) && ret in Returns && pty in Parameters && Identifier(id)
    requires forall k :: 0 <= k < |before| ==>
      MatchPrefix(MainSignature, (before + MainText(w, qualified, ret, pty, id) + rest)[k..]).None?
    ensures ReplaceFirst(MainSignature, before + MainText(w, qualified, ret, pty, id) + rest, MainTemplate)
         == before + UserMainSignature(id) + rest
  {
    MainSignatureComplete(w, qualified, ret, pty, id, rest);
    ReplaceFirstAt(MainSignature, before, MainText(w, qualified, ret, pty, id), [ret, pty, id], rest, MainTemplate);
    MainExpansion(ret, pty, id);
  }

  /** `vec4 userMain(vec2 id)` */
  function UserMainSignature(id: string): string {
    "vec4 userMain(vec2 " + id + ")"
  }

  lemma MainExpansion(ret: string, pty: string, id: string)
    ensures Expand(MainTemplate, [ret, pty, id]) == UserMainSignature(id)
  {
    var g := [ret, pty, id];
    ExpandFrom(MainTemplate, g, 0);
    ExpandFrom(MainTemplate, g, 1);
    ExpandFrom(MainTemplate, g, 2);
    assert MainTemplate[0..] == MainTemplate;
  }

  /** The two components disagree about `iMouse`: the transpiler comments its
    * declaration out, while the parser, whose ignored names do not include it,
    * offers a control for it. */
  lemma MouseOffered(w: seq<string>, rest: string)
    requires Spacing(w, 3, {0, 1}) && forall k :: 0 <= k < 3 ==> '\n' !in w[k]
    ensures ReplaceAll(IMouseDecl, DeclarationText(w, "vec4", "iMouse") + rest, [Chars("// iMouse removed")])
         == "// iMouse removed" + ReplaceAll(IMouseDecl, rest, [Chars("// iMouse removed")])
    ensures UniformParser.Parsed(DeclarationText(w, "vec4", "iMouse")) == [UniformParser.UniformDef("iMouse", UniformParser.Color)]
  {
    MouseCommented(w, rest);
    MouseParsed(w);
  }

  lemma MouseCommented(w: seq<string>, rest: string)
    requires Spacing(w, 3, {0, 1})
    ensures ReplaceAll(IMouseDecl, DeclarationText(w, "vec4", "iMouse") + rest, [Chars("// iMouse removed")])
         == "// iMouse removed" + ReplaceAll(IMouseDecl, rest, [Chars("// iMouse removed")])
  {
    assert WordTokens(["vec2", "float2", "vec4", "float4"]) && WordTokens(["iMouse"]) by {
      assert Identifier("vec2") && Identifier("float2") && Identifier("vec4") && Identifier("float4");
      assert Identifier("iMouse");
    }
    DeclarationCommented(["vec2", "float2", "vec4", "float4"], OneOf(["iMouse"]), w, "vec4", "iMouse", rest, "// iMouse removed");
  }

  lemma MouseParsed(w: seq<string>)
    requires Spacing(w, 3, {0, 1}) && forall k :: 0 <= k < 3 ==> '\n' !in w[k]
    ensures UniformParser.Parsed(DeclarationText(w, "vec4", "iMouse")) == [UniformParser.UniformDef("iMouse", UniformParser.Color)]
  {
    MouseLine(w);
    MouseLineFlat(w);
    UniformParser.MouseNotIgnored();
    UniformParser.SingleLine(DeclarationText(w, "vec4", "iMouse"), UniformParser.UniformDef("iMouse", UniformParser.Color));
  }

  lemma MouseLine(w: seq<string>)
    requires Spacing(w, 3, {0, 1})
    ensures UniformParser.LineDeclaration(DeclarationText(w, "vec4", "iMouse")) == Some(UniformParser.UniformDef("iMouse", UniformParser.Color))
  {
    assert Identifier("iMouse");
    UniformParser.DeclarationLine(w, "vec4", "iMouse");
    UniformParser.ColorVector(Test(LayoutColor(false), DeclarationText(w, "vec4", "iMouse")));
  }

  lemma MouseLineFlat(w: seq<string>)
    requires |w| == 3 && forall k :: 0 <= k < 3 ==> '\n' !in w[k]
    ensures '\n' !in DeclarationText(w, "vec4", "iMouse")
  {
    assert '\n' !in "uniform" && '\n' !in "vec4" && '\n' !in "iMouse" && '\n' !in ";";
  }
}
