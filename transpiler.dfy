/**
 * The AGSL to WebGL GLSL transpiler of src/transpiler.ts: a fixed sequence of
 * textual rewrites of the user's shader, a preamble of polyfills and image
 * samplers placed before it, a synthesized `main()` driver placed after it,
 * and the number of preamble lines, which the diagnostic remapper subtracts
 * from the line numbers the GLSL compiler reports.
 */
module Transpiler {
  import opened Wrappers
  import opened Text
  import opened Regex
  import opened Shapes

  // ---------------------------------------------------------------------------
  // Fixed text

  /** The lines of the polyfill block, which opens and closes with a newline:
    * the built-in uniforms, the AGSL type names, the resolution aliases and
    * the helper functions. */
  const PolyfillLines: seq<string> := BuiltInLines + TypeLines + AliasLines + FunctionLines

  const BuiltInLines: seq<string> := [
    "precision mediump float;",
    "uniform vec2 iResolution;",
    "uniform float iTime;",
    "uniform vec4 iMouse;",
    "uniform sampler2D uShapeMask;",
    ""
  ]

  const TypeLines: seq<string> := [
    "#define half float",
    "#define half2 vec2",
    "#define half3 vec3",
    "#define half4 vec4",
    "#define float2 vec2",
    "#define float3 vec3",
    "#define float4 vec4",
    "#define sk_FragCoord gl_FragCoord",
    ""
  ]

  const AliasLines: seq<string> := [
    "// ALIASES: Map common resolution names" + " to the built-in iResolution",
    "#define resolution iResolution",
    "#define uResolution iResolution",
    ""
  ]

  const FunctionLines: seq<string> := [
    "#define saturate(x) clamp(x, 0.0, 1.0)",
    "",
    "vec3 toLinearSrgb(vec3 color) " + "{ return pow(color, vec3(2.2)); }",
    "vec3 fromLinearSrgb(vec3 color) " + "{ return pow(color, vec3(1.0/2.2)); }"
  ]

  const AgslPolyfills: string := "\n" + Join(PolyfillLines, "\n") + "\n"

  /** No polyfill line holds a newline, so the block has 24 of them. */
  lemma PolyfillNewlines()
    ensures Count(AgslPolyfills, '\n') == 24
  {
    var lines := PolyfillLines;
    assert |lines| == 23;
    forall k | 0 <= k < |lines|
      ensures Count(lines[k], '\n') == 0
    {
      if k < 6 {
        BuiltInLinesFlat();
        assert lines[k] == BuiltInLines[k];
      } else if k < 15 {
        TypeLinesFlat();
        assert lines[k] == TypeLines[k - 6];
      } else if k < 19 {
        AliasLinesFlat();
        assert lines[k] == AliasLines[k - 15];
      } else {
        FunctionLinesFlat();
        assert lines[k] == FunctionLines[k - 19];
      }
      CountAbsent(lines[k], '\n');
    }
    SumCountEach(lines, '\n', 0);
    CountJoin(lines, '\n');
    CountConcat("\n", Join(lines, "\n"), '\n');
    CountConcat("\n" + Join(lines, "\n"), "\n", '\n');
  }

  lemma BuiltInLinesFlat()
    ensures forall k :: 0 <= k < |BuiltInLines| ==> '\n' !in BuiltInLines[k]
  {
  }

  lemma TypeLinesFlat()
    ensures forall k :: 0 <= k < |TypeLines| ==> '\n' !in TypeLines[k]
  {
  }

  lemma AliasLinesFlat()
    ensures forall k :: 0 <= k < |AliasLines| ==> '\n' !in AliasLines[k]
  {
    AliasCommentFlat();
    assert '\n' !in AliasLines[1];
    assert '\n' !in AliasLines[2];
  }

  lemma AliasCommentFlat()
    ensures '\n' !in AliasLines[0]
  {
  }

  lemma FunctionLinesFlat()
    ensures forall k :: 0 <= k < |FunctionLines| ==> '\n' !in FunctionLines[k]
  {
    assert '\n' !in FunctionLines[0];
    ConversionLinesFlat();
  }

  lemma ConversionLinesFlat()
    ensures '\n' !in FunctionLines[2] && '\n' !in FunctionLines[3]
  {
    ToLinearFlat();
    FromLinearFlat();
  }

  lemma ToLinearFlat()
    ensures '\n' !in FunctionLines[2]
  {
    assert FunctionLines[2] == "vec3 toLinearSrgb(vec3 color) " + "{ return pow(color, vec3(2.2)); }";
  }

  lemma FromLinearFlat()
    ensures '\n' !in FunctionLines[3]
  {
    assert FunctionLines[3] == "vec3 fromLinearSrgb(vec3 color) " + "{ return pow(color, vec3(1.0/2.2)); }";
  }

  /** `uniform sampler2D <name>;`: the sampler declaration of an image uniform. */
  function DeclLine(name: string): string {
    "uniform sampler2D " + name + ";"
  }

  /** The lines of the `<name>_eval` helper, which starts with a newline and
    * ends with two spaces. */
  function HelperLines(name: string): seq<string> {
    ["", "    vec4 " + name + "_eval(vec2 p) {", "        return texture2D(" + name + ", p / iResolution.xy);", "    }", "  "]
  }

  function Helper(name: string): string {
    Join(HelperLines(name), "\n")
  }

  /** One sampler declaration per image uniform, in order, one per line. */
  function Decls(names: seq<string>): string {
    Join(seq(|names|, i requires 0 <= i < |names| => DeclLine(names[i])), "\n")
  }

  /** One helper per image uniform, in order, joined with newlines. */
  function Helpers(names: seq<string>): string {
    Join(seq(|names|, i requires 0 <= i < |names| => Helper(names[i])), "\n")
  }

  /** Everything placed before the user's rewritten source. */
  function Preamble(names: seq<string>): string {
    AgslPolyfills + "\n" + Decls(names) + "\n" + Helpers(names) + "\n"
  }

  /** An identifier holds no newline. */
  lemma IdentifierFlat(s: string)
    requires Identifier(s)
    ensures Count(s, '\n') == 0
  {
    forall k | 0 <= k < |s|
      ensures s[k] != '\n'
    {
      assert InClass(s[k], Word);
    }
    CountAbsent(s, '\n');
  }

  /** A name between two newline-free texts gives a newline-free line. */
  lemma FlatLine(before: string, name: string, after: string)
    requires '\n' !in before && Identifier(name) && '\n' !in after
    ensures Count(before + name + after, '\n') == 0
  {
    IdentifierFlat(name);
    CountAbsent(before, '\n');
    CountAbsent(after, '\n');
    CountConcat(before + name, after, '\n');
    CountConcat(before, name, '\n');
  }

  lemma HelperNewlines(name: string)
    requires Identifier(name)
    ensures Count(Helper(name), '\n') == 4
  {
    var lines := HelperLines(name);
    HelperLinesFlat(name);
    SumCountEach(lines, '\n', 0);
    CountJoin(lines, '\n');
  }

  lemma HelperLinesFlat(name: string)
    requires Identifier(name)
    ensures forall k :: 0 <= k < |HelperLines(name)| ==> Count(HelperLines(name)[k], '\n') == 0
  {
    var lines := HelperLines(name);
    forall k | 0 <= k < |lines|
      ensures Count(lines[k], '\n') == 0
    {
      if k == 1 {
        FlatLine("    vec4 ", name, "_eval(vec2 p) {");
      } else if k == 2 {
        FlatLine("        return texture2D(", name, ", p / iResolution.xy);");
      } else if k == 3 {
        CountAbsent("    }", '\n');
      } else if k == 4 {
        CountAbsent("  ", '\n');
      }
    }
  }

  lemma DeclLineFlat(name: string)
    requires Identifier(name)
    ensures Count(DeclLine(name), '\n') == 0 && '\n' !in DeclLine(name)
  {
    FlatLine("uniform sampler2D ", name, ";");
    if '\n' in DeclLine(name) {
      var j :| 0 <= j < |DeclLine(name)| && DeclLine(name)[j] == '\n';
      CountPositive(DeclLine(name), j, '\n');
    }
  }

  /** One newline between consecutive declarations, none inside them. */
  lemma DeclsNewlines(names: seq<string>)
    requires forall k :: 0 <= k < |names| ==> Identifier(names[k])
    ensures Count(Decls(names), '\n') == if names == [] then 0 else |names| - 1
  {
    var lines := seq(|names|, i requires 0 <= i < |names| => DeclLine(names[i]));
    if names != [] {
      forall k | 0 <= k < |lines|
        ensures Count(lines[k], '\n') == 0
      {
        DeclLineFlat(names[k]);
      }
      SumCountEach(lines, '\n', 0);
      CountJoin(lines, '\n');
    }
  }

  /** Four newlines inside each helper and one between consecutive helpers. */
  lemma HelpersNewlines(names: seq<string>)
    requires forall k :: 0 <= k < |names| ==> Identifier(names[k])
    ensures Count(Helpers(names), '\n') == if names == [] then 0 else 5 * |names| - 1
  {
    var helpers := seq(|names|, i requires 0 <= i < |names| => Helper(names[i]));
    if names != [] {
      forall k | 0 <= k < |helpers|
        ensures Count(helpers[k], '\n') == 4
      {
        HelperNewlines(names[k]);
      }
      SumCountEach(helpers, '\n', 4);
      CountJoin(helpers, '\n');
    }
  }

  /** The preamble has 27 newlines without image uniforms and 6 more than 25
    * per image uniform otherwise: 24 in the polyfills, three separators, one
    * per declaration but the first, and five per helper but the first. */
  lemma PreambleNewlines(names: seq<string>)
    requires forall k :: 0 <= k < |names| ==> Identifier(names[k])
    ensures Count(Preamble(names), '\n') == if names == [] then 27 else 25 + 6 * |names|
  {
    PolyfillNewlines();
    DeclsNewlines(names);
    HelpersNewlines(names);
    var nl := "\n";
    assert Count(nl, '\n') == 1;
    CountConcat(AgslPolyfills, nl, '\n');
    CountConcat(AgslPolyfills + nl, Decls(names), '\n');
    CountConcat(AgslPolyfills + nl + Decls(names), nl, '\n');
    CountConcat(AgslPolyfills + nl + Decls(names) + nl, Helpers(names), '\n');
    CountConcat(AgslPolyfills + nl + Decls(names) + nl + Helpers(names), nl, '\n');
  }

  /** The declarations are exactly one line per image uniform, in order. */
  lemma DeclsLines(names: seq<string>)
    requires names != [] && forall k :: 0 <= k < |names| ==> Identifier(names[k])
    ensures Split(Decls(names)) == seq(|names|, i requires 0 <= i < |names| => DeclLine(names[i]))
  {
    var lines := seq(|names|, i requires 0 <= i < |names| => DeclLine(names[i]));
    forall k | 0 <= k < |lines|
      ensures '\n' !in lines[k]
    {
      DeclLineFlat(names[k]);
    }
    SplitJoin(lines);
  }

  /** How a JavaScript template literal renders a boolean. */
  function ShowBool(b: bool): string {
    if b then "true" else "false"
  }

  /** The synthesized entry point. It discards masked-out fragments and
    * multiplies alpha by the mask exactly when `usesMaskManual` is false:
    * both tests read `!<usesMaskManual>`. */
  function Driver(usesMaskManual: bool): string {
    "\n    void main() {\n" +
    "      vec2 androidCoords = gl_FragCoord.xy;\n" +
    "      androidCoords.y = iResolution.y - gl_FragCoord.y;\n" +
    "      \n" +
    "      vec2 uv = androidCoords / iResolution.xy;\n" +
    "      \n" +
    "      float maskAlpha = texture2D(uShapeMask, uv).r; \n" +
    "\n" +
    "      if (!" + ShowBool(usesMaskManual) + " && maskAlpha < 0.1) {\n" +
    "        discard;\n" +
    "      }\n" +
    "      \n" +
    "      gl_FragColor = userMain(androidCoords);\n" +
    "      \n" +
    "      if (!" + ShowBool(usesMaskManual) + ") {\n" +
    "         gl_FragColor.a *= maskAlpha; \n" +
    "      }\n" +
    "    }\n" +
    "  "
  }

  // ---------------------------------------------------------------------------
  // Patterns and replacements

  const ResolutionDecl := Declaration(["vec2", "float2"], OneOf(["resolution", "uResolution"]))
  const IResolutionDecl := Declaration(["vec2", "float2"], OneOf(["iResolution"]))
  const ITimeDecl := Declaration(["float"], OneOf(["iTime"]))
  const IMouseDecl := Declaration(["vec2", "float2", "vec4", "float4"], OneOf(["iMouse"]))
  const MaskDecl := Declaration(["sampler2D"], OneOf(["uShapeMask"]))
  const ImageDecl := Declaration(["shader", "sampler2D"], AnyIdentifier)

  /** `$1_eval(` */
  const EvalTemplate: seq<TemplatePart> := [Capture(1), Chars("_eval(")]

  /** `for (int $1 = $2; $1 < $3; $1++)` */
  const LoopTemplate: seq<TemplatePart> :=
    [Chars("for (int "), Capture(1), Chars(" = "), Capture(2), Chars("; "), Capture(1), Chars(" < "), Capture(3),
     Chars("; "), Capture(1), Chars("++)")]

  /** `vec4 userMain(vec2 $3)` */
  const MainTemplate: seq<TemplatePart> := [Chars("vec4 userMain(vec2 "), Capture(3), Chars(")")]

  /** The advisories the transpiler logs; they never affect its output. */
  datatype Warning = StrippedLayout | DefineUnsupported | DynamicLoopAdvice

  function Message(w: Warning): string {
    match w
    case StrippedLayout => "AGSL Transpiler: Stripped 'layout(color)'."
    case DefineUnsupported => "AGSL Warning: '#define' is not supported in AGSL."
    case DynamicLoopAdvice => "AGSL Warning: Dynamic loops may fail in WebGL."
  }

  /** The re-declared built-ins commented out, in the order the source does it. */
  function BuiltInsRemoved(source: string): string {
    var g := ReplaceAll(ResolutionDecl, source, [Chars("// resolution removed")]);
    var g := ReplaceAll(IResolutionDecl, g, [Chars("// iResolution removed")]);
    var g := ReplaceAll(ITimeDecl, g, [Chars("// iTime removed")]);
    var g := ReplaceAll(IMouseDecl, g, [Chars("// iMouse removed")]);
    ReplaceAll(MaskDecl, g, [Chars("// uShapeMask removed")])
  }

  // ---------------------------------------------------------------------------
  // Image uniforms

  /** Every declaration match has a type and a name, and the name is an identifier. */
  predicate ImageHits(pieces: seq<Piece>) {
    forall k :: 0 <= k < |pieces| && pieces[k].Hit? ==> |pieces[k].m.groups| == 2 && Identifier(pieces[k].m.groups[1])
  }

  /** What the replace callback returns for a piece: a comment for a
    * declaration, the character itself otherwise. */
  function Moved(piece: Piece): string
    requires piece.Hit? ==> |piece.m.groups| == 2
  {
    match piece
    case Keep(c) => [c]
    case Hit(m) => if m.groups[1] == "uShapeMask" then "// built-in mask" else "// moved " + m.groups[1]
  }

  function MovedText(pieces: seq<Piece>): string
    requires ImageHits(pieces)
  {
    if pieces == [] then [] else Moved(pieces[0]) + MovedText(pieces[1..])
  }

  /** The names the callback pushes: every declared name except `uShapeMask`,
    * in the order of the declarations. */
  function ImageNames(pieces: seq<Piece>): (names: seq<string>)
    requires ImageHits(pieces)
    ensures "uShapeMask" !in names
    ensures forall k :: 0 <= k < |names| ==> Identifier(names[k])
  {
    if pieces == [] then []
    else
      var rest := ImageNames(pieces[1..]);
      if pieces[0].Hit? && pieces[0].m.groups[1] != "uShapeMask" then [pieces[0].m.groups[1]] + rest else rest
  }

  lemma ImageScanHits(glsl: string)
    ensures ImageHits(Scan(ImageDecl, glsl))
  {
    forall u | MatchPrefix(ImageDecl, u).Some?
      ensures |MatchPrefix(ImageDecl, u).value.groups| == 2 && Identifier(MatchPrefix(ImageDecl, u).value.groups[1])
    {
      DeclarationSound(["shader", "sampler2D"], AnyIdentifier, u);
    }
    ScanHitsSatisfy(MatcherOf(ImageDecl), glsl, (m: Match) => |m.groups| == 2 && Identifier(m.groups[1]));
  }

  lemma ImageHitsSuffix(pieces: seq<Piece>, k: nat)
    requires ImageHits(pieces) && k <= |pieces|
    ensures ImageHits(pieces[k..])
  {
    forall j | 0 <= j < |pieces[k..]| && pieces[k..][j].Hit?
      ensures |pieces[k..][j].m.groups| == 2 && Identifier(pieces[k..][j].m.groups[1])
    {
      assert pieces[k..][j] == pieces[k + j];
    }
  }

  /** Peeling the piece at `k` off the suffix from `k`. */
  lemma ImageStep(pieces: seq<Piece>, k: nat)
    requires ImageHits(pieces) && k < |pieces|
    ensures ImageHits(pieces[k..]) && ImageHits(pieces[k + 1..])
    ensures MovedText(pieces[k..]) == Moved(pieces[k]) + MovedText(pieces[k + 1..])
    ensures ImageNames(pieces[k..]) ==
      (if pieces[k].Hit? && pieces[k].m.groups[1] != "uShapeMask" then [pieces[k].m.groups[1]] else []) + ImageNames(pieces[k + 1..])
  {
    ImageHitsSuffix(pieces, k);
    ImageHitsSuffix(pieces, k + 1);
    assert pieces[k..][1..] == pieces[k + 1..];
  }

  /** The image declarations of `glsl`, each replaced by a comment, and the
    * names of the image uniforms other than the built-in mask, in order. */
  method ExtractImageUniforms(glsl: string) returns (moved: string, names: seq<string>)
    ensures ImageHits(Scan(ImageDecl, glsl))
    ensures moved == MovedText(Scan(ImageDecl, glsl))
    ensures names == ImageNames(Scan(ImageDecl, glsl))
  {
    ImageScanHits(glsl);
    moved, names := RunCallback(Scan(ImageDecl, glsl));
  }

  /** The replace callback run on the pieces of the scan in order: it returns
    * each piece's replacement and pushes each name other than the mask's. */
  method RunCallback(pieces: seq<Piece>) returns (moved: string, names: seq<string>)
    requires ImageHits(pieces)
    ensures moved == MovedText(pieces) && names == ImageNames(pieces)
  {
    moved, names := [], [];
    var k := 0;
    while k < |pieces|
      invariant 0 <= k <= |pieces| && ImageHits(pieces[k..])
      invariant moved + MovedText(pieces[k..]) == MovedText(pieces)
      invariant names + ImageNames(pieces[k..]) == ImageNames(pieces)
    {
      ImageStep(pieces, k);
      var out: string, pushed: seq<string>;
      match pieces[k] {
        case Keep(c) =>
          out, pushed := [c], [];
        case Hit(m) =>
          var name := m.groups[1];
          if name == "uShapeMask" {
            out, pushed := "// built-in mask", [];
          } else {
            out, pushed := "// moved " + name, [name];
          }
      }
      Associative(moved, out, MovedText(pieces[k + 1..]));
      Associative(names, pushed, ImageNames(pieces[k + 1..]));
      moved, names := moved + out, names + pushed;
      k := k + 1;
    }
    assert pieces[k..] == [];
  }

  /** A name is pushed exactly when some declaration match carries it and it
    * is not the built-in mask. */
  lemma {:induction false} ImageNamesMembership(pieces: seq<Piece>, x: string)
    requires ImageHits(pieces)
    ensures x in ImageNames(pieces) <==>
      x != "uShapeMask" && exists k :: 0 <= k < |pieces| && pieces[k].Hit? && pieces[k].m.groups[1] == x
    decreases |pieces|
  {
    if pieces != [] {
      ImageHitsSuffix(pieces, 1);
      ImageNamesMembership(pieces[1..], x);
      if x != "uShapeMask" && (exists k :: 0 <= k < |pieces| && pieces[k].Hit? && pieces[k].m.groups[1] == x) {
        var k :| 0 <= k < |pieces| && pieces[k].Hit? && pieces[k].m.groups[1] == x;
        if k > 0 {
          assert pieces[1..][k - 1] == pieces[k];
        }
      }
      if x in ImageNames(pieces[1..]) {
        var k :| 0 <= k < |pieces[1..]| && pieces[1..][k].Hit? && pieces[1..][k].m.groups[1] == x;
        assert pieces[k + 1] == pieces[1..][k];
      }
    }
  }

  // ---------------------------------------------------------------------------
  // The whole pipeline

  /** The image uniforms, in declaration order, after the built-ins are removed. */
  function ImageUniforms(source: string): (names: seq<string>)
    ensures "uShapeMask" !in names
    ensures forall k :: 0 <= k < |names| ==> Identifier(names[k])
  {
    ImageScanHits(BuiltInsRemoved(source));
    ImageNames(Scan(ImageDecl, BuiltInsRemoved(source)))
  }

  /** The user's source after every rewrite stage, in the order of the source. */
  function Rewritten(source: string): string {
    var removed := BuiltInsRemoved(source);
    ImageScanHits(removed);
    CallsRewritten(MovedText(Scan(ImageDecl, removed)))
  }

  /** The `.eval` calls, `layout(color)` qualifiers, float counter loops and
    * the entry point rewritten, in that order. */
  function CallsRewritten(moved: string): string {
    var g := ReplaceAll(EvalCall, moved, EvalTemplate);
    var g := ReplaceAll(LayoutColor(true), g, []);
    var g := ReplaceAll(FloatCounterLoop, g, LoopTemplate);
    ReplaceFirst(MainSignature, g, MainTemplate)
  }

  /** `transpileAGSL`: the output is the preamble, the rewritten source, a
    * newline and the driver; `lineOffset` is the number of newlines in the
    * preamble; and the advisory checks only add warnings. */
  method TranspileAGSL(source: string) returns (glsl: string, lineOffset: int, warnings: seq<Warning>)
    ensures glsl == Preamble(ImageUniforms(source)) + Rewritten(source) + "\n" + Driver(Contains(source, "uShapeMask"))
    ensures lineOffset == Count(Preamble(ImageUniforms(source)), '\n')
    ensures lineOffset == if ImageUniforms(source) == [] then 27 else 25 + 6 * |ImageUniforms(source)|
    ensures StrippedLayout in warnings <==> Test(LayoutColor(true), source)
    ensures DefineUnsupported in warnings <==> Test(DefineDirective, source)
    ensures DynamicLoopAdvice in warnings <==> Test(DynamicLoop, source)
  {
    warnings := Advisories(source);
    var g, imageUniforms := RewriteSource(source);

    var usesMaskManual := Contains(source, "uShapeMask");
    var driver := Driver(usesMaskManual);

    var preamble;
    preamble, lineOffset := PreambleOf(imageUniforms);
    glsl := preamble + g + "\n" + driver;
  }

  /** The rewrite stages in order: built-ins removed, image uniforms moved
    * out (their names collected), calls and the entry point rewritten. */
  method RewriteSource(source: string) returns (g: string, imageUniforms: seq<string>)
    ensures g == Rewritten(source) && imageUniforms == ImageUniforms(source)
  {
    g := RemoveBuiltIns(source);
    g, imageUniforms := ExtractImageUniforms(g);
    g := RewriteCalls(g);
  }

  /** The preamble for the extracted image uniforms and its line count, as
    * `split('\n').length - 1`. */
  method PreambleOf(imageUniforms: seq<string>) returns (preamble: string, lineOffset: int)
    requires forall k :: 0 <= k < |imageUniforms| ==> Identifier(imageUniforms[k])
    ensures preamble == Preamble(imageUniforms)
    ensures lineOffset == Count(preamble, '\n')
    ensures lineOffset == if imageUniforms == [] then 27 else 25 + 6 * |imageUniforms|
  {
    var imageUniformDecls := Decls(imageUniforms);
    var evalHelpers := Helpers(imageUniforms);
    preamble := AgslPolyfills + "\n" + imageUniformDecls + "\n" + evalHelpers + "\n";
    lineOffset := |Split(preamble)| - 1;
    SplitShape(preamble);
    PreambleNewlines(imageUniforms);
  }

  /** The three advisory checks run on the original source. */
  method Advisories(source: string) returns (warnings: seq<Warning>)
    ensures StrippedLayout in warnings <==> Test(LayoutColor(true), source)
    ensures DefineUnsupported in warnings <==> Test(DefineDirective, source)
    ensures DynamicLoopAdvice in warnings <==> Test(DynamicLoop, source)
  {
    var layout := Test(LayoutColor(true), source);
    var define := Test(DefineDirective, source);
    var dynamic := Test(DynamicLoop, source);
    warnings := Flagged(layout, define, dynamic);
  }

  /** The warnings raised by the three tests, in the order they are made. */
  method Flagged(layout: bool, define: bool, dynamic: bool) returns (warnings: seq<Warning>)
    ensures StrippedLayout in warnings <==> layout
    ensures DefineUnsupported in warnings <==> define
    ensures DynamicLoopAdvice in warnings <==> dynamic
  {
    warnings := [];
    if layout {
      warnings := warnings + [StrippedLayout];
    }
    if define {
      warnings := warnings + [DefineUnsupported];
    }
    if dynamic {
      warnings := warnings + [DynamicLoopAdvice];
    }
  }

  /** The five built-in removals, threading the text through them in order:
    * the method form of `BuiltInsRemoved`, which the stage lemmas of module
    * `Stages` describe replace by replace. */
  method RemoveBuiltIns(source: string) returns (g: string)
    ensures g == BuiltInsRemoved(source)
  {
    g := source;
    g := ReplaceAll(ResolutionDecl, g, [Chars("// resolution removed")]);
    g := ReplaceAll(IResolutionDecl, g, [Chars("// iResolution removed")]);
    g := ReplaceAll(ITimeDecl, g, [Chars("// iTime removed")]);
    g := ReplaceAll(IMouseDecl, g, [Chars("// iMouse removed")]);
    g := ReplaceAll(MaskDecl, g, [Chars("// uShapeMask removed")]);
  }

  /** The rewrites after image extraction, threading the text through them in
    * order: the method form of `CallsRewritten`, whose stages are described
    * by the lemmas of module `Stages`. */
  method RewriteCalls(moved: string) returns (g: string)
    ensures g == CallsRewritten(moved)
  {
    g := moved;
    g := ReplaceAll(EvalCall, g, EvalTemplate);
    g := ReplaceAll(LayoutColor(true), g, []);
    g := ReplaceAll(FloatCounterLoop, g, LoopTemplate);
    g := ReplaceFirst(MainSignature, g, MainTemplate);
  }

  /** Text placed after a prefix moves down by the prefix's newlines: with
    * the preamble as prefix, the rewritten source as body and the driver as
    * tail (the shape `TranspileAGSL` ensures), position `p` of the rewritten
    * source lies on output line `lineOffset + LineOf(body, p)`, so its first
    * line is output line `lineOffset + 1`. */
  lemma LinesAfter(prefix: string, body: string, tail: string, p: nat)
    requires p <= |body|
    ensures |prefix| + p <= |prefix + body + "\n" + tail|
    ensures LineOf(prefix + body + "\n" + tail, |prefix| + p) == Count(prefix, '\n') + LineOf(body, p)
  {
    assert (prefix + body + "\n" + tail)[..|prefix| + p] == prefix + body[..p];
    CountConcat(prefix, body[..p], '\n');
  }

  /** Any mention of `uShapeMask` in the original source, even in a comment
    * or in a declaration the rewrites remove, turns the driver's masking off. */
  lemma MentionDisablesMask(before: string, after: string)
    ensures Contains(before + "uShapeMask" + after, "uShapeMask")
  {
    var s := before + "uShapeMask" + after;
    assert s[|before|..][..10] == "uShapeMask";
    ContainsAt(s, "uShapeMask", |before|);
  }
}
