/**
 * The uniform declaration parser of src/uniformParser.ts: the editor reads
 * the user's shader line by line, takes the first `uniform <type> <name>;`
 * declaration of each line that is not a `//` comment, drops the built-in
 * names and the names already taken, and classifies each uniform into the
 * control it gets. `DefaultValue` is the value a new control starts with.
 */
module UniformParser {
  import opened Wrappers
  import opened Text
  import opened Regex
  import opened Shapes

  /** The control a uniform gets in the editor. */
  datatype UniformType = Float | Int | Vec2 | Vec3 | Color | Bool | Image

  datatype UniformDef = UniformDef(name: string, ty: UniformType)

  /** A uniform's value as the editor stores it: a JavaScript number, array of
    * numbers, boolean or data URL, `null` for an image without one, and
    * `undefined` for a name that has no value. */
  datatype Value = Undefined | Null | Flag(b: bool) | Num(x: real) | Vec(elems: seq<real>) | Str(s: string)

  /** The type alternatives of the declaration pattern, in their written order. */
  const TypeTokens: seq<string> :=
    ["float", "half", "int", "bool", "vec2", "half2", "vec3", "half3", "vec4", "half4", "shader", "sampler2D"]

  /** uniform\s+(float|half|...|sampler2D)\s+([a-zA-Z0-9_]+)\s*; */
  const UniformDecl: Pattern := Declaration(TypeTokens, AnyIdentifier)

  /** The names the editor never offers a control for. */
  const Ignored: set<string> := {"iResolution", "iTime", "uShapeMask", "resolution", "uResolution"}

  /** The classification, in its order of precedence: an image type wins over
    * `layout(color)`, which wins over the type token; `vec4`/`half4` are
    * colours, and `float`/`half` (and any other token) are plain floats. */
  function Classify(rawType: string, isLayoutColor: bool): (ty: UniformType)
    ensures ty == Image <==> rawType in ["shader", "sampler2D"]
    ensures ty == Color <==> rawType !in ["shader", "sampler2D"] && (isLayoutColor || rawType in ["vec4", "half4"])
    ensures ty == Bool <==> rawType == "bool" && !isLayoutColor
    ensures ty == Int <==> rawType == "int" && !isLayoutColor
    ensures ty == Vec2 <==> rawType in ["vec2", "half2"] && !isLayoutColor
    ensures ty == Vec3 <==> rawType in ["vec3", "half3"] && !isLayoutColor
    ensures rawType in TypeTokens ==> (ty == Float <==> rawType in ["float", "half"] && !isLayoutColor)
  {
    if rawType in ["shader", "sampler2D"] then Image
    else if isLayoutColor then Color
    else if rawType in ["bool"] then Bool
    else if rawType in ["int"] then Int
    else if rawType in ["vec2", "half2"] then Vec2
    else if rawType in ["vec3", "half3"] then Vec3
    else if rawType in ["vec4", "half4"] then Color
    else Float
  }

  /** `s` holds, from index `k`, a declaration of `name` with type token `raw`. */
  ghost predicate DeclaresAt(s: string, k: nat, raw: string, name: string) {
    exists w :: Spacing(w, 3, {0, 1}) && k + |DeclarationText(w, raw, name)| <= |s|
      && s[k..k + |DeclarationText(w, raw, name)|] == DeclarationText(w, raw, name)
  }

  /** The first declaration match of a line is a declaration of its second
    * group with its first group as type token, and no match starts earlier. */
  lemma FoundDeclaration(s: string, k: nat, m: Match)
    requires Find(UniformDecl, s) == Some((k, m))
    ensures |m.groups| == 2 && m.groups[0] in TypeTokens && Identifier(m.groups[1])
    ensures DeclaresAt(s, k, m.groups[0], m.groups[1])
    ensures forall j :: 0 <= j < k ==> MatchPrefix(UniformDecl, s[j..]).None?
  {
    assert k < |s| && MatchPrefix(UniformDecl, s[k..]) == Some(m);
    MatchedDeclaration(s, k, m);
  }

  lemma MatchedDeclaration(s: string, k: nat, m: Match)
    requires k <= |s| && MatchPrefix(UniformDecl, s[k..]) == Some(m)
    ensures |m.groups| == 2 && m.groups[0] in TypeTokens && Identifier(m.groups[1])
    ensures DeclaresAt(s, k, m.groups[0], m.groups[1])
  {
    DeclarationSound(TypeTokens, AnyIdentifier, s[k..]);
    var w :| Spacing(w, 3, {0, 1}) && m.text == DeclarationText(w, m.groups[0], m.groups[1]);
    DeclaredText(s, k, m.text, w, m.groups[0], m.groups[1]);
  }

  lemma DeclaredText(s: string, k: nat, text: string, w: seq<string>, raw: string, name: string)
    requires k <= |s| && text <= s[k..] && Spacing(w, 3, {0, 1}) && text == DeclarationText(w, raw, name)
    ensures DeclaresAt(s, k, raw, name)
  {
    assert s[k..][..|text|] == s[k..k + |text|];
  }

  /** `iMouse` is not among the ignored names. */
  lemma MouseNotIgnored()
    ensures "iMouse" !in Ignored
  {
    assert "iMouse"[0] == 'i' && "iMouse"[1] == 'M';
    assert "iResolution"[1] == 'R' && "iTime"[1] == 'T';
    assert "uShapeMask"[0] == 'u' && "uResolution"[0] == 'u' && "resolution"[0] == 'r';
  }

  lemma ColorVector(isLayoutColor: bool)
    ensures Classify("vec4", isLayoutColor) == Color
  {
  }

  /** What the loop body makes of one line before the name checks: nothing
    * for a `//` comment line or a line without a declaration, otherwise the
    * line's first declaration, classified with the line's `layout(color)`. */
  function LineDeclaration(line: string): (r: Option<UniformDef>)
    ensures r.Some? <==> !("//" <= Trim(line)) && Test(UniformDecl, Trim(line))
    ensures r.Some? ==> Identifier(r.value.name) && exists k, raw ::
      raw in TypeTokens && DeclaresAt(Trim(line), k, raw, r.value.name)
      && (forall j :: 0 <= j < k ==> MatchPrefix(UniformDecl, Trim(line)[j..]).None?)
      && r.value.ty == Classify(raw, Test(LayoutColor(false), Trim(line)))
  {
    var trimmed := Trim(line);
    if "//" <= trimmed then None
    else
      match Find(UniformDecl, trimmed)
      case None => None
      case Some((k, m)) =>
        FoundDeclaration(trimmed, k, m);
        Some(UniformDef(m.groups[1], Classify(m.groups[0], Test(LayoutColor(false), trimmed))))
  }

  /** The declaration of each line, in order. */
  function Declarations(lines: seq<string>): (decls: seq<Option<UniformDef>>)
    ensures |decls| == |lines|
    ensures forall i :: 0 <= i < |lines| ==> decls[i] == LineDeclaration(lines[i])
  {
    seq(|lines|, i requires 0 <= i < |lines| => LineDeclaration(lines[i]))
  }

  /** Whether the loop keeps a line's declaration when the names in `seen`
    * are taken: there is one, and its name is not taken. */
  predicate Admitted(d: Option<UniformDef>, seen: set<string>) {
    d.Some? && d.value.name !in seen
  }

  /** The definitions the loop collects from the lines' declarations when the
    * names in `seen` are already taken: each admitted declaration, whose name
    * is then taken too. */
  function Collect(decls: seq<Option<UniformDef>>, seen: set<string>): seq<UniformDef> {
    if decls == [] then []
    else if Admitted(decls[0], seen) then [decls[0].value] + Collect(decls[1..], seen + {decls[0].value.name})
    else Collect(decls[1..], seen)
  }

  /** What `parseUniforms` returns for `source`: the ignored names count as
    * taken from the start. */
  function Parsed(source: string): seq<UniformDef> {
    Collect(Declarations(Split(source)), Ignored)
  }

  lemma CollectStep(decls: seq<Option<UniformDef>>, i: nat, seen: set<string>)
    requires i < |decls|
    ensures Collect(decls[i..], seen) ==
      if Admitted(decls[i], seen) then [decls[i].value] + Collect(decls[i + 1..], seen + {decls[i].value.name})
      else Collect(decls[i + 1..], seen)
  {
    assert decls[i..][0] == decls[i];
    assert decls[i..][1..] == decls[i + 1..];
  }

  /** `parseUniforms`: the lines of the source, each run through the loop body
    * in order, collecting into `definitions` and `seenNames`. */
  method ParseUniforms(source: string) returns (definitions: seq<UniformDef>)
    ensures definitions == Parsed(source)
  {
    definitions := [];
    var seenNames: set<string> := {};
    var lines := Split(source);
    ghost var decls := Declarations(lines);
    assert Ignored + seenNames == Ignored && decls[0..] == decls;
    for i := 0 to |lines|
      invariant Collect(decls, Ignored) == definitions + Collect(decls[i..], Ignored + seenNames)
    {
      CollectStep(decls, i, Ignored + seenNames);
      var decl := ReadLine(lines[i]);
      assert decl == decls[i];
      if decl.None? {
        continue;
      }
      var name := decl.value.name;
      if name in Ignored || name in seenNames {
        continue;
      }
      assert Admitted(decls[i], Ignored + seenNames);
      assert Ignored + seenNames + {name} == Ignored + (seenNames + {name});
      seenNames := seenNames + {name};
      Associative(definitions, [decl.value], Collect(decls[i + 1..], Ignored + seenNames));
      definitions := definitions + [decl.value];
    }
    assert decls[|lines|..] == [];
  }

  /** The loop body up to the name checks: trim, skip a `//` line, test for
    * `layout(color)`, take the first declaration and classify it. */
  method ReadLine(line: string) returns (decl: Option<UniformDef>)
    ensures decl == LineDeclaration(line)
  {
    var trimmed := Trim(line);
    if "//" <= trimmed {
      return None;
    }
    var isLayoutColor := Test(LayoutColor(false), trimmed);
    var found := Find(UniformDecl, trimmed);
    if found.None? {
      return None;
    }
    var k, m := found.value.0, found.value.1;
    FoundDeclaration(trimmed, k, m);
    var rawType, name := m.groups[0], m.groups[1];
    return Some(UniformDef(name, Classify(rawType, isLayoutColor)));
  }

  // ---------------------------------------------------------------------------
  // Properties of the collected definitions

  /** No definition has a name that was already taken. */
  lemma {:induction false} NoTakenNames(decls: seq<Option<UniformDef>>, seen: set<string>)
    ensures forall k :: 0 <= k < |Collect(decls, seen)| ==> Collect(decls, seen)[k].name !in seen
  {
    if decls != [] {
      if Admitted(decls[0], seen) {
        NoTakenNames(decls[1..], seen + {decls[0].value.name});
      } else {
        NoTakenNames(decls[1..], seen);
      }
    }
  }

  /** The names of the definitions are pairwise distinct. */
  lemma {:induction false} DistinctNames(decls: seq<Option<UniformDef>>, seen: set<string>)
    ensures forall i, j :: 0 <= i < j < |Collect(decls, seen)| ==> Collect(decls, seen)[i].name != Collect(decls, seen)[j].name
  {
    if decls != [] {
      if Admitted(decls[0], seen) {
        var d := decls[0].value;
        var rest := Collect(decls[1..], seen + {d.name});
        DistinctNames(decls[1..], seen + {d.name});
        NoTakenNames(decls[1..], seen + {d.name});
        assert forall j :: 1 <= j < |[d] + rest| ==> ([d] + rest)[j] == rest[j - 1];
      } else {
        DistinctNames(decls[1..], seen);
      }
    }
  }

  /** The parse result: no ignored name, no name twice, at most one
    * definition per line. */
  lemma ParsedNames(source: string)
    ensures forall k :: 0 <= k < |Parsed(source)| ==> Parsed(source)[k].name !in Ignored
    ensures forall i, j :: 0 <= i < j < |Parsed(source)| ==> Parsed(source)[i].name != Parsed(source)[j].name
    ensures |Parsed(source)| <= |Split(source)|
    ensures forall k :: 0 <= k < |Parsed(source)| ==> Identifier(Parsed(source)[k].name)
  {
    CollectedIdentifiers(Declarations(Split(source)), Ignored);
    NoTakenNames(Declarations(Split(source)), Ignored);
    DistinctNames(Declarations(Split(source)), Ignored);
    OnePerLine(Declarations(Split(source)), Ignored);
  }

  /** Every collected name is one a line declared, so an identifier. */
  lemma {:induction false} CollectedIdentifiers(decls: seq<Option<UniformDef>>, seen: set<string>)
    requires forall i :: 0 <= i < |decls| && decls[i].Some? ==> Identifier(decls[i].value.name)
    ensures forall k :: 0 <= k < |Collect(decls, seen)| ==> Identifier(Collect(decls, seen)[k].name)
  {
    if decls != [] {
      var next := if Admitted(decls[0], seen) then seen + {decls[0].value.name} else seen;
      CollectedIdentifiers(decls[1..], next);
    }
  }

  /** Each line contributes at most one definition. */
  lemma {:induction false} OnePerLine(decls: seq<Option<UniformDef>>, seen: set<string>)
    ensures |Collect(decls, seen)| <= |decls|
  {
    if decls != [] {
      if Admitted(decls[0], seen) {
        OnePerLine(decls[1..], seen + {decls[0].value.name});
      } else {
        OnePerLine(decls[1..], seen);
      }
    }
  }

  /** Line `i` is the first line declaring its name, and its declaration is
    * admitted with the names in `seen` taken. */
  predicate FirstDeclaring(decls: seq<Option<UniformDef>>, seen: set<string>, i: nat)
    requires i < |decls|
  {
    Admitted(decls[i], seen) &&
    forall j :: 0 <= j < i && decls[j].Some? ==> decls[j].value.name != decls[i].value.name
  }

  /** `idx` lists the lines whose declarations make up the definitions: one
    * per definition, each the first line declaring that definition's admitted
    * name, in strictly increasing order, and with every such line among them. */
  ghost predicate FirstLinesOf(decls: seq<Option<UniformDef>>, seen: set<string>, idx: seq<nat>) {
    |idx| == |Collect(decls, seen)| &&
    (forall k :: 0 <= k < |idx| ==>
      idx[k] < |decls| && FirstDeclaring(decls, seen, idx[k]) && Collect(decls, seen)[k] == decls[idx[k]].value) &&
    (forall k, l :: 0 <= k < l < |idx| ==> idx[k] < idx[l]) &&
    (forall i :: 0 <= i < |decls| && FirstDeclaring(decls, seen, i) ==> i in idx)
  }

  /** The definitions are exactly the declarations of the first lines
    * declaring each admissible name, in the order of those lines. */
  lemma {:induction false} FirstLines(decls: seq<Option<UniformDef>>, seen: set<string>) returns (idx: seq<nat>)
    ensures FirstLinesOf(decls, seen, idx)
  {
    if decls == [] {
      idx := [];
    } else {
      var seen' := if Admitted(decls[0], seen) then seen + {decls[0].value.name} else seen;
      var tail := FirstLines(decls[1..], seen');
      var shifted := Shifted(decls, seen, tail);
      if Admitted(decls[0], seen) {
        idx := [0] + shifted;
        TakenHead(decls, seen, shifted);
      } else {
        idx := shifted;
        SkippedHead(decls, seen, tail, shifted);
      }
    }
  }

  /** The lines of the tail, counted in the whole. */
  lemma Shifted(decls: seq<Option<UniformDef>>, seen: set<string>, tail: seq<nat>) returns (shifted: seq<nat>)
    requires decls != []
    requires FirstLinesOf(decls[1..], if Admitted(decls[0], seen) then seen + {decls[0].value.name} else seen, tail)
    ensures |shifted| == |tail|
    ensures forall k :: 0 <= k < |shifted| ==>
      (0 < shifted[k] < |decls| && FirstDeclaring(decls, seen, shifted[k]) && decls[shifted[k]] == decls[1..][tail[k]])
    ensures forall k, l :: 0 <= k < l < |shifted| ==> shifted[k] < shifted[l]
    ensures forall i :: 0 < i < |decls| && FirstDeclaring(decls, seen, i) ==> i in shifted
  {
    shifted := seq(|tail|, k requires 0 <= k < |tail| => tail[k] + 1);
    ShiftedFirst(decls, seen, tail, shifted);
    ShiftedComplete(decls, seen, tail, shifted);
  }

  lemma ShiftedFirst(decls: seq<Option<UniformDef>>, seen: set<string>, tail: seq<nat>, shifted: seq<nat>)
    requires decls != []
    requires forall k :: 0 <= k < |tail| ==>
      (tail[k] < |decls| - 1 &&
       FirstDeclaring(decls[1..], if Admitted(decls[0], seen) then seen + {decls[0].value.name} else seen, tail[k]))
    requires |shifted| == |tail| && forall k :: 0 <= k < |tail| ==> shifted[k] == tail[k] + 1
    ensures forall k :: 0 <= k < |shifted| ==>
      (0 < shifted[k] < |decls| && FirstDeclaring(decls, seen, shifted[k]) && decls[shifted[k]] == decls[1..][tail[k]])
  {
    forall k | 0 <= k < |tail|
      ensures FirstDeclaring(decls, seen, shifted[k]) && decls[shifted[k]] == decls[1..][tail[k]]
    {
      FirstShift(decls, seen, tail[k]);
    }
  }

  lemma ShiftedComplete(decls: seq<Option<UniformDef>>, seen: set<string>, tail: seq<nat>, shifted: seq<nat>)
    requires decls != []
    requires forall i :: (0 <= i < |decls| - 1 &&
      FirstDeclaring(decls[1..], if Admitted(decls[0], seen) then seen + {decls[0].value.name} else seen, i)) ==> i in tail
    requires |shifted| == |tail| && forall k :: 0 <= k < |tail| ==> shifted[k] == tail[k] + 1
    ensures forall i :: 0 < i < |decls| && FirstDeclaring(decls, seen, i) ==> i in shifted
  {
    forall i | 0 < i < |decls| && FirstDeclaring(decls, seen, i)
      ensures i in shifted
    {
      FirstUnshift(decls, seen, i);
      assert i - 1 in tail;
      var k :| 0 <= k < |tail| && tail[k] == i - 1;
      assert shifted[k] == i;
    }
  }

  /** With the head not admitted, the lines are those of the tail. */
  lemma SkippedHead(decls: seq<Option<UniformDef>>, seen: set<string>, tail: seq<nat>, shifted: seq<nat>)
    requires decls != [] && !Admitted(decls[0], seen)
    requires FirstLinesOf(decls[1..], seen, tail)
    requires |shifted| == |tail|
    requires forall k :: 0 <= k < |shifted| ==>
      (0 < shifted[k] < |decls| && FirstDeclaring(decls, seen, shifted[k]) && decls[shifted[k]] == decls[1..][tail[k]])
    requires forall k, l :: 0 <= k < l < |shifted| ==> shifted[k] < shifted[l]
    requires forall i :: 0 < i < |decls| && FirstDeclaring(decls, seen, i) ==> i in shifted
    ensures FirstLinesOf(decls, seen, shifted)
  {
  }

  /** With the head admitted, the head's line comes first. */
  lemma TakenHead(decls: seq<Option<UniformDef>>, seen: set<string>, shifted: seq<nat>)
    requires decls != [] && Admitted(decls[0], seen)
    requires |shifted| == |Collect(decls[1..], seen + {decls[0].value.name})|
    requires forall k :: 0 <= k < |shifted| ==>
      (0 < shifted[k] < |decls| && FirstDeclaring(decls, seen, shifted[k])
       && Collect(decls[1..], seen + {decls[0].value.name})[k] == decls[shifted[k]].value)
    requires forall k, l :: 0 <= k < l < |shifted| ==> shifted[k] < shifted[l]
    requires forall i :: 0 < i < |decls| && FirstDeclaring(decls, seen, i) ==> i in shifted
    ensures FirstLinesOf(decls, seen, [0] + shifted)
  {
    var idx := [0] + shifted;
    assert forall k :: 1 <= k < |idx| ==> idx[k] == shifted[k - 1];
    HeadIncreasing(shifted);
    assert FirstDeclaring(decls, seen, 0);
  }

  lemma HeadIncreasing(shifted: seq<nat>)
    requires forall k :: 0 <= k < |shifted| ==> 0 < shifted[k]
    requires forall k, l :: 0 <= k < l < |shifted| ==> shifted[k] < shifted[l]
    ensures forall k, l :: 0 <= k < l < |[0] + shifted| ==> ([0] + shifted)[k] < ([0] + shifted)[l]
  {
    var idx := [0] + shifted;
    forall k, l | 0 <= k < l < |idx|
      ensures idx[k] < idx[l]
    {
      assert idx[l] == shifted[l - 1];
      if k > 0 {
        assert idx[k] == shifted[k - 1];
      }
    }
  }

  /** A first declaring line of the tail, with the head's name taken, is a
    * first declaring line of the whole. */
  lemma FirstShift(decls: seq<Option<UniformDef>>, seen: set<string>, i: nat)
    requires decls != [] && i < |decls| - 1
    requires FirstDeclaring(decls[1..], if Admitted(decls[0], seen) then seen + {decls[0].value.name} else seen, i)
    ensures FirstDeclaring(decls, seen, i + 1) && decls[i + 1] == decls[1..][i]
  {
    assert decls[1..][i] == decls[i + 1];
    forall j | 0 <= j < i + 1 && decls[j].Some?
      ensures decls[j].value.name != decls[i + 1].value.name
    {
      if j > 0 {
        assert decls[1..][j - 1] == decls[j];
      }
    }
  }

  /** Conversely, a first declaring line after the head is a first declaring
    * line of the tail with the head's name taken. */
  lemma FirstUnshift(decls: seq<Option<UniformDef>>, seen: set<string>, i: nat)
    requires 0 < i < |decls| && FirstDeclaring(decls, seen, i)
    ensures FirstDeclaring(decls[1..], if Admitted(decls[0], seen) then seen + {decls[0].value.name} else seen, i - 1)
  {
    assert decls[1..][i - 1] == decls[i];
    forall j | 0 <= j < i - 1 && decls[1..][j].Some?
      ensures decls[1..][j].value.name != decls[i].value.name
    {
      assert decls[1..][j] == decls[j + 1];
    }
  }

  // ---------------------------------------------------------------------------
  // Single lines

  /** A line holding just a declaration yields that declaration, classified
    * by the line's `layout(color)`. */
  lemma DeclarationLine(w: seq<string>, raw: string, name: string)
    requires Spacing(w, 3, {0, 1}) && raw in TypeTokens && Identifier(name)
    ensures LineDeclaration(DeclarationText(w, raw, name)) ==
      Some(UniformDef(name, Classify(raw, Test(LayoutColor(false), DeclarationText(w, raw, name)))))
  {
    var line := DeclarationText(w, raw, name);
    TrimmedDeclaration(w, raw, name);
    TypeTokensAreWords();
    DeclarationComplete(TypeTokens, AnyIdentifier, w, raw, name, "");
    assert line + "" == line;
    var m := Match(line, [raw, name]);
    FindAt(MatcherOf(UniformDecl), line, 0);
    assert line[0..] == line;
    assert !("//" <= line) by {
      assert line[0] == 'u';
    }
    LineDeclarationOf(line, m);
  }

  /** A source of one line holding a declaration of a name that is not
    * ignored yields exactly that definition. */
  lemma SingleLine(line: string, d: UniformDef)
    requires '\n' !in line && LineDeclaration(line) == Some(d) && d.name !in Ignored
    ensures Parsed(line) == [d]
  {
    SplitNoNewline(line);
    DeclarationsOfOne(line);
    CollectOne(d, Ignored);
  }

  /** A source of one line without a declaration yields nothing. */
  lemma SkippedLine(line: string)
    requires '\n' !in line && LineDeclaration(line) == None
    ensures Parsed(line) == []
  {
    SplitNoNewline(line);
    DeclarationsOfOne(line);
    assert Collect([None], Ignored) == Collect([], Ignored);
  }

  lemma DeclarationsOfOne(line: string)
    ensures Declarations([line]) == [LineDeclaration(line)]
  {
  }

  lemma CollectOne(d: UniformDef, seen: set<string>)
    requires d.name !in seen
    ensures Collect([Some(d)], seen) == [d]
  {
    assert [Some(d)][1..] == [];
  }

  lemma TypeTokensAreWords()
    ensures WordTokens(TypeTokens)
  {
    forall k | 0 <= k < |TypeTokens|
      ensures Identifier(TypeTokens[k])
    {
    }
  }

  /** A trimmed, uncommented line whose first declaration starts the line. */
  lemma LineDeclarationOf(line: string, m: Match)
    requires Trim(line) == line && !("//" <= line) && Find(UniformDecl, line) == Some((0, m))
    ensures m.groups != [] && |m.groups| == 2
    ensures LineDeclaration(line) == Some(UniformDef(m.groups[1], Classify(m.groups[0], Test(LayoutColor(false), line))))
  {
    FoundDeclaration(line, 0, m);
  }

  /** A declaration has no whitespace at either end, so trimming keeps it. */
  lemma TrimmedDeclaration(w: seq<string>, raw: string, name: string)
    requires |w| == 3
    ensures Trim(DeclarationText(w, raw, name)) == DeclarationText(w, raw, name)
  {
    var line := DeclarationText(w, raw, name);
    assert line[0] == 'u';
    assert Span(line, 0, Space) == 0;
    assert line[0..] == line;
    assert line[|line| - 1] == ';';
  }

  /** `float2`, `float3` and `float4` are not type tokens: a declaration with
    * one of them does not match where it starts. */
  lemma FloatVectorRejected(w: seq<string>, n: char, name: string, rest: string)
    requires Spacing(w, 3, {0, 1}) && n in "234"
    ensures MatchPrefix(UniformDecl, DeclarationText(w, "float" + [n], name) + rest).None?
  {
    var t := DeclarationText(w, "float" + [n], name) + rest;
    assert t[..|DeclarationText(w, "float" + [n], name)|] == DeclarationText(w, "float" + [n], name);
    DeclarationLayout(t, w, "float" + [n], name);
    var b := 7 + |w[0]|;
    SpanOfRun(t, 7, b, Space);
    OnlyFloatStartsWithF();
    FloatVectorAt(t, b, n, TypeTokens, AnyIdentifier);
  }

  /** A line holding just a `float2`, `float3` or `float4` declaration yields
    * no definition: no declaration match starts anywhere in it. */
  lemma FloatVectorLine(w: seq<string>, n: char, name: string)
    requires Spacing(w, 3, {0, 1}) && n in "234" && Identifier(name)
    ensures LineDeclaration(DeclarationText(w, "float" + [n], name)) == None
  {
    var line := DeclarationText(w, "float" + [n], name);
    TrimmedDeclaration(w, "float" + [n], name);
    assert !("//" <= line) by {
      assert line[0] == 'u';
    }
    forall j | 0 <= j <= |line|
      ensures MatcherOf(UniformDecl)(line[j..]).None?
    {
      if j == 0 {
        FloatVectorRejected(w, n, name, "");
        assert line + "" == line && line[0..] == line;
      } else {
        NoDeclarationInside(w, "float" + [n], name, j);
      }
    }
  }

  /** A source that is one such line yields no uniforms at all. */
  lemma FloatVectorSkipped(w: seq<string>, n: char, name: string)
    requires Spacing(w, 3, {0, 1}) && n in "234" && Identifier(name)
    requires forall k :: 0 <= k < 3 ==> '\n' !in w[k]
    ensures Parsed(DeclarationText(w, "float" + [n], name)) == []
  {
    FloatVectorFlat(w, n, name);
    FloatVectorLine(w, n, name);
    SkippedLine(DeclarationText(w, "float" + [n], name));
  }

  lemma FloatVectorFlat(w: seq<string>, n: char, name: string)
    requires |w| == 3 && n in "234" && Identifier(name)
    requires forall k :: 0 <= k < 3 ==> '\n' !in w[k]
    ensures '\n' !in DeclarationText(w, "float" + [n], name)
  {
    assert '\n' !in "uniform" && '\n' !in "float" + [n] && '\n' !in ";";
    assert '\n' !in name by {
      assert forall k :: 0 <= k < |name| ==> IsWordChar(name[k]);
    }
  }

  /** Past its first character, a declaration whose type token is shorter
    * than `uniform` holds no start of a declaration match: a run of seven
    * word characters followed by whitespace can only end the name, and then
    * `;` follows where a type token would have to. */
  lemma NoDeclarationInside(w: seq<string>, ty: string, name: string, j: nat)
    requires Spacing(w, 3, {0, 1}) && |ty| < 7 && Identifier(name)
    requires 0 < j <= |DeclarationText(w, ty, name)|
    ensures MatchPrefix(UniformDecl, DeclarationText(w, ty, name)[j..]).None?
  {
    var u := DeclarationText(w, ty, name)[j..];
    if "uniform" <= u && 7 < |u| && IsSpace(u[7]) {
      UniformRun(DeclarationText(w, ty, name), j);
      NameRunEnds(w, ty, name, j);
      var b := SpaceBeforeSemicolon(w, ty, name, j);
      TypeTokensNotSemicolon();
      TypeAtSemicolon(u, b, TypeTokens, AnyIdentifier);
    }
  }

  /** `uniform` written from position `j` is a run of seven word characters. */
  lemma UniformRun(line: string, j: nat)
    requires j <= |line| && "uniform" <= line[j..]
    ensures forall k :: j <= k < j + 7 ==> IsWordChar(line[k])
  {
    forall k | j <= k < j + 7
      ensures IsWordChar(line[k])
    {
      assert line[k] == line[j..][..7][k - j];
    }
  }

  /** Seven characters before the end of the name, only whitespace and `;`
    * are left. */
  lemma SpaceBeforeSemicolon(w: seq<string>, ty: string, name: string, j: nat) returns (b: nat)
    requires Spacing(w, 3, {0, 1})
    requires j + 7 == 7 + |w[0]| + |ty| + |w[1]| + |name|
    ensures 7 <= b < |DeclarationText(w, ty, name)[j..]|
    ensures Span(DeclarationText(w, ty, name)[j..], 7, Space) == b
    ensures DeclarationText(w, ty, name)[j..][b] == ';'
  {
    var u := DeclarationText(w, ty, name)[j..];
    assert u[7..] == w[2] + ";";
    b := 7 + |w[2]|;
    assert u[7..b] == w[2];
    SpanOfRun(u, 7, b, Space);
  }

  lemma TypeTokensNotSemicolon()
    ensures forall k :: 0 <= k < |TypeTokens| ==> TypeTokens[k] != [] && TypeTokens[k][0] != ';'
  {
  }

  /** Past the start of a declaration, seven word characters followed by
    * whitespace can only be the end of the name. */
  lemma NameRunEnds(w: seq<string>, ty: string, name: string, j: nat)
    requires Spacing(w, 3, {0, 1}) && |ty| < 7 && Identifier(name)
    requires 0 < j && j + 7 < |DeclarationText(w, ty, name)|
    ensures (forall k :: j <= k < j + 7 ==> IsWordChar(DeclarationText(w, ty, name)[k]))
      && IsSpace(DeclarationText(w, ty, name)[j + 7])
      ==> j + 7 == 7 + |w[0]| + |ty| + |w[1]| + |name|
  {
    var line := DeclarationText(w, ty, name);
    var p1 := 7 + |w[0]|;
    var p2 := p1 + |ty|;
    var p3 := p2 + |w[1]|;
    var p4 := p3 + |name|;
    if j < 7 {
      assert line[7] == w[0][0];
    } else if j < p1 {
      assert line[j] == w[0][j - 7];
    } else if j < p2 {
      assert line[p2] == w[1][0];
    } else if j < p3 {
      assert line[j] == w[1][j - p2];
    } else if j < p4 {
      if j + 7 < p4 {
        assert line[j + 7] == name[j + 7 - p3];
      } else if p4 < |line| - 1 {
        assert line[p4] == w[2][0];
      }
    } else if j < p4 + |w[2]| {
      assert line[j] == w[2][j - p4];
    }
  }

  /** No type token starts with `;`. */
  lemma {:induction false} TypeAtSemicolon(t: string, b: nat, types: seq<string>, names: Names)
    requires b < |t| && t[b] == ';'
    requires forall k :: 0 <= k < |types| ==> types[k] != [] && types[k][0] != ';'
    ensures DeclarationType(t, b, types, names).None?
    decreases |types|
  {
    if types != [] {
      if DeclarationTail(t, b, types[0], names).Some? {
        TailNeedsSpace(t, b, types[0], names);
        assert false;
      }
      TypeAtSemicolon(t, b, types[1..], names);
    }
  }

  /** No type token can be followed by whitespace where `float2`, `float3` or
    * `float4` is written, when the only token starting with `f` is `float`. */
  lemma {:induction false} FloatVectorAt(t: string, b: nat, n: char, types: seq<string>, names: Names)
    requires b + 6 <= |t| && t[b..b + 6] == "float" + [n] && n in "234"
    requires forall k :: 0 <= k < |types| ==> types[k] != [] && (types[k][0] == 'f' ==> types[k] == "float")
    ensures DeclarationType(t, b, types, names).None?
    decreases |types|
  {
    if types != [] {
      var ty := types[0];
      FloatVectorNotType(t, b, n, ty);
      if DeclarationTail(t, b, ty, names).Some? {
        TailNeedsSpace(t, b, ty, names);
        assert false;
      }
      FloatVectorAt(t, b, n, types[1..], names);
    }
  }

  lemma FloatVectorNotType(t: string, b: nat, n: char, ty: string)
    requires b + 6 <= |t| && t[b..b + 6] == "float" + [n] && n in "234"
    requires ty != [] && (ty[0] == 'f' ==> ty == "float")
    ensures !(ty <= t[b..] && b + |ty| < |t| && IsSpace(t[b + |ty|]))
  {
    if ty <= t[b..] && b + |ty| < |t| {
      assert ty[0] == t[b..][0] == t[b..b + 6][0] == 'f';
      assert t[b + 5] == t[b..b + 6][5] == n;
    }
  }

  /** A declaration goes on after its type token only if whitespace follows. */
  lemma TailNeedsSpace(t: string, b: nat, ty: string, names: Names)
    requires b <= |t| && DeclarationTail(t, b, ty, names).Some?
    ensures ty <= t[b..] && b + |ty| < |t| && IsSpace(t[b + |ty|])
  {
  }

  lemma OnlyFloatStartsWithF()
    ensures forall k :: 0 <= k < |TypeTokens| ==> TypeTokens[k] != [] && (TypeTokens[k][0] == 'f' ==> TypeTokens[k] == "float")
  {
  }

  // ---------------------------------------------------------------------------
  // Default values

  /** `getDefaultValue`: every type has a default; only an image's is `null`. */
  function DefaultValue(ty: UniformType): (v: Value)
    ensures v != Undefined
    ensures v == Null <==> ty == Image
    ensures v.Num? <==> ty == Float || ty == Int
    ensures v.Flag? <==> ty == Bool
    ensures v.Vec? <==> ty == Vec2 || ty == Vec3 || ty == Color
    ensures v.Vec? ==> forall k :: 0 <= k < |v.elems| ==> 0.0 <= v.elems[k] <= 1.0
    ensures ty == Vec2 ==> |v.elems| == 2
    ensures ty == Vec3 ==> |v.elems| == 3
    ensures ty == Color ==> |v.elems| == 4 && v.elems[3] == 1.0
  {
    match ty
    case Float => Num(0.5)
    case Int => Num(1.0)
    case Vec2 => Vec([0.5, 0.5])
    case Vec3 => Vec([1.0, 1.0, 1.0])
    case Color => Vec([1.0, 0.0, 0.0, 1.0])
    case Bool => Flag(false)
    case Image => Null
  }
}
