/**
 * The uniform state of src/App.tsx: the values shown by the controls are a
 * record from uniform name to value. Whenever the code changes, every parsed
 * uniform whose value is still `undefined` gets its type's default; a
 * control's change overwrites one entry; the Kotlin export writes one setter
 * call per parsed uniform.
 */
module App {
  import opened Text
  import opened Shapes
  import opened UniformParser

  /** `Record<string, any>`: a name without an entry reads as `undefined`. */
  type Values = map<string, Value>

  function Read(values: Values, name: string): Value {
    if name in values then values[name] else Undefined
  }

  // ---------------------------------------------------------------------------
  // Filling in defaults

  /** One step of the `forEach`: give `d` its default if its value is `undefined`. */
  function Filled(values: Values, d: UniformDef): (r: Values)
    ensures Read(r, d.name) != Undefined
    ensures Read(values, d.name) != Undefined ==> r == values
    ensures Read(values, d.name) == Undefined ==> Read(r, d.name) == DefaultValue(d.ty)
    ensures forall n :: n != d.name ==> Read(r, n) == Read(values, n)
    ensures r.Keys == values.Keys + {d.name} || r == values
  {
    if Read(values, d.name) == Undefined then values[d.name := DefaultValue(d.ty)] else values
  }

  /** The record the state updater returns for the previous record `prev`
    * and the parsed definitions `defs`, in order. */
  function Merged(prev: Values, defs: seq<UniformDef>): Values
    decreases |defs|
  {
    if defs == [] then prev else Merged(Filled(prev, defs[0]), defs[1..])
  }

  /** The state updater of the effect that runs on every code change. */
  method MergeDefaults(prev: Values, defs: seq<UniformDef>) returns (next: Values)
    ensures next == Merged(prev, defs)
  {
    next := prev;
    assert defs[0..] == defs;
    for i := 0 to |defs|
      invariant Merged(next, defs[i..]) == Merged(prev, defs)
    {
      var d := defs[i];
      assert defs[i..][1..] == defs[i + 1..];
      if Read(next, d.name) == Undefined {
        next := next[d.name := DefaultValue(d.ty)];
      }
    }
  }

  /** A value that is already there, `null` included, is kept; so is every
    * entry, also of names no longer declared. */
  lemma {:induction false} MergedKeeps(prev: Values, defs: seq<UniformDef>)
    ensures forall n :: Read(prev, n) != Undefined ==> Read(Merged(prev, defs), n) == Read(prev, n)
    ensures prev.Keys <= Merged(prev, defs).Keys
    decreases |defs|
  {
    if defs != [] {
      MergedKeeps(Filled(prev, defs[0]), defs[1..]);
    }
  }

  /** Names that are not declared are left as they were. */
  lemma {:induction false} MergedOutside(prev: Values, defs: seq<UniformDef>, name: string)
    requires forall i :: 0 <= i < |defs| ==> defs[i].name != name
    ensures Read(Merged(prev, defs), name) == Read(prev, name)
    decreases |defs|
  {
    if defs != [] {
      MergedOutside(Filled(prev, defs[0]), defs[1..], name);
    }
  }

  /** Afterwards every declared uniform has a value. */
  lemma {:induction false} MergedDefines(prev: Values, defs: seq<UniformDef>)
    ensures forall i :: 0 <= i < |defs| ==> Read(Merged(prev, defs), defs[i].name) != Undefined
    decreases |defs|
  {
    if defs != [] {
      var filled := Filled(prev, defs[0]);
      MergedDefines(filled, defs[1..]);
      MergedKeeps(filled, defs[1..]);
      forall i | 0 <= i < |defs|
        ensures Read(Merged(prev, defs), defs[i].name) != Undefined
      {
        if i > 0 {
          assert defs[i] == defs[1..][i - 1];
        }
      }
    }
  }

  /** A declared uniform without a value gets its own type's default, taken
    * from the first definition of its name. */
  lemma {:induction false} MergedDefault(prev: Values, defs: seq<UniformDef>, i: nat)
    requires i < |defs| && Read(prev, defs[i].name) == Undefined
    requires forall j :: 0 <= j < i ==> defs[j].name != defs[i].name
    ensures Read(Merged(prev, defs), defs[i].name) == DefaultValue(defs[i].ty)
    decreases |defs|
  {
    var filled := Filled(prev, defs[0]);
    if i == 0 {
      MergedKeeps(filled, defs[1..]);
    } else {
      assert defs[i] == defs[1..][i - 1];
      forall j | 0 <= j < i - 1
        ensures defs[1..][j].name != defs[1..][i - 1].name
      {
        assert defs[1..][j] == defs[j + 1];
      }
      MergedDefault(filled, defs[1..], i - 1);
    }
  }

  /** Running the updater again on its own result changes nothing. */
  lemma MergedIdempotent(prev: Values, defs: seq<UniformDef>)
    ensures Merged(Merged(prev, defs), defs) == Merged(prev, defs)
  {
    MergedDefines(prev, defs);
    MergedUnchanged(Merged(prev, defs), defs);
  }

  lemma {:induction false} MergedUnchanged(values: Values, defs: seq<UniformDef>)
    requires forall i :: 0 <= i < |defs| ==> Read(values, defs[i].name) != Undefined
    ensures Merged(values, defs) == values
  {
    if defs != [] {
      assert forall i :: 0 <= i < |defs[1..]| ==> defs[1..][i] == defs[i + 1];
      MergedUnchanged(values, defs[1..]);
    }
  }

  /** For the definitions `parseUniforms` returns, whose names are distinct,
    * every uniform without a value gets exactly the default of its type. */
  lemma ParsedDefaults(prev: Values, source: string)
    ensures forall i :: 0 <= i < |Parsed(source)| ==>
      Read(Merged(prev, Parsed(source)), Parsed(source)[i].name)
      == if Read(prev, Parsed(source)[i].name) == Undefined then DefaultValue(Parsed(source)[i].ty)
         else Read(prev, Parsed(source)[i].name)
  {
    var defs := Parsed(source);
    ParsedNames(source);
    MergedKeeps(prev, defs);
    forall i | 0 <= i < |defs| && Read(prev, defs[i].name) == Undefined
      ensures Read(Merged(prev, defs), defs[i].name) == DefaultValue(defs[i].ty)
    {
      MergedDefault(prev, defs, i);
    }
  }

  // ---------------------------------------------------------------------------
  // A control's change

  /** `handleUniformChange`: the entry for `name` becomes `value`; nothing
    * else changes. */
  function Updated(values: Values, name: string, value: Value): (r: Values)
    ensures Read(r, name) == value
    ensures forall n :: n != name ==> Read(r, n) == Read(values, n)
    ensures r.Keys == values.Keys + {name}
  {
    values[name := value]
  }

  /** A value set by a control survives the next re-parse of the code. */
  lemma UpdateSurvivesMerge(values: Values, name: string, value: Value, defs: seq<UniformDef>)
    requires value != Undefined
    ensures Read(Merged(Updated(values, name, value), defs), name) == value
  {
    MergedKeeps(Updated(values, name, value), defs);
  }

  // ---------------------------------------------------------------------------
  // Kotlin setters

  const ColorSetter: string := "shader.setColorUniform(\""
  const ColorSetterEnd: string := "\", /* TODO: Pass color int */)"
  const FloatSetter: string := "shader.setFloatUniform(\""
  const FloatSetterEnd: string := "\", /* value */)"

  /** `opening + name + closing`, seen from its parts. */
  function Call(opening: string, name: string, closing: string): (line: string)
    ensures opening <= line
    ensures |opening| + |name| <= |line| && line[|opening|..|opening| + |name|] == name
    ensures '\n' in line <==> '\n' in opening || '\n' in name || '\n' in closing
  {
    assert (opening + name + closing)[..|opening|] == opening;
    assert (opening + name + closing)[|opening|..|opening| + |name|] == name;
    opening + name + closing
  }

  /** Two openings of one length that differ cannot both start a line. */
  lemma OtherOpening(opening: string, other: string, line: string)
    requires opening <= line && |other| == |opening| && other != opening
    ensures !(other <= line)
  {
  }

  lemma SetterTexts()
    ensures |ColorSetter| == |FloatSetter| && ColorSetter != FloatSetter
    ensures '\n' !in ColorSetter && '\n' !in ColorSetterEnd
    ensures '\n' !in FloatSetter && '\n' !in FloatSetterEnd
  {
    assert ColorSetter[10] != FloatSetter[10];
  }

  /** The setter call for one definition: the colour setter exactly for a
    * colour uniform, the float setter for every other type; the name comes
    * right after the opening quote. */
  function SetterLine(d: UniformDef): (line: string)
    ensures ColorSetter <= line <==> d.ty == Color
    ensures FloatSetter <= line <==> d.ty != Color
    ensures var opening := if d.ty == Color then ColorSetter else FloatSetter;
      |opening| + |d.name| <= |line| && line[|opening|..|opening| + |d.name|] == d.name
    ensures '\n' in line <==> '\n' in d.name
  {
    SetterTexts();
    if d.ty == Color then
      var line := Call(ColorSetter, d.name, ColorSetterEnd);
      OtherOpening(ColorSetter, FloatSetter, line);
      line
    else
      var line := Call(FloatSetter, d.name, FloatSetterEnd);
      OtherOpening(FloatSetter, ColorSetter, line);
      line
  }

  /** The setter calls of all definitions, one per line. */
  function KotlinSetters(defs: seq<UniformDef>): (text: string)
    ensures text == [] <==> defs == []
  {
    Join(seq(|defs|, i requires 0 <= i < |defs| => SetterLine(defs[i])), "\n")
  }

  /** Reading the export back line by line gives each definition's setter,
    * in order, when no name holds a newline. */
  lemma SetterLines(defs: seq<UniformDef>)
    requires defs != []
    requires forall i :: 0 <= i < |defs| ==> '\n' !in defs[i].name
    ensures |Split(KotlinSetters(defs))| == |defs|
    ensures forall i :: 0 <= i < |defs| ==> Split(KotlinSetters(defs))[i] == SetterLine(defs[i])
  {
    var lines := seq(|defs|, i requires 0 <= i < |defs| => SetterLine(defs[i]));
    SplitJoin(lines);
  }

  /** For the parsed definitions, which are identifiers, the export has one
    * line per uniform, and the line uses the colour setter exactly for a
    * colour uniform. */
  lemma ParsedSetters(source: string)
    requires Parsed(source) != []
    ensures |Split(KotlinSetters(Parsed(source)))| == |Parsed(source)|
    ensures forall i :: 0 <= i < |Parsed(source)| ==>
      (ColorSetter <= Split(KotlinSetters(Parsed(source)))[i] <==> Parsed(source)[i].ty == Color)
  {
    var defs := Parsed(source);
    ParsedNames(source);
    SetterLines(defs);
  }
}
