# AGSL shader preview: transpiler, uniform parser and error remapper in Dafny

This project models the text-processing core of a browser preview for Android
AGSL shaders:

- **The transpiler** (`transpileAGSL`). It turns an AGSL fragment shader into
  WebGL GLSL through a fixed, ordered pipeline of regular-expression rewrites:
  - re-declared built-ins are commented out;
  - `shader`/`sampler2D` uniforms are moved out and their names collected;
  - `x.eval(` becomes `x_eval(`;
  - `layout(color)` is stripped;
  - one float-counter loop shape gets an int counter;
  - the first `main` signature becomes `userMain`.

  It puts a preamble in front: polyfills, one sampler declaration and one
  `<name>_eval` helper per collected name. It appends a synthesized `main()`
  driver and returns `lineOffset`, the number of preamble lines. The three
  advisory `console.warn` checks are returned as a list of warnings.
- **The uniform parser** (`parseUniforms`, `getDefaultValue`). It works line
  by line:
  - it skips `//` lines and takes the first declaration of each line;
  - it drops ignored names and repeated names;
  - it classifies the type with the precedence image > `layout(color)` > type
    token.

  Every type has a default value.
- **The compile-error callback of the preview.** It rewrites every
  `ERROR: <n>:<line>:` header to `ERROR: Line <line - lineOffset>:`.
- **The uniform bookkeeping of the app.** This is the default merge that runs on
  every code change, the single-key update of a control, and the Kotlin setter
  lines.

## How the model is built

- **Regular expressions.** Each regular expression the code uses is a
  `Pattern` with its own explicit matcher. The matcher works on the rest of the
  text from a position (`Regex.MatchPrefix`). Every greedy run in these
  patterns is followed by a character outside its class, so the greedy choice
  is the only one. Alternations are tried in their written order, as
  JavaScript's backtracking does. The back-reference of the loop pattern is a
  literal comparison with the captured counter.
- **Replace and test.** `Regex.Scan` splits the text into kept characters and
  matches, as a global `replace` walks it. `ReplaceAll`, `ReplaceFirst`
  (leftmost match only) and `Test` are defined on it, and `Expand` fills in
  `$n` references.
- **Each pattern against its language.** Module `Shapes` proves, pattern by
  pattern, that a match is exactly a text of the intended shape (the `Sound`
  lemmas). It also proves that every such text matches, with the right groups
  (the `Complete` lemmas).
- **Each rewrite stage.** Module `Stages` states what each rewrite stage does
  to such a text.
- **Stateful code.** The transpiler is a method that threads `glsl` through
  the stages. The image callback is a loop proved against a function of the
  scan. `parseUniforms` and the app's merge are loops proved against fold
  functions, and the lemmas about those functions carry the properties.

## Model

| member | source | states |
|---|---|---|
| Transpiler.TranspileAGSL | src/transpiler.ts:28-108 | The output is the preamble for the collected image names, then the rewritten source, a newline and the driver. The driver's masking flag is whether the original source mentions `uShapeMask`. `lineOffset` is the number of newlines in the preamble, 27 without image uniforms and 25 + 6n with n of them. Each warning is raised exactly when its pattern occurs in the source, and the warnings play no part in the output. |
| Transpiler.Advisories | src/transpiler.ts:31-33 | The layout, `#define` and dynamic-loop warnings are each present iff the corresponding regex test succeeds on the original source. |
| Transpiler.Flagged | src/transpiler.ts:31-33 | Each warning is in the list exactly when its test was true. |
| Transpiler.RewriteSource | src/transpiler.ts:35-68 | The stages in source order: built-ins removed, image declarations moved out (their names collected), then the call, layout, loop and signature rewrites. |
| Transpiler.RemoveBuiltIns | src/transpiler.ts:35-39 | The five built-in re-declarations are replaced in the source's order. What each replacement does to a declaration is stated by Stages.DeclarationCommented. |
| Transpiler.RewriteCalls | src/transpiler.ts:58-68 | The `.eval`, `layout(color)`, loop and `main` rewrites, in that order. Their effect on matching text is stated by Stages.EvalRewrite, Stages.LayoutStripped, Stages.LoopRewrite and Stages.MainRename. |
| Transpiler.ExtractImageUniforms | src/transpiler.ts:41-48 | Every image declaration of the scan is replaced by the callback's comment. The names pushed are those of the declarations other than `uShapeMask`, in order. |
| Transpiler.RunCallback | src/transpiler.ts:44-48 | The loop over the scan's pieces builds exactly the replaced text and the pushed names. |
| Transpiler.ImageNames | src/transpiler.ts:44-48 | The collected names never include `uShapeMask`, and each is an identifier. |
| Transpiler.ImageNamesMembership | src/transpiler.ts:44-48 | A name is collected iff some declaration match carries it and it is not `uShapeMask`. |
| Transpiler.ImageScanHits | src/transpiler.ts:42 | Every image declaration match has a type group and a name group, and the name is an identifier. |
| Transpiler.ImageUniforms | src/transpiler.ts:41-48 | The image uniforms of a source exclude `uShapeMask` and are identifiers. |
| Transpiler.PreambleOf | src/transpiler.ts:97-102 | The preamble is the polyfills, a newline, the declarations, a newline, the helpers and a newline. `split('\n').length - 1` equals its newline count, 27 or 25 + 6n. |
| Transpiler.PreambleNewlines | src/transpiler.ts:97 | The preamble has 27 newlines without image uniforms and 25 + 6n with n. |
| Transpiler.PolyfillNewlines | src/transpiler.ts:1-25 | The polyfill block holds 24 newlines. |
| Transpiler.DeclsNewlines | src/transpiler.ts:50 | The joined declarations hold one newline fewer than there are names, and none for no names. |
| Transpiler.DeclsLines | src/transpiler.ts:50 | Split into lines, the declarations are exactly one `uniform sampler2D <name>;` per name, in order. |
| Transpiler.HelperNewlines | src/transpiler.ts:52-56 | Each `<name>_eval` helper holds four newlines. |
| Transpiler.HelpersNewlines | src/transpiler.ts:52-56 | The joined helpers hold 5n - 1 newlines for n names, and none for no names. |
| Transpiler.LinesAfter | src/transpiler.ts:97-106 | In `preamble + body + "\n" + driver`, position p of the body is on output line `lineOffset + LineOf(body, p)`. So the first line of the rewritten source is output line `lineOffset + 1`. |
| Transpiler.MentionDisablesMask | src/transpiler.ts:70 | Any occurrence of `uShapeMask` in the original source, even in a comment or in a removed declaration, turns the manual-mask flag on. |
| Stages.DeclarationCommented | src/transpiler.ts:35-39 | A re-declaration with any listed type, name and spacing becomes the comment, and the replace goes on with the rest. |
| Stages.MaskCommented | src/transpiler.ts:39 | `uniform sampler2D uShapeMask;` with any spacing becomes `// uShapeMask removed`. |
| Stages.ImageDeclarationMoved | src/transpiler.ts:42-48 | An image declaration becomes `// moved <name>` and pushes its name. For `uShapeMask` it becomes `// built-in mask` and pushes nothing. |
| Stages.EvalRewrite | src/transpiler.ts:58 | `<identifier>.eval <spaces>(` becomes `<identifier>_eval(` for every identifier. The text after the parenthesis goes on to the rest of the replace. |
| Stages.EvalExpansion | src/transpiler.ts:58 | The template `$1_eval(` expands to the receiver followed by `_eval(`. |
| Stages.LayoutStripped | src/transpiler.ts:59 | `layout`, `(`, `color` and `)` with any whitespace between them, and all the whitespace after them (line breaks included), are deleted. The replace goes on with the rest. |
| Stages.LayoutLineDrift | src/transpiler.ts:59 | When the rest holds no other qualifier, the strip leaves exactly the rest. A character of the rest then sits as many lines higher as the qualifier and its trailing whitespace held line breaks. |
| Stages.DefineWarning | src/transpiler.ts:32 | The `#define` test succeeds iff `#define` followed by a whitespace character occurs somewhere in the source. |
| Stages.DynamicLoopWarned | src/transpiler.ts:33 | A source holding `for (`, the rest of a line up to a `;`, a word, comparison operators and a letter, anywhere, passes the dynamic-loop test. |
| Stages.LoopRewrite | src/transpiler.ts:60-63 | A float-counter header with one counter in all three places and integer bounds becomes `for (int v = a; v < b; v++)`. |
| Stages.LoopExpansion | src/transpiler.ts:62 | The loop template expands with the counter and both bounds in their places. |
| Stages.MainRename | src/transpiler.ts:65-68 | The first signature becomes `vec4 userMain(vec2 id)`. The text before and after it, later signatures included, is kept. |
| Stages.MainExpansion | src/transpiler.ts:67 | The signature template expands to `vec4 userMain(vec2 <id>)`, whatever the return and parameter types were. |
| Stages.MouseOffered | src/uniformParser.ts:13-16 | `uniform vec4 iMouse;` is commented out by the transpiler, yet the parser yields a colour control for it. |
| Regex.FindWith | src/transpiler.ts:65-68 | The position found is the leftmost one at which the pattern matches. Nothing matches at any earlier position, and with no result nothing matches anywhere. |
| Regex.ScanTiles | src/transpiler.ts:58 | The pieces of a global replace's scan tile the text, in order. |
| Regex.ScanHitsSatisfy | src/transpiler.ts:44 | Whatever holds of every match a pattern can report holds of every match the scan visits. |
| Regex.ReplaceAllStep | src/transpiler.ts:58 | A global replace either replaces a match at the start and goes on after it, or keeps the first character and goes on with the rest. |
| Regex.ReplaceAllAt | src/transpiler.ts:58 | A match at the start is expanded, and the replace goes on with the rest. |
| Regex.ReplaceAllWithoutMatch | src/transpiler.ts:35 | A global replace with no match anywhere leaves the text unchanged. |
| Regex.ReplaceAllSkips | src/transpiler.ts:58 | The characters before the first matching position are kept. |
| Regex.ReplaceAllRepeatsFind | src/transpiler.ts:58 | A global replace equals: the text before the leftmost match, its expansion, then the global replace of the rest. |
| Regex.ReplaceFirstAt | src/transpiler.ts:65-68 | A replace without `g` changes only the first match. The text before and after it is kept. |
| Regex.FirstMatchAt | src/transpiler.ts:65-68 | A match right after a stretch with no match is the one that is found. |
| Regex.MatchCompileError | src/Preview.tsx:103 | A header match is a non-empty prefix of the text. |
| Shapes.TokensSound | src/transpiler.ts:61 | A match of `\s*`-separated tokens spans exactly those tokens with whitespace between them. |
| Shapes.DeclarationSound | src/transpiler.ts:42 | A declaration match is `uniform`, a listed type, an accepted name and `;`, separated by whitespace, and captures the type and the name. |
| Shapes.DeclarationComplete | src/transpiler.ts:42 | Every such text is matched whole, whatever follows it, with the type and the name as groups. |
| Shapes.DeclarationTypeChosen | src/uniformParser.ts:24 | The type alternatives are tried in order, and the one written in the text is chosen. |
| Shapes.NameChosen | src/transpiler.ts:35 | The name alternatives are tried in order. The match succeeds iff the written name is one of them. |
| Shapes.CompileErrorSound | src/Preview.tsx:103 | A header match is `ERROR:`, whitespace, digits, `:`, digits, `:`, and captures the second number. |
| Shapes.CompileErrorComplete | src/Preview.tsx:103 | Every such header is matched whole, with the second number as its group. |
| Shapes.EvalCallSound | src/transpiler.ts:58 | An `.eval` match is an identifier, `.eval`, whitespace and `(`, and captures the identifier. |
| Shapes.EvalCallComplete | src/transpiler.ts:58 | Every such text is matched whole, capturing the identifier. |
| Shapes.LayoutColorSound | src/transpiler.ts:59 | A `layout(color)` match is the four tokens with whitespace between them and no group. With the trailing `\s*` it also takes the whitespace after them, up to a character that is not whitespace or the end. Without it, it takes none. |
| Shapes.LayoutColorComplete | src/transpiler.ts:59 | Every such text is matched whole, whatever follows it. With the trailing `\s*`, the whitespace after the `)` is taken up to the first character that is not whitespace. |
| Shapes.DefineDirectiveSound | src/transpiler.ts:32 | A `#define` match is `#define` and the whole run of whitespace after it, which is not empty. |
| Shapes.DefineDirectiveComplete | src/transpiler.ts:32 | `#define` followed by whitespace is matched up to the first character that is not whitespace. |
| Shapes.DynamicLoopSound | src/transpiler.ts:33 | A dynamic-loop match is `for`, whitespace, `(`, line-internal text, `;`, a word, comparison operators and a letter, with whitespace allowed between the last four. |
| Shapes.DynamicLoopComplete | src/transpiler.ts:33 | Every such text starts a match, whatever follows it. The match may reach further along the line, because the `.*` tries the last `;` first. |
| Shapes.FloatCounterLoopSound | src/transpiler.ts:61 | A loop match has the same counter in all three places and integer bounds written with `.0`, and captures the counter and both bounds. |
| Shapes.FloatCounterLoopComplete | src/transpiler.ts:61 | Every such loop header is matched whole, with its three groups. |
| Shapes.MainSignatureSound | src/transpiler.ts:66 | A signature match has a listed return type, an optional `in`, a listed parameter type and an identifier, and captures all three. |
| Shapes.MainSignatureComplete | src/transpiler.ts:66 | Every such signature is matched whole, with its three groups. |
| UniformParser.ParseUniforms | src/uniformParser.ts:8-54 | The loop over the lines, with `definitions` and `seenNames`, returns the fold `Parsed` of the lines' declarations, starting with the ignored names taken. |
| UniformParser.ReadLine | src/uniformParser.ts:19-47 | The loop body up to the name checks: trim, skip a `//` line, test for `layout(color)`, take the first declaration and classify it. |
| UniformParser.LineDeclaration | src/uniformParser.ts:19-27 | A line yields a declaration iff its trimmed text does not start with `//` and holds a declaration match. The declaration taken is the leftmost one: it is declared at a position before which no match starts. Its name is an identifier declared there with a type token, and it is classified with the line's `layout(color)`. |
| UniformParser.Declarations | src/uniformParser.ts:11-18 | One entry per line of the source, in order. |
| UniformParser.Classify | src/uniformParser.ts:31-47 | Image iff `shader`/`sampler2D`. Colour iff not an image and (`layout(color)` or `vec4`/`half4`). Bool, int, vec2 and vec3 iff the token matches and there is no `layout(color)`. Float otherwise. |
| UniformParser.DefaultValue | src/uniformParser.ts:56-65 | Every type has a default, and only an image's is `null`. Scalars are numbers, bool a flag, vectors of the right length with entries in [0, 1], and the colour is opaque. |
| UniformParser.FoundDeclaration | src/uniformParser.ts:24-27 | The first match of a line has a type token and an identifier name, declared at the match position, and no match starts before it. |
| UniformParser.DeclarationLine | src/uniformParser.ts:19-50 | A line holding just a declaration yields it, classified with the line's `layout(color)`. |
| UniformParser.SingleLine | src/uniformParser.ts:8-54 | A one-line source declaring a name that is not ignored yields exactly that definition. |
| UniformParser.TrimmedDeclaration | src/uniformParser.ts:19 | A declaration has no surrounding whitespace, so trimming keeps it. |
| UniformParser.FloatVectorRejected | src/uniformParser.ts:24 | A declaration with `float2`, `float3` or `float4` does not match where it starts, whatever follows it. |
| UniformParser.FloatVectorLine | src/uniformParser.ts:19-27 | A line holding just such a declaration yields no declaration: no match starts anywhere in it. |
| UniformParser.FloatVectorSkipped | src/uniformParser.ts:8-54 | A one-line source holding just such a declaration yields no uniforms. |
| UniformParser.SkippedLine | src/uniformParser.ts:8-54 | A one-line source whose line yields no declaration yields no uniforms. |
| UniformParser.NoTakenNames | src/uniformParser.ts:29 | No definition has a name that was already taken. |
| UniformParser.DistinctNames | src/uniformParser.ts:29-50 | The names of the definitions are pairwise distinct. |
| UniformParser.ParsedNames | src/uniformParser.ts:13-50 | The result holds no ignored name and no name twice, at most one definition per line, and only identifiers. |
| UniformParser.OnePerLine | src/uniformParser.ts:18-51 | Each line contributes at most one definition. |
| UniformParser.CollectedIdentifiers | src/uniformParser.ts:27 | Every collected name is an identifier. |
| UniformParser.FirstLines | src/uniformParser.ts:18-50 | The definitions are exactly the declarations of the first line declaring each admissible name, in the order of those lines. |
| UniformParser.MouseNotIgnored | src/uniformParser.ts:13-16 | `iMouse` is not an ignored name. |
| Preview.ErrorScanHits | src/Preview.tsx:103 | Every header the replace visits has one group, a digit string. |
| Preview.RemapHeader | src/Preview.tsx:102-108 | A header is replaced by `ERROR: Line <line - lineOffset>:`. The first number plays no part, and the replace goes on after the header. |
| Preview.RemapKeeps | src/Preview.tsx:103 | A character at which no header starts is passed through. |
| Preview.RemapWithoutHeader | src/Preview.tsx:103 | A message with no header anywhere is returned unchanged. |
| Preview.RemapPassesThrough | src/Preview.tsx:103 | A message the pattern does not find is returned unchanged. |
| Preview.ReportedUserLine | src/Preview.tsx:102-108 | An error on output line `lineOffset + u` is reported as line `u`, whatever the first number. |
| Preview.ReportedSign | src/Preview.tsx:104-106 | The reported number is the difference, negative iff the line is below the offset and `0` iff equal to it. Nothing is clamped. |
| App.MergeDefaults | src/App.tsx:51-59 | The copy-and-fill loop returns the fold `Merged` of the definitions over the previous record. |
| App.Filled | src/App.tsx:54-56 | One step gives the name its type's default if it reads as `undefined`. Otherwise the record is unchanged, and other names are unchanged in either case. |
| App.MergedKeeps | src/App.tsx:52-58 | A value already there, `null` included, is kept, and no entry is removed. |
| App.MergedOutside | src/App.tsx:51-59 | Names that are not declared keep their values. |
| App.MergedDefines | src/App.tsx:53-57 | Afterwards every declared name has a value. |
| App.MergedDefault | src/App.tsx:54-55 | A name without a value gets the default of the type of its first definition. |
| App.MergedIdempotent | src/App.tsx:51-59 | Merging again with the same definitions changes nothing. |
| App.MergedUnchanged | src/App.tsx:51-59 | A record in which every declared name already has a value is returned unchanged. |
| App.ParsedDefaults | src/App.tsx:48-58 | For the parsed definitions, each name ends up with its old value if it had one and with its type's default otherwise. |
| App.Updated | src/App.tsx:62-64 | The entry for the name becomes the value. Every other name reads as before, and the key set gains the name. |
| App.UpdateSurvivesMerge | src/App.tsx:51-64 | A value set by a control survives the next re-parse's merge. |
| App.SetterLine | src/App.tsx:67-71 | A line starts with `setColorUniform` iff the type is colour and with `setFloatUniform` otherwise. The name follows the opening quote. |
| App.KotlinSetters | src/App.tsx:67-72 | The export is empty iff there are no definitions. |
| App.SetterLines | src/App.tsx:67-72 | Read back line by line, the export is one setter per definition, in order. |
| App.ParsedSetters | src/App.tsx:67-72 | For the parsed definitions, there is one line per uniform, and the colour setter is used iff the type is colour. |
| Text.SplitShape | src/transpiler.ts:102 | `split('\n')` gives one more piece than there are newlines, none holding a newline. |
| Text.JoinSplit | src/uniformParser.ts:11 | Joining the pieces of `split('\n')` with newlines gives back the source. |
| Text.SplitJoin | src/App.tsx:72 | Splitting newline-free lines joined with `\n` gives back the lines. |
| Text.TrimShape | src/uniformParser.ts:19 | The trimmed text is a slice of the line, with whitespace on either side of it and none at its ends. |
| Text.ParseShow | src/Preview.tsx:104 | `parseInt` of the decimal digits of a number gives the number. |
| Text.ShowIntSign | src/Preview.tsx:106 | An integer renders with a leading `-` iff it is negative, and reads back as itself. |
| Text.ShowIntZero | src/Preview.tsx:106 | Only zero renders as `0`. |

## Behaviour worth knowing

- `iMouse` is commented out by the transpiler (src/transpiler.ts:38) but is
  not among the parser's ignored names (src/uniformParser.ts:13-16). The
  parser offers a control for it (`Stages.MouseOffered`).
- `float2`, `float3` and `float4` are not type tokens of the parser
  (src/uniformParser.ts:24). Such declarations get no control
  (`UniformParser.FloatVectorLine`, `UniformParser.FloatVectorSkipped`).
- Errors in the preamble are reported on line 0 or a negative line
  (`Preview.ReportedSign`). Errors in the driver are reported past the last
  line of the rewritten source, which need not be the user's last line.
- Reported line numbers count lines of the rewritten source, and these drift
  from the user's lines wherever a rewrite removes a line break. The
  `layout(color)` strip (src/transpiler.ts:59) deletes all the whitespace after
  the qualifier, line breaks included (`Stages.LayoutLineDrift`). The `\s`
  runs of the declaration patterns (src/transpiler.ts:35-42) can span lines,
  and the whole declaration becomes a one-line comment
  (`Stages.DeclarationCommented`). For example, take a source whose line 1 is
  `layout(color)`, whose lines 2 to 6 are blank and whose line 7 is
  `uniform half4 c;`. The strip leaves the declaration on line 1 of the
  rewritten source, so an error in it is reported on line 1, not line 7.
- Any mention of `uShapeMask` in the original source turns the driver's
  masking off. This holds even in a comment, or in a declaration the rewrites
  have removed (`Transpiler.MentionDisablesMask`).

## Left out

- The GLSL compiler, WebGL program creation, uniform upload, textures and the
  render loop are left out. They are GPU I/O and foreign library calls. The
  model covers only the text they receive and the text of the error callback.
- `console.warn` is not modelled as output. The advisories are returned as a
  list of `Warning` values. Their message texts are constants.
- The polyfill block, the helper bodies and the driver body are fixed text.
  Their meaning as GLSL (gamma, discard threshold, sampling) is not modelled.
  Only their newline counts and the spliced `usesMaskManual` boolean are
  reasoned about.
- There is no general regular-expression engine. Each pattern the code uses
  has its own matcher, written after the regex text. The `Sound` and
  `Complete` lemmas of `Shapes` pin each one down.
- Transpiler.TranspileAGSL: the contract does not say that the driver text
  discards fragments iff the flag is false. The driver is kept as text with
  the flag spliced into both tests.
- The Kotlin template around the setters, the clipboard and the alert of
  `copyKotlin` are left out. They are UI side effects. Only the setter lines
  are modelled.
- App.Updated: JavaScript objects inherit prototype names such as
  `constructor`. The model reads a missing key as `undefined`, so a uniform
  named like an `Object.prototype` member is not modelled.
- Text.ParseShow: `parseInt` is exact here. JavaScript numbers lose precision
  above 2^53, and line numbers that large are not modelled.
- App.MergeDefaults: the numbers in the record are reals. The distinction
  between JavaScript's integer-valued and fractional numbers is not drawn.
