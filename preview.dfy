/**
 * The compile-error callback of src/Preview.tsx: every diagnostic header
 * `ERROR: <string>:<line>:` in the compiler's message is rewritten to
 * `ERROR: Line <line - lineOffset>:`, where `lineOffset` is the number of
 * preamble lines the transpiler reported for the same compilation.
 */
module Preview {
  import opened Wrappers
  import opened Text
  import opened Regex
  import opened Shapes

  /** Every header match captures one group, and it is a digit string. */
  predicate ErrorHits(pieces: seq<Piece>) {
    forall k :: 0 <= k < |pieces| && pieces[k].Hit? ==> |pieces[k].m.groups| == 1 && Digits(pieces[k].m.groups[0])
  }

  lemma ErrorScanHits(message: string)
    ensures ErrorHits(Scan(CompileError, message))
  {
    forall u | MatchPrefix(CompileError, u).Some?
      ensures |MatchPrefix(CompileError, u).value.groups| == 1 && Digits(MatchPrefix(CompileError, u).value.groups[0])
    {
      CompileErrorSound(u);
    }
    ScanHitsSatisfy(MatcherOf(CompileError), message, (m: Match) => |m.groups| == 1 && Digits(m.groups[0]));
  }

  /** What the callback returns for a header whose line number is `line`. */
  function Corrected(line: string, lineOffset: int): string
    requires Digits(line)
  {
    Heading(ParseDigits(line) - lineOffset)
  }

  /** The header the callback writes for user line `n`. */
  function Heading(n: int): string {
    "ERROR: Line " + ShowInt(n) + ":"
  }

  /** The pieces of the scan with each header replaced by the callback's text. */
  function Rendered(pieces: seq<Piece>, lineOffset: int): string
    requires ErrorHits(pieces)
  {
    if pieces == [] then []
    else
      (match pieces[0] case Keep(c) => [c] case Hit(m) => Corrected(m.groups[0], lineOffset))
      + Rendered(pieces[1..], lineOffset)
  }

  /** `err.replace(/ERROR:\s+\d+:(\d+):/g, ...)` with the callback of the source. */
  function Remap(message: string, lineOffset: int): string {
    ErrorScanHits(message);
    Rendered(Scan(CompileError, message), lineOffset)
  }

  /** A header at the start is replaced and the replace goes on after it;
    * the first number of the header plays no part. */
  lemma RemapHeader(w: string, first: string, line: string, rest: string, lineOffset: int)
    requires Blank(w) && w != [] && Digits(first) && Digits(line)
    ensures Remap(ErrorHeaderText(w, first, line) + rest, lineOffset)
         == Corrected(line, lineOffset) + Remap(rest, lineOffset)
  {
    var header := ErrorHeaderText(w, first, line);
    var t := header + rest;
    CompileErrorComplete(w, first, line, rest);
    assert t[|header|..] == rest;
    ErrorScanHits(t);
    ErrorScanHits(rest);
    var pieces := Scan(CompileError, t);
    assert pieces == [Hit(Match(header, [line]))] + Scan(CompileError, rest);
    assert pieces[1..] == Scan(CompileError, rest);
  }

  /** A character where no header starts is passed through. */
  lemma RemapKeeps(message: string, lineOffset: int)
    requires message != [] && MatchPrefix(CompileError, message).None?
    ensures Remap(message, lineOffset) == [message[0]] + Remap(message[1..], lineOffset)
  {
    ErrorScanHits(message);
    ErrorScanHits(message[1..]);
    var pieces := Scan(CompileError, message);
    assert pieces == [Keep(message[0])] + Scan(CompileError, message[1..]);
    assert pieces[1..] == Scan(CompileError, message[1..]);
  }

  /** A message without any header is returned unchanged. */
  lemma {:induction false} RemapWithoutHeader(message: string, lineOffset: int)
    requires forall k :: 0 <= k <= |message| ==> MatchPrefix(CompileError, message[k..]).None?
    ensures Remap(message, lineOffset) == message
    decreases |message|
  {
    if message != [] {
      assert message[0..] == message;
      RemapKeeps(message, lineOffset);
      forall k | 0 <= k <= |message[1..]|
        ensures MatchPrefix(CompileError, message[1..][k..]).None?
      {
        assert message[1..][k..] == message[k + 1..];
      }
      RemapWithoutHeader(message[1..], lineOffset);
      assert [message[0]] + message[1..] == message;
    }
  }

  /** A message in which the pattern finds nothing is returned unchanged. */
  lemma RemapPassesThrough(message: string, lineOffset: int)
    requires !Test(CompileError, message)
    ensures Remap(message, lineOffset) == message
  {
    RemapWithoutHeader(message, lineOffset);
  }

  /** An error the compiler reports on output line `lineOffset + userLine` is
    * reported on line `userLine`, whatever the first number: the line of the
    * rewritten source, which is the user's line only where no rewrite above
    * it removed a line break. */
  lemma ReportedUserLine(w: string, first: string, lineOffset: nat, userLine: nat, rest: string)
    requires Blank(w) && w != [] && Digits(first)
    ensures Remap(ErrorHeaderText(w, first, ShowNat(lineOffset + userLine)) + rest, lineOffset)
         == "ERROR: Line " + ShowNat(userLine) + ":" + Remap(rest, lineOffset)
  {
    RemapHeader(w, first, ShowNat(lineOffset + userLine), rest, lineOffset);
    CorrectedUserLine(lineOffset, userLine);
  }

  lemma CorrectedUserLine(lineOffset: nat, userLine: nat)
    ensures Corrected(ShowNat(lineOffset + userLine), lineOffset) == "ERROR: Line " + ShowNat(userLine) + ":"
  {
    ParseShow(lineOffset + userLine);
    assert ShowInt(userLine) == ShowNat(userLine);
  }

  /** The reported number is negative exactly when the compiler's line is
    * below the offset, zero when it equals it, and reads back as the
    * difference: nothing is clamped. */
  lemma ReportedSign(line: string, lineOffset: int)
    requires Digits(line)
    ensures var n := ParseDigits(line) - lineOffset;
      var shown := Corrected(line, lineOffset)[12..|Corrected(line, lineOffset)| - 1];
      shown == ShowInt(n) && (shown[0] == '-' <==> ParseDigits(line) < lineOffset) &&
      (shown == "0" <==> ParseDigits(line) == lineOffset)
  {
    var n := ParseDigits(line) - lineOffset;
    CorrectedShows(line, lineOffset);
    ShowIntSign(n);
    ShowIntZero(n);
  }

  lemma CorrectedShows(line: string, lineOffset: int)
    requires Digits(line)
    ensures var c := Corrected(line, lineOffset);
      |c| > 13 && c[12..|c| - 1] == ShowInt(ParseDigits(line) - lineOffset)
  {
    HeadingShows(ParseDigits(line) - lineOffset);
  }

  lemma HeadingShows(n: int)
    ensures |Heading(n)| > 13 && Heading(n)[12..|Heading(n)| - 1] == ShowInt(n)
  {
    Middle("ERROR: Line ", ShowInt(n), ":");
  }

  lemma Middle(a: string, x: string, b: string)
    ensures |a + x + b| == |a| + |x| + |b| && (a + x + b)[|a|..|a| + |x|] == x
  {
  }
}
