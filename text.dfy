/**
 * Character classes and string utilities with JavaScript's semantics:
 * the `\s`, `\w` and `\d` classes, `String.prototype.split("\n")`,
 * `Array.prototype.join("\n")`, `trim`, `includes`, `parseInt(_, 10)` on a
 * digit string, and the decimal rendering of an integer in a template literal.
 * Strings are sequences of characters; none of the patterns of the system
 * involve characters outside the Basic Multilingual Plane.
 */
module Text {
  import opened Wrappers

  /** JavaScript's `\s`: WhiteSpace and LineTerminator, which is also exactly
    * the set of characters that `String.prototype.trim` removes. */
  predicate IsSpace(c: char) {
    var n := c as int;
    (9 <= n <= 13) || n == 32 || n == 0xA0 || n == 0x1680 || (0x2000 <= n <= 0x200A)
    || n == 0x2028 || n == 0x2029 || n == 0x202F || n == 0x205F || n == 0x3000 || n == 0xFEFF
  }

  /** JavaScript's `\w`, identical to the class `[a-zA-Z0-9_]`. */
  predicate IsWordChar(c: char) {
    ('a' <= c <= 'z') || ('A' <= c <= 'Z') || ('0' <= c <= '9') || c == '_'
  }

  /** JavaScript's `\d`, identical to the class `[0-9]`. */
  predicate IsDigit(c: char) {
    '0' <= c <= '9'
  }

  /** The characters that `.` does not match (no `s` flag). */
  predicate IsLineTerminator(c: char) {
    c == '\n' || c == '\r' || c as int == 0x2028 || c as int == 0x2029
  }

  /** The character classes that occur in the system's regular expressions. */
  datatype CharClass =
    | Space              // \s
    | Word               // \w  and  [a-zA-Z0-9_]
    | Digit              // \d  and  [0-9]
    | IdentStart         // [a-zA-Z_]
    | Comparison         // [<>=]
    | NotLineTerminator  // .

  predicate InClass(c: char, cls: CharClass) {
    match cls
    case Space => IsSpace(c)
    case Word => IsWordChar(c)
    case Digit => IsDigit(c)
    case IdentStart => ('a' <= c <= 'z') || ('A' <= c <= 'Z') || c == '_'
    case Comparison => c == '<' || c == '>' || c == '='
    case NotLineTerminator => !IsLineTerminator(c)
  }

  predicate AllIn(s: string, cls: CharClass) {
    forall k :: 0 <= k < |s| ==> InClass(s[k], cls)
  }

  /** End of the longest run of `cls` characters of `t` that starts at `i`:
    * what a greedy `[cls]*` consumes from `i`. */
  function Span(t: string, i: nat, cls: CharClass): (j: nat)
    requires i <= |t|
    ensures i <= j <= |t|
    ensures AllIn(t[i..j], cls)
    ensures j == |t| || !InClass(t[j], cls)
    decreases |t| - i
  {
    if i < |t| && InClass(t[i], cls) then Span(t, i + 1, cls) else i
  }

  /** A run of `cls` characters that is followed by a character outside `cls`
    * (or by the end) is exactly what the greedy run consumes. */
  lemma {:induction false} SpanOfRun(t: string, i: nat, j: nat, cls: CharClass)
    requires i <= j <= |t|
    requires AllIn(t[i..j], cls)
    requires j == |t| || !InClass(t[j], cls)
    ensures Span(t, i, cls) == j
    decreases j - i
  {
    if i < j {
      assert t[i] == t[i..j][0];
      assert t[i + 1..j] == t[i..j][1..];
      SpanOfRun(t, i + 1, j, cls);
    }
  }

  /** A greedy `[cls]+`: the end of the run, when it is not empty. */
  function Plus(t: string, i: nat, cls: CharClass): (r: Option<nat>)
    requires i <= |t|
    ensures r.Some? <==> i < |t| && InClass(t[i], cls)
    ensures r.Some? ==> r.value == Span(t, i, cls)
  {
    var j := Span(t, i, cls);
    if j > i then Some(j) else None
  }
  /** A non-empty run followed by a character outside `cls` (or by the end)
    * is what the greedy `[cls]+` consumes. */
  lemma PlusOfRun(t: string, i: nat, j: nat, cls: CharClass)
    requires i < j <= |t| && AllIn(t[i..j], cls)
    requires j == |t| || !InClass(t[j], cls)
    ensures Plus(t, i, cls) == Some(j)
  {
    assert t[i] == t[i..j][0];
    SpanOfRun(t, i, j, cls);
  }


  /** The literal `w` at position `i` of `t`. */
  function Literal(t: string, i: nat, w: string): (r: Option<nat>)
    requires i <= |t|
    ensures r.Some? <==> w <= t[i..]
    ensures r.Some? ==> r.value == i + |w| <= |t|
  {
    if w <= t[i..] then Some(i + |w|) else None
  }

  /** `String.prototype.includes`. */
  predicate Contains(s: string, w: string)
    decreases |s|
  {
    w <= s || (s != [] && Contains(s[1..], w))
  }

  /** An occurrence of `w` at some index is what `Contains` detects. */
  lemma {:induction false} ContainsAt(s: string, w: string, k: nat)
    requires k <= |s| && w <= s[k..]
    ensures Contains(s, w)
    decreases k
  {
    if k > 0 {
      assert s[1..][k - 1..] == s[k..];
      ContainsAt(s[1..], w, k - 1);
    }
  }

  /** `Contains` finds an occurrence only where there is one. */
  lemma {:induction false} ContainsWitness(s: string, w: string) returns (k: nat)
    requires Contains(s, w)
    ensures k <= |s| && w <= s[k..]
    decreases |s|
  {
    if w <= s {
      k := 0;
    } else {
      var k' := ContainsWitness(s[1..], w);
      assert s[1..][k'..] == s[k' + 1..];
      k := k' + 1;
    }
  }

  lemma Associative<T>(a: seq<T>, b: seq<T>, c: seq<T>)
    ensures a + b + c == a + (b + c)
  {
  }

  /** Number of occurrences of the character `c` in `s`. */
  function Count(s: string, c: char): (n: nat)
    ensures n <= |s|
  {
    if s == [] then 0 else (if s[0] == c then 1 else 0) + Count(s[1..], c)
  }

  lemma {:induction false} CountConcat(a: string, b: string, c: char)
    ensures Count(a + b, c) == Count(a, c) + Count(b, c)
  {
    if a != [] {
      assert (a + b)[0] == a[0];
      assert (a + b)[1..] == a[1..] + b;
      CountConcat(a[1..], b, c);
    } else {
      assert a + b == b;
    }
  }

  lemma {:induction false} CountPositive(s: string, k: nat, c: char)
    requires k < |s| && s[k] == c
    ensures Count(s, c) > 0
  {
    if k > 0 {
      CountPositive(s[1..], k - 1, c);
    }
  }

  lemma {:induction false} CountAbsent(s: string, c: char)
    requires forall k :: 0 <= k < |s| ==> s[k] != c
    ensures Count(s, c) == 0
  {
    if s != [] {
      CountAbsent(s[1..], c);
    }
  }

  /** `s.split("\n")`: the pieces between newlines; never empty, and "" gives [""]. */
  function Split(s: string): (r: seq<string>)
    ensures |r| >= 1
  {
    if s == [] then [[]]
    else
      var rest := Split(s[1..]);
      if s[0] == '\n' then [[]] + rest else [[s[0]] + rest[0]] + rest[1..]
  }

  /** `xs.join(sep)`. */
  function Join(xs: seq<string>, sep: string): string {
    if |xs| == 0 then []
    else if |xs| == 1 then xs[0]
    else xs[0] + sep + Join(xs[1..], sep)
  }

  /** Splitting yields one more piece than there are newlines, and no piece
    * holds a newline. */
  lemma {:induction false} SplitShape(s: string)
    ensures |Split(s)| == Count(s, '\n') + 1
    ensures forall k :: 0 <= k < |Split(s)| ==> '\n' !in Split(s)[k]
  {
    if s != [] {
      SplitShape(s[1..]);
    }
  }

  /** Joining the pieces with newlines gives back the string. */
  lemma {:induction false} JoinSplit(s: string)
    ensures Join(Split(s), "\n") == s
  {
    if s != [] {
      JoinSplit(s[1..]);
      var rest := Split(s[1..]);
      if s[0] != '\n' {
        if |rest| > 1 {
          assert [[s[0]] + rest[0]] + rest[1..] == [[s[0]] + rest[0]] + rest[1..];
          assert ([[s[0]] + rest[0]] + rest[1..])[1..] == rest[1..];
        }
      } else {
        assert ([[]] + rest)[1..] == rest;
      }
    }
  }

  /** Splitting newline-free lines joined with newlines gives back the lines. */
  lemma {:induction false} SplitJoin(xs: seq<string>)
    requires |xs| >= 1
    requires forall k :: 0 <= k < |xs| ==> '\n' !in xs[k]
    ensures Split(Join(xs, "\n")) == xs
  {
    if |xs| == 1 {
      SplitNoNewline(xs[0]);
    } else {
      SplitJoin(xs[1..]);
      SplitAfterLine(xs[0], Join(xs[1..], "\n"));
      assert [xs[0]] + xs[1..] == xs;
    }
  }

  lemma {:induction false} SplitNoNewline(s: string)
    requires '\n' !in s
    ensures Split(s) == [s]
  {
    if s != [] {
      SplitNoNewline(s[1..]);
      assert [s[0]] + s[1..] == s;
    }
  }

  lemma {:induction false} SplitAfterLine(line: string, rest: string)
    requires '\n' !in line
    ensures Split(line + "\n" + rest) == [line] + Split(rest)
  {
    if line == [] {
      assert line + "\n" + rest == "\n" + rest;
      assert ("\n" + rest)[1..] == rest;
    } else {
      assert (line + "\n" + rest)[1..] == line[1..] + "\n" + rest;
      SplitAfterLine(line[1..], rest);
      assert [line[0]] + line[1..] == line;
    }
  }

  /** Newlines of joined pieces: those of the pieces plus one per separator. */
  lemma {:induction false} CountJoin(xs: seq<string>, c: char)
    requires |xs| >= 1
    ensures Count(Join(xs, [c]), c) == SumCount(xs, c) + |xs| - 1
  {
    if |xs| > 1 {
      CountJoin(xs[1..], c);
      CountConcat(xs[0] + [c], Join(xs[1..], [c]), c);
      CountConcat(xs[0], [c], c);
    }
  }

  function SumCount(xs: seq<string>, c: char): nat {
    if xs == [] then 0 else Count(xs[0], c) + SumCount(xs[1..], c)
  }

  lemma {:induction false} SumCountEach(xs: seq<string>, c: char, n: nat)
    requires forall k :: 0 <= k < |xs| ==> Count(xs[k], c) == n
    ensures SumCount(xs, c) == n * |xs|
  {
    if xs != [] {
      SumCountEach(xs[1..], c, n);
    }
  }

  /** The 1-based line on which the character at index `pos` of `s` lies. */
  function LineOf(s: string, pos: nat): (line: nat)
    requires pos <= |s|
    ensures line >= 1
  {
    Count(s[..pos], '\n') + 1
  }

  /** `trimStart`: drops the leading `\s` characters. */
  function TrimStart(s: string): (r: string)
    ensures r == s[Span(s, 0, Space)..]
  {
    s[Span(s, 0, Space)..]
  }

  /** `trimEnd`: drops the trailing `\s` characters. */
  function TrimEnd(s: string): (r: string)
    ensures r <= s
    ensures AllIn(s[|r|..], Space)
    ensures r == [] || !IsSpace(r[|r| - 1])
    decreases |s|
  {
    if s != [] && IsSpace(s[|s| - 1]) then
      var r := TrimEnd(s[..|s| - 1]);
      assert s[|r|..] == s[..|s| - 1][|r|..] + [s[|s| - 1]];
      r
    else s
  }

  /** `String.prototype.trim`: the part of `s` between its leading and its
    * trailing whitespace. */
  function Trim(s: string): (r: string) {
    TrimEnd(TrimStart(s))
  }

  /** The trimmed text is the middle of the line: whitespace on either side of
    * it, and no whitespace at either of its ends. */
  lemma TrimShape(s: string)
    ensures exists i, j :: 0 <= i <= j <= |s| && Trim(s) == s[i..j]
              && AllIn(s[..i], Space) && AllIn(s[j..], Space)
    ensures Trim(s) == [] || (!IsSpace(Trim(s)[0]) && !IsSpace(Trim(s)[|Trim(s)| - 1]))
  {
    var i := Span(s, 0, Space);
    var t := s[i..];
    var r := TrimEnd(t);
    var j := i + |r|;
    assert r == s[i..j];
    assert s[j..] == t[|r|..];
    if r != [] {
      assert r[0] == s[i];
    }
  }

  function DigitValue(c: char): (v: nat)
    requires IsDigit(c)
    ensures v < 10
  {
    c as int - '0' as int
  }

  function DigitChar(v: nat): (c: char)
    requires v < 10
    ensures IsDigit(c) && DigitValue(c) == v
  {
    (v + '0' as int) as char
  }

  /** `parseInt(d, 10)` for a string of decimal digits (leading zeros allowed). */
  function ParseDigits(d: string): nat
    requires AllIn(d, Digit)
  {
    if d == [] then 0 else 10 * ParseDigits(d[..|d| - 1]) + DigitValue(d[|d| - 1])
  }

  /** The decimal digits of `n`, without leading zeros. */
  function ShowNat(n: nat): (r: string)
    ensures r != [] && AllIn(r, Digit)
    ensures r[0] == '0' ==> n == 0
  {
    if n < 10 then [DigitChar(n)] else ShowNat(n / 10) + [DigitChar(n % 10)]
  }

  /** How a template literal renders an integer-valued number. */
  function ShowInt(n: int): (r: string)
    ensures r != []
  {
    if n < 0 then "-" + ShowNat(-n) else ShowNat(n)
  }

  /** Reading back the digits of a number gives the number. */
  lemma {:induction false} ParseShow(n: nat)
    ensures ParseDigits(ShowNat(n)) == n
  {
    if n >= 10 {
      ParseShow(n / 10);
      var r := ShowNat(n);
      assert r[..|r| - 1] == ShowNat(n / 10);
    }
  }

  /** The rendering of an integer is signed exactly when the integer is
    * negative, and reads back as that integer. */
  lemma ShowIntSign(n: int)
    ensures ShowInt(n)[0] == '-' <==> n < 0
    ensures n < 0 ==> ParseDigits(ShowInt(n)[1..]) == -n
    ensures n >= 0 ==> ParseDigits(ShowInt(n)) == n
  {
    if n < 0 {
      ShowNegative(n);
    } else {
      ShowNonNegative(n);
    }
  }

  lemma ShowNegative(n: int)
    requires n < 0
    ensures ShowInt(n)[0] == '-' && ParseDigits(ShowInt(n)[1..]) == -n
  {
    assert ShowInt(n)[1..] == ShowNat(-n);
    ParseShow(-n);
  }

  lemma ShowNonNegative(n: int)
    requires n >= 0
    ensures ShowInt(n)[0] != '-' && ParseDigits(ShowInt(n)) == n
  {
    assert InClass(ShowNat(n)[0], Digit);
    ParseShow(n);
  }

  /** Only zero renders as `0`. */
  lemma ShowIntZero(n: int)
    ensures ShowInt(n) == "0" <==> n == 0
  {
    if n < 0 {
      assert ShowInt(n)[0] == '-';
    } else if n > 0 {
      assert ShowNat(n)[0] != '0';
    }
  }
}
