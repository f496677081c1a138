/** The string operations of the .NET base library that the generator relies on,
    restricted to what the generator's inputs exercise. */
module Text {

  /** `string.StartsWith(prefix)`, compared ordinally. */
  predicate StartsWith(s: string, prefix: string) {
    |prefix| <= |s| && s[..|prefix|] == prefix
  }

  /** `string.EndsWith(suffix)`, compared ordinally. */
  predicate EndsWith(s: string, suffix: string) {
    |suffix| <= |s| && s[|s| - |suffix|..] == suffix
  }

  predicate IsAsciiLower(c: char) { 'a' <= c <= 'z' }

  predicate IsAsciiUpper(c: char) { 'A' <= c <= 'Z' }

  /** `char.ToUpper`, restricted to the ASCII letters; every other character is
      returned unchanged. */
  function ToUpper(c: char): char {
    if IsAsciiLower(c) then (c as int - 32) as char else c
  }

  /** `char.ToLower`, restricted to the ASCII letters. */
  function ToLower(c: char): char {
    if IsAsciiUpper(c) then (c as int + 32) as char else c
  }

  /** `char.IsWhiteSpace`: the Unicode space separators, the line and paragraph
      separators, U+0009..U+000D, U+0085 and U+00A0. */
  predicate IsWhiteSpace(c: char) {
    || c == ' '
    || '\t' <= c <= '\r'
    || c == '\U{85}'
    || c == '\U{A0}'
    || c == '\U{1680}'
    || '\U{2000}' <= c <= '\U{200A}'
    || c == '\U{2028}'
    || c == '\U{2029}'
    || c == '\U{202F}'
    || c == '\U{205F}'
    || c == '\U{3000}'
  }

  /** `string.IsNullOrWhiteSpace` on a string that is not null. */
  predicate IsBlank(s: string) {
    forall i | 0 <= i < |s| :: IsWhiteSpace(s[i])
  }

  predicate NoNewline(s: string) {
    '\n' !in s
  }

  /** Number of occurrences of `c` in `s`. */
  function CountChar(c: char, s: string): nat {
    if s == [] then 0 else (if s[0] == c then 1 else 0) + CountChar(c, s[1..])
  }

  /** The concatenation of `parts`, in order. */
  function Concat(parts: seq<string>): string {
    if parts == [] then "" else Concat(parts[..|parts| - 1]) + parts[|parts| - 1]
  }

  /** The lines of `lines` separated by line feeds (no line feed after the last one).
      A verbatim multi-line string literal whose file uses LF line endings is the
      `JoinLines` of its lines. */
  function JoinLines(lines: seq<string>): string {
    if lines == [] then ""
    else if |lines| == 1 then lines[0]
    else lines[0] + "\n" + JoinLines(lines[1..])
  }

  /** A joined text starts with its first line. */
  lemma JoinLinesFirstLine(lines: seq<string>)
    requires |lines| >= 1
    ensures StartsWith(JoinLines(lines), lines[0])
  {
  }

  /** A joined text of three or more lines is its first two lines, each followed by a
      line feed, then the rest joined. */
  lemma JoinLinesTwoHeads(lines: seq<string>)
    requires |lines| >= 3
    ensures JoinLines(lines) == lines[0] + "\n" + lines[1] + "\n" + JoinLines(lines[2..])
  {
    var tail := lines[1..];
    var x, y, rest := lines[0] + "\n", lines[1] + "\n", JoinLines(lines[2..]);
    assert tail[0] == lines[1] && tail[1..] == lines[2..];
    assert JoinLines(tail) == y + rest;
    assert JoinLines(lines) == x + (y + rest);
    AppendAssociative(x, y, rest);
    AppendAssociative(x, lines[1], "\n");
  }

  lemma AppendAssociative(a: string, b: string, c: string)
    ensures a + (b + c) == a + b + c
  {
  }

  /** In a joined text of two or more lines, a line feed follows the first line and
      the second line follows that. */
  lemma JoinLinesSecondLine(lines: seq<string>)
    requires |lines| >= 2
    ensures |JoinLines(lines)| > |lines[0]| && JoinLines(lines)[|lines[0]|] == '\n'
    ensures StartsWith(JoinLines(lines)[|lines[0]| + 1..], lines[1])
  {
    JoinLinesFirstLine(lines[1..]);
    assert JoinLines(lines)[|lines[0]| + 1..] == JoinLines(lines[1..]);
  }

  lemma {:induction false} CountCharAppend(c: char, a: string, b: string)
    ensures CountChar(c, a + b) == CountChar(c, a) + CountChar(c, b)
  {
    if a == [] {
      assert a + b == b;
    } else {
      assert (a + b)[1..] == a[1..] + b;
      CountCharAppend(c, a[1..], b);
    }
  }

  lemma {:induction false} CountCharAbsent(c: char, a: string)
    requires c !in a
    ensures CountChar(c, a) == 0
  {
    if a != [] {
      CountCharAbsent(c, a[1..]);
    }
  }
}
