/**
 The text `World.__str__` prints: the code matrix of the grid, the codes of a
 row joined by single spaces and the rows joined by newlines. A reader for that
 text shows that it loses nothing.
 */
module Render {
  import opened Codebook
  import opened Board

  /** `str(k)` for a one-digit code. */
  function Digit(k: int): char
    requires 0 <= k <= 9
  {
    (48 + k) as char
  }

  /** The value of a decimal digit character. */
  function DigitValue(ch: char): int
  {
    (ch as int) - 48
  }

  /** `" ".join(...)` of the codes of one row. */
  function RowText(codes: seq<int>): (line: string)
    requires forall k :: 0 <= k < |codes| ==> 0 <= codes[k] <= 9
    ensures |line| == if |codes| == 0 then 0 else 2 * |codes| - 1
    ensures '\n' !in line
    ensures forall k :: 0 <= k < |line| ==>
              line[k] == if k % 2 == 0 then Digit(codes[k / 2]) else ' '
  {
    if |codes| == 0 then ""
    else if |codes| == 1 then [Digit(codes[0])]
    else
      var rest := RowText(codes[1..]);
      assert forall k :: 2 <= k < 2 + |rest| ==> codes[1..][(k - 2) / 2] == codes[k / 2];
      [Digit(codes[0]), ' '] + rest
  }

  /** Reads one printed row back: the digits sit at the even positions. */
  function ParseRow(line: string): seq<int>
  {
    if |line| == 0 then []
    else if |line| == 1 then [DigitValue(line[0])]
    else [DigitValue(line[0])] + ParseRow(line[2..])
  }

  lemma {:induction false} ParseRowText(codes: seq<int>)
    requires forall k :: 0 <= k < |codes| ==> 0 <= codes[k] <= 9
    ensures ParseRow(RowText(codes)) == codes
  {
    if |codes| > 1 {
      var line := RowText(codes);
      assert line[2..] == RowText(codes[1..]);
      ParseRowText(codes[1..]);
      assert codes == [codes[0]] + codes[1..];
    }
  }

  /** `"\n".join(lines)`. */
  function JoinLines(lines: seq<string>): string
  {
    if |lines| == 0 then ""
    else if |lines| == 1 then lines[0]
    else lines[0] + "\n" + JoinLines(lines[1..])
  }

  /** The position of the first newline of a text. */
  function FirstNewline(t: string): (i: nat)
    requires '\n' in t
    ensures i < |t| && t[i] == '\n'
    ensures '\n' !in t[..i]
  {
    if t[0] == '\n' then 0
    else
      assert '\n' in t[1..] by {
        var k :| 0 <= k < |t| && t[k] == '\n';
        assert t[1..][k - 1] == '\n';
      }
      var i := 1 + FirstNewline(t[1..]);
      assert t[..i] == [t[0]] + t[1..][..i - 1];
      i
  }

  /** Splits a text at its newlines, like `str.split("\n")`. */
  function SplitLines(t: string): seq<string>
    decreases |t|
  {
    if '\n' !in t then [t]
    else
      var i := FirstNewline(t);
      [t[..i]] + SplitLines(t[i + 1..])
  }

  /** Splitting undoes joining, as long as there is a line and no line holds a
      newline of its own. */
  lemma {:induction false} SplitJoin(lines: seq<string>)
    requires |lines| > 0
    requires forall k :: 0 <= k < |lines| ==> '\n' !in lines[k]
    ensures SplitLines(JoinLines(lines)) == lines
  {
    if |lines| > 1 {
      var a, rest := lines[0], JoinLines(lines[1..]);
      var t := a + "\n" + rest;
      assert t[|a|] == '\n';
      var i := FirstNewline(t);
      assert t[..|a|] == a;
      assert i == |a|;
      assert t[..i] == a;
      assert t[i + 1..] == rest;
      SplitJoin(lines[1..]);
      assert lines == [lines[0]] + lines[1..];
    }
  }

  /** `World.__str__`: `None` where the source raises a `KeyError` for a cell
      with no code. */
  function Show(w: World): (text: Option<string>)
    requires Valid(w)
    ensures text.Some? <==> Encodable(w)
    ensures w.rows == 0 ==> text == Some("")
  {
    match Snapshot(w)
    case None => None
    case Some(m) =>
      Some(JoinLines(seq(|m|, i requires 0 <= i < |m| => RowText(m[i]))))
  }

  /** Reads printed text back into a code matrix. */
  function ParseText(text: string): seq<seq<int>>
  {
    var lines := SplitLines(text);
    seq(|lines|, i requires 0 <= i < |lines| => ParseRow(lines[i]))
  }

  /** The printed text of a non-empty world reads back as its code matrix, so
      `__str__` loses nothing (an empty world prints as the empty text, which
      reads back as one empty row). */
  lemma ShowRoundTrip(w: World)
    requires Valid(w) && Encodable(w) && w.rows > 0
    ensures ParseText(Show(w).value) == Snapshot(w).value
  {
    var m := Snapshot(w).value;
    forall i, j | 0 <= i < |m| && 0 <= j < |m[i]|
      ensures 0 <= m[i][j] <= 9
    {
      assert InRange(w, i, j);
    }
    var lines := seq(|m|, i requires 0 <= i < |m| => RowText(m[i]));
    SplitJoin(lines);
    forall i | 0 <= i < |m|
      ensures ParseRow(lines[i]) == m[i]
    {
      ParseRowText(m[i]);
    }
  }
}
