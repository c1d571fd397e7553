// Strings as JavaScript sees them: white space, trimming, lines and joining.

module Text {
  predicate IsLineTerminator(c: char) {
    c == '\n' || c == '\r' || c == '\U{2028}' || c == '\U{2029}'
  }

  // The class \s, which is also what trim() removes.
  predicate IsSpace(c: char) {
    || '\t' <= c <= '\r' || c == ' ' || c == '\U{00A0}' || c == '\U{1680}' || '\U{2000}' <= c <= '\U{200A}'
    || c == '\U{2028}' || c == '\U{2029}' || c == '\U{202F}' || c == '\U{205F}' || c == '\U{3000}' || c == '\U{FEFF}'
  }

  predicate OneLine(s: string) {
    forall c <- s :: !IsLineTerminator(c)
  }

  function TrimStart(s: string): (t: string)
    ensures |t| <= |s| && t == s[|s| - |t|..]
    ensures t != "" ==> !IsSpace(t[0])
  {
    if s != "" && IsSpace(s[0]) then TrimStart(s[1..]) else s
  }

  function TrimEnd(s: string): (t: string)
    ensures |t| <= |s| && t == s[..|t|]
    ensures t != "" ==> !IsSpace(t[|t| - 1])
  {
    if s != "" && IsSpace(s[|s| - 1]) then TrimEnd(s[..|s| - 1]) else s
  }

  function Trim(s: string): string {
    TrimEnd(TrimStart(s))
  }

  // The position of the first c, or the length.
  function IndexOf(s: string, c: char): (i: nat)
    ensures i <= |s|
    ensures i < |s| ==> s[i] == c
    ensures forall j :: 0 <= j < i ==> s[j] != c
  {
    if s == "" || s[0] == c then 0 else 1 + IndexOf(s[1..], c)
  }

  // The pieces between the c's.
  function SplitOn(s: string, c: char): (parts: seq<string>)
    ensures parts != []
    decreases |s|
  {
    var i := IndexOf(s, c);
    if i == |s| then [s] else [s[..i]] + SplitOn(s[i + 1..], c)
  }

  // A stretch of the string between two c's, or its ends.
  ghost predicate IsPiece(part: string, s: string, c: char) {
    exists i, j :: IsPieceAt(part, s, c, i, j)
  }

  predicate IsPieceAt(part: string, s: string, c: char, i: int, j: int) {
    && 0 <= i <= j <= |s| && part == s[i..j] && c !in part
    && (i == 0 || s[i - 1] == c) && (j == |s| || s[j] == c)
  }

  lemma InFront(s: string, c: char, j: nat)
    requires j <= |s|
    ensures c in s[..j] <==> IndexOf(s, c) < j
  {
    if IndexOf(s, c) < j { assert s[..j][IndexOf(s, c)] == c; }
  }

  // A piece is the first one or one of the rest.
  lemma PieceCases(s: string, c: char, part: string, i: int, j: int)
    requires IndexOf(s, c) < |s| && IsPieceAt(part, s, c, i, j)
    ensures var n := IndexOf(s, c);
      if i == 0 then part == s[..n] else i > n && IsPieceAt(part, s[n + 1..], c, i - n - 1, j - n - 1)
  {
    var n := IndexOf(s, c);
    if i == 0 {
      InFront(s, c, j);
      assert part == s[..j];
    } else {
      assert s[i - 1] == c;
      assert s[n + 1..][i - n - 1..j - n - 1] == s[i..j];
    }
  }

  lemma PieceOfRest(s: string, c: char, part: string, i: int, j: int)
    requires IndexOf(s, c) < |s| && IsPieceAt(part, s[IndexOf(s, c) + 1..], c, i, j)
    ensures var n := IndexOf(s, c); IsPieceAt(part, s, c, i + n + 1, j + n + 1)
  {
    var n := IndexOf(s, c);
    assert s[n + 1..][i..j] == s[i + n + 1..j + n + 1];
  }

  lemma WholePiece(s: string, c: char, part: string)
    requires IndexOf(s, c) == |s|
    ensures IsPiece(part, s, c) <==> part == s
  {
    assert s[0..|s|] == s;
    if part == s { assert IsPieceAt(part, s, c, 0, |s|); }
  }

  lemma {:induction false} SplitOnIs(s: string, c: char, part: string)
    ensures part in SplitOn(s, c) <==> IsPiece(part, s, c)
    decreases |s|
  {
    hide IsPieceAt;
    var n := IndexOf(s, c);
    if n == |s| {
      WholePiece(s, c, part);
    } else {
      var rest := s[n + 1..];
      SplitOnIs(rest, c, part);
      FirstPiece(s, c);
      if i, j :| IsPieceAt(part, s, c, i, j) { PieceCases(s, c, part, i, j); }
      if i, j :| IsPieceAt(part, rest, c, i, j) { PieceOfRest(s, c, part, i, j); }
    }
  }

  lemma FirstPiece(s: string, c: char)
    requires IndexOf(s, c) < |s|
    ensures IsPieceAt(s[..IndexOf(s, c)], s, c, 0, IndexOf(s, c))
  {}

  // ---------------------------------------------------------------- decimal numbers

  predicate IsDigit(c: char) {
    '0' <= c <= '9'
  }

  // /^\d+$/
  predicate IsNumeric(s: string) {
    s != "" && forall c <- s :: IsDigit(c)
  }

  // BigInt(s)
  function Value(s: string): nat
    requires forall c <- s :: IsDigit(c)
  {
    assert s != "" ==> IsDigit(s[|s| - 1]);
    if s == "" then 0 else 10 * Value(s[..|s| - 1]) + (s[|s| - 1] as int - '0' as int)
  }

  function DigitsLength(s: string): (n: nat)
    ensures n <= |s|
    ensures forall c <- s[..n] :: IsDigit(c)
  {
    if s != "" && IsDigit(s[0]) then 1 + DigitsLength(s[1..]) else 0
  }

  // ---------------------------------------------------------------- lines

  function StripCr(line: string): string {
    if line != "" && line[|line| - 1] == '\r' then line[..|line| - 1] else line
  }

  // raw.split(/\r?\n/)
  function Lines(raw: string): (lines: seq<string>)
    ensures lines != []
    decreases |raw|
  {
    var i := IndexOf(raw, '\n');
    if i == |raw| then [raw] else [StripCr(raw[..i])] + Lines(raw[i + 1..])
  }

  function Join(lines: seq<string>): string {
    if lines == [] then ""
    else if |lines| == 1 then lines[0]
    else lines[0] + "\n" + Join(lines[1..])
  }

  function StripCrs(lines: seq<string>): (stripped: seq<string>)
    ensures |stripped| == |lines|
    ensures forall i :: 0 <= i < |lines| ==> stripped[i] == StripCr(lines[i])
  {
    seq(|lines|, i requires 0 <= i < |lines| => StripCr(lines[i]))
  }

  predicate NoNewline(line: string) {
    '\n' !in line
  }

  // ---------------------------------------------------------------- lemmas

  lemma TrimStartNone(s: string)
    requires s == "" || !IsSpace(s[0])
    ensures TrimStart(s) == s
  {}

  lemma TrimNone(s: string)
    requires s != "" && !IsSpace(s[0]) && !IsSpace(s[|s| - 1])
    ensures Trim(s) == s && TrimStart(s) == s && TrimEnd(s) == s
  {}

  lemma {:induction false} IndexOfAt(a: string, c: char, b: string)
    requires c !in a
    ensures IndexOf(a + [c] + b, c) == |a|
  {
    if a == "" {
      assert (a + [c] + b)[0] == c;
    } else {
      assert (a + [c] + b)[1..] == a[1..] + [c] + b;
      IndexOfAt(a[1..], c, b);
    }
  }

  lemma {:induction false} LinesNoNewline(raw: string)
    ensures forall line <- Lines(raw) :: NoNewline(line)
    decreases |raw|
  {
    var i := IndexOf(raw, '\n');
    if i < |raw| { LinesNoNewline(raw[i + 1..]); }
  }

  lemma LinesCons(line: string, rest: string)
    requires NoNewline(line)
    ensures Lines(line + "\n" + rest) == [StripCr(line)] + Lines(rest)
  {
    var raw := line + "\n" + rest;
    IndexOfAt(line, '\n', rest);
    assert raw == line + ['\n'] + rest;
    assert raw[..|line|] == line && raw[|line| + 1..] == rest;
  }

  // Splitting what was joined gives the lines back; a carriage return before a line feed is lost.
  lemma {:induction false} LinesOfJoin(lines: seq<string>, rest: string)
    requires forall line <- lines :: NoNewline(line)
    ensures Lines(JoinThen(lines, rest)) == StripCrs(lines) + Lines(rest)
  {
    hide Lines, StripCr;
    if lines == [] {
      assert StripCrs([]) + Lines(rest) == Lines(rest);
    } else {
      LinesOfJoin(lines[1..], rest);
      LinesCons(lines[0], JoinThen(lines[1..], rest));
      assert StripCrs(lines) == [StripCr(lines[0])] + StripCrs(lines[1..]);
    }
  }

  // Every line followed by a line feed, then the rest.
  function JoinThen(lines: seq<string>, rest: string): string {
    if lines == [] then rest else lines[0] + "\n" + JoinThen(lines[1..], rest)
  }

  lemma {:induction false} JoinIsJoinThen(lines: seq<string>, tail: string)
    requires lines != []
    ensures Join(lines) + tail == JoinThen(lines[..|lines| - 1], lines[|lines| - 1] + tail)
  {
    if |lines| > 1 {
      JoinIsJoinThen(lines[1..], tail);
      assert lines[..|lines| - 1][1..] == lines[1..][..|lines| - 2];
      assert Join(lines) + tail == lines[0] + "\n" + (Join(lines[1..]) + tail);
    }
  }

  lemma {:induction false} JoinThenAppend(a: seq<string>, b: seq<string>, rest: string)
    ensures JoinThen(a + b, rest) == JoinThen(a, JoinThen(b, rest))
  {
    if a == [] {
      assert a + b == b;
    } else {
      assert (a + b)[1..] == a[1..] + b;
      JoinThenAppend(a[1..], b, rest);
    }
  }

  // A text of lines that ends with a line feed.
  lemma LinesOfText(lines: seq<string>)
    requires lines != [] && forall line <- lines :: NoNewline(line)
    ensures Lines(Join(lines) + "\n") == StripCrs(lines) + [""]
  {
    var n := |lines| - 1;
    JoinIsJoinThen(lines, "\n");
    assert lines == lines[..n] + [lines[n]];
    JoinThenAppend(lines[..n], [lines[n]], "");
    assert JoinThen([lines[n]], "") == lines[n] + "\n";
    LinesOfJoin(lines, "");
    assert Lines("") == [""];
  }

  // Trimming the end of a text drops blank lines and trims the last line that is left.
  lemma {:induction false} TrimEndOfJoin(lines: seq<string>)
    requires forall line <- lines :: NoNewline(line)
    ensures TrimEnd(Join(lines)) == Join(TrimLines(lines))
  {
    if lines != [] {
      var n := |lines| - 1;
      if n == 0 {
        assert Join(lines) == lines[0];
      } else {
        TrimEndOfJoin(lines[..n]);
        JoinLast(lines);
        if TrimEnd(lines[n]) == "" {
          TrimEndBlank(Join(lines[..n]) + "\n", lines[n]);
          assert Join(lines) == Join(lines[..n]) + "\n" + lines[n];
          assert (Join(lines[..n]) + "\n")[..|Join(lines[..n])|] == Join(lines[..n]);
        } else {
          TrimEndSolid(Join(lines[..n]) + "\n", lines[n]);
          JoinLast(lines[..n] + [TrimEnd(lines[n])]);
          assert (lines[..n] + [TrimEnd(lines[n])])[..n] == lines[..n];
        }
      }
    }
  }

  // The lines up to the last one that is not blank, which is trimmed.
  function TrimLines(lines: seq<string>): seq<string> {
    if lines == [] then []
    else
      var n := |lines| - 1;
      if TrimEnd(lines[n]) == "" then TrimLines(lines[..n]) else lines[..n] + [TrimEnd(lines[n])]
  }

  lemma {:induction false} JoinLast(lines: seq<string>)
    requires |lines| > 1
    ensures Join(lines) == Join(lines[..|lines| - 1]) + "\n" + lines[|lines| - 1]
  {
    if |lines| > 2 {
      JoinLast(lines[1..]);
      assert lines[1..][..|lines| - 2] == lines[..|lines| - 1][1..];
    }
  }

  lemma {:induction false} TrimEndBlank(a: string, b: string)
    requires TrimEnd(b) == ""
    ensures TrimEnd(a + b) == TrimEnd(a)
    decreases |b|
  {
    if b == "" {
      assert a + b == a;
    } else {
      assert (a + b)[..|a + b| - 1] == a + b[..|b| - 1];
      TrimEndBlank(a, b[..|b| - 1]);
    }
  }

  lemma {:induction false} TrimEndSolid(a: string, b: string)
    requires TrimEnd(b) != ""
    ensures TrimEnd(a + b) == a + TrimEnd(b)
    decreases |b|
  {
    if IsSpace(b[|b| - 1]) {
      assert (a + b)[..|a + b| - 1] == a + b[..|b| - 1];
      TrimEndSolid(a, b[..|b| - 1]);
    }
  }
}
