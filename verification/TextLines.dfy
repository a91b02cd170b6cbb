/** Text as lines: `split('\n')` and its inverse. */
module TextLines {
  import opened JsonText

  predicate NoNewline(s: string) {
    forall i :: 0 <= i < |s| ==> s[i] != '\n'
  }

  /** `text.indexOf('\n')`, or the length if there is none. */
  function NewlineAt(text: string): (i: nat)
    ensures i <= |text| && NoNewline(text[..i]) && (i < |text| ==> text[i] == '\n')
  {
    if text == [] || text[0] == '\n' then 0
    else
      var i := 1 + NewlineAt(text[1..]);
      assert text[..i] == [text[0]] + text[1..][..i - 1];
      i
  }

  /** `text.split('\n')` */
  function Split(text: string): (pieces: seq<string>)
    ensures pieces != []
    decreases |text|
  {
    var i := NewlineAt(text);
    if i == |text| then [text] else [text[..i]] + Split(text[i + 1..])
  }

  /** Every line followed by a newline. */
  function Joined(lines: seq<string>): string {
    if lines == [] then [] else lines[0] + "\n" + Joined(lines[1..])
  }

  /** The lines of `body`; an empty piece behind the last newline is not one. */
  function LinesOf(body: string): seq<string> {
    var pieces := Split(body);
    if pieces[|pieces| - 1] == "" then pieces[..|pieces| - 1] else pieces
  }

  ghost predicate AreLines(lines: seq<string>) {
    forall i :: 0 <= i < |lines| ==> NoNewline(lines[i])
  }

  lemma NewlineComesAfter(line: string, rest: string)
    requires NoNewline(line)
    ensures NewlineAt(line + "\n" + rest) == |line|
  {
    var text := line + "\n" + rest;
    var i := NewlineAt(text);
    assert forall j :: 0 <= j < i ==> text[..i][j] == text[j];
    assert text[|line|] == '\n' && text[..|line|] == line;
    assert forall j :: 0 <= j < |line| ==> text[j] == line[j];
  }

  /** Splitting joined lines and a last piece gives them back. */
  lemma {:induction false} SplitInvertsJoin(lines: seq<string>, last: string)
    requires AreLines(lines) && NoNewline(last)
    ensures Split(Joined(lines) + last) == lines + [last]
  {
    if lines == [] {
      assert Joined(lines) + last == last;
    } else {
      FirstLine(lines, last);
      SplitFirst(lines[0], Joined(lines[1..]) + last);
      SplitInvertsJoin(lines[1..], last);
    }
  }

  lemma FirstLine(lines: seq<string>, last: string)
    requires lines != []
    ensures Joined(lines) + last == lines[0] + "\n" + (Joined(lines[1..]) + last)
    ensures [lines[0]] + (lines[1..] + [last]) == lines + [last]
  {
    Regroup(lines[0] + "\n", Joined(lines[1..]), last);
  }

  lemma Regroup(a: string, b: string, c: string)
    ensures (a + b) + c == a + (b + c)
  {
  }

  lemma SplitFirst(line: string, rest: string)
    requires NoNewline(line)
    ensures Split(line + "\n" + rest) == [line] + Split(rest)
  {
    var text := line + "\n" + rest;
    NewlineComesAfter(line, rest);
    assert text[..|line|] == line && text[|line| + 1..] == rest;
  }

  /** The pieces join to the text. */
  ghost predicate Pieces(text: string, pieces: seq<string>) {
    && pieces != [] && AreLines(pieces)
    && text == Joined(pieces[..|pieces| - 1]) + pieces[|pieces| - 1]
  }

  lemma OneMorePiece(line: string, rest: string, pieces: seq<string>)
    requires NoNewline(line) && Pieces(rest, pieces)
    ensures Pieces(line + "\n" + rest, [line] + pieces)
  {
    var all := [line] + pieces;
    assert all[..|all| - 1][1..] == pieces[..|pieces| - 1];
    assert all[..|all| - 1][0] == line;
  }

  /** Joining the pieces of a split gives the text back. */
  lemma {:induction false} JoinInvertsSplit(text: string)
    ensures Pieces(text, Split(text))
    decreases |text|
  {
    var i := NewlineAt(text);
    if i < |text| {
      JoinInvertsSplit(text[i + 1..]);
      OneMorePiece(text[..i], text[i + 1..], Split(text[i + 1..]));
      AroundNewline(text, i);
    } else {
      OnePiece(text, text[..i]);
    }
  }

  lemma AroundNewline(text: string, i: nat)
    requires i < |text| && text[i] == '\n'
    ensures text[..i] + "\n" + text[i + 1..] == text
  {
  }

  lemma OnePiece(text: string, piece: string)
    requires NoNewline(piece) && piece == text
    ensures Pieces(text, [text])
  {
    assert [text][..0] == [];
  }

  lemma {:induction false} JoinedSnoc(lines: seq<string>, line: string)
    ensures Joined(lines + [line]) == Joined(lines) + line + "\n"
  {
    if lines != [] {
      assert (lines + [line])[1..] == lines[1..] + [line];
      JoinedSnoc(lines[1..], line);
    }
  }

  /** `body` is these lines; the newline behind a last, nonempty line may be missing. */
  ghost predicate IsText(body: string, lines: seq<string>) {
    && AreLines(lines)
    && (|| body == Joined(lines)
        || (lines != [] && lines[|lines| - 1] != "" && body + "\n" == Joined(lines)))
  }

  /** The lines of a body are the one list that makes it up. */
  lemma LinesExactly(body: string, lines: seq<string>)
    ensures LinesOf(body) == lines <==> IsText(body, lines)
  {
    if LinesOf(body) == lines {
      LinesJoin(body);
    }
    if AreLines(lines) && body == Joined(lines) {
      SplitInvertsJoin(lines, "");
      assert Joined(lines) + "" == body;
    }
    if AreLines(lines) && lines != [] && lines[|lines| - 1] != "" && body + "\n" == Joined(lines) {
      UnterminatedLines(body, lines);
    }
  }

  lemma UnterminatedLines(body: string, lines: seq<string>)
    requires AreLines(lines) && lines != [] && lines[|lines| - 1] != "" && body + "\n" == Joined(lines)
    ensures LinesOf(body) == lines
  {
    var n := |lines| - 1;
    var before := Joined(lines[..n]) + lines[n];
    JoinedSnoc(lines[..n], lines[n]);
    assert lines == lines[..n] + [lines[n]];
    assert before + "\n" == body + "\n";
    assert (body + "\n")[..|body|] == body && (before + "\n")[..|before|] == before;
    SplitInvertsJoin(lines[..n], lines[n]);
  }

  lemma LinesJoin(body: string)
    ensures IsText(body, LinesOf(body))
  {
    var pieces := Split(body);
    var n := |pieces| - 1;
    JoinInvertsSplit(body);
    if pieces[n] == "" {
      assert body == Joined(pieces[..n]);
    } else {
      JoinedSnoc(pieces[..n], pieces[n]);
      assert pieces == pieces[..n] + [pieces[n]];
    }
  }

  /** Printed JSON stays on its line. */
  lemma PrintHasNoNewline(v: Json)
    ensures NoNewline(Print(v)) && Print(v) != ""
  {
    PrintIsOneLine(v);
    PrintStart(v);
  }
}
