/** The scrolling log window as a terminal with one overwritable line: internal/fbui/logview.go. */
module LogWindow {
  import opened GoStrings
  import opened LogSplit

  /** All lines printed so far; `over` says the next piece writes over the last one. */
  datatype Terminal = Terminal(lines: seq<Bytes>, over: bool)

  predicate EndsInCr(s: Bytes) { s != [] && s[|s| - 1] == CR }

  function DropCr(s: Bytes): Bytes { if EndsInCr(s) then s[..|s| - 1] else s }

  /** What follows the last carriage return. */
  function AfterLastCr(s: Bytes): Bytes
    decreases |s|
  {
    if s == [] || EndsInCr(s) then [] else AfterLastCr(s[..|s| - 1]) + [s[|s| - 1]]
  }

  function Print(t: Terminal, piece: Bytes): Terminal {
    var line := AfterLastCr(DropCr(piece));
    if EndsInCr(piece) && line == [] then t
    else if t.over && t.lines != [] then Terminal(t.lines[..|t.lines| - 1] + [line], EndsInCr(piece))
    else Terminal(t.lines + [line], EndsInCr(piece))
  }

  function PrintAll(t: Terminal, pieces: seq<Bytes>): Terminal
    decreases |pieces|
  {
    if pieces == [] then t else PrintAll(Print(t, pieces[0]), pieces[1..])
  }

  lemma {:induction false} PrintOneMore(t: Terminal, pieces: seq<Bytes>, n: nat)
    requires n < |pieces|
    ensures PrintAll(t, pieces[..n + 1]) == Print(PrintAll(t, pieces[..n]), pieces[n])
    decreases n
  {
    hide Print;
    if n > 0 {
      PrintOneMore(Print(t, pieces[0]), pieces[1..], n - 1);
      assert pieces[1..][..n - 1] == pieces[..n][1..];
    }
    assert pieces[1..][..n] == pieces[..n + 1][1..];
  }

  // ----- what a terminal would show of the whole stream

  /** The line left by output that has not reached its newline: the last thing printed between carriage returns. */
  function Unfinished(s: Bytes): (r: seq<Bytes>)
    ensures |r| <= 1
    decreases |s|
  {
    if s == [] then [] else if EndsInCr(s) then Unfinished(s[..|s| - 1]) else [AfterLastCr(s)]
  }

  /** One line for every newline, holding what was written last on it, and perhaps an unfinished one. */
  function TerminalLines(s: Bytes): seq<Bytes>
    decreases |s|
  {
    var i := IndexByte(s, NL);
    if i == |s| then Unfinished(s) else [AfterLastCr(DropCr(s[..i]))] + TerminalLines(s[i + 1..])
  }

  /** The same when `held` already stands on the line that s goes on with. */
  function Continued(held: Option<Bytes>, s: Bytes): seq<Bytes> {
    if held.Some? && NL !in s && Unfinished(s) == [] then [held.value] else TerminalLines(s)
  }

  function Held(t: Terminal): Option<Bytes> {
    if t.over && t.lines != [] then Some(t.lines[|t.lines| - 1]) else None
  }

  function Above(t: Terminal): seq<Bytes> { if Held(t).Some? then t.lines[..|t.lines| - 1] else t.lines }

  lemma {:induction false} NoCrIsKept(s: Bytes)
    requires CR !in s
    ensures AfterLastCr(s) == s && (s != [] ==> Unfinished(s) == [s]) && DropCr(s) == s
  {
    if s != [] {
      NoCrIsKept(s[..|s| - 1]);
      assert s == s[..|s| - 1] + [s[|s| - 1]];
    }
  }

  lemma {:induction false} AfterCr(x: Bytes, g: Bytes)
    ensures AfterLastCr(x + [CR] + g) == AfterLastCr(g)
    decreases |g|
  {
    var s := x + [CR] + g;
    if g != [] && !EndsInCr(g) {
      assert s[..|s| - 1] == x + [CR] + g[..|g| - 1];
      AfterCr(x, g[..|g| - 1]);
    }
  }

  lemma {:induction false} UnfinishedAfterCr(x: Bytes, g: Bytes)
    requires CR !in x
    ensures Unfinished(x + [CR] + g) == if Unfinished(g) == [] then Unfinished(x) else Unfinished(g)
    decreases |g|
  {
    var s := x + [CR] + g;
    if g == [] {
      assert s[..|s| - 1] == x;
    } else if EndsInCr(g) {
      assert s[..|s| - 1] == x + [CR] + g[..|g| - 1];
      UnfinishedAfterCr(x, g[..|g| - 1]);
    } else {
      AfterCr(x, g);
    }
  }

  /** What was printed before a carriage return shows only while nothing follows it. */
  lemma CrOverwrites(x: Bytes, rest: Bytes)
    requires CR !in x && NL !in x && (rest != [] ==> rest[0] != NL)
    ensures NL in rest ==> TerminalLines(x + [CR] + rest) == TerminalLines(rest)
    ensures NL !in rest ==>
              TerminalLines(x + [CR] + rest) == if Unfinished(rest) == [] then Unfinished(x) else Unfinished(rest)
  {
    hide AfterLastCr, Unfinished, TerminalLines, IndexByte, DropCr;
    if NL in rest {
      FinishedAfterCr(x, rest);
    } else {
      var s := x + [CR] + rest;
      assert s[..|s|] == s && NL !in s;
      FirstTerminalLine(s, |s|);
      UnfinishedAfterCr(x, rest);
    }
  }

  lemma FinishedAfterCr(x: Bytes, rest: Bytes)
    requires NL !in x && NL in rest && rest[0] != NL
    ensures TerminalLines(x + [CR] + rest) == TerminalLines(rest)
  {
    hide AfterLastCr, Unfinished, TerminalLines, IndexByte, DropCr;
    var j := IndexByte(rest, NL);
    assert rest == rest[..j] + rest[j..];
    FinishedLine(x, rest[..j], rest[j + 1..]);
    assert rest == rest[..j] + ([NL] + rest[j + 1..]);
    assert x + [CR] + rest == x + [CR] + rest[..j] + ([NL] + rest[j + 1..]);
  }

  lemma FinishedLine(x: Bytes, line: Bytes, more: Bytes)
    requires NL !in x && NL !in line && line != []
    ensures TerminalLines(x + [CR] + line + ([NL] + more)) == TerminalLines(line + ([NL] + more))
  {
    hide AfterLastCr, Unfinished, TerminalLines, DropCr;
    LineOfTerminal(x + [CR] + line, more);
    LineOfTerminal(line, more);
    CrBefore(x, line);
  }

  lemma LineOfTerminal(line: Bytes, more: Bytes)
    requires NL !in line
    ensures TerminalLines(line + ([NL] + more)) == [AfterLastCr(DropCr(line))] + TerminalLines(more)
  {
    hide AfterLastCr, Unfinished, TerminalLines, DropCr;
    var s := line + ([NL] + more);
    assert s[..|line|] == line && s[|line| + 1..] == more;
    FirstTerminalLine(s, |line|);
  }

  lemma FirstTerminalLine(s: Bytes, i: nat)
    requires i <= |s| && NL !in s[..i] && (i < |s| ==> s[i] == NL)
    ensures TerminalLines(s)
            == if i == |s| then Unfinished(s) else [AfterLastCr(DropCr(s[..i]))] + TerminalLines(s[i + 1..])
  {
    hide AfterLastCr, Unfinished;
    IndexByteOf(s, NL, i);
  }

  lemma CrBefore(x: Bytes, line: Bytes)
    requires line != []
    ensures AfterLastCr(DropCr(x + [CR] + line)) == AfterLastCr(DropCr(line))
  {
    hide AfterLastCr;
    assert DropCr(x + [CR] + line) == x + [CR] + DropCr(line);
    AfterCr(x, DropCr(line));
  }

  /** Printing a line that ended in a newline, or the last line. */
  lemma PlainPiece(t: Terminal, x: Bytes)
    requires CR !in x
    ensures Print(t, x) == Terminal(Above(t) + [x], false)
  {
    hide AfterLastCr;
    NoCrIsKept(x);
  }

  lemma CrPiece(t: Terminal, x: Bytes)
    requires CR !in x
    ensures Print(t, x + [CR]) == if x == [] then t else Terminal(Above(t) + [x], true)
  {
    hide AfterLastCr;
    NoCrIsKept(x);
    assert (x + [CR])[..|x|] == x;
  }

  /** What the first token of s means for the terminal: a whole line, the rest of the stream, or one overwritable
      piece. */
  predicate TokenMeans(s: Bytes, advance: nat, token: Bytes)
    requires 0 < advance <= |s|
  {
    var rest := s[advance..];
    var x := DropCr(token);
    && CR !in x && NL !in x
    && (token == x ==>
          || (NL in s && TerminalLines(s) == [x] + TerminalLines(rest))
          || (NL !in s && rest == [] && TerminalLines(s) == [x] && Unfinished(s) == [x]))
    && (token != x ==> token == x + [CR] && s == x + [CR] + rest && (rest != [] ==> rest[0] != NL))
  }

  lemma LineToken(s: Bytes, i: nat)
    requires i < |s| && CR !in s[..i] && NL !in s[..i]
    ensures s[i] == NL ==> TokenMeans(s, i + 1, s[..i])
    ensures s[i] == CR && i + 1 < |s| && s[i + 1] == NL ==> TokenMeans(s, i + 2, s[..i])
  {
    hide AfterLastCr, Unfinished;
    NoCrIsKept(s[..i]);
    if s[i] == NL {
      IndexByteOf(s, NL, i);
    } else if i + 1 < |s| && s[i] == CR && s[i + 1] == NL {
      assert s[..i + 1] == s[..i] + [CR] && (s[..i] + [CR])[..i] == s[..i];
      IndexByteOf(s, NL, i + 1);
    }
  }

  lemma LastToken(s: Bytes)
    requires s != [] && CR !in s && NL !in s
    ensures TokenMeans(s, |s|, s)
  {
    hide AfterLastCr;
    NoCrIsKept(s);
    IndexByteOf(s, NL, |s|);
  }

  lemma CrToken(s: Bytes, i: nat)
    requires i < |s| && CR !in s[..i] && NL !in s[..i] && s[i] == CR
    requires i + 1 < |s| ==> s[i + 1] != NL
    ensures TokenMeans(s, i + 1, s[..i + 1])
  {
    hide AfterLastCr, Unfinished, TerminalLines;
    assert s[..i + 1] == s[..i] + [CR] && (s[..i] + [CR])[..i] == s[..i];
    assert s == s[..i] + [CR] + s[i + 1..];
  }

  lemma FirstToken(s: Bytes)
    requires s != []
    ensures ScanLog(s, true).Cut? && TokenMeans(s, ScanLog(s, true).advance, ScanLog(s, true).token)
  {
    hide TokenMeans, TerminalLines, Unfinished;
    var i := FirstBreak(s);
    if i == |s| {
      assert s[..i] == s;
      LastToken(s);
    } else {
      LineToken(s, i);
      if s[i] == CR && (i + 1 < |s| ==> s[i + 1] != NL) {
        CrToken(s, i);
      }
    }
  }

  lemma {:induction false} PrintedFrom(t: Terminal, s: Bytes)
    ensures PrintAll(t, Tokens(s)).lines == Above(t) + Continued(Held(t), s)
    decreases |s|
  {
    hide AfterLastCr, Unfinished, ScanLog, Print;
    if s == [] {
      NothingMore(t);
    } else {
      FirstToken(s);
      var c := ScanLog(s, true);
      var x, rest := DropCr(c.token), s[c.advance..];
      TokensStep(s);
      PrintedFrom(Print(t, c.token), rest);
      if c.token == x {
        PlainPiece(t, x);
        AfterPlain(t, s, x, rest);
      } else {
        CrPiece(t, x);
        AfterCrPiece(t, x, rest);
      }
    }
  }

  lemma TokensStep(s: Bytes)
    requires s != []
    ensures var c := ScanLog(s, true); c.Cut? && Tokens(s) == [c.token] + Tokens(s[c.advance..])
    ensures Tokens(s)[1..] == Tokens(s[ScanLog(s, true).advance..])
  {
  }

  lemma NothingMore(t: Terminal)
    ensures t.lines == Above(t) + Continued(Held(t), [])
    ensures PrintAll(t, Tokens([])) == t
  {
  }

  lemma AfterPlain(t: Terminal, s: Bytes, x: Bytes, rest: Bytes)
    requires || (NL in s && TerminalLines(s) == [x] + TerminalLines(rest))
             || (NL !in s && rest == [] && TerminalLines(s) == [x] && Unfinished(s) == [x])
    ensures var u := Terminal(Above(t) + [x], false);
            Above(u) + Continued(Held(u), rest) == Above(t) + Continued(Held(t), s)
  {
    hide AfterLastCr;
  }

  lemma AfterCrPiece(t: Terminal, x: Bytes, rest: Bytes)
    requires CR !in x && NL !in x && (rest != [] ==> rest[0] != NL)
    ensures var u := if x == [] then t else Terminal(Above(t) + [x], true);
            Above(u) + Continued(Held(u), rest) == Above(t) + Continued(Held(t), x + [CR] + rest)
  {
    hide AfterLastCr, TerminalLines, Unfinished;
    var s := x + [CR] + rest;
    CrOverwrites(x, rest);
    NoCrIsKept(x);
    NothingUnfinished();
    WithoutNewline(rest);
    UnfinishedAfterCr(x, rest);
    assert NL in s <==> NL in rest;
  }

  lemma NothingUnfinished()
    ensures Unfinished([]) == []
  {
  }

  lemma WithoutNewline(s: Bytes)
    ensures NL !in s ==> TerminalLines(s) == Unfinished(s)
  {
    if NL !in s {
      IndexByteOf(s, NL, |s|);
    }
  }

  /** Line endings and a progress line, byte by byte: 13 is the carriage return, 10 the newline. A carriage return right
      before the newline belongs to the line's end, one before other text makes that text replace the line. */
  lemma ProgressLine(x: Bytes, y: Bytes, rest: Bytes)
    requires 13 !in x && 10 !in x && 13 !in y && 10 !in y
    ensures TerminalLines(x + [13] + y + [10] + rest) == [if y == [] then x else y] + TerminalLines(rest)
    ensures TerminalLines(x + [10] + rest) == [x] + TerminalLines(rest)
  {
    hide AfterLastCr, TerminalLines, IndexByte, DropCr;
    var line := x + [13] + y;
    EndOfLine(line, rest);
    EndOfLine(x, rest);
    NoCrIsKept(x);
    LineShown(x, y);
  }

  lemma EndOfLine(line: Bytes, rest: Bytes)
    requires NL !in line
    ensures TerminalLines(line + [NL] + rest) == [AfterLastCr(DropCr(line))] + TerminalLines(rest)
  {
    hide AfterLastCr, TerminalLines, IndexByte, DropCr;
    var s := line + [NL] + rest;
    assert s[..|line|] == line && s[|line| + 1..] == rest;
    FirstTerminalLine(s, |line|);
  }

  lemma LineShown(x: Bytes, y: Bytes)
    requires CR !in x && CR !in y
    ensures AfterLastCr(DropCr(x + [CR] + y)) == if y == [] then x else y
  {
    hide AfterLastCr;
    var line := x + [CR] + y;
    NoCrIsKept(x);
    NoCrIsKept(y);
    AfterCr(x, y);
    if y == [] {
      assert line[..|line| - 1] == x;
    }
  }

  /** Printing the tokens of a stream one by one gives the lines a terminal shows for it. */
  lemma PrintedIsTerminal(s: Bytes)
    ensures PrintAll(Terminal([], false), Tokens(s)).lines == TerminalLines(s)
  {
    hide AfterLastCr, Unfinished, Tokens, TerminalLines, PrintAll;
    PrintedFrom(Terminal([], false), s);
  }

  // ----- the widget

  /** The pieces one call of Append prints. */
  function Pieces(s: Bytes): (r: seq<Bytes>)
    ensures |r| > 0
  {
    Lines(TrimNewlines(s))
  }

  lemma TokenIsOnePiece(token: Bytes)
    requires NL !in token
    ensures Pieces(token) == [token]
  {
    IndexByteOf(token, NL, |token|);
  }

  predicate TailOf(tail: seq<Bytes>, all: seq<Bytes>) {
    |tail| <= |all| && all[|all| - |tail|..] == tail && (tail == [] ==> all == [])
  }

  /** Printing on the lines that are kept is printing on all of them. */
  lemma PrintedTail(all: seq<Bytes>, tail: seq<Bytes>, over: bool, piece: Bytes)
    requires TailOf(tail, all)
    ensures var a, t := Print(Terminal(all, over), piece), Print(Terminal(tail, over), piece);
            && TailOf(t.lines, a.lines) && a.over == t.over && |t.lines| >= |tail|
            && |a.lines| - |t.lines| == |all| - |tail|
  {
    hide AfterLastCr, DropCr;
  }

  lemma PrintIs(t: Terminal, piece: Bytes)
    ensures var line := AfterLastCr(DropCr(piece));
            Print(t, piece) == if EndsInCr(piece) && line == [] then t
                               else if t.over && t.lines != []
                               then Terminal(t.lines[..|t.lines| - 1] + [line], EndsInCr(piece))
                               else Terminal(t.lines + [line], EndsInCr(piece))
  {
  }

  lemma TailFits(tail: seq<Bytes>, all: seq<Bytes>)
    requires TailOf(tail, all)
    ensures |tail| <= |all|
  {
  }

  lemma ShorterTail(tail: seq<Bytes>, all: seq<Bytes>, n: nat)
    requires TailOf(tail, all) && n < |tail|
    ensures TailOf(tail[n..], all)
  {
  }

  class LogView {
    var lines: seq<Bytes>
    const max: nat
    var scroll: int
    var follow: bool
    var rows: int
    var overwrite: bool
    /** Every line ever shown. */
    ghost var history: seq<Bytes>

    ghost function Screen(): Terminal
      reads this
    {
      Terminal(history, overwrite)
    }

    /** How many of the oldest lines are gone. */
    ghost function Dropped(): int
      reads this`lines, this`history
    {
      |history| - |lines|
    }

    ghost predicate IsTail()
      reads this`lines, this`history
    {
      TailOf(lines, history)
    }

    ghost predicate Valid()
      reads this
    {
      IsTail() && |lines| == Min(|history|, max) && max > 0 && scroll >= 0 && rows >= 0
    }

    constructor ()
      ensures Valid() && Screen() == Terminal([], false) && max == 2000 && follow
    {
      lines, max, scroll, follow, rows, overwrite, history := [], 2000, 0, true, 0, false, [];
    }

    method AppendLine(piece: Bytes)
      requires IsTail()
      modifies this`lines, this`overwrite, this`history
      ensures IsTail() && Screen() == Print(old(Screen()), piece) && Dropped() == old(Dropped())
      ensures |lines| >= old(|lines|)
    {
      hide AfterLastCr, TailOf, Print;
      PrintedTail(history, lines, overwrite, piece);
      PrintIs(Terminal(lines, overwrite), piece);
      history := Print(Terminal(history, overwrite), piece).lines;
      var cr := EndsInCr(piece);
      var line := AfterLastCr(if cr then piece[..|piece| - 1] else piece);
      if cr && line == [] {
        return;
      }
      if overwrite && |lines| > 0 {
        lines := lines[..|lines| - 1] + [line];
      } else {
        lines := lines + [line];
      }
      overwrite := cr;
    }

    /** The window holds the newest lines of everything printed, and the line at its top stays at its top for as long
        as it is kept. */
    method Append(s: Bytes)
      requires Valid()
      modifies this`lines, this`overwrite, this`history, this`scroll
      ensures Valid() && Screen() == PrintAll(old(Screen()), Pieces(s))
      ensures old(Dropped()) <= Dropped()
      ensures scroll + Dropped() == if old(scroll + Dropped()) >= Dropped() then old(scroll + Dropped()) else Dropped()
    {
      hide Print, Pieces, PrintAll, TailOf;
      var pieces := Pieces(s);
      NothingPrinted(Screen(), pieces);
      ghost var start := Screen();
      for k := 0 to |pieces|
        invariant IsTail() && Screen() == PrintAll(start, pieces[..k])
        invariant Dropped() == old(Dropped()) && |lines| >= old(|lines|) && scroll == old(scroll)
      {
        PrintOneMore(start, pieces, k);
        AppendLine(pieces[k]);
      }
      assert pieces[..|pieces|] == pieces;
      var n := |lines| - max;
      TailFits(lines, history);
      if n > 0 {
        ShorterTail(lines, history, n);
        lines := lines[n..];
        scroll := scroll - n;
        if scroll < 0 {
          scroll := 0;
        }
      }
    }

    /** The reader of the installer's output: every token is appended as it is cut. */
    method Show(chunks: seq<Bytes>)
      requires Valid()
      modifies this`lines, this`overwrite, this`history, this`scroll
      ensures Valid() && Screen() == PrintAll(old(Screen()), Tokens(Concat(chunks)))
      ensures old(Screen()) == Terminal([], false) ==>
                && history == TerminalLines(Concat(chunks))
                && lines == history[|history| - Min(|history|, max)..]
    {
      hide Print, PrintAll, Tokens, ScanChunks, Pieces, TerminalLines, Concat, Endings;
      ghost var start := Screen();
      var tokens := ScanChunks([], chunks);
      ChunksDoNotMatter([], chunks);
      assert [] + Concat(chunks) == Concat(chunks);
      TokensRebuildTheStream(Concat(chunks));
      NothingPrinted(start, tokens);
      for k := 0 to |tokens|
        invariant Valid() && Screen() == PrintAll(start, tokens[..k])
      {
        assert NL !in tokens[k] by {
          assert TokenOk(tokens[k], Endings(Concat(chunks))[k], k == |tokens| - 1);
        }
        TokenIsOnePiece(tokens[k]);
        PrintOneMore(start, tokens, k);
        PrintOne(Screen(), tokens[k]);
        Append(tokens[k]);
      }
      assert tokens[..|tokens|] == tokens;
      PrintedIsTerminal(Concat(chunks));
    }

    /** The lines on screen when there is room for `rows` of them: the last ones, unless the user scrolled up. */
    method Window(rows: int) returns (shown: seq<Bytes>)
      requires Valid()
      modifies this`scroll, this`rows
      ensures Valid()
      ensures rows <= 0 ==> shown == [] && scroll == old(scroll) && this.rows == old(this.rows)
      ensures rows > 0 ==> this.rows == rows && |shown| == Min(rows, |lines|) && scroll + |shown| <= |lines|
      ensures rows > 0 ==> shown == lines[scroll..scroll + |shown|]
      ensures rows > 0 && (follow || old(scroll) + rows > |lines|) ==> shown == lines[|lines| - |shown|..]
      ensures !follow && old(scroll) + rows <= |lines| ==> scroll == old(scroll)
    {
      hide TailOf;
      if rows <= 0 {
        return [];
      }
      this.rows := rows;
      var total := |lines|;
      if follow {
        scroll := total - rows;
      }
      if scroll > total - rows {
        scroll := total - rows;
      }
      if scroll < 0 {
        scroll := 0;
      }
      var end := Min(scroll + rows, total);
      shown := if scroll < end then lines[scroll..end] else [];
    }

    /** Turning the wheel: the view follows new lines exactly when the last line is in it. */
    method Wheel(delta: int)
      requires Valid()
      modifies this`scroll, this`follow
      ensures Valid() && (follow <==> scroll + rows >= |lines|)
      ensures scroll <= old(scroll) - delta * 3 || scroll == 0
      ensures scroll >= old(scroll) - delta * 3 || scroll + rows == |lines| || (scroll == 0 && rows >= |lines|)
    {
      scroll := scroll - delta * 3;
      var bottom := |lines| - rows;
      if bottom < 0 {
        bottom := 0;
      }
      if scroll > bottom {
        scroll := bottom;
      }
      if scroll < 0 {
        scroll := 0;
      }
      follow := scroll >= bottom;
    }
  }

  lemma NothingPrinted(t: Terminal, pieces: seq<Bytes>)
    ensures PrintAll(t, pieces[..0]) == t
  {
  }

  lemma PrintOne(t: Terminal, piece: Bytes)
    ensures PrintAll(t, [piece]) == Print(t, piece)
  {
    assert [piece][1..] == [];
  }
}
