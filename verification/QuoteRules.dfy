/** What the two scanners take for quoted, for nested and for a top-level comma, on the text itself. */
module QuoteRules {
  import opened JsText
  import opened QuoteScanner

  // ----- quotes -----

  const MARKS := {'\'', '"', '`'}

  /** How many backslashes a text ends in. */
  ghost function Slashes(t: string): nat {
    if t == "" || t[|t| - 1] != '\\' then 0 else 1 + Slashes(t[..|t| - 1])
  }

  /** Every mark in the body is escaped: an odd number of backslashes stands before it. */
  ghost predicate KeepsOpen(mark: char, body: string) {
    forall i | 0 <= i < |body| && body[i] == mark :: Slashes(body[..i]) % 2 == 1
  }

  lemma QuoteOneMore(q: Quote, t: string, ch: char)
    ensures QuoteAfter(q, t + [ch]) == QuoteStep(QuoteAfter(q, t), ch)
  {
    QuoteAfterAppend(q, t, [ch]);
    assert [ch][1..] == "";
  }

  lemma {:induction false} InsideQuotes(mark: char, body: string)
    requires mark in MARKS && KeepsOpen(mark, body)
    ensures QuoteAfter(Quote(Some(mark), false), body) == Quote(Some(mark), Slashes(body) % 2 == 1)
  {
    if body != "" {
      var front, ch := body[..|body| - 1], body[|body| - 1];
      forall i | 0 <= i < |front| && front[i] == mark ensures Slashes(front[..i]) % 2 == 1 {
        assert front[..i] == body[..i] && body[i] == mark;
      }
      InsideQuotes(mark, front);
      QuoteOneMore(Quote(Some(mark), false), front, ch);
      assert body == front + [ch];
    }
  }

  /** A text is a row of plain pieces and quoted ones, which end at the first mark that is not escaped. */
  datatype Piece = Plain(ch: char) | Quoted(mark: char, body: string)

  ghost predicate IsPiece(p: Piece) {
    match p
    case Plain(ch) => ch !in MARKS
    case Quoted(mark, body) => mark in MARKS && KeepsOpen(mark, body) && Slashes(body) % 2 == 0
  }

  ghost function Written(p: Piece): string {
    match p
    case Plain(ch) => [ch]
    case Quoted(mark, body) => [mark] + body + [mark]
  }

  ghost function AllWritten(pieces: seq<Piece>): string {
    if pieces == [] then "" else Written(pieces[0]) + AllWritten(pieces[1..])
  }

  lemma PieceClosed(p: Piece)
    requires IsPiece(p)
    ensures QuoteAfter(UNQUOTED, Written(p)) == UNQUOTED
  {
    match p
    case Plain(ch) => assert [ch][1..] == "";
    case Quoted(mark, body) =>
      InsideQuotes(mark, body);
      var rest := body + [mark];
      assert Written(p) == [mark] + rest && ([mark] + rest)[1..] == rest;
      QuoteOneMore(Quote(Some(mark), false), body, mark);
  }

  lemma {:induction false} PiecesClosed(pieces: seq<Piece>)
    requires forall p | p in pieces :: IsPiece(p)
    ensures QuoteAfter(UNQUOTED, AllWritten(pieces)) == UNQUOTED
  {
    if pieces != [] {
      assert pieces[0] in pieces && forall p | p in pieces[1..] :: p in pieces;
      PieceClosed(pieces[0]);
      PiecesClosed(pieces[1..]);
      QuoteAfterAppend(UNQUOTED, Written(pieces[0]), AllWritten(pieces[1..]));
    }
  }

  /** A way to read a text: complete pieces, and the beginning of one more if a quote is still open. */
  ghost predicate Reads(t: string, pieces: seq<Piece>, rest: string) {
    && t == AllWritten(pieces) + rest && (forall p | p in pieces :: IsPiece(p))
    && (rest != "" ==> rest[0] in MARKS && KeepsOpen(rest[0], rest[1..]))
  }

  lemma {:induction false} AllWrittenSnoc(pieces: seq<Piece>, p: Piece)
    ensures AllWritten(pieces + [p]) == AllWritten(pieces) + Written(p)
  {
    if pieces == [] {
      assert [p][1..] == [] && AllWritten([p]) == Written(p) + "";
    } else {
      assert (pieces + [p])[1..] == pieces[1..] + [p];
      AllWrittenSnoc(pieces[1..], p);
      assert Written(pieces[0]) + (AllWritten(pieces[1..]) + Written(p)) == AllWritten(pieces) + Written(p);
    }
  }

  /** Every text can be read so. */
  lemma {:induction false} Readable(t: string) returns (pieces: seq<Piece>, rest: string)
    ensures Reads(t, pieces, rest)
  {
    pieces, rest := [], "";
    if t != "" {
      var front, ch := t[..|t| - 1], t[|t| - 1];
      assert t == front + [ch];
      var before, open := Readable(front);
      if open == "" && ch !in MARKS {
        pieces := before + [Plain(ch)];
        AllWrittenSnoc(before, Plain(ch));
      } else if open == "" {
        pieces, rest := before, [ch];
        assert rest[1..] == "";
      } else if ch == open[0] && Slashes(open[1..]) % 2 == 0 {
        pieces := before + [Quoted(ch, open[1..])];
        AllWrittenSnoc(before, Quoted(ch, open[1..]));
        assert open == [ch] + open[1..];
        assert AllWritten(before) + open + [ch] == AllWritten(before) + ([ch] + open[1..] + [ch]);
      } else {
        pieces, rest := before, open + [ch];
        assert rest[1..] == open[1..] + [ch];
        forall i | 0 <= i < |rest[1..]| && rest[1..][i] == rest[0] ensures Slashes(rest[1..][..i]) % 2 == 1 {
          assert rest[1..][..i] == if i < |open[1..]| then open[1..][..i] else open[1..];
          assert i < |open[1..]| ==> open[1..][i] == open[0];
        }
        assert AllWritten(before) + open + [ch] == AllWritten(before) + (open + [ch]);
      }
    }
  }

  /** The quote state of both scanners after any text: open exactly if the reading leaves a quote open, with the mark
    * that opened it. */
  lemma QuoteIs(t: string, pieces: seq<Piece>, rest: string)
    requires Reads(t, pieces, rest)
    ensures QuoteAfter(UNQUOTED, t) ==
      if rest == "" then UNQUOTED else Quote(Some(rest[0]), Slashes(rest[1..]) % 2 == 1)
  {
    PiecesClosed(pieces);
    QuoteAfterAppend(UNQUOTED, AllWritten(pieces), rest);
    if rest != "" {
      InsideQuotes(rest[0], rest[1..]);
    }
  }

  // ----- depths -----

  /** The position stands for itself: no quote is open, and it does not open one. */
  ghost predicate Outside(t: string, i: nat)
    requires i < |t|
  {
    t[i] !in MARKS && exists pieces :: Reads(t[..i], pieces, "")
  }

  lemma OutsideIsBare(t: string, i: nat)
    requires i < |t|
    ensures Outside(t, i) <==> Bare(QuoteAfter(UNQUOTED, t[..i]), t[i])
  {
    var pieces, rest := Readable(t[..i]);
    QuoteIs(t[..i], pieces, rest);
    if other :| Reads(t[..i], other, "") {
      QuoteIs(t[..i], other, "");
    }
  }

  /** How often a character stands for itself. */
  ghost function Count(ch: char, t: string): nat {
    if t == "" then 0
    else Count(ch, t[..|t| - 1]) + if t[|t| - 1] == ch && Outside(t, |t| - 1) then 1 else 0
  }

  /** The finder's depth: parentheses that stand for themselves, counted from the opening one. */
  lemma {:induction false} DepthIs(source: string, openIndex: nat, i: nat)
    requires openIndex < i <= |source|
    ensures var t := source[openIndex + 1..i]; DepthAt(source, openIndex, i) == 1 + Count('(', t) - Count(')', t)
    decreases i
  {
    hide Outside, Bare, QuoteAfter;
    var t := source[openIndex + 1..i];
    if t != "" {
      DepthIs(source, openIndex, i - 1);
      NextPosition(source, openIndex, i - 1);
      assert t[..|t| - 1] == source[openIndex + 1..i - 1] && t[|t| - 1] == source[i - 1];
      OutsideIsBare(t, |t| - 1);
    } else {
      assert Balance(UNQUOTED, "") == 0;
    }
  }

  /** How many brackets of one kind are open after a text; one that closes nothing is passed over. */
  ghost function Level(open: char, close: char, t: string): nat {
    if t == "" then 0
    else
      var before := Level(open, close, t[..|t| - 1]);
      if !Outside(t, |t| - 1) then before
      else if t[|t| - 1] == open then before + 1
      else if t[|t| - 1] == close && before > 0 then before - 1
      else before
  }

  ghost predicate TopLevelComma(t: string, i: nat)
    requires i < |t|
  {
    t[i] == ',' && Outside(t, i)
    && Level('(', ')', t[..i]) == 0 && Level('[', ']', t[..i]) == 0 && Level('{', '}', t[..i]) == 0
  }

  lemma ScanStepped(t: string)
    requires t != ""
    ensures ScanAll(FRESH, t) == ScanStep(ScanAll(FRESH, t[..|t| - 1]), t[|t| - 1])
  {
    ScanOneMore(t[..|t| - 1], t[|t| - 1]);
    assert t == t[..|t| - 1] + [t[|t| - 1]];
  }

  /** The splitter's depths are the levels of the text so far. */
  lemma {:induction false} DepthsAre(t: string)
    ensures var s := ScanAll(FRESH, t);
      s.paren == Level('(', ')', t) && s.bracket == Level('[', ']', t) && s.brace == Level('{', '}', t)
  {
    hide ScanAll, Outside, Bare, QuoteAfter;
    if t == "" {
      FreshScan();
    } else {
      DepthsAre(t[..|t| - 1]);
      ScanStepped(t);
      ScanQuote(FRESH, t[..|t| - 1]);
      OutsideIsBare(t, |t| - 1);
      LevelStep('(', ')', t);
      LevelStep('[', ']', t);
      LevelStep('{', '}', t);
    }
  }

  lemma FreshScan()
    ensures ScanAll(FRESH, "") == FRESH
  {
  }

  lemma LevelStep(open: char, close: char, t: string)
    requires t != "" && open != close
    ensures var before := Level(open, close, t[..|t| - 1]);
      Level(open, close, t) ==
        if !Outside(t, |t| - 1) then before
        else if t[|t| - 1] == open then before + 1
        else if t[|t| - 1] == close then Down(before)
        else before
  {
    hide Outside;
  }

  /** A piece ends exactly at a top-level comma, and holds what stands since the last one. */
  lemma CutsAre(t: string, i: nat)
    requires i < |t|
    ensures var s, s' := ScanAll(FRESH, t[..i]), ScanAll(FRESH, t[..i + 1]);
      && (s'.pieces, s'.current) ==
           if TopLevelComma(t, i) then (s.pieces + [s.current], "") else (s.pieces, s.current + [t[i]])
  {
    hide ScanAll, Outside, Bare, QuoteAfter, Level;
    assert t[..i + 1][..i] == t[..i];
    ScanStepped(t[..i + 1]);
    ScanQuote(FRESH, t[..i]);
    OutsideIsBare(t, i);
    DepthsAre(t[..i]);
    CommaIsBare(t, i);
  }

  lemma CommaIsBare(t: string, i: nat)
    requires i < |t|
    ensures t[i] == ',' ==> (Bare(QuoteAfter(UNQUOTED, t[..i]), t[i]) <==> QuoteAfter(UNQUOTED, t[..i]).open.None?)
  {
  }
}
