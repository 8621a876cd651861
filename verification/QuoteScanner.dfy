/** The two hand-written scanners of the temp-path guardrail: `findMatchingParen` and
  * `splitTopLevelArguments`. Both drive the same quote automaton, held in a mutable state object. */
module QuoteScanner {
  import opened JsText
  import opened Separated

  datatype Quote = Quote(open: Option<char>, escaped: bool)

  const UNQUOTED := Quote(None, false)

  predicate IsQuoteChar(ch: char) {
    ch == '\'' || ch == '"' || ch == '`'
  }

  /** One character inside a quoted section. */
  function Consume(q: Quote, ch: char): Quote
    requires q.open.Some?
  {
    if q.escaped then q.(escaped := false)
    else if ch == '\\' then q.(escaped := true)
    else if q.open == Some(ch) then q.(open := None)
    else q
  }

  /** One character of either scanner, as far as quotes are concerned. */
  function QuoteStep(q: Quote, ch: char): Quote {
    if q.open.Some? then Consume(q, ch)
    else if IsQuoteChar(ch) then q.(open := Some(ch))
    else q
  }

  /** A character that stands for itself: not inside quotes and not opening any. */
  predicate Bare(q: Quote, ch: char) {
    q.open.None? && !IsQuoteChar(ch)
  }

  class QuoteScanState {
    var quote: Option<char>
    var escaped: bool

    function Snapshot(): Quote
      reads this
    {
      Quote(quote, escaped)
    }

    constructor ()
      ensures Snapshot() == UNQUOTED
    {
      quote, escaped := None, false;
    }

    method BeginQuotedSection(ch: char) returns (began: bool)
      modifies this
      ensures began == IsQuoteChar(ch)
      ensures Snapshot() == if began then old(Snapshot()).(open := Some(ch)) else old(Snapshot())
    {
      if ch != '\'' && ch != '"' && ch != '`' {
        return false;
      }
      quote := Some(ch);
      began := true;
    }

    method ConsumeQuotedChar(ch: char) returns (consumed: bool)
      modifies this
      ensures consumed == old(quote).Some?
      ensures Snapshot() == if consumed then Consume(old(Snapshot()), ch) else old(Snapshot())
    {
      if quote.None? {
        return false;
      }
      if escaped {
        escaped := false;
        return true;
      }
      if ch == '\\' {
        escaped := true;
        return true;
      }
      if quote == Some(ch) {
        quote := None;
      }
      consumed := true;
    }
  }

  // ----- reference definitions: quotes and balance of a text -----

  function QuoteAfter(q: Quote, t: string): Quote
    decreases |t|
  {
    if t == "" then q else QuoteAfter(QuoteStep(q, t[0]), t[1..])
  }

  /** Bare opening parentheses minus bare closing ones. */
  function Balance(q: Quote, t: string): int
    decreases |t|
  {
    if t == "" then 0
    else
      (if Bare(q, t[0]) && t[0] == '(' then 1 else if Bare(q, t[0]) && t[0] == ')' then -1 else 0)
      + Balance(QuoteStep(q, t[0]), t[1..])
  }

  lemma {:induction false} QuoteAfterAppend(q: Quote, a: string, b: string)
    ensures QuoteAfter(q, a + b) == QuoteAfter(QuoteAfter(q, a), b)
    ensures Balance(q, a + b) == Balance(q, a) + Balance(QuoteAfter(q, a), b)
    decreases |a|
  {
    if a == "" {
      assert a + b == b;
    } else {
      assert (a + b)[1..] == a[1..] + b;
      QuoteAfterAppend(QuoteStep(q, a[0]), a[1..], b);
    }
  }

  // ----- findMatchingParen -----

  /** The finder's quote state and depth before it looks at position `i`. */
  function QuoteAt(source: string, openIndex: nat, i: nat): Quote
    requires openIndex < i <= |source|
  {
    QuoteAfter(UNQUOTED, source[openIndex + 1..i])
  }

  function DepthAt(source: string, openIndex: nat, i: nat): int
    requires openIndex < i <= |source|
  {
    1 + Balance(UNQUOTED, source[openIndex + 1..i])
  }

  lemma NextPosition(source: string, openIndex: nat, i: nat)
    requires openIndex < i < |source|
    ensures source[openIndex + 1..i + 1] == source[openIndex + 1..i] + [source[i]]
    ensures var q := QuoteAt(source, openIndex, i);
      && QuoteAt(source, openIndex, i + 1) == QuoteStep(q, source[i])
      && DepthAt(source, openIndex, i + 1) == DepthAt(source, openIndex, i) +
           (if !Bare(q, source[i]) then 0 else if source[i] == '(' then 1 else if source[i] == ')' then -1 else 0)
  {
    var t, ch := source[openIndex + 1..i], source[i];
    assert source[openIndex + 1..i + 1] == t + [ch];
    QuoteAfterAppend(UNQUOTED, t, [ch]);
    assert [ch][1..] == "";
  }

  /** The result is the least later index where the unquoted parentheses balance; -1 means there is none. */
  method FindMatchingParen(source: string, openIndex: nat) returns (index: int)
    requires openIndex < |source|
    ensures index == -1 || openIndex < index < |source|
    ensures index != -1 ==> DepthAt(source, openIndex, index + 1) == 0
    ensures forall i | openIndex < i <= (if index == -1 then |source| else index) :: DepthAt(source, openIndex, i) >= 1
  {
    var depth := 1;
    var quoteState := new QuoteScanState();
    var i := openIndex + 1;
    while i < |source|
      invariant openIndex < i <= |source|
      invariant quoteState.Snapshot() == QuoteAt(source, openIndex, i)
      invariant depth == DepthAt(source, openIndex, i)
      invariant forall j | openIndex < j <= i :: DepthAt(source, openIndex, j) >= 1
    {
      var ch := source[i];
      NextPosition(source, openIndex, i);
      i := i + 1;
      var consumed := quoteState.ConsumeQuotedChar(ch);
      if consumed {
        continue;
      }
      var began := quoteState.BeginQuotedSection(ch);
      if began {
        continue;
      }
      if ch == '(' {
        depth := depth + 1;
        continue;
      }
      if ch == ')' {
        depth := depth - 1;
        if depth == 0 {
          return i - 1;
        }
      }
    }
    index := -1;
  }

  // ----- splitTopLevelArguments -----

  /** `current` is kept untrimmed; `pieces` are the untrimmed texts between top-level commas. */
  datatype Scan = Scan(pieces: seq<string>, current: string, paren: nat, bracket: nat, brace: nat, quote: Quote)

  const FRESH := Scan([], "", 0, 0, 0, UNQUOTED)

  function Down(n: nat): nat {
    if n > 0 then n - 1 else 0
  }

  function ScanStep(s: Scan, ch: char): Scan {
    if !Bare(s.quote, ch) then s.(current := s.current + [ch], quote := QuoteStep(s.quote, ch))
    else if ch == ',' && s.paren == 0 && s.bracket == 0 && s.brace == 0 then
      s.(pieces := s.pieces + [s.current], current := "")
    else
      s.(current := s.current + [ch],
         paren := if ch == '(' then s.paren + 1 else if ch == ')' then Down(s.paren) else s.paren,
         bracket := if ch == '[' then s.bracket + 1 else if ch == ']' then Down(s.bracket) else s.bracket,
         brace := if ch == '{' then s.brace + 1 else if ch == '}' then Down(s.brace) else s.brace)
  }

  function ScanAll(s: Scan, t: string): Scan
    decreases |t|
  {
    if t == "" then s else ScanAll(ScanStep(s, t[0]), t[1..])
  }

  function TrimAll(pieces: seq<string>): seq<string> {
    seq(|pieces|, i requires 0 <= i < |pieces| => Trim(pieces[i]))
  }

  function Result(s: Scan): seq<string> {
    TrimAll(s.pieces) + if Trim(s.current) != "" then [Trim(s.current)] else []
  }

  method SplitTopLevelArguments(source: string) returns (out: seq<string>)
    ensures out == Result(ScanAll(FRESH, source))
  {
    out := [];
    var current := "";
    var parenDepth, bracketDepth, braceDepth := 0, 0, 0;
    var quoteState := new QuoteScanState();
    ghost var pieces: seq<string> := [];
    assert source[0..] == source;
    for i := 0 to |source|
      invariant out == TrimAll(pieces) && parenDepth >= 0 && bracketDepth >= 0 && braceDepth >= 0
      invariant ScanAll(Scan(pieces, current, parenDepth, bracketDepth, braceDepth, quoteState.Snapshot()), source[i..])
             == ScanAll(FRESH, source)
    {
      var ch := source[i];
      assert source[i..][0] == ch && source[i..][1..] == source[i + 1..];
      if quoteState.quote.Some? {
        current := current + [ch];
        var _ := quoteState.ConsumeQuotedChar(ch);
        continue;
      }
      var began := quoteState.BeginQuotedSection(ch);
      if began {
        current := current + [ch];
        continue;
      }
      if ch == '(' {
        parenDepth := parenDepth + 1;
      } else if ch == ')' {
        if parenDepth > 0 {
          parenDepth := parenDepth - 1;
        }
      } else if ch == '[' {
        bracketDepth := bracketDepth + 1;
      } else if ch == ']' {
        if bracketDepth > 0 {
          bracketDepth := bracketDepth - 1;
        }
      } else if ch == '{' {
        braceDepth := braceDepth + 1;
      } else if ch == '}' {
        if braceDepth > 0 {
          braceDepth := braceDepth - 1;
        }
      } else if ch == ',' && parenDepth == 0 && bracketDepth == 0 && braceDepth == 0 {
        out := out + [Trim(current)];
        pieces := pieces + [current];
        current := "";
        continue;
      }
      current := current + [ch];
    }
    if Trim(current) != "" {
      out := out + [Trim(current)];
    }
  }

  lemma {:induction false} ScanAllAppend(s: Scan, a: string, b: string)
    ensures ScanAll(s, a + b) == ScanAll(ScanAll(s, a), b)
    decreases |a|
  {
    if a == "" {
      assert a + b == b;
    } else {
      assert (a + b)[1..] == a[1..] + b;
      ScanAllAppend(ScanStep(s, a[0]), a[1..], b);
    }
  }

  /** The splitter's quote state is the shared automaton's. */
  lemma {:induction false} ScanQuote(s: Scan, t: string)
    ensures ScanAll(s, t).quote == QuoteAfter(s.quote, t)
    decreases |t|
  {
    if t != "" {
      ScanQuote(ScanStep(s, t[0]), t[1..]);
    }
  }

  // ----- the splitter follows the finder -----

  /** On the text between a parenthesis and its match, at every position: the quote states agree, the
    * splitter's depth is the finder's depth minus one, and a bare ")" always meets a positive depth. */
  lemma {:induction false} SplitterFollowsFinder(source: string, openIndex: nat, close: nat, i: nat)
    requires openIndex < i <= close < |source|
    requires forall j | openIndex < j <= close :: DepthAt(source, openIndex, j) >= 1
    ensures var s := ScanAll(FRESH, source[openIndex + 1..i]);
      && s.quote == QuoteAt(source, openIndex, i)
      && s.paren == DepthAt(source, openIndex, i) - 1
      && (i < close && Bare(s.quote, source[i]) && source[i] == ')' ==> s.paren > 0)
  {
    ScanQuote(FRESH, source[openIndex + 1..i]);
    if i < close {
      NextPosition(source, openIndex, i);
      assert DepthAt(source, openIndex, i + 1) >= 1;
    }
    if i == openIndex + 1 {
      assert source[openIndex + 1..i] == "";
    } else {
      SplitterFollowsFinder(source, openIndex, close, i - 1);
      NextPosition(source, openIndex, i - 1);
      ScanOneMore(source[openIndex + 1..i - 1], source[i - 1]);
    }
  }

  lemma ScanOneMore(t: string, ch: char)
    ensures ScanAll(FRESH, t + [ch]) == ScanStep(ScanAll(FRESH, t), ch)
  {
    ScanAllAppend(FRESH, t, [ch]);
    assert [ch][1..] == "";
  }

  // ----- splitting undoes joining -----

  ghost function Consumed(s: Scan): string {
    JoinWith(s.pieces + [s.current], ',')
  }

  lemma StepConsumes(s: Scan, ch: char)
    ensures Consumed(ScanStep(s, ch)) == Consumed(s) + [ch]
  {
    var s' := ScanStep(s, ch);
    if s'.pieces == s.pieces {
      if s.pieces != [] {
        JoinSnoc(s.pieces, s.current, ',');
        JoinSnoc(s.pieces, s'.current, ',');
      }
    } else {
      JoinSnoc(s'.pieces, "", ',');
      assert s'.pieces == s.pieces + [s.current];
    }
  }

  lemma {:induction false} ScanConsumes(s: Scan, t: string)
    ensures Consumed(ScanAll(s, t)) == Consumed(s) + t
    decreases |t|
  {
    if t != "" {
      StepConsumes(s, t[0]);
      ScanConsumes(ScanStep(s, t[0]), t[1..]);
      assert Consumed(s) + [t[0]] + t[1..] == Consumed(s) + t;
    } else {
      assert Consumed(s) + t == Consumed(s);
    }
  }

  /** Nothing is lost on any input: the untrimmed pieces, rejoined with commas, are the input; the result is
    * the trimmed pieces, the last one dropped when it is blank. */
  lemma PiecesRejoin(source: string)
    ensures var s := ScanAll(FRESH, source);
      && JoinWith(s.pieces + [s.current], ',') == source
      && Result(s) == TrimAll(s.pieces) + (if IsBlank(s.current) then [] else [Trim(s.current)])
  {
    ScanConsumes(FRESH, source);
    TrimBlank(ScanAll(FRESH, source).current);
    assert "" + source == source;
  }

  /** Scanning an argument from the start ends outside quotes and brackets and meets no top-level comma. */
  predicate Closed(arg: string) {
    var s := ScanAll(FRESH, arg);
    s.pieces == [] && s.paren == 0 && s.bracket == 0 && s.brace == 0 && s.quote.open.None?
  }

  lemma {:induction false} NeverEscapedOutside(s: Scan, t: string)
    requires s.quote.open.None? ==> !s.quote.escaped
    ensures ScanAll(s, t).quote.open.None? ==> !ScanAll(s, t).quote.escaped
    decreases |t|
  {
    if t != "" {
      NeverEscapedOutside(ScanStep(s, t[0]), t[1..]);
    }
  }

  /** Earlier pieces do not influence the scan. */
  lemma {:induction false} EarlierPieces(before: seq<string>, s: Scan, t: string)
    ensures ScanAll(s.(pieces := before + s.pieces), t)
         == ScanAll(s, t).(pieces := before + ScanAll(s, t).pieces)
    decreases |t|
  {
    if t != "" {
      var s1 := s.(pieces := before + s.pieces);
      assert before + (s.pieces + [s.current]) == before + s.pieces + [s.current];
      assert ScanStep(s1, t[0]) == ScanStep(s, t[0]).(pieces := before + ScanStep(s, t[0]).pieces);
      EarlierPieces(before, ScanStep(s, t[0]), t[1..]);
    }
  }

  lemma ScanArgument(before: seq<string>, arg: string)
    requires Closed(arg)
    ensures ScanAll(FRESH.(pieces := before), arg) == Scan(before, arg, 0, 0, 0, UNQUOTED)
  {
    EarlierPieces(before, FRESH, arg);
    assert before + [] == before;
    NeverEscapedOutside(FRESH, arg);
    ScanConsumes(FRESH, arg);
    assert "" + arg == arg;
  }

  /** Closed arguments become pieces, and whatever follows them is scanned afresh. */
  lemma {:induction false} ScanArguments(before: seq<string>, front: seq<string>, last: string)
    requires forall a | a in front :: Closed(a)
    ensures ScanAll(FRESH.(pieces := before), JoinWith(front + [last], ','))
         == ScanAll(FRESH, last).(pieces := before + front + ScanAll(FRESH, last).pieces)
    decreases |front|
  {
    hide Closed, ScanAll, ScanStep;
    if front == [] {
      assert front + [last] == [last] && before + front == before && before + [] == before;
      EarlierPieces(before, FRESH, last);
    } else {
      var first, rest := front[0], JoinWith(front[1..] + [last], ',');
      assert first in front && forall a | a in front[1..] :: a in front;
      assert front + [last] == [first] + (front[1..] + [last]);
      JoinWithCons(first, front[1..] + [last], ',');
      ScanFirst(before, first, rest);
      ScanArguments(before + [first], front[1..], last);
      assert before + [first] + front[1..] == before + front;
    }
  }

  lemma ScanFirst(before: seq<string>, first: string, rest: string)
    requires Closed(first)
    ensures ScanAll(FRESH.(pieces := before), first + [','] + rest) == ScanAll(FRESH.(pieces := before + [first]), rest)
  {
    ScanArgument(before, first);
    assert first + [','] + rest == first + ([','] + rest);
    ScanAllAppend(FRESH.(pieces := before), first, [','] + rest);
    assert ([','] + rest)[1..] == rest;
    assert ScanStep(Scan(before, first, 0, 0, 0, UNQUOTED), ',') == FRESH.(pieces := before + [first]);
  }

  /** What the first piece is so far. */
  function Beginning(s: Scan): string {
    if s.pieces == [] then s.current else s.pieces[0]
  }

  /** A finished first piece stays, an unfinished one only grows. */
  lemma {:induction false} FirstPieceGrows(s: Scan, t: string)
    ensures Beginning(s) <= Beginning(ScanAll(s, t))
    ensures s.pieces != [] ==> ScanAll(s, t).pieces != [] && Beginning(ScanAll(s, t)) == Beginning(s)
    decreases |t|
  {
    if t != "" {
      FirstPieceGrows(ScanStep(s, t[0]), t[1..]);
    }
  }

  /** If the first piece of a joined text is the first argument, that argument is closed. */
  lemma FirstPieceIsClosed(first: string, rest: string)
    requires var s := ScanAll(FRESH, first + [','] + rest); s.pieces != [] && s.pieces[0] == first
    ensures Closed(first)
  {
    hide ScanAll;
    var s, tail := ScanAll(FRESH, first), [','] + rest;
    assert first + [','] + rest == first + tail;
    ScanAllAppend(FRESH, first, tail);
    ScanConsumes(FRESH, first);
    assert "" + first == first;
    FirstPieceGrows(s, tail);
    ConsumedIsLonger(s);
    assert s.pieces == [];
    OnlyPiece(s, first);
    var s' := ScanStep(s, ',');
    ScanOnce(s, tail);
    assert tail[1..] == rest;
    FirstPieceGrows(s', rest);
    assert s'.pieces == [] ==> Beginning(s') == first + [','];
  }

  lemma ConsumedIsLonger(s: Scan)
    ensures s.pieces != [] ==> |Consumed(s)| > |s.pieces[0]|
  {
  }

  lemma ScanOnce(s: Scan, t: string)
    requires t != ""
    ensures ScanAll(s, t) == ScanAll(ScanStep(s, t[0]), t[1..])
  {
  }

  /** Scanning gives the arguments as pieces only if all but the last are closed. */
  lemma {:induction false} PiecesAreClosed(front: seq<string>, last: string)
    requires ScanAll(FRESH, JoinWith(front + [last], ',')).pieces == front
    ensures (forall a | a in front :: Closed(a)) && ScanAll(FRESH, last).pieces == []
    decreases |front|
  {
    hide ScanAll, Closed;
    if front == [] {
      assert front + [last] == [last];
    } else {
      var first, rest := front[0], JoinWith(front[1..] + [last], ',');
      assert front + [last] == [first] + (front[1..] + [last]) && front == [first] + front[1..];
      JoinWithCons(first, front[1..] + [last], ',');
      FirstPieceIsClosed(first, rest);
      ScanFirst([], first, rest);
      assert FRESH.(pieces := []) == FRESH && [] + [first] == [first] == [first] + [];
      EarlierPieces([first], FRESH, rest);
      CancelFirst(first, ScanAll(FRESH, rest).pieces, front[1..]);
      PiecesAreClosed(front[1..], last);
    }
  }

  lemma CancelFirst(first: string, a: seq<string>, b: seq<string>)
    requires [first] + a == [first] + b
    ensures a == b
  {
    assert a == ([first] + a)[1..] && b == ([first] + b)[1..];
  }

  lemma {:induction false} TrimShortens(pieces: seq<string>)
    ensures Total(TrimAll(pieces)) <= Total(pieces)
    ensures Total(TrimAll(pieces)) == Total(pieces) ==> TrimAll(pieces) == pieces
  {
    hide Trim;
    if pieces != [] {
      TrimLength(pieces[0]);
      TrimShortens(pieces[1..]);
      assert TrimAll(pieces)[1..] == TrimAll(pieces[1..]);
      assert pieces == [pieces[0]] + pieces[1..] && TrimAll(pieces) == [Trim(pieces[0])] + TrimAll(pieces[1..]);
    }
  }

  lemma TrimLength(s: string)
    ensures |Trim(s)| <= |s| && (|Trim(s)| == |s| ==> Trim(s) == s)
  {
    TrimStartSuffix(s);
  }

  /** If splitting gives the arguments back, the pieces were the arguments, untrimmed. */
  lemma PiecesAreArguments(args: seq<string>, s: Scan)
    requires args != [] && JoinWith(s.pieces + [s.current], ',') == JoinWith(args, ',') && Result(s) == args
    ensures Trim(s.current) != "" && s.pieces + [s.current] == args && TrimAll(args) == args
  {
    hide Trim, JoinWith;
    var all := s.pieces + [s.current];
    JoinLength(all, ',');
    JoinLength(args, ',');
    TotalSnoc(s.pieces, s.current);
    TrimShortens(s.pieces);
    TrimShortens(all);
    assert Trim(s.current) == "" ==> TrimAll(s.pieces) == args;
    assert TrimAll(all) == args;
  }

  /** All arguments but the last are closed, though they may be empty; the last is not empty, and a scan meets no
    * top-level comma in it, though it may leave quotes or brackets open. */
  ghost predicate Separable(args: seq<string>) {
    args == [] ||
    var last := args[|args| - 1];
    && (forall a | a in args :: Trimmed(a)) && (forall a | a in args[..|args| - 1] :: Closed(a))
    && last != "" && ScanAll(FRESH, last).pieces == []
  }

  /** Splitting the comma-joined text gives the arguments back for exactly these lists. */
  lemma SplitUndoesJoinIff(args: seq<string>)
    ensures Result(ScanAll(FRESH, JoinWith(args, ','))) == args <==> Separable(args)
  {
    if args == [] {
      assert Trim("") == "";
    } else {
      if Separable(args) {
        SeparableComesBack(args);
      }
      if Result(ScanAll(FRESH, JoinWith(args, ','))) == args {
        OnlySeparableComesBack(args);
      }
    }
  }

  lemma SeparableComesBack(args: seq<string>)
    requires args != [] && Separable(args)
    ensures Result(ScanAll(FRESH, JoinWith(args, ','))) == args
  {
    hide ScanAll, JoinWith, Closed, Trim, Trimmed;
    var front, last := args[..|args| - 1], args[|args| - 1];
    assert args == front + [last] && [] + front + [] == front && FRESH.(pieces := []) == FRESH;
    ScanArguments([], front, last);
    ScanConsumes(FRESH, last);
    OnlyPiece(ScanAll(FRESH, last), last);
    TrimsNothing(args);
    assert Trim(args[|args| - 1]) == TrimAll(args)[|args| - 1];
    assert TrimAll(front) == front;
  }

  lemma OnlyPiece(s: Scan, text: string)
    requires s.pieces == [] && Consumed(s) == Consumed(FRESH) + text
    ensures s.current == text
  {
    assert s.pieces + [s.current] == [s.current];
  }

  lemma OnlySeparableComesBack(args: seq<string>)
    requires args != [] && Result(ScanAll(FRESH, JoinWith(args, ','))) == args
    ensures Separable(args)
  {
    hide ScanAll, JoinWith, Closed, Trim, Trimmed, Result;
    var s := ScanAll(FRESH, JoinWith(args, ','));
    PiecesRejoin(JoinWith(args, ','));
    PiecesAreArguments(args, s);
    assert s.pieces == args[..|args| - 1] && s.current == args[|args| - 1];
    PiecesAreClosed(s.pieces, s.current);
    TrimsNothing(args);
    TrimBlank("");
  }

  lemma TrimsNothing(args: seq<string>)
    ensures TrimAll(args) == args <==> forall a | a in args :: Trimmed(a)
  {
    hide Trim, Trimmed;
    forall i | 0 <= i < |args| ensures TrimAll(args)[i] == args[i] <==> Trimmed(args[i]) {
      TrimFixesTrimmed(args[i]);
    }
  }
}
