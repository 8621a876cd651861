/** Rewriting the lines between two markers (`replaceBlockLines`), by index searches in the text.
  *
  * The partner is the same operation on a list of lines; what it keeps and when a second use changes nothing
  * is proved there and carried back. */
module MarkerBlock {
  import opened JsText
  import opened Lists
  import opened Separated

  datatype Error = MissingStart | MissingEnd

  datatype Result<+T> = Ok(value: T) | Err(error: Error)

  // ----- the text operations of the source -----

  function IndexOf(text: string, needle: string, from: nat): (i: int)
    ensures i == -1 || from <= i <= |text| - |needle|
    decreases |text| - from
  {
    if from + |needle| > |text| then -1
    else if text[from..from + |needle|] == needle then from
    else IndexOf(text, needle, from + 1)
  }

  /** The last line feed at or before an index. */
  function LastNewline(text: string, from: int): (i: int)
    requires from < |text|
    ensures -1 <= i
  {
    if from < 0 then -1 else if text[from] == '\n' then from else LastNewline(text, from - 1)
  }

  function Join(lines: seq<string>): string {
    JoinWith(lines, '\n')
  }

  function Indented(indent: string, lines: seq<string>): seq<string> {
    seq(|lines|, i requires 0 <= i < |lines| => indent + lines[i])
  }

  function Block(indent: string, start: string, end: string, lines: seq<string>): (block: seq<string>)
    ensures |block| == |lines| + 2
  {
    [indent + start] + Indented(indent, lines) + [indent + end]
  }

  /** Markers are not empty and lie within one line. */
  predicate IsMarker(m: string) {
    m != "" && '\n' !in m
  }

  function ReplaceBlockLines(text: string, start: string, end: string, lines: seq<string>): Result<string>
    requires IsMarker(start) && IsMarker(end)
  {
    var startIndex := IndexOf(text, start, 0);
    if startIndex == -1 then Err(MissingStart)
    else
      var endIndex := IndexOf(text, end, startIndex);
      if endIndex == -1 then Err(MissingEnd)
      else
        var startLineStart := LastNewline(text, startIndex);
        var startLineStartIndex := if startLineStart == -1 then 0 else startLineStart + 1;
        var indent := Slice(text, startLineStartIndex, startIndex);
        var endLineEnd := IndexOf(text, "\n", endIndex);
        var endLineEndIndex := if endLineEnd == -1 then |text| else endLineEnd + 1;
        var before := Slice(text, 0, startLineStartIndex);
        var after := Slice(text, endLineEndIndex, |text|);
        var replacement := Join(Block(indent, start, end, lines));
        Ok(if after == "" then before + replacement else before + replacement + "\n" + after)
  }

  function Slice(text: string, a: nat, b: nat): string {
    if a <= b <= |text| then text[a..b] else ""
  }

  // ----- lines -----

  function Split(text: string): (lines: seq<string>)
    ensures lines != []
  {
    SplitAt(text, '\n')
  }

  /** Lines each closed by a line feed. */
  function Unlines(lines: seq<string>): string {
    if lines == [] then "" else lines[0] + "\n" + Unlines(lines[1..])
  }

  /** The first place of a marker in a text, and the first line that holds it; -1 for none. */
  function Find(text: string, m: string): (i: int)
    ensures -1 <= i <= |text|
  {
    if m <= text then 0
    else if text == "" then -1
    else
      var i := Find(text[1..], m);
      if i == -1 then -1 else i + 1
  }

  function FirstLine(lines: seq<string>, m: string): (i: int)
    ensures -1 <= i < |lines|
    ensures i >= 0 ==> Find(lines[i], m) >= 0
  {
    if lines == [] then -1
    else if Find(lines[0], m) >= 0 then 0
    else
      var i := FirstLine(lines[1..], m);
      if i == -1 then -1 else i + 1
  }

  /** The operation on lines: from the first line with the start marker to the first place of the end marker at
    * or after it, whole lines make way for the block; a lone empty line left at the end is dropped. */
  function ReplaceLines(text: seq<string>, start: string, end: string, lines: seq<string>): Result<seq<string>>
    requires IsMarker(start) && IsMarker(end)
  {
    var i, j := FirstLine(text, start), EndLine(text, start, end);
    if i == -1 then Err(MissingStart)
    else if j == -1 then Err(MissingEnd)
    else Ok(text[..i] + Block(Indent(text, start), start, end, lines) + WithoutLoneEmpty(text[j + 1..]))
  }

  /** The line of the first end marker at or after the first start marker. */
  function EndLine(text: seq<string>, start: string, end: string): (j: int)
    ensures j == -1 || 0 <= FirstLine(text, start) <= j < |text|
  {
    var i := FirstLine(text, start);
    if i == -1 then -1
    else
      var j := FirstLine([text[i][Find(text[i], start)..]] + text[i + 1..], end);
      if j == -1 then -1 else i + j
  }

  /** What stands before the first start marker on its line. */
  function Indent(text: seq<string>, start: string): string
    requires FirstLine(text, start) >= 0
  {
    var line := text[FirstLine(text, start)];
    line[..Find(line, start)]
  }

  function WithoutLoneEmpty(lines: seq<string>): seq<string> {
    if lines == [""] then [] else lines
  }

  // ----- the two agree -----

  lemma {:induction false} IndexOfFinds(text: string, m: string, from: nat)
    requires from <= |text|
    ensures IndexOf(text, m, from) == if Find(text[from..], m) == -1 then -1 else from + Find(text[from..], m)
    decreases |text| - from
  {
    if from + |m| <= |text| {
      assert text[from..from + |m|] == text[from..][..|m|];
      if from < |text| {
        assert text[from..][1..] == text[from + 1..];
        IndexOfFinds(text, m, from + 1);
      }
    } else {
      FindTooShort(text[from..], m);
    }
  }

  lemma {:induction false} FindTooShort(text: string, m: string)
    requires |text| < |m|
    ensures Find(text, m) == -1
  {
    if text != "" {
      FindTooShort(text[1..], m);
    }
  }

  // ----- lists of lines as texts -----

  ghost predicate NoFeeds(lines: seq<string>) {
    Unseparated(lines, '\n')
  }

  lemma NoFeedAt(lines: seq<string>, i: nat)
    requires NoFeeds(lines) && i < |lines|
    ensures '\n' !in lines[i] && NoFeeds(lines[i + 1..])
  {
    UnseparatedAt(lines, '\n', i);
  }

  lemma SplitNoFeeds(text: string)
    ensures NoFeeds(Split(text))
  {
    SplitUnseparated(text, '\n');
  }

  lemma JoinCons(line: string, rest: seq<string>)
    ensures Join([line] + rest) == if rest == [] then line else line + "\n" + Join(rest)
  {
    JoinWithCons(line, rest, '\n');
  }

  lemma UnlinesCons(line: string, rest: seq<string>)
    ensures Unlines([line] + rest) == line + "\n" + Unlines(rest)
  {
    assert ([line] + rest)[1..] == rest;
  }

  lemma JoinSplit(text: string)
    ensures Join(Split(text)) == text
  {
    JoinUndoesSplit(text, '\n');
  }

  lemma SplitLine(line: string, text: string)
    requires '\n' !in line
    ensures Split(line) == [line]
    ensures Split(line + "\n" + text) == [line] + Split(text)
  {
    SplitPart(line, '\n');
    SplitConcat(line, text, '\n');
  }

  lemma SplitJoin(lines: seq<string>)
    requires lines != [] && NoFeeds(lines)
    ensures Split(Join(lines)) == lines
  {
    SplitUndoesJoin(lines, '\n');
  }

  lemma {:induction false} JoinCut(lines: seq<string>, i: nat)
    requires i < |lines|
    ensures Join(lines) == Unlines(lines[..i]) + Join(lines[i..])
  {
    if i == 0 {
      assert lines[0..] == lines;
    } else {
      JoinCut(lines[1..], i - 1);
      assert lines[1..][i - 1..] == lines[i..];
      assert lines[..i] == [lines[0]] + lines[1..][..i - 1];
      UnlinesCons(lines[0], lines[1..][..i - 1]);
      assert lines == [lines[0]] + lines[1..];
      JoinCons(lines[0], lines[1..]);
    }
  }

  lemma JoinDrop(line: string, rest: seq<string>, column: nat)
    requires column <= |line|
    ensures Join([line] + rest)[column..] == Join([line[column..]] + rest)
  {
    JoinCons(line, rest);
    JoinCons(line[column..], rest);
  }

  // ----- searches, by text and by line -----

  lemma PrefixInLine(line: string, text: string, m: string)
    requires IsMarker(m)
    ensures m <= line + "\n" + text <==> m <= line
  {
    var whole := line + "\n" + text;
    assert whole[..|line|] == line && whole[|line|] == '\n';
    if |m| > |line| {
      assert m[|line|] in m && m[|line|] != whole[|line|];
    }
  }

  lemma {:induction false} FindInLine(line: string, text: string, m: string)
    requires IsMarker(m)
    ensures Find(line + "\n" + text, m) ==
      if Find(line, m) >= 0 then Find(line, m) else if Find(text, m) == -1 then -1 else |line| + 1 + Find(text, m)
  {
    var whole := line + "\n" + text;
    PrefixInLine(line, text, m);
    if line == "" {
      assert whole[1..] == text;
    } else {
      FindInLine(line[1..], text, m);
      assert whole[1..] == line[1..] + "\n" + text;
    }
  }

  lemma {:induction false} FindByLine(lines: seq<string>, m: string)
    requires IsMarker(m) && lines != []
    ensures var i := FirstLine(lines, m);
      Find(Join(lines), m) == if i == -1 then -1 else |Unlines(lines[..i])| + Find(lines[i], m)
  {
    hide Find;
    if |lines| > 1 {
      FindInLine(lines[0], Join(lines[1..]), m);
      FindByLine(lines[1..], m);
      var i := FirstLine(lines[1..], m);
      if i >= 0 {
        assert lines[..i + 1] == [lines[0]] + lines[1..][..i];
        UnlinesCons(lines[0], lines[1..][..i]);
      }
    }
  }

  /** Cutting a text at a column of one of its lines. */
  lemma CutAt(lines: seq<string>, i: nat, column: nat)
    requires i < |lines| && column <= |lines[i]| && NoFeeds(lines)
    ensures var text, k := Join(lines), |Unlines(lines[..i])| + column;
      && k <= |text|
      && text[..|Unlines(lines[..i])|] == Unlines(lines[..i])
      && text[|Unlines(lines[..i])|..k] == lines[i][..column]
      && Split(text[k..]) == [lines[i][column..]] + lines[i + 1..]
  {
    hide Unlines, Join, Split, NoFeeds;
    var head, joined := Unlines(lines[..i]), Join(lines[i..]);
    JoinCut(lines, i);
    ConsAt(lines, i);
    JoinCons(lines[i], lines[i + 1..]);
    JoinDrop(lines[i], lines[i + 1..], column);
    TailOfLine(lines, i, column);
    TakeOfLine(lines[i], joined, column);
    CutConcat(head, joined, column);
  }

  lemma ConsAt<T>(s: seq<T>, i: nat)
    requires i < |s|
    ensures s[i..] == [s[i]] + s[i + 1..]
  {
  }

  lemma TakeOfLine(line: string, text: string, column: nat)
    requires column <= |line| && line <= text
    ensures text[..column] == line[..column]
  {
  }

  lemma TailOfLine(lines: seq<string>, i: nat, column: nat)
    requires i < |lines| && column <= |lines[i]| && NoFeeds(lines)
    ensures var tail := [lines[i][column..]] + lines[i + 1..]; Split(Join(tail)) == tail
  {
    hide Join, Split;
    NoFeedAt(lines, i);
    var tail := [lines[i][column..]] + lines[i + 1..];
    TailIs(lines[i][column..], lines[i + 1..]);
    SplitJoin(tail);
  }

  lemma CutConcat(head: string, tail: string, column: nat)
    requires column <= |tail|
    ensures (head + tail)[..|head|] == head
    ensures (head + tail)[|head|..|head| + column] == tail[..column]
    ensures (head + tail)[|head| + column..] == tail[column..]
  {
  }

  /** Where a marker is in a text, against the lines of the text. */
  ghost predicate Located(text: string, m: string) {
    var lines, k := Split(text), Find(text, m);
    var i := FirstLine(lines, m);
    && (k == -1 <==> i == -1)
    && (k >= 0 ==>
          var column := Find(lines[i], m);
          && k == |Unlines(lines[..i])| + column
          && text[..k - column] == Unlines(lines[..i])
          && text[k - column..k] == lines[i][..column]
          && Split(text[k..]) == [lines[i][column..]] + lines[i + 1..])
  }

  lemma Locate(text: string, m: string)
    requires IsMarker(m)
    ensures Located(text, m)
  {
    hide FirstLine, Find, Split, Unlines, Join, NoFeeds, IsMarker;
    var lines := Split(text);
    JoinSplit(text);
    SplitNoFeeds(text);
    FindByLine(lines, m);
    var i := FirstLine(lines, m);
    if i >= 0 {
      CutAt(lines, i, Find(lines[i], m));
    }
  }

  lemma {:induction false} UnlinesEnds(lines: seq<string>)
    ensures var u := Unlines(lines); u == "" || u[|u| - 1] == '\n'
  {
    if lines != [] {
      UnlinesEnds(lines[1..]);
    }
  }

  /** Searching back for a line feed from a place in a line finds the end of the line before. */
  lemma {:induction false} LastNewlineBefore(text: string, lineStart: nat, at: nat)
    requires lineStart <= at < |text|
    requires lineStart == 0 || text[lineStart - 1] == '\n'
    requires '\n' !in text[lineStart..at + 1]
    ensures LastNewline(text, at) == lineStart - 1
    decreases at
  {
    assert text[lineStart..at + 1][at - lineStart] == text[at];
    if at > lineStart {
      assert text[lineStart..at + 1] == text[lineStart..at] + [text[at]];
      LastNewlineBefore(text, lineStart, at - 1);
    }
  }

  lemma {:induction false} FindStarts(text: string, m: string)
    requires Find(text, m) >= 0
    ensures m <= text[Find(text, m)..]
  {
    if !(m <= text) {
      FindStarts(text[1..], m);
      assert text[1..][Find(text[1..], m)..] == text[Find(text, m)..];
    } else {
      assert text[0..] == text;
    }
  }

  lemma {:induction false} NewlineAfter(line: string, text: string)
    requires '\n' !in line
    ensures Find(line, "\n") == -1
    ensures Find(line + "\n" + text, "\n") == |line|
  {
    var whole := line + "\n" + text;
    if line != "" {
      assert line[0] in line;
      NewlineAfter(line[1..], text);
      assert whole[1..] == line[1..] + "\n" + text;
    }
  }

  /** The first line feed ends the first line. */
  lemma FindNewline(lines: seq<string>)
    requires lines != [] && NoFeeds(lines)
    ensures Find(Join(lines), "\n") == if |lines| == 1 then -1 else |lines[0]|
    ensures |lines| > 1 ==> |lines[0]| < |Join(lines)| && Join(lines)[|lines[0]| + 1..] == Join(lines[1..])
  {
    NewlineAfter(lines[0], Join(lines[1..]));
    if |lines| > 1 {
      var feed := lines[0] + "\n";
      assert (feed + Join(lines[1..]))[|feed|..] == Join(lines[1..]);
    }
  }

  // ----- the two agree -----

  lemma LineStartIs(text: string, head: string, part: string, k: nat)
    requires |head| + |part| == k < |text|
    requires text[..|head|] == head && text[|head|..k] == part
    requires head == "" || head[|head| - 1] == '\n'
    requires '\n' !in part && text[k] != '\n'
    ensures LastNewline(text, k) + 1 == |head|
  {
    assert text[|head|..k + 1] == part + [text[k]];
    assert head != "" ==> text[|head| - 1] == text[..|head|][|head| - 1];
    LastNewlineBefore(text, |head|, k);
  }

  /** The start of the block: what `lastIndexOf` gives from the start marker. */
  lemma BlockStart(text: string, start: string)
    requires IsMarker(start) && Located(text, start) && Find(text, start) >= 0
    ensures var lines, k := Split(text), Find(text, start);
      k < |text| && LastNewline(text, k) + 1 == |Unlines(lines[..FirstLine(lines, start)])|
  {
    hide FirstLine, Find, Split, Unlines, NoFeeds, LastNewline;
    var lines, k := Split(text), Find(text, start);
    var i := FirstLine(lines, start);
    var column := Find(lines[i], start);
    FindStarts(text, start);
    assert text[k..][0] == start[0] && start[0] in start;
    UnlinesEnds(lines[..i]);
    SplitNoFeeds(text);
    NoFeedAt(lines, i);
    LineStartIs(text, Unlines(lines[..i]), lines[i][..column], k);
  }

  lemma DropDrop<T>(a: seq<T>, n: nat, k: nat)
    requires n + k <= |a|
    ensures a[n..][k..] == a[n + k..]
  {
  }

  lemma AfterTail<T>(x: T, all: seq<T>, i: nat, j: nat)
    requires i + j < |all|
    ensures ([x] + all[i + 1..])[j + 1..] == all[i + j + 1..]
  {
  }

  lemma TailIs<T>(x: T, rest: seq<T>)
    ensures ([x] + rest)[1..] == rest && ([x] + rest)[0] == x
  {
  }

  /** The lines that follow the line a text begins in. */
  ghost predicate EndsLine(tail: string, rest: seq<string>) {
    var feed := Find(tail, "\n");
    if rest == [] then feed == -1 else 0 <= feed < |tail| && tail[feed + 1..] == Join(rest)
  }

  function RestText(rest: seq<string>): string {
    if rest == [] then "" else Join(rest)
  }

  lemma FirstLineEnds(text: string)
    ensures EndsLine(text, Split(text)[1..])
  {
    hide Find, Split, Join, NoFeeds;
    JoinSplit(text);
    SplitNoFeeds(text);
    FindNewline(Split(text));
  }

  /** The end of the block: what is left after the line of the end marker. */
  lemma BlockEnd(text: string, end: string)
    requires IsMarker(end) && Located(text, end) && Find(text, end) >= 0
    ensures var lines, k := Split(text), Find(text, end);
      EndsLine(text[k..], lines[FirstLine(lines, end) + 1..])
  {
    hide Find, FirstLine, Split, Join, EndsLine;
    var lines, k := Split(text), Find(text, end);
    var j := FirstLine(lines, end);
    FirstLineEnds(text[k..]);
    TailIs(lines[j][Find(lines[j], end)..], lines[j + 1..]);
  }

  lemma JoinEmpty(lines: seq<string>)
    requires lines != []
    ensures Join(lines) == "" <==> lines == [""]
  {
  }

  lemma {:induction false} JoinTwo(head: seq<string>, tail: seq<string>)
    requires head != [] && tail != []
    ensures Join(head + tail) == Join(head) + "\n" + Join(tail)
  {
    assert head + tail == [head[0]] + (head[1..] + tail);
    JoinCons(head[0], head[1..] + tail);
    if |head| > 1 {
      JoinTwo(head[1..], tail);
    } else {
      assert head[1..] + tail == tail;
    }
  }

  lemma {:induction false} JoinAfter(head: seq<string>, tail: seq<string>)
    requires tail != []
    ensures Join(head + tail) == Unlines(head) + Join(tail)
  {
    JoinCut(head + tail, |head|);
    assert (head + tail)[..|head|] == head && (head + tail)[|head|..] == tail;
  }

  /** Putting the parts of the result together. */
  lemma JoinParts(head: seq<string>, block: seq<string>, rest: seq<string>)
    requires block != []
    ensures var after := RestText(rest);
      Join(head + block + WithoutLoneEmpty(rest)) ==
        if after == "" then Unlines(head) + Join(block) else Unlines(head) + Join(block) + "\n" + after
  {
    var kept := WithoutLoneEmpty(rest);
    assert head + block + kept == head + (block + kept);
    JoinAfter(head, block + kept);
    if kept == [] {
      assert block + kept == block;
    } else {
      JoinEmpty(rest);
      JoinTwo(block, kept);
      assert Unlines(head) + (Join(block) + "\n" + Join(rest)) == Unlines(head) + Join(block) + "\n" + Join(rest);
    }
  }

  /** What follows the line that holds a place in a text. */
  function AfterFeed(text: string, at: nat): string {
    var feed := IndexOf(text, "\n", at);
    Slice(text, if feed == -1 then |text| else feed + 1, |text|)
  }

  lemma ReplacesAt(text: string, start: string, end: string, lines: seq<string>, k: nat, e: nat, lineStart: nat)
    requires IsMarker(start) && IsMarker(end)
    requires IndexOf(text, start, 0) == k < |text| && IndexOf(text, end, k) == e
    requires LastNewline(text, k) + 1 == lineStart <= k
    ensures var kept := text[..lineStart] + Join(Block(text[lineStart..k], start, end, lines));
      var after := AfterFeed(text, e);
      ReplaceBlockLines(text, start, end, lines) == Ok(if after == "" then kept else kept + "\n" + after)
  {
    hide IndexOf, LastNewline, Join, Block, IsMarker;
    assert text[0..lineStart] == text[..lineStart];
  }

  /** The line operation, when both markers are found. */
  lemma LinesFound(all: seq<string>, start: string, end: string, lines: seq<string>, i: nat, j: nat)
    requires IsMarker(start) && IsMarker(end)
    requires FirstLine(all, start) == i < |all|
    requires FirstLine([all[i][Find(all[i], start)..]] + all[i + 1..], end) == j
    ensures i + j < |all|
    ensures var column := Find(all[i], start);
      ReplaceLines(all, start, end, lines) ==
        Ok(all[..i] + Block(all[i][..column], start, end, lines) + WithoutLoneEmpty(all[i + j + 1..]))
  {
    hide Find, FirstLine, EndLine, Indent, Block, ReplaceLines;
    var u := Use(start, end, lines);
    LinesResult(u, all);
    EndLineAt(u, all, i, Find(all[i], start));
  }

  lemma MarkersAt(text: string, start: string, end: string, k: nat, e: nat)
    requires Find(text, start) == k <= e <= |text| && Find(text[k..], end) == e - k
    ensures IndexOf(text, start, 0) == k && IndexOf(text, end, k) == e
  {
    hide Find, IndexOf;
    IndexOfFinds(text, start, 0);
    assert text[0..] == text;
    IndexOfFinds(text, end, k);
  }

  /** The text operation, when both markers are found: `rest` is what follows the line of the end marker. */
  lemma TextFound(text: string, start: string, end: string, lines: seq<string>, k: nat, e: nat, lineStart: nat,
                  rest: seq<string>)
    requires IsMarker(start) && IsMarker(end)
    requires Find(text, start) == k < |text| && k <= e <= |text| && Find(text[k..], end) == e - k
    requires LastNewline(text, k) + 1 == lineStart <= k
    requires EndsLine(text[k..][e - k..], rest)
    ensures var kept := text[..lineStart] + Join(Block(text[lineStart..k], start, end, lines));
      var after := RestText(rest);
      ReplaceBlockLines(text, start, end, lines) == Ok(if after == "" then kept else kept + "\n" + after)
  {
    hide Find, LastNewline, Join, Block, IsMarker, ReplaceBlockLines, IndexOf, AfterFeed, EndsLine, RestText;
    MarkersAt(text, start, end, k, e);
    DropDrop(text, k, e - k);
    AfterBlock(text, e, rest);
    ReplacesAt(text, start, end, lines, k, e, lineStart);
  }

  /** The part of the text operation after both markers are found. */
  lemma ReplacesFound(text: string, start: string, end: string, lines: seq<string>, k: nat, e: nat)
    requires IsMarker(start) && IsMarker(end)
    requires Located(text, start) && Find(text, start) == k
    requires k <= e && Located(text[k..], end) && Find(text[k..], end) == e - k
    ensures ReplaceLines(Split(text), start, end, lines).Ok?
    ensures ReplaceBlockLines(text, start, end, lines) == Ok(Join(ReplaceLines(Split(text), start, end, lines).value))
  {
    hide ReplaceBlockLines, ReplaceLines, Find, FirstLine, Split, Join, Unlines, LastNewline, IsMarker, Block, EndsLine,
      RestText;
    var all := Split(text);
    var i := FirstLine(all, start);
    var column := Find(all[i], start);
    var tail := [all[i][column..]] + all[i + 1..];
    var j := FirstLine(tail, end);
    LinesFound(all, start, end, lines, i, j);
    AfterTail(all[i][column..], all, i, j);
    var rest := all[i + j + 1..];
    BlockStart(text, start);
    BlockEnd(text[k..], end);
    TextFound(text, start, end, lines, k, e, k - column, rest);
    JoinParts(all[..i], Block(all[i][..column], start, end, lines), rest);
  }

  lemma AfterBlock(text: string, e: nat, rest: seq<string>)
    requires e <= |text| && EndsLine(text[e..], rest)
    ensures AfterFeed(text, e) == RestText(rest)
  {
    hide Find, Join, IndexOf, Slice;
    var feed := Find(text[e..], "\n");
    IndexOfFinds(text, "\n", e);
    if rest == [] {
      SliceDrop(text, |text|);
    } else {
      DropDrop(text, e, feed + 1);
      SliceDrop(text, e + feed + 1);
    }
  }

  lemma SliceDrop(text: string, n: nat)
    requires n <= |text|
    ensures Slice(text, n, |text|) == text[n..]
    ensures n == |text| ==> text[n..] == ""
  {
  }

  /** The text operation is the line operation between splitting and joining, failures included. */
  lemma ReplacesByLine(text: string, start: string, end: string, lines: seq<string>)
    requires IsMarker(start) && IsMarker(end)
    ensures ReplaceBlockLines(text, start, end, lines) ==
      match ReplaceLines(Split(text), start, end, lines)
      case Ok(result) => Ok(Join(result))
      case Err(e) => Err(e)
  {
    hide Find, IndexOf, FirstLine, Split, Join, IsMarker, LastNewline, Slice, Block, Unlines;
    Locate(text, start);
    IndexOfFinds(text, start, 0);
    assert text[0..] == text;
    var k := Find(text, start);
    if k >= 0 {
      Locate(text[k..], end);
      IndexOfFinds(text, end, k);
      if Find(text[k..], end) >= 0 {
        ReplacesFound(text, start, end, lines, k, k + Find(text[k..], end));
      }
    }
  }

  // ----- a result as lines -----

  function SplitAll(pieces: seq<string>): seq<string> {
    if pieces == [] then [] else Split(pieces[0]) + SplitAll(pieces[1..])
  }

  lemma SplitAppend(a: string, b: string)
    ensures Split(a + "\n" + b) == Split(a) + Split(b)
  {
    SplitConcat(a, b, '\n');
  }

  lemma {:induction false} SplitJoinAll(pieces: seq<string>)
    requires pieces != []
    ensures Split(Join(pieces)) == SplitAll(pieces)
  {
    if |pieces| > 1 {
      SplitAppend(pieces[0], Join(pieces[1..]));
      SplitJoinAll(pieces[1..]);
    } else {
      assert Split(pieces[0]) + [] == Split(pieces[0]);
    }
  }

  lemma {:induction false} SplitAllConcat(a: seq<string>, b: seq<string>)
    ensures SplitAll(a + b) == SplitAll(a) + SplitAll(b)
  {
    hide Split;
    if a == [] {
      assert a + b == b;
    } else {
      SplitAllConcat(a[1..], b);
      assert a + b == [a[0]] + (a[1..] + b);
      TailIs(a[0], a[1..] + b);
      AppendAssoc(Split(a[0]), SplitAll(a[1..]), SplitAll(b));
    }
  }

  lemma {:induction false} SplitAllKeeps(lines: seq<string>)
    requires NoFeeds(lines)
    ensures SplitAll(lines) == lines
  {
    if lines != [] {
      SplitLine(lines[0], "");
      SplitAllKeeps(lines[1..]);
    }
  }

  lemma {:induction false} NoFeedsTake(lines: seq<string>, n: nat)
    requires NoFeeds(lines) && n <= |lines|
    ensures NoFeeds(lines[..n])
  {
    if n > 0 {
      NoFeedsTake(lines[1..], n - 1);
      assert lines[..n][1..] == lines[1..][..n - 1];
    }
  }

  lemma {:induction false} NoFeedsDrop(lines: seq<string>, n: nat)
    requires NoFeeds(lines) && n <= |lines|
    ensures NoFeeds(lines[n..])
  {
    if n > 0 {
      NoFeedsDrop(lines[1..], n - 1);
      assert lines[1..][n - 1..] == lines[n..];
    } else {
      assert lines[0..] == lines;
    }
  }

  /** One use: its markers and its lines. */
  datatype AnyUse = Use(start: string, end: string, lines: seq<string>)

  type Use = u: AnyUse | IsMarker(u.start) && IsMarker(u.end)
    witness Use("<", ">", [])

  function Apply(u: Use, text: string): Result<string>
  {
    ReplaceBlockLines(text, u.start, u.end, u.lines)
  }

  /** The block of a use as lines; a replacement line may itself hold line feeds. */
  function BlockLines(u: Use, indent: string): seq<string> {
    SplitAll(Block(indent, u.start, u.end, u.lines))
  }

  lemma BlockLinesAre(u: Use, indent: string)
    requires '\n' !in indent
    ensures BlockLines(u, indent) == [indent + u.start] + SplitAll(Indented(indent, u.lines)) + [indent + u.end]
  {
    var first, middle, last := [indent + u.start], Indented(indent, u.lines), [indent + u.end];
    SplitAllConcat(first + middle, last);
    SplitAllConcat(first, middle);
    SplitLine(indent + u.start, "");
    SplitLine(indent + u.end, "");
    SplitAllOne(indent + u.start);
    SplitAllOne(indent + u.end);
  }

  lemma SplitAllOne(piece: string)
    ensures SplitAll([piece]) == Split(piece)
  {
    assert Split(piece) + [] == Split(piece);
  }

  lemma IndentNoFeed(text: seq<string>, start: string)
    requires NoFeeds(text) && FirstLine(text, start) >= 0
    ensures '\n' !in Indent(text, start)
  {
    NoFeedAt(text, FirstLine(text, start));
  }

  /** What a use does to the lines of a text: the lines before the start line and after the end line stay as
    * they are, except that an empty last line right after the end line, that is a final line feed, goes. */
  lemma UseByLines(u: Use, text: string)
    ensures var all := Split(text);
      var i, j := FirstLine(all, u.start), EndLine(all, u.start, u.end);
      && (Apply(u, text) == Err(MissingStart) <==> i == -1)
      && (Apply(u, text) == Err(MissingEnd) <==> i >= 0 && j == -1)
      && (Apply(u, text).Ok? <==> j >= 0)
      && (Apply(u, text).Ok? ==>
            Split(Apply(u, text).value) ==
              all[..i] + BlockLines(u, Indent(all, u.start)) + WithoutLoneEmpty(all[j + 1..]))
  {
    hide Split, FirstLine, EndLine, Join, Indent, Block, BlockLines, IsMarker, ReplaceBlockLines, ReplaceLines,
      NoFeeds, WithoutLoneEmpty;
    var all := Split(text);
    var i, j := FirstLine(all, u.start), EndLine(all, u.start, u.end);
    ReplacesByLine(text, u.start, u.end, u.lines);
    LinesResult(u, all);
    if j >= 0 {
      SplitNoFeeds(text);
      SplitParts(u, all, i, j);
    }
  }

  lemma LinesResult(u: Use, all: seq<string>)
    ensures var i, j := FirstLine(all, u.start), EndLine(all, u.start, u.end);
      ReplaceLines(all, u.start, u.end, u.lines) ==
        if i == -1 then Err(MissingStart)
        else if j == -1 then Err(MissingEnd)
        else Ok(all[..i] + Block(Indent(all, u.start), u.start, u.end, u.lines) + WithoutLoneEmpty(all[j + 1..]))
  {
    hide FirstLine, EndLine, Indent, Block, IsMarker, WithoutLoneEmpty;
  }

  lemma SplitParts(u: Use, all: seq<string>, i: nat, j: nat)
    requires NoFeeds(all) && FirstLine(all, u.start) == i <= j < |all|
    ensures var indent, rest := Indent(all, u.start), WithoutLoneEmpty(all[j + 1..]);
      Split(Join(all[..i] + Block(indent, u.start, u.end, u.lines) + rest)) == all[..i] + BlockLines(u, indent) + rest
  {
    hide FirstLine, Find, Join, Split, SplitAll, Indent, NoFeeds, Block, WithoutLoneEmpty;
    var rest := WithoutLoneEmpty(all[j + 1..]);
    NoFeedsTake(all, i);
    NoFeedsDrop(all, j + 1);
    KeptLines(all[j + 1..]);
    SplitAllKeeps(all[..i]);
    SplitThree(all[..i], Block(Indent(all, u.start), u.start, u.end, u.lines), rest);
  }

  lemma KeptLines(rest: seq<string>)
    requires NoFeeds(rest)
    ensures SplitAll(WithoutLoneEmpty(rest)) == WithoutLoneEmpty(rest)
  {
    hide Split;
    SplitAllKeeps(rest);
  }

  lemma SplitThree(a: seq<string>, b: seq<string>, c: seq<string>)
    requires b != []
    ensures Split(Join(a + b + c)) == SplitAll(a) + SplitAll(b) + SplitAll(c)
  {
    hide Split, SplitAll, Join;
    SplitJoinAll(a + b + c);
    SplitAllConcat(a + b, c);
    SplitAllConcat(a, b);
  }

  // ----- searches in pieces -----

  lemma {:induction false} FirstLineConcat(a: seq<string>, b: seq<string>, m: string)
    ensures FirstLine(a + b, m) ==
      if FirstLine(a, m) >= 0 then FirstLine(a, m) else if FirstLine(b, m) == -1 then -1 else |a| + FirstLine(b, m)
  {
    if a == [] {
      assert a + b == b;
    } else {
      FirstLineConcat(a[1..], b, m);
      assert (a + b)[1..] == a[1..] + b;
    }
  }

  lemma FirstLineHead(line: string, rest: seq<string>, m: string)
    requires Find(line, m) >= 0
    ensures FirstLine([line] + rest, m) == 0
  {
    hide Find;
  }

  lemma FirstLineTake(lines: seq<string>, m: string, n: nat)
    requires n <= |lines|
    ensures FirstLine(lines[..n], m) == if FirstLine(lines, m) < n then FirstLine(lines, m) else -1
    ensures FirstLine(lines, m) >= n ==> FirstLine(lines[n..], m) == FirstLine(lines, m) - n
  {
    assert lines == lines[..n] + lines[n..];
    FirstLineConcat(lines[..n], lines[n..], m);
  }

  /** A search looks no further than what it finds. */
  lemma FirstLineLocal(a: seq<string>, b: seq<string>, m: string, n: nat)
    requires n <= |a| && n <= |b| && a[..n] == b[..n] && 0 <= FirstLine(a, m) < n
    ensures FirstLine(b, m) == FirstLine(a, m)
  {
    FirstLineTake(a, m, n);
    FirstLineTake(b, m, n);
    assert FirstLine(b[..n], m) == FirstLine(a, m);
  }

  lemma PrefixOfPrefix(a: string, b: string, c: string)
    requires b <= c
    ensures a <= b ==> a <= c
  {
  }

  lemma AgainIsPrefix(line: string, m: string, c: nat)
    requires c <= |line| && m <= line[c..]
    ensures line[..c] + m <= line
  {
    assert line[c..][..|m|] == m;
    assert line[..c] + m == line[..c + |m|];
  }

  lemma AgainTail(line: string, m: string, c: nat)
    requires 1 <= c <= |line|
    ensures (line[..c] + m)[1..] == line[1..][..c - 1] + m
  {
  }

  lemma {:induction false} FindAgain(line: string, m: string)
    requires Find(line, m) >= 0
    ensures Find(line[..Find(line, m)] + m, m) == Find(line, m)
  {
    var c := Find(line, m);
    var again := line[..c] + m;
    if m <= line {
      assert again == m;
    } else {
      FindAgain(line[1..], m);
      FindStarts(line, m);
      AgainIsPrefix(line, m, c);
      PrefixOfPrefix(m, again, line);
      AgainTail(line, m, c);
    }
  }

  lemma {:induction false} FindAtEnd(head: string, m: string)
    ensures Find(head + m, m) >= 0
  {
    if head == "" {
      assert head + m == m;
    } else {
      FindAtEnd(head[1..], m);
      assert (head + m)[1..] == head[1..] + m;
    }
  }

  // ----- when a second use changes nothing -----

  /** The lines of a use stand where it would put them. */
  predicate Stands(u: Use, text: seq<string>)
  {
    var i, j := FirstLine(text, u.start), EndLine(text, u.start, u.end);
    j >= 0 && text[i..j + 1] == BlockLines(u, Indent(text, u.start)) && text[j + 1..] != [""]
  }

  lemma StandingIsFixed(u: Use, text: string)
    requires Stands(u, Split(text))
    ensures Apply(u, text) == Ok(text)
  {
    hide Apply, Split, BlockLines, FirstLine, EndLine, Indent, Join;
    var all := Split(text);
    var i, j := FirstLine(all, u.start), EndLine(all, u.start, u.end);
    UseByLines(u, text);
    assert all == all[..i] + all[i..j + 1] + all[j + 1..];
    JoinSplit(text);
    JoinSplit(Apply(u, text).value);
  }

  /** The end marker is neither in the start marker nor in an indented replacement line. */
  predicate Clean(u: Use, indent: string) {
    Find(u.start, u.end) == -1 && forall k | 0 <= k < |u.lines| :: Find(indent + u.lines[k], u.end) == -1
  }

  ghost predicate NoneHolds(pieces: seq<string>, m: string) {
    pieces == [] || (Find(pieces[0], m) == -1 && NoneHolds(pieces[1..], m))
  }

  lemma {:induction false} NoneHoldsAt(pieces: seq<string>, m: string)
    ensures NoneHolds(pieces, m) <==> forall k | 0 <= k < |pieces| :: Find(pieces[k], m) == -1
  {
    hide Find;
    if pieces != [] {
      NoneHoldsAt(pieces[1..], m);
      assert pieces == [pieces[0]] + pieces[1..];
    }
  }

  lemma LocatedOrNot(text: string, m: string)
    requires IsMarker(m)
    ensures Find(text, m) == -1 <==> FirstLine(Split(text), m) == -1
  {
    hide Find, FirstLine, Split;
    Locate(text, m);
  }

  lemma {:induction false} EndInPieces(pieces: seq<string>, m: string)
    requires IsMarker(m)
    ensures FirstLine(SplitAll(pieces), m) == -1 <==> NoneHolds(pieces, m)
  {
    hide Find, Split, IsMarker;
    if pieces != [] {
      EndInPieces(pieces[1..], m);
      LocatedOrNot(pieces[0], m);
      FirstLineConcat(Split(pieces[0]), SplitAll(pieces[1..]), m);
    }
  }

  lemma EndLineAt(u: Use, all: seq<string>, i: nat, column: nat)
    requires FirstLine(all, u.start) == i < |all| && Find(all[i], u.start) == column
    ensures Indent(all, u.start) == all[i][..column]
    ensures EndLine(all, u.start, u.end) ==
      (var j := FirstLine([all[i][column..]] + all[i + 1..], u.end); if j == -1 then -1 else i + j)
  {
    hide Find, FirstLine;
  }

  lemma Around<T>(head: seq<T>, x: T, after: seq<T>)
    ensures var all := head + ([x] + after); |head| < |all| && all[|head|] == x && all[|head| + 1..] == after
  {
  }

  /** Where the start marker is in lines that hold it after some head. */
  lemma StartAfterHead(u: Use, head: seq<string>, indent: string, after: seq<string>)
    requires FirstLine(head, u.start) == -1 && Find(indent + u.start, u.start) == |indent|
    ensures var all := head + ([indent + u.start] + after);
      && FirstLine(all, u.start) == |head|
      && Indent(all, u.start) == indent
      && EndLine(all, u.start, u.end)
           == (var j := FirstLine([u.start] + after, u.end); if j == -1 then -1 else |head| + j)
  {
    hide Find, FirstLine, EndLine, Indent;
    var first := indent + u.start;
    var all := head + ([first] + after);
    FirstAfterHead(u.start, head, first, after);
    Around(head, first, after);
    StartAt(u, all, |head|, indent);
  }

  lemma FirstAfterHead(m: string, head: seq<string>, first: string, after: seq<string>)
    requires FirstLine(head, m) == -1 && Find(first, m) >= 0
    ensures FirstLine(head + ([first] + after), m) == |head|
  {
    hide Find, FirstLine;
    FirstLineConcat(head, [first] + after, m);
    FirstLineHead(first, after, m);
  }

  lemma StartAt(u: Use, all: seq<string>, i: nat, indent: string)
    requires FirstLine(all, u.start) == i < |all| && all[i] == indent + u.start && Find(all[i], u.start) == |indent|
    ensures Indent(all, u.start) == indent
    ensures EndLine(all, u.start, u.end) ==
      (var j := FirstLine([u.start] + all[i + 1..], u.end); if j == -1 then -1 else i + j)
  {
    hide Find, FirstLine, EndLine, Indent;
    EndLineAt(u, all, i, |indent|);
    Cut(indent, u.start);
  }

  lemma Cut(a: string, b: string)
    ensures (a + b)[..|a|] == a && (a + b)[|a|..] == b
  {
  }

  /** Where the end marker is from the start marker on. */
  lemma EndAfterStart(u: Use, indent: string, middle: seq<string>, rest: seq<string>)
    ensures var j := FirstLine([u.start] + (middle + ([indent + u.end] + rest)), u.end);
      && 0 <= j <= |middle| + 1
      && (j == |middle| + 1 <==> Find(u.start, u.end) == -1 && FirstLine(middle, u.end) == -1)
  {
    hide Find;
    var after := middle + ([indent + u.end] + rest);
    FirstLineConcat([u.start], after, u.end);
    FirstLineConcat(middle, [indent + u.end] + rest, u.end);
    FindAtEnd(indent, u.end);
    assert FirstLine([indent + u.end] + rest, u.end) == 0;
  }

  /** Where a second use finds its markers in the lines a first one left. */
  lemma MarkersAfterUse(u: Use, head: seq<string>, indent: string, rest: seq<string>)
    requires '\n' !in indent
    requires FirstLine(head, u.start) == -1 && Find(indent + u.start, u.start) == |indent|
    ensures var all := head + BlockLines(u, indent) + rest;
      var j := EndLine(all, u.start, u.end);
      && FirstLine(all, u.start) == |head|
      && Indent(all, u.start) == indent
      && |head| <= j < |head| + |BlockLines(u, indent)|
      && (j == |head| + |BlockLines(u, indent)| - 1 <==> Clean(u, indent))
  {
    hide FirstLine, EndLine, Indent, Find, Clean, SplitAll, BlockLines, Indented;
    var middle := SplitAll(Indented(indent, u.lines));
    BlockLinesAre(u, indent);
    assert head + BlockLines(u, indent) + rest ==
      head + ([indent + u.start] + (middle + ([indent + u.end] + rest)));
    StartAfterHead(u, head, indent, middle + ([indent + u.end] + rest));
    EndAfterStart(u, indent, middle, rest);
    CleanPieces(u, indent);
  }

  lemma CleanPieces(u: Use, indent: string)
    ensures Clean(u, indent) <==>
      Find(u.start, u.end) == -1 && FirstLine(SplitAll(Indented(indent, u.lines)), u.end) == -1
  {
    var pieces := Indented(indent, u.lines);
    EndInPieces(pieces, u.end);
    NoneHoldsAt(pieces, u.end);
    assert forall k | 0 <= k < |pieces| :: pieces[k] == indent + u.lines[k];
  }

  lemma {:induction false} JoinLonger(extra: seq<string>, rest: seq<string>)
    ensures rest != [] ==> |Join(extra + rest)| >= |Join(rest)|
  {
    if extra == [] {
      assert extra + rest == rest;
    } else {
      JoinLonger(extra[1..], rest);
      assert extra + rest == [extra[0]] + (extra[1..] + rest);
      JoinCons(extra[0], extra[1..] + rest);
    }
  }

  /** What a use leaves, and what a second one then finds. */
  lemma AfterUse(u: Use, text: string)
    requires Apply(u, text).Ok?
    ensures var all, once := Split(text), Split(Apply(u, text).value);
      && EndLine(all, u.start, u.end) >= 0
      && var i, j, indent := FirstLine(all, u.start), EndLine(all, u.start, u.end), Indent(all, u.start);
      var block, end := BlockLines(u, indent), EndLine(once, u.start, u.end);
      && '\n' !in indent
      && once == all[..i] + block + WithoutLoneEmpty(all[j + 1..])
      && FirstLine(once, u.start) == i && Indent(once, u.start) == indent
      && i <= end < i + |block|
      && (end == i + |block| - 1 <==> Clean(u, indent))
  {
    hide Apply, Split, FirstLine, EndLine, Find, BlockLines, Clean, NoFeeds;
    var all := Split(text);
    var i, j := FirstLine(all, u.start), EndLine(all, u.start, u.end);
    UseByLines(u, text);
    SplitNoFeeds(text);
    IndentNoFeed(all, u.start);
    FindAgain(all[i], u.start);
    FirstLineTake(all, u.start, i);
    MarkersAfterUse(u, all[..i], Indent(all, u.start), WithoutLoneEmpty(all[j + 1..]));
  }

  lemma CleanUseStands(u: Use, text: string)
    requires Apply(u, text).Ok? && FirstLine(Split(text), u.start) >= 0
    requires Clean(u, Indent(Split(text), u.start))
    ensures Stands(u, Split(Apply(u, text).value))
  {
    hide Apply, Split, FirstLine, EndLine, Indent, BlockLines, Clean, Join;
    var all, once := Split(text), Split(Apply(u, text).value);
    AfterUse(u, text);
    var i, j := FirstLine(all, u.start), EndLine(all, u.start, u.end);
    var block := BlockLines(u, Indent(all, u.start));
    assert once[i..i + |block|] == block;
    assert once[i + |block|..] == WithoutLoneEmpty(all[j + 1..]);
  }

  lemma UncleanUseGrows(u: Use, text: string)
    requires Apply(u, text).Ok? && FirstLine(Split(text), u.start) >= 0
    requires !Clean(u, Indent(Split(text), u.start))
    ensures var once := Apply(u, text).value; Apply(u, once).Ok? && |Apply(u, once).value| > |once|
  {
    hide Apply, Split, FirstLine, EndLine, Indent, BlockLines, Clean, Join, Find, WithoutLoneEmpty;
    var all, once := Split(text), Apply(u, text).value;
    AfterUse(u, text);
    var i, j, indent := FirstLine(all, u.start), EndLine(all, u.start, u.end), Indent(all, u.start);
    var rest, lines := WithoutLoneEmpty(all[j + 1..]), Split(once);
    var end := EndLine(lines, u.start, u.end);
    UseByLines(u, once);
    SecondUseLonger(u, all[..i], indent, rest, end);
    assert lines[..i] == all[..i];
    JoinSplit(once);
    JoinSplit(Apply(u, once).value);
  }

  /** An end line found before the last line of the block leaves the rest of the block behind the new one. */
  lemma SecondUseLonger(u: Use, head: seq<string>, indent: string, rest: seq<string>, end: nat)
    requires '\n' !in indent
    requires |head| <= end < |head| + |BlockLines(u, indent)| - 1
    ensures var block := BlockLines(u, indent);
      |Join(head + block + WithoutLoneEmpty((head + block + rest)[end + 1..]))| > |Join(head + block + rest)|
  {
    hide BlockLines, Join, WithoutLoneEmpty, SplitAll, Indented;
    var block := BlockLines(u, indent);
    BlockLinesAre(u, indent);
    var last := indent + u.end;
    var n := end + 1 - |head|;
    LastOf(block, last, n);
    assert (head + block + rest)[end + 1..] == block[n..|block| - 1] + [last] + rest;
    EarlyEndGrows(head + block, block[n..|block| - 1], last, rest, (head + block + rest)[end + 1..]);
  }

  lemma LastOf(block: seq<string>, last: string, n: nat)
    requires n < |block| && block[|block| - 1] == last
    ensures block[n..] == block[n..|block| - 1] + [last]
  {
  }

  /** A second use finds both markers again, and changes nothing exactly when the end marker occurs neither in
    * the start marker nor in an indented replacement line; otherwise it finds an early end and the text grows. */
  lemma IdempotentIff(u: Use, text: string)
    requires Apply(u, text).Ok?
    ensures FirstLine(Split(text), u.start) >= 0
    ensures var once := Apply(u, text).value;
      && Apply(u, once).Ok?
      && (Apply(u, once).value == once <==> Clean(u, Indent(Split(text), u.start)))
      && (Apply(u, once).value != once ==> |Apply(u, once).value| > |once|)
  {
    AfterUse(u, text);
    if Clean(u, Indent(Split(text), u.start)) {
      CleanUseStands(u, text);
      StandingIsFixed(u, Apply(u, text).value);
    } else {
      UncleanUseGrows(u, text);
    }
  }

  lemma EarlyEndGrows(front: seq<string>, extra: seq<string>, last: string, rest: seq<string>, tail: seq<string>)
    requires front != [] && last != "" && tail == extra + [last] + rest
    ensures WithoutLoneEmpty(tail) == tail
    ensures |Join(front + tail)| > |Join(front + rest)|
  {
    assert tail[|extra|] == last;
    assert tail == extra + ([last] + rest);
    JoinLonger(extra, [last] + rest);
    JoinCons(last, rest);
    JoinTwo(front, tail);
    if rest == [] {
      assert front + rest == front;
    } else {
      JoinTwo(front, rest);
    }
  }

  // ----- several uses on one text -----

  /** A second use and a block that stands: its lines lie before or after that block, and what it puts there
    * does not hold the block's start marker. */
  predicate Apart(standing: Use, u: Use, text: seq<string>) {
    && FirstLine(text, u.start) >= 0
    && (EndLine(text, u.start, u.end) < FirstLine(text, standing.start)
        || EndLine(text, standing.start, standing.end) < FirstLine(text, u.start))
    && FirstLine(BlockLines(u, Indent(text, u.start)), standing.start) == -1
  }

  /** Lines that agree from the start marker on agree on the block. */
  lemma SameBlock(u: Use, a: seq<string>, b: seq<string>)
    requires FirstLine(a, u.start) >= 0 && FirstLine(b, u.start) >= 0
    requires a[FirstLine(a, u.start)..] == b[FirstLine(b, u.start)..]
    ensures Indent(a, u.start) == Indent(b, u.start)
    ensures Stands(u, a) ==> Stands(u, b)
  {
    hide FirstLine, Find, BlockLines;
    var i, i' := FirstLine(a, u.start), FirstLine(b, u.start);
    assert a[i] == a[i..][0] && b[i'] == b[i'..][0];
    assert a[i + 1..] == a[i..][1..] == b[i'..][1..] == b[i' + 1..];
    var j, j' := EndLine(a, u.start, u.end), EndLine(b, u.start, u.end);
    if Stands(u, a) {
      assert j' - i' == j - i;
      assert b[i'..j' + 1] == b[i'..][..j - i + 1] == a[i..j + 1];
      assert b[j' + 1..] == b[i'..][j - i + 1..] == a[j + 1..];
    }
  }

  lemma StandsAfterEarlierUse(standing: Use, text: seq<string>, n: nat, front: seq<string>)
    requires Stands(standing, text)
    requires n <= FirstLine(text, standing.start) && FirstLine(front, standing.start) == -1
    ensures Stands(standing, front + text[n..])
  {
    hide FirstLine, EndLine, Stands, Find;
    var after, i := front + text[n..], FirstLine(text, standing.start);
    FirstLineTake(text, standing.start, n);
    FirstLineConcat(front, text[n..], standing.start);
    assert after[|front| + i - n..] == text[i..];
    SameBlock(standing, text, after);
  }

  /** Lines after the block may change, and the block is still found where it was. */
  lemma FoundAsBefore(u: Use, text: seq<string>, after: seq<string>, n: nat)
    requires EndLine(text, u.start, u.end) >= 0 && EndLine(text, u.start, u.end) < n
    requires n <= |text| && n <= |after| && text[..n] == after[..n]
    ensures FirstLine(after, u.start) == FirstLine(text, u.start)
    ensures EndLine(after, u.start, u.end) == EndLine(text, u.start, u.end)
    ensures Indent(after, u.start) == Indent(text, u.start)
  {
    hide FirstLine, Find, EndLine, Indent;
    var i := FirstLine(text, u.start);
    FirstLineLocal(text, after, u.start, n);
    SameAtIndex(text, after, n, i);
    var column := Find(text[i], u.start);
    EndLineAt(u, text, i, column);
    EndLineAt(u, after, i, column);
    var cut := text[i][column..];
    SamePrefix(cut, text, after, n, i);
    FirstLineLocal([cut] + text[i + 1..], [cut] + after[i + 1..], u.end, n - i);
  }

  lemma SameAtIndex<T>(a: seq<T>, b: seq<T>, n: nat, i: nat)
    requires i < n <= |a| && n <= |b| && a[..n] == b[..n]
    ensures a[i] == b[i]
  {
    assert a[..n][i] == b[..n][i];
  }

  lemma SamePrefix<T>(x: T, a: seq<T>, b: seq<T>, n: nat, i: nat)
    requires i < n <= |a| && n <= |b| && a[..n] == b[..n]
    ensures ([x] + a[i + 1..])[..n - i] == ([x] + b[i + 1..])[..n - i]
  {
    assert ([x] + a[i + 1..])[..n - i] == [x] + a[..n][i + 1..];
    assert ([x] + b[i + 1..])[..n - i] == [x] + b[..n][i + 1..];
  }

  lemma StandsBeforeLaterUse(standing: Use, text: seq<string>, n: nat, back: seq<string>)
    requires Stands(standing, text)
    requires EndLine(text, standing.start, standing.end) < n <= |text| && |back| >= 2
    ensures Stands(standing, text[..n] + back)
  {
    hide FirstLine, Find, EndLine, Indent, BlockLines;
    var after := text[..n] + back;
    var i, j := FirstLine(text, standing.start), EndLine(text, standing.start, standing.end);
    assert after[..n] == text[..n];
    FoundAsBefore(standing, text, after, n);
    assert after[i..j + 1] == text[..n][i..j + 1] == text[i..j + 1];
    assert |after[j + 1..]| >= 2;
  }

  /** A use that keeps apart leaves a standing block standing. */
  lemma UseKeepsStanding(standing: Use, u: Use, text: string)
    requires Apply(u, text).Ok?
    requires Stands(standing, Split(text)) && Apart(standing, u, Split(text))
    ensures Stands(standing, Split(Apply(u, text).value))
  {
    hide Apply, Split, FirstLine, EndLine, BlockLines, Stands, SplitAll, Find, Indented, WithoutLoneEmpty, Clean;
    var all := Split(text);
    AfterUse(u, text);
    var i, j := FirstLine(all, u.start), EndLine(all, u.start, u.end);
    var block, rest := BlockLines(u, Indent(all, u.start)), all[j + 1..];
    var at := FirstLine(all, standing.start);
    BlockLinesAre(u, Indent(all, u.start));
    if j < at {
      FirstLineTake(all, standing.start, i);
      FirstLineConcat(all[..i], block, standing.start);
      NotLoneEmpty(rest, standing.start, at - j - 1);
      StandsAfterEarlierUse(standing, all, j + 1, all[..i] + block);
    } else {
      StandsBeforeLaterUse(standing, all, i, block + WithoutLoneEmpty(rest));
      assert all[..i] + block + WithoutLoneEmpty(rest) == all[..i] + (block + WithoutLoneEmpty(rest));
    }
  }

  lemma NotLoneEmpty(lines: seq<string>, m: string, k: nat)
    requires IsMarker(m) && k < |lines| && Find(lines[k], m) >= 0
    ensures WithoutLoneEmpty(lines) == lines
  {
    assert Find("", m) == -1;
  }

  /** Successive uses on one text, stopping at the first that fails. */
  function ApplyAll(uses: seq<Use>, text: string): Result<string> {
    if uses == [] then Ok(text)
    else
      match Apply(uses[0], text)
      case Ok(next) => ApplyAll(uses[1..], next)
      case Err(e) => Err(e)
  }

  /** Every use finds its markers, is clean where it comes to stand, and keeps apart from what stands already. */
  predicate Orderly(done: seq<Use>, todo: seq<Use>, text: string)
    decreases |todo|
  {
    todo == [] ||
    (var u := todo[0];
      && Apply(u, text).Ok?
      && FirstLine(Split(text), u.start) >= 0
      && Clean(u, Indent(Split(text), u.start))
      && (forall q | q in done :: Apart(q, u, Split(text)))
      && Orderly(done + [u], todo[1..], Apply(u, text).value))
  }

  lemma {:induction false} AllComeToStand(done: seq<Use>, todo: seq<Use>, text: string)
    requires Orderly(done, todo, text)
    requires forall q | q in done :: Stands(q, Split(text))
    ensures ApplyAll(todo, text).Ok?
    ensures forall q | q in done + todo :: Stands(q, Split(ApplyAll(todo, text).value))
    decreases |todo|
  {
    hide Apply, Stands, Apart, Split, Clean, FirstLine;
    if todo != [] {
      var u := todo[0];
      var next := Apply(u, text).value;
      CleanUseStands(u, text);
      forall q | q in done + [u] ensures Stands(q, Split(next)) {
        if q in done {
          UseKeepsStanding(q, u, text);
        }
      }
      AllComeToStand(done + [u], todo[1..], next);
      assert done + todo == done + [u] + todo[1..];
    }
  }

  lemma {:induction false} StandingUsesAreFixed(uses: seq<Use>, text: string)
    requires forall q | q in uses :: Stands(q, Split(text))
    ensures ApplyAll(uses, text) == Ok(text)
  {
    if uses != [] {
      StandingIsFixed(uses[0], text);
      StandingUsesAreFixed(uses[1..], text);
    }
  }

  /** Successive uses on one text: going through all of them once more changes nothing. */
  lemma SecondRoundChangesNothing(uses: seq<Use>, text: string)
    requires Orderly([], uses, text)
    ensures ApplyAll(uses, text).Ok?
    ensures ApplyAll(uses, ApplyAll(uses, text).value) == ApplyAll(uses, text)
  {
    AllComeToStand([], uses, text);
    assert [] + uses == uses;
    StandingUsesAreFixed(uses, ApplyAll(uses, text).value);
  }

  // ----- the condition on the first text alone -----

  /** The lines of two uses lie apart in a text. */
  predicate SideBySide(u: Use, v: Use, text: seq<string>) {
    EndLine(text, u.start, u.end) < FirstLine(text, v.start) || EndLine(text, v.start, v.end) < FirstLine(text, u.start)
  }

  /** What one use puts into a text does not hold the start marker of the other. */
  predicate Foreign(u: Use, v: Use, text: seq<string>) {
    FirstLine(text, u.start) >= 0 && FirstLine(BlockLines(u, Indent(text, u.start)), v.start) == -1
  }

  predicate Placed(u: Use, text: seq<string>) {
    EndLine(text, u.start, u.end) >= 0 && Clean(u, Indent(text, u.start))
  }

  /** Every use finds both its markers and is clean where it stands, and no two of them get in each other's way. */
  predicate Ready(uses: seq<Use>, text: seq<string>) {
    && (forall u | u in uses :: Placed(u, text))
    && (forall i, j | 0 <= i < |uses| && 0 <= j < |uses| && i != j ::
          SideBySide(uses[i], uses[j], text) && Foreign(uses[i], uses[j], text))
  }

  /** Where the lines of one use go when another, on lines i to j, changes the number of its lines. */
  ghost predicate Moved(v: Use, text: seq<string>, after: seq<string>, i: nat, j: nat, grown: int) {
    && EndLine(after, v.start, v.end) >= 0 && EndLine(text, v.start, v.end) >= 0
    && Indent(after, v.start) == Indent(text, v.start)
    && var shift := if EndLine(text, v.start, v.end) < i then 0 else grown;
      && FirstLine(after, v.start) == FirstLine(text, v.start) + shift
      && EndLine(after, v.start, v.end) == EndLine(text, v.start, v.end) + shift
  }

  lemma SameTail(u: Use, a: seq<string>, b: seq<string>)
    requires EndLine(a, u.start, u.end) >= 0 && FirstLine(b, u.start) >= 0
    requires a[FirstLine(a, u.start)..] == b[FirstLine(b, u.start)..]
    ensures Indent(a, u.start) == Indent(b, u.start)
    ensures EndLine(b, u.start, u.end) - FirstLine(b, u.start) == EndLine(a, u.start, u.end) - FirstLine(a, u.start)
  {
    hide FirstLine, Find;
    var i, i' := FirstLine(a, u.start), FirstLine(b, u.start);
    assert a[i] == a[i..][0] && b[i'] == b[i'..][0];
    assert a[i + 1..] == a[i..][1..] == b[i'..][1..] == b[i' + 1..];
  }

  lemma MovesBefore(v: Use, text: seq<string>, after: seq<string>, i: nat, j: nat, grown: int)
    requires 0 <= EndLine(text, v.start, v.end) < i <= |text| && i <= |after| && text[..i] == after[..i]
    ensures Moved(v, text, after, i, j, grown)
  {
    hide FirstLine, EndLine, Indent;
    FoundAsBefore(v, text, after, i);
  }

  lemma MovesTo(v: Use, text: seq<string>, after: seq<string>, i: nat, j: nat, grown: int)
    requires EndLine(text, v.start, v.end) >= i && FirstLine(text, v.start) + grown == FirstLine(after, v.start) >= 0
    requires after[FirstLine(after, v.start)..] == text[FirstLine(text, v.start)..]
    ensures Moved(v, text, after, i, j, grown)
  {
    hide FirstLine, EndLine, Indent, Find;
    SameTail(v, text, after);
  }

  lemma MovesAfter(v: Use, text: seq<string>, front: seq<string>, after: seq<string>, i: nat, j: nat, at: nat)
    requires FirstLine(text, v.start) == at && EndLine(text, v.start, v.end) >= i && i <= j < at <= |text|
    requires FirstLine(front, v.start) == -1 && after == front + text[j + 1..]
    ensures Moved(v, text, after, i, j, |front| - (j + 1))
  {
    hide FirstLine, EndLine, Indent, Find, Moved;
    FoundAfter(v.start, text, front, j + 1);
    SuffixAfter(text, front, after, j + 1, at);
    MovesTo(v, text, after, i, j, |front| - (j + 1));
  }

  lemma SuffixAfter<T>(text: seq<T>, front: seq<T>, after: seq<T>, n: nat, at: nat)
    requires n <= at <= |text| && after == front + text[n..]
    ensures |front| + at - n <= |after| && after[|front| + at - n..] == text[at..]
  {
    SameFromThere(text, front, n, at);
  }

  lemma FoundAfter(m: string, text: seq<string>, front: seq<string>, n: nat)
    requires n <= |text| && n <= FirstLine(text, m) && FirstLine(front, m) == -1
    ensures FirstLine(front + text[n..], m) == FirstLine(text, m) - n + |front|
  {
    hide FirstLine;
    FirstLineTake(text, m, n);
    FirstLineConcat(front, text[n..], m);
  }

  lemma SameFromThere<T>(text: seq<T>, front: seq<T>, n: nat, at: nat)
    requires n <= at <= |text|
    ensures (front + text[n..])[|front| + at - n..] == text[at..]
  {
  }

  /** A use moves the lines of another by as many lines as its own block grew, or not at all. */
  lemma OtherMoves(u: Use, v: Use, text: string)
    requires Placed(u, Split(text)) && Placed(v, Split(text))
    requires SideBySide(u, v, Split(text)) && Foreign(u, v, Split(text))
    ensures Apply(u, text).Ok?
    ensures var all := Split(text);
      var i, j := FirstLine(all, u.start), EndLine(all, u.start, u.end);
      Moved(v, all, Split(Apply(u, text).value), i, j, |BlockLines(u, Indent(all, u.start))| - (j + 1 - i))
  {
    hide Apply, Split, FirstLine, EndLine, Clean, Find, BlockLines, Indent, WithoutLoneEmpty, Moved;
    var all := Split(text);
    UseByLines(u, text);
    var i, j := FirstLine(all, u.start), EndLine(all, u.start, u.end);
    var block, rest := BlockLines(u, Indent(all, u.start)), all[j + 1..];
    var after := Split(Apply(u, text).value);
    if EndLine(all, v.start, v.end) < i {
      assert after[..i] == all[..i];
      MovesBefore(v, all, after, i, j, |block| - (j + 1 - i));
    } else {
      var at := FirstLine(all, v.start);
      FirstLineTake(all, v.start, i);
      FirstLineConcat(all[..i], block, v.start);
      NotLoneEmpty(rest, v.start, at - j - 1);
      MovesAfter(v, all, all[..i] + block, after, i, j, at);
    }
  }

  lemma SelfMoves(u: Use, text: string)
    requires Placed(u, Split(text))
    ensures Apply(u, text).Ok?
    ensures var all, after := Split(text), Split(Apply(u, text).value);
      && FirstLine(after, u.start) == FirstLine(all, u.start) && Indent(after, u.start) == Indent(all, u.start)
      && EndLine(after, u.start, u.end) == FirstLine(all, u.start) + |BlockLines(u, Indent(all, u.start))| - 1
      && SameIndent(u, all, after)
  {
    hide Apply, Split, FirstLine, EndLine, Clean, Find, BlockLines, Indent;
    UseByLines(u, text);
    AfterUse(u, text);
  }

  /** Two uses that another one moves stay side by side; so does that other one. */
  lemma MovedStayApart(u: Use, v: Use, w: Use, text: seq<string>, after: seq<string>, i: nat, j: nat, grown: int)
    requires Moved(v, text, after, i, j, grown) && Moved(w, text, after, i, j, grown)
    requires SideBySide(v, w, text) && SideBySide(u, v, text) && SideBySide(u, w, text)
    requires FirstLine(text, u.start) == i <= j == EndLine(text, u.start, u.end)
    requires j + grown >= i - 1
    ensures SideBySide(v, w, after)
  {
    hide FirstLine, EndLine, Indent;
  }

  lemma SelfStaysApart(u: Use, v: Use, text: seq<string>, after: seq<string>, i: nat, j: nat, grown: int)
    requires Moved(v, text, after, i, j, grown) && SideBySide(u, v, text)
    requires FirstLine(text, u.start) == i <= j == EndLine(text, u.start, u.end)
    requires FirstLine(after, u.start) == i && EndLine(after, u.start, u.end) == j + grown
    ensures SideBySide(u, v, after) && SideBySide(v, u, after)
  {
    hide FirstLine, EndLine, Indent;
  }

  lemma PlacedAfter(v: Use, text: seq<string>, after: seq<string>)
    requires Placed(v, text) && SameIndent(v, text, after)
    ensures Placed(v, after)
  {
    hide FirstLine, EndLine, Indent, Clean;
  }

  lemma ForeignAfter(v: Use, w: Use, text: seq<string>, after: seq<string>)
    requires Foreign(v, w, text) && SameIndent(v, text, after)
    ensures Foreign(v, w, after)
  {
    hide FirstLine, EndLine, Indent, BlockLines;
  }

  lemma ReadyStays(uses: seq<Use>, k: nat, text: string)
    requires k < |uses| && Ready(uses, Split(text))
    ensures Apply(uses[k], text).Ok? && Ready(uses, Split(Apply(uses[k], text).value))
  {
    hide Apply, Split, FirstLine, EndLine, Clean, Find, BlockLines, Indent, Foreign, SideBySide, Placed, Moved,
      SameIndent;
    var u, all := uses[k], Split(text);
    assert u in uses;
    SelfMoves(u, text);
    var after := Split(Apply(u, text).value);
    PlacedIsFound(u, all);
    assert SameIndent(u, all, after);
    var i0, j0 := FirstLine(all, u.start), EndLine(all, u.start, u.end);
    var grown := |BlockLines(u, Indent(all, u.start))| - (j0 + 1 - i0);
    forall i | 0 <= i < |uses| && i != k
      ensures Moved(uses[i], all, after, i0, j0, grown) && SideBySide(u, uses[i], all)
      ensures SameIndent(uses[i], all, after)
    {
      assert uses[i] in uses;
      assert SideBySide(uses[k], uses[i], all) && Foreign(uses[k], uses[i], all);
      OtherMoves(u, uses[i], text);
      MovedKeepsIndent(uses[i], all, after, i0, j0, grown);
    }
    forall i | 0 <= i < |uses| ensures Placed(uses[i], after) {
      assert uses[i] in uses && SameIndent(uses[i], all, after);
      PlacedAfter(uses[i], all, after);
    }
    forall i, j | 0 <= i < |uses| && 0 <= j < |uses| && i != j
      ensures SideBySide(uses[i], uses[j], after) && Foreign(uses[i], uses[j], after)
    {
      assert SideBySide(uses[i], uses[j], all) && Foreign(uses[i], uses[j], all);
      assert SameIndent(uses[i], all, after);
      ForeignAfter(uses[i], uses[j], all, after);
      if i == k {
        SelfStaysApart(u, uses[j], all, after, i0, j0, grown);
      } else if j == k {
        SelfStaysApart(u, uses[i], all, after, i0, j0, grown);
      } else {
        MovedStayApart(u, uses[i], uses[j], all, after, i0, j0, grown);
      }
    }
  }

  lemma PlacedIsFound(u: Use, text: seq<string>)
    requires Placed(u, text)
    ensures 0 <= FirstLine(text, u.start) <= EndLine(text, u.start, u.end)
  {
    hide FirstLine, EndLine, Clean;
  }

  ghost predicate SameIndent(v: Use, text: seq<string>, after: seq<string>) {
    && EndLine(after, v.start, v.end) >= 0 && EndLine(text, v.start, v.end) >= 0
    && Indent(after, v.start) == Indent(text, v.start)
  }

  lemma MovedKeepsIndent(v: Use, text: seq<string>, after: seq<string>, i: nat, j: nat, grown: int)
    requires Moved(v, text, after, i, j, grown)
    ensures SameIndent(v, text, after)
  {
    hide FirstLine, EndLine, Indent;
  }

  lemma {:induction false} ReadyIsOrderly(done: seq<Use>, todo: seq<Use>, text: string)
    requires Ready(done + todo, Split(text))
    ensures Orderly(done, todo, text)
    decreases |todo|
  {
    hide Apply, Split, FirstLine, EndLine, Clean, BlockLines, Indent;
    if todo != [] {
      var u, k, uses := todo[0], |done|, done + todo;
      assert uses[k] == u && u in uses;
      ReadyStays(uses, k, text);
      forall q | q in done ensures Apart(q, u, Split(text)) {
        var i :| 0 <= i < |done| && done[i] == q;
        assert uses[i] == q;
        assert SideBySide(uses[k], uses[i], Split(text)) && Foreign(uses[k], uses[i], Split(text));
      }
      assert done + [u] + todo[1..] == uses;
      ReadyIsOrderly(done + [u], todo[1..], Apply(u, text).value);
    }
  }

  /** Successive uses that are ready in the first text: all succeed, and going through them once more changes
    * nothing. */
  lemma ReadyUsesSettle(uses: seq<Use>, text: string)
    requires Ready(uses, Split(text))
    ensures ApplyAll(uses, text).Ok?
    ensures ApplyAll(uses, ApplyAll(uses, text).value) == ApplyAll(uses, text)
  {
    hide Ready, Orderly, ApplyAll, Split;
    assert [] + uses == uses;
    ReadyIsOrderly([], uses, text);
    SecondRoundChangesNothing(uses, text);
  }
}
