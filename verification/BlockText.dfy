/** What a use of a marker block writes, spelt out: which lines stand between the markers, and what becomes of the text
  * around them. */
module BlockText {
  import opened JsText
  import opened Separated
  import opened MarkerBlock

  // ----- the text -----

  ghost predicate StandsAt(text: string, m: string, k: nat) {
    k + |m| <= |text| && text[k..k + |m|] == m
  }

  /** The first place at or after `from`. */
  ghost predicate FirstAt(text: string, m: string, from: nat, k: nat) {
    from <= k && StandsAt(text, m, k) && forall k' | from <= k' < k :: !StandsAt(text, m, k')
  }

  /** Where the line of position `k` begins. */
  ghost predicate LineFrom(text: string, a: nat, k: nat) {
    && a <= k <= |text| && (forall n | a <= n < k :: text[n] != '\n')
    && (a == 0 || text[a - 1] == '\n')
  }

  /** Where the line of position `k` ends, its line feed included. */
  ghost predicate LineTo(text: string, k: nat, z: nat) {
    && k <= z <= |text| && (forall n | k <= n < z - 1 :: text[n] != '\n')
    && (z == |text| || (k < z && text[z - 1] == '\n'))
  }

  /** The lines behind the indent, each closed by a line feed. */
  ghost function Behind(indent: string, lines: seq<string>): string {
    if lines == [] then "" else indent + lines[0] + "\n" + Behind(indent, lines[1..])
  }

  lemma {:induction false} IndexOfIsFirst(text: string, m: string, from: nat)
    ensures var i := IndexOf(text, m, from);
      if i == -1 then forall k: nat | from <= k :: !StandsAt(text, m, k) else FirstAt(text, m, from, i)
    decreases |text| - from
  {
    if from + |m| <= |text| && text[from..from + |m|] != m {
      IndexOfIsFirst(text, m, from + 1);
    }
  }

  lemma {:induction false} LastNewlineStarts(text: string, from: int, k: nat)
    requires -1 <= from < k <= |text| && forall n | from < n < k :: text[n] != '\n'
    ensures LineFrom(text, LastNewline(text, from) + 1, k)
  {
    if from >= 0 && text[from] != '\n' {
      LastNewlineStarts(text, from - 1, k);
    }
  }

  lemma FeedEnds(text: string, k: nat, z: nat)
    requires LineTo(text, k, z)
    ensures var feed := IndexOf(text, "\n", k); z == if feed == -1 then |text| else feed + 1
  {
    IndexOfIsFirst(text, "\n", k);
    forall n: nat | n < |text| ensures StandsAt(text, "\n", n) <==> text[n] == '\n' {
      assert text[n..n + 1] == [text[n]];
    }
    var feed := IndexOf(text, "\n", k);
    assert feed >= 0 ==> StandsAt(text, "\n", feed);
    assert k < z && text[z - 1] == '\n' ==> StandsAt(text, "\n", z - 1);
  }

  lemma FourParts(a: string, b: string, c: string, d: string)
    ensures a + (b + (c + d)) == a + b + c + d && a + b + c == a + (b + c)
  {
  }

  lemma IndentedCons(indent: string, lines: seq<string>)
    requires lines != []
    ensures Indented(indent, lines) == [indent + lines[0]] + Indented(indent, lines[1..])
  {
  }

  lemma {:induction false} JoinBehind(indent: string, lines: seq<string>, last: string)
    ensures Join(Indented(indent, lines) + [last]) == Behind(indent, lines) + last
  {
    hide Join, Indented;
    if lines == [] {
      assert Indented(indent, lines) == [] by { IndentedNone(indent); }
      assert [] + [last] == [last] && Join([last]) == last by { JoinOne(last); }
    } else {
      var others := Indented(indent, lines[1..]) + [last];
      IndentedCons(indent, lines);
      JoinBehind(indent, lines[1..], last);
      assert Indented(indent, lines) + [last] == [indent + lines[0]] + others;
      JoinCons(indent + lines[0], others);
      FourParts(indent + lines[0], "\n", Behind(indent, lines[1..]), last);
    }
  }

  lemma IndentedNone(indent: string)
    ensures Indented(indent, []) == []
  {
  }

  lemma JoinOne(line: string)
    ensures Join([line]) == line
  {
  }

  lemma BlockJoined(u: Use, indent: string)
    ensures Join(Block(indent, u.start, u.end, u.lines))
         == indent + u.start + "\n" + Behind(indent, u.lines) + indent + u.end
  {
    hide Join, Behind, Indented;
    var last, others := indent + u.end, Indented(indent, u.lines) + [indent + u.end];
    assert Block(indent, u.start, u.end, u.lines) == [indent + u.start] + others;
    JoinBehind(indent, u.lines, last);
    JoinCons(indent + u.start, others);
    FourParts(indent + u.start, "\n", Behind(indent, u.lines), last);
    FourParts(indent + u.start + "\n" + Behind(indent, u.lines), indent, u.end, "");
  }

  /** The places a use works on: the first start marker, the first end marker from there on, the start of the former's
    * line and the end of the latter's. */
  ghost predicate Places(u: Use, text: string, a: nat, k: nat, e: nat, z: nat) {
    FirstAt(text, u.start, 0, k) && FirstAt(text, u.end, k, e) && LineFrom(text, a, k) && LineTo(text, e, z)
  }

  /** What a use makes of a text. What stands before the start marker on its line is put before every line; the lines
    * keep their order; everything before that line and after the end marker's line stays. */
  lemma TextAfterUse(u: Use, text: string, a: nat, k: nat, e: nat, z: nat)
    requires Places(u, text, a, k, e, z)
    ensures var indent := text[a..k];
      Apply(u, text) == Ok(
        text[..a] + (indent + u.start + "\n" + Behind(indent, u.lines) + indent + u.end)
        + if z == |text| then "" else "\n" + text[z..])
  {
    hide Join, Block, Behind, IndexOf, LastNewline, LineTo, LineFrom, StandsAt, Apply;
    FoundPlaces(u, text, k, e);
    StartOfLine(u, text, a, k);
    FeedEnds(text, e, z);
    LineWithin(text, e, z);
    AppliedAt(u, text, a, k, e, z);
    BlockJoined(u, text[a..k]);
    var block := text[a..k] + u.start + "\n" + Behind(text[a..k], u.lines) + text[a..k] + u.end;
    if z == |text| {
      assert text[..a] + block + "" == text[..a] + block;
    } else {
      assert text[..a] + block + ("\n" + text[z..]) == text[..a] + block + "\n" + text[z..];
    }
  }

  lemma LineWithin(text: string, e: nat, z: nat)
    requires LineTo(text, e, z)
    ensures e <= z <= |text|
  {
  }

  lemma AppliedAt(u: Use, text: string, a: nat, k: nat, e: nat, z: nat)
    requires IndexOf(text, u.start, 0) == k && IndexOf(text, u.end, k) == e
    requires a <= k < |text| && LastNewline(text, k) + 1 == a && e <= z <= |text|
    requires IndexOf(text, "\n", e) == -1 ==> z == |text|
    requires IndexOf(text, "\n", e) >= 0 ==> z == IndexOf(text, "\n", e) + 1
    ensures var block := Join(Block(text[a..k], u.start, u.end, u.lines));
      Apply(u, text) == Ok(if z == |text| then text[..a] + block else text[..a] + block + "\n" + text[z..])
  {
    hide Join, Block, IndexOf, LastNewline;
    assert text[z..|text|] == text[z..] && (text[z..] == "" <==> z == |text|);
  }

  lemma FoundPlaces(u: Use, text: string, k: nat, e: nat)
    requires FirstAt(text, u.start, 0, k) && FirstAt(text, u.end, k, e)
    ensures IndexOf(text, u.start, 0) == k && IndexOf(text, u.end, k) == e
  {
    IndexOfIsFirst(text, u.start, 0);
    IndexOfIsFirst(text, u.end, k);
    assert StandsAt(text, u.start, k) && StandsAt(text, u.end, e);
    var i, j := IndexOf(text, u.start, 0), IndexOf(text, u.end, k);
    assert StandsAt(text, u.start, i) && StandsAt(text, u.end, j);
  }

  lemma StartOfLine(u: Use, text: string, a: nat, k: nat)
    requires LineFrom(text, a, k) && StandsAt(text, u.start, k)
    ensures a <= k < |text| && LastNewline(text, k) + 1 == a
  {
    assert text[k..k + |u.start|][0] == u.start[0] && u.start[0] in u.start;
    LastNewlineStarts(text, k - 1, k);
  }

  /** Without such places the use fails, and says which marker is missing. */
  lemma FailsWithoutPlaces(u: Use, text: string)
    ensures Apply(u, text) == Err(MissingStart) <==> forall k: nat :: !StandsAt(text, u.start, k)
    ensures Apply(u, text) == Err(MissingEnd) <==>
      exists k: nat :: FirstAt(text, u.start, 0, k) && forall e: nat | k <= e :: !StandsAt(text, u.end, e)
  {
    hide Join, Block, LastNewline;
    IndexOfIsFirst(text, u.start, 0);
    var k := IndexOf(text, u.start, 0);
    if k >= 0 {
      assert StandsAt(text, u.start, k);
      IndexOfIsFirst(text, u.end, k);
      forall k': nat | FirstAt(text, u.start, 0, k') ensures k' == k {
        assert StandsAt(text, u.start, k');
      }
      var e := IndexOf(text, u.end, k);
      assert e >= 0 ==> StandsAt(text, u.end, e);
    }
  }

  // ----- the lines -----

  /** What the replacement lines become; one that holds line feeds becomes several. */
  ghost function LinesBehind(indent: string, lines: seq<string>): seq<string> {
    if lines == [] then [] else Split(indent + lines[0]) + LinesBehind(indent, lines[1..])
  }

  lemma {:induction false} IndentedLines(indent: string, lines: seq<string>)
    ensures SplitAll(Indented(indent, lines)) == LinesBehind(indent, lines)
  {
    if lines != [] {
      IndentedLines(indent, lines[1..]);
      IndentedCons(indent, lines);
    }
  }

  lemma {:induction false} FeedFreeLines(indent: string, lines: seq<string>)
    requires '\n' !in indent && forall l | l in lines :: '\n' !in l
    ensures |LinesBehind(indent, lines)| == |lines|
    ensures forall n | 0 <= n < |lines| :: LinesBehind(indent, lines)[n] == indent + lines[n]
  {
    if lines != [] {
      assert lines[0] in lines && forall l | l in lines[1..] :: l in lines;
      SplitLine(indent + lines[0], "");
      FeedFreeLines(indent, lines[1..]);
    }
  }

  /** The lines of the result around and between the markers. */
  lemma BlockStands(u: Use, text: string)
    requires Apply(u, text).Ok?
    ensures var all, r := Split(text), Split(Apply(u, text).value);
      var i, j := FirstLine(all, u.start), EndLine(all, u.start, u.end);
      && 0 <= i <= j
      && var indent, middle := all[i][..Find(all[i], u.start)], LinesBehind(Indent(all, u.start), u.lines);
      && r == all[..i] + [indent + u.start] + middle + [indent + u.end]
                + (if all[j + 1..] == [""] then [] else all[j + 1..])
      && ((forall l | l in u.lines :: '\n' !in l) ==>
            && |middle| == |u.lines| && r[i] == indent + u.start && r[i + 1 + |u.lines|] == indent + u.end
            && forall n | 0 <= n < |u.lines| :: r[i + 1 + n] == indent + u.lines[n])
  {
    hide Split, FirstLine, EndLine, Find, Apply, LinesBehind;
    var all := Split(text);
    var i, j := FirstLine(all, u.start), EndLine(all, u.start, u.end);
    UseByLines(u, text);
    SplitNoFeeds(text);
    IndentNoFeed(all, u.start);
    var indent := Indent(all, u.start);
    BlockLinesAre(u, indent);
    IndentedLines(indent, u.lines);
    var middle := LinesBehind(indent, u.lines);
    assert Split(Apply(u, text).value) == all[..i] + [indent + u.start] + middle + [indent + u.end]
      + (if all[j + 1..] == [""] then [] else all[j + 1..]);
    if forall l | l in u.lines :: '\n' !in l {
      FeedFreeLines(indent, u.lines);
    }
  }
}
