/** `split` and `join` on a one-character separator. */
module Separated {

  function SplitAt(text: string, sep: char): (parts: seq<string>)
    ensures parts != []
  {
    if text == "" then [""]
    else
      var rest := SplitAt(text[1..], sep);
      if text[0] == sep then [""] + rest else [[text[0]] + rest[0]] + rest[1..]
  }

  function JoinWith(parts: seq<string>, sep: char): string {
    if parts == [] then "" else if |parts| == 1 then parts[0] else parts[0] + [sep] + JoinWith(parts[1..], sep)
  }

  /** No part holds the separator. */
  ghost predicate Unseparated(parts: seq<string>, sep: char) {
    parts == [] || (sep !in parts[0] && Unseparated(parts[1..], sep))
  }

  lemma {:induction false} UnseparatedAt(parts: seq<string>, sep: char, i: nat)
    requires Unseparated(parts, sep) && i < |parts|
    ensures sep !in parts[i] && Unseparated(parts[i + 1..], sep)
  {
    if i > 0 {
      UnseparatedAt(parts[1..], sep, i - 1);
      assert parts[1..][i - 1 + 1..] == parts[i + 1..];
    }
  }

  lemma {:induction false} UnseparatedParts(parts: seq<string>, sep: char)
    ensures Unseparated(parts, sep) <==> forall p | p in parts :: sep !in p
  {
    if parts != [] {
      UnseparatedParts(parts[1..], sep);
      assert parts == [parts[0]] + parts[1..];
    }
  }

  lemma {:induction false} SplitUnseparated(text: string, sep: char)
    ensures Unseparated(SplitAt(text, sep), sep)
  {
    if text != "" {
      SplitUnseparated(text[1..], sep);
      var rest, parts := SplitAt(text[1..], sep), SplitAt(text, sep);
      if text[0] == sep {
        assert parts[1..] == rest;
      } else {
        assert parts[1..] == rest[1..];
      }
    }
  }

  lemma JoinWithCons(part: string, rest: seq<string>, sep: char)
    ensures JoinWith([part] + rest, sep) == if rest == [] then part else part + [sep] + JoinWith(rest, sep)
  {
    assert ([part] + rest)[1..] == rest;
  }

  /** Joining undoes splitting. */
  lemma {:induction false} JoinUndoesSplit(text: string, sep: char)
    ensures JoinWith(SplitAt(text, sep), sep) == text
  {
    if text != "" {
      var rest := SplitAt(text[1..], sep);
      JoinUndoesSplit(text[1..], sep);
      assert rest == [rest[0]] + rest[1..];
      JoinWithCons(rest[0], rest[1..], sep);
      if text[0] == sep {
        JoinWithCons("", rest, sep);
      } else {
        JoinWithCons([text[0]] + rest[0], rest[1..], sep);
      }
    }
  }

  lemma SplitStep(text: string, sep: char)
    requires text != ""
    ensures var rest := SplitAt(text[1..], sep);
      SplitAt(text, sep) == if text[0] == sep then [""] + rest else [[text[0]] + rest[0]] + rest[1..]
  {
  }

  lemma Regroup(a: seq<string>, b: seq<string>, start: string)
    requires a != []
    ensures [start + (a + b)[0]] + (a + b)[1..] == [start + a[0]] + a[1..] + b
    ensures [""] + (a + b) == [""] + a + b
  {
  }

  /** Splitting a text at one of its separators splits its list of parts. */
  lemma {:induction false} SplitConcat(a: string, b: string, sep: char)
    ensures SplitAt(a + [sep] + b, sep) == SplitAt(a, sep) + SplitAt(b, sep)
  {
    var whole := a + [sep] + b;
    if a == "" {
      assert whole[1..] == b;
    } else {
      SplitConcat(a[1..], b, sep);
      assert whole[1..] == a[1..] + [sep] + b;
      SplitStep(whole, sep);
      SplitStep(a, sep);
      Regroup(SplitAt(a[1..], sep), SplitAt(b, sep), [a[0]]);
    }
  }

  lemma {:induction false} SplitPart(part: string, sep: char)
    requires sep !in part
    ensures SplitAt(part, sep) == [part]
  {
    if part != "" {
      assert part[0] in part;
      SplitPart(part[1..], sep);
      assert [part[0]] + part[1..] == part;
    }
  }

  /** Splitting undoes joining when no part holds the separator. */
  lemma {:induction false} SplitUndoesJoin(parts: seq<string>, sep: char)
    requires parts != [] && Unseparated(parts, sep)
    ensures SplitAt(JoinWith(parts, sep), sep) == parts
  {
    SplitPart(parts[0], sep);
    if |parts| > 1 {
      SplitUndoesJoin(parts[1..], sep);
      SplitConcat(parts[0], JoinWith(parts[1..], sep), sep);
    }
  }

  // ----- joining keeps lengths -----

  ghost function Total(parts: seq<string>): nat {
    if parts == [] then 0 else |parts[0]| + Total(parts[1..])
  }

  lemma {:induction false} JoinLength(parts: seq<string>, sep: char)
    requires parts != []
    ensures |JoinWith(parts, sep)| == Total(parts) + |parts| - 1
  {
    if |parts| > 1 {
      JoinLength(parts[1..], sep);
    }
  }

  lemma {:induction false} TotalSnoc(parts: seq<string>, last: string)
    ensures Total(parts + [last]) == Total(parts) + |last|
  {
    if parts != [] {
      assert (parts + [last])[1..] == parts[1..] + [last];
      TotalSnoc(parts[1..], last);
    }
  }

  lemma {:induction false} JoinSnoc(parts: seq<string>, last: string, sep: char)
    requires parts != []
    ensures JoinWith(parts + [last], sep) == JoinWith(parts, sep) + [sep] + last
  {
    if |parts| == 1 {
      assert (parts + [last])[1..] == [last];
    } else {
      assert (parts + [last])[1..] == parts[1..] + [last];
      JoinSnoc(parts[1..], last, sep);
    }
  }
}
