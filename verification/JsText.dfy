/** The few pieces of JavaScript text and collection behaviour that several modules share. */
module JsText {

  datatype Option<+T> = None | Some(value: T)

  /** The characters `String.prototype.trim` removes: white space and line terminators. */
  predicate IsSpace(c: char) {
    || c == ' ' || ('\t' <= c <= '\r') || c == '\U{00A0}' || c == '\U{1680}'
    || ('\U{2000}' <= c <= '\U{200A}') || c == '\U{2028}' || c == '\U{2029}'
    || c == '\U{202F}' || c == '\U{205F}' || c == '\U{3000}' || c == '\U{FEFF}'
  }

  function TrimStart(s: string): (r: string)
    ensures r == "" || !IsSpace(r[0])
  {
    if s != "" && IsSpace(s[0]) then TrimStart(s[1..]) else s
  }

  function TrimEnd(s: string): (r: string)
    ensures r == "" || !IsSpace(r[|r| - 1])
    ensures r <= s
  {
    if s != "" && IsSpace(s[|s| - 1]) then TrimEnd(s[..|s| - 1]) else s
  }

  function Trim(s: string): string {
    TrimEnd(TrimStart(s))
  }

  /** `!s.trim()` in the source. */
  predicate IsBlank(s: string) {
    forall i | 0 <= i < |s| :: IsSpace(s[i])
  }

  /** Trimming is the identity exactly on texts with no white space at either end. */
  predicate Trimmed(s: string) {
    s == "" || (!IsSpace(s[0]) && !IsSpace(s[|s| - 1]))
  }

  lemma TrimFixesTrimmed(s: string)
    ensures Trim(s) == s <==> Trimmed(s)
  {
    if Trim(s) == s && s != "" {
      TrimStartSuffix(s);
    }
  }

  lemma {:induction false} TrimStartSuffix(s: string)
    ensures |TrimStart(s)| <= |s| && TrimStart(s) == s[|s| - |TrimStart(s)|..]
  {
    if s != "" && IsSpace(s[0]) {
      TrimStartSuffix(s[1..]);
    }
  }

  lemma {:induction false} TrimBlank(s: string)
    ensures Trim(s) == "" <==> IsBlank(s)
  {
    if s == "" {
    } else if IsSpace(s[0]) {
      TrimBlank(s[1..]);
      assert IsBlank(s) <==> IsBlank(s[1..]) by {
        assert s == [s[0]] + s[1..];
      }
    } else {
      TrimEndKeeps(s);
    }
  }

  lemma {:induction false} TrimEndKeeps(s: string)
    requires s != "" && !IsSpace(s[0])
    ensures TrimEnd(s) != ""
  {
    if IsSpace(s[|s| - 1]) {
      TrimEndKeeps(s[..|s| - 1]);
    }
  }

  /** Trimming takes off white space and nothing else. */
  lemma TrimTakesBlanks(s: string)
    ensures exists a, b :: s == a + Trim(s) + b && IsBlank(a) && IsBlank(b)
  {
    var a := TrimStartTakes(s);
    var b := TrimEndTakes(TrimStart(s));
    assert s == a + Trim(s) + b;
  }

  lemma {:induction false} TrimStartTakes(s: string) returns (a: string)
    ensures s == a + TrimStart(s) && IsBlank(a)
  {
    a := "";
    if s != "" && IsSpace(s[0]) {
      var rest := TrimStartTakes(s[1..]);
      a := [s[0]] + rest;
    }
  }

  lemma {:induction false} TrimEndTakes(s: string) returns (b: string)
    ensures s == TrimEnd(s) + b && IsBlank(b)
  {
    b := "";
    if s != "" && IsSpace(s[|s| - 1]) {
      var rest := TrimEndTakes(s[..|s| - 1]);
      b := rest + [s[|s| - 1]];
    }
  }

  /** A word that begins and ends without white space comes out of any white space around it. */
  lemma TrimUncovers(a: string, word: string, b: string)
    requires IsBlank(a) && IsBlank(b) && word != "" && !IsSpace(word[0]) && !IsSpace(word[|word| - 1])
    ensures Trim(a + word + b) == word
  {
    TrimStartPasses(a, word + b);
    assert a + word + b == a + (word + b);
    TrimEndPasses(word, b);
  }

  lemma {:induction false} TrimStartPasses(a: string, rest: string)
    requires IsBlank(a) && rest != "" && !IsSpace(rest[0])
    ensures TrimStart(a + rest) == rest
  {
    if a == "" {
      assert a + rest == rest;
    } else {
      assert (a + rest)[1..] == a[1..] + rest;
      TrimStartPasses(a[1..], rest);
    }
  }

  lemma {:induction false} TrimEndPasses(word: string, b: string)
    requires IsBlank(b) && word != "" && !IsSpace(word[|word| - 1])
    ensures TrimEnd(word + b) == word
  {
    if b == "" {
      assert word + b == word;
    } else {
      assert (word + b)[..|word + b| - 1] == word + b[..|b| - 1];
      TrimEndPasses(word, b[..|b| - 1]);
    }
  }

  /** `haystack.includes(needle)`. */
  predicate Includes(haystack: string, needle: string) {
    needle <= haystack || (haystack != "" && Includes(haystack[1..], needle))
  }

  ghost predicate Holds(text: string, part: string) {
    exists a, b :: text == a + part + b
  }

  lemma {:induction false} IncludesHolds(text: string, part: string)
    ensures Includes(text, part) <==> Holds(text, part)
  {
    if part <= text {
      assert text == "" + part + text[|part|..];
    } else {
      if text != "" {
        IncludesHolds(text[1..], part);
        if a, b :| text[1..] == a + part + b {
          assert text == ([text[0]] + a) + part + b;
        }
      }
      if a, b :| text == a + part + b {
        assert a == "" ==> part <= text;
        assert text[1..] == a[1..] + part + b;
      }
    }
  }

  /** `toLowerCase` on the ASCII letters, which is all the callers look for. */
  function ToLowerCase(s: string): string {
    seq(|s|, i requires 0 <= i < |s| => if 'A' <= s[i] <= 'Z' then s[i] - 'A' + 'a' else s[i])
  }
}
