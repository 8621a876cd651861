/** Keeping and mapping some of the elements of a list, and what reordering the list does to the result. */
module Lists {
  import opened JsText

  lemma AppendAssoc<T>(a: seq<T>, b: seq<T>, c: seq<T>)
    ensures a + (b + c) == a + b + c
  {
  }

  function FilterMap<A, B>(s: seq<A>, f: A -> Option<B>): seq<B> {
    if s == [] then []
    else FilterMap(s[..|s| - 1], f) + if f(s[|s| - 1]).Some? then [f(s[|s| - 1]).value] else []
  }

  lemma FilterMapStep<A, B>(s: seq<A>, i: nat, f: A -> Option<B>)
    requires i < |s|
    ensures FilterMap(s[..i + 1], f) == FilterMap(s[..i], f) + if f(s[i]).Some? then [f(s[i]).value] else []
  {
    assert s[..i + 1][..i] == s[..i];
  }

  lemma {:induction false} FilterMapConcat<A, B>(a: seq<A>, b: seq<A>, f: A -> Option<B>)
    ensures FilterMap(a + b, f) == FilterMap(a, f) + FilterMap(b, f)
  {
    if b == [] {
      assert a + b == a;
    } else {
      FilterMapConcat(a, b[..|b| - 1], f);
      assert (a + b)[..|a + b| - 1] == a + b[..|b| - 1];
    }
  }

  lemma {:induction false} FilterMapMembers<A, B>(s: seq<A>, f: A -> Option<B>, y: B)
    ensures y in FilterMap(s, f) <==> exists i | 0 <= i < |s| :: f(s[i]) == Some(y)
  {
    if s != [] {
      var front, last := s[..|s| - 1], s[|s| - 1];
      FilterMapMembers(front, f, y);
      assert s == front + [last];
      if i :| 0 <= i < |s| && f(s[i]) == Some(y) {
        assert i < |front| ==> front[i] == s[i];
      }
      if y in FilterMap(front, f) {
        var i :| 0 <= i < |front| && f(front[i]) == Some(y);
        assert s[i] == front[i];
      }
    }
  }

  lemma Without<T>(s: seq<T>, i: nat)
    requires i < |s|
    ensures multiset(s[..i] + s[i + 1..]) == multiset(s) - multiset{s[i]}
  {
    assert s == s[..i] + [s[i]] + s[i + 1..];
    assert multiset(s) == multiset(s[..i] + s[i + 1..]) + multiset{s[i]};
  }

  lemma MiddleOut<T>(a: seq<T>, b: seq<T>, c: seq<T>)
    ensures multiset(a + (b + c)) == multiset(a + c) + multiset(b)
  {
  }

  /** Taking one element out takes what it maps to out. */
  lemma FilterMapWithout<A, B>(s: seq<A>, i: nat, f: A -> Option<B>)
    requires i < |s|
    ensures multiset(FilterMap(s, f)) ==
      multiset(FilterMap(s[..i] + s[i + 1..], f)) + multiset(FilterMap([s[i]], f))
  {
    hide FilterMap;
    assert s == s[..i] + ([s[i]] + s[i + 1..]);
    FilterMapConcat(s[..i], [s[i]] + s[i + 1..], f);
    FilterMapConcat([s[i]], s[i + 1..], f);
    FilterMapConcat(s[..i], s[i + 1..], f);
    MiddleOut(FilterMap(s[..i], f), FilterMap([s[i]], f), FilterMap(s[i + 1..], f));
  }

  lemma EmptyAlike<T>(s: seq<T>, t: seq<T>)
    requires multiset(s) == multiset(t) && s == []
    ensures t == []
  {
    assert |multiset(s)| == |s| && |multiset(t)| == |t|;
  }

  lemma WhereIs<T>(x: T, t: seq<T>) returns (i: nat)
    requires x in multiset(t)
    ensures i < |t| && t[i] == x
  {
    i :| i < |t| && t[i] == x;
  }

  /** Reordering the list reorders the result. */
  lemma {:induction false} FilterMapPermuted<A, B>(s: seq<A>, t: seq<A>, f: A -> Option<B>)
    requires multiset(s) == multiset(t)
    ensures multiset(FilterMap(s, f)) == multiset(FilterMap(t, f))
    decreases |s|
  {
    hide FilterMap;
    if s == [] {
      EmptyAlike(s, t);
    } else {
      var i := WhereIs(s[0], t);
      Without(s, 0);
      Without(t, i);
      FilterMapPermuted(s[..0] + s[1..], t[..i] + t[i + 1..], f);
      FilterMapWithout(s, 0, f);
      FilterMapWithout(t, i, f);
    }
  }
}
