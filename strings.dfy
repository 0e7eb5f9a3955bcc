/** The parts of Go's `strings` package that the price pipeline uses, on
    strings taken as sequences of Unicode code points. */
module Strings {
  import opened Search

  /** Go's `unicode.IsSpace`: the Latin-1 spaces (tab, newline, vertical tab,
      form feed, carriage return, space, U+0085, U+00A0) and the other code
      points with the Unicode White_Space property. */
  predicate IsSpace(c: char) {
    || c == '\t' || c == '\n' || c == '\U{B}' || c == '\U{C}' || c == '\r' || c == ' '
    || c == '\U{85}' || c == '\U{A0}' || c == '\U{1680}'
    || ('\U{2000}' <= c <= '\U{200A}')
    || c == '\U{2028}' || c == '\U{2029}' || c == '\U{202F}' || c == '\U{205F}' || c == '\U{3000}'
  }

  predicate AllSpace(s: string) {
    forall i :: 0 <= i < |s| ==> IsSpace(s[i])
  }

  predicate IsPrefix(p: string, s: string) {
    |p| <= |s| && s[..|p|] == p
  }

  /** `strings.Contains`: `sub` occurs somewhere in `s` (the empty string
      occurs in every string). */
  predicate Contains(s: string, sub: string)
    decreases |s|
  {
    IsPrefix(sub, s) || (s != [] && Contains(s[1..], sub))
  }

  /** `sub` occurs in `s` starting at position `i`. */
  predicate OccursAt(s: string, sub: string, i: nat) {
    i + |sub| <= |s| && s[i..i + |sub|] == sub
  }

  /** `Contains` holds exactly when `sub` occurs in `s` at some position. */
  lemma {:induction false} ContainsAt(s: string, sub: string)
    ensures Contains(s, sub) <==> exists i: nat :: OccursAt(s, sub, i)
    decreases |s|
  {
    if IsPrefix(sub, s) {
      assert s[0..0 + |sub|] == s[..|sub|];
      assert OccursAt(s, sub, 0);
    } else if s != [] {
      ContainsAt(s[1..], sub);
      if Contains(s[1..], sub) {
        var j: nat :| OccursAt(s[1..], sub, j);
        SliceOfTail(s, j + 1, j + 1 + |sub|);
        assert OccursAt(s, sub, j + 1);
      } else {
        forall i: nat | 0 < i && OccursAt(s, sub, i)
          ensures OccursAt(s[1..], sub, i - 1)
        {
          SliceOfTail(s, i, i + |sub|);
        }
      }
    }
  }

  /** Drops the leading white space of `s`. */
  function TrimLeftSpace(s: string): (r: string)
    ensures |r| <= |s| && r == s[|s| - |r|..] && AllSpace(s[..|s| - |r|])
    ensures r != [] ==> !IsSpace(r[0])
    decreases |s|
  {
    if s != [] && IsSpace(s[0]) then
      var r := TrimLeftSpace(s[1..]);
      assert s[..|s| - |r|] == [s[0]] + s[1..][..|s| - 1 - |r|];
      r
    else s
  }

  /** Drops the trailing white space of `s`. */
  function TrimRightSpace(s: string): (r: string)
    ensures |r| <= |s| && r == s[..|r|] && AllSpace(s[|r|..])
    ensures r != [] ==> !IsSpace(r[|r| - 1])
    decreases |s|
  {
    if s != [] && IsSpace(s[|s| - 1]) then
      var r := TrimRightSpace(s[..|s| - 1]);
      assert s[|r|..] == s[..|s| - 1][|r|..] + [s[|s| - 1]];
      r
    else s
  }

  /** `r` is the infix of `s` that starts at `k`, and everything of `s`
      around it is white space. */
  predicate SpaceFramed(s: string, k: nat, r: string) {
    && k + |r| <= |s|
    && s[k..k + |r|] == r
    && AllSpace(s[..k])
    && AllSpace(s[k + |r|..])
  }

  /** `strings.TrimSpace`: `s` without its leading and trailing white space. */
  function TrimSpace(s: string): string {
    TrimRightSpace(TrimLeftSpace(s))
  }

  /** What `TrimSpace` leaves is an infix of `s` surrounded by white space,
      and neither starts nor ends with white space. */
  lemma TrimSpaceFrames(s: string)
    ensures exists k :: SpaceFramed(s, k, TrimSpace(s))
    ensures var r := TrimSpace(s); r != [] ==> !IsSpace(r[0]) && !IsSpace(r[|r| - 1])
  {
    var left := TrimLeftSpace(s);
    var r := TrimRightSpace(left);
    var k := |s| - |left|;
    FramedBySpace(s, k, left, r);
    assert r == TrimSpace(s);
    assert SpaceFramed(s, k, TrimSpace(s));
  }

  lemma FramedBySpace(s: string, k: nat, left: string, r: string)
    requires k <= |s| && left == s[k..] && AllSpace(s[..k])
    requires |r| <= |left| && r == left[..|r|] && AllSpace(left[|r|..])
    ensures SpaceFramed(s, k, r)
  {
    assert s[k..k + |r|] == left[..|r|];
    assert s[k + |r|..] == left[|r|..];
  }

  /** `strings.Replace(s, [c], "", -1)`: every occurrence of `c` removed,
      everything else kept in order. */
  function RemoveAll(s: string, c: char): string {
    if s == [] then []
    else (if s[0] == c then [] else [s[0]]) + RemoveAll(s[1..], c)
  }

  /** `strings.Index(s, [c])`: the position of the first `c` in `s`, or -1. */
  function IndexOf(s: string, c: char): (k: int)
    ensures -1 <= k < |s|
    decreases |s|
  {
    if s == [] then -1
    else if s[0] == c then 0
    else
      var k := IndexOf(s[1..], c);
      if k == -1 then -1 else k + 1
  }

  /** `IndexOf` finds the first `c`, and reports -1 exactly when there is
      none. */
  lemma {:induction false} IndexOfFirst(s: string, c: char)
    ensures var k := IndexOf(s, c);
      && (k == -1 <==> c !in s)
      && (0 <= k ==> s[k] == c && c !in s[..k])
    decreases |s|
  {
    if s != [] && s[0] != c {
      IndexOfFirst(s[1..], c);
      assert s == [s[0]] + s[1..];
      var k := IndexOf(s[1..], c);
      if 0 <= k {
        assert s[..k + 1] == [s[0]] + s[1..][..k];
      }
    }
  }

  /** `strings.Replace(s, [c], "", 1)`: only the first occurrence of `c` is
      removed. */
  function RemoveFirst(s: string, c: char): string {
    var k := IndexOf(s, c);
    if k < 0 then s else s[..k] + s[k + 1..]
  }

  /** Text without `c` is left as it is. */
  lemma {:induction false} RemoveAllAbsent(s: string, c: char)
    requires c !in s
    ensures RemoveAll(s, c) == s
    decreases |s|
  {
    if s != [] {
      assert s == [s[0]] + s[1..];
      RemoveAllAbsent(s[1..], c);
    }
  }

  /** Exactly the characters other than `c` survive `RemoveAll`. */
  lemma {:induction false} RemoveAllMembers(s: string, c: char, x: char)
    ensures x in RemoveAll(s, c) <==> x in s && x != c
    decreases |s|
  {
    if s != [] {
      assert s == [s[0]] + s[1..];
      RemoveAllMembers(s[1..], c, x);
    }
  }

  /** `TrimSpace` strips exactly the white space around text that neither
      starts nor ends with white space. */
  lemma TrimSpaceOfPadded(lead: string, s: string, trail: string)
    requires AllSpace(lead) && AllSpace(trail)
    requires s != [] && !IsSpace(s[0]) && !IsSpace(s[|s| - 1])
    ensures TrimSpace(lead + s + trail) == s
  {
    TrimLeftOfPadded(lead, s + trail);
    assert lead + s + trail == lead + (s + trail);
    TrimRightOfPadded(s, trail);
  }

  lemma {:induction false} TrimLeftOfPadded(lead: string, s: string)
    requires AllSpace(lead) && s != [] && !IsSpace(s[0])
    ensures TrimLeftSpace(lead + s) == s
    decreases |lead|
  {
    if lead != [] {
      var t := lead + s;
      assert t[0] == lead[0] && IsSpace(t[0]);
      assert t[1..] == lead[1..] + s;
      AllSpaceTail(lead);
      TrimLeftOfPadded(lead[1..], s);
    } else {
      assert lead + s == s;
    }
  }

  lemma AllSpaceTail(s: string)
    requires s != [] && AllSpace(s)
    ensures AllSpace(s[1..])
  {
    assert forall i :: 0 <= i < |s| - 1 ==> s[1..][i] == s[i + 1];
  }

  lemma {:induction false} TrimRightOfPadded(s: string, trail: string)
    requires AllSpace(trail) && s != [] && !IsSpace(s[|s| - 1])
    ensures TrimRightSpace(s + trail) == s
    decreases |trail|
  {
    if trail != [] {
      var t := trail[..|trail| - 1];
      assert (s + trail)[..|s + trail| - 1] == s + t;
      TrimRightOfPadded(s, t);
    } else {
      assert s + trail == s;
    }
  }

  /** Removing every `c` works piece by piece. */
  lemma {:induction false} RemoveAllAppend(a: string, b: string, c: char)
    ensures RemoveAll(a + b, c) == RemoveAll(a, c) + RemoveAll(b, c)
    decreases |a|
  {
    if a == [] {
      assert a + b == b;
    } else {
      assert (a + b)[1..] == a[1..] + b;
      RemoveAllAppend(a[1..], b, c);
    }
  }

  lemma RemoveAllCons(x: char, s: string, c: char)
    ensures RemoveAll([x] + s, c) == (if x == c then [] else [x]) + RemoveAll(s, c)
  {
    assert ([x] + s)[1..] == s;
  }

  lemma RemoveFirstAtHead(s: string, c: char)
    requires s != [] && s[0] == c
    ensures RemoveFirst(s, c) == s[1..]
  {
  }

  /** Text without `c` is left as it is. */
  lemma RemoveFirstAbsent(s: string, c: char)
    requires c !in s
    ensures RemoveFirst(s, c) == s
  {
    IndexOfFirst(s, c);
  }

  /** Removing a character never brings in a new one. */
  lemma RemoveFirstMembers(s: string, c: char, x: char)
    requires x in RemoveFirst(s, c)
    ensures x in s
  {
    var k := IndexOf(s, c);
    if 0 <= k {
      MemberOfRemoved(s, k, x);
    }
  }

  /** The first `c` of `left + [c] + right` is the one after `left`. */
  lemma {:induction false} IndexOfAfter(left: string, c: char, right: string)
    requires c !in left
    ensures IndexOf(left + [c] + right, c) == |left|
    decreases |left|
  {
    var s := left + [c] + right;
    if left != [] {
      assert s[0] == left[0];
      assert s[1..] == left[1..] + [c] + right;
      IndexOfAfter(left[1..], c, right);
    }
  }

  /** The occurrence removed is the first one, wherever it stands. */
  lemma RemoveFirstAfter(left: string, c: char, right: string)
    requires c !in left
    ensures RemoveFirst(left + [c] + right, c) == left + right
  {
    var s := left + [c] + right;
    IndexOfAfter(left, c, right);
    assert s[..|left|] == left && s[|left| + 1..] == right;
  }

  /** Text that neither starts nor ends with white space is left as it is. */
  lemma TrimSpaceOfUnpadded(s: string)
    requires s != [] && !IsSpace(s[0]) && !IsSpace(s[|s| - 1])
    ensures TrimSpace(s) == s
  {
    assert TrimLeftSpace(s) == s;
  }

  /** Removing the separator between two comma-free pieces joins them. */
  lemma RemoveAllJoin(a: string, b: string, c: char)
    requires c !in a && c !in b
    ensures RemoveAll(a + [c] + b, c) == a + b
  {
    assert a + [c] + b == a + ([c] + b);
    calc {
      RemoveAll(a + ([c] + b), c);
      { RemoveAllAppend(a, [c] + b, c); }
      RemoveAll(a, c) + RemoveAll([c] + b, c);
      { RemoveAllCons(c, b, c); }
      RemoveAll(a, c) + RemoveAll(b, c);
      { RemoveAllAbsent(a, c); RemoveAllAbsent(b, c); }
      a + b;
    }
  }
}
