/** Strings as Python sees them in the scraper: character classes, the substring
    test `pattern in text`, and the ordering that `sorted` uses on `str`
    (lexicographic by code point). */
module Strings {

  /** The regex character class `[0-9A-Za-z]`. */
  predicate IsIdChar(c: char) {
    ('0' <= c <= '9') || ('A' <= c <= 'Z') || ('a' <= c <= 'z')
  }

  /** `pat` sits in `text` starting at index `i`. */
  predicate OccursAt(pat: string, text: string, i: nat) {
    i + |pat| <= |text| && text[i..i + |pat|] == pat
  }

  /** Python's `pat in text` on two `str` values: the empty string is in every
      text, and nothing longer than the text is in it. */
  predicate Contains(text: string, pat: string)
    ensures pat == [] ==> Contains(text, pat)
    ensures Contains(text, pat) ==> |pat| <= |text|
  {
    assert pat == [] ==> OccursAt(pat, text, 0);
    exists i: nat | i <= |text| :: OccursAt(pat, text, i)
  }

  /** `a <= b` in Python's ordering of `str`: lexicographic by code point, a
      proper prefix coming first. */
  predicate Below(a: string, b: string)
    ensures a <= b ==> Below(a, b)
    decreases |a|
  {
    a == [] || (b != [] && (a[0] < b[0] || (a[0] == b[0] && Below(a[1..], b[1..]))))
  }

  /** `a < b` in Python's ordering of `str`. */
  predicate Less(a: string, b: string) {
    Below(a, b) && a != b
  }

  /** What `sorted` returns on a set: increasing, hence without duplicates. */
  predicate StrictlySorted(r: seq<string>) {
    forall i, j :: 0 <= i < j < |r| ==> Less(r[i], r[j])
  }

  lemma {:induction false} BelowReflexive(a: string)
    ensures Below(a, a)
    decreases |a|
  {
    if a != [] {
      BelowReflexive(a[1..]);
    }
  }

  lemma {:induction false} BelowTotal(a: string, b: string)
    ensures Below(a, b) || Below(b, a)
    decreases |a|
  {
    if a != [] && b != [] && a[0] == b[0] {
      BelowTotal(a[1..], b[1..]);
    }
  }

  lemma {:induction false} BelowAntisymmetric(a: string, b: string)
    requires Below(a, b) && Below(b, a)
    ensures a == b
    decreases |a|
  {
    if a != [] {
      BelowAntisymmetric(a[1..], b[1..]);
      assert a == [a[0]] + a[1..] && b == [b[0]] + b[1..];
    }
  }

  lemma {:induction false} BelowTransitive(a: string, b: string, c: string)
    requires Below(a, b) && Below(b, c)
    ensures Below(a, c)
    decreases |a|
  {
    if a != [] && a[0] == b[0] && b[0] == c[0] {
      BelowTransitive(a[1..], b[1..], c[1..]);
    }
  }

  /** `m` is the smallest member of `s`. */
  predicate IsLeast(m: string, s: set<string>) {
    m in s && forall x :: x in s ==> Below(m, x)
  }

  lemma {:induction false} LeastExists(s: set<string>)
    requires s != {}
    ensures exists m :: IsLeast(m, s)
    decreases s
  {
    var y :| y in s;
    BelowReflexive(y);
    if s != {y} {
      var rest := s - {y};
      LeastExists(rest);
      var m :| IsLeast(m, rest);
      BelowTotal(y, m);
      if Below(y, m) {
        forall x | x in s
          ensures Below(y, x)
        {
          if x != y {
            BelowTransitive(y, m, x);
          }
        }
        assert IsLeast(y, s);
      } else {
        assert IsLeast(m, s);
      }
    } else {
      assert IsLeast(y, s);
    }
  }

  lemma LeastUnique(s: set<string>)
    ensures forall a, b :: IsLeast(a, s) && IsLeast(b, s) ==> a == b
  {
    forall a, b | IsLeast(a, s) && IsLeast(b, s)
      ensures a == b
    {
      BelowAntisymmetric(a, b);
    }
  }

  /** Python's `sorted(s)` for a set of strings: the members of `s`, each once,
      in increasing order. */
  function SortedList(s: set<string>): (r: seq<string>)
    ensures |r| == |s|
    ensures forall x :: x in r <==> x in s
    ensures StrictlySorted(r)
    decreases s
  {
    if s == {} then []
    else
      LeastExists(s);
      LeastUnique(s);
      var m :| m in s && IsLeast(m, s);
      var rest := SortedList(s - {m});
      ConsSorted(m, rest);
      [m] + rest
  }

  /** A sorted sequence stays sorted when an element below all of it is put
      in front. */
  lemma ConsSorted(m: string, rest: seq<string>)
    requires StrictlySorted(rest)
    requires forall j :: 0 <= j < |rest| ==> Less(m, rest[j])
    ensures StrictlySorted([m] + rest)
  {
    var r := [m] + rest;
    forall i, j | 0 <= i < j < |r|
      ensures Less(r[i], r[j])
    {
      assert r[j] == rest[j - 1];
      if i > 0 {
        assert r[i] == rest[i - 1];
      }
    }
  }

  /** The first element of an increasing sequence is the least of its members. */
  lemma SortedHeadIsLeast(r: seq<string>, s: set<string>)
    requires r != [] && StrictlySorted(r)
    requires forall x :: x in r <==> x in s
    ensures IsLeast(r[0], s)
  {
    forall x | x in s
      ensures Below(r[0], x)
    {
      var k :| 0 <= k < |r| && r[k] == x;
      if k == 0 {
        BelowReflexive(x);
      }
    }
  }

  /** The tail of an increasing sequence holds the members but the first. */
  lemma SortedTailMembers(r: seq<string>, s: set<string>)
    requires r != [] && StrictlySorted(r)
    requires forall x :: x in r <==> x in s
    ensures forall x :: x in r[1..] <==> x in s - {r[0]}
  {
    forall x
      ensures x in r[1..] <==> x in s - {r[0]}
    {
      if x in r[1..] {
        var k :| 1 <= k < |r| && r[k] == x;
        assert Less(r[0], r[k]);
      }
      if x in s - {r[0]} {
        var k :| 0 <= k < |r| && r[k] == x;
        assert r[1..][k - 1] == x;
      }
    }
  }

  /** `sorted` of a non-empty set returns its least member first. */
  lemma SortedListStartsWithLeast(s: set<string>)
    requires s != {}
    ensures IsLeast(SortedList(s)[0], s)
  {
    SortedHeadIsLeast(SortedList(s), s);
  }

  /** The sorted listing starts with the least member, then lists the rest. */
  lemma SortedListUnfold(s: set<string>, m: string)
    requires IsLeast(m, s)
    ensures SortedList(s) == [m] + SortedList(s - {m})
  {
    LeastUnique(s);
  }

  /** The sorted listing is the only increasing sequence with the members of
      `s`: sorting a set is determined by the set alone. */
  lemma {:induction false} SortedListUnique(r: seq<string>, s: set<string>)
    requires StrictlySorted(r)
    requires forall x :: x in r <==> x in s
    ensures r == SortedList(s)
    decreases |r|
  {
    if r == [] {
      assert s == {};
    } else {
      SortedHeadIsLeast(r, s);
      SortedTailMembers(r, s);
      SortedListUnique(r[1..], s - {r[0]});
      SortedListUnfold(s, r[0]);
      assert r == [r[0]] + r[1..];
    }
  }
}
