/** Link extraction: `set(GOFILE_REGEX.findall(text))` with the pattern
    `https://gofile\.io/d/[0-9A-Za-z]+`, written as the left-to-right scan that
    `findall` performs. At each position the scan tries the pattern; on a match
    it records the matched text and resumes right after it, otherwise it moves
    one character on. The `+` is greedy over a character class, so a match is the
    literal prefix followed by the longest run of letters and digits. */
module Extract {
  import opened Strings

  /** The literal part of the pattern. */
  const LinkPrefix: string := "https://gofile.io/d/"

  /** A string the whole pattern matches: the prefix and then a non-empty run of
      ASCII letters and digits. */
  predicate IsLink(u: string) {
    |LinkPrefix| < |u| && u[..|LinkPrefix|] == LinkPrefix &&
    forall j :: |LinkPrefix| <= j < |u| ==> IsIdChar(u[j])
  }

  /** The pattern matches at index `i` of `t`: the prefix, then at least one
      letter or digit. */
  predicate LinkStartsAt(t: string, i: nat) {
    OccursAt(LinkPrefix, t, i) && i + |LinkPrefix| < |t| && IsIdChar(t[i + |LinkPrefix|])
  }

  /** `u` occurs at `p` in `t` and cannot be extended there: the next character
      is not a letter or digit, or the text ends. */
  predicate MaximalAt(u: string, t: string, p: nat) {
    OccursAt(u, t, p) && (p + |u| == |t| || !IsIdChar(t[p + |u|]))
  }

  /** End of the run of letters and digits that starts at `k`. */
  function IdEnd(t: string, k: nat): (e: nat)
    requires k <= |t|
    ensures k <= e <= |t|
    ensures forall j :: k <= j < e ==> IsIdChar(t[j])
    ensures e == |t| || !IsIdChar(t[e])
    decreases |t| - k
  {
    if k == |t| || !IsIdChar(t[k]) then k else IdEnd(t, k + 1)
  }

  /** The matches `findall` reports from position `i` on, in order. */
  function Scan(t: string, i: nat): seq<string>
    requires i <= |t|
    decreases |t| - i
  {
    if i == |t| then []
    else if LinkStartsAt(t, i) then
      var e := IdEnd(t, i + |LinkPrefix|);
      [t[i..e]] + Scan(t, e)
    else Scan(t, i + 1)
  }

  /** `GOFILE_REGEX.findall(t)`: links, each occurring in `t`. */
  function FindAll(t: string): (r: seq<string>)
    ensures forall u :: u in r ==> IsLink(u) && Contains(t, u)
  {
    ScanSound(t, 0);
    Scan(t, 0)
  }

  /** `set(GOFILE_REGEX.findall(t))`: links, each occurring in `t`. */
  function ExtractLinks(t: string): (r: set<string>)
    ensures forall u :: u in r ==> IsLink(u) && Contains(t, u)
  {
    set u | u in FindAll(t)
  }

  /** Every match found from `i` on is a link, maximal where it occurs in `t`. */
  lemma {:induction false} ScanSound(t: string, i: nat)
    requires i <= |t|
    ensures forall u :: u in Scan(t, i) ==> IsLink(u) && exists p: nat :: i <= p && MaximalAt(u, t, p)
    decreases |t| - i
  {
    if i < |t| {
      if LinkStartsAt(t, i) {
        var e := IdEnd(t, i + |LinkPrefix|);
        ScanSound(t, e);
        var u := t[i..e];
        assert u[..|LinkPrefix|] == t[i..i + |LinkPrefix|];
        assert IsLink(u);
        assert MaximalAt(u, t, i);
      } else {
        ScanSound(t, i + 1);
      }
    }
  }

  /** Every extracted URL is a link (prefix, then a non-empty run of letters and
      digits) that occurs in the text with nothing alphanumeric right after it. */
  lemma ExtractedAreMaximalLinks(t: string)
    ensures forall u :: u in ExtractLinks(t) ==> IsLink(u) && exists p: nat :: MaximalAt(u, t, p)
  {
    ScanSound(t, 0);
  }

  /** `h` occurs in the prefix only at its start, and the prefix ends in `/`. */
  lemma PrefixShape()
    ensures |LinkPrefix| == 20
    ensures forall k :: 0 < k < |LinkPrefix| ==> LinkPrefix[k] != 'h'
    ensures LinkPrefix[0] == 'h' && LinkPrefix[19] == '/'
  {
  }

  /** No earlier occurrence of the pattern has an identifier run reaching past
      `p`, so no match that `findall` reports before `p` can swallow it. */
  predicate Unshadowed(t: string, p: nat) {
    forall q: nat | q < p && LinkStartsAt(t, q) :: IdEnd(t, q + |LinkPrefix|) <= p
  }

  lemma {:induction false} ScanFindsUnshadowed(t: string, i: nat, p: nat)
    requires i <= p && LinkStartsAt(t, p) && Unshadowed(t, p)
    ensures t[p..IdEnd(t, p + |LinkPrefix|)] in Scan(t, i)
    decreases p - i
  {
    if i < p {
      if LinkStartsAt(t, i) {
        ScanFindsUnshadowed(t, IdEnd(t, i + |LinkPrefix|), p);
      } else {
        ScanFindsUnshadowed(t, i + 1, p);
      }
    }
  }

  /** Every link occurrence that no earlier occurrence's identifier run reaches
      into is extracted, with its whole run of letters and digits. */
  lemma LinksAreExtracted(t: string, p: nat)
    requires LinkStartsAt(t, p) && Unshadowed(t, p)
    ensures t[p..IdEnd(t, p + |LinkPrefix|)] in ExtractLinks(t)
  {
    ScanFindsUnshadowed(t, 0, p);
  }

  /** A link occurrence is isolated when it is not glued to what comes before:
      the preceding character, if any, is neither a letter, a digit nor `/`. */
  predicate Isolated(t: string, p: nat) {
    p == 0 || (p <= |t| && !IsIdChar(t[p - 1]) && t[p - 1] != '/')
  }

  /** A match found earlier than an isolated link occurrence ends before it. */
  lemma EarlierMatchEndsBefore(t: string, i: nat, p: nat)
    requires i < p && LinkStartsAt(t, i) && LinkStartsAt(t, p) && Isolated(t, p)
    ensures IdEnd(t, i + |LinkPrefix|) <= p
  {
    PrefixShape();
    forall q | i <= q < i + |LinkPrefix|
      ensures t[q] == LinkPrefix[q - i]
    {
      assert t[q] == t[i..i + |LinkPrefix|][q - i];
    }
  }

  /** Every link occurrence that is not glued to a preceding letter, digit or
      `/` is extracted, with its whole run of letters and digits. */
  lemma IsolatedLinksAreExtracted(t: string, p: nat)
    requires LinkStartsAt(t, p) && Isolated(t, p)
    ensures t[p..IdEnd(t, p + |LinkPrefix|)] in ExtractLinks(t)
  {
    forall q: nat | q < p && LinkStartsAt(t, q)
      ensures IdEnd(t, q + |LinkPrefix|) <= p
    {
      EarlierMatchEndsBefore(t, q, p);
    }
    LinksAreExtracted(t, p);
  }

  /** Where no `h` occurs from `i` on, no link can start and nothing is found. */
  lemma {:induction false} ScanWithoutH(t: string, i: nat)
    requires i <= |t|
    requires forall j | i <= j < |t| :: t[j] != 'h'
    ensures Scan(t, i) == []
    decreases |t| - i
  {
    if i < |t| {
      assert !OccursAt(LinkPrefix, t, i) by {
        if i + |LinkPrefix| <= |t| {
          assert t[i..i + |LinkPrefix|][0] == t[i];
        }
      }
      ScanWithoutH(t, i + 1);
    }
  }

  /** The run of letters and digits from `k` ends at `e` when everything
      before `e` is a letter or digit and `e` is not. */
  lemma {:induction false} IdEndIs(t: string, k: nat, e: nat)
    requires k <= e <= |t|
    requires forall j | k <= j < e :: IsIdChar(t[j])
    requires e == |t| || !IsIdChar(t[e])
    ensures IdEnd(t, k) == e
    decreases e - k
  {
    if k < e {
      IdEndIs(t, k + 1, e);
    }
  }

  /** A link followed by text that starts with neither a letter nor a digit
      and has no `h` in it is the only match. */
  lemma LinkThenNoH(a: string, rest: string)
    requires IsLink(a) && rest != [] && !IsIdChar(rest[0])
    requires forall j | 0 <= j < |rest| :: rest[j] != 'h'
    ensures FindAll(a + rest) == [a]
  {
    var t, n := a + rest, |LinkPrefix|;
    assert t[..n] == a[..n];
    assert t[n] == a[n];
    forall j | n <= j < |a|
      ensures IsIdChar(t[j])
    {
      assert t[j] == a[j];
    }
    assert t[|a|] == rest[0];
    IdEndIs(t, n, |a|);
    forall j | |a| <= j < |t|
      ensures t[j] != 'h'
    {
      assert t[j] == rest[j - |a|];
    }
    ScanWithoutH(t, |a|);
    assert Scan(t, 0) == [t[0..|a|]] + Scan(t, |a|);
    assert t[0..|a|] == a;
  }

  /** A link glued right after another link's identifier is swallowed by it:
      the first run of letters and digits takes in the `https` of the second
      link, the scan resumes at the `:` after it, and the second link (whose
      identifier has no `h`) is never reported. */
  lemma GluedLinkSwallowed(id: string, id2: string)
    requires id != [] && forall j | 0 <= j < |id| :: IsIdChar(id[j])
    requires id2 != [] && forall j | 0 <= j < |id2| :: IsIdChar(id2[j]) && id2[j] != 'h'
    ensures FindAll(LinkPrefix + id + LinkPrefix + id2) == [LinkPrefix + id + "https"]
    ensures LinkPrefix + id2 !in ExtractLinks(LinkPrefix + id + LinkPrefix + id2)
  {
    var n := |LinkPrefix|;
    var a, tail := LinkPrefix + id + "https", "://gofile.io/d/";
    var rest := tail + id2;
    assert LinkPrefix == "https" + tail;
    assert LinkPrefix + id + LinkPrefix + id2 == a + rest;
    assert a[..n] == LinkPrefix;
    forall j | n <= j < |a|
      ensures IsIdChar(a[j])
    {
      if j < n + |id| {
        assert a[j] == id[j - n];
      } else {
        assert a[j] == "https"[j - n - |id|];
      }
    }
    forall j | 0 <= j < |rest|
      ensures rest[j] != 'h'
    {
      if j < |tail| {
        assert rest[j] == tail[j];
      } else {
        assert rest[j] == id2[j - |tail|];
      }
    }
    assert rest[0] == ':';
    LinkThenNoH(a, rest);
    if |LinkPrefix + id2| == |a| {
      assert (LinkPrefix + id2)[n + |id|] == id2[|id|];
      assert a[n + |id|] == 'h';
    }
  }

  /** A separator: a character that can neither continue a run of letters and
      digits nor be part of the prefix (a space, a newline, `<`, `"`, ...). */
  predicate IsSeparator(c: char) {
    !IsIdChar(c) && c !in LinkPrefix
  }

  lemma {:induction false} IdEndShift(x: string, b: string, k: nat)
    requires k <= |b|
    ensures IdEnd(x + b, |x| + k) == |x| + IdEnd(b, k)
    decreases |b| - k
  {
    if k < |b| {
      assert (x + b)[|x| + k] == b[k];
      if IsIdChar(b[k]) {
        IdEndShift(x, b, k + 1);
      }
    }
  }

  lemma LinkStartsShift(x: string, b: string, j: nat)
    requires j <= |b|
    ensures LinkStartsAt(x + b, |x| + j) <==> LinkStartsAt(b, j)
  {
    var t, n := x + b, |LinkPrefix|;
    if j + n <= |b| {
      assert t[|x| + j..|x| + j + n] == b[j..j + n];
    }
    if j + n < |b| {
      assert t[|x| + j + n] == b[j + n];
    }
  }

  /** Scanning the tail of `x + b` that lies in `b` finds what scanning `b` finds. */
  lemma {:induction false} ScanShift(x: string, b: string, j: nat)
    requires j <= |b|
    ensures Scan(x + b, |x| + j) == Scan(b, j)
    decreases |b| - j
  {
    var t := x + b;
    if j < |b| {
      LinkStartsShift(x, b, j);
      if LinkStartsAt(b, j) {
        var e := IdEnd(b, j + |LinkPrefix|);
        IdEndShift(x, b, j + |LinkPrefix|);
        assert t[|x| + j..|x| + e] == b[j..e];
        ScanShift(x, b, e);
        assert Scan(t, |x| + j) == [t[|x| + j..|x| + e]] + Scan(t, |x| + e);
        assert Scan(b, j) == [b[j..e]] + Scan(b, e);
      } else {
        ScanShift(x, b, j + 1);
        assert Scan(t, |x| + j) == Scan(t, |x| + j + 1);
      }
    }
  }

  lemma {:induction false} IdEndBeforeSeparator(a: string, c: char, b: string, k: nat)
    requires IsSeparator(c) && k <= |a|
    ensures IdEnd(a + [c] + b, k) == IdEnd(a, k)
    decreases |a| - k
  {
    var t := a + [c] + b;
    if k < |a| {
      assert t[k] == a[k];
      if IsIdChar(a[k]) {
        IdEndBeforeSeparator(a, c, b, k + 1);
      }
    } else {
      assert t[k] == c;
    }
  }

  /** The scan of `a + [c] + b` from inside `a` is the scan of `a` followed by
      the scan of `b`: no match crosses a separator. */
  lemma {:induction false} ScanSplit(a: string, c: char, b: string, i: nat)
    requires IsSeparator(c) && i <= |a|
    ensures Scan(a + [c] + b, i) == Scan(a, i) + Scan(b, 0)
    decreases |a| - i
  {
    var t := a + [c] + b;
    var n := |LinkPrefix|;
    PrefixShape();
    if i == |a| {
      assert t[i] == c;
      assert !OccursAt(LinkPrefix, t, i);
      assert t == (a + [c]) + b;
      ScanShift(a + [c], b, 0);
    } else {
      if i + n > |a| && i + n <= |t| {
        assert t[|a|] == t[i..i + n][|a| - i];
      }
      if i + n < |a| {
        assert t[i..i + n] == a[i..i + n];
        assert t[i + n] == a[i + n];
      }
      assert LinkStartsAt(t, i) <==> LinkStartsAt(a, i);
      if LinkStartsAt(a, i) {
        var e := IdEnd(a, i + n);
        IdEndBeforeSeparator(a, c, b, i + n);
        assert t[i..e] == a[i..e];
        ScanSplit(a, c, b, e);
      } else {
        ScanSplit(a, c, b, i + 1);
      }
    }
  }

  /** Two pieces of text joined by a separator yield the matches of the first
      and then those of the second. */
  lemma FindAllSplit(a: string, c: char, b: string)
    requires IsSeparator(c)
    ensures FindAll(a + [c] + b) == FindAll(a) + FindAll(b)
  {
    ScanSplit(a, c, b, 0);
  }

  /** A feed that carries the same text twice reports every link twice, and the
      extracted set is the same as for one copy: duplicates collapse. */
  lemma RepeatedTextSameLinks(a: string, c: char)
    requires IsSeparator(c)
    ensures |FindAll(a + [c] + a)| == 2 * |FindAll(a)|
    ensures ExtractLinks(a + [c] + a) == ExtractLinks(a)
  {
    FindAllSplit(a, c, a);
  }
}
