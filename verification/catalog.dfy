/** The ordering every post listing uses: `sort((a, b) => a.date > b.date ? -1 : 1)`.
    JavaScript compares the two date strings lexicographically; the comparator
    never answers 0, so the order of two posts with the same date is up to the
    engine. The model therefore promises only what every engine delivers: the
    result is a permutation of the input and is non-increasing in `date`. */
module Catalog {
  import opened Types

  /** JavaScript `a < b` on strings: lexicographic, a proper prefix first. */
  predicate StrLess(a: string, b: string)
    ensures StrLess(a, b) ==> b != []
    ensures |a| < |b| && a == b[..|a|] ==> StrLess(a, b)
    decreases |a|
  {
    if |b| == 0 then false
    else if |a| == 0 then true
    else if a[0] != b[0] then a[0] < b[0]
    else StrLess(a[1..], b[1..])
  }

  lemma {:induction false} StrLessIrreflexive(a: string)
    ensures !StrLess(a, a)
    decreases |a|
  {
    if |a| > 0 {
      StrLessIrreflexive(a[1..]);
    }
  }

  lemma {:induction false} StrLessTransitive(a: string, b: string, c: string)
    requires StrLess(a, b) && StrLess(b, c)
    ensures StrLess(a, c)
    decreases |a|
  {
    if |a| > 0 && a[0] == b[0] && b[0] == c[0] {
      StrLessTransitive(a[1..], b[1..], c[1..]);
    }
  }

  lemma StrLessAsymmetric(a: string, b: string)
    requires StrLess(a, b)
    ensures !StrLess(b, a)
  {
    if StrLess(b, a) {
      StrLessTransitive(a, b, a);
      StrLessIrreflexive(a);
    }
  }

  /** A common prefix does not decide the order. */
  lemma {:induction false} StrLessCommonPrefix(x: string, a: string, b: string)
    ensures StrLess(x + a, x + b) == StrLess(a, b)
    decreases |x|
  {
    if |x| > 0 {
      assert (x + a)[0] == x[0] == (x + b)[0];
      assert (x + a)[1..] == x[1..] + a;
      assert (x + b)[1..] == x[1..] + b;
      StrLessCommonPrefix(x[1..], a, b);
    } else {
      assert x + a == a && x + b == b;
    }
  }

  /** Two different strings are always ordered one way or the other. */
  lemma {:induction false} StrLessTotal(a: string, b: string)
    ensures a == b || StrLess(a, b) || StrLess(b, a)
    decreases |a|
  {
    if |a| > 0 && |b| > 0 && a[0] == b[0] {
      StrLessTotal(a[1..], b[1..]);
      if a[1..] == b[1..] {
        assert a == [a[0]] + a[1..] && b == [b[0]] + b[1..];
      }
    }
  }

  /** `a.date >= b.date`: `a` may stand before `b` in a newest-first listing. */
  predicate NotOlder(a: PostSummary, b: PostSummary) {
    !StrLess(a.date, b.date)
  }

  lemma NotOlderTransitive(a: PostSummary, b: PostSummary, c: PostSummary)
    requires NotOlder(a, b) && NotOlder(b, c)
    ensures NotOlder(a, c)
  {
    StrLessTotal(a.date, b.date);
    StrLessTotal(b.date, c.date);
    if StrLess(a.date, c.date) {
      if a.date == b.date {
      } else if b.date == c.date {
      } else {
        StrLessTransitive(c.date, b.date, a.date);
        StrLessTransitive(a.date, c.date, a.date);
        StrLessIrreflexive(a.date);
      }
    }
  }

  /** Newest first: no post is followed by a post with a later date. */
  predicate SortedByDateDesc(s: seq<PostSummary>) {
    forall i, j :: 0 <= i < j < |s| ==> NotOlder(s[i], s[j])
  }

  /** A post not older than the head of a newest-first listing can go in front of it. */
  lemma PrependNewest(p: PostSummary, s: seq<PostSummary>)
    requires SortedByDateDesc(s) && (s == [] || NotOlder(p, s[0]))
    ensures SortedByDateDesc([p] + s)
  {
    forall j | 0 <= j < |s| ensures NotOlder(p, s[j]) {
      if j > 0 { NotOlderTransitive(p, s[0], s[j]); }
    }
    forall i, j | 0 <= i < j < |[p] + s| ensures NotOlder(([p] + s)[i], ([p] + s)[j]) {
      if i > 0 {
        assert ([p] + s)[i] == s[i - 1] && ([p] + s)[j] == s[j - 1];
      }
    }
  }

  /** A post not older than anything in a newest-first listing can go in front of it. */
  lemma PrependNotOlderThanAll(h: PostSummary, rest: seq<PostSummary>)
    requires SortedByDateDesc(rest)
    requires forall x :: x in multiset(rest) ==> NotOlder(h, x)
    ensures SortedByDateDesc([h] + rest)
  {
    if rest != [] {
      assert rest[0] in multiset(rest);
    }
    PrependNewest(h, rest);
  }

  /** A post older than the head of a newest-first listing goes behind it: the
      head followed by the rest with the post inserted is still newest first. */
  lemma InsertBehindHead(p: PostSummary, s: seq<PostSummary>, rest: seq<PostSummary>)
    requires SortedByDateDesc(s) && s != [] && !NotOlder(p, s[0])
    requires SortedByDateDesc(rest) && multiset(rest) == multiset(s[1..]) + multiset{p}
    ensures SortedByDateDesc([s[0]] + rest)
    ensures multiset([s[0]] + rest) == multiset(s) + multiset{p}
  {
    StrLessAsymmetric(p.date, s[0].date);
    forall x | x in multiset(rest) ensures NotOlder(s[0], x) {
      if x != p {
        assert x in multiset(s[1..]);
        var j :| 0 <= j < |s[1..]| && s[1..][j] == x;
        assert s[j + 1] == x;
      }
    }
    PrependNotOlderThanAll(s[0], rest);
    assert s == [s[0]] + s[1..];
  }

  /** Places `p` before the first post it is not older than. */
  function Insert(p: PostSummary, s: seq<PostSummary>): (r: seq<PostSummary>)
    requires SortedByDateDesc(s)
    ensures SortedByDateDesc(r)
    ensures multiset(r) == multiset(s) + multiset{p}
  {
    if s == [] then [p]
    else if NotOlder(p, s[0]) then
      PrependNewest(p, s);
      [p] + s
    else
      assert SortedByDateDesc(s[1..]);
      var rest := Insert(p, s[1..]);
      InsertBehindHead(p, s, rest);
      [s[0]] + rest
  }

  /** The listing's `.sort(...)`: one of the orders a JavaScript engine may produce. */
  function SortByDateDesc(s: seq<PostSummary>): (r: seq<PostSummary>)
    ensures SortedByDateDesc(r)
    ensures multiset(r) == multiset(s)
    ensures |r| == |s|
  {
    if s == [] then []
    else
      assert s == [s[0]] + s[1..];
      Insert(s[0], SortByDateDesc(s[1..]))
  }

  /** Sorting neither adds nor drops a post. */
  lemma SortKeepsMembers(s: seq<PostSummary>)
    ensures forall p :: p in SortByDateDesc(s) <==> p in s
  {
    var r := SortByDateDesc(s);
    forall p ensures p in r <==> p in s {
      assert p in r <==> p in multiset(r);
      assert p in s <==> p in multiset(s);
    }
  }

  /** Two dates in the wrong order are swapped: the example of a two-post listing. */
  lemma TwoPostsNewestFirst(older: PostSummary, newer: PostSummary)
    requires older.date == "2021-01-01" && newer.date == "2021-06-01"
    ensures SortByDateDesc([older, newer]) == [newer, older]
  {
    assert StrLess(older.date, newer.date) by {
      assert older.date == "2021-0" + "1-01" && newer.date == "2021-0" + "6-01";
      StrLessCommonPrefix("2021-0", "1-01", "6-01");
    }
    assert [older, newer][1..] == [newer];
  }
}
