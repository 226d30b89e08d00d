/** The relative-link rewrite shared by lib/fs-api.ts and lib/get-page.ts:
    `content.replace(/\(.\/(.+)\)/g, "(" + prefix + "$1)")`.

    JavaScript's regular expression engine scans left to right. At position p
    it matches `(`, any one character but a line terminator, `/`, then `.+`,
    which first takes every character up to the end of the line and then gives
    characters back until a `)` follows: the group ends at the LAST `)` of the
    line, and must hold at least one character. A match is replaced and the
    scan goes on after it; where nothing matches, the character is kept. */
module LinkRewrite {
  import opened Types

  /** The characters `.` does not match. */
  predicate IsLineTerminator(c: char) {
    c == '\n' || c == '\r' || c == '\U{2028}' || c == '\U{2029}'
  }

  /** The index of the first line terminator at or after `i`, or |s|. */
  function LineEnd(s: string, i: nat): (e: nat)
    requires i <= |s|
    ensures i <= e <= |s|
    decreases |s| - i
  {
    if i == |s| || IsLineTerminator(s[i]) then i else LineEnd(s, i + 1)
  }

  /** `LineEnd` stops at the first line terminator: none before it, one at it. */
  lemma {:induction false} LineEndIsFirstTerminator(s: string, i: nat)
    requires i <= |s|
    ensures forall j :: i <= j < LineEnd(s, i) ==> !IsLineTerminator(s[j])
    ensures LineEnd(s, i) < |s| ==> IsLineTerminator(s[LineEnd(s, i)])
    decreases |s| - i
  {
    if i < |s| && !IsLineTerminator(s[i]) {
      LineEndIsFirstTerminator(s, i + 1);
    }
  }

  /** The last index in [lo, hi) holding `)`. */
  function LastClose(s: string, lo: nat, hi: nat): (r: Option<nat>)
    requires hi <= |s|
    ensures r.Some? ==> lo <= r.value < hi && s[r.value] == ')'
    decreases hi
  {
    if hi <= lo then None
    else if s[hi - 1] == ')' then Some(hi - 1)
    else LastClose(s, lo, hi - 1)
  }

  /** `LastClose` finds the last `)`: there is none after it, and none at all when it finds nothing. */
  lemma {:induction false} LastCloseIsLast(s: string, lo: nat, hi: nat)
    requires hi <= |s|
    ensures LastClose(s, lo, hi).Some? ==> forall j :: LastClose(s, lo, hi).value < j < hi ==> s[j] != ')'
    ensures LastClose(s, lo, hi).None? ==> forall j :: lo <= j < hi ==> s[j] != ')'
    decreases hi
  {
    if lo < hi && s[hi - 1] != ')' {
      LastCloseIsLast(s, lo, hi - 1);
    }
  }

  /** `(c/X)` with X as long as the line allows: a match at position `q` is the
      index of the closing `)`. */
  predicate IsMatch(s: string, q: int)
    ensures IsMatch(s, q) ==> 4 <= q < |s| && forall j :: 0 <= j <= q ==> !IsLineTerminator(s[j])
  {
    && 4 <= q < |s|
    && s[0] == '(' && !IsLineTerminator(s[1]) && s[2] == '/'
    && s[q] == ')'
    && (forall j :: 3 <= j < q ==> !IsLineTerminator(s[j]))
    && (forall j :: q < j < |s| && s[j] == ')' ==> exists t :: q < t < j && IsLineTerminator(s[t]))
  }

  /** The match of the pattern at the start of `s`, if any, as the index of its `)`. */
  function MatchAt(s: string): (r: Option<nat>)
    ensures r.Some? ==> 4 <= r.value < |s| && s[r.value] == ')'
  {
    if |s| >= 5 && s[0] == '(' && !IsLineTerminator(s[1]) && s[2] == '/' then
      LastClose(s, 4, LineEnd(s, 3))
    else None
  }

  /** `MatchAt` finds the match exactly when there is one. */
  lemma MatchAtFindsMatch(s: string)
    ensures MatchAt(s).Some? ==> IsMatch(s, MatchAt(s).value)
    ensures MatchAt(s).None? ==> forall q :: !IsMatch(s, q)
  {
    if |s| >= 5 && s[0] == '(' && !IsLineTerminator(s[1]) && s[2] == '/' {
      var e := LineEnd(s, 3);
      var r := LastClose(s, 4, e);
      LineEndIsFirstTerminator(s, 3);
      LastCloseIsLast(s, 4, e);
      if r.Some? {
        forall j | r.value < j < |s| && s[j] == ')'
          ensures exists t :: r.value < t < j && IsLineTerminator(s[t])
        {
          assert r.value < e < j && IsLineTerminator(s[e]);
        }
      }
    }
  }

  /** At most one `)` can close the match at a given start. */
  lemma MatchIsUnique(s: string, q1: int, q2: int)
    requires IsMatch(s, q1) && IsMatch(s, q2)
    ensures q1 == q2
  {
  }

  /** The whole `replace`: every match `(c/X)` becomes `(` + prefix + `X)`. */
  function Rewrite(s: string, prefix: string): (r: string)
    ensures s == [] <==> r == []
    ensures s != [] ==> r[0] == s[0]
    decreases |s|
  {
    if s == [] then []
    else match MatchAt(s)
      case Some(q) => "(" + prefix + s[3..q] + ")" + Rewrite(s[q + 1..], prefix)
      case None => [s[0]] + Rewrite(s[1..], prefix)
  }

  /** No `(`, one character, `/` anywhere: nothing to replace. */
  predicate HasNoLinkOpening(s: string) {
    forall i :: 0 <= i && i + 2 < |s| ==> !(s[i] == '(' && s[i + 2] == '/')
  }

  lemma {:induction false} RewriteWithoutLinksIsIdentity(s: string, prefix: string)
    requires HasNoLinkOpening(s)
    ensures Rewrite(s, prefix) == s
    decreases |s|
  {
    if s != [] {
      assert MatchAt(s).None?;
      assert HasNoLinkOpening(s[1..]) by {
        forall i | 0 <= i && i + 2 < |s[1..]| ensures !(s[1..][i] == '(' && s[1..][i + 2] == '/') {
          assert s[1..][i] == s[i + 1] && s[1..][i + 2] == s[i + 3];
        }
      }
      RewriteWithoutLinksIsIdentity(s[1..], prefix);
    }
  }

  /** Text before a link opening is kept as it is. */
  lemma {:induction false} RewriteKeepsPlainPrefix(u: string, v: string, prefix: string)
    requires forall i :: 0 <= i < |u| ==> u[i] != '('
    ensures Rewrite(u + v, prefix) == u + Rewrite(v, prefix)
    decreases |u|
  {
    if u != [] {
      assert (u + v)[0] == u[0];
      assert MatchAt(u + v).None?;
      assert (u + v)[1..] == u[1..] + v;
      RewriteKeepsPlainPrefix(u[1..], v, prefix);
    } else {
      assert u + v == v;
    }
  }

  /** Whether a link starts at the head of `a` does not depend on what follows
      the end of `a`'s line. */
  lemma MatchStaysOnItsLine(a: string, t: string)
    requires |t| > 0 && IsLineTerminator(t[0])
    ensures MatchAt(a + t) == MatchAt(a)
  {
    var s := a + t;
    forall q | IsMatch(s, q) ensures IsMatch(a, q) {
      assert s[|a|] == t[0];
      if |a| <= 2 {
        assert false;
      }
      assert q < |a|;
      forall j | 0 <= j <= q ensures a[j] == s[j] { }
      forall j | q < j < |a| && a[j] == ')'
        ensures exists u :: q < u < j && IsLineTerminator(a[u])
      {
        assert s[j] == a[j];
        var u :| q < u < j && IsLineTerminator(s[u]);
        assert a[u] == s[u];
      }
    }
    forall q | IsMatch(a, q) ensures IsMatch(s, q) {
      forall j | q < j < |s| && s[j] == ')'
        ensures exists u :: q < u < j && IsLineTerminator(s[u])
      {
        if j < |a| {
          assert a[j] == s[j];
          var u :| q < u < j && IsLineTerminator(a[u]);
          assert s[u] == a[u];
        } else {
          assert j != |a|;
          assert q < |a| < j && IsLineTerminator(s[|a|]);
        }
      }
    }
    MatchAtFindsMatch(s);
    MatchAtFindsMatch(a);
    var m1, m2 := MatchAt(s), MatchAt(a);
    if m1.Some? {
      MatchIsUnique(a, m1.value, m2.value);
    }
  }

  /** `Rewrite` at a link: the link, then the rest after its `)`. */
  lemma UnfoldAtLink(s: string, prefix: string, q: nat)
    requires MatchAt(s) == Some(q)
    ensures Rewrite(s, prefix) == "(" + prefix + s[3..q] + ")" + Rewrite(s[q + 1..], prefix)
  {
  }

  /** `Rewrite` elsewhere: the first character, then the rest. */
  lemma UnfoldAtChar(s: string, prefix: string)
    requires s != [] && MatchAt(s).None?
    ensures Rewrite(s, prefix) == [s[0]] + Rewrite(s[1..], prefix)
  {
  }

  /** `s` and `a` start with the same piece `head`, and what follows it in `s`
      continues what follows it in `a` with `tail`. */
  lemma StepThenRest(s: string, a: string, head: string, restS: string, restA: string, tail: string, prefix: string)
    requires Rewrite(s, prefix) == head + restS && Rewrite(a, prefix) == head + restA
    requires restS == restA + tail
    ensures Rewrite(s, prefix) == Rewrite(a, prefix) + tail
  {
    assert head + (restA + tail) == (head + restA) + tail;
  }

  /** Matches never cross a line terminator: the text before one is rewritten
      on its own. */
  lemma {:induction false} RewriteUpToLineEnd(a: string, t: string, prefix: string)
    requires |t| > 0 && IsLineTerminator(t[0])
    ensures Rewrite(a + t, prefix) == Rewrite(a, prefix) + Rewrite(t, prefix)
    decreases |a|
  {
    if a == [] {
      assert a + t == t;
    } else {
      MatchStaysOnItsLine(a, t);
      var s := a + t;
      match MatchAt(a)
      case Some(q) =>
        assert s[q + 1..] == a[q + 1..] + t;
        assert s[3..q] == a[3..q];
        RewriteUpToLineEnd(a[q + 1..], t, prefix);
        UnfoldAtLink(s, prefix, q);
        UnfoldAtLink(a, prefix, q);
        StepThenRest(s, a, "(" + prefix + a[3..q] + ")", Rewrite(s[q + 1..], prefix), Rewrite(a[q + 1..], prefix),
                     Rewrite(t, prefix), prefix);
      case None =>
        assert s[1..] == a[1..] + t;
        assert s[0] == a[0];
        RewriteUpToLineEnd(a[1..], t, prefix);
        UnfoldAtChar(s, prefix);
        UnfoldAtChar(a, prefix);
        StepThenRest(s, a, [a[0]], Rewrite(s[1..], prefix), Rewrite(a[1..], prefix), Rewrite(t, prefix), prefix);
    }
  }

  /** Each line is rewritten on its own, and the line terminator between two
      lines is kept. */
  lemma RewriteLineByLine(a: string, nl: char, b: string, prefix: string)
    requires IsLineTerminator(nl)
    ensures Rewrite(a + [nl] + b, prefix) == Rewrite(a, prefix) + [nl] + Rewrite(b, prefix)
  {
    var t := [nl] + b;
    assert a + [nl] + b == a + t;
    RewriteUpToLineEnd(a, t, prefix);
    assert MatchAt(t).None?;
    UnfoldAtChar(t, prefix);
    assert t[1..] == b;
  }

  /** A whole-line link `(c/X)` becomes `(prefix X)`. Since `.+` is greedy, X may
      itself contain `)`: the match runs to the last one on the line. */
  lemma RewriteOneLink(c: char, x: string, prefix: string)
    requires !IsLineTerminator(c) && |x| > 0
    requires forall i :: 0 <= i < |x| ==> !IsLineTerminator(x[i])
    ensures Rewrite(['(', c, '/'] + x + [')'], prefix) == "(" + prefix + x + ")"
  {
    var s := ['(', c, '/'] + x + [')'];
    var q := |s| - 1;
    assert IsMatch(s, q) by {
      forall j | 3 <= j < q ensures !IsLineTerminator(s[j]) {
        assert s[j] == x[j - 3];
      }
    }
    MatchAtFindsMatch(s);
    MatchIsUnique(s, MatchAt(s).value, q);
    assert s[3..q] == x;
    assert s[q + 1..] == [];
  }

  /** The text between the first `(c/` and the last `)` of `(c/x) mid (d/y)`
      stays on one line. */
  lemma TwoLinksShareALine(x: string, mid: string, d: char, y: string)
    requires !IsLineTerminator(d)
    requires forall i :: 0 <= i < |x| ==> !IsLineTerminator(x[i])
    requires forall i :: 0 <= i < |mid| ==> !IsLineTerminator(mid[i])
    requires forall i :: 0 <= i < |y| ==> !IsLineTerminator(y[i])
    ensures var inner := x + [')'] + mid + ['(', d, '/'] + y;
            forall i :: 0 <= i < |inner| ==> !IsLineTerminator(inner[i])
  {
    var inner := x + [')'] + mid + ['(', d, '/'] + y;
    forall i | 0 <= i < |inner| ensures !IsLineTerminator(inner[i]) {
      if i < |x| {
        assert inner[i] == x[i];
      } else if i == |x| {
        assert inner[i] == ')';
      } else if i < |x| + 1 + |mid| {
        assert inner[i] == mid[i - |x| - 1];
      } else if i < |x| + 1 + |mid| + 3 {
        assert inner[i] in ['(', d, '/'];
      } else {
        assert inner[i] == y[i - |x| - |mid| - 4];
      }
    }
  }

  /** Two links on one line are taken as ONE match, from the first `(c/` to the
      last `)`: in `(c/x) mid (d/y)` only the first link is rewritten, and its
      target runs on to the end of the second. */
  lemma GreedyMatchSpansTwoLinks(c: char, x: string, mid: string, d: char, y: string, prefix: string)
    requires !IsLineTerminator(c) && !IsLineTerminator(d) && |x| > 0
    requires forall i :: 0 <= i < |x| ==> !IsLineTerminator(x[i])
    requires forall i :: 0 <= i < |mid| ==> !IsLineTerminator(mid[i])
    requires forall i :: 0 <= i < |y| ==> !IsLineTerminator(y[i])
    ensures var inner := x + [')'] + mid + ['(', d, '/'] + y;
            Rewrite(['(', c, '/'] + inner + [')'], prefix) == "(" + prefix + inner + ")"
  {
    TwoLinksShareALine(x, mid, d, y);
    RewriteOneLink(c, x + [')'] + mid + ['(', d, '/'] + y, prefix);
  }
}
