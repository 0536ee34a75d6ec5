/**
 Case-insensitive substring search, as `String.contains(other, ignoreCase = true)`
 does it: the query matches when, at some offset of the name, every character of
 the query equals the name's character after both are folded to one case.
 Folding covers the ASCII letters only.
 */
module TextMatch {

  /** Folds a character for comparison: ASCII upper-case letters become lower case, everything else stays. */
  function Fold(c: char): char
  {
    if 'A' <= c <= 'Z' then (c as int + 32) as char else c
  }

  /** Folds every character of `s`. */
  function FoldAll(s: string): (r: string)
    ensures |r| == |s|
    ensures forall k :: 0 <= k < |s| ==> r[k] == Fold(s[k])
  {
    seq(|s|, k requires 0 <= k < |s| => Fold(s[k]))
  }

  /** The |q| characters of `s` that start at offset `i` equal those of `q`, up to case. */
  predicate MatchesAt(s: string, q: string, i: nat)
    requires i + |q| <= |s|
  {
    forall k :: 0 <= k < |q| ==> Fold(s[i + k]) == Fold(q[k])
  }

  /** `s` contains `q` as a substring when case is ignored. */
  predicate ContainsIgnoreCase(s: string, q: string)
  {
    exists i :: 0 <= i <= |s| - |q| && MatchesAt(s, q, i)
  }

  /** Folding is idempotent: a folded character is already in its folded case. */
  lemma FoldIdempotent(c: char)
    ensures Fold(Fold(c)) == Fold(c)
  {
  }

  /**
   Two characters fold alike exactly when they are equal or are the upper- and
   lower-case forms of one ASCII letter.
   */
  lemma FoldIgnoresCase(a: char, b: char)
    ensures Fold(a) == Fold(b) <==>
      a == b || ('A' <= a <= 'Z' && b as int == a as int + 32) || ('A' <= b <= 'Z' && a as int == b as int + 32)
  {
  }

  /** The empty query matches every name. */
  lemma EmptyQueryMatches(s: string)
    ensures ContainsIgnoreCase(s, "")
  {
    assert MatchesAt(s, "", 0);
  }

  /** Every name matches itself. */
  lemma MatchesItself(s: string)
    ensures ContainsIgnoreCase(s, s)
  {
    assert MatchesAt(s, s, 0);
  }

  /** A name that contains a query contains every piece of it: a shorter query never matches fewer names. */
  lemma SliceOfQueryMatches(s: string, q: string, a: nat, b: nat)
    requires a <= b <= |q|
    requires ContainsIgnoreCase(s, q)
    ensures ContainsIgnoreCase(s, q[a..b])
  {
    var i :| 0 <= i <= |s| - |q| && MatchesAt(s, q, i);
    var piece := q[a..b];
    forall k | 0 <= k < |piece| ensures Fold(s[i + a + k]) == Fold(piece[k]) {
      assert piece[k] == q[a + k];
    }
    assert MatchesAt(s, piece, i + a);
  }

  /** The case the query is typed in does not change which names it matches. */
  lemma QueryCaseIrrelevant(s: string, q: string)
    ensures ContainsIgnoreCase(s, q) <==> ContainsIgnoreCase(s, FoldAll(q))
  {
    var f := FoldAll(q);
    forall i | 0 <= i <= |s| - |q| ensures MatchesAt(s, q, i) <==> MatchesAt(s, f, i) {
      forall k | 0 <= k < |q| ensures Fold(f[k]) == Fold(q[k]) {
        FoldIdempotent(q[k]);
      }
    }
    if ContainsIgnoreCase(s, q) {
      var i :| 0 <= i <= |s| - |q| && MatchesAt(s, q, i);
      assert MatchesAt(s, f, i);
    }
    if ContainsIgnoreCase(s, f) {
      var i :| 0 <= i <= |s| - |f| && MatchesAt(s, f, i);
      assert MatchesAt(s, q, i);
    }
  }

  /** The `n` characters of `s` from offset `i`, folded. */
  function FoldedSlice(s: string, i: nat, n: nat): string
    requires i + n <= |s|
  {
    FoldAll(s)[i..i + n]
  }

  /** A name contains a query exactly when the folded query is a slice of the folded name. */
  lemma ContainsMeansFoldedSlice(s: string, q: string)
    ensures ContainsIgnoreCase(s, q) <==>
      exists i :: 0 <= i <= |s| - |q| && FoldedSlice(s, i, |q|) == FoldAll(q)
  {
    var fs, fq := FoldAll(s), FoldAll(q);
    forall i | 0 <= i <= |s| - |q| ensures MatchesAt(s, q, i) <==> FoldedSlice(s, i, |q|) == fq {
      if MatchesAt(s, q, i) {
        assert forall k :: 0 <= k < |q| ==> fs[i..i + |q|][k] == fq[k];
      }
      if fs[i..i + |q|] == fq {
        forall k | 0 <= k < |q| ensures Fold(s[i + k]) == Fold(q[k]) {
          assert fs[i..i + |q|][k] == fs[i + k];
        }
      }
    }
    if ContainsIgnoreCase(s, q) {
      var i :| 0 <= i <= |s| - |q| && MatchesAt(s, q, i);
      assert fs[i..i + |q|] == fq;
    }
    if exists i :: 0 <= i <= |s| - |q| && FoldedSlice(s, i, |q|) == fq {
      var i :| 0 <= i <= |s| - |q| && FoldedSlice(s, i, |q|) == fq;
      assert MatchesAt(s, q, i);
    }
  }

  /** The case a name is written in does not change which queries it matches. */
  lemma NameCaseIrrelevant(s: string, q: string)
    ensures ContainsIgnoreCase(s, q) <==> ContainsIgnoreCase(FoldAll(s), q)
  {
    var f := FoldAll(s);
    forall i | 0 <= i <= |s| - |q| ensures MatchesAt(s, q, i) <==> MatchesAt(f, q, i) {
      forall k | 0 <= k < |q| ensures Fold(f[i + k]) == Fold(q[k]) <==> Fold(s[i + k]) == Fold(q[k]) {
        FoldIdempotent(s[i + k]);
      }
    }
    if ContainsIgnoreCase(s, q) {
      var i :| 0 <= i <= |s| - |q| && MatchesAt(s, q, i);
      assert MatchesAt(f, q, i);
    }
    if ContainsIgnoreCase(f, q) {
      var i :| 0 <= i <= |f| - |q| && MatchesAt(f, q, i);
      assert MatchesAt(s, q, i);
    }
  }
}
