/** Sequence operations with the semantics of Python's `str.replace`,
    `str.split` and `str.join`, and the subsequence order used to say that a
    rewrite only deletes. */
module Strings {

  /** `pat` occurs in `s` starting at index `i`. */
  predicate MatchAt<T(==)>(s: seq<T>, i: int, pat: seq<T>) {
    0 <= i && i + |pat| <= |s| && s[i..i + |pat|] == pat
  }

  /** `pat` occurs somewhere in `s` (Python's `pat in s`). */
  ghost predicate Contains<T>(s: seq<T>, pat: seq<T>) {
    exists i :: MatchAt(s, i, pat)
  }

  /** `n` copies of `x`. */
  function Repeat<T>(x: T, n: nat): (r: seq<T>)
    ensures |r| == n
    ensures forall i :: 0 <= i < n ==> r[i] == x
  {
    seq(n, _ => x)
  }

  /** Python's `s.replace(pat, rep)` for a non-empty `pat`: one left-to-right
      scan that replaces each leftmost occurrence and resumes after it, so
      occurrences never overlap and a replacement is never rescanned. */
  function ReplaceAll<T(==)>(s: seq<T>, pat: seq<T>, rep: seq<T>): (r: seq<T>)
    requires |pat| > 0
    ensures |rep| <= |pat| ==> |r| <= |s|
    ensures |rep| == |pat| ==> |r| == |s|
    decreases |s|
  {
    if |s| < |pat| then s
    else if s[..|pat|] == pat then rep + ReplaceAll(s[|pat|..], pat, rep)
    else [s[0]] + ReplaceAll(s[1..], pat, rep)
  }

  /** Python's `s.split(sep)` for a non-empty `sep`: the pieces between the
      leftmost non-overlapping occurrences of `sep`; never an empty list. */
  function Split<T(==)>(s: seq<T>, sep: seq<T>): (parts: seq<seq<T>>)
    requires |sep| > 0
    ensures |parts| >= 1
    decreases |s|
  {
    if |s| < |sep| then [s]
    else if s[..|sep|] == sep then [[]] + Split(s[|sep|..], sep)
    else
      var rest := Split(s[1..], sep);
      [[s[0]] + rest[0]] + rest[1..]
  }

  /** Python's `sep.join(parts)`. */
  function Join<T>(parts: seq<seq<T>>, sep: seq<T>): seq<T>
    decreases |parts|
  {
    if |parts| == 0 then []
    else if |parts| == 1 then parts[0]
    else parts[0] + sep + Join(parts[1..], sep)
  }

  /** `a` is obtained from `b` by deleting some elements. */
  predicate IsSubsequence<T(==)>(a: seq<T>, b: seq<T>)
    decreases |b|
  {
    && |a| <= |b|
    && (|a| == 0
        || (a[0] == b[0] && IsSubsequence(a[1..], b[1..]))
        || IsSubsequence(a, b[1..]))
  }

  // ---------------------------------------------------------------------
  // Occurrences

  /** Every element of an occurring pattern is an element of the sequence,
      so a sequence that lacks one of them cannot contain the pattern. */
  lemma ContainsHasElements<T>(s: seq<T>, pat: seq<T>, k: int)
    requires 0 <= k < |pat|
    ensures Contains(s, pat) ==> pat[k] in s
  {
    if Contains(s, pat) {
      var i :| MatchAt(s, i, pat);
      assert s[i + k] == s[i..i + |pat|][k] == pat[k];
    }
  }

  /** A match in a suffix is a match in the whole sequence. */
  lemma MatchInSuffix<T>(s: seq<T>, d: nat, i: int, pat: seq<T>)
    requires d <= |s|
    requires MatchAt(s[d..], i, pat)
    ensures MatchAt(s, i + d, pat)
  {
    assert s[d..][i..i + |pat|] == s[i + d..i + d + |pat|];
  }

  // ---------------------------------------------------------------------
  // ReplaceAll

  /** Replacing a pattern that does not occur leaves the sequence as it is. */
  lemma {:induction false} NoMatchUnchanged<T>(s: seq<T>, pat: seq<T>, rep: seq<T>)
    requires |pat| > 0
    requires !Contains(s, pat)
    ensures ReplaceAll(s, pat, rep) == s
    decreases |s|
  {
    if |s| >= |pat| {
      assert !MatchAt(s, 0, pat);
      forall i | MatchAt(s[1..], i, pat)
        ensures false
      {
        MatchInSuffix(s, 1, i, pat);
      }
      NoMatchUnchanged(s[1..], pat, rep);
      assert [s[0]] + s[1..] == s;
    }
  }

  /** A prefix that does not hold the first element of `pat` cannot start
      an occurrence, so the scan copies it and resumes after it. */
  lemma {:induction false} ReplaceAllSkipsPrefix<T>(a: seq<T>, y: seq<T>, pat: seq<T>, rep: seq<T>)
    requires |pat| > 0
    requires pat[0] !in a
    ensures ReplaceAll(a + y, pat, rep) == a + ReplaceAll(y, pat, rep)
    decreases |a|
  {
    if |a| > 0 {
      var s := a + y;
      if |s| < |pat| {
        assert ReplaceAll(y, pat, rep) == y;
      } else {
        assert s[0] == a[0];
        assert s[..|pat|][0] == a[0] != pat[0];
        assert s[1..] == a[1..] + y;
        ReplaceAllSkipsPrefix(a[1..], y, pat, rep);
        calc {
          ReplaceAll(s, pat, rep);
          [a[0]] + ReplaceAll(a[1..] + y, pat, rep);
          [a[0]] + (a[1..] + ReplaceAll(y, pat, rep));
          { assert [a[0]] + a[1..] == a; }
          a + ReplaceAll(y, pat, rep);
        }
      }
    } else {
      assert a + y == y;
    }
  }

  /** An occurrence at the front is replaced and the scan resumes after it. */
  lemma ReplaceAllAtMatch<T>(pat: seq<T>, rest: seq<T>, rep: seq<T>)
    requires |pat| > 0
    ensures ReplaceAll(pat + rest, pat, rep) == rep + ReplaceAll(rest, pat, rep)
  {
    var s := pat + rest;
    assert s[..|pat|] == pat;
    assert s[|pat|..] == rest;
  }

  /** A pattern whose first element is absent is never replaced. */
  lemma FirstElementAbsentUnchanged<T>(s: seq<T>, pat: seq<T>, rep: seq<T>)
    requires |pat| > 0
    requires pat[0] !in s
    ensures ReplaceAll(s, pat, rep) == s
  {
    ContainsHasElements(s, pat, 0);
    NoMatchUnchanged(s, pat, rep);
  }

  /** Replacing a pattern by itself is the identity. */
  lemma {:induction false} ReplaceWithSelf<T>(s: seq<T>, pat: seq<T>)
    requires |pat| > 0
    ensures ReplaceAll(s, pat, pat) == s
    decreases |s|
  {
    if |s| >= |pat| {
      if s[..|pat|] == pat {
        ReplaceWithSelf(s[|pat|..], pat);
        assert s[..|pat|] + s[|pat|..] == s;
      } else {
        ReplaceWithSelf(s[1..], pat);
        assert [s[0]] + s[1..] == s;
      }
    }
  }

  /** Joining a list with one more piece in front. */
  lemma JoinCons<T>(p: seq<T>, rest: seq<seq<T>>, sep: seq<T>)
    requires |rest| >= 1
    ensures Join([p] + rest, sep) == p + sep + Join(rest, sep)
  {
    assert ([p] + rest)[1..] == rest;
  }

  /** Joining a list whose first piece is extended in front. */
  lemma JoinExtendFirst<T>(x: T, rest: seq<seq<T>>, sep: seq<T>)
    requires |rest| >= 1
    ensures Join([[x] + rest[0]] + rest[1..], sep) == [x] + Join(rest, sep)
  {
    if |rest| > 1 {
      JoinCons([x] + rest[0], rest[1..], sep);
      JoinCons(rest[0], rest[1..], sep);
      assert [rest[0]] + rest[1..] == rest;
    }
  }

  /** Python's identity `s.replace(pat, rep) == rep.join(s.split(pat))`. */
  lemma {:induction false} ReplaceAllIsJoinOfSplit<T>(s: seq<T>, pat: seq<T>, rep: seq<T>)
    requires |pat| > 0
    ensures ReplaceAll(s, pat, rep) == Join(Split(s, pat), rep)
    decreases |s|
  {
    if |s| >= |pat| {
      if s[..|pat|] == pat {
        var tail := s[|pat|..];
        ReplaceAllIsJoinOfSplit(tail, pat, rep);
        JoinCons([], Split(tail, pat), rep);
        assert ReplaceAll(s, pat, rep) == rep + ReplaceAll(tail, pat, rep);
        assert Split(s, pat) == [[]] + Split(tail, pat);
      } else {
        ReplaceAllIsJoinOfSplit(s[1..], pat, rep);
        var rest := Split(s[1..], pat);
        JoinExtendFirst(s[0], rest, rep);
        assert ReplaceAll(s, pat, rep) == [s[0]] + ReplaceAll(s[1..], pat, rep);
        assert Split(s, pat) == [[s[0]] + rest[0]] + rest[1..];
      }
    }
  }

  /** Joining the pieces of a split with the same separator gives back the
      input. */
  lemma JoinSplit<T>(s: seq<T>, sep: seq<T>)
    requires |sep| > 0
    ensures Join(Split(s, sep), sep) == s
  {
    ReplaceAllIsJoinOfSplit(s, sep, sep);
    ReplaceWithSelf(s, sep);
  }

  // ---------------------------------------------------------------------
  // Split and Join on a one-element separator

  /** A sequence without the separator splits into itself alone. */
  lemma {:induction false} SplitWithoutSeparator<T>(s: seq<T>, c: T)
    requires c !in s
    ensures Split(s, [c]) == [s]
    decreases |s|
  {
    if |s| > 0 {
      assert s[..1] != [c] by { assert s[..1][0] == s[0]; }
      SplitWithoutSeparator(s[1..], c);
      assert [s[0]] + s[1..] == s;
    }
  }

  /** The first separator ends the first piece. */
  lemma {:induction false} SplitAtFirstSeparator<T>(p: seq<T>, c: T, t: seq<T>)
    requires c !in p
    ensures Split(p + [c] + t, [c]) == [p] + Split(t, [c])
    decreases |p|
  {
    var s := p + [c] + t;
    if |p| == 0 {
      assert s[..1] == [c];
      assert s[1..] == t;
    } else {
      assert s[..1] != [c] by { assert s[..1][0] == p[0]; }
      assert s[1..] == p[1..] + [c] + t;
      SplitAtFirstSeparator(p[1..], c, t);
      assert [p[0]] + p[1..] == p;
    }
  }

  /** No piece of a split on `c` contains `c`. */
  lemma {:induction false} SplitPiecesLackSeparator<T>(s: seq<T>, c: T)
    ensures forall k :: 0 <= k < |Split(s, [c])| ==> c !in Split(s, [c])[k]
    decreases |s|
  {
    if |s| >= 1 {
      SplitPiecesLackSeparator(s[1..], c);
      if s[..1] == [c] {
        assert s[1..] == s[|[c]|..];
      } else {
        assert s[0] != c by { assert s[..1] == [s[0]]; }
      }
    }
  }

  /** Splitting what was joined with a one-element separator that no piece
      contains gives back the pieces. */
  lemma {:induction false} SplitJoin<T>(parts: seq<seq<T>>, c: T)
    requires |parts| >= 1
    requires forall k :: 0 <= k < |parts| ==> c !in parts[k]
    ensures Split(Join(parts, [c]), [c]) == parts
    decreases |parts|
  {
    if |parts| == 1 {
      SplitWithoutSeparator(parts[0], c);
    } else {
      SplitJoin(parts[1..], c);
      SplitAtFirstSeparator(parts[0], c, Join(parts[1..], [c]));
      assert [parts[0]] + parts[1..] == parts;
    }
  }

  /** Joining one more piece appends the separator and that piece. */
  lemma {:induction false} JoinSnoc<T>(parts: seq<seq<T>>, last: seq<T>, sep: seq<T>)
    requires |parts| >= 1
    ensures Join(parts + [last], sep) == Join(parts, sep) + sep + last
    decreases |parts|
  {
    if |parts| > 1 {
      JoinSnoc(parts[1..], last, sep);
      assert (parts + [last])[1..] == parts[1..] + [last];
    }
  }

  // ---------------------------------------------------------------------
  // Subsequences

  lemma {:induction false} SubsequenceReflexive<T>(a: seq<T>)
    ensures IsSubsequence(a, a)
    decreases |a|
  {
    if |a| > 0 {
      SubsequenceReflexive(a[1..]);
    }
  }

  /** Elements may be added in front of the larger sequence. */
  lemma {:induction false} SubsequenceWiden<T>(c: seq<T>, b: seq<T>, d: seq<T>)
    requires IsSubsequence(c, d)
    ensures IsSubsequence(c, b + d)
    decreases |b|
  {
    if |b| > 0 {
      SubsequenceWiden(c, b[1..], d);
      assert (b + d)[1..] == b[1..] + d;
      assert IsSubsequence(c, (b + d)[1..]);
    } else {
      assert b + d == d;
    }
  }

  /** Subsequences concatenate. */
  lemma {:induction false} SubsequenceConcat<T>(a: seq<T>, b: seq<T>, c: seq<T>, d: seq<T>)
    requires IsSubsequence(a, b)
    requires IsSubsequence(c, d)
    ensures IsSubsequence(a + c, b + d)
    decreases |b|
  {
    if |a| == 0 {
      assert a + c == c;
      SubsequenceWiden(c, b, d);
    } else {
      assert (b + d)[1..] == b[1..] + d;
      if a[0] == b[0] && IsSubsequence(a[1..], b[1..]) {
        SubsequenceConcat(a[1..], b[1..], c, d);
        assert (a + c)[1..] == a[1..] + c;
      } else {
        SubsequenceConcat(a, b[1..], c, d);
      }
    }
  }

  lemma {:induction false} SubsequenceTransitive<T>(a: seq<T>, b: seq<T>, c: seq<T>)
    requires IsSubsequence(a, b)
    requires IsSubsequence(b, c)
    ensures IsSubsequence(a, c)
    decreases |c|
  {
    if |a| > 0 {
      if b[0] == c[0] && IsSubsequence(b[1..], c[1..]) {
        if a[0] == b[0] && IsSubsequence(a[1..], b[1..]) {
          SubsequenceTransitive(a[1..], b[1..], c[1..]);
        } else {
          SubsequenceTransitive(a, b[1..], c[1..]);
        }
      } else {
        SubsequenceTransitive(a, b, c[1..]);
      }
    }
  }

  /** A subsequence takes each element at most as often as the sequence. */
  lemma {:induction false} SubsequenceMultiset<T>(a: seq<T>, b: seq<T>)
    requires IsSubsequence(a, b)
    ensures multiset(a) <= multiset(b)
    decreases |b|
  {
    if |a| > 0 {
      assert b == [b[0]] + b[1..];
      if a[0] == b[0] && IsSubsequence(a[1..], b[1..]) {
        SubsequenceMultiset(a[1..], b[1..]);
        assert a == [a[0]] + a[1..];
      } else {
        SubsequenceMultiset(a, b[1..]);
      }
    }
  }

  /** When the replacement is a subsequence of the pattern, `ReplaceAll`
      only deletes elements. */
  lemma {:induction false} ReplaceAllDeletes<T>(s: seq<T>, pat: seq<T>, rep: seq<T>)
    requires |pat| > 0
    requires IsSubsequence(rep, pat)
    ensures IsSubsequence(ReplaceAll(s, pat, rep), s)
    decreases |s|
  {
    if |s| < |pat| {
      SubsequenceReflexive(s);
    } else if s[..|pat|] == pat {
      ReplaceAllDeletes(s[|pat|..], pat, rep);
      SubsequenceConcat(rep, pat, ReplaceAll(s[|pat|..], pat, rep), s[|pat|..]);
      assert pat + s[|pat|..] == s;
    } else {
      ReplaceAllDeletes(s[1..], pat, rep);
      SubsequenceReflexive([s[0]]);
      SubsequenceConcat([s[0]], [s[0]], ReplaceAll(s[1..], pat, rep), s[1..]);
      assert [s[0]] + s[1..] == s;
    }
  }
}
