/**
 * `re.sub(pattern, "", s)` for patterns that never match the empty string.
 *
 * A pattern is given by its matcher: `matchLen(t)` is the length of the match the
 * regex engine finds at the very start of `t`, or 0 when there is none. The scan
 * tries every position from left to right; at a match it deletes the matched text
 * and resumes right after it (matches never overlap), otherwise it keeps one
 * character and moves on.
 */
module RegexSub {
  import opened Seqs

  /** The matcher finds a (non-empty) match at the start of `t`. */
  predicate MatchesAtStart(t: string, matchLen: string -> nat) {
    0 < matchLen(t) <= |t|
  }

  /** Delete every leftmost, non-overlapping match of the pattern from `s`. */
  function Substitute(s: string, matchLen: string -> nat): (r: string)
    ensures |r| <= |s|
    ensures |s| > 0 && !MatchesAtStart(s, matchLen) ==> |r| > 0 && r[0] == s[0]
    decreases |s|
  {
    if |s| == 0 then ""
    else if MatchesAtStart(s, matchLen) then Substitute(s[matchLen(s)..], matchLen)
    else [s[0]] + Substitute(s[1..], matchLen)
  }

  /** The substitution only deletes: its result is an order-preserving subsequence of its input. */
  lemma {:induction false} SubstituteIsSubsequence(s: string, matchLen: string -> nat)
    ensures IsSubsequence(Substitute(s, matchLen), s)
    decreases |s|
  {
    if |s| > 0 {
      if MatchesAtStart(s, matchLen) {
        SubstituteIsSubsequence(s[matchLen(s)..], matchLen);
        SubsequenceOfSuffix(Substitute(s, matchLen), s, matchLen(s));
      } else {
        SubstituteIsSubsequence(s[1..], matchLen);
        assert Substitute(s, matchLen) == [s[0]] + Substitute(s[1..], matchLen);
      }
    }
  }

  /** Every character of the result was already in the input. */
  lemma SubstituteKeepsCharacters(s: string, matchLen: string -> nat, c: char)
    requires c in Substitute(s, matchLen)
    ensures c in s
  {
    SubstituteIsSubsequence(s, matchLen);
    SubsequenceElements(Substitute(s, matchLen), s, c);
  }

  /** A string in which the pattern matches nowhere is returned unchanged. */
  lemma {:induction false} SubstituteWithoutMatch(s: string, matchLen: string -> nat)
    requires forall i :: 0 <= i < |s| ==> !MatchesAtStart(s[i..], matchLen)
    ensures Substitute(s, matchLen) == s
    decreases |s|
  {
    if |s| > 0 {
      assert s[0..] == s;
      forall i | 0 <= i < |s[1..]|
        ensures !MatchesAtStart(s[1..][i..], matchLen)
      {
        assert s[1..][i..] == s[i + 1..];
      }
      SubstituteWithoutMatch(s[1..], matchLen);
    }
  }

  /** No match starts in the first `i` positions of `s`. */
  predicate NoMatchBefore(s: string, matchLen: string -> nat, i: nat)
    requires i <= |s|
  {
    forall j :: 0 <= j < i ==> !MatchesAtStart(s[j..], matchLen)
  }

  /** Dropping the head of `s` shifts the match-free range one position left. */
  lemma NoMatchBeforeTail(s: string, matchLen: string -> nat, i: nat)
    requires 0 < i <= |s| && NoMatchBefore(s, matchLen, i)
    ensures !MatchesAtStart(s, matchLen) && NoMatchBefore(s[1..], matchLen, i - 1)
  {
    assert s[0..] == s;
    forall j | 0 <= j < i - 1
      ensures !MatchesAtStart(s[1..][j..], matchLen)
    {
      assert s[1..][j..] == s[j + 1..];
    }
  }

  /** A prefix in which no match starts is kept verbatim, and the scan continues after it. */
  lemma {:induction false} SubstituteKeepsMatchFreePrefix(s: string, matchLen: string -> nat, i: nat)
    requires i <= |s| && NoMatchBefore(s, matchLen, i)
    ensures Substitute(s, matchLen) == s[..i] + Substitute(s[i..], matchLen)
    decreases i
  {
    if i == 0 {
      assert s[0..] == s;
      assert s[..0] + Substitute(s, matchLen) == Substitute(s, matchLen);
    } else {
      var t := s[1..];
      NoMatchBeforeTail(s, matchLen, i);
      SubstituteKeepsMatchFreePrefix(t, matchLen, i - 1);
      assert t[i - 1..] == s[i..];
      assert s[..i][1..] == t[..i - 1];
      ConsAppend(s[..i], Substitute(s[i..], matchLen));
    }
  }

  /**
   * Up to the first match the input is kept verbatim; that match is deleted and the
   * scan resumes right after it.
   */
  lemma SubstituteAtFirstMatch(s: string, matchLen: string -> nat, i: nat)
    requires i < |s| && MatchesAtStart(s[i..], matchLen)
    requires forall j :: 0 <= j < i ==> !MatchesAtStart(s[j..], matchLen)
    ensures Substitute(s, matchLen) == s[..i] + Substitute(s[i + matchLen(s[i..])..], matchLen)
  {
    assert NoMatchBefore(s, matchLen, i);
    SubstituteKeepsMatchFreePrefix(s, matchLen, i);
    assert s[i..][matchLen(s[i..])..] == s[i + matchLen(s[i..])..];
  }

  /** Every match begins with a character satisfying `start`. */
  ghost predicate StartsOnly(matchLen: string -> nat, start: char -> bool) {
    forall t: string :: MatchesAtStart(t, matchLen) ==> start(t[0])
  }

  /** The character right after a match, if any, satisfies `follow`. */
  ghost predicate EndsBefore(matchLen: string -> nat, follow: char -> bool) {
    forall t: string :: MatchesAtStart(t, matchLen) && matchLen(t) < |t| ==> follow(t[matchLen(t)])
  }

  /** Right after a deleted match the output is empty or continues with the character that ended the match. */
  lemma SubstituteAfterMatch(u: string, matchLen: string -> nat, start: char -> bool, follow: char -> bool)
    requires StartsOnly(matchLen, start)
    requires EndsBefore(matchLen, follow)
    requires forall c :: follow(c) ==> !start(c)
    requires MatchesAtStart(u, matchLen)
    ensures var r := Substitute(u, matchLen); |r| == 0 <==> matchLen(u) == |u|
    ensures var r := Substitute(u, matchLen); |r| > 0 ==> r[0] == u[matchLen(u)]
  {
    var k := matchLen(u);
    if k < |u| {
      assert u[k..][0] == u[k];
    }
  }

  /** An output that starts with a character that is neither a `start` character nor one that can follow a match was not produced by deleting a match. */
  lemma SubstituteKeptHead(u: string, matchLen: string -> nat, start: char -> bool, follow: char -> bool)
    requires StartsOnly(matchLen, start)
    requires EndsBefore(matchLen, follow)
    requires forall c :: follow(c) ==> !start(c)
    requires var r := Substitute(u, matchLen); |r| > 0 && !start(r[0]) && !follow(r[0])
    ensures |u| > 0 && !MatchesAtStart(u, matchLen)
    ensures Substitute(u, matchLen) == [u[0]] + Substitute(u[1..], matchLen)
  {
    if MatchesAtStart(u, matchLen) {
      SubstituteAfterMatch(u, matchLen, start, follow);
    }
  }

  /**
   * If the output starts with `p`, the input started with `p` and that prefix was kept,
   * provided every match begins with a `start` character, none of `p`'s characters is one,
   * and the character after a match is a `follow` character, which is neither a `start`
   * character nor one of `p`'s.
   */
  lemma {:induction false} SubstituteKeepsPrefix(u: string, matchLen: string -> nat, start: char -> bool, follow: char -> bool, p: string)
    requires StartsOnly(matchLen, start)
    requires EndsBefore(matchLen, follow)
    requires forall c :: follow(c) ==> !start(c)
    requires forall j :: 0 <= j < |p| ==> !start(p[j]) && !follow(p[j])
    requires StartsWith(Substitute(u, matchLen), p)
    ensures StartsWith(u, p) && Substitute(u, matchLen) == p + Substitute(u[|p|..], matchLen)
    decreases |p|
  {
    if |p| == 0 {
      assert u[0..] == u;
    } else {
      var r := Substitute(u, matchLen);
      StartsWithHead(r, p);
      SubstituteKeptHead(u, matchLen, start, follow);
      var u1 := u[1..];
      StartsWithTail(u[0], Substitute(u1, matchLen), p);
      SubstituteKeepsPrefix(u1, matchLen, start, follow, p[1..]);
      StartsWithCons(u, p);
      assert u1[|p| - 1..] == u[|p|..];
      ConsAppend(p, Substitute(u[|p|..], matchLen));
    }
  }

  /** A prefix none of whose characters can begin a match passes through the substitution. */
  lemma {:induction false} SubstituteKeepsPlainPrefix(s: string, matchLen: string -> nat, start: char -> bool, p: string)
    requires StartsOnly(matchLen, start)
    requires forall j :: 0 <= j < |p| ==> !start(p[j])
    requires StartsWith(s, p)
    ensures StartsWith(Substitute(s, matchLen), p)
    decreases |p|
  {
    if |p| > 0 {
      StartsWithHead(s, p);
      assert !MatchesAtStart(s, matchLen);
      assert StartsWith(s[1..], p[1..]) by {
        StartsWithTail(s[0], s[1..], p);
      }
      SubstituteKeepsPlainPrefix(s[1..], matchLen, start, p[1..]);
      StartsWithCons(Substitute(s, matchLen), p);
    }
  }
}
