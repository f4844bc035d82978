/**
 * Literal text search, replacement and counting, as `java.lang.String`
 * provides them: `contains`, `indexOf`, `replace(CharSequence, CharSequence)`.
 */
module Text {
  import opened Options

  /** Regrouping a concatenation, for proofs that need it spelled out. */
  lemma AppendAssoc<A>(a: seq<A>, b: seq<A>, c: seq<A>)
    ensures (a + b) + c == a + (b + c)
  {
  }

  /** A prefix one element longer. */
  lemma TakeNext<A>(s: seq<A>, j: nat)
    requires j < |s|
    ensures s[..j + 1] == s[..j] + [s[j]]
  {
  }

  /** `pat` occurs in `s` starting at index `i`. */
  predicate OccursAt(s: string, pat: string, i: int) {
    0 <= i && i + |pat| <= |s| && s[i..i + |pat|] == pat
  }

  /** `s.contains(pat)`. */
  predicate Contains(s: string, pat: string) {
    exists i | 0 <= i <= |s| :: OccursAt(s, pat, i)
  }

  /** `s.indexOf(pat, from)`: the first occurrence of `pat` at or after `from`. */
  function Find(s: string, pat: string, from: nat): (r: Option<nat>)
    decreases |s| - from
    ensures r.Some? ==> from <= r.value && OccursAt(s, pat, r.value)
    ensures r.Some? ==> forall j :: from <= j < r.value ==> !OccursAt(s, pat, j)
    ensures r.None? ==> forall j :: from <= j ==> !OccursAt(s, pat, j)
  {
    if from + |pat| > |s| then None
    else if s[from..from + |pat|] == pat then Some(from)
    else Find(s, pat, from + 1)
  }

  /**
   * `s.replace(pat, rep)`: scanning left to right, every occurrence of `pat`
   * that does not overlap an earlier replaced one becomes `rep`.
   */
  function ReplaceAll(s: string, pat: string, rep: string): string
    requires pat != []
    decreases |s|
  {
    if |s| < |pat| then s
    else if s[..|pat|] == pat then rep + ReplaceAll(s[|pat|..], pat, rep)
    else [s[0]] + ReplaceAll(s[1..], pat, rep)
  }

  /** The number of (possibly overlapping) occurrences of `pat` in `s`. */
  function Count(s: string, pat: string): nat
    requires pat != []
    decreases |s|
  {
    if |s| < |pat| then 0
    else (if s[..|pat|] == pat then 1 else 0) + Count(s[1..], pat)
  }

  /** No proper suffix of `pat` starts like `pat`: its first character does not recur. */
  predicate FirstCharUnique(pat: string) {
    pat != [] && forall k :: 0 < k < |pat| ==> pat[k] != pat[0]
  }

  lemma OccursShift(s: string, pat: string, j: nat)
    requires s != []
    ensures OccursAt(s[1..], pat, j) <==> OccursAt(s, pat, j + 1)
  {
    if j + 1 + |pat| <= |s| {
      assert s[1..][j..j + |pat|] == s[j + 1..j + 1 + |pat|];
    }
  }

  /** Text before the first occurrence is copied unchanged. */
  lemma {:induction false} ReplaceAllSplit(s: string, pat: string, rep: string, k: nat)
    requires pat != [] && k <= |s|
    requires forall j :: 0 <= j < k ==> !OccursAt(s, pat, j)
    ensures ReplaceAll(s, pat, rep) == s[..k] + ReplaceAll(s[k..], pat, rep)
    decreases k
  {
    if k == 0 {
      assert s[..0] == [] && s[0..] == s;
    } else if |s| < |pat| {
      assert s[..k] + s[k..] == s;
    } else {
      assert !OccursAt(s, pat, 0);
      assert s[..|pat|] != pat;
      forall j | 0 <= j < k - 1 ensures !OccursAt(s[1..], pat, j) {
        OccursShift(s, pat, j);
      }
      ReplaceAllSplit(s[1..], pat, rep, k - 1);
      assert s[1..][..k - 1] == s[1..k];
      assert s[1..][k - 1..] == s[k..];
      assert [s[0]] + s[1..k] == s[..k];
    }
  }

  /** A text without the pattern is left as it is. */
  lemma ReplaceAllAbsent(s: string, pat: string, rep: string)
    requires pat != [] && !Contains(s, pat)
    ensures ReplaceAll(s, pat, rep) == s
  {
    ReplaceAllSplit(s, pat, rep, |s|);
    assert s[..|s|] == s && s[|s|..] == [];
  }

  /** The first occurrence is replaced and scanning resumes after it. */
  lemma ReplaceAllFirst(s: string, pat: string, rep: string, k: nat)
    requires pat != [] && OccursAt(s, pat, k)
    requires forall j :: 0 <= j < k ==> !OccursAt(s, pat, j)
    ensures ReplaceAll(s, pat, rep) == s[..k] + rep + ReplaceAll(s[k + |pat|..], pat, rep)
  {
    ReplaceAllSplit(s, pat, rep, k);
    var t := s[k..];
    assert |t| >= |pat| && t[..|pat|] == pat;
    ReplaceAllHead(t, pat, rep);
    assert t[|pat|..] == s[k + |pat|..];
    AppendAssoc(s[..k], rep, ReplaceAll(s[k + |pat|..], pat, rep));
  }

  lemma ReplaceAllHead(t: string, pat: string, rep: string)
    requires pat != [] && |t| >= |pat| && t[..|pat|] == pat
    ensures ReplaceAll(t, pat, rep) == rep + ReplaceAll(t[|pat|..], pat, rep)
  {
  }

  /** Occurrences at the first `k` positions are the only ones skipped by dropping them. */
  lemma {:induction false} CountSkip(s: string, pat: string, k: nat)
    requires pat != [] && k <= |s|
    requires forall j :: 0 <= j < k ==> !OccursAt(s, pat, j)
    ensures Count(s, pat) == Count(s[k..], pat)
    decreases k
  {
    if k == 0 {
      assert s[0..] == s;
    } else if |s| < |pat| {
    } else {
      assert !OccursAt(s, pat, 0);
      forall j | 0 <= j < k - 1 ensures !OccursAt(s[1..], pat, j) {
        OccursShift(s, pat, j);
      }
      CountSkip(s[1..], pat, k - 1);
      assert s[1..][k - 1..] == s[k..];
    }
  }

  /** Counting distributes over concatenation when no occurrence straddles the seam. */
  lemma {:induction false} CountConcat(a: string, b: string, pat: string)
    requires pat != []
    requires forall k :: 0 <= k < |a| && |a| < k + |pat| ==> !OccursAt(a + b, pat, k)
    ensures Count(a + b, pat) == Count(a, pat) + Count(b, pat)
    decreases |a|
  {
    if a == [] {
      assert a + b == b;
    } else {
      var ab := a + b;
      assert ab[1..] == a[1..] + b;
      forall k | 0 <= k < |a[1..]| && |a[1..]| < k + |pat|
        ensures !OccursAt(a[1..] + b, pat, k)
      {
        OccursShift(ab, pat, k);
      }
      CountConcat(a[1..], b, pat);
      if |a| >= |pat| {
        assert ab[..|pat|] == a[..|pat|];
      } else {
        assert !OccursAt(ab, pat, 0);
      }
    }
  }

  /**
   * Replacing every occurrence of a pattern whose first character does not
   * recur by a text that ends with the pattern, holds it exactly once and does
   * not start with a character of the pattern's tail, keeps the number of
   * occurrences.
   */
  lemma {:induction false} CountReplaceAll(s: string, pat: string, rep: string)
    requires FirstCharUnique(pat)
    requires |rep| >= |pat| && rep[|rep| - |pat|..] == pat
    requires Count(rep, pat) == 1
    requires forall k :: 0 < k < |pat| ==> pat[k] != rep[0]
    ensures Count(ReplaceAll(s, pat, rep), pat) == Count(s, pat)
    decreases |s|
  {
    if |s| < |pat| {
    } else if s[..|pat|] == pat {
      CountReplaceAll(s[|pat|..], pat, rep);
      CountAfterHit(s, pat, rep, ReplaceAll(s[|pat|..], pat, rep));
    } else {
      CountReplaceAll(s[1..], pat, rep);
      ReplacedHeadStable(s, pat, rep);
      CountAfterMiss(s, pat, ReplaceAll(s[1..], pat, rep));
    }
  }

  /** The step of `CountReplaceAll` where `s` starts with the pattern. */
  lemma CountAfterHit(s: string, pat: string, rep: string, tr: string)
    requires FirstCharUnique(pat)
    requires |rep| >= |pat| && rep[|rep| - |pat|..] == pat
    requires Count(rep, pat) == 1
    requires |s| >= |pat| && s[..|pat|] == pat
    requires Count(tr, pat) == Count(s[|pat|..], pat)
    ensures Count(rep + tr, pat) == Count(s, pat)
  {
    NoStraddle(rep, tr, pat);
    CountConcat(rep, tr, pat);
    CountAfterPattern(s, pat);
  }

  /** No occurrence straddles a replacement text that ends with the pattern. */
  lemma NoStraddle(rep: string, tr: string, pat: string)
    requires FirstCharUnique(pat)
    requires |rep| >= |pat| && rep[|rep| - |pat|..] == pat
    ensures forall k :: 0 <= k < |rep| && |rep| < k + |pat| ==> !OccursAt(rep + tr, pat, k)
  {
    forall k | 0 <= k < |rep| && |rep| < k + |pat| ensures !OccursAt(rep + tr, pat, k) {
      var o := k - (|rep| - |pat|);
      assert (rep + tr)[k] == rep[|rep| - |pat|..][o] == pat[o] != pat[0];
      assert k + |pat| <= |rep + tr| ==> (rep + tr)[k..k + |pat|][0] != pat[0];
    }
  }

  /** A text starting with the pattern has one occurrence more than what follows it. */
  lemma CountAfterPattern(s: string, pat: string)
    requires FirstCharUnique(pat)
    requires |s| >= |pat| && s[..|pat|] == pat
    ensures Count(s, pat) == 1 + Count(s[|pat|..], pat)
  {
    forall j | 0 <= j < |pat| - 1 ensures !OccursAt(s[1..], pat, j) {
      assert s[1..][j] == s[j + 1] == pat[j + 1];
    }
    CountSkip(s[1..], pat, |pat| - 1);
    assert s[1..][|pat| - 1..] == s[|pat|..];
  }

  /** The step of `CountReplaceAll` where `s` does not start with the pattern. */
  lemma CountAfterMiss(s: string, pat: string, tr: string)
    requires pat != [] && |s| >= |pat| && s[..|pat|] != pat
    requires !OccursAt([s[0]] + tr, pat, 0)
    requires Count(tr, pat) == Count(s[1..], pat)
    ensures Count([s[0]] + tr, pat) == Count(s, pat)
  {
    var head := [s[0]] + tr;
    assert head[1..] == tr;
    assert |head| >= |pat| ==> head[..|pat|] != pat;
  }

  /**
   * Replacing inside the tail of `s` cannot create an occurrence at its head
   * when `s` had none there.
   */
  lemma ReplacedHeadStable(s: string, pat: string, rep: string)
    requires FirstCharUnique(pat) && |rep| >= |pat|
    requires forall k :: 0 < k < |pat| ==> pat[k] != rep[0]
    requires s != [] && !OccursAt(s, pat, 0)
    ensures !OccursAt([s[0]] + ReplaceAll(s[1..], pat, rep), pat, 0)
  {
    var t := s[1..];
    match Find(t, pat, 0)
    case None =>
      ReplaceAllAbsent(t, pat, rep);
      assert [s[0]] + t == s;
    case Some(k) =>
      ReplacedHeadStableAt(s, pat, rep, k);
  }

  /** `ReplacedHeadStable` when the tail's first occurrence is at `k`. */
  lemma ReplacedHeadStableAt(s: string, pat: string, rep: string, k: nat)
    requires FirstCharUnique(pat) && |rep| >= |pat|
    requires forall j :: 0 < j < |pat| ==> pat[j] != rep[0]
    requires s != [] && !OccursAt(s, pat, 0)
    requires OccursAt(s[1..], pat, k) && forall j :: 0 <= j < k ==> !OccursAt(s[1..], pat, j)
    ensures !OccursAt([s[0]] + ReplaceAll(s[1..], pat, rep), pat, 0)
  {
    var t := s[1..];
    ReplaceAllFirst(t, pat, rep, k);
    var rest := ReplaceAll(t[k + |pat|..], pat, rep);
    AppendAssoc([s[0]], t[..k], rep + rest);
    SpliceKeepsHead(s, pat, rep, k, rest);
  }

  /**
   * Splicing `rep` over an occurrence at `k` in the tail of `s` leaves no
   * occurrence at the head when there was none before.
   */
  lemma SpliceKeepsHead(s: string, pat: string, rep: string, k: nat, rest: string)
    requires pat != [] && |rep| >= |pat|
    requires forall j :: 0 < j < |pat| ==> pat[j] != rep[0]
    requires s != [] && !OccursAt(s, pat, 0) && k + |pat| < |s|
    ensures !OccursAt([s[0]] + (s[1..][..k] + (rep + rest)), pat, 0)
  {
    var h := [s[0]] + s[1..][..k];
    var tail := rep + rest;
    var head := [s[0]] + (s[1..][..k] + tail);
    AppendAssoc([s[0]], s[1..][..k], tail);
    assert head == h + tail;
    assert h == s[..k + 1];
    if k + 1 >= |pat| {
      assert head[..|pat|] == h[..|pat|] == s[..|pat|] != pat;
    } else {
      assert head[..|pat|][k + 1] == tail[0] == rep[0] != pat[k + 1];
    }
  }

  /** `indexOf` with a one-character pattern finds the first position holding that character. */
  lemma FindChar(s: string, c: char)
    ensures Find(s, [c], 0).None? <==> c !in s
    ensures Find(s, [c], 0).Some? ==>
      var i := Find(s, [c], 0).value; i < |s| && s[i] == c && c !in s[..i]
  {
    forall j | 0 <= j < |s| ensures OccursAt(s, [c], j) <==> s[j] == c {
      assert s[j..j + 1] == [s[j]];
    }
  }
}
