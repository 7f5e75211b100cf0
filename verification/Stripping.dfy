/** Taking a class of characters off both ends of a string. */
module Stripping {

  /** The first position from i on whose character is kept. */
  function Lead(s: string, drop: char -> bool, i: nat): (lo: nat)
    requires i <= |s|
    ensures i <= lo <= |s|
    decreases |s| - i
  {
    if i < |s| && drop(s[i]) then Lead(s, drop, i + 1) else i
  }

  /** The end of what is kept, not before lo. */
  function Trail(s: string, drop: char -> bool, lo: nat, j: nat): (hi: nat)
    requires lo <= j <= |s|
    ensures lo <= hi <= j
  {
    if lo < j && drop(s[j - 1]) then Trail(s, drop, lo, j - 1) else j
  }

  function StripBy(s: string, drop: char -> bool): string {
    var lo := Lead(s, drop, 0);
    s[lo..Trail(s, drop, lo, |s|)]
  }

  /** A string that stripping leaves alone. */
  predicate Trimmed(s: string, drop: char -> bool) {
    s == "" || (!drop(s[0]) && !drop(s[|s| - 1]))
  }

  lemma StripTrimmed(s: string, drop: char -> bool)
    requires Trimmed(s, drop)
    ensures StripBy(s, drop) == s
  {
  }

  lemma StripChanges(s: string, drop: char -> bool)
    ensures StripBy(s, drop) == s <==> Trimmed(s, drop)
    ensures |StripBy(s, drop)| <= |s| && (|StripBy(s, drop)| == |s| ==> StripBy(s, drop) == s)
  {
  }

  predicate All(s: string, drop: char -> bool) {
    forall k :: 0 <= k < |s| ==> drop(s[k])
  }

  predicate Dropped(t: string, drop: char -> bool, i: nat, j: nat) {
    forall k :: i <= k < j && k < |t| ==> drop(t[k])
  }

  lemma {:induction false} LeadSkips(t: string, drop: char -> bool, i: nat, n: nat)
    requires i <= n <= |t| && Dropped(t, drop, i, n)
    ensures Lead(t, drop, i) == Lead(t, drop, n)
    decreases n - i
  {
    if i < n { LeadSkips(t, drop, i + 1, n); }
  }

  lemma {:induction false} TrailSkips(t: string, drop: char -> bool, lo: nat, m: nat, j: nat)
    requires lo <= m <= j <= |t| && Dropped(t, drop, m, j)
    ensures Trail(t, drop, lo, j) == Trail(t, drop, lo, m)
    decreases j
  {
    if m < j { TrailSkips(t, drop, lo, m, j - 1); }
  }

  lemma {:induction false} LeadShifts(s: string, t: string, off: nat, drop: char -> bool, i: nat)
    requires i <= |s| && off + |s| <= |t| && t[off..off + |s|] == s
    ensures Lead(s, drop, i) < |s| ==> Lead(t, drop, off + i) == off + Lead(s, drop, i)
    decreases |s| - i
  {
    if i < |s| {
      assert t[off + i] == t[off..off + |s|][i] == s[i];
      if drop(s[i]) { LeadShifts(s, t, off, drop, i + 1); }
    }
  }

  lemma {:induction false} LeadAtEnd(s: string, drop: char -> bool, i: nat)
    requires i <= |s| && Lead(s, drop, i) == |s|
    ensures Dropped(s, drop, i, |s|)
    decreases |s| - i
  {
    if i < |s| { LeadAtEnd(s, drop, i + 1); }
  }

  lemma {:induction false} TrailShifts(s: string, t: string, off: nat, drop: char -> bool, lo: nat, j: nat, lo': nat,
                                       j': nat)
    requires lo <= j <= |s| && off + |s| <= |t| && t[off..off + |s|] == s
    requires lo' == off + lo && j' == off + j
    ensures Trail(t, drop, lo', j') == off + Trail(s, drop, lo, j)
    decreases j
  {
    if lo < j {
      assert t[j' - 1] == t[off..off + |s|][j - 1] == s[j - 1];
      if drop(s[j - 1]) { TrailShifts(s, t, off, drop, lo, j - 1, lo', j' - 1); }
    }
  }

  lemma SliceShifts(s: string, t: string, off: nat, lo: nat, hi: nat)
    requires lo <= hi <= |s| && off + |s| <= |t| && t[off..off + |s|] == s
    ensures t[off + lo..off + hi] == s[lo..hi]
  {
    var x, y := t[off + lo..off + hi], s[lo..hi];
    forall k | 0 <= k < |x| ensures x[k] == y[k] {
      assert x[k] == t[off + lo + k] == t[off..off + |s|][lo + k];
    }
  }

  lemma SameEnds(s: string, t: string, drop: char -> bool, lo: nat, hi: nat, lo': nat, hi': nat)
    requires Lead(s, drop, 0) == lo && Trail(s, drop, lo, |s|) == hi
    requires Lead(t, drop, 0) == lo' && Trail(t, drop, lo', |t|) == hi'
    requires t[lo'..hi'] == s[lo..hi]
    ensures StripBy(t, drop) == StripBy(s, drop)
  {
  }

  lemma PaddedLead(s: string, t: string, off: nat, drop: char -> bool)
    requires off + |s| <= |t| && t[off..off + |s|] == s && Lead(s, drop, 0) < |s|
    requires Dropped(t, drop, 0, off)
    ensures Lead(t, drop, 0) == off + Lead(s, drop, 0)
  {
    LeadShifts(s, t, off, drop, 0);
    LeadSkips(t, drop, 0, off);
  }

  /** Something of s is kept: the ends of what is kept in t are those in s, shifted. */
  lemma PaddedKept(s: string, t: string, off: nat, drop: char -> bool, lo: nat, hi: nat, lo': nat, hi': nat)
    requires off + |s| <= |t| && t[off..off + |s|] == s
    requires Lead(s, drop, 0) == lo < |s| && Trail(s, drop, lo, |s|) == hi && lo' == off + lo && hi' == off + hi
    requires Dropped(t, drop, 0, off) && Dropped(t, drop, off + |s|, |t|)
    ensures StripBy(t, drop) == StripBy(s, drop)
  {
    PaddedLead(s, t, off, drop);
    PaddedTrail(s, t, off, drop, lo, lo', off + |s|);
    SliceShifts(s, t, off, lo, hi);
    SameEnds(s, t, drop, lo, hi, lo', hi');
  }

  lemma PaddedTrail(s: string, t: string, off: nat, drop: char -> bool, lo: nat, lo': nat, m: nat)
    requires lo < |s| && m == off + |s| <= |t| && t[off..m] == s && lo' == off + lo
    requires Dropped(t, drop, m, |t|)
    ensures Trail(t, drop, lo', |t|) == off + Trail(s, drop, lo, |s|)
  {
    TrailSkips(t, drop, lo', m, |t|);
    TrailShifts(s, t, off, drop, lo, |s|, lo', m);
  }

  lemma NothingKept(t: string, drop: char -> bool)
    requires Dropped(t, drop, 0, |t|)
    ensures StripBy(t, drop) == ""
  {
    LeadSkips(t, drop, 0, |t|);
  }

  lemma PaddedParts(a: string, s: string, b: string, drop: char -> bool)
    requires All(a, drop) && All(b, drop)
    ensures var t := a + s + b;
            && t[|a|..|a| + |s|] == s && Dropped(t, drop, 0, |a|) && Dropped(t, drop, |a| + |s|, |t|)
            && (Dropped(s, drop, 0, |s|) ==> Dropped(t, drop, 0, |t|))
  {
  }

  /** Stripping takes off what is dropped on both sides of a string. */
  lemma StripPadded(a: string, s: string, b: string, drop: char -> bool)
    requires All(a, drop) && All(b, drop)
    ensures StripBy(a + s + b, drop) == StripBy(s, drop)
  {
    PaddedParts(a, s, b, drop);
    if Lead(s, drop, 0) < |s| {
      var lo := Lead(s, drop, 0);
      var hi := Trail(s, drop, lo, |s|);
      PaddedKept(s, a + s + b, |a|, drop, lo, hi, |a| + lo, |a| + hi);
    } else {
      LeadAtEnd(s, drop, 0);
      NothingKept(s, drop);
      NothingKept(a + s + b, drop);
    }
  }

  lemma {:induction false} TrailKeepsHead(s: string, drop: char -> bool, j: nat)
    requires 0 < j <= |s| && !drop(s[0])
    ensures Trail(s, drop, 0, j) > 0
  {
    if drop(s[j - 1]) { TrailKeepsHead(s, drop, j - 1); }
  }

  /** A first character that is kept stays first. */
  lemma StripKeepsHead(s: string, drop: char -> bool)
    requires s != "" && !drop(s[0])
    ensures StripBy(s, drop) != "" && StripBy(s, drop)[0] == s[0]
  {
    TrailKeepsHead(s, drop, |s|);
  }
}
