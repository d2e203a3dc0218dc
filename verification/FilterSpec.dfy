/**
 * What the word filter means, stated on sets of words and texts without any trie:
 * a text contains a word, and the text is masked leftmost start first, shortest word there.
 */
module FilterSpec {

  const STAR: char := '*'

  predicate OccursAt(w: string, t: string, i: nat) {
    i + |w| <= |t| && t[i..i + |w|] == w
  }

  /** Some non-empty word of the dictionary is a substring of `t`. */
  ghost predicate Contains(words: set<string>, t: string) {
    exists w, i: nat :: w in words && w != "" && OccursAt(w, t, i)
  }

  /** A word of `n` letters starts at `i`. */
  predicate Match(words: set<string>, t: string, i: nat, n: nat) {
    1 <= n && i + n <= |t| && t[i..i + n] in words
  }

  ghost predicate Hit(words: set<string>, t: string, i: nat) {
    exists n: nat :: Match(words, t, i, n)
  }

  ghost predicate IsShortest(words: set<string>, t: string, i: nat, n: nat) {
    Match(words, t, i, n) && forall m: nat | m < n :: !Match(words, t, i, m)
  }

  /** The length of the shortest word of at least `from` letters that starts at `i`; 0 if there is none. */
  function ShortestFrom(words: set<string>, t: string, i: nat, from: nat): (n: nat)
    requires i <= |t| && 1 <= from
    ensures i + n <= |t|
    decreases |t| - i - from
  {
    if i + from > |t| then 0
    else if Match(words, t, i, from) then from
    else ShortestFrom(words, t, i, from + 1)
  }

  /** The length of the shortest word that starts at `i`; 0 if no word starts there. */
  function ShortestAt(words: set<string>, t: string, i: nat): (n: nat)
    requires i <= |t|
    ensures i + n <= |t|
  {
    ShortestFrom(words, t, i, 1)
  }

  lemma {:induction false} ShortestFromMeans(words: set<string>, t: string, i: nat, from: nat)
    requires i <= |t| && 1 <= from
    requires forall m: nat | m < from :: !Match(words, t, i, m)
    ensures var n := ShortestFrom(words, t, i, from);
            if n == 0 then !Hit(words, t, i) else IsShortest(words, t, i, n)
    decreases |t| - i - from
  {
    if i + from <= |t| && !Match(words, t, i, from) {
      ShortestFromMeans(words, t, i, from + 1);
    }
  }

  lemma ShortestAtMeans(words: set<string>, t: string, i: nat)
    requires i <= |t|
    ensures ShortestAt(words, t, i) != 0 <==> Hit(words, t, i)
    ensures ShortestAt(words, t, i) != 0 ==> IsShortest(words, t, i, ShortestAt(words, t, i))
    ensures forall n: nat | IsShortest(words, t, i, n) :: n == ShortestAt(words, t, i)
  {
    ShortestFromMeans(words, t, i, 1);
  }

  function Stars(n: nat): (s: string)
    ensures |s| == n && forall k | 0 <= k < n :: s[k] == STAR
  {
    seq(n, _ => STAR)
  }

  /** The naive filter on the part of `t` from `i` on. */
  function MaskFrom(words: set<string>, t: string, i: nat): (m: string)
    requires i <= |t|
    ensures |m| == |t| - i
    decreases |t| - i
  {
    if i == |t| then ""
    else
      var n := ShortestAt(words, t, i);
      if n == 0 then [t[i]] + MaskFrom(words, t, i + 1)
      else Stars(n) + MaskFrom(words, t, i + n)
  }

  function Mask(words: set<string>, t: string): (m: string)
    ensures |m| == |t|
  {
    MaskFrom(words, t, 0)
  }

  ghost predicate StarFree(words: set<string>) {
    forall w | w in words :: STAR !in w
  }

  // ----- leftmost, shortest, disjoint: the ranges that are masked

  datatype Range = Range(start: nat, end: nat)

  /** The masked ranges in the order in which the scan finds them. */
  function Ranges(words: set<string>, t: string, i: nat): (rs: seq<Range>)
    requires i <= |t|
    decreases |t| - i
  {
    if i == |t| then []
    else
      var n := ShortestAt(words, t, i);
      if n == 0 then Ranges(words, t, i + 1)
      else [Range(i, i + n)] + Ranges(words, t, i + n)
  }

  ghost predicate Covered(rs: seq<Range>, k: nat) {
    exists j :: 0 <= j < |rs| && rs[j].start <= k < rs[j].end
  }

  ghost predicate ShortestRange(words: set<string>, t: string, r: Range) {
    r.start < r.end && IsShortest(words, t, r.start, r.end - r.start)
  }

  /**
   * A declarative reading of "mask the leftmost-shortest words, disjointly", for the part of `t`
   * from `i` on: the ranges ascend without overlap, each is the shortest word at its start, and
   * every occurrence of a word starts inside one of them.
   */
  ghost predicate IsMasking(words: set<string>, t: string, i: nat, rs: seq<Range>) {
    && (forall k | 0 <= k < |rs| :: i <= rs[k].start && ShortestRange(words, t, rs[k]))
    && (forall j, k | 0 <= j < k < |rs| :: rs[j].end <= rs[k].start)
    && (forall k: nat | i <= k && Hit(words, t, k) :: Covered(rs, k))
  }

  lemma CoveredCons(r: Range, rs: seq<Range>, k: nat)
    ensures Covered([r] + rs, k) <==> r.start <= k < r.end || Covered(rs, k)
  {
    var all := [r] + rs;
    if r.start <= k < r.end {
      assert all[0] == r;
    }
    if Covered(rs, k) {
      var j :| 0 <= j < |rs| && rs[j].start <= k < rs[j].end;
      assert all[j + 1] == rs[j];
    }
  }

  lemma MaskingSkip(words: set<string>, t: string, i: nat, rs: seq<Range>)
    requires !Hit(words, t, i)
    ensures IsMasking(words, t, i, rs) <==> IsMasking(words, t, i + 1, rs)
  {
    if IsMasking(words, t, i, rs) {
      forall k | 0 <= k < |rs| ensures i + 1 <= rs[k].start {
        assert ShortestRange(words, t, rs[k]);
        assert Match(words, t, rs[k].start, rs[k].end - rs[k].start);
      }
    }
  }

  lemma MaskingCons(words: set<string>, t: string, i: nat, n: nat, rest: seq<Range>)
    requires IsShortest(words, t, i, n)
    ensures IsMasking(words, t, i + n, rest) ==> IsMasking(words, t, i, [Range(i, i + n)] + rest)
  {
    var rs := [Range(i, i + n)] + rest;
    if IsMasking(words, t, i + n, rest) {
      forall k: nat | i <= k && Hit(words, t, k) ensures Covered(rs, k) {
        CoveredCons(Range(i, i + n), rest, k);
      }
      assert ShortestRange(words, t, Range(i, i + n));
    }
  }

  lemma {:induction false} RangesAreMasking(words: set<string>, t: string, i: nat)
    requires i <= |t|
    ensures IsMasking(words, t, i, Ranges(words, t, i))
    decreases |t| - i
  {
    if i < |t| {
      var n := ShortestAt(words, t, i);
      ShortestAtMeans(words, t, i);
      if n == 0 {
        RangesAreMasking(words, t, i + 1);
        MaskingSkip(words, t, i, Ranges(words, t, i + 1));
      } else {
        RangesAreMasking(words, t, i + n);
        MaskingCons(words, t, i, n, Ranges(words, t, i + n));
      }
    }
  }

  lemma MaskingHead(words: set<string>, t: string, i: nat, rs: seq<Range>, n: nat)
    requires IsMasking(words, t, i, rs) && IsShortest(words, t, i, n)
    ensures rs != [] && rs[0] == Range(i, i + n)
  {
    assert Hit(words, t, i);
    var j :| 0 <= j < |rs| && rs[j].start <= i < rs[j].end;
    assert ShortestRange(words, t, rs[0]);
    assert j == 0;
    var m := rs[0].end - i;
    assert IsShortest(words, t, i, m);
    assert !(m < n) && !(n < m);
  }

  lemma MaskingTail(words: set<string>, t: string, i: nat, rs: seq<Range>, n: nat)
    requires IsMasking(words, t, i, rs) && rs != [] && rs[0] == Range(i, i + n)
    ensures IsMasking(words, t, i + n, rs[1..])
  {
    var rest := rs[1..];
    forall k: nat | i + n <= k && Hit(words, t, k) ensures Covered(rest, k) {
      CoveredCons(rs[0], rest, k);
      assert rs == [rs[0]] + rest;
    }
  }

  lemma NoRangeAtEnd(words: set<string>, t: string, rs: seq<Range>)
    requires IsMasking(words, t, |t|, rs)
    ensures rs == []
  {
    assert |rs| > 0 ==> ShortestRange(words, t, rs[0]);
  }

  /** There is only one such list of ranges. */
  lemma {:induction false} MaskingIsUnique(words: set<string>, t: string, i: nat, rs: seq<Range>)
    requires i <= |t| && IsMasking(words, t, i, rs)
    ensures rs == Ranges(words, t, i)
    decreases |t| - i
  {
    if i == |t| {
      NoRangeAtEnd(words, t, rs);
    } else {
      var n := ShortestAt(words, t, i);
      ShortestAtMeans(words, t, i);
      if n == 0 {
        MaskingSkip(words, t, i, rs);
        MaskingIsUnique(words, t, i + 1, rs);
      } else {
        MaskingHead(words, t, i, rs, n);
        MaskingTail(words, t, i, rs, n);
        MaskingIsUnique(words, t, i + n, rs[1..]);
        assert rs == [rs[0]] + rs[1..];
      }
    }
  }

  lemma NotCoveredBefore(words: set<string>, t: string, i: nat, rs: seq<Range>, k: nat)
    requires IsMasking(words, t, i, rs) && k < i
    ensures !Covered(rs, k)
  {
  }

  /** One step of the naive filter: letter `k` of what is left is in the head or in the rest. */
  lemma MaskFromStep(words: set<string>, t: string, i: nat, k: nat)
    requires i <= k < |t|
    ensures var n := ShortestAt(words, t, i);
            var next := if n == 0 then i + 1 else i + n;
            MaskFrom(words, t, i)[k - i] ==
            if next <= k then MaskFrom(words, t, next)[k - next] else if n == 0 then t[k] else STAR
  {
    hide ShortestAt;
  }

  /** The naive filter puts '*' exactly over those ranges and keeps every other letter. */
  lemma {:induction false} MaskFromCovers(words: set<string>, t: string, i: nat, k: nat)
    requires i <= k < |t|
    ensures MaskFrom(words, t, i)[k - i] == if Covered(Ranges(words, t, i), k) then STAR else t[k]
    decreases |t| - i
  {
    hide ShortestAt, MaskFrom, Covered, IsMasking;
    var n := ShortestAt(words, t, i);
    var next := if n == 0 then i + 1 else i + n;
    var rest := Ranges(words, t, next);
    MaskFromStep(words, t, i, k);
    if n != 0 {
      CoveredCons(Range(i, i + n), rest, k);
    }
    if next <= k {
      MaskFromCovers(words, t, next, k);
    } else {
      RangesAreMasking(words, t, next);
      NotCoveredBefore(words, t, next, rest, k);
    }
  }

  /** Masking, declaratively: '*' over the one list of leftmost-shortest disjoint ranges, nothing else touched. */
  lemma MaskMeaning(words: set<string>, t: string, rs: seq<Range>)
    requires IsMasking(words, t, 0, rs)
    ensures rs == Ranges(words, t, 0)
    ensures forall k | 0 <= k < |t| :: Mask(words, t)[k] == if Covered(rs, k) then STAR else t[k]
  {
    MaskingIsUnique(words, t, 0, rs);
    forall k | 0 <= k < |t| ensures Mask(words, t)[k] == if Covered(rs, k) then STAR else t[k] {
      MaskFromCovers(words, t, 0, k);
    }
  }

  // ----- the buffer of the scan

  function Starred(s: string, start: nat, end: nat): string
    requires start <= end <= |s|
  {
    s[..start] + Stars(end - start) + s[end..]
  }

  /** The scan never stands inside a masked range. */
  ghost predicate AtBoundary(words: set<string>, t: string, i: nat) {
    i <= |t| && MaskFrom(words, t, i) == Mask(words, t)[i..]
  }

  /** The text masked up to `i`. */
  ghost function Partly(words: set<string>, t: string, i: nat): (s: string)
    requires i <= |t|
    ensures |s| == |t|
  {
    Mask(words, t)[..i] + t[i..]
  }

  lemma ScanStart(words: set<string>, t: string)
    ensures AtBoundary(words, t, 0) && Partly(words, t, 0) == t
  {
  }

  lemma ScanEnd(words: set<string>, t: string)
    ensures Partly(words, t, |t|) == Mask(words, t)
  {
  }

  lemma ScanMatch(words: set<string>, t: string, i: nat, n: nat)
    requires i < |t| && AtBoundary(words, t, i) && IsShortest(words, t, i, n)
    ensures AtBoundary(words, t, i + n)
    ensures Partly(words, t, i + n) == Starred(Partly(words, t, i), i, i + n)
  {
    ShortestAtMeans(words, t, i);
    var m := Mask(words, t);
    assert m[i..] == Stars(n) + MaskFrom(words, t, i + n);
    assert m[i + n..] == m[i..][n..];
    assert m[i..i + n] == m[i..][..n];
  }

  lemma ScanMiss(words: set<string>, t: string, i: nat)
    requires i < |t| && AtBoundary(words, t, i) && !Hit(words, t, i)
    ensures AtBoundary(words, t, i + 1) && Partly(words, t, i + 1) == Partly(words, t, i)
  {
    ShortestAtMeans(words, t, i);
    var m := Mask(words, t);
    assert m[i..] == [t[i]] + MaskFrom(words, t, i + 1);
    assert m[i + 1..] == m[i..][1..];
    assert m[i] == m[i..][0];
  }

  // ----- nothing left to find

  lemma NothingToFind(words: set<string>, t: string)
    requires t == "" || words == {}
    ensures !Contains(words, t) && Mask(words, t) == t
  {
    CleanIsUntouched(words, t, 0);
  }

  lemma FirstMatch(words: set<string>, t: string, i: nat, n: nat)
    requires Match(words, t, i, n) && forall m: nat | m < n :: !Match(words, t, i, m)
    ensures IsShortest(words, t, i, n)
  {
  }

  lemma ShortestHits(words: set<string>, t: string, i: nat, n: nat)
    requires IsShortest(words, t, i, n)
    ensures Hit(words, t, i)
  {
  }

  lemma NoMatchPastEnd(words: set<string>, t: string, i: nat)
    requires i <= |t|
    requires forall m: nat | m <= |t| - i :: !Match(words, t, i, m)
    ensures !Hit(words, t, i)
  {
  }

  /**
   * Every occurrence of a word, overlapping ones included, has its first letter masked; every
   * position is the old letter or '*'.
   */
  lemma EveryOccurrenceIsMasked(words: set<string>, t: string)
    ensures forall k | 0 <= k < |t| :: Mask(words, t)[k] == t[k] || Mask(words, t)[k] == STAR
    ensures forall w, i: nat | w in words && w != "" && OccursAt(w, t, i) :: Mask(words, t)[i] == STAR
  {
    RangesAreMasking(words, t, 0);
    MaskMeaning(words, t, Ranges(words, t, 0));
    forall w, i: nat | w in words && w != "" && OccursAt(w, t, i) ensures Mask(words, t)[i] == STAR {
      assert Match(words, t, i, |w|);
      assert Hit(words, t, i);
    }
  }

  lemma ContainsHits(words: set<string>, t: string)
    ensures Contains(words, t) <==> exists i: nat :: i < |t| && Hit(words, t, i)
  {
    if Contains(words, t) {
      var w, i: nat :| w in words && w != "" && OccursAt(w, t, i);
      assert Match(words, t, i, |w|);
      assert Hit(words, t, i);
    }
    if i: nat :| i < |t| && Hit(words, t, i) {
      var n: nat :| Match(words, t, i, n);
      var w := t[i..i + n];
      assert w in words && |w| == n && OccursAt(w, t, i);
    }
  }

  lemma {:induction false} CleanIsUntouched(words: set<string>, t: string, i: nat)
    requires i <= |t| && !Contains(words, t)
    ensures MaskFrom(words, t, i) == t[i..]
    decreases |t| - i
  {
    if i < |t| {
      ContainsHits(words, t);
      ShortestAtMeans(words, t, i);
      CleanIsUntouched(words, t, i + 1);
    }
  }

  /** A star-free string that occurs in the masked text occurs in the text, at the same place. */
  lemma UnmaskedOccurrence(words: set<string>, t: string, w: string, i: nat)
    requires STAR !in w && w != "" && OccursAt(w, Mask(words, t), i)
    ensures OccursAt(w, t, i) && Mask(words, t)[i] != STAR
  {
    var m := Mask(words, t);
    EveryOccurrenceIsMasked(words, t);
    forall k | 0 <= k < |w| ensures w[k] == t[i..i + |w|][k] && w[k] == m[i..i + |w|][k] != STAR {
      assert w[k] in w;
    }
    assert m[i] == m[i..i + |w|][0];
  }

  /** No word begins or ends with '*' or has a run of '*' in which a whole masked word could hide. */
  ghost predicate Sturdy(words: set<string>) {
    forall w | w in words && w != "" ::
      && w[0] != STAR && w[|w| - 1] != STAR
      && forall x, j: nat | x in words && x != "" :: !OccursAt(Stars(|x|), w, j)
  }

  lemma StarFreeIsSturdy(words: set<string>)
    requires StarFree(words)
    ensures Sturdy(words)
  {
    forall w, x, j: nat | w in words && w != "" && x in words && x != ""
      ensures w[0] in w && w[|w| - 1] in w && !OccursAt(Stars(|x|), w, j)
    {
      if j + |x| <= |w| { assert w[j..j + |x|][0] == w[j] && w[j] in w; }
    }
  }

  /** A word in the masked text shares a letter with a masked range. */
  lemma ReappearanceIsMasked(words: set<string>, t: string, w: string, i: nat) returns (k: nat)
    requires w in words && w != "" && OccursAt(w, Mask(words, t), i)
    ensures i <= k < i + |w| && Covered(Ranges(words, t, 0), k)
  {
    var rs, m := Ranges(words, t, 0), Mask(words, t);
    RangesAreMasking(words, t, 0);
    MaskMeaning(words, t, rs);
    if q :| i <= q < i + |w| && Covered(rs, q) {
      k := q;
    } else {
      assert forall q | i <= q < i + |w| :: !Covered(rs, q);
      assert t[i..i + |w|] == m[i..i + |w|];
      assert Match(words, t, i, |w|);
      assert Hit(words, t, i);
      k := i;
    }
  }

  /** A masked letter lies in a masked range, over which a word stood. */
  lemma RangeOf(words: set<string>, t: string, k: nat) returns (start: nat, end: nat)
    requires Covered(Ranges(words, t, 0), k)
    ensures start <= k < end <= |t| && t[start..end] in words
    ensures forall q | start <= q < end :: Mask(words, t)[q] == STAR
  {
    var rs := Ranges(words, t, 0);
    RangesAreMasking(words, t, 0);
    MaskMeaning(words, t, rs);
    var j :| 0 <= j < |rs| && rs[j].start <= k < rs[j].end;
    assert ShortestRange(words, t, rs[j]);
    start, end := rs[j].start, rs[j].end;
    assert forall q | start <= q < end :: Covered(rs, q);
  }

  /** A word found in the masked text betrays its dictionary. */
  lemma ReappearedWord(words: set<string>, t: string, w: string, i: nat)
    requires w in words && w != "" && OccursAt(w, Mask(words, t), i)
    ensures !Sturdy(words)
  {
    hide Mask, Ranges, Covered;
    var m := Mask(words, t);
    var k := ReappearanceIsMasked(words, t, w, i);
    var start, end := RangeOf(words, t, k);
    if start < i {
      assert w[0] == m[i..i + |w|][0] == STAR;
    } else if i + |w| < end {
      assert w[|w| - 1] == m[i..i + |w|][|w| - 1] == STAR;
    } else {
      StarsInside(w, m, i, start, end);
      var x := t[start..end];
      assert |x| == end - start && OccursAt(Stars(|x|), w, start - i);
    }
  }

  lemma StarsInside(w: string, m: string, i: nat, start: nat, end: nat)
    requires OccursAt(w, m, i) && i <= start <= end <= i + |w| && forall q | start <= q < end :: m[q] == STAR
    ensures OccursAt(Stars(end - start), w, start - i)
  {
    var run := w[start - i..end - i];
    forall p | 0 <= p < end - start ensures run[p] == STAR {
      assert run[p] == m[i..i + |w|][start - i + p] == m[start + p];
    }
    assert run == Stars(end - start);
  }

  /**
   * If the words are sturdy, as star-free ones are, the masked text is clean for every text, and masking
   * again changes nothing.
   */
  lemma MaskLeavesNothing(words: set<string>, t: string)
    requires Sturdy(words)
    ensures !Contains(words, Mask(words, t))
    ensures Mask(words, Mask(words, t)) == Mask(words, t)
  {
    hide Sturdy;
    var m := Mask(words, t);
    if Contains(words, m) {
      var w, i: nat :| w in words && w != "" && OccursAt(w, m, i);
      ReappearedWord(words, t, w, i);
    }
    CleanIsUntouched(words, m, 0);
  }

  lemma OneWordMatch(w: string, t: string, k: nat, n: nat)
    ensures Match({w}, t, k, n) <==> n >= 1 && n == |w| && OccursAt(w, t, k)
  {
  }

  /** If the only occurrence of the only word is at `at`, that is what gets masked. */
  lemma OnlyOccurrence(w: string, t: string, at: nat)
    requires w != "" && OccursAt(w, t, at)
    requires forall k: nat | OccursAt(w, t, k) :: at <= k < at + |w|
    ensures forall q | 0 <= q < |t| :: Mask({w}, t)[q] == if at <= q < at + |w| then STAR else t[q]
  {
    var r := Range(at, at + |w|);
    forall k: nat, n: nat ensures Match({w}, t, k, n) <==> n >= 1 && n == |w| && OccursAt(w, t, k) {
      OneWordMatch(w, t, k, n);
    }
    assert ShortestRange({w}, t, r);
    forall k: nat ensures Covered([r], k) <==> at <= k < at + |w| {
      CoveredCons(r, [], k);
    }
    assert IsMasking({w}, t, 0, [r]);
    MaskMeaning({w}, t, [r]);
  }

  lemma FrontStar(w: string) returns (t: string)
    requires w != "" && w[0] == STAR
    ensures Contains({w}, Mask({w}, t))
  {
    t := w + w[1..];
    assert t[0..|w|] == w;
    OnlyOccurrence(w, t, 0);
    var m, i := Mask({w}, t), |w| - 1;
    forall q | 0 <= q < |w| ensures m[i..i + |w|][q] == w[q] {
    }
    assert m[i..i + |w|] == w;
    assert OccursAt(w, m, i);
  }

  lemma BackStar(w: string) returns (t: string)
    requires w != "" && w[0] != STAR && w[|w| - 1] == STAR
    ensures Contains({w}, Mask({w}, t))
  {
    var u := w[..|w| - 1];
    t := u + w;
    assert t[|u|..|u| + |w|] == w;
    forall k: nat | OccursAt(w, t, k) ensures k == |u| {
      assert t[k] == t[k..k + |w|][0] == w[0];
      assert t[k + |u|] == t[k..k + |w|][|u|] == STAR;
    }
    OnlyOccurrence(w, t, |u|);
    var m := Mask({w}, t);
    assert m[0..|w|] == w;
    assert OccursAt(w, m, 0);
  }

  /** For one word the condition is exact: the output is always clean unless the word begins or ends with '*'. */
  lemma OneWordIsExact(w: string)
    requires w != ""
    ensures (forall t :: !Contains({w}, Mask({w}, t))) <==> w[0] != STAR && w[|w| - 1] != STAR
  {
    if w[0] == STAR {
      var t := FrontStar(w);
    } else if w[|w| - 1] == STAR {
      var t := BackStar(w);
    } else {
      assert Sturdy({w}) by {
        forall j: nat ensures !OccursAt(Stars(|w|), w, j) {
          if j == 0 { assert w[0..|w|][0] == w[0]; }
        }
      }
      forall t ensures !Contains({w}, Mask({w}, t)) { MaskLeavesNothing({w}, t); }
    }
  }

  /** The condition is needed: with the single word "*a", masking "*aa" makes a new occurrence. */
  lemma StarWordsCanReappear()
    ensures var words := {"*a"};
            && Mask(words, "*aa") == "**a"
            && Contains(words, Mask(words, "*aa"))
            && Mask(words, "**a") == "***"
  {
    var words := {"*a"};
    var t, u := "*aa", "**a";
    assert t[0..2] == "*a" && t[2..3] == "a";
    assert forall i: nat, n: nat | Match(words, t, i, n) :: n == 2 && t[i..i + n][0] == t[i] == STAR;
    assert Match(words, t, 0, 2);
    assert ShortestAt(words, t, 0) == 2 && ShortestAt(words, t, 2) == 0;
    assert MaskFrom(words, t, 2) == "a" by { assert MaskFrom(words, t, 3) == ""; }
    assert u[1..3] == "*a" && u[0..2] == "**";
    assert forall i: nat, n: nat | Match(words, u, i, n) :: n == 2 && u[i..i + n][1] == u[i + 1] == 'a';
    assert Match(words, u, 1, 2);
    assert ShortestAt(words, u, 0) == 0 && ShortestAt(words, u, 1) == 2;
    assert MaskFrom(words, u, 1) == "**" by { assert MaskFrom(words, u, 3) == ""; }
    assert OccursAt("*a", u, 1);
  }

  // ----- which dictionaries are the same

  /** The words no shorter word is a prefix of. */
  ghost function Minimal(words: set<string>): set<string> {
    set w | w in words && w != "" && !HasShorterPrefix(words, w)
  }

  ghost predicate HasShorterPrefix(words: set<string>, w: string) {
    exists n: nat :: n < |w| && Match(words, w, 0, n)
  }

  lemma MatchInWord(words: set<string>, t: string, i: nat, n: nat, m: nat)
    requires i + n <= |t| && m <= n
    ensures Match(words, t[i..i + n], 0, m) == Match(words, t, i, m)
  {
    assert t[i..i + n][0..m] == t[i..i + m];
  }

  lemma ShortestIsMinimal(words: set<string>, t: string, i: nat)
    requires i <= |t|
    ensures ShortestAt(words, t, i) == ShortestAt(Minimal(words), t, i)
    ensures var n := ShortestAt(words, t, i); n != 0 ==> t[i..i + n] in Minimal(words)
  {
    var n := ShortestAt(words, t, i);
    var min := Minimal(words);
    ShortestAtMeans(words, t, i);
    ShortestAtMeans(min, t, i);
    assert forall m: nat | Match(min, t, i, m) :: Match(words, t, i, m);
    if n != 0 {
      var w := t[i..i + n];
      forall m: nat | m < n ensures !Match(words, w, 0, m) {
        MatchInWord(words, t, i, n, m);
      }
      assert w in min;
      assert IsShortest(min, t, i, n);
    }
  }

  lemma {:induction false} SameHitsSameMask(words: set<string>, words': set<string>, t: string, i: nat)
    requires i <= |t|
    requires forall k: nat | k <= |t| :: ShortestAt(words, t, k) == ShortestAt(words', t, k)
    ensures MaskFrom(words, t, i) == MaskFrom(words', t, i)
    decreases |t| - i
  {
    if i < |t| {
      var n := ShortestAt(words, t, i);
      SameHitsSameMask(words, words', t, if n == 0 then i + 1 else i + n);
    }
  }

  /** Both outputs depend on the prefix-minimal words only. */
  lemma OnlyMinimalWordsMatter(words: set<string>, t: string)
    ensures Mask(words, t) == Mask(Minimal(words), t)
    ensures Contains(words, t) <==> Contains(Minimal(words), t)
  {
    forall k: nat | k <= |t| ensures ShortestAt(words, t, k) == ShortestAt(Minimal(words), t, k) {
      ShortestIsMinimal(words, t, k);
    }
    SameHitsSameMask(words, Minimal(words), t, 0);
    ContainsHits(words, t);
    ContainsHits(Minimal(words), t);
    forall i: nat | i < |t| ensures Hit(words, t, i) <==> Hit(Minimal(words), t, i) {
      ShortestAtMeans(words, t, i);
      ShortestAtMeans(Minimal(words), t, i);
    }
  }

  /** A star-free minimal word, used as the text, tells its dictionary from one that lacks it. */
  lemma {:induction false} MinimalWordIsSeen(words: set<string>, words': set<string>, w: string)
    requires StarFree(words) && StarFree(words')
    requires forall t :: Mask(words, t) == Mask(words', t)
    requires w in Minimal(words)
    ensures w in Minimal(words')
    decreases |w|
  {
    assert w[0..|w|] == w;
    assert Match(words, w, 0, |w|);
    ShortestAtMeans(words, w, 0);
    EveryOccurrenceIsMasked(words, w);
    assert OccursAt(w, w, 0);
    assert Mask(words, w) == Mask(words', w);
    assert w[0] in w;
    var n := ShortestAt(words', w, 0);
    assert n != 0;
    ShortestIsMinimal(words', w, 0);
    if n < |w| {
      MinimalWordIsSeen(words', words, w[0..n]);
      assert Match(words, w, 0, n);
      assert false;
    }
  }

  /** Two star-free dictionaries filter all texts alike exactly when their prefix-minimal words are the same. */
  lemma SameFilterIffSameMinimal(words: set<string>, words': set<string>)
    requires StarFree(words) && StarFree(words')
    ensures (forall t :: Mask(words, t) == Mask(words', t)) <==> Minimal(words) == Minimal(words')
  {
    if forall t :: Mask(words, t) == Mask(words', t) {
      forall w ensures w in Minimal(words) <==> w in Minimal(words') {
        if w in Minimal(words) { MinimalWordIsSeen(words, words', w); }
        if w in Minimal(words') { MinimalWordIsSeen(words', words, w); }
      }
    }
    if Minimal(words) == Minimal(words') {
      forall t ensures Mask(words, t) == Mask(words', t) {
        OnlyMinimalWordsMatter(words, t);
        OnlyMinimalWordsMatter(words', t);
      }
    }
  }
}
