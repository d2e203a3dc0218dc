/**
 * docs/architecture/README.md:59 gives the filter's cost as O(N) in the length of the text.  The exact
 * cost shows that no constant factor will do: it grows with the words as well.
 */
module LookupCost {
  import opened FilterSpec
  import opened WordFilter

  function Repeat(c: char, n: nat): (s: string)
    ensures |s| == n && forall k | 0 <= k < n :: s[k] == c
  {
    seq(n, _ => c)
  }

  /** The one word of the dictionary: `len` letters 'a' and then a 'b'. */
  function AlmostAs(len: nat): string { Repeat('a', len) + "b" }

  lemma AsOnPath(len: nat, n: nat)
    requires 1 <= n <= len
    ensures OnPath({AlmostAs(len)}, "", Repeat('a', n)) && Repeat('a', n) != AlmostAs(len)
  {
    assert IsPrefix(Repeat('a', n), AlmostAs(len));
  }

  lemma {:induction false} LongSearch(len: nat, n: nat, i: nat, j: nat)
    requires i <= j <= i + len <= n
    ensures StepsFrom({AlmostAs(len)}, Repeat('a', n), i, j) >= i + len - j
    decreases i + len - j
  {
    if j < i + len {
      AsOnPath(len, j + 1 - i);
      assert Repeat('a', n)[i..j + 1] == Repeat('a', j + 1 - i);
      LongSearch(len, n, i, j + 1);
    }
  }

  lemma NoHit(len: nat, n: nat, i: nat)
    requires i <= n
    ensures !Hit({AlmostAs(len)}, Repeat('a', n), i)
  {
    var text := Repeat('a', n);
    forall m: nat ensures !Match({AlmostAs(len)}, text, i, m) {
      if i + m <= n {
        assert text[i..i + m] == Repeat('a', m);
        NotAllAs(len, m);
      }
    }
  }

  lemma NotAllAs(len: nat, m: nat)
    ensures Repeat('a', m) != AlmostAs(len)
  {
    assert AlmostAs(len)[len] == 'b';
  }

  /** `rows` more starting positions with room for a whole search each. */
  lemma {:induction false} CostGrows(len: nat, n: nat, i: nat, rows: nat)
    requires i + rows + len <= n
    ensures SearchCost({AlmostAs(len)}, Repeat('a', n), i) >= Budget(rows, len)
    ensures FilterCost({AlmostAs(len)}, Repeat('a', n), i) >= Budget(rows, len)
    decreases rows
  {
    if rows > 0 && i < n {
      NoHit(len, n, i);
      CostUnfold({AlmostAs(len)}, Repeat('a', n), i);
      LongSearch(len, n, i, i);
      CostGrows(len, n, i + 1, rows - 1);
      Rows(rows - 1, rows, len);
    }
  }

  /** Whatever constant `c` is claimed, some dictionary and text make both scanners do more than c lookups a letter. */
  lemma NotLinear(c: nat)
    ensures exists words, text: string :: "" !in words && !Contains(words, text)
              && SearchCost(words, text, 0) > c * |text| && FilterCost(words, text, 0) > c * |text|
  {
    hide StepsFrom, SearchCost, FilterCost, Match, Hit, Contains, Budget;
    var len := 2 * c + 1;
    var words, text := {AlmostAs(len)}, Repeat('a', 2 * len);
    CostGrows(len, 2 * len, 0, len);
    Quadratic(c, len);
    assert SearchCost(words, text, 0) > c * |text| && FilterCost(words, text, 0) > c * |text|;
    assert "" !in words && !Contains(words, text) by {
      ContainsHits(words, text);
      forall i: nat | i < |text| ensures !Hit(words, text, i) { NoHit(len, 2 * len, i); }
    }
  }

  lemma Quadratic(c: nat, len: nat)
    requires len == 2 * c + 1
    ensures Budget(len, len) == c * (2 * len) + len
  {
    assert len * len == (2 * c) * len + 1 * len;
  }
}
