/**
 * Reading a list back: when GetStringList gives the "- " items of a list in file order, exactly.
 * Scalar lines may write keys that look like items, and the hash map is walked in any order.
 */
module ConfigLists {
  import opened Wrappers
  import opened Decimal
  import opened ConfigText
  import opened ConfigEvents

  /** The items a file gives to the list at `prefix`; items outside every header are dropped. */
  function Items(events: seq<Event>, prefix: string): (items: seq<string>)
    ensures |items| <= |events|
  {
    if prefix == "" then [] else Appended(events, prefix)
  }

  /** The value of the last event that writes `key`. */
  function LastValue(events: seq<Event>, key: string): Option<string> {
    if events == [] then None
    else
      var before, e := events[..|events| - 1], events[|events| - 1];
      if Writes(e) && FullKey(before, e) == key then Some(e.value) else LastValue(before, key)
  }

  lemma {:induction false} StoreIsLast(events: seq<Event>, key: string)
    ensures key in Store(events) <==> LastValue(events, key).Some?
    ensures key in Store(events) ==> LastValue(events, key) == Some(Store(events)[key])
  {
    if events != [] { StoreIsLast(events[..|events| - 1], key); }
  }

  function PutKey(e: Event): string
    requires e.Put?
  {
    Glue(Joined(e.path), e.key)
  }

  /**
   * No scalar adds an item to the list or has the last word on one with another value: a scalar that
   * writes a key of the form prefix.digits writes an item's own key, and the last line to write each
   * item's key writes the item's value.
   */
  ghost predicate ItemsSurvive(events: seq<Event>, prefix: string) {
    var items := Items(events, prefix);
    && (forall e <- events :: e.Put? && IsIndexKey(PutKey(e), prefix) ==> IsItemKey(PutKey(e), prefix, |items|))
    && (forall i | 0 <= i < |items| :: LastValue(events, ItemKey(prefix, i)) == Some(items[i]))
  }

  /** The index keys of a map are 0, 1, ..., |items| - 1 in the spelling of to_string, with the items as values. */
  ghost predicate HoldsItems(m: map<string, string>, prefix: string, items: seq<string>) {
    && (forall k <- m :: IsIndexKey(k, prefix) ==> IsItemKey(k, prefix, |items|))
    && (forall i | 0 <= i < |items| :: ItemKey(prefix, i) in m && m[ItemKey(prefix, i)] == items[i])
  }

  ghost predicate IsItemKey(key: string, prefix: string, count: nat) {
    exists i: nat :: i < count && key == ItemKey(prefix, i)
  }

  lemma {:induction false} AtLeast(a: seq<nat>, i: nat)
    requires forall j, k | 0 <= j < k < |a| :: a[j] < a[k]
    requires i < |a|
    ensures i <= a[i]
  {
    if i > 0 { AtLeast(a, i - 1); }
  }

  /** An ascending list of exactly the numbers below `n` is 0, 1, ..., n - 1. */
  lemma {:induction false} AllBelow(a: seq<nat>, n: nat)
    requires forall j, k | 0 <= j < k < |a| :: a[j] < a[k]
    requires forall j | 0 <= j < |a| :: a[j] < n
    requires forall i | 0 <= i < n :: i in a
    ensures |a| == n && forall i | 0 <= i < n :: a[i] == i
  {
    if |a| > 0 { AtLeast(a, |a| - 1); }
    if n > 0 {
      assert n - 1 in a;
      var last := |a| - 1;
      assert a[last] == n - 1;
      forall i | 0 <= i < n - 1 ensures i in a[..last] {
        assert i in a;
      }
      AllBelow(a[..last], n - 1);
    }
  }

  /** The indexes of an ordering of the items are 0, 1, 2, ... */
  lemma OrderIsFileOrder(m: map<string, string>, prefix: string, items: seq<string>, order: seq<string>)
    requires HoldsItems(m, prefix, items) && IsOrder(m, prefix, order) && |items| <= INT_MAX
    ensures ValuesOf(m, order) == items
  {
    var indexes := seq(|order|, i requires 0 <= i < |order| => IndexIn(order[i], prefix));
    forall i | 0 <= i < |order|
      ensures indexes[i] < |items| && order[i] == ItemKey(prefix, indexes[i])
    {
      assert order[i] in order;
      assert IsItemKey(order[i], prefix, |items|);
      var n: nat :| n < |items| && order[i] == ItemKey(prefix, n);
      ItemKeyIndex(prefix, n);
    }
    forall n | 0 <= n < |items| ensures n in indexes {
      ItemKeyIndex(prefix, n);
      assert ItemKey(prefix, n) in order;
      var i :| 0 <= i < |order| && order[i] == ItemKey(prefix, n);
      assert indexes[i] == n;
    }
    forall i, j | 0 <= i < j < |order| ensures indexes[i] < indexes[j] {
      assert order[i] != order[j];
    }
    AllBelow(indexes, |items|);
  }

  // ----- an order always exists

  lemma {:induction false} SomeMax(keys: set<string>, prefix: string) returns (top: string)
    requires keys != {} && forall k <- keys :: IsIndexKey(k, prefix)
    ensures top in keys && forall k <- keys :: IndexIn(k, prefix) <= IndexIn(top, prefix)
  {
    var k :| k in keys;
    top := k;
    if keys != {k} {
      var other := SomeMax(keys - {k}, prefix);
      if IndexIn(k, prefix) < IndexIn(other, prefix) { top := other; }
    }
  }

  lemma {:induction false} SomeOrder(keys: set<string>, prefix: string) returns (order: seq<string>)
    requires forall k <- keys :: IsIndexKey(k, prefix)
    ensures forall k :: k in order <==> k in keys
    ensures forall i | 0 <= i < |order| :: IsIndexKey(order[i], prefix)
    ensures forall i, j | 0 <= i < j < |order| :: order[i] != order[j]
    ensures forall i, j | 0 <= i < j < |order| :: IndexIn(order[i], prefix) <= IndexIn(order[j], prefix)
  {
    order := [];
    if keys != {} {
      var top := SomeMax(keys, prefix);
      var rest := SomeOrder(keys - {top}, prefix);
      order := rest + [top];
      assert forall i | 0 <= i < |rest| :: rest[i] in rest;
    }
  }

  /** Whatever the map holds, GetStringList has something to return. */
  lemma SomeListing(m: map<string, string>, prefix: string) returns (order: seq<string>)
    ensures IsOrder(m, prefix, order) && IsListing(m, prefix, ValuesOf(m, order))
  {
    order := SomeOrder((set k | k in m && IsIndexKey(k, prefix)), prefix);
  }

  // ----- which maps give back which list

  ghost function PositionOf(s: seq<string>, x: string): (p: nat)
    requires x in s
    ensures p < |s| && s[p] == x
  {
    var p :| 0 <= p < |s| && s[p] == x;
    p
  }

  lemma {:induction false} AtMost(a: seq<nat>, i: nat)
    requires forall j, k | 0 <= j < k < |a| :: a[j] < a[k]
    requires forall j | 0 <= j < |a| :: a[j] < |a|
    requires i < |a|
    ensures a[i] <= i
    decreases |a| - i
  {
    if i < |a| - 1 { AtMost(a, i + 1); }
  }

  lemma PlacesAscend(m: map<string, string>, prefix: string, order: seq<string>, i: nat, j: nat)
    requires IsOrder(m, prefix, order) && i < j <= INT_MAX
    requires ItemKey(prefix, i) in order && ItemKey(prefix, j) in order
    ensures PositionOf(order, ItemKey(prefix, i)) < PositionOf(order, ItemKey(prefix, j))
  {
    hide IsIndexKey, ItemKey, IndexIn;
    ItemKeyIndex(prefix, i);
    ItemKeyIndex(prefix, j);
    var a, b := PositionOf(order, ItemKey(prefix, i)), PositionOf(order, ItemKey(prefix, j));
    assert order[a] == ItemKey(prefix, i) && order[b] == ItemKey(prefix, j);
  }

  /** An order as long as the list holds the items' keys at their own places, and no other key. */
  lemma FullOrder(m: map<string, string>, prefix: string, count: nat, order: seq<string>)
    requires IsOrder(m, prefix, order) && |order| == count <= INT_MAX
    requires forall i | 0 <= i < count :: ItemKey(prefix, i) in m
    ensures forall i | 0 <= i < count :: order[i] == ItemKey(prefix, i)
  {
    hide IsIndexKey, ItemKey, IndexIn;
    forall i | 0 <= i < count ensures ItemKey(prefix, i) in order {
      ItemKeyIndex(prefix, i);
    }
    var a := seq(count, i requires 0 <= i < count => PositionOf(order, ItemKey(prefix, i)));
    forall i, j | 0 <= i < j < count ensures a[i] < a[j] {
      PlacesAscend(m, prefix, order, i, j);
    }
    forall i | 0 <= i < count ensures order[i] == ItemKey(prefix, i) {
      AtLeast(a, i);
      AtMost(a, i);
    }
  }

  /** Every walk of the map gives back these items exactly if the map holds them and no other index key. */
  lemma ListingsAreItems(m: map<string, string>, prefix: string, items: seq<string>)
    requires |items| <= INT_MAX && forall i | 0 <= i < |items| :: ItemKey(prefix, i) in m
    ensures (forall out | IsListing(m, prefix, out) :: out == items) <==> HoldsItems(m, prefix, items)
  {
    if HoldsItems(m, prefix, items) {
      forall out | IsListing(m, prefix, out) ensures out == items {
        var order: seq<string> :| IsOrder(m, prefix, order) && out == ValuesOf(m, order);
        OrderIsFileOrder(m, prefix, items, order);
      }
    }
    if forall out | IsListing(m, prefix, out) :: out == items {
      var order := SomeListing(m, prefix);
      assert ValuesOf(m, order) == items;
      FullOrder(m, prefix, |items|, order);
      forall k <- m | IsIndexKey(k, prefix) ensures IsItemKey(k, prefix, |items|) {
        assert order[PositionOf(order, k)] == k;
      }
      forall i | 0 <= i < |items| ensures m[ItemKey(prefix, i)] == items[i] {
        assert ValuesOf(m, order)[i] == m[order[i]];
      }
    }
  }

  // ----- which files give back their lists

  lemma {:induction false} ItemKeysStay(events: seq<Event>, prefix: string, i: nat)
    requires prefix != "" && i < Count(events, prefix)
    ensures ItemKey(prefix, i) in Store(events)
  {
    var before, e := events[..|events| - 1], events[|events| - 1];
    if i < Count(before, prefix) { ItemKeysStay(before, prefix, i); }
  }

  lemma {:induction false} PutStays(events: seq<Event>, e: Event)
    requires e in events && e.Put?
    ensures PutKey(e) in Store(events)
  {
    var before, last := events[..|events| - 1], events[|events| - 1];
    if e != last { PutStays(before, e); }
  }

  /** Who can have written an index key of the list: a scalar, or the list itself. */
  lemma {:induction false} IndexKeyWriter(events: seq<Event>, prefix: string, k: string)
    requires k in Store(events) && IsIndexKey(k, prefix)
    ensures (exists e <- events :: e.Put? && PutKey(e) == k) || IsItemKey(k, prefix, |Items(events, prefix)|)
  {
    var before, e := events[..|events| - 1], events[|events| - 1];
    assert forall x <- before :: x in events;
    assert e in events;
    if Writes(e) && FullKey(before, e) == k {
      if e.Append? { ItemKeyOfPrefix(Joined(e.path), Count(before, Joined(e.path)), prefix); }
    } else {
      IndexKeyWriter(before, prefix, k);
    }
  }

  lemma SurviveIsHold(events: seq<Event>, prefix: string)
    ensures ItemsSurvive(events, prefix) <==> HoldsItems(Store(events), prefix, Items(events, prefix))
  {
    var m, items := Store(events), Items(events, prefix);
    forall i | 0 <= i < |items|
      ensures ItemKey(prefix, i) in m
      ensures LastValue(events, ItemKey(prefix, i)) == Some(m[ItemKey(prefix, i)])
    {
      ItemKeysStay(events, prefix, i);
      StoreIsLast(events, ItemKey(prefix, i));
    }
    forall e <- events | e.Put? ensures PutKey(e) in m { PutStays(events, e); }
    forall k <- m | IsIndexKey(k, prefix)
      ensures (exists e <- events :: e.Put? && PutKey(e) == k) || IsItemKey(k, prefix, |items|)
    {
      IndexKeyWriter(events, prefix, k);
    }
  }

  /**
   * List recovery, exactly: every list that may be read back at a prefix, whatever order the hash map
   * is walked in, is the items in file order if and only if they survive the scalars.
   */
  lemma ListIsRecovered(events: seq<Event>, prefix: string)
    requires |events| <= INT_MAX
    ensures (forall out | IsListing(Store(events), prefix, out) :: out == Items(events, prefix))
            <==> ItemsSurvive(events, prefix)
  {
    hide IsListing, HoldsItems, ItemsSurvive, Store;
    SurviveIsHold(events, prefix);
    forall i | 0 <= i < |Items(events, prefix)| ensures ItemKey(prefix, i) in Store(events) {
      ItemKeysStay(events, prefix, i);
    }
    ListingsAreItems(Store(events), prefix, Items(events, prefix));
  }

  // ----- files whose scalars stay away from the list

  /** No scalar line wrote a key that reads as an item of the list. */
  ghost predicate NoScalarItem(events: seq<Event>, prefix: string) {
    forall e <- events :: e.Put? ==> !IsIndexKey(Glue(Joined(e.path), e.key), prefix)
  }

  lemma ScalarsStayAway(events: seq<Event>, prefix: string)
    requires NoScalarItem(events, prefix) && |events| <= INT_MAX
    ensures ItemsSurvive(events, prefix)
  {
    if prefix != "" {
      ItemsInStore(events, prefix);
      SurviveIsHold(events, prefix);
    }
  }

  lemma {:induction false} ItemsInStore(events: seq<Event>, prefix: string)
    requires prefix != "" && NoScalarItem(events, prefix) && |events| <= INT_MAX
    ensures HoldsItems(Store(events), prefix, Appended(events, prefix))
  {
    if events != [] {
      var before, e := events[..|events| - 1], events[|events| - 1];
      assert NoScalarItem(before, prefix) by {
        forall x <- before ensures x in events {}
      }
      ItemsInStore(before, prefix);
      assert e in events;
      if e.Append? && Joined(e.path) == prefix {
        HoldsOneMore(Store(before), prefix, Appended(before, prefix), e.value);
      } else if Writes(e) {
        if e.Append? { ItemKeyOfPrefix(Joined(e.path), Count(before, Joined(e.path)), prefix); }
        HoldsStill(Store(before), prefix, Appended(before, prefix), FullKey(before, e), e.value);
      }
    }
  }

  lemma HoldsOneMore(m: map<string, string>, prefix: string, items: seq<string>, v: string)
    requires HoldsItems(m, prefix, items)
    ensures HoldsItems(m[ItemKey(prefix, |items|) := v], prefix, items + [v])
  {
    forall i | 0 <= i < |items| ensures ItemKey(prefix, i) != ItemKey(prefix, |items|) {
      SameItemKey(prefix, i, prefix, |items|);
    }
    var key := ItemKey(prefix, |items|);
    forall k <- m[key := v] | IsIndexKey(k, prefix) ensures IsItemKey(k, prefix, |items| + 1) {
      if k != key { assert k in m; }
    }
  }

  lemma HoldsStill(m: map<string, string>, prefix: string, items: seq<string>, key: string, v: string)
    requires HoldsItems(m, prefix, items) && !IsIndexKey(key, prefix) && |items| <= INT_MAX
    ensures HoldsItems(m[key := v], prefix, items)
  {
    forall i | 0 <= i < |items| ensures ItemKey(prefix, i) != key {
      ItemKeyIndex(prefix, i);
    }
    forall k <- m[key := v] | IsIndexKey(k, prefix) ensures IsItemKey(k, prefix, |items|) {
      assert k in m;
    }
  }

  /** A list that does not survive: a scalar key "0" under the same header overwrites the first item. */
  lemma ScalarOverwritesItem(a: string, b: string)
    ensures var events := [Append(["hosts"], a), Put(["hosts"], "0", b)];
            IsListing(Store(events), "hosts", [b]) && Items(events, "hosts") == [a]
  {
    var first, second := Append(["hosts"], a), Put(["hosts"], "0", b);
    assert Store([first, second]) == map["hosts.0" := b] && Appended([first, second], "hosts") == [a] by {
      OverwrittenStore(first, second);
    }
    OneKeyListing(b);
  }

  lemma OverwrittenStore(first: Event, second: Event)
    requires first.Append? && second.Put? && first.path == second.path == ["hosts"] && second.key == "0"
    ensures Store([first, second]) == map["hosts.0" := second.value]
    ensures Appended([first, second], "hosts") == [first.value]
  {
    hide IsListing, IsOrder, IsIndexKey;
    assert Joined(["hosts"]) == "hosts" by {
      JoinedMore([], "hosts");
      assert [] + ["hosts"] == ["hosts"];
    }
    assert Store([first]) == map["hosts.0" := first.value] by {
      OneMore([], first, "hosts");
      assert [] + [first] == [first];
      assert ToString(0) == "0";
      assert FullKey([], first) == "hosts" + "." + ToString(0) == "hosts.0";
      assert Writes(first);
    }
    OneMore([first], second, "hosts");
    assert [first] + [second] == [first, second];
    assert FullKey([first], second) == "hosts.0";
    assert [first, second][..1] == [first] && [first][..0] == [];
  }

  lemma OneKeyListing(b: string)
    ensures IsListing(map["hosts.0" := b], "hosts", [b])
  {
    var m := map["hosts.0" := b];
    assert "hosts.0"[6..] == "0";
    assert Value("0") == 0;
    assert "hosts" + "." <= "hosts.0";
    assert IsOrder(m, "hosts", ["hosts.0"]);
    assert [b] == ValuesOf(m, ["hosts.0"]);
  }
}
