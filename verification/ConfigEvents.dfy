/** What a configuration file writes into the flat map, and how lists are read back from the map. */
module ConfigEvents {
  import opened Decimal
  import opened ConfigText

  /** A scalar under a path of header keys, or one more item of the list at that path. */
  datatype Event =
    | Put(path: seq<string>, key: string, value: string)
    | Append(path: seq<string>, value: string)

  /** How many items the list at `prefix` has received. */
  function Count(events: seq<Event>, prefix: string): (n: nat)
    ensures n <= |events|
  {
    if events == [] then 0
    else
      var e := events[|events| - 1];
      Count(events[..|events| - 1], prefix) + if e.Append? && Joined(e.path) == prefix then 1 else 0
  }

  /** A list item outside every header is dropped with a warning. */
  predicate Writes(e: Event) { e.Put? || Joined(e.path) != "" }

  /** The flat key of event `e` when the events `before` came first. */
  function FullKey(before: seq<Event>, e: Event): string {
    match e
    case Put(path, key, _) => Glue(Joined(path), key)
    case Append(path, _) => Joined(path) + "." + ToString(Count(before, Joined(path)))
  }

  /** The flat map after the events; later writes to a key replace earlier ones. */
  function Store(events: seq<Event>): map<string, string> {
    if events == [] then map[]
    else
      var before, e := events[..|events| - 1], events[|events| - 1];
      if Writes(e) then Store(before)[FullKey(before, e) := e.value] else Store(before)
  }

  lemma OneMore(events: seq<Event>, e: Event, prefix: string)
    ensures Store(events + [e]) == if Writes(e) then Store(events)[FullKey(events, e) := e.value] else Store(events)
    ensures Count(events + [e], prefix) ==
            Count(events, prefix) + if e.Append? && Joined(e.path) == prefix then 1 else 0
  {
    assert (events + [e])[..|events|] == events;
  }

  // ----- reading a list back -----

  /** `key` is `prefix`, a dot, and digits that std::stoi accepts. */
  predicate IsIndexKey(key: string, prefix: string) {
    && prefix + "." <= key
    && var suffix := key[|prefix| + 1..];
       suffix != "" && AllDigits(suffix) && Value(suffix) <= INT_MAX
  }

  function IndexIn(key: string, prefix: string): nat
    requires IsIndexKey(key, prefix)
  {
    Value(key[|prefix| + 1..])
  }

  function ItemKey(prefix: string, index: nat): string { prefix + "." + ToString(index) }

  lemma ItemKeyIndex(prefix: string, index: nat)
    requires index <= INT_MAX
    ensures IsIndexKey(ItemKey(prefix, index), prefix)
    ensures IndexIn(ItemKey(prefix, index), prefix) == index
  {
    var key := ItemKey(prefix, index);
    assert prefix + "." <= key;
    assert key[|prefix| + 1..] == ToString(index);
    ValueOfToString(index);
  }

  lemma LastDot(p: string, d: string)
    requires '.' !in d
    ensures (p + "." + d)[|p|] == '.'
    ensures forall j | |p| < j <= |p| + |d| :: (p + "." + d)[j] != '.'
  {
    forall j | |p| < j <= |p| + |d| ensures (p + "." + d)[j] != '.' {
      assert (p + "." + d)[j] == d[j - |p| - 1];
      assert d[j - |p| - 1] in d;
    }
  }

  /** The last dot splits a key in one way only. */
  lemma LastDotSplits(p: string, d: string, q: string, e: string)
    requires '.' !in d && '.' !in e
    ensures p + "." + d == q + "." + e ==> p == q && d == e
  {
    LastDot(p, d);
    LastDot(q, e);
    assert p == (p + "." + d)[..|p|] && q == (q + "." + e)[..|q|];
    assert d == (p + "." + d)[|p| + 1..] && e == (q + "." + e)[|q| + 1..];
  }

  lemma DigitsHaveNoDot(d: string)
    requires AllDigits(d)
    ensures '.' !in d
  {
  }

  lemma SameItemKey(p: string, i: nat, q: string, j: nat)
    ensures ItemKey(p, i) == ItemKey(q, j) <==> p == q && i == j
  {
    DigitsHaveNoDot(ToString(i));
    DigitsHaveNoDot(ToString(j));
    LastDotSplits(p, ToString(i), q, ToString(j));
    ValueOfToString(i);
    ValueOfToString(j);
  }

  lemma ItemKeyOfPrefix(p: string, i: nat, q: string)
    ensures IsIndexKey(ItemKey(p, i), q) ==> p == q
  {
    var key := ItemKey(p, i);
    if IsIndexKey(key, q) {
      assert key == q + "." + key[|q| + 1..];
      DigitsHaveNoDot(ToString(i));
      DigitsHaveNoDot(key[|q| + 1..]);
      LastDotSplits(p, ToString(i), q, key[|q| + 1..]);
    }
  }

  /** `order` lists the index keys of the map once each, by ascending index. */
  ghost predicate IsOrder(m: map<string, string>, prefix: string, order: seq<string>) {
    && (forall k <- order :: k in m && IsIndexKey(k, prefix))
    && (forall k <- m :: IsIndexKey(k, prefix) ==> k in order)
    && (forall i, j | 0 <= i < j < |order| :: order[i] != order[j])
    && (forall i, j | 0 <= i < j < |order| :: IndexIn(order[i], prefix) <= IndexIn(order[j], prefix))
  }

  function ValuesOf(m: map<string, string>, keys: seq<string>): (r: seq<string>)
    requires forall k <- keys :: k in m
    ensures |r| == |keys|
  {
    seq(|keys|, i requires 0 <= i < |keys| => m[keys[i]])
  }

  /** The lists a caller may see: keys with equal indexes come in an order the hash map decides. */
  ghost predicate IsListing(m: map<string, string>, prefix: string, out: seq<string>) {
    exists order: seq<string> :: IsOrder(m, prefix, order) && out == ValuesOf(m, order)
  }

  /** The values appended to the list at `prefix`, in file order. */
  function Appended(events: seq<Event>, prefix: string): (r: seq<string>)
    ensures |r| == Count(events, prefix)
  {
    if events == [] then []
    else
      var e := events[|events| - 1];
      Appended(events[..|events| - 1], prefix) + if e.Append? && Joined(e.path) == prefix then [e.value] else []
  }
}
