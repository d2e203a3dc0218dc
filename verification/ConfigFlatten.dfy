/** The flattening a reader expects of a configuration tree, and exactly when the loader delivers it. */
module ConfigFlatten {
  import opened Decimal
  import opened ConfigText
  import opened ConfigEvents
  import opened ConfigManager
  import opened ConfigPrint
  import opened ConfigTree

  function FlatItems(prefix: string, values: seq<Text>, n: nat): map<string, string> {
    if values == [] then map[] else map[ItemKey(prefix, n) := values[0].value] + FlatItems(prefix, values[1..], n + 1)
  }

  /** Nested keys joined by dots, list items numbered from 0; later entries replace earlier ones. */
  function Flatten(es: Entries, prefix: string): map<string, string>
    decreases es
  {
    match es
    case Nil => map[]
    case Entry(k, node, rest) => FlatNode(k, node, prefix) + Flatten(rest, prefix)
  }

  function FlatNode(k: string, node: Node, prefix: string): map<string, string>
    decreases node
  {
    match node
    case Leaf(v) => map[Glue(prefix, k) := v.value]
    case Items(vs) => FlatItems(Glue(prefix, k), vs, 0)
    case Submap(sub) => Flatten(sub, Glue(prefix, k))
  }

  /** No scalar and no item anywhere below. */
  predicate Silent(es: Entries) {
    match es
    case Nil => true
    case Entry(_, node, rest) =>
      && (match node
          case Leaf(_) => false
          case Items(vs) => vs == []
          case Submap(sub) => Silent(sub))
      && Silent(rest)
  }

  /** In every map, nothing is written after the first entry that opens a level of its own. */
  predicate Tame(es: Entries) {
    match es
    case Nil => true
    case Entry(_, node, rest) =>
      match node
      case Leaf(_) => Tame(rest)
      case Items(_) => Silent(rest)
      case Submap(sub) => Tame(sub) && Silent(rest)
  }

  // ----- tame trees load to their flattening

  lemma {:induction false} SilentWritesNothing(es: Entries, path: seq<string>, prefix: string)
    requires Silent(es)
    ensures TreeEvents(es, path) == [] && Flatten(es, prefix) == map[]
  {
    match es
    case Nil =>
    case Entry(k, node, rest) =>
      SilentWritesNothing(rest, path + [k], prefix);
      match node {
        case Leaf(_) =>
        case Items(_) =>
        case Submap(sub) => SilentWritesNothing(sub, path + [k], Glue(prefix, k));
      }
  }

  lemma EventsAssoc(a: seq<Event>, b: seq<Event>, c: seq<Event>)
    ensures a + (b + c) == a + b + c
    ensures a + b + [] == a + b
  {
  }

  lemma MapOneMore(m: map<string, string>, k: string, v: string, f: map<string, string>)
    ensures m[k := v] + f == m + (map[k := v] + f)
  {
  }

  lemma StoreItem(before: seq<Event>, e: Event)
    requires e.Append? && Joined(e.path) != ""
    ensures var prefix := Joined(e.path);
            && Store(before + [e]) == Store(before)[ItemKey(prefix, Count(before, prefix)) := e.value]
            && Count(before + [e], prefix) == Count(before, prefix) + 1
  {
    OneMore(before, e, Joined(e.path));
  }

  lemma {:induction false} StoreItems(values: seq<Text>, path: seq<string>, before: seq<Event>, n: nat)
    requires Joined(path) != "" && Count(before, Joined(path)) == n
    ensures Store(before + ItemEvents(values, path)) == Store(before) + FlatItems(Joined(path), values, n)
  {
    hide Store, Count, Joined, ItemKey;
    if values == [] {
      assert before + ItemEvents(values, path) == before;
    } else {
      var e, prefix := Append(path, values[0].value), Joined(path);
      StoreItem(before, e);
      StoreItems(values[1..], path, before + [e], n + 1);
      EventsAssoc(before, [e], ItemEvents(values[1..], path));
      MapOneMore(Store(before), ItemKey(prefix, n), values[0].value, FlatItems(prefix, values[1..], n + 1));
    }
  }

  /** No list has received an item. */
  predicate NoItems(events: seq<Event>) { forall e <- events :: e.Put? }

  lemma {:induction false} NothingCounted(events: seq<Event>, prefix: string)
    requires NoItems(events)
    ensures Count(events, prefix) == 0
  {
    if events != [] {
      var before, e := events[..|events| - 1], events[|events| - 1];
      assert e in events;
      forall x <- before ensures x.Put? { assert x in events; }
      NothingCounted(before, prefix);
    }
  }

  /** A tame tree has one chain of levels and one list at its end, so its counter starts at 0. */
  lemma {:induction false} StoreOfTame(es: Entries, path: seq<string>, before: seq<Event>)
    requires Printable(es) && Tame(es) && NoItems(before)
    ensures Store(before + TreeEvents(es, path)) == Store(before) + Flatten(es, Joined(path))
  {
    hide Store, Count, Joined, ItemEvents, FlatItems, Survives;
    match es
    case Nil =>
      assert before + TreeEvents(es, path) == before;
    case Entry(k, node, rest) =>
      JoinedMore(path, k);
      match node {
        case Leaf(v) =>
          var e := Put(path, k, v.value);
          OneMore(before, e, "");
          StoreOfTame(rest, path, before + [e]);
          EventsAssoc(before, [e], TreeEvents(rest, path));
          MapOneMore(Store(before), Glue(Joined(path), k), v.value, Flatten(rest, Joined(path)));
        case Items(vs) =>
          SilentWritesNothing(rest, path + [k], Joined(path));
          NothingCounted(before, Joined(path + [k]));
          StoreItems(vs, path + [k], before, 0);
          EventsAssoc(before, ItemEvents(vs, path + [k]), []);
        case Submap(sub) =>
          SilentWritesNothing(rest, path + [k], Joined(path));
          StoreOfTame(sub, path + [k], before);
          EventsAssoc(before, TreeEvents(sub, path + [k]), []);
      }
  }

  /** Print and load undo each other: every printed tame tree loads to its flattening. */
  lemma TameLoads(es: Entries)
    requires Printable(es) && Tame(es)
    ensures Loaded(Unlines(Print(es, 0))) == Flatten(es, "")
  {
    hide Loaded, Flatten, TreeEvents, Printable, Print, Tame;
    LoadOfPrint(es);
    StoreOfTame(es, [], []);
    assert [] + TreeEvents(es, []) == TreeEvents(es, []);
    assert Joined([]) == "" && Store([]) == map[];
    assert map[] + Flatten(es, "") == Flatten(es, "");
  }

  /** In every map, the only entry that opens a level, if there is one, is the last. */
  predicate LevelLast(es: Entries) {
    match es
    case Nil => true
    case Entry(_, node, rest) =>
      && (node.Leaf? || rest.Nil?)
      && (node.Submap? ==> LevelLast(node.entries))
      && LevelLast(rest)
  }

  lemma {:induction false} LevelLastIsTame(es: Entries)
    requires LevelLast(es)
    ensures Tame(es)
  {
    match es
    case Nil =>
    case Entry(_, node, rest) =>
      LevelLastIsTame(rest);
      if node.Submap? { LevelLastIsTame(node.entries); }
  }

  /** In particular documents whose maps have at most one sub-map or list each, placed last. */
  lemma LevelLastLoads(es: Entries)
    requires Printable(es) && LevelLast(es)
    ensures Loaded(Unlines(Print(es, 0))) == Flatten(es, "")
  {
    LevelLastIsTame(es);
    TameLoads(es);
  }

  // ----- the keys of the flattening, and the keys the loader writes

  function ItemKeys(prefix: string, count: nat, n: nat): (keys: seq<string>)
    ensures |keys| == count && forall i | 0 <= i < count :: keys[i] == ItemKey(prefix, n + i)
  {
    seq(count, i requires 0 <= i < count => ItemKey(prefix, n + i))
  }

  /** The flat key of every scalar and every item, in file order. */
  function FlatKeys(es: Entries, prefix: string): seq<string>
    decreases es
  {
    match es
    case Nil => []
    case Entry(k, node, rest) => NodeKeys(k, node, prefix) + FlatKeys(rest, prefix)
  }

  function NodeKeys(k: string, node: Node, prefix: string): seq<string>
    decreases node
  {
    match node
    case Leaf(_) => [Glue(prefix, k)]
    case Items(vs) => ItemKeys(Glue(prefix, k), |vs|, 0)
    case Submap(sub) => FlatKeys(sub, Glue(prefix, k))
  }

  predicate AllDiffer(keys: seq<string>) { forall i, j | 0 <= i < j < |keys| :: keys[i] != keys[j] }

  /** The flattening loses nothing: no two of its entries have the same key. */
  predicate Unambiguous(es: Entries) { AllDiffer(FlatKeys(es, "")) }

  lemma {:induction false} FlatItemsHave(prefix: string, values: seq<Text>, n: nat, i: nat)
    requires i < |values|
    ensures ItemKey(prefix, n + i) in FlatItems(prefix, values, n)
  {
    if i > 0 { FlatItemsHave(prefix, values[1..], n + 1, i - 1); }
  }

  lemma {:induction false} FlattenHas(es: Entries, prefix: string, key: string)
    requires key in FlatKeys(es, prefix)
    ensures key in Flatten(es, prefix)
    decreases es, 1
  {
    match es
    case Entry(k, node, rest) =>
      if key in NodeKeys(k, node, prefix) {
        NodeHas(k, node, prefix, key);
      } else {
        FlattenHas(rest, prefix, key);
      }
  }

  lemma {:induction false} NodeHas(k: string, node: Node, prefix: string, key: string)
    requires key in NodeKeys(k, node, prefix)
    ensures key in FlatNode(k, node, prefix)
    decreases node, 0
  {
    match node
    case Leaf(_) =>
    case Items(vs) =>
      var i :| 0 <= i < |vs| && key == ItemKeys(Glue(prefix, k), |vs|, 0)[i];
      FlatItemsHave(Glue(prefix, k), vs, 0, i);
    case Submap(sub) => FlattenHas(sub, Glue(prefix, k), key);
  }

  function WrittenKeys(events: seq<Event>): (keys: seq<string>)
    ensures |keys| == |events|
  {
    if events == [] then []
    else
      var before, e := events[..|events| - 1], events[|events| - 1];
      WrittenKeys(before) + [FullKey(before, e)]
  }

  lemma {:induction false} StoreIsWritten(events: seq<Event>, key: string)
    requires key in Store(events)
    ensures key in WrittenKeys(events)
  {
    var before, e := events[..|events| - 1], events[|events| - 1];
    if !(Writes(e) && key == FullKey(before, e)) { StoreIsWritten(before, key); }
  }

  // ----- the loader's keys are longer

  function Total(keys: seq<string>): nat {
    if keys == [] then 0 else Total(keys[..|keys| - 1]) + |keys[|keys| - 1]|
  }

  lemma {:induction false} TotalJoin(a: seq<string>, b: seq<string>)
    ensures Total(a + b) == Total(a) + Total(b)
  {
    if b == [] {
      assert a + b == a;
    } else {
      assert (a + b)[..|a + b| - 1] == a + b[..|b| - 1];
      TotalJoin(a, b[..|b| - 1]);
    }
  }

  /** The letters of all keys written by the events. */
  function Letters(events: seq<Event>): nat { Total(WrittenKeys(events)) }

  lemma LettersOneMore(before: seq<Event>, e: Event)
    ensures Letters(before + [e]) == Letters(before) + |FullKey(before, e)|
  {
    assert (before + [e])[..|before|] == before;
    var w := WrittenKeys(before);
    assert (w + [FullKey(before, e)])[..|w|] == w;
  }

  lemma {:induction false} LongerNumber(m: nat, n: nat)
    requires m <= n
    ensures |ToString(m)| <= |ToString(n)|
    decreases n
  {
    if m >= 10 { LongerNumber(m / 10, n / 10); }
  }

  lemma {:induction false} ItemsAreLonger(values: seq<Text>, path: seq<string>, before: seq<Event>,
                                          prefix: string, n: nat)
    requires Joined(path) != "" && |prefix| <= |Joined(path)| && n <= Count(before, Joined(path))
    ensures Letters(before + ItemEvents(values, path)) >= Letters(before) + Total(ItemKeys(prefix, |values|, n))
    ensures |prefix| < |Joined(path)| && values != [] ==>
              Letters(before + ItemEvents(values, path)) > Letters(before) + Total(ItemKeys(prefix, |values|, n))
  {
    hide Letters, Joined, Count, Total;
    if values == [] {
      assert before + ItemEvents(values, path) == before && ItemKeys(prefix, 0, n) == [];
      TotalOf("");
    } else {
      var e, count := Append(path, values[0].value), Count(before, Joined(path));
      LettersOneMore(before, e);
      StoreItem(before, e);
      LongerNumber(n, count);
      ItemsAreLonger(values[1..], path, before + [e], prefix, n + 1);
      EventsAssoc(before, [e], ItemEvents(values[1..], path));
      assert ItemKeys(prefix, |values|, n) == [ItemKey(prefix, n)] + ItemKeys(prefix, |values| - 1, n + 1);
      TotalJoin([ItemKey(prefix, n)], ItemKeys(prefix, |values| - 1, n + 1));
      TotalOf(ItemKey(prefix, n));
    }
  }

  lemma TotalOf(key: string)
    ensures Total([]) == 0 && Total([key]) == |key|
  {
    assert [key][..0] == [];
  }

  lemma GlueGrows(p: string, q: string, k: string)
    requires |p| <= |q| && k != ""
    ensures |Glue(p, k)| <= |Glue(q, k)| && |p| < |Glue(p, k)|
    ensures |p| < |q| ==> |Glue(p, k)| < |Glue(q, k)|
  {
  }

  /**
   * Under a path at least as long as the prefix, the loader writes as many keys as the flattening has,
   * with at least as many letters; with more, if the path is longer and anything is written, or if the
   * tree is not tame.
   */
  lemma {:induction false} StickyIsLonger(es: Entries, path: seq<string>, before: seq<Event>, prefix: string)
    requires Printable(es) && |prefix| <= |Joined(path)|
    ensures |TreeEvents(es, path)| == |FlatKeys(es, prefix)|
    ensures Letters(before + TreeEvents(es, path)) >= Letters(before) + Total(FlatKeys(es, prefix))
    ensures (|prefix| < |Joined(path)| && !Silent(es)) || !Tame(es) ==>
              Letters(before + TreeEvents(es, path)) > Letters(before) + Total(FlatKeys(es, prefix))
    decreases es, 1
  {
    hide Letters, Joined, Total, Survives;
    match es
    case Nil =>
      assert before + TreeEvents(es, path) == before;
      TotalOf("");
    case Entry(k, node, rest) =>
      JoinedMore(path, k);
      GlueGrows(prefix, Joined(path), k);
      NodeIsLonger(k, node, path, before, prefix);
      var mid := before + StickyNode(k, node, path);
      TotalJoin(NodeKeys(k, node, prefix), FlatKeys(rest, prefix));
      StickyFirst(es, path);
      EventsAssoc(before, StickyNode(k, node, path), TreeEvents(rest, if node.Leaf? then path else path + [k]));
      StickyIsLonger(rest, if node.Leaf? then path else path + [k], mid, prefix);
  }

  function StickyNode(k: string, node: Node, path: seq<string>): seq<Event> {
    match node
    case Leaf(v) => [Put(path, k, v.value)]
    case Items(vs) => ItemEvents(vs, path + [k])
    case Submap(sub) => TreeEvents(sub, path + [k])
  }

  lemma StickyFirst(es: Entries, path: seq<string>)
    requires es.Entry?
    ensures TreeEvents(es, path) == StickyNode(es.key, es.node, path)
              + TreeEvents(es.rest, if es.node.Leaf? then path else path + [es.key])
  {
  }

  lemma {:induction false} NodeIsLonger(k: string, node: Node, path: seq<string>, before: seq<Event>, prefix: string)
    requires Printable(Entry(k, node, Nil)) && |prefix| <= |Joined(path)|
    ensures |StickyNode(k, node, path)| == |NodeKeys(k, node, prefix)|
    ensures Letters(before + StickyNode(k, node, path)) >= Letters(before) + Total(NodeKeys(k, node, prefix))
    ensures (|prefix| < |Joined(path)| && !Silent(Entry(k, node, Nil))) || !Tame(Entry(k, node, Nil)) ==>
              Letters(before + StickyNode(k, node, path)) > Letters(before) + Total(NodeKeys(k, node, prefix))
    decreases node, 0
  {
    hide Letters, Joined, Total, Survives;
    JoinedMore(path, k);
    GlueGrows(prefix, Joined(path), k);
    assert Tame(Nil) && Silent(Nil);
    match node
    case Leaf(v) =>
      LettersOneMore(before, Put(path, k, v.value));
      TotalOf(Glue(prefix, k));
    case Items(vs) =>
      ItemEventsCount(vs, path + [k]);
      ItemsAreLonger(vs, path + [k], before, Glue(prefix, k), 0);
    case Submap(sub) =>
      StickyIsLonger(sub, path + [k], before, Glue(prefix, k));
  }

  lemma {:induction false} ItemEventsCount(values: seq<Text>, path: seq<string>)
    ensures |ItemEvents(values, path)| == |values|
  {
    if values != [] { ItemEventsCount(values[1..], path); }
  }

  lemma TakeOut(keys: seq<string>, p: nat)
    requires p < |keys|
    ensures Total(keys) == Total(keys[..p] + keys[p + 1..]) + |keys[p]|
    ensures forall k | k in keys && k != keys[p] :: k in keys[..p] + keys[p + 1..]
  {
    var front, x, back := keys[..p], keys[p], keys[p + 1..];
    assert keys == front + ([x] + back);
    TotalJoin(front, [x] + back);
    TotalJoin([x], back);
    TotalJoin(front, back);
    TotalOf(x);
  }

  /** Different keys, each of them among as many keys: the letters are the same. */
  lemma {:induction false} SameLetters(flat: seq<string>, written: seq<string>)
    requires AllDiffer(flat) && |flat| == |written| && forall k <- flat :: k in written
    ensures Total(flat) == Total(written)
  {
    if flat != [] {
      var init, x := flat[..|flat| - 1], flat[|flat| - 1];
      assert x in flat;
      var p :| 0 <= p < |written| && written[p] == x;
      TakeOut(written, p);
      forall k <- init ensures k in written && k != x {
        assert k in flat;
      }
      SameLetters(init, written[..p] + written[p + 1..]);
    }
  }

  /** An untame tree with an unambiguous flattening loses one of its keys. */
  lemma UntamedLosesKey(es: Entries)
    requires Printable(es) && Unambiguous(es) && !Tame(es)
    ensures exists k <- Flatten(es, "") :: k !in Loaded(Unlines(Print(es, 0)))
  {
    hide Loaded, Printable, Print, Tame, TreeEvents, Flatten, Store, FlatKeys, WrittenKeys, Total;
    var events, flat := TreeEvents(es, []), FlatKeys(es, "");
    LoadOfPrint(es);
    StickyIsLonger(es, [], [], "");
    assert [] + events == events;
    assert Letters([]) == 0 by { TotalOf(""); }
    if forall k <- flat :: k in Store(events) {
      forall k <- flat ensures k in WrittenKeys(events) { StoreIsWritten(events, k); }
      SameLetters(flat, WrittenKeys(events));
      assert false;
    }
    var k :| k in flat && k !in Store(events);
    FlattenHas(es, "", k);
  }

  /**
   * Exactly: a printed tree whose flattening is unambiguous loads to it if and only if no map in it
   * writes anything after its first sub-map or list.
   */
  lemma LoadFlattens(es: Entries)
    requires Printable(es) && Unambiguous(es)
    ensures Loaded(Unlines(Print(es, 0))) == Flatten(es, "") <==> Tame(es)
  {
    if Tame(es) {
      TameLoads(es);
    } else {
      UntamedLosesKey(es);
    }
  }

  // ----- which flattenings are unambiguous

  function Keys(es: Entries): set<string> {
    match es
    case Nil => {}
    case Entry(k, _, rest) => {k} + Keys(rest)
  }

  /** The keys of every map differ, and no key holds the dot that flattening uses. */
  predicate Distinct(es: Entries) {
    match es
    case Nil => true
    case Entry(k, node, rest) =>
      && k != "" && '.' !in k && k !in Keys(rest)
      && (match node case Submap(sub) => Distinct(sub) case _ => true)
      && Distinct(rest)
  }

  /** `key` is that of the entry `k` or of something below it. */
  predicate IsBelow(key: string, prefix: string, k: string) { Glue(prefix, k) + "." <= key + "." }

  lemma DotEnds(j: string, k: string, line: string)
    requires j + "." <= line && k + "." <= line && '.' !in j && '.' !in k
    ensures j == k
  {
    assert line[|j|] == (j + ".")[|j|] == '.' && line[|k|] == (k + ".")[|k|] == '.';
    assert j == (j + ".")[..|j|] == line[..|j|] && k == (k + ".")[..|k|] == line[..|k|];
    forall q | 0 <= q < |j| ensures line[q] != '.' { assert line[q] == j[q] && j[q] in j; }
    forall q | 0 <= q < |k| ensures line[q] != '.' { assert line[q] == k[q] && k[q] in k; }
  }

  lemma BelowInRest(key: string, prefix: string, k: string)
    requires IsBelow(key, prefix, k) && k != ""
    ensures var off := if prefix == "" then 0 else |prefix| + 1;
            off <= |key| && k + "." <= (key + ".")[off..]
  {
    var off := if prefix == "" then 0 else |prefix| + 1;
    var a, line := Glue(prefix, k) + ".", key + ".";
    assert k + "." == a[off..] == line[..|a|][off..] == line[off..|a|];
  }

  lemma OneEntryOnly(key: string, prefix: string, j: string, k: string)
    requires IsBelow(key, prefix, j) && IsBelow(key, prefix, k)
    requires j != "" && k != "" && '.' !in j && '.' !in k
    ensures j == k
  {
    BelowInRest(key, prefix, j);
    BelowInRest(key, prefix, k);
    DotEnds(j, k, (key + ".")[if prefix == "" then 0 else |prefix| + 1..]);
  }

  lemma {:induction false} NodeLiesBelow(k: string, node: Node, prefix: string, key: string)
    requires key in NodeKeys(k, node, prefix)
    requires k != "" && (node.Submap? ==> Distinct(node.entries))
    ensures IsBelow(key, prefix, k)
    decreases node, 0
  {
    match node
    case Leaf(_) =>
    case Items(vs) =>
      var i :| 0 <= i < |vs| && key == ItemKeys(Glue(prefix, k), |vs|, 0)[i];
      assert key + "." == (Glue(prefix, k) + ".") + (ToString(i) + ".");
    case Submap(sub) =>
      var j := LiesBelowSome(sub, Glue(prefix, k), key);
      assert Glue(Glue(prefix, k), j) + "." == (Glue(prefix, k) + ".") + (j + ".");
  }

  lemma {:induction false} LiesBelowSome(es: Entries, prefix: string, key: string) returns (j: string)
    requires Distinct(es) && key in FlatKeys(es, prefix)
    ensures j in Keys(es) && j != "" && '.' !in j && IsBelow(key, prefix, j)
    decreases es, 1
  {
    match es
    case Entry(k, node, rest) =>
      if key in NodeKeys(k, node, prefix) {
        NodeLiesBelow(k, node, prefix, key);
        j := k;
      } else {
        j := LiesBelowSome(rest, prefix, key);
      }
  }

  lemma {:induction false} NodeKeysDiffer(k: string, node: Node, prefix: string)
    requires node.Submap? ==> Distinct(node.entries)
    ensures AllDiffer(NodeKeys(k, node, prefix))
    decreases node, 0
  {
    match node
    case Leaf(_) =>
    case Items(vs) =>
      forall i, j | 0 <= i < j < |vs| ensures ItemKey(Glue(prefix, k), i) != ItemKey(Glue(prefix, k), j) {
        SameItemKey(Glue(prefix, k), i, Glue(prefix, k), j);
      }
    case Submap(sub) => FlatKeysDiffer(sub, Glue(prefix, k));
  }

  lemma {:induction false} FlatKeysDiffer(es: Entries, prefix: string)
    requires Distinct(es)
    ensures AllDiffer(FlatKeys(es, prefix))
    decreases es, 1
  {
    match es
    case Nil =>
    case Entry(k, node, rest) =>
      NodeKeysDiffer(k, node, prefix);
      FlatKeysDiffer(rest, prefix);
      forall x | x in NodeKeys(k, node, prefix) ensures x !in FlatKeys(rest, prefix) {
        if x in FlatKeys(rest, prefix) {
          NodeLiesBelow(k, node, prefix, x);
          var j := LiesBelowSome(rest, prefix, x);
          OneEntryOnly(x, prefix, j, k);
        }
      }
      DifferJoin(NodeKeys(k, node, prefix), FlatKeys(rest, prefix));
  }

  lemma DifferJoin(a: seq<string>, b: seq<string>)
    requires AllDiffer(a) && AllDiffer(b) && forall x | x in a :: x !in b
    ensures AllDiffer(a + b)
  {
    forall i, j | 0 <= i < j < |a + b| ensures (a + b)[i] != (a + b)[j] {
      assert i < |a| ==> a[i] in a;
      assert j >= |a| ==> b[j - |a|] in b;
    }
  }

  /** Maps whose keys differ and hold no dot flatten without ambiguity. */
  lemma DistinctIsUnambiguous(es: Entries)
    requires Distinct(es)
    ensures Unambiguous(es)
  {
    FlatKeysDiffer(es, "");
  }

  // ----- and what an ambiguous one allows

  function AmbiguousTree(v: Text): Entries {
    Entry("b", Leaf(v), Entry("a.b", Leaf(v), Entry("a", Items([]), Entry("b", Leaf(v), Nil))))
  }

  lemma AmbiguousEvents(v: Text)
    ensures TreeEvents(AmbiguousTree(v), []) ==
            [] + [Put([], "b", v.value)] + [Put([], "a.b", v.value)] + [Put(["a"], "b", v.value)]
    ensures !Tame(AmbiguousTree(v))
  {
    var last := Entry("b", Leaf(v), Nil);
    var list := Entry("a", Items([]), last);
    var two := Entry("a.b", Leaf(v), list);
    assert [] + ["a"] == ["a"];
    assert TreeEvents(Nil, ["a"]) == [] && TreeEvents(last, ["a"]) == [Put(["a"], "b", v.value)];
    assert TreeEvents(list, []) == [Put(["a"], "b", v.value)];
    assert TreeEvents(two, []) == [Put([], "a.b", v.value), Put(["a"], "b", v.value)];
    assert !Silent(last) && !Tame(list) && !Tame(two);
  }

  lemma AmbiguousFlattening(v: Text)
    ensures Flatten(AmbiguousTree(v), "") == map["b" := v.value, "a.b" := v.value]
  {
    var last := Entry("b", Leaf(v), Nil);
    var list := Entry("a", Items([]), last);
    assert Flatten(last, "") == map["b" := v.value];
    assert FlatNode("a", Items([]), "") == map[] && Flatten(list, "") == map["b" := v.value];
    assert Flatten(Entry("a.b", Leaf(v), list), "") == map["a.b" := v.value, "b" := v.value];
  }

  /**
   * Without an unambiguous flattening an untame tree can load to it: the loader files the last entry
   * under "a.b", which the second holds already, and the first has its value.
   */
  lemma AmbiguousCanLoad(v: Text)
    requires Survives(v) && '\n' !in v.value
    ensures Printable(AmbiguousTree(v)) && !Tame(AmbiguousTree(v))
    ensures Loaded(Unlines(Print(AmbiguousTree(v), 0))) == Flatten(AmbiguousTree(v), "")
  {
    hide TreeEvents, Flatten, Tame, AmbiguousTree, Store, Printable, Print, Loaded, Survives;
    AmbiguousPrintable(v);
    LoadOfPrint(AmbiguousTree(v));
    var one, two, three := Put([], "b", v.value), Put([], "a.b", v.value), Put(["a"], "b", v.value);
    AmbiguousEvents(v);
    AmbiguousFlattening(v);
    JoinedMore([], "a");
    assert [] + ["a"] == ["a"];
    OneMore([], one, "");
    OneMore([] + [one], two, "");
    OneMore([] + [one] + [two], three, "");
    assert Joined(["a"]) == "a" && Glue("a", "b") == "a.b";
    EmptyStore();
  }

  lemma AmbiguousPrintable(v: Text)
    requires Survives(v) && '\n' !in v.value
    ensures Printable(AmbiguousTree(v))
  {
    var last := Entry("b", Leaf(v), Nil);
    assert "a.b"[0] != "- "[0];
    assert IsKey("a") && IsKey("b") && IsKey("a.b");
    assert Printable(last) && Printable(Entry("a", Items([]), last));
  }

  lemma EmptyStore()
    ensures Store([]) == map[]
  {
  }
}
