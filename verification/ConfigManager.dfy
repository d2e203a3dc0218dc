/** The configuration loader: Load's loop over the lines of a file, and the two lookups. */
module ConfigManager {
  import opened Wrappers
  import opened Decimal
  import opened ConfigText
  import opened ConfigEvents
  import opened ConfigLists
  import opened ConfigScope

  function LinesOf(text: string): (lines: seq<Line>)
    ensures |lines| <= |text|
  {
    Classified(SplitLines(text))
  }

  /** The flat map of a file, by the loader's scope rule. */
  function Loaded(text: string): map<string, string> {
    var lines := LinesOf(text);
    Store(EventsOf(lines, false, |lines|))
  }

  /**
   * For every file: Load writes what YAML's nesting says, entry for entry, exactly when no line that
   * writes sits under a header that has met a later line of its own indent, list items apart; and then
   * the map is the one that YAML's nesting gives.
   */
  lemma FileMatchesYaml(text: string)
    ensures var lines := LinesOf(text);
            EventsOf(lines, false, |lines|) == EventsOf(lines, true, |lines|) <==> NoWriterUnderPeers(lines, |lines|)
    ensures var lines := LinesOf(text);
            NoWriterUnderPeers(lines, |lines|) ==> Loaded(text) == Store(EventsOf(lines, true, |lines|))
  {
    hide EventsOf, NoWriterUnderPeers;
    ClassifiedHasKeys(SplitLines(text));
    DocumentMatchesYaml(LinesOf(text), |LinesOf(text)|);
  }

  /** The counter of every list that has received an item, and of no other. */
  ghost predicate CountersAgree(counters: map<string, nat>, events: seq<Event>) {
    forall p: string | p != "" ::
      && (p in counters <==> Count(events, p) > 0)
      && (p in counters ==> counters[p] == Count(events, p))
  }

  /** The first `n` lines are in the map, and the counters go with them. */
  ghost predicate Written(lines: seq<Line>, n: nat, counters: map<string, nat>, m: map<string, string>)
    requires n <= |lines|
  {
    CountersAgree(counters, EventsOf(lines, false, n)) && m == Store(EventsOf(lines, false, n))
  }

  /** Load's variables before line `n`. */
  ghost predicate AtLine(lines: seq<Line>, n: nat, keyStack: seq<string>, indentStack: seq<nat>,
                         counters: map<string, nat>, m: map<string, string>)
  {
    && n <= |lines|
    && keyStack == KeysOf(lines, Opens(lines, false, n, n))
    && indentStack == IndentsOf(lines, Opens(lines, false, n, n))
    && Written(lines, n, counters, m)
  }

  /** Load's variables once the headers that line `n` closes are popped. */
  ghost predicate InLine(lines: seq<Line>, n: nat, keyStack: seq<string>, indentStack: seq<nat>,
                         counters: map<string, nat>, m: map<string, string>)
  {
    && n < |lines|
    && keyStack == KeysOf(lines, Enclosing(lines, false, n))
    && indentStack == IndentsOf(lines, Enclosing(lines, false, n))
    && Written(lines, n, counters, m)
  }

  lemma SkipLine(lines: seq<Line>, n: nat, keyStack: seq<string>, indentStack: seq<nat>,
                 counters: map<string, nat>, m: map<string, string>)
    requires AtLine(lines, n, keyStack, indentStack, counters, m) && n < |lines| && lines[n].Blank?
    ensures AtLine(lines, n + 1, keyStack, indentStack, counters, m)
  {
    BlankKeepsScope(lines, n, n);
    NextScope(lines, false, n);
    NextEvents(lines, false, n);
  }

  lemma IgnoreLine(lines: seq<Line>, n: nat, keyStack: seq<string>, indentStack: seq<nat>,
                   counters: map<string, nat>, m: map<string, string>)
    requires InLine(lines, n, keyStack, indentStack, counters, m) && lines[n].Bad?
    ensures AtLine(lines, n + 1, keyStack, indentStack, counters, m)
  {
    NextScope(lines, false, n);
    NextEvents(lines, false, n);
  }

  lemma HeaderLine(lines: seq<Line>, n: nat, keyStack: seq<string>, indentStack: seq<nat>,
                   counters: map<string, nat>, m: map<string, string>)
    requires InLine(lines, n, keyStack, indentStack, counters, m) && lines[n].Header?
    ensures AtLine(lines, n + 1, keyStack + [lines[n].key], indentStack + [lines[n].indent], counters, m)
  {
    NextScope(lines, false, n);
    NextEvents(lines, false, n);
    KeysOneMore(lines, Enclosing(lines, false, n), n);
  }

  lemma ScalarLine(lines: seq<Line>, n: nat, keyStack: seq<string>, indentStack: seq<nat>,
                   counters: map<string, nat>, m: map<string, string>)
    requires InLine(lines, n, keyStack, indentStack, counters, m) && lines[n].Scalar?
    ensures AtLine(lines, n + 1, keyStack, indentStack, counters,
                   m[Glue(Joined(keyStack), lines[n].key) := lines[n].value])
  {
    hide Enclosing, Opens;
    NextScope(lines, false, n);
    NextEvents(lines, false, n);
    var events, e := EventsOf(lines, false, n), Put(keyStack, lines[n].key, lines[n].value);
    forall p: string ensures Count(events + [e], p) == Count(events, p) {
      OneMore(events, e, p);
    }
    OneMore(events, e, "");
  }

  lemma ItemLine(lines: seq<Line>, n: nat, keyStack: seq<string>, indentStack: seq<nat>,
                 counters: map<string, nat>, m: map<string, string>)
    requires InLine(lines, n, keyStack, indentStack, counters, m) && lines[n].Item?
    ensures var prefix := Joined(keyStack);
            var index := if prefix in counters then counters[prefix] else 0;
            if prefix == "" then AtLine(lines, n + 1, keyStack, indentStack, counters, m)
            else AtLine(lines, n + 1, keyStack, indentStack, counters[prefix := index + 1],
                        m[prefix + "." + ToString(index) := lines[n].value])
  {
    hide Enclosing, Opens, CountersAgree, Store, EventsOf, Joined;
    NextScope(lines, false, n);
    NextEvents(lines, false, n);
    var events, e := EventsOf(lines, false, n), Append(keyStack, lines[n].value);
    CountersOneMore(counters, events, e);
    OneMore(events, e, Joined(keyStack));
  }

  lemma CountersOneMore(counters: map<string, nat>, events: seq<Event>, e: Event)
    requires CountersAgree(counters, events) && e.Append?
    ensures var prefix := Joined(e.path);
            if prefix == "" then CountersAgree(counters, events + [e])
            else CountersAgree(counters[prefix := Count(events, prefix) + 1], events + [e])
    ensures Joined(e.path) != "" ==>
              Count(events, Joined(e.path)) == if Joined(e.path) in counters then counters[Joined(e.path)] else 0
  {
    hide Joined;
    forall p: string ensures Count(events + [e], p) == Count(events, p) + if p == Joined(e.path) then 1 else 0 {
      OneMore(events, e, p);
    }
  }

  /** std::getline on a stream that is not at its end. */
  method GetLine(stream: string) returns (line: string, rest: string)
    requires stream != ""
    ensures SplitLines(stream) == [line] + SplitLines(rest)
    ensures |rest| < |stream|
  {
    var n := 0;
    while n < |stream| && stream[n] != '\n'
      invariant n <= |stream| && forall j | 0 <= j < n :: stream[j] != '\n'
    {
      n := n + 1;
    }
    var p := IndexOf(stream, '\n', 0);
    assert !(p < n) && !(n < p);
    line := stream[..n];
    rest := if n < |stream| then stream[n + 1..] else "";
  }

  /** The stream still holds lines `n` and on. */
  ghost predicate Remains(lines: seq<Line>, n: nat, stream: string) {
    n <= |lines| && lines[n..] == Classified(SplitLines(stream))
  }

  /** What GetStringList gives after Load, for every file, every prefix and every walk of the hash map. */
  lemma LoadedListIsRecovered(text: string, prefix: string)
    requires |text| <= INT_MAX
    ensures var events := EventsOf(LinesOf(text), false, |LinesOf(text)|);
            (forall out | IsListing(Loaded(text), prefix, out) :: out == Items(events, prefix))
            <==> ItemsSurvive(events, prefix)
  {
    hide ItemsSurvive, IsListing;
    var events := EventsOf(LinesOf(text), false, |LinesOf(text)|);
    assert Loaded(text) == Store(events);
    ListIsRecovered(events, prefix);
  }

  lemma StartsAtLine(text: string)
    ensures Remains(LinesOf(text), 0, text)
    ensures AtLine(LinesOf(text), 0, [], [], map[], map[])
  {
  }

  lemma NextRemains(lines: seq<Line>, n: nat, stream: string, line: string, rest: string)
    requires Remains(lines, n, stream) && SplitLines(stream) == [line] + SplitLines(rest)
    ensures n < |lines| && lines[n] == Classify(line) && Remains(lines, n + 1, rest)
  {
    hide SplitLines, Classify;
    var tail := Classified(SplitLines(rest));
    assert Classified([line] + SplitLines(rest)) == [Classify(line)] + tail;
    assert lines[n] == lines[n..][0] && lines[n + 1..] == lines[n..][1..];
  }

  lemma EndsAtLine(text: string, n: nat, keyStack: seq<string>, indentStack: seq<nat>,
                   counters: map<string, nat>, m: map<string, string>)
    requires Remains(LinesOf(text), n, "") && AtLine(LinesOf(text), n, keyStack, indentStack, counters, m)
    ensures m == Loaded(text)
  {
  }

  /** The pop loop: the stacks hold the headers `hs`, and popping on from there ends as popping all does. */
  ghost predicate Popping(lines: seq<Line>, n: nat, hs: seq<nat>, keyStack: seq<string>, indentStack: seq<nat>,
                          indent: nat)
  {
    && n < |lines| && AreHeaders(lines, hs)
    && keyStack == KeysOf(lines, hs) && indentStack == IndentsOf(lines, hs)
    && Popped(lines, hs, indent) == Popped(lines, Opens(lines, false, n, n), indent)
  }

  lemma StartPopping(lines: seq<Line>, n: nat, keyStack: seq<string>, indentStack: seq<nat>,
                     counters: map<string, nat>, m: map<string, string>, indent: nat) returns (hs: seq<nat>)
    requires n < |lines| && AtLine(lines, n, keyStack, indentStack, counters, m)
    ensures Popping(lines, n, hs, keyStack, indentStack, indent) && Written(lines, n, counters, m)
  {
    hs := Opens(lines, false, n, n);
  }

  lemma PopOne(lines: seq<Line>, n: nat, hs: seq<nat>, keyStack: seq<string>, indentStack: seq<nat>, indent: nat)
    returns (r: seq<nat>)
    requires Popping(lines, n, hs, keyStack, indentStack, indent)
    requires indentStack != [] && indent < indentStack[|indentStack| - 1]
    ensures |keyStack| == |indentStack|
    ensures Popping(lines, n, r, keyStack[..|keyStack| - 1], indentStack[..|indentStack| - 1], indent)
  {
    r := hs[..|hs| - 1];
    assert keyStack[..|keyStack| - 1] == KeysOf(lines, r);
    assert indentStack[..|indentStack| - 1] == IndentsOf(lines, r);
  }

  lemma DonePopping(lines: seq<Line>, n: nat, hs: seq<nat>, keyStack: seq<string>, indentStack: seq<nat>,
                    counters: map<string, nat>, m: map<string, string>, indent: nat)
    requires Popping(lines, n, hs, keyStack, indentStack, indent)
    requires indentStack == [] || indentStack[|indentStack| - 1] <= indent
    requires !lines[n].Blank? && lines[n].indent == indent
    requires Written(lines, n, counters, m)
    ensures InLine(lines, n, keyStack, indentStack, counters, m)
  {
    hide Written, Opens, Popped, KeysOf;
    PoppedStays(lines, hs, indent);
    PopIsScope(lines, n, n);
  }

  /** The list entries GetStringList has gathered: `items[i]` belongs to the key `order[i]`. */
  ghost predicate Tracks(m: map<string, string>, prefix: string, items: seq<(nat, string)>, order: seq<string>) {
    && |items| == |order|
    && (forall i | 0 <= i < |order| :: order[i] in m && IsIndexKey(order[i], prefix))
    && (forall i | 0 <= i < |order| :: items[i] == (IndexIn(order[i], prefix), m[order[i]]))
  }

  predicate Sorted(items: seq<(nat, string)>) { forall i, j | 0 <= i < j < |items| :: items[i].0 <= items[j].0 }

  lemma NothingTracked(m: map<string, string>, prefix: string)
    ensures Tracks(m, prefix, [], []) && Sorted([])
  {
  }

  lemma TracksLength(m: map<string, string>, prefix: string, items: seq<(nat, string)>, order: seq<string>)
    requires Tracks(m, prefix, items, order)
    ensures |items| == |order|
  {
  }

  lemma OneTracked(m: map<string, string>, prefix: string, items: seq<(nat, string)>, keys: seq<string>, n: nat)
    requires Tracks(m, prefix, items, keys) && n < |items|
    ensures Tracks(m, prefix, [items[n]], [keys[n]])
    ensures keys[..n + 1] == keys[..n] + [keys[n]]
  {
  }

  lemma TracksSlice(m: map<string, string>, prefix: string, items: seq<(nat, string)>, order: seq<string>, p: nat)
    requires Tracks(m, prefix, items, order) && p <= |items|
    ensures Tracks(m, prefix, items[..p], order[..p]) && Tracks(m, prefix, items[p..], order[p..])
  {
  }

  lemma TracksJoin(m: map<string, string>, prefix: string, a: seq<(nat, string)>, ka: seq<string>,
                   b: seq<(nat, string)>, kb: seq<string>)
    requires Tracks(m, prefix, a, ka) && Tracks(m, prefix, b, kb)
    ensures Tracks(m, prefix, a + b, ka + kb)
  {
  }

  lemma SortedJoin(a: seq<(nat, string)>, b: seq<(nat, string)>)
    requires Sorted(a) && Sorted(b)
    requires a != [] && b != [] ==> a[|a| - 1].0 <= b[0].0
    ensures Sorted(a + b)
  {
    forall i, j | 0 <= i < j < |a + b| ensures (a + b)[i].0 <= (a + b)[j].0 {
      if i < |a| <= j {
        assert a[i].0 <= a[|a| - 1].0 <= b[0].0 <= b[j - |a|].0;
      }
    }
  }

  /** Inserting an entry where the sort's scan stopped keeps the order. */
  lemma Inserted(m: map<string, string>, prefix: string, items: seq<(nat, string)>, keys: seq<string>,
                 p: nat, item: (nat, string), key: string)
    requires Tracks(m, prefix, items, keys) && Sorted(items) && p <= |items| == |keys|
    requires Tracks(m, prefix, [item], [key])
    requires p > 0 ==> items[p - 1].0 <= item.0
    requires p < |items| ==> item.0 < items[p].0
    ensures Tracks(m, prefix, items[..p] + [item] + items[p..], keys[..p] + [key] + keys[p..])
    ensures Sorted(items[..p] + [item] + items[p..])
    ensures multiset(keys[..p] + [key] + keys[p..]) == multiset(keys) + multiset{key}
  {
    hide Tracks;
    TracksLength(m, prefix, items, keys);
    TracksInserted(m, prefix, items, keys, p, item, key);
    assert multiset(keys[..p] + [key] + keys[p..]) == multiset(keys) + multiset{key} by {
      assert keys == keys[..p] + keys[p..];
    }
    SortedJoin(items[..p], [item]);
    SortedJoin(items[..p] + [item], items[p..]);
  }

  lemma TracksInserted(m: map<string, string>, prefix: string, items: seq<(nat, string)>, keys: seq<string>,
                       p: nat, item: (nat, string), key: string)
    requires Tracks(m, prefix, items, keys) && p <= |items| && Tracks(m, prefix, [item], [key])
    ensures Tracks(m, prefix, items[..p] + [item] + items[p..], keys[..p] + [key] + keys[p..])
  {
    hide Tracks;
    TracksLength(m, prefix, items, keys);
    TracksSlice(m, prefix, items, keys, p);
    TracksJoin(m, prefix, items[..p], keys[..p], [item], [key]);
    TracksJoin(m, prefix, items[..p] + [item], keys[..p] + [key], items[p..], keys[p..]);
  }

  /**
   * std::sort by index.  Entries of equal index may end in any order; this is one sort that the
   * contract allows.
   */
  method SortByIndex(m: map<string, string>, prefix: string, items: seq<(nat, string)>, ghost keys: seq<string>)
    returns (sorted: seq<(nat, string)>, ghost order: seq<string>)
    requires Tracks(m, prefix, items, keys)
    ensures Tracks(m, prefix, sorted, order)
    ensures Sorted(sorted)
    ensures multiset(order) == multiset(keys)
  {
    hide Tracks, Sorted;
    NothingTracked(m, prefix);
    TracksLength(m, prefix, items, keys);
    sorted, order := [], [];
    for n := 0 to |items|
      invariant Tracks(m, prefix, sorted, order) && Sorted(sorted)
      invariant multiset(order) == multiset(keys[..n])
    {
      var p := |sorted|;
      while p > 0 && items[n].0 < sorted[p - 1].0
        invariant 0 <= p <= |sorted|
        invariant p < |sorted| ==> items[n].0 < sorted[p].0
      {
        p := p - 1;
      }
      OneTracked(m, prefix, items, keys, n);
      TracksLength(m, prefix, sorted, order);
      Inserted(m, prefix, sorted, order, p, items[n], keys[n]);
      sorted, order := sorted[..p] + [items[n]] + sorted[p..], order[..p] + [keys[n]] + order[p..];
    }
    assert keys[..|items|] == keys;
  }

  class ConfigManager {
    var configMap: map<string, string>

    constructor ()
      ensures configMap == map[]
    {
      configMap := map[];
    }

    /** `file` is the content of the file, or None when it cannot be opened; line and indent counts are C ints. */
    method Load(file: Option<string>) returns (ok: bool)
      requires file.Some? ==> |file.value| <= INT_MAX
      modifies this
      ensures ok == file.Some?
      ensures configMap == if file.Some? then Loaded(file.value) else map[]
    {
      hide Opens, Enclosing, Popped, Store, EventsOf, Written, AtLine, InLine, Popping, Remains, SplitLines, LinesOf,
           Joined, KeysOf, IndentsOf, AreHeaders, Uncommented, Trimmed, LeadingSpaces, IndexOf, ToString;
      configMap := map[];
      if file.None? { return false; }
      var keyStack: seq<string>, indentStack: seq<nat>, listCounters: map<string, nat> := [], [], map[];
      var stream := file.value;
      ghost var lines, n := LinesOf(file.value), 0;
      StartsAtLine(file.value);
      while stream != ""
        invariant Remains(lines, n, stream)
        invariant AtLine(lines, n, keyStack, indentStack, listCounters, configMap)
        decreases |stream|
      {
        var line, rest := GetLine(stream);
        NextRemains(lines, n, stream, line, rest);
        ghost var now := n;
        stream, n := rest, n + 1;

        var raw := StripInlineComment(line);
        var trimmed := Trim(raw);
        if trimmed == "" {
          SkipLine(lines, now, keyStack, indentStack, listCounters, configMap);
          continue;
        }
        var indent := CountLeadingSpaces(raw);
        var content := Trim(raw);

        ghost var m := configMap;
        ghost var hs := StartPopping(lines, now, keyStack, indentStack, listCounters, configMap, indent);
        while indentStack != [] && indent < indentStack[|indentStack| - 1]
          invariant Popping(lines, now, hs, keyStack, indentStack, indent)
          invariant configMap == m
          decreases |indentStack|
        {
          hs := PopOne(lines, now, hs, keyStack, indentStack, indent);
          indentStack := indentStack[..|indentStack| - 1];
          if keyStack != [] { keyStack := keyStack[..|keyStack| - 1]; }
        }
        DonePopping(lines, now, hs, keyStack, indentStack, listCounters, configMap, indent);

        if "- " <= content {
          var item := Trim(content[2..]);
          item := Trim(item);
          var value := Unquoted(item);
          var prefix := JoinKeys(keyStack);
          ItemLine(lines, now, keyStack, indentStack, listCounters, configMap);
          if prefix == "" { continue; }
          var index := 0;
          if prefix in listCounters {
            index := listCounters[prefix];
            listCounters := listCounters[prefix := index + 1];
          } else {
            listCounters := listCounters[prefix := 1];
          }
          configMap := configMap[prefix + "." + ToString(index) := value];
          continue;
        }

        var colon := IndexOf(content, ':', 0);
        if colon == |content| {
          IgnoreLine(lines, now, keyStack, indentStack, listCounters, configMap);
          continue;
        }
        var key := Trim(content[..colon]);
        var value := Trim(content[colon + 1..]);
        if key == "" {
          IgnoreLine(lines, now, keyStack, indentStack, listCounters, configMap);
          continue;
        }
        if value == "" {
          HeaderLine(lines, now, keyStack, indentStack, listCounters, configMap);
          keyStack, indentStack := keyStack + [key], indentStack + [indent];
          continue;
        }
        var fullKey := JoinKeys(keyStack);
        ScalarLine(lines, now, keyStack, indentStack, listCounters, configMap);
        if fullKey != "" { fullKey := fullKey + "."; }
        fullKey := fullKey + key;
        assert fullKey == Glue(Joined(keyStack), key);
        value := Unquoted(value);
        configMap := configMap[fullKey := value];
      }
      EndsAtLine(file.value, n, keyStack, indentStack, listCounters, configMap);
      return true;
    }

    method GetString(key: string, defaultValue: string) returns (r: string)
      ensures r == if key in configMap then configMap[key] else defaultValue
    {
      if key in configMap { return configMap[key]; }
      return defaultValue;
    }

    /** Walks the map in an order of its own choosing; what may come back is every listing and nothing else. */
    method GetStringList(keyPrefix: string) returns (out: seq<string>)
      ensures IsListing(configMap, keyPrefix, out)
    {
      var items: seq<(nat, string)>, prefix := [], keyPrefix + ".";
      ghost var keys: seq<string> := [];
      var left := configMap.Keys;
      while left != {}
        invariant left <= configMap.Keys
        invariant Tracks(configMap, keyPrefix, items, keys)
        invariant forall i | 0 <= i < |keys| :: keys[i] !in left
        invariant forall k | k in configMap && k !in left && IsIndexKey(k, keyPrefix) :: k in keys
        invariant forall i, j | 0 <= i < j < |keys| :: keys[i] != keys[j]
        decreases |left|
      {
        var k :| k in left;
        left := left - {k};
        if !(prefix <= k) { continue; }
        var suffix := k[|prefix|..];
        if suffix == "" { continue; }
        if !AllDigits(suffix) { continue; }
        var index := Stoi(suffix);
        if index.Throw? { continue; }
        items := items + [(index.value, configMap[k])];
        keys := keys + [k];
      }
      var sorted, order := SortByIndex(configMap, keyPrefix, items, keys);
      out := [];
      for n := 0 to |sorted|
        invariant out == ValuesOf(configMap, order[..n])
      {
        out := out + [sorted[n].1];
      }
      assert order[..|sorted|] == order;
      PermutedOrder(configMap, keyPrefix, keys, order);
    }
  }

  /** A sorted rearrangement of distinct keys is an order. */
  lemma PermutedOrder(m: map<string, string>, prefix: string, keys: seq<string>, order: seq<string>)
    requires forall k <- order :: k in m && IsIndexKey(k, prefix)
    requires forall k | k in m && IsIndexKey(k, prefix) :: k in keys
    requires forall i, j | 0 <= i < j < |keys| :: keys[i] != keys[j]
    requires multiset(order) == multiset(keys)
    requires forall i, j | 0 <= i < j < |order| :: IndexIn(order[i], prefix) <= IndexIn(order[j], prefix)
    ensures IsOrder(m, prefix, order)
  {
    forall k <- m | IsIndexKey(k, prefix) ensures k in order {
      assert k in multiset(keys);
    }
    DistinctCounts(keys);
    forall i, j | 0 <= i < j < |order| ensures order[i] != order[j] {
      if order[i] == order[j] {
        RepeatCounts(order, i, j);
      }
    }
  }

  lemma {:induction false} DistinctCounts(keys: seq<string>)
    requires forall i, j | 0 <= i < j < |keys| :: keys[i] != keys[j]
    ensures forall k: string :: multiset(keys)[k] <= 1
  {
    if keys != [] {
      var init, last := keys[..|keys| - 1], keys[|keys| - 1];
      DistinctCounts(init);
      assert keys == init + [last];
      assert last !in init;
    }
  }

  lemma RepeatCounts(order: seq<string>, i: nat, j: nat)
    requires i < j < |order| && order[i] == order[j]
    ensures multiset(order)[order[i]] >= 2
  {
    assert order == order[..i] + [order[i]] + order[i + 1..j] + [order[j]] + order[j + 1..];
  }
}
