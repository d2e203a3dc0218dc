/** What the scope rule means for the configuration files of the repository, four of which open with "server:". */
module ConfigDocuments {
  import opened ConfigText
  import opened ConfigEvents
  import opened ConfigScope
  import opened ConfigManager
  import opened ConfigPrint
  import opened ConfigTree
  import opened ConfigFlatten

  /** The document opens with the header `h` at the left margin. */
  predicate OpensWith(lines: seq<Line>, h: nat) {
    && h < |lines|
    && lines[h].Header? && lines[h].indent == 0 && lines[h].key != ""
    && forall m | 0 <= m < h :: lines[m].Blank?
  }

  /** Nothing is indented less than the left margin, so nothing ever closes that header. */
  lemma {:induction false} FirstHeaderStaysOpen(lines: seq<Line>, h: nat, k: nat, n: nat)
    requires OpensWith(lines, h) && h < k <= n <= |lines|
    ensures var hs := Opens(lines, false, k, n); hs != [] && hs[0] == h
  {
    if k == h + 1 {
      BlanksOpenNothing(lines, h, n);
    } else {
      FirstHeaderStaysOpen(lines, h, k - 1, n);
    }
  }

  lemma {:induction false} BlanksOpenNothing(lines: seq<Line>, k: nat, n: nat)
    requires k <= n <= |lines| && forall m | 0 <= m < k :: lines[m].Blank?
    ensures Opens(lines, false, k, n) == []
  {
    if k > 0 { BlanksOpenNothing(lines, k - 1, n); }
  }

  lemma {:induction false} AllUnderFirstHeader(lines: seq<Line>, h: nat, n: nat)
    requires OpensWith(lines, h) && n <= |lines|
    ensures forall e <- EventsOf(lines, false, n) :: e.path != [] && e.path[0] == lines[h].key
  {
    hide Opens;
    if n > 0 {
      AllUnderFirstHeader(lines, h, n - 1);
      if h < n - 1 { FirstHeaderStaysOpen(lines, h, n - 1, n); }
    }
  }

  /** The first key ends where the joined path ends, or a dot follows it. */
  lemma {:induction false} JoinedStarts(path: seq<string>)
    requires path != [] && path[0] != ""
    ensures path[0] + "." <= Joined(path) + "."
  {
    var init := path[..|path| - 1];
    if init == [] {
      assert Joined(init) == "";
    } else {
      JoinedStarts(init);
      assert path[0] + "." <= Joined(init) + ".";
      assert Joined(init) + "." <= Joined(path) + "." || Joined(path) == Joined(init);
    }
  }

  lemma {:induction false} KeysStart(events: seq<Event>, key: string)
    requires key != "" && forall e <- events :: e.path != [] && e.path[0] == key && (e.Put? ==> e.key != "")
    ensures forall k <- Store(events) :: key + "." <= k
  {
    if events != [] {
      var before, e := events[..|events| - 1], events[|events| - 1];
      assert e in events;
      forall x <- before ensures x in events {}
      KeysStart(before, key);
      JoinedStarts(e.path);
      assert Joined(e.path) + "." <= FullKey(before, e);
    }
  }

  /** Every key of the file is the key of the header it opens with, a dot, and more. */
  lemma FirstHeaderOwnsTheFile(text: string, h: nat)
    requires OpensWith(LinesOf(text), h)
    ensures forall k <- Loaded(text) :: LinesOf(text)[h].key + "." <= k
  {
    hide EventsOf, Store, LinesOf;
    var lines := LinesOf(text);
    AllUnderFirstHeader(lines, h, |lines|);
    LoadedPutsHaveKeys(text);
    KeysStart(EventsOf(lines, false, |lines|), lines[h].key);
  }

  lemma LoadedPutsHaveKeys(text: string)
    ensures forall e <- EventsOf(LinesOf(text), false, |LinesOf(text)|) :: e.Put? ==> e.key != ""
  {
    ClassifiedHasKeys(SplitLines(text));
    PutsHaveKeys(LinesOf(text), |LinesOf(text)|);
  }

  lemma {:induction false} PutsHaveKeys(lines: seq<Line>, n: nat)
    requires HasKeys(lines) && n <= |lines|
    ensures forall e <- EventsOf(lines, false, n) :: e.Put? ==> e.key != ""
  {
    hide Enclosing;
    if n > 0 {
      PutsHaveKeys(lines, n - 1);
      NextEvents(lines, false, n - 1);
      assert lines[n - 1] in lines;
    }
  }

  /** A list can be read back only under that key itself or a key below it. */
  lemma OtherListsAreEmpty(text: string, h: nat, prefix: string, out: seq<string>)
    requires OpensWith(LinesOf(text), h) && IsListing(Loaded(text), prefix, out) && out != []
    ensures var key := LinesOf(text)[h].key; prefix == key || key + "." <= prefix
  {
    hide Loaded, LinesOf;
    var key, m := LinesOf(text)[h].key, Loaded(text);
    var order: seq<string> :| IsOrder(m, prefix, order) && out == ValuesOf(m, order);
    FirstHeaderOwnsTheFile(text, h);
    OrderIsOfKeys(m, prefix, order);
    var k :| k in m && IsIndexKey(k, prefix);
    DotBeforeDigits(key, prefix, k);
  }

  lemma OrderIsOfKeys(m: map<string, string>, prefix: string, order: seq<string>)
    requires IsOrder(m, prefix, order)
    ensures order != [] ==> exists k <- m :: IsIndexKey(k, prefix)
  {
    if order != [] { assert order[0] in order; }
  }

  /** In prefix.digits every dot is part of the prefix or ends it. */
  lemma DotBeforeDigits(key: string, prefix: string, k: string)
    requires key + "." <= k && IsIndexKey(k, prefix)
    ensures prefix == key || key + "." <= prefix
  {
    var digits := k[|prefix| + 1..];
    assert k[|key|] == (key + ".")[|key|] == '.';
    assert k == prefix + "." + digits;
    DigitsHaveNoDot(digits);
    LastDot(prefix, digits);
    assert prefix == (prefix + ".")[..|prefix|] == k[..|prefix|] && key == (key + ".")[..|key|] == k[..|key|];
    if |key| < |prefix| {
      assert key + "." == k[..|key| + 1] == prefix[..|key| + 1];
    }
  }

  lemma ServerOpens(rest: string)
    ensures OpensWith(LinesOf("server:\n" + rest), 0) && LinesOf("server:\n" + rest)[0].key == "server"
  {
    var text := "server:\n" + rest;
    assert text == "server:" + "\n" + rest;
    FirstLine("server:", rest);
    assert SplitLines(text)[0] == "server:";
    ServerIsKey();
    HeaderRoundTrip(0, "server");
    assert PrintHeader(0, "server") == "server:";
  }

  lemma ServerIsKey()
    ensures IsKey("server")
  {
  }

  /**
   * A file that opens with "server:" has no "log.level", whatever follows, and its
   * "sensitive_words" list is empty: both are filed under "server".
   */
  lemma ServerSwallowsTheFile(rest: string, out: seq<string>)
    requires IsListing(Loaded("server:\n" + rest), "sensitive_words", out)
    ensures "log.level" !in Loaded("server:\n" + rest) && out == []
  {
    hide Loaded, LinesOf, OpensWith, IsListing;
    var text := "server:\n" + rest;
    ServerOpens(rest);
    FirstHeaderOwnsTheFile(text, 0);
    assert "log.level"[0] != ("server" + ".")[0];
    assert "sensitive_words"[2] != ("server" + ".")[2];
    if out != [] { OtherListsAreEmpty(text, 0, "sensitive_words", out); }
  }

  /** The first two lines of the gateway's file do give the port that its test asks for. */
  lemma PortIsRead()
    ensures Loaded("server:\n  tcp_port: 9000\n") == map["server.tcp_port" := "9000"]
  {
    hide Print, Flatten, Printable, Tame, Loaded, Unlines;
    PortIsPrintable();
    PortIsPrinted();
    JoinTwo("server:", "  tcp_port: 9000");
    assert "server:" + "\n" + ("  tcp_port: 9000" + "\n") == "server:\n  tcp_port: 9000\n";
    TameLoads(Entry("server", Submap(Entry("tcp_port", Leaf(Text(Bare, "9000")), Nil)), Nil));
  }

  lemma PortIsPrinted()
    ensures var port := Entry("tcp_port", Leaf(Text(Bare, "9000")), Nil);
            var tree := Entry("server", Submap(port), Nil);
            && Print(tree, 0) == ["server:", "  tcp_port: 9000"]
            && Tame(tree) && Flatten(tree, "") == map["server.tcp_port" := "9000"]
  {
    var port := Entry("tcp_port", Leaf(Text(Bare, "9000")), Nil);
    var tree := Entry("server", Submap(port), Nil);
    assert Spaces(0) == "" && Spaces(1) == " " && Spaces(2) == "  ";
    assert PrintScalar(2, "tcp_port", Text(Bare, "9000")) == "  tcp_port: 9000";
    assert PrintHeader(0, "server") == "server:";
    assert Print(port, 2) == ["  tcp_port: 9000"] + Print(Nil, 2);
    assert Print(tree, 0) == (["server:"] + Print(port, 2)) + Print(Nil, 0);
    assert Glue("server", "tcp_port") == "server.tcp_port" && Glue("", "server") == "server";
    assert Flatten(port, "server") == FlatNode("tcp_port", Leaf(Text(Bare, "9000")), "server") + Flatten(Nil, "server");
    assert Flatten(tree, "") == FlatNode("server", Submap(port), "") + Flatten(Nil, "");
  }

  lemma JoinTwo(a: string, b: string)
    ensures Unlines([a, b]) == a + "\n" + (b + "\n")
  {
    assert [a, b][1..] == [b] && [b][1..] == [];
    assert Unlines([b]) == b + "\n";
  }

  lemma PortIsPrintable()
    ensures Printable(Entry("tcp_port", Leaf(Text(Bare, "9000")), Nil))
    ensures Printable(Entry("server", Submap(Entry("tcp_port", Leaf(Text(Bare, "9000")), Nil)), Nil))
  {
    assert "tcp_port"[0] != "- "[0] && "server"[0] != "- "[0];
    assert IsKey("tcp_port") && IsKey("server");
    assert Survives(Text(Bare, "9000"));
    assert Printable(Nil);
  }
}
