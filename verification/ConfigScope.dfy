/**
 * The headers a configuration line sits under: the rule the loader's two stacks follow, the rule of
 * block collections in section 8.2 of YAML 1.2.2, and exactly where the two differ.
 */
module ConfigScope {
  import opened ConfigText
  import opened ConfigEvents

  /** The "- " of a block sequence entry counts as indentation, so an item may stand level with its header. */
  function Depth(line: Line): nat
    requires !line.Blank?
  {
    line.indent + if line.Item? then 1 else 0
  }

  /** Does `line` leave the earlier `header` open?  YAML wants it deeper; the loader accepts it level. */
  predicate Keeps(yaml: bool, header: Line, line: Line)
    requires header.Header?
  {
    line.Blank? || if yaml then header.indent < Depth(line) else header.indent <= line.indent
  }

  /** Header `h` is open before line `n`: every line between left it open. */
  predicate Open(lines: seq<Line>, yaml: bool, h: nat, n: nat)
    requires h < n <= |lines|
  {
    lines[h].Header? && forall m | h < m < n :: Keeps(yaml, lines[h], lines[m])
  }

  predicate AreHeaders(lines: seq<Line>, hs: seq<nat>) {
    forall i | 0 <= i < |hs| :: hs[i] < |lines| && lines[hs[i]].Header?
  }

  /** The headers among the first `k` lines that are open before line `n`, in file order. */
  function Opens(lines: seq<Line>, yaml: bool, k: nat, n: nat): (hs: seq<nat>)
    requires k <= n <= |lines|
    ensures AreHeaders(lines, hs)
    ensures forall i | 0 <= i < |hs| :: hs[i] < k && Open(lines, yaml, hs[i], n)
    ensures forall i, j | 0 <= i < j < |hs| :: hs[i] < hs[j]
    decreases k
  {
    if k == 0 then []
    else if Open(lines, yaml, k - 1, n) then Opens(lines, yaml, k - 1, n) + [k - 1]
    else Opens(lines, yaml, k - 1, n)
  }

  /** The headers line `n` sits under. */
  function Enclosing(lines: seq<Line>, yaml: bool, n: nat): (hs: seq<nat>)
    requires n < |lines|
    ensures AreHeaders(lines, hs)
  {
    Opens(lines, yaml, n, n + 1)
  }

  lemma {:induction false} OpensIsComplete(lines: seq<Line>, yaml: bool, k: nat, n: nat, h: nat)
    requires h < k <= n <= |lines| && Open(lines, yaml, h, n)
    ensures h in Opens(lines, yaml, k, n)
  {
    if h < k - 1 { OpensIsComplete(lines, yaml, k - 1, n, h); }
  }

  function KeysOf(lines: seq<Line>, hs: seq<nat>): (keys: seq<string>)
    requires AreHeaders(lines, hs)
    ensures |keys| == |hs|
  {
    seq(|hs|, i requires 0 <= i < |hs| => lines[hs[i]].key)
  }

  function IndentsOf(lines: seq<Line>, hs: seq<nat>): (indents: seq<nat>)
    requires AreHeaders(lines, hs)
    ensures |indents| == |hs|
  {
    seq(|hs|, i requires 0 <= i < |hs| => lines[hs[i]].indent)
  }

  // ----- the stacks -----

  /** The pop loop: headers deeper than `indent` leave from the back. */
  function Popped(lines: seq<Line>, hs: seq<nat>, indent: nat): (r: seq<nat>)
    requires AreHeaders(lines, hs)
    ensures r <= hs && AreHeaders(lines, r)
  {
    if hs != [] && indent < lines[hs[|hs| - 1]].indent then Popped(lines, hs[..|hs| - 1], indent) else hs
  }

  /** Indents on the stack never decrease. */
  lemma IndentsAscend(lines: seq<Line>, k: nat, n: nat)
    requires k <= n <= |lines|
    ensures var indents := IndentsOf(lines, Opens(lines, false, k, n));
            forall i, j | 0 <= i < j < |indents| :: indents[i] <= indents[j]
  {
    var hs := Opens(lines, false, k, n);
    forall i, j | 0 <= i < j < |hs| ensures lines[hs[i]].indent <= lines[hs[j]].indent {
      assert Keeps(false, lines[hs[i]], lines[hs[j]]);
    }
  }

  lemma OpenOneMore(lines: seq<Line>, yaml: bool, h: nat, n: nat)
    requires h < n < |lines|
    ensures Open(lines, yaml, h, n) ==> lines[h].Header?
    ensures Open(lines, yaml, h, n + 1) <==> Open(lines, yaml, h, n) && Keeps(yaml, lines[h], lines[n])
  {
  }

  /** Popping is exact: what it leaves is the headers the new line sits under, each of them and no other. */
  lemma {:induction false} PopIsScope(lines: seq<Line>, k: nat, n: nat)
    requires k <= n < |lines| && !lines[n].Blank?
    ensures Popped(lines, Opens(lines, false, k, n), lines[n].indent) == Opens(lines, false, k, n + 1)
  {
    hide Open, AreHeaders, Popped;
    var hs := Opens(lines, false, if k == 0 then 0 else k - 1, n);
    if k == 0 {
      PoppedStays(lines, hs, lines[n].indent);
    } else {
      PopIsScope(lines, k - 1, n);
      OpenOneMore(lines, false, k - 1, n);
      if Open(lines, false, k - 1, n) {
        LastIsNoDeeper(lines, k - 1, n);
        PoppedOneMore(lines, hs, k - 1, lines[n].indent);
        if lines[k - 1].indent <= lines[n].indent { PoppedStays(lines, hs, lines[n].indent); }
      }
    }
  }

  /**
   * The stack at a line, without mentioning stacks: what the pop loop leaves is, in file order, every
   * earlier header such that no line since, this one included, is indented less, and nothing else.
   */
  lemma StackIsScope(lines: seq<Line>, n: nat)
    requires n < |lines| && !lines[n].Blank?
    ensures var hs := Popped(lines, Opens(lines, false, n, n), lines[n].indent);
            && hs == Enclosing(lines, false, n)
            && (forall h: nat :: h in hs <==> h < n && Open(lines, false, h, n + 1))
            && (forall i, j | 0 <= i < j < |hs| :: hs[i] < hs[j])
  {
    hide Popped, Open;
    PopIsScope(lines, n, n);
    forall h: nat | h < n && Open(lines, false, h, n + 1) ensures h in Enclosing(lines, false, n) {
      OpensIsComplete(lines, false, n, n + 1, h);
    }
  }

  lemma PoppedStays(lines: seq<Line>, hs: seq<nat>, indent: nat)
    requires AreHeaders(lines, hs) && (hs != [] ==> lines[hs[|hs| - 1]].indent <= indent)
    ensures Popped(lines, hs, indent) == hs
  {
  }

  lemma PoppedOneMore(lines: seq<Line>, hs: seq<nat>, h: nat, indent: nat)
    requires AreHeaders(lines, hs) && h < |lines| && lines[h].Header?
    ensures AreHeaders(lines, hs + [h])
    ensures Popped(lines, hs + [h], indent)
            == if indent < lines[h].indent then Popped(lines, hs, indent) else hs + [h]
  {
    assert (hs + [h])[..|hs|] == hs;
  }

  /** The last header open before an open header is no deeper than it. */
  lemma LastIsNoDeeper(lines: seq<Line>, k: nat, n: nat)
    requires k < n <= |lines| && Open(lines, false, k, n)
    ensures var hs := Opens(lines, false, k, n);
            hs != [] ==> lines[hs[|hs| - 1]].indent <= lines[k].indent
  {
    var hs := Opens(lines, false, k, n);
    if hs != [] { assert Keeps(false, lines[hs[|hs| - 1]], lines[k]); }
  }

  lemma {:induction false} BlankKeepsScope(lines: seq<Line>, k: nat, n: nat)
    requires k <= n < |lines| && lines[n].Blank?
    ensures Opens(lines, false, k, n) == Opens(lines, false, k, n + 1)
  {
    if k > 0 { BlankKeepsScope(lines, k - 1, n); }
  }

  /** After a line is dealt with, the stack holds what it sits under, and the line itself if it is a header. */
  lemma NextScope(lines: seq<Line>, yaml: bool, n: nat)
    requires n < |lines|
    ensures Opens(lines, yaml, n + 1, n + 1)
            == if lines[n].Header? then Enclosing(lines, yaml, n) + [n] else Enclosing(lines, yaml, n)
  {
  }

  // ----- what the lines write -----

  function EventAt(lines: seq<Line>, yaml: bool, n: nat): seq<Event>
    requires n < |lines|
  {
    var path := KeysOf(lines, Enclosing(lines, yaml, n));
    match lines[n]
    case Item(_, value) => [Append(path, value)]
    case Scalar(_, key, value) => [Put(path, key, value)]
    case _ => []
  }

  /** What the first `n` lines write, in order. */
  function EventsOf(lines: seq<Line>, yaml: bool, n: nat): (events: seq<Event>)
    requires n <= |lines|
    ensures |events| <= n
  {
    if n == 0 then [] else EventsOf(lines, yaml, n - 1) + EventAt(lines, yaml, n - 1)
  }

  lemma NextEvents(lines: seq<Line>, yaml: bool, n: nat)
    requires n < |lines|
    ensures var path, events := KeysOf(lines, Enclosing(lines, yaml, n)), EventsOf(lines, yaml, n);
            EventsOf(lines, yaml, n + 1) ==
            match lines[n]
            case Item(_, value) => events + [Append(path, value)]
            case Scalar(_, key, value) => events + [Put(path, key, value)]
            case _ => events
  {
  }

  // ----- the loader's rule against YAML's -----

  /** A line after `h`, up to and including `n`, stands level with `h` and is not a list item. */
  predicate MetPeer(lines: seq<Line>, h: nat, n: nat)
    requires h < n < |lines| && lines[h].Header?
  {
    exists m | h < m <= n :: !lines[m].Blank? && !lines[m].Item? && lines[m].indent == lines[h].indent
  }

  /** What YAML keeps open the loader keeps open; the rest is headers that have met a peer. */
  lemma OpenUnder(lines: seq<Line>, h: nat, n: nat)
    requires h < n < |lines|
    ensures Open(lines, true, h, n + 1) <==> Open(lines, false, h, n + 1) && !MetPeer(lines, h, n)
  {
    if lines[h].Header? {
      forall m | h < m <= n
        ensures Keeps(true, lines[h], lines[m]) <==>
                Keeps(false, lines[h], lines[m])
                && !(!lines[m].Blank? && !lines[m].Item? && lines[m].indent == lines[h].indent)
      {}
    }
  }

  /** The sub-list of `hs` that has not met a peer. */
  function WithoutPeers(lines: seq<Line>, hs: seq<nat>, n: nat): (rest: seq<nat>)
    requires AreHeaders(lines, hs) && n < |lines| && forall i | 0 <= i < |hs| :: hs[i] < n
    ensures AreHeaders(lines, rest)
  {
    if hs == [] then []
    else
      var init, h := hs[..|hs| - 1], hs[|hs| - 1];
      if MetPeer(lines, h, n) then WithoutPeers(lines, init, n) else WithoutPeers(lines, init, n) + [h]
  }

  lemma WithoutPeersOneMore(lines: seq<Line>, hs: seq<nat>, h: nat, n: nat)
    requires AreHeaders(lines, hs + [h]) && n < |lines| && h < n && forall i | 0 <= i < |hs| :: hs[i] < n
    ensures AreHeaders(lines, hs) && lines[h].Header?
    ensures forall i | 0 <= i < |hs + [h]| :: (hs + [h])[i] < n
    ensures WithoutPeers(lines, hs + [h], n)
            == if MetPeer(lines, h, n) then WithoutPeers(lines, hs, n) else WithoutPeers(lines, hs, n) + [h]
  {
    assert (hs + [h])[|hs|] == h;
    assert forall i | 0 <= i < |hs| :: (hs + [h])[i] == hs[i];
    assert (hs + [h])[..|hs|] == hs;
  }

  /** The YAML path is always the loader's scope with some headers left out, in the same order. */
  lemma {:induction false} YamlPathIsSubsequence(lines: seq<Line>, k: nat, n: nat)
    requires k <= n < |lines|
    ensures Opens(lines, true, k, n + 1) == WithoutPeers(lines, Opens(lines, false, k, n + 1), n)
  {
    hide Open, MetPeer, AreHeaders;
    if k > 0 {
      YamlPathIsSubsequence(lines, k - 1, n);
      OpenUnder(lines, k - 1, n);
      if Open(lines, false, k - 1, n + 1) {
        assert Opens(lines, false, k, n + 1) == Opens(lines, false, k - 1, n + 1) + [k - 1];
        WithoutPeersOneMore(lines, Opens(lines, false, k - 1, n + 1), k - 1, n);
      }
    }
  }

  ghost predicate HasKeys(lines: seq<Line>) {
    forall line <- lines :: (line.Header? || line.Scalar?) ==> line.key != ""
  }

  lemma ClassifiedHasKeys(lines: seq<string>)
    ensures HasKeys(Classified(lines))
  {
  }

  /** Leaving out headers makes the joined key strictly shorter. */
  lemma {:induction false} WithoutPeersIsShorter(lines: seq<Line>, hs: seq<nat>, n: nat)
    requires AreHeaders(lines, hs) && n < |lines| && forall i | 0 <= i < |hs| :: hs[i] < n
    requires HasKeys(lines)
    ensures var rest := WithoutPeers(lines, hs, n);
            && |Joined(KeysOf(lines, rest))| <= |Joined(KeysOf(lines, hs))|
            && (|Joined(KeysOf(lines, rest))| == |Joined(KeysOf(lines, hs))| ==> rest == hs)
  {
    if hs != [] {
      var init, h := hs[..|hs| - 1], hs[|hs| - 1];
      assert hs == init + [h];
      WithoutPeersOneMore(lines, init, h, n);
      WithoutPeersIsShorter(lines, init, n);
      var rest := WithoutPeers(lines, init, n);
      JoinedOneMore(lines, init, h);
      JoinedOneMore(lines, rest, h);
    }
  }

  lemma KeysOneMore(lines: seq<Line>, hs: seq<nat>, h: nat)
    requires AreHeaders(lines, hs) && h < |lines| && lines[h].Header?
    ensures AreHeaders(lines, hs + [h])
    ensures KeysOf(lines, hs + [h]) == KeysOf(lines, hs) + [lines[h].key]
    ensures IndentsOf(lines, hs + [h]) == IndentsOf(lines, hs) + [lines[h].indent]
  {
  }

  lemma JoinedOneMore(lines: seq<Line>, hs: seq<nat>, h: nat)
    requires AreHeaders(lines, hs) && h < |lines| && lines[h].Header? && HasKeys(lines)
    ensures AreHeaders(lines, hs + [h])
    ensures var p, q := Joined(KeysOf(lines, hs)), Joined(KeysOf(lines, hs + [h]));
            |q| == |p| + |lines[h].key| + if p == "" then 0 else 1
    ensures lines[h].key != ""
  {
    assert lines[h] in lines;
    KeysOneMore(lines, hs, h);
    JoinedMore(KeysOf(lines, hs), lines[h].key);
  }

  /** No header the loader has open at line `n` has met a peer. */
  predicate NoPeers(lines: seq<Line>, n: nat)
    requires n < |lines|
  {
    forall h <- Enclosing(lines, false, n) :: !MetPeer(lines, h, n)
  }

  lemma {:induction false} WithoutPeersIsAll(lines: seq<Line>, hs: seq<nat>, n: nat)
    requires AreHeaders(lines, hs) && n < |lines| && forall i | 0 <= i < |hs| :: hs[i] < n
    ensures |WithoutPeers(lines, hs, n)| <= |hs|
    ensures WithoutPeers(lines, hs, n) == hs <==> forall h <- hs :: !MetPeer(lines, h, n)
  {
    if hs != [] {
      var init, h := hs[..|hs| - 1], hs[|hs| - 1];
      assert hs == init + [h];
      WithoutPeersIsAll(lines, init, n);
    }
  }

  /**
   * One line: the loader's scope, its joined key prefix, and the YAML path agree all together or
   * not at all, and they agree exactly when no open header has met a later line of its own indent.
   */
  lemma ScopeMatchesYaml(lines: seq<Line>, n: nat)
    requires n < |lines| && HasKeys(lines)
    ensures Enclosing(lines, false, n) == Enclosing(lines, true, n) <==> NoPeers(lines, n)
    ensures Joined(KeysOf(lines, Enclosing(lines, false, n))) == Joined(KeysOf(lines, Enclosing(lines, true, n)))
            <==> NoPeers(lines, n)
  {
    var hs := Enclosing(lines, false, n);
    YamlPathIsSubsequence(lines, n, n);
    WithoutPeersIsAll(lines, hs, n);
    WithoutPeersIsShorter(lines, hs, n);
  }

  /** No line that writes sits under a header that has met a peer. */
  predicate NoWriterUnderPeers(lines: seq<Line>, n: nat)
    requires n <= |lines|
  {
    forall m | 0 <= m < n && (lines[m].Item? || lines[m].Scalar?) :: NoPeers(lines, m)
  }

  /** A whole document: the loader writes what YAML's nesting says, entry for entry, in exactly that case. */
  lemma {:induction false} DocumentMatchesYaml(lines: seq<Line>, n: nat)
    requires n <= |lines| && HasKeys(lines)
    ensures |EventsOf(lines, false, n)| == |EventsOf(lines, true, n)|
    ensures EventsOf(lines, false, n) == EventsOf(lines, true, n) <==> NoWriterUnderPeers(lines, n)
  {
    hide NoPeers, EventAt, HasKeys;
    if n > 0 {
      DocumentMatchesYaml(lines, n - 1);
      EventMatchesYaml(lines, n - 1);
      SplitEqual(EventsOf(lines, false, n - 1), EventAt(lines, false, n - 1),
                 EventsOf(lines, true, n - 1), EventAt(lines, true, n - 1));
    }
  }

  lemma SplitEqual(a: seq<Event>, x: seq<Event>, b: seq<Event>, y: seq<Event>)
    requires |a| == |b|
    ensures a + x == b + y <==> a == b && x == y
  {
    if a + x == b + y {
      assert a == (a + x)[..|a|] == (b + y)[..|b|] == b;
      assert x == (a + x)[|a|..] == (b + y)[|b|..] == y;
    }
  }

  lemma EventMatchesYaml(lines: seq<Line>, n: nat)
    requires n < |lines| && HasKeys(lines)
    ensures |EventAt(lines, false, n)| == |EventAt(lines, true, n)|
    ensures EventAt(lines, false, n) == EventAt(lines, true, n)
            <==> ((lines[n].Item? || lines[n].Scalar?) ==> NoPeers(lines, n))
  {
    hide Enclosing, NoPeers, Joined, HasKeys, AreHeaders, KeysOf;
    ScopeMatchesYaml(lines, n);
    var p, q := KeysOf(lines, Enclosing(lines, false, n)), KeysOf(lines, Enclosing(lines, true, n));
    if p == q { assert Joined(p) == Joined(q); }
  }
}
