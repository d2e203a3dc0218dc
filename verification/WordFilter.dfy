/**
 * logic/src/sensitive_filter.cpp: the trie of sensitive words, built in place on the heap, and the
 * two scanners that walk it.
 */
module WordFilter {
  import opened FilterSpec

  class TrieNode {
    var children: map<char, TrieNode>
    var isEnd: bool
    /** What the letters on the way from the root spell. */
    ghost const path: string

    constructor (ghost path: string)
      ensures children == map[] && !isEnd && this.path == path
    {
      this.path := path;
      children := map[];
      isEnd := false;
    }
  }

  /** The longest word, in letters; 0 for the empty dictionary. */
  ghost function Longest(words: set<string>): (n: nat)
    ensures forall w | w in words :: |w| <= n
    ensures words != {} ==> exists w :: w in words && |w| == n
  {
    if words == {} then 0
    else
      var w :| w in words;
      var n := Longest(words - {w});
      assert words == (words - {w}) + {w};
      if |w| < n then n else |w|
  }

  // ----- the paths of a trie, as a set of strings

  function Snoc(p: string, c: char): string { p + [c] }

  ghost predicate IsPrefix(p: string, w: string) {
    |p| <= |w| && w[..|p|] == p
  }

  /** Is `p` a prefix of `partial` or of some word? */
  ghost predicate OnPath(words: set<string>, partial: string, p: string) {
    IsPrefix(p, partial) || exists w :: w in words && IsPrefix(p, w)
  }

  /** `paths` are the prefixes of the words, and of a word that is just being added. */
  ghost predicate Spells(words: set<string>, partial: string, paths: set<string>) {
    "" !in words && forall p :: p in paths <==> OnPath(words, partial, p)
  }

  lemma SpellsNext(words: set<string>, here: string, c: char, paths: set<string>)
    requires Spells(words, here, paths)
    ensures Spells(words, Snoc(here, c), paths + {Snoc(here, c)})
  {
    var next := Snoc(here, c);
    forall p ensures IsPrefix(p, next) <==> IsPrefix(p, here) || p == next {
      if |p| <= |here| {
        assert next[..|p|] == here[..|p|];
      }
    }
    forall p ensures p in paths + {next} <==> OnPath(words, next, p) {
    }
  }

  /** A path that no word takes goes no further, and is not itself a word. */
  lemma OffPath(words: set<string>, partial: string, paths: set<string>, p: string, d: char)
    requires Spells(words, partial, paths) && p !in paths
    ensures Snoc(p, d) !in paths && p !in words
  {
    forall w ensures IsPrefix(Snoc(p, d), w) ==> IsPrefix(p, w) {
      if IsPrefix(Snoc(p, d), w) {
        assert w[..|p|] == w[..|p| + 1][..|p|];
      }
    }
    assert !OnPath(words, partial, p);
    assert IsPrefix(p, p);
    assert !OnPath(words, partial, Snoc(p, d));
  }

  lemma SpellsWord(words: set<string>, word: string, paths: set<string>)
    requires word != "" && Spells(words, word, paths)
    ensures Spells(words + {word}, "", paths)
  {
    forall p ensures OnPath(words, word, p) <==> OnPath(words + {word}, "", p) {
      assert IsPrefix(p, "") ==> IsPrefix(p, word);
    }
  }

  // ----- what the scanners cost, in child lookups

  /** The lookups of the inner loop from letter `j` on, in a search that began at `i`. */
  ghost function StepsFrom(words: set<string>, text: string, i: nat, j: nat): nat
    requires i <= j <= |text|
    decreases |text| - j
  {
    if j == |text| then 0
    else if !OnPath(words, "", text[i..j + 1]) || text[i..j + 1] in words then 1
    else 1 + StepsFrom(words, text, i, j + 1)
  }

  ghost function Steps(words: set<string>, text: string, i: nat): nat
    requires i <= |text|
  {
    StepsFrom(words, text, i, i)
  }

  /** All lookups of HasSensitiveWord from `i` on: it stops at the first word. */
  ghost function SearchCost(words: set<string>, text: string, i: nat): nat
    requires i <= |text|
    decreases |text| - i
  {
    if i == |text| then 0
    else Steps(words, text, i) + if Hit(words, text, i) then 0 else SearchCost(words, text, i + 1)
  }

  /** All lookups of Filter from `i` on: it goes on behind each word. */
  ghost function FilterCost(words: set<string>, text: string, i: nat): nat
    requires i <= |text|
    decreases |text| - i
  {
    if i == |text| then 0
    else
      var n := ShortestAt(words, text, i);
      Steps(words, text, i) + FilterCost(words, text, if n == 0 then i + 1 else i + n)
  }

  /** All letters that Filter overwrites from `i` on. */
  ghost function WriteCost(words: set<string>, text: string, i: nat): (cost: nat)
    requires i <= |text|
    ensures cost <= |text| - i
    decreases |text| - i
  {
    if i == |text| then 0
    else
      var n := ShortestAt(words, text, i);
      n + WriteCost(words, text, if n == 0 then i + 1 else i + n)
  }

  lemma StepsUnfold(words: set<string>, text: string, i: nat, j: nat)
    requires i <= j < |text|
    ensures StepsFrom(words, text, i, j) ==
            if !OnPath(words, "", text[i..j + 1]) || Match(words, text, i, j + 1 - i) then 1
            else 1 + StepsFrom(words, text, i, j + 1)
    ensures StepsFrom(words, text, i, |text|) == 0
    ensures Steps(words, text, i) == StepsFrom(words, text, i, i)
  {
  }

  lemma EmptyCost(words: set<string>, text: string)
    ensures SearchCost(words, text, |text|) == 0 && FilterCost(words, text, |text|) == 0
    ensures WriteCost(words, text, |text|) == 0
  {
  }

  lemma CostUnfold(words: set<string>, text: string, i: nat)
    requires i < |text|
    ensures Hit(words, text, i) ==> SearchCost(words, text, i) == Steps(words, text, i)
    ensures !Hit(words, text, i) ==>
              SearchCost(words, text, i) == Steps(words, text, i) + SearchCost(words, text, i + 1)
    ensures !Hit(words, text, i) ==>
              FilterCost(words, text, i) == Steps(words, text, i) + FilterCost(words, text, i + 1)
    ensures forall n: nat | IsShortest(words, text, i, n) ::
              && FilterCost(words, text, i) == Steps(words, text, i) + FilterCost(words, text, i + n)
              && WriteCost(words, text, i) == n + WriteCost(words, text, i + n)
    ensures !Hit(words, text, i) ==> WriteCost(words, text, i) == WriteCost(words, text, i + 1)
  {
    ShortestAtMeans(words, text, i);
  }

  class SensitiveFilter {
    var root: TrieNode
    /** The non-empty words loaded so far. */
    ghost var words: set<string>
    /** The nodes of the trie, and the one node at the end of each path. */
    ghost var repr: set<TrieNode>
    ghost var nodes: map<string, TrieNode>

    /** A node is the only one at its path, is an end exactly for a word, and links to the paths one letter on. */
    ghost predicate Placed(n: TrieNode)
      reads this, n
    {
      && n.path in nodes && nodes[n.path] == n
      && (n.isEnd <==> n.path in words)
      && (forall c :: c in n.children <==> Snoc(n.path, c) in nodes)
      && (forall c | c in n.children :: n.children[c] in repr && n.children[c].path == Snoc(n.path, c))
    }

    /** The nodes form one tree. */
    ghost predicate Linked()
      reads this, repr
    {
      root in repr && root.path == "" && forall n | n in repr :: Placed(n)
    }

    ghost predicate Valid()
      reads this, repr
    {
      Linked() && Spells(words, "", nodes.Keys)
    }

    constructor ()
      ensures Valid() && fresh(repr) && words == {}
    {
      root := new TrieNode("");
      words := {};
      new;
      repr := {root};
      nodes := map["" := root];
    }

    method Init(list: seq<string>)
      requires Valid()
      modifies this, repr
      ensures Valid() && fresh(repr - old(repr)) && root == old(root)
      ensures words == old(words) + (set w | w in list && w != "")
    {
      hide Valid;
      for k := 0 to |list|
        invariant Valid() && fresh(repr - old(repr)) && root == old(root)
        invariant words == old(words) + (set w | w in list[..k] && w != "")
      {
        AddWord(list[k]);
        assert list[..k + 1] == list[..k] + [list[k]];
      }
      assert list[..|list|] == list;
    }

    method AddWord(word: string)
      requires Valid()
      modifies this, repr
      ensures Valid() && fresh(repr - old(repr)) && root == old(root)
      ensures words == if word == "" then old(words) else old(words) + {word}
    {
      hide *;
      if word == "" {
        return;
      }
      StartAtRoot(word);
      var node := root;
      var i := 0;
      while i < |word|
        invariant i <= |word|
        invariant Linked() && Spells(words, word[..i], nodes.Keys)
        invariant words == old(words) && root == old(root)
        invariant node in repr && node.path == word[..i]
        invariant fresh(repr - old(repr))
      {
        var c := word[i];
        SnocPrefix(word, i);
        SpellsNext(words, word[..i], c, nodes.Keys);
        NewLeaf(words, nodes.Keys, word[..i], c);
        node := ChildFor(node, c);
        i := i + 1;
      }
      assert word[..|word|] == word;
      SpellsWord(words, word, nodes.Keys);
      MarkEnd(node);
    }

    lemma StartAtRoot(word: string)
      requires Valid()
      ensures Linked() && Spells(words, word[..0], nodes.Keys) && root in repr && root.path == word[..0]
    {
      assert word[..0] == "";
    }

    /** node->is_end = true, which adds the word to the dictionary. */
    method MarkEnd(node: TrieNode)
      requires Linked() && node in repr
      requires Spells(words + {node.path}, "", nodes.Keys)
      modifies this`words, node`isEnd
      ensures Valid() && words == old(words) + {node.path}
    {
      hide Snoc;
      node.isEnd := true;
      words := words + {node.path};
    }

    /** One turn of the loop in AddWord: make the child for `c` unless it is there, and go to it. */
    method ChildFor(node: TrieNode, c: char) returns (child: TrieNode)
      requires Linked() && node in repr
      requires Snoc(node.path, c) !in nodes ==> IsNewLeaf(words, nodes.Keys, node.path, c)
      modifies this`nodes, this`repr, node`children
      ensures Linked() && nodes.Keys == old(nodes.Keys) + {Snoc(node.path, c)}
      ensures child in repr && child.path == Snoc(node.path, c)
      ensures repr >= old(repr) && fresh(repr - old(repr))
    {
      hide Snoc, IsNewLeaf;
      assert Placed(node);
      if c !in node.children {
        AddChild(node, c);
        assert Placed(node);
      }
      child := node.children[c];
    }

    /** node->children[c] = std::make_unique<TrieNode>() */
    method AddChild(node: TrieNode, c: char)
      requires Linked() && node in repr && c !in node.children
      requires IsNewLeaf(words, nodes.Keys, node.path, c)
      modifies this`nodes, this`repr, node`children
      ensures Linked() && nodes.Keys == old(nodes.Keys) + {Snoc(node.path, c)}
      ensures node in repr && c in node.children
      ensures repr > old(repr) && fresh(repr - old(repr))
    {
      hide Snoc;
      ghost var next := Snoc(node.path, c);
      var child := new TrieNode(next);
      node.children := node.children[c := child];
      assert nodes[next := child].Keys == nodes.Keys + {next};
      nodes := nodes[next := child];
      repr := repr + {child};
      assert Placed(child);
      assert Placed(node);
      forall n | n in repr && n != child && n != node ensures Placed(n) {
      }
    }

    // ----- the shape of the trie

    /** Every prefix of every word is spelt by a node. */
    lemma {:induction false} NodeFor(p: string, w: string)
      requires Valid() && w in words && IsPrefix(p, w)
      ensures exists n :: n in repr && n.path == p
      decreases |p|
    {
      if p == "" {
        assert root in repr && root.path == p;
      } else {
        var q, c := p[..|p| - 1], p[|p| - 1];
        assert w[..|q|] == w[..|p|][..|q|];
        NodeFor(q, w);
        var n :| n in repr && n.path == q;
        assert p == Snoc(q, c) && OnPath(words, "", p);
        Links(n, c);
        assert n.children[c] in repr && n.children[c].path == p;
      }
    }

    /**
     * The representation invariant after any Init calls: a node spells a prefix of a loaded word, is
     * marked exactly when that prefix is a word, and is marked if it has no children, the root
     * excepted; and the links form one tree: none leads to the root, and exactly one to any other node.
     */
    lemma Representation()
      requires Valid()
      ensures forall n | n in repr :: n == root || exists w :: w in words && IsPrefix(n.path, w)
      ensures forall n | n in repr :: n.isEnd <==> n.path in words
      ensures forall n | n in repr && n.children == map[] && !n.isEnd :: n == root && words == {}
      ensures forall m, n, c, d | m in repr && n in repr && c in m.children && d in n.children
                  && m.children[c] == n.children[d] :: m == n && c == d
      ensures forall m, c | m in repr && c in m.children :: m.children[c] in repr && m.children[c] != root
      ensures forall n | n in repr && n != root :: HasParent(n)
      ensures forall p, w | w in words && IsPrefix(p, w) :: exists n :: n in repr && n.path == p
      ensures root.children == map[] <==> words == {}
    {
      EmptyTrie();
      forall n | n in repr ensures n == root || exists w :: w in words && IsPrefix(n.path, w) {
        PathOf(n);
      }
      forall n | n in repr ensures n.isEnd <==> n.path in words {
        assert Placed(n);
      }
      forall n | n in repr && n.children == map[] && !n.isEnd ensures n == root && words == {} {
        LeafIsEnd(n);
      }
      forall m, n, c, d | m in repr && n in repr && c in m.children && d in n.children && m.children[c] == n.children[d]
        ensures m == n && c == d
      {
        Links(m, c);
        Links(n, d);
        SnocInjective(m.path, c, n.path, d);
        assert Placed(m) && Placed(n);
      }
      forall m, c | m in repr && c in m.children ensures m.children[c] in repr && m.children[c] != root {
        Links(m, c);
      }
      forall n | n in repr && n != root ensures HasParent(n) {
        ParentOf(n);
      }
      forall p, w | w in words && IsPrefix(p, w) ensures exists n :: n in repr && n.path == p {
        NodeFor(p, w);
      }
    }

    ghost predicate HasParent(n: TrieNode)
      reads this, repr
    {
      exists m, c :: m in repr && c in m.children && m.children[c] == n
    }

    lemma ParentOf(n: TrieNode)
      requires Valid() && n in repr && n != root
      ensures HasParent(n)
    {
      PathOf(n);
      assert Placed(n) && Placed(root);
      var p := n.path;
      var w :| w in words && IsPrefix(p, w);
      var q, c := p[..|p| - 1], p[|p| - 1];
      assert p == Snoc(q, c) && w[..|q|] == w[..|p|][..|q|];
      NodeFor(q, w);
      var m :| m in repr && m.path == q;
      Links(m, c);
      assert Placed(m.children[c]);
    }

    lemma PathOf(n: TrieNode)
      requires Valid() && n in repr
      ensures n == root || exists w :: w in words && IsPrefix(n.path, w)
    {
      assert Placed(n) && Placed(root);
      assert OnPath(words, "", n.path);
    }

    lemma LeafIsEnd(n: TrieNode)
      requires Valid() && n in repr && n.children == map[] && !n.isEnd
      ensures n == root && words == {}
    {
      assert Placed(n);
      forall w | w in words ensures !IsPrefix(n.path, w) {
        if IsPrefix(n.path, w) && w != n.path {
          LongerPath(words, n.path, w);
        }
      }
      PathOf(n);
      forall w ensures w !in words {
        assert IsPrefix("", w);
      }
    }

    // ----- scanning

    lemma EmptyTrie()
      requires Valid()
      ensures root.children == map[] <==> words == {}
    {
      assert Placed(root);
      if w :| w in words {
        var p := w[..1];
        assert p == Snoc("", w[0]) && IsPrefix(p, w);
        assert p in nodes;
      }
      forall c | c in root.children ensures words != {} {
        assert Snoc("", c) in nodes;
        assert OnPath(words, "", Snoc("", c));
      }
    }

    /** What one lookup tells, standing at the node for text[i..j] when no word of up to j - i letters starts at i. */
    lemma ScanStep(text: string, i: nat, j: nat, node: TrieNode)
      requires Valid() && words != {} && i <= j < |text|
      requires node in repr && node.path == text[i..j]
      requires forall m: nat | m <= j - i :: !Match(words, text, i, m)
      ensures j - i < Longest(words)
      ensures text[j] in node.children <==> OnPath(words, "", text[i..j + 1])
      ensures text[j] !in node.children ==> !Hit(words, text, i)
      ensures text[j] in node.children ==>
                var child := node.children[text[j]];
                child in repr && child.path == text[i..j + 1] && (child.isEnd <==> Match(words, text, i, j + 1 - i))
    {
      hide *;
      Links(node, text[j]);
      PathIsMember(words, nodes.Keys, text[i..j + 1]);
      LongerWord(words, nodes.Keys, text, i, j);
      NextLetter(text, i, j);
      if text[j] !in node.children {
        NoLongerWord(words, nodes.Keys, text, i, j);
      } else {
        MatchIsMember(words, text, i, j + 1);
      }
    }

    lemma Links(node: TrieNode, c: char)
      requires Valid() && node in repr
      ensures Spells(words, "", nodes.Keys) && node.path in nodes.Keys
      ensures c in node.children <==> Snoc(node.path, c) in nodes.Keys
      ensures c in node.children ==>
                var child := node.children[c];
                child in repr && child.path == Snoc(node.path, c) && (child.isEnd <==> child.path in words)
    {
      assert Placed(node);
      if c in node.children {
        assert Placed(node.children[c]);
      }
    }

    static lemma PathIsMember(words: set<string>, paths: set<string>, p: string)
      requires Spells(words, "", paths)
      ensures p in paths <==> OnPath(words, "", p)
    {
    }

    lemma StartScan(text: string, i: nat)
      requires Valid() && i <= |text|
      ensures root in repr && root.path == text[i..i]
      ensures forall m: nat | m <= 0 :: !Match(words, text, i, m)
    {
    }

    /**
     * The inner loop that both scanners share: follow the text from `i` down the trie until a word
     * ends at `j`, no child fits, or the text ends.  `steps` counts the child lookups, exactly.
     */
    method MatchFrom(text: string, i: nat) returns (found: bool, j: nat, ghost steps: nat)
      requires Valid() && words != {} && i < |text|
      ensures found ==> i <= j < |text| && IsShortest(words, text, i, j + 1 - i)
      ensures !found ==> !Hit(words, text, i)
      ensures steps == Steps(words, text, i) <= Longest(words)
    {
      hide *;
      var node := root;
      j, steps := i, 0;
      StartScan(text, i);
      StepsUnfold(words, text, i, i);
      while j < |text|
        invariant i <= j <= |text|
        invariant node in repr && node.path == text[i..j]
        invariant forall m: nat | m <= j - i :: !Match(words, text, i, m)
        invariant steps == j - i <= Longest(words)
        invariant steps + StepsFrom(words, text, i, j) == Steps(words, text, i)
      {
        var c := text[j];
        ScanStep(text, i, j, node);
        StepsUnfold(words, text, i, j);
        steps := steps + 1;
        if c !in node.children {
          return false, j, steps;
        }
        node := node.children[c];
        if node.isEnd {
          FirstMatch(words, text, i, j + 1 - i);
          return true, j, steps;
        }
        j := j + 1;
      }
      NoMatchPastEnd(words, text, i);
      return false, j, steps;
    }

    /** Is there a word in the text?  `lookups` counts the child lookups. */
    method HasSensitiveWord(text: string) returns (has: bool, ghost lookups: nat)
      requires Valid()
      ensures has <==> Contains(words, text)
      ensures lookups == (if words == {} then 0 else SearchCost(words, text, 0))
      ensures lookups <= Budget(|text|, Longest(words))
    {
      hide *;
      lookups := 0;
      EmptyTrie();
      ContainsHits(words, text);
      if text == "" || root.children == map[] {
        NothingToFind(words, text);
        EmptyCost(words, text);
        return false, 0;
      }
      for i := 0 to |text|
        invariant forall k: nat | k < i :: !Hit(words, text, k)
        invariant lookups <= Budget(i, Longest(words))
        invariant lookups + SearchCost(words, text, i) == SearchCost(words, text, 0)
      {
        var found, j, steps := MatchFrom(text, i);
        lookups := lookups + steps;
        Rows(i, i + 1, Longest(words));
        CostUnfold(words, text, i);
        if found {
          ShortestHits(words, text, i, j + 1 - i);
          Rows(i + 1, |text|, Longest(words));
          return true, lookups;
        }
      }
      EmptyCost(words, text);
      return false, lookups;
    }

    /**
     * The text with its words masked: in the copy `result` every match is overwritten with '*', and
     * the scan goes on after it.  `lookups` counts child lookups, `writes` the overwritten letters.
     */
    method Filter(text: string) returns (masked: string, ghost lookups: nat, ghost writes: nat)
      requires Valid()
      ensures masked == Mask(words, text)
      ensures lookups == (if words == {} then 0 else FilterCost(words, text, 0))
      ensures lookups <= Budget(|text|, Longest(words))
      ensures writes == (if words == {} then 0 else WriteCost(words, text, 0)) <= |text|
    {
      hide *;
      lookups, writes := 0, 0;
      EmptyTrie();
      if text == "" || root.children == map[] {
        NothingToFind(words, text);
        EmptyCost(words, text);
        return text, 0, 0;
      }
      var result := new char[|text|](k requires 0 <= k < |text| => text[k]);
      var i := 0;
      ScanStart(words, text);
      assert result[..] == text;
      while i < |text|
        invariant i <= |text| && Valid()
        invariant AtBoundary(words, text, i) && result[..] == Partly(words, text, i)
        invariant lookups <= Budget(i, Longest(words)) && writes <= i
        invariant writes + WriteCost(words, text, i) == WriteCost(words, text, 0)
        invariant lookups + FilterCost(words, text, i) == FilterCost(words, text, 0)
      {
        var found, j, steps := MatchFrom(text, i);
        lookups := lookups + steps;
        Rows(i, i + 1, Longest(words));
        CostUnfold(words, text, i);
        if found {
          ScanMatch(words, text, i, j + 1 - i);
          Rows(i + 1, j + 1, Longest(words));
          Overwrite(result, i, j + 1);
          writes := writes + (j + 1 - i);
          i := j;
        } else {
          ScanMiss(words, text, i);
        }
        i := i + 1;
      }
      ScanEnd(words, text);
      EmptyCost(words, text);
      masked := result[..];
    }
  }

  /** for (k = i; k <= j; ++k) result[k] = '*' */
  method Overwrite(result: array<char>, start: nat, end: nat)
    requires start <= end <= result.Length
    modifies result
    ensures result[..] == Starred(old(result[..]), start, end)
  {
    for k := start to end
      invariant forall m | 0 <= m < result.Length :: result[m] == if start <= m < k then STAR else old(result[m])
    {
      result[k] := STAR;
    }
  }

  /** The path `here` + `c` is new, is no word, nothing hangs below it, and no other path leads to it. */
  ghost predicate IsNewLeaf(words: set<string>, paths: set<string>, here: string, c: char) {
    var next := Snoc(here, c);
    && next !in words && next !in paths
    && (forall d :: Snoc(next, d) !in paths && Snoc(next, d) != next)
    && (forall p, d :: Snoc(p, d) == next ==> p == here && d == c)
  }

  lemma NewLeaf(words: set<string>, paths: set<string>, here: string, c: char)
    requires Spells(words, here, paths)
    ensures Snoc(here, c) !in paths ==> IsNewLeaf(words, paths, here, c)
  {
    var next := Snoc(here, c);
    forall d ensures next !in paths ==> Snoc(next, d) !in paths && next !in words {
      if next !in paths {
        OffPath(words, here, paths, next, d);
      }
    }
    forall p, d ensures Snoc(p, d) == next ==> p == here && d == c {
      SnocInjective(p, d, here, c);
    }
  }

  lemma SnocPrefix(word: string, i: nat)
    requires i < |word|
    ensures Snoc(word[..i], word[i]) == word[..i + 1]
  {
  }

  lemma SnocInjective(p: string, c: char, q: string, d: char)
    ensures Snoc(p, c) == Snoc(q, d) ==> p == q && c == d
  {
    assert Snoc(p, c)[..|p|] == p && Snoc(q, d)[..|q|] == q;
    assert Snoc(p, c)[|p|] == c && Snoc(q, d)[|q|] == d;
  }

  lemma LongerPath(words: set<string>, p: string, w: string)
    requires w in words && IsPrefix(p, w) && w != p
    ensures OnPath(words, "", Snoc(p, w[|p|]))
  {
    assert w[..|p| + 1] == Snoc(p, w[|p|]);
    assert IsPrefix(Snoc(p, w[|p|]), w);
  }

  lemma NextLetter(text: string, i: nat, j: nat)
    requires i <= j < |text|
    ensures Snoc(text[i..j], text[j]) == text[i..j + 1]
  {
  }

  lemma MatchIsMember(words: set<string>, text: string, i: nat, j: nat)
    requires i < j <= |text|
    ensures Match(words, text, i, j - i) <==> text[i..j] in words
  {
  }

  /** A path that no word has taken is the end of the search at `i`. */
  lemma NoLongerWord(words: set<string>, paths: set<string>, text: string, i: nat, j: nat)
    requires Spells(words, "", paths) && i <= j < |text| && text[i..j + 1] !in paths
    requires forall m: nat | m <= j - i :: !Match(words, text, i, m)
    ensures !Hit(words, text, i)
  {
    var next := text[i..j + 1];
    assert !OnPath(words, "", next);
    forall m: nat | j - i < m ensures !Match(words, text, i, m) {
      if i + m <= |text| {
        assert text[i..i + m][..|next|] == next;
        assert IsPrefix(next, text[i..i + m]);
      }
    }
  }

  /** A path that is not yet a word is shorter than some word. */
  lemma LongerWord(words: set<string>, paths: set<string>, text: string, i: nat, j: nat)
    requires Spells(words, "", paths) && words != {} && i <= j < |text| && text[i..j] in paths
    requires forall m: nat | m <= j - i :: !Match(words, text, i, m)
    ensures j - i < Longest(words)
  {
    var p := text[i..j];
    assert OnPath(words, "", p);
    if p == "" {
      var w :| w in words;
      assert |w| > 0;
    } else {
      assert p !in words by { assert !Match(words, text, i, j - i); }
      var w :| w in words && IsPrefix(p, w);
      assert |w| == |p| ==> w == p;
    }
  }

  /** The lookups allowed for `n` starting positions: the longest word once for each. */
  function Budget(n: nat, longest: nat): nat { n * longest }

  lemma {:induction false} Rows(i: nat, i': nat, longest: nat)
    requires i <= i'
    ensures Budget(i, longest) <= Budget(i', longest)
    ensures i' == i + 1 ==> Budget(i', longest) == Budget(i, longest) + longest
    decreases i' - i
  {
    if i < i' {
      Rows(i + 1, i', longest);
      assert (i + 1) * longest == i * longest + longest;
    }
  }
}
