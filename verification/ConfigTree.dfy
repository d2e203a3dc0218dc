/**
 * Whole documents: what loading a printed tree really gives, and exactly which trees load to their
 * flattening.
 */
module ConfigTree {
  import opened ConfigText
  import opened ConfigEvents
  import opened ConfigScope
  import opened ConfigManager
  import opened ConfigPrint

  /** A block mapping in file order. */
  datatype Entries = Nil | Entry(key: string, node: Node, rest: Entries)

  datatype Node =
    | Leaf(text: Text)
    | Items(values: seq<Text>)
    | Submap(entries: Entries)

  function PrintItems(values: seq<Text>, indent: nat): seq<string> {
    if values == [] then [] else [PrintItem(indent, values[0])] + PrintItems(values[1..], indent)
  }

  /** The document of a tree, two spaces to a level, every value in the style it comes with. */
  function Print(es: Entries, indent: nat): seq<string> {
    match es
    case Nil => []
    case Entry(k, node, rest) =>
      (match node
       case Leaf(v) => [PrintScalar(indent, k, v)]
       case Items(vs) => [PrintHeader(indent, k)] + PrintItems(vs, indent + 2)
       case Submap(sub) => [PrintHeader(indent, k)] + Print(sub, indent + 2))
      + Print(rest, indent)
  }

  function ItemLines(values: seq<Text>, indent: nat): seq<Line> {
    if values == [] then [] else [Item(indent, values[0].value)] + ItemLines(values[1..], indent)
  }

  function TreeLines(es: Entries, indent: nat): seq<Line> {
    match es
    case Nil => []
    case Entry(k, node, rest) =>
      (match node
       case Leaf(v) => [Scalar(indent, k, v.value)]
       case Items(vs) => [Header(indent, k)] + ItemLines(vs, indent + 2)
       case Submap(sub) => [Header(indent, k)] + TreeLines(sub, indent + 2))
      + TreeLines(rest, indent)
  }

  /** Keys and values survive printing, and none holds a newline. */
  predicate Printable(es: Entries) {
    match es
    case Nil => true
    case Entry(k, node, rest) =>
      && IsKey(k) && '\n' !in k
      && (match node
          case Leaf(v) => Survives(v) && '\n' !in v.value
          case Items(vs) => forall v <- vs :: Survives(v) && '\n' !in v.value
          case Submap(sub) => Printable(sub))
      && Printable(rest)
  }

  /** What the loader writes for a tree under a path: a header stays in the path of what follows it. */
  function TreeEvents(es: Entries, path: seq<string>): seq<Event> {
    match es
    case Nil => []
    case Entry(k, node, rest) =>
      match node
      case Leaf(v) => [Put(path, k, v.value)] + TreeEvents(rest, path)
      case Items(vs) => ItemEvents(vs, path + [k]) + TreeEvents(rest, path + [k])
      case Submap(sub) => TreeEvents(sub, path + [k]) + TreeEvents(rest, path + [k])
  }

  function ItemEvents(values: seq<Text>, path: seq<string>): seq<Event> {
    if values == [] then [] else [Append(path, values[0].value)] + ItemEvents(values[1..], path)
  }

  // ----- printed lines are read back one by one -----

  lemma ClassifiedJoin(a: seq<string>, b: seq<string>)
    ensures Classified(a + b) == Classified(a) + Classified(b)
  {
  }

  lemma {:induction false} ItemsReadBack(values: seq<Text>, indent: nat)
    requires forall v <- values :: Survives(v)
    ensures Classified(PrintItems(values, indent)) == ItemLines(values, indent)
  {
    hide Classify, PrintItem, Survives;
    if values != [] {
      ItemRoundTrip(indent, values[0]);
      ItemsReadBack(values[1..], indent);
      ClassifiedJoin([PrintItem(indent, values[0])], PrintItems(values[1..], indent));
    }
  }

  lemma OneLine(text: string, line: Line, more: seq<string>)
    requires Classify(text) == line
    ensures Classified([text] + more) == [line] + Classified(more)
  {
    hide Classify;
  }

  lemma {:induction false} TreeReadsBack(es: Entries, indent: nat)
    requires Printable(es)
    ensures Classified(Print(es, indent)) == TreeLines(es, indent)
  {
    hide Classify, Classified, PrintItem, PrintHeader, PrintScalar, PrintItems, ItemLines, Survives, IsKey;
    match es
    case Nil => NoLine();
    case Entry(k, node, rest) =>
      TreeReadsBack(rest, indent);
      match node {
        case Leaf(v) =>
          ScalarRoundTrip(indent, k, v);
          OneLine(PrintScalar(indent, k, v), Scalar(indent, k, v.value), Print(rest, indent));
        case Items(vs) =>
          HeaderRoundTrip(indent, k);
          ItemsReadBack(vs, indent + 2);
          OneLine(PrintHeader(indent, k), Header(indent, k), PrintItems(vs, indent + 2));
          ClassifiedJoin([PrintHeader(indent, k)] + PrintItems(vs, indent + 2), Print(rest, indent));
        case Submap(sub) =>
          HeaderRoundTrip(indent, k);
          TreeReadsBack(sub, indent + 2);
          OneLine(PrintHeader(indent, k), Header(indent, k), Print(sub, indent + 2));
          ClassifiedJoin([PrintHeader(indent, k)] + Print(sub, indent + 2), Print(rest, indent));
      }
  }

  lemma NoLine()
    ensures Classified([]) == []
  {
  }

  lemma LinesHaveNoNewline(indent: nat, k: string, t: Text)
    ensures '\n' !in k ==> '\n' !in PrintHeader(indent, k)
    ensures '\n' !in t.value ==> '\n' !in PrintItem(indent, t)
    ensures '\n' !in k && '\n' !in t.value ==> '\n' !in PrintScalar(indent, k, t)
  {
    assert '\n' !in Spaces(indent);
  }

  lemma {:induction false} ItemsHaveNoNewline(values: seq<Text>, indent: nat)
    requires forall v <- values :: '\n' !in v.value
    ensures forall line <- PrintItems(values, indent) :: '\n' !in line
  {
    hide PrintItem;
    if values != [] {
      LinesHaveNoNewline(indent, "", values[0]);
      ItemsHaveNoNewline(values[1..], indent);
    }
  }

  lemma {:induction false} TreeHasNoNewline(es: Entries, indent: nat)
    requires Printable(es)
    ensures forall line <- Print(es, indent) :: '\n' !in line
  {
    hide PrintItem, PrintHeader, PrintScalar, PrintItems, IsKey, Survives;
    match es
    case Nil =>
    case Entry(k, node, rest) =>
      TreeHasNoNewline(rest, indent);
      LinesHaveNoNewline(indent, k, if node.Leaf? then node.text else Text(Bare, ""));
      match node {
        case Leaf(v) =>
        case Items(vs) => ItemsHaveNoNewline(vs, indent + 2);
        case Submap(sub) => TreeHasNoNewline(sub, indent + 2);
      }
  }

  // ----- the stacks as a machine, to follow a tree from the middle of a document -----

  datatype Frame = Frame(indent: nat, key: string)

  function Pop(stack: seq<Frame>, indent: nat): seq<Frame> {
    if stack != [] && indent < stack[|stack| - 1].indent then Pop(stack[..|stack| - 1], indent) else stack
  }

  function Path(stack: seq<Frame>): (p: seq<string>)
    ensures |p| == |stack|
  {
    seq(|stack|, i requires 0 <= i < |stack| => stack[i].key)
  }

  function StackAfter(stack: seq<Frame>, line: Line): seq<Frame> {
    if line.Blank? then stack
    else if line.Header? then Pop(stack, line.indent) + [Frame(line.indent, line.key)]
    else Pop(stack, line.indent)
  }

  function Emitted(stack: seq<Frame>, line: Line): seq<Event> {
    match line
    case Item(indent, v) => [Append(Path(Pop(stack, indent)), v)]
    case Scalar(indent, k, v) => [Put(Path(Pop(stack, indent)), k, v)]
    case _ => []
  }

  function FinalStack(stack: seq<Frame>, lines: seq<Line>): seq<Frame>
    decreases |lines|
  {
    if lines == [] then stack else FinalStack(StackAfter(stack, lines[0]), lines[1..])
  }

  function Emissions(stack: seq<Frame>, lines: seq<Line>): seq<Event>
    decreases |lines|
  {
    if lines == [] then [] else Emitted(stack, lines[0]) + Emissions(StackAfter(stack, lines[0]), lines[1..])
  }

  lemma {:induction false} RunJoin(stack: seq<Frame>, a: seq<Line>, b: seq<Line>)
    ensures FinalStack(stack, a + b) == FinalStack(FinalStack(stack, a), b)
    ensures Emissions(stack, a + b) == Emissions(stack, a) + Emissions(FinalStack(stack, a), b)
    decreases |a|
  {
    hide StackAfter, Emitted;
    if a == [] {
      assert a + b == b;
    } else {
      assert (a + b)[0] == a[0] && (a + b)[1..] == a[1..] + b;
      RunJoin(StackAfter(stack, a[0]), a[1..], b);
    }
  }

  /** The lines take the stack `s0` to `s1` and write `events`. */
  predicate Runs(s0: seq<Frame>, lines: seq<Line>, s1: seq<Frame>, events: seq<Event>) {
    FinalStack(s0, lines) == s1 && Emissions(s0, lines) == events
  }

  lemma Chain(s0: seq<Frame>, a: seq<Line>, s1: seq<Frame>, x: seq<Event>, b: seq<Line>, s2: seq<Frame>, y: seq<Event>)
    requires Runs(s0, a, s1, x) && Runs(s1, b, s2, y)
    ensures Runs(s0, a + b, s2, x + y)
  {
    RunJoin(s0, a, b);
  }

  function FramesOf(lines: seq<Line>, hs: seq<nat>): (frames: seq<Frame>)
    requires AreHeaders(lines, hs)
    ensures |frames| == |hs|
  {
    seq(|hs|, i requires 0 <= i < |hs| => Frame(lines[hs[i]].indent, lines[hs[i]].key))
  }

  lemma {:induction false} PopOfFrames(lines: seq<Line>, hs: seq<nat>, indent: nat)
    requires AreHeaders(lines, hs)
    ensures Pop(FramesOf(lines, hs), indent) == FramesOf(lines, Popped(lines, hs, indent))
  {
    if hs != [] && indent < lines[hs[|hs| - 1]].indent {
      assert FramesOf(lines, hs)[..|hs| - 1] == FramesOf(lines, hs[..|hs| - 1]);
      PopOfFrames(lines, hs[..|hs| - 1], indent);
    }
  }

  /** One line of the machine is one line of the document. */
  lemma MachineStep(lines: seq<Line>, n: nat)
    requires n < |lines|
    ensures var stack := FramesOf(lines, Opens(lines, false, n, n));
            && StackAfter(stack, lines[n]) == FramesOf(lines, Opens(lines, false, n + 1, n + 1))
            && EventsOf(lines, false, n + 1) == EventsOf(lines, false, n) + Emitted(stack, lines[n])
  {
    hide Opens, Pop, Popped, Enclosing;
    var hs := Opens(lines, false, n, n);
    var stack := FramesOf(lines, hs);
    NextScope(lines, false, n);
    NextEvents(lines, false, n);
    if lines[n].Blank? {
      BlankEncloses(lines, n);
    } else {
      PopEncloses(lines, n);
      PopOfFrames(lines, hs, lines[n].indent);
      var inner := Enclosing(lines, false, n);
      assert Path(FramesOf(lines, inner)) == KeysOf(lines, inner);
      if lines[n].Header? {
        assert FramesOf(lines, inner + [n]) == FramesOf(lines, inner) + [Frame(lines[n].indent, lines[n].key)];
      }
    }
  }

  lemma BlankEncloses(lines: seq<Line>, n: nat)
    requires n < |lines| && lines[n].Blank?
    ensures Enclosing(lines, false, n) == Opens(lines, false, n, n)
  {
    BlankKeepsScope(lines, n, n);
  }

  lemma PopEncloses(lines: seq<Line>, n: nat)
    requires n < |lines| && !lines[n].Blank?
    ensures Enclosing(lines, false, n) == Popped(lines, Opens(lines, false, n, n), lines[n].indent)
  {
    PopIsScope(lines, n, n);
  }

  lemma {:induction false} MachineIsScope(lines: seq<Line>, n: nat)
    requires n <= |lines|
    ensures EventsOf(lines, false, |lines|)
            == EventsOf(lines, false, n) + Emissions(FramesOf(lines, Opens(lines, false, n, n)), lines[n..])
    decreases |lines| - n
  {
    hide Opens, EventsOf, StackAfter, Emitted;
    if n < |lines| {
      MachineStep(lines, n);
      MachineIsScope(lines, n + 1);
      assert lines[n..][0] == lines[n] && lines[n..][1..] == lines[n + 1..];
    }
  }

  // ----- a tree in the machine -----

  predicate Within(stack: seq<Frame>, indent: nat) { forall i | 0 <= i < |stack| :: stack[i].indent <= indent }

  predicate Beyond(junk: seq<Frame>, indent: nat) { forall i | 0 <= i < |junk| :: junk[i].indent >= indent }

  lemma {:induction false} PopJunk(stack: seq<Frame>, junk: seq<Frame>, indent: nat)
    requires Within(stack, indent) && Beyond(junk, indent + 1)
    ensures Pop(stack + junk, indent) == stack
  {
    if junk == [] {
      assert stack + junk == stack;
    } else {
      assert (stack + junk)[..|stack + junk| - 1] == stack + junk[..|junk| - 1];
      PopJunk(stack, junk[..|junk| - 1], indent);
    }
  }

  lemma {:induction false} ItemsRun(values: seq<Text>, indent: nat, stack: seq<Frame>)
    requires Within(stack, indent)
    ensures Runs(stack, ItemLines(values, indent), stack, ItemEvents(values, Path(stack)))
  {
    if values != [] {
      PopJunk(stack, [], indent);
      assert stack + [] == stack;
      ItemsRun(values[1..], indent, stack);
      assert ItemLines(values, indent)[1..] == ItemLines(values[1..], indent);
    }
  }

  /** A header closes the deeper ones left over and opens its own level. */
  lemma PushHeader(stack: seq<Frame>, junk: seq<Frame>, indent: nat, k: string) returns (inner: seq<Frame>)
    requires Within(stack, indent) && Beyond(junk, indent + 1)
    ensures inner == stack + [Frame(indent, k)]
    ensures Runs(stack + junk, [Header(indent, k)], inner, [])
    ensures Within(inner, indent) && Within(inner, indent + 2) && Path(inner) == Path(stack) + [k]
  {
    inner := stack + [Frame(indent, k)];
    PopJunk(stack, junk, indent);
    assert [Header(indent, k)][1..] == [];
  }

  lemma PutScalar(stack: seq<Frame>, junk: seq<Frame>, indent: nat, k: string, v: string)
    requires Within(stack, indent) && Beyond(junk, indent + 1)
    ensures Runs(stack + junk, [Scalar(indent, k, v)], stack, [Put(Path(stack), k, v)])
  {
    PopJunk(stack, junk, indent);
    assert [Scalar(indent, k, v)][1..] == [];
  }

  /** Whatever deeper headers are left over from before, a tree's lines write the tree's sticky events. */
  lemma {:induction false} TreeRuns(es: Entries, indent: nat, stack: seq<Frame>, junk: seq<Frame>)
    returns (left: seq<Frame>)
    requires Within(stack, indent) && Beyond(junk, indent + 1)
    ensures Runs(stack + junk, TreeLines(es, indent), stack + left, TreeEvents(es, Path(stack)))
    ensures Beyond(left, indent)
    decreases es, 0
  {
    hide Path, Runs, Within, ItemLines, ItemEvents;
    match es
    case Nil =>
      left := junk;
      NoLines(stack + junk);
    case Entry(k, node, rest) =>
      match node {
        case Leaf(v) =>
          PutScalar(stack, junk, indent, k, v.value);
          left := TreeRuns(rest, indent, stack, []);
          assert stack + [] == stack;
          Chain(stack + junk, [Scalar(indent, k, v.value)], stack, [Put(Path(stack), k, v.value)],
                TreeLines(rest, indent), stack + left, TreeEvents(rest, Path(stack)));
        case Items(vs) =>
          var inner := PushHeader(stack, junk, indent, k);
          ItemsRun(vs, indent + 2, inner);
          assert inner + [] == inner;
          var x := ItemEvents(vs, Path(inner));
          Chain(stack + junk, [Header(indent, k)], inner, [], ItemLines(vs, indent + 2), inner, x);
          left := Rest(rest, indent, stack + junk, [Header(indent, k)] + ItemLines(vs, indent + 2),
                       stack, Frame(indent, k), [], [] + x);
          assert [] + x == x;
        case Submap(sub) =>
          var inner := PushHeader(stack, junk, indent, k);
          var deep := TreeRuns(sub, indent + 2, inner, []);
          assert inner + [] == inner;
          var x := TreeEvents(sub, Path(inner));
          Chain(stack + junk, [Header(indent, k)], inner, [], TreeLines(sub, indent + 2), inner + deep, x);
          left := Rest(rest, indent, stack + junk, [Header(indent, k)] + TreeLines(sub, indent + 2),
                       stack, Frame(indent, k), deep, [] + x);
          assert [] + x == x;
      }
  }

  /** After an entry with its own level, the rest of the map runs with that entry's header still open. */
  lemma {:induction false} Rest(rest: Entries, indent: nat, start: seq<Frame>, before: seq<Line>, stack: seq<Frame>,
                                header: Frame, deep: seq<Frame>, x: seq<Event>) returns (left: seq<Frame>)
    requires header.indent == indent && Within(stack + [header], indent) && Beyond(deep, indent + 1)
    requires Runs(start, before, stack + [header] + deep, x)
    ensures Runs(start, before + TreeLines(rest, indent), stack + left,
                 x + TreeEvents(rest, Path(stack + [header])))
    ensures Beyond(left, indent)
    decreases rest, 1
  {
    hide Path, Runs, Within;
    var more := TreeRuns(rest, indent, stack + [header], deep);
    Chain(start, before, stack + [header] + deep, x,
          TreeLines(rest, indent), stack + [header] + more, TreeEvents(rest, Path(stack + [header])));
    left := [header] + more;
    assert stack + [header] + more == stack + left;
  }

  lemma NoLines(stack: seq<Frame>)
    ensures Runs(stack, [], stack, [])
  {
  }

  /** Loading a printed tree: for every tree, the map of its sticky events. */
  lemma LoadOfPrint(es: Entries)
    requires Printable(es)
    ensures Loaded(Unlines(Print(es, 0))) == Store(TreeEvents(es, []))
  {
    hide Opens, Store, TreeEvents, Print, EventsOf, TreeLines;
    var lines := TreeLines(es, 0);
    TreeHasNoNewline(es, 0);
    SplitOfUnlines(Print(es, 0));
    TreeReadsBack(es, 0);
    assert LinesOf(Unlines(Print(es, 0))) == lines;
    StartOfDocument(lines);
    var empty: seq<Frame> := [];
    var left := TreeRuns(es, 0, empty, empty);
    assert empty + empty == empty && Path(empty) == [];
  }

  lemma StartOfDocument(lines: seq<Line>)
    ensures EventsOf(lines, false, |lines|) == Emissions([], lines)
  {
    hide Opens, EventsOf, Emissions;
    NothingOpen(lines);
    MachineIsScope(lines, 0);
    assert lines[0..] == lines;
  }

  lemma NothingOpen(lines: seq<Line>)
    ensures EventsOf(lines, false, 0) == [] && FramesOf(lines, Opens(lines, false, 0, 0)) == []
  {
  }
}
