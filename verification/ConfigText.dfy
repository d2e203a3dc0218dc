/**
 * The text helpers of the configuration loader and the class they give to one line of a file.
 * The functions say what the helpers compute; the methods are the loops that compute it.
 */
module ConfigText {
  import opened Decimal

  predicate AllSpace(s: string) { forall k | 0 <= k < |s| :: IsSpace(s[k]) }

  predicate IsTrimmed(s: string) { s != "" ==> !IsSpace(s[0]) && !IsSpace(s[|s| - 1]) }

  function DropTrailing(s: string): string {
    if s != "" && IsSpace(s[|s| - 1]) then DropTrailing(s[..|s| - 1]) else s
  }

  function Trimmed(s: string): string { DropTrailing(SkipSpaces(s)) }

  lemma {:induction false} SkipLeading(a: string, m: string)
    requires AllSpace(a)
    ensures SkipSpaces(a + m) == SkipSpaces(m)
  {
    if a == "" {
      assert a + m == m;
    } else {
      assert (a + m)[1..] == a[1..] + m;
      SkipLeading(a[1..], m);
    }
  }

  lemma {:induction false} DropSpaces(m: string, b: string)
    requires AllSpace(b)
    ensures DropTrailing(m + b) == DropTrailing(m)
  {
    if b == "" {
      assert m + b == m;
    } else {
      assert (m + b)[..|m + b| - 1] == m + b[..|b| - 1];
      DropSpaces(m, b[..|b| - 1]);
    }
  }

  /** Whatever white space surrounds a trimmed text, trimming returns that text. */
  lemma TrimmedUnique(a: string, m: string, b: string)
    requires AllSpace(a) && IsTrimmed(m) && AllSpace(b)
    ensures Trimmed(a + m + b) == m
  {
    assert a + m + b == a + (m + b);
    SkipLeading(a, m + b);
    if m == "" {
      assert m + b == b + "";
      SkipLeading(b, "");
    } else {
      assert (m + b)[0] == m[0];
      DropSpaces(m, b);
    }
  }

  lemma {:induction false} SkipSplits(s: string) returns (a: string)
    ensures AllSpace(a) && s == a + SkipSpaces(s)
    ensures SkipSpaces(s) != "" ==> !IsSpace(SkipSpaces(s)[0])
  {
    a := "";
    if s != "" && IsSpace(s[0]) {
      var rest := SkipSplits(s[1..]);
      a := [s[0]] + rest;
    }
  }

  lemma {:induction false} DropSplits(s: string) returns (b: string)
    ensures AllSpace(b) && s == DropTrailing(s) + b
    ensures DropTrailing(s) != "" ==> !IsSpace(DropTrailing(s)[|DropTrailing(s)| - 1])
  {
    b := "";
    if s != "" && IsSpace(s[|s| - 1]) {
      var rest := DropSplits(s[..|s| - 1]);
      b := rest + [s[|s| - 1]];
    }
  }

  /** Trimming removes white space from both ends and nothing else. */
  lemma TrimmedSplits(s: string) returns (a: string, b: string)
    ensures AllSpace(a) && AllSpace(b) && IsTrimmed(Trimmed(s))
    ensures s == a + Trimmed(s) + b
  {
    hide SkipSpaces, DropTrailing, IsSpace;
    a := SkipSplits(s);
    b := DropSplits(SkipSpaces(s));
    var t := Trimmed(s);
    assert t != "" ==> t[0] == (t + b)[0] == SkipSpaces(s)[0];
    assert s == a + (t + b) == a + t + b;
  }

  lemma TrimmedIsFixed(s: string)
    requires IsTrimmed(s)
    ensures Trimmed(s) == s
  {
    TrimmedUnique("", s, "");
    assert "" + s + "" == s;
  }

  method Trim(s: string) returns (r: string)
    ensures r == Trimmed(s)
  {
    var start := 0;
    while start < |s| && IsSpace(s[start])
      invariant start <= |s| && AllSpace(s[..start])
    {
      start := start + 1;
    }
    var end := |s|;
    while end > start && IsSpace(s[end - 1])
      invariant start <= end <= |s| && AllSpace(s[end..])
    {
      end := end - 1;
    }
    r := s[start..end];
    TrimmedUnique(s[..start], r, s[end..]);
    assert s == s[..start] + r + s[end..];
  }

  /** A '#' opens a comment at the start of the line or after white space. */
  predicate IsComment(s: string, i: nat)
    requires i < |s|
  {
    s[i] == '#' && (i == 0 || IsSpace(s[i - 1]))
  }

  function CommentFrom(s: string, i: nat): (p: nat)
    requires i <= |s|
    ensures i <= p <= |s|
    ensures forall j | i <= j < p :: !IsComment(s, j)
    ensures p < |s| ==> IsComment(s, p)
    decreases |s| - i
  {
    if i == |s| || IsComment(s, i) then i else CommentFrom(s, i + 1)
  }

  function Uncommented(s: string): string { s[..CommentFrom(s, 0)] }

  lemma UncommentedUnique(s: string, p: nat)
    requires p <= |s|
    requires forall j | 0 <= j < p :: !IsComment(s, j)
    requires p < |s| ==> IsComment(s, p)
    ensures Uncommented(s) == s[..p]
  {
    var q := CommentFrom(s, 0);
    assert !(q < p) && !(p < q);
  }

  method StripInlineComment(s: string) returns (r: string)
    ensures r == Uncommented(s)
  {
    var i := 0;
    while i < |s|
      invariant i <= |s|
      invariant forall j | 0 <= j < i :: !IsComment(s, j)
    {
      if s[i] == '#' {
        if i == 0 {
          UncommentedUnique(s, 0);
          return "";
        }
        if IsSpace(s[i - 1]) {
          UncommentedUnique(s, i);
          return s[..i];
        }
      }
      i := i + 1;
    }
    UncommentedUnique(s, |s|);
    return s;
  }

  /** A pair of equal quotes around the text is removed once. */
  function Unquoted(v: string): (r: string)
    ensures |r| <= |v|
  {
    if |v| >= 2 && v[0] == v[|v| - 1] && (v[0] == '"' || v[0] == '\'') then v[1..|v| - 1] else v
  }

  function LeadingSpaces(s: string): (n: nat)
    ensures n <= |s|
  {
    if s != "" && s[0] == ' ' then 1 + LeadingSpaces(s[1..]) else 0
  }

  function Spaces(n: nat): (s: string)
    ensures |s| == n && forall k | 0 <= k < n :: s[k] == ' '
  {
    if n == 0 then "" else " " + Spaces(n - 1)
  }

  lemma {:induction false} LeadingUnique(n: nat, m: string)
    requires m == "" || m[0] != ' '
    ensures LeadingSpaces(Spaces(n) + m) == n
  {
    if n == 0 {
      assert Spaces(n) + m == m;
    } else {
      assert (Spaces(n) + m)[1..] == Spaces(n - 1) + m;
      LeadingUnique(n - 1, m);
    }
  }

  lemma {:induction false} LeadingSplit(s: string, n: nat)
    requires n <= |s| && forall k | 0 <= k < n :: s[k] == ' '
    requires n < |s| ==> s[n] != ' '
    ensures LeadingSpaces(s) == n
  {
    LeadingUnique(n, s[n..]);
    assert s == Spaces(n) + s[n..];
  }

  method CountLeadingSpaces(s: string) returns (n: nat)
    ensures n == LeadingSpaces(s)
  {
    n := 0;
    while n < |s|
      invariant n <= |s| && forall k | 0 <= k < n :: s[k] == ' '
    {
      if s[n] != ' ' { break; }
      n := n + 1;
    }
    LeadingSplit(s, n);
  }

  function IndexOf(s: string, c: char, i: nat): (p: nat)
    requires i <= |s|
    ensures i <= p <= |s|
    ensures forall j | i <= j < p :: s[j] != c
    ensures p < |s| ==> s[p] == c
    decreases |s| - i
  {
    if i == |s| || s[i] == c then i else IndexOf(s, c, i + 1)
  }

  /** One more key under a prefix; an empty key adds nothing. */
  function Glue(prefix: string, key: string): string {
    if key == "" then prefix else if prefix == "" then key else prefix + "." + key
  }

  function Joined(keys: seq<string>): string {
    if keys == [] then "" else Glue(Joined(keys[..|keys| - 1]), keys[|keys| - 1])
  }

  lemma JoinedMore(keys: seq<string>, key: string)
    ensures Joined(keys + [key]) == Glue(Joined(keys), key)
  {
    assert (keys + [key])[..|keys|] == keys;
  }

  method JoinKeys(stack: seq<string>) returns (out: string)
    ensures out == Joined(stack)
  {
    out := "";
    for i := 0 to |stack|
      invariant out == Joined(stack[..i])
    {
      JoinedMore(stack[..i], stack[i]);
      assert stack[..i + 1] == stack[..i] + [stack[i]];
      var k := stack[i];
      if k == "" { continue; }
      if out != "" { out := out + "."; }
      out := out + k;
    }
    assert stack[..|stack|] == stack;
  }

  /** What a line is to the loader.  The indent of every line that is not blank closes headers. */
  datatype Line =
    | Blank
    | Bad(indent: nat)
    | Item(indent: nat, value: string)
    | Header(indent: nat, key: string)
    | Scalar(indent: nat, key: string, value: string)

  function ClassifyContent(indent: nat, content: string): Line {
    if content == "" then Blank
    else if "- " <= content then Item(indent, Unquoted(Trimmed(Trimmed(content[2..]))))
    else
      var colon := IndexOf(content, ':', 0);
      if colon == |content| then Bad(indent)
      else
        var key := Trimmed(content[..colon]);
        var rest := Trimmed(content[colon + 1..]);
        if key == "" then Bad(indent)
        else if rest == "" then Header(indent, key)
        else Scalar(indent, key, Unquoted(rest))
  }

  function Classify(line: string): Line {
    var raw := Uncommented(line);
    ClassifyContent(LeadingSpaces(raw), Trimmed(raw))
  }

  function Classified(lines: seq<string>): (r: seq<Line>)
    ensures |r| == |lines|
  {
    seq(|lines|, k requires 0 <= k < |lines| => Classify(lines[k]))
  }

  /** The lines getline delivers: the last one needs no newline. */
  function SplitLines(text: string): (lines: seq<string>)
    ensures |lines| <= |text|
  {
    if text == "" then []
    else
      var n := IndexOf(text, '\n', 0);
      [text[..n]] + if n < |text| then SplitLines(text[n + 1..]) else []
  }

  function Unlines(lines: seq<string>): string {
    if lines == [] then "" else lines[0] + "\n" + Unlines(lines[1..])
  }

  lemma FirstLine(first: string, rest: string)
    requires '\n' !in first
    ensures SplitLines(first + "\n" + rest) == [first] + SplitLines(rest)
  {
    var text := first + "\n" + rest;
    forall j | 0 <= j < |first| ensures text[j] != '\n' {
      assert text[j] == first[j] && first[j] in first;
    }
    assert text[|first|] == '\n';
    assert IndexOf(text, '\n', 0) == |first|;
    assert text[..|first|] == first && text[|first| + 1..] == rest;
  }

  /** Splitting undoes joining whenever no line holds a newline. */
  lemma {:induction false} SplitOfUnlines(lines: seq<string>)
    requires forall k | 0 <= k < |lines| :: '\n' !in lines[k]
    ensures SplitLines(Unlines(lines)) == lines
  {
    if lines != [] {
      FirstLine(lines[0], Unlines(lines[1..]));
      SplitOfUnlines(lines[1..]);
    }
  }

  lemma OneLineOnly(last: string)
    requires last != "" && '\n' !in last
    ensures SplitLines(last) == [last]
  {
    assert IndexOf(last, '\n', 0) == |last|;
    assert last[..|last|] == last;
  }

  /** The last line counts as a line without a newline behind it. */
  lemma {:induction false} LastLineNeedsNoNewline(lines: seq<string>, last: string)
    requires last != "" && '\n' !in last && forall k | 0 <= k < |lines| :: '\n' !in lines[k]
    ensures SplitLines(Unlines(lines) + last) == lines + [last]
  {
    hide SplitLines;
    if lines == [] {
      assert Unlines(lines) + last == last;
      OneLineOnly(last);
    } else {
      var rest := Unlines(lines[1..]);
      assert Unlines(lines) + last == lines[0] + "\n" + (rest + last);
      FirstLine(lines[0], rest + last);
      LastLineNeedsNoNewline(lines[1..], last);
      assert lines + [last] == [lines[0]] + (lines[1..] + [last]);
    }
  }
}
