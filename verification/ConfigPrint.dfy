/**
 * Printing single lines the loader can read back.  For each of the three kinds of line, and for bare,
 * single-quoted and double-quoted values, exactly which keys and values survive.
 */
module ConfigPrint {
  import opened Decimal
  import opened ConfigText

  /** Nothing in the text opens a comment. */
  predicate CommentFree(s: string) { forall j | 0 <= j < |s| :: !IsComment(s, j) }

  /** Keys that survive being printed. */
  predicate IsKey(k: string) {
    k != "" && IsTrimmed(k) && ':' !in k && !("- " <= k) && CommentFree(k)
  }

  /** How a value is written: as it is, or between quotes of one kind. */
  datatype Style = Bare | Single | Double

  datatype Text = Text(style: Style, value: string)

  function Quoted(t: Text): string {
    match t.style
    case Bare => t.value
    case Single => "'" + t.value + "'"
    case Double => "\"" + t.value + "\""
  }

  /** Two or more letters between equal quotes. */
  predicate IsQuoted(v: string) {
    |v| >= 2 && (v[0] == v[|v| - 1] == '"' || v[0] == v[|v| - 1] == '\'')
  }

  /** No white space before a '#'. */
  predicate IsPlain(v: string) { forall j | 0 < j < |v| :: !(v[j] == '#' && IsSpace(v[j - 1])) }

  /**
   * Values that survive being printed: between quotes, all plain ones; bare, those that are trimmed and
   * not empty, do not open a comment anywhere, and do not look quoted.
   */
  predicate Survives(t: Text) {
    if t.style.Bare? then t.value != "" && IsTrimmed(t.value) && CommentFree(t.value) && !IsQuoted(t.value)
    else IsPlain(t.value)
  }

  function PrintScalar(indent: nat, key: string, t: Text): string {
    Spaces(indent) + (key + ": " + Quoted(t))
  }

  function PrintHeader(indent: nat, key: string): string { Spaces(indent) + (key + ":") }

  function PrintItem(indent: nat, t: Text): string { Spaces(indent) + ("- " + Quoted(t)) }

  // ----- the indentation in front -----

  lemma SpacesAreSpace(n: nat)
    ensures AllSpace(Spaces(n))
  {
  }

  lemma {:induction false} LeadingMore(n: nat, m: string)
    ensures LeadingSpaces(Spaces(n) + m) == n + LeadingSpaces(m)
  {
    if n == 0 {
      assert Spaces(n) + m == m;
    } else {
      assert (Spaces(n) + m)[1..] == Spaces(n - 1) + m;
      LeadingMore(n - 1, m);
    }
  }

  lemma CommentBehindSpaces(n: nat, body: string, j: nat)
    requires j < n + |body|
    ensures IsComment(Spaces(n) + body, j) <==> j >= n && IsComment(body, j - n)
  {
    var line := Spaces(n) + body;
    assert line[j] == if j < n then Spaces(n)[j] else body[j - n];
    if j > 0 {
      assert line[j - 1] == if j - 1 < n then Spaces(n)[j - 1] else body[j - 1 - n];
    }
  }

  lemma UncommentedBehindSpaces(n: nat, body: string)
    ensures Uncommented(Spaces(n) + body) == Spaces(n) + Uncommented(body)
  {
    hide IsComment;
    var line, p := Spaces(n) + body, CommentFrom(body, 0);
    forall j | 0 <= j < n + p ensures !IsComment(line, j) {
      CommentBehindSpaces(n, body, j);
    }
    if p < |body| { CommentBehindSpaces(n, body, n + p); }
    UncommentedUnique(line, n + p);
    assert line[..n + p] == Spaces(n) + body[..p];
  }

  lemma ClassifyIndented(indent: nat, body: string)
    ensures var u := Uncommented(body);
            Classify(Spaces(indent) + body) == ClassifyContent(indent + LeadingSpaces(u), Trimmed(u))
  {
    hide Uncommented, ClassifyContent, LeadingSpaces, DropTrailing, SkipSpaces;
    var u := Uncommented(body);
    UncommentedBehindSpaces(indent, body);
    LeadingMore(indent, u);
    SpacesAreSpace(indent);
    SkipLeading(Spaces(indent), u);
  }

  // ----- lengths -----

  lemma TrimmedLength(s: string)
    ensures |Trimmed(s)| <= |s|
    ensures s != "" && (IsSpace(s[0]) || IsSpace(s[|s| - 1])) ==> |Trimmed(s)| < |s|
    ensures IsTrimmed(Trimmed(s))
    ensures forall c <- Trimmed(s) :: c in s
  {
    var a, b := TrimmedSplits(s);
  }

  lemma NoComment(body: string)
    ensures CommentFree(body) ==> Uncommented(body) == body
    ensures !CommentFree(body) ==>
              var p := CommentFrom(body, 0);
              p < |body| && IsComment(body, p) && Uncommented(body) == body[..p]
  {
    if CommentFree(body) {
      UncommentedUnique(body, |body|);
    }
  }

  /** What the loader takes for a key holds no colon and is trimmed, and is no longer than the content. */
  lemma FoundKey(indent: nat, content: string)
    ensures var line := ClassifyContent(indent, content);
            line.Header? || line.Scalar? ==>
              && line.key != "" && IsTrimmed(line.key) && ':' !in line.key
              && |line.key| < |content| && !("- " <= content)
  {
    var colon := IndexOf(content, ':', 0);
    TrimmedLength(content[..colon]);
  }

  lemma TrimmedFront(s: string)
    requires s != "" && !IsSpace(s[0])
    ensures Trimmed(s) <= s
  {
    var b := DropSplits(s);
  }

  /** A key the loader found in front of the colon meets every condition, whatever follows the colon. */
  lemma FoundKeyIsKey(indent: nat, k: string, tail: string)
    requires tail != "" && tail[0] == ':'
    requires var line := ClassifyContent(indent, Trimmed(Uncommented(k + tail)));
             (line.Header? || line.Scalar?) && line.key == k
    ensures IsKey(k) && |k| + 1 < |Uncommented(k + tail)| + 1
  {
    var body := k + tail;
    var u := Uncommented(body);
    FoundKey(indent, Trimmed(u));
    TrimmedLength(u);
    assert u == body[..|u|] && |k| < |u|;
    assert u[0] == k[0];
    TrimmedFront(u);
    assert k == u[..|k|] == Trimmed(u)[..|k|];
    forall j | 0 <= j < |k| ensures !IsComment(k, j) {
      assert !IsComment(body, j);
      assert body[j] == k[j] && (j > 0 ==> body[j - 1] == k[j - 1]);
    }
  }

  /** A good key in front of the colon is found again. */
  lemma KeyIsFound(indent: nat, k: string, tail: string)
    requires IsKey(k) && tail != "" && tail[0] == ':'
    ensures ClassifyContent(indent, k + tail) ==
            var rest := Trimmed(tail[1..]);
            if rest == "" then Header(indent, k) else Scalar(indent, k, Unquoted(rest))
  {
    var content := k + tail;
    assert content[0] == k[0] && content[1] == if |k| > 1 then k[1] else ':';
    var colon := IndexOf(content, ':', 0);
    assert forall j | 0 <= j < |k| :: content[j] == k[j] && k[j] in k;
    assert content[|k|] == ':';
    assert colon == |k|;
    assert content[..colon] == k && content[colon + 1..] == tail[1..];
    TrimmedIsFixed(k);
  }

  // ----- what is left of a value -----

  /** What the loader keeps of the text behind "key:" or "-". */
  function Kept(q: string): string { Trimmed(Uncommented(" " + q)) }

  /** A comment behind a prefix that opens none is the comment of the rest. */
  lemma UncommentedBehind(front: string, rest: string)
    requires CommentFree(front) && front != "" && rest != "" && rest[0] == ' '
    ensures Uncommented(front + rest) == front + Uncommented(rest)
  {
    var body, p, n := front + rest, CommentFrom(rest, 0), |front|;
    forall j | 0 <= j < |rest| ensures IsComment(body, n + j) <==> IsComment(rest, j) {
      assert body[n + j] == rest[j];
      if j > 0 { assert body[n + j - 1] == rest[j - 1]; }
    }
    forall j | 0 <= j < n + p ensures !IsComment(body, j) {
      if j < n {
        assert !IsComment(front, j);
        assert body[j] == front[j] && (j > 0 ==> body[j - 1] == front[j - 1]);
      } else {
        assert !IsComment(rest, j - n);
        assert IsComment(body, n + (j - n)) <==> IsComment(rest, j - n);
      }
    }
    UncommentedUnique(body, n + p);
    assert body[..n + p] == front + rest[..p];
  }

  /** White space behind a text does not change what trimming leaves. */
  lemma TrimmedIgnoresBack(s: string, b: string)
    requires AllSpace(b)
    ensures Trimmed(s + b) == Trimmed(s)
  {
    var x, y := TrimmedSplits(s);
    TrimmedUnique(x, Trimmed(s), y + b);
    assert s + b == x + Trimmed(s) + (y + b);
  }

  lemma {:induction false} DropKeeps(s: string, n: nat)
    requires n < |s| && !IsSpace(s[n])
    ensures n < |DropTrailing(s)|
  {
    if IsSpace(s[|s| - 1]) { DropKeeps(s[..|s| - 1], n); }
  }

  /** Behind a front without white space at its ends, trimming the whole trims the rest on the right only. */
  lemma TrimmedBehind(front: string, rest: string) returns (cut: string)
    requires front != "" && IsTrimmed(front)
    ensures cut <= rest && Trimmed(front + rest) == front + cut && Trimmed(cut) == Trimmed(rest)
  {
    hide DropTrailing, IsSpace;
    var whole, n := front + rest, |front|;
    assert whole[0] == front[0] && whole[n - 1] == front[n - 1];
    NothingToSkip(whole);
    var kept := DropTrailing(whole);
    DropKeeps(whole, n - 1);
    var b := DropSplits(whole);
    cut := kept[n..];
    assert front == whole[..n] == (kept + b)[..n] == kept[..n];
    assert rest == whole[n..] == (kept + b)[n..] == cut + b;
    assert kept == kept[..n] + kept[n..];
    TrimmedIgnoresBack(cut, b);
  }

  lemma NothingToSkip(s: string)
    requires s != "" && !IsSpace(s[0])
    ensures Trimmed(s) == DropTrailing(s)
  {
  }

  /** What the loader makes of "key: text" for a good key. */
  lemma ScalarContent(indent: nat, k: string, q: string)
    requires IsKey(k)
    ensures var u := Uncommented(k + ": " + q);
            && LeadingSpaces(u) == 0
            && ClassifyContent(indent, Trimmed(u)) ==
               if Kept(q) == "" then Header(indent, k) else Scalar(indent, k, Unquoted(Kept(q)))
  {
    hide ClassifyContent, Unquoted, Uncommented, Trimmed;
    var rest := " " + q;
    assert k + ": " + q == (k + ":") + rest;
    HeaderCommentFree(k);
    UncommentedBehind(k + ":", rest);
    var u := (k + ":") + Uncommented(rest);
    assert u[0] == k[0];
    assert IsTrimmed(k + ":") by { assert (k + ":")[0] == k[0]; }
    var cut := TrimmedBehind(k + ":", Uncommented(rest));
    assert (k + ":") + cut == k + (":" + cut);
    KeyIsFound(indent, k, ":" + cut);
    assert (":" + cut)[1..] == cut;
  }

  /** What the loader makes of "- text". */
  lemma ItemContent(indent: nat, q: string)
    ensures var u := Uncommented("- " + q);
            && LeadingSpaces(u) == 0
            && ClassifyContent(indent, Trimmed(u)) ==
               if Kept(q) == "" then Bad(indent) else Item(indent, Unquoted(Kept(q)))
  {
    hide Unquoted, Uncommented, Trimmed;
    var rest := " " + q;
    assert "- " + q == "-" + rest;
    UncommentedBehind("-", rest);
    UncommentedKeepsFirst(q);
    var x := Uncommented(rest);
    assert ("-" + x)[0] == '-';
    var cut := TrimmedBehind("-", x);
    TrimmedLength(cut);
    if cut == "" {
      assert "-" + cut == "-";
      TrimmedIsFixed("");
    } else {
      assert cut[0] == ' ';
      var content := "-" + cut;
      assert content[2..] == cut[1..] && cut == " " + cut[1..];
      SpaceInFront(cut[1..]);
      TrimmedLength(content[2..]);
      TrimmedIsFixed(Trimmed(content[2..]));
      NotOnlySpaces("-", x, cut);
    }
  }

  lemma UncommentedKeepsFirst(q: string)
    ensures Uncommented(" " + q) != "" && Uncommented(" " + q)[0] == ' '
  {
  }

  lemma SpaceInFront(s: string)
    ensures Trimmed(" " + s) == Trimmed(s)
  {
    SkipLeading(" ", s);
  }

  /** What trimming leaves does not end in white space. */
  lemma NotOnlySpaces(front: string, rest: string, cut: string)
    requires front != "" && cut != "" && Trimmed(front + rest) == front + cut
    ensures Trimmed(cut) != ""
  {
    TrimmedLength(front + rest);
    assert (front + cut)[|front + cut| - 1] == cut[|cut| - 1];
    var a, b := TrimmedSplits(cut);
  }

  // ----- which values survive -----

  lemma UnquotedMeans(v: string)
    ensures Unquoted(v) == if IsQuoted(v) then v[1..|v| - 1] else v
    ensures |Unquoted(v)| == |v| ==> Unquoted(v) == v && !IsQuoted(v)
  {
  }

  lemma BehindSpace(q: string)
    ensures CommentFree(" " + q) <==> CommentFree(q)
    ensures CommentFree(q) ==> Kept(q) == Trimmed(q)
    ensures !CommentFree(q) ==>
              exists j :: 0 <= j < |q| && IsComment(q, j) && Kept(q) == Trimmed(q[..j])
  {
    var w := " " + q;
    forall j | 0 <= j < |q| ensures IsComment(w, j + 1) <==> IsComment(q, j) {
      assert w[j + 1] == q[j] && (j > 0 ==> w[j] == q[j - 1]);
    }
    if CommentFree(q) {
      forall j | 0 <= j < |w| ensures !IsComment(w, j) {
        if j > 0 {
          assert !IsComment(q, j - 1);
          assert IsComment(w, (j - 1) + 1) <==> IsComment(q, j - 1);
        }
      }
      UncommentedUnique(w, |w|);
      assert w[..|w|] == w;
      SpaceInFront(q);
    } else {
      var c :| 0 <= c < |q| && IsComment(q, c);
      assert IsComment(w, c + 1);
      NoComment(w);
      var p := CommentFrom(w, 0);
      assert IsComment(w, (p - 1) + 1) <==> IsComment(q, p - 1);
      assert w[..p] == " " + q[..p - 1];
      SpaceInFront(q[..p - 1]);
    }
  }

  lemma BareSurvives(v: string)
    ensures (Kept(v) != "" && Unquoted(Kept(v)) == v) <==> Survives(Text(Bare, v))
  {
    hide Kept, Unquoted, Trimmed, CommentFree;
    BehindSpace(v);
    UnquotedMeans(Kept(v));
    if CommentFree(v) {
      TrimmedLength(v);
      var a, b := TrimmedSplits(v);
      if IsTrimmed(v) { TrimmedIsFixed(v); }
      if Kept(v) != "" && Unquoted(Kept(v)) == v {
        assert a == "" && b == "";
        assert Trimmed(v) == v;
      }
    } else {
      var j :| 0 <= j < |v| && IsComment(v, j) && Kept(v) == Trimmed(v[..j]);
      TrimmedLength(v[..j]);
    }
  }

  lemma QuotedComments(c: char, v: string)
    requires c == '"' || c == '\''
    ensures var q := [c] + v + [c];
            && (IsPlain(v) <==> CommentFree(q))
            && (forall p | 0 <= p < |q| && IsComment(q, p) :: 1 < p < 1 + |v| && IsSpace(q[p - 1]))
  {
    var q := [c] + v + [c];
    assert q[0] == c && q[|q| - 1] == c;
    forall j | 0 <= j < |v| ensures q[j + 1] == v[j] {}
    if !IsPlain(v) {
      var j :| 0 < j < |v| && v[j] == '#' && IsSpace(v[j - 1]);
      assert q[(j - 1) + 1] == v[j - 1];
      assert IsComment(q, j + 1);
    }
    if p :| 0 <= p < |q| && IsComment(q, p) {
      assert q[(p - 1) + 1] == v[p - 1];
      assert p > 1;
      assert q[(p - 2) + 1] == v[p - 2];
    }
  }

  lemma QuotedSurvives(c: char, v: string)
    requires c == '"' || c == '\''
    ensures (Kept([c] + v + [c]) != "" && Unquoted(Kept([c] + v + [c])) == v) <==> IsPlain(v)
  {
    hide Kept, Unquoted, Trimmed, CommentFree, IsPlain;
    var q := [c] + v + [c];
    QuotedComments(c, v);
    BehindSpace(q);
    UnquotedMeans(Kept(q));
    if IsPlain(v) {
      assert IsTrimmed(q);
      TrimmedIsFixed(q);
      assert q[1..|q| - 1] == v;
    } else {
      var j :| 0 <= j < |q| && IsComment(q, j) && Kept(q) == Trimmed(q[..j]);
      TrimmedLength(q[..j]);
      assert q[..j][j - 1] == q[j - 1];
    }
  }

  lemma SurvivesMeans(t: Text)
    ensures (Kept(Quoted(t)) != "" && Unquoted(Kept(Quoted(t))) == t.value) <==> Survives(t)
  {
    hide Kept, Unquoted;
    match t.style
    case Bare => BareSurvives(t.value);
    case Single =>
      QuotedSurvives('\'', t.value);
      assert Quoted(t) == ['\''] + t.value + ['\''];
    case Double =>
      QuotedSurvives('"', t.value);
      assert Quoted(t) == ['"'] + t.value + ['"'];
  }

  // ----- the three kinds of line -----

  lemma HeaderCommentFree(k: string)
    requires IsKey(k)
    ensures CommentFree(k + ":")
  {
    var body := k + ":";
    forall p | 0 <= p < |body| ensures !IsComment(body, p) {
      if p < |k| { assert !IsComment(k, p); }
    }
  }

  /**
   * Printing a scalar line and loading it gives the same key and value back exactly for good keys and
   * values that survive in their style.
   */
  lemma ScalarRoundTrip(indent: nat, k: string, t: Text)
    ensures Classify(PrintScalar(indent, k, t)) == Scalar(indent, k, t.value) <==> IsKey(k) && Survives(t)
  {
    hide IsKey, Survives, Uncommented, ClassifyContent, Trimmed, Classify, LeadingSpaces, Kept, Quoted, Unquoted;
    var q := Quoted(t);
    var body := k + ": " + q;
    var u := Uncommented(body);
    ClassifyIndented(indent, body);
    var line := ClassifyContent(indent + LeadingSpaces(u), Trimmed(u));
    if IsKey(k) {
      ScalarContent(indent, k, q);
      SurvivesMeans(t);
    } else if line == Scalar(indent, k, t.value) {
      assert body == k + (": " + q);
      FoundKeyIsKey(indent + LeadingSpaces(u), k, ": " + q);
      assert false;
    }
  }

  lemma GoodHeader(indent: nat, k: string)
    requires IsKey(k)
    ensures var u := Uncommented(k + ":");
            LeadingSpaces(u) == 0 && ClassifyContent(indent, Trimmed(u)) == Header(indent, k)
  {
    hide CommentFree, Uncommented, ClassifyContent, Trimmed;
    var body := k + ":";
    HeaderCommentFree(k);
    NoComment(body);
    assert body[0] == k[0];
    TrimmedIsFixed(body);
    KeyIsFound(indent, k, ":");
    assert ":"[1..] == "";
    TrimmedIsFixed("");
  }

  /** A printed header loads back exactly for good keys. */
  lemma HeaderRoundTrip(indent: nat, k: string)
    ensures Classify(PrintHeader(indent, k)) == Header(indent, k) <==> IsKey(k)
  {
    hide IsKey, Uncommented, ClassifyContent, Trimmed, Classify, LeadingSpaces;
    var u := Uncommented(k + ":");
    ClassifyIndented(indent, k + ":");
    var line := ClassifyContent(indent + LeadingSpaces(u), Trimmed(u));
    if IsKey(k) {
      GoodHeader(indent, k);
    } else if line == Header(indent, k) {
      FoundKeyIsKey(indent + LeadingSpaces(u), k, ":");
      assert false;
    }
  }

  /** A printed list item loads back exactly for the values that survive. */
  lemma ItemRoundTrip(indent: nat, t: Text)
    ensures Classify(PrintItem(indent, t)) == Item(indent, t.value) <==> Survives(t)
  {
    hide Survives, Uncommented, ClassifyContent, Trimmed, Classify, LeadingSpaces, Kept, Quoted, Unquoted;
    ClassifyIndented(indent, "- " + Quoted(t));
    ItemContent(indent, Quoted(t));
    SurvivesMeans(t);
  }

  // ----- the other lines -----

  /** A line is blank exactly if there is nothing but white space before the comment, or before the end. */
  lemma BlankLines(line: string)
    ensures Classify(line).Blank? <==>
            exists p :: 0 <= p <= |line| && AllSpace(line[..p]) && (p == |line| || IsComment(line, p))
  {
    var u := Uncommented(line);
    var a, b := TrimmedSplits(u);
    NoComment(line);
    if Classify(line).Blank? {
      assert u == a + b;
      assert AllSpace(line[..|u|]) && (|u| == |line| || IsComment(line, |u|));
    }
    if p :| 0 <= p <= |line| && AllSpace(line[..p]) && (p == |line| || IsComment(line, p)) {
      assert AllSpace(u) by {
        assert |u| <= p;
        assert u == line[..p][..|u|];
      }
      TrimmedUnique(u, "", "");
      assert u + "" + "" == u;
    }
  }

  /** A line of text is ignored, but for its indentation, exactly if it is no item and has no key before a colon. */
  lemma BadLines(indent: nat, text: string)
    requires text != "" && IsTrimmed(text) && CommentFree(text)
    ensures Classify(Spaces(indent) + text) == Bad(indent) <==> !("- " <= text) && (':' !in text || text[0] == ':')
  {
    hide Uncommented, Classify, Unquoted;
    ClassifyIndented(indent, text);
    NoComment(text);
    TrimmedIsFixed(text);
    var colon := IndexOf(text, ':', 0);
    if colon < |text| {
      if text[0] == ':' {
        assert text[..colon] == "";
        TrimmedIsFixed("");
      } else {
        var a, b := TrimmedSplits(text[..colon]);
        assert text[..colon][0] == text[0];
        NotBlank(text[..colon]);
      }
    }
  }

  lemma NotBlank(s: string)
    requires s != "" && !IsSpace(s[0])
    ensures Trimmed(s) != ""
  {
    var a, b := TrimmedSplits(s);
  }

  lemma {:induction false} SpaceAtEnd(line: string)
    requires exists c :: c in line && c != ' '
    ensures LeadingSpaces(line + " ") == LeadingSpaces(line)
  {
    assert (line + " ")[0] == line[0];
    if line[0] == ' ' {
      var c :| c in line && c != ' ';
      assert line == [line[0]] + line[1..];
      assert c in line[1..];
      assert (line + " ")[1..] == line[1..] + " ";
      SpaceAtEnd(line[1..]);
    }
  }

  /** A comment behind white space makes no difference to what the line says. */
  lemma CommentIgnored(line: string, comment: string)
    requires CommentFree(line)
    ensures Classify(line + " #" + comment) == Classify(line)
  {
    hide ClassifyContent, Uncommented, Trimmed, LeadingSpaces;
    var whole, n := line + " #" + comment, |line| + 1;
    assert whole[n] == '#' && whole[n - 1] == ' ';
    forall j | 0 <= j < n ensures !IsComment(whole, j) {
      if j < |line| {
        assert !IsComment(line, j);
        assert whole[j] == line[j] && (j > 0 ==> whole[j - 1] == line[j - 1]);
      }
    }
    UncommentedUnique(whole, n);
    assert whole[..n] == line + " ";
    NoComment(line);
    TrimmedIgnoresBack(line, " ");
    if c :| c in line && c != ' ' {
      SpaceAtEnd(line);
    } else {
      OnlyBlanks(line);
    }
  }

  lemma OnlyBlanks(line: string)
    requires forall c <- line :: c == ' '
    ensures Trimmed(line) == ""
    ensures forall i, j :: ClassifyContent(i, "") == ClassifyContent(j, "")
  {
    assert AllSpace(line) by {
      forall k | 0 <= k < |line| ensures IsSpace(line[k]) { assert line[k] in line; }
    }
    TrimmedUnique(line, "", "");
    assert line + "" + "" == line;
  }
}
