/** What does not matter in a wg-quick text: comments, letter case, space around names and values, and the
    kind of line end. */
module WgQuickLayout {
  import opened Options
  import opened ConfigText
  import opened WgQuick
  import opened WgQuickLines
  import opened WgQuickRoundTrip

  // ----- one line -----

  /** The same line, but for the text of a line that is refused. */
  predicate Same(a: Line, b: Line) {
    a == b || (a.Invalid? && b.Invalid?)
  }

  predicate IsComment(s: string) {
    s == "" || s[0] == '#'
  }

  lemma UpToComment(line: string, comment: string)
    requires '#' !in line && IsComment(comment)
    ensures Clean(line + comment) == Trim(line)
  {
    var all := line + comment;
    assert all[..|line|] == line;
    FindIs('#', all, |line|);
    hide Trim;
  }

  /** From a '#' on, a line does not count. */
  lemma ClassifyComment(f: Formats, line: string, comment: string)
    requires '#' !in line && IsComment(comment)
    ensures Same(Classify(f, line + comment), Classify(f, line))
  {
    UpToComment(line, comment);
    UpToComment(line, "");
    assert line + "" == line;
    hide Clean, Find, Trim;
  }

  // blanks and tabs
  predicate IsGap(s: string) {
    forall i :: 0 <= i < |s| ==> s[i] == ' ' || s[i] == '\t'
  }

  lemma {:induction false} TrimStartGap(gap: string, s: string)
    requires IsGap(gap)
    ensures TrimStart(gap + s) == TrimStart(s)
  {
    if gap == "" {
      assert gap + s == s;
    } else {
      assert (gap + s)[1..] == gap[1..] + s;
      TrimStartGap(gap[1..], s);
    }
  }

  lemma {:induction false} TrimEndGap(s: string, gap: string)
    requires IsGap(gap)
    ensures TrimEnd(s + gap) == TrimEnd(s)
  {
    if gap == "" {
      assert s + gap == s;
    } else {
      var all := s + gap;
      assert all[..|all| - 1] == s + gap[..|gap| - 1];
      TrimEndGap(s, gap[..|gap| - 1]);
    }
  }

  lemma TrimGaps(before: string, s: string, after: string)
    requires IsGap(before) && IsGap(after) && IsTrimmed(s)
    ensures Trim(before + s + after) == s
  {
    assert before + s + after == before + (s + after);
    TrimStartGap(before, s + after);
    if s == "" {
      assert s + after == after + "";
      TrimStartGap(after, "");
    } else {
      assert TrimStart(s + after) == s + after;
      TrimEndGap(s, after);
    }
  }

  /** A word, with gaps around it and perhaps a comment. */
  lemma CleanWord(before: string, name: string, after: string, comment: string)
    requires IsName(name) && IsGap(before) && IsGap(after) && IsComment(comment)
    ensures Clean(before + name + after + comment) == name
  {
    var word := before + name + after;
    assert '#' !in word;
    UpToComment(word, comment);
    NameIsTrimmed(name);
    TrimGaps(before, name, after);
    hide Clean, Trim;
  }

  /** A header may be written in any letter case. */
  lemma ClassifyHeader(f: Formats, before: string, name: string, after: string, comment: string)
    requires Lowers(f.lower) && IsGap(before) && IsGap(after) && IsComment(comment)
    ensures Folds(name, "[interface]") ==> Classify(f, before + name + after + comment) == Header(false)
    ensures Folds(name, "[peer]") ==> Classify(f, before + name + after + comment) == Header(true)
  {
    if Folds(name, "[interface]") || Folds(name, "[peer]") {
      var key := if Folds(name, "[interface]") then "[interface]" else "[peer]";
      FoldedName(f, name, key);
      CleanWord(before, name, after, comment);
      ClassifyPlain(f, name);
      assert Folds(name, "[interface]") ==> !Folds(name, "[peer]");
      hide Clean, Find, Folds, Lowers;
    }
  }

  predicate IsValue(s: string) {
    IsTrimmed(s) && '#' !in s
  }

  /** A name in any letter case, with gaps anywhere and perhaps a comment, is read as the key that it stands for. */
  lemma ClassifyAttribute(f: Formats, a: string, name: string, b: string, c: string, value: string, d: string,
      comment: string, key: string)
    requires Lowers(f.lower) && Folds(name, key) && IsValue(value) && IsComment(comment)
    requires IsGap(a) && IsGap(b) && IsGap(c) && IsGap(d)
    ensures Classify(f, a + name + b + "=" + c + value + d + comment) == Attribute(name, key, value)
  {
    hide *;
    FoldedName(f, name, key);
    CleanAttribute(a, name, b, c, value, d, comment);
    ClassifyClean(f, a + name + b + "=" + c + value + d + comment, name, b, TrimEnd(c + value + d));
    TrimTwice(c + value + d);
    ValueIsTrimmed(value);
    TrimGaps(c, value, d);
  }

  lemma ValueIsTrimmed(value: string)
    requires IsValue(value)
    ensures IsTrimmed(value)
  {
  }

  lemma ClassifyClean(f: Formats, line: string, name: string, gap: string, rest: string)
    requires IsName(name) && IsGap(gap) && Clean(line) == name + gap + "=" + rest
    ensures Classify(f, line) == Attribute(name, f.lower(name), Trim(rest))
  {
    NoEquals(name, gap);
    NameIsTrimmed(name);
    TrimGaps("", name, gap);
    hide Clean, Find, Trim, IsName, IsGap;
    var text := name + gap + "=" + rest;
    var i := |name| + |gap|;
    assert text[..i] == name + gap && text[i] == '=' && text[i + 1..] == rest;
    FindIs('=', text, i);
    assert "" + name + gap == name + gap;
  }

  lemma NoEquals(name: string, b: string)
    requires IsName(name) && IsGap(b)
    ensures '=' !in name + b
  {
  }

  lemma CleanAttribute(a: string, name: string, b: string, c: string, value: string, d: string, comment: string)
    requires IsName(name) && IsValue(value) && IsComment(comment)
    requires IsGap(a) && IsGap(b) && IsGap(c) && IsGap(d)
    ensures Clean(a + name + b + "=" + c + value + d + comment) == name + b + "=" + TrimEnd(c + value + d)
  {
    var front := name + b + "=";
    var line := a + name + b + "=" + c + value + d;
    assert line == a + (front + (c + value + d));
    assert '#' !in line;
    UpToComment(line, comment);
    TrimStartGap(a, front + (c + value + d));
    assert TrimStart(front + (c + value + d)) == front + (c + value + d);
    TrimEndAfter(front, c + value + d) by {
      EqualsIsNoSpace();
    }
  }

  // ----- a whole text -----

  predicate EndsLine(c: char) {
    c == '\n' || c == '\r' || c == '\U{B}' || c == '\U{C}' || c == '\U{85}' || c == '\U{2028}' || c == '\U{2029}'
  }

  predicate IsLineEnd(s: string) {
    s == "\r\n" || (|s| == 1 && EndsLine(s[0]))
  }

  predicate WithoutLineEnd(s: string) {
    forall i :: 0 <= i < |s| ==> !EndsLine(s[i])
  }

  /** Lines with something in them, then perhaps comments, and any line ends; the last may have none. */
  predicate IsLayout(lines: seq<string>, comments: seq<string>, ends: seq<string>) {
    && |lines| == |comments| == |ends|
    && (forall i :: 0 <= i < |lines| ==> lines[i] != "" && '#' !in lines[i] && WithoutLineEnd(lines[i]))
    && (forall i :: 0 <= i < |lines| ==> IsComment(comments[i]) && WithoutLineEnd(comments[i]))
    && (forall i :: 0 <= i < |lines| ==> IsLineEnd(ends[i]) || (i == |lines| - 1 && ends[i] == ""))
  }

  function Laid(lines: seq<string>, comments: seq<string>, ends: seq<string>): string
    requires |lines| == |comments| == |ends|
  {
    if lines == [] then "" else lines[0] + comments[0] + ends[0] + Laid(lines[1..], comments[1..], ends[1..])
  }

  function Commented(lines: seq<string>, comments: seq<string>): (r: seq<string>)
    requires |lines| == |comments|
    ensures |r| == |lines| && forall i :: 0 <= i < |r| ==> r[i] == lines[i] + comments[i]
  {
    seq(|lines|, i requires 0 <= i < |lines| => lines[i] + comments[i])
  }

  lemma NoNewline(line: string)
    requires WithoutLineEnd(line)
    ensures Without(IsNewline, line)
  {
  }

  lemma PiecesAfter(line: string, end: string, rest: string)
    requires line != "" && WithoutLineEnd(line) && IsLineEnd(end)
    ensures Pieces(IsNewline, line + end + rest) == [line] + Pieces(IsNewline, rest)
  {
    hide Pieces, Without;
    NoNewline(line);
    if end == "\r\n" {
      PiecesNext(IsNewline, line, '\r', "\n" + rest);
      PiecesBlank(rest);
      assert line + end + rest == line + ['\r'] + ("\n" + rest);
    } else {
      PiecesNext(IsNewline, line, end[0], rest);
      assert line + end + rest == line + [end[0]] + rest;
    }
  }

  lemma {:induction false} PiecesLaid(lines: seq<string>, comments: seq<string>, ends: seq<string>)
    requires |lines| == |comments| == |ends| && IsLayout(lines, comments, ends)
    ensures Pieces(IsNewline, Laid(lines, comments, ends)) == Commented(lines, comments)
  {
    hide IsLayout, Pieces, WithoutLineEnd, IsLineEnd, Without, IsNewline;
    if lines != [] {
      var line, rest := lines[0] + comments[0], Laid(lines[1..], comments[1..], ends[1..]);
      LayoutTail(lines, comments, ends);
      PiecesLaid(lines[1..], comments[1..], ends[1..]);
      assert Commented(lines, comments) == [line] + Commented(lines[1..], comments[1..]);
      if ends[0] != "" {
        PiecesAfter(line, ends[0], rest);
      } else {
        LastPiece(line);
        assert rest == "";
        assert line + ends[0] + rest == line;
      }
    } else {
      NoPieces();
    }
  }

  lemma LayoutTail(lines: seq<string>, comments: seq<string>, ends: seq<string>)
    requires IsLayout(lines, comments, ends) && lines != []
    ensures IsLayout(lines[1..], comments[1..], ends[1..])
    ensures if ends[0] == "" then lines[1..] == [] else IsLineEnd(ends[0])
    ensures lines[0] + comments[0] != "" && WithoutLineEnd(lines[0] + comments[0])
  {
  }

  lemma LastPiece(line: string)
    requires line != "" && WithoutLineEnd(line)
    ensures Pieces(IsNewline, line) == [line]
  {
    hide Pieces, Without;
    NoNewline(line);
    PiecesWhole(IsNewline, line);
  }

  lemma SameMeaning(f: Formats, a: seq<Line>, b: seq<Line>)
    requires |a| == |b| && forall i :: 0 <= i < |a| ==> Same(a[i], b[i])
    ensures Meaning(f, a) == Meaning(f, b)
  {
    hide Sections, Parts, Assemble, UpToHeader;
    if SomeInvalid(a) {
      var i :| 0 <= i < |a| && a[i].Invalid?;
      assert b[i].Invalid?;
    } else {
      assert a == b;
    }
  }

  /** Comments and the kinds of line ends make no difference to what a text means. */
  lemma CommentsAreIgnored(f: Formats, lines: seq<string>, comments: seq<string>, ends: seq<string>)
    requires IsLayout(lines, comments, ends)
    ensures Meaning(f, ReadLines(f, Laid(lines, comments, ends))) == Meaning(f, ReadLines(f, Unlines(lines)))
  {
    PiecesLaid(lines, comments, ends);
    PiecesPlain(lines, comments, ends);
    forall i | 0 <= i < |lines|
      ensures Same(Classify(f, lines[i] + comments[i]), Classify(f, lines[i]))
    {
      ClassifyComment(f, lines[i], comments[i]);
    }
    hide Classify, Pieces, Meaning, IsLayout;
    SameMeaning(f, ClassifyAll(f, Commented(lines, comments)), ClassifyAll(f, lines));
  }

  lemma PiecesPlain(lines: seq<string>, comments: seq<string>, ends: seq<string>)
    requires IsLayout(lines, comments, ends)
    ensures Pieces(IsNewline, Unlines(lines)) == lines
  {
    forall i | 0 <= i < |lines|
      ensures Without(IsNewline, lines[i]) && lines[i] != ""
    {
      assert WithoutLineEnd(lines[i]);
    }
    hide Pieces, IsLayout, Without;
    PiecesUnlines(lines, "");
    assert Unlines(lines) + "" == Unlines(lines);
    NoPieces();
  }

  lemma NoPieces()
    ensures Pieces(IsNewline, "") == []
  {
  }
}
