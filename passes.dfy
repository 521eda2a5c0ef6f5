/**
 * The four passes highlightMarkdown runs on one line, as functions of the line's text, its
 * neighbours' texts and the two state cells the passes read and write: the previous line's
 * (read by previousBlockState, written by previousBlock.setUserState) and the current line's
 * (read by currentBlockState, written by setCurrentBlockState and setUserState).
 */
module Passes {
  import opened States
  import opened Patterns
  import opened Rules

  /** The state cells of the previous and of the current line. */
  datatype Cells = Cells(prev: State, cur: State)

  /** The cells after a pass and the setFormat calls it issued, in order. */
  datatype PassResult = PassResult(cells: Cells, spans: seq<Span>)

  /** The line's text and its neighbours' texts; a missing neighbour has the empty text. */
  datatype Texts = Texts(prev: string, cur: string, next: string)

  function Min(a: int, b: int): int {
    if a < b then a else b
  }

  /** setFormat(0, text.length(), ...) */
  function WholeLine(text: string, s: State): Span {
    Span(0, |text|, s)
  }

  /** highlightAdditionalRules */
  function AdditionalRulesPass(text: string, m: Matcher, c: Cells): PassResult {
    var o := ApplyRules(RuleTable(), text, m, c.cur);
    PassResult(Cells(c.prev, o.state), o.spans)
  }

  /** highlightHeadline */
  function HeadlinePass(t: Texts, c: Cells): PassResult {
    match AtxLevel(t.cur)
    case Some(count) =>
      var h := HeadlineState(Min(count, 6));
      PassResult(Cells(c.prev, h), [WholeLine(t.cur, h)])
    case None =>
      if IsRunOf(t.cur, '=') then
        if (c.prev == H1 || c.prev == NoState) && |t.prev| > 0 then
          PassResult(Cells(H1, HeadlineEnd), [WholeLine(t.cur, H1)])
        else PassResult(c, [])
      else if IsRunOf(t.cur, '-') then
        if (c.prev == H2 || c.prev == NoState) && |t.prev| > 0 then
          PassResult(Cells(H2, HeadlineEnd), [WholeLine(t.cur, H2)])
        else PassResult(c, [])
      else
        var underlined :=
          if IsRunOf(t.next, '=') || IsRunOf(t.next, '-') then
            PassResult(Cells(c.prev, H1), [WholeLine(t.cur, H1)])
          else PassResult(c, []);
        if IsRunOf(t.next, '-') then
          PassResult(Cells(c.prev, H2), underlined.spans + [WholeLine(t.cur, H2)])
        else underlined
  }

  /** highlightCommentBlock */
  function CommentBlockPass(text: string, c: Cells): PassResult {
    if text == "<!--" || (text != "-->" && c.prev == Comment) then
      PassResult(Cells(c.prev, Comment), [WholeLine(text, Comment)])
    else if text == "-->" then
      PassResult(c, [WholeLine(text, Comment)])
    else PassResult(c, [])
  }

  /** highlightCodeBlock */
  function CodeBlockPass(text: string, c: Cells): PassResult {
    if IsFence(text) then
      PassResult(Cells(c.prev, if c.prev == CodeBlock then CodeBlockEnd else CodeBlock), [WholeLine(text, CodeBlock)])
    else if c.prev == CodeBlock then
      PassResult(Cells(c.prev, CodeBlock), [WholeLine(text, CodeBlock)])
    else PassResult(c, [])
  }

  /** The two passes that run only on a non-empty line. */
  function SingleLinePasses(t: Texts, m: Matcher, c: Cells): PassResult {
    if t.cur == [] then PassResult(c, [])
    else
      var r := AdditionalRulesPass(t.cur, m, c);
      var h := HeadlinePass(t, r.cells);
      PassResult(h.cells, r.spans + h.spans)
  }

  /** highlightMarkdown */
  function MarkdownPasses(t: Texts, m: Matcher, c: Cells): PassResult {
    var s := SingleLinePasses(t, m, c);
    var cm := CommentBlockPass(t.cur, s.cells);
    var cd := CodeBlockPass(t.cur, cm.cells);
    PassResult(cd.cells, s.spans + cm.spans + cd.spans)
  }

  /** highlightBlock: the line's own cell is reset to NoState, then the passes run. */
  function HighlightLine(t: Texts, prev: State, m: Matcher): PassResult {
    MarkdownPasses(t, m, Cells(prev, NoState))
  }

  // ---- the headline detector ----

  /** `#` x k, a space and some text: the line becomes H(min(k, 6)), formatted whole,
      whatever the neighbours are (no Setext check follows). */
  lemma AtxHeadline(k: nat, rest: string, prevText: string, nextText: string, c: Cells)
    requires 1 <= k && rest != [] && OnOneLine(rest)
    ensures var text := Repeat('#', k) + " " + rest;
            var h := HeadlineState(Min(k, 6));
            HeadlinePass(Texts(prevText, text, nextText), c) == PassResult(Cells(c.prev, h), [Span(0, |text|, h)])
  {
    AtxLevelOfShape(k, rest);
  }

  /** A line of `=` (of `-`) under a non-empty line whose state is H1 (H2) or NoState is the end
      of a Setext headline: it is formatted whole as H1 (H2), gets HeadlineEnd, and the previous
      line's state becomes H1 (H2). Otherwise nothing changes. The next line is never read. */
  lemma SetextUnderline(t: Texts, c: Cells, marker: char)
    requires marker == '=' || marker == '-'
    requires IsRunOf(t.cur, marker)
    ensures var h := if marker == '=' then H1 else H2;
            var r := HeadlinePass(t, c);
            if (c.prev == h || c.prev == NoState) && t.prev != [] then
              r == PassResult(Cells(h, HeadlineEnd), [Span(0, |t.cur|, h)])
            else r == PassResult(c, [])
  {
    assert !IsHash(t.cur[0]);
    assert AtxLevel(t.cur).None?;
    if marker == '-' {
      assert t.cur[0] != '=';
    }
  }

  /** The previous text is tested as it stands, not trimmed: a `=` line under a line of blanks
      still makes that line H1. */
  lemma UnderlineUnderBlankLine(c: Cells)
    requires c.prev == NoState
    ensures HeadlinePass(Texts("  ", "==", ""), c) == PassResult(Cells(H1, HeadlineEnd), [Span(0, 2, H1)])
  {
    SetextUnderline(Texts("  ", "==", ""), c, '=');
  }

  /** Any other line looks at the next line: under a line of `=` it becomes H1, under a line of
      `-` it becomes H2 (the `-` check runs last, after a first H1 format); otherwise nothing changes. */
  lemma SetextLookahead(t: Texts, c: Cells)
    requires AtxLevel(t.cur).None? && !IsRunOf(t.cur, '=') && !IsRunOf(t.cur, '-')
    ensures var r := HeadlinePass(t, c);
            r.cells.prev == c.prev &&
            r.cells.cur == (if IsRunOf(t.next, '-') then H2 else if IsRunOf(t.next, '=') then H1 else c.cur) &&
            (forall q | 0 <= q < |r.spans| :: r.spans[q].start == 0 && r.spans[q].length == |t.cur|) &&
            (r.spans == [] <==> !IsRunOf(t.next, '-') && !IsRunOf(t.next, '='))
            && (r.spans != [] ==> r.spans[|r.spans| - 1].state == r.cells.cur)
  {
  }

  /** The headline pass writes the previous line's cell only at a Setext underline, and only
      from NoState to H1 or H2; the current cell it leaves alone or sets to a headline state or HeadlineEnd. */
  lemma HeadlinePassCells(t: Texts, c: Cells)
    ensures var r := HeadlinePass(t, c);
            (r.cells.prev == c.prev ||
             (c.prev == NoState && t.prev != [] && r.cells.cur == HeadlineEnd &&
              ((r.cells.prev == H1 && IsRunOf(t.cur, '=')) || (r.cells.prev == H2 && IsRunOf(t.cur, '-'))))) &&
            (r.cells.cur == c.cur || IsHeadline(r.cells.cur) || r.cells.cur == HeadlineEnd)
  {
  }

  // ---- the whole line ----

  /** At the first line, where the text above is empty, the two single-line passes keep the
      previous cell. */
  lemma SingleLinePrevAtTop(t: Texts, m: Matcher, c: Cells)
    requires t.prev == []
    ensures SingleLinePasses(t, m, c).cells.prev == c.prev
  {
    if t.cur != [] {
      HeadlinePassCells(t, AdditionalRulesPass(t.cur, m, c).cells);
    }
  }


  /** What the two single-line passes leave for the comment and code passes: the current cell is
      not Comment, CodeBlock or CodeBlockEnd, and the previous cell changed at most from NoState to H1 or H2. */
  lemma SingleLinePassesCells(t: Texts, m: Matcher, prev: State)
    ensures var s := SingleLinePasses(t, m, Cells(prev, NoState));
            s.cells.cur != Comment && s.cells.cur != CodeBlock && s.cells.cur != CodeBlockEnd &&
            (s.cells.prev == prev || (prev == NoState && t.prev != [] && (s.cells.prev == H1 || s.cells.prev == H2)))
  {
    if t.cur != [] {
      RuleTableOutcome(t.cur, m);
      var r := AdditionalRulesPass(t.cur, m, Cells(prev, NoState));
      HeadlinePassCells(t, r.cells);
    }
  }

  /** The previous line's cell changes only under a Setext underline, from NoState to H1 or H2. */
  lemma PrevCellChange(t: Texts, prev: State, m: Matcher)
    ensures var e := HighlightLine(t, prev, m);
            e.cells.prev == prev ||
            (prev == NoState && t.prev != [] &&
             ((e.cells.prev == H1 && IsRunOf(t.cur, '=')) || (e.cells.prev == H2 && IsRunOf(t.cur, '-'))))
  {
    SingleLinePassesCells(t, m, prev);
    var s := SingleLinePasses(t, m, Cells(prev, NoState));
    if s.cells.prev != prev {
      assert t.cur != [];
      var r := AdditionalRulesPass(t.cur, m, Cells(prev, NoState));
      HeadlinePassCells(t, r.cells);
    }
  }

  /** The code pass runs last: the line ends as CodeBlock exactly when it is a fence outside a
      block or a non-fence line inside one, as CodeBlockEnd exactly when it is a fence inside a
      block, and every line it touches has a last span that formats it whole as CodeBlock. Any
      other line it leaves as the comment pass left it, adding no span. */
  lemma CodeBlockToggle(t: Texts, prev: State, m: Matcher)
    ensures var e := HighlightLine(t, prev, m);
            (e.cells.cur == CodeBlock <==> IsFence(t.cur) != (prev == CodeBlock)) &&
            (e.cells.cur == CodeBlockEnd <==> IsFence(t.cur) && prev == CodeBlock) &&
            (IsFence(t.cur) || prev == CodeBlock ==>
               e.spans != [] && e.spans[|e.spans| - 1] == Span(0, |t.cur|, CodeBlock)) &&
            (!IsFence(t.cur) && prev != CodeBlock ==>
               var s := SingleLinePasses(t, m, Cells(prev, NoState));
               var cm := CommentBlockPass(t.cur, s.cells);
               e == PassResult(cm.cells, s.spans + cm.spans))
  {
    SingleLinePassesCells(t, m, prev);
    var s := SingleLinePasses(t, m, Cells(prev, NoState));
    var cm := CommentBlockPass(t.cur, s.cells);
    assert s.spans + cm.spans + [] == s.spans + cm.spans;
  }

  /** A fence line: the earlier passes never write the previous cell (a fence is no underline),
      and the code pass decides the current one. */
  lemma FenceLine(t: Texts, prev: State, m: Matcher)
    requires IsFence(t.cur)
    ensures HighlightLine(t, prev, m).cells == Cells(prev, if prev == CodeBlock then CodeBlockEnd else CodeBlock)
  {
    FenceIsNotOtherLine(t.cur);
    PrevCellChange(t, prev, m);
    CodeBlockToggle(t, prev, m);
  }

  /** Outside a code block and off a fence, the line ends as Comment exactly when it is the
      start marker or continues a comment without being the end marker; each of those lines and
      the end marker get a last span formatting them whole as Comment. */
  lemma CommentToggle(t: Texts, prev: State, m: Matcher)
    requires !IsFence(t.cur) && prev != CodeBlock
    ensures var e := HighlightLine(t, prev, m);
            (e.cells.cur == Comment <==> t.cur == "<!--" || (t.cur != "-->" && prev == Comment)) &&
            (t.cur == "<!--" || t.cur == "-->" || prev == Comment ==>
               e.spans != [] && e.spans[|e.spans| - 1] == Span(0, |t.cur|, Comment))
  {
    SingleLinePassesCells(t, m, prev);
  }

  /** A line that is no fence and no comment marker, outside code blocks and comments, is left
      alone by the comment and code passes: the line is what the rule and headline passes make it. */
  lemma PlainLine(t: Texts, prev: State, m: Matcher)
    requires !IsFence(t.cur) && prev != CodeBlock && prev != Comment && t.cur != "<!--" && t.cur != "-->"
    ensures HighlightLine(t, prev, m) == SingleLinePasses(t, m, Cells(prev, NoState))
  {
    SingleLinePassesCells(t, m, prev);
    var s := SingleLinePasses(t, m, Cells(prev, NoState));
    assert s.spans + [] + [] == s.spans;
  }

  /** The comment and code passes on the end marker, from any cells. */
  lemma EndMarkerPasses(d: Cells)
    ensures var cm := CommentBlockPass("-->", d);
            var cd := CodeBlockPass("-->", cm.cells);
            cm == PassResult(d, [Span(0, 3, Comment)]) &&
            cd.cells == (if d.prev == CodeBlock then Cells(d.prev, CodeBlock) else d)
  {
    assert "-->"[0] != '`';
  }

  /** The end marker is formatted but keeps the state the earlier passes gave it. */
  lemma CommentEndKeepsState(t: Texts, prev: State, m: Matcher)
    requires t.cur == "-->"
    ensures var e := HighlightLine(t, prev, m);
            var s := SingleLinePasses(t, m, Cells(prev, NoState));
            e.cells == (if prev == CodeBlock then Cells(s.cells.prev, CodeBlock) else s.cells) &&
            Span(0, 3, Comment) in e.spans
  {
    SingleLinePassesCells(t, m, prev);
    var s := SingleLinePasses(t, m, Cells(prev, NoState));
    assert s.cells.prev == CodeBlock <==> prev == CodeBlock;
    EndMarkerPasses(s.cells);
    var cd := CodeBlockPass("-->", s.cells);
    assert (s.spans + [Span(0, 3, Comment)] + cd.spans)[|s.spans|] == Span(0, 3, Comment);
  }

  /** An empty line skips the rule and headline passes: it ends as CodeBlock inside a code block,
      as Comment inside a comment, and as NoState otherwise; its spans are all empty. */
  lemma EmptyLine(t: Texts, prev: State, m: Matcher)
    requires t.cur == []
    ensures var e := HighlightLine(t, prev, m);
            e.cells == Cells(prev, if prev == CodeBlock then CodeBlock else if prev == Comment then Comment else NoState) &&
            forall q | 0 <= q < |e.spans| :: e.spans[q].length == 0
  {
    assert !IsFence(t.cur);
  }

  /** An ATX headline outside a comment or code block ends with its headline state and is formatted whole. */
  lemma AtxLine(t: Texts, prev: State, m: Matcher)
    requires AtxLevel(t.cur).Some? && prev != Comment && prev != CodeBlock
    ensures var e := HighlightLine(t, prev, m);
            var h := HeadlineState(Min(AtxLevel(t.cur).value, 6));
            e.cells == Cells(prev, h) && Span(0, |t.cur|, h) in e.spans
  {
    var text := t.cur;
    assert text[0] == '#';
    assert !IsFence(text);
    var r := AdditionalRulesPass(text, m, Cells(prev, NoState));
    var h := HeadlinePass(t, r.cells);
    var e := HighlightLine(t, prev, m);
    assert e.spans[|r.spans|] == h.spans[0];
  }

  /** No span reaches past the end of the line. */
  predicate WithinLine(text: string, spans: seq<Span>) {
    forall q | 0 <= q < |spans| :: spans[q].start + spans[q].length <= |text|
  }

  lemma WithinLineAppend(text: string, a: seq<Span>, b: seq<Span>)
    requires WithinLine(text, a) && WithinLine(text, b)
    ensures WithinLine(text, a + b)
  {
    var ab := a + b;
    forall q | 0 <= q < |ab| ensures ab[q].start + ab[q].length <= |text| {
      if q < |a| { assert ab[q] == a[q]; } else { assert ab[q] == b[q - |a|]; }
    }
  }

  lemma RulesWithinLine(text: string, m: Matcher, c: Cells)
    ensures WithinLine(text, AdditionalRulesPass(text, m, c).spans)
  {
    ApplyRulesSpans(RuleTable(), text, m, c.cur);
    var sp := AdditionalRulesPass(text, m, c).spans;
    assert SpansOfRules(text, sp, RuleTable());
    forall q | 0 <= q < |sp| ensures sp[q].start + sp[q].length <= |text| {
      assert InLine(text, sp[q]);
    }
  }

  lemma HeadlineWithinLine(t: Texts, c: Cells)
    ensures WithinLine(t.cur, HeadlinePass(t, c).spans)
  {
  }

  lemma SingleLineWithinLine(t: Texts, m: Matcher, c: Cells)
    ensures WithinLine(t.cur, SingleLinePasses(t, m, c).spans)
  {
    if t.cur != [] {
      var r := AdditionalRulesPass(t.cur, m, c);
      RulesWithinLine(t.cur, m, c);
      HeadlineWithinLine(t, r.cells);
      WithinLineAppend(t.cur, r.spans, HeadlinePass(t, r.cells).spans);
    }
  }

  /** Every span of a line lies inside it. */
  lemma SpansInside(t: Texts, prev: State, m: Matcher)
    ensures WithinLine(t.cur, HighlightLine(t, prev, m).spans)
  {
    var s := SingleLinePasses(t, m, Cells(prev, NoState));
    SingleLineWithinLine(t, m, Cells(prev, NoState));
    var cm := CommentBlockPass(t.cur, s.cells);
    var cd := CodeBlockPass(t.cur, cm.cells);
    assert WithinLine(t.cur, cm.spans) && WithinLine(t.cur, cd.spans);
    WithinLineAppend(t.cur, s.spans, cm.spans);
    WithinLineAppend(t.cur, s.spans + cm.spans, cd.spans);
  }

  /** Running the line again, on the previous cell the first run left, gives the same result. */
  lemma HighlightLineStable(t: Texts, prev: State, m: Matcher)
    ensures var e := HighlightLine(t, prev, m);
            HighlightLine(t, e.cells.prev, m) == e
  {
    var e := HighlightLine(t, prev, m);
    SingleLinePassesCells(t, m, prev);
    if e.cells.prev != prev {
      assert t.cur != [];
      var r := AdditionalRulesPass(t.cur, m, Cells(prev, NoState));
      var r' := AdditionalRulesPass(t.cur, m, Cells(e.cells.prev, NoState));
      assert r'.cells.cur == r.cells.cur && r'.spans == r.spans;
      assert SingleLinePasses(t, m, Cells(e.cells.prev, NoState)) == SingleLinePasses(t, m, Cells(prev, NoState));
    }
  }

  /** A list item that is no headline, underline, fence or comment marker, under no underline and
      outside comments and code blocks, ends with state List. */
  lemma ListItemLine(t: Texts, prev: State, m: Matcher)
    requires IsListItem(t.cur) && AtxLevel(t.cur).None? && !IsRunOf(t.cur, '=') && !IsRunOf(t.cur, '-')
    requires !IsRunOf(t.next, '=') && !IsRunOf(t.next, '-')
    requires !IsFence(t.cur) && t.cur != "<!--" && prev != Comment && prev != CodeBlock
    ensures HighlightLine(t, prev, m).cells == Cells(prev, List)
  {
    RuleTableOutcome(t.cur, m);
  }

  /** An indented line that is not a list item is formatted whole as CodeBlock by the rule pass,
      whatever the state of the line above. */
  lemma IndentedCodeLine(t: Texts, prev: State, m: Matcher)
    requires IsIndentedCode(t.cur) && !IsListItem(t.cur)
    ensures Span(0, |t.cur|, CodeBlock) in HighlightLine(t, prev, m).spans
  {
    RuleTableOutcome(t.cur, m);
    var c := Cells(prev, NoState);
    var r := AdditionalRulesPass(t.cur, m, c);
    var s := SingleLinePasses(t, m, c);
    var e := HighlightLine(t, prev, m);
    assert Span(0, |t.cur|, CodeBlock) in r.spans;
    assert s.spans[..|r.spans|] == r.spans;
    assert e.spans[..|s.spans|] == s.spans;
  }

  /** No line ever ends with state Table: the table rules only format the line. */
  lemma NeverTable(t: Texts, prev: State, m: Matcher)
    ensures HighlightLine(t, prev, m).cells.cur != Table
  {
    SingleLinePassesCells(t, m, prev);
    if t.cur != [] {
      RuleTableOutcome(t.cur, m);
      HeadlinePassCells(t, AdditionalRulesPass(t.cur, m, Cells(prev, NoState)).cells);
    }
  }

  /** A table row is formatted whole as Table. */
  lemma TableLine(t: Texts, prev: State, m: Matcher)
    requires IsPipeTable(t.cur) || IsColumnTable(t.cur)
    ensures Span(0, |t.cur|, Table) in HighlightLine(t, prev, m).spans
  {
    var c := Cells(prev, NoState);
    TableRowSpan(t.cur, m, NoState);
    var r := AdditionalRulesPass(t.cur, m, c);
    var s := SingleLinePasses(t, m, c);
    var e := HighlightLine(t, prev, m);
    assert t.cur != [];
    assert s.spans[..|r.spans|] == r.spans;
    assert e.spans[..|s.spans|] == s.spans;
  }

  /** A horizontal ruler is formatted whole as HorizontalRuler. */
  lemma RulerLine(t: Texts, prev: State, m: Matcher)
    requires IsHorizontalRuler(t.cur)
    ensures Span(0, |t.cur|, HorizontalRuler) in HighlightLine(t, prev, m).spans
  {
    var c := Cells(prev, NoState);
    RulerRowSpan(t.cur, m, NoState);
    var r := AdditionalRulesPass(t.cur, m, c);
    var s := SingleLinePasses(t, m, c);
    var e := HighlightLine(t, prev, m);
    assert t.cur != [];
    assert s.spans[..|r.spans|] == r.spans;
    assert e.spans[..|s.spans|] == s.spans;
  }

  /** A line of three or more marks `*`, `-` or `_` is formatted whole as HorizontalRuler. */
  lemma MarksLine(t: Texts, prev: State, m: Matcher)
    requires |t.cur| >= 3 && forall j | 0 <= j < |t.cur| :: IsRulerMark(t.cur[j])
    ensures Span(0, |t.cur|, HorizontalRuler) in HighlightLine(t, prev, m).spans
  {
    MarksAreRuler(t.cur);
    RulerLine(t, prev, m);
  }

  /** The sample rows `|a|b|` and `a | b | c` are each formatted whole as Table. */
  lemma SampleTableLines(prevText: string, nextText: string, prev: State, m: Matcher)
    ensures Span(0, 5, Table) in HighlightLine(Texts(prevText, "|a|b|", nextText), prev, m).spans
    ensures Span(0, 9, Table) in HighlightLine(Texts(prevText, "a | b | c", nextText), prev, m).spans
  {
    TableRows();
    TableLine(Texts(prevText, "|a|b|", nextText), prev, m);
    TableLine(Texts(prevText, "a | b | c", nextText), prev, m);
  }
}
