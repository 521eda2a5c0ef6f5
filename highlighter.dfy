/**
 * The highlighter object. The buffer's line texts, which it only reads, are a sequence; the
 * state cells are an array it shares with the host editor; the rule list is built by the
 * constructor; the setFormat calls of the line
 * being highlighted are collected in `formats`. Each method is proved to do what the pass
 * function of the same name in Passes (and Step in Document) states.
 */
module Highlighter {
  import opened States
  import opened Patterns
  import opened Rules
  import opened Passes
  import opened Document

  /** With the constructor's list, the rule loop is the rule pass. */
  lemma RulesPassOfList(rules: seq<Rule>, text: string, m: Matcher, c: Cells)
    requires rules == RuleTable()
    ensures var o := ApplyRules(rules, text, m, c.cur);
            AdditionalRulesPass(text, m, c) == PassResult(Cells(c.prev, o.state), o.spans)
  {
  }

  /** The rule pass followed by the headline pass, as the two calls
      leave the cells and the spans. */
  lemma SingleLineCalls(m: Matcher, t: Texts, s0: seq<State>, i: nat,
                        s1: seq<State>, s2: seq<State>, f0: seq<Span>, f1: seq<Span>, f2: seq<Span>)
    requires i < |s0| && t.cur != [] && (i == 0 ==> t.prev == [])
    requires var r := AdditionalRulesPass(t.cur, m, CellsAt(s0, i));
             s1 == s0[i := r.cells.cur] && f1 == f0 + r.spans
    requires |s1| == |s0|
    requires var h := HeadlinePass(t, CellsAt(s1, i));
             s2 == Write(s1, i, h.cells) && f2 == f1 + h.spans
    ensures var s := SingleLinePasses(t, m, CellsAt(s0, i));
            s2 == Write(s0, i, s.cells) && f2 == f0 + s.spans
  {
    var c := CellsAt(s0, i);
    var r := AdditionalRulesPass(t.cur, m, c);
    assert s1 == Write(s0, i, r.cells);
    CellsAtWrite(s0, i, r.cells);
    var h := HeadlinePass(t, r.cells);
    HeadlinePassCells(t, r.cells);
    WriteWrite(s0, i, r.cells, h.cells);
    assert f2 == f0 + (r.spans + h.spans);
  }

  /** The comment and code calls on line i, after cells `d` were stored there. */
  lemma BlockWrites(text: string, s0: seq<State>, i: nat, d: Cells,
                    s1: seq<State>, s2: seq<State>, s3: seq<State>,
                    f1: seq<Span>, f2: seq<Span>, f3: seq<Span>)
    requires i < |s0| && (i == 0 ==> d.prev == NoState) && s1 == Write(s0, i, d)
    requires |s2| == |s0|
    requires var cm := CommentBlockPass(text, CellsAt(s1, i));
             s2 == Write(s1, i, cm.cells) && f2 == f1 + cm.spans
    requires var cd := CodeBlockPass(text, CellsAt(s2, i));
             s3 == Write(s2, i, cd.cells) && f3 == f2 + cd.spans
    ensures var cm := CommentBlockPass(text, d);
            var cd := CodeBlockPass(text, cm.cells);
            s3 == Write(s0, i, cd.cells) && f3 == f1 + cm.spans + cd.spans
  {
    CellsAtWrite(s0, i, d);
    var cm := CommentBlockPass(text, d);
    WriteWrite(s0, i, d, cm.cells);
    CellsAtWrite(s0, i, cm.cells);
    var cd := CodeBlockPass(text, cm.cells);
    WriteWrite(s0, i, cm.cells, cd.cells);
  }

  /** The comment pass followed by the code pass, as the two calls leave the cells and the spans. */
  lemma BlockCalls(m: Matcher, t: Texts, s0: seq<State>, i: nat, c: Cells,
                   s1: seq<State>, s2: seq<State>, s3: seq<State>,
                   f0: seq<Span>, f1: seq<Span>, f2: seq<Span>, f3: seq<Span>)
    requires i < |s0| && c == CellsAt(s0, i)
    requires var s := SingleLinePasses(t, m, c);
             s1 == Write(s0, i, s.cells) && f1 == f0 + s.spans
    requires |s1| == |s0| && |s2| == |s0|
    requires var cm := CommentBlockPass(t.cur, CellsAt(s1, i));
             s2 == Write(s1, i, cm.cells) && f2 == f1 + cm.spans
    requires var cd := CodeBlockPass(t.cur, CellsAt(s2, i));
             s3 == Write(s2, i, cd.cells) && f3 == f2 + cd.spans
    requires i == 0 ==> c.prev == NoState && t.prev == []
    ensures var r := MarkdownPasses(t, m, c);
            s3 == Write(s0, i, r.cells) && f3 == f0 + r.spans
  {
    var s := SingleLinePasses(t, m, c);
    if i == 0 {
      SingleLinePrevAtTop(t, m, c);
    }
    BlockWrites(t.cur, s0, i, s.cells, s1, s2, s3, f1, f2, f3);
    var cm := CommentBlockPass(t.cur, s.cells);
    var cd := CodeBlockPass(t.cur, cm.cells);
    assert f3 == f0 + (s.spans + cm.spans + cd.spans);
  }

  class MarkdownHighlighter {
    /** The text of every line of the buffer. */
    const lines: seq<string>
    /** The state cell of every line: what setCurrentBlockState and setUserState write. */
    const states: array<State>
    /** The regular-expression engine for the inline patterns. */
    const matcher: Matcher
    /** _highlightingRules */
    var rules: seq<Rule>
    /** The setFormat calls issued on the current line, in order. */
    var formats: seq<Span>

    ghost predicate Valid()
      reads this
    {
      |lines| == states.Length && rules == RuleTable()
    }

    /** Builds the ordered rule list. */
    constructor (lines: seq<string>, states: array<State>, matcher: Matcher)
      requires |lines| == states.Length
      ensures Valid() && this.lines == lines && this.states == states && this.matcher == matcher
      ensures formats == []
    {
      this.lines := lines;
      this.states := states;
      this.matcher := matcher;
      rules := RuleTable();
      formats := [];
    }

    /** highlightBlock on line i: reset the line's state, run the passes, return the spans. */
    method HighlightBlock(i: nat) returns (spans: seq<Span>)
      requires Valid() && i < |lines|
      modifies this`formats, states
      ensures Valid()
      ensures var r := Step(matcher, lines, old(states[..]), i);
              states[..] == r.states && spans == r.spans && formats == spans
    {
      formats := [];
      states[i] := NoState;
      ghost var reset := states[..];
      assert CellsAt(reset, i) == Cells(PrevStateAt(old(states[..]), i), NoState);
      HighlightMarkdown(i);
      assert Write(reset, i, HighlightLine(TextsAt(lines, i), PrevStateAt(old(states[..]), i), matcher).cells) ==
             Write(old(states[..]), i, HighlightLine(TextsAt(lines, i), PrevStateAt(old(states[..]), i), matcher).cells);
      spans := formats;
    }

    /** highlightMarkdown: the rule and headline passes on a non-empty line, then the comment
        and code passes. */
    method HighlightMarkdown(i: nat)
      requires Valid() && i < |lines|
      modifies this`formats, states
      ensures Valid()
      ensures var r := MarkdownPasses(TextsAt(lines, i), matcher, CellsAt(old(states[..]), i));
              states[..] == Write(old(states[..]), i, r.cells) && formats == old(formats) + r.spans
    {
      ghost var s0, f0 := states[..], formats;
      var text := lines[i];
      if text != "" {
        HighlightAdditionalRules(i);
        ghost var s1, f1 := states[..], formats;
        HighlightHeadline(i);
        RulesPassOfList(rules, text, matcher, CellsAt(s0, i));
        SingleLineCalls(matcher, TextsAt(lines, i), s0, i, s1, states[..], f0, f1, formats);
      }
      ghost var s1, f1 := states[..], formats;
      HighlightCommentBlock(i);
      ghost var s2, f2 := states[..], formats;
      HighlightCodeBlock(i);
      BlockCalls(matcher, TextsAt(lines, i), s0, i, CellsAt(s0, i), s1, s2, states[..], f0, f1, f2, formats);
    }

    /** highlightAdditionalRules: every rule of the list in order, formatting each of its
        matches; with the constructor's list this is AdditionalRulesPass. */
    method HighlightAdditionalRules(i: nat)
      requires |lines| == states.Length && i < |lines|
      modifies this`formats, states
      ensures var r := ApplyRules(rules, lines[i], matcher, old(states[i]));
              states[..] == old(states[..])[i := r.state] && formats == old(formats) + r.spans
    {
      var text := lines[i];
      ghost var st0 := states[i];
      var k := 0;
      while k < |rules|
        invariant 0 <= k <= |rules|
        invariant states[..] == old(states[..])[i := ApplyRules(rules[..k], text, matcher, st0).state]
        invariant formats == old(formats) + ApplyRules(rules[..k], text, matcher, st0).spans
      {
        var rule := rules[k];
        ghost var before := ApplyRules(rules[..k], text, matcher, st0);
        ghost var step := RuleStep(rule, MatchesOf(rule.pattern, text, matcher), before.state);
        ApplyRulesSnoc(rules, k, text, matcher, st0);
        if !(rule.disableIfCurrentStateIsSet && states[i] != NoState) {
          var found := MatchesOf(rule.pattern, text, matcher);
          if found != [] && rule.useStateAsCurrentBlockState {
            states[i] := rule.state;
          }
          var j := 0;
          ghost var f0 := formats;
          while j < |found|
            modifies this`formats
            invariant 0 <= j <= |found|
            invariant formats == f0 + SpansOf(found[..j], rule.state)
          {
            SpansOfSnoc(found, j, rule.state);
            formats := formats + [Span(found[j].start, found[j].length, rule.state)];
            j := j + 1;
          }
          assert found[..|found|] == found;
        }
        assert states[..] == old(states[..])[i := step.state];
        assert formats == old(formats) + (before.spans + step.spans);
        k := k + 1;
      }
      assert rules[..|rules|] == rules;
    }

    /** highlightHeadline */
    method HighlightHeadline(i: nat)
      requires Valid() && i < |lines|
      modifies this`formats, states
      ensures Valid()
      ensures var r := HeadlinePass(TextsAt(lines, i), CellsAt(old(states[..]), i));
              states[..] == Write(old(states[..]), i, r.cells) && formats == old(formats) + r.spans
    {
      var text := lines[i];
      ghost var t, c := TextsAt(lines, i), CellsAt(states[..], i);
      ghost var s0 := states[..];
      var atx := AtxLevel(text);
      if atx.Some? {
        var count := Min(atx.value, 6);
        var state := HeadlineState(count);
        assert HeadlinePass(t, c) == PassResult(Cells(c.prev, state), [Span(0, |text|, state)]);
        formats := formats + [Span(0, |text|, state)];
        states[i] := state;
        WriteUpdates(s0, i, state, c.prev);
        return;
      }
      var previousText := if i > 0 then lines[i - 1] else "";
      var previousState := if i > 0 then states[i - 1] else NoState;
      assert previousText == t.prev && previousState == c.prev;
      if IsRunOf(text, '=') {
        if (previousState == H1 || previousState == NoState) && |previousText| > 0 {
          assert HeadlinePass(t, c) == PassResult(Cells(H1, HeadlineEnd), [Span(0, |text|, H1)]);
          formats := formats + [Span(0, |text|, H1)];
          states[i] := HeadlineEnd;
          states[i - 1] := H1;
          WriteUpdates(s0, i, HeadlineEnd, H1);
        } else {
          assert HeadlinePass(t, c) == PassResult(c, []);
          WriteUpdates(s0, i, c.cur, c.prev);
        }
        return;
      }
      if IsRunOf(text, '-') {
        if (previousState == H2 || previousState == NoState) && |previousText| > 0 {
          assert HeadlinePass(t, c) == PassResult(Cells(H2, HeadlineEnd), [Span(0, |text|, H2)]);
          formats := formats + [Span(0, |text|, H2)];
          states[i] := HeadlineEnd;
          states[i - 1] := H2;
          WriteUpdates(s0, i, HeadlineEnd, H2);
        } else {
          assert HeadlinePass(t, c) == PassResult(c, []);
          WriteUpdates(s0, i, c.cur, c.prev);
        }
        return;
      }
      var nextText := if i + 1 < |lines| then lines[i + 1] else "";
      assert nextText == t.next;
      assert HeadlinePass(t, c) ==
             if IsRunOf(nextText, '-') then PassResult(Cells(c.prev, H2), [Span(0, |text|, H1), Span(0, |text|, H2)])
             else if IsRunOf(nextText, '=') then PassResult(Cells(c.prev, H1), [Span(0, |text|, H1)])
             else PassResult(c, []);
      if IsRunOf(nextText, '=') || IsRunOf(nextText, '-') {
        formats := formats + [Span(0, |text|, H1)];
        states[i] := H1;
      }
      if IsRunOf(nextText, '-') {
        formats := formats + [Span(0, |text|, H2)];
        states[i] := H2;
      }
      WriteUpdates(s0, i, states[i], c.prev);
    }

    /** highlightCommentBlock */
    method HighlightCommentBlock(i: nat)
      requires Valid() && i < |lines|
      modifies this`formats, states
      ensures Valid()
      ensures var r := CommentBlockPass(lines[i], CellsAt(old(states[..]), i));
              states[..] == Write(old(states[..]), i, r.cells) && formats == old(formats) + r.spans
    {
      var text := lines[i];
      var previousState := if i > 0 then states[i - 1] else NoState;
      var highlight := false;
      if text == "<!--" || (text != "-->" && previousState == Comment) {
        states[i] := Comment;
        highlight := true;
      } else if text == "-->" {
        highlight := true;
      }
      if highlight {
        formats := formats + [Span(0, |text|, Comment)];
      }
    }

    /** highlightCodeBlock */
    method HighlightCodeBlock(i: nat)
      requires Valid() && i < |lines|
      modifies this`formats, states
      ensures Valid()
      ensures var r := CodeBlockPass(lines[i], CellsAt(old(states[..]), i));
              states[..] == Write(old(states[..]), i, r.cells) && formats == old(formats) + r.spans
    {
      var text := lines[i];
      var previousState := if i > 0 then states[i - 1] else NoState;
      var highlight := false;
      if IsFence(text) {
        states[i] := if previousState == CodeBlock then CodeBlockEnd else CodeBlock;
        highlight := true;
      } else if previousState == CodeBlock {
        states[i] := CodeBlock;
        highlight := true;
      }
      if highlight {
        formats := formats + [Span(0, |text|, CodeBlock)];
      }
    }
  }
}
