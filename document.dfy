/**
 * The buffer as the host editor presents it: a sequence of line texts and one state cell per
 * line. Step is one highlightBlock call on line i; Run is the host highlighting lines 0..n-1
 * in order, as it does on a fresh document.
 */
module Document {
  import opened States
  import opened Patterns
  import opened Rules
  import opened Passes

  /** The text of line k, or the empty text past either edge of the buffer. */
  function TextAt(lines: seq<string>, k: int): string {
    if 0 <= k < |lines| then lines[k] else ""
  }

  function TextsAt(lines: seq<string>, i: nat): Texts
    requires i < |lines|
  {
    Texts(TextAt(lines, i - 1), lines[i], TextAt(lines, i + 1))
  }

  /** previousBlockState(): NoState above the first line. */
  function PrevStateAt(states: seq<State>, i: nat): State
    requires i < |states|
  {
    if i > 0 then states[i - 1] else NoState
  }

  function CellsAt(states: seq<State>, i: nat): Cells
    requires i < |states|
  {
    Cells(PrevStateAt(states, i), states[i])
  }

  /** Store the two cells back; a write above the first line goes nowhere. */
  function Write(states: seq<State>, i: nat, c: Cells): (r: seq<State>)
    requires i < |states|
    ensures |r| == |states| && r[i] == c.cur && (i > 0 ==> r[i - 1] == c.prev)
    ensures forall k | 0 <= k < |states| && k != i && k + 1 != i :: r[k] == states[k]
  {
    (if i > 0 then states[i - 1 := c.prev] else states)[i := c.cur]
  }

  lemma CellsAtWrite(states: seq<State>, i: nat, c: Cells)
    requires i < |states| && (i == 0 ==> c.prev == NoState)
    ensures CellsAt(Write(states, i, c), i) == c
  {
  }

  lemma WriteWrite(states: seq<State>, i: nat, c: Cells, d: Cells)
    requires i < |states|
    ensures Write(Write(states, i, c), i, d) == Write(states, i, d)
  {
  }

  lemma WriteCellsAt(states: seq<State>, i: nat)
    requires i < |states|
    ensures Write(states, i, CellsAt(states, i)) == states
  {
  }

  /** Write as the array updates the passes issue: the current cell alone, or the current cell
      and then the one above. */
  lemma WriteUpdates(states: seq<State>, i: nat, cur: State, prev: State)
    requires i < |states|
    ensures Write(states, i, Cells(PrevStateAt(states, i), cur)) == states[i := cur]
    ensures i > 0 ==> Write(states, i, Cells(prev, cur)) == states[i := cur][i - 1 := prev]
  {
  }

  datatype StepResult = StepResult(states: seq<State>, spans: seq<Span>)

  /** What highlightBlock does to one line: from the texts and the previous line's state, the two
      cells and the spans. */
  type LineFn = (Texts, State) -> PassResult

  /** The passes of highlightBlock with the matcher `m`. */
  function LineOf(m: Matcher): LineFn
  {
    (t: Texts, prev: State) => HighlightLine(t, prev, m)
  }

  /** Line function `f` on line i of the buffer. */
  function StepWith(f: LineFn, lines: seq<string>, states: seq<State>, i: nat): (r: StepResult)
    requires |lines| == |states| && i < |lines|
    ensures |r.states| == |states|
  {
    var e := f(TextsAt(lines, i), PrevStateAt(states, i));
    StepResult(Write(states, i, e.cells), e.spans)
  }

  /** Line function `f` on lines 0, 1, ..., n - 1 in order. */
  function RunWith(f: LineFn, lines: seq<string>, states: seq<State>, n: nat): (r: seq<State>)
    requires |lines| == |states| && n <= |lines|
    ensures |r| == |states|
  {
    if n == 0 then states else StepWith(f, lines, RunWith(f, lines, states, n - 1), n - 1).states
  }

  /** highlightBlock on line i of the buffer. */
  function Step(m: Matcher, lines: seq<string>, states: seq<State>, i: nat): StepResult
    requires |lines| == |states| && i < |lines|
  {
    StepWith(LineOf(m), lines, states, i)
  }

  /** Highlighting lines 0, 1, ..., n - 1 in order, as the host does on a fresh document. */
  function Run(m: Matcher, lines: seq<string>, states: seq<State>, n: nat): seq<State>
    requires |lines| == |states| && n <= |lines|
  {
    RunWith(LineOf(m), lines, states, n)
  }

  // ---- the per-line rules the document properties rest on ----

  /** The previous line's cell is written only from NoState to H1 or H2. */
  ghost predicate PrevCellRule(f: LineFn) {
    forall t: Texts, p: State ::
      f(t, p).cells.prev == p || (p == NoState && (f(t, p).cells.prev == H1 || f(t, p).cells.prev == H2))
  }

  /** The code pass, which runs last, decides CodeBlock and CodeBlockEnd from the fence and the
      previous line's state alone. */
  ghost predicate FenceRule(f: LineFn) {
    forall t: Texts, p: State ::
      (f(t, p).cells.cur == CodeBlock <==> IsFence(t.cur) != (p == CodeBlock)) &&
      (f(t, p).cells.cur == CodeBlockEnd <==> IsFence(t.cur) && p == CodeBlock)
  }

  /** Off a fence and outside a code block, the comment pass decides Comment from the markers and
      the previous line's state, and formats each line it touches whole as its last span. */
  ghost predicate CommentRule(f: LineFn) {
    forall t: Texts, p: State | !IsFence(t.cur) && p != CodeBlock ::
      (f(t, p).cells.cur == Comment <==> t.cur == "<!--" || (t.cur != "-->" && p == Comment)) &&
      (t.cur == "<!--" || t.cur == "-->" || p == Comment ==>
         f(t, p).spans != [] && f(t, p).spans[|f(t, p).spans| - 1] == Span(0, |t.cur|, Comment))
  }

  /** The passes of highlightBlock obey all three rules. */
  lemma LineRules(m: Matcher)
    ensures PrevCellRule(LineOf(m)) && FenceRule(LineOf(m)) && CommentRule(LineOf(m))
  {
    forall t: Texts, p: State
      ensures LineOf(m)(t, p).cells.prev == p ||
              (p == NoState && (LineOf(m)(t, p).cells.prev == H1 || LineOf(m)(t, p).cells.prev == H2))
    {
      PrevCellChange(t, p, m);
    }
    forall t: Texts, p: State
      ensures (LineOf(m)(t, p).cells.cur == CodeBlock <==> IsFence(t.cur) != (p == CodeBlock)) &&
              (LineOf(m)(t, p).cells.cur == CodeBlockEnd <==> IsFence(t.cur) && p == CodeBlock)
    {
      CodeBlockToggle(t, p, m);
    }
    forall t: Texts, p: State | !IsFence(t.cur) && p != CodeBlock
      ensures var e := LineOf(m)(t, p);
              (e.cells.cur == Comment <==> t.cur == "<!--" || (t.cur != "-->" && p == Comment)) &&
              (t.cur == "<!--" || t.cur == "-->" || p == Comment ==>
                 e.spans != [] && e.spans[|e.spans| - 1] == Span(0, |t.cur|, Comment))
    {
      CommentToggle(t, p, m);
    }
  }

  // ---- one call ----

  /** Highlighting line i changes no cell but line i's and line i - 1's, and line i - 1's only
      from NoState to H1 (under a line of `=`) or H2 (under a line of `-`). */
  lemma StepFrame(m: Matcher, lines: seq<string>, states: seq<State>, i: nat)
    requires |lines| == |states| && i < |lines|
    ensures var r := Step(m, lines, states, i).states;
            (forall k | 0 <= k < |states| && k != i && k != i - 1 :: r[k] == states[k]) &&
            (i > 0 && r[i - 1] != states[i - 1] ==>
               states[i - 1] == NoState &&
               ((r[i - 1] == H1 && IsRunOf(lines[i], '=')) || (r[i - 1] == H2 && IsRunOf(lines[i], '-'))))
  {
    PrevCellChange(TextsAt(lines, i), PrevStateAt(states, i), m);
  }

  /** The old state of line i is never read: highlightBlock resets it first. */
  lemma StepIgnoresOwnState(m: Matcher, lines: seq<string>, states: seq<State>, i: nat, x: State)
    requires |lines| == |states| && i < |lines|
    ensures Step(m, lines, states[i := x], i) == Step(m, lines, states, i)
  {
    assert PrevStateAt(states[i := x], i) == PrevStateAt(states, i);
    var e := HighlightLine(TextsAt(lines, i), PrevStateAt(states, i), m);
    assert Write(states[i := x], i, e.cells) == Write(states, i, e.cells);
  }

  /** Highlighting a line twice is highlighting it once: same states, same spans. */
  lemma StepIdempotent(m: Matcher, lines: seq<string>, states: seq<State>, i: nat)
    requires |lines| == |states| && i < |lines|
    ensures var r := Step(m, lines, states, i);
            Step(m, lines, r.states, i) == r
  {
    var t := TextsAt(lines, i);
    var prev := PrevStateAt(states, i);
    var e := HighlightLine(t, prev, m);
    var r := Step(m, lines, states, i);
    HighlightLineStable(t, prev, m);
    assert PrevStateAt(r.states, i) == e.cells.prev;
    assert Write(r.states, i, e.cells) == r.states;
  }

  // ---- code blocks over a document ----

  /** The number of fence lines. */
  function FenceCount(lines: seq<string>): nat
  {
    if lines == [] then 0
    else FenceCount(lines[..|lines| - 1]) + (if IsFence(lines[|lines| - 1]) then 1 else 0)
  }

  /** Line k is CodeBlock exactly after an odd number of fences up to and including it, and
      CodeBlockEnd exactly when it is a fence closing an odd number of fences before it. */
  predicate CodeStateAgrees(lines: seq<string>, states: seq<State>, k: nat)
    requires k < |lines| && k < |states|
  {
    (states[k] == CodeBlock <==> FenceCount(lines[..k + 1]) % 2 == 1) &&
    (states[k] == CodeBlockEnd <==> IsFence(lines[k]) && FenceCount(lines[..k]) % 2 == 1)
  }

  /** Extending the prefix by line i adds one fence when line i is one. */
  lemma FenceCountSnoc(lines: seq<string>, i: nat)
    requires i < |lines|
    ensures FenceCount(lines[..i + 1]) == FenceCount(lines[..i]) + (if IsFence(lines[i]) then 1 else 0)
  {
    assert lines[..i + 1][..i] == lines[..i];
  }

  /** The cell above line i is CodeBlock exactly after an odd number of fences above line i. */
  lemma PrevCodeState(lines: seq<string>, states: seq<State>, i: nat)
    requires |lines| == |states| && i < |lines|
    requires i > 0 ==> CodeStateAgrees(lines, states, i - 1)
    ensures PrevStateAt(states, i) == CodeBlock <==> FenceCount(lines[..i]) % 2 == 1
  {
    if i == 0 {
      assert lines[..0] == [];
    }
  }

  /** Storing cells whose current state follows the fence rule makes line i agree. */
  lemma CodeWrite(lines: seq<string>, states: seq<State>, i: nat, c: Cells)
    requires |lines| == |states| && i < |lines|
    requires i > 0 ==> CodeStateAgrees(lines, states, i - 1)
    requires var prev := PrevStateAt(states, i);
             (c.cur == CodeBlock <==> IsFence(lines[i]) != (prev == CodeBlock)) &&
             (c.cur == CodeBlockEnd <==> IsFence(lines[i]) && prev == CodeBlock)
    ensures CodeStateAgrees(lines, Write(states, i, c), i)
  {
    PrevCodeState(lines, states, i);
    FenceCountSnoc(lines, i);
  }

  /** One call on line i, after lines 0..i-1 agree, makes lines 0..i agree. */
  lemma CodeStepWith(f: LineFn, lines: seq<string>, states: seq<State>, i: nat)
    requires PrevCellRule(f) && FenceRule(f)
    requires |lines| == |states| && i < |lines|
    requires forall k | 0 <= k < i :: CodeStateAgrees(lines, states, k)
    ensures forall k | 0 <= k <= i :: CodeStateAgrees(lines, StepWith(f, lines, states, i).states, k)
  {
    var prev := PrevStateAt(states, i);
    var e := f(TextsAt(lines, i), prev);
    assert e.cells.prev == prev || (prev == NoState && (e.cells.prev == H1 || e.cells.prev == H2));
    assert (e.cells.cur == CodeBlock <==> IsFence(lines[i]) != (prev == CodeBlock)) &&
           (e.cells.cur == CodeBlockEnd <==> IsFence(lines[i]) && prev == CodeBlock);
    CodeWrite(lines, states, i, e.cells);
    var r := Write(states, i, e.cells);
    forall k | 0 <= k < i ensures CodeStateAgrees(lines, r, k) {
      assert CodeStateAgrees(lines, states, k);
    }
  }

  /** For any line function obeying the previous-cell and fence rules, after lines 0..n-1 are
      highlighted in order every one of them agrees with the fence count. */
  lemma {:induction false} FenceParityWith(f: LineFn, lines: seq<string>, states: seq<State>, n: nat)
    requires PrevCellRule(f) && FenceRule(f)
    requires |lines| == |states| && n <= |lines|
    ensures forall k | 0 <= k < n :: CodeStateAgrees(lines, RunWith(f, lines, states, n), k)
  {
    if n > 0 {
      FenceParityWith(f, lines, states, n - 1);
      CodeStepWith(f, lines, RunWith(f, lines, states, n - 1), n - 1);
    }
  }

  /** After lines 0..n-1 are highlighted in order, a line is inside a code block exactly when an
      odd number of fences precede it or it is itself an opening fence: a block stays open until
      the next fence, and an unterminated block runs to the last line highlighted. */
  lemma FenceParity(m: Matcher, lines: seq<string>, states: seq<State>, n: nat)
    requires |lines| == |states| && n <= |lines|
    ensures forall k | 0 <= k < n :: CodeStateAgrees(lines, Run(m, lines, states, n), k)
  {
    LineRules(m);
    FenceParityWith(LineOf(m), lines, states, n);
  }

  lemma {:induction false} FenceCountNone(lines: seq<string>)
    requires forall k | 0 <= k < |lines| :: !IsFence(lines[k])
    ensures FenceCount(lines) == 0
    decreases |lines|
  {
    if lines != [] {
      FenceCountNone(lines[..|lines| - 1]);
    }
  }

  /** Without fences no line is CodeBlock. */
  lemma NoCodeWithoutFences(f: LineFn, lines: seq<string>, states: seq<State>, n: nat)
    requires PrevCellRule(f) && FenceRule(f)
    requires |lines| == |states| && n < |lines|
    requires forall k | 0 <= k < n :: !IsFence(lines[k])
    ensures PrevStateAt(RunWith(f, lines, states, n), n) != CodeBlock
  {
    if n > 0 {
      FenceParityWith(f, lines, states, n);
      assert CodeStateAgrees(lines, RunWith(f, lines, states, n), n - 1);
      assert lines[..n][..n] == lines[..n];
      FenceCountNone(lines[..n]);
    }
  }

  // ---- block comments over a document ----

  /** Line k lies between a start marker at or above it and any end marker: the start marker is
      at line j <= k and no line after j up to k is the end marker. */
  ghost predicate InComment(lines: seq<string>, k: nat)
    requires k < |lines|
  {
    exists j | 0 <= j <= k :: lines[j] == "<!--" && NoEndBetween(lines, j, k)
  }

  /** No line after j up to k is the end marker. */
  predicate NoEndBetween(lines: seq<string>, j: nat, k: nat)
    requires k < |lines|
  {
    forall q | j < q <= k :: lines[q] != "-->"
  }

  /** The comment window, one line at a time. */
  lemma InCommentStep(lines: seq<string>, k: nat)
    requires k < |lines|
    ensures InComment(lines, k) <==>
            lines[k] == "<!--" || (lines[k] != "-->" && k > 0 && InComment(lines, k - 1))
  {
    if InComment(lines, k) && lines[k] != "<!--" {
      var j :| 0 <= j <= k && lines[j] == "<!--" && NoEndBetween(lines, j, k);
      assert j < k;
      assert NoEndBetween(lines, j, k - 1);
    }
    if lines[k] != "<!--" && lines[k] != "-->" && k > 0 && InComment(lines, k - 1) {
      var j :| 0 <= j <= k - 1 && lines[j] == "<!--" && NoEndBetween(lines, j, k - 1);
      assert NoEndBetween(lines, j, k);
    }
    if lines[k] == "<!--" {
      assert NoEndBetween(lines, k, k);
    }
  }

  /** One call on a line that is not a fence and not inside a code block, after lines 0..i-1
      agree with the comment window, makes lines 0..i agree. */
  lemma CommentStepWith(f: LineFn, lines: seq<string>, states: seq<State>, i: nat)
    requires PrevCellRule(f) && CommentRule(f)
    requires |lines| == |states| && i < |lines|
    requires !IsFence(lines[i]) && PrevStateAt(states, i) != CodeBlock
    requires forall k | 0 <= k < i :: states[k] == Comment <==> InComment(lines, k)
    ensures forall k | 0 <= k <= i :: StepWith(f, lines, states, i).states[k] == Comment <==> InComment(lines, k)
  {
    var t, prev := TextsAt(lines, i), PrevStateAt(states, i);
    var e := f(t, prev);
    assert e.cells.prev == prev || (prev == NoState && (e.cells.prev == H1 || e.cells.prev == H2));
    assert e.cells.cur == Comment <==> t.cur == "<!--" || (t.cur != "-->" && prev == Comment);
    InCommentStep(lines, i);
  }

  /** Highlighting line i of a document without fences above it keeps the comment window. */
  lemma CommentWindowStep(f: LineFn, lines: seq<string>, states: seq<State>, i: nat)
    requires PrevCellRule(f) && FenceRule(f) && CommentRule(f)
    requires |lines| == |states| && i < |lines|
    requires forall k | 0 <= k <= i :: !IsFence(lines[k])
    requires forall k | 0 <= k < i :: RunWith(f, lines, states, i)[k] == Comment <==> InComment(lines, k)
    ensures forall k | 0 <= k <= i :: RunWith(f, lines, states, i + 1)[k] == Comment <==> InComment(lines, k)
  {
    NoCodeWithoutFences(f, lines, states, i);
    CommentStepWith(f, lines, RunWith(f, lines, states, i), i);
  }

  /** For any line function obeying the three rules, in a document without fences, after lines
      0..n-1 are highlighted in order a line is Comment exactly when it lies in a comment window. */
  lemma {:induction false} CommentWindowWith(f: LineFn, lines: seq<string>, states: seq<State>, n: nat)
    requires PrevCellRule(f) && FenceRule(f) && CommentRule(f)
    requires |lines| == |states| && n <= |lines|
    requires forall k | 0 <= k < n :: !IsFence(lines[k])
    ensures forall k | 0 <= k < n :: RunWith(f, lines, states, n)[k] == Comment <==> InComment(lines, k)
  {
    if n > 0 {
      CommentWindowWith(f, lines, states, n - 1);
      CommentWindowStep(f, lines, states, n - 1);
    }
  }

  /** In a document without fences, after lines 0..n-1 are highlighted in order, a line is
      Comment exactly when it lies in a comment window. */
  lemma CommentWindow(m: Matcher, lines: seq<string>, states: seq<State>, n: nat)
    requires |lines| == |states| && n <= |lines|
    requires forall k | 0 <= k < n :: !IsFence(lines[k])
    ensures forall k | 0 <= k < n :: Run(m, lines, states, n)[k] == Comment <==> InComment(lines, k)
  {
    LineRules(m);
    CommentWindowWith(LineOf(m), lines, states, n);
  }

  // ---- worked documents ----

  lemma ThreeLineFence(f: LineFn, lines: seq<string>, states: seq<State>)
    requires PrevCellRule(f) && FenceRule(f)
    requires |lines| == |states| == 3
    requires IsFence(lines[0]) && !IsFence(lines[1]) && IsFence(lines[2])
    ensures RunWith(f, lines, states, 3) == [CodeBlock, CodeBlock, CodeBlockEnd]
  {
    FenceParityWith(f, lines, states, 3);
    var r := RunWith(f, lines, states, 3);
    assert lines[..1][..0] == [] && lines[..2][..1] == lines[..1] && lines[..3][..2] == lines[..2];
    assert FenceCount(lines[..1]) == 1;
    assert FenceCount(lines[..2]) == 1;
    assert FenceCount(lines[..3]) == 2;
    assert CodeStateAgrees(lines, r, 0) && CodeStateAgrees(lines, r, 1) && CodeStateAgrees(lines, r, 2);
  }

  lemma TwoLineFence(f: LineFn, lines: seq<string>, states: seq<State>)
    requires PrevCellRule(f) && FenceRule(f)
    requires |lines| == |states| == 2
    requires IsFence(lines[0]) && !IsFence(lines[1])
    ensures RunWith(f, lines, states, 2) == [CodeBlock, CodeBlock]
  {
    FenceParityWith(f, lines, states, 2);
    var r := RunWith(f, lines, states, 2);
    assert lines[..1][..0] == [] && lines[..2][..1] == lines[..1];
    assert FenceCount(lines[..1]) == 1;
    assert FenceCount(lines[..2]) == 1;
    assert CodeStateAgrees(lines, r, 0) && CodeStateAgrees(lines, r, 1);
  }

  lemma FenceLines()
    ensures IsFence("```") && !IsFence("code")
  {
    assert "```"[..3] == "```";
    assert "code"[0] != '`';
  }

  /** A fenced block: opening fence, body, closing fence. */
  lemma FencedBlock(m: Matcher, states: seq<State>)
    requires |states| == 3
    ensures Run(m, ["```", "code", "```"], states, 3) == [CodeBlock, CodeBlock, CodeBlockEnd]
  {
    FenceLines();
    LineRules(m);
    ThreeLineFence(LineOf(m), ["```", "code", "```"], states);
  }

  /** An unterminated fence runs to the end of the buffer. */
  lemma UnterminatedFence(m: Matcher, states: seq<State>)
    requires |states| == 2
    ensures Run(m, ["```", "code"], states, 2) == [CodeBlock, CodeBlock]
  {
    FenceLines();
    LineRules(m);
    TwoLineFence(LineOf(m), ["```", "code"], states);
  }

  /** Line k of a document without fences, once lines 0..k-1 are highlighted: when it is a
      comment marker or its line above is Comment, its last span formats it whole as Comment. */
  lemma CommentLineSpan(f: LineFn, lines: seq<string>, states: seq<State>, k: nat)
    requires PrevCellRule(f) && FenceRule(f) && CommentRule(f)
    requires |lines| == |states| && k < |lines|
    requires forall q | 0 <= q <= k :: !IsFence(lines[q])
    requires lines[k] == "<!--" || lines[k] == "-->" || PrevStateAt(RunWith(f, lines, states, k), k) == Comment
    ensures var sp := StepWith(f, lines, RunWith(f, lines, states, k), k).spans;
            sp != [] && sp[|sp| - 1] == Span(0, |lines[k]|, Comment)
  {
    NoCodeWithoutFences(f, lines, states, k);
    var t, prev := TextsAt(lines, k), PrevStateAt(RunWith(f, lines, states, k), k);
    assert !IsFence(t.cur) && prev != CodeBlock;
  }

  /** The comment window of the three lines "<!--", a body line and "-->". */
  lemma ThreeLineWindow(lines: seq<string>)
    requires |lines| == 3 && lines[0] == "<!--" && lines[1] != "-->" && lines[2] == "-->"
    ensures InComment(lines, 0) && InComment(lines, 1) && !InComment(lines, 2)
  {
    InCommentStep(lines, 0);
    InCommentStep(lines, 1);
    InCommentStep(lines, 2);
  }

  /** Three lines: the start marker, a body line and the end marker, none of them a fence. */
  predicate CommentBlockLines(lines: seq<string>, states: seq<State>)
  {
    |lines| == |states| == 3 &&
    lines[0] == "<!--" && lines[1] != "-->" && lines[2] == "-->" &&
    !IsFence(lines[0]) && !IsFence(lines[1]) && !IsFence(lines[2])
  }

  lemma ThreeLineCommentStates(f: LineFn, lines: seq<string>, states: seq<State>)
    requires PrevCellRule(f) && FenceRule(f) && CommentRule(f)
    requires CommentBlockLines(lines, states)
    ensures var r := RunWith(f, lines, states, 3);
            r[0] == Comment && r[1] == Comment && r[2] != Comment
  {
    CommentWindowWith(f, lines, states, 3);
    ThreeLineWindow(lines);
  }

  lemma ThreeLineCommentSpan(f: LineFn, lines: seq<string>, states: seq<State>, k: nat)
    requires PrevCellRule(f) && FenceRule(f) && CommentRule(f)
    requires CommentBlockLines(lines, states) && k < 3
    ensures var sp := StepWith(f, lines, RunWith(f, lines, states, k), k).spans;
            sp != [] && sp[|sp| - 1] == Span(0, |lines[k]|, Comment)
  {
    if k == 1 {
      CommentWindowWith(f, lines, states, 1);
      ThreeLineWindow(lines);
    }
    CommentLineSpan(f, lines, states, k);
  }

  lemma ThreeLineComment(f: LineFn, lines: seq<string>, states: seq<State>)
    requires PrevCellRule(f) && FenceRule(f) && CommentRule(f)
    requires CommentBlockLines(lines, states)
    ensures var r := RunWith(f, lines, states, 3);
            r[0] == Comment && r[1] == Comment && r[2] != Comment &&
            forall k | 0 <= k < 3 ::
              var sp := StepWith(f, lines, RunWith(f, lines, states, k), k).spans;
              sp != [] && sp[|sp| - 1] == Span(0, |lines[k]|, Comment)
  {
    ThreeLineCommentStates(f, lines, states);
    forall k | 0 <= k < 3
      ensures var sp := StepWith(f, lines, RunWith(f, lines, states, k), k).spans;
              sp != [] && sp[|sp| - 1] == Span(0, |lines[k]|, Comment)
    {
      ThreeLineCommentSpan(f, lines, states, k);
    }
  }

  lemma CommentLines(states: seq<State>)
    requires |states| == 3
    ensures CommentBlockLines(["<!--", "hidden", "-->"], states)
  {
    var lines := ["<!--", "hidden", "-->"];
    assert lines[0][..3][0] != '`' && lines[1][..3][0] != '`' && lines[2][..3][0] != '`';
  }

  /** A block comment: both markers and the line between are formatted whole as Comment; the
      start line and the line between are Comment, the end marker is not. */
  lemma BlockComment(m: Matcher, states: seq<State>)
    requires |states| == 3
    ensures var lines := ["<!--", "hidden", "-->"];
            var r := Run(m, lines, states, 3);
            r[0] == Comment && r[1] == Comment && r[2] != Comment &&
            forall k | 0 <= k < 3 ::
              var sp := Step(m, lines, Run(m, lines, states, k), k).spans;
              sp != [] && sp[|sp| - 1] == Span(0, |lines[k]|, Comment)
  {
    CommentLines(states);
    LineRules(m);
    ThreeLineComment(LineOf(m), ["<!--", "hidden", "-->"], states);
  }

  lemma ListThenIndented(m: Matcher, lines: seq<string>, states: seq<State>)
    requires |lines| == |states| == 2
    requires IsListItem(lines[0]) && AtxLevel(lines[0]).None? && !IsRunOf(lines[0], '=') && !IsRunOf(lines[0], '-')
    requires !IsFence(lines[0]) && lines[0] != "<!--"
    requires !IsRunOf(lines[1], '=') && !IsRunOf(lines[1], '-')
    requires IsIndentedCode(lines[1]) && !IsListItem(lines[1])
    ensures var r := Run(m, lines, states, 1);
            r[0] == List && Span(0, |lines[1]|, CodeBlock) in Step(m, lines, r, 1).spans
  {
    ListItemLine(TextsAt(lines, 0), NoState, m);
    var r := Run(m, lines, states, 1);
    IndentedCodeLine(TextsAt(lines, 1), PrevStateAt(r, 1), m);
  }

  lemma ListItemText()
    ensures IsListItem("- a") && AtxLevel("- a").None? && !IsRunOf("- a", '=') && !IsRunOf("- a", '-')
    ensures !IsFence("- a") && "- a" != "<!--"
  {
    var first := "- a";
    assert !IsSpace(first[0]) && first[1] == ' ';
    assert LeadingRun(first, Spaces) == 0;
    assert LeadingRun(first, Hashes) == 0;
    assert first[..3][0] != '`';
  }

  lemma IndentedText()
    ensures !IsRunOf("    item", '=') && !IsRunOf("    item", '-')
    ensures IsIndentedCode("    item") && !IsListItem("    item")
  {
    var code := "    item";
    assert code[0] == ' ';
    assert !IsSpace(code[4]);
    assert LeadingRun(code, Spaces) == 4;
    assert code[..4] == "    ";
  }

  /** The indented-code rule reads only the line's own state, which highlightBlock has just reset:
      an indented line under a list item is still formatted as CodeBlock. */
  lemma IndentedLineUnderListItem(m: Matcher, states: seq<State>)
    requires |states| == 2
    ensures var lines := ["- a", "    item"];
            var r := Run(m, lines, states, 1);
            r[0] == List && Span(0, 8, CodeBlock) in Step(m, lines, r, 1).spans
  {
    ListItemText();
    IndentedText();
    ListThenIndented(m, ["- a", "    item"], states);
  }
}
