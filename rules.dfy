/**
 * The rule table built by the highlighter's constructor and its generic evaluator,
 * highlightAdditionalRules: every rule is a pattern, the state whose format its matches
 * get, and the two flags that let a rule read or write the current line's state.
 */
module Rules {
  import opened States
  import opened Patterns

  /** Unanchored patterns with lazy quantifiers; their matches come from a Matcher. */
  datatype InlinePattern =
    | BoldText        // \B\*{2}.+?\*{2}\B
    | ItalicText      // (^|\s)\*[^\*]+\*($|\s)
    | Url             // <.+?://.+?>
    | UrlWithTitle    // \[.+?\]\(.+?://.+?\)
    | EmailLink       // <.+?@.+?>
    | ReferenceLink   // \[.+?\]\[\d+\]
    | InlineCode      // `.+?`
    | ImageLink       // !\[.+?\]\(.+?\)
    | InlineComment   // <!\-\-.+?\-\->

  /** Patterns anchored at the start of the line, matched by the predicates of Patterns. */
  datatype LinePattern =
    | ReferenceTarget | UnorderedList | OrderedList | IndentedCode
    | BlockQuoteMarker | HorizontalRule | PipeTable | ColumnTable

  datatype Pattern = Inline(inline: InlinePattern) | Anchored(line: LinePattern)

  /** A HighlightingRule; both flags default to false. */
  datatype Rule = Rule(
    pattern: Pattern,
    state: State,
    useStateAsCurrentBlockState: bool,
    disableIfCurrentStateIsSet: bool)

  /** One match of a global regular-expression search: capturedStart and capturedLength. */
  datatype Match = Match(start: nat, length: nat)

  /** Each match ends before the next one starts. */
  predicate LeftToRight(ms: seq<Match>) {
    |ms| < 2 || (ms[0].start + ms[0].length <= ms[1].start && LeftToRight(ms[1..]))
  }

  /** What a global search can return: non-empty matches inside the text, left to right, not overlapping. */
  predicate WellFormedMatches(text: string, ms: seq<Match>) {
    (forall k | 0 <= k < |ms| :: 0 < ms[k].length && ms[k].start + ms[k].length <= |text|) &&
    LeftToRight(ms)
  }

  /** The regular-expression engine for the inline patterns. */
  type Matcher = m: (InlinePattern, string) -> seq<Match>
    | forall p, t :: WellFormedMatches(t, m(p, t))
    witness (p: InlinePattern, t: string) => []

  /** The length of the single match of an anchored pattern, which always starts at 0. */
  function LineMatch(p: LinePattern, text: string): (r: Option<nat>)
    ensures r.Some? ==> 0 < r.value <= |text|
  {
    match p
    case UnorderedList => UnorderedListPrefix(text)
    case OrderedList => OrderedListPrefix(text)
    case BlockQuoteMarker => if IsBlockQuote(text) then Some(2) else None
    case ReferenceTarget => if IsReferenceTarget(text) then Some(|text|) else None
    case IndentedCode => if IsIndentedCode(text) then Some(|text|) else None
    case HorizontalRule => if IsHorizontalRuler(text) then Some(|text|) else None
    case PipeTable => if IsPipeTable(text) then Some(|text|) else None
    case ColumnTable => if IsColumnTable(text) then Some(|text|) else None
  }

  /** globalMatch: the matches of `p` in `text`. */
  function MatchesOf(p: Pattern, text: string, m: Matcher): (ms: seq<Match>)
    ensures WellFormedMatches(text, ms)
    ensures p.Anchored? ==> |ms| <= 1 && forall k | 0 <= k < |ms| :: ms[k].start == 0
  {
    match p
    case Inline(ip) => m(ip, text)
    case Anchored(lp) =>
      match LineMatch(lp, text)
      case None => []
      case Some(n) => [Match(0, n)]
  }

  /** The setFormat calls the inner `while (i.hasNext())` loop issues. */
  function SpansOf(ms: seq<Match>, s: State): seq<Span>
  {
    seq(|ms|, k requires 0 <= k < |ms| => Span(ms[k].start, ms[k].length, s))
  }

  /** The current line's state and the spans emitted so far. */
  datatype RulesOutcome = RulesOutcome(state: State, spans: seq<Span>)

  /** A span covers a non-empty range inside the line. */
  predicate InLine(text: string, sp: Span) {
    0 < sp.length && sp.start + sp.length <= |text|
  }

  /** `s` is the state of one of the rules. */
  predicate RuleStateIn(rules: seq<Rule>, s: State) {
    exists k | 0 <= k < |rules| :: rules[k].state == s
  }

  /** Every span lies in the line and carries the state of one of `rules`. */
  predicate SpansOfRules(text: string, spans: seq<Span>, rules: seq<Rule>) {
    forall q | 0 <= q < |spans| :: InLine(text, spans[q]) && RuleStateIn(rules, spans[q].state)
  }

  predicate Skipped(r: Rule, st: State) {
    r.disableIfCurrentStateIsSet && st != NoState
  }

  /** One iteration of the `foreach` over the rules: rule `r`, whose pattern has the matches
      `ms` in the line, reached with line state `st`. */
  function RuleStep(r: Rule, ms: seq<Match>, st: State): RulesOutcome
  {
    if Skipped(r, st) then RulesOutcome(st, [])
    else RulesOutcome(if ms != [] && r.useStateAsCurrentBlockState then r.state else st, SpansOf(ms, r.state))
  }

  /** globalMatch on one line: the matches of every pattern in it. */
  type Search = Pattern -> seq<Match>

  /** The `foreach` over `rules`, in order, starting from line state `st`. */
  function Fold(rules: seq<Rule>, search: Search, st: State): RulesOutcome
    decreases |rules|
  {
    if rules == [] then RulesOutcome(st, [])
    else
      var before := Fold(rules[..|rules| - 1], search, st);
      var r := rules[|rules| - 1];
      var step := RuleStep(r, search(r.pattern), before.state);
      RulesOutcome(step.state, before.spans + step.spans)
  }

  /** The search of `text`: anchored patterns by the predicates of Patterns, inline ones by `m`. */
  function LineSearch(text: string, m: Matcher): Search
  {
    p => MatchesOf(p, text, m)
  }

  /** The rules evaluated on `text`. */
  function ApplyRules(rules: seq<Rule>, text: string, m: Matcher, st: State): RulesOutcome
  {
    Fold(rules, LineSearch(text, m), st)
  }

  /** Every search result is a well-formed match list of `text`. */
  ghost predicate WellFormedSearch(text: string, search: Search) {
    forall p :: WellFormedMatches(text, search(p))
  }

  /** Emphasis, the four kinds of link, and reference targets: rules that only format. */
  function InlineRules(): seq<Rule>
  {
    [ Rule(Inline(BoldText), Bold, false, false),
      Rule(Inline(ItalicText), Italic, false, false),
      Rule(Inline(Url), Link, false, false),
      Rule(Inline(UrlWithTitle), Link, false, false),
      Rule(Inline(EmailLink), Link, false, false),
      Rule(Inline(ReferenceLink), Link, false, false),
      Rule(Anchored(ReferenceTarget), Comment, false, false) ]
  }

  /** The unordered and the ordered list rule, which set the line's state when they match. */
  function ListRules(): seq<Rule>
  {
    [ Rule(Anchored(UnorderedList), List, true, false),
      Rule(Anchored(OrderedList), List, true, false) ]
  }

  function InlineCodeRule(): Rule
  {
    Rule(Inline(InlineCode), InlineCodeBlock, false, false)
  }

  /** Indented code, skipped once the line's state is set. */
  function IndentedCodeRule(): Rule
  {
    Rule(Anchored(IndentedCode), CodeBlock, false, true)
  }

  /** Images, block quotes, inline comments and horizontal rulers. */
  function BlockRules(): seq<Rule>
  {
    [ Rule(Inline(ImageLink), Image, false, false),
      Rule(Anchored(BlockQuoteMarker), BlockQuote, false, false),
      Rule(Inline(InlineComment), Comment, false, false),
      Rule(Anchored(HorizontalRule), HorizontalRuler, false, false) ]
  }

  /** The two table rules. */
  function TableRules(): seq<Rule>
  {
    [ Rule(Anchored(PipeTable), Table, false, false),
      Rule(Anchored(ColumnTable), Table, false, false) ]
  }

  /** The ten rules before the indented-code rule. */
  function LeadRules(): seq<Rule>
  {
    InlineRules() + ListRules() + [InlineCodeRule()]
  }

  /** The six rules after it. */
  function TailRules(): seq<Rule>
  {
    BlockRules() + TableRules()
  }

  /** The ordered rule list of the constructor. */
  function RuleTable(): seq<Rule>
  {
    LeadRules() + [IndentedCodeRule()] + TailRules()
  }

  // ---- the evaluator ----

  lemma LineSearchWellFormed(text: string, m: Matcher)
    ensures WellFormedSearch(text, LineSearch(text, m))
  {
  }

  /** Evaluating `a + b` is evaluating `a`, then `b` from the state `a` left. */
  lemma {:induction false} FoldAppend(a: seq<Rule>, b: seq<Rule>, search: Search, st: State)
    ensures var o := Fold(a, search, st);
            var o2 := Fold(b, search, o.state);
            Fold(a + b, search, st) == RulesOutcome(o2.state, o.spans + o2.spans)
    decreases |b|
  {
    if b == [] {
      assert a + b == a;
    } else {
      var b' := b[..|b| - 1];
      assert (a + b)[..|a + b| - 1] == a + b';
      assert (a + b)[|a + b| - 1] == b[|b| - 1];
      FoldAppend(a, b', search, st);
      var o := Fold(a, search, st);
      var o2 := Fold(b', search, o.state);
      var last := b[|b| - 1];
      var step := RuleStep(last, search(last.pattern), o2.state);
      assert o.spans + o2.spans + step.spans == o.spans + (o2.spans + step.spans);
    }
  }

  /** No rule changes the state but one with useStateAsCurrentBlockState that matched. */
  lemma {:induction false} FoldStateSource(rules: seq<Rule>, search: Search, st: State)
    ensures var s := Fold(rules, search, st).state;
            s == st ||
            exists k | 0 <= k < |rules| ::
              rules[k].useStateAsCurrentBlockState && rules[k].state == s && search(rules[k].pattern) != []
    decreases |rules|
  {
    if rules != [] {
      var init := rules[..|rules| - 1];
      FoldStateSource(init, search, st);
      var s0 := Fold(init, search, st).state;
      var s := Fold(rules, search, st).state;
      if s != s0 {
        assert rules[|rules| - 1].useStateAsCurrentBlockState;
      } else if s != st {
        var k :| 0 <= k < |init| && init[k].useStateAsCurrentBlockState && init[k].state == s &&
                 search(init[k].pattern) != [];
        assert rules[k] == init[k];
      }
    }
  }

  /** Rules without useStateAsCurrentBlockState leave the state alone. */
  lemma FoldKeepsState(rules: seq<Rule>, search: Search, st: State)
    requires forall k | 0 <= k < |rules| :: !rules[k].useStateAsCurrentBlockState
    ensures Fold(rules, search, st).state == st
  {
    FoldStateSource(rules, search, st);
  }

  /** The spans of one rule's matches lie in the line and carry that rule's state. */
  lemma RuleStepSpans(r: Rule, text: string, ms: seq<Match>, st: State)
    requires WellFormedMatches(text, ms)
    ensures SpansOfRules(text, RuleStep(r, ms, st).spans, [r])
  {
    if !Skipped(r, st) {
      var sp := RuleStep(r, ms, st).spans;
      assert sp == SpansOf(ms, r.state);
      forall q | 0 <= q < |sp|
        ensures InLine(text, sp[q]) && RuleStateIn([r], sp[q].state)
      {
        assert sp[q] == Span(ms[q].start, ms[q].length, r.state);
        assert [r][0].state == sp[q].state;
      }
    }
  }

  /** Every span is a non-empty range of the line and carries the state of one of the rules. */
  lemma {:induction false} FoldSpans(rules: seq<Rule>, text: string, search: Search, st: State)
    requires WellFormedSearch(text, search)
    ensures SpansOfRules(text, Fold(rules, search, st).spans, rules)
    decreases |rules|
  {
    if rules != [] {
      var init := rules[..|rules| - 1];
      var last := rules[|rules| - 1];
      FoldSpans(init, text, search, st);
      var before := Fold(init, search, st);
      var bs := before.spans;
      assert WellFormedMatches(text, search(last.pattern));
      RuleStepSpans(last, text, search(last.pattern), before.state);
      var ss := RuleStep(last, search(last.pattern), before.state).spans;
      var sp := Fold(rules, search, st).spans;
      assert sp == bs + ss;
      forall q | 0 <= q < |sp|
        ensures InLine(text, sp[q]) && RuleStateIn(rules, sp[q].state)
      {
        if q < |bs| {
          assert sp[q] == bs[q];
          assert InLine(text, bs[q]) && RuleStateIn(init, bs[q].state);
          var k :| 0 <= k < |init| && init[k].state == bs[q].state;
          assert rules[k] == init[k];
        } else {
          assert sp[q] == ss[q - |bs|];
          assert InLine(text, ss[q - |bs|]) && RuleStateIn([last], ss[q - |bs|].state);
          assert rules[|rules| - 1].state == sp[q].state;
        }
      }
    }
  }

  /** On a line, every span is a non-empty range of it and carries the state of one of the rules. */
  lemma ApplyRulesSpans(rules: seq<Rule>, text: string, m: Matcher, st: State)
    ensures SpansOfRules(text, ApplyRules(rules, text, m, st).spans, rules)
  {
    LineSearchWellFormed(text, m);
    FoldSpans(rules, text, LineSearch(text, m), st);
  }

  /** No span carries a state that none of the rules has. */
  lemma FoldAvoids(rules: seq<Rule>, search: Search, st: State, s: State)
    requires forall k | 0 <= k < |rules| :: rules[k].state != s
    ensures var o := Fold(rules, search, st);
            forall q | 0 <= q < |o.spans| :: o.spans[q].state != s
    decreases |rules|
  {
    if rules != [] {
      var init := rules[..|rules| - 1];
      FoldAvoids(init, search, st, s);
    }
  }

  /** Evaluating one rule is one step of the loop. */
  lemma FoldSingle(r: Rule, search: Search, st: State)
    ensures Fold([r], search, st) == RuleStep(r, search(r.pattern), st)
  {
    assert [r][..0] == [];
  }

  /** Two rules in a row. */
  lemma FoldPair(r1: Rule, r2: Rule, search: Search, st: State)
    ensures var o1 := RuleStep(r1, search(r1.pattern), st);
            var o2 := RuleStep(r2, search(r2.pattern), o1.state);
            Fold([r1, r2], search, st) == RulesOutcome(o2.state, o1.spans + o2.spans)
  {
    assert [r1, r2][..1] == [r1];
    FoldSingle(r1, search, st);
  }

  /** The loop over the rules on a line, one more iteration. */
  lemma ApplyRulesSnoc(rules: seq<Rule>, k: nat, text: string, m: Matcher, st: State)
    requires k < |rules|
    ensures var before := ApplyRules(rules[..k], text, m, st);
            var step := RuleStep(rules[k], MatchesOf(rules[k].pattern, text, m), before.state);
            ApplyRules(rules[..k + 1], text, m, st) == RulesOutcome(step.state, before.spans + step.spans)
  {
    assert rules[..k + 1][..k] == rules[..k];
  }

  /** The loop over the matches, one more iteration. */
  lemma SpansOfSnoc(ms: seq<Match>, j: nat, s: State)
    requires j < |ms|
    ensures SpansOf(ms[..j + 1], s) == SpansOf(ms[..j], s) + [Span(ms[j].start, ms[j].length, s)]
  {
  }

  /** Only the two list rules carry useStateAsCurrentBlockState, only the indented-code rule
      carries disableIfCurrentStateIsSet, and the list rules come before it. */
  lemma RuleTableFlags()
    ensures var t := RuleTable();
            |t| == 17 &&
            (forall k | 0 <= k < |t| :: t[k].useStateAsCurrentBlockState <==> k == 7 || k == 8) &&
            (forall k | 0 <= k < |t| :: t[k].disableIfCurrentStateIsSet <==> k == 10) &&
            (forall k | 0 <= k < |t| :: t[k].state == CodeBlock <==> k == 10) &&
            t[7].state == List && t[8].state == List
  {
  }

  /** Every match of a rule without disableIfCurrentStateIsSet is formatted with its state. */
  lemma {:induction false} FoldIncludesRule(rules: seq<Rule>, search: Search, st: State, k: nat)
    requires k < |rules| && !rules[k].disableIfCurrentStateIsSet
    ensures var ms := search(rules[k].pattern);
            forall j | 0 <= j < |ms| :: Span(ms[j].start, ms[j].length, rules[k].state) in Fold(rules, search, st).spans
    decreases |rules|
  {
    var init := rules[..|rules| - 1];
    var last := rules[|rules| - 1];
    var before := Fold(init, search, st);
    var step := RuleStep(last, search(last.pattern), before.state);
    var all := Fold(rules, search, st).spans;
    assert all == before.spans + step.spans;
    var ms := search(rules[k].pattern);
    if k == |rules| - 1 {
      forall j | 0 <= j < |ms| ensures Span(ms[j].start, ms[j].length, rules[k].state) in all {
        assert step.spans[j] == Span(ms[j].start, ms[j].length, rules[k].state);
        assert all[|before.spans| + j] == step.spans[j];
      }
    } else {
      assert init[k] == rules[k];
      FoldIncludesRule(init, search, st, k);
      forall j | 0 <= j < |ms| ensures Span(ms[j].start, ms[j].length, rules[k].state) in all {
        var sp := Span(ms[j].start, ms[j].length, rules[k].state);
        assert sp in before.spans;
        var q :| 0 <= q < |before.spans| && before.spans[q] == sp;
        assert all[q] == sp;
      }
    }
  }

  // ---- the rule table, for any search ----

  /** One of the two list patterns matched. */
  predicate ListMatched(search: Search) {
    search(Anchored(UnorderedList)) != [] || search(Anchored(OrderedList)) != []
  }

  /** The inline rules keep the state and format nothing as CodeBlock. */
  lemma InlineRulesKeep(search: Search, st: State)
    ensures var o := Fold(InlineRules(), search, st);
            o.state == st && forall q | 0 <= q < |o.spans| :: o.spans[q].state != CodeBlock
  {
    FoldKeepsState(InlineRules(), search, st);
    FoldAvoids(InlineRules(), search, st, CodeBlock);
  }

  /** The list rules set the state List exactly when a list pattern matched. */
  lemma ListRulesState(search: Search)
    ensures Fold(ListRules(), search, NoState).state == (if ListMatched(search) then List else NoState)
  {
    var l := ListRules();
    FoldPair(l[0], l[1], search, NoState);
  }

  /** Spans made of `a`, `b` and `c` in turn, none of which is CodeBlock. */
  lemma NoCodeBlockIn(a: seq<Span>, b: seq<Span>, c: seq<Span>)
    requires forall q | 0 <= q < |a| :: a[q].state != CodeBlock
    requires forall q | 0 <= q < |b| :: b[q].state != CodeBlock
    requires forall q | 0 <= q < |c| :: c[q].state != CodeBlock
    ensures var all := a + b + c;
            forall q | 0 <= q < |all| :: all[q].state != CodeBlock
  {
    var all := a + b + c;
    forall q | 0 <= q < |all| ensures all[q].state != CodeBlock {
      if q < |a| { assert all[q] == a[q]; }
      else if q < |a| + |b| { assert all[q] == b[q - |a|]; }
      else { assert all[q] == c[q - |a| - |b|]; }
    }
  }

  /** The first ten rules leave the state List exactly when a list pattern matched and format
      nothing as CodeBlock. */
  lemma LeadRulesFold(search: Search)
    ensures var o := Fold(LeadRules(), search, NoState);
            o.state == (if ListMatched(search) then List else NoState) &&
            forall q | 0 <= q < |o.spans| :: o.spans[q].state != CodeBlock
  {
    var a, l, c := InlineRules(), ListRules(), [InlineCodeRule()];
    InlineRulesKeep(search, NoState);
    ListRulesState(search);
    FoldAvoids(l, search, NoState, CodeBlock);
    var s2 := Fold(l, search, NoState).state;
    FoldSingle(InlineCodeRule(), search, s2);
    FoldAvoids(c, search, s2, CodeBlock);
    FoldAppend(a, l, search, NoState);
    FoldAppend(a + l, c, search, NoState);
    NoCodeBlockIn(Fold(a, search, NoState).spans, Fold(l, search, NoState).spans, Fold(c, search, s2).spans);
  }

  /** The last six rules keep the state and format nothing as CodeBlock. */
  lemma TailRulesFold(search: Search, st: State)
    ensures var o := Fold(TailRules(), search, st);
            o.state == st && forall q | 0 <= q < |o.spans| :: o.spans[q].state != CodeBlock
  {
    FoldKeepsState(TailRules(), search, st);
    FoldAvoids(TailRules(), search, st, CodeBlock);
  }

  /** The indented-code rule, reached with state `st`, formats its matches only when the state is not set. */
  lemma IndentedCodeStep(search: Search, st: State)
    ensures var o := Fold([IndentedCodeRule()], search, st);
            o.state == st &&
            o.spans == if st == NoState then SpansOf(search(Anchored(IndentedCode)), CodeBlock) else []
  {
    FoldSingle(IndentedCodeRule(), search, st);
  }

  /** The rule table is its three sections in turn. */
  lemma RuleTableSections(search: Search)
    ensures var o := Fold(RuleTable(), search, NoState);
            var o1 := Fold(LeadRules(), search, NoState);
            var o2 := Fold([IndentedCodeRule()], search, o1.state);
            var o3 := Fold(TailRules(), search, o2.state);
            o == RulesOutcome(o3.state, o1.spans + o2.spans + o3.spans)
  {
    var lead, code, tail := LeadRules(), [IndentedCodeRule()], TailRules();
    FoldAppend(lead, code, search, NoState);
    FoldAppend(lead + code, tail, search, NoState);
  }

  /** Spans `a + SpansOf(ms, CodeBlock) + c` where `a` and `c` hold no CodeBlock span: there is a
      CodeBlock span exactly when `ms` is not empty, and then every match of `ms` is one. */
  lemma CodeSpansBetween(a: seq<Span>, ms: seq<Match>, c: seq<Span>)
    requires forall q | 0 <= q < |a| :: a[q].state != CodeBlock
    requires forall q | 0 <= q < |c| :: c[q].state != CodeBlock
    ensures var all := a + SpansOf(ms, CodeBlock) + c;
            ((exists q | 0 <= q < |all| :: all[q].state == CodeBlock) <==> ms != []) &&
            forall j | 0 <= j < |ms| :: Span(ms[j].start, ms[j].length, CodeBlock) in all
  {
    var b := SpansOf(ms, CodeBlock);
    var all := a + b + c;
    if q :| 0 <= q < |all| && all[q].state == CodeBlock {
      assert |a| <= q < |a| + |b| && b[q - |a|] == all[q];
    }
    forall j | 0 <= j < |ms| ensures Span(ms[j].start, ms[j].length, CodeBlock) in all {
      assert all[|a| + j] == b[j];
    }
    if ms != [] {
      assert all[|a|].state == CodeBlock;
    }
  }

  /** The rule table, for any search: the state ends as List exactly when a list pattern matched;
      there is a CodeBlock span exactly when no list pattern matched and the indented-code pattern
      did, and then each of its matches is formatted as CodeBlock. */
  lemma RuleTableFold(search: Search)
    ensures var o := Fold(RuleTable(), search, NoState);
            var ms := search(Anchored(IndentedCode));
            o.state == (if ListMatched(search) then List else NoState) &&
            ((exists q | 0 <= q < |o.spans| :: o.spans[q].state == CodeBlock) <==> !ListMatched(search) && ms != []) &&
            (!ListMatched(search) ==> forall j | 0 <= j < |ms| :: Span(ms[j].start, ms[j].length, CodeBlock) in o.spans)
  {
    RuleTableSections(search);
    LeadRulesFold(search);
    var o1 := Fold(LeadRules(), search, NoState);
    IndentedCodeStep(search, o1.state);
    var o2 := Fold([IndentedCodeRule()], search, o1.state);
    TailRulesFold(search, o2.state);
    var o3 := Fold(TailRules(), search, o2.state);
    if ListMatched(search) {
      NoCodeBlockIn(o1.spans, [], o3.spans);
    } else {
      CodeSpansBetween(o1.spans, search(Anchored(IndentedCode)), o3.spans);
    }
  }

  /** Both table rules format all of their matches, whatever the state. */
  lemma RuleTableTables(search: Search, st: State)
    ensures var o := Fold(RuleTable(), search, st);
            var pipe, column := search(Anchored(PipeTable)), search(Anchored(ColumnTable));
            (forall j | 0 <= j < |pipe| :: Span(pipe[j].start, pipe[j].length, Table) in o.spans) &&
            (forall j | 0 <= j < |column| :: Span(column[j].start, column[j].length, Table) in o.spans)
  {
    var t := RuleTable();
    assert t[15] == Rule(Anchored(PipeTable), Table, false, false);
    assert t[16] == Rule(Anchored(ColumnTable), Table, false, false);
    FoldIncludesRule(t, search, st, 15);
    FoldIncludesRule(t, search, st, 16);
  }

  /** The horizontal-ruler rule formats all of its matches, whatever the state. */
  lemma RuleTableRulers(search: Search, st: State)
    ensures var o := Fold(RuleTable(), search, st);
            var ms := search(Anchored(HorizontalRule));
            forall j | 0 <= j < |ms| :: Span(ms[j].start, ms[j].length, HorizontalRuler) in o.spans
  {
    var t := RuleTable();
    assert t[14] == Rule(Anchored(HorizontalRule), HorizontalRuler, false, false);
    FoldIncludesRule(t, search, st, 14);
  }

  /** The anchored searches the rule table reads, on a line. */
  lemma LineSearchFacts(text: string, m: Matcher)
    ensures ListMatched(LineSearch(text, m)) == IsListItem(text)
    ensures LineSearch(text, m)(Anchored(IndentedCode)) == if IsIndentedCode(text) then [Match(0, |text|)] else []
  {
  }

  /** The rule pass of a line: its state ends as List exactly when a list rule matches, and the
      indented-code rule formats the whole line as CodeBlock exactly when it matches a line that
      is not a list item. */
  lemma RuleTableOutcome(text: string, m: Matcher)
    ensures var o := ApplyRules(RuleTable(), text, m, NoState);
            o.state == (if IsListItem(text) then List else NoState) &&
            ((exists q | 0 <= q < |o.spans| :: o.spans[q].state == CodeBlock) <==>
               IsIndentedCode(text) && !IsListItem(text)) &&
            (IsIndentedCode(text) && !IsListItem(text) ==> Span(0, |text|, CodeBlock) in o.spans)
  {
    var search := LineSearch(text, m);
    RuleTableFold(search);
    LineSearchFacts(text, m);
    var ms := search(Anchored(IndentedCode));
    if IsIndentedCode(text) {
      assert ms[0] == Match(0, |text|);
    }
  }

  /** `"    - x"` is a list item: it ends with state List and gets no CodeBlock span. */
  lemma IndentedListItem(m: Matcher)
    ensures var o := ApplyRules(RuleTable(), "    - x", m, NoState);
            o.state == List && forall q | 0 <= q < |o.spans| :: o.spans[q].state != CodeBlock
  {
    var text := "    - x";
    assert !IsSpace(text[4]);
    assert LeadingRun(text, Spaces) == 4;
    assert UnorderedListPrefix(text) == Some(6);
    RuleTableOutcome(text, m);
  }

  /** A line matching either table rule is formatted whole as Table, whatever the line's state:
      neither table rule carries disableIfCurrentStateIsSet. */
  lemma TableRowSpan(text: string, m: Matcher, st: State)
    requires IsPipeTable(text) || IsColumnTable(text)
    ensures Span(0, |text|, Table) in ApplyRules(RuleTable(), text, m, st).spans
  {
    var search := LineSearch(text, m);
    RuleTableTables(search, st);
    var ms := if IsPipeTable(text) then search(Anchored(PipeTable)) else search(Anchored(ColumnTable));
    assert ms == [Match(0, |text|)];
    assert ms[0] == Match(0, |text|);
  }

  /** A horizontal ruler is formatted whole as HorizontalRuler, whatever the line's state. */
  lemma RulerRowSpan(text: string, m: Matcher, st: State)
    requires IsHorizontalRuler(text)
    ensures Span(0, |text|, HorizontalRuler) in ApplyRules(RuleTable(), text, m, st).spans
  {
    var search := LineSearch(text, m);
    RuleTableRulers(search, st);
    var ms := search(Anchored(HorizontalRule));
    assert ms == [Match(0, |text|)];
    assert ms[0] == Match(0, |text|);
  }
}
