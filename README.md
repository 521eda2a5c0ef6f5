# Markdown highlighter: per-line classification

This project models the core of `MarkdownHighlighter`, the Qt syntax highlighter for Markdown.
The editor calls `highlightBlock` on one line (a block) at a time. The highlighter resets the
line's state, then runs four passes over the line's text:

- the rule table built by the constructor, which only runs on a non-empty line;
- the headline detector, for ATX `#` headlines and Setext `=`/`-` underlines and lookahead,
  which also only runs on a non-empty line;
- the comment block detector (`<!--` … `-->`);
- the fenced-code detector (three backticks).

Each pass issues `setFormat` calls and writes state cells. A pass writes the current line's cell
and, at a Setext underline, the previous line's cell. It reads the previous line's state
(`previousBlockState`) and the texts of the neighbouring lines.

The project has six modules:

- `States`: the highlighter states and the formatted spans (one per `setFormat` call).
- `Patterns`: hand-written matchers for the anchored regular expressions. Regex `.` is any
  character but a line feed, `$` is the end of the text, and `\s`, `\d`, `\w` are the ASCII
  classes.
- `Rules`: the constructor's rule table and its evaluator. The evaluator is a fold over the
  rules with an abstract search (pattern → matches).
- `Passes`: one function per pass, and `HighlightLine` for the whole of `highlightBlock` on
  one line. The per-line properties are the lemmas.
- `Document`: the buffer as line texts plus one state cell per line.
  - `Step` is one `highlightBlock` call.
  - `Run` highlights lines top to bottom, as the editor does on a fresh document.
  - Document-level properties, such as fence parity and comment windows, are proved for any
    line function that obeys three per-line rules. `LineRules` shows that `highlightBlock`
    obeys them.
- `Highlighter`: the class `MarkdownHighlighter`.
  - The line texts are a sequence the class only reads.
  - The state cells are an array it shares with the editor.
  - The `setFormat` calls are collected in `formats`.
  - Each method mirrors the C++ function of the same name with loops and array writes. It is
    proved to leave the array and `formats` as the pass function of `Passes` says.

One state cell per line models both `setCurrentBlockState` and `previousBlock.setUserState`.
In Qt, `setCurrentBlockState(s)` stores `s` as the current block's user state, and
`previousBlockState()` reads the previous block's user state, so all of these calls read and
write the same per-line cell. Above the first line and below the last one, a missing neighbour
has the empty text, and the state above the first line is `NoState`.

## Model

| member | source | states |
|---|---|---|
| States.HeadlineState | markdownhighlighter.cpp:276-280 | a level 1..6 gives the headline state of that level (`H1 + count - 1`) |
| Patterns.LeadingRun | markdownhighlighter.cpp:269-274 | the length of the longest prefix of one character class: all before it are in the class, the next one is not |
| Patterns.AtxLevelOfShape | markdownhighlighter.cpp:269-274 | any run of k ≥ 1 `#`, a space and a non-empty one-line rest matches `^(#+) .+?$` with a captured run of length k |
| Patterns.AtxLevelShape | markdownhighlighter.cpp:269-274 | conversely, every line that matches has exactly that shape |
| Patterns.RulerGroupsOfMarks | markdownhighlighter.cpp:118-121 | a line of only `*`, `-`, `_` splits into one `[*\-_]\s?` group per character, so three or more of them form a horizontal ruler |
| Patterns.MarksAreRuler | markdownhighlighter.cpp:118-121 | a line of three or more `*`, `-`, `_` is a horizontal ruler |
| Patterns.SpacedRuler | markdownhighlighter.cpp:118-121 | `* * *` splits into three groups, each mark followed by one space, and is a horizontal ruler |
| Patterns.FenceIsNotOtherLine | markdownhighlighter.cpp:365-368 | a fence line is never an ATX headline, a list item, a `=`/`-` underline or a comment marker |
| Patterns.TableRows | markdownhighlighter.cpp:123-129 | sample rows match the pipe-table and the three-cell table patterns |
| Rules.LineMatch | markdownhighlighter.cpp:64-129 | an anchored pattern's single match is non-empty and inside the line |
| Rules.MatchesOf | markdownhighlighter.cpp:421-422 | globalMatch gives non-empty matches inside the line, left to right, not overlapping; an anchored pattern gives at most one, at column 0 |
| Rules.FoldAppend | markdownhighlighter.cpp:413-436 | running rules `a + b` is running `a`, then `b` from `a`'s final state, with the spans concatenated |
| Rules.FoldStateSource | markdownhighlighter.cpp:424-428 | the final line state is the initial one or the state of a rule with useStateAsCurrentBlockState whose pattern matched |
| Rules.FoldKeepsState | markdownhighlighter.cpp:424-428 | rules without useStateAsCurrentBlockState never change the line state |
| Rules.RuleStepSpans | markdownhighlighter.cpp:416-435 | one rule's spans lie in the line and carry that rule's state |
| Rules.FoldSpans | markdownhighlighter.cpp:413-436 | every span of the loop lies in the line, is non-empty and carries the state of one of the rules |
| Rules.ApplyRulesSpans | markdownhighlighter.cpp:412-436 | the same for the real search of a line |
| Rules.FoldAvoids | markdownhighlighter.cpp:431-435 | a state no rule carries never appears on a span |
| Rules.FoldSingle | markdownhighlighter.cpp:413-436 | a one-rule list is one iteration of the loop |
| Rules.FoldPair | markdownhighlighter.cpp:413-436 | a two-rule list is two iterations |
| Rules.ApplyRulesSnoc | markdownhighlighter.cpp:413-436 | one more rule is one more iteration on the state and spans so far |
| Rules.SpansOfSnoc | markdownhighlighter.cpp:431-435 | one more match is one more setFormat call with the rule's state |
| Rules.RuleTableFlags | markdownhighlighter.cpp:39-129 | the constructor builds 17 rules; only the two list rules (8th, 9th) set the state, only the indented-code rule (11th) is skipped when a state is set, and only it formats as CodeBlock |
| Rules.FoldIncludesRule | markdownhighlighter.cpp:413-435 | every match of a rule without disableIfCurrentStateIsSet is formatted with the rule's state |
| Rules.InlineRulesKeep | markdownhighlighter.cpp:39-72 | the emphasis, link and reference rules keep the state and format nothing as CodeBlock |
| Rules.ListRulesState | markdownhighlighter.cpp:74-83 | from NoState the list rules end as List exactly when one of them matched |
| Rules.LeadRulesFold | markdownhighlighter.cpp:39-89 | the rules before indented code end as List exactly when a list rule matched, with no CodeBlock span |
| Rules.IndentedCodeStep | markdownhighlighter.cpp:91-97 | the indented-code rule formats its match as CodeBlock only when the line state is still NoState, and never changes the state |
| Rules.TailRulesFold | markdownhighlighter.cpp:99-129 | the rules after indented code keep the state and format nothing as CodeBlock |
| Rules.RuleTableSections | markdownhighlighter.cpp:413-436 | the whole table is the three sections in order |
| Rules.CodeSpansBetween | markdownhighlighter.cpp:431-435 | around spans that are not CodeBlock, some span is CodeBlock exactly when the middle matches are non-empty, and each middle match is formatted |
| Rules.RuleTableFold | markdownhighlighter.cpp:74-97 | from NoState the table ends as List exactly when a list rule matched; there is a CodeBlock span exactly when no list rule matched and indented code did, and then every indented match is formatted |
| Rules.RuleTableTables | markdownhighlighter.cpp:123-129 | every match of either table rule is formatted as Table, from any state |
| Rules.RuleTableRulers | markdownhighlighter.cpp:118-121 | every match of the horizontal-ruler rule is formatted as HorizontalRuler, from any state |
| Rules.LineSearchFacts | markdownhighlighter.cpp:74-97 | on a line, a list rule matches exactly for a list item, and indented code matches the whole line exactly when it is indented |
| Rules.RuleTableOutcome | markdownhighlighter.cpp:74-97 | on a line from NoState, the state is List exactly for a list item; some span is CodeBlock exactly for an indented line that is not a list item, and then the whole line is |
| Rules.IndentedListItem | markdownhighlighter.cpp:91-97 | an indented list item `    - x` becomes List and gets no CodeBlock span |
| Rules.TableRowSpan | markdownhighlighter.cpp:123-129 | a table row is formatted whole as Table, whatever the state |
| Rules.RulerRowSpan | markdownhighlighter.cpp:118-121 | a horizontal ruler is formatted whole as HorizontalRuler, whatever the state |
| Passes.AtxHeadline | markdownhighlighter.cpp:268-287 | k `#`, a space and text: the line becomes H(min(k, 6)), formatted whole, the previous cell untouched, whatever the neighbours |
| Passes.SetextUnderline | markdownhighlighter.cpp:289-336 | a line of `=` (of `-`) under a non-empty line whose state is H1 (H2) or NoState is formatted whole as H1 (H2), gets HeadlineEnd and sets the previous cell to H1 (H2); otherwise nothing changes |
| Passes.UnderlineUnderBlankLine | markdownhighlighter.cpp:292-300 | the previous text is tested untrimmed: a `==` under a line of two blanks still ends a Setext headline |
| Passes.SetextLookahead | markdownhighlighter.cpp:338-354 | any other line becomes H2 over a `-` line, else H1 over a `=` line, else keeps its state; every span is the whole line, the last one with the final state; there are spans exactly over an underline |
| Passes.HeadlinePassCells | markdownhighlighter.cpp:268-355 | the headline pass writes the previous cell only at an underline, from NoState to H1 or H2 under a non-empty line, and leaves the current cell alone or makes it a headline state or HeadlineEnd |
| Passes.SingleLinePrevAtTop | markdownhighlighter.cpp:251-257 | at the first line the rule and headline passes keep the previous cell |
| Passes.SingleLinePassesCells | markdownhighlighter.cpp:251-257 | after the rule and headline passes the current cell is never Comment, CodeBlock or CodeBlockEnd, and the previous cell changed at most from NoState to H1 or H2 |
| Passes.PrevCellChange | markdownhighlighter.cpp:244-261 | highlightBlock changes the previous line's state only from NoState, to H1 under a `=` line or to H2 under a `-` line |
| Passes.CodeBlockToggle | markdownhighlighter.cpp:362-381 | a line ends as CodeBlock exactly when it is a fence outside a block or any non-fence line inside one, as CodeBlockEnd exactly when it is a fence inside one; each such line's last span formats it whole as CodeBlock; any other line keeps the comment pass's cells and gets no span from the code pass |
| Passes.FenceLine | markdownhighlighter.cpp:362-381 | a fence line keeps its previous cell and ends as CodeBlockEnd inside a block, CodeBlock outside one |
| Passes.CommentToggle | markdownhighlighter.cpp:388-405 | outside code, a line ends as Comment exactly when it is `<!--` or continues a comment without being `-->`; those lines and `-->` get a last span formatting them whole as Comment |
| Passes.PlainLine | markdownhighlighter.cpp:362-405 | a line that is no fence and no comment marker, outside code blocks and comments, is left exactly as the rule and headline passes leave it |
| Passes.EndMarkerPasses | markdownhighlighter.cpp:398-400 | on `-->` the comment pass formats and keeps the cells; the code pass then only continues an open code block |
| Passes.CommentEndKeepsState | markdownhighlighter.cpp:398-400 | the end marker is formatted as Comment but keeps the state the earlier passes gave it |
| Passes.EmptyLine | markdownhighlighter.cpp:251-261 | an empty line skips the rule and headline passes: it continues a code block or a comment, otherwise stays NoState, and all its spans are empty |
| Passes.AtxLine | markdownhighlighter.cpp:251-287 | an ATX headline outside comments and code ends in its headline state and is formatted whole |
| Passes.RulesWithinLine | markdownhighlighter.cpp:412-436 | no span of the rule pass reaches past the line |
| Passes.HeadlineWithinLine | markdownhighlighter.cpp:268-355 | no span of the headline pass reaches past the line |
| Passes.SingleLineWithinLine | markdownhighlighter.cpp:251-257 | no span of the two single-line passes reaches past the line |
| Passes.SpansInside | markdownhighlighter.cpp:244-261 | no span of highlightBlock reaches past the line |
| Passes.HighlightLineStable | markdownhighlighter.cpp:244-261 | highlighting a line again, with the previous cell the first run left, gives the same cells and spans |
| Passes.ListItemLine | markdownhighlighter.cpp:74-83 | a list item that is nothing else, outside comments and code, ends as List |
| Passes.IndentedCodeLine | markdownhighlighter.cpp:91-97 | an indented line that is no list item is formatted whole as CodeBlock, whatever the line above |
| Passes.NeverTable | markdownhighlighter.cpp:123-129 | no line ever ends with state Table |
| Passes.TableLine | markdownhighlighter.cpp:123-129 | a table row is formatted whole as Table |
| Passes.SampleTableLines | markdownhighlighter.cpp:123-129 | the sample rows of `Patterns.TableRows`, a pipe-table row and a three-cell row, are each formatted whole as Table, whatever their neighbours and previous state |
| Passes.RulerLine | markdownhighlighter.cpp:118-121 | a horizontal ruler is formatted whole as HorizontalRuler |
| Passes.MarksLine | markdownhighlighter.cpp:118-121 | a line of three or more `*`, `-`, `_` is formatted whole as HorizontalRuler |
| Document.Write | markdownhighlighter.cpp:284-285 | storing the cells sets the current line to the new current cell and the line above to the new previous cell, and no other line |
| Document.CellsAtWrite | markdownhighlighter.cpp:244-261 | the cells read back after a write are the cells written |
| Document.WriteWrite | markdownhighlighter.cpp:244-261 | a later write of the same line supersedes an earlier one |
| Document.WriteCellsAt | markdownhighlighter.cpp:244-261 | writing back the cells just read changes nothing |
| Document.WriteUpdates | markdownhighlighter.cpp:302-311 | a write is the array updates the passes issue: the current cell, then the one above |
| Document.LineRules | markdownhighlighter.cpp:244-261 | highlightBlock obeys the previous-cell rule, the fence rule and the comment rule |
| Document.StepFrame | markdownhighlighter.cpp:244-261 | highlighting line i changes no other line's state but line i-1's, and that one only from NoState to H1 under `=` or to H2 under `-` |
| Document.StepIgnoresOwnState | markdownhighlighter.cpp:245-246 | the old state of the line being highlighted is never read |
| Document.StepIdempotent | markdownhighlighter.cpp:244-249 | highlighting a line twice gives the same states and spans as highlighting it once |
| Document.FenceCountSnoc | markdownhighlighter.cpp:365-372 | one more line adds one fence exactly when it is a fence |
| Document.PrevCodeState | markdownhighlighter.cpp:370-373 | when the lines above agree, the line above is CodeBlock exactly after an odd number of fences |
| Document.CodeWrite | markdownhighlighter.cpp:362-381 | storing cells that follow the fence rule makes the line agree with the fence count |
| Document.CodeStepWith | markdownhighlighter.cpp:362-381 | one call keeps every line so far agreeing with the fence count |
| Document.FenceParityWith | markdownhighlighter.cpp:362-381 | for any line function obeying the rules, a top-to-bottom run leaves each line CodeBlock exactly after an odd number of fences up to it, and CodeBlockEnd exactly at a fence closing a block |
| Document.FenceParity | markdownhighlighter.cpp:362-381 | the same for highlightBlock: a block stays open until the next fence, and an unterminated one runs to the last line |
| Document.FenceCountNone | markdownhighlighter.cpp:365-368 | lines without fences count no fence |
| Document.NoCodeWithoutFences | markdownhighlighter.cpp:362-381 | without fences above it, no line's previous state is CodeBlock |
| Document.InCommentStep | markdownhighlighter.cpp:393-397 | a line is in a comment window exactly when it is `<!--`, or is not `-->` and the line above is in one |
| Document.CommentStepWith | markdownhighlighter.cpp:388-405 | one call off fences and code keeps every line so far Comment exactly in a comment window |
| Document.CommentWindowStep | markdownhighlighter.cpp:388-405 | the same, one line of a run at a time |
| Document.CommentWindowWith | markdownhighlighter.cpp:388-405 | for any line function obeying the rules, in a document without fences, a run leaves a line Comment exactly when it lies between a `<!--` at or above it and the next `-->` |
| Document.CommentWindow | markdownhighlighter.cpp:388-405 | the same for highlightBlock |
| Document.ThreeLineFence | markdownhighlighter.cpp:362-381 | fence, other line, fence ends as CodeBlock, CodeBlock, CodeBlockEnd |
| Document.TwoLineFence | markdownhighlighter.cpp:362-381 | fence, other line ends as CodeBlock, CodeBlock |
| Document.FenceLines | markdownhighlighter.cpp:365 | three backticks is a fence and `code` is not |
| Document.FencedBlock | markdownhighlighter.cpp:362-381 | the document "```", "code", "```" ends as CodeBlock, CodeBlock, CodeBlockEnd |
| Document.UnterminatedFence | markdownhighlighter.cpp:362-381 | an unterminated fence runs to the end of the buffer |
| Document.CommentLineSpan | markdownhighlighter.cpp:393-404 | a comment marker, or a line under a Comment line, gets a last span formatting it whole as Comment |
| Document.ThreeLineWindow | markdownhighlighter.cpp:393-397 | `<!--`, a body line, `-->`: the first two lie in the comment window, the end marker does not |
| Document.ThreeLineCommentStates | markdownhighlighter.cpp:388-405 | such a block ends as Comment, Comment, not Comment |
| Document.ThreeLineCommentSpan | markdownhighlighter.cpp:402-404 | each of its lines gets a last span formatting it whole as Comment |
| Document.ThreeLineComment | markdownhighlighter.cpp:388-405 | both together |
| Document.CommentLines | markdownhighlighter.cpp:390-391 | the lines `<!--`, `hidden`, `-->` make a comment block without fences |
| Document.BlockComment | markdownhighlighter.cpp:388-405 | the document `<!--`, `hidden`, `-->` ends as Comment, Comment, not Comment, each line formatted whole as Comment last |
| Document.ListThenIndented | markdownhighlighter.cpp:91-97 | an indented line under a list item is still formatted whole as CodeBlock |
| Document.ListItemText | markdownhighlighter.cpp:76 | `- a` is a plain list item |
| Document.IndentedText | markdownhighlighter.cpp:94 | `    item` is indented code and no list item |
| Document.IndentedLineUnderListItem | markdownhighlighter.cpp:91-97 | in the document `- a`, `    item` the first line is List and the second is formatted as CodeBlock |
| Highlighter.RulesPassOfList | markdownhighlighter.cpp:412-436 | with the constructor's list, the rule loop is the rule pass |
| Highlighter.SingleLineCalls | markdownhighlighter.cpp:252-257 | the rule call, then the headline call, leave the cells and spans of the two single-line passes |
| Highlighter.BlockWrites | markdownhighlighter.cpp:259-260 | the comment call, then the code call, compose on the stored cells |
| Highlighter.BlockCalls | markdownhighlighter.cpp:251-261 | the four calls of highlightMarkdown leave the cells and spans of the passes |
| Highlighter.MarkdownHighlighter.constructor | markdownhighlighter.cpp:35-129 | the rule list is the 17-rule table, no span is issued yet |
| Highlighter.MarkdownHighlighter.HighlightBlock | markdownhighlighter.cpp:244-249 | resetting the line and running the passes leaves exactly the states and spans of one Step |
| Highlighter.MarkdownHighlighter.HighlightMarkdown | markdownhighlighter.cpp:251-261 | the four calls leave the array and `formats` as the four passes say |
| Highlighter.MarkdownHighlighter.HighlightAdditionalRules | markdownhighlighter.cpp:412-436 | the loop over the rules and the inner loop over matches set the line's state and issue the spans of the fold over the rule list |
| Highlighter.MarkdownHighlighter.HighlightHeadline | markdownhighlighter.cpp:268-355 | the branches write the cells and issue the spans of the headline pass |
| Highlighter.MarkdownHighlighter.HighlightCommentBlock | markdownhighlighter.cpp:388-405 | the cells and spans of the comment pass |
| Highlighter.MarkdownHighlighter.HighlightCodeBlock | markdownhighlighter.cpp:362-381 | the cells and spans of the code pass |

## Left out

- initTextFormats (markdownhighlighter.cpp:141-237): fonts and colours are not modelled. A span carries the state whose format it uses.
- The `highlightingFinished` signal (markdownhighlighter.cpp:248) is not modelled. It has no effect on states or spans.
- The commented-out cursor code in the underline branches (markdownhighlighter.cpp:306-310 and 327-331) is inactive and not modelled.
- The nine unanchored patterns (emphasis, links, inline code, images, inline comments) are not matched; their matches come from the `Matcher` parameter. The only assumption about it is that its matches are non-empty, inside the line, left to right and non-overlapping. No full regular-expression engine is modelled.
- A `$` before a final line feed is not modelled. Block text holds no line break, so `$` is the end of the text.
- Qt's clipping of `setFormat` ranges is not modelled. Spans are recorded as issued, including the zero-length ones on empty lines.
- The editor's re-highlighting of following lines when a line's state changes is not modelled. `Run` is one top-to-bottom pass over a fresh document.
- The enum's ordinal values are not modelled. Only the contiguity `H1 + count - 1` is used, through `HeadlineState`.
- The QTextDocument itself is not modelled. The line texts are a sequence the highlighter only reads, and the state cells an array.
- Span offsets and lengths are counted in characters, not in the UTF-16 code units Qt uses. They differ on lines holding characters outside the Basic Multilingual Plane.

## Behaviour of the code

- markdownhighlighter.cpp:294 builds a trimmed, marker-stripped copy of the previous text and discards it; the Setext test reads the raw text (`Passes.UnderlineUnderBlankLine`).
- highlightBlock resets the line's state before the rule pass, so only a list rule on the same line suppresses the indented-code rule (markdownhighlighter.cpp:91-97), never a list item above it (`Document.IndentedLineUnderListItem`).
- The table rules (markdownhighlighter.cpp:123-129) only format; no line ends with state Table (`Passes.NeverTable`).
