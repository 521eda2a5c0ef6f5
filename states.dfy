/** The classification values of the highlighter and the formatted spans it emits. */
module States {

  /** The highlighter's state: the value carried in a line's state cell and the tag of every span. */
  datatype State =
    | NoState
    | Link | Image | CodeBlock | CodeBlockEnd | Italic | Bold | List | Comment
    | H1 | H2 | H3 | H4 | H5 | H6 | HeadlineEnd
    | BlockQuote | HorizontalRuler | Table | InlineCodeBlock

  /** One call of setFormat: the range of the line it formats and the state whose format it uses. */
  datatype Span = Span(start: nat, length: nat, state: State)

  predicate IsHeadline(s: State) {
    s.H1? || s.H2? || s.H3? || s.H4? || s.H5? || s.H6?
  }

  function HeadlineLevel(s: State): (level: nat)
    requires IsHeadline(s)
    ensures 1 <= level <= 6
  {
    match s
    case H1 => 1
    case H2 => 2
    case H3 => 3
    case H4 => 4
    case H5 => 5
    case H6 => 6
  }

  /** `H1 + level - 1`: the headline states are contiguous, H1 first. */
  function HeadlineState(level: nat): (s: State)
    requires 1 <= level <= 6
    ensures IsHeadline(s) && HeadlineLevel(s) == level
  {
    if level == 1 then H1
    else if level == 2 then H2
    else if level == 3 then H3
    else if level == 4 then H4
    else if level == 5 then H5
    else H6
  }
}
