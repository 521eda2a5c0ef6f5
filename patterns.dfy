/**
 * Hand-written matchers for the regular expressions the highlighter anchors at the start
 * of a line. Regex `.` is any character but a line feed and `$` is the end of the text;
 * `\s`, `\d` and `\w` are the ASCII classes of PCRE without Unicode properties.
 */
module Patterns {

  datatype Option<T> = None | Some(value: T)

  /** `\s`: space, tab, line feed, vertical tab, form feed, carriage return. */
  predicate IsSpace(c: char) {
    c == ' ' || c == '\t' || c == '\n' || c == '\r' || c as int == 0x0B || c as int == 0x0C
  }

  /** `\d` */
  predicate IsDigit(c: char) {
    '0' <= c <= '9'
  }

  /** `\w` */
  predicate IsWordChar(c: char) {
    'a' <= c <= 'z' || 'A' <= c <= 'Z' || IsDigit(c) || c == '_'
  }

  predicate IsHash(c: char) {
    c == '#'
  }

  /** `.+` can run over the whole of `s`. */
  predicate OnOneLine(s: string) {
    '\n' !in s
  }

  function Repeat(c: char, k: nat): (s: string)
    ensures |s| == k && forall j | 0 <= j < k :: s[j] == c
  {
    seq(k, _ => c)
  }

  /** The character classes a leading run is counted over. */
  datatype CharClass = Spaces | Digits | Hashes

  predicate InClass(cls: CharClass, c: char) {
    match cls
    case Spaces => IsSpace(c)
    case Digits => IsDigit(c)
    case Hashes => IsHash(c)
  }

  /** The length of the longest prefix of `s` whose characters are all in `cls`. */
  function LeadingRun(s: string, cls: CharClass): (k: nat)
    ensures k <= |s|
    ensures forall j | 0 <= j < k :: InClass(cls, s[j])
    ensures k < |s| ==> !InClass(cls, s[k])
  {
    if s != [] && InClass(cls, s[0]) then 1 + LeadingRun(s[1..], cls) else 0
  }

  /** `^(#+) .+?$`: the length of the `#` run when the line is an ATX headline. */
  function AtxLevel(text: string): Option<nat>
  {
    var k := LeadingRun(text, Hashes);
    if 1 <= k && k + 1 < |text| && text[k] == ' ' && OnOneLine(text[k + 1..]) then Some(k) else None
  }

  /** `^=+$` for `c == '='` and `^-+$` for `c == '-'`. */
  predicate IsRunOf(text: string, c: char) {
    |text| >= 1 && forall j | 0 <= j < |text| :: text[j] == c
  }

  /** ``^```\w*?$``: a code fence, three backticks and at most a word. */
  predicate IsFence(text: string) {
    |text| >= 3 && text[..3] == "```" && forall j | 3 <= j < |text| :: IsWordChar(text[j])
  }

  predicate IsBullet(c: char) {
    c == '-' || c == '*' || c == '+'
  }

  /** `^\s*[-*+]\s`: the length of the bullet-list prefix, if any. */
  function UnorderedListPrefix(text: string): Option<nat>
  {
    var j := LeadingRun(text, Spaces);
    if j + 1 < |text| && IsBullet(text[j]) && IsSpace(text[j + 1]) then Some(j + 2) else None
  }

  /** `^\s*\d\.\s`: the length of the numbered-list prefix, if any. */
  function OrderedListPrefix(text: string): Option<nat>
  {
    var j := LeadingRun(text, Spaces);
    if j + 2 < |text| && IsDigit(text[j]) && text[j + 1] == '.' && IsSpace(text[j + 2]) then Some(j + 3) else None
  }

  /** Either list rule matches the line. */
  predicate IsListItem(text: string) {
    UnorderedListPrefix(text).Some? || OrderedListPrefix(text).Some?
  }

  /** `^((\t)|( {4,})).+$`: a tab or four spaces, then at least one character. */
  predicate IsIndentedCode(text: string) {
    (|text| >= 2 && text[0] == '\t' && OnOneLine(text[1..])) ||
    (|text| >= 5 && text[..4] == "    " && OnOneLine(text[4..]))
  }

  /** `^> ` */
  predicate IsBlockQuote(text: string) {
    |text| >= 2 && text[0] == '>' && text[1] == ' '
  }

  predicate IsSchemeSeparatorAt(s: string, p: int) {
    0 <= p && p + 3 <= |s| && s[p..p + 3] == "://"
  }

  /** `^\[\d+?\]: .+://.+$`: the target line of a reference link. */
  predicate IsReferenceTarget(text: string) {
    |text| >= 1 && text[0] == '[' &&
    var k := LeadingRun(text[1..], Digits);
    k >= 1 && k + 4 <= |text| && text[k + 1..k + 4] == "]: " &&
    var rest := text[k + 4..];
    OnOneLine(rest) && exists p | 0 < p < |rest| :: p + 3 < |rest| && IsSchemeSeparatorAt(rest, p)
  }

  predicate IsRulerMark(c: char) {
    c == '*' || c == '-' || c == '_'
  }

  /** The number of `[*\-_]\s?` groups that `s` splits into exactly, if it does. */
  function RulerGroups(s: string): (r: Option<nat>)
    ensures r.Some? ==> r.value <= |s| <= 2 * r.value
  {
    if s == [] then Some(0)
    else if !IsRulerMark(s[0]) then None
    else
      var rest := if |s| >= 2 && IsSpace(s[1]) then s[2..] else s[1..];
      match RulerGroups(rest)
      case None => None
      case Some(n) => Some(n + 1)
  }

  /** `^([*\-_]\s?){3,}$` */
  predicate IsHorizontalRuler(text: string) {
    var g := RulerGroups(text);
    g.Some? && g.value >= 3
  }

  /** `^\|.+?\|$` */
  predicate IsPipeTable(text: string) {
    |text| >= 3 && text[0] == '|' && text[|text| - 1] == '|' && OnOneLine(text[1..|text| - 1])
  }

  predicate IsCellSeparatorAt(s: string, p: int) {
    0 <= p && p + 3 <= |s| && s[p..p + 3] == " | "
  }

  /** `^.+? \| .+? \| .+$`: three non-empty cells between two ` | ` separators. */
  predicate IsColumnTable(text: string) {
    OnOneLine(text) &&
    exists i, j | 0 < i < |text| && 0 < j < |text| ::
      i + 3 < j && j + 3 < |text| && IsCellSeparatorAt(text, i) && IsCellSeparatorAt(text, j)
  }

  // ---- independent characterisations of the matchers ----

  /** A `#` run, a space and a non-empty rest is an ATX headline of that level ... */
  lemma AtxLevelOfShape(k: nat, rest: string)
    requires 1 <= k && rest != [] && OnOneLine(rest)
    ensures AtxLevel(Repeat('#', k) + " " + rest) == Some(k)
  {
    var text := Repeat('#', k) + " " + rest;
    var n := LeadingRun(text, Hashes);
    assert !IsHash(text[k]);
    assert n == k;
    assert text[k + 1..] == rest;
  }

  /** ... and every ATX headline has that shape. */
  lemma AtxLevelShape(text: string)
    requires AtxLevel(text).Some?
    ensures var k := AtxLevel(text).value;
            1 <= k && text == Repeat('#', k) + " " + text[k + 1..] &&
            text[k + 1..] != [] && OnOneLine(text[k + 1..])
  {
    var k := AtxLevel(text).value;
    assert text[..k] == Repeat('#', k);
    assert text == text[..k] + [text[k]] + text[k + 1..];
  }

  /** A line made only of ruler marks splits into one group per mark. */
  lemma {:induction false} RulerGroupsOfMarks(s: string)
    requires forall j | 0 <= j < |s| :: IsRulerMark(s[j])
    ensures RulerGroups(s) == Some(|s|)
  {
    if s != [] {
      assert !IsSpace(s[0]);
      if |s| >= 2 {
        assert !IsSpace(s[1]);
      }
      RulerGroupsOfMarks(s[1..]);
    }
  }

  /** A line of three or more ruler marks, with no spaces, is a horizontal ruler. */
  lemma MarksAreRuler(text: string)
    requires |text| >= 3 && forall j | 0 <= j < |text| :: IsRulerMark(text[j])
    ensures IsHorizontalRuler(text)
  {
    RulerGroupsOfMarks(text);
  }

  /** `* * *` is a horizontal ruler too: each mark may be followed by one space. */
  lemma SpacedRuler()
    ensures IsHorizontalRuler("* * *") && RulerGroups("* * *") == Some(3)
  {
    var spaced := "* * *";
    assert spaced[2..] == "* *" && "* *"[2..] == "*";
    RulerGroupsOfMarks("*");
  }

  /** A fence is no ATX headline, list item, underline or comment marker: it starts with a backtick. */
  lemma FenceIsNotOtherLine(text: string)
    requires IsFence(text)
    ensures AtxLevel(text).None? && !IsListItem(text) && !IsRunOf(text, '=') && !IsRunOf(text, '-')
    ensures text != "<!--" && text != "-->"
  {
    assert text[0] == '`';
    assert LeadingRun(text, Hashes) == 0;
    assert LeadingRun(text, Spaces) == 0;
  }

  /** A row between pipes and a row of three cells separated by ` | `. */
  lemma TableRows()
    ensures IsPipeTable("|a|b|") && IsColumnTable("a | b | c")
  {
    var column := "a | b | c";
    assert IsCellSeparatorAt(column, 1) && IsCellSeparatorAt(column, 5) by {
      assert column[1..4] == " | " && column[5..8] == " | ";
    }
    assert "|a|b|"[1..4] == "a|b";
  }
}
