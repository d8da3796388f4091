/** One line of a .gitignore file (analyzers/ignore_spec.py). */
module IgnoreLines {
  import opened Wrappers
  import opened Text
  import opened GlobRegex

  datatype Rule = Rule(pattern: string, negation: bool, dirOnly: bool, anchored: bool)
  {
    /** The expression the fallback matcher searches for. */
    function Compiled(): Regex {
      Regex(anchored, Translate(pattern))
    }
  }

  predicate IsLineEnd(c: char) {
    c == '\r' || c == '\n'
  }

  predicate IsSlash(c: char) {
    c == '/'
  }

  predicate EndsWith(s: string, c: char) {
    s != "" && s[|s| - 1] == c
  }

  /** The text without its line end, and without the backslash or the blanks behind it. */
  function Kept(text: string): string {
    var body := TrimRight(text, IsLineEnd);
    if EndsWith(body, '\\') then body[..|body| - 1] else TrimRight(body, IsSpace)
  }

  /** The text left of a line once the blanks around it are gone as well. */
  function Stripped(line: string): string {
    Strip(Kept(line))
  }

  /** The markers of a line that is neither blank nor a comment: a negation, then the others. */
  function ParseMarkers(s1: string): Option<Rule>
    requires s1 != ""
  {
    if s1[0] == '!' then ParseRoot(s1[1..], true) else ParseRoot(s1, false)
  }

  function ParseRoot(s2: string, negation: bool): Option<Rule> {
    if s2 == "" then None
    else if s2[0] == '/' then ParseEnd(s2[1..], negation, true)
    else ParseEnd(s2, negation, false)
  }

  function ParseEnd(s3: string, negation: bool, rooted: bool): Option<Rule> {
    if s3 == "" then None else
    var dirOnly := EndsWith(s3, '/');
    var s4 := if dirOnly then TrimRight(s3, IsSlash) else s3;
    if s4 == "" then None else Some(Rule(s4, negation, dirOnly, rooted || '/' in s4))
  }

  /** `parse_ignore_line`: None for blank lines, comments and lines that are only markers. */
  function ParseIgnoreLine(line: string): Option<Rule> {
    var s0 := Stripped(line);
    if s0 == "" || s0[0] == '#' then None
    else ParseMarkers(Unescape(s0))
  }

  /** An escaped number sign or exclamation mark loses its escape. */
  function Unescape(s0: string): (s1: string)
    ensures s0 != "" ==> s1 != ""
  {
    if "\\#" <= s0 || "\\!" <= s0 then s0[1..] else s0
  }

  predicate IsCanonical(r: Option<Rule>) {
    r.Some? ==> r.value.pattern != "" && !EndsWith(r.value.pattern, '/')
                && (!r.value.anchored ==> Without(r.value.pattern, '/'))
  }

  lemma MarkersAreCanonical(s1: string)
    requires s1 != ""
    ensures IsCanonical(ParseMarkers(s1))
  {
    var s2 := if s1[0] == '!' then s1[1..] else s1;
    if s2 != "" {
      EndIsCanonical(if s2[0] == '/' then s2[1..] else s2, s1[0] == '!', s2[0] == '/');
    }
  }

  lemma EndIsCanonical(s3: string, negation: bool, rooted: bool)
    ensures IsCanonical(ParseEnd(s3, negation, rooted))
  {
  }

  /** A rule never ends in a slash, and a rule with a slash inside is anchored. */
  lemma ParsedRulesAreCanonical(line: string)
    ensures IsCanonical(ParseIgnoreLine(line))
  {
    var s0 := Stripped(line);
    if s0 != "" && s0[0] != '#' {
      MarkersAreCanonical(Unescape(s0));
    }
  }

  /** A line that says a rule: the marks in their order around the pattern. */
  function Written(r: Rule): string {
    if r.negation then "!" + WrittenPath(r) else WrittenPath(r)
  }

  function WrittenPath(r: Rule): string {
    if r.anchored && '/' !in r.pattern then "/" + WrittenEnd(r) else WrittenEnd(r)
  }

  function WrittenEnd(r: Rule): string {
    if r.dirOnly then r.pattern + "/" else r.pattern
  }

  /** A pattern that can stand in a line without being taken for something else at either end. */
  predicate PlainEnds(p: string) {
    && p != "" && !IsSpace(p[0]) && p[0] != '#' && p[0] != '!' && p[0] != '/' && p[0] != '\\'
    && !IsSpace(p[|p| - 1]) && p[|p| - 1] != '/' && p[|p| - 1] != '\\'
  }

  predicate CanBeWritten(r: Rule) {
    PlainEnds(r.pattern) && ('/' in r.pattern ==> r.anchored)
  }

  lemma WrittenEnds(r: Rule)
    requires CanBeWritten(r)
    ensures var line := Written(r);
            && line != "" && !IsSpace(line[0]) && line[0] != '#' && line[0] != '\\'
            && !IsSpace(line[|line| - 1]) && line[|line| - 1] != '\\'
  {
    var path := WrittenPath(r);
    assert path[0] == '/' || path[0] == r.pattern[0];
    assert path[|path| - 1] == '/' || path[|path| - 1] == r.pattern[|r.pattern| - 1];
    assert Written(r)[0] == '!' || Written(r) == path;
    assert Written(r)[|Written(r)| - 1] == path[|path| - 1];
  }

  lemma EndIsRead(r: Rule, rooted: bool)
    requires CanBeWritten(r) && r.anchored == (rooted || '/' in r.pattern)
    ensures ParseEnd(WrittenEnd(r), r.negation, rooted) == Some(r)
  {
    if r.dirOnly {
      TrimRightAfter(r.pattern, "/", IsSlash);
    }
  }

  lemma PathIsRead(r: Rule)
    requires CanBeWritten(r)
    ensures ParseRoot(WrittenPath(r), r.negation) == Some(r)
  {
    var rooted := r.anchored && '/' !in r.pattern;
    EndIsRead(r, rooted);
    assert rooted ==> WrittenPath(r)[1..] == WrittenEnd(r);
    assert WrittenEnd(r)[0] == r.pattern[0];
  }

  lemma MarkersAreRead(r: Rule)
    requires CanBeWritten(r)
    ensures Written(r) != "" && ParseMarkers(Written(r)) == Some(r)
  {
    PathIsRead(r);
    assert r.negation ==> Written(r)[1..] == WrittenPath(r);
    assert WrittenPath(r)[0] == '/' || WrittenPath(r)[0] == r.pattern[0];
  }

  lemma PlainLineIsKept(line: string)
    requires line != "" && !IsSpace(line[0]) && !IsSpace(line[|line| - 1])
    requires line[0] != '\\' && line[|line| - 1] != '\\'
    ensures Stripped(line) == line && Unescape(line) == line
  {
    StripKeeps(line);
    assert TrimRight(line, IsLineEnd) == line && TrimRight(line, IsSpace) == line;
  }

  /** Writing a rule down and parsing the line gives the rule back, all its marks included. */
  lemma WrittenRuleIsParsed(r: Rule)
    requires CanBeWritten(r)
    ensures ParseIgnoreLine(Written(r)) == Some(r)
  {
    WrittenEnds(r);
    PlainLineIsKept(Written(r));
    MarkersAreRead(r);
  }

  lemma {:induction false} TrimRightAfter(p: string, s: string, drop: char -> bool)
    requires p != "" && !drop(p[|p| - 1])
    ensures TrimRight(p + s, drop) == p + TrimRight(s, drop)
  {
    if s != "" {
      var t := p + s;
      assert t[..|t| - 1] == p + s[..|s| - 1];
      if drop(s[|s| - 1]) {
        TrimRightAfter(p, s[..|s| - 1], drop);
      }
    } else {
      assert p + s == p;
    }
  }

  /** What is left of the text behind a leading mark. */
  function StrippedTail(text: string): string {
    TrimRight(Kept(text), IsSpace)
  }

  /** Characters at the start of a line that no trimming of its end can take away. */
  predicate IsMark(mark: string) {
    mark != "" && var c := mark[|mark| - 1]; !IsLineEnd(c) && !IsSpace(c) && c != '\\'
  }

  lemma KeptAfterMark(mark: string, text: string)
    requires IsMark(mark)
    ensures Kept(mark + text) == mark + Kept(text)
  {
    var body := TrimRight(text, IsLineEnd);
    TrimRightAfter(mark, text, IsLineEnd);
    TrimRightAfter(mark, body, IsSpace);
    assert EndsWith(mark + body, '\\') <==> EndsWith(body, '\\');
    if EndsWith(body, '\\') {
      assert (mark + body)[..|mark + body| - 1] == mark + body[..|body| - 1];
    }
  }

  lemma StrippedAfterMark(mark: string, text: string)
    requires IsMark(mark) && !IsSpace(mark[0])
    ensures Stripped(mark + text) == mark + StrippedTail(text)
  {
    KeptAfterMark(mark, text);
    TrimRightAfter(mark, Kept(text), IsSpace);
    assert (mark + StrippedTail(text))[0] == mark[0];
  }

  /**
   An escaped exclamation mark is read as a negation: the escape is removed
   before the mark is looked for, so both spellings give the same rule.
   */
  lemma EscapedBangNegates(text: string)
    ensures ParseIgnoreLine("\\!" + text) == ParseIgnoreLine("!" + text)
  {
    StrippedAfterMark("\\!", text);
    StrippedAfterMark("!", text);
    UnescapeBang(StrippedTail(text));
  }

  lemma UnescapeBang(tail: string)
    ensures Unescape("\\!" + tail) == "!" + tail == Unescape("!" + tail)
  {
    assert "\\!" <= "\\!" + tail && ("\\!" + tail)[1..] == "!" + tail;
    assert ("!" + tail)[0] == '!' && "\\!"[0] == '\\' && "\\#"[0] == '\\';
  }

  /** A trailing backslash is meant to keep trailing blanks, but the final strip removes them all the same. */
  lemma TrailingBackslashKeepsNothing(text: string)
    requires !EndsWith(text, '\\') && !EndsWith(text, '\r') && !EndsWith(text, '\n')
    ensures ParseIgnoreLine(text + "\\") == ParseIgnoreLine(text)
  {
    assert (text + "\\")[..|text|] == text;
    assert TrimRight(text + "\\", IsLineEnd) == text + "\\";
    assert TrimRight(text, IsLineEnd) == text;
    assert TrimRight(TrimRight(text, IsSpace), IsSpace) == TrimRight(text, IsSpace);
  }

  /** A line that starts with a number sign gives no rule, whatever follows, and neither does a line of blanks. */
  lemma CommentsGiveNothing(text: string, blanks: string)
    requires forall c :: c in blanks ==> IsSpace(c)
    ensures ParseIgnoreLine("#" + text) == None && ParseIgnoreLine(blanks) == None
  {
    StrippedAfterMark("#", text);
    assert ("#" + StrippedTail(text))[0] == '#';
    BlanksAreTrimmed(blanks);
  }

  lemma BlanksAreTrimmed(blanks: string)
    requires forall c :: c in blanks ==> IsSpace(c)
    ensures Stripped(blanks) == ""
  {
    var kept := Kept(blanks);
    assert kept <= blanks;
    assert kept != "" ==> blanks[|kept| - 1] in blanks;
    OnlyBlanks(kept);
  }

  lemma {:induction false} OnlyBlanks(s: string)
    requires forall c :: c in s ==> IsSpace(c)
    ensures TrimRight(s, IsSpace) == ""
  {
    if s != "" {
      OnlyBlanks(s[..|s| - 1]);
    }
  }

  /** A character that means itself at the start of a line. */
  predicate IsPlainStart(c: char) {
    !IsSpace(c) && !IsLineEnd(c) && c != '#' && c != '!' && c != '/' && c != '\\'
  }

  lemma PlainStartIsRead(c: char, text: string)
    requires IsPlainStart(c)
    ensures ParseIgnoreLine([c] + text) == ParseEnd([c] + StrippedTail(text), false, false)
  {
    StrippedAfterMark([c], text);
    assert ([c] + StrippedTail(text))[0] == c;
    assert Unescape([c] + StrippedTail(text)) == [c] + StrippedTail(text);
  }

  /** Two rules alike but for the first character of the pattern, which is c in the first. */
  predicate DifferInStart(r: Option<Rule>, c: char, q: Option<Rule>) {
    && r.Some? && q.Some? && r.value.pattern != "" && q.value.pattern != "" && r.value.pattern[0] == c
    && r.value.pattern[1..] == q.value.pattern[1..] && r.value == q.value.(pattern := r.value.pattern)
  }

  /** An escaped number sign is read like any other character at the start of a pattern. */
  lemma EscapedSharpIsKept(text: string, c: char)
    requires IsPlainStart(c)
    ensures DifferInStart(ParseIgnoreLine("\\#" + text), '#', ParseIgnoreLine([c] + text))
  {
    var tail := StrippedTail(text);
    StrippedAfterMark("\\#", text);
    UnescapeSharp(tail);
    PlainStartIsRead(c, text);
    SameEnd('#', c, tail);
  }

  lemma UnescapeSharp(tail: string)
    ensures Unescape("\\#" + tail) == "#" + tail && ParseMarkers("#" + tail) == ParseEnd("#" + tail, false, false)
    ensures "\\#" + tail != "" && ("\\#" + tail)[0] == '\\'
  {
    assert "\\#" <= "\\#" + tail && ("\\#" + tail)[1..] == "#" + tail;
    assert ("#" + tail)[0] == '#';
  }

  lemma SameEnd(c: char, d: char, tail: string)
    requires c != '/' && d != '/'
    ensures DifferInStart(ParseEnd([c] + tail, false, false), c, ParseEnd([d] + tail, false, false))
  {
    TrimRightAfter([c], tail, IsSlash);
    TrimRightAfter([d], tail, IsSlash);
    var rest := if EndsWith(tail, '/') then TrimRight(tail, IsSlash) else tail;
    assert EndsWith([c] + tail, '/') == EndsWith(tail, '/') == EndsWith([d] + tail, '/');
    assert '/' in [c] + rest <==> '/' in rest;
    assert '/' in [d] + rest <==> '/' in rest;
    assert ([c] + rest)[1..] == rest == ([d] + rest)[1..];
  }
}
