/** The marker block in AGENTS.md (`rule_sync_agents_md` and `rule_insert_agents_md_block` in db/db_agent_rules.py). */
module AgentsMd {
  import opened Wrappers
  import opened Text

  const MARKER_START := "<!-- CALLWARDEN_RULES_START -->"
  const MARKER_END := "<!-- CALLWARDEN_RULES_END -->"
  const MARKER_BLOCK_HINT := "<!-- 自动同步区域，请通过 cw rule sync 更新，不要手改 -->"
  const HEADING := "\n\n## Call Warden 自动沉淀规则\n\n"

  /******* Occurrences *******/

  predicate OccursAt(s: string, pat: string, i: int) {
    0 <= i && i + |pat| <= |s| && s[i..i + |pat|] == pat
  }

  ghost predicate Occurs(s: string, pat: string) {
    exists i :: OccursAt(s, pat, i)
  }

  /** `s.find(pat)` */
  function Find(s: string, pat: string): (i: int)
    ensures i < 0 ==> i == -1 && !Occurs(s, pat)
    ensures i >= 0 ==> OccursAt(s, pat, i) && forall k :: 0 <= k < i ==> !OccursAt(s, pat, k)
  {
    FindFrom(s, pat, 0)
  }

  function FindFrom(s: string, pat: string, from: nat): (i: int)
    requires from <= |s| + 1
    requires forall k :: 0 <= k < from ==> !OccursAt(s, pat, k)
    ensures i < 0 ==> i == -1 && !Occurs(s, pat)
    ensures i >= 0 ==> OccursAt(s, pat, i) && forall k :: 0 <= k < i ==> !OccursAt(s, pat, k)
    decreases |s| + 1 - from
  {
    if from > |s| then -1
    else if OccursAt(s, pat, from) then from
    else FindFrom(s, pat, from + 1)
  }

  lemma FindIs(s: string, pat: string, i: nat)
    requires OccursAt(s, pat, i) && forall k :: 0 <= k < i ==> !OccursAt(s, pat, k)
    ensures Find(s, pat) == i
  {
  }

  predicate NotInside(s: string, c: char) {
    forall i :: 0 < i < |s| ==> s[i] != c
  }

  /** Both markers start with the only '<' they contain and stay on one line. */
  predicate IsMarker(pat: string) {
    pat != "" && pat[0] == '<' && NotInside(pat, '<') && Without(pat, '\n')
  }

  /** Without its first character in s, a pattern does not occur in s. */
  lemma NotWithoutFirst(s: string, pat: string)
    requires pat != "" && Without(s, pat[0])
    ensures !Occurs(s, pat)
  {
    forall i ensures !OccursAt(s, pat, i) {
      assert 0 <= i && i + |pat| <= |s| ==> s[i..i + |pat|][0] == s[i];
    }
  }

  /** If the first character of a pattern is only at the start of s, the pattern can only occur there. */
  lemma OnlyAtStart(s: string, pat: string, k: nat)
    requires pat != "" && s != "" && NotInside(s, pat[0])
    requires k < |pat| && (k >= |s| || s[k] != pat[k])
    ensures !Occurs(s, pat)
  {
    forall i ensures !OccursAt(s, pat, i) {
      if 0 <= i && i + |pat| <= |s| {
        assert s[i..i + |pat|][0] == s[i];
        assert s[i..i + |pat|][k] == s[i + k];
      }
    }
  }

  lemma OneAngleInStart()
    ensures NotInside(MARKER_START, '<')
  {
  }

  lemma StartOnOneLine()
    ensures Without(MARKER_START, '\n')
  {
  }

  lemma EndOnOneLine()
    ensures Without(MARKER_END, '\n')
  {
  }

  lemma OneAngleInEnd()
    ensures NotInside(MARKER_END, '<')
  {
  }

  lemma OneAngleInHint()
    ensures NotInside(MARKER_BLOCK_HINT, '<')
  {
  }

  lemma NoAngleInHeading()
    ensures Without(HEADING, '<')
  {
  }

  lemma NoEndInStart()
    ensures !Occurs(MARKER_START, MARKER_END)
  {
    OneAngleInStart();
    OnlyAtStart(MARKER_START, MARKER_END, 22);
  }

  lemma NoEndInHint()
    ensures !Occurs(MARKER_BLOCK_HINT, MARKER_END)
  {
    OneAngleInHint();
    OnlyAtStart(MARKER_BLOCK_HINT, MARKER_END, 5);
  }

  lemma StartIsMarker()
    ensures IsMarker(MARKER_START)
  {
    StartOnOneLine();
    OneAngleInStart();
  }

  lemma EndIsMarker()
    ensures IsMarker(MARKER_END)
  {
    EndOnOneLine();
    OneAngleInEnd();
  }

  lemma MarkersAreMarkers()
    ensures IsMarker(MARKER_START) && IsMarker(MARKER_END)
    ensures !Occurs(MARKER_START, MARKER_END) && !Occurs(MARKER_BLOCK_HINT, MARKER_END)
    ensures !Occurs(HEADING, MARKER_START) && !Occurs(HEADING, MARKER_END)
  {
    StartIsMarker();
    EndIsMarker();
    NoEndInStart();
    NoEndInHint();
    NoAngleInHeading();
    NotWithoutFirst(HEADING, MARKER_START);
    NotWithoutFirst(HEADING, MARKER_END);
  }

  lemma InPrefix(a: string, b: string, pat: string, i: int)
    requires i + |pat| <= |a|
    ensures OccursAt(a + b, pat, i) <==> OccursAt(a, pat, i)
  {
    if 0 <= i {
      assert (a + b)[i..i + |pat|] == a[i..i + |pat|];
    }
  }

  lemma InSuffix(a: string, b: string, pat: string, i: int)
    requires i >= |a|
    ensures OccursAt(a + b, pat, i) <==> OccursAt(b, pat, i - |a|)
  {
    if i + |pat| <= |a| + |b| {
      assert (a + b)[i..i + |pat|] == b[i - |a|..i - |a| + |pat|];
    }
  }

  lemma Straddling(a: string, b: string, pat: string, i: nat)
    requires IsMarker(pat) && b != "" && (b[0] == '<' || b[0] == '\n')
    requires i < |a| < i + |pat| <= |a| + |b|
    ensures !OccursAt(a + b, pat, i)
  {
    var k := |a| - i;
    assert (a + b)[i..i + |pat|][k] == b[0];
  }

  /** A marker never begins in a and ends behind it, when what follows a starts with '<' or a line end. */
  lemma NoStraddling(a: string, b: string, pat: string, i: int)
    requires IsMarker(pat) && b != "" && (b[0] == '<' || b[0] == '\n')
    requires OccursAt(a + b, pat, i) && i < |a|
    ensures OccursAt(a, pat, i)
  {
    if i + |pat| > |a| {
      Straddling(a, b, pat, i);
    } else {
      InPrefix(a, b, pat, i);
    }
  }

  /** A marker occurs in joined lines exactly when it occurs in one of them. */
  lemma {:induction false} OccursInLines(lines: seq<string>, pat: string)
    requires IsMarker(pat) && lines != []
    ensures Occurs(Join(lines, '\n'), pat) <==> exists l :: l in lines && Occurs(l, pat)
  {
    if |lines| > 1 {
      var rest := Join(lines[1..], '\n');
      OccursInLines(lines[1..], pat);
      assert Join(lines, '\n') == lines[0] + ("\n" + rest);
      OccursOverLineEnd(lines[0], rest, pat);
    }
  }

  lemma BehindLineEnd(b: string, pat: string, i: nat)
    requires IsMarker(pat) && OccursAt("\n" + b, pat, i)
    ensures i > 0 && OccursAt(b, pat, i - 1)
  {
    var s := "\n" + b;
    assert s[i..i + |pat|][0] == s[i] == '<';
    assert s[0] == '\n';
    InSuffix("\n", b, pat, i);
  }

  lemma AcrossLineEnd(a: string, b: string, pat: string, i: int)
    requires IsMarker(pat) && OccursAt(a + ("\n" + b), pat, i)
    ensures Occurs(a, pat) || Occurs(b, pat)
  {
    var tail := "\n" + b;
    if i < |a| {
      NoStraddling(a, tail, pat, i);
    } else {
      InSuffix(a, tail, pat, i);
      BehindLineEnd(b, pat, i - |a|);
    }
  }

  lemma OccursOverLineEnd(a: string, b: string, pat: string)
    requires IsMarker(pat)
    ensures Occurs(a + ("\n" + b), pat) <==> Occurs(a, pat) || Occurs(b, pat)
  {
    if i :| OccursAt(a + ("\n" + b), pat, i) {
      AcrossLineEnd(a, b, pat, i);
    }
    if i :| OccursAt(a, pat, i) {
      InPrefix(a, "\n" + b, pat, i);
    }
    if i :| OccursAt(b, pat, i) {
      InSuffix("\n", b, pat, i + 1);
      InSuffix(a, "\n" + b, pat, i + 1 + |a|);
      assert OccursAt(a + ("\n" + b), pat, i + 1 + |a|);
    }
  }

  /******* Rendering and splicing *******/

  datatype Rule = Rule(id: string, title: string, severity: string, text: string)

  function Render(r: Rule): string {
    "- [" + r.id + "] **" + r.title + "** (severity: " + r.severity + "): " + r.text
  }

  function Rendered(rules: seq<Rule>): seq<string> {
    seq(|rules|, i requires 0 <= i < |rules| => Render(rules[i]))
  }

  /** The lines of the block before the end marker. */
  function BlockLines(rules: seq<Rule>): seq<string> {
    [MARKER_START, MARKER_BLOCK_HINT] + Rendered(rules)
  }

  function Block(rules: seq<Rule>): string {
    Join(BlockLines(rules) + [MARKER_END], '\n')
  }

  /** The text after a sync with the active rules, or None if the markers are not there in order. */
  function SyncText(content: string, rules: seq<Rule>): Option<string> {
    var start, end := Find(content, MARKER_START), Find(content, MARKER_END);
    if start < 0 || end < 0 || end < start then None
    else Some(content[..start] + Block(rules) + content[end + |MARKER_END|..])
  }

  /** The text with an empty block at its end, or None if there is a start marker already. */
  function InsertBlock(content: string): Option<string> {
    if Find(content, MARKER_START) >= 0 then None
    else Some(content + (HEADING + (Block([]) + "\n")))
  }

  lemma {:induction false} JoinLast(lines: seq<string>, last: string, sep: char)
    requires lines != []
    ensures Join(lines + [last], sep) == Join(lines, sep) + ([sep] + last)
  {
    if |lines| > 1 {
      JoinLast(lines[1..], last, sep);
      assert (lines + [last])[1..] == lines[1..] + [last];
    } else {
      assert (lines + [last])[1..] == [last];
    }
  }

  /** A marker occurs in some lines and the rendered rules behind them exactly when it occurs in a rule. */
  lemma OccursInRules(first: seq<string>, rules: seq<Rule>, pat: string)
    requires IsMarker(pat) && first != [] && forall l :: l in first ==> !Occurs(l, pat)
    ensures Occurs(Join(first + Rendered(rules), '\n'), pat) <==> exists r :: r in rules && Occurs(Render(r), pat)
  {
    var lines := first + Rendered(rules);
    OccursInLines(lines, pat);
    forall r | r in rules && Occurs(Render(r), pat) ensures exists l :: l in lines && Occurs(l, pat) {
      var i :| 0 <= i < |rules| && rules[i] == r;
      assert lines[|first| + i] == Render(r);
    }
  }

  /** The block is its lines, a line end and the end marker; it starts with the start marker. */
  lemma BlockShape(rules: seq<Rule>)
    ensures var body := Join(BlockLines(rules), '\n');
            && Block(rules) == body + ("\n" + MARKER_END)
            && OccursAt(Block(rules), MARKER_START, 0)
            && (Occurs(body, MARKER_END) <==> exists r :: r in rules && Occurs(Render(r), MARKER_END))
  {
    var lines := BlockLines(rules);
    MarkersAreMarkers();
    JoinLast(lines, MARKER_END, '\n');
    OccursInRules([MARKER_START, MARKER_BLOCK_HINT], rules, MARKER_END);
    JoinStartsWithFirst(lines, '\n');
    InPrefix(Join(lines, '\n'), "\n" + MARKER_END, MARKER_START, 0);
  }

  /** The block, read line by line: between the markers and the hint each rule stands on its own line, in order. */
  lemma BlockListsRules(rules: seq<Rule>)
    requires forall r :: r in rules ==> Without(Render(r), '\n')
    ensures var lines := Split(Block(rules), '\n');
            && |lines| == |rules| + 3
            && lines[0] == MARKER_START && lines[1] == MARKER_BLOCK_HINT && lines[|rules| + 2] == MARKER_END
            && forall i :: 0 <= i < |rules| ==>
                 var r := rules[i];
                 lines[i + 2] == "- [" + r.id + "] **" + r.title + "** (severity: " + r.severity + "): " + r.text
  {
    var lines := BlockLines(rules) + [MARKER_END];
    StartOnOneLine();
    EndOnOneLine();
    HintOnOneLine();
    forall l | l in lines ensures Without(l, '\n') {
      var k :| 0 <= k < |lines| && lines[k] == l;
      assert 2 <= k < |rules| + 2 ==> l == Render(rules[k - 2]);
    }
    SplitOfJoin(lines, '\n');
  }

  lemma HintOnOneLine()
    ensures Without(MARKER_BLOCK_HINT, '\n')
  {
  }

  lemma JoinStartsWithFirst(lines: seq<string>, sep: char)
    requires lines != []
    ensures OccursAt(Join(lines, sep), lines[0], 0)
  {
    assert |lines| > 1 ==> Join(lines, sep) == lines[0] + ([sep] + Join(lines[1..], sep));
  }

  /** In a body, a line end and a marker, the marker is found at the end exactly when the body has none. */
  lemma FindAtEnd(body: string, pat: string)
    requires IsMarker(pat)
    ensures var s := body + ("\n" + pat);
            0 <= Find(s, pat) <= |s| - |pat| && (Find(s, pat) == |s| - |pat| <==> !Occurs(body, pat))
  {
    var s := body + ("\n" + pat);
    InSuffix("\n", pat, pat, 1);
    InSuffix(body, "\n" + pat, pat, |body| + 1);
    assert OccursAt(s, pat, |body| + 1);
    if i :| OccursAt(body, pat, i) {
      InPrefix(body, "\n" + pat, pat, i);
    }
    if Find(s, pat) < |body| {
      NoStraddling(body, "\n" + pat, pat, Find(s, pat));
    } else {
      InSuffix(body, "\n" + pat, pat, |body|);
      assert ("\n" + pat)[..|pat|][0] == '\n';
    }
  }

  /** The first end marker of the block is its own end exactly when no rendered rule contains one. */
  lemma EndOfBlock(rules: seq<Rule>)
    ensures var b, e := Block(rules), Find(Block(rules), MARKER_END);
            && 0 <= e <= |b| - |MARKER_END|
            && (e == |b| - |MARKER_END| <==> !exists r :: r in rules && Occurs(Render(r), MARKER_END))
  {
    BlockShape(rules);
    MarkersAreMarkers();
    FindAtEnd(Join(BlockLines(rules), '\n'), MARKER_END);
  }

  /** Where the markers are after a splice: the start marker is the block's own, the end marker the first one in it. */
  lemma MarkersAfterSplice(pre: string, rules: seq<Rule>, post: string)
    requires !Occurs(pre, MARKER_START) && !Occurs(pre, MARKER_END)
    ensures var s := pre + (Block(rules) + post);
            && Find(s, MARKER_START) == |pre|
            && Find(s, MARKER_END) == |pre| + Find(Block(rules), MARKER_END)
  {
    var b := Block(rules);
    var s := pre + (b + post);
    MarkersAreMarkers();
    BlockShape(rules);
    EndOfBlock(rules);
    assert b[0] == b[0..|MARKER_START|][0] == '<';
    forall pat, k | pat in {MARKER_START, MARKER_END} && 0 <= k < |pre| ensures !OccursAt(s, pat, k) {
      if OccursAt(s, pat, k) {
        NoStraddling(pre, b + post, pat, k);
      }
    }
    InPrefix(b, post, MARKER_START, 0);
    InSuffix(pre, b + post, MARKER_START, |pre|);
    FindIs(s, MARKER_START, |pre|);
    var e := Find(b, MARKER_END);
    forall k | |pre| <= k <= |pre| + e ensures OccursAt(s, MARKER_END, k) <==> OccursAt(b, MARKER_END, k - |pre|) {
      InPrefix(b, post, MARKER_END, k - |pre|);
      InSuffix(pre, b + post, MARKER_END, k);
    }
    FindIs(s, MARKER_END, |pre| + e);
  }

  /** The text before the first start marker has neither marker in it, if the sync goes ahead. */
  lemma TextBeforeBlock(content: string, rules: seq<Rule>)
    requires SyncText(content, rules).Some?
    ensures var pre := content[..Find(content, MARKER_START)];
            !Occurs(pre, MARKER_START) && !Occurs(pre, MARKER_END)
  {
    var start := Find(content, MARKER_START);
    assert content == content[..start] + content[start..];
    forall pat, i | pat in {MARKER_START, MARKER_END} && OccursAt(content[..start], pat, i) ensures false {
      InPrefix(content[..start], content[start..], pat, i);
    }
  }

  /**
   A sync rewrites only the text from the first start marker through the first end marker, and
   the next sync finds its start marker in the same place.
   */
  lemma SyncKeepsTheRest(content: string, rules: seq<Rule>)
    requires SyncText(content, rules).Some?
    ensures var start, rest := Find(content, MARKER_START), content[Find(content, MARKER_END) + |MARKER_END|..];
            var after := SyncText(content, rules).value;
            && after[..start] == content[..start]
            && |after| == start + |Block(rules)| + |rest| && after[|after| - |rest|..] == rest
            && Find(after, MARKER_START) == start
  {
    var start, rest := Find(content, MARKER_START), content[Find(content, MARKER_END) + |MARKER_END|..];
    TextBeforeBlock(content, rules);
    MarkersAfterSplice(content[..start], rules, rest);
    assert content[..start] + Block(rules) + rest == content[..start] + (Block(rules) + rest);
  }

  /** Syncing twice gives the same text as once exactly when no rendered rule contains the end marker. */
  lemma SyncIsIdempotent(content: string, rules: seq<Rule>)
    requires SyncText(content, rules).Some?
    ensures var after := SyncText(content, rules).value;
            SyncText(after, rules) == Some(after) <==>
            !exists r :: r in rules && Occurs(Render(r), MARKER_END)
  {
    var pre, b := content[..Find(content, MARKER_START)], Block(rules);
    var post := content[Find(content, MARKER_END) + |MARKER_END|..];
    TextBeforeBlock(content, rules);
    MarkersAfterSplice(pre, rules, post);
    EndOfBlock(rules);
    var after, e := pre + (b + post), Find(b, MARKER_END) + |MARKER_END|;
    assert pre + b + post == after;
    assert after[..|pre|] == pre && after[|pre| + e..] == (b + post)[e..];
    assert |pre + b + (b + post)[e..]| == |after| + (|b| - e);
    assert e == |b| ==> (b + post)[e..] == post;
  }

  /** A heading adds no marker to a text. */
  lemma HeadingAddsNothing(content: string, pat: string)
    requires IsMarker(pat)
    ensures Occurs(content + HEADING, pat) <==> Occurs(content, pat)
  {
    NoAngleInHeading();
    assert HEADING == "\n" + HEADING[1..] && Without(HEADING[1..], '<');
    NotWithoutFirst(HEADING[1..], pat);
    OccursOverLineEnd(content, HEADING[1..], pat);
  }

  /** With an end marker in front of the block, the first end marker is in front of the first start marker. */
  lemma LoneEndStopsSync(pre: string, rules: seq<Rule>)
    requires !Occurs(pre, MARKER_START) && Occurs(pre, MARKER_END)
    ensures SyncText(pre + (Block([]) + "\n"), rules).None?
  {
    var rest := Block([]) + "\n";
    var i :| OccursAt(pre, MARKER_END, i);
    InPrefix(pre, rest, MARKER_END, i);
    MarkersAreMarkers();
    BlockShape([]);
    assert rest[0] == Block([])[0..|MARKER_START|][0] == '<';
    forall k | OccursAt(pre + rest, MARKER_START, k) ensures k >= |pre| {
      if k < |pre| {
        NoStraddling(pre, rest, MARKER_START, k);
      }
    }
  }

  /** With no marker in front of the block, a sync goes ahead and keeps what is in front. */
  lemma FreshBlockSyncs(pre: string, rules: seq<Rule>)
    requires !Occurs(pre, MARKER_START) && !Occurs(pre, MARKER_END)
    ensures var after := SyncText(pre + (Block([]) + "\n"), rules); after.Some? && pre <= after.value
  {
    var inserted := pre + (Block([]) + "\n");
    MarkersAfterSplice(pre, [], "\n");
    EndOfBlock([]);
    assert inserted[..|pre|] == pre;
  }

  /** After an insert, the next sync goes ahead exactly when the old text had no end marker either. */
  lemma InsertMakesSyncPossible(content: string, rules: seq<Rule>)
    requires InsertBlock(content).Some?
    ensures SyncText(InsertBlock(content).value, rules).Some? <==> !Occurs(content, MARKER_END)
    ensures !Occurs(content, MARKER_END) ==> content <= SyncText(InsertBlock(content).value, rules).value
  {
    var pre, inserted := content + HEADING, InsertBlock(content).value;
    MarkersAreMarkers();
    HeadingAddsNothing(content, MARKER_START);
    HeadingAddsNothing(content, MARKER_END);
    assert inserted == pre + (Block([]) + "\n");
    if Occurs(content, MARKER_END) {
      LoneEndStopsSync(pre, rules);
    } else {
      FreshBlockSyncs(pre, rules);
    }
  }
}
