/**
 The glob-to-regex compiler of analyzers/ignore_spec.py.

 A gitignore pattern is compiled character by character into a regular expression
 that is searched for in the text of a path. The main result reads the compiled
 expression back: on paths it accepts what segment-wise glob matching accepts.
 */
module GlobRegex {
  import opened Text

  /** One piece of the compiled expression: c, [^/], [^/]*, .* and (?:.*\/)? */
  datatype Item = Lit(c: char) | One | Stretch | Any | Dirs

  /** `anchored` chooses between the heads ^ and (?:^|/); the tail is always (?:$|/). */
  datatype Regex = Regex(anchored: bool, items: seq<Item>)

  /******* Compilation *******/

  /** The piece that the head of a pattern compiles to, and how many characters it takes. */
  datatype Head = Head(item: Item, length: nat)

  function HeadOf(p: string): (h: Head)
    requires p != ""
    ensures 0 < h.length <= |p|
  {
    if p[0] == '*' then
      if |p| > 1 && p[1] == '*' then
        if |p| > 2 && p[2] == '/' then Head(Dirs, 3) else Head(Any, 2)
      else Head(Stretch, 1)
    else if p[0] == '?' then Head(One, 1)
    else if p[0] == '\\' then
      if |p| > 1 then Head(Lit(p[1]), 2) else Head(Lit('\\'), 1)
    else Head(Lit(p[0]), 1)
  }

  function Translate(p: string): seq<Item> {
    if p == "" then [] else [HeadOf(p).item] + Translate(p[HeadOf(p).length..])
  }

  lemma TranslateAt(p: string, i: nat)
    requires i < |p|
    ensures var h := HeadOf(p[i..]); Translate(p[i..]) == [h.item] + Translate(p[i + h.length..])
  {
    assert p[i..][HeadOf(p[i..]).length..] == p[i + HeadOf(p[i..]).length..];
  }

  /** `_translate_to_regex`: the index loop appends one piece at a time. */
  method TranslateToRegex(pattern: string, anchored: bool) returns (re: Regex)
    ensures re == Regex(anchored, Translate(pattern))
  {
    var i, n := 0, |pattern|;
    var parts: seq<Item> := [];
    while i < n
      invariant 0 <= i <= n
      invariant parts + Translate(pattern[i..]) == Translate(pattern)
    {
      TranslateAt(pattern, i);
      ghost var h, done, rest := HeadOf(pattern[i..]), parts, Translate(pattern[i + HeadOf(pattern[i..]).length..]);
      assert done + ([h.item] + rest) == (done + [h.item]) + rest;
      var c := pattern[i];
      if c == '*' {
        if i + 1 < n && pattern[i + 1] == '*' {
          if i + 2 < n && pattern[i + 2] == '/' {
            parts := parts + [Dirs];
            i := i + 3;
          } else {
            parts := parts + [Any];
            i := i + 2;
          }
        } else {
          parts := parts + [Stretch];
          i := i + 1;
        }
      } else if c == '?' {
        parts := parts + [One];
        i := i + 1;
      } else if c == '/' {
        parts := parts + [Lit('/')];
        i := i + 1;
      } else if c == '\\' {
        if i + 1 < n {
          parts := parts + [Lit(pattern[i + 1])];
          i := i + 2;
        } else {
          parts := parts + [Lit('\\')];
          i := i + 1;
        }
      } else {
        parts := parts + [Lit(c)];
        i := i + 1;
      }
    }
    re := Regex(anchored, parts);
  }

  /******* What the expression matches *******/

  /** Whether the pieces, followed by (?:$|/), match at the start of t; `.` stops at a newline. */
  ghost predicate Accepts(items: seq<Item>, t: string)
    decreases items
  {
    if items == [] then t == "" || t[0] == '/' || t == "\n"
    else
      var rest := items[1..];
      match items[0]
      case Lit(c) => t != "" && t[0] == c && Accepts(rest, t[1..])
      case One => t != "" && t[0] != '/' && Accepts(rest, t[1..])
      case Stretch => exists k :: 0 <= k <= |t| && Without(t[..k], '/') && Accepts(rest, t[k..])
      case Any => exists k :: 0 <= k <= |t| && Without(t[..k], '\n') && Accepts(rest, t[k..])
      case Dirs => Accepts(rest, t) || exists k :: AfterSlash(t, k) && Accepts(rest, t[k..])
  }

  /** Position k of t follows a slash that .*\/ can reach from the start. */
  predicate AfterSlash(t: string, k: int) {
    0 < k <= |t| && t[k - 1] == '/' && Without(t[..k - 1], '\n')
  }

  /** `regex.search(s)` */
  ghost predicate Search(re: Regex, s: string) {
    if re.anchored then Accepts(re.items, s)
    else Accepts(re.items, s) || exists k :: 0 < k <= |s| && s[k - 1] == '/' && Accepts(re.items, s[k..])
  }

  /******* Segment-wise glob matching *******/

  /** A pattern segment: `**`, `**` behind which the separator is escaped, or a name with wildcards inside it. */
  datatype Seg = DoubleStar | OneOrMore | Name(text: string)

  /**
   What a name pattern means: `*` stands for any text, `?` for one character, a backslash for the
   character behind it, and everything else for itself.
   */
  ghost predicate NameGlob(p: string, name: string)
    decreases |p|
  {
    if p == "" then name == ""
    else if p[0] == '*' then exists k :: 0 <= k <= |name| && NameGlob(p[1..], name[k..])
    else if p[0] == '?' then name != "" && NameGlob(p[1..], name[1..])
    else if p[0] == '\\' && |p| > 1 then name != "" && name[0] == p[1] && NameGlob(p[2..], name[1..])
    else name != "" && name[0] == p[0] && NameGlob(p[1..], name[1..])
  }

  /** Whether compiled pieces that stay inside a segment match a whole segment. */
  ghost predicate NameMatches(items: seq<Item>, name: string)
    decreases items
  {
    if items == [] then name == ""
    else
      match items[0]
      case Lit(c) => name != "" && name[0] == c && NameMatches(items[1..], name[1..])
      case One => name != "" && NameMatches(items[1..], name[1..])
      case Stretch => exists k :: 0 <= k <= |name| && NameMatches(items[1..], name[k..])
      case _ => false
  }

  /** `**` stands for any number of segments, but for at least one at the end of the pattern and before `\/`. */
  ghost predicate GlobMatches(segs: seq<Seg>, path: seq<string>)
    decreases |segs|, |path|
  {
    if segs == [] then path == []
    else if segs == [DoubleStar] then path != []
    else
      match segs[0]
      case DoubleStar => GlobMatches(segs[1..], path) || (path != [] && GlobMatches(segs, path[1..]))
      case OneOrMore => path != [] && (GlobMatches(segs[1..], path[1..]) || GlobMatches(segs, path[1..]))
      case Name(text) => path != [] && NameGlob(text, path[0]) && GlobMatches(segs[1..], path[1..])
  }

  /** The pattern accepts the path or one of its ancestor directories. */
  ghost predicate GlobAcceptsSome(segs: seq<Seg>, path: seq<string>) {
    exists b :: 0 <= b <= |path| && GlobMatches(segs, path[..b])
  }

  /** No `**` inside a segment. */
  predicate PlainName(p: string) {
    if p == "" then true
    else if p[0] == '*' then (|p| == 1 || p[1] != '*') && PlainName(p[1..])
    else if p[0] == '\\' && |p| > 1 then PlainName(p[2..])
    else PlainName(p[1..])
  }

  /** Whether the last character is a backslash that nothing before it escapes. */
  predicate Dangling(p: string) {
    if p == "" then false
    else if p[0] == '\\' then if |p| > 1 then Dangling(p[2..]) else true
    else Dangling(p[1..])
  }

  predicate WholeSegment(p: string, last: bool) {
    p == "**" || (p == "**\\" && !last) || PlainName(p)
  }

  predicate WholeSegments(ps: seq<string>) {
    forall i :: 0 <= i < |ps| ==> WholeSegment(ps[i], i == |ps| - 1)
  }

  /** Between two separators: a backslash at the end belongs to the separator behind it, if there is one. */
  function SegOf(p: string, last: bool): Seg {
    if p == "**" then DoubleStar
    else if p == "**\\" && !last then OneOrMore
    else if Dangling(p) && !last then Name(p[..|p| - 1])
    else Name(p)
  }

  function SegsOf(ps: seq<string>): seq<Seg> {
    seq(|ps|, i requires 0 <= i < |ps| => SegOf(ps[i], i == |ps| - 1))
  }

  /** The text of a path that can be asked about: no separator, newline or nothing as a segment. */
  predicate PathSegments(path: seq<string>) {
    forall i :: 0 <= i < |path| ==> path[i] != "" && Without(path[i], '/') && Without(path[i], '\n')
  }

  /******* The compiled pieces, segment by segment *******/

  function ItemsOf(segs: seq<Seg>): seq<Item> {
    if segs == [] then []
    else
      match segs[0]
      case DoubleStar => if |segs| == 1 then [Any] else [Dirs] + ItemsOf(segs[1..])
      case OneOrMore => [Any, Lit('/')] + ItemsOf(segs[1..])
      case Name(text) => if |segs| == 1 then Translate(text) else Translate(text) + [Lit('/')] + ItemsOf(segs[1..])
  }

  lemma PlainHead(p: string, rest: string)
    requires p != "" && PlainName(p) && !Dangling(p) && (rest == "" || rest[0] != '*')
    ensures var k := HeadOf(p).length;
            && HeadOf(p + rest) == HeadOf(p) && PlainName(p[k..]) && !Dangling(p[k..])
            && (p + rest)[k..] == p[k..] + rest
  {
    var t := p + rest;
    assert |p| > 1 ==> t[1] == p[1];
    assert |p| == 1 && |t| > 1 ==> t[1] == rest[0];
  }

  lemma TranslateHead(p: string, rest: string)
    requires p != "" && PlainName(p) && !Dangling(p) && (rest == "" || rest[0] != '*')
    ensures var h := HeadOf(p); var tail := p[h.length..];
            && PlainName(tail) && !Dangling(tail)
            && Translate(p) == [h.item] + Translate(tail)
            && Translate(p + rest) == [h.item] + Translate(tail + rest)
  {
    PlainHead(p, rest);
  }

  lemma {:induction false} TranslateName(p: string, rest: string)
    requires PlainName(p) && !Dangling(p) && (rest == "" || rest[0] != '*')
    ensures Translate(p + rest) == Translate(p) + Translate(rest)
    decreases |p|
  {
    if p == "" {
      assert p + rest == rest;
    } else {
      TranslateHead(p, rest);
      TranslateName(p[HeadOf(p).length..], rest);
    }
  }

  /** What is left of a name when the backslash at its end goes to the separator. */
  lemma {:induction false} DanglingName(p: string)
    requires PlainName(p) && Dangling(p)
    ensures var name := p[..|p| - 1]; p == name + "\\" && PlainName(name) && !Dangling(name)
    decreases |p|
  {
    if |p| > 1 {
      var k := if p[0] == '\\' then 2 else 1;
      var name, tail := p[..|p| - 1], p[k..];
      DanglingName(tail);
      assert name[k..] == tail[..|tail| - 1] && name[0] == p[0];
      assert |name| > 1 ==> name[1] == p[1];
    }
  }

  /** A name at whose end a backslash escapes the separator. */
  lemma TranslateDangling(p: string, rest: string)
    requires PlainName(p) && Dangling(p)
    ensures Translate(p + "/" + rest) == Translate(p[..|p| - 1]) + [Lit('/')] + Translate(rest)
  {
    var name, tail := p[..|p| - 1], "\\/" + rest;
    DanglingName(p);
    TranslateName(name, tail);
    BackslashAlone(rest);
    assert p + "/" + rest == name + tail;
  }

  lemma BackslashAlone(rest: string)
    ensures Translate("\\/" + rest) == [Lit('/')] + Translate(rest)
  {
    var t := "\\/" + rest;
    assert t[1] == '/' && t[2..] == rest;
  }

  /** `**` and an escaped separator. */
  lemma TranslateOneOrMore(rest: string)
    ensures Translate("**\\/" + rest) == [Any, Lit('/')] + Translate(rest)
  {
    var t := "**\\/" + rest;
    assert t[2..] == "\\/" + rest;
    assert HeadOf(t) == Head(Any, 2);
    BackslashAlone(rest);
  }

  lemma TranslateFirstSegment(p: string, rest: string)
    requires WholeSegment(p, false)
    ensures Translate(p + "/" + rest) ==
            match SegOf(p, false)
            case DoubleStar => [Dirs] + Translate(rest)
            case OneOrMore => [Any, Lit('/')] + Translate(rest)
            case Name(text) => Translate(text) + [Lit('/')] + Translate(rest)
  {
    var tail := "/" + rest;
    assert p + "/" + rest == p + tail;
    assert tail[1..] == rest;
    if p == "**" {
      assert (p + tail)[3..] == rest;
    } else if p == "**\\" {
      assert p + tail == "**\\/" + rest;
      TranslateOneOrMore(rest);
    } else if Dangling(p) {
      TranslateDangling(p, rest);
    } else {
      TranslateName(p, tail);
    }
  }

  lemma {:induction false} TranslateBySegments(ps: seq<string>)
    requires |ps| > 0 && WholeSegments(ps)
    ensures Translate(Join(ps, '/')) == ItemsOf(SegsOf(ps))
  {
    if |ps| == 1 {
      if ps[0] == "**" {
        assert Translate(ps[0]) == [Any] + Translate(ps[0][2..]);
      }
    } else {
      var rest := ps[1..];
      forall i | 0 <= i < |rest| ensures WholeSegment(rest[i], i == |rest| - 1) {
        assert rest[i] == ps[i + 1];
      }
      TranslateFirstSegment(ps[0], Join(rest, '/'));
      TranslateBySegments(rest);
      assert SegsOf(ps)[1..] == SegsOf(rest);
    }
  }

  /** Pieces that stay inside one segment. */
  predicate InSegment(items: seq<Item>) {
    forall it :: it in items ==> it.Stretch? || it.One? || (it.Lit? && it.c != '/')
  }

  lemma {:induction false} PlainNamesStayInside(p: string)
    requires PlainName(p) && Without(p, '/')
    ensures InSegment(Translate(p))
    decreases |p|
  {
    if p != "" {
      if p[0] == '\\' && |p| > 1 {
        PlainNamesStayInside(p[2..]);
      } else {
        PlainNamesStayInside(p[1..]);
      }
    }
  }

  /** A compiled name matches a segment exactly when the name pattern does. */
  lemma {:induction false} NameMeansGlob(p: string, name: string)
    requires PlainName(p)
    ensures NameMatches(Translate(p), name) <==> NameGlob(p, name)
    decreases |p|
  {
    if p != "" {
      var h := HeadOf(p);
      var tail := p[h.length..];
      assert PlainName(tail) && Translate(p)[1..] == Translate(tail);
      if h.item.Stretch? {
        forall k | 0 <= k <= |name| ensures NameMatches(Translate(tail), name[k..]) <==> NameGlob(tail, name[k..]) {
          NameMeansGlob(tail, name[k..]);
        }
      } else if name != "" {
        NameMeansGlob(tail, name[1..]);
      }
    }
  }

  /** The compiled name matches up to the end of the segment, and the next piece takes over there. */
  lemma {:induction false} NameThenTail(items: seq<Item>, next: seq<Item>, name: string, tail: string)
    requires InSegment(items) && (next == [] || next[0] == Lit('/'))
    requires Without(name, '/') && Without(name, '\n') && (tail == "" || tail[0] == '/')
    ensures Accepts(items + next, name + tail) <==> NameMatches(items, name) && Accepts(next, tail)
    decreases items
  {
    var t := name + tail;
    if items == [] {
      assert items + next == next;
      if name == "" {
        assert t == tail;
      } else {
        assert t[0] == name[0];
      }
    } else {
      var rest := items[1..];
      assert (items + next)[1..] == rest + next;
      if items[0].Stretch? {
        forall k | 0 <= k <= |name|
          ensures Without(t[..k], '/')
          ensures Accepts(rest + next, t[k..]) <==> NameMatches(rest, name[k..]) && Accepts(next, tail)
        {
          assert t[..k] == name[..k] && t[k..] == name[k..] + tail;
          NameThenTail(rest, next, name[k..], tail);
        }
        assert forall k :: |name| < k <= |t| ==> t[..k][|name|] == '/';
      } else if name != "" {
        assert t[1..] == name[1..] + tail;
        NameThenTail(rest, next, name[1..], tail);
      }
    }
  }

  lemma {:induction false} PathText(path: seq<string>)
    requires path != [] && PathSegments(path)
    ensures Join(path, '/') != "" && Without(Join(path, '/'), '\n')
  {
    if |path| > 1 {
      PathText(path[1..]);
    }
  }

  lemma SlashesOfPath(path: seq<string>, k: int)
    requires |path| > 1 && PathSegments(path)
    ensures var t, t1, n := Join(path, '/'), Join(path[1..], '/'), |path[0]| + 1;
            && t[n..] == t1
            && (AfterSlash(t, k) <==> k == n || AfterSlash(t1, k - n))
            && (AfterSlash(t, k) && k != n ==> t[k..] == t1[k - n..])
  {
    PathText(path);
    var t, t1, n := Join(path, '/'), Join(path[1..], '/'), |path[0]| + 1;
    assert t == path[0] + "/" + t1;
    assert t[n..] == t1;
    assert 0 < k < n ==> t[k - 1] == path[0][k - 1];
    assert n < k <= |t| ==> t[k - 1] == t1[k - n - 1];
  }

  /** (?:.*\/)? skips one whole segment at a time. */
  lemma DirsSkipsSegments(rest: seq<Item>, path: seq<string>)
    requires path != [] && PathSegments(path)
    ensures Accepts([Dirs] + rest, Join(path, '/')) <==>
            || Accepts(rest, Join(path, '/'))
            || (|path| > 1 && Accepts([Dirs] + rest, Join(path[1..], '/')))
  {
    var t, items := Join(path, '/'), [Dirs] + rest;
    assert items[1..] == rest;
    if |path| == 1 {
    } else {
      var t1, n := Join(path[1..], '/'), |path[0]| + 1;
      if Accepts(items, t) && !Accepts(rest, t) {
        var k :| AfterSlash(t, k) && Accepts(rest, t[k..]);
        SlashesOfPath(path, k);
      }
      if Accepts(items, t1) {
        SlashesOfPath(path, n);
        if !Accepts(rest, t1) {
          var k :| AfterSlash(t1, k) && Accepts(rest, t1[k..]);
          SlashesOfPath(path, k + n);
        }
      }
    }
  }

  /** .*\/ skips at least one segment, and then any number. */
  lemma OneOrMoreIsDirsBelow(rest: seq<Item>, path: seq<string>)
    requires path != [] && PathSegments(path)
    ensures Accepts([Any, Lit('/')] + rest, Join(path, '/')) <==>
            |path| > 1 && Accepts([Dirs] + rest, Join(path[1..], '/'))
  {
    var t := Join(path, '/');
    PathText(path);
    AnyThenSlash(rest, t);
    if |path| == 1 {
      assert forall k :: !AfterSlash(t, k);
    } else {
      var t1, n := Join(path[1..], '/'), |path[0]| + 1;
      assert ([Dirs] + rest)[1..] == rest;
      forall k ensures AfterSlash(t, k) && Accepts(rest, t[k..]) ==> Accepts([Dirs] + rest, t1) {
        SlashesOfPath(path, k);
      }
      if Accepts([Dirs] + rest, t1) {
        SlashesOfPath(path, n);
        if !Accepts(rest, t1) {
          var k :| AfterSlash(t1, k) && Accepts(rest, t1[k..]);
          SlashesOfPath(path, k + n);
        }
      }
    }
  }

  lemma AnyThenSlash(rest: seq<Item>, t: string)
    requires Without(t, '\n')
    ensures Accepts([Any, Lit('/')] + rest, t) <==> exists k :: AfterSlash(t, k) && Accepts(rest, t[k..])
  {
    var items := [Any, Lit('/')] + rest;
    assert items[1..] == [Lit('/')] + rest && items[1..][1..] == rest;
    forall k | 0 <= k <= |t| ensures t[k..] != "" ==> t[k..][1..] == t[k + 1..] {
    }
    if Accepts(items, t) {
      var k :| 0 <= k <= |t| && Without(t[..k], '\n') && Accepts(items[1..], t[k..]);
      assert AfterSlash(t, k + 1) && Accepts(rest, t[k + 1..]);
    }
    if k :| AfterSlash(t, k) && Accepts(rest, t[k..]) {
      assert Accepts(items[1..], t[k - 1..]);
    }
  }

  /******* The compiled expression is the glob *******/

  /** `GlobMatches` on some leading segments, read from the front. */
  ghost predicate GlobPrefix(segs: seq<Seg>, path: seq<string>)
    decreases |segs|, |path|
  {
    if segs == [] then true
    else if segs == [DoubleStar] then path != []
    else
      match segs[0]
      case DoubleStar => GlobPrefix(segs[1..], path) || (path != [] && GlobPrefix(segs, path[1..]))
      case OneOrMore => path != [] && (GlobPrefix(segs[1..], path[1..]) || GlobPrefix(segs, path[1..]))
      case Name(text) => path != [] && NameGlob(text, path[0]) && GlobPrefix(segs[1..], path[1..])
  }

  lemma {:induction false} PrefixIsSome(segs: seq<Seg>, path: seq<string>)
    ensures GlobPrefix(segs, path) <==> GlobAcceptsSome(segs, path)
    decreases |segs|, |path|
  {
    if segs == [] {
      assert GlobMatches(segs, path[..0]);
    } else if segs == [DoubleStar] {
      assert path != [] ==> GlobMatches(segs, path[..1]);
    } else {
      PrefixIsSome(segs[1..], path);
      if path != [] {
        var tail := path[1..];
        PrefixIsSome(segs[1..], tail);
        if !segs[0].Name? {
          PrefixIsSome(segs, tail);
        }
        forall b | 0 < b <= |path| ensures path[..b][1..] == tail[..b - 1] {
        }
        forall b | 0 <= b <= |tail| ensures path[..b + 1][1..] == tail[..b] && path[..b + 1][0] == path[0] {
        }
      }
    }
  }

  lemma {:induction false} NothingMatchesNoSegment(segs: seq<Seg>)
    requires segs != []
    ensures !GlobPrefix(segs, [])
  {
    if |segs| > 1 {
      NothingMatchesNoSegment(segs[1..]);
    }
  }

  ghost predicate SegsInside(segs: seq<Seg>) {
    && (forall s :: s in segs ==> s.Name? ==> PlainName(s.text) && Without(s.text, '/'))
    && (segs != [] ==> !segs[|segs| - 1].OneOrMore?)
  }

  lemma {:induction false} ItemsAreGlob(segs: seq<Seg>, path: seq<string>)
    requires segs != [] && SegsInside(segs) && path != [] && PathSegments(path)
    ensures Accepts(ItemsOf(segs), Join(path, '/')) <==> GlobPrefix(segs, path)
    decreases |segs|, |path|
  {
    var t, rest := Join(path, '/'), segs[1..];
    PathText(path);
    if segs == [DoubleStar] {
      assert [Any][1..] == [] && t[|t|..] == "" && t[..|t|] == t;
      assert Accepts([], t[|t|..]);
    } else if segs[0].DoubleStar? {
      DirsSkipsSegments(ItemsOf(rest), path);
      ItemsAreGlob(rest, path);
      if |path| > 1 {
        ItemsAreGlob(segs, path[1..]);
      } else {
        NothingMatchesNoSegment(segs);
      }
    } else if segs[0].OneOrMore? {
      OneOrMoreIsDirsBelow(ItemsOf(rest), path);
      if |path| > 1 {
        DirsSkipsSegments(ItemsOf(rest), path[1..]);
        ItemsAreGlob(rest, path[1..]);
        ItemsAreGlob(segs, path[1..]);
        OneOrMoreIsDirsBelow(ItemsOf(rest), path[1..]);
      } else {
        NothingMatchesNoSegment(segs);
        NothingMatchesNoSegment(rest);
      }
    } else {
      var tail := if |path| == 1 then "" else "/" + Join(path[1..], '/');
      var next := if rest == [] then [] else [Lit('/')] + ItemsOf(rest);
      assert t == path[0] + tail;
      assert segs[0] in segs;
      var text := segs[0].text;
      assert ItemsOf(segs) == Translate(text) + next;
      PlainNamesStayInside(text);
      NameThenTail(Translate(text), next, path[0], tail);
      NameMeansGlob(text, path[0]);
      if rest != [] {
        assert next[1..] == ItemsOf(rest);
        if |path| > 1 {
          assert tail[1..] == Join(path[1..], '/');
          ItemsAreGlob(rest, path[1..]);
        } else {
          NothingMatchesNoSegment(rest);
        }
      }
    }
  }

  lemma SegIsInside(p: string, last: bool)
    requires WholeSegment(p, last) && Without(p, '/')
    ensures var s := SegOf(p, last); s.Name? ==> PlainName(s.text) && Without(s.text, '/')
  {
    if PlainName(p) && Dangling(p) {
      DanglingName(p);
    }
  }

  lemma SegsOfPattern(pattern: string)
    requires WholeSegments(Split(pattern, '/'))
    ensures var segs := SegsOf(Split(pattern, '/'));
            segs != [] && SegsInside(segs) && Translate(pattern) == ItemsOf(segs)
  {
    var ps := Split(pattern, '/');
    JoinOfSplit(pattern, '/');
    TranslateBySegments(ps);
    forall s | s in SegsOf(ps) && s.Name? ensures PlainName(s.text) && Without(s.text, '/') {
      var i :| 0 <= i < |ps| && s == SegOf(ps[i], i == |ps| - 1);
      assert ps[i] in ps;
      SegIsInside(ps[i], i == |ps| - 1);
    }
  }

  /** The head (?:^|/) starts at any segment. */
  lemma {:induction false} DirsAreAnySuffix(segs: seq<Seg>, path: seq<string>)
    requires segs != [] && SegsInside(segs) && path != [] && PathSegments(path)
    ensures Accepts([Dirs] + ItemsOf(segs), Join(path, '/')) <==>
            exists a :: 0 <= a < |path| && GlobAcceptsSome(segs, path[a..])
  {
    DirsSkipsSegments(ItemsOf(segs), path);
    ItemsAreGlob(segs, path);
    PrefixIsSome(segs, path);
    assert path[0..] == path;
    if |path| > 1 {
      var tail := path[1..];
      DirsAreAnySuffix(segs, tail);
      forall a | 0 <= a < |tail| ensures tail[a..] == path[a + 1..] {
      }
      forall a | 0 < a < |path| ensures path[a..] == tail[a - 1..] {
      }
    }
  }

  /**
   For a pattern in which `**` is always a whole segment, the compiled expression is found in the text of a
   path exactly when the glob accepts the path or one of its ancestor directories, counted from
   the root if the pattern is anchored and from any segment otherwise.
   */
  lemma CompiledPatternIsGlob(pattern: string, anchored: bool, path: seq<string>)
    requires WholeSegments(Split(pattern, '/'))
    requires path != [] && PathSegments(path)
    ensures Search(Regex(anchored, Translate(pattern)), Join(path, '/')) <==>
            exists a :: 0 <= a < |path| && (anchored ==> a == 0) &&
                        GlobAcceptsSome(SegsOf(Split(pattern, '/')), path[a..])
  {
    var segs, s := SegsOf(Split(pattern, '/')), Join(path, '/');
    SegsOfPattern(pattern);
    assert path[0..] == path;
    ItemsAreGlob(segs, path);
    PrefixIsSome(segs, path);
    if !anchored {
      DirsAreAnySuffix(segs, path);
      PathText(path);
      SearchIsDirs(ItemsOf(segs), s);
    }
  }

  /** Looking for a match from the start or from behind any slash is matching behind any directories. */
  lemma SearchIsDirs(items: seq<Item>, s: string)
    requires Without(s, '\n')
    ensures Search(Regex(false, items), s) <==> Accepts([Dirs] + items, s)
  {
    assert ([Dirs] + items)[1..] == items;
    assert forall k :: AfterSlash(s, k) <==> 0 < k <= |s| && s[k - 1] == '/';
  }

  lemma {:induction false} AcceptsBelow(items: seq<Item>, t: string, x: string)
    requires Without(t, '\n') && Accepts(items, t)
    ensures Accepts(items, t + "/" + x)
    decreases items
  {
    var u := t + "/" + x;
    if items == [] {
      assert t != "" ==> u[0] == t[0];
    } else {
      var rest := items[1..];
      var k := StepOver(items, t);
      AcceptsBelow(rest, t[k..], x);
      assert u[..k] == t[..k] && u[k..] == t[k..] + "/" + x;
      assert k > 0 ==> u[k - 1] == t[k - 1] && u[0] == t[0] && u[..k - 1] == t[..k - 1];
      if items[0].Dirs? {
        assert k == 0 ==> u[0..] == u;
        assert k > 0 ==> AfterSlash(u, k);
      }
    }
  }

  /** How much of the text the first piece takes. */
  lemma StepOver(items: seq<Item>, t: string) returns (k: nat)
    requires items != [] && Accepts(items, t)
    ensures k <= |t| && Accepts(items[1..], t[k..])
    ensures match items[0]
            case Lit(c) => k == 1 && t[0] == c
            case One => k == 1 && t[0] != '/'
            case Stretch => Without(t[..k], '/')
            case Any => Without(t[..k], '\n')
            case Dirs => k == 0 || AfterSlash(t, k)
  {
    var rest := items[1..];
    match items[0]
    case Lit(_) => k := 1;
    case One => k := 1;
    case Stretch => k :| 0 <= k <= |t| && Without(t[..k], '/') && Accepts(rest, t[k..]);
    case Any => k :| 0 <= k <= |t| && Without(t[..k], '\n') && Accepts(rest, t[k..]);
    case Dirs =>
      assert t[0..] == t;
      if Accepts(rest, t) {
        k := 0;
      } else {
        k :| AfterSlash(t, k) && Accepts(rest, t[k..]);
      }
  }

  /** Any compiled expression that is found in a directory is found in everything below it. */
  lemma FoundBelow(re: Regex, dir: string, x: string)
    requires Without(dir, '\n') && Search(re, dir)
    ensures Search(re, dir + "/" + x)
  {
    var u := dir + "/" + x;
    if Accepts(re.items, dir) {
      AcceptsBelow(re.items, dir, x);
    } else {
      var k :| 0 < k <= |dir| && dir[k - 1] == '/' && Accepts(re.items, dir[k..]);
      AcceptsBelow(re.items, dir[k..], x);
      assert u[k..] == dir[k..] + "/" + x && u[k - 1] == '/';
    }
  }

  /******* `**` inside a name *******/

  /** The text can be followed by stars without changing what it says: nothing left open at its end. */
  predicate Closed(p: string) {
    if p == "" then true
    else if p[0] == '*' then |p| > 1 && Closed(p[1..])
    else if p[0] == '\\' then |p| > 1 && Closed(p[2..])
    else Closed(p[1..])
  }

  lemma StarsHead(x: string, y: string)
    requires x != "" && PlainName(x) && Closed(x)
    ensures var k, t := HeadOf(x).length, x + "**" + y;
            && HeadOf(t) == HeadOf(x) && PlainName(x[k..]) && Closed(x[k..])
            && t[k..] == x[k..] + "**" + y
  {
    var t := x + "**" + y;
    assert t[0] == x[0] && (|x| > 1 ==> t[1] == x[1]);
  }

  lemma {:induction false} TranslateStars(x: string, y: string)
    requires PlainName(x) && Closed(x) && (y == "" || y[0] != '/')
    ensures Translate(x + "**" + y) == Translate(x) + [Any] + Translate(y)
    decreases |x|
  {
    if x == "" {
      assert (x + "**" + y)[2..] == y;
    } else {
      StarsHead(x, y);
      TranslateStars(x[HeadOf(x).length..], y);
    }
  }

  /** A name matches its text and hands on the rest. */
  lemma {:induction false} NameThenRest(items: seq<Item>, next: seq<Item>, name: string, tail: string)
    requires NameMatches(items, name) && Accepts(next, tail) && Without(name, '/')
    ensures Accepts(items + next, name + tail)
    decreases items
  {
    var t := name + tail;
    if items == [] {
      assert items + next == next && t == tail;
    } else {
      assert (items + next)[1..] == items[1..] + next && (items + next)[0] == items[0];
      if items[0].Stretch? {
        var k :| 0 <= k <= |name| && NameMatches(items[1..], name[k..]);
        NameThenRest(items[1..], next, name[k..], tail);
        assert t[k..] == name[k..] + tail && t[..k] == name[..k];
      } else {
        NameThenRest(items[1..], next, name[1..], tail);
        assert t[1..] == name[1..] + tail && t[0] == name[0];
      }
    }
  }

  lemma AnyThenRest(next: seq<Item>, w: string, tail: string)
    requires Without(w, '\n') && Accepts(next, tail)
    ensures Accepts([Any] + next, w + tail)
  {
    assert ([Any] + next)[1..] == next && (w + tail)[|w|..] == tail && (w + tail)[..|w|] == w;
  }

  /**
   `**` between two names is read as .*, which crosses separators: the condition on segments is needed.
   Whatever the two names match may be any number of directories apart, whereas with a single star
   a pattern anchored at the root takes its whole match from the first segment.
   */
  lemma StarsInsideNameCrossSegments(x: string, y: string, u: string, w: string, v: string, anchored: bool)
    requires PlainName(x) && Closed(x) && PlainName(y) && Without(x, '/') && Without(y, '/') && x + y != ""
    requires NameGlob(x, u) && NameGlob(y, v) && PathSegments([u, v]) && Without(w, '\n')
    ensures !WholeSegments(Split(x + "**" + y, '/'))
    ensures Search(Regex(anchored, Translate(x + "**" + y)), u + w + v)
    ensures PlainName(x + "*" + y) ==>
              (Search(Regex(true, Translate(x + "*" + y)), u + "/" + v) <==> NameGlob(x + "*" + y, u))
  {
    assert [u, v][0] == u && [u, v][1] == v;
    StarsTakeTheMiddle(x, y, u, w, v);
    StarsAreNoSegment(x, y);
    if PlainName(x + "*" + y) {
      OneStarStaysInside(x + "*" + y, u, v);
    }
  }

  lemma StarsTakeTheMiddle(x: string, y: string, u: string, w: string, v: string)
    requires PlainName(x) && Closed(x) && PlainName(y) && Without(y, '/')
    requires NameGlob(x, u) && NameGlob(y, v) && Without(u, '/') && Without(v, '/') && Without(w, '\n')
    ensures Accepts(Translate(x + "**" + y), u + w + v)
  {
    TranslateStars(x, y);
    NameMeansGlob(x, u);
    NameMeansGlob(y, v);
    AnyBetweenNames(Translate(x), Translate(y), u, w, v);
  }

  lemma NameAlone(items: seq<Item>, name: string)
    requires NameMatches(items, name) && Without(name, '/')
    ensures Accepts(items, name)
  {
    NameThenRest(items, [], name, "");
    assert items + [] == items && name + "" == name;
  }

  lemma AnyBetweenNames(head: seq<Item>, last: seq<Item>, u: string, w: string, v: string)
    requires NameMatches(head, u) && NameMatches(last, v) && Without(u, '/') && Without(v, '/') && Without(w, '\n')
    ensures Accepts(head + [Any] + last, u + w + v)
  {
    NameAlone(last, v);
    AnyThenRest(last, w, v);
    NameThenRest(head, [Any] + last, u, w + v);
    assert u + (w + v) == u + w + v && head + ([Any] + last) == head + [Any] + last;
  }

  lemma StarsAreNoSegment(x: string, y: string)
    requires PlainName(x) && Closed(x) && Without(x, '/') && Without(y, '/') && x + y != ""
    ensures !WholeSegments(Split(x + "**" + y, '/'))
  {
    var p := x + "**" + y;
    SplitPiece(p, '/');
    StarsAreNotPlain(x, y);
    assert p != "**" by {
      assert |p| == |x| + |y| + 2;
    }
    assert WholeSegments([p]) ==> WholeSegment([p][0], true);
  }

  lemma {:induction false} StarsAreNotPlain(x: string, y: string)
    requires PlainName(x) && Closed(x)
    ensures !PlainName(x + "**" + y)
    decreases |x|
  {
    var p := x + "**" + y;
    if x != "" {
      var k := if x[0] == '\\' then 2 else 1;
      assert p[k..] == x[k..] + "**" + y;
      StarsAreNotPlain(x[k..], y);
    } else {
      assert p[0] == '*' && p[1] == '*';
    }
  }

  lemma OneStarStaysInside(p: string, u: string, v: string)
    requires PlainName(p) && p != "" && Without(p, '/') && PathSegments([u, v])
    ensures Search(Regex(true, Translate(p)), u + "/" + v) <==> NameGlob(p, u)
  {
    var path := [u, v];
    SplitPiece(p, '/');
    assert PlainName("**") == false;
    CompiledPatternIsGlob(p, true, path);
    assert Join(path, '/') == u + "/" + v;
    var segs := SegsOf([p]);
    assert segs[0] == Name(p) && segs[1..] == [];
    assert path[0..] == path;
    PrefixIsSome(segs, path);
  }

  /** At the end of a pattern `**` does what one star does, whatever is before it but an open backslash. */
  lemma StarsAtTheEndAreOneStar(p: string, anchored: bool, s: string)
    requires !Dangling(p) && Without(s, '\n')
    ensures Search(Regex(anchored, Translate(p + "**")), s) <==> Search(Regex(anchored, Translate(p + "*")), s)
  {
    forall k | 0 <= k <= |s|
      ensures Accepts(Translate(p + "**"), s[k..]) <==> Accepts(Translate(p + "*"), s[k..])
    {
      TrailingStars(p, s[k..]);
    }
    assert s[0..] == s;
  }

  lemma {:induction false} TrailingStars(p: string, t: string)
    requires !Dangling(p) && Without(t, '\n')
    ensures Accepts(Translate(p + "**"), t) <==> Accepts(Translate(p + "*"), t)
    decreases |p|
  {
    var two, one := p + "**", p + "*";
    if p == "" || p == "*" {
      StarsTakeAnything(p, t);
    } else {
      var h := HeadOf(p);
      var tail := p[h.length..];
      HeadBeforeStar(p);
      assert two == p + "*" + "*" && HeadOf(two) == h && HeadOf(one) == h;
      assert two[h.length..] == tail + "**" && one[h.length..] == tail + "*";
      forall k | 0 <= k <= |t|
        ensures Accepts(Translate(tail + "**"), t[k..]) <==> Accepts(Translate(tail + "*"), t[k..])
      {
        TrailingStars(tail, t[k..]);
      }
      SameAfterHead(h.item, Translate(tail + "**"), Translate(tail + "*"), t);
    }
  }

  lemma SameAfterHead(item: Item, a: seq<Item>, b: seq<Item>, t: string)
    requires forall k :: 0 <= k <= |t| ==> (Accepts(a, t[k..]) <==> Accepts(b, t[k..]))
    ensures Accepts([item] + a, t) <==> Accepts([item] + b, t)
  {
    assert ([item] + a)[1..] == a && ([item] + b)[1..] == b && t[0..] == t;
  }

  lemma HeadBeforeStar(p: string)
    requires p != "" && p != "*" && !Dangling(p)
    ensures var h := HeadOf(p);
            HeadOf(p + "*") == h && HeadOf(p + "**") == h && !Dangling(p[h.length..])
  {
    var one, two := p + "*", p + "**";
    assert one[|p|] == '*' && two[|p|] == '*';
    assert one[..|p|] == p && two[..|p|] == p;
    if |p| > 1 {
      assert p[1..][1..] == p[2..] && one[1] == p[1] && two[1] == p[1];
      if |p| > 2 {
        assert p[2..][1..] == p[3..] && one[2] == p[2] && two[2] == p[2];
        if p[0] == '*' && p[1] == '*' && p[2] == '/' {
          assert Dangling(p[1..]) == Dangling(p[2..]) == Dangling(p[3..]);
        }
      }
    }
  }

  /** Two or three stars and nothing else, or one. */
  lemma StarsTakeAnything(p: string, t: string)
    requires (p == "" || p == "*") && Without(t, '\n')
    ensures Accepts(Translate(p + "**"), t) && Accepts(Translate(p + "*"), t)
  {
    StretchTakesAnything("");
    StretchTakesAnything(t);
    AnyThenRest([], t, "");
    AnyThenRest([Stretch], t, "");
    assert t + "" == t && [Any] + [Stretch] == [Any, Stretch] && [Any] + [] == [Any];
    TranslatesStars();
    assert "" + "*" == "*" && "" + "**" == "**" && "*" + "*" == "**" && "*" + "**" == "***";
  }

  lemma TranslatesStars()
    ensures Translate("*") == [Stretch] && Translate("**") == [Any] && Translate("***") == [Any, Stretch]
  {
    assert Translate("*") == [Stretch] + Translate("*"[1..]);
    assert Translate("**") == [Any] + Translate("**"[2..]);
    assert "***"[2..] == "*";
    assert Translate("***") == [Any] + Translate("***"[2..]);
  }

  lemma StretchTakesAnything(t: string)
    ensures Accepts([Stretch], t)
  {
    var parts := Split(t, '/');
    JoinOfSplit(t, '/');
    var k := |parts[0]|;
    assert parts[0] in parts;
    assert t[..k] == parts[0] && (t[k..] == "" || t[k..][0] == '/');
    assert [Stretch][1..] == [] && Accepts([], t[k..]);
  }
}
