/** Strings cut at a separator and put together again, or trimmed at their ends. */
module Text {

  predicate Without(s: string, c: char) {
    forall i :: 0 <= i < |s| ==> s[i] != c
  }

  /** `sep.join(parts)` */
  function Join(parts: seq<string>, sep: char): string {
    if |parts| == 0 then ""
    else if |parts| == 1 then parts[0]
    else parts[0] + [sep] + Join(parts[1..], sep)
  }

  /** `s.split(sep)` */
  function Split(s: string, sep: char): (parts: seq<string>)
    ensures |parts| >= 1
    ensures forall p :: p in parts ==> Without(p, sep)
  {
    if s == "" then [""]
    else
      var rest := Split(s[1..], sep);
      assert rest[0] in rest;
      if s[0] == sep then [""] + rest else [[s[0]] + rest[0]] + rest[1..]
  }

  lemma {:induction false} JoinOfSplit(s: string, sep: char)
    ensures Join(Split(s, sep), sep) == s
  {
    if s != "" {
      var rest := Split(s[1..], sep);
      JoinOfSplit(s[1..], sep);
      if s[0] == sep {
        assert ([""] + rest)[1..] == rest;
      } else {
        assert ([[s[0]] + rest[0]] + rest[1..])[1..] == rest[1..];
      }
      assert s == [s[0]] + s[1..];
    }
  }

  lemma {:induction false} SplitPiece(p: string, sep: char)
    requires Without(p, sep)
    ensures Split(p, sep) == [p]
  {
    if p != "" {
      SplitPiece(p[1..], sep);
      assert [p[0]] + p[1..] == p;
    }
  }

  lemma {:induction false} SplitFirst(p: string, s: string, sep: char)
    requires Without(p, sep)
    ensures Split(p + [sep] + s, sep) == [p] + Split(s, sep)
  {
    var t := p + [sep] + s;
    if p == "" {
      assert t[1..] == s;
    } else {
      SplitFirst(p[1..], s, sep);
      assert t[1..] == p[1..] + [sep] + s;
      assert [p[0]] + p[1..] == p;
    }
  }

  lemma {:induction false} SplitOfJoin(parts: seq<string>, sep: char)
    requires |parts| >= 1 && forall p :: p in parts ==> Without(p, sep)
    ensures Split(Join(parts, sep), sep) == parts
  {
    if |parts| == 1 {
      SplitPiece(parts[0], sep);
    } else {
      SplitFirst(parts[0], Join(parts[1..], sep), sep);
      SplitOfJoin(parts[1..], sep);
    }
  }

  /** `str.isspace` for one character. */
  predicate IsSpace(c: char) {
    || '\t' <= c <= '\r' || '\U{1C}' <= c <= ' ' || c == '\U{85}' || c == '\U{A0}'
    || c == '\U{1680}' || '\U{2000}' <= c <= '\U{200A}' || c == '\U{2028}' || c == '\U{2029}'
    || c == '\U{202F}' || c == '\U{205F}' || c == '\U{3000}'
  }

  /** `s.rstrip(chars)`, the characters given as a predicate. */
  function TrimRight(s: string, drop: char -> bool): (r: string)
    ensures r <= s
    ensures r != "" ==> !drop(r[|r| - 1])
  {
    if s != "" && drop(s[|s| - 1]) then TrimRight(s[..|s| - 1], drop) else s
  }

  function TrimLeft(s: string, drop: char -> bool): (r: string)
    ensures r != "" ==> s != "" && !drop(r[0]) && r[|r| - 1] == s[|s| - 1]
  {
    if s != "" && drop(s[0]) then TrimLeft(s[1..], drop) else s
  }

  /** `s.strip()` */
  function Strip(s: string): string {
    TrimLeft(TrimRight(s, IsSpace), IsSpace)
  }

  /** A text that neither starts nor ends with a blank is left alone. */
  lemma StripKeeps(s: string)
    requires s != "" ==> !IsSpace(s[0]) && !IsSpace(s[|s| - 1])
    ensures Strip(s) == s
  {
  }

  lemma {:induction false} TrimRightTakes(s: string, drop: char -> bool)
    ensures forall i :: |TrimRight(s, drop)| <= i < |s| ==> drop(s[i])
  {
    if s != "" && drop(s[|s| - 1]) {
      TrimRightTakes(s[..|s| - 1], drop);
    }
  }

  lemma {:induction false} TrimLeftTakes(s: string, drop: char -> bool)
    ensures var n := |s| - |TrimLeft(s, drop)|;
            0 <= n && s[n..] == TrimLeft(s, drop) && forall i :: 0 <= i < n ==> drop(s[i])
  {
    if s != "" && drop(s[0]) {
      TrimLeftTakes(s[1..], drop);
    }
  }

  /** Stripping takes away the blanks at both ends and nothing else. */
  lemma StripMeans(s: string)
    ensures exists i, j :: 0 <= i <= j <= |s| && Strip(s) == s[i..j] &&
              (forall k :: 0 <= k < i || j <= k < |s| ==> IsSpace(s[k])) &&
              (i < j ==> !IsSpace(s[i]) && !IsSpace(s[j - 1]))
  {
    var t := TrimRight(s, IsSpace);
    TrimRightTakes(s, IsSpace);
    TrimLeftTakes(t, IsSpace);
    var i, j := |t| - |Strip(s)|, |t|;
    assert t == s[..j] && Strip(s) == s[i..j];
    assert forall k :: 0 <= k < i ==> s[k] == t[k];
  }

  lemma {:induction false} TrimLeftKeepsEnd(s: string, drop: char -> bool)
    requires s != "" ==> !drop(s[|s| - 1])
    ensures TrimLeft(s, drop) != "" ==> !drop(TrimLeft(s, drop)[|TrimLeft(s, drop)| - 1])
  {
  }

  lemma StripTwice(s: string)
    ensures Strip(Strip(s)) == Strip(s)
  {
    TrimLeftKeepsEnd(TrimRight(s, IsSpace), IsSpace);
    StripKeeps(Strip(s));
  }

  /** `s.replace("\\", "/")` */
  function ForwardSlashes(s: string): (r: string)
    ensures |r| == |s| && Without(r, '\\')
  {
    seq(|s|, i requires 0 <= i < |s| => if s[i] == '\\' then '/' else s[i])
  }

  lemma ForwardSlashesConcat(a: string, b: string)
    ensures ForwardSlashes(a + b) == ForwardSlashes(a) + ForwardSlashes(b)
  {
  }

  lemma {:induction false} JoinBelow(parts: seq<string>, more: seq<string>, sep: char)
    requires parts != [] && more != []
    ensures Join(parts + more, sep) == Join(parts, sep) + [sep] + Join(more, sep)
  {
    assert (parts + more)[1..] == parts[1..] + more;
    if |parts| > 1 {
      JoinBelow(parts[1..], more, sep);
    }
  }
}
