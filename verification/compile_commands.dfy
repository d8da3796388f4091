/** Build flags from a compilation database (analyzers/compile_commands.py). */
module CompileCommands {
  import opened Text

  /** The value of a compile entry: its parsed fields and its file. */
  datatype Entry = Entry(
    file: string, compiler: string, defines: map<string, string>, includes: seq<string>, flags: seq<string>)

  /******* Parsing, by suffixes *******/

  predicate IsOption(tok: string) {
    "-" <= tok
  }

  lemma OptionPrefixes(tok: string)
    ensures "-D" <= tok || "-I" <= tok || "-std=" <= tok || "-U" <= tok ==> IsOption(tok)
    ensures TakesOperand(tok) && "-D" <= tok ==> tok == "-D"
    ensures TakesOperand(tok) && "-I" <= tok ==> tok == "-I"
  {
    assert "-D" <= tok ==> tok[1] == 'D';
    assert "-I" <= tok ==> tok[1] == 'I';
    assert IsOption(tok) <==> tok != "" && tok[0] == '-';
  }

  /** Options whose operand may be the next token. */
  predicate TakesOperand(tok: string) {
    tok == "-D" || tok == "-I" || tok == "-isystem" || tok == "-include" || tok == "-U"
  }

  /** `token.split("=", 1)`, or the whole token with an empty value. */
  function Define(tok: string): (d: (string, string))
    ensures Without(d.0, '=')
    ensures Without(tok, '=') ==> d == (tok, "")
    ensures !Without(tok, '=') ==> tok == d.0 + "=" + d.1
  {
    if tok == "" then ("", "")
    else if tok[0] == '=' then ("", tok[1..])
    else
      var (name, value) := Define(tok[1..]);
      assert tok == [tok[0]] + tok[1..] && (Without(tok, '=') <==> Without(tok[1..], '='));
      ([tok[0]] + name, value)
  }

  function Defining(e: Entry, tok: string): Entry {
    var (name, value) := Define(tok);
    e.(defines := e.defines[name := value])
  }

  function Including(e: Entry, path: string): Entry {
    e.(includes := e.includes + [path])
  }

  function Flagging(e: Entry, flag: string): Entry {
    e.(flags := e.flags + [flag])
  }

  function WithOperand(e: Entry, tok: string, operand: string): Entry
    requires TakesOperand(tok)
  {
    if tok == "-D" then Defining(e, operand)
    else if tok == "-I" || tok == "-isystem" then Including(e, operand)
    else Flagging(e, tok + " " + operand)
  }

  function WithToken(e: Entry, tok: string): Entry {
    if "-D" <= tok then Defining(e, tok[2..])
    else if "-I" <= tok then Including(e, tok[2..])
    else if IsOption(tok) then Flagging(e, tok)
    else e
  }

  /** Options and operands from the left; an option without its operand is dropped. */
  function Rest(tokens: seq<string>, e: Entry): Entry
    decreases |tokens|
  {
    if tokens == [] then e
    else if !TakesOperand(tokens[0]) then Rest(tokens[1..], WithToken(e, tokens[0]))
    else if |tokens| > 1 then Rest(tokens[2..], WithOperand(e, tokens[0], tokens[1]))
    else e
  }

  lemma RestAt(tokens: seq<string>, i: nat, e: Entry)
    requires i < |tokens|
    ensures Rest(tokens[i..], e) ==
            if !TakesOperand(tokens[i]) then Rest(tokens[i + 1..], WithToken(e, tokens[i]))
            else if i + 1 < |tokens| then Rest(tokens[i + 2..], WithOperand(e, tokens[i], tokens[i + 1]))
            else Rest(tokens[i + 1..], e)
  {
    var rest := tokens[i..];
    assert rest[0] == tokens[i] && rest[1..] == tokens[i + 1..];
    assert i + 1 < |tokens| ==> rest[1] == tokens[i + 1] && rest[2..] == tokens[i + 2..];
  }

  /** The first token is the compiler unless it is an option. */
  function Parsed(tokens: seq<string>, e: Entry): Entry {
    if tokens != [] && !IsOption(tokens[0]) then Rest(tokens[1..], e.(compiler := tokens[0])) else Rest(tokens, e)
  }

  /** `CompileEntry` */
  class CompileEntry {
    const file: string
    var compiler: string
    var defines: map<string, string>
    var includes: seq<string>
    var flags: seq<string>

    constructor (file: string)
      ensures Value() == Entry(file, "", map[], [], [])
    {
      this.file, compiler, defines, includes, flags := file, "", map[], [], [];
    }

    function Value(): Entry
      reads this
    {
      Entry(file, compiler, defines, includes, flags)
    }

    method ParseDefine(token: string)
      modifies this`defines
      ensures Value() == Defining(old(Value()), token)
    {
      var (name, value) := Define(token);
      defines := defines[name := value];
    }

    /** `_parse_tokens` */
    method ParseTokens(tokens: seq<string>)
      modifies this
      ensures Value() == Parsed(tokens, old(Value()))
    {
      var i := 0;
      while i < |tokens|
        invariant 0 <= i <= |tokens|
        invariant i == 0 ==> Value() == old(Value())
        invariant i > 0 ==> Rest(tokens[i..], Value()) == Parsed(tokens, old(Value()))
      {
        var tok := tokens[i];
        assert i == 0 ==> tokens[i..] == tokens;
        RestAt(tokens, i, Value());
        OptionPrefixes(tok);
        if i == 0 && !IsOption(tok) {
          compiler := tok;
          i := i + 1;
          continue;
        }
        if tok == "-D" {
          if i + 1 < |tokens| {
            ParseDefine(tokens[i + 1]);
            i := i + 2;
          } else {
            i := i + 1;
          }
        } else if "-D" <= tok {
          ParseDefine(tok[2..]);
          i := i + 1;
        } else if tok == "-I" {
          if i + 1 < |tokens| {
            includes := includes + [tokens[i + 1]];
            i := i + 2;
          } else {
            i := i + 1;
          }
        } else if "-I" <= tok {
          includes := includes + [tok[2..]];
          i := i + 1;
        } else if tok == "-isystem" {
          if i + 1 < |tokens| {
            includes := includes + [tokens[i + 1]];
            i := i + 2;
          } else {
            i := i + 1;
          }
        } else if tok == "-include" {
          if i + 1 < |tokens| {
            flags := flags + ["-include" + " " + tokens[i + 1]];
            i := i + 2;
          } else {
            i := i + 1;
          }
        } else if "-std=" <= tok {
          flags := flags + [tok];
          i := i + 1;
        } else if tok == "-U" {
          if i + 1 < |tokens| {
            flags := flags + ["-U" + " " + tokens[i + 1]];
            i := i + 2;
          } else {
            i := i + 1;
          }
        } else if "-U" <= tok {
          flags := flags + [tok];
          i := i + 1;
        } else if IsOption(tok) {
          flags := flags + [tok];
          i := i + 1;
        } else {
          i := i + 1;
        }
      }
      assert tokens[|tokens|..] == [];
    }
  }

  function Empty(file: string): Entry {
    Entry(file, "", map[], [], [])
  }

  /******* Spellings *******/

  /** Every option that takes the next token as its operand has one. */
  predicate Complete(tokens: seq<string>) {
    tokens == [] || if TakesOperand(tokens[0]) then |tokens| > 1 && Complete(tokens[2..]) else Complete(tokens[1..])
  }

  predicate CompleteLine(tokens: seq<string>) {
    if tokens != [] && !IsOption(tokens[0]) then Complete(tokens[1..]) else Complete(tokens)
  }

  lemma {:induction false} RestConcat(a: seq<string>, b: seq<string>, e: Entry)
    requires Complete(a)
    ensures Rest(a + b, e) == Rest(b, Rest(a, e))
    decreases |a|
  {
    if a == [] {
      assert a + b == b;
    } else if TakesOperand(a[0]) {
      assert (a + b)[2..] == a[2..] + b;
      RestConcat(a[2..], b, WithOperand(e, a[0], a[1]));
    } else {
      assert (a + b)[1..] == a[1..] + b;
      RestConcat(a[1..], b, WithToken(e, a[0]));
    }
  }

  lemma ParsedConcat(a: seq<string>, b: seq<string>, e: Entry)
    requires CompleteLine(a) && (a == [] ==> b == [] || IsOption(b[0]))
    ensures Parsed(a + b, e) == Rest(b, Parsed(a, e))
  {
    if a != [] && !IsOption(a[0]) {
      assert (a + b)[1..] == a[1..] + b;
      RestConcat(a[1..], b, e.(compiler := a[0]));
    } else {
      RestConcat(a, b, e);
      assert a == [] ==> a + b == b;
    }
  }

  /** A macro or an include path may be one token with its option or the next one; `-isystem` is like `-I`. */
  lemma SpellingsAgree(a: seq<string>, opt: string, x: string, b: seq<string>, e: Entry)
    requires opt in {"-D", "-I"} && CompleteLine(a)
    ensures x != "" ==> Parsed(a + ([opt, x] + b), e) == Parsed(a + ([opt + x] + b), e)
    ensures Parsed(a + (["-isystem", x] + b), e) == Parsed(a + (["-I", x] + b), e)
  {
    var y := Parsed(a, e);
    ParsedConcat(a, [opt, x] + b, e);
    ParsedConcat(a, ["-isystem", x] + b, e);
    ParsedConcat(a, ["-I", x] + b, e);
    assert ([opt, x] + b)[2..] == b && (["-isystem", x] + b)[2..] == b && (["-I", x] + b)[2..] == b;
    if x != "" {
      JoinedToken(opt, x);
      ParsedConcat(a, [opt + x] + b, e);
      assert ([opt + x] + b)[1..] == b;
    }
  }

  lemma JoinedToken(opt: string, x: string)
    requires opt in {"-D", "-I"} && x != ""
    ensures IsOption(opt + x) && !TakesOperand(opt + x) && opt <= opt + x && (opt + x)[2..] == x
    ensures opt == "-I" ==> !("-D" <= opt + x)
  {
    OptionPrefixes(opt + x);
    assert (opt + x)[1] == opt[1];
  }

  /** The operand of a forced include or an undefine is recorded behind a blank, as if it were one token with it. */
  lemma FlagOperandsAreJoined(a: seq<string>, opt: string, x: string, b: seq<string>, e: Entry)
    requires opt in {"-include", "-U"} && CompleteLine(a)
    ensures Parsed(a + ([opt, x] + b), e) == Parsed(a + ([opt + " " + x] + b), e)
  {
    var flag := opt + " " + x;
    BlankMakesAFlag(opt, x);
    ParsedConcat(a, [opt, x] + b, e);
    ParsedConcat(a, [flag] + b, e);
    assert ([opt, x] + b)[2..] == b && ([flag] + b)[1..] == b;
  }

  lemma BlankMakesAFlag(opt: string, x: string)
    requires opt in {"-include", "-U"}
    ensures IsFlag(opt + " " + x)
  {
    var flag := opt + " " + x;
    assert flag[0] == opt[0] && flag[1] == opt[1];
    assert opt == "-include" ==> |flag| > 8;
    assert opt == "-U" ==> |flag| > 2;
  }

  /** An option at the end of the line that lacks its operand leaves no trace. */
  lemma DanglingOptionIsDropped(a: seq<string>, opt: string, e: Entry)
    requires TakesOperand(opt) && CompleteLine(a)
    ensures Parsed(a + [opt], e) == Parsed(a, e)
  {
    ParsedConcat(a, [opt], e);
  }

  /** A token behind the compiler that is neither an option nor an operand, a source file say, leaves no trace. */
  lemma StrayTokenIsDropped(a: seq<string>, tok: string, b: seq<string>, e: Entry)
    requires a != [] && CompleteLine(a) && !IsOption(tok)
    ensures Parsed(a + ([tok] + b), e) == Parsed(a + b, e)
  {
    OptionPrefixes(tok);
    ParsedConcat(a, [tok] + b, e);
    ParsedConcat(a, b, e);
    assert ([tok] + b)[1..] == b;
  }

  /** The two spellings of an undefine are not the same flag. */
  lemma UndefineSpellingsDiffer(file: string, compiler: string, x: string)
    requires x != "" && !IsOption(compiler)
    ensures Parsed([compiler, "-U", x], Empty(file)).flags == ["-U" + " " + x]
    ensures Parsed([compiler, "-U" + x], Empty(file)).flags == ["-U" + x] != ["-U" + " " + x]
  {
    var e := Empty(file).(compiler := compiler);
    assert TakesOperand("-U");
    assert [compiler, "-U", x][1..] == ["-U", x] && ["-U", x][2..] == [];
    assert Rest(["-U", x], e) == WithOperand(e, "-U", x) == Flagging(e, "-U" + " " + x);
    var joined := "-U" + x;
    assert joined[0] == '-' && joined[1] == 'U' && |joined| > 2;
    OptionPrefixes(joined);
    assert [compiler, joined][1..] == [joined] && [joined][1..] == [];
    assert Rest([joined], e) == WithToken(e, joined) == Flagging(e, joined);
    assert [] + [joined] == [joined] && [] + ["-U" + " " + x] == ["-U" + " " + x];
    assert |joined| != |"-U" + " " + x|;
  }

  /******* Printing *******/

  predicate IsFlag(f: string) {
    IsOption(f) && !("-D" <= f) && !("-I" <= f) && !TakesOperand(f)
  }

  predicate WellFormed(e: Entry) {
    && !IsOption(e.compiler)
    && (forall n :: n in e.defines ==> Without(n, '='))
    && (forall f :: f in e.flags ==> IsFlag(f))
  }

  function DefineTokens(defines: map<string, string>, names: seq<string>): seq<string>
    requires forall n :: n in names ==> n in defines
  {
    if names == [] then [] else ["-D", names[0] + "=" + defines[names[0]]] + DefineTokens(defines, names[1..])
  }

  function IncludeTokens(includes: seq<string>): seq<string> {
    if includes == [] then [] else ["-I", includes[0]] + IncludeTokens(includes[1..])
  }

  /** A command line for an entry, its macros in any order. */
  function Print(e: Entry, names: seq<string>): seq<string>
    requires forall n :: n in names ==> n in e.defines
  {
    [e.compiler] + (DefineTokens(e.defines, names) + (IncludeTokens(e.includes) + e.flags))
  }

  lemma {:induction false} DefineJoined(name: string, value: string)
    requires Without(name, '=')
    ensures Define(name + "=" + value) == (name, value)
  {
    var tok := name + "=" + value;
    if name == "" {
      assert tok[1..] == value;
    } else {
      DefineJoined(name[1..], value);
      assert tok[1..] == name[1..] + "=" + value;
      assert name == [name[0]] + name[1..];
    }
  }

  function Picked(m: map<string, string>, names: seq<string>): map<string, string>
    requires forall n :: n in names ==> n in m
  {
    map n | n in names :: m[n]
  }

  lemma PickedFirst(m: map<string, string>, before: map<string, string>, names: seq<string>)
    requires names != [] && forall n :: n in names ==> n in m
    ensures before[names[0] := m[names[0]]] + Picked(m, names[1..]) == before + Picked(m, names)
  {
    assert forall k :: k in names <==> k == names[0] || k in names[1..];
  }

  lemma {:induction false} PrintedDefines(defines: map<string, string>, names: seq<string>, b: seq<string>, e: Entry)
    requires forall n :: n in names ==> n in defines && Without(n, '=')
    ensures Rest(DefineTokens(defines, names) + b, e) ==
            Rest(b, e.(defines := e.defines + Picked(defines, names)))
    decreases |names|
  {
    if names == [] {
      assert DefineTokens(defines, names) + b == b;
      assert e.defines + Picked(defines, names) == e.defines;
    } else {
      var tokens, n := DefineTokens(defines, names) + b, names[0];
      assert tokens[2..] == DefineTokens(defines, names[1..]) + b;
      DefineJoined(n, defines[n]);
      var after := Defining(e, tokens[1]);
      PrintedDefines(defines, names[1..], b, after);
      PickedFirst(defines, e.defines, names);
    }
  }

  lemma {:induction false} PrintedIncludes(includes: seq<string>, b: seq<string>, e: Entry)
    ensures Rest(IncludeTokens(includes) + b, e) == Rest(b, e.(includes := e.includes + includes))
    decreases |includes|
  {
    if includes == [] {
      assert IncludeTokens(includes) + b == b && e.includes + includes == e.includes;
    } else {
      var tokens := IncludeTokens(includes) + b;
      assert tokens[2..] == IncludeTokens(includes[1..]) + b;
      PrintedIncludes(includes[1..], b, Including(e, includes[0]));
      assert e.includes + [includes[0]] + includes[1..] == e.includes + includes;
    }
  }

  lemma {:induction false} PrintedFlags(flags: seq<string>, e: Entry)
    requires forall f :: f in flags ==> IsFlag(f)
    ensures Rest(flags, e) == e.(flags := e.flags + flags)
    decreases |flags|
  {
    if flags == [] {
      assert e.flags + flags == e.flags;
    } else {
      assert flags[0] in flags && WithToken(e, flags[0]) == Flagging(e, flags[0]);
      PrintedFlags(flags[1..], Flagging(e, flags[0]));
      assert e.flags + [flags[0]] + flags[1..] == e.flags + flags;
    }
  }

  /** Parsing a printed entry gives it back. */
  lemma PrintThenParse(e: Entry, names: seq<string>)
    requires WellFormed(e) && forall n :: n in names <==> n in e.defines
    ensures Parsed(Print(e, names), Empty(e.file)) == e
  {
    var tail := IncludeTokens(e.includes) + e.flags;
    var start := Empty(e.file).(compiler := e.compiler);
    assert Print(e, names)[1..] == DefineTokens(e.defines, names) + tail;
    PrintedDefines(e.defines, names, tail, start);
    assert start.defines + Picked(e.defines, names) == e.defines;
    PrintedIncludes(e.includes, e.flags, start.(defines := e.defines));
    assert [] + e.includes == e.includes && [] + e.flags == e.flags;
    PrintedFlags(e.flags, start.(defines := e.defines, includes := e.includes));
  }

  lemma OperandKeepsWellFormed(e: Entry, tok: string, operand: string)
    requires WellFormed(e) && TakesOperand(tok)
    ensures WellFormed(WithOperand(e, tok, operand))
  {
    if tok == "-include" || tok == "-U" {
      BlankMakesAFlag(tok, operand);
    }
  }

  lemma {:induction false} RestKeepsWellFormed(tokens: seq<string>, e: Entry)
    requires WellFormed(e)
    ensures WellFormed(Rest(tokens, e))
    decreases |tokens|
  {
    if tokens == [] {
    } else if !TakesOperand(tokens[0]) {
      RestKeepsWellFormed(tokens[1..], WithToken(e, tokens[0]));
    } else if |tokens| > 1 {
      OperandKeepsWellFormed(e, tokens[0], tokens[1]);
      RestKeepsWellFormed(tokens[2..], WithOperand(e, tokens[0], tokens[1]));
    }
  }

  /** Whatever the tokens, the parsed entry can be printed and parsed back. */
  lemma ParsedSurvivesPrinting(tokens: seq<string>, file: string, names: seq<string>)
    requires forall n :: n in names <==> n in Parsed(tokens, Empty(file)).defines
    ensures Parsed(Print(Parsed(tokens, Empty(file)), names), Empty(file)) == Parsed(tokens, Empty(file))
  {
    if tokens != [] && !IsOption(tokens[0]) {
      RestKeepsWellFormed(tokens[1..], Empty(file).(compiler := tokens[0]));
    } else {
      RestKeepsWellFormed(tokens, Empty(file));
    }
    FileStays(tokens, Empty(file));
    PrintThenParse(Parsed(tokens, Empty(file)), names);
  }

  lemma FileStays(tokens: seq<string>, e: Entry)
    ensures Parsed(tokens, e).file == e.file
  {
    if tokens != [] && !IsOption(tokens[0]) {
      RestFile(tokens[1..], e.(compiler := tokens[0]));
    } else {
      RestFile(tokens, e);
    }
  }

  lemma {:induction false} RestFile(tokens: seq<string>, e: Entry)
    ensures Rest(tokens, e).file == e.file
    decreases |tokens|
  {
    if tokens == [] {
    } else if !TakesOperand(tokens[0]) {
      RestFile(tokens[1..], WithToken(e, tokens[0]));
    } else if |tokens| > 1 {
      RestFile(tokens[2..], WithOperand(e, tokens[0], tokens[1]));
    }
  }

  /******* Aggregation *******/

  /** `AggregatedBuildContext` */
  datatype Context = Context(
    defines: map<string, string>, includes: seq<string>, flags: seq<string>,
    compiler: string, fileCount: nat, perFile: map<string, Entry>)

  const NOTHING := Context(map[], [], [], "", 0, map[])

  /** The list with the items it does not have yet, each once, at its end. */
  function Append(list: seq<string>, items: seq<string>): seq<string> {
    if items == [] then list
    else
      var before, last := Append(list, items[..|items| - 1]), items[|items| - 1];
      if last in before then before else before + [last]
  }

  function Single(e: Entry): Context {
    Context(e.defines, Append([], e.includes), Append([], e.flags), e.compiler, 1, map[e.file := e])
  }

  /** What comes later overrides macros and files; paths and flags keep their first place. */
  function Merge(a: Context, b: Context): Context {
    Context(a.defines + b.defines, Append(a.includes, b.includes), Append(a.flags, b.flags),
            if a.compiler != "" then a.compiler else b.compiler, a.fileCount + b.fileCount, a.perFile + b.perFile)
  }

  function Aggregated(entries: seq<Entry>): Context {
    if entries == [] then NOTHING
    else Merge(Aggregated(entries[..|entries| - 1]), Single(entries[|entries| - 1]))
  }

  method AppendUnseen(list: seq<string>, seen: set<string>, items: seq<string>)
    returns (longer: seq<string>, nowSeen: set<string>)
    requires forall p :: p in seen <==> p in list
    ensures longer == Append(list, items)
    ensures forall p :: p in nowSeen <==> p in longer
  {
    longer, nowSeen := list, seen;
    for i := 0 to |items|
      invariant longer == Append(list, items[..i])
      invariant forall p :: p in nowSeen <==> p in longer
    {
      assert items[..i + 1][..i] == items[..i];
      if items[i] !in nowSeen {
        nowSeen := nowSeen + {items[i]};
        longer := longer + [items[i]];
      }
    }
    assert items[..|items|] == items;
  }

  lemma AggregatedStep(entries: seq<Entry>, i: nat)
    requires i < |entries|
    ensures var x, e := Aggregated(entries[..i]), entries[i];
            Aggregated(entries[..i + 1]) ==
            Context(x.defines + e.defines, Append(x.includes, e.includes), Append(x.flags, e.flags),
                    if x.compiler != "" then x.compiler else e.compiler, x.fileCount + 1, x.perFile[e.file := e])
  {
    var x, e := Aggregated(entries[..i]), entries[i];
    assert entries[..i + 1][..i] == entries[..i];
    AppendTwice(x.includes, [], e.includes);
    AppendTwice(x.flags, [], e.flags);
    assert x.perFile + map[e.file := e] == x.perFile[e.file := e];
  }

  /** `aggregate_build_context` */
  method AggregateBuildContext(entries: seq<Entry>) returns (agg: Context)
    ensures agg == Aggregated(entries)
  {
    var defines: map<string, string> := map[];
    var includes, seenIncludes, flags, seenFlags := [], {}, [], {};
    var compiler, perFile := "", map[];
    for i := 0 to |entries|
      invariant Context(defines, includes, flags, compiler, i, perFile) == Aggregated(entries[..i])
      invariant (forall p :: p in seenIncludes <==> p in includes) && (forall f :: f in seenFlags <==> f in flags)
    {
      var e := entries[i];
      AggregatedStep(entries, i);
      if compiler == "" && e.compiler != "" {
        compiler := e.compiler;
      }
      defines := defines + e.defines;
      includes, seenIncludes := AppendUnseen(includes, seenIncludes, e.includes);
      flags, seenFlags := AppendUnseen(flags, seenFlags, e.flags);
      perFile := perFile[e.file := e];
    }
    assert entries[..|entries|] == entries;
    agg := Context(defines, includes, flags, compiler, |entries|, perFile);
  }

  /** Appending one list and then another is appending the first with the second appended to it. */
  lemma {:induction false} AppendTwice(a: seq<string>, b: seq<string>, c: seq<string>)
    ensures Append(Append(a, b), c) == Append(a, Append(b, c))
  {
    if c == [] {
    } else {
      var n := |c| - 1;
      AppendTwice(a, b, c[..n]);
      var bc := Append(b, c[..n]);
      AppendHas(a, bc, c[n]);
      if c[n] !in bc {
        assert (bc + [c[n]])[..|bc|] == bc;
      }
    }
  }

  lemma {:induction false} AppendHas(list: seq<string>, items: seq<string>, x: string)
    ensures x in Append(list, items) <==> x in list || x in items
  {
    if items != [] {
      AppendHas(list, items[..|items| - 1], x);
      assert items == items[..|items| - 1] + [items[|items| - 1]];
    }
  }

  lemma {:induction false} AppendKeeps(list: seq<string>, items: seq<string>)
    requires forall x :: x in items ==> x in list
    ensures Append(list, items) == list
  {
    if items != [] {
      AppendKeeps(list, items[..|items| - 1]);
    }
  }

  lemma MergeIsAssociative(a: Context, b: Context, c: Context)
    ensures Merge(Merge(a, b), c) == Merge(a, Merge(b, c))
  {
    AppendTwice(a.includes, b.includes, c.includes);
    AppendTwice(a.flags, b.flags, c.flags);
    assert a.defines + b.defines + c.defines == a.defines + (b.defines + c.defines);
    assert a.perFile + b.perFile + c.perFile == a.perFile + (b.perFile + c.perFile);
  }

  /** Aggregating two lists of entries in one go is merging their aggregates. */
  lemma {:induction false} AggregateOfConcat(a: seq<Entry>, b: seq<Entry>)
    ensures Aggregated(a + b) == Merge(Aggregated(a), Aggregated(b))
  {
    if b == [] {
      var x := Aggregated(a);
      assert a + b == a && x.defines + map[] == x.defines && x.perFile + map[] == x.perFile;
    } else {
      var n := |b| - 1;
      assert (a + b)[..|a + b| - 1] == a + b[..n];
      AggregateOfConcat(a, b[..n]);
      MergeIsAssociative(Aggregated(a), Aggregated(b[..n]), Single(b[n]));
    }
  }

  /** Aggregating the same entries again changes nothing but the file count. */
  lemma RepeatingEntriesChangesOnlyTheCount(entries: seq<Entry>)
    ensures var x := Aggregated(entries); Aggregated(entries + entries) == x.(fileCount := 2 * x.fileCount)
  {
    var x := Aggregated(entries);
    AggregateOfConcat(entries, entries);
    AppendKeeps(x.includes, x.includes);
    AppendKeeps(x.flags, x.flags);
    assert x.defines + x.defines == x.defines && x.perFile + x.perFile == x.perFile;
  }

  /******* What the aggregate holds *******/

  function AllIncludes(entries: seq<Entry>): seq<string> {
    if entries == [] then [] else AllIncludes(entries[..|entries| - 1]) + entries[|entries| - 1].includes
  }

  function AllFlags(entries: seq<Entry>): seq<string> {
    if entries == [] then [] else AllFlags(entries[..|entries| - 1]) + entries[|entries| - 1].flags
  }

  predicate FirstAt(s: seq<string>, x: string, i: nat) {
    i < |s| && s[i] == x && x !in s[..i]
  }

  /** d lists what is in s, in the order of first occurrence, each once. */
  ghost predicate InFirstOrder(d: seq<string>, s: seq<string>) {
    && (forall x :: x in s <==> x in d)
    && (forall i, j, k, l :: 0 <= i < j < |d| && FirstAt(s, d[i], k) && FirstAt(s, d[j], l) ==> k < l)
  }

  lemma {:induction false} AppendInFirstOrder(s: seq<string>)
    ensures InFirstOrder(Append([], s), s)
  {
    if s != [] {
      var n := |s| - 1;
      var d, e := Append([], s[..n]), Append([], s);
      AppendInFirstOrder(s[..n]);
      forall x ensures x in s <==> x in e {
        AppendHas([], s, x);
      }
      forall i, j, k, l | 0 <= i < j < |e| && FirstAt(s, e[i], k) && FirstAt(s, e[j], l) ensures k < l {
        assert e[i] == d[i] && d[i] in s[..n];
        FirstInPrefix(s, d[i], k);
        if j < |d| {
          assert d[j] in s[..n];
          FirstInPrefix(s, d[j], l);
        }
      }
    }
  }

  lemma FirstIsFirst(s: seq<string>, x: string, k: nat, m: nat)
    requires FirstAt(s, x, k) && m < |s| && s[m] == x
    ensures k <= m
  {
    assert forall j :: 0 <= j < k ==> s[..k][j] == s[j];
  }

  lemma FirstInPrefix(s: seq<string>, x: string, k: nat)
    requires s != [] && FirstAt(s, x, k) && x in s[..|s| - 1]
    ensures FirstAt(s[..|s| - 1], x, k)
  {
    var n := |s| - 1;
    var m :| 0 <= m < n && s[..n][m] == x;
    FirstIsFirst(s, x, k, m);
    assert s[..n][..k] == s[..k];
  }

  lemma {:induction false} AppendFlattens(a: seq<string>, b: seq<string>)
    ensures Append(Append([], a), b) == Append([], a + b)
  {
    if b == [] {
      assert a + b == a;
    } else {
      var n := |b| - 1;
      assert (a + b)[..|a + b| - 1] == a + b[..n];
      AppendFlattens(a, b[..n]);
    }
  }

  /** Include paths and flags are those of all entries together, in the order of first occurrence. */
  lemma {:induction false} PathsInFirstOrder(entries: seq<Entry>)
    ensures Aggregated(entries).includes == Append([], AllIncludes(entries))
    ensures Aggregated(entries).flags == Append([], AllFlags(entries))
    ensures InFirstOrder(Aggregated(entries).includes, AllIncludes(entries))
    ensures InFirstOrder(Aggregated(entries).flags, AllFlags(entries))
  {
    if entries != [] {
      var n := |entries| - 1;
      var before, e := Aggregated(entries[..n]), entries[n];
      PathsInFirstOrder(entries[..n]);
      AppendTwice(before.includes, [], e.includes);
      AppendTwice(before.flags, [], e.flags);
      AppendFlattens(AllIncludes(entries[..n]), e.includes);
      AppendFlattens(AllFlags(entries[..n]), e.flags);
    }
    AppendInFirstOrder(AllIncludes(entries));
    AppendInFirstOrder(AllFlags(entries));
  }

  /** A macro has the value of the last entry that defines it. */
  lemma {:induction false} LastDefinitionWins(entries: seq<Entry>, name: string, k: nat)
    requires k < |entries| && name in entries[k].defines
    requires forall j :: k < j < |entries| ==> name !in entries[j].defines
    ensures name in Aggregated(entries).defines && Aggregated(entries).defines[name] == entries[k].defines[name]
  {
    if k < |entries| - 1 {
      LastDefinitionWins(entries[..|entries| - 1], name, k);
    }
  }

  lemma {:induction false} NoOtherMacros(entries: seq<Entry>, name: string)
    requires forall e :: e in entries ==> name !in e.defines
    ensures name !in Aggregated(entries).defines
  {
    if entries != [] {
      NoOtherMacros(entries[..|entries| - 1], name);
    }
  }

  /** A file has its last entry, and every entry is counted. */
  lemma {:induction false} LastEntryOfFile(entries: seq<Entry>, k: nat)
    requires k < |entries| && forall j :: k < j < |entries| ==> entries[j].file != entries[k].file
    ensures var x := Aggregated(entries);
            x.fileCount == |entries| && entries[k].file in x.perFile && x.perFile[entries[k].file] == entries[k]
  {
    CountsEntries(entries);
    if k < |entries| - 1 {
      LastEntryOfFile(entries[..|entries| - 1], k);
    }
  }

  lemma {:induction false} CountsEntries(entries: seq<Entry>)
    ensures Aggregated(entries).fileCount == |entries|
  {
    if entries != [] {
      CountsEntries(entries[..|entries| - 1]);
    }
  }

  /** The compiler is the first one named, if any is. */
  lemma {:induction false} FirstCompilerWins(entries: seq<Entry>, k: nat)
    requires k <= |entries| && forall j :: 0 <= j < k ==> entries[j].compiler == ""
    requires k < |entries| ==> entries[k].compiler != ""
    ensures Aggregated(entries).compiler == if k < |entries| then entries[k].compiler else ""
  {
    if entries != [] {
      FirstCompilerWins(entries[..|entries| - 1], if k < |entries| then k else k - 1);
    }
  }
}
