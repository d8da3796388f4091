/** Resolving the callee of a raw call (analyzers/resolved_edges_engine.py). */
module CalleeResolution {
  import opened Wrappers
  import opened Text

  /** A row of `symbols` joined with its file; a missing qualified name is "". */
  datatype Symbol = Symbol(id: int, name: string, qname: string, file: string)

  datatype SearchPaths = SearchPaths(includePaths: seq<string>, sysroot: string, toolchainDirs: seq<string>)

  datatype Method = ExactMatch | SimpleNameUnique | SameFile | IncludePath | Sysroot | Unresolved

  datatype Callee = Callee(id: int, file: string, how: Method)

  const UNRESOLVED := Callee(0, "", Unresolved)

  /******* Rows, scanned one by one *******/

  /** The last row with a property. */
  function Last(rows: seq<Symbol>, p: Symbol -> bool): (r: Option<Symbol>)
    ensures r.Some? ==> r.value in rows && p(r.value)
    ensures r.None? <==> forall s :: s in rows ==> !p(s)
  {
    if rows == [] then None
    else if p(rows[|rows| - 1]) then Some(rows[|rows| - 1])
    else Last(rows[..|rows| - 1], p)
  }

  /** The rows with a property, in order. */
  function All(rows: seq<Symbol>, p: Symbol -> bool): (r: seq<Symbol>)
    ensures forall s :: s in r <==> s in rows && p(s)
  {
    if rows == [] then []
    else if p(rows[|rows| - 1]) then All(rows[..|rows| - 1], p) + [rows[|rows| - 1]]
    else All(rows[..|rows| - 1], p)
  }

  function Ids(rows: seq<Symbol>): (r: seq<int>)
    ensures |r| == |rows|
  {
    seq(|rows|, i requires 0 <= i < |rows| => rows[i].id)
  }

  function HasQname(q: string): Symbol -> bool {
    (s: Symbol) => s.qname != "" && s.qname == q
  }

  function HasName(n: string): Symbol -> bool {
    (s: Symbol) => s.name == n
  }

  function IsIn(file: string, n: string): Symbol -> bool {
    (s: Symbol) => s.file == file && s.name == n
  }

  /** Identifiers are the primary key of `symbols`, and start at 1. */
  predicate Keyed(rows: seq<Symbol>) {
    && (forall i, j :: 0 <= i < j < |rows| ==> rows[i].id != rows[j].id)
    && (forall s :: s in rows ==> s.id != 0)
  }

  /******* Search paths *******/

  /** `_norm_search_path` */
  function Norm(path: string): string {
    var p := ForwardSlashes(path);
    if |p| > 1 && p[|p| - 1] == '/' then TrimRight(p, c => c == '/') else p
  }

  /** Normalizing turns backslashes into slashes and drops slashes at the end, a lone slash aside; nothing else. */
  lemma NormDropsSlashes(path: string)
    ensures var n, p := Norm(path), ForwardSlashes(path);
            && n <= p && (forall i :: |n| <= i < |p| ==> p[i] == '/')
            && (|p| == 1 ==> n == p)
  {
    TrimmedAway(ForwardSlashes(path));
  }

  lemma {:induction false} TrimmedAway(p: string)
    ensures var n := TrimRight(p, c => c == '/'); forall i :: |n| <= i < |p| ==> p[i] == '/'
  {
    if p != "" && p[|p| - 1] == '/' {
      TrimmedAway(p[..|p| - 1]);
    }
  }

  /** A normalized path has no backslash and, unless it is the root, no slash at its end; normalizing again changes nothing. */
  lemma NormIsNormal(path: string)
    ensures var n := Norm(path);
            Without(n, '\\') && (n == "" || n == "/" || n[|n| - 1] != '/') && Norm(n) == n
  {
    var n, p := Norm(path), ForwardSlashes(path);
    assert Without(p, '\\') && n <= p;
    assert ForwardSlashes(n) == n;
  }

  /** `p.rsplit("/", 1)[-1]` */
  function Basename(p: string): (b: string)
    ensures Without(b, '/')
    ensures b == p || (|b| < |p| && p[|p| - |b| - 1..] == "/" + b)
  {
    if p == "" || p[|p| - 1] == '/' then "" else Basename(p[..|p| - 1]) + [p[|p| - 1]]
  }

  /** The normalized file starts with a normalized include path; no path separator needs to follow. */
  function UnderInclude(paths: SearchPaths): Symbol -> bool {
    (s: Symbol) => s.file != "" && exists p :: p in paths.includePaths && Norm(p) != "" && Norm(p) <= Norm(s.file)
  }

  predicate StartsAt(dir: string, file: string) {
    Basename(Norm(dir)) != "" && Basename(Norm(dir)) <= Norm(file)
  }

  /** Not under an include path, and starting with the basename of the sysroot or a toolchain directory. */
  function UnderSysroot(paths: SearchPaths): Symbol -> bool {
    (s: Symbol) => && s.file != "" && !UnderInclude(paths)(s)
         && exists d :: d in [paths.sysroot] + paths.toolchainDirs && StartsAt(d, s.file)
  }

  ghost predicate BeginsWith(s: string, p: string) {
    exists rest :: s == p + rest
  }

  lemma PrefixBegins(p: string, s: string)
    ensures p <= s <==> BeginsWith(s, p)
  {
    if p <= s {
      assert s == p + s[|p|..];
    }
  }

  /** The normalized file begins with a normalized include path. */
  lemma IncludeMeans(paths: SearchPaths, s: Symbol)
    ensures UnderInclude(paths)(s) <==>
            s.file != "" && exists p :: p in paths.includePaths && Norm(p) != "" && BeginsWith(Norm(s.file), Norm(p))
  {
    forall p ensures Norm(p) <= Norm(s.file) <==> BeginsWith(Norm(s.file), Norm(p)) {
      PrefixBegins(Norm(p), Norm(s.file));
    }
  }

  /** Under no include path, and beginning with the last part of the sysroot or of a toolchain directory. */
  lemma SysrootMeans(paths: SearchPaths, s: Symbol)
    ensures UnderSysroot(paths)(s) <==>
            && s.file != "" && !UnderInclude(paths)(s)
            && (BeginsWithPart(paths.sysroot, s.file) ||
                exists d :: d in paths.toolchainDirs && BeginsWithPart(d, s.file))
  {
    forall d ensures StartsAt(d, s.file) <==> BeginsWithPart(d, s.file) {
      PrefixBegins(Basename(Norm(d)), Norm(s.file));
    }
    forall d ensures d in [paths.sysroot] + paths.toolchainDirs <==> d == paths.sysroot || d in paths.toolchainDirs {
    }
  }

  ghost predicate BeginsWithPart(dir: string, file: string) {
    var part := Basename(Norm(dir));
    part != "" && BeginsWith(Norm(file), part)
  }

  function FromPaths(named: seq<Symbol>, paths: SearchPaths): Option<Callee> {
    var inc, sys := All(named, UnderInclude(paths)), All(named, UnderSysroot(paths));
    if |inc| == 1 then Some(Callee(inc[0].id, inc[0].file, IncludePath))
    else if |sys| == 1 then Some(Callee(sys[0].id, sys[0].file, Sysroot))
    else None
  }

  /** The five levels, by scanning the rows. */
  function Resolved(rows: seq<Symbol>, callee: string, callerFile: string, search: Option<SearchPaths>): Callee {
    var exact, named, local := Last(rows, HasQname(callee)), All(rows, HasName(callee)),
                               Last(rows, IsIn(callerFile, callee));
    if exact.Some? then Callee(exact.value.id, exact.value.file, ExactMatch)
    else if |named| == 1 then Callee(named[0].id, named[0].file, SimpleNameUnique)
    else if local.Some? then Callee(local.value.id, callerFile, SameFile)
    else if search.Some? && |named| > 1 && FromPaths(named, search.value).Some?
    then FromPaths(named, search.value).value
    else UNRESOLVED
  }

  /******* The four indexes *******/

  datatype Index = Index(
    qnameMap: map<string, int>, nameIndex: map<string, seq<int>>,
    fileSymbols: map<string, map<string, int>>, fileForSymbol: map<int, string>)

  function Get<K, V>(m: map<K, V>, k: K): Option<V> {
    if k in m then Some(m[k]) else None
  }

  function IdOf(s: Option<Symbol>): Option<int> {
    if s.Some? then Some(s.value.id) else None
  }

  function InFile(ix: Index, file: string, name: string): Option<int> {
    if file in ix.fileSymbols then Get(ix.fileSymbols[file], name) else None
  }

  function HasId(id: int): Symbol -> bool {
    (s: Symbol) => s.id == id
  }

  /** Every lookup gives what a scan over the rows gives. */
  ghost predicate Indexes(ix: Index, rows: seq<Symbol>) {
    && (forall q :: Get(ix.qnameMap, q) == IdOf(Last(rows, HasQname(q))))
    && (forall n :: NamesFit(ix, rows, n))
    && (forall f, n :: InFile(ix, f, n) == IdOf(Last(rows, IsIn(f, n))))
    && (forall id :: FileFits(ix, rows, id))
  }

  ghost predicate NamesFit(ix: Index, rows: seq<Symbol>, n: string) {
    (if n in ix.nameIndex then ix.nameIndex[n] else []) == Ids(All(rows, HasName(n)))
  }

  ghost predicate FileFits(ix: Index, rows: seq<Symbol>, id: int) {
    var s := Last(rows, HasId(id));
    Get(ix.fileForSymbol, id) == if s.Some? then Some(s.value.file) else None
  }

  /** `_build_symbol_index` */
  method BuildSymbolIndex(rows: seq<Symbol>) returns (ix: Index)
    ensures Indexes(ix, rows)
  {
    var qnameMap: map<string, int> := map[];
    var nameIndex: map<string, seq<int>> := map[];
    var fileSymbols: map<string, map<string, int>> := map[];
    var fileForSymbol: map<int, string> := map[];
    for i := 0 to |rows|
      invariant Indexes(Index(qnameMap, nameIndex, fileSymbols, fileForSymbol), rows[..i])
    {
      var s := rows[i];
      ghost var before := Index(qnameMap, nameIndex, fileSymbols, fileForSymbol);
      if s.qname != "" {
        qnameMap := qnameMap[s.qname := s.id];
      }
      nameIndex := nameIndex[s.name := (if s.name in nameIndex then nameIndex[s.name] else []) + [s.id]];
      var inFile := if s.file in fileSymbols then fileSymbols[s.file] else map[];
      fileSymbols := fileSymbols[s.file := inFile[s.name := s.id]];
      fileForSymbol := fileForSymbol[s.id := s.file];
      IndexGrows(before, Index(qnameMap, nameIndex, fileSymbols, fileForSymbol), rows[..i], s);
      assert rows[..i + 1] == rows[..i] + [s];
    }
    assert rows[..|rows|] == rows;
    ix := Index(qnameMap, nameIndex, fileSymbols, fileForSymbol);
  }

  ghost predicate Adds(before: Index, after: Index, s: Symbol) {
    && after.qnameMap == (if s.qname != "" then before.qnameMap[s.qname := s.id] else before.qnameMap)
    && after.nameIndex ==
       before.nameIndex[s.name := (if s.name in before.nameIndex then before.nameIndex[s.name] else []) + [s.id]]
    && after.fileSymbols ==
       before.fileSymbols[s.file :=
         (if s.file in before.fileSymbols then before.fileSymbols[s.file] else map[])[s.name := s.id]]
    && after.fileForSymbol == before.fileForSymbol[s.id := s.file]
  }

  lemma AllGrows(rows: seq<Symbol>, s: Symbol, p: Symbol -> bool)
    ensures All(rows + [s], p) == if p(s) then All(rows, p) + [s] else All(rows, p)
  {
    var more := rows + [s];
    assert more[..|more| - 1] == rows && more[|more| - 1] == s;
  }

  lemma IdsGrow(rows: seq<Symbol>, s: Symbol)
    ensures Ids(rows + [s]) == Ids(rows) + [s.id]
  {
  }

  lemma NamesGrow(before: Index, after: Index, rows: seq<Symbol>, s: Symbol, n: string)
    requires NamesFit(before, rows, n) && Adds(before, after, s)
    ensures NamesFit(after, rows + [s], n)
  {
    AllGrows(rows, s, HasName(n));
    IdsGrow(All(rows, HasName(n)), s);
  }

  lemma FilesGrow(before: Index, after: Index, rows: seq<Symbol>, s: Symbol, id: int)
    requires FileFits(before, rows, id) && Adds(before, after, s)
    ensures FileFits(after, rows + [s], id)
  {
    var more := rows + [s];
    assert more[..|more| - 1] == rows && more[|more| - 1] == s;
  }

  lemma IndexGrows(before: Index, after: Index, rows: seq<Symbol>, s: Symbol)
    requires Indexes(before, rows) && Adds(before, after, s)
    ensures Indexes(after, rows + [s])
  {
    var more := rows + [s];
    assert more[..|more| - 1] == rows && more[|more| - 1] == s;
    forall n ensures NamesFit(after, more, n) {
      NamesGrow(before, after, rows, s, n);
    }
    forall id ensures FileFits(after, more, id) {
      FilesGrow(before, after, rows, s, id);
    }
  }

  lemma FileOfRow(ix: Index, rows: seq<Symbol>, s: Symbol)
    requires Indexes(ix, rows) && Keyed(rows) && s in rows
    ensures Get(ix.fileForSymbol, s.id) == Some(s.file)
  {
    var t := Last(rows, HasId(s.id));
    assert FileFits(ix, rows, s.id);
    assert HasId(s.id)(s);
    var i, j :| 0 <= i < |rows| && 0 <= j < |rows| && rows[i] == s && rows[j] == t.value;
  }

  /******* Resolving through the indexes *******/

  function FileFor(ix: Index, id: int): string {
    if id in ix.fileForSymbol then ix.fileForSymbol[id] else ""
  }

  function Normalized(paths: seq<string>): (r: seq<string>)
    ensures forall q :: q in r ==> exists p :: p in paths && q == Norm(p)
    ensures forall p :: p in paths && p != "" ==> Norm(p) in r
  {
    if paths == [] then []
    else if paths[0] != "" then [Norm(paths[0])] + Normalized(paths[1..])
    else Normalized(paths[1..])
  }

  method HitsInclude(dirs: seq<string>, file: string) returns (hit: bool)
    ensures hit <==> exists d :: d in dirs && d != "" && d <= file
  {
    for i := 0 to |dirs|
      invariant forall k :: 0 <= k < i ==> dirs[k] == "" || !(dirs[k] <= file)
    {
      if dirs[i] != "" && dirs[i] <= file {
        assert dirs[i] in dirs;
        return true;
      }
    }
    return false;
  }

  method HitsBasename(dirs: seq<string>, file: string) returns (hit: bool)
    ensures hit <==> exists d :: d in dirs && Basename(d) != "" && Basename(d) <= file
  {
    for i := 0 to |dirs|
      invariant forall k :: 0 <= k < i ==> Basename(dirs[k]) == "" || !(Basename(dirs[k]) <= file)
    {
      if dirs[i] == "" {
        continue;
      }
      var base := Basename(dirs[i]);
      if base != "" && base <= file {
        assert dirs[i] in dirs;
        return true;
      }
    }
    return false;
  }

  /** The places of the rows with a property. */
  ghost function Places(rows: seq<Symbol>, p: Symbol -> bool): set<nat> {
    set i: nat | i < |rows| && p(rows[i])
  }

  lemma {:induction false} AllHasSize(rows: seq<Symbol>, p: Symbol -> bool)
    ensures |All(rows, p)| == |Places(rows, p)|
  {
    if rows != [] {
      var n := |rows| - 1;
      AllHasSize(rows[..n], p);
      assert Places(rows, p) == Places(rows[..n], p) + if p(rows[n]) then {n} else {};
    } else {
      assert Places(rows, p) == {};
    }
  }

  /** A lone include-path hit is taken first, then a lone hit of the system directories. */
  ghost predicate FitsCounts(named: seq<Symbol>, paths: SearchPaths, r: Option<Callee>) {
    var inc, sys := |Places(named, UnderInclude(paths))|, |Places(named, UnderSysroot(paths))|;
    && (r.Some? ==> r.value.how in {IncludePath, Sysroot})
    && (r.Some? && r.value.how == IncludePath <==> inc == 1)
    && (r.Some? && r.value.how == Sysroot <==> inc != 1 && sys == 1)
  }

  lemma PathsByCount(named: seq<Symbol>, paths: SearchPaths)
    ensures FitsCounts(named, paths, FromPaths(named, paths))
  {
    AllHasSize(named, UnderInclude(paths));
    AllHasSize(named, UnderSysroot(paths));
  }

  lemma HitsGrow(named: seq<Symbol>, p: Symbol -> bool, i: nat)
    requires i < |named|
    ensures Ids(All(named[..i + 1], p)) == Ids(All(named[..i], p)) + if p(named[i]) then [named[i].id] else []
  {
    assert named[..i + 1][..i] == named[..i];
    IdsGrow(All(named[..i], p), named[i]);
  }

  /** `_resolve_callee_include_path`; named are the candidates' rows. */
  method ResolveIncludePath(candidates: seq<int>, ix: Index, search: SearchPaths,
                            ghost rows: seq<Symbol>, ghost named: seq<Symbol>)
    returns (r: Option<Callee>)
    requires Indexes(ix, rows) && Keyed(rows)
    requires candidates == Ids(named) && forall s :: s in named ==> s in rows
    ensures r == FromPaths(named, search)
    ensures FitsCounts(named, search, r)
  {
    var includes := Normalized(search.includePaths);
    var sysroot := if search.sysroot != "" then Norm(search.sysroot) else "";
    var toolchain := [sysroot] + Normalized(search.toolchainDirs);
    var includeHits: seq<int>, sysrootHits: seq<int> := [], [];
    for i := 0 to |candidates|
      invariant includeHits == Ids(All(named[..i], UnderInclude(search)))
      invariant sysrootHits == Ids(All(named[..i], UnderSysroot(search)))
    {
      ghost var s := named[i];
      assert s in named;
      FileOfRow(ix, rows, s);
      HitsGrow(named, UnderInclude(search), i);
      HitsGrow(named, UnderSysroot(search), i);
      var file := FileFor(ix, candidates[i]);
      if file == "" {
        continue;
      }
      var hit := HitsInclude(includes, Norm(file));
      assert hit <==> UnderInclude(search)(s);
      if hit {
        includeHits := includeHits + [candidates[i]];
        continue;
      }
      hit := HitsBasename(toolchain, Norm(file));
      ToolchainDirs(search, toolchain, file);
      assert hit <==> UnderSysroot(search)(s);
      if hit {
        sysrootHits := sysrootHits + [candidates[i]];
      }
    }
    assert named[..|candidates|] == named;
    PathsByCount(named, search);
    if |includeHits| == 1 {
      FileOfRow(ix, rows, All(named, UnderInclude(search))[0]);
      return Some(Callee(includeHits[0], FileFor(ix, includeHits[0]), IncludePath));
    }
    if |sysrootHits| == 1 {
      FileOfRow(ix, rows, All(named, UnderSysroot(search))[0]);
      return Some(Callee(sysrootHits[0], FileFor(ix, sysrootHits[0]), Sysroot));
    }
    return None;
  }

  function SystemDirs(search: SearchPaths): seq<string> {
    [if search.sysroot != "" then Norm(search.sysroot) else ""] + Normalized(search.toolchainDirs)
  }

  lemma SystemDirIsNormal(search: SearchPaths, d: string) returns (p: string)
    requires d in SystemDirs(search) && d != ""
    ensures p in [search.sysroot] + search.toolchainDirs && d == Norm(p)
  {
    var dirs := SystemDirs(search);
    if d == dirs[0] {
      p := search.sysroot;
    } else {
      assert d in Normalized(search.toolchainDirs);
      p :| p in search.toolchainDirs && d == Norm(p);
    }
  }

  lemma NormalIsSystemDir(search: SearchPaths, p: string)
    requires p in [search.sysroot] + search.toolchainDirs && p != ""
    ensures Norm(p) in SystemDirs(search)
  {
    var dirs := SystemDirs(search);
    if p == search.sysroot {
      assert Norm(p) == dirs[0];
    } else {
      assert Norm(p) in Normalized(search.toolchainDirs);
    }
  }

  lemma ToolchainDirs(search: SearchPaths, dirs: seq<string>, file: string)
    requires dirs == SystemDirs(search)
    ensures (exists d :: d in dirs && Basename(d) != "" && Basename(d) <= Norm(file)) <==>
            exists d :: d in [search.sysroot] + search.toolchainDirs && StartsAt(d, file)
  {
    assert Norm("") == "" == Basename("");
    if d :| d in dirs && Basename(d) != "" && Basename(d) <= Norm(file) {
      var p := SystemDirIsNormal(search, d);
      assert StartsAt(p, file);
    }
    if d :| d in [search.sysroot] + search.toolchainDirs && StartsAt(d, file) {
      NormalIsSystemDir(search, d);
    }
  }

  /** `_resolve_callee`: what the indexes give is what a scan over the rows gives. */
  method ResolveCallee(callee: string, callerFile: string, ix: Index, search: Option<SearchPaths>,
                       ghost rows: seq<Symbol>)
    returns (r: Callee)
    requires Indexes(ix, rows) && Keyed(rows)
    ensures r == Resolved(rows, callee, callerFile, search)
  {
    ghost var exact, named := Last(rows, HasQname(callee)), All(rows, HasName(callee));
    assert NamesFit(ix, rows, callee);
    if callee in ix.qnameMap {
      var sid := ix.qnameMap[callee];
      assert Get(ix.qnameMap, callee) == IdOf(exact);
      FileOfRow(ix, rows, exact.value);
      return Callee(sid, FileFor(ix, sid), ExactMatch);
    }
    assert Get(ix.qnameMap, callee) == IdOf(exact);
    var candidates := if callee in ix.nameIndex then ix.nameIndex[callee] else [];
    if |candidates| == 1 {
      var sid := candidates[0];
      FileOfRow(ix, rows, named[0]);
      return Callee(sid, FileFor(ix, sid), SimpleNameUnique);
    }
    var fileSyms := if callerFile in ix.fileSymbols then ix.fileSymbols[callerFile] else map[];
    assert InFile(ix, callerFile, callee) == Get(fileSyms, callee);
    if callee in fileSyms {
      return Callee(fileSyms[callee], callerFile, SameFile);
    }
    if search.Some? && |candidates| > 1 {
      var found := ResolveIncludePath(candidates, ix, search.value, rows, named);
      if found.Some? {
        return found.value;
      }
    }
    return UNRESOLVED;
  }

  /******* What resolution promises *******/

  /** The answer is a row of the workspace under its own file, found by the name asked for; or it is unresolved, with id 0. */
  lemma CalleeIsARow(rows: seq<Symbol>, callee: string, callerFile: string, search: Option<SearchPaths>)
    requires Keyed(rows)
    ensures var r := Resolved(rows, callee, callerFile, search);
            && (r.id == 0 <==> r.how == Unresolved)
            && (r.how == ExactMatch ==> exists s :: s in rows && s.id == r.id && s.file == r.file && s.qname == callee)
            && (r.how !in {ExactMatch, Unresolved} ==>
                  exists s :: s in rows && s.id == r.id && s.file == r.file && s.name == callee)
            && (r.how == SameFile ==> r.file == callerFile)
  {
    var r, named := Resolved(rows, callee, callerFile, search), All(rows, HasName(callee));
    if r.how == IncludePath {
      var s := All(named, UnderInclude(search.value))[0];
      assert s in All(named, UnderInclude(search.value));
      assert s in rows && HasName(callee)(s);
    } else if r.how == Sysroot {
      var s := All(named, UnderSysroot(search.value))[0];
      assert s in All(named, UnderSysroot(search.value));
      assert s in rows && HasName(callee)(s);
    } else if r.how == SimpleNameUnique {
      assert named[0] in named;
    } else if r.how == SameFile {
      var s := Last(rows, IsIn(callerFile, callee)).value;
      assert s in rows && IsIn(callerFile, callee)(s);
    }
  }

  lemma OnlyOne(rows: seq<Symbol>, p: Symbol -> bool, s: Symbol)
    requires |All(rows, p)| == 1 && s in rows && p(s)
    ensures All(rows, p) == [s]
  {
    assert s in All(rows, p);
  }

  /** No other row could have been meant by name: the label says which ones were ruled out. */
  lemma RivalsAreRuledOut(rows: seq<Symbol>, callee: string, callerFile: string, search: Option<SearchPaths>, s: Symbol)
    requires s in rows && s.name == callee
    ensures var r := Resolved(rows, callee, callerFile, search);
            && (r.how == SimpleNameUnique ==> s.id == r.id)
            && (r.how in {IncludePath, Sysroot, Unresolved} ==> s.file != callerFile)
  {
    var r := Resolved(rows, callee, callerFile, search);
    if r.how == SimpleNameUnique {
      OnlyOne(rows, HasName(callee), s);
    } else if s.file == callerFile {
      assert IsIn(callerFile, callee)(s);
    }
  }

  /** A callee found through the search paths is the only row of its name there. */
  lemma OnlyOneOnPath(named: seq<Symbol>, paths: SearchPaths, s: Symbol)
    requires s in named && FromPaths(named, paths).Some?
    ensures var r := FromPaths(named, paths).value;
            && (r.how == IncludePath && UnderInclude(paths)(s) ==> s.id == r.id)
            && (r.how == Sysroot && UnderSysroot(paths)(s) ==> s.id == r.id)
  {
    var inc, sys := UnderInclude(paths), UnderSysroot(paths);
    if |All(named, inc)| == 1 {
      if inc(s) {
        OnlyOne(named, inc, s);
      }
    } else if sys(s) {
      OnlyOne(named, sys, s);
    }
  }

  /**
   A call stays unresolved exactly when no row has the qualified name, the name is not on exactly one
   row, none of its rows is in the caller's file, and neither exactly one of them is under an include
   path nor exactly one under the system directories. So several include-path hits do not stop a
   lone sysroot hit from being taken.
   */
  lemma UnresolvedExactly(rows: seq<Symbol>, callee: string, callerFile: string, search: Option<SearchPaths>)
    ensures var named := All(rows, HasName(callee));
            Resolved(rows, callee, callerFile, search).how == Unresolved <==>
            && All(rows, HasQname(callee)) == [] && |named| != 1 && All(rows, IsIn(callerFile, callee)) == []
            && (search.None? || (|All(named, UnderInclude(search.value))| != 1
                                 && |All(named, UnderSysroot(search.value))| != 1))
  {
    var named := All(rows, HasName(callee));
    NoneIsEmpty(rows, HasQname(callee));
    NoneIsEmpty(rows, IsIn(callerFile, callee));
    assert named == [] && search.Some? ==> All(named, UnderInclude(search.value)) == [];
  }

  lemma NoneIsEmpty(rows: seq<Symbol>, p: Symbol -> bool)
    ensures Last(rows, p).None? <==> All(rows, p) == []
  {
    if All(rows, p) != [] {
      assert All(rows, p)[0] in All(rows, p);
    }
  }

  /******* The levels, by counting rows *******/

  lemma {:induction false} AllOfAll(rows: seq<Symbol>, p: Symbol -> bool, q: Symbol -> bool, both: Symbol -> bool)
    requires forall s :: both(s) <==> p(s) && q(s)
    ensures All(All(rows, p), q) == All(rows, both)
  {
    if rows != [] {
      var n := |rows| - 1;
      AllOfAll(rows[..n], p, q, both);
      if p(rows[n]) {
        assert All(rows, p)[..|All(rows, p)| - 1] == All(rows[..n], p);
      }
    }
  }

  function And(p: Symbol -> bool, q: Symbol -> bool): Symbol -> bool {
    (s: Symbol) => p(s) && q(s)
  }

  /** How many rows of a name are under an include path, and how many under the system directories only. */
  ghost function IncludeHits(rows: seq<Symbol>, callee: string, paths: SearchPaths): nat {
    |Places(rows, And(HasName(callee), UnderInclude(paths)))|
  }

  ghost function SysrootHits(rows: seq<Symbol>, callee: string, paths: SearchPaths): nat {
    |Places(rows, And(HasName(callee), UnderSysroot(paths)))|
  }

  /** A row answers at a level if it has the property of the level and none behind it has. */
  ghost predicate LastWith(rows: seq<Symbol>, p: Symbol -> bool, r: Callee) {
    exists i: nat :: LastAt(rows, p, i) && r.id == rows[i].id && r.file == rows[i].file
  }

  predicate LastAt(rows: seq<Symbol>, p: Symbol -> bool, i: nat) {
    i < |rows| && p(rows[i]) && forall k :: i < k < |rows| ==> !p(rows[k])
  }

  lemma {:induction false} LastIsAt(rows: seq<Symbol>, p: Symbol -> bool) returns (i: nat)
    requires Last(rows, p).Some?
    ensures LastAt(rows, p, i) && Last(rows, p) == Some(rows[i])
  {
    i := |rows| - 1;
    if !p(rows[i]) {
      var before := rows[..i];
      i := LastIsAt(before, p);
      assert forall k :: i < k < |before| ==> before[k] == rows[k];
    }
  }

  lemma LastIsLast(rows: seq<Symbol>, p: Symbol -> bool, r: Callee)
    requires var s := Last(rows, p); s.Some? && r.id == s.value.id && r.file == s.value.file
    ensures LastWith(rows, p, r)
  {
    var i := LastIsAt(rows, p);
  }

  /**
   Which level answers, and with which row: the last row with the qualified name, if there is one; else the
   only row of the name, even in the caller's own file; else the last one in that file; else the only
   one under an include path; else, unless that is the answer, the only one under the system directories.
   */
  lemma LevelsByCount(rows: seq<Symbol>, callee: string, callerFile: string, search: Option<SearchPaths>)
    ensures var r := Resolved(rows, callee, callerFile, search);
            var exact, named, local := HasQname(callee), HasName(callee), IsIn(callerFile, callee);
            var anyExact, anyLocal := exists s :: s in rows && exact(s), exists s :: s in rows && local(s);
            var below := !anyExact && |Places(rows, named)| > 1 && !anyLocal && search.Some?;
            && (r.how == ExactMatch <==> anyExact)
            && (r.how == SimpleNameUnique <==> !anyExact && |Places(rows, named)| == 1)
            && (r.how == SameFile <==> !anyExact && |Places(rows, named)| != 1 && anyLocal)
            && (r.how == IncludePath <==> below && IncludeHits(rows, callee, search.value) == 1)
            && (r.how == Sysroot <==> below && IncludeHits(rows, callee, search.value) != 1 &&
                                      SysrootHits(rows, callee, search.value) == 1)
            && (r.how == ExactMatch ==> LastWith(rows, exact, r))
            && (r.how == SimpleNameUnique ==> LastWith(rows, named, r))
            && (r.how == SameFile ==> LastWith(rows, local, r))
            && (r.how == IncludePath ==> LastWith(rows, And(named, UnderInclude(search.value)), r))
            && (r.how == Sysroot ==> LastWith(rows, And(named, UnderSysroot(search.value)), r))
  {
    var r := Resolved(rows, callee, callerFile, search);
    AllHasSize(rows, HasName(callee));
    if search.Some? {
      HitsOfNamed(rows, callee, UnderInclude(search.value), r);
      HitsOfNamed(rows, callee, UnderSysroot(search.value), r);
    }
    match r.how
    case ExactMatch => LastIsLast(rows, HasQname(callee), r);
    case SimpleNameUnique => OnlyIsLast(rows, HasName(callee), r);
    case SameFile => LastIsLast(rows, IsIn(callerFile, callee), r);
    case _ =>
  }

  lemma OnlyIsLast(rows: seq<Symbol>, p: Symbol -> bool, r: Callee)
    requires var one := All(rows, p); |one| == 1 && r.id == one[0].id && r.file == one[0].file
    ensures LastWith(rows, p, r)
  {
    NoneIsEmpty(rows, p);
    var s := Last(rows, p).value;
    OnlyOne(rows, p, s);
    LastIsLast(rows, p, r);
  }

  lemma HitsOfNamed(rows: seq<Symbol>, callee: string, p: Symbol -> bool, r: Callee)
    ensures |All(All(rows, HasName(callee)), p)| == |Places(rows, And(HasName(callee), p))|
    ensures var hits := All(All(rows, HasName(callee)), p);
            |hits| == 1 && r.id == hits[0].id && r.file == hits[0].file ==> LastWith(rows, And(HasName(callee), p), r)
  {
    var both, hits := And(HasName(callee), p), All(All(rows, HasName(callee)), p);
    AllOfAll(rows, HasName(callee), p, both);
    AllHasSize(rows, both);
    if |hits| == 1 && r.id == hits[0].id && r.file == hits[0].file {
      OnlyIsLast(rows, both, r);
    }
  }

  /******* The order of the rows *******/

  lemma {:induction false} AllCounts(rows: seq<Symbol>, p: Symbol -> bool, s: Symbol)
    ensures multiset(All(rows, p))[s] == if p(s) then multiset(rows)[s] else 0
  {
    if rows != [] {
      var n := |rows| - 1;
      AllCounts(rows[..n], p, s);
      assert rows == rows[..n] + [rows[n]];
    }
  }

  lemma AllPermutes(rows: seq<Symbol>, other: seq<Symbol>, p: Symbol -> bool)
    requires multiset(rows) == multiset(other)
    ensures multiset(All(rows, p)) == multiset(All(other, p)) && |All(rows, p)| == |All(other, p)|
    ensures |All(rows, p)| == 1 ==> All(rows, p) == All(other, p)
  {
    forall s ensures multiset(All(rows, p))[s] == multiset(All(other, p))[s] {
      AllCounts(rows, p, s);
      AllCounts(other, p, s);
    }
    assert |multiset(All(rows, p))| == |All(rows, p)| && |multiset(All(other, p))| == |All(other, p)|;
    if |All(rows, p)| == 1 {
      assert All(rows, p)[0] in multiset(All(other, p));
    }
  }

  lemma LastPermutes(rows: seq<Symbol>, other: seq<Symbol>, p: Symbol -> bool)
    requires multiset(rows) == multiset(other) && |All(rows, p)| <= 1
    ensures Last(rows, p) == Last(other, p)
  {
    AllPermutes(rows, other, p);
    NoneIsEmpty(rows, p);
    NoneIsEmpty(other, p);
    if |All(rows, p)| == 1 {
      OnlyOne(rows, p, Last(rows, p).value);
      OnlyOne(other, p, Last(other, p).value);
    }
  }

  lemma PathsPermute(named: seq<Symbol>, other: seq<Symbol>, paths: SearchPaths)
    requires multiset(named) == multiset(other)
    ensures FromPaths(named, paths) == FromPaths(other, paths)
  {
    AllPermutes(named, other, UnderInclude(paths));
    AllPermutes(named, other, UnderSysroot(paths));
  }

  /** Among several rows with a property, another order puts another one last. */
  lemma AnotherLast(rows: seq<Symbol>, p: Symbol -> bool) returns (other: seq<Symbol>)
    requires Keyed(rows) && |All(rows, p)| > 1
    ensures multiset(other) == multiset(rows) && Last(rows, p).Some? && Last(other, p).Some?
    ensures Last(other, p).value.id != Last(rows, p).value.id
  {
    NoneIsEmpty(rows, p);
    var l := Last(rows, p).value;
    var a := NotTheSame(rows, p, l);
    var i :| 0 <= i < |rows| && rows[i] == a;
    var j :| 0 <= j < |rows| && rows[j] == l;
    other := MoveToEnd(rows, i);
  }

  function MoveToEnd(rows: seq<Symbol>, i: nat): (other: seq<Symbol>)
    requires i < |rows|
    ensures multiset(other) == multiset(rows) && |other| == |rows| && other[|rows| - 1] == rows[i]
  {
    assert rows == rows[..i] + [rows[i]] + rows[i + 1..];
    rows[..i] + rows[i + 1..] + [rows[i]]
  }

  lemma NotTheSame(rows: seq<Symbol>, p: Symbol -> bool, l: Symbol) returns (a: Symbol)
    requires Keyed(rows) && |All(rows, p)| > 1
    ensures a in rows && p(a) && a != l
  {
    var some := All(rows, p);
    AllCounts(rows, p, l);
    KeyedCounts(rows, l);
    assert some == [some[0], some[1]] + some[2..];
    a := if some[0] != l then some[0] else some[1];
    assert a in some;
  }

  lemma {:induction false} KeyedCounts(rows: seq<Symbol>, s: Symbol)
    requires Keyed(rows)
    ensures multiset(rows)[s] <= 1
  {
    if rows != [] {
      var n := |rows| - 1;
      KeyedCounts(rows[..n], s);
      assert rows == rows[..n] + [rows[n]];
      if rows[n] == s {
        assert s !in rows[..n];
      }
    }
  }

  /**
   The query promises no order of rows. The answer is the same for every order exactly when at most
   one row has the qualified name and, if none has it, at most one row of the caller's file has the name.
   */
  lemma OrderIsIrrelevant(rows: seq<Symbol>, callee: string, callerFile: string, search: Option<SearchPaths>)
    requires Keyed(rows)
    ensures (forall other :: multiset(other) == multiset(rows) ==>
               Resolved(other, callee, callerFile, search) == Resolved(rows, callee, callerFile, search)) <==>
            |All(rows, HasQname(callee))| <= 1
            && (|All(rows, HasQname(callee))| == 0 ==> |All(rows, IsIn(callerFile, callee))| <= 1)
  {
    var exact, local := HasQname(callee), IsIn(callerFile, callee);
    if |All(rows, exact)| > 1 {
      var other := AnotherLast(rows, exact);
      assert Resolved(other, callee, callerFile, search).id == Last(other, exact).value.id;
      assert Resolved(rows, callee, callerFile, search).id == Last(rows, exact).value.id;
    } else if |All(rows, exact)| == 0 && |All(rows, local)| > 1 {
      var other := AnotherLast(rows, local);
      LocalDecides(rows, callee, callerFile, search);
      LastPermutes(rows, other, exact);
      AllPermutes(rows, other, exact);
      AllPermutes(rows, other, local);
      LocalDecides(other, callee, callerFile, search);
    } else {
      forall other | multiset(other) == multiset(rows)
        ensures Resolved(other, callee, callerFile, search) == Resolved(rows, callee, callerFile, search)
      {
        SameForOrder(rows, other, callee, callerFile, search);
      }
    }
  }

  lemma LocalDecides(rows: seq<Symbol>, callee: string, callerFile: string, search: Option<SearchPaths>)
    requires All(rows, HasQname(callee)) == [] && |All(rows, IsIn(callerFile, callee))| > 1
    ensures Last(rows, IsIn(callerFile, callee)).Some?
    ensures Resolved(rows, callee, callerFile, search).id == Last(rows, IsIn(callerFile, callee)).value.id
  {
    NoneIsEmpty(rows, HasQname(callee));
    NoneIsEmpty(rows, IsIn(callerFile, callee));
    LocalsAreNamed(rows, callee, callerFile);
  }

  lemma {:induction false} LocalsAreNamed(rows: seq<Symbol>, callee: string, callerFile: string)
    ensures |All(rows, IsIn(callerFile, callee))| <= |All(rows, HasName(callee))|
  {
    if rows != [] {
      LocalsAreNamed(rows[..|rows| - 1], callee, callerFile);
    }
  }

  lemma SameForOrder(rows: seq<Symbol>, other: seq<Symbol>, callee: string, callerFile: string,
                     search: Option<SearchPaths>)
    requires multiset(other) == multiset(rows)
    requires |All(rows, HasQname(callee))| <= 1
    requires |All(rows, HasQname(callee))| == 0 ==> |All(rows, IsIn(callerFile, callee))| <= 1
    ensures Resolved(other, callee, callerFile, search) == Resolved(rows, callee, callerFile, search)
  {
    LastPermutes(rows, other, HasQname(callee));
    NoneIsEmpty(rows, HasQname(callee));
    if |All(rows, HasQname(callee))| == 0 {
      AllPermutes(rows, other, HasName(callee));
      LastPermutes(rows, other, IsIn(callerFile, callee));
      if search.Some? {
        PathsPermute(All(rows, HasName(callee)), All(other, HasName(callee)), search.value);
      }
    }
  }

  /******* Edges *******/

  datatype RawCall = RawCall(casKey: string, callerLocalId: Option<int>, callee: string, line: int)
  datatype Edge = Edge(caller: int, callee: Callee, calleeName: string, line: int)

  type CallerMap = map<(string, int), int>

  function CallerOf(callers: CallerMap, c: RawCall): Option<int> {
    if c.callerLocalId.Some? then Get(callers, (c.casKey, c.callerLocalId.value)) else None
  }

  /** The edge of a call, or none if its caller is unknown. */
  function EdgeOf(c: RawCall, callers: CallerMap, files: map<string, string>, rows: seq<Symbol>,
                  search: Option<SearchPaths>): Option<Edge>
  {
    var caller := CallerOf(callers, c);
    if caller.None? then None
    else
      var file := if c.casKey in files then files[c.casKey] else "";
      Some(Edge(caller.value, Resolved(rows, c.callee, file, search), c.callee, c.line))
  }

  function EdgesOf(calls: seq<RawCall>, callers: CallerMap, files: map<string, string>, rows: seq<Symbol>,
                   search: Option<SearchPaths>): (es: seq<Edge>)
    ensures forall e :: e in es <==> exists c :: c in calls && EdgeOf(c, callers, files, rows, search) == Some(e)
  {
    if calls == [] then []
    else
      var n := |calls| - 1;
      var before, last := EdgesOf(calls[..n], callers, files, rows, search), EdgeOf(calls[n], callers, files, rows, search);
      assert forall c :: c in calls <==> c in calls[..n] || c == calls[n];
      if last.Some? then before + [last.value] else before
  }

  /** The caller of a call is known: it has a local id, and that id is in the map. */
  predicate CallerKnown(callers: CallerMap, c: RawCall) {
    c.callerLocalId.Some? && (c.casKey, c.callerLocalId.value) in callers
  }

  /** An edge that says of a call who calls whom, by which name and in which line. */
  predicate Tells(e: Edge, c: RawCall, callers: CallerMap, files: map<string, string>, rows: seq<Symbol>,
                  search: Option<SearchPaths>)
  {
    && CallerKnown(callers, c) && e.caller == callers[(c.casKey, c.callerLocalId.value)]
    && e.calleeName == c.callee && e.line == c.line
    && e.callee == Resolved(rows, c.callee, if c.casKey in files then files[c.casKey] else "", search)
  }

  /** The edges tell of the calls with a known caller, one after the other. */
  lemma {:induction false} EdgesFollowCalls(calls: seq<RawCall>, callers: CallerMap, files: map<string, string>,
                                            rows: seq<Symbol>, search: Option<SearchPaths>) returns (places: seq<nat>)
    ensures var es := EdgesOf(calls, callers, files, rows, search);
            && |places| == |es|
            && (forall k :: 0 <= k < |es| ==>
                  places[k] < |calls| && Tells(es[k], calls[places[k]], callers, files, rows, search))
            && (forall k, l :: 0 <= k < l < |es| ==> places[k] < places[l])
            && (forall i :: 0 <= i < |calls| && CallerKnown(callers, calls[i]) ==> i in places)
  {
    if calls == [] {
      places := [];
    } else {
      var n := |calls| - 1;
      places := EdgesFollowCalls(calls[..n], callers, files, rows, search);
      forall k | 0 <= k < |places| ensures calls[places[k]] == calls[..n][places[k]] {
      }
      LastEdgeTells(calls[n], callers, files, rows, search);
      if CallerKnown(callers, calls[n]) {
        places := places + [n];
      }
    }
  }

  lemma LastEdgeTells(c: RawCall, callers: CallerMap, files: map<string, string>, rows: seq<Symbol>,
                      search: Option<SearchPaths>)
    ensures var e := EdgeOf(c, callers, files, rows, search);
            (e.Some? <==> CallerKnown(callers, c)) && (e.Some? ==> Tells(e.value, c, callers, files, rows, search))
  {
  }

  /** The loop of `_compute_from_cas`: each call becomes an edge, in order, or is counted as skipped. */
  method ComputeEdges(calls: seq<RawCall>, callers: CallerMap, files: map<string, string>, rows: seq<Symbol>,
                      search: Option<SearchPaths>)
    returns (edges: seq<Edge>, skipped: nat)
    requires Keyed(rows)
    ensures edges == EdgesOf(calls, callers, files, rows, search)
    ensures |edges| + skipped == |calls|
  {
    var ix := BuildSymbolIndex(rows);
    edges, skipped := [], 0;
    for i := 0 to |calls|
      invariant edges == EdgesOf(calls[..i], callers, files, rows, search)
      invariant |edges| + skipped == i
    {
      assert calls[..i + 1][..i] == calls[..i];
      var caller := CallerOf(callers, calls[i]);
      if caller.None? {
        skipped := skipped + 1;
        continue;
      }
      var file := if calls[i].casKey in files then files[calls[i].casKey] else "";
      var callee := ResolveCallee(calls[i].callee, file, ix, search, rows);
      edges := edges + [Edge(caller.value, callee, calls[i].callee, calls[i].line)];
    }
    assert calls[..|calls|] == calls;
  }
}
