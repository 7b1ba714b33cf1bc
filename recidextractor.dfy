/**
 * Seed extraction (inspiderweb/recidextractor.py): recids read from recid
 * files, bibkey-shaped tokens scanned from bibkey files, and the walk over
 * the input paths that unions what every file yields.
 *
 * The file system is a map from paths (lists of path components) to
 * entries; a directory's walk reaches every file whose path lies below it,
 * hidden or not. Reading a file gives its lines.
 */
module RecidExtractor {
  import opened Wrappers
  import opened Strings
  import opened Collections

  type Path = seq<string>

  datatype Entry = File(lines: seq<string>) | Directory

  type FileSystem = map<Path, Entry>

  /** The status `sys.exit` is given when an input path does not exist. */
  const MissingPathStatus := 50

  datatype Seeds = Exit(status: int) | Found(recids: set<string>)

  // ---------------------------------------------------------------------
  // Recid files
  // ---------------------------------------------------------------------

  /** `s.replace(c, "")`. */
  function Without(s: string, c: char): (r: string)
    ensures c !in r
    ensures forall x :: x in r <==> x in s && x != c
  {
    if s == [] then []
    else (if s[0] == c then [] else [s[0]]) + Without(s[1..], c)
  }

  /** One line of a recid file once its newline is removed and it is stripped. */
  function CleanLine(line: string): string {
    Strip(Without(line, '\n'))
  }

  /** The recids a recid file names: its cleaned lines, blank ones left out. */
  function RecidFileSeeds(lines: seq<string>): set<string> {
    set l | l in lines && CleanLine(l) != [] :: CleanLine(l)
  }

  /** Every recid read from a recid file is non-empty and has no whitespace at either end. */
  lemma RecidFileSeedsClean(lines: seq<string>)
    ensures forall r :: r in RecidFileSeeds(lines) ==> r != [] && IsStripped(r)
  {
  }

  /**
   * The recids depend only on which lines occur: reordering or repeating
   * lines changes nothing.
   */
  lemma RecidFileSeedsOrderFree(a: seq<string>, b: seq<string>)
    requires forall l :: l in a <==> l in b
    ensures RecidFileSeeds(a) == RecidFileSeeds(b)
  {
  }

  /** Each non-blank line contributes its cleaned form. */
  lemma RecidFileSeedsMembers(lines: seq<string>, r: string)
    ensures r in RecidFileSeeds(lines) <==> r != [] && exists l :: l in lines && CleanLine(l) == r
  {
  }

  /** One more line adds its cleaned form, unless that is blank. */
  lemma RecidFileSeedsSnoc(front: seq<string>, line: string)
    ensures RecidFileSeeds(front + [line])
         == RecidFileSeeds(front) + if CleanLine(line) != [] then {CleanLine(line)} else {}
  {
    assert forall l :: l in front + [line] <==> l in front || l == line;
  }

  /** `get_recids_from_recid_file`: the loop over the file's lines. */
  method RecidsFromRecidFile(lines: seq<string>) returns (recids: set<string>)
    ensures recids == RecidFileSeeds(lines)
  {
    recids := {};
    var n := 0;
    while n < |lines|
      invariant n <= |lines|
      invariant recids == RecidFileSeeds(lines[..n])
    {
      var line := CleanLine(lines[n]);
      assert lines[..n + 1] == lines[..n] + [lines[n]];
      RecidFileSeedsSnoc(lines[..n], lines[n]);
      if line != [] {
        recids := recids + {line};
      }
      n := n + 1;
    }
    assert lines[..n] == lines;
  }

  // ---------------------------------------------------------------------
  // Bibkey files
  // ---------------------------------------------------------------------

  predicate AllAsciiLetters(s: string) {
    forall i :: 0 <= i < |s| ==> IsAsciiLetter(s[i])
  }

  predicate AllLowerLetters(s: string) {
    forall i :: 0 <= i < |s| ==> IsLowerLetter(s[i])
  }

  /**
   * The shape `[a-zA-Z]{1,20}:[0-9]{4}[a-z]{0,10}`: 1 to 20 ASCII letters,
   * a colon, exactly four digits, then at most ten lowercase letters.
   */
  predicate BibkeyShaped(t: string) {
    exists n: nat :: 1 <= n <= 20 && n + 5 <= |t| <= n + 15
      && AllAsciiLetters(t[..n]) && t[n] == ':' && AllDigits(t[n + 1..n + 5])
      && AllLowerLetters(t[n + 5..])
  }

  /** Letters from `i` to `c`, a colon, four digits, then up to ten lowercase letters up to `e`. */
  lemma ShapedSlice(s: string, i: nat, c: nat, e: nat)
    requires i < c && c - i <= 20 && c + 5 <= e <= c + 15 && e <= |s|
    requires forall k :: i <= k < c ==> IsAsciiLetter(s[k])
    requires s[c] == ':' && AllDigits(s[c + 1..c + 5])
    requires forall k :: c + 5 <= k < e ==> IsLowerLetter(s[k])
    ensures BibkeyShaped(s[i..e])
  {
    var t := s[i..e];
    var n := c - i;
    var letters, digits, lower := t[..n], t[n + 1..n + 5], t[n + 5..];
    var sourceDigits := s[c + 1..c + 5];
    assert forall k :: 0 <= k < n ==> letters[k] == s[i + k];
    assert forall k :: 0 <= k < 4 ==> digits[k] == sourceDigits[k];
    assert forall k :: 0 <= k < |lower| ==> lower[k] == s[c + 5 + k];
    assert AllAsciiLetters(t[..n]) && t[n] == ':' && AllDigits(t[n + 1..n + 5]) && AllLowerLetters(t[n + 5..]);
  }

  /**
   * Where the bibkey pattern, tried at position `i`, ends: the greedy
   * letter run may not exceed 20 letters (backing off to fewer letters
   * cannot help, since then a letter stands where the colon must be), the
   * colon and four digits follow, and then up to ten lowercase letters.
   */
  function MatchEnd(s: string, i: nat): (e: Option<nat>)
    requires i <= |s|
    ensures e.Some? ==> i < e.value <= |s| && BibkeyShaped(s[i..e.value])
  {
    var c := RunEnd(s, i, IsAsciiLetter);
    if 1 <= c - i <= 20 && c + 5 <= |s| && s[c] == ':' && AllDigits(s[c + 1..c + 5]) then
      var lowerEnd := RunEnd(s, c + 5, IsLowerLetter);
      var e := if lowerEnd - (c + 5) <= 10 then lowerEnd else c + 15;
      ShapedSlice(s, i, c, e);
      Some(e)
    else
      None
  }

  /**
   * `findall` from position `i`: the pattern is tried at each position in
   * turn, and after a match the search resumes where the match ended.
   */
  function TokensFrom(s: string, i: nat): (ts: seq<string>)
    requires i <= |s|
    decreases |s| - i
    ensures forall t :: t in ts ==> BibkeyShaped(t)
  {
    if i == |s| then []
    else match MatchEnd(s, i)
      case Some(e) => [s[i..e]] + TokensFrom(s, e)
      case None => TokensFrom(s, i + 1)
  }

  function Tokens(line: string): seq<string> {
    TokensFrom(line, 0)
  }

  /** The tokens of all lines together (`bibkeys.update(...)` per line). */
  function TokensOfLines(lines: seq<string>): set<string> {
    set l, t | l in lines && t in Tokens(l) :: t
  }

  /** Every token collected from a bibkey file has the bibkey shape. */
  lemma TokensOfLinesShaped(lines: seq<string>)
    ensures forall t :: t in TokensOfLines(lines) ==> BibkeyShaped(t)
  {
  }

  /** The token set is the union of what every line yields. */
  lemma TokensOfLinesAppend(a: seq<string>, b: seq<string>)
    ensures TokensOfLines(a + b) == TokensOfLines(a) + TokensOfLines(b)
  {
    forall t | t in TokensOfLines(a + b) ensures t in TokensOfLines(a) + TokensOfLines(b) {
      var l :| l in a + b && t in Tokens(l);
    }
  }

  /** The scan of the lines of a bibkey file. */
  method BibkeysFromLines(lines: seq<string>) returns (bibkeys: set<string>)
    ensures bibkeys == TokensOfLines(lines)
  {
    bibkeys := {};
    var n := 0;
    while n < |lines|
      invariant n <= |lines|
      invariant bibkeys == TokensOfLines(lines[..n])
    {
      var found := Tokens(lines[n]);
      assert lines[..n + 1] == lines[..n] + [lines[n]];
      TokensOfLinesAppend(lines[..n], [lines[n]]);
      assert TokensOfLines([lines[n]]) == set t | t in found;
      bibkeys := bibkeys + set t | t in found;
      n := n + 1;
    }
    assert lines[..n] == lines;
  }

  /**
   * What the database's bibkey lookup answers: a map from the bibkeys it
   * could resolve, among those asked for, to their recids.
   */
  type Resolver = set<string> -> map<string, string>

  ghost predicate AnswersOnlyQueries(resolve: Resolver) {
    forall q: set<string> :: resolve(q).Keys <= q
  }

  /** `get_recids_from_bibkey_file` as written: the keys of the lookup's answer. */
  function BibkeyFileAsWritten(lines: seq<string>, resolve: Resolver): set<string> {
    resolve(TokensOfLines(lines)).Keys
  }

  /** What `get_recids_from_bibkey_file` is for: the recids the bibkeys resolve to. */
  function BibkeyFileSeeds(lines: seq<string>, resolve: Resolver): set<string> {
    resolve(TokensOfLines(lines)).Values
  }

  /**
   * As written, the function hands back bibkeys, never recids: every
   * string it returns has the bibkey shape, so it contains a colon.
   */
  lemma BibkeyFileAsWrittenGivesBibkeys(lines: seq<string>, resolve: Resolver)
    requires AnswersOnlyQueries(resolve)
    ensures forall r :: r in BibkeyFileAsWritten(lines, resolve) ==> BibkeyShaped(r) && ':' in r
  {
    var tokens := TokensOfLines(lines);
    assert resolve(tokens).Keys <= tokens;
    TokensOfLinesShaped(lines);
    forall r | r in BibkeyFileAsWritten(lines, resolve) ensures ':' in r {
      var n: nat :| 1 <= n <= 20 && n + 5 <= |r| <= n + 15 && r[n] == ':';
    }
  }

  /**
   * With the corrected return value the seeds are the resolved recids: when
   * the lookup answers with digit strings, so does the extractor.
   */
  lemma BibkeyFileSeedsAreRecids(lines: seq<string>, resolve: Resolver)
    requires forall q: set<string>, k :: k in resolve(q) ==> AllDigits(resolve(q)[k])
    ensures forall r :: r in BibkeyFileSeeds(lines, resolve) ==> AllDigits(r)
  {
  }

  /** A lookup that knows one bibkey, Smith:2010ab, as recid 123456. */
  function ExampleResolver(q: set<string>): map<string, string> {
    map k | k in q && k == "Smith:2010ab" :: "123456"
  }

  /** The scan finds exactly one token in the line "Smith:2010ab": the line itself. */
  lemma ExampleTokens()
    ensures Tokens("Smith:2010ab") == ["Smith:2010ab"]
  {
    var line := "Smith:2010ab";
    assert RunEnd(line, 0, IsAsciiLetter) == 5 by {
      assert RunEnd(line, 5, IsAsciiLetter) == 5;
    }
    assert AllDigits(line[6..10]);
    assert RunEnd(line, 10, IsLowerLetter) == 12;
    assert MatchEnd(line, 0) == Some(12);
    assert TokensFrom(line, 12) == [];
    assert line[0..12] == line;
    assert TokensFrom(line, 0) == [line[0..12]] + TokensFrom(line, 12);
  }

  /** A line whose only token is the line itself contributes just that token. */
  lemma TokensOfSoleToken(line: string)
    requires Tokens(line) == [line]
    ensures TokensOfLines([line]) == {line}
  {
    forall t | t in TokensOfLines([line]) ensures t == line {
      var l :| l in [line] && t in Tokens(l);
    }
    assert line in Tokens(line);
  }

  /**
   * A file whose one line is a single bibkey that the lookup resolves: as
   * written the seed is the bibkey, corrected it is the recid.
   */
  lemma SoleBibkeyFile(line: string, resolve: Resolver, recid: string)
    requires Tokens(line) == [line]
    requires resolve({line}) == map[line := recid]
    ensures BibkeyFileAsWritten([line], resolve) == {line}
    ensures BibkeyFileSeeds([line], resolve) == {recid}
  {
    TokensOfSoleToken(line);
  }

  /** A file citing Smith:2010ab yields the bibkey as written, and its recid once corrected. */
  lemma BibkeyFileReturnsKeysExample()
    ensures BibkeyFileAsWritten(["Smith:2010ab"], ExampleResolver) == {"Smith:2010ab"}
    ensures BibkeyFileSeeds(["Smith:2010ab"], ExampleResolver) == {"123456"}
  {
    ExampleTokens();
    SoleBibkeyFile("Smith:2010ab", ExampleResolver, "123456");
  }

  /** `get_recids_from_bibkey_file` with the corrected return value: the loop, then the lookup. */
  method RecidsFromBibkeyFile(lines: seq<string>, resolve: Resolver) returns (recids: set<string>)
    ensures recids == BibkeyFileSeeds(lines, resolve)
  {
    var bibkeys := BibkeysFromLines(lines);
    recids := resolve(bibkeys).Values;
  }

  // ---------------------------------------------------------------------
  // Paths
  // ---------------------------------------------------------------------

  /** `f` lies strictly below the directory path `d`. */
  predicate Below(d: Path, f: Path) {
    |d| < |f| && f[..|d|] == d
  }

  /** The files `os.walk(d)` reaches: every file below `d`, hidden ones included. */
  function WalkFiles(fs: FileSystem, d: Path): set<Path> {
    set f | f in fs && fs[f].File? && Below(d, f)
  }

  /** The files one input path stands for: itself if a file, its walk if a directory. */
  function FilesOf(fs: FileSystem, p: Path): set<Path>
    requires p in fs
  {
    if fs[p].Directory? then WalkFiles(fs, p) else {p}
  }

  /** The files reached from all input paths, which must all exist. */
  function Reached(fs: FileSystem, paths: seq<Path>): (r: set<Path>)
    requires forall p :: p in paths ==> p in fs
    ensures forall f :: f in r ==> f in fs && fs[f].File?
  {
    if paths == [] then {}
    else Reached(fs, paths[..|paths| - 1]) + FilesOf(fs, paths[|paths| - 1])
  }

  function Elements(s: seq<Path>): set<Path> {
    set f | f in s
  }

  /** The union of what `extract` yields on every file of `files`. */
  function SeedsOf(fs: FileSystem, files: set<Path>, extract: seq<string> -> set<string>): set<string>
    requires forall f :: f in files ==> f in fs && fs[f].File?
  {
    set f, r | f in files && r in extract(fs[f].lines) :: r
  }

  lemma SeedsOfUnion(fs: FileSystem, a: set<Path>, b: set<Path>, extract: seq<string> -> set<string>)
    requires forall f :: f in a + b ==> f in fs && fs[f].File?
    ensures SeedsOf(fs, a + b, extract) == SeedsOf(fs, a, extract) + SeedsOf(fs, b, extract)
  {
    forall r | r in SeedsOf(fs, a + b, extract)
      ensures r in SeedsOf(fs, a, extract) + SeedsOf(fs, b, extract)
    {
      var f :| f in a + b && r in extract(fs[f].lines);
    }
  }

  lemma SeedsOfOne(fs: FileSystem, f: Path, extract: seq<string> -> set<string>)
    requires f in fs && fs[f].File?
    ensures SeedsOf(fs, {f}, extract) == extract(fs[f].lines)
  {
  }

  /**
   * `get_recids_from_paths`: every input path must exist, otherwise the
   * program exits with status 50; the seeds are the union of what
   * `extract` yields on every file the paths reach.
   */
  method RecidsFromPaths(fs: FileSystem, paths: seq<Path>, extract: seq<string> -> set<string>)
    returns (result: Seeds)
    ensures result.Exit? <==> exists p :: p in paths && p !in fs
    ensures result.Exit? ==> result.status == MissingPathStatus
    ensures result.Found? ==> (forall p :: p in paths ==> p in fs) &&
                              result.recids == SeedsOf(fs, Reached(fs, paths), extract)
  {
    var recids := {};
    var n := 0;
    while n < |paths|
      invariant n <= |paths|
      invariant forall p :: p in paths[..n] ==> p in fs
      invariant recids == SeedsOf(fs, Reached(fs, paths[..n]), extract)
    {
      var path := paths[n];
      if path !in fs {
        return Exit(MissingPathStatus);
      }
      assert paths[..n + 1] == paths[..n] + [path];
      assert paths[..n + 1][..n] == paths[..n];
      var these := FromPath(fs, path, extract);
      SeedsOfUnion(fs, Reached(fs, paths[..n]), FilesOf(fs, path), extract);
      recids := recids + these;
      n := n + 1;
    }
    assert paths[..n] == paths;
    return Found(recids);
  }

  /** The seeds of one existing input path: the walk of a directory, or the file itself. */
  method FromPath(fs: FileSystem, path: Path, extract: seq<string> -> set<string>) returns (recids: set<string>)
    requires path in fs
    ensures recids == SeedsOf(fs, FilesOf(fs, path), extract)
  {
    recids := {};
    if fs[path].Directory? {
      var files := Enumerate(WalkFiles(fs, path));
      var n := 0;
      while n < |files|
        invariant n <= |files|
        invariant forall f :: f in Elements(files[..n]) ==> f in fs && fs[f].File?
        invariant recids == SeedsOf(fs, Elements(files[..n]), extract)
      {
        var file := files[n];
        assert file in WalkFiles(fs, path);
        assert Elements(files[..n + 1]) == Elements(files[..n]) + {file} by {
          assert files[..n + 1] == files[..n] + [file];
        }
        SeedsOfUnion(fs, Elements(files[..n]), {file}, extract);
        SeedsOfOne(fs, file, extract);
        recids := recids + extract(fs[file].lines);
        n := n + 1;
      }
      assert files[..n] == files;
      assert Elements(files) == WalkFiles(fs, path);
    }
    if fs[path].File? {
      SeedsOfOne(fs, path, extract);
      recids := recids + extract(fs[path].lines);
    }
  }

  /** `get_recids_from_recid_paths`: the path walk with the recid-file reader and no database. */
  method RecidsFromRecidPaths(fs: FileSystem, paths: seq<Path>) returns (result: Seeds)
    ensures result.Exit? <==> exists p :: p in paths && p !in fs
    ensures result.Found? ==> forall r :: r in result.recids ==> r != [] && IsStripped(r)
    ensures result.Found? ==> result.recids == SeedsOf(fs, Reached(fs, paths), RecidFileSeeds)
  {
    result := RecidsFromPaths(fs, paths, RecidFileSeeds);
    if result.Found? {
      forall r | r in result.recids ensures r != [] && IsStripped(r) {
        var f :| f in Reached(fs, paths) && r in RecidFileSeeds(fs[f].lines);
        RecidFileSeedsClean(fs[f].lines);
      }
    }
  }

  /** `get_recids_from_bibkey_paths`: the path walk with the bibkey-file reader and the database's lookup. */
  method RecidsFromBibkeyPaths(fs: FileSystem, paths: seq<Path>, resolve: Resolver) returns (result: Seeds)
    ensures result.Exit? <==> exists p :: p in paths && p !in fs
    ensures result.Found? ==> result.recids == SeedsOf(fs, Reached(fs, paths), lines => BibkeyFileSeeds(lines, resolve))
  {
    result := RecidsFromPaths(fs, paths, lines => BibkeyFileSeeds(lines, resolve));
  }
}
