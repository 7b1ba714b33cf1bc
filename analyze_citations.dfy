/**
 * The citation analysis script analyze_citations.py: material files are
 * grouped into clusters by directory, citation files are scanned for
 * `/record/<digits>` links that become edges from the file's own record,
 * the edges are narrowed to those between scanned records, and the result
 * is written out as a DOT digraph with one subgraph per cluster.
 *
 * The two folders are inputs: the material folder as the list of
 * (directory, file name) pairs its walk visits, the citation folder as the
 * list of its files with their lines.
 */
module CitationAnalysis {
  import opened Wrappers
  import opened Strings
  import opened Collections
  import DotGraphs

  // ---------------------------------------------------------------------
  // Path names
  // ---------------------------------------------------------------------

  /** `os.path.basename`: what follows the last slash. */
  function BaseName(p: string): (b: string)
    ensures '/' !in b
    ensures EndsWith(p, b)
    ensures |b| < |p| ==> p[|p| - |b| - 1] == '/'
  {
    if p == [] || p[|p| - 1] == '/' then []
    else
      var b := BaseName(p[..|p| - 1]) + [p[|p| - 1]];
      assert p[..|p| - 1][|p| - |b|..] == p[|p| - |b|..|p| - 1];
      b
  }

  lemma BaseNameOfName(name: string)
    requires '/' !in name
    ensures BaseName(name) == name
  {
  }

  predicate AllDots(s: string) {
    forall i :: 0 <= i < |s| ==> s[i] == '.'
  }

  /** The position of the last dot, if any. */
  function LastDot(s: string): (d: Option<nat>)
    ensures d.Some? ==> d.value < |s| && s[d.value] == '.'
                        && forall j :: d.value < j < |s| ==> s[j] != '.'
    ensures d.None? ==> forall j :: 0 <= j < |s| ==> s[j] != '.'
  {
    if s == [] then None
    else if s[|s| - 1] == '.' then Some(|s| - 1)
    else LastDot(s[..|s| - 1])
  }

  /**
   * `os.path.splitext(p)[1]`: the base name from its last dot on, unless
   * only dots precede that dot (a leading dot starts no extension).
   */
  function Extension(p: string): (e: string)
    ensures EndsWith(p, e)
  {
    var b := BaseName(p);
    match LastDot(b)
    case None => []
    case Some(d) =>
      if AllDots(b[..d]) then []
      else b[d..]
  }

  /** An extension is a dot followed by a part of the base name without dots. */
  lemma ExtensionShape(p: string)
    ensures var e := Extension(p);
            e == [] || (e[0] == '.' && '/' !in e && forall j :: 0 < j < |e| ==> e[j] != '.')
  {
    var b := BaseName(p);
    match LastDot(b)
    case None =>
    case Some(d) =>
      if !AllDots(b[..d]) {
        assert forall j :: 0 < j < |b[d..]| ==> b[d..][j] == b[d + j];
      }
  }

  /** Every dot of the name comes after nothing but dots. */
  predicate DotsOnlyLead(name: string) {
    forall i :: 0 <= i < |name| && name[i] == '.' ==> AllDots(name[..i])
  }

  /** A file name has no extension exactly when each of its dots is one of its leading dots. */
  lemma ExtensionEmpty(name: string)
    requires '/' !in name
    ensures Extension(name) == [] <==> DotsOnlyLead(name)
  {
    BaseNameOfName(name);
    match LastDot(name)
    case None =>
    case Some(d) =>
      if AllDots(name[..d]) {
        forall i | 0 <= i < |name| && name[i] == '.' ensures AllDots(name[..i]) {
          assert i <= d;
          assert forall j :: 0 <= j < i ==> name[..i][j] == name[..d][j];
        }
      } else {
        assert !DotsOnlyLead(name);
      }
  }

  /** `os.path.splitext(p)[0]`: the path without its extension. */
  function Stem(p: string): (s: string)
    ensures s + Extension(p) == p
  {
    var e := Extension(p);
    var k := |p| - |e|;
    assert p[k..] == e;
    assert p[..k] + p[k..] == p;
    p[..k]
  }

  // ---------------------------------------------------------------------
  // Clusters of material files
  // ---------------------------------------------------------------------

  /** One file met by the walk of the material folder, with the directory it is in. */
  datatype WalkFile = WalkFile(root: string, name: string)

  const MaterialExtensions := [".pdf", ".ps", ".djvu"]

  const RootCluster := "ROOT"

  predicate IsMaterial(f: WalkFile) {
    Extension(f.name) in MaterialExtensions
  }

  /** A material file's id: the first four characters of its base name. */
  function Mid(name: string): (m: string)
    ensures StartsWith(BaseName(name), m)
    ensures |m| == if |BaseName(name)| < 4 then |BaseName(name)| else 4
  {
    var b := BaseName(name);
    b[..if |b| < 4 then |b| else 4]
  }

  /** The cluster of a directory: its base name, or ROOT when that is empty. */
  function ClusterName(root: string): (c: string)
    ensures c != []
    ensures c == RootCluster <==> BaseName(root) == [] || BaseName(root) == RootCluster
    ensures c != RootCluster ==> c == BaseName(root)
  {
    if BaseName(root) != [] then BaseName(root) else RootCluster
  }

  /** The clusters material files fall into. */
  function ClusterNames(files: seq<WalkFile>): set<string> {
    set f | f in files && IsMaterial(f) :: ClusterName(f.root)
  }

  /** The ids of the material files in cluster `c`. */
  function MidsIn(files: seq<WalkFile>, c: string): set<string> {
    set f | f in files && IsMaterial(f) && ClusterName(f.root) == c :: Mid(f.name)
  }

  /** Every cluster that appears holds at least one id. */
  lemma ClustersNonEmpty(files: seq<WalkFile>)
    ensures forall c :: c in ClusterNames(files) ==> MidsIn(files, c) != {}
  {
    forall c | c in ClusterNames(files)
      ensures MidsIn(files, c) != {}
    {
      var f :| f in files && IsMaterial(f) && ClusterName(f.root) == c;
      assert Mid(f.name) in MidsIn(files, c);
    }
  }

  /** A file whose extension is not one of the material ones contributes nothing. */
  lemma NonMaterialIgnored(files: seq<WalkFile>, f: WalkFile)
    requires !IsMaterial(f)
    ensures ClusterNames(files + [f]) == ClusterNames(files)
    ensures forall c :: MidsIn(files + [f], c) == MidsIn(files, c)
  {
    assert forall g :: g in files + [f] <==> g in files || g == f;
  }

  lemma ClusterNamesAppend(files: seq<WalkFile>, f: WalkFile)
    ensures ClusterNames(files + [f])
         == ClusterNames(files) + if IsMaterial(f) then {ClusterName(f.root)} else {}
  {
    assert forall g :: g in files + [f] <==> g in files || g == f;
  }

  lemma MidsInAppend(files: seq<WalkFile>, f: WalkFile, c: string)
    ensures MidsIn(files + [f], c)
         == MidsIn(files, c) + if IsMaterial(f) && ClusterName(f.root) == c then {Mid(f.name)} else {}
  {
    assert forall g :: g in files + [f] <==> g in files || g == f;
  }

  /** `clusters` maps each cluster of `files` to the ids in it, and nothing else. */
  predicate GroupedAs(clusters: map<string, set<string>>, files: seq<WalkFile>) {
    && clusters.Keys == ClusterNames(files)
    && forall c :: c in clusters ==> clusters[c] == MidsIn(files, c)
  }

  /** The `clusters[clustername].add(mid)` of one walk entry, if it is a material file. */
  function AddFile(clusters: map<string, set<string>>, f: WalkFile): map<string, set<string>> {
    if IsMaterial(f) then
      var name := ClusterName(f.root);
      clusters[name := (if name in clusters then clusters[name] else {}) + {Mid(f.name)}]
    else clusters
  }

  lemma MidsInOutside(files: seq<WalkFile>, c: string)
    requires c !in ClusterNames(files)
    ensures MidsIn(files, c) == {}
  {
  }

  lemma GroupStepAt(clusters: map<string, set<string>>, files: seq<WalkFile>, f: WalkFile, c: string)
    requires clusters.Keys == ClusterNames(files)
    requires c in clusters ==> clusters[c] == MidsIn(files, c)
    requires c in AddFile(clusters, f)
    ensures AddFile(clusters, f)[c] == MidsIn(files + [f], c)
  {
    MidsInAppend(files, f, c);
    if c !in clusters {
      MidsInOutside(files, c);
    }
  }

  lemma GroupStep(clusters: map<string, set<string>>, files: seq<WalkFile>, f: WalkFile)
    requires GroupedAs(clusters, files)
    ensures GroupedAs(AddFile(clusters, f), files + [f])
  {
    ClusterNamesAppend(files, f);
    forall c | c in AddFile(clusters, f) ensures AddFile(clusters, f)[c] == MidsIn(files + [f], c) {
      GroupStepAt(clusters, files, f, c);
    }
  }

  /** The loop of lines 13-20, filling the `clusters` dictionary. */
  method GroupClusters(files: seq<WalkFile>) returns (clusters: map<string, set<string>>)
    ensures clusters.Keys == ClusterNames(files)
    ensures forall c :: c in clusters ==> clusters[c] == MidsIn(files, c)
  {
    clusters := map[];
    var n := 0;
    while n < |files|
      invariant n <= |files|
      invariant GroupedAs(clusters, files[..n])
    {
      var file := files[n];
      assert files[..n + 1] == files[..n] + [file];
      GroupStep(clusters, files[..n], file);
      if Extension(file.name) in MaterialExtensions {
        var mid := Mid(file.name);
        var name := ClusterName(file.root);
        var members := if name in clusters then clusters[name] else {};
        clusters := clusters[name := members + {mid}];
      }
      n := n + 1;
    }
    assert files[..n] == files;
  }

  // ---------------------------------------------------------------------
  // The scan of the citation files
  // ---------------------------------------------------------------------

  const RecordMarker := "/record/"

  /**
   * `record_regex.search(line).group(1)`: the search succeeds at the first
   * occurrence of `/record/`, and the group is the (possibly empty) run of
   * digits right after it.
   */
  function RecordCapture(line: string): Option<string> {
    match IndexOf(line, RecordMarker)
    case None => None
    case Some(i) =>
      var j := RunEnd(line, i + |RecordMarker|, IsDigit);
      Some(line[i + |RecordMarker|..j])
  }

  /** A line yields an id exactly when it links to a record, and the id is all digits. */
  lemma RecordCaptureShape(line: string)
    ensures RecordCapture(line).Some? <==> Contains(line, RecordMarker)
    ensures RecordCapture(line).Some? ==> AllDigits(RecordCapture(line).value)
  {
  }

  /** The captured id sits right after the first `/record/` and takes every digit there. */
  lemma RecordCaptureIsFirst(line: string)
    requires Contains(line, RecordMarker)
    ensures var i := IndexOf(line, RecordMarker).value;
            var id := RecordCapture(line).value;
            (forall j: nat :: j < i ==> !OccursAt(line, RecordMarker, j))
            && OccursAt(line, RecordMarker + id, i)
            && (i + |RecordMarker| + |id| == |line| || !IsDigit(line[i + |RecordMarker| + |id|]))
  {
    var i := IndexOf(line, RecordMarker).value;
    var j := RunEnd(line, i + |RecordMarker|, IsDigit);
    OccursExtended(line, RecordMarker, i, j);
  }

  /** The state of the scan while one file is read. */
  datatype FileScan = FileScan(current: string, edges: seq<(string, string)>, names: map<string, string>)

  /**
   * One line of a citation file: the first id on it becomes the file's own
   * record if there is none yet (`not this_record` also holds for an empty
   * id) and is mapped to the file's stem; an id other than the file's own
   * record becomes an edge from it.
   */
  function StepLine(st: FileScan, stem: string, line: string): FileScan {
    if line == [] then st
    else match RecordCapture(line)
      case None => st
      case Some(id) =>
        var st' := if st.current == [] then st.(current := id, names := st.names[id := stem]) else st;
        if st'.current != id then st'.(edges := st'.edges + [(st'.current, id)]) else st'
  }

  /** The lines of one file, read in order. */
  function ScanLines(st: FileScan, stem: string, lines: seq<string>): FileScan {
    if lines == [] then st
    else StepLine(ScanLines(st, stem, lines[..|lines| - 1]), stem, lines[|lines| - 1])
  }

  /** The connections and the record-to-stem map collected over all citation files. */
  datatype Scan = Scan(edges: seq<(string, string)>, names: map<string, string>)

  datatype CitationFile = CitationFile(name: string, lines: seq<string>)

  /** `os.path.splitext(os.path.basename(filename))[0]`. */
  function FileStem(name: string): string {
    Stem(BaseName(name))
  }

  /** Every file is read with no record of its own to begin with. */
  function ScanFile(acc: Scan, file: CitationFile): Scan {
    var st := ScanLines(FileScan([], acc.edges, acc.names), FileStem(file.name), file.lines);
    Scan(st.edges, st.names)
  }

  function ScanFiles(files: seq<CitationFile>): Scan {
    if files == [] then Scan([], map[])
    else ScanFile(ScanFiles(files[..|files| - 1]), files[|files| - 1])
  }

  /**
   * What the scan guarantees of its connections: no self-loops, a
   * non-empty source, and a stem recorded for every source.
   */
  predicate SoundEdges(edges: seq<(string, string)>, names: map<string, string>) {
    forall k :: 0 <= k < |edges| ==> edges[k].0 != [] && edges[k].0 != edges[k].1 && edges[k].0 in names
  }

  predicate SoundFile(st: FileScan) {
    SoundEdges(st.edges, st.names) && (st.current != [] ==> st.current in st.names)
  }

  lemma StepLineSound(st: FileScan, stem: string, line: string)
    requires SoundFile(st)
    ensures SoundFile(StepLine(st, stem, line))
    ensures st.edges <= StepLine(st, stem, line).edges
    ensures st.names.Keys <= StepLine(st, stem, line).names.Keys
  {
  }

  lemma {:induction false} ScanLinesSound(st: FileScan, stem: string, lines: seq<string>)
    requires SoundFile(st)
    ensures SoundFile(ScanLines(st, stem, lines))
  {
    if lines != [] {
      ScanLinesSound(st, stem, lines[..|lines| - 1]);
      StepLineSound(ScanLines(st, stem, lines[..|lines| - 1]), stem, lines[|lines| - 1]);
    }
  }

  /** Every connection the scan appends has a non-empty source with a stem and is no self-loop. */
  lemma {:induction false} ScanFilesSound(files: seq<CitationFile>)
    ensures SoundEdges(ScanFiles(files).edges, ScanFiles(files).names)
  {
    if files != [] {
      var acc := ScanFiles(files[..|files| - 1]);
      ScanFilesSound(files[..|files| - 1]);
      var file := files[|files| - 1];
      ScanLinesSound(FileScan([], acc.edges, acc.names), FileStem(file.name), file.lines);
    }
  }

  /** A line that gives no id a file could take as its own. */
  predicate NoOwnId(line: string) {
    RecordCapture(line).None? || RecordCapture(line) == Some([])
  }

  /** How one line settles the file's own record. */
  lemma StepLineOwn(st: FileScan, stem: string, line: string)
    ensures var r := StepLine(st, stem, line);
            && (st.current != [] ==> r.current == st.current && r.names == st.names)
            && (st.current == [] && r.current != [] ==>
                  RecordCapture(line) == Some(r.current) && r.current in r.names && r.names[r.current] == stem)
            && (st.current == [] && r.current == [] ==> NoOwnId(line))
  {
  }

  /**
   * Reading a file from scratch: its record is the first non-empty id on
   * its lines (empty if there is none), and that record is mapped to the
   * file's stem.
   */
  lemma {:induction false} ScanLinesNoRecord(edges: seq<(string, string)>, names: map<string, string>,
                                              stem: string, lines: seq<string>)
    ensures ScanLines(FileScan([], edges, names), stem, lines).current == [] ==>
              forall i :: 0 <= i < |lines| ==> NoOwnId(lines[i])
  {
    if lines != [] {
      var front := lines[..|lines| - 1];
      var line := lines[|lines| - 1];
      ScanLinesNoRecord(edges, names, stem, front);
      var p := ScanLines(FileScan([], edges, names), stem, front);
      StepLineOwn(p, stem, line);
      assert forall i :: 0 <= i < |front| ==> lines[i] == front[i];
    }
  }

  /** Line `i` carries id `id`, and no line before it gives an id a file could take as its own. */
  predicate FirstOwnAt(lines: seq<string>, i: nat, id: string) {
    i < |lines| && RecordCapture(lines[i]) == Some(id) && forall j :: 0 <= j < i ==> NoOwnId(lines[j])
  }

  lemma FirstOwnGrows(lines: seq<string>, i: nat, id: string)
    requires lines != [] && FirstOwnAt(lines[..|lines| - 1], i, id)
    ensures FirstOwnAt(lines, i, id)
  {
    assert forall j :: 0 <= j <= i ==> lines[j] == lines[..|lines| - 1][j];
  }

  lemma FirstOwnLast(lines: seq<string>, front: seq<string>, id: string)
    requires lines != [] && front == lines[..|lines| - 1] && RecordCapture(lines[|lines| - 1]) == Some(id)
    requires forall j :: 0 <= j < |front| ==> NoOwnId(front[j])
    ensures FirstOwnAt(lines, |lines| - 1, id)
  {
    assert forall j :: 0 <= j < |front| ==> lines[j] == front[j];
  }

  /** A file that finds a record: it is the first non-empty id, mapped to the file's stem. */
  lemma {:induction false} ScanLinesOwnRecord(edges: seq<(string, string)>, names: map<string, string>,
                                               stem: string, lines: seq<string>)
    ensures var r := ScanLines(FileScan([], edges, names), stem, lines);
            r.current != [] ==>
              r.current in r.names && r.names[r.current] == stem && exists i: nat :: FirstOwnAt(lines, i, r.current)
  {
    if lines != [] {
      var front := lines[..|lines| - 1];
      var line := lines[|lines| - 1];
      ScanLinesNoRecord(edges, names, stem, front);
      ScanLinesOwnRecord(edges, names, stem, front);
      var p := ScanLines(FileScan([], edges, names), stem, front);
      var r := StepLine(p, stem, line);
      StepLineOwn(p, stem, line);
      assert ScanLines(FileScan([], edges, names), stem, lines) == r;
      if r.current != [] {
        if p.current == [] {
          FirstOwnLast(lines, front, r.current);
        } else {
          var i: nat :| FirstOwnAt(front, i, p.current);
          FirstOwnGrows(lines, i, r.current);
        }
      }
    }
  }

  /**
   * Every connection a file adds leads from the file's record to an id
   * read on one of its lines; a file that never finds a record of its own
   * adds none.
   */
  lemma {:induction false} ScanLinesEdges(st: FileScan, stem: string, lines: seq<string>)
    ensures var r := ScanLines(st, stem, lines);
            && st.edges <= r.edges
            && (r.current == [] ==> r.edges == st.edges)
            && (st.current != [] ==> r.current == st.current)
            && (forall k :: |st.edges| <= k < |r.edges| ==>
                  r.edges[k].0 == r.current &&
                  (exists i :: 0 <= i < |lines| && RecordCapture(lines[i]) == Some(r.edges[k].1)))
  {
    if lines != [] {
      var front := lines[..|lines| - 1];
      ScanLinesEdges(st, stem, front);
      var p := ScanLines(st, stem, front);
      var r := StepLine(p, stem, lines[|lines| - 1]);
      forall k | |st.edges| <= k < |r.edges|
        ensures r.edges[k].0 == r.current
        ensures exists i :: 0 <= i < |lines| && RecordCapture(lines[i]) == Some(r.edges[k].1)
      {
        if k < |p.edges| {
          var i :| 0 <= i < |front| && RecordCapture(front[i]) == Some(p.edges[k].1);
          assert lines[i] == front[i];
        } else {
          assert RecordCapture(lines[|lines| - 1]) == Some(r.edges[k].1);
        }
      }
    }
  }

  /** The body of the line loop (lines 30-39). */
  method ReadLine(current0: string, edges0: seq<(string, string)>, names0: map<string, string>, stem: string, line: string)
    returns (current: string, edges: seq<(string, string)>, names: map<string, string>)
    ensures FileScan(current, edges, names) == StepLine(FileScan(current0, edges0, names0), stem, line)
  {
    current, edges, names := current0, edges0, names0;
    if line == [] {
      return;
    }
    var found := RecordCapture(line);
    if found.Some? {
      var id := found.value;
      if current == [] {
        current := id;
        names := names[current := stem];
      }
      if current != id {
        edges := edges + [(current, id)];
      }
    }
  }

  /** One citation file read line by line (lines 27-39), continuing the global collections. */
  method ScanCitationFile(stem: string, lines: seq<string>, edges0: seq<(string, string)>, names0: map<string, string>)
    returns (edges: seq<(string, string)>, names: map<string, string>)
    ensures var r := ScanLines(FileScan([], edges0, names0), stem, lines);
            edges == r.edges && names == r.names
  {
    edges, names := edges0, names0;
    ghost var start := FileScan([], edges0, names0);
    var current := "";
    var m := 0;
    while m < |lines|
      invariant m <= |lines|
      invariant FileScan(current, edges, names) == ScanLines(start, stem, lines[..m])
    {
      assert lines[..m + 1][..m] == lines[..m];
      current, edges, names := ReadLine(current, edges, names, stem, lines[m]);
      m := m + 1;
    }
    assert lines[..m] == lines;
  }

  /** The loop over the citation folder (lines 24-39). */
  method ScanCitationFiles(files: seq<CitationFile>) returns (edges: seq<(string, string)>, names: map<string, string>)
    ensures Scan(edges, names) == ScanFiles(files)
    ensures SoundEdges(edges, names)
  {
    edges, names := [], map[];
    var n := 0;
    while n < |files|
      invariant n <= |files|
      invariant Scan(edges, names) == ScanFiles(files[..n])
    {
      var file := files[n];
      assert files[..n + 1][..n] == files[..n];
      assert ScanFiles(files[..n + 1]) == ScanFile(ScanFiles(files[..n]), file);
      edges, names := ScanCitationFile(FileStem(file.name), file.lines, edges, names);
      n := n + 1;
    }
    assert files[..n] == files;
    ScanFilesSound(files);
  }

  // ---------------------------------------------------------------------
  // Sources and the filter
  // ---------------------------------------------------------------------

  /** The records that are the source of some connection. */
  function SourcesOf(edges: seq<(string, string)>): set<string> {
    set e | e in edges :: e.0
  }

  /** The `my_dots` loop (lines 41-43). */
  method Sources(edges: seq<(string, string)>) returns (dots: set<string>)
    ensures forall x :: x in dots <==> exists k :: 0 <= k < |edges| && edges[k].0 == x
    ensures dots == SourcesOf(edges)
  {
    dots := {};
    var n := 0;
    while n < |edges|
      invariant n <= |edges|
      invariant forall x :: x in dots <==> exists k :: 0 <= k < n && edges[k].0 == x
    {
      dots := dots + {edges[n].0};
      n := n + 1;
    }
    forall x | x in SourcesOf(edges) ensures x in dots {
      var e :| e in edges && e.0 == x;
      var k :| 0 <= k < |edges| && edges[k] == e;
    }
  }

  /** The connections whose target is in `dots`, in their original order. */
  function KeepInternal(edges: seq<(string, string)>, dots: set<string>): (r: seq<(string, string)>)
    ensures forall e :: e in r ==> e in edges && e.1 in dots
  {
    if edges == [] then []
    else
      var front := KeepInternal(edges[..|edges| - 1], dots);
      var e := edges[|edges| - 1];
      if e.1 in dots then front + [e] else front
  }

  /** `a` is `b` with some entries left out, the rest in their order. */
  predicate IsSubsequence<T(==)>(a: seq<T>, b: seq<T>)
    decreases |b|
  {
    if b == [] then a == []
    else (a != [] && a[|a| - 1] == b[|b| - 1] && IsSubsequence(a[..|a| - 1], b[..|b| - 1]))
         || IsSubsequence(a, b[..|b| - 1])
  }

  /** The filter keeps the order of the connections it keeps. */
  lemma {:induction false} KeepInternalSubsequence(edges: seq<(string, string)>, dots: set<string>)
    ensures IsSubsequence(KeepInternal(edges, dots), edges)
  {
    if edges != [] {
      var front := edges[..|edges| - 1];
      KeepInternalSubsequence(front, dots);
      var r := KeepInternal(edges, dots);
      if edges[|edges| - 1].1 in dots {
        assert r[..|r| - 1] == KeepInternal(front, dots);
      }
    }
  }

  /** The filter keeps every copy of a connection whose target is in `dots` and drops every other. */
  lemma {:induction false} KeepInternalCounts(edges: seq<(string, string)>, dots: set<string>, e: (string, string))
    ensures multiset(KeepInternal(edges, dots))[e] == if e.1 in dots then multiset(edges)[e] else 0
  {
    if edges != [] {
      var front := edges[..|edges| - 1];
      KeepInternalCounts(front, dots, e);
      assert edges == front + [edges[|edges| - 1]];
    }
  }

  /** The `my_dot_connections` loop (lines 45-48). */
  method FilterConnections(edges: seq<(string, string)>, dots: set<string>) returns (kept: seq<(string, string)>)
    ensures kept == KeepInternal(edges, dots)
  {
    kept := [];
    var n := 0;
    while n < |edges|
      invariant n <= |edges|
      invariant kept == KeepInternal(edges[..n], dots)
    {
      assert edges[..n + 1][..n] == edges[..n];
      if edges[n].1 in dots {
        kept := kept + [edges[n]];
      }
      n := n + 1;
    }
    assert edges[..n] == edges;
  }

  /** Both ends of a connection lead to a record with a stem. */
  predicate Named(conns: seq<(string, string)>, names: map<string, string>) {
    forall k :: 0 <= k < |conns| ==> conns[k].0 in names && conns[k].1 in names
  }

  /**
   * After the filter, both ends of every connection have a stem, so the
   * lookups that print the connections never fail.
   */
  lemma FilteredNamed(edges: seq<(string, string)>, names: map<string, string>)
    requires SoundEdges(edges, names)
    ensures Named(KeepInternal(edges, SourcesOf(edges)), names)
  {
    var kept := KeepInternal(edges, SourcesOf(edges));
    forall k | 0 <= k < |kept| ensures kept[k].0 in names && kept[k].1 in names {
      assert kept[k] in edges;
      var e :| e in edges && e.0 == kept[k].1;
    }
  }

  /** The filtered connections never include a self-loop. */
  lemma FilteredNoSelfLoops(edges: seq<(string, string)>, names: map<string, string>)
    requires SoundEdges(edges, names)
    ensures forall e :: e in KeepInternal(edges, SourcesOf(edges)) ==> e.0 != e.1
  {
  }

  // ---------------------------------------------------------------------
  // The DOT text
  // ---------------------------------------------------------------------

  /** One edge statement per connection, between the stems of its two records. */
  function ConnectionTexts(conns: seq<(string, string)>, names: map<string, string>): (r: seq<string>)
    requires Named(conns, names)
    ensures |r| == |conns|
  {
    if conns == [] then []
    else
      var e := conns[|conns| - 1];
      ConnectionTexts(conns[..|conns| - 1], names) + [DotGraphs.EdgeLine(names[e.0], names[e.1])]
  }

  lemma {:induction false} ConnectionTextsAt(conns: seq<(string, string)>, names: map<string, string>, k: nat)
    requires Named(conns, names) && k < |conns|
    ensures ConnectionTexts(conns, names)[k] == DotGraphs.EdgeLine(names[conns[k].0], names[conns[k].1])
  {
    if k < |conns| - 1 {
      ConnectionTextsAt(conns[..|conns| - 1], names, k);
    }
  }

  /** The statement naming one id inside a cluster. */
  function ItemLine(item: string): string {
    "\t\t\"" + item + "\";\n"
  }

  function ItemLines(items: seq<string>): (r: seq<string>)
    ensures |r| == |items|
  {
    if items == [] then [] else ItemLines(items[..|items| - 1]) + [ItemLine(items[|items| - 1])]
  }

  lemma {:induction false} ItemLinesAt(items: seq<string>, i: nat)
    requires i < |items|
    ensures ItemLines(items)[i] == ItemLine(items[i])
  {
    if i < |items| - 1 {
      ItemLinesAt(items[..|items| - 1], i);
    }
  }

  function ClusterOpen(name: string): string {
    "\tsubgraph \"cluster_" + name + "\" {\n" + "\tlabel=\"" + name + "\";\n"
  }

  const ClusterClose := "\t}\n"

  /** The subgraph of one cluster: its opening and label, one statement per id, the closing brace. */
  function ClusterBlock(name: string, items: seq<string>): string {
    ClusterOpen(name) + Concat(ItemLines(items)) + ClusterClose
  }

  function ClusterBlocks(order: seq<string>, items: seq<seq<string>>): (r: seq<string>)
    requires |items| == |order|
    ensures |r| == |order|
  {
    if order == [] then []
    else ClusterBlocks(order[..|order| - 1], items[..|items| - 1])
         + [ClusterBlock(order[|order| - 1], items[|items| - 1])]
  }

  lemma {:induction false} ClusterBlocksAt(order: seq<string>, items: seq<seq<string>>, i: nat)
    requires |items| == |order| && i < |order|
    ensures ClusterBlocks(order, items)[i] == ClusterBlock(order[i], items[i])
  {
    if i < |order| - 1 {
      ClusterBlocksAt(order[..|order| - 1], items[..|items| - 1], i);
    }
  }

  /** The text written to dotfile.dot: header, connection lines, cluster blocks, closing brace. */
  function CitationDot(conns: seq<(string, string)>, names: map<string, string>, blocks: seq<string>): string
    requires Named(conns, names)
  {
    DotGraphs.Header + Concat(ConnectionTexts(conns, names)) + Concat(blocks) + DotGraphs.Footer
  }

  /**
   * The text opens the digraph with the connections right after the
   * header, and ends with the closing brace.
   */
  lemma CitationDotFrame(conns: seq<(string, string)>, names: map<string, string>, blocks: seq<string>)
    requires Named(conns, names)
    ensures var t := CitationDot(conns, names, blocks);
            && StartsWith(t, DotGraphs.Header + Concat(ConnectionTexts(conns, names)))
            && EndsWith(t, DotGraphs.Footer)
  {
    DotGraphs.Framed(DotGraphs.Header, Concat(ConnectionTexts(conns, names)), Concat(blocks), DotGraphs.Footer);
  }

  /** Each connection appears as an edge between the stems of its two records. */
  lemma CitationDotHasConnections(conns: seq<(string, string)>, names: map<string, string>, blocks: seq<string>, k: nat)
    requires Named(conns, names) && k < |conns|
    ensures Contains(CitationDot(conns, names, blocks), DotGraphs.EdgeLine(names[conns[k].0], names[conns[k].1]))
  {
    var texts := ConnectionTexts(conns, names);
    ConnectionTextsAt(conns, names, k);
    DotGraphs.ConcatPieceOccurs(DotGraphs.Header, texts, Concat(blocks) + DotGraphs.Footer, k);
    assert CitationDot(conns, names, blocks)
        == DotGraphs.Header + Concat(texts) + (Concat(blocks) + DotGraphs.Footer);
  }

  /** Each cluster block appears in the text, and each id of a cluster appears in its block. */
  lemma CitationDotHasClusters(conns: seq<(string, string)>, names: map<string, string>,
                               order: seq<string>, items: seq<seq<string>>, i: nat, j: nat)
    requires Named(conns, names) && |items| == |order| && i < |order| && j < |items[i]|
    ensures Contains(CitationDot(conns, names, ClusterBlocks(order, items)), ClusterBlock(order[i], items[i]))
    ensures Contains(ClusterBlock(order[i], items[i]), ItemLine(items[i][j]))
  {
    var blocks := ClusterBlocks(order, items);
    var pre := DotGraphs.Header + Concat(ConnectionTexts(conns, names));
    ClusterBlocksAt(order, items, i);
    DotGraphs.ConcatPieceOccurs(pre, blocks, DotGraphs.Footer, i);
    ItemLinesAt(items[i], j);
    DotGraphs.ConcatPieceOccurs(ClusterOpen(order[i]), ItemLines(items[i]), ClusterClose, j);
  }

  /** The connection lines (lines 58-60). */
  method ConnectionStatements(conns: seq<(string, string)>, names: map<string, string>) returns (text: string)
    requires Named(conns, names)
    ensures text == Concat(ConnectionTexts(conns, names))
  {
    text := "";
    var n := 0;
    while n < |conns|
      invariant n <= |conns|
      invariant Named(conns[..n], names)
      invariant text == Concat(ConnectionTexts(conns[..n], names))
    {
      var line := DotGraphs.EdgeLine(names[conns[n].0], names[conns[n].1]);
      assert conns[..n + 1][..n] == conns[..n];
      text := text + line;
      n := n + 1;
    }
    assert conns[..n] == conns;
  }

  /** One cluster's subgraph (lines 63-67), its ids in some order. */
  method ClusterStatements(name: string, members: set<string>) returns (block: string, items: seq<string>)
    ensures Enumerates(items, members)
    ensures block == ClusterBlock(name, items)
  {
    items := Enumerate(members);
    block := ClusterOpen(name);
    var n := 0;
    while n < |items|
      invariant n <= |items|
      invariant block == ClusterOpen(name) + Concat(ItemLines(items[..n]))
    {
      assert items[..n + 1][..n] == items[..n];
      block := block + ItemLine(items[n]);
      n := n + 1;
    }
    assert items[..n] == items;
    block := block + ClusterClose;
  }

  /** All cluster subgraphs (lines 62-67), the clusters in some order. */
  method ClusterSection(clusters: map<string, set<string>>) returns (text: string, order: seq<string>, items: seq<seq<string>>)
    ensures Enumerates(order, clusters.Keys) && |items| == |order|
    ensures forall i :: 0 <= i < |order| ==> Enumerates(items[i], clusters[order[i]])
    ensures text == Concat(ClusterBlocks(order, items))
  {
    order := Enumerate(clusters.Keys);
    items := [];
    text := "";
    var n := 0;
    while n < |order|
      invariant n <= |order| && |items| == n
      invariant forall i :: 0 <= i < n ==> Enumerates(items[i], clusters[order[i]])
      invariant text == Concat(ClusterBlocks(order[..n], items))
    {
      var block, these := ClusterStatements(order[n], clusters[order[n]]);
      assert order[..n + 1][..n] == order[..n];
      assert (items + [these])[..n] == items;
      items := items + [these];
      text := text + block;
      n := n + 1;
    }
    assert order[..n] == order;
  }

  /** The DOT text (lines 54-70). */
  method WriteDot(conns: seq<(string, string)>, names: map<string, string>, clusters: map<string, set<string>>)
    returns (text: string, order: seq<string>, items: seq<seq<string>>)
    requires Named(conns, names)
    ensures Enumerates(order, clusters.Keys) && |items| == |order|
    ensures forall i :: 0 <= i < |order| ==> Enumerates(items[i], clusters[order[i]])
    ensures text == CitationDot(conns, names, ClusterBlocks(order, items))
  {
    text := "";
    text := text + DotGraphs.Header;
    assert text == DotGraphs.Header;
    var edgeText := ConnectionStatements(conns, names);
    text := text + edgeText;
    var clusterText;
    clusterText, order, items := ClusterSection(clusters);
    text := text + clusterText;
    text := text + DotGraphs.Footer;
  }

  /**
   * The whole script: clusters from the material walk, connections from
   * the citation files, the filter, and the DOT text. Every lookup of a
   * stem succeeds.
   */
  method AnalyzeCitations(material: seq<WalkFile>, citations: seq<CitationFile>)
    returns (text: string, order: seq<string>, items: seq<seq<string>>)
    ensures Enumerates(order, ClusterNames(material)) && |items| == |order|
    ensures forall i :: 0 <= i < |order| ==> Enumerates(items[i], MidsIn(material, order[i]))
    ensures var scan := ScanFiles(citations);
            var kept := KeepInternal(scan.edges, SourcesOf(scan.edges));
            Named(kept, scan.names) && text == CitationDot(kept, scan.names, ClusterBlocks(order, items))
  {
    var clusters := GroupClusters(material);
    var edges, names := ScanCitationFiles(citations);
    var dots := Sources(edges);
    var kept := FilterConnections(edges, dots);
    FilteredNamed(edges, names);
    text, order, items := WriteDot(kept, names, clusters);
  }
}
