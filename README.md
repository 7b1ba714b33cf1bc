# inspiderweb in Dafny

A model of the core of inspiderweb, a tool that crawls inspirehep for the
reference network of a set of papers and draws it as a Graphviz DOT graph.
It covers six pieces:

- **Records** (`record.dfy`). A `Record` is a class whose fields `merge`
  updates in place. `RecordData` is the value of those fields, which is
  what pickling stores and what `__eq__` compares. The label property has a
  fixed precedence: bibkey, then custom label, then recid.
- **Database** (`database.dfy`, `rows.dfy`). `Database` is a class holding
  a map from recid to `Record` objects, so aliasing between keys is kept.
  It has:
  - `load` and `save` against a file system given as a map from path to
    snapshot;
  - the crawl of `autocomplete_records`, with its save and statistics
    checkpoints;
  - `get_record` and `update_record`;
  - the row loop of `load_records_from_urls`, modelled as written.
- **DOT graph** (`dotgraph.dfy`). `DotGraph` is a class with the records,
  their key order, the connection set and the generated text.
  `generate_dot_str` is a method built by repeated `+=`, as in the source.
  It is proved against a function `DotText` that gives header, style
  block, node statements, edge statements and footer.
- **Seed extraction** (`recidextractor.dfy`). Recid files and bibkey files
  are read line by line, and input paths are walked. A missing path ends
  the program with status 50.
- **Citation analysis** (`analyze_citations.dfy`). This script:
  - groups material files into clusters;
  - scans citation files for `/record/<digits>` links;
  - keeps the links between scanned records;
  - writes a DOT digraph with one subgraph per cluster.
- **Tutorial script** (`tutorial.dfy`). Commands are extracted from the
  indented lines of a readme into a shell script.

`strings.dfy` holds the Python string operations the core uses:
`str.strip`, `str.split`, `str.join`, `in`, `find`, `split(..)[0]`, and the
`+=` accumulation. `collections.dfy` holds facts about set and dict
iteration (some order, each element once) and about counters that fire on
every k-th step.

Remote calls (`get_info`, `get_references`, `get_citations`,
`is_complete`, `get_recids_from_bibkeys`) are function parameters, and so
is the file system. The order in which a Python set or dict iterates is
left open. Each method that iterates one returns the order it used, as an
enumeration of that set.

Where the repository's description and its code disagree, the model follows
the code:
- `os.walk` in `get_recids_from_paths` does not skip hidden files; the
  code leaves that as a fixme at inspiderweb/recidextractor.py:15.
- `get_record` returns a fresh record without storing it.
- `load_records_from_urls` raises on every row it does not skip. A missing
  column raises IndexError, which neither of its `except` clauses catches.
  Any other row reaches `r.label = label`, and `label` is a read-only
  property.

## Model

| member | source | states |
|---|---|---|
| Records.NewRecordIsEmpty | inspiderweb/record.py:13-25 | A new record has the inspire url of its recid and the given custom label. Its bibkey and fulltext url are empty, its three edge sets are empty and its four download flags are false. Without a custom label, its label is the recid. |
| Records.Record.constructor | inspiderweb/record.py:13-25 | The new object's fields are exactly those of a new record for that recid and label. |
| Records.Record.Equals | inspiderweb/record.py:27-28 | Two records are equal exactly when every field agrees. |
| Records.LabelPrecedence | inspiderweb/record.py:59-68 | With a bibkey the label is the bibkey, followed by the custom label in parentheses when that is truthy. Without a bibkey it is the custom label if truthy, else the recid. A label with a bibkey starts with it. |
| Records.MergeFailsExactlyOnConflict | inspiderweb/record.py:38-43 | A merge succeeds exactly when the inspire urls and recids agree and the bibkeys do not conflict. A url mismatch is reported before a bibkey conflict. Those two failures leave self unchanged. A recid mismatch leaves self with the bibkey already filled in. |
| Records.MergeJoinsFields | inspiderweb/record.py:41-57 | A successful merge unions the three edge sets and ORs the four download flags. It keeps self's bibkey, custom label and fulltext url unless they are empty, in which case it takes other's. The recid and url stay. |
| Records.MergeIdempotent | inspiderweb/record.py:30-57 | Merging the same record in a second time succeeds and changes nothing. |
| Records.MergeWithItself | inspiderweb/record.py:30-57 | Merging a record with an equal copy succeeds and leaves it as it was. |
| Records.MergeCommutesOnJoins | inspiderweb/record.py:30-57 | Merging a into b succeeds exactly when merging b into a does. On success both give the same edge sets, download flags, bibkey and recid. |
| Records.Record.Merge | inspiderweb/record.py:30-57 | The status and the new fields are those the merge of the old values prescribes, including the partial update before a failed recid assertion. Other is unchanged unless it is self. |
| Records.Record.JoinFrom | inspiderweb/record.py:45-57 | The updates after the assertions: edge set unions, flag ORs, label and url filled where empty. |
| Records.MergeData | inspiderweb/record.py:30-57 | Specification function, no contract of its own: the merge of two record values. It checks, in order, `inspire_url` equality, the bibkey conflict and `recid` equality, filling self's empty bibkey from other between the last two checks, and then joins. |
| Records.Joined | inspiderweb/record.py:45-57 | Specification function, no contract of its own: the three edge sets unioned, the four `_dl` flags OR'd, and `custom_label` and `fulltext_url` taken from other when self's is falsy or empty. |
| Records.Record.ApplyFetch | inspiderweb/database.py:60-65 | One remote completion step replaces the record's fields by what the fetch makes of them. |
| Databases.CompleteRecord | inspiderweb/database.py:60-65 | The record ends as the info, references and citations fetches, each applied only when switched on and in that order, make it. |
| Databases.Database.constructor | inspiderweb/database.py:12-14 | A new database has no records and keeps the backup path. |
| Databases.Database.Statistics | inspiderweb/database.py:16-27 | It returns three counts. The first is the number of records. The second is the number whose record is complete. The third is the number with a non-empty bibkey. Neither of the last two exceeds the first. |
| Databases.CountWhere | inspiderweb/database.py:22-26 | The sum of `int(p(r))` over a dict is the number of keys whose value satisfies p, and at most the dict's size. |
| Databases.Database.Load | inspiderweb/database.py:29-37 | The empty path falls back to the backup path. A missing file returns false and keeps the records. Otherwise the records are replaced by fresh, distinct objects holding the stored values. |
| Databases.Unpickle | inspiderweb/database.py:35 | Unpickling a snapshot gives one fresh object per recid, each holding that recid's stored values, no two alike. |
| Databases.Database.Save | inspiderweb/database.py:39-43 | The empty path falls back to the backup path. Saving to a non-empty path writes the current record values there and changes no other file. An empty resolved path writes nothing and fails. |
| Databases.SaveThenLoad | inspiderweb/database.py:29-43 | Saving and then loading the same path gives back records with equal values, each its own object. |
| Databases.Database.AutocompleteRecords | inspiderweb/database.py:45-67 | Every record is visited once, in some key order. Saves happen at exactly the multiples of save_every and statistics at the multiples of 10, both before that visit. A zero save_every raises on a non-empty database. An empty backup path stops the crawl at its first save. When no two keys share an object, visited records are completed and the others unchanged. Once a save has fired, the backup file holds the record values of the last save: the records visited before it completed, every other record as before the crawl. |
| Databases.Database.CrawlAll | inspiderweb/database.py:50-67 | The crawl over an enumeration of the keys, with the same guarantees for a positive save_every, including the record values and the backup contents. |
| Databases.Database.Crawl | inspiderweb/database.py:50-67 | The loop over a given key order visits a prefix of it. It finishes the whole order unless the first save fails, which happens after save_every - 1 visits. The saves and statistics fire at the multiples of save_every and 10. When no two keys share an object, the visited records are completed, the others unchanged, and the backup holds the values of the visits before the last save. |
| Databases.Database.Visit | inspiderweb/database.py:52-67 | One pass runs the checkpoints for the next count, and fails exactly when that count is save_every on an empty backup path. Unless it failed, it then completes that record. The crawl state after n + 1 visits follows from the state after n: schedule, record values and backup contents. |
| Databases.Database.Checkpoint | inspiderweb/database.py:53-58 | A save at a multiple of save_every fails exactly on an empty backup path, and that can only first happen at count save_every. The schedule of saves and statistics grows by this count where it is a multiple. A save writes the current record values to the backup path and changes no other file. Off a multiple, the files and the save schedule stay as they were. |
| Databases.Database.CompleteVisit | inspiderweb/database.py:60-67 | The visited record ends completed from its old values. When no two keys share an object, every other record is unchanged, so the first n + 1 visits of the order are completed and all others hold their values from before the crawl. |
| Databases.Database.SaveStep | inspiderweb/database.py:52-58 | The checkpoints of one pass, before its record is completed. They fail exactly on an empty backup path at count save_every. A save in this pass writes the values of the visits so far, the first n of the order. |
| Databases.Database.BackupStep | inspiderweb/database.py:53-54 | After one more pass, the backup holds what the last save wrote: the values of this pass's save if one fired, the earlier save's otherwise. |
| Databases.Database.BackupOfPrefix | inspiderweb/database.py:51-54 | The backup contents depend only on the visits before the last save, so they are the same stated over the visited prefix or over the whole order. |
| Databases.Database.CrawledSoFarContents | inspiderweb/database.py:51-67 | Part way through the crawl, the record values the save would write are the values before the crawl with the visited records completed. |
| Databases.CrawledState | inspiderweb/database.py:51-67 | Specification function, no contract of its own: the dict `_records` would map to after the listed visits, each record run through the switched-on fetches, every other as before. |
| Databases.Completed | inspiderweb/database.py:60-65 | Specification function, no contract of its own: `get_info`, `get_references` and `get_citations` applied in that order, each only when its switch is on, with the same `force`. |
| Collections.CheckpointsMembers | inspiderweb/database.py:52-56 | A counter checked with `i % k == 0` from 1 to n fires at exactly the multiples of k in that range, in increasing order. |
| Collections.CheckpointsCount | inspiderweb/database.py:52-56 | Such a counter fires floor(n / k) times. |
| Databases.Database.GetRecord | inspiderweb/database.py:69-73 | It returns the stored record when the key is present. Otherwise it returns a fresh record for that recid, not stored. |
| Databases.Database.UpdateRecord | inspiderweb/database.py:75-76 | The record is stored under the key and no other key changes. |
| Databases.UpdateThenGet | inspiderweb/database.py:69-76 | Getting a key right after updating it gives the record just stored. |
| Databases.Database.LoadRecordsFromUrls | inspiderweb/database.py:87-104 | It goes through every row exactly when all rows are empty, comments or have no digit in the id cell. Otherwise it raises at the first other row: IndexError for a missing column, AttributeError for a row with a recid. |
| UrlRows.ClassifyRowCases | inspiderweb/database.py:87-100 | Rows are classified as follows. An empty row is skipped, and so is a row whose first cell starts with the comment marker. A missing label or id column raises. An id cell with no digit is skipped. Any other row gives its stripped label and a non-empty all-digit recid: the first maximal digit run of its stripped id cell. |
| UrlRows.FirstDigitRunShape | inspiderweb/database.py:98 | The search for `[0-9]+` fails exactly when there is no digit. Otherwise it finds the leftmost maximal run of digits. |
| UrlRows.FirstDigitRunOfDigits | inspiderweb/database.py:98 | A recid of digits only is its own stripped form and its own first digit run. |
| UrlRows.EntryRowExample | inspiderweb/database.py:88-98 | A row `label;digits` gives the stripped label and those digits. |
| UrlRows.ShortRowExample | inspiderweb/database.py:92-98 | A row with one cell misses the id column. |
| UrlRows.ClassifyRow | inspiderweb/database.py:88-98 | Specification function, no contract of its own: one pass of the row loop. An empty row or a comment row is skipped (`continue`). A missing label or id column raises. The label cell is stripped, and the id cell is stripped and searched for `[0-9]+`. |
| UrlRows.FirstDigitRun | inspiderweb/database.py:98 | Specification function, no contract of its own: `re.search("[0-9]+", s).group(0)`, or no match. |
| Strings.Strip | inspiderweb/recidextractor.py:37 | The result has no whitespace at either end, and only whitespace is cut from both ends of the input. |
| Strings.BeforeFirst | test_tutorial_gen.py:21 | The result is the part of the input before the first occurrence of the separator. It is a prefix of the input, no occurrence of the separator starts inside it, and when it is shorter than the input the separator follows it. An input without the separator comes back whole. |
| DotGraphs.DotGraph.constructor | inspiderweb/dotgraph.py:6-9 | A new graph has empty text, no records, no connections. |
| DotGraphs.DotGraph.AddConnection | inspiderweb/dotgraph.py:27-30 | Both records are stored under their ids. A new id goes last in the key order and an existing one keeps its place. The directed connection is added, and the text is untouched. |
| DotGraphs.Inserted | inspiderweb/dotgraph.py:28-29 | A dict assignment keeps the keys free of duplicates and adds exactly the new key. The old order is kept as a prefix. |
| DotGraphs.InsertedIdempotent | inspiderweb/dotgraph.py:28-29 | Storing the same key twice leaves the order as storing it once. |
| DotGraphs.DotGraph.ReturnDotStr | inspiderweb/dotgraph.py:33-34 | It returns "" before the first generation, and afterwards the text last generated. |
| DotGraphs.DotGraph.GenerateDotStr | inspiderweb/dotgraph.py:36-52 | The text is rebuilt from scratch as header, style block, one node statement per stored record in key order, and one edge statement per connection in some iteration order, then the closing brace. It is stored and returned, and records and connections are unchanged. |
| DotGraphs.Render | inspiderweb/dotgraph.py:37-51 | The `+=` sequence builds exactly the DOT text of the style, the nodes in key order and the connections in the order used, one edge per connection. |
| DotGraphs.StyleLinesShape | inspiderweb/dotgraph.py:39-40 | Each style line is a tab followed by a non-empty piece of the style. There are none exactly when every piece is empty. |
| DotGraphs.StyleBlockEmpty | inspiderweb/dotgraph.py:39-41 | The style block is empty exactly when the style holds only semicolons. |
| DotGraphs.StyleBlockShape | inspiderweb/dotgraph.py:39-41 | A non-empty style block starts with a tab and does not end with a separator. |
| DotGraphs.StyleBlockSingle | inspiderweb/dotgraph.py:39-41 | A non-empty style without semicolons becomes one tab-indented line. |
| DotGraphs.NodeStatements | inspiderweb/dotgraph.py:43-45 | The first loop appends one node statement per key, in key order, each drawn with the record's id and current label. |
| DotGraphs.NodesOfAt | inspiderweb/dotgraph.py:43-45 | The i-th node drawn is the record stored under the i-th key. |
| DotGraphs.KeyOrderLength | inspiderweb/dotgraph.py:43 | A key order listing each stored key once has one entry per record. |
| DotGraphs.EdgeStatements | inspiderweb/dotgraph.py:47-49 | The second loop appends one edge statement per connection, in an order that lists each connection once. |
| DotGraphs.DotTextFrame | inspiderweb/dotgraph.py:37-51 | The text opens the digraph and ends with the closing brace. The node statements come before the edge statements. |
| DotGraphs.DotTextHasNodes | inspiderweb/dotgraph.py:43-45 | The text contains the node statement of every node. |
| DotGraphs.DotTextHasEdges | inspiderweb/dotgraph.py:47-49 | The text contains the edge statement of every edge. |
| DotGraphs.DotText | inspiderweb/dotgraph.py:36-52 | Specification function, no contract of its own: the text `generate_dot_str` assigns to `self._dot_str`. It is `digraph g {`, the style lines, one node statement per (id, label), one edge statement per connection, then `}`. |
| RecidExtractor.Without | inspiderweb/recidextractor.py:37 | Removing the newline leaves every other character and no newline. |
| RecidExtractor.RecidFileSeedsClean | inspiderweb/recidextractor.py:37-40 | Every recid read from a recid file is non-empty and has no whitespace at either end. |
| RecidExtractor.RecidFileSeedsMembers | inspiderweb/recidextractor.py:36-40 | A string is read from a recid file exactly when it is non-empty and is the cleaned form of one of its lines. |
| RecidExtractor.RecidFileSeedsOrderFree | inspiderweb/recidextractor.py:33-41 | Files with the same lines, in any order or repetition, give the same recids. |
| RecidExtractor.RecidsFromRecidFile | inspiderweb/recidextractor.py:33-41 | The loop collects exactly the non-blank cleaned lines. |
| RecidExtractor.RecidFileSeeds | inspiderweb/recidextractor.py:36-40 | Specification function, no contract of its own: the set of `line.replace("\n", "").strip()` over the file's lines, blank results left out. |
| RecidExtractor.MatchEnd | inspiderweb/recidextractor.py:49 | A match of `[a-zA-Z]{1,20}:[0-9]{4}[a-z]{0,10}` starting at a position ends within the line, and the matched text has the bibkey shape. |
| RecidExtractor.TokensFrom | inspiderweb/recidextractor.py:52-53 | Every token `findall` returns has the bibkey shape. |
| RecidExtractor.TokensOfLinesShaped | inspiderweb/recidextractor.py:49-53 | Every token collected from a bibkey file has the bibkey shape. |
| RecidExtractor.TokensOfLinesAppend | inspiderweb/recidextractor.py:51-53 | The tokens of two stretches of lines are the union of the tokens of each. |
| RecidExtractor.BibkeysFromLines | inspiderweb/recidextractor.py:50-53 | The loop collects exactly the tokens of all lines. |
| RecidExtractor.ExampleTokens | inspiderweb/recidextractor.py:49-53 | The line `Smith:2010ab` yields exactly one token, itself. |
| RecidExtractor.TokensOfLines | inspiderweb/recidextractor.py:50-53 | Specification function, no contract of its own: the set `bibkeys` after `bibkeys.update(regex.findall(line))` on every line. |
| RecidExtractor.BibkeyFileAsWritten | inspiderweb/recidextractor.py:54-55 | Specification function, no contract of its own: the code as written, `.keys()` of the lookup's answer for the collected bibkeys. |
| RecidExtractor.BibkeyFileSeeds | inspiderweb/recidextractor.py:54-55 | Specification function, no contract of its own: the corrected code (see Findings), `.values()` of the lookup's answer for the collected bibkeys. |
| RecidExtractor.BibkeyFileAsWrittenGivesBibkeys | inspiderweb/recidextractor.py:54-55 | As written, every returned seed has the bibkey shape and contains a colon, so none is a recid. |
| RecidExtractor.SoleBibkeyFile | inspiderweb/recidextractor.py:48-55 | Take a file whose one line is a single resolvable bibkey. As written it yields the bibkey; corrected, it yields the recid. |
| RecidExtractor.BibkeyFileReturnsKeysExample | inspiderweb/recidextractor.py:48-55 | A file citing Smith:2010ab, known as recid 123456, yields {"Smith:2010ab"} as written and {"123456"} corrected. |
| RecidExtractor.BibkeyFileSeedsAreRecids | inspiderweb/recidextractor.py:54-55 | Corrected, the seeds are the lookup's recids: all digits whenever the lookup answers with digits. |
| RecidExtractor.RecidsFromBibkeyFile | inspiderweb/recidextractor.py:48-55 | Corrected reader (see Findings): it scans the tokens and returns the recids the lookup gives them, `.values()` where the source returns `.keys()`. |
| RecidExtractor.SeedsOfUnion | inspiderweb/recidextractor.py:23-27 | The seeds of two groups of files are the union of the seeds of each. |
| RecidExtractor.RecidsFromPaths | inspiderweb/recidextractor.py:7-30 | It exits with status 50 exactly when some input path does not exist. Otherwise the seeds are the union of what the extractor yields on every file reached: the path itself, or every file below a directory, hidden ones included. |
| RecidExtractor.FromPath | inspiderweb/recidextractor.py:13-29 | One existing path yields the seeds of its walk if a directory, or of itself if a file. |
| RecidExtractor.RecidsFromRecidPaths | inspiderweb/recidextractor.py:44-45 | The walk with the recid-file reader; every seed is non-empty and stripped. |
| RecidExtractor.RecidsFromBibkeyPaths | inspiderweb/recidextractor.py:58-59 | Corrected (see Findings): the walk with the corrected bibkey-file reader and the database's lookup, so its seeds are recids where the source's would be bibkeys. |
| CitationAnalysis.BaseName | analyze_citations.py:16 | The base name has no slash, ends the path, and is preceded by a slash when shorter than the path. |
| CitationAnalysis.Extension | analyze_citations.py:15 | The extension ends the path. |
| CitationAnalysis.ExtensionShape | analyze_citations.py:15 | An extension is empty or a dot followed by characters that are neither dot nor slash. |
| CitationAnalysis.ExtensionEmpty | analyze_citations.py:15 | A file name has no extension exactly when every dot in it is preceded only by dots. |
| CitationAnalysis.Stem | analyze_citations.py:36 | The stem followed by the extension gives back the path. |
| CitationAnalysis.Mid | analyze_citations.py:16 | The id of a material file is the first four characters of its base name, or all of it when shorter. |
| CitationAnalysis.ClusterName | analyze_citations.py:17-19 | The cluster is the directory's base name, or ROOT when that is empty; never empty. |
| CitationAnalysis.NonMaterialIgnored | analyze_citations.py:15 | A file without a material extension changes no cluster. |
| CitationAnalysis.ClustersNonEmpty | analyze_citations.py:13-20 | Every cluster that appears holds at least one id. |
| CitationAnalysis.GroupStep | analyze_citations.py:14-20 | Adding one walked file keeps the dictionary equal to the clusters of the files so far and their ids. |
| CitationAnalysis.GroupClusters | analyze_citations.py:13-20 | The clusters are exactly those of the material files. Each maps to exactly the ids of the material files in it. |
| CitationAnalysis.RecordCaptureShape | analyze_citations.py:32-33 | A line yields an id exactly when it contains `/record/`, and the id is all digits, possibly empty. |
| CitationAnalysis.RecordCaptureIsFirst | analyze_citations.py:32-33 | The id follows the first `/record/` in the line and takes every digit there. |
| CitationAnalysis.RecordCapture | analyze_citations.py:32-33 | Specification function, no contract of its own: `record_regex.search(line).group(1)`, or no match. |
| CitationAnalysis.StepLine | analyze_citations.py:30-39 | Specification function, no contract of its own: the body of the line loop. A non-empty line with a match settles `this_record` and its name when none is set. A match other than `this_record` appends the connection from it. |
| CitationAnalysis.ScanLines | analyze_citations.py:29-39 | Specification function, no contract of its own: the line loop of one file, from the state given. |
| CitationAnalysis.ScanFiles | analyze_citations.py:24-39 | Specification function, no contract of its own: the file loop, where each file starts with `this_record = None` and the connections and names carry over. |
| CitationAnalysis.StepLineOwn | analyze_citations.py:34-37 | A line settles the file's own record only when none is set yet. It maps that record to the file's stem. A line that leaves it unset gives no non-empty id. |
| CitationAnalysis.ScanLinesNoRecord | analyze_citations.py:28-37 | A file that finds no record of its own has no line with a non-empty id. |
| CitationAnalysis.ScanLinesOwnRecord | analyze_citations.py:28-37 | A file's own record is the first non-empty id on its lines, and it is mapped to the file's stem. |
| CitationAnalysis.ScanLinesEdges | analyze_citations.py:29-39 | A file only appends connections. Each leads from the file's own record to an id read on one of its lines. A file without a record appends none, and a set record stays set. |
| CitationAnalysis.StepLineSound | analyze_citations.py:30-39 | One line keeps the connections free of self-loops and of empty sources, with every source mapped to a stem. Connections and mapped records only grow. |
| CitationAnalysis.ScanLinesSound | analyze_citations.py:29-39 | A whole file keeps those properties. |
| CitationAnalysis.ScanFilesSound | analyze_citations.py:24-39 | Every connection of the scan has a non-empty source with a stem and is no self-loop. |
| CitationAnalysis.ReadLine | analyze_citations.py:30-39 | The loop body does what one scan step prescribes. |
| CitationAnalysis.ScanCitationFile | analyze_citations.py:27-39 | The line loop of one file, starting with no record, gives the scan of its lines. |
| CitationAnalysis.ScanCitationFiles | analyze_citations.py:24-39 | The loop over the citation files gives the scan of all files, and its connections are sound. |
| CitationAnalysis.Sources | analyze_citations.py:41-43 | The set holds exactly the sources of the connections. |
| CitationAnalysis.KeepInternal | analyze_citations.py:45-48 | Every kept connection is a connection whose target is in the set. |
| CitationAnalysis.KeepInternalSubsequence | analyze_citations.py:45-48 | The filter keeps the order of the connections it keeps. |
| CitationAnalysis.KeepInternalCounts | analyze_citations.py:45-48 | Every copy of a connection whose target is a source is kept, and every other is dropped. |
| CitationAnalysis.FilterConnections | analyze_citations.py:45-48 | The loop keeps exactly the connections whose target is in the set, in order. |
| CitationAnalysis.FilteredNamed | analyze_citations.py:58-60 | After the filter both ends of every connection have a stem, so the lookups when writing never fail. |
| CitationAnalysis.FilteredNoSelfLoops | analyze_citations.py:38-48 | No kept connection is a self-loop. |
| CitationAnalysis.ConnectionTextsAt | analyze_citations.py:58-60 | The k-th edge line joins the stems of the k-th connection's two records. |
| CitationAnalysis.ConnectionStatements | analyze_citations.py:58-60 | The loop appends the edge lines of all connections in order. |
| CitationAnalysis.ItemLinesAt | analyze_citations.py:65-66 | The j-th item line names the j-th id. |
| CitationAnalysis.ClusterBlocksAt | analyze_citations.py:62-67 | The i-th block is the subgraph of the i-th cluster. |
| CitationAnalysis.ClusterStatements | analyze_citations.py:63-67 | One subgraph opens and labels the cluster, names each of its ids once in some order, then closes. |
| CitationAnalysis.ClusterSection | analyze_citations.py:62-67 | One subgraph per cluster, each cluster once in some order, each with its own ids. |
| CitationAnalysis.CitationDotFrame | analyze_citations.py:54-70 | The text opens the digraph, the connections come right after the header, and it ends with the closing brace. |
| CitationAnalysis.CitationDotHasConnections | analyze_citations.py:58-60 | Every kept connection appears as an edge between the stems of its two records. |
| CitationAnalysis.CitationDotHasClusters | analyze_citations.py:62-67 | Every cluster's subgraph appears in the text, and every id of the cluster appears in it. |
| CitationAnalysis.CitationDot | analyze_citations.py:54-70 | Specification function, no contract of its own: the text written to dotfile.dot. It is the header, one edge line per kept connection, the cluster subgraphs, then `}`. |
| CitationAnalysis.WriteDot | analyze_citations.py:54-70 | The `+=` sequence builds header, connection lines, cluster subgraphs and closing brace. |
| CitationAnalysis.AnalyzeCitations | analyze_citations.py:11-70 | The whole script. Its clusters are those of the material walk with their ids. The text draws the scanned connections whose target is a scanned record, each lookup succeeding, and then the clusters. |
| TutorialScript.EmittedShape | test_tutorial_gen.py:13-26 | An emitted command comes from an indented line. It is that line stripped and cut before its first `&&`. It holds no `&&` and no `<`/`>` pair, and it calls `python3 inspiderweb.py`. |
| TutorialScript.Command | test_tutorial_gen.py:21 | Specification function, no contract of its own: `line.strip().split("&&")[0]`. |
| TutorialScript.Emitted | test_tutorial_gen.py:13-26 | Specification function, no contract of its own: the filters of the loop body. A non-empty indented line gives its command, unless the command is a mock-up or does not call `python3 inspiderweb.py`. |
| TutorialScript.StripLeading | test_tutorial_gen.py:15-18 | Stripping a command behind its indentation gives the command back. |
| TutorialScript.CommandWhole | test_tutorial_gen.py:21 | A command without `&&` is not cut. |
| TutorialScript.CommandOfIndented | test_tutorial_gen.py:15-21 | An indented stripped command without `&&` is extracted unchanged. |
| TutorialScript.EmittedVerbatim | test_tutorial_gen.py:18-26 | Such a command that calls inspiderweb and is no mock-up is emitted exactly as written. Tabs inside it stay, since the result of `replace` is discarded. |
| TutorialScript.ScriptLinesAppend | test_tutorial_gen.py:12-27 | The script of two stretches of readme is the script of the first followed by that of the second. |
| TutorialScript.ScriptLinesFrom | test_tutorial_gen.py:12-27 | Every script line is the command of some readme line, followed by a newline. |
| TutorialScript.ScriptLineOfOne | test_tutorial_gen.py:12-27 | A readme line contributes its command and a newline, or nothing. |
| TutorialScript.Process | test_tutorial_gen.py:13-26 | The filters of one line keep it exactly when the line's command is emitted. |
| TutorialScript.GenerateScript | test_tutorial_gen.py:11-27 | The script written is the emitted commands, each followed by a newline, in readme order. |

## Findings

| source | as written | input that shows it | evidently intended | confidence | as-written member | corrected member |
|---|---|---|---|---|---|---|
| inspiderweb/recidextractor.py:54 | returns `.keys()` of the bibkey-to-recid map the lookup answers with, that is, the bibkeys | a bibkey file with the one line `Smith:2010ab`, which the lookup resolves to recid 123456, yields the seed `Smith:2010ab` | return the recids, `.values()` of that map, since the caller uses the result as recid seeds | high; not executed | RecidExtractor.BibkeyFileAsWritten (lemmas BibkeyFileAsWrittenGivesBibkeys, BibkeyFileReturnsKeysExample) | RecidExtractor.BibkeyFileSeeds (lemma BibkeyFileSeedsAreRecids, methods RecidsFromBibkeyFile and RecidsFromBibkeyPaths) |

## Left out

- Logging, `time.sleep` and the `print` calls (inspiderweb/database.py:17-27, 57-58; analyze_citations.py:77-79) produce no state the model keeps.
- The pickle format is not modelled: a saved file holds the record values, and loading rebuilds one object per recid from them.
- Databases.Unpickle: pickle keeps shared references, so a saved dict in which two keys share one object loads with them still shared. The model rebuilds one distinct object per recid, and Databases.Database.Load and Databases.SaveThenLoad inherit that.
- `get_info`, `get_references`, `get_citations`, `is_complete` and `get_recids_from_bibkeys` are not defined in the modelled files. They are parameters: a fetch function and a lookup function.
- Databases.Database.AutocompleteRecords: save_every is a natural number. A negative save_every, which Python's `%` would treat like its absolute value, is not modelled.
- Databases.Database.Save: any non-empty path succeeds. The file system is a map from path to snapshot, so `open` failures (missing directory, permissions, a full disk) are not modelled, and neither are they in Databases.Database.Load beyond a missing file.
- Databases.Database.LoadRecordsFromUrls: the CSV parsing of the file, with its delimiter and quoting, is left out. The rows come in as lists of cells. A row with a recid ends the loop with AttributeError, so the model has no write-back of labels.
- DotGraphs.DotGraph.AddConnection: reads the record's `recid` where the source reads `record.mid`. Record defines no `mid`, so the code as written would raise AttributeError.
- DotGraphs.DotGraph.GenerateDotStr: labels are read when the text is generated, as the source does. What the text records is the (id, label) pairs of that moment, not the record objects.
- `DotGraph.write_to_file` (inspiderweb/dotgraph.py:54-56) and the commented-out `_add_cluster` are not modelled, because they are file output and dead code.
- analyze_citations.py reads two hard-coded folders (lines 8-9) and writes dotfile.dot (lines 74-75). The folders' contents are inputs (the walk of the material folder and the citation files with their lines), and the text is the result.
- CitationAnalysis.AnalyzeCitations: `this_record = None` is modelled as the empty string, since `not this_record` treats both alike. The order of `os.listdir` is the order of the input list.
- The regular expressions are modelled as hand-written scanners for their patterns, not as a regex engine.
- The iteration order of sets and dicts is left open: the methods choose some order and report it, and the proofs hold for every order.
- RecidExtractor.RecidsFromPaths: `sys.exit(50)` is modelled as an `Exit(50)` result, and only files and directories exist in the modelled file system. `os.walk` is taken to list every file below a directory once.
- TutorialScript.GenerateScript: opening readme.md and test_tutorial.sh is left out. The readme is its list of lines and the script is the text written.
- inspiderweb/cli.py, inspiderweb.py, inspiderweb/log.py, util/migrate_pickle.py, test.py, test_online.py and inspiderweb/test_record.py are not part of this model.
