/**
 * The record store of inspiderweb (inspiderweb/database.py): a dictionary
 * from recid to `Record` objects, saved to and loaded from a backup file
 * wholesale, and a crawl that completes every record while checkpointing.
 *
 * The file system is a value, a map from path to the record snapshot
 * pickled there, that `save` returns changed. The operations `get_info`,
 * `get_references`, `get_citations` and `is_complete`, which record.py does
 * not define, are function parameters.
 */
module Databases {
  import opened Wrappers
  import opened Strings
  import opened Collections
  import opened Records
  import opened UrlRows

  /** What pickling the record dictionary stores: each recid's field values. */
  type Snapshot = map<string, RecordData>

  /** The files the database is pickled to, by path. */
  type Files = map<string, Snapshot>

  /** `os.path.exists(path)`; the empty path never exists. */
  predicate Exists(files: Files, path: string) {
    path != "" && path in files
  }

  /** How `autocomplete_records` ends. */
  datatype CrawlEnd =
    | Finished
      /** `i % save_every` with `save_every == 0` raises ZeroDivisionError. */
    | DivisionByZero
      /** `self.save()` raises when the backup path is empty. */
    | SaveFailed

  /** `bool(r.bibkey)`, which the statistics count. */
  predicate HasBibkey(d: RecordData) {
    d.bibkey != ""
  }

  /**
   * What one crawl step does to a record: `get_info`, `get_references` and
   * `get_citations`, each only when its switch is on, in that order.
   */
  function Completed(d: RecordData, fetch: (FetchKind, bool, RecordData) -> RecordData,
                     force: bool, info: bool, references: bool, citations: bool): RecordData
  {
    var d1 := if info then fetch(Info, force, d) else d;
    var d2 := if references then fetch(References, force, d1) else d1;
    if citations then fetch(Citations, force, d2) else d2
  }

  /**
   * The record values part way through the crawl: the recids in `visited`
   * completed, every other one as in `before`.
   */
  function CrawledState(before: Snapshot, visited: seq<string>,
                        fetch: (FetchKind, bool, RecordData) -> RecordData,
                        force: bool, info: bool, references: bool, citations: bool): Snapshot
  {
    map k | k in before :: if k in visited then Completed(before[k], fetch, force, info, references, citations)
                           else before[k]
  }

  /** The body of the crawl loop on one record: the fetches that are switched on. */
  method CompleteRecord(record: Record, fetch: (FetchKind, bool, RecordData) -> RecordData,
                        force: bool, info: bool, references: bool, citations: bool)
    modifies record
    ensures record.Data() == Completed(old(record.Data()), fetch, force, info, references, citations)
  {
    if info {
      record.ApplyFetch(Info, force, fetch);
    }
    if references {
      record.ApplyFetch(References, force, fetch);
    }
    if citations {
      record.ApplyFetch(Citations, force, fetch);
    }
  }

  class Database {
    var records: map<string, Record>
    const backupPath: string

    /** `Database(backup_path)`: no records yet. */
    constructor (backupPath: string)
      ensures records == map[] && this.backupPath == backupPath
    {
      records := map[];
      this.backupPath := backupPath;
    }

    /** The value of every stored record, as `save` pickles it. */
    function Contents(): (s: Snapshot)
      reads this, records.Values
      ensures s.Keys == records.Keys
    {
      map k | k in records :: records[k].Data()
    }

    /** No two recids share one `Record` object. */
    ghost predicate Distinct()
      reads this
    {
      forall k, j :: k in records && j in records && k != j ==> records[k] != records[j]
    }

    /** `load` and `save` fall back to the backup path when given an empty one. */
    function ResolvePath(path: string): string {
      if path == "" then backupPath else path
    }

    /** `get_record(mid)`: the stored record, or a fresh one that is not stored. */
    method GetRecord(mid: string) returns (r: Record)
      ensures mid in records ==> r == records[mid]
      ensures mid !in records ==> fresh(r) && r.Data() == NewRecordData(mid, None)
    {
      if mid in records {
        r := records[mid];
      } else {
        r := new Record(mid, None);
      }
    }

    /** `update_record(mid, record)`: stores `record` under `mid`, touching no other key. */
    method UpdateRecord(mid: string, record: Record)
      modifies this
      ensures records == old(records)[mid := record]
    {
      records := records[mid := record];
    }

    /**
     * `load(path)`: fails on a missing file and keeps the records; otherwise
     * replaces them wholesale by fresh objects holding the stored values.
     */
    method Load(files: Files, path: string) returns (ok: bool)
      modifies this
      ensures ok == Exists(files, ResolvePath(path))
      ensures !ok ==> records == old(records)
      ensures ok ==> Contents() == files[ResolvePath(path)] && Distinct()
      ensures ok ==> forall k :: k in records ==> fresh(records[k])
    {
      var p := ResolvePath(path);
      if !Exists(files, p) {
        return false;
      }
      var loaded := Unpickle(files[p]);
      records := loaded;
      ok := true;
      assert forall k :: k in records ==> records[k].Data() == files[p][k];
    }

    /**
     * `save(path)`: writes the current values to the resolved path. An
     * empty resolved path cannot be opened, so nothing is written.
     */
    method Save(files: Files, path: string) returns (ok: bool, files': Files)
      ensures ok <==> ResolvePath(path) != ""
      ensures ok ==> files' == files[ResolvePath(path) := Contents()]
      ensures !ok ==> files' == files
    {
      var p := ResolvePath(path);
      if p == "" {
        return false, files;
      }
      files' := files[p := Contents()];
      ok := true;
    }

    /**
     * `autocomplete_records`: visits every record once, in the dictionary's
     * order, counting visits from 1. It saves to the backup path whenever the
     * count is a multiple of `saveEvery` and logs `statistics` whenever it is
     * a multiple of 10, both before completing that record. The dictionary
     * is not rebound: `update_record` stores each record under its own key.
     */
    method AutocompleteRecords(files: Files, fetch: (FetchKind, bool, RecordData) -> RecordData,
                               force: bool, saveEvery: nat,
                               info: bool, references: bool, citations: bool)
      returns (files': Files, visited: seq<string>, savedAt: seq<nat>, statsAt: seq<nat>, end: CrawlEnd)
      modifies records.Values
      ensures NoDuplicates(visited) && forall k :: k in visited ==> k in records
      ensures end == Finished ==> Enumerates(visited, records.Keys)
      ensures end == DivisionByZero <==> saveEvery == 0 && records != map[]
      ensures end == SaveFailed <==> 0 < saveEvery <= |records| && backupPath == ""
      ensures end == SaveFailed ==> |visited| == saveEvery - 1
      ensures saveEvery > 0 ==> savedAt == Checkpoints(|visited|, saveEvery)
      ensures saveEvery == 0 ==> savedAt == []
      ensures statsAt == Checkpoints(|visited|, 10)
      ensures savedAt != [] ==> BackupWritten(files, files')
      ensures savedAt == [] ==> files' == files
      ensures Distinct() ==> CrawledSoFar(old(Contents()), visited, fetch, force, info, references, citations)
      ensures Distinct() ==> BackupHoldsLastSave(files', old(Contents()), visited, |visited|, savedAt,
                                                 fetch, force, info, references, citations)
    {
      if saveEvery == 0 {
        // The loop raises on its first `i % save_every`, if it runs at all.
        end := if records == map[] then Finished else DivisionByZero;
        return files, [], [], [], end;
      }
      files', visited, savedAt, statsAt, end := CrawlAll(files, fetch, force, saveEvery,
                                                        info, references, citations);
    }

    /** `autocomplete_records` when `saveEvery` is positive: the loop over some iteration order. */
    method CrawlAll(files: Files, fetch: (FetchKind, bool, RecordData) -> RecordData,
                    force: bool, saveEvery: nat, info: bool, references: bool, citations: bool)
      returns (files': Files, visited: seq<string>, savedAt: seq<nat>, statsAt: seq<nat>, end: CrawlEnd)
      requires saveEvery > 0
      modifies records.Values
      ensures NoDuplicates(visited) && forall k :: k in visited ==> k in records
      ensures end == Finished ==> Enumerates(visited, records.Keys)
      ensures end == Finished || end == SaveFailed
      ensures end == SaveFailed <==> saveEvery <= |records| && backupPath == ""
      ensures end == SaveFailed ==> |visited| == saveEvery - 1
      ensures Scheduled(files, files', |visited|, saveEvery, savedAt, statsAt)
      ensures Distinct() ==> CrawledSoFar(old(Contents()), visited, fetch, force, info, references, citations)
      ensures Distinct() ==> BackupHoldsLastSave(files', old(Contents()), visited, |visited|, savedAt,
                                                 fetch, force, info, references, citations)
    {
      ghost var before := Contents();
      assert before == old(Contents());
      var order := Enumerate(records.Keys);
      EnumerationLength(order, records.Keys);
      assert |order| == |records|;
      files', visited, savedAt, statsAt, end := Crawl(before, files, order, fetch, force, saveEvery,
                                                     info, references, citations);
      if Distinct() {
        BackupOfPrefix(files', before, order, visited, savedAt, fetch, force, info, references, citations);
      }
    }

    /** The loop of `autocomplete_records` over the recids in iteration order `order`. */
    method Crawl(ghost before: Snapshot, files: Files, order: seq<string>, fetch: (FetchKind, bool, RecordData) -> RecordData,
                 force: bool, saveEvery: nat, info: bool, references: bool, citations: bool)
      returns (files': Files, visited: seq<string>, savedAt: seq<nat>, statsAt: seq<nat>, end: CrawlEnd)
      requires before == Contents()
      requires saveEvery > 0 && NoDuplicates(order) && forall k :: k in order ==> k in records
      modifies records.Values
      ensures |visited| <= |order| && NoDuplicates(visited) && forall k :: k in visited ==> k in order
      ensures end == Finished || end == SaveFailed
      ensures end == Finished ==> visited == order
      ensures end == SaveFailed <==> saveEvery <= |order| && backupPath == ""
      ensures end == SaveFailed ==> |visited| == saveEvery - 1
      ensures Scheduled(files, files', |visited|, saveEvery, savedAt, statsAt)
      ensures Distinct() ==> CrawledSoFar(before, visited, fetch, force, info, references, citations)
      ensures visited == order[..|visited|]
      ensures Distinct() ==> BackupHoldsLastSave(files', before, order, |visited|, savedAt,
                                                 fetch, force, info, references, citations)
    {
      files', visited, savedAt, statsAt := files, [], [], [];
      end := Finished;
      var n := 0;
      while n < |order| && end == Finished
        invariant n <= |order| && visited == order[..n] && NoDuplicates(visited)
        invariant end == Finished || end == SaveFailed
        invariant end == SaveFailed ==> backupPath == "" && saveEvery == n + 1 <= |order|
        invariant CrawlProgress(files, files', before, order, n, saveEvery, savedAt, statsAt,
                                fetch, force, info, references, citations)
        decreases |order| - n, if end == Finished then 1 else 0
      {
        var mid := order[n];
        PrefixFacts(order, n);
        var ok, files1, savedAt1, statsAt1 :=
          Visit(files, files', savedAt, statsAt, saveEvery, before, order, n,
               fetch, force, info, references, citations);
        if ok {
          files', savedAt, statsAt := files1, savedAt1, statsAt1;
          visited := visited + [mid];
          n := n + 1;
          PrefixFacts(order, n);
        } else {
          end := SaveFailed;
        }
      }
      assert end == Finished ==> visited == order;
    }

    /**
     * One pass of the crawl loop for the recid `order[n]`: the checkpoints
     * for count `n + 1`, where a save writes the values of the visits so
     * far, then, unless the save failed, the record completed and stored
     * back under its own key.
     */
    method Visit(ghost initial: Files, files: Files, savedAt: seq<nat>, statsAt: seq<nat>, saveEvery: nat,
                ghost before: Snapshot, order: seq<string>, n: nat,
                fetch: (FetchKind, bool, RecordData) -> RecordData,
                force: bool, info: bool, references: bool, citations: bool)
      returns (ok: bool, files': Files, savedAt': seq<nat>, statsAt': seq<nat>)
      requires n < |order| && order[n] in records && order[n] !in order[..n]
      requires CrawlProgress(initial, files, before, order, n, saveEvery, savedAt, statsAt,
                             fetch, force, info, references, citations)
      modifies records[order[n]]
      ensures !ok <==> backupPath == "" && n + 1 == saveEvery
      ensures ok ==> CrawlProgress(initial, files', before, order, n + 1, saveEvery, savedAt', statsAt',
                                   fetch, force, info, references, citations)
      ensures !ok ==> CrawlProgress(initial, files, before, order, n, saveEvery, savedAt, statsAt,
                                    fetch, force, info, references, citations)
    {
      ok, files', savedAt', statsAt' := SaveStep(initial, files, savedAt, statsAt, saveEvery, before, order, n,
                                                 fetch, force, info, references, citations);
      if ok {
        CompleteVisit(before, order, n, fetch, force, info, references, citations);
        // `update_record(mid, record)` stores the object already under `mid`.
      }
    }

    /**
     * The checkpoints of one pass, before its record is completed: a save
     * writes the values of the first `n` visits.
     */
    method SaveStep(ghost initial: Files, files: Files, savedAt: seq<nat>, statsAt: seq<nat>, saveEvery: nat,
                    ghost before: Snapshot, order: seq<string>, n: nat,
                    fetch: (FetchKind, bool, RecordData) -> RecordData,
                    force: bool, info: bool, references: bool, citations: bool)
      returns (ok: bool, files': Files, savedAt': seq<nat>, statsAt': seq<nat>)
      requires n < |order|
      requires CrawlProgress(initial, files, before, order, n, saveEvery, savedAt, statsAt,
                             fetch, force, info, references, citations)
      ensures !ok <==> backupPath == "" && n + 1 == saveEvery
      ensures ok ==> Scheduled(initial, files', n + 1, saveEvery, savedAt', statsAt')
      ensures ok && Distinct() ==> BackupHoldsLastSave(files', before, order, n + 1, savedAt',
                                                       fetch, force, info, references, citations)
    {
      ghost var saved := Contents();
      if Distinct() {
        CrawledSoFarContents(before, order[..n], fetch, force, info, references, citations);
      }
      ok, files', savedAt', statsAt' := Checkpoint(initial, files, n + 1, saveEvery, savedAt, statsAt);
      if ok && Distinct() {
        BackupStep(files, files', before, order, n, savedAt, savedAt', saved,
                   fetch, force, info, references, citations);
      }
    }

    /**
     * The state of the crawl after the first `n` visits of `order`: the
     * checkpoints so far, and, when no two keys share an object, the
     * records and the backup as those visits left them.
     */
    ghost predicate CrawlProgress(initial: Files, files: Files, before: Snapshot, order: seq<string>, n: nat,
                                  saveEvery: nat, savedAt: seq<nat>, statsAt: seq<nat>,
                                  fetch: (FetchKind, bool, RecordData) -> RecordData,
                                  force: bool, info: bool, references: bool, citations: bool)
      reads this, records.Values
    {
      && n <= |order|
      && Scheduled(initial, files, n, saveEvery, savedAt, statsAt)
      && (Distinct() ==> CrawledSoFar(before, order[..n], fetch, force, info, references, citations))
      && (Distinct() ==> BackupHoldsLastSave(files, before, order, n, savedAt,
                                             fetch, force, info, references, citations))
    }

    /**
     * The backup after one pass: a save in this pass wrote the values the
     * records held before it, which are those of the visits so far.
     */
    lemma BackupStep(files: Files, files': Files, before: Snapshot, order: seq<string>, n: nat,
                     savedAt: seq<nat>, savedAt': seq<nat>, saved: Snapshot,
                     fetch: (FetchKind, bool, RecordData) -> RecordData,
                     force: bool, info: bool, references: bool, citations: bool)
      requires n < |order|
      requires saved == CrawledState(before, order[..n], fetch, force, info, references, citations)
      requires BackupHoldsLastSave(files, before, order, n, savedAt, fetch, force, info, references, citations)
      requires || (savedAt' == savedAt + [n + 1] && files' == files[backupPath := saved])
               || (savedAt' == savedAt && files' == files)
      ensures BackupHoldsLastSave(files', before, order, n + 1, savedAt', fetch, force, info, references, citations)
    {
    }

    /**
     * Once a save has fired, the backup holds the values the records had at
     * the last save: the first `last - 1` visits of `visits` completed, every
     * other record as in `before`, where `last` is the count the last save
     * fired at, at most `n`.
     */
    ghost predicate BackupHoldsLastSave(files: Files, before: Snapshot, visits: seq<string>, n: nat, savedAt: seq<nat>,
                                        fetch: (FetchKind, bool, RecordData) -> RecordData,
                                        force: bool, info: bool, references: bool, citations: bool)
    {
      savedAt != [] ==>
        var last := savedAt[|savedAt| - 1];
        && 1 <= last <= n && last - 1 <= |visits|
        && backupPath in files
        && files[backupPath] == CrawledState(before, visits[..last - 1], fetch, force, info, references, citations)
    }

    /** What the backup holds is fixed by the visits before the last save alone. */
    lemma BackupOfPrefix(files: Files, before: Snapshot, order: seq<string>, visited: seq<string>, savedAt: seq<nat>,
                         fetch: (FetchKind, bool, RecordData) -> RecordData,
                         force: bool, info: bool, references: bool, citations: bool)
      requires |visited| <= |order| && visited == order[..|visited|]
      requires BackupHoldsLastSave(files, before, order, |visited|, savedAt, fetch, force, info, references, citations)
      ensures BackupHoldsLastSave(files, before, visited, |visited|, savedAt, fetch, force, info, references, citations)
    {
      if savedAt != [] {
        var last := savedAt[|savedAt| - 1];
        assert visited[..last - 1] == order[..last - 1];
      }
    }

    /** Part way through the crawl, the record values are those of the visits so far. */
    lemma CrawledSoFarContents(before: Snapshot, visited: seq<string>,
                               fetch: (FetchKind, bool, RecordData) -> RecordData,
                               force: bool, info: bool, references: bool, citations: bool)
      requires CrawledSoFar(before, visited, fetch, force, info, references, citations)
      ensures Contents() == CrawledState(before, visited, fetch, force, info, references, citations)
    {
    }

    /**
     * Part way through the crawl, the records visited so far are completed
     * and the others still hold their values from `before`.
     */
    ghost predicate CrawledSoFar(before: Snapshot, visited: seq<string>,
                                 fetch: (FetchKind, bool, RecordData) -> RecordData,
                                 force: bool, info: bool, references: bool, citations: bool)
      reads this, records.Values
    {
      && before.Keys == records.Keys
      && forall k :: k in records ==>
        records[k].Data() == if k in visited
                             then Completed(before[k], fetch, force, info, references, citations)
                             else before[k]
    }

    /**
     * One visit of the crawl: completes the record under `mid`. When every
     * record is its own object, no other record changes.
     */
    method CompleteVisit(ghost before: Snapshot, order: seq<string>, n: nat,
                         fetch: (FetchKind, bool, RecordData) -> RecordData,
                         force: bool, info: bool, references: bool, citations: bool)
      requires n < |order| && order[n] in records && order[n] !in order[..n]
      requires Distinct() ==> CrawledSoFar(before, order[..n], fetch, force, info, references, citations)
      modifies records[order[n]]
      ensures records[order[n]].Data() == Completed(old(records[order[n]].Data()), fetch, force, info, references, citations)
      ensures Distinct() ==> CrawledSoFar(before, order[..n + 1], fetch, force, info, references, citations)
    {
      var mid := order[n];
      var record := records[mid];
      assert order[..n + 1] == order[..n] + [mid];
      CompleteRecord(record, fetch, force, info, references, citations);
      if Distinct() {
        forall k | k in records
          ensures records[k].Data() == if k in order[..n + 1]
                                       then Completed(before[k], fetch, force, info, references, citations)
                                       else before[k]
        {
          if k != mid {
            assert records[k] != record;
          }
        }
      }
    }

    /**
     * `after` is `before` with the backup file written: it holds the
     * current recids and every other file is as it was.
     */
    ghost predicate BackupWritten(before: Files, after: Files)
      reads this
    {
      && after.Keys == before.Keys + {backupPath}
      && after[backupPath].Keys == records.Keys
      && forall p :: p in before && p != backupPath ==> after[p] == before[p]
    }

    /**
     * The state of the crawl's checkpoints after `n` visits: the saves and
     * the statistics have fired at exactly the multiples of `saveEvery` and
     * of 10 up to `n`, the backup is written once some save fired, and an
     * empty backup path stops the crawl before its first save.
     */
    ghost predicate Scheduled(initial: Files, files: Files, n: nat, saveEvery: nat,
                              savedAt: seq<nat>, statsAt: seq<nat>)
      reads this
    {
      && saveEvery > 0
      && savedAt == Checkpoints(n, saveEvery) && statsAt == Checkpoints(n, 10)
      && (backupPath == "" ==> n < saveEvery)
      && (savedAt != [] ==> BackupWritten(initial, files))
      && (savedAt == [] ==> files == initial)
    }

    /**
     * The checkpoints at the head of the crawl loop for visit number `count`:
     * `self.save()` when `count` is a multiple of `saveEvery`, which fails on
     * an empty backup path, then `statistics` when it is a multiple of 10.
     * `initial` is the file system the crawl started from.
     */
    method Checkpoint(ghost initial: Files, files: Files, count: nat, saveEvery: nat,
                      savedAt: seq<nat>, statsAt: seq<nat>)
      returns (ok: bool, files': Files, savedAt': seq<nat>, statsAt': seq<nat>)
      requires saveEvery > 0 && count > 0
      requires Scheduled(initial, files, count - 1, saveEvery, savedAt, statsAt)
      ensures ok <==> count % saveEvery != 0 || backupPath != ""
      ensures !ok <==> backupPath == "" && count == saveEvery
      ensures ok ==> Scheduled(initial, files', count, saveEvery, savedAt', statsAt')
      ensures ok && count % saveEvery == 0 ==> files' == files[backupPath := Contents()] && savedAt' == savedAt + [count]
      ensures count % saveEvery != 0 ==> files' == files && savedAt' == savedAt
    {
      files', savedAt', statsAt' := files, savedAt, statsAt;
      ok := true;
      if backupPath == "" {
        // Below `saveEvery` the counter is no multiple of it; at it, it is.
        if count < saveEvery {
          DivUnique(count, saveEvery, 0, count);
        } else {
          DivUnique(count, saveEvery, 1, 0);
        }
      }
      if count % saveEvery == 0 {
        ok, files' := Save(files, "");
        if !ok {
          return;
        }
        savedAt' := savedAt' + [count];
      }
      if count % 10 == 0 {
        statsAt' := statsAt' + [count];
      }
    }

    /**
     * The three counts `statistics` logs: all records, completed records
     * and records with a bibkey.
     */
    method Statistics(isComplete: RecordData -> bool)
      returns (total: nat, completed: nat, withBibkey: nat)
      ensures total == |records|
      ensures completed == |KeysWhere(Contents(), isComplete)|
      ensures withBibkey == |KeysWhere(Contents(), HasBibkey)|
      ensures completed <= total && withBibkey <= total
    {
      var snapshot := Contents();
      total := |snapshot|;
      completed := CountWhere(snapshot, isComplete);
      withBibkey := CountWhere(snapshot, HasBibkey);
    }

    /**
     * The row loop of `load_records_from_urls`, each CSV row given as its
     * list of cells. Empty rows, comment rows and rows whose id cell has no
     * digit are passed over. A missing column raises IndexError, which
     * neither `except KeyError` nor `except AttributeError or KeyError`
     * (that is, `except AttributeError`) catches. Any other row reaches
     * `r.label = label`, which raises AttributeError since `label` is a
     * read-only property. `get_record` stores nothing, so the records are
     * never changed.
     */
    method LoadRecordsFromUrls(rows: seq<seq<string>>, commentChar: string, labelColumn: int, idColumn: int)
      returns (run: RowsRun)
      ensures run == AllRows <==>
                forall i :: 0 <= i < |rows| ==> Skipped(ClassifyRow(rows[i], commentChar, labelColumn, idColumn))
      ensures run.Raised? ==>
                && run.row < |rows|
                && (forall i :: 0 <= i < run.row ==>
                      Skipped(ClassifyRow(rows[i], commentChar, labelColumn, idColumn)))
                && var o := ClassifyRow(rows[run.row], commentChar, labelColumn, idColumn);
                   (o.Entry? && run.error == AttributeError) || (o == ColumnMissing && run.error == IndexError)
    {
      var n := 0;
      while n < |rows|
        invariant n <= |rows|
        invariant forall i :: 0 <= i < n ==> Skipped(ClassifyRow(rows[i], commentChar, labelColumn, idColumn))
      {
        var o := ClassifyRow(rows[n], commentChar, labelColumn, idColumn);
        if o == ColumnMissing {
          return Raised(n, IndexError);
        }
        if o.Entry? {
          var r := GetRecord(o.mid);
          return Raised(n, AttributeError);
        }
        n := n + 1;
      }
      run := AllRows;
    }
  }

  /** The record objects a pickled dictionary loads as: one fresh object per recid. */
  method Unpickle(snapshot: Snapshot) returns (loaded: map<string, Record>)
    ensures loaded.Keys == snapshot.Keys
    ensures forall k :: k in loaded ==> fresh(loaded[k]) && loaded[k].Data() == snapshot[k]
    ensures forall k, j :: k in loaded && j in loaded && k != j ==> loaded[k] != loaded[j]
  {
    var todo := snapshot.Keys;
    loaded := map[];
    while todo != {}
      invariant todo <= snapshot.Keys
      invariant loaded.Keys == snapshot.Keys - todo
      invariant forall k :: k in loaded ==> fresh(loaded[k]) && loaded[k].Data() == snapshot[k]
      invariant forall k, j :: k in loaded && j in loaded && k != j ==> loaded[k] != loaded[j]
      decreases todo
    {
      var k :| k in todo;
      var r := new Record.FromData(snapshot[k]);
      loaded := loaded[k := r];
      todo := todo - {k};
    }
  }

  /** `sum([int(p(r)) for mid, r in m.items()])`. */
  method CountWhere(m: Snapshot, p: RecordData -> bool) returns (n: nat)
    ensures n == |KeysWhere(m, p)| && n <= |m|
  {
    var todo := m.Keys;
    n := 0;
    while todo != {}
      invariant todo <= m.Keys
      invariant n == |KeysWhere(m, p) - todo|
      decreases todo
    {
      var k :| k in todo;
      CountStep(m, p, todo, k);
      if p(m[k]) {
        n := n + 1;
      }
      todo := todo - {k};
    }
    assert KeysWhere(m, p) - {} == KeysWhere(m, p);
    SubsetSize(KeysWhere(m, p), m.Keys);
  }

  /** Saving and then loading the same path gives back equal records. */
  method SaveThenLoad(db: Database, files: Files, path: string) returns (ok: bool, files': Files)
    modifies db
    ensures ok <==> db.ResolvePath(path) != ""
    ensures ok ==> db.Contents() == old(db.Contents()) && db.Distinct()
  {
    ok, files' := db.Save(files, path);
    if ok {
      var loaded := db.Load(files', path);
      assert loaded;
    }
  }

  /** `update_record(mid, r)` followed by `get_record(mid)` gives `r` back. */
  method UpdateThenGet(db: Database, mid: string, r: Record) returns (got: Record)
    modifies db
    ensures got == r
  {
    db.UpdateRecord(mid, r);
    got := db.GetRecord(mid);
  }
}
