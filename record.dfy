/**
 * One publication of inspirehep (inspiderweb/record.py). The live object is
 * the class `Record`, whose `Merge` updates it in place; `RecordData` is the
 * value of all its fields, which is what pickling stores and what `__eq__`
 * compares.
 */
module Records {
  import opened Wrappers
  import opened Strings

  const InspireRecordUrl := "http://inspirehep.net/record/"

  /** Python truthiness of the optional custom label: None and "" are false. */
  predicate Truthy(name: Option<string>) {
    name.Some? && name.value != ""
  }

  datatype RecordData = RecordData(
    inspireUrl: string,
    fulltextUrl: string,
    customLabel: Option<string>,
    bibkey: string,
    recid: string,
    references: set<string>,
    citations: set<string>,
    cocitations: set<string>,
    referencesDl: bool,
    citationsDl: bool,
    cocitationsDl: bool,
    infoDl: bool)
  {
    /** The read-only `label` property: bibkey, then custom label, then recid. */
    function Label(): string {
      if bibkey != "" then
        if Truthy(customLabel) then bibkey + " (" + customLabel.value + ")" else bibkey
      else if Truthy(customLabel) then customLabel.value
      else recid
    }
  }

  /** The state `Record(recid, label)` starts in; the custom label is the `label` argument. */
  function NewRecordData(recid: string, customLabel: Option<string>): RecordData {
    RecordData(InspireRecordUrl + recid, "", customLabel, "", recid,
               {}, {}, {}, false, false, false, false)
  }

  /** A fresh record knows nothing yet: no bibkey, no link, no edges, no download done. */
  lemma NewRecordIsEmpty(recid: string, customLabel: Option<string>)
    ensures var d := NewRecordData(recid, customLabel);
      && d.recid == recid && d.customLabel == customLabel
      && d.inspireUrl == InspireRecordUrl + recid
      && d.bibkey == "" && d.fulltextUrl == ""
      && d.references == {} && d.citations == {} && d.cocitations == {}
      && !d.referencesDl && !d.citationsDl && !d.cocitationsDl && !d.infoDl
    ensures NewRecordData(recid, None).Label() == recid
  {
  }

  /** The label follows a fixed precedence: bibkey, custom label, recid. */
  lemma LabelPrecedence(d: RecordData)
    ensures d.bibkey != "" && Truthy(d.customLabel) ==>
              d.Label() == d.bibkey + " (" + d.customLabel.value + ")"
    ensures d.bibkey != "" && !Truthy(d.customLabel) ==> d.Label() == d.bibkey
    ensures d.bibkey == "" && Truthy(d.customLabel) ==> d.Label() == d.customLabel.value
    ensures d.bibkey == "" && !Truthy(d.customLabel) ==> d.Label() == d.recid
    ensures d.bibkey != "" ==> StartsWith(d.Label(), d.bibkey)
  {
  }

  /** Which of the assertions of `merge`, if any, fails. */
  datatype MergeStatus = Merged | UrlMismatch | BibkeyConflict | RecidMismatch

  /**
   * The outcome of `self.merge(other)`: the status and the state `self` is
   * left in. An assertion failure raises after the updates made before it,
   * so a recid mismatch leaves the bibkey already copied over.
   */
  datatype MergeResult = MergeResult(status: MergeStatus, state: RecordData)

  /**
   * The part of a merge that cannot fail: edge sets joined, flags OR'd, and
   * custom label and fulltext url filled in where `a` has none.
   */
  function Joined(a: RecordData, b: RecordData): RecordData {
    a.(references := a.references + b.references,
       citations := a.citations + b.citations,
       cocitations := a.cocitations + b.cocitations,
       referencesDl := a.referencesDl || b.referencesDl,
       citationsDl := a.citationsDl || b.citationsDl,
       cocitationsDl := a.cocitationsDl || b.cocitationsDl,
       infoDl := a.infoDl || b.infoDl,
       customLabel := if Truthy(a.customLabel) then a.customLabel else b.customLabel,
       fulltextUrl := if a.fulltextUrl != "" then a.fulltextUrl else b.fulltextUrl)
  }

  function MergeData(a: RecordData, b: RecordData): MergeResult {
    if a.inspireUrl != b.inspireUrl then MergeResult(UrlMismatch, a)
    else if a.bibkey != "" && b.bibkey != "" && a.bibkey != b.bibkey then
      MergeResult(BibkeyConflict, a)
    else
      var a1 := if a.bibkey == "" then a.(bibkey := b.bibkey) else a;
      if a1.recid != b.recid then MergeResult(RecidMismatch, a1)
      else
        MergeResult(Merged, Joined(a1, b))
  }

  /** Merging two records with conflicting non-empty bibkeys. */
  predicate BibkeysConflict(a: RecordData, b: RecordData) {
    a.bibkey != "" && b.bibkey != "" && a.bibkey != b.bibkey
  }

  /**
   * Merge fails exactly on an identity or bibkey conflict, reporting the
   * first failed assertion; the failed merge changes nothing, except that a
   * recid mismatch comes after the bibkey has been filled in.
   */
  lemma MergeFailsExactlyOnConflict(a: RecordData, b: RecordData)
    ensures MergeData(a, b).status == Merged <==>
              a.inspireUrl == b.inspireUrl && a.recid == b.recid && !BibkeysConflict(a, b)
    ensures MergeData(a, b).status == UrlMismatch <==> a.inspireUrl != b.inspireUrl
    ensures MergeData(a, b).status == BibkeyConflict <==>
              a.inspireUrl == b.inspireUrl && BibkeysConflict(a, b)
    ensures MergeData(a, b).status in {UrlMismatch, BibkeyConflict} ==> MergeData(a, b).state == a
    ensures MergeData(a, b).status == RecidMismatch ==>
              MergeData(a, b).state == a.(bibkey := if a.bibkey == "" then b.bibkey else a.bibkey)
  {
  }

  /**
   * A successful merge loses nothing: edge sets are unions, download flags
   * are ORs, and bibkey, custom label and fulltext url keep self's value
   * unless it is empty. The identity fields stay.
   */
  lemma MergeJoinsFields(a: RecordData, b: RecordData)
    requires MergeData(a, b).status == Merged
    ensures var m := MergeData(a, b).state;
      && m.recid == a.recid && m.inspireUrl == a.inspireUrl
      && m.references == a.references + b.references
      && m.citations == a.citations + b.citations
      && m.cocitations == a.cocitations + b.cocitations
      && m.referencesDl == (a.referencesDl || b.referencesDl)
      && m.citationsDl == (a.citationsDl || b.citationsDl)
      && m.cocitationsDl == (a.cocitationsDl || b.cocitationsDl)
      && m.infoDl == (a.infoDl || b.infoDl)
      && m.bibkey == (if a.bibkey != "" then a.bibkey else b.bibkey)
      && m.customLabel == (if Truthy(a.customLabel) then a.customLabel else b.customLabel)
      && m.fulltextUrl == (if a.fulltextUrl != "" then a.fulltextUrl else b.fulltextUrl)
  {
  }

  /** Merging the same record in a second time changes nothing more. */
  lemma MergeIdempotent(a: RecordData, b: RecordData)
    requires MergeData(a, b).status == Merged
    ensures MergeData(MergeData(a, b).state, b) == MergeResult(Merged, MergeData(a, b).state)
  {
  }

  /** A record merged with an equal copy of itself stays as it is. */
  lemma MergeWithItself(a: RecordData)
    ensures MergeData(a, a) == MergeResult(Merged, a)
  {
  }

  /**
   * Whichever side is self, the merge succeeds or fails alike, and edge
   * sets, download flags and bibkey come out the same.
   */
  lemma MergeCommutesOnJoins(a: RecordData, b: RecordData)
    ensures (MergeData(a, b).status == Merged) == (MergeData(b, a).status == Merged)
    ensures MergeData(a, b).status == Merged ==>
      var ab, ba := MergeData(a, b).state, MergeData(b, a).state;
      && ab.references == ba.references && ab.citations == ba.citations
      && ab.cocitations == ba.cocitations
      && ab.referencesDl == ba.referencesDl && ab.citationsDl == ba.citationsDl
      && ab.cocitationsDl == ba.cocitationsDl && ab.infoDl == ba.infoDl
      && ab.bibkey == ba.bibkey && ab.recid == ba.recid
  {
    MergeFailsExactlyOnConflict(a, b);
    MergeFailsExactlyOnConflict(b, a);
    if MergeData(a, b).status == Merged {
      MergeJoinsFields(a, b);
      MergeJoinsFields(b, a);
    }
  }

  /** The remote operations `get_info`, `get_references` and `get_citations`. */
  datatype FetchKind = Info | References | Citations

  /**
   * One publication, updated in place. Its fields are those of record.py;
   * `Data()` is their value.
   */
  class Record {
    var inspireUrl: string
    var fulltextUrl: string
    var customLabel: Option<string>
    var bibkey: string
    var recid: string
    var references: set<string>
    var citations: set<string>
    var cocitations: set<string>
    var referencesDl: bool
    var citationsDl: bool
    var cocitationsDl: bool
    var infoDl: bool

    function Data(): RecordData
      reads this
    {
      RecordData(inspireUrl, fulltextUrl, customLabel, bibkey, recid,
                 references, citations, cocitations,
                 referencesDl, citationsDl, cocitationsDl, infoDl)
    }

    /** `Record(recid, label)`. */
    constructor (recid: string, customLabel: Option<string>)
      ensures Data() == NewRecordData(recid, customLabel)
    {
      this.inspireUrl := InspireRecordUrl + recid;
      this.fulltextUrl := "";
      this.customLabel := customLabel;
      this.bibkey := "";
      this.recid := recid;
      this.references := {};
      this.citations := {};
      this.cocitations := {};
      this.referencesDl := false;
      this.citationsDl := false;
      this.cocitationsDl := false;
      this.infoDl := false;
    }

    /** A record rebuilt from its stored fields, as unpickling does. */
    constructor FromData(d: RecordData)
      ensures Data() == d
    {
      this.inspireUrl := d.inspireUrl;
      this.fulltextUrl := d.fulltextUrl;
      this.customLabel := d.customLabel;
      this.bibkey := d.bibkey;
      this.recid := d.recid;
      this.references := d.references;
      this.citations := d.citations;
      this.cocitations := d.cocitations;
      this.referencesDl := d.referencesDl;
      this.citationsDl := d.citationsDl;
      this.cocitationsDl := d.cocitationsDl;
      this.infoDl := d.infoDl;
    }

    /** The `label` property. */
    function Label(): string
      reads this
    {
      Data().Label()
    }

    /** `__eq__`: the two records agree on every field. */
    function Equals(other: Record): (eq: bool)
      reads this, other
      ensures eq <==> Data() == other.Data()
    {
      && inspireUrl == other.inspireUrl && fulltextUrl == other.fulltextUrl
      && customLabel == other.customLabel && bibkey == other.bibkey
      && recid == other.recid && references == other.references
      && citations == other.citations && cocitations == other.cocitations
      && referencesDl == other.referencesDl && citationsDl == other.citationsDl
      && cocitationsDl == other.cocitationsDl && infoDl == other.infoDl
    }

    /** Overwrites every field, so that `Data()` becomes `d`. */
    method SetData(d: RecordData)
      modifies this
      ensures Data() == d
    {
      SetNames(d);
      SetEdges(d.references, d.citations, d.cocitations);
      SetFlags(d.referencesDl, d.citationsDl, d.cocitationsDl, d.infoDl);
    }

    /** Overwrites the five string fields with those of `d`. */
    method SetNames(d: RecordData)
      modifies this
      ensures Data() == old(Data()).(inspireUrl := d.inspireUrl, fulltextUrl := d.fulltextUrl,
                                     customLabel := d.customLabel, bibkey := d.bibkey, recid := d.recid)
    {
      FillBlanks(d.customLabel, d.fulltextUrl);
      SetIdentity(d.inspireUrl, d.bibkey, d.recid);
    }

    /** Overwrites the inspire url, the bibkey and the recid. */
    method SetIdentity(inspireUrl: string, bibkey: string, recid: string)
      modifies this
      ensures Data() == old(Data()).(inspireUrl := inspireUrl, bibkey := bibkey, recid := recid)
    {
      this.inspireUrl, this.bibkey, this.recid := inspireUrl, bibkey, recid;
    }

    /** Overwrites the three edge sets. */
    method SetEdges(references: set<string>, citations: set<string>, cocitations: set<string>)
      modifies this
      ensures Data() == old(Data()).(references := references, citations := citations,
                                     cocitations := cocitations)
    {
      this.references, this.citations, this.cocitations := references, citations, cocitations;
    }

    /** Overwrites the four download flags. */
    method SetFlags(referencesDl: bool, citationsDl: bool, cocitationsDl: bool, infoDl: bool)
      modifies this
      ensures Data() == old(Data()).(referencesDl := referencesDl, citationsDl := citationsDl,
                                     cocitationsDl := cocitationsDl, infoDl := infoDl)
    {
      this.referencesDl, this.citationsDl := referencesDl, citationsDl;
      this.cocitationsDl, this.infoDl := cocitationsDl, infoDl;
    }

    /**
     * `self.merge(other)`, in the order of the source's statements. `other`
     * may be `this`; it is never changed otherwise.
     */
    method Merge(other: Record) returns (status: MergeStatus)
      modifies this
      ensures MergeResult(status, Data()) == MergeData(old(Data()), old(other.Data()))
      ensures other != this ==> unchanged(other)
    {
      // When `other` is `this` every update below is a no-op, so reading
      // other's fields once up front is the same as reading them as we go.
      var b := other.Data();
      if inspireUrl != b.inspireUrl {
        return UrlMismatch;
      }
      if bibkey != "" && b.bibkey != "" && bibkey != b.bibkey {
        return BibkeyConflict;
      }
      if bibkey == "" {
        bibkey := b.bibkey;
      }
      if recid != b.recid {
        return RecidMismatch;
      }
      JoinFrom(b);
      status := Merged;
    }

    /** Lines 45-57 of `merge`: the updates that follow the assertions. */
    method JoinFrom(b: RecordData)
      modifies this
      ensures Data() == Joined(old(Data()), b)
    {
      // `set.update` on the three edge sets, `|=` on the four flags, then
      // the two fields taken from `other` where self's is empty.
      var j := Joined(Data(), b);
      SetEdges(j.references, j.citations, j.cocitations);
      SetFlags(j.referencesDl, j.citationsDl, j.cocitationsDl, j.infoDl);
      FillBlanks(j.customLabel, j.fulltextUrl);
    }

    /** The custom label and fulltext url, which `merge` fills in when empty. */
    method FillBlanks(customLabel: Option<string>, fulltextUrl: string)
      modifies this
      ensures Data() == old(Data()).(customLabel := customLabel, fulltextUrl := fulltextUrl)
    {
      this.customLabel, this.fulltextUrl := customLabel, fulltextUrl;
    }

    /**
     * One of `get_info`, `get_references`, `get_citations`, which the
     * database calls on a record but which record.py does not define: the
     * new state is whatever `fetch` makes of the old one.
     */
    method ApplyFetch(kind: FetchKind, force: bool,
                      fetch: (FetchKind, bool, RecordData) -> RecordData)
      modifies this
      ensures Data() == fetch(kind, force, old(Data()))
    {
      SetData(fetch(kind, force, Data()));
    }
  }
}
