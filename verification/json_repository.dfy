/**
 * The file-backed JSON document store: one directory, one `<id>.json` file per
 * document. The directory is a map from file stem to file contents; a file is
 * either a stored document or one left unreadable by a write that failed part
 * way. The order in which the operating system lists the directory is an input.
 */
module JsonRepository {
  import opened Wrappers
  import opened Json
  import BaseRepository

  /** The contents of one `<stem>.json` file. */
  datatype File = Stored(doc: Document) | Corrupt

  /** A store directory: file stem to file contents. */
  type Dir = map<string, File>

  /** Where a write can fail: opening the file, or while the document is being written into it. */
  datatype WriteFault = NoFault | OpenFails | DumpFails

  /** The `ValueError` for a document without an id, or an id this model cannot render as a file name. */
  datatype SaveError = MissingId | UnrenderableId(id: Json)

  /** Every file of the directory parses. */
  predicate Intact(dir: Dir) {
    forall k :: k in dir ==> dir[k].Stored?
  }

  /** The repository state an intact directory stands for: identifier to document. */
  function View(dir: Dir): (v: map<string, Document>)
    requires Intact(dir)
    ensures v.Keys == dir.Keys
    ensures forall k :: k in dir ==> dir[k] == Stored(v[k])
  {
    map k | k in dir :: dir[k].doc
  }

  /** The file stem `f"{identifier}"` for an identifier that is present and not `None`. */
  function FileStem(id: Json): Option<string> {
    if id == JNull then None else PyStr(id)
  }

  /** `save(data)`: writes `data` to the file named after `data['id']` and returns that id, or `None` when the write fails. */
  function Save(dir: Dir, data: Document, fault: WriteFault): (r: Result<(Option<Json>, Dir), SaveError>)
    ensures Get(data, "id") == JNull <==> r == Failure(MissingId)
    ensures r.Failure? <==> Get(data, "id") == JNull || Get(data, "id").JArray? || Get(data, "id").JObject?
    ensures r.Success? ==> FileStem(data["id"]).Some?
    ensures r.Success? ==> var stem := FileStem(data["id"]).value;
      && r.value.1.Keys == dir.Keys + (if fault == OpenFails then {} else {stem})
      && (forall k :: k in dir && k != stem ==> r.value.1[k] == dir[k])
      && (fault == NoFault ==> r.value.1[stem] == Stored(data))
      && (fault == DumpFails ==> r.value.1[stem] == Corrupt)
      && (fault == OpenFails ==> r.value.1 == dir)
    ensures r.Success? && fault == NoFault ==> r.value.0 == Some(data["id"])
    ensures r.Success? && fault != NoFault ==> r.value.0 == None
  {
    var id := Get(data, "id");
    if id == JNull then Failure(MissingId)
    else
      match FileStem(id)
      case None => Failure(UnrenderableId(id))
      case Some(stem) =>
        match fault
        case NoFault => Success((Some(id), dir[stem := Stored(data)]))
        case OpenFails => Success((None, dir))
        case DumpFails => Success((None, dir[stem := Corrupt]))
  }

  /** `load(identifier)`: the document in `<identifier>.json`; `None` when the file is missing or does not parse. */
  function Load(dir: Dir, id: string): (r: Option<Document>)
    ensures r.Some? <==> id in dir && dir[id].Stored?
    ensures r.Some? ==> dir[id] == Stored(r.value)
  {
    if id in dir && dir[id].Stored? then Some(dir[id].doc) else None
  }

  /** `delete(identifier)`: removes `<identifier>.json` and reports whether it existed. */
  function Delete(dir: Dir, id: string): (r: (bool, Dir))
    ensures r.0 <==> id in dir
    ensures r.1.Keys == dir.Keys - {id}
    ensures forall k :: k in r.1 ==> r.1[k] == dir[k]
  {
    if id in dir then (true, dir - {id}) else (false, dir)
  }

  /** Reads the files `ks` in order; `None` as soon as one does not parse. */
  function ReadAll(dir: Dir, ks: seq<string>): (r: Option<seq<Document>>)
    requires forall i :: 0 <= i < |ks| ==> ks[i] in dir
    ensures r.Some? <==> forall i :: 0 <= i < |ks| ==> dir[ks[i]].Stored?
    ensures r.Some? ==> |r.value| == |ks| && forall i :: 0 <= i < |ks| ==> dir[ks[i]] == Stored(r.value[i])
  {
    if |ks| == 0 then Some([])
    else
      match dir[ks[0]]
      case Corrupt => None
      case Stored(d) =>
        match ReadAll(dir, ks[1..])
        case None => None
        case Some(rest) => Some([d] + rest)
  }

  /** `get_all()`: every document, in listing order; `[]` when any file does not parse. */
  function GetAll(dir: Dir, listing: seq<string>): (r: seq<Document>)
    requires BaseRepository.Enumerates(dir, listing)
    ensures Intact(dir) ==> |r| == |listing| && forall i :: 0 <= i < |r| ==> dir[listing[i]] == Stored(r[i])
    ensures !Intact(dir) ==> r == []
  {
    match ReadAll(dir, listing)
    case None => []
    case Some(docs) => docs
  }

  /** `item.get(k) == v` for every `(k, v)` of the criteria. */
  predicate Matches(criteria: Document, item: Document) {
    forall k :: k in criteria ==> PyEq(Get(item, k), criteria[k])
  }

  /** `find_by(criteria)`: the documents of `get_all()` that match every criterion, in listing order. */
  function FindBy(dir: Dir, listing: seq<string>, criteria: Document): (r: seq<Document>)
    requires BaseRepository.Enumerates(dir, listing)
    ensures |r| <= |listing|
    ensures forall i :: 0 <= i < |r| ==> Matches(criteria, r[i])
  {
    BaseRepository.Filter(GetAll(dir, listing), d => Matches(criteria, d))
  }

  // ---------------------------------------------------------------------
  // Properties of the store

  /** Round trip: after a successful save, loading the document's id gives the document back. */
  lemma SaveThenLoad(dir: Dir, data: Document)
    requires Save(dir, data, NoFault).Success?
    ensures var stem := FileStem(data["id"]).value;
      Load(Save(dir, data, NoFault).value.1, stem) == Some(data)
  {
  }

  /** An integer id names the file by its decimal text (`5` is saved as `5.json`) and loads back from it. */
  lemma SaveIntId(dir: Dir, data: Document, n: int)
    requires "id" in data && data["id"] == JInt(n)
    ensures var r := Save(dir, data, NoFault);
      && r.Success? && r.value.0 == Some(JInt(n))
      && Load(r.value.1, IntToDecimal(n)) == Some(data)
  {
  }

  /** A boolean id is saved too, under Python's rendering of it (`True.json` or `False.json`). */
  lemma SaveBoolId(dir: Dir, data: Document, b: bool)
    requires "id" in data && data["id"] == JBool(b)
    ensures var r := Save(dir, data, NoFault);
      && r.Success? && r.value.0 == Some(JBool(b))
      && Load(r.value.1, if b then "True" else "False") == Some(data)
  {
  }

  /** Saving twice under the same id keeps one file, holding the second document: a full overwrite. */
  lemma SaveOverwrites(dir: Dir, d1: Document, d2: Document)
    requires Save(dir, d1, NoFault).Success?
    requires "id" in d2 && d2["id"] == d1["id"]
    ensures var dir1 := Save(dir, d1, NoFault).value.1;
      var dir2 := Save(dir1, d2, NoFault).value.1;
      var stem := FileStem(d1["id"]).value;
      && dir2.Keys == dir1.Keys
      && Load(dir2, stem) == Some(d2)
      && dir2 == dir[stem := Stored(d2)]
  {
  }

  /** A document without an id, or with id `None`, is refused and nothing is written. */
  lemma SaveWithoutId(dir: Dir, data: Document, fault: WriteFault)
    requires "id" !in data || data["id"] == JNull
    ensures Save(dir, data, fault) == Failure(MissingId)
  {
  }

  /** The integer id `1` and the string id `"1"` share the file `1.json`. */
  lemma IntAndStringIdsCollide(dir: Dir, d1: Document, d2: Document)
    requires "id" in d1 && d1["id"] == JInt(1)
    requires "id" in d2 && d2["id"] == JString("1")
    ensures var dir1 := Save(dir, d1, NoFault).value.1;
      Load(Save(dir1, d2, NoFault).value.1, "1") == Some(d2)
  {
    assert NatToDecimal(1) == "1";
  }

  /** Loading an identifier that has no file gives `None`. */
  lemma LoadMissing(dir: Dir, id: string)
    requires id !in dir
    ensures Load(dir, id) == None
  {
  }

  /**
   * A write that fails after the file was opened destroys the previous document:
   * the file is truncated, so a later `load` gives `None` and `get_all` gives `[]`.
   */
  lemma FailedDumpLosesPrevious(dir: Dir, data: Document, listing: seq<string>)
    requires Save(dir, data, DumpFails).Success?
    requires BaseRepository.Enumerates(Save(dir, data, DumpFails).value.1, listing)
    ensures var after := Save(dir, data, DumpFails).value.1;
      var stem := FileStem(data["id"]).value;
      && Load(after, stem) == None
      && GetAll(after, listing) == []
  {
  }

  /** A write that fails on opening the file leaves the directory as it was. */
  lemma FailedOpenKeepsPrevious(dir: Dir, data: Document)
    requires Save(dir, data, OpenFails).Success?
    ensures Save(dir, data, OpenFails).value == (None, dir)
  {
  }

  /** `delete` reports presence; afterwards the id loads as `None` and every other id loads as before. */
  lemma DeleteThenLoad(dir: Dir, id: string, other: string)
    requires other != id
    ensures var (existed, after) := Delete(dir, id);
      && existed == (id in dir)
      && Load(after, id) == None
      && Load(after, other) == Load(dir, other)
  {
  }

  /** `find_by({})` is `get_all()`. */
  lemma FindByEmptyIsGetAll(dir: Dir, listing: seq<string>)
    requires BaseRepository.Enumerates(dir, listing)
    ensures FindBy(dir, listing, map[]) == GetAll(dir, listing)
  {
    var all := GetAll(dir, listing);
    BaseRepository.FilterKeepsAll(all, d => Matches(map[], d));
  }

  /** A document is found exactly when it is stored in an intact directory and matches every criterion. */
  lemma {:induction false} FindByExactly(dir: Dir, listing: seq<string>, criteria: Document, d: Document)
    requires BaseRepository.Enumerates(dir, listing)
    ensures d in FindBy(dir, listing, criteria) <==>
      Intact(dir) && (exists k :: k in dir && dir[k] == Stored(d)) && Matches(criteria, d)
  {
    var all := GetAll(dir, listing);
    BaseRepository.FilterMembership(all, d' => Matches(criteria, d'), d);
    GetAllHolds(dir, listing, d);
  }

  /** On an intact directory, `get_all` lists a document exactly when some file stores it. */
  lemma GetAllHolds(dir: Dir, listing: seq<string>, d: Document)
    requires BaseRepository.Enumerates(dir, listing)
    ensures d in GetAll(dir, listing) <==> Intact(dir) && exists k :: k in dir && dir[k] == Stored(d)
  {
    var all := GetAll(dir, listing);
    if Intact(dir) {
      if d in all {
        var i :| 0 <= i < |all| && all[i] == d;
        assert dir[listing[i]] == Stored(d);
      }
      if k :| k in dir && dir[k] == Stored(d) {
        var i :| 0 <= i < |listing| && listing[i] == k;
        assert all[i] == d;
      }
    }
  }

  /** A criterion on a field the document lacks holds exactly when the criterion's value is `None`. */
  lemma MissingFieldMatchesOnlyNone(item: Document, k: string, v: Json)
    requires k !in item
    ensures Matches(map[k := v], item) <==> v == JNull
  {
    assert Get(item, k) == JNull;
  }

  // ---------------------------------------------------------------------
  // The store meets the repository interface on intact directories

  /** `save` meets the interface's promise on the file stem of the id. */
  lemma SaveMeetsContract(dir: Dir, data: Document)
    requires Intact(dir)
    requires Save(dir, data, NoFault).Success?
    ensures var after := Save(dir, data, NoFault).value.1;
      && Intact(after)
      && BaseRepository.SaveContract(View(dir), FileStem(data["id"]).value, data, View(after))
  {
  }

  /** `load` meets the interface's promise. */
  lemma LoadMeetsContract(dir: Dir, id: string)
    requires Intact(dir)
    ensures BaseRepository.LoadContract(View(dir), id, Load(dir, id))
  {
  }

  /** `delete` meets the interface's promise. */
  lemma DeleteMeetsContract(dir: Dir, id: string)
    requires Intact(dir)
    ensures Intact(Delete(dir, id).1)
    ensures BaseRepository.DeleteContract(View(dir), id, Delete(dir, id).0, View(Delete(dir, id).1))
  {
  }

  /** `get_all` meets the interface's promise. */
  lemma GetAllMeetsContract(dir: Dir, listing: seq<string>)
    requires Intact(dir)
    requires BaseRepository.Enumerates(dir, listing)
    ensures BaseRepository.GetAllContract(View(dir), listing, GetAll(dir, listing))
  {
    assert BaseRepository.Enumerates(View(dir), listing);
    var v := BaseRepository.Values(View(dir), listing);
    assert GetAll(dir, listing) == v;
  }

  /** `find_by` meets the interface's promise, with the criteria as the acceptance test. */
  lemma FindByMeetsContract(dir: Dir, listing: seq<string>, criteria: Document)
    requires Intact(dir)
    requires BaseRepository.Enumerates(dir, listing)
    ensures BaseRepository.FindByContract(View(dir), listing, d => Matches(criteria, d), FindBy(dir, listing, criteria))
  {
    GetAllMeetsContract(dir, listing);
  }
}
