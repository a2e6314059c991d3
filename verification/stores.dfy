/**
 * Store namespaces: one JSON document store per project, rooted at
 * `db/<project name>`, and the process-wide prompt store rooted at
 * `db/prompts`. The file system is a map from directory path to the JSON
 * files it holds.
 */
module Stores {
  import opened Wrappers
  import opened Json
  import JsonRepository

  /** Every store directory that exists, with its files. */
  type Fs = map<string, JsonRepository.Dir>

  /** The root under which every namespace lives. */
  const DbRoot: string := "db"

  /** POSIX `os.path.join(a, b)`: an absolute `b` replaces `a`; otherwise one `/` separates them unless `a` is empty or ends in `/`. */
  function PathJoin(a: string, b: string): string {
    if |b| > 0 && b[0] == '/' then b
    else if |a| == 0 || a[|a| - 1] == '/' then a + b
    else a + "/" + b
  }

  /** The directory of the content store for project `name`. */
  function ContentNamespace(name: string): string {
    PathJoin(DbRoot, name)
  }

  /** The directory of the global prompt store. */
  const PromptNamespace: string := PathJoin(DbRoot, "prompts")

  /** A name that `os.path.join` appends as one new path component of its own. */
  predicate PlainName(name: string) {
    |name| > 0 && '/' !in name && name != "." && name != ".."
  }

  /** `os.makedirs(path, exist_ok=True)`: an existing directory is kept with its files; otherwise an empty one appears. */
  function MakeDirs(fs: Fs, path: string): (r: Fs)
    ensures r.Keys == fs.Keys + {path}
    ensures forall p :: p in fs ==> r[p] == fs[p]
    ensures path !in fs ==> r[path] == map[]
  {
    if path in fs then fs else fs[path := map[]]
  }

  /** A `JSONRepository` instance: the directory it reads and writes. */
  datatype Store = Store(directory: string)

  /** `JSONRepository(db_directory)`: makes the directory if needed and binds to it. */
  function OpenStore(fs: Fs, path: string): (r: (Store, Fs))
    ensures r.0.directory == path && path in r.1
  {
    (Store(path), MakeDirs(fs, path))
  }

  /** `create_content_store(project_name)`: the store rooted at `db/<project_name>`. */
  function CreateContentStore(fs: Fs, name: string): (r: (Store, Fs))
    ensures r.0.directory == ContentNamespace(name)
    ensures r.1.Keys == fs.Keys + {ContentNamespace(name)}
    ensures forall p :: p in fs ==> r.1[p] == fs[p]
  {
    var path := PathJoin(DbRoot, name);
    OpenStore(MakeDirs(fs, path), path)
  }

  /** The module-level `prompt_store`, rooted at `db/prompts`. */
  function PromptStore(fs: Fs): (r: (Store, Fs))
    ensures r.0.directory == "db/prompts" && r.0.directory in r.1
  {
    OpenStore(fs, PromptNamespace)
  }

  /** `store.save(data)` on the file system. */
  function Save(fs: Fs, s: Store, data: Document, fault: JsonRepository.WriteFault)
    : (r: Result<(Option<Json>, Fs), JsonRepository.SaveError>)
    requires s.directory in fs
    ensures r.Success? ==> r.value.1.Keys == fs.Keys
    ensures r.Success? ==> forall p :: p in fs && p != s.directory ==> r.value.1[p] == fs[p]
  {
    var (ret, dir) :- JsonRepository.Save(fs[s.directory], data, fault);
    Success((ret, fs[s.directory := dir]))
  }

  /** `store.load(identifier)` on the file system. */
  function Load(fs: Fs, s: Store, id: string): Option<Document>
    requires s.directory in fs
  {
    JsonRepository.Load(fs[s.directory], id)
  }

  /** The document a content slot holds: `{"id": key, "type": key, "content": content}`. */
  function SlotDocument(key: string, content: seq<Json>): Document {
    map["id" := JString(key), "type" := JString(key), "content" := JArray(content)]
  }

  /**
   * `content_store.update(key, content)`: replaces the slot for `key` with `content`,
   * written as the document `{"id": key, "type": key, "content": content}`.
   */
  function Update(fs: Fs, s: Store, key: string, content: seq<Json>): (r: Fs)
    requires s.directory in fs
    ensures r.Keys == fs.Keys
    ensures forall p :: p in fs && p != s.directory ==> r[p] == fs[p]
    ensures r[s.directory].Keys == fs[s.directory].Keys + {key}
    ensures forall k :: k in fs[s.directory] && k != key ==> r[s.directory][k] == fs[s.directory][k]
    ensures GetContent(r, s, key) == Some(content)
  {
    var doc := SlotDocument(key, content);
    assert JsonRepository.FileStem(doc["id"]) == Some(key);
    Save(fs, s, doc, JsonRepository.NoFault).value.1
  }

  /** `get_content(key)`: the `content` list of the slot for `key`, or `None` when the slot holds none. */
  function GetContent(fs: Fs, s: Store, key: string): (r: Option<seq<Json>>)
    requires s.directory in fs
    ensures r.Some? ==> Load(fs, s, key).Some? && Get(Load(fs, s, key).value, "content") == JArray(r.value)
    ensures r.None? ==> Load(fs, s, key).None? || !Get(Load(fs, s, key).value, "content").JArray?
  {
    match Load(fs, s, key)
    case None => None
    case Some(doc) => if "content" in doc && doc["content"].JArray? then Some(doc["content"].items) else None
  }

  /** An update replaces the slot entirely: the second of two updates is what is read back. */
  lemma UpdateOverwrites(fs: Fs, s: Store, key: string, c1: seq<Json>, c2: seq<Json>)
    requires s.directory in fs
    ensures Update(Update(fs, s, key, c1), s, key, c2) == Update(fs, s, key, c2)
  {
    var d := s.directory;
    var fs1 := Update(fs, s, key, c1);
    assert fs1 == fs[d := fs[d][key := JsonRepository.Stored(SlotDocument(key, c1))]];
    assert Update(fs1, s, key, c2) == fs1[d := fs1[d][key := JsonRepository.Stored(SlotDocument(key, c2))]];
    assert Update(fs, s, key, c2) == fs[d := fs[d][key := JsonRepository.Stored(SlotDocument(key, c2))]];
    assert fs1[d][key := JsonRepository.Stored(SlotDocument(key, c2))] == fs[d][key := JsonRepository.Stored(SlotDocument(key, c2))];
  }

  /** An update of one slot leaves what every other slot reads unchanged. */
  lemma UpdateKeepsOtherSlots(fs: Fs, s: Store, key: string, content: seq<Json>, t: Store, other: string)
    requires s.directory in fs && t.directory in fs
    requires s != t || other != key
    ensures GetContent(Update(fs, s, key, content), t, other) == GetContent(fs, t, other)
  {
  }

  // ---------------------------------------------------------------------
  // Properties of the namespaces

  /** The content store of a plain project name is the directory `db/<name>`. */
  lemma ContentNamespaceIsUnderDb(name: string)
    requires |name| > 0 && name[0] != '/'
    ensures ContentNamespace(name) == "db/" + name
  {
  }

  /** Creating a content store again changes nothing: the existing directory and its files are reused. */
  lemma CreateContentStoreIdempotent(fs: Fs, name: string)
    ensures var (s1, fs1) := CreateContentStore(fs, name);
      CreateContentStore(fs1, name) == (s1, fs1)
  {
  }

  /** Two stores created for one project name are the same store: what one saves the other loads. */
  lemma SameNameSharesDocuments(fs: Fs, name: string, data: Document)
    requires "id" in data && data["id"].JString?
    ensures var (s1, fs1) := CreateContentStore(fs, name);
      var (s2, fs2) := CreateContentStore(fs1, name);
      var after := Save(fs2, s1, data, JsonRepository.NoFault).value.1;
      s1 == s2 && Load(after, s2, data["id"].s) == Some(data)
  {
  }

  /** The prompt store's directory is the content store directory of a project named `prompts`. */
  lemma PromptsProjectAliasesPromptStore(fs: Fs)
    ensures CreateContentStore(fs, "prompts").0 == PromptStore(fs).0
  {
  }

  /** Distinct plain project names get distinct directories. */
  lemma {:induction false} ContentNamespaceInjective(n1: string, n2: string)
    requires PlainName(n1) && PlainName(n2)
    requires ContentNamespace(n1) == ContentNamespace(n2)
    ensures n1 == n2
  {
    assert n1 == ContentNamespace(n1)[3..];
    assert n2 == ContentNamespace(n2)[3..];
  }
}
