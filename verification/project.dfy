/**
 * The Project entity: a name, a description, an opaque fresh identifier, and
 * the content store of its own namespace, in which each artifact type has one
 * slot holding a list of records.
 */
module ProjectEntity {
  import opened Wrappers
  import opened Json
  import opened ArtifactTypes
  import Stores

  datatype Project = Project(id: string, name: string, description: string, contentStore: Stores.Store)

  /**
   * `Project(name, description)`: binds the project to the content store of its name,
   * creating that namespace when needed. `id` stands for the freshly generated UUID.
   */
  function NewProject(fs: Stores.Fs, id: string, name: string, description: string): (r: (Project, Stores.Fs))
    ensures r.0.id == id && r.0.name == name && r.0.description == description
    ensures r.0.contentStore.directory == Stores.ContentNamespace(name)
    ensures r.0.contentStore.directory in r.1
    ensures r.1.Keys == fs.Keys + {Stores.ContentNamespace(name)}
    ensures forall p :: p in fs ==> r.1[p] == fs[p]
  {
    var (store, fs') := Stores.CreateContentStore(fs, name);
    (Project(id, name, description, store), fs')
  }

  /** `update_content(content, type)`: replaces the project's slot for `t`. */
  function UpdateContent(fs: Stores.Fs, p: Project, content: seq<Json>, t: ArtifactType): (r: Stores.Fs)
    requires p.contentStore.directory in fs
    ensures r.Keys == fs.Keys
    ensures GetContent(r, p, t) == Some(content)
  {
    Stores.Update(fs, p.contentStore, Key(t), content)
  }

  /** `get_content(type)`: the project's content for `t`, or `None` when there is no slot for it. */
  function GetContent(fs: Stores.Fs, p: Project, t: ArtifactType): Option<seq<Json>>
    requires p.contentStore.directory in fs
  {
    Stores.GetContent(fs, p.contentStore, Key(t))
  }

  /** `initialize_with_questionnaire(q)`: stores `[q]` in the QUESTIONNAIRE slot. */
  function InitializeWithQuestionnaire(fs: Stores.Fs, p: Project, q: Json): (r: Stores.Fs)
    requires p.contentStore.directory in fs
    ensures r.Keys == fs.Keys
    ensures GetContent(r, p, Questionnaire) == Some([q])
  {
    Stores.Update(fs, p.contentStore, Key(Questionnaire), [q])
  }

  /** The questionnaire write touches the QUESTIONNAIRE slot and nothing else: every other slot, of this or any other store, reads as before. */
  lemma InitializeTouchesOnlyQuestionnaire(fs: Stores.Fs, p: Project, q: Json, s: Stores.Store, key: string)
    requires p.contentStore.directory in fs && s.directory in fs
    requires s != p.contentStore || key != Key(Questionnaire)
    ensures Stores.GetContent(InitializeWithQuestionnaire(fs, p, q), s, key) == Stores.GetContent(fs, s, key)
  {
    Stores.UpdateKeepsOtherSlots(fs, p.contentStore, Key(Questionnaire), [q], s, key);
  }

  /** A later questionnaire replaces an earlier one. */
  lemma QuestionnaireOverwrites(fs: Stores.Fs, p: Project, q1: Json, q2: Json)
    requires p.contentStore.directory in fs
    ensures InitializeWithQuestionnaire(InitializeWithQuestionnaire(fs, p, q1), p, q2)
         == InitializeWithQuestionnaire(fs, p, q2)
  {
    Stores.UpdateOverwrites(fs, p.contentStore, Key(Questionnaire), [q1], [q2]);
  }

  /** Two projects constructed with the same name differ at most in their identifiers and share one store. */
  lemma SameNameSharesStore(fs: Stores.Fs, id1: string, id2: string, name: string, description: string)
    ensures var (p1, fs1) := NewProject(fs, id1, name, description);
      var (p2, fs2) := NewProject(fs1, id2, name, description);
      && p1.contentStore == p2.contentStore
      && p2 == p1.(id := id2)
      && fs2 == fs1
  {
    Stores.CreateContentStoreIdempotent(fs, name);
  }
}
