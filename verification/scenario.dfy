/**
 * The end-to-end walk through the system: initialise project `demo` with a
 * questionnaire, then generate its documentation with a stand-in generation
 * service that always answers `[{"text": "generated"}]`.
 */
module Scenario {
  import opened Wrappers
  import opened Json
  import opened ArtifactTypes
  import Stores
  import opened ProjectEntity
  import opened ArtifactEntity
  import opened ProjectService
  import opened ArtifactGenerationService

  const Purpose: Json := JObject(map["purpose" := JString("x")])
  const Generated: Json := JObject(map["text" := JString("generated")])
  const DocTemplate: Document := map["name" := JString("doc"), "objects" := JArray([])]

  function StandInService(prompts: seq<Prompt>): Result<seq<Json>, string> {
    Success([Generated])
  }

  const DemoResponse: Document := map["project_name" := JString("demo"), "questionnaire" := Purpose]

  /** The demo response names project `demo` and carries the questionnaire. */
  lemma DemoResponseFields()
    ensures Get(DemoResponse, "project_name") == JString("demo") && Truthy(JString("demo"))
    ensures Get(DemoResponse, "questionnaire") == Purpose && Truthy(Purpose)
  {
  }

  /** Initialising `demo` creates the project over `db/demo` and writes its questionnaire there. */
  lemma DemoInitialized(fs: Stores.Fs)
    ensures var (p, created) := NewProject(fs, "p1", "demo", "");
      && p.contentStore == Stores.Store("db/demo")
      && InitializeProject(fs, DemoResponse, "p1") == Success((p, InitializeWithQuestionnaire(created, p, Purpose)))
  {
    DemoResponseFields();
    assert Stores.ContentNamespace("demo") == "db/demo";
  }

  /** Initialising `demo` stores the questionnaire and nothing for DOCUMENTATION. */
  lemma InitializeDemo(fs: Stores.Fs)
    requires Stores.ContentNamespace("demo") !in fs
    ensures InitializeProject(fs, DemoResponse, "p1").Success?
    ensures var (p, fs1) := InitializeProject(fs, DemoResponse, "p1").value;
      && p.contentStore == Stores.Store("db/demo")
      && GetContent(fs1, p, Questionnaire) == Some([Purpose])
      && GetContent(fs1, p, Documentation) == None
  {
    DemoInitialized(fs);
    var (p, created) := NewProject(fs, "p1", "demo", "");
    assert created["db/demo"] == map[];
    assert GetContent(created, p, Documentation) == None;
    Stores.UpdateKeepsOtherSlots(created, p.contentStore, Key(Questionnaire), [Purpose], p.contentStore, Key(Documentation));
  }

  /** The one prompt for the questionnaire context is the template without `objects`, with that context. */
  lemma DemoPrompt()
    ensures CreatePrompt(DocTemplate, [Purpose]) == Success([Prompt(map["name" := JString("doc")], Purpose)])
  {
    var fields := DocTemplate - {"objects"};
    assert fields == map["name" := JString("doc")];
    var ps := PairAll(fields, [Purpose]);
    assert ps == [Prompt(fields, Purpose)];
  }

  /** Constructing `demo` again reuses its namespace and writes nothing. */
  lemma DemoReopened(fs1: Stores.Fs, p: Project)
    requires p.contentStore == Stores.Store("db/demo") && "db/demo" in fs1
    ensures NewProject(fs1, "p2", "demo", "") == (Project("p2", "demo", "", p.contentStore), fs1)
  {
    assert Stores.ContentNamespace("demo") == "db/demo";
  }

  /** DOCUMENTATION generation reads its own empty slot: without additional context it fails and writes nothing. */
  lemma DemoWithoutContextFails(fs1: Stores.Fs, p: Project)
    requires p.contentStore == Stores.Store("db/demo") && "db/demo" in fs1
    requires GetContent(fs1, p, Documentation) == None
    ensures GenerateArtifact(fs1, Request("demo", Documentation, None), "p2", [DocTemplate], StandInService)
         == (Failure(NoContext), fs1)
  {
    DemoReopened(fs1, p);
    var p2 := Project("p2", "demo", "", p.contentStore);
    assert GetContent(fs1, p2, Documentation) == None;
    assert ResolveContext(None, NormalizeAdditional(None)) == [];
  }

  /** With the questionnaire as additional context, generation stores the generated records and keeps the questionnaire. */
  lemma DemoWithContextStores(fs1: Stores.Fs, p: Project)
    requires p.contentStore == Stores.Store("db/demo") && "db/demo" in fs1
    requires GetContent(fs1, p, Documentation) == None
    requires GetContent(fs1, p, Questionnaire) == Some([Purpose])
    ensures var (ok, fs2) := GenerateArtifact(fs1, Request("demo", Documentation, Some(map["purpose" := JString("x")])), "p2", [DocTemplate], StandInService);
      && ok == Success(true)
      && GetContent(fs2, p, Documentation) == Some([Generated])
      && GetContent(fs2, p, Questionnaire) == Some([Purpose])
  {
    var req := Request("demo", Documentation, Some(map["purpose" := JString("x")]));
    DemoReopened(fs1, p);
    var p2 := Project("p2", "demo", "", p.contentStore);
    assert GetContent(fs1, p2, Documentation) == None;
    var context := ResolveContext(None, map["purpose" := JString("x")]);
    assert context == [Purpose];
    DemoPrompt();
    assert StandInService(CreatePrompt(DocTemplate, context).value) == Success([Generated]);
    var fs2 := ProjectEntity.UpdateContent(fs1, p2, [Generated], Documentation);
    assert GenerateArtifact(fs1, req, "p2", [DocTemplate], StandInService) == (Success(true), fs2);
    GeneratedContentIsStored(fs1, req, "p2", [DocTemplate], StandInService, Questionnaire);
  }

  /**
   * The whole walk, in a file system without a `demo` namespace: initialising stores
   * `[{"purpose": "x"}]` as the questionnaire; DOCUMENTATION generation without additional
   * context fails; with the questionnaire as additional context it succeeds, the project then
   * reads `[{"text": "generated"}]` for DOCUMENTATION and still has its questionnaire.
   */
  lemma EndToEnd(fs: Stores.Fs)
    requires Stores.ContentNamespace("demo") !in fs
    ensures InitializeProject(fs, DemoResponse, "p1").Success?
    ensures var (p, fs1) := InitializeProject(fs, DemoResponse, "p1").value;
      var (ok, fs2) := GenerateArtifact(fs1, Request("demo", Documentation, Some(map["purpose" := JString("x")])), "p2", [DocTemplate], StandInService);
      && GenerateArtifact(fs1, Request("demo", Documentation, None), "p2", [DocTemplate], StandInService).0 == Failure(NoContext)
      && ok == Success(true)
      && GetContent(fs2, p, Documentation) == Some([Generated])
      && GetContent(fs2, p, Questionnaire) == Some([Purpose])
  {
    InitializeDemo(fs);
    var (p, fs1) := InitializeProject(fs, DemoResponse, "p1").value;
    DemoWithoutContextFails(fs1, p);
    DemoWithContextStores(fs1, p);
  }
}
