/**
 * `ArtifactGenerationService.generate_artifact`: resolves the context for one
 * artifact type of one project, builds prompts from the first template, asks
 * the generation service for content and stores it in the type's slot.
 */
module ArtifactGenerationService {
  import opened Wrappers
  import opened Json
  import opened ArtifactTypes
  import Stores
  import opened ProjectEntity
  import opened ArtifactEntity

  /** The generation service: prompts in, content records out, or the text of a transport failure. */
  type Generator = seq<Prompt> -> Result<seq<Json>, string>

  /**
   * Why generation stopped: no context (`ValueError`), no template (`IndexError` on
   * `templates[0]`), a template without `objects` (`KeyError`), or a service failure.
   */
  datatype GenerationError = NoContext | NoTemplate | BadTemplate(e: PromptError) | ServiceFailed(message: string)

  /** The service's constructor arguments. */
  datatype Request = Request(projectName: string, artifactType: ArtifactType, additionalContext: Option<Document>)

  /** `additional_context or {}`: an absent additional context is the empty dict. */
  function NormalizeAdditional(additional: Option<Document>): (r: Document)
    ensures additional.None? ==> r == map[]
    ensures additional.Some? ==> r == additional.value
  {
    additional.GetOr(map[])
  }

  /** The context fallback: stored content when non-empty, else `[additional]` when that is non-empty, else nothing. */
  function ResolveContext(stored: Option<seq<Json>>, additional: Document): (r: seq<Json>)
    ensures stored.Some? && |stored.value| > 0 ==> r == stored.value
    ensures (stored.None? || stored.value == []) && |additional| > 0 ==> r == [JObject(additional)]
    ensures r == [] <==> (stored.None? || stored.value == []) && |additional| == 0
  {
    var context := stored.GetOr([]);
    if |context| == 0 && |additional| > 0 then [JObject(additional)] else context
  }

  /**
   * `generate_artifact()`. `projectId` stands for the UUID of the project it constructs and
   * `templates` for the artifact's prompt templates. Constructing the project creates its
   * namespace; nothing else is written unless generation succeeds.
   */
  function GenerateArtifact(fs: Stores.Fs, req: Request, projectId: string, templates: seq<Document>, generate: Generator)
    : (r: (Result<bool, GenerationError>, Stores.Fs))
    ensures var (project, created) := NewProject(fs, projectId, req.projectName, "");
      var context := ResolveContext(GetContent(created, project, req.artifactType), NormalizeAdditional(req.additionalContext));
      && (r.0.Failure? ==> r.1 == created)
      && (context == [] ==> r.0 == Failure(NoContext))
      && (context != [] && templates == [] ==> r.0 == Failure(NoTemplate))
      && (r.0.Success? <==>
            && context != [] && templates != [] && "objects" in templates[0]
            && generate(CreatePrompt(templates[0], context).value).Success?)
      && (r.0.Success? ==>
            r.0.value && r.1 == ProjectEntity.UpdateContent(created, project, generate(CreatePrompt(templates[0], context).value).value, req.artifactType))
  {
    var (project, created) := NewProject(fs, projectId, req.projectName, "");
    var context := ResolveContext(GetContent(created, project, req.artifactType), NormalizeAdditional(req.additionalContext));
    if context == [] then (Failure(NoContext), created)
    else if templates == [] then (Failure(NoTemplate), created)
    else
      match CreatePrompt(templates[0], context)
      case Failure(e) => (Failure(BadTemplate(e)), created)
      case Success(prompts) =>
        match generate(prompts)
        case Failure(message) => (Failure(ServiceFailed(message)), created)
        case Success(content) => (Success(true), ProjectEntity.UpdateContent(created, project, content, req.artifactType))
  }

  /** Only the first template matters: the others never change the outcome. */
  lemma OnlyFirstTemplateUsed(fs: Stores.Fs, req: Request, projectId: string, templates: seq<Document>, generate: Generator)
    requires |templates| > 0
    ensures GenerateArtifact(fs, req, projectId, templates, generate)
         == GenerateArtifact(fs, req, projectId, templates[..1], generate)
  {
  }

  /** On success the generated content is what the project now reads for the artifact type, and every other type's slot is untouched. */
  lemma GeneratedContentIsStored(fs: Stores.Fs, req: Request, projectId: string, templates: seq<Document>, generate: Generator, t: ArtifactType)
    requires GenerateArtifact(fs, req, projectId, templates, generate).0.Success?
    ensures var (project, created) := NewProject(fs, projectId, req.projectName, "");
      var after := GenerateArtifact(fs, req, projectId, templates, generate).1;
      var context := ResolveContext(GetContent(created, project, req.artifactType), NormalizeAdditional(req.additionalContext));
      && GetContent(after, project, req.artifactType) == Some(generate(CreatePrompt(templates[0], context).value).value)
      && (t != req.artifactType ==> GetContent(after, project, t) == GetContent(created, project, t))
  {
    var (project, created) := NewProject(fs, projectId, req.projectName, "");
    if t != req.artifactType {
      KeyInjective(t, req.artifactType);
      var context := ResolveContext(GetContent(created, project, req.artifactType), NormalizeAdditional(req.additionalContext));
      var content := generate(CreatePrompt(templates[0], context).value).value;
      Stores.UpdateKeepsOtherSlots(created, project.contentStore, Key(req.artifactType), content, project.contentStore, Key(t));
    }
  }
}
