/**
 * `ProjectInitializationService.initialize_project`: validates the user's
 * response, creates the project and stores its questionnaire when one was given.
 */
module ProjectService {
  import opened Wrappers
  import opened Json
  import opened ArtifactTypes
  import Stores
  import opened ProjectEntity

  /** `ValueError("Project name is required")`, or the `TypeError` a non-text name raises when the store path is built. */
  datatype InitError = NameRequired | NameNotText(name: Json)

  /**
   * `initialize_project()` on `user_response`; `id` stands for the project's fresh UUID.
   * Validation happens before any project or store exists, so a failure leaves the file system as it was.
   */
  function InitializeProject(fs: Stores.Fs, userResponse: Document, id: string): (r: Result<(Project, Stores.Fs), InitError>)
    ensures !Truthy(Get(userResponse, "project_name")) <==> r == Failure(NameRequired)
    ensures r.Success? <==> Get(userResponse, "project_name").JString? && Truthy(Get(userResponse, "project_name"))
    ensures r.Success? ==> JString(r.value.0.name) == userResponse["project_name"]
    ensures r.Success? ==> r.value.0.id == id && r.value.0.contentStore.directory in r.value.1
    ensures r.Success? ==> r.value.0.contentStore.directory == Stores.ContentNamespace(r.value.0.name)
    ensures r.Success? && Truthy(Get(userResponse, "questionnaire")) ==>
      GetContent(r.value.1, r.value.0, Questionnaire) == Some([userResponse["questionnaire"]])
    ensures r.Success? && !Truthy(Get(userResponse, "questionnaire")) ==>
      r.value.1 == Stores.CreateContentStore(fs, r.value.0.name).1
  {
    var name := Get(userResponse, "project_name");
    var questionnaire := Get(userResponse, "questionnaire");
    if !Truthy(name) then Failure(NameRequired)
    else if !name.JString? then Failure(NameNotText(name))
    else
      var (project, fs1) := NewProject(fs, id, name.s, "");
      if Truthy(questionnaire) then Success((project, InitializeWithQuestionnaire(fs1, project, questionnaire)))
      else Success((project, fs1))
  }

  /** Without a questionnaire the new project has no questionnaire slot, unless its namespace already held one. */
  lemma NoQuestionnaireNoWrite(fs: Stores.Fs, userResponse: Document, id: string)
    requires InitializeProject(fs, userResponse, id).Success?
    requires !Truthy(Get(userResponse, "questionnaire"))
    ensures var (p, fs') := InitializeProject(fs, userResponse, id).value;
      p.contentStore.directory !in fs ==> GetContent(fs', p, Questionnaire) == None
  {
  }
}
