/**
 * The Artifact entity and prompt assembly: an artifact has a type and a
 * content store, and `create_prompt` pairs one template (without its
 * `objects` field) with each context record.
 */
module ArtifactEntity {
  import opened Wrappers
  import opened Json
  import opened ArtifactTypes
  import Stores

  datatype Artifact = Artifact(id: string, projectId: string, artifactType: ArtifactType, contentStore: Stores.Store)

  /** One template with one context record, ready to send to the generation service. */
  datatype Prompt = Prompt(template: Document, context: Json)

  /** The `KeyError` raised when the template has no `objects` field to delete. */
  datatype PromptError = MissingObjects

  /** Pairs `fields` with each context record, in order. */
  function PairAll(fields: Document, contexts: seq<Json>): (r: seq<Prompt>)
    ensures |r| == |contexts|
    ensures forall i :: 0 <= i < |r| ==> r[i].template == fields && r[i].context == contexts[i]
  {
    if |contexts| == 0 then []
    else [Prompt(fields, contexts[0])] + PairAll(fields, contexts[1..])
  }

  /**
   * `create_prompt(template, contexts)`: a copy of the template's fields with `objects`
   * deleted, paired with each context record; `KeyError` when there is no `objects`.
   */
  function CreatePrompt(template: Document, contexts: seq<Json>): (r: Result<seq<Prompt>, PromptError>)
    ensures r.Failure? <==> "objects" !in template
    ensures r.Success? ==> |r.value| == |contexts|
    ensures r.Success? ==> forall i :: 0 <= i < |contexts| ==>
      && r.value[i].context == contexts[i]
      && r.value[i].template.Keys == template.Keys - {"objects"}
      && (forall k :: k in r.value[i].template ==> r.value[i].template[k] == template[k])
  {
    if "objects" !in template then Failure(MissingObjects)
    else Success(PairAll(template - {"objects"}, contexts))
  }

  /** No context records give no prompts, and that is not an error. */
  lemma NoContextsNoPrompts(template: Document)
    requires "objects" in template
    ensures CreatePrompt(template, []) == Success([])
  {
  }

  /** Every prompt carries the same template, so the prompts differ only in their context. */
  lemma PromptsShareTemplate(template: Document, contexts: seq<Json>, i: nat, j: nat)
    requires "objects" in template
    requires i < |contexts| && j < |contexts|
    ensures var ps := CreatePrompt(template, contexts).value;
      ps[i].template == ps[j].template && (ps[i] == ps[j] <==> contexts[i] == contexts[j])
  {
  }

  /** `update_content(content)`: replaces the slot for the artifact's own type. */
  function UpdateContent(fs: Stores.Fs, a: Artifact, content: seq<Json>): (r: Stores.Fs)
    requires a.contentStore.directory in fs
    ensures r.Keys == fs.Keys
    ensures Stores.GetContent(r, a.contentStore, Key(a.artifactType)) == Some(content)
    ensures forall t :: t != a.artifactType ==>
      Stores.GetContent(r, a.contentStore, Key(t)) == Stores.GetContent(fs, a.contentStore, Key(t))
  {
    var r := Stores.Update(fs, a.contentStore, Key(a.artifactType), content);
    forall t | t != a.artifactType
      ensures Stores.GetContent(r, a.contentStore, Key(t)) == Stores.GetContent(fs, a.contentStore, Key(t))
    {
      KeyInjective(t, a.artifactType);
      Stores.UpdateKeepsOtherSlots(fs, a.contentStore, Key(a.artifactType), content, a.contentStore, Key(t));
    }
    r
  }
}
