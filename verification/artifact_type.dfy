/** The closed set of artifact kinds. Each kind's value is also its storage key. */
module ArtifactTypes {

  datatype ArtifactType = Questionnaire | Documentation

  /** The enumeration value: the key under which a project stores content of this kind. */
  function Key(t: ArtifactType): string {
    match t
    case Questionnaire => "Questionnaire"
    case Documentation => "Documentation"
  }

  /** Distinct kinds are stored under distinct keys, so each kind has a slot of its own. */
  lemma KeyInjective(a: ArtifactType, b: ArtifactType)
    ensures Key(a) == Key(b) <==> a == b
  {
  }
}
