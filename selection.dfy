/**
 * What the two generators share when they read their optional arguments and
 * decide whether to use the remote model's answer.
 */
module Selection {
  import opened Wrappers
  import opened Text

  /** The `source` tag of a generated text. */
  const TemplateSource := "template"
  const RemoteSource := "huggingface_api"

  /** Python truthiness of an optional string: present and not empty. */
  predicate Given(s: Option<string>) { s.Some? && s.value != "" }

  /**
   * `if answer and len(answer.strip()) >= minLength`: the remote answer is used only when
   * the call returned one (`None` stands for an exception) and its stripped length is enough.
   */
  predicate AcceptRemote(remote: Option<string>, minLength: nat) {
    Given(remote) && |Strip(remote.value)| >= minLength
  }
}
