/**
 * The settings patch the admin page posts (pages/admin.js, `handleSaveSettings`). Stored secrets are
 * shown in the form as a fixed mask; the patch must never carry the mask back as a new secret.
 */
module Admin {
  import opened Values

  /** What the password and API-key fields show when a secret is stored. */
  const Mask := "******"

  /** The submitted form values; `None` is a field the submitted form does not have (`formData.get` gives `null`). */
  datatype FormData = FormData(server: Option<string>, user: Option<string>, password: Option<string>,
                               protocol: Option<string>, apiKey: Option<string>)

  /** A secret field is sent only when it holds something other than the mask. */
  predicate SendsSecret(o: Option<string>) {
    TruthyStr(o) && o.value != Mask
  }

  /**
   * `handleSaveSettings(section, data)`: the object posted to the settings endpoint. The mask is never
   * stored under a secret key.
   */
  function SettingsPatch(section: string, data: FormData): (patch: map<string, Option<string>>)
    ensures "email_password" in patch ==> patch["email_password"] != Some(Mask) && patch["email_password"] != Some("")
    ensures "openai_api_key" in patch ==> patch["openai_api_key"] != Some(Mask) && patch["openai_api_key"] != Some("")
  {
    if section == "email" then
      var base := map["email_server" := data.server, "email_user" := data.user];
      var withPassword := if SendsSecret(data.password) then base["email_password" := data.password] else base;
      withPassword["email_protocol" := data.protocol]
    else if section == "openai" then
      if SendsSecret(data.apiKey) then map["openai_api_key" := data.apiKey] else map[]
    else
      map[]
  }

  /** The email patch always carries server, user and protocol as submitted, and the password only when it is new. */
  lemma EmailPatchShape(data: FormData)
    ensures var patch := SettingsPatch("email", data);
      patch.Keys == {"email_server", "email_user", "email_protocol"} + (if SendsSecret(data.password) then {"email_password"} else {})
      && patch["email_server"] == data.server && patch["email_user"] == data.user
      && patch["email_protocol"] == data.protocol
      && ("email_password" in patch ==> patch["email_password"] == data.password)
  {
  }

  /** The OpenAI patch holds at most the API key, and holds it exactly when a new key was typed. */
  lemma OpenAIPatchShape(data: FormData)
    ensures var patch := SettingsPatch("openai", data);
      patch.Keys <= {"openai_api_key"}
      && ("openai_api_key" in patch <==> SendsSecret(data.apiKey))
      && ("openai_api_key" in patch ==> patch["openai_api_key"] == data.apiKey)
  {
  }

  /** Any other section posts an empty patch. */
  lemma OtherSectionIsEmpty(section: string, data: FormData)
    requires section != "email" && section != "openai"
    ensures SettingsPatch(section, data) == map[]
  {
  }

  /** The stored value of `key` in the settings object, `undefined` when absent. */
  function Stored(settings: map<string, string>, key: string): (r: Option<string>)
    ensures r.Some? <==> key in settings
  {
    if key in settings then Some(settings[key]) else None
  }

  /** `stored || fallback`. */
  function StoredOr(settings: map<string, string>, key: string, fallback: string): string {
    if TruthyStr(Stored(settings, key)) then settings[key] else fallback
  }

  /** The values the email form starts with: the stored settings, the password shown as the mask when one is stored. */
  function EmailDefaults(settings: map<string, string>): (data: FormData)
    ensures data.password == Some(Mask) || data.password == Some("")
  {
    FormData(Some(StoredOr(settings, "email_server", "")), Some(StoredOr(settings, "email_user", "")),
             Some(if TruthyStr(Stored(settings, "email_password")) then Mask else ""),
             Some(StoredOr(settings, "email_protocol", "imap")), None)
  }

  /** The value the OpenAI form starts with: the mask when a key is stored, else empty. */
  function OpenAIDefaults(settings: map<string, string>): (data: FormData)
    ensures data.apiKey == Some(Mask) || data.apiKey == Some("")
  {
    FormData(None, None, None, None, Some(if TruthyStr(Stored(settings, "openai_api_key")) then Mask else ""))
  }

  /**
   * Saving either form untouched leaves the stored secrets alone: the patch has no password and no
   * API key, and the email patch writes back the stored server, user and protocol.
   */
  lemma UntouchedFormsKeepSecrets(settings: map<string, string>)
    ensures "email_password" !in SettingsPatch("email", EmailDefaults(settings))
    ensures SettingsPatch("openai", OpenAIDefaults(settings)) == map[]
    ensures TruthyStr(Stored(settings, "email_server")) ==>
              SettingsPatch("email", EmailDefaults(settings))["email_server"] == Stored(settings, "email_server")
  {
    EmailPatchShape(EmailDefaults(settings));
    OpenAIPatchShape(OpenAIDefaults(settings));
  }
}
