/** The stored credentials and the rules that decide whether scheduling
    starts: the login modal's validation, the `autoLogin !== false` default,
    `setupAutoLogin` and the credential IPC handlers. */
module Credentials {
  import opened Wrappers
  import opened Text

  /** The single stored record. A flag may be missing from a record written
      by other code; `!== false` counts a missing flag as enabled. */
  datatype Credentials = Credentials(username: string, password: string, autoLogin: Option<bool>, saveInfo: Option<bool>)

  /** `credentials.autoLogin !== false`. */
  predicate AutoLoginEnabled(c: Credentials) {
    c.autoLogin != Some(false)
  }

  /** Why the modal refuses to save. */
  datatype FormError = UsernameRequired | PasswordRequired

  /** The modal's submit handler: both inputs are trimmed, an empty username
      is reported first, then an empty password; otherwise the trimmed values
      and the two checkbox states are what gets saved. */
  function ValidateLoginForm(usernameInput: string, passwordInput: string, autoLogin: bool, saveInfo: bool)
    : (r: Result<Credentials, FormError>)
    ensures r == Err(UsernameRequired) <==> AllWhitespace(usernameInput)
    ensures r == Err(PasswordRequired) <==> !AllWhitespace(usernameInput) && AllWhitespace(passwordInput)
    ensures r.Ok? ==> r.value.username != [] && r.value.password != []
    ensures r.Ok? ==> r.value.username == Trim(usernameInput) && r.value.password == Trim(passwordInput)
    ensures r.Ok? ==> r.value.autoLogin == Some(autoLogin) && r.value.saveInfo == Some(saveInfo)
  {
    var username := Trim(usernameInput);
    var password := Trim(passwordInput);
    TrimEmptyIff(usernameInput);
    TrimEmptyIff(passwordInput);
    if username == [] then Err(UsernameRequired)
    else if password == [] then Err(PasswordRequired)
    else Ok(Credentials(username, password, Some(autoLogin), Some(saveInfo)))
  }

  /** A saved record never has whitespace around its username or password,
      so trimming it again changes nothing. */
  lemma SavedValuesAreTrimmed(usernameInput: string, passwordInput: string, autoLogin: bool, saveInfo: bool, c: Credentials)
    requires ValidateLoginForm(usernameInput, passwordInput, autoLogin, saveInfo) == Ok(c)
    ensures Trim(c.username) == c.username && Trim(c.password) == c.password
    ensures !IsJsWhitespace(c.username[0]) && !IsJsWhitespace(c.username[|c.username| - 1])
    ensures !IsJsWhitespace(c.password[0]) && !IsJsWhitespace(c.password[|c.password| - 1])
  {
    TrimIdempotent(usernameInput);
    TrimIdempotent(passwordInput);
    TrimShape(usernameInput);
    TrimShape(passwordInput);
  }

  /** The checkbox states the modal shows: `!== false` of the stored flags, or
      the markup's default (both checked) when nothing is stored. */
  datatype Checkboxes = Checkboxes(autoLogin: bool, saveInfo: bool)

  function ModalCheckboxes(stored: Option<Credentials>): Checkboxes {
    match stored
    case None => Checkboxes(true, true)
    case Some(c) => Checkboxes(AutoLoginEnabled(c), c.saveInfo != Some(false))
  }

  /** Saving from the modal and reopening it shows the same checkbox states,
      and the scheduler gate follows the auto-login checkbox. */
  lemma ModalRoundTrip(usernameInput: string, passwordInput: string, autoLogin: bool, saveInfo: bool)
    requires ValidateLoginForm(usernameInput, passwordInput, autoLogin, saveInfo).Ok?
    ensures var c := ValidateLoginForm(usernameInput, passwordInput, autoLogin, saveInfo).value;
            ModalCheckboxes(Some(c)) == Checkboxes(autoLogin, saveInfo) && (AutoLoginEnabled(c) <==> autoLogin)
  {
  }

  /** What `setupAutoLogin` does with the stored record. */
  datatype SetupAction = OpenLoginModal | PrefillNow(credentials: Credentials, schedule: bool)

  function SetupDecision(saved: Option<Credentials>): (a: SetupAction)
    ensures a == OpenLoginModal <==> saved.None?
    ensures a.PrefillNow? ==> a.credentials == saved.value
    ensures a.PrefillNow? ==> (a.schedule <==> AutoLoginEnabled(saved.value))
    ensures saved.Some? && saved.value.autoLogin.None? ==> a.PrefillNow? && a.schedule
  {
    match saved
    case None => OpenLoginModal
    case Some(c) => PrefillNow(c, AutoLoginEnabled(c))
  }

  /** The record slot of the store and the number of scheduler chains started.
      Chains are never cancelled, so each start adds one. */
  class CredentialStore {
    var slot: Option<Credentials>
    var chains: nat

    constructor (initial: Option<Credentials>)
      ensures slot == initial && chains == 0
    {
      slot := initial;
      chains := 0;
    }

    /** The `save-credentials` handler: store the payload, then start a chain
        when a record is present and its auto-login flag is not `false`. */
    method SaveCredentials(payload: Option<Credentials>)
      modifies this
      ensures slot == payload
      ensures chains == old(chains) + (if payload.Some? && AutoLoginEnabled(payload.value) then 1 else 0)
    {
      slot := payload;
      if payload.Some? && AutoLoginEnabled(payload.value) {
        chains := chains + 1;
      }
    }

    /** The `get-credentials` handler. */
    method GetCredentials() returns (c: Option<Credentials>)
      ensures c == slot
    {
      c := slot;
    }

    /** The `clear-credentials` handler and the menu's delete action. */
    method ClearCredentials()
      modifies this`slot
      ensures slot == None
    {
      slot := None;
    }

    /** `setupAutoLogin`: no record opens the modal and starts nothing;
        otherwise prefill at once and start a chain when auto-login is enabled. */
    method SetupAutoLogin() returns (a: SetupAction)
      modifies this`chains
      ensures a == SetupDecision(slot)
      ensures chains == old(chains) + (if a.PrefillNow? && a.schedule then 1 else 0)
    {
      a := SetupDecision(slot);
      if a.PrefillNow? && a.schedule {
        chains := chains + 1;
      }
    }
  }
}
