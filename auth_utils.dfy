/** Pure helpers of the authentication flow: OAuth username choice and login-error recognition. */
module AuthUtils {
  import opened Wrappers
  import opened JsString

  /** The parts of an OAuth identity the username is derived from; metadata entries may be absent. */
  datatype OAuthUser = OAuthUser(fullName: Option<string>, name: Option<string>, email: Option<string>)

  const DEFAULT_USERNAME: string := "User"
  const INVALID_CREDENTIALS: string := "Invalid login credentials"

  /**
   * A username by priority: a non-empty full name, else a non-empty name, else
   * the non-empty part of the email before its first "@", else "User". The
   * result is never empty, and when it comes from the email it is a prefix of
   * the email holding no "@".
   */
  function GenerateUsernameFromOAuthUser(u: OAuthUser): (r: string)
    ensures r != ""
    ensures Truthy(u.fullName) ==> r == u.fullName.value
    ensures !Truthy(u.fullName) && Truthy(u.name) ==> r == u.name.value
    ensures !Truthy(u.fullName) && !Truthy(u.name) ==>
      if Truthy(u.email) && BeforeFirst(u.email.value, '@') != "" then
        r <= u.email.value && '@' !in r && (|r| == |u.email.value| || u.email.value[|r|] == '@')
      else r == DEFAULT_USERNAME
  {
    if Truthy(u.fullName) then u.fullName.value
    else if Truthy(u.name) then u.name.value
    else if Truthy(u.email) && BeforeFirst(u.email.value, '@') != "" then BeforeFirst(u.email.value, '@')
    else DEFAULT_USERNAME
  }

  /** The email-derived username is determined by the email: it is the longest "@"-free prefix. */
  lemma {:induction false} EmailPrefixUnique(email: string, p: string)
    requires p <= email && '@' !in p && (|p| == |email| || email[|p|] == '@')
    ensures p == BeforeFirst(email, '@')
  {
    if p != [] {
      assert email != [] && email[0] == p[0];
      EmailPrefixUnique(email[1..], p[1..]);
    } else if email != [] {
      assert email[0] == '@';
    }
  }

  /** The error message reports bad credentials exactly when it contains "Invalid login credentials". */
  function IsInvalidCredentialsError(errorMessage: string): (b: bool)
    ensures b <==> exists i :: OccursAt(errorMessage, INVALID_CREDENTIALS, i)
  {
    Includes(errorMessage, INVALID_CREDENTIALS)
  }
}
