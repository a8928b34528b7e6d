/**
 The custom GitHub sign-in resolver of the backend auth module: from the
 provider's profile and raw result it picks a name hint, an email and an id
 through ordered fallback chains, rejects the login when none of the three is
 truthy, derives a username, and asks for a session token whose subject and
 sole ownership reference are the user's entity reference.
 */
module SignIn {
  import opened JsValues
  import Strings
  import EntityRefs

  /** The provider-independent profile handed to the resolver. */
  datatype Profile = Profile(
    login: Option<string>,
    username: Option<string>,
    email: Option<string>,
    id: Option<Id>)

  /** One entry of the GitHub profile's `emails` list. */
  datatype EmailEntry = EmailEntry(value: Option<string>)

  /** The raw GitHub profile nested in the OAuth result. */
  datatype FullProfile = FullProfile(
    username: Option<string>,
    id: Option<Id>,
    emails: Option<seq<EmailEntry>>)

  /** The OAuth result envelope; a missing result behaves like one without a full profile. */
  datatype AuthResult = AuthResult(fullProfile: Option<FullProfile>)

  /** The claims of the token request: the subject and the ownership references. */
  datatype Claims = Claims(sub: string, ent: seq<string>)

  datatype TokenRequest = TokenRequest(claims: Claims)

  datatype SignInError = LoginFailed(message: string)

  const NoIdentifierMessage: string := "Login failed, no valid user identifier found"
  const IdUsernamePrefix: string := "github-user-"
  const UnknownUsername: string := "unknown-user"

  datatype Outcome = Issued(request: TokenRequest) | Rejected(error: SignInError)

  // ---------------------------------------------------------------------------
  // Field access through optional chaining (`result?.fullProfile?....`).

  /** `result?.fullProfile?.username`. */
  function FullUsername(result: AuthResult): (u: Option<string>)
    ensures u.Present? ==> result.fullProfile.Present? && result.fullProfile.value.username == u
    ensures result.fullProfile.Present? ==> u == result.fullProfile.value.username
  {
    if result.fullProfile.Present? then result.fullProfile.value.username else Absent
  }

  /** `result?.fullProfile?.id`. */
  function FullId(result: AuthResult): (i: Option<Id>)
    ensures i.Present? ==> result.fullProfile.Present? && result.fullProfile.value.id == i
    ensures result.fullProfile.Present? ==> i == result.fullProfile.value.id
  {
    if result.fullProfile.Present? then result.fullProfile.value.id else Absent
  }

  /** `fullProfile?.emails?.[0]?.value`: absent when any link of the chain is missing. */
  function FirstEmailValue(result: AuthResult): (v: Option<string>)
    ensures v.Present? ==> && result.fullProfile.Present?
                           && result.fullProfile.value.emails.Present?
                           && |result.fullProfile.value.emails.value| > 0
                           && result.fullProfile.value.emails.value[0].value == v
    ensures && result.fullProfile.Present?
            && result.fullProfile.value.emails.Present?
            && |result.fullProfile.value.emails.value| > 0
            ==> v == result.fullProfile.value.emails.value[0].value
  {
    match result.fullProfile
    case Absent => Absent
    case Present(fp) =>
      match fp.emails
      case Absent => Absent
      case Present(es) => if |es| == 0 then Absent else es[0].value
  }

  // ---------------------------------------------------------------------------
  // The three fallback chains.

  /** `login || username || fullProfile.username`. */
  function NameHint(profile: Profile, result: AuthResult): (h: Option<string>)
    ensures Truthy(h) <==> Truthy(profile.login) || Truthy(profile.username) || Truthy(FullUsername(result))
    ensures Truthy(profile.login) ==> h == profile.login
    ensures !Truthy(profile.login) && Truthy(profile.username) ==> h == profile.username
    ensures Truthy(h) && !Truthy(profile.login) && !Truthy(profile.username) ==> h == FullUsername(result)
  {
    Or(Or(profile.login, profile.username), FullUsername(result))
  }

  /** `profile.email || fullProfile.emails[0].value`. */
  function Email(profile: Profile, result: AuthResult): (e: Option<string>)
    ensures Truthy(e) <==> Truthy(profile.email) || Truthy(FirstEmailValue(result))
    ensures Truthy(profile.email) ==> e == profile.email
    ensures Truthy(e) && !Truthy(profile.email) ==> e == FirstEmailValue(result)
  {
    Or(profile.email, FirstEmailValue(result))
  }

  /** `profile.id || fullProfile.id`. */
  function ProfileId(profile: Profile, result: AuthResult): (i: Option<Id>)
    ensures IdTruthy(i) <==> IdTruthy(profile.id) || IdTruthy(FullId(result))
    ensures IdTruthy(profile.id) ==> i == profile.id
    ensures IdTruthy(i) && !IdTruthy(profile.id) ==> i == FullId(result)
  {
    IdOr(profile.id, FullId(result))
  }

  /** The email's local part, `email.split('@')[0]`. */
  function LocalPart(email: string): (l: string)
    ensures '@' !in l
    ensures l <= email
    ensures '@' !in email ==> l == email
    ensures '@' in email ==> email[|l|] == '@'
  {
    Strings.FirstField(email, '@')
  }

  // ---------------------------------------------------------------------------
  // Username derivation.

  /** Which link of the username chain supplies the username: the reference decision table. */
  datatype UsernameSource = FromNameHint | FromEmail | FromId | Fallback

  function SourceOf(hint: Option<string>, email: Option<string>, id: Option<Id>): UsernameSource {
    if Truthy(hint) then FromNameHint
    else if Truthy(email) && LocalPart(email.value) != "" then FromEmail
    else if IdTruthy(id) then FromId
    else Fallback
  }

  /**
   `hint || (email ? email.split('@')[0] : null) || (id ? 'github-user-' + id : 'unknown-user')`,
   evaluated with JavaScript's `||`. The last operand is always a non-empty
   string, so the chain always yields one.
   */
  function DeriveUsername(hint: Option<string>, email: Option<string>, id: Option<Id>): (u: string)
    ensures u != ""
    ensures SourceOf(hint, email, id) == FromNameHint ==> u == hint.value
    ensures SourceOf(hint, email, id) == FromEmail ==> u == LocalPart(email.value) && '@' !in u && u <= email.value
    ensures SourceOf(hint, email, id) == FromId ==> u == IdUsernamePrefix + IdString(id.value)
    ensures SourceOf(hint, email, id) == Fallback ==> u == UnknownUsername
  {
    var fromEmail := if Truthy(email) then Present(LocalPart(email.value)) else Absent;
    var fromId := if IdTruthy(id) then Present(IdUsernamePrefix + IdString(id.value)) else Present(UnknownUsername);
    Or(Or(hint, fromEmail), fromId).value
  }

  // ---------------------------------------------------------------------------
  // The resolver.

  /** No identifying field is truthy anywhere in the profile or the raw result. */
  predicate NoIdentifier(profile: Profile, result: AuthResult) {
    && !Truthy(profile.login) && !Truthy(profile.username) && !Truthy(FullUsername(result))
    && !Truthy(profile.email) && !Truthy(FirstEmailValue(result))
    && !IdTruthy(profile.id) && !IdTruthy(FullId(result))
  }

  /** The username the resolver derives from these inputs. */
  function UsernameOf(profile: Profile, result: AuthResult): string {
    DeriveUsername(NameHint(profile, result), Email(profile, result), ProfileId(profile, result))
  }

  /**
   `signInResolver({ profile, result }, ctx)`: the token request it passes to
   `ctx.issueToken`, or the error it throws.
   */
  function Resolve(profile: Profile, result: AuthResult): (r: Outcome)
    ensures r.Rejected? <==> NoIdentifier(profile, result)
    ensures r.Rejected? ==> r.error.message == NoIdentifierMessage
    ensures r.Issued? ==> r.request.claims.ent == [r.request.claims.sub]
    ensures r.Issued? ==> r.request.claims.sub == "user:default/" + UsernameOf(profile, result)
  {
    var hint := NameHint(profile, result);
    var email := Email(profile, result);
    var id := ProfileId(profile, result);
    if !Truthy(hint) && !Truthy(email) && !IdTruthy(id) then
      Rejected(LoginFailed(NoIdentifierMessage))
    else
      var userEntity := EntityRefs.UserRef(DeriveUsername(hint, email, id));
      Issued(TokenRequest(Claims(userEntity, [userEntity])))
  }
}
