/**
 Properties of the sign-in resolver that relate several calls or pin down
 concrete sign-ins: precedence of the username chain, the email local part,
 the id fallback, the reachable `unknown-user` fallback, and that the subject
 identifies the username.
 */
module SignInProperties {
  import opened JsValues
  import Strings
  import EntityRefs
  import opened SignIn

  const NoProfile: Profile := Profile(Absent, Absent, Absent, Absent)
  const NoResult: AuthResult := AuthResult(Absent)

  /** A truthy `login` becomes the username and the subject, whatever the email and id are. */
  lemma LoginWins(profile: Profile, result: AuthResult)
    requires Truthy(profile.login)
    ensures Resolve(profile, result).Issued?
    ensures UsernameOf(profile, result) == profile.login.value
    ensures Resolve(profile, result).request.claims.sub == "user:default/" + profile.login.value
  {
  }

  /**
   Once the name hint is truthy, the outcome depends on nothing else: two
   sign-ins with the same truthy hint get the same token request.
   */
  lemma NameHintDecides(p1: Profile, r1: AuthResult, p2: Profile, r2: AuthResult)
    requires Truthy(NameHint(p1, r1)) && NameHint(p1, r1) == NameHint(p2, r2)
    ensures Resolve(p1, r1) == Resolve(p2, r2)
    ensures Resolve(p1, r1).Issued?
  {
  }

  /**
   With no truthy name hint, an email `local@domain` whose local part is
   non-empty and free of `@` yields the username `local`; the domain and the id
   play no part.
   */
  lemma EmailLocalPartUsername(profile: Profile, result: AuthResult, local: string, domain: string)
    requires !Truthy(NameHint(profile, result))
    requires Email(profile, result) == Present(local + "@" + domain)
    requires local != "" && '@' !in local
    ensures Resolve(profile, result).Issued?
    ensures UsernameOf(profile, result) == local
  {
    assert local + "@" + domain == local + ['@'] + domain;
    Strings.FirstFieldAround(local, '@', domain);
  }

  /** An email without `@` is used whole when there is no truthy name hint. */
  lemma EmailWithoutAtUsedWhole(profile: Profile, result: AuthResult)
    requires !Truthy(NameHint(profile, result))
    requires Truthy(Email(profile, result)) && '@' !in Email(profile, result).value
    ensures UsernameOf(profile, result) == Email(profile, result).value
  {
  }

  /**
   With no truthy name hint and no usable local part, a truthy id gives the
   username `github-user-<id>`.
   */
  lemma IdUsername(profile: Profile, result: AuthResult)
    requires !Truthy(NameHint(profile, result))
    requires !Truthy(Email(profile, result)) || LocalPart(Email(profile, result).value) == ""
    requires IdTruthy(ProfileId(profile, result))
    ensures UsernameOf(profile, result) == "github-user-" + IdString(ProfileId(profile, result).value)
  {
  }

  /**
   The username is the literal `unknown-user` exactly when the chain falls
   through to its last link, or an earlier link happens to hold that very text.
   */
  lemma UnknownUserExactly(hint: Option<string>, email: Option<string>, id: Option<Id>)
    ensures DeriveUsername(hint, email, id) == UnknownUsername
        <==> || SourceOf(hint, email, id) == Fallback
             || (SourceOf(hint, email, id) == FromNameHint && hint.value == UnknownUsername)
             || (SourceOf(hint, email, id) == FromEmail && LocalPart(email.value) == UnknownUsername)
  {
    if SourceOf(hint, email, id) == FromId {
      var u := DeriveUsername(hint, email, id);
      assert u[0] == 'g' && UnknownUsername[0] == 'u';
    }
  }

  /** The fallback link is taken exactly when all three earlier links fail. */
  lemma FallbackExactly(hint: Option<string>, email: Option<string>, id: Option<Id>)
    ensures SourceOf(hint, email, id) == Fallback
        <==> !Truthy(hint) && (!Truthy(email) || LocalPart(email.value) == "") && !IdTruthy(id)
  {
  }

  /** An email that starts with `@` has an empty local part, whatever follows. */
  lemma EmptyLocalPart(domain: string)
    ensures LocalPart("@" + domain) == ""
  {
    assert "@" + domain == [] + ['@'] + domain;
    Strings.FirstFieldAround([], '@', domain);
  }

  /**
   A truthy email with an empty local part passes the rejection guard; with no
   name hint and no id the username is `unknown-user`.
   */
  lemma EmptyLocalPartFallsBack(profile: Profile, result: AuthResult)
    requires !Truthy(NameHint(profile, result)) && !IdTruthy(ProfileId(profile, result))
    requires Truthy(Email(profile, result)) && LocalPart(Email(profile, result).value) == ""
    ensures Resolve(profile, result).Issued?
    ensures UsernameOf(profile, result) == UnknownUsername
  {
  }

  /**
   The `unknown-user` fallback is reachable past the rejection guard: an email
   such as `@example.com` passes the guard but yields no username, so with no
   name hint and no id the subject is the shared `unknown-user` reference.
   */
  lemma UnknownUserReachable(domain: string)
    ensures Resolve(Profile(Absent, Absent, Present("@" + domain), Absent), NoResult)
            == Issued(TokenRequest(Claims("user:default/" + "unknown-user", ["user:default/" + "unknown-user"])))
  {
    EmptyLocalPart(domain);
    var profile := Profile(Absent, Absent, Present("@" + domain), Absent);
    EmptyLocalPartFallsBack(profile, NoResult);
  }

  /**
   Every sign-in that reaches the fallback shares one subject, so users whose
   emails differ only after an empty local part are indistinguishable.
   */
  lemma FallbackSubjectShared(p1: Profile, r1: AuthResult, p2: Profile, r2: AuthResult)
    requires !NoIdentifier(p1, r1) && !NoIdentifier(p2, r2)
    requires SourceOf(NameHint(p1, r1), Email(p1, r1), ProfileId(p1, r1)) == Fallback
    requires SourceOf(NameHint(p2, r2), Email(p2, r2), ProfileId(p2, r2)) == Fallback
    ensures Resolve(p1, r1) == Resolve(p2, r2)
  {
  }

  /**
   Two sign-ins that pass the guard are issued the same subject exactly when
   they derive the same username.
   */
  lemma SubjectIdentifiesUsername(p1: Profile, r1: AuthResult, p2: Profile, r2: AuthResult)
    requires !NoIdentifier(p1, r1) && !NoIdentifier(p2, r2)
    ensures Resolve(p1, r1).request.claims.sub == Resolve(p2, r2).request.claims.sub
        <==> UsernameOf(p1, r1) == UsernameOf(p2, r2)
  {
    EntityRefs.UserRefInjective(UsernameOf(p1, r1), UsernameOf(p2, r2));
  }

  /** The resolver fails only with its single error and never when some field identifies the user. */
  lemma RejectedExactlyWithoutIdentifier(profile: Profile, result: AuthResult)
    ensures Resolve(profile, result).Rejected?
        <==> !Truthy(NameHint(profile, result)) && !Truthy(Email(profile, result)) && !IdTruthy(ProfileId(profile, result))
  {
  }

  // ---------------------------------------------------------------------------
  // Concrete sign-ins.

  lemma ScenarioLogin()
    ensures Resolve(Profile(Present("alice"), Absent, Absent, Absent), NoResult).request.claims.sub
            == "user:default/" + "alice"
  {
  }

  lemma ScenarioEmail()
    ensures Resolve(Profile(Absent, Absent, Present("bob@example.com"), Absent), NoResult).request.claims.sub
            == "user:default/" + "bob"
  {
    assert "bob@example.com" == "bob" + "@" + "example.com";
    EmailLocalPartUsername(Profile(Absent, Absent, Present("bob@example.com"), Absent), NoResult, "bob", "example.com");
  }

  lemma ScenarioNumericId()
    ensures Resolve(NoProfile, AuthResult(Present(FullProfile(Absent, Present(IdNumber(42)), Absent)))).request.claims.sub
            == "user:default/" + "github-user-" + "42"
  {
    IdUsername(NoProfile, AuthResult(Present(FullProfile(Absent, Present(IdNumber(42)), Absent))));
    FortyTwoRendersAsDigits();
  }

  lemma FortyTwoRendersAsDigits()
    ensures IdString(IdNumber(42)) == "42"
  {
    assert DigitChar(4) == '4' && DigitChar(2) == '2';
    assert Digits(42) == Digits(4) + [DigitChar(2)];
  }

  lemma ScenarioEmptyRejected()
    ensures Resolve(NoProfile, NoResult) == Rejected(LoginFailed("Login failed, no valid user identifier found"))
  {
  }

  /** A numeric id `0` is falsy, so it does not identify the user. */
  lemma ScenarioZeroIdRejected()
    ensures Resolve(Profile(Absent, Present(""), Absent, Present(IdNumber(0))), NoResult).Rejected?
  {
  }

  /** The first email of the raw profile stands in for a falsy profile email. */
  lemma ScenarioFirstRawEmail()
    ensures Resolve(Profile(Absent, Absent, Present(""), Absent),
                    AuthResult(Present(FullProfile(Absent, Absent,
                      Present([EmailEntry(Present("carol@example.org")), EmailEntry(Present("x@y"))])))))
            .request.claims.sub == "user:default/" + "carol"
  {
    var profile := Profile(Absent, Absent, Present(""), Absent);
    var result := AuthResult(Present(FullProfile(Absent, Absent,
                    Present([EmailEntry(Present("carol@example.org")), EmailEntry(Present("x@y"))]))));
    assert "carol@example.org" == "carol" + "@" + "example.org";
    EmailLocalPartUsername(profile, result, "carol", "example.org");
  }
}
