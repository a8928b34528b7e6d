# GitHub sign-in resolver — Dafny model

This project models the custom GitHub sign-in resolver of the developer
portal's backend auth module (`signInResolver` in
`packages/backend/src/extensions/auth.ts`). When the OAuth provider has
authenticated a user, the resolver receives the provider's profile and raw
result, and:

1. picks a name hint (`login`, else `profile.username`, else
   `fullProfile.username`), an email (`profile.email`, else the `value` of the
   first entry of `fullProfile.emails`) and an id (`profile.id`, else
   `fullProfile.id`), each with JavaScript `||`;
2. rejects the login with `Login failed, no valid user identifier found` when
   all three are falsy;
3. derives a username: the name hint, else the email's part before the first
   `@`, else `github-user-<id>`, else `unknown-user`;
4. asks for a session token whose subject `sub` is the entity reference
   `user:default/<username>` and whose ownership list `ent` holds that same
   reference and nothing else.

Modules:

- `JsValues` (`js_values.dfy`): optional fields, JavaScript truthiness (absent,
  `""` and the number `0` are falsy), the `||` operator, ids that are text or
  integral numbers, and the plain decimal rendering a template literal gives an
  integral number of magnitude below 10^21.
- `Strings` (`strings.dfy`): `split` on one separator character, its inverse
  `join`, and the first field `s.split(sep)[0]`.
- `EntityRefs` (`entity_refs.dfy`): entity references `kind:namespace/name`,
  their formatting and a parser that inverts it.
- `SignIn` (`sign_in.dfy`): the profile and result records, the three fallback
  chains, the username derivation and the resolver `Resolve`, which returns the
  token request or the rejection.
- `SignInProperties` (`sign_in_properties.dfy`): properties relating several
  calls and concrete sign-ins.

Two assumptions stand in for the external catalog library: `stringifyEntityRef`
is modelled as lower-casing kind and namespace (ASCII letters) and copying the
name verbatim, and `DEFAULT_NAMESPACE` is `default`. `ctx.issueToken` is not
modelled; the resolver's result is the token request it would pass to it.

The resolver is a pure function of its two inputs, and the records are
immutable values, so equal inputs give equal token requests and the inputs
are never changed.

The `unknown-user` fallback is reachable past the rejection guard: an email
with an empty local part, such as `@example.com`, is truthy and passes the
guard, but its local part `""` is falsy, so with no
name hint and no id the username is `unknown-user`
(`SignInProperties.UnknownUserReachable`). Every such sign-in gets the same
subject (`SignInProperties.FallbackSubjectShared`).

## Model

| member | source | states |
|---|---|---|
| `JsValues.Or` | packages/backend/src/extensions/auth.ts:35-37 | JavaScript's or-operator is truthy exactly when one operand is, and yields the left operand when that one is truthy, else the right one |
| `JsValues.IdOr` | packages/backend/src/extensions/auth.ts:37 | JavaScript's or-operator on ids is truthy exactly when one operand is (a numeric `0` and `""` are falsy), and yields the left operand when that one is truthy, else the right one |
| `JsValues.IdString` | packages/backend/src/extensions/auth.ts:50 | the template literal `${id}` copies a text id unchanged and renders a numeric id in canonical decimal: a minus sign exactly when the number is negative, then decimal digits with no leading zero whose value, read back by `DigitsValue`, is the number's magnitude |
| `SignIn.FullUsername` | packages/backend/src/extensions/auth.ts:35 | the optional chain `result?.fullProfile?.username` is present only when the full profile exists and carries it, and whenever the full profile exists it is that profile's username |
| `SignIn.FullId` | packages/backend/src/extensions/auth.ts:37 | the optional chain `result?.fullProfile?.id` is present only when the full profile exists and carries it, and whenever the full profile exists it is that profile's id |
| `SignIn.FirstEmailValue` | packages/backend/src/extensions/auth.ts:36 | the optional chain `fullProfile?.emails?.[0]?.value` is present only when the full profile, its email list and a first entry with a value all exist, and whenever the full profile has a non-empty email list the result is exactly its first entry's value |
| `SignIn.NameHint` | packages/backend/src/extensions/auth.ts:35 | the name hint is truthy exactly when one of `login`, `profile.username`, `fullProfile.username` is, and it is the first truthy one in that order |
| `SignIn.Email` | packages/backend/src/extensions/auth.ts:36 | the email is truthy exactly when `profile.email` or the first raw email value is, with `profile.email` taking precedence |
| `SignIn.ProfileId` | packages/backend/src/extensions/auth.ts:37 | the id is truthy exactly when `profile.id` or `fullProfile.id` is, with `profile.id` taking precedence; a numeric `0` is falsy |
| `Strings.Split` | packages/backend/src/extensions/auth.ts:49 | `split` yields at least one field, no field contains the separator, and there is exactly one field when the separator does not occur |
| `Strings.JoinSplit` | packages/backend/src/extensions/auth.ts:49 | joining the fields of a split with the separator restores the string, so `split` loses nothing |
| `Strings.SplitJoin` | packages/backend/src/extensions/auth.ts:49 | splitting a join of separator-free fields gives those fields back |
| `Strings.FirstField` | packages/backend/src/extensions/auth.ts:49 | `s.split(sep)[0]` is the prefix of `s` before the first separator, or all of `s` when there is none |
| `Strings.FirstFieldAround` | packages/backend/src/extensions/auth.ts:49 | for a separator-free `a`, the first field of `a + sep + b` is `a` and the rest is `b`, whatever `b` holds |
| `SignIn.LocalPart` | packages/backend/src/extensions/auth.ts:49 | the email's local part has no `@`, is a prefix of the email, is the whole email when there is no `@`, and otherwise stops right at the first `@` |
| `SignIn.DeriveUsername` | packages/backend/src/extensions/auth.ts:48-50 | the or-chain agrees with the decision table `SourceOf`: hint, else non-empty local part, else `github-user-<id>`, else `unknown-user`; the username is never empty |
| `SignIn.Resolve` | packages/backend/src/extensions/auth.ts:35-71 | rejects, with the source's message, exactly when every identifying field of profile and raw result is falsy; otherwise `ent` is the one-element list `[sub]` and `sub` is `user:default/` followed by the derived username |
| `SignInProperties.RejectedExactlyWithoutIdentifier` | packages/backend/src/extensions/auth.ts:42-45 | the resolver rejects exactly when the name hint, the email and the id are all falsy |
| `SignInProperties.LoginWins` | packages/backend/src/extensions/auth.ts:35-50 | a truthy `login` is issued as the username and the subject's name, whatever the email and id are |
| `SignInProperties.NameHintDecides` | packages/backend/src/extensions/auth.ts:35-50 | two sign-ins with the same truthy name hint are issued the same token request |
| `SignInProperties.EmailLocalPartUsername` | packages/backend/src/extensions/auth.ts:48-49 | with no truthy name hint, an email `local@domain` with a non-empty `@`-free `local` is issued username `local`, whatever the domain and id |
| `SignInProperties.EmailWithoutAtUsedWhole` | packages/backend/src/extensions/auth.ts:48-49 | with no truthy name hint, an email without `@` becomes the username whole |
| `SignInProperties.IdUsername` | packages/backend/src/extensions/auth.ts:48-50 | with no truthy name hint and no usable local part, a truthy id gives username `github-user-` followed by the id's text |
| `JsValues.DigitsRoundTrip` | packages/backend/src/extensions/auth.ts:50 | reading back the decimal digits a number renders to gives the number |
| `JsValues.CanonicalDigitsUnique` | packages/backend/src/extensions/auth.ts:50 | a digit string with no leading zero whose value is `m` is exactly the decimal text of `m`, so `42` has no other rendering such as `042` |
| `JsValues.DecimalTextExactly` | packages/backend/src/extensions/auth.ts:50 | a text writes the integer `n` in canonical decimal (sign, then digits without leading zero and of value the magnitude) exactly when it is the rendering of `n` |
| `JsValues.DecimalStringInjective` | packages/backend/src/extensions/auth.ts:50 | distinct numeric ids render to distinct texts in `github-user-${id}` |
| `SignInProperties.FallbackExactly` | packages/backend/src/extensions/auth.ts:48-50 | the last link of the username chain is taken exactly when the hint is falsy, the email is falsy or has an empty local part, and the id is falsy |
| `SignInProperties.UnknownUserExactly` | packages/backend/src/extensions/auth.ts:48-50 | the username is `unknown-user` exactly when the last link is taken or an earlier link holds that very text; the id link never produces it |
| `SignInProperties.EmptyLocalPart` | packages/backend/src/extensions/auth.ts:49 | an email starting with `@` has an empty local part |
| `SignInProperties.EmptyLocalPartFallsBack` | packages/backend/src/extensions/auth.ts:42-50 | a truthy email with an empty local part passes the guard and, with no hint and no id, yields `unknown-user` |
| `SignInProperties.UnknownUserReachable` | packages/backend/src/extensions/auth.ts:42-70 | the sign-in with only the email `@<domain>` is issued subject and ownership `user:default/unknown-user` for every domain |
| `SignInProperties.FallbackSubjectShared` | packages/backend/src/extensions/auth.ts:48-70 | all sign-ins that reach the `unknown-user` link are issued the same token request |
| `EntityRefs.ParseStringify` | packages/backend/src/extensions/auth.ts:59-63 | parsing a formatted reference recovers the lower-cased kind and namespace and the exact name, when the kind has no `:` and the namespace no `/` |
| `EntityRefs.UserRef` | packages/backend/src/extensions/auth.ts:59-63 | the user reference for a name is `user:default/` followed by the name |
| `EntityRefs.UserRefParses` | packages/backend/src/extensions/auth.ts:59-63 | a user reference parses back to kind `user`, namespace `default` and the name |
| `EntityRefs.UserRefInjective` | packages/backend/src/extensions/auth.ts:59-63 | two user references are equal exactly when the names are |
| `SignInProperties.SubjectIdentifiesUsername` | packages/backend/src/extensions/auth.ts:59-70 | two issued requests carry the same subject exactly when they carry the same username |
| `SignInProperties.ScenarioLogin` | packages/backend/src/extensions/auth.ts:35-70 | `login: "alice"` is issued subject `user:default/alice` |
| `SignInProperties.ScenarioEmail` | packages/backend/src/extensions/auth.ts:36-70 | email `bob@example.com` alone is issued subject `user:default/bob` |
| `SignInProperties.ScenarioFirstRawEmail` | packages/backend/src/extensions/auth.ts:36-70 | with an empty profile email, the first raw email `carol@example.org` is issued subject `user:default/carol` |
| `SignInProperties.ScenarioNumericId` | packages/backend/src/extensions/auth.ts:37-70 | the raw numeric id `42` alone is issued subject `user:default/github-user-42` |
| `SignInProperties.ScenarioEmptyRejected` | packages/backend/src/extensions/auth.ts:42-45 | an empty profile and result are rejected with the source's message |
| `SignInProperties.ScenarioZeroIdRejected` | packages/backend/src/extensions/auth.ts:37-45 | an empty username and the numeric id `0` are falsy, so the sign-in is rejected |

## Left out

- Diagnostic logging (`console.log`, `console.error`): output only, no effect on the outcome.
- Module and provider registration (`createBackendModule`, `registerInit`, `registerProvider`, `createOAuthProviderFactory`, `githubAuthenticator`): framework wiring around external libraries.
- `ctx.issueToken`: an external call; the model returns the token request it would receive.
- `stringifyEntityRef` and `DEFAULT_NAMESPACE`: external; modelled by the stated assumption above, with `toLocaleLowerCase` reduced to ASCII lower-casing (only the constants `User` and `default` are ever lower-cased).
- The commented-out email-domain check: not live code.
- `packages/app/src/apis.ts`: a static list of dependency-injection factory bindings with no logic.
- Values of unexpected runtime type behind the `any` casts: `login`, `username` and `email` are modelled as strings, so a non-string email (which would make `split` throw) is not represented.
- Numeric ids that are not integers, and `NaN`: ids are text or integers; `-0` coincides with `0`.
- JsValues.IdString: renders every integer in plain decimal digits; JavaScript renders an integral number of magnitude 10^21 or more in exponent form (`1e+21`), and integers beyond 2^53 are not exactly representable as JavaScript numbers, so neither is modelled (GitHub ids are far below both bounds).
- A missing `result` object: it behaves like a result without `fullProfile`, which is how the model represents it.
