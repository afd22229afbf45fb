# Keycloak authentication for SonarQube: identity mapping and settings

This project is a Dafny model of the decision logic in the SonarQube Keycloak
authentication plugin. It covers two parts.

- **The settings view** (`KeycloakSettings.dfy`, module `KeycloakSettings`):
  - the keys the plugin reads;
  - how `isEnabled`, `keycloakJson`, `loginStrategy`, `allowUsersToSignUp` and `syncGroups` interpret a snapshot of the settings store;
  - the five property definitions that `definitions()` registers, with their category, sub-category, type, default, options and running index.
- **The identity mapping** (`UserIdentityFactory.dfy`, module `UserIdentityFactory`). It turns a decoded ID token into the fields given to SonarQube's user-identity builder:
  - resolve the login (`preferred_username`, else the `username` claim, else null);
  - apply the login strategy (`Same as Keycloak login` verbatim, `Unique` as `<login>@keycloak`, anything else `IllegalStateException`);
  - derive the display name;
  - when group sync is on, read the groups from the `groups` or `roles` claim.

Two supporting modules hold the Java behaviour the mapping relies on.

- `Wrappers.dfy`: `Option` stands for a reference that may be null, and `Result` for a computation that may throw.
- `JavaLang.dfy`:
  - `String.trim`;
  - `String.split("\\s*,\\s*")`, written as the match-by-match scan that `java.util.regex.Pattern.split` performs, including its rule that trailing empty pieces are dropped;
  - `String.format("%s", …)` of a possibly-null argument;
  - `Boolean.parseBoolean`.

The settings store is a parameter: a `map<string, string>` of the values the host answers per key. A key with no value is absent. `getBoolean` of an absent key is false. The mapper takes this snapshot as an argument instead of reading ambient state. The provider key `keycloak` comes from `KeycloakIdentityProvider.KEY` (src/main/java/org/github/flytreeleft/sonar/auth/keycloak/KeycloakIdentityProvider.java:42).

Edge cases kept as the code has them:
- An unresolvable login is null, not a "missing login" error. Under `Unique` it then becomes `"null@keycloak"`, the same login a user literally named `null` gets (`UniqueLoginOfNull`).
- The name built from given name + " " + family name is not trimmed. Trimming only decides whether it is blank.
- The split strips only blanks next to commas. `""` splits to `[""]`, `","` splits to `[]`, and inner empty pieces stay.
- When group sync is on and the strategy is supported, a token with neither `groups` nor `roles` makes `getGroups` dereference null (the logging call on line 77), so `create` fails with a `NullPointerException`, not with an empty set of groups.
- The strategy is a raw string, not a closed enumeration: every string other than the two offered ones takes the failure branch, and an unset strategy reads as `""`, which is not supported.
- `create` evaluates the login strategy before the groups. An unsupported strategy is reported even when the groups would fail too.

## Model

| member | source | states |
|---|---|---|
| JavaLang.Trim | src/main/java/org/github/flytreeleft/sonar/auth/keycloak/UserIdentityFactory.java:110 | what trim keeps is no longer than the input, and a string that starts and ends with a character above U+0020 (or is empty) comes back unchanged |
| JavaLang.TrimIdempotent | src/main/java/org/github/flytreeleft/sonar/auth/keycloak/UserIdentityFactory.java:110 | trimming a trimmed string changes nothing |
| JavaLang.TrimEmptyIff | src/main/java/org/github/flytreeleft/sonar/auth/keycloak/UserIdentityFactory.java:110 | `trim().isEmpty()` holds exactly when every character is at most U+0020; otherwise what trim keeps starts and ends with a character above U+0020 |
| JavaLang.FormatArg | src/main/java/org/github/flytreeleft/sonar/auth/keycloak/UserIdentityFactory.java:117 | `%s` prints a string as itself and null as "null" |
| JavaLang.ParseBoolean | src/main/java/org/github/flytreeleft/sonar/auth/keycloak/KeycloakSettings.java:70-76 | `getBoolean`'s reading of a stored string: true exactly for four characters that lower-case to "true" |
| JavaLang.ParseBooleanExamples | src/main/java/org/github/flytreeleft/sonar/auth/keycloak/KeycloakSettings.java:70-76 | "true", "TRUE", "True" and "tRuE" read as true; "false", "yes", "1", " true", "" and "truee" read as false |
| JavaLang.PiecesFrom | src/main/java/org/github/flytreeleft/sonar/auth/keycloak/UserIdentityFactory.java:80 | the scan behind the split yields at least one piece, and exactly one when no comma is left |
| JavaLang.PiecesCountCommas | src/main/java/org/github/flytreeleft/sonar/auth/keycloak/UserIdentityFactory.java:80 | the scan yields one piece more than the text has commas: every comma is consumed by exactly one match |
| JavaLang.DropTrailingEmpty | src/main/java/org/github/flytreeleft/sonar/auth/keycloak/UserIdentityFactory.java:80 | the result is a prefix of the pieces, does not end with an empty piece, and every piece dropped is empty |
| JavaLang.SplitOnCommas | src/main/java/org/github/flytreeleft/sonar/auth/keycloak/UserIdentityFactory.java:80 | without a comma the result is the input itself; otherwise it is the pieces between matches up to the last non-empty one, and only empty pieces are dropped |
| JavaLang.PiecesCommaFree | src/main/java/org/github/flytreeleft/sonar/auth/keycloak/UserIdentityFactory.java:80 | no piece between matches contains a comma |
| JavaLang.PiecesNoLeadingBlank | src/main/java/org/github/flytreeleft/sonar/auth/keycloak/UserIdentityFactory.java:80 | every piece after a comma is empty or starts with a non-blank: `\s*` after the comma takes all blanks |
| JavaLang.PiecesNoTrailingBlank | src/main/java/org/github/flytreeleft/sonar/auth/keycloak/UserIdentityFactory.java:80 | every piece before a comma is empty or ends with a non-blank: `\s*` before the comma takes all blanks |
| JavaLang.SplitOnCommasCommaFree | src/main/java/org/github/flytreeleft/sonar/auth/keycloak/UserIdentityFactory.java:80 | no element of the split contains a comma |
| JavaLang.SplitJoinRoundTrip | src/main/java/org/github/flytreeleft/sonar/auth/keycloak/UserIdentityFactory.java:80 | non-empty, comma-free names without blanks at their ends, joined with each comma carrying its own run of blanks on either side, split back to exactly that list |
| JavaLang.MatchedSeparators | src/main/java/org/github/flytreeleft/sonar/auth/keycloak/UserIdentityFactory.java:80 | the scan consumes no separator exactly when no comma is left |
| JavaLang.MatchedSeparatorsLength | src/main/java/org/github/flytreeleft/sonar/auth/keycloak/UserIdentityFactory.java:80 | a scan yields one more piece than it finds separators |
| JavaLang.MatchedSeparatorsBlank | src/main/java/org/github/flytreeleft/sonar/auth/keycloak/UserIdentityFactory.java:80 | every separator a match consumes is blanks, a comma, and blanks |
| JavaLang.PiecesRejoin | src/main/java/org/github/flytreeleft/sonar/auth/keycloak/UserIdentityFactory.java:80 | the pieces of a scan, rejoined with the separators its matches consumed, give back the scanned text |
| JavaLang.SplitRejoin | src/main/java/org/github/flytreeleft/sonar/auth/keycloak/UserIdentityFactory.java:80 | the split removes only what the matches consume and trailing empty pieces: the result is a prefix of the pieces, the rest are empty, and pieces with the matched blank-comma-blank separators rejoin to the input |
| JavaLang.SplitKeepsOuterBlanks | src/main/java/org/github/flytreeleft/sonar/auth/keycloak/UserIdentityFactory.java:80 | " a , b " splits to [" a", "b "]: blanks at the ends of the input, away from a comma, are kept |
| JavaLang.SplitExample | src/main/java/org/github/flytreeleft/sonar/auth/keycloak/UserIdentityFactory.java:80 | "a, b,c" splits to ["a", "b", "c"] |
| JavaLang.SplitOfEmpty | src/main/java/org/github/flytreeleft/sonar/auth/keycloak/UserIdentityFactory.java:80 | "" splits to [""], one empty piece |
| JavaLang.SplitOfLoneComma | src/main/java/org/github/flytreeleft/sonar/auth/keycloak/UserIdentityFactory.java:80 | "," splits to no piece at all |
| JavaLang.SplitKeepsInnerEmpty | src/main/java/org/github/flytreeleft/sonar/auth/keycloak/UserIdentityFactory.java:80 | "a,,b" splits to ["a", "", "b"]: an inner empty piece is kept |
| KeycloakSettings.GetString | src/main/java/org/github/flytreeleft/sonar/auth/keycloak/KeycloakSettings.java:63-67 | `settings.getString`: null exactly when the key is unset, the stored string otherwise |
| KeycloakSettings.GetBoolean | src/main/java/org/github/flytreeleft/sonar/auth/keycloak/KeycloakSettings.java:59-75 | `settings.getBoolean`: false when the key is unset, `parseBoolean` of the stored string otherwise |
| KeycloakSettings.KeycloakJson | src/main/java/org/github/flytreeleft/sonar/auth/keycloak/KeycloakSettings.java:62-64 | the stored JSON, or null exactly when the key is unset |
| KeycloakSettings.IsEnabled | src/main/java/org/github/flytreeleft/sonar/auth/keycloak/KeycloakSettings.java:58-60 | false whenever the flag is off; true exactly when the flag is on and the JSON is set and non-empty; a failure (null dereference) exactly when the flag is on and the JSON is unset |
| KeycloakSettings.IsEnabledIgnoresJsonWhenOff | src/main/java/org/github/flytreeleft/sonar/auth/keycloak/KeycloakSettings.java:59 | with the flag off, setting, changing or removing the JSON does not change the answer (short-circuit) |
| KeycloakSettings.EmptyIfNull | src/main/java/org/github/flytreeleft/sonar/auth/keycloak/KeycloakSettings.java:78-80 | a string is kept as it is; the result is "" exactly for null or "" |
| KeycloakSettings.LoginStrategy | src/main/java/org/github/flytreeleft/sonar/auth/keycloak/KeycloakSettings.java:66-68 | "" when the key is unset, the stored string verbatim otherwise |
| KeycloakSettings.AllowUsersToSignUp | src/main/java/org/github/flytreeleft/sonar/auth/keycloak/KeycloakSettings.java:70-72 | true exactly when its key is set to a string `parseBoolean` accepts |
| KeycloakSettings.SyncGroups | src/main/java/org/github/flytreeleft/sonar/auth/keycloak/KeycloakSettings.java:74-76 | true exactly when its key is set to a string `parseBoolean` accepts |
| KeycloakSettings.AccessorsReadOwnKey | src/main/java/org/github/flytreeleft/sonar/auth/keycloak/KeycloakSettings.java:62-76 | two stores that agree on an accessor's key give the same answer, whatever else they hold |
| KeycloakSettings.Numbered | src/main/java/org/github/flytreeleft/sonar/auth/keycloak/KeycloakSettings.java:83-136 | the running `index++` counter: the k-th property keeps its content and gets index first + k |
| KeycloakSettings.Definitions | src/main/java/org/github/flytreeleft/sonar/auth/keycloak/KeycloakSettings.java:82-137 | exactly five definitions, in the order enabled, config, sign-up, login strategy, group sync, indexed 1 to 5, all in category keycloak and sub-category authentication; enabled boolean "false", config text with no default, sign-up boolean "true", strategy single-select "Same as Keycloak login" with options exactly ["Unique", "Same as Keycloak login"], group sync boolean "false"; no other property has options |
| KeycloakSettings.DefinitionKeysDistinct | src/main/java/org/github/flytreeleft/sonar/auth/keycloak/KeycloakSettings.java:41-46 | the five definition keys are pairwise distinct |
| KeycloakSettings.DefaultsOf | src/main/java/org/github/flytreeleft/sonar/auth/keycloak/KeycloakSettings.java:84-136 | the store of defaults has at most one entry per definition, and none when no definition has a default |
| KeycloakSettings.DefaultsOfOtherKey | src/main/java/org/github/flytreeleft/sonar/auth/keycloak/KeycloakSettings.java:82-136 | a key no definition declares has no default |
| KeycloakSettings.DefaultsOfLookup | src/main/java/org/github/flytreeleft/sonar/auth/keycloak/KeycloakSettings.java:82-136 | in the store of defaults, each definition's key holds its default, or is unset when it has none |
| KeycloakSettings.DefaultSettingsRead | src/main/java/org/github/flytreeleft/sonar/auth/keycloak/KeycloakSettings.java:58-76 | read back through the accessors, the defaults mean: not enabled, sign-up allowed, no group sync, the provider-login strategy, no JSON |
| UserIdentityFactory.ClaimToString | src/main/java/org/github/flytreeleft/sonar/auth/keycloak/UserIdentityFactory.java:67 | `toString()` of a claim: a string is itself, a list prints its elements joined by ", " inside brackets, another value its own text |
| UserIdentityFactory.ListClaimPrinted | src/main/java/org/github/flytreeleft/sonar/auth/keycloak/UserIdentityFactory.java:67 | the list ["alice", "bob"] prints as "[alice, bob]" and the empty list as "[]" |
| UserIdentityFactory.GetLogin | src/main/java/org/github/flytreeleft/sonar/auth/keycloak/UserIdentityFactory.java:62-70 | preferred_username when set and non-empty; else the `username` claim's string form; null exactly when neither exists |
| UserIdentityFactory.GenerateUniqueLogin | src/main/java/org/github/flytreeleft/sonar/auth/keycloak/UserIdentityFactory.java:116-118 | the result starts with the printed login, ends with "@keycloak", and is exactly that long |
| UserIdentityFactory.UniqueLoginInjective | src/main/java/org/github/flytreeleft/sonar/auth/keycloak/UserIdentityFactory.java:116-118 | equal unique logins come from equally printed logins, so from equal logins when neither is null |
| UserIdentityFactory.UniqueLoginOfNull | src/main/java/org/github/flytreeleft/sonar/auth/keycloak/UserIdentityFactory.java:116-118 | a null login and the login "null" both become "null@keycloak" |
| UserIdentityFactory.UnsupportedStrategy | src/main/java/org/github/flytreeleft/sonar/auth/keycloak/UserIdentityFactory.java:97-98 | an IllegalStateException whose message is "Login strategy not supported : " followed by the strategy itself |
| UserIdentityFactory.GenerateLogin | src/main/java/org/github/flytreeleft/sonar/auth/keycloak/UserIdentityFactory.java:88-100 | "Same as Keycloak login" gives the resolved login; "Unique" gives the printed login + "@keycloak"; every other strategy fails with IllegalStateException "Login strategy not supported : " + the strategy |
| UserIdentityFactory.StrategySupportedIffOffered | src/main/java/org/github/flytreeleft/sonar/auth/keycloak/UserIdentityFactory.java:91-98 | generating the login succeeds exactly when the strategy is one of the options the strategy property offers |
| UserIdentityFactory.UnsetStrategyFails | src/main/java/org/github/flytreeleft/sonar/auth/keycloak/UserIdentityFactory.java:96-98 | with the strategy unset, generating the login fails with "Login strategy not supported : " |
| UserIdentityFactory.DefaultStrategySupported | src/main/java/org/github/flytreeleft/sonar/auth/keycloak/UserIdentityFactory.java:91-93 | with the store of defaults, the login is the resolved login: the default strategy is supported |
| UserIdentityFactory.FullName | src/main/java/org/github/flytreeleft/sonar/auth/keycloak/UserIdentityFactory.java:107 | the given name, one blank, then the family name, a missing part as "" and neither trimmed |
| UserIdentityFactory.GenerateName | src/main/java/org/github/flytreeleft/sonar/auth/keycloak/UserIdentityFactory.java:102-114 | the non-blank `name` claim as it is; else the non-blank full name as it is; whichever is blank is replaced by the resolved login; so the result is the login or a non-blank name |
| UserIdentityFactory.NameNotTrimmed | src/main/java/org/github/flytreeleft/sonar/auth/keycloak/UserIdentityFactory.java:107 | given " Ada" and family "Lovelace " give the name " Ada Lovelace ", untrimmed |
| UserIdentityFactory.NameFallsBackToLogin | src/main/java/org/github/flytreeleft/sonar/auth/keycloak/UserIdentityFactory.java:104-112 | with no name, given name or family name the display name is the login |
| UserIdentityFactory.ToSet | src/main/java/org/github/flytreeleft/sonar/auth/keycloak/UserIdentityFactory.java:80-82 | collecting to a set keeps exactly the elements |
| UserIdentityFactory.GroupClaim | src/main/java/org/github/flytreeleft/sonar/auth/keycloak/UserIdentityFactory.java:76 | the `groups` claim when present, else the `roles` claim, and null exactly when neither is present |
| UserIdentityFactory.GetGroups | src/main/java/org/github/flytreeleft/sonar/auth/keycloak/UserIdentityFactory.java:72-86 | fails with a null dereference exactly when neither `groups` nor `roles` is present; `groups` wins over `roles`; a string gives the elements of its split, a list its elements, anything else no group; without `groups` the `roles` claim is the one read |
| UserIdentityFactory.TextGroupsCommaFree | src/main/java/org/github/flytreeleft/sonar/auth/keycloak/UserIdentityFactory.java:79-80 | no group read from a string claim contains a comma |
| UserIdentityFactory.TextGroupsOfJoin | src/main/java/org/github/flytreeleft/sonar/auth/keycloak/UserIdentityFactory.java:79-80 | a string claim of clean names joined with each comma carrying its own run of blanks on either side gives exactly the set of those names |
| UserIdentityFactory.TextGroupsExample | src/main/java/org/github/flytreeleft/sonar/auth/keycloak/UserIdentityFactory.java:80 | the claim "a, b,c" gives the groups {a, b, c} |
| UserIdentityFactory.RolesFallback | src/main/java/org/github/flytreeleft/sonar/auth/keycloak/UserIdentityFactory.java:76 | with no `groups` claim, a `roles` list ["x", "y"] gives the groups {x, y} |
| UserIdentityFactory.ListGroupsCollapse | src/main/java/org/github/flytreeleft/sonar/auth/keycloak/UserIdentityFactory.java:81-82 | a list claim with a repeated role gives that role once |
| UserIdentityFactory.GroupsClaimShadowsRoles | src/main/java/org/github/flytreeleft/sonar/auth/keycloak/UserIdentityFactory.java:76 | when `groups` is present, any `roles` claim leaves the groups unchanged |
| UserIdentityFactory.Create | src/main/java/org/github/flytreeleft/sonar/auth/keycloak/UserIdentityFactory.java:49-60 | fails exactly when the strategy is unsupported (that error first) or group sync is on and the group claims are missing; otherwise the provider login is the resolved login, the login is the generated one, the name the generated one, the email the token's verbatim, and groups are present exactly when sync is on |
| UserIdentityFactory.CreateUniqueLogin | src/main/java/org/github/flytreeleft/sonar/auth/keycloak/UserIdentityFactory.java:50-53 | under "Unique" the identity's login is its printed provider login + "@keycloak" |
| UserIdentityFactory.CreateProviderLogin | src/main/java/org/github/flytreeleft/sonar/auth/keycloak/UserIdentityFactory.java:50-53 | under "Same as Keycloak login" the identity's login equals its provider login |
| UserIdentityFactory.SyncOffIgnoresGroupClaims | src/main/java/org/github/flytreeleft/sonar/auth/keycloak/UserIdentityFactory.java:56-58 | with sync off the identity has no groups, and removing both group claims changes nothing, not even when that leaves neither present |
| UserIdentityFactory.SyncOnWithoutClaimsFails | src/main/java/org/github/flytreeleft/sonar/auth/keycloak/UserIdentityFactory.java:76-77 | with sync on, a supported strategy and neither claim present, create fails with a null dereference |

## Left out

- KeycloakIdentityProvider is not part of this model, apart from its key constant. That covers:
  - the OAuth2 authorization-code flow (authorization URL, state token, code exchange over HTTP);
  - ID-token decoding;
  - the synchronised lazily rebuilt deployment cache.

  All of these are network, library or concurrency code.
- AuthKeycloakPlugin (extension registration) is not part of this model.
- SonarQube's builder validation, in its setters and in `build()`, is left out. For example, it rejects a null or blank login, and `setGroups` rejects a blank group name, so `"a,,b"` under group sync is refused by the host while `Create` returns the groups {a, "", b}. The model stops at the fields given to the builder.
- The names and descriptions of the property definitions are UI text and are left out.
- How SonarQube's `Settings` resolves a value is left out: its fallback to a definition's default, its key aliases and its encryption. The store is the map of the answers it gives. The effect of defaults is stated separately, in `DefaultSettingsRead` over a store built from the definitions.
- Logging is left out. Only its dereference of the group claim is kept, because that is what fails when both claims are absent.
- General regular expressions are left out. Only the one pattern `\s*,\s*` is modelled, by its match-by-match scan.
- JSON decoding of claims is left out:
  - a claim value is a string, a list of strings, or another value given with its `toString()` text;
  - a JSON null is treated as an absent claim;
  - list elements that are not strings are not modelled.
- Strings are modelled as sequences of Dafny characters, which are Unicode scalar values, not Java's UTF-16 code units. So a length such as the one `GenerateUniqueLogin` states counts code points, where Java's `length()` counts UTF-16 units, and a lone surrogate cannot be written as a string here. `String.trim` and `\s` only test characters up to U+0020, so their results are the same either way. No Unicode normalisation is involved.
