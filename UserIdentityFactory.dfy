/** How a decoded Keycloak ID token becomes SonarQube's user identity: the
    login is resolved from the token, rewritten by the configured login
    strategy, a display name is derived, and, when group sync is on, the
    groups are read from the `groups` or `roles` claim. */
module UserIdentityFactory {
  import opened Wrappers
  import opened JavaLang
  import opened KeycloakSettings

  /** The identity provider's key, KeycloakIdentityProvider.KEY. */
  const PROVIDER_KEY: string := "keycloak"

  /** A value in the token's open claim set, as JSON decoding leaves it: a
      string, a list of strings, or anything else (a number, a boolean, an
      object), kept with the text its toString() gives. */
  datatype ClaimValue =
    | TextClaim(text: string)
    | ListClaim(elements: seq<string>)
    | OtherClaim(shown: string)

  /** The parts of the ID token the factory reads; None is a null claim. */
  datatype IdToken = IdToken(
    preferredUsername: Option<string>,
    name: Option<string>,
    givenName: Option<string>,
    familyName: Option<string>,
    email: Option<string>,
    otherClaims: map<string, ClaimValue>)

  /** What the builder is given; `groups` is None when setGroups is never
      called. */
  datatype UserIdentity = UserIdentity(
    providerLogin: Option<string>,
    login: Option<string>,
    name: Option<string>,
    email: Option<string>,
    groups: Option<set<string>>)

  /** Object.toString() of a claim value; a list prints as
      AbstractCollection does, "[a, b]". */
  function ClaimToString(v: ClaimValue): (r: string)
    ensures v.TextClaim? ==> r == v.text
    ensures v.OtherClaim? ==> r == v.shown
    ensures v.ListClaim? ==> |r| >= 2 && r[0] == '[' && r[|r| - 1] == ']'
    ensures v.ListClaim? ==> r[1..|r| - 1] == Join(v.elements, ", ")
  {
    match v
    case TextClaim(s) => s
    case ListClaim(es) =>
      var r := "[" + Join(es, ", ") + "]";
      assert r[1..|r| - 1] == Join(es, ", ");
      r
    case OtherClaim(shown) => shown
  }

  /** A list claim prints its elements separated by ", " inside brackets. */
  lemma ListClaimPrinted()
    ensures ClaimToString(ListClaim(["alice", "bob"])) == "[alice, bob]"
    ensures ClaimToString(ListClaim([])) == "[]"
  {
    assert Join(["alice", "bob"], ", ") == "alice" + ", " + Join(["bob"], ", ");
  }

  predicate NonEmpty(s: Option<string>) {
    s.Some? && s.value != ""
  }

  /** getLogin(): preferred_username when it is set and non-empty, otherwise
      the string form of the `username` claim, otherwise null. */
  function GetLogin(t: IdToken): (r: Option<string>)
    ensures NonEmpty(t.preferredUsername) ==> r == t.preferredUsername
    ensures !NonEmpty(t.preferredUsername) && "username" in t.otherClaims ==>
      r == Some(ClaimToString(t.otherClaims["username"]))
    ensures r.None? <==> !NonEmpty(t.preferredUsername) && "username" !in t.otherClaims
  {
    if NonEmpty(t.preferredUsername) then t.preferredUsername
    else if "username" in t.otherClaims then Some(ClaimToString(t.otherClaims["username"]))
    else None
  }

  /** generateUniqueLogin(login): format("%s@%s", login, KEY); a null login
      prints as "null". */
  function GenerateUniqueLogin(login: Option<string>): (r: string)
    ensures |r| == |FormatArg(login)| + 1 + |PROVIDER_KEY|
    ensures r[..|FormatArg(login)|] == FormatArg(login)
    ensures r[|FormatArg(login)|..] == "@keycloak"
  {
    FormatArg(login) + "@" + PROVIDER_KEY
  }

  /** Distinct logins give distinct unique logins, as long as neither is
      null. */
  lemma UniqueLoginInjective(a: Option<string>, b: Option<string>)
    requires GenerateUniqueLogin(a) == GenerateUniqueLogin(b)
    ensures FormatArg(a) == FormatArg(b)
    ensures a.Some? && b.Some? ==> a == b
  {
    var r := GenerateUniqueLogin(a);
    assert |FormatArg(a)| == |FormatArg(b)|;
    assert FormatArg(a) == r[..|FormatArg(a)|] == FormatArg(b);
  }

  /** A null login and the login "null" give the same unique login. */
  lemma UniqueLoginOfNull()
    ensures GenerateUniqueLogin(None) == GenerateUniqueLogin(Some("null")) == "null@keycloak"
  {
  }

  /** The exception for a strategy generateLogin does not know: an
      IllegalStateException whose message is the fixed prefix followed by
      the strategy itself. */
  function UnsupportedStrategy(strategy: string): (r: JavaException)
    ensures r.IllegalStateException?
    ensures |r.message| == 31 + |strategy|
    ensures r.message[..31] == "Login strategy not supported : " && r.message[31..] == strategy
  {
    IllegalStateException("Login strategy not supported : " + strategy)
  }

  /** generateLogin(): the resolved login for "Same as Keycloak login", its
      unique form for "Unique", and IllegalStateException for any other
      strategy string. */
  function GenerateLogin(t: IdToken, st: Settings): (r: Result<Option<string>, JavaException>)
    ensures LoginStrategy(st) == LOGIN_STRATEGY_PROVIDER_ID ==> r == Success(GetLogin(t))
    ensures LoginStrategy(st) == LOGIN_STRATEGY_UNIQUE ==>
      r.Success? && r.value.Some? && r.value.value == FormatArg(GetLogin(t)) + "@keycloak"
    ensures r.Failure? <==> LoginStrategy(st) != LOGIN_STRATEGY_PROVIDER_ID && LoginStrategy(st) != LOGIN_STRATEGY_UNIQUE
    ensures r.Failure? ==> r.error == IllegalStateException("Login strategy not supported : " + LoginStrategy(st))
  {
    var login := GetLogin(t);
    var strategy := LoginStrategy(st);
    if strategy == LOGIN_STRATEGY_PROVIDER_ID then Success(login)
    else if strategy == LOGIN_STRATEGY_UNIQUE then Success(Some(GenerateUniqueLogin(login)))
    else Failure(UnsupportedStrategy(strategy))
  }

  /** A strategy is supported exactly when it is one of the options the
      loginStrategy property offers. */
  lemma StrategySupportedIffOffered(t: IdToken, st: Settings)
    ensures GenerateLogin(t, st).Success? <==> LoginStrategy(st) in Definitions()[3].property.options
  {
  }

  /** An unset strategy reads as "" and is not supported. */
  lemma UnsetStrategyFails(t: IdToken, st: Settings)
    requires LOGIN_STRATEGY !in st.values
    ensures GenerateLogin(t, st) == Failure(IllegalStateException("Login strategy not supported : "))
  {
    assert LoginStrategy(st) == "";
    assert "Login strategy not supported : " + "" == "Login strategy not supported : ";
  }

  /** Under the default strategy the login is the resolved login: the
      default never reaches the unsupported branch. */
  lemma DefaultStrategySupported(t: IdToken)
    ensures GenerateLogin(t, Settings(DefaultsOf(Definitions()))) == Success(GetLogin(t))
  {
    DefaultSettingsRead();
  }

  /** givenName + " " + familyName, a missing part as "": the given name,
      one blank, then the family name, each kept as it is. */
  function FullName(t: IdToken): (r: string)
    ensures var g, f := EmptyIfNull(t.givenName), EmptyIfNull(t.familyName);
      && |r| == |g| + 1 + |f|
      && r[..|g|] == g && r[|g|] == ' ' && r[|g| + 1..] == f
  {
    EmptyIfNull(t.givenName) + " " + EmptyIfNull(t.familyName)
  }

  /** generateName(): the `name` claim when non-empty, else the full name;
      whichever it is, if it trims to nothing the resolved login replaces
      it. The name that is kept is never trimmed. */
  function GenerateName(t: IdToken): (r: Option<string>)
    ensures NonEmpty(t.name) && !AllSpace(TrimSpace, t.name.value) ==> r == t.name
    ensures !NonEmpty(t.name) && !AllSpace(TrimSpace, FullName(t)) ==> r == Some(FullName(t))
    ensures (if NonEmpty(t.name) then AllSpace(TrimSpace, t.name.value) else AllSpace(TrimSpace, FullName(t)))
      ==> r == GetLogin(t)
    ensures r == GetLogin(t) || (r.Some? && !AllSpace(TrimSpace, r.value))
  {
    var name := if NonEmpty(t.name) then t.name.value else FullName(t);
    TrimEmptyIff(name);
    if Trim(name) == [] then GetLogin(t) else Some(name)
  }

  /** The full name keeps the blanks around its parts. */
  lemma NameNotTrimmed()
    ensures GenerateName(IdToken(None, None, Some(" Ada"), Some("Lovelace "), None, map[]))
         == Some(" Ada Lovelace ")
  {
    var t := IdToken(None, None, Some(" Ada"), Some("Lovelace "), None, map[]);
    assert FullName(t) == " Ada Lovelace ";
    assert !IsSpace(TrimSpace, FullName(t)[1]);
  }

  /** With no name parts at all the full name is a single blank, and the
      login takes its place. */
  lemma NameFallsBackToLogin(t: IdToken)
    requires !NonEmpty(t.name) && t.givenName.None? && t.familyName.None?
    ensures GenerateName(t) == GetLogin(t)
  {
    assert FullName(t) == " ";
  }

  /** Collectors.toSet(): the elements, duplicates collapsed. */
  function ToSet(xs: seq<string>): (r: set<string>)
    ensures forall x :: x in r <==> x in xs
  {
    set x | x in xs
  }

  /** The set of a three-element list, written out. */
  lemma ToSetOfThree(a: string, b: string, c: string)
    ensures ToSet([a, b, c]) == {a, b, c}
  {
    var r := ToSet([a, b, c]);
    assert forall x :: x in r <==> x == a || x == b || x == c;
  }

  /** The claim getGroups reads: `groups` when present, else `roles`. */
  function GroupClaim(t: IdToken): (r: Option<ClaimValue>)
    ensures r.None? <==> "groups" !in t.otherClaims && "roles" !in t.otherClaims
    ensures "groups" in t.otherClaims ==> r == Some(t.otherClaims["groups"])
    ensures "groups" !in t.otherClaims && "roles" in t.otherClaims ==> r == Some(t.otherClaims["roles"])
  {
    if "groups" in t.otherClaims then Some(t.otherClaims["groups"])
    else if "roles" in t.otherClaims then Some(t.otherClaims["roles"])
    else None
  }

  /** getGroups(): a string claim split on `\s*,\s*`, a list claim's
      elements, or no group for any other value; with neither claim present
      the claim value is null and logging its class fails. */
  function GetGroups(t: IdToken): (r: Result<set<string>, JavaException>)
    ensures r.Failure? <==> "groups" !in t.otherClaims && "roles" !in t.otherClaims
    ensures r.Failure? ==> r.error == NullPointerException
    ensures "groups" in t.otherClaims ==> GroupClaim(t) == Some(t.otherClaims["groups"])
    ensures "groups" !in t.otherClaims && "roles" in t.otherClaims ==> GroupClaim(t) == Some(t.otherClaims["roles"])
    ensures r.Success? && GroupClaim(t).value.TextClaim? ==>
      forall g :: g in r.value <==> g in SplitOnCommas(GroupClaim(t).value.text)
    ensures r.Success? && GroupClaim(t).value.ListClaim? ==>
      forall g :: g in r.value <==> g in GroupClaim(t).value.elements
    ensures r.Success? && GroupClaim(t).value.OtherClaim? ==> r.value == {}
  {
    match GroupClaim(t)
    case None => Failure(NullPointerException)
    case Some(v) =>
      match v
      case TextClaim(s) => Success(ToSet(SplitOnCommas(s)))
      case ListClaim(es) => Success(ToSet(es))
      case OtherClaim(_) => Success({})
  }

  /** A group read from a string claim never contains a comma. */
  lemma TextGroupsCommaFree(t: IdToken, g: string)
    requires GetGroups(t).Success? && GroupClaim(t).value.TextClaim?
    requires g in GetGroups(t).value
    ensures NoComma(g)
  {
    SplitOnCommasCommaFree(GroupClaim(t).value.text, g);
  }

  /** Clean names joined by commas, each comma with its own blanks around
      it, come back as exactly those names. */
  lemma {:induction false} TextGroupsOfJoin(t: IdToken, names: seq<string>, seps: seq<Separator>)
    requires |names| == |seps| + 1
    requires forall g :: g in names ==> IsCleanItem(g)
    requires forall k :: 0 <= k < |seps| ==> IsBlankSeparator(seps[k])
    requires GroupClaim(t) == Some(TextClaim(JoinWith(names, seps)))
    ensures GetGroups(t) == Success(ToSet(names))
  {
    SplitJoinRoundTrip(names, seps);
  }

  /** "a, b,c" gives the groups a, b and c. */
  lemma TextGroupsExample(t: IdToken)
    requires GroupClaim(t) == Some(TextClaim("a, b,c"))
    ensures GetGroups(t) == Success({"a", "b", "c"})
  {
    SplitExample();
    var r := ToSet(["a", "b", "c"]);
    assert GetGroups(t) == Success(r);
    ToSetOfThree("a", "b", "c");
  }

  /** Without a `groups` claim, a `roles` list is read instead. */
  lemma RolesFallback(t: IdToken)
    requires "groups" !in t.otherClaims
    requires "roles" in t.otherClaims && t.otherClaims["roles"] == ListClaim(["x", "y"])
    ensures GetGroups(t) == Success({"x", "y"})
  {
    assert ToSet(["x", "y"]) == {"x", "y"};
  }

  /** A list claim with a repeated role gives that role once. */
  lemma ListGroupsCollapse(t: IdToken)
    requires GroupClaim(t) == Some(ListClaim(["x", "y", "x"]))
    ensures GetGroups(t) == Success({"x", "y"})
  {
    assert ToSet(["x", "y", "x"]) == {"x", "y"};
  }

  /** When `groups` is present the `roles` claim is never read. */
  lemma GroupsClaimShadowsRoles(t: IdToken, roles: ClaimValue)
    requires "groups" in t.otherClaims
    ensures GetGroups(t.(otherClaims := t.otherClaims["roles" := roles])) == GetGroups(t)
  {
    var t' := t.(otherClaims := t.otherClaims["roles" := roles]);
    assert t'.otherClaims["groups"] == t.otherClaims["groups"];
  }

  /** create(): the identity built from the token, in Java's evaluation
      order: the login strategy is applied before the groups are read, so
      an unsupported strategy is reported even when the groups would fail
      too. */
  function Create(t: IdToken, st: Settings): (r: Result<UserIdentity, JavaException>)
    ensures GenerateLogin(t, st).Failure? ==> r == Failure(GenerateLogin(t, st).error)
    ensures GenerateLogin(t, st).Success? && SyncGroups(st) && GetGroups(t).Failure? ==>
      r == Failure(NullPointerException)
    ensures r.Failure? <==> GenerateLogin(t, st).Failure? || (SyncGroups(st) && GetGroups(t).Failure?)
    ensures r.Success? ==>
      && r.value.providerLogin == GetLogin(t)
      && r.value.login == GenerateLogin(t, st).value
      && r.value.name == GenerateName(t)
      && r.value.email == t.email
      && (r.value.groups.Some? <==> SyncGroups(st))
      && (r.value.groups.Some? ==> r.value.groups == Some(GetGroups(t).value))
  {
    var login := GetLogin(t);
    var generated :- GenerateLogin(t, st);
    var name := GenerateName(t);
    if !SyncGroups(st) then Success(UserIdentity(login, generated, name, t.email, None))
    else
      var groups :- GetGroups(t);
      Success(UserIdentity(login, generated, name, t.email, Some(groups)))
  }

  /** Under the "Unique" strategy the login is the provider login followed
      by "@keycloak". */
  lemma CreateUniqueLogin(t: IdToken, st: Settings)
    requires LoginStrategy(st) == LOGIN_STRATEGY_UNIQUE
    requires Create(t, st).Success?
    ensures var id := Create(t, st).value;
      && id.login.Some?
      && id.login.value == FormatArg(id.providerLogin) + "@keycloak"
  {
  }

  /** Under the "Same as Keycloak login" strategy the login is the provider
      login. */
  lemma CreateProviderLogin(t: IdToken, st: Settings)
    requires LoginStrategy(st) == LOGIN_STRATEGY_PROVIDER_ID
    requires Create(t, st).Success?
    ensures Create(t, st).value.login == Create(t, st).value.providerLogin
  {
  }

  /** With group sync off, the identity has no groups and the `groups` and
      `roles` claims make no difference, even when both are missing. */
  lemma SyncOffIgnoresGroupClaims(t: IdToken, st: Settings)
    requires !SyncGroups(st)
    ensures Create(t, st).Success? ==> Create(t, st).value.groups.None?
    ensures Create(t.(otherClaims := t.otherClaims - {"groups", "roles"}), st) == Create(t, st)
  {
    var t' := t.(otherClaims := t.otherClaims - {"groups", "roles"});
    assert ("username" in t'.otherClaims) == ("username" in t.otherClaims);
    assert "username" in t.otherClaims ==> t'.otherClaims["username"] == t.otherClaims["username"];
    assert GetLogin(t') == GetLogin(t);
    assert GenerateName(t') == GenerateName(t);
  }

  /** With group sync on and neither claim present, create() fails once the
      strategy is supported. */
  lemma SyncOnWithoutClaimsFails(t: IdToken, st: Settings)
    requires SyncGroups(st) && GenerateLogin(t, st).Success?
    requires "groups" !in t.otherClaims && "roles" !in t.otherClaims
    ensures Create(t, st) == Failure(NullPointerException)
  {
  }
}
