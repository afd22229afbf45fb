/** The plugin's view of SonarQube's settings: the keys it reads, how each
    accessor interprets what is stored under its key, and the five property
    definitions (with categories, types, defaults, options and indexes)
    that the plugin registers. */
module KeycloakSettings {
  import opened Wrappers
  import opened JavaLang

  const LOGIN_STRATEGY_UNIQUE: string := "Unique"
  const LOGIN_STRATEGY_PROVIDER_ID: string := "Same as Keycloak login"

  const KEYCLOAK_JSON: string := "sonar.auth.keycloak.config"
  const ENABLED: string := "sonar.auth.keycloak.enabled"
  const ALLOW_USERS_TO_SIGN_UP: string := "sonar.auth.keycloak.allowUsersToSignUp"
  const GROUPS_SYNC: string := "sonar.auth.keycloak.groupsSync"
  const LOGIN_STRATEGY: string := "sonar.auth.keycloak.loginStrategy"
  const LOGIN_STRATEGY_DEFAULT_VALUE: string := LOGIN_STRATEGY_PROVIDER_ID

  const CATEGORY: string := "keycloak"
  const SUBCATEGORY: string := "authentication"

  /** A snapshot of the settings store: the string the host answers for
      each key that has a value. A key it has no value for is absent. */
  datatype Settings = Settings(values: map<string, string>)

  /** settings.getString(key): the stored string, or null when unset. */
  function GetString(st: Settings, key: string): (r: Option<string>)
    ensures r.None? <==> key !in st.values
    ensures r.Some? ==> r.value == st.values[key]
  {
    if key in st.values then Some(st.values[key]) else None
  }

  /** settings.getBoolean(key): an unset key reads as false, a set one as
      Boolean.parseBoolean of its string. */
  function GetBoolean(st: Settings, key: string): (r: bool)
    ensures key !in st.values ==> !r
    ensures key in st.values ==> (r <==> ParseBoolean(st.values[key]))
  {
    key in st.values && ParseBoolean(st.values[key])
  }

  /** keycloakJson(): the configuration JSON, or null when unset. */
  function KeycloakJson(st: Settings): (r: Option<string>)
    ensures r.Some? <==> KEYCLOAK_JSON in st.values
    ensures r.Some? ==> r.value == st.values[KEYCLOAK_JSON]
  {
    GetString(st, KEYCLOAK_JSON)
  }

  /** isEnabled(): the flag, and then the JSON's non-emptiness. The JSON is
      only consulted when the flag is on; an unset JSON then fails on the
      call to isEmpty(). */
  function IsEnabled(st: Settings): (r: Result<bool, JavaException>)
    ensures !GetBoolean(st, ENABLED) ==> r == Success(false)
    ensures r.Failure? <==> GetBoolean(st, ENABLED) && KEYCLOAK_JSON !in st.values
    ensures r.Failure? ==> r.error == NullPointerException
    ensures r == Success(true) <==>
      GetBoolean(st, ENABLED) && KEYCLOAK_JSON in st.values && st.values[KEYCLOAK_JSON] != ""
  {
    if !GetBoolean(st, ENABLED) then Success(false)
    else match KeycloakJson(st)
      case None => Failure(NullPointerException)
      case Some(json) => Success(json != "")
  }

  /** Short-circuit: with the flag off, whatever the JSON holds (or whether it
      is set at all) does not change the answer. */
  lemma IsEnabledIgnoresJsonWhenOff(st: Settings, json: Option<string>)
    requires !GetBoolean(st, ENABLED)
    ensures var st' := match json
        case None => Settings(st.values - {KEYCLOAK_JSON})
        case Some(j) => Settings(st.values[KEYCLOAK_JSON := j]);
      IsEnabled(st') == IsEnabled(st) == Success(false)
  {
    var st' := match json
      case None => Settings(st.values - {KEYCLOAK_JSON})
      case Some(j) => Settings(st.values[KEYCLOAK_JSON := j]);
    assert ENABLED != KEYCLOAK_JSON;
    assert GetBoolean(st', ENABLED) == GetBoolean(st, ENABLED);
  }

  /** emptyIfNull(s): null becomes the empty string, any other string is
      kept as it is. */
  function EmptyIfNull(s: Option<string>): (r: string)
    ensures s.Some? ==> r == s.value
    ensures r == "" <==> s.None? || s.value == ""
  {
    if s.None? then "" else s.value
  }

  /** loginStrategy(): the stored strategy verbatim, or "" when unset. */
  function LoginStrategy(st: Settings): (r: string)
    ensures LOGIN_STRATEGY !in st.values ==> r == ""
    ensures LOGIN_STRATEGY in st.values ==> r == st.values[LOGIN_STRATEGY]
  {
    EmptyIfNull(GetString(st, LOGIN_STRATEGY))
  }

  /** allowUsersToSignUp(): the boolean stored under its own key. */
  function AllowUsersToSignUp(st: Settings): (r: bool)
    ensures r <==> ALLOW_USERS_TO_SIGN_UP in st.values && ParseBoolean(st.values[ALLOW_USERS_TO_SIGN_UP])
  {
    GetBoolean(st, ALLOW_USERS_TO_SIGN_UP)
  }

  /** syncGroups(): the boolean stored under its own key. */
  function SyncGroups(st: Settings): (r: bool)
    ensures r <==> GROUPS_SYNC in st.values && ParseBoolean(st.values[GROUPS_SYNC])
  {
    GetBoolean(st, GROUPS_SYNC)
  }

  /** Each accessor reads its own key and nothing else: two stores that agree
      on that key give the same answer. */
  lemma AccessorsReadOwnKey(st1: Settings, st2: Settings)
    ensures (ALLOW_USERS_TO_SIGN_UP in st1.values <==> ALLOW_USERS_TO_SIGN_UP in st2.values)
      && (ALLOW_USERS_TO_SIGN_UP in st1.values ==> st1.values[ALLOW_USERS_TO_SIGN_UP] == st2.values[ALLOW_USERS_TO_SIGN_UP])
      ==> AllowUsersToSignUp(st1) == AllowUsersToSignUp(st2)
    ensures (GROUPS_SYNC in st1.values <==> GROUPS_SYNC in st2.values)
      && (GROUPS_SYNC in st1.values ==> st1.values[GROUPS_SYNC] == st2.values[GROUPS_SYNC])
      ==> SyncGroups(st1) == SyncGroups(st2)
    ensures (LOGIN_STRATEGY in st1.values <==> LOGIN_STRATEGY in st2.values)
      && (LOGIN_STRATEGY in st1.values ==> st1.values[LOGIN_STRATEGY] == st2.values[LOGIN_STRATEGY])
      ==> LoginStrategy(st1) == LoginStrategy(st2)
    ensures (KEYCLOAK_JSON in st1.values <==> KEYCLOAK_JSON in st2.values)
      && (KEYCLOAK_JSON in st1.values ==> st1.values[KEYCLOAK_JSON] == st2.values[KEYCLOAK_JSON])
      ==> KeycloakJson(st1) == KeycloakJson(st2)
  {
  }

  /** The property types the definitions use. */
  datatype PropertyType = Boolean | Text | SingleSelectList

  /** One property definition before it is numbered. */
  datatype Property = Property(
    key: string,
    category: string,
    subCategory: string,
    propertyType: PropertyType,
    defaultValue: Option<string>,
    options: seq<string>)

  /** A property definition with the index the running counter gave it. */
  datatype PropertyDefinition = PropertyDefinition(property: Property, index: int)

  /** The running `index++` counter: the k-th property gets `first + k`. */
  function Numbered(props: seq<Property>, first: int): (r: seq<PropertyDefinition>)
    ensures |r| == |props|
    ensures forall k :: 0 <= k < |r| ==> r[k].property == props[k] && r[k].index == first + k
  {
    if |props| == 0 then []
    else [PropertyDefinition(props[0], first)] + Numbered(props[1..], first + 1)
  }

  function BooleanProperty(key: string, default: bool): Property {
    Property(key, CATEGORY, SUBCATEGORY, Boolean, Some(if default then "true" else "false"), [])
  }

  /** definitions(): the five properties in registration order, numbered
      from 1: exactly five, in the order enabled, config, sign-up, login
      strategy, group sync, all in the keycloak category's authentication
      subcategory; booleans defaulting to false, true and false, the JSON
      as text with no default, and the strategy as a single-select list
      whose options are the two supported strategies and whose default is
      the provider-login one. The other properties offer no options. */
  function Definitions(): (r: seq<PropertyDefinition>)
    ensures |r| == 5
    ensures forall k :: 0 <= k < 5 ==> r[k].index == k + 1
    ensures forall k :: 0 <= k < 5 ==>
      r[k].property.category == CATEGORY && r[k].property.subCategory == SUBCATEGORY
    ensures [r[0].property.key, r[1].property.key, r[2].property.key, r[3].property.key, r[4].property.key]
         == [ENABLED, KEYCLOAK_JSON, ALLOW_USERS_TO_SIGN_UP, LOGIN_STRATEGY, GROUPS_SYNC]
    ensures r[0].property.propertyType == Boolean && r[0].property.defaultValue == Some("false")
    ensures r[1].property.propertyType == Text && r[1].property.defaultValue == None
    ensures r[2].property.propertyType == Boolean && r[2].property.defaultValue == Some("true")
    ensures r[3].property.propertyType == SingleSelectList
    ensures r[3].property.defaultValue == Some(LOGIN_STRATEGY_PROVIDER_ID)
    ensures r[4].property.propertyType == Boolean && r[4].property.defaultValue == Some("false")
    ensures r[3].property.options == [LOGIN_STRATEGY_UNIQUE, LOGIN_STRATEGY_PROVIDER_ID]
    ensures r[3].property.defaultValue.value in r[3].property.options
    ensures forall k :: 0 <= k < 5 && k != 3 ==> r[k].property.options == []
  {
    Numbered([
      BooleanProperty(ENABLED, false),
      Property(KEYCLOAK_JSON, CATEGORY, SUBCATEGORY, Text, None, []),
      BooleanProperty(ALLOW_USERS_TO_SIGN_UP, true),
      Property(LOGIN_STRATEGY, CATEGORY, SUBCATEGORY, SingleSelectList,
        Some(LOGIN_STRATEGY_DEFAULT_VALUE), [LOGIN_STRATEGY_UNIQUE, LOGIN_STRATEGY_PROVIDER_ID]),
      BooleanProperty(GROUPS_SYNC, false)
    ], 1)
  }

  /** The keys of the definitions are pairwise distinct. */
  lemma DefinitionKeysDistinct()
    ensures forall i, j :: 0 <= i < j < |Definitions()| ==>
      Definitions()[i].property.key != Definitions()[j].property.key
  {
  }

  /** The store a host would answer from if nothing was configured and it
      served each definition's default. */
  function DefaultsOf(defs: seq<PropertyDefinition>): (r: map<string, string>)
    ensures |r| <= |defs|
    ensures (forall i :: 0 <= i < |defs| ==> defs[i].property.defaultValue.None?) ==> r == map[]
  {
    if |defs| == 0 then map[]
    else
      var rest := DefaultsOf(defs[1..]);
      var p := defs[0].property;
      if p.defaultValue.Some? then rest[p.key := p.defaultValue.value] else rest
  }

  predicate KeysDistinct(defs: seq<PropertyDefinition>) {
    forall i, j :: 0 <= i < j < |defs| ==> defs[i].property.key != defs[j].property.key
  }

  /** A key no definition declares has no default. */
  lemma {:induction false} DefaultsOfOtherKey(defs: seq<PropertyDefinition>, key: string)
    requires forall i :: 0 <= i < |defs| ==> defs[i].property.key != key
    ensures key !in DefaultsOf(defs)
  {
    if |defs| > 0 {
      DefaultsOfOtherKey(defs[1..], key);
    }
  }

  /** With distinct keys, each definition's key holds its default, and is
      unset when the definition has none. */
  lemma {:induction false} DefaultsOfLookup(defs: seq<PropertyDefinition>, k: nat)
    requires k < |defs| && KeysDistinct(defs)
    ensures var p := defs[k].property;
      && (p.defaultValue.Some? ==> p.key in DefaultsOf(defs) && DefaultsOf(defs)[p.key] == p.defaultValue.value)
      && (p.defaultValue.None? ==> p.key !in DefaultsOf(defs))
  {
    var tail := defs[1..];
    if k == 0 {
      DefaultsOfOtherKey(tail, defs[0].property.key);
    } else {
      assert tail[k - 1] == defs[k];
      DefaultsOfLookup(tail, k - 1);
    }
  }

  /** Read through the accessors, the defaults mean: not enabled, sign-up
      allowed, no group sync, the provider-login strategy, no JSON. */
  lemma DefaultSettingsRead()
    ensures var st := Settings(DefaultsOf(Definitions()));
      && IsEnabled(st) == Success(false)
      && AllowUsersToSignUp(st)
      && !SyncGroups(st)
      && LoginStrategy(st) == LOGIN_STRATEGY_PROVIDER_ID
      && KeycloakJson(st) == None
  {
    var d := Definitions();
    DefinitionKeysDistinct();
    DefaultsOfLookup(d, 0);
    DefaultsOfLookup(d, 1);
    DefaultsOfLookup(d, 2);
    DefaultsOfLookup(d, 3);
    DefaultsOfLookup(d, 4);
  }
}
