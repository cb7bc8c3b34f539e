/** The generated Kimi configuration: model overrides by agent role, and the tables they declare. */
module KimiConfig {
  import opened Prelude
  import opened Text
  import opened Dedupe

  /** Missing and empty fields are "". */
  datatype Template = Template(envRole: string, role: string, name: string)

  /** An entry of `model_overrides`. `empty` is the dictionary without any key; a missing model name is "". */
  datatype Override =
    | NotADict
    | Dict(empty: bool, model: string, contextWindow: Option<int>, maxOutputTokens: Option<int>)

  /** The template's model profile. */
  datatype Profile = Profile(provider: string, model: string, contextWindow: Option<int>, maxOutputTokens: Option<int>)

  datatype ModelConfig = ModelConfig(
    providerName: string, modelRef: string, rawModel: string, contextWindow: Option<int>, maxOutputTokens: Option<int>)

  datatype ModelTable = ModelTable(alias: string, provider: string, model: string, contextSize: int, outputSize: int)

  datatype Toml = Toml(defaultModel: string, providers: seq<string>, models: seq<ModelTable>)

  /** A role and its override, in the order of the roles. */
  type Overrides = seq<(string, Override)>

  function AgentRole(t: Template): (role: string)
    ensures role != ""
  {
    if t.envRole != "" then t.envRole else if t.role != "" then t.role else if t.name != "" then t.name else "agent"
  }

  /** '_' becomes '-'. */
  function Dashed(s: string): (d: string)
    ensures |d| == |s| && forall k :: 0 <= k < |s| ==> d[k] == if s[k] == '_' then '-' else s[k]
  {
    seq(|s|, k requires 0 <= k < |s| => if s[k] == '_' then '-' else s[k])
  }

  function ModelAliasForRole(role: string): string { Dashed("dieaudit/" + role) }

  /** `s.replace(pattern, "")`. */
  function Without(s: string, pattern: string): string
    requires pattern != ""
    decreases |s|
  {
    if s == "" then ""
    else if StartsWith(s, pattern) then Without(s[|pattern|..], pattern)
    else [s[0]] + Without(s[1..], pattern)
  }

  function LookUp(overrides: Overrides, key: string): Option<Override> {
    if overrides == [] then None
    else if overrides[0].0 == key then Some(overrides[0].1)
    else LookUp(overrides[1..], key)
  }

  function DictAt(overrides: Overrides, key: string): Option<Override> {
    var found := LookUp(overrides, key);
    if found.Some? && found.value.Dict? then found else None
  }

  /** The first dictionary under the role, the template's name, or that name without "kimi-". */
  function ModelOverride(t: Template, overrides: Overrides): (found: Option<Override>)
    ensures found.Some? ==> found.value.Dict?
  {
    if DictAt(overrides, AgentRole(t)).Some? then DictAt(overrides, AgentRole(t))
    else if DictAt(overrides, t.name).Some? then DictAt(overrides, t.name)
    else DictAt(overrides, Without(t.name, "kimi-"))
  }

  /** An override counts only when its dictionary has a key. */
  predicate Effective(found: Option<Override>) { found.Some? && found.value.Dict? && !found.value.empty }

  function ProfileRef(p: Profile): string { p.provider + "/" + p.model }

  function ModelName(o: Override, p: Profile): string
    requires o.Dict?
  {
    if o.model != "" then o.model else if p.model != "" then p.model else "default"
  }

  function ProviderName(role: string): string { Dashed("dieaudit-" + role) }

  function ConfigForRole(role: string, o: Override, p: Profile): ModelConfig
    requires o.Dict?
  {
    ModelConfig(ProviderName(role), ModelAliasForRole(role), ModelName(o, p), o.contextWindow, o.maxOutputTokens)
  }

  function EffectiveModelConfig(t: Template, overrides: Overrides, p: Profile): ModelConfig {
    var found := ModelOverride(t, overrides);
    if !Effective(found) then ModelConfig(p.provider, ProfileRef(p), p.model, p.contextWindow, p.maxOutputTokens)
    else
      var name := ProviderName(AgentRole(t));
      var model := ModelName(found.value, p);
      ModelConfig(name, name + "/" + model, model, found.value.contextWindow, found.value.maxOutputTokens)
  }

  function ModelAliasForTemplate(t: Template, overrides: Overrides, p: Profile): string {
    if Effective(ModelOverride(t, overrides)) then ModelAliasForRole(AgentRole(t)) else ProfileRef(p)
  }

  function TomlKey(s: string): string { if Strip(s) != "" then Strip(s) else "dieaudit" }

  function PositiveInt(n: Option<int>, fallback: int): int { if n.Some? && n.value > 0 then n.value else fallback }

  function TableOf(c: ModelConfig): ModelTable {
    ModelTable(TomlKey(c.modelRef), TomlKey(c.providerName), c.rawModel,
               PositiveInt(c.contextWindow, 128000), PositiveInt(c.maxOutputTokens, 8192))
  }

  /** The configurations of the overrides that are dictionaries, in order. */
  function RoleConfigs(overrides: Overrides, p: Profile): seq<ModelConfig> {
    if overrides == [] then []
    else
      var last := overrides[|overrides| - 1];
      RoleConfigs(overrides[..|overrides| - 1], p) + (if last.1.Dict? then [ConfigForRole(last.0, last.1, p)] else [])
  }

  predicate DistinctRoles(overrides: Overrides) {
    forall i, j :: 0 <= i < j < |overrides| ==> overrides[i].0 != overrides[j].0
  }

  predicate HasRole(overrides: Overrides, role: string) {
    exists k :: 0 <= k < |overrides| && overrides[k].0 == role && overrides[k].1.Dict?
  }

  function AllConfigs(t: Template, overrides: Overrides, p: Profile): seq<ModelConfig> {
    RoleConfigs(overrides, p)
      + (if HasRole(overrides, AgentRole(t)) then [] else [EffectiveModelConfig(t, overrides, p)])
  }

  method AllEffectiveModelConfigs(t: Template, overrides: Overrides, p: Profile) returns (result: seq<ModelConfig>)
    ensures result == AllConfigs(t, overrides, p)
  {
    result := [];
    var roles: set<string> := {};
    for k := 0 to |overrides|
      invariant result == RoleConfigs(overrides[..k], p)
      invariant forall role :: role in roles <==>
        exists j :: 0 <= j < k && overrides[j].0 == role && overrides[j].1.Dict?
    {
      assert overrides[..k + 1][..k] == overrides[..k];
      var (role, override) := overrides[k];
      if override.Dict? {
        result := result + [ConfigForRole(role, override, p)];
        roles := roles + {role};
      }
    }
    assert overrides[..|overrides|] == overrides;
    if AgentRole(t) !in roles {
      result := result + [EffectiveModelConfig(t, overrides, p)];
    }
  }

  /** The document, for a template of the Kimi runtime; other templates have none. */
  method KimiConfigToml(isKimi: bool, t: Template, overrides: Overrides, p: Profile) returns (toml: Option<Toml>)
    ensures toml.Some? <==> isKimi
    ensures isKimi ==>
      && toml.value.defaultModel == ModelAliasForTemplate(t, overrides, p)
      && Names(toml.value, AllConfigs(t, overrides, p))
      && DeclareAll(toml.value.models, AllConfigs(t, overrides, p)) && Sound(toml.value.providers, toml.value.models)
  {
    if !isKimi {
      return None;
    }
    var configs := AllEffectiveModelConfigs(t, overrides, p);
    var providers, models := Tables(configs);
    TablesAreSound(configs, providers, models);
    toml := Some(Toml(ModelAliasForTemplate(t, overrides, p), providers, models));
  }

  /** A provider table and a model table for every configuration. */
  method Tables(configs: seq<ModelConfig>) returns (providers: seq<string>, models: seq<ModelTable>)
    ensures providers == Mapped(configs, ProviderKey) && models == Mapped(configs, TableOf)
  {
    providers := [];
    for k := 0 to |configs|
      invariant providers == Mapped(configs[..k], ProviderKey)
    {
      assert configs[..k + 1] == configs[..k] + [configs[k]];
      MappedAppend(configs[..k], ProviderKey, configs[k]);
      providers := providers + [TomlKey(configs[k].providerName)];
    }
    models := [];
    for k := 0 to |configs|
      invariant models == Mapped(configs[..k], TableOf)
    {
      assert configs[..k + 1] == configs[..k] + [configs[k]];
      MappedAppend(configs[..k], TableOf, configs[k]);
      models := models + [TableOf(configs[k])];
    }
    assert configs[..|configs|] == configs;
  }

  /** Every table names a declared provider and has positive sizes. */
  predicate Sound(providers: seq<string>, models: seq<ModelTable>) {
    forall m :: m in models ==> m.provider in providers && m.contextSize > 0 && m.outputSize > 0
  }

  /** The tables declare the aliases of the configurations. */
  ghost predicate DeclareAll(models: seq<ModelTable>, configs: seq<ModelConfig>) {
    forall alias :: Declares(models, alias) <==> Declared(configs, alias)
  }

  lemma TablesAreSound(configs: seq<ModelConfig>, providers: seq<string>, models: seq<ModelTable>)
    requires |configs| == |providers| == |models|
    requires forall j :: 0 <= j < |configs| ==> providers[j] == TomlKey(configs[j].providerName)
    requires forall j :: 0 <= j < |configs| ==> models[j] == TableOf(configs[j])
    ensures Sound(providers, models) && DeclareAll(models, configs)
  {
    forall m | m in models ensures m.provider in providers && m.contextSize > 0 && m.outputSize > 0 {
      var j :| 0 <= j < |models| && models[j] == m;
      assert providers[j] == m.provider;
    }
    forall alias ensures Declares(models, alias) <==> Declared(configs, alias) {
      DeclaresTables(configs, models, alias);
    }
  }

  /** A provider table and a model table per configuration, in order, with its names. */
  predicate Names(toml: Toml, configs: seq<ModelConfig>) {
    && |toml.models| == |toml.providers| == |configs|
    && forall j :: 0 <= j < |configs| ==>
         toml.models[j].alias == ModelKey(configs[j])
         && toml.providers[j] == toml.models[j].provider == ProviderKey(configs[j])
  }

  predicate Declares(models: seq<ModelTable>, alias: string) { exists m :: m in models && m.alias == alias }

  predicate Declared(configs: seq<ModelConfig>, alias: string) {
    exists c :: c in configs && TomlKey(c.modelRef) == alias
  }

  lemma DeclaresTables(configs: seq<ModelConfig>, models: seq<ModelTable>, alias: string)
    requires |models| == |configs| && forall j :: 0 <= j < |models| ==> models[j] == TableOf(configs[j])
    ensures Declares(models, alias) <==> Declared(configs, alias)
  {
    if m :| m in models && m.alias == alias {
      var j :| 0 <= j < |models| && models[j] == m;
      assert configs[j] in configs;
    }
    if c :| c in configs && TomlKey(c.modelRef) == alias {
      var j :| 0 <= j < |configs| && configs[j] == c;
      assert models[j] in models;
    }
  }

  // ---------------------------------------------------------------- when the default model is declared

  /** Some override's table has this alias. */
  predicate RoleDeclares(overrides: Overrides, alias: string) {
    exists k :: 0 <= k < |overrides| && overrides[k].1.Dict? && TomlKey(ModelAliasForRole(overrides[k].0)) == alias
  }

  lemma {:induction false} RoleConfigsDeclare(overrides: Overrides, p: Profile, alias: string)
    ensures Declared(RoleConfigs(overrides, p), alias) <==> RoleDeclares(overrides, alias)
  {
    if overrides != [] {
      var n := |overrides| - 1;
      var earlier, last := overrides[..n], overrides[n];
      RoleConfigsDeclare(earlier, p, alias);
      RoleDeclaresNext(overrides, alias);
      if last.1.Dict? {
        DeclaredNext(RoleConfigs(earlier, p), ConfigForRole(last.0, last.1, p), alias);
      }
    }
  }

  lemma RoleDeclaresNext(overrides: Overrides, alias: string)
    requires overrides != []
    ensures var n := |overrides| - 1;
      RoleDeclares(overrides, alias) <==>
        RoleDeclares(overrides[..n], alias)
          || (overrides[n].1.Dict? && TomlKey(ModelAliasForRole(overrides[n].0)) == alias)
  {
    var n := |overrides| - 1;
    var earlier := overrides[..n];
    assert overrides == earlier + [overrides[n]];
    if RoleDeclares(earlier, alias) {
      var k :| 0 <= k < n && earlier[k].1.Dict? && TomlKey(ModelAliasForRole(earlier[k].0)) == alias;
      assert overrides[k] == earlier[k];
    }
    if k :| 0 <= k < |overrides| && overrides[k].1.Dict? && TomlKey(ModelAliasForRole(overrides[k].0)) == alias {
      assert k < n ==> earlier[k] == overrides[k];
    }
  }

  lemma DeclaredNext(configs: seq<ModelConfig>, c: ModelConfig, alias: string)
    ensures Declared(configs + [c], alias) <==> Declared(configs, alias) || TomlKey(c.modelRef) == alias
  {
    assert c in configs + [c];
  }

  /** An alias of a role is never the reference of an override's own provider. */
  lemma AliasIsNoProviderRef(role: string, other: string, model: string)
    ensures TomlKey(ProviderName(role) + "/" + model) != ModelAliasForRole(other)
  {
    var ref := ProviderName(role) + "/" + model;
    var alias := ModelAliasForRole(other);
    assert ref[0] == ("dieaudit-" + role)[0] == 'd';
    assert TrimLeft(ref, IsSpace) == ref;
    var key := Strip(ref);
    assert key <= ref;
    assert alias[8] == ("dieaudit/" + other)[8] == '/';
    assert ref[8] == ("dieaudit-" + role)[8] == '-';
    assert "dieaudit"[7] == 't';
  }

  lemma RefHasText(p: Profile)
    ensures Strip(ProfileRef(p)) != ""
  {
    StripKeeps(p.provider, '/', p.model);
    assert p.provider + ['/'] + p.model == ProfileRef(p);
  }

  lemma TrimRightKeeps(s: string, c: char, t: string)
    requires !IsSpace(c)
    ensures s + [c] <= TrimRight(s + [c] + t, IsSpace)
  {
    TrimRightAfter(s + [c], t);
  }

  lemma {:induction false} StripKeeps(s: string, c: char, t: string)
    requires !IsSpace(c)
    ensures Strip(s + [c] + t) != ""
  {
    var all := s + [c] + t;
    if s != "" && IsSpace(s[0]) {
      StripKeeps(s[1..], c, t);
      assert all[1..] == s[1..] + [c] + t;
    } else {
      assert TrimLeft(all, IsSpace) == all;
      TrimRightKeeps(s, c, t);
    }
  }

  /** The default model names a declared table exactly when: with an effective override, some override role
      has the alias of the agent's role; without one, the profile's own table is declared under its
      unpadded reference, or some override role happens to have that alias. */
  lemma DefaultModelIsDeclaredExactlyWhen(t: Template, overrides: Overrides, p: Profile)
    ensures Declared(AllConfigs(t, overrides, p), ModelAliasForTemplate(t, overrides, p)) <==>
      if Effective(ModelOverride(t, overrides)) then RoleDeclares(overrides, ModelAliasForRole(AgentRole(t)))
      else
        (!HasRole(overrides, AgentRole(t)) && Strip(ProfileRef(p)) == ProfileRef(p))
        || RoleDeclares(overrides, ProfileRef(p))
  {
    var alias := ModelAliasForTemplate(t, overrides, p);
    RoleConfigsDeclare(overrides, p, alias);
    RefHasText(p);
    if !HasRole(overrides, AgentRole(t)) {
      var own := EffectiveModelConfig(t, overrides, p);
      DeclaredNext(RoleConfigs(overrides, p), own, alias);
      if Effective(ModelOverride(t, overrides)) {
        AliasIsNoProviderRef(AgentRole(t), AgentRole(t), own.rawModel);
      }
    } else {
      assert RoleConfigs(overrides, p) + [] == RoleConfigs(overrides, p);
    }
  }

  /** Overrides are keyed by role: none is reached through the template's name. */
  predicate KeyedByRole(t: Template, overrides: Overrides) {
    ModelOverride(t, overrides).Some? ==> HasRole(overrides, AgentRole(t))
  }

  /** With non-empty overrides keyed by role, a role without surrounding blanks and a profile without them,
      the default model is declared. */
  lemma DefaultModelIsDeclared(t: Template, overrides: Overrides, p: Profile)
    requires forall k :: 0 <= k < |overrides| && overrides[k].1.Dict? ==> !overrides[k].1.empty
    requires DistinctRoles(overrides) && KeyedByRole(t, overrides)
    requires Strip(AgentRole(t)) == AgentRole(t) && Strip(ProfileRef(p)) == ProfileRef(p)
    ensures Declared(AllConfigs(t, overrides, p), ModelAliasForTemplate(t, overrides, p))
  {
    DefaultModelIsDeclaredExactlyWhen(t, overrides, p);
    if HasRole(overrides, AgentRole(t)) {
      var k :| 0 <= k < |overrides| && overrides[k].0 == AgentRole(t) && overrides[k].1.Dict?;
      LookUpFinds(overrides, k);
      TrimmedAlias(AgentRole(t));
      assert RoleDeclares(overrides, ModelAliasForRole(AgentRole(t)));
    }
  }

  lemma {:induction false} LookUpFinds(overrides: Overrides, k: nat)
    requires DistinctRoles(overrides) && k < |overrides|
    ensures LookUp(overrides, overrides[k].0) == Some(overrides[k].1)
  {
    if k > 0 {
      assert overrides[0].0 != overrides[k].0;
      LookUpFinds(overrides[1..], k - 1);
    }
  }

  lemma TrimmedAlias(role: string)
    requires role != "" && Strip(role) == role
    ensures TomlKey(ModelAliasForRole(role)) == ModelAliasForRole(role)
  {
    var alias := ModelAliasForRole(role);
    var plain := "dieaudit/" + role;
    assert alias[0] == plain[0] == 'd';
    assert plain[|plain| - 1] == role[|role| - 1];
  }

  /** An override keyed by the template's name reaches the agent, yet no table carries the alias that
      `default_model` is given. */
  lemma NameKeyedOverrideIsUndeclared(p: Profile)
    ensures var t := Template("", "auditor", "kimi-a"); var overrides := [("a", Dict(false, "m", None, None))];
      !Declared(AllConfigs(t, overrides, p), ModelAliasForTemplate(t, overrides, p))
  {
    var t := Template("", "auditor", "kimi-a");
    var overrides: Overrides := [("a", Dict(false, "m", None, None))];
    assert Without("kimi-a", "kimi-") == "a" by {
      assert "kimi-a"[5..] == "a";
      assert Without("a", "kimi-") == "a";
    }
    assert ModelOverride(t, overrides) == Some(overrides[0].1);
    DefaultModelIsDeclaredExactlyWhen(t, overrides, p);
    ShorterAlias("a", "auditor");
  }

  lemma ShorterAlias(role: string, other: string)
    requires role != "" && Strip(role) == role && |role| < |other|
    ensures TomlKey(ModelAliasForRole(role)) != ModelAliasForRole(other)
  {
    TrimmedAlias(role);
    assert |ModelAliasForRole(role)| == 9 + |role| && |ModelAliasForRole(other)| == 9 + |other|;
  }

  // ---------------------------------------------------------------- when table names are distinct

  /** The names of a configuration's two tables. */
  function ModelKey(c: ModelConfig): string { TomlKey(c.modelRef) }

  function ProviderKey(c: ModelConfig): string { TomlKey(c.providerName) }

  /** The names of an override role's two tables. */
  function RoleModelKey(role: string): string { TomlKey(ModelAliasForRole(role)) }

  function RoleProviderKey(role: string): string { TomlKey(ProviderName(role)) }

  /** What of a role a table name shows. */
  function NormalRole(role: string): string { TrimRight(Dashed(role), IsSpace) }

  /** The roles whose override is a dictionary, in order. */
  function DictRoles(overrides: Overrides): seq<string> {
    if overrides == [] then []
    else
      var last := overrides[|overrides| - 1];
      DictRoles(overrides[..|overrides| - 1]) + (if last.1.Dict? then [last.0] else [])
  }

  lemma {:induction false} RoleConfigsAre(overrides: Overrides, p: Profile)
    ensures var configs, roles := RoleConfigs(overrides, p), DictRoles(overrides);
      |configs| == |roles| && forall k :: 0 <= k < |roles| ==>
        configs[k].modelRef == ModelAliasForRole(roles[k]) && configs[k].providerName == ProviderName(roles[k])
  {
    if overrides != [] {
      RoleConfigsAre(overrides[..|overrides| - 1], p);
    }
  }

  lemma {:induction false} TrimRightAfter(s: string, t: string)
    requires s != "" && !IsSpace(s[|s| - 1])
    ensures TrimRight(s + t, IsSpace) == s + TrimRight(t, IsSpace)
  {
    if t == "" {
      assert s + t == s;
    } else if IsSpace(t[|t| - 1]) {
      assert (s + t)[..|s + t| - 1] == s + t[..|t| - 1];
      TrimRightAfter(s, t[..|t| - 1]);
    }
  }

  /** The name of a role's table: the prefix and what the table shows of the role. */
  lemma NamedTable(prefix: string, role: string)
    requires prefix == "dieaudit/" || prefix == "dieaudit-"
    ensures TomlKey(Dashed(prefix + role)) == prefix + NormalRole(role)
  {
    var name := Dashed(prefix + role);
    assert forall k :: 0 <= k < |prefix| ==> prefix[k] != '_' && (prefix + role)[k] == prefix[k];
    assert name == prefix + Dashed(role);
    assert name[0] == 'd';
    TrimRightAfter(prefix, Dashed(role));
  }

  /** Two roles get tables of the same names exactly when they agree up to '_' for '-' and trailing blanks. */
  lemma TablesAgreeExactlyWhen(a: string, b: string)
    ensures RoleModelKey(a) == RoleModelKey(b) <==> NormalRole(a) == NormalRole(b)
    ensures RoleProviderKey(a) == RoleProviderKey(b) <==> NormalRole(a) == NormalRole(b)
  {
    var slash, dash := "dieaudit/", "dieaudit-";
    NamedTable(slash, a);
    NamedTable(slash, b);
    NamedTable(dash, a);
    NamedTable(dash, b);
    CommonPrefix(slash, NormalRole(a), NormalRole(b));
    CommonPrefix(dash, NormalRole(a), NormalRole(b));
  }

  lemma CommonPrefix(prefix: string, a: string, b: string)
    ensures prefix + a == prefix + b <==> a == b
  {
    assert (prefix + a)[|prefix|..] == a && (prefix + b)[|prefix|..] == b;
  }

  lemma RoleTablesAreDistinctExactlyWhen(overrides: Overrides, p: Profile)
    ensures DistinctKeys(RoleConfigs(overrides, p), ModelKey) <==> DistinctKeys(DictRoles(overrides), NormalRole)
    ensures DistinctKeys(RoleConfigs(overrides, p), ProviderKey) <==> DistinctKeys(DictRoles(overrides), NormalRole)
  {
    var configs, roles := RoleConfigs(overrides, p), DictRoles(overrides);
    RoleConfigsAre(overrides, p);
    forall i, j | 0 <= i < j < |roles|
      ensures ModelKey(configs[i]) == ModelKey(configs[j]) <==> NormalRole(roles[i]) == NormalRole(roles[j])
      ensures ProviderKey(configs[i]) == ProviderKey(configs[j]) <==> NormalRole(roles[i]) == NormalRole(roles[j])
    {
      TablesAgreeExactlyWhen(roles[i], roles[j]);
    }
  }

  /** The configuration that the agent gets beside those of the overrides, if its role has none. */
  function OwnConfig(t: Template, overrides: Overrides, p: Profile): seq<ModelConfig> {
    if HasRole(overrides, AgentRole(t)) then [] else [EffectiveModelConfig(t, overrides, p)]
  }

  /** No two tables of the document have the same name if and only if no two override roles agree up to '_'
      for '-' and trailing blanks, and the agent's own tables, if it has any, are named like none of theirs. */
  lemma TableNamesAreDistinctExactlyWhen(t: Template, overrides: Overrides, p: Profile)
    ensures
      DistinctKeys(AllConfigs(t, overrides, p), ModelKey) && DistinctKeys(AllConfigs(t, overrides, p), ProviderKey)
      <==>
      && DistinctKeys(DictRoles(overrides), NormalRole)
      && forall own, role :: own in OwnConfig(t, overrides, p) && role in DictRoles(overrides) ==>
          ModelKey(own) != RoleModelKey(role) && ProviderKey(own) != RoleProviderKey(role)
  {
    var roles, configs, own := DictRoles(overrides), RoleConfigs(overrides, p), OwnConfig(t, overrides, p);
    RoleTablesAreDistinctExactlyWhen(overrides, p);
    RoleConfigsAre(overrides, p);
    if own == [] {
      assert configs + own == configs;
    } else {
      DistinctWithLast(configs, own[0], ModelKey);
      DistinctWithLast(configs, own[0], ProviderKey);
      OwnKey(configs, roles, own[0]);
      assert configs + own == configs + [own[0]];
    }
  }

  /** Whether the own configuration is named like one of the overrides', seen from the roles. */
  lemma OwnKey(configs: seq<ModelConfig>, roles: seq<string>, own: ModelConfig)
    requires |configs| == |roles| && forall k :: 0 <= k < |roles| ==>
      configs[k].modelRef == ModelAliasForRole(roles[k]) && configs[k].providerName == ProviderName(roles[k])
    ensures ModelKey(own) in Keys(configs, ModelKey) <==>
      exists role :: role in roles && ModelKey(own) == RoleModelKey(role)
    ensures ProviderKey(own) in Keys(configs, ProviderKey) <==>
      exists role :: role in roles && ProviderKey(own) == RoleProviderKey(role)
  {
    forall k | 0 <= k < |roles|
      ensures ModelKey(configs[k]) == RoleModelKey(roles[k]) && ProviderKey(configs[k]) == RoleProviderKey(roles[k])
    {
    }
    KeyAmong(configs, roles, ModelKey, RoleModelKey, own);
    KeyAmong(configs, roles, ProviderKey, RoleProviderKey, own);
  }

  lemma KeyAmong(
    configs: seq<ModelConfig>, roles: seq<string>, key: ModelConfig -> string, name: string -> string, own: ModelConfig)
    requires |configs| == |roles| && forall k :: 0 <= k < |roles| ==> key(configs[k]) == name(roles[k])
    ensures key(own) in Keys(configs, key) <==> exists role :: role in roles && key(own) == name(role)
  {
    if key(own) in Keys(configs, key) {
      var c :| c in configs && key(c) == key(own);
      var k :| 0 <= k < |configs| && configs[k] == c;
      assert roles[k] in roles;
    }
    if role :| role in roles && key(own) == name(role) {
      var k :| 0 <= k < |roles| && roles[k] == role;
      assert configs[k] in configs;
    }
  }

  /** Two roles that differ in '_' and '-' only, such as "a_b" and "a-b", declare tables of the same name. */
  lemma DashedRolesCollide(x: string, y: string, a: Override, b: Override, t: Template, p: Profile)
    requires a.Dict? && b.Dict? && Dashed(x) == Dashed(y)
    ensures !DistinctKeys(AllConfigs(t, [(x, a), (y, b)], p), ModelKey)
  {
    var overrides: Overrides := [(x, a), (y, b)];
    TwoRoles(x, y, a, b);
    RoleConfigsAre(overrides, p);
    TablesAgreeExactlyWhen(x, y);
    var configs := AllConfigs(t, overrides, p);
    assert configs[0] == RoleConfigs(overrides, p)[0] && configs[1] == RoleConfigs(overrides, p)[1];
    assert ModelKey(configs[0]) == ModelKey(configs[1]);
  }

  lemma TwoRoles(x: string, y: string, a: Override, b: Override)
    requires a.Dict? && b.Dict?
    ensures DictRoles([(x, a), (y, b)]) == [x, y]
  {
    var overrides: Overrides := [(x, a), (y, b)];
    assert overrides[..1] == [(x, a)] && [(x, a)][..0] == [];
    assert DictRoles([(x, a)]) == [x];
  }
}
