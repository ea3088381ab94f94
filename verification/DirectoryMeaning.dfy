// What a migrated configuration directory resolves to, setting by setting, in terms of the
// files that were in it (src/migrate_v1_to_v2.rs).
module DirectoryMeaning {
  import opened Wrappers
  import opened Yaml
  import opened ConfigLua
  import opened LuaText
  import opened Translation
  import opened Migration

  type Files = map<Path, string>
  type Parser = string -> Option<Value>

  // ---------- what a file says ----------

  // The parsed contents; nothing if the file is missing.
  function Says(files: Files, parse: Parser, path: Path): Option<Value> {
    if path in files then parse(files[path]) else None
  }

  ghost predicate Readable(files: Files, parse: Parser, path: Path) {
    path in files ==> parse(files[path]).Some?
  }

  // The mapping has `x` under the string `key`.
  ghost predicate HasAt(v: Option<Value>, key: string, x: Value) {
    v.Some? && v.value.Mapping? && Entry(Str(key), x) in v.value.entries
  }

  ghost function At(v: Option<Value>, key: string): (r: Option<Value>)
    ensures r.Some? ==> HasAt(v, key, r.value)
    ensures r.None? ==> forall x :: !HasAt(v, key, x)
  {
    if x :| HasAt(v, key, x) then Some(x) else None
  }

  // An overlay that is there but is no mapping replaces everything in the base.
  function Heard(base: Option<Value>, overlay: Option<Value>): Option<Value> {
    if overlay.Some? && !overlay.value.Mapping? then None else base
  }

  // The overlay's word if it has one, otherwise the base's.
  ghost function Layered(base: Option<Value>, overlay: Option<Value>, key: string): Option<Value> {
    if At(overlay, key).Some? then At(overlay, key) else At(Heard(base, overlay), key)
  }

  function TextOf(v: Option<Value>): Option<string> {
    if v.Some? && v.value.Str? then Some(v.value.text) else None
  }

  // An integer of 64 bits.
  function IntOf(v: Option<Value>): Option<int> {
    if v.Some? && v.value.Integer? && -0x8000_0000_0000_0000 <= v.value.number < 0x8000_0000_0000_0000
    then Some(v.value.number) else None
  }

  // ---------- the settings of a directory ----------

  predicate Known(agent: string) {
    agent == "claude-code" || agent == "pi"
  }

  ghost predicate AllReadable(files: Files, parse: Parser) {
    && Readable(files, parse, "config.yaml") && Readable(files, parse, "config.local.yaml")
    && forall agent :: Known(agent) ==>
         && Readable(files, parse, "agents/" + agent + "/config.yaml")
         && Readable(files, parse, "agents/" + agent + "/config.local.yaml")
         && Readable(files, parse, "agents/" + agent + "/tokens.yaml")
         && Readable(files, parse, "agents/" + agent + "/tokens.local.yaml")
  }

  ghost function SharedSetting(files: Files, parse: Parser, key: string): Option<Value> {
    Layered(Says(files, parse, "config.yaml"), Says(files, parse, "config.local.yaml"), key)
  }

  ghost function AgentSetting(files: Files, parse: Parser, agent: string, key: string): Option<Value> {
    if !Known(agent) then None
    else Layered(Says(files, parse, "agents/" + agent + "/config.yaml"),
                 Says(files, parse, "agents/" + agent + "/config.local.yaml"), key)
  }

  // The two files' `models` are layered as the files are.
  ghost function ModelSetting(files: Files, parse: Parser, agent: string, phase: string): Option<Value> {
    if !Known(agent) then None
    else
      var base, overlay := Says(files, parse, "agents/" + agent + "/config.yaml"),
                           Says(files, parse, "agents/" + agent + "/config.local.yaml");
      Layered(At(Heard(base, overlay), "models"), At(overlay, "models"), phase)
  }

  ghost function TokenSetting(files: Files, parse: Parser, agent: string, name: string): Option<Value> {
    if !Known(agent) then None
    else Layered(Says(files, parse, "agents/" + agent + "/tokens.yaml"),
                 Says(files, parse, "agents/" + agent + "/tokens.local.yaml"), name)
  }

  // Every setting is the one its files give, or the default; settings without a file are the defaults.
  ghost predicate FromFiles(r: Accumulator, seed: Accumulator, files: Files, parse: Parser) {
    && r.agent == OrElse(TextOf(SharedSetting(files, parse, "agent")), Some(seed.agent)).value
    && r.headroom == OrElse(IntOf(SharedSetting(files, parse, "headroom")), Some(seed.headroom)).value
    && (forall agent, phase {:trigger ModelOf(r, agent, phase)} ::
          ModelOf(r, agent, phase)
          == OrElse(TextOf(ModelSetting(files, parse, agent, phase)), ModelOf(seed, agent, phase)))
    && (forall agent {:trigger ProviderOf(r, agent)} ::
          ProviderOf(r, agent)
          == OrElse(TextOf(AgentSetting(files, parse, agent, "provider")), ProviderOf(seed, agent)))
    && (forall agent, name {:trigger TokenOf(r, agent, name)} ::
          TokenOf(r, agent, name)
          == OrElse(TextOf(TokenSetting(files, parse, agent, name)), TokenOf(seed, agent, name)))
    && (forall agent {:trigger ThinkingOf(r, agent)} :: ThinkingOf(r, agent) == ThinkingOf(seed, agent))
    && (forall agent {:trigger ParamsOf(r, agent)} :: ParamsOf(r, agent) == ParamsOf(seed, agent))
    && (forall phase {:trigger GetOr(r.appends, phase, [])} ::
          GetOr(r.appends, phase, []) == GetOr(seed.appends, phase, []))
  }

  // ---------- the merge, as layers ----------

  ghost predicate OptWellKeyed(v: Option<Value>) {
    v.Some? ==> WellKeyed(v.value)
  }

  lemma AtIsChild(v: Option<Value>, key: string)
    requires OptWellKeyed(v)
    ensures At(v, key) == if v.Some? then Child(v.value, Str(key)) else None
  {
    if v.Some? && v.value.Mapping? {
      var entries := v.value.entries;
      FindNone(entries, Str(key));
      if At(v, key).Some? {
        var i :| 0 <= i < |entries| && entries[i] == Entry(Str(key), At(v, key).value);
        FindAt(entries, i);
      }
      if HasKey(entries, Str(key)) { KeyHasValue(v, key); }
    }
  }

  lemma KeyHasValue(v: Option<Value>, key: string)
    requires v.Some? && v.value.Mapping? && HasKey(v.value.entries, Str(key))
    ensures At(v, key).Some?
  {
    var entries := v.value.entries;
    var i :| 0 <= i < |entries| && entries[i].key == Str(key);
    assert entries[i] == Entry(Str(key), entries[i].value);
    assert HasAt(v, key, entries[i].value);
  }

  lemma AtWellKeyed(v: Option<Value>, key: string)
    requires OptWellKeyed(v)
    ensures OptWellKeyed(At(v, key))
  {
    AtIsChild(v, key);
    if At(v, key).Some? {
      ChildWellKeyed(v.value, Str(key));
    }
  }

  // What is found in a merge of two files.
  lemma MergedAt(base: Option<Value>, overlay: Option<Value>, key: string)
    requires OptWellKeyed(base) && OptWellKeyed(overlay)
    ensures OptWellKeyed(MergedChild(base, overlay))
    ensures At(MergedChild(base, overlay), key) == MergedChild(At(Heard(base, overlay), key), At(overlay, key))
  {
    hide At, WellKeyed, Merge;
    var merged := MergedChild(base, overlay);
    if base.Some? && overlay.Some? {
      MergeWellKeyed(base.value, overlay.value);
    }
    AtIsChild(base, key);
    AtIsChild(overlay, key);
    AtIsChild(merged, key);
    NothingAt(key);
    if base.Some? && overlay.Some? && overlay.value.Mapping? {
      if base.value.Mapping? {
        MergeByKey(base.value, overlay.value, Str(key));
      } else {
        MergeReplaces(base.value, overlay.value);
      }
    } else if base.Some? && overlay.Some? {
      MergeReplaces(base.value, overlay.value);
    }
  }

  lemma NothingAt(key: string)
    ensures At(None, key) == None
  {
  }

  lemma MergeReplaces(base: Value, overlay: Value)
    requires !(base.Mapping? && overlay.Mapping?)
    ensures Merge(base, overlay) == overlay
  {
  }

  // For a text or a number the merge is the overlay's word or the base's.
  lemma MergedLeaf(base: Option<Value>, overlay: Option<Value>, key: string)
    requires OptWellKeyed(base) && OptWellKeyed(overlay)
    ensures TextOf(At(MergedChild(base, overlay), key)) == TextOf(Layered(base, overlay, key))
    ensures IntOf(At(MergedChild(base, overlay), key)) == IntOf(Layered(base, overlay, key))
  {
    hide At, WellKeyed;
    MergedAt(base, overlay, key);
  }

  // ---------- what the migration reads ----------

  lemma MergedFiles(files: Files, parse: Parser, base: Path, overlay: Path)
    ensures ReadMerged(files, parse, base, overlay).Merged? <==>
      Readable(files, parse, base) && Readable(files, parse, overlay)
    ensures ReadMerged(files, parse, base, overlay).Merged? ==>
      ReadMerged(files, parse, base, overlay).value
      == MergedChild(Says(files, parse, base), Says(files, parse, overlay))
  {
    hide Merge;
  }

  // The paths of an agent's files, written out.
  lemma AgentPaths(agent: string)
    ensures AgentFile(agent, "config.yaml") == "agents/" + agent + "/config.yaml"
    ensures AgentFile(agent, "config.local.yaml") == "agents/" + agent + "/config.local.yaml"
    ensures AgentFile(agent, "tokens.yaml") == "agents/" + agent + "/tokens.yaml"
    ensures AgentFile(agent, "tokens.local.yaml") == "agents/" + agent + "/tokens.local.yaml"
  {
    PathJoined("agents/" + agent, "/", "config.yaml");
    PathJoined("agents/" + agent, "/", "config.local.yaml");
    PathJoined("agents/" + agent, "/", "tokens.yaml");
    PathJoined("agents/" + agent, "/", "tokens.local.yaml");
    assert "/" + "config.yaml" == "/config.yaml" && "/" + "config.local.yaml" == "/config.local.yaml";
    assert "/" + "tokens.yaml" == "/tokens.yaml" && "/" + "tokens.local.yaml" == "/tokens.local.yaml";
  }

  lemma AgentRead(files: Files, parse: Parser, agent: string)
    ensures ReadAgent(files, parse, agent).Some? <==>
      && Readable(files, parse, "agents/" + agent + "/config.yaml")
      && Readable(files, parse, "agents/" + agent + "/config.local.yaml")
      && Readable(files, parse, "agents/" + agent + "/tokens.yaml")
      && Readable(files, parse, "agents/" + agent + "/tokens.local.yaml")
    ensures ReadAgent(files, parse, agent).Some? ==>
      ReadAgent(files, parse, agent).value
      == AgentYaml(MergedChild(Says(files, parse, "agents/" + agent + "/config.yaml"),
                               Says(files, parse, "agents/" + agent + "/config.local.yaml")),
                   MergedChild(Says(files, parse, "agents/" + agent + "/tokens.yaml"),
                               Says(files, parse, "agents/" + agent + "/tokens.local.yaml")))
  {
    hide ReadMerged, Readable, Says, MergedChild;
    AgentPaths(agent);
    MergedFiles(files, parse, AgentFile(agent, "config.yaml"), AgentFile(agent, "config.local.yaml"));
    MergedFiles(files, parse, AgentFile(agent, "tokens.yaml"), AgentFile(agent, "tokens.local.yaml"));
  }

  // The migration is refused if and only if one of these files does not parse.
  lemma LegacyRead(files: Files, parse: Parser)
    ensures ReadLegacy(files, parse).Some? <==> AllReadable(files, parse)
    ensures ReadLegacy(files, parse).Some? ==>
      ReadLegacy(files, parse).value.shared
      == MergedChild(Says(files, parse, "config.yaml"), Says(files, parse, "config.local.yaml"))
    ensures ReadLegacy(files, parse).Some? ==> forall agent :: Known(agent) ==>
      ReadAgent(files, parse, agent) == Some(YamlOf(ReadLegacy(files, parse).value, agent))
  {
    hide ReadMerged, ReadAgent, Readable, Says, MergedChild;
    MergedFiles(files, parse, "config.yaml", "config.local.yaml");
    assert |"pi"| == 2 && |"claude-code"| == 11;
    AgentRead(files, parse, "claude-code");
    AgentRead(files, parse, "pi");
  }

  lemma SaysOk(files: Files, parse: Parser, path: Path)
    requires SoundParser(parse)
    ensures OptWellKeyed(Says(files, parse, path))
  {
  }

  lemma SharedFromFiles(files: Files, parse: Parser, key: string)
    requires SoundParser(parse) && ReadLegacy(files, parse).Some?
    ensures var shared := ReadLegacy(files, parse).value.shared;
      && StrAt(shared, key) == TextOf(SharedSetting(files, parse, key))
      && IntAt(shared, key) == IntOf(SharedSetting(files, parse, key))
  {
    hide ReadLegacy, Says, MergedChild, At, Heard, Layered;
    LegacyRead(files, parse);
    SaysOk(files, parse, "config.yaml");
    SaysOk(files, parse, "config.local.yaml");
    ReadHere(Says(files, parse, "config.yaml"), Says(files, parse, "config.local.yaml"), key);
  }

  // The generator's lookups in a merge.
  lemma ReadHere(base: Option<Value>, overlay: Option<Value>, key: string)
    requires OptWellKeyed(base) && OptWellKeyed(overlay)
    ensures StrAt(MergedChild(base, overlay), key) == TextOf(Layered(base, overlay, key))
    ensures IntAt(MergedChild(base, overlay), key) == IntOf(Layered(base, overlay, key))
  {
    hide MergedChild, At, WellKeyed, Layered;
    MergedAt(base, overlay, key);
    MergedLeaf(base, overlay, key);
    AtIsChild(MergedChild(base, overlay), key);
  }

  // The same, one level down.
  lemma ModelHere(base: Option<Value>, overlay: Option<Value>, phase: string)
    requires OptWellKeyed(base) && OptWellKeyed(overlay)
    ensures StrAt(ModelsOf(MergedChild(base, overlay)), phase)
         == TextOf(Layered(At(Heard(base, overlay), "models"), At(overlay, "models"), phase))
  {
    hide MergedChild, At, WellKeyed, Layered, StrAt;
    var models, local := At(Heard(base, overlay), "models"), At(overlay, "models");
    MergedAt(base, overlay, "models");
    AtIsChild(MergedChild(base, overlay), "models");
    AtWellKeyed(Heard(base, overlay), "models");
    AtWellKeyed(overlay, "models");
    ReadHere(models, local, phase);
  }

  lemma AgentFromFiles(files: Files, parse: Parser, agent: string, key: string)
    requires SoundParser(parse) && ReadLegacy(files, parse).Some?
    ensures var yaml := YamlOf(ReadLegacy(files, parse).value, agent);
      && StrAt(ModelsOf(yaml.config), key) == TextOf(ModelSetting(files, parse, agent, key))
      && StrAt(yaml.config, key) == TextOf(AgentSetting(files, parse, agent, key))
      && StrAt(yaml.tokens, key) == TextOf(TokenSetting(files, parse, agent, key))
  {
    hide ReadLegacy, ReadAgent, Says, MergedChild, At, Heard, Layered, StrAt, ModelsOf, AllReadable;
    LegacyRead(files, parse);
    if Known(agent) {
      AgentRead(files, parse, agent);
      var base, overlay := Says(files, parse, "agents/" + agent + "/config.yaml"),
                           Says(files, parse, "agents/" + agent + "/config.local.yaml");
      var tokens, local := Says(files, parse, "agents/" + agent + "/tokens.yaml"),
                           Says(files, parse, "agents/" + agent + "/tokens.local.yaml");
      SaysOk(files, parse, "agents/" + agent + "/config.yaml");
      SaysOk(files, parse, "agents/" + agent + "/config.local.yaml");
      SaysOk(files, parse, "agents/" + agent + "/tokens.yaml");
      SaysOk(files, parse, "agents/" + agent + "/tokens.local.yaml");
      ReadHere(base, overlay, key);
      ModelHere(base, overlay, key);
      ReadHere(tokens, local, key);
    } else {
      NoYamlHere(key);
    }
  }

  lemma NoYamlHere(key: string)
    ensures StrAt(None, key) == None && StrAt(ModelsOf(None), key) == None
  {
  }

  lemma OverridesAreFromFiles(r: Accumulator, seed: Accumulator, files: Files, parse: Parser)
    requires SoundParser(parse) && ReadLegacy(files, parse).Some?
    requires Overrides(r, seed, ReadLegacy(files, parse).value)
    ensures FromFiles(r, seed, files, parse)
  {
    hide ReadLegacy, StrAt, IntAt, ModelsOf, YamlOf, TextOf, IntOf, SharedSetting, AgentSetting, ModelSetting,
         TokenSetting, ModelOf, ProviderOf, TokenOf, ThinkingOf, ParamsOf, SoundParser;
    SharedFromFiles(files, parse, "agent");
    SharedFromFiles(files, parse, "headroom");
    forall agent, key
      ensures StrAt(ModelsOf(YamlOf(ReadLegacy(files, parse).value, agent).config), key)
           == TextOf(ModelSetting(files, parse, agent, key))
      ensures StrAt(YamlOf(ReadLegacy(files, parse).value, agent).config, key)
           == TextOf(AgentSetting(files, parse, agent, key))
      ensures StrAt(YamlOf(ReadLegacy(files, parse).value, agent).tokens, key)
           == TextOf(TokenSetting(files, parse, agent, key))
    {
      AgentFromFiles(files, parse, agent, key);
    }
  }

  // A directory with legacy files and no `config.lua`: once migrated it resolves, under every plan, as the
  // defaults overridden by what its files say, and it fails to exactly where they give a negative headroom.
  // If one of the files does not parse, nothing changes.
  lemma DirectoryTranslated(fs: Fs, embedded: seq<Path>, parse: Parser, seed: Accumulator)
    requires EmbeddedOk(embedded) && SoundParser(parse)
    requires "config.lua" !in fs.files && exists p :: p in fs.files && IsLegacy(embedded, p)
    ensures var t := Migrated(fs, embedded, parse);
      if !AllReadable(fs.files, parse) then t == fs
      else
        && "config.lua" in t.files && ReadProgram(t.files["config.lua"]).Some?
        && ResolvesFrom(ReadProgram(t.files["config.lua"]), fs.files, parse, seed)
  {
    hide ReadLegacy, AllReadable, LegacyFiles, Pruned, Removed, ReadProgram, GeneratedText, Translated, ResolvesFrom;
    hide IsLegacy;
    assert LUA == "config.lua";
    NoneLeft(fs.files, embedded);
    LegacyRead(fs.files, parse);
    if AllReadable(fs.files, parse) {
      YamlTranslated(fs, embedded, parse, seed);
      TranslatedResolves(ReadProgram(Migrated(fs, embedded, parse).files[LUA]), fs.files, parse, seed);
    }
  }

  // What the script makes of the defaults, alone and under any plan.
  ghost predicate ResolvesFrom(script: Option<seq<Stmt>>, files: Files, parse: Parser, seed: Accumulator) {
    var r, headroom := Resolved(seed, script, None), IntOf(SharedSetting(files, parse, "headroom"));
    && (r.None? <==> headroom.Some? && headroom.value < 0)
    && (r.Some? ==> FromFiles(r.value, seed, files, parse))
    && forall plan :: Resolved(seed, script, plan) == if r.None? then None else Resolved(r.value, None, plan)
  }

  lemma TranslatedResolves(script: Option<seq<Stmt>>, files: Files, parse: Parser, seed: Accumulator)
    requires SoundParser(parse) && ReadLegacy(files, parse).Some?
    requires Translated(script, ReadLegacy(files, parse).value, seed)
    ensures ResolvesFrom(script, files, parse, seed)
  {
    hide ReadLegacy, Overrides, FromFiles, Resolved, SharedSetting, IntAt, IntOf;
    SharedFromFiles(files, parse, "headroom");
    var r := Resolved(seed, script, None);
    if r.Some? {
      OverridesAreFromFiles(r.value, seed, files, parse);
    }
  }

  lemma PathJoined(a: string, b: string, c: string)
    ensures a + b + c == a + (b + c)
  {
  }
}
