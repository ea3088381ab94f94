// The YAML to Lua generator of src/migrate_v1_to_v2.rs, and what the generated script means
// to the configuration layer that runs it.
module Translation {
  import opened Wrappers
  import opened Ordering
  import opened Yaml
  import opened ConfigLua
  import opened LuaText

  const KNOWN_AGENTS := ["claude-code", "pi"]

  const I64_LIMIT: int := 0x8000_0000_0000_0000

  // The merged YAML files of one agent, where present.
  datatype AgentYaml = AgentYaml(config: Option<Value>, tokens: Option<Value>)

  // The merged YAML files of a configuration directory; `agents` is parallel to KNOWN_AGENTS.
  datatype Legacy = Legacy(shared: Option<Value>, agents: seq<AgentYaml>)

  // ---------- lookups with the types the generator honours ----------

  function StrAt(v: Option<Value>, key: string): Option<string> {
    if v.None? then None
    else match Child(v.value, Str(key)) case Some(Str(t)) => Some(t) case _ => None
  }

  // `as_i64`
  function IntAt(v: Option<Value>, key: string): Option<int> {
    if v.None? then None
    else match Child(v.value, Str(key))
      case Some(Integer(n)) => if -I64_LIMIT <= n < I64_LIMIT then Some(n) else None
      case _ => None
  }

  function ModelsOf(config: Option<Value>): Option<Value> {
    if config.None? then None else Child(config.value, Str("models"))
  }

  // The string-keyed entries, collected into an ordered map.
  function StrMap(entries: seq<Entry>): map<string, Value> {
    if entries == [] then map[]
    else
      var last, before := entries[|entries| - 1], StrMap(entries[..|entries| - 1]);
      match last.key case Str(k) => before[k := last.value] case _ => before
  }

  function EntriesOf(v: Option<Value>): seq<Entry> {
    if v.Some? && v.value.Mapping? then v.value.entries else []
  }

  // ---------- the generated items ----------

  datatype Kind = Models | Tokens

  function Setting(kind: Kind, agent: string, name: string, text: string): Stmt {
    if kind.Models? then SetModelFor(agent, name, text) else SetToken(agent, name, text)
  }

  function SettingItem(kind: Kind, agent: string, m: map<string, Value>, name: string): seq<Item> {
    if name in m && m[name].Str? then [Code(Setting(kind, agent, name, m[name].text))] else []
  }

  function Settings(kind: Kind, agent: string, m: map<string, Value>, names: seq<string>): seq<Item> {
    if names == [] then []
    else Settings(kind, agent, m, names[..|names| - 1]) + SettingItem(kind, agent, m, names[|names| - 1])
  }

  predicate IsLeast(n: string, names: set<string>) {
    n in names && forall m :: m in names && m != n ==> NameLess()(n, m)
  }

  lemma LeastName(names: set<string>)
    requires names != {}
    ensures exists n :: IsLeast(n, names)
  {
    NameOrders();
    var n := LeastExists(NameLess(), names);
    assert IsLeast(n, names);
  }

  // The iteration order of an ordered map.
  ghost function SortedNames(names: set<string>): seq<string> {
    if names == {} then []
    else
      LeastName(names);
      var n :| IsLeast(n, names);
      [n] + SortedNames(names - {n})
  }

  ghost function AllSettings(kind: Kind, agent: string, entries: seq<Entry>): seq<Item> {
    Settings(kind, agent, StrMap(entries), SortedNames(StrMap(entries).Keys))
  }

  function ProviderItems(agent: string, config: Option<Value>): seq<Item> {
    match StrAt(config, "provider") case Some(p) => [Code(SetProviderFor(agent, p))] case None => []
  }

  ghost function AgentItems(agent: string, yaml: AgentYaml): seq<Item> {
    if yaml.config.None? && yaml.tokens.None? then []
    else
      [Blank, Comment(" Agent: " + agent)]
      + AllSettings(Models, agent, EntriesOf(ModelsOf(yaml.config)))
      + ProviderItems(agent, yaml.config)
      + AllSettings(Tokens, agent, EntriesOf(yaml.tokens))
  }

  function SharedItems(shared: Option<Value>): seq<Item> {
    (match StrAt(shared, "agent") case Some(a) => [Blank, Code(SetAgent(a))] case None => [])
    + (match IntAt(shared, "headroom") case Some(n) => [Code(SetHeadroom(n))] case None => [])
  }

  // In pieces, as the version marker is: each line is shown to hold no line break.
  const HEADER_1 := " Auto-generated by ravel-lite " + "v1\U{2192}v2 migration."
  const HEADER_2 := " The legacy config.yaml " + "/ agents/<name>/config.yaml " + "/ tokens.yaml"
  const HEADER_3 := " files have been translated " + "into this Lua surface " + "and removed."
  const HEADER_4 := " See `ravel-lite reference " + "config-and-prompts` for " + "the full API."

  const HEADER: seq<Item> :=
    [Comment(HEADER_1), Comment(HEADER_2), Comment(HEADER_3), Comment(HEADER_4), Blank, Code(WriteOther)]

  ghost function AgentsItems(agents: seq<AgentYaml>, n: nat): seq<Item>
    requires n <= |agents| == |KNOWN_AGENTS|
  {
    if n == 0 then [] else AgentsItems(agents, n - 1) + AgentItems(KNOWN_AGENTS[n - 1], agents[n - 1])
  }

  ghost function Items(legacy: Legacy): seq<Item>
    requires |legacy.agents| == |KNOWN_AGENTS|
  {
    HEADER + SharedItems(legacy.shared) + AgentsItems(legacy.agents, |KNOWN_AGENTS|)
  }

  // ---------- well-formed items ----------

  lemma {:induction false} RenderConcat(a: seq<Item>, b: seq<Item>)
    requires ItemsOk(a) && ItemsOk(b)
    ensures ItemsOk(a + b) && Render(a + b) == Render(a) + Render(b)
  {
    hide RenderItem, ItemOk;
    if a == [] {
      assert a + b == b;
    } else {
      assert (a + b)[1..] == a[1..] + b;
      RenderConcat(a[1..], b);
    }
  }

  lemma StatementsStep(items: seq<Item>, item: Item, rest: seq<Item>)
    requires items == [item] + rest
    ensures Statements(items) == (if item.Code? then [item.stmt] else []) + Statements(rest)
  {
    assert items[1..] == rest;
  }

  lemma NoStatements()
    ensures Statements([]) == []
  {
  }

  lemma {:induction false} StatementsConcat(a: seq<Item>, b: seq<Item>)
    ensures Statements(a + b) == Statements(a) + Statements(b)
  {
    hide Statements;
    if a == [] {
      NoStatements();
      assert a + b == b;
    } else {
      var item, rest := a[0], a[1..];
      StatementsConcat(rest, b);
      assert a == [item] + rest;
      assert a + b == [item] + (rest + b);
      StatementsStep(a, item, rest);
      StatementsStep(a + b, item, rest + b);
      var one := if item.Code? then [item.stmt] else [];
      assert one + (Statements(rest) + Statements(b)) == one + Statements(rest) + Statements(b);
    }
  }

  lemma {:induction false} SettingsOk(kind: Kind, agent: string, m: map<string, Value>, names: seq<string>)
    ensures ItemsOk(Settings(kind, agent, m, names))
  {
    if names != [] {
      SettingsOk(kind, agent, m, names[..|names| - 1]);
    }
  }

  lemma AgentItemsOk(agent: string, yaml: AgentYaml)
    requires OneLine(agent)
    ensures ItemsOk(AgentItems(agent, yaml))
  {
    hide StrMap, SortedNames, EntriesOf, ModelsOf, Settings, StrAt;
    SettingsOk(Models, agent, StrMap(EntriesOf(ModelsOf(yaml.config))),
      SortedNames(StrMap(EntriesOf(ModelsOf(yaml.config))).Keys));
    SettingsOk(Tokens, agent, StrMap(EntriesOf(yaml.tokens)), SortedNames(StrMap(EntriesOf(yaml.tokens)).Keys));
    assert ItemOk(Comment(" Agent: " + agent));
  }

  lemma {:induction false} AgentsItemsOk(agents: seq<AgentYaml>, n: nat)
    requires n <= |agents| == |KNOWN_AGENTS|
    ensures ItemsOk(AgentsItems(agents, n))
  {
    hide AgentItems;
    if n > 0 {
      AgentsItemsOk(agents, n - 1);
      AgentItemsOk(KNOWN_AGENTS[n - 1], agents[n - 1]);
    }
  }

  lemma HeaderLine1()
    ensures IsComment(HEADER_1)
  {
    assert OneLine(" Auto-generated by ravel-lite ") && OneLine("v1\U{2192}v2 migration.");
  }

  lemma HeaderLine2()
    ensures IsComment(HEADER_2)
  {
    assert OneLine(" The legacy config.yaml ") && OneLine("/ agents/<name>/config.yaml ") && OneLine("/ tokens.yaml");
  }

  lemma HeaderLine3()
    ensures IsComment(HEADER_3)
  {
    assert OneLine(" files have been translated ") && OneLine("into this Lua surface ") && OneLine("and removed.");
  }

  lemma HeaderLine4()
    ensures IsComment(HEADER_4)
  {
    assert OneLine(" See `ravel-lite reference ") && OneLine("config-and-prompts` for ") && OneLine("the full API.");
  }

  lemma HeaderOk()
    ensures ItemsOk(HEADER)
  {
    HeaderLine1();
    HeaderLine2();
    HeaderLine3();
    HeaderLine4();
  }

  lemma ItemsAreOk(legacy: Legacy)
    requires |legacy.agents| == |KNOWN_AGENTS|
    ensures ItemsOk(Items(legacy))
  {
    hide AgentsItems;
    HeaderOk();
    AgentsItemsOk(legacy.agents, |KNOWN_AGENTS|);
  }

  // The text written to `config.lua`.
  ghost function GeneratedText(legacy: Legacy): string
    requires |legacy.agents| == |KNOWN_AGENTS|
  {
    ItemsAreOk(legacy);
    Render(Items(legacy))
  }

  // ---------- the emitting loops ----------

  lemma RenderOne(item: Item)
    requires ItemOk(item)
    ensures Render([item]) == RenderItem(item)
  {
    assert RenderItem(item) + Render([]) == RenderItem(item);
  }

  method Collect(entries: seq<Entry>) returns (sorted: map<string, Value>)
    ensures sorted == StrMap(entries)
  {
    sorted := map[];
    for i := 0 to |entries|
      invariant sorted == StrMap(entries[..i])
    {
      assert entries[..i + 1][..i] == entries[..i];
      match entries[i].key {
        case Str(k) => sorted := sorted[k := entries[i].value];
        case _ =>
      }
    }
    assert entries[..|entries|] == entries;
  }

  lemma SortedStep(names: set<string>, n: string)
    requires IsLeast(n, names)
    ensures SortedNames(names) == [n] + SortedNames(names - {n})
  {
    hide NameLess;
    NameOrders();
  }

  lemma SettingsStep(kind: Kind, agent: string, m: map<string, Value>, names: seq<string>, name: string)
    requires name in m
    ensures ItemsOk(Settings(kind, agent, m, names)) && ItemsOk(Settings(kind, agent, m, names + [name]))
    ensures Render(Settings(kind, agent, m, names + [name])) == Render(Settings(kind, agent, m, names)) +
            if m[name].Str? then Line(Setting(kind, agent, name, m[name].text)) else ""
  {
    hide Line;
    SettingsOk(kind, agent, m, names);
    SettingsOk(kind, agent, m, names + [name]);
    assert (names + [name])[..|names|] == names;
    var one := SettingItem(kind, agent, m, name);
    if m[name].Str? { RenderOne(Code(Setting(kind, agent, name, m[name].text))); }
    RenderConcat(Settings(kind, agent, m, names), one);
  }

  method EmitSettings(out: string, kind: Kind, agent: string, entries: seq<Entry>) returns (r: string)
    ensures ItemsOk(AllSettings(kind, agent, entries))
    ensures r == out + Render(AllSettings(kind, agent, entries)) && NamesInOrder(AllSettings(kind, agent, entries))
  {
    hide NamesInOrder;
    SettingsAlphabetical(kind, agent, entries);
    hide Line, Settings, SortedNames, Render, ItemsOk, NameLess, StrMap;
    var sorted := Collect(entries);
    r := out;
    var remaining := sorted.Keys;
    ghost var names: seq<string> := [];
    ghost var all := SortedNames(remaining);
    NoSettings(kind, agent, sorted);
    while remaining != {}
      invariant remaining <= sorted.Keys && all == names + SortedNames(remaining)
      invariant ItemsOk(Settings(kind, agent, sorted, names))
      invariant r == out + Render(Settings(kind, agent, sorted, names))
    {
      LeastName(remaining);
      var name :| IsLeast(name, remaining);
      SortedStep(remaining, name);
      SettingsStep(kind, agent, sorted, names, name);
      if sorted[name].Str? {
        r := r + Line(Setting(kind, agent, name, sorted[name].text));
      }
      names := names + [name];
      remaining := remaining - {name};
    }
    SortedNothing(remaining);
    assert names + [] == names;
  }

  lemma NoSettings(kind: Kind, agent: string, m: map<string, Value>)
    ensures ItemsOk(Settings(kind, agent, m, [])) && Render(Settings(kind, agent, m, [])) == ""
  {
  }

  lemma SortedNothing(names: set<string>)
    requires names == {}
    ensures SortedNames(names) == []
  {
  }

  method EmitAgentSetters(out: string, agent: string, config: Value) returns (r: string)
    ensures var items :=
      AllSettings(Models, agent, EntriesOf(ModelsOf(Some(config)))) + ProviderItems(agent, Some(config));
      ItemsOk(items) && r == out + Render(items)
  {
    hide AllSettings, Render, ItemsOk, Line;
    r := out;
    var entries: seq<Entry> := [];
    match Child(config, Str("models")) {
      case Some(Mapping(models)) => entries := models;
      case _ =>
    }
    assert entries == EntriesOf(ModelsOf(Some(config)));
    r := EmitSettings(r, Models, agent, entries);
    ghost var models := AllSettings(Models, agent, entries);
    match Child(config, Str("provider")) {
      case Some(Str(provider)) =>
        r := r + Line(SetProviderFor(agent, provider));
        OneItem(models, Code(SetProviderFor(agent, provider)));
      case _ =>
        assert models + ProviderItems(agent, Some(config)) == models;
    }
  }

  lemma OneItem(items: seq<Item>, item: Item)
    requires ItemsOk(items) && ItemOk(item)
    ensures ItemsOk(items + [item]) && Render(items + [item]) == Render(items) + RenderItem(item)
  {
    hide RenderItem;
    RenderOne(item);
    RenderConcat(items, [item]);
  }

  lemma NothingEmitted(kind: Kind, agent: string)
    ensures ItemsOk(AllSettings(kind, agent, [])) && Render(AllSettings(kind, agent, [])) == ""
  {
    SortedNothing({});
    NoSettings(kind, agent, map[]);
  }

  method EmitTokenSetters(out: string, agent: string, tokens: Value) returns (r: string)
    ensures ItemsOk(AllSettings(Tokens, agent, EntriesOf(Some(tokens))))
    ensures r == out + Render(AllSettings(Tokens, agent, EntriesOf(Some(tokens))))
  {
    hide AllSettings, Render, ItemsOk;
    if !tokens.Mapping? {
      NothingEmitted(Tokens, agent);
      return out;
    }
    r := EmitSettings(out, Tokens, agent, tokens.entries);
  }

  method EmitAgent(out: string, agent: string, yaml: AgentYaml) returns (r: string)
    requires OneLine(agent)
    ensures ItemsOk(AgentItems(agent, yaml)) && r == out + Render(AgentItems(agent, yaml))
  {
    hide AllSettings, Render, ItemsOk, RenderItem, EntriesOf, ModelsOf, ProviderItems, Line;
    AgentItemsOk(agent, yaml);
    r := out;
    if yaml.config.None? && yaml.tokens.None? {
      RenderNothing();
      return;
    }
    var heading := [Blank, Comment(" Agent: " + agent)];
    ghost var models, provider, tokens :=
      AllSettings(Models, agent, EntriesOf(ModelsOf(yaml.config))), ProviderItems(agent, yaml.config),
      AllSettings(Tokens, agent, EntriesOf(yaml.tokens));
    HeadingRenders(agent);
    r := r + "\n";
    r := r + ("--" + " Agent: " + agent + "\n");
    NoYaml(agent);
    if yaml.config.Some? {
      r := EmitAgentSetters(r, agent, yaml.config.value);
    }
    if yaml.tokens.Some? {
      r := EmitTokenSetters(r, agent, yaml.tokens.value);
    }
    RenderConcat(heading, models + provider);
    RenderConcat(heading + (models + provider), tokens);
    assert heading + models + provider == heading + (models + provider);
  }

  lemma RenderNothing()
    ensures ItemsOk([]) && Render([]) == ""
  {
  }

  lemma HeadingRenders(agent: string)
    requires OneLine(agent)
    ensures var heading := [Blank, Comment(" Agent: " + agent)];
      ItemsOk(heading) && Render(heading) == "\n" + ("--" + " Agent: " + agent + "\n")
  {
    var heading := [Blank, Comment(" Agent: " + agent)];
    RenderOne(Blank);
    RenderOne(heading[1]);
    RenderConcat([Blank], [heading[1]]);
    assert heading == [Blank] + [heading[1]];
  }

  lemma NoYaml(agent: string)
    ensures var models := AllSettings(Models, agent, EntriesOf(ModelsOf(None)));
      models + ProviderItems(agent, None) == [] && ItemsOk([]) && Render([]) == ""
    ensures ItemsOk(AllSettings(Tokens, agent, EntriesOf(None)))
    ensures Render(AllSettings(Tokens, agent, EntriesOf(None))) == ""
  {
    SortedNothing({});
    NothingEmitted(Tokens, agent);
  }

  method GenerateLua(legacy: Legacy) returns (out: string)
    requires |legacy.agents| == |KNOWN_AGENTS|
    ensures out == GeneratedText(legacy)
  {
    hide AgentItems, Render, ItemsOk, Line, IntAt, StrAt;
    ItemsAreOk(legacy);
    HeaderOk();
    out := Render(HEADER);
    ghost var items := HEADER;
    match StrAt(legacy.shared, "agent") {
      case Some(agent) =>
        OneItem(items, Blank);
        OneItem(items + [Blank], Code(SetAgent(agent)));
        out := out + "\n";
        out := out + Line(SetAgent(agent));
        assert items + [Blank] + [Code(SetAgent(agent))] == items + [Blank, Code(SetAgent(agent))];
        items := items + [Blank, Code(SetAgent(agent))];
      case None =>
    }
    match IntAt(legacy.shared, "headroom") {
      case Some(headroom) =>
        OneItem(items, Code(SetHeadroom(headroom)));
        out := out + Line(SetHeadroom(headroom));
        items := items + [Code(SetHeadroom(headroom))];
      case None =>
    }
    assert items == HEADER + SharedItems(legacy.shared);
    ghost var head := items;
    for i := 0 to |KNOWN_AGENTS|
      invariant ItemsOk(items) && items == head + AgentsItems(legacy.agents, i) && out == Render(items)
    {
      out := EmitAgent(out, KNOWN_AGENTS[i], legacy.agents[i]);
      ghost var more := AgentItems(KNOWN_AGENTS[i], legacy.agents[i]);
      RenderConcat(items, more);
      assert items + more == head + (AgentsItems(legacy.agents, i) + more);
      items := items + more;
    }
  }

  // ---------- what the script means ----------

  // The collected map agrees with the mapping, whatever the order of its entries.
  lemma {:induction false} StrMapFinds(entries: seq<Entry>, name: string)
    requires DistinctKeys(entries)
    ensures Find(entries, Str(name)) == if name in StrMap(entries) then Some(StrMap(entries)[name]) else None
  {
    if entries == [] {
      FindNone(entries, Str(name));
    } else {
      var before, last := entries[..|entries| - 1], entries[|entries| - 1];
      assert entries == before + [last];
      StrMapFinds(before, name);
      FindSnoc(before, last, Str(name));
    }
  }

  lemma {:induction false} SortedNamesComplete(names: set<string>, n: string)
    ensures n in SortedNames(names) <==> n in names
  {
    if names != {} {
      LeastName(names);
      var least :| IsLeast(least, names);
      SortedStep(names, least);
      SortedNamesComplete(names - {least}, n);
    }
  }

  // An ordered map is read in alphabetical order.
  lemma {:induction false} SortedNamesInOrder(names: set<string>)
    ensures forall i, j :: 0 <= i < j < |SortedNames(names)| ==>
      Alphabetical(SortedNames(names)[i], SortedNames(names)[j])
  {
    hide NameLess, Alphabetical;
    if names != {} {
      LeastName(names);
      var least :| IsLeast(least, names);
      var rest := SortedNames(names - {least});
      SortedStep(names, least);
      SortedNamesInOrder(names - {least});
      forall j | 0 <= j < |rest| ensures Alphabetical(least, rest[j]) {
        SortedNamesComplete(names - {least}, rest[j]);
        NameLessMeans(least, rest[j]);
      }
    }
  }

  // What the line sets: a phase's model or a token.
  function SettingName(item: Item): string {
    match item case Code(SetModelFor(_, phase, _)) => phase case Code(SetToken(_, token, _)) => token case _ => ""
  }

  predicate Sets(kind: Kind, agent: string, item: Item) {
    item.Code? && match kind
      case Models => item.stmt.SetModelFor? && item.stmt.agent == agent
      case Tokens => item.stmt.SetToken? && item.stmt.agent == agent
  }

  lemma SettingNamed(kind: Kind, agent: string, k: string, t: string)
    ensures Sets(kind, agent, Code(Setting(kind, agent, k, t)))
    ensures SettingName(Code(Setting(kind, agent, k, t))) == k
  {
  }

  lemma {:induction false} SettingsMembers(kind: Kind, agent: string, m: map<string, Value>, names: seq<string>,
                                           item: Item)
    ensures item in Settings(kind, agent, m, names) <==>
      exists n :: n in names && SettingItem(kind, agent, m, n) == [item]
  {
    hide SettingItem;
    if names != [] {
      var before, name := names[..|names| - 1], names[|names| - 1];
      SettingsMembers(kind, agent, m, before, item);
      assert names == before + [name];
      AtMostOne(kind, agent, m, name);
      assert item in SettingItem(kind, agent, m, name) <==> SettingItem(kind, agent, m, name) == [item];
    }
  }

  // The line for `name`, if it stands for a text.
  lemma AtMostOne(kind: Kind, agent: string, m: map<string, Value>, name: string)
    ensures var one := SettingItem(kind, agent, m, name);
      |one| <= 1 && (|one| == 1 ==> Sets(kind, agent, one[0]) && SettingName(one[0]) == name)
    ensures forall k, t :: SettingItem(kind, agent, m, name) == [Code(Setting(kind, agent, k, t))] <==>
      k == name && name in m && m[name] == Str(t)
  {
    forall k, t ensures SettingItem(kind, agent, m, name) == [Code(Setting(kind, agent, k, t))] <==>
                        k == name && name in m && m[name] == Str(t)
    {
      SettingNamed(kind, agent, k, t);
    }
  }

  ghost predicate NamesInOrder(items: seq<Item>) {
    forall i, j :: 0 <= i < j < |items| ==> Alphabetical(SettingName(items[i]), SettingName(items[j]))
  }

  lemma {:induction false} SettingsListed(kind: Kind, agent: string, m: map<string, Value>, names: seq<string>)
    requires forall i, j :: 0 <= i < j < |names| ==> Alphabetical(names[i], names[j])
    ensures NamesInOrder(Settings(kind, agent, m, names))
  {
    hide Alphabetical, Sets, SettingItem, SettingName;
    if names != [] {
      var before, name := names[..|names| - 1], names[|names| - 1];
      SettingsListed(kind, agent, m, before);
      var items := Settings(kind, agent, m, before);
      AtMostOne(kind, agent, m, name);
      forall i | 0 <= i < |items| ensures Alphabetical(SettingName(items[i]), name) {
        SettingsMembers(kind, agent, m, before, items[i]);
        var n :| n in before && SettingItem(kind, agent, m, n) == [items[i]];
        AtMostOne(kind, agent, m, n);
      }
    }
  }

  lemma SettingsAlphabetical(kind: Kind, agent: string, entries: seq<Entry>)
    ensures NamesInOrder(AllSettings(kind, agent, entries))
  {
    hide NamesInOrder, SortedNames, Alphabetical, Settings, StrMap;
    SortedNamesInOrder(StrMap(entries).Keys);
    SettingsListed(kind, agent, StrMap(entries), SortedNames(StrMap(entries).Keys));
  }

  // The lines are those of the string-valued entries with a string key, in alphabetical order of the keys.
  lemma SettingsInOrder(kind: Kind, agent: string, entries: seq<Entry>)
    requires DistinctKeys(entries)
    ensures var items := AllSettings(kind, agent, entries);
      && (forall k, t :: Code(Setting(kind, agent, k, t)) in items <==> Entry(Str(k), Str(t)) in entries)
      && (forall i :: 0 <= i < |items| ==> Sets(kind, agent, items[i]))
      && NamesInOrder(items)
  {
    hide Alphabetical, Setting, SettingItem, StrMap, SortedNames, Find, Sets, Settings;
    var m := StrMap(entries);
    var names, items := SortedNames(m.Keys), AllSettings(kind, agent, entries);
    SortedNamesInOrder(m.Keys);
    SettingsListed(kind, agent, m, names);
    forall k, t ensures Code(Setting(kind, agent, k, t)) in items <==> Entry(Str(k), Str(t)) in entries {
      SettingsMembers(kind, agent, m, names, Code(Setting(kind, agent, k, t)));
      forall n ensures SettingItem(kind, agent, m, n) == [Code(Setting(kind, agent, k, t))] <==>
                       k == n && n in m && m[n] == Str(t)
      {
        AtMostOne(kind, agent, m, n);
      }
      SortedNamesComplete(m.Keys, k);
      StrMapFinds(entries, k);
      EntryFinds(entries, Str(k), Str(t));
    }
    forall i | 0 <= i < |items| ensures Sets(kind, agent, items[i]) {
      SettingsMembers(kind, agent, m, names, items[i]);
      var n :| n in names && SettingItem(kind, agent, m, n) == [items[i]];
      AtMostOne(kind, agent, m, n);
    }
  }

  lemma EntryFinds(entries: seq<Entry>, key: Value, value: Value)
    requires DistinctKeys(entries)
    ensures Entry(key, value) in entries <==> Find(entries, key) == Some(value)
  {
    FindNone(entries, key);
    if Entry(key, value) in entries {
      var i :| 0 <= i < |entries| && entries[i] == Entry(key, value);
      FindAt(entries, i);
    }
  }

  ghost predicate NoAgentChange(program: seq<Stmt>) {
    forall i :: 0 <= i < |program| ==> program[i].SetModelFor? || program[i].SetProviderFor? || program[i].SetToken?
  }

  // ---------- the last write, over a concatenation ----------

  lemma {:induction false} LastConcat(start: string, a: seq<Stmt>, b: seq<Stmt>, agent: string, key: string)
    requires NoAgentChange(b)
    ensures LastModel(start, a + b, agent, key) == OrElse(LastModel("", b, agent, key), LastModel(start, a, agent, key))
    ensures LastProvider(start, a + b, agent) == OrElse(LastProvider("", b, agent), LastProvider(start, a, agent))
    ensures LastToken(a + b, agent, key) == OrElse(LastToken(b, agent, key), LastToken(a, agent, key))
  {
    if b == [] {
      assert a + b == a;
    } else {
      assert (a + b)[..|a + b| - 1] == a + b[..|b| - 1];
      LastConcat(start, a, b[..|b| - 1], agent, key);
    }
  }

  function Chosen(m: map<string, Value>, names: seq<string>, key: string): Option<string> {
    if key in names && key in m && m[key].Str? then Some(m[key].text) else None
  }

  function SettingStmts(kind: Kind, agent: string, m: map<string, Value>, name: string): seq<Stmt> {
    if name in m && m[name].Str? then [Setting(kind, agent, name, m[name].text)] else []
  }

  lemma {:induction false} SettingsLast(kind: Kind, agent: string, m: map<string, Value>, names: seq<string>,
                                        other: string, key: string)
    ensures var b := Statements(Settings(kind, agent, m, names));
      && NoAgentChange(b)
      && LastModel("", b, other, key) == (if kind.Models? && other == agent then Chosen(m, names, key) else None)
      && LastProvider("", b, other) == None
      && LastToken(b, other, key) == (if kind.Tokens? && other == agent then Chosen(m, names, key) else None)
  {
    hide LastModel, LastProvider, LastToken, Statements, Setting;
    if names == [] {
      NoStatements();
      NothingLast(other, key);
    } else {
      var before, name := names[..|names| - 1], names[|names| - 1];
      var one := SettingStmts(kind, agent, m, name);
      SettingsLast(kind, agent, m, before, other, key);
      StatementsConcat(Settings(kind, agent, m, before), SettingItem(kind, agent, m, name));
      SettingStatements(kind, agent, m, name);
      OneSettingLast(kind, agent, m, name, other, key);
      LastConcat("", Statements(Settings(kind, agent, m, before)), one, other, key);
      assert names == before + [name];
    }
  }

  lemma SettingStatements(kind: Kind, agent: string, m: map<string, Value>, name: string)
    ensures Statements(SettingItem(kind, agent, m, name)) == SettingStmts(kind, agent, m, name)
  {
  }

  lemma OneSettingLast(kind: Kind, agent: string, m: map<string, Value>, name: string, other: string, key: string)
    ensures var one := SettingStmts(kind, agent, m, name);
      && NoAgentChange(one)
      && LastModel("", one, other, key) ==
        (if kind.Models? && other == agent && key == name then Chosen(m, [name], key) else None)
      && LastProvider("", one, other) == None
      && LastToken(one, other, key) ==
        (if kind.Tokens? && other == agent && key == name then Chosen(m, [name], key) else None)
  {
    var one := SettingStmts(kind, agent, m, name);
    if one != [] { assert one[..0] == []; }
  }

  // A mapping's string values, read off the value itself.
  lemma AllSettingsLast(kind: Kind, agent: string, v: Option<Value>, other: string, key: string)
    requires v.Some? ==> WellKeyed(v.value)
    ensures var b := Statements(AllSettings(kind, agent, EntriesOf(v)));
      && NoAgentChange(b)
      && LastModel("", b, other, key) == (if kind.Models? && other == agent then StrAt(v, key) else None)
      && LastProvider("", b, other) == None
      && LastToken(b, other, key) == (if kind.Tokens? && other == agent then StrAt(v, key) else None)
  {
    hide Find, Settings, Statements, LastModel, LastProvider, LastToken, SortedNames, NoAgentChange, StrMap;
    var entries := EntriesOf(v);
    var m := StrMap(entries);
    SettingsLast(kind, agent, m, SortedNames(m.Keys), other, key);
    SortedNamesComplete(m.Keys, key);
    EntriesDistinct(v);
    StrMapFinds(entries, key);
    StrAtFinds(v, key);
  }

  lemma EntriesDistinct(v: Option<Value>)
    requires v.Some? ==> WellKeyed(v.value)
    ensures DistinctKeys(EntriesOf(v))
  {
  }

  lemma StrAtFinds(v: Option<Value>, key: string)
    ensures StrAt(v, key) == match Find(EntriesOf(v), Str(key)) case Some(Str(t)) => Some(t) case _ => None
  {
    FindNone([], Str(key));
  }

  // What the section of `agent` sets for `other`.
  lemma AgentItemsLast(agent: string, yaml: AgentYaml, other: string, key: string)
    requires yaml.config.Some? ==> WellKeyed(yaml.config.value)
    requires yaml.tokens.Some? ==> WellKeyed(yaml.tokens.value)
    ensures var b := Statements(AgentItems(agent, yaml));
      && NoAgentChange(b)
      && LastModel("", b, other, key) == (if other == agent then StrAt(ModelsOf(yaml.config), key) else None)
      && LastProvider("", b, other) == (if other == agent then StrAt(yaml.config, "provider") else None)
      && LastToken(b, other, key) == (if other == agent then StrAt(yaml.tokens, key) else None)
  {
    hide AllSettings, LastModel, LastProvider, LastToken, WellKeyed, Child;
    if yaml.config.None? && yaml.tokens.None? {
      NothingLast(other, key);
    } else {
      var heading := [Blank, Comment(" Agent: " + agent)];
      var models := AllSettings(Models, agent, EntriesOf(ModelsOf(yaml.config)));
      var tokens := AllSettings(Tokens, agent, EntriesOf(yaml.tokens));
      var provider := ProviderItems(agent, yaml.config);
      var a, b, c := Statements(models), Statements(provider), Statements(tokens);
      ModelsWellKeyed(yaml.config);
      AllSettingsLast(Models, agent, ModelsOf(yaml.config), other, key);
      AllSettingsLast(Tokens, agent, yaml.tokens, other, key);
      ProviderLast(agent, yaml.config, other, key);
      StatementsConcat(heading, models);
      StatementsConcat(heading + models, provider);
      StatementsConcat(heading + models + provider, tokens);
      assert Statements(heading) == [] && [] + a == a;
      LastConcat("", a, b, other, key);
      LastConcat("", a + b, c, other, key);
    }
  }

  lemma NothingLast(other: string, key: string)
    ensures NoAgentChange([]) && LastModel("", [], other, key) == None && LastProvider("", [], other) == None
    ensures LastToken([], other, key) == None
  {
  }

  lemma ModelsWellKeyed(config: Option<Value>)
    requires config.Some? ==> WellKeyed(config.value)
    ensures ModelsOf(config).Some? ==> WellKeyed(ModelsOf(config).value)
  {
    if ModelsOf(config).Some? {
      ChildWellKeyed(config.value, Str("models"));
    }
  }

  lemma ProviderLast(agent: string, config: Option<Value>, other: string, key: string)
    ensures var b := Statements(ProviderItems(agent, config));
      && NoAgentChange(b)
      && LastModel("", b, other, key) == None
      && LastProvider("", b, other) == (if other == agent then StrAt(config, "provider") else None)
      && LastToken(b, other, key) == None
  {
    var b := Statements(ProviderItems(agent, config));
    if b != [] { assert b[..0] == []; }
  }

  // ---------- the whole script ----------

  ghost predicate LegacyOk(legacy: Legacy) {
    && |legacy.agents| == |KNOWN_AGENTS|
    && (legacy.shared.Some? ==> WellKeyed(legacy.shared.value))
    && forall i :: 0 <= i < |legacy.agents| ==>
         (legacy.agents[i].config.Some? ==> WellKeyed(legacy.agents[i].config.value)) &&
         (legacy.agents[i].tokens.Some? ==> WellKeyed(legacy.agents[i].tokens.value))
  }

  ghost function Script(legacy: Legacy): seq<Stmt>
    requires |legacy.agents| == |KNOWN_AGENTS|
  {
    Statements(Items(legacy))
  }

  // The YAML of the agent of that name, if it is a known one.
  function YamlOf(legacy: Legacy, agent: string): AgentYaml
    requires |legacy.agents| == |KNOWN_AGENTS|
  {
    if agent == "claude-code" then legacy.agents[0]
    else if agent == "pi" then legacy.agents[1]
    else AgentYaml(None, None)
  }

  function SharedStmts(shared: Option<Value>): seq<Stmt> {
    [WriteOther] + (match StrAt(shared, "agent") case Some(a) => [SetAgent(a)] case None => [])
    + (match IntAt(shared, "headroom") case Some(n) => [SetHeadroom(n)] case None => [])
  }

  lemma ScriptParts(legacy: Legacy)
    requires |legacy.agents| == |KNOWN_AGENTS|
    ensures Script(legacy) == SharedStmts(legacy.shared)
      + (Statements(AgentItems("claude-code", legacy.agents[0])) + Statements(AgentItems("pi", legacy.agents[1])))
  {
    hide AgentItems, StrAt, IntAt;
    var a, b := AgentItems("claude-code", legacy.agents[0]), AgentItems("pi", legacy.agents[1]);
    assert AgentsItems(legacy.agents, 0) == [] && [] + a == a;
    assert AgentsItems(legacy.agents, 1) == a;
    assert AgentsItems(legacy.agents, 2) == a + b;
    StatementsConcat(HEADER + SharedItems(legacy.shared), a + b);
    StatementsConcat(a, b);
    StatementsConcat(HEADER, SharedItems(legacy.shared));
    HeaderStatements();
    SharedStatements(legacy.shared);
    assert Items(legacy) == HEADER + SharedItems(legacy.shared) + (a + b);
  }

  lemma SharedStatements(shared: Option<Value>)
    ensures [WriteOther] + Statements(SharedItems(shared)) == SharedStmts(shared)
  {
    hide StrAt, IntAt;
    var agents := match StrAt(shared, "agent") case Some(a) => [Blank, Code(SetAgent(a))] case None => [];
    var headrooms := match IntAt(shared, "headroom") case Some(n) => [Code(SetHeadroom(n))] case None => [];
    StatementsConcat(agents, headrooms);
    if agents != [] {
      assert agents[1..] == [Code(SetAgent(StrAt(shared, "agent").value))];
      assert agents[1..][1..] == [];
      assert Statements(agents[1..]) == [SetAgent(StrAt(shared, "agent").value)] + [];
    }
    if headrooms != [] {
      assert headrooms[1..] == [];
      assert Statements(headrooms) == [SetHeadroom(IntAt(shared, "headroom").value)] + [];
    }
  }

  lemma HeaderStatements()
    ensures Statements(HEADER) == [WriteOther]
  {
    assert HEADER[5..] == [Code(WriteOther)] && HEADER[5..][1..] == [];
    assert Statements(HEADER[5..]) == [WriteOther] + [];
    assert HEADER[4..][1..] == HEADER[5..] && HEADER[3..][1..] == HEADER[4..] && HEADER[2..][1..] == HEADER[3..];
    assert HEADER[1..][1..] == HEADER[2..];
    assert Statements(HEADER[4..]) == Statements(HEADER[5..]);
    assert Statements(HEADER[3..]) == Statements(HEADER[4..]);
    assert Statements(HEADER[2..]) == Statements(HEADER[3..]);
    assert Statements(HEADER[1..]) == Statements(HEADER[2..]);
  }

  ghost predicate Headrooms(program: seq<Stmt>, amount: Option<int>) {
    (forall i :: 0 <= i < |program| && program[i].SetHeadroom? ==> amount == Some(program[i].amount)) &&
    (amount.Some? ==> exists i :: 0 <= i < |program| && program[i] == SetHeadroom(amount.value))
  }

  lemma SharedSnoc(start: string, headroom: nat, a: seq<Stmt>, last: Stmt, agent: string, key: string)
    requires last.WriteOther? || last.SetAgent? || last.SetHeadroom?
    ensures var b := a + [last];
      && Active(start, b) == (if last.SetAgent? then last.name else Active(start, a))
      && LastHeadroom(headroom, b) == (if last.SetHeadroom? then last.amount else LastHeadroom(headroom, a))
      && LastModel(start, b, agent, key) == LastModel(start, a, agent, key)
      && LastProvider(start, b, agent) == LastProvider(start, a, agent)
      && LastToken(b, agent, key) == LastToken(a, agent, key)
      && Appended(b, key) == Appended(a, key)
  {
    assert (a + [last])[..|a|] == a;
  }

  // What the first part of the script sets.
  lemma SharedLast(start: string, headroom: nat, shared: Option<Value>, agent: string, key: string)
    ensures var a := SharedStmts(shared);
      && SettersOnly(a) && Headrooms(a, IntAt(shared, "headroom"))
      && Active(start, a) == OrElse(StrAt(shared, "agent"), Some(start)).value
      && LastHeadroom(headroom, a) == OrElse(IntAt(shared, "headroom"), Some(headroom)).value
      && LastModel(start, a, agent, key) == None && LastProvider(start, a, agent) == None
      && LastToken(a, agent, key) == None
      && Appended(a, key) == []
  {
    SharedHeadrooms(shared);
    NothingSet(start, headroom, agent, key);
    hide StrAt, IntAt, Headrooms, LastModel, LastProvider, LastToken, Active, LastHeadroom, Appended;
    var a: seq<Stmt> := [];
    SharedSnoc(start, headroom, a, WriteOther, agent, key);
    a := a + [WriteOther];
    match StrAt(shared, "agent") {
      case Some(name) =>
        SharedSnoc(start, headroom, a, SetAgent(name), agent, key);
        a := a + [SetAgent(name)];
      case None =>
    }
    match IntAt(shared, "headroom") {
      case Some(n) =>
        SharedSnoc(start, headroom, a, SetHeadroom(n), agent, key);
        a := a + [SetHeadroom(n)];
      case None =>
    }
    assert a == SharedStmts(shared);
  }

  lemma SharedHeadrooms(shared: Option<Value>)
    ensures SettersOnly(SharedStmts(shared)) && Headrooms(SharedStmts(shared), IntAt(shared, "headroom"))
  {
    hide StrAt, IntAt;
    var a := SharedStmts(shared);
    if IntAt(shared, "headroom").Some? {
      assert a[|a| - 1] == SetHeadroom(IntAt(shared, "headroom").value);
    }
  }

  lemma NothingSet(start: string, headroom: nat, agent: string, key: string)
    ensures Active(start, []) == start && LastHeadroom(headroom, []) == headroom
    ensures LastModel(start, [], agent, key) == None && LastProvider(start, [], agent) == None
    ensures LastToken([], agent, key) == None
    ensures Appended([], key) == []
  {
  }

  lemma {:induction false} QuietTail(start: string, headroom: nat, a: seq<Stmt>, b: seq<Stmt>, phase: string)
    requires NoAgentChange(b)
    ensures Active(start, a + b) == Active(start, a) && LastHeadroom(headroom, a + b) == LastHeadroom(headroom, a)
    ensures Appended(a + b, phase) == Appended(a, phase)
  {
    if b == [] {
      assert a + b == a;
    } else {
      assert (a + b)[..|a + b| - 1] == a + b[..|b| - 1];
      QuietTail(start, headroom, a, b[..|b| - 1], phase);
    }
  }

  // What the script sets, by last write.
  lemma ScriptLast(seed: Accumulator, legacy: Legacy, agent: string, key: string)
    requires LegacyOk(legacy)
    ensures var p := Script(legacy);
      && SettersOnly(p) && Headrooms(p, IntAt(legacy.shared, "headroom"))
      && Active(seed.agent, p) == OrElse(StrAt(legacy.shared, "agent"), Some(seed.agent)).value
      && LastHeadroom(seed.headroom, p) == OrElse(IntAt(legacy.shared, "headroom"), Some(seed.headroom)).value
      && LastModel(seed.agent, p, agent, key) == StrAt(ModelsOf(YamlOf(legacy, agent).config), key)
      && LastProvider(seed.agent, p, agent) == StrAt(YamlOf(legacy, agent).config, "provider")
      && LastToken(p, agent, key) == StrAt(YamlOf(legacy, agent).tokens, key)
      && Appended(p, key) == []
  {
    hide AgentItems, StrAt, IntAt, LastModel, LastProvider, LastToken, Active, LastHeadroom, Appended, Statements,
         SharedStmts, Items, WellKeyed;
    var a := SharedStmts(legacy.shared);
    var b, c := Statements(AgentItems("claude-code", legacy.agents[0])), Statements(AgentItems("pi", legacy.agents[1]));
    ScriptParts(legacy);
    SharedLast(seed.agent, seed.headroom, legacy.shared, agent, key);
    AgentItemsLast("claude-code", legacy.agents[0], agent, key);
    AgentItemsLast("pi", legacy.agents[1], agent, key);
    assert |"pi"| == 2 && |"claude-code"| == 11;
    assert NoAgentChange(b + c);
    LastConcat("", b, c, agent, key);
    LastConcat(seed.agent, a, b + c, agent, key);
    QuietTail(seed.agent, seed.headroom, a, b + c, key);
    HeadroomsTail(a, b + c, IntAt(legacy.shared, "headroom"));
    NothingAt(key);
  }

  lemma NothingAt(key: string)
    ensures StrAt(None, key) == None && StrAt(ModelsOf(None), key) == None && StrAt(None, "provider") == None
  {
  }

  lemma HeadroomsTail(a: seq<Stmt>, b: seq<Stmt>, amount: Option<int>)
    requires SettersOnly(a) && Headrooms(a, amount) && NoAgentChange(b)
    ensures SettersOnly(a + b) && Headrooms(a + b, amount)
  {
    if amount.Some? {
      var i :| 0 <= i < |a| && a[i] == SetHeadroom(amount.value);
      assert (a + b)[i] == a[i];
    }
  }

  // The defaults overridden by the YAML, setting by setting.
  ghost predicate Overrides(r: Accumulator, seed: Accumulator, legacy: Legacy)
    requires |legacy.agents| == |KNOWN_AGENTS|
  {
    && r.agent == OrElse(StrAt(legacy.shared, "agent"), Some(seed.agent)).value
    && r.headroom == OrElse(IntAt(legacy.shared, "headroom"), Some(seed.headroom)).value
    && (forall agent, phase {:trigger ModelOf(r, agent, phase)} ::
          ModelOf(r, agent, phase)
          == OrElse(StrAt(ModelsOf(YamlOf(legacy, agent).config), phase), ModelOf(seed, agent, phase)))
    && (forall agent {:trigger ProviderOf(r, agent)} ::
          ProviderOf(r, agent) == OrElse(StrAt(YamlOf(legacy, agent).config, "provider"), ProviderOf(seed, agent)))
    && (forall agent, name {:trigger TokenOf(r, agent, name)} ::
          TokenOf(r, agent, name) == OrElse(StrAt(YamlOf(legacy, agent).tokens, name), TokenOf(seed, agent, name)))
    && (forall agent {:trigger ThinkingOf(r, agent)} :: ThinkingOf(r, agent) == ThinkingOf(seed, agent))
    && (forall agent {:trigger ParamsOf(r, agent)} :: ParamsOf(r, agent) == ParamsOf(seed, agent))
    && (forall phase {:trigger GetOr(r.appends, phase, [])} ::
      GetOr(r.appends, phase, []) == GetOr(seed.appends, phase, []))
  }

  lemma OneOverride(seed: Accumulator, legacy: Legacy, r: Accumulator, agent: string, key: string)
    requires LegacyOk(legacy) && Run(Installed(seed), Script(legacy)).Some?
    requires r == Run(Installed(seed), Script(legacy)).value.acc
    ensures r.agent == OrElse(StrAt(legacy.shared, "agent"), Some(seed.agent)).value
    ensures r.headroom == OrElse(IntAt(legacy.shared, "headroom"), Some(seed.headroom)).value
    ensures ModelOf(r, agent, key)
         == OrElse(StrAt(ModelsOf(YamlOf(legacy, agent).config), key), ModelOf(seed, agent, key))
    ensures ProviderOf(r, agent) == OrElse(StrAt(YamlOf(legacy, agent).config, "provider"), ProviderOf(seed, agent))
    ensures TokenOf(r, agent, key) == OrElse(StrAt(YamlOf(legacy, agent).tokens, key), TokenOf(seed, agent, key))
    ensures ThinkingOf(r, agent) == ThinkingOf(seed, agent) && ParamsOf(r, agent) == ParamsOf(seed, agent)
    ensures GetOr(r.appends, key, []) == GetOr(seed.appends, key, [])
  {
    hide Script, StrAt, IntAt, ModelsOf, YamlOf, Run, WellKeyed, Headrooms, SettersOnly, ModelOf, ProviderOf, TokenOf,
         ThinkingOf, ParamsOf,
         LastModel, LastProvider, LastToken, LastHeadroom, Active, Appended, OrElse;
    var s, p := Installed(seed), Script(legacy);
    ScriptLast(seed, legacy, agent, key);
    LastScalarWins(s, p);
    LastModelWins(s, p, agent, key);
    LastProviderWins(s, p, agent);
    LastTokenWins(s, p, agent, key);
    ThinkingKept(s, p, agent);
    AppendsInOrder(s, p, key);
    assert GetOr(seed.appends, key, []) + [] == GetOr(seed.appends, key, []);
  }

  // Running the generated script over the embedded defaults gives the defaults overridden by the
  // merged YAML; it raises an error exactly when the merged headroom is a negative integer.
  lemma TranslationKeepsMeaning(seed: Accumulator, legacy: Legacy)
    requires LegacyOk(legacy)
    ensures var r := Resolved(seed, Some(Script(legacy)), None);
      && (r.None? <==> IntAt(legacy.shared, "headroom").Some? && IntAt(legacy.shared, "headroom").value < 0)
      && (r.Some? ==> Overrides(r.value, seed, legacy))
  {
    hide Script, StrAt, IntAt, WellKeyed, Run, SettersOnly;
    var s, p := Installed(seed), Script(legacy);
    ScriptLast(seed, legacy, "", "");
    RunsIffNonNegative(s, p);
    SettersMirror(s, p);
    if Run(s, p).Some? {
      var r := Run(s, p).value.acc;
      MirroredCommit(Run(s, p).value);
      forall agent, key
        ensures ModelOf(r, agent, key)
             == OrElse(StrAt(ModelsOf(YamlOf(legacy, agent).config), key), ModelOf(seed, agent, key))
        ensures ProviderOf(r, agent) == OrElse(StrAt(YamlOf(legacy, agent).config, "provider"), ProviderOf(seed, agent))
        ensures TokenOf(r, agent, key) == OrElse(StrAt(YamlOf(legacy, agent).tokens, key), TokenOf(seed, agent, key))
        ensures ThinkingOf(r, agent) == ThinkingOf(seed, agent) && ParamsOf(r, agent) == ParamsOf(seed, agent)
        ensures GetOr(r.appends, key, []) == GetOr(seed.appends, key, [])
      {
        OneOverride(seed, legacy, r, agent, key);
      }
      OneOverride(seed, legacy, r, "", "");
    }
  }

  lemma ScriptSetters(legacy: Legacy, seed: Accumulator)
    requires LegacyOk(legacy)
    ensures SettersOnly(Script(legacy))
  {
    hide Script, SettersOnly, LegacyOk;
    ScriptLast(seed, legacy, "", "");
  }

  // The text written to `config.lua` reads back as that script.
  lemma GeneratedTextReads(legacy: Legacy)
    requires |legacy.agents| == |KNOWN_AGENTS|
    ensures ReadProgram(GeneratedText(legacy)) == Some(Script(legacy))
  {
    ItemsAreOk(legacy);
    ProgramRoundTrip(Items(legacy));
  }
}
