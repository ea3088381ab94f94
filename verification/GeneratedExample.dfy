// One generated `config.lua`, written out line by line (src/migrate_v1_to_v2.rs).
module GeneratedExample {
  import opened Wrappers
  import opened Yaml
  import opened ConfigLua
  import opened LuaText
  import opened Translation

  const EXAMPLE := Legacy(
    Some(Mapping([Entry(Str("agent"), Str("pi")), Entry(Str("headroom"), Integer(5))])),
    [AgentYaml(
       Some(Mapping([Entry(Str("provider"), Str("p")), Entry(Str("models"), Mapping([Entry(Str("work"), Str("m"))]))])),
       Some(Mapping([Entry(Str("T"), Str("it's"))]))),
     AgentYaml(None, None)])

  // Each line with its line break.
  function Lines(lines: seq<string>): string {
    if lines == [] then "" else lines[0] + "\n" + Lines(lines[1..])
  }

  const EXAMPLE_LINES: seq<string> := [
    "--" + (" Auto-generated by ravel-lite " + "v1\U{2192}v2 migration."),
    "--" + (" The legacy config.yaml " + "/ agents/<name>/config.yaml " + "/ tokens.yaml"),
    "--" + (" files have been translated " + "into this Lua surface " + "and removed."),
    "--" + (" See `ravel-lite reference " + "config-and-prompts` for " + "the full API."),
    "",
    "ravel.config.config_version = 2",
    "",
    "ravel.set_agent('pi')",
    "ravel.set_headroom(5)",
    "",
    "-- Agent: claude-code",
    "ravel.set_model_for(" + "'" + "claude-code" + "', '" + "work" + "', '" + "m" + "')",
    "ravel.set_provider_for(" + "'" + "claude-code" + "', '" + "p" + "')",
    "ravel.set_token(" + "'" + "claude-code" + "', '" + "T" + "', '" + "it\\'s" + "')"]

  const EXAMPLE_ITEMS: seq<Item> := [
    Comment(HEADER_1), Comment(HEADER_2), Comment(HEADER_3), Comment(HEADER_4), Blank, Code(WriteOther),
    Blank, Code(SetAgent("pi")), Code(SetHeadroom(5)),
    Blank, Comment(" Agent: " + "claude-code"), Code(SetModelFor("claude-code", "work", "m")),
    Code(SetProviderFor("claude-code", "p")), Code(SetToken("claude-code", "T", "it's"))]

  lemma OneSetting(kind: Kind, agent: string, k: string, t: string)
    ensures AllSettings(kind, agent, [Entry(Str(k), Str(t))]) == [Code(Setting(kind, agent, k, t))]
  {
    var entries, m := [Entry(Str(k), Str(t))], StrMap([Entry(Str(k), Str(t))]);
    assert entries[..0] == [] && StrMap([]) == map[] && entries[0] == Entry(Str(k), Str(t));
    assert m == map[][k := Str(t)];
    assert m.Keys == {k};
    assert IsLeast(k, {k});
    SortedStep({k}, k);
    assert {k} - {k} == {};
    SortedNothing({});
    assert [k][..0] == [] && [k][0] == k;
    assert Settings(kind, agent, m, [k]) == [] + SettingItem(kind, agent, m, k);
  }

  lemma ExampleLookups()
    ensures StrAt(EXAMPLE.shared, "agent") == Some("pi") && IntAt(EXAMPLE.shared, "headroom") == Some(5)
    ensures StrAt(EXAMPLE.agents[0].config, "provider") == Some("p")
    ensures EntriesOf(ModelsOf(EXAMPLE.agents[0].config)) == [Entry(Str("work"), Str("m"))]
    ensures EntriesOf(EXAMPLE.agents[0].tokens) == [Entry(Str("T"), Str("it's"))]
  {
  }

  lemma ExampleItems()
    ensures Items(EXAMPLE) == EXAMPLE_ITEMS
  {
    hide StrAt, IntAt, ModelsOf, EntriesOf, AllSettings;
    ExampleLookups();
    OneSetting(Models, "claude-code", "work", "m");
    OneSetting(Tokens, "claude-code", "T", "it's");
    var pi, claude := AgentItems("pi", EXAMPLE.agents[1]), AgentItems("claude-code", EXAMPLE.agents[0]);
    assert pi == [];
    assert AgentsItems(EXAMPLE.agents, 0) == [] && AgentsItems(EXAMPLE.agents, 1) == [] + claude;
    assert AgentsItems(EXAMPLE.agents, 2) == claude + [];
  }

  ghost predicate LineByLine(items: seq<Item>, lines: seq<string>) {
    && |items| == |lines| && ItemsOk(items)
    && forall i :: 0 <= i < |items| ==> RenderItem(items[i]) == lines[i] + "\n"
  }

  lemma ExampleHeader()
    ensures "--" + HEADER_1 == EXAMPLE_LINES[0] && "--" + HEADER_2 == EXAMPLE_LINES[1]
    ensures "--" + HEADER_3 == EXAMPLE_LINES[2] && "--" + HEADER_4 == EXAMPLE_LINES[3]
    ensures "--" + (" Agent: " + "claude-code") == EXAMPLE_LINES[10]
  {
  }

  lemma ExampleShared()
    ensures Line(SetAgent("pi")) == EXAMPLE_LINES[7] + "\n"
  {
    hide QuoteBody;
    QuotePlain("pi");
  }

  lemma ExampleHeadroom()
    ensures Line(SetHeadroom(5)) == EXAMPLE_LINES[8] + "\n" && Line(WriteOther) == EXAMPLE_LINES[5] + "\n"
  {
    hide QuoteBody;
  }

  lemma QuotedTwo(call: string, a: string, b: string)
    ensures call + Args2(a, b) == call + "'" + QuoteBody(a) + "', '" + QuoteBody(b) + "')" + "\n"
  {
    hide QuoteBody;
    assert "'" + ", " + "'" == "', '" && "'" + ")\n" == "')" + "\n";
    var x, y := QuoteBody(a), QuoteBody(b);
    assert call + ("'" + x + "'" + ", " + ("'" + y + "'" + ")\n"))
        == call + "'" + x + ("'" + ", " + "'") + y + ("'" + ")\n");
  }

  lemma QuotedThree(call: string, a: string, b: string, c: string)
    ensures call + Args3(a, b, c)
         == call + "'" + QuoteBody(a) + "', '" + QuoteBody(b) + "', '" + QuoteBody(c) + "')" + "\n"
  {
    hide QuoteBody;
    assert "'" + ", " + "'" == "', '" && "'" + ")\n" == "')" + "\n";
    var x, y, z := QuoteBody(a), QuoteBody(b), QuoteBody(c);
    assert call + ("'" + x + "'" + ", " + ("'" + y + "'" + ", " + ("'" + z + "'" + ")\n")))
        == call + "'" + x + ("'" + ", " + "'") + y + ("'" + ", " + "'") + z + ("'" + ")\n");
  }

  lemma ExampleAgent()
    ensures Line(SetModelFor("claude-code", "work", "m")) == EXAMPLE_LINES[11] + "\n"
    ensures Line(SetProviderFor("claude-code", "p")) == EXAMPLE_LINES[12] + "\n"
    ensures Line(SetToken("claude-code", "T", "it's")) == EXAMPLE_LINES[13] + "\n"
  {
    ExampleEscape();
    hide QuoteBody, Args2, Args3;
    QuotePlain("claude-code");
    QuotePlain("work");
    QuotePlain("m");
    QuotePlain("p");
    QuotePlain("T");
    QuotedThree("ravel.set_model_for(", "claude-code", "work", "m");
    QuotedTwo("ravel.set_provider_for(", "claude-code", "p");
    QuotedThree("ravel.set_token(", "claude-code", "T", "it's");
  }

  lemma ExampleEscape()
    ensures QuoteBody("it's") == "it\\'s"
  {
    assert "it's"[1..] == "t's" && "t's"[1..] == "'s" && "'s"[1..] == "s" && "s"[1..] == "";
    assert QuoteBody("s") == "s" && QuoteBody("'s") == "\\'s" && QuoteBody("t's") == "t\\'s";
  }

  lemma {:induction false} LinesRender(items: seq<Item>, lines: seq<string>)
    requires LineByLine(items, lines)
    ensures Render(items) == Lines(lines)
  {
    hide RenderItem, ItemOk;
    if items != [] {
      LinesRender(items[1..], lines[1..]);
    }
  }

  // The file written for one configuration, in full.
  lemma GeneratedExample()
    ensures GeneratedText(EXAMPLE) == Lines(EXAMPLE_LINES)
  {
    ExampleWrites();
    ExampleItems();
    LinesRender(EXAMPLE_ITEMS, EXAMPLE_LINES);
  }

  lemma ExampleWrites()
    ensures LineByLine(EXAMPLE_ITEMS, EXAMPLE_LINES)
  {
    hide RenderItem, ItemOk;
    ExampleOk();
    ExampleFirst();
    ExampleSecond();
  }

  lemma ExampleOk()
    ensures ItemsOk(EXAMPLE_ITEMS)
  {
    hide Items, ItemsOk;
    ItemsAreOk(EXAMPLE);
    ExampleItems();
  }

  lemma ExampleFirst()
    requires ItemsOk(EXAMPLE_ITEMS)
    ensures forall i :: 0 <= i < 7 ==> RenderItem(EXAMPLE_ITEMS[i]) == EXAMPLE_LINES[i] + "\n"
  {
    hide Line, Printable, IsComment;
    ExampleHeader();
    ExampleHeadroom();
  }

  lemma ExampleSecond()
    requires ItemsOk(EXAMPLE_ITEMS)
    ensures forall i :: 7 <= i < 14 ==> RenderItem(EXAMPLE_ITEMS[i]) == EXAMPLE_LINES[i] + "\n"
  {
    hide Line, Printable, IsComment;
    ExampleHeader();
    ExampleShared();
    ExampleHeadroom();
    ExampleAgent();
  }
}
