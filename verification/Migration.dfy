// The one-shot migration of a configuration directory (src/migrate_v1_to_v2.rs) as a
// crash-recoverable sequence of file-system steps.
module Migration {
  import opened Whitespace
  import opened Wrappers
  import opened Yaml
  import opened ConfigLua
  import opened LuaText
  import opened Translation

  // Paths are relative to the configuration directory, with `/` between components.
  type Path = string

  datatype Fs = Fs(files: map<Path, string>, dirs: set<Path>)

  const LUA: Path := "config.lua"
  const TMP: Path := "config.lua.tmp"

  const OVERLAYS: seq<Path> := [
    "config.local.yaml",
    "agents/claude-code/config.local.yaml", "agents/claude-code/tokens.local.yaml",
    "agents/pi/config.local.yaml", "agents/pi/tokens.local.yaml"]

  const LEGACY_DIRS: seq<Path> := [
    "agents/claude-code", "agents/pi/prompts", "agents/pi/subagents", "agents/pi", "agents", "phases", "fixed-memory"]

  // ---------- the version marker ----------

  // Some line, trimmed, is the marker.
  predicate HasMarker(s: string)
    decreases |s|
  {
    var n := LineEnd(s);
    Trim(s[..n]) == VERSION_MARKER_LINE || (n < |s| && HasMarker(s[n + 1..]))
  }

  // In pieces, as the version marker is.
  function StampText(): string {
    " Stamped by ravel-lite " + "v1\U{2192}v2 migration; " + "do not remove."
  }

  function Stamp(): string {
    "\n" + ("--" + StampText() + "\n") + (VERSION_MARKER_LINE + "\n")
  }

  function Stamped(existing: string): string {
    (if existing == "" || existing[|existing| - 1] != '\n' then existing + "\n" else existing) + Stamp()
  }

  // What stamping writes, in full.
  lemma StampedText(existing: string)
    ensures Stamped(existing) ==
      existing + (if existing != "" && existing[|existing| - 1] == '\n' then "" else "\n")
      + "\n" + ("--" + (" Stamped by ravel-lite " + "v1\U{2192}v2 migration; " + "do not remove.") + "\n")
      + ("ravel.config.config_version = 2" + "\n")
  {
    assert "ravel.config" + ".config_version" == "ravel.config.config_version";
    assert VERSION_MARKER_LINE == "ravel.config.config_version = 2";
    hide VERSION_MARKER_LINE, StampText;
    assert StampText() == " Stamped by ravel-lite " + "v1\U{2192}v2 migration; " + "do not remove." by { StampWords(); }
  }

  lemma StampWords()
    ensures StampText() == " Stamped by ravel-lite " + "v1\U{2192}v2 migration; " + "do not remove."
  {
  }

  lemma {:induction false} MarkerConcat(a: string, b: string)
    ensures HasMarker(a + "\n" + b) <==> HasMarker(a) || HasMarker(b)
    decreases |a|
  {
    hide Trim;
    var s, n := a + "\n" + b, LineEnd(a);
    LineEndIs(s, n);
    assert s[..n] == a[..n];
    if n < |a| {
      assert s[n + 1..] == a[n + 1..] + "\n" + b;
      MarkerConcat(a[n + 1..], b);
    } else {
      assert s[n + 1..] == b;
    }
  }

  lemma MarkerLetters()
    ensures OneLine(VERSION_MARKER_LINE) && |VERSION_MARKER_LINE| == 31
    ensures VERSION_MARKER_LINE[0] == 'r' && VERSION_MARKER_LINE[30] == '2'
  {
    assert OneLine("ravel.config") && OneLine(".config_version") && OneLine(" = 2");
  }

  lemma MarkerIsMarker()
    ensures HasMarker(VERSION_MARKER_LINE)
  {
    MarkerLetters();
    WholeLine(VERSION_MARKER_LINE);
  }

  lemma WholeLine(m: string)
    requires m == VERSION_MARKER_LINE && OneLine(m) && m != "" && !IsSpace(m[0]) && !IsSpace(m[|m| - 1])
    ensures HasMarker(m)
  {
    LineEndIs(m, |m|);
    assert m[..|m|] == m;
    assert Trim(m) == m;
  }

  lemma MarkerLine(before: string, after: string)
    ensures HasMarker(before + "\n" + VERSION_MARKER_LINE + "\n" + after)
  {
    hide HasMarker;
    MarkerIsMarker();
    MarkerConcat(before + "\n" + VERSION_MARKER_LINE, after);
    MarkerConcat(before, VERSION_MARKER_LINE);
  }

  lemma StampedHasMarker(existing: string)
    ensures HasMarker(Stamped(existing))
  {
    hide HasMarker, StampText;
    var head := if existing == "" || existing[|existing| - 1] != '\n' then existing + "\n" else existing;
    var comment := "\n" + ("--" + StampText());
    MarkerLine(head + comment, "");
    assert Stamped(existing) == (head + comment) + "\n" + VERSION_MARKER_LINE + "\n" + "";
  }

  lemma GeneratedHasMarker(legacy: Legacy)
    requires |legacy.agents| == |KNOWN_AGENTS|
    ensures HasMarker(GeneratedText(legacy))
  {
    hide HasMarker, ItemsOk, RenderItem, ItemOk, AgentsItems, SharedItems, Render;
    ItemsAreOk(legacy);
    HeaderOk();
    var tail := SharedItems(legacy.shared) + AgentsItems(legacy.agents, |KNOWN_AGENTS|);
    HeaderRenders();
    assert Items(legacy) == HEADER + tail;
    TailOk(HEADER, tail);
    RenderConcat(HEADER, tail);
    var before := HeaderText();
    MarkerLine(before, Render(tail));
    assert Render(Items(legacy)) == before + "\n" + VERSION_MARKER_LINE + "\n" + Render(tail);
  }

  lemma TailOk(a: seq<Item>, b: seq<Item>)
    requires ItemsOk(a + b)
    ensures ItemsOk(b)
  {
    assert forall i :: 0 <= i < |b| ==> b[i] == (a + b)[|a| + i];
  }

  function HeaderText(): string {
    var comments := [Comment(HEADER_1), Comment(HEADER_2), Comment(HEADER_3), Comment(HEADER_4)];
    HeaderOk();
    assert forall i :: 0 <= i < 4 ==> comments[i] == HEADER[i];
    Render(comments)
  }

  lemma HeaderRenders()
    ensures ItemsOk(HEADER) && Render(HEADER) == HeaderText() + "\n" + VERSION_MARKER_LINE + "\n"
  {
    HeaderOk();
    hide Render;
    var comments := [Comment(HEADER_1), Comment(HEADER_2), Comment(HEADER_3), Comment(HEADER_4)];
    assert HEADER == comments + [Blank] + [Code(WriteOther)];
    assert forall i :: 0 <= i < 4 ==> comments[i] == HEADER[i];
    OneItem(comments, Blank);
    OneItem(comments + [Blank], Code(WriteOther));
    assert Line(WriteOther) == VERSION_MARKER_LINE + "\n";
  }

  // ---------- reading the legacy files ----------

  datatype Parsed = Unparsable | Merged(value: Option<Value>)

  // `parse` stands for the YAML parser; `None` is a parse error.
  function ReadMerged(files: map<Path, string>, parse: string -> Option<Value>, base: Path, overlay: Path): Parsed {
    if base in files && parse(files[base]).None? then Unparsable
    else if overlay in files && parse(files[overlay]).None? then Unparsable
    else if overlay !in files then Merged(if base in files then parse(files[base]) else None)
    else if base !in files then Merged(parse(files[overlay]))
    else Merged(Some(Merge(parse(files[base]).value, parse(files[overlay]).value)))
  }

  function AgentFile(agent: string, name: string): Path {
    "agents/" + agent + "/" + name
  }

  function ReadAgent(files: map<Path, string>, parse: string -> Option<Value>, agent: string): Option<AgentYaml> {
    match ReadMerged(files, parse, AgentFile(agent, "config.yaml"), AgentFile(agent, "config.local.yaml"))
    case Unparsable => None
    case Merged(config) =>
      match ReadMerged(files, parse, AgentFile(agent, "tokens.yaml"), AgentFile(agent, "tokens.local.yaml"))
      case Unparsable => None
      case Merged(tokens) => Some(AgentYaml(config, tokens))
  }

  // `None`: some legacy file does not parse.
  function ReadLegacy(files: map<Path, string>, parse: string -> Option<Value>): (r: Option<Legacy>)
    ensures r.Some? ==> |r.value.agents| == |KNOWN_AGENTS|
  {
    match ReadMerged(files, parse, "config.yaml", "config.local.yaml")
    case Unparsable => None
    case Merged(shared) =>
      match ReadAgent(files, parse, KNOWN_AGENTS[0])
      case None => None
      case Some(first) =>
        match ReadAgent(files, parse, KNOWN_AGENTS[1])
        case None => None
        case Some(second) => Some(Legacy(shared, [first, second]))
  }

  // ---------- the plan ----------

  // `embedded` lists the paths of the shipped defaults.
  predicate IsLegacy(embedded: seq<Path>, p: Path) {
    p in embedded || p in OVERLAYS
  }

  function Present(files: map<Path, string>, paths: seq<Path>): seq<Path> {
    if paths == [] then []
    else Present(files, paths[..|paths| - 1]) + if paths[|paths| - 1] in files then [paths[|paths| - 1]] else []
  }

  function LegacyFiles(files: map<Path, string>, embedded: seq<Path>): seq<Path> {
    Present(files, embedded + OVERLAYS)
  }

  // What happens to `config.lua`: nothing to migrate at all, a fresh or extended text,
  // left as it is, or no change because a legacy file does not parse.
  datatype Plan = Noop | Write(body: string) | Keep | Invalid

  ghost function PlanOf(fs: Fs, embedded: seq<Path>, parse: string -> Option<Value>): Plan {
    if LegacyFiles(fs.files, embedded) == [] then Noop
    else if LUA !in fs.files then
      match ReadLegacy(fs.files, parse) case None => Invalid case Some(legacy) => Write(GeneratedText(legacy))
    else if HasMarker(fs.files[LUA]) then Keep
    else Write(Stamped(fs.files[LUA]))
  }

  // The rename consumes the temporary file.
  ghost function Rewritten(fs: Fs, plan: Plan): Fs {
    if plan.Write? then fs.(files := fs.files[LUA := plan.body] - {TMP}) else fs
  }

  function Removed(fs: Fs, paths: seq<Path>): Fs {
    fs.(files := map p | p in fs.files && p !in paths :: fs.files[p])
  }

  predicate Under(dir: Path, p: Path) {
    dir + "/" <= p
  }

  predicate IsEmptyDir(fs: Fs, dir: Path) {
    (forall p :: p in fs.files ==> !Under(dir, p)) && (forall d :: d in fs.dirs ==> !Under(dir, d))
  }

  function PruneOne(fs: Fs, dir: Path): Fs {
    if dir in fs.dirs && IsEmptyDir(fs, dir) then fs.(dirs := fs.dirs - {dir}) else fs
  }

  // The first `n` directories of the list pruned, if empty by then.
  function Pruned(fs: Fs, n: nat): Fs
    requires n <= |LEGACY_DIRS|
  {
    if n == 0 then fs else PruneOne(Pruned(fs, n - 1), LEGACY_DIRS[n - 1])
  }

  // The directory after an uninterrupted run.
  ghost function Migrated(fs: Fs, embedded: seq<Path>, parse: string -> Option<Value>): Fs {
    var plan := PlanOf(fs, embedded, parse);
    if plan.Noop? || plan.Invalid? then fs
    else Pruned(Removed(Rewritten(fs, plan), LegacyFiles(fs.files, embedded)), |LEGACY_DIRS|)
  }

  // Every state a run can be interrupted in: before it, with the temporary file partly written,
  // after some of the removals, or after some of the prunes.
  ghost predicate CrashPoint(fs: Fs, embedded: seq<Path>, parse: string -> Option<Value>, s: Fs) {
    var plan := PlanOf(fs, embedded, parse);
    var legacy := LegacyFiles(fs.files, embedded);
    || s == fs
    || (plan.Write? && Torn(fs, s))
    || ((plan.Write? || plan.Keep?) &&
        (Halfway(Rewritten(fs, plan), legacy, s) || Pruning(Removed(Rewritten(fs, plan), legacy), s)))
  }

  ghost predicate Torn(fs: Fs, s: Fs) {
    TMP in s.files && s == fs.(files := fs.files[TMP := s.files[TMP]])
  }

  ghost predicate Halfway(fs: Fs, legacy: seq<Path>, s: Fs) {
    exists n :: 0 <= n <= |legacy| && s == Removed(fs, legacy[..n])
  }

  ghost predicate Pruning(fs: Fs, s: Fs) {
    exists n :: 0 <= n <= |LEGACY_DIRS| && s == Pruned(fs, n)
  }

  // The shipped defaults include neither the migrated file nor its temporary.
  ghost predicate EmbeddedOk(embedded: seq<Path>) {
    LUA !in embedded && TMP !in embedded
  }

  // ---------- recovery ----------

  lemma {:induction false} PresentMembers(files: map<Path, string>, paths: seq<Path>, p: Path)
    ensures p in Present(files, paths) <==> p in paths && p in files
  {
    if paths != [] {
      PresentMembers(files, paths[..|paths| - 1], p);
      assert p in paths <==> p in paths[..|paths| - 1] || p == paths[|paths| - 1];
    }
  }

  // The files are removed in the order of the lists: the shipped defaults, then the overlays.
  lemma {:induction false} PresentConcat(files: map<Path, string>, a: seq<Path>, b: seq<Path>)
    ensures Present(files, a + b) == Present(files, a) + Present(files, b)
    ensures |b| == 1 ==> Present(files, b) == if b[0] in files then b else []
  {
    if b == [] {
      assert a + b == a;
    } else {
      var n := |b| - 1;
      PresentConcat(files, a, b[..n]);
      assert (a + b)[..|a + b| - 1] == a + b[..n];
      var one := if b[n] in files then [b[n]] else [];
      assert Present(files, a) + (Present(files, b[..n]) + one) == Present(files, a) + Present(files, b[..n]) + one;
      assert n == 0 ==> b[..n] == [] && [] + one == one && b == [b[0]];
    }
  }

  lemma LegacyMembers(files: map<Path, string>, embedded: seq<Path>)
    ensures forall p :: p in LegacyFiles(files, embedded) <==> IsLegacy(embedded, p) && p in files
  {
    forall p ensures p in LegacyFiles(files, embedded) <==> IsLegacy(embedded, p) && p in files {
      PresentMembers(files, embedded + OVERLAYS, p);
    }
  }

  lemma {:induction false} PresentSame(f: map<Path, string>, g: map<Path, string>, paths: seq<Path>)
    requires forall p :: p in paths ==> (p in f <==> p in g)
    ensures Present(f, paths) == Present(g, paths)
  {
    if paths != [] {
      PresentSame(f, g, paths[..|paths| - 1]);
    }
  }

  lemma NoneLeft(files: map<Path, string>, embedded: seq<Path>)
    ensures LegacyFiles(files, embedded) == [] <==> forall p :: p in files ==> !IsLegacy(embedded, p)
  {
    LegacyMembers(files, embedded);
    var legacy := LegacyFiles(files, embedded);
    if legacy != [] {
      assert legacy[0] in legacy;
    }
  }

  lemma OwnPaths(embedded: seq<Path>)
    requires EmbeddedOk(embedded)
    ensures !IsLegacy(embedded, LUA) && !IsLegacy(embedded, TMP) && LUA != TMP
  {
    assert |LUA| == 10 && |TMP| == 14;
    assert forall i :: 0 <= i < |OVERLAYS| ==> |OVERLAYS[i]| > 14;
  }

  // The files that survive: everything that is not legacy.
  function Strip(files: map<Path, string>, embedded: seq<Path>): map<Path, string> {
    map p | p in files && !IsLegacy(embedded, p) :: files[p]
  }

  lemma RemovesLegacy(fs: Fs, files: map<Path, string>, embedded: seq<Path>)
    requires forall p :: IsLegacy(embedded, p) && p in fs.files ==> p in files
    ensures Removed(fs, LegacyFiles(files, embedded)) == fs.(files := Strip(fs.files, embedded))
  {
    LegacyMembers(files, embedded);
  }

  // An uninterrupted run, in one formula.
  lemma MigratedIs(fs: Fs, embedded: seq<Path>, parse: string -> Option<Value>)
    requires EmbeddedOk(embedded)
    ensures var plan := PlanOf(fs, embedded, parse);
      plan.Write? || plan.Keep? ==>
        Migrated(fs, embedded, parse)
        == Pruned(fs.(files := Strip(Rewritten(fs, plan).files, embedded)), |LEGACY_DIRS|)
  {
    hide IsLegacy, LegacyFiles, Strip, Pruned, GeneratedText;
    var plan := PlanOf(fs, embedded, parse);
    if plan.Write? || plan.Keep? {
      OwnPaths(embedded);
      RemovesLegacy(Rewritten(fs, plan), fs.files, embedded);
    }
  }

  // The temporary file is not an input of the migration.
  lemma TmpIsNoInput(fs: Fs, t: string, embedded: seq<Path>, parse: string -> Option<Value>)
    requires EmbeddedOk(embedded)
    ensures var s := fs.(files := fs.files[TMP := t]);
      LegacyFiles(s.files, embedded) == LegacyFiles(fs.files, embedded) &&
      PlanOf(s, embedded, parse) == PlanOf(fs, embedded, parse)
  {
    hide HasMarker, ReadLegacy;
    OwnPaths(embedded);
    var files := fs.files[TMP := t];
    forall p | p in embedded + OVERLAYS ensures p in files <==> p in fs.files {
      assert IsLegacy(embedded, p);
    }
    PresentSame(files, fs.files, embedded + OVERLAYS);
    TmpNotRead(fs.files, t, parse);
  }

  lemma TmpNotRead(files: map<Path, string>, t: string, parse: string -> Option<Value>)
    ensures ReadLegacy(files[TMP := t], parse) == ReadLegacy(files, parse)
  {
    hide ReadMerged;
    TmpNotMerged(files, t, parse, "config.yaml", "config.local.yaml");
    TmpNotAgent(files, t, parse, KNOWN_AGENTS[0]);
    TmpNotAgent(files, t, parse, KNOWN_AGENTS[1]);
  }

  lemma TmpNotMerged(files: map<Path, string>, t: string, parse: string -> Option<Value>, base: Path, overlay: Path)
    requires |base| != |TMP| || base[0] != 'c'
    requires |overlay| != |TMP| || overlay[0] != 'c'
    ensures ReadMerged(files[TMP := t], parse, base, overlay) == ReadMerged(files, parse, base, overlay)
  {
    assert TMP[0] == 'c';
    assert base != TMP && overlay != TMP;
  }

  lemma TmpNotAgent(files: map<Path, string>, t: string, parse: string -> Option<Value>, agent: string)
    ensures ReadAgent(files[TMP := t], parse, agent) == ReadAgent(files, parse, agent)
  {
    hide ReadMerged;
    AgentFileStart(agent, "config.yaml");
    AgentFileStart(agent, "config.local.yaml");
    AgentFileStart(agent, "tokens.yaml");
    AgentFileStart(agent, "tokens.local.yaml");
    TmpNotMerged(files, t, parse, AgentFile(agent, "config.yaml"), AgentFile(agent, "config.local.yaml"));
    TmpNotMerged(files, t, parse, AgentFile(agent, "tokens.yaml"), AgentFile(agent, "tokens.local.yaml"));
  }

  lemma AgentFileStart(agent: string, name: string)
    ensures AgentFile(agent, name) != "" && AgentFile(agent, name)[0] == 'a'
  {
  }

  lemma RewrittenMarked(fs: Fs, embedded: seq<Path>, parse: string -> Option<Value>)
    ensures var plan := PlanOf(fs, embedded, parse);
      plan.Write? || plan.Keep? ==> LUA in Rewritten(fs, plan).files && HasMarker(Rewritten(fs, plan).files[LUA])
  {
    hide HasMarker, GeneratedText, Stamped, ReadLegacy;
    assert |LUA| == 10 && |TMP| == 14;
    var plan := PlanOf(fs, embedded, parse);
    if plan.Write? {
      if LUA in fs.files {
        StampedHasMarker(fs.files[LUA]);
      } else {
        GeneratedHasMarker(ReadLegacy(fs.files, parse).value);
      }
    }
  }

  lemma {:induction false} PrunedFacts(fs: Fs, n: nat, m: nat)
    requires n <= m <= |LEGACY_DIRS|
    ensures Pruned(fs, n).files == Pruned(fs, m).files == fs.files
    ensures Pruned(fs, m).dirs <= Pruned(fs, n).dirs <= fs.dirs
    decreases m
  {
    if n < m {
      PrunedFacts(fs, n, m - 1);
    } else if n > 0 {
      PrunedFacts(fs, n - 1, n - 1);
    }
  }

  // What a rerun makes of an interrupted state, compared with the uninterrupted run.
  ghost predicate Recovers(fs: Fs, embedded: seq<Path>, parse: string -> Option<Value>, s: Fs) {
    var again, whole := Migrated(s, embedded, parse), Migrated(fs, embedded, parse);
    && again.files == whole.files
    && whole.dirs <= again.dirs
    && (if LegacyFiles(s.files, embedded) != [] then again == whole else again == s)
  }

  lemma RecoverTorn(fs: Fs, embedded: seq<Path>, parse: string -> Option<Value>, s: Fs)
    requires EmbeddedOk(embedded) && PlanOf(fs, embedded, parse).Write? && Torn(fs, s)
    ensures Recovers(fs, embedded, parse, s)
  {
    hide IsLegacy, LegacyFiles, Pruned, Removed, HasMarker, ReadLegacy, GeneratedText, Stamped;
    TmpIsNoInput(fs, s.files[TMP], embedded, parse);
    assert |LUA| == 10 && |TMP| == 14;
    var plan := PlanOf(fs, embedded, parse);
    assert Rewritten(s, plan) == Rewritten(fs, plan);
  }

  lemma RecoverHalfway(fs: Fs, embedded: seq<Path>, parse: string -> Option<Value>, s: Fs)
    requires EmbeddedOk(embedded)
    requires PlanOf(fs, embedded, parse).Write? || PlanOf(fs, embedded, parse).Keep?
    requires Halfway(Rewritten(fs, PlanOf(fs, embedded, parse)), LegacyFiles(fs.files, embedded), s)
    ensures Recovers(fs, embedded, parse, s)
  {
    hide LegacyFiles, Pruned, HasMarker, ReadLegacy, GeneratedText, Stamped, Rewritten, Migrated, IsLegacy;
    var w := Rewritten(fs, PlanOf(fs, embedded, parse));
    var legacy := LegacyFiles(fs.files, embedded);
    var n :| 0 <= n <= |legacy| && s == Removed(w, legacy[..n]);
    OwnPaths(embedded);
    LegacyMembers(fs.files, embedded);
    RewrittenMarked(fs, embedded, parse);
    assert LUA in s.files && s.files[LUA] == w.files[LUA];
    assert Strip(s.files, embedded) == Strip(w.files, embedded);
    MigratedIs(fs, embedded, parse);
    RewrittenDirs(fs, PlanOf(fs, embedded, parse));
    var base := fs.(files := Strip(w.files, embedded));
    PrunedFacts(base, 0, |LEGACY_DIRS|);
    if LegacyFiles(s.files, embedded) == [] {
      NoneLeft(s.files, embedded);
      NoopRun(s, embedded, parse);
      assert Strip(s.files, embedded) == s.files;
    } else {
      MigratedIs(s, embedded, parse);
      KeptFiles(s, embedded, parse);
    }
  }

  lemma KeptFiles(s: Fs, embedded: seq<Path>, parse: string -> Option<Value>)
    requires LegacyFiles(s.files, embedded) != [] && LUA in s.files && HasMarker(s.files[LUA])
    ensures PlanOf(s, embedded, parse) == Keep && Rewritten(s, Keep) == s
  {
  }

  lemma NoopRun(s: Fs, embedded: seq<Path>, parse: string -> Option<Value>)
    requires LegacyFiles(s.files, embedded) == []
    ensures Migrated(s, embedded, parse) == s
  {
  }

  lemma RewrittenDirs(fs: Fs, plan: Plan)
    ensures Rewritten(fs, plan).dirs == fs.dirs
  {
  }

  lemma RecoverPruning(fs: Fs, embedded: seq<Path>, parse: string -> Option<Value>, s: Fs)
    requires EmbeddedOk(embedded)
    requires PlanOf(fs, embedded, parse).Write? || PlanOf(fs, embedded, parse).Keep?
    requires Pruning(Removed(Rewritten(fs, PlanOf(fs, embedded, parse)), LegacyFiles(fs.files, embedded)), s)
    ensures Recovers(fs, embedded, parse, s)
  {
    hide LegacyFiles, Pruned, HasMarker, ReadLegacy, GeneratedText, Stamped, Rewritten, IsLegacy;
    var w := Rewritten(fs, PlanOf(fs, embedded, parse));
    OwnPaths(embedded);
    LegacyMembers(fs.files, embedded);
    RewrittenLegacy(fs, PlanOf(fs, embedded, parse), embedded);
    RemovesLegacy(w, fs.files, embedded);
    var base := w.(files := Strip(w.files, embedded));
    var n :| 0 <= n <= |LEGACY_DIRS| && s == Pruned(base, n);
    PrunedFacts(base, n, |LEGACY_DIRS|);
    NoneLeft(s.files, embedded);
    NoopRun(s, embedded, parse);
  }

  lemma RewrittenLegacy(fs: Fs, plan: Plan, embedded: seq<Path>)
    requires EmbeddedOk(embedded)
    ensures forall p :: IsLegacy(embedded, p) ==> (p in Rewritten(fs, plan).files <==> p in fs.files)
  {
    OwnPaths(embedded);
  }

  // A crash anywhere is repaired by the next run: same files as an uninterrupted run; the whole
  // directory is the same unless the crash fell after the last removal, and then the rerun is a
  // no-op that leaves whatever empty directories had not been pruned.
  lemma Recovery(fs: Fs, embedded: seq<Path>, parse: string -> Option<Value>, s: Fs)
    requires EmbeddedOk(embedded) && CrashPoint(fs, embedded, parse, s)
    ensures Recovers(fs, embedded, parse, s)
  {
    hide Torn, Halfway, Pruning, Migrated;
    if s == fs {
      RecoverStart(fs, embedded, parse);
    } else if PlanOf(fs, embedded, parse).Write? && Torn(fs, s) {
      RecoverTorn(fs, embedded, parse, s);
    } else if Halfway(Rewritten(fs, PlanOf(fs, embedded, parse)), LegacyFiles(fs.files, embedded), s) {
      RecoverHalfway(fs, embedded, parse, s);
    } else {
      RecoverPruning(fs, embedded, parse, s);
    }
  }

  // Runs that were interrupted one after the other, each leaving its state to the next.
  ghost predicate Interrupted(states: seq<Fs>, embedded: seq<Path>, parse: string -> Option<Value>) {
    states != [] && forall i :: 0 < i < |states| ==> CrashPoint(states[i - 1], embedded, parse, states[i])
  }

  // However often the migration is interrupted, the first run that completes leaves the files an
  // uninterrupted run would have left.
  lemma {:induction false} RepeatedCrashes(states: seq<Fs>, embedded: seq<Path>, parse: string -> Option<Value>)
    requires EmbeddedOk(embedded) && Interrupted(states, embedded, parse)
    ensures Migrated(states[|states| - 1], embedded, parse).files == Migrated(states[0], embedded, parse).files
    ensures Migrated(states[0], embedded, parse).dirs <= Migrated(states[|states| - 1], embedded, parse).dirs
  {
    hide CrashPoint, Migrated;
    var n := |states| - 1;
    if n > 0 {
      RepeatedCrashes(states[..n], embedded, parse);
      assert states[..n][n - 1] == states[n - 1];
      Recovery(states[n - 1], embedded, parse, states[n]);
    }
  }

  lemma RecoverStart(fs: Fs, embedded: seq<Path>, parse: string -> Option<Value>)
    ensures Recovers(fs, embedded, parse, fs)
  {
  }

  // After a run no legacy file is left, unless one did not parse and nothing was changed;
  // and a further run changes nothing.
  lemma MigratedIsStable(fs: Fs, embedded: seq<Path>, parse: string -> Option<Value>)
    requires EmbeddedOk(embedded)
    ensures var t := Migrated(fs, embedded, parse);
      && (if PlanOf(fs, embedded, parse).Invalid? then t == fs else forall p :: p in t.files ==> !IsLegacy(embedded, p))
      && Migrated(t, embedded, parse) == t
  {
    hide LegacyFiles, Pruned, HasMarker, ReadLegacy, GeneratedText, Stamped, IsLegacy, Rewritten;
    var plan := PlanOf(fs, embedded, parse);
    var t := Migrated(fs, embedded, parse);
    NoneLeft(fs.files, embedded);
    if plan.Write? || plan.Keep? {
      MigratedIs(fs, embedded, parse);
      var base := fs.(files := Strip(Rewritten(fs, plan).files, embedded));
      PrunedFacts(base, 0, |LEGACY_DIRS|);
      NoneLeft(t.files, embedded);
      NoopRun(t, embedded, parse);
    }
  }

  // At every moment of a run the other files are as they were; an existing `config.lua` keeps its
  // text as a prefix; and the temporary file is touched only by a run that writes.
  lemma OthersUntouched(fs: Fs, embedded: seq<Path>, parse: string -> Option<Value>, s: Fs, p: Path)
    requires EmbeddedOk(embedded) && CrashPoint(fs, embedded, parse, s)
    ensures !IsLegacy(embedded, p) && p != LUA && p != TMP ==>
      (p in s.files <==> p in fs.files) && (p in fs.files ==> s.files[p] == fs.files[p])
    ensures LUA in fs.files ==> LUA in s.files && fs.files[LUA] <= s.files[LUA]
    ensures !PlanOf(fs, embedded, parse).Write? ==>
      (TMP in s.files <==> TMP in fs.files) && (TMP in fs.files ==> s.files[TMP] == fs.files[TMP])
  {
    hide LegacyFiles, Pruned, HasMarker, ReadLegacy, GeneratedText, IsLegacy;
    OwnPaths(embedded);
    LegacyMembers(fs.files, embedded);
    var plan := PlanOf(fs, embedded, parse);
    var w, legacy := Rewritten(fs, plan), LegacyFiles(fs.files, embedded);
    if plan.Write? || plan.Keep? {
      if Pruning(Removed(w, legacy), s) {
        var n :| 0 <= n <= |LEGACY_DIRS| && s == Pruned(Removed(w, legacy), n);
        PrunedFacts(Removed(w, legacy), n, n);
      }
      if Halfway(w, legacy, s) {
        var n :| 0 <= n <= |legacy| && s == Removed(w, legacy[..n]);
        assert forall q :: q in legacy[..n] ==> q in legacy;
      }
    }
  }

  // ---------- end to end ----------

  ghost predicate SoundParser(parse: string -> Option<Value>) {
    forall s :: parse(s).Some? ==> WellKeyed(parse(s).value)
  }

  lemma MergedOk(files: map<Path, string>, parse: string -> Option<Value>, base: Path, overlay: Path)
    requires SoundParser(parse)
    ensures var r := ReadMerged(files, parse, base, overlay); r.Merged? && r.value.Some? ==> WellKeyed(r.value.value)
  {
    hide WellKeyed, Merge;
    if base in files && overlay in files && parse(files[base]).Some? && parse(files[overlay]).Some? {
      MergeWellKeyed(parse(files[base]).value, parse(files[overlay]).value);
    }
  }

  lemma ReadLegacyOk(files: map<Path, string>, parse: string -> Option<Value>)
    requires SoundParser(parse)
    ensures ReadLegacy(files, parse).Some? ==> LegacyOk(ReadLegacy(files, parse).value)
  {
    hide ReadMerged, WellKeyed;
    MergedOk(files, parse, "config.yaml", "config.local.yaml");
    forall agent | agent == KNOWN_AGENTS[0] || agent == KNOWN_AGENTS[1]
      ensures ReadAgent(files, parse, agent).Some? ==> var y := ReadAgent(files, parse, agent).value;
        (y.config.Some? ==> WellKeyed(y.config.value)) && (y.tokens.Some? ==> WellKeyed(y.tokens.value))
    {
      MergedOk(files, parse, AgentFile(agent, "config.yaml"), AgentFile(agent, "config.local.yaml"));
      MergedOk(files, parse, AgentFile(agent, "tokens.yaml"), AgentFile(agent, "tokens.local.yaml"));
    }
  }

  // ---------- what the directory means afterwards ----------

  lemma StampOneLine()
    ensures IsComment(StampText())
  {
    assert OneLine(" Stamped by ravel-lite ") && OneLine("v1\U{2192}v2 migration; ") && OneLine("do not remove.");
  }

  lemma StampRenders()
    ensures ItemsOk([Blank, Comment(StampText()), Code(WriteOther)])
    ensures Render([Blank, Comment(StampText()), Code(WriteOther)]) == Stamp()
  {
    hide StampText, Render;
    StampOneLine();
    var comment, write := Comment(StampText()), Code(WriteOther);
    RenderOne(Blank);
    OneItem([Blank], comment);
    OneItem([Blank, comment], write);
    assert [Blank] + [comment] == [Blank, comment] && [Blank, comment] + [write] == [Blank, comment, write];
  }

  // The stamp reads as a blank line, a comment and one write.
  lemma StampReads()
    ensures Stamp() != "" && Stamp()[0] == '\n' && ReadProgram(Stamp()) == Some([WriteOther])
    ensures !IsSilent(Stamp()) && StampFollows(Stamp())
  {
    hide Next, StampText, Render, Statements, RenderItem;
    var items := [Blank, Comment(StampText()), Code(WriteOther)];
    StampRenders();
    ProgramRoundTrip(items);
    StampStatements(items);
    StampPieces(items);
  }

  lemma StampPieces(items: seq<Item>)
    requires |items| == 3 && items[0].Blank? && items[1].Comment? && items[2] == Code(WriteOther) && ItemsOk(items)
    ensures !IsSilent(Render(items)) && StampFollows(Render(items))
  {
    hide Next, RenderItem;
    var after, last := Render(items[1..]), Render(items[1..][1..]);
    ItemReads(items[0], after);
    ItemReads(items[1], last);
    ItemReads(items[2], Render(items[1..][1..][1..]));
    assert items[1..][0] == items[1] && items[1..][1..][0] == items[2];
    assert Render(items) == RenderItem(items[0]) + after && after == RenderItem(items[1]) + last;
    assert IsSilent(Render(items)) == IsSilent(after) == IsSilent(last);
    assert StampFollows(Render(items)) == StampFollows(after) == StampFollows(last);
  }

  lemma StampStatements(items: seq<Item>)
    requires |items| == 3 && items[0].Blank? && items[1].Comment? && items[2] == Code(WriteOther)
    ensures Statements(items) == [WriteOther]
  {
    assert items[1..][1..] == [items[2]] && items[1..][1..][1..] == [];
    assert Statements([items[2]]) == [WriteOther] + [];
  }

  // Stamping a script that reads adds one write, to a field that is not mirrored; but one that
  // comes to a `return` is refused from then on.
  lemma StampedReads(existing: string)
    requires ReadProgram(existing).Some?
    ensures if Returns(existing) then Refused(Stamped(existing)) && ReadProgram(Stamped(existing)).None?
            else ReadProgram(Stamped(existing)) == Some(ReadProgram(existing).value + [WriteOther])
  {
    hide ReadProgram, Returns, Refused, IsSilent, StampFollows, Stamp;
    StampReads();
    if existing == "" || existing[|existing| - 1] != '\n' {
      BlankLineReads(Stamp());
      ProgramAppends(existing, "\n" + Stamp());
      assert Stamped(existing) == existing + ("\n" + Stamp());
    } else {
      ProgramAppends(existing, Stamp());
    }
  }

  lemma BlankLineReads(s: string)
    ensures ReadProgram("\n" + s) == ReadProgram(s)
    ensures IsSilent("\n" + s) == IsSilent(s) && StampFollows("\n" + s) == StampFollows(s)
  {
    hide Next;
    NextBreak("\n" + s);
    assert ("\n" + s)[1..] == s;
  }

  // That write is not seen.
  lemma StampIsSilent(seed: Accumulator, program: seq<Stmt>, plan: Option<seq<Stmt>>)
    ensures Resolved(seed, Some(program + [WriteOther]), plan) == Resolved(seed, Some(program), plan)
  {
    RunConcat(Installed(seed), program, [WriteOther]);
    if Run(Installed(seed), program).Some? {
      RunOne(Run(Installed(seed), program).value, WriteOther);
    }
  }

  // The migration writes a stamp behind a `return`.
  ghost predicate StampsReturn(fs: Fs, embedded: seq<Path>, parse: string -> Option<Value>) {
    LUA in fs.files && PlanOf(fs, embedded, parse).Write? && Returns(fs.files[LUA])
  }

  // A directory that had its own `config.lua` resolves, under any plan, as it did before, and the
  // YAML it still held is dropped untranslated; but where a stamp comes behind a `return`, Lua
  // refuses the script.
  lemma OwnLuaKept(fs: Fs, embedded: seq<Path>, parse: string -> Option<Value>, seed: Accumulator)
    requires EmbeddedOk(embedded) && LUA in fs.files && ReadProgram(fs.files[LUA]).Some?
    ensures var t := Migrated(fs, embedded, parse);
      && LUA in t.files
      && if StampsReturn(fs, embedded, parse) then Refused(t.files[LUA]) && ReadProgram(t.files[LUA]).None?
         else ReadProgram(t.files[LUA]).Some? && SameMeaning(fs.files[LUA], t.files[LUA], seed)
  {
    hide ReadProgram, Returns, Refused, Resolved, Migrated, LegacyFiles, Stamped, HasMarker;
    OwnLuaText(fs, embedded, parse);
    StampedReads(fs.files[LUA]);
    forall plan {
      StampIsSilent(seed, ReadProgram(fs.files[LUA]).value, plan);
    }
  }

  // The two scripts resolve to the same under every plan.
  ghost predicate SameMeaning(a: string, b: string, seed: Accumulator) {
    forall plan :: Resolved(seed, ReadProgram(b), plan) == Resolved(seed, ReadProgram(a), plan)
  }

  // A directory without one, whose legacy files parse, resolves to the embedded defaults overridden
  // by its merged YAML, and under a plan to what the plan makes of these; resolving fails exactly
  // when the merged headroom is negative.
  lemma YamlTranslated(fs: Fs, embedded: seq<Path>, parse: string -> Option<Value>, seed: Accumulator)
    requires EmbeddedOk(embedded) && SoundParser(parse)
    requires LegacyFiles(fs.files, embedded) != [] && LUA !in fs.files && ReadLegacy(fs.files, parse).Some?
    ensures var legacy, t := ReadLegacy(fs.files, parse).value, Migrated(fs, embedded, parse);
      LUA in t.files && ReadProgram(t.files[LUA]).Some? && Translated(ReadProgram(t.files[LUA]), legacy, seed)
  {
    hide ReadLegacy, GeneratedText, ReadProgram, Translated, LegacyFiles, Pruned, IsLegacy, Stamped, HasMarker;
    var legacy := ReadLegacy(fs.files, parse).value;
    ReadLegacyOk(fs.files, parse);
    OwnPaths(embedded);
    MigratedIs(fs, embedded, parse);
    PrunedFacts(fs.(files := Strip(Rewritten(fs, PlanOf(fs, embedded, parse)).files, embedded)), 0, |LEGACY_DIRS|);
    GeneratedTextReads(legacy);
    ScriptTranslates(legacy, seed);
  }

  // The global script stands for the YAML, under every plan.
  ghost predicate Translated(global: Option<seq<Stmt>>, legacy: Legacy, seed: Accumulator)
    requires |legacy.agents| == |KNOWN_AGENTS|
  {
    var r := Resolved(seed, global, None);
    && (r.None? <==> IntAt(legacy.shared, "headroom").Some? && IntAt(legacy.shared, "headroom").value < 0)
    && (r.Some? ==> Overrides(r.value, seed, legacy))
    && forall plan :: Resolved(seed, global, plan) == if r.None? then None else Resolved(r.value, None, plan)
  }

  lemma ScriptTranslates(legacy: Legacy, seed: Accumulator)
    requires LegacyOk(legacy)
    ensures Translated(Some(Script(legacy)), legacy, seed)
  {
    hide Resolved, Overrides, Script, IntAt, WellKeyed, SettersOnly;
    TranslationKeepsMeaning(seed, legacy);
    ScriptSetters(legacy, seed);
    var r := Resolved(seed, Some(Script(legacy)), None);
    forall plan
      ensures Resolved(seed, Some(Script(legacy)), plan) == if r.None? then None else Resolved(r.value, None, plan)
    {
      PlanAfterSetters(seed, Script(legacy), plan);
    }
  }

  // Whatever a `config.lua` says, it is kept or stamped.
  lemma OwnLuaText(fs: Fs, embedded: seq<Path>, parse: string -> Option<Value>)
    requires EmbeddedOk(embedded) && LUA in fs.files
    ensures var t := Migrated(fs, embedded, parse);
      && LUA in t.files
      && t.files[LUA] == if PlanOf(fs, embedded, parse).Write? then Stamped(fs.files[LUA]) else fs.files[LUA]
  {
    hide ReadLegacy, LegacyFiles, Pruned, IsLegacy, Stamped, HasMarker;
    OwnPaths(embedded);
    if !PlanOf(fs, embedded, parse).Noop? {
      MigratedIs(fs, embedded, parse);
      PrunedFacts(fs.(files := Strip(Rewritten(fs, PlanOf(fs, embedded, parse)).files, embedded)), 0, |LEGACY_DIRS|);
    }
  }

  // What any directory resolves to once migrated. What a script of its own means is said where the
  // reader knows it.
  lemma MigrationKeepsMeaning(fs: Fs, embedded: seq<Path>, parse: string -> Option<Value>, seed: Accumulator)
    requires EmbeddedOk(embedded) && SoundParser(parse)
    ensures var t := Migrated(fs, embedded, parse);
      if LUA in fs.files then
        && LUA in t.files
        && t.files[LUA] == (if PlanOf(fs, embedded, parse).Write? then Stamped(fs.files[LUA]) else fs.files[LUA])
        && (ReadProgram(fs.files[LUA]).Some? ==>
              if StampsReturn(fs, embedded, parse) then Refused(t.files[LUA])
              else ReadProgram(t.files[LUA]).Some? && SameMeaning(fs.files[LUA], t.files[LUA], seed))
      else if LegacyFiles(fs.files, embedded) == [] || ReadLegacy(fs.files, parse).None? then t == fs
      else
        && LUA in t.files && ReadProgram(t.files[LUA]).Some?
        && Translated(ReadProgram(t.files[LUA]), ReadLegacy(fs.files, parse).value, seed)
  {
    hide ReadLegacy, GeneratedText, ReadProgram, Resolved, Translated, LegacyFiles, Pruned, Stamped, HasMarker, Removed;
    hide Returns, Refused, StampsReturn;
    if LUA in fs.files {
      OwnLuaText(fs, embedded, parse);
      if ReadProgram(fs.files[LUA]).Some? {
        OwnLuaKept(fs, embedded, parse, seed);
      }
    } else {
      assert !StampsReturn(fs, embedded, parse) by { NothingToStamp(fs, embedded, parse); }
      if LegacyFiles(fs.files, embedded) != [] && ReadLegacy(fs.files, parse).Some? {
        YamlTranslated(fs, embedded, parse, seed);
      }
    }
  }

  lemma NothingToStamp(fs: Fs, embedded: seq<Path>, parse: string -> Option<Value>)
    requires LUA !in fs.files
    ensures !StampsReturn(fs, embedded, parse)
  {
  }

  // A bare `return`, which Lua accepts, is a script Lua refuses once stamped.
  lemma ReturnRefused(parse: string -> Option<Value>)
    ensures var fs := Fs(map[LUA := "return\n", "config.yaml" := ""], {});
      var t := Migrated(fs, ["config.yaml"], parse);
      ReadProgram("return\n") == Some([]) && LUA in t.files && Refused(t.files[LUA])
  {
    hide LegacyFiles, Migrated, Stamped, HasMarker, Refused, Resolved;
    var files := map[LUA := "return\n", "config.yaml" := ""];
    var fs := Fs(files, {});
    assert |LUA| == 10 && |TMP| == 14 && |"config.yaml"| == 11;
    NoneLeft(files, ["config.yaml"]);
    assert "config.yaml" in files && IsLegacy(["config.yaml"], "config.yaml");
    ReturnReads();
    ReturnUnmarked();
    OwnLuaKept(fs, ["config.yaml"], parse, Accumulator("", 0, map[], map[], map[]));
  }

  lemma ReturnReads()
    ensures ReadProgram("return\n") == Some([]) && Returns("return\n")
  {
    assert "return\n"[6..] == "\n" && "--"[0] == '-' && "return" == "return\n"[..6];
    assert Next("return\n") == Return("\n");
    NextBreak("\n");
    assert "\n"[1..] == "";
    NextNothing();
  }

  lemma ReturnUnmarked()
    ensures !HasMarker("return\n")
  {
    MarkerLetters();
    LineEndIs("return\n", 6);
    assert "return\n"[..6] == "return" && "return\n"[7..] == "";
    TrimShort("return");
  }

  lemma TrimShort(s: string)
    ensures |Trim(s)| <= |s|
  {
    TrimStartShort(s);
    TrimEndShort(TrimStart(s));
  }

  lemma {:induction false} TrimStartShort(s: string)
    ensures |TrimStart(s)| <= |s|
  {
    if s != "" && IsSpace(s[0]) {
      TrimStartShort(s[1..]);
    }
  }

  lemma {:induction false} TrimEndShort(s: string)
    ensures |TrimEnd(s)| <= |s|
  {
    if s != "" && IsSpace(s[|s| - 1]) {
      TrimEndShort(s[..|s| - 1]);
    }
  }

  // ---------- particular directories ----------

  function NegativeYaml(): Value {
    Mapping([Entry(Str("headroom"), Integer(-1))])
  }

  function ParseNegative(): string -> Option<Value> {
    s => if s == "headroom: -1" then Some(NegativeYaml()) else None
  }

  // `headroom: -1` is translated into a script that raises an error.
  lemma NegativeHeadroom(seed: Accumulator)
    ensures var fs := Fs(map["config.yaml" := "headroom: -1"], {});
      var t := Migrated(fs, ["config.yaml"], ParseNegative());
      LUA in t.files && ReadProgram(t.files[LUA]).Some? && Resolved(seed, ReadProgram(t.files[LUA]), None).None?
  {
    hide ReadProgram, Resolved, Overrides, GeneratedText, Pruned, HasMarker, Stamped, Removed;
    var fs := Fs(map["config.yaml" := "headroom: -1"], {});
    NegativeRead(fs.files);
    assert |LUA| == 10 && |TMP| == 14 && |"config.yaml"| == 11;
    assert "config.yaml" in ["config.yaml"];
    NoneLeft(fs.files, ["config.yaml"]);
    NegativeParses();
    YamlTranslated(fs, ["config.yaml"], ParseNegative(), seed);
  }

  lemma NegativeParses()
    ensures SoundParser(ParseNegative()) && IntAt(Some(NegativeYaml()), "headroom") == Some(-1)
  {
  }

  lemma NegativeRead(files: map<Path, string>)
    requires files == map["config.yaml" := "headroom: -1"]
    ensures ReadLegacy(files, ParseNegative()).Some?
    ensures ReadLegacy(files, ParseNegative()).value.shared == Some(NegativeYaml())
  {
    hide NegativeYaml;
    assert |"config.yaml"| == 11 && |"config.local.yaml"| == 17;
    forall agent ensures ReadAgent(files, ParseNegative(), agent) == Some(AgentYaml(None, None)) {
      AgentFileStart(agent, "config.yaml");
      AgentFileStart(agent, "config.local.yaml");
      AgentFileStart(agent, "tokens.yaml");
      AgentFileStart(agent, "tokens.local.yaml");
      assert "config.yaml"[0] == 'c';
    }
  }

  // A run interrupted before its first prune leaves `phases`, which no rerun removes.
  lemma PruneInterrupted(parse: string -> Option<Value>)
    ensures var fs := Fs(map[LUA := VERSION_MARKER_LINE, "phases/work.md" := ""], {"phases"});
      var s := Fs(map[LUA := VERSION_MARKER_LINE], {"phases"});
      && CrashPoint(fs, ["phases/work.md"], parse, s)
      && "phases" in Migrated(s, ["phases/work.md"], parse).dirs
      && "phases" !in Migrated(fs, ["phases/work.md"], parse).dirs
  {
    hide LegacyFiles, Pruned, HasMarker, Stamped;
    var embedded := ["phases/work.md"];
    var fs := Fs(map[LUA := VERSION_MARKER_LINE, "phases/work.md" := ""], {"phases"});
    var s := Fs(map[LUA := VERSION_MARKER_LINE], {"phases"});
    var legacy := LegacyFiles(fs.files, embedded);
    assert |LUA| == 10 && |TMP| == 14 && |"phases/work.md"| == 14 && TMP[0] == 'c' && "phases/work.md"[0] == 'p';
    OwnPaths(embedded);
    MarkerIsMarker();
    NoneLeft(fs.files, embedded);
    assert "phases/work.md" in fs.files && IsLegacy(embedded, "phases/work.md");
    NoneLeft(s.files, embedded);
    NoopRun(s, embedded, parse);
    assert Strip(fs.files, embedded) == s.files;
    RemovesLegacy(fs, fs.files, embedded);
    assert legacy[..|legacy|] == legacy && Halfway(fs, legacy, s);
    PhasesPruned(s);
  }

  lemma PhasesPruned(s: Fs)
    requires s.dirs == {"phases"} && s.files.Keys == {LUA}
    ensures "phases" !in Pruned(s, |LEGACY_DIRS|).dirs
  {
    hide Pruned;
    assert LEGACY_DIRS[5] == "phases" && |"phases"| == 6 && ("phases" + "/")[0] == 'p' && LUA[0] == 'c';
    PrunedFacts(s, 5, 5);
    PrunedFacts(s, 0, 5);
    PrunedFacts(s, 6, |LEGACY_DIRS|);
    PruneStep(s, 5);
    assert IsEmptyDir(Pruned(s, 5), "phases");
  }

  lemma PruneStep(s: Fs, n: nat)
    requires n < |LEGACY_DIRS|
    ensures Pruned(s, n + 1) == PruneOne(Pruned(s, n), LEGACY_DIRS[n])
  {
  }

  // A run takes a file called `config.lua.tmp` with it if and only if it writes.
  lemma TmpLostIffWritten(fs: Fs, embedded: seq<Path>, parse: string -> Option<Value>)
    requires EmbeddedOk(embedded) && TMP in fs.files
    ensures TMP in Migrated(fs, embedded, parse).files <==> !PlanOf(fs, embedded, parse).Write?
  {
    hide LegacyFiles, Pruned, HasMarker, ReadLegacy, GeneratedText, Stamped, IsLegacy;
    OwnPaths(embedded);
    var plan := PlanOf(fs, embedded, parse);
    if plan.Write? || plan.Keep? {
      MigratedIs(fs, embedded, parse);
      PrunedFacts(fs.(files := Strip(Rewritten(fs, plan).files, embedded)), 0, |LEGACY_DIRS|);
    }
  }

  // Such a file of the user's own is lost when an unstamped `config.lua` is stamped.
  lemma TmpLost(text: string, parse: string -> Option<Value>)
    ensures var fs := Fs(map[LUA := "", TMP := text, "config.yaml" := ""], {});
      TMP !in Migrated(fs, ["config.yaml"], parse).files
  {
    hide LegacyFiles, Migrated, Stamped, HasMarker;
    var files := map[LUA := "", TMP := text, "config.yaml" := ""];
    assert |LUA| == 10 && |TMP| == 14 && |"config.yaml"| == 11;
    NoneLeft(files, ["config.yaml"]);
    assert "config.yaml" in files && IsLegacy(["config.yaml"], "config.yaml");
    EmptyUnmarked();
    TmpLostIffWritten(Fs(files, {}), ["config.yaml"], parse);
  }

  lemma EmptyUnmarked()
    ensures !HasMarker("")
  {
    MarkerLetters();
  }

  // ---------- the steps on disk ----------

  datatype Outcome = Finished | NothingToDo | Failed

  class ConfigDir {
    var files: map<Path, string>
    var dirs: set<Path>
    // Every state the directory has been in, in order.
    ghost var history: seq<Fs>

    function Snapshot(): Fs
      reads this`files, this`dirs
    {
      Fs(files, dirs)
    }

    // The state was recorded by the steps after the first `n`.
    ghost predicate Since(n: nat, fs: Fs, embedded: seq<Path>, parse: string -> Option<Value>)
      reads this
    {
      n <= |history| && forall i :: n <= i < |history| ==> CrashPoint(fs, embedded, parse, history[i])
    }

    // `fs::write` is not atomic: it may be interrupted with any partial content on disk.
    method WriteFile(path: Path, body: string)
      modifies this`files, this`history
      ensures files == old(files)[path := body]
      ensures |history| == |old(history)| + 2 && history[..|old(history)|] == old(history)
      ensures var torn := history[|old(history)|];
        path in torn.files && torn == Fs(old(files)[path := torn.files[path]], dirs)
      ensures history[|old(history)| + 1] == Snapshot()
    {
      var partial: string := *;
      files := files[path := partial];
      history := history + [Snapshot()];
      files := files[path := body];
      history := history + [Snapshot()];
    }

    method Rename(from: Path, to: Path)
      requires from in files && from != to
      modifies this`files, this`history
      ensures files == old(files)[to := old(files)[from]] - {from}
      ensures history == old(history) + [Snapshot()]
    {
      files := files[to := files[from]] - {from};
      history := history + [Snapshot()];
    }

    // A missing file is not an error.
    method RemoveFile(path: Path)
      modifies this`files, this`history
      ensures files == old(files) - {path}
      ensures history == old(history) + [Snapshot()]
    {
      files := files - {path};
      history := history + [Snapshot()];
    }

    // A directory that is not empty is left alone.
    method RemoveDir(dir: Path)
      modifies this`dirs, this`history
      ensures Snapshot() == PruneOne(old(Snapshot()), dir)
      ensures history == old(history) + [Snapshot()]
    {
      if dir in dirs && IsEmptyDir(Snapshot(), dir) {
        dirs := dirs - {dir};
      }
      history := history + [Snapshot()];
    }

    method WriteAtomic(body: string)
      modifies this`files, this`history
      ensures files == old(files)[LUA := body] - {TMP}
      ensures |history| == |old(history)| + 3 && history[..|old(history)|] == old(history)
      ensures forall i :: |old(history)| <= i < |old(history)| + 2 ==> Torn(old(Snapshot()), history[i])
      ensures history[|old(history)| + 2] == Snapshot()
    {
      assert |LUA| == 10 && |TMP| == 14;
      WriteFile(TMP, body);
      Rename(TMP, LUA);
    }

    method DeleteLegacyFiles(legacy: seq<Path>)
      modifies this`files, this`history
      ensures Snapshot() == Removed(old(Snapshot()), legacy)
      ensures |old(history)| <= |history| && history[..|old(history)|] == old(history)
      ensures forall i :: |old(history)| <= i < |history| ==> Halfway(old(Snapshot()), legacy, history[i])
    {
      ghost var before := Snapshot();
      assert Removed(before, legacy[..0]).files == files;
      for i := 0 to |legacy|
        invariant Snapshot() == Removed(before, legacy[..i])
        invariant |old(history)| <= |history| && history[..|old(history)|] == old(history)
        invariant forall j :: |old(history)| <= j < |history| ==> Halfway(before, legacy, history[j])
      {
        RemoveFile(legacy[i]);
        assert forall p :: p in legacy[..i + 1] <==> p in legacy[..i] || p == legacy[i];
        assert files == Removed(before, legacy[..i + 1]).files;
        assert Halfway(before, legacy, Snapshot());
      }
      assert legacy[..|legacy|] == legacy;
    }

    method PruneLegacyDirs()
      modifies this`dirs, this`history
      ensures Snapshot() == Pruned(old(Snapshot()), |LEGACY_DIRS|)
      ensures |old(history)| <= |history| && history[..|old(history)|] == old(history)
      ensures forall i :: |old(history)| <= i < |history| ==> Pruning(old(Snapshot()), history[i])
    {
      ghost var before := Snapshot();
      for i := 0 to |LEGACY_DIRS|
        invariant Snapshot() == Pruned(before, i)
        invariant |old(history)| <= |history| && history[..|old(history)|] == old(history)
        invariant forall j :: |old(history)| <= j < |history| ==> Pruning(before, history[j])
      {
        RemoveDir(LEGACY_DIRS[i]);
        assert Snapshot() == Pruned(before, i + 1);
        assert Pruning(before, Snapshot());
      }
    }

    // Every state on the way is one of the listed crash points.
    method MigrateIfNeeded(embedded: seq<Path>, parse: string -> Option<Value>) returns (r: Outcome)
      modifies this
      ensures Snapshot() == Migrated(old(Snapshot()), embedded, parse)
      ensures Since(|old(history)|, old(Snapshot()), embedded, parse) && history[..|old(history)|] == old(history)
      ensures r == (match PlanOf(old(Snapshot()), embedded, parse)
        case Noop => NothingToDo
        case Invalid => Failed
        case _ => Finished)
    {
      hide Halfway, Pruning, Torn, HasMarker, Stamped, ReadLegacy, GeneratedText, Pruned, Removed, LegacyFiles;
      ghost var fs, plan := Snapshot(), PlanOf(Snapshot(), embedded, parse);
      var legacy := LegacyFiles(files, embedded);
      if legacy == [] {
        return NothingToDo;
      }
      if LUA !in files {
        match ReadLegacy(files, parse) {
          case None => return Failed;
          case Some(yaml) =>
            var body := GenerateLua(yaml);
            WriteAtomic(body);
        }
      } else if !HasMarker(files[LUA]) {
        WriteAtomic(Stamped(files[LUA]));
      }
      assert Snapshot() == Rewritten(fs, plan);
      NothingRemoved(fs, plan, legacy);
      assert Since(|old(history)|, fs, embedded, parse);
      DeleteLegacyFiles(legacy);
      assert Since(|old(history)|, fs, embedded, parse);
      PruneLegacyDirs();
      r := Finished;
    }
  }

  lemma NothingRemoved(fs: Fs, plan: Plan, legacy: seq<Path>)
    ensures Halfway(Rewritten(fs, plan), legacy, Rewritten(fs, plan))
  {
    assert Removed(Rewritten(fs, plan), legacy[..0]).files == Rewritten(fs, plan).files;
  }
}
