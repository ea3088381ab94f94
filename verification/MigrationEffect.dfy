// What a completed migration run leaves in the configuration directory, path by path
// (src/migrate_v1_to_v2.rs).
module MigrationEffect {
  import opened Wrappers
  import opened Whitespace
  import opened Yaml
  import opened LuaText
  import opened Translation
  import opened Migration
  import opened DirectoryMeaning

  // ---------- the marker line ----------

  predicate Spaces(s: string) {
    forall i :: 0 <= i < |s| ==> IsSpace(s[i])
  }

  // `s[i..j]` is a line of `s`.
  predicate IsLine(s: string, i: int, j: int) {
    && 0 <= i <= j <= |s| && (i == 0 || s[i - 1] == '\n') && (j == |s| || s[j] == '\n')
    && forall k :: i <= k < j ==> s[k] != '\n'
  }

  // The line is `text` with nothing but spaces around it.
  ghost predicate Padded(line: string, text: string) {
    exists a, b :: Spaces(a) && Spaces(b) && line == a + text + b
  }

  // Some line of `s` is the version stamp.
  ghost predicate HasStamp(s: string) {
    exists i, j :: IsLine(s, i, j) && Padded(s[i..j], "ravel.config.config_version = 2")
  }

  lemma {:induction false} TrimStartSplits(s: string) returns (a: string)
    ensures Spaces(a) && s == a + TrimStart(s)
  {
    if s != "" && IsSpace(s[0]) {
      var b := TrimStartSplits(s[1..]);
      a := [s[0]] + b;
      assert s == [s[0]] + s[1..];
    } else {
      a := "";
    }
  }

  lemma {:induction false} TrimEndSplits(s: string) returns (b: string)
    ensures Spaces(b) && s == TrimEnd(s) + b
  {
    if s != "" && IsSpace(s[|s| - 1]) {
      var a := TrimEndSplits(s[..|s| - 1]);
      b := a + [s[|s| - 1]];
      assert s == s[..|s| - 1] + [s[|s| - 1]];
    } else {
      b := "";
    }
  }

  lemma {:induction false} TrimStartDrops(a: string, s: string)
    requires Spaces(a) && s != "" && !IsSpace(s[0])
    ensures TrimStart(a + s) == s
  {
    if a == "" {
      assert a + s == s;
    } else {
      assert (a + s)[1..] == a[1..] + s;
      TrimStartDrops(a[1..], s);
    }
  }

  lemma {:induction false} TrimEndDrops(s: string, b: string)
    requires Spaces(b) && s != "" && !IsSpace(s[|s| - 1])
    ensures TrimEnd(s + b) == s
  {
    if b == "" {
      assert s + b == s;
    } else {
      assert (s + b)[..|s + b| - 1] == s + b[..|b| - 1];
      TrimEndDrops(s, b[..|b| - 1]);
    }
  }

  lemma TrimIff(line: string, text: string)
    requires text != "" && !IsSpace(text[0]) && !IsSpace(text[|text| - 1])
    ensures Trim(line) == text <==> Padded(line, text)
  {
    hide TrimStart, TrimEnd, IsSpace;
    if Trim(line) == text {
      var a := TrimStartSplits(line);
      var b := TrimEndSplits(TrimStart(line));
      assert line == a + text + b;
    }
    if Padded(line, text) {
      var a, b :| Spaces(a) && Spaces(b) && line == a + text + b;
      assert line == a + (text + b);
      TrimStartDrops(a, text + b);
      TrimEndDrops(text, b);
    }
  }

  lemma MarkerText()
    ensures VERSION_MARKER_LINE == "ravel.config.config_version = 2"
  {
    assert "ravel.config" + ".config_version" == "ravel.config.config_version";
  }

  lemma LaterLine(s: string, n: nat, i: int, j: int)
    requires n < |s| && s[n] == '\n' && IsLine(s[n + 1..], i, j)
    ensures IsLine(s, n + 1 + i, n + 1 + j) && s[n + 1 + i..n + 1 + j] == s[n + 1..][i..j]
  {
    var rest := s[n + 1..];
    assert forall k :: 0 <= k < |rest| ==> rest[k] == s[n + 1 + k];
  }

  lemma FirstBreak(s: string, k: nat)
    requires k < |s| && s[k] == '\n'
    ensures LineEnd(s) <= k
  {
  }

  lemma RestLine(s: string, n: nat, i: int, j: int)
    requires 0 < n <= i && n <= |s| && s[n - 1] == '\n' && IsLine(s, i, j)
    ensures IsLine(s[n..], i - n, j - n) && s[n..][i - n..j - n] == s[i..j]
  {
    var rest := s[n..];
    assert forall k :: 0 <= k < |rest| ==> rest[k] == s[n + k];
  }

  // A line is the first one or one of the rest.
  lemma LineHere(s: string, i: int, j: int)
    requires IsLine(s, i, j)
    ensures i == 0 ==> j == LineEnd(s)
    ensures i > 0 ==> LineEnd(s) < |s| && var n := LineEnd(s) + 1;
      n <= i && IsLine(s[n..], i - n, j - n) && s[n..][i - n..j - n] == s[i..j]
  {
    if i == 0 {
      LineEndIs(s, j);
    } else {
      FirstBreak(s, i - 1);
      RestLine(s, LineEnd(s) + 1, i, j);
    }
  }

  // Some line is `text`, once trimmed.
  ghost predicate SomeLine(s: string, text: string) {
    exists i, j :: IsLine(s, i, j) && Trim(s[i..j]) == text
  }

  // The search line by line finds exactly that.
  lemma {:induction false} MarkerIsLine(s: string)
    ensures HasMarker(s) <==> SomeLine(s, VERSION_MARKER_LINE)
    decreases |s|
  {
    hide Trim;
    var n := LineEnd(s);
    assert IsLine(s, 0, n) && s[0..n] == s[..n];
    if n < |s| {
      var rest := s[n + 1..];
      MarkerIsLine(rest);
      if i, j :| IsLine(rest, i, j) && Trim(rest[i..j]) == VERSION_MARKER_LINE {
        LaterLine(s, n, i, j);
      }
    }
    if i, j :| IsLine(s, i, j) && Trim(s[i..j]) == VERSION_MARKER_LINE {
      LineHere(s, i, j);
    }
  }

  lemma MarkerIsStamp(s: string)
    ensures HasMarker(s) <==> HasStamp(s)
  {
    hide HasMarker, Trim, Padded, IsLine;
    MarkerIsLine(s);
    MarkerText();
    MarkerLetters();
    forall i, j | IsLine(s, i, j)
      ensures 0 <= i <= j <= |s|
      ensures Trim(s[i..j]) == VERSION_MARKER_LINE <==> Padded(s[i..j], VERSION_MARKER_LINE)
    {
      LineBounds(s, i, j);
      TrimIff(s[i..j], VERSION_MARKER_LINE);
    }
  }

  lemma LineBounds(s: string, i: int, j: int)
    requires IsLine(s, i, j)
    ensures 0 <= i <= j <= |s|
  {
  }

  // ---------- the former directories ----------

  predicate Former(d: Path) {
    d == "agents/claude-code" || d == "agents/pi/prompts" || d == "agents/pi/subagents" || d == "agents/pi" ||
    d == "agents" || d == "phases" || d == "fixed-memory"
  }

  // Something of the user's own is under `d`: a file, or a directory that is none of the former ones.
  ghost predicate Occupied(fs: Fs, d: Path) {
    (exists p :: p in fs.files && d + "/" <= p) || (exists e :: e in fs.dirs && !Former(e) && d + "/" <= e)
  }

  lemma FormerDirs()
    ensures forall d :: Former(d) <==> d in LEGACY_DIRS
    ensures |LEGACY_DIRS| == 7
    ensures LEGACY_DIRS[0] == "agents/claude-code" && LEGACY_DIRS[1] == "agents/pi/prompts"
    ensures LEGACY_DIRS[2] == "agents/pi/subagents" && LEGACY_DIRS[3] == "agents/pi"
    ensures LEGACY_DIRS[4] == "agents" && LEGACY_DIRS[5] == "phases" && LEGACY_DIRS[6] == "fixed-memory"
  {
  }

  lemma DirLetters()
    ensures |"agents/claude-code"| == 18 && |"agents/pi/prompts"| == 17 && |"agents/pi/subagents"| == 19
    ensures |"agents/pi"| == 9 && |"agents"| == 6 && |"phases"| == 6 && |"fixed-memory"| == 12
    ensures "agents/claude-code"[7] == 'c' && "agents/pi/subagents"[7] == 'p'
    ensures "agents/pi/prompts"[10] == 'p' && "agents/pi/subagents"[10] == 's'
    ensures "agents"[0] == 'a' && "agents/pi"[0] == 'a' && "phases"[0] == 'p' && "fixed-memory"[0] == 'f'
  {
  }

  lemma UnderAgrees(d: Path, e: Path, k: nat)
    requires Under(d, e)
    ensures |d| < |e| && (k < |d| ==> d[k] == e[k])
  {
    if k < |d| { assert (d + "/")[k] == e[k]; }
  }

  // Directories come after those under them.
  lemma DeepestFirst(i: nat, j: nat)
    requires i < |LEGACY_DIRS| && j < |LEGACY_DIRS| && Under(LEGACY_DIRS[i], LEGACY_DIRS[j])
    ensures j < i
  {
    hide Under;
    FormerDirs();
    DirLetters();
    if i <= j {
      var d, e := LEGACY_DIRS[i], LEGACY_DIRS[j];
      UnderAgrees(d, e, if i == 0 then 7 else if i == 1 then 10 else 0);
    }
  }

  lemma EachOnce(i: nat, j: nat)
    requires i < j < |LEGACY_DIRS|
    ensures LEGACY_DIRS[i] != LEGACY_DIRS[j]
  {
    FormerDirs();
    DirLetters();
  }

  lemma UnderTransitive(d: Path, e: Path, p: Path)
    requires Under(d, e) && Under(e, p)
    ensures Under(d, p)
  {
    assert forall k :: 0 <= k < |d| + 1 ==> (d + "/")[k] == e[k] && e[k] == (e + "/")[k];
    assert forall k :: 0 <= k < |d| + 1 ==> (e + "/")[k] == p[k];
  }

  lemma OccupiedAbove(fs: Fs, d: Path, e: Path)
    requires Under(d, e) && Occupied(fs, e)
    ensures Occupied(fs, d)
  {
    hide Under;
    UnderHere(fs, e);
    UnderHere(fs, d);
    if p :| p in fs.files && Under(e, p) {
      UnderTransitive(d, e, p);
    } else {
      var c :| c in fs.dirs && !Former(c) && Under(e, c);
      UnderTransitive(d, e, c);
    }
  }

  // The first `n` former directories have been dealt with.
  ghost predicate PrunedTo(fs: Fs, n: nat, t: Fs)
    requires n <= |LEGACY_DIRS|
  {
    && t.files == fs.files
    && (forall d :: d in t.dirs ==> d in fs.dirs)
    && (forall d :: d in fs.dirs && d !in LEGACY_DIRS[..n] ==> d in t.dirs)
    && (forall d :: d in fs.dirs && d in LEGACY_DIRS[..n] ==> (d in t.dirs <==> Occupied(fs, d)))
  }

  // When the turn of a directory comes, it is empty exactly if nothing of the user's own is under it.
  lemma EmptyInTurn(fs: Fs, n: nat, t: Fs)
    requires n < |LEGACY_DIRS| && PrunedTo(fs, n, t)
    ensures IsEmptyDir(t, LEGACY_DIRS[n]) <==> !Occupied(fs, LEGACY_DIRS[n])
  {
    hide Under, Former;
    FormerDirs();
    var d := LEGACY_DIRS[n];
    UnderHere(fs, d);
    forall e | e in t.dirs && Under(d, e) ensures Occupied(fs, d) {
      if Former(e) {
        var j :| 0 <= j < |LEGACY_DIRS| && LEGACY_DIRS[j] == e;
        DeepestFirst(n, j);
        assert LEGACY_DIRS[..n][j] == e;
        OccupiedAbove(fs, d, e);
      }
    }
    forall e | e in fs.dirs && !Former(e) ensures e in t.dirs {
      assert e !in LEGACY_DIRS;
    }
  }

  lemma UnderHere(fs: Fs, d: Path)
    ensures Occupied(fs, d) <==>
      (exists p :: p in fs.files && Under(d, p)) || (exists e :: e in fs.dirs && !Former(e) && Under(d, e))
  {
  }

  lemma PruneOneStep(fs: Fs, n: nat, t: Fs)
    requires n < |LEGACY_DIRS| && PrunedTo(fs, n, t)
    ensures PrunedTo(fs, n + 1, PruneOne(t, LEGACY_DIRS[n]))
  {
    hide IsEmptyDir, Occupied;
    EmptyInTurn(fs, n, t);
    var d := LEGACY_DIRS[n];
    forall i | 0 <= i < n ensures LEGACY_DIRS[i] != d {
      EachOnce(i, n);
    }
    assert LEGACY_DIRS[..n + 1] == LEGACY_DIRS[..n] + [d];
  }

  lemma {:induction false} PrunedSoFar(fs: Fs, n: nat)
    requires n <= |LEGACY_DIRS|
    ensures PrunedTo(fs, n, Pruned(fs, n))
  {
    hide Occupied, PruneOne;
    if n > 0 {
      PrunedSoFar(fs, n - 1);
      PruneOneStep(fs, n - 1, Pruned(fs, n - 1));
    }
  }

  // A former directory survives if and only if something of the user's own is under it; others are left alone.
  lemma PruneMeaning(fs: Fs, d: Path)
    ensures d in Pruned(fs, |LEGACY_DIRS|).dirs <==> d in fs.dirs && (Former(d) ==> Occupied(fs, d))
  {
    hide Occupied, Pruned, Former;
    FormerDirs();
    PrunedSoFar(fs, |LEGACY_DIRS|);
    assert LEGACY_DIRS[..|LEGACY_DIRS|] == LEGACY_DIRS;
  }

  // ---------- a completed run ----------

  // The local overlays, and the files they lie over.
  predicate Overlay(p: Path) {
    || p == "config.local.yaml"
    || p == "agents/claude-code/config.local.yaml" || p == "agents/claude-code/tokens.local.yaml"
    || p == "agents/pi/config.local.yaml" || p == "agents/pi/tokens.local.yaml"
  }

  // A shipped default or an overlay.
  predicate V1File(embedded: seq<Path>, p: Path) {
    p in embedded || Overlay(p)
  }

  lemma LegacyIs(embedded: seq<Path>)
    ensures forall p :: IsLegacy(embedded, p) <==> V1File(embedded, p)
  {
  }

  ghost predicate HasLegacy(fs: Fs, embedded: seq<Path>) {
    exists p :: p in fs.files && V1File(embedded, p)
  }

  // Nothing to do, or nothing that can be done.
  ghost predicate LeftAlone(fs: Fs, embedded: seq<Path>, parse: Parser) {
    !HasLegacy(fs, embedded) || ("config.lua" !in fs.files && !AllReadable(fs.files, parse))
  }

  // A run writes unless the stamp is already there.
  ghost predicate Writes(fs: Fs) {
    "config.lua" !in fs.files || !HasStamp(fs.files["config.lua"])
  }

  // A stamped `config.lua` stays as it is, an unstamped one goes on with a stamp, a new one is stamped.
  ghost predicate LuaAfter(fs: Fs, t: Fs) {
    && "config.lua" in t.files && HasStamp(t.files["config.lua"])
    && ("config.lua" in fs.files ==> fs.files["config.lua"] <= t.files["config.lua"])
    && ("config.lua" in fs.files && HasStamp(fs.files["config.lua"]) ==>
          t.files["config.lua"] == fs.files["config.lua"])
  }

  // What a completed run makes of every path.
  ghost predicate Effect(fs: Fs, embedded: seq<Path>, t: Fs) {
    && LuaAfter(fs, t)
    && (forall p :: V1File(embedded, p) ==> p !in t.files)
    && (Writes(fs) ==> "config.lua.tmp" !in t.files)
    && (forall p :: p != "config.lua" && !V1File(embedded, p) && !(Writes(fs) && p == "config.lua.tmp") ==>
          (p in t.files <==> p in fs.files) && (p in fs.files ==> t.files[p] == fs.files[p]))
    && (forall d :: d in t.dirs <==> d in fs.dirs && (Former(d) ==> Occupied(Fs(t.files, fs.dirs), d)))
  }

  lemma PlanIs(fs: Fs, embedded: seq<Path>, parse: Parser)
    ensures var plan := PlanOf(fs, embedded, parse);
      && (plan.Noop? || plan.Invalid? <==> LeftAlone(fs, embedded, parse))
      && (plan.Noop? <==> !HasLegacy(fs, embedded))
      && (plan.Write? <==> !LeftAlone(fs, embedded, parse) && Writes(fs))
  {
    hide HasMarker, ReadLegacy, AllReadable, HasStamp, LegacyFiles, V1File, IsLegacy;
    LegacyIs(embedded);
    NoneLeft(fs.files, embedded);
    LegacyRead(fs.files, parse);
    assert LUA == "config.lua";
    if "config.lua" in fs.files { MarkerIsStamp(fs.files["config.lua"]); }
  }

  lemma LuaIs(fs: Fs, embedded: seq<Path>, parse: Parser, t: Fs)
    requires EmbeddedOk(embedded) && !LeftAlone(fs, embedded, parse) && t == Migrated(fs, embedded, parse)
    ensures LuaAfter(fs, t)
  {
    hide HasMarker, ReadLegacy, AllReadable, HasStamp, LegacyFiles, V1File, IsLegacy, Pruned, Stamp, GeneratedText;
    PlanIs(fs, embedded, parse);
    OwnPaths(embedded);
    MigratedIs(fs, embedded, parse);
    var plan := PlanOf(fs, embedded, parse);
    PrunedFacts(fs.(files := Strip(Rewritten(fs, plan).files, embedded)), 0, |LEGACY_DIRS|);
    RewrittenMarked(fs, embedded, parse);
    assert t.files[LUA] == Rewritten(fs, plan).files[LUA];
    MarkerIsStamp(t.files[LUA]);
  }

  // After a run every path is as `Effect` says, or nothing has changed.
  lemma RunEffect(fs: Fs, embedded: seq<Path>, parse: Parser)
    requires EmbeddedOk(embedded)
    ensures var t := Migrated(fs, embedded, parse);
      if LeftAlone(fs, embedded, parse) then t == fs else Effect(fs, embedded, t)
  {
    hide HasMarker, ReadLegacy, AllReadable, HasStamp, LegacyFiles, V1File, IsLegacy, Pruned, Stamped, GeneratedText,
         Former, Occupied, LuaAfter;
    PlanIs(fs, embedded, parse);
    if !LeftAlone(fs, embedded, parse) {
      OwnPaths(embedded);
      LegacyIs(embedded);
      var plan, t := PlanOf(fs, embedded, parse), Migrated(fs, embedded, parse);
      MigratedIs(fs, embedded, parse);
      LuaIs(fs, embedded, parse, t);
      var base := fs.(files := Strip(Rewritten(fs, plan).files, embedded));
      PrunedFacts(base, 0, |LEGACY_DIRS|);
      forall d ensures d in t.dirs <==> d in fs.dirs && (Former(d) ==> Occupied(base, d)) {
        PruneMeaning(base, d);
      }
      assert base == Fs(t.files, fs.dirs);
      assert LUA == "config.lua" && TMP == "config.lua.tmp";
    }
  }
}
