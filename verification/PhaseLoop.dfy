// The phase cycle of src/phase_loop.rs over an abstract repository: a working tree, an index
// and a list of committed trees (src/git.rs).
module PhaseLoop {
  import opened Wrappers
  import opened Whitespace

  type Path = string
  type Tree = map<Path, string>

  // ---------- phases ----------

  datatype LlmPhase = Triage | Work | AnalyseWork | Reflect | MigrateIntent | MigrateTargets | MigrateMemoryBackfill

  datatype ScriptPhase = GitCommitTriage | GitCommitWork | GitCommitAnalyseWork | GitCommitReflect

  datatype Phase = Llm(llm: LlmPhase) | Script(script: ScriptPhase)

  function Name(p: Phase): string {
    match p
    case Llm(Triage) => "triage"
    case Llm(Work) => "work"
    case Llm(AnalyseWork) => "analyse-work"
    case Llm(Reflect) => "reflect"
    case Llm(MigrateIntent) => "migrate-intent"
    case Llm(MigrateTargets) => "migrate-targets"
    case Llm(MigrateMemoryBackfill) => "migrate-memory-backfill"
    case Script(GitCommitTriage) => "git-commit-triage"
    case Script(GitCommitWork) => "git-commit-work"
    case Script(GitCommitAnalyseWork) => "git-commit-analyse-work"
    case Script(GitCommitReflect) => "git-commit-reflect"
  }

  function Parse(s: string): Option<Phase> {
    if s == "triage" then Some(Llm(Triage))
    else if s == "work" then Some(Llm(Work))
    else if s == "analyse-work" then Some(Llm(AnalyseWork))
    else if s == "reflect" then Some(Llm(Reflect))
    else if s == "migrate-intent" then Some(Llm(MigrateIntent))
    else if s == "migrate-targets" then Some(Llm(MigrateTargets))
    else if s == "migrate-memory-backfill" then Some(Llm(MigrateMemoryBackfill))
    else if s == "git-commit-triage" then Some(Script(GitCommitTriage))
    else if s == "git-commit-work" then Some(Script(GitCommitWork))
    else if s == "git-commit-analyse-work" then Some(Script(GitCommitAnalyseWork))
    else if s == "git-commit-reflect" then Some(Script(GitCommitReflect))
    else None
  }

  lemma NamesParse(p: Phase)
    ensures Parse(Trim(Name(p))) == Some(p)
  {
    var s := Name(p);
    assert s != "" && !IsSpace(s[0]) && !IsSpace(s[|s| - 1]);
    assert Trim(s) == s;
  }

  // ---------- the plan directory and its repository ----------

  const PHASE_FILE: Path := "phase.md"
  const COMMITS_FILE: Path := "commits.yaml"

  // Where an entry of the commit spec applies.
  datatype Target = Here | OtherWorktree | Unmounted

  // Each pathspec is the set of the paths it matches.
  datatype SpecEntry = SpecEntry(target: Target, pathspecs: seq<set<Path>>)

  // What the model takes from outside: the plan directory, commit identifiers, the commit-spec
  // parser, which looks targets up in the tree, the bookkeeping a script phase does before it writes
  // the marker, and the draining of queued requests before each phase.
  datatype Env = Env(plan: Path, sha: nat -> string, spec: (string, Tree) -> seq<SpecEntry>,
                     prepare: (ScriptPhase, Tree) -> Effect, drain: Tree -> Effect)

  // The working tree left behind, whether or not there was an error.
  datatype Effect = Effect(disk: Tree, ok: bool)

  // `disk` is the working tree; the tree of commit k is `commits[k]`.
  datatype State = State(disk: Tree, index: Tree, commits: seq<Tree>)

  // An error stops the loop; the state stays as it was left.
  datatype Step = Ok(state: State) | Err(state: State)

  function InPlanPath(env: Env, file: string): Path {
    env.plan + "/" + file
  }

  predicate InPlan(env: Env, p: Path) {
    env.plan + "/" <= p
  }

  function Head(s: State): Tree {
    if s.commits == [] then map[] else s.commits[|s.commits| - 1]
  }

  // `git add`: the index takes the working-tree version, presence included, of the chosen paths.
  function Staged(index: Tree, disk: Tree, chosen: set<Path>): Tree {
    map p | p in index.Keys + disk.Keys && (if p in chosen then p in disk else p in index) ::
      if p in chosen then disk[p] else index[p]
  }

  function PlanPaths(env: Env, s: State): set<Path> {
    set p | p in s.disk.Keys + s.index.Keys && InPlan(env, p)
  }

  // `git diff --cached --quiet`, then a commit unless it succeeds.
  function CommitIndex(s: State): State {
    if s.index == Head(s) then s else s.(commits := s.commits + [s.index])
  }

  function CommitPlan(env: Env, s: State): State {
    CommitIndex(s.(index := Staged(s.index, s.disk, PlanPaths(env, s))))
  }

  function WritePhase(env: Env, s: State, p: Phase): State {
    s.(disk := s.disk[InPlanPath(env, PHASE_FILE) := Name(p)])
  }

  function HeadSha(env: Env, s: State): string {
    if s.commits == [] then "HEAD" else env.sha(|s.commits| - 1)
  }

  function SaveBaseline(env: Env, s: State, file: string): State {
    s.(disk := s.disk[InPlanPath(env, file) := HeadSha(env, s)])
  }

  // Every pathspec of the entry matches something on disk or in the index.
  predicate AllMatch(index: Tree, disk: Tree, e: SpecEntry) {
    forall i :: 0 <= i < |e.pathspecs| ==> exists p :: p in e.pathspecs[i] && (p in disk || p in index)
  }

  // What `git add` stages for the entry: nothing at all if one of its pathspecs matches nothing.
  function Chosen(index: Tree, disk: Tree, e: SpecEntry): set<Path> {
    if AllMatch(index, disk, e) then set i, p | 0 <= i < |e.pathspecs| && p in e.pathspecs[i] :: p else {}
  }

  // The index is reset to HEAD before the entry is staged.
  function EntryCommitted(t: State, e: SpecEntry): State {
    CommitIndex(t.(index := Staged(Head(t), t.disk, Chosen(Head(t), t.disk, e))))
  }

  // The entries of the spec in order, each from a clean index, up to one whose target is not mounted.
  function ApplyEntries(s: State, entries: seq<SpecEntry>): Step {
    if entries == [] then Ok(s)
    else match ApplyEntries(s, entries[..|entries| - 1])
      case Err(t) => Err(t)
      case Ok(t) =>
        var e := entries[|entries| - 1];
        if e.target.Unmounted? then Err(t)
        else if e.target.OtherWorktree? then Ok(t)
        else Ok(EntryCommitted(t, e))
  }

  // The entries the analyse-work step finds.
  function SpecOf(env: Env, t: Tree): seq<SpecEntry> {
    var file := InPlanPath(env, COMMITS_FILE);
    if file in t then env.spec(t[file], t) else []
  }

  // The spec file is consumed first; without entries everything is committed at once.
  function ApplyCommitsSpec(env: Env, s: State): Step {
    var file := InPlanPath(env, COMMITS_FILE);
    var entries := SpecOf(env, s.disk);
    var t := s.(disk := s.disk - {file});
    if entries != [] then ApplyEntries(t, entries)
    else Ok(CommitIndex(t.(index := t.disk)))
  }

  // ---------- one script step ----------

  function NextPhase(sp: ScriptPhase): LlmPhase {
    match sp
    case GitCommitTriage => Work
    case GitCommitWork => AnalyseWork
    case GitCommitAnalyseWork => Reflect
    case GitCommitReflect => Triage
  }

  // Named after the phase that consumes it.
  function BaselineFile(sp: ScriptPhase): string {
    match sp
    case GitCommitTriage => "work-baseline"
    case GitCommitWork => "analyse-work-baseline"
    case GitCommitAnalyseWork => "reflect-baseline"
    case GitCommitReflect => "triage-baseline"
  }

  function After(s: State, e: Effect): Step {
    if e.ok then Ok(s.(disk := e.disk)) else Err(s.(disk := e.disk))
  }

  function Prepared(env: Env, s: State, sp: ScriptPhase): Step {
    if sp.GitCommitTriage? || sp.GitCommitAnalyseWork? then After(s, env.prepare(sp, s.disk)) else Ok(s)
  }

  // The state whose HEAD becomes the recorded baseline.
  function BeforeBaseline(env: Env, s: State, sp: ScriptPhase): Step {
    match Prepared(env, s, sp)
    case Err(t) => Err(t)
    case Ok(t) =>
      var marked := WritePhase(env, t, Llm(NextPhase(sp)));
      if sp.GitCommitAnalyseWork? then ApplyCommitsSpec(env, marked) else Ok(CommitPlan(env, marked))
  }

  function ScriptStep(env: Env, s: State, sp: ScriptPhase): Step {
    match BeforeBaseline(env, s, sp)
    case Err(t) => Err(t)
    case Ok(t) => Ok(CommitPlan(env, SaveBaseline(env, t, BaselineFile(sp))))
  }

  function MarkerOf(env: Env, t: Tree): Option<Phase> {
    var file := InPlanPath(env, PHASE_FILE);
    if file in t then Parse(Trim(t[file])) else None
  }

  // The committed plan directory is the one on disk.
  ghost predicate PlanCommitted(env: Env, s: State) {
    forall p :: InPlan(env, p) ==> (p in Head(s) <==> p in s.disk) && (p in s.disk ==> Head(s)[p] == s.disk[p])
  }

  lemma CommitPlanCommits(env: Env, s: State)
    ensures CommitPlan(env, s).disk == s.disk && PlanCommitted(env, CommitPlan(env, s))
    ensures s.commits <= CommitPlan(env, s).commits
  {
  }

  lemma PlanFilesDiffer(env: Env)
    ensures InPlan(env, InPlanPath(env, PHASE_FILE))
    ensures forall sp :: InPlanPath(env, BaselineFile(sp)) != InPlanPath(env, PHASE_FILE)
    ensures InPlanPath(env, COMMITS_FILE) != InPlanPath(env, PHASE_FILE)
  {
    assert |PHASE_FILE| == 8 && |COMMITS_FILE| == 12;
  }

  lemma {:induction false} EntriesExtend(s: State, entries: seq<SpecEntry>)
    ensures s.commits <= ApplyEntries(s, entries).state.commits && ApplyEntries(s, entries).state.disk == s.disk
  {
    if entries != [] {
      EntriesExtend(s, entries[..|entries| - 1]);
    }
  }

  // An error stays where it is.
  lemma {:induction false} EntriesStop(s: State, entries: seq<SpecEntry>, n: nat)
    requires n <= |entries| && ApplyEntries(s, entries[..n]).Err?
    ensures ApplyEntries(s, entries) == ApplyEntries(s, entries[..n])
    decreases |entries| - n
  {
    if n == |entries| {
      assert entries[..n] == entries;
    } else {
      assert entries[..n + 1][..n] == entries[..n];
      EntriesStop(s, entries, n + 1);
    }
  }

  ghost predicate AllMounted(entries: seq<SpecEntry>) {
    forall i :: 0 <= i < |entries| ==> !entries[i].target.Unmounted?
  }

  // A spec is applied to the end if and only if every target is mounted.
  lemma {:induction false} EntriesApplyIff(s: State, entries: seq<SpecEntry>)
    ensures ApplyEntries(s, entries).Ok? <==> AllMounted(entries)
  {
    if entries != [] {
      var n := |entries| - 1;
      EntriesApplyIff(s, entries[..n]);
      assert AllMounted(entries) <==> AllMounted(entries[..n]) && !entries[n].target.Unmounted?;
    }
  }

  // Otherwise the entries before the first unmounted one have been committed, and no other.
  lemma EntriesStopAt(s: State, entries: seq<SpecEntry>, n: nat)
    requires n < |entries| && entries[n].target.Unmounted? && AllMounted(entries[..n])
    ensures ApplyEntries(s, entries[..n]).Ok?
    ensures ApplyEntries(s, entries) == Err(ApplyEntries(s, entries[..n]).state)
  {
    EntriesApplyIff(s, entries[..n]);
    assert entries[..n + 1][..n] == entries[..n];
    EntriesStop(s, entries, n + 1);
  }

  lemma SpecExtends(env: Env, s: State)
    ensures s.commits <= ApplyCommitsSpec(env, s).state.commits
    ensures ApplyCommitsSpec(env, s).state.disk == s.disk - {InPlanPath(env, COMMITS_FILE)}
  {
    EntriesExtend(s.(disk := s.disk - {InPlanPath(env, COMMITS_FILE)}), SpecOf(env, s.disk));
  }

  // The marker text of `p` is in the tree.
  predicate Carries(env: Env, t: Tree, p: Phase) {
    var file := InPlanPath(env, PHASE_FILE);
    file in t && t[file] == Name(p)
  }

  lemma CarriesMarker(env: Env, t: Tree, p: Phase)
    requires Carries(env, t, p)
    ensures MarkerOf(env, t) == Some(p)
  {
    NamesParse(p);
  }

  lemma MarkedState(env: Env, s: State, sp: ScriptPhase)
    ensures BeforeBaseline(env, s, sp).Ok? ==>
      s.commits <= BeforeBaseline(env, s, sp).state.commits &&
      Carries(env, BeforeBaseline(env, s, sp).state.disk, Llm(NextPhase(sp)))
  {
    hide Name;
    PlanFilesDiffer(env);
    if Prepared(env, s, sp).Ok? {
      var marked := WritePhase(env, Prepared(env, s, sp).state, Llm(NextPhase(sp)));
      SpecExtends(env, marked);
      CommitPlanCommits(env, marked);
    }
  }

  // After every script step the plan directory is committed as it is on disk, the marker names
  // the phase that follows, and no commit has been lost.
  lemma ScriptStepCommits(env: Env, s: State, sp: ScriptPhase)
    requires ScriptStep(env, s, sp).Ok?
    ensures var t := ScriptStep(env, s, sp).state;
      && PlanCommitted(env, t) && s.commits <= t.commits && t.commits != []
      && MarkerOf(env, t.disk) == MarkerOf(env, Head(t)) == Some(Llm(NextPhase(sp)))
    ensures sp == GitCommitTriage ==> Marked(env, ScriptStep(env, s, sp).state, "work")
    ensures sp == GitCommitWork ==> Marked(env, ScriptStep(env, s, sp).state, "analyse-work")
    ensures sp == GitCommitAnalyseWork ==> Marked(env, ScriptStep(env, s, sp).state, "reflect")
    ensures sp == GitCommitReflect ==> Marked(env, ScriptStep(env, s, sp).state, "triage")
  {
    hide Marked;
    StepMarkers(env, s);
    hide Name, BeforeBaseline;
    var u := BeforeBaseline(env, s, sp).state;
    MarkedState(env, s, sp);
    PlanFilesDiffer(env);
    var v := SaveBaseline(env, u, BaselineFile(sp));
    CommitPlanCommits(env, v);
    CarriesMarker(env, v.disk, Llm(NextPhase(sp)));
    CarriesMarker(env, Head(CommitPlan(env, v)), Llm(NextPhase(sp)));
  }

  // The baseline file of the step names a commit whose tree is `Head` of the state it was taken in.
  ghost predicate BaselineNames(env: Env, t: State, sp: ScriptPhase, tree: Tree) {
    var file := InPlanPath(env, BaselineFile(sp));
    file in t.disk && exists k :: 0 <= k < |t.commits| && t.disk[file] == env.sha(k) && t.commits[k] == tree
  }

  lemma BaselineIsHead(env: Env, s: State, sp: ScriptPhase)
    requires ScriptStep(env, s, sp).Ok? && BeforeBaseline(env, s, sp).state.commits != []
    ensures BaselineNames(env, ScriptStep(env, s, sp).state, sp, Head(BeforeBaseline(env, s, sp).state))
  {
    hide BeforeBaseline;
    var u := BeforeBaseline(env, s, sp).state;
    var v := SaveBaseline(env, u, BaselineFile(sp));
    CommitPlanCommits(env, v);
    var t := CommitPlan(env, v);
    assert t.commits[|u.commits| - 1] == Head(u);
  }

  // The commit recorded by the triage, work and reflect steps already carries the new marker.
  lemma BaselineCarriesMarker(env: Env, s: State, sp: ScriptPhase)
    requires ScriptStep(env, s, sp).Ok? && !sp.GitCommitAnalyseWork?
    ensures var u := BeforeBaseline(env, s, sp).state;
      u.commits != [] && Carries(env, Head(u), Llm(NextPhase(sp))) &&
      BaselineNames(env, ScriptStep(env, s, sp).state, sp, Head(u))
  {
    hide Name;
    var marked := WritePhase(env, Prepared(env, s, sp).state, Llm(NextPhase(sp)));
    CommitPlanCommits(env, marked);
    PlanFilesDiffer(env);
    assert InPlanPath(env, PHASE_FILE) in Head(CommitPlan(env, marked));
    BaselineIsHead(env, s, sp);
  }

  // ---------- the steps in the words of the files ----------

  // The committed trees after `tree` is committed, unless it is HEAD already.
  function Recorded(commits: seq<Tree>, tree: Tree): seq<Tree> {
    if tree == (if commits == [] then map[] else commits[|commits| - 1]) then commits else commits + [tree]
  }

  // Inside the plan directory the tree is the working tree, outside it what was staged.
  ghost predicate IsPlanTree(plan: Path, disk: Tree, index: Tree, tree: Tree) {
    && (forall p :: plan + "/" <= p ==> SameAt(tree, disk, p))
    && (forall p :: !(plan + "/" <= p) ==> SameAt(tree, index, p))
  }

  // The two trees agree on `p`, presence included.
  predicate SameAt(t: Tree, u: Tree, p: Path) {
    (p in t <==> p in u) && (p in t ==> t[p] == u[p])
  }

  // The marker is written and the plan directory committed; then the identifier of that commit is written to the
  // baseline file, and the directory committed again.
  ghost predicate StepTo(env: Env, s: State, prepared: Tree, marker: string, baseline: string, t: State) {
    exists first: Tree ::
      var marked, commits := prepared[env.plan + "/phase.md" := marker], Recorded(s.commits, first);
      && IsPlanTree(env.plan, marked, s.index, first) && commits != []
      && t.disk == marked[env.plan + "/" + baseline := env.sha(|commits| - 1)]
      && IsPlanTree(env.plan, t.disk, s.index, t.index) && t.commits == Recorded(commits, t.index)
  }

  lemma CommitPlanTree(env: Env, s: State)
    ensures var t := CommitPlan(env, s);
      && t.disk == s.disk && IsPlanTree(env.plan, s.disk, s.index, t.index) && t.commits == Recorded(s.commits, t.index)
  {
  }

  // The second commit starts from the index that the first one left.
  lemma PlanTreeAgain(plan: Path, d1: Tree, d2: Tree, index: Tree, first: Tree, second: Tree)
    requires IsPlanTree(plan, d1, index, first) && IsPlanTree(plan, d2, first, second)
    ensures IsPlanTree(plan, d2, index, second)
  {
    forall p | !(plan + "/" <= p) ensures SameAt(second, index, p) {
      assert SameAt(first, index, p) && SameAt(second, first, p);
    }
  }

  lemma PlanPathJoined(env: Env)
    ensures InPlanPath(env, PHASE_FILE) == env.plan + "/phase.md"
  {
    assert env.plan + ("/" + "phase.md") == env.plan + "/" + "phase.md";
    assert "/" + "phase.md" == "/phase.md";
  }

  lemma PlanStep(env: Env, s: State, prepared: Tree, p: Phase, file: string, t: State)
    requires t == CommitPlan(env, SaveBaseline(env, CommitPlan(env, WritePhase(env, s.(disk := prepared), p)), file))
    ensures StepTo(env, s, prepared, Name(p), file, t)
  {
    hide CommitPlan, Name, IsPlanTree;
    PlanPathJoined(env);
    var marked := WritePhase(env, s.(disk := prepared), p);
    var u := CommitPlan(env, marked);
    CommitPlanTree(env, marked);
    CommittedSomething(env, marked);
    CommitPlanTree(env, SaveBaseline(env, u, file));
    PlanTreeAgain(env.plan, marked.disk, t.disk, s.index, u.index, t.index);
  }

  lemma CommittedSomething(env: Env, s: State)
    requires env.plan + "/phase.md" in s.disk
    ensures CommitPlan(env, s).commits != []
  {
    assert env.plan + "/" <= env.plan + "/phase.md";
    CommitPlanTree(env, s);
    var t := CommitPlan(env, s);
    assert SameAt(t.index, s.disk, env.plan + "/phase.md");
  }

  // What the triage, work and reflect steps do, marker and baseline file written out.
  lemma TriageStep(env: Env, s: State)
    requires ScriptStep(env, s, GitCommitTriage).Ok?
    ensures env.prepare(GitCommitTriage, s.disk).ok
    ensures StepTo(env, s, env.prepare(GitCommitTriage, s.disk).disk, "work", "work-baseline",
                   ScriptStep(env, s, GitCommitTriage).state)
  {
    hide CommitPlan, SaveBaseline, WritePhase, StepTo;
    PlanStep(env, s, env.prepare(GitCommitTriage, s.disk).disk, Llm(Work), "work-baseline",
             ScriptStep(env, s, GitCommitTriage).state);
  }

  lemma WorkStep(env: Env, s: State)
    ensures ScriptStep(env, s, GitCommitWork).Ok?
    ensures StepTo(env, s, s.disk, "analyse-work", "analyse-work-baseline", ScriptStep(env, s, GitCommitWork).state)
  {
    hide CommitPlan, SaveBaseline, WritePhase, StepTo;
    PlanStep(env, s, s.disk, Llm(AnalyseWork), "analyse-work-baseline", ScriptStep(env, s, GitCommitWork).state);
  }

  lemma ReflectStep(env: Env, s: State)
    ensures ScriptStep(env, s, GitCommitReflect).Ok?
    ensures StepTo(env, s, s.disk, "triage", "triage-baseline", ScriptStep(env, s, GitCommitReflect).state)
  {
    hide CommitPlan, SaveBaseline, WritePhase, StepTo;
    PlanStep(env, s, s.disk, Llm(Triage), "triage-baseline", ScriptStep(env, s, GitCommitReflect).state);
  }

  // The analyse-work step writes the marker and consumes the spec, applies it to what it finds, and records the
  // identifier of the last commit, if there is any, before it commits the plan directory.
  ghost predicate AnalysedTo(env: Env, s: State, t: State) {
    exists work: State ::
      var prepared := env.prepare(GitCommitAnalyseWork, s.disk);
      var marked := prepared.disk[env.plan + "/phase.md" := "reflect"];
      var consumed := s.(disk := marked - {env.plan + "/commits.yaml"});
      && prepared.ok
      && (if env.plan + "/commits.yaml" in marked && env.spec(marked[env.plan + "/commits.yaml"], marked) != []
          then ApplyEntries(consumed, env.spec(marked[env.plan + "/commits.yaml"], marked)) == Ok(work)
          else work == State(consumed.disk, consumed.disk, Recorded(s.commits, consumed.disk)))
      && t.disk == consumed.disk[env.plan + "/reflect-baseline" :=
                                   if work.commits == [] then "HEAD" else env.sha(|work.commits| - 1)]
      && IsPlanTree(env.plan, t.disk, work.index, t.index) && t.commits == Recorded(work.commits, t.index)
  }

  lemma AnalyseStep(env: Env, s: State)
    requires ScriptStep(env, s, GitCommitAnalyseWork).Ok?
    ensures AnalysedTo(env, s, ScriptStep(env, s, GitCommitAnalyseWork).state)
  {
    hide CommitPlan, ApplyEntries, IsPlanTree, ApplyCommitsSpec, SaveBaseline;
    PlanPathJoined(env);
    AnalysePaths(env);
    var marked := WritePhase(env, s.(disk := env.prepare(GitCommitAnalyseWork, s.disk).disk), Llm(Reflect));
    var work := ApplyCommitsSpec(env, marked).state;
    SpecLeaves(env, marked);
    SpecExtends(env, marked);
    SavedDisk(env, work);
    CommitPlanTree(env, SaveBaseline(env, work, "reflect-baseline"));
  }

  lemma SpecLeaves(env: Env, s: State)
    ensures var t := s.(disk := s.disk - {InPlanPath(env, COMMITS_FILE)});
      ApplyCommitsSpec(env, s) ==
        if SpecOf(env, s.disk) != [] then ApplyEntries(t, SpecOf(env, s.disk))
        else Ok(State(t.disk, t.disk, Recorded(s.commits, t.disk)))
  {
    hide ApplyEntries;
  }

  lemma SavedDisk(env: Env, s: State)
    ensures SaveBaseline(env, s, "reflect-baseline")
      == s.(disk := s.disk[InPlanPath(env, "reflect-baseline") :=
                             if s.commits == [] then "HEAD" else env.sha(|s.commits| - 1)])
  {
  }

  lemma AnalysePaths(env: Env)
    ensures InPlanPath(env, COMMITS_FILE) == env.plan + "/commits.yaml"
    ensures InPlanPath(env, "reflect-baseline") == env.plan + "/reflect-baseline"
  {
    assert env.plan + ("/" + "commits.yaml") == env.plan + "/" + "commits.yaml";
    assert env.plan + ("/" + "reflect-baseline") == env.plan + "/" + "reflect-baseline";
    assert "/" + "commits.yaml" == "/commits.yaml" && "/" + "reflect-baseline" == "/reflect-baseline";
  }

  // The text of the marker, on disk and in HEAD.
  ghost predicate Marked(env: Env, t: State, marker: string) {
    && env.plan + "/phase.md" in t.disk && t.disk[env.plan + "/phase.md"] == marker
    && env.plan + "/phase.md" in Head(t) && Head(t)[env.plan + "/phase.md"] == marker
  }

  // The marker after each step that ends well.
  lemma StepMarkers(env: Env, s: State)
    ensures ScriptStep(env, s, GitCommitTriage).Ok? ==> Marked(env, ScriptStep(env, s, GitCommitTriage).state, "work")
    ensures Marked(env, ScriptStep(env, s, GitCommitWork).state, "analyse-work")
    ensures ScriptStep(env, s, GitCommitAnalyseWork).Ok? ==>
      Marked(env, ScriptStep(env, s, GitCommitAnalyseWork).state, "reflect")
    ensures Marked(env, ScriptStep(env, s, GitCommitReflect).state, "triage")
  {
    hide ScriptStep, Name;
    MarkerNames();
    WorkStep(env, s);
    ReflectStep(env, s);
    StepMarked(env, s, GitCommitWork);
    StepMarked(env, s, GitCommitReflect);
    if ScriptStep(env, s, GitCommitTriage).Ok? { StepMarked(env, s, GitCommitTriage); }
    if ScriptStep(env, s, GitCommitAnalyseWork).Ok? { StepMarked(env, s, GitCommitAnalyseWork); }
  }

  lemma MarkerNames()
    ensures Name(Llm(Triage)) == "triage" && Name(Llm(Work)) == "work"
    ensures Name(Llm(AnalyseWork)) == "analyse-work" && Name(Llm(Reflect)) == "reflect"
  {
  }

  lemma StepMarked(env: Env, s: State, sp: ScriptPhase)
    requires ScriptStep(env, s, sp).Ok?
    ensures Marked(env, ScriptStep(env, s, sp).state, Name(Llm(NextPhase(sp))))
  {
    hide Name, BeforeBaseline, NextPhase, BaselineFile;
    var u := BeforeBaseline(env, s, sp).state;
    MarkedState(env, s, sp);
    PlanFilesDiffer(env);
    PlanPathJoined(env);
    CommitPlanCommits(env, SaveBaseline(env, u, BaselineFile(sp)));
  }

  // ---------- what the entries commit, path by path ----------

  // The entry stages `p`: one of its pathspecs matches it, and each matches something.
  ghost predicate Stages(t: State, e: SpecEntry, p: Path) {
    && e.target.Here?
    && (exists i :: 0 <= i < |e.pathspecs| && p in e.pathspecs[i])
    && (forall i :: 0 <= i < |e.pathspecs| ==> exists q :: q in e.pathspecs[i] && (q in t.disk || q in Head(t)))
  }

  lemma ChosenAreStaged(t: State, e: SpecEntry, p: Path)
    requires e.target.Here?
    ensures p in Chosen(Head(t), t.disk, e) <==> Stages(t, e, p)
  {
  }

  // A path the entry stages is committed as it is on disk, any other stays as in HEAD; there is a
  // commit if and only if that changes something.
  lemma EntryTree(t: State, e: SpecEntry)
    requires e.target.Here?
    ensures var u := EntryCommitted(t, e);
      && u.disk == t.disk && u.index == Head(u)
      && (forall p :: Stages(t, e, p) ==> SameAt(Head(u), t.disk, p))
      && (forall p :: !Stages(t, e, p) ==> SameAt(Head(u), Head(t), p))
      && u.commits == (if Head(u) == Head(t) then t.commits else t.commits + [Head(u)])
  {
    hide Chosen, Stages;
    forall p ensures p in Chosen(Head(t), t.disk, e) <==> Stages(t, e, p) {
      ChosenAreStaged(t, e, p);
    }
  }

  // Some entry, when its turn comes, stages `p`.
  ghost predicate StagedBy(s: State, entries: seq<SpecEntry>, p: Path) {
    exists i :: 0 <= i < |entries| && Stages(ApplyEntries(s, entries[..i]).state, entries[i], p)
  }

  lemma StagedBySnoc(s: State, entries: seq<SpecEntry>, p: Path)
    requires entries != []
    ensures var n := |entries| - 1;
      StagedBy(s, entries, p) <==>
        StagedBy(s, entries[..n], p) || Stages(ApplyEntries(s, entries[..n]).state, entries[n], p)
  {
    hide ApplyEntries, Stages;
    var n := |entries| - 1;
    var before := entries[..n];
    assert forall i :: 0 <= i < n ==> before[..i] == entries[..i] && before[i] == entries[i];
    if StagedBy(s, before, p) {
      var i :| 0 <= i < n && Stages(ApplyEntries(s, before[..i]).state, before[i], p);
      assert Stages(ApplyEntries(s, entries[..i]).state, entries[i], p);
    }
    if StagedBy(s, entries, p) {
      var i :| 0 <= i < |entries| && Stages(ApplyEntries(s, entries[..i]).state, entries[i], p);
      assert i < n ==> Stages(ApplyEntries(s, before[..i]).state, before[i], p);
    }
  }

  // After the entries HEAD has every path as it is on disk if some entry staged it, and as before if none did.
  lemma {:induction false} EntriesTree(s: State, entries: seq<SpecEntry>, p: Path)
    requires ApplyEntries(s, entries).Ok?
    ensures SameAt(Head(ApplyEntries(s, entries).state), if StagedBy(s, entries, p) then s.disk else Head(s), p)
  {
    hide Stages, EntryCommitted, StagedBy;
    if entries == [] {
      NothingStaged(s, p);
    } else {
      var n := |entries| - 1;
      EntriesTree(s, entries[..n], p);
      EntriesExtend(s, entries[..n]);
      StagedBySnoc(s, entries, p);
      var t, e := ApplyEntries(s, entries[..n]).state, entries[n];
      if e.target.Here? {
        EntryTree(t, e);
      } else {
        OnlyHere(t, e, p);
      }
    }
  }

  lemma OnlyHere(t: State, e: SpecEntry, p: Path)
    ensures Stages(t, e, p) ==> e.target.Here?
  {
  }

  lemma NothingStaged(s: State, p: Path)
    ensures !StagedBy(s, [], p)
  {
  }

  // Some entry of the spec, when its turn comes, stages the marker.
  ghost predicate Covered(env: Env, s: State, entries: seq<SpecEntry>) {
    StagedBy(s, entries, InPlanPath(env, PHASE_FILE))
  }

  lemma EntriesCarry(env: Env, s: State, entries: seq<SpecEntry>, p: Phase)
    requires Carries(env, s.disk, p) && ApplyEntries(s, entries).Ok?
    ensures Carries(env, Head(ApplyEntries(s, entries).state), p) <==>
      Carries(env, Head(s), p) || Covered(env, s, entries)
  {
    hide Name, StagedBy, ApplyEntries, InPlanPath;
    EntriesTree(s, entries, InPlanPath(env, PHASE_FILE));
  }

  lemma AnalyseMarks(env: Env, s: State)
    requires ScriptStep(env, s, GitCommitAnalyseWork).Ok?
    ensures var prepared := env.prepare(GitCommitAnalyseWork, s.disk);
      prepared.ok && Prepared(env, s, GitCommitAnalyseWork) == Ok(s.(disk := prepared.disk)) &&
      BeforeBaseline(env, s, GitCommitAnalyseWork)
      == ApplyCommitsSpec(env, WritePhase(env, s.(disk := prepared.disk), Llm(Reflect))) &&
      BeforeBaseline(env, s, GitCommitAnalyseWork).Ok?
  {
    hide WritePhase, ApplyCommitsSpec, CommitPlan, SaveBaseline;
  }

  lemma SpecByEntries(env: Env, s: State)
    ensures var t := s.(disk := s.disk - {InPlanPath(env, COMMITS_FILE)});
      if SpecOf(env, s.disk) != [] then ApplyCommitsSpec(env, s) == ApplyEntries(t, SpecOf(env, s.disk))
      else ApplyCommitsSpec(env, s).Ok? && Head(ApplyCommitsSpec(env, s).state) == t.disk
  {
  }

  // The state in which the analyse-work step applies the spec it finds, and that spec.
  function Consumed(env: Env, s: State): State {
    var marked := WritePhase(env, Prepared(env, s, GitCommitAnalyseWork).state, Llm(Reflect));
    marked.(disk := marked.disk - {InPlanPath(env, COMMITS_FILE)})
  }

  function FoundSpec(env: Env, s: State): seq<SpecEntry> {
    SpecOf(env, WritePhase(env, Prepared(env, s, GitCommitAnalyseWork).state, Llm(Reflect)).disk)
  }

  lemma ConsumedCarries(env: Env, s: State)
    ensures Carries(env, Consumed(env, s).disk, Llm(Reflect)) && Head(Consumed(env, s)) == Head(s)
    ensures InPlanPath(env, COMMITS_FILE) !in Consumed(env, s).disk
  {
    hide Name;
    PlanFilesDiffer(env);
  }

  // The commit recorded by the analyse-work step carries the new marker exactly when HEAD already
  // did, when there is no commit spec, or when some entry of the spec stages `phase.md`.
  lemma AnalyseBaselineCarriesMarker(env: Env, s: State)
    requires ScriptStep(env, s, GitCommitAnalyseWork).Ok?
    ensures Carries(env, Head(BeforeBaseline(env, s, GitCommitAnalyseWork).state), Llm(Reflect)) <==>
      Carries(env, Head(s), Llm(Reflect)) || FoundSpec(env, s) == [] ||
      Covered(env, Consumed(env, s), FoundSpec(env, s))
  {
    hide Name, ScriptStep, BeforeBaseline, Staged, ApplyCommitsSpec, Covered, WritePhase, SpecOf, Carries;
    AnalyseMarks(env, s);
    ConsumedCarries(env, s);
    var marked := WritePhase(env, Prepared(env, s, GitCommitAnalyseWork).state, Llm(Reflect));
    SpecByEntries(env, marked);
    if FoundSpec(env, s) != [] {
      EntriesCarry(env, Consumed(env, s), FoundSpec(env, s), Llm(Reflect));
    }
  }

  // A spec that leaves `phase.md` out makes the recorded baseline miss the new marker.
  lemma UncoveredSpec(env: Env, s: State)
    requires ScriptStep(env, s, GitCommitAnalyseWork).Ok? && !Carries(env, Head(s), Llm(Reflect))
    requires FoundSpec(env, s) == [SpecEntry(Here, [])]
    ensures !Carries(env, Head(BeforeBaseline(env, s, GitCommitAnalyseWork).state), Llm(Reflect))
  {
    hide ScriptStep, BeforeBaseline, Carries, Consumed, FoundSpec;
    AnalyseBaselineCarriesMarker(env, s);
  }

  // So does one that lists it beside a path that is neither on disk nor in HEAD.
  lemma StalePath(env: Env, s: State, stale: Path)
    requires ScriptStep(env, s, GitCommitAnalyseWork).Ok? && !Carries(env, Head(s), Llm(Reflect))
    requires FoundSpec(env, s) == [SpecEntry(Here, [{InPlanPath(env, PHASE_FILE)}, {stale}])]
    requires stale !in Consumed(env, s).disk && stale !in Head(s)
    ensures !Carries(env, Head(BeforeBaseline(env, s, GitCommitAnalyseWork).state), Llm(Reflect))
  {
    hide ScriptStep, BeforeBaseline, Carries, Consumed, FoundSpec, InPlanPath;
    AnalyseBaselineCarriesMarker(env, s);
    ConsumedCarries(env, s);
    var t, e := Consumed(env, s), SpecEntry(Here, [{InPlanPath(env, PHASE_FILE)}, {stale}]);
    assert !AllMatch(Head(t), t.disk, e) by { assert e.pathspecs[1] == {stale}; }
    assert [e][..0] == [];
  }

  // ---------- a step that fails ----------

  // A script step fails if and only if its preparation does, or it is the analyse-work step and
  // the commit spec names a target that is not mounted.
  lemma ScriptStepFailsIff(env: Env, s: State, sp: ScriptPhase)
    ensures ScriptStep(env, s, sp).Err? <==>
      Prepared(env, s, sp).Err? || (sp.GitCommitAnalyseWork? && !AllMounted(FoundSpec(env, s)))
  {
    hide Name, Staged, CommitPlan, SaveBaseline, WritePhase, AllMounted, ApplyEntries, Prepared, SpecOf;
    if sp.GitCommitAnalyseWork? && Prepared(env, s, sp).Ok? {
      EntriesApplyIff(Consumed(env, s), FoundSpec(env, s));
      EmptySpec();
    }
  }

  lemma EmptySpec()
    ensures AllMounted([])
  {
  }

  // What an unmounted target leaves behind: the marker on disk has moved on to reflect, the spec is
  // gone, exactly the entries before it are committed, and no baseline is recorded. The loop goes
  // on from there at reflect, and nothing is left to say what was still to be committed.
  lemma UnmountedTarget(env: Env, s: State, n: nat)
    requires Prepared(env, s, GitCommitAnalyseWork).Ok?
    requires var entries := FoundSpec(env, s);
      n < |entries| && entries[n].target.Unmounted? && AllMounted(entries[..n])
    ensures var t := ScriptStep(env, s, GitCommitAnalyseWork).state;
      && ScriptStep(env, s, GitCommitAnalyseWork).Err?
      && t.disk == Consumed(env, s).disk
      && ApplyEntries(Consumed(env, s), FoundSpec(env, s)[..n]) == Ok(t)
      && MarkerOf(env, t.disk) == Some(Llm(Reflect)) && SpecOf(env, t.disk) == []
  {
    hide Name, Staged, CommitPlan, SaveBaseline, AllMounted, Prepared, WritePhase, Carries, MarkerOf, ApplyEntries;
    EntriesStopAt(Consumed(env, s), FoundSpec(env, s), n);
    EntriesExtend(Consumed(env, s), FoundSpec(env, s)[..n]);
    ConsumedCarries(env, s);
    CarriesMarker(env, Consumed(env, s).disk, Llm(Reflect));
  }

  // ---------- runs ----------

  // What the agent leaves behind on its n-th turn; `Err` is a failed invocation.
  type Agent = (nat, LlmPhase, State) -> Step

  predicate InCycle(p: LlmPhase) {
    p.Triage? || p.Work? || p.AnalyseWork? || p.Reflect?
  }

  // The first-run fallback before the agent works.
  function Seeded(env: Env, s: State, lp: LlmPhase): State {
    if lp.Work? && InPlanPath(env, "work-baseline") !in s.disk then SaveBaseline(env, s, "work-baseline") else s
  }

  function Drained(env: Env, s: State): Step {
    After(s, env.drain(s.disk))
  }

  datatype Event = Event(phase: Phase, before: State, after: State)

  datatype Ending = CycleClosed | Stalled | Failed | OffCycle | Running

  ghost predicate ValidEvent(env: Env, agent: Agent, turn: nat, e: Event) {
    && MarkerOf(env, e.before.disk) == Some(e.phase)
    && match e.phase
       case Script(sp) => ScriptStep(env, e.before, sp) == Ok(e.after)
       case Llm(lp) => InCycle(lp) && agent(turn, lp, Seeded(env, e.before, lp)) == Ok(e.after)
  }

  // The events follow one another from `start`, requests being drained before each.
  ghost predicate IsRun(env: Env, agent: Agent, start: State, trace: seq<Event>) {
    && (forall i :: 0 <= i < |trace| ==> ValidEvent(env, agent, i, trace[i]))
    && (forall i :: 0 <= i < |trace| ==> Drained(env, LastState(start, trace[..i])) == Ok(trace[i].before))
    && (forall i :: 0 <= i < |trace| - 1 ==> GoesOn(env, trace[i]))
  }

  function LastState(start: State, trace: seq<Event>): State {
    if trace == [] then start else trace[|trace| - 1].after
  }

  // The turn that begins in `s`; `None` off the cycle, where the source gives up.
  function Turn(env: Env, agent: Agent, turn: nat, s: State): Option<Step> {
    match Drained(env, s)
    case Err(t) => Some(Err(t))
    case Ok(t) =>
      match MarkerOf(env, t.disk)
      case None => Some(Err(t))
      case Some(Script(sp)) => Some(ScriptStep(env, t, sp))
      case Some(Llm(lp)) => if InCycle(lp) then Some(agent(turn, lp, Seeded(env, t, lp))) else None
  }

  // An agent turn that left no readable marker.
  predicate MarkerLost(env: Env, e: Event) {
    e.phase.Llm? && MarkerOf(env, e.after.disk).None?
  }

  // An agent turn that left the marker where it was.
  predicate StalledAt(env: Env, e: Event) {
    e.phase.Llm? && MarkerOf(env, e.after.disk) == Some(e.phase)
  }

  // The loop goes on after the event.
  predicate GoesOn(env: Env, e: Event) {
    e.phase != Script(GitCommitReflect) && !StalledAt(env, e) && !MarkerLost(env, e)
  }

  // Draining requests leaves the marker alone.
  ghost predicate DrainKeepsMarker(env: Env) {
    forall t :: env.drain(t).ok ==> MarkerOf(env, env.drain(t).disk) == MarkerOf(env, t)
  }

  class PlanRepo {
    var disk: Tree
    var index: Tree
    var commits: seq<Tree>

    function Snapshot(): State
      reads this
    {
      State(disk, index, commits)
    }

    // What a method that returns `ok` has done.
    function Outcome(ok: bool): Step
      reads this
    {
      if ok then Ok(Snapshot()) else Err(Snapshot())
    }

    method GitCommitPlan(env: Env)
      modifies this`index, this`commits
      ensures Snapshot() == CommitPlan(env, old(Snapshot()))
    {
      index := Staged(index, disk, PlanPaths(env, Snapshot()));
      if index != Head(Snapshot()) {
        commits := commits + [index];
      }
    }

    method GitSaveBaseline(env: Env, file: string)
      modifies this`disk
      ensures Snapshot() == SaveBaseline(env, old(Snapshot()), file)
    {
      disk := disk[InPlanPath(env, file) := HeadSha(env, Snapshot())];
    }

    method WriteMarker(env: Env, p: Phase)
      modifies this`disk
      ensures Snapshot() == WritePhase(env, old(Snapshot()), p)
    {
      disk := disk[InPlanPath(env, PHASE_FILE) := Name(p)];
    }

    // `git add -A`, then a commit if anything is staged.
    method CommitWholeSubtree()
      modifies this`index, this`commits
      ensures Snapshot() == CommitIndex(old(Snapshot()).(index := old(disk)))
    {
      index := disk;
      if index != Head(Snapshot()) {
        commits := commits + [index];
      }
    }

    method CommitEntry(entry: SpecEntry)
      modifies this`index, this`commits
      ensures Snapshot() == EntryCommitted(old(Snapshot()), entry)
    {
      hide Staged, Chosen;
      index := Head(Snapshot());
      index := Staged(index, disk, Chosen(index, disk, entry));
      if index != Head(Snapshot()) {
        commits := commits + [index];
      }
    }

    method ApplySpec(env: Env) returns (ok: bool)
      modifies this
      ensures Outcome(ok) == ApplyCommitsSpec(env, old(Snapshot()))
    {
      hide EntryCommitted, CommitIndex;
      var entries := SpecOf(env, disk);
      disk := disk - {InPlanPath(env, COMMITS_FILE)};
      if entries == [] {
        CommitWholeSubtree();
        return true;
      }
      ghost var start := Snapshot();
      for i := 0 to |entries|
        invariant ApplyEntries(start, entries[..i]) == Ok(Snapshot())
      {
        assert entries[..i + 1][..i] == entries[..i];
        var entry := entries[i];
        if entry.target.Unmounted? {
          EntriesStop(start, entries, i + 1);
          return false;
        }
        if entry.target.Here? {
          CommitEntry(entry);
        }
      }
      assert entries[..|entries|] == entries;
      return true;
    }

    method HandleScriptPhase(env: Env, sp: ScriptPhase) returns (ok: bool)
      modifies this
      ensures Outcome(ok) == ScriptStep(env, old(Snapshot()), sp)
      ensures ok && sp == GitCommitTriage ==> Marked(env, Snapshot(), "work")
      ensures ok && sp == GitCommitWork ==> Marked(env, Snapshot(), "analyse-work")
      ensures ok && sp == GitCommitAnalyseWork ==> Marked(env, Snapshot(), "reflect")
      ensures ok && sp == GitCommitReflect ==> Marked(env, Snapshot(), "triage")
    {
      hide Marked;
      StepMarkers(env, Snapshot());
      hide Staged, CommitPlan, SaveBaseline, ApplyCommitsSpec, WritePhase;
      if sp.GitCommitTriage? || sp.GitCommitAnalyseWork? {
        var effect := env.prepare(sp, disk);
        disk := effect.disk;
        if !effect.ok {
          return false;
        }
      }
      WriteMarker(env, Llm(NextPhase(sp)));
      if sp.GitCommitAnalyseWork? {
        ok := ApplySpec(env);
        if !ok {
          return;
        }
      } else {
        GitCommitPlan(env);
      }
      GitSaveBaseline(env, BaselineFile(sp));
      GitCommitPlan(env);
      return true;
    }

    method PhaseLoop(env: Env, agent: Agent, turns: nat) returns (r: Ending, ghost trace: seq<Event>)
      modifies this
      ensures IsRun(env, agent, old(Snapshot()), trace)
      ensures r.CycleClosed? <==> trace != [] && trace[|trace| - 1].phase == Script(GitCommitReflect)
      ensures r.Stalled? <==> trace != [] && StalledAt(env, trace[|trace| - 1])
      ensures r.CycleClosed? || r.Stalled? || r.Running? ==> Snapshot() == LastState(old(Snapshot()), trace)
      ensures r.OffCycle? ==> Turn(env, agent, |trace|, LastState(old(Snapshot()), trace)).None?
      ensures r.OffCycle? ==> Drained(env, LastState(old(Snapshot()), trace)) == Ok(Snapshot())
      ensures r.Failed? ==>
        (trace != [] && MarkerLost(env, trace[|trace| - 1]) && Snapshot() == LastState(old(Snapshot()), trace)) ||
        Turn(env, agent, |trace|, LastState(old(Snapshot()), trace)) == Some(Err(Snapshot()))
      ensures r.Running? ==> |trace| == turns
    {
      hide ScriptStep, Seeded, MarkerOf, IsRun;
      trace := [];
      ghost var start := Snapshot();
      EmptyRun(env, agent, start);
      for turn := 0 to turns
        invariant |trace| == turn
        invariant IsRun(env, agent, start, trace)
        invariant Snapshot() == LastState(start, trace)
        invariant trace != [] ==> GoesOn(env, trace[|trace| - 1])
      {
        var effect := env.drain(disk);
        disk := effect.disk;
        if !effect.ok {
          return Failed, trace;
        }
        ghost var before := Snapshot();
        match MarkerOf(env, disk) {
          case None => return Failed, trace;
          case Some(Script(sp)) =>
            var ok := HandleScriptPhase(env, sp);
            if !ok {
              return Failed, trace;
            }
            ExtendRun(env, agent, start, trace, Event(Script(sp), before, Snapshot()));
            trace := trace + [Event(Script(sp), before, Snapshot())];
            if sp.GitCommitReflect? {
              return CycleClosed, trace;
            }
          case Some(Llm(lp)) =>
            if !InCycle(lp) {
              return OffCycle, trace;
            }
            var seeded := Seeded(env, Snapshot(), lp);
            var left := agent(turn, lp, seeded);
            disk, index, commits := left.state.disk, left.state.index, left.state.commits;
            if left.Err? {
              return Failed, trace;
            }
            ExtendRun(env, agent, start, trace, Event(Llm(lp), before, Snapshot()));
            trace := trace + [Event(Llm(lp), before, Snapshot())];
            match MarkerOf(env, disk) {
              case None => return Failed, trace;
              case Some(phase) =>
                if phase == Llm(lp) {
                  return Stalled, trace;
                }
            }
        }
      }
      return Running, trace;
    }
  }

  lemma EmptyRun(env: Env, agent: Agent, start: State)
    ensures IsRun(env, agent, start, [])
  {
  }

  lemma ExtendRun(env: Env, agent: Agent, start: State, trace: seq<Event>, e: Event)
    requires IsRun(env, agent, start, trace) && ValidEvent(env, agent, |trace|, e)
    requires trace != [] ==> GoesOn(env, trace[|trace| - 1])
    requires Drained(env, LastState(start, trace)) == Ok(e.before)
    ensures IsRun(env, agent, start, trace + [e])
  {
    hide ValidEvent, Drained, GoesOn, LastState;
    forall i | 0 <= i < |trace| + 1
      ensures Drained(env, LastState(start, (trace + [e])[..i])) == Ok((trace + [e])[i].before)
    {
      assert (trace + [e])[..i] == trace[..i];
    }
  }

  // Over any run, for any agent: every script step commits the plan directory as it is on disk,
  // loses no commit and hands over to an agent phase, so no two script steps are adjacent.
  lemma RunInvariants(env: Env, agent: Agent, start: State, trace: seq<Event>, i: nat)
    requires IsRun(env, agent, start, trace) && DrainKeepsMarker(env)
    requires i < |trace| && trace[i].phase.Script?
    ensures PlanCommitted(env, trace[i].after) && trace[i].before.commits <= trace[i].after.commits
    ensures MarkerOf(env, Head(trace[i].after)) == Some(Llm(NextPhase(trace[i].phase.script)))
    ensures i + 1 < |trace| ==> trace[i + 1].phase == Llm(NextPhase(trace[i].phase.script))
    ensures trace[i].phase == Script(GitCommitTriage) ==> Marked(env, trace[i].after, "work")
    ensures trace[i].phase == Script(GitCommitWork) ==> Marked(env, trace[i].after, "analyse-work")
    ensures trace[i].phase == Script(GitCommitAnalyseWork) ==> Marked(env, trace[i].after, "reflect")
    ensures trace[i].phase == Script(GitCommitReflect) ==> Marked(env, trace[i].after, "triage")
  {
    hide Marked;
    hide ScriptStep, PlanCommitted, MarkerOf;
    var e := trace[i];
    assert ValidEvent(env, agent, i, e);
    ScriptStepCommits(env, e.before, e.phase.script);
    if i + 1 < |trace| {
      assert ValidEvent(env, agent, i + 1, trace[i + 1]);
      assert trace[..i + 1] != [];
      assert Drained(env, LastState(start, trace[..i + 1])) == Ok(trace[i + 1].before);
    }
  }

  // What `phase.md` says on disk, trimmed.
  function PhaseText(env: Env, t: Tree): Option<string> {
    if env.plan + "/phase.md" in t then Some(Trim(t[env.plan + "/phase.md"])) else None
  }

  lemma ParsedName(s: string, p: Phase)
    ensures Parse(s) == Some(p) ==> s == Name(p)
  {
  }

  lemma TextOfMarker(env: Env, t: Tree, p: Phase)
    requires MarkerOf(env, t) == Some(p)
    ensures PhaseText(env, t) == Some(Name(p))
  {
    hide Name, Parse, Trim;
    PlanPathJoined(env);
    ParsedName(Trim(t[InPlanPath(env, PHASE_FILE)]), p);
  }

  // The agent answers every phase with the commit phase of the same name.
  ghost predicate Dutiful(env: Env, agent: Agent) {
    forall turn, lp, s :: agent(turn, lp, s).Ok? ==>
      PhaseText(env, agent(turn, lp, s).state.disk) == Some("git-commit-" + Name(Llm(lp)))
  }

  // The phases of one cycle, agent phases and commits in turn.
  const CYCLE: seq<string> := [
    "triage", "git-commit-triage", "work", "git-commit-work",
    "analyse-work", "git-commit-analyse-work", "reflect", "git-commit-reflect"]

  // What follows a phase, in the texts of the marker.
  lemma CycleStep(env: Env, agent: Agent, turn: nat, e: Event, j: nat)
    requires Dutiful(env, agent) && ValidEvent(env, agent, turn, e) && j < 7 && Name(e.phase) == CYCLE[j]
    ensures PhaseText(env, e.after.disk) == Some(CYCLE[j + 1]) && (e.phase.Llm? <==> j % 2 == 0)
  {
    hide ScriptStep, Seeded, MarkerOf, Trim;
    CyclePhase(e.phase, j);
    match e.phase
    case Llm(lp) =>
      assert PhaseText(env, e.after.disk) == Some("git-commit-" + Name(Llm(lp)));
      CommitNames();
    case Script(sp) =>
      StepMarkers(env, e.before);
      TrimmedNames();
  }

  lemma CyclePhase(p: Phase, j: nat)
    requires j < 8 && Name(p) == CYCLE[j]
    ensures p == [Llm(Triage), Script(GitCommitTriage), Llm(Work), Script(GitCommitWork), Llm(AnalyseWork),
                  Script(GitCommitAnalyseWork), Llm(Reflect), Script(GitCommitReflect)][j]
  {
    hide Name, Parse;
    NameParses(p);
    CycleParses(j);
  }

  lemma NameParses(p: Phase)
    ensures Parse(Name(p)) == Some(p)
  {
  }

  lemma CycleParses(j: nat)
    requires j < 8
    ensures Parse(CYCLE[j]) == Some([
      Llm(Triage), Script(GitCommitTriage), Llm(Work), Script(GitCommitWork), Llm(AnalyseWork),
      Script(GitCommitAnalyseWork), Llm(Reflect), Script(GitCommitReflect)][j])
  {
  }

  lemma CommitNames()
    ensures "git-commit-" + "triage" == CYCLE[1] && "git-commit-" + "work" == CYCLE[3]
    ensures "git-commit-" + "analyse-work" == CYCLE[5] && "git-commit-" + "reflect" == CYCLE[7]
  {
  }

  lemma TrimmedNames()
    ensures Trim("triage") == "triage" && Trim("work") == "work"
    ensures Trim("analyse-work") == "analyse-work" && Trim("reflect") == "reflect"
  {
    TrimmedName("triage");
    TrimmedName("work");
    TrimmedName("analyse-work");
    TrimmedName("reflect");
  }

  lemma TrimmedName(s: string)
    requires s != "" && !IsSpace(s[0]) && !IsSpace(s[|s| - 1])
    ensures Trim(s) == s
  {
  }

  // The marker an event acts on is the one the event before it left, or the start.
  lemma EventText(env: Env, agent: Agent, start: State, trace: seq<Event>, i: nat)
    requires IsRun(env, agent, start, trace) && DrainKeepsMarker(env) && i < |trace|
    ensures PhaseText(env, trace[i].before.disk) == Some(Name(trace[i].phase))
    ensures PhaseText(env, if i == 0 then start.disk else trace[i - 1].after.disk) == Some(Name(trace[i].phase))
  {
    hide MarkerOf, PhaseText, Name, ValidEvent, Drained, GoesOn, DrainKeepsMarker;
    var e, last := trace[i], LastState(start, trace[..i]);
    assert ValidEvent(env, agent, i, e) && Drained(env, last) == Ok(e.before);
    EventMarker(env, agent, i, e, last);
    TextOfMarker(env, e.before.disk, e.phase);
    TextOfMarker(env, last.disk, e.phase);
  }

  lemma EventMarker(env: Env, agent: Agent, turn: nat, e: Event, last: State)
    requires ValidEvent(env, agent, turn, e) && Drained(env, last) == Ok(e.before) && DrainKeepsMarker(env)
    ensures MarkerOf(env, e.before.disk) == MarkerOf(env, last.disk) == Some(e.phase)
  {
    hide MarkerOf, ScriptStep, Seeded;
  }

  // The loop goes on only from the first seven phases of the cycle.
  lemma GoesOnBefore(env: Env, agent: Agent, start: State, trace: seq<Event>, i: nat, j: nat)
    requires IsRun(env, agent, start, trace) && i + 1 < |trace| && j < 8 && Name(trace[i].phase) == CYCLE[j]
    ensures j < 7 && ValidEvent(env, agent, i, trace[i])
  {
    hide Name, CYCLE, ValidEvent, Drained;
    assert GoesOn(env, trace[i]);
    CyclePhase(trace[i].phase, j);
  }

  // Under such an agent, from any phase of the cycle, the phases come in the order of the cycle and end with it: the
  // agent is given triage, work, analyse-work and reflect in this order, with a commit after each.
  lemma {:induction false} CycleOrder(env: Env, agent: Agent, start: State, trace: seq<Event>, j: nat, i: nat)
    requires IsRun(env, agent, start, trace) && DrainKeepsMarker(env) && Dutiful(env, agent)
    requires j < 8 && MarkerOf(env, start.disk).Some? && PhaseText(env, start.disk) == Some(CYCLE[j]) && i < |trace|
    ensures i + j < 8 && Name(trace[i].phase) == CYCLE[i + j] && (trace[i].phase.Llm? <==> (i + j) % 2 == 0)
    ensures PhaseText(env, trace[i].before.disk) == Some(CYCLE[i + j])
  {
    hide MarkerOf, PhaseText, IsRun, ValidEvent, Name, CYCLE, Dutiful, DrainKeepsMarker;
    EventText(env, agent, start, trace, i);
    if i > 0 {
      CycleOrder(env, agent, start, trace, j, i - 1);
      GoesOnBefore(env, agent, start, trace, i - 1, i - 1 + j);
      CycleStep(env, agent, i - 1, trace[i - 1], i - 1 + j);
    }
    CyclePhase(trace[i].phase, i + j);
  }

  // The agent's work turn always finds a baseline, and the fallback touches nothing else.
  lemma FirstRunFallback(env: Env, s: State, lp: LlmPhase)
    ensures var t := Seeded(env, s, lp);
      && (lp == Work ==> env.plan + "/work-baseline" in t.disk)
      && (lp != Work || env.plan + "/work-baseline" in s.disk ==> t == s)
      && t.index == s.index && t.commits == s.commits
      && forall p :: p != env.plan + "/work-baseline" ==> SameAt(t.disk, s.disk, p)
  {
    assert env.plan + ("/" + "work-baseline") == env.plan + "/" + "work-baseline";
    assert "/" + "work-baseline" == "/work-baseline";
  }

  // Over any run, the commit that a triage, work or reflect step records as the baseline exists
  // and already carries the marker of the phase that consumes it.
  lemma RunBaselines(env: Env, agent: Agent, start: State, trace: seq<Event>, i: nat)
    requires IsRun(env, agent, start, trace)
    requires i < |trace| && trace[i].phase.Script? && trace[i].phase.script != GitCommitAnalyseWork
    ensures exists tree ::
      BaselineNames(env, trace[i].after, trace[i].phase.script, tree) &&
      Carries(env, tree, Llm(NextPhase(trace[i].phase.script)))
  {
    hide ScriptStep, BeforeBaseline, MarkerOf, BaselineNames, Carries;
    var e := trace[i];
    assert ValidEvent(env, agent, i, e);
    BaselineCarriesMarker(env, e.before, e.phase.script);
  }

  // There is only one run from a start: of two recorded ones, the shorter is how the longer begins.
  lemma {:induction false} OneRun(env: Env, agent: Agent, start: State, a: seq<Event>, b: seq<Event>)
    requires IsRun(env, agent, start, a) && IsRun(env, agent, start, b) && |a| <= |b|
    ensures a <= b
  {
    hide ScriptStep, MarkerOf, Seeded, Drained, GoesOn;
    if a != [] {
      var n := |a| - 1;
      RunPrefix(env, agent, start, a, n);
      OneRun(env, agent, start, a[..n], b);
      assert a[..n] == b[..n];
      assert Drained(env, LastState(start, a[..n])) == Ok(a[n].before);
      assert Drained(env, LastState(start, b[..n])) == Ok(b[n].before);
      assert ValidEvent(env, agent, n, a[n]) && ValidEvent(env, agent, n, b[n]);
      assert a == a[..n] + [a[n]];
    }
  }

  lemma RunPrefix(env: Env, agent: Agent, start: State, trace: seq<Event>, n: nat)
    requires IsRun(env, agent, start, trace) && n <= |trace|
    ensures IsRun(env, agent, start, trace[..n])
  {
    hide ValidEvent, Drained, GoesOn, LastState;
    forall i | 0 <= i < n ensures Drained(env, LastState(start, trace[..n][..i])) == Ok(trace[..n][i].before) {
      assert trace[..n][..i] == trace[..i];
    }
  }

  // If the agent only ever writes cycle phases and the start is inside the cycle, every marker
  // the loop acts on is a cycle phase or a script step, so it never ends off the cycle.
  lemma StaysInCycle(env: Env, agent: Agent, start: State, trace: seq<Event>)
    requires IsRun(env, agent, start, trace) && DrainKeepsMarker(env) && OnCycle(MarkerOf(env, start.disk))
    requires forall turn, lp, s :: agent(turn, lp, s).Ok? ==> OnCycle(MarkerOf(env, agent(turn, lp, s).state.disk))
    ensures OnCycle(MarkerOf(env, LastState(start, trace).disk))
    ensures Drained(env, LastState(start, trace)).Ok? ==>
      OnCycle(MarkerOf(env, Drained(env, LastState(start, trace)).state.disk))
  {
    hide ScriptStep, PlanCommitted, MarkerOf, Seeded;
    if trace != [] {
      var e := trace[|trace| - 1];
      assert ValidEvent(env, agent, |trace| - 1, e);
      if e.phase.Script? {
        ScriptStepCommits(env, e.before, e.phase.script);
      }
    }
  }

  predicate OnCycle(p: Option<Phase>) {
    p.Some? && (p.value.Llm? ==> InCycle(p.value.llm))
  }
}
