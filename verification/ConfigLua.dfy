// The layered configuration of src/config_lua.rs: setters over a shared accumulator and the
// writable `ravel.config` table. A layer is the sequence of statements its script executes.
module ConfigLua {
  import opened Wrappers
  import opened Yaml

  datatype AgentConfig = AgentConfig(models: map<string, string>, thinking: map<string, string>,
                                     params: map<string, map<string, Value>>, provider: Option<string>)

  const NO_AGENT := AgentConfig(map[], map[], map[], None)

  datatype Accumulator = Accumulator(agent: string, headroom: nat, agents: map<string, AgentConfig>,
                                     tokens: map<string, map<string, string>>, appends: map<string, seq<string>>)

  // The two mirrored fields of `ravel.config`; `None` is Lua's nil.
  datatype Table = Table(agent: Option<string>, headroom: Option<int>)

  datatype State = State(acc: Accumulator, table: Table)

  datatype Stmt =
    | SetAgent(name: string)
    | SetHeadroom(amount: int)
    | SetModel(phase: string, model: string)
    | SetModelFor(agent: string, phase: string, model: string)
    | SetProvider(provider: string)
    | SetProviderFor(agent: string, provider: string)
    | SetToken(agent: string, token: string, value: string)
    | AppendPrompt(phase: string, text: string)
    | Commit
    | WriteAgent(entry: Option<string>)
    | WriteHeadroom(number: Option<int>)
    | WriteOther

  // ---------- the meaning of a statement ----------

  function GetOr<V>(m: map<string, V>, key: string, default: V): V {
    if key in m then m[key] else default
  }

  function PutModel(acc: Accumulator, agent: string, phase: string, model: string): Accumulator {
    var cfg := GetOr(acc.agents, agent, NO_AGENT);
    acc.(agents := acc.agents[agent := cfg.(models := cfg.models[phase := model])])
  }

  function PutProvider(acc: Accumulator, agent: string, provider: string): Accumulator {
    acc.(agents := acc.agents[agent := GetOr(acc.agents, agent, NO_AGENT).(provider := Some(provider))])
  }

  function PutToken(acc: Accumulator, agent: string, token: string, value: string): Accumulator {
    acc.(tokens := acc.tokens[agent := GetOr(acc.tokens, agent, map[])[token := value]])
  }

  function PutAppend(acc: Accumulator, phase: string, text: string): Accumulator {
    acc.(appends := acc.appends[phase := GetOr(acc.appends, phase, []) + [text]])
  }

  function Committed(s: State): State {
    var acc := if s.table.agent.Some? then s.acc.(agent := s.table.agent.value) else s.acc;
    s.(acc := if s.table.headroom.Some? && s.table.headroom.value >= 0
      then acc.(headroom := s.table.headroom.value) else acc)
  }

  // `None`: the statement raises a Lua error.
  function Exec(s: State, stmt: Stmt): Option<State> {
    match stmt
    case SetAgent(name) => Some(State(s.acc.(agent := name), s.table.(agent := Some(name))))
    case SetHeadroom(n) => if n < 0 then None else Some(State(s.acc.(headroom := n), s.table.(headroom := Some(n))))
    case SetModel(phase, model) => Some(s.(acc := PutModel(s.acc, s.acc.agent, phase, model)))
    case SetModelFor(agent, phase, model) => Some(s.(acc := PutModel(s.acc, agent, phase, model)))
    case SetProvider(provider) => Some(s.(acc := PutProvider(s.acc, s.acc.agent, provider)))
    case SetProviderFor(agent, provider) => Some(s.(acc := PutProvider(s.acc, agent, provider)))
    case SetToken(agent, token, value) => Some(s.(acc := PutToken(s.acc, agent, token, value)))
    case AppendPrompt(phase, text) => Some(s.(acc := PutAppend(s.acc, phase, text)))
    case Commit => Some(Committed(s))
    case WriteAgent(v) => Some(s.(table := s.table.(agent := v)))
    case WriteHeadroom(v) => Some(s.(table := s.table.(headroom := v)))
    case WriteOther => Some(s)
  }

  function Run(s: State, program: seq<Stmt>): Option<State> {
    if program == [] then Some(s)
    else match Run(s, program[..|program| - 1])
      case None => None
      case Some(t) => Exec(t, program[|program| - 1])
  }

  // A layer whose file is missing is skipped, its commit included.
  function Layer(s: State, program: Option<seq<Stmt>>): Option<State> {
    if program.None? then Some(s)
    else match Run(s, program.value) case None => None case Some(t) => Some(Committed(t))
  }

  function Installed(seed: Accumulator): State {
    State(seed, Table(Some(seed.agent), Some(seed.headroom)))
  }

  function Resolved(seed: Accumulator, global: Option<seq<Stmt>>, plan: Option<seq<Stmt>>): Option<Accumulator> {
    match Layer(Installed(seed), global)
    case None => None
    case Some(s) => match Layer(s, plan) case None => None case Some(t) => Some(t.acc)
  }

  // ---------- the closures over shared state ----------

  class Ravel {
    var agent: string
    var headroom: nat
    var agents: map<string, AgentConfig>
    var tokens: map<string, map<string, string>>
    var appends: map<string, seq<string>>
    var tableAgent: Option<string>
    var tableHeadroom: Option<int>

    function Snapshot(): State
      reads this
    {
      State(Accumulator(agent, headroom, agents, tokens, appends), Table(tableAgent, tableHeadroom))
    }

    constructor (seed: Accumulator)
      ensures Snapshot() == Installed(seed)
    {
      agent, headroom, agents, tokens, appends := seed.agent, seed.headroom, seed.agents, seed.tokens, seed.appends;
      tableAgent, tableHeadroom := Some(seed.agent), Some(seed.headroom);
    }

    method SetModelFor(name: string, phase: string, model: string)
      modifies this`agents
      ensures Snapshot() == old(Snapshot()).(acc := PutModel(old(Snapshot()).acc, name, phase, model))
    {
      if name !in agents {
        agents := agents[name := NO_AGENT];
      }
      agents := agents[name := agents[name].(models := agents[name].models[phase := model])];
    }

    method SetProviderFor(name: string, provider: string)
      modifies this`agents
      ensures Snapshot() == old(Snapshot()).(acc := PutProvider(old(Snapshot()).acc, name, provider))
    {
      if name !in agents {
        agents := agents[name := NO_AGENT];
      }
      agents := agents[name := agents[name].(provider := Some(provider))];
    }

    method SetToken(name: string, token: string, value: string)
      modifies this`tokens
      ensures Snapshot() == old(Snapshot()).(acc := PutToken(old(Snapshot()).acc, name, token, value))
    {
      if name !in tokens {
        tokens := tokens[name := map[]];
      }
      tokens := tokens[name := tokens[name][token := value]];
    }

    method AppendPrompt(phase: string, text: string)
      modifies this`appends
      ensures Snapshot() == old(Snapshot()).(acc := PutAppend(old(Snapshot()).acc, phase, text))
    {
      if phase !in appends {
        appends := appends[phase := []];
      }
      appends := appends[phase := appends[phase] + [text]];
    }

    method CommitConfigTable()
      modifies this`agent, this`headroom
      ensures Snapshot() == Committed(old(Snapshot()))
    {
      if tableAgent.Some? {
        agent := tableAgent.value;
      }
      if tableHeadroom.Some? {
        if tableHeadroom.value >= 0 {
          headroom := tableHeadroom.value;
        }
      }
    }

    method Execute(stmt: Stmt) returns (ok: bool)
      modifies this
      ensures ok <==> Exec(old(Snapshot()), stmt).Some?
      ensures ok ==> Snapshot() == Exec(old(Snapshot()), stmt).value
    {
      match stmt {
        case SetAgent(name) =>
          agent := name;
          tableAgent := Some(name);
        case SetHeadroom(n) =>
          if n < 0 {
            return false;
          }
          headroom := n;
          tableHeadroom := Some(n);
        case SetModel(phase, model) => SetModelFor(agent, phase, model);
        case SetModelFor(name, phase, model) => SetModelFor(name, phase, model);
        case SetProvider(provider) => SetProviderFor(agent, provider);
        case SetProviderFor(name, provider) => SetProviderFor(name, provider);
        case SetToken(name, token, value) => SetToken(name, token, value);
        case AppendPrompt(phase, text) => AppendPrompt(phase, text);
        case Commit => CommitConfigTable();
        case WriteAgent(v) => tableAgent := v;
        case WriteHeadroom(v) => tableHeadroom := v;
        case WriteOther =>
      }
      return true;
    }

    method RunLayer(program: seq<Stmt>) returns (ok: bool)
      modifies this
      ensures ok <==> Run(old(Snapshot()), program).Some?
      ensures ok ==> Snapshot() == Run(old(Snapshot()), program).value
    {
      for i := 0 to |program|
        invariant Run(old(Snapshot()), program[..i]) == Some(Snapshot())
      {
        assert program[..i + 1][..i] == program[..i];
        var fine := Execute(program[i]);
        if !fine {
          ErrorsStay(old(Snapshot()), program, i + 1);
          return false;
        }
      }
      assert program[..|program|] == program;
      return true;
    }
  }

  lemma {:induction false} ErrorsStay(s: State, program: seq<Stmt>, n: nat)
    requires n <= |program| && Run(s, program[..n]).None?
    ensures Run(s, program).None?
    decreases |program| - n
  {
    if n == |program| {
      assert program[..n] == program;
    } else {
      assert program[..n + 1][..n] == program[..n];
      ErrorsStay(s, program, n + 1);
    }
  }

  method Resolve(seed: Accumulator, global: Option<seq<Stmt>>, plan: Option<seq<Stmt>>) returns (r: Option<Accumulator>)
    ensures r == Resolved(seed, global, plan)
  {
    var ravel := new Ravel(seed);
    if global.Some? {
      var ok := ravel.RunLayer(global.value);
      if !ok {
        return None;
      }
      ravel.CommitConfigTable();
    }
    if plan.Some? {
      var ok := ravel.RunLayer(plan.value);
      if !ok {
        return None;
      }
      ravel.CommitConfigTable();
    }
    return Some(ravel.Snapshot().acc);
  }

  // ---------- setter-only layers ----------

  // A setter, or a write to a table field that is not mirrored, such as the version stamp.
  predicate IsSetter(stmt: Stmt) {
    stmt.WriteOther? || stmt.SetAgent? || stmt.SetHeadroom? || stmt.SetModel? ||
    stmt.SetModelFor? || stmt.SetProvider? ||
    stmt.SetProviderFor? || stmt.SetToken? || stmt.AppendPrompt?
  }

  ghost predicate SettersOnly(program: seq<Stmt>) {
    forall i :: 0 <= i < |program| ==> IsSetter(program[i])
  }

  // The table mirrors the accumulator.
  predicate Mirrored(s: State) {
    s.table == Table(Some(s.acc.agent), Some(s.acc.headroom))
  }

  lemma {:induction false} RunConcat(s: State, a: seq<Stmt>, b: seq<Stmt>)
    ensures Run(s, a + b) == match Run(s, a) case None => None case Some(t) => Run(t, b)
  {
    if b == [] {
      assert a + b == a;
    } else {
      assert (a + b)[..|a + b| - 1] == a + b[..|b| - 1];
      RunConcat(s, a, b[..|b| - 1]);
    }
  }

  lemma RunOne(s: State, stmt: Stmt)
    ensures Run(s, [stmt]) == Exec(s, stmt)
  {
    assert [stmt][..0] == [];
  }

  // For any statements at all, two layers are one with an explicit commit between them.
  lemma LayersCommitBetween(seed: Accumulator, global: seq<Stmt>, plan: seq<Stmt>)
    ensures Resolved(seed, Some(global), Some(plan)) == Resolved(seed, Some(global + [Commit] + plan), None)
  {
    var s := Installed(seed);
    RunConcat(s, global + [Commit], plan);
    RunConcat(s, global, [Commit]);
    if Run(s, global).Some? {
      RunOne(Run(s, global).value, Commit);
    }
  }

  // What a program leaves in the accumulator.
  function Left(s: Option<State>): Option<Accumulator> {
    match s case None => None case Some(t) => Some(t.acc)
  }

  // Resolving is running the layers that are there, each followed by a commit, over the installed seed.
  lemma LayersAsOneRun(seed: Accumulator, global: seq<Stmt>, plan: seq<Stmt>)
    ensures Resolved(seed, None, None) == Some(seed)
    ensures Resolved(seed, Some(global), None) == Left(Run(Installed(seed), global + [Commit]))
    ensures Resolved(seed, None, Some(plan)) == Left(Run(Installed(seed), plan + [Commit]))
    ensures Resolved(seed, Some(global), Some(plan)) == Left(Run(Installed(seed), global + [Commit] + plan + [Commit]))
  {
    hide Committed, Run, Installed;
    var s := Installed(seed);
    CommitAfter(s, global);
    CommitAfter(s, plan);
    RunConcat(s, global + [Commit], plan + [Commit]);
    assert global + [Commit] + plan + [Commit] == global + [Commit] + (plan + [Commit]);
    if Run(s, global).Some? {
      CommitAfter(Committed(Run(s, global).value), plan);
    }
    SeedKept(seed);
  }

  lemma SeedKept(seed: Accumulator)
    ensures Installed(seed).acc == seed
  {
  }

  lemma CommitAfter(s: State, program: seq<Stmt>)
    ensures Run(s, program + [Commit]) ==
      match Run(s, program) case None => None case Some(t) => Some(Committed(t))
  {
    hide Committed;
    assert (program + [Commit])[..|program|] == program;
  }

  lemma {:induction false} SettersMirror(s: State, program: seq<Stmt>)
    requires Mirrored(s) && SettersOnly(program)
    ensures Run(s, program).Some? ==> Mirrored(Run(s, program).value)
  {
    if program != [] {
      SettersMirror(s, program[..|program| - 1]);
    }
  }

  lemma MirroredCommit(s: State)
    requires Mirrored(s)
    ensures Committed(s) == s
  {
  }

  // Two setter-only layers are their concatenation run as one: commits change nothing between them.
  lemma LayersConcatenate(seed: Accumulator, global: seq<Stmt>, plan: seq<Stmt>)
    requires SettersOnly(global) && SettersOnly(plan)
    ensures Resolved(seed, Some(global), Some(plan)) == Resolved(seed, Some(global + plan), None)
    ensures Resolved(seed, Some(global), None) == Resolved(seed, Some(global), Some([]))
    ensures Resolved(seed, None, Some(plan)) == Resolved(seed, Some(plan), None)
  {
    hide Exec, Committed;
    var s := Installed(seed);
    RunConcat(s, global, plan);
    SettersMirror(s, global);
    SettersMirror(s, plan);
    if Run(s, global).Some? {
      var t := Run(s, global).value;
      MirroredCommit(t);
      SettersMirror(t, plan);
      if Run(t, plan).Some? {
        MirroredCommit(Run(t, plan).value);
      }
    }
    if Run(s, plan).Some? {
      MirroredCommit(Run(s, plan).value);
    }
  }

  // A plan after a setter-only layer runs as it would over what that layer leaves.
  lemma PlanAfterSetters(seed: Accumulator, global: seq<Stmt>, plan: Option<seq<Stmt>>)
    requires SettersOnly(global)
    ensures Resolved(seed, Some(global), plan) ==
      match Resolved(seed, Some(global), None) case None => None case Some(acc) => Resolved(acc, None, plan)
  {
    hide Run, Committed;
    SettersMirror(Installed(seed), global);
    if Run(Installed(seed), global).Some? {
      MirroredCommit(Run(Installed(seed), global).value);
    }
  }

  // ---------- direct table writes ----------

  // The script may be the first of two layers, or the first part of one layer, as one likes.
  ghost predicate Concatenates(seed: Accumulator, global: seq<Stmt>) {
    forall plan :: Resolved(seed, Some(global), Some(plan)) == Resolved(seed, Some(global + plan), None)
  }

  // A commit after the state changes nothing.
  predicate CommitIdle(s: State) {
    Committed(s) == s
  }

  // What a plan sees of a state at once: whether it is committed first, and what it holds when it is.
  lemma ResolvedParts(seed: Accumulator, global: seq<Stmt>, plan: seq<Stmt>)
    ensures var s := Run(Installed(seed), global);
      && Resolved(seed, Some(global), Some(plan)) == (if s.None? then None else Final(Run(Committed(s.value), plan)))
      && Resolved(seed, Some(global + plan), None) == (if s.None? then None else Final(Run(s.value, plan)))
  {
    hide Committed, Run;
    RunConcat(Installed(seed), global, plan);
  }

  function Final(s: Option<State>): Option<Accumulator> {
    match s case None => None case Some(t) => Some(Committed(t).acc)
  }

  // Clearing a mirrored field of the table and stopping tells a committed state from another.
  lemma ClearedFinal(s: State)
    ensures Final(Run(s, [WriteAgent(None)])) == Some(Committed(s.(table := s.table.(agent := None))).acc)
    ensures Final(Run(s, [WriteHeadroom(None)])) == Some(Committed(s.(table := s.table.(headroom := None))).acc)
  {
    RunOne(s, WriteAgent(None));
    RunOne(s, WriteHeadroom(None));
  }

  // A script concatenates with every later one if and only if, where it runs to its end, the commit
  // after it changes nothing.
  lemma ConcatenatesIff(seed: Accumulator, global: seq<Stmt>)
    ensures Concatenates(seed, global) <==>
      (Run(Installed(seed), global).Some? ==> CommitIdle(Run(Installed(seed), global).value))
  {
    hide Run, Resolved;
    forall plan ensures var s := Run(Installed(seed), global);
      && Resolved(seed, Some(global), Some(plan)) == (if s.None? then None else Final(Run(Committed(s.value), plan)))
      && Resolved(seed, Some(global + plan), None) == (if s.None? then None else Final(Run(s.value, plan)))
    {
      ResolvedParts(seed, global, plan);
    }
    if Concatenates(seed, global) && Run(Installed(seed), global).Some? {
      var t := Run(Installed(seed), global).value;
      assert forall plan :: Final(Run(Committed(t), plan)) == Final(Run(t, plan));
      ClearedFinal(t);
      ClearedFinal(Committed(t));
    }
  }

  // ---------- read off the text ----------

  // What a script does to one mirrored field: a setter, a direct write that a commit would take
  // over (`None` if it would ignore it), or a commit.
  datatype Access<T> = Set(value: T) | Direct(entry: Option<T>) | Pull

  // A commit ignores nil and negative headrooms.
  function Visible(headroom: Option<int>): Option<int> {
    if headroom.Some? && headroom.value >= 0 then headroom else None
  }

  function AgentAccess(stmt: Stmt): Option<Access<string>> {
    match stmt
    case SetAgent(name) => Some(Set(name))
    case WriteAgent(v) => Some(Direct(v))
    case Commit => Some(Pull)
    case _ => None
  }

  function HeadroomAccess(stmt: Stmt): Option<Access<int>> {
    match stmt
    case SetHeadroom(n) => Some(Set(n))
    case WriteHeadroom(v) => Some(Direct(Visible(v)))
    case Commit => Some(Pull)
    case _ => None
  }

  // The accesses of a script to one field, in order.
  function Accesses<T>(access: Stmt -> Option<Access<T>>, program: seq<Stmt>): seq<Access<T>> {
    if program == [] then []
    else
      var before, last := Accesses(access, program[..|program| - 1]), access(program[|program| - 1]);
      if last.Some? then before + [last.value] else before
  }

  // What a commit would find in the table.
  function Shown<T>(start: T, accesses: seq<Access<T>>): Option<T> {
    if accesses == [] then Some(start)
    else
      var before := accesses[..|accesses| - 1];
      match accesses[|accesses| - 1]
      case Set(v) => Some(v)
      case Direct(v) => v
      case Pull => Shown(start, before)
  }

  // What the accumulator holds.
  function Held<T>(start: T, accesses: seq<Access<T>>): T {
    if accesses == [] then start
    else
      var before := accesses[..|accesses| - 1];
      match accesses[|accesses| - 1]
      case Set(v) => v
      case Direct(_) => Held(start, before)
      case Pull => if Shown(start, before).Some? then Shown(start, before).value else Held(start, before)
  }

  // The last access is a setter, a commit, a direct write that a commit ignores, or one of the
  // value already held.
  predicate Settled<T(==)>(start: T, accesses: seq<Access<T>>) {
    accesses == [] ||
    match accesses[|accesses| - 1]
    case Set(_) => true
    case Direct(v) => v.None? || v.value == Held(start, accesses[..|accesses| - 1])
    case Pull => true
  }

  lemma {:induction false} SettledMeans<T>(start: T, accesses: seq<Access<T>>)
    ensures Settled(start, accesses) <==>
      Shown(start, accesses).None? || Shown(start, accesses).value == Held(start, accesses)
  {
    if accesses != [] {
      SettledMeans(start, accesses[..|accesses| - 1]);
    }
  }

  // One access, applied to what the table shows and the accumulator holds.
  function Applied<T>(shown: Option<T>, held: T, access: Option<Access<T>>): (Option<T>, T) {
    match access
    case None => (shown, held)
    case Some(Set(v)) => (Some(v), v)
    case Some(Direct(v)) => (v, held)
    case Some(Pull) => (shown, if shown.Some? then shown.value else held)
  }

  lemma AccessesStep<T>(start: T, access: Stmt -> Option<Access<T>>, program: seq<Stmt>)
    requires program != []
    ensures var before, all := Accesses(access, program[..|program| - 1]), Accesses(access, program);
      (Shown(start, all), Held(start, all))
      == Applied(Shown(start, before), Held(start, before), access(program[|program| - 1]))
  {
    var before, last := Accesses(access, program[..|program| - 1]), access(program[|program| - 1]);
    assert last.Some? ==> (before + [last.value])[..|before|] == before;
  }

  lemma FieldsStep(s: State, stmt: Stmt)
    requires Exec(s, stmt).Some?
    ensures var t := Exec(s, stmt).value;
      && (t.table.agent, t.acc.agent) == Applied(s.table.agent, s.acc.agent, AgentAccess(stmt))
      && (Visible(t.table.headroom), t.acc.headroom as int)
         == Applied(Visible(s.table.headroom), s.acc.headroom as int, HeadroomAccess(stmt))
  {
  }

  // The mirrored fields after a run, access by access.
  lemma {:induction false} RunFields(seed: Accumulator, program: seq<Stmt>)
    requires Run(Installed(seed), program).Some?
    ensures var t := Run(Installed(seed), program).value;
      && t.acc.agent == Held(seed.agent, Accesses(AgentAccess, program))
      && t.table.agent == Shown(seed.agent, Accesses(AgentAccess, program))
      && t.acc.headroom == Held(seed.headroom, Accesses(HeadroomAccess, program))
      && Visible(t.table.headroom) == Shown(seed.headroom, Accesses(HeadroomAccess, program))
  {
    if program != [] {
      hide Exec, Applied, Visible, AgentAccess, HeadroomAccess;
      var before, last := program[..|program| - 1], program[|program| - 1];
      RunFields(seed, before);
      FieldsStep(Run(Installed(seed), before).value, last);
      AccessesStep(seed.agent, AgentAccess, program);
      AccessesStep(seed.headroom as int, HeadroomAccess, program);
    }
  }

  // So whether a script concatenates with every later one can be read off its text.
  lemma ConcatenatesByText(seed: Accumulator, global: seq<Stmt>)
    ensures Concatenates(seed, global) <==>
      ((forall i :: 0 <= i < |global| && global[i].SetHeadroom? ==> global[i].amount >= 0) ==>
         Settled(seed.agent, Accesses(AgentAccess, global)) && Settled(seed.headroom, Accesses(HeadroomAccess, global)))
  {
    hide Run, Concatenates, Settled, Held, Shown;
    ConcatenatesIff(seed, global);
    RunsIffNonNegative(Installed(seed), global);
    if Run(Installed(seed), global).Some? {
      RunFields(seed, global);
      SettledMeans(seed.agent, Accesses(AgentAccess, global));
      SettledMeans(seed.headroom, Accesses(HeadroomAccess, global));
    }
  }

  // The split shows: `set_model` applies to whichever agent is active in the accumulator, and a
  // direct write reaches it only at the next commit.
  lemma TableWritesDoNotConcatenate(seed: Accumulator, model: string)
    requires seed.agent == "claude-code" && "claude-code" in seed.agents && "pi" in seed.agents
    requires ModelOf(seed, "pi", "work") != Some(model)
    ensures var g, p := [WriteAgent(Some("pi"))], [SetModel("work", model)];
      Resolved(seed, Some(g), Some(p)) != Resolved(seed, Some(g + p), None)
  {
    var g, p := [WriteAgent(Some("pi"))], [SetModel("work", model)];
    var s := Installed(seed);
    var written := s.(table := s.table.(agent := Some("pi")));
    RunOne(s, g[0]);
    RunOne(written, p[0]);
    RunOne(Committed(written), p[0]);
    ResolvedParts(seed, g, p);
    var layered, joined := Resolved(seed, Some(g), Some(p)), Resolved(seed, Some(g + p), None);
    assert |"pi"| == 2 && |"claude-code"| == 11;
    assert ModelOf(layered.value, "pi", "work") == Some(model);
    assert ModelOf(joined.value, "pi", "work") == ModelOf(seed, "pi", "work");
  }

  // ---------- what a run of setters leaves ----------

  // A program that runs to its end writes no negative headroom, and conversely.
  lemma {:induction false} RunsIffNonNegative(s: State, program: seq<Stmt>)
    ensures Run(s, program).Some? <==>
      forall i :: 0 <= i < |program| && program[i].SetHeadroom? ==> program[i].amount >= 0
  {
    if program != [] {
      var n := |program| - 1;
      RunsIffNonNegative(s, program[..n]);
      assert forall i :: 0 <= i < n ==> program[..n][i] == program[i];
    }
  }

  // The active agent after the program.
  function Active(start: string, program: seq<Stmt>): string {
    if program == [] then start
    else
      var last := program[|program| - 1];
      if last.SetAgent? then last.name else Active(start, program[..|program| - 1])
  }

  function LastHeadroom(start: nat, program: seq<Stmt>): int {
    if program == [] then start
    else
      var last := program[|program| - 1];
      if last.SetHeadroom? then last.amount else LastHeadroom(start, program[..|program| - 1])
  }

  // The last model written for `agent` and `phase`, whether named or active at the time.
  function LastModel(start: string, program: seq<Stmt>, agent: string, phase: string): Option<string> {
    if program == [] then None
    else
      var last, before := program[|program| - 1], program[..|program| - 1];
      match last
      case SetModel(p, m) =>
        if Active(start, before) == agent && p == phase then Some(m) else LastModel(start, before, agent, phase)
      case SetModelFor(a, p, m) => if a == agent && p == phase then Some(m) else LastModel(start, before, agent, phase)
      case _ => LastModel(start, before, agent, phase)
  }

  function LastProvider(start: string, program: seq<Stmt>, agent: string): Option<string> {
    if program == [] then None
    else
      var last, before := program[|program| - 1], program[..|program| - 1];
      match last
      case SetProvider(v) => if Active(start, before) == agent then Some(v) else LastProvider(start, before, agent)
      case SetProviderFor(a, v) => if a == agent then Some(v) else LastProvider(start, before, agent)
      case _ => LastProvider(start, before, agent)
  }

  function LastToken(program: seq<Stmt>, agent: string, token: string): Option<string> {
    if program == [] then None
    else
      var last, before := program[|program| - 1], program[..|program| - 1];
      if last.SetToken? && last.agent == agent && last.token == token then Some(last.value)
      else LastToken(before, agent, token)
  }

  // The texts appended for `phase`, in call order.
  function Appended(program: seq<Stmt>, phase: string): seq<string> {
    if program == [] then []
    else
      var last, before := program[|program| - 1], program[..|program| - 1];
      Appended(before, phase) + if last.AppendPrompt? && last.phase == phase then [last.text] else []
  }

  function ModelOf(acc: Accumulator, agent: string, phase: string): Option<string> {
    if agent in acc.agents && phase in acc.agents[agent].models then Some(acc.agents[agent].models[phase]) else None
  }

  function ProviderOf(acc: Accumulator, agent: string): Option<string> {
    if agent in acc.agents then acc.agents[agent].provider else None
  }

  function TokenOf(acc: Accumulator, agent: string, token: string): Option<string> {
    if agent in acc.tokens && token in acc.tokens[agent] then Some(acc.tokens[agent][token]) else None
  }

  function OrElse<T>(a: Option<T>, b: Option<T>): Option<T> {
    if a.Some? then a else b
  }

  function ThinkingOf(acc: Accumulator, agent: string): map<string, string> {
    GetOr(acc.agents, agent, NO_AGENT).thinking
  }

  function ParamsOf(acc: Accumulator, agent: string): map<string, map<string, Value>> {
    GetOr(acc.agents, agent, NO_AGENT).params
  }

  lemma ThinkingStep(s: State, stmt: Stmt, agent: string)
    requires Exec(s, stmt).Some?
    ensures ThinkingOf(Exec(s, stmt).value.acc, agent) == ThinkingOf(s.acc, agent)
    ensures ParamsOf(Exec(s, stmt).value.acc, agent) == ParamsOf(s.acc, agent)
  {
  }

  // No statement touches the settings that have no setter.
  lemma {:induction false} ThinkingKept(s: State, program: seq<Stmt>, agent: string)
    requires Run(s, program).Some?
    ensures ThinkingOf(Run(s, program).value.acc, agent) == ThinkingOf(s.acc, agent)
    ensures ParamsOf(Run(s, program).value.acc, agent) == ParamsOf(s.acc, agent)
  {
    hide Exec, ThinkingOf, ParamsOf;
    if program != [] {
      ThinkingKept(s, program[..|program| - 1], agent);
      ThinkingStep(Run(s, program[..|program| - 1]).value, program[|program| - 1], agent);
    }
  }

  lemma {:induction false} LastScalarWins(s: State, program: seq<Stmt>)
    requires SettersOnly(program) && Run(s, program).Some?
    ensures Run(s, program).value.acc.agent == Active(s.acc.agent, program)
    ensures Run(s, program).value.acc.headroom == LastHeadroom(s.acc.headroom, program)
  {
    if program != [] {
      LastScalarWins(s, program[..|program| - 1]);
    }
  }

  lemma ModelStep(s: State, stmt: Stmt, agent: string, phase: string)
    requires !stmt.Commit? && Exec(s, stmt).Some?
    ensures ModelOf(Exec(s, stmt).value.acc, agent, phase) ==
      if stmt.SetModel? && s.acc.agent == agent && stmt.phase == phase then Some(stmt.model)
      else if stmt.SetModelFor? && stmt.agent == agent && stmt.phase == phase then Some(stmt.model)
      else ModelOf(s.acc, agent, phase)
  {
  }

  lemma ProviderStep(s: State, stmt: Stmt, agent: string)
    requires !stmt.Commit? && Exec(s, stmt).Some?
    ensures ProviderOf(Exec(s, stmt).value.acc, agent) ==
      if stmt.SetProvider? && s.acc.agent == agent then Some(stmt.provider)
      else if stmt.SetProviderFor? && stmt.agent == agent then Some(stmt.provider)
      else ProviderOf(s.acc, agent)
  {
  }

  lemma TokenStep(s: State, stmt: Stmt, agent: string, token: string)
    requires !stmt.Commit? && Exec(s, stmt).Some?
    ensures TokenOf(Exec(s, stmt).value.acc, agent, token) ==
      if stmt.SetToken? && stmt.agent == agent && stmt.token == token then Some(stmt.value)
      else TokenOf(s.acc, agent, token)
  {
  }

  // Map settings are last-write-wins per key; appends are the append calls in order.
  lemma {:induction false} LastModelWins(s: State, program: seq<Stmt>, agent: string, phase: string)
    requires SettersOnly(program) && Run(s, program).Some?
    ensures ModelOf(Run(s, program).value.acc, agent, phase)
            == OrElse(LastModel(s.acc.agent, program, agent, phase), ModelOf(s.acc, agent, phase))
  {
    hide Exec, ModelOf;
    if program != [] {
      LastModelWins(s, program[..|program| - 1], agent, phase);
      ModelStep(Run(s, program[..|program| - 1]).value, program[|program| - 1], agent, phase);
      LastScalarWins(s, program[..|program| - 1]);
    }
  }

  lemma {:induction false} LastProviderWins(s: State, program: seq<Stmt>, agent: string)
    requires SettersOnly(program) && Run(s, program).Some?
    ensures ProviderOf(Run(s, program).value.acc, agent)
            == OrElse(LastProvider(s.acc.agent, program, agent), ProviderOf(s.acc, agent))
  {
    hide Exec, ProviderOf;
    if program != [] {
      LastProviderWins(s, program[..|program| - 1], agent);
      ProviderStep(Run(s, program[..|program| - 1]).value, program[|program| - 1], agent);
      LastScalarWins(s, program[..|program| - 1]);
    }
  }

  lemma {:induction false} LastTokenWins(s: State, program: seq<Stmt>, agent: string, token: string)
    requires SettersOnly(program) && Run(s, program).Some?
    ensures TokenOf(Run(s, program).value.acc, agent, token)
            == OrElse(LastToken(program, agent, token), TokenOf(s.acc, agent, token))
  {
    hide Exec, TokenOf;
    if program != [] {
      LastTokenWins(s, program[..|program| - 1], agent, token);
      TokenStep(Run(s, program[..|program| - 1]).value, program[|program| - 1], agent, token);
    }
  }

  lemma {:induction false} AppendsInOrder(s: State, program: seq<Stmt>, phase: string)
    requires SettersOnly(program) && Run(s, program).Some?
    ensures GetOr(Run(s, program).value.acc.appends, phase, [])
      == GetOr(s.acc.appends, phase, []) + Appended(program, phase)
  {
    var start := GetOr(s.acc.appends, phase, []);
    if program == [] {
      assert start + [] == start;
    } else {
      var before, last := program[..|program| - 1], program[|program| - 1];
      AppendsInOrder(s, before, phase);
      if last.AppendPrompt? && last.phase == phase {
        assert start + (Appended(before, phase) + [last.text]) == start + Appended(before, phase) + [last.text];
      } else {
        assert Appended(before, phase) + [] == Appended(before, phase);
      }
    }
  }
}
