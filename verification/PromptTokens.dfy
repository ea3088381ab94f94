// Token substitution in composed prompts (src/prompt.rs): sequential string replacement,
// then a guard against leftover placeholders.
module PromptTokens {

  datatype PlanContext = PlanContext(planDir: string, projectDir: string, devRoot: string, relatedPlans: string,
                                     configRoot: string)

  datatype Outcome = Composed(text: string) | Unresolved(names: set<string>)

  // ---------- the string operations ----------

  function Pattern(name: string): (r: string)
    ensures |r| == |name| + 4
  {
    "{{" + name + "}}"
  }

  // `str::replace`: leftmost matches first, never overlapping, the inserted text not rescanned.
  function Replace(s: string, pattern: string, value: string): string
    requires pattern != ""
  {
    if s == "" then ""
    else if pattern <= s then value + Replace(s[|pattern|..], pattern, value)
    else [s[0]] + Replace(s[1..], pattern, value)
  }

  // The parts with `separator` between them.
  function Join(parts: seq<string>, separator: string): string
    requires parts != []
  {
    if |parts| == 1 then parts[0] else parts[0] + separator + Join(parts[1..], separator)
  }

  // The first occurrence in `s` is at its very end, or there is none.
  ghost predicate FreeOf(s: string, pattern: string) {
    forall k :: 0 <= k < |s| - |pattern| ==> !(pattern <= s[k..])
  }

  // The parts are what the leftmost occurrences leave: followed by the pattern, none holds an earlier one.
  ghost predicate Leftmost(parts: seq<string>, pattern: string) {
    && parts != []
    && (forall i :: 0 <= i < |parts| - 1 ==> FreeOf(parts[i] + pattern, pattern))
    && Without(parts[|parts| - 1], pattern)
  }

  ghost predicate Without(s: string, pattern: string) {
    forall k :: 0 <= k < |s| ==> !(pattern <= s[k..])
  }

  // Replacing splits at the leftmost occurrences and joins with the value instead.
  lemma {:induction false} ReplaceSplits(s: string, pattern: string, value: string) returns (parts: seq<string>)
    requires pattern != ""
    ensures Leftmost(parts, pattern) && s == Join(parts, pattern) && Replace(s, pattern, value) == Join(parts, value)
  {
    hide FreeOf;
    if s == "" {
      parts := [""];
    } else if pattern <= s {
      var rest := ReplaceSplits(s[|pattern|..], pattern, value);
      parts := [""] + rest;
      assert parts[1..] == rest && parts[|parts| - 1] == rest[|rest| - 1];
      assert s == pattern + s[|pattern|..];
      PatternIsFree(pattern);
      assert forall i :: 0 < i < |parts| ==> parts[i] == rest[i - 1];
      assert "" + pattern == pattern && "" + value == value;
    } else {
      var rest := ReplaceSplits(s[1..], pattern, value);
      parts := rest[0 := [s[0]] + rest[0]];
      SplitStep(s, pattern, value, rest);
    }
  }

  lemma PatternIsFree(pattern: string)
    ensures FreeOf("" + pattern, pattern)
  {
  }

  lemma JoinStep(c: string, parts: seq<string>, separator: string)
    requires parts != []
    ensures Join(parts[0 := c + parts[0]], separator) == c + Join(parts, separator)
  {
    var more := parts[0 := c + parts[0]];
    assert more[1..] == parts[1..];
    if |parts| > 1 {
      var tail := Join(parts[1..], separator);
      assert c + (parts[0] + separator + tail) == c + parts[0] + separator + tail;
    }
  }

  // One more character in front, at which the pattern does not occur.
  lemma SplitStep(s: string, pattern: string, value: string, rest: seq<string>)
    requires s != "" && pattern != "" && !(pattern <= s)
    requires Leftmost(rest, pattern) && s[1..] == Join(rest, pattern)
    requires Replace(s[1..], pattern, value) == Join(rest, value)
    ensures var parts := rest[0 := [s[0]] + rest[0]];
      Leftmost(parts, pattern) && s == Join(parts, pattern) && Replace(s, pattern, value) == Join(parts, value)
  {
    hide Leftmost, Join;
    var c := [s[0]];
    assert s == c + s[1..];
    assert rest != [] by { SomePart(rest, pattern); }
    JoinStep(c, rest, pattern);
    JoinStep(c, rest, value);
    LeftmostStep(c, rest, pattern);
  }

  lemma SomePart(parts: seq<string>, pattern: string)
    requires Leftmost(parts, pattern)
    ensures parts != []
  {
  }

  lemma LeftmostStep(c: string, rest: seq<string>, pattern: string)
    requires |c| == 1 && Leftmost(rest, pattern) && !(pattern <= c + Join(rest, pattern))
    ensures Leftmost(rest[0 := c + rest[0]], pattern)
  {
    hide FreeOf, Without, Join;
    var first := rest[0];
    if |rest| == 1 {
      OnePart(rest, pattern);
      WithoutStep(c, first, pattern);
    } else {
      var tail := Join(rest[1..], pattern);
      MoreParts(rest, pattern);
      assert c + (first + pattern + tail) == c + first + pattern + tail;
      FreeStep(c, first, pattern, tail);
    }
  }

  lemma OnePart(parts: seq<string>, separator: string)
    requires |parts| == 1
    ensures Join(parts, separator) == parts[0]
  {
  }

  lemma MoreParts(parts: seq<string>, separator: string)
    requires |parts| > 1
    ensures Join(parts, separator) == parts[0] + separator + Join(parts[1..], separator)
  {
  }

  lemma WithoutStep(c: string, first: string, pattern: string)
    requires |c| == 1 && Without(first, pattern) && !(pattern <= c + first)
    ensures Without(c + first, pattern)
  {
    forall k | 0 <= k < |c + first| ensures !(pattern <= (c + first)[k..]) {
      if k == 0 {
        assert (c + first)[0..] == c + first;
      } else {
        assert (c + first)[k..] == first[k - 1..];
      }
    }
  }

  lemma FreeStep(c: string, first: string, pattern: string, tail: string)
    requires |c| == 1 && FreeOf(first + pattern, pattern) && !(pattern <= c + first + pattern + tail)
    ensures FreeOf(c + first + pattern, pattern)
  {
    var whole := c + first + pattern;
    forall k | 0 <= k < |whole| - |pattern| ensures !(pattern <= whole[k..]) {
      if k == 0 {
        PrefixLonger(pattern, whole, tail);
        assert whole[0..] == whole;
      } else {
        assert whole[k..] == (first + pattern)[k - 1..];
      }
    }
  }

  lemma PrefixLonger(pattern: string, s: string, t: string)
    ensures pattern <= s ==> pattern <= s + t
  {
  }

  predicate IsWordChar(c: char) {
    'A' <= c <= 'Z' || 'a' <= c <= 'z' || '0' <= c <= '9' || c == '_'
  }

  predicate IsWord(name: string) {
    name != "" && forall i :: 0 <= i < |name| ==> IsWordChar(name[i])
  }

  function WordLength(s: string): (n: nat)
    ensures n <= |s| && (n < |s| ==> !IsWordChar(s[n])) && forall i :: 0 <= i < n ==> IsWordChar(s[i])
  {
    if s == "" || !IsWordChar(s[0]) then 0 else 1 + WordLength(s[1..])
  }

  // A placeholder `{{NAME}}` starts here, with `NAME` of length n > 0; 0 if none does.
  function PlaceholderAt(s: string): (n: nat)
    ensures n > 0 ==> n + 4 <= |s|
  {
    if |s| < 2 || s[0] != '{' || s[1] != '{' then 0
    else
      var n := WordLength(s[2..]);
      if n + 4 <= |s| && s[n + 2] == '}' && s[n + 3] == '}' then n else 0
  }

  // The names captured by `\{\{([A-Za-z0-9_]+)\}\}` over the whole string.
  function Leftover(s: string): set<string> {
    if s == "" then {}
    else
      var n := PlaceholderAt(s);
      if n > 0 then {s[2..n + 2]} + Leftover(s[n + 4..]) else Leftover(s[1..])
  }

  function ReplaceAll(s: string, tokens: map<string, string>, order: seq<string>): string
    requires forall k :: k in order ==> k in tokens
    decreases |order|
  {
    if order == [] then s
    else ReplaceAll(Replace(s, Pattern(order[0]), tokens[order[0]]), tokens, order[1..])
  }

  function ReplacePaths(s: string, ctx: PlanContext): string {
    var s1 := Replace(s, Pattern("DEV_ROOT"), ctx.devRoot);
    var s2 := Replace(s1, Pattern("PROJECT"), ctx.projectDir);
    var s3 := Replace(s2, Pattern("PLAN"), ctx.planDir);
    Replace(s3, Pattern("ORCHESTRATOR"), ctx.configRoot)
  }

  // The text just before the guard, when the token map is iterated in `order`.
  function Substituted(content: string, ctx: PlanContext, tokens: map<string, string>, order: seq<string>): string
    requires forall k :: k in order ==> k in tokens
  {
    ReplacePaths(ReplaceAll(Replace(content, Pattern("RELATED_PLANS"), ctx.relatedPlans), tokens, order), ctx)
  }

  function Guarded(text: string): Outcome {
    if Leftover(text) == {} then Composed(text) else Unresolved(Leftover(text))
  }

  // `order` visits every key once.
  ghost predicate Visits(order: seq<string>, tokens: map<string, string>) {
    && (forall k :: k in order <==> k in tokens)
    && (forall i, j :: 0 <= i < j < |order| ==> order[i] != order[j])
  }

  lemma {:induction false} ReplaceAllSnoc(s: string, tokens: map<string, string>, order: seq<string>, key: string)
    requires forall k :: k in order ==> k in tokens
    requires key in tokens
    ensures ReplaceAll(s, tokens, order + [key]) == Replace(ReplaceAll(s, tokens, order), Pattern(key), tokens[key])
    decreases |order|
  {
    if order == [] {
      assert order + [key] == [key];
    } else {
      assert (order + [key])[1..] == order[1..] + [key];
      ReplaceAllSnoc(Replace(s, Pattern(order[0]), tokens[order[0]]), tokens, order[1..], key);
    }
  }

  // A hash map is iterated in an order of its own choosing: `r` is the outcome for one of them.
  ghost predicate Possible(r: Outcome, content: string, ctx: PlanContext, tokens: map<string, string>) {
    exists order :: Visits(order, tokens) && r == Guarded(Substituted(content, ctx, tokens, order))
  }

  method SubstituteTokens(content: string, ctx: PlanContext, tokens: map<string, string>) returns (r: Outcome)
    ensures Possible(r, content, ctx, tokens)
  {
    hide Replace, Leftover;
    var result := Replace(content, Pattern("RELATED_PLANS"), ctx.relatedPlans);
    ghost var expanded := result;
    ghost var order: seq<string> := [];
    var pending := tokens.Keys;
    while pending != {}
      invariant pending <= tokens.Keys
      invariant forall k :: k in order <==> k in tokens && k !in pending
      invariant forall i, j :: 0 <= i < j < |order| ==> order[i] != order[j]
      invariant result == ReplaceAll(expanded, tokens, order)
    {
      var key :| key in pending;
      ReplaceAllSnoc(expanded, tokens, order, key);
      result := Replace(result, Pattern(key), tokens[key]);
      order := order + [key];
      pending := pending - {key};
    }
    result := Replace(result, Pattern("DEV_ROOT"), ctx.devRoot);
    result := Replace(result, Pattern("PROJECT"), ctx.projectDir);
    result := Replace(result, Pattern("PLAN"), ctx.planDir);
    result := Replace(result, Pattern("ORCHESTRATOR"), ctx.configRoot);
    assert Visits(order, tokens) && result == Substituted(content, ctx, tokens, order);
    var unresolved := Leftover(result);
    if unresolved != {} {
      return Unresolved(unresolved);
    }
    return Composed(result);
  }

  // ---------- templates ----------

  datatype Piece = Text(text: string) | Token(name: string)

  predicate BraceFree(s: string) {
    forall i :: 0 <= i < |s| ==> s[i] != '{' && s[i] != '}'
  }

  // Text that cannot take part in a placeholder: no doubled opening brace, no opening brace at the end.
  predicate Inert(s: string) {
    && (forall i :: 0 <= i < |s| - 1 ==> !(s[i] == '{' && s[i + 1] == '{'))
    && (s != "" ==> s[|s| - 1] != '{')
  }

  predicate WellFormed(ps: seq<Piece>) {
    forall i :: 0 <= i < |ps| ==> match ps[i] case Text(t) => Inert(t) case Token(n) => BraceFree(n)
  }

  function RenderPiece(p: Piece): string {
    match p case Text(t) => t case Token(n) => Pattern(n)
  }

  function Render(ps: seq<Piece>): string {
    if ps == [] then "" else RenderPiece(ps[0]) + Render(ps[1..])
  }

  lemma {:induction false} RenderConcat(a: seq<Piece>, b: seq<Piece>)
    ensures Render(a + b) == Render(a) + Render(b)
  {
    if a == [] {
      assert a + b == b;
    } else {
      assert (a + b)[1..] == a[1..] + b;
      RenderConcat(a[1..], b);
    }
  }

  // Simultaneous replacement: every token of `m` gives way to its expansion, all at once.
  function Expand(ps: seq<Piece>, m: map<string, seq<Piece>>): seq<Piece> {
    if ps == [] then []
    else (if ps[0].Token? && ps[0].name in m then m[ps[0].name] else [ps[0]]) + Expand(ps[1..], m)
  }

  // ---------- one replacement, on templates ----------

  lemma {:induction false} SkipInert(t: string, rest: string, name: string, value: string)
    requires Inert(t)
    ensures Replace(t + rest, Pattern(name), value) == t + Replace(rest, Pattern(name), value)
  {
    if t == "" {
      assert t + rest == rest;
    } else {
      var s := t + rest;
      assert s[1..] == t[1..] + rest;
      assert Pattern(name)[0] == '{' && Pattern(name)[1] == '{';
      SkipInert(t[1..], rest, name, value);
    }
  }

  // A brace-free name is delimited by the first closing brace.
  lemma {:induction false} NamesMatch(a: string, b: string, rest: string)
    requires BraceFree(a) && BraceFree(b) && a + "}}" <= b + "}}" + rest
    ensures a == b
  {
    var s := b + "}}" + rest;
    if a != "" && b != "" {
      assert (a + "}}")[0] == a[0] && s[0] == b[0];
      assert (a + "}}")[1..] == a[1..] + "}}" && s[1..] == b[1..] + "}}" + rest;
      NamesMatch(a[1..], b[1..], rest);
      assert a == [a[0]] + a[1..] && b == [b[0]] + b[1..];
    } else {
      assert (a + "}}")[0] == s[0];
    }
  }

  lemma OtherPattern(other: string, rest: string, name: string)
    requires BraceFree(other) && BraceFree(name) && other != name
    ensures !(Pattern(name) <= Pattern(other) + rest)
  {
    hide BraceFree;
    var s := Pattern(other) + rest;
    if Pattern(name) <= s {
      assert s[2..] == other + "}}" + rest && Pattern(name)[2..] == name + "}}";
      NamesMatch(name, other, rest);
    }
  }

  lemma SkipOther(other: string, rest: string, name: string, value: string)
    requires BraceFree(other) && BraceFree(name) && other != name
    ensures Replace(Pattern(other) + rest, Pattern(name), value) == Pattern(other) + Replace(rest, Pattern(name), value)
  {
    var s := Pattern(other) + rest;
    OtherPattern(other, rest, name);
    hide BraceFree;
    var tail := "{" + other + "}}";
    assert s[1..] == tail + rest && Pattern(other) == "{" + tail;
    SkipInert(tail, rest, name, value);
  }

  lemma {:induction false} ReplaceRendered(ps: seq<Piece>, name: string, value: seq<Piece>)
    requires WellFormed(ps) && BraceFree(name)
    ensures Replace(Render(ps), Pattern(name), Render(value)) == Render(Expand(ps, map[name := value]))
  {
    if ps != [] {
      var rest := Render(ps[1..]);
      var m := map[name := value];
      ReplaceRendered(ps[1..], name, value);
      match ps[0] {
        case Text(t) =>
          SkipInert(t, rest, name, Render(value));
          RenderConcat([ps[0]], Expand(ps[1..], m));
        case Token(n) =>
          if n == name {
            assert Render(ps)[|Pattern(name)|..] == rest;
            RenderConcat(value, Expand(ps[1..], m));
          } else {
            SkipOther(n, rest, name, Render(value));
            RenderConcat([ps[0]], Expand(ps[1..], m));
          }
      }
    }
  }

  // ---------- the whole pipeline, on templates ----------

  const PATH_NAMES := ["DEV_ROOT", "PROJECT", "PLAN", "ORCHESTRATOR"]

  function PathsOf(ctx: PlanContext): map<string, seq<Piece>> {
    map["DEV_ROOT" := [Text(ctx.devRoot)], "PROJECT" := [Text(ctx.projectDir)],
        "PLAN" := [Text(ctx.planDir)], "ORCHESTRATOR" := [Text(ctx.configRoot)]]
  }

  predicate Mentions(ps: seq<Piece>, name: string) {
    Token(name) in ps
  }

  // `agents` writes every agent value as a template.
  ghost predicate Spells(agents: map<string, seq<Piece>>, tokens: map<string, string>) {
    && agents.Keys == tokens.Keys
    && (forall k :: k in agents ==> BraceFree(k) && WellFormed(agents[k]) && tokens[k] == Render(agents[k]))
  }

  // No value mentions another key of the map.
  ghost predicate Independent(m: map<string, seq<Piece>>) {
    forall j, k :: j in m && k in m && j != k ==> !Mentions(m[j], k)
  }

  predicate InertPaths(ctx: PlanContext) {
    Inert(ctx.devRoot) && Inert(ctx.projectDir) && Inert(ctx.planDir) && Inert(ctx.configRoot)
  }

  ghost predicate Readable(ctx: PlanContext, tokens: map<string, string>, related: seq<Piece>,
                           agents: map<string, seq<Piece>>) {
    && ctx.relatedPlans == Render(related) && WellFormed(related)
    && InertPaths(ctx) && Spells(agents, tokens) && Independent(agents)
  }

  // Staged simultaneous expansion: the related-plans macro, then all agent tokens, then all paths.
  function Expanded(template: seq<Piece>, ctx: PlanContext, related: seq<Piece>,
                    agents: map<string, seq<Piece>>): seq<Piece> {
    Expand(Expand(Expand(template, map["RELATED_PLANS" := related]), agents), PathsOf(ctx))
  }

  lemma {:induction false} ExpandConcat(a: seq<Piece>, b: seq<Piece>, m: map<string, seq<Piece>>)
    ensures Expand(a + b, m) == Expand(a, m) + Expand(b, m)
  {
    if a == [] {
      assert a + b == b;
    } else {
      assert (a + b)[1..] == a[1..] + b;
      ExpandConcat(a[1..], b, m);
    }
  }

  lemma {:induction false} ExpandWellFormed(ps: seq<Piece>, m: map<string, seq<Piece>>)
    requires WellFormed(ps) && forall k :: k in m ==> WellFormed(m[k])
    ensures WellFormed(Expand(ps, m))
  {
    if ps != [] {
      ExpandWellFormed(ps[1..], m);
    }
  }

  lemma {:induction false} ExpandUnmentioned(ps: seq<Piece>, m: map<string, seq<Piece>>)
    requires forall k :: k in m ==> !Mentions(ps, k)
    ensures Expand(ps, m) == ps
  {
    if ps != [] {
      assert ps[0] in ps;
      assert forall p :: p in ps[1..] ==> p in ps;
      ExpandUnmentioned(ps[1..], m);
    }
  }

  // Expanding one token and then the others is expanding them together.
  lemma {:induction false} ExpandSplit(ps: seq<Piece>, key: string, value: seq<Piece>, m: map<string, seq<Piece>>)
    requires key !in m && forall k :: k in m ==> !Mentions(value, k)
    ensures Expand(Expand(ps, map[key := value]), m) == Expand(ps, m[key := value])
  {
    if ps != [] {
      ExpandSplit(ps[1..], key, value, m);
      var head := if ps[0] == Token(key) then value else [ps[0]];
      ExpandConcat(head, Expand(ps[1..], map[key := value]), m);
      if ps[0] == Token(key) {
        ExpandUnmentioned(value, m);
      } else {
        assert Expand([ps[0]], m) == (if ps[0].Token? && ps[0].name in m then m[ps[0].name] else [ps[0]]) + [];
      }
    }
  }

  function Restrict(m: map<string, seq<Piece>>, order: seq<string>): map<string, seq<Piece>> {
    map k | k in m && k in order :: m[k]
  }

  lemma RestrictParts(m: map<string, seq<Piece>>, order: seq<string>)
    ensures forall k :: k in Restrict(m, order) <==> k in m && k in order
    ensures forall k :: k in Restrict(m, order) ==> Restrict(m, order)[k] == m[k]
    ensures order != [] ==>
      Restrict(m, order) ==
        if order[0] in m then Restrict(m, order[1..])[order[0] := m[order[0]]] else Restrict(m, order[1..])
  {
    assert order != [] ==> forall k :: k in order <==> k == order[0] || k in order[1..];
  }

  // Whatever the order, replacing the tokens one after the other expands them all at once.
  lemma {:induction false} ReplaceAllExpands(ps: seq<Piece>, tokens: map<string, string>, m: map<string, seq<Piece>>,
                                             order: seq<string>)
    requires WellFormed(ps) && Independent(m)
    requires forall k :: k in order ==> k in m && k in tokens && BraceFree(k)
    requires forall k :: k in m ==> k in tokens && WellFormed(m[k]) && tokens[k] == Render(m[k])
    requires forall i, j :: 0 <= i < j < |order| ==> order[i] != order[j]
    ensures ReplaceAll(Render(ps), tokens, order) == Render(Expand(ps, Restrict(m, order)))
    decreases |order|
  {
    hide Replace, Render, Expand, WellFormed, Mentions, Pattern, BraceFree, Restrict;
    RestrictParts(m, order);
    if order == [] {
      ExpandUnmentioned(ps, Restrict(m, order));
    } else {
      var key, rest := order[0], order[1..];
      RestrictParts(m, rest);
      assert forall i, j :: 0 <= i < j < |rest| ==> rest[i] == order[i + 1] && rest[j] == order[j + 1];
      assert key !in rest;
      var one := map[key := m[key]];
      ReplaceRendered(ps, key, m[key]);
      ExpandWellFormed(ps, one);
      ReplaceAllExpands(Expand(ps, one), tokens, m, rest);
      ExpandSplit(ps, key, m[key], Restrict(m, rest));
    }
  }

  lemma PathsInOrder(s: string, ctx: PlanContext, tokens: map<string, string>)
    requires tokens == map["DEV_ROOT" := ctx.devRoot, "PROJECT" := ctx.projectDir, "PLAN" := ctx.planDir,
      "ORCHESTRATOR" := ctx.configRoot]
    ensures ReplaceAll(s, tokens, PATH_NAMES) == ReplacePaths(s, ctx)
  {
    hide Replace;
    var s1 := Replace(s, Pattern("DEV_ROOT"), ctx.devRoot);
    var s2 := Replace(s1, Pattern("PROJECT"), ctx.projectDir);
    var s3 := Replace(s2, Pattern("PLAN"), ctx.planDir);
    assert ReplaceAll(s, tokens, PATH_NAMES) == ReplaceAll(s1, tokens, PATH_NAMES[1..]);
    assert PATH_NAMES[1..] == ["PROJECT", "PLAN", "ORCHESTRATOR"];
    assert ReplaceAll(s1, tokens, PATH_NAMES[1..]) == ReplaceAll(s2, tokens, PATH_NAMES[1..][1..]);
    assert PATH_NAMES[1..][1..] == ["PLAN", "ORCHESTRATOR"];
    assert ReplaceAll(s2, tokens, PATH_NAMES[1..][1..]) == ReplaceAll(s3, tokens, PATH_NAMES[1..][1..][1..]);
    assert PATH_NAMES[1..][1..][1..] == ["ORCHESTRATOR"];
  }

  lemma PathNames()
    ensures forall i, j :: 0 <= i < j < |PATH_NAMES| ==> PATH_NAMES[i] != PATH_NAMES[j]
    ensures forall k :: k in PATH_NAMES <==> k == "DEV_ROOT" || k == "PROJECT" || k == "PLAN" || k == "ORCHESTRATOR"
    ensures forall k :: k in PATH_NAMES ==> BraceFree(k)
  {
    assert |"DEV_ROOT"| == 8 && |"PROJECT"| == 7 && |"PLAN"| == 4 && |"ORCHESTRATOR"| == 12;
  }

  lemma PathsExpand(ps: seq<Piece>, ctx: PlanContext)
    requires WellFormed(ps) && InertPaths(ctx)
    ensures ReplacePaths(Render(ps), ctx) == Render(Expand(ps, PathsOf(ctx)))
  {
    hide ReplaceAll, ReplacePaths, Expand, Inert, BraceFree;
    var paths := PathsOf(ctx);
    var tokens := map["DEV_ROOT" := ctx.devRoot, "PROJECT" := ctx.projectDir, "PLAN" := ctx.planDir,
      "ORCHESTRATOR" := ctx.configRoot];
    PathNames();
    PathsInOrder(Render(ps), ctx, tokens);
    forall k | k in paths
      ensures k in PATH_NAMES && WellFormed(paths[k]) && tokens[k] == Render(paths[k])
      ensures forall j :: !Mentions(paths[k], j)
    {
      OneText(tokens[k]);
    }
    ReplaceAllExpands(ps, tokens, paths, PATH_NAMES);
    assert Restrict(paths, PATH_NAMES) == paths;
  }

  lemma OneText(t: string)
    ensures Render([Text(t)]) == t
    ensures forall j :: !Mentions([Text(t)], j)
  {
    assert Render([Text(t)]) == t + "";
  }

  lemma MacroName()
    ensures BraceFree("RELATED_PLANS")
  {
  }

  // Sequential replacement, in any iteration order, computes the staged simultaneous expansion.
  lemma SubstitutionExpands(template: seq<Piece>, ctx: PlanContext, tokens: map<string, string>, order: seq<string>,
                            related: seq<Piece>, agents: map<string, seq<Piece>>)
    requires WellFormed(template) && Readable(ctx, tokens, related, agents) && Visits(order, tokens)
    ensures Substituted(Render(template), ctx, tokens, order) == Render(Expanded(template, ctx, related, agents))
  {
    hide ReplaceAll, ReplacePaths, Expand, Inert, BraceFree, Render, Replace, PathsOf, WellFormed, Mentions;
    var macro := map["RELATED_PLANS" := related];
    MacroName();
    var t1 := Expand(template, macro);
    ReplaceRendered(template, "RELATED_PLANS", related);
    ExpandWellFormed(template, macro);
    ReplaceAllExpands(t1, tokens, agents, order);
    assert Restrict(agents, order) == agents;
    ExpandWellFormed(t1, agents);
    PathsExpand(Expand(t1, agents), ctx);
  }

  // Hence the hash map's order does not show in what a call returns.
  lemma OutcomeUnique(template: seq<Piece>, ctx: PlanContext, tokens: map<string, string>,
                      related: seq<Piece>, agents: map<string, seq<Piece>>, r: Outcome, s: Outcome)
    requires WellFormed(template) && Readable(ctx, tokens, related, agents)
    requires Possible(r, Render(template), ctx, tokens) && Possible(s, Render(template), ctx, tokens)
    ensures r == s == Guarded(Render(Expanded(template, ctx, related, agents)))
  {
    hide Substituted, Guarded, Readable, Render, Expanded, WellFormed;
    forall order | Visits(order, tokens)
      ensures Substituted(Render(template), ctx, tokens, order) == Render(Expanded(template, ctx, related, agents))
    {
      SubstitutionExpands(template, ctx, tokens, order, related, agents);
    }
  }

  // ---------- the guard, on templates ----------

  ghost predicate LeftIn(ps: seq<Piece>, name: string) {
    IsWord(name) && Mentions(ps, name)
  }

  lemma {:induction false} LeftoverInert(t: string, rest: string)
    requires Inert(t)
    ensures Leftover(t + rest) == Leftover(rest)
  {
    if t == "" {
      assert t + rest == rest;
    } else {
      var s := t + rest;
      assert s[1..] == t[1..] + rest;
      assert PlaceholderAt(s) == 0;
      LeftoverInert(t[1..], rest);
    }
  }

  lemma WordLengthIs(s: string, n: nat)
    requires n < |s| && !IsWordChar(s[n]) && forall i :: 0 <= i < n ==> IsWordChar(s[i])
    ensures WordLength(s) == n
  {
  }

  lemma LeftoverWord(name: string, rest: string)
    requires IsWord(name)
    ensures Leftover(Pattern(name) + rest) == {name} + Leftover(rest)
  {
    var s := Pattern(name) + rest;
    assert s[2..] == name + "}}" + rest;
    WordLengthIs(s[2..], |name|);
    assert PlaceholderAt(s) == |name| && s[2..|name| + 2] == name && s[|name| + 4..] == rest;
  }

  lemma NoPlaceholder(name: string, rest: string)
    requires BraceFree(name) && !IsWord(name)
    ensures PlaceholderAt(Pattern(name) + rest) == 0
  {
    var s := Pattern(name) + rest;
    var t := name + "}}" + rest;
    assert s[2..] == t && t[|name|] == '}' && t[..|name|] == name;
    var n := WordLength(t);
    assert n <= |name| && (n < |name| ==> s[n + 2] == name[n]);
  }

  lemma LeftoverToken(name: string, rest: string)
    requires BraceFree(name)
    ensures Leftover(Pattern(name) + rest) == (if IsWord(name) then {name} else {}) + Leftover(rest)
  {
    hide PlaceholderAt, IsWord;
    if IsWord(name) {
      LeftoverWord(name, rest);
    } else {
      NoPlaceholder(name, rest);
      var tail := "{" + name + "}}";
      assert (Pattern(name) + rest)[1..] == tail + rest;
      LeftoverInert(tail, rest);
    }
  }

  // The guard reports exactly the word-shaped names still standing as tokens.
  lemma {:induction false} LeftoverRendered(ps: seq<Piece>)
    requires WellFormed(ps)
    ensures forall n :: n in Leftover(Render(ps)) <==> LeftIn(ps, n)
  {
    if ps != [] {
      LeftoverRendered(ps[1..]);
      assert forall p :: p in ps <==> p == ps[0] || p in ps[1..];
      match ps[0] {
        case Text(t) => LeftoverInert(t, Render(ps[1..]));
        case Token(n) => LeftoverToken(n, Render(ps[1..]));
      }
    }
  }

  lemma {:induction false} ExpandMentions(ps: seq<Piece>, m: map<string, seq<Piece>>, name: string)
    ensures Mentions(Expand(ps, m), name) <==>
            (Mentions(ps, name) && name !in m) || exists k :: k in m && Mentions(ps, k) && Mentions(m[k], name)
  {
    if ps != [] {
      ExpandMentions(ps[1..], m, name);
      assert forall p :: p in ps <==> p == ps[0] || p in ps[1..];
      var head := if ps[0].Token? && ps[0].name in m then m[ps[0].name] else [ps[0]];
      assert Mentions(Expand(ps, m), name) <==> Mentions(head, name) || Mentions(Expand(ps[1..], m), name);
    }
  }

  predicate IsPath(name: string) {
    name in PATH_NAMES
  }

  // The names standing after the related-plans macro, and after the agent tokens.
  ghost predicate AfterMacro(template: seq<Piece>, related: seq<Piece>, name: string) {
    (Mentions(template, name) && name != "RELATED_PLANS") ||
    (Mentions(template, "RELATED_PLANS") && Mentions(related, name))
  }

  ghost predicate AfterAgents(template: seq<Piece>, related: seq<Piece>, agents: map<string, seq<Piece>>,
                              name: string) {
    || (AfterMacro(template, related, name) && name !in agents)
    || exists k :: k in agents && AfterMacro(template, related, k) && Mentions(agents[k], name)
  }

  lemma MacroMentions(template: seq<Piece>, related: seq<Piece>, name: string)
    ensures Mentions(Expand(template, map["RELATED_PLANS" := related]), name) <==> AfterMacro(template, related, name)
  {
    hide Mentions, Expand;
    var m := map["RELATED_PLANS" := related];
    ExpandMentions(template, m, name);
    assert "RELATED_PLANS" in m && m["RELATED_PLANS"] == related;
  }

  lemma ExpandedMentions(template: seq<Piece>, ctx: PlanContext, related: seq<Piece>, agents: map<string, seq<Piece>>,
                         name: string)
    ensures Mentions(Expanded(template, ctx, related, agents), name)
            <==> AfterAgents(template, related, agents, name) && !IsPath(name)
  {
    hide Mentions, Expand;
    var t1 := Expand(template, map["RELATED_PLANS" := related]);
    var paths := PathsOf(ctx);
    MacroMentions(template, related, name);
    ExpandMentions(t1, agents, name);
    forall k | k in agents ensures Mentions(t1, k) <==> AfterMacro(template, related, k) {
      MacroMentions(template, related, k);
    }
    ExpandMentions(Expand(t1, agents), paths, name);
    PathNames();
    forall k | k in paths ensures !Mentions(paths[k], name) {
      OneText(ctx.devRoot);
      OneText(ctx.projectDir);
      OneText(ctx.planDir);
      OneText(ctx.configRoot);
    }
  }

  // What a call returns, for every iteration order of the token map: the expansion when every
  // word-shaped name that surfaces is a path token, otherwise exactly the names that are not.
  lemma SubstitutionOutcome(template: seq<Piece>, ctx: PlanContext, tokens: map<string, string>, order: seq<string>,
                            related: seq<Piece>, agents: map<string, seq<Piece>>)
    requires WellFormed(template) && Readable(ctx, tokens, related, agents) && Visits(order, tokens)
    ensures var r := Guarded(Substituted(Render(template), ctx, tokens, order));
      && (r.Composed? <==> forall n :: IsWord(n) && AfterAgents(template, related, agents, n) ==> IsPath(n))
      && (r.Composed? ==> r.text == Render(Expanded(template, ctx, related, agents)))
      && (r.Unresolved? ==>
        forall n :: n in r.names <==> IsWord(n) && AfterAgents(template, related, agents, n) && !IsPath(n))
  {
    hide Render, Replace, ReplaceAll, ReplacePaths, Expand, Leftover, Substituted, AfterAgents, IsPath, Mentions,
         IsWord, PathsOf;
    var out := Expanded(template, ctx, related, agents);
    SubstitutionExpands(template, ctx, tokens, order, related, agents);
    assert WellFormed(out) by { ExpandedWellFormed(template, ctx, related, agents); }
    LeftoverRendered(out);
    forall n ensures LeftIn(out, n) <==> IsWord(n) && AfterAgents(template, related, agents, n) && !IsPath(n) {
      ExpandedMentions(template, ctx, related, agents, n);
    }
    forall n ensures n in Leftover(Render(out)) <==> LeftIn(out, n) {}
  }

  lemma ExpandedWellFormed(template: seq<Piece>, ctx: PlanContext, related: seq<Piece>, agents: map<string, seq<Piece>>)
    requires WellFormed(template) && WellFormed(related) && forall k :: k in agents ==> WellFormed(agents[k])
    requires InertPaths(ctx)
    ensures WellFormed(Expanded(template, ctx, related, agents))
  {
    hide Expand;
    var m := map["RELATED_PLANS" := related];
    ExpandWellFormed(template, m);
    ExpandWellFormed(Expand(template, m), agents);
    ExpandWellFormed(Expand(Expand(template, m), agents), PathsOf(ctx));
  }

  // With related plans that use agent and path tokens only, and agent values that use path tokens
  // only, composing succeeds exactly when every name the template uses is bound.
  lemma ComposesIffBound(template: seq<Piece>, ctx: PlanContext, tokens: map<string, string>, order: seq<string>,
                         related: seq<Piece>, agents: map<string, seq<Piece>>)
    requires WellFormed(template) && Readable(ctx, tokens, related, agents) && Visits(order, tokens)
    requires "RELATED_PLANS" !in agents
    requires forall n :: Mentions(related, n) ==> n in agents || IsPath(n)
    requires forall k, n :: k in agents && Mentions(agents[k], n) ==> IsPath(n)
    ensures Guarded(Substituted(Render(template), ctx, tokens, order)).Composed?
            <==> forall n :: IsWord(n) && Mentions(template, n) ==> n == "RELATED_PLANS" || n in agents || IsPath(n)
  {
    hide Render, Substituted, Guarded, Mentions, IsWord, IsPath, Visits, Readable, WellFormed;
    SubstitutionOutcome(template, ctx, tokens, order, related, agents);
    forall n ensures AfterAgents(template, related, agents, n) && !IsPath(n)
      <==> Mentions(template, n) && n != "RELATED_PLANS" && n !in agents && !IsPath(n)
    {
    }
  }
}
