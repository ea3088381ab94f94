// When the order in which the hash map of agent tokens is iterated shows (src/prompt.rs): exactly,
// for arbitrary token values, over all contents and over templates.
module PromptOrder {
  import Ordering
  import opened PromptTokens

  // ---------- how a value can meet another placeholder ----------

  predicate At(p: string, s: string, i: int) {
    0 <= i && i + |p| <= |s| && s[i..i + |p|] == p
  }

  // `p` is somewhere in `s`.
  ghost predicate Occurs(p: string, s: string) {
    exists i :: At(p, s, i)
  }

  // The last `n` characters of `v` are the first of `p`, but not all of it.
  predicate TailIs(v: string, p: string, n: int) {
    0 < n < |p| && n <= |v| && v[|v| - n..] == p[..n]
  }

  // The first `n` characters of `v` are the last of `p`, but not all of it.
  predicate HeadIs(v: string, p: string, n: int) {
    0 < n < |p| && n <= |v| && v[..n] == p[|p| - n..]
  }

  // `v` holds `p`, or ends in the beginning of it.
  ghost predicate Trails(v: string, p: string) {
    Occurs(p, v) || exists n :: TailIs(v, p, n)
  }

  // With some text before and after it, `v` makes up `p` or a part of it: `v` holds `p`, ends in the
  // beginning of it, begins with the end of it, or is inside it, as the empty value always is.
  ghost predicate Meets(v: string, p: string) {
    Trails(v, p) || (exists n :: HeadIs(v, p, n)) || Occurs(v, p)
  }

  // ---------- where placeholders stand ----------

  lemma AtSlice(p: string, s: string, i: nat)
    requires i <= |s|
    ensures p <= s[i..] <==> At(p, s, i)
  {
  }

  lemma AtRest(p: string, s: string, d: nat, i: int)
    requires d <= |s|
    ensures i >= d ==> (At(p, s, i) <==> At(p, s[d..], i - d))
  {
    if i >= d && i + |p| <= |s| {
      assert s[d..][i - d..i - d + |p|] == s[i..i + |p|];
    }
  }

  lemma OccursSplit(p: string, s: string, d: nat)
    requires d <= |s| && forall i :: 0 <= i < d ==> !At(p, s, i)
    ensures Occurs(p, s) <==> Occurs(p, s[d..])
  {
    forall i ensures i >= d ==> (At(p, s, i) <==> At(p, s[d..], i - d)) {
      AtRest(p, s, d, i);
    }
    if Occurs(p, s[d..]) {
      var i :| At(p, s[d..], i);
      AtRest(p, s, d, i + d);
    }
  }

  // Past its first character a placeholder holds no doubled opening brace.
  lemma OneOpening(name: string, d: nat)
    requires BraceFree(name) && 0 < d < |Pattern(name)|
    ensures Pattern(name)[d] == '{' ==> d == 1 && Pattern(name)[2] != '{'
  {
    assert Pattern(name)[2..] == name + "}}";
    assert Pattern(name)[2] == (name + "}}")[0];
    if d >= 2 {
      assert Pattern(name)[d] == (name + "}}")[d - 2];
    }
  }

  lemma PatternStart(name: string)
    ensures |Pattern(name)| == |name| + 4 && Pattern(name)[0] == '{' && Pattern(name)[1] == '{'
  {
  }

  // Two placeholders never overlap: one that starts after another starts behind its end.
  lemma PlaceholdersApart(m: string, j: string, s: string, i: int, x: int)
    requires BraceFree(m) && At(Pattern(m), s, i) && At(Pattern(j), s, x) && i < x
    ensures i + |Pattern(m)| <= x
  {
    hide BraceFree, Pattern;
    PatternStart(m);
    PatternStart(j);
    assert s[x] == s[x..x + |Pattern(j)|][0] && s[x + 1] == s[x..x + |Pattern(j)|][1];
    if x < i + |Pattern(m)| {
      OneOpening(m, x - i);
      PatternAt(m, s, i);
    }
  }

  lemma PatternAt(m: string, s: string, i: int)
    requires At(Pattern(m), s, i)
    ensures forall e :: 0 <= e < |Pattern(m)| ==> s[i + e] == Pattern(m)[e]
  {
    hide Pattern;
    forall e | 0 <= e < |Pattern(m)| ensures s[i + e] == Pattern(m)[e] {
      assert s[i..i + |Pattern(m)|][e] == s[i + e];
    }
  }

  // At one place there is one placeholder.
  lemma PlaceholderNamed(m: string, j: string, s: string)
    requires BraceFree(m) && BraceFree(j) && Pattern(m) <= s && Pattern(j) <= s
    ensures m == j
  {
    hide BraceFree;
    var rest := s[|Pattern(j)|..];
    assert s == Pattern(j) + rest;
    if m != j {
      OtherPattern(j, rest, m);
    }
  }

  // ---------- what a replacement leaves alone ----------

  lemma {:induction false} NothingThere(s: string, p: string, v: string)
    requires p != "" && !Occurs(p, s)
    ensures Replace(s, p, v) == s
  {
    if s != "" {
      AtSlice(p, s, 0);
      assert s[0..] == s;
      OccursSplit(p, s, 1);
      NothingThere(s[1..], p, v);
    }
  }

  lemma {:induction false} SelfReplaced(s: string, p: string)
    requires p != ""
    ensures Replace(s, p, p) == s
  {
    if s != "" {
      if p <= s {
        SelfReplaced(s[|p|..], p);
      } else {
        SelfReplaced(s[1..], p);
      }
    }
  }

  lemma {:induction false} ReplacedLength(s: string, p: string, v: string)
    requires p != ""
    ensures |v| == |p| ==> |Replace(s, p, v)| == |s|
    ensures |v| > |p| ==> |Replace(s, p, v)| >= |s| && (Occurs(p, s) ==> |Replace(s, p, v)| > |s|)
    ensures |v| < |p| ==> |Replace(s, p, v)| <= |s| && (Occurs(p, s) ==> |Replace(s, p, v)| < |s|)
  {
    if s != "" {
      if p <= s {
        ReplacedLength(s[|p|..], p, v);
      } else {
        AtSlice(p, s, 0);
        assert s[0..] == s;
        OccursSplit(p, s, 1);
        ReplacedLength(s[1..], p, v);
      }
    }
  }

  // Replacing what is there, by anything but itself, is seen.
  lemma {:induction false} ReplacementShows(s: string, p: string, v: string)
    requires p != "" && Occurs(p, s) && v != p
    ensures Replace(s, p, v) != s
  {
    hide Occurs, At;
    ReplacedLength(s, p, v);
    if |v| == |p| {
      if p <= s {
        assert (v + Replace(s[|p|..], p, v))[..|p|] == v;
      } else {
        NotAtStart(s, p);
        ReplacementShows(s[1..], p, v);
        assert ([s[0]] + Replace(s[1..], p, v))[1..] == Replace(s[1..], p, v);
      }
    }
  }

  lemma NotAtStart(s: string, p: string)
    requires p != "" && Occurs(p, s) && !(p <= s)
    ensures s != "" && Occurs(p, s[1..])
  {
    AtSlice(p, s, 0);
    assert s[0..] == s;
    OccursSplit(p, s, 1);
  }

  // A front in which no placeholder starts is passed over.
  lemma {:induction false} SkipFront(x: string, y: string, p: string, v: string)
    requires p != "" && forall i :: 0 <= i < |x| ==> !At(p, x + y, i)
    ensures Replace(x + y, p, v) == x + Replace(y, p, v)
  {
    if x == "" {
      assert x + y == y;
    } else {
      var s := x + y;
      assert s[1..] == x[1..] + y;
      AtSlice(p, s, 0);
      assert s[0..] == s;
      forall i | 0 <= i < |x| - 1 ensures !At(p, x[1..] + y, i) {
        AtRest(p, s, 1, i + 1);
      }
      SkipFront(x[1..], y, p, v);
    }
  }

  // Where a value does not trail into a placeholder, none starts in it.
  lemma QuietFront(v: string, rest: string, p: string, i: int)
    requires p != "" && !Trails(v, p) && 0 <= i < |v|
    ensures !At(p, v + rest, i)
  {
    var s := v + rest;
    if At(p, s, i) {
      if i + |p| <= |v| {
        assert v[i..i + |p|] == s[i..i + |p|];
        assert At(p, v, i);
      } else {
        var n := |v| - i;
        assert v[i..] == s[i..i + |p|][..n];
        assert TailIs(v, p, n);
      }
    }
  }

  lemma SkipQuiet(v: string, rest: string, p: string, w: string)
    requires p != "" && !Trails(v, p)
    ensures Replace(v + rest, p, w) == v + Replace(rest, p, w)
  {
    hide Replace, Trails;
    forall i | 0 <= i < |v| ensures !At(p, v + rest, i) {
      QuietFront(v, rest, p, i);
    }
    SkipFront(v, rest, p, w);
  }

  // ---------- two replacements in either order ----------

  // No end of `q` begins with a value that does not meet it, nor the other way round.
  lemma ValueKeepsEnd(v: string, rest: string, q: string, m: nat)
    requires !Meets(v, q) && 0 < m < |q|
    ensures !(q[m..] <= v + rest)
  {
    hide Trails, Occurs;
    var n := |q| - m;
    if n <= |v| {
      assert !HeadIs(v, q, n);
      assert (v + rest)[..n] == v[..n];
    } else {
      assert !At(v, q, m) by { NotThere(v, q, m); }
      assert (v + rest)[..|v|] == v;
      assert q[m..][..|v|] == q[m..m + |v|];
    }
  }

  lemma NotThere(v: string, q: string, m: int)
    requires !Meets(v, q)
    ensures !At(v, q, m)
  {
  }

  // Replacing `p` by a value that does not meet `q` makes no end of `q` that was not there.
  lemma {:induction false} EndKept(t: string, p: string, v: string, q: string, m: nat)
    requires p != "" && !Meets(v, q) && 0 < m < |q| && q[m..] <= Replace(t, p, v)
    ensures q[m..] <= t
  {
    if t == "" {
    } else if p <= t {
      ValueKeepsEnd(v, Replace(t[|p|..], p, v), q, m);
    } else if m + 1 < |q| {
      assert q[m..][1..] == q[m + 1..];
      EndKept(t[1..], p, v, q, m + 1);
      assert q[m..] == [t[0]] + q[m + 1..];
    } else {
      assert q[m..] == [t[0]];
    }
  }

  // So it makes no `q` at a place where it left the first character alone.
  lemma StartKept(c: char, t: string, p: string, v: string, q: string)
    requires p != "" && |q| > 1 && !Meets(v, q) && q <= [c] + Replace(t, p, v)
    ensures q <= [c] + t
  {
    hide Meets, Replace;
    assert ([c] + Replace(t, p, v))[1..|q|] == q[1..];
    EndKept(t, p, v, q, 1);
    assert q == [q[0]] + q[1..];
  }

  lemma ReplaceStep(s: string, p: string, v: string)
    requires p != "" && s != "" && !(p <= s)
    ensures Replace(s, p, v) == [s[0]] + Replace(s[1..], p, v)
  {
  }

  lemma ReplaceAhead(t: string, p: string, v: string)
    requires p != ""
    ensures Replace(p + t, p, v) == v + Replace(t, p, v)
  {
    assert (p + t)[|p|..] == t;
  }

  // At a placeholder of `j`.
  lemma CommuteAhead(j: string, k: string, v: string, w: string, t: string)
    requires BraceFree(j) && BraceFree(k) && j != k && !Meets(v, Pattern(k))
    requires Replace(Replace(t, Pattern(j), v), Pattern(k), w) == Replace(Replace(t, Pattern(k), w), Pattern(j), v)
    ensures var s := Pattern(j) + t;
      Replace(Replace(s, Pattern(j), v), Pattern(k), w) == Replace(Replace(s, Pattern(k), w), Pattern(j), v)
  {
    hide Replace, Pattern, BraceFree;
    PatternStart(j);
    PatternStart(k);
    ReplaceAhead(t, Pattern(j), v);
    SkipQuiet(v, Replace(t, Pattern(j), v), Pattern(k), w);
    SkipOther(j, t, k, w);
    ReplaceAhead(Replace(t, Pattern(k), w), Pattern(j), v);
  }

  // At neither.
  lemma CommutePast(j: string, k: string, v: string, w: string, s: string)
    requires s != "" && !(Pattern(j) <= s) && !(Pattern(k) <= s) && !Meets(v, Pattern(k)) && !Meets(w, Pattern(j))
    requires var t := s[1..];
      Replace(Replace(t, Pattern(j), v), Pattern(k), w) == Replace(Replace(t, Pattern(k), w), Pattern(j), v)
    ensures Replace(Replace(s, Pattern(j), v), Pattern(k), w) == Replace(Replace(s, Pattern(k), w), Pattern(j), v)
  {
    hide Replace, Pattern, Meets;
    PatternStart(j);
    PatternStart(k);
    var c, t := s[0], s[1..];
    assert s == [c] + t;
    ReplaceStep(s, Pattern(j), v);
    ReplaceStep(s, Pattern(k), w);
    var a, b := Replace(t, Pattern(j), v), Replace(t, Pattern(k), w);
    if Pattern(k) <= [c] + a { StartKept(c, t, Pattern(j), v, Pattern(k)); }
    if Pattern(j) <= [c] + b { StartKept(c, t, Pattern(k), w, Pattern(j)); }
    ReplaceStep([c] + a, Pattern(k), w);
    ReplaceStep([c] + b, Pattern(j), v);
    assert ([c] + a)[1..] == a && ([c] + b)[1..] == b;
  }

  // Two values that do not meet each other's placeholder may be put in in either order.
  lemma {:induction false} Commute(s: string, j: string, k: string, v: string, w: string)
    requires BraceFree(j) && BraceFree(k) && j != k && !Meets(v, Pattern(k)) && !Meets(w, Pattern(j))
    ensures Replace(Replace(s, Pattern(j), v), Pattern(k), w) == Replace(Replace(s, Pattern(k), w), Pattern(j), v)
    decreases |s|
  {
    hide Replace, Pattern, Meets, BraceFree;
    PatternStart(j);
    PatternStart(k);
    if s == "" {
      NothingLeft(Pattern(j), v);
      NothingLeft(Pattern(k), w);
    } else if Pattern(j) <= s {
      var t := s[|Pattern(j)|..];
      assert s == Pattern(j) + t;
      Commute(t, j, k, v, w);
      CommuteAhead(j, k, v, w, t);
    } else if Pattern(k) <= s {
      var t := s[|Pattern(k)|..];
      assert s == Pattern(k) + t;
      Commute(t, j, k, v, w);
      CommuteAhead(k, j, w, v, t);
    } else {
      Commute(s[1..], j, k, v, w);
      CommutePast(j, k, v, w, s);
    }
  }

  lemma NothingLeft(p: string, v: string)
    requires p != ""
    ensures Replace("", p, v) == ""
  {
  }

  // ---------- any two orders ----------

  ghost predicate BraceFreeKeys(tokens: map<string, string>) {
    forall k :: k in tokens ==> BraceFree(k)
  }

  // The value of `j` meets the placeholder of `k`, which stands for something else.
  ghost predicate Clash(tokens: map<string, string>, j: string, k: string) {
    j in tokens && k in tokens && j != k && tokens[k] != Pattern(k) && Meets(tokens[j], Pattern(k))
  }

  lemma TokensCommute(s: string, tokens: map<string, string>, j: string, k: string)
    requires BraceFreeKeys(tokens) && j in tokens && k in tokens && j != k
    requires !Clash(tokens, j, k) && !Clash(tokens, k, j)
    ensures Replace(Replace(s, Pattern(j), tokens[j]), Pattern(k), tokens[k])
         == Replace(Replace(s, Pattern(k), tokens[k]), Pattern(j), tokens[j])
  {
    hide Replace, Pattern, Meets, BraceFree;
    PatternStart(j);
    PatternStart(k);
    if tokens[j] == Pattern(j) {
      SelfReplaced(s, Pattern(j));
      SelfReplaced(Replace(s, Pattern(k), tokens[k]), Pattern(j));
    } else if tokens[k] == Pattern(k) {
      SelfReplaced(s, Pattern(k));
      SelfReplaced(Replace(s, Pattern(j), tokens[j]), Pattern(k));
    } else {
      Commute(s, j, k, tokens[j], tokens[k]);
    }
  }

  ghost predicate NoClash(tokens: map<string, string>) {
    forall j, k :: !Clash(tokens, j, k)
  }

  ghost predicate Lists(order: seq<string>, tokens: map<string, string>) {
    && (forall k :: k in order ==> k in tokens)
    && (forall i, j :: 0 <= i < j < |order| ==> order[i] != order[j])
  }

  // Any key of the order may go first.
  lemma {:induction false} MoveFirst(s: string, tokens: map<string, string>, order: seq<string>, i: nat)
    requires BraceFreeKeys(tokens) && NoClash(tokens) && Lists(order, tokens) && i < |order|
    ensures order[i] in tokens && Lists(Without(order, i), tokens)
    ensures ReplaceAll(s, tokens, order)
         == ReplaceAll(Replace(s, Pattern(order[i]), tokens[order[i]]), tokens, Without(order, i))
    decreases |order|
  {
    hide Replace, Pattern, Clash, NoClash, BraceFreeKeys, Lists, Without;
    WithoutParts(order, i, tokens);
    if i == 0 {
      ListsKeys(order, tokens);
    } else {
      var first, tail, moved := order[0], order[1..], order[i];
      ListsKeys(order, tokens);
      TailLists(order, tokens);
      MoveFirst(Replace(s, Pattern(first), tokens[first]), tokens, tail, i - 1);
      ListsApart(order, tokens, i);
      assert !Clash(tokens, first, moved) && !Clash(tokens, moved, first) by { ClashFree(tokens, first, moved); }
      TokensCommute(s, tokens, first, moved);
      AllStep(Replace(s, Pattern(moved), tokens[moved]), tokens, first, Without(tail, i - 1));
    }
  }

  function Without(order: seq<string>, i: nat): seq<string>
    requires i < |order|
  {
    order[..i] + order[i + 1..]
  }

  lemma WithoutParts(order: seq<string>, i: nat, tokens: map<string, string>)
    requires Lists(order, tokens) && i < |order|
    ensures Lists(Without(order, i), tokens)
    ensures i == 0 ==> Without(order, i) == order[1..]
    ensures i > 0 ==> Without(order, i) == [order[0]] + Without(order[1..], i - 1)
  {
    assert forall k :: k in Without(order, i) ==> k in order;
  }

  lemma ListsKeys(order: seq<string>, tokens: map<string, string>)
    requires Lists(order, tokens)
    ensures forall k :: k in order ==> k in tokens
  {
  }

  lemma ListsApart(order: seq<string>, tokens: map<string, string>, i: nat)
    requires Lists(order, tokens) && 0 < i < |order|
    ensures order[i] != order[0]
  {
  }

  lemma ClashFree(tokens: map<string, string>, j: string, k: string)
    requires NoClash(tokens)
    ensures !Clash(tokens, j, k) && !Clash(tokens, k, j)
  {
  }

  lemma TailLists(order: seq<string>, tokens: map<string, string>)
    requires Lists(order, tokens) && order != []
    ensures Lists(order[1..], tokens) && order[0] !in order[1..]
  {
  }

  lemma AllStep(s: string, tokens: map<string, string>, key: string, rest: seq<string>)
    requires key in tokens && forall k :: k in rest ==> k in tokens
    ensures forall k :: k in [key] + rest ==> k in tokens
    ensures ReplaceAll(s, tokens, [key] + rest) == ReplaceAll(Replace(s, Pattern(key), tokens[key]), tokens, rest)
  {
    hide Replace, Pattern;
    assert ([key] + rest)[1..] == rest;
  }

  lemma {:induction false} AnyOrder(s: string, tokens: map<string, string>, o: seq<string>, p: seq<string>)
    requires BraceFreeKeys(tokens) && NoClash(tokens) && Lists(o, tokens) && Lists(p, tokens)
    requires forall k :: k in o <==> k in p
    ensures ReplaceAll(s, tokens, o) == ReplaceAll(s, tokens, p)
    decreases |p|
  {
    hide Replace, Pattern, Clash, NoClash, BraceFreeKeys, Lists;
    if p == [] {
      Ordering.NonEmptyHasMember(p);
      Ordering.NonEmptyHasMember(o);
    } else {
      var key := p[0];
      assert key in p && key in o;
      var i :| 0 <= i < |o| && o[i] == key;
      MoveFirst(s, tokens, o, i);
      TailLists(p, tokens);
      SameRest(o, p, i, tokens);
      AnyOrder(Replace(s, Pattern(key), tokens[key]), tokens, Without(o, i), p[1..]);
    }
  }

  lemma SameRest(o: seq<string>, p: seq<string>, i: nat, tokens: map<string, string>)
    requires Lists(o, tokens) && Lists(p, tokens) && p != [] && i < |o| && o[i] == p[0]
    requires forall k :: k in o <==> k in p
    ensures forall k :: k in Without(o, i) <==> k in p[1..]
  {
    var rest := Without(o, i);
    forall k ensures k in rest <==> k in p[1..] {
      assert k in p <==> k == p[0] || k in p[1..];
      assert k in o <==> k == o[i] || k in rest by { assert o == o[..i] + [o[i]] + o[i + 1..]; }
      assert p[0] !in rest;
    }
  }

  // ---------- a content that tells ----------

  // Padding that makes `p` around a value that meets it.
  lemma Padding(v: string, p: string) returns (a: string, b: string)
    requires |p| > 1 && Meets(v, p)
    ensures |a| < |p| && a == p[..|a|]
    ensures |b| < |p| && b == p[|p| - |b|..]
    ensures Occurs(p, a + v + b)
  {
    if Occurs(p, v) {
      a, b := "", "";
      assert a + v + b == v;
    } else if n :| TailIs(v, p, n) {
      a, b := "", p[n..];
      assert a + v + b == v[..|v| - n] + p;
      assert At(p, a + v + b, |v| - n);
    } else if n :| HeadIs(v, p, n) {
      a, b := p[..|p| - n], "";
      assert (a + v + b)[..|p|] == a + v[..n] == p;
      assert At(p, a + v + b, 0);
    } else {
      a, b := PaddingAround(v, p);
    }
  }

  lemma PaddingAround(v: string, p: string) returns (a: string, b: string)
    requires |p| > 1 && Occurs(v, p) && !Occurs(p, v)
    ensures |a| < |p| && a == p[..|a|]
    ensures |b| < |p| && b == p[|p| - |b|..]
    ensures Occurs(p, a + v + b)
  {
    var i :| At(v, p, i);
    if v == "" {
      a, b := p[..1], p[1..];
    } else {
      a, b := p[..i], p[i + |v|..];
      assert v == p[i..i + |v|];
      assert |v| == |p| ==> At(p, v, 0);
    }
    assert a + v + b == p;
    assert At(p, a + v + b, 0);
  }

  // No other placeholder than `j` stands in the beginning and the end of another around it.
  lemma PaddedFront(k: string, a: string, j: string, b: string, m: string, i: int)
    requires BraceFree(k) && BraceFree(j) && BraceFree(m)
    requires |a| < |Pattern(k)| && a == Pattern(k)[..|a|] && 0 <= i < |a|
    ensures !At(Pattern(m), a + Pattern(j) + b, i)
  {
    hide BraceFree, Pattern;
    var s := a + Pattern(j) + b;
    PatternStart(k);
    PatternStart(j);
    PatternStart(m);
    if At(Pattern(m), s, i) {
      assert At(Pattern(j), s, |a|) by { assert s[|a|..|a| + |Pattern(j)|] == Pattern(j); }
      PlaceholdersApart(m, j, s, i, |a|);
      PatternAt(m, s, i);
      var e := |Pattern(m)|;
      assert s[i..i + e] == a[i..i + e] == Pattern(k)[i..i + e];
      InsidePattern(m, k, i);
    }
  }

  // A placeholder holds no other, and itself only as a whole.
  lemma InsidePattern(m: string, k: string, i: int)
    requires BraceFree(m) && BraceFree(k) && At(Pattern(m), Pattern(k), i)
    ensures i == 0 && m == k
  {
    hide BraceFree, Pattern;
    PatternStart(m);
    PatternStart(k);
    PatternAt(m, Pattern(k), i);
    if i > 0 {
      assert Pattern(k)[i + 0] == Pattern(m)[0] && Pattern(k)[i + 1] == Pattern(m)[1];
      OneOpening(k, i);
    } else {
      PlaceholderNamed(m, k, Pattern(k));
    }
  }

  lemma PaddedEnd(k: string, b: string, m: string)
    requires BraceFree(k) && BraceFree(m) && |b| < |Pattern(k)| && b == Pattern(k)[|Pattern(k)| - |b|..]
    ensures !Occurs(Pattern(m), b)
  {
    hide BraceFree, Pattern;
    var d := |Pattern(k)| - |b|;
    forall i ensures !At(Pattern(m), b, i) {
      if At(Pattern(m), b, i) {
        AtRest(Pattern(m), Pattern(k), d, i + d);
        InsidePattern(m, k, i + d);
      }
    }
  }

  // A padded placeholder is replaced, and no other is there.
  lemma PaddedReplaced(k: string, a: string, j: string, b: string, m: string, v: string)
    requires BraceFree(k) && BraceFree(j) && BraceFree(m)
    requires |a| < |Pattern(k)| && a == Pattern(k)[..|a|]
    requires |b| < |Pattern(k)| && b == Pattern(k)[|Pattern(k)| - |b|..]
    ensures Replace(a + Pattern(j) + b, Pattern(m), v) == if m == j then a + v + b else a + Pattern(j) + b
  {
    hide BraceFree, Pattern, Replace, At, Occurs;
    PatternStart(m);
    assert a + Pattern(j) + b == a + (Pattern(j) + b);
    forall i | 0 <= i < |a| ensures !At(Pattern(m), a + (Pattern(j) + b), i) {
      PaddedFront(k, a, j, b, m, i);
    }
    SkipFront(a, Pattern(j) + b, Pattern(m), v);
    PaddedEnd(k, b, m);
    NothingThere(b, Pattern(m), v);
    if m == j {
      ReplaceAhead(b, Pattern(j), v);
    } else {
      SkipOther(j, b, m, v);
    }
    assert a + (v + b) == a + v + b;
  }

  // The keys, in some order.
  lemma {:induction false} OrderOf(keys: set<string>) returns (order: seq<string>)
    ensures forall k :: k in order <==> k in keys
    ensures forall i, j :: 0 <= i < j < |order| ==> order[i] != order[j]
  {
    if keys == {} {
      order := [];
    } else {
      var k :| k in keys;
      var rest := OrderOf(keys - {k});
      order := rest + [k];
    }
  }

  lemma {:induction false} OthersPass(k: string, a: string, j: string, b: string, tokens: map<string, string>,
                                      order: seq<string>)
    requires BraceFree(k) && BraceFree(j) && BraceFreeKeys(tokens)
    requires j !in order && forall m :: m in order ==> m in tokens
    requires |a| < |Pattern(k)| && a == Pattern(k)[..|a|]
    requires |b| < |Pattern(k)| && b == Pattern(k)[|Pattern(k)| - |b|..]
    ensures ReplaceAll(a + Pattern(j) + b, tokens, order) == a + Pattern(j) + b
    decreases |order|
  {
    hide Replace, BraceFree, Pattern;
    if order != [] {
      PaddedReplaced(k, a, j, b, order[0], tokens[order[0]]);
      OthersPass(k, a, j, b, tokens, order[1..]);
    }
  }

  lemma VisitsTwoLast(others: seq<string>, tokens: map<string, string>, a: string, b: string)
    requires a in tokens && b in tokens && a != b
    requires forall k :: k in others <==> k in tokens.Keys - {a, b}
    requires forall i, j :: 0 <= i < j < |others| ==> others[i] != others[j]
    ensures Visits(others + [a] + [b], tokens)
  {
    var order := others + [a] + [b];
    forall k ensures k in order <==> k in tokens {
      assert k in order <==> k in others || k == a || k == b;
    }
    forall i, j | 0 <= i < j < |order| ensures order[i] != order[j] {
      assert i < |others| ==> order[i] == others[i] && order[i] in others;
      assert j < |others| ==> order[j] == others[j];
    }
  }

  // Two orders that differ in the last two keys only.
  lemma LastTwo(tokens: map<string, string>, a: string, j: string, b: string, k: string)
    returns (o: seq<string>, p: seq<string>)
    requires BraceFreeKeys(tokens) && j in tokens && k in tokens && j != k
    requires |a| < |Pattern(k)| && a == Pattern(k)[..|a|]
    requires |b| < |Pattern(k)| && b == Pattern(k)[|Pattern(k)| - |b|..]
    ensures Visits(o, tokens) && Visits(p, tokens)
    ensures ReplaceAll(a + Pattern(j) + b, tokens, o) == Replace(a + tokens[j] + b, Pattern(k), tokens[k])
    ensures ReplaceAll(a + Pattern(j) + b, tokens, p) == a + tokens[j] + b
  {
    hide Replace, BraceFree, Pattern, Visits;
    var s := a + Pattern(j) + b;
    var others := OrderOf(tokens.Keys - {j, k});
    o, p := others + [j] + [k], others + [k] + [j];
    VisitsTwoLast(others, tokens, j, k);
    VisitsTwoLast(others, tokens, k, j);
    OthersPass(k, a, j, b, tokens, others);
    ReplaceAllSnoc(s, tokens, others, j);
    ReplaceAllSnoc(s, tokens, others + [j], k);
    ReplaceAllSnoc(s, tokens, others, k);
    ReplaceAllSnoc(s, tokens, others + [k], j);
    PaddedReplaced(k, a, j, b, j, tokens[j]);
    PaddedReplaced(k, a, j, b, k, tokens[k]);
  }

  // ---------- over all contents ----------

  // Every content comes out of the replacement of the agent tokens the same, in whatever order.
  ghost predicate OrdersAgree(tokens: map<string, string>) {
    forall s, o, p :: Visits(o, tokens) && Visits(p, tokens) ==> ReplaceAll(s, tokens, o) == ReplaceAll(s, tokens, p)
  }

  // The agent stage is independent of the hash map's order if and only if no value meets the
  // placeholder of another token that stands for anything but itself.
  lemma OrdersAgreeIff(tokens: map<string, string>)
    requires BraceFreeKeys(tokens)
    ensures OrdersAgree(tokens) <==> NoClash(tokens)
  {
    hide ReplaceAll, Replace, Pattern, BraceFreeKeys, Meets;
    if NoClash(tokens) {
      forall s, o, p | Visits(o, tokens) && Visits(p, tokens)
        ensures ReplaceAll(s, tokens, o) == ReplaceAll(s, tokens, p)
      {
        AnyOrder(s, tokens, o, p);
      }
    }
    if OrdersAgree(tokens) {
      forall j, k ensures !Clash(tokens, j, k) {
        if Clash(tokens, j, k) {
          PatternStart(k);
          var a, b := Padding(tokens[j], Pattern(k));
          var o, p := LastTwo(tokens, a, j, b, k);
          ReplacementShows(a + tokens[j] + b, Pattern(k), tokens[k]);
        }
      }
    }
  }

  // ---------- over templates ----------

  // Every template comes out the same in whatever order.
  ghost predicate TemplatesAgree(tokens: map<string, string>) {
    forall template, o, p :: WellFormed(template) && Visits(o, tokens) && Visits(p, tokens) ==>
      ReplaceAll(Render(template), tokens, o) == ReplaceAll(Render(template), tokens, p)
  }

  // The value of `j` holds the placeholder of `k` or ends in the beginning of it.
  ghost predicate Trailing(tokens: map<string, string>, j: string, k: string) {
    j in tokens && k in tokens && j != k && tokens[k] != Pattern(k) && Trails(tokens[j], Pattern(k))
  }

  ghost predicate NoTrailing(tokens: map<string, string>) {
    forall j, k :: !Trailing(tokens, j, k)
  }

  lemma AtOpens(k: string, t: string, i: int)
    requires At(Pattern(k), t, i)
    ensures t[i] == '{' && t[i + 1] == '{'
  {
    PatternAt(k, t, i);
    assert t[i + 0] == Pattern(k)[0] && t[i + 1] == Pattern(k)[1];
  }

  lemma TailOpens(k: string, t: string, n: int)
    requires TailIs(t, Pattern(k), n)
    ensures t[|t| - n] == '{' && (n > 1 ==> t[|t| - n + 1] == '{')
  {
    assert t[|t| - n] == t[|t| - n..][0] == Pattern(k)[..n][0];
    assert n > 1 ==> t[|t| - n + 1] == t[|t| - n..][1] == Pattern(k)[..n][1];
  }

  // Inert text trails into no placeholder.
  lemma InertQuiet(t: string, k: string)
    requires Inert(t) && BraceFree(k)
    ensures !Trails(t, Pattern(k))
  {
    hide BraceFree, Pattern;
    var p := Pattern(k);
    PatternStart(k);
    forall i ensures !At(p, t, i) {
      if At(p, t, i) { AtOpens(k, t, i); }
    }
    forall n ensures !TailIs(t, p, n) {
      if TailIs(t, p, n) { TailOpens(k, t, n); }
    }
  }

  // The tokens are brace-free and no text of the template trails into the placeholder.
  ghost predicate QuietFor(ps: seq<Piece>, k: string) {
    forall i :: 0 <= i < |ps| ==> match ps[i] case Text(t) => !Trails(t, Pattern(k)) case Token(n) => BraceFree(n)
  }

  lemma {:induction false} QuietReplaced(ps: seq<Piece>, k: string, v: string)
    requires QuietFor(ps, k) && BraceFree(k)
    ensures Replace(Render(ps), Pattern(k), v) == Render(Expand(ps, map[k := [Text(v)]]))
  {
    hide Replace, Trails, BraceFree, Pattern;
    PatternStart(k);
    if ps == [] {
      NothingLeft(Pattern(k), v);
    } else {
      var rest, m := Render(ps[1..]), map[k := [Text(v)]];
      QuietReplaced(ps[1..], k, v);
      OneText(v);
      match ps[0] {
        case Text(t) =>
          SkipQuiet(t, rest, Pattern(k), v);
          RenderConcat([ps[0]], Expand(ps[1..], m));
        case Token(n) =>
          if n == k {
            ReplaceAhead(rest, Pattern(k), v);
            RenderConcat([Text(v)], Expand(ps[1..], m));
          } else {
            SkipOther(n, rest, k, v);
            RenderConcat([ps[0]], Expand(ps[1..], m));
          }
      }
    }
  }

  lemma {:induction false} QuietExpanded(ps: seq<Piece>, key: string, v: string, k: string)
    requires QuietFor(ps, k) && !Trails(v, Pattern(k))
    ensures QuietFor(Expand(ps, map[key := [Text(v)]]), k)
  {
    hide Trails, BraceFree, Pattern;
    if ps != [] {
      QuietExpanded(ps[1..], key, v, k);
    }
  }

  // The tokens that stand for something else, as texts.
  function Texts(tokens: map<string, string>): map<string, seq<Piece>> {
    map k | k in tokens && tokens[k] != Pattern(k) :: [Text(tokens[k])]
  }

  ghost predicate QuietTemplate(ps: seq<Piece>, tokens: map<string, string>, order: seq<string>) {
    forall k :: k in order && k in tokens && tokens[k] != Pattern(k) ==> QuietFor(ps, k)
  }

  lemma QuietRest(ps: seq<Piece>, tokens: map<string, string>, order: seq<string>)
    requires NoTrailing(tokens) && Lists(order, tokens) && order != [] && QuietTemplate(ps, tokens, order)
    ensures order[0] in tokens && QuietTemplate(ps, tokens, order[1..])
    ensures QuietTemplate(Expand(ps, map[order[0] := [Text(tokens[order[0]])]]), tokens, order[1..])
  {
    hide QuietFor, Pattern, Trails;
    var key := order[0];
    forall k | k in order[1..] && k in tokens && tokens[k] != Pattern(k)
      ensures QuietFor(Expand(ps, map[key := [Text(tokens[key])]]), k)
    {
      assert k in order && k != key;
      assert !Trailing(tokens, key, k);
      QuietExpanded(ps, key, tokens[key], k);
    }
  }

  lemma {:induction false} TemplateOrder(ps: seq<Piece>, tokens: map<string, string>, order: seq<string>)
    requires BraceFreeKeys(tokens) && NoTrailing(tokens) && Lists(order, tokens) && QuietTemplate(ps, tokens, order)
    ensures ReplaceAll(Render(ps), tokens, order) == Render(Expand(ps, Restrict(Texts(tokens), order)))
    decreases |order|
  {
    hide Replace, Render, Expand, Pattern, BraceFree, Restrict, NoTrailing, Trails, QuietFor, Mentions;
    var m := Texts(tokens);
    RestrictParts(m, order);
    if order == [] {
      ExpandUnmentioned(ps, Restrict(m, order));
    } else {
      var key, rest := order[0], order[1..];
      ListsKeys(order, tokens);
      TailLists(order, tokens);
      QuietRest(ps, tokens, order);
      RestrictParts(m, rest);
      PatternStart(key);
      if tokens[key] == Pattern(key) {
        SelfReplaced(Render(ps), Pattern(key));
        TemplateOrder(ps, tokens, rest);
      } else {
        OneText(tokens[key]);
        QuietReplaced(ps, key, tokens[key]);
        TemplateOrder(Expand(ps, map[key := [Text(tokens[key])]]), tokens, rest);
        ExpandSplit(ps, key, [Text(tokens[key])], Restrict(m, rest));
      }
    }
  }

  lemma TemplateQuiet(ps: seq<Piece>, tokens: map<string, string>, order: seq<string>)
    requires WellFormed(ps) && BraceFreeKeys(tokens)
    ensures QuietTemplate(ps, tokens, order)
  {
    hide Inert, BraceFree, Pattern, Trails;
    forall k, i | k in tokens && 0 <= i < |ps| && ps[i].Text? ensures !Trails(ps[i].text, Pattern(k)) {
      InertQuiet(ps[i].text, k);
    }
  }

  lemma TemplateAnyOrder(ps: seq<Piece>, tokens: map<string, string>, o: seq<string>)
    requires WellFormed(ps) && BraceFreeKeys(tokens) && NoTrailing(tokens) && Visits(o, tokens)
    ensures ReplaceAll(Render(ps), tokens, o) == Render(Expand(ps, Texts(tokens)))
  {
    hide Replace, Render, Expand, Pattern, NoTrailing, WellFormed, QuietTemplate, ReplaceAll, BraceFreeKeys;
    TemplateQuiet(ps, tokens, o);
    TemplateOrder(ps, tokens, o);
    assert Restrict(Texts(tokens), o) == Texts(tokens);
  }

  // A template of one token, followed by the rest of a placeholder.
  lemma TrailPadding(v: string, k: string) returns (b: string)
    requires BraceFree(k) && Trails(v, Pattern(k))
    ensures |b| < |Pattern(k)| && b == Pattern(k)[|Pattern(k)| - |b|..] && Inert(b)
    ensures Occurs(Pattern(k), v + b)
  {
    hide BraceFree, Pattern;
    var p := Pattern(k);
    PatternStart(k);
    if Occurs(p, v) {
      b := "";
      assert v + b == v;
    } else {
      var n :| TailIs(v, p, n);
      b := p[n..];
      assert v + b == v[..|v| - n] + p;
      assert At(p, v + b, |v| - n);
      EndInert(k, n);
    }
  }

  lemma EndInert(k: string, n: nat)
    requires BraceFree(k) && 0 < n < |Pattern(k)|
    ensures Inert(Pattern(k)[n..])
  {
    hide BraceFree, Pattern;
    var p := Pattern(k);
    forall i | 0 <= i < |p[n..]| ensures p[n..][i] == '{' ==> i + 1 < |p| - n && p[n..][i + 1] != '{' {
      OneOpening(k, n + i);
    }
  }

  // Over templates the condition is less: no value holds the placeholder of another token that
  // stands for anything but itself, or ends in the beginning of it.
  lemma TemplatesAgreeIff(tokens: map<string, string>)
    requires BraceFreeKeys(tokens)
    ensures TemplatesAgree(tokens) <==> NoTrailing(tokens)
  {
    hide ReplaceAll, Replace, Pattern, Trails, WellFormed, Render, Expand, Inert;
    if NoTrailing(tokens) {
      forall template, o | WellFormed(template) && Visits(o, tokens)
        ensures ReplaceAll(Render(template), tokens, o) == Render(Expand(template, Texts(tokens)))
      {
        TemplateAnyOrder(template, tokens, o);
      }
    }
    if TemplatesAgree(tokens) {
      forall j, k ensures !Trailing(tokens, j, k) {
        if Trailing(tokens, j, k) {
          var b := TrailPadding(tokens[j], k);
          var o, p := LastTwo(tokens, "", j, b, k);
          TokenAndText(j, b);
          assert "" + tokens[j] + b == tokens[j] + b && "" + Pattern(j) + b == Pattern(j) + b;
          PatternStart(k);
          ReplacementShows(tokens[j] + b, Pattern(k), tokens[k]);
        }
      }
    }
  }

  lemma TokenAndText(j: string, b: string)
    requires BraceFree(j) && Inert(b)
    ensures WellFormed([Token(j), Text(b)]) && Render([Token(j), Text(b)]) == Pattern(j) + b
  {
    hide Pattern, Inert, BraceFree;
    OneText(b);
    assert [Token(j), Text(b)][1..] == [Text(b)];
  }

  // ---------- what calls return ----------

  // Every call on the same content returns the same.
  ghost predicate CallsAgree(tokens: map<string, string>) {
    forall ctx, content, r, s :: Possible(r, content, ctx, tokens) && Possible(s, content, ctx, tokens) ==> r == s
  }

  // A clash the guard can see: the token left standing would be reported, nothing else replaces it,
  // and its value cannot make up its placeholder again.
  ghost predicate VisibleClash(tokens: map<string, string>, j: string, k: string) {
    Clash(tokens, j, k) && j != "RELATED_PLANS" && IsWord(k) && !IsPath(k) && !Meets(tokens[k], Pattern(k))
  }

  // For a name made of word characters, the guard reports exactly what stands.
  lemma {:induction false} ReportsStanding(k: string, t: string)
    requires IsWord(k)
    ensures k in Leftover(t) <==> Occurs(Pattern(k), t)
  {
    hide Occurs, PlaceholderAt, Pattern, IsWord, IsWordChar, At;
    PatternStart(k);
    if t == "" {
      AtNothing(Pattern(k));
    } else {
      var n := PlaceholderAt(t);
      if n > 0 {
        PlaceholderIs(t);
        var w, d := t[2..n + 2], n + 4;
        ReportsStanding(k, t[d..]);
        StandsBehind(k, w, t);
      } else {
        NoneHere(k, t);
        OccursSplit(Pattern(k), t, 1);
        ReportsStanding(k, t[1..]);
      }
    }
  }

  lemma AtNothing(p: string)
    requires p != ""
    ensures !Occurs(p, "")
  {
  }

  lemma PlaceholderIs(t: string)
    requires PlaceholderAt(t) > 0
    ensures var n := PlaceholderAt(t); IsWord(t[2..n + 2]) && Pattern(t[2..n + 2]) == t[..n + 4]
  {
    var n := PlaceholderAt(t);
    assert forall i :: 0 <= i < n ==> t[2..n + 2][i] == t[2..][i];
    assert t[..n + 4] == "{{" + t[2..n + 2] + "}}";
  }

  lemma WordBraceFree(k: string)
    requires IsWord(k)
    ensures BraceFree(k)
  {
  }

  lemma NoneHere(k: string, t: string)
    requires IsWord(k) && t != "" && PlaceholderAt(t) == 0
    ensures !At(Pattern(k), t, 0)
  {
    if At(Pattern(k), t, 0) {
      var rest := t[|Pattern(k)|..];
      assert t == Pattern(k) + rest;
      WordFound(k, rest);
    }
  }

  lemma WordFound(k: string, rest: string)
    requires IsWord(k)
    ensures PlaceholderAt(Pattern(k) + rest) == |k|
  {
    var s := Pattern(k) + rest;
    assert s[2..] == k + "}}" + rest;
    WordLengthIs(s[2..], |k|);
  }

  // Behind a placeholder of `w` stands whatever else does.
  lemma StandsBehind(k: string, w: string, t: string)
    requires IsWord(k) && IsWord(w) && Pattern(w) <= t
    ensures Occurs(Pattern(k), t) <==> k == w || Occurs(Pattern(k), t[|Pattern(w)|..])
  {
    hide Pattern, IsWord;
    PatternStart(k);
    PatternStart(w);
    WordBraceFree(k);
    WordBraceFree(w);
    assert t[0..] == t;
    AtSlice(Pattern(w), t, 0);
    AtSlice(Pattern(k), t, 0);
    if k != w {
      BehindPlaceholder(k, w, t);
    }
  }

  lemma BehindPlaceholder(k: string, w: string, t: string)
    requires BraceFree(k) && BraceFree(w) && k != w && Pattern(w) <= t
    ensures Occurs(Pattern(k), t) <==> Occurs(Pattern(k), t[|Pattern(w)|..])
  {
    hide Pattern, BraceFree, Occurs;
    assert t[0..] == t;
    AtSlice(Pattern(w), t, 0);
    AtSlice(Pattern(k), t, 0);
    forall i | 0 <= i < |Pattern(w)| ensures !At(Pattern(k), t, i) {
      if At(Pattern(k), t, i) {
        if i > 0 { PlaceholdersApart(w, k, t, 0, i); } else { PlaceholderNamed(k, w, t); }
      }
    }
    OccursSplit(Pattern(k), t, |Pattern(w)|);
  }

  // A token that stands survives the replacement of another.
  lemma {:induction false} Survives(y: string, m: string, v: string, k: string)
    requires BraceFree(m) && BraceFree(k) && m != k && Occurs(Pattern(k), y)
    ensures Occurs(Pattern(k), Replace(y, Pattern(m), v))
    decreases |y|
  {
    hide Pattern, BraceFree, Occurs, Replace;
    PatternStart(m);
    PatternStart(k);
    var p, q := Pattern(m), Pattern(k);
    if y == "" {
      AtNothing(q);
    } else if p <= y {
      var t := y[|p|..];
      assert y == p + t;
      BehindPlaceholder(k, m, y);
      Survives(t, m, v, k);
      ReplaceAhead(t, p, v);
      OccursBehind(q, v, Replace(t, p, v));
    } else if q <= y {
      var t := y[|q|..];
      assert y == q + t;
      SkipOther(k, t, m, v);
      OccursAhead(q, Replace(t, p, v));
    } else {
      NotAtStart(y, q);
      Survives(y[1..], m, v, k);
      ReplaceStep(y, p, v);
      OccursBehind(q, [y[0]], Replace(y[1..], p, v));
    }
  }

  lemma OccursBehind(q: string, a: string, b: string)
    requires Occurs(q, b)
    ensures Occurs(q, a + b)
  {
    var i :| At(q, b, i);
    assert (a + b)[|a| + i..|a| + i + |q|] == b[i..i + |q|];
    assert At(q, a + b, |a| + i);
  }

  lemma OccursAhead(q: string, b: string)
    ensures Occurs(q, q + b)
  {
    assert (q + b)[0..|q|] == q;
    assert At(q, q + b, 0);
  }

  // A value that does not meet a placeholder does not bring it about.
  lemma {:induction false} StaysGone(y: string, m: string, v: string, k: string)
    requires BraceFree(m) && BraceFree(k) && !Meets(v, Pattern(k)) && (m == k || !Occurs(Pattern(k), y))
    ensures !Occurs(Pattern(k), Replace(y, Pattern(m), v))
    decreases |y|
  {
    hide Pattern, BraceFree, Occurs, Replace, Meets;
    PatternStart(m);
    PatternStart(k);
    var p, q := Pattern(m), Pattern(k);
    if y == "" {
      NothingLeft(p, v);
      AtNothing(q);
    } else if p <= y {
      var t := y[|p|..];
      assert y == p + t;
      if m != k { BehindPlaceholder(k, m, y); }
      StaysGone(t, m, v, k);
      ReplaceAhead(t, p, v);
      NotBehindValue(v, Replace(t, p, v), q);
    } else {
      var t := y[1..];
      assert y == [y[0]] + t;
      if m != k { GoneBehind(q, y); }
      StaysGone(t, m, v, k);
      ReplaceStep(y, p, v);
      var r := [y[0]] + Replace(t, p, v);
      if q <= r { StartKept(y[0], t, p, v, q); }
      NotAhead(q, y);
      assert r[1..] == Replace(t, p, v);
      NotBehind(q, r);
    }
  }

  lemma GoneBehind(q: string, y: string)
    requires y != "" && !Occurs(q, y)
    ensures !Occurs(q, y[1..]) && !(q <= y)
  {
    assert y[0..] == y;
    AtSlice(q, y, 0);
    OccursSplit(q, y, 1);
  }

  lemma NotAhead(q: string, y: string)
    ensures q <= y ==> Occurs(q, y)
  {
    assert y[0..] == y;
    AtSlice(q, y, 0);
  }

  lemma NotBehind(q: string, r: string)
    requires r != "" && !Occurs(q, r[1..]) && !(q <= r)
    ensures !Occurs(q, r)
  {
    assert r[0..] == r;
    AtSlice(q, r, 0);
    OccursSplit(q, r, 1);
  }

  lemma NotBehindValue(v: string, rest: string, q: string)
    requires q != "" && !Meets(v, q) && !Occurs(q, rest)
    ensures !Occurs(q, v + rest)
  {
    hide Trails, Occurs;
    forall i | 0 <= i < |v| ensures !At(q, v + rest, i) {
      QuietFront(v, rest, q, i);
    }
    OccursSplit(q, v + rest, |v|);
    assert (v + rest)[|v|..] == rest;
  }

  // Paths that hold nothing a placeholder is made of.
  const SLASHES := PlanContext("/", "/", "/", "", "/")

  lemma SlashApart(k: string)
    requires IsWord(k)
    ensures !Meets("/", Pattern(k))
  {
    var p := Pattern(k);
    assert forall i :: 0 <= i < |p| ==> p[i] != '/';
    forall i ensures !At("/", p, i) {
      assert 0 <= i < |p| ==> p[i..i + 1][0] == p[i];
    }
    forall n ensures !TailIs("/", p, n) {
      assert 0 < n < |p| ==> p[..n][0] == p[0];
    }
    forall n ensures !HeadIs("/", p, n) {
      assert 0 < n < |p| ==> p[|p| - n..][0] == p[|p| - n];
    }
  }

  lemma StandsAfterPaths(t: string, k: string)
    requires IsWord(k) && !IsPath(k) && Occurs(Pattern(k), t)
    ensures Occurs(Pattern(k), ReplacePaths(t, SLASHES))
  {
    hide Occurs, Replace, Pattern, IsWord;
    WordBraceFree(k);
    PathNames();
    Survives(t, "DEV_ROOT", "/", k);
    var t1 := Replace(t, Pattern("DEV_ROOT"), "/");
    Survives(t1, "PROJECT", "/", k);
    var t2 := Replace(t1, Pattern("PROJECT"), "/");
    Survives(t2, "PLAN", "/", k);
    Survives(Replace(t2, Pattern("PLAN"), "/"), "ORCHESTRATOR", "/", k);
  }

  lemma GoneAfterPaths(t: string, k: string)
    requires IsWord(k) && !Occurs(Pattern(k), t)
    ensures !Occurs(Pattern(k), ReplacePaths(t, SLASHES))
  {
    hide Occurs, Replace, Pattern, IsWord, Meets;
    WordBraceFree(k);
    PathNames();
    SlashApart(k);
    StaysGone(t, "DEV_ROOT", "/", k);
    var t1 := Replace(t, Pattern("DEV_ROOT"), "/");
    StaysGone(t1, "PROJECT", "/", k);
    var t2 := Replace(t1, Pattern("PROJECT"), "/");
    StaysGone(t2, "PLAN", "/", k);
    StaysGone(Replace(t2, Pattern("PLAN"), "/"), "ORCHESTRATOR", "/", k);
  }

  // A visible clash: one order reports `k`, another does not.
  lemma CallsDiffer(tokens: map<string, string>, j: string, k: string) returns (content: string, r: Outcome, s: Outcome)
    requires BraceFreeKeys(tokens) && VisibleClash(tokens, j, k)
    ensures Possible(r, content, SLASHES, tokens) && Possible(s, content, SLASHES, tokens) && r != s
  {
    hide Occurs, Replace, ReplaceAll, ReplacePaths, Pattern, IsWord, Meets, Leftover, BraceFreeKeys, Visits, IsPath;
    PatternStart(k);
    KeyBraceFree(tokens, j);
    KeyBraceFree(tokens, k);
    MacroName();
    var a, b := Padding(tokens[j], Pattern(k));
    content := a + Pattern(j) + b;
    var o, p := LastTwo(tokens, a, j, b, k);
    PaddedReplaced(k, a, j, b, "RELATED_PLANS", SLASHES.relatedPlans);
    var kept := a + tokens[j] + b;
    var gone := Replace(kept, Pattern(k), tokens[k]);
    StaysGone(kept, k, tokens[k], k);
    GoneAfterPaths(gone, k);
    StandsAfterPaths(kept, k);
    ReportsStanding(k, ReplacePaths(gone, SLASHES));
    ReportsStanding(k, ReplacePaths(kept, SLASHES));
    VisitsKeys(o, tokens);
    VisitsKeys(p, tokens);
    r := Guarded(Substituted(content, SLASHES, tokens, o));
    s := Guarded(Substituted(content, SLASHES, tokens, p));
  }

  lemma KeyBraceFree(tokens: map<string, string>, k: string)
    requires BraceFreeKeys(tokens) && k in tokens
    ensures BraceFree(k)
  {
  }

  lemma VisitsKeys(order: seq<string>, tokens: map<string, string>)
    requires Visits(order, tokens)
    ensures forall k :: k in order ==> k in tokens
  {
  }

  // Without a clash the order never shows in what a call returns; with a visible one it does.
  lemma CallsAgreement(tokens: map<string, string>)
    requires BraceFreeKeys(tokens)
    ensures NoClash(tokens) ==> CallsAgree(tokens)
    ensures (exists j, k :: VisibleClash(tokens, j, k)) ==> !CallsAgree(tokens)
  {
    hide ReplaceAll, ReplacePaths, Replace, Pattern, BraceFreeKeys, Guarded, VisibleClash, NoClash;
    OrdersAgreeIff(tokens);
    if NoClash(tokens) {
      forall ctx, content, r, s | Possible(r, content, ctx, tokens) && Possible(s, content, ctx, tokens)
        ensures r == s
      {
        var o :| Visits(o, tokens) && r == Guarded(Substituted(content, ctx, tokens, o));
        var p :| Visits(p, tokens) && s == Guarded(Substituted(content, ctx, tokens, p));
      }
    }
    if j, k :| VisibleClash(tokens, j, k) {
      var content, r, s := CallsDiffer(tokens, j, k);
    }
  }

  // ---------- three maps ----------

  lemma TokenPasses(name: string, key: string, value: string)
    requires BraceFree(name) && BraceFree(key) && name != key
    ensures Replace(Pattern(name), Pattern(key), value) == Pattern(name)
  {
    SkipOther(name, "", key, value);
    assert Pattern(name) + "" == Pattern(name);
  }

  lemma TokenReplaced(name: string, value: string)
    ensures Replace(Pattern(name), Pattern(name), value) == value
  {
    ReplaceAhead("", Pattern(name), value);
    assert Pattern(name) + "" == Pattern(name) && value + "" == value;
  }

  lemma TwoOrders(s: string, tokens: map<string, string>)
    requires tokens.Keys == {"A", "B"}
    ensures Visits(["A", "B"], tokens) && Visits(["B", "A"], tokens)
    ensures ReplaceAll(s, tokens, ["A", "B"])
         == Replace(Replace(s, Pattern("A"), tokens["A"]), Pattern("B"), tokens["B"])
    ensures ReplaceAll(s, tokens, ["B", "A"])
         == Replace(Replace(s, Pattern("B"), tokens["B"]), Pattern("A"), tokens["A"])
  {
    hide Replace, Pattern;
    assert "A"[0] != "B"[0];
    assert ["A", "B"][1..] == ["B"] && ["B", "A"][1..] == ["A"];
    assert ["A"][1..] == [] && ["B"][1..] == [];
  }

  // Text after which no built-in token is replaced.
  ghost predicate Passes(s: string, ctx: PlanContext) {
    Replace(s, Pattern("RELATED_PLANS"), ctx.relatedPlans) == s && ReplacePaths(s, ctx) == s
  }

  // A token that is not built in, with a text behind it.
  lemma TokenTextPasses(name: string, t: string, ctx: PlanContext)
    requires BraceFree(name) && name != "RELATED_PLANS" && !IsPath(name) && Inert(t)
    ensures Passes(Pattern(name) + t, ctx)
  {
    hide Replace, Pattern, Inert, BraceFree;
    var s := Pattern(name) + t;
    MacroName();
    PathNames();
    forall k, v | BraceFree(k) && k != name ensures Replace(s, Pattern(k), v) == s {
      SkipOther(name, t, k, v);
      TextUntouched(t, k, v);
    }
    PathsPass(s, ctx);
  }

  lemma TextUntouched(t: string, k: string, v: string)
    requires Inert(t) && BraceFree(k)
    ensures Replace(t, Pattern(k), v) == t
  {
    SkipInert(t, "", k, v);
    assert t + "" == t;
  }

  lemma PathsPass(s: string, ctx: PlanContext)
    requires Replace(s, Pattern("DEV_ROOT"), ctx.devRoot) == s && Replace(s, Pattern("PROJECT"), ctx.projectDir) == s
    requires Replace(s, Pattern("PLAN"), ctx.planDir) == s && Replace(s, Pattern("ORCHESTRATOR"), ctx.configRoot) == s
    ensures ReplacePaths(s, ctx) == s
  {
    hide Replace, Pattern;
  }

  lemma TextPasses(t: string, ctx: PlanContext)
    requires Inert(t)
    ensures Passes(t, ctx) && Leftover(t) == {}
  {
    hide Replace, Pattern, Inert, BraceFree;
    MacroName();
    PathNames();
    TextUntouched(t, "RELATED_PLANS", ctx.relatedPlans);
    TextUntouched(t, "DEV_ROOT", ctx.devRoot);
    TextUntouched(t, "PROJECT", ctx.projectDir);
    TextUntouched(t, "PLAN", ctx.planDir);
    TextUntouched(t, "ORCHESTRATOR", ctx.configRoot);
    PathsPass(t, ctx);
    LeftoverInert(t, "");
    assert t + "" == t;
  }

  lemma SmallNames()
    ensures forall k :: k == "A" || k == "B" ==> IsWord(k) && BraceFree(k) && !IsPath(k) && k != "RELATED_PLANS"
    ensures Pattern("A") == "{{A}}" && Pattern("B") == "{{B}}" && "A" != "B"
  {
    assert "A"[0] != "B"[0];
    assert |"A"| == 1 && |"B"| == 1 && |"DEV_ROOT"| == 8 && |"PROJECT"| == 7 && |"PLAN"| == 4 && |"ORCHESTRATOR"| == 12;
  }

  // What two orders make of one content, said of the call.
  lemma TwoOutcomes(content: string, tokens: map<string, string>, ctx: PlanContext, x: string, y: string)
    requires tokens.Keys == {"A", "B"} && Replace(content, Pattern("RELATED_PLANS"), ctx.relatedPlans) == content
    requires Replace(Replace(content, Pattern("A"), tokens["A"]), Pattern("B"), tokens["B"]) == x
    requires Replace(Replace(content, Pattern("B"), tokens["B"]), Pattern("A"), tokens["A"]) == y
    requires ReplacePaths(x, ctx) == x && ReplacePaths(y, ctx) == y
    ensures Possible(Guarded(x), content, ctx, tokens) && Possible(Guarded(y), content, ctx, tokens)
  {
    hide Replace, ReplacePaths, Pattern, ReplaceAll, Guarded, Visits;
    TwoOrders(content, tokens);
    VisitsKeys(["A", "B"], tokens);
    VisitsKeys(["B", "A"], tokens);
    assert Substituted(content, ctx, tokens, ["A", "B"]) == x && Substituted(content, ctx, tokens, ["B", "A"]) == y;
  }

  // A value that mentions another token: the text, or a complaint about the token left standing.
  lemma OrderMatters(ctx: PlanContext)
    ensures var tokens := map["A" := "{{B}}", "B" := "x"];
      Possible(Composed("x"), "{{A}}", ctx, tokens) && Possible(Unresolved({"B"}), "{{A}}", ctx, tokens)
  {
    hide Replace, Passes, Possible, Leftover, ReplacePaths;
    var tokens := map["A" := "{{B}}", "B" := "x"];
    SmallNames();
    TokenReplaced("A", "{{B}}");
    TokenReplaced("B", "x");
    TokenPasses("A", "B", "x");
    StandingOrText("x", ctx);
    assert Passes("{{A}}", ctx) by { TokenTextPasses("A", "", ctx); assert Pattern("A") + "" == "{{A}}"; }
    PassesParts("{{A}}", ctx);
    TwoOutcomes("{{A}}", tokens, ctx, "x", "{{B}}");
  }

  // A value without any placeholder, which the text after it completes.
  lemma OpenBrace(ctx: PlanContext)
    ensures var tokens := map["A" := "{", "B" := "x"];
      Possible(Composed("x"), "{{A}}{B}}", ctx, tokens) && Possible(Unresolved({"B"}), "{{A}}{B}}", ctx, tokens)
  {
    hide Replace, Passes, Possible, Leftover, ReplacePaths;
    var tokens := map["A" := "{", "B" := "x"];
    SmallNames();
    assert Inert("{B}}");
    TextUntouched("{B}}", "A", "{");
    TextUntouched("{B}}", "B", "x");
    ReplaceAhead("{B}}", Pattern("A"), "{");
    SkipOther("A", "{B}}", "B", "x");
    TokenReplaced("B", "x");
    assert Pattern("A") + "{B}}" == "{{A}}{B}}" && "{" + "{B}}" == "{{B}}";
    StandingOrText("x", ctx);
    assert Passes("{{A}}{B}}", ctx) by { TokenTextPasses("A", "{B}}", ctx); }
    PassesParts("{{A}}{B}}", ctx);
    TwoOutcomes("{{A}}{B}}", tokens, ctx, "x", "{{B}}");
  }

  // Two texts, one complaint: a value that holds its own placeholder hides the order on this content.
  lemma SameComplaint(ctx: PlanContext)
    ensures var tokens := map["A" := "{{B}}", "B" := "{{B}}x"];
      Clash(tokens, "A", "B") &&
      ReplaceAll("{{A}}", tokens, ["A", "B"]) == "{{B}}x" && ReplaceAll("{{A}}", tokens, ["B", "A"]) == "{{B}}" &&
      Guarded("{{B}}x") == Guarded("{{B}}") == Unresolved({"B"})
  {
    hide Replace, ReplaceAll, Leftover;
    var tokens := map["A" := "{{B}}", "B" := "{{B}}x"];
    SmallNames();
    TokenReplaced("A", "{{B}}");
    TokenReplaced("B", "{{B}}x");
    TokenPasses("A", "B", "{{B}}x");
    TwoOrders("{{A}}", tokens);
    assert |"{{B}}x"| == 6 && |"{{B}}"| == 5;
    OccursAhead("{{B}}", "");
    assert "{{B}}" + "" == "{{B}}" && Pattern("B") + "x" == "{{B}}x";
    LeftoverWord("B", "x");
    LeftoverWord("B", "");
    LeftoverInert("x", "");
    assert "x" + "" == "x" && Leftover("") == {} by { NothingStands(); }
  }

  lemma NothingStands()
    ensures Leftover("") == {}
  {
  }

  lemma StandingOrText(t: string, ctx: PlanContext)
    requires Inert(t)
    ensures Guarded(t) == Composed(t) && Guarded("{{B}}") == Unresolved({"B"})
    ensures ReplacePaths(t, ctx) == t && ReplacePaths("{{B}}", ctx) == "{{B}}"
  {
    hide Leftover, Passes, Inert;
    SmallNames();
    TextPasses(t, ctx);
    PassesParts(t, ctx);
    EmptyInert();
    TokenTextPasses("B", "", ctx);
    assert Pattern("B") + "" == "{{B}}";
    PassesParts("{{B}}", ctx);
    LeftoverWord("B", "");
    NothingStands();
  }

  lemma EmptyInert()
    ensures Inert("")
  {
  }

  lemma PassesParts(s: string, ctx: PlanContext)
    requires Passes(s, ctx)
    ensures Replace(s, Pattern("RELATED_PLANS"), ctx.relatedPlans) == s && ReplacePaths(s, ctx) == s
  {
  }
}
