// Total orders, and the sorted sequences they determine. The graph engine keeps its
// nodes in ordered collections and returns sorted lists of sorted lists; what makes that
// output canonical is that a strictly sorted sequence is determined by its elements.
module Ordering {

  ghost predicate StrictTotal<T(!new)>(less: (T, T) -> bool) {
    && (forall x :: !less(x, x))
    && (forall x, y :: less(x, y) || x == y || less(y, x))
    && (forall x, y, z :: less(x, y) && less(y, z) ==> less(x, z))
  }

  ghost predicate StrictlySorted<T>(less: (T, T) -> bool, s: seq<T>) {
    forall i, j :: 0 <= i < j < |s| ==> less(s[i], s[j])
  }

  ghost predicate Distinct<T>(s: seq<T>) {
    forall i, j :: 0 <= i < j < |s| ==> s[i] != s[j]
  }

  ghost function Elements<T>(s: seq<T>): set<T> {
    set x | x in s
  }

  lemma ElementsConcat<T>(a: seq<T>, b: seq<T>)
    ensures Elements(a + b) == Elements(a) + Elements(b)
    ensures |b| == 1 ==> Elements(b) == {b[0]}
    ensures b == [] ==> Elements(b) == {}
  {
    forall x ensures x in a + b <==> x in a || x in b {}
  }

  // ---------- the lexicographic order ----------

  function Lex<T(==)>(less: (T, T) -> bool): (seq<T>, seq<T>) -> bool {
    (a, b) => LexLess(less, a, b)
  }

  predicate LexLess<T(==)>(less: (T, T) -> bool, a: seq<T>, b: seq<T>) {
    if b == [] then false
    else if a == [] then true
    else if a[0] == b[0] then LexLess(less, a[1..], b[1..])
    else less(a[0], b[0])
  }

  lemma {:induction false} LexConnected<T(!new)>(less: (T, T) -> bool, a: seq<T>, b: seq<T>)
    requires StrictTotal(less)
    ensures LexLess(less, a, b) || a == b || LexLess(less, b, a)
    ensures LexLess(less, a, b) ==> a != b
  {
    if a == [] || b == [] {
    } else if a[0] == b[0] {
      LexConnected(less, a[1..], b[1..]);
      assert a == [a[0]] + a[1..] && b == [b[0]] + b[1..];
    } else {
    }
  }

  lemma {:induction false} LexTransitive<T(!new)>(less: (T, T) -> bool, a: seq<T>, b: seq<T>, c: seq<T>)
    requires StrictTotal(less) && LexLess(less, a, b) && LexLess(less, b, c)
    ensures LexLess(less, a, c)
  {
    if a == [] {
    } else if a[0] == b[0] && b[0] == c[0] {
      LexTransitive(less, a[1..], b[1..], c[1..]);
    } else {
    }
  }

  lemma LexStrictTotal<T(!new)>(less: (T, T) -> bool)
    requires StrictTotal(less)
    ensures StrictTotal(Lex(less))
  {
    forall a, b: seq<T>
      ensures Lex(less)(a, b) || a == b || Lex(less)(b, a)
      ensures Lex(less)(a, b) ==> a != b
    {
      LexConnected(less, a, b);
    }
    forall a, b, c | Lex(less)(a, b) && Lex(less)(b, c)
      ensures Lex(less)(a, c)
    {
      LexTransitive(less, a, b, c);
    }
  }

  function CharLess(): (char, char) -> bool {
    (a, b) => a < b
  }

  // The order of `String`, and the derived order of `Vec<String>`.
  function NameLess(): (string, string) -> bool {
    Lex(CharLess())
  }

  function NamesLess(): (seq<string>, seq<string>) -> bool {
    Lex(NameLess())
  }

  lemma NameOrders()
    ensures StrictTotal(NameLess()) && StrictTotal(NamesLess())
  {
    LexStrictTotal(CharLess());
    LexStrictTotal(NameLess());
  }

  // `a` comes before `b` in the dictionary: it is how `b` begins, or smaller where they part.
  ghost predicate Alphabetical(a: string, b: string) {
    a < b || exists k :: 0 <= k < |a| && k < |b| && a[..k] == b[..k] && a[k] < b[k]
  }

  lemma LexSame<T(!new)>(less: (T, T) -> bool, a: seq<T>, b: seq<T>)
    requires a != [] && b != [] && a[0] == b[0]
    ensures LexLess(less, a, b) <==> LexLess(less, a[1..], b[1..])
    ensures a < b <==> a[1..] < b[1..]
    ensures a == b <==> a[1..] == b[1..]
  {
    assert a == [a[0]] + a[1..] && b == [b[0]] + b[1..];
  }

  // `LexLess` is that order, over any order of the elements.
  lemma {:induction false} LexMeans<T(!new)>(less: (T, T) -> bool, a: seq<T>, b: seq<T>)
    requires StrictTotal(less)
    ensures LexLess(less, a, b) <==>
      a < b || exists k :: 0 <= k < |a| && k < |b| && a[..k] == b[..k] && less(a[k], b[k])
  {
    hide StrictTotal;
    assert forall x :: !less(x, x) by { Irreflexive(less); }
    if a == [] || b == [] {
    } else if a[0] == b[0] {
      LexSame(less, a, b);
      LexMeans(less, a[1..], b[1..]);
      var s, t := a[1..], b[1..];
      if k :| 0 <= k < |s| && k < |t| && s[..k] == t[..k] && less(s[k], t[k]) {
        assert a[..k + 1] == [a[0]] + s[..k] && b[..k + 1] == [b[0]] + t[..k];
        assert less(a[k + 1], b[k + 1]);
      }
      if k :| 0 <= k < |a| && k < |b| && a[..k] == b[..k] && less(a[k], b[k]) {
        assert k > 0;
        assert s[..k - 1] == a[..k][1..] && t[..k - 1] == b[..k][1..];
        assert less(s[k - 1], t[k - 1]);
      }
    } else {
      if less(a[0], b[0]) { assert a[..0] == b[..0]; }
      if k :| 0 <= k < |a| && k < |b| && a[..k] == b[..k] && less(a[k], b[k]) {
        SameHead(a, b, k);
      }
    }
  }

  lemma SameHead<T>(a: seq<T>, b: seq<T>, k: nat)
    requires k < |a| && k < |b| && a[..k] == b[..k]
    ensures k > 0 ==> a[0] == b[0]
  {
    if k > 0 {
      assert a[0] == a[..k][0] && b[0] == b[..k][0];
    }
  }

  lemma Irreflexive<T(!new)>(less: (T, T) -> bool)
    requires StrictTotal(less)
    ensures forall x :: !less(x, x)
  {
  }

  // Names are ordered as in a dictionary.
  lemma NameLessMeans(a: string, b: string)
    ensures NameLess()(a, b) <==> Alphabetical(a, b)
  {
    LexMeans(CharLess(), a, b);
  }

  // So are lists of names, by the order of names.
  lemma NamesLessMeans(a: seq<string>, b: seq<string>)
    ensures NamesLess()(a, b) <==>
      a < b || exists k :: 0 <= k < |a| && k < |b| && a[..k] == b[..k] && Alphabetical(a[k], b[k])
  {
    NameOrders();
    LexMeans(NameLess(), a, b);
    forall k | 0 <= k < |a| && k < |b|
      ensures NameLess()(a[k], b[k]) <==> Alphabetical(a[k], b[k])
    {
      NameLessMeans(a[k], b[k]);
    }
  }

  // ---------- sorting ----------

  // `Vec::sort` on pairwise distinct elements: any correct sort computes this.
  function Sort<T>(less: (T, T) -> bool, s: seq<T>): (r: seq<T>)
    ensures multiset(r) == multiset(s)
  {
    if s == [] then []
    else
      assert s == [s[0]] + s[1..];
      Insert(less, s[0], Sort(less, s[1..]))
  }

  function Insert<T>(less: (T, T) -> bool, x: T, s: seq<T>): (r: seq<T>)
    ensures multiset(r) == multiset{x} + multiset(s)
  {
    if s == [] then [x]
    else if less(x, s[0]) then [x] + s
    else
      assert s == [s[0]] + s[1..];
      [s[0]] + Insert(less, x, s[1..])
  }

  lemma {:induction false} InsertSorted<T(!new)>(less: (T, T) -> bool, x: T, s: seq<T>)
    requires StrictTotal(less) && StrictlySorted(less, s) && x !in s
    ensures StrictlySorted(less, Insert(less, x, s))
  {
    if s == [] {
    } else if less(x, s[0]) {
    } else {
      InsertSorted(less, x, s[1..]);
      var rest := Insert(less, x, s[1..]);
      forall j | 0 <= j < |rest| ensures less(s[0], rest[j]) {
        assert rest[j] in multiset(rest);
        assert rest[j] == x || rest[j] in s[1..];
      }
    }
  }

  lemma {:induction false} SortSorts<T(!new)>(less: (T, T) -> bool, s: seq<T>)
    requires StrictTotal(less) && Distinct(s)
    ensures StrictlySorted(less, Sort(less, s))
    ensures forall x :: x in Sort(less, s) <==> x in s
    ensures |Sort(less, s)| == |s|
  {
    SameElements(Sort(less, s), s);
    if s != [] {
      SortSorts(less, s[1..]);
      SameElements(Sort(less, s[1..]), s[1..]);
      assert forall i :: 1 <= i < |s| ==> s[0] != s[i];
      InsertSorted(less, s[0], Sort(less, s[1..]));
    }
  }

  lemma SameElements<T>(a: seq<T>, b: seq<T>)
    requires multiset(a) == multiset(b)
    ensures |a| == |b| && Elements(a) == Elements(b)
    ensures forall x :: x in a <==> x in b
  {
    assert |multiset(a)| == |multiset(b)|;
    forall x ensures x in a <==> x in b {
      assert x in a <==> x in multiset(a);
      assert x in b <==> x in multiset(b);
    }
  }

  // ---------- canonicity ----------

  lemma NonEmptyHasMember<T>(s: seq<T>)
    ensures s == [] <==> forall x :: x !in s
  {
    if s != [] { assert s[0] in s; }
  }

  lemma {:induction false} SortedIsCanonical<T(!new)>(less: (T, T) -> bool, a: seq<T>, b: seq<T>)
    requires StrictTotal(less) && StrictlySorted(less, a) && StrictlySorted(less, b)
    requires forall x :: x in a <==> x in b
    ensures a == b
  {
    NonEmptyHasMember(a);
    NonEmptyHasMember(b);
    if a != [] {
      assert a[0] in b && b[0] in a;
      assert a[0] == b[0];
      forall x ensures x in a[1..] <==> x in b[1..] {
        if x in a[1..] { assert x in b && less(a[0], x); }
        if x in b[1..] { assert x in a && less(b[0], x); }
      }
      SortedIsCanonical(less, a[1..], b[1..]);
      assert a == [a[0]] + a[1..] && b == [b[0]] + b[1..];
    }
  }

  // A non-empty finite set has a least element, so iterating an ordered set by taking
  // the least remaining element never gets stuck.
  lemma {:induction false} LeastExists<T(!new)>(less: (T, T) -> bool, s: set<T>) returns (m: T)
    requires StrictTotal(less) && s != {}
    ensures m in s && forall x :: x in s && x != m ==> less(m, x)
  {
    var y :| y in s;
    var rest := s - {y};
    if rest == {} {
      assert s == {y};
      m := y;
    } else {
      var k := LeastExists(less, rest);
      m := if less(y, k) then y else k;
      forall x | x in s && x != m ensures less(m, x) {
        assert x == y || x in rest;
      }
    }
  }
}
