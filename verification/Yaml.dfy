// YAML values and the deep merge of src/migrate_v1_to_v2.rs.
module Yaml {
  import opened Wrappers

  // A mapping is an insertion-ordered list of entries with distinct keys.
  datatype Value =
    | Null
    | Bool(bool)
    | Integer(number: int)
    | Float(real)
    | Str(text: string)
    | Sequence(items: seq<Value>)
    | Mapping(entries: seq<Entry>)

  datatype Entry = Entry(key: Value, value: Value)

  predicate HasKey(entries: seq<Entry>, key: Value) {
    exists i :: 0 <= i < |entries| && entries[i].key == key
  }

  // Position of the entry for `key`; the length if there is none.
  function IndexOf(entries: seq<Entry>, key: Value): (i: nat)
    ensures i <= |entries| && (i < |entries| <==> HasKey(entries, key))
    ensures i < |entries| ==> entries[i].key == key
    ensures forall j :: 0 <= j < i ==> entries[j].key != key
  {
    if entries == [] then 0
    else if entries[0].key == key then 0
    else
      var i := IndexOf(entries[1..], key);
      assert HasKey(entries[1..], key) ==> HasKey(entries, key) by {
        if HasKey(entries[1..], key) {
          var j :| 0 <= j < |entries[1..]| && entries[1..][j].key == key;
          assert entries[j + 1].key == key;
        }
      }
      assert HasKey(entries, key) ==> HasKey(entries[1..], key) by {
        if HasKey(entries, key) {
          var j :| 0 <= j < |entries| && entries[j].key == key;
          assert entries[1..][j - 1].key == key;
        }
      }
      1 + i
  }

  function Find(entries: seq<Entry>, key: Value): Option<Value> {
    var i := IndexOf(entries, key);
    if i < |entries| then Some(entries[i].value) else None
  }

  // `Value::get`: only a mapping has children.
  function Child(v: Value, key: Value): Option<Value> {
    if v.Mapping? then Find(v.entries, key) else None
  }

  // `get` by a path of keys.
  function Lookup(v: Value, path: seq<Value>): Option<Value>
    decreases |path|
  {
    if path == [] then Some(v)
    else match Child(v, path[0]) case None => None case Some(w) => Lookup(w, path[1..])
  }

  ghost predicate DistinctKeys(entries: seq<Entry>) {
    forall i, j :: 0 <= i < j < |entries| ==> entries[i].key != entries[j].key
  }

  // Mappings have distinct keys, at every depth of values.
  ghost predicate WellKeyed(v: Value) {
    v.Mapping? ==> DistinctKeys(v.entries) && forall i :: 0 <= i < |v.entries| ==> WellKeyed(v.entries[i].value)
  }

  // ---------- the merge ----------

  function Merge(base: Value, overlay: Value): Value
    decreases overlay, 1, 0
  {
    if base.Mapping? && overlay.Mapping? then Mapping(MergeEntries(base.entries, overlay, |overlay.entries|))
    else overlay
  }

  // The first `n` entries of `overlay` merged into `base`.
  function MergeEntries(base: seq<Entry>, overlay: Value, n: nat): seq<Entry>
    requires overlay.Mapping? && n <= |overlay.entries|
    decreases overlay, 0, n
  {
    if n == 0 then base
    else
      var merged := MergeEntries(base, overlay, n - 1);
      var e := overlay.entries[n - 1];
      var i := IndexOf(merged, e.key);
      if i < |merged| then merged[i := Entry(e.key, Merge(merged[i].value, e.value))] else merged + [e]
  }

  method DeepMerge(base: Value, overlay: Value) returns (slot: Value)
    ensures slot == Merge(base, overlay)
    decreases overlay
  {
    if base.Mapping? && overlay.Mapping? {
      var b, o := base.entries, overlay.entries;
      for n := 0 to |o|
        invariant b == MergeEntries(base.entries, overlay, n)
      {
        var k, v := o[n].key, o[n].value;
        var i := IndexOf(b, k);
        if i < |b| {
          var existing := DeepMerge(b[i].value, v);
          b := b[i := Entry(k, existing)];
        } else {
          b := b + [Entry(k, v)];
        }
      }
      slot := Mapping(b);
    } else {
      slot := overlay;
    }
  }

  // ---------- what the merge contains ----------

  lemma FindAt(entries: seq<Entry>, i: nat)
    requires i < |entries| && DistinctKeys(entries)
    ensures Find(entries, entries[i].key) == Some(entries[i].value)
  {
  }

  lemma FindNone(entries: seq<Entry>, key: Value)
    ensures Find(entries, key).None? <==> !HasKey(entries, key)
  {
  }

  function Put(entries: seq<Entry>, key: Value, value: Value): seq<Entry> {
    var i := IndexOf(entries, key);
    if i < |entries| then entries[i := Entry(key, value)] else entries + [Entry(key, value)]
  }

  lemma PutDistinct(entries: seq<Entry>, key: Value, value: Value)
    requires DistinctKeys(entries)
    ensures DistinctKeys(Put(entries, key, value))
  {
    var i := IndexOf(entries, key);
    assert i == |entries| ==> forall j :: 0 <= j < |entries| ==> entries[j].key != key;
  }

  lemma PutFind(entries: seq<Entry>, key: Value, value: Value, other: Value)
    requires DistinctKeys(entries)
    ensures Find(Put(entries, key, value), other) == if other == key then Some(value) else Find(entries, other)
  {
    hide Find;
    var i, r := IndexOf(entries, key), Put(entries, key, value);
    PutDistinct(entries, key, value);
    if other == key {
      FindAt(r, i);
    } else {
      var j := IndexOf(entries, other);
      FindNone(entries, other);
      FindNone(r, other);
      if j < |entries| {
        assert r[j] == entries[j];
        FindAt(r, j);
        FindAt(entries, j);
      } else {
        assert !HasKey(r, other);
      }
    }
  }

  // What a key maps to once the overlay's value for it has been merged in.
  function MergedChild(base: Option<Value>, overlay: Option<Value>): Option<Value> {
    if overlay.None? then base else if base.None? then overlay else Some(Merge(base.value, overlay.value))
  }

  // The entry list after `n` steps, key by key.
  lemma {:induction false} MergedEntries(base: seq<Entry>, overlay: Value, n: nat, key: Value)
    requires overlay.Mapping? && n <= |overlay.entries| && DistinctKeys(base) && DistinctKeys(overlay.entries)
    ensures DistinctKeys(MergeEntries(base, overlay, n))
    ensures Find(MergeEntries(base, overlay, n), key) == MergedChild(Find(base, key), Find(overlay.entries[..n], key))
  {
    hide Find, HasKey, Merge;
    if n == 0 {
      FindNone(overlay.entries[..0], key);
      assert !HasKey(overlay.entries[..0], key) by { NoKeys(overlay.entries[..0], key); }
    } else {
      var merged, e := MergeEntries(base, overlay, n - 1), overlay.entries[n - 1];
      MergedEntries(base, overlay, n - 1, key);
      MergedEntries(base, overlay, n - 1, e.key);
      FindSnoc(overlay.entries[..n - 1], e, key);
      FindSnoc(overlay.entries[..n - 1], e, e.key);
      assert overlay.entries[..n - 1] + [e] == overlay.entries[..n];
      var i := IndexOf(merged, e.key);
      FindIndex(merged, e.key);
      PutDistinct(merged, e.key, if i < |merged| then Merge(merged[i].value, e.value) else e.value);
      PutFind(merged, e.key, if i < |merged| then Merge(merged[i].value, e.value) else e.value, key);
    }
  }

  lemma NoKeys(entries: seq<Entry>, key: Value)
    requires entries == []
    ensures !HasKey(entries, key)
  {
  }

  lemma FindIndex(entries: seq<Entry>, key: Value)
    ensures Find(entries, key) ==
            if IndexOf(entries, key) < |entries| then Some(entries[IndexOf(entries, key)].value) else None
  {
  }

  // The last of a list of distinct keys.
  lemma FindSnoc(entries: seq<Entry>, e: Entry, key: Value)
    requires DistinctKeys(entries + [e])
    ensures Find(entries + [e], key) == if key == e.key then Some(e.value) else Find(entries, key)
    ensures Find(entries, e.key).None?
  {
    hide Find;
    var all := entries + [e];
    assert all[|entries|] == e;
    assert forall i :: 0 <= i < |entries| ==> all[i] == entries[i] && entries[i].key != e.key;
    assert DistinctKeys(entries);
    FindNone(entries, e.key);
    FindNone(entries, key);
    FindNone(all, key);
    if key == e.key {
      FindAt(all, |entries|);
    } else if HasKey(entries, key) {
      var i := IndexOf(entries, key);
      FindAt(all, i);
      FindAt(entries, i);
    } else {
      assert !HasKey(all, key);
    }
  }

  // A merge of mappings is decided key by key.
  lemma MergeByKey(base: Value, overlay: Value, key: Value)
    requires base.Mapping? && overlay.Mapping? && WellKeyed(base) && WellKeyed(overlay)
    ensures Merge(base, overlay).Mapping? && DistinctKeys(Merge(base, overlay).entries)
    ensures Child(Merge(base, overlay), key) == MergedChild(Child(base, key), Child(overlay, key))
  {
    hide Find;
    MergedEntries(base.entries, overlay, |overlay.entries|, key);
    assert overlay.entries[..|overlay.entries|] == overlay.entries;
  }

  lemma ChildWellKeyed(v: Value, key: Value)
    requires WellKeyed(v) && Child(v, key).Some?
    ensures WellKeyed(Child(v, key).value) && v.Mapping?
    ensures Child(v, key).value < v
  {
    var i := IndexOf(v.entries, key);
    assert WellKeyed(v.entries[i].value);
  }

  lemma {:induction false} MergeWellKeyed(base: Value, overlay: Value)
    requires WellKeyed(base) && WellKeyed(overlay)
    ensures WellKeyed(Merge(base, overlay))
    decreases overlay
  {
    hide Find, HasKey;
    if base.Mapping? && overlay.Mapping? {
      var r := Merge(base, overlay).entries;
      MergeByKey(base, overlay, Null);
      forall i | 0 <= i < |r| ensures WellKeyed(r[i].value) {
        var key := r[i].key;
        FindAt(r, i);
        MergeByKey(base, overlay, key);
        if Child(base, key).Some? { ChildWellKeyed(base, key); }
        if Child(overlay, key).Some? {
          ChildWellKeyed(overlay, key);
          if Child(base, key).Some? {
            MergeWellKeyed(Child(base, key).value, Child(overlay, key).value);
          }
        }
      }
    }
  }

  // Every value the overlay holds at the end of a path, other than a mapping, is in the merge.
  lemma {:induction false} OverlayLeavesKept(base: Value, overlay: Value, path: seq<Value>)
    requires WellKeyed(base) && WellKeyed(overlay)
    requires Lookup(overlay, path).Some? && !Lookup(overlay, path).value.Mapping?
    ensures Lookup(Merge(base, overlay), path) == Lookup(overlay, path)
    decreases |path|
  {
    hide Find, WellKeyed, HasKey;
    if path != [] {
      var key := path[0];
      if base.Mapping? && overlay.Mapping? {
        MergeByKey(base, overlay, key);
        ChildWellKeyed(overlay, key);
        if Child(base, key).Some? {
          ChildWellKeyed(base, key);
          OverlayLeavesKept(Child(base, key).value, Child(overlay, key).value, path[1..]);
        }
      }
    }
  }

  // The overlay's mappings follow `path` for a while and then have no entry for the next key.
  ghost predicate Unreached(overlay: Value, path: seq<Value>)
    decreases |path|
  {
    && path != [] && overlay.Mapping?
    && (Child(overlay, path[0]).None? || Unreached(Child(overlay, path[0]).value, path[1..]))
  }

  // Everything in the base that the overlay's mappings do not reach is kept.
  lemma {:induction false} BaseEntriesKept(base: Value, overlay: Value, path: seq<Value>)
    requires WellKeyed(base) && WellKeyed(overlay) && Unreached(overlay, path) && Lookup(base, path).Some?
    ensures Lookup(Merge(base, overlay), path) == Lookup(base, path)
    decreases |path|
  {
    hide Find, WellKeyed, HasKey;
    var key := path[0];
    ChildWellKeyed(base, key);
    MergeByKey(base, overlay, key);
    if Child(overlay, key).Some? {
      ChildWellKeyed(overlay, key);
      BaseEntriesKept(Child(base, key).value, Child(overlay, key).value, path[1..]);
    }
  }

  // ---------- the order of the keys ----------

  // The keys of the base in their places, then those only the overlay has, in its order.
  ghost predicate KeysInOrder(base: seq<Entry>, added: seq<Entry>, r: seq<Entry>) {
    && |base| <= |r| && (forall i :: 0 <= i < |base| ==> r[i].key == base[i].key)
    && (forall i :: |base| <= i < |r| ==> HasKey(added, r[i].key) && !HasKey(base, r[i].key))
    && (forall i, j :: |base| <= i < j < |r| ==> IndexOf(added, r[i].key) < IndexOf(added, r[j].key))
  }

  lemma IndexGrows(entries: seq<Entry>, e: Entry, key: Value)
    ensures HasKey(entries, key) ==> HasKey(entries + [e], key) && IndexOf(entries + [e], key) == IndexOf(entries, key)
    ensures HasKey(entries + [e], e.key)
    ensures !HasKey(entries, e.key) ==> IndexOf(entries + [e], e.key) == |entries|
  {
    var all := entries + [e];
    assert all[|entries|] == e && forall i :: 0 <= i < |entries| ==> all[i] == entries[i];
    if HasKey(entries, key) {
      assert all[IndexOf(entries, key)].key == key;
    }
  }

  lemma PutKeyOrder(base: seq<Entry>, added: seq<Entry>, merged: seq<Entry>, e: Entry, value: Value)
    requires KeysInOrder(base, added, merged) && !HasKey(added, e.key)
    ensures KeysInOrder(base, added + [e], Put(merged, e.key, value))
  {
    hide IndexOf, HasKey;
    var r, all := Put(merged, e.key, value), added + [e];
    PutKeys(merged, e.key, value);
    NotInParts(base, merged, e.key);
    forall i | 0 <= i < |merged| { IndexGrows(added, e, merged[i].key); }
    IndexGrows(added, e, e.key);
    forall i | |base| <= i < |merged| ensures IndexOf(added, merged[i].key) < |added| {
      IndexFound(added, merged[i].key);
    }
  }

  lemma IndexFound(entries: seq<Entry>, key: Value)
    requires HasKey(entries, key)
    ensures IndexOf(entries, key) < |entries|
  {
  }

  lemma PutKeys(entries: seq<Entry>, key: Value, value: Value)
    ensures var r := Put(entries, key, value);
      && (forall i :: 0 <= i < |entries| ==> r[i].key == entries[i].key)
      && (if HasKey(entries, key) then |r| == |entries| else |r| == |entries| + 1 && r[|entries|].key == key)
  {
  }

  lemma NotInParts(base: seq<Entry>, merged: seq<Entry>, key: Value)
    requires |base| <= |merged| && forall i :: 0 <= i < |base| ==> merged[i].key == base[i].key
    ensures !HasKey(merged, key) ==> !HasKey(base, key)
  {
    if HasKey(base, key) {
      var i :| 0 <= i < |base| && base[i].key == key;
      assert merged[i].key == key;
    }
  }

  lemma {:induction false} MergedKeyOrder(base: seq<Entry>, overlay: Value, n: nat)
    requires overlay.Mapping? && n <= |overlay.entries| && DistinctKeys(overlay.entries)
    ensures KeysInOrder(base, overlay.entries[..n], MergeEntries(base, overlay, n))
  {
    hide Merge, HasKey, IndexOf;
    if n > 0 {
      var merged, e := MergeEntries(base, overlay, n - 1), overlay.entries[n - 1];
      MergedKeyOrder(base, overlay, n - 1);
      assert overlay.entries[..n - 1] + [e] == overlay.entries[..n];
      NewKey(overlay.entries, n - 1);
      var i := IndexOf(merged, e.key);
      PutKeyOrder(base, overlay.entries[..n - 1], merged, e,
                  if i < |merged| then Merge(merged[i].value, e.value) else e.value);
    }
  }

  lemma NewKey(entries: seq<Entry>, n: nat)
    requires n < |entries| && DistinctKeys(entries)
    ensures !HasKey(entries[..n], entries[n].key)
  {
  }

  // A merge of mappings keeps the order of the base's keys and appends the new ones in the overlay's order.
  lemma MergeKeyOrder(base: Value, overlay: Value)
    requires base.Mapping? && overlay.Mapping? && DistinctKeys(overlay.entries)
    ensures Merge(base, overlay).Mapping?
    ensures KeysInOrder(base.entries, overlay.entries, Merge(base, overlay).entries)
  {
    MergedKeyOrder(base.entries, overlay, |overlay.entries|);
    assert overlay.entries[..|overlay.entries|] == overlay.entries;
  }

  // ---------- idempotence ----------

  lemma PutBack(entries: seq<Entry>, key: Value, value: Value)
    requires Find(entries, key) == Some(value)
    ensures IndexOf(entries, key) < |entries| && entries[IndexOf(entries, key) := Entry(key, value)] == entries
  {
    var i := IndexOf(entries, key);
    assert entries[i] == Entry(key, value);
  }

  // Merging the entry changes nothing.
  predicate Absorbs(entries: seq<Entry>, e: Entry) {
    Find(entries, e.key).Some? && Merge(Find(entries, e.key).value, e.value) == Find(entries, e.key).value
  }

  lemma {:induction false} AbsorbedEntries(r: seq<Entry>, overlay: Value, n: nat)
    requires overlay.Mapping? && n <= |overlay.entries|
    requires forall j :: 0 <= j < n ==> Absorbs(r, overlay.entries[j])
    ensures MergeEntries(r, overlay, n) == r
  {
    hide Find, Merge;
    if n > 0 {
      AbsorbedEntries(r, overlay, n - 1);
      var e := overlay.entries[n - 1];
      FindIndex(r, e.key);
      PutBack(r, e.key, Find(r, e.key).value);
    }
  }

  lemma {:induction false} MergeIdempotent(base: Value, overlay: Value)
    requires WellKeyed(base) && WellKeyed(overlay)
    ensures Merge(Merge(base, overlay), overlay) == Merge(base, overlay)
    ensures Merge(overlay, overlay) == overlay
    decreases overlay
  {
    hide Find, HasKey;
    if overlay.Mapping? {
      forall j | 0 <= j < |overlay.entries|
        ensures Find(overlay.entries, overlay.entries[j].key) == Some(overlay.entries[j].value)
        ensures Merge(overlay.entries[j].value, overlay.entries[j].value) == overlay.entries[j].value
      {
        FindAt(overlay.entries, j);
        MergeIdempotent(overlay.entries[j].value, overlay.entries[j].value);
      }
      AbsorbedEntries(overlay.entries, overlay, |overlay.entries|);
      if base.Mapping? {
        var r := Merge(base, overlay).entries;
        forall j | 0 <= j < |overlay.entries|
          ensures Absorbs(r, overlay.entries[j])
        {
          var e := overlay.entries[j];
          MergeByKey(base, overlay, e.key);
          if Child(base, e.key).Some? {
            ChildWellKeyed(base, e.key);
            MergeIdempotent(Child(base, e.key).value, e.value);
          }
        }
        AbsorbedEntries(r, overlay, |overlay.entries|);
      }
    }
  }
}
