/** Lists whose entries all pass a test and have distinct keys. */
module Keyed {
  import opened Lists

  predicate HasKey<T>(s: seq<T>, key: T -> string, k: string) {
    exists i :: 0 <= i < |s| && key(s[i]) == k
  }

  predicate Distinct<T>(s: seq<T>, key: T -> string) {
    forall i, j :: 0 <= i < j < |s| ==> key(s[i]) != key(s[j])
  }

  predicate All<T>(s: seq<T>, test: T -> bool) {
    forall i :: 0 <= i < |s| ==> test(s[i])
  }

  predicate Good<T>(s: seq<T>, test: T -> bool, key: T -> string) {
    All(s, test) && Distinct(s, key)
  }

  lemma KeysStep<T>(s: seq<T>, key: T -> string, i: nat)
    requires i < |s|
    ensures forall k :: HasKey(s[..i + 1], key, k) <==> HasKey(s[..i], key, k) || key(s[i]) == k
  {
    var front, next := s[..i], s[..i + 1];
    forall k | HasKey(front, key, k) || key(s[i]) == k ensures HasKey(next, key, k) {
      if HasKey(front, key, k) {
        var j :| 0 <= j < i && key(front[j]) == k;
        assert key(next[j]) == k;
      } else {
        assert key(next[i]) == k;
      }
    }
    forall k | HasKey(next, key, k) ensures HasKey(front, key, k) || key(s[i]) == k {
      var j :| 0 <= j <= i && key(next[j]) == k;
      assert j < i ==> key(front[j]) == k;
    }
  }

  lemma GoodStep<T>(s: seq<T>, test: T -> bool, key: T -> string, i: nat)
    requires i < |s|
    ensures Good(s[..i + 1], test, key) <==> Good(s[..i], test, key) && test(s[i]) && !HasKey(s[..i], key, key(s[i]))
    ensures Good(s, test, key) ==> Good(s[..i + 1], test, key)
  {
    var front, next := s[..i], s[..i + 1];
    assert next[i] == s[i];
    assert forall k :: 0 <= k < i ==> next[k] == front[k];
  }

  /** The entry with a key, when there is one. */
  function Find<T>(s: seq<T>, key: T -> string, k: string): (i: nat)
    ensures i <= |s| && (i < |s| <==> HasKey(s, key, k))
    ensures i < |s| ==> key(s[i]) == k
    ensures forall j :: 0 <= j < i ==> key(s[j]) != k
  {
    if s == [] then 0
    else if key(s[0]) == k then 0
    else
      var i := Find(s[1..], key, k);
      assert i < |s[1..]| ==> key(s[1 + i]) == k;
      1 + i
  }

  /** With distinct keys, only one entry has a key. */
  lemma FindIsOnly<T>(s: seq<T>, key: T -> string, i: nat)
    requires Distinct(s, key) && i < |s|
    ensures Find(s, key, key(s[i])) == i
  {
  }

  /** Replaces the first entry with the same key, or adds a new one. */
  function Upsert<T>(s: seq<T>, key: T -> string, x: T): seq<T> {
    var i := Find(s, key, key(x));
    if i < |s| then s[i := x] else s + [x]
  }

  function UpsertAll<T>(s: seq<T>, key: T -> string, xs: seq<T>): seq<T> {
    if xs == [] then s else Upsert(UpsertAll(s, key, xs[..|xs| - 1]), key, xs[|xs| - 1])
  }

  lemma {:induction false} UpsertAllKeeps<T>(s: seq<T>, key: T -> string, xs: seq<T>)
    ensures |s| <= |UpsertAll(s, key, xs)|
    ensures forall i :: 0 <= i < |s| ==> key(UpsertAll(s, key, xs)[i]) == key(s[i])
    ensures forall i :: 0 <= i < |s| && !HasKey(xs, key, key(s[i])) ==> UpsertAll(s, key, xs)[i] == s[i]
    ensures forall k :: HasKey(UpsertAll(s, key, xs), key, k) <==> HasKey(s, key, k) || HasKey(xs, key, k)
  {
    if xs != [] {
      var front, x := xs[..|xs| - 1], xs[|xs| - 1];
      UpsertAllKeeps(s, key, front);
      var earlier, r := UpsertAll(s, key, front), UpsertAll(s, key, xs);
      KeysStep(xs, key, |xs| - 1);
      assert xs[..|xs| - 1 + 1] == xs;
      UpsertKeys(earlier, key, x);
      forall i | 0 <= i < |s| && !HasKey(xs, key, key(s[i])) ensures r[i] == s[i] {
        assert key(xs[|xs| - 1]) != key(s[i]);
      }
    }
  }

  lemma UpsertKeys<T>(s: seq<T>, key: T -> string, x: T)
    ensures forall k :: HasKey(Upsert(s, key, x), key, k) <==> HasKey(s, key, k) || key(x) == k
  {
    var i, r := Find(s, key, key(x)), Upsert(s, key, x);
    assert r[i] == x;
    forall k | HasKey(s, key, k) ensures HasKey(r, key, k) {
      var j :| 0 <= j < |s| && key(s[j]) == k;
      assert key(r[j]) == k;
    }
  }

  const SELF: string -> string := (id: string) => id

  /** Removes the first entry with a key, when there is one. */
  function Drop<T>(s: seq<T>, key: T -> string, id: string): seq<T> {
    var k := Find(s, key, id);
    if k < |s| then Without(s, k) else s
  }

  function RemoveEach<T>(s: seq<T>, key: T -> string, ids: seq<string>): seq<T> {
    if ids == [] then s else Drop(RemoveEach(s, key, ids[..|ids| - 1]), key, ids[|ids| - 1])
  }

  lemma FindIsFirst<T>(s: seq<T>, key: T -> string, k: string, at: nat)
    requires at <= |s| && forall j :: 0 <= j < at ==> key(s[j]) != k
    requires at < |s| ==> key(s[at]) == k
    ensures Find(s, key, k) == at
  {
  }

  method Search<T>(s: seq<T>, key: T -> string, k: string) returns (at: nat)
    ensures at == Find(s, key, k)
  {
    at := 0;
    while at < |s| && key(s[at]) != k
      invariant at <= |s| && forall j :: 0 <= j < at ==> key(s[j]) != k
    {
      at := at + 1;
    }
    FindIsFirst(s, key, k, at);
  }

  function Keys<T>(s: seq<T>, key: T -> string): (keys: set<string>)
    ensures forall k :: k in keys <==> HasKey(s, key, k)
  {
    set i | 0 <= i < |s| :: key(s[i])
  }

  /** The last key is not barred, was not removed before, and is there to remove. */
  predicate RemovesLast<T>(s: seq<T>, key: T -> string, ids: seq<string>, barred: set<string>)
    requires ids != []
  {
    var front, id := ids[..|ids| - 1], ids[|ids| - 1];
    id !in barred && !HasKey(front, SELF, id) && HasKey(RemoveEach(s, key, front), key, id)
  }

  predicate Removable<T>(s: seq<T>, key: T -> string, ids: seq<string>, barred: set<string>) {
    ids != [] ==> Removable(s, key, ids[..|ids| - 1], barred) && RemovesLast(s, key, ids, barred)
  }

  lemma {:induction false} RemovablePrefix<T>(s: seq<T>, key: T -> string, ids: seq<string>, barred: set<string>,
      i: nat)
    requires i <= |ids|
    ensures Removable(s, key, ids, barred) ==> Removable(s, key, ids[..i], barred)
    decreases |ids|
  {
    if i < |ids| {
      assert ids[..|ids| - 1][..i] == ids[..i];
      RemovablePrefix(s, key, ids[..|ids| - 1], barred, i);
    } else {
      assert ids[..i] == ids;
    }
  }

  lemma {:induction false} RemovableKeys<T>(s: seq<T>, key: T -> string, ids: seq<string>, barred: set<string>, i: nat)
    requires Removable(s, key, ids, barred) && i < |ids|
    ensures ids[i] !in barred
  {
    if i < |ids| - 1 {
      RemovableKeys(s, key, ids[..|ids| - 1], barred, i);
    }
  }

  /** Removes one entry, when it is there, is not barred and was not named before. */
  method RemoveOne<T>(s: seq<T>, key: T -> string, ids: seq<string>, barred: set<string>, removed: set<string>,
      rest: seq<T>)
    returns (ok: bool, less: seq<T>)
    requires ids != [] && rest == RemoveEach(s, key, ids[..|ids| - 1]) && removed == Keys(ids[..|ids| - 1], SELF)
    ensures ok <==> RemovesLast(s, key, ids, barred)
    ensures ok ==> less == RemoveEach(s, key, ids)
  {
    var id := ids[|ids| - 1];
    if id in barred || id in removed {
      return false, rest;
    }
    var at := Search(rest, key, id);
    if at == |rest| {
      return false, rest;
    }
    return true, rest[..at] + rest[at + 1..];
  }

  lemma KeysGrow<T>(s: seq<T>, key: T -> string, i: nat)
    requires i < |s|
    ensures Keys(s[..i + 1], key) == Keys(s[..i], key) + {key(s[i])}
  {
    KeysStep(s, key, i);
  }

  method RemoveInPlace<T>(s: seq<T>, key: T -> string, ids: seq<string>, barred: set<string>) returns (ok: bool,
      rest: seq<T>, removed: set<string>)
    ensures ok <==> Removable(s, key, ids, barred)
    ensures ok ==> rest == RemoveEach(s, key, ids) && removed == Keys(ids, SELF)
  {
    removed, rest := {}, s;
    for i := 0 to |ids|
      invariant Removable(s, key, ids[..i], barred) && rest == RemoveEach(s, key, ids[..i])
      invariant removed == Keys(ids[..i], SELF)
    {
      assert ids[..i + 1][..i] == ids[..i];
      var fits, less := RemoveOne(s, key, ids[..i + 1], barred, removed, rest);
      if !fits {
        RemovablePrefix(s, key, ids, barred, i + 1);
        return false, rest, removed;
      }
      KeysGrow(ids, SELF, i);
      removed, rest := removed + {ids[i]}, less;
    }
    assert ids[..|ids|] == ids;
    ok := true;
  }

  method UpsertInPlace<T>(current: seq<T>, key: T -> string, updates: seq<T>) returns (ok: bool, merged: seq<T>,
      seen: set<string>)
    ensures ok <==> Distinct(updates, key)
    ensures ok ==> merged == UpsertAll(current, key, updates) && seen == Keys(updates, key)
  {
    merged, seen := current, {};
    for i := 0 to |updates|
      invariant Good(updates[..i], _ => true, key) && merged == UpsertAll(current, key, updates[..i])
      invariant seen == Keys(updates[..i], key)
    {
      GoodStep(updates, _ => true, key, i);
      KeysGrow(updates, key, i);
      if key(updates[i]) in seen {
        return false, merged, seen;
      }
      seen := seen + {key(updates[i])};
      assert updates[..i + 1][..i] == updates[..i];
      var at := Search(merged, key, key(updates[i]));
      merged := if at < |merged| then merged[at := updates[i]] else merged + [updates[i]];
    }
    assert updates[..|updates|] == updates;
    ok := true;
  }

  lemma {:induction false} RemovingKeeps<T>(items: seq<T>, key: T -> string, ids: seq<string>, i: nat)
    requires i < |items| && !HasKey(ids, SELF, key(items[i]))
    ensures items[i] in RemoveEach(items, key, ids)
  {
    if ids != [] {
      var front, id := ids[..|ids| - 1], ids[|ids| - 1];
      assert SELF(ids[|ids| - 1]) == id;
      KeysStep(ids, SELF, |ids| - 1);
      assert ids[..|ids| - 1 + 1] == ids;
      RemovingKeeps(items, key, front, i);
      var rest := RemoveEach(items, key, front);
      var k := Find(rest, key, id);
      var j :| 0 <= j < |rest| && rest[j] == items[i];
      assert k < |rest| ==> Without(rest, k)[if j < k then j else j - 1] == items[i];
    }
  }

  lemma {:induction false} RemovingOthers<T>(items: seq<T>, key: T -> string, ids: seq<string>, id: string)
    requires HasKey(items, key, id) && !HasKey(ids, SELF, id)
    ensures HasKey(RemoveEach(items, key, ids), key, id)
  {
    var i :| 0 <= i < |items| && key(items[i]) == id;
    RemovingKeeps(items, key, ids, i);
    var k :| 0 <= k < |RemoveEach(items, key, ids)| && RemoveEach(items, key, ids)[k] == items[i];
  }

  lemma {:induction false} UpsertAllApplies<T>(s: seq<T>, key: T -> string, xs: seq<T>, i: nat)
    requires Distinct(xs, key) && i < |xs|
    ensures xs[i] in UpsertAll(s, key, xs)
  {
    var front, x := xs[..|xs| - 1], xs[|xs| - 1];
    var earlier := UpsertAll(s, key, front);
    var at := Find(earlier, key, key(x));
    if i == |xs| - 1 {
      assert Upsert(earlier, key, x)[at] == x;
    } else {
      UpsertAllApplies(s, key, front, i);
      var j :| 0 <= j < |earlier| && earlier[j] == front[i];
      assert Upsert(earlier, key, x)[j] == xs[i];
    }
  }

  lemma {:induction false} UpsertAllInvents<T>(s: seq<T>, key: T -> string, xs: seq<T>, i: nat)
    requires i < |UpsertAll(s, key, xs)|
    ensures UpsertAll(s, key, xs)[i] in s || UpsertAll(s, key, xs)[i] in xs
  {
    if xs != [] {
      var front, x := xs[..|xs| - 1], xs[|xs| - 1];
      var earlier := UpsertAll(s, key, front);
      if i < |earlier| && Upsert(earlier, key, x)[i] == earlier[i] {
        UpsertAllInvents(s, key, front, i);
      } else {
        assert Upsert(earlier, key, x)[i] == x;
      }
    }
  }

  lemma {:induction false} UpsertAllDistinct<T>(s: seq<T>, key: T -> string, xs: seq<T>)
    requires Distinct(s, key)
    ensures Distinct(UpsertAll(s, key, xs), key)
  {
    if xs != [] {
      UpsertAllDistinct(s, key, xs[..|xs| - 1]);
    }
  }

  lemma DropLeaves<T>(s: seq<T>, key: T -> string, id: string, other: string)
    requires Distinct(s, key)
    ensures Distinct(Drop(s, key, id), key) && !HasKey(Drop(s, key, id), key, id)
    ensures HasKey(Drop(s, key, id), key, other) ==> HasKey(s, key, other)
  {
    var k, less := Find(s, key, id), Drop(s, key, id);
    if k < |s| && HasKey(less, key, other) {
      var j :| 0 <= j < |less| && key(less[j]) == other;
      assert key(s[if j < k then j else j + 1]) == other;
    }
  }

  lemma {:induction false} RemovingKeepsDistinct<T>(s: seq<T>, key: T -> string, ids: seq<string>)
    requires Distinct(s, key)
    ensures Distinct(RemoveEach(s, key, ids), key)
  {
    if ids != [] {
      RemovingKeepsDistinct(s, key, ids[..|ids| - 1]);
      DropLeaves(RemoveEach(s, key, ids[..|ids| - 1]), key, ids[|ids| - 1], "");
    }
  }

  lemma {:induction false} RemovedAreGone<T>(s: seq<T>, key: T -> string, ids: seq<string>, i: nat)
    requires Distinct(s, key) && i < |ids|
    ensures !HasKey(RemoveEach(s, key, ids), key, ids[i])
  {
    RemovingKeepsDistinct(s, key, ids[..|ids| - 1]);
    DropLeaves(RemoveEach(s, key, ids[..|ids| - 1]), key, ids[|ids| - 1], ids[i]);
    if i < |ids| - 1 {
      RemovedAreGone(s, key, ids[..|ids| - 1], i);
    }
  }

  lemma {:induction false} RemovingInvents<T>(items: seq<T>, key: T -> string, ids: seq<string>, i: nat)
    requires i < |RemoveEach(items, key, ids)|
    ensures RemoveEach(items, key, ids)[i] in items
  {
    if ids != [] {
      var rest := RemoveEach(items, key, ids[..|ids| - 1]);
      var k := Find(rest, key, ids[|ids| - 1]);
      RemovingInvents(items, key, ids[..|ids| - 1], if k < |rest| && k <= i then i + 1 else i);
    }
  }

  /** Every entry passes a test, and none is repeated. */
  method ScanDistinct<T(==)>(s: seq<T>, test: T -> bool) returns (ok: bool)
    ensures ok <==> All(s, test) && AllDistinct(s)
  {
    var seen: set<T> := {};
    for i := 0 to |s|
      invariant forall x :: x in seen <==> x in s[..i]
      invariant All(s[..i], test) && AllDistinct(s[..i])
    {
      assert s[..i + 1] == s[..i] + [s[i]];
      if !test(s[i]) || s[i] in seen {
        assert s[i] in seen ==> exists k :: 0 <= k < i && s[..i][k] == s[i];
        return false;
      }
      seen := seen + {s[i]};
    }
    assert s[..|s|] == s;
    ok := true;
  }

  /** Rewrites every entry in place, unless one of them fails a test. */
  method RewriteAll<T>(s: seq<T>, test: T -> bool, f: T -> T) returns (ok: bool, r: seq<T>)
    ensures ok <==> All(s, test)
    ensures ok ==> r == Map(f, s)
  {
    r := s;
    for i := 0 to |s|
      invariant |r| == |s|
      invariant forall k :: 0 <= k < i ==> test(s[k]) && r[k] == f(s[k])
      invariant forall k :: i <= k < |s| ==> r[k] == s[k]
    {
      if !test(r[i]) {
        return false, r;
      }
      r := r[i := f(r[i])];
    }
    assert r == Map(f, s);
    ok := true;
  }
}
