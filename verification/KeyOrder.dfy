/** Strings in ascending order, and the one way to list a set of them in it. */
module KeyOrder {

  predicate Before(a: string, b: string) {
    b != "" && (a == "" || a[0] < b[0] || (a[0] == b[0] && Before(a[1..], b[1..])))
  }

  lemma {:induction false} BeforeIsTotal(a: string, b: string)
    ensures a == b || Before(a, b) || Before(b, a)
    ensures !(Before(a, b) && Before(b, a)) && (a == b ==> !Before(a, b))
  {
    if a != "" && b != "" {
      BeforeIsTotal(a[1..], b[1..]);
      assert a[0] == b[0] && a[1..] == b[1..] ==> a == [a[0]] + a[1..] == b;
    }
  }

  lemma {:induction false} BeforeIsTransitive(a: string, b: string, c: string)
    requires Before(a, b) && Before(b, c)
    ensures Before(a, c)
  {
    if a != "" && a[0] == b[0] == c[0] {
      BeforeIsTransitive(a[1..], b[1..], c[1..]);
    }
  }

  /** Everything in the list comes after a key. */
  ghost predicate AllAfter(first: string, s: seq<string>) {
    forall k :: k in multiset(s) ==> Before(first, k)
  }

  ghost predicate Ascending(s: seq<string>) {
    s == [] || (AllAfter(s[0], s[1..]) && Ascending(s[1..]))
  }

  ghost predicate IsListing(s: seq<string>, keys: set<string>) {
    Ascending(s) && forall k :: k in keys <==> k in multiset(s)
  }

  lemma Split(s: seq<string>)
    requires s != []
    ensures multiset(s) == multiset{s[0]} + multiset(s[1..])
  {
    assert s == [s[0]] + s[1..];
  }

  lemma RestLists(s: seq<string>, keys: set<string>)
    requires IsListing(s, keys) && s != []
    ensures s[0] in keys && IsListing(s[1..], keys - {s[0]})
  {
    Split(s);
    BeforeIsTotal(s[0], s[0]);
  }

  /** The first entry is the least. */
  lemma FirstIsLeast(s: seq<string>, keys: set<string>, k: string)
    requires IsListing(s, keys) && k in keys
    ensures s != [] && (s[0] == k || Before(s[0], k))
  {
    Split(s);
  }

  /** There is only one way to list a set in ascending order. */
  lemma {:induction false} ListingIsUnique(s: seq<string>, t: seq<string>, keys: set<string>)
    requires IsListing(s, keys) && IsListing(t, keys)
    ensures s == t
    decreases |s|
  {
    if s == [] {
      if t != [] {
        RestLists(t, keys);
        assert false;
      }
    } else {
      RestLists(s, keys);
      FirstIsLeast(t, keys, s[0]);
      RestLists(t, keys);
      FirstIsLeast(s, keys, t[0]);
      BeforeIsTotal(s[0], t[0]);
      ListingIsUnique(s[1..], t[1..], keys - {s[0]});
      assert s == [s[0]] + s[1..] && t == [t[0]] + t[1..];
    }
  }

  function Insert(s: seq<string>, k: string): (r: seq<string>)
    ensures multiset(r) == multiset(s) + multiset{k}
  {
    if s == [] then [k]
    else if Before(k, s[0]) then [k] + s
    else
      assert s == [s[0]] + s[1..];
      [s[0]] + Insert(s[1..], k)
  }

  lemma {:induction false} InsertAscends(s: seq<string>, k: string)
    requires Ascending(s) && k !in multiset(s)
    ensures Ascending(Insert(s, k))
  {
    if s == [] {
      assert [k][1..] == [];
    } else {
      Split(s);
      if Before(k, s[0]) {
        forall x | x in multiset(s) ensures Before(k, x) {
          if x != s[0] {
            BeforeIsTransitive(k, s[0], x);
          }
        }
        assert ([k] + s)[1..] == s;
      } else {
        BeforeIsTotal(k, s[0]);
        InsertAscends(s[1..], k);
        assert Insert(s, k)[1..] == Insert(s[1..], k);
      }
    }
  }

  lemma InsertLists(s: seq<string>, keys: set<string>, k: string)
    requires IsListing(s, keys) && k !in keys
    ensures IsListing(Insert(s, k), keys + {k})
  {
    InsertAscends(s, k);
  }

  lemma {:induction false} ListingExists(keys: set<string>) returns (s: seq<string>)
    ensures IsListing(s, keys)
    decreases |keys|
  {
    s := [];
    if keys != {} {
      var k :| k in keys;
      var rest := ListingExists(keys - {k});
      InsertLists(rest, keys - {k}, k);
      assert keys - {k} + {k} == keys;
      s := Insert(rest, k);
    }
  }

  lemma SomeListing(keys: set<string>)
    ensures exists s :: IsListing(s, keys)
  {
    var s := ListingExists(keys);
  }

  /** The set in ascending order. */
  ghost function Listing(keys: set<string>): (s: seq<string>)
    ensures IsListing(s, keys)
  {
    SomeListing(keys);
    var s :| IsListing(s, keys);
    s
  }

  method SortKeys(keys: set<string>) returns (s: seq<string>)
    ensures s == Listing(keys)
  {
    var left := keys;
    s := [];
    while left != {}
      invariant left <= keys && IsListing(s, keys - left)
      decreases |left|
    {
      var k :| k in left;
      InsertLists(s, keys - left, k);
      assert keys - left + {k} == keys - (left - {k});
      s, left := Insert(s, k), left - {k};
    }
    assert keys - left == keys;
    ListingIsUnique(s, Listing(keys), keys);
  }

  /** After a common front one string ends, or has the smaller character. */
  ghost predicate DiffersAt(a: string, b: string, k: int) {
    0 <= k <= |a| && k < |b| && a[..k] == b[..k] && (k == |a| || a[k] < b[k])
  }

  lemma FirstIsShared(a: string, b: string, k: int)
    requires 0 <= k <= |a| && k <= |b| && a[..k] == b[..k]
    ensures k > 0 ==> a[0] == b[0]
  {
    if k > 0 { assert a[..k][0] == a[0] && b[..k][0] == b[0]; }
  }

  lemma {:induction false} BeforeIsLexicographic(a: string, b: string)
    ensures Before(a, b) <==> exists k :: DiffersAt(a, b, k)
  {
    if b != "" && (a == "" || a[0] < b[0]) {
      assert DiffersAt(a, b, 0);
    } else if a != "" && b != "" && a[0] == b[0] {
      BeforeIsLexicographic(a[1..], b[1..]);
      if k :| DiffersAt(a[1..], b[1..], k) {
        assert a[..k + 1] == [a[0]] + a[1..][..k] && b[..k + 1] == [b[0]] + b[1..][..k];
        assert DiffersAt(a, b, k + 1);
      }
      if k :| DiffersAt(a, b, k) {
        assert a[1..][..k - 1] == a[..k][1..] && b[1..][..k - 1] == b[..k][1..];
        assert DiffersAt(a[1..], b[1..], k - 1);
      }
    } else if a != "" && b != "" {
      forall k | DiffersAt(a, b, k) ensures k == 0 {
        FirstIsShared(a, b, k);
      }
    }
  }
}
