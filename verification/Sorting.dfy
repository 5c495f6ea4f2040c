/**
 Stable insertion sort as a specification of the sorting library calls the services make, with the
 facts proofs need: it permutes, it sorts, and it leaves a sorted list alone.
 */
module Sorting {
  import opened Text

  function Insert<T>(x: T, s: seq<T>, lt: (T, T) -> bool): seq<T> {
    if s == [] || lt(x, s[0]) then [x] + s else [s[0]] + Insert(x, s[1..], lt)
  }

  /** Inserting from the left keeps equal elements in their arrival order. */
  function Sort<T>(s: seq<T>, lt: (T, T) -> bool): seq<T> {
    if s == [] then [] else Insert(s[|s| - 1], Sort(s[..|s| - 1], lt), lt)
  }

  ghost predicate Sorted<T>(s: seq<T>, lt: (T, T) -> bool) {
    forall i, j :: 0 <= i < j < |s| ==> !lt(s[j], s[i])
  }

  /** Irreflexive, transitive, and with a transitive "not before". */
  ghost predicate StrictWeakOrder<T(!new)>(lt: (T, T) -> bool) {
    && (forall a :: !lt(a, a))
    && (forall a, b, c :: lt(a, b) && lt(b, c) ==> lt(a, c))
    && (forall a, b, c :: !lt(a, b) && !lt(b, c) ==> !lt(a, c))
  }

  lemma NotBeforeEarlier<T(!new)>(lt: (T, T) -> bool, x: T, head: T, y: T)
    requires StrictWeakOrder(lt) && lt(x, head) && !lt(y, head)
    ensures !lt(y, x)
  {
  }

  lemma {:induction false} InsertMultiset<T>(x: T, s: seq<T>, lt: (T, T) -> bool)
    ensures multiset(Insert(x, s, lt)) == multiset(s) + multiset{x}
    ensures |Insert(x, s, lt)| == |s| + 1
  {
    if s != [] && !lt(x, s[0]) {
      InsertMultiset(x, s[1..], lt);
      assert s == [s[0]] + s[1..];
    }
  }

  lemma {:induction false} SortMultiset<T>(s: seq<T>, lt: (T, T) -> bool)
    ensures multiset(Sort(s, lt)) == multiset(s)
    ensures |Sort(s, lt)| == |s|
  {
    if s != [] {
      var init := s[..|s| - 1];
      SortMultiset(init, lt);
      InsertMultiset(s[|s| - 1], Sort(init, lt), lt);
      assert s == init + [s[|s| - 1]];
    }
  }

  lemma TwoPlaces<T>(s: seq<T>, x: T) returns (a: nat, b: nat)
    requires multiset(s)[x] >= 2
    ensures a < b < |s| && s[a] == x && s[b] == x
  {
    assert x in multiset(s);
    a :| 0 <= a < |s| && s[a] == x;
    assert s == s[..a] + [x] + s[a + 1..];
    assert multiset(s) == multiset(s[..a]) + multiset{x} + multiset(s[a + 1..]);
    if x in multiset(s[..a]) {
      var c :| 0 <= c < a && s[c] == x;
      a, b := c, a;
    } else {
      assert x in multiset(s[a + 1..]);
      var c :| 0 <= c < |s[a + 1..]| && s[a + 1..][c] == x;
      b := a + 1 + c;
    }
  }

  /** Two places of a list are two places of any rearrangement of it. */
  lemma PermutedPlaces<T>(s: seq<T>, t: seq<T>, i: nat, j: nat) returns (a: nat, b: nat)
    requires multiset(s) == multiset(t) && i < j < |t|
    ensures a < |s| && b < |s| && a != b && s[a] == t[i] && s[b] == t[j]
  {
    assert t[i] in multiset(t) && t[j] in multiset(t);
    if t[i] == t[j] {
      assert t == t[..i] + [t[i]] + t[i + 1..j] + [t[j]] + t[j + 1..];
      a, b := TwoPlaces(s, t[i]);
    } else {
      assert t[i] in multiset(s) && t[j] in multiset(s);
      a :| 0 <= a < |s| && s[a] == t[i];
      b :| 0 <= b < |s| && s[b] == t[j];
    }
  }

  /** Taking the last element out of a list and out of a rearrangement of it leaves rearrangements. */
  lemma LastTakenOut<T>(a: seq<T>, b: seq<T>, x: T) returns (front: seq<T>, back: seq<T>)
    requires multiset(a) == multiset(b) && a != [] && a[|a| - 1] == x
    ensures b == front + [x] + back && multiset(a[..|a| - 1]) == multiset(front + back)
  {
    assert a == a[..|a| - 1] + [x];
    assert x in multiset(b);
    var i :| 0 <= i < |b| && b[i] == x;
    front, back := b[..i], b[i + 1..];
    assert b == front + [x] + back;
    assert multiset(a[..|a| - 1]) == multiset(a) - multiset{x};
    assert multiset(front + back) == multiset(b) - multiset{x};
  }

  lemma SortMembers<T>(s: seq<T>, lt: (T, T) -> bool)
    ensures forall x :: x in Sort(s, lt) <==> x in s
  {
    SortMultiset(s, lt);
    forall x
      ensures x in Sort(s, lt) <==> x in s
    {
      assert x in Sort(s, lt) <==> x in multiset(Sort(s, lt));
      assert x in s <==> x in multiset(s);
    }
  }

  lemma {:induction false} InsertSorted<T(!new)>(x: T, s: seq<T>, lt: (T, T) -> bool)
    requires StrictWeakOrder(lt) && Sorted(s, lt)
    ensures Sorted(Insert(x, s, lt), lt)
  {
    if s == [] {
    } else if lt(x, s[0]) {
      var r := [x] + s;
      forall i, j | 0 <= i < j < |r|
        ensures !lt(r[j], r[i])
      {
        if i == 0 {
          NotBeforeEarlier(lt, x, s[0], s[j - 1]);
        }
      }
    } else {
      var rest := Insert(x, s[1..], lt);
      InsertSorted(x, s[1..], lt);
      InsertMultiset(x, s[1..], lt);
      var r := [s[0]] + rest;
      forall i, j | 0 <= i < j < |r|
        ensures !lt(r[j], r[i])
      {
        if i == 0 {
          assert rest[j - 1] in multiset(rest);
          assert rest[j - 1] == x || rest[j - 1] in s[1..];
        }
      }
    }
  }

  lemma {:induction false} SortSorted<T(!new)>(s: seq<T>, lt: (T, T) -> bool)
    requires StrictWeakOrder(lt)
    ensures Sorted(Sort(s, lt), lt)
  {
    if s != [] {
      SortSorted(s[..|s| - 1], lt);
      InsertSorted(s[|s| - 1], Sort(s[..|s| - 1], lt), lt);
    }
  }

  lemma {:induction false} InsertAtEnd<T>(x: T, s: seq<T>, lt: (T, T) -> bool)
    requires forall i :: 0 <= i < |s| ==> !lt(x, s[i])
    ensures Insert(x, s, lt) == s + [x]
  {
    if s != [] {
      InsertAtEnd(x, s[1..], lt);
    }
  }

  lemma {:induction false} SortOfSorted<T>(s: seq<T>, lt: (T, T) -> bool)
    requires Sorted(s, lt)
    ensures Sort(s, lt) == s
  {
    if s != [] {
      var init := s[..|s| - 1];
      SortOfSorted(init, lt);
      InsertAtEnd(s[|s| - 1], init, lt);
    }
  }

  // ---------- Sorting strings ----------

  function StringOrder(): (string, string) -> bool {
    (a, b) => Before(a, b)
  }

  function SortStrings(s: seq<string>): seq<string> {
    Sort(s, StringOrder())
  }

  lemma BeforeIsStrictWeak(a: string, b: string, c: string)
    ensures !Before(a, a)
    ensures Before(a, b) && Before(b, c) ==> Before(a, c)
    ensures !Before(a, b) && !Before(b, c) ==> !Before(a, c)
  {
    BeforeIrreflexive(a);
    if Before(a, b) && Before(b, c) {
      BeforeTransitive(a, b, c);
    }
    if !Before(a, b) && !Before(b, c) && Before(a, c) {
      BeforeTotal(b, c);
      BeforeTotal(a, b);
      if Before(c, b) {
        BeforeTransitive(a, c, b);
      }
    }
  }

  /** Ordering by a string key is a strict weak order. */
  lemma KeyOrderIsStrictWeak<T(!new)>(key: T -> string, lt: (T, T) -> bool)
    requires forall a, b :: lt(a, b) <==> Before(key(a), key(b))
    ensures StrictWeakOrder(lt)
  {
    forall a, b, c
      ensures !lt(a, a)
      ensures lt(a, b) && lt(b, c) ==> lt(a, c)
      ensures !lt(a, b) && !lt(b, c) ==> !lt(a, c)
    {
      BeforeIsStrictWeak(key(a), key(b), key(c));
    }
  }

  predicate NoRepeats<T(==)>(s: seq<T>) {
    forall i, j :: 0 <= i < j < |s| ==> s[i] != s[j]
  }

  lemma StringOrderIsStrictWeak()
    ensures StrictWeakOrder(StringOrder())
  {
    KeyOrderIsStrictWeak((s: string) => s, StringOrder());
  }

  lemma NoRepeatsPermute<T>(s: seq<T>, t: seq<T>)
    requires NoRepeats(s) && multiset(s) == multiset(t)
    ensures NoRepeats(t)
  {
    forall i, j | 0 <= i < j < |t|
      ensures t[i] != t[j]
    {
      var a, b := PermutedPlaces(s, t, i, j);
      assert a < b || b < a;
    }
  }

  /** A set of strings has one sorted listing. */
  lemma {:induction false} SortedListingIsUnique(s: seq<string>, t: seq<string>)
    requires Sorted(s, StringOrder()) && Sorted(t, StringOrder()) && NoRepeats(s) && NoRepeats(t)
    requires forall x :: x in s <==> x in t
    ensures s == t
  {
    assert s != [] ==> s[0] in t;
    assert t != [] ==> t[0] in s;
    if s != [] {
      FirstIsLeast(s, t[0]);
      FirstIsLeast(t, s[0]);
      BeforeTotal(s[0], t[0]);
      forall x
        ensures x in s[1..] <==> x in t[1..]
      {
        assert x in s <==> x == s[0] || x in s[1..];
        assert x in t <==> x == t[0] || x in t[1..];
      }
      SortedListingIsUnique(s[1..], t[1..]);
    }
  }

  lemma FirstIsLeast(s: seq<string>, x: string)
    requires Sorted(s, StringOrder()) && x in s
    ensures !Before(x, s[0])
  {
    BeforeIrreflexive(x);
    var i :| 0 <= i < |s| && s[i] == x;
    assert i > 0 ==> !StringOrder()(s[i], s[0]);
  }

  /** Listings of one set in any order sort to the same list. */
  lemma SortingIgnoresListingOrder(s: seq<string>, t: seq<string>)
    requires NoRepeats(s) && NoRepeats(t) && forall x :: x in s <==> x in t
    ensures SortStrings(s) == SortStrings(t)
  {
    StringOrderIsStrictWeak();
    SortSorted(s, StringOrder());
    SortSorted(t, StringOrder());
    SortMultiset(s, StringOrder());
    SortMultiset(t, StringOrder());
    SortMembers(s, StringOrder());
    SortMembers(t, StringOrder());
    NoRepeatsPermute(s, SortStrings(s));
    NoRepeatsPermute(t, SortStrings(t));
    SortedListingIsUnique(SortStrings(s), SortStrings(t));
  }

  /** The distinct non-blank values, trimmed and sorted. */
  function UniqueSorted(u: Unicode, values: seq<string>): seq<string> {
    SortStrings(UniqueNonEmpty(u, values))
  }

  lemma {:induction false} UniqueHasNoRepeats(u: Unicode, values: seq<string>)
    ensures NoRepeats(UniqueNonEmpty(u, values))
  {
    if values != [] {
      UniqueHasNoRepeats(u, values[..|values| - 1]);
    }
  }

  /** Each of a list's values that is not blank, trimmed, once and in order. */
  /** What comes of a list: its values that are not blank, trimmed. */
  lemma UniqueValues(u: Unicode, values: seq<string>, a: string)
    ensures a in UniqueNonEmpty(u, values) <==> a != "" && exists x :: x in values && u.Trim(x) == a
  {
    UniqueMembers(u, values);
  }

  lemma UniqueSortedListing(u: Unicode, values: seq<string>)
    ensures var r := UniqueSorted(u, values);
            && Sorted(r, StringOrder()) && NoRepeats(r)
            && forall a :: a in r <==> a != "" && exists x :: x in values && u.Trim(x) == a
  {
    hide Sort;
    var unique := UniqueNonEmpty(u, values);
    UniqueHasNoRepeats(u, values);
    StringOrderIsStrictWeak();
    SortSorted(unique, StringOrder());
    SortMembers(unique, StringOrder());
    SortMultiset(unique, StringOrder());
    NoRepeatsPermute(unique, UniqueSorted(u, values));
    forall a
      ensures a in UniqueSorted(u, values) <==> a != "" && exists x :: x in values && u.Trim(x) == a
    {
      UniqueValues(u, values, a);
    }
  }

  /** The sorted listing of a set. */
  ghost function Listing(s: set<string>): (r: seq<string>)
    ensures NoRepeats(r) && Sorted(r, StringOrder())
    ensures forall x :: x in r <==> x in s
  {
    if s == {} then []
    else
      var x :| x in s;
      var r := Listing(s - {x}) + [x];
      StringOrderIsStrictWeak();
      SortSorted(r, StringOrder());
      SortMembers(r, StringOrder());
      SortMultiset(r, StringOrder());
      NoRepeatsPermute(r, SortStrings(r));
      SortStrings(r)
  }

  /** The keys of a map come in an arbitrary order; sorting them makes the listing the only possible one. */
  method SortedKeys(keys: set<string>) returns (listed: seq<string>)
    ensures listed == Listing(keys)
  {
    listed := [];
    var todo := keys;
    while todo != {}
      invariant todo <= keys && NoRepeats(listed)
      invariant forall s :: s in listed <==> s in keys - todo
      decreases |todo|
    {
      var s :| s in todo;
      assert s !in listed;
      todo := todo - {s};
      listed := listed + [s];
    }
    StringOrderIsStrictWeak();
    SortSorted(listed, StringOrder());
    SortMembers(listed, StringOrder());
    SortMultiset(listed, StringOrder());
    NoRepeatsPermute(listed, SortStrings(listed));
    listed := SortStrings(listed);
    SortedListingIsUnique(listed, Listing(keys));
  }
}
