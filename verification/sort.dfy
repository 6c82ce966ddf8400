/** The sort stage: sortUsers orders a copy of the filtered records by the
    selected key, always ascending. Array.prototype.sort is stable, so it is
    modelled by a stable insertion sort over the same comparator. */
module Sorting {
  import opened Text
  import opened Records

  /** The comparator passed to sort: negative when `a` goes first. Names and
      countries use LexCompare in place of localeCompare; ages subtract; an
      unknown key compares everything equal. */
  function Compare(a: User, b: User, sortBy: string): (r: int)
    ensures sortBy == "name" ==> (r == 0 <==> FullName(a) == FullName(b))
    ensures sortBy == "age" ==> (r < 0 <==> a.age < b.age) && (r == 0 <==> a.age == b.age)
    ensures sortBy == "location" ==> (r == 0 <==> a.country == b.country)
    ensures sortBy !in {"name", "age", "location"} ==> r == 0
  {
    if sortBy == "name" then LexCompare(FullName(a), FullName(b))
    else if sortBy == "age" then a.age - b.age
    else if sortBy == "location" then LexCompare(a.country, b.country)
    else 0
  }

  /** `a` may stand before `b` in the sorted output. */
  predicate InOrder(a: User, b: User, sortBy: string)
  {
    Compare(a, b, sortBy) <= 0
  }

  /** Records the comparator cannot tell apart. */
  predicate SameKey(a: User, b: User, sortBy: string)
  {
    Compare(a, b, sortBy) == 0
  }

  /** Any two records are in order one way or the other. */
  lemma InOrderTotal(a: User, b: User, sortBy: string)
    ensures InOrder(a, b, sortBy) || InOrder(b, a, sortBy)
    ensures !InOrder(a, b, sortBy) ==> !SameKey(b, a, sortBy)
  {
    if sortBy == "name" {
      LexCompareAntisymmetric(FullName(a), FullName(b));
    } else if sortBy == "location" {
      LexCompareAntisymmetric(a.country, b.country);
    }
  }

  lemma InOrderTransitive(a: User, b: User, c: User, sortBy: string)
    requires InOrder(a, b, sortBy) && InOrder(b, c, sortBy)
    ensures InOrder(a, c, sortBy)
  {
    if sortBy == "name" {
      LexCompareTransitive(FullName(a), FullName(b), FullName(c));
    } else if sortBy == "location" {
      LexCompareTransitive(a.country, b.country, c.country);
    }
  }

  /** SameKey is an equivalence: reflexive, symmetric and transitive. */
  lemma SameKeyEquivalence(a: User, b: User, c: User, sortBy: string)
    ensures SameKey(a, a, sortBy)
    ensures SameKey(a, b, sortBy) ==> SameKey(b, a, sortBy)
    ensures SameKey(a, b, sortBy) && SameKey(b, c, sortBy) ==> SameKey(a, c, sortBy)
  {
  }

  /** Adjacent records are in order. */
  ghost predicate Sorted(s: seq<User>, sortBy: string)
  {
    forall i :: 0 <= i < |s| - 1 ==> InOrder(s[i], s[i + 1], sortBy)
  }

  /** Inserts `x` in front of the first record it may precede. */
  function Insert(x: User, s: seq<User>, sortBy: string): (r: seq<User>)
    ensures multiset(r) == multiset(s) + multiset{x}
    ensures |r| == |s| + 1
    ensures r[0] == x || (s != [] && r[0] == s[0])
    ensures Sorted(s, sortBy) ==> Sorted(r, sortBy)
  {
    if s == [] then [x]
    else if InOrder(x, s[0], sortBy) then [x] + s
    else
      InOrderTotal(x, s[0], sortBy);
      assert s == [s[0]] + s[1..];
      [s[0]] + Insert(x, s[1..], sortBy)
  }

  /** sortUsers: a sorted permutation of `users`; the argument itself is a
      value and is left as it was. */
  function SortUsers(users: seq<User>, sortBy: string): (r: seq<User>)
    ensures multiset(r) == multiset(users)
    ensures |r| == |users|
    ensures Sorted(r, sortBy)
  {
    if users == [] then []
    else
      assert users == [users[0]] + users[1..];
      Insert(users[0], SortUsers(users[1..], sortBy), sortBy)
  }

  /** Adjacent order extends to every pair: a record never sorts after one
      to its right. */
  lemma {:induction false} SortedPairwise(s: seq<User>, sortBy: string, i: int, j: int)
    requires Sorted(s, sortBy)
    requires 0 <= i < j < |s|
    ensures InOrder(s[i], s[j], sortBy)
    decreases j - i
  {
    if i + 1 < j {
      SortedPairwise(s, sortBy, i + 1, j);
      InOrderTransitive(s[i], s[i + 1], s[j], sortBy);
    }
  }

  /** Under key "age" ages never decrease along the output. */
  lemma SortByAgeAscending(users: seq<User>)
    ensures forall i :: 0 <= i < |users| - 1 ==>
              SortUsers(users, "age")[i].age <= SortUsers(users, "age")[i + 1].age
  {
    var r := SortUsers(users, "age");
    forall i | 0 <= i < |users| - 1
      ensures r[i].age <= r[i + 1].age
    {
      assert InOrder(r[i], r[i + 1], "age");
    }
  }

  /** An unknown key leaves the order as it was. */
  lemma {:induction false} SortUnknownKeyKeepsOrder(users: seq<User>, sortBy: string)
    requires sortBy !in {"name", "age", "location"}
    ensures SortUsers(users, sortBy) == users
  {
    if users != [] {
      SortUnknownKeyKeepsOrder(users[1..], sortBy);
      assert users == [users[0]] + users[1..];
    }
  }

  /** The records of `s` with the same key as `x`, in their order. */
  function SameKeyAs(s: seq<User>, x: User, sortBy: string): seq<User>
  {
    if s == [] then []
    else (if SameKey(s[0], x, sortBy) then [s[0]] else []) + SameKeyAs(s[1..], x, sortBy)
  }

  /** SameKeyAs of a list with one record in front. */
  lemma SameKeyAsCons(a: User, s: seq<User>, x: User, sortBy: string)
    ensures SameKeyAs([a] + s, x, sortBy)
            == (if SameKey(a, x, sortBy) then [a] else []) + SameKeyAs(s, x, sortBy)
  {
    assert ([a] + s)[0] == a && ([a] + s)[1..] == s;
  }

  /** A record that `y` is placed after never shares the key of a record
      `y` ranks equal to. */
  lemma PassedRecordHasOtherKey(y: User, e: User, x: User, sortBy: string)
    requires SameKey(y, x, sortBy) && !InOrder(y, e, sortBy)
    ensures !SameKey(e, x, sortBy)
  {
    InOrderTotal(y, e, sortBy);
    SameKeyEquivalence(e, x, y, sortBy);
    SameKeyEquivalence(x, y, e, sortBy);
  }

  /** The step past a record that `y` does not precede: that record keeps
      its place in front, and `y`'s key class is unaffected by it. */
  lemma InsertSameKeyStep(y: User, e: User, rest: seq<User>, tail: seq<User>, x: User, sortBy: string)
    requires !InOrder(y, e, sortBy)
    requires SameKeyAs(tail, x, sortBy)
             == (if SameKey(y, x, sortBy) then [y] else []) + SameKeyAs(rest, x, sortBy)
    ensures SameKeyAs([e] + tail, x, sortBy)
            == (if SameKey(y, x, sortBy) then [y] else []) + SameKeyAs([e] + rest, x, sortBy)
  {
    SameKeyAsCons(e, tail, x, sortBy);
    SameKeyAsCons(e, rest, x, sortBy);
    if SameKey(y, x, sortBy) {
      PassedRecordHasOtherKey(y, e, x, sortBy);
    }
  }

  /** Insertion places a record ahead of every record with its key. */
  lemma {:induction false} InsertSameKey(y: User, s: seq<User>, x: User, sortBy: string)
    ensures SameKeyAs(Insert(y, s, sortBy), x, sortBy)
            == (if SameKey(y, x, sortBy) then [y] else []) + SameKeyAs(s, x, sortBy)
  {
    if s == [] {
      SameKeyAsCons(y, [], x, sortBy);
    } else if InOrder(y, s[0], sortBy) {
      SameKeyAsCons(y, s, x, sortBy);
    } else {
      InsertSameKey(y, s[1..], x, sortBy);
      InsertSameKeyStep(y, s[0], s[1..], Insert(y, s[1..], sortBy), x, sortBy);
      assert s == [s[0]] + s[1..];
    }
  }

  /** Stability: records with equal keys keep their relative order. */
  lemma {:induction false} SortIsStable(users: seq<User>, x: User, sortBy: string)
    ensures SameKeyAs(SortUsers(users, sortBy), x, sortBy) == SameKeyAs(users, x, sortBy)
  {
    if users != [] {
      SortIsStable(users[1..], x, sortBy);
      InsertSameKey(users[0], SortUsers(users[1..], sortBy), x, sortBy);
    }
  }
}
