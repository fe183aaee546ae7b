/** Shared vocabulary: optional values, results, instants, and small
    sequence utilities (filtering, ordered key enumeration, stable sorting)
    that stand in for the SQL `WHERE`, primary-key order and `ORDER BY`. */
module Base {

  datatype Option<+T> = None | Some(value: T)

  datatype Result<+T, +E> = Ok(value: T) | Err(error: E)

  /** Points in time, as microseconds on one UTC time base. */
  type Instant = int

  const MicrosPerMinute: int := 60_000_000

  /** Python truthiness of an optional string: present and non-empty. */
  predicate Truthy(s: Option<string>) {
    s.Some? && s.value != ""
  }

  /** Python's `a or b` on optional strings. */
  function OrElse(a: Option<string>, b: Option<string>): (r: Option<string>)
    ensures Truthy(a) ==> r == a
    ensures !Truthy(a) ==> r == b
  {
    if Truthy(a) then a else b
  }

  /** Python's `a or b` on optional instants (a datetime is always truthy). */
  function OrElseInstant(a: Option<Instant>, b: Option<Instant>): (r: Option<Instant>)
    ensures a.Some? ==> r == a
    ensures a.None? ==> r == b
  {
    if a.Some? then a else b
  }

  predicate NoDup<T(==)>(s: seq<T>) {
    forall i, j :: 0 <= i < j < |s| ==> s[i] != s[j]
  }

  predicate StrictlyIncreasing(s: seq<nat>) {
    forall i, j :: 0 <= i < j < |s| ==> s[i] < s[j]
  }

  lemma IncreasingNoDup(s: seq<nat>)
    requires StrictlyIncreasing(s)
    ensures NoDup(s)
  {
  }

  /** The elements of `s` that satisfy `p`, in their original order. */
  function Filter<T(==,!new)>(s: seq<T>, p: T -> bool): (r: seq<T>)
    ensures |r| <= |s|
    ensures forall x :: x in r <==> x in s && p(x)
    ensures forall i :: 0 <= i < |r| ==> p(r[i])
    ensures NoDup(s) ==> NoDup(r)
  {
    if s == [] then []
    else
      var rest := Filter(s[1..], p);
      assert forall x :: x in s[1..] ==> x in s;
      if p(s[0]) then
        assert s[0] !in s[1..] ==> s[0] !in rest;
        [s[0]] + rest
      else rest
  }

  lemma {:induction false} FilterIncreasing(s: seq<nat>, p: nat -> bool)
    requires StrictlyIncreasing(s)
    ensures StrictlyIncreasing(Filter(s, p))
  {
    if s != [] {
      FilterIncreasing(s[1..], p);
      var rest := Filter(s[1..], p);
      forall x | x in rest ensures s[0] < x {
        assert x in s[1..];
      }
    }
  }

  /** Filtering a sequence extended by one element (the step of a filtering loop). */
  lemma {:induction false} FilterSnoc<T(!new)>(s: seq<T>, x: T, p: T -> bool)
    ensures Filter(s + [x], p) == Filter(s, p) + (if p(x) then [x] else [])
  {
    if s == [] {
      assert [x][1..] == [];
    } else {
      assert (s + [x])[0] == s[0];
      assert (s + [x])[1..] == s[1..] + [x];
      FilterSnoc(s[1..], x, p);
    }
  }

  /** A prefix one longer is the prefix and the next element. */
  lemma PrefixSnoc<T>(s: seq<T>, k: nat)
    requires k < |s|
    ensures s[..k + 1] == s[..k] + [s[k]]
  {
  }

  /** Dropping the element just appended gives the sequence back. */
  lemma DropLast<T>(s: seq<T>, x: T)
    ensures (s + [x])[..|s|] == s
  {
  }

  /** A sequence with no members is empty. */
  lemma NoMembersEmpty<T>(s: seq<T>)
    requires forall x :: x !in s
    ensures s == []
  {
    forall x ensures multiset(s)[x] == 0 {
      assert x !in s;
    }
    assert multiset(s) == multiset{};
  }

  /** Every element of `s` is counted by exactly one of the two filters. */
  lemma {:induction false} FilterPartition<T(!new)>(s: seq<T>, p: T -> bool)
    ensures |Filter(s, p)| + |Filter(s, x => !p(x))| == |s|
  {
    if s != [] {
      FilterPartition(s[1..], p);
    }
  }

  /** A filter is fully determined by which elements it keeps. */
  lemma {:induction false} FilterCongruent<T(!new)>(s: seq<T>, p: T -> bool, q: T -> bool)
    requires forall x :: x in s ==> (p(x) <==> q(x))
    ensures Filter(s, p) == Filter(s, q)
  {
    if s != [] {
      FilterCongruent(s[1..], p, q);
    }
  }

  /** The keys of `m` below `n`, in ascending order (primary-key order). */
  function KeysBelow<V>(m: map<nat, V>, n: nat): (r: seq<nat>)
    ensures forall k :: k in r <==> k in m && k < n
    ensures forall i :: 0 <= i < |r| ==> r[i] < n
    ensures StrictlyIncreasing(r)
  {
    if n == 0 then []
    else
      var rest := KeysBelow(m, n - 1);
      if n - 1 in m then rest + [n - 1] else rest
  }

  /** A table with autoincrement primary keys: every stored id is below `nextId`. */
  datatype Table<V> = Table(rows: map<nat, V>, nextId: nat) {

    predicate WellFormed() {
      forall k :: k in rows ==> k < nextId
    }

    /** All primary keys, ascending. */
    function Ids(): (r: seq<nat>)
      requires WellFormed()
      ensures forall k :: k in r <==> k in rows
      ensures StrictlyIncreasing(r)
    {
      KeysBelow(rows, nextId)
    }

    /** Insert with the next autoincrement id. */
    function Insert(v: V): (t: Table<V>)
      requires WellFormed()
      ensures t.WellFormed()
      ensures nextId !in rows && t.rows == rows[nextId := v] && t.nextId == nextId + 1
    {
      Table(rows[nextId := v], nextId + 1)
    }

    /** Replace an existing row. */
    function Update(id: nat, v: V): (t: Table<V>)
      requires WellFormed() && id in rows
      ensures t.WellFormed() && t.rows.Keys == rows.Keys
      ensures t.rows == rows[id := v] && t.nextId == nextId
    {
      Table(rows[id := v], nextId)
    }

    /** Delete a row; the id is never reused. */
    function Delete(id: nat): (t: Table<V>)
      requires WellFormed()
      ensures t.WellFormed() && t.rows.Keys == rows.Keys - {id}
      ensures forall k :: k in t.rows ==> t.rows[k] == rows[k]
      ensures t.nextId == nextId
    {
      Table(rows - {id}, nextId)
    }
  }

  /** The rows with the given ids, as (id, row) pairs in the same order. */
  function RowsOf<V(!new)>(rows: map<nat, V>, ids: seq<nat>): (r: seq<(nat, V)>)
    requires forall i :: 0 <= i < |ids| ==> ids[i] in rows
    ensures |r| == |ids|
    ensures forall i :: 0 <= i < |r| ==> r[i] == (ids[i], rows[ids[i]])
    ensures forall p :: p in r <==> p.0 in ids && p.0 in rows && p.1 == rows[p.0]
    ensures NoDup(ids) ==> NoDup(r)
  {
    seq(|ids|, i requires 0 <= i < |ids| => (ids[i], rows[ids[i]]))
  }

  /** `le` relates every pair one way or the other. */
  ghost predicate Total<T(!new)>(le: (T, T) -> bool) {
    forall x, y :: le(x, y) || le(y, x)
  }

  ghost predicate Transitive<T(!new)>(le: (T, T) -> bool) {
    forall x, y, z :: le(x, y) && le(y, z) ==> le(x, z)
  }

  predicate AdjacentSorted<T>(s: seq<T>, le: (T, T) -> bool) {
    forall i :: 0 <= i < |s| - 1 ==> le(s[i], s[i + 1])
  }

  predicate SortedBy<T>(s: seq<T>, le: (T, T) -> bool) {
    forall i, j :: 0 <= i < j < |s| ==> le(s[i], s[j])
  }

  /** Insert `x` before the first element it may precede. */
  function InsertSorted<T(==,!new)>(x: T, s: seq<T>, le: (T, T) -> bool): (r: seq<T>)
    requires Total(le)
    requires AdjacentSorted(s, le)
    ensures |r| == |s| + 1
    ensures multiset(r) == multiset(s) + multiset{x}
    ensures r[0] == x || (s != [] && r[0] == s[0])
    ensures AdjacentSorted(r, le)
  {
    if s == [] then [x]
    else if le(x, s[0]) then [x] + s
    else
      var rest := InsertSorted(x, s[1..], le);
      assert s == [s[0]] + s[1..];
      [s[0]] + rest
  }

  /** A stable insertion sort: the model of an SQL `ORDER BY`. */
  function SortBy<T(==,!new)>(s: seq<T>, le: (T, T) -> bool): (r: seq<T>)
    requires Total(le)
    ensures multiset(r) == multiset(s)
    ensures |r| == |s|
    ensures AdjacentSorted(r, le)
  {
    if s == [] then []
    else
      assert s == [s[0]] + s[1..];
      InsertSorted(s[0], SortBy(s[1..], le), le)
  }

  lemma {:induction false} AdjacentToPairwise<T(!new)>(s: seq<T>, le: (T, T) -> bool)
    requires Transitive(le)
    requires AdjacentSorted(s, le)
    ensures SortedBy(s, le)
  {
    if |s| > 1 {
      AdjacentToPairwise(s[1..], le);
      forall j | 1 <= j < |s| ensures le(s[0], s[j]) {
        if j > 1 {
          assert le(s[1], s[j]) by { assert s[1..][0] == s[1] && s[1..][j - 1] == s[j]; }
        }
      }
      forall i, j | 0 <= i < j < |s| ensures le(s[i], s[j]) {
        if i > 0 {
          assert s[1..][i - 1] == s[i] && s[1..][j - 1] == s[j];
        }
      }
    }
  }

  /** Sorting under a total preorder gives a fully ordered permutation. */
  lemma SortByCorrect<T(!new)>(s: seq<T>, le: (T, T) -> bool)
    requires Total(le) && Transitive(le)
    ensures SortedBy(SortBy(s, le), le)
    ensures multiset(SortBy(s, le)) == multiset(s)
  {
    AdjacentToPairwise(SortBy(s, le), le);
  }

  /** What a listing needs from the sort: the same members, no duplicates
      when there were none, and fully ordered. */
  lemma SortByFacts<T(!new)>(s: seq<T>, le: (T, T) -> bool)
    requires Total(le) && Transitive(le)
    ensures SortedBy(SortBy(s, le), le)
    ensures forall x :: x in SortBy(s, le) <==> x in s
    ensures NoDup(s) ==> NoDup(SortBy(s, le))
  {
    SortByCorrect(s, le);
    var r := SortBy(s, le);
    forall x ensures x in r <==> x in s {
      assert x in r <==> x in multiset(r);
      assert x in s <==> x in multiset(s);
    }
    if NoDup(s) {
      PermutationNoDup(s, r);
    }
  }

  lemma {:induction false} NoDupMultiset<T>(s: seq<T>)
    ensures NoDup(s) <==> forall x :: multiset(s)[x] <= 1
  {
    if s != [] {
      NoDupMultiset(s[1..]);
      assert s == [s[0]] + s[1..];
      assert multiset(s) == multiset{s[0]} + multiset(s[1..]);
      if NoDup(s) {
        assert NoDup(s[1..]) by {
          forall i, j | 0 <= i < j < |s[1..]| ensures s[1..][i] != s[1..][j] {
            assert s[1..][i] == s[i + 1] && s[1..][j] == s[j + 1];
          }
        }
        assert s[0] !in s[1..] by {
          forall k | 0 <= k < |s[1..]| ensures s[1..][k] != s[0] {
            assert s[1..][k] == s[k + 1];
          }
        }
      } else {
        var i, j :| 0 <= i < j < |s| && s[i] == s[j];
        if i == 0 {
          assert s[j] in s[1..] by { assert s[1..][j - 1] == s[j]; }
          assert multiset(s)[s[0]] >= 2;
        } else {
          assert s[1..][i - 1] == s[i] && s[1..][j - 1] == s[j];
          assert !NoDup(s[1..]);
          var x :| multiset(s[1..])[x] > 1;
          assert multiset(s)[x] > 1;
        }
      }
    }
  }

  /** A permutation of a duplicate-free sequence is duplicate-free. */
  lemma PermutationNoDup<T>(s: seq<T>, t: seq<T>)
    requires multiset(s) == multiset(t)
    requires NoDup(s)
    ensures NoDup(t)
  {
    NoDupMultiset(s);
    NoDupMultiset(t);
  }
}
