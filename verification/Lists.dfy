/** Lists in the compiler: filtering while mapping, stable sorting by a number, and what is found first. */
module Lists {
  import opened Wrappers

  /** The results of `f` on the elements it accepts, in order. */
  function FilterMap<T, U>(s: seq<T>, f: T -> Option<U>): (r: seq<U>)
    ensures |r| <= |s|
  {
    if s == [] then []
    else if f(s[0]).Some? then [f(s[0]).value] + FilterMap(s[1..], f)
    else FilterMap(s[1..], f)
  }

  function CountRejected<T, U>(s: seq<T>, f: T -> Option<U>): nat {
    if s == [] then 0 else (if f(s[0]).None? then 1 else 0) + CountRejected(s[1..], f)
  }

  lemma {:induction false} RejectedAreTheRest<T, U>(s: seq<T>, f: T -> Option<U>)
    ensures |FilterMap(s, f)| + CountRejected(s, f) == |s|
  {
    if s != [] {
      RejectedAreTheRest(s[1..], f);
    }
  }

  lemma {:induction false} FilterMapParts<T, U>(a: seq<T>, b: seq<T>, f: T -> Option<U>)
    ensures FilterMap(a + b, f) == FilterMap(a, f) + FilterMap(b, f)
  {
    if a == [] {
      assert a + b == b;
    } else {
      assert (a + b)[1..] == a[1..] + b;
      FilterMapParts(a[1..], b, f);
    }
  }

  lemma {:induction false} FilterMapEmpty<T(!new), U>(s: seq<T>, f: T -> Option<U>)
    ensures FilterMap(s, f) == [] <==> forall x :: x in s ==> f(x).None?
  {
    if s != [] {
      FilterMapEmpty(s[1..], f);
      assert s == [s[0]] + s[1..];
    }
  }

  /** Go's stable sort by a number: before the first element that is not smaller. */
  function Insert<T>(x: T, s: seq<T>, rank: T -> int): seq<T> {
    if s == [] || rank(x) <= rank(s[0]) then [x] + s else [s[0]] + Insert(x, s[1..], rank)
  }

  function SortBy<T>(s: seq<T>, rank: T -> int): seq<T> {
    if s == [] then [] else Insert(s[0], SortBy(s[1..], rank), rank)
  }

  predicate Sorted<T>(s: seq<T>, rank: T -> int) {
    forall i, j | 0 <= i < j < |s| :: rank(s[i]) <= rank(s[j])
  }

  lemma {:induction false} InsertAddsOne<T>(x: T, s: seq<T>, rank: T -> int)
    ensures multiset(Insert(x, s, rank)) == multiset(s) + multiset{x}
  {
    if s == [] || rank(x) <= rank(s[0]) {
    } else {
      InsertAddsOne(x, s[1..], rank);
      assert s == [s[0]] + s[1..];
    }
  }

  lemma {:induction false} InsertKeepsSorted<T>(x: T, s: seq<T>, rank: T -> int)
    requires Sorted(s, rank)
    ensures Sorted(Insert(x, s, rank), rank)
  {
    if s == [] {
    } else if rank(x) <= rank(s[0]) {
    } else {
      var rest := Insert(x, s[1..], rank);
      InsertKeepsSorted(x, s[1..], rank);
      InsertAddsOne(x, s[1..], rank);
      forall i | 0 <= i < |rest| ensures rank(s[0]) <= rank(rest[i]) {
        assert rest[i] in multiset(rest);
        assert rest[i] == x || rest[i] in s[1..];
      }
    }
  }

  lemma {:induction false} SortByIsSorted<T>(s: seq<T>, rank: T -> int)
    ensures Sorted(SortBy(s, rank), rank)
    ensures multiset(SortBy(s, rank)) == multiset(s)
  {
    if s != [] {
      SortByIsSorted(s[1..], rank);
      InsertKeepsSorted(s[0], SortBy(s[1..], rank), rank);
      InsertAddsOne(s[0], SortBy(s[1..], rank), rank);
      assert s == [s[0]] + s[1..];
    }
  }

  // ---------------------------------------------------------------- what is found first

  /** The first element that satisfies `q`. */
  function First<T>(s: seq<T>, q: T -> bool): Option<T> {
    if s == [] then None else if q(s[0]) then Some(s[0]) else First(s[1..], q)
  }

  /** The element that satisfies `q` with the least (rank, position). */
  function Least<T>(s: seq<T>, q: T -> bool, rank: T -> int): Option<T> {
    if s == [] then None
    else
      var rest := Least(s[1..], q, rank);
      if q(s[0]) && (rest.None? || rank(s[0]) <= rank(rest.value)) then Some(s[0]) else rest
  }

  ghost predicate IsFirst<T>(s: seq<T>, q: T -> bool, r: Option<T>) {
    match r
    case None => forall i :: 0 <= i < |s| ==> !q(s[i])
    case Some(x) => exists i :: 0 <= i < |s| && s[i] == x && q(x) && forall j :: 0 <= j < i ==> !q(s[j])
  }

  ghost predicate LeastAt<T>(s: seq<T>, q: T -> bool, rank: T -> int, i: nat) {
    && i < |s| && q(s[i])
    && forall j :: 0 <= j < |s| && q(s[j]) ==> rank(s[i]) < rank(s[j]) || (rank(s[i]) == rank(s[j]) && i <= j)
  }

  ghost predicate IsLeast<T>(s: seq<T>, q: T -> bool, rank: T -> int, r: Option<T>) {
    match r
    case None => forall i :: 0 <= i < |s| ==> !q(s[i])
    case Some(x) => exists i: nat :: LeastAt(s, q, rank, i) && s[i] == x
  }

  lemma {:induction false} FirstIsFirst<T>(s: seq<T>, q: T -> bool)
    ensures IsFirst(s, q, First(s, q))
  {
    if s == [] {
    } else if q(s[0]) {
      assert 0 <= 0 < |s| && s[0] == First(s, q).value;
    } else {
      FirstIsFirst(s[1..], q);
      match First(s[1..], q)
      case None =>
        forall i | 0 <= i < |s| ensures !q(s[i]) {
          assert i > 0 ==> s[i] == s[1..][i - 1];
        }
      case Some(x) =>
        var i :| 0 <= i < |s[1..]| && s[1..][i] == x && forall j :: 0 <= j < i ==> !q(s[1..][j]);
        assert s[i + 1] == x;
        forall j | 0 <= j < i + 1 ensures !q(s[j]) {
          assert j > 0 ==> s[j] == s[1..][j - 1];
        }
    }
  }

  lemma {:induction false} LeastIsLeast<T>(s: seq<T>, q: T -> bool, rank: T -> int)
    ensures IsLeast(s, q, rank, Least(s, q, rank))
  {
    if s != [] {
      LeastIsLeast(s[1..], q, rank);
      var rest := Least(s[1..], q, rank);
      if rest.None? {
        forall i | 0 < i < |s| ensures !q(s[i]) {
          assert s[i] == s[1..][i - 1];
        }
        assert q(s[0]) ==> LeastAt(s, q, rank, 0);
      } else {
        var i: nat :| LeastAt(s[1..], q, rank, i) && s[1..][i] == rest.value;
        forall j | 0 < j < |s| && q(s[j])
          ensures rank(rest.value) < rank(s[j]) || (rank(rest.value) == rank(s[j]) && i + 1 <= j)
        {
          assert s[j] == s[1..][j - 1];
        }
        assert s[i + 1] == rest.value;
        if Least(s, q, rank) == rest && !(q(s[0]) && rank(s[0]) <= rank(rest.value)) {
          assert LeastAt(s, q, rank, i + 1);
        } else {
          assert LeastAt(s, q, rank, 0);
        }
      }
    }
  }

  lemma {:induction false} FirstOfParts<T>(a: seq<T>, b: seq<T>, q: T -> bool)
    ensures First(a + b, q) == if First(a, q).Some? then First(a, q) else First(b, q)
  {
    if a == [] {
      assert a + b == b;
    } else {
      assert (a + b)[1..] == a[1..] + b;
      FirstOfParts(a[1..], b, q);
    }
  }

  lemma {:induction false} FirstAfterInsert<T>(x: T, s: seq<T>, q: T -> bool, rank: T -> int)
    requires Sorted(s, rank)
    ensures First(Insert(x, s, rank), q)
      == if q(x) && (First(s, q).None? || rank(x) <= rank(First(s, q).value)) then Some(x) else First(s, q)
  {
    if s == [] || rank(x) <= rank(s[0]) {
      assert ([x] + s)[1..] == s;
      FirstIsFirst(s, q);
    } else {
      FirstAfterInsert(x, s[1..], q, rank);
      assert ([s[0]] + Insert(x, s[1..], rank))[1..] == Insert(x, s[1..], rank);
    }
  }

  /** Walking a stably sorted list and stopping at the first hit finds the least by (rank, position). */
  lemma {:induction false} FirstOfSorted<T>(s: seq<T>, q: T -> bool, rank: T -> int)
    ensures First(SortBy(s, rank), q) == Least(s, q, rank)
  {
    if s != [] {
      FirstOfSorted(s[1..], q, rank);
      SortByIsSorted(s[1..], rank);
      FirstAfterInsert(s[0], SortBy(s[1..], rank), q, rank);
    }
  }

  /** Looking for a result of `f` is looking for an element `f` accepts with such a result. */
  lemma {:induction false} FirstOfMapped<T(!new), U(!new)>(s: seq<T>, f: T -> Option<U>, q: U -> bool, p: T -> bool)
    requires forall x :: p(x) <==> f(x).Some? && q(f(x).value)
    ensures First(FilterMap(s, f), q) == if First(s, p).Some? then f(First(s, p).value) else None
  {
    if s != [] {
      FirstOfMapped(s[1..], f, q, p);
      if f(s[0]).Some? {
        assert FilterMap(s, f)[1..] == FilterMap(s[1..], f);
      }
    }
  }

  lemma {:induction false} LeastOfMapped<T(!new), U(!new)>(s: seq<T>, f: T -> Option<U>, q: U -> bool, p: T -> bool, rank: U -> int, rank': T -> int)
    requires forall x :: p(x) <==> f(x).Some? && q(f(x).value)
    requires forall x :: f(x).Some? ==> rank(f(x).value) == rank'(x)
    ensures Least(s, p, rank').Some? ==> p(Least(s, p, rank').value)
    ensures Least(FilterMap(s, f), q, rank) == if Least(s, p, rank').Some? then f(Least(s, p, rank').value) else None
  {
    if s != [] {
      LeastOfMapped(s[1..], f, q, p, rank, rank');
      if f(s[0]).Some? {
        assert FilterMap(s, f)[1..] == FilterMap(s[1..], f);
      }
    }
  }

  // ---------------------------------------------------------------- distinct identifiers

  /** The identifiers of any two elements are apart. */
  predicate ApartBy<T>(s: seq<T>, id: T -> string, apart: (string, string) -> bool) {
    forall i, j | 0 <= i < j < |s| :: apart(id(s[i]), id(s[j]))
  }

  ghost predicate Symmetric(apart: (string, string) -> bool) {
    forall a: string, b: string :: apart(a, b) == apart(b, a)
  }

  lemma {:induction false} MappedIds<T(!new), U(!new)>(s: seq<T>, f: T -> Option<U>, id: T -> string, id': U -> string, apart: (string, string) -> bool)
    requires ApartBy(s, id, apart)
    requires forall x :: f(x).Some? ==> id'(f(x).value) == id(x)
    ensures ApartBy(FilterMap(s, f), id', apart)
    ensures forall u :: u in FilterMap(s, f) ==> exists i :: 0 <= i < |s| && id'(u) == id(s[i])
  {
    if s != [] {
      var rest := FilterMap(s[1..], f);
      assert forall i :: 0 <= i < |s[1..]| ==> s[1..][i] == s[i + 1];
      MappedIds(s[1..], f, id, id', apart);
      forall u | u in FilterMap(s, f) ensures exists i :: 0 <= i < |s| && id'(u) == id(s[i]) {
        if u in rest {
          var i :| 0 <= i < |s[1..]| && id'(u) == id(s[1..][i]);
          assert s[i + 1] == s[1..][i];
        } else {
          assert id'(u) == id(s[0]);
        }
      }
      forall k | 0 <= k < |rest| ensures apart(id(s[0]), id'(rest[k])) {
        assert rest[k] in rest;
        var i :| 0 <= i < |s[1..]| && id'(rest[k]) == id(s[1..][i]);
        assert s[i + 1] == s[1..][i];
      }
    }
  }

  lemma {:induction false} InsertedIds<T>(x: T, s: seq<T>, rank: T -> int, id: T -> string, apart: (string, string) -> bool)
    requires Symmetric(apart) && ApartBy(s, id, apart) && forall i :: 0 <= i < |s| ==> apart(id(x), id(s[i]))
    ensures ApartBy(Insert(x, s, rank), id, apart)
    ensures forall k :: 0 <= k < |Insert(x, s, rank)| ==> Insert(x, s, rank)[k] == x || Insert(x, s, rank)[k] in s
  {
    if s == [] || rank(x) <= rank(s[0]) {
    } else {
      InsertedIds(x, s[1..], rank, id, apart);
    }
  }

  lemma {:induction false} SortedIds<T>(s: seq<T>, rank: T -> int, id: T -> string, apart: (string, string) -> bool)
    requires Symmetric(apart) && ApartBy(s, id, apart)
    ensures ApartBy(SortBy(s, rank), id, apart)
    ensures forall k :: 0 <= k < |SortBy(s, rank)| ==> SortBy(s, rank)[k] in s
  {
    if s != [] {
      var rest := SortBy(s[1..], rank);
      SortedIds(s[1..], rank, id, apart);
      forall i | 0 <= i < |rest| ensures apart(id(s[0]), id(rest[i])) {
        var j :| 0 <= j < |s[1..]| && s[1..][j] == rest[i];
        assert s[j + 1] == rest[i];
      }
      InsertedIds(s[0], rest, rank, id, apart);
    }
  }
}
