/** Result types and error kinds shared by the repositories and the services.
    The Java code signals failure by throwing; here every failure is a value. */
module Common {

  datatype Option<+T> = None | Some(value: T)

  /** The error kinds of the application.
      - DataAccess: the repository-level "no such id" failure (DataAccessException).
      - TransientDataAccess: a retry-eligible store failure (TransientDataAccessException).
      - ResourceNotFound, OperationFailed: the public failures of the services; the REST
        layer answers them with 404 and 500 respectively. */
  datatype Error = DataAccess | TransientDataAccess | ResourceNotFound | OperationFailed

  /** Value or error of an operation that returns something. */
  datatype Result<+T> = Ok(value: T) | Err(error: Error)

  /** Outcome of an operation that returns nothing (a Java `void` method). */
  datatype Outcome = Pass | Fail(error: Error)

  /** The services' `catch (DataAccessException e) { throw new ResourceNotFoundException(...) }`:
      a repository-level DataAccess failure becomes ResourceNotFound, anything else passes through. */
  function ToResourceNotFound<T>(r: Result<T>): (t: Result<T>)
    ensures t.Ok? <==> r.Ok?
    ensures r.Ok? ==> t == r
    ensures r.Err? ==> t.error != DataAccess
    ensures r == Err(DataAccess) ==> t == Err(ResourceNotFound)
    ensures r.Err? && r.error != DataAccess ==> t == r
  {
    match r
    case Ok(_) => r
    case Err(e) => Err(if e == DataAccess then ResourceNotFound else e)
  }

  /** The same translation for operations without a value. */
  function OutcomeToResourceNotFound(o: Outcome): (t: Outcome)
    ensures t.Pass? <==> o.Pass?
    ensures o.Fail? ==> t.error != DataAccess
    ensures o == Fail(DataAccess) ==> t == Fail(ResourceNotFound)
    ensures o.Fail? && o.error != DataAccess ==> t == o
  {
    match o
    case Pass => Pass
    case Fail(e) => Fail(if e == DataAccess then ResourceNotFound else e)
  }

  /** No value occurs twice in `s`. */
  ghost predicate Distinct<T>(s: seq<T>) {
    forall i, j :: 0 <= i < j < |s| ==> s[i] != s[j]
  }

  /** `r` is a copy of the values of `m` in some order: every value once, nothing else.
      This is what `new ArrayList<>(store.values())` returns. */
  ghost predicate IsSnapshot<K, V>(r: seq<V>, m: map<K, V>) {
    && |r| == |m|
    && Distinct(r)
    && (forall i :: 0 <= i < |r| ==> r[i] in m.Values)
    && (forall k :: k in m ==> m[k] in r)
  }

  /** A sequence without repetitions holds each of its elements exactly once. */
  lemma {:induction false} DistinctCounts<T>(s: seq<T>, x: T)
    requires Distinct(s)
    ensures multiset(s)[x] == if x in s then 1 else 0
  {
    if s != [] {
      var init := s[..|s| - 1];
      assert s == init + [s[|s| - 1]];
      assert Distinct(init) by {
        forall i, j | 0 <= i < j < |init| ensures init[i] != init[j] {
          assert init[i] == s[i] && init[j] == s[j];
        }
      }
      DistinctCounts(init, x);
      assert s[|s| - 1] !in init by {
        forall i | 0 <= i < |init| ensures init[i] != s[|s| - 1] {
          assert init[i] == s[i];
        }
      }
      assert multiset(s) == multiset(init) + multiset{s[|s| - 1]};
      assert x in s <==> x in init || x == s[|s| - 1];
    }
  }

  /** A snapshot has exactly the values of the map as its multiset: no value is lost or duplicated. */
  lemma SnapshotIsValueMultiset<K, V>(r: seq<V>, m: map<K, V>)
    requires IsSnapshot(r, m)
    ensures multiset(r) == multiset(m.Values)
  {
    forall x ensures multiset(r)[x] == multiset(m.Values)[x] {
      DistinctCounts(r, x);
      if x in m.Values {
        var k :| k in m && m[k] == x;
        assert x in r;
      }
    }
  }

  /** Some element of a non-empty set. Naming one as a ghost value gives the verifier the
      witness it needs for a `var k :| k in s` choice inside a loop with rich invariants. */
  ghost function PickOne<T>(s: set<T>): (x: T)
    requires s != {}
    ensures x in s
  {
    var x :| x in s; x
  }
}
