/**
 * The framework's service registry: registrations per bundle, service ids,
 * per-bundle usage counts with the cached service object, the guard
 * against re-entrant get/unget on a registration, the lookup of
 * references, the hook arrays and the chain of service listeners.
 *
 * Bundles, threads, service objects and listeners are identified by
 * numbers; a registration by its service id.
 */
module Registry {
  import opened Common

  type Bundle = nat
  type ServiceId = nat
  type Thread = nat
  type Obj = nat

  // ---------------------------------------------------------------------
  // Removing an entry from an array
  // ---------------------------------------------------------------------

  /** No two elements of `xs` have the same key. */
  predicate DistinctBy<T, K(==)>(xs: seq<T>, key: T -> K)
  {
    forall i, j :: 0 <= i < j < |xs| ==> key(xs[i]) != key(xs[j])
  }

  predicate HasKey<T, K(==)>(xs: seq<T>, key: T -> K, k: K)
  {
    exists i :: 0 <= i < |xs| && key(xs[i]) == k
  }

  /** `xs` without the elements whose key is `k`, the others in order. */
  function Without<T, K(==)>(xs: seq<T>, key: T -> K, k: K): (r: seq<T>)
    ensures |r| <= |xs|
    ensures forall j :: 0 <= j < |r| ==> key(r[j]) != k
    ensures forall j :: 0 <= j < |r| ==> r[j] in xs
    decreases |xs|
  {
    if xs == [] then []
    else (if key(xs[0]) == k then [] else [xs[0]]) + Without(xs[1..], key, k)
  }

  lemma {:induction false} WithoutAbsent<T, K>(xs: seq<T>, key: T -> K, k: K)
    requires !HasKey(xs, key, k)
    ensures Without(xs, key, k) == xs
    decreases |xs|
  {
    if xs != [] {
      assert key(xs[0]) != k;
      assert !HasKey(xs[1..], key, k) by {
        forall j | 0 <= j < |xs| - 1 ensures key(xs[1..][j]) != k {
          assert xs[1..][j] == xs[j + 1];
        }
      }
      WithoutAbsent(xs[1..], key, k);
      assert [xs[0]] + xs[1..] == xs;
    }
  }

  /** With distinct keys, Without drops just the one element that has the key. */
  lemma {:induction false} WithoutAt<T, K>(xs: seq<T>, key: T -> K, k: K, i: nat)
    requires i < |xs| && key(xs[i]) == k && DistinctBy(xs, key)
    ensures Without(xs, key, k) == xs[..i] + xs[i + 1..]
    decreases i
  {
    var rest := xs[1..];
    assert DistinctBy(rest, key) by {
      forall a, b | 0 <= a < b < |rest| ensures key(rest[a]) != key(rest[b]) {
        assert rest[a] == xs[a + 1] && rest[b] == xs[b + 1];
      }
    }
    if i == 0 {
      assert !HasKey(rest, key, k) by {
        forall j | 0 <= j < |rest| ensures key(rest[j]) != k {
          assert rest[j] == xs[j + 1];
        }
      }
      WithoutAbsent(rest, key, k);
    } else {
      assert key(xs[0]) != k;
      assert rest[i - 1] == xs[i];
      WithoutAt(rest, key, k, i - 1);
      assert [xs[0]] + (rest[..i - 1] + rest[i..]) == xs[..i] + xs[i + 1..];
    }
  }

  /** With distinct keys, taking out the element with the key leaves none with it. */
  lemma OnlyOneWithKey<T, K>(xs: seq<T>, key: T -> K, k: K, i: nat)
    requires i < |xs| && key(xs[i]) == k && DistinctBy(xs, key)
    ensures forall y :: y in xs[..i] + xs[i + 1..] ==> key(y) != k
  {
    var rest := xs[..i] + xs[i + 1..];
    forall j | 0 <= j < |rest|
      ensures key(rest[j]) != k
    {
      if j < i {
        assert rest[j] == xs[j];
      } else {
        assert rest[j] == xs[j + 1];
      }
    }
  }

  /**
   * The loop shared by removeServiceRegistration and flushUsageCount:
   * walk the array and, at each element with the key, replace the array
   * by a copy without it, carrying on from the next index.
   */
  method RemoveEntry<T, K(==)>(xs: seq<T>, key: T -> K, k: K) returns (r: seq<T>)
    ensures !HasKey(xs, key, k) ==> r == xs
    ensures DistinctBy(xs, key) ==> r == Without(xs, key, k)
  {
    r := xs;
    var i := 0;
    ghost var found: int := -1;
    while i < |r|
      invariant 0 <= i <= |r| + 1
      invariant !HasKey(xs, key, k) ==> r == xs
      invariant DistinctBy(xs, key) && found == -1 ==>
        r == xs && i <= |xs| && forall j :: 0 <= j < i ==> key(xs[j]) != k
      invariant DistinctBy(xs, key) && found != -1 ==>
        0 <= found < |xs| && key(xs[found]) == k && r == xs[..found] + xs[found + 1..]
        && forall j :: 0 <= j < |r| ==> key(r[j]) != k
      decreases |r| + 1 - i
    {
      if key(r[i]) == k {
        if DistinctBy(xs, key) && found == -1 {
          found := i;
          OnlyOneWithKey(xs, key, k, i);
        }
        if |r| - 1 == 0 {
          r := [];
        } else {
          r := r[..i] + r[i + 1..];
        }
      }
      i := i + 1;
    }
    if DistinctBy(xs, key) {
      if found != -1 {
        WithoutAt(xs, key, k, found);
      } else {
        WithoutAbsent(xs, key, k);
      }
    }
  }

  // ---------------------------------------------------------------------
  // Usage counts: per consumer bundle, one record per service in use
  // ---------------------------------------------------------------------

  /** A UsageCount record: the reference, how often it was got, the cached object. */
  datatype Usage = Usage(ref: ServiceId, count: int, svc: Obj)

  /** The in-use map: consumer bundle to its array of usage records. */
  type InUse = map<Bundle, seq<Usage>>

  function UsageRef(u: Usage): ServiceId { u.ref }

  /** A bundle's array, the empty one standing for a bundle without entry. */
  function Usages(t: InUse, b: Bundle): seq<Usage>
  {
    if b in t then t[b] else []
  }

  /** The first record of `us` for reference `r`, if any. */
  function Find(us: seq<Usage>, r: ServiceId): (u: Option<Usage>)
    ensures u.Some? ==> u.value in us && u.value.ref == r
    ensures u.None? <==> !HasKey(us, UsageRef, r)
    decreases |us|
  {
    if us == [] then None
    else if us[0].ref == r then Some(us[0])
    else (
      var rest := Find(us[1..], r);
      assert HasKey(us[1..], UsageRef, r) ==> HasKey(us, UsageRef, r) by {
        if HasKey(us[1..], UsageRef, r) {
          var j :| 0 <= j < |us[1..]| && UsageRef(us[1..][j]) == r;
          assert us[j + 1] == us[1..][j];
        }
      }
      assert HasKey(us, UsageRef, r) ==> HasKey(us[1..], UsageRef, r) by {
        if HasKey(us, UsageRef, r) {
          var j :| 0 <= j < |us| && UsageRef(us[j]) == r;
          assert j != 0;
          assert us[1..][j - 1] == us[j];
        }
      }
      rest)
  }

  /** getUsageCount: the record bundle `b` holds for reference `r`. */
  function UsageOf(t: InUse, b: Bundle, r: ServiceId): Option<Usage>
  {
    Find(Usages(t, b), r)
  }

  /** Does bundle `b` hold a record for `r`? */
  predicate Uses(t: InUse, b: Bundle, r: ServiceId)
  {
    b in t && HasKey(t[b], UsageRef, r)
  }

  /** The count of bundle `b`'s record for `r`, zero without one. */
  function Count(t: InUse, b: Bundle, r: ServiceId): int
  {
    match UsageOf(t, b, r)
    case None => 0
    case Some(u) => u.count
  }

  /**
   * The well-formed in-use map: no bundle is mapped to an empty array,
   * a bundle holds at most one record per reference, and every count is
   * positive.
   */
  predicate TableOk(t: InUse)
  {
    forall b :: b in t ==>
      t[b] != [] && DistinctBy(t[b], UsageRef)
      && forall i :: 0 <= i < |t[b]| ==> t[b][i].count >= 1
  }

  /** `us` with `d` added to the count of its first record for `r`. */
  function Adjust(us: seq<Usage>, r: ServiceId, d: int): (v: seq<Usage>)
    ensures |v| == |us|
    ensures forall i :: 0 <= i < |us| ==> v[i].ref == us[i].ref
    decreases |us|
  {
    if us == [] then []
    else if us[0].ref == r then [us[0].(count := us[0].count + d)] + us[1..]
    else [us[0]] + Adjust(us[1..], r, d)
  }

  /** usage.m_count += d on bundle `b`'s record for `r`. */
  function Adjusted(t: InUse, b: Bundle, r: ServiceId, d: int): InUse
  {
    t[b := Adjust(Usages(t, b), r, d)]
  }

  /** addUsageCount: append a fresh record with count 1. */
  function Added(t: InUse, b: Bundle, r: ServiceId, o: Obj): InUse
  {
    t[b := Usages(t, b) + [Usage(r, 1, o)]]
  }

  /**
   * flushUsageCount: drop bundle `b`'s record for `r`, and the bundle's
   * entry with it when that was its last record.
   */
  function Flushed(t: InUse, b: Bundle, r: ServiceId): InUse
  {
    if Uses(t, b, r) then
      var us := Without(t[b], UsageRef, r);
      if us == [] then t - {b} else t[b := us]
    else t
  }

  /** What the service factory does when asked for the object. */
  datatype Fetch = Returned(obj: Option<Obj>) | Threw

  /**
   * How a get or unget ends: with a value, with the IllegalStateException
   * for a re-entrant call on a registration the calling thread has locked,
   * waiting on a registration another thread has locked, or with the
   * exception a service factory callback raised.
   */
  datatype Outcome<T> = Done(value: T) | Cycle | Blocked | CallbackFailed

  /**
   * The usage bookkeeping of getService once the registration is locked:
   * an invalid registration flushes the record and yields null; an
   * existing record is counted up and its cached object returned;
   * otherwise the factory is asked and a non-null object is cached with
   * count 1.
   */
  function Get(t: InUse, b: Bundle, r: ServiceId, isValid: bool, fetch: Fetch): (InUse, Outcome<Option<Obj>>)
  {
    if !isValid then (Flushed(t, b, r), Done(None))
    else match UsageOf(t, b, r)
      case Some(u) => (Adjusted(t, b, r, 1), Done(Some(u.svc)))
      case None =>
        match fetch
        case Threw => (t, CallbackFailed)
        case Returned(None) => (t, Done(None))
        case Returned(Some(o)) => (Added(t, b, r, o), Done(Some(o)))
  }

  /**
   * The usage bookkeeping of ungetService: without a record it answers
   * false; an invalid registration flushes the record without counting
   * down; a valid one counts down; a count that reaches zero flushes the
   * record and hands the object back to the factory. The answer is
   * whether the count is still positive.
   */
  function Unget(t: InUse, b: Bundle, r: ServiceId, isValid: bool, releaseFails: bool): (InUse, Outcome<bool>)
  {
    match UsageOf(t, b, r)
    case None => (t, Done(false))
    case Some(u) =>
      var c := if isValid then u.count - 1 else u.count;
      var t1 := if isValid then Adjusted(t, b, r, -1) else Flushed(t, b, r);
      if c == 0 then
        (Flushed(t1, b, r), if releaseFails then CallbackFailed else Done(false))
      else (t1, Done(c > 0))
  }

  // ---------------------------------------------------------------------
  // Facts about the record operations
  // ---------------------------------------------------------------------

  lemma {:induction false} FindWithout(us: seq<Usage>, r: ServiceId, r2: ServiceId)
    requires r2 != r
    ensures Find(Without(us, UsageRef, r), r2) == Find(us, r2)
    decreases |us|
  {
    if us != [] {
      FindWithout(us[1..], r, r2);
      var w := Without(us[1..], UsageRef, r);
      if us[0].ref != r {
        assert Without(us, UsageRef, r) == [us[0]] + w;
        assert ([us[0]] + w)[1..] == w;
      } else {
        assert Without(us, UsageRef, r) == [] + w == w;
      }
    }
  }

  /** A found record with `d` added to its count. */
  function Bump(u: Option<Usage>, d: int): Option<Usage>
  {
    match u
    case None => None
    case Some(v) => Some(v.(count := v.count + d))
  }

  lemma {:induction false} FindAdjustOther(us: seq<Usage>, r: ServiceId, d: int, r2: ServiceId)
    requires r2 != r
    ensures Find(Adjust(us, r, d), r2) == Find(us, r2)
    decreases |us|
  {
    if us != [] {
      var v := Adjust(us, r, d);
      if us[0].ref == r {
        assert v[1..] == us[1..];
      } else {
        assert v[1..] == Adjust(us[1..], r, d);
        FindAdjustOther(us[1..], r, d, r2);
      }
    }
  }

  lemma {:induction false} FindAdjustSame(us: seq<Usage>, r: ServiceId, d: int)
    ensures Find(Adjust(us, r, d), r) == Bump(Find(us, r), d)
    decreases |us|
  {
    if us != [] {
      var v := Adjust(us, r, d);
      if us[0].ref == r {
        assert v[0] == us[0].(count := us[0].count + d);
        assert Find(us, r) == Some(us[0]);
      } else {
        assert v[0] == us[0];
        assert v[1..] == Adjust(us[1..], r, d);
        FindAdjustSame(us[1..], r, d);
        assert Find(v, r) == Find(v[1..], r);
        assert Find(us, r) == Find(us[1..], r);
      }
    }
  }

  lemma {:induction false} FindAppend(us: seq<Usage>, u: Usage, r2: ServiceId)
    ensures Find(us + [u], r2) ==
      (if HasKey(us, UsageRef, r2) then Find(us, r2)
       else if u.ref == r2 then Some(u) else None)
    decreases |us|
  {
    if us == [] {
      assert [] + [u] == [u];
    } else {
      assert (us + [u])[1..] == us[1..] + [u];
      FindAppend(us[1..], u, r2);
    }
  }

  /** Counting the last record up or down leaves the array in place. */
  lemma {:induction false} AdjustAppend(us: seq<Usage>, u: Usage, d: int)
    requires !HasKey(us, UsageRef, u.ref)
    ensures Adjust(us + [u], u.ref, d) == us + [u.(count := u.count + d)]
    decreases |us|
  {
    if us == [] {
      assert [] + [u] == [u];
    } else {
      assert us[0].ref != u.ref;
      assert (us + [u])[1..] == us[1..] + [u];
      assert !HasKey(us[1..], UsageRef, u.ref) by {
        forall j | 0 <= j < |us[1..]| ensures UsageRef(us[1..][j]) != u.ref {
          assert us[1..][j] == us[j + 1];
        }
      }
      AdjustAppend(us[1..], u, d);
      assert [us[0]] + (us[1..] + [u.(count := u.count + d)]) == us + [u.(count := u.count + d)];
    }
  }

  /** Flushing the last record gives back the array it was appended to. */
  lemma {:induction false} WithoutAppend(us: seq<Usage>, u: Usage)
    requires !HasKey(us, UsageRef, u.ref)
    ensures Without(us + [u], UsageRef, u.ref) == us
    decreases |us|
  {
    if us == [] {
      assert [] + [u] == [u];
      assert [u][1..] == [];
    } else {
      assert us[0].ref != u.ref;
      assert (us + [u])[1..] == us[1..] + [u];
      assert !HasKey(us[1..], UsageRef, u.ref) by {
        forall j | 0 <= j < |us[1..]| ensures UsageRef(us[1..][j]) != u.ref {
          assert us[1..][j] == us[j + 1];
        }
      }
      WithoutAppend(us[1..], u);
      assert [us[0]] + us[1..] == us;
    }
  }

  /** Without keeps the elements in order, so distinct keys stay distinct. */
  lemma {:induction false} WithoutDistinct<T, K>(xs: seq<T>, key: T -> K, k: K)
    requires DistinctBy(xs, key)
    ensures DistinctBy(Without(xs, key, k), key)
    decreases |xs|
  {
    if xs != [] {
      var rest := xs[1..];
      assert DistinctBy(rest, key) by {
        forall a, b | 0 <= a < b < |rest| ensures key(rest[a]) != key(rest[b]) {
          assert rest[a] == xs[a + 1] && rest[b] == xs[b + 1];
        }
      }
      WithoutDistinct(rest, key, k);
      var w := Without(rest, key, k);
      if key(xs[0]) != k {
        forall j | 0 <= j < |w| ensures key(w[j]) != key(xs[0]) {
          var m :| 0 <= m < |rest| && rest[m] == w[j];
          assert xs[m + 1] == rest[m];
        }
        var v := [xs[0]] + w;
        forall a, b | 0 <= a < b < |v| ensures key(v[a]) != key(v[b]) {
          assert v[b] == w[b - 1];
          if a > 0 {
            assert v[a] == w[a - 1];
          }
        }
        assert Without(xs, key, k) == v;
      }
    }
  }

  // ---------------------------------------------------------------------
  // The in-use map under get, unget and flush
  // ---------------------------------------------------------------------

  /** A flush removes exactly the one record. */
  lemma UsageOfFlushed(t: InUse, b: Bundle, r: ServiceId, b2: Bundle, r2: ServiceId)
    ensures UsageOf(Flushed(t, b, r), b2, r2) ==
      (if b2 == b && r2 == r then None else UsageOf(t, b2, r2))
  {
    if Uses(t, b, r) && b2 == b && r2 != r {
      FindWithout(t[b], r, r2);
    }
  }

  /** Counting up or down changes exactly the one record's count. */
  lemma UsageOfAdjusted(t: InUse, b: Bundle, r: ServiceId, d: int, b2: Bundle, r2: ServiceId)
    ensures UsageOf(Adjusted(t, b, r, d), b2, r2) ==
      (if b2 != b || r2 != r then UsageOf(t, b2, r2)
       else Bump(UsageOf(t, b, r), d))
  {
    var a := Adjusted(t, b, r, d);
    if b2 == b {
      assert Usages(a, b) == Adjust(Usages(t, b), r, d);
      if r2 == r {
        FindAdjustSame(Usages(t, b), r, d);
      } else {
        FindAdjustOther(Usages(t, b), r, d, r2);
      }
    } else {
      assert Usages(a, b2) == Usages(t, b2);
    }
  }

  /** An added record is found, and only where it was added. */
  lemma UsageOfAdded(t: InUse, b: Bundle, r: ServiceId, o: Obj, b2: Bundle, r2: ServiceId)
    requires !Uses(t, b, r)
    ensures UsageOf(Added(t, b, r, o), b2, r2) ==
      (if b2 == b && r2 == r then Some(Usage(r, 1, o)) else UsageOf(t, b2, r2))
  {
    if b2 == b {
      FindAppend(Usages(t, b), Usage(r, 1, o), r2);
    }
  }

  lemma {:induction false} AdjustPositive(us: seq<Usage>, r: ServiceId, d: int)
    requires forall i :: 0 <= i < |us| ==> us[i].count >= 1
    requires Find(us, r).Some? ==> Find(us, r).value.count + d >= 1
    ensures forall i :: 0 <= i < |us| ==> Adjust(us, r, d)[i].count >= 1
    decreases |us|
  {
    if us != [] && us[0].ref != r {
      AdjustPositive(us[1..], r, d);
      assert forall i :: 1 <= i < |us| ==> Adjust(us, r, d)[i] == Adjust(us[1..], r, d)[i - 1];
    }
  }

  lemma {:induction false} WithoutAdjust(us: seq<Usage>, r: ServiceId, d: int)
    ensures Without(Adjust(us, r, d), UsageRef, r) == Without(us, UsageRef, r)
    decreases |us|
  {
    if us != [] {
      var v := Adjust(us, r, d);
      if us[0].ref == r {
        assert v[1..] == us[1..];
      } else {
        assert v[1..] == Adjust(us[1..], r, d);
        WithoutAdjust(us[1..], r, d);
      }
    }
  }

  /** Counting a record down and then flushing it is just flushing it. */
  lemma FlushedAdjusted(t: InUse, b: Bundle, r: ServiceId, d: int)
    requires Uses(t, b, r)
    ensures Flushed(Adjusted(t, b, r, d), b, r) == Flushed(t, b, r)
  {
    var v := Adjust(t[b], r, d);
    var t1 := Adjusted(t, b, r, d);
    assert t1 == t[b := v];
    WithoutAdjust(t[b], r, d);
    var w := Without(t[b], UsageRef, r);
    assert HasKey(v, UsageRef, r) by {
      var j :| 0 <= j < |t[b]| && UsageRef(t[b][j]) == r;
      assert v[j].ref == r;
    }
    assert Uses(t1, b, r);
    if w == [] {
      assert Flushed(t1, b, r) == t1 - {b};
      assert t1 - {b} == t - {b};
    } else {
      assert Flushed(t1, b, r) == t1[b := w];
      assert t1[b := w] == t[b := w];
    }
  }

  lemma TableFlushed(t: InUse, b: Bundle, r: ServiceId)
    requires TableOk(t)
    ensures TableOk(Flushed(t, b, r))
  {
    if Uses(t, b, r) {
      WithoutDistinct(t[b], UsageRef, r);
    }
  }

  lemma TableAdjusted(t: InUse, b: Bundle, r: ServiceId, d: int)
    requires TableOk(t) && Uses(t, b, r)
    requires UsageOf(t, b, r).value.count + d >= 1
    ensures TableOk(Adjusted(t, b, r, d))
  {
    var v := Adjust(t[b], r, d);
    AdjustPositive(t[b], r, d);
    assert DistinctBy(v, UsageRef) by {
      forall i, j | 0 <= i < j < |v| ensures UsageRef(v[i]) != UsageRef(v[j]) {
        assert v[i].ref == t[b][i].ref && v[j].ref == t[b][j].ref;
      }
    }
  }

  lemma TableAdded(t: InUse, b: Bundle, r: ServiceId, o: Obj)
    requires TableOk(t) && !Uses(t, b, r)
    ensures TableOk(Added(t, b, r, o))
  {
    var us := Usages(t, b);
    var v := us + [Usage(r, 1, o)];
    assert DistinctBy(v, UsageRef) by {
      forall i, j | 0 <= i < j < |v| ensures UsageRef(v[i]) != UsageRef(v[j]) {
        if j == |us| {
          assert v[i] == us[i];
        } else {
          assert v[i] == us[i] && v[j] == us[j];
        }
      }
    }
  }

  /** getService keeps the in-use map well formed. */
  lemma TableGet(t: InUse, b: Bundle, r: ServiceId, isValid: bool, fetch: Fetch)
    requires TableOk(t)
    ensures TableOk(Get(t, b, r, isValid, fetch).0)
  {
    if !isValid {
      TableFlushed(t, b, r);
    } else if UsageOf(t, b, r).Some? {
      TableAdjusted(t, b, r, 1);
    } else if fetch.Returned? && fetch.obj.Some? {
      TableAdded(t, b, r, fetch.obj.value);
    }
  }

  /** ungetService keeps the in-use map well formed. */
  lemma TableUnget(t: InUse, b: Bundle, r: ServiceId, isValid: bool, releaseFails: bool)
    requires TableOk(t)
    ensures TableOk(Unget(t, b, r, isValid, releaseFails).0)
  {
    if UsageOf(t, b, r).Some? {
      var u := UsageOf(t, b, r).value;
      if !isValid {
        TableFlushed(t, b, r);
        TableFlushed(Flushed(t, b, r), b, r);
      } else if u.count - 1 == 0 {
        FlushedAdjusted(t, b, r, -1);
        TableFlushed(t, b, r);
      } else {
        TableAdjusted(t, b, r, -1);
      }
    }
  }

  /** getService touches no other (bundle, reference) record. */
  lemma GetOthers(t: InUse, b: Bundle, r: ServiceId, isValid: bool, fetch: Fetch, b2: Bundle, r2: ServiceId)
    requires b2 != b || r2 != r
    ensures UsageOf(Get(t, b, r, isValid, fetch).0, b2, r2) == UsageOf(t, b2, r2)
  {
    if !isValid {
      UsageOfFlushed(t, b, r, b2, r2);
    } else if UsageOf(t, b, r).Some? {
      UsageOfAdjusted(t, b, r, 1, b2, r2);
    } else if fetch.Returned? && fetch.obj.Some? {
      UsageOfAdded(t, b, r, fetch.obj.value, b2, r2);
    }
  }

  /** On an unregistered service getService answers null and forgets the record. */
  lemma GetInvalid(t: InUse, b: Bundle, r: ServiceId, fetch: Fetch)
    ensures Get(t, b, r, false, fetch).1 == Done(None)
    ensures UsageOf(Get(t, b, r, false, fetch).0, b, r) == None
  {
    UsageOfFlushed(t, b, r, b, r);
  }

  /** A cached object is returned again and its count goes up by one. */
  lemma GetCached(t: InUse, b: Bundle, r: ServiceId, fetch: Fetch, u: Usage)
    requires UsageOf(t, b, r) == Some(u)
    ensures Get(t, b, r, true, fetch).1 == Done(Some(u.svc))
    ensures UsageOf(Get(t, b, r, true, fetch).0, b, r) == Some(u.(count := u.count + 1))
  {
    UsageOfAdjusted(t, b, r, 1, b, r);
  }

  /** Without a record, a non-null object from the factory is cached with count 1. */
  lemma GetFetched(t: InUse, b: Bundle, r: ServiceId, o: Obj)
    requires UsageOf(t, b, r) == None
    ensures Get(t, b, r, true, Returned(Some(o))).1 == Done(Some(o))
    ensures UsageOf(Get(t, b, r, true, Returned(Some(o))).0, b, r) == Some(Usage(r, 1, o))
  {
    UsageOfAdded(t, b, r, o, b, r);
  }

  /** ungetService touches no other (bundle, reference) record. */
  lemma UngetOthers(t: InUse, b: Bundle, r: ServiceId, isValid: bool, releaseFails: bool, b2: Bundle, r2: ServiceId)
    requires b2 != b || r2 != r
    ensures UsageOf(Unget(t, b, r, isValid, releaseFails).0, b2, r2) == UsageOf(t, b2, r2)
  {
    if UsageOf(t, b, r).Some? {
      var t1 := if isValid then Adjusted(t, b, r, -1) else Flushed(t, b, r);
      if isValid {
        UsageOfAdjusted(t, b, r, -1, b2, r2);
      } else {
        UsageOfFlushed(t, b, r, b2, r2);
      }
      UsageOfFlushed(t1, b, r, b2, r2);
    }
  }

  /** Above one, an unget counts down and answers true. */
  lemma UngetCounted(t: InUse, b: Bundle, r: ServiceId, releaseFails: bool, u: Usage)
    requires UsageOf(t, b, r) == Some(u) && u.count >= 2
    ensures Unget(t, b, r, true, releaseFails).1 == Done(true)
    ensures UsageOf(Unget(t, b, r, true, releaseFails).0, b, r) == Some(u.(count := u.count - 1))
  {
    UsageOfAdjusted(t, b, r, -1, b, r);
  }

  /** At one, an unget flushes the record and answers false. */
  lemma UngetLast(t: InUse, b: Bundle, r: ServiceId, releaseFails: bool, u: Usage)
    requires UsageOf(t, b, r) == Some(u) && u.count == 1
    ensures Unget(t, b, r, true, releaseFails).1 == (if releaseFails then CallbackFailed else Done(false))
    ensures UsageOf(Unget(t, b, r, true, releaseFails).0, b, r) == None
  {
    UsageOfFlushed(Adjusted(t, b, r, -1), b, r, b, r);
  }

  /**
   * On an unregistered service an unget flushes the record without
   * counting down, so it answers true although nothing is left.
   */
  lemma UngetInvalid(t: InUse, b: Bundle, r: ServiceId, releaseFails: bool, u: Usage)
    requires UsageOf(t, b, r) == Some(u) && u.count >= 1
    ensures Unget(t, b, r, false, releaseFails).1 == Done(true)
    ensures UsageOf(Unget(t, b, r, false, releaseFails).0, b, r) == None
  {
    UsageOfFlushed(t, b, r, b, r);
  }

  /** An unget that answers false leaves no record behind. */
  lemma UngetFalseDrains(t: InUse, b: Bundle, r: ServiceId, isValid: bool)
    requires TableOk(t)
    requires Unget(t, b, r, isValid, false).1 == Done(false)
    ensures UsageOf(Unget(t, b, r, isValid, false).0, b, r) == None
  {
    if UsageOf(t, b, r).Some? {
      var u := UsageOf(t, b, r).value;
      assert u.count >= 1 by {
        var i :| 0 <= i < |t[b]| && t[b][i] == u;
      }
      if !isValid {
        UngetInvalid(t, b, r, false, u);
      } else if u.count >= 2 {
        UngetCounted(t, b, r, false, u);
      } else {
        UngetLast(t, b, r, false, u);
      }
    }
  }

  /** An unget that answers true has brought the count down. */
  lemma UngetTrueShrinks(t: InUse, b: Bundle, r: ServiceId, isValid: bool)
    requires TableOk(t)
    requires Unget(t, b, r, isValid, false).1 == Done(true)
    ensures 0 <= Count(Unget(t, b, r, isValid, false).0, b, r) < Count(t, b, r)
  {
    var u := UsageOf(t, b, r).value;
    assert u.count >= 1 by {
      var i :| 0 <= i < |t[b]| && t[b][i] == u;
    }
    if isValid {
      UngetCounted(t, b, r, false, u);
    } else {
      UngetInvalid(t, b, r, false, u);
    }
  }

  lemma CountNonnegative(t: InUse, b: Bundle, r: ServiceId)
    requires TableOk(t)
    ensures Count(t, b, r) >= 0
  {
    if UsageOf(t, b, r).Some? {
      var u := UsageOf(t, b, r).value;
      var i :| 0 <= i < |t[b]| && t[b][i] == u;
    }
  }

  /** An unget that answers true on a valid registration has counted down by one. */
  lemma UngetTrueCounts(t: InUse, b: Bundle, r: ServiceId)
    requires TableOk(t)
    requires Unget(t, b, r, true, false).1 == Done(true)
    ensures Count(Unget(t, b, r, true, false).0, b, r) == Count(t, b, r) - 1 >= 1
  {
    var u := UsageOf(t, b, r).value;
    assert u.count >= 1 by {
      var i :| 0 <= i < |t[b]| && t[b][i] == u;
    }
    UngetCounted(t, b, r, false, u);
  }

  // ---------------------------------------------------------------------
  // n gets followed by n ungets
  // ---------------------------------------------------------------------

  /** `n` successive getService calls that each obtain `o`. */
  function Gets(t: InUse, b: Bundle, r: ServiceId, o: Obj, n: nat): InUse
  {
    if n == 0 then t else Get(Gets(t, b, r, o, n - 1), b, r, true, Returned(Some(o))).0
  }

  /** `n` successive ungetService calls on a valid registration. */
  function Ungets(t: InUse, b: Bundle, r: ServiceId, n: nat): InUse
  {
    if n == 0 then t else Unget(Ungets(t, b, r, n - 1), b, r, true, false).0
  }

  /** The map with a record of count `c` for `r` appended to bundle `b`'s array. */
  function Holding(t: InUse, b: Bundle, r: ServiceId, o: Obj, c: int): InUse
  {
    t[b := Usages(t, b) + [Usage(r, c, o)]]
  }

  lemma HoldingFound(t: InUse, b: Bundle, r: ServiceId, o: Obj, c: int)
    requires !Uses(t, b, r)
    ensures UsageOf(Holding(t, b, r, o, c), b, r) == Some(Usage(r, c, o))
  {
    FindAppend(Usages(t, b), Usage(r, c, o), r);
  }

  /** A get on a held record counts it up and returns the cached object. */
  lemma GetHolding(t: InUse, b: Bundle, r: ServiceId, o: Obj, c: int, fetch: Fetch)
    requires !Uses(t, b, r)
    ensures Get(Holding(t, b, r, o, c), b, r, true, fetch) == (Holding(t, b, r, o, c + 1), Done(Some(o)))
  {
    var h := Holding(t, b, r, o, c);
    HoldingFound(t, b, r, o, c);
    assert Usages(h, b) == Usages(t, b) + [Usage(r, c, o)];
    AdjustAppend(Usages(t, b), Usage(r, c, o), 1);
    assert Adjusted(h, b, r, 1) == h[b := Usages(t, b) + [Usage(r, c + 1, o)]];
    assert h[b := Usages(t, b) + [Usage(r, c + 1, o)]] == Holding(t, b, r, o, c + 1);
  }

  /** An unget on a held record above one counts it down and answers true. */
  lemma UngetHolding(t: InUse, b: Bundle, r: ServiceId, o: Obj, c: int)
    requires !Uses(t, b, r) && c >= 2
    ensures Unget(Holding(t, b, r, o, c), b, r, true, false) == (Holding(t, b, r, o, c - 1), Done(true))
  {
    var h := Holding(t, b, r, o, c);
    HoldingFound(t, b, r, o, c);
    assert Usages(h, b) == Usages(t, b) + [Usage(r, c, o)];
    AdjustAppend(Usages(t, b), Usage(r, c, o), -1);
    assert Adjusted(h, b, r, -1) == h[b := Usages(t, b) + [Usage(r, c - 1, o)]];
    assert h[b := Usages(t, b) + [Usage(r, c - 1, o)]] == Holding(t, b, r, o, c - 1);
  }

  /** The unget that brings a held record to zero gives back the map it started from. */
  lemma UngetHoldingLast(t: InUse, b: Bundle, r: ServiceId, o: Obj)
    requires TableOk(t) && !Uses(t, b, r)
    ensures Unget(Holding(t, b, r, o, 1), b, r, true, false) == (t, Done(false))
  {
    var h := Holding(t, b, r, o, 1);
    var us := Usages(t, b);
    HoldingFound(t, b, r, o, 1);
    assert Usages(h, b) == us + [Usage(r, 1, o)];
    AdjustAppend(us, Usage(r, 1, o), -1);
    var h0 := Holding(t, b, r, o, 0);
    assert Adjusted(h, b, r, -1) == h0;
    assert Unget(h, b, r, true, false) == (Flushed(h0, b, r), Done(false));
    FlushedHolding(t, b, r, o, 0);
  }

  /** Flushing a held record gives back the map it was added to. */
  lemma FlushedHolding(t: InUse, b: Bundle, r: ServiceId, o: Obj, c: int)
    requires TableOk(t) && !Uses(t, b, r)
    ensures Flushed(Holding(t, b, r, o, c), b, r) == t
  {
    var h := Holding(t, b, r, o, c);
    var us := Usages(t, b);
    assert h[b] == us + [Usage(r, c, o)];
    WithoutAppend(us, Usage(r, c, o));
    assert Uses(h, b, r) by {
      assert h[b][|us|].ref == r;
    }
    if b in t {
      assert us != [];
      assert Flushed(h, b, r) == h[b := us];
      assert h[b := us] == t;
    } else {
      assert us == [];
      assert Flushed(h, b, r) == h - {b};
      assert h - {b} == t;
    }
  }

  /** The first get of a new record holds it once. */
  lemma GetNew(t: InUse, b: Bundle, r: ServiceId, o: Obj)
    requires !Uses(t, b, r)
    ensures Gets(t, b, r, o, 1) == Holding(t, b, r, o, 1)
  {
    assert Gets(t, b, r, o, 0) == t;
    assert !HasKey(Usages(t, b), UsageRef, r);
    assert UsageOf(t, b, r) == None;
  }

  /** `n` gets of a new record hold it `n` times: the first get. */
  lemma GetsFirst(t: InUse, b: Bundle, r: ServiceId, o: Obj, n: nat)
    requires !Uses(t, b, r) && n == 1
    ensures Gets(t, b, r, o, n) == Holding(t, b, r, o, n)
  {
    GetNew(t, b, r, o);
  }

  /** `n` gets of a new record hold it `n` times: one more get on a held record counts it up. */
  lemma {:induction false} GetsNext(t: InUse, b: Bundle, r: ServiceId, o: Obj, n: nat)
    requires !Uses(t, b, r) && n >= 2
    ensures Gets(t, b, r, o, n) == Holding(t, b, r, o, n)
    decreases n, 0
  {
    GetsHolding(t, b, r, o, n - 1);
    GetHolding(t, b, r, o, n - 1, Returned(Some(o)));
  }

  lemma {:induction false} GetsHolding(t: InUse, b: Bundle, r: ServiceId, o: Obj, n: nat)
    requires !Uses(t, b, r) && n >= 1
    ensures Gets(t, b, r, o, n) == Holding(t, b, r, o, n)
    decreases n, 1
  {
    if n == 1 {
      GetsFirst(t, b, r, o, n);
    } else {
      GetsNext(t, b, r, o, n);
    }
  }

  lemma {:induction false} UngetsHolding(t: InUse, b: Bundle, r: ServiceId, o: Obj, n: nat, k: nat)
    requires !Uses(t, b, r) && k < n
    ensures Ungets(Holding(t, b, r, o, n), b, r, k) == Holding(t, b, r, o, n - k)
  {
    if k > 0 {
      UngetsHolding(t, b, r, o, n, k - 1);
      UngetsStep(t, b, r, o, n, k);
    }
  }

  /** One more unget on a record still held more than once counts it down. */
  lemma UngetsStep(t: InUse, b: Bundle, r: ServiceId, o: Obj, n: nat, k: nat)
    requires !Uses(t, b, r) && 0 < k < n
    requires Ungets(Holding(t, b, r, o, n), b, r, k - 1) == Holding(t, b, r, o, n - k + 1)
    ensures Ungets(Holding(t, b, r, o, n), b, r, k) == Holding(t, b, r, o, n - k)
  {
    UngetHolding(t, b, r, o, n - k + 1);
  }

  /** Every one of the gets returns the object. */
  lemma GetsAnswer(t: InUse, b: Bundle, r: ServiceId, o: Obj, k: nat)
    requires !Uses(t, b, r)
    ensures Get(Gets(t, b, r, o, k), b, r, true, Returned(Some(o))).1 == Done(Some(o))
  {
    if k == 0 {
      GetFetched(t, b, r, o);
    } else {
      GetsHolding(t, b, r, o, k);
      GetHolding(t, b, r, o, k, Returned(Some(o)));
    }
  }

  /** The (k+1)-th unget answers true, except the n-th, which answers false. */
  lemma UngetsAnswer(t: InUse, b: Bundle, r: ServiceId, o: Obj, n: nat, k: nat)
    requires TableOk(t) && !Uses(t, b, r) && k < n
    ensures Unget(Ungets(Holding(t, b, r, o, n), b, r, k), b, r, true, false).1 == Done(k < n - 1)
  {
    UngetsHolding(t, b, r, o, n, k);
    if k < n - 1 {
      UngetHolding(t, b, r, o, n - k);
    } else {
      UngetHoldingLast(t, b, r, o);
    }
  }

  /**
   * A bundle that does not use the service gets it `n` times and ungets it
   * `n` times: the record reaches count `n`, and afterwards the in-use map
   * is exactly what it was; one more unget answers false and changes
   * nothing.
   */
  lemma GetsThenUngets(t: InUse, b: Bundle, r: ServiceId, o: Obj, n: nat)
    requires TableOk(t) && !Uses(t, b, r) && n >= 1
    ensures UsageOf(Gets(t, b, r, o, n), b, r) == Some(Usage(r, n, o))
    ensures Ungets(Gets(t, b, r, o, n), b, r, n) == t
    ensures Unget(t, b, r, true, false) == (t, Done(false))
  {
    var h := Holding(t, b, r, o, n);
    GetsHolding(t, b, r, o, n);
    HoldingFound(t, b, r, o, n);
    UngetsLast(t, b, r, o, n);
    assert UsageOf(t, b, r) == None;
  }

  lemma UngetsLast(t: InUse, b: Bundle, r: ServiceId, o: Obj, n: nat)
    requires TableOk(t) && !Uses(t, b, r) && n >= 1
    ensures Ungets(Holding(t, b, r, o, n), b, r, n) == t
  {
    UngetsHolding(t, b, r, o, n, n - 1);
    UngetsFinal(t, b, r, o, n);
  }

  lemma UngetsFinal(t: InUse, b: Bundle, r: ServiceId, o: Obj, n: nat)
    requires TableOk(t) && !Uses(t, b, r) && n >= 1
    requires Ungets(Holding(t, b, r, o, n), b, r, n - 1) == Holding(t, b, r, o, 1)
    ensures Ungets(Holding(t, b, r, o, n), b, r, n) == t
  {
    UngetHoldingLast(t, b, r, o);
  }

  /**
   * What the calls answer on the way: each of the `n` gets returns the
   * object, the first n-1 ungets answer true and the n-th answers false.
   */
  lemma GetsThenUngetsAnswers(t: InUse, b: Bundle, r: ServiceId, o: Obj, n: nat)
    requires TableOk(t) && !Uses(t, b, r) && n >= 1
    ensures forall k :: 0 <= k < n ==> Get(Gets(t, b, r, o, k), b, r, true, Returned(Some(o))).1 == Done(Some(o))
    ensures forall k :: 0 <= k < n ==>
      Unget(Ungets(Gets(t, b, r, o, n), b, r, k), b, r, true, false).1 == Done(k < n - 1)
  {
    GetsHolding(t, b, r, o, n);
    forall k | 0 <= k < n
      ensures Get(Gets(t, b, r, o, k), b, r, true, Returned(Some(o))).1 == Done(Some(o))
    {
      GetsAnswer(t, b, r, o, k);
    }
    forall k | 0 <= k < n
      ensures Unget(Ungets(Holding(t, b, r, o, n), b, r, k), b, r, true, false).1 == Done(k < n - 1)
    {
      UngetsAnswer(t, b, r, o, n, k);
    }
  }

  // ---------------------------------------------------------------------
  // Hook arrays
  // ---------------------------------------------------------------------

  /** The three kinds of service hook the registry keeps arrays of. */
  datatype HookKind = EventHookKind | FindHookKind | ListenerHookKind

  /** The interface name a registration must list to be taken as that hook. */
  function HookName(k: HookKind): string
  {
    match k
    case EventHookKind => "org.osgi.framework.hooks.service.EventHook"
    case FindHookKind => "org.osgi.framework.hooks.service.FindHook"
    case ListenerHookKind => "org.osgi.framework.hooks.service.ListenerHook"
  }

  /**
   * isHook: the service object implements the hook interface (`instanceOf`
   * lists the interfaces it implements) and the registration names it.
   */
  method IsHook(classNames: seq<string>, kind: HookKind, instanceOf: set<HookKind>) returns (b: bool)
    ensures b <==> kind in instanceOf && HookName(kind) in classNames
  {
    if kind in instanceOf {
      var i := 0;
      while i < |classNames|
        invariant 0 <= i <= |classNames|
        invariant forall j :: 0 <= j < i ==> classNames[j] != HookName(kind)
      {
        if classNames[i] == HookName(kind) {
          return true;
        }
        i := i + 1;
      }
    }
    return false;
  }

  /** What addHooks appends to the array of hook kind `k`. */
  function AddedHook(k: HookKind, classNames: seq<string>, svc: Obj, instanceOf: set<HookKind>): seq<Obj>
  {
    if k in instanceOf && HookName(k) in classNames then [svc] else []
  }

  /** The array without the first occurrence of `o`. */
  function RemoveFirst(src: seq<Obj>, o: Obj): (r: seq<Obj>)
    ensures o in src ==> |r| == |src| - 1
    ensures o !in src ==> r == src
    decreases |src|
  {
    if src == [] then []
    else if src[0] == o then src[1..]
    else [src[0]] + RemoveFirst(src[1..], o)
  }

  /** Removing the first occurrence keeps everything before it and after it, in order. */
  lemma {:induction false} RemoveFirstAt(src: seq<Obj>, o: Obj, i: nat)
    requires i < |src| && src[i] == o && o !in src[..i]
    ensures RemoveFirst(src, o) == src[..i] + src[i + 1..]
    decreases i
  {
    if i > 0 {
      assert src[0] != o by {
        assert src[0] == src[..i][0];
      }
      assert src[1..][..i - 1] == src[1..i];
      assert src[1..i] == src[..i][1..];
      RemoveFirstAt(src[1..], o, i - 1);
      assert [src[0]] + (src[1..i] + src[i + 1..]) == src[..i] + src[i + 1..];
    }
  }

  /** Exactly one occurrence of `o` goes, nothing else. */
  lemma {:induction false} RemoveFirstMultiset(src: seq<Obj>, o: Obj)
    ensures multiset(RemoveFirst(src, o)) == multiset(src) - multiset{o}
    decreases |src|
  {
    if src != [] {
      assert src == [src[0]] + src[1..];
      if src[0] != o {
        RemoveFirstMultiset(src[1..], o);
      }
    }
  }

  /** A hook added and then removed leaves the array as it was. */
  lemma {:induction false} RemoveFirstAdded(src: seq<Obj>, o: Obj)
    requires o !in src
    ensures RemoveFirst(src + [o], o) == src
  {
    RemoveFirstAt(src + [o], o, |src|);
    assert (src + [o])[..|src|] == src;
  }

  /**
   * removeFromArray, corrected: find the first element equal to the
   * object and copy the elements before and after it into a shorter array.
   */
  method RemoveFromArray(src: seq<Obj>, o: Obj) returns (dst: seq<Obj>)
    ensures dst == RemoveFirst(src, o)
  {
    dst := src;
    var idx := -1;
    var i := 0;
    while i < |src|
      invariant 0 <= i <= |src|
      invariant o !in src[..i]
    {
      if src[i] == o {
        idx := i;
        break;
      }
      i := i + 1;
    }
    if idx >= 0 {
      RemoveFirstAt(src, o, idx);
      if |src| == 1 {
        dst := [];
      } else {
        dst := src[..idx] + src[idx + 1..];
      }
    } else {
      assert src[..i] == src;
    }
  }

  /** The NullPointerException the hook search raises on a null element. */
  datatype Fault = NullElement

  /**
   * The position the hook search stops at: the first element that is
   * null or equal to `o`, or the length when there is none.
   */
  function FirstHit(src: seq<Option<Obj>>, o: Obj): (i: nat)
    ensures i <= |src|
    ensures forall j :: 0 <= j < i ==> src[j].Some? && src[j].value != o
    ensures i < |src| ==> src[i].None? || src[i] == Some(o)
    decreases |src|
  {
    if src == [] || src[0].None? || src[0] == Some(o) then 0
    else 1 + FirstHit(src[1..], o)
  }

  /**
   * removeFromArray as written. The first System.arraycopy has source and
   * destination swapped: it copies the new, all-null array's prefix into
   * the old array instead of the old prefix into the new one, so the
   * elements before the removed one come back as nulls. The same copy
   * overwrites the old array's prefix with nulls; that array is shared
   * with earlier readers, and the function gives only the new one. A
   * null element met by the search throws.
   */
  function RemovedAsWritten(src: seq<Option<Obj>>, o: Obj): Result<seq<Option<Obj>>, Fault>
  {
    var i := FirstHit(src, o);
    if i == |src| then Ok(src)
    else if src[i].None? then Err(NullElement)
    else if |src| == 1 then Ok([])
    else Ok(seq(i, _ => None) + src[i + 1..])
  }

  /** The as-written loop and copies, on an array that may hold nulls. */
  method RemoveFromArrayAsWritten(src: seq<Option<Obj>>, o: Obj) returns (dst: Result<seq<Option<Obj>>, Fault>)
    ensures dst == RemovedAsWritten(src, o)
  {
    var idx := -1;
    var i := 0;
    while i < |src|
      invariant 0 <= i <= |src|
      invariant forall j :: 0 <= j < i ==> src[j].Some? && src[j].value != o
    {
      if src[i].None? {
        return Err(NullElement);
      }
      if src[i].value == o {
        idx := i;
        break;
      }
      i := i + 1;
    }
    if idx < 0 {
      return Ok(src);
    }
    if |src| == 1 {
      return Ok([]);
    }
    var shorter: seq<Option<Obj>> := seq(|src| - 1, _ => None);
    // System.arraycopy(dst, 0, src, 0, idx) writes into src and leaves dst alone.
    shorter := shorter[..idx] + src[idx + 1..];
    assert FirstHit(src, o) == idx;
    assert shorter == seq(idx, _ => None) + src[idx + 1..];
    return Ok(shorter);
  }

  function Lift(xs: seq<Obj>): (r: seq<Option<Obj>>)
    ensures |r| == |xs|
    ensures forall j :: 0 <= j < |xs| ==> r[j] == Some(xs[j])
  {
    seq(|xs|, j requires 0 <= j < |xs| => Some(xs[j]))
  }

  /**
   * Removing a hook that is not first from an array of two or more: the
   * as-written copy turns the first hook into null, where the corrected
   * one keeps it.
   */
  lemma AsWrittenLosesPrefix(src: seq<Obj>, o: Obj, i: nat)
    requires 0 < i < |src| && src[i] == o && o !in src[..i]
    ensures RemovedAsWritten(Lift(src), o).Ok?
    ensures RemovedAsWritten(Lift(src), o).value[0] == None
    ensures RemoveFirst(src, o)[0] == src[0]
  {
    var l := Lift(src);
    forall j | 0 <= j < i ensures l[j].Some? && l[j].value != o {
      assert src[j] == src[..i][j];
    }
    assert FirstHit(l, o) == i;
    RemoveFirstAt(src, o, i);
  }

  /** Once a null is at the front, every later removal throws. */
  lemma AsWrittenThenThrows(src: seq<Option<Obj>>, o: Obj)
    requires src != [] && src[0] == None
    ensures RemovedAsWritten(src, o) == Err(NullElement)
  {
    assert FirstHit(src, o) == 0;
  }

  /**
   * Concretely: with hooks [1, 2], unregistering hook 2 leaves [null],
   * and unregistering hook 1 afterwards throws.
   */
  lemma AsWrittenExample()
    ensures RemovedAsWritten([Some(1), Some(2)], 2) == Ok([None])
    ensures RemoveFirst([1, 2], 2) == [1]
    ensures RemovedAsWritten([None], 1) == Err(NullElement)
  {
    var src := [Some(1), Some(2)];
    assert FirstHit(src, 2) == 1 by {
      assert src[1..] == [Some(2)];
    }
    var v := RemovedAsWritten(src, 2).value;
    assert |v| == 1 && v[0] == None;
    assert v == [None];
    assert [1, 2][1..] == [2];
  }

  // ---------------------------------------------------------------------
  // ServiceListenerMulticaster
  // ---------------------------------------------------------------------

  /**
   * The listener chain: a single listener, or a multicaster node that
   * passes each event to its left part and then to its right part. A
   * node's parts are never null.
   */
  datatype Listener = Single(id: nat) | Multicaster(left: Listener, right: Listener)

  /** The listeners in the order an event reaches them. */
  function Flat(l: Listener): seq<nat>
  {
    match l
    case Single(x) => [x]
    case Multicaster(a, b) => Flat(a) + Flat(b)
  }

  function FlatOpt(l: Option<Listener>): seq<nat>
  {
    match l
    case None => []
    case Some(x) => Flat(x)
  }

  function NatId(x: nat): nat { x }

  /** ServiceListenerMulticaster.add: a null side gives back the other side. */
  function AddListener(a: Option<Listener>, b: Option<Listener>): (r: Option<Listener>)
    ensures a.None? ==> r == b
    ensures b.None? ==> r == a
    ensures FlatOpt(r) == FlatOpt(a) + FlatOpt(b)
  {
    if a.None? then b
    else if b.None? then a
    else Some(Multicaster(a.value, b.value))
  }

  /**
   * ServiceListenerMulticaster.remove on a non-null chain: a listener
   * identical to the one removed goes, a node is rebuilt from its two
   * reduced parts, any other listener stays.
   */
  function RemoveFrom(a: Listener, b: Option<nat>): Option<Listener>
  {
    if b.Some? && a == Single(b.value) then None
    else match a
      case Multicaster(x, y) => AddListener(RemoveFrom(x, b), RemoveFrom(y, b))
      case Single(_) => Some(a)
  }

  function RemoveListener(a: Option<Listener>, b: Option<nat>): Option<Listener>
  {
    match a
    case None => None
    case Some(l) => RemoveFrom(l, b)
  }

  lemma {:induction false} WithoutConcat<T, K>(xs: seq<T>, ys: seq<T>, key: T -> K, k: K)
    ensures Without(xs + ys, key, k) == Without(xs, key, k) + Without(ys, key, k)
    decreases |xs|
  {
    if xs == [] {
      assert [] + ys == ys;
    } else {
      var zs := xs + ys;
      var head: seq<T> := if key(xs[0]) == k then [] else [xs[0]];
      assert zs[0] == xs[0] && zs[1..] == xs[1..] + ys;
      assert Without(zs, key, k) == head + Without(xs[1..] + ys, key, k);
      WithoutConcat(xs[1..], ys, key, k);
      assert Without(xs, key, k) == head + Without(xs[1..], key, k);
      ConcatAssoc(head, Without(xs[1..], key, k), Without(ys, key, k));
    }
  }

  /** Removing a listener drops every occurrence of it and keeps the rest in order. */
  lemma {:induction false} RemoveFromFlat(a: Listener, x: nat)
    ensures FlatOpt(RemoveFrom(a, Some(x))) == Without(Flat(a), NatId, x)
  {
    match a
    case Single(y) =>
      assert Flat(a)[1..] == [];
    case Multicaster(l, r) =>
      RemoveFromFlat(l, x);
      RemoveFromFlat(r, x);
      WithoutConcat(Flat(l), Flat(r), NatId, x);
  }

  lemma RemoveListenerFlat(a: Option<Listener>, x: nat)
    ensures FlatOpt(RemoveListener(a, Some(x))) == Without(FlatOpt(a), NatId, x)
  {
    if a.Some? {
      RemoveFromFlat(a.value, x);
    }
  }

  /** Removing null rebuilds the same chain. */
  lemma {:induction false} RemoveNothing(a: Listener)
    ensures RemoveFrom(a, None) == Some(a)
  {
    match a
    case Single(_) =>
    case Multicaster(l, r) =>
      RemoveNothing(l);
      RemoveNothing(r);
  }

  // ---------------------------------------------------------------------
  // The registry
  // ---------------------------------------------------------------------

  /** A ServiceRegistrationImpl: owner, objectClass names, service object, hook interfaces. */
  datatype Registration = Registration(owner: Bundle, classes: seq<string>, svc: Obj, instanceOf: set<HookKind>)

  function Id(x: ServiceId): ServiceId { x }

  /** A bundle's registrations, the empty array standing for none. */
  function RegsOf(m: map<Bundle, seq<ServiceId>>, b: Bundle): seq<ServiceId>
  {
    if b in m then m[b] else []
  }

  /** Does getServiceReferences select registration `x`? */
  predicate Selects(reg: Registration, x: ServiceId, className: Option<string>, filter: Option<ServiceId -> bool>)
  {
    (className.None? || className.value in reg.classes) && (filter.None? || filter.value(x))
  }

  /** Counting the first record for `r` is an update at its position. */
  lemma {:induction false} AdjustAt(us: seq<Usage>, r: ServiceId, d: int, i: nat)
    requires i < |us| && us[i].ref == r
    requires forall j :: 0 <= j < i ==> us[j].ref != r
    ensures Adjust(us, r, d) == us[i := us[i].(count := us[i].count + d)]
    decreases i
  {
    if i > 0 {
      AdjustAt(us[1..], r, d, i - 1);
      assert [us[0]] + us[1..][i - 1 := us[i].(count := us[i].count + d)] == us[i := us[i].(count := us[i].count + d)];
    }
  }

  lemma FindStep(us: seq<Usage>, r: ServiceId, k: nat)
    requires k < |us| && us[k].ref != r
    ensures Find(us[k..], r) == Find(us[k + 1..], r)
  {
    assert us[k..][1..] == us[k + 1..];
  }

  /** What flushUsageCount relies on for bundle `b`'s array. */
  /** Appending an id not yet registered keeps a bundle's array duplicate-free. */
  lemma AppendFresh(regs: seq<ServiceId>, known: map<ServiceId, Registration>, id: ServiceId)
    requires DistinctBy(regs, Id)
    requires forall i :: 0 <= i < |regs| ==> regs[i] in known
    requires id !in known
    ensures DistinctBy(regs + [id], Id)
  {
    var added := regs + [id];
    forall i, j | 0 <= i < j < |added| ensures Id(added[i]) != Id(added[j]) {
      if j < |regs| {
        assert added[i] == regs[i] && added[j] == regs[j];
      } else {
        assert added[i] == regs[i];
      }
    }
  }

  predicate FlushReady(t: InUse, b: Bundle)
  {
    b in t ==> t[b] != [] && DistinctBy(t[b], UsageRef)
  }

  lemma TableFlushReady(t: InUse, b: Bundle)
    requires TableOk(t)
    ensures FlushReady(t, b)
  {
  }

  /** Taking a free lock and releasing it again leaves the lock map as it was. */
  lemma LockRelease(m: map<ServiceId, Thread>, r: ServiceId, t: Thread)
    requires r !in m
    ensures m[r := t] - {r} == m
  {
  }

  class ServiceRegistry {
    var currentServiceId: nat
    var regsMap: map<Bundle, seq<ServiceId>>
    var registrations: map<ServiceId, Registration>
    var valid: set<ServiceId>
    var lockedRegs: map<ServiceId, Thread>
    var inUse: InUse
    var eventHooks: seq<Obj>
    var findHooks: seq<Obj>
    var listenerHooks: seq<Obj>
    var listener: Option<Listener>

    /**
     * Ids handed out so far are below the next one; each bundle's array
     * holds known registrations, each once.
     */
    ghost predicate RegsOk()
      reads this`currentServiceId, this`registrations, this`regsMap
    {
      1 <= currentServiceId
      && (forall x :: x in registrations ==> 1 <= x < currentServiceId)
      && (forall b :: b in regsMap ==>
            DistinctBy(regsMap[b], Id)
            && forall i :: 0 <= i < |regsMap[b]| ==> regsMap[b][i] in registrations)
      && (forall b, c, x :: b in regsMap && c in regsMap && x in regsMap[b] && x in regsMap[c] ==> b == c)
    }

    /** The registrations are in order and the in-use map is well formed. */
    ghost predicate Valid()
      reads this
    {
      RegsOk() && TableOk(inUse)
    }

    constructor ()
      ensures Valid()
      ensures currentServiceId == 1
      ensures regsMap == map[] && registrations == map[] && valid == {}
      ensures lockedRegs == map[] && inUse == map[]
      ensures eventHooks == [] && findHooks == [] && listenerHooks == []
      ensures listener == None
    {
      currentServiceId := 1;
      regsMap := map[];
      registrations := map[];
      valid := {};
      lockedRegs := map[];
      inUse := map[];
      eventHooks := [];
      findHooks := [];
      listenerHooks := [];
      listener := None;
    }

    /** The hook array of one kind. */
    function Hooks(k: HookKind): seq<Obj>
      reads this`eventHooks, this`findHooks, this`listenerHooks
    {
      match k
      case EventHookKind => eventHooks
      case FindHookKind => findHooks
      case ListenerHookKind => listenerHooks
    }

    /** addHooks: append the object to every hook array whose hook it is. */
    method AddHooks(classNames: seq<string>, svc: Obj, instanceOf: set<HookKind>)
      modifies this`eventHooks, this`findHooks, this`listenerHooks
      ensures forall k :: Hooks(k) == old(Hooks(k)) + AddedHook(k, classNames, svc, instanceOf)
    {
      var isEvent := IsHook(classNames, EventHookKind, instanceOf);
      if isEvent {
        eventHooks := eventHooks + [svc];
      }
      var isFind := IsHook(classNames, FindHookKind, instanceOf);
      if isFind {
        findHooks := findHooks + [svc];
      }
      var isListener := IsHook(classNames, ListenerHookKind, instanceOf);
      if isListener {
        listenerHooks := listenerHooks + [svc];
      }
    }

    /** removeHook: drop the object from every hook array whose interface it implements. */
    method RemoveHook(svc: Obj, instanceOf: set<HookKind>)
      modifies this`eventHooks, this`findHooks, this`listenerHooks
      ensures forall k :: Hooks(k) == (if k in instanceOf then RemoveFirst(old(Hooks(k)), svc) else old(Hooks(k)))
    {
      if EventHookKind in instanceOf {
        eventHooks := RemoveFromArray(eventHooks, svc);
      }
      if FindHookKind in instanceOf {
        findHooks := RemoveFromArray(findHooks, svc);
      }
      if ListenerHookKind in instanceOf {
        listenerHooks := RemoveFromArray(listenerHooks, svc);
      }
    }

    /**
     * registerService: record the hooks, hand out the next service id and
     * append the registration to its bundle's array.
     */
    method RegisterService(b: Bundle, classNames: seq<string>, svc: Obj, instanceOf: set<HookKind>)
      returns (id: ServiceId)
      requires Valid()
      modifies this`eventHooks, this`findHooks, this`listenerHooks
      modifies this`currentServiceId, this`registrations, this`regsMap, this`valid
      ensures Valid()
      ensures id == old(currentServiceId) && currentServiceId == id + 1
      ensures id !in old(registrations)
      ensures registrations == old(registrations)[id := Registration(b, classNames, svc, instanceOf)]
      ensures regsMap == old(regsMap)[b := RegsOf(old(regsMap), b) + [id]]
      ensures valid == old(valid) + {id}
      ensures forall k :: Hooks(k) == old(Hooks(k)) + AddedHook(k, classNames, svc, instanceOf)
      ensures lockedRegs == old(lockedRegs) && inUse == old(inUse) && listener == old(listener)
    {
      AddHooks(classNames, svc, instanceOf);
      id := AddRegistration(b, Registration(b, classNames, svc, instanceOf));
    }

    /** The id-handing and bookkeeping half of registerService. */
    method AddRegistration(b: Bundle, reg: Registration) returns (id: ServiceId)
      requires RegsOk()
      modifies this`currentServiceId, this`registrations, this`regsMap, this`valid
      ensures RegsOk()
      ensures id == old(currentServiceId) && currentServiceId == id + 1
      ensures id !in old(registrations)
      ensures registrations == old(registrations)[id := reg]
      ensures regsMap == old(regsMap)[b := RegsOf(old(regsMap), b) + [id]]
      ensures valid == old(valid) + {id}
    {
      id := currentServiceId;
      currentServiceId := currentServiceId + 1;
      registrations := registrations[id := reg];
      var regs := RegsOf(regsMap, b);
      AppendFresh(regs, old(registrations), id);
      regsMap := regsMap[b := regs + [id]];
      valid := valid + {id};
    }

    /** getUsageCount: the position of bundle `b`'s record for `r`, or -1. */
    method GetUsageCount(b: Bundle, r: ServiceId) returns (i: int)
      ensures i == -1 <==> UsageOf(inUse, b, r).None?
      ensures i != -1 ==>
        b in inUse && 0 <= i < |inUse[b]| && UsageOf(inUse, b, r) == Some(inUse[b][i])
        && inUse[b][i].ref == r && forall j :: 0 <= j < i ==> inUse[b][j].ref != r
    {
      if b !in inUse {
        return -1;
      }
      var usages := inUse[b];
      i := 0;
      while i < |usages|
        invariant 0 <= i <= |usages|
        invariant forall j :: 0 <= j < i ==> usages[j].ref != r
        invariant Find(usages, r) == Find(usages[i..], r)
      {
        if usages[i].ref == r {
          return i;
        }
        FindStep(usages, r, i);
        i := i + 1;
      }
      return -1;
    }

    /** addUsageCount: append a record with count 1 for a newly obtained object. */
    method AddUsageCount(b: Bundle, r: ServiceId, o: Obj)
      modifies this`inUse
      ensures inUse == Added(old(inUse), b, r, o)
    {
      var usages := if b in inUse then inUse[b] else [];
      inUse := inUse[b := usages + [Usage(r, 1, o)]];
    }

    /**
     * usage.m_count += d on the record getUsageCount found at position `i`;
     * the record is a value here, so the array is rebuilt around it.
     */
    method CountUsage(b: Bundle, r: ServiceId, i: int, d: int)
      requires b in inUse && 0 <= i < |inUse[b]| && inUse[b][i].ref == r
      requires forall j :: 0 <= j < i ==> inUse[b][j].ref != r
      requires FlushReady(inUse, b)
      modifies this`inUse
      ensures inUse == Adjusted(old(inUse), b, r, d)
      ensures FlushReady(inUse, b)
    {
      var usages := inUse[b];
      AdjustAt(usages, r, d, i);
      var counted := usages[i := usages[i].(count := usages[i].count + d)];
      assert DistinctBy(counted, UsageRef) by {
        forall x, y | 0 <= x < y < |counted| ensures UsageRef(counted[x]) != UsageRef(counted[y]) {
          assert counted[x].ref == usages[x].ref && counted[y].ref == usages[y].ref;
        }
      }
      inUse := inUse[b := counted];
    }

    /**
     * flushUsageCount: remove bundle `b`'s record for `r`, and the bundle's
     * entry when no record is left (the empty result of the copy loop
     * standing for the null array).
     */
    method FlushUsageCount(b: Bundle, r: ServiceId)
      requires FlushReady(inUse, b)
      modifies this`inUse
      ensures inUse == Flushed(old(inUse), b, r)
    {
      if b in inUse {
        var usages := RemoveEntry(inUse[b], UsageRef, r);
        if usages == [] {
          inUse := inUse - {b};
        } else {
          inUse := inUse[b := usages];
        }
      }
    }
 
    /**
     * getService: a registration locked by the calling thread is a cycle,
     * one locked by another thread means waiting; otherwise the
     * registration is locked for the bookkeeping and unlocked on every
     * way out.
     */
    method GetService(t: Thread, b: Bundle, r: ServiceId, fetch: Fetch) returns (o: Outcome<Option<Obj>>)
      requires Valid()
      modifies this`inUse, this`lockedRegs
      ensures Valid()
      ensures lockedRegs == old(lockedRegs)
      ensures r in old(lockedRegs) ==>
        inUse == old(inUse) && o == (if old(lockedRegs)[r] == t then Cycle else Blocked)
      ensures r !in old(lockedRegs) ==> (inUse, o) == Get(old(inUse), b, r, r in valid, fetch)
    {
      if r in lockedRegs {
        if lockedRegs[r] == t {
          return Cycle;
        }
        return Blocked;
      }
      LockRelease(lockedRegs, r, t);
      lockedRegs := lockedRegs[r := t];
      TableGet(inUse, b, r, r in valid, fetch);
      TableFlushReady(inUse, b);
      var i := -1;
      if r !in valid {
        FlushUsageCount(b, r);
        o := Done(None);
      } else {
        i := GetUsageCount(b, r);
        if i >= 0 {
          var u := inUse[b][i];
          CountUsage(b, r, i, 1);
          o := Done(Some(u.svc));
        }
      }
      if r in valid && i < 0 {
        match fetch
        case Threw =>
          lockedRegs := lockedRegs - {r};
          return CallbackFailed;
        case Returned(None) =>
          o := Done(None);
        case Returned(Some(x)) =>
          AddUsageCount(b, r, x);
          o := Done(Some(x));
      }
      lockedRegs := lockedRegs - {r};
    }

    /**
     * ungetService: the same guard; without a record it answers false at
     * once, otherwise the registration is locked for the bookkeeping and
     * unlocked on every way out. `releaseFails` is whether the factory
     * throws when handed the object back.
     */
    method UngetService(t: Thread, b: Bundle, r: ServiceId, releaseFails: bool) returns (o: Outcome<bool>)
      requires Valid()
      modifies this`inUse, this`lockedRegs
      ensures Valid()
      ensures lockedRegs == old(lockedRegs)
      ensures r in old(lockedRegs) ==>
        inUse == old(inUse) && o == (if old(lockedRegs)[r] == t then Cycle else Blocked)
      ensures r !in old(lockedRegs) ==> (inUse, o) == Unget(old(inUse), b, r, r in valid, releaseFails)
    {
      if r in lockedRegs {
        if lockedRegs[r] == t {
          return Cycle;
        }
        return Blocked;
      }
      var i := GetUsageCount(b, r);
      if i < 0 {
        return Done(false);
      }
      TableUnget(inUse, b, r, r in valid, releaseFails);
      TableFlushReady(inUse, b);
      var usage := inUse[b][i];
      LockRelease(lockedRegs, r, t);
      lockedRegs := lockedRegs[r := t];
      var count := usage.count;
      if r !in valid {
        TableFlushed(inUse, b, r);
        FlushUsageCount(b, r);
        TableFlushReady(inUse, b);
      } else {
        CountUsage(b, r, i, -1);
        count := count - 1;
      }
      if count == 0 {
        FlushUsageCount(b, r);
        if releaseFails {
          lockedRegs := lockedRegs - {r};
          return CallbackFailed;
        }
      }
      lockedRegs := lockedRegs - {r};
      o := Done(count > 0);
    }
 
    /** The bundles holding a record for `r`. */
    ghost predicate Using(x: Bundle, r: ServiceId)
      reads this`inUse
    {
      Uses(inUse, x, r)
    }

    /**
     * getUsingBundles: every bundle with a record for `r`, or null when
     * there is none.
     */
    method GetUsingBundles(r: ServiceId) returns (bundles: Option<seq<Bundle>>)
      ensures bundles.None? <==> forall x :: !Using(x, r)
      ensures bundles.Some? ==> forall x :: x in bundles.value <==> Using(x, r)
    {
      bundles := None;
      var keys := inUse.Keys;
      while keys != {}
        invariant keys <= inUse.Keys
        invariant forall x :: x in inUse && x !in keys ==>
          (Using(x, r) <==> bundles.Some? && x in bundles.value)
        invariant bundles.Some? ==> bundles.value != []
        invariant bundles.Some? ==> forall x :: x in bundles.value ==> x !in keys && Using(x, r)
        decreases keys
      {
        var b :| b in keys;
        var usages := inUse[b];
        var j := 0;
        while j < |usages|
          invariant 0 <= j <= |usages|
          invariant bundles.Some? ==> bundles.value != []
          invariant bundles.Some? ==> forall x :: x in bundles.value ==> (x !in keys || x == b) && Using(x, r)
          invariant forall x :: x in inUse && x !in keys ==>
            (Using(x, r) <==> bundles.Some? && x in bundles.value)
          invariant (bundles.Some? && b in bundles.value) <==> exists m :: 0 <= m < j && usages[m].ref == r
        {
          if usages[j].ref == r {
            if bundles.None? {
              bundles := Some([b]);
            } else {
              bundles := Some(bundles.value + [b]);
            }
          }
          j := j + 1;
        }
        keys := keys - {b};
      }
      if bundles.Some? {
        assert Using(bundles.value[0], r);
      }
    }
 
    /**
     * The inner loop of unregisterService: unget the service for bundle
     * `c` until the unget answers false.
     */
    method UngetAll(t: Thread, c: Bundle, r: ServiceId) returns (o: Outcome<()>)
      requires Valid()
      modifies this`inUse, this`lockedRegs
      ensures Valid() && lockedRegs == old(lockedRegs)
      ensures o.Done? <==> r !in old(lockedRegs)
      ensures o.Done? ==> !Using(c, r)
      ensures o.Done? ==> forall x, r2 :: (x != c || r2 != r) ==>
        UsageOf(inUse, x, r2) == UsageOf(old(inUse), x, r2)
      ensures !o.Done? ==> inUse == old(inUse) && o == (if old(lockedRegs)[r] == t then Cycle else Blocked)
    {
      var more := true;
      CountNonnegative(inUse, c, r);
      while more
        invariant Valid() && lockedRegs == old(lockedRegs)
        invariant r in lockedRegs ==> inUse == old(inUse)
        invariant !more ==> !Using(c, r) && r !in lockedRegs
        invariant forall x, r2 :: (x != c || r2 != r) ==>
          UsageOf(inUse, x, r2) == UsageOf(old(inUse), x, r2)
        invariant Count(inUse, c, r) >= 0
        decreases if more then Count(inUse, c, r) + 1 else 0
      {
        ghost var before := inUse;
        var u := UngetService(t, c, r, false);
        if !u.Done? {
          return if u.Cycle? then Cycle else Blocked;
        }
        forall x, r2 | x != c || r2 != r
          ensures UsageOf(inUse, x, r2) == UsageOf(before, x, r2)
        {
          UngetOthers(before, c, r, r in valid, false, x, r2);
        }
        if u.value {
          UngetTrueShrinks(before, c, r, r in valid);
        } else {
          UngetFalseDrains(before, c, r, r in valid);
        }
        CountNonnegative(inUse, c, r);
        more := u.value;
      }
      o := Done(());
    }

    /** The outer loop of unregisterService: drain every client in turn. */
    method UngetClients(t: Thread, r: ServiceId, clients: seq<Bundle>) returns (o: Outcome<()>)
      requires Valid()
      requires forall x :: Using(x, r) ==> x in clients
      modifies this`inUse, this`lockedRegs
      ensures Valid() && lockedRegs == old(lockedRegs)
      ensures o.Done? <==> !(r in old(lockedRegs) && clients != [])
      ensures o.Done? ==> forall x :: !Using(x, r)
      ensures o.Done? ==> forall x, r2 :: r2 != r ==> UsageOf(inUse, x, r2) == UsageOf(old(inUse), x, r2)
      ensures !o.Done? ==> inUse == old(inUse) && o == (if old(lockedRegs)[r] == t then Cycle else Blocked)
    {
      var i := 0;
      while i < |clients|
        invariant 0 <= i <= |clients|
        invariant Valid() && lockedRegs == old(lockedRegs)
        invariant r in lockedRegs ==> inUse == old(inUse) && i == 0
        invariant forall x :: Using(x, r) ==> x in clients[i..]
        invariant forall x, r2 :: r2 != r ==> UsageOf(inUse, x, r2) == UsageOf(old(inUse), x, r2)
      {
        ghost var before := inUse;
        var c := clients[i];
        o := UngetAll(t, c, r);
        if !o.Done? {
          return;
        }
        forall x | Using(x, r) ensures x in clients[i + 1..] {
          assert UsageOf(inUse, x, r) == UsageOf(before, x, r);
          assert x in clients[i..];
          assert x != clients[i];
          var m :| i <= m < |clients| && clients[m] == x;
          assert clients[m] == clients[i + 1..][m - i - 1];
        }
        i := i + 1;
      }
      o := Done(());
    }
 
    /**
     * unregisterService: drop the hooks, take the registration out of its
     * bundle's array, unget the service for every bundle still using it
     * until each answers false, then mark the registration invalid.
     */
    method UnregisterService(t: Thread, b: Bundle, r: ServiceId) returns (o: Outcome<()>)
      requires Valid() && r in registrations
      modifies this`eventHooks, this`findHooks, this`listenerHooks, this`regsMap
      modifies this`inUse, this`lockedRegs, this`valid
      ensures Valid()
      ensures forall k :: Hooks(k) == (if k in old(registrations[r].instanceOf)
        then RemoveFirst(old(Hooks(k)), old(registrations[r].svc)) else old(Hooks(k)))
      ensures regsMap == (if b in old(regsMap) then old(regsMap)[b := Without(old(regsMap)[b], Id, r)]
        else old(regsMap))
      ensures currentServiceId == old(currentServiceId) && registrations == old(registrations)
      ensures lockedRegs == old(lockedRegs) && listener == old(listener)
      ensures o.Done? <==> !(r in old(lockedRegs) && exists x :: Uses(old(inUse), x, r))
      ensures o.Done? ==> valid == old(valid) - {r} && forall x :: !Using(x, r)
      ensures o.Done? ==> forall x, r2 :: r2 != r ==> UsageOf(inUse, x, r2) == UsageOf(old(inUse), x, r2)
      ensures !o.Done? ==>
        valid == old(valid) && inUse == old(inUse) && o == (if old(lockedRegs)[r] == t then Cycle else Blocked)
    {
      var reg := registrations[r];
      RemoveHook(reg.svc, reg.instanceOf);
      RemoveServiceRegistration(b, r);
      o := ForceUnget(t, r);
      if o.Done? {
        valid := valid - {r};
      }
    }

    /** removeServiceRegistration on bundle `b`'s array, a missing array staying missing. */
    method RemoveServiceRegistration(b: Bundle, r: ServiceId)
      requires RegsOk()
      modifies this`regsMap
      ensures RegsOk()
      ensures regsMap == (if b in old(regsMap) then old(regsMap)[b := Without(old(regsMap)[b], Id, r)]
        else old(regsMap))
    {
      if b in regsMap {
        var regs := RemoveEntry(regsMap[b], Id, r);
        WithoutDistinct(regsMap[b], Id, r);
        regsMap := regsMap[b := regs];
      }
    }

    /** The forced unget of unregisterService for every bundle still using `r`. */
    method ForceUnget(t: Thread, r: ServiceId) returns (o: Outcome<()>)
      requires Valid()
      modifies this`inUse, this`lockedRegs
      ensures Valid() && lockedRegs == old(lockedRegs)
      ensures o.Done? <==> !(r in old(lockedRegs) && exists x :: Uses(old(inUse), x, r))
      ensures o.Done? ==> forall x :: !Using(x, r)
      ensures o.Done? ==> forall x, r2 :: r2 != r ==> UsageOf(inUse, x, r2) == UsageOf(old(inUse), x, r2)
      ensures !o.Done? ==> inUse == old(inUse) && o == (if old(lockedRegs)[r] == t then Cycle else Blocked)
    {
      var clients := GetUsingBundles(r);
      if clients.None? {
        forall x ensures !Uses(old(inUse), x, r) {
          assert !Using(x, r);
        }
        o := Done(());
      } else {
        assert Using(clients.value[0], r);
        assert Uses(old(inUse), clients.value[0], r);
        o := UngetClients(t, r, clients.value);
      }
    }

    /**
     * getServiceReferences: every registered service whose objectClass
     * names `className` (any, when null) and whose reference the filter
     * matches (any, when null).
     */
    method GetServiceReferences(className: Option<string>, filter: Option<ServiceId -> bool>)
      returns (refs: seq<ServiceId>)
      requires RegsOk()
      ensures forall x :: x in refs <==> Chosen(x, className, filter)
      ensures DistinctBy(refs, Id)
    {
      refs := [];
      var keys := regsMap.Keys;
      while keys != {}
        invariant keys <= regsMap.Keys
        invariant forall x :: x in refs <==> ChosenOutside(keys, x, className, filter)
        invariant DistinctBy(refs, Id)
        decreases keys
      {
        var b :| b in keys;
        var regs := regsMap[b];
        var j := 0;
        while j < |regs|
          invariant 0 <= j <= |regs|
          invariant forall x :: x in refs <==>
            ChosenOutside(keys, x, className, filter) || (x in regs[..j] && Picked(x, className, filter))
          invariant DistinctBy(refs, Id)
        {
          var x := regs[j];
          var matched := Matches(x, className, filter);
          if matched {
            NotYetChosen(keys, b, j, className, filter);
            assert x !in refs;
            refs := refs + [x];
          }
          assert regs[..j + 1] == regs[..j] + [x];
          j := j + 1;
        }
        assert regs[..j] == regs;
        forall x ensures (x in refs <==> ChosenOutside(keys - {b}, x, className, filter)) {
          if x in regs && Picked(x, className, filter) {
            assert ChosenOutside(keys - {b}, x, className, filter) by {
              assert b in regsMap && b !in keys - {b} && x in regsMap[b];
            }
          }
          if ChosenOutside(keys - {b}, x, className, filter) {
            var c :| c in regsMap && c !in keys - {b} && x in regsMap[c] && Picked(x, className, filter);
            if c != b {
              assert ChosenOutside(keys, x, className, filter);
            }
          }
        }
        keys := keys - {b};
      }
    }

    /** Registration `x` is known and getServiceReferences would select it. */
    /** The next registration of a bundle still to visit has not been chosen yet. */
    lemma NotYetChosen(keys: set<Bundle>, b: Bundle, j: nat, className: Option<string>,
                       filter: Option<ServiceId -> bool>)
      requires RegsOk() && b in keys && keys <= regsMap.Keys && j < |regsMap[b]|
      ensures !ChosenOutside(keys, regsMap[b][j], className, filter)
      ensures regsMap[b][j] !in regsMap[b][..j]
    {
      var regs := regsMap[b];
      assert regs[j] in regs;
      forall i | 0 <= i < j
        ensures regs[..j][i] != regs[j]
      {
        assert regs[..j][i] == regs[i] && Id(regs[i]) != Id(regs[j]);
      }
    }

    ghost predicate Picked(x: ServiceId, className: Option<string>, filter: Option<ServiceId -> bool>)
      reads this`registrations
    {
      x in registrations && Selects(registrations[x], x, className, filter)
    }

    /** Registration `x` is in some bundle's array and getServiceReferences would select it. */
    ghost predicate Chosen(x: ServiceId, className: Option<string>, filter: Option<ServiceId -> bool>)
      reads this`registrations, this`regsMap
    {
      exists c :: c in regsMap && x in regsMap[c] && Picked(x, className, filter)
    }

    ghost predicate ChosenOutside(keys: set<Bundle>, x: ServiceId, className: Option<string>,
                                  filter: Option<ServiceId -> bool>)
      reads this`registrations, this`regsMap
    {
      exists c :: c in regsMap && c !in keys && x in regsMap[c] && Picked(x, className, filter)
    }

    /**
     * The match test for one registration: with a class name, a search of
     * its objectClass array for that name.
     */
    method Matches(x: ServiceId, className: Option<string>, filter: Option<ServiceId -> bool>)
      returns (matched: bool)
      requires x in registrations
      ensures matched <==> Selects(registrations[x], x, className, filter)
    {
      matched := false;
      if className.None? && (filter.None? || filter.value(x)) {
        matched := true;
      } else if className.Some? {
        var objectClass := registrations[x].classes;
        var k := 0;
        while k < |objectClass|
          invariant 0 <= k <= |objectClass|
          invariant !matched
          invariant forall m :: 0 <= m < k ==> objectClass[m] != className.value || !(filter.None? || filter.value(x))
        {
          if objectClass[k] == className.value && (filter.None? || filter.value(x)) {
            matched := true;
            break;
          }
          k := k + 1;
        }
      }
    }

    /** addServiceListener: chain the listener after the present ones. */
    method AddServiceListener(l: Option<nat>)
      modifies this`listener
      ensures listener == AddListener(old(listener), if l.None? then None else Some(Single(l.value)))
    {
      listener := AddListener(listener, if l.None? then None else Some(Single(l.value)));
    }

    /** removeServiceListener: take every occurrence of the listener out of the chain. */
    method RemoveServiceListener(l: Option<nat>)
      modifies this`listener
      ensures listener == RemoveListener(old(listener), l)
    {
      listener := RemoveListener(listener, l);
    }
  }
}
