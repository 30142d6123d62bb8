/** Sequences of records looked up by a string id: the three array idioms the
    services use on the store (`find` by id, `filter` out by id, and the
    favorites hydration `ids.map(find).filter(Boolean)`), each defined once for
    any record type together with what it guarantees. */
module Keyed {
  import opened Outcomes

  type Id = string

  /** The textual UUID check (`validate` from the `uuid` package). Its exact
      grammar is not modelled: every operation receives it as a parameter. */
  type IdCheck = string -> bool

  /** Some record in `xs` has id `id`. */
  predicate HasKey<T>(xs: seq<T>, key: T -> Id, id: Id) {
    exists j :: 0 <= j < |xs| && key(xs[j]) == id
  }

  /** No two records in `xs` share an id. */
  predicate UniqueKeys<T>(xs: seq<T>, key: T -> Id) {
    forall i, j :: 0 <= i < |xs| && 0 <= j < |xs| && key(xs[i]) == key(xs[j]) ==> i == j
  }

  /** No id occurs twice in `ids`. */
  predicate NoDuplicates(ids: seq<Id>) {
    forall i, j :: 0 <= i < |ids| && 0 <= j < |ids| && ids[i] == ids[j] ==> i == j
  }

  /** The position of the first record with id `id`: the record that
      `xs.find((x) => x.id === id)` returns. */
  function IndexOf<T>(xs: seq<T>, key: T -> Id, id: Id): (r: Option<nat>)
    ensures r.Some? ==> r.value < |xs| && key(xs[r.value]) == id
    ensures r.Some? ==> forall j :: 0 <= j < r.value ==> key(xs[j]) != id
    ensures r.None? <==> !HasKey(xs, key, id)
  {
    if |xs| == 0 then None
    else if key(xs[0]) == id then Some(0)
    else
      match IndexOf(xs[1..], key, id)
      case None =>
        assert forall j :: 1 <= j < |xs| ==> xs[j] == xs[1..][j - 1];
        None
      case Some(k) => Some(k + 1)
  }

  /** The first position holding the id is the one `IndexOf` reports. */
  lemma IndexOfFirst<T>(xs: seq<T>, key: T -> Id, id: Id, i: nat)
    requires i < |xs| && key(xs[i]) == id
    requires forall j :: 0 <= j < i ==> key(xs[j]) != id
    ensures IndexOf(xs, key, id) == Some(i)
  {
    assert HasKey(xs, key, id);
  }

  /** Overwriting the record `find` located with one of the same id leaves
      it where `find` will locate it again. */
  lemma IndexOfAfterUpdate<T>(xs: seq<T>, key: T -> Id, id: Id, i: nat, y: T)
    requires IndexOf(xs, key, id) == Some(i)
    requires key(y) == id
    ensures IndexOf(xs[i := y], key, id) == Some(i)
  {
    var u := xs[i := y];
    forall j | 0 <= j < i
      ensures key(u[j]) != id
    {
      assert u[j] == xs[j];
    }
    IndexOfFirst(u, key, id, i);
  }

  /** `xs.find((x) => x.id === id)`, with `undefined` as `None`. */
  function Find<T>(xs: seq<T>, key: T -> Id, id: Id): (r: Option<T>)
    ensures r.Some? <==> HasKey(xs, key, id)
    ensures r.Some? ==> r.value in xs && key(r.value) == id
  {
    match IndexOf(xs, key, id)
    case None => None
    case Some(i) => Some(xs[i])
  }

  /** The common shape of every `findOne`: a malformed id is rejected before
      the lookup, an id naming no record is NotFound, and otherwise the first
      record with that id is returned. */
  function Lookup<T>(isUuid: IdCheck, xs: seq<T>, key: T -> Id, id: Id): (r: Result<T>)
    ensures !isUuid(id) ==> r == Err(BadRequest)
    ensures isUuid(id) && !HasKey(xs, key, id) ==> r == Err(NotFound)
    ensures r.Ok? <==> isUuid(id) && HasKey(xs, key, id)
    ensures r.Ok? ==> r.value in xs && key(r.value) == id
  {
    if !isUuid(id) then Err(BadRequest)
    else
      match Find(xs, key, id)
      case None => Err(NotFound)
      case Some(x) => Ok(x)
  }

  /** `xs.filter((x) => x.id !== id)`. */
  function RemoveKey<T(==,!new)>(xs: seq<T>, key: T -> Id, id: Id): (r: seq<T>)
    ensures |r| <= |xs|
    ensures !HasKey(r, key, id)
    ensures forall x :: x in r <==> x in xs && key(x) != id
  {
    if |xs| == 0 then []
    else if key(xs[0]) == id then RemoveKey(xs[1..], key, id)
    else
      var rest := RemoveKey(xs[1..], key, id);
      assert forall x :: x in xs <==> x == xs[0] || x in xs[1..];
      [xs[0]] + rest
  }

  function Identity(id: Id): Id {
    id
  }

  /** `ids.filter((x) => x !== id)` on a list of bare ids. */
  function Without(ids: seq<Id>, id: Id): (r: seq<Id>)
    ensures |r| <= |ids|
    ensures id !in r
    ensures forall x :: x in r <==> x in ids && x != id
  {
    RemoveKey(ids, Identity, id)
  }

  /** Filtering distributes over concatenation: it keeps the survivors of
      each part in their original relative order. */
  lemma {:induction false} RemoveKeyAppend<T(!new)>(a: seq<T>, b: seq<T>, key: T -> Id, id: Id)
    ensures RemoveKey(a + b, key, id) == RemoveKey(a, key, id) + RemoveKey(b, key, id)
  {
    if |a| == 0 {
      assert a + b == b;
    } else {
      assert (a + b)[1..] == a[1..] + b;
      RemoveKeyAppend(a[1..], b, key, id);
    }
  }

  /** Filtering out an id that is absent changes nothing. */
  lemma {:induction false} RemoveKeyAbsent<T(!new)>(xs: seq<T>, key: T -> Id, id: Id)
    requires !HasKey(xs, key, id)
    ensures RemoveKey(xs, key, id) == xs
  {
    if |xs| > 0 {
      assert key(xs[0]) != id;
      assert !HasKey(xs[1..], key, id) by {
        forall j | 0 <= j < |xs[1..]|
          ensures key(xs[1..][j]) != id
        {
          assert xs[1..][j] == xs[j + 1];
        }
      }
      RemoveKeyAbsent(xs[1..], key, id);
    }
  }

  /** When ids are unique, filtering out a present id removes exactly the
      record at its position and keeps every other record in order. */
  lemma RemoveKeyAt<T(!new)>(xs: seq<T>, key: T -> Id, id: Id, i: nat)
    requires UniqueKeys(xs, key)
    requires i < |xs| && key(xs[i]) == id
    ensures RemoveKey(xs, key, id) == xs[..i] + xs[i + 1..]
  {
    var pre, mid, post := xs[..i], [xs[i]], xs[i + 1..];
    assert xs == pre + mid + post;
    assert !HasKey(pre, key, id) by {
      forall j | 0 <= j < |pre|
        ensures key(pre[j]) != id
      {
        assert pre[j] == xs[j];
      }
    }
    assert !HasKey(post, key, id) by {
      forall j | 0 <= j < |post|
        ensures key(post[j]) != id
      {
        assert post[j] == xs[i + 1 + j];
      }
    }
    RemoveKeyAppend(pre + mid, post, key, id);
    RemoveKeyAppend(pre, mid, key, id);
    RemoveKeyAbsent(pre, key, id);
    RemoveKeyAbsent(post, key, id);
    assert RemoveKey(mid, key, id) == [];
  }

  /** Filtering keeps ids unique. */
  lemma RemoveKeyKeepsUnique<T(!new)>(xs: seq<T>, key: T -> Id, id: Id)
    requires UniqueKeys(xs, key)
    ensures UniqueKeys(RemoveKey(xs, key, id), key)
  {
    match IndexOf(xs, key, id)
    case None =>
      RemoveKeyAbsent(xs, key, id);
    case Some(i) =>
      RemoveKeyAt(xs, key, id, i);
      var r := xs[..i] + xs[i + 1..];
      forall a, b | 0 <= a < |r| && 0 <= b < |r| && key(r[a]) == key(r[b])
        ensures a == b
      {
        var a' := if a < i then a else a + 1;
        var b' := if b < i then b else b + 1;
        assert r[a] == xs[a'] && r[b] == xs[b'];
      }
  }

  /** Filtering out one id keeps every record with another id findable. */
  lemma RemoveKeyKeepsOthers<T(!new)>(xs: seq<T>, key: T -> Id, id: Id, other: Id)
    requires HasKey(xs, key, other) && other != id
    ensures HasKey(RemoveKey(xs, key, id), key, other)
  {
    var j :| 0 <= j < |xs| && key(xs[j]) == other;
    assert xs[j] in RemoveKey(xs, key, id);
  }

  /** Overwriting a record with one of the same id keeps the set of ids and
      their uniqueness. */
  lemma UpdateKeepsKeys<T>(xs: seq<T>, key: T -> Id, i: nat, y: T)
    requires i < |xs| && key(y) == key(xs[i])
    ensures forall id :: HasKey(xs[i := y], key, id) <==> HasKey(xs, key, id)
    ensures UniqueKeys(xs, key) ==> UniqueKeys(xs[i := y], key)
  {
    var u := xs[i := y];
    assert forall j :: 0 <= j < |xs| ==> key(u[j]) == key(xs[j]);
  }

  /** Appending a record with a fresh id keeps the ids unique and every old
      id findable. */
  lemma AppendKeepsKeys<T>(xs: seq<T>, key: T -> Id, y: T)
    requires !HasKey(xs, key, key(y))
    ensures forall id :: HasKey(xs, key, id) ==> HasKey(xs + [y], key, id)
    ensures UniqueKeys(xs, key) ==> UniqueKeys(xs + [y], key)
  {
    var u := xs + [y];
    assert forall j :: 0 <= j < |xs| ==> u[j] == xs[j];
    assert u[|xs|] == y;
  }

  /** Removing an id from a list without duplicates: the id is gone and the
      other ids keep their relative order. */
  lemma WithoutAt(ids: seq<Id>, i: nat)
    requires NoDuplicates(ids)
    requires i < |ids|
    ensures Without(ids, ids[i]) == ids[..i] + ids[i + 1..]
  {
    assert UniqueKeys(ids, Identity) by {
      forall a, b | 0 <= a < |ids| && 0 <= b < |ids| && Identity(ids[a]) == Identity(ids[b])
        ensures a == b
      {
        assert ids[a] == ids[b];
      }
    }
    RemoveKeyAt(ids, Identity, ids[i], i);
  }

  /** Removing an id that is not in the list leaves the list as it was. */
  lemma WithoutAbsent(ids: seq<Id>, id: Id)
    requires id !in ids
    ensures Without(ids, id) == ids
  {
    assert !HasKey(ids, Identity, id) by {
      forall j | 0 <= j < |ids|
        ensures Identity(ids[j]) != id
      {
        assert ids[j] in ids;
      }
    }
    RemoveKeyAbsent(ids, Identity, id);
  }

  /** Removing an id keeps a list free of duplicates. */
  lemma WithoutKeepsNoDuplicates(ids: seq<Id>, id: Id)
    requires NoDuplicates(ids)
    ensures NoDuplicates(Without(ids, id))
  {
    if id in ids {
      var i :| 0 <= i < |ids| && ids[i] == id;
      WithoutAt(ids, i);
      var r := ids[..i] + ids[i + 1..];
      forall a, b | 0 <= a < |r| && 0 <= b < |r| && r[a] == r[b]
        ensures a == b
      {
        var a' := if a < i then a else a + 1;
        var b' := if b < i then b else b + 1;
        assert r[a] == ids[a'] && r[b] == ids[b'];
      }
    } else {
      WithoutAbsent(ids, id);
    }
  }

  /** What one id contributes to hydration: the record `find` locates, or
      nothing when no record has the id. */
  function Resolved<T>(xs: seq<T>, key: T -> Id, id: Id): (r: seq<T>)
    ensures |r| == 1 <==> HasKey(xs, key, id)
    ensures |r| == 0 <==> !HasKey(xs, key, id)
    ensures |r| == 1 ==> Some(r[0]) == Find(xs, key, id)
  {
    match Find(xs, key, id)
    case None => []
    case Some(x) => [x]
  }

  /** `ids.map((id) => xs.find((x) => x.id === id)).filter(Boolean)`: the
      records the ids name, in the order of the ids, dropping ids that name
      no record. (Records are objects, so `filter(Boolean)` drops exactly the
      `undefined` entries.) */
  function Hydrate<T>(ids: seq<Id>, xs: seq<T>, key: T -> Id): (r: seq<T>)
    ensures |r| <= |ids|
    ensures forall j :: 0 <= j < |r| ==> r[j] in xs && key(r[j]) in ids
  {
    if |ids| == 0 then []
    else
      var head := Resolved(xs, key, ids[0]);
      var rest := Hydrate(ids[1..], xs, key);
      assert forall j :: 0 <= j < |rest| ==> key(rest[j]) in ids by {
        forall j | 0 <= j < |rest|
          ensures key(rest[j]) in ids
        {
          assert key(rest[j]) in ids[1..];
        }
      }
      head + rest
  }

  /** Hydration works id by id: hydrating two lists one after the other is
      hydrating their concatenation. */
  lemma {:induction false} HydrateAppend<T>(a: seq<Id>, b: seq<Id>, xs: seq<T>, key: T -> Id)
    ensures Hydrate(a + b, xs, key) == Hydrate(a, xs, key) + Hydrate(b, xs, key)
  {
    if |a| == 0 {
      assert a + b == b;
    } else {
      assert (a + b)[1..] == a[1..] + b;
      HydrateAppend(a[1..], b, xs, key);
    }
  }

  /** When every id names a record, hydration drops nothing: the i-th result
      is the (first) record named by the i-th id. */
  lemma {:induction false} HydrateResolved<T>(ids: seq<Id>, xs: seq<T>, key: T -> Id)
    requires forall j :: 0 <= j < |ids| ==> HasKey(xs, key, ids[j])
    ensures |Hydrate(ids, xs, key)| == |ids|
    ensures forall j :: 0 <= j < |ids| ==> Some(Hydrate(ids, xs, key)[j]) == Find(xs, key, ids[j])
  {
    if |ids| > 0 {
      assert forall j :: 0 <= j < |ids[1..]| ==> ids[1..][j] == ids[j + 1];
      HydrateResolved(ids[1..], xs, key);
      var r := Hydrate(ids, xs, key);
      forall j | 0 <= j < |ids|
        ensures Some(r[j]) == Find(xs, key, ids[j])
      {
        if j > 0 {
          assert r[j] == Hydrate(ids[1..], xs, key)[j - 1];
        }
      }
    }
  }

  /** Hydration keeps the order of the ids: the records before position `i`
      come from the ids before it, then the record `ids[i]` names (if any),
      then those of the later ids. Dangling ids elsewhere drop out without
      disturbing this. */
  lemma {:induction false} HydrateSplit<T>(ids: seq<Id>, xs: seq<T>, key: T -> Id, i: nat)
    requires i < |ids|
    ensures Hydrate(ids, xs, key)
      == Hydrate(ids[..i], xs, key) + Resolved(xs, key, ids[i]) + Hydrate(ids[i + 1..], xs, key)
  {
    var pre, one, post := ids[..i], [ids[i]], ids[i + 1..];
    assert ids == pre + (one + post);
    HydrateAppend(pre, one + post, xs, key);
    HydrateAppend(one, post, xs, key);
    assert Hydrate(one, xs, key) == Resolved(xs, key, ids[i]) by {
      assert one[1..] == [];
    }
  }

  /** Hydration drops only ids that name nothing: every id that names a
      record contributes the record `find` locates. */
  lemma {:induction false} HydrateComplete<T>(ids: seq<Id>, xs: seq<T>, key: T -> Id, x: Id)
    requires x in ids && HasKey(xs, key, x)
    ensures Find(xs, key, x).value in Hydrate(ids, xs, key)
  {
    var i :| 0 <= i < |ids| && ids[i] == x;
    HydrateSplit(ids, xs, key, i);
    assert Resolved(xs, key, x)[0] == Find(xs, key, x).value;
  }
}
