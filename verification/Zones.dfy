/** Zone lists of a federation: the partner's status update in three passes, and the
    comparison of two lists. */
module Zones {
  import opened Basics

  datatype ZoneDetails = ZoneDetails(id: string, geolocation: string, geography: string, status: string)

  datatype ZoneStatus = ZoneStatus(id: string, status: string)

  /** A zone to add; a missing geolocation aborts the update. */
  datatype AddedZone = AddedZone(id: string, geolocation: Option<string>, geography: string)

  /** The zone part of a partner status update; each pass is optional. */
  datatype Update = Update(
    statuses: Option<seq<ZoneStatus>>, removed: Option<seq<string>>, added: Option<seq<AddedZone>>)

  const NOT_AVAILABLE := "NOT_AVAILABLE"

  // ---------------------------------------------------------------- the pure update

  /** The last status given for an id. */
  function LastStatus(statuses: seq<ZoneStatus>, id: string): Option<string> {
    if statuses == [] then None
    else if statuses[|statuses| - 1].id == id then Some(statuses[|statuses| - 1].status)
    else LastStatus(statuses[..|statuses| - 1], id)
  }

  function Restated(z: ZoneDetails, statuses: seq<ZoneStatus>): ZoneDetails {
    match LastStatus(statuses, z.id)
    case Some(s) => z.(status := s)
    case None => z
  }

  function RestateAll(zones: seq<ZoneDetails>, statuses: seq<ZoneStatus>): (r: seq<ZoneDetails>)
    ensures |r| == |zones| && forall i :: 0 <= i < |zones| ==> r[i] == Restated(zones[i], statuses)
  {
    seq(|zones|, i requires 0 <= i < |zones| => Restated(zones[i], statuses))
  }

  /** The zones whose id is not listed, in order. */
  function Without(zones: seq<ZoneDetails>, ids: seq<string>): seq<ZoneDetails> {
    if zones == [] then []
    else Without(zones[..|zones| - 1], ids) +
         (if zones[|zones| - 1].id in ids then [] else [zones[|zones| - 1]])
  }

  function Fresh(added: seq<AddedZone>): seq<ZoneDetails>
    requires forall a :: a in added ==> a.geolocation.Some?
  {
    seq(|added|, i requires 0 <= i < |added| =>
      assert added[i] in added;
      ZoneDetails(added[i].id, added[i].geolocation.value, added[i].geography, NOT_AVAILABLE))
  }

  predicate Locatable(u: Update) {
    u.added.Some? ==> forall a :: a in u.added.value ==> a.geolocation.Some?
  }

  /** Map statuses, filter, append. */
  function Updated(zones: seq<ZoneDetails>, u: Update): seq<ZoneDetails>
    requires Locatable(u)
  {
    var mapped := if u.statuses.Some? then RestateAll(zones, u.statuses.value) else zones;
    var kept := if u.removed.Some? then Without(mapped, u.removed.value) else mapped;
    kept + (if u.added.Some? then Fresh(u.added.value) else [])
  }

  // ---------------------------------------------------------------- the three passes

  /** The status pass writes into the list in place, through a map built from the updates. */
  method RestateInPlace(zones: array<ZoneDetails>, statuses: seq<ZoneStatus>)
    modifies zones
    ensures zones[..] == RestateAll(old(zones[..]), statuses)
  {
    var statusMap: map<string, string> := map[];
    for i := 0 to |statuses|
      invariant forall id :: if id in statusMap then LastStatus(statuses[..i], id) == Some(statusMap[id])
                             else LastStatus(statuses[..i], id) == None
    {
      assert statuses[..i + 1][..i] == statuses[..i];
      statusMap := statusMap[statuses[i].id := statuses[i].status];
    }
    assert statuses[..|statuses|] == statuses;
    for i := 0 to zones.Length
      invariant forall j :: 0 <= j < i ==> zones[j] == Restated(old(zones[j]), statuses)
      invariant forall j :: i <= j < zones.Length ==> zones[j] == old(zones[j])
    {
      if zones[i].id in statusMap {
        zones[i] := zones[i].(status := statusMap[zones[i].id]);
      }
    }
  }

  method Remove(zones: seq<ZoneDetails>, ids: seq<string>) returns (filtered: seq<ZoneDetails>)
    ensures filtered == Without(zones, ids)
  {
    var toRemove: set<string> := {};
    for i := 0 to |ids|
      invariant forall id :: id in toRemove <==> id in ids[..i]
    {
      toRemove := toRemove + {ids[i]};
    }
    filtered := [];
    for i := 0 to |zones|
      invariant filtered == Without(zones[..i], ids)
    {
      assert zones[..i + 1][..i] == zones[..i];
      if zones[i].id !in toRemove {
        filtered := filtered + [zones[i]];
      }
    }
    assert zones[..|zones|] == zones;
  }

  /** The update of the stored zone list: `None` when it aborts on a zone without a
      geolocation. `base`, the copy a patch is computed against, keeps the old list. */
  method UpdateZones(zones: array<ZoneDetails>, u: Update)
    returns (result: Option<seq<ZoneDetails>>, base: seq<ZoneDetails>)
    modifies zones
    ensures base == old(zones[..])
    ensures result == if Locatable(u) then Some(Updated(old(zones[..]), u)) else None
  {
    base := zones[..];
    if u.statuses.Some? {
      RestateInPlace(zones, u.statuses.value);
    }
    var list := zones[..];
    if u.removed.Some? {
      list := Remove(list, u.removed.value);
    }
    ghost var kept := list;
    assert kept + [] == kept;
    if u.added.Some? {
      var added := u.added.value;
      for i := 0 to |added|
        invariant forall a :: a in added[..i] ==> a.geolocation.Some?
        invariant list == kept + Fresh(added[..i])
      {
        if added[i].geolocation.None? {
          assert added[i] in added;
          return None, base;
        }
        assert added[..i + 1] == added[..i] + [added[i]];
        var zone := ZoneDetails(added[i].id, added[i].geolocation.value, added[i].geography, NOT_AVAILABLE);
        assert Fresh(added[..i + 1]) == Fresh(added[..i]) + [zone];
        list := list + [zone];
      }
      assert added[..|added|] == added;
    }
    result := Some(list);
  }

  // ---------------------------------------------------------------- what an update keeps

  predicate UniqueIds(zones: seq<ZoneDetails>) {
    forall i, j :: 0 <= i < j < |zones| ==> zones[i].id != zones[j].id
  }

  function Ids(zones: seq<ZoneDetails>): (r: seq<string>)
    ensures |r| == |zones| && forall i :: 0 <= i < |zones| ==> r[i] == zones[i].id
  {
    seq(|zones|, i requires 0 <= i < |zones| => zones[i].id)
  }

  function CountListed(zones: seq<ZoneDetails>, ids: seq<string>): nat {
    if zones == [] then 0
    else CountListed(zones[..|zones| - 1], ids) + (if zones[|zones| - 1].id in ids then 1 else 0)
  }

  /** The length adds up. */
  lemma {:induction false} WithoutLength(zones: seq<ZoneDetails>, ids: seq<string>)
    ensures |Without(zones, ids)| + CountListed(zones, ids) == |zones|
  {
    if zones != [] {
      WithoutLength(zones[..|zones| - 1], ids);
    }
  }

  lemma {:induction false} WithoutMembers(zones: seq<ZoneDetails>, ids: seq<string>)
    ensures forall z :: z in Without(zones, ids) <==> z in zones && z.id !in ids
  {
    if zones != [] {
      var front, last := zones[..|zones| - 1], zones[|zones| - 1];
      WithoutMembers(front, ids);
      assert zones == front + [last];
    }
  }

  lemma {:induction false} WithoutUnique(zones: seq<ZoneDetails>, ids: seq<string>)
    requires UniqueIds(zones)
    ensures UniqueIds(Without(zones, ids))
  {
    if zones != [] {
      var front, last := zones[..|zones| - 1], zones[|zones| - 1];
      WithoutUnique(front, ids);
      WithoutMembers(front, ids);
      assert forall z :: z in front ==> z.id != last.id;
    }
  }

  lemma {:induction false} CountDependsOnIds(zones: seq<ZoneDetails>, other: seq<ZoneDetails>, ids: seq<string>)
    requires Ids(zones) == Ids(other)
    ensures CountListed(zones, ids) == CountListed(other, ids)
  {
    assert |zones| == |other|;
    if zones != [] {
      var n := |zones| - 1;
      assert Ids(zones)[n] == Ids(other)[n];
      assert Ids(zones[..n]) == Ids(zones)[..n] && Ids(other[..n]) == Ids(other)[..n];
      CountDependsOnIds(zones[..n], other[..n], ids);
    }
  }

  // ---------------------------------------------------------------- what an update means

  /** The last update for this id. */
  predicate Newest(statuses: seq<ZoneStatus>, id: string, k: int) {
    && 0 <= k < |statuses| && statuses[k].id == id
    && forall j :: k < j < |statuses| ==> statuses[j].id != id
  }

  lemma {:induction false} LastStatusIs(statuses: seq<ZoneStatus>, id: string)
    ensures forall k :: Newest(statuses, id, k) ==> LastStatus(statuses, id) == Some(statuses[k].status)
    ensures (forall k :: 0 <= k < |statuses| ==> statuses[k].id != id) ==> LastStatus(statuses, id) == None
  {
    if statuses != [] {
      var front := statuses[..|statuses| - 1];
      LastStatusIs(front, id);
      forall k | Newest(statuses, id, k) && k < |front| ensures Newest(front, id, k) {
        assert forall j :: k < j < |front| ==> front[j] == statuses[j];
      }
    }
  }

  /** The zone as before, with the status of the last update for it if there is one. */
  ghost predicate Shows(z: ZoneDetails, before: ZoneDetails, statuses: seq<ZoneStatus>) {
    && z.id == before.id && z.geolocation == before.geolocation && z.geography == before.geography
    && (forall k :: Newest(statuses, z.id, k) ==> z.status == statuses[k].status)
    && ((forall k :: 0 <= k < |statuses| ==> statuses[k].id != z.id) ==> z.status == before.status)
  }

  lemma {:induction false} SomeNewest(statuses: seq<ZoneStatus>, id: string, k: nat)
    requires k < |statuses| && statuses[k].id == id
    ensures exists m :: Newest(statuses, id, m)
    decreases |statuses| - k
  {
    if j :| k < j < |statuses| && statuses[j].id == id {
      SomeNewest(statuses, id, j);
    } else {
      assert Newest(statuses, id, k);
    }
  }

  /** There is one such zone, and it is what the status pass makes. */
  lemma RestatedShows(z: ZoneDetails, before: ZoneDetails, statuses: seq<ZoneStatus>)
    ensures Shows(z, before, statuses) <==> z == Restated(before, statuses)
  {
    LastStatusIs(statuses, before.id);
    if k :| 0 <= k < |statuses| && statuses[k].id == before.id {
      SomeNewest(statuses, before.id, k);
    }
  }

  lemma KeptShow(zones: seq<ZoneDetails>, statuses: seq<ZoneStatus>, removed: seq<string>, z: ZoneDetails)
    ensures z in Without(RestateAll(zones, statuses), removed) <==>
            exists before :: before in zones && before.id !in removed && Shows(z, before, statuses)
  {
    var mapped := RestateAll(zones, statuses);
    WithoutMembers(mapped, removed);
    if z in Without(mapped, removed) {
      var i :| 0 <= i < |mapped| && mapped[i] == z;
      RestatedShows(z, zones[i], statuses);
      assert zones[i] in zones;
    }
    if before :| before in zones && before.id !in removed && Shows(z, before, statuses) {
      RestatedShows(z, before, statuses);
      var i :| 0 <= i < |zones| && zones[i] == before;
      assert mapped[i] == z;
    }
  }

  /** A zone as it is added. */
  predicate AddedAs(z: ZoneDetails, a: AddedZone) {
    z.id == a.id && Some(z.geolocation) == a.geolocation && z.geography == a.geography && z.status == "NOT_AVAILABLE"
  }

  function ListOf<T>(given: Option<seq<T>>): seq<T> {
    if given.Some? then given.value else []
  }

  lemma UpdatedParts(zones: seq<ZoneDetails>, u: Update)
    requires Locatable(u)
    ensures forall a :: a in ListOf(u.added) ==> a.geolocation.Some?
    ensures Updated(zones, u) ==
            Without(RestateAll(zones, ListOf(u.statuses)), ListOf(u.removed)) + Fresh(ListOf(u.added))
  {
    NoStatuses(zones);
    NothingRemoved(RestateAll(zones, ListOf(u.statuses)));
  }

  /** An update, zone by zone: at the end the added ones in order, NOT_AVAILABLE; before them
      the old ones that are not removed, showing the last status given for them. */
  lemma UpdateMeans(zones: seq<ZoneDetails>, u: Update, result: seq<ZoneDetails>)
    requires Locatable(u) && result == Updated(zones, u)
    ensures var n := |result| - |ListOf(u.added)|;
      && n >= 0
      && (forall i :: 0 <= i < |ListOf(u.added)| ==> AddedAs(result[n + i], ListOf(u.added)[i]))
      && (forall z :: z in result[..n] <==>
            exists before :: before in zones && before.id !in ListOf(u.removed) && Shows(z, before, ListOf(u.statuses)))
  {
    var added, removed, statuses := ListOf(u.added), ListOf(u.removed), ListOf(u.statuses);
    UpdatedParts(zones, u);
    var kept := Without(RestateAll(zones, statuses), removed);
    assert result[..|kept|] == kept;
    forall i | 0 <= i < |added| ensures AddedAs(result[|kept| + i], added[i]) {
      assert result[|kept| + i] == Fresh(added)[i] && added[i] in added;
    }
    forall z ensures z in kept <==>
      exists before :: before in zones && before.id !in removed && Shows(z, before, statuses)
    {
      KeptShow(zones, statuses, removed, z);
    }
  }

  lemma NoStatuses(zones: seq<ZoneDetails>)
    ensures RestateAll(zones, []) == zones
  {
  }

  lemma {:induction false} NothingRemoved(zones: seq<ZoneDetails>)
    ensures Without(zones, []) == zones
  {
    if zones != [] {
      NothingRemoved(zones[..|zones| - 1]);
    }
  }

  /** The filter keeps the order: earlier stays earlier. */
  lemma {:induction false} WithoutOrder(zones: seq<ZoneDetails>, ids: seq<string>, i: nat, j: nat)
    requires i < j < |Without(zones, ids)|
    ensures exists p, q ::
      0 <= p < q < |zones| && zones[p] == Without(zones, ids)[i] && zones[q] == Without(zones, ids)[j]
  {
    var front, last := zones[..|zones| - 1], zones[|zones| - 1];
    if j < |Without(front, ids)| {
      WithoutOrder(front, ids, i, j);
      var p, q :| 0 <= p < q < |front| && front[p] == Without(zones, ids)[i] && front[q] == Without(zones, ids)[j];
      assert zones[p] == front[p] && zones[q] == front[q];
    } else {
      WithoutMembers(front, ids);
      assert Without(zones, ids)[i] in Without(front, ids);
      var p :| 0 <= p < |front| && front[p] == Without(zones, ids)[i];
      assert zones[p] == front[p] && zones[|zones| - 1] == last;
    }
  }

  /** An update conserves the list: the length changes by what is removed and added, and
      unique ids stay unique exactly when the added ids are distinct and new. */
  lemma UpdateConserves(zones: seq<ZoneDetails>, u: Update)
    requires Locatable(u)
    ensures var gone := if u.removed.Some? then u.removed.value else [];
      var added := if u.added.Some? then Fresh(u.added.value) else [];
      && |Updated(zones, u)| == |zones| - CountListed(zones, gone) + |added|
      && (UniqueIds(zones) ==>
            (UniqueIds(Updated(zones, u)) <==>
               UniqueIds(added) && forall a, z :: a in added && z in zones && z.id !in gone ==> a.id != z.id))
  {
    var gone := if u.removed.Some? then u.removed.value else [];
    var added := if u.added.Some? then Fresh(u.added.value) else [];
    var mapped := if u.statuses.Some? then RestateAll(zones, u.statuses.value) else zones;
    var kept := if u.removed.Some? then Without(mapped, gone) else mapped;
    assert Ids(mapped) == Ids(zones);
    assert Updated(zones, u) == kept + added;
    CountDependsOnIds(mapped, zones, gone);
    WithoutLength(mapped, gone);
    WithoutMembers(mapped, gone);
    NoneListed(mapped);
    if UniqueIds(zones) {
      UniqueByIds(zones, mapped);
      WithoutUnique(mapped, gone);
      KeptIds(zones, mapped, kept, gone);
      AppendUnique(kept, added);
    }
  }

  lemma UniqueByIds(zones: seq<ZoneDetails>, mapped: seq<ZoneDetails>)
    requires Ids(mapped) == Ids(zones) && UniqueIds(zones)
    ensures UniqueIds(mapped)
  {
    assert |mapped| == |Ids(mapped)| == |zones|;
    assert forall i :: 0 <= i < |zones| ==> mapped[i].id == Ids(zones)[i] == zones[i].id;
  }

  lemma {:induction false} NoneListed(zones: seq<ZoneDetails>)
    ensures CountListed(zones, []) == 0
  {
    if zones != [] {
      NoneListed(zones[..|zones| - 1]);
    }
  }

  lemma KeptIds(zones: seq<ZoneDetails>, mapped: seq<ZoneDetails>, kept: seq<ZoneDetails>, gone: seq<string>)
    requires Ids(mapped) == Ids(zones)
    requires forall z :: z in kept <==> z in mapped && z.id !in gone
    ensures forall z :: z in zones && z.id !in gone ==> exists k :: k in kept && k.id == z.id
    ensures forall k :: k in kept ==> exists z :: z in zones && z.id !in gone && z.id == k.id
  {
    forall z | z in zones && z.id !in gone ensures exists k :: k in kept && k.id == z.id {
      var i :| 0 <= i < |zones| && zones[i] == z;
      assert Ids(zones)[i] == Ids(mapped)[i];
      assert mapped[i] in mapped && mapped[i].id == z.id;
    }
    forall k | k in kept ensures exists z :: z in zones && z.id !in gone && z.id == k.id {
      var i :| 0 <= i < |mapped| && mapped[i] == k;
      assert Ids(zones)[i] == Ids(mapped)[i];
      assert zones[i] in zones;
    }
  }

  lemma AppendUnique(a: seq<ZoneDetails>, b: seq<ZoneDetails>)
    requires UniqueIds(a)
    ensures UniqueIds(a + b) <==> UniqueIds(b) && forall x, y :: x in a && y in b ==> x.id != y.id
  {
    var c := a + b;
    if UniqueIds(c) {
      forall i, j | 0 <= i < j < |b| ensures b[i].id != b[j].id {
        assert c[|a| + i] == b[i] && c[|a| + j] == b[j];
      }
      forall x, y | x in a && y in b ensures x.id != y.id {
        var i :| 0 <= i < |a| && a[i] == x;
        var j :| 0 <= j < |b| && b[j] == y;
        assert c[i] == x && c[|a| + j] == y;
      }
    }
  }

  // ---------------------------------------------------------------- comparison

  method CompareSameAZs(s1: seq<ZoneDetails>, s2: seq<ZoneDetails>) returns (same: bool)
    ensures same <==> SameZones(s1, s2)
  {
    if |s1| != |s2| {
      return false;
    }
    var ids: set<string> := {};
    for i := 0 to |s1|
      invariant forall id :: id in ids <==> id in Ids(s1)[..i]
    {
      ids := ids + {s1[i].id};
    }
    assert Ids(s1)[..|s1|] == Ids(s1);
    for i := 0 to |s2|
      invariant forall j :: 0 <= j < i ==> s2[j].id in Ids(s1)
    {
      if s2[i].id !in ids {
        assert Ids(s2)[i] == s2[i].id;
        return false;
      }
    }
    same := true;
  }

  /** Equal length, and every id of the second list is in the first. */
  predicate SameZones(s1: seq<ZoneDetails>, s2: seq<ZoneDetails>) {
    |s1| == |s2| && forall id :: id in Ids(s2) ==> id in Ids(s1)
  }

  predicate Distinct(s: seq<string>) {
    forall i, j :: 0 <= i < j < |s| ==> s[i] != s[j]
  }

  lemma {:induction false} DistinctCount(s: seq<string>, id: string)
    requires Distinct(s)
    ensures multiset(s)[id] == if id in s then 1 else 0
  {
    if s != [] {
      var front := s[..|s| - 1];
      DistinctCount(front, id);
      assert s == front + [s[|s| - 1]];
    }
  }

  function IdSet(s: seq<string>): set<string> {
    set x | x in s
  }

  /** A list has as many ids as members exactly when it has no duplicates. */
  lemma {:induction false} IdSetSize(s: seq<string>)
    ensures |IdSet(s)| <= |s|
    ensures |IdSet(s)| == |s| <==> Distinct(s)
  {
    if s != [] {
      var front, last := s[..|s| - 1], s[|s| - 1];
      IdSetSize(front);
      assert s == front + [last];
      assert IdSet(s) == IdSet(front) + {last};
      if last in front {
        var i :| 0 <= i < |front| && front[i] == last;
        assert s[i] == s[|s| - 1];
        assert IdSet(s) == IdSet(front);
      }
    }
  }

  lemma SubsetAtLeastAsLarge<T>(a: set<T>, b: set<T>)
    requires a <= b && |a| >= |b|
    ensures a == b
  {
    assert |b - a| == |b| - |a|;
    assert b == a + (b - a);
  }

  lemma SameMembers(a: seq<string>, b: seq<string>)
    ensures multiset(a) == multiset(b) ==> |a| == |b| && forall id :: id in b ==> id in a
  {
    assert |multiset(a)| == |a| && |multiset(b)| == |b|;
    assert forall id :: (id in a <==> id in multiset(a)) && (id in b <==> id in multiset(b));
  }

  /** Against a list without duplicates the comparison is equality of ids up to
      reordering. */
  lemma SameUpToOrder(s1: seq<ZoneDetails>, s2: seq<ZoneDetails>)
    requires Distinct(Ids(s2))
    ensures SameZones(s1, s2) <==> multiset(Ids(s1)) == multiset(Ids(s2))
  {
    var a, b := Ids(s1), Ids(s2);
    SameMembers(a, b);
    if SameZones(s1, s2) {
      IdSetSize(a);
      IdSetSize(b);
      assert IdSet(b) <= IdSet(a);
      SubsetAtLeastAsLarge(IdSet(b), IdSet(a));
      forall id ensures multiset(a)[id] == multiset(b)[id] {
        DistinctCount(a, id);
        DistinctCount(b, id);
        assert id in a <==> id in IdSet(a);
        assert id in b <==> id in IdSet(b);
      }
    }
  }

  /** Among lists without duplicates the comparison is an equivalence. */
  lemma SameIsEquivalence(s1: seq<ZoneDetails>, s2: seq<ZoneDetails>, s3: seq<ZoneDetails>)
    requires Distinct(Ids(s1)) && Distinct(Ids(s2)) && Distinct(Ids(s3))
    ensures SameZones(s1, s1)
    ensures SameZones(s1, s2) <==> SameZones(s2, s1)
    ensures SameZones(s1, s2) && SameZones(s2, s3) ==> SameZones(s1, s3)
  {
    SameUpToOrder(s1, s2);
    SameUpToOrder(s2, s1);
  }

  /** A list that compares with `s`, and with which `s` does not compare: one of two
      zones with the same id is replaced by a new one. */
  lemma DuplicatesBreakSymmetry(s: seq<ZoneDetails>, i: nat, j: nat) returns (other: seq<ZoneDetails>)
    requires i < j < |s| && s[i].id == s[j].id
    ensures SameZones(other, s) && !SameZones(s, other)
  {
    var unused := NewId(Ids(s));
    other := s[j := s[j].(id := unused)];
    assert Ids(other)[j] == unused;
    forall id | id in Ids(s) ensures id in Ids(other) {
      var k :| 0 <= k < |s| && Ids(s)[k] == id;
      assert if k == j then Ids(other)[i] == id else Ids(other)[k] == id;
    }
  }

  /** An id longer than all of these. */
  lemma {:induction false} NewId(ids: seq<string>) returns (unused: string)
    ensures forall id :: id in ids ==> |id| < |unused|
  {
    if ids == [] {
      unused := "";
    } else {
      var shorter := NewId(ids[1..]);
      unused := shorter + ids[0] + ['x'];
      assert ids == [ids[0]] + ids[1..];
    }
  }

  /** Which lists every comparison can be turned around for: as the second list, exactly
      those without duplicates; as the first, exactly those with at most one id. */
  lemma SymmetricExactly(s: seq<ZoneDetails>)
    ensures (forall other :: SameZones(other, s) ==> SameZones(s, other)) <==> Distinct(Ids(s))
    ensures (forall other :: SameZones(s, other) ==> SameZones(other, s)) <==>
            (forall z, y :: z in s && y in s ==> z.id == y.id)
  {
    if Distinct(Ids(s)) {
      forall other | SameZones(other, s) ensures SameZones(s, other) {
        SameUpToOrder(other, s);
        SameMembers(Ids(s), Ids(other));
      }
    } else {
      var i, j :| 0 <= i < j < |s| && Ids(s)[i] == Ids(s)[j];
      var other := DuplicatesBreakSymmetry(s, i, j);
    }
    if forall z, y :: z in s && y in s ==> z.id == y.id {
      forall other | SameZones(s, other) ensures SameZones(other, s) {
        OneIdSymmetric(s, other);
      }
    } else {
      var z, y :| z in s && y in s && z.id != y.id;
      var other := seq(|s|, _ => z);
      var k, m :| 0 <= k < |s| && s[k] == z && 0 <= m < |s| && s[m] == y;
      assert Ids(s)[k] == z.id && Ids(s)[m] == y.id;
      assert forall id :: id in Ids(other) ==> id == z.id;
      assert y.id in Ids(s) && y.id !in Ids(other);
      assert SameZones(s, other) && !SameZones(other, s);
    }
  }

  lemma OneIdSymmetric(s: seq<ZoneDetails>, other: seq<ZoneDetails>)
    requires SameZones(s, other) && forall z, y :: z in s && y in s ==> z.id == y.id
    ensures SameZones(other, s)
  {
    forall id | id in Ids(s) ensures id in Ids(other) {
      var k :| 0 <= k < |s| && Ids(s)[k] == id;
      assert Ids(other)[k] in Ids(other);
      var m :| 0 <= m < |s| && Ids(s)[m] == Ids(other)[k];
      assert s[m].id == s[k].id;
    }
  }
}
