/** The list computations of the controller: the `filter` by id, the stable
    sort by `time`, and the upsert that combines them (src/App.tsx lines 30,
    73-74 and 87). */
module Timeline {
  import opened Types
  import opened TimeOrder

  /** Non-decreasing `time` order, as `sort((a, b) => a.time.localeCompare(b.time))` leaves it. */
  ghost predicate Sorted(s: seq<Activity>)
  {
    forall i, j :: 0 <= i < j < |s| ==> LexLe(s[i].time, s[j].time)
  }

  /** At most one record per id. */
  ghost predicate UniqueIds(s: seq<Activity>)
  {
    forall i, j :: 0 <= i < j < |s| ==> s[i].id != s[j].id
  }

  /** `s.filter(a => a.id !== id)`: every record with another id, each as often as before. */
  function RemoveId(s: seq<Activity>, id: string): (r: seq<Activity>)
    ensures |r| <= |s|
    ensures forall y :: y in r ==> y in s && y.id != id
  {
    if s == [] then []
    else if s[0].id != id then [s[0]] + RemoveId(s[1..], id) else RemoveId(s[1..], id)
  }

  /** The records that carry `id`, in list order. */
  function KeepId(s: seq<Activity>, id: string): (r: seq<Activity>)
    ensures |r| <= |s|
    ensures forall k :: 0 <= k < |r| ==> r[k].id == id
  {
    if s == [] then []
    else if s[0].id == id then [s[0]] + KeepId(s[1..], id) else KeepId(s[1..], id)
  }

  /** Inserts `x` after every record whose time is not later than its own,
      so records with equal times keep their order (the sort is stable). */
  function Insert(t: seq<Activity>, x: Activity): (r: seq<Activity>)
    ensures multiset(r) == multiset(t) + multiset{x}
  {
    if t == [] then [x]
    else if LexLe(t[|t| - 1].time, x.time) then t + [x]
    else
      assert t == t[..|t| - 1] + [t[|t| - 1]];
      Insert(t[..|t| - 1], x) + [t[|t| - 1]]
  }

  /** The stable sort by `time`. */
  function SortByTime(s: seq<Activity>): (r: seq<Activity>)
    ensures multiset(r) == multiset(s)
  {
    if s == [] then []
    else
      assert s == s[..|s| - 1] + [s[|s| - 1]];
      Insert(SortByTime(s[..|s| - 1]), s[|s| - 1])
  }

  /** `[...prev.filter(a => a.id !== x.id), x].sort(byTime)`. */
  function Upsert(prev: seq<Activity>, x: Activity): seq<Activity>
  {
    SortByTime(RemoveId(prev, x.id) + [x])
  }

  /** A save leaves the list in time order with exactly one record carrying
      the saved id, namely the saved record; every other record stays as often
      as before, and the list grows by one unless the id was already there. */
  lemma UpsertSpec(prev: seq<Activity>, x: Activity)
    ensures var r := Upsert(prev, x);
      && Sorted(r)
      && KeepId(r, x.id) == [x]
      && (forall y: Activity :: y.id != x.id ==> multiset(r)[y] == multiset(prev)[y])
      && |r| == |prev| + 1 - |KeepId(prev, x.id)|
  {
    var r := Upsert(prev, x);
    SortByTimeSorted(RemoveId(prev, x.id) + [x]);
    RemoveIdCount(prev, x.id);
    KeepIdCount(r, x.id);
    assert multiset(KeepId(r, x.id)) == multiset{x};
    SingletonMultiset(KeepId(r, x.id), x);
    SplitById(prev, x.id);
  }

  // ---------------------------------------------------------------------
  // Sorting

  lemma {:induction false} InsertSorted(t: seq<Activity>, x: Activity)
    requires Sorted(t)
    ensures Sorted(Insert(t, x))
  {
    if t == [] {
    } else if LexLe(t[|t| - 1].time, x.time) {
      var r := t + [x];
      forall i, j | 0 <= i < j < |r| ensures LexLe(r[i].time, r[j].time) {
        if j == |t| && i < |t| - 1 {
          LexLeTransitive(t[i].time, t[|t| - 1].time, x.time);
        }
      }
    } else {
      var last := t[|t| - 1];
      var init := t[..|t| - 1];
      LexLeTotal(last.time, x.time);
      InsertSorted(init, x);
      var r' := Insert(init, x);
      var r := r' + [last];
      forall y | y in r' ensures LexLe(y.time, last.time) {
        assert y in multiset(r');
        if y != x {
          assert y in multiset(init);
          var k :| 0 <= k < |init| && init[k] == y;
          assert t[k] == y;
        }
      }
      forall i, j | 0 <= i < j < |r| ensures LexLe(r[i].time, r[j].time) {
        if j == |r'| {
          assert r[i] in r';
        } else {
          assert r[i] == r'[i] && r[j] == r'[j];
        }
      }
    }
  }

  lemma {:induction false} SortByTimeSorted(s: seq<Activity>)
    ensures Sorted(SortByTime(s))
  {
    if s != [] {
      SortByTimeSorted(s[..|s| - 1]);
      InsertSorted(SortByTime(s[..|s| - 1]), s[|s| - 1]);
    }
  }

  /** Sorting an already sorted list changes nothing; in particular sorting
      twice is sorting once. */
  lemma {:induction false} SortByTimeOfSorted(s: seq<Activity>)
    requires Sorted(s)
    ensures SortByTime(s) == s
  {
    if s != [] {
      var init, last := s[..|s| - 1], s[|s| - 1];
      assert s == init + [last];
      SortedPrefix(s);
      SortByTimeOfSorted(init);
      if init != [] {
        assert init[|init| - 1] == s[|s| - 2];
        assert LexLe(s[|s| - 2].time, s[|s| - 1].time);
      }
      SortByTimeAppendLast(init, last);
    }
  }

  /** Dropping the last record keeps a list sorted. */
  lemma SortedPrefix(s: seq<Activity>)
    requires Sorted(s) && s != []
    ensures Sorted(s[..|s| - 1])
  {
    var init := s[..|s| - 1];
    forall i, j | 0 <= i < j < |init| ensures LexLe(init[i].time, init[j].time) {
      assert init[i] == s[i] && init[j] == s[j];
    }
  }

  /** A record no earlier than the last one of a list the sort leaves alone stays at the end. */
  lemma SortByTimeAppendLast(init: seq<Activity>, last: Activity)
    requires SortByTime(init) == init
    requires init != [] ==> LexLe(init[|init| - 1].time, last.time)
    ensures SortByTime(init + [last]) == init + [last]
  {
    var s := init + [last];
    assert s[..|s| - 1] == init && s[|s| - 1] == last;
    SortByTimeStep(s);
  }

  /** The sort of a non-empty list inserts its last record into the sorted rest. */
  lemma SortByTimeStep(s: seq<Activity>)
    requires s != []
    ensures SortByTime(s) == Insert(SortByTime(s[..|s| - 1]), s[|s| - 1])
  {
  }

  // ---------------------------------------------------------------------
  // Filtering by id

  /** The delete filter keeps every record with another id exactly as often as before, and no other. */
  lemma {:induction false} RemoveIdCount(s: seq<Activity>, id: string)
    ensures forall x: Activity :: multiset(RemoveId(s, id))[x] == if x.id == id then 0 else multiset(s)[x]
  {
    if s != [] {
      RemoveIdCount(s[1..], id);
      assert s == [s[0]] + s[1..];
    }
  }

  /** The records that carry `id`, each as often as the list holds it. */
  lemma {:induction false} KeepIdCount(s: seq<Activity>, id: string)
    ensures forall x: Activity :: multiset(KeepId(s, id))[x] == if x.id == id then multiset(s)[x] else 0
  {
    if s != [] {
      KeepIdCount(s[1..], id);
      assert s == [s[0]] + s[1..];
    }
  }

  /** A list whose multiset is a single record is that record alone. */
  lemma SingletonMultiset(w: seq<Activity>, x: Activity)
    requires multiset(w) == multiset{x}
    ensures w == [x]
  {
    assert |w| == |multiset(w)| == 1;
    assert w[0] in multiset(w);
  }

  /** Every record either carries `id` or does not. */
  lemma {:induction false} SplitById(s: seq<Activity>, id: string)
    ensures |RemoveId(s, id)| + |KeepId(s, id)| == |s|
  {
    if s != [] {
      SplitById(s[1..], id);
    }
  }

  /** No record with the removed id is left. */
  lemma {:induction false} RemoveIdLeavesNone(s: seq<Activity>, id: string)
    ensures KeepId(RemoveId(s, id), id) == []
  {
    if s != [] {
      RemoveIdLeavesNone(s[1..], id);
    }
  }

  /** Removing an id nobody carries changes nothing. */
  lemma {:induction false} RemoveIdAbsent(s: seq<Activity>, id: string)
    requires KeepId(s, id) == []
    ensures RemoveId(s, id) == s
  {
    if s != [] {
      assert s[0].id != id && KeepId(s[1..], id) == [];
      RemoveIdAbsent(s[1..], id);
      assert s == [s[0]] + s[1..];
    }
  }

  /** Deleting twice is deleting once. */
  lemma RemoveIdIdempotent(s: seq<Activity>, id: string)
    ensures RemoveId(RemoveId(s, id), id) == RemoveId(s, id)
  {
    RemoveIdLeavesNone(s, id);
    RemoveIdAbsent(RemoveId(s, id), id);
  }

  /** The filter distributes over concatenation: it keeps the survivors in their order. */
  lemma {:induction false} RemoveIdAppend(a: seq<Activity>, b: seq<Activity>, id: string)
    ensures RemoveId(a + b, id) == RemoveId(a, id) + RemoveId(b, id)
  {
    if a != [] {
      assert (a + b)[1..] == a[1..] + b;
      RemoveIdAppend(a[1..], b, id);
    } else {
      assert a + b == b;
    }
  }

  /** Every record of `RemoveId(s, id)` is at a later position of `s` than the one before it. */
  lemma {:induction false} RemoveIdSorted(s: seq<Activity>, id: string)
    requires Sorted(s)
    ensures Sorted(RemoveId(s, id))
  {
    if s != [] {
      var tail := s[1..];
      assert Sorted(tail) by {
        forall i, j | 0 <= i < j < |tail| ensures LexLe(tail[i].time, tail[j].time) {
          assert tail[i] == s[i + 1] && tail[j] == s[j + 1];
        }
      }
      RemoveIdSorted(tail, id);
      if s[0].id != id {
        var rest := RemoveId(tail, id);
        var r := [s[0]] + rest;
        HeadBeforeSurvivors(s, id);
        forall i, j | 0 <= i < j < |r| ensures LexLe(r[i].time, r[j].time) {
          if i > 0 {
            assert r[i] == rest[i - 1] && r[j] == rest[j - 1];
          } else {
            assert r[j] == rest[j - 1];
          }
        }
      }
    }
  }

  /** In a sorted list the first record is no later than any survivor of the filter on the rest. */
  lemma HeadBeforeSurvivors(s: seq<Activity>, id: string)
    requires Sorted(s) && s != []
    ensures forall j :: 0 <= j < |RemoveId(s[1..], id)| ==> LexLe(s[0].time, RemoveId(s[1..], id)[j].time)
  {
    var tail := s[1..];
    var rest := RemoveId(tail, id);
    forall j | 0 <= j < |rest| ensures LexLe(s[0].time, rest[j].time) {
      assert rest[j] in tail;
      var k :| 0 <= k < |tail| && tail[k] == rest[j];
      assert s[k + 1] == rest[j];
    }
  }

  /** No id is carried by two records. */
  ghost predicate NoIdTwice(s: seq<Activity>)
  {
    forall id :: |KeepId(s, id)| <= 1
  }

  /** A list has unique ids exactly when no id is carried twice. */
  lemma UniqueIdsByCount(s: seq<Activity>)
    ensures UniqueIds(s) <==> NoIdTwice(s)
  {
    if UniqueIds(s) {
      UniqueIdsBoundCount(s);
    }
    if NoIdTwice(s) {
      CountBoundUniqueIds(s);
    }
  }

  lemma {:induction false} UniqueIdsBoundCount(s: seq<Activity>)
    requires UniqueIds(s)
    ensures NoIdTwice(s)
  {
    if s != [] {
      var h, tail := s[0], s[1..];
      assert UniqueIds(tail) by {
        forall i, j | 0 <= i < j < |tail| ensures tail[i].id != tail[j].id {
          assert tail[i] == s[i + 1] && tail[j] == s[j + 1];
        }
      }
      UniqueIdsBoundCount(tail);
      KeepIdCount(tail, h.id);
      assert KeepId(tail, h.id) == [];
      forall id ensures |KeepId(s, id)| <= 1 {
        assert |KeepId(tail, id)| <= 1;
        if id == h.id {
          assert KeepId(s, id) == [h];
        } else {
          assert KeepId(s, id) == KeepId(tail, id);
        }
      }
    }
  }

  lemma {:induction false} CountBoundUniqueIds(s: seq<Activity>)
    requires NoIdTwice(s)
    ensures UniqueIds(s)
  {
    if s != [] {
      var h, tail := s[0], s[1..];
      forall id ensures |KeepId(tail, id)| <= 1 {
        assert |KeepId(s, id)| <= 1;
      }
      CountBoundUniqueIds(tail);
      assert KeepId(s, h.id) == [h] + KeepId(tail, h.id);
      assert KeepId(tail, h.id) == [];
      KeepIdCount(tail, h.id);
      forall j | 0 < j < |s| ensures s[j].id != h.id {
        assert s[j] == tail[j - 1];
        assert s[j] in multiset(tail);
        assert multiset(KeepId(tail, h.id))[s[j]] == 0;
      }
      forall i, j | 0 <= i < j < |s| ensures s[i].id != s[j].id {
        if i > 0 {
          assert s[i] == tail[i - 1] && s[j] == tail[j - 1];
        }
      }
    }
  }

  /** The records carrying one id depend only on which records the list holds, not on their order. */
  lemma KeepIdOfPermutation(s: seq<Activity>, t: seq<Activity>, id: string)
    requires multiset(s) == multiset(t)
    ensures |KeepId(s, id)| == |KeepId(t, id)|
  {
    var w, v := KeepId(s, id), KeepId(t, id);
    KeepIdCount(s, id);
    KeepIdCount(t, id);
    forall x ensures multiset(w)[x] == multiset(v)[x] {
    }
    assert multiset(w) == multiset(v);
    assert |w| == |multiset(w)| == |multiset(v)| == |v|;
  }

  lemma {:induction false} KeepIdAppend(a: seq<Activity>, b: seq<Activity>, id: string)
    ensures KeepId(a + b, id) == KeepId(a, id) + KeepId(b, id)
  {
    if a != [] {
      assert (a + b)[1..] == a[1..] + b;
      KeepIdAppend(a[1..], b, id);
    } else {
      assert a + b == b;
    }
  }

  /** Removing one id does not touch the records of another. */
  lemma {:induction false} KeepIdOfRemoveId(s: seq<Activity>, id: string, other: string)
    requires other != id
    ensures KeepId(RemoveId(s, id), other) == KeepId(s, other)
  {
    if s != [] {
      KeepIdOfRemoveId(s[1..], id, other);
    }
  }

  /** A delete keeps ids unique. */
  lemma RemoveIdUnique(s: seq<Activity>, id: string)
    requires UniqueIds(s)
    ensures UniqueIds(RemoveId(s, id))
  {
    UniqueIdsByCount(s);
    UniqueIdsByCount(RemoveId(s, id));
    forall other ensures |KeepId(RemoveId(s, id), other)| <= 1 {
      if other == id {
        RemoveIdLeavesNone(s, id);
      } else {
        KeepIdOfRemoveId(s, id, other);
      }
    }
  }

  /** A save keeps ids unique. */
  lemma UpsertUnique(prev: seq<Activity>, x: Activity)
    requires UniqueIds(prev)
    ensures UniqueIds(Upsert(prev, x))
  {
    var pre := RemoveId(prev, x.id) + [x];
    var r := Upsert(prev, x);
    UniqueIdsByCount(prev);
    UniqueIdsByCount(r);
    forall id ensures |KeepId(r, id)| <= 1 {
      if id == x.id {
        UpsertSpec(prev, x);
      } else {
        KeepIdOfPermutation(r, pre, id);
        KeepIdAppend(RemoveId(prev, x.id), [x], id);
        KeepIdOfRemoveId(prev, x.id, id);
        assert KeepId([x], id) == [];
      }
    }
  }

  // ---------------------------------------------------------------------
  // Stability

  /** The records whose time is `k`, in list order. */
  function AtTime(s: seq<Activity>, k: string): (r: seq<Activity>)
    ensures |r| <= |s|
    ensures forall i :: 0 <= i < |r| ==> r[i].time == k
  {
    if s == [] then []
    else if s[0].time == k then [s[0]] + AtTime(s[1..], k) else AtTime(s[1..], k)
  }

  lemma {:induction false} AtTimeAppend(a: seq<Activity>, b: seq<Activity>, k: string)
    ensures AtTime(a + b, k) == AtTime(a, k) + AtTime(b, k)
  {
    if a != [] {
      assert (a + b)[1..] == a[1..] + b;
      AtTimeAppend(a[1..], b, k);
    } else {
      assert a + b == b;
    }
  }

  /** An insertion step puts the new record after every record with the same time. */
  lemma {:induction false} InsertStable(t: seq<Activity>, x: Activity, k: string)
    ensures AtTime(Insert(t, x), k) == AtTime(t, k) + AtTime([x], k)
  {
    if t == [] {
    } else if LexLe(t[|t| - 1].time, x.time) {
      AtTimeAppend(t, [x], k);
    } else {
      var init, last := t[..|t| - 1], t[|t| - 1];
      assert t == init + [last];
      InsertStable(init, x, k);
      AtTimeAppend(Insert(init, x), [last], k);
      AtTimeAppend(init, [last], k);
      LexLeReflexive(x.time);
      assert last.time != x.time;
    }
  }

  /** The sort is stable: records with equal times keep their input order, for every input. */
  lemma {:induction false} SortByTimeStable(s: seq<Activity>, k: string)
    ensures AtTime(SortByTime(s), k) == AtTime(s, k)
  {
    if s != [] {
      var init, last := s[..|s| - 1], s[|s| - 1];
      assert s == init + [last];
      SortByTimeStable(init, k);
      InsertStable(SortByTime(init), last, k);
      AtTimeAppend(init, [last], k);
    }
  }

  /** A saved record goes after the other records that carry the same time, which keep their order. */
  lemma UpsertStable(prev: seq<Activity>, x: Activity)
    ensures AtTime(Upsert(prev, x), x.time) == AtTime(RemoveId(prev, x.id), x.time) + [x]
  {
    SortByTimeStable(RemoveId(prev, x.id) + [x], x.time);
    AtTimeAppend(RemoveId(prev, x.id), [x], x.time);
  }

  /** Records saved at 09:00 and then at 08:00 end up in time order. */
  lemma UpsertOrderExample()
    ensures var nine := Activity("n", "Standup", "09:00", Some(""), 1);
      var eight := Activity("e", "Run", "08:00", Some(""), 2);
      Upsert([], nine) == [nine] && Upsert([nine], eight) == [eight, nine]
  {
    var nine := Activity("n", "Standup", "09:00", Some(""), 1);
    var eight := Activity("e", "Run", "08:00", Some(""), 2);
    assert Upsert([], nine) == [nine] by {
      assert [nine][..0] == [] && [] + [nine] == [nine];
      assert SortByTime([nine]) == [nine];
    }
    assert Upsert([nine], eight) == [eight, nine] by {
      assert RemoveId([nine], eight.id) + [eight] == [nine, eight];
      assert [nine, eight][..1] == [nine] && [nine][..0] == [];
      assert SortByTime([nine]) == [nine];
      assert !LexLe("09:00", "08:00");
      assert Insert([nine], eight) == [eight, nine];
    }
  }
}
