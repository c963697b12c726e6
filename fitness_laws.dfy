/** What the penalty terms of `ga_fitness` mean: each term is a count of
    violations, it is never negative, and it is zero exactly when the
    timetable has no violation of its kind. */
module FitnessLaws {
  import opened Common
  import opened Dicts
  import opened Timetable
  import opened GaSetup
  import opened Fitness

  // ---------------------------------------------------------------------
  // Decoding
  // ---------------------------------------------------------------------

  /** A gene of the first generation is never clamped: its start and room
      index come through unchanged, and its block ends inside the day it
      starts on. */
  lemma DrawnPlacement(g: int, s: Session, rooms: seq<Room>, nDays: nat, spd: int)
    requires Drawn(g, s, rooms, nDays, spd) && |rooms| <= 100
    requires 1 <= s.length && 1 <= spd
    ensures PlacementOf(g, s, nDays, spd, |rooms|) == Placement(Decode(g).0, Decode(g).1, s.length, s)
    ensures PeriodOf(Decode(g).0, spd) + s.length <= spd
  {
    var start := Decode(g).0;
    DrawnDecodes(g, s, rooms, nDays, spd);
    PossibleStartsFit(nDays, spd, s.length, start);
    assert FloorDiv(start, spd) == start / spd;
  }

  /** With distinct session ids, `assign` holds one placement per gene, in
      gene order, keyed by its session's id. */
  lemma {:induction false} AssignmentEntries(ind: seq<int>, sessions: seq<Session>, nDays: nat, spd: int, nRooms: nat)
    requires |ind| <= |sessions| && DistinctIds(sessions)
    ensures |Assignment(ind, sessions, nDays, spd, nRooms)| == |ind|
    ensures forall i :: 0 <= i < |ind| ==>
              Assignment(ind, sessions, nDays, spd, nRooms)[i]
              == (sessions[i].sessId, PlacementOf(ind[i], sessions[i], nDays, spd, nRooms))
  {
    PlacementsEntries(ind, sessions, nDays, spd, nRooms);
    PutAllDistinct(Placements(ind, sessions, nDays, spd, nRooms));
  }

  lemma {:induction false} PlacementsEntries(ind: seq<int>, sessions: seq<Session>, nDays: nat, spd: int, nRooms: nat)
    requires |ind| <= |sessions| && DistinctIds(sessions)
    ensures |Placements(ind, sessions, nDays, spd, nRooms)| == |ind|
    ensures forall i :: 0 <= i < |ind| ==>
              Placements(ind, sessions, nDays, spd, nRooms)[i]
              == (sessions[i].sessId, PlacementOf(ind[i], sessions[i], nDays, spd, nRooms))
    ensures DistinctKeys(Placements(ind, sessions, nDays, spd, nRooms))
    decreases |ind|
  {
    if ind != [] {
      var n := |ind| - 1;
      var p := ind[..n];
      PlacementsEntries(p, sessions, nDays, spd, nRooms);
      assert forall i :: 0 <= i < n ==> p[i] == ind[i];
    }
  }

  /** Whatever the ids, `assign` has each key once, and its keys are the
      ids of the sessions that have a gene. */
  lemma AssignmentKeys(ind: seq<int>, sessions: seq<Session>, nDays: nat, spd: int, nRooms: nat)
    requires |ind| <= |sessions|
    ensures DistinctKeys(Assignment(ind, sessions, nDays, spd, nRooms))
    ensures forall id :: id in Keys(Assignment(ind, sessions, nDays, spd, nRooms))
                     <==> exists i :: 0 <= i < |ind| && sessions[i].sessId == id
  {
    var ps := Placements(ind, sessions, nDays, spd, nRooms);
    PutAllSpec(ps);
    PlacementsKeys(ind, sessions, nDays, spd, nRooms);
  }

  lemma {:induction false} PlacementsKeys(ind: seq<int>, sessions: seq<Session>, nDays: nat, spd: int, nRooms: nat)
    requires |ind| <= |sessions|
    ensures |Placements(ind, sessions, nDays, spd, nRooms)| == |ind|
    ensures forall i :: 0 <= i < |ind| ==> Placements(ind, sessions, nDays, spd, nRooms)[i].0 == sessions[i].sessId
    decreases |ind|
  {
    if ind != [] {
      PlacementsKeys(ind[..|ind| - 1], sessions, nDays, spd, nRooms);
    }
  }

  // ---------------------------------------------------------------------
  // Double bookings
  // ---------------------------------------------------------------------

  /** The placement's block covers `slot`. */
  predicate Occupies(pl: Placement, slot: int) {
    pl.start <= slot < pl.start + Offsets(pl.length)
  }

  /** The id of a placement whose faculty member is `key.0` and whose
      block covers slot `key.1`. */
  function FacultyHolder(p: (string, Placement), key: Key): seq<string> {
    if p.1.meta.faculty == key.0 && Occupies(p.1, key.1) then [p.0] else []
  }

  function GroupHolder(p: (string, Placement), key: Key): seq<string> {
    if p.1.meta.group == key.0 && Occupies(p.1, key.1) then [p.0] else []
  }

  function RoomHolder(p: (string, Placement), rooms: seq<Room>, key: Key): seq<string> {
    if 0 <= p.1.room < |rooms| && rooms[p.1.room].name == key.0 && Occupies(p.1, key.1) then [p.0] else []
  }

  /** `faculty_occ[(f, t)]` lists, in `assign` order, the sessions of `f`
      whose block covers slot `t`. */
  lemma FacultyHolders(a: Assign, key: Key)
    ensures Filter(FacultyEvents(a), key) == Gather(a, p => FacultyHolder(p, key))
  {
    forall p ensures Filter(FacultyRecords(p), key) == FacultyHolder(p, key) {
      FilterRun(p.1.meta.faculty, p.1.start, Offsets(p.1.length), p.0, key);
    }
    FilterGather(a, FacultyRecords, key, p => FacultyHolder(p, key));
  }

  /** `group_occ[(g, t)]` lists the sessions of group `g` covering `t`. */
  lemma GroupHolders(a: Assign, key: Key)
    ensures Filter(GroupEvents(a), key) == Gather(a, p => GroupHolder(p, key))
  {
    forall p ensures Filter(GroupRecords(p), key) == GroupHolder(p, key) {
      FilterRun(p.1.meta.group, p.1.start, Offsets(p.1.length), p.0, key);
    }
    FilterGather(a, GroupRecords, key, p => GroupHolder(p, key));
  }

  /** `room_occ[(r, t)]` lists the sessions placed in a room named `r`
      covering `t`. */
  lemma RoomHolders(a: Assign, rooms: seq<Room>, key: Key)
    ensures Filter(RoomEvents(a, rooms), key) == Gather(a, p => RoomHolder(p, rooms, key))
  {
    var f := (p: (string, Placement)) => RoomRecords(p, rooms);
    forall p ensures Filter(f(p), key) == RoomHolder(p, rooms, key) {
      if 0 <= p.1.room < |rooms| {
        FilterRun(rooms[p.1.room].name, p.1.start, Offsets(p.1.length), p.0, key);
      } else {
        FilterNone(f(p), key);
      }
    }
    FilterGather(a, f, key, p => RoomHolder(p, rooms, key));
  }

  /** Every list of a tabulation is non-empty, so each key is charged 200
      per holder beyond the first. */
  lemma {:induction false} SurplusSum(d: Occ)
    requires forall i :: 0 <= i < |d| ==> |d[i].1| >= 1
    ensures SumBy(d, Surplus) == 200 * (SumBy(d, Len) - |d|)
    decreases |d|
  {
    if d != [] {
      SurplusSum(d[..|d| - 1]);
    }
  }

  /** One occupancy map charges 200 for every record beyond the first under
      its key: the term is never negative, and it is zero exactly when no
      (holder, slot) key is recorded twice. */
  lemma SurplusCount(events: seq<(Key, string)>)
    ensures SumBy(Tabulate(events), Surplus) == 200 * (|events| - |Keys(events)|)
    ensures SumBy(Tabulate(events), Surplus) >= 0
    ensures SumBy(Tabulate(events), Surplus) == 0 <==> DistinctKeys(events)
  {
    var t := Tabulate(events);
    TabulateSpec(events);
    forall i | 0 <= i < |t| ensures |t[i].1| >= 1 {
      TabulateAt(events, i);
      FilterNonEmpty(events, t[i].0);
    }
    SurplusSum(t);
    TabulateTotal(events);
    KeysCard(t);
    KeysCard(events);
  }

  /** The double-booking term is zero exactly when no faculty member, no
      group and no room is booked twice in one slot. */
  lemma OverlapZero(a: Assign, rooms: seq<Room>)
    ensures Overlap(a, rooms) >= 0
    ensures Overlap(a, rooms) == 0
        <==> DistinctKeys(FacultyEvents(a)) && DistinctKeys(GroupEvents(a)) && DistinctKeys(RoomEvents(a, rooms))
  {
    SurplusCount(FacultyEvents(a));
    SurplusCount(GroupEvents(a));
    SurplusCount(RoomEvents(a, rooms));
  }

  // ---------------------------------------------------------------------
  // Crowded group days and undersized rooms
  // ---------------------------------------------------------------------

  /** The daily-cap term is zero exactly when no group has more than
      `maxClasses` distinct periods on any day. */
  lemma DailyZero(a: Assign, spd: int, maxClasses: int)
    ensures SumBy(GroupDaySlots(a, spd), v => DailyExcess(v, maxClasses)) >= 0
    ensures SumBy(GroupDaySlots(a, spd), v => DailyExcess(v, maxClasses)) == 0
        <==> forall k :: k in Keys(DayEvents(a, spd)) ==> |Elems(Filter(DayEvents(a, spd), k))| <= maxClasses
  {
    var f := (v: seq<int>) => DailyExcess(v, maxClasses);
    var t := GroupDaySlots(a, spd);
    SumByNonNegative(t, f);
    TabulateSumZero(DayEvents(a, spd), f);
  }

  /** The capacity term is zero exactly when no group sizes are given, or
      every placed group fits the room it is placed in. */
  lemma CapacityZero(a: Assign, rooms: seq<Room>, groupSizes: map<string, int>)
    ensures CapacityTotal(a, rooms, groupSizes) >= 0
    ensures CapacityTotal(a, rooms, groupSizes) == 0
        <==> |groupSizes| == 0
             || forall i :: 0 <= i < |a| && 0 <= a[i].1.room < |rooms|
                  ==> GroupSize(groupSizes, a[i].1.meta.group) <= rooms[a[i].1.room].capacity
  {
    var f := (pl: Placement) => Charge(pl, rooms, groupSizes);
    SumByNonNegative(a, f);
    SumByZero(a, f);
  }

  // ---------------------------------------------------------------------
  // Gaps
  // ---------------------------------------------------------------------

  /** No period inside the range of a group-day's periods is missing. */
  ghost predicate NoHole(v: seq<int>) {
    forall x, y, z :: x in v && y in v && x <= z <= y ==> z in v
  }

  /** A list has no gap exactly when each element is at most one above the
      one before. */
  lemma {:induction false} GapsZeroSteps(ss: seq<int>)
    ensures Gaps(ss) == 0 <==> forall i :: 0 < i < |ss| ==> ss[i] <= ss[i - 1] + 1
    decreases |ss|
  {
    if |ss| > 1 {
      var p := ss[..|ss| - 1];
      GapsZeroSteps(p);
      assert forall i :: 0 <= i < |p| ==> p[i] == ss[i];
    }
  }

  /** A strictly increasing list steps by at most one exactly when it runs
      through consecutive integers from its first element. */
  lemma {:induction false} StepsConsecutive(ss: seq<int>)
    requires StrictlySorted(ss, IntLess)
    ensures (forall i :: 0 < i < |ss| ==> ss[i] <= ss[i - 1] + 1) <==> forall i :: 0 <= i < |ss| ==> ss[i] == ss[0] + i
    decreases |ss|
  {
    if |ss| > 1 {
      var p := ss[..|ss| - 1];
      assert forall i :: 0 <= i < |p| ==> p[i] == ss[i];
      assert StrictlySorted(p, IntLess);
      StepsConsecutive(p);
      assert IntLess(ss[|ss| - 2], ss[|ss| - 1]);
    }
  }

  /** Consecutive integers leave no hole, and a strictly increasing list
      with no hole is consecutive. */
  lemma ConsecutiveNoHole(ss: seq<int>)
    requires StrictlySorted(ss, IntLess)
    ensures (forall i :: 0 <= i < |ss| ==> ss[i] == ss[0] + i) <==> NoHole(ss)
  {
    if forall i :: 0 <= i < |ss| ==> ss[i] == ss[0] + i {
      forall x, y, z | x in ss && y in ss && x <= z <= y ensures z in ss {
        var i :| 0 <= i < |ss| && ss[i] == x;
        var j :| 0 <= j < |ss| && ss[j] == y;
        assert ss[z - ss[0]] == z;
      }
    } else if NoHole(ss) {
      ConsecutiveFrom(ss, |ss|);
      assert false;
    }
  }

  lemma {:induction false} ConsecutiveFrom(ss: seq<int>, n: nat)
    requires StrictlySorted(ss, IntLess) && NoHole(ss) && n <= |ss|
    ensures forall i :: 0 <= i < n ==> ss[i] == ss[0] + i
    decreases n
  {
    if n > 1 {
      ConsecutiveFrom(ss, n - 1);
      var prev, last := ss[n - 2], ss[n - 1];
      assert IntLess(prev, last);
      var z := prev + 1;
      assert ss[0] in ss && last in ss;
      assert ss[0] <= z <= last;
      assert z in ss;
      var k :| 0 <= k < |ss| && ss[k] == z;
      if k > n - 1 {
        assert IntLess(ss[n - 1], ss[k]);
      }
    }
  }

  /** `sorted(set(...))` of integers is strictly increasing and holds the
      same periods. */
  lemma SortedSetSpec(v: seq<int>)
    ensures StrictlySorted(SortedSet(v), IntLess)
    ensures forall x :: x in SortedSet(v) <==> x in v
  {
    SortDistinctSpec(v, IntLess);
    assert Elems(SortedSet(v)) == Elems(v);
    forall x ensures x in SortedSet(v) <==> x in v {
      assert x in Elems(SortedSet(v)) <==> x in SortedSet(v);
      assert x in Elems(v) <==> x in v;
    }
  }

  /** A group-day has no gap exactly when its periods leave no hole. */
  lemma GapsZeroDay(v: seq<int>)
    ensures Gaps(SortedSet(v)) == 0 <==> NoHole(v)
  {
    var ss := SortedSet(v);
    SortedSetSpec(v);
    GapsZeroSteps(ss);
    StepsConsecutive(ss);
    ConsecutiveNoHole(ss);
    assert NoHole(ss) <==> NoHole(v);
  }

  /** The gap term is zero exactly when no group-day has a hole. */
  lemma GapsTermZero(a: Assign, spd: int)
    ensures SumBy(GroupDaySlots(a, spd), v => Gaps(SortedSet(v))) >= 0
    ensures SumBy(GroupDaySlots(a, spd), v => Gaps(SortedSet(v))) == 0
        <==> forall k :: k in Keys(DayEvents(a, spd)) ==> NoHole(Filter(DayEvents(a, spd), k))
  {
    var f := (v: seq<int>) => Gaps(SortedSet(v));
    SumByNonNegative(GroupDaySlots(a, spd), f);
    TabulateSumZero(DayEvents(a, spd), f);
    forall k ensures f(Filter(DayEvents(a, spd), k)) == 0 <==> NoHole(Filter(DayEvents(a, spd), k)) {
      GapsZeroDay(Filter(DayEvents(a, spd), k));
    }
  }

  // ---------------------------------------------------------------------
  // Long runs
  // ---------------------------------------------------------------------

  /** `RunLen` is the length of the trailing run: the last `RunLen`
      elements step by one, and the element before them does not. */
  lemma {:induction false} RunLenSpec(ss: seq<int>)
    requires |ss| >= 1
    ensures 1 <= RunLen(ss) <= |ss|
    ensures forall j :: |ss| - RunLen(ss) <= j < |ss| ==> ss[j] == ss[|ss| - 1] - (|ss| - 1 - j)
    ensures RunLen(ss) < |ss| ==> ss[|ss| - 1 - RunLen(ss)] + 1 != ss[|ss| - RunLen(ss)]
    decreases |ss|
  {
    var n := |ss|;
    if n > 1 && ss[n - 1] == ss[n - 2] + 1 {
      var p := ss[..n - 1];
      RunLenSpec(p);
      assert forall i :: 0 <= i < n - 1 ==> p[i] == ss[i];
    }
  }

  /** No run that reaches past the first element is longer than
      `maxConsec`. */
  ghost predicate NoLongRun(ss: seq<int>, maxConsec: int) {
    forall j :: 2 <= j <= |ss| && ss[j - 1] == ss[j - 2] + 1 ==> RunLen(ss[..j]) <= maxConsec
  }

  /** The run term of one group-day is never negative, and it is zero
      exactly when no run grows past `maxConsec`. */
  lemma {:induction false} RunPenZero(ss: seq<int>, maxConsec: int)
    ensures RunPen(ss, maxConsec) >= 0
    ensures RunPen(ss, maxConsec) == 0 <==> NoLongRun(ss, maxConsec)
    decreases |ss|
  {
    var n := |ss|;
    if n > 1 {
      var p := ss[..n - 1];
      RunPenZero(p, maxConsec);
      assert ss[..n] == ss;
      forall j | 2 <= j <= n - 1 ensures p[..j] == ss[..j] && p[j - 1] == ss[j - 1] && p[j - 2] == ss[j - 2] {
      }
    }
  }

  /** The run term is zero exactly when no group-day has a run of more
      than `maxConsec` consecutive periods. */
  lemma RunsTermZero(a: Assign, spd: int, maxConsec: int)
    ensures SumBy(GroupDaySlots(a, spd), v => RunPen(SortedSet(v), maxConsec)) >= 0
    ensures SumBy(GroupDaySlots(a, spd), v => RunPen(SortedSet(v), maxConsec)) == 0
        <==> forall k :: k in Keys(DayEvents(a, spd)) ==> NoLongRun(SortedSet(Filter(DayEvents(a, spd), k)), maxConsec)
  {
    var f := (v: seq<int>) => RunPen(SortedSet(v), maxConsec);
    forall v ensures f(v) >= 0 {
      RunPenZero(SortedSet(v), maxConsec);
    }
    SumByNonNegativeAll(GroupDaySlots(a, spd), f);
    TabulateSumZero(DayEvents(a, spd), f);
    forall k ensures f(Filter(DayEvents(a, spd), k)) == 0
                 <==> NoLongRun(SortedSet(Filter(DayEvents(a, spd), k)), maxConsec) {
      RunPenZero(SortedSet(Filter(DayEvents(a, spd), k)), maxConsec);
    }
  }

  lemma SumByNonNegativeAll<K, V>(d: Dict<K, V>, f: V -> int)
    requires forall v :: f(v) >= 0
    ensures SumBy(d, f) >= 0
  {
    forall i | 0 <= i < |d| ensures f(d[i].1) >= 0 {
      NonNegativeAt(f, d[i].1);
    }
    SumByNonNegative(d, f);
  }

  // ---------------------------------------------------------------------
  // Faculty overload
  // ---------------------------------------------------------------------

  /** The overload term is zero exactly when no faculty member teaches more
      than `maxHours` periods on any day. */
  lemma OverloadZero(a: Assign, spd: int, maxHours: int)
    ensures SumBy(FacultyDaily(a, spd), l => OverBy(l, maxHours)) >= 0
    ensures SumBy(FacultyDaily(a, spd), l => OverBy(l, maxHours)) == 0
        <==> forall k :: k in Keys(LoadEvents(a, spd)) ==> Sum(Filter(LoadEvents(a, spd), k)) <= maxHours
  {
    var f := (l: int) => OverBy(l, maxHours);
    SumByNonNegative(FacultyDaily(a, spd), f);
    TotalsSumZero(LoadEvents(a, spd), f);
  }

  // ---------------------------------------------------------------------
  // The whole
  // ---------------------------------------------------------------------

  /** Every integer term of a fitness that raises nothing is a
      non-negative count, and the hard penalty is zero exactly when the
      timetable has no double booking, no crowded group day and no
      undersized room. */
  lemma ScoresMeaning(a: Assign, rooms: seq<Room>, spd: int, maxClasses: int, maxConsec: int, maxHours: int,
                      groupSizes: map<string, int>)
    ensures var p := Scores(a, rooms, spd, maxClasses, maxConsec, maxHours, groupSizes);
            p.overlap >= 0 && p.daily >= 0 && p.capacity >= 0 && p.gaps >= 0 && p.runs >= 0 && p.overload >= 0
    ensures Hard(Scores(a, rooms, spd, maxClasses, maxConsec, maxHours, groupSizes)) == 0
        <==> && Overlap(a, rooms) == 0
             && SumBy(GroupDaySlots(a, spd), v => DailyExcess(v, maxClasses)) == 0
             && CapacityTotal(a, rooms, groupSizes) == 0
  {
    OverlapZero(a, rooms);
    DailyZero(a, spd, maxClasses);
    CapacityZero(a, rooms, groupSizes);
    GapsTermZero(a, spd);
    RunsTermZero(a, spd, maxConsec);
    OverloadZero(a, spd, maxHours);
  }
}
