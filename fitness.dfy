/** `ga_fitness`: the penalty of one genome. Each gene is decoded and
    clamped into a placement; the placements are scanned for double
    bookings, crowded group days and undersized rooms (the hard penalty),
    and for idle gaps, long runs and overloaded faculty days (the integer
    part of the soft penalty). */
module Fitness {
  import opened Common
  import opened Dicts
  import opened Timetable
  import opened GaSetup

  /** One value of the `assign` dict: the clamped start slot, the clamped
      room index, the session's length and the session itself. */
  datatype Placement = Placement(start: int, room: int, length: int, meta: Session)

  type Assign = Dict<string, Placement>
  type Key = (string, int)
  type Occ = Dict<Key, seq<string>>

  /** The exceptions the function raises: the IndexError of a gene with no
      session, the IndexError of a room lookup with no rooms, and the
      ZeroDivisionError of a day with no slots. */
  datatype FitnessError = GeneWithoutSession | NoRooms | ZeroSlotsPerDay

  /** The integer penalty terms. The hard penalty is the sum of the first
      three; the last three are the integer part of the soft penalty. */
  datatype Penalties = Penalties(overlap: int, daily: int, capacity: int, gaps: int, runs: int, overload: int)

  function Hard(p: Penalties): int {
    p.overlap + p.daily + p.capacity
  }

  function SoftCounts(p: Penalties): int {
    p.gaps + p.runs + p.overload
  }

  // ---------------------------------------------------------------------
  // Decoding and clamping
  // ---------------------------------------------------------------------

  /** `max(lo, min(x, hi))`: inside a non-empty range it is the nearest
      point of the range, and the identity on points already inside; with
      an empty range it is the lower bound. */
  function Clamp(x: int, lo: int, hi: int): (r: int)
    ensures lo <= hi ==> lo <= r <= hi
    ensures lo <= x <= hi ==> r == x
    ensures lo <= hi && x < lo ==> r == lo
    ensures lo <= hi && hi < x ==> r == hi
    ensures hi < lo ==> r == lo
  {
    Max(lo, Min(x, hi))
  }

  /** The `assign` value of gene `g` for session `s`: the start clamped
      to the week's slots, the room clamped to the room list. */
  function PlacementOf(g: int, s: Session, nDays: nat, spd: int, nRooms: nat): Placement {
    Placement(Clamp(Decode(g).0, 0, nDays * spd - 1), Clamp(Decode(g).1, 0, nRooms - 1), s.length, s)
  }

  /** The (id, placement) writes of the decoding loop, in gene order. */
  function Placements(ind: seq<int>, sessions: seq<Session>, nDays: nat, spd: int, nRooms: nat): seq<(string, Placement)>
    requires |ind| <= |sessions|
  {
    if ind == [] then []
    else
      var i := |ind| - 1;
      Placements(ind[..i], sessions, nDays, spd, nRooms)
        + [(sessions[i].sessId, PlacementOf(ind[i], sessions[i], nDays, spd, nRooms))]
  }

  /** The `assign` dict. */
  function Assignment(ind: seq<int>, sessions: seq<Session>, nDays: nat, spd: int, nRooms: nat): Assign
    requires |ind| <= |sessions|
  {
    PutAll(Placements(ind, sessions, nDays, spd, nRooms))
  }

  /** The room index lies in the room list, or is 0 when it is empty. */
  predicate RoomInRange(pl: Placement, nRooms: nat) {
    0 <= pl.room && (nRooms > 0 ==> pl.room < nRooms)
  }

  predicate RoomsInRange(a: Assign, nRooms: nat) {
    forall i :: 0 <= i < |a| ==> RoomInRange(a[i].1, nRooms)
  }

  /** No placement covers a slot, so no room is ever looked up. */
  predicate AllEmpty(a: Assign) {
    forall i :: 0 <= i < |a| ==> a[i].1.length <= 0
  }

  // ---------------------------------------------------------------------
  // What the scans record
  // ---------------------------------------------------------------------

  /** The (faculty, slot) appends of the first n offsets of a placement. */
  function FacultyRecordsUpTo(p: (string, Placement), n: nat): seq<(Key, string)> {
    RunEvents(p.1.meta.faculty, p.1.start, n, p.0)
  }

  /** The (group, slot) appends: only the session's "group" is used. */
  function GroupRecordsUpTo(p: (string, Placement), n: nat): seq<(Key, string)> {
    RunEvents(p.1.meta.group, p.1.start, n, p.0)
  }

  /** The (room name, slot) appends; none when there is no room to look up. */
  function RoomRecordsUpTo(p: (string, Placement), n: nat, rooms: seq<Room>): seq<(Key, string)> {
    if 0 <= p.1.room < |rooms| then RunEvents(rooms[p.1.room].name, p.1.start, n, p.0) else []
  }

  function FacultyRecords(p: (string, Placement)): seq<(Key, string)> {
    FacultyRecordsUpTo(p, Offsets(p.1.length))
  }

  function GroupRecords(p: (string, Placement)): seq<(Key, string)> {
    GroupRecordsUpTo(p, Offsets(p.1.length))
  }

  function RoomRecords(p: (string, Placement), rooms: seq<Room>): seq<(Key, string)> {
    RoomRecordsUpTo(p, Offsets(p.1.length), rooms)
  }

  function FacultyEvents(a: Assign): seq<(Key, string)> {
    Gather(a, FacultyRecords)
  }

  function GroupEvents(a: Assign): seq<(Key, string)> {
    Gather(a, GroupRecords)
  }

  function RoomEvents(a: Assign, rooms: seq<Room>): seq<(Key, string)> {
    Gather(a, p => RoomRecords(p, rooms))
  }

  /** `faculty_occ`, `group_occ` and `room_occ`. */
  datatype Occupancy = Occupancy(faculty: Occ, group: Occ, room: Occ)

  function OccupancyOf(a: Assign, rooms: seq<Room>): Occupancy {
    Occupancy(Tabulate(FacultyEvents(a)), Tabulate(GroupEvents(a)), Tabulate(RoomEvents(a, rooms)))
  }

  /** `start // slots_per_day` and `start % slots_per_day`; the value for
      zero slots per day is never used, since the source raises there. */
  function DayOf(start: int, spd: int): int {
    if spd == 0 then 0 else FloorDiv(start, spd)
  }

  function PeriodOf(start: int, spd: int): int {
    if spd == 0 then 0 else FloorMod(start, spd)
  }

  /** The (group, day) appends of the first n offsets: the period of the
      start plus the offset. */
  function DayRecordsUpTo(p: (string, Placement), n: nat, spd: int): seq<(Key, int)> {
    seq(n, o => ((p.1.meta.group, DayOf(p.1.start, spd)), PeriodOf(p.1.start, spd) + o))
  }

  function DayRecords(p: (string, Placement), spd: int): seq<(Key, int)> {
    DayRecordsUpTo(p, Offsets(p.1.length), spd)
  }

  function DayEvents(a: Assign, spd: int): seq<(Key, int)> {
    Gather(a, p => DayRecords(p, spd))
  }

  /** `group_daily_slots`, its two levels flattened into one (group, day)
      key. */
  function GroupDaySlots(a: Assign, spd: int): Dict<Key, seq<int>> {
    Tabulate(DayEvents(a, spd))
  }

  /** The `faculty_daily[f][day] += length` record of one placement. */
  function LoadRecord(p: (string, Placement), spd: int): seq<(Key, int)> {
    [((p.1.meta.faculty, DayOf(p.1.start, spd)), p.1.length)]
  }

  function LoadEvents(a: Assign, spd: int): seq<(Key, int)> {
    Gather(a, p => LoadRecord(p, spd))
  }

  /** `faculty_daily`, flattened into one (faculty, day) key. */
  function FacultyDaily(a: Assign, spd: int): Dict<Key, int> {
    Totals(LoadEvents(a, spd))
  }

  // ---------------------------------------------------------------------
  // The penalty terms
  // ---------------------------------------------------------------------

  /** What a key held by `v` adds to the hard penalty. */
  function Surplus(v: seq<string>): int {
    if |v| > 1 then 200 * (|v| - 1) else 0
  }

  function Overlap(a: Assign, rooms: seq<Room>): int {
    SumBy(Tabulate(FacultyEvents(a)), Surplus) + SumBy(Tabulate(GroupEvents(a)), Surplus)
      + SumBy(Tabulate(RoomEvents(a, rooms)), Surplus)
  }

  /** What a group-day with periods `v` adds for too many classes. */
  function DailyExcess(v: seq<int>, maxClasses: int): int {
    var n := |Elems(v)|;
    if n > maxClasses then 300 * (n - maxClasses) else 0
  }

  /** What a placement adds when its group is larger than its room. */
  function Charge(pl: Placement, rooms: seq<Room>, groupSizes: map<string, int>): int {
    if 0 <= pl.room < |rooms| then
      var size := GroupSize(groupSizes, pl.meta.group);
      var cap := rooms[pl.room].capacity;
      if size > cap then 500 + 10 * (size - cap) else 0
    else 0
  }

  /** The capacity term, charged only when group sizes are given. */
  function CapacityTotal(a: Assign, rooms: seq<Room>, groupSizes: map<string, int>): int {
    if |groupSizes| == 0 then 0 else SumBy(a, pl => Charge(pl, rooms, groupSizes))
  }

  predicate IntLess(x: int, y: int) {
    x < y
  }

  /** `sorted(set(slots))` */
  function SortedSet(v: seq<int>): seq<int> {
    SortDistinct(v, IntLess)
  }

  /** The number of adjacent pairs more than one period apart. */
  function Gaps(ss: seq<int>): nat {
    if |ss| <= 1 then 0
    else
      var n := |ss|;
      Gaps(ss[..n - 1]) + (if ss[n - 1] > ss[n - 2] + 1 then 1 else 0)
  }

  /** The length of the run of consecutive periods that ends the list. */
  function RunLen(ss: seq<int>): nat
    requires |ss| >= 1
  {
    var n := |ss|;
    if n == 1 then 1
    else if ss[n - 1] == ss[n - 2] + 1 then RunLen(ss[..n - 1]) + 1
    else 1
  }

  /** What each step of the `consec` loop adds: a step that extends a run
      beyond `maxConsec` periods adds ten per period over. */
  function RunPen(ss: seq<int>, maxConsec: int): int {
    if |ss| <= 1 then 0
    else
      var n := |ss|;
      RunPen(ss[..n - 1], maxConsec)
        + (if ss[n - 1] == ss[n - 2] + 1 && RunLen(ss) > maxConsec then 10 * (RunLen(ss) - maxConsec) else 0)
  }

  /** What a faculty-day load adds when it is above the maximum. */
  function OverBy(load: int, maxHours: int): int {
    if load > maxHours then 10 * (load - maxHours) else 0
  }

  /** The integer penalty terms of an assignment that raises nothing. */
  function Scores(a: Assign, rooms: seq<Room>, spd: int, maxClasses: int, maxConsec: int, maxHours: int,
                  groupSizes: map<string, int>): Penalties
  {
    Penalties(
      Overlap(a, rooms),
      SumBy(GroupDaySlots(a, spd), v => DailyExcess(v, maxClasses)),
      CapacityTotal(a, rooms, groupSizes),
      SumBy(GroupDaySlots(a, spd), v => Gaps(SortedSet(v))),
      SumBy(GroupDaySlots(a, spd), v => RunPen(SortedSet(v), maxConsec)),
      SumBy(FacultyDaily(a, spd), l => OverBy(l, maxHours)))
  }

  /** What `ga_fitness` computes: the first exception it raises, in the
      order its loops run, or the penalty terms. */
  function FitnessOf(ind: seq<int>, sessions: seq<Session>, rooms: seq<Room>, nDays: nat, spd: int,
                     maxClasses: int, maxConsec: int, maxHours: int, groupSizes: map<string, int>)
    : Result<Penalties, FitnessError>
  {
    if |ind| > |sessions| then Err(GeneWithoutSession)
    else Evaluate(Assignment(ind, sessions, nDays, spd, |rooms|), rooms, spd, maxClasses, maxConsec, maxHours, groupSizes)
  }

  /** The scans of a built `assign`: the exception of the first scan that
      raises, or the penalty terms. */
  function Evaluate(a: Assign, rooms: seq<Room>, spd: int, maxClasses: int, maxConsec: int, maxHours: int,
                    groupSizes: map<string, int>): Result<Penalties, FitnessError>
  {
    if |rooms| == 0 && !AllEmpty(a) then Err(NoRooms)
    else if spd == 0 && a != [] then Err(ZeroSlotsPerDay)
    else if |rooms| == 0 && |groupSizes| > 0 && a != [] then Err(NoRooms)
    else Ok(Scores(a, rooms, spd, maxClasses, maxConsec, maxHours, groupSizes))
  }

  // ---------------------------------------------------------------------
  // The function
  // ---------------------------------------------------------------------

  /** `ga_fitness(ind, sessions, rooms, days, slots_per_day,
      max_classes_per_day, max_consec_slots, max_daily_hours_per_faculty,
      group_sizes=...)`, its integer terms. */
  method GaFitness(ind: seq<int>, sessions: seq<Session>, rooms: seq<Room>, nDays: nat, spd: int,
                   maxClasses: int, maxConsec: int, maxHours: int, groupSizes: map<string, int>)
    returns (r: Result<Penalties, FitnessError>)
    ensures r == FitnessOf(ind, sessions, rooms, nDays, spd, maxClasses, maxConsec, maxHours, groupSizes)
  {
    var built := BuildAssign(ind, sessions, nDays, spd, rooms);
    if built.Err? {
      return Err(built.error);
    }
    r := ScoreAssign(built.value, rooms, spd, maxClasses, maxConsec, maxHours, groupSizes);
  }

  /** The scans that follow the decoding loop. */
  method ScoreAssign(assign: Assign, rooms: seq<Room>, spd: int, maxClasses: int, maxConsec: int, maxHours: int,
                     groupSizes: map<string, int>)
    returns (r: Result<Penalties, FitnessError>)
    requires RoomsInRange(assign, |rooms|)
    ensures r == Evaluate(assign, rooms, spd, maxClasses, maxConsec, maxHours, groupSizes)
  {
    var overlap := OverlapScan(assign, rooms);
    if overlap.Err? {
      return Err(overlap.error);
    }
    r := SlotScans(assign, rooms, spd, maxClasses, maxConsec, maxHours, groupSizes, overlap.value);
  }

  /** The occupancy loop and the three double-booking sums. */
  method OverlapScan(assign: Assign, rooms: seq<Room>) returns (r: Result<int, FitnessError>)
    requires RoomsInRange(assign, |rooms|)
    ensures r.Ok? <==> |rooms| > 0 || AllEmpty(assign)
    ensures r.Err? ==> r.error == NoRooms
    ensures r.Ok? ==> r.value == Overlap(assign, rooms)
  {
    var occupied := OccupyAll(assign, rooms);
    if occupied.Err? {
      return Err(occupied.error);
    }
    var occ := occupied.value;
    var fo := SurplusPenalty(occ.faculty);
    var go := SurplusPenalty(occ.group);
    var ro := SurplusPenalty(occ.room);
    r := Ok(fo + go + ro);
  }

  /** The scans after the occupancy loop, given its overlap term. */
  method SlotScans(assign: Assign, rooms: seq<Room>, spd: int, maxClasses: int, maxConsec: int, maxHours: int,
                   groupSizes: map<string, int>, overlap: int)
    returns (r: Result<Penalties, FitnessError>)
    requires RoomsInRange(assign, |rooms|)
    requires |rooms| > 0 || AllEmpty(assign)
    requires overlap == Overlap(assign, rooms)
    ensures r == Evaluate(assign, rooms, spd, maxClasses, maxConsec, maxHours, groupSizes)
  {
    var days := GroupDailySlots(assign, spd);
    if days.Err? {
      return Err(days.error);
    }
    var daily := DailyPenalty(days.value, maxClasses);
    var capacity := CapacityPenalty(assign, rooms, groupSizes);
    if capacity.Err? {
      return Err(capacity.error);
    }
    var gaps := GapPenalty(days.value);
    var runs := RunsPenalty(days.value, maxConsec);
    var loads := FacultyDailyLoads(assign, spd);
    var overload := OverloadPenalty(loads, maxHours);
    ScoresAre(assign, rooms, spd, maxClasses, maxConsec, maxHours, groupSizes,
              overlap, daily, capacity.value, gaps, runs, overload);
    r := Ok(Penalties(overlap, daily, capacity.value, gaps, runs, overload));
  }

  lemma ScoresAre(a: Assign, rooms: seq<Room>, spd: int, maxClasses: int, maxConsec: int, maxHours: int,
                  groupSizes: map<string, int>,
                  overlap: int, daily: int, capacity: int, gaps: int, runs: int, overload: int)
    requires overlap == Overlap(a, rooms)
    requires daily == SumBy(GroupDaySlots(a, spd), v => DailyExcess(v, maxClasses))
    requires capacity == CapacityTotal(a, rooms, groupSizes)
    requires gaps == SumBy(GroupDaySlots(a, spd), v => Gaps(SortedSet(v)))
    requires runs == SumBy(GroupDaySlots(a, spd), v => RunPen(SortedSet(v), maxConsec))
    requires overload == SumBy(FacultyDaily(a, spd), l => OverBy(l, maxHours))
    ensures Scores(a, rooms, spd, maxClasses, maxConsec, maxHours, groupSizes)
         == Penalties(overlap, daily, capacity, gaps, runs, overload)
  {
  }

  /** The decoding loop that fills `assign`. */
  method BuildAssign(ind: seq<int>, sessions: seq<Session>, nDays: nat, spd: int, rooms: seq<Room>)
    returns (r: Result<Assign, FitnessError>)
    ensures r.Ok? <==> |ind| <= |sessions|
    ensures r.Err? ==> r.error == GeneWithoutSession
    ensures r.Ok? ==> r.value == Assignment(ind, sessions, nDays, spd, |rooms|)
    ensures r.Ok? ==> RoomsInRange(r.value, |rooms|)
  {
    var assign: Assign := [];
    var idx := 0;
    while idx < |ind|
      invariant 0 <= idx <= |ind|
      invariant idx <= |sessions| || idx == 0
      invariant idx <= |sessions| ==> assign == Assignment(ind[..idx], sessions, nDays, spd, |rooms|)
      invariant RoomsInRange(assign, |rooms|)
    {
      var (start, roomIdx) := Decode(ind[idx]);
      var totalSlots := nDays * spd;
      start := Max(0, Min(start, totalSlots - 1));
      roomIdx := Max(0, Min(roomIdx, |rooms| - 1));
      if idx >= |sessions| {
        return Err(GeneWithoutSession);
      }
      var s := sessions[idx];
      AssignmentStep(ind, sessions, nDays, spd, |rooms|, idx);
      assign := Put(assign, s.sessId, Placement(start, roomIdx, s.length, s));
      idx := idx + 1;
    }
    assert ind[..idx] == ind;
    r := Ok(assign);
  }

  lemma AssignmentStep(ind: seq<int>, sessions: seq<Session>, nDays: nat, spd: int, nRooms: nat, i: nat)
    requires i < |ind| && i < |sessions|
    ensures Assignment(ind[..i + 1], sessions, nDays, spd, nRooms)
         == Put(Assignment(ind[..i], sessions, nDays, spd, nRooms), sessions[i].sessId,
                PlacementOf(ind[i], sessions[i], nDays, spd, nRooms))
  {
    var pairs := Placements(ind[..i + 1], sessions, nDays, spd, nRooms);
    assert ind[..i + 1][..i] == ind[..i];
    assert pairs[..|pairs| - 1] == Placements(ind[..i], sessions, nDays, spd, nRooms);
  }

  /** The overlap loop: every offset of every placement is recorded for its
      faculty, its group and its room. */
  method OccupyAll(assign: Assign, rooms: seq<Room>) returns (r: Result<Occupancy, FitnessError>)
    requires RoomsInRange(assign, |rooms|)
    ensures r.Ok? <==> |rooms| > 0 || AllEmpty(assign)
    ensures r.Err? ==> r.error == NoRooms
    ensures r.Ok? ==> r.value == OccupancyOf(assign, rooms)
  {
    var occ := Occupancy([], [], []);
    var i := 0;
    while i < |assign|
      invariant 0 <= i <= |assign|
      invariant |rooms| > 0 || AllEmpty(assign[..i])
      invariant occ == OccupancyOf(assign[..i], rooms)
    {
      var p := assign[i];
      OccupyStep(assign, i, rooms);
      var next := OccupyPlacement(occ, p, rooms, FacultyEvents(assign[..i]), GroupEvents(assign[..i]),
                                  RoomEvents(assign[..i], rooms));
      if next.Err? {
        assert assign[i] in assign;
        return Err(NoRooms);
      }
      occ := next.value;
      i := i + 1;
    }
    assert assign[..i] == assign;
    r := Ok(occ);
  }

  lemma OccupyStep(a: Assign, i: nat, rooms: seq<Room>)
    requires i < |a|
    ensures FacultyEvents(a[..i + 1]) == FacultyEvents(a[..i]) + FacultyRecords(a[i])
    ensures GroupEvents(a[..i + 1]) == GroupEvents(a[..i]) + GroupRecords(a[i])
    ensures RoomEvents(a[..i + 1], rooms) == RoomEvents(a[..i], rooms) + RoomRecords(a[i], rooms)
    ensures (AllEmpty(a[..i]) && a[i].1.length <= 0) <==> AllEmpty(a[..i + 1])
  {
    assert a[..i + 1][..i] == a[..i];
    assert forall j :: 0 <= j < i ==> a[..i + 1][j] == a[..i][j];
  }

  /** The offset loop of one placement. */
  method OccupyPlacement(occ: Occupancy, p: (string, Placement), rooms: seq<Room>,
                         ghost fe: seq<(Key, string)>, ghost ge: seq<(Key, string)>, ghost re: seq<(Key, string)>)
    returns (r: Result<Occupancy, FitnessError>)
    requires RoomInRange(p.1, |rooms|)
    requires occ == Occupancy(Tabulate(fe), Tabulate(ge), Tabulate(re))
    ensures r.Ok? <==> |rooms| > 0 || p.1.length <= 0
    ensures r.Ok? ==> r.value == Occupancy(Tabulate(fe + FacultyRecords(p)), Tabulate(ge + GroupRecords(p)),
                                           Tabulate(re + RoomRecords(p, rooms)))
  {
    var f, g, rm := occ.faculty, occ.group, occ.room;
    assert FacultyRecordsUpTo(p, 0) == [] && GroupRecordsUpTo(p, 0) == [] && RoomRecordsUpTo(p, 0, rooms) == [];
    assert fe + [] == fe && ge + [] == ge && re + [] == re;
    var o := 0;
    while o < p.1.length
      invariant 0 <= o <= Offsets(p.1.length)
      invariant f == Tabulate(fe + FacultyRecordsUpTo(p, o))
      invariant g == Tabulate(ge + GroupRecordsUpTo(p, o))
      invariant rm == Tabulate(re + RoomRecordsUpTo(p, o, rooms))
      invariant o > 0 ==> |rooms| > 0
    {
      FacultyStep(fe, p, o);
      f := Append(f, (p.1.meta.faculty, p.1.start + o), p.0);
      GroupStep(ge, p, o);
      g := Append(g, (p.1.meta.group, p.1.start + o), p.0);
      if !(0 <= p.1.room < |rooms|) {
        return Err(NoRooms);
      }
      RoomStep(re, p, o, rooms);
      rm := Append(rm, (rooms[p.1.room].name, p.1.start + o), p.0);
      o := o + 1;
    }
    assert o == Offsets(p.1.length);
    r := Ok(Occupancy(f, g, rm));
  }

  lemma FacultyStep(fe: seq<(Key, string)>, p: (string, Placement), o: nat)
    ensures Tabulate(fe + FacultyRecordsUpTo(p, o + 1))
         == Append(Tabulate(fe + FacultyRecordsUpTo(p, o)), (p.1.meta.faculty, p.1.start + o), p.0)
  {
    TabulateRunStep(fe, p.1.meta.faculty, p.1.start, o, p.0);
  }

  lemma GroupStep(ge: seq<(Key, string)>, p: (string, Placement), o: nat)
    ensures Tabulate(ge + GroupRecordsUpTo(p, o + 1))
         == Append(Tabulate(ge + GroupRecordsUpTo(p, o)), (p.1.meta.group, p.1.start + o), p.0)
  {
    TabulateRunStep(ge, p.1.meta.group, p.1.start, o, p.0);
  }

  lemma RoomStep(re: seq<(Key, string)>, p: (string, Placement), o: nat, rooms: seq<Room>)
    requires 0 <= p.1.room < |rooms|
    ensures Tabulate(re + RoomRecordsUpTo(p, o + 1, rooms))
         == Append(Tabulate(re + RoomRecordsUpTo(p, o, rooms)), (rooms[p.1.room].name, p.1.start + o), p.0)
  {
    TabulateRunStep(re, rooms[p.1.room].name, p.1.start, o, p.0);
  }

  /** One more offset of a run appends one record to the tabulation. */
  lemma TabulateRunStep<W, V>(before: seq<((W, int), V)>, w: W, start: int, o: nat, v: V)
    ensures Tabulate(before + RunEvents(w, start, o + 1, v))
         == Append(Tabulate(before + RunEvents(w, start, o, v)), (w, start + o), v)
  {
    var n := o + 1;
    var e := ((w, start + o), v);
    var shorter := before + RunEvents(w, start, o, v);
    assert RunEvents(w, start, n, v) == RunEvents(w, start, o, v) + [e];
    assert before + RunEvents(w, start, n, v) == shorter + [e];
    TabulateExtend(before + RunEvents(w, start, n, v), shorter, e);
  }

  /** The loop adding `200 * (len(v) - 1)` for every key held more than
      once. */
  method SurplusPenalty(occ: Occ) returns (pen: int)
    ensures pen == SumBy(occ, Surplus)
  {
    pen := 0;
    var i := 0;
    while i < |occ|
      invariant 0 <= i <= |occ|
      invariant pen == SumBy(occ[..i], Surplus)
    {
      assert occ[..i + 1][..i] == occ[..i];
      var v := occ[i].1;
      if |v| > 1 {
        pen := pen + 200 * (|v| - 1);
      }
      i := i + 1;
    }
    assert occ[..i] == occ;
  }

  /** The loop that fills `group_daily_slots`. */
  method GroupDailySlots(assign: Assign, spd: int) returns (r: Result<Dict<Key, seq<int>>, FitnessError>)
    ensures r.Ok? <==> spd != 0 || assign == []
    ensures r.Err? ==> r.error == ZeroSlotsPerDay
    ensures r.Ok? ==> r.value == GroupDaySlots(assign, spd)
  {
    var slots: Dict<Key, seq<int>> := [];
    var i := 0;
    while i < |assign|
      invariant 0 <= i <= |assign|
      invariant i > 0 ==> spd != 0
      invariant slots == Tabulate(DayEvents(assign[..i], spd))
    {
      if spd == 0 {
        return Err(ZeroSlotsPerDay);
      }
      DayEventsStep(assign, i, spd);
      slots := RecordDaySlots(slots, assign[i], spd, DayEvents(assign[..i], spd));
      i := i + 1;
    }
    assert assign[..i] == assign;
    r := Ok(slots);
  }

  /** The offset loop of one placement: its periods appended under its
      (group, day) key. */
  method RecordDaySlots(slots: Dict<Key, seq<int>>, p: (string, Placement), spd: int, ghost before: seq<(Key, int)>)
    returns (slots': Dict<Key, seq<int>>)
    requires spd != 0
    requires slots == Tabulate(before)
    ensures slots' == Tabulate(before + DayRecords(p, spd))
  {
    var pl := p.1;
    var group := pl.meta.group;
    var day := FloorDiv(pl.start, spd);
    assert before + DayRecordsUpTo(p, 0, spd) == before;
    slots' := slots;
    var off := 0;
    while off < pl.length
      invariant 0 <= off <= Offsets(pl.length)
      invariant slots' == Tabulate(before + DayRecordsUpTo(p, off, spd))
    {
      var period := FloorMod(pl.start, spd) + off;
      DayRecordStep(p, off, spd, before);
      slots' := Append(slots', (group, day), period);
      off := off + 1;
    }
  }

  /** What offset `off` of a placement adds to the day slots. */
  lemma DayRecordStep(p: (string, Placement), off: nat, spd: int, before: seq<(Key, int)>)
    requires spd != 0
    ensures Tabulate(before + DayRecordsUpTo(p, off + 1, spd))
         == Append(Tabulate(before + DayRecordsUpTo(p, off, spd)),
                   (p.1.meta.group, FloorDiv(p.1.start, spd)), FloorMod(p.1.start, spd) + off)
  {
    var e := ((p.1.meta.group, FloorDiv(p.1.start, spd)), FloorMod(p.1.start, spd) + off);
    assert DayRecordsUpTo(p, off + 1, spd) == DayRecordsUpTo(p, off, spd) + [e];
    TabulateExtend(before + DayRecordsUpTo(p, off + 1, spd), before + DayRecordsUpTo(p, off, spd), e);
  }

  lemma DayEventsStep(a: Assign, i: nat, spd: int)
    requires i < |a|
    ensures DayEvents(a[..i + 1], spd) == DayEvents(a[..i], spd) + DayRecords(a[i], spd)
  {
    assert a[..i + 1][..i] == a[..i];
  }

  /** The loop adding `300 * (len(set(slots)) - max_classes_per_day)` for
      each crowded group-day. */
  method DailyPenalty(days: Dict<Key, seq<int>>, maxClasses: int) returns (pen: int)
    ensures pen == SumBy(days, v => DailyExcess(v, maxClasses))
  {
    pen := 0;
    var i := 0;
    while i < |days|
      invariant 0 <= i <= |days|
      invariant pen == SumBy(days[..i], v => DailyExcess(v, maxClasses))
    {
      assert days[..i + 1][..i] == days[..i];
      var distinct := |Elems(days[i].1)|;
      if distinct > maxClasses {
        pen := pen + 300 * (distinct - maxClasses);
      }
      i := i + 1;
    }
    assert days[..i] == days;
  }

  /** The capacity loop, run only when group sizes are given. */
  method CapacityPenalty(assign: Assign, rooms: seq<Room>, groupSizes: map<string, int>)
    returns (r: Result<int, FitnessError>)
    requires RoomsInRange(assign, |rooms|)
    ensures r.Ok? <==> |groupSizes| == 0 || |rooms| > 0 || assign == []
    ensures r.Err? ==> r.error == NoRooms
    ensures r.Ok? ==> r.value == CapacityTotal(assign, rooms, groupSizes)
  {
    var pen := 0;
    if |groupSizes| > 0 {
      var i := 0;
      while i < |assign|
        invariant 0 <= i <= |assign|
        invariant i > 0 ==> |rooms| > 0
        invariant pen == SumBy(assign[..i], pl => Charge(pl, rooms, groupSizes))
      {
        assert assign[..i + 1][..i] == assign[..i];
        var pl := assign[i].1;
        if !(0 <= pl.room < |rooms|) {
          assert RoomInRange(pl, |rooms|);
          return Err(NoRooms);
        }
        var room := rooms[pl.room];
        var size := GroupSize(groupSizes, pl.meta.group);
        if size > room.capacity {
          pen := pen + 500 + 10 * (size - room.capacity);
        }
        i := i + 1;
      }
      assert assign[..i] == assign;
    }
    r := Ok(pen);
  }

  /** The gap loop over every group-day. */
  method GapPenalty(days: Dict<Key, seq<int>>) returns (pen: int)
    ensures pen == SumBy(days, v => Gaps(SortedSet(v)))
  {
    pen := 0;
    var i := 0;
    while i < |days|
      invariant 0 <= i <= |days|
      invariant pen == SumBy(days[..i], v => Gaps(SortedSet(v)))
    {
      assert days[..i + 1][..i] == days[..i];
      var n := CountGaps(SortedSet(days[i].1));
      pen := pen + n;
      i := i + 1;
    }
    assert days[..i] == days;
  }

  /** `for i in range(len(slots_sorted) - 1)`: one for each pair of
      neighbours more than one period apart. */
  method CountGaps(ss: seq<int>) returns (n: nat)
    ensures n == Gaps(ss)
  {
    n := 0;
    if |ss| <= 1 {
      return;
    }
    var i := 0;
    while i < |ss| - 1
      invariant 0 <= i <= |ss| - 1
      invariant n == Gaps(ss[..i + 1])
    {
      assert ss[..i + 2][..i + 1] == ss[..i + 1];
      if ss[i + 1] > ss[i] + 1 {
        n := n + 1;
      }
      i := i + 1;
    }
    assert ss[..i + 1] == ss;
  }

  /** The consecutive-run loop over every group-day. */
  method RunsPenalty(days: Dict<Key, seq<int>>, maxConsec: int) returns (pen: int)
    ensures pen == SumBy(days, v => RunPen(SortedSet(v), maxConsec))
  {
    pen := 0;
    var i := 0;
    while i < |days|
      invariant 0 <= i <= |days|
      invariant pen == SumBy(days[..i], v => RunPen(SortedSet(v), maxConsec))
    {
      assert days[..i + 1][..i] == days[..i];
      var x := ConsecutivePenalty(SortedSet(days[i].1), maxConsec);
      pen := pen + x;
      i := i + 1;
    }
    assert days[..i] == days;
  }

  /** `consec` counts the run so far; each step beyond `max_consec_slots`
      adds ten per period over, and a break starts a new run. */
  method ConsecutivePenalty(ss: seq<int>, maxConsec: int) returns (pen: int)
    ensures pen == RunPen(ss, maxConsec)
  {
    pen := 0;
    if |ss| == 0 {
      return;
    }
    var consec := 1;
    var i := 1;
    while i < |ss|
      invariant 1 <= i <= |ss|
      invariant consec == RunLen(ss[..i])
      invariant pen == RunPen(ss[..i], maxConsec)
    {
      var next := ss[..i + 1];
      assert next[..i] == ss[..i];
      if ss[i] == ss[i - 1] + 1 {
        consec := consec + 1;
        if consec > maxConsec {
          pen := pen + 10 * (consec - maxConsec);
        }
      } else {
        consec := 1;
      }
      i := i + 1;
    }
    assert ss[..i] == ss;
  }

  /** The loop that fills `faculty_daily`. */
  method FacultyDailyLoads(assign: Assign, spd: int) returns (loads: Dict<Key, int>)
    requires spd != 0 || assign == []
    ensures loads == FacultyDaily(assign, spd)
  {
    loads := [];
    var i := 0;
    while i < |assign|
      invariant 0 <= i <= |assign|
      invariant loads == Totals(LoadEvents(assign[..i], spd))
    {
      var p := assign[i];
      assert assign[..i + 1][..i] == assign[..i];
      TotalsExtend(LoadEvents(assign[..i + 1], spd), LoadEvents(assign[..i], spd), LoadRecord(p, spd)[0]);
      var day := FloorDiv(p.1.start, spd);
      loads := AddTo(loads, (p.1.meta.faculty, day), p.1.length);
      i := i + 1;
    }
    assert assign[..i] == assign;
  }

  /** The loop adding `10 * (load - max_daily_hours_per_faculty)` for each
      overloaded faculty-day. */
  method OverloadPenalty(loads: Dict<Key, int>, maxHours: int) returns (pen: int)
    ensures pen == SumBy(loads, l => OverBy(l, maxHours))
  {
    pen := 0;
    var i := 0;
    while i < |loads|
      invariant 0 <= i <= |loads|
      invariant pen == SumBy(loads[..i], l => OverBy(l, maxHours))
    {
      assert loads[..i + 1][..i] == loads[..i];
      var load := loads[i].1;
      if load > maxHours {
        pen := pen + 10 * (load - maxHours);
      }
      i := i + 1;
    }
    assert loads[..i] == loads;
  }
}
