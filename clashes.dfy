/** `detect_clashes`: a schedule whose entries already carry start slots
    and (possibly) rooms is scanned slot by slot. A faculty member, group or
    room holding the same slot more than once is a clash; a session in a
    room too small for its group, or more sessions of one kind in a slot
    than there are rooms of that kind, is a capacity problem. */
module Clashes {
  import opened Common
  import opened Dicts
  import opened Timetable

  /** The kind a session name gives: "lab"/"project" beats "elective",
      which beats the default. */
  datatype SessionKind = Lab | Elective | Lecture

  function KindOf(name: string): SessionKind {
    if IsLabSession(name) then Lab
    else if Contains(Lower(name), "elective") then Elective
    else Lecture
  }

  /** A (who, slot, sids) tuple: who is the faculty member, group or room. */
  datatype Clash = Clash(who: string, slot: int, sids: seq<string>)

  /** The two tuple shapes of the "room_capacity" list. */
  datatype CapacityIssue =
    | RoomOverCapacity(sessId: string, group: string, room: string, size: int, capacity: int)
    | TypeShortage(kind: SessionKind, slot: int, count: int, available: int)

  /** The returned dict's four lists. */
  datatype Report = Report(faculty: seq<Clash>, group: seq<Clash>, room: seq<Clash>, roomCapacity: seq<CapacityIssue>)

  type Key = (string, int)
  type Events = seq<(Key, string)>

  // ---------------------------------------------------------------------
  // What the scan records
  // ---------------------------------------------------------------------

  /** The number of offsets `range(length)` yields. */
  function Span(e: Entry): nat {
    Offsets(e.length)
  }

  /** The entry occupies `slot`. */
  predicate Covers(e: Entry, slot: int) {
    e.start <= slot < e.start + e.length
  }

  /** The groups a session occupies: its non-empty "groups" list, else its
      "group". */
  function GroupsOf(m: Session): seq<string> {
    if |m.groups| > 0 then m.groups else [m.group]
  }

  /** The (faculty, slot) appends of the first n offsets of one entry. */
  function FacultyEventsUpTo(p: (string, Entry), n: nat): Events {
    RunEvents(p.1.meta.faculty, p.1.start, n, p.0)
  }

  function FacultyEventsOf(p: (string, Entry)): Events {
    FacultyEventsUpTo(p, Span(p.1))
  }

  /** The (group, slot) appends for the given groups at one slot. */
  function Tagged(gs: seq<string>, slot: int, sid: string): Events {
    if gs == [] then [] else Tagged(gs[..|gs| - 1], slot, sid) + [((gs[|gs| - 1], slot), sid)]
  }

  /** The appends of `n` consecutive slots from `start`, each for every
      group of `gs`. */
  function GroupRun(gs: seq<string>, start: int, n: nat, sid: string): Events {
    if n == 0 then []
    else GroupRun(gs, start, n - 1, sid) + Tagged(gs, start + n - 1, sid)
  }

  function GroupEventsUpTo(p: (string, Entry), n: nat): Events {
    GroupRun(GroupsOf(p.1.meta), p.1.start, n, p.0)
  }

  function GroupEventsOf(p: (string, Entry)): Events {
    GroupEventsUpTo(p, Span(p.1))
  }

  /** The (room, slot) appends of the first n offsets; none without a room. */
  function RoomEventsUpTo(p: (string, Entry), n: nat): Events {
    if p.1.room == "" then [] else RunEvents(p.1.room, p.1.start, n, p.0)
  }

  function RoomEventsOf(p: (string, Entry)): Events {
    RoomEventsUpTo(p, Span(p.1))
  }

  /** The (kind, slot) counts of the first n offsets. */
  function KindKeysUpTo(p: (string, Entry), n: nat): seq<(SessionKind, int)> {
    seq(n, o => (KindOf(p.1.meta.name), p.1.start + o))
  }

  function KindKeysOf(p: (string, Entry)): seq<(SessionKind, int)> {
    KindKeysUpTo(p, Span(p.1))
  }

  /** `room_map.get(room, {}).get('capacity', 0)`: the dict comprehension
      keeps the last room of each name. */
  function RoomCapacity(rooms: seq<Room>, name: string): int {
    if rooms == [] then 0
    else if rooms[|rooms| - 1].name == name then rooms[|rooms| - 1].capacity
    else RoomCapacity(rooms[..|rooms| - 1], name)
  }

  /** The number of rooms whose name mentions "lab". */
  function LabRoomCount(rooms: seq<Room>): (n: nat)
    ensures n <= |rooms|
  {
    if rooms == [] then 0
    else LabRoomCount(rooms[..|rooms| - 1]) + (if IsLabRoom(rooms[|rooms| - 1].name) then 1 else 0)
  }

  /** The room-capacity check of one entry: only for an entry with a room
      and a non-empty group-size table. */
  function OverCapacityOf(p: (string, Entry), rooms: seq<Room>, groupSizes: map<string, int>): seq<CapacityIssue> {
    var e := p.1;
    if e.room != "" && |groupSizes| > 0 then
      var size := GroupSize(groupSizes, e.meta.group);
      var cap := RoomCapacity(rooms, e.room);
      if size > cap then [RoomOverCapacity(p.0, e.meta.group, e.room, size, cap)] else []
    else []
  }

  function OverCapacity(s: Schedule, rooms: seq<Room>, groupSizes: map<string, int>): seq<CapacityIssue> {
    if s == [] then []
    else OverCapacity(s[..|s| - 1], rooms, groupSizes) + OverCapacityOf(s[|s| - 1], rooms, groupSizes)
  }

  /** The (who, slot) keys holding more than one session, in key order. */
  function Reported(d: Dict<Key, seq<string>>): seq<Clash> {
    if d == [] then []
    else
      var e := d[|d| - 1];
      Reported(d[..|d| - 1]) + (if |e.1| > 1 then [Clash(e.0.0, e.0.1, e.1)] else [])
  }

  /** The rooms available to a session kind. */
  function Available(kind: SessionKind, lab: int, lecture: int, elective: int): int {
    match kind
    case Lab => lab
    case Lecture => lecture
    case Elective => elective
  }

  /** The (kind, slot) keys counting more sessions than rooms of the kind. */
  function Shortages(t: Dict<(SessionKind, int), int>, lab: int, lecture: int, elective: int): seq<CapacityIssue> {
    if t == [] then []
    else
      var e := t[|t| - 1];
      var a := Available(e.0.0, lab, lecture, elective);
      Shortages(t[..|t| - 1], lab, lecture, elective)
        + (if e.1 > a then [TypeShortage(e.0.0, e.0.1, e.1, a)] else [])
  }

  /** `session_type_count`: how many sessions of each kind hold each slot. */
  function KindCounts(s: Schedule): Dict<(SessionKind, int), int> {
    Tally(Gather(s, KindKeysOf))
  }

  /** The "room_capacity" list: the per-session capacity records, then the
      type shortages. */
  function CapacityReport(s: Schedule, rooms: seq<Room>, groupSizes: map<string, int>): seq<CapacityIssue> {
    OverCapacity(s, rooms, groupSizes) + Shortages(KindCounts(s), LabRoomCount(rooms), |rooms| - LabRoomCount(rooms), |rooms|)
  }

  lemma CapacityReportIs(s: Schedule, rooms: seq<Room>, groupSizes: map<string, int>,
                         capacity: seq<CapacityIssue>, kindCount: Dict<(SessionKind, int), int>,
                         shortages: seq<CapacityIssue>, lab: int, lecture: int, elective: int)
    requires lab == LabRoomCount(rooms) && lecture == |rooms| - lab && elective == |rooms|
    requires capacity == OverCapacity(s, rooms, groupSizes)
    requires kindCount == KindCounts(s)
    requires shortages == Shortages(kindCount, lab, lecture, elective)
    ensures capacity + shortages == CapacityReport(s, rooms, groupSizes)
  {
  }

  /** The report the scan produces. */
  function Detection(s: Schedule, rooms: seq<Room>, groupSizes: map<string, int>): Report {
    Report(
      Reported(Tabulate(Gather(s, FacultyEventsOf))),
      Reported(Tabulate(Gather(s, GroupEventsOf))),
      Reported(Tabulate(Gather(s, RoomEventsOf))),
      CapacityReport(s, rooms, groupSizes))
  }

  // ---------------------------------------------------------------------
  // The scan
  // ---------------------------------------------------------------------

  /** `detect_clashes(schedule, slots_per_day, rooms, group_sizes)`. The
      slots-per-day argument is not used by the source either. */
  method DetectClashes(schedule: Schedule, slotsPerDay: int, rooms: seq<Room>, groupSizes: map<string, int>)
    returns (r: Report)
    ensures r == Detection(schedule, rooms, groupSizes)
  {
    var lab := CountLabRooms(rooms);
    var lecture := |rooms| - lab;
    var elective := |rooms|;
    var facultyOcc, groupOcc, roomOcc, kindCount, capacity := ScanSchedule(schedule, rooms, groupSizes);
    var faculty := ReportClashes(facultyOcc);
    var group := ReportClashes(groupOcc);
    var room := ReportClashes(roomOcc);
    var shortages := ReportShortages(kindCount, lab, lecture, elective);
    CapacityReportIs(schedule, rooms, groupSizes, capacity, kindCount, shortages, lab, lecture, elective);
    r := Report(faculty, group, room, capacity + shortages);
  }

  /** The room map and the loop over the schedule's entries: the occupancy
      records, the type counts and the room-capacity issues, in schedule
      order. */
  method ScanSchedule(schedule: Schedule, rooms: seq<Room>, groupSizes: map<string, int>)
    returns (facultyOcc: Dict<Key, seq<string>>, groupOcc: Dict<Key, seq<string>>,
             roomOcc: Dict<Key, seq<string>>, kindCount: Dict<(SessionKind, int), int>,
             capacity: seq<CapacityIssue>)
    ensures facultyOcc == Tabulate(Gather(schedule, FacultyEventsOf))
    ensures groupOcc == Tabulate(Gather(schedule, GroupEventsOf))
    ensures roomOcc == Tabulate(Gather(schedule, RoomEventsOf))
    ensures kindCount == KindCounts(schedule)
    ensures capacity == OverCapacity(schedule, rooms, groupSizes)
  {
    var roomMap := RoomMap(rooms);
    facultyOcc, groupOcc, roomOcc, kindCount, capacity := [], [], [], [], [];
    var i := 0;
    while i < |schedule|
      invariant 0 <= i <= |schedule|
      invariant facultyOcc == Tabulate(Gather(schedule[..i], FacultyEventsOf))
      invariant groupOcc == Tabulate(Gather(schedule[..i], GroupEventsOf))
      invariant roomOcc == Tabulate(Gather(schedule[..i], RoomEventsOf))
      invariant kindCount == Tally(Gather(schedule[..i], KindKeysOf))
      invariant capacity == OverCapacity(schedule[..i], rooms, groupSizes)
    {
      var p := schedule[i];
      ScanStep(schedule, i, rooms, groupSizes);
      facultyOcc, groupOcc, roomOcc, kindCount := OccupyEntry(
        facultyOcc, groupOcc, roomOcc, kindCount, p,
        Gather(schedule[..i], FacultyEventsOf), Gather(schedule[..i], GroupEventsOf),
        Gather(schedule[..i], RoomEventsOf), Gather(schedule[..i], KindKeysOf));
      var issues := CheckCapacity(p, rooms, roomMap, groupSizes);
      capacity := capacity + issues;
      i := i + 1;
    }
    assert schedule[..i] == schedule;
  }

  /** The room-capacity check of one entry, against the room map. */
  method CheckCapacity(p: (string, Entry), rooms: seq<Room>, roomMap: map<string, int>, groupSizes: map<string, int>)
    returns (issues: seq<CapacityIssue>)
    requires forall name :: (if name in roomMap then roomMap[name] else 0) == RoomCapacity(rooms, name)
    ensures issues == OverCapacityOf(p, rooms, groupSizes)
  {
    issues := [];
    var sid, e := p.0, p.1;
    if e.room != "" && |groupSizes| > 0 {
      var g := e.meta.group;
      var size := GroupSize(groupSizes, g);
      var cap := if e.room in roomMap then roomMap[e.room] else 0;
      if size > cap {
        issues := [RoomOverCapacity(sid, g, e.room, size, cap)];
      }
    }
  }

  lemma ScanStep(s: Schedule, i: nat, rooms: seq<Room>, groupSizes: map<string, int>)
    requires i < |s|
    ensures Gather(s[..i + 1], FacultyEventsOf) == Gather(s[..i], FacultyEventsOf) + FacultyEventsOf(s[i])
    ensures Gather(s[..i + 1], GroupEventsOf) == Gather(s[..i], GroupEventsOf) + GroupEventsOf(s[i])
    ensures Gather(s[..i + 1], RoomEventsOf) == Gather(s[..i], RoomEventsOf) + RoomEventsOf(s[i])
    ensures Gather(s[..i + 1], KindKeysOf) == Gather(s[..i], KindKeysOf) + KindKeysOf(s[i])
    ensures OverCapacity(s[..i + 1], rooms, groupSizes) == OverCapacity(s[..i], rooms, groupSizes) + OverCapacityOf(s[i], rooms, groupSizes)
  {
    assert s[..i + 1][..i] == s[..i];
  }

  /** `{r['name']: r for r in rooms}`, keeping only the capacities. */
  method RoomMap(rooms: seq<Room>) returns (m: map<string, int>)
    ensures forall name :: (if name in m then m[name] else 0) == RoomCapacity(rooms, name)
  {
    m := map[];
    var i := 0;
    while i < |rooms|
      invariant 0 <= i <= |rooms|
      invariant forall name :: (if name in m then m[name] else 0) == RoomCapacity(rooms[..i], name)
    {
      assert rooms[..i + 1][..i] == rooms[..i];
      m := m[rooms[i].name := rooms[i].capacity];
      i := i + 1;
    }
    assert rooms[..i] == rooms;
  }

  /** `sum(1 for r in rooms if 'lab' in r['name'].lower())` */
  method CountLabRooms(rooms: seq<Room>) returns (n: nat)
    ensures n == LabRoomCount(rooms)
  {
    n := 0;
    var i := 0;
    while i < |rooms|
      invariant 0 <= i <= |rooms|
      invariant n == LabRoomCount(rooms[..i])
    {
      assert rooms[..i + 1][..i] == rooms[..i];
      if IsLabRoom(rooms[i].name) {
        n := n + 1;
      }
      i := i + 1;
    }
    assert rooms[..i] == rooms;
  }

  /** The offset loop of one entry: every slot it covers is recorded for its
      faculty, its groups, its room (when it has one) and its kind. The
      ghost arguments are the records made before it. */
  method OccupyEntry(facultyOcc: Dict<Key, seq<string>>, groupOcc: Dict<Key, seq<string>>,
                     roomOcc: Dict<Key, seq<string>>, kindCount: Dict<(SessionKind, int), int>,
                     p: (string, Entry),
                     ghost fe: Events, ghost ge: Events, ghost re: Events, ghost ke: seq<(SessionKind, int)>)
    returns (facultyOcc': Dict<Key, seq<string>>, groupOcc': Dict<Key, seq<string>>,
             roomOcc': Dict<Key, seq<string>>, kindCount': Dict<(SessionKind, int), int>)
    requires facultyOcc == Tabulate(fe) && groupOcc == Tabulate(ge)
    requires roomOcc == Tabulate(re) && kindCount == Tally(ke)
    ensures facultyOcc' == Tabulate(fe + FacultyEventsOf(p))
    ensures groupOcc' == Tabulate(ge + GroupEventsOf(p))
    ensures roomOcc' == Tabulate(re + RoomEventsOf(p))
    ensures kindCount' == Tally(ke + KindKeysOf(p))
  {
    var sid, e := p.0, p.1;
    var kind := KindOf(e.meta.name);
    facultyOcc', groupOcc', roomOcc', kindCount' := facultyOcc, groupOcc, roomOcc, kindCount;
    OffsetsStart(p, fe, ge, re, ke);
    var o := 0;
    while o < e.length
      invariant 0 <= o <= Span(e)
      invariant OccupiedUpTo(facultyOcc', groupOcc', roomOcc', kindCount', p, o, fe, ge, re, ke)
    {
      facultyOcc', groupOcc', roomOcc', kindCount' :=
        OccupySlot(facultyOcc', groupOcc', roomOcc', kindCount', p, kind, o, fe, ge, re, ke);
      o := o + 1;
    }
    assert o == Span(p.1);
  }

  /** The four records after the first `o` offsets of entry `p`, on top of
      the records made before it. */
  ghost predicate OccupiedUpTo(facultyOcc: Dict<Key, seq<string>>, groupOcc: Dict<Key, seq<string>>,
                               roomOcc: Dict<Key, seq<string>>, kindCount: Dict<(SessionKind, int), int>,
                               p: (string, Entry), o: nat,
                               fe: Events, ge: Events, re: Events, ke: seq<(SessionKind, int)>)
  {
    && facultyOcc == Tabulate(fe + FacultyEventsUpTo(p, o))
    && groupOcc == Tabulate(ge + GroupEventsUpTo(p, o))
    && roomOcc == Tabulate(re + RoomEventsUpTo(p, o))
    && kindCount == Tally(ke + KindKeysUpTo(p, o))
  }

  /** The body of the offset loop: slot `start + o` of one entry. */
  method OccupySlot(facultyOcc: Dict<Key, seq<string>>, groupOcc: Dict<Key, seq<string>>,
                    roomOcc: Dict<Key, seq<string>>, kindCount: Dict<(SessionKind, int), int>,
                    p: (string, Entry), kind: SessionKind, o: nat,
                    ghost fe: Events, ghost ge: Events, ghost re: Events, ghost ke: seq<(SessionKind, int)>)
    returns (facultyOcc': Dict<Key, seq<string>>, groupOcc': Dict<Key, seq<string>>,
             roomOcc': Dict<Key, seq<string>>, kindCount': Dict<(SessionKind, int), int>)
    requires kind == KindOf(p.1.meta.name)
    requires OccupiedUpTo(facultyOcc, groupOcc, roomOcc, kindCount, p, o, fe, ge, re, ke)
    ensures OccupiedUpTo(facultyOcc', groupOcc', roomOcc', kindCount', p, o + 1, fe, ge, re, ke)
  {
    var sid, e := p.0, p.1;
    var slot := e.start + o;
    OffsetStep(p, o, fe, ge, re, ke);
    TabulateExtend(fe + FacultyEventsUpTo(p, o + 1), fe + FacultyEventsUpTo(p, o), ((e.meta.faculty, slot), sid));
    facultyOcc' := Append(facultyOcc, (e.meta.faculty, slot), sid);
    groupOcc' := OccupyGroups(groupOcc, e.meta, slot, sid, ge + GroupEventsUpTo(p, o));
    roomOcc' := roomOcc;
    if e.room != "" {
      TabulateExtend(re + RoomEventsUpTo(p, o + 1), re + RoomEventsUpTo(p, o), ((e.room, slot), sid));
      roomOcc' := Append(roomOcc, (e.room, slot), sid);
    }
    TallyExtend(ke + KindKeysUpTo(p, o + 1), ke + KindKeysUpTo(p, o), (kind, slot));
    kindCount' := Bump(kindCount, (kind, slot));
  }

  lemma OffsetsStart(p: (string, Entry), fe: Events, ge: Events, re: Events, ke: seq<(SessionKind, int)>)
    ensures fe + FacultyEventsUpTo(p, 0) == fe && ge + GroupEventsUpTo(p, 0) == ge
    ensures re + RoomEventsUpTo(p, 0) == re && ke + KindKeysUpTo(p, 0) == ke
  {
    assert FacultyEventsUpTo(p, 0) == [] && RoomEventsUpTo(p, 0) == [] && KindKeysUpTo(p, 0) == [];
  }

  /** What one offset adds to each record. */
  lemma OffsetStep(p: (string, Entry), o: nat, fe: Events, ge: Events, re: Events, ke: seq<(SessionKind, int)>)
    ensures fe + FacultyEventsUpTo(p, o + 1) == (fe + FacultyEventsUpTo(p, o)) + [((p.1.meta.faculty, p.1.start + o), p.0)]
    ensures ge + GroupEventsUpTo(p, o + 1) == (ge + GroupEventsUpTo(p, o)) + Tagged(GroupsOf(p.1.meta), p.1.start + o, p.0)
    ensures p.1.room == "" ==> re + RoomEventsUpTo(p, o + 1) == re + RoomEventsUpTo(p, o)
    ensures p.1.room != "" ==> re + RoomEventsUpTo(p, o + 1) == (re + RoomEventsUpTo(p, o)) + [((p.1.room, p.1.start + o), p.0)]
    ensures ke + KindKeysUpTo(p, o + 1) == (ke + KindKeysUpTo(p, o)) + [(KindOf(p.1.meta.name), p.1.start + o)]
  {
    var slot := p.1.start + o;
    assert FacultyEventsUpTo(p, o + 1) == FacultyEventsUpTo(p, o) + [((p.1.meta.faculty, slot), p.0)];
    if p.1.room != "" {
      assert RoomEventsUpTo(p, o + 1) == RoomEventsUpTo(p, o) + [((p.1.room, slot), p.0)];
    }
    assert KindKeysUpTo(p, o + 1) == KindKeysUpTo(p, o) + [(KindOf(p.1.meta.name), slot)];
  }

  /** The group branch at one slot: each listed group when the session
      has a non-empty "groups" list, else its "group". */
  method OccupyGroups(groupOcc: Dict<Key, seq<string>>, m: Session, slot: int, sid: string, ghost ge: Events)
    returns (groupOcc': Dict<Key, seq<string>>)
    requires groupOcc == Tabulate(ge)
    ensures groupOcc' == Tabulate(ge + Tagged(GroupsOf(m), slot, sid))
  {
    if |m.groups| > 0 {
      groupOcc' := groupOcc;
      assert ge + Tagged(m.groups[..0], slot, sid) == ge;
      var j := 0;
      while j < |m.groups|
        invariant 0 <= j <= |m.groups|
        invariant groupOcc' == Tabulate(ge + Tagged(m.groups[..j], slot, sid))
      {
        assert m.groups[..j + 1][..j] == m.groups[..j];
        assert ge + Tagged(m.groups[..j + 1], slot, sid) == (ge + Tagged(m.groups[..j], slot, sid)) + [((m.groups[j], slot), sid)];
        TabulateSnoc(ge + Tagged(m.groups[..j], slot, sid), ((m.groups[j], slot), sid));
        groupOcc' := Append(groupOcc', (m.groups[j], slot), sid);
        j := j + 1;
      }
      assert m.groups[..j] == m.groups;
    } else {
      assert ge + Tagged(GroupsOf(m), slot, sid) == ge + [((m.group, slot), sid)];
      TabulateSnoc(ge, ((m.group, slot), sid));
      groupOcc' := Append(groupOcc, (m.group, slot), sid);
    }
  }

  /** `[(who, slot, sids) for (who, slot), sids in occ.items() if len(sids) > 1]` */
  method ReportClashes(d: Dict<Key, seq<string>>) returns (out: seq<Clash>)
    ensures out == Reported(d)
  {
    out := [];
    var j := 0;
    while j < |d|
      invariant 0 <= j <= |d|
      invariant out == Reported(d[..j])
    {
      assert d[..j + 1][..j] == d[..j] && d[..j + 1][j] == d[j];
      var key, sids := d[j].0, d[j].1;
      if |sids| > 1 {
        out := out + [Clash(key.0, key.1, sids)];
      }
      j := j + 1;
    }
    assert d[..j] == d;
  }

  /** The loop over the kind counts. */
  method ReportShortages(t: Dict<(SessionKind, int), int>, lab: int, lecture: int, elective: int)
    returns (out: seq<CapacityIssue>)
    ensures out == Shortages(t, lab, lecture, elective)
  {
    out := [];
    var j := 0;
    while j < |t|
      invariant 0 <= j <= |t|
      invariant out == Shortages(t[..j], lab, lecture, elective)
    {
      assert t[..j + 1][..j] == t[..j] && t[..j + 1][j] == t[j];
      var key, count := t[j].0, t[j].1;
      if key.0 == Lab && count > lab {
        out := out + [TypeShortage(key.0, key.1, count, lab)];
      } else if key.0 == Lecture && count > lecture {
        out := out + [TypeShortage(key.0, key.1, count, lecture)];
      } else if key.0 == Elective && count > elective {
        out := out + [TypeShortage(key.0, key.1, count, elective)];
      }
      j := j + 1;
    }
    assert t[..j] == t;
  }

  // ---------------------------------------------------------------------
  // Properties of the report
  // ---------------------------------------------------------------------

  /** The id of an entry once if it holds faculty member `who` at `slot`. */
  function FacultyHit(p: (string, Entry), who: string, slot: int): seq<string> {
    if p.1.meta.faculty == who && Covers(p.1, slot) then [p.0] else []
  }

  /** `n` copies of `v`. */
  function Repeat<V>(v: V, n: nat): (r: seq<V>)
    ensures |r| == n && forall i :: 0 <= i < n ==> r[i] == v
  {
    if n == 0 then [] else Repeat(v, n - 1) + [v]
  }

  /** The id of an entry once per listing of group `who`, if it covers
      `slot`. */
  function GroupHit(p: (string, Entry), who: string, slot: int): seq<string> {
    if Covers(p.1, slot) then Repeat(p.0, multiset(GroupsOf(p.1.meta))[who]) else []
  }

  /** The id of an entry once if it is in room `who` at `slot`. */
  function RoomHit(p: (string, Entry), who: string, slot: int): seq<string> {
    if p.1.room != "" && p.1.room == who && Covers(p.1, slot) then [p.0] else []
  }

  /** The id of an entry once if it is of kind `kind` and covers `slot`. */
  function KindHit(p: (string, Entry), kind: SessionKind, slot: int): seq<string> {
    if KindOf(p.1.meta.name) == kind && Covers(p.1, slot) then [p.0] else []
  }

  /** The sessions that hold each key, in schedule order. */
  function FacultyHolders(s: Schedule, who: string, slot: int): seq<string> {
    Gather(s, p => FacultyHit(p, who, slot))
  }

  function GroupHolders(s: Schedule, who: string, slot: int): seq<string> {
    Gather(s, p => GroupHit(p, who, slot))
  }

  function RoomHolders(s: Schedule, who: string, slot: int): seq<string> {
    Gather(s, p => RoomHit(p, who, slot))
  }

  function KindHolders(s: Schedule, kind: SessionKind, slot: int): seq<string> {
    Gather(s, p => KindHit(p, kind, slot))
  }

  lemma {:induction false} ReportedMembers(d: Dict<Key, seq<string>>, c: Clash)
    ensures c in Reported(d) <==> exists i :: 0 <= i < |d| && |d[i].1| > 1 && c == Clash(d[i].0.0, d[i].0.1, d[i].1)
    decreases |d|
  {
    if d != [] {
      var p := d[..|d| - 1];
      ReportedMembers(p, c);
      if exists i :: 0 <= i < |p| && |p[i].1| > 1 && c == Clash(p[i].0.0, p[i].0.1, p[i].1) {
        var i :| 0 <= i < |p| && |p[i].1| > 1 && c == Clash(p[i].0.0, p[i].0.1, p[i].1);
        assert d[i] == p[i];
      }
      if exists i :: 0 <= i < |d| && |d[i].1| > 1 && c == Clash(d[i].0.0, d[i].0.1, d[i].1) {
        var i :| 0 <= i < |d| && |d[i].1| > 1 && c == Clash(d[i].0.0, d[i].0.1, d[i].1);
        if i < |p| { assert p[i] == d[i]; }
      }
    }
  }

  /** A clash is reported for a key exactly when more than one record was
      made under it, and it lists all of them, in order. */
  lemma ReportedSpec(events: Events, c: Clash)
    ensures c in Reported(Tabulate(events))
        <==> |Filter(events, (c.who, c.slot))| > 1 && c.sids == Filter(events, (c.who, c.slot))
  {
    var d := Tabulate(events);
    var key := (c.who, c.slot);
    TabulateSpec(events);
    ReportedMembers(d, c);
    if c in Reported(d) {
      var i :| 0 <= i < |d| && |d[i].1| > 1 && c == Clash(d[i].0.0, d[i].0.1, d[i].1);
      TabulateAt(events, i);
    }
    if |Filter(events, key)| > 1 && c.sids == Filter(events, key) {
      FilterNonEmpty(events, key);
      var i :| 0 <= i < |d| && d[i].0 == key;
      TabulateAt(events, i);
      assert c == Clash(d[i].0.0, d[i].0.1, d[i].1);
    }
  }

  /** No key is reported twice. */
  lemma {:induction false} ReportedOncePerKey(d: Dict<Key, seq<string>>)
    requires DistinctKeys(d)
    ensures forall i, j :: 0 <= i < j < |Reported(d)| ==>
              (Reported(d)[i].who, Reported(d)[i].slot) != (Reported(d)[j].who, Reported(d)[j].slot)
    decreases |d|
  {
    if d != [] {
      var p, e := d[..|d| - 1], d[|d| - 1];
      assert DistinctKeys(p);
      ReportedOncePerKey(p);
      var rp := Reported(p);
      forall i | 0 <= i < |rp| ensures (rp[i].who, rp[i].slot) != e.0 {
        ReportedMembers(p, rp[i]);
        assert rp[i] in rp;
        var m :| 0 <= m < |p| && |p[m].1| > 1 && rp[i] == Clash(p[m].0.0, p[m].0.1, p[m].1);
        assert d[m].0 != d[|d| - 1].0;
      }
    }
  }

  lemma FacultyEventsHolders(s: Schedule, who: string, slot: int)
    ensures Filter(Gather(s, FacultyEventsOf), (who, slot)) == FacultyHolders(s, who, slot)
  {
    forall p ensures Filter(FacultyEventsOf(p), (who, slot)) == FacultyHit(p, who, slot) {
      FilterRun(p.1.meta.faculty, p.1.start, Span(p.1), p.0, (who, slot));
    }
    FilterGather(s, FacultyEventsOf, (who, slot), p => FacultyHit(p, who, slot));
  }

  lemma RoomEventsHolders(s: Schedule, who: string, slot: int)
    ensures Filter(Gather(s, RoomEventsOf), (who, slot)) == RoomHolders(s, who, slot)
  {
    forall p ensures Filter(RoomEventsOf(p), (who, slot)) == RoomHit(p, who, slot) {
      if p.1.room != "" {
        FilterRun(p.1.room, p.1.start, Span(p.1), p.0, (who, slot));
      }
    }
    FilterGather(s, RoomEventsOf, (who, slot), p => RoomHit(p, who, slot));
  }

  /** The records of one slot's group loop under (who, slot): one per
      listing of `who`. */
  lemma {:induction false} FilterTagged(gs: seq<string>, at: int, sid: string, who: string, slot: int)
    ensures Filter(Tagged(gs, at, sid), (who, slot))
         == if at == slot then Repeat(sid, multiset(gs)[who]) else []
    decreases |gs|
  {
    if gs != [] {
      var g' := gs[..|gs| - 1];
      var g := gs[|gs| - 1];
      assert gs == g' + [g];
      FilterTagged(g', at, sid, who, slot);
      FilterConcat(Tagged(g', at, sid), [((g, at), sid)], (who, slot));
      assert Filter([((g, at), sid)], (who, slot)) == if (g, at) == (who, slot) then [sid] else [];
      if at == slot {
        assert multiset(gs)[who] == multiset(g')[who] + (if g == who then 1 else 0);
      }
    }
  }

  lemma FilterGroupEvents(p: (string, Entry), n: nat, who: string, slot: int)
    ensures Filter(GroupEventsUpTo(p, n), (who, slot))
         == if p.1.start <= slot < p.1.start + n then Repeat(p.0, multiset(GroupsOf(p.1.meta))[who]) else []
  {
    FilterGroupRun(GroupsOf(p.1.meta), p.1.start, n, p.0, who, slot);
  }

  lemma FilterGroupRun(gs: seq<string>, start: int, n: nat, sid: string, who: string, slot: int)
    ensures Filter(GroupRun(gs, start, n, sid), (who, slot))
         == if start <= slot < start + n then Repeat(sid, multiset(gs)[who]) else []
  {
    if start <= slot < start + n {
      FilterGroupRunInside(gs, start, n, sid, who, slot);
    } else {
      FilterGroupRunOutside(gs, start, n, sid, who, slot);
    }
  }

  /** No group holds a slot the run does not reach. */
  lemma {:induction false} FilterGroupRunOutside(gs: seq<string>, start: int, n: nat, sid: string, who: string, slot: int)
    requires !(start <= slot < start + n)
    ensures Filter(GroupRun(gs, start, n, sid), (who, slot)) == []
    decreases n
  {
    if n > 0 {
      var m := n - 1;
      var at := start + m;
      assert GroupRun(gs, start, n, sid) == GroupRun(gs, start, m, sid) + Tagged(gs, at, sid);
      FilterGroupRunOutside(gs, start, m, sid, who, slot);
      FilterTaggedElsewhere(gs, at, sid, who, slot);
      FilterConcatNone(GroupRun(gs, start, m, sid), Tagged(gs, at, sid), (who, slot));
    } else {
      assert GroupRun(gs, start, n, sid) == [];
    }
  }

  lemma FilterConcatNone(a: Events, b: Events, key: Key)
    requires Filter(a, key) == [] && Filter(b, key) == []
    ensures Filter(a + b, key) == []
  {
    FilterConcat(a, b, key);
  }

  lemma FilterConcatLeft(a: Events, b: Events, key: Key, r: seq<string>)
    requires Filter(a, key) == r && Filter(b, key) == []
    ensures Filter(a + b, key) == r
  {
    FilterConcat(a, b, key);
    assert Filter(a, key) + Filter(b, key) == r;
  }

  lemma FilterConcatRight(a: Events, b: Events, key: Key, r: seq<string>)
    requires Filter(a, key) == [] && Filter(b, key) == r
    ensures Filter(a + b, key) == r
  {
    FilterConcat(a, b, key);
    assert Filter(a, key) + Filter(b, key) == r;
  }

  lemma {:induction false} FilterTaggedElsewhere(gs: seq<string>, at: int, sid: string, who: string, slot: int)
    requires at != slot
    ensures Filter(Tagged(gs, at, sid), (who, slot)) == []
    decreases |gs|
  {
    if gs != [] {
      FilterTaggedElsewhere(gs[..|gs| - 1], at, sid, who, slot);
    }
  }

  /** A slot the run reaches is held once per listing of the group. */
  lemma {:induction false} FilterGroupRunInside(gs: seq<string>, start: int, n: nat, sid: string, who: string, slot: int)
    requires start <= slot < start + n
    ensures Filter(GroupRun(gs, start, n, sid), (who, slot)) == Repeat(sid, multiset(gs)[who])
    decreases n
  {
    var m := n - 1;
    var at := start + m;
    assert GroupRun(gs, start, n, sid) == GroupRun(gs, start, m, sid) + Tagged(gs, at, sid);
    if slot == at {
      FilterGroupRunOutside(gs, start, m, sid, who, slot);
      FilterTagged(gs, at, sid, who, slot);
      FilterConcatRight(GroupRun(gs, start, m, sid), Tagged(gs, at, sid), (who, slot),
                        Repeat(sid, multiset(gs)[who]));
    } else {
      FilterGroupRunInside(gs, start, m, sid, who, slot);
      FilterTaggedElsewhere(gs, at, sid, who, slot);
      FilterConcatLeft(GroupRun(gs, start, m, sid), Tagged(gs, at, sid), (who, slot),
                       Repeat(sid, multiset(gs)[who]));
    }
  }

  lemma GroupEventsHolders(s: Schedule, who: string, slot: int)
    ensures Filter(Gather(s, GroupEventsOf), (who, slot)) == GroupHolders(s, who, slot)
  {
    forall p ensures Filter(GroupEventsOf(p), (who, slot)) == GroupHit(p, who, slot) {
      FilterGroupEvents(p, Span(p.1), who, slot);
    }
    FilterGather(s, GroupEventsOf, (who, slot), p => GroupHit(p, who, slot));
  }

  /** Faculty clashes are exhaustive: one is reported for a (faculty, slot)
      pair exactly when more than one session holds it, and it lists every
      such session in schedule order. */
  lemma FacultyClashReported(s: Schedule, rooms: seq<Room>, groupSizes: map<string, int>, c: Clash)
    ensures c in Detection(s, rooms, groupSizes).faculty
        <==> |FacultyHolders(s, c.who, c.slot)| > 1 && c.sids == FacultyHolders(s, c.who, c.slot)
  {
    ReportedSpec(Gather(s, FacultyEventsOf), c);
    FacultyEventsHolders(s, c.who, c.slot);
  }

  /** Group clashes likewise, a session counting under each group it
      lists (its "groups" when non-empty, else its "group"). */
  lemma GroupClashReported(s: Schedule, rooms: seq<Room>, groupSizes: map<string, int>, c: Clash)
    ensures c in Detection(s, rooms, groupSizes).group
        <==> |GroupHolders(s, c.who, c.slot)| > 1 && c.sids == GroupHolders(s, c.who, c.slot)
  {
    ReportedSpec(Gather(s, GroupEventsOf), c);
    GroupEventsHolders(s, c.who, c.slot);
  }

  /** Room clashes likewise, sessions without a room taking no part. */
  lemma RoomClashReported(s: Schedule, rooms: seq<Room>, groupSizes: map<string, int>, c: Clash)
    ensures c in Detection(s, rooms, groupSizes).room
        <==> |RoomHolders(s, c.who, c.slot)| > 1 && c.sids == RoomHolders(s, c.who, c.slot)
  {
    ReportedSpec(Gather(s, RoomEventsOf), c);
    RoomEventsHolders(s, c.who, c.slot);
  }

  /** Each (who, slot) pair is reported at most once per category. */
  lemma ClashesOncePerKey(s: Schedule, rooms: seq<Room>, groupSizes: map<string, int>)
    ensures var r := Detection(s, rooms, groupSizes);
      forall i, j :: 0 <= i < j < |r.faculty| ==> (r.faculty[i].who, r.faculty[i].slot) != (r.faculty[j].who, r.faculty[j].slot)
    ensures var r := Detection(s, rooms, groupSizes);
      forall i, j :: 0 <= i < j < |r.group| ==> (r.group[i].who, r.group[i].slot) != (r.group[j].who, r.group[j].slot)
    ensures var r := Detection(s, rooms, groupSizes);
      forall i, j :: 0 <= i < j < |r.room| ==> (r.room[i].who, r.room[i].slot) != (r.room[j].who, r.room[j].slot)
  {
    TabulateSpec(Gather(s, FacultyEventsOf));
    TabulateSpec(Gather(s, GroupEventsOf));
    TabulateSpec(Gather(s, RoomEventsOf));
    ReportedOncePerKey(Tabulate(Gather(s, FacultyEventsOf)));
    ReportedOncePerKey(Tabulate(Gather(s, GroupEventsOf)));
    ReportedOncePerKey(Tabulate(Gather(s, RoomEventsOf)));
  }

  /** The room map gives the capacity of the last room with the name. */
  lemma {:induction false} RoomCapacityLast(rooms: seq<Room>, name: string, i: nat)
    requires i < |rooms| && rooms[i].name == name
    requires forall j :: i < j < |rooms| ==> rooms[j].name != name
    ensures RoomCapacity(rooms, name) == rooms[i].capacity
    decreases |rooms|
  {
    if i < |rooms| - 1 {
      RoomCapacityLast(rooms[..|rooms| - 1], name, i);
    }
  }

  /** An unknown room has capacity 0. */
  lemma {:induction false} RoomCapacityUnknown(rooms: seq<Room>, name: string)
    requires forall j :: 0 <= j < |rooms| ==> rooms[j].name != name
    ensures RoomCapacity(rooms, name) == 0
    decreases |rooms|
  {
    if rooms != [] {
      RoomCapacityUnknown(rooms[..|rooms| - 1], name);
    }
  }

  /** The room-capacity record of a session is made exactly when it has a
      room, a group-size table is given, and its group (size 0 when
      unknown) is larger than its room's capacity. */
  lemma {:induction false} OverCapacityMembers(s: Schedule, rooms: seq<Room>, groupSizes: map<string, int>,
                                               sid: string, g: string, room: string, size: int, cap: int)
    ensures RoomOverCapacity(sid, g, room, size, cap) in OverCapacity(s, rooms, groupSizes) <==>
      && |groupSizes| > 0 && room != ""
      && size == GroupSize(groupSizes, g) && cap == RoomCapacity(rooms, room) && size > cap
      && exists i :: 0 <= i < |s| && s[i].0 == sid && s[i].1.room == room && s[i].1.meta.group == g
    decreases |s|
  {
    if s != [] {
      var p := s[..|s| - 1];
      OverCapacityMembers(p, rooms, groupSizes, sid, g, room, size, cap);
      if exists i :: 0 <= i < |p| && p[i].0 == sid && p[i].1.room == room && p[i].1.meta.group == g {
        var i :| 0 <= i < |p| && p[i].0 == sid && p[i].1.room == room && p[i].1.meta.group == g;
        assert s[i] == p[i];
      }
      if exists i :: 0 <= i < |s| && s[i].0 == sid && s[i].1.room == room && s[i].1.meta.group == g {
        var i :| 0 <= i < |s| && s[i].0 == sid && s[i].1.room == room && s[i].1.meta.group == g;
        if i < |p| { assert p[i] == s[i]; }
      }
    }
  }

  /** No type shortage comes from the per-session capacity check. */
  lemma {:induction false} OverCapacityOnlyRooms(s: Schedule, rooms: seq<Room>, groupSizes: map<string, int>, i: nat)
    requires i < |OverCapacity(s, rooms, groupSizes)|
    ensures OverCapacity(s, rooms, groupSizes)[i].RoomOverCapacity?
    decreases |s|
  {
    var p := s[..|s| - 1];
    if i < |OverCapacity(p, rooms, groupSizes)| {
      OverCapacityOnlyRooms(p, rooms, groupSizes, i);
    }
  }

  /** No room-capacity record comes from the type counts. */
  lemma {:induction false} ShortagesOnlyTypes(t: Dict<(SessionKind, int), int>, lab: int, lecture: int, elective: int, i: nat)
    requires i < |Shortages(t, lab, lecture, elective)|
    ensures Shortages(t, lab, lecture, elective)[i].TypeShortage?
    decreases |t|
  {
    var p := t[..|t| - 1];
    if i < |Shortages(p, lab, lecture, elective)| {
      ShortagesOnlyTypes(p, lab, lecture, elective, i);
    }
  }

  lemma {:induction false} ShortagesMembers(t: Dict<(SessionKind, int), int>, lab: int, lecture: int, elective: int, x: CapacityIssue)
    ensures x in Shortages(t, lab, lecture, elective) <==>
      exists i :: 0 <= i < |t| && t[i].1 > Available(t[i].0.0, lab, lecture, elective)
        && x == TypeShortage(t[i].0.0, t[i].0.1, t[i].1, Available(t[i].0.0, lab, lecture, elective))
    decreases |t|
  {
    if t != [] {
      var p := t[..|t| - 1];
      ShortagesMembers(p, lab, lecture, elective, x);
      if exists i :: 0 <= i < |p| && p[i].1 > Available(p[i].0.0, lab, lecture, elective)
           && x == TypeShortage(p[i].0.0, p[i].0.1, p[i].1, Available(p[i].0.0, lab, lecture, elective)) {
        var i :| 0 <= i < |p| && p[i].1 > Available(p[i].0.0, lab, lecture, elective)
           && x == TypeShortage(p[i].0.0, p[i].0.1, p[i].1, Available(p[i].0.0, lab, lecture, elective));
        assert t[i] == p[i];
      }
      if exists i :: 0 <= i < |t| && t[i].1 > Available(t[i].0.0, lab, lecture, elective)
           && x == TypeShortage(t[i].0.0, t[i].0.1, t[i].1, Available(t[i].0.0, lab, lecture, elective)) {
        var i :| 0 <= i < |t| && t[i].1 > Available(t[i].0.0, lab, lecture, elective)
           && x == TypeShortage(t[i].0.0, t[i].0.1, t[i].1, Available(t[i].0.0, lab, lecture, elective));
        if i < |p| { assert p[i] == t[i]; }
      }
    }
  }

  lemma {:induction false} KindKeysCount(p: (string, Entry), n: nat, kind: SessionKind, slot: int)
    ensures multiset(KindKeysUpTo(p, n))[(kind, slot)]
         == if KindOf(p.1.meta.name) == kind && p.1.start <= slot < p.1.start + n then 1 else 0
    decreases n
  {
    if n > 0 {
      KindKeysCount(p, n - 1, kind, slot);
      assert KindKeysUpTo(p, n) == KindKeysUpTo(p, n - 1) + [(KindOf(p.1.meta.name), p.1.start + n - 1)];
    }
  }

  /** The type count of (kind, slot) is the number of sessions of that
      kind covering the slot. */
  lemma {:induction false} KindCountHolders(s: Schedule, kind: SessionKind, slot: int)
    ensures multiset(Gather(s, KindKeysOf))[(kind, slot)] == |KindHolders(s, kind, slot)|
    decreases |s|
  {
    if s != [] {
      var p := s[..|s| - 1];
      KindCountHolders(p, kind, slot);
      KindKeysCount(s[|s| - 1], Span(s[|s| - 1].1), kind, slot);
    }
  }

  /** A type shortage is listed for (kind, slot), with `lab` of the `n`
      rooms being labs, exactly when more sessions of that kind cover the
      slot than there are rooms of that kind: the lab rooms for labs, the
      others for lectures, all rooms for electives. */
  lemma ShortageInSchedule(s: Schedule, lab: int, n: int, kind: SessionKind, slot: int, count: int, available: int)
    requires 0 <= lab <= n
    ensures TypeShortage(kind, slot, count, available) in Shortages(Tally(Gather(s, KindKeysOf)), lab, n - lab, n)
        <==> count == |KindHolders(s, kind, slot)| && available == Available(kind, lab, n - lab, n) && count > available
  {
    KindCountHolders(s, kind, slot);
    ShortageInTally(Gather(s, KindKeysOf), lab, n, kind, slot, |KindHolders(s, kind, slot)|, count, available);
  }

  /** A type shortage is listed from the tally of `keys`, with `lab` of the
      `n` rooms being labs, exactly when the `held` occurrences of its
      (kind, slot) exceed the rooms available for its kind. */
  lemma ShortageInTally(keys: seq<(SessionKind, int)>, lab: int, n: int, kind: SessionKind, slot: int, held: int,
                        count: int, available: int)
    requires 0 <= lab <= n
    requires multiset(keys)[(kind, slot)] == held
    ensures TypeShortage(kind, slot, count, available) in Shortages(Tally(keys), lab, n - lab, n)
        <==> count == held && available == Available(kind, lab, n - lab, n) && count > available
  {
    ShortageIffTally(keys, lab, n - lab, n, kind, slot, count, available);
  }

  /** A type shortage is listed from the tally of `keys` exactly when the
      occurrences of its (kind, slot) exceed the rooms available for its
      kind. */
  lemma ShortageIffTally(keys: seq<(SessionKind, int)>, lab: int, lecture: int, elective: int,
                         kind: SessionKind, slot: int, count: int, available: int)
    requires lab >= 0 && lecture >= 0 && elective >= 0
    ensures TypeShortage(kind, slot, count, available) in Shortages(Tally(keys), lab, lecture, elective)
        <==> count == multiset(keys)[(kind, slot)] && available == Available(kind, lab, lecture, elective)
             && count > available
  {
    if TypeShortage(kind, slot, count, available) in Shortages(Tally(keys), lab, lecture, elective) {
      ShortageFromTally(keys, lab, lecture, elective, kind, slot, count, available);
    }
    if count == multiset(keys)[(kind, slot)] && available == Available(kind, lab, lecture, elective) && count > available {
      ShortageToTally(keys, lab, lecture, elective, kind, slot, count, available);
    }
  }

  lemma ShortageFromTally(keys: seq<(SessionKind, int)>, lab: int, lecture: int, elective: int,
                          kind: SessionKind, slot: int, count: int, available: int)
    requires TypeShortage(kind, slot, count, available) in Shortages(Tally(keys), lab, lecture, elective)
    ensures count == multiset(keys)[(kind, slot)]
    ensures available == Available(kind, lab, lecture, elective)
    ensures count > available
  {
    var x := TypeShortage(kind, slot, count, available);
    var t := Tally(keys);
    ShortagesMembers(t, lab, lecture, elective, x);
    TallySpec(keys);
    var i :| 0 <= i < |t| && t[i].1 > Available(t[i].0.0, lab, lecture, elective)
      && x == TypeShortage(t[i].0.0, t[i].0.1, t[i].1, Available(t[i].0.0, lab, lecture, elective));
    TallyAt(keys, i);
  }

  /** Every (kind, slot) whose count exceeds the rooms available for its
      kind is listed. */
  lemma ShortageToTally(keys: seq<(SessionKind, int)>, lab: int, lecture: int, elective: int,
                        kind: SessionKind, slot: int, count: int, available: int)
    requires count == multiset(keys)[(kind, slot)]
    requires available == Available(kind, lab, lecture, elective)
    requires count > available
    requires lab >= 0 && lecture >= 0 && elective >= 0
    ensures TypeShortage(kind, slot, count, available) in Shortages(Tally(keys), lab, lecture, elective)
  {
    var x := TypeShortage(kind, slot, count, available);
    var t := Tally(keys);
    ShortagesMembers(t, lab, lecture, elective, x);
    TallySpec(keys);
    assert (kind, slot) in keys;
    assert (kind, slot) in Keys(t);
    var i :| 0 <= i < |t| && t[i].0 == (kind, slot);
    TallyAt(keys, i);
  }

  /** A room-capacity record is reported exactly for the sessions with a
      room, when a group-size table is given, whose group is larger than
      the room's capacity. */
  lemma OverCapacityReported(s: Schedule, rooms: seq<Room>, groupSizes: map<string, int>,
                             sid: string, g: string, room: string, size: int, cap: int)
    ensures RoomOverCapacity(sid, g, room, size, cap) in CapacityReport(s, rooms, groupSizes) <==>
      && |groupSizes| > 0 && room != ""
      && size == GroupSize(groupSizes, g) && cap == RoomCapacity(rooms, room) && size > cap
      && exists i :: 0 <= i < |s| && s[i].0 == sid && s[i].1.room == room && s[i].1.meta.group == g
  {
    var x := RoomOverCapacity(sid, g, room, size, cap);
    var lab := LabRoomCount(rooms);
    var kindCount := KindCounts(s);
    var oc := OverCapacity(s, rooms, groupSizes);
    var sh := Shortages(kindCount, lab, |rooms| - lab, |rooms|);
    assert CapacityReport(s, rooms, groupSizes) == oc + sh;
    if x in sh {
      var i :| 0 <= i < |sh| && sh[i] == x;
      ShortagesOnlyTypes(kindCount, lab, |rooms| - lab, |rooms|, i);
    }
    OverCapacityMembers(s, rooms, groupSizes, sid, g, room, size, cap);
  }
}
