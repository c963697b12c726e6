/** `greedy_room_assignment`: sessions whose start slots are already fixed
    are given rooms one at a time, longest first, each taking the first
    room in its preference order that is large enough for its group and
    free over all of its slots. */
module RoomAssignment {
  import opened Common
  import opened Timetable

  /** The result: session id to room name; None when some session finds no
      room; the KeyError of a session without a start time. */
  datatype Outcome = Assigned(assignment: map<string, string>) | Unplaceable | MissingStart(sessId: string)

  // ---------------------------------------------------------------------
  // The order in which sessions are processed
  // ---------------------------------------------------------------------

  /** Session i is processed before session j: it is longer, or as long and
      for a larger group, or equal on both and earlier in the input (the
      sort is stable). */
  predicate Precedes(sessions: seq<Session>, groupSizes: map<string, int>, i: nat, j: nat) {
    if i < |sessions| && j < |sessions| then
      var a, b := sessions[i], sessions[j];
      var sa, sb := GroupSize(groupSizes, a.group), GroupSize(groupSizes, b.group);
      a.length > b.length || (a.length == b.length && (sa > sb || (sa == sb && i < j)))
    else i < j
  }

  /** `sorted(sessions, key=lambda s: (-s['length'], -group_sizes.get(s['group'], 0)))`,
      as the list of the sessions' positions. */
  function ProcessingOrder(sessions: seq<Session>, groupSizes: map<string, int>): (order: seq<nat>)
    ensures |order| == |sessions| && forall k :: 0 <= k < |order| ==> order[k] < |sessions|
  {
    var less := (i, j) => Precedes(sessions, groupSizes, i, j);
    var rng := Range(|sessions|);
    RangeElems(|sessions|);
    PrecedesStrictTotal(sessions, groupSizes, Elems(rng));
    SortDistinctSpec(rng, less);
    var order := SortDistinct(rng, less);
    assert forall k :: 0 <= k < |order| ==> order[k] in Elems(order);
    order
  }

  lemma PrecedesStrictTotal(sessions: seq<Session>, groupSizes: map<string, int>, S: set<nat>)
    ensures StrictTotalOn(S, (i, j) => Precedes(sessions, groupSizes, i, j))
  {
  }

  /** Every session is processed exactly once, and the processing order
      is sorted by decreasing length, then decreasing group size, then
      input position. */
  lemma ProcessingOrderSpec(sessions: seq<Session>, groupSizes: map<string, int>)
    ensures var order := ProcessingOrder(sessions, groupSizes);
      && (forall i :: 0 <= i < |sessions| ==> i in order)
      && StrictlySorted(order, (i, j) => Precedes(sessions, groupSizes, i, j))
  {
    var less := (i, j) => Precedes(sessions, groupSizes, i, j);
    var rng := Range(|sessions|);
    RangeElems(|sessions|);
    PrecedesStrictTotal(sessions, groupSizes, Elems(rng));
    SortDistinctSpec(rng, less);
    var order := SortDistinct(rng, less);
    forall i | 0 <= i < |sessions| ensures i in order {
      assert i in Elems(rng);
    }
  }

  /** Consecutive sessions in the processing order: the earlier is at least
      as long, and when they are equally long its group is at least as big. */
  lemma ProcessingOrderDecreasing(sessions: seq<Session>, groupSizes: map<string, int>, k: nat, k': nat)
    requires k < k' < |sessions|
    ensures var order := ProcessingOrder(sessions, groupSizes);
      var a, b := sessions[order[k]], sessions[order[k']];
      && a.length >= b.length
      && (a.length == b.length ==> GroupSize(groupSizes, a.group) >= GroupSize(groupSizes, b.group))
  {
    ProcessingOrderSpec(sessions, groupSizes);
  }

  // ---------------------------------------------------------------------
  // The order in which rooms are tried
  // ---------------------------------------------------------------------

  /** Room a is tried before room b: its lab-ness matches the session's
      preference and b's does not, or both are alike and a comes first. */
  predicate RoomPrecedes(rooms: seq<Room>, preferLab: bool, a: nat, b: nat) {
    if a < |rooms| && b < |rooms| then
      var ma, mb := IsLabRoom(rooms[a].name) == preferLab, IsLabRoom(rooms[b].name) == preferLab;
      (ma && !mb) || (ma == mb && a < b)
    else a < b
  }

  /** `room_order.sort(key=lambda r: is_lab(rooms[r]) != prefer_lab)` on
      `list(range(len(rooms)))`. */
  function RoomOrder(rooms: seq<Room>, preferLab: bool): (ro: seq<nat>)
    ensures |ro| == |rooms| && forall p :: 0 <= p < |ro| ==> ro[p] < |rooms|
  {
    var less := (a, b) => RoomPrecedes(rooms, preferLab, a, b);
    var rng := Range(|rooms|);
    RangeElems(|rooms|);
    assert StrictTotalOn(Elems(rng), less);
    SortDistinctSpec(rng, less);
    var ro := SortDistinct(rng, less);
    assert forall p :: 0 <= p < |ro| ==> ro[p] in Elems(ro);
    ro
  }

  /** Every room is tried exactly once; rooms whose lab-ness matches come
      before those that do not, and within each kind rooms keep their index
      order. */
  lemma RoomOrderSpec(rooms: seq<Room>, preferLab: bool)
    ensures var ro := RoomOrder(rooms, preferLab);
      && (forall a :: 0 <= a < |rooms| ==> a in ro)
      && (forall p, q :: 0 <= p < q < |ro| ==>
            var ma, mb := IsLabRoom(rooms[ro[p]].name) == preferLab, IsLabRoom(rooms[ro[q]].name) == preferLab;
            (ma || !mb) && (ma == mb ==> ro[p] < ro[q]))
  {
    var less := (a, b) => RoomPrecedes(rooms, preferLab, a, b);
    var rng := Range(|rooms|);
    RangeElems(|rooms|);
    assert StrictTotalOn(Elems(rng), less);
    SortDistinctSpec(rng, less);
    var ro := SortDistinct(rng, less);
    forall a | 0 <= a < |rooms| ensures a in ro {
      assert a in Elems(rng);
    }
  }

  // ---------------------------------------------------------------------
  // What a placement must satisfy
  // ---------------------------------------------------------------------

  /** The slots `start .. start + length - 1` a session occupies. */
  function Slots(start: int, length: int): set<int>
    decreases length
  {
    if length <= 0 then {} else Slots(start, length - 1) + {start + length - 1}
  }

  lemma {:induction false} SlotsMembers(start: int, length: int)
    ensures forall x :: x in Slots(start, length) <==> start <= x < start + length
    decreases length
  {
    if length > 0 { SlotsMembers(start, length - 1); }
  }

  /** A room can take a session: it is large enough for the group and none
      of the session's slots is among those it already holds. */
  predicate FitsHeld(room: Room, held: set<int>, size: int, start: int, length: int) {
    size <= room.capacity && Slots(start, length) !! held
  }

  /** The k-th processed session. */
  function Proc(sessions: seq<Session>, groupSizes: map<string, int>, k: nat): Session
    requires k < |sessions|
  {
    ProcessingOrderSpec(sessions, groupSizes);
    sessions[ProcessingOrder(sessions, groupSizes)[k]]
  }

  /** The first n processed sessions all have start times. */
  ghost predicate Timed(times: map<string, int>, sessions: seq<Session>, groupSizes: map<string, int>, n: nat) {
    n <= |sessions| && forall k :: 0 <= k < n ==> Proc(sessions, groupSizes, k).sessId in times
  }

  function SlotsOf(times: map<string, int>, sessions: seq<Session>, groupSizes: map<string, int>, k: nat): set<int>
    requires k < |sessions| && Proc(sessions, groupSizes, k).sessId in times
  {
    var s := Proc(sessions, groupSizes, k);
    Slots(times[s.sessId], s.length)
  }

  /** The slots room r holds after the first |chosen| sessions were placed
      in the rooms `chosen`. */
  ghost function Occupied(times: map<string, int>, sessions: seq<Session>, groupSizes: map<string, int>,
                          chosen: seq<nat>, r: nat): set<int>
    requires Timed(times, sessions, groupSizes, |chosen|)
  {
    if chosen == [] then {}
    else
      var k := |chosen| - 1;
      Occupied(times, sessions, groupSizes, chosen[..k], r)
        + (if chosen[k] == r then SlotsOf(times, sessions, groupSizes, k) else {})
  }

  /** Room r can take the k-th processed session: it is large enough for the
      session's group and none of the session's slots is taken there. */
  ghost predicate Fits(times: map<string, int>, sessions: seq<Session>, rooms: seq<Room>,
                       groupSizes: map<string, int>, chosen: seq<nat>, r: nat)
    requires |chosen| < |sessions| && Timed(times, sessions, groupSizes, |chosen| + 1)
  {
    var s := Proc(sessions, groupSizes, |chosen|);
    && r < |rooms|
    && FitsHeld(rooms[r], Occupied(times, sessions, groupSizes, chosen, r),
                GroupSize(groupSizes, s.group), times[s.sessId], s.length)
  }

  /** The k-th processed session went to room chosen[k], which fits it, and
      every room before it in the session's preference order does not. */
  ghost predicate FirstFit(times: map<string, int>, sessions: seq<Session>, rooms: seq<Room>,
                           groupSizes: map<string, int>, chosen: seq<nat>, k: nat)
    requires k < |chosen| <= |sessions| && Timed(times, sessions, groupSizes, |chosen|)
  {
    var ro := RoomOrder(rooms, IsLabSession(Proc(sessions, groupSizes, k).name));
    && Fits(times, sessions, rooms, groupSizes, chosen[..k], chosen[k])
    && exists p :: 0 <= p < |ro| && ro[p] == chosen[k]
         && forall q :: 0 <= q < p ==> !Fits(times, sessions, rooms, groupSizes, chosen[..k], ro[q])
  }

  ghost predicate AllFirstFit(times: map<string, int>, sessions: seq<Session>, rooms: seq<Room>,
                              groupSizes: map<string, int>, chosen: seq<nat>)
    requires |chosen| <= |sessions| && Timed(times, sessions, groupSizes, |chosen|)
  {
    forall k :: 0 <= k < |chosen| ==> FirstFit(times, sessions, rooms, groupSizes, chosen, k)
  }

  /** The assignment dict after the first n sessions: every one of their ids
      is a key, and an id maps to the room of the last of them with it. */
  ghost predicate Records(sessions: seq<Session>, rooms: seq<Room>, groupSizes: map<string, int>,
                          chosen: seq<nat>, n: nat, assignment: map<string, string>)
    requires n <= |chosen| <= |sessions|
  {
    && (forall sid :: sid in assignment <==> exists k :: 0 <= k < n && Proc(sessions, groupSizes, k).sessId == sid)
    && (forall k :: 0 <= k < n ==>
          (forall k' :: k < k' < n ==> Proc(sessions, groupSizes, k').sessId != Proc(sessions, groupSizes, k).sessId)
          ==> chosen[k] < |rooms| && assignment[Proc(sessions, groupSizes, k).sessId] == rooms[chosen[k]].name)
  }

  // ---------------------------------------------------------------------
  // The algorithm
  // ---------------------------------------------------------------------

  /** `chosen` lists the room given to each processed session, in processing
      order, for as many sessions as were placed. */
  method GreedyRoomAssignment(times: map<string, int>, sessions: seq<Session>, rooms: seq<Room>,
                              groupSizes: map<string, int>)
    returns (r: Outcome, chosen: seq<nat>)
    ensures |chosen| <= |sessions|
    ensures r.Assigned? <==> |chosen| == |sessions|
    ensures Timed(times, sessions, groupSizes, |chosen|)
    ensures AllFirstFit(times, sessions, rooms, groupSizes, chosen)
    ensures r.Assigned? ==> Records(sessions, rooms, groupSizes, chosen, |chosen|, r.assignment)
    ensures r.MissingStart? ==> r.sessId == Proc(sessions, groupSizes, |chosen|).sessId && r.sessId !in times
    ensures r.Unplaceable? ==>
              && Timed(times, sessions, groupSizes, |chosen| + 1)
              && forall rm :: 0 <= rm < |rooms| ==> !Fits(times, sessions, rooms, groupSizes, chosen, rm)
  {
    var order := ProcessingOrder(sessions, groupSizes);
    var roomSchedule: seq<set<int>> := seq(|rooms|, _ => {});
    var assignment: map<string, string> := map[];
    chosen := [];
    var k := 0;
    while k < |order|
      invariant 0 <= k <= |order| && k == |chosen|
      invariant Timed(times, sessions, groupSizes, k)
      invariant |roomSchedule| == |rooms|
      invariant forall rm :: 0 <= rm < |rooms| ==> roomSchedule[rm] == Occupied(times, sessions, groupSizes, chosen, rm)
      invariant AllFirstFit(times, sessions, rooms, groupSizes, chosen)
      invariant Records(sessions, rooms, groupSizes, chosen, k, assignment)
    {
      var s := sessions[order[k]];
      assert s == Proc(sessions, groupSizes, k);
      var sid := s.sessId;
      if sid !in times {
        return MissingStart(sid), chosen;
      }
      assert Timed(times, sessions, groupSizes, k + 1);
      var start := times[sid];
      var size := GroupSize(groupSizes, s.group);
      var roomOrder := RoomOrder(rooms, IsLabSession(s.name));
      var placed, p := FirstFitting(rooms, roomSchedule, roomOrder, size, start, s.length);
      if !placed {
        NoRoomFits(times, sessions, rooms, groupSizes, chosen, roomSchedule);
        return Unplaceable, chosen;
      }
      var rm := roomOrder[p];
      var held := Reserve(roomSchedule[rm], start, s.length);
      ScheduleStep(times, sessions, rooms, groupSizes, chosen, roomSchedule, rm, p);
      RecordsStep(sessions, rooms, groupSizes, chosen, assignment, rm);
      roomSchedule := roomSchedule[rm := held];
      assignment := assignment[sid := rooms[rm].name];
      chosen := chosen + [rm];
      k := k + 1;
    }
    return Assigned(assignment), chosen;
  }

  /** The loop over the room order: the position of the first room that
      can take the session, if any. */
  method FirstFitting(rooms: seq<Room>, roomSchedule: seq<set<int>>, roomOrder: seq<nat>,
                      size: int, start: int, length: int)
    returns (placed: bool, p: nat)
    requires |roomSchedule| == |rooms|
    requires forall q :: 0 <= q < |roomOrder| ==> roomOrder[q] < |rooms|
    ensures placed ==> p < |roomOrder| && FitsHeld(rooms[roomOrder[p]], roomSchedule[roomOrder[p]], size, start, length)
    ensures forall q :: 0 <= q < (if placed then p else |roomOrder|) ==>
              !FitsHeld(rooms[roomOrder[q]], roomSchedule[roomOrder[q]], size, start, length)
  {
    p := 0;
    while p < |roomOrder|
      invariant 0 <= p <= |roomOrder|
      invariant forall q :: 0 <= q < p ==> !FitsHeld(rooms[roomOrder[q]], roomSchedule[roomOrder[q]], size, start, length)
    {
      var rm := roomOrder[p];
      if size > rooms[rm].capacity {
        p := p + 1;
        continue;
      }
      var free := FreeFor(roomSchedule[rm], start, length);
      if free {
        return true, p;
      }
      p := p + 1;
    }
    return false, p;
  }

  /** The conflict check: none of the session's slots is already held. */
  method FreeFor(held: set<int>, start: int, length: int) returns (free: bool)
    ensures free <==> Slots(start, length) !! held
  {
    SlotsMembers(start, length);
    var off := 0;
    while off < length
      invariant 0 <= off <= Max(length, 0)
      invariant forall x :: start <= x < start + off ==> x !in held
    {
      if start + off in held {
        return false;
      }
      off := off + 1;
    }
    return true;
  }

  /** Marking the session's slots as held. */
  method Reserve(held: set<int>, start: int, length: int) returns (r: set<int>)
    ensures r == held + Slots(start, length)
  {
    r := held;
    var off := 0;
    while off < length
      invariant 0 <= off <= Max(length, 0)
      invariant r == held + Slots(start, off)
    {
      r := r + {start + off};
      off := off + 1;
    }
  }

  // ---------------------------------------------------------------------
  // What a first-fit placement guarantees
  // ---------------------------------------------------------------------

  /** Every placed session's group fits its room: the room exists and its
      capacity is at least the group's size (0 when unknown). */
  lemma PlacedFitsCapacity(times: map<string, int>, sessions: seq<Session>, rooms: seq<Room>,
                           groupSizes: map<string, int>, chosen: seq<nat>, k: nat)
    requires |chosen| <= |sessions| && Timed(times, sessions, groupSizes, |chosen|)
    requires AllFirstFit(times, sessions, rooms, groupSizes, chosen)
    requires k < |chosen|
    ensures chosen[k] < |rooms|
    ensures GroupSize(groupSizes, Proc(sessions, groupSizes, k).group) <= rooms[chosen[k]].capacity
  {
    assert FirstFit(times, sessions, rooms, groupSizes, chosen, k);
    assert |chosen[..k]| == k;
  }

  /** A room holds the slots of every session placed in it. */
  lemma {:induction false} OccupiedHolds(times: map<string, int>, sessions: seq<Session>, groupSizes: map<string, int>,
                                         chosen: seq<nat>, k: nat)
    requires Timed(times, sessions, groupSizes, |chosen|) && k < |chosen|
    ensures SlotsOf(times, sessions, groupSizes, k) <= Occupied(times, sessions, groupSizes, chosen, chosen[k])
    decreases |chosen|
  {
    var n := |chosen| - 1;
    if k < n {
      OccupiedHolds(times, sessions, groupSizes, chosen[..n], k);
    }
  }

  /** No two sessions placed in the same room share a slot. */
  lemma NoSharedSlots(times: map<string, int>, sessions: seq<Session>, rooms: seq<Room>,
                      groupSizes: map<string, int>, chosen: seq<nat>, k: nat, k': nat)
    requires |chosen| <= |sessions| && Timed(times, sessions, groupSizes, |chosen|)
    requires AllFirstFit(times, sessions, rooms, groupSizes, chosen)
    requires k < k' < |chosen| && chosen[k] == chosen[k']
    ensures SlotsOf(times, sessions, groupSizes, k) !! SlotsOf(times, sessions, groupSizes, k')
  {
    assert FirstFit(times, sessions, rooms, groupSizes, chosen, k');
    var before := chosen[..k'];
    assert before[k] == chosen[k];
    OccupiedHolds(times, sessions, groupSizes, before, k);
  }

  // ---------------------------------------------------------------------
  // Proof steps
  // ---------------------------------------------------------------------

  lemma OccupiedPrefix(times: map<string, int>, sessions: seq<Session>, groupSizes: map<string, int>,
                       chosen: seq<nat>, x: nat, r: nat)
    requires Timed(times, sessions, groupSizes, |chosen| + 1)
    ensures Occupied(times, sessions, groupSizes, chosen + [x], r)
         == Occupied(times, sessions, groupSizes, chosen, r)
            + (if x == r then SlotsOf(times, sessions, groupSizes, |chosen|) else {})
  {
    assert (chosen + [x])[..|chosen|] == chosen;
  }

  lemma FirstFitExtend(times: map<string, int>, sessions: seq<Session>, rooms: seq<Room>,
                       groupSizes: map<string, int>, chosen: seq<nat>, x: nat, k: nat)
    requires k < |chosen| < |sessions| && Timed(times, sessions, groupSizes, |chosen| + 1)
    requires FirstFit(times, sessions, rooms, groupSizes, chosen, k)
    ensures FirstFit(times, sessions, rooms, groupSizes, chosen + [x], k)
  {
    var c' := chosen + [x];
    assert c'[..k] == chosen[..k];
    assert c'[k] == chosen[k];
  }

  lemma NoRoomFits(times: map<string, int>, sessions: seq<Session>, rooms: seq<Room>,
                   groupSizes: map<string, int>, chosen: seq<nat>, roomSchedule: seq<set<int>>)
    requires |chosen| < |sessions| && Timed(times, sessions, groupSizes, |chosen| + 1)
    requires |roomSchedule| == |rooms|
    requires forall rm :: 0 <= rm < |rooms| ==> roomSchedule[rm] == Occupied(times, sessions, groupSizes, chosen, rm)
    requires var s := Proc(sessions, groupSizes, |chosen|);
      var ro := RoomOrder(rooms, IsLabSession(s.name));
      forall q :: 0 <= q < |ro| ==>
        !FitsHeld(rooms[ro[q]], roomSchedule[ro[q]], GroupSize(groupSizes, s.group), times[s.sessId], s.length)
    ensures forall rm :: 0 <= rm < |rooms| ==> !Fits(times, sessions, rooms, groupSizes, chosen, rm)
  {
    var s := Proc(sessions, groupSizes, |chosen|);
    var ro := RoomOrder(rooms, IsLabSession(s.name));
    RoomOrderSpec(rooms, IsLabSession(s.name));
    forall rm | 0 <= rm < |rooms| ensures !Fits(times, sessions, rooms, groupSizes, chosen, rm) {
      assert rm in ro;
      var q :| 0 <= q < |ro| && ro[q] == rm;
    }
  }

  lemma ScheduleStep(times: map<string, int>, sessions: seq<Session>, rooms: seq<Room>,
                     groupSizes: map<string, int>, chosen: seq<nat>, roomSchedule: seq<set<int>>, rm: nat, p: nat)
    requires |chosen| < |sessions| && Timed(times, sessions, groupSizes, |chosen| + 1)
    requires |roomSchedule| == |rooms| && rm < |rooms|
    requires forall r :: 0 <= r < |rooms| ==> roomSchedule[r] == Occupied(times, sessions, groupSizes, chosen, r)
    requires AllFirstFit(times, sessions, rooms, groupSizes, chosen)
    requires var s := Proc(sessions, groupSizes, |chosen|);
      var ro := RoomOrder(rooms, IsLabSession(s.name));
      && p < |ro| && ro[p] == rm
      && FitsHeld(rooms[rm], roomSchedule[rm], GroupSize(groupSizes, s.group), times[s.sessId], s.length)
      && forall q :: 0 <= q < p ==>
           !FitsHeld(rooms[ro[q]], roomSchedule[ro[q]], GroupSize(groupSizes, s.group), times[s.sessId], s.length)
    ensures var s := Proc(sessions, groupSizes, |chosen|);
      forall r :: 0 <= r < |rooms| ==>
        roomSchedule[rm := roomSchedule[rm] + Slots(times[s.sessId], s.length)][r]
        == Occupied(times, sessions, groupSizes, chosen + [rm], r)
    ensures AllFirstFit(times, sessions, rooms, groupSizes, chosen + [rm])
  {
    forall r | 0 <= r < |rooms| {
      OccupiedPrefix(times, sessions, groupSizes, chosen, rm, r);
    }
    PlaceStep(times, sessions, rooms, groupSizes, chosen, roomSchedule, rm, p);
  }

  lemma RecordsStep(sessions: seq<Session>, rooms: seq<Room>, groupSizes: map<string, int>,
                    chosen: seq<nat>, assignment: map<string, string>, rm: nat)
    requires |chosen| < |sessions| && rm < |rooms|
    requires Records(sessions, rooms, groupSizes, chosen, |chosen|, assignment)
    ensures Records(sessions, rooms, groupSizes, chosen + [rm], |chosen| + 1,
                    assignment[Proc(sessions, groupSizes, |chosen|).sessId := rooms[rm].name])
  {
    RecordsKeysStep(sessions, rooms, groupSizes, chosen, assignment, rm);
    RecordsRoomsStep(sessions, rooms, groupSizes, chosen, assignment, rm);
  }

  lemma RecordsKeysStep(sessions: seq<Session>, rooms: seq<Room>, groupSizes: map<string, int>,
                        chosen: seq<nat>, assignment: map<string, string>, rm: nat)
    requires |chosen| < |sessions| && rm < |rooms|
    requires forall sid :: sid in assignment <==> exists k :: 0 <= k < |chosen| && Proc(sessions, groupSizes, k).sessId == sid
    ensures var a' := assignment[Proc(sessions, groupSizes, |chosen|).sessId := rooms[rm].name];
            forall sid :: sid in a' <==> exists k :: 0 <= k < |chosen| + 1 && Proc(sessions, groupSizes, k).sessId == sid
  {
    var n := |chosen|;
    var sid := Proc(sessions, groupSizes, n).sessId;
    var a' := assignment[sid := rooms[rm].name];
    forall x ensures x in a' <==> exists k :: 0 <= k < n + 1 && Proc(sessions, groupSizes, k).sessId == x {
      if x == sid {
        assert Proc(sessions, groupSizes, n).sessId == x;
      }
    }
  }

  lemma RecordsRoomsStep(sessions: seq<Session>, rooms: seq<Room>, groupSizes: map<string, int>,
                         chosen: seq<nat>, assignment: map<string, string>, rm: nat)
    requires |chosen| < |sessions| && rm < |rooms|
    requires Records(sessions, rooms, groupSizes, chosen, |chosen|, assignment)
    ensures var c', a' := chosen + [rm], assignment[Proc(sessions, groupSizes, |chosen|).sessId := rooms[rm].name];
            forall k :: 0 <= k < |chosen| + 1 ==>
              (forall k' :: k < k' < |chosen| + 1 ==> Proc(sessions, groupSizes, k').sessId != Proc(sessions, groupSizes, k).sessId)
              ==> c'[k] < |rooms| && a'[Proc(sessions, groupSizes, k).sessId] == rooms[c'[k]].name
  {
    var c' := chosen + [rm];
    var n := |chosen|;
    var sid := Proc(sessions, groupSizes, n).sessId;
    var a' := assignment[sid := rooms[rm].name];
    forall k | 0 <= k < n + 1 &&
               (forall k' :: k < k' < n + 1 ==> Proc(sessions, groupSizes, k').sessId != Proc(sessions, groupSizes, k).sessId)
      ensures c'[k] < |rooms| && a'[Proc(sessions, groupSizes, k).sessId] == rooms[c'[k]].name
    {
      if k < n {
        assert c'[k] == chosen[k];
      }
    }
  }

  lemma PlaceStep(times: map<string, int>, sessions: seq<Session>, rooms: seq<Room>,
                  groupSizes: map<string, int>, chosen: seq<nat>, roomSchedule: seq<set<int>>, rm: nat, p: nat)
    requires |chosen| < |sessions| && Timed(times, sessions, groupSizes, |chosen| + 1)
    requires AllFirstFit(times, sessions, rooms, groupSizes, chosen)
    requires |roomSchedule| == |rooms| && rm < |rooms|
    requires forall r :: 0 <= r < |rooms| ==> roomSchedule[r] == Occupied(times, sessions, groupSizes, chosen, r)
    requires var s := Proc(sessions, groupSizes, |chosen|);
      var ro := RoomOrder(rooms, IsLabSession(s.name));
      && p < |ro| && ro[p] == rm
      && FitsHeld(rooms[rm], roomSchedule[rm], GroupSize(groupSizes, s.group), times[s.sessId], s.length)
      && forall q :: 0 <= q < p ==>
           !FitsHeld(rooms[ro[q]], roomSchedule[ro[q]], GroupSize(groupSizes, s.group), times[s.sessId], s.length)
    ensures AllFirstFit(times, sessions, rooms, groupSizes, chosen + [rm])
  {
    var c' := chosen + [rm];
    var k := |chosen|;
    forall j | 0 <= j < |c'| ensures FirstFit(times, sessions, rooms, groupSizes, c', j) {
      if j < k {
        FirstFitExtend(times, sessions, rooms, groupSizes, chosen, rm, j);
      } else {
        assert c'[..k] == chosen;
      }
    }
  }
}
