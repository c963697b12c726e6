/** The genetic algorithm's encoding of a timetable: one integer gene per
    session packing its start slot and its room index, the random first
    generation and the decoding of a genome into a schedule. */
module GaSetup {
  import opened Common
  import opened Grid
  import opened Timetable
  import opened Dicts

  // ---------------------------------------------------------------------
  // Genes
  // ---------------------------------------------------------------------

  /** `encode(start, room)` */
  function Encode(start: int, room: int): int {
    start * 100 + room
  }

  /** `decode(g)`, Python's `divmod(g, 100)`. Python floors; for the
      positive divisor 100 that is Dafny's Euclidean division. The room part
      is always below 100, and encoding the two parts gives the gene back. */
  function Decode(g: int): (r: (int, int))
    ensures 0 <= r.1 < 100
    ensures Encode(r.0, r.1) == g
  {
    (g / 100, g % 100)
  }

  /** A gene packed from a room index below 100 unpacks to the same start
      and room, whatever the start. */
  lemma DecodeEncode(start: int, room: int)
    requires 0 <= room < 100
    ensures Decode(Encode(start, room)) == (start, room)
  {
    var g := Encode(start, room);
    var q, r := g / 100, g % 100;
    assert 100 * (q - start) == room - r;
    if q - start >= 1 {
      assert false;
    } else if q - start <= -1 {
      assert false;
    }
  }

  /** With a hundred rooms or more the packing is ambiguous: room index 100
      unpacks as room 0 one slot later. */
  lemma DecodeEncodeRoomHundred(start: int)
    ensures Decode(Encode(start, 100)) == (start + 1, 0)
  {
    DecodeEncode(start + 1, 0);
  }

  // ---------------------------------------------------------------------
  // Start slots
  // ---------------------------------------------------------------------

  /** How many periods of a day a session of `length` periods can start
      at: `range(slots_per_day - length + 1)` is empty when that is not
      positive. */
  function Width(spd: int, length: int): nat {
    if spd - length + 1 > 0 then spd - length + 1 else 0
  }

  /** `possible_starts(length)`: day after day, the slots of the periods a
      block of `length` can start at. */
  function PossibleStarts(nDays: nat, spd: int, length: int): seq<int> {
    BlockIndices(nDays, spd, Range(Width(spd, length)))
  }

  lemma DayBlockMembers(d: int, spd: int, w: nat, x: int)
    ensures x in DayBlock(d, spd, Range(w)) <==> exists p :: 0 <= p < w && x == AbsoluteSlot(d, p, spd)
  {
    var b := DayBlock(d, spd, Range(w));
    if x in b {
      var j :| 0 <= j < |b| && b[j] == x;
      assert x == AbsoluteSlot(d, j, spd);
    }
    if exists p :: 0 <= p < w && x == AbsoluteSlot(d, p, spd) {
      var p :| 0 <= p < w && x == AbsoluteSlot(d, p, spd);
      assert b[p] == x;
    }
  }

  /** The offered starts are exactly period p of day d for every day and
      every period p in the start range. */
  lemma {:induction false} StartsMembers(nDays: nat, spd: int, length: int)
    ensures forall x :: x in PossibleStarts(nDays, spd, length)
              <==> exists d, p :: 0 <= d < nDays && 0 <= p < Width(spd, length) && x == AbsoluteSlot(d, p, spd)
    decreases nDays
  {
    if nDays > 0 {
      var n := nDays - 1;
      var w := Width(spd, length);
      var prev := PossibleStarts(n, spd, length);
      var b := DayBlock(n, spd, Range(w));
      assert PossibleStarts(nDays, spd, length) == prev + b;
      StartsMembers(n, spd, length);
      forall x
        ensures x in prev + b <==> exists d, p :: 0 <= d < nDays && 0 <= p < w && x == AbsoluteSlot(d, p, spd)
      {
        DayBlockMembers(n, spd, w, x);
        if x in b {
          var p :| 0 <= p < w && x == AbsoluteSlot(n, p, spd);
        }
        if exists d, p :: 0 <= d < nDays && 0 <= p < w && x == AbsoluteSlot(d, p, spd) {
          var d, p :| 0 <= d < nDays && 0 <= p < w && x == AbsoluteSlot(d, p, spd);
          if d == n {
            assert x in b;
          } else {
            assert x in prev;
          }
        }
      }
    }
  }

  lemma MulMono(a: int, b: int, c: int)
    requires a <= b && 0 <= c
    ensures a * c <= b * c
  {
    assert b * c - a * c == (b - a) * c;
  }

  /** A start is offered exactly when it lies in the week and the block
      it begins ends on the same day: no block crosses a day boundary, and
      every block that stays inside a day is offered. */
  lemma PossibleStartsFit(nDays: nat, spd: int, length: int, x: int)
    requires 1 <= length && 1 <= spd
    ensures x in PossibleStarts(nDays, spd, length) <==> 0 <= x < nDays * spd && x % spd + length <= spd
  {
    if x in PossibleStarts(nDays, spd, length) {
      OfferedFits(nDays, spd, length, x);
    }
    if 0 <= x < nDays * spd && x % spd + length <= spd {
      FittingOffered(nDays, spd, length, x);
    }
  }

  /** An offered start lies in the week and its block ends on its day. */
  lemma OfferedFits(nDays: nat, spd: int, length: int, x: int)
    requires 1 <= length && 1 <= spd
    requires x in PossibleStarts(nDays, spd, length)
    ensures 0 <= x < nDays * spd && x % spd + length <= spd
  {
    var w := Width(spd, length);
    StartsMembers(nDays, spd, length);
    var d, p :| 0 <= d < nDays && 0 <= p < w && x == AbsoluteSlot(d, p, spd);
    AbsoluteSlotSplits(d, p, spd);
    MulMono(0, d, spd);
    MulMono(d + 1, nDays, spd);
    assert x < (d + 1) * spd;
  }

  /** A start in the week whose block ends on its day is offered. */
  lemma FittingOffered(nDays: nat, spd: int, length: int, x: int)
    requires 1 <= length && 1 <= spd
    requires 0 <= x < nDays * spd && x % spd + length <= spd
    ensures x in PossibleStarts(nDays, spd, length)
  {
    StartsMembers(nDays, spd, length);
    var d, p := x / spd, x % spd;
    assert x == AbsoluteSlot(d, p, spd);
    if d < 0 {
      MulMono(d, -1, spd);
      assert false;
    }
    if d >= nDays {
      MulMono(nDays, d, spd);
      assert false;
    }
  }

  /** There are `len(days) * (slots_per_day - length + 1)` starts, none
      when the block is longer than a day. */
  lemma {:induction false} PossibleStartsCount(nDays: nat, spd: int, length: int)
    ensures |PossibleStarts(nDays, spd, length)| == nDays * Width(spd, length)
    decreases nDays
  {
    if nDays > 0 {
      var n := nDays - 1;
      var w := Width(spd, length);
      PossibleStartsCount(n, spd, length);
      assert PossibleStarts(nDays, spd, length) == PossibleStarts(n, spd, length) + DayBlock(n, spd, Range(w));
      assert n * w + w == nDays * w;
    }
  }

  ghost predicate Increasing(s: seq<int>) {
    forall i, j :: 0 <= i < j < |s| ==> s[i] < s[j]
  }

  /** A block of no periods is offered one start past the end of each
      day, so two days of two slots repeat slot 2 and reach slot 4, which
      lies outside the week: both the fit and the ordering above need a
      block of at least one period. */
  lemma PossibleStartsEmptyBlock()
    ensures PossibleStarts(2, 2, 0) == [0, 1, 2, 2, 3, 4]
  {
    var r := Range(3);
    assert r == [0, 1, 2];
    var d0, d1 := DayBlock(0, 2, r), DayBlock(1, 2, r);
    assert d0 == [0, 1, 2];
    assert d1 == [2, 3, 4];
    assert BlockIndices(1, 2, r) == d0;
  }

  /** The starts of a block of at least one period come in strictly
      increasing order. */
  lemma {:induction false} PossibleStartsIncreasing(nDays: nat, spd: int, length: int)
    requires 1 <= length
    ensures Increasing(PossibleStarts(nDays, spd, length))
    decreases nDays
  {
    if nDays > 0 {
      var n := nDays - 1;
      var w := Width(spd, length);
      var prev := PossibleStarts(n, spd, length);
      var b := DayBlock(n, spd, Range(w));
      assert PossibleStarts(nDays, spd, length) == prev + b;
      PossibleStartsIncreasing(n, spd, length);
      if w > 0 {
        StartsMembers(n, spd, length);
        forall i | 0 <= i < |prev| ensures prev[i] < AbsoluteSlot(n, 0, spd) {
          var x := prev[i];
          assert x in prev;
          var d, p :| 0 <= d < n && 0 <= p < w && x == AbsoluteSlot(d, p, spd);
          MulMono(d + 1, n, spd);
        }
        forall i, j | 0 <= i < j < |prev + b| ensures (prev + b)[i] < (prev + b)[j] {
          if j >= |prev| {
            assert (prev + b)[j] == AbsoluteSlot(n, j - |prev|, spd);
          }
        }
      } else {
        assert b == [];
        assert prev + b == prev;
      }
    }
  }

  /** For a block of no periods or fewer, on a week of two days or more,
      slot `spd` is offered twice (as the last period of day 0 and the
      first of day 1), so the starts are not increasing, and the first
      slot after the week is offered too. */
  lemma ShortBlockStarts(nDays: nat, spd: int, length: int)
    requires length <= 0 && 1 <= spd && 2 <= nDays
    ensures !Increasing(PossibleStarts(nDays, spd, length))
    ensures nDays * spd in PossibleStarts(nDays, spd, length)
  {
    var w := Width(spd, length);
    var r := Range(w);
    var s := PossibleStarts(nDays, spd, length);
    BlockIndicesAt(nDays, spd, r, 0, spd);
    BlockIndicesAt(nDays, spd, r, 1, 0);
    assert s[spd] == s[w];
    BlockIndicesAt(nDays, spd, r, nDays - 1, spd);
    assert (nDays - 1) * w + spd < |s|;
    assert s[(nDays - 1) * w + spd] == nDays * spd;
  }

  // ---------------------------------------------------------------------
  // Room choices
  // ---------------------------------------------------------------------

  /** The indices of the rooms whose name mentions "lab" exactly when
      `lab` holds, in order. */
  function Matching(lab: bool, rooms: seq<Room>): seq<nat> {
    if rooms == [] then []
    else
      var i := |rooms| - 1;
      Matching(lab, rooms[..i]) + (if IsLabRoom(rooms[i].name) == lab then [i] else [])
  }

  /** `poss_rooms` in `init_ind`: the rooms whose lab-ness matches the
      session's name (both tested by `'lab' in name.lower()`), or every
      room when none does. */
  function RoomChoices(name: string, rooms: seq<Room>): seq<nat> {
    var m := Matching(IsLabRoom(name), rooms);
    if m == [] then Range(|rooms|) else m
  }

  lemma {:induction false} MatchingMembers(lab: bool, rooms: seq<Room>)
    ensures forall i: int :: i in Matching(lab, rooms) <==> 0 <= i < |rooms| && IsLabRoom(rooms[i].name) == lab
    decreases |rooms|
  {
    if rooms != [] {
      var k := |rooms| - 1;
      var p := rooms[..k];
      MatchingMembers(lab, p);
      assert forall i :: 0 <= i < k ==> p[i] == rooms[i];
    }
  }

  /** A room is offered when its lab-ness matches the session's, or when
      no room matches and it is any room; only an empty room list offers
      nothing. */
  lemma RoomChoicesSpec(name: string, rooms: seq<Room>)
    ensures RoomChoices(name, rooms) == [] <==> rooms == []
    ensures forall i: int :: i in RoomChoices(name, rooms)
              <==> 0 <= i < |rooms|
                   && (IsLabRoom(rooms[i].name) == IsLabRoom(name)
                       || forall j :: 0 <= j < |rooms| ==> IsLabRoom(rooms[j].name) != IsLabRoom(name))
  {
    var lab := IsLabRoom(name);
    var m := Matching(lab, rooms);
    MatchingMembers(lab, rooms);
    RangeElems(|rooms|);
    if m == [] {
      forall j | 0 <= j < |rooms| ensures IsLabRoom(rooms[j].name) != lab {
        assert j !in m;
      }
      forall i: int ensures i in Range(|rooms|) <==> i in Elems(Range(|rooms|)) { }
    } else {
      var i0 := m[0];
      assert i0 in m;
    }
  }

  // ---------------------------------------------------------------------
  // The first generation
  // ---------------------------------------------------------------------

  /** A session can be given a gene: some start suits its length and some
      room is offered. */
  predicate Drawable(s: Session, rooms: seq<Room>, nDays: nat, spd: int) {
    PossibleStarts(nDays, spd, s.length) != [] && RoomChoices(s.name, rooms) != []
  }

  /** `g` packs a start offered for the session's length with a room
      offered for its name. */
  ghost predicate Drawn(g: int, s: Session, rooms: seq<Room>, nDays: nat, spd: int) {
    exists start, room :: start in PossibleStarts(nDays, spd, s.length)
                     && room in RoomChoices(s.name, rooms)
                     && g == Encode(start, room)
  }

  /** `random.choice` of an empty list: the IndexError raised for the
      session at `index`. */
  datatype InitError = EmptyChoice(index: nat)

  /** `init_ind`: one gene per session, in session order, each packing a
      start and a room drawn from the offered ones. The random draw is any
      choice. It fails at the first session offered no start or no room. */
  method InitInd(sessions: seq<Session>, rooms: seq<Room>, nDays: nat, spd: int)
    returns (r: Result<seq<int>, InitError>)
    ensures r.Ok? <==> forall i :: 0 <= i < |sessions| ==> Drawable(sessions[i], rooms, nDays, spd)
    ensures r.Ok? ==> |r.value| == |sessions|
                      && forall i :: 0 <= i < |sessions| ==> Drawn(r.value[i], sessions[i], rooms, nDays, spd)
    ensures r.Err? ==> r.error.index < |sessions|
                       && !Drawable(sessions[r.error.index], rooms, nDays, spd)
                       && forall i :: 0 <= i < r.error.index ==> Drawable(sessions[i], rooms, nDays, spd)
  {
    var genome: seq<int> := [];
    var i := 0;
    while i < |sessions|
      invariant 0 <= i <= |sessions|
      invariant |genome| == i
      invariant forall j :: 0 <= j < i ==> Drawable(sessions[j], rooms, nDays, spd)
      invariant forall j :: 0 <= j < i ==> Drawn(genome[j], sessions[j], rooms, nDays, spd)
    {
      var ok, g := DrawGene(sessions[i], rooms, nDays, spd);
      if !ok {
        r := Err(EmptyChoice(i));
        return;
      }
      genome := genome + [g];
      i := i + 1;
    }
    return Ok(genome);
  }

  /** One step of `init_ind`: a start drawn from the offered ones, then a
      room drawn from the offered ones, packed into a gene; `ok` is false
      where a draw is made from an empty list. */
  method DrawGene(s: Session, rooms: seq<Room>, nDays: nat, spd: int) returns (ok: bool, g: int)
    ensures ok <==> Drawable(s, rooms, nDays, spd)
    ensures ok ==> Drawn(g, s, rooms, nDays, spd)
  {
    var opts := PossibleStarts(nDays, spd, s.length);
    if opts == [] {
      return false, 0;
    }
    var k :| 0 <= k < |opts|;
    var start := opts[k];
    var poss := RoomChoices(s.name, rooms);
    if poss == [] {
      return false, 0;
    }
    var m :| 0 <= m < |poss|;
    var room := poss[m];
    return true, Encode(start, room);
  }

  /** With at most a hundred rooms, a drawn gene decodes to the start and
      room it was drawn from: an offered start and an existing, offered
      room. */
  lemma DrawnDecodes(g: int, s: Session, rooms: seq<Room>, nDays: nat, spd: int)
    requires Drawn(g, s, rooms, nDays, spd) && |rooms| <= 100
    ensures Decode(g).0 in PossibleStarts(nDays, spd, s.length)
    ensures Decode(g).1 in RoomChoices(s.name, rooms)
    ensures 0 <= Decode(g).1 < |rooms|
  {
    var start, room :| start in PossibleStarts(nDays, spd, s.length)
                    && room in RoomChoices(s.name, rooms)
                    && g == Encode(start, room);
    RoomChoicesSpec(s.name, rooms);
    DecodeEncode(start, room);
  }

  // ---------------------------------------------------------------------
  // Decoding a genome
  // ---------------------------------------------------------------------

  /** The IndexError of `decode_ind`: a gene past the last session, or a
      gene whose room index is past the last room. */
  datatype DecodeError = NoSession(index: nat) | NoRoom(index: nat)

  /** The schedule entry for gene `g` of session `s`. */
  function GeneEntry(g: int, s: Session, rooms: seq<Room>): Entry
    requires Decode(g).1 < |rooms|
  {
    Entry(Decode(g).0, rooms[Decode(g).1].name, s.length, s)
  }

  /** What `decode_ind` returns for the genome `ind`: the entries written
      gene by gene under each session's id, or the error of the first gene
      that cannot be read. */
  function Decoded(ind: seq<int>, sessions: seq<Session>, rooms: seq<Room>): Result<Schedule, DecodeError>
  {
    if ind == [] then Ok([])
    else
      var idx := |ind| - 1;
      match Decoded(ind[..idx], sessions, rooms)
      case Err(e) => Err(e)
      case Ok(out) =>
        if idx >= |sessions| then Err(NoSession(idx))
        else if Decode(ind[idx]).1 >= |rooms| then Err(NoRoom(idx))
        else Ok(Put(out, sessions[idx].sessId, GeneEntry(ind[idx], sessions[idx], rooms)))
  }

  /** Once a prefix of the genome fails, the whole genome fails the same
      way. */
  lemma {:induction false} DecodedErrPersists(ind: seq<int>, sessions: seq<Session>, rooms: seq<Room>, k: nat)
    requires k <= |ind| && Decoded(ind[..k], sessions, rooms).Err?
    ensures Decoded(ind, sessions, rooms) == Decoded(ind[..k], sessions, rooms)
    decreases |ind|
  {
    if k < |ind| {
      var idx := |ind| - 1;
      assert ind[..idx][..k] == ind[..k];
      DecodedErrPersists(ind[..idx], sessions, rooms, k);
    } else {
      assert ind[..k] == ind;
    }
  }

  /** `decode_ind` */
  method DecodeInd(ind: seq<int>, sessions: seq<Session>, rooms: seq<Room>)
    returns (r: Result<Schedule, DecodeError>)
    ensures r == Decoded(ind, sessions, rooms)
  {
    var out: Schedule := [];
    var idx := 0;
    while idx < |ind|
      invariant 0 <= idx <= |ind|
      invariant Decoded(ind[..idx], sessions, rooms) == Ok(out)
    {
      assert ind[..idx + 1][..idx] == ind[..idx];
      var (start, room) := Decode(ind[idx]);
      if idx >= |sessions| {
        r := Err(NoSession(idx));
        DecodedErrPersists(ind, sessions, rooms, idx + 1);
        return;
      }
      var s := sessions[idx];
      if room >= |rooms| {
        r := Err(NoRoom(idx));
        DecodedErrPersists(ind, sessions, rooms, idx + 1);
        return;
      }
      out := Put(out, s.sessId, Entry(start, rooms[room].name, s.length, s));
      idx := idx + 1;
    }
    assert ind[..idx] == ind;
    r := Ok(out);
  }

  /** Every gene can be read exactly when there is a session for each gene
      and every room index names a room. */
  lemma {:induction false} DecodedOk(ind: seq<int>, sessions: seq<Session>, rooms: seq<Room>)
    ensures Decoded(ind, sessions, rooms).Ok?
        <==> |ind| <= |sessions| && forall i :: 0 <= i < |ind| ==> Decode(ind[i]).1 < |rooms|
    decreases |ind|
  {
    if ind != [] {
      var idx := |ind| - 1;
      var p := ind[..idx];
      DecodedOk(p, sessions, rooms);
      assert forall i :: 0 <= i < idx ==> p[i] == ind[i];
    }
  }

  /** The sessions' ids are pairwise distinct. */
  ghost predicate DistinctIds(sessions: seq<Session>) {
    forall i, j :: 0 <= i < j < |sessions| ==> sessions[i].sessId != sessions[j].sessId
  }

  /** With distinct session ids, a readable genome gives one entry per
      gene, in gene order, keyed by that session's id and holding the
      decoded start, the room's name, the session's length and the session
      itself. */
  lemma {:induction false} DecodedEntries(ind: seq<int>, sessions: seq<Session>, rooms: seq<Room>)
    requires DistinctIds(sessions) && Decoded(ind, sessions, rooms).Ok?
    ensures |ind| <= |sessions|
    ensures |Decoded(ind, sessions, rooms).value| == |ind|
    ensures forall i :: 0 <= i < |ind| ==>
              Decode(ind[i]).1 < |rooms|
              && Decoded(ind, sessions, rooms).value[i] == (sessions[i].sessId, GeneEntry(ind[i], sessions[i], rooms))
    decreases |ind|
  {
    DecodedOk(ind, sessions, rooms);
    if ind != [] {
      var idx := |ind| - 1;
      var p := ind[..idx];
      DecodedEntries(p, sessions, rooms);
      var out := Decoded(p, sessions, rooms).value;
      var k := sessions[idx].sessId;
      var e := GeneEntry(ind[idx], sessions[idx], rooms);
      assert forall i :: 0 <= i < idx ==> p[i] == ind[i];
      assert forall j :: 0 <= j < |out| ==> out[j].0 != k;
      assert Put(out, k, e) == out + [(k, e)];
    }
  }
}
