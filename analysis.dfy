/** The analysis helpers: the entity-by-slot occupancy matrix behind the
    heatmaps (`generate_matrix`) and the per-slot utilisation count of the
    schedule summary. Both write into numpy arrays, so both keep numpy's
    indexing rules: a negative index counts from the end of its axis, and
    an index outside the axis raises. */
module Analysis {
  import opened Common
  import opened Timetable

  /** The `entity_type` argument. */
  datatype EntityKind = GroupKind | FacultyKind | RoomKind

  /** What numpy raises: the ValueError of a negative array dimension and
      the IndexError of an index outside an axis. */
  datatype ArrayError = NegativeDimension | IndexOutOfBounds

  /** The entity of an entry: `meta["group"]`, `meta["faculty"]` or the
      room ("" when it has none). */
  function EntityOf(en: Entry, kind: EntityKind): string {
    match kind
    case GroupKind => en.meta.group
    case FacultyKind => en.meta.faculty
    case RoomKind => en.room
  }

  // ---------------------------------------------------------------------
  // The rows
  // ---------------------------------------------------------------------

  /** The values the `entities` set is built from, in schedule order; for
      rooms only the truthy ones. */
  function EntityValues(s: Schedule, kind: EntityKind): seq<string> {
    if s == [] then []
    else
      var en := s[|s| - 1].1;
      EntityValues(s[..|s| - 1], kind) + (if kind == RoomKind && en.room == "" then [] else [EntityOf(en, kind)])
  }

  /** `entities`: the sorted set of entity values. */
  function Entities(s: Schedule, kind: EntityKind): seq<string> {
    SortDistinct(EntityValues(s, kind), LexLess)
  }

  /** The entity is one the row list is built from. */
  predicate Listed(s: Schedule, kind: EntityKind, x: string) {
    (kind == RoomKind ==> x != "") && exists i :: 0 <= i < |s| && EntityOf(s[i].1, kind) == x
  }

  lemma {:induction false} EntityValuesMembers(s: Schedule, kind: EntityKind)
    ensures forall x :: x in EntityValues(s, kind) <==> Listed(s, kind, x)
    decreases |s|
  {
    if s != [] {
      var p := s[..|s| - 1];
      EntityValuesMembers(p, kind);
      assert forall i :: 0 <= i < |p| ==> p[i] == s[i];
    }
  }

  /** The rows are sorted without repeats, and hold exactly the entity
      values of the schedule; for rooms, sessions without a room add no
      row. */
  lemma EntitiesSpec(s: Schedule, kind: EntityKind)
    ensures StrictlySorted(Entities(s, kind), LexLess)
    ensures forall x :: x in Entities(s, kind) <==> Listed(s, kind, x)
  {
    var v := EntityValues(s, kind);
    LexLessStrictTotal(Elems(v));
    SortDistinctSpec(v, LexLess);
    EntityValuesMembers(s, kind);
    forall x ensures x in Entities(s, kind) <==> x in v {
      assert x in Elems(Entities(s, kind)) <==> x in Entities(s, kind);
      assert x in Elems(v) <==> x in v;
    }
  }

  /** A sorted row list names each row once. */
  lemma SortedRowsDistinct(rows: seq<string>, a: nat, b: nat)
    requires StrictlySorted(rows, LexLess) && a < |rows| && b < |rows| && rows[a] == rows[b]
    ensures a == b
  {
    LexLessIrreflexive(rows[a]);
  }

  /** `entity_idx[e]`: the row of entity `e`. */
  function Position(rows: seq<string>, e: string): (i: nat)
    requires e in rows
    ensures i < |rows| && rows[i] == e
  {
    if rows[0] == e then 0 else 1 + Position(rows[1..], e)
  }

  // ---------------------------------------------------------------------
  // Where a covered slot is counted
  // ---------------------------------------------------------------------

  /** The two loops: the matrix clamps a slot past the grid to the last
      column; the utilisation count skips it. */
  datatype View = Matrix | Utilization

  /** The utilisation loop skips the slot. */
  predicate Skipped(view: View, slot: int, total: int) {
    view == Utilization && slot >= total
  }

  /** The index the loop writes at. */
  function Target(view: View, slot: int, total: int): int {
    if view == Matrix && slot >= total then total - 1 else slot
  }

  /** numpy raises on the write: the index lies below `-total`. */
  predicate Raises(view: View, slot: int, total: int) {
    !Skipped(view, slot, total) && Target(view, slot, total) < -total
  }

  /** The cell the write lands in, or -1 when none is written. */
  function Cell(view: View, slot: int, total: int): int {
    if Skipped(view, slot, total) || Raises(view, slot, total) then -1
    else
      var t := Target(view, slot, total);
      if t < 0 then t + total else t
  }

  /** A written cell lies on the axis; the matrix writes every slot that
      does not raise, and clamps past the grid to the last column. */
  lemma CellSpec(view: View, slot: int, total: int)
    requires !Skipped(view, slot, total) && !Raises(view, slot, total) && total >= 0
    ensures 0 <= Cell(view, slot, total) < total
    ensures 0 <= slot < total ==> Cell(view, slot, total) == slot
    ensures -total <= slot < 0 ==> Cell(view, slot, total) == slot + total
    ensures view == Matrix && slot >= total ==> Cell(view, slot, total) == total - 1
  {
  }

  /** How many of the first `n` slots from `start` land in cell `c`. */
  function Hits(view: View, start: int, n: nat, total: int, c: int): nat {
    if n == 0 then 0
    else Hits(view, start, n - 1, total, c) + (if Cell(view, start + (n - 1), total) == c then 1 else 0)
  }

  /** The sessions whose slots a row counts: every session, or those of
      one truthy entity. */
  datatype Rows = AllSessions | EntityRow(kind: EntityKind, entity: string)

  predicate Picks(rows: Rows, en: Entry) {
    rows.AllSessions? || (rows.entity != "" && EntityOf(en, rows.kind) == rows.entity)
  }

  /** The count in cell `c` once the schedule has been scanned. */
  function Marks(view: View, rows: Rows, s: Schedule, total: int, c: int): nat {
    if s == [] then 0
    else
      var en := s[|s| - 1].1;
      Marks(view, rows, s[..|s| - 1], total, c) + (if Picks(rows, en) then Hits(view, en.start, Offsets(en.length), total, c) else 0)
  }

  /** The entry's `o`-th slot raises. */
  predicate RaisesAt(view: View, en: Entry, o: int, total: int) {
    0 <= o < en.length && Raises(view, en.start + o, total)
  }

  /** Scanning the entry raises. */
  predicate Faulty(view: View, en: Entry, total: int) {
    exists o :: 0 <= o < en.length && RaisesAt(view, en, o, total)
  }

  /** `generate_matrix` gets past the entry: it skips it, or writes all its
      slots. */
  predicate Scanned(en: Entry, kind: EntityKind, total: int) {
    EntityOf(en, kind) == "" || !Faulty(Matrix, en, total)
  }

  // ---------------------------------------------------------------------
  // The loops
  // ---------------------------------------------------------------------

  /** `generate_matrix(schedule, entity_type, days, slots_per_day)`: the
      rows, and the matrix whose cell (row, slot) counts the covered slots
      of that row's sessions landing in that column, or the error numpy
      raises. */
  method GenerateMatrix(s: Schedule, kind: EntityKind, nDays: nat, spd: int)
    returns (r: Result<array2<int>, ArrayError>, entities: seq<string>)
    ensures entities == Entities(s, kind)
    ensures r.Err? <==> (nDays * spd < 0
                         || exists i :: 0 <= i < |s| && EntityOf(s[i].1, kind) != "" && Faulty(Matrix, s[i].1, nDays * spd))
    ensures r.Err? ==> r.error == if nDays * spd < 0 then NegativeDimension else IndexOutOfBounds
    ensures r.Ok? ==> fresh(r.value) && r.value.Length0 == |entities| && r.value.Length1 == nDays * spd
    ensures r.Ok? ==> forall a, c :: 0 <= a < |entities| && 0 <= c < nDays * spd
                                   ==> r.value[a, c] == Marks(Matrix, EntityRow(kind, entities[a]), s, nDays * spd, c)
  {
    entities := Entities(s, kind);
    EntitiesSpec(s, kind);
    var total := nDays * spd;
    if total < 0 {
      return Err(NegativeDimension), entities;
    }
    var matrix := new int[|entities|, total]((_, _) => 0);
    var i := 0;
    while i < |s|
      invariant 0 <= i <= |s|
      invariant forall j :: 0 <= j < i ==> Scanned(s[j].1, kind, total)
      invariant forall a, c :: 0 <= a < |entities| && 0 <= c < total
                             ==> matrix[a, c] == Marks(Matrix, EntityRow(kind, entities[a]), s[..i], total, c)
    {
      var en := s[i].1;
      var e := EntityOf(en, kind);
      MarksStep(Matrix, s, i, total);
      if e != "" {
        var row := RowOf(s, kind, entities, i);
        var ok := MarkRow(matrix, row, en, total);
        if !ok {
          return Err(IndexOutOfBounds), entities;
        }
      }
      assert Scanned(s[i].1, kind, total);
      i := i + 1;
    }
    assert s[..i] == s;
    return Ok(matrix), entities;
  }

  /** `entity_idx[e]` for the entity of entry `i`: the one row that picks
      the entry. */
  function RowOf(s: Schedule, kind: EntityKind, entities: seq<string>, i: nat): (row: nat)
    requires i < |s| && EntityOf(s[i].1, kind) != "" && entities == Entities(s, kind)
    ensures row < |entities|
    ensures forall a :: 0 <= a < |entities| ==> (Picks(EntityRow(kind, entities[a]), s[i].1) <==> a == row)
  {
    var e := EntityOf(s[i].1, kind);
    EntitiesSpec(s, kind);
    assert Listed(s, kind, e);
    var row := Position(entities, e);
    assert forall a :: 0 <= a < |entities| && entities[a] == e ==> a == row by {
      forall a | 0 <= a < |entities| && entities[a] == e ensures a == row {
        SortedRowsDistinct(entities, a, row);
      }
    }
    row
  }

  /** The `for offset in range(length)` loop of `generate_matrix` for one
      entry with a truthy entity: it adds the entry's hits to its row, or
      reports that numpy raises. */
  method MarkRow(matrix: array2<int>, row: nat, en: Entry, total: int) returns (ok: bool)
    requires row < matrix.Length0 && matrix.Length1 == total
    modifies matrix
    ensures ok <==> !Faulty(Matrix, en, total)
    ensures ok ==> forall a, c :: 0 <= a < matrix.Length0 && 0 <= c < total
                               ==> matrix[a, c] == old(matrix[a, c])
                                                   + (if a == row then Hits(Matrix, en.start, Offsets(en.length), total, c) else 0)
  {
    var offset := 0;
    assert forall c :: Hits(Matrix, en.start, 0, total, c) == 0;
    while offset < en.length
      invariant 0 <= offset <= Offsets(en.length)
      invariant forall o :: 0 <= o < offset ==> !RaisesAt(Matrix, en, o, total)
      invariant forall a, c :: 0 <= a < matrix.Length0 && 0 <= c < total
                             ==> matrix[a, c] == old(matrix[a, c])
                                                 + (if a == row then Hits(Matrix, en.start, offset, total, c) else 0)
    {
      var slot := en.start + offset;
      if slot >= total {
        slot := total - 1;
      }
      if slot < -total {
        assert RaisesAt(Matrix, en, offset, total);
        return false;
      }
      var col := if slot < 0 then slot + total else slot;
      assert col == Cell(Matrix, en.start + offset, total);
      matrix[row, col] := matrix[row, col] + 1;
      offset := offset + 1;
    }
    return true;
  }

  /** The slot-utilisation loop of `generate_schedule_summary`: cell `c`
      counts the covered slots of every session landing in it; slots past
      the grid are skipped. */
  method SlotUtilization(s: Schedule, nDays: nat, spd: int) returns (r: Result<array<int>, ArrayError>)
    ensures r.Err? <==> nDays * spd < 0 || exists i :: 0 <= i < |s| && Faulty(Utilization, s[i].1, nDays * spd)
    ensures r.Err? ==> r.error == if nDays * spd < 0 then NegativeDimension else IndexOutOfBounds
    ensures r.Ok? ==> fresh(r.value) && r.value.Length == nDays * spd
    ensures r.Ok? ==> forall c :: 0 <= c < nDays * spd ==> r.value[c] == Marks(Utilization, AllSessions, s, nDays * spd, c)
  {
    var total := nDays * spd;
    if total < 0 {
      return Err(NegativeDimension);
    }
    var util := new int[total](_ => 0);
    var i := 0;
    while i < |s|
      invariant 0 <= i <= |s|
      invariant forall j :: 0 <= j < i ==> !Faulty(Utilization, s[j].1, total)
      invariant forall c :: 0 <= c < total ==> util[c] == Marks(Utilization, AllSessions, s[..i], total, c)
    {
      var en := s[i].1;
      MarksStep(Utilization, s, i, total);
      var ok := MarkSlots(util, en, total);
      if !ok {
        return Err(IndexOutOfBounds);
      }
      i := i + 1;
    }
    assert s[..i] == s;
    return Ok(util);
  }

  /** The `for offset in range(length)` loop of the utilisation count for
      one entry: it adds the entry's hits, or reports that numpy raises. */
  method MarkSlots(util: array<int>, en: Entry, total: int) returns (ok: bool)
    requires util.Length == total
    modifies util
    ensures ok <==> !Faulty(Utilization, en, total)
    ensures ok ==> forall c :: 0 <= c < total ==> util[c] == old(util[c]) + Hits(Utilization, en.start, Offsets(en.length), total, c)
  {
    var offset := 0;
    assert forall c :: Hits(Utilization, en.start, 0, total, c) == 0;
    while offset < en.length
      invariant 0 <= offset <= Offsets(en.length)
      invariant forall o :: 0 <= o < offset ==> !RaisesAt(Utilization, en, o, total)
      invariant forall c :: 0 <= c < total ==> util[c] == old(util[c]) + Hits(Utilization, en.start, offset, total, c)
    {
      var slot := en.start + offset;
      if slot < total {
        if slot < -total {
          assert RaisesAt(Utilization, en, offset, total);
          return false;
        }
        var col := if slot < 0 then slot + total else slot;
        assert col == Cell(Utilization, en.start + offset, total);
        util[col] := util[col] + 1;
      }
      offset := offset + 1;
    }
    return true;
  }

  /** Scanning one more entry adds its hits to the rows that pick it. */
  lemma MarksStep(view: View, s: Schedule, i: nat, total: int)
    requires i < |s|
    ensures forall rows, c :: Marks(view, rows, s[..i + 1], total, c)
                            == Marks(view, rows, s[..i], total, c)
                               + (if Picks(rows, s[i].1) then Hits(view, s[i].1.start, Offsets(s[i].1.length), total, c) else 0)
  {
    assert s[..i + 1][..i] == s[..i];
  }

  // ---------------------------------------------------------------------
  // Row and column totals
  // ---------------------------------------------------------------------

  /** The total of a row over its first `cols` cells. */
  function RowSum(view: View, rows: Rows, s: Schedule, total: int, cols: nat): int {
    if cols == 0 then 0 else RowSum(view, rows, s, total, cols - 1) + Marks(view, rows, s, total, cols - 1)
  }

  /** How many of the first `n` slots from `start` land in the first
      `cols` cells. */
  function Landed(view: View, start: int, n: nat, total: int, cols: nat): nat {
    if n == 0 then 0
    else Landed(view, start, n - 1, total, cols) + (if 0 <= Cell(view, start + (n - 1), total) < cols then 1 else 0)
  }

  /** The same, summed over the sessions a row picks. */
  function LandedAll(view: View, rows: Rows, s: Schedule, total: int, cols: nat): int {
    if s == [] then 0
    else
      var en := s[|s| - 1].1;
      LandedAll(view, rows, s[..|s| - 1], total, cols) + (if Picks(rows, en) then Landed(view, en.start, Offsets(en.length), total, cols) else 0)
  }

  lemma {:induction false} LandedStep(view: View, start: int, n: nat, total: int, cols: nat)
    ensures Landed(view, start, n, total, cols + 1) == Landed(view, start, n, total, cols) + Hits(view, start, n, total, cols)
    decreases n
  {
    if n > 0 {
      LandedStep(view, start, n - 1, total, cols);
    }
  }

  lemma {:induction false} LandedAllStep(view: View, rows: Rows, s: Schedule, total: int, cols: nat)
    ensures LandedAll(view, rows, s, total, cols + 1) == LandedAll(view, rows, s, total, cols) + Marks(view, rows, s, total, cols)
    decreases |s|
  {
    if s != [] {
      var en := s[|s| - 1].1;
      LandedAllStep(view, rows, s[..|s| - 1], total, cols);
      LandedStep(view, en.start, Offsets(en.length), total, cols);
    }
  }

  /** Adding up a row cell by cell counts every covered slot of its
      sessions that lands in those cells. */
  lemma {:induction false} RowSumLanded(view: View, rows: Rows, s: Schedule, total: int, cols: nat)
    ensures RowSum(view, rows, s, total, cols) == LandedAll(view, rows, s, total, cols)
    decreases cols
  {
    if cols > 0 {
      RowSumLanded(view, rows, s, total, cols - 1);
      LandedAllStep(view, rows, s, total, cols - 1);
    } else {
      LandedNone(view, rows, s, total);
    }
  }

  lemma {:induction false} LandedNone(view: View, rows: Rows, s: Schedule, total: int)
    ensures LandedAll(view, rows, s, total, 0) == 0
    decreases |s|
  {
    if s != [] {
      var en := s[|s| - 1].1;
      LandedNone(view, rows, s[..|s| - 1], total);
      LandedZero(view, en.start, Offsets(en.length), total);
    }
  }

  lemma {:induction false} LandedZero(view: View, start: int, n: nat, total: int)
    ensures Landed(view, start, n, total, 0) == 0
    decreases n
  {
    if n > 0 {
      LandedZero(view, start, n - 1, total);
    }
  }

  /** The summed lengths of the sessions a row picks. */
  function LengthSum(rows: Rows, s: Schedule): int {
    if s == [] then 0
    else
      var en := s[|s| - 1].1;
      LengthSum(rows, s[..|s| - 1]) + (if Picks(rows, en) then Offsets(en.length) else 0)
  }

  /** Every slot of an entry that does not raise lands somewhere in the
      matrix row. */
  lemma {:induction false} MatrixLandsAll(en: Entry, n: nat, total: int)
    requires total >= 0 && n <= Offsets(en.length) && !Faulty(Matrix, en, total)
    ensures Landed(Matrix, en.start, n, total, total) == n
    decreases n
  {
    if n > 0 {
      MatrixLandsAll(en, n - 1, total);
      assert !RaisesAt(Matrix, en, n - 1, total);
      CellSpec(Matrix, en.start + (n - 1), total);
    }
  }

  lemma {:induction false} MatrixLandedAll(kind: EntityKind, e: string, s: Schedule, total: int)
    requires total >= 0
    requires forall i :: 0 <= i < |s| ==> EntityOf(s[i].1, kind) == "" || !Faulty(Matrix, s[i].1, total)
    ensures LandedAll(Matrix, EntityRow(kind, e), s, total, total) == LengthSum(EntityRow(kind, e), s)
    decreases |s|
  {
    if s != [] {
      var p := s[..|s| - 1];
      var en := s[|s| - 1].1;
      assert forall i :: 0 <= i < |p| ==> p[i] == s[i];
      MatrixLandedAll(kind, e, p, total);
      if Picks(EntityRow(kind, e), en) {
        MatrixLandsAll(en, Offsets(en.length), total);
      }
    }
  }

  /** Each row of a matrix built without error adds up to the summed
      lengths of that entity's sessions: clamping moves a slot past the
      grid to the last column but never loses it. */
  lemma MatrixRowSum(s: Schedule, kind: EntityKind, e: string, total: int)
    requires total >= 0
    requires forall i :: 0 <= i < |s| ==> EntityOf(s[i].1, kind) == "" || !Faulty(Matrix, s[i].1, total)
    ensures RowSum(Matrix, EntityRow(kind, e), s, total, total) == LengthSum(EntityRow(kind, e), s)
  {
    RowSumLanded(Matrix, EntityRow(kind, e), s, total, total);
    MatrixLandedAll(kind, e, s, total);
  }

  /** The covered slots of an entry that lie before the end of the grid. */
  function SlotsInGrid(en: Entry, total: int): int {
    Max(0, Min(Offsets(en.length), total - en.start))
  }

  lemma {:induction false} UtilizationLands(en: Entry, n: nat, total: int)
    requires total >= 0 && n <= Offsets(en.length) && !Faulty(Utilization, en, total)
    ensures Landed(Utilization, en.start, n, total, total) == Max(0, Min(n, total - en.start))
    decreases n
  {
    if n > 0 {
      UtilizationLands(en, n - 1, total);
      assert !RaisesAt(Utilization, en, n - 1, total);
      if en.start + (n - 1) < total {
        CellSpec(Utilization, en.start + (n - 1), total);
      }
    }
  }

  function InGridSum(s: Schedule, total: int): int {
    if s == [] then 0 else InGridSum(s[..|s| - 1], total) + SlotsInGrid(s[|s| - 1].1, total)
  }

  lemma {:induction false} UtilizationLandedAll(s: Schedule, total: int)
    requires total >= 0
    requires forall i :: 0 <= i < |s| ==> !Faulty(Utilization, s[i].1, total)
    ensures LandedAll(Utilization, AllSessions, s, total, total) == InGridSum(s, total)
    decreases |s|
  {
    if s != [] {
      var p := s[..|s| - 1];
      var en := s[|s| - 1].1;
      assert forall i :: 0 <= i < |p| ==> p[i] == s[i];
      UtilizationLandedAll(p, total);
      UtilizationLands(en, Offsets(en.length), total);
    }
  }

  /** The utilisation counts of a summary built without error add up to the
      covered slots that lie before the end of the grid: every such slot is
      counted once, and every later slot is dropped. */
  lemma UtilizationSum(s: Schedule, total: int)
    requires total >= 0
    requires forall i :: 0 <= i < |s| ==> !Faulty(Utilization, s[i].1, total)
    ensures RowSum(Utilization, AllSessions, s, total, total) == InGridSum(s, total)
  {
    RowSumLanded(Utilization, AllSessions, s, total, total);
    UtilizationLandedAll(s, total);
  }
}
