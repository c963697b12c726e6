/** The weekly grid: `days` days of `slotsPerDay` periods, numbered
    day-major as absolute slots. */
module Grid {

  /** The absolute slot of period `pos` on day `dayIdx`. */
  function AbsoluteSlot(dayIdx: int, pos: int, slotsPerDay: int): int {
    dayIdx * slotsPerDay + pos
  }

  /** For a period inside the day, division by the day length gives back
      the day and the remainder gives back the period. */
  lemma AbsoluteSlotSplits(dayIdx: int, pos: int, slotsPerDay: int)
    requires 0 <= pos < slotsPerDay
    ensures AbsoluteSlot(dayIdx, pos, slotsPerDay) / slotsPerDay == dayIdx
    ensures AbsoluteSlot(dayIdx, pos, slotsPerDay) % slotsPerDay == pos
  {
    var x := AbsoluteSlot(dayIdx, pos, slotsPerDay);
    var q, r := x / slotsPerDay, x % slotsPerDay;
    assert x == slotsPerDay * q + r && 0 <= r < slotsPerDay;
    assert slotsPerDay * (q - dayIdx) == pos - r;
    if q - dayIdx >= 1 {
      assert false;
    } else if q - dayIdx <= -1 {
      assert false;
    }
  }

  /** The slots of one day at the given periods, in the given order. */
  function DayBlock(dayIdx: int, slotsPerDay: int, positions: seq<int>): seq<int> {
    seq(|positions|, j requires 0 <= j < |positions| => AbsoluteSlot(dayIdx, positions[j], slotsPerDay))
  }

  /** The slots of days 0 .. numDays-1 at the given periods, day after day. */
  function BlockIndices(numDays: nat, slotsPerDay: int, positions: seq<int>): seq<int> {
    if numDays == 0 then []
    else BlockIndices(numDays - 1, slotsPerDay, positions) + DayBlock(numDays - 1, slotsPerDay, positions)
  }

  /** There is one index per (day, period) pair, and the pair (d, j)
      sits at position d * |positions| + j, holding the absolute slot of
      period positions[j] on day d. */
  lemma {:induction false} BlockIndicesAt(numDays: nat, slotsPerDay: int, positions: seq<int>, d: nat, j: nat)
    requires d < numDays && j < |positions|
    ensures |BlockIndices(numDays, slotsPerDay, positions)| == numDays * |positions|
    ensures d * |positions| + j < numDays * |positions|
    ensures BlockIndices(numDays, slotsPerDay, positions)[d * |positions| + j]
         == AbsoluteSlot(d, positions[j], slotsPerDay)
    decreases numDays
  {
    var n := |positions|;
    var prev := BlockIndices(numDays - 1, slotsPerDay, positions);
    if d < numDays - 1 {
      BlockIndicesAt(numDays - 1, slotsPerDay, positions, d, j);
      assert (numDays - 1) * n + n == numDays * n;
    } else {
      if numDays - 1 > 0 {
        BlockIndicesAt(numDays - 1, slotsPerDay, positions, 0, j);
      }
      assert |prev| == (numDays - 1) * n;
      assert d * n + j == |prev| + j;
      assert (numDays - 1) * n + n == numDays * n;
    }
  }

  /** `build_weekly_block_indices`: for every day, in order, the absolute
      slots of the requested periods. */
  method BuildWeeklyBlockIndices(days: seq<string>, slotsPerDay: int, positions: seq<int>)
    returns (indices: seq<int>)
    ensures indices == BlockIndices(|days|, slotsPerDay, positions)
  {
    indices := [];
    var d := 0;
    while d < |days|
      invariant 0 <= d <= |days|
      invariant indices == BlockIndices(d, slotsPerDay, positions)
    {
      var j := 0;
      while j < |positions|
        invariant 0 <= j <= |positions|
        invariant indices == BlockIndices(d, slotsPerDay, positions) + DayBlock(d, slotsPerDay, positions)[..j]
      {
        assert DayBlock(d, slotsPerDay, positions)[..j + 1]
            == DayBlock(d, slotsPerDay, positions)[..j] + [AbsoluteSlot(d, positions[j], slotsPerDay)];
        indices := indices + [AbsoluteSlot(d, positions[j], slotsPerDay)];
        j := j + 1;
      }
      assert DayBlock(d, slotsPerDay, positions)[..j] == DayBlock(d, slotsPerDay, positions);
      d := d + 1;
    }
  }
}
