# ScheduleAi timetabling core in Dafny

ScheduleAi builds weekly college timetables. The week is a grid of `len(days) * slots_per_day` absolute slots, where slot `day * slots_per_day + period` is a given period of a given day. This project models the integer bookkeeping the scheduler does on that grid:

- **Course expansion** (`expand_courses`). Each course becomes, for each of its groups, either `weekly_slots` one-slot sessions or `weekly_slots / consecutive` lab blocks. A block length that does not divide the weekly slots is rejected.
- **Greedy room assignment** (`greedy_room_assignment`). Sessions whose start slots are fixed are processed longest first, then largest group first. Each takes the first room in its preference order that is large enough and free over all of its slots. The result is all or nothing.
- **Clash detection** (`detect_clashes`). Occupancy maps are keyed by (faculty, slot), (group, slot) and (room, slot). Every key held more than once is reported. So is every undersized room, and every slot where one kind of session (lab, lecture, elective) outnumbers the rooms of that kind.
- **The genetic algorithm's encoding** (`encode`, `decode`, `possible_starts`, `init_ind`, `decode_ind`):
  - a gene is `start * 100 + room`;
  - the first generation draws starts that keep a block inside one day, and rooms whose lab-ness matches the session.
- **The integer part of the fitness** (`ga_fitness`):
  - genes are clamped into the grid and the room list;
  - hard penalties for double bookings, crowded group days and undersized rooms;
  - soft counts of idle gaps, over-long runs and overloaded faculty days.
- **The analysis arrays**:
  - the entity-by-slot occupancy matrix behind the heatmaps (`generate_matrix`);
  - the per-slot utilisation count of the schedule summary.

Loops of the source are methods with loop invariants, proved against specification functions. Lemmas then prove what those functions mean.

Python dicts, including defaultdicts, are insertion-ordered association lists (module `Dicts`). Report lists therefore come out in the order of the keys' first insertion, as in CPython. The Python exceptions the code can raise are `Err` values of a `Result`:

- ValueError and ZeroDivisionError in course expansion;
- IndexError from `random.choice`, from genome decoding and from the fitness room lookup;
- KeyError for a session without a start time;
- numpy's IndexError and negative-dimension ValueError.

Where the design description and the code disagree, the model follows the code:

- The clash detector reports only the faculty, group and room double bookings and the `room_capacity` list. It reports no daily-cap, weekly-cap or broken-block records.
- A course's group list is kept as a list, duplicates included, not normalised to a set. A group listed twice receives its sessions twice.
- Capacity is checked per session against that session's one group. There is no summed capacity across groups.
- `decode` is `divmod(g, 100)`. With a hundred rooms or more it is not the inverse of `encode` (`GaSetup.DecodeEncodeRoomHundred`).

## Model

| member | source | states |
|---|---|---|
| Grid.AbsoluteSlotSplits | hybrid_timetable/utils/helpers.py:3-4 | for a period inside the day, dividing the absolute slot by the day length gives back the day, and the remainder gives back the period |
| Grid.BlockIndicesAt | hybrid_timetable/utils/helpers.py:6-11 | the block list has one index per (day, position) pair, day-major; index `d * len(positions) + j` is the absolute slot of `positions[j]` on day `d` |
| Grid.BuildWeeklyBlockIndices | hybrid_timetable/utils/helpers.py:6-11 | the two nested loops produce exactly that day-major block list |
| Courses.ExpandGroup | hybrid_timetable/utils/helpers.py:21-43 | one group's loop fails exactly when the course fails (block length not 1, and zero or not dividing the weekly slots), with that course's error; otherwise it yields that group's sessions |
| Courses.ExpandCourse | hybrid_timetable/utils/helpers.py:16-43 | the loop over a course's groups fails with the course's error exactly when the course fails; otherwise it appends all of the course's sessions |
| Courses.ExpandCourses | hybrid_timetable/utils/helpers.py:13-44 | `expand_courses` returns the sessions of every course in course order, or the error of the first course that raises |
| Courses.ExpansionFailsIff | hybrid_timetable/utils/helpers.py:20-33 | the expansion raises exactly when some course with at least one group has a block length other than 1 that is zero or does not divide its weekly slots |
| Courses.ExpansionErrorIsFirst | hybrid_timetable/utils/helpers.py:15-33 | the error raised names the first failing course |
| Courses.ExpansionConcat | hybrid_timetable/utils/helpers.py:14-44 | when nothing fails, each course's sessions follow those of the courses before it |
| Courses.GroupSessionsShape | hybrid_timetable/utils/helpers.py:16-43 | each group receives `weekly_slots` sessions of length 1 with ids `{id}_{g}_s{i}`, or `weekly_slots / k` blocks of length `k` with ids `{id}_{g}_lab{i}`; every session copies the course id, name and faculty and carries exactly its one group |
| Courses.GroupSessionIdsDistinct | hybrid_timetable/utils/helpers.py:22-43 | the sessions of one group have pairwise different ids |
| Courses.GroupSessionsCoverWeeklySlots | hybrid_timetable/utils/helpers.py:34-43 | for a non-negative slot count and a positive block length, a group's sessions last `weekly_slots` slots in total |
| Courses.GroupsSessionsLayout | hybrid_timetable/utils/helpers.py:20-43 | the sessions of a course come group after group, each group's sessions in a contiguous stretch in index order |
| RoomAssignment.ProcessingOrderSpec | hybrid_timetable/room_assignment.py:9 | every session is processed exactly once, sorted by decreasing length, then decreasing group size (unknown groups count 0), then input position, as a stable sort does |
| RoomAssignment.ProcessingOrderDecreasing | hybrid_timetable/room_assignment.py:9 | of two sessions in processing order, the earlier is at least as long, and at least as large in group size when equally long |
| RoomAssignment.RoomOrderSpec | hybrid_timetable/room_assignment.py:18-22 | every room is tried exactly once; rooms whose lab-ness matches the session's lab/project preference come first, and each kind keeps index order |
| RoomAssignment.SlotsMembers | hybrid_timetable/room_assignment.py:28-34 | a session occupies exactly the slots `start .. start + length - 1` |
| RoomAssignment.FreeFor | hybrid_timetable/room_assignment.py:27-31 | the conflict loop finds no conflict exactly when none of the session's slots is already held by the room |
| RoomAssignment.Reserve | hybrid_timetable/room_assignment.py:33-34 | reserving adds exactly the session's slots to the room's held set |
| RoomAssignment.FirstFitting | hybrid_timetable/room_assignment.py:23-37 | the room loop stops at the first room in preference order that is large enough and free; every room tried before it is too small or in conflict, and when none is found every room is |
| RoomAssignment.NoRoomFits | hybrid_timetable/room_assignment.py:23-39 | when the room loop finds nothing, no room at all can take the session |
| RoomAssignment.GreedyRoomAssignment | hybrid_timetable/room_assignment.py:3-40 | each placed session went to the first room in its preference order that is large enough for its group and holds none of its slots; the result maps each id to its room's name when every session is placed, is `None` when some session fits no room, and is a KeyError for a session without a start time |
| RoomAssignment.PlacedFitsCapacity | hybrid_timetable/room_assignment.py:25-26 | every placed session's room exists and has capacity at least the group's size (0 when unknown) |
| RoomAssignment.OccupiedHolds | hybrid_timetable/room_assignment.py:33-34 | a room's held set includes the slots of every session placed in it |
| RoomAssignment.NoSharedSlots | hybrid_timetable/room_assignment.py:27-34 | no two sessions placed in the same room share a slot |
| Clashes.LabRoomCount | hybrid_timetable/utils/clashes.py:11 | at most all the rooms are labs |
| Clashes.CountLabRooms | hybrid_timetable/utils/clashes.py:11 | the count of rooms whose name mentions "lab" |
| Clashes.RoomMap | hybrid_timetable/utils/clashes.py:10 | the room map gives each name the capacity of the last room with that name, and 0 for an unknown name |
| Clashes.RoomCapacityLast | hybrid_timetable/utils/clashes.py:10 | a room name's capacity is the one of the last room carrying the name |
| Clashes.RoomCapacityUnknown | hybrid_timetable/utils/clashes.py:36 | an unknown room has capacity 0 |
| Clashes.DetectClashes | hybrid_timetable/utils/clashes.py:4-52 | `detect_clashes` returns the four lists of the reference report `Detection`; the schedule is only read |
| Clashes.ScanSchedule | hybrid_timetable/utils/clashes.py:15-38 | the loop over the schedule builds the faculty, group and room occupancy tables, the kind counts and the capacity records, all in schedule order |
| Clashes.OccupyEntry | hybrid_timetable/utils/clashes.py:21-31 | the offset loop of one entry records each of its slots under its faculty, each of its groups, its room when it has one, and its kind |
| Clashes.OccupyGroups | hybrid_timetable/utils/clashes.py:24-28 | a slot is recorded for each entry of a non-empty "groups" list, otherwise for the "group" |
| Clashes.CheckCapacity | hybrid_timetable/utils/clashes.py:33-38 | one entry's capacity check yields its reference capacity records |
| Clashes.ReportClashes | hybrid_timetable/utils/clashes.py:40-45 | the report lists, in key order, every (who, slot) key holding more than one session |
| Clashes.ReportShortages | hybrid_timetable/utils/clashes.py:47-50 | the shortage loop yields the reference shortage records |
| Clashes.ReportedSpec | hybrid_timetable/utils/clashes.py:40-45 | a clash is reported for a key exactly when more than one record was made under it, and it lists all of them in order |
| Clashes.ReportedOncePerKey | hybrid_timetable/utils/clashes.py:40-45 | no key is reported twice |
| Clashes.FacultyClashReported | hybrid_timetable/utils/clashes.py:21-23 | a faculty clash is reported for (faculty, slot) exactly when more than one session of that faculty member covers the slot; it lists every such session in schedule order |
| Clashes.GroupClashReported | hybrid_timetable/utils/clashes.py:24-28 | likewise for groups, a session counting once under each listing of each group it names |
| Clashes.RoomClashReported | hybrid_timetable/utils/clashes.py:29-30 | likewise for rooms, sessions without a room taking no part |
| Clashes.ClashesOncePerKey | hybrid_timetable/utils/clashes.py:40-45 | each (who, slot) pair appears at most once in each clash list |
| Clashes.OverCapacityMembers | hybrid_timetable/utils/clashes.py:33-38 | a capacity record `(sid, g, room, size, cap)` is made exactly for an entry with a room, when group sizes are given, whose group's size (0 when unknown) exceeds the room's capacity (0 when unknown) |
| Clashes.OverCapacityReported | hybrid_timetable/utils/clashes.py:33-38 | the same holds of the returned "room_capacity" list |
| Clashes.KindCountHolders | hybrid_timetable/utils/clashes.py:19-31 | the type count of (kind, slot) is the number of sessions of that kind covering the slot |
| Clashes.ShortageIffTally | hybrid_timetable/utils/clashes.py:47-50 | a shortage is listed from a kind tally exactly when a (kind, slot) count exceeds the rooms available to the kind |
| Clashes.ShortageInSchedule | hybrid_timetable/utils/clashes.py:11-13 | a shortage is listed for (kind, slot) exactly when more sessions of that kind cover it than there are rooms for the kind: lab rooms for labs, the other rooms for lectures, all rooms for electives |
| Clashes.OverCapacityOnlyRooms | hybrid_timetable/utils/clashes.py:38 | the per-session check only produces five-field room records |
| Clashes.ShortagesOnlyTypes | hybrid_timetable/utils/clashes.py:48-50 | the shortage loop only produces four-field type records |
| GaSetup.Decode | hybrid_timetable/ga_module/ga_setup.py:16-17 | the room part of a decoded gene lies in 0..99, and encoding the two parts gives the gene back |
| GaSetup.DecodeEncode | hybrid_timetable/ga_module/ga_setup.py:16-17 | decoding an encoded (start, room) with room below 100 gives back (start, room) |
| GaSetup.DecodeEncodeRoomHundred | hybrid_timetable/ga_module/ga_setup.py:16-17 | room index 100 decodes as room 0 one slot later, so the encoding is ambiguous from 100 rooms on |
| GaSetup.StartsMembers | hybrid_timetable/ga_module/ga_setup.py:19-22 | the offered starts are exactly period p of day d for every day and every period in `range(slots_per_day - length + 1)` |
| GaSetup.PossibleStartsFit | hybrid_timetable/ga_module/ga_setup.py:19-22 | for a block of at least one period and a day of at least one slot, a start is offered exactly when it lies in the week and its block ends on the day it starts |
| GaSetup.PossibleStartsCount | hybrid_timetable/ga_module/ga_setup.py:19-22 | there are `len(days) * (slots_per_day - length + 1)` starts, and none when the block is longer than a day |
| GaSetup.PossibleStartsIncreasing | hybrid_timetable/ga_module/ga_setup.py:19-22 | for a block of at least one period, the starts are strictly increasing |
| GaSetup.PossibleStartsEmptyBlock | hybrid_timetable/ga_module/ga_setup.py:19-22 | a block of length 0 on two days of two slots is offered the starts 0, 1, 2, 2, 3, 4: a repeated start and one past the week |
| GaSetup.ShortBlockStarts | hybrid_timetable/ga_module/ga_setup.py:19-22 | for a block of length 0 or less on two days or more, the starts are not increasing and the first slot after the week is offered |
| GaSetup.MatchingMembers | hybrid_timetable/ga_module/ga_setup.py:32-33 | the matching rooms are those whose name's "lab" test agrees with the session's |
| GaSetup.RoomChoicesSpec | hybrid_timetable/ga_module/ga_setup.py:32-35 | a room is offered when its lab-ness matches the session's, or when no room matches; only an empty room list offers nothing |
| GaSetup.DrawGene | hybrid_timetable/ga_module/ga_setup.py:30-37 | one draw succeeds exactly when a start and a room are offered, and then packs an offered start with an offered room |
| GaSetup.InitInd | hybrid_timetable/ga_module/ga_setup.py:27-38 | `init_ind` yields one gene per session in session order, each packing an offered start and room; it fails exactly when some session is offered nothing, and names such a session |
| GaSetup.DrawnDecodes | hybrid_timetable/ga_module/ga_setup.py:16-37 | with at most a hundred rooms a drawn gene decodes to an offered start and an existing, offered room |
| GaSetup.DecodeInd | hybrid_timetable/ga_module/ga_setup.py:54-65 | `decode_ind` returns the reference decoding `Decoded` of the genome |
| GaSetup.DecodedOk | hybrid_timetable/ga_module/ga_setup.py:56-61 | decoding succeeds exactly when every gene has a session and its room index names a room |
| GaSetup.DecodedErrPersists | hybrid_timetable/ga_module/ga_setup.py:56-61 | once a prefix of the genome fails, the whole genome fails the same way |
| GaSetup.DecodedEntries | hybrid_timetable/ga_module/ga_setup.py:54-65 | with distinct session ids, there is one entry per gene, in gene order, keyed by the session id and holding the decoded start, the room's name, the length and the session |
| Fitness.Clamp | hybrid_timetable/ga_module/fitness.py:23-24 | the clamp lies in a non-empty range, is the identity inside it and the nearest end outside it; for an empty range it is the lower bound |
| Fitness.GaFitness | hybrid_timetable/ga_module/fitness.py:5-105 | `ga_fitness` returns the first exception its loops raise, or the six integer penalty terms of the reference `FitnessOf` |
| Fitness.BuildAssign | hybrid_timetable/ga_module/fitness.py:18-25 | the decoding loop fails exactly when a gene has no session; otherwise it builds the clamped `assign` dict, whose room indices lie in the room list |
| Fitness.ScoreAssign | hybrid_timetable/ga_module/fitness.py:27-105 | the scans of a built `assign` return the first exception raised or the reference penalty terms |
| Fitness.OverlapScan | hybrid_timetable/ga_module/fitness.py:31-42 | the occupancy loop raises only when there are no rooms and some placement covers a slot; otherwise it returns the double-booking term |
| Fitness.OccupyAll | hybrid_timetable/ga_module/fitness.py:31-37 | every slot of every placement is recorded for its faculty, its group and its room |
| Fitness.SurplusPenalty | hybrid_timetable/ga_module/fitness.py:39-42 | the surplus loop adds `200 * (len(v) - 1)` for every key held more than once |
| Fitness.GroupDailySlots | hybrid_timetable/ga_module/fitness.py:45-50 | `group_daily_slots` lists, under each (group, day), the period of every covered slot, and raises on zero slots per day |
| Fitness.DailyPenalty | hybrid_timetable/ga_module/fitness.py:52-55 | the daily loop adds `300` per distinct period above the daily cap |
| Fitness.CapacityPenalty | hybrid_timetable/ga_module/fitness.py:58-64 | when group sizes are given, every placement whose group is larger than its room adds `500 + 10 * (size - capacity)` |
| Fitness.GapPenalty | hybrid_timetable/ga_module/fitness.py:77-82 | the gap loop sums the gaps of every group-day's sorted distinct periods |
| Fitness.CountGaps | hybrid_timetable/ga_module/fitness.py:80-82 | one is counted for each pair of neighbours more than one period apart |
| Fitness.RunsPenalty | hybrid_timetable/ga_module/fitness.py:85-95 | the run loop sums the run penalty of every group-day |
| Fitness.ConsecutivePenalty | hybrid_timetable/ga_module/fitness.py:88-95 | each step that extends a run beyond `max_consec_slots` adds ten per period over; a break starts a new run |
| Fitness.FacultyDailyLoads | hybrid_timetable/ga_module/fitness.py:98-101 | `faculty_daily` sums the lengths of each faculty member's sessions per day |
| Fitness.OverloadPenalty | hybrid_timetable/ga_module/fitness.py:102-105 | every faculty-day above the maximum adds ten per period over |
| FitnessLaws.DrawnPlacement | hybrid_timetable/ga_module/fitness.py:20-25 | a gene of the first generation is never clamped, and its block ends inside its day |
| FitnessLaws.AssignmentEntries | hybrid_timetable/ga_module/fitness.py:18-25 | with distinct ids, `assign` holds one placement per gene, in gene order, keyed by its session's id |
| FitnessLaws.AssignmentKeys | hybrid_timetable/ga_module/fitness.py:25 | `assign` has each key once, and its keys are the ids of the sessions with a gene |
| FitnessLaws.FacultyHolders | hybrid_timetable/ga_module/fitness.py:32-34 | `faculty_occ[(f, t)]` lists the sessions of `f` covering `t`, in `assign` order |
| FitnessLaws.GroupHolders | hybrid_timetable/ga_module/fitness.py:32-35 | `group_occ[(g, t)]` lists the sessions of group `g` covering `t` |
| FitnessLaws.RoomHolders | hybrid_timetable/ga_module/fitness.py:32-37 | `room_occ[(r, t)]` lists the sessions placed in a room named `r` covering `t` |
| FitnessLaws.SurplusCount | hybrid_timetable/ga_module/fitness.py:39-42 | one occupancy map charges 200 per record beyond the first under its key; the term is non-negative and zero exactly when no key is recorded twice |
| FitnessLaws.OverlapZero | hybrid_timetable/ga_module/fitness.py:31-42 | the double-booking term is non-negative, and zero exactly when no faculty member, group or room is booked twice in a slot |
| FitnessLaws.DailyZero | hybrid_timetable/ga_module/fitness.py:45-55 | the daily-cap term is non-negative, and zero exactly when no group has more distinct periods on a day than the cap |
| FitnessLaws.CapacityZero | hybrid_timetable/ga_module/fitness.py:58-64 | the capacity term is non-negative, and zero exactly when no group sizes are given or every placed group fits its room |
| FitnessLaws.GapsZeroDay | hybrid_timetable/ga_module/fitness.py:79-82 | a group-day has no gap exactly when its periods leave no hole |
| FitnessLaws.GapsTermZero | hybrid_timetable/ga_module/fitness.py:77-82 | the gap term is non-negative, and zero exactly when no group-day has a hole |
| FitnessLaws.RunLenSpec | hybrid_timetable/ga_module/fitness.py:88-95 | `consec` is the length of the trailing run of consecutive periods |
| FitnessLaws.RunPenZero | hybrid_timetable/ga_module/fitness.py:88-95 | one group-day's run term is non-negative, and zero exactly when no run grows past the limit |
| FitnessLaws.RunsTermZero | hybrid_timetable/ga_module/fitness.py:85-95 | the run term is non-negative, and zero exactly when no group-day has a run longer than the limit |
| FitnessLaws.OverloadZero | hybrid_timetable/ga_module/fitness.py:98-105 | the overload term is non-negative, and zero exactly when no faculty member exceeds the daily maximum |
| FitnessLaws.ScoresMeaning | hybrid_timetable/ga_module/fitness.py:28-105 | every integer term is non-negative, and the hard penalty is zero exactly when its three terms are |
| Analysis.EntitiesSpec | analysis_visualization.py:68-71 | the rows are strictly sorted and are exactly the entity values; for rooms, sessions without a room add no row |
| Analysis.Position | analysis_visualization.py:73 | `entity_idx[e]` is the row holding `e` |
| Analysis.RowOf | analysis_visualization.py:82-89 | an entry with a truthy entity belongs to exactly one row |
| Analysis.CellSpec | analysis_visualization.py:90-94 | a written cell lies on the axis; an in-grid slot is its own cell, a negative one counts from the end, and the matrix clamps a slot past the grid to the last column |
| Analysis.GenerateMatrix | analysis_visualization.py:55-96 | the rows are the sorted entities; the matrix has one row per entity and one column per slot, and cell (row, slot) counts the covered slots of that row's sessions landing there; numpy's errors are returned exactly when they occur |
| Analysis.MarkRow | analysis_visualization.py:90-94 | one entry's offset loop adds its hits to its row and leaves every other cell alone, or reports numpy's IndexError |
| Analysis.MatrixRowSum | analysis_visualization.py:90-94 | each row of a matrix built without error adds up to the summed lengths of that entity's sessions |
| Analysis.SlotUtilization | analysis_visualization.py:232-239 | cell `c` counts the covered slots of every session landing in `c`; slots past the grid are skipped |
| Analysis.MarkSlots | analysis_visualization.py:236-239 | one entry's offset loop adds its hits, or reports numpy's IndexError |
| Analysis.UtilizationSum | analysis_visualization.py:232-239 | the utilisation counts add up to the covered slots before the end of the grid: each is counted once, and every later slot is dropped |

## Left out

- The search itself is not modelled: the OR-Tools solver and DEAP's population, crossover, mutation and selection. These are foreign libraries, and concurrent or random.
- Randomness in `init_ind` is modelled as nondeterministic choice from the offered lists. `start_opts` is recomputed per session rather than cached per length, which gives the same lists.
- The floating-point terms of `ga_fitness` are not modelled: the workload and daily-load variances, the `day_balance_fraction` ceiling term and the clustering gaps beside it, the elective balancing, the faculty preferences and the project-block alignment. `Fitness.GaFitness` returns the six integer terms separately rather than `hard + 0.05 * soft`.
- Fitness.GaFitness: models the call without `elective_groups`, `faculty_prefs` and project blocks, so those optional terms are absent. It also leaves out the day-balance and clustering terms, which always run.
- Fitness.GaFitness: `group_daily_slots` and `faculty_daily` are nested dicts in the source; here each is one dict keyed by (group or faculty, day). Only sums over them are taken, so iteration order does not matter.
- `str.lower()` is ASCII-only here, and `'x' in s` is a plain substring test.
- `isinstance(room, int)` in `decode_ind` and `ga_fitness` is always true for genes made by `encode`, so only the integer branch is modelled.
- Integers are unbounded. numpy's 64-bit overflow is not modelled. `slot_utilization` holds floats in the source and integer counts here; the counts are the same.
- An `entity_type` other than "group", "faculty" or "room" (a KeyError in the source) is not representable: the kind is a three-valued datatype.
- The rest of `generate_schedule_summary` (means, maxima, counts of distinct entities), `analyze_schedule`, `highlight_clashes`, the plotting and the spreadsheet export are not modelled. They are printing, floating point or workbook I/O.
- Clashes.DetectClashes: `slots_per_day` is accepted and ignored, as in the source.
- GaSetup.PossibleStartsFit and GaSetup.PossibleStartsIncreasing are stated for a block of at least one period (and, for the fit, a day of at least one slot). `expand_courses` can produce sessions of length 0 or less, and for them `possible_starts` repeats starts and offers starts after the week; GaSetup.ShortBlockStarts and GaSetup.PossibleStartsEmptyBlock state that behaviour.
- Clashes.ShortageInSchedule: the if-and-only-if between the shortages in the returned "room_capacity" list and the schedule is stated on the kind counts. `CapacityReport` is defined as the capacity records followed by the shortages of `KindCounts`, and `ShortageInSchedule` characterises those shortages; no single lemma states it over the whole report.
- Absent rooms, `None` rooms and empty room names are all the empty string, since every use tests truthiness. In `detect_clashes` and `ga_fitness` a missing or `None` `group_sizes` is the empty map, as both test it for truthiness before use. `greedy_room_assignment` requires the map (calling `.get` on `None` would raise AttributeError), and RoomAssignment.GreedyRoomAssignment takes a map; its only caller, `generate_timetable`, reaches it only with a non-empty map.
- Schedules given to the analysis and clash code are lists of (id, entry) pairs. The contracts hold for any such list, including one that repeats an id, which a dict cannot.
