/** The scheduler's records. The source passes plain dicts around; each
    kind of dict it builds becomes a datatype here. */
module Timetable {
  import opened Common

  /** A course's "group" field: one group name, or a list of them. */
  datatype GroupField = OneGroup(name: string) | GroupList(names: seq<string>)

  datatype Course = Course(
    id: string,
    name: string,
    faculty: string,
    group: GroupField,
    weeklySlots: int,
    consecutive: int)

  /** An expanded session. `groups` stands for the optional "groups" key
      that the clash detector consults; sessions built by course expansion
      have none, which is the empty list. */
  datatype Session = Session(
    sessId: string,
    courseId: string,
    name: string,
    faculty: string,
    group: string,
    length: int,
    groups: seq<string>)

  datatype Room = Room(name: string, capacity: int)

  /** One value of a schedule dict: the start slot, the room name ("" when
      the entry has no room, which every use treats as falsy), the length and
      the session it schedules ("meta"). */
  datatype Entry = Entry(start: int, room: string, length: int, meta: Session)

  /** A schedule: session id to entry, in insertion order. */
  type Schedule = seq<(string, Entry)>

  /** `group_sizes.get(g, 0)` */
  function GroupSize(groupSizes: map<string, int>, g: string): int {
    if g in groupSizes then groupSizes[g] else 0
  }

  /** A session name marking a lab: it mentions "lab" or "project". */
  predicate IsLabSession(name: string) {
    Contains(Lower(name), "lab") || Contains(Lower(name), "project")
  }

  /** A room name marking a lab room: it mentions "lab". */
  predicate IsLabRoom(name: string) {
    Contains(Lower(name), "lab")
  }
}
