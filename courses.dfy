/** `expand_courses`: every course becomes, for each of its groups, either
    `weekly_slots` single-slot sessions or `weekly_slots / consecutive` lab
    blocks of `consecutive` slots. */
module Courses {
  import opened Common
  import opened Timetable

  /** ValueError (weekly_slots not a multiple of the block length) and
      ZeroDivisionError (block length 0), with the course they arise on. */
  datatype ExpandError = NotDivisible(courseId: string) | ZeroBlockLength(courseId: string)

  /** The group field normalised to a list. */
  function Groups(c: Course): seq<string> {
    match c.group
    case OneGroup(g) => [g]
    case GroupList(gs) => gs
  }

  /** The check on `weekly_slots % consecutive` runs once per group, so a
      course without groups never raises. */
  predicate CourseFails(c: Course) {
    |Groups(c)| > 0 && c.consecutive != 1 && (c.consecutive == 0 || c.weeklySlots % c.consecutive != 0)
  }

  function FailureOf(c: Course): ExpandError {
    if c.consecutive == 0 then ZeroBlockLength(c.id) else NotDivisible(c.id)
  }

  /** How many sessions each group of the course receives: `range(n)` or
      `range(n // k)`, empty when negative. */
  function SessionCount(c: Course): nat
    requires !CourseFails(c) || |Groups(c)| == 0
  {
    if c.consecutive == 1 then Max(c.weeklySlots, 0) as nat
    else if c.consecutive == 0 then 0
    else Max(c.weeklySlots / c.consecutive, 0) as nat
  }

  /** "{id}_{g}_s{i}" for single slots, "{id}_{g}_lab{i}" for blocks. */
  function SessionId(c: Course, g: string, i: nat): string {
    c.id + "_" + g + (if c.consecutive == 1 then "_s" else "_lab") + NatToString(i)
  }

  function MakeSession(c: Course, g: string, i: nat): Session {
    Session(SessionId(c, g, i), c.id, c.name, c.faculty, g,
            if c.consecutive == 1 then 1 else c.consecutive, [])
  }

  function GroupSessions(c: Course, g: string): seq<Session>
    requires !CourseFails(c) || |Groups(c)| == 0
  {
    seq(SessionCount(c), i requires 0 <= i < SessionCount(c) => MakeSession(c, g, i))
  }

  /** The sessions of the first `n` groups of the course, group after group. */
  function GroupsSessions(c: Course, n: nat): seq<Session>
    requires n <= |Groups(c)|
    requires !CourseFails(c)
  {
    if n == 0 then [] else GroupsSessions(c, n - 1) + GroupSessions(c, Groups(c)[n - 1])
  }

  function CourseSessions(c: Course): seq<Session>
    requires !CourseFails(c)
  {
    GroupsSessions(c, |Groups(c)|)
  }

  /** The expansion of a course list: the sessions of each course in course
      order, or the error of the first course that raises. */
  function Expansion(courses: seq<Course>): Result<seq<Session>, ExpandError> {
    if courses == [] then Ok([])
    else
      var c := courses[|courses| - 1];
      match Expansion(courses[..|courses| - 1])
      case Err(e) => Err(e)
      case Ok(s) => if CourseFails(c) then Err(FailureOf(c)) else Ok(s + CourseSessions(c))
  }

  /** The sessions one group of a course receives (the body of the loop
      over groups). */
  method ExpandGroup(c: Course, g: string) returns (r: Result<seq<Session>, ExpandError>)
    requires |Groups(c)| > 0
    ensures r.Err? <==> CourseFails(c)
    ensures r.Err? ==> r.error == FailureOf(c)
    ensures r.Ok? ==> !CourseFails(c) && r.value == GroupSessions(c, g)
  {
    var n, k := c.weeklySlots, c.consecutive;
    var sessions: seq<Session> := [];
    if k == 1 {
      var i := 0;
      while i < n
        invariant 0 <= i <= Max(n, 0)
        invariant sessions == seq(i, m requires 0 <= m < i => MakeSession(c, g, m))
      {
        sessions := sessions + [Session(c.id + "_" + g + "_s" + NatToString(i), c.id, c.name, c.faculty, g, 1, [])];
        i := i + 1;
      }
    } else {
      if k == 0 {
        return Err(ZeroBlockLength(c.id));
      }
      if n % k != 0 {
        return Err(NotDivisible(c.id));
      }
      var cnt := n / k;
      var i := 0;
      while i < cnt
        invariant 0 <= i <= Max(cnt, 0)
        invariant sessions == seq(i, m requires 0 <= m < i => MakeSession(c, g, m))
      {
        sessions := sessions + [Session(c.id + "_" + g + "_lab" + NatToString(i), c.id, c.name, c.faculty, g, k, [])];
        i := i + 1;
      }
    }
    return Ok(sessions);
  }

  method ExpandCourses(courses: seq<Course>) returns (r: Result<seq<Session>, ExpandError>)
    ensures r == Expansion(courses)
  {
    var sessions: seq<Session> := [];
    var ci := 0;
    while ci < |courses|
      invariant 0 <= ci <= |courses|
      invariant Expansion(courses[..ci]) == Ok(sessions)
    {
      var c := courses[ci];
      assert courses[..ci + 1] == courses[..ci] + [c];
      var next := ExpandCourse(c, sessions);
      if next.Err? {
        ExpansionErrorIsFirstOf(courses, ci);
        return next;
      }
      sessions := next.value;
      ExpansionConcat(courses[..ci], c);
      ci := ci + 1;
    }
    assert courses[..ci] == courses;
    r := Ok(sessions);
  }

  /** The loop over the groups of one course, appending each group's
      sessions to `sessions`; the first group that raises ends it. */
  method ExpandCourse(c: Course, sessions: seq<Session>) returns (r: Result<seq<Session>, ExpandError>)
    ensures CourseFails(c) ==> r == Err(FailureOf(c))
    ensures !CourseFails(c) ==> r == Ok(sessions + CourseSessions(c))
  {
    var groups := Groups(c);
    var out := sessions;
    var gi := 0;
    while gi < |groups|
      invariant 0 <= gi <= |groups|
      invariant gi > 0 ==> !CourseFails(c) && out == sessions + GroupsSessions(c, gi)
      invariant gi == 0 ==> out == sessions
    {
      var part := ExpandGroup(c, groups[gi]);
      if part.Err? {
        return part;
      }
      out := out + part.value;
      gi := gi + 1;
    }
    if gi == 0 {
      assert !CourseFails(c) && sessions + CourseSessions(c) == sessions;
    }
    return Ok(out);
  }

  /** A failure of course `ci` after a successful prefix is the error of the
      whole list. */
  lemma ExpansionErrorIsFirstOf(courses: seq<Course>, ci: nat)
    requires ci < |courses| && Expansion(courses[..ci]).Ok? && CourseFails(courses[ci])
    ensures Expansion(courses) == Err(FailureOf(courses[ci]))
  {
    ExpansionFailsIff(courses[..ci]);
    forall j | 0 <= j < ci ensures !CourseFails(courses[j]) {
      assert courses[..ci][j] == courses[j];
    }
    ExpansionErrorIsFirst(courses, ci);
  }

  // ---------------------------------------------------------------------
  // Properties of the expansion
  // ---------------------------------------------------------------------

  /** The expansion fails exactly when some course with a group has a block
      length other than 1 that is zero or does not divide its weekly slots. */
  lemma {:induction false} ExpansionFailsIff(courses: seq<Course>)
    ensures Expansion(courses).Err? <==> exists i :: 0 <= i < |courses| && CourseFails(courses[i])
    decreases |courses|
  {
    if courses != [] {
      var p := courses[..|courses| - 1];
      ExpansionFailsIff(p);
      if exists i :: 0 <= i < |p| && CourseFails(p[i]) {
        var i :| 0 <= i < |p| && CourseFails(p[i]);
        assert courses[i] == p[i];
      }
      if exists i :: 0 <= i < |courses| && CourseFails(courses[i]) {
        var i :| 0 <= i < |courses| && CourseFails(courses[i]);
        if i < |p| { assert p[i] == courses[i]; }
      }
    }
  }

  /** The error names the first course that fails. */
  lemma {:induction false} ExpansionErrorIsFirst(courses: seq<Course>, i: nat)
    requires i < |courses| && CourseFails(courses[i])
    requires forall j :: 0 <= j < i ==> !CourseFails(courses[j])
    ensures Expansion(courses) == Err(FailureOf(courses[i]))
    decreases |courses|
  {
    var p := courses[..|courses| - 1];
    if i < |p| {
      forall j | 0 <= j < i ensures !CourseFails(p[j]) { assert p[j] == courses[j]; }
      ExpansionErrorIsFirst(p, i);
    } else {
      ExpansionFailsIff(p);
    }
  }

  /** Without failures, the sessions are those of each course, each course's
      sessions following those of the courses before it. */
  lemma {:induction false} ExpansionConcat(courses: seq<Course>, c: Course)
    requires Expansion(courses).Ok? && !CourseFails(c)
    ensures Expansion(courses + [c]) == Ok(Expansion(courses).value + CourseSessions(c))
  {
    assert (courses + [c])[..|courses|] == courses;
  }

  /** With block length 1, each group receives `weekly_slots` single-slot
      sessions numbered "_s0", "_s1", ...; otherwise `weekly_slots /
      consecutive` blocks of `consecutive` slots numbered "_lab0", ...
      Every session copies the course's id, name and faculty and carries
      exactly the one group it was made for. */
  lemma GroupSessionsShape(c: Course, g: string, i: nat)
    requires !CourseFails(c) && i < |GroupSessions(c, g)|
    ensures |GroupSessions(c, g)| == if c.consecutive == 1 then Max(c.weeklySlots, 0) else Max(c.weeklySlots / c.consecutive, 0)
    ensures var s := GroupSessions(c, g)[i];
      && s.courseId == c.id && s.name == c.name && s.faculty == c.faculty
      && s.group == g && s.groups == []
      && s.length == (if c.consecutive == 1 then 1 else c.consecutive)
      && s.sessId == c.id + "_" + g + (if c.consecutive == 1 then "_s" else "_lab") + NatToString(i)
  {
  }

  /** The sessions of one group have pairwise different ids. */
  lemma GroupSessionIdsDistinct(c: Course, g: string, i: nat, j: nat)
    requires !CourseFails(c) && i < j < |GroupSessions(c, g)|
    ensures GroupSessions(c, g)[i].sessId != GroupSessions(c, g)[j].sessId
  {
    var pre := c.id + "_" + g + (if c.consecutive == 1 then "_s" else "_lab");
    var a, b := NatToString(i), NatToString(j);
    if pre + a == pre + b {
      assert a == (pre + a)[|pre|..] == (pre + b)[|pre|..] == b;
      NatToStringInjective(i, j);
    }
  }

  function TotalLength(ss: seq<Session>): int {
    if ss == [] then 0 else TotalLength(ss[..|ss| - 1]) + ss[|ss| - 1].length
  }

  lemma {:induction false} TotalLengthUniform(ss: seq<Session>, len: int)
    requires forall i :: 0 <= i < |ss| ==> ss[i].length == len
    ensures TotalLength(ss) == |ss| * len
    decreases |ss|
  {
    if ss != [] {
      TotalLengthUniform(ss[..|ss| - 1], len);
    }
  }

  /** For a course that expands and has a non-negative slot count and a
      positive block length, each group's sessions together last exactly
      `weekly_slots` slots. */
  lemma GroupSessionsCoverWeeklySlots(c: Course, g: string)
    requires !CourseFails(c) && |Groups(c)| > 0
    requires c.weeklySlots >= 0 && c.consecutive >= 1
    ensures TotalLength(GroupSessions(c, g)) == c.weeklySlots
  {
    var ss := GroupSessions(c, g);
    var len := if c.consecutive == 1 then 1 else c.consecutive;
    TotalLengthUniform(ss, len);
    if c.consecutive != 1 {
      ExactQuotient(c.weeklySlots, c.consecutive);
      assert |ss| == c.weeklySlots / c.consecutive;
    }
  }

  lemma ExactQuotient(a: int, k: int)
    requires a >= 0 && k >= 1 && a % k == 0
    ensures a / k >= 0 && (a / k) * k == a
  {
  }

  /** Every session of a course comes from one of its groups, in group
      order: the sessions of group number j occupy their own consecutive
      stretch of the course's sessions. */
  lemma {:induction false} GroupsSessionsLayout(c: Course, n: nat, j: nat, i: nat)
    requires !CourseFails(c) && j < n <= |Groups(c)| && i < |GroupSessions(c, Groups(c)[j])|
    ensures |GroupsSessions(c, j)| + i < |GroupsSessions(c, n)|
    ensures GroupsSessions(c, n)[|GroupsSessions(c, j)| + i] == GroupSessions(c, Groups(c)[j])[i]
    decreases n
  {
    if j < n - 1 {
      GroupsSessionsLayout(c, n - 1, j, i);
    }
  }
}
