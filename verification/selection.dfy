/** The client's selection of subjects: building a subject from a catalog
    course and its first session, the toggle that adds or removes a course
    (matching across session-suffixed codes), reordering, and the priority
    derived from a subject's position. */
module Selection {
  import opened Base
  import opened Codes
  import opened Clock

  /** A catalog course as the course list returns it. Optional text fields
      are "" when absent (every optional text is read with `||`, so "" and
      absent behave alike). Credits are 0 when absent. */
  datatype Course = Course(
    code: string,
    name: string,
    credits: int,
    department: string,
    metaOriginalCode: string,   // metadata.original_code
    metaDay: string)            // metadata.day

  /** One session (class group) of a course, as the session lookup returns it. */
  datatype Session = Session(
    code: string,
    name: string,
    credits: int,
    department: string,
    startTime: Option<Minutes>,
    endTime: Option<Minutes>,
    startDate: Option<int>,
    endDate: Option<int>,
    day: string)

  /** Outcome of asking the catalog for a course's sessions. */
  datatype Lookup = LookupFailed | Found(sessions: seq<Session>)

  /** Default validity window of a subject built without session dates:
      today and today + 90 days, as day numbers supplied by the caller. */
  datatype DateWindow = DateWindow(today: int, later: int)

  /** A selected subject, the unit later sent for optimization. */
  datatype Subject = Subject(
    code: string,
    displayName: string,
    name: string,
    credits: int,
    instructor: string,
    startTime: Minutes,
    endTime: Minutes,
    startDate: int,
    endDate: int,
    day: string,
    isRetake: bool)

  datatype Tab = Current | Retake

  // ---------------------------------------------------------------------
  // Payload construction

  const DefaultStart: Minutes := Seven          // "07:00"
  const DefaultEnd: Minutes := ElevenThirty     // "11:30"
  const DefaultCredits: int := 3

  /** `credits || 3`: a zero (or absent) credit count becomes 3. */
  function CreditsOr3(c: int): (r: int)
    ensures r != 0
    ensures c != 0 ==> r == c
  {
    if c == 0 then DefaultCredits else c
  }

  function TextOr(s: string, fallback: string): (r: string)
    ensures s != "" ==> r == s
    ensures s == "" ==> r == fallback
  {
    if s != "" then s else fallback
  }

  function OptOr<T>(o: Option<T>, fallback: T): (r: T)
    ensures o.Some? ==> r == o.value
    ensures o.None? ==> r == fallback
  {
    if o.Some? then o.value else fallback
  }

  /** The subject built from a course, either from the session the lookup
      supplied or, without one, from the course alone with the default
      time window 07:00-11:30 and the default date window. */
  function BuildSubjectPayload(course: Course, session: Option<Session>, window: DateWindow, retake: bool): (s: Subject)
    ensures s.isRetake == retake
    ensures s.credits != 0
    ensures session.None? ==>
      && s.code == course.code && s.displayName == course.name
      && s.name == course.code + " - " + course.name
      && s.credits == CreditsOr3(course.credits)
      && s.startTime == DefaultStart && s.endTime == DefaultEnd
      && s.startDate == window.today && s.endDate == window.later
      && s.day == course.metaDay
      && s.instructor == course.department
    ensures session.Some? ==>
      && s.code == session.value.code
      && s.displayName == session.value.name
      && s.name == session.value.code + " - " + session.value.name
      && s.credits == CreditsOr3(session.value.credits)
      && s.instructor == session.value.department
      && (session.value.startTime.Some? ==> s.startTime == session.value.startTime.value)
      && (session.value.startTime.None? ==> s.startTime == DefaultStart)
      && (session.value.endTime.Some? ==> s.endTime == session.value.endTime.value)
      && (session.value.endTime.None? ==> s.endTime == DefaultEnd)
      && (session.value.startDate.Some? ==> s.startDate == session.value.startDate.value)
      && (session.value.startDate.None? ==> s.startDate == window.today)
      && (session.value.endDate.Some? ==> s.endDate == session.value.endDate.value)
      && (session.value.endDate.None? ==> s.endDate == window.later)
      && (session.value.day != "" ==> s.day == session.value.day)
      && (session.value.day == "" ==> s.day == course.metaDay)
  {
    match session
    case Some(se) =>
      Subject(se.code, se.name, se.code + " - " + se.name, CreditsOr3(se.credits),
              TextOr(se.department, ""),
              OptOr(se.startTime, DefaultStart), OptOr(se.endTime, DefaultEnd),
              OptOr(se.startDate, window.today), OptOr(se.endDate, window.later),
              TextOr(se.day, course.metaDay), retake)
    case None =>
      Subject(course.code, course.name, course.code + " - " + course.name, CreditsOr3(course.credits),
              TextOr(course.department, ""),
              DefaultStart, DefaultEnd, window.today, window.later,
              course.metaDay, retake)
  }

  /** Only the first session the lookup returns is used; none, or a failed
      lookup, means the course alone. */
  function ChosenSession(lookup: Lookup): (r: Option<Session>)
    ensures lookup.Found? && |lookup.sessions| > 0 ==> r == Some(lookup.sessions[0])
    ensures lookup.LookupFailed? || lookup.sessions == [] ==> r == None
  {
    if lookup.Found? && |lookup.sessions| > 0 then Some(lookup.sessions[0]) else None
  }

  // ---------------------------------------------------------------------
  // Toggle

  /** The course's original code: the catalog's metadata value when present,
      else its code cut at "-G". */
  function CourseOriginalCode(course: Course): (r: string)
    ensures course.metaOriginalCode != "" ==> r == course.metaOriginalCode
    ensures course.metaOriginalCode == "" ==> r == StripGroup(course.code)
  {
    if course.metaOriginalCode != "" then course.metaOriginalCode else StripGroup(course.code)
  }

  /** The three-way match of a selected item against a course. */
  predicate Matches(item: Subject, course: Course)
  {
    var oc := CourseOriginalCode(course);
    StripGroup(item.code) == oc || item.code == course.code || item.code == oc
  }

  /** `selectedSubjects.find(...)` found something. */
  predicate IsSelected(selected: seq<Subject>, course: Course)
  {
    exists i :: 0 <= i < |selected| && Matches(selected[i], course)
  }

  /** `selected.filter(item => !matches)`: the exact negation of the find. */
  function Unmatched(selected: seq<Subject>, course: Course): (r: seq<Subject>)
    ensures |r| <= |selected|
  {
    if selected == [] then []
    else
      var rest := Unmatched(selected[1..], course);
      if Matches(selected[0], course) then rest else [selected[0]] + rest
  }

  /** The filter keeps exactly the items that do not match, and changes
      nothing when no item matches. */
  lemma {:induction false} UnmatchedMembers(selected: seq<Subject>, course: Course)
    ensures forall x :: x in Unmatched(selected, course) <==> x in selected && !Matches(x, course)
    ensures !IsSelected(selected, course) ==> Unmatched(selected, course) == selected
  {
    if selected != [] {
      var head, tail := selected[0], selected[1..];
      UnmatchedMembers(tail, course);
      assert selected == [head] + tail;
      if !IsSelected(selected, course) {
        assert !Matches(head, course);
        forall i | 0 <= i < |tail| ensures !Matches(tail[i], course) {
          assert tail[i] == selected[i + 1];
        }
      }
    }
  }

  /** After the filter no item matches the course any more. */
  lemma UnmatchedUnselected(selected: seq<Subject>, course: Course)
    ensures !IsSelected(Unmatched(selected, course), course)
  {
    var r := Unmatched(selected, course);
    UnmatchedMembers(selected, course);
    forall i | 0 <= i < |r| ensures !Matches(r[i], course) {
      assert r[i] in r;
    }
  }

  /** The filter keeps every non-matching item as often as it occurs. */
  lemma {:induction false} UnmatchedCounts(selected: seq<Subject>, course: Course, x: Subject)
    requires !Matches(x, course)
    ensures multiset(Unmatched(selected, course))[x] == multiset(selected)[x]
  {
    if selected != [] {
      var head, tail := selected[0], selected[1..];
      UnmatchedCounts(tail, course, x);
      assert selected == [head] + tail;
      if Matches(head, course) {
        assert Unmatched(selected, course) == Unmatched(tail, course);
      } else {
        assert Unmatched(selected, course) == [head] + Unmatched(tail, course);
      }
    }
  }

  /** When the course is selected the filter removes at least one item. */
  lemma {:induction false} UnmatchedShrinks(selected: seq<Subject>, course: Course)
    requires IsSelected(selected, course)
    ensures |Unmatched(selected, course)| < |selected|
  {
    var head, tail := selected[0], selected[1..];
    assert Unmatched(selected, course) == if Matches(head, course) then Unmatched(tail, course) else [head] + Unmatched(tail, course);
    if !Matches(head, course) {
      var i :| 0 <= i < |selected| && Matches(selected[i], course);
      assert Matches(tail[i - 1], course);
      UnmatchedShrinks(tail, course);
    }
  }

  /** The new selection after toggling `course`: every matching item is
      removed if there is one; otherwise one subject is appended, built from
      the first session of the lookup or from the course alone, and marked
      as a retake when the retake tab is active. */
  function Toggle(selected: seq<Subject>, course: Course, tab: Tab, lookup: Lookup, window: DateWindow): (r: seq<Subject>)
    ensures IsSelected(selected, course) ==> r == Unmatched(selected, course) && !IsSelected(r, course)
    ensures !IsSelected(selected, course) ==>
      && |r| == |selected| + 1 && r[..|selected|] == selected
      && r[|selected|] == BuildSubjectPayload(course, ChosenSession(lookup), window, tab == Retake)
      && r[|selected|].isRetake == (tab == Retake)
  {
    if IsSelected(selected, course) then
      UnmatchedUnselected(selected, course);
      Unmatched(selected, course)
    else selected + [BuildSubjectPayload(course, ChosenSession(lookup), window, tab == Retake)]
  }

  /** The catalog is consistent for a course when its metadata original
      code (if any) is its code cut at "-G", and the session the toggle uses
      carries a code that cuts to the same original code. */
  predicate ConsistentCatalog(course: Course, lookup: Lookup)
  {
    && (course.metaOriginalCode == "" || course.metaOriginalCode == StripGroup(course.code))
    && (ChosenSession(lookup).Some? ==>
          StripGroup(ChosenSession(lookup).value.code) == CourseOriginalCode(course))
  }

  /** No two selected items share an original code. */
  predicate UniqueOriginals(selected: seq<Subject>)
  {
    forall i, j :: 0 <= i < j < |selected| ==> StripGroup(selected[i].code) != StripGroup(selected[j].code)
  }

  /** No item of `rest` shares an original code with `x`. */
  predicate Fresh(x: Subject, rest: seq<Subject>)
  {
    forall k :: 0 <= k < |rest| ==> StripGroup(rest[k].code) != StripGroup(x.code)
  }

  lemma UniqueCons(x: Subject, rest: seq<Subject>)
    ensures UniqueOriginals([x] + rest) <==> Fresh(x, rest) && UniqueOriginals(rest)
  {
    if Fresh(x, rest) && UniqueOriginals(rest) {
      UniqueConsBuild(x, rest);
    }
    if UniqueOriginals([x] + rest) {
      UniqueConsSplit(x, rest);
    }
  }

  lemma UniqueConsBuild(x: Subject, rest: seq<Subject>)
    requires Fresh(x, rest) && UniqueOriginals(rest)
    ensures UniqueOriginals([x] + rest)
  {
    var s := [x] + rest;
    forall i, j | 0 <= i < j < |s| ensures StripGroup(s[i].code) != StripGroup(s[j].code) {
      if i > 0 { assert s[i] == rest[i - 1] && s[j] == rest[j - 1]; }
      else { assert s[j] == rest[j - 1]; }
    }
  }

  lemma UniqueConsSplit(x: Subject, rest: seq<Subject>)
    requires UniqueOriginals([x] + rest)
    ensures Fresh(x, rest) && UniqueOriginals(rest)
  {
    var s := [x] + rest;
    forall k | 0 <= k < |rest| ensures StripGroup(rest[k].code) != StripGroup(x.code) {
      assert s[0] == x && s[k + 1] == rest[k];
    }
    forall i, j | 0 <= i < j < |rest| ensures StripGroup(rest[i].code) != StripGroup(rest[j].code) {
      assert s[i + 1] == rest[i] && s[j + 1] == rest[j];
    }
  }

  lemma {:induction false} UnmatchedKeepsFresh(x: Subject, selected: seq<Subject>, course: Course)
    requires Fresh(x, selected)
    ensures Fresh(x, Unmatched(selected, course))
    decreases |selected|
  {
    if selected != [] {
      UnmatchedKeepsFresh(x, selected[1..], course);
      var rest := Unmatched(selected[1..], course);
      if !Matches(selected[0], course) {
        var r := [selected[0]] + rest;
        forall k | 0 <= k < |r| ensures StripGroup(r[k].code) != StripGroup(x.code) {
          if k > 0 { assert r[k] == rest[k - 1]; }
        }
      }
    }
  }

  lemma {:induction false} UnmatchedKeepsUnique(selected: seq<Subject>, course: Course)
    requires UniqueOriginals(selected)
    ensures UniqueOriginals(Unmatched(selected, course))
    decreases |selected|
  {
    if selected != [] {
      assert selected == [selected[0]] + selected[1..];
      UniqueCons(selected[0], selected[1..]);
      UnmatchedKeepsUnique(selected[1..], course);
      if !Matches(selected[0], course) {
        UnmatchedKeepsFresh(selected[0], selected[1..], course);
        UniqueCons(selected[0], Unmatched(selected[1..], course));
      }
    }
  }

  /** Every sequence of toggles keeps at most one item per original code,
      as long as the catalog is consistent for the toggled course. */
  lemma ToggleKeepsUnique(selected: seq<Subject>, course: Course, tab: Tab, lookup: Lookup, window: DateWindow)
    requires UniqueOriginals(selected)
    requires ConsistentCatalog(course, lookup)
    ensures UniqueOriginals(Toggle(selected, course, tab, lookup, window))
  {
    if IsSelected(selected, course) {
      UnmatchedKeepsUnique(selected, course);
    } else {
      var added := BuildSubjectPayload(course, ChosenSession(lookup), window, tab == Retake);
      assert StripGroup(added.code) == CourseOriginalCode(course) by {
        if ChosenSession(lookup).None? {
          StripGroupIdempotent(course.code);
        }
      }
      var r := Toggle(selected, course, tab, lookup, window);
      forall i, j | 0 <= i < j < |r| ensures StripGroup(r[i].code) != StripGroup(r[j].code) {
        if j == |selected| {
          assert !Matches(selected[i], course);
        }
      }
    }
  }

  /** Toggling a course on and then toggling a course with the same
      original code (the same course, or another session code of it) gives
      the selection back. */
  lemma ToggleTwiceRestores(selected: seq<Subject>, first: Course, second: Course, tab: Tab,
                            lookup: Lookup, again: Lookup, window: DateWindow)
    requires !IsSelected(selected, first)
    requires ConsistentCatalog(first, lookup)
    requires CourseOriginalCode(second) == CourseOriginalCode(first)
    requires forall x :: x in selected ==> !Matches(x, second)
    ensures Toggle(Toggle(selected, first, tab, lookup, window), second, tab, again, window) == selected
  {
    var once := Toggle(selected, first, tab, lookup, window);
    var added := once[|selected|];
    assert StripGroup(added.code) == CourseOriginalCode(first) by {
      if ChosenSession(lookup).None? {
        StripGroupIdempotent(first.code);
      }
    }
    assert Matches(added, second);
    assert IsSelected(once, second);
    UnmatchedOfAppend(selected, added, second);
    assert once == selected + [added];
  }

  lemma {:induction false} UnmatchedOfAppend(selected: seq<Subject>, added: Subject, course: Course)
    requires forall x :: x in selected ==> !Matches(x, course)
    requires Matches(added, course)
    ensures Unmatched(selected + [added], course) == selected
    decreases |selected|
  {
    if selected == [] {
      assert [added][1..] == [];
    } else {
      assert (selected + [added])[1..] == selected[1..] + [added];
      UnmatchedOfAppend(selected[1..], added, course);
      assert selected == [selected[0]] + selected[1..];
    }
  }

  // ---------------------------------------------------------------------
  // Reordering and priority

  /** `moveSubject(index, direction)`: the item at `index` is spliced out and
      spliced back in at `index + direction`; a target outside the list
      leaves it unchanged. */
  function Move(selected: seq<Subject>, index: nat, direction: int): (r: seq<Subject>)
    requires index < |selected|
    ensures |r| == |selected|
    ensures multiset(r) == multiset(selected)
    ensures !(0 <= index + direction < |selected|) ==> r == selected
    ensures 0 <= index + direction < |selected| ==> r[index + direction] == selected[index]
  {
    var target := index + direction;
    if target < 0 || target >= |selected| then selected
    else
      var removed := selected[index];
      var without := selected[..index] + selected[index + 1..];
      assert selected == selected[..index] + [removed] + selected[index + 1..];
      assert multiset(selected) == multiset(without) + multiset{removed};
      var r := without[..target] + [removed] + without[target..];
      assert without == without[..target] + without[target..];
      r
  }

  /** A move by one position (the up and down buttons) swaps two
      neighbours and leaves every other position alone. */
  lemma MoveByOneSwaps(selected: seq<Subject>, index: nat, direction: int)
    requires index < |selected|
    requires direction == 1 || direction == -1
    requires 0 <= index + direction < |selected|
    ensures Move(selected, index, direction)
         == selected[index := selected[index + direction]][index + direction := selected[index]]
  {
    var target := index + direction;
    var r := Move(selected, index, direction);
    var without := selected[..index] + selected[index + 1..];
    assert r == without[..target] + [selected[index]] + without[target..];
    var expected := selected[index := selected[target]][target := selected[index]];
    forall k | 0 <= k < |r| ensures r[k] == expected[k] {
      if k < index && k < target {
        assert r[k] == without[k] == selected[k];
      } else if k > index && k > target {
        assert r[k] == without[k - 1] == selected[k];
      }
    }
  }

  /** `calculatePriority`: ten minus the position, at least one, plus two
      for a retake, at most ten. */
  function Priority(isRetake: bool, index: nat): (p: int)
    ensures 1 <= p <= 10
    ensures !isRetake && index < 10 ==> p == 10 - index
    ensures !isRetake && index >= 9 ==> p == 1
    ensures isRetake ==> p == if index <= 2 then 10 else Priority(false, index) + 2
  {
    var base := if 10 - index >= 1 then 10 - index else 1;
    var bonus := if isRetake then 2 else 0;
    if base + bonus <= 10 then base + bonus else 10
  }

  /** Priority never increases further down the list for equal retake status. */
  lemma {:induction false} PriorityNonIncreasing(isRetake: bool, i: nat, j: nat)
    requires i <= j
    ensures Priority(isRetake, j) <= Priority(isRetake, i)
  {
  }

  /** A retake subject never has a lower priority than a non-retake subject
      at the same position. */
  lemma RetakeNeverLower(index: nat)
    ensures Priority(false, index) <= Priority(true, index)
  {
  }

  /** The priorities of a selection, position by position. */
  function Priorities(selected: seq<Subject>): seq<int>
  {
    seq(|selected|, k requires 0 <= k < |selected| => Priority(selected[k].isRetake, k))
  }

  /** Priority follows position, not identity: when every subject has the
      same retake status, reordering leaves the list of priorities as it was
      (the subject that moves up takes over the higher priority). */
  lemma PriorityFollowsPosition(selected: seq<Subject>, index: nat, direction: int, isRetake: bool)
    requires index < |selected|
    requires forall x :: x in selected ==> x.isRetake == isRetake
    ensures Priorities(Move(selected, index, direction)) == Priorities(selected)
  {
    var r := Move(selected, index, direction);
    forall k | 0 <= k < |r| ensures r[k].isRetake == isRetake {
      assert r[k] in multiset(r);
    }
  }

  /** Three regular subjects get 10, 9 and 8, whatever their order. */
  lemma ThreeRegularSubjects(a: Subject, b: Subject, c: Subject)
    requires !a.isRetake && !b.isRetake && !c.isRetake
    ensures Priorities([a, b, c]) == [10, 9, 8]
  {
    var p := Priorities([a, b, c]);
    assert p[0] == 10 && p[1] == 9 && p[2] == 8;
  }
}
