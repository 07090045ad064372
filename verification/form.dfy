/** The schedule-request form: its state (study information, free-time
    grid, selected subjects, active tab, extra constraints), the handlers
    that update it, and the request it submits. */
module Form {
  import opened Base
  import opened Slots
  import opened Selection
  import opened Credits
  import opened FreeTime

  /** The four extra constraint switches. */
  datatype Constraints = Constraints(
    avoidConsecutive: bool,
    balanceDays: bool,
    preferMorning: bool,
    allowSaturday: bool)

  const DefaultConstraints := Constraints(true, true, false, false)

  /** The free-text fields of the study information. */
  datatype StudyText = SemesterField | MajorField

  /** A submitted subject with the priority of its position. */
  datatype RankedSubject = RankedSubject(subject: Subject, priority: int)

  /** What the form hands to the optimizer. */
  datatype Request = Request(
    studyInfo: StudyInfo,
    subjects: seq<RankedSubject>,
    availableSlots: seq<string>,
    constraints: Constraints)

  /** `selectedSubjects.map((subject, index) => ({...subject, priority}))`. */
  function Ranked(selected: seq<Subject>): (r: seq<RankedSubject>)
    ensures |r| == |selected|
    ensures forall i :: 0 <= i < |r| ==> r[i].subject == selected[i]
    ensures forall i :: 0 <= i < |r| ==> 1 <= r[i].priority <= 10
    ensures forall i :: 0 <= i < |r| ==> r[i].priority == Priority(selected[i].isRetake, i)
  {
    seq(|selected|, i requires 0 <= i < |selected| => RankedSubject(selected[i], Priority(selected[i].isRetake, i)))
  }

  class SchedulerForm {
    var studyInfo: StudyInfo
    var freeTime: Grid
    var selected: seq<Subject>
    var tab: Tab
    var constraints: Constraints

    /** All 21 cells exist, and the minimum credits always follow the
        maximum (the minimum field is read-only). */
    predicate Valid()
      reads this
    {
      FullGrid(freeTime) && BandConsistent(studyInfo)
    }

    constructor ()
      ensures Valid()
      ensures studyInfo == StudyInfo("", "", Blank, Blank)
      ensures freeTime == DefaultGrid() && FreeSlots(freeTime) == []
      ensures selected == [] && tab == Current && constraints == DefaultConstraints
    {
      studyInfo := StudyInfo("", "", Blank, Blank);
      freeTime := DefaultGrid();
      selected := [];
      tab := Current;
      constraints := DefaultConstraints;
      new;
      NoFreeCellsNoSlots(freeTime);
    }

    /** `handleStudyFieldChange` for the two text fields it serves. */
    method SetStudyText(field: StudyText, value: string)
      requires Valid()
      modifies this
      ensures Valid()
      ensures studyInfo == (match field
        case SemesterField => old(studyInfo).(semester := value)
        case MajorField => old(studyInfo).(major := value))
      ensures freeTime == old(freeTime) && selected == old(selected)
      ensures tab == old(tab) && constraints == old(constraints)
    {
      match field
      case SemesterField => studyInfo := studyInfo.(semester := value);
      case MajorField => studyInfo := studyInfo.(major := value);
    }

    /** `handleMaxCreditsChange`. */
    method SetMaxCredits(value: string)
      requires Valid()
      modifies this
      ensures Valid()
      ensures studyInfo == AfterMaxCreditsInput(old(studyInfo), value)
      ensures freeTime == old(freeTime) && selected == old(selected)
      ensures tab == old(tab) && constraints == old(constraints)
    {
      MaxCreditsInputKeepsBand(studyInfo, value);
      studyInfo := AfterMaxCreditsInput(studyInfo, value);
    }

    /** `moveSubject(index, direction)`. */
    method MoveSubject(index: nat, direction: int)
      requires Valid() && index < |selected|
      modifies this
      ensures Valid()
      ensures selected == Move(old(selected), index, direction)
      ensures studyInfo == old(studyInfo) && freeTime == old(freeTime)
      ensures tab == old(tab) && constraints == old(constraints)
    {
      selected := Move(selected, index, direction);
    }

    /** `handleFreeTimeChange(day, period)`. */
    method ToggleFreeTime(d: Day, p: Period)
      requires Valid()
      modifies this
      ensures Valid()
      ensures freeTime == Flip(old(freeTime), d, p)
      ensures SlotName(d, p) in FreeSlots(freeTime) <==> SlotName(d, p) !in FreeSlots(old(freeTime))
      ensures studyInfo == old(studyInfo) && selected == old(selected)
      ensures tab == old(tab) && constraints == old(constraints)
    {
      FlipTogglesToken(freeTime, d, p);
      freeTime := Flip(freeTime, d, p);
    }

    /** The tab buttons. */
    method SelectTab(t: Tab)
      requires Valid()
      modifies this
      ensures Valid()
      ensures tab == t
      ensures studyInfo == old(studyInfo) && freeTime == old(freeTime)
      ensures selected == old(selected) && constraints == old(constraints)
    {
      tab := t;
    }

    /** The constraint switches. */
    method SetConstraints(c: Constraints)
      requires Valid()
      modifies this
      ensures Valid()
      ensures constraints == c
      ensures studyInfo == old(studyInfo) && freeTime == old(freeTime)
      ensures selected == old(selected) && tab == old(tab)
    {
      constraints := c;
    }

    /** `handleSubjectToggle(course)`, with the session lookup's outcome and
        the default date window given. */
    method ToggleSubject(course: Course, lookup: Lookup, window: DateWindow)
      requires Valid()
      modifies this
      ensures Valid()
      ensures selected == Toggle(old(selected), course, old(tab), lookup, window)
      ensures UniqueOriginals(old(selected)) && ConsistentCatalog(course, lookup) ==> UniqueOriginals(selected)
      ensures studyInfo == old(studyInfo) && freeTime == old(freeTime)
      ensures tab == old(tab) && constraints == old(constraints)
    {
      if UniqueOriginals(selected) && ConsistentCatalog(course, lookup) {
        ToggleKeepsUnique(selected, course, tab, lookup, window);
      }
      selected := Toggle(selected, course, tab, lookup, window);
    }

    /** `handleGenerate`: nothing is submitted for an empty selection;
        otherwise the request carries every selected subject with the
        priority of its position, and one slot token per free cell in day
        and period order. */
    method Generate() returns (r: Option<Request>)
      requires Valid()
      ensures r.None? <==> selected == []
      ensures r.Some? ==>
        && r.value.studyInfo == studyInfo
        && r.value.constraints == constraints
        && r.value.subjects == Ranked(selected)
        && r.value.availableSlots == FreeSlots(freeTime)
        && Distinct(r.value.availableSlots)
        && (forall d: Day, p: Period :: SlotName(d, p) in r.value.availableSlots <==> freeTime[d][p])
    {
      if selected == [] {
        return None;
      }
      var slots := BuildSlots(freeTime);
      FreeSlotsDistinct(freeTime);
      forall d: Day, p: Period ensures SlotName(d, p) in slots <==> freeTime[d][p] {
        FreeSlotsMembers(freeTime, d, p);
      }
      r := Some(Request(studyInfo, Ranked(selected), slots, constraints));
    }
  }
}
