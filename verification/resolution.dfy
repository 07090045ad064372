/** The schedule handler up to the optimizer call: entries are built from
    the submitted subjects, conflicting pairs are resolved one at a time
    (replacing the loser by a catalog alternative when one is usable,
    otherwise dropping it), and the 21 slots are split into available and
    unavailable for the optimizer. */
module Resolution {
  import opened Base
  import opened Codes
  import opened Slots
  import opened Conflicts
  import FreeTime

  /** A subject as the request carries it. Dates are `None` when the text
      is not a valid `YYYY-MM-DD` date. */
  datatype SubjectInput = SubjectInput(
    name: string,
    startTime: Clock.Minutes,
    endTime: Clock.Minutes,
    startDate: Option<int>,
    endDate: Option<int>,
    priority: int,
    isRetake: bool)

  /** The schema accepts priorities 1..10 only. */
  predicate SchemaValid(subjects: seq<SubjectInput>)
  {
    forall k :: 0 <= k < |subjects| ==> 1 <= subjects[k].priority <= 10
  }

  predicate DatesParse(s: SubjectInput)
  {
    s.startDate.Some? && s.endDate.Some?
  }

  /** The entries built in submission order; `None` when some date does
      not parse. */
  function BuildEntries(subjects: seq<SubjectInput>): (r: Option<seq<Entry>>)
    requires SchemaValid(subjects)
    ensures r.None? <==> exists k :: 0 <= k < |subjects| && !DatesParse(subjects[k])
    ensures r.Some? ==> |r.value| == |subjects|
    ensures r.Some? ==> forall k :: 0 <= k < |subjects| ==>
      var s, e := subjects[k], r.value[k];
      && e.name == s.name && e.code == "" && e.originalIndex == k
      && e.priority == CalcPriority(s.priority, s.isRetake) && e.isRetake == s.isRetake
      && e.start == s.startDate.value && e.end == s.endDate.value
      && e.startTime == s.startTime && e.endTime == s.endTime
  {
    if subjects == [] then Some([])
    else
      var n := |subjects| - 1;
      var s := subjects[n];
      match BuildEntries(subjects[..n])
      case None => None
      case Some(init) =>
        if !DatesParse(s) then None
        else Some(init + [Entry(s.name, "", CalcPriority(s.priority, s.isRetake), s.isRetake,
                                s.startDate.value, s.endDate.value, s.startTime, s.endTime, n)])
  }

  // ---------------------------------------------------------------------
  // The resolution loop

  /** A dropped entry and the entry it lost to. */
  datatype Removal = Removal(removed: Entry, keptWith: Entry)

  /** A replaced entry, its replacement, and the entry it lost to. */
  datatype Substitution = Substitution(original: Entry, alternative: Entry, keptWith: Entry)

  function Losers(removed: seq<Removal>): (r: seq<Entry>)
    ensures |r| == |removed|
    ensures forall k :: 0 <= k < |r| ==> r[k] == removed[k].removed
  {
    seq(|removed|, k requires 0 <= k < |removed| => removed[k].removed)
  }

  /** No alternative is ever available: every catalog answer is empty, or
      no entry has a code to look alternatives up by (the case of every
      request the client sends). */
  predicate NoAlternatives(entries: seq<Entry>, answers: seq<seq<Candidate>>)
  {
    (forall k :: 0 <= k < |answers| ==> answers[k] == [])
    || (forall k :: 0 <= k < |entries| ==> StripGroup(entries[k].code) == "")
  }

  /** The catalog's answer on iteration `k`. */
  function Answer(answers: seq<seq<Candidate>>, k: nat): seq<Candidate>
  {
    if k < |answers| then answers[k] else []
  }

  /** The `while iteration < max_iterations` loop: scan for conflicts, stop
      when there are none; otherwise take the first pair, decide the kept
      entry, and replace the other by the best usable alternative from the
      catalog (asked only when its code has an original code), or drop it.
      At most three iterations per entry. */
  method Resolve(entries: seq<Entry>, answers: seq<seq<Candidate>>, requested: seq<string>)
    returns (active: seq<Entry>, removed: seq<Removal>, used: seq<Substitution>)
    ensures |active| + |removed| == |entries|
    ensures |entries| > 0 ==> |active| > 0
    ensures forall r :: r in removed ==>
      Conflict(r.keptWith, r.removed) && r.keptWith.priority >= r.removed.priority
    ensures forall r :: r in removed ==> KeepsFirst(r.keptWith, r.removed)
    ensures NoAlternatives(entries, answers) ==>
      && used == []
      && multiset(active) + multiset(Losers(removed)) == multiset(entries)
      && ConflictFree(active)
  {
    active, removed, used := entries, [], [];
    var maxIterations := |entries| * 3;
    var iteration := 0;
    ghost var quiet := NoAlternatives(entries, answers);
    while iteration < maxIterations
      invariant 0 <= iteration <= maxIterations
      invariant |active| + |removed| == |entries|
      invariant |entries| > 0 ==> |active| > 0
      invariant forall r :: r in removed ==>
        Conflict(r.keptWith, r.removed) && r.keptWith.priority >= r.removed.priority
      invariant forall r :: r in removed ==> KeepsFirst(r.keptWith, r.removed)
      invariant quiet ==> used == [] && iteration == |removed|
      invariant quiet ==> multiset(active) + multiset(Losers(removed)) == multiset(entries)
      decreases maxIterations - iteration
    {
      var pairs := FindConflicts(active);
      if pairs == [] {
        EmptyScanIsConflictFree(active, pairs);
        break;
      }
      var (i, j) := pairs[0];
      assert IsConflictPair(active, pairs[0]);
      var (keepIndex, removeIndex) := if KeepsFirst(active[i], active[j]) then (i, j) else (j, i);
      var keep, loser := active[keepIndex], active[removeIndex];
      KeptBeatsLoser(active[i], active[j]);
      var candidates :=
        if StripGroup(loser.code) != "" then UsableCandidates(Answer(answers, iteration), keep, active, loser)
        else [];
      if quiet {
        QuietMeansNoCandidates(entries, answers, active, removed, iteration, loser, keep);
      }
      if candidates != [] {
        var best := AsEntry(ChooseCandidate(candidates, requested), loser);
        used := used + [Substitution(loser, best, keep)];
        active := active[removeIndex := best];
      } else {
        var rest := active[..removeIndex] + active[removeIndex + 1..];
        DropOne(active, removeIndex, removed, keep);
        removed := removed + [Removal(loser, keep)];
        active := rest;
      }
      iteration := iteration + 1;
    }
    if quiet && iteration == maxIterations {
      assert |entries| == 0;
    }
  }

  /** Whichever of a conflicting pair is kept, it conflicts with the other,
      has no lower priority, and wins the keep rule against it. */
  lemma KeptBeatsLoser(a: Entry, b: Entry)
    requires Conflict(a, b)
    ensures KeepsFirst(a, b) ==> Conflict(a, b) && a.priority >= b.priority
    ensures !KeepsFirst(a, b) ==> Conflict(b, a) && b.priority >= a.priority && KeepsFirst(b, a)
  {
    ConflictSymmetric(a, b);
    KeptEntryIndependentOfOrder(a, b);
  }

  /** Dropping the entry at `k` moves it from the active list to the
      losers. */
  lemma DropOne(active: seq<Entry>, k: nat, removed: seq<Removal>, keep: Entry)
    requires k < |active|
    ensures |active[..k] + active[k + 1..]| == |active| - 1
    ensures multiset(active) == multiset(active[..k] + active[k + 1..]) + multiset{active[k]}
    ensures Losers(removed + [Removal(active[k], keep)]) == Losers(removed) + [active[k]]
  {
    assert active == active[..k] + [active[k]] + active[k + 1..];
  }

  /** Without alternatives the loser's candidate list is always empty. */
  lemma QuietMeansNoCandidates(entries: seq<Entry>, answers: seq<seq<Candidate>>, active: seq<Entry>,
                               removed: seq<Removal>, iteration: nat, loser: Entry, keep: Entry)
    requires NoAlternatives(entries, answers)
    requires multiset(active) + multiset(Losers(removed)) == multiset(entries)
    requires loser in active
    ensures StripGroup(loser.code) == "" || UsableCandidates(Answer(answers, iteration), keep, active, loser) == []
  {
    if forall k :: 0 <= k < |answers| ==> answers[k] == [] {
    } else {
      assert loser in multiset(entries);
      assert loser in entries;
    }
  }

  // ---------------------------------------------------------------------
  // Slots for the optimizer

  /** `xs` without the elements of `drop`, in order. */
  function Without(xs: seq<string>, drop: seq<string>): (r: seq<string>)
    ensures forall s :: s in r <==> s in xs && s !in drop
    ensures |r| <= |xs|
  {
    if xs == [] then []
    else
      var last := xs[|xs| - 1];
      assert xs == xs[..|xs| - 1] + [last];
      Without(xs[..|xs| - 1], drop) + (if last in drop then [] else [last])
  }

  lemma {:induction false} WithoutKeepsDistinct(xs: seq<string>, drop: seq<string>)
    requires Distinct(xs)
    ensures Distinct(Without(xs, drop))
    decreases |xs|
  {
    if xs != [] {
      var init, last := xs[..|xs| - 1], xs[|xs| - 1];
      assert Distinct(init);
      WithoutKeepsDistinct(init, drop);
      assert forall k :: 0 <= k < |init| ==> init[k] == xs[k] != xs[|xs| - 1];
      assert last !in init;
      DistinctAppend(Without(init, drop), if last in drop then [] else [last]);
    }
  }

  lemma {:induction false} WithoutSuperset(xs: seq<string>, drop: seq<string>)
    requires forall s :: s in xs ==> s in drop
    ensures Without(xs, drop) == []
    decreases |xs|
  {
    if xs != [] {
      assert xs[|xs| - 1] in xs;
      assert forall s :: s in xs[..|xs| - 1] ==> s in xs;
      WithoutSuperset(xs[..|xs| - 1], drop);
    }
  }

  /** The slot lists handed to the optimizer. */
  datatype SlotPlan = SlotPlan(available: seq<string>, unavailable: seq<string>, ordered: seq<string>)

  /** The requested slots (all 21 when none were sent), the fixed slots not
      requested in fixed order, and the two concatenated: the optimizer's
      slot list starts with the available ones. */
  function PartitionSlots(requested: seq<string>): (r: SlotPlan)
    ensures requested != [] ==> r.available == requested
    ensures requested == [] ==> r.available == AllSlots && r.unavailable == []
    ensures forall s :: s in r.unavailable <==> s in AllSlots && s !in r.available
    ensures r.ordered == r.available + r.unavailable
    ensures forall s :: s in AllSlots ==> s in r.ordered
  {
    var available := if requested != [] then requested else AllSlots;
    var unavailable := Without(AllSlots, available);
    assert requested == [] ==> unavailable == [] by {
      if requested == [] {
        WithoutSuperset(AllSlots, available);
      }
    }
    SlotPlan(available, unavailable, available + unavailable)
  }

  lemma {:induction false} DistinctCount(s: seq<string>, z: string)
    requires Distinct(s)
    ensures multiset(s)[z] == if z in s then 1 else 0
    decreases |s|
  {
    if s != [] {
      var init, last := s[..|s| - 1], s[|s| - 1];
      assert s == init + [last];
      assert Distinct(init);
      DistinctCount(init, z);
    }
  }

  /** Listing some distinct elements of a distinct list first and the
      rest after them reorders the list. */
  lemma SplitIsPermutation(xs: seq<string>, front: seq<string>)
    requires Distinct(xs) && Distinct(front)
    requires forall s :: s in front ==> s in xs
    ensures multiset(front + Without(xs, front)) == multiset(xs)
  {
    var whole := front + Without(xs, front);
    WithoutKeepsDistinct(xs, front);
    DistinctAppend(front, Without(xs, front));
    forall z ensures multiset(whole)[z] == multiset(xs)[z] {
      DistinctCount(whole, z);
      DistinctCount(xs, z);
    }
  }

  /** When the client sends distinct slots of the fixed grid (as it always
      does), the optimizer sees each of the 21 slots exactly once. */
  lemma OrderedIsPermutation(requested: seq<string>)
    requires Distinct(requested)
    requires forall s :: s in requested ==> s in AllSlots
    ensures multiset(PartitionSlots(requested).ordered) == multiset(AllSlots)
  {
    FreeTime.AllSlotsDistinct();
    if requested == [] {
      assert PartitionSlots(requested).ordered == AllSlots;
    } else {
      SplitIsPermutation(AllSlots, requested);
    }
  }

  // ---------------------------------------------------------------------
  // The handler up to the optimizer call

  /** What the form submits as free time, once the server has ordered it,
      lists every grid slot exactly once. */
  lemma ClientSlotsCoverGrid(g: FreeTime.Grid)
    ensures multiset(PartitionSlots(FreeTime.FreeSlots(g)).ordered) == multiset(AllSlots)
  {
    var req := FreeTime.FreeSlots(g);
    FreeTime.FreeSlotsDistinct(g);
    forall s | s in req ensures s in AllSlots {
      FreeTime.FreeSlotsMembers(g, T2, Morning);
      var d, p :| FreeTime.IsFree(g, d, p) && s == SlotName(d, p);
      SlotNameListed(d, p);
    }
    OrderedIsPermutation(req);
  }

  /** The handler's outcome before the optimizer runs: an HTTP error status,
      or the resolved entries with the slot plan. */
  datatype Prepared =
    | Failed(status: int)
    | Ready(active: seq<Entry>, removed: seq<Removal>, used: seq<Substitution>, slots: SlotPlan)

  /** Every error inside the handler (a bad date, and an empty list after
      resolution, each raised as 400) is caught by the handler's outer
      exception clause and reported as 500. */
  const WrappedErrorStatus := 500

  method PrepareSchedule(subjects: seq<SubjectInput>, answers: seq<seq<Candidate>>, requested: seq<string>)
    returns (r: Prepared)
    requires SchemaValid(subjects)
    ensures r.Failed? <==> subjects == [] || exists k :: 0 <= k < |subjects| && !DatesParse(subjects[k])
    ensures r.Failed? ==> r.status == WrappedErrorStatus
    ensures r.Ready? ==>
      && |r.active| > 0
      && |r.active| + |r.removed| == |subjects|
      && r.slots == PartitionSlots(requested)
      && r.used == []
      && ConflictFree(r.active)
      && multiset(r.active) + multiset(Losers(r.removed)) == multiset(BuildEntries(subjects).value)
  {
    match BuildEntries(subjects)
    case None =>
      return Failed(WrappedErrorStatus);
    case Some(entries) =>
      ClientEntriesHaveNoAlternatives(subjects, answers);
      var active, removed, used := Resolve(entries, answers, requested);
      if active == [] {
        return Failed(WrappedErrorStatus);
      }
      return Ready(active, removed, used, PartitionSlots(requested));
  }

  /** A request as the client sends it never has alternatives, so every
      subject is either scheduled or reported as removed, and the survivors
      are pairwise conflict-free. */
  lemma ClientEntriesHaveNoAlternatives(subjects: seq<SubjectInput>, answers: seq<seq<Candidate>>)
    requires SchemaValid(subjects)
    requires BuildEntries(subjects).Some?
    ensures NoAlternatives(BuildEntries(subjects).value, answers)
  {
    var entries := BuildEntries(subjects).value;
    forall k | 0 <= k < |entries| ensures StripGroup(entries[k].code) == "" {
      assert entries[k].code == "";
    }
  }
}
