/** The server's view of the submitted subjects during conflict
    resolution: entries with a recomputed priority, the date-and-time
    overlap test, the scan for conflicting pairs, and the rule that decides
    which entry of a pair is kept. */
module Conflicts {
  import opened Base
  import opened Codes
  import opened Clock
  import opened Slots

  /** One entry of the working list. `code` is "" for a subject as the
      client submits it (the request schema has no code field, so the value
      read back is empty); an alternative session taken from the catalog
      carries its own code. Dates are day numbers. */
  datatype Entry = Entry(
    name: string,
    code: string,
    priority: int,
    isRetake: bool,
    start: int,
    end: int,
    startTime: Minutes,
    endTime: Minutes,
    originalIndex: nat)

  // ---------------------------------------------------------------------
  // Priority

  const DefaultPriority := 5
  const RetakeBonus := 2
  const MaxPriority := 10

  /** `calc_priority`: the submitted priority (schema range 1..10, so the
      `or 5` fallback never applies), two more for a retake, at most 10. */
  function CalcPriority(priority: int, isRetake: bool): (r: int)
    requires 1 <= priority <= 10
    ensures 1 <= r <= 10
    ensures priority <= r
    ensures !isRetake ==> r == priority
    ensures isRetake ==> (r == 10 || r == priority + 2) && (priority <= 8 ==> r == priority + 2)
  {
    var base := priority + (if isRetake then RetakeBonus else 0);
    if base < MaxPriority then base else MaxPriority
  }

  // ---------------------------------------------------------------------
  // Overlap

  /** The date test of `find_conflicts`: one start date lies in the other's
      range. */
  predicate DatesOverlap(a: Entry, b: Entry)
  {
    (b.start <= a.start <= b.end) || (a.start <= b.start <= a.end)
  }

  /** The time test: the class hours intersect in more than a point. */
  predicate TimesOverlap(a: Entry, b: Entry)
  {
    a.startTime < b.endTime && a.endTime > b.startTime
  }

  predicate Conflict(a: Entry, b: Entry)
    ensures Conflict(a, b) <==> DatesOverlap(b, a) && TimesOverlap(b, a)
  {
    DatesOverlap(a, b) && TimesOverlap(a, b)
  }

  /** For well-formed ranges the date test is interval intersection: the
      later start is not after the earlier end. */
  lemma DatesOverlapIsIntersection(a: Entry, b: Entry)
    requires a.start <= a.end && b.start <= b.end
    ensures DatesOverlap(a, b) <==> Max(a.start, b.start) <= Min(a.end, b.end)
  {
  }

  function Max(x: int, y: int): int { if x < y then y else x }
  function Min(x: int, y: int): int { if x < y then x else y }

  /** The test does not depend on the order of the pair. */
  lemma ConflictSymmetric(a: Entry, b: Entry)
    ensures Conflict(a, b) <==> Conflict(b, a)
  {
  }

  /** A subject with a non-empty class time conflicts with itself (and so
      with an exact copy). */
  lemma ConflictReflexive(a: Entry)
    requires a.start <= a.end && a.startTime < a.endTime
    ensures Conflict(a, a)
  {
  }

  // ---------------------------------------------------------------------
  // The scan for conflicting pairs

  /** Lexicographic order on index pairs. */
  predicate PairBefore(p: (nat, nat), q: (nat, nat))
  {
    p.0 < q.0 || (p.0 == q.0 && p.1 < q.1)
  }

  /** The scan's output lists exactly the conflicting index pairs i < j. */
  predicate IsConflictPair(items: seq<Entry>, p: (nat, nat))
  {
    p.0 < p.1 < |items| && Conflict(items[p.0], items[p.1])
  }

  predicate StrictlySorted(pairs: seq<(nat, nat)>)
  {
    forall k, l :: 0 <= k < l < |pairs| ==> PairBefore(pairs[k], pairs[l])
  }

  /** `find_conflicts`: the nested index loops that append each
      conflicting pair (i, j), i < j, in the order they are met. */
  method FindConflicts(items: seq<Entry>) returns (pairs: seq<(nat, nat)>)
    ensures forall p: (nat, nat) :: p in pairs <==> IsConflictPair(items, p)
    ensures StrictlySorted(pairs)
  {
    pairs := [];
    var n := |items|;
    for i := 0 to n
      invariant forall p: (nat, nat) :: p in pairs <==> IsConflictPair(items, p) && p.0 < i
      invariant StrictlySorted(pairs)
      invariant forall p: (nat, nat) :: p in pairs ==> p.0 < i
    {
      for j := i + 1 to n
        invariant forall p: (nat, nat) :: p in pairs <==> IsConflictPair(items, p) && (p.0 < i || (p.0 == i && p.1 < j))
        invariant StrictlySorted(pairs)
        invariant forall p: (nat, nat) :: p in pairs ==> p.0 < i || (p.0 == i && p.1 < j)
      {
        if Conflict(items[i], items[j]) {
          pairs := pairs + [(i, j)];
        }
      }
    }
  }

  /** The first pair the scan reports: the smallest conflicting pair. */
  lemma FirstPairIsSmallest(items: seq<Entry>, pairs: seq<(nat, nat)>)
    requires forall p: (nat, nat) :: p in pairs <==> IsConflictPair(items, p)
    requires StrictlySorted(pairs)
    requires pairs != []
    ensures IsConflictPair(items, pairs[0])
    ensures forall p: (nat, nat) :: IsConflictPair(items, p) && p != pairs[0] ==> PairBefore(pairs[0], p)
  {
    forall p: (nat, nat) | IsConflictPair(items, p) && p != pairs[0] ensures PairBefore(pairs[0], p) {
      var k :| 0 <= k < |pairs| && pairs[k] == p;
    }
  }

  /** An empty scan means no two entries conflict. */
  predicate ConflictFree(items: seq<Entry>)
  {
    forall i, j :: 0 <= i < j < |items| ==> !Conflict(items[i], items[j])
  }

  lemma EmptyScanIsConflictFree(items: seq<Entry>, pairs: seq<(nat, nat)>)
    requires forall p: (nat, nat) :: p in pairs <==> IsConflictPair(items, p)
    ensures pairs == [] <==> ConflictFree(items)
  {
    if !ConflictFree(items) {
      var i, j :| 0 <= i < j < |items| && Conflict(items[i], items[j]);
      assert IsConflictPair(items, (i, j));
    }
    if pairs != [] {
      assert IsConflictPair(items, pairs[0]);
    }
  }

  // ---------------------------------------------------------------------
  // Which entry of a pair is kept

  /** The keep/remove rule for the pair (a, b): the higher priority; on a
      tie the retake if exactly one is a retake; then the smaller original
      index; then the earlier (or equal) start date, which keeps `a` when
      everything ties. */
  function KeepsFirst(a: Entry, b: Entry): (r: bool)
    ensures a.priority > b.priority ==> r
    ensures b.priority > a.priority ==> !r
    ensures r ==> a.priority >= b.priority
    ensures !r ==> b.priority >= a.priority
  {
    if a.priority > b.priority then true
    else if b.priority > a.priority then false
    else if a.isRetake && !b.isRetake then true
    else if b.isRetake && !a.isRetake then false
    else if a.originalIndex < b.originalIndex then true
    else if b.originalIndex < a.originalIndex then false
    else a.start <= b.start
  }

  /** The four keys the rule compares, in order. */
  predicate SameKeys(a: Entry, b: Entry)
  {
    a.priority == b.priority && a.isRetake == b.isRetake
    && a.originalIndex == b.originalIndex && a.start == b.start
  }

  /** The rule is an order on the four keys: unless the two entries tie on
      all of them, the same entry is kept whichever comes first in the pair. */
  lemma KeptEntryIndependentOfOrder(a: Entry, b: Entry)
    ensures !SameKeys(a, b) ==> KeepsFirst(a, b) == !KeepsFirst(b, a)
    ensures SameKeys(a, b) ==> KeepsFirst(a, b) && KeepsFirst(b, a)
  {
  }

  /** Raising an entry's priority never makes it lose a pair it won. */
  lemma KeepsFirstMonotone(a: Entry, b: Entry, p: int)
    requires KeepsFirst(a, b) && p >= a.priority
    ensures KeepsFirst(a.(priority := p), b)
  {
  }

  /** On equal priority a retake is kept over a regular subject, whichever
      comes first in the pair. */
  lemma RetakeWinsPriorityTie(a: Entry, b: Entry)
    requires a.priority == b.priority && a.isRetake && !b.isRetake
    ensures KeepsFirst(a, b) && !KeepsFirst(b, a)
  {
  }

  /** When priority, retake status and original index all tie, the entry
      with the earlier or equal start date is kept. */
  lemma StartDateDecidesLastTie(a: Entry, b: Entry)
    requires a.priority == b.priority && a.isRetake == b.isRetake
    requires a.originalIndex == b.originalIndex
    ensures KeepsFirst(a, b) <==> a.start <= b.start
  {
  }

  /** Two subjects submitted with one original index apart (indices are
      distinct in a request) are never decided by start date: when priority
      and retake status tie, the earlier submission is kept. */
  lemma EarlierSubmissionWinsTies(a: Entry, b: Entry)
    requires a.priority == b.priority && a.isRetake == b.isRetake
    requires a.originalIndex < b.originalIndex
    ensures KeepsFirst(a, b) && !KeepsFirst(b, a)
  {
  }

  // ---------------------------------------------------------------------
  // Alternative sessions

  /** The period of an alternative's start time: "07:00" to "11:30"
      inclusive is morning, "12:30" to "17:00" inclusive afternoon, anything
      else (including the gaps) evening. */
  function PeriodOf(t: Minutes): (p: Period)
    ensures p == Morning <==> Seven <= t <= ElevenThirty
    ensures p == Afternoon <==> TwelveThirty <= t <= Seventeen
  {
    if Seven <= t <= ElevenThirty then Morning
    else if TwelveThirty <= t <= Seventeen then Afternoon
    else Evening
  }

  /** Python's `x <= y` on strings. */
  predicate LexAtMost(a: string, b: string)
  {
    LexLess(a, b) || a == b
  }

  /** The period computed on minutes is the one the source computes by
      comparing the zero-padded texts. */
  lemma PeriodOfAgreesWithText(t: Minutes)
    ensures PeriodOf(t) == Morning <==>
      LexAtMost(ClockText(Seven), ClockText(t)) && LexAtMost(ClockText(t), ClockText(ElevenThirty))
    ensures PeriodOf(t) == Afternoon <==>
      LexAtMost(ClockText(TwelveThirty), ClockText(t)) && LexAtMost(ClockText(t), ClockText(Seventeen))
  {
    ClockOrderAgrees(Seven, t); ClockTextInjective(Seven, t);
    ClockOrderAgrees(t, ElevenThirty); ClockTextInjective(t, ElevenThirty);
    ClockOrderAgrees(TwelveThirty, t); ClockTextInjective(TwelveThirty, t);
    ClockOrderAgrees(t, Seventeen); ClockTextInjective(t, Seventeen);
  }

  /** A catalog session offered as a replacement: its own name, code,
      dates and times, and the day its course record gives ("T2" when it has
      none). */
  datatype Candidate = Candidate(
    name: string,
    code: string,
    start: int,
    end: int,
    startTime: Minutes,
    endTime: Minutes,
    day: string)

  /** The entry a candidate becomes: it inherits the replaced entry's
      priority, retake flag and original index. */
  function AsEntry(c: Candidate, replaced: Entry): (e: Entry)
    ensures e.priority == replaced.priority && e.isRetake == replaced.isRetake
    ensures e.originalIndex == replaced.originalIndex
    ensures e.name == c.name && e.code == c.code
    ensures e.start == c.start && e.end == c.end && e.startTime == c.startTime && e.endTime == c.endTime
  {
    Entry(c.name, c.code, replaced.priority, replaced.isRetake, c.start, c.end, c.startTime, c.endTime,
          replaced.originalIndex)
  }

  /** A candidate is usable when it does not conflict with the kept entry
      nor with any active entry other than those sharing the replaced
      entry's code. */
  predicate Usable(c: Candidate, keep: Entry, active: seq<Entry>, replaced: Entry)
    ensures Usable(c, keep, active, replaced) <==>
      !Conflict(AsEntry(c, replaced), keep)
      && forall k :: 0 <= k < |active| && active[k].code != replaced.code ==> !Conflict(AsEntry(c, replaced), active[k])
  {
    var e := AsEntry(c, replaced);
    !Conflict(e, keep)
    && forall k :: 0 <= k < |active| && active[k].code != replaced.code ==> !Conflict(active[k], e)
  }

  /** The usable candidates, in catalog order. */
  function UsableCandidates(cands: seq<Candidate>, keep: Entry, active: seq<Entry>, replaced: Entry): (r: seq<Candidate>)
    ensures forall c :: c in r <==> c in cands && Usable(c, keep, active, replaced)
    ensures |r| <= |cands|
  {
    if cands == [] then []
    else
      var rest := UsableCandidates(cands[1..], keep, active, replaced);
      assert cands == [cands[0]] + cands[1..];
      if Usable(cands[0], keep, active, replaced) then [cands[0]] + rest else rest
  }

  /** The slot token of a candidate. */
  function CandidateSlot(c: Candidate): string
  {
    c.day + Separator + PeriodLabel(PeriodOf(c.startTime))
  }

  /** The first candidate whose slot is among the requested slots, else the
      first candidate. */
  function ChooseCandidate(cands: seq<Candidate>, requested: seq<string>): (r: Candidate)
    requires cands != []
    ensures r in cands
    ensures (exists c :: c in cands && CandidateSlot(c) in requested) ==> CandidateSlot(r) in requested
    ensures (exists k :: 0 <= k < |cands| && CandidateSlot(cands[k]) in requested
              && r == cands[k] && forall l :: 0 <= l < k ==> CandidateSlot(cands[l]) !in requested)
         || ((forall c :: c in cands ==> CandidateSlot(c) !in requested) && r == cands[0])
  {
    FirstInRequested(cands, requested, 0)
  }

  function FirstInRequested(cands: seq<Candidate>, requested: seq<string>, from: nat): (r: Candidate)
    requires cands != [] && from <= |cands|
    requires forall l :: 0 <= l < from ==> CandidateSlot(cands[l]) !in requested
    ensures r in cands
    ensures (exists c :: c in cands && CandidateSlot(c) in requested) ==> CandidateSlot(r) in requested
    ensures (exists k :: 0 <= k < |cands| && CandidateSlot(cands[k]) in requested
              && r == cands[k] && forall l :: 0 <= l < k ==> CandidateSlot(cands[l]) !in requested)
         || ((forall c :: c in cands ==> CandidateSlot(c) !in requested) && r == cands[0])
    decreases |cands| - from
  {
    if from == |cands| then cands[0]
    else if CandidateSlot(cands[from]) in requested then cands[from]
    else FirstInRequested(cands, requested, from + 1)
  }
}
