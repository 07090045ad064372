/** The optimizer's score of a candidate timetable: an individual assigns
    each subject (by position) the index of a time slot, and its penalty is
    the sum of independently stated rules. Lower is better; the score can
    be negative because two rules subtract. */
module Fitness {
  import opened Base

  /** The per-subject details the scoring reads. */
  datatype Detail = Detail(isRetake: bool, preferredDays: seq<string>)

  /** The extra constraint switches; a switch that was not sent is false. */
  datatype Flags = Flags(
    avoidConsecutive: bool,
    balanceDays: bool,
    preferMorning: bool,
    allowSaturday: bool)

  /** Everything the scoring reads besides the individual. Subjects are
      names; priorities and details are looked up by name. */
  datatype Problem = Problem(
    subjects: seq<string>,
    timeSlots: seq<string>,
    forbidden: map<string, seq<string>>,
    priorities: map<string, int>,
    flags: Flags,
    unavailable: seq<string>,
    details: map<string, Detail>)

  /** One slot index per subject, each a valid index into the slots. */
  predicate IsIndividual(pb: Problem, ind: seq<int>)
  {
    |ind| == |pb.subjects| && forall i :: 0 <= i < |ind| ==> 0 <= ind[i] < |pb.timeSlots|
  }

  const DefaultPriority := 5

  /** `priorities.get(name, 5)`. */
  function PriorityOf(pb: Problem, name: string): int
  {
    if name in pb.priorities then pb.priorities[name] else DefaultPriority
  }

  /** `subject_details.get(name, {})`, read with defaults. */
  function DetailOf(pb: Problem, name: string): Detail
  {
    if name in pb.details then pb.details[name] else Detail(false, [])
  }

  function SlotAt(pb: Problem, ind: seq<int>, i: nat): string
    requires IsIndividual(pb, ind) && i < |ind|
  {
    pb.timeSlots[ind[i]]
  }

  /** `slot.split('_')[0]`. */
  function DayOf(slot: string): string
  {
    BeforeFirst(slot, "_")
  }

  // ---------------------------------------------------------------------
  // Rule 1: several subjects in one slot

  const SlotTakenByLower := 1000
  const SlotTakenByHigherOrEqual := 1500

  /** Position of the first subject whose gene is `g`. */
  function FirstWith(ind: seq<int>, g: int): (k: nat)
    requires g in ind
    ensures k < |ind| && ind[k] == g && g !in ind[..k]
  {
    if ind[0] == g then 0
    else
      assert ind == [ind[0]] + ind[1..];
      assert ind[1..][..FirstWith(ind[1..], g)] == ind[1..1 + FirstWith(ind[1..], g)];
      assert ind[..1 + FirstWith(ind[1..], g)] == [ind[0]] + ind[1..][..FirstWith(ind[1..], g)];
      1 + FirstWith(ind[1..], g)
  }

  /** The first subject in a slot costs nothing; a later one costs 1000 if
      its priority exceeds the first occupant's, else 1500. */
  function CollisionAt(pb: Problem, ind: seq<int>, i: nat): (r: int)
    requires IsIndividual(pb, ind) && i < |ind|
    ensures r == 0 <==> ind[i] !in ind[..i]
    ensures r == 0 || r == SlotTakenByLower || r == SlotTakenByHigherOrEqual
  {
    if ind[i] !in ind[..i] then 0
    else
      var first := FirstWith(ind[..i], ind[i]);
      if PriorityOf(pb, pb.subjects[i]) > PriorityOf(pb, pb.subjects[first]) then SlotTakenByLower
      else SlotTakenByHigherOrEqual
  }

  function CollisionUpTo(pb: Problem, ind: seq<int>, n: nat): int
    requires IsIndividual(pb, ind) && n <= |ind|
  {
    if n == 0 then 0 else CollisionUpTo(pb, ind, n - 1) + CollisionAt(pb, ind, n - 1)
  }

  // ---------------------------------------------------------------------
  // Rule 2: forbidden slots of a subject

  /** 500, less 50 per priority point above 5 (more below 5). */
  function PriorityScaled(base: int, priority: int): int
  {
    base - (priority - DefaultPriority) * 50
  }

  function ForbiddenAt(pb: Problem, ind: seq<int>, i: nat): int
    requires IsIndividual(pb, ind) && i < |ind|
  {
    var name := pb.subjects[i];
    if name in pb.forbidden && SlotAt(pb, ind, i) in pb.forbidden[name]
    then PriorityScaled(500, PriorityOf(pb, name)) else 0
  }

  function ForbiddenUpTo(pb: Problem, ind: seq<int>, n: nat): int
    requires IsIndividual(pb, ind) && n <= |ind|
  {
    if n == 0 then 0 else ForbiddenUpTo(pb, ind, n - 1) + ForbiddenAt(pb, ind, n - 1)
  }

  // ---------------------------------------------------------------------
  // Rule 3: neighbours in the list on the same day

  function ConsecutiveAt(pb: Problem, ind: seq<int>, i: nat): int
    requires IsIndividual(pb, ind) && i + 1 < |ind|
  {
    if DayOf(SlotAt(pb, ind, i)) == DayOf(SlotAt(pb, ind, i + 1)) then 200 else 0
  }

  function ConsecutiveUpTo(pb: Problem, ind: seq<int>, n: nat): int
    requires IsIndividual(pb, ind) && (n == 0 || n < |ind|)
  {
    if n == 0 then 0 else ConsecutiveUpTo(pb, ind, n - 1) + ConsecutiveAt(pb, ind, n - 1)
  }

  /** The pairs (0,1) .. (len-2, len-1). */
  function ConsecutivePairs(pb: Problem, ind: seq<int>): int
    requires IsIndividual(pb, ind)
  {
    if |ind| == 0 then 0 else ConsecutiveUpTo(pb, ind, |ind| - 1)
  }

  // ---------------------------------------------------------------------
  // Rule 4: balance between days

  /** Number of subjects per day among the first `n`. */
  function DayCounts(pb: Problem, ind: seq<int>, n: nat): (m: map<string, int>)
    requires IsIndividual(pb, ind) && n <= |ind|
    ensures forall d :: d in m ==> m[d] >= 1
  {
    if n == 0 then map[]
    else
      var m := DayCounts(pb, ind, n - 1);
      var d := DayOf(SlotAt(pb, ind, n - 1));
      m[d := if d in m then m[d] + 1 else 1]
  }

  /** The days used among the first `n` subjects, in order of first use
      (the key order of the counting dictionary). */
  function DayOrder(pb: Problem, ind: seq<int>, n: nat): (r: seq<string>)
    requires IsIndividual(pb, ind) && n <= |ind|
    ensures Distinct(r)
    ensures forall d :: d in r <==> d in DayCounts(pb, ind, n)
    ensures |r| == 0 <==> n == 0
  {
    if n == 0 then []
    else
      var r := DayOrder(pb, ind, n - 1);
      var d := DayOf(SlotAt(pb, ind, n - 1));
      if d in r then r
      else
        DistinctAppend(r, [d]);
        r + [d]
  }

  /** `max` over the counts of the listed days. */
  function MaxOver(m: map<string, int>, ks: seq<string>): (r: int)
    requires ks != [] && forall k :: k in ks ==> k in m
    ensures exists j :: 0 <= j < |ks| && r == m[ks[j]]
    ensures forall j :: 0 <= j < |ks| ==> m[ks[j]] <= r
  {
    var last := ks[|ks| - 1];
    if |ks| == 1 then m[last]
    else
      var r := MaxOver(m, ks[..|ks| - 1]);
      assert forall j :: 0 <= j < |ks| - 1 ==> ks[..|ks| - 1][j] == ks[j];
      if m[last] > r then m[last] else r
  }

  /** `min` over the counts of the listed days. */
  function MinOver(m: map<string, int>, ks: seq<string>): (r: int)
    requires ks != [] && forall k :: k in ks ==> k in m
    ensures exists j :: 0 <= j < |ks| && r == m[ks[j]]
    ensures forall j :: 0 <= j < |ks| ==> r <= m[ks[j]]
  {
    var last := ks[|ks| - 1];
    if |ks| == 1 then m[last]
    else
      var r := MinOver(m, ks[..|ks| - 1]);
      assert forall j :: 0 <= j < |ks| - 1 ==> ks[..|ks| - 1][j] == ks[j];
      if m[last] < r then m[last] else r
  }

  /** 50 per unit of difference between the busiest and the quietest day
      that is used at all; nothing when no subject is placed. */
  function BalancePenalty(pb: Problem, ind: seq<int>): int
    requires IsIndividual(pb, ind)
  {
    if |ind| == 0 then 0
    else
      var m, order := DayCounts(pb, ind, |ind|), DayOrder(pb, ind, |ind|);
      (MaxOver(m, order) - MinOver(m, order)) * 50
  }

  // ---------------------------------------------------------------------
  // Rules 5 and 6: afternoons, Saturdays

  function AfternoonAt(pb: Problem, ind: seq<int>, i: nat): int
    requires IsIndividual(pb, ind) && i < |ind|
  {
    if Contains(SlotAt(pb, ind, i), "Chiều") then 100 else 0
  }

  function AfternoonUpTo(pb: Problem, ind: seq<int>, n: nat): int
    requires IsIndividual(pb, ind) && n <= |ind|
  {
    if n == 0 then 0 else AfternoonUpTo(pb, ind, n - 1) + AfternoonAt(pb, ind, n - 1)
  }

  function SaturdayAt(pb: Problem, ind: seq<int>, i: nat): int
    requires IsIndividual(pb, ind) && i < |ind|
  {
    if Contains(SlotAt(pb, ind, i), "T7") then 300 else 0
  }

  function SaturdayUpTo(pb: Problem, ind: seq<int>, n: nat): int
    requires IsIndividual(pb, ind) && n <= |ind|
  {
    if n == 0 then 0 else SaturdayUpTo(pb, ind, n - 1) + SaturdayAt(pb, ind, n - 1)
  }

  // ---------------------------------------------------------------------
  // Rule 7: per-subject adjustments

  function UnavailableAt(pb: Problem, ind: seq<int>, i: nat): int
    requires IsIndividual(pb, ind) && i < |ind|
  {
    if SlotAt(pb, ind, i) in pb.unavailable then PriorityScaled(800, PriorityOf(pb, pb.subjects[i])) else 0
  }

  function PreferredDayAt(pb: Problem, ind: seq<int>, i: nat): int
    requires IsIndividual(pb, ind) && i < |ind|
  {
    var days := DetailOf(pb, pb.subjects[i]).preferredDays;
    if days != [] && DayOf(SlotAt(pb, ind, i)) in days then -150 else 0
  }

  function EveningAt(pb: Problem, ind: seq<int>, i: nat): int
    requires IsIndividual(pb, ind) && i < |ind|
  {
    if !DetailOf(pb, pb.subjects[i]).isRetake && Contains(SlotAt(pb, ind, i), "Tối") then 80 else 0
  }

  function RetakeMorningAt(pb: Problem, ind: seq<int>, i: nat): int
    requires IsIndividual(pb, ind) && i < |ind|
  {
    if DetailOf(pb, pb.subjects[i]).isRetake && Contains(SlotAt(pb, ind, i), "Sáng") then -20 else 0
  }

  function SubjectAt(pb: Problem, ind: seq<int>, i: nat): int
    requires IsIndividual(pb, ind) && i < |ind|
  {
    UnavailableAt(pb, ind, i) + PreferredDayAt(pb, ind, i) + EveningAt(pb, ind, i) + RetakeMorningAt(pb, ind, i)
  }

  function SubjectUpTo(pb: Problem, ind: seq<int>, n: nat): int
    requires IsIndividual(pb, ind) && n <= |ind|
  {
    if n == 0 then 0 else SubjectUpTo(pb, ind, n - 1) + SubjectAt(pb, ind, n - 1)
  }

  function UnavailableUpTo(pb: Problem, ind: seq<int>, n: nat): int
    requires IsIndividual(pb, ind) && n <= |ind|
  {
    if n == 0 then 0 else UnavailableUpTo(pb, ind, n - 1) + UnavailableAt(pb, ind, n - 1)
  }

  // ---------------------------------------------------------------------
  // The whole score

  function Score(pb: Problem, ind: seq<int>): (r: int)
    requires IsIndividual(pb, ind)
    ensures PrioritiesAtMostTen(pb) ==> r >= -170 * |ind|
    ensures PrioritiesAtMostTen(pb) && !Distinct(ind) ==> r >= SlotTakenByLower - 170 * |ind|
  {
    ScoreTermsBounded(pb, ind);
    PriorityTermsBounded(pb, ind);
    var n := |ind|;
    CollisionUpTo(pb, ind, n)
    + ForbiddenUpTo(pb, ind, n)
    + (if pb.flags.avoidConsecutive then ConsecutivePairs(pb, ind) else 0)
    + (if pb.flags.balanceDays then BalancePenalty(pb, ind) else 0)
    + (if pb.flags.preferMorning then AfternoonUpTo(pb, ind, n) else 0)
    + (if !pb.flags.allowSaturday then SaturdayUpTo(pb, ind, n) else 0)
    + SubjectUpTo(pb, ind, n)
  }

  // ---------------------------------------------------------------------
  // The scoring as the source computes it

  lemma FirstWithUnique(s: seq<int>, g: int, k: nat)
    requires k < |s| && s[k] == g && g !in s[..k]
    ensures g in s && FirstWith(s, g) == k
  {
    assert forall j :: 0 <= j < k ==> s[j] != g by {
      forall j | 0 <= j < k ensures s[j] != g {
        assert s[..k][j] == s[j];
      }
    }
    var f := FirstWith(s, g);
    assert s[f] == g;
    assert !(f < k);
    assert forall j :: 0 <= j < f ==> s[..f][j] == s[j];
    assert !(k < f);
  }

  /** Appending a gene does not move the first occupant of a slot. */
  lemma FirstWithExtend(s: seq<int>, x: int, g: int)
    requires g in s
    ensures g in s + [x] && FirstWith(s + [x], g) == FirstWith(s, g)
  {
    var k := FirstWith(s, g);
    assert (s + [x])[..k] == s[..k];
    FirstWithUnique(s + [x], g, k);
  }

  /** `calculate_fitness`: the rules' loops in the source's order; the
      result is the score. */
  method CalculateFitness(pb: Problem, ind: seq<int>) returns (penalty: int)
    requires IsIndividual(pb, ind)
    ensures penalty == Score(pb, ind)
  {
    var collision := CollisionLoop(pb, ind);
    var forbidden := ForbiddenLoop(pb, ind);
    var consecutive := 0;
    if pb.flags.avoidConsecutive {
      consecutive := ConsecutiveLoop(pb, ind);
    }
    var balance := 0;
    if pb.flags.balanceDays {
      balance := BalanceLoop(pb, ind);
    }
    var afternoon := 0;
    if pb.flags.preferMorning {
      afternoon := AfternoonLoop(pb, ind);
    }
    var saturday := 0;
    if !pb.flags.allowSaturday {
      saturday := SaturdayLoop(pb, ind);
    }
    var perSubject := SubjectLoop(pb, ind);
    penalty := collision + forbidden + consecutive + balance + afternoon + saturday + perSubject;
  }

  /** Rule 1, with the dictionary from slot to its first occupant. */
  method CollisionLoop(pb: Problem, ind: seq<int>) returns (collision: int)
    requires IsIndividual(pb, ind)
    ensures collision == CollisionUpTo(pb, ind, |ind|)
  {
    collision := 0;
    var slotsUsed: map<int, string> := map[];
    for i := 0 to |ind|
      invariant collision == CollisionUpTo(pb, ind, i)
      invariant forall g :: g in slotsUsed <==> g in ind[..i]
      invariant forall g :: g in slotsUsed ==> g in ind[..i] && slotsUsed[g] == pb.subjects[FirstWith(ind[..i], g)]
    {
      var g := ind[i];
      assert ind[..i + 1] == ind[..i] + [g];
      if g in slotsUsed {
        var existing := slotsUsed[g];
        if PriorityOf(pb, pb.subjects[i]) > PriorityOf(pb, existing) {
          collision := collision + SlotTakenByLower;
        } else {
          collision := collision + SlotTakenByHigherOrEqual;
        }
      } else {
        slotsUsed := slotsUsed[g := pb.subjects[i]];
        FirstWithUnique(ind[..i + 1], g, i);
      }
      forall h | h in ind[..i]
        ensures FirstWith(ind[..i + 1], h) == FirstWith(ind[..i], h)
      {
        FirstWithExtend(ind[..i], g, h);
      }
    }
  }

  /** Rule 2. */
  method ForbiddenLoop(pb: Problem, ind: seq<int>) returns (forbidden: int)
    requires IsIndividual(pb, ind)
    ensures forbidden == ForbiddenUpTo(pb, ind, |ind|)
  {
    forbidden := 0;
    for i := 0 to |ind|
      invariant forbidden == ForbiddenUpTo(pb, ind, i)
    {
      var name := pb.subjects[i];
      if name in pb.forbidden {
        var slot := pb.timeSlots[ind[i]];
        if slot in pb.forbidden[name] {
          forbidden := forbidden + PriorityScaled(500, PriorityOf(pb, name));
        }
      }
    }
  }

  /** Rule 3: `for i in range(len(individual) - 1)`. */
  method ConsecutiveLoop(pb: Problem, ind: seq<int>) returns (consecutive: int)
    requires IsIndividual(pb, ind)
    ensures consecutive == ConsecutivePairs(pb, ind)
  {
    consecutive := 0;
    if |ind| > 0 {
      for i := 0 to |ind| - 1
        invariant consecutive == ConsecutiveUpTo(pb, ind, i)
      {
        assert ConsecutiveUpTo(pb, ind, i + 1) == ConsecutiveUpTo(pb, ind, i) + ConsecutiveAt(pb, ind, i);
        if DayOf(pb.timeSlots[ind[i]]) == DayOf(pb.timeSlots[ind[i + 1]]) {
          consecutive := consecutive + 200;
        }
      }
    }
  }

  /** A subject on a day not counted yet appends the day to the order and
      counts it once. */
  lemma DayStepNew(pb: Problem, ind: seq<int>, i: nat)
    requires IsIndividual(pb, ind) && i < |ind|
    requires DayOf(SlotAt(pb, ind, i)) !in DayCounts(pb, ind, i)
    ensures DayCounts(pb, ind, i + 1) == DayCounts(pb, ind, i)[DayOf(SlotAt(pb, ind, i)) := 1]
    ensures DayOrder(pb, ind, i + 1) == DayOrder(pb, ind, i) + [DayOf(SlotAt(pb, ind, i))]
  {
  }

  /** A subject on a day already counted adds one to its count. */
  lemma DayStepSeen(pb: Problem, ind: seq<int>, i: nat)
    requires IsIndividual(pb, ind) && i < |ind|
    requires DayOf(SlotAt(pb, ind, i)) in DayCounts(pb, ind, i)
    ensures DayCounts(pb, ind, i + 1)
         == DayCounts(pb, ind, i)[DayOf(SlotAt(pb, ind, i)) := DayCounts(pb, ind, i)[DayOf(SlotAt(pb, ind, i))] + 1]
    ensures DayOrder(pb, ind, i + 1) == DayOrder(pb, ind, i)
  {
  }

  /** The counted days are exactly the days of the placed subjects. */
  lemma {:induction false} DayCountsKeys(pb: Problem, ind: seq<int>, n: nat)
    requires IsIndividual(pb, ind) && n <= |ind|
    ensures forall d :: d in DayCounts(pb, ind, n) <==> exists i :: 0 <= i < n && DayOf(SlotAt(pb, ind, i)) == d
  {
    if n > 0 {
      DayCountsKeys(pb, ind, n - 1);
    }
  }

  lemma EmptyCountsOnlyForNoSubjects(pb: Problem, ind: seq<int>)
    requires IsIndividual(pb, ind)
    ensures DayCounts(pb, ind, |ind|) == map[] <==> |ind| == 0
  {
    if |ind| > 0 {
      DayCountsKeys(pb, ind, |ind|);
      assert DayOf(SlotAt(pb, ind, 0)) in DayCounts(pb, ind, |ind|);
    }
  }

  /** The counting loop of rule 4: the dictionary from day to count, and
      its keys in order of first use. */
  method CountDays(pb: Problem, ind: seq<int>) returns (dayCounts: map<string, int>, order: seq<string>)
    requires IsIndividual(pb, ind)
    ensures dayCounts == DayCounts(pb, ind, |ind|)
    ensures order == DayOrder(pb, ind, |ind|)
  {
    dayCounts, order := map[], [];
    for i := 0 to |ind|
      invariant dayCounts == DayCounts(pb, ind, i)
      invariant order == DayOrder(pb, ind, i)
    {
      var day := DayOf(pb.timeSlots[ind[i]]);
      assert day == DayOf(SlotAt(pb, ind, i));
      if day !in dayCounts {
        DayStepNew(pb, ind, i);
        order := order + [day];
        dayCounts := dayCounts[day := 1];
      } else {
        DayStepSeen(pb, ind, i);
        dayCounts := dayCounts[day := dayCounts[day] + 1];
      }
    }
  }

  /** Rule 4: busiest minus quietest day, when any day is counted. */
  method BalanceLoop(pb: Problem, ind: seq<int>) returns (balance: int)
    requires IsIndividual(pb, ind)
    ensures balance == BalancePenalty(pb, ind)
  {
    var dayCounts, order := CountDays(pb, ind);
    EmptyCountsOnlyForNoSubjects(pb, ind);
    balance := 0;
    if dayCounts != map[] {
      balance := (MaxOver(dayCounts, order) - MinOver(dayCounts, order)) * 50;
    }
  }

  /** Rule 5. */
  method AfternoonLoop(pb: Problem, ind: seq<int>) returns (afternoon: int)
    requires IsIndividual(pb, ind)
    ensures afternoon == AfternoonUpTo(pb, ind, |ind|)
  {
    afternoon := 0;
    for i := 0 to |ind|
      invariant afternoon == AfternoonUpTo(pb, ind, i)
    {
      if Contains(pb.timeSlots[ind[i]], "Chiều") {
        afternoon := afternoon + 100;
      }
    }
  }

  /** Rule 6. */
  method SaturdayLoop(pb: Problem, ind: seq<int>) returns (saturday: int)
    requires IsIndividual(pb, ind)
    ensures saturday == SaturdayUpTo(pb, ind, |ind|)
  {
    saturday := 0;
    for i := 0 to |ind|
      invariant saturday == SaturdayUpTo(pb, ind, i)
    {
      if Contains(pb.timeSlots[ind[i]], "T7") {
        saturday := saturday + 300;
      }
    }
  }

  /** Rule 7. */
  method SubjectLoop(pb: Problem, ind: seq<int>) returns (perSubject: int)
    requires IsIndividual(pb, ind)
    ensures perSubject == SubjectUpTo(pb, ind, |ind|)
  {
    perSubject := 0;
    for i := 0 to |ind|
      invariant perSubject == SubjectUpTo(pb, ind, i)
    {
      var name, slot := pb.subjects[i], pb.timeSlots[ind[i]];
      var step := 0;
      if slot in pb.unavailable {
        step := step + PriorityScaled(800, PriorityOf(pb, name));
      }
      var detail := DetailOf(pb, name);
      if detail.preferredDays != [] && DayOf(slot) in detail.preferredDays {
        step := step - 150;
      }
      if !detail.isRetake && Contains(slot, "Tối") {
        step := step + 80;
      }
      if detail.isRetake && Contains(slot, "Sáng") {
        step := step - 20;
      }
      perSubject := perSubject + step;
    }
  }

  // ---------------------------------------------------------------------
  // What the score means

  /** No slot is shared among the first `n` subjects. */
  predicate NoRepeatUpTo(ind: seq<int>, n: nat)
    requires n <= |ind|
  {
    forall j :: 0 <= j < n ==> ind[j] !in ind[..j]
  }

  lemma {:induction false} CollisionUpToZero(pb: Problem, ind: seq<int>, n: nat)
    requires IsIndividual(pb, ind) && n <= |ind|
    ensures CollisionUpTo(pb, ind, n) >= 0
    ensures CollisionUpTo(pb, ind, n) == 0 <==> NoRepeatUpTo(ind, n)
    ensures !NoRepeatUpTo(ind, n) ==> CollisionUpTo(pb, ind, n) >= SlotTakenByLower
  {
    if n > 0 {
      CollisionUpToZero(pb, ind, n - 1);
    }
  }

  lemma NoRepeatIsDistinct(ind: seq<int>)
    ensures NoRepeatUpTo(ind, |ind|) <==> Distinct(ind)
  {
    if Distinct(ind) {
      forall j | 0 <= j < |ind| ensures ind[j] !in ind[..j] {
        forall i | 0 <= i < j ensures ind[..j][i] != ind[j] {
          assert ind[..j][i] == ind[i];
        }
      }
    }
    if NoRepeatUpTo(ind, |ind|) {
      forall i, j | 0 <= i < j < |ind| ensures ind[i] != ind[j] {
        assert ind[..j][i] == ind[i];
      }
    }
  }

  /** The first rule costs nothing exactly when every subject has a slot
      of its own, and at least 1000 otherwise. */
  lemma CollisionFreeIffDistinct(pb: Problem, ind: seq<int>)
    requires IsIndividual(pb, ind)
    ensures CollisionUpTo(pb, ind, |ind|) == 0 <==> Distinct(ind)
    ensures !Distinct(ind) ==> CollisionUpTo(pb, ind, |ind|) >= SlotTakenByLower
  {
    CollisionUpToZero(pb, ind, |ind|);
    NoRepeatIsDistinct(ind);
  }

  /** Every priority the server hands over is at most 10. */
  predicate PrioritiesAtMostTen(pb: Problem)
  {
    forall name :: name in pb.priorities ==> pb.priorities[name] <= 10
  }

  /** The slot list is the available slots followed by the unavailable
      ones, and no slot is in both. */
  predicate AvailableFirst(pb: Problem, available: seq<string>)
  {
    && pb.timeSlots == available + pb.unavailable
    && forall slot :: slot in available ==> slot !in pb.unavailable
  }

  lemma {:induction false} UnavailableUpToZero(pb: Problem, ind: seq<int>, available: seq<string>, n: nat)
    requires IsIndividual(pb, ind) && n <= |ind|
    requires PrioritiesAtMostTen(pb) && AvailableFirst(pb, available)
    ensures UnavailableUpTo(pb, ind, n) >= 0
    ensures UnavailableUpTo(pb, ind, n) == 0 <==> forall i :: 0 <= i < n ==> ind[i] < |available|
  {
    if n > 0 {
      UnavailableUpToZero(pb, ind, available, n - 1);
      var i := n - 1;
      if ind[i] < |available| {
        assert SlotAt(pb, ind, i) == available[ind[i]];
      } else {
        assert SlotAt(pb, ind, i) == pb.unavailable[ind[i] - |available|];
      }
    }
  }

  /** With the available slots listed first, a subject pays the
      unavailable-slot penalty exactly when its gene points past them. */
  lemma UnavailablePenaltyIffPastAvailable(pb: Problem, ind: seq<int>, available: seq<string>)
    requires IsIndividual(pb, ind)
    requires PrioritiesAtMostTen(pb) && AvailableFirst(pb, available)
    ensures UnavailableUpTo(pb, ind, |ind|) == 0 <==> forall i :: 0 <= i < |ind| ==> ind[i] < |available|
    ensures forall i :: 0 <= i < |ind| && ind[i] >= |available| ==> UnavailableAt(pb, ind, i) >= 550
  {
    UnavailableUpToZero(pb, ind, available, |ind|);
    forall i | 0 <= i < |ind| && ind[i] >= |available| ensures UnavailableAt(pb, ind, i) >= 550 {
      assert SlotAt(pb, ind, i) == pb.unavailable[ind[i] - |available|];
    }
  }

  lemma {:induction false} SaturdayUpToZero(pb: Problem, ind: seq<int>, n: nat)
    requires IsIndividual(pb, ind) && n <= |ind|
    ensures SaturdayUpTo(pb, ind, n) >= 0
    ensures SaturdayUpTo(pb, ind, n) == 0 <==> forall i :: 0 <= i < n ==> !Contains(SlotAt(pb, ind, i), "T7")
  {
    if n > 0 {
      SaturdayUpToZero(pb, ind, n - 1);
    }
  }

  /** Unless Saturdays are allowed, the sixth rule costs nothing exactly
      when no subject sits in a Saturday slot. */
  lemma SaturdayFreeIffNoT7(pb: Problem, ind: seq<int>)
    requires IsIndividual(pb, ind)
    ensures SaturdayUpTo(pb, ind, |ind|) == 0 <==> forall i :: 0 <= i < |ind| ==> !Contains(SlotAt(pb, ind, i), "T7")
  {
    SaturdayUpToZero(pb, ind, |ind|);
  }

  lemma {:induction false} ForbiddenUpToZero(pb: Problem, ind: seq<int>, n: nat)
    requires IsIndividual(pb, ind) && n <= |ind| && PrioritiesAtMostTen(pb)
    ensures ForbiddenUpTo(pb, ind, n) >= 0
    ensures ForbiddenUpTo(pb, ind, n) == 0 <==>
      forall i :: 0 <= i < n && pb.subjects[i] in pb.forbidden ==> SlotAt(pb, ind, i) !in pb.forbidden[pb.subjects[i]]
  {
    if n > 0 {
      ForbiddenUpToZero(pb, ind, n - 1);
    }
  }

  /** With priorities of at most 10 each violation costs at least 250, so
      the second rule costs nothing exactly when no subject sits in one of
      its forbidden slots. */
  lemma ForbiddenFreeIffRespected(pb: Problem, ind: seq<int>)
    requires IsIndividual(pb, ind) && PrioritiesAtMostTen(pb)
    ensures ForbiddenUpTo(pb, ind, |ind|) == 0 <==>
      forall i :: 0 <= i < |ind| && pb.subjects[i] in pb.forbidden ==> SlotAt(pb, ind, i) !in pb.forbidden[pb.subjects[i]]
    ensures forall i :: 0 <= i < |ind| ==> ForbiddenAt(pb, ind, i) == 0 || ForbiddenAt(pb, ind, i) >= 250
  {
    ForbiddenUpToZero(pb, ind, |ind|);
  }

  /** The balance rule charges 50 per unit between the largest and the
      smallest day count, so it is zero exactly when every used day holds
      the same number of subjects. */
  lemma BalanceZeroIffEven(pb: Problem, ind: seq<int>)
    requires IsIndividual(pb, ind)
    ensures BalancePenalty(pb, ind) >= 0
    ensures BalancePenalty(pb, ind) == 0 <==>
      forall d, e :: d in DayCounts(pb, ind, |ind|) && e in DayCounts(pb, ind, |ind|) ==>
        DayCounts(pb, ind, |ind|)[d] == DayCounts(pb, ind, |ind|)[e]
  {
    EmptyCountsOnlyForNoSubjects(pb, ind);
    if |ind| > 0 {
      SpreadZeroIffEqual(DayCounts(pb, ind, |ind|), DayOrder(pb, ind, |ind|));
    }
  }

  /** Over a key list that names exactly the map's keys, the largest and
      the smallest count agree iff all counts are equal. */
  lemma SpreadZeroIffEqual(m: map<string, int>, ks: seq<string>)
    requires ks != [] && forall k :: k in ks <==> k in m
    ensures MinOver(m, ks) <= MaxOver(m, ks)
    ensures MaxOver(m, ks) == MinOver(m, ks) <==> forall d, e :: d in m && e in m ==> m[d] == m[e]
  {
    var hi, lo := MaxOver(m, ks), MinOver(m, ks);
    forall d | d in m ensures lo <= m[d] <= hi {
      var j :| 0 <= j < |ks| && ks[j] == d;
    }
    if hi == lo {
      forall d, e | d in m && e in m ensures m[d] == m[e] {
        assert lo <= m[d] <= hi && lo <= m[e] <= hi;
      }
    }
    var jh :| 0 <= jh < |ks| && hi == m[ks[jh]];
    var jl :| 0 <= jl < |ks| && lo == m[ks[jl]];
    assert ks[jh] in m && ks[jl] in m;
  }

  lemma {:induction false} ConsecutiveUpToNonNegative(pb: Problem, ind: seq<int>, n: nat)
    requires IsIndividual(pb, ind) && (n == 0 || n < |ind|)
    ensures ConsecutiveUpTo(pb, ind, n) >= 0
  {
    if n > 0 {
      ConsecutiveUpToNonNegative(pb, ind, n - 1);
    }
  }

  lemma {:induction false} AfternoonUpToNonNegative(pb: Problem, ind: seq<int>, n: nat)
    requires IsIndividual(pb, ind) && n <= |ind|
    ensures AfternoonUpTo(pb, ind, n) >= 0
  {
    if n > 0 {
      AfternoonUpToNonNegative(pb, ind, n - 1);
    }
  }

  /** The only negative per-subject terms are the preferred-day bonus (150)
      and the retake morning bonus (20). */
  lemma {:induction false} SubjectUpToBounded(pb: Problem, ind: seq<int>, n: nat)
    requires IsIndividual(pb, ind) && n <= |ind| && PrioritiesAtMostTen(pb)
    ensures SubjectUpTo(pb, ind, n) >= -170 * n
  {
    if n > 0 {
      SubjectUpToBounded(pb, ind, n - 1);
      assert PriorityOf(pb, pb.subjects[n - 1]) <= 10;
    }
  }

  /** The rules that hold no bonus are never negative, and a shared slot
      costs at least 1000. */
  lemma ScoreTermsBounded(pb: Problem, ind: seq<int>)
    requires IsIndividual(pb, ind)
    ensures CollisionUpTo(pb, ind, |ind|) >= 0
    ensures !Distinct(ind) ==> CollisionUpTo(pb, ind, |ind|) >= SlotTakenByLower
    ensures ConsecutivePairs(pb, ind) >= 0 && BalancePenalty(pb, ind) >= 0
    ensures AfternoonUpTo(pb, ind, |ind|) >= 0 && SaturdayUpTo(pb, ind, |ind|) >= 0
  {
    var n := |ind|;
    assert CollisionUpTo(pb, ind, n) >= 0 && (!Distinct(ind) ==> CollisionUpTo(pb, ind, n) >= SlotTakenByLower) by {
      CollisionFreeIffDistinct(pb, ind);
    }
    assert ConsecutivePairs(pb, ind) >= 0 by {
      if n > 0 {
        ConsecutiveUpToNonNegative(pb, ind, n - 1);
      }
    }
    assert BalancePenalty(pb, ind) >= 0 by {
      BalanceZeroIffEven(pb, ind);
    }
    assert SaturdayUpTo(pb, ind, n) >= 0 by {
      SaturdayUpToZero(pb, ind, n);
    }
    AfternoonUpToNonNegative(pb, ind, n);
  }

  /** With priorities of at most 10 the forbidden-slot rule is never
      negative and the per-subject rule loses at most 170 per subject. */
  lemma PriorityTermsBounded(pb: Problem, ind: seq<int>)
    requires IsIndividual(pb, ind)
    ensures PrioritiesAtMostTen(pb) ==>
      ForbiddenUpTo(pb, ind, |ind|) >= 0 && SubjectUpTo(pb, ind, |ind|) >= -170 * |ind|
  {
    if PrioritiesAtMostTen(pb) {
      assert ForbiddenUpTo(pb, ind, |ind|) >= 0 by {
        ForbiddenUpToZero(pb, ind, |ind|);
      }
      SubjectUpToBounded(pb, ind, |ind|);
    }
  }

}
