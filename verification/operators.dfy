/** The optimizer's deterministic steps around the random draws: building
    an individual, one-point crossover, mutation of one gene in place, and
    decoding the best individual into placed subjects. Every random number
    is a parameter, constrained to the range it is drawn from. */
module Operators {
  import opened Base
  import opened Slots
  import opened Fitness
  import Resolution

  /** `random.randint(lo, hi)` draws from `lo..hi` inclusive and raises
      when the range is empty. */
  predicate RangeEmpty(lo: int, hi: int)
  {
    lo > hi
  }

  predicate DrawnFrom(x: int, lo: int, hi: int)
  {
    lo <= x <= hi
  }

  /** `create_individual`: one draw from `0..numSlots-1` per subject; with
      no slots at all the first draw raises. */
  function CreateIndividual(numSubjects: nat, numSlots: nat, draws: seq<int>): (r: Option<seq<int>>)
    requires |draws| == numSubjects
    requires forall i :: 0 <= i < |draws| ==> numSlots == 0 || 0 <= draws[i] <= numSlots - 1
    ensures r.None? <==> numSubjects > 0 && RangeEmpty(0, numSlots - 1)
    ensures r.Some? ==> |r.value| == numSubjects
    ensures r.Some? ==> forall i :: 0 <= i < numSubjects ==> 0 <= r.value[i] < numSlots
  {
    if numSubjects > 0 && numSlots == 0 then None
    else
      Some(draws)
  }

  /** A created individual is one the scoring accepts. */
  lemma CreatedIsIndividual(pb: Problem, draws: seq<int>)
    requires |draws| == |pb.subjects|
    requires forall i :: 0 <= i < |draws| ==> |pb.timeSlots| == 0 || 0 <= draws[i] <= |pb.timeSlots| - 1
    requires CreateIndividual(|pb.subjects|, |pb.timeSlots|, draws).Some?
    ensures IsIndividual(pb, CreateIndividual(|pb.subjects|, |pb.timeSlots|, draws).value)
  {
  }

  // ---------------------------------------------------------------------
  // Crossover

  /** One-point crossover: each child takes the head of one parent and the
      tail of the other. */
  function Crossover(p1: seq<int>, p2: seq<int>, point: nat): (r: (seq<int>, seq<int>))
    requires |p1| == |p2| && point <= |p1|
    ensures |r.0| == |p1| && |r.1| == |p1|
    ensures forall k :: 0 <= k < point ==> r.0[k] == p1[k] && r.1[k] == p2[k]
    ensures forall k :: point <= k < |p1| ==> r.0[k] == p2[k] && r.1[k] == p1[k]
  {
    (p1[..point] + p2[point..], p2[..point] + p1[point..])
  }

  /** Crossing the children at the same point gives back the parents. */
  lemma CrossoverUndone(p1: seq<int>, p2: seq<int>, point: nat)
    requires |p1| == |p2| && point <= |p1|
    ensures var c := Crossover(p1, p2, point); Crossover(c.0, c.1, point) == (p1, p2)
  {
    var c := Crossover(p1, p2, point);
    var d := Crossover(c.0, c.1, point);
    assert d.0 == p1 by {
      forall k | 0 <= k < |p1| ensures d.0[k] == p1[k] {
        if k < point {
          assert d.0[k] == c.0[k];
        } else {
          assert d.0[k] == c.1[k];
        }
      }
    }
    assert d.1 == p2 by {
      forall k | 0 <= k < |p1| ensures d.1[k] == p2[k] {
        if k < point {
          assert d.1[k] == c.1[k];
        } else {
          assert d.1[k] == c.0[k];
        }
      }
    }
  }

  /** Crossover neither loses nor invents genes, and children of two
      individuals are individuals. */
  lemma CrossoverKeepsGenes(pb: Problem, p1: seq<int>, p2: seq<int>, point: nat)
    requires IsIndividual(pb, p1) && IsIndividual(pb, p2) && point <= |p1|
    ensures var c := Crossover(p1, p2, point);
      && multiset(c.0) + multiset(c.1) == multiset(p1) + multiset(p2)
      && IsIndividual(pb, c.0) && IsIndividual(pb, c.1)
  {
    var c := Crossover(p1, p2, point);
    assert p1 == p1[..point] + p1[point..];
    assert p2 == p2[..point] + p2[point..];
    assert IsIndividual(pb, c.0) by {
      forall k | 0 <= k < |c.0| ensures 0 <= c.0[k] < |pb.timeSlots| {
        if k < point { assert c.0[k] == p1[k]; } else { assert c.0[k] == p2[k]; }
      }
    }
    assert IsIndividual(pb, c.1) by {
      forall k | 0 <= k < |c.1| ensures 0 <= c.1[k] < |pb.timeSlots| {
        if k < point { assert c.1[k] == p2[k]; } else { assert c.1[k] == p1[k]; }
      }
    }
  }

  /** The range `crossover` draws its point from, as written:
      `randint(1, num_subjects - 1)`. */
  function AsWrittenPointRange(numSubjects: nat): (r: (int, int))
    ensures r.0 == 1 && r.1 == numSubjects - 1
    ensures RangeEmpty(r.0, r.1) <==> numSubjects <= 1
  {
    (1, numSubjects - 1)
  }

  /** The range with the one-subject case admitted: a single subject has
      only the point 1, whose children are copies of the parents. */
  function PointRange(numSubjects: nat): (r: (int, int))
    ensures numSubjects >= 1 ==> !RangeEmpty(r.0, r.1)
    ensures numSubjects >= 2 ==> r == AsWrittenPointRange(numSubjects)
  {
    (1, if numSubjects >= 2 then numSubjects - 1 else 1)
  }

  /** Every point of the corrected range is a valid cut of two parents. */
  lemma PointRangeIsValidCut(n: nat, point: int)
    requires n >= 1 && DrawnFrom(point, PointRange(n).0, PointRange(n).1)
    ensures 1 <= point <= n
    ensures n == 1 ==> forall p1, p2 :: |p1| == 1 && |p2| == 1 ==> Crossover(p1, p2, point) == (p1, p2)
  {
    if n == 1 {
      forall p1: seq<int>, p2: seq<int> | |p1| == 1 && |p2| == 1
        ensures Crossover(p1, p2, point) == (p1, p2)
      {
        assert p1[..1] + p2[1..] == p1;
        assert p2[..1] + p1[1..] == p2;
      }
    }
  }

  /** One retake subject, the client's default switches, no free time
      marked (so all 21 slots are available and listed in grid order). */
  function OneRetakeSubject(): (pb: Problem)
    ensures |pb.subjects| == 1 && |pb.timeSlots| == 21
  {
    Problem(["Calculus"], AllSlots, map[], map["Calculus" := 10],
      Flags(true, true, false, false), [], map["Calculus" := Detail(true, [])])
  }

  /** The search stops early only on a best score of exactly 0. A lone
      retake subject in a morning slot scores -20, so once any individual
      lands there (7 of the 21 slots) the search goes on to crossover, whose
      point range is then empty: the draw raises and the request fails. */
  lemma SingleRetakeSubjectReachesEmptyCrossover()
    ensures IsIndividual(OneRetakeSubject(), [0])
    ensures Score(OneRetakeSubject(), [0]) == -20
    ensures RangeEmpty(AsWrittenPointRange(1).0, AsWrittenPointRange(1).1)
    ensures !RangeEmpty(PointRange(1).0, PointRange(1).1)
  {
    var pb, ind := OneRetakeSubject(), [0];
    var slot := SlotAt(pb, ind, 0);
    assert slot == "T2_Sáng";
    assert OccursAt(slot, "Sáng", 3) by {
      assert slot[3..7] == "Sáng";
    }
    assert !Contains(slot, "T7") by {
      assert forall j :: 0 <= j < |slot| ==> slot[j] != '7';
      forall k: nat | k <= |slot| ensures !OccursAt(slot, "T7", k) {
        if k + 2 <= |slot| {
          assert slot[k..k + 2][1] == slot[k + 1];
        }
      }
    }
    assert CollisionUpTo(pb, ind, 1) == 0 by {
      assert ind[..0] == [];
    }
    var m := DayCounts(pb, ind, 1);
    var order := DayOrder(pb, ind, 1);
    assert |order| == 1;
    assert MaxOver(m, order) == MinOver(m, order);
    assert SubjectAt(pb, ind, 0) == -20;
  }

  /** What the form sends for one regular subject at the top of the list
      (priority 10) with the default switches, when `free` is the list of
      free slots it marks: the server's slot list puts `free` first and the
      rest of the grid after it, as unavailable. */
  function OneRegularSubject(free: seq<string>): Problem
  {
    var plan := Resolution.PartitionSlots(free);
    Problem(["Calculus"], plan.ordered, map[], map["Calculus" := 10],
      Flags(true, true, false, false), plan.unavailable, map["Calculus" := Detail(false, [])])
  }

  /** With no forbidden slots, no morning preference and Saturday not
      allowed, a one-gene individual costs its Saturday penalty and its
      per-subject terms only. */
  lemma ScoreOfOneGene(pb: Problem, g: int)
    requires IsIndividual(pb, [g]) && pb.forbidden == map[]
    requires !pb.flags.preferMorning && !pb.flags.allowSaturday
    ensures Score(pb, [g]) == SaturdayAt(pb, [g], 0) + SubjectAt(pb, [g], 0)
  {
    var ind := [g];
    assert CollisionUpTo(pb, ind, 1) == 0 by {
      assert ind[..0] == [];
    }
    assert ForbiddenUpTo(pb, ind, 1) == 0;
    assert ConsecutivePairs(pb, ind) == 0;
    assert BalancePenalty(pb, ind) == 0 by {
      var m, order := DayCounts(pb, ind, 1), DayOrder(pb, ind, 1);
      assert |order| == 1;
      assert MaxOver(m, order) == MinOver(m, order);
    }
    assert SaturdayUpTo(pb, ind, 1) == SaturdayAt(pb, ind, 0);
    assert SubjectUpTo(pb, ind, 1) == SubjectAt(pb, ind, 0);
  }

  /** The Monday evening slot name is an evening slot and not a Saturday one. */
  lemma MondayEveningText(slot: string)
    requires slot == "T2_Tối"
    ensures Contains(slot, "Tối") && !Contains(slot, "T7")
  {
    assert OccursAt(slot, "Tối", 3) by {
      assert slot[3..6] == "Tối";
    }
    forall k: nat | k <= |slot| ensures !OccursAt(slot, "T7", k) {
      if k + 2 <= |slot| {
        assert slot[k..k + 2][1] == slot[k + 1];
      }
    }
  }

  /** With only Monday evening free, the gene 0 is that slot and scores 80. */
  lemma EveningGeneScore(free: seq<string>)
    requires free == ["T2_Tối"]
    ensures IsIndividual(OneRegularSubject(free), [0])
    ensures Score(OneRegularSubject(free), [0]) == 80
  {
    var pb, ind := OneRegularSubject(free), [0];
    var plan := Resolution.PartitionSlots(free);
    assert pb.timeSlots[0] == free[0];
    var slot := SlotAt(pb, ind, 0);
    ScoreOfOneGene(pb, 0);
    MondayEveningText(slot);
    assert slot !in pb.unavailable;
    assert SaturdayAt(pb, ind, 0) == 0;
    assert SubjectAt(pb, ind, 0) == 80;
  }

  /** With only Monday evening free, any other gene lands in an unavailable
      slot and scores at least 550. */
  lemma OtherGeneScore(free: seq<string>, g: int)
    requires free == ["T2_Tối"]
    requires IsIndividual(OneRegularSubject(free), [g]) && g != 0
    ensures Score(OneRegularSubject(free), [g]) >= 550
  {
    var pb, ind := OneRegularSubject(free), [g];
    ServerSlotsAreAvailableFirst(pb, free);
    ScoreOfOneGene(pb, g);
    SaturdayUpToZero(pb, ind, 1);
    UnavailablePenaltyIffPastAvailable(pb, ind, free);
    assert UnavailableAt(pb, ind, 0) >= 550;
    assert PreferredDayAt(pb, ind, 0) == 0 && RetakeMorningAt(pb, ind, 0) == 0;
  }

  /** The same failure from the form: one regular subject with only Monday
      evening free. Its best individual scores 80 and no individual scores
      0, so the search never stops early and reaches the empty crossover
      range. */
  lemma EveningOnlySubjectReachesEmptyCrossover(free: seq<string>)
    requires free == ["T2_Tối"]
    ensures IsIndividual(OneRegularSubject(free), [0]) && Score(OneRegularSubject(free), [0]) == 80
    ensures forall g :: IsIndividual(OneRegularSubject(free), [g]) ==> Score(OneRegularSubject(free), [g]) >= 80
    ensures RangeEmpty(AsWrittenPointRange(1).0, AsWrittenPointRange(1).1)
  {
    EveningGeneScore(free);
    forall g | IsIndividual(OneRegularSubject(free), [g])
      ensures Score(OneRegularSubject(free), [g]) >= 80
    {
      if g != 0 {
        OtherGeneScore(free, g);
      }
    }
  }

  // ---------------------------------------------------------------------
  // Mutation

  const MutationRate: real := 0.1

  /** The individual after `mutate`: when the roll is under the rate, the
      drawn subject gets the drawn slot; nothing else changes. */
  function Mutated(ind: seq<int>, roll: real, subjectIndex: int, newSlot: int): (r: seq<int>)
    requires roll < MutationRate ==> 0 <= subjectIndex < |ind|
    ensures |r| == |ind|
    ensures forall k :: 0 <= k < |ind| && (roll >= MutationRate || k != subjectIndex) ==> r[k] == ind[k]
    ensures roll < MutationRate ==> r[subjectIndex] == newSlot
  {
    if roll < MutationRate then ind[subjectIndex := newSlot] else ind
  }

  /** A mutation with a slot drawn from the slot range keeps an individual
      an individual, and changes at most one gene. */
  lemma MutatedKeepsIndividual(pb: Problem, ind: seq<int>, roll: real, subjectIndex: int, newSlot: int)
    requires IsIndividual(pb, ind)
    requires roll < MutationRate ==> 0 <= subjectIndex < |ind| && DrawnFrom(newSlot, 0, |pb.timeSlots| - 1)
    ensures IsIndividual(pb, Mutated(ind, roll, subjectIndex, newSlot))
    ensures forall j, k :: 0 <= j < k < |ind| ==>
      Mutated(ind, roll, subjectIndex, newSlot)[j] == ind[j] || Mutated(ind, roll, subjectIndex, newSlot)[k] == ind[k]
  {
  }

  /** `mutate`, which assigns into the individual's list in place. */
  method Mutate(ind: array<int>, roll: real, subjectIndex: int, newSlot: int)
    requires roll < MutationRate ==> 0 <= subjectIndex < ind.Length
    modifies ind
    ensures ind[..] == Mutated(old(ind[..]), roll, subjectIndex, newSlot)
  {
    if roll < MutationRate {
      ind[subjectIndex] := newSlot;
    }
  }

  // ---------------------------------------------------------------------
  // Decoding

  /** One entry of the optimizer's result. */
  datatype Placement = Placement(subject: string, time: string)

  /** `decode_result`: one placement per subject, in subject order, at the
      slot its gene names. */
  method DecodeResult(pb: Problem, ind: seq<int>) returns (result: seq<Placement>)
    requires IsIndividual(pb, ind)
    ensures |result| == |pb.subjects|
    ensures forall i :: 0 <= i < |result| ==> result[i] == Placement(pb.subjects[i], SlotAt(pb, ind, i))
  {
    result := [];
    for i := 0 to |pb.subjects|
      invariant |result| == i
      invariant forall k :: 0 <= k < i ==> result[k] == Placement(pb.subjects[k], SlotAt(pb, ind, k))
    {
      var slotIndex := ind[i];
      result := result + [Placement(pb.subjects[i], pb.timeSlots[slotIndex])];
    }
  }

  /** With distinct slot names, an individual that pays no collision
      penalty places no two subjects in the same cell. */
  lemma NoCollisionNoSharedCell(pb: Problem, ind: seq<int>, result: seq<Placement>)
    requires IsIndividual(pb, ind) && Distinct(pb.timeSlots)
    requires CollisionUpTo(pb, ind, |ind|) == 0
    requires |result| == |pb.subjects|
    requires forall i :: 0 <= i < |result| ==> result[i] == Placement(pb.subjects[i], SlotAt(pb, ind, i))
    ensures forall i, j :: 0 <= i < j < |result| ==> result[i].time != result[j].time
  {
    CollisionFreeIffDistinct(pb, ind);
    forall i, j | 0 <= i < j < |result| ensures result[i].time != result[j].time {
      assert ind[i] != ind[j];
    }
  }

  // ---------------------------------------------------------------------
  // The slot list the server hands over

  /** The server lists the available slots first and then the remaining
      grid slots, so the scoring's available-first reading applies, and
      the list is never empty, so creating an individual never fails. */
  lemma ServerSlotsAreAvailableFirst(pb: Problem, requested: seq<string>)
    requires pb.timeSlots == Resolution.PartitionSlots(requested).ordered
    requires pb.unavailable == Resolution.PartitionSlots(requested).unavailable
    ensures AvailableFirst(pb, Resolution.PartitionSlots(requested).available)
    ensures |pb.timeSlots| >= 1
    ensures forall draws ::
      (|draws| == |pb.subjects| && (forall i :: 0 <= i < |draws| ==> 0 <= draws[i] <= |pb.timeSlots| - 1))
      ==> CreateIndividual(|pb.subjects|, |pb.timeSlots|, draws).Some?
  {
    assert AllSlots[0] in pb.timeSlots;
  }
}
