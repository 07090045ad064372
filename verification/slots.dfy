/** The weekly grid: seven day tags, three periods, and the slot tokens
    `<day>_<period label>` that the client sends and the server and the
    genetic algorithm consume. */
module Slots {
  import opened Base

  datatype Day = T2 | T3 | T4 | T5 | T6 | T7 | CN
  datatype Period = Morning | Afternoon | Evening

  /** The days in the grid's fixed key order (Monday .. Sunday). */
  const Days: seq<Day> := [T2, T3, T4, T5, T6, T7, CN]
  /** The periods in the fixed order morning, afternoon, evening. */
  const Periods: seq<Period> := [Morning, Afternoon, Evening]

  /** Every day and every period occurs in the fixed orders. */
  lemma AllCellsListed()
    ensures forall d: Day :: d in Days
    ensures forall p: Period :: p in Periods
  {
    forall d: Day ensures d in Days {
      match d
      case T2 => assert Days[0] == d;
      case T3 => assert Days[1] == d;
      case T4 => assert Days[2] == d;
      case T5 => assert Days[3] == d;
      case T6 => assert Days[4] == d;
      case T7 => assert Days[5] == d;
      case CN => assert Days[6] == d;
    }
    forall p: Period ensures p in Periods {
      match p
      case Morning => assert Periods[0] == p;
      case Afternoon => assert Periods[1] == p;
      case Evening => assert Periods[2] == p;
    }
  }

  function DayTag(d: Day): string
  {
    match d
    case T2 => "T2" case T3 => "T3" case T4 => "T4" case T5 => "T5"
    case T6 => "T6" case T7 => "T7" case CN => "CN"
  }

  /** The localized two-syllable period labels used inside slot tokens. */
  function PeriodLabel(p: Period): string
  {
    match p
    case Morning => "Sáng"
    case Afternoon => "Chiều"
    case Evening => "Tối"
  }

  const Separator: string := "_"

  /** The slot token of one grid cell. */
  function SlotName(d: Day, p: Period): (s: string)
    ensures s == DayTag(d) + Separator + PeriodLabel(p)
    ensures |s| == 3 + |PeriodLabel(p)| && s[2] == '_'
  {
    DayTag(d) + Separator + PeriodLabel(p)
  }

  /** The server's fixed list of all 21 slots, written out as the server
      writes it. */
  const AllSlots: seq<string> := [
    "T2_Sáng", "T2_Chiều", "T2_Tối",
    "T3_Sáng", "T3_Chiều", "T3_Tối",
    "T4_Sáng", "T4_Chiều", "T4_Tối",
    "T5_Sáng", "T5_Chiều", "T5_Tối",
    "T6_Sáng", "T6_Chiều", "T6_Tối",
    "T7_Sáng", "T7_Chiều", "T7_Tối",
    "CN_Sáng", "CN_Chiều", "CN_Tối"
  ]

  /** The three tokens of one day, morning to evening. */
  function DayRow(d: Day): seq<string>
  {
    [SlotName(d, Morning), SlotName(d, Afternoon), SlotName(d, Evening)]
  }

  /** Every cell's token is in the written-out list. */
  lemma SlotNameListed(d: Day, p: Period)
    ensures SlotName(d, p) in AllSlots
  {
    AllSlotsByDay();
    assert SlotName(d, p) in DayRow(d) by {
      match p
      case Morning => assert DayRow(d)[0] == SlotName(d, p);
      case Afternoon => assert DayRow(d)[1] == SlotName(d, p);
      case Evening => assert DayRow(d)[2] == SlotName(d, p);
    }
  }

  /** The rows of Monday to Thursday, as text. */
  lemma EarlyRows()
    ensures DayRow(T2) == ["T2_Sáng", "T2_Chiều", "T2_Tối"]
    ensures DayRow(T3) == ["T3_Sáng", "T3_Chiều", "T3_Tối"]
    ensures DayRow(T4) == ["T4_Sáng", "T4_Chiều", "T4_Tối"]
    ensures DayRow(T5) == ["T5_Sáng", "T5_Chiều", "T5_Tối"]
  {
    assert DayRow(T2) == ["T2_Sáng", "T2_Chiều", "T2_Tối"] by {
      assert SlotName(T2, Morning) == "T2_Sáng";
      assert SlotName(T2, Afternoon) == "T2_Chiều";
      assert SlotName(T2, Evening) == "T2_Tối";
    }
    assert DayRow(T3) == ["T3_Sáng", "T3_Chiều", "T3_Tối"] by {
      assert SlotName(T3, Morning) == "T3_Sáng";
      assert SlotName(T3, Afternoon) == "T3_Chiều";
      assert SlotName(T3, Evening) == "T3_Tối";
    }
    assert DayRow(T4) == ["T4_Sáng", "T4_Chiều", "T4_Tối"] by {
      assert SlotName(T4, Morning) == "T4_Sáng";
      assert SlotName(T4, Afternoon) == "T4_Chiều";
      assert SlotName(T4, Evening) == "T4_Tối";
    }
    assert DayRow(T5) == ["T5_Sáng", "T5_Chiều", "T5_Tối"] by {
      assert SlotName(T5, Morning) == "T5_Sáng";
      assert SlotName(T5, Afternoon) == "T5_Chiều";
      assert SlotName(T5, Evening) == "T5_Tối";
    }
  }

  /** The rows of Friday to Sunday, as text. */
  lemma LateRows()
    ensures DayRow(T6) == ["T6_Sáng", "T6_Chiều", "T6_Tối"]
    ensures DayRow(T7) == ["T7_Sáng", "T7_Chiều", "T7_Tối"]
    ensures DayRow(CN) == ["CN_Sáng", "CN_Chiều", "CN_Tối"]
  {
    assert DayRow(T6) == ["T6_Sáng", "T6_Chiều", "T6_Tối"] by {
      assert SlotName(T6, Morning) == "T6_Sáng";
      assert SlotName(T6, Afternoon) == "T6_Chiều";
      assert SlotName(T6, Evening) == "T6_Tối";
    }
    assert DayRow(T7) == ["T7_Sáng", "T7_Chiều", "T7_Tối"] by {
      assert SlotName(T7, Morning) == "T7_Sáng";
      assert SlotName(T7, Afternoon) == "T7_Chiều";
      assert SlotName(T7, Evening) == "T7_Tối";
    }
    assert DayRow(CN) == ["CN_Sáng", "CN_Chiều", "CN_Tối"] by {
      assert SlotName(CN, Morning) == "CN_Sáng";
      assert SlotName(CN, Afternoon) == "CN_Chiều";
      assert SlotName(CN, Evening) == "CN_Tối";
    }
  }

  /** The written-out list is the days' rows in day order. */
  lemma AllSlotsByDay()
    ensures AllSlots == DayRow(T2) + DayRow(T3) + DayRow(T4) + DayRow(T5)
                      + DayRow(T6) + DayRow(T7) + DayRow(CN)
  {
    EarlyRows();
    LateRows();
  }

  /** Distinct cells have distinct tokens. */
  lemma SlotNameInjective(d1: Day, p1: Period, d2: Day, p2: Period)
    ensures SlotName(d1, p1) == SlotName(d2, p2) <==> d1 == d2 && p1 == p2
  {
    var s1, s2 := SlotName(d1, p1), SlotName(d2, p2);
    if s1 == s2 {
      assert s1[..2] == DayTag(d1) && s2[..2] == DayTag(d2);
      assert s1[3..] == PeriodLabel(p1) && s2[3..] == PeriodLabel(p2);
    }
  }

  /** `slot.split('_')[0]` of a token is its day tag. */
  lemma DayPrefixOfSlot(d: Day, p: Period)
    ensures BeforeFirst(SlotName(d, p), Separator) == DayTag(d)
  {
    var s := SlotName(d, p);
    assert OccursAt(s, Separator, 2);
    assert !OccursAt(s, Separator, 0) && !OccursAt(s, Separator, 1);
  }
}
