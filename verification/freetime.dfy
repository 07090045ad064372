/** The free-time grid of the form (seven days by three periods of
    booleans), the checkbox that flips one cell, and the list of slot
    tokens the request carries: one `<day>_<label>` per free cell, days in
    the grid's key order and periods morning, afternoon, evening. */
module FreeTime {
  import opened Base
  import opened Slots

  type Grid = map<Day, map<Period, bool>>

  /** All 7 days present, each with all 3 periods: 21 addressable cells. */
  predicate FullGrid(g: Grid)
  {
    (forall d: Day :: d in g) && (forall d: Day, p: Period :: p in g[d])
  }

  /** The initial grid: every cell not free. */
  function DefaultGrid(): (g: Grid)
    ensures FullGrid(g)
    ensures forall d: Day, p: Period :: !g[d][p]
  {
    AllCellsListed();
    map d: Day | d in Days :: map p: Period | p in Periods :: false
  }

  /** `freeTime[day]?.[key]` is true. */
  predicate IsFree(g: Grid, d: Day, p: Period)
  {
    d in g && p in g[d] && g[d][p]
  }

  /** `handleFreeTimeChange(day, period)`: negate one cell. */
  function Flip(g: Grid, d: Day, p: Period): (r: Grid)
    requires FullGrid(g)
    ensures FullGrid(r)
    ensures r[d][p] == !g[d][p]
    ensures forall d': Day, p': Period :: (d', p') != (d, p) ==> r[d'][p'] == g[d'][p']
  {
    g[d := g[d][p := !g[d][p]]]
  }

  /** Flipping the same checkbox twice gives the grid back. */
  lemma FlipTwice(g: Grid, d: Day, p: Period)
    requires FullGrid(g)
    ensures Flip(Flip(g, d, p), d, p) == g
  {
    var r := Flip(Flip(g, d, p), d, p);
    assert forall d': Day :: r[d'] == g[d'];
  }

  // ---------------------------------------------------------------------
  // Slot tokens of the free cells

  /** Tokens of the free cells of day `d` among periods `ps`, in order. */
  function PeriodSlots(g: Grid, d: Day, ps: seq<Period>): seq<string>
  {
    if ps == [] then []
    else
      var p := ps[|ps| - 1];
      PeriodSlots(g, d, ps[..|ps| - 1]) + CellToken(g, d, p)
  }

  /** Tokens of the free cells of days `ds`, day-major, in order. */
  function DaySlots(g: Grid, ds: seq<Day>): seq<string>
  {
    if ds == [] then []
    else DaySlots(g, ds[..|ds| - 1]) + PeriodSlots(g, ds[|ds| - 1], Periods)
  }

  /** The list the request carries. */
  function FreeSlots(g: Grid): seq<string>
  {
    DaySlots(g, Days)
  }

  /** The loops of `handleGenerate` that push one token per free cell. */
  method BuildSlots(g: Grid) returns (slots: seq<string>)
    ensures slots == FreeSlots(g)
  {
    slots := [];
    for di := 0 to |Days|
      invariant slots == DaySlots(g, Days[..di])
    {
      var day := Days[di];
      for pi := 0 to |Periods|
        invariant slots == DaySlots(g, Days[..di]) + PeriodSlots(g, day, Periods[..pi])
      {
        var period := Periods[pi];
        assert Periods[..pi + 1][..pi] == Periods[..pi];
        if IsFree(g, day, period) {
          slots := slots + [SlotName(day, period)];
        }
      }
      assert Periods[..|Periods|] == Periods;
      assert Days[..di + 1][..di] == Days[..di];
    }
    assert Days[..|Days|] == Days;
  }

  // ---------------------------------------------------------------------
  // What the list contains

  lemma {:induction false} PeriodSlotsMembers(g: Grid, d: Day, ps: seq<Period>, s: string)
    ensures s in PeriodSlots(g, d, ps) <==> exists p :: p in ps && IsFree(g, d, p) && s == SlotName(d, p)
    decreases |ps|
  {
    if ps != [] {
      var p := ps[|ps| - 1];
      PeriodSlotsMembers(g, d, ps[..|ps| - 1], s);
      assert ps == ps[..|ps| - 1] + [p];
    }
  }

  lemma {:induction false} DaySlotsHasCell(g: Grid, ds: seq<Day>, d: Day, p: Period)
    requires d in ds && IsFree(g, d, p)
    ensures SlotName(d, p) in DaySlots(g, ds)
    decreases |ds|
  {
    var last, init := ds[|ds| - 1], ds[..|ds| - 1];
    assert DaySlots(g, ds) == DaySlots(g, init) + PeriodSlots(g, last, Periods);
    if d == last {
      AllCellsListed();
      PeriodSlotsMembers(g, d, Periods, SlotName(d, p));
    } else {
      assert ds == init + [last];
      DaySlotsHasCell(g, init, d, p);
    }
  }

  lemma {:induction false} DaySlotsOnlyCells(g: Grid, ds: seq<Day>, s: string)
    requires s in DaySlots(g, ds)
    ensures exists d, p :: d in ds && IsFree(g, d, p) && s == SlotName(d, p)
    decreases |ds|
  {
    var last, init := ds[|ds| - 1], ds[..|ds| - 1];
    assert DaySlots(g, ds) == DaySlots(g, init) + PeriodSlots(g, last, Periods);
    if s in PeriodSlots(g, last, Periods) {
      PeriodSlotsMembers(g, last, Periods, s);
      var p :| p in Periods && IsFree(g, last, p) && s == SlotName(last, p);
      assert last in ds;
    } else {
      DaySlotsOnlyCells(g, init, s);
      var d, p :| d in init && IsFree(g, d, p) && s == SlotName(d, p);
      assert d in ds;
    }
  }

  lemma DaySlotsMembers(g: Grid, ds: seq<Day>, s: string)
    ensures s in DaySlots(g, ds) <==> exists d, p :: d in ds && IsFree(g, d, p) && s == SlotName(d, p)
  {
    if s in DaySlots(g, ds) {
      DaySlotsOnlyCells(g, ds, s);
    }
    if d, p :| d in ds && IsFree(g, d, p) && s == SlotName(d, p) {
      DaySlotsHasCell(g, ds, d, p);
    }
  }

  /** A token is in the list exactly when it names a free cell. */
  lemma FreeSlotsMembers(g: Grid, d: Day, p: Period)
    ensures SlotName(d, p) in FreeSlots(g) <==> IsFree(g, d, p)
    ensures forall s :: s in FreeSlots(g) ==> exists d', p' :: IsFree(g, d', p') && s == SlotName(d', p')
  {
    forall s | s in FreeSlots(g) ensures exists d', p' :: IsFree(g, d', p') && s == SlotName(d', p') {
      DaySlotsMembers(g, Days, s);
    }
    DaySlotsMembers(g, Days, SlotName(d, p));
    if SlotName(d, p) in FreeSlots(g) {
      var d', p' :| d' in Days && IsFree(g, d', p') && SlotName(d, p) == SlotName(d', p');
      SlotNameInjective(d, p, d', p');
    }
  }

  /** Flipping a cell adds or removes exactly its token. */
  lemma FlipTogglesToken(g: Grid, d: Day, p: Period)
    requires FullGrid(g)
    ensures SlotName(d, p) in FreeSlots(Flip(g, d, p)) <==> SlotName(d, p) !in FreeSlots(g)
  {
    FreeSlotsMembers(g, d, p);
    FreeSlotsMembers(Flip(g, d, p), d, p);
  }

  lemma {:induction false} PeriodSlotsDistinct(g: Grid, d: Day, ps: seq<Period>)
    requires Distinct(ps)
    ensures Distinct(PeriodSlots(g, d, ps))
    decreases |ps|
  {
    if ps != [] {
      var p, init := ps[|ps| - 1], ps[..|ps| - 1];
      PeriodSlotsDistinct(g, d, init);
      forall x | x in PeriodSlots(g, d, init) ensures x != SlotName(d, p) {
        PeriodSlotsMembers(g, d, init, x);
        var q :| q in init && IsFree(g, d, q) && x == SlotName(d, q);
        SlotNameInjective(d, q, d, p);
      }
      DistinctAppend(PeriodSlots(g, d, init), CellToken(g, d, p));
    }
  }

  lemma {:induction false} DaySlotsDistinct(g: Grid, ds: seq<Day>)
    requires Distinct(ds)
    ensures Distinct(DaySlots(g, ds))
    decreases |ds|
  {
    if ds != [] {
      var d, init := ds[|ds| - 1], ds[..|ds| - 1];
      DaySlotsDistinct(g, init);
      PeriodSlotsDistinct(g, d, Periods);
      forall x | x in DaySlots(g, init) ensures x !in PeriodSlots(g, d, Periods) {
        DaySlotsMembers(g, init, x);
        var e, q :| e in init && IsFree(g, e, q) && x == SlotName(e, q);
        if x in PeriodSlots(g, d, Periods) {
          PeriodSlotsMembers(g, d, Periods, x);
          var r :| r in Periods && IsFree(g, d, r) && x == SlotName(d, r);
          SlotNameInjective(e, q, d, r);
        }
      }
      DistinctAppend(DaySlots(g, init), PeriodSlots(g, d, Periods));
    }
  }

  /** No token is sent twice. */
  lemma FreeSlotsDistinct(g: Grid)
    ensures Distinct(FreeSlots(g))
  {
    DaySlotsDistinct(g, Days);
  }

  function CellToken(g: Grid, d: Day, p: Period): seq<string>
  {
    if IsFree(g, d, p) then [SlotName(d, p)] else []
  }

  lemma PeriodSlotsOfDay(g: Grid, d: Day)
    ensures PeriodSlots(g, d, Periods)
         == CellToken(g, d, Morning) + CellToken(g, d, Afternoon) + CellToken(g, d, Evening)
  {
    assert Periods[..1][..0] == [];
    assert PeriodSlots(g, d, Periods[..1]) == CellToken(g, d, Morning);
    assert Periods[..2][..1] == Periods[..1];
    assert PeriodSlots(g, d, Periods[..2]) == CellToken(g, d, Morning) + CellToken(g, d, Afternoon);
    assert Periods[..3] == Periods && Periods[..3][..2] == Periods[..2];
  }

  lemma DaySlotsOfWeek(g: Grid)
    ensures FreeSlots(g) == PeriodSlots(g, T2, Periods) + PeriodSlots(g, T3, Periods)
      + PeriodSlots(g, T4, Periods) + PeriodSlots(g, T5, Periods) + PeriodSlots(g, T6, Periods)
      + PeriodSlots(g, T7, Periods) + PeriodSlots(g, CN, Periods)
  {
    var P := d => PeriodSlots(g, d, Periods);
    assert Days[..1][..0] == [];
    assert DaySlots(g, Days[..1]) == P(T2);
    assert Days[..2][..1] == Days[..1];
    assert DaySlots(g, Days[..2]) == P(T2) + P(T3);
    assert Days[..3][..2] == Days[..2];
    assert DaySlots(g, Days[..3]) == P(T2) + P(T3) + P(T4);
    assert Days[..4][..3] == Days[..3];
    assert DaySlots(g, Days[..4]) == P(T2) + P(T3) + P(T4) + P(T5);
    assert Days[..5][..4] == Days[..4];
    assert DaySlots(g, Days[..5]) == P(T2) + P(T3) + P(T4) + P(T5) + P(T6);
    assert Days[..6][..5] == Days[..5];
    assert DaySlots(g, Days[..6]) == P(T2) + P(T3) + P(T4) + P(T5) + P(T6) + P(T7);
    assert Days[..7] == Days && Days[..7][..6] == Days[..6];
  }

  /** The tokens of a day with all cells free are its full row. */
  lemma FullDay(g: Grid, d: Day)
    requires forall p: Period :: IsFree(g, d, p)
    ensures PeriodSlots(g, d, Periods) == DayRow(d)
  {
    PeriodSlotsOfDay(g, d);
  }

  /** With every cell free the list is the server's full slot list. */
  lemma FullWeekIsAllSlots(g: Grid)
    requires FullGrid(g)
    requires forall d: Day, p: Period :: g[d][p]
    ensures FreeSlots(g) == AllSlots
  {
    DaySlotsOfWeek(g);
    FullDay(g, T2); FullDay(g, T3); FullDay(g, T4); FullDay(g, T5);
    FullDay(g, T6); FullDay(g, T7); FullDay(g, CN);
    AllSlotsByDay();
  }

  /** The server's full slot list has no duplicates. */
  lemma AllSlotsDistinct()
    ensures Distinct(AllSlots)
  {
    var g: Grid := map d: Day | d in Days :: map p: Period | p in Periods :: true;
    AllCellsListed();
    FullWeekIsAllSlots(g);
    FreeSlotsDistinct(g);
  }

  /** The token list of a day with at most one free cell. */
  lemma OneFreeInDay(g: Grid, d: Day, p: Period)
    requires forall q: Period :: IsFree(g, d, q) <==> q == p
    ensures PeriodSlots(g, d, Periods) == [SlotName(d, p)]
  {
    PeriodSlotsOfDay(g, d);
  }

  lemma NoneFreeInDay(g: Grid, d: Day)
    requires forall q: Period :: !IsFree(g, d, q)
    ensures PeriodSlots(g, d, Periods) == []
  {
    PeriodSlotsOfDay(g, d);
  }

  /** With no free cell nothing is sent: the initial grid yields no slots. */
  lemma NoFreeCellsNoSlots(g: Grid)
    requires forall d: Day, p: Period :: !IsFree(g, d, p)
    ensures FreeSlots(g) == []
  {
    DaySlotsOfWeek(g);
    NoneFreeInDay(g, T2); NoneFreeInDay(g, T3); NoneFreeInDay(g, T4); NoneFreeInDay(g, T5);
    NoneFreeInDay(g, T6); NoneFreeInDay(g, T7); NoneFreeInDay(g, CN);
  }

  lemma EmptyDay(g: Grid, d: Day)
    requires FullGrid(g)
    requires forall d: Day, p: Period :: g[d][p] <==> (d, p) == (T2, Morning) || (d, p) == (T4, Afternoon)
    requires d != T2 && d != T4
    ensures PeriodSlots(g, d, Periods) == []
  {
    assert forall q: Period :: !IsFree(g, d, q);
    NoneFreeInDay(g, d);
  }

  lemma TwoTokens()
    ensures SlotName(T2, Morning) == "T2_Sáng" && SlotName(T4, Afternoon) == "T4_Chiều"
  {
  }

  /** Only T2 morning and T4 afternoon free: exactly their two tokens, in
      that order. */
  lemma TwoFreeCells(g: Grid)
    requires FullGrid(g)
    requires forall d: Day, p: Period :: g[d][p] <==> (d, p) == (T2, Morning) || (d, p) == (T4, Afternoon)
    ensures FreeSlots(g) == ["T2_Sáng", "T4_Chiều"]
  {
    DaySlotsOfWeek(g);
    var a, b := SlotName(T2, Morning), SlotName(T4, Afternoon);
    assert PeriodSlots(g, T2, Periods) == [a] by {
      assert forall q: Period :: IsFree(g, T2, q) <==> q == Morning;
      OneFreeInDay(g, T2, Morning);
    }
    assert PeriodSlots(g, T4, Periods) == [b] by {
      assert forall q: Period :: IsFree(g, T4, q) <==> q == Afternoon;
      OneFreeInDay(g, T4, Afternoon);
    }
    EmptyDay(g, T3); EmptyDay(g, T5); EmptyDay(g, T6); EmptyDay(g, T7); EmptyDay(g, CN);
    assert FreeSlots(g) == [a] + [] + [b] + [] + [] + [] + [];
    TwoTokens();
  }
}
