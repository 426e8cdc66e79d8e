// The experiment calendar (gui/components/experiment/calendar.js): its
// date comparisons, the palette of allocation colours, the colouring of a
// cell, and the list of node ids gathered from the experiments. A JavaScript
// Date is reduced to what the comparisons read, getDate(), getMonth() and
// getFullYear(), plus its time of day, which they ignore. The cells of the
// page are a map from element id to the cell's allocated attribute and
// background colour.

module Calendar {
  import opened Common

  // ---------------------------------------------------------------------
  // Date comparisons

  /** A Date: day of the month (getDate), month from 0 (getMonth), full year, and the time of day in milliseconds. */
  datatype JsDate = JsDate(day: int, month: int, year: int, time: int)

  /** A date range with its two end points. */
  datatype DateRange = DateRange(start: JsDate, end: JsDate)

  /** areDatesEqual */
  predicate AreDatesEqual(d1: JsDate, d2: JsDate)
  {
    d1.day == d2.day && d1.month == d2.month && d1.year == d2.year
  }

  /** The calendar day of a date, its time dropped. */
  function DayOf(d: JsDate): (r: JsDate)
    ensures r.time == 0 && r.day == d.day && r.month == d.month && r.year == d.year
  {
    d.(time := 0)
  }

  /** Two dates are equal for areDatesEqual iff they fall on the same calendar day, whatever their times. */
  lemma AreDatesEqualMeaning(d1: JsDate, d2: JsDate)
    ensures AreDatesEqual(d1, d2) <==> DayOf(d1) == DayOf(d2)
  {
    if DayOf(d1) == DayOf(d2) {
      assert DayOf(d1).day == d1.day && DayOf(d2).day == d2.day;
    }
  }

  /** isDateLessOrEqual, with its early returns. */
  predicate IsDateLessOrEqual(d1: JsDate, d2: JsDate)
  {
    if AreDatesEqual(d1, d2) then true
    else if d1.year < d2.year then true
    else if d1.month < d2.month then true
    else d1.day < d2.day
  }

  /** Equal dates compare less-or-equal, and so does any pair where one component of the first is smaller. */
  lemma LessOrEqualCases(d1: JsDate, d2: JsDate)
    ensures AreDatesEqual(d1, d2) ==> IsDateLessOrEqual(d1, d2)
    ensures d1.year < d2.year || d1.month < d2.month || d1.day < d2.day ==> IsDateLessOrEqual(d1, d2)
    ensures IsDateLessOrEqual(d1, d2) <==> AreDatesEqual(d1, d2) || d1.year < d2.year || d1.month < d2.month || d1.day < d2.day
  {
  }

  /** isDateInRange: each component lies between the range's, ends included. */
  predicate IsDateInRange(d: JsDate, r: DateRange)
  {
    d.day >= r.start.day && d.month >= r.start.month && d.year >= r.start.year &&
    d.day <= r.end.day && d.month <= r.end.month && d.year <= r.end.year
  }

  /** isDateBeforeDate, with its early returns. */
  predicate IsDateBeforeDate(d1: JsDate, d2: JsDate)
  {
    if AreDatesEqual(d1, d2) then false
    else if d1.year > d2.year then false
    else if d1.month > d2.month then false
    else !(d1.day > d2.day)
  }

  /** No date is before itself, and a date before another exceeds it in no component. */
  lemma BeforeDateMeaning(d1: JsDate, d2: JsDate)
    ensures !IsDateBeforeDate(d1, d1)
    ensures IsDateBeforeDate(d1, d2) <==>
      !AreDatesEqual(d1, d2) && d1.year <= d2.year && d1.month <= d2.month && d1.day <= d2.day
  {
  }

  /**
   * The order of calendar days the comparisons evidently intend: by year,
   * then month, then day.
   */
  predicate OnOrBefore(d1: JsDate, d2: JsDate)
  {
    d1.year < d2.year || (d1.year == d2.year && (d1.month < d2.month || (d1.month == d2.month && d1.day <= d2.day)))
  }

  /** The intended strict order: on or before and not the same day. */
  predicate StrictlyBefore(d1: JsDate, d2: JsDate)
  {
    OnOrBefore(d1, d2) && !AreDatesEqual(d1, d2)
  }

  /** The intended range test: on or after the start and on or before the end. */
  predicate InRange(d: JsDate, r: DateRange)
  {
    OnOrBefore(r.start, d) && OnOrBefore(d, r.end)
  }

  /** OnOrBefore orders calendar days totally: reflexive, antisymmetric on days, transitive and total. */
  lemma OnOrBeforeOrder(a: JsDate, b: JsDate, c: JsDate)
    ensures OnOrBefore(a, a)
    ensures OnOrBefore(a, b) && OnOrBefore(b, a) ==> AreDatesEqual(a, b)
    ensures OnOrBefore(a, b) && OnOrBefore(b, c) ==> OnOrBefore(a, c)
    ensures OnOrBefore(a, b) || OnOrBefore(b, a)
  {
  }

  /** The strict order is OnOrBefore one way and not the other. */
  lemma StrictlyBeforeMeaning(a: JsDate, b: JsDate)
    ensures StrictlyBefore(a, b) <==> !OnOrBefore(b, a)
  {
  }

  /** Whatever isDateBeforeDate accepts is strictly before; so is whatever isDateInRange accepts in range. */
  lemma WrittenImpliesIntended(d1: JsDate, d2: JsDate, r: DateRange)
    ensures IsDateBeforeDate(d1, d2) ==> StrictlyBefore(d1, d2)
    ensures IsDateInRange(d1, r) ==> InRange(d1, r)
  {
  }

  /** As written the first day of 2024 compares less or equal to the last day of 2023. */
  lemma LessOrEqualAcrossYears()
    ensures IsDateLessOrEqual(JsDate(1, 0, 2024, 0), JsDate(31, 11, 2023, 0))
    ensures !OnOrBefore(JsDate(1, 0, 2024, 0), JsDate(31, 11, 2023, 0))
  {
  }

  /** As written 28 December 2023 is not in the range from 25 December 2023 to 5 January 2024. */
  lemma InRangeAcrossYears()
    ensures !IsDateInRange(JsDate(28, 11, 2023, 0), DateRange(JsDate(25, 11, 2023, 0), JsDate(5, 0, 2024, 0)))
    ensures InRange(JsDate(28, 11, 2023, 0), DateRange(JsDate(25, 11, 2023, 0), JsDate(5, 0, 2024, 0)))
  {
  }

  /** As written 31 December 2023 is not before 1 January 2024. */
  lemma BeforeAcrossYears()
    ensures !IsDateBeforeDate(JsDate(31, 11, 2023, 0), JsDate(1, 0, 2024, 0))
    ensures StrictlyBefore(JsDate(31, 11, 2023, 0), JsDate(1, 0, 2024, 0))
  {
  }

  // ---------------------------------------------------------------------
  // The node ids of createCalendar

  /** The node ids of the experiments, in order. */
  function Flatten(experiments: seq<seq<string>>): (ids: seq<string>)
    ensures forall id :: id in ids <==> exists i :: 0 <= i < |experiments| && id in experiments[i]
    decreases |experiments|
  {
    if |experiments| == 0 then []
    else
      var init := experiments[..|experiments| - 1];
      assert forall i :: 0 <= i < |init| ==> init[i] == experiments[i];
      Flatten(init) + experiments[|experiments| - 1]
  }

  /** The one-character strings of s: what indexing a string yields in JavaScript. */
  function Chars(s: string): (cs: seq<string>)
    ensures |cs| == |s| && forall i :: 0 <= i < |s| ==> cs[i] == [s[i]]
    decreases |s|
  {
    if |s| == 0 then [] else Chars(s[..|s| - 1]) + [[s[|s| - 1]]]
  }

  /**
   * The test before an id is pushed. Swapped, as createCalendar writes it,
   * isInArray(allNodeIDs, id) looks for the list itself, converted to its
   * comma-joined text, among the characters of the id; otherwise it looks
   * for the id in the list.
   */
  predicate Listed(all: seq<string>, id: string, swapped: bool)
  {
    if swapped then JoinWith(all, ",") in Chars(id) else id in all
  }

  /** allNodeIDs after the ids are pushed one by one, each unless Listed. */
  function Collected(start: seq<string>, ids: seq<string>, swapped: bool): seq<string>
    decreases |ids|
  {
    if |ids| == 0 then start
    else
      var before := Collected(start, ids[..|ids| - 1], swapped);
      if Listed(before, ids[|ids| - 1], swapped) then before else before + [ids[|ids| - 1]]
  }

  /** isInArray */
  method IsInArray(item: string, theArray: seq<string>) returns (r: bool)
    ensures r <==> item in theArray
  {
    for i := 0 to |theArray|
      invariant item !in theArray[..i]
    {
      if theArray[i] == item {
        return true;
      }
    }
    assert theArray[..|theArray|] == theArray;
    return false;
  }

  /** The list of node ids of createCalendar, before it is sorted: swapped as written, or as evidently intended. */
  method CollectNodeIDs(start: seq<string>, experiments: seq<seq<string>>, swapped: bool) returns (all: seq<string>)
    ensures all == Collected(start, Flatten(experiments), swapped)
  {
    all := start;
    for i := 0 to |experiments|
      invariant all == Collected(start, Flatten(experiments[..i]), swapped)
    {
      assert experiments[..i + 1][..i] == experiments[..i];
      CollectedAppend(start, Flatten(experiments[..i]), experiments[i], swapped);
      all := PushNodeIDs(all, experiments[i], swapped);
    }
    assert experiments[..|experiments|] == experiments;
  }

  /** The inner loop of createCalendar over one experiment's node ids. */
  method PushNodeIDs(start: seq<string>, nodeIDs: seq<string>, swapped: bool) returns (all: seq<string>)
    ensures all == Collected(start, nodeIDs, swapped)
  {
    all := start;
    for j := 0 to |nodeIDs|
      invariant all == Collected(start, nodeIDs[..j], swapped)
    {
      var present;
      if swapped {
        present := IsInArray(JoinWith(all, ","), Chars(nodeIDs[j]));
      } else {
        present := IsInArray(nodeIDs[j], all);
      }
      assert nodeIDs[..j + 1][..j] == nodeIDs[..j];
      if !present {
        all := all + [nodeIDs[j]];
      }
    }
    assert nodeIDs[..|nodeIDs|] == nodeIDs;
  }

  /** Pushing two runs of ids is pushing the first, then the second. */
  lemma {:induction false} CollectedAppend(start: seq<string>, xs: seq<string>, ys: seq<string>, swapped: bool)
    ensures Collected(start, xs + ys, swapped) == Collected(Collected(start, xs, swapped), ys, swapped)
    decreases |ys|
  {
    if |ys| == 0 {
      assert xs + ys == xs;
    } else {
      assert (xs + ys)[..|xs + ys| - 1] == xs + ys[..|ys| - 1];
      CollectedAppend(start, xs, ys[..|ys| - 1], swapped);
    }
  }

  /** With the arguments in order, the list holds every id once: no duplicates, and exactly the ids seen. */
  lemma {:induction false} CollectedDistinct(start: seq<string>, ids: seq<string>)
    requires forall i, j :: 0 <= i < j < |start| ==> start[i] != start[j]
    ensures var all := Collected(start, ids, false);
      (forall i, j :: 0 <= i < j < |all| ==> all[i] != all[j]) &&
      (forall id :: id in all <==> id in start || id in ids)
    decreases |ids|
  {
    if |ids| > 0 {
      var init := ids[..|ids| - 1];
      CollectedDistinct(start, init);
      assert forall id :: id in ids <==> id in init || id == ids[|ids| - 1];
    }
  }

  /** As written the same id from two experiments is pushed twice. */
  lemma DuplicateNodeIDs()
    ensures Collected([], Flatten([["computer1"], ["computer1"]]), true) == ["computer1", "computer1"]
    ensures Collected([], Flatten([["computer1"], ["computer1"]]), false) == ["computer1"]
  {
    var exps := [["computer1"], ["computer1"]];
    assert exps[..1] == [["computer1"]];
    assert exps[..1][..0] == [];
    assert Flatten(exps) == ["computer1", "computer1"];
    var ids := ["computer1", "computer1"];
    assert ids[..1] == ["computer1"];
    assert ids[..1][..0] == [];
    assert JoinWith(["computer1"], ",") == "computer1";
    assert "computer1" !in Chars("computer1");
    assert "" !in Chars("computer1");
  }

  // ---------------------------------------------------------------------
  // The palette and the cells

  /** The allocation types whose colour setAllocatedColor may change. */
  predicate AllocationType(t: string)
  {
    t == "unallocated" || t == "user" || t == "shared" || t == "other"
  }

  /** A calendar cell: its allocated attribute (mark) and background colour. */
  datatype Cell = Cell(mark: string, color: string)

  class CalendarView {
    /** allocatedColors: allocation type to colour. */
    var allocatedColors: map<string, string>
    /** The cells of the page by element id. */
    var cells: map<string, Cell>
    /** The prefix of the calendar's element ids. */
    var prefix: string

    /** The palette the calendar starts with. */
    constructor (prefix: string, cells: map<string, Cell>)
      ensures allocatedColors == map["unallocated" := "#ccc", "user" := "blue", "shared" := "green", "other" := "yellow"]
      ensures this.cells == cells && this.prefix == prefix
    {
      allocatedColors := map["unallocated" := "#ccc", "user" := "blue", "shared" := "green", "other" := "yellow"];
      this.cells := cells;
      this.prefix := prefix;
    }

    /** setAllocatedColor: only the four allocation types take a new colour. */
    method SetAllocatedColor(allocationType: string, color: string)
      modifies this
      ensures allocatedColors == if AllocationType(allocationType) then old(allocatedColors)[allocationType := color]
        else old(allocatedColors)
      ensures cells == old(cells) && prefix == old(prefix)
    {
      if allocationType == "unallocated" || allocationType == "user" || allocationType == "shared" || allocationType == "other" {
        allocatedColors := allocatedColors[allocationType := color];
      }
    }

    /** The element id of the allocation cell at a row and column. */
    function CellID(row: int, column: int): string
      reads this
    {
      prefix + "AllocationCellId" + IntToString(row) + "-" + IntToString(column)
    }

    /**
     * setCellColorByRowCol. The cell is marked unallocated iff the colour is
     * the unallocated colour; ok is false when there is no such cell, where
     * the page throws before changing anything.
     */
    method SetCellColorByRowCol(row: int, column: int, color: string) returns (ok: bool)
      modifies this
      ensures ok <==> old(CellID(row, column)) in old(cells)
      ensures allocatedColors == old(allocatedColors) && prefix == old(prefix)
      ensures !ok ==> cells == old(cells)
      ensures ok ==> cells == old(cells)[CellID(row, column) := Cell(AllocatedMark(color, allocatedColors), color)]
    {
      var id := CellID(row, column);
      if id !in cells {
        return false;
      }
      var mark := if "unallocated" in allocatedColors && color == allocatedColors["unallocated"] then "no" else "yes";
      cells := cells[id := Cell(mark, color)];
      return true;
    }
  }

  /** The allocated attribute a cell painted in color gets. */
  function AllocatedMark(color: string, palette: map<string, string>): (m: string)
    ensures m == "no" <==> "unallocated" in palette && color == palette["unallocated"]
    ensures m == "no" || m == "yes"
  {
    if "unallocated" in palette && color == palette["unallocated"] then "no" else "yes"
  }

  /** The palette keeps its four allocation types whatever setAllocatedColor is asked. */
  lemma PaletteKeepsTypes(palette: map<string, string>, t: string, color: string)
    requires forall k :: AllocationType(k) ==> k in palette
    ensures var after := if AllocationType(t) then palette[t := color] else palette;
      (forall k :: AllocationType(k) ==> k in after) && after.Keys == palette.Keys
  {
  }
}
