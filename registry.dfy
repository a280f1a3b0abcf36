/**
 * The registry of the class-schedule planner: the eval table built from the
 * raw catalog, its filtering by class number, and the slot-selection entry
 * point, which in this version of the program is a stub.
 */
module Registry {
  import opened Course

  /** An eval table row: class number, formatted rating, formatted hours, name. */
  datatype EvalTableRow = EvalTableRow(no: string, rating: string, hours: string, name: string)

  /** The raw catalog map, as its entries in insertion order. */
  type Catalog = seq<(string, RawClass)>

  /** No key occurs twice, as in every JavaScript Map. */
  predicate KeysDistinct(classes: Catalog) {
    forall i, j :: 0 <= i < j < |classes| ==> classes[i].0 != classes[j].0
  }

  /** The row the constructor pushes for one raw class; numbers use one decimal. */
  function EvalRow(cls: RawClass, formatNumber: (real, int) -> string): EvalTableRow {
    EvalTableRow(cls.no, formatNumber(cls.ra, 1), formatNumber(cls.h, 1), cls.n)
  }

  /** The eval table of a catalog: one row per entry, in iteration order. */
  function EvalTable(classes: Catalog, formatNumber: (real, int) -> string): (rows: seq<EvalTableRow>)
    ensures |rows| == |classes|
    ensures forall i :: 0 <= i < |rows| ==>
      && rows[i].no == classes[i].1.no
      && rows[i].rating == formatNumber(classes[i].1.ra, 1)
      && rows[i].hours == formatNumber(classes[i].1.h, 1)
      && rows[i].name == classes[i].1.n
  {
    if classes == [] then []
    else [EvalRow(classes[0].1, formatNumber)] + EvalTable(classes[1..], formatNumber)
  }

  /** `s` can be obtained from `t` by deleting elements, keeping the order of the rest. */
  predicate IsSubsequence<T(==)>(s: seq<T>, t: seq<T>)
    decreases |t|
  {
    if |s| == 0 then true
    else if |t| == 0 then false
    else (s[0] == t[0] && IsSubsequence(s[1..], t[1..])) || IsSubsequence(s, t[1..])
  }

  /** The rows whose class number satisfies the predicate, in table order. */
  function Filter(rows: seq<EvalTableRow>, isSelected: string -> bool): (kept: seq<EvalTableRow>)
    ensures |kept| <= |rows|
    ensures forall row :: row in kept ==> row in rows && isSelected(row.no)
  {
    if rows == [] then []
    else (if isSelected(rows[0].no) then [rows[0]] else []) + Filter(rows[1..], isSelected)
  }

  /** Every selected row of the table is kept. */
  lemma {:induction false} FilterKeepsSelected(rows: seq<EvalTableRow>, isSelected: string -> bool)
    ensures forall row :: row in rows && isSelected(row.no) ==> row in Filter(rows, isSelected)
  {
    if rows != [] {
      FilterKeepsSelected(rows[1..], isSelected);
      forall row | row in rows && isSelected(row.no)
        ensures row in Filter(rows, isSelected)
      {
        if row != rows[0] {
          assert row in rows[1..];
        }
      }
    }
  }

  /** The filtered rows are a subsequence of the table. */
  lemma {:induction false} FilterIsSubsequence(rows: seq<EvalTableRow>, isSelected: string -> bool)
    ensures IsSubsequence(Filter(rows, isSelected), rows)
  {
    if rows != [] {
      FilterIsSubsequence(rows[1..], isSelected);
      var rest := Filter(rows[1..], isSelected);
      if isSelected(rows[0].no) {
        var kept := [rows[0]] + rest;
        assert kept[1..] == rest;
      } else {
        assert Filter(rows, isSelected) == rest;
      }
    }
  }

  /** Any subsequence of selected rows is no longer than the filtered table. */
  lemma {:induction false} SelectedSubsequenceBound(rows: seq<EvalTableRow>, isSelected: string -> bool, s: seq<EvalTableRow>)
    requires IsSubsequence(s, rows)
    requires forall row :: row in s ==> isSelected(row.no)
    ensures |s| <= |Filter(rows, isSelected)|
    decreases |rows|
  {
    if |s| != 0 {
      assert |rows| != 0;
      if s[0] == rows[0] && IsSubsequence(s[1..], rows[1..]) {
        assert isSelected(rows[0].no);
        SelectedSubsequenceBound(rows[1..], isSelected, s[1..]);
      } else {
        SelectedSubsequenceBound(rows[1..], isSelected, s);
      }
    }
  }

  /**
   * The filtered table is the only subsequence of selected rows of its
   * length: `fillTable` returns exactly the selected rows, in order.
   */
  lemma {:induction false} FilterUnique(rows: seq<EvalTableRow>, isSelected: string -> bool, s: seq<EvalTableRow>)
    requires IsSubsequence(s, rows)
    requires forall row :: row in s ==> isSelected(row.no)
    requires |s| == |Filter(rows, isSelected)|
    ensures s == Filter(rows, isSelected)
    decreases |rows|
  {
    if rows != [] {
      var rest := Filter(rows[1..], isSelected);
      if |s| == 0 {
      } else if s[0] == rows[0] && IsSubsequence(s[1..], rows[1..]) {
        assert s[0] in s;
        FilterUnique(rows[1..], isSelected, s[1..]);
      } else {
        assert IsSubsequence(s, rows[1..]);
        SelectedSubsequenceBound(rows[1..], isSelected, s);
        if isSelected(rows[0].no) {
          assert false;
        } else {
          FilterUnique(rows[1..], isSelected, s);
        }
      }
    }
  }

  /** The catalog entries whose class number satisfies the predicate, in order. */
  function FilterClasses(classes: Catalog, isSelected: string -> bool): Catalog {
    if classes == [] then []
    else
      (if isSelected(Class(classes[0].1).ClassNumber()) then [classes[0]] else [])
      + FilterClasses(classes[1..], isSelected)
  }

  /**
   * Filtering the eval table of a catalog gives the eval table of the
   * catalog's classes whose class number is selected.
   */
  lemma {:induction false} FilterEvalTable(classes: Catalog, formatNumber: (real, int) -> string, isSelected: string -> bool)
    ensures Filter(EvalTable(classes, formatNumber), isSelected)
         == EvalTable(FilterClasses(classes, isSelected), formatNumber)
  {
    if classes != [] {
      var rows := EvalTable(classes, formatNumber);
      assert rows[1..] == EvalTable(classes[1..], formatNumber);
      FilterEvalTable(classes[1..], formatNumber, isSelected);
      var tail := FilterClasses(classes[1..], isSelected);
      if isSelected(Class(classes[0].1).ClassNumber()) {
        var kept := [classes[0]] + tail;
        assert kept[1..] == tail;
      }
    }
  }

  /** The result of slot selection: the (class, kind) pairs and one index array per option. */
  datatype SlotSelection = SlotSelection(allSections: seq<(int, string)>, options: seq<seq<int>>)

  /** The registry: the raw catalog and the eval table derived from it. */
  class Firehose {
    var rawClasses: Catalog
    var evalTableRows: seq<EvalTableRow>

    /** Stores the catalog and pushes one eval row per raw class, in iteration order. */
    constructor (rawClasses: Catalog, formatNumber: (real, int) -> string)
      requires KeysDistinct(rawClasses)
      ensures this.rawClasses == rawClasses
      ensures evalTableRows == EvalTable(rawClasses, formatNumber)
    {
      this.rawClasses := rawClasses;
      evalTableRows := [];
      new;
      for i := 0 to |rawClasses|
        invariant this.rawClasses == rawClasses
        invariant |evalTableRows| == i
        invariant forall j :: 0 <= j < i ==> evalTableRows[j] == EvalRow(rawClasses[j].1, formatNumber)
      {
        evalTableRows := evalTableRows + [EvalRow(rawClasses[i].1, formatNumber)];
      }
    }

    /** The eval rows whose class number satisfies `isSelected`, in table order. */
    function FillTable(isSelected: string -> bool): (selected: seq<EvalTableRow>)
      reads this
      ensures selected == Filter(evalTableRows, isSelected)
      ensures IsSubsequence(selected, evalTableRows)
      ensures forall row :: row in selected <==> row in evalTableRows && isSelected(row.no)
      ensures (forall c :: isSelected(c)) ==> selected == evalTableRows
      ensures (forall c :: !isSelected(c)) ==> selected == []
    {
      FilterIsSubsequence(evalTableRows, isSelected);
      FilterKeepsSelected(evalTableRows, isSelected);
      FilterAllOrNothing(evalTableRows, isSelected);
      Filter(evalTableRows, isSelected)
    }

    /** Slot selection as written: no pairs and no options, whatever is locked. */
    function SelectSlots(lockedSlots: map<string, int>): (r: SlotSelection)
      ensures r.allSections == [] && r.options == []
      ensures forall option :: option in r.options ==> |option| == |r.allSections|
    {
      SlotSelection([], [])
    }
  }

  /** An always-true predicate keeps every row; an always-false one keeps none. */
  lemma {:induction false} FilterAllOrNothing(rows: seq<EvalTableRow>, isSelected: string -> bool)
    ensures (forall c :: isSelected(c)) ==> Filter(rows, isSelected) == rows
    ensures (forall c :: !isSelected(c)) ==> Filter(rows, isSelected) == []
  {
    if rows != [] {
      FilterAllOrNothing(rows[1..], isSelected);
    }
  }
}
