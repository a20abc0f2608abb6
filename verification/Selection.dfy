/** The kernels tree: toggling rows and reading off the change list
    (crates/cachyos-kernel-manager-core/src/selection.rs). */
module Selection {
  import opened Text
  import opened Sequences

  datatype KernelRow = KernelRow(
    raw: string, name: string, installed: bool, immutable: bool, updateAvailable: bool, checked: bool)

  class SelectionState {
    var rows: seq<KernelRow>

    constructor (rows: seq<KernelRow>)
      ensures this.rows == rows
    {
      this.rows := rows;
    }

    /** Flips one checkbox; a row index that does not exist is ignored. */
    method ToggleRow(i: nat)
      modifies this
      ensures rows == Toggle(old(rows), i)
    {
      if i < |rows| {
        rows := rows[i := rows[i].(checked := !rows[i].checked)];
      }
    }

    /** The push/retain walk over the rows. */
    method ChangeList() returns (list: seq<string>)
      ensures list == Changes(rows)
    {
      list := [];
      for n := 0 to |rows|
        invariant list == Changes(rows[..n])
      {
        var row := rows[n];
        assert rows[..n + 1] == rows[..n] + [row];
        ChangesStep(rows[..n], row);
        if row.immutable && !row.checked {
          list := list + [row.raw];
        } else if row.immutable && row.checked {
          list := Without(list, row.raw);
        } else if row.checked {
          list := list + [row.raw];
        } else {
          list := Without(list, row.raw);
        }
      }
      assert rows[..|rows|] == rows;
    }
  }

  /** The row asks for a change: its checkbox differs from its marker. */
  predicate Pending(row: KernelRow) {
    row.immutable != row.checked
  }

  /** Row `i` asks for a change and so does every later row of the same raw name. */
  predicate Kept(rows: seq<KernelRow>, i: nat)
    requires i < |rows|
  {
    Pending(rows[i]) && forall j | i < j < |rows| && rows[j].raw == rows[i].raw :: Pending(rows[j])
  }

  /** The raw names of the marked rows, in row order. */
  function Pick(rows: seq<KernelRow>, mark: seq<bool>): seq<string>
    requires |mark| == |rows|
  {
    if rows == [] then []
    else
      var n := |rows| - 1;
      Pick(rows[..n], mark[..n]) + (if mark[n] then [rows[n].raw] else [])
  }

  function KeptMarks(rows: seq<KernelRow>): seq<bool> {
    seq(|rows|, i requires 0 <= i < |rows| => Kept(rows, i))
  }

  /** What the change list means: exactly the kept rows, in row order. */
  function Changes(rows: seq<KernelRow>): seq<string> {
    Pick(rows, KeptMarks(rows))
  }

  function Without(list: seq<string>, raw: string): seq<string> {
    if list == [] then []
    else
      var n := |list| - 1;
      Without(list[..n], raw) + (if list[n] == raw then [] else [list[n]])
  }

  lemma {:induction false} WithoutAppend(list: seq<string>, x: string, raw: string)
    ensures Without(list + [x], raw) == Without(list, raw) + (if x == raw then [] else [x])
  {
    assert (list + [x])[..|list|] == list;
  }

  lemma {:induction false} PickWithout(rows: seq<KernelRow>, mark: seq<bool>, fewer: seq<bool>, raw: string)
    requires |mark| == |fewer| == |rows|
    requires forall i | 0 <= i < |rows| :: fewer[i] == (mark[i] && rows[i].raw != raw)
    ensures Pick(rows, fewer) == Without(Pick(rows, mark), raw)
  {
    if rows != [] {
      var n := |rows| - 1;
      PickWithout(rows[..n], mark[..n], fewer[..n], raw);
      if mark[n] {
        WithoutAppend(Pick(rows[..n], mark[..n]), rows[n].raw, raw);
      } else {
        assert Pick(rows, mark) == Pick(rows[..n], mark[..n]);
      }
    }
  }

  lemma {:induction false} ChangesStep(rows: seq<KernelRow>, row: KernelRow)
    ensures Changes(rows + [row])
            == if Pending(row) then Changes(rows) + [row.raw] else Without(Changes(rows), row.raw)
  {
    var all := rows + [row];
    var n := |rows|;
    var marks := KeptMarks(all);
    assert all[..n] == rows;
    forall i | 0 <= i < n
      ensures marks[i] == (Kept(rows, i) && (rows[i].raw == row.raw ==> Pending(row)))
    {
      assert all[i] == rows[i] && all[n] == row;
      assert forall j | i < j < n :: all[j] == rows[j];
    }
    if Pending(row) {
      assert marks[..n] == KeptMarks(rows);
    } else {
      PickWithout(rows, KeptMarks(rows), marks[..n], row.raw);
    }
  }

  // ---------- the two phase filters ----------

  function FirstRow(rows: seq<KernelRow>, raw: string): (r: Option<KernelRow>)
    ensures r.Some? ==> r.value in rows && r.value.raw == raw
    ensures r.None? ==> forall row | row in rows :: row.raw != raw
  {
    if rows == [] then None
    else if rows[0].raw == raw then Some(rows[0])
    else FirstRow(rows[1..], raw)
  }

  /** Judged by the first row of that name. */
  predicate Installable(rows: seq<KernelRow>, raw: string) {
    var row := FirstRow(rows, raw);
    row.Some? && (!row.value.installed || row.value.updateAvailable)
  }

  predicate Removable(rows: seq<KernelRow>, raw: string) {
    exists row | row in rows :: row.raw == raw && row.installed
  }

  function Filter(list: seq<string>, keep: string -> bool): (r: seq<string>)
    ensures forall raw :: raw in r <==> raw in list && keep(raw)
  {
    if list == [] then []
    else (if keep(list[0]) then [list[0]] else []) + Filter(list[1..], keep)
  }

  function InstallSet(rows: seq<KernelRow>): seq<string> {
    Filter(Changes(rows), raw => Installable(rows, raw))
  }

  function RemovalSet(rows: seq<KernelRow>): seq<string> {
    Filter(Changes(rows), raw => Removable(rows, raw))
  }

  lemma {:induction false} FilterAppend(a: seq<string>, b: seq<string>, keep: string -> bool)
    ensures Filter(a + b, keep) == Filter(a, keep) + Filter(b, keep)
  {
    if a == [] {
      assert a + b == b;
    } else {
      assert (a + b)[1..] == a[1..] + b;
      FilterAppend(a[1..], b, keep);
    }
  }

  function Marked(rows: seq<KernelRow>, mark: seq<bool>): seq<(bool, string)>
    requires |mark| == |rows|
  {
    seq(|rows|, i requires 0 <= i < |rows| => (mark[i], rows[i].raw))
  }

  function MarkedAnd(keep: string -> bool): ((bool, string)) -> bool {
    (x: (bool, string)) => x.0 && keep(x.1)
  }

  function RawOf(x: (bool, string)): string {
    x.1
  }

  lemma FilterStep(rows: seq<KernelRow>, mark: seq<bool>, keep: string -> bool)
    requires |mark| == |rows| && rows != []
    ensures var n := |rows| - 1;
            var before := Filter(Pick(rows[..n], mark[..n]), keep);
            Filter(Pick(rows, mark), keep) == if mark[n] && keep(rows[n].raw) then before + [rows[n].raw] else before
  {
    hide Filter;
    var n := |rows| - 1;
    var before, raw := Pick(rows[..n], mark[..n]), rows[n].raw;
    assert Pick(rows, mark) == if mark[n] then before + [raw] else before;
    hide Pick;
    FilterOne(raw, keep);
    FilterAppend(before, [raw], keep);
  }

  lemma FilterNone(keep: string -> bool)
    ensures Pick([], []) == [] && Filter([], keep) == []
  {
  }

  lemma FilterOne(raw: string, keep: string -> bool)
    ensures Filter([raw], keep) == if keep(raw) then [raw] else []
  {
    assert [raw][1..] == [];
  }

  /** A phase filter takes exactly the marked rows it keeps, in row order. */
  lemma {:induction false} FilteredRows(rows: seq<KernelRow>, mark: seq<bool>, keep: string -> bool) returns (at: seq<nat>)
    requires |mark| == |rows|
    ensures Sifts(Marked(rows, mark), MarkedAnd(keep), RawOf, Filter(Pick(rows, mark), keep), at)
  {
    hide Sifts, Filter, Pick;
    if rows == [] {
      at := [];
      FilterNone(keep);
      SiftsNone(MarkedAnd(keep), RawOf);
    } else {
      var n := |rows| - 1;
      var xs, x := Marked(rows[..n], mark[..n]), (mark[n], rows[n].raw);
      at := FilteredRows(rows[..n], mark[..n], keep);
      FilterStep(rows, mark, keep);
      at := SiftsSnoc(xs, x, MarkedAnd(keep), RawOf, Filter(Pick(rows[..n], mark[..n]), keep), at);
      assert Marked(rows, mark) == xs + [x];
      assert MarkedAnd(keep)(x) == (mark[n] && keep(rows[n].raw)) && RawOf(x) == rows[n].raw;
    }
  }

  lemma {:induction false} PickMembers(rows: seq<KernelRow>, mark: seq<bool>, raw: string)
    requires |mark| == |rows|
    ensures raw in Pick(rows, mark) <==> exists i :: 0 <= i < |rows| && mark[i] && rows[i].raw == raw
  {
    if rows != [] {
      var n := |rows| - 1;
      PickMembers(rows[..n], mark[..n], raw);
      if exists i :: 0 <= i < |rows| && mark[i] && rows[i].raw == raw {
        var i :| 0 <= i < |rows| && mark[i] && rows[i].raw == raw;
        assert i < n ==> mark[..n][i] && rows[..n][i].raw == raw;
      }
    }
  }

  ghost predicate DistinctRaws(rows: seq<KernelRow>) {
    forall i, j | 0 <= i < j < |rows| :: rows[i].raw != rows[j].raw
  }

  /** No change is lost: each entry is installed or removed. With distinct names it is both
      exactly for an installed row with an update. */
  lemma {:induction false} EveryChangeActs(rows: seq<KernelRow>, raw: string)
    requires raw in Changes(rows)
    ensures raw in InstallSet(rows) || raw in RemovalSet(rows)
    ensures DistinctRaws(rows) ==>
              exists i :: 0 <= i < |rows| && rows[i].raw == raw && Pending(rows[i])
                          && (raw in RemovalSet(rows) <==> rows[i].installed)
                          && (raw in InstallSet(rows) && raw in RemovalSet(rows)
                              <==> rows[i].installed && rows[i].updateAvailable)
  {
    PickMembers(rows, KeptMarks(rows), raw);
    var i :| 0 <= i < |rows| && KeptMarks(rows)[i] && rows[i].raw == raw;
    var first := FirstRow(rows, raw);
    assert rows[i] in rows;
    if DistinctRaws(rows) {
      var f :| 0 <= f < |rows| && rows[f] == first.value;
      assert f == i;
      assert forall row | row in rows && row.raw == raw :: row == rows[i];
    }
  }

  // ---------- toggles over whole sessions ----------

  function Toggle(rows: seq<KernelRow>, i: nat): seq<KernelRow> {
    if i < |rows| then rows[i := rows[i].(checked := !rows[i].checked)] else rows
  }

  function ToggleAll(rows: seq<KernelRow>, presses: seq<nat>): seq<KernelRow> {
    if presses == [] then rows
    else Toggle(ToggleAll(rows, presses[..|presses| - 1]), presses[|presses| - 1])
  }

  predicate Odd(presses: seq<nat>, i: nat) {
    presses != [] && (Odd(presses[..|presses| - 1], i) != (presses[|presses| - 1] == i))
  }

  /** Rows as the tree is first filled: checked means installed and immutable. */
  ghost predicate Fresh(rows: seq<KernelRow>) {
    forall row | row in rows :: row.checked == (row.installed && row.immutable) && (row.immutable ==> row.installed)
  }

  lemma {:induction false} ToggleParity(rows: seq<KernelRow>, presses: seq<nat>)
    ensures var after := ToggleAll(rows, presses);
            |after| == |rows|
            && forall i | 0 <= i < |rows| :: after[i] == rows[i].(checked := rows[i].checked != Odd(presses, i))
  {
    if presses != [] {
      ToggleParity(rows, presses[..|presses| - 1]);
    }
  }

  lemma {:induction false} PickSameRaws(rows: seq<KernelRow>, other: seq<KernelRow>, mark: seq<bool>)
    requires |mark| == |rows| == |other|
    requires forall i | 0 <= i < |rows| :: rows[i].raw == other[i].raw
    ensures Pick(rows, mark) == Pick(other, mark)
  {
    if rows != [] {
      var n := |rows| - 1;
      PickSameRaws(rows[..n], other[..n], mark[..n]);
    }
  }

  /** Toggled an odd number of times, and so was every later row of the same raw name. */
  function OddMarks(rows: seq<KernelRow>, presses: seq<nat>): seq<bool> {
    seq(|rows|, i requires 0 <= i < |rows| =>
      Odd(presses, i) && forall j | i < j < |rows| && rows[j].raw == rows[i].raw :: Odd(presses, j))
  }

  /** After any session the change list is the oddly toggled rows. */
  lemma {:induction false} ChangesAreOddToggles(rows: seq<KernelRow>, presses: seq<nat>)
    requires Fresh(rows)
    ensures Changes(ToggleAll(rows, presses)) == Pick(rows, OddMarks(rows, presses))
    ensures DistinctRaws(rows) ==>
              Changes(ToggleAll(rows, presses)) == Pick(rows, seq(|rows|, i requires 0 <= i < |rows| => Odd(presses, i)))
  {
    var after := ToggleAll(rows, presses);
    ToggleParity(rows, presses);
    forall i | 0 <= i < |rows| ensures Pending(after[i]) == Odd(presses, i) {
      assert rows[i] in rows;
    }
    assert KeptMarks(after) == OddMarks(rows, presses);
    PickSameRaws(after, rows, OddMarks(rows, presses));
    if DistinctRaws(rows) {
      assert OddMarks(rows, presses) == seq(|rows|, i requires 0 <= i < |rows| => Odd(presses, i));
    }
  }

  // ---------- presses by raw name ----------

  /** The position of the first row of that name at or after `from`. */
  function RowFrom(rows: seq<KernelRow>, raw: string, from: nat): (r: Option<nat>)
    ensures r.Some? ==> from <= r.value < |rows| && rows[r.value].raw == raw
                        && forall j | from <= j < r.value :: rows[j].raw != raw
    ensures r.None? ==> forall j | from <= j < |rows| :: rows[j].raw != raw
    decreases |rows| - from
  {
    if from >= |rows| then None
    else if rows[from].raw == raw then Some(from)
    else RowFrom(rows, raw, from + 1)
  }

  /** The window and the plan tool both name a row by its raw name and flip the first such row. */
  function Press(rows: seq<KernelRow>, raw: string): seq<KernelRow> {
    var i := RowFrom(rows, raw, 0);
    if i.Some? then Toggle(rows, i.value) else rows
  }

  function PressAll(rows: seq<KernelRow>, presses: seq<string>): seq<KernelRow> {
    if presses == [] then rows
    else Press(PressAll(rows, presses[..|presses| - 1]), presses[|presses| - 1])
  }

  predicate OddTimes(presses: seq<string>, raw: string) {
    presses != [] && (OddTimes(presses[..|presses| - 1], raw) != (presses[|presses| - 1] == raw))
  }

  predicate FirstOfName(rows: seq<KernelRow>, i: nat)
    requires i < |rows|
  {
    forall j | 0 <= j < i :: rows[j].raw != rows[i].raw
  }

  /** No other row has the name of row `i`. */
  predicate Alone(rows: seq<KernelRow>, i: nat)
    requires i < |rows|
  {
    forall j | 0 <= j < |rows| && rows[j].raw == rows[i].raw :: j == i
  }

  lemma {:induction false} PressParity(rows: seq<KernelRow>, presses: seq<string>)
    ensures var after := PressAll(rows, presses);
            |after| == |rows|
            && forall i | 0 <= i < |rows| ::
                 after[i] == rows[i].(checked := rows[i].checked != (FirstOfName(rows, i) && OddTimes(presses, rows[i].raw)))
  {
    if presses != [] {
      var n := |presses| - 1;
      PressParity(rows, presses[..n]);
      var before, raw := PressAll(rows, presses[..n]), presses[n];
      var hit := RowFrom(before, raw, 0);
      forall i | 0 <= i < |rows| ensures hit == Some(i) <==> FirstOfName(rows, i) && rows[i].raw == raw {
        assert forall j | 0 <= j < |rows| :: before[j].raw == rows[j].raw;
      }
    }
  }

  lemma {:induction false} SameNamesSameRow(rows: seq<KernelRow>, other: seq<KernelRow>, raw: string, from: nat)
    requires |rows| == |other| && forall i | 0 <= i < |rows| :: rows[i].raw == other[i].raw
    ensures RowFrom(rows, raw, from) == RowFrom(other, raw, from)
    decreases |rows| - from
  {
    if from < |rows| {
      SameNamesSameRow(rows, other, raw, from + 1);
    }
  }

  /** The presses one after the other; none when a name has no row. */
  method PressEach(rows: seq<KernelRow>, presses: seq<string>) returns (r: Option<seq<KernelRow>>)
    ensures r.Some? <==> forall raw | raw in presses :: RowFrom(rows, raw, 0).Some?
    ensures r.Some? ==> r.value == PressAll(rows, presses)
  {
    var selection := new SelectionState(rows);
    for i := 0 to |presses|
      invariant selection.rows == PressAll(rows, presses[..i])
      invariant forall raw | raw in presses[..i] :: RowFrom(rows, raw, 0).Some?
    {
      assert presses[..i + 1] == presses[..i] + [presses[i]];
      PressParity(rows, presses[..i]);
      SameNamesSameRow(rows, selection.rows, presses[i], 0);
      var row := RowFrom(selection.rows, presses[i], 0);
      if row.None? {
        return None;
      }
      selection.ToggleRow(row.value);
    }
    assert presses[..|presses|] == presses;
    r := Some(selection.rows);
  }

  /** Pressed an odd number of times, and the only row of its name. */
  function SoleOddMarks(rows: seq<KernelRow>, presses: seq<string>): seq<bool> {
    seq(|rows|, i requires 0 <= i < |rows| => Alone(rows, i) && OddTimes(presses, rows[i].raw))
  }

  /** After any session the change list is the oddly pressed names that only one row has: the later
      rows of a shared name are never pressed, and the last of them takes the name out again. */
  lemma {:induction false} ChangesAreOddPresses(rows: seq<KernelRow>, presses: seq<string>)
    requires Fresh(rows)
    ensures Changes(PressAll(rows, presses)) == Pick(rows, SoleOddMarks(rows, presses))
  {
    var after := PressAll(rows, presses);
    PressParity(rows, presses);
    forall i | 0 <= i < |rows|
      ensures Pending(after[i]) == (FirstOfName(rows, i) && OddTimes(presses, rows[i].raw)) && after[i].raw == rows[i].raw
    {
      assert rows[i] in rows;
    }
    forall i, j | 0 <= i < j < |rows| && rows[j].raw == rows[i].raw ensures !Pending(after[j]) {
      assert !FirstOfName(rows, j);
    }
    forall i | 0 <= i < |rows| ensures Kept(after, i) == SoleOddMarks(rows, presses)[i] {
      assert Alone(rows, i) <==> FirstOfName(rows, i) && forall j | i < j < |rows| :: rows[j].raw != rows[i].raw;
    }
    assert KeptMarks(after) == SoleOddMarks(rows, presses);
    PickSameRaws(after, rows, SoleOddMarks(rows, presses));
  }

  /** So a changed name belongs to exactly one row. */
  lemma {:induction false} ChangedOnce(rows: seq<KernelRow>, presses: seq<string>, raw: string) returns (i: nat)
    requires Fresh(rows) && raw in Changes(PressAll(rows, presses))
    ensures i < |rows| && rows[i].raw == raw && Alone(rows, i) && OddTimes(presses, raw)
  {
    ChangesAreOddPresses(rows, presses);
    var marks := SoleOddMarks(rows, presses);
    PickMembers(rows, marks, raw);
    i :| 0 <= i < |rows| && marks[i] && rows[i].raw == raw;
  }
}
