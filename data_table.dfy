/**
 * The state machine of the DataTable component (DataTable.tsx): the sort
 * configuration and the selected rows, and the handlers that change them.
 *
 * Row objects are values of a type with equality; Dafny equality on `R` plays
 * the part of the identity comparison (`includes`, `!==`) the component uses.
 * The props `data` and `selectable` are parameters of the handlers, because
 * each handler reads the props of the render that created it.
 */
module DataTable {
  import opened Wrappers
  import opened DataTableSort

  /** A column descriptor; `dataIndex` names the field the column shows and sorts by. */
  datatype Column = Column(key: string, title: string, dataIndex: string, sortable: bool)

  /** What `onRowSelect` is called with by one handler, if it is called. */
  datatype Notification<R> =
    | Silent                        // onRowSelect is not called
    | SelectedRows(rows: seq<R>)    // onRowSelect(selection), in selectable mode
    | ClickedRow(row: R)            // onRowSelect(row), when rows are not selectable

  /** The selection after a handler, and what that handler reports. */
  datatype Transition<R> = Transition(selected: seq<R>, notification: Notification<R>)

  // ---------------------------------------------------------------- sorting

  /** `requestSort(key)`: descending only when `key` is the key sorted ascending now. */
  function NextSortConfig(current: Option<SortConfig>, key: string): (next: SortConfig)
    ensures next.key == key
    ensures next.direction == Descending <==> current == Some(SortConfig(key, Ascending))
  {
    var direction :=
      if current.Some? && current.value.key == key && current.value.direction == Ascending
      then Descending else Ascending;
    SortConfig(key, direction)
  }

  /** The sort cycle: a new key starts ascending, then the same key alternates and never returns to unsorted. */
  lemma SortCycle(current: Option<SortConfig>, key: string)
    ensures (current.None? || current.value.key != key) ==>
              NextSortConfig(current, key) == SortConfig(key, Ascending)
    ensures NextSortConfig(Some(SortConfig(key, Ascending)), key) == SortConfig(key, Descending)
    ensures NextSortConfig(Some(SortConfig(key, Descending)), key) == SortConfig(key, Ascending)
    ensures var once := Some(NextSortConfig(current, key));
            NextSortConfig(Some(NextSortConfig(once, key)), key) == once.value
  {
  }

  // -------------------------------------------------------------- selection

  /** The selection with every occurrence of `row` removed, the other rows kept in order. */
  function Without<R(==)>(selected: seq<R>, row: R): (r: seq<R>)
    ensures forall x :: x in r ==> x in selected && x != row
    ensures forall x :: x in selected && x != row ==> x in r
    ensures multiset(r) == multiset(selected)[row := 0]
    ensures row !in selected ==> r == selected
    ensures row in selected ==> |r| < |selected|
  {
    if selected == [] then []
    else
      var h, t := selected[0], selected[1..];
      assert selected == [h] + t;
      var rest := Without(t, row);
      if h == row then rest else [h] + rest
  }

  /** `toggleRowSelection`'s new selection: every copy of `row` removed if it is selected, else `row` appended. */
  function Toggled<R(==)>(selected: seq<R>, row: R): (r: seq<R>)
    ensures row in r <==> row !in selected
    ensures forall x :: x in r && x != row ==> x in selected
    ensures forall x :: x in selected && x != row ==> x in r
    ensures row !in selected ==> r == selected + [row]
    ensures row in selected ==> r == Without(selected, row) && |r| < |selected|
  {
    if row in selected then Without(selected, row) else selected + [row]
  }

  lemma {:induction false} WithoutAppend<R>(a: seq<R>, b: seq<R>, row: R)
    ensures Without(a + b, row) == Without(a, row) + Without(b, row)
  {
    if a == [] {
      assert a + b == b;
    } else {
      var h, t := a[0], a[1..];
      assert a == [h] + t;
      assert (a + b)[0] == h && (a + b)[1..] == t + b;
      WithoutAppend(t, b, row);
      if h == row {
        assert Without(a + b, row) == Without(t + b, row);
      } else {
        assert Without(a + b, row) == [h] + Without(t + b, row);
      }
    }
  }

  /** Toggling a row that was not selected twice gives back the selection exactly. */
  lemma ToggleTwiceRestores<R>(selected: seq<R>, row: R)
    requires row !in selected
    ensures Toggled(Toggled(selected, row), row) == selected
  {
    WithoutAppend(selected, [row], row);
    assert Without([row], row) == [];
  }

  /** Toggling a selected row twice keeps the same rows but moves `row` to the end. */
  lemma ToggleTwiceReorders<R>(selected: seq<R>, row: R)
    requires row in selected
    ensures Toggled(Toggled(selected, row), row) == Without(selected, row) + [row]
  {
  }

  /** No row occurs twice. */
  ghost predicate Distinct<R>(s: seq<R>)
  {
    forall i, j :: 0 <= i < j < |s| ==> s[i] != s[j]
  }

  /** The selection invariant: distinct rows, each one of `data`. */
  ghost predicate SelectionOf<R>(selected: seq<R>, data: seq<R>)
  {
    Distinct(selected) && forall x :: x in selected ==> x in data
  }

  lemma HeadNotInTail<R>(s: seq<R>)
    requires s != [] && Distinct(s)
    ensures s[0] !in s[1..]
  {
    forall k | 0 <= k < |s[1..]| ensures s[1..][k] != s[0] {
      assert s[1..][k] == s[k + 1];
    }
  }

  lemma {:induction false} WithoutDistinct<R>(s: seq<R>, row: R)
    requires Distinct(s)
    ensures Distinct(Without(s, row))
  {
    if s != [] {
      assert Distinct(s[1..]) by {
        forall i, j | 0 <= i < j < |s[1..]| ensures s[1..][i] != s[1..][j] {
          assert s[1..][i] == s[i + 1] && s[1..][j] == s[j + 1];
        }
      }
      WithoutDistinct(s[1..], row);
      if s[0] != row {
        var w := Without(s[1..], row);
        HeadNotInTail(s);
        forall i, j | 0 <= i < j < |[s[0]] + w| ensures ([s[0]] + w)[i] != ([s[0]] + w)[j] {
          if i == 0 {
            assert ([s[0]] + w)[j] == w[j - 1];
            assert w[j - 1] in w;
          } else {
            assert ([s[0]] + w)[i] == w[i - 1] && ([s[0]] + w)[j] == w[j - 1];
          }
        }
      }
    }
  }

  /** Toggling a row of `data` keeps the selection invariant. */
  lemma ToggledKeepsSelection<R>(selected: seq<R>, data: seq<R>, row: R)
    requires SelectionOf(selected, data) && row in data
    ensures SelectionOf(Toggled(selected, row), data)
  {
    if row in selected {
      WithoutDistinct(selected, row);
    } else {
      var r := selected + [row];
      forall i, j | 0 <= i < j < |r| ensures r[i] != r[j] {
        if j == |selected| {
          assert r[i] == selected[i];
        } else {
          assert r[i] == selected[i] && r[j] == selected[j];
        }
      }
    }
  }

  /** `toggleAllRowsSelection`'s new selection: empty when the lengths agree, else a copy of `data`. */
  function AllToggled<R>(selected: seq<R>, data: seq<R>): (r: seq<R>)
    ensures r == [] || r == data
    ensures r == [] <==> |selected| == |data| || data == []
  {
    if |selected| == |data| then [] else data
  }

  /**
   * The `checked` state of the header checkbox. It predicts what select-all
   * does: a checked header clears the selection, and an unchecked one over
   * non-empty data selects every row.
   */
  predicate HeaderChecked<R>(selected: seq<R>, data: seq<R>): (r: bool)
    ensures r ==> AllToggled(selected, data) == []
    ensures !r && data != [] ==> AllToggled(selected, data) == data
  {
    |data| > 0 && |selected| == |data|
  }

  /** On non-empty data select-all goes full, empty, full; the header checkbox flips each time. */
  lemma ToggleAllCycle<R>(selected: seq<R>, data: seq<R>)
    requires data != [] && |selected| != |data|
    ensures AllToggled(selected, data) == data
    ensures AllToggled(AllToggled(selected, data), data) == []
    ensures AllToggled(AllToggled(AllToggled(selected, data), data), data) == data
    ensures !HeaderChecked(selected, data)
    ensures HeaderChecked(AllToggled(selected, data), data)
    ensures !HeaderChecked(AllToggled(AllToggled(selected, data), data), data)
  {
  }

  lemma {:induction false} DistinctCardinality<R>(s: seq<R>)
    requires Distinct(s)
    ensures |set x | x in s| == |s|
  {
    if s != [] {
      assert Distinct(s[1..]) by {
        forall i, j | 0 <= i < j < |s[1..]| ensures s[1..][i] != s[1..][j] {
          assert s[1..][i] == s[i + 1] && s[1..][j] == s[j + 1];
        }
      }
      DistinctCardinality(s[1..]);
      HeadNotInTail(s);
      assert (set x | x in s) == (set x | x in s[1..]) + {s[0]};
    }
  }

  /**
   * Under the selection invariant and distinct data, the length test the
   * component makes is the same as "every row of data is selected".
   */
  lemma LengthTestMeansAllSelected<R>(selected: seq<R>, data: seq<R>)
    requires Distinct(data) && SelectionOf(selected, data)
    ensures |selected| == |data| <==> forall x :: x in data ==> x in selected
  {
    DistinctCardinality(selected);
    DistinctCardinality(data);
    var sel, all := set x | x in selected, set x | x in data;
    assert sel <= all;
    assert all == sel + (all - sel) && sel !! (all - sel);
    assert |all| == |sel| + |all - sel|;
    if |selected| == |data| {
      assert all - sel == {};
      forall x | x in data ensures x in selected {
        assert x in all && x !in all - sel;
      }
    }
    if forall x :: x in data ==> x in selected {
      assert sel == all;
    }
  }

  /** A select-all from a selection of distinct data keeps the selection invariant. */
  lemma AllToggledKeepsSelection<R>(selected: seq<R>, data: seq<R>)
    requires Distinct(data)
    ensures SelectionOf(AllToggled(selected, data), data)
  {
  }

  // --------------------------------------------------------------- handlers

  /**
   * `toggleRowSelection(row)`: the row's membership flips, and in selectable
   * mode the callback receives the new selection itself.
   */
  function ToggleRowTransition<R(==)>(selected: seq<R>, row: R, selectable: bool): (t: Transition<R>)
    ensures row in t.selected <==> row !in selected
    ensures t.selected == Toggled(selected, row)
    ensures selectable ==> t.notification == SelectedRows(t.selected)
    ensures !selectable ==> t.notification == Silent
  {
    var next := Toggled(selected, row);
    Transition(next, if selectable then SelectedRows(next) else Silent)
  }

  /**
   * `toggleAllRowsSelection()`: the selection becomes empty or a copy of all
   * rows, and in selectable mode the callback receives that new selection.
   */
  function ToggleAllTransition<R>(selected: seq<R>, data: seq<R>, selectable: bool): (t: Transition<R>)
    ensures t.selected == [] || t.selected == data
    ensures t.selected == [] <==> HeaderChecked(selected, data) || data == []
    ensures selectable ==> t.notification == SelectedRows(t.selected)
    ensures !selectable ==> t.notification == Silent
  {
    var next := AllToggled(selected, data);
    Transition(next, if selectable then SelectedRows(next) else Silent)
  }

  /**
   * `handleRowClick(row)`: in selectable mode a click toggles the row; otherwise
   * it reports the row alone and leaves the selection as it is.
   */
  function RowClickTransition<R(==)>(selected: seq<R>, row: R, selectable: bool): (t: Transition<R>)
    ensures selectable ==> t == ToggleRowTransition(selected, row, true)
    ensures !selectable ==> t.selected == selected && t.notification == ClickedRow(row)
  {
    if selectable then ToggleRowTransition(selected, row, selectable)
    else Transition(selected, ClickedRow(row))
  }

  /**
   * `handleRowKeyDown(e, row)` for a key event whose `key` is `key`: only Enter
   * and Space act, and the selection changes only in selectable mode.
   */
  function RowKeyDownTransition<R(==)>(selected: seq<R>, key: string, row: R, selectable: bool): (t: Transition<R>)
    ensures t.notification != Silent ==> key == "Enter" || key == " "
    ensures t.selected != selected ==> selectable && (key == "Enter" || key == " ")
  {
    if key == "Enter" || key == " " then
      if selectable then ToggleRowTransition(selected, row, selectable)
      else Transition(selected, ClickedRow(row))
    else Transition(selected, Silent)
  }

  /** Enter and Space on a row do exactly what a click does; any other key changes nothing and reports nothing. */
  lemma KeyDownMatchesClick<R>(selected: seq<R>, key: string, row: R, selectable: bool)
    ensures key == "Enter" || key == " " ==>
              RowKeyDownTransition(selected, key, row, selectable) == RowClickTransition(selected, row, selectable)
    ensures key != "Enter" && key != " " ==>
              RowKeyDownTransition(selected, key, row, selectable) == Transition(selected, Silent)
  {
  }

  /** The component's state: `sortConfig` and `selectedRows`. */
  class TableState<R(==)> {
    var sortConfig: Option<SortConfig>
    var selectedRows: seq<R>

    /** The state at mount: nothing sorted, nothing selected. */
    constructor ()
      ensures sortConfig == None && selectedRows == []
    {
      sortConfig := None;
      selectedRows := [];
    }

    /** The rows in the order the table shows them. */
    function SortedRows(data: seq<R>, value: (R, string) -> int): (r: seq<R>)
      reads this
      ensures multiset(r) == multiset(data)
    {
      SortedData(data, sortConfig, value)
    }

    method RequestSort(key: string)
      modifies this
      ensures sortConfig == Some(NextSortConfig(old(sortConfig), key))
      ensures selectedRows == old(selectedRows)
    {
      var direction := Ascending;
      if sortConfig.Some? && sortConfig.value.key == key && sortConfig.value.direction == Ascending {
        direction := Descending;
      }
      sortConfig := Some(SortConfig(key, direction));
    }

    /** A click on a column header: sorts by the column's field when the column is sortable. */
    method ClickHeader(column: Column)
      modifies this
      ensures column.sortable ==> sortConfig == Some(NextSortConfig(old(sortConfig), column.dataIndex))
      ensures !column.sortable ==> sortConfig == old(sortConfig)
      ensures selectedRows == old(selectedRows)
    {
      if column.sortable {
        RequestSort(column.dataIndex);
      }
    }

    method ToggleRowSelection(row: R, selectable: bool) returns (n: Notification<R>)
      modifies this
      ensures Transition(selectedRows, n) == ToggleRowTransition(old(selectedRows), row, selectable)
      ensures sortConfig == old(sortConfig)
    {
      var next: seq<R>;
      if row in selectedRows {
        next := Without(selectedRows, row);
      } else {
        next := selectedRows + [row];
      }
      selectedRows := next;
      n := Silent;
      if selectable {
        n := SelectedRows(next);
      }
    }

    method ToggleAllRowsSelection(data: seq<R>, selectable: bool) returns (n: Notification<R>)
      modifies this
      ensures Transition(selectedRows, n) == ToggleAllTransition(old(selectedRows), data, selectable)
      ensures sortConfig == old(sortConfig)
    {
      n := Silent;
      if |selectedRows| == |data| {
        selectedRows := [];
        if selectable {
          n := SelectedRows([]);
        }
      } else {
        selectedRows := data;
        if selectable {
          n := SelectedRows(data);
        }
      }
    }

    method HandleRowClick(row: R, selectable: bool) returns (n: Notification<R>)
      modifies this
      ensures Transition(selectedRows, n) == RowClickTransition(old(selectedRows), row, selectable)
      ensures sortConfig == old(sortConfig)
    {
      if selectable {
        n := ToggleRowSelection(row, selectable);
      } else {
        n := ClickedRow(row);
      }
    }

    method HandleRowKeyDown(key: string, row: R, selectable: bool) returns (n: Notification<R>)
      modifies this
      ensures Transition(selectedRows, n) == RowKeyDownTransition(old(selectedRows), key, row, selectable)
      ensures sortConfig == old(sortConfig)
    {
      n := Silent;
      if key == "Enter" || key == " " {
        if selectable {
          n := ToggleRowSelection(row, selectable);
        } else {
          n := ClickedRow(row);
        }
      }
    }
  }

  /**
   * DataTable.test.tsx:61-79 clicks the sortable "name" header twice; a click on
   * the unsortable "email" header between them changes nothing, and a third
   * click on "name" sorts ascending again.
   */
  method SortHeaderScenario() returns (first: Option<SortConfig>, second: Option<SortConfig>,
                                       afterEmail: Option<SortConfig>, third: Option<SortConfig>)
    ensures first == Some(SortConfig("name", Ascending))
    ensures second == Some(SortConfig("name", Descending))
    ensures afterEmail == second
    ensures third == first
  {
    var table := new TableState<int>();
    var name := Column("name", "Name", "name", true);
    var email := Column("email", "Email", "email", false);
    table.ClickHeader(name);
    first := table.sortConfig;
    table.ClickHeader(name);
    second := table.sortConfig;
    table.ClickHeader(email);
    afterEmail := table.sortConfig;
    table.ClickHeader(name);
    third := table.sortConfig;
  }

  /**
   * DataTable.test.tsx:81-99: on a non-selectable table a click and an Enter key
   * on a row both report that row and select nothing. Beyond the test, a Tab key
   * on the same table reports nothing.
   */
  method RowActivationScenario() returns (clicked: Notification<int>, entered: Notification<int>,
                                          tabbed: Notification<int>, selection: seq<int>)
    ensures clicked == ClickedRow(1) && entered == ClickedRow(1)
    ensures tabbed == Silent
    ensures selection == []
  {
    var table := new TableState<int>();
    clicked := table.HandleRowClick(1, false);
    entered := table.HandleRowKeyDown("Enter", 1, false);
    tabbed := table.HandleRowKeyDown("Tab", 1, false);
    selection := table.selectedRows;
  }
}
