/**
  The table view-models built from server rows (src/Utilities/DataMappers.js).

  A server row is `{ id, attributes }`. The two advisory mappers interleave
  each row with one child "description" row that points back at its parent
  by output index; the systems mapper projects three advisory counts.
  Expansion and selection are id-keyed plain objects whose entries count
  only when they are exactly `true`.
 */
module DataMappers {
  import opened JsValues

  datatype ServerRow = ServerRow(id: string, attributes: map<string, Value>)

  /** One entry of the expandable advisories table. The child's single cell
      wraps the row's description; the markup around it is not modelled. */
  datatype TableRow =
    | ParentRow(id: string, isOpen: bool, selected: bool, cells: seq<Value>)
    | ChildRow(description: Value, parent: nat)

  /** Which columns a parent row shows: the advisories list has an
      "applicable systems" column, the per-system advisories list does not. */
  datatype Layout = AdvisoriesLayout | SystemAdvisoriesLayout

  function ParentCells(layout: Layout, row: ServerRow): seq<Value> {
    var a := row.attributes;
    match layout
    case AdvisoriesLayout =>
      [Str(row.id), Get(a, "public_date"), Get(a, "advisory_type"),
       Get(a, "applicable_systems"), Get(a, "synopsis")]
    case SystemAdvisoriesLayout =>
      [Str(row.id), Get(a, "public_date"), Get(a, "advisory_type"), Get(a, "synopsis")]
  }

  /** The parent/child pair produced for the row at position `index`. */
  function RowPair(layout: Layout, row: ServerRow, index: nat,
                   expandedRows: map<string, Value>, selectedRows: map<string, Value>): seq<TableRow>
  {
    [ ParentRow(row.id, IsTrue(Get(expandedRows, row.id)), IsTrue(Get(selectedRows, row.id)),
                ParentCells(layout, row)),
      ChildRow(Get(row.attributes, "description"), index * 2) ]
  }

  /** `flatMap(rows, (row, index) => RowPair(...))`. */
  function Interleave(layout: Layout, rows: seq<ServerRow>,
                      expandedRows: map<string, Value>, selectedRows: map<string, Value>): (r: seq<TableRow>)
    ensures |r| == 2 * |rows|
    ensures forall i :: 0 <= i < |rows| ==>
              r[2 * i] == RowPair(layout, rows[i], i, expandedRows, selectedRows)[0] &&
              r[2 * i + 1] == RowPair(layout, rows[i], i, expandedRows, selectedRows)[1]
    decreases |rows|
  {
    if rows == [] then []
    else
      var n := |rows| - 1;
      Interleave(layout, rows[..n], expandedRows, selectedRows)
        + RowPair(layout, rows[n], n, expandedRows, selectedRows)
  }

  /** createAdvisoriesRows */
  function CreateAdvisoriesRows(rows: seq<ServerRow>,
                                expandedRows: map<string, Value>, selectedRows: map<string, Value>): (r: seq<TableRow>)
    ensures |r| == 2 * |rows|
    ensures forall i :: 0 <= i < |rows| ==>
              var p := r[2 * i];
              var a := rows[i].attributes;
              && p.ParentRow?
              && p.id == rows[i].id
              && (p.isOpen <==> rows[i].id in expandedRows && expandedRows[rows[i].id] == Bool(true))
              && (p.selected <==> rows[i].id in selectedRows && selectedRows[rows[i].id] == Bool(true))
              && p.cells == [Str(rows[i].id), Get(a, "public_date"), Get(a, "advisory_type"),
                             Get(a, "applicable_systems"), Get(a, "synopsis")]
    ensures forall i :: 0 <= i < |rows| ==>
              r[2 * i + 1] == ChildRow(Get(rows[i].attributes, "description"), 2 * i)
  {
    Interleave(AdvisoriesLayout, rows, expandedRows, selectedRows)
  }

  /** createSystemAdvisoriesRows: the same interleaving with four parent cells. */
  function CreateSystemAdvisoriesRows(rows: seq<ServerRow>,
                                      expandedRows: map<string, Value>, selectedRows: map<string, Value>): (r: seq<TableRow>)
    ensures |r| == 2 * |rows|
    ensures forall i :: 0 <= i < |rows| ==>
              var p := r[2 * i];
              var a := rows[i].attributes;
              && p.ParentRow?
              && p.id == rows[i].id
              && (p.isOpen <==> rows[i].id in expandedRows && expandedRows[rows[i].id] == Bool(true))
              && (p.selected <==> rows[i].id in selectedRows && selectedRows[rows[i].id] == Bool(true))
              && p.cells == [Str(rows[i].id), Get(a, "public_date"), Get(a, "advisory_type"), Get(a, "synopsis")]
    ensures forall i :: 0 <= i < |rows| ==>
              r[2 * i + 1] == ChildRow(Get(rows[i].attributes, "description"), 2 * i)
  {
    Interleave(SystemAdvisoriesLayout, rows, expandedRows, selectedRows)
  }

  /** The ids of the parent rows of a table, in table order. */
  function ParentIds(table: seq<TableRow>): seq<string> {
    if table == [] then []
    else
      var rest := ParentIds(table[1..]);
      if table[0].ParentRow? then [table[0].id] + rest else rest
  }

  function Ids(rows: seq<ServerRow>): (ids: seq<string>)
    ensures |ids| == |rows|
    ensures forall i :: 0 <= i < |rows| ==> ids[i] == rows[i].id
  {
    seq(|rows|, i requires 0 <= i < |rows| => rows[i].id)
  }

  lemma {:induction false} ParentIdsAppend(a: seq<TableRow>, b: seq<TableRow>)
    ensures ParentIds(a + b) == ParentIds(a) + ParentIds(b)
    decreases |a|
  {
    if a == [] {
      assert a + b == b;
    } else {
      assert (a + b)[1..] == a[1..] + b;
      ParentIdsAppend(a[1..], b);
    }
  }

  /** Reading the parent rows back out of an interleaved table gives the
      server rows' ids in their original order: nothing is dropped,
      duplicated or reordered. */
  lemma {:induction false} InterleavePreservesOrder(layout: Layout, rows: seq<ServerRow>,
                                                    expandedRows: map<string, Value>, selectedRows: map<string, Value>)
    ensures ParentIds(Interleave(layout, rows, expandedRows, selectedRows)) == Ids(rows)
    decreases |rows|
  {
    if rows != [] {
      var n := |rows| - 1;
      var pair := RowPair(layout, rows[n], n, expandedRows, selectedRows);
      InterleavePreservesOrder(layout, rows[..n], expandedRows, selectedRows);
      ParentIdsAppend(Interleave(layout, rows[..n], expandedRows, selectedRows), pair);
      assert pair[1..][1..] == [];
      assert pair[1].ChildRow? && ParentIds(pair[1..]) == [];
      assert ParentIds(pair) == [rows[n].id];
      assert Ids(rows) == Ids(rows[..n]) + [rows[n].id];
    }
  }

  /** Every child row's `parent` is the output index of the parent row built
      from the same server row, which sits immediately before it; rows at
      even positions are parents and rows at odd positions are children. */
  lemma ChildPointsToOwnParent(layout: Layout, rows: seq<ServerRow>,
                               expandedRows: map<string, Value>, selectedRows: map<string, Value>, j: nat)
    requires j < 2 * |rows|
    ensures var r := Interleave(layout, rows, expandedRows, selectedRows);
            && (r[j].ParentRow? <==> j % 2 == 0)
            && (r[j].ChildRow? ==>
                  && r[j].parent == j - 1
                  && r[r[j].parent].ParentRow?
                  && r[r[j].parent].id == rows[j / 2].id
                  && r[j].description == Get(rows[j / 2].attributes, "description"))
  {
  }

  /** A selection entry that is anything other than exactly `true` (for
      instance a remediation filename string) renders as not selected. */
  lemma NonBooleanSelectionRendersUnselected(rows: seq<ServerRow>,
                                             expandedRows: map<string, Value>, selectedRows: map<string, Value>, i: nat)
    requires i < |rows|
    requires rows[i].id in selectedRows && selectedRows[rows[i].id].Str?
    ensures !CreateAdvisoriesRows(rows, expandedRows, selectedRows)[2 * i].selected
    ensures !CreateSystemAdvisoriesRows(rows, expandedRows, selectedRows)[2 * i].selected
  {
  }

  datatype SystemRow = SystemRow(id: string, key: string, applicableAdvisories: seq<Value>)

  /** `count || 0` */
  function CountOrZero(count: Value): (r: Value)
    ensures Truthy(r) || r == Num(0)
    ensures Truthy(count) ==> r == count
    ensures !Truthy(count) ==> r == Num(0)
  {
    Or(count, Num(0))
  }

  function SystemRowOf(row: ServerRow): SystemRow {
    var a := row.attributes;
    SystemRow(row.id, row.id,
              [CountOrZero(Get(a, "rhea_count")), CountOrZero(Get(a, "rhba_count")), CountOrZero(Get(a, "rhsa_count"))])
  }

  /** createSystemsRows */
  function CreateSystemsRows(rows: seq<ServerRow>): (r: seq<SystemRow>)
    ensures |r| == |rows|
    ensures forall i :: 0 <= i < |rows| ==>
              && r[i].id == rows[i].id
              && r[i].key == rows[i].id
              && |r[i].applicableAdvisories| == 3
              && (forall c :: c in r[i].applicableAdvisories ==> Truthy(c) || c == Num(0))
    ensures forall i :: 0 <= i < |rows| ==>
              var a := rows[i].attributes;
              var shown := r[i].applicableAdvisories;
              && (Truthy(Get(a, "rhea_count")) ==> shown[0] == Get(a, "rhea_count"))
              && (!Truthy(Get(a, "rhea_count")) ==> shown[0] == Num(0))
              && (Truthy(Get(a, "rhba_count")) ==> shown[1] == Get(a, "rhba_count"))
              && (!Truthy(Get(a, "rhba_count")) ==> shown[1] == Num(0))
              && (Truthy(Get(a, "rhsa_count")) ==> shown[2] == Get(a, "rhsa_count"))
              && (!Truthy(Get(a, "rhsa_count")) ==> shown[2] == Num(0))
  {
    seq(|rows|, i requires 0 <= i < |rows| => SystemRowOf(rows[i]))
  }

  /** The three counts appear in the order enhancement, bug fix, security.
      Any truthy count (a non-zero number, a non-empty string, an object)
      passes through unchanged; any falsy one (missing, `undefined`, `null`,
      `false`, `0`, `NaN`, `""`) becomes `0`. */
  lemma SystemsRowCounts(rows: seq<ServerRow>, i: nat, kind: nat)
    requires i < |rows| && kind < 3
    ensures var field := ["rhea_count", "rhba_count", "rhsa_count"][kind];
            var count := Get(rows[i].attributes, field);
            var shown := CreateSystemsRows(rows)[i].applicableAdvisories[kind];
            && (Truthy(count) ==> shown == count)
            && (!Truthy(count) ==> shown == Num(0))
            && (count.Num? && count.n != 0 ==> shown == count)
            && (field !in rows[i].attributes ==> shown == Num(0))
            && (count in {Undefined, Null, Bool(false), Num(0), NaN, Str("")} ==> shown == Num(0))
  {
  }
}
