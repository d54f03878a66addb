/**
  The pure computations inside the package-systems view
  (src/SmartComponents/PackageSystems/PackageSystems.js), each lifted out of
  the component as a standalone function: the fetch request built from the
  query parameters, the `SELECT_ENTITY` payloads of the bulk-selection
  callback, the remediation filename, the sort-only column list, the
  tri-state header checkbox and the error/table render decision.
 */
module PackageSystems {
  import opened JsValues

  /** A fetched package-system row; only `id` and `available_evra` are read. */
  datatype PackageSystem = PackageSystem(id: string, availableEvra: Value)

  /** A table row from `hosts`; only its `id` is read. */
  datatype Host = Host(id: string)

  // ---------------------------------------------------------------------------
  // Fetch requests

  /** `{ id: packageName, ...queryParams }`: the spread comes second, so a
      query parameter named `id` overrides the package name. */
  function FetchRequest(packageName: string, queryParams: map<string, Value>): (r: map<string, Value>)
    ensures r.Keys == queryParams.Keys + {"id"}
    ensures forall k :: k in queryParams ==> r[k] == queryParams[k]
    ensures "id" !in queryParams ==> r["id"] == Str(packageName)
  {
    map["id" := Str(packageName)] + queryParams
  }

  /** The page size the "select all" fetch asks for. */
  const AllRowsLimit: int := 999999

  /** `{ id: packageName, limit: 999999 }`: the "select all" request carries
      no filter, search, sort or offset of the current view. */
  function AllRequest(packageName: string): (r: map<string, Value>)
    ensures r.Keys == {"id", "limit"}
    ensures r["id"] == Str(packageName) && r["limit"] == Num(AllRowsLimit)
  {
    map["id" := Str(packageName), "limit" := Num(AllRowsLimit)]
  }

  /** The "select all" request never coincides with the paginated request of
      a view that has any filter, search, sort or offset, even when both are
      for the same package. */
  lemma AllRequestIgnoresQuery(packageName: string, queryParams: map<string, Value>)
    requires exists k :: k in queryParams && k != "id" && k != "limit"
    ensures AllRequest(packageName) != FetchRequest(packageName, queryParams)
  {
  }

  // ---------------------------------------------------------------------------
  // Remediation filename

  /** `${packageName}-${system.available_evra}` */
  function Filename(packageName: string, system: PackageSystem): (f: string)
    ensures |f| > |packageName|
    ensures f[..|packageName|] == packageName && f[|packageName|] == '-'
  {
    packageName + "-" + ToText(system.availableEvra)
  }

  predicate IsFilenameFor(packageName: string, f: string) {
    |f| > |packageName| && f[..|packageName|] == packageName && f[|packageName|] == '-'
  }

  /** The text after the package name and the separating dash. */
  function EvraText(packageName: string, f: string): string
    requires IsFilenameFor(packageName, f)
  {
    f[|packageName| + 1..]
  }

  /** For a fixed package, the filename gives back the text of the
      available EVRA it was built from. */
  lemma FilenameRoundTrip(packageName: string, system: PackageSystem)
    ensures IsFilenameFor(packageName, Filename(packageName, system))
    ensures EvraText(packageName, Filename(packageName, system)) == ToText(system.availableEvra)
  {
  }

  /** Two systems of the same package with string EVRAs get the same
      filename exactly when their EVRAs are equal. */
  lemma FilenameInjective(packageName: string, a: PackageSystem, b: PackageSystem)
    requires a.availableEvra.Str? && b.availableEvra.Str?
    ensures Filename(packageName, a) == Filename(packageName, b) <==> a.availableEvra == b.availableEvra
  {
    if Filename(packageName, a) == Filename(packageName, b) {
      FilenameRoundTrip(packageName, a);
      FilenameRoundTrip(packageName, b);
    }
  }

  /** A system without an `available_evra` gets the same filename as one
      whose EVRA is the literal text "undefined". */
  lemma MissingEvraFilename(packageName: string, id: string)
    ensures Filename(packageName, PackageSystem(id, Undefined)) == packageName + "-undefined"
  {
  }

  // ---------------------------------------------------------------------------
  // Selection payloads (`SELECT_ENTITY`)

  /** One `{ id, selected }` entry of a `SELECT_ENTITY` payload. */
  datatype Entry = Entry(id: string, selected: Value)

  /** The payload of the "page" and "all" cases: one entry per row, in row
      order, each selected with the row's remediation filename. */
  function SelectRows(packageName: string, systems: seq<PackageSystem>): (payload: seq<Entry>)
    ensures |payload| == |systems|
    ensures forall i :: 0 <= i < |payload| ==>
              payload[i].id == systems[i].id && payload[i].selected == Str(Filename(packageName, systems[i]))
  {
    seq(|systems|, i requires 0 <= i < |systems| => Entry(systems[i].id, Str(Filename(packageName, systems[i]))))
  }

  /** `order` is `Object.keys(m)`: every key of `m` exactly once. */
  predicate EnumeratesKeys(order: seq<string>, m: map<string, Value>) {
    && (forall i, j :: 0 <= i < j < |order| ==> order[i] != order[j])
    && (forall i :: 0 <= i < |order| ==> order[i] in m)
    && (forall k :: k in m ==> k in order)
  }

  lemma {:induction false} DistinctElementsCount(s: seq<string>)
    requires forall i, j :: 0 <= i < j < |s| ==> s[i] != s[j]
    ensures |set x | x in s| == |s|
    decreases |s|
  {
    if s != [] {
      var rest := s[1..];
      DistinctElementsCount(rest);
      assert (set x | x in s) == {s[0]} + (set x | x in rest);
      assert s[0] !in rest;
    }
  }

  /** A key enumeration is exactly as long as the map has keys. */
  lemma KeyOrderLength(order: seq<string>, m: map<string, Value>)
    requires EnumeratesKeys(order, m)
    ensures |order| == |m|
  {
    DistinctElementsCount(order);
    assert (set x | x in order) == m.Keys;
  }

  /** An entry with `selected: false` for every key currently in
      `selectedRows`, each key once, and nothing else. */
  predicate DeselectsEveryKey(payload: seq<Entry>, selectedRows: map<string, Value>) {
    && |payload| == |selectedRows|
    && (forall i, j :: 0 <= i < j < |payload| ==> payload[i].id != payload[j].id)
    && (forall i :: 0 <= i < |payload| ==> payload[i].id in selectedRows && payload[i].selected == Bool(false))
    && (forall k :: k in selectedRows ==> exists i :: 0 <= i < |payload| && payload[i].id == k)
  }

  /** The payload of the "none" case, in `Object.keys` order. */
  function NoneEntries(selectedRows: map<string, Value>, keyOrder: seq<string>): (payload: seq<Entry>)
    requires EnumeratesKeys(keyOrder, selectedRows)
    ensures DeselectsEveryKey(payload, selectedRows)
    ensures |payload| == |keyOrder| && forall i :: 0 <= i < |payload| ==> payload[i].id == keyOrder[i]
  {
    KeyOrderLength(keyOrder, selectedRows);
    var payload := seq(|keyOrder|, i requires 0 <= i < |keyOrder| => Entry(keyOrder[i], Bool(false)));
    assert forall k :: k in keyOrder ==> exists i :: 0 <= i < |payload| && payload[i].id == k by {
      forall k | k in keyOrder ensures exists i :: 0 <= i < |payload| && payload[i].id == k {
        var j :| 0 <= j < |keyOrder| && keyOrder[j] == k;
        assert payload[j].id == k;
      }
    }
    payload
  }

  /** The single-row case: `{ id: hosts[rowId].id, selected: selected &&
      constructFilename(rawPackageSystems[rowId]) }`. Reading a property of a
      missing row raises a TypeError; a falsy `selected` short-circuits, so
      deselecting never reads `rawPackageSystems`. */
  function RowToggle(packageName: string, selected: Value, rowId: int,
                     hosts: seq<Host>, rawPackageSystems: seq<PackageSystem>): (r: Result<seq<Entry>>)
    ensures r.Success? <==> 0 <= rowId < |hosts| && (Truthy(selected) ==> rowId < |rawPackageSystems|)
    ensures r.Success? ==>
              && |r.value| == 1
              && r.value[0].id == hosts[rowId].id
              && (Truthy(selected) ==> r.value[0].selected == Str(Filename(packageName, rawPackageSystems[rowId])))
              && (!Truthy(selected) ==> r.value[0].selected == selected)
  {
    if !(0 <= rowId < |hosts|) then Failure(TypeError)
    else if !Truthy(selected) then Success([Entry(hosts[rowId].id, selected)])
    else if !(0 <= rowId < |rawPackageSystems|) then Failure(TypeError)
    else Success([Entry(hosts[rowId].id, Str(Filename(packageName, rawPackageSystems[rowId])))])
  }

  /** What one call of the selection callback does: dispatch a payload at
      once, or start the unbounded fetch whose response `AllCallback` turns
      into a payload. */
  datatype Effect =
    | Dispatch(payload: seq<Entry>)
    | FetchThenSelect(request: map<string, Value>)

  /** The state the selection callback reads. `selectedKeys` is
      `Object.keys(selectedRows)`. */
  datatype SelectContext = SelectContext(
    packageName: string,
    selectedRows: map<string, Value>,
    selectedKeys: seq<string>,
    rawPackageSystems: seq<PackageSystem>,
    hosts: seq<Host>)

  /** `onSelect(event, selected, rowId)`: the `switch` on `event`. Any event
      other than the three strings (the table passes its own event object
      for a row checkbox) is a single-row toggle. */
  function OnSelect(event: Value, selected: Value, rowId: int, ctx: SelectContext): (r: Result<Effect>)
    requires EnumeratesKeys(ctx.selectedKeys, ctx.selectedRows)
    ensures event == Str("none") ==>
              && r.Success? && r.value.Dispatch? && DeselectsEveryKey(r.value.payload, ctx.selectedRows)
              && |r.value.payload| == |ctx.selectedKeys|
              && (forall i :: 0 <= i < |r.value.payload| ==> r.value.payload[i].id == ctx.selectedKeys[i])
    ensures event == Str("page") ==>
              && r.Success? && r.value.Dispatch?
              && |r.value.payload| == |ctx.rawPackageSystems|
              && (forall i :: 0 <= i < |r.value.payload| ==>
                    && r.value.payload[i].id == ctx.rawPackageSystems[i].id
                    && r.value.payload[i].selected == Str(Filename(ctx.packageName, ctx.rawPackageSystems[i])))
    ensures event == Str("all") ==>
              && r.Success? && r.value.FetchThenSelect?
              && r.value.request.Keys == {"id", "limit"}
              && r.value.request["id"] == Str(ctx.packageName)
              && r.value.request["limit"] == Num(AllRowsLimit)
    ensures event !in {Str("none"), Str("page"), Str("all")} ==>
              && (r.Success? <==> 0 <= rowId < |ctx.hosts| && (Truthy(selected) ==> rowId < |ctx.rawPackageSystems|))
              && (r.Success? ==>
                    && r.value.Dispatch? && |r.value.payload| == 1
                    && r.value.payload[0].id == ctx.hosts[rowId].id
                    && (Truthy(selected) ==>
                          r.value.payload[0].selected == Str(Filename(ctx.packageName, ctx.rawPackageSystems[rowId])))
                    && (!Truthy(selected) ==> r.value.payload[0].selected == selected))
  {
    if event == Str("none") then
      Success(Dispatch(NoneEntries(ctx.selectedRows, ctx.selectedKeys)))
    else if event == Str("page") then
      Success(Dispatch(SelectRows(ctx.packageName, ctx.rawPackageSystems)))
    else if event == Str("all") then
      Success(FetchThenSelect(AllRequest(ctx.packageName)))
    else
      match RowToggle(ctx.packageName, selected, rowId, ctx.hosts, ctx.rawPackageSystems)
      case Success(payload) => Success(Dispatch(payload))
      case Failure(e) => Failure(e)
  }

  /** The callback of the "select all" fetch, applied to the response's `data`. */
  function AllCallback(packageName: string, data: seq<PackageSystem>): (e: Effect)
    ensures e.Dispatch?
    ensures |e.payload| == |data|
    ensures forall i :: 0 <= i < |data| ==>
              e.payload[i].id == data[i].id && e.payload[i].selected == Str(Filename(packageName, data[i]))
  {
    Dispatch(SelectRows(packageName, data))
  }

  /** No payload the selection callback builds contains the value `true`:
      selecting stores a filename string and deselecting stores a falsy
      value, so a row mapper testing `selectedRows[id] === true` shows none of
      these rows as selected. */
  lemma PayloadsNeverStoreTrue(event: Value, selected: Value, rowId: int, ctx: SelectContext, data: seq<PackageSystem>)
    requires EnumeratesKeys(ctx.selectedKeys, ctx.selectedRows)
    ensures var r := OnSelect(event, selected, rowId, ctx);
            r.Success? && r.value.Dispatch? ==>
              forall i :: 0 <= i < |r.value.payload| ==> !IsTrue(r.value.payload[i].selected)
    ensures forall i :: 0 <= i < |data| ==> !IsTrue(AllCallback(ctx.packageName, data).payload[i].selected)
  {
  }

  /** The header checkbox of the bulk-select control: a truthy value selects
      all, anything else selects none. */
  function HeaderToggle(value: Value): (event: Value)
    ensures event == Str("all") || event == Str("none")
    ensures Truthy(value) <==> event == Str("all")
  {
    if Truthy(value) then Str("all") else Str("none")
  }

  /** Ticking the header checkbox starts the unbounded fetch; clearing it
      dispatches a payload that deselects every selected key. */
  lemma HeaderToggleEffect(value: Value, ctx: SelectContext)
    requires EnumeratesKeys(ctx.selectedKeys, ctx.selectedRows)
    ensures var r := OnSelect(HeaderToggle(value), Undefined, 0, ctx);
            && r.Success?
            && (Truthy(value) ==> r.value == FetchThenSelect(AllRequest(ctx.packageName)))
            && (!Truthy(value) ==> r.value.Dispatch? && DeselectsEveryKey(r.value.payload, ctx.selectedRows))
  {
  }

  // ---------------------------------------------------------------------------
  // Bulk-select control

  /** The `checked` value of the bulk-select control: `true`, `false` or `null`. */
  datatype CheckState = Checked | Unchecked | Indeterminate

  /** `selectedCount === total_items ? true : selectedCount === 0 ? false : null` */
  function CheckedState(selectedCount: Value, totalItems: Value): (c: CheckState)
    ensures c == Checked <==> StrictEquals(selectedCount, totalItems)
    ensures c == Unchecked <==> !StrictEquals(selectedCount, totalItems) && selectedCount == Num(0)
  {
    if StrictEquals(selectedCount, totalItems) then Checked
    else if StrictEquals(selectedCount, Num(0)) then Unchecked
    else Indeterminate
  }

  /** With numeric counts, the equality test comes first: zero selected of
      zero items is checked, zero of more is unchecked, and anything strictly
      between is indeterminate. */
  lemma CheckedStateOfCounts(count: nat, total: nat)
    ensures CheckedState(Num(count), Num(total)) == Checked <==> count == total
    ensures CheckedState(Num(count), Num(total)) == Unchecked <==> count == 0 && total != 0
    ensures CheckedState(Num(count), Num(total)) == Indeterminate <==> count != total && count != 0
    ensures CheckedState(Num(0), Num(0)) == Checked
  {
  }

  /** A menu entry of the bulk-select dropdown. */
  datatype MenuItem = MenuItem(title: string, event: Value)

  /** `title` is `prefix`, then a decimal number that reads back as `n`,
      then a closing parenthesis. */
  predicate TitleCounts(title: string, prefix: string, n: nat) {
    && |prefix| + 2 <= |title|
    && title[..|prefix|] == prefix
    && title[|title| - 1] == ')'
    && var middle := title[|prefix|..|title| - 1];
       && (forall i :: 0 <= i < |middle| ==> '0' <= middle[i] <= '9')
       && DecimalValue(middle) == n
  }

  /** A title rendered as `${prefix}${n})` advertises exactly `n`. */
  lemma {:induction false} CountTitleReadsBack(prefix: string, n: nat)
    ensures TitleCounts(prefix + NatText(n) + ")", prefix, n)
  {
    var title := prefix + NatText(n) + ")";
    NatTextRoundTrip(n);
    assert title[..|prefix|] == prefix;
    assert title[|prefix|..|title| - 1] == NatText(n);
  }

  /** The three dropdown items: none, page (with the number of rows shown)
      and all (with the server's total). */
  function BulkSelectItems(hostCount: nat, totalItems: Value): (items: seq<MenuItem>)
    ensures |items| == 3
    ensures items[0].event == Str("none") && items[1].event == Str("page") && items[2].event == Str("all")
    ensures TitleCounts(items[0].title, "Select none (", 0)
    ensures TitleCounts(items[1].title, "Select page (", hostCount)
    ensures totalItems.Num? && totalItems.n >= 0 ==> TitleCounts(items[2].title, "Select all (", totalItems.n)
  {
    var items := [ MenuItem("Select none (0)", Str("none")),
                   MenuItem("Select page (" + ToText(Num(hostCount)) + ")", Str("page")),
                   MenuItem("Select all (" + ToText(totalItems) + ")", Str("all")) ];
    assert items[0].title == "Select none (" + NatText(0) + ")" by {
      assert NatText(0) == "0";
    }
    CountTitleReadsBack("Select none (", 0);
    assert items[1].title == "Select page (" + NatText(hostCount) + ")";
    CountTitleReadsBack("Select page (", hostCount);
    assert totalItems.Num? && totalItems.n >= 0 ==> TitleCounts(items[2].title, "Select all (", totalItems.n) by {
      if totalItems.Num? && totalItems.n >= 0 {
        assert items[2].title == "Select all (" + NatText(totalItems.n) + ")";
        CountTitleReadsBack("Select all (", totalItems.n);
      }
    }
    items
  }

  /** What each dropdown item does and how its title counts it, when `hosts`
      has one row per fetched row: "none" deselects every selected key,
      "page" dispatches exactly as many entries as its title shows, and
      "all" starts the unbounded fetch, whose callback dispatches one entry
      per returned row, which is the number in its title whenever the
      server's total counts the returned rows. */
  lemma BulkSelectItemEffects(ctx: SelectContext, totalItems: Value, data: seq<PackageSystem>)
    requires EnumeratesKeys(ctx.selectedKeys, ctx.selectedRows)
    requires |ctx.hosts| == |ctx.rawPackageSystems|
    ensures var items := BulkSelectItems(|ctx.hosts|, totalItems);
            var none := OnSelect(items[0].event, Undefined, 0, ctx);
            var page := OnSelect(items[1].event, Undefined, 0, ctx);
            var all := OnSelect(items[2].event, Undefined, 0, ctx);
            && none.Success? && none.value.Dispatch? && DeselectsEveryKey(none.value.payload, ctx.selectedRows)
            && page.Success? && page.value.Dispatch?
            && TitleCounts(items[1].title, "Select page (", |page.value.payload|)
            && all.Success? && all.value == FetchThenSelect(AllRequest(ctx.packageName))
            && (totalItems == Num(|data|) ==>
                  TitleCounts(items[2].title, "Select all (", |AllCallback(ctx.packageName, data).payload|))
  {
  }

  // ---------------------------------------------------------------------------
  // Columns used for sorting

  /** A column descriptor: a plain object with at least a `key`. */
  type Column = map<string, Value>

  predicate IsUpdatedColumn(c: Column) {
    StrictEquals(Get(c, "key"), Str("updated"))
  }

  /** `columns.filter(({ key }) => key === 'updated')[0]` */
  function FirstUpdated(columns: seq<Column>): (r: Option<Column>)
    ensures r.None? <==> forall j :: 0 <= j < |columns| ==> !IsUpdatedColumn(columns[j])
    ensures r.Some? ==> exists j :: 0 <= j < |columns| && columns[j] == r.value && IsUpdatedColumn(columns[j])
                                    && forall i :: 0 <= i < j ==> !IsUpdatedColumn(columns[i])
  {
    if columns == [] then None
    else if IsUpdatedColumn(columns[0]) then Some(columns[0])
    else
      var r := FirstUpdated(columns[1..]);
      if r.Some? then
        var j :| 0 <= j < |columns[1..]| && columns[1..][j] == r.value && IsUpdatedColumn(columns[1..][j])
                 && forall i :: 0 <= i < j ==> !IsUpdatedColumn(columns[1..][i]);
        assert columns[j + 1] == r.value;
        r
      else
        r
  }

  /** `getMangledColumns`: the static columns followed by the inventory's
      first `updated` column re-keyed as `last_upload`. `inventoryColumns`
      is `None` while the inventory widget has not reported its columns. */
  function MangledColumns(staticColumns: seq<Column>, inventoryColumns: Option<seq<Column>>): (r: seq<Column>)
    ensures |r| == |staticColumns| + 1
    ensures r[..|staticColumns|] == staticColumns
    ensures var last := r[|staticColumns|];
            var updated := if inventoryColumns.Some? then FirstUpdated(inventoryColumns.value) else None;
            && "key" in last && last["key"] == Str("last_upload")
            && (updated.None? ==> last.Keys == {"key"})
            && (updated.Some? ==> last.Keys == updated.value.Keys + {"key"}
                                  && forall k :: k in updated.value && k != "key" ==> last[k] == updated.value[k])
  {
    var updated := if inventoryColumns.Some? then FirstUpdated(inventoryColumns.value) else None;
    var base: Column := if updated.Some? then updated.value else map[];
    staticColumns + [base["key" := Str("last_upload")]]
  }

  // ---------------------------------------------------------------------------
  // Rendering decision

  datatype Status = Idle | Pending | Resolved | Rejected

  datatype View =
    | ErrorView(message: Value)
    | InventoryView(isLoaded: bool)
    | NothingRendered

  /** A rejected fetch shows the error's `detail` (reading it from a missing
      error object raises a TypeError); otherwise the inventory table is
      shown once the widget has loaded, marked loaded exactly when the fetch
      has resolved. */
  function Render(status: Status, error: Option<map<string, Value>>, inventoryLoaded: bool): (r: Result<View>)
    ensures status == Rejected && error.Some? ==> r == Success(ErrorView(Get(error.value, "detail")))
    ensures status == Rejected && error.None? ==> r.Failure?
    ensures status != Rejected ==> r.Success? && !r.value.ErrorView?
    ensures status != Rejected ==> (r.value.InventoryView? <==> inventoryLoaded)
    ensures r.Success? && r.value.InventoryView? ==> (r.value.isLoaded <==> status == Resolved)
  {
    if status == Rejected then
      if error.Some? then Success(ErrorView(Get(error.value, "detail"))) else Failure(TypeError)
    else if inventoryLoaded then Success(InventoryView(status == Resolved))
    else Success(NothingRendered)
  }
}
