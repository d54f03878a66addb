# Package-systems view and row mappers of patchman-ui, in Dafny

This project models two pieces of pure logic from the patch dashboard frontend.

The first is the set of row view-model mappers (`src/Utilities/DataMappers.js`).
They turn server rows plus the id-keyed `expandedRows`/`selectedRows` objects into table rows:
- `createAdvisoriesRows` and `createSystemAdvisoriesRows` interleave every advisory with a child description row that points back at its parent's output index.
- `createSystemsRows` projects three advisory counts per system.

The second is the decision logic inside the package-systems view
(`src/SmartComponents/PackageSystems/PackageSystems.js`). Each piece is lifted out of the component as a pure function:
- the fetch request `{ id: packageName, ...queryParams }`;
- the `SELECT_ENTITY` payloads that `onSelect` builds for `none`, `page`, the `all` fetch callback and a single-row toggle;
- the remediation filename `${packageName}-${available_evra}`;
- `getMangledColumns`;
- the tri-state `checked` value of the bulk-select control, its header toggle and its menu items;
- the error-view / inventory-table render decision and `isLoaded`.

Files:
- `js_values.dfy` (module `JsValues`): the JavaScript value semantics the code relies on. It covers truthiness, `===`, `||`, reading a missing property as `undefined`, and template-literal text.
- `data_mappers.dfy` (module `DataMappers`): the three row mappers and their lemmas.
- `package_systems.dfy` (module `PackageSystems`): the view's selection, request, column, bulk-select and render functions.

Plain JavaScript objects with string keys (`selectedRows`, `expandedRows`, query parameters, row attributes, column descriptors) are `map<string, Value>`. A missing key reads as `Undefined`. An exception the code would raise is a `Failure(TypeError)` result. An example is reading `.id` of a row index outside `hosts`.

Three behaviours of the selection callback are worth knowing:
- Deselecting a row sends an entry whose `selected` is the falsy `selected` argument (normally `false`). The entry carries that falsy value; no entry asks for the key to be removed.
- `none` sends `selected: false` for every key currently in `selectedRows`.
- The `all` request carries only `id` and `limit = 999999`. It has no filter, search, sort or offset.

## Model

| member | source | states |
|---|---|---|
| DataMappers.CreateAdvisoriesRows | src/Utilities/DataMappers.js:7-38 | exactly 2·n entries; entry 2i is a parent with `id = rows[i].id`, `isOpen`/`selected` true iff the map entry is exactly `true` (both directions), and exactly the 5 cells id, public_date, advisory_type, applicable_systems, synopsis in that order; entry 2i+1 is the description child with `parent = 2i` |
| DataMappers.CreateSystemAdvisoriesRows | src/Utilities/DataMappers.js:41-75 | same shape and flags, but exactly 4 parent cells (id, public_date, advisory_type, synopsis) |
| DataMappers.InterleavePreservesOrder | src/Utilities/DataMappers.js:8-9 | the parent rows of the flattened table carry the server rows' ids in input order, none dropped, duplicated or reordered |
| DataMappers.ChildPointsToOwnParent | src/Utilities/DataMappers.js:22-36 | even positions are parents and odd positions are children; each child's `parent` is the index just before it, that row is a parent built from the same server row, and the child carries that row's description |
| DataMappers.NonBooleanSelectionRendersUnselected | src/Utilities/DataMappers.js:12-13 | a string selection value such as a remediation filename renders as not selected in both advisory mappers |
| DataMappers.CountOrZero | src/Utilities/DataMappers.js:84 | the count-or-zero default is the count itself when truthy and `0` otherwise, so the result is never a falsy value other than `0` |
| DataMappers.CreateSystemsRows | src/Utilities/DataMappers.js:78-90 | same length as the input; row i has `id = key = rows[i].id` and exactly three advisory counts, each equal to the input count when that count is truthy and to `0` otherwise |
| DataMappers.SystemsRowCounts | src/Utilities/DataMappers.js:83-87 | the counts are rhea, rhba, rhsa in that order; any truthy count passes through unchanged and any falsy one (missing, `undefined`, `null`, `false`, `0`, `NaN`, empty string) becomes `0` |
| PackageSystems.FetchRequest | src/SmartComponents/PackageSystems/PackageSystems.js:67-71 | the request holds every query parameter unchanged plus `id`; `id` is the package name unless the query parameters supply their own `id`, which wins |
| PackageSystems.AllRequest | src/SmartComponents/PackageSystems/PackageSystems.js:180 | the select-all request has exactly the keys `id` (the package name) and `limit` (999999) |
| PackageSystems.AllRequestIgnoresQuery | src/SmartComponents/PackageSystems/PackageSystems.js:180 | when the view has any filter, search, sort or offset, the select-all request differs from the paginated request |
| PackageSystems.Filename | src/SmartComponents/PackageSystems/PackageSystems.js:132-134 | the filename starts with the package name followed by a dash |
| PackageSystems.FilenameRoundTrip | src/SmartComponents/PackageSystems/PackageSystems.js:132-134 | stripping the package name and dash from a filename gives back the text of the system's `available_evra` |
| PackageSystems.FilenameInjective | src/SmartComponents/PackageSystems/PackageSystems.js:132-134 | for one package and string EVRAs, equal filenames iff equal EVRAs |
| PackageSystems.MissingEvraFilename | src/SmartComponents/PackageSystems/PackageSystems.js:132-134 | a system without `available_evra` gets the filename `<package>-undefined` |
| PackageSystems.SelectRows | src/SmartComponents/PackageSystems/PackageSystems.js:152-163 | one entry per fetched row, in row order, with the row's id, selected with its filename |
| PackageSystems.NoneEntries | src/SmartComponents/PackageSystems/PackageSystems.js:137-148 | one entry per key of `selectedRows`, each key once, in `Object.keys` order, every entry `selected: false`, and nothing else |
| PackageSystems.RowToggle | src/SmartComponents/PackageSystems/PackageSystems.js:185-192 | exactly one entry with id `hosts[rowId].id`; its value is the filename of `rawPackageSystems[rowId]` when selecting and the falsy `selected` value when deselecting; it fails iff `rowId` is outside `hosts`, or selecting with `rowId` outside the fetched rows |
| PackageSystems.OnSelect | src/SmartComponents/PackageSystems/PackageSystems.js:130-196 | the switch: `none` sends `selected: false` for every selected key once, in `Object.keys` order; `page` selects exactly the fetched rows in order with their filenames; `all` starts the `{id, limit}` fetch; any other event toggles one row, giving the id `hosts[rowId].id` and the filename when selecting or the falsy argument when deselecting, and fails exactly when that row is missing |
| PackageSystems.AllCallback | src/SmartComponents/PackageSystems/PackageSystems.js:167-178 | the select-all callback dispatches one entry per returned row, in order, with the row's filename |
| PackageSystems.PayloadsNeverStoreTrue | src/SmartComponents/PackageSystems/PackageSystems.js:136-193 | no dispatched payload contains the value `true`; a value stored from such a payload would render unselected in the advisory mappers (`NonBooleanSelectionRendersUnselected`) |
| PackageSystems.HeaderToggle | src/SmartComponents/PackageSystems/PackageSystems.js:245-247 | the header checkbox maps a truthy value to `all` and any other value to `none` |
| PackageSystems.HeaderToggleEffect | src/SmartComponents/PackageSystems/PackageSystems.js:245-247 | ticking the header starts the select-all fetch; clearing it dispatches `selected: false` for every selected key |
| PackageSystems.CheckedState | src/SmartComponents/PackageSystems/PackageSystems.js:248 | `true` iff count `===` total; `false` iff not that and count is `0`; `null` otherwise |
| PackageSystems.CheckedStateOfCounts | src/SmartComponents/PackageSystems/PackageSystems.js:248 | for numeric counts the equality test comes first: 0 of 0 is `true`, 0 of more is `false`, and anything in between is `null` |
| PackageSystems.BulkSelectItemEffects | src/SmartComponents/PackageSystems/PackageSystems.js:226-244 | when `hosts` has one row per fetched row: the none item deselects every selected key; the page item dispatches exactly as many entries as its title shows; the all item starts the select-all fetch, whose callback dispatches as many entries as its title shows whenever the server's total equals the number of rows returned |
| PackageSystems.BulkSelectItems | src/SmartComponents/PackageSystems/PackageSystems.js:228-244 | exactly three items, firing `none`, `page` and `all` in that order; the none title always advertises 0, the page title advertises the number of rows shown, and the all title advertises the server's total whenever that total is a non-negative integer |
| PackageSystems.CountTitleReadsBack | src/SmartComponents/PackageSystems/PackageSystems.js:234 | a title rendered as a label, a count and `)` has a purely decimal middle that reads back as exactly that count |
| JsValues.NatTextRoundTrip | src/SmartComponents/PackageSystems/PackageSystems.js:234 | the decimal text a count becomes in a `${…}` title reads back as that same count |
| PackageSystems.FirstUpdated | src/SmartComponents/PackageSystems/PackageSystems.js:200 | returns the first column whose `key` is exactly `updated`, or nothing iff no column has that key |
| PackageSystems.MangledColumns | src/SmartComponents/PackageSystems/PackageSystems.js:199-203 | the static columns unchanged as a prefix, plus exactly one column with key `last_upload`; that column keeps every other field of the first inventory `updated` column, or has only `key` when there is none |
| PackageSystems.Render | src/SmartComponents/PackageSystems/PackageSystems.js:215-222 | a rejected status always gives the error view with the error's `detail` (a missing error object raises); otherwise the table is shown iff the widget has loaded, and `isLoaded` holds iff the status is resolved |

## Left out

- React hooks, effects, `useMemo` caching and the component lifecycle are not modelled. This includes the unmount clear and the memo of `hosts` that does not list `selectedRows` as a dependency. They are framework plumbing, not computation.
- The `enableRemediation = false` gate (PackageSystems.js:27) is not modelled. At run time it disables `onSelect`; the selection builders are modelled as if it were enabled.
- Redux dispatch and the `SELECT_ENTITY` reducer are not modelled. The reducer is not part of this model, so only the payload is modelled, not how it changes the store.
- `fetchPackageSystems` and all HTTP are not modelled. The `all` case is a request value plus a pure callback on the response's `data`. A failed select-all fetch has no handler in the code, so nothing is modelled for it.
- Not part of this model: `insights.loadInventory`, `register`, `inventoryConnector`, and the Routes table with its permission gating. This is dynamic widget loading and routing, with no computable behaviour to model.
- Not part of this model: `createPackageSystemsRows`, `createSortBy`, `useSortColumn`, `buildFilterChips`, `useRemoveFilter`, `usePagePerPage`, `arrayFromObj`, `remediationProvider`, `useHandleRefresh`, `searchFilter`, `statusFilter` and the `STATUS_*` constants. `hosts` and the selected count are therefore parameters. The four fetch statuses are a datatype.
- Not modelled: the remediation button, its `isDisabled` test and the remediation modal, which depend on `arrayFromObj` and `remediationProvider`. The JSX of the description cell, the error component and the toolbar are not modelled either; a description is an opaque value.
- Not modelled: the order of `Object.keys` (integer-like keys first, then insertion order). `NoneEntries` takes the key order as a parameter, required to list each key once.
- Numbers are integers plus `NaN`. Fractional numbers, `-0`, `Infinity`, `-Infinity` and the range and precision of doubles are not modelled. In particular `${1e21}` is `1e+21` in JavaScript, while `ToText(Num(10^21))` spells out all 22 digits.
- Objects are opaque references. Their template-literal text is always `[object Object]`, so array stringification is not modelled. Row ids are strings.
- `selectedRows`, `expandedRows`, every mapper's `rows`, and `rawPackageSystems` are always an object or array here. A nullish advisory `rows` is harmless in the code, because lodash `flatMap` treats it as empty (DataMappers.js:8, 46). The model's empty sequence gives the same `[]`.
- The TypeErrors the code raises on nullish inputs are not modelled:
  - `rows.map` in `createSystemsRows` (DataMappers.js:79) throws on a nullish `rows`.
  - `row.attributes.<field>` throws on a row without `attributes`, in all three mappers (DataMappers.js:16-19, 29, 54-56, 66, 84-86). A `ServerRow` always has an `attributes` map.
  - `selectedRows[row.id]` and `expandedRows[row.id]` in the advisory mappers throw on a nullish object.
  - `Object.keys(selectedRows)` in the `none` case and `rawPackageSystems.forEach` in the `page` case throw on a nullish value.
- The `selectedRows &&` guard on the selected count is covered only in that the count is a parameter.
- The code has no stale-response discarding, filter-chip projection or sort-index resolution. `buildFilterChips`, `createSortBy` and `useSortColumn` are not part of this model.
- `packageName` is a string. An absent `packageName` prop is not modelled.
- PackageSystems.BulkSelectItems: the all title's count is stated only when the server's total is a non-negative integer. For any other total, such as a missing `total_items`, the contract does not spell out the text the title shows (for example `Select all (undefined)`).
