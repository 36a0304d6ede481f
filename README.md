# ScheduledNotificationsViewController, modelled in Dafny

This project models the logic core of `ScheduledNotificationsViewController`. That is a debugging
screen for iOS that lists an app's pending notification requests or its delivered
notifications. It has three parts:

- **`StaticTableView`** (`StaticTableView.dfy`, module `StaticTable`). This is a declarative table.
  - The table keeps a list of section descriptors. Each descriptor holds segments: either one
    static cell or a dynamic segment. A dynamic segment's rows come from a data set that is read
    at render time.
  - `startSection`, `insert(segment:insert:)` and `clear` edit that list in place.
  - `render` flattens the list into sections of rows, which the data-source and delegate
    callbacks then serve.
  - Cells keep a set of selection actions: deselect and toggle checkmark. A cell's selection
    style decides whether it highlights.
  - A dynamic row whose reuse identifier has neither a pooled cell nor a registered factory is a
    fatal misconfiguration. The model proves this cannot happen on a table whose invariant holds.
- **The notifications screen** (`ScheduledNotifications.dfy`). This part covers:
  - the comparator `sortByEarliest` over optional dates;
  - the pending list, sorted earliest first;
  - the delivered list, which drops the copies the screen itself schedules ("simulations") and is
    sorted with the comparator's arguments swapped;
  - the trigger labels;
  - the mode rules, which set the title and decide whether the "Show Delivered Notifications" row
    appears;
  - how `viewDidLoad` and the completion of `reload()` lay out and refill the table.
- **The callback slots `Delegated0` … `Delegated4`** (`Delegated.dfy`).
  - Each slot holds one replaceable callback, which starts as a no-op.
  - The callback can be set as given (`manuallyDelegate`), bound to a weakly held target
    (`delegate(to:with:)`), or reset (`removeDelegate`).
  - A bound callback whose target is gone does nothing.
  - All five arities share one contract. The model has one generic class, `Delegated<I>`. The other
    arities are type synonyms at a unit or tuple input (`Delegated0 = Delegated<()>`,
    `Delegated2<A, B> = Delegated<(A, B)>`, …). These mirror
    `NiceUI/Delegated/Delegated.swift:51-209`.

Swift's `sorted(by:)` is a library call. `Sorting.dfy` stands in for it with an insertion sort. Its
contract is what Swift promises for a comparator that is a strict weak order: the result is a
permutation of the input, in comparator order, and the sort is stable. Items that the comparator
does not order keep their input order (`SortIsStable`).

Some things are values of the platform, and the model takes them as inputs:

- **Dates** are integers.
- **`nextTriggerDate()`** is the date that the trigger carries (`nextTriggerDate` field).
- **`DateFormatter`** is an uninterpreted function parameter `format: Date -> string`.
- **`UUID()`** is a counter of reuse identifiers.
- **Closures** are identified by an `FnId`. Running one is recorded as an `Effect` instead of being
  executed.
- **Objects held weakly** have an `ObjId`. Which of them are still alive is a parameter, `alive`.
- **Data providers** that are still alive, with the data each currently yields, form a map,
  `Providers<D>`.
- **The reuse pool** offers the cell given as `pooled`.
- **The visible cell** is the cell UIKit shows at an index path, given as `visible`.

The swapped comparator puts undated items first (`LatestFirstPutsUndatedFirst`). A delivered
notification always has a date, so this never shows in the delivered list (`DeliveredOrder`).

## Model

| member | source | states |
|---|---|---|
| `Delegated.Invoke` | Sources/ScheduledNotificationsViewController/NiceUI/Delegated/Delegated.swift:34-39 | Calling a slot runs at most one closure. It runs none exactly when the slot holds the no-op or a bound callback whose target is gone. Otherwise it runs the stored closure with the input, handing over the target when bound. |
| `Delegated.ReleasedTargetStaysInert` | Sources/ScheduledNotificationsViewController/NiceUI/Delegated/Delegated.swift:34-37 | Once a bound target is released, every later call of the slot does nothing, whatever else is released meanwhile. |
| `Delegated.Apply` | Sources/ScheduledNotificationsViewController/NiceUI/Delegated/Delegated.swift:30-48 | Each of the three writes leaves a callback that does not depend on the previous one: bound, as given, or the no-op. |
| `Delegated.LastWriteWins` | Sources/ScheduledNotificationsViewController/NiceUI/Delegated/Delegated.swift:30-48 | After any non-empty run of writes, the slot holds what the last write alone would have left. Neither the initial callback nor any earlier write survives. |
| `Delegated.LastWriteRuns` | Sources/ScheduledNotificationsViewController/NiceUI/Delegated/Delegated.swift:42-48 | Whatever was written before, a call after `manuallyDelegate(with: f)` runs `f` exactly once. A call after `removeDelegate()` runs nothing. |
| `Delegated.Delegated.constructor` | Sources/ScheduledNotificationsViewController/NiceUI/Delegated/Delegated.swift:14-16 | A fresh slot holds the no-op. |
| `Delegated.Delegated.DelegateTo` | Sources/ScheduledNotificationsViewController/NiceUI/Delegated/Delegated.swift:30-40 | The slot now holds the closure bound to the target, replacing whatever it held. |
| `Delegated.Delegated.ManuallyDelegate` | Sources/ScheduledNotificationsViewController/NiceUI/Delegated/Delegated.swift:42-44 | The slot now holds the closure as given. |
| `Delegated.Delegated.RemoveDelegate` | Sources/ScheduledNotificationsViewController/NiceUI/Delegated/Delegated.swift:46-48 | The slot holds the no-op again, whatever it held before. |
| `Delegated.Delegated.Call` | Sources/ScheduledNotificationsViewController/NiceUI/Delegated/Delegated.swift:20-22 | Calling `wrappedValue` runs the current callback once, or nothing for the no-op or a released target. It changes neither the slot nor which objects are alive. |
| `Sorting.Sort` | Sources/ScheduledNotificationsViewController/ScheduledNotificationsViewController.swift:186 | `sorted(by:)` with a strict weak order returns a permutation of its input in which no element is ordered before an earlier one. |
| `Sorting.EquivalentsOfInsert` | Sources/ScheduledNotificationsViewController/ScheduledNotificationsViewController.swift:186 | Inserting an item into a sorted list puts it in front of every item it is unordered against and moves no other such item. |
| `Sorting.SortIsStable` | Sources/ScheduledNotificationsViewController/ScheduledNotificationsViewController.swift:186 | Within every class of mutually unordered items, the sorted list keeps the input order. |
| `StaticTable.Toggled` | Sources/ScheduledNotificationsViewController/StaticTableView.swift:348-353 | Toggling gives a checkmark exactly when there was none. A checkmark becomes no accessory. |
| `StaticTable.ToggleTwice` | Sources/ScheduledNotificationsViewController/StaticTableView.swift:348-353 | Toggling twice restores the accessory exactly when it was a checkmark or none. |
| `StaticTable.Cell.constructor` | Sources/ScheduledNotificationsViewController/StaticTableView.swift:257-260 | A new cell has no actions, no accessory, UIKit's default selection style and a no-op selection slot. |
| `StaticTable.Cell.OnSelect` | Sources/ScheduledNotificationsViewController/StaticTableView.swift:280-287 | Adds the action to the set, so repeating it changes nothing more. `.deselect` also makes the cell selectable, and so highlightable. Nothing else changes. |
| `StaticTable.Cell.OnSelectTo` | Sources/ScheduledNotificationsViewController/StaticTableView.swift:267-272 | The cell becomes selectable and its selection slot is bound to the target. Its actions and accessory stay. |
| `StaticTable.Cell.WithAccessoryType` | Sources/ScheduledNotificationsViewController/StaticTableView.swift:274-278 | Sets the accessory and nothing else. |
| `StaticTable.Cell.PrepareForReuse` | Sources/ScheduledNotificationsViewController/StaticTableView.swift:485-488 | A dynamic cell leaving the reuse pool is unselectable again. Nothing else changes. |
| `StaticTable.Cell.Reuse` | Sources/ScheduledNotificationsViewController/StaticTableView.swift:480-483 | The cell now shows the given data item. Its selection state stays. |
| `StaticTable.HighlightsWhenTouched` | Sources/ScheduledNotificationsViewController/StaticTableView.swift:333-339 | A row highlights exactly when UIKit shows a cell there and that cell's selection style is not `.none`. Without a cell it does not highlight. |
| `StaticTable.Items` | Sources/ScheduledNotificationsViewController/StaticTableView.swift:137-146 | A fixed data set yields its list. A provider-backed data set yields what its own `dataSet:` function reads from the provider, so two segments over one provider can differ. It yields nothing once the provider is gone. |
| `StaticTable.DynamicSegment.constructor` | Sources/ScheduledNotificationsViewController/StaticTableView.swift:25-33 | A segment keeps the data set and reuse identifier it was made with. |
| `StaticTable.DynamicSegment.Reload` | Sources/ScheduledNotificationsViewController/StaticTableView.swift:37-39 | From then on, the segment yields exactly the given content, whichever providers are alive. |
| `StaticTable.MakeRows` | Sources/ScheduledNotificationsViewController/StaticTableView.swift:15-23 | A static segment gives exactly one row, holding its cell. A dynamic segment gives one row per current item, in order, each tagged with its reuse identifier. |
| `StaticTable.RowCount` | Sources/ScheduledNotificationsViewController/StaticTableView.swift:209 | A section's row count is its number of static segments plus the number of items its dynamic segments yield. |
| `StaticTable.SegmentRowsAppend` | Sources/ScheduledNotificationsViewController/StaticTableView.swift:209 | The rows of two concatenated segment lists are the concatenation of their rows. |
| `StaticTable.Rendered` | Sources/ScheduledNotificationsViewController/StaticTableView.swift:207-211 | Gives one section per descriptor. Each section keeps its descriptor's title and footer. Its rows are its segments' rows concatenated in segment order. Nothing from a previous render enters. |
| `StaticTable.AllRows` | Sources/ScheduledNotificationsViewController/StaticTableView.swift:68-70 | `_rows` holds a row exactly when some section holds it. |
| `StaticTable.AllRowsAppend` | Sources/ScheduledNotificationsViewController/StaticTableView.swift:68-70 | `_rows` of joined section lists is the two lists' `_rows` joined. With `AllRowsSingle`, this makes `_rows` the sections' rows section after section, each row as often as it occurs. |
| `StaticTable.AllRowsSingle` | Sources/ScheduledNotificationsViewController/StaticTableView.swift:68-70 | `_rows` of one section is that section's rows, in order. |
| `StaticTable.SegmentRowIds` | Sources/ScheduledNotificationsViewController/StaticTableView.swift:15-23 | Every dynamic row carries the reuse identifier of one of the segments it came from. |
| `StaticTable.RenderedIds` | Sources/ScheduledNotificationsViewController/StaticTableView.swift:305-318 | Every dynamic row of a render carries an identifier of a segment in the descriptor. So a registered factory covers every row that `cellForRowAt` dispatches. |
| `StaticTable.Inserted` | Sources/ScheduledNotificationsViewController/StaticTableView.swift:180-191 | `.dontInsert` leaves the descriptor as it is. `.last` into an empty descriptor gives one untitled section holding only the segment. Otherwise `.last` appends the segment to the last section and leaves the count, the earlier sections and the last section's title and footer alone. |
| `StaticTable.InsertedIds` | Sources/ScheduledNotificationsViewController/StaticTableView.swift:180-191 | Inserting adds no reuse identifier but the inserted segment's own. |
| `StaticTable.InsertThenRender` | Sources/ScheduledNotificationsViewController/StaticTableView.swift:175-194 | After `.last` into a non-empty descriptor, the render has the same sections, with the earlier ones unchanged. The last section gains exactly the new segment's rows at its end. |
| `StaticTable.LastSectionGains` | Sources/ScheduledNotificationsViewController/StaticTableView.swift:189 | Appending a segment to a section appends exactly that segment's rows. |
| `StaticTable.StaticTableView.constructor` | Sources/ScheduledNotificationsViewController/StaticTableView.swift:76-91 | A new table has no descriptors, no sections and no factories, and deselects cells when they are selected. |
| `StaticTable.StaticTableView.Render` | Sources/ScheduledNotificationsViewController/StaticTableView.swift:207-211 | Sets the sections to the render of the current descriptor and data, and keeps the table invariant. Rendering again with the same descriptor and data gives the same sections. |
| `StaticTable.StaticTableView.ReloadData` | Sources/ScheduledNotificationsViewController/StaticTableView.swift:202-205 | Re-renders from the current descriptor and data. |
| `StaticTable.StaticTableView.Clear` | Sources/ScheduledNotificationsViewController/StaticTableView.swift:196-200 | Leaves both the descriptor and the rendered sections empty. Factories stay registered. |
| `StaticTable.StaticTableView.StartSection` | Sources/ScheduledNotificationsViewController/StaticTableView.swift:165-167 | Appends one empty section with the given title and footer. Earlier sections stay unchanged. It does not re-render. |
| `StaticTable.StaticTableView.Insert` | Sources/ScheduledNotificationsViewController/StaticTableView.swift:175-194 | Updates the descriptor as `Inserted` says, then re-renders. |
| `StaticTable.StaticTableView.AddRowCell` | Sources/ScheduledNotificationsViewController/StaticTableView.swift:111-122 | Appends a new unselectable static cell to the last section. The cell carries `.deselect` exactly when the table deselects selected cells. The table re-renders. |
| `StaticTable.StaticTableView.AddRow` | Sources/ScheduledNotificationsViewController/StaticTableView.swift:98-109 | The same as `addRowCell` with the default cell style. |
| `StaticTable.StaticTableView.InsertDynamicSegment` | Sources/ScheduledNotificationsViewController/StaticTableView.swift:148-163 | Registers a factory under a reuse identifier not used before. Appends a new dynamic segment with that identifier and data set to the last section. The table re-renders. |
| `StaticTable.StaticTableView.AddDynamicSegment` | Sources/ScheduledNotificationsViewController/StaticTableView.swift:132-135 | A dynamic segment over the given fixed list. |
| `StaticTable.StaticTableView.AddProviderSegment` | Sources/ScheduledNotificationsViewController/StaticTableView.swift:137-146 | A dynamic segment that applies the given `dataSet:` function to the provider at each render. |
| `StaticTable.StaticTableView.CellForRow` | Sources/ScheduledNotificationsViewController/StaticTableView.swift:300-321 | A static row gives its own cell. A dynamic row gives the pooled dynamic cell, made unselectable, showing the row's data and keeping its actions and accessory. Without one, it gives a new unselectable cell from the registered factory, showing the data and carrying `.deselect` when the table deselects. With neither, it fails as misconfigured, which a table whose invariant holds never does. A pooled cell that is not used is left untouched. |
| `StaticTable.StaticTableView.DidSelectRow` | Sources/ScheduledNotificationsViewController/StaticTableView.swift:341-357 | For the visible cell, it runs the selection callback once. It deselects exactly when the cell carries `.deselect`, and toggles the accessory exactly when it carries `.toggleCheckmark`, whatever order the set yields. Nothing happens without a cell. |
| `StaticTable.RowCountAfterRender` | Sources/ScheduledNotificationsViewController/StaticTableView.swift:292-329 | After a render, `NumberOfSections` reports one section per descriptor. For each section, `TitleForHeader` and `TitleForFooter` report its descriptor's title and footer, and `NumberOfRows` reports static segments plus dynamic items. |
| `ScheduledNotifications.Title` | Sources/ScheduledNotificationsViewController/ScheduledNotificationsViewController.swift:49-56 | The title is "Pending" exactly for the pending screen and "Delivered" exactly for the delivered one. |
| `ScheduledNotifications.ShowsDeliveredRow` | Sources/ScheduledNotificationsViewController/ScheduledNotificationsViewController.swift:160 | The "Show Delivered Notifications" row appears exactly on the pending screen. |
| `ScheduledNotifications.TriggerDate` | Sources/ScheduledNotificationsViewController/ScheduledNotificationsViewController.swift:220-229 | Only calendar and interval triggers have a date, namely their next trigger date. Any other trigger sorts as undated. |
| `ScheduledNotifications.TriggerLabel` | Sources/ScheduledNotificationsViewController/ScheduledNotificationsViewController.swift:231-254 | A location trigger is labelled "location based". Any other kind of trigger that is not calendar or interval has no label. A calendar or interval trigger has a label exactly when it has a next date. |
| `ScheduledNotifications.RequestOf` | Sources/ScheduledNotificationsViewController/ScheduledNotificationsViewController.swift:269-284 | A pending item's request is itself. A delivered item's request is the request that was delivered. |
| `ScheduledNotifications.DateLabel` | Sources/ScheduledNotificationsViewController/ScheduledNotificationsViewController.swift:264-281 | A delivered item shows its delivery date, formatted. A pending item shows its trigger's label, or "" when it has no trigger or the trigger has no label. |
| `ScheduledNotifications.DateToCompare` | Sources/ScheduledNotificationsViewController/ScheduledNotificationsViewController.swift:273-289 | A delivered item always sorts by its delivery date. A pending item sorts by its trigger's date, and is undated when it has no trigger. |
| `ScheduledNotifications.SortByEarliest` | Sources/ScheduledNotificationsViewController/ScheduledNotificationsViewController.swift:206-218 | `left` comes first exactly when it is dated and `right` is undated or dated later. So two undated items are unordered, and an undated item never precedes a dated one. |
| `ScheduledNotifications.SortByEarliestIsStrictWeakOrder` | Sources/ScheduledNotificationsViewController/ScheduledNotificationsViewController.swift:206-218 | The comparator is irreflexive and transitive, and incomparability is transitive, as `sorted(by:)` requires. |
| `ScheduledNotifications.LatestFirstIsStrictWeakOrder` | Sources/ScheduledNotificationsViewController/ScheduledNotificationsViewController.swift:196 | The swapped comparator is a strict weak order too. |
| `ScheduledNotifications.WithoutSimulations` | Sources/ScheduledNotificationsViewController/ScheduledNotificationsViewController.swift:195 | Keeps exactly the notifications whose request identifier does not end in `___np_notif_simulation`, each as often as it was fetched. |
| `ScheduledNotifications.WithoutSimulationsAppend` | Sources/ScheduledNotificationsViewController/ScheduledNotificationsViewController.swift:195 | Filtering a concatenation gives the filtered parts, in order. With `WithoutSimulationsSingle`, this makes the filter order-preserving: kept notifications stay in fetched order. |
| `ScheduledNotifications.WithoutSimulationsSingle` | Sources/ScheduledNotificationsViewController/ScheduledNotificationsViewController.swift:195 | One notification is kept exactly when it is not a copy. |
| `ScheduledNotifications.WithoutSimulationsKeepsAll` | Sources/ScheduledNotificationsViewController/ScheduledNotificationsViewController.swift:195 | When no fetched notification is a copy, the filter returns the fetched list unchanged. |
| `ScheduledNotifications.PendingList` | Sources/ScheduledNotificationsViewController/ScheduledNotificationsViewController.swift:186 | The pending list is a permutation of the fetched requests in `sortByEarliest` order. |
| `ScheduledNotifications.DeliveredList` | Sources/ScheduledNotificationsViewController/ScheduledNotificationsViewController.swift:194-196 | The delivered list is a permutation of the non-simulated notifications in swapped-comparator order. |
| `ScheduledNotifications.PendingOrder` | Sources/ScheduledNotificationsViewController/ScheduledNotificationsViewController.swift:186 | The pending list is a permutation of the fetched requests. Dated requests come first, in ascending trigger-date order, then all undated ones. Each next date is read once, so no date moves during the sort. |
| `ScheduledNotifications.DeliveredOrder` | Sources/ScheduledNotificationsViewController/ScheduledNotificationsViewController.swift:194-196 | The delivered list holds each non-simulated notification as often as it was fetched, and nothing else, latest delivery first. |
| `ScheduledNotifications.LatestFirstPutsUndatedFirst` | Sources/ScheduledNotificationsViewController/ScheduledNotificationsViewController.swift:196 | Under the swapped comparator, no dated item comes before an undated one. |
| `ScheduledNotifications.PendingTiesKeepFetchOrder` | Sources/ScheduledNotificationsViewController/ScheduledNotificationsViewController.swift:186 | Requests that the comparator does not order, such as equal dates or no date, keep the order in which they were fetched. |
| `ScheduledNotifications.DeliveredTiesKeepFetchOrder` | Sources/ScheduledNotificationsViewController/ScheduledNotificationsViewController.swift:194-196 | Notifications delivered at the same date keep their order in the filtered list, which is fetched order (`WithoutSimulationsAppend`). When no copy was fetched, they keep their order in the fetched list itself. |
| `ScheduledNotifications.UndatedKeepFetchOrder` | Sources/ScheduledNotificationsViewController/ScheduledNotificationsViewController.swift:186 | When no fetched request is dated, the pending list is the fetched list, unchanged. |
| `ScheduledNotifications.SimulationCopy` | Sources/ScheduledNotificationsViewController/ScheduledNotificationsViewController.swift:148-156 | The copy has the same content. Its identifier is exactly the original identifier followed by `___np_notif_simulation`: it starts with the original, ends with the suffix, and is as long as the two together. Its trigger is a one-shot 0.05-second interval trigger. |
| `ScheduledNotifications.SimulationCopiesNeverListed` | Sources/ScheduledNotificationsViewController/ScheduledNotificationsViewController.swift:148-156 | The copy scheduled when a row is tapped, once delivered, never appears in the delivered list. |
| `ScheduledNotifications.DatedTriggerLabel` | Sources/ScheduledNotificationsViewController/ScheduledNotificationsViewController.swift:231-246 | A calendar or interval trigger with a next date is labelled with the formatted date, followed by " (repeats)" exactly when it repeats. |
| `ScheduledNotifications.EmptyRequestLabel` | Sources/ScheduledNotificationsViewController/ScheduledNotificationsViewController.swift:264-267 | If the formatter never returns "", a request shows "" exactly when it has no trigger, a trigger that is neither calendar, interval nor location, or a calendar or interval trigger with no next date. |
| `ScheduledNotifications.LabelAgreesWithSortKey` | Sources/ScheduledNotificationsViewController/ScheduledNotificationsViewController.swift:231-289 | At one instant, a dated item's label starts with its sort date formatted, and an undated item is a request labelled "location based" or "". |
| `ScheduledNotifications.LayoutRendered` | Sources/ScheduledNotificationsViewController/ScheduledNotificationsViewController.swift:63-172 | The screen's one section renders to one row per listed item, in list order, then the "Show Delivered" row if there is one. |
| `ScheduledNotifications.ScheduledNotificationsViewController.constructor` | Sources/ScheduledNotificationsViewController/ScheduledNotificationsViewController.swift:20-28 | A new screen of the given mode has no title, an empty list, and a table with no descriptors. |
| `ScheduledNotifications.ScheduledNotificationsViewController.ViewDidLoad` | Sources/ScheduledNotificationsViewController/ScheduledNotificationsViewController.swift:46-172 | Sets the title by mode and declares the provider-backed requests segment. Exactly when the screen is not the delivered one, it also declares the "Show Delivered" row: selectable, deselecting after a tap, with a disclosure indicator, pushing the delivered screen. The table shows the current list followed by that row. |
| `ScheduledNotifications.ScheduledNotificationsViewController.AddShowDeliveredRow` | Sources/ScheduledNotificationsViewController/ScheduledNotificationsViewController.swift:160-172 | Appends a new static row after the requests segment. The row has a disclosure indicator, is selectable, carries `.deselect` exactly when the table deselects selected cells, and pushes the delivered screen. The table then shows the list's rows followed by that row. |
| `ScheduledNotifications.ScheduledNotificationsViewController.Reload` | Sources/ScheduledNotificationsViewController/ScheduledNotificationsViewController.swift:181-202 | Stores the pending list or the delivered list, by mode, and reloads the table. The table then shows one row per list item in list order, then the "Show Delivered" row on the pending screen. The title, the table's descriptor and factories, the requests segment and the "Show Delivered" cell stay as they were. |

## Left out

- UIKit views, layout and styling are left out. This covers cell content views, labels, fonts, separators, `shouldCenterContentIfFits` and the content insets. None of it has logic beyond drawing.
- `onPulledToRefresh`, `pullToRefreshCallback` and the refresh control are left out. They are UIKit event plumbing on top of a `Delegated` slot, which is modelled.
- The fetches from `UNUserNotificationCenter`, `add` and the main-queue dispatch are asynchronous platform I/O. `Reload` models the completion handler, with the fetched lists as its input. `ViewDidLoad` ends where the source starts that asynchronous `reload()`.
- `addRow(view:marginInsets:)` and the bodies of the `configure` closures are left out. They only build subviews. A factory is recorded by cell style and closure identity.
- `onReuse(perform:)` and the `as? Content` down-cast are left out. The model gives all items of one table a single type `D`, so the failing cast cannot arise. `reuse(with:)` records the item the cell shows instead of running the setup closure. In the source, the screen's setup closure calls `cell.onSelect(to: self)` (ScheduledNotificationsViewController.swift:148), so every request row is selectable, highlights, and schedules a copy when tapped. In the model, a request cell from `CellForRow` keeps the `.none` selection style and a no-op slot.
- The per-row `onSelect(to:)` binding that schedules a simulated copy is modelled only as the copy it builds (`SimulationCopy`). Its call to the notification center is I/O.
- Closures are not executed. A run is recorded as an `Effect` that carries the closure identity, target and input. What a closure then does, such as pushing the delivered screen, is not modelled.
- The key path `\.requests` that the screen passes as `dataSet:` is named by the constant `RequestsKeyPath`. Key paths are not interpreted.
- `DateFormatter` is an uninterpreted function parameter, and its locale and template are not modelled. `nextTriggerDate()` is a value that the trigger carries.
- The model's `HasSuffix` compares code points, while Swift's `hasSuffix` compares grapheme clusters. The suffix is ASCII, so the two differ only when the character before the suffix forms one cluster with its first `_`.
- The Mac Catalyst build drops the "location based" case. The model follows the iOS build.
- `LabelAgreesWithSortKey` holds only at one instant. The source calls `nextTriggerDate()` for both items at every comparison of the sort, through `_dateToCompare` (ScheduledNotificationsViewController.swift:207, 220-225, 273-275). It calls it again each time a row is configured, which can be long after the fetch. A repeating trigger whose next date passes in between can then show a later date than the one it was sorted by. The model reads one stored next date for all of these.
- `PendingOrder` assumes that no trigger's next date moves while the sort runs. The model's triggers carry one fixed next date, so the comparator is one strict weak order throughout.
- `descriptor` is an internal mutable property in the source, declared without an access modifier (StaticTableView.swift:57). The model changes it only through the table's operations, so that the invariant (every reuse identifier has a factory) can be stated.
- `AddProviderSegment` returns the segment as a ghost value so that callers can refer to it. The source returns nothing.
