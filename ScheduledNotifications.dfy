/**
 * The notifications screen: `ScheduledNotificationsViewController`.
 *
 * It lists either the pending notification requests or the delivered notifications. Pending
 * requests are sorted earliest trigger first with undated ones after them; delivered ones
 * are sorted latest first, without the simulated copies that the screen itself schedules.
 * Each item becomes one row of a provider-backed dynamic segment of a `StaticTableView`.
 *
 * Dates are integers. What the platform computes (`nextTriggerDate()`, the date formatter,
 * the fetched lists) enters as values: a trigger carries the next date it reported, the
 * formatter is a function parameter and the notification center's lists are inputs.
 */
module ScheduledNotifications {
  import opened Wrappers
  import Delegated
  import Sorting
  import StaticTable

  /** An instant on the time line. */
  type Date = int

  /** `UNNotificationTrigger` and its subclasses; `nextTriggerDate` is what the platform reports. */
  datatype Trigger =
    | Calendar(repeats: bool, nextTriggerDate: Option<Date>)
    | TimeInterval(timeInterval: real, repeats: bool, nextTriggerDate: Option<Date>)
    | Location
    | Push  // any trigger of another kind

  /** The part of `UNNotificationContent` the screen uses. */
  datatype Content = Content(title: string, subtitle: string, body: string, categoryIdentifier: string, hasSound: bool)

  /** `UNNotificationRequest`. */
  datatype Request = Request(identifier: string, content: Content, trigger: Option<Trigger>)

  /** `UNNotification`: a request that was delivered at `date`. */
  datatype Notification = Notification(date: Date, request: Request)

  /** `NotificationToShow`: what one row of the list shows. */
  datatype Shown = PendingRequest(pending: Request) | DeliveredNotification(delivered: Notification)

  /** The two screens. */
  datatype Mode = Pending | Delivered

  /** What the notification center reports when asked. */
  datatype NotificationCenter = NotificationCenter(pending: seq<Request>, delivered: seq<Notification>)

  /** `DateFormatter.string(from:)`, whose output the model does not interpret. */
  type Formatter = Date -> string

  /** Appended to a request's identifier for the copy scheduled when its row is tapped. */
  const SimulationSuffix: string := "___np_notif_simulation"

  /** Appended to the label of a repeating trigger. */
  const RepeatsSuffix: string := " (repeats)"

  /** The label of a location trigger. */
  const LocationLabel: string := "location based"

  /** The delay of a simulated copy's trigger, in seconds. */
  const SimulationDelay: real := 0.05

  /** Closure identities: the notification cell factory and the "Show Delivered" action. */
  const ConfigureNotificationCell: Delegated.FnId := 0
  const PushDeliveredScreen: Delegated.FnId := 1
  /** The key path `\.requests` through which the table reads a screen's list. */
  const RequestsKeyPath: Delegated.FnId := 2

  /** `hasSuffix`. */
  predicate HasSuffix(s: string, suffix: string) {
    |suffix| <= |s| && s[|s| - |suffix|..] == suffix
  }

  /** The screen's title. */
  function Title(mode: Mode): (title: string)
    ensures title == "Pending" <==> mode == Pending
    ensures title == "Delivered" <==> mode == Delivered
  {
    match mode
    case Pending => "Pending"
    case Delivered => "Delivered"
  }

  /** The "Show Delivered Notifications" row is added exactly when the screen is not the delivered one. */
  predicate ShowsDeliveredRow(mode: Mode): (shows: bool)
    ensures shows <==> mode == Pending
  {
    mode != Delivered
  }

  /** `_triggerDate()`: only calendar and interval triggers have a date. */
  function TriggerDate(t: Trigger): (d: Option<Date>)
    ensures d.Some? ==> t.Calendar? || t.TimeInterval?
    ensures (t.Calendar? || t.TimeInterval?) ==> d == t.nextTriggerDate
  {
    match t
    case Calendar(_, next) => next
    case TimeInterval(_, _, next) => next
    case _ => None
  }

  /** A formatted date, marked when its trigger repeats. */
  function DatedLabel(format: Formatter, date: Date, repeats: bool): string {
    format(date) + (if repeats then RepeatsSuffix else "")
  }

  /** The trigger's `_dateLabel`. */
  function TriggerLabel(t: Trigger, format: Formatter): (text: Option<string>)
    ensures t.Location? ==> text == Some(LocationLabel)
    ensures t.Push? ==> text == None
    ensures (t.Calendar? || t.TimeInterval?) ==> (text.Some? <==> t.nextTriggerDate.Some?)
  {
    match t
    case Calendar(repeats, next) =>
      if next.Some? then Some(DatedLabel(format, next.value, repeats)) else None
    case TimeInterval(_, repeats, next) =>
      if next.Some? then Some(DatedLabel(format, next.value, repeats)) else None
    case Location => Some(LocationLabel)
    case Push => None
  }

  /** `NotificationToShow.request`. */
  function RequestOf(s: Shown): (r: Request)
    ensures s.PendingRequest? ==> r == s.pending
    ensures s.DeliveredNotification? ==> r == s.delivered.request
  {
    match s
    case PendingRequest(r) => r
    case DeliveredNotification(n) => n.request
  }

  /** `NotificationToShow._dateLabel`: a request shows its trigger's label or ""; a notification its date. */
  function DateLabel(s: Shown, format: Formatter): (text: string)
    ensures s.DeliveredNotification? ==> text == format(s.delivered.date)
    ensures s.PendingRequest? && s.pending.trigger.None? ==> text == ""
    ensures s.PendingRequest? && s.pending.trigger.Some? ==>
      var l := TriggerLabel(s.pending.trigger.value, format);
      (l.None? ==> text == "") && (l.Some? ==> text == l.value)
  {
    match s
    case PendingRequest(r) => if r.trigger.Some? then TriggerLabel(r.trigger.value, format).GetOr("") else ""
    case DeliveredNotification(n) => format(n.date)
  }

  /** `NotificationToShow._dateToCompare`: a request's trigger date; a notification's delivery date. */
  function DateToCompare(s: Shown): (d: Option<Date>)
    ensures s.DeliveredNotification? ==> d == Some(s.delivered.date)
    ensures s.PendingRequest? && s.pending.trigger.None? ==> d == None
    ensures s.PendingRequest? && s.pending.trigger.Some? ==> d == TriggerDate(s.pending.trigger.value)
  {
    match s
    case PendingRequest(r) => if r.trigger.Some? then TriggerDate(r.trigger.value) else None
    case DeliveredNotification(n) => Some(n.date)
  }

  /**
   * `sortByEarliest(left:right:)`: `left` comes first exactly when it is dated and `right`
   * is either undated or dated later.
   */
  function SortByEarliest(left: Shown, right: Shown): (before: bool)
    ensures before <==>
      DateToCompare(left).Some? &&
      (DateToCompare(right).None? || DateToCompare(left).value < DateToCompare(right).value)
  {
    match (DateToCompare(left), DateToCompare(right))
    case (None, None) => false
    case (Some(l), Some(r)) => l < r
    case (Some(_), None) => true
    case (None, Some(_)) => false
  }

  /** The comparator of the delivered list: `sortByEarliest` with its arguments swapped. */
  function LatestFirst(left: Shown, right: Shown): bool {
    SortByEarliest(right, left)
  }

  /** `sortByEarliest` is a strict weak order, as `sorted(by:)` requires. */
  lemma SortByEarliestIsStrictWeakOrder()
    ensures Sorting.StrictWeakOrder(SortByEarliest)
  {
  }

  /** So is its flipped form. */
  lemma LatestFirstIsStrictWeakOrder()
    ensures Sorting.StrictWeakOrder(LatestFirst)
  {
  }

  /** The fetched requests, as rows to show. */
  function AsPending(requests: seq<Request>): (items: seq<Shown>)
    ensures |items| == |requests|
    ensures forall i :: 0 <= i < |items| ==> items[i] == PendingRequest(requests[i])
  {
    seq(|requests|, i requires 0 <= i < |requests| => PendingRequest(requests[i]))
  }

  /** The fetched notifications, as rows to show. */
  function AsDelivered(notifications: seq<Notification>): (items: seq<Shown>)
    ensures |items| == |notifications|
    ensures forall i :: 0 <= i < |items| ==> items[i] == DeliveredNotification(notifications[i])
  {
    seq(|notifications|, i requires 0 <= i < |notifications| => DeliveredNotification(notifications[i]))
  }

  /** A notification for a copy scheduled by this screen. */
  predicate IsSimulationCopy(n: Notification) {
    HasSuffix(n.request.identifier, SimulationSuffix)
  }

  /** `filter { !$0.request.identifier.hasSuffix("___np_notif_simulation") }`. */
  function WithoutSimulations(notifications: seq<Notification>): (kept: seq<Notification>)
    ensures forall n :: n in kept <==> n in notifications && !IsSimulationCopy(n)
    ensures forall n :: multiset(kept)[n] == if IsSimulationCopy(n) then 0 else multiset(notifications)[n]
    ensures |kept| <= |notifications|
    decreases |notifications|
  {
    if notifications == [] then []
    else
      var rest := WithoutSimulations(notifications[1..]);
      assert notifications == [notifications[0]] + notifications[1..];
      assert forall n :: n in notifications <==> n == notifications[0] || n in notifications[1..];
      if IsSimulationCopy(notifications[0]) then rest else [notifications[0]] + rest
  }

  /**
   * `filter` keeps fetched order: filtering a concatenation filters each part and keeps the
   * parts in order, and a single notification is kept exactly when it is not a copy. Together
   * these fix `WithoutSimulations` as the order-preserving filter.
   */
  lemma {:induction false} WithoutSimulationsAppend(a: seq<Notification>, b: seq<Notification>)
    ensures WithoutSimulations(a + b) == WithoutSimulations(a) + WithoutSimulations(b)
    decreases |a|
  {
    if a == [] {
      assert a + b == b;
    } else {
      assert (a + b)[0] == a[0];
      assert (a + b)[1..] == a[1..] + b;
      WithoutSimulationsAppend(a[1..], b);
    }
  }

  /** A single notification is kept exactly when it is not a copy scheduled by this screen. */
  lemma WithoutSimulationsSingle(n: Notification)
    ensures WithoutSimulations([n]) == if IsSimulationCopy(n) then [] else [n]
  {
    assert [n][1..] == [];
  }

  /** With no copy among them, the filter keeps the fetched notifications as they are. */
  lemma {:induction false} WithoutSimulationsKeepsAll(notifications: seq<Notification>)
    requires forall i :: 0 <= i < |notifications| ==> !IsSimulationCopy(notifications[i])
    ensures WithoutSimulations(notifications) == notifications
    decreases |notifications|
  {
    if notifications != [] {
      WithoutSimulationsKeepsAll(notifications[1..]);
    }
  }

  /** The pending list: the fetched requests sorted by `sortByEarliest`. */
  function PendingList(requests: seq<Request>): (list: seq<Shown>)
    ensures multiset(list) == multiset(AsPending(requests))
    ensures Sorting.SortedBy(list, SortByEarliest)
  {
    SortByEarliestIsStrictWeakOrder();
    Sorting.Sort(AsPending(requests), SortByEarliest)
  }

  /** The delivered list: the fetched notifications minus simulated copies, latest first. */
  function DeliveredList(notifications: seq<Notification>): (list: seq<Shown>)
    ensures multiset(list) == multiset(AsDelivered(WithoutSimulations(notifications)))
    ensures Sorting.SortedBy(list, LatestFirst)
  {
    LatestFirstIsStrictWeakOrder();
    Sorting.Sort(AsDelivered(WithoutSimulations(notifications)), LatestFirst)
  }

  /**
   * The pending list is a permutation of the fetched requests in which every dated request
   * comes before every undated one and dated requests follow their trigger dates upwards.
   */
  lemma PendingOrder(requests: seq<Request>)
    ensures multiset(PendingList(requests)) == multiset(AsPending(requests))
    ensures var list := PendingList(requests);
      forall i, j :: 0 <= i < j < |list| ==>
        && (DateToCompare(list[i]).None? ==> DateToCompare(list[j]).None?)
        && (DateToCompare(list[i]).Some? && DateToCompare(list[j]).Some? ==>
              DateToCompare(list[i]).value <= DateToCompare(list[j]).value)
  {
    SortByEarliestIsStrictWeakOrder();
    var list := PendingList(requests);
    forall i, j | 0 <= i < j < |list|
      ensures DateToCompare(list[i]).None? ==> DateToCompare(list[j]).None?
      ensures DateToCompare(list[i]).Some? && DateToCompare(list[j]).Some? ==>
                DateToCompare(list[i]).value <= DateToCompare(list[j]).value
    {
      assert !SortByEarliest(list[j], list[i]);
    }
  }

  /**
   * The delivered list holds each fetched notification that is not a simulated copy, as
   * often as it was fetched, and nothing else, latest delivery first.
   */
  lemma DeliveredOrder(notifications: seq<Notification>)
    ensures multiset(DeliveredList(notifications)) == multiset(AsDelivered(WithoutSimulations(notifications)))
    ensures forall s :: s in DeliveredList(notifications) <==>
      s.DeliveredNotification? && s.delivered in notifications && !IsSimulationCopy(s.delivered)
    ensures var list := DeliveredList(notifications);
      forall i, j :: 0 <= i < j < |list| ==> list[i].delivered.date >= list[j].delivered.date
  {
    LatestFirstIsStrictWeakOrder();
    var kept := WithoutSimulations(notifications);
    var list := DeliveredList(notifications);
    var items := AsDelivered(kept);
    forall s ensures s in list <==> s.DeliveredNotification? && s.delivered in notifications && !IsSimulationCopy(s.delivered) {
      assert s in list <==> s in multiset(list);
      assert s in items <==> s in multiset(items);
      if s in items {
        var k :| 0 <= k < |items| && items[k] == s;
        assert s.delivered == kept[k];
      }
      if s.DeliveredNotification? && s.delivered in kept {
        var k :| 0 <= k < |kept| && kept[k] == s.delivered;
        assert items[k] == s;
      }
    }
    forall i, j | 0 <= i < j < |list| ensures list[i].delivered.date >= list[j].delivered.date {
      assert list[i] in list && list[j] in list;
      assert !LatestFirst(list[j], list[i]);
    }
  }

  /**
   * Under the flipped comparator an undated item would come before every dated one. The
   * delivered list never holds an undated item, so this never shows.
   */
  lemma LatestFirstPutsUndatedFirst(list: seq<Shown>)
    requires Sorting.SortedBy(list, LatestFirst)
    ensures forall i, j :: 0 <= i < j < |list| && DateToCompare(list[i]).Some? ==> DateToCompare(list[j]).Some?
  {
    forall i, j | 0 <= i < j < |list| && DateToCompare(list[i]).Some?
      ensures DateToCompare(list[j]).Some?
    {
      assert !LatestFirst(list[j], list[i]);
    }
  }

  /**
   * The request scheduled when a row is tapped: the same content under the identifier plus
   * the simulation suffix, with a one-shot interval trigger of 0.05 seconds whose next date
   * is what the platform reports (`next`).
   */
  function SimulationCopy(original: Request, next: Option<Date>): (copy: Request)
    ensures copy.content == original.content
    ensures |copy.identifier| == |original.identifier| + |SimulationSuffix|
    ensures copy.identifier[..|original.identifier|] == original.identifier
    ensures HasSuffix(copy.identifier, SimulationSuffix)
    ensures copy.trigger == Some(TimeInterval(SimulationDelay, false, next))
  {
    var identifier := original.identifier + SimulationSuffix;
    assert identifier[|identifier| - |SimulationSuffix|..] == SimulationSuffix;
    Request(identifier, original.content, Some(TimeInterval(SimulationDelay, false, next)))
  }

  /**
   * Tapping a row schedules a copy of the row's request (`RequestOf`); once delivered, that
   * copy is never listed, whatever else was delivered.
   */
  lemma SimulationCopiesNeverListed(tapped: Shown, next: Option<Date>, delivered: Date, notifications: seq<Notification>)
    ensures DeliveredNotification(Notification(delivered, SimulationCopy(RequestOf(tapped), next)))
      !in DeliveredList(notifications)
  {
    DeliveredOrder(notifications);
  }

  /**
   * `sorted(by:)` is stable, so requests the comparator does not order (equal trigger dates,
   * or no date at all) keep the order in which they were fetched.
   */
  lemma PendingTiesKeepFetchOrder(requests: seq<Request>, k: Shown)
    ensures Sorting.Equivalents(PendingList(requests), k, SortByEarliest)
      == Sorting.Equivalents(AsPending(requests), k, SortByEarliest)
  {
    SortByEarliestIsStrictWeakOrder();
    Sorting.SortIsStable(AsPending(requests), k, SortByEarliest);
  }

  /**
   * Delivered notifications with equal delivery dates keep their order in the filtered list,
   * which is fetched order (`WithoutSimulationsAppend`); with no copies among them, that is
   * the fetched list itself.
   */
  lemma DeliveredTiesKeepFetchOrder(notifications: seq<Notification>, k: Shown)
    ensures Sorting.Equivalents(DeliveredList(notifications), k, LatestFirst)
      == Sorting.Equivalents(AsDelivered(WithoutSimulations(notifications)), k, LatestFirst)
    ensures (forall i :: 0 <= i < |notifications| ==> !IsSimulationCopy(notifications[i])) ==>
      Sorting.Equivalents(DeliveredList(notifications), k, LatestFirst)
        == Sorting.Equivalents(AsDelivered(notifications), k, LatestFirst)
  {
    LatestFirstIsStrictWeakOrder();
    Sorting.SortIsStable(AsDelivered(WithoutSimulations(notifications)), k, LatestFirst);
    if forall i :: 0 <= i < |notifications| ==> !IsSimulationCopy(notifications[i]) {
      WithoutSimulationsKeepsAll(notifications);
    }
  }

  /** In particular, when no fetched request is dated, the pending list is the fetched list. */
  lemma UndatedKeepFetchOrder(requests: seq<Request>)
    requires forall i :: 0 <= i < |requests| ==> DateToCompare(PendingRequest(requests[i])).None?
    ensures PendingList(requests) == AsPending(requests)
  {
    if requests != [] {
      var k := PendingRequest(requests[0]);
      var items := AsPending(requests);
      var list := PendingList(requests);
      PendingTiesKeepFetchOrder(requests, k);
      Sorting.AllEquivalent(items, k, SortByEarliest);
      forall i | 0 <= i < |list| ensures !SortByEarliest(list[i], k) && !SortByEarliest(k, list[i]) {
        assert list[i] in multiset(items);
        var j :| 0 <= j < |items| && items[j] == list[i];
      }
      Sorting.AllEquivalent(list, k, SortByEarliest);
    }
  }

  /**
   * A calendar or interval trigger with a next date is labelled with the formatted date,
   * followed by " (repeats)" exactly when it repeats.
   */
  lemma DatedTriggerLabel(t: Trigger, format: Formatter)
    requires (t.Calendar? || t.TimeInterval?) && t.nextTriggerDate.Some?
    ensures TriggerLabel(t, format).Some?
    ensures var text := TriggerLabel(t, format).value;
      var date := format(t.nextTriggerDate.value);
      && |date| <= |text|
      && text[..|date|] == date
      && (text[|date|..] == RepeatsSuffix <==> t.repeats)
      && (!t.repeats ==> text == date)
  {
    var text := TriggerLabel(t, format).value;
    var date := format(t.nextTriggerDate.value);
    assert text == date + (if t.repeats then RepeatsSuffix else "");
    assert text[|date|..] == (if t.repeats then RepeatsSuffix else "");
  }

  /**
   * A request shows "" exactly when it has no trigger, a trigger of another kind, or a
   * calendar or interval trigger without a next date (assuming the formatter never gives "").
   */
  lemma EmptyRequestLabel(r: Request, format: Formatter)
    requires forall d :: format(d) != ""
    ensures DateLabel(PendingRequest(r), format) == "" <==>
      r.trigger.None? || r.trigger.value.Push? ||
      ((r.trigger.value.Calendar? || r.trigger.value.TimeInterval?) && r.trigger.value.nextTriggerDate.None?)
  {
    if r.trigger.Some? && (r.trigger.value.Calendar? || r.trigger.value.TimeInterval?) && r.trigger.value.nextTriggerDate.Some? {
      DatedTriggerLabel(r.trigger.value, format);
    }
  }

  /**
   * At one instant, the text and the sort key come from the same date: an item that sorts
   * by date `d` shows a text starting with `d` formatted, and an undated request shows
   * either "location based" or "".
   */
  lemma LabelAgreesWithSortKey(s: Shown, format: Formatter)
    ensures DateToCompare(s).Some? ==>
      var date := format(DateToCompare(s).value);
      var text := DateLabel(s, format);
      |date| <= |text| && text[..|date|] == date
    ensures DateToCompare(s).None? ==>
      s.PendingRequest? && (DateLabel(s, format) == LocationLabel || DateLabel(s, format) == "")
  {
    if s.PendingRequest? && DateToCompare(s).Some? {
      DatedTriggerLabel(s.pending.trigger.value, format);
    }
  }

  /** The rows the list shows for `items` through the segment with identifier `rid`. */
  function ItemRows(rid: StaticTable.ReuseId, items: seq<Shown>): (rows: seq<StaticTable.Row<Shown>>)
    ensures |rows| == |items|
    ensures forall i :: 0 <= i < |rows| ==> rows[i] == StaticTable.DynamicRow(rid, items[i])
  {
    seq(|items|, i requires 0 <= i < |items| => StaticTable.DynamicRow(rid, items[i]))
  }

  /** The data a screen provides while alive: its list, under its identity. */
  function ProvidedBy(id: Delegated.ObjId, requests: seq<Shown>): (providers: StaticTable.Providers<Shown>)
    ensures providers.Keys == {(id, RequestsKeyPath)} && providers[(id, RequestsKeyPath)] == requests
  {
    map[(id, RequestsKeyPath) := requests]
  }

  /** The segments a screen declares: the requests segment, then the "Show Delivered" row if any. */
  ghost function Layout(segment: StaticTable.DynamicSegment<Shown>, row: Option<StaticTable.Cell<Shown>>): seq<StaticTable.Segment<Shown>> {
    [StaticTable.Dynamic(segment)] + (if row.Some? then [StaticTable.StaticCell(row.value)] else [])
  }

  /** The "Show Delivered" row, if any, as the rows it renders to. */
  function RowsOf(row: Option<StaticTable.Cell<Shown>>): seq<StaticTable.Row<Shown>> {
    if row.Some? then [StaticTable.StaticRow(row.value)] else []
  }

  /**
   * Rendering the screen's one section gives one row per item of its list, in list order,
   * then the "Show Delivered" row if it has one.
   */
  lemma LayoutRendered(segment: StaticTable.DynamicSegment<Shown>, row: Option<StaticTable.Cell<Shown>>, id: Delegated.ObjId, requests: seq<Shown>)
    requires segment.dataSet == StaticTable.FromProvider(id, RequestsKeyPath)
    ensures StaticTable.Rendered([StaticTable.SectionDescriptor(None, None, Layout(segment, row))], ProvidedBy(id, requests))
      == [StaticTable.Section(None, None, ItemRows(segment.reuseIdentifier, requests) + RowsOf(row))]
  {
    var providers := ProvidedBy(id, requests);
    var segs := Layout(segment, row);
    var rendered := StaticTable.Rendered([StaticTable.SectionDescriptor(None, None, segs)], providers);
    assert StaticTable.MakeRows(segs[0], providers) == ItemRows(segment.reuseIdentifier, requests);
    assert StaticTable.SegmentRows(segs, providers)
      == StaticTable.MakeRows(segs[0], providers) + StaticTable.SegmentRows(segs[1..], providers);
    if row.Some? {
      assert segs[1..][1..] == [];
      assert StaticTable.SegmentRows(segs[1..], providers)
        == StaticTable.MakeRows(segs[1], providers) + StaticTable.SegmentRows(segs[1..][1..], providers);
      assert StaticTable.SegmentRows(segs[1..], providers) == RowsOf(row);
      assert StaticTable.SegmentRows(segs, providers) == ItemRows(segment.reuseIdentifier, requests) + RowsOf(row);
      assert rendered[0] == StaticTable.Section(None, None, ItemRows(segment.reuseIdentifier, requests) + RowsOf(row));
      assert |rendered| == 1;
    } else {
      assert segs[1..] == [];
    }
  }

  /** `ScheduledNotificationsViewController`. */
  class ScheduledNotificationsViewController {
    const mode: Mode
    const id: Delegated.ObjId  // this controller as a weak target and data provider
    const tableView: StaticTable.StaticTableView<Shown>
    var title: Option<string>
    var requests: seq<Shown>
    ghost var loaded: bool
    ghost var requestsSegment: StaticTable.DynamicSegment?<Shown>
    ghost var showDeliveredCell: Option<StaticTable.Cell<Shown>>

    /** Once loaded: one untitled section, the requests segment reading this controller, then the row. */
    ghost predicate Valid()
      reads this, tableView, requestsSegment
    {
      && tableView.Valid()
      && tableView.deselectCellsWhenSelected
      && (loaded ==>
            && requestsSegment != null
            && (showDeliveredCell.Some? <==> ShowsDeliveredRow(mode))
            && requestsSegment.dataSet == StaticTable.FromProvider(id, RequestsKeyPath)
            && tableView.descriptor == [StaticTable.SectionDescriptor(None, None, Layout(requestsSegment, showDeliveredCell))])
      && (!loaded ==> tableView.descriptor == [])
    }

    /** `init()` (pending) and `init(mode:)`. */
    constructor (mode: Mode, id: Delegated.ObjId)
      ensures Valid() && !loaded
      ensures this.mode == mode && this.id == id && title == None && requests == []
      ensures fresh(tableView)
    {
      this.mode := mode;
      this.id := id;
      tableView := new StaticTable.StaticTableView();
      title := None;
      requests := [];
      loaded := false;
      requestsSegment := null;
      showDeliveredCell := None;
    }

    /**
     * `viewDidLoad()`: sets the title, declares the requests segment and, unless this is the
     * delivered screen, the "Show Delivered Notifications" row, which pushes that screen.
     */
    method ViewDidLoad()
      requires Valid() && !loaded
      modifies this, tableView
      ensures Valid() && loaded
      ensures title == Some(Title(mode)) && requests == old(requests)
      ensures fresh(requestsSegment)
      ensures showDeliveredCell.Some? ==>
        && fresh(showDeliveredCell.value)
        && showDeliveredCell.value.accessoryType == StaticTable.DisclosureIndicator
        && showDeliveredCell.value.selectionStyle == StaticTable.DefaultSelection
        && showDeliveredCell.value.actions == {StaticTable.Deselect}
        && showDeliveredCell.value.selectionCallback.callback == Delegated.Bound(id, PushDeliveredScreen)
      ensures tableView.sections ==
        [StaticTable.Section(None, None, ItemRows(requestsSegment.reuseIdentifier, requests) + RowsOf(showDeliveredCell))]
    {
      title := Some(Title(mode));
      var segment := tableView.AddProviderSegment(id, RequestsKeyPath, StaticTable.DefaultStyle, ConfigureNotificationCell, ProvidedBy(id, requests));
      assert tableView.descriptor == [StaticTable.SectionDescriptor(None, None, [StaticTable.Dynamic(segment)])];
      if ShowsDeliveredRow(mode) {
        var cell := AddShowDeliveredRow(segment);
        showDeliveredCell := Some(cell);
      } else {
        assert Layout(segment, None) == [StaticTable.Dynamic(segment)];
        assert tableView.descriptor == [StaticTable.SectionDescriptor(None, None, Layout(segment, None))];
        LayoutRendered(segment, None, id, requests);
        assert tableView.sections == [StaticTable.Section(None, None, ItemRows(segment.reuseIdentifier, requests) + RowsOf(None))];
        showDeliveredCell := None;
      }
      requestsSegment := segment;
      loaded := true;
    }

    /**
     * The "Show Delivered Notifications" row: a static cell after the requests segment, with
     * a disclosure indicator, that pushes the delivered screen when selected.
     */
    method AddShowDeliveredRow(ghost segment: StaticTable.DynamicSegment<Shown>) returns (cell: StaticTable.Cell<Shown>)
      requires tableView.Valid()
      requires segment.dataSet == StaticTable.FromProvider(id, RequestsKeyPath)
      requires tableView.descriptor == [StaticTable.SectionDescriptor(None, None, [StaticTable.Dynamic(segment)])]
      modifies tableView
      ensures tableView.Valid()
      ensures tableView.deselectCellsWhenSelected == old(tableView.deselectCellsWhenSelected)
      ensures tableView.descriptor == [StaticTable.SectionDescriptor(None, None, Layout(segment, Some(cell)))]
      ensures tableView.sections ==
        [StaticTable.Section(None, None, ItemRows(segment.reuseIdentifier, requests) + RowsOf(Some(cell)))]
      ensures fresh(cell) && fresh(cell.selectionCallback)
      ensures cell.accessoryType == StaticTable.DisclosureIndicator
      ensures cell.selectionStyle == StaticTable.DefaultSelection
      ensures cell.actions == if tableView.deselectCellsWhenSelected then {StaticTable.Deselect} else {}
      ensures cell.selectionCallback.callback == Delegated.Bound(id, PushDeliveredScreen)
    {
      cell := tableView.AddRowCell(StaticTable.DefaultStyle, ProvidedBy(id, requests));
      assert tableView.descriptor[0].segments == Layout(segment, Some(cell));
      assert tableView.descriptor == [StaticTable.SectionDescriptor(None, None, Layout(segment, Some(cell)))];
      LayoutRendered(segment, Some(cell), id, requests);
      cell.WithAccessoryType(StaticTable.DisclosureIndicator);
      cell.OnSelectTo(id, PushDeliveredScreen);
    }

    /**
     * The completion of `reload()`: stores the sorted list for the screen's mode and reloads
     * the table, which then shows one row per item, in list order, followed by the
     * "Show Delivered Notifications" row on the pending screen.
     */
    method Reload(center: NotificationCenter)
      requires Valid() && loaded
      modifies this, tableView
      ensures Valid() && loaded
      ensures title == old(title) && requestsSegment == old(requestsSegment)
      ensures showDeliveredCell == old(showDeliveredCell)
      ensures tableView.descriptor == old(tableView.descriptor)
      ensures tableView.dynamicCreators == old(tableView.dynamicCreators)
      ensures mode == Pending ==> requests == PendingList(center.pending)
      ensures mode == Delivered ==> requests == DeliveredList(center.delivered)
      ensures tableView.sections ==
        [StaticTable.Section(None, None, ItemRows(requestsSegment.reuseIdentifier, requests) + RowsOf(showDeliveredCell))]
    {
      if mode == Pending {
        requests := PendingList(center.pending);
      } else {
        requests := DeliveredList(center.delivered);
      }
      tableView.ReloadData(ProvidedBy(id, requests));
      LayoutRendered(requestsSegment, showDeliveredCell, id, requests);
    }
  }
}
