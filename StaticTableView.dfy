/**
 * The declarative table: `StaticTableView`, its cells and its dynamic segments.
 *
 * A table keeps a list of section descriptors. Each descriptor holds segments, and a
 * segment is either one static cell or a dynamic segment whose rows come from a data set
 * read at render time. `render` flattens the descriptors into sections of rows, which the
 * data-source and delegate callbacks then serve.
 *
 * Items of a dynamic data set have the type parameter `D` (the source erases them to
 * `Any`). A data set backed by a provider object reads the provider's current data; the
 * providers alive at a given moment, with the data each yields, are a parameter
 * (`Providers<D>`). The host's reuse pool and the cell that UIKit shows at an index path are
 * parameters too.
 */
module StaticTable {
  import opened Wrappers
  import Delegated

  /** Reuse identifier of a dynamic segment; fresh values come from a counter. */
  type ReuseId = nat

  /**
   * What each live provider object currently yields through each `dataSet:` function (named
   * by its `FnId`): a provider that is gone has no entry.
   */
  type Providers<D> = map<(Delegated.ObjId, Delegated.FnId), seq<D>>

  /** `UITableViewCell.SelectionStyle`. */
  datatype SelectionStyle = NoSelection | BlueSelection | GraySelection | DefaultSelection

  /** `UITableViewCell.AccessoryType`. */
  datatype AccessoryType =
    | NoAccessory | DisclosureIndicator | DetailDisclosureButton | Checkmark | DetailButton

  /** `UITableViewCell.CellStyle`. */
  datatype CellStyle = DefaultStyle | Value1 | Value2 | Subtitle

  /** `SelectableTableViewCell.Action`. */
  datatype Action = ToggleCheckmark | Deselect

  /** `StaticTableView.Insert`. */
  datatype InsertMode = Last | DontInsert

  /** The fatal `preconditionFailure` of cell dispatch. */
  datatype TableError = Misconfigured

  /** The accessory after a `.toggleCheckmark` action. */
  function Toggled(a: AccessoryType): (r: AccessoryType)
    ensures r == Checkmark <==> a != Checkmark
    ensures a == Checkmark ==> r == NoAccessory
  {
    if a == Checkmark then NoAccessory else Checkmark
  }

  /** Toggling twice restores exactly the two accessories that toggling moves between. */
  lemma ToggleTwice(a: AccessoryType)
    ensures Toggled(Toggled(a)) == a <==> a == Checkmark || a == NoAccessory
  {
  }

  /**
   * `SelectableTableViewCell` (and, when `isDynamic`, `DynamicSelectableTableViewCell`).
   * `shown` is the data item last pushed into the cell by `reuse(with:)`.
   */
  class Cell<D> {
    const style: CellStyle
    const reuseIdentifier: Option<ReuseId>
    const isDynamic: bool
    const selectionCallback: Delegated.Delegated<Cell<D>>
    var selectionStyle: SelectionStyle
    var accessoryType: AccessoryType
    var actions: set<Action>
    var shown: Option<D>

    /** A new cell as UIKit initialises it: default selection style, no accessory, no actions. */
    constructor (style: CellStyle, reuseIdentifier: Option<ReuseId>, isDynamic: bool)
      ensures this.style == style && this.reuseIdentifier == reuseIdentifier
      ensures this.isDynamic == isDynamic
      ensures selectionStyle == DefaultSelection && accessoryType == NoAccessory
      ensures actions == {} && shown == None
      ensures fresh(selectionCallback) && selectionCallback.callback == Delegated.NoOp
    {
      this.style := style;
      this.reuseIdentifier := reuseIdentifier;
      this.isDynamic := isDynamic;
      selectionCallback := new Delegated.Delegated();
      selectionStyle := DefaultSelection;
      accessoryType := NoAccessory;
      actions := {};
      shown := None;
    }

    /**
     * `onSelect(_:)`: adds `action` to the action set (a set, so repeating it changes
     * nothing more); `.deselect` also makes the cell selectable.
     */
    method OnSelect(action: Action)
      modifies this
      ensures actions == old(actions) + {action}
      ensures selectionStyle == if action == Deselect then DefaultSelection else old(selectionStyle)
      ensures accessoryType == old(accessoryType) && shown == old(shown)
      ensures action == Deselect ==> HighlightsWhenTouched(Some(this))
    {
      if action == Deselect {
        selectionStyle := DefaultSelection;
      }
      actions := actions + {action};
    }

    /** `onSelect(to:callback:)`: makes the cell selectable and binds its selection slot. */
    method OnSelectTo(target: Delegated.ObjId, f: Delegated.FnId)
      modifies this, selectionCallback
      ensures selectionStyle == DefaultSelection
      ensures selectionCallback.callback == Delegated.Bound(target, f)
      ensures actions == old(actions) && accessoryType == old(accessoryType) && shown == old(shown)
    {
      selectionStyle := DefaultSelection;
      selectionCallback.DelegateTo(target, f);
    }

    /** `withAccessoryType(_:)`. */
    method WithAccessoryType(a: AccessoryType)
      modifies this
      ensures accessoryType == a
      ensures selectionStyle == old(selectionStyle) && actions == old(actions) && shown == old(shown)
    {
      accessoryType := a;
    }

    /** `prepareForReuse()` of a dynamic cell, which UIKit runs as the pool hands the cell out. */
    method PrepareForReuse()
      modifies this
      ensures selectionStyle == NoSelection
      ensures accessoryType == old(accessoryType) && actions == old(actions) && shown == old(shown)
    {
      selectionStyle := NoSelection;
    }

    /** `reuse(with:)`: pushes a data item into the cell. */
    method Reuse(data: D)
      modifies this
      ensures shown == Some(data)
      ensures selectionStyle == old(selectionStyle) && accessoryType == old(accessoryType)
      ensures actions == old(actions)
    {
      shown := Some(data);
    }
  }

  /**
   * `shouldHighlightRowAt`: UIKit hands over the cell shown at the index path, if any; a row
   * highlights exactly when that cell's selection style is not `.none`.
   */
  predicate HighlightsWhenTouched<D>(visible: Option<Cell<D>>): (highlights: bool)
    reads if visible.Some? then {visible.value} else {}
    ensures visible.None? ==> !highlights
    ensures visible.Some? ==> (highlights <==> visible.value.selectionStyle != NoSelection)
  {
    visible.Some? && visible.value.selectionStyle != NoSelection
  }

  /** Where a dynamic segment's items come from. */
  datatype DataSet<D> =
    | Fixed(items: seq<D>)                     // `{ initialDataSet }` or `{ content }`
    | FromProvider(provider: Delegated.ObjId, read: Delegated.FnId)  // `{ [weak provider] in ... }`

  /** The items a data set yields now: a provider that is gone yields none. */
  function Items<D>(ds: DataSet<D>, providers: Providers<D>): (items: seq<D>)
    ensures ds.Fixed? ==> items == ds.items
    ensures ds.FromProvider? && (ds.provider, ds.read) in providers ==> items == providers[(ds.provider, ds.read)]
    ensures ds.FromProvider? && (ds.provider, ds.read) !in providers ==> items == []
  {
    match ds
    case Fixed(items) => items
    case FromProvider(p, read) => if (p, read) in providers then providers[(p, read)] else []
  }

  /** `DynamicSegment<Content>`: a data set and the reuse identifier of its cell factory. */
  class DynamicSegment<D> {
    var dataSet: DataSet<D>
    const reuseIdentifier: ReuseId

    constructor (dataSet: DataSet<D>, reuseIdentifier: ReuseId)
      ensures this.dataSet == dataSet && this.reuseIdentifier == reuseIdentifier
    {
      this.dataSet := dataSet;
      this.reuseIdentifier := reuseIdentifier;
    }

    /** `reload(with:)`: from now on the segment yields exactly `content`. */
    method Reload(content: seq<D>)
      modifies this
      ensures dataSet == Fixed(content)
      ensures forall providers :: Items(dataSet, providers) == content
    {
      dataSet := Fixed(content);
    }
  }

  /** `Segment`. */
  datatype Segment<D> = StaticCell(cell: Cell<D>) | Dynamic(segment: DynamicSegment<D>)

  /** `SectionDescriptor`. */
  datatype SectionDescriptor<D> =
    SectionDescriptor(title: Option<string>, footer: Option<string>, segments: seq<Segment<D>>)

  /** `Row`. */
  datatype Row<D> = StaticRow(cell: Cell<D>) | DynamicRow(reuseIdentifier: ReuseId, data: D)

  /** `StaticTableView.Section`. */
  datatype Section<D> = Section(title: Option<string>, footer: Option<string>, rows: seq<Row<D>>)

  /** The dynamic segment objects among `segs`: what rendering them reads. */
  ghost function SegmentObjects<D>(segs: seq<Segment<D>>): set<DynamicSegment<D>> {
    set s | s in segs && s.Dynamic? :: s.segment
  }

  /** The dynamic segment objects of a whole descriptor. */
  ghost function DescriptorObjects<D>(descriptor: seq<SectionDescriptor<D>>): set<DynamicSegment<D>> {
    set sd, s | sd in descriptor && s in sd.segments && s.Dynamic? :: s.segment
  }

  /**
   * `Segment.makeRows`: a static segment gives one row holding its cell; a dynamic segment
   * gives one row per current item, in order, each tagged with its reuse identifier.
   */
  function MakeRows<D>(s: Segment<D>, providers: Providers<D>): (rows: seq<Row<D>>)
    reads if s.Dynamic? then {s.segment} else {}
    ensures s.StaticCell? ==> rows == [StaticRow(s.cell)]
    ensures s.Dynamic? ==>
      var items := Items(s.segment.dataSet, providers);
      |rows| == |items| &&
      forall i :: 0 <= i < |rows| ==> rows[i] == DynamicRow(s.segment.reuseIdentifier, items[i])
  {
    match s
    case StaticCell(cell) => [StaticRow(cell)]
    case Dynamic(segment) =>
      var items := Items(segment.dataSet, providers);
      seq(|items|, i requires 0 <= i < |items| => DynamicRow(segment.reuseIdentifier, items[i]))
  }

  /** `segments.flatMap { $0.makeRows() }`. */
  function SegmentRows<D>(segs: seq<Segment<D>>, providers: Providers<D>): seq<Row<D>>
    reads SegmentObjects(segs)
    decreases |segs|
  {
    if segs == [] then [] else MakeRows(segs[0], providers) + SegmentRows(segs[1..], providers)
  }

  /** The number of static segments. */
  function StaticCount<D>(segs: seq<Segment<D>>): nat
    decreases |segs|
  {
    if segs == [] then 0 else (if segs[0].StaticCell? then 1 else 0) + StaticCount(segs[1..])
  }

  /** The total number of items the dynamic segments yield now. */
  function DynamicItemTotal<D>(segs: seq<Segment<D>>, providers: Providers<D>): nat
    reads SegmentObjects(segs)
    decreases |segs|
  {
    if segs == [] then 0
    else
      (if segs[0].Dynamic? then |Items(segs[0].segment.dataSet, providers)| else 0)
      + DynamicItemTotal(segs[1..], providers)
  }

  /**
   * A section's row count is its number of static segments plus the number of items its
   * dynamic segments yield.
   */
  lemma {:induction false} RowCount<D>(segs: seq<Segment<D>>, providers: Providers<D>)
    ensures |SegmentRows(segs, providers)| == StaticCount(segs) + DynamicItemTotal(segs, providers)
    decreases |segs|
  {
    if segs != [] {
      RowCount(segs[1..], providers);
    }
  }

  /** Rendering a concatenation of segment lists concatenates their rows. */
  lemma {:induction false} SegmentRowsAppend<D>(a: seq<Segment<D>>, b: seq<Segment<D>>, providers: Providers<D>)
    ensures SegmentRows(a + b, providers) == SegmentRows(a, providers) + SegmentRows(b, providers)
    decreases |a|
  {
    if a == [] {
      assert a + b == b;
    } else {
      assert (a + b)[1..] == a[1..] + b;
      SegmentRowsAppend(a[1..], b, providers);
    }
  }

  /** `Section(title:footer:rows:)` built from one descriptor. */
  function RenderSection<D>(sd: SectionDescriptor<D>, providers: Providers<D>): Section<D>
    reads SegmentObjects(sd.segments)
  {
    Section(sd.title, sd.footer, SegmentRows(sd.segments, providers))
  }

  /**
   * The body of `render`: one section per descriptor, keeping its title and footer, with
   * the rows of its segments concatenated in segment order. Nothing of an earlier render
   * enters: the result depends only on the descriptors and what their data sets yield now.
   */
  function Rendered<D>(descriptor: seq<SectionDescriptor<D>>, providers: Providers<D>): (sections: seq<Section<D>>)
    reads DescriptorObjects(descriptor)
    ensures |sections| == |descriptor|
    ensures forall i :: 0 <= i < |descriptor| ==>
      && sections[i].title == descriptor[i].title
      && sections[i].footer == descriptor[i].footer
      && sections[i].rows == SegmentRows(descriptor[i].segments, providers)
    decreases |descriptor|
  {
    if descriptor == [] then []
    else
      assert SegmentObjects(descriptor[0].segments) <= DescriptorObjects(descriptor);
      assert DescriptorObjects(descriptor[1..]) <= DescriptorObjects(descriptor);
      [RenderSection(descriptor[0], providers)] + Rendered(descriptor[1..], providers)
  }

  /** `_rows`: the rows of all sections, section after section. */
  function AllRows<D>(sections: seq<Section<D>>): (rows: seq<Row<D>>)
    ensures forall i, r :: 0 <= i < |sections| && r in sections[i].rows ==> r in rows
    ensures forall r :: r in rows ==> exists i :: 0 <= i < |sections| && r in sections[i].rows
    decreases |sections|
  {
    if sections == [] then [] else sections[0].rows + AllRows(sections[1..])
  }

  /** `flatMap` over sections distributes over concatenation, so `_rows` keeps section order. */
  lemma {:induction false} AllRowsAppend<D>(a: seq<Section<D>>, b: seq<Section<D>>)
    ensures AllRows(a + b) == AllRows(a) + AllRows(b)
    decreases |a|
  {
    if a == [] {
      assert a + b == b;
    } else {
      assert (a + b)[0] == a[0];
      assert (a + b)[1..] == a[1..] + b;
      AllRowsAppend(a[1..], b);
    }
  }

  /** The rows of one section are that section's rows, in order. */
  lemma AllRowsSingle<D>(section: Section<D>)
    ensures AllRows([section]) == section.rows
  {
    assert [section][1..] == [];
  }

  /** The segments' reuse identifiers. */
  ghost function SegmentIds<D>(segs: seq<Segment<D>>): set<ReuseId> {
    set s | s in segs && s.Dynamic? :: s.segment.reuseIdentifier
  }

  /** The reuse identifiers of all dynamic segments of a descriptor. */
  ghost function DescriptorIds<D>(descriptor: seq<SectionDescriptor<D>>): set<ReuseId> {
    set sd, s | sd in descriptor && s in sd.segments && s.Dynamic? :: s.segment.reuseIdentifier
  }

  /** The reuse identifiers that tag rows. */
  ghost function RowIds<D>(rows: seq<Row<D>>): set<ReuseId> {
    set r | r in rows && r.DynamicRow? :: r.reuseIdentifier
  }

  /** The reuse identifiers that tag rows of the sections. */
  ghost function SectionIds<D>(sections: seq<Section<D>>): set<ReuseId> {
    set sec, r | sec in sections && r in sec.rows && r.DynamicRow? :: r.reuseIdentifier
  }

  /** Every dynamic row comes from one of the segments, so it carries one of their identifiers. */
  lemma {:induction false} SegmentRowIds<D>(segs: seq<Segment<D>>, providers: Providers<D>)
    ensures RowIds(SegmentRows(segs, providers)) <= SegmentIds(segs)
    decreases |segs|
  {
    if segs != [] {
      SegmentRowIds(segs[1..], providers);
      var head := MakeRows(segs[0], providers);
      var rest := SegmentRows(segs[1..], providers);
      forall r: Row<D> | r in head + rest && r.DynamicRow?
        ensures r.reuseIdentifier in SegmentIds(segs)
      {
        if r in head {
          var k :| 0 <= k < |head| && head[k] == r;
          assert segs[0] in segs;
        } else {
          assert r.reuseIdentifier in RowIds(rest);
          assert segs[1..][0..] == segs[1..];
          assert forall s :: s in segs[1..] ==> s in segs;
        }
      }
    }
  }

  /** Every dynamic row of a render carries the identifier of a segment of the descriptor. */
  lemma RenderedIds<D>(descriptor: seq<SectionDescriptor<D>>, providers: Providers<D>)
    ensures SectionIds(Rendered(descriptor, providers)) <= DescriptorIds(descriptor)
  {
    var sections := Rendered(descriptor, providers);
    forall rid | rid in SectionIds(sections) ensures rid in DescriptorIds(descriptor) {
      var sec, r :| sec in sections && r in sec.rows && r.DynamicRow? && r.reuseIdentifier == rid;
      var i :| 0 <= i < |sections| && sections[i] == sec;
      SegmentRowIds(descriptor[i].segments, providers);
      assert rid in RowIds(sec.rows);
      var s :| s in descriptor[i].segments && s.Dynamic? && s.segment.reuseIdentifier == rid;
      assert descriptor[i] in descriptor;
    }
  }

  /**
   * `insert(segment:insert:)` on the descriptor: `.dontInsert` leaves it as it is; `.last`
   * into an empty descriptor gives one untitled section holding only the segment; `.last`
   * otherwise appends the segment to the last section and changes nothing else.
   */
  function Inserted<D>(descriptor: seq<SectionDescriptor<D>>, segment: Segment<D>, mode: InsertMode): (d: seq<SectionDescriptor<D>>)
    ensures mode == DontInsert ==> d == descriptor
    ensures mode == Last && descriptor == [] ==> d == [SectionDescriptor(None, None, [segment])]
    ensures mode == Last && descriptor != [] ==>
      var n := |descriptor|;
      && |d| == n
      && d[..n - 1] == descriptor[..n - 1]
      && d[n - 1].title == descriptor[n - 1].title
      && d[n - 1].footer == descriptor[n - 1].footer
      && d[n - 1].segments == descriptor[n - 1].segments + [segment]
  {
    match mode
    case DontInsert => descriptor
    case Last =>
      if descriptor == [] then [SectionDescriptor(None, None, [segment])]
      else
        var n := |descriptor|;
        descriptor[n - 1 := descriptor[n - 1].(segments := descriptor[n - 1].segments + [segment])]
  }

  /** Inserting adds at most the inserted segment's identifier to the descriptor's. */
  lemma InsertedIds<D>(descriptor: seq<SectionDescriptor<D>>, segment: Segment<D>, mode: InsertMode)
    ensures DescriptorIds(Inserted(descriptor, segment, mode)) <= DescriptorIds(descriptor) + SegmentIds([segment])
  {
    var d := Inserted(descriptor, segment, mode);
    forall rid | rid in DescriptorIds(d) ensures rid in DescriptorIds(descriptor) + SegmentIds([segment]) {
      var sd, s :| sd in d && s in sd.segments && s.Dynamic? && s.segment.reuseIdentifier == rid;
      var i :| 0 <= i < |d| && d[i] == sd;
      if mode == Last && descriptor != [] && i < |descriptor| - 1 {
        assert d[i] == descriptor[i];
      } else if mode == Last && descriptor != [] && s != segment {
        assert s in descriptor[i].segments;
        assert descriptor[i] in descriptor;
      } else if mode == DontInsert {
        assert sd in descriptor;
      }
    }
  }

  /**
   * What inserting does to the next render: with `.last` into a non-empty descriptor the
   * section count and every earlier section stay as they were and the last section gains
   * exactly the new segment's rows at its end.
   */
  lemma InsertThenRender<D>(descriptor: seq<SectionDescriptor<D>>, segment: Segment<D>, providers: Providers<D>)
    requires descriptor != []
    ensures
      var before := Rendered(descriptor, providers);
      var after := Rendered(Inserted(descriptor, segment, Last), providers);
      var n := |descriptor|;
      && |after| == n
      && after[..n - 1] == before[..n - 1]
      && after[n - 1].title == before[n - 1].title
      && after[n - 1].footer == before[n - 1].footer
      && after[n - 1].rows == before[n - 1].rows + MakeRows(segment, providers)
  {
    var n := |descriptor|;
    var d := Inserted(descriptor, segment, Last);
    var before := Rendered(descriptor, providers);
    var after := Rendered(d, providers);
    forall i | 0 <= i < n - 1 ensures after[i] == before[i] {
      assert d[i] == d[..n - 1][i] == descriptor[..n - 1][i] == descriptor[i];
    }
    LastSectionGains(descriptor[n - 1].segments, segment, providers);
  }

  /** Appending a segment to a section appends exactly that segment's rows. */
  lemma LastSectionGains<D>(segs: seq<Segment<D>>, segment: Segment<D>, providers: Providers<D>)
    ensures SegmentRows(segs + [segment], providers) == SegmentRows(segs, providers) + MakeRows(segment, providers)
  {
    SegmentRowsAppend(segs, [segment], providers);
    assert [segment][1..] == [];
  }

  /** A cell factory registered under a reuse identifier (`dynamicCreators`). */
  datatype Creator = Creator(style: CellStyle, configure: Delegated.FnId)

  /** `StaticTableView`. */
  class StaticTableView<D> {
    var descriptor: seq<SectionDescriptor<D>>
    var sections: seq<Section<D>>
    var dynamicCreators: map<ReuseId, Creator>
    var nextReuseId: ReuseId
    var deselectCellsWhenSelected: bool

    /**
     * Every reuse identifier in use, in the descriptor or in a rendered row, has a
     * registered factory, and the counter is past every registered identifier.
     */
    ghost predicate Valid()
      reads this
    {
      && (forall rid :: rid in dynamicCreators ==> rid < nextReuseId)
      && DescriptorIds(descriptor) <= dynamicCreators.Keys
      && SectionIds(sections) <= dynamicCreators.Keys
    }

    /** `init()`: an empty table that deselects cells when they are selected. */
    constructor ()
      ensures Valid()
      ensures descriptor == [] && sections == [] && dynamicCreators == map[]
      ensures deselectCellsWhenSelected
    {
      descriptor := [];
      sections := [];
      dynamicCreators := map[];
      nextReuseId := 0;
      deselectCellsWhenSelected := true;
    }

    /** `render()`: recomputes every section from the descriptor and the current data. */
    method Render(providers: Providers<D>)
      requires Valid()
      modifies this
      ensures Valid()
      ensures sections == Rendered(descriptor, providers)
      ensures descriptor == old(descriptor) && dynamicCreators == old(dynamicCreators)
      ensures nextReuseId == old(nextReuseId)
      ensures deselectCellsWhenSelected == old(deselectCellsWhenSelected)
    {
      RenderedIds(descriptor, providers);
      ghost var read: set<object> := DescriptorObjects(descriptor);
      assert this !in read;  // rendering reads the dynamic segments, never the table itself
      sections := Rendered(descriptor, providers);
    }

    /** `reloadData()`: renders (and then lets UIKit re-query the data source). */
    method ReloadData(providers: Providers<D>)
      requires Valid()
      modifies this
      ensures Valid()
      ensures sections == Rendered(descriptor, providers)
      ensures descriptor == old(descriptor) && dynamicCreators == old(dynamicCreators)
      ensures nextReuseId == old(nextReuseId)
      ensures deselectCellsWhenSelected == old(deselectCellsWhenSelected)
    {
      Render(providers);
    }

    /** `clear()`: forgets every descriptor and renders, leaving no section. */
    method Clear(providers: Providers<D>)
      requires Valid()
      modifies this
      ensures Valid()
      ensures descriptor == [] && sections == []
      ensures dynamicCreators == old(dynamicCreators) && nextReuseId == old(nextReuseId)
      ensures deselectCellsWhenSelected == old(deselectCellsWhenSelected)
    {
      descriptor := [];
      Render(providers);
    }

    /**
     * `startSection(title:footer:)`: appends an empty section with that title and footer.
     * It does not render, so the rendered sections stay as they were.
     */
    method StartSection(title: Option<string>, footer: Option<string>)
      requires Valid()
      modifies this
      ensures Valid()
      ensures descriptor == old(descriptor) + [SectionDescriptor(title, footer, [])]
      ensures sections == old(sections) && dynamicCreators == old(dynamicCreators)
      ensures nextReuseId == old(nextReuseId)
      ensures deselectCellsWhenSelected == old(deselectCellsWhenSelected)
    {
      descriptor := descriptor + [SectionDescriptor(title, footer, [])];
    }

    /** `insert(segment:insert:)`: updates the descriptor, then renders. */
    method Insert(segment: Segment<D>, mode: InsertMode, providers: Providers<D>)
      requires Valid()
      requires segment.Dynamic? ==> segment.segment.reuseIdentifier in dynamicCreators
      modifies this
      ensures Valid()
      ensures descriptor == Inserted(old(descriptor), segment, mode)
      ensures sections == Rendered(descriptor, providers)
      ensures dynamicCreators == old(dynamicCreators) && nextReuseId == old(nextReuseId)
      ensures deselectCellsWhenSelected == old(deselectCellsWhenSelected)
    {
      InsertedIds(descriptor, segment, mode);
      descriptor := Inserted(descriptor, segment, mode);
      Render(providers);
    }

    /**
     * `addRowCell(style:_:)`: a new static cell that does not highlight, deselects on
     * selection when the table says so, and ends the last section.
     */
    method AddRowCell(style: CellStyle, providers: Providers<D>) returns (cell: Cell<D>)
      requires Valid()
      modifies this
      ensures Valid()
      ensures fresh(cell) && fresh(cell.selectionCallback)
      ensures cell.style == style && !cell.isDynamic && cell.reuseIdentifier == None
      ensures cell.selectionStyle == NoSelection && cell.accessoryType == NoAccessory
      ensures cell.actions == if deselectCellsWhenSelected then {Deselect} else {}
      ensures cell.selectionCallback.callback == Delegated.NoOp
      ensures descriptor == Inserted(old(descriptor), StaticCell(cell), Last)
      ensures sections == Rendered(descriptor, providers)
      ensures dynamicCreators == old(dynamicCreators) && nextReuseId == old(nextReuseId)
      ensures deselectCellsWhenSelected == old(deselectCellsWhenSelected)
    {
      cell := new Cell(style, None, false);
      cell.selectionStyle := NoSelection;
      if deselectCellsWhenSelected {
        cell.actions := cell.actions + {Deselect};
      }
      Insert(StaticCell(cell), Last, providers);
    }

    /** `addRow(_:)`: `addRowCell` with the default cell style. */
    method AddRow(providers: Providers<D>) returns (cell: Cell<D>)
      requires Valid()
      modifies this
      ensures Valid()
      ensures fresh(cell) && fresh(cell.selectionCallback)
      ensures cell.style == DefaultStyle && !cell.isDynamic && cell.reuseIdentifier == None
      ensures cell.selectionStyle == NoSelection && cell.accessoryType == NoAccessory
      ensures cell.actions == if deselectCellsWhenSelected then {Deselect} else {}
      ensures cell.selectionCallback.callback == Delegated.NoOp
      ensures descriptor == Inserted(old(descriptor), StaticCell(cell), Last)
      ensures sections == Rendered(descriptor, providers)
      ensures dynamicCreators == old(dynamicCreators) && nextReuseId == old(nextReuseId)
      ensures deselectCellsWhenSelected == old(deselectCellsWhenSelected)
    {
      cell := AddRowCell(DefaultStyle, providers);
    }

    /**
     * `insertDynamicSegment`: registers a factory under a fresh reuse identifier and
     * appends a dynamic segment with that identifier to the last section.
     */
    method InsertDynamicSegment(dataSet: DataSet<D>, style: CellStyle, configure: Delegated.FnId, providers: Providers<D>)
      returns (segment: DynamicSegment<D>)
      requires Valid()
      modifies this
      ensures Valid()
      ensures fresh(segment) && segment.dataSet == dataSet
      ensures segment.reuseIdentifier !in old(dynamicCreators)
      ensures dynamicCreators == old(dynamicCreators)[segment.reuseIdentifier := Creator(style, configure)]
      ensures descriptor == Inserted(old(descriptor), Dynamic(segment), Last)
      ensures sections == Rendered(descriptor, providers)
      ensures deselectCellsWhenSelected == old(deselectCellsWhenSelected)
    {
      var rid := nextReuseId;
      nextReuseId := nextReuseId + 1;
      dynamicCreators := dynamicCreators[rid := Creator(style, configure)];
      segment := new DynamicSegment(dataSet, rid);
      Insert(Dynamic(segment), Last, providers);
    }

    /** `addDynamicSegment(initialDataSet:style:_:)`: a segment over a fixed list. */
    method AddDynamicSegment(initialDataSet: seq<D>, style: CellStyle, configure: Delegated.FnId, providers: Providers<D>)
      returns (segment: DynamicSegment<D>)
      requires Valid()
      modifies this
      ensures Valid()
      ensures fresh(segment) && segment.dataSet == Fixed(initialDataSet)
      ensures segment.reuseIdentifier !in old(dynamicCreators)
      ensures dynamicCreators == old(dynamicCreators)[segment.reuseIdentifier := Creator(style, configure)]
      ensures descriptor == Inserted(old(descriptor), Dynamic(segment), Last)
      ensures sections == Rendered(descriptor, providers)
      ensures deselectCellsWhenSelected == old(deselectCellsWhenSelected)
    {
      segment := InsertDynamicSegment(Fixed(initialDataSet), style, configure, providers);
    }

    /**
     * `addDynamicSegment(provider:dataSet:style:_:)`: a segment that applies `read` (the
     * `dataSet:` function) to the provider at every render and yields nothing once the provider is gone. The source does
     * not hand the segment back; the model does, as a ghost value, so callers can name it.
     */
    method AddProviderSegment(provider: Delegated.ObjId, read: Delegated.FnId, style: CellStyle, configure: Delegated.FnId, providers: Providers<D>)
      returns (ghost segment: DynamicSegment<D>)
      requires Valid()
      modifies this
      ensures Valid()
      ensures fresh(segment) && segment.dataSet == FromProvider(provider, read)
      ensures segment.reuseIdentifier !in old(dynamicCreators)
      ensures dynamicCreators == old(dynamicCreators)[segment.reuseIdentifier := Creator(style, configure)]
      ensures descriptor == Inserted(old(descriptor), Dynamic(segment), Last)
      ensures sections == Rendered(descriptor, providers)
      ensures deselectCellsWhenSelected == old(deselectCellsWhenSelected)
    {
      segment := InsertDynamicSegment(FromProvider(provider, read), style, configure, providers);
    }

    /** `numberOfSections(in:)`. */
    function NumberOfSections(): nat
      reads this
    {
      |sections|
    }

    /** `tableView(_:numberOfRowsInSection:)`. */
    function NumberOfRows(section: nat): nat
      reads this
      requires section < |sections|
    {
      |sections[section].rows|
    }

    /** `tableView(_:titleForHeaderInSection:)`. */
    function TitleForHeader(section: nat): Option<string>
      reads this
      requires section < |sections|
    {
      sections[section].title
    }

    /** `tableView(_:titleForFooterInSection:)`. */
    function TitleForFooter(section: nat): Option<string>
      reads this
      requires section < |sections|
    {
      sections[section].footer
    }

    /**
     * `tableView(_:cellForRowAt:)`. A static row gives back its own cell. A dynamic row
     * takes the cell the reuse pool offers (`pooled`), made unselectable again by
     * `prepareForReuse`, if it is a dynamic cell, or else
     * builds one with the registered factory, and pushes the row's data into it. A dynamic
     * row with neither is the fatal misconfiguration; it cannot happen on a valid table.
     */
    method CellForRow(section: nat, row: nat, pooled: Option<Cell<D>>) returns (r: Result<Cell<D>, TableError>)
      requires section < |sections| && row < |sections[section].rows|
      modifies if pooled.Some? then {pooled.value} else {}
      ensures Valid() ==> r.Success?
      ensures sections[section].rows[row].StaticRow? ==> r == Success(sections[section].rows[row].cell)
      ensures pooled.Some? && (sections[section].rows[row].StaticRow? || !pooled.value.isDynamic) ==>
        unchanged(pooled.value)
      ensures sections[section].rows[row].DynamicRow? ==>
        var rid := sections[section].rows[row].reuseIdentifier;
        var data := sections[section].rows[row].data;
        if pooled.Some? && pooled.value.isDynamic then
          && r == Success(pooled.value) && pooled.value.shown == Some(data)
          && pooled.value.selectionStyle == NoSelection
          && pooled.value.actions == old(pooled.value.actions)
          && pooled.value.accessoryType == old(pooled.value.accessoryType)
        else if rid in dynamicCreators then
          && r.Success? && fresh(r.value) && r.value.isDynamic
          && r.value.reuseIdentifier == Some(rid)
          && r.value.style == dynamicCreators[rid].style
          && r.value.selectionStyle == NoSelection
          && r.value.shown == Some(data)
          && r.value.actions == (if deselectCellsWhenSelected then {Deselect} else {})
        else
          r == Failure(Misconfigured)
    {
      var current := sections[section].rows[row];
      match current
      case StaticRow(cell) =>
        r := Success(cell);
      case DynamicRow(rid, data) =>
        if pooled.Some? && pooled.value.isDynamic {
          pooled.value.PrepareForReuse();
          pooled.value.Reuse(data);
          r := Success(pooled.value);
        } else if rid in dynamicCreators {
          var made := new Cell(dynamicCreators[rid].style, Some(rid), true);
          made.selectionStyle := NoSelection;
          made.Reuse(data);
          if deselectCellsWhenSelected {
            made.actions := made.actions + {Deselect};
          }
          r := Success(made);
        } else {
          assert sections[section] in sections && current in sections[section].rows;
          assert rid in SectionIds(sections);
          r := Failure(Misconfigured);
        }
    }

    /**
     * `tableView(_:didSelectRowAt:)`: for the cell UIKit shows at the index path, runs its
     * selection callback once, then applies every action of its set, in whatever order the
     * set yields them: `.deselect` deselects the row, `.toggleCheckmark` toggles the
     * accessory. The outcome does not depend on that order.
     */
    method DidSelectRow(visible: Option<Cell<D>>, alive: set<Delegated.ObjId>)
      returns (effects: seq<Delegated.Effect<Cell<D>>>, deselected: bool)
      modifies if visible.Some? then {visible.value} else {}
      ensures visible.None? ==> effects == [] && !deselected
      ensures visible.Some? ==>
        var cell := visible.value;
        && effects == Delegated.Invoke(cell.selectionCallback.callback, alive, cell)
        && deselected == (Deselect in cell.actions)
        && cell.accessoryType ==
             (if ToggleCheckmark in cell.actions then Toggled(old(cell.accessoryType)) else old(cell.accessoryType))
        && cell.actions == old(cell.actions)
        && cell.selectionStyle == old(cell.selectionStyle)
        && cell.shown == old(cell.shown)
    {
      effects, deselected := [], false;
      if visible.Some? {
        var cell := visible.value;
        effects := cell.selectionCallback.Call(cell, alive);
        var pending := cell.actions;
        while pending != {}
          invariant pending <= cell.actions
          invariant cell.actions == old(cell.actions) && cell.selectionStyle == old(cell.selectionStyle)
          invariant cell.shown == old(cell.shown)
          invariant deselected == (Deselect in cell.actions - pending)
          invariant cell.accessoryType ==
            (if ToggleCheckmark in cell.actions - pending then Toggled(old(cell.accessoryType)) else old(cell.accessoryType))
          decreases pending
        {
          var action :| action in pending;
          if action == Deselect {
            deselected := true;
          } else {
            cell.accessoryType := Toggled(cell.accessoryType);
          }
          pending := pending - {action};
        }
      }
    }
  }

  /**
   * After a render, the data source reports one section per descriptor and, for each, as
   * many rows as the descriptor has static segments plus items in its dynamic segments.
   */
  lemma RowCountAfterRender<D>(table: StaticTableView<D>, section: nat, providers: Providers<D>)
    requires table.sections == Rendered(table.descriptor, providers)
    requires section < |table.descriptor|
    ensures table.NumberOfSections() == |table.descriptor|
    ensures table.NumberOfRows(section) ==
      StaticCount(table.descriptor[section].segments)
      + DynamicItemTotal(table.descriptor[section].segments, providers)
    ensures table.TitleForHeader(section) == table.descriptor[section].title
    ensures table.TitleForFooter(section) == table.descriptor[section].footer
  {
    RowCount(table.descriptor[section].segments, providers);
  }
}
