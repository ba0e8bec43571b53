/**
  The list logic behind the "who reacted" context menu: the reactions list
  with its leading "all" entry, the horizontal tab bar's layout, the
  windowed list of reactor rows with its load-more trigger and
  apparent-height clamp, the header stacking of the menu, and tab switching
  with update forwarding from the current tab only.

  Text measurement, icon sizes and the scroll position are inputs; views
  are reduced to the fields the logic reads and writes.
*/
module ReactionList {
  import opened Wrappers

  type Reaction = string

  /** An identifier of a peer (a user who reacted). */
  type PeerId = nat

  /** One reaction of the message's reactions attribute: its value and its count. */
  datatype AttributeReaction = AttributeReaction(value: Reaction, count: int)

  /** One entry of the menu's reactions list; `reaction == None` is the "all reactions" entry. */
  datatype ReactionEntry = ReactionEntry(reaction: Option<Reaction>, count: int)

  // ---------------------------------------------------------------------------
  // The reactions list and the tab bar
  // ---------------------------------------------------------------------------

  /** The sum of the counts of the attribute's reactions. */
  function Total(attrs: seq<AttributeReaction>): int
  {
    if attrs == [] then 0 else Total(attrs[..|attrs| - 1]) + attrs[|attrs| - 1].count
  }

  /** The reactions the message carries: none when it has no reactions attribute. */
  function AttributeOf(attribute: Option<seq<AttributeReaction>>): seq<AttributeReaction>
  {
    if attribute.Some? then attribute.value else []
  }

  /**
    Builds the reactions list: one entry per reaction of the attribute, in
    order, preceded by the "all" entry whose count is the sum of the others.
  */
  method BuildReactions(attribute: Option<seq<AttributeReaction>>) returns (reactions: seq<ReactionEntry>)
    ensures var attrs := AttributeOf(attribute);
      && |reactions| == |attrs| + 1
      && reactions[0] == ReactionEntry(None, Total(attrs))
      && forall i :: 0 <= i < |attrs| ==> reactions[i + 1] == ReactionEntry(Some(attrs[i].value), attrs[i].count)
  {
    reactions := [];
    var totalCount := 0;
    if attribute.Some? {
      var attrs := attribute.value;
      for i := 0 to |attrs|
        invariant |reactions| == i
        invariant totalCount == Total(attrs[..i])
        invariant forall k :: 0 <= k < i ==> reactions[k] == ReactionEntry(Some(attrs[k].value), attrs[k].count)
      {
        assert attrs[..i + 1][..i] == attrs[..i];
        totalCount := totalCount + attrs[i].count;
        reactions := reactions + [ReactionEntry(Some(attrs[i].value), attrs[i].count)];
      }
      assert attrs[..|attrs|] == attrs;
    }
    reactions := [ReactionEntry(None, totalCount)] + reactions;
  }

  /** The sum of the counts of a run of list entries. */
  function EntryCounts(entries: seq<ReactionEntry>): int
  {
    if entries == [] then 0 else EntryCounts(entries[..|entries| - 1]) + entries[|entries| - 1].count
  }

  /**
    The "all" entry counts exactly what the per-reaction entries after it
    count: a list built by `BuildReactions` has `reactions[0].count ==
    EntryCounts(reactions[1..])`.
  */
  lemma {:induction false} AllEntryCountsTheRest(attrs: seq<AttributeReaction>, reactions: seq<ReactionEntry>)
    requires |reactions| == |attrs| + 1
    requires reactions[0] == ReactionEntry(None, Total(attrs))
    requires forall i :: 0 <= i < |attrs| ==> reactions[i + 1] == ReactionEntry(Some(attrs[i].value), attrs[i].count)
    ensures reactions[0].count == EntryCounts(reactions[1..])
    ensures forall i :: 1 <= i < |reactions| ==> reactions[i].reaction.Some?
  {
    EntryCountsOfAttributes(attrs, reactions[1..]);
  }

  lemma {:induction false} EntryCountsOfAttributes(attrs: seq<AttributeReaction>, entries: seq<ReactionEntry>)
    requires |entries| == |attrs|
    requires forall i :: 0 <= i < |attrs| ==> entries[i] == ReactionEntry(Some(attrs[i].value), attrs[i].count)
    ensures EntryCounts(entries) == Total(attrs)
  {
    if attrs != [] {
      EntryCountsOfAttributes(attrs[..|attrs| - 1], entries[..|entries| - 1]);
    }
  }

  /** The tab bar is shown only when there is more than one reaction besides "all". */
  predicate HasTabList(reactions: seq<ReactionEntry>)
  {
    |reactions| > 2
  }

  /** Inner inset of a tab item, the gap between its icon and its count, and the icon box. */
  const TabItemInset: real := 12.0
  const TabIconSpacing: real := 4.0

  /** Outer inset of the tab bar and the gap between tab items. */
  const TabSideInset: real := 11.0
  const TabSpacing: real := 0.0

  /** A tab item as measured: the width of its count label and of its (aspect-fitted) icon. */
  datatype TabItem = TabItem(reaction: Option<Reaction>, titleWidth: real, iconWidth: real)
  {
    ghost predicate Measured() { 0.0 <= titleWidth && 0.0 <= iconWidth }
  }

  /** A tab item's width: both insets, the icon, the spacing and the count label. */
  function TabItemWidth(t: TabItem): (w: real)
    ensures t.Measured() ==> w >= 2.0 * TabItemInset + TabIconSpacing
  {
    TabItemInset * 2.0 + t.titleWidth + t.iconWidth + TabIconSpacing
  }

  /** The summed widths of a run of tab items. */
  function WidthSum(tabs: seq<TabItem>): real
  {
    if tabs == [] then 0.0 else WidthSum(tabs[..|tabs| - 1]) + TabItemWidth(tabs[|tabs| - 1])
  }

  /** Where tab item `i` starts: after the side inset, the items before it and one spacing per item before it. */
  function TabX(tabs: seq<TabItem>, i: nat): real
    requires i <= |tabs|
  {
    TabSideInset + WidthSum(tabs[..i]) + (i as real) * TabSpacing
  }

  /** Where the first `i` tab items end: the spacing sits only between items, so there is one fewer than items. */
  function TabEnd(tabs: seq<TabItem>, i: nat): real
    requires i <= |tabs|
  {
    TabSideInset + WidthSum(tabs[..i]) + (if i == 0 then 0.0 else (i - 1) as real) * TabSpacing
  }

  /** The horizontal frame of a tab item (its height is the bar's). */
  datatype TabFrame = TabFrame(x: real, width: real)

  /** The position of the last tab item carrying `selected`, when any does. */
  function LastMatch(tabs: seq<TabItem>, selected: Option<Reaction>): (r: Option<nat>)
    ensures r.Some? ==> r.value < |tabs| && tabs[r.value].reaction == selected
    ensures r.Some? ==> forall k :: r.value < k < |tabs| ==> tabs[k].reaction != selected
    ensures r.None? ==> forall k :: 0 <= k < |tabs| ==> tabs[k].reaction != selected
  {
    if tabs == [] then None
    else if tabs[|tabs| - 1].reaction == selected then Some(|tabs| - 1)
    else LastMatch(tabs[..|tabs| - 1], selected)
  }

  /**
    The tab bar layout: items are laid out left to right from the side
    inset, each as wide as its measurement; the selection highlight takes
    the frame of the (last) item whose reaction is the selected one; the
    scrollable content is the items plus both side insets.
  */
  method TabListLayout(tabs: seq<TabItem>, selected: Option<Reaction>)
    returns (frames: seq<TabFrame>, highlight: Option<TabFrame>, contentWidth: real)
    ensures |frames| == |tabs|
    ensures forall i :: 0 <= i < |tabs| ==> frames[i] == TabFrame(TabX(tabs, i), TabItemWidth(tabs[i]))
    ensures contentWidth == TabEnd(tabs, |tabs|) + TabSideInset
    ensures highlight == if LastMatch(tabs, selected).Some? then Some(frames[LastMatch(tabs, selected).value]) else None
  {
    frames := [];
    highlight := None;
    contentWidth := TabSideInset;
    for i := 0 to |tabs|
      invariant |frames| == i
      invariant contentWidth == TabEnd(tabs, i)
      invariant forall k :: 0 <= k < i ==> frames[k] == TabFrame(TabX(tabs, k), TabItemWidth(tabs[k]))
      invariant highlight == if LastMatch(tabs[..i], selected).Some? then Some(frames[LastMatch(tabs[..i], selected).value]) else None
    {
      assert tabs[..i + 1][..i] == tabs[..i];
      if i != 0 {
        contentWidth := contentWidth + TabSpacing;
      }
      var itemWidth := TabItemWidth(tabs[i]);
      var itemFrame := TabFrame(contentWidth, itemWidth);
      frames := frames + [itemFrame];
      if tabs[i].reaction == selected {
        highlight := Some(itemFrame);
      }
      contentWidth := contentWidth + itemWidth;
    }
    assert tabs[..|tabs|] == tabs;
    contentWidth := contentWidth + TabSideInset;
  }

  /**
    The tab items follow each other: the first starts at the side inset, each
    next one starts one spacing after the previous one ends (the spacing is 0,
    so they abut), and the content ends one side inset after the last; the
    content width is both insets, all item widths and the spacings between them.
  */
  lemma TabsAbut(tabs: seq<TabItem>)
    ensures TabX(tabs, 0) == TabSideInset
    ensures forall i :: 0 <= i < |tabs| ==> TabX(tabs, i + 1) == TabX(tabs, i) + TabItemWidth(tabs[i]) + TabSpacing
    ensures forall i :: 0 <= i < |tabs| ==> TabEnd(tabs, i + 1) == TabX(tabs, i) + TabItemWidth(tabs[i])
    ensures tabs != [] ==>
      TabEnd(tabs, |tabs|) + TabSideInset == 2.0 * TabSideInset + WidthSum(tabs) + ((|tabs| - 1) as real) * TabSpacing
    ensures forall i :: 0 < i <= |tabs| ==> TabX(tabs, i) == TabEnd(tabs, i) + TabSpacing
  {
    assert tabs[..0] == [];
    assert tabs[..|tabs|] == tabs;
    forall i | 0 <= i < |tabs|
      ensures TabX(tabs, i + 1) == TabX(tabs, i) + TabItemWidth(tabs[i]) + TabSpacing
      ensures TabEnd(tabs, i + 1) == TabX(tabs, i) + TabItemWidth(tabs[i])
    {
      assert tabs[..i + 1][..i] == tabs[..i];
    }
  }

  /** With measured items the content is at least an empty item per tab plus both insets. */
  lemma {:induction false} ContentFitsEveryTab(tabs: seq<TabItem>)
    requires forall i :: 0 <= i < |tabs| ==> tabs[i].Measured()
    ensures WidthSum(tabs) >= (|tabs| as real) * (2.0 * TabItemInset + TabIconSpacing)
  {
    if tabs != [] {
      ContentFitsEveryTab(tabs[..|tabs| - 1]);
    }
  }

  // ---------------------------------------------------------------------------
  // Reactor rows: the icon of a reused row
  // ---------------------------------------------------------------------------

  /** A row's reaction icon node: the reaction it was made for, and whether it is in the view tree. */
  datatype IconNode = IconNode(reaction: Reaction, attached: bool)

  /** The reaction a row's icon shows: the icon's own reaction while it is attached. */
  function ShownIcon(icon: Option<IconNode>): Option<Reaction>
  {
    if icon.Some? && icon.value.attached then Some(icon.value.reaction) else None
  }

  /**
    The icon update of a reactor row as written: an icon is created only
    when the row has none, and for an item without a reaction the icon is
    removed from the view tree but the row keeps referring to it. So an icon,
    once made, is never dropped and never changes its reaction, and a row
    without a reaction shows none.
  */
  function IconAfterAsWritten(icon: Option<IconNode>, reaction: Option<Reaction>): (r: Option<IconNode>)
    ensures r.Some? <==> icon.Some? || reaction.Some?
    ensures icon.Some? ==> r.value.reaction == icon.value.reaction
    ensures reaction.None? ==> ShownIcon(r).None?
  {
    if reaction.Some? then
      if icon.None? then Some(IconNode(reaction.value, true)) else icon
    else if icon.Some? then
      Some(icon.value.(attached := false))
    else
      None
  }

  /**
    As written, a reused row can show the wrong icon or none: a row that
    showed "a" keeps showing "a" for an item reacted with "b", and a row that
    went through an item without a reaction never shows an icon again.
  */
  lemma IconAsWrittenGoesStale()
    ensures var shown := IconAfterAsWritten(None, Some("a"));
      ShownIcon(IconAfterAsWritten(shown, Some("b"))) == Some("a")
    ensures var hidden := IconAfterAsWritten(IconAfterAsWritten(None, Some("a")), None);
      ShownIcon(IconAfterAsWritten(hidden, Some("a"))) == None
  {
  }

  /**
    The corrected icon update: the icon is kept when it already shows the
    item's reaction, replaced by a new one otherwise, and dropped (not just
    detached) for an item without a reaction.
  */
  function IconAfter(icon: Option<IconNode>, reaction: Option<Reaction>): (r: Option<IconNode>)
    ensures r.Some? ==> r.value.attached
  {
    if reaction.Some? then
      if icon.Some? && icon.value.reaction == reaction.value && icon.value.attached then icon
      else Some(IconNode(reaction.value, true))
    else
      None
  }

  /** After the corrected update a row shows exactly its item's reaction, whatever it showed before. */
  lemma IconShowsItemReaction(icon: Option<IconNode>, reaction: Option<Reaction>)
    ensures ShownIcon(IconAfter(icon, reaction)) == reaction
    ensures icon.Some? && reaction == Some(icon.value.reaction) && icon.value.attached ==> IconAfter(icon, reaction) == icon
  {
  }

  /** Row geometry: avatar inset, size and spacing, the text's side inset, and the icon's column. */
  const RowHeight: real := 44.0
  const AvatarInset: real := 12.0
  const AvatarSize: real := 28.0
  const AvatarSpacing: real := 8.0
  const RowSideInset: real := 16.0
  const IconColumn: real := 32.0

  /** The widest the peer's name may be laid out in a row of width `width`. */
  function MaxTitleWidth(width: real, hasIcon: bool): real
  {
    var w := width - AvatarInset - AvatarSize - AvatarSpacing - RowSideInset;
    if hasIcon then w - IconColumn else w
  }

  /** One reactor: the peer and the reaction it left (none in a read-receipt style entry). */
  datatype PeerItem = PeerItem(peer: PeerId, reaction: Option<Reaction>)

  /** A page of the reactor list as the list context publishes it. */
  datatype ListState = ListState(items: seq<PeerItem>, canLoadMore: bool, totalCount: nat)

  datatype Size = Size(width: real, height: real)

  /**
    A reactor row. The peer its tap opens is fixed when the row is created;
    the item it displays, its place and its icon are updated whenever the row
    is laid out.
  */
  class RowNode {
    const actionPeer: PeerId
    var item: Option<PeerItem>
    var isLast: bool
    var top: real
    var width: real
    var titleWidth: real
    var icon: Option<IconNode>
    var attached: bool

    constructor(actionPeer: PeerId)
      ensures this.actionPeer == actionPeer && item == None && icon == None && attached
    {
      this.actionPeer := actionPeer;
      item := None;
      isLast := false;
      top := 0.0;
      width := 0.0;
      titleWidth := 0.0;
      icon := None;
      attached := true;
    }

    /**
      Lays the row out for `item` at vertical offset `top`. The icon follows
      the corrected rule `IconAfter`, not the update as written
      (`IconAfterAsWritten`), so a reused row always shows its own item's
      reaction and the title is narrowed exactly when it does.
    */
    method Update(width: real, top: real, item: PeerItem, isLast: bool)
      modifies this`item, this`isLast, this`top, this`width, this`titleWidth, this`icon
      ensures this.item == Some(item) && this.isLast == isLast && this.top == top && this.width == width
      ensures icon == IconAfter(old(icon), item.reaction)
      ensures ShownIcon(icon) == item.reaction
      ensures titleWidth == MaxTitleWidth(width, item.reaction.Some?)
    {
      this.item := Some(item);
      this.isLast := isLast;
      this.top := top;
      this.width := width;
      icon := IconAfter(icon, item.reaction);
      IconShowsItemReaction(old(icon), item.reaction);
      titleWidth := MaxTitleWidth(width, icon.Some?);
    }
  }

  /** `Int(ceil(x))`. */
  function Ceil(x: real): (n: int)
    ensures x <= n as real < x + 1.0
  {
    -((-x).Floor)
  }

  /** How far beyond the visible bounds rows are kept, above and below. */
  const VisibleInset: real := 180.0

  /** How close to the end of the loaded items the window must come to ask for more. */
  const LoadMoreThreshold: int := 16

  /**
    The rows kept for a scroll offset and a viewport height: the bounds
    grown by `VisibleInset` above and below, cut into rows of `RowHeight`,
    the first index rounded down (never below 0) and the last rounded up.
  */
  function VisibleRange(offsetY: real, height: real): (r: (nat, int))
    ensures (r.0 == 0 && offsetY - VisibleInset < RowHeight)
         || (r.0 as real) * RowHeight <= offsetY - VisibleInset < (r.0 as real + 1.0) * RowHeight
    ensures (r.1 as real - 1.0) * RowHeight < offsetY + height + VisibleInset <= (r.1 as real) * RowHeight
  {
    var minY := offsetY - VisibleInset;
    var maxY := offsetY + height + VisibleInset;
    var lo := (minY / RowHeight).Floor;
    (if lo < 0 then 0 else lo, Ceil(maxY / RowHeight))
  }

  predicate InWindow(lo: int, hi: int, i: int)
  {
    lo <= i <= hi
  }

  /** The indices of the window `lo ... hi` that are loaded items. */
  function Window(lo: int, hi: int, count: nat): (w: set<int>)
    ensures forall i :: i in w <==> 0 <= i < count && lo <= i <= hi
  {
    set i | 0 <= i < count && InWindow(lo, hi, i)
  }

  /** Extending a window by one loaded index adds exactly that index. */
  lemma WindowStep(lo: int, index: int, count: nat)
    requires lo <= index < count && 0 <= index
    ensures Window(lo, index, count) == Window(lo, index - 1, count) + {index}
  {
  }

  /** The row shows item `i` of `items`, laid out at its place in a list of width `width`. */
  ghost predicate RowShows(node: RowNode, i: int, items: seq<PeerItem>, width: real)
    requires 0 <= i < |items|
    reads node
  {
    && node.item == Some(items[i])
    && node.isLast == (i == |items| - 1)
    && node.top == (i as real) * RowHeight
    && node.width == width
    && ShownIcon(node.icon) == items[i].reaction
  }

  /** Different indices hold different rows. */
  ghost predicate RowsDistinct(nodes: map<int, RowNode>)
  {
    forall i, j :: i in nodes && j in nodes && i != j ==> nodes[i] != nodes[j]
  }

  /**
    Clamps the apparent height (the visible part of the list's content) to
    at least one row and at most 100 points past the container.
  */
  function ClampApparentHeight(raw: real, containerHeight: real): (h: real)
    ensures h <= containerHeight + 100.0
    ensures RowHeight <= containerHeight + 100.0 ==> RowHeight <= h
    ensures RowHeight <= raw <= containerHeight + 100.0 ==> h == raw
  {
    var h := if raw < RowHeight then RowHeight else raw;
    if containerHeight + 100.0 < h then containerHeight + 100.0 else h
  }

  /**
    The list's container: as wide as offered, and as tall as the full list
    of `totalCount` rows or the offered height, whichever is less.
  */
  function ContainerSize(constrained: Size, totalCount: nat): (c: Size)
    ensures c.width == constrained.width
    ensures c.height <= constrained.height && c.height <= (totalCount as real) * RowHeight
    ensures c.height == constrained.height || c.height == (totalCount as real) * RowHeight
  {
    var contentHeight := (totalCount as real) * RowHeight;
    Size(constrained.width, if constrained.height < contentHeight then constrained.height else contentHeight)
  }

  /**
    One tab's list of reactors (all reactions, or one reaction). Rows exist
    only for the loaded items near the visible bounds and are keyed by item
    index.
  */
  class ReactionsTabNode {
    const reaction: Option<Reaction>
    var state: ListState
    var currentSize: Option<Size>
    var contentOffsetY: real
    var contentHeight: real
    var ignoreScrolling: bool
    var apparentHeight: real
    var itemNodes: map<int, RowNode>

    ghost predicate Valid()
      reads this, itemNodes.Values
    {
      && RowsDistinct(itemNodes)
      && (forall i :: i in itemNodes ==> itemNodes[i].attached)
    }

    constructor(reaction: Option<Reaction>, initial: ListState)
      ensures this.reaction == reaction && state == initial && itemNodes == map[] && currentSize == None
      ensures Valid()
    {
      this.reaction := reaction;
      state := initial;
      currentSize := None;
      contentOffsetY := 0.0;
      contentHeight := 0.0;
      ignoreScrolling := false;
      apparentHeight := 0.0;
      itemNodes := map[];
    }

    /**
      A new state from the list context. The list fades in when it goes
      from no items to some.
    */
    method ReceiveState(newState: ListState) returns (animateIn: bool)
      modifies this`state
      ensures state == newState
      ensures animateIn <==> old(state).items == [] && newState.items != []
    {
      animateIn := state.items == [] && newState.items != [];
      state := newState;
    }

    /**
      Creates or reuses a row for every index of the window `lo ... hi` that
      is a loaded item, in order, and lays each out; returns the indices it
      visited. Rows already present are kept, not recreated.
    */
    method PlaceRows(lo: nat, hi: int, width: real) returns (validIds: set<int>)
      requires Valid()
      modifies this`itemNodes, itemNodes.Values
      ensures Valid()
      ensures validIds == Window(lo, hi, |state.items|)
      ensures forall i :: i in old(itemNodes) ==> i in itemNodes && itemNodes[i] == old(itemNodes)[i]
      ensures forall i :: i in itemNodes && i !in old(itemNodes) ==>
        i in validIds && fresh(itemNodes[i]) && itemNodes[i].actionPeer == state.items[i].peer
      ensures forall i :: i in validIds ==> i in itemNodes && RowShows(itemNodes[i], i, state.items, width)
    {
      validIds := {};
      var count := |state.items|;
      if lo <= hi {
        var index := lo;
        while index <= hi
          invariant lo <= index <= hi + 1
          invariant validIds == Window(lo, index - 1, count)
          invariant Valid()
          invariant forall i :: i in old(itemNodes) ==> i in itemNodes && itemNodes[i] == old(itemNodes)[i]
          invariant forall i :: i in itemNodes && i !in old(itemNodes) ==>
            i in validIds && fresh(itemNodes[i]) && itemNodes[i].actionPeer == state.items[i].peer
          invariant forall i :: i in validIds ==> i in itemNodes && RowShows(itemNodes[i], i, state.items, width)
        {
          if index >= count {
            break;
          }
          WindowStep(lo, index, count);
          validIds := validIds + {index};
          var itemNode: RowNode;
          if index in itemNodes {
            itemNode := itemNodes[index];
          } else {
            itemNode := new RowNode(state.items[index].peer);
            itemNodes := itemNodes[index := itemNode];
          }
          itemNode.Update(width, (index as real) * RowHeight, state.items[index], index == count - 1);
          index := index + 1;
        }
      }
    }

    /**
      Detaches every row whose index is not in `validIds` while collecting
      those indices, then drops them from the row map.
    */
    method RemoveRows(validIds: set<int>)
      requires Valid()
      requires validIds <= itemNodes.Keys
      modifies this`itemNodes, itemNodes.Values`attached
      ensures Valid()
      ensures itemNodes.Keys == validIds
      ensures forall i :: i in itemNodes ==> itemNodes[i] == old(itemNodes)[i]
      ensures forall i :: i in old(itemNodes) && i !in validIds ==> !old(itemNodes)[i].attached
    {
      var removeIds: seq<int> := [];
      var pending := itemNodes.Items;
      while pending != {}
        invariant pending <= itemNodes.Items
        invariant itemNodes == old(itemNodes)
        invariant forall k :: 0 <= k < |removeIds| ==> removeIds[k] in itemNodes && removeIds[k] !in validIds
        invariant forall i :: i in itemNodes && (i, itemNodes[i]) !in pending && i !in validIds ==> i in removeIds
        invariant forall i :: i in itemNodes ==> (itemNodes[i].attached <==> (i, itemNodes[i]) in pending || i in validIds)
        decreases pending
      {
        var entry :| entry in pending;
        var (id, itemNode) := entry;
        if id !in validIds {
          removeIds := removeIds + [id];
          itemNode.attached := false;
        }
        pending := pending - {entry};
      }
      ghost var removed := set j | 0 <= j < |removeIds| :: removeIds[j];
      forall i | i in old(itemNodes) && i !in validIds
        ensures i in removed
      {
        var j :| 0 <= j < |removeIds| && removeIds[j] == i;
      }
      assert removed == old(itemNodes).Keys - validIds;
      for k := 0 to |removeIds|
        modifies this`itemNodes
        invariant itemNodes.Keys == old(itemNodes).Keys - set j | 0 <= j < k :: removeIds[j]
        invariant forall i :: i in itemNodes ==> itemNodes[i] == old(itemNodes)[i]
      {
        itemNodes := itemNodes - {removeIds[k]};
      }
    }

    /**
      Brings the rows in line with the scroll position: while the list has
      been laid out, exactly the loaded items of the visible window have a
      row (existing rows are reused, others created), every other row is
      detached and dropped, and more items are requested when the list can
      grow and the window reaches within 16 of its end.
    */
    method UpdateVisibleItems() returns (loadMore: bool)
      requires Valid()
      modifies this`itemNodes, itemNodes.Values
      ensures Valid()
      ensures currentSize.None? ==> itemNodes == old(itemNodes) && !loadMore
      ensures currentSize.Some? ==>
        var range := VisibleRange(contentOffsetY, currentSize.value.height);
        && itemNodes.Keys == Window(range.0, range.1, |state.items|)
        && (forall i :: i in itemNodes && i in old(itemNodes) ==> itemNodes[i] == old(itemNodes)[i])
        && (forall i :: i in itemNodes && i !in old(itemNodes) ==> fresh(itemNodes[i]) && itemNodes[i].actionPeer == state.items[i].peer)
        && (forall i :: i in itemNodes ==> RowShows(itemNodes[i], i, state.items, currentSize.value.width))
        && (forall i :: i in old(itemNodes) && i !in itemNodes ==> !old(itemNodes)[i].attached)
        && (loadMore <==> state.canLoadMore && range.1 >= |state.items| - LoadMoreThreshold)
    {
      loadMore := false;
      if currentSize.None? {
        return;
      }
      var size := currentSize.value;
      var range := VisibleRange(contentOffsetY, size.height);
      var validIds := PlaceRows(range.0, range.1, size.width);
      ghost var placed := itemNodes;
      RemoveRows(validIds);
      assert forall i :: i in itemNodes ==> itemNodes[i] == placed[i];
      if state.canLoadMore && range.1 >= |state.items| - LoadMoreThreshold {
        loadMore := true;
      }
    }

    /**
      The scroll view moved to `offsetY`. Unless scroll events are being
      ignored, the rows follow the new position and, once the list has been
      laid out, the apparent height (the content still visible below the
      offset, clamped) is recomputed; the owner is asked to relayout only when
      it changed.
    */
    method ScrollViewDidScroll(offsetY: real) returns (loadMore: bool, requestedApparentHeight: bool)
      requires Valid()
      modifies this`contentOffsetY, this`itemNodes, itemNodes.Values, this`apparentHeight
      ensures Valid()
      ensures contentOffsetY == offsetY
      ensures old(ignoreScrolling) ==> itemNodes == old(itemNodes) && apparentHeight == old(apparentHeight) && !loadMore && !requestedApparentHeight
      ensures !old(ignoreScrolling) && currentSize.Some? ==>
        && apparentHeight == ClampApparentHeight(contentHeight - offsetY, currentSize.value.height)
        && (requestedApparentHeight <==> apparentHeight != old(apparentHeight))
        && var range := VisibleRange(offsetY, currentSize.value.height);
        && itemNodes.Keys == Window(range.0, range.1, |state.items|)
        && (forall i :: i in itemNodes && i in old(itemNodes) ==> itemNodes[i] == old(itemNodes)[i])
        && (loadMore <==> state.canLoadMore && range.1 >= |state.items| - LoadMoreThreshold)
      ensures currentSize.None? ==> apparentHeight == old(apparentHeight) && !requestedApparentHeight
    {
      contentOffsetY := offsetY;
      loadMore, requestedApparentHeight := false, false;
      if ignoreScrolling {
        return;
      }
      loadMore := UpdateVisibleItems();
      if currentSize.Some? {
        var height := ClampApparentHeight(-contentOffsetY + contentHeight, currentSize.value.height);
        if apparentHeight != height {
          apparentHeight := height;
          requestedApparentHeight := true;
        }
      }
    }

    /**
      Lays the tab out in `constrained`: the content is one row per reactor
      of the total count, the container is that or the offered height, the
      rows follow, and the apparent height is clamped into the container.
    */
    method Update(constrained: Size) returns (size: Size, apparent: real, loadMore: bool)
      requires Valid()
      modifies this`currentSize, this`ignoreScrolling, this`contentHeight, this`itemNodes, itemNodes.Values, this`apparentHeight
      ensures Valid()
      ensures size == ContainerSize(constrained, state.totalCount) && currentSize == Some(size)
      ensures contentHeight == (state.totalCount as real) * RowHeight
      ensures apparent == apparentHeight == ClampApparentHeight(contentHeight - contentOffsetY, size.height)
      ensures !ignoreScrolling
      ensures var range := VisibleRange(contentOffsetY, size.height);
        && itemNodes.Keys == Window(range.0, range.1, |state.items|)
        && (forall i :: i in itemNodes ==> RowShows(itemNodes[i], i, state.items, size.width))
        && (loadMore <==> state.canLoadMore && range.1 >= |state.items| - LoadMoreThreshold)
    {
      var contentSize := Size(constrained.width, (state.totalCount as real) * RowHeight);
      size := ContainerSize(constrained, state.totalCount);
      currentSize := Some(size);
      ignoreScrolling := true;
      contentHeight := contentSize.height;
      ignoreScrolling := false;
      loadMore := UpdateVisibleItems();
      apparent := ClampApparentHeight(-contentOffsetY + contentHeight, size.height);
      apparentHeight := apparent;
    }
  }

  /** The apparent height always has room for a row and at most 100 points past the container. */
  lemma ApparentHeightBounds(raw: real, containerHeight: real)
    requires containerHeight >= 0.0
    ensures RowHeight <= ClampApparentHeight(raw, containerHeight) <= containerHeight + 100.0
  {
  }

  /** The menu header: back button, the tab bar when there is one, and the separator. */
  const BackButtonHeight: real := 45.0
  const TabListHeight: real := 44.0
  const SeparatorHeight: real := 7.0
  const MaxMenuWidth: real := 260.0

  /**
    How far down the current tab starts: the header's parts summed from the
    top. The ensures is the closed form of that sum; `ItemsNode.Update`,
    which stacks the parts one at a time, is proved against it.
  */
  function HeaderHeight(hasTabList: bool): (h: real)
    ensures h == BackButtonHeight + SeparatorHeight + (if hasTabList then TabListHeight else 0.0)
  {
    var top := 0.0 + BackButtonHeight;
    var top' := if hasTabList then top + TabListHeight else top;
    top' + SeparatorHeight
  }

  /** The position of the first entry of `reactions` for `reaction`, when there is one. */
  function FirstIndex(reactions: seq<ReactionEntry>, reaction: Option<Reaction>): (r: Option<nat>)
    ensures r.Some? ==> r.value < |reactions| && reactions[r.value].reaction == reaction
    ensures r.Some? ==> forall k :: 0 <= k < r.value ==> reactions[k].reaction != reaction
    ensures r.None? ==> forall k :: 0 <= k < |reactions| ==> reactions[k].reaction != reaction
  {
    if reactions == [] then None
    else if reactions[0].reaction == reaction then Some(0)
    else
      var rest := FirstIndex(reactions[1..], reaction);
      if rest.Some? then Some(rest.value + 1) else None
  }

  /**
    How the previous tab leaves after a switch: sliding out by `offset` (the
    new tab slides in from the opposite side) when both tabs have an entry
    in the list, fading otherwise.
  */
  datatype TabTransition = NoTransition | Slide(offset: real) | Fade

  /** The transition for a switch from `previous` to `current` in a menu `width` wide. */
  function DismissTransition(reactions: seq<ReactionEntry>, previous: Option<Reaction>, current: Option<Reaction>, width: real): TabTransition
  {
    var p := FirstIndex(reactions, previous);
    var c := FirstIndex(reactions, current);
    if p.Some? && c.Some? then Slide(if p.value < c.value then width else -width) else Fade
  }

  /**
    A switch to a tab further right slides by the menu width, one further
    left by minus the width; neither happens for a reaction the list lacks.
  */
  lemma SlideFollowsListOrder(reactions: seq<ReactionEntry>, previous: Option<Reaction>, current: Option<Reaction>, width: real)
    requires previous != current && width > 0.0
    ensures var t := DismissTransition(reactions, previous, current, width);
      && (t.Slide? <==> (exists i :: 0 <= i < |reactions| && reactions[i].reaction == previous)
                        && (exists j :: 0 <= j < |reactions| && reactions[j].reaction == current))
      && (t.Slide? ==> (t.offset == width || t.offset == -width))
      && (t.Slide? ==> (t.offset > 0.0 <==> FirstIndex(reactions, previous).value < FirstIndex(reactions, current).value))
  {
    var p := FirstIndex(reactions, previous);
    var c := FirstIndex(reactions, current);
    if p.Some? && c.Some? {
      assert p.value != c.value;
    }
  }

  /**
    The menu's contents: the reactions list, whether it has a tab bar, the
    tab being shown and the one being dismissed after a switch.
  */
  class ItemsNode {
    const reactions: seq<ReactionEntry>
    const hasTabList: bool
    var currentTabNode: ReactionsTabNode
    var dismissedTabNode: ReactionsTabNode?
    var apparentHeight: real
    /** Every tab that has been current and was switched away from. */
    ghost var retiredTabs: set<ReactionsTabNode>

    ghost predicate Valid()
      reads this, currentTabNode, currentTabNode.itemNodes.Values
    {
      && currentTabNode.Valid()
      && currentTabNode !in retiredTabs
      && (dismissedTabNode != null ==> dismissedTabNode in retiredTabs)
    }

    /** Whether requests from `tab` reach the menu's owner. */
    predicate Forwards(tab: ReactionsTabNode)
      reads this
    {
      tab == currentTabNode
    }

    /** Builds the reactions list, the tab bar when it is needed, and the "all reactions" tab. */
    constructor(attribute: Option<seq<AttributeReaction>>, initial: ListState)
      ensures var attrs := AttributeOf(attribute);
        && |reactions| == |attrs| + 1
        && reactions[0] == ReactionEntry(None, Total(attrs))
        && (forall i :: 0 <= i < |attrs| ==> reactions[i + 1] == ReactionEntry(Some(attrs[i].value), attrs[i].count))
        && (hasTabList <==> |attrs| >= 2)
      ensures fresh(currentTabNode) && currentTabNode.reaction == None && currentTabNode.state == initial
      ensures dismissedTabNode == null && retiredTabs == {}
      ensures Valid()
    {
      var list := BuildReactions(attribute);
      reactions := list;
      hasTabList := HasTabList(list);
      currentTabNode := new ReactionsTabNode(None, initial);
      dismissedTabNode := null;
      apparentHeight := 0.0;
      retiredTabs := {};
    }

    /**
      A tap on the tab for `reaction`: when it is not the current tab, the
      current one is kept for the dismiss animation, a new tab for the
      reaction becomes current and a relayout is requested; otherwise
      nothing happens.
    */
    method SelectTab(reaction: Option<Reaction>, initial: ListState) returns (requestedUpdate: bool)
      requires Valid()
      modifies this`currentTabNode, this`dismissedTabNode, this`retiredTabs
      ensures requestedUpdate <==> old(currentTabNode.reaction) != reaction
      ensures requestedUpdate ==>
        && fresh(currentTabNode) && currentTabNode.reaction == reaction
        && currentTabNode.state == initial && currentTabNode.itemNodes == map[]
        && dismissedTabNode == old(currentTabNode)
        && retiredTabs == old(retiredTabs) + {old(currentTabNode)}
        && !Forwards(old(currentTabNode)) && Forwards(currentTabNode)
      ensures !requestedUpdate ==>
        currentTabNode == old(currentTabNode) && dismissedTabNode == old(dismissedTabNode) && retiredTabs == old(retiredTabs)
      ensures Valid()
    {
      requestedUpdate := false;
      if currentTabNode.reaction != reaction {
        retiredTabs := retiredTabs + {currentTabNode};
        dismissedTabNode := currentTabNode;
        var tab := new ReactionsTabNode(reaction, initial);
        currentTabNode := tab;
        requestedUpdate := true;
      }
    }

    /**
      A tab's request for a relayout (or an apparent-height update) is passed
      on only from the current tab: a tab that has been switched away from,
      the one still animating out included, never relayouts the menu again.
    */
    method ForwardRequest(tab: ReactionsTabNode) returns (forwarded: bool)
      requires Valid()
      ensures forwarded <==> Forwards(tab)
      ensures tab in retiredTabs ==> !forwarded
      ensures tab == dismissedTabNode ==> !forwarded
    {
      forwarded := currentTabNode == tab;
    }

    /**
      Lays the menu out: at most 260 points wide, the header stacked from
      the top (back button, tab bar when present, separator), the current
      tab below it in the remaining height; a pending dismissal is consumed
      and turned into its transition. The clean size is the header plus the
      tab's container, the apparent height the header plus the tab's.
    */
    method Update(constrainedWidth: real, maxHeight: real)
      returns (cleanSize: Size, apparent: real, transition: TabTransition, loadMore: bool)
      requires Valid()
      modifies this`dismissedTabNode, this`apparentHeight, currentTabNode, currentTabNode.itemNodes.Values
      ensures Valid()
      ensures var width := if MaxMenuWidth < constrainedWidth then MaxMenuWidth else constrainedWidth;
        var top := HeaderHeight(hasTabList);
        var tab := ContainerSize(Size(width, maxHeight - top), currentTabNode.state.totalCount);
        && cleanSize == Size(width, top + tab.height)
        && apparent == top + currentTabNode.apparentHeight
        && currentTabNode.currentSize == Some(tab)
        && transition == (if old(dismissedTabNode) == null then NoTransition
                          else DismissTransition(reactions, old(dismissedTabNode).reaction, currentTabNode.reaction, width))
      ensures dismissedTabNode == null
    {
      var width := if MaxMenuWidth < constrainedWidth then MaxMenuWidth else constrainedWidth;
      var topContentHeight := 0.0;
      topContentHeight := topContentHeight + BackButtonHeight;
      if hasTabList {
        topContentHeight := topContentHeight + TabListHeight;
      }
      topContentHeight := topContentHeight + SeparatorHeight;

      var layoutApparent;
      var tabSize;
      tabSize, layoutApparent, loadMore := currentTabNode.Update(Size(width, maxHeight - topContentHeight));

      transition := NoTransition;
      if dismissedTabNode != null {
        var dismissed := dismissedTabNode;
        dismissedTabNode := null;
        var previousIndex := FirstIndex(reactions, dismissed.reaction);
        var currentIndex := FirstIndex(reactions, currentTabNode.reaction);
        if previousIndex.Some? && currentIndex.Some? {
          var offset := if previousIndex.value < currentIndex.value then tabSize.width else -tabSize.width;
          transition := Slide(offset);
        } else {
          transition := Fade;
        }
      }

      cleanSize := Size(tabSize.width, topContentHeight + tabSize.height);
      apparent := topContentHeight + layoutApparent;
    }
  }
}
