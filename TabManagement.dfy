/** The tab bookkeeping of the terminal's TerminalPage: the in-order tab list,
    the most-recently-used list, the replay buffer of closed panes and tabs,
    the drag-rearrange state and the index arithmetic used for selection.

    Tabs are distinct numbers. The XAML TabView's item list is taken to mirror
    the tab list, and its selected item is the `selected` field. */
module TerminalApp {
  import opened Wrappers
  import opened Sequences

  type TabId = nat

  /** One action of a replay entry; its contents are not modelled. */
  datatype ActionAndArgs = ActionAndArgs(id: nat)
  type ClosedEntry = seq<ActionAndArgs>

  datatype NewTabPosition = AfterLastTab | AfterCurrentTab
  datatype TabSwitcherMode = MostRecentlyUsed | InOrder | Disabled
  datatype CollectionChange = Reset | ItemInserted | ItemRemoved | ItemChanged

  /** What a tab is told about its place in the row: its index and the tab count. */
  datatype TabViewIndex = TabViewIndex(index: nat, count: nat)

  const U32: nat := 0x1_0000_0000

  /** The replay buffer is pruned once it holds more than this many entries... */
  const PruneThreshold: nat := 150
  /** ...down to this many of the newest ones. */
  const PruneKeep: nat := 100

  // ---------------------------------------------------------------------
  // Pure index arithmetic and list specifications

  /** Whether the tab row is shown: never in fullscreen or focus mode;
      otherwise when tabs are in the title bar, when there is more than one
      tab, or when the user always wants tabs. */
  function TabRowVisible(isFullscreen: bool, isInFocusMode: bool,
                         showTabsInTitlebar: bool, alwaysShowTabs: bool, tabCount: nat): (r: bool)
    ensures r ==> !isFullscreen && !isInFocusMode
    ensures r ==> showTabsInTitlebar || alwaysShowTabs || tabCount >= 2
    ensures !isFullscreen && !isInFocusMode && tabCount >= 2 ==> r
    ensures !isFullscreen && !isInFocusMode && (showTabsInTitlebar || alwaysShowTabs) ==> r
  {
    (!isFullscreen && !isInFocusMode) && (showTabsInTitlebar || tabCount > 1 || alwaysShowTabs)
  }

  /** The row is hidden in fullscreen and focus mode whatever else holds; with
      neither title-bar tabs nor always-show set, it is shown exactly when
      there are several tabs; and opening a tab never hides it. */
  lemma TabRowVisibility(isFullscreen: bool, isInFocusMode: bool,
                         showTabsInTitlebar: bool, alwaysShowTabs: bool, tabCount: nat)
    ensures isFullscreen || isInFocusMode ==>
              !TabRowVisible(isFullscreen, isInFocusMode, showTabsInTitlebar, alwaysShowTabs, tabCount)
    ensures !isFullscreen && !isInFocusMode && !showTabsInTitlebar && !alwaysShowTabs ==>
              (TabRowVisible(isFullscreen, isInFocusMode, showTabsInTitlebar, alwaysShowTabs, tabCount) <==> tabCount >= 2)
    ensures TabRowVisible(isFullscreen, isInFocusMode, showTabsInTitlebar, alwaysShowTabs, tabCount) ==>
              TabRowVisible(isFullscreen, isInFocusMode, showTabsInTitlebar, alwaysShowTabs, tabCount + 1)
  {
  }

  /** The Disabled-mode wraparound of _SelectNextTab, in the source's unsigned
      32-bit arithmetic: (count + index + 1) or (count + index + 0xFFFFFFFF),
      taken modulo 2^32, then modulo count. */
  function NextTabIndex(count: nat, index: nat, moveRight: bool): (r: nat)
    requires count > 0
    ensures r < count
  {
    ((count + index + (if moveRight then 1 else U32 - 1)) % U32) % count
  }

  lemma ModInRange(a: int, n: int)
    requires 0 < n && n <= a < 2 * n
    ensures a % n == a - n
  {
    assert a == n * 1 + (a - n);
  }

  lemma ModBelow(a: int, n: int)
    requires 0 <= a < n
    ensures a % n == a
  {
  }

  lemma ModTwice(n: int)
    requires 0 < n
    ensures (2 * n) % n == 0
  {
    assert 2 * n == n * 2 + 0;
  }

  /** Within any realistic tab count (at most 2^31), the wraparound picks the
      neighbour: right of the last tab is the first, left of the first is the
      last, and otherwise one step in the requested direction. */
  lemma NextTabIndexIsNeighbour(count: nat, index: nat, moveRight: bool)
    requires 0 < count <= U32 / 2 && index < count
    ensures moveRight ==> NextTabIndex(count, index, true) == (if index == count - 1 then 0 else index + 1)
    ensures !moveRight ==> NextTabIndex(count, index, false) == (if index == 0 then count - 1 else index - 1)
  {
    if moveRight {
      var a := count + index + 1;
      if a < U32 {
        ModBelow(a, U32);
        if index == count - 1 {
          ModTwice(count);
        } else {
          ModInRange(a, count);
        }
      } else {
        assert a == U32 && index == count - 1;
      }
    } else {
      var a := count + index + (U32 - 1);
      assert U32 <= a < 2 * U32;
      ModInRange(a, U32);
      var b := count + index - 1;
      if index == 0 {
        ModBelow(b, count);
      } else {
        ModInRange(b, count);
      }
    }
  }

  /** _SelectTab's clamp of a requested index into [0, size - 1]. */
  function ClampSelectIndex(requested: nat, size: nat): (r: nat)
    requires size > 0
    ensures r < size
    ensures requested < size ==> r == requested
    ensures requested >= size ==> r == size - 1
  {
    if requested > size - 1 then size - 1 else requested
  }

  /** _TryMoveTab's clamp of a suggested (signed) target into [0, size - 1]. */
  function ClampMoveTarget(suggested: int, size: nat): (r: nat)
    requires size > 0
    ensures r < size
    ensures 0 <= suggested < size ==> r == suggested
    ensures suggested < 0 ==> r == 0
    ensures suggested >= size ==> r == size - 1
  {
    if suggested < 0 then 0 else if suggested > size - 1 then size - 1 else suggested
  }

  /** The index _RemoveTab selects after closing the focused tab at `tabIndex`
      when the switcher is not in MRU mode: clamp(tabIndex - 1, 0, remaining).
      The unsigned `tabIndex - 1` of the first tab reads as -1 and clamps to 0. */
  function NeighbourAfterRemoval(tabIndex: nat, remaining: nat): (r: nat)
    requires 0 < remaining && tabIndex <= remaining
    ensures r < remaining
    ensures r == if tabIndex == 0 then 0 else tabIndex - 1
  {
    var wanted: int := tabIndex - 1;
    if wanted < 0 then 0 else if wanted > remaining then remaining else wanted
  }

  /** The worked example in the source: with tabs [A, B, C, D], closing A
      focuses B, closing B focuses A, closing C focuses B, closing D focuses C. */
  lemma NeighbourWorkedExample(a: TabId, b: TabId, c: TabId, d: TabId)
    ensures var s := [a, b, c, d];
            && RemoveAt(s, 0)[NeighbourAfterRemoval(0, 3)] == b
            && RemoveAt(s, 1)[NeighbourAfterRemoval(1, 3)] == a
            && RemoveAt(s, 2)[NeighbourAfterRemoval(2, 3)] == b
            && RemoveAt(s, 3)[NeighbourAfterRemoval(3, 3)] == c
  {
  }

  /** Where _InitializeTab inserts a new tab: at the end, or right after the
      focused tab when new tabs go after the current one. */
  function InsertPosition(size: nat, focused: Option<nat>, position: NewTabPosition): (r: nat)
    requires focused.Some? ==> focused.value < size
    ensures r <= size
    ensures position == AfterLastTab || focused.None? ==> r == size
    ensures position == AfterCurrentTab && focused.Some? ==> r == focused.value + 1
  {
    if position == AfterCurrentTab && focused.Some? then focused.value + 1 else size
  }

  /** _UpdateMRUTab on values: a tab found at an MRU position above 0 moves to the front. */
  function MruBump(mru: seq<TabId>, t: TabId): (r: seq<TabId>)
    ensures t !in mru ==> r == mru
    ensures t in mru ==> |r| == |mru| && r[0] == t
  {
    match IndexOf(mru, t)
    case None => mru
    case Some(i) => if i > 0 then Move(mru, i, 0) else mru
  }

  /** Bumping keeps the MRU list duplicate-free and holding the same tabs;
      bumping the tab already in front changes nothing. */
  lemma MruBumpKeepsTabs(mru: seq<TabId>, t: TabId)
    requires Distinct(mru)
    ensures multiset(MruBump(mru, t)) == multiset(mru)
    ensures Distinct(MruBump(mru, t))
    ensures forall x :: x in MruBump(mru, t) <==> x in mru
    ensures |mru| > 0 ==> MruBump(mru, mru[0]) == mru
  {
    var found := IndexOf(mru, t);
    if found.Some? && found.value > 0 {
      MovePermutes(mru, found.value, 0);
    }
    forall x ensures x in MruBump(mru, t) <==> x in mru {
      MembershipIsMultiset(MruBump(mru, t), mru, x);
    }
    if |mru| > 0 {
      IndexOfUnique(mru, 0);
    }
  }

  /** Bumping leaves the other tabs of the MRU list in their relative order. */
  lemma MruBumpKeepsOrder(mru: seq<TabId>, t: TabId)
    requires t in mru
    ensures RemoveAt(MruBump(mru, t), 0) == RemoveAt(mru, IndexOf(mru, t).value)
  {
    var i := IndexOf(mru, t).value;
    if i > 0 {
      MoveKeepsOrder(mru, i, 0);
    }
  }

  /** _AddPreviouslyClosedPaneOrTab on values: prune to the newest 100 entries
      when there are more than 150, then append. */
  function RecordClosed(buffer: seq<ClosedEntry>, args: ClosedEntry): (r: seq<ClosedEntry>)
    ensures |r| <= PruneThreshold + 1
    ensures |r| > 0 && r[|r| - 1] == args
    ensures |buffer| <= PruneThreshold ==> |r| == |buffer| + 1 && r[..|buffer|] == buffer
    ensures |buffer| > PruneThreshold ==> |r| == PruneKeep + 1 && r[..PruneKeep] == buffer[|buffer| - PruneKeep..]
  {
    var kept := if |buffer| > PruneThreshold then buffer[|buffer| - PruneKeep..] else buffer;
    assert (kept + [args])[..|kept|] == kept;
    kept + [args]
  }

  /** Recording keeps every entry it does not prune in order, and the buffer
      can only grow to one past the prune threshold. */
  lemma {:induction false} RecordClosedBounded(buffer: seq<ClosedEntry>, batches: seq<ClosedEntry>)
    requires |buffer| <= PruneThreshold + 1
    ensures |RecordAll(buffer, batches)| <= PruneThreshold + 1
    ensures |batches| > 0 ==>
              |RecordAll(buffer, batches)| > 0
              && RecordAll(buffer, batches)[|RecordAll(buffer, batches)| - 1] == batches[|batches| - 1]
    decreases |batches|
  {
    if |batches| > 0 {
      RecordClosedBounded(RecordClosed(buffer, batches[0]), batches[1..]);
      if |batches| > 1 {
        assert batches[1..][|batches[1..]| - 1] == batches[|batches| - 1];
      }
    }
  }

  /** A run of closings, recorded one after another. */
  function RecordAll(buffer: seq<ClosedEntry>, batches: seq<ClosedEntry>): seq<ClosedEntry>
    decreases |batches|
  {
    if |batches| == 0 then buffer else RecordAll(RecordClosed(buffer, batches[0]), batches[1..])
  }

  /** The in-order list and the MRU list hold the same distinct tabs. */
  ghost predicate ListsAgree(tabs: seq<TabId>, mru: seq<TabId>) {
    Distinct(tabs) && Distinct(mru) && multiset(tabs) == multiset(mru)
  }

  /** Opening a fresh tab (inserted anywhere, appended to the MRU list) keeps the lists in agreement. */
  lemma InsertKeepsAgreement(tabs: seq<TabId>, mru: seq<TabId>, pos: nat, t: TabId)
    requires ListsAgree(tabs, mru) && t !in tabs && pos <= |tabs|
    ensures ListsAgree(InsertAt(tabs, pos, t), mru + [t])
  {
    InsertAtMultiset(tabs, pos, t);
    assert t !in multiset(tabs);
  }

  /** Moving a tab within the row keeps the lists in agreement. */
  lemma MoveKeepsAgreement(tabs: seq<TabId>, mru: seq<TabId>, from: nat, to: nat)
    requires ListsAgree(tabs, mru) && from < |tabs| && to < |tabs|
    ensures ListsAgree(Move(tabs, from, to), mru)
  {
    MovePermutes(tabs, from, to);
  }

  /** Bumping a tab in the MRU list keeps the lists in agreement. */
  lemma BumpKeepsAgreement(tabs: seq<TabId>, mru: seq<TabId>, t: TabId)
    requires ListsAgree(tabs, mru)
    ensures ListsAgree(tabs, MruBump(mru, t))
  {
    MruBumpKeepsTabs(mru, t);
  }

  /** Removing a tab from both lists keeps them in agreement. */
  lemma RemoveKeepsAgreement(tabs: seq<TabId>, mru: seq<TabId>, t: TabId)
    requires ListsAgree(tabs, mru) && t in tabs
    ensures t in mru
    ensures ListsAgree(RemoveAt(tabs, IndexOf(tabs, t).value), RemoveAt(mru, IndexOf(mru, t).value))
  {
    assert t in multiset(tabs);
    var i, j := IndexOf(tabs, t).value, IndexOf(mru, t).value;
    RemoveAtMultiset(tabs, i);
    RemoveAtMultiset(mru, j);
    assert multiset(RemoveAt(tabs, i)) == multiset(tabs) - multiset{t};
    assert multiset(RemoveAt(mru, j)) == multiset(mru) - multiset{t};
  }

  /** Every tab of the row is told its position and the current count. */
  ghost predicate IndicesCurrent(tabs: seq<TabId>, indices: map<TabId, TabViewIndex>) {
    forall i :: 0 <= i < |tabs| ==>
      tabs[i] in indices && indices[tabs[i]].index == i && indices[tabs[i]].count == |tabs|
  }

  /** The selection that _RemoveTab makes after closing the focused tab at
      `tabIndex`: the MRU front in MRU mode, else the left neighbour. */
  function SelectionAfterRemoval(mode: TabSwitcherMode, tabs: seq<TabId>, mru: seq<TabId>, tabIndex: nat): (r: TabId)
    requires |tabs| > 0 && |mru| > 0 && tabIndex <= |tabs|
    ensures mode == MostRecentlyUsed ==> r == mru[0]
    ensures mode != MostRecentlyUsed ==> r == tabs[if tabIndex == 0 then 0 else tabIndex - 1]
  {
    if mode == MostRecentlyUsed then mru[0] else tabs[NeighbourAfterRemoval(tabIndex, |tabs|)]
  }

  // ---------------------------------------------------------------------
  // The page's state

  class TerminalPage {
    var tabs: seq<TabId>
    var mruTabs: seq<TabId>
    var selected: Option<TabId>
    var previouslyClosedPanesAndTabs: seq<ClosedEntry>
    var rearranging: bool
    var rearrangeFrom: Option<nat>
    var rearrangeTo: Option<nat>
    var removing: bool
    var tabViewIndex: map<TabId, TabViewIndex>

    /** Both lists hold the same distinct tabs, the selection is one of them,
        and every tab knows its index. */
    ghost predicate TabsConsistent()
      reads this`tabs, this`mruTabs, this`selected, this`tabViewIndex
    {
      && ListsAgree(tabs, mruTabs)
      && (selected.Some? ==> selected.value in multiset(tabs))
      && IndicesCurrent(tabs, tabViewIndex)
    }

    /** Drag positions exist only during a drag and lie inside the row. */
    ghost predicate DragConsistent()
      reads this`rearranging, this`rearrangeFrom, this`rearrangeTo, this`tabs
    {
      && (!rearranging ==> rearrangeFrom.None? && rearrangeTo.None?)
      && (rearrangeFrom.Some? ==> rearrangeFrom.value < |tabs|)
      && (rearrangeTo.Some? ==> rearrangeTo.value < |tabs|)
    }

    /** Between events: the tabs and the drag state are consistent, no
        removal is under way, and the replay buffer stays bounded. */
    ghost predicate Valid()
      reads this
    {
      && TabsConsistent()
      && DragConsistent()
      && !removing
      && |previouslyClosedPanesAndTabs| <= PruneThreshold + 1
    }

    constructor ()
      ensures Valid()
      ensures tabs == [] && mruTabs == [] && selected.None? && previouslyClosedPanesAndTabs == []
      ensures !rearranging && !removing
    {
      tabs := [];
      mruTabs := [];
      selected := None;
      previouslyClosedPanesAndTabs := [];
      rearranging := false;
      rearrangeFrom := None;
      rearrangeTo := None;
      removing := false;
      tabViewIndex := map[];
    }

    /** _GetFocusedTabIndex: the position of the selected item, if any. */
    function FocusedTabIndex(): (r: Option<nat>)
      reads this`tabs, this`selected
      requires selected.Some? ==> selected.value in multiset(tabs)
      ensures r.Some? <==> selected.Some?
      ensures r.Some? ==> r.value < |tabs| && tabs[r.value] == selected.value
    {
      if selected.None? then None else IndexOf(tabs, selected.value)
    }

    /** _HasMultipleTabs. */
    function HasMultipleTabs(): (r: bool)
      reads this
      ensures r <==> TabRowVisible(false, false, false, false, |tabs|)
    {
      |tabs| > 1
    }

    /** _UpdateTabIndices: tell each tab its position and the tab count. */
    method UpdateTabIndices()
      requires Distinct(tabs)
      modifies this`tabViewIndex
      ensures IndicesCurrent(tabs, tabViewIndex)
    {
      DistinctIsNoDups(tabs);
      var size := |tabs|;
      for i := 0 to size
        invariant forall j :: 0 <= j < i ==>
                    tabs[j] in tabViewIndex && tabViewIndex[tabs[j]].index == j && tabViewIndex[tabs[j]].count == size
      {
        tabViewIndex := tabViewIndex[tabs[i] := TabViewIndex(i, size)];
      }
    }

    /** _UpdateMRUTab: bump the tab to the front of the MRU list. */
    method UpdateMRUTab(t: TabId)
      modifies this`mruTabs
      ensures mruTabs == MruBump(old(mruTabs), t)
      ensures ListsAgree(tabs, old(mruTabs)) ==> ListsAgree(tabs, mruTabs)
    {
      if ListsAgree(tabs, mruTabs) {
        BumpKeepsAgreement(tabs, mruTabs, t);
      }
      var mruIndex := IndexOf(mruTabs, t);
      if mruIndex.Some? {
        if mruIndex.value > 0 {
          mruTabs := RemoveAt(mruTabs, mruIndex.value);
          mruTabs := InsertAt(mruTabs, 0, t);
        }
      }
    }

    /** The list part of _UpdatedSelectedTab: the new tab is bumped in the MRU
        list unless the tab switcher is open. */
    method UpdatedSelectedTab(t: TabId, paletteVisible: bool)
      modifies this`mruTabs
      ensures mruTabs == if paletteVisible then old(mruTabs) else MruBump(old(mruTabs), t)
      ensures ListsAgree(tabs, old(mruTabs)) ==> ListsAgree(tabs, mruTabs)
    {
      if !paletteVisible {
        UpdateMRUTab(t);
      }
    }

    /** The list part of _InitializeTab for a freshly made tab. */
    method InitializeTab(t: TabId, position: NewTabPosition)
      requires Valid() && t !in tabs
      modifies this`tabs, this`mruTabs, this`tabViewIndex, this`selected
      ensures Valid()
      ensures tabs == InsertAt(old(tabs), InsertPosition(|old(tabs)|, old(FocusedTabIndex()), position), t)
      ensures mruTabs == old(mruTabs) + [t]
      ensures selected == Some(t)
    {
      var insertPosition := |tabs|;
      if position == AfterCurrentTab {
        var currentTabIndex := FocusedTabIndex();
        if currentTabIndex.Some? {
          insertPosition := currentTabIndex.value + 1;
        }
      }
      InsertNewTab(t, insertPosition);
    }

    /** The list part of _InitializeTab once the position is known: insert
        the tab there, append it to the MRU list, renumber, and select it. */
    method InsertNewTab(t: TabId, insertPosition: nat)
      requires Valid() && t !in tabs && insertPosition <= |tabs|
      modifies this`tabs, this`mruTabs, this`tabViewIndex, this`selected
      ensures Valid()
      ensures tabs == InsertAt(old(tabs), insertPosition, t)
      ensures mruTabs == old(mruTabs) + [t]
      ensures selected == Some(t)
    {
      InsertKeepsAgreement(tabs, mruTabs, insertPosition, t);
      tabs := InsertAt(tabs, insertPosition, t);
      mruTabs := mruTabs + [t];
      UpdateTabIndices();
      selected := Some(t);
    }

    /** The first half of _RemoveTab: drop the tab at `tabIndex` from both
        lists and renumber; the TabView drops its selection with the item. */
    method DropTab(t: TabId, tabIndex: nat)
      requires TabsConsistent() && t in tabs && IndexOf(tabs, t) == Some(tabIndex)
      modifies this`tabs, this`mruTabs, this`tabViewIndex, this`selected
      ensures TabsConsistent()
      ensures t in old(mruTabs)
      ensures tabs == RemoveAt(old(tabs), tabIndex)
      ensures mruTabs == RemoveAt(old(mruTabs), IndexOf(old(mruTabs), t).value)
      ensures selected == if old(selected) == Some(t) then None else old(selected)
    {
      RemoveKeepsAgreement(tabs, mruTabs, t);
      RemoveAtMultiset(tabs, tabIndex);
      var mruIndex := IndexOf(mruTabs, t);
      mruTabs := RemoveAt(mruTabs, mruIndex.value);
      tabs := RemoveAt(tabs, tabIndex);
      if selected == Some(t) {
        selected := None;
      }
      UpdateTabIndices();
    }

    /** The second half of _RemoveTab when the closed tab had the focus: select
        the MRU front or the left neighbour of the closed position. */
    method SelectAfterRemoval(tabIndex: nat, mode: TabSwitcherMode, paletteVisible: bool)
      requires TabsConsistent() && |tabs| > 0 && tabIndex <= |tabs|
      modifies this`selected, this`mruTabs
      ensures TabsConsistent()
      ensures var next := SelectionAfterRemoval(mode, old(tabs), old(mruTabs), tabIndex);
              selected == Some(next) && mruTabs == if paletteVisible then old(mruTabs) else MruBump(old(mruTabs), next)
    {
      assert |mruTabs| > 0 by {
        assert tabs[0] in multiset(mruTabs);
      }
      var next: TabId;
      if mode == MostRecentlyUsed {
        next := mruTabs[0];
        assert next in multiset(tabs);
      } else {
        next := tabs[NeighbourAfterRemoval(tabIndex, |tabs|)];
      }
      UpdatedSelectedTab(next, paletteVisible);
      selected := Some(next);
    }

    /** _RemoveTab once the tab is found at `tabIndex`: drop it and move the
        focus if it had it. */
    method RemoveFoundTab(t: TabId, tabIndex: nat, mode: TabSwitcherMode, paletteVisible: bool) returns (lastTabClosed: bool)
      requires TabsConsistent() && t in tabs && IndexOf(tabs, t) == Some(tabIndex)
      modifies this`tabs, this`mruTabs, this`tabViewIndex, this`selected
      ensures TabsConsistent()
      ensures t in old(mruTabs)
      ensures tabs == RemoveAt(old(tabs), tabIndex) && lastTabClosed == (tabs == [])
      ensures var mru := RemoveAt(old(mruTabs), IndexOf(old(mruTabs), t).value);
              if tabs != [] && old(selected) == Some(t) then
                var next := SelectionAfterRemoval(mode, tabs, mru, tabIndex);
                selected == Some(next) && mruTabs == (if paletteVisible then mru else MruBump(mru, next))
              else
                selected == (if old(selected) == Some(t) then None else old(selected)) && mruTabs == mru
    {
      var focusedTabIndex := FocusedTabIndex();
      var wasFocused := focusedTabIndex == Some(tabIndex);
      assert wasFocused <==> selected == Some(t);

      DropTab(t, tabIndex);

      lastTabClosed := |tabs| == 0;
      if !lastTabClosed && wasFocused {
        SelectAfterRemoval(tabIndex, mode, paletteVisible);
      }
    }

    /** The list and selection part of _RemoveTab. */
    method RemoveTab(t: TabId, mode: TabSwitcherMode, paletteVisible: bool) returns (lastTabClosed: bool)
      requires Valid()
      modifies this`tabs, this`mruTabs, this`tabViewIndex, this`selected, this`removing,
               this`rearranging, this`rearrangeFrom, this`rearrangeTo
      ensures Valid()
      ensures t !in old(tabs) ==>
                && tabs == old(tabs) && mruTabs == old(mruTabs) && selected == old(selected)
                && tabViewIndex == old(tabViewIndex) && rearranging == old(rearranging)
                && rearrangeFrom == old(rearrangeFrom) && rearrangeTo == old(rearrangeTo)
                && !lastTabClosed
      ensures t in old(tabs) ==> t in old(mruTabs)
      ensures t in old(tabs) ==>
                && tabs == RemoveAt(old(tabs), IndexOf(old(tabs), t).value)
                && lastTabClosed == (tabs == [])
                && !rearranging && rearrangeFrom.None? && rearrangeTo.None?
      ensures t in old(tabs) ==>
                var mru := RemoveAt(old(mruTabs), IndexOf(old(mruTabs), t).value);
                if tabs != [] && old(selected) == Some(t) then
                  var next := SelectionAfterRemoval(mode, tabs, mru, IndexOf(old(tabs), t).value);
                  selected == Some(next) && mruTabs == (if paletteVisible then mru else MruBump(mru, next))
                else
                  selected == (if old(selected) == Some(t) then None else old(selected)) && mruTabs == mru
    {
      var found := IndexOf(tabs, t);
      if found.None? {
        return false;
      }
      removing := true;
      lastTabClosed := RemoveFoundTab(t, found.value, mode, paletteVisible);
      if rearranging {
        rearranging, rearrangeFrom, rearrangeTo := false, None, None;
      }
      removing := false;
    }

    /** _SelectTab: select the tab at the clamped index (always succeeds). During
        startup the selection also takes effect at once, bumping the MRU list. */
    method SelectTab(tabIndex: nat, inStartup: bool, paletteVisible: bool) returns (ok: bool)
      requires Valid() && |tabs| > 0
      modifies this`selected, this`mruTabs
      ensures Valid() && ok
      ensures selected == Some(tabs[ClampSelectIndex(tabIndex, |tabs|)])
      ensures mruTabs == if inStartup && !paletteVisible then MruBump(old(mruTabs), selected.value) else old(mruTabs)
    {
      var index := tabIndex;
      if index > |tabs| - 1 {
        index := |tabs| - 1;
      }
      var t := tabs[index];
      selected := Some(t);
      if inStartup {
        UpdatedSelectedTab(t, paletteVisible);
      }
      return true;
    }

    /** _SelectNextTab in Disabled mode (the other modes open the tab switcher
        and change none of this state). */
    method SelectNextTab(moveRight: bool, mode: TabSwitcherMode, inStartup: bool, paletteVisible: bool)
      requires Valid()
      requires mode == Disabled ==> |tabs| > 0
      modifies this`selected, this`mruTabs
      ensures Valid()
      ensures mode != Disabled ==> selected == old(selected) && mruTabs == old(mruTabs)
      ensures mode == Disabled ==>
                selected == Some(tabs[NextTabIndex(|tabs|, old(FocusedTabIndex()).GetOr(0), moveRight)])
      ensures mode == Disabled ==>
                mruTabs == if inStartup && !paletteVisible then MruBump(old(mruTabs), selected.value) else old(mruTabs)
    {
      var index := FocusedTabIndex().GetOr(0);
      if mode == Disabled {
        var newTabIndex := NextTabIndex(|tabs|, index, moveRight);
        var _ := SelectTab(newTabIndex, inStartup, paletteVisible);
      }
    }

    /** The step _TryMoveTab and _TabDragCompleted share: take the tab out of
        the row at `from`, put it back in at `to`, and renumber the tabs. */
    method MoveTabInRow(from: nat, to: nat)
      requires Valid() && from < |tabs| && to < |tabs|
      modifies this`tabs, this`tabViewIndex
      ensures Valid()
      ensures tabs == Move(old(tabs), from, to)
    {
      MoveKeepsAgreement(tabs, mruTabs, from, to);
      tabs := Move(tabs, from, to);
      UpdateTabIndices();
    }

    /** _TryMoveTab: move the tab at `currentTabIndex` to the clamped target. */
    method TryMoveTab(currentTabIndex: nat, suggestedNewTabIndex: int)
      requires Valid() && currentTabIndex < |tabs|
      modifies this`tabs, this`tabViewIndex, this`selected
      ensures Valid()
      ensures var to := ClampMoveTarget(suggestedNewTabIndex, |old(tabs)|);
              if to != currentTabIndex then
                tabs == Move(old(tabs), currentTabIndex, to) && selected == Some(old(tabs)[currentTabIndex])
              else
                tabs == old(tabs) && selected == old(selected) && tabViewIndex == old(tabViewIndex)
    {
      var newTabIndex := ClampMoveTarget(suggestedNewTabIndex, |tabs|);
      if currentTabIndex != newTabIndex {
        var t := tabs[currentTabIndex];
        MoveTabInRow(currentTabIndex, newTabIndex);
        selected := Some(t);
      }
    }

    /** _TabDragStarted. */
    method TabDragStarted()
      requires Valid()
      modifies this`rearranging, this`rearrangeFrom, this`rearrangeTo
      ensures Valid()
      ensures rearranging && rearrangeFrom.None? && rearrangeTo.None?
    {
      rearranging := true;
      rearrangeFrom := None;
      rearrangeTo := None;
    }

    /** The rearrange part of _OnTabItemsChanged: during a drag, a removal
        records the source position and an insertion the target position. */
    method OnTabItemsChanged(change: CollectionChange, index: nat)
      requires Valid()
      requires rearranging ==> index < |tabs|
      modifies this`rearrangeFrom, this`rearrangeTo
      ensures Valid()
      ensures rearrangeFrom == if rearranging && change == ItemRemoved then Some(index) else old(rearrangeFrom)
      ensures rearrangeTo == if rearranging && change == ItemInserted then Some(index) else old(rearrangeTo)
    {
      if rearranging {
        if change == ItemRemoved {
          rearrangeFrom := Some(index);
        }
        if change == ItemInserted {
          rearrangeTo := Some(index);
        }
      }
    }

    /** _TabDragCompleted: apply the recorded move, if both ends are known and
        differ, and always leave the drag state cleared. */
    method TabDragCompleted()
      requires Valid()
      modifies this`tabs, this`tabViewIndex, this`rearranging, this`rearrangeFrom, this`rearrangeTo
      ensures Valid()
      ensures !rearranging && rearrangeFrom.None? && rearrangeTo.None?
      ensures if old(rearrangeFrom).Some? && old(rearrangeTo).Some? && old(rearrangeFrom) != old(rearrangeTo)
              then tabs == Move(old(tabs), old(rearrangeFrom).value, old(rearrangeTo).value)
              else tabs == old(tabs)
    {
      if rearrangeFrom.Some? && rearrangeTo.Some? && rearrangeTo != rearrangeFrom {
        MoveTabInRow(rearrangeFrom.value, rearrangeTo.value);
      }
      rearranging := false;
      rearrangeFrom := None;
      rearrangeTo := None;
    }

    /** _AddPreviouslyClosedPaneOrTab. */
    method AddPreviouslyClosedPaneOrTab(args: ClosedEntry)
      requires Valid()
      modifies this`previouslyClosedPanesAndTabs
      ensures Valid()
      ensures previouslyClosedPanesAndTabs == RecordClosed(old(previouslyClosedPanesAndTabs), args)
    {
      var size := |previouslyClosedPanesAndTabs|;
      if size > PruneThreshold {
        previouslyClosedPanesAndTabs := previouslyClosedPanesAndTabs[size - PruneKeep..];
      }
      previouslyClosedPanesAndTabs := previouslyClosedPanesAndTabs + [args];
    }

    /** The bounds check of _CloseTabAtIndex: the tab whose close is requested,
        or None when the index is past the end. */
    method CloseTabAtIndex(index: nat) returns (request: Option<TabId>)
      requires Valid()
      ensures request.Some? <==> index < |tabs|
      ensures request.Some? ==> request.value == tabs[index]
    {
      if index >= |tabs| {
        return None;
      }
      return Some(tabs[index]);
    }
  }
}
