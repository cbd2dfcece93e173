/** Selection and scroll bookkeeping of ssh-config/src/list_utils.rs. The
    ratatui `ListState` the manager wraps is reduced to the one thing the
    manager sets on it: the selected row. `usize` is modelled as `nat`. */
module ListUtils {
  import opened Common

  datatype ListStateManager = ListStateManager(
    scrollOffset: nat,
    selectedIndex: nat,
    maxDisplayItems: Option<nat>,
    widgetSelection: Option<nat>)

  /** `max_display_items.unwrap_or(0)`: an unset height counts as no rows. */
  function Height(m: ListStateManager): nat {
    match m.maxDisplayItems
    case Some(h) => h
    case None => 0
  }

  /** The scroll offset is no further down than the last full page allows,
      the bound `select` clamps to. */
  predicate ScrollInBounds(m: ListStateManager, totalItems: nat) {
    m.scrollOffset <= SaturatingSub(totalItems, Height(m))
  }

  /** `new`: at the top, first index, no height known, nothing selected in the
      widget; in bounds for every item count. */
  function New(): (r: ListStateManager)
    ensures r.scrollOffset == 0 && r.selectedIndex == 0
    ensures r.maxDisplayItems == None && r.widgetSelection == None
    ensures forall n: nat :: ScrollInBounds(r, n)
  {
    ListStateManager(0, 0, None, None)
  }

  /** `select`: records the index unclamped, then moves the window so that it
      contains the index, and finally clamps the window to the item count. */
  function Select(m: ListStateManager, index: nat, totalItems: nat): (r: ListStateManager)
    ensures r.selectedIndex == index && r.widgetSelection == Some(index)
    ensures r.maxDisplayItems == m.maxDisplayItems
    ensures ScrollInBounds(r, totalItems)
    ensures index < totalItems && Height(m) > 0 ==>
              r.scrollOffset <= index < r.scrollOffset + Height(m)
  {
    var h := Height(m);
    var adjusted: nat :=
      if index < m.scrollOffset then index
      // the guard gives index >= h, so `index + 1 - h` cannot underflow
      else if index >= m.scrollOffset + h then index + 1 - h
      else m.scrollOffset;
    m.(scrollOffset := Min(adjusted, SaturatingSub(totalItems, h)),
       selectedIndex := index,
       widgetSelection := Some(index))
  }

  /** `get_index`. */
  function GetIndex(m: ListStateManager): nat {
    m.selectedIndex
  }

  /** `set_scroll_offset`: stores the offset as given, without clamping. */
  function SetScrollOffset(m: ListStateManager, offset: nat): (r: ListStateManager)
    ensures r.scrollOffset == offset
    ensures r.selectedIndex == m.selectedIndex && r.maxDisplayItems == m.maxDisplayItems
    ensures r.widgetSelection == m.widgetSelection
  {
    m.(scrollOffset := offset)
  }

  /** `clear_selection`: only the widget forgets its selection. */
  function ClearSelection(m: ListStateManager): (r: ListStateManager)
    ensures r.widgetSelection == None
    ensures r.selectedIndex == m.selectedIndex && r.scrollOffset == m.scrollOffset
    ensures r.maxDisplayItems == m.maxDisplayItems
  {
    m.(widgetSelection := None)
  }

  /** `scroll_up`: one row up, stopping at the top. */
  function ScrollUp(m: ListStateManager): (r: ListStateManager)
    ensures r == m.(scrollOffset := r.scrollOffset)
    ensures m.scrollOffset > 0 ==> r.scrollOffset + 1 == m.scrollOffset
    ensures m.scrollOffset == 0 ==> r == m
  {
    if m.scrollOffset > 0 then m.(scrollOffset := m.scrollOffset - 1) else m
  }

  /** `scroll_down`: one row down while the window's last row is above the last item. */
  function ScrollDown(m: ListStateManager, totalItems: nat): (r: ListStateManager)
    ensures r == m.(scrollOffset := r.scrollOffset)
    ensures m.scrollOffset + Height(m) < totalItems ==> r.scrollOffset == m.scrollOffset + 1
    ensures m.scrollOffset + Height(m) >= totalItems ==> r == m
  {
    if m.scrollOffset + Height(m) < totalItems then m.(scrollOffset := m.scrollOffset + 1) else m
  }

  /** After `select(i, n)`, `get_index` reports `i` and the widget selects `i`,
      whatever `n` is. */
  lemma SelectThenGetIndex(m: ListStateManager, index: nat, totalItems: nat)
    ensures GetIndex(Select(m, index, totalItems)) == index
    ensures Select(m, index, totalItems).widgetSelection == Some(index)
  {
  }

  /** An unset height and a height of 0 give the same `select` and `scroll_down`. */
  lemma UnsetHeightIsZero(m: ListStateManager, index: nat, totalItems: nat)
    requires m.maxDisplayItems == None
    ensures var z := m.(maxDisplayItems := Some(0));
      && Select(m, index, totalItems) == Select(z, index, totalItems).(maxDisplayItems := None)
      && ScrollDown(m, totalItems) == ScrollDown(z, totalItems).(maxDisplayItems := None)
  {
  }

  /** With a display height, selecting the same index twice is the same as
      selecting it once. */
  lemma SelectIdempotent(m: ListStateManager, index: nat, totalItems: nat)
    requires Height(m) > 0 || index >= totalItems
    ensures Select(Select(m, index, totalItems), index, totalItems) == Select(m, index, totalItems)
  {
  }

  /** Without a display height the window is empty, and selecting the same
      in-range index again moves the offset between `index` and `index + 1`. */
  lemma SelectWithoutHeightAlternates(m: ListStateManager, index: nat, totalItems: nat)
    requires Height(m) == 0 && index < totalItems
    ensures var once := Select(m, index, totalItems);
            var twice := Select(once, index, totalItems);
            && (once.scrollOffset == index ==> twice.scrollOffset == index + 1)
            && (once.scrollOffset == index + 1 ==> twice.scrollOffset == index)
            && (once.scrollOffset == index || once.scrollOffset == index + 1)
  {
  }

  /** Scrolling down keeps the window within bounds. */
  lemma ScrollDownInBounds(m: ListStateManager, totalItems: nat)
    requires ScrollInBounds(m, totalItems)
    ensures ScrollInBounds(ScrollDown(m, totalItems), totalItems)
  {
  }

  /** Scrolling down and back up returns to the start when the window moved. */
  lemma ScrollDownThenUp(m: ListStateManager, totalItems: nat)
    requires m.scrollOffset + Height(m) < totalItems
    ensures ScrollUp(ScrollDown(m, totalItems)) == m
  {
  }

  /** Within bounds, scrolling up and back down returns to the start when the window moved. */
  lemma ScrollUpThenDown(m: ListStateManager, totalItems: nat)
    requires ScrollInBounds(m, totalItems) && m.scrollOffset > 0
    ensures ScrollDown(ScrollUp(m), totalItems) == m
  {
  }
}
