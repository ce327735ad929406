/**
 * The tabbed interface: a row of buttons, each naming the id of a panel in
 * its data-tab attribute. A click deactivates every button and panel and
 * activates the clicked button and the panel with that id.
 */
module Tabs {
  import opened Wrappers

  /** The buttons' data-tab values and the panels' ids, in page order. */
  datatype Layout = Layout(targets: seq<string>, panelIds: seq<string>)

  /** Which buttons and panels carry the `active` class. */
  datatype TabState = TabState(buttons: seq<bool>, panels: seq<bool>)

  predicate Fits(layout: Layout, st: TabState) {
    |st.buttons| == |layout.targets| && |st.panels| == |layout.panelIds|
  }

  /** document.getElementById: the first panel with that id, if any (panels are taken to be the only elements carrying these ids). */
  function FindPanel(ids: seq<string>, id: string): (r: Option<nat>)
    ensures r.None? <==> id !in ids
    ensures r.Some? ==> r.value < |ids| && ids[r.value] == id && forall j :: 0 <= j < r.value ==> ids[j] != id
  {
    if ids == [] then None
    else if ids[0] == id then Some(0)
    else
      match FindPanel(ids[1..], id)
      case None => None
      case Some(k) => Some(k + 1)
  }

  /** Result of a click: the new classes, and whether the handler threw on a missing panel. */
  datatype TabClick = TabClick(state: TabState, threw: bool)

  /**
   * The click handler of button `b`. When no panel has the button's
   * data-tab id, getElementById returns null and the handler throws after
   * the button has been activated.
   */
  function Click(layout: Layout, st: TabState, b: nat): (r: TabClick)
    requires Fits(layout, st) && b < |layout.targets|
    ensures Fits(layout, r.state)
    ensures forall j :: 0 <= j < |r.state.buttons| ==> (r.state.buttons[j] <==> j == b)
    ensures forall k :: 0 <= k < |r.state.panels| ==>
      (r.state.panels[k] <==>
        (layout.panelIds[k] == layout.targets[b] && forall j :: 0 <= j < k ==> layout.panelIds[j] != layout.targets[b]))
    ensures r.threw <==> layout.targets[b] !in layout.panelIds
  {
    var buttons := seq(|st.buttons|, j => j == b);
    var closed := seq(|st.panels|, _ => false);
    match FindPanel(layout.panelIds, layout.targets[b])
    case None => TabClick(TabState(buttons, closed), true)
    case Some(k) => TabClick(TabState(buttons, closed[k := true]), false)
  }

  /** Clicking the active tab again changes nothing. */
  lemma ClickIdempotent(layout: Layout, st: TabState, b: nat)
    requires Fits(layout, st) && b < |layout.targets|
    ensures Click(layout, Click(layout, st, b).state, b) == Click(layout, st, b)
  {
    var once := Click(layout, st, b);
    var twice := Click(layout, once.state, b);
    assert twice.state.buttons == once.state.buttons;
    assert twice.state.panels == once.state.panels;
  }

  /** With distinct panel ids and an existing target, exactly the clicked button and the panel of that id are active. */
  lemma ClickSelectsOne(layout: Layout, st: TabState, b: nat)
    requires Fits(layout, st) && b < |layout.targets|
    requires forall i, j :: 0 <= i < j < |layout.panelIds| ==> layout.panelIds[i] != layout.panelIds[j]
    requires layout.targets[b] in layout.panelIds
    ensures !Click(layout, st, b).threw
    ensures forall k :: 0 <= k < |layout.panelIds| ==>
      (Click(layout, st, b).state.panels[k] <==> layout.panelIds[k] == layout.targets[b])
  {
  }

  /** The keydown handler of a button: Enter or Space clicks it, any other key does nothing. */
  function KeyOnButton(layout: Layout, st: TabState, b: nat, key: string): (r: TabClick)
    requires Fits(layout, st) && b < |layout.targets|
    ensures key == "Enter" || key == " " ==> r == Click(layout, st, b)
    ensures key != "Enter" && key != " " ==> r == TabClick(st, false)
  {
    if key == "Enter" || key == " " then Click(layout, st, b) else TabClick(st, false)
  }
}
