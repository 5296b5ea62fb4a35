/** The tab widget of site.js (`initTabs`, `activateTab`): buttons with a
    `data-tab` name, panels found by the id `tab-<name>`, and the keyboard
    handling of the tab list. */
module Tabs {
  import opened Wrappers
  import opened KeyEvents

  // ---------------------------------------------------------------------------
  // Keyboard

  /** What a key press on the button at some position asks for: focus and
      activate another button, activate this one, or nothing. */
  datatype KeyAction = MoveTo(index: nat) | ActivateCurrent | Ignore

  /** The keydown listener's choice for the button at `index` of `count`. */
  function KeyDownAction(key: Key, index: nat, count: nat): (r: KeyAction)
    requires index < count
    ensures r.MoveTo? ==> r.index < count
    ensures r == ActivateCurrent <==> key == Enter || key == Space
    ensures r == Ignore <==> key == Escape || key == Other
  {
    match key
    case ArrowRight => MoveTo((index + 1) % count)
    case ArrowLeft => MoveTo((index - 1 + count) % count)
    case Home => MoveTo(0)
    case End => MoveTo(count - 1)
    case Enter => ActivateCurrent
    case Space => ActivateCurrent
    case Escape => Ignore
    case Other => Ignore
  }

  /** The arrows step to the neighbouring button and wrap around at both
      ends; Home and End go to the first and the last button. */
  lemma ArrowsStepAndWrap(index: nat, count: nat)
    requires index < count
    ensures KeyDownAction(ArrowRight, index, count) == MoveTo(if index + 1 == count then 0 else index + 1)
    ensures KeyDownAction(ArrowLeft, index, count) == MoveTo(if index == 0 then count - 1 else index - 1)
    ensures KeyDownAction(Home, index, count) == MoveTo(0)
    ensures KeyDownAction(End, index, count) == MoveTo(count - 1)
  {
    if index + 1 < count {
      ModBelow(index + 1, count);
    } else {
      ModWrap(index + 1, count);
    }
    if index == 0 {
      ModBelow(count - 1, count);
    } else {
      ModWrap(index - 1 + count, count);
    }
  }

  lemma ModBelow(x: int, n: int)
    requires 0 <= x < n
    ensures x % n == x
  {
  }

  lemma ModWrap(x: int, n: int)
    requires 0 < n <= x < 2 * n
    ensures x % n == x - n
  {
  }

  /** ArrowLeft undoes ArrowRight and ArrowRight undoes ArrowLeft. */
  lemma ArrowsInverse(index: nat, count: nat)
    requires index < count
    ensures KeyDownAction(ArrowLeft, KeyDownAction(ArrowRight, index, count).index, count) == MoveTo(index)
    ensures KeyDownAction(ArrowRight, KeyDownAction(ArrowLeft, index, count).index, count) == MoveTo(index)
  {
    ArrowsStepAndWrap(index, count);
    var r := KeyDownAction(ArrowRight, index, count).index;
    var l := KeyDownAction(ArrowLeft, index, count).index;
    ArrowsStepAndWrap(r, count);
    ArrowsStepAndWrap(l, count);
  }

  // ---------------------------------------------------------------------------
  // Ids

  /** The id a button's panel carries, `'tab-' + data-tab`. */
  function PanelId(tab: string): string {
    "tab-" + tab
  }

  /** The id set-up gives a button, `'tab-btn-' + data-tab`. */
  function ButtonId(tab: string): string {
    "tab-btn-" + tab
  }

  /** Distinct tabs get distinct panel ids and distinct button ids. */
  lemma IdsInjective(a: string, b: string)
    ensures PanelId(a) == PanelId(b) ==> a == b
    ensures ButtonId(a) == ButtonId(b) ==> a == b
  {
    assert PanelId(a)[4..] == a && PanelId(b)[4..] == b;
    assert ButtonId(a)[8..] == a && ButtonId(b)[8..] == b;
  }

  /** The `aria-labelledby` set-up gives a panel: its id with a leading
      `tab-` removed, under `tab-btn-`, and none for a panel without an id. */
  function LabelledBy(panelId: string): (r: Option<string>)
    ensures r.None? <==> panelId == ""
  {
    if panelId == "" then None
    else if |panelId| >= 4 && panelId[..4] == "tab-" then Some(ButtonId(panelId[4..]))
    else Some(ButtonId(panelId))
  }

  /** The panel a button controls is labelled by that button: the two ARIA
      references point at each other. */
  lemma LabelledByControllingButton(tab: string)
    ensures LabelledBy(PanelId(tab)) == Some(ButtonId(tab))
  {
    assert PanelId(tab)[..4] == "tab-";
    assert PanelId(tab)[4..] == tab;
  }

  /** `document.getElementById(id)` among the panels: the first panel, in
      page order, carrying the id. */
  function FindPanel(panelIds: seq<string>, id: string): (r: Option<nat>)
    ensures r.Some? ==> r.value < |panelIds| && panelIds[r.value] == id
                        && forall j :: 0 <= j < r.value ==> panelIds[j] != id
    ensures r.None? ==> id !in panelIds
  {
    if panelIds == [] then None
    else if panelIds[0] == id then Some(0)
    else match FindPanel(panelIds[1..], id)
      case None => None
      case Some(j) => Some(j + 1)
  }

  // ---------------------------------------------------------------------------
  // The widget

  /** A button's `active` class, `aria-selected` and `tabindex`. */
  datatype ButtonState = ButtonState(active: bool, ariaSelected: bool, tabIndex: int)

  /** A panel's `active` class and `hidden` attribute. */
  datatype PanelState = PanelState(active: bool, hidden: bool)

  const Selected := ButtonState(true, true, 0)
  const Deselected := ButtonState(false, false, -1)
  const Shown := PanelState(true, false)
  const Concealed := PanelState(false, true)

  /** The buttons of `.tabs-nav` and the panels of `.tabs-content`, in page
      order, with the `data-tab` of each button and the id of each panel. */
  class TabSet {
    const dataTab: seq<string>
    const panelIds: seq<string>
    const buttons: array<ButtonState>
    const panels: array<PanelState>

    predicate Valid()
      reads this
    {
      buttons.Length == |dataTab| && panels.Length == |panelIds|
    }

    /** Set-up with both lists non-empty, so that the listeners are installed. */
    predicate Installed()
      reads this
    {
      Valid() && buttons.Length > 0 && panels.Length > 0
    }

    /** Every button's ARIA state follows its class and every panel is hidden
        unless active. */
    predicate Consistent()
      reads this, buttons, panels
    {
      && (forall i :: 0 <= i < buttons.Length ==> buttons[i] == (if buttons[i].active then Selected else Deselected))
      && (forall j :: 0 <= j < panels.Length ==> panels[j] == (if panels[j].active then Shown else Concealed))
    }

    /** `initTabs` on the page as loaded. With a list empty nothing changes;
        otherwise each button's ARIA state is set from its class and each
        panel without the class is hidden. */
    constructor (dataTab: seq<string>, panelIds: seq<string>, buttonsLoaded: seq<ButtonState>, panelsLoaded: seq<PanelState>)
      requires |buttonsLoaded| == |dataTab| && |panelsLoaded| == |panelIds|
      ensures Valid() && this.dataTab == dataTab && this.panelIds == panelIds
      ensures fresh(buttons) && fresh(panels)
      ensures dataTab == [] || panelIds == [] ==> buttons[..] == buttonsLoaded && panels[..] == panelsLoaded
      ensures dataTab != [] && panelIds != [] ==>
                && (forall i :: 0 <= i < buttons.Length ==>
                      buttons[i] == (if buttonsLoaded[i].active then Selected else Deselected))
                && (forall j :: 0 <= j < panels.Length ==>
                      panels[j] == (if panelsLoaded[j].active then panelsLoaded[j] else Concealed))
    {
      this.dataTab := dataTab;
      this.panelIds := panelIds;
      if dataTab == [] || panelIds == [] {
        buttons := new ButtonState[|buttonsLoaded|](i requires 0 <= i < |buttonsLoaded| => buttonsLoaded[i]);
        panels := new PanelState[|panelsLoaded|](j requires 0 <= j < |panelsLoaded| => panelsLoaded[j]);
      } else {
        buttons := new ButtonState[|buttonsLoaded|](i requires 0 <= i < |buttonsLoaded| =>
          if buttonsLoaded[i].active then Selected else Deselected);
        panels := new PanelState[|panelsLoaded|](j requires 0 <= j < |panelsLoaded| =>
          if panelsLoaded[j].active then panelsLoaded[j] else Concealed);
      }
    }

    /** The panel the button at `i` controls, if the page has it. */
    function TargetOf(i: nat): Option<nat>
      requires Valid() && i < buttons.Length
      reads this
    {
      FindPanel(panelIds, PanelId(dataTab[i]))
    }

    /** `activateTab`: every button and panel is deselected, then the button
        and its panel are selected if the panel exists. */
    method ActivateTab(next: nat)
      requires Valid() && next < buttons.Length
      modifies buttons, panels
      ensures Consistent()
      ensures forall i :: 0 <= i < buttons.Length ==>
                buttons[i] == (if i == next && TargetOf(next).Some? then Selected else Deselected)
      ensures forall j :: 0 <= j < panels.Length ==>
                panels[j] == (if TargetOf(next) == Some(j) then Shown else Concealed)
    {
      var i := 0;
      while i < buttons.Length
        invariant 0 <= i <= buttons.Length
        invariant forall k :: 0 <= k < i ==> buttons[k] == Deselected
      {
        buttons[i] := Deselected;
        i := i + 1;
      }
      var j := 0;
      while j < panels.Length
        invariant 0 <= j <= panels.Length
        invariant forall k :: 0 <= k < j ==> panels[k] == Concealed
        invariant forall k :: 0 <= k < buttons.Length ==> buttons[k] == Deselected
      {
        panels[j] := Concealed;
        j := j + 1;
      }
      var target := FindPanel(panelIds, PanelId(dataTab[next]));
      if target.None? {
        return;
      }
      buttons[next] := Selected;
      panels[target.value] := Shown;
    }

    /** A click on the button at `i`. */
    method Click(i: nat)
      requires Installed() && i < buttons.Length
      modifies buttons, panels
      ensures Consistent()
      ensures forall k :: 0 <= k < buttons.Length ==>
                buttons[k] == (if k == i && TargetOf(i).Some? then Selected else Deselected)
      ensures forall j :: 0 <= j < panels.Length ==>
                panels[j] == (if TargetOf(i) == Some(j) then Shown else Concealed)
    {
      ActivateTab(i);
    }

    /** A key press on the button at `index`: the button that receives focus,
        if any, and whether the browser's default action is prevented. */
    method KeyDown(index: nat, key: Key) returns (focused: Option<nat>, prevented: bool)
      requires Installed() && index < buttons.Length
      modifies buttons, panels
      ensures var action := KeyDownAction(key, index, buttons.Length);
              && (focused.Some? <==> action.MoveTo?)
              && (prevented <==> action.MoveTo?)
              && (action.MoveTo? ==> focused == Some(action.index))
      ensures var action := KeyDownAction(key, index, buttons.Length);
              action == Ignore ==> buttons[..] == old(buttons[..]) && panels[..] == old(panels[..])
      ensures var action := KeyDownAction(key, index, buttons.Length);
              action != Ignore ==>
                var chosen := if action.MoveTo? then action.index else index;
                && Consistent()
                && (forall k :: 0 <= k < buttons.Length ==>
                      buttons[k] == (if k == chosen && TargetOf(chosen).Some? then Selected else Deselected))
                && (forall j :: 0 <= j < panels.Length ==>
                      panels[j] == (if TargetOf(chosen) == Some(j) then Shown else Concealed))
    {
      var action := KeyDownAction(key, index, buttons.Length);
      match action
      case MoveTo(next) =>
        focused, prevented := Some(next), true;
        ActivateTab(next);
      case ActivateCurrent =>
        focused, prevented := None, false;
        ActivateTab(index);
      case Ignore =>
        focused, prevented := None, false;
    }
  }

  /** After an activation at most one button and at most one panel are
      selected, and a selected button's panel is the shown one. */
  lemma ActivationSelectsOne(dataTab: seq<string>, panelIds: seq<string>, next: nat,
                             buttons: seq<ButtonState>, panels: seq<PanelState>)
    requires next < |dataTab| && |buttons| == |dataTab| && |panels| == |panelIds|
    requires forall i :: 0 <= i < |buttons| ==>
               buttons[i] == (if i == next && FindPanel(panelIds, PanelId(dataTab[next])).Some? then Selected else Deselected)
    requires forall j :: 0 <= j < |panels| ==>
               panels[j] == (if FindPanel(panelIds, PanelId(dataTab[next])) == Some(j) then Shown else Concealed)
    ensures forall a, b :: 0 <= a < b < |buttons| ==> !(buttons[a].active && buttons[b].active)
    ensures forall a, b :: 0 <= a < b < |panels| ==> !(panels[a].active && panels[b].active)
    ensures forall i, j :: 0 <= i < |buttons| && 0 <= j < |panels| && buttons[i].active && panels[j].active ==>
              panelIds[j] == PanelId(dataTab[i])
    ensures (exists i :: 0 <= i < |buttons| && buttons[i].active) <==> PanelId(dataTab[next]) in panelIds
  {
    var t := FindPanel(panelIds, PanelId(dataTab[next]));
    if t.Some? {
      assert buttons[next].active;
    }
  }
}
