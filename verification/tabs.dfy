/**
 * `switchToTerminalTab`: before injecting, click the parent UI's tab
 * labelled `Terminal` or `Bastion`. The result is the index of the tab
 * whose link gets clicked, or `None` when nothing is clicked.
 */
module Tabs {
  import opened Wrappers
  import opened Text
  import opened Dom

  const TerminalLabel: string := "Terminal"
  const BastionLabel: string := "Bastion"

  predicate IsTerminalLabel(text: string) {
    var t := Trim(text);
    t == TerminalLabel || t == BastionLabel
  }

  /** `i` is the first tab, in document order, carrying a terminal label. */
  predicate IsFirstTerminalTab(tabs: seq<Tab>, i: nat) {
    && i < |tabs|
    && IsTerminalLabel(tabs[i].text)
    && forall j :: 0 <= j < i ==> !IsTerminalLabel(tabs[j].text)
  }

  /**
   * `switchToTerminalTab`. The loop returns at the first tab whose trimmed
   * text is a terminal label, clicking its link only if it has one.
   */
  method SwitchToTerminalTab(parent: Parent) returns (clicked: Option<nat>)
    ensures !parent.SameOriginParent? ==> clicked.None?
    ensures clicked.Some? ==> parent.SameOriginParent?
    ensures clicked.Some? ==> IsFirstTerminalTab(parent.doc.tabs, clicked.value)
    ensures clicked.Some? ==> parent.doc.tabs[clicked.value].hasLink
    ensures parent.SameOriginParent? ==>
              forall i: nat :: IsFirstTerminalTab(parent.doc.tabs, i) ==>
                clicked == (if parent.doc.tabs[i].hasLink then Some(i) else None)
    ensures parent.SameOriginParent? ==> clicked == ChosenTab(parent.doc.tabs)
  {
    if !parent.SameOriginParent? {
      return None;
    }
    var tabs := parent.doc.tabs;
    var i := 0;
    while i < |tabs|
      invariant 0 <= i <= |tabs|
      invariant forall j :: 0 <= j < i ==> !IsTerminalLabel(tabs[j].text)
    {
      var text := Trim(tabs[i].text);
      if text == TerminalLabel || text == BastionLabel {
        FirstTerminalTabUnique(tabs, i);
        if tabs[i].hasLink {
          return Some(i);
        }
        return None;
      }
      i := i + 1;
    }
    return None;
  }

  /** The same choice as a function of the tab list, for reasoning across documents. */
  function ChosenTab(tabs: seq<Tab>): (r: Option<nat>)
    ensures r.Some? ==> IsFirstTerminalTab(tabs, r.value) && tabs[r.value].hasLink
    ensures forall i: nat :: IsFirstTerminalTab(tabs, i) ==> r == (if tabs[i].hasLink then Some(i) else None)
  {
    var k := FirstTerminalTabFrom(tabs, 0);
    if k.Some? then
      FirstTerminalTabUnique(tabs, k.value);
      if tabs[k.value].hasLink then k else None
    else None
  }

  /** There is at most one first terminal-labelled tab. */
  lemma FirstTerminalTabUnique(tabs: seq<Tab>, k: nat)
    requires IsFirstTerminalTab(tabs, k)
    ensures forall i: nat :: IsFirstTerminalTab(tabs, i) ==> i == k
  {
  }

  function FirstTerminalTabFrom(tabs: seq<Tab>, k: nat): (r: Option<nat>)
    requires k <= |tabs|
    ensures r.Some? ==> k <= r.value < |tabs| && IsTerminalLabel(tabs[r.value].text)
    ensures r.Some? ==> forall j :: k <= j < r.value ==> !IsTerminalLabel(tabs[j].text)
    ensures r.None? ==> forall j :: k <= j < |tabs| ==> !IsTerminalLabel(tabs[j].text)
    decreases |tabs| - k
  {
    if k == |tabs| then None
    else if IsTerminalLabel(tabs[k].text) then Some(k)
    else FirstTerminalTabFrom(tabs, k + 1)
  }

  /**
   * Nothing after the first terminal-labelled tab is examined: replacing
   * every later tab leaves the choice unchanged, even when the first match
   * has no link and a later one does.
   */
  lemma LaterTabsIgnored(tabs: seq<Tab>, i: nat, rest: seq<Tab>)
    requires IsFirstTerminalTab(tabs, i)
    ensures ChosenTab(tabs[..i + 1] + rest) == ChosenTab(tabs)
  {
    var tabs' := tabs[..i + 1] + rest;
    assert tabs'[i] == tabs[i];
    assert forall j :: 0 <= j < i ==> tabs'[j] == tabs[j];
    assert IsFirstTerminalTab(tabs', i);
    var k := FirstTerminalTabFrom(tabs, 0);
    var k' := FirstTerminalTabFrom(tabs', 0);
    assert k == Some(i);
    assert k' == Some(i);
  }
}
