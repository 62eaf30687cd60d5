/**
 * `findTerminalIframe`: which iframe of the parent document is taken to
 * host the wetty terminal. The result is an index into the parent
 * document's frames, in document order, or `None` for `null`.
 */
module Locator {
  import opened Wrappers
  import opened Text
  import opened Dom

  const WettyMarker: string := "/wetty"
  const TerminalMarker: string := "/terminal"
  const TtyMarker: string := "/tty"

  /** The two kinds of `querySelector` the locator issues. */
  datatype Selector =
    | SrcContains(marker: string)   // `iframe[src*="<marker>"]`
    | ActivePanelFrame              // `.app-split-right__content.active iframe`

  /** Markers are non-empty here, so `*=` and substring agree. */
  predicate Selects(sel: Selector, f: Frame) {
    match sel
    case SrcContains(m) => Contains(f.src, m)
    case ActivePanelFrame => f.inActivePanel
  }

  predicate AnyMatch(frames: seq<Frame>, sel: Selector) {
    exists j :: 0 <= j < |frames| && Selects(sel, frames[j])
  }

  /** `i` is the element `querySelector(sel)` returns: the first in document order. */
  predicate IsFirstMatch(frames: seq<Frame>, sel: Selector, i: nat) {
    && i < |frames|
    && Selects(sel, frames[i])
    && forall j :: 0 <= j < i ==> !Selects(sel, frames[j])
  }

  /** A frame whose URL carries any of the three terminal markers. */
  predicate HasMarker(src: string) {
    Contains(src, WettyMarker) || Contains(src, TerminalMarker) || Contains(src, TtyMarker)
  }

  /** A right-panel frame whose URL carries a marker: what the panel scan looks for. */
  predicate IsMarkedPanelFrame(f: Frame) {
    f.inPanel && HasMarker(f.src)
  }

  function QuerySelectorFrom(frames: seq<Frame>, sel: Selector, k: nat): (r: Option<nat>)
    requires k <= |frames|
    ensures r.Some? ==> k <= r.value < |frames| && Selects(sel, frames[r.value])
    ensures r.Some? ==> forall j :: k <= j < r.value ==> !Selects(sel, frames[j])
    ensures r.None? ==> forall j :: k <= j < |frames| ==> !Selects(sel, frames[j])
    decreases |frames| - k
  {
    if k == |frames| then None
    else if Selects(sel, frames[k]) then Some(k)
    else QuerySelectorFrom(frames, sel, k + 1)
  }

  /** `document.querySelector(sel)` restricted to iframes. */
  function QuerySelector(frames: seq<Frame>, sel: Selector): (r: Option<nat>)
    ensures r.Some? <==> AnyMatch(frames, sel)
    ensures r.Some? ==> IsFirstMatch(frames, sel, r.value)
  {
    QuerySelectorFrom(frames, sel, 0)
  }

  /**
   * The loop over `querySelectorAll('.app-split-right__content iframe')`
   * from index `k` on: the first right-panel frame whose `src` has a marker
   * according to `indexOf`.
   */
  function ScanPanelFrames(frames: seq<Frame>, k: nat): (r: Option<nat>)
    requires k <= |frames|
    ensures r.Some? ==> k <= r.value < |frames| && IsMarkedPanelFrame(frames[r.value])
    ensures r.Some? ==> forall j :: k <= j < r.value ==> !IsMarkedPanelFrame(frames[j])
    ensures r.None? ==> forall j :: k <= j < |frames| ==> !IsMarkedPanelFrame(frames[j])
    decreases |frames| - k
  {
    if k == |frames| then None
    else
      var src := frames[k].src;
      if frames[k].inPanel
         && (IndexOf(src, WettyMarker) != -1 || IndexOf(src, TerminalMarker) != -1 || IndexOf(src, TtyMarker) != -1)
      then Some(k)
      else ScanPanelFrames(frames, k + 1)
  }

  /**
   * The locator's promise about a readable parent document: marker
   * selectors in the fixed order `/wetty`, `/terminal`, `/tty`, each taking
   * the first matching frame in document order; then the first frame in the
   * active right panel; otherwise nothing.
   */
  ghost predicate LocatorChoice(frames: seq<Frame>, r: Option<nat>) {
    var w, t, y := SrcContains(WettyMarker), SrcContains(TerminalMarker), SrcContains(TtyMarker);
    && (AnyMatch(frames, w) ==> r.Some? && IsFirstMatch(frames, w, r.value))
    && (!AnyMatch(frames, w) && AnyMatch(frames, t) ==> r.Some? && IsFirstMatch(frames, t, r.value))
    && (!AnyMatch(frames, w) && !AnyMatch(frames, t) && AnyMatch(frames, y)
        ==> r.Some? && IsFirstMatch(frames, y, r.value))
    && (!AnyMatch(frames, w) && !AnyMatch(frames, t) && !AnyMatch(frames, y) && AnyMatch(frames, ActivePanelFrame)
        ==> r.Some? && IsFirstMatch(frames, ActivePanelFrame, r.value))
    && (!AnyMatch(frames, w) && !AnyMatch(frames, t) && !AnyMatch(frames, y) && !AnyMatch(frames, ActivePanelFrame)
        ==> r.None?)
  }

  /** `findTerminalIframe`, all three search steps as written. */
  function FindTerminalFrame(parent: Parent): (r: Option<nat>)
    ensures !parent.SameOriginParent? ==> r.None?
    ensures parent.SameOriginParent? ==> LocatorChoice(parent.doc.frames, r)
  {
    match parent
    case SameOriginParent(doc) =>
      var byMarker := FindByMarker(doc.frames);
      if byMarker.Some? then byMarker
      else
        var active := QuerySelector(doc.frames, ActivePanelFrame);
        if active.Some? then active
        else ScanPanelFrames(doc.frames, 0)
    case _ => None
  }

  /** The first search step: the three marker selectors joined with `||`. */
  function FindByMarker(frames: seq<Frame>): (r: Option<nat>)
    ensures r.None? <==> forall j :: 0 <= j < |frames| ==> !HasMarker(frames[j].src)
    ensures r.Some? ==> r.value < |frames| && HasMarker(frames[r.value].src)
    ensures AnyMatch(frames, SrcContains(WettyMarker))
            ==> r.Some? && IsFirstMatch(frames, SrcContains(WettyMarker), r.value)
    ensures !AnyMatch(frames, SrcContains(WettyMarker)) && AnyMatch(frames, SrcContains(TerminalMarker))
            ==> r.Some? && IsFirstMatch(frames, SrcContains(TerminalMarker), r.value)
    ensures !AnyMatch(frames, SrcContains(WettyMarker)) && !AnyMatch(frames, SrcContains(TerminalMarker))
            && AnyMatch(frames, SrcContains(TtyMarker))
            ==> r.Some? && IsFirstMatch(frames, SrcContains(TtyMarker), r.value)
  {
    var w := QuerySelector(frames, SrcContains(WettyMarker));
    if w.Some? then w
    else
      var t := QuerySelector(frames, SrcContains(TerminalMarker));
      if t.Some? then t
      else QuerySelector(frames, SrcContains(TtyMarker))
  }

  /** `findTerminalIframe` with the right-panel scan (its lines 180-187) deleted. */
  function FindTerminalFrameWithoutScan(parent: Parent): (r: Option<nat>)
    ensures r.Some? ==> parent.SameOriginParent? && r.value < |parent.doc.frames|
  {
    match parent
    case SameOriginParent(doc) =>
      var byMarker := FindByMarker(doc.frames);
      if byMarker.Some? then byMarker
      else QuerySelector(doc.frames, ActivePanelFrame)
    case _ => None
  }

  /**
   * The right-panel scan is dead code: deleting it leaves the locator's
   * result unchanged for every parent document.
   */
  lemma PanelScanIsDead(parent: Parent)
    ensures FindTerminalFrame(parent) == FindTerminalFrameWithoutScan(parent)
  {
  }

  /**
   * A frame whose URL contains `/wetty` beats every frame that only
   * contains `/terminal` or `/tty`, wherever the two stand in the document.
   */
  lemma WettyWinsRegardlessOfOrder(doc: Document, i: nat, j: nat)
    requires i < |doc.frames| && j < |doc.frames|
    requires Contains(doc.frames[i].src, WettyMarker)
    requires !Contains(doc.frames[j].src, WettyMarker)
    ensures FindTerminalFrame(SameOriginParent(doc)) != Some(j)
    ensures FindTerminalFrame(SameOriginParent(doc)).Some?
    ensures FindTerminalFrame(SameOriginParent(doc)).value <= i
  {
    assert Selects(SrcContains(WettyMarker), doc.frames[i]);
  }

  /**
   * The active-panel frame is chosen exactly when no frame anywhere has a
   * marker and some frame sits in the active panel.
   */
  lemma ActivePanelOnlyWithoutMarker(doc: Document)
    ensures var r := FindTerminalFrame(SameOriginParent(doc));
      (r.Some? && !HasMarker(doc.frames[r.value].src))
      <==> (AnyMatch(doc.frames, ActivePanelFrame) && forall j :: 0 <= j < |doc.frames| ==> !HasMarker(doc.frames[j].src))
  {
    PanelScanIsDead(SameOriginParent(doc));
  }

  /**
   * Two frames, one pointing at wetty and one without any marker: the
   * wetty frame is picked in either order.
   */
  lemma WettyPickedInEitherOrder(wetty: Frame, other: Frame)
    requires Contains(wetty.src, WettyMarker)
    requires !HasMarker(other.src)
    ensures FindTerminalFrame(SameOriginParent(Document([wetty, other], []))) == Some(0)
    ensures FindTerminalFrame(SameOriginParent(Document([other, wetty], []))) == Some(1)
  {
    assert Selects(SrcContains(WettyMarker), [wetty, other][0]);
    assert Selects(SrcContains(WettyMarker), [other, wetty][1]);
  }
}
