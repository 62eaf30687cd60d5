/**
 * Plain records standing in for the parts of the browser the execute
 * script reads: the parent (showroom) document's iframes and tab labels,
 * and the shape of the `wetty_term` object inside a terminal iframe.
 */
module Dom {
  import opened Wrappers

  /** `term._core.coreService`: whether its `triggerDataEvent` is a function. */
  datatype CoreService = CoreService(triggerDataEventIsFunction: bool)

  /** `term._core`, xterm's internal core object. */
  datatype Core = Core(coreService: Option<CoreService>)

  /** The `wetty_term` global: whether `socket` is set, and its `_core`. */
  datatype Term = Term(hasSocket: bool, core: Option<Core>)

  /**
   * An iframe's `contentWindow`. Reading a global of a cross-origin
   * window throws, so the only thing observable there is that it throws.
   */
  datatype ContentWindow = CrossOriginWindow | SameOriginWindow(wettyTerm: Option<Term>)

  /**
   * One `<iframe>` of the parent document. `src` is both the attribute the
   * CSS selectors test and the property the panel scan reads (the empty
   * string when absent). `inPanel` says it lies inside an element of class
   * `app-split-right__content`; `inActivePanel` that such an element also
   * carries the class `active`.
   */
  datatype Frame = Frame(src: string, inPanel: bool, inActivePanel: bool, contentWindow: Option<ContentWindow>)

  /**
   * One `.pf-v6-c-tabs__item-text` element: its `textContent`, and whether
   * `closest('.pf-v6-c-tabs__link') || parentElement` yields an element.
   */
  datatype Tab = Tab(text: string, hasLink: bool)

  /** The parent document, elements in document order. */
  datatype Document = Document(frames: seq<Frame>, tabs: seq<Tab>)

  /**
   * `window.parent` as the script sees it: the script runs at top level
   * (`window.parent === window`), the parent's `document` throws on access
   * (cross-origin), or the document can be read.
   */
  datatype Parent = NoParent | CrossOriginParent | SameOriginParent(doc: Document)
}
