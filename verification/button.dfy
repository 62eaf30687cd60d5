/**
 * `addExecuteButton` and its click handler, without the styling: the
 * command bound to a code block, and what one click does with it (switch
 * to the terminal tab, then, after the delay, `executeCommand`).
 */
module Button {
  import opened Wrappers
  import opened Text
  import opened Dom
  import Tabs
  import Injection

  /**
   * A `div.listingblock.execute` block: the `textContent` of its `code`
   * element, if it has one, and whether it has a `.content` element.
   */
  datatype CodeBlock = CodeBlock(code: Option<string>, hasContent: bool)

  /**
   * The command a block's click handler is bound to, or `None` when
   * `addExecuteButton` returns early and installs no handler.
   */
  function BoundCommand(block: CodeBlock): (r: Option<string>)
    ensures r.Some? <==> block.code.Some? && block.hasContent
    ensures r.Some? ==> CleanEdges(r.value) && exists i :: TrimmedAt(block.code.value, r.value, i)
  {
    match block.code
    case None => None
    case Some(text) =>
      var command := Trim(text);
      if !block.hasContent then None else Some(command)
  }

  /** The effects of one click: the tab whose link is clicked, and the injection outcome. */
  datatype ClickResult = ClickResult(tabClicked: Option<nat>, outcome: Injection.Outcome)

  /**
   * One click on `block`. `atClick` is the parent window when the click
   * happens; `afterDelay` is the parent window when the delayed
   * `executeCommand` runs (the tab switch may have changed it meanwhile).
   */
  method OnClick(block: CodeBlock, atClick: Parent, afterDelay: Parent) returns (r: Option<ClickResult>)
    ensures r.None? <==> BoundCommand(block).None?
    ensures r.Some? && r.value.tabClicked.Some? ==>
              atClick.SameOriginParent? && Tabs.IsFirstTerminalTab(atClick.doc.tabs, r.value.tabClicked.value)
    ensures r.Some? ==>
              r.value.tabClicked == (if atClick.SameOriginParent? then Tabs.ChosenTab(atClick.doc.tabs) else None)
    ensures r.Some? && r.value.outcome.Sent? ==>
              var d := r.value.outcome.action.data;
              |d| > 0 && d[|d| - 1] == '\r' && d[..|d| - 1] == Trim(block.code.value)
    ensures r.Some? ==> r.value.outcome == Injection.ExecuteCommand(afterDelay, BoundCommand(block).value)
  {
    var command := BoundCommand(block);
    if command.None? {
      return None;
    }
    var tab := Tabs.SwitchToTerminalTab(atClick);
    var outcome := Injection.ExecuteCommand(afterDelay, command.value);
    return Some(ClickResult(tab, outcome));
  }

  /**
   * Through the button, whitespace after the command text (a final line
   * feed, say) is removed by `trim` and never reaches the terminal: the
   * socket receives the text and one carriage return only.
   */
  lemma TrailingWhitespaceTrimmedByButton(command: string, tail: string, term: Term)
    requires CleanEdges(command) && AllWhitespace(tail) && term.hasSocket
    ensures BoundCommand(CodeBlock(Some(command + tail), true)) == Some(command)
    ensures Injection.Dispatch(SameOriginWindow(Some(term)), BoundCommand(CodeBlock(Some(command + tail), true)).value)
            == Injection.Sent(Injection.EmitInput(command + "\r"))
  {
    var text := command + tail;
    assert text[..0] == [] && text[0..|command|] == command && text[|command|..] == tail;
    assert TrimmedAt(text, command, 0);
    TrimCharacterized(text, command, 0);
  }
}
