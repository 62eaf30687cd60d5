# Showroom execute bridge, modelled in Dafny

The showroom theme's execute script (`src/js/08-execute.js`) turns every
documentation code block marked `role="execute"` into a clickable block.
A click switches the parent showroom UI to its `Terminal` (or `Bastion`)
tab and then injects the block's text into the wetty terminal that runs in
an iframe of that parent page.

This project models the decisions the script makes on a click. The
browser is replaced by plain records (`Dom`): the parent window is
absent, cross-origin or a readable document. The document holds its
iframes and tab labels in document order. An iframe's `wetty_term` object
is reduced to the shape the script probes for.

- `Text`: `String.prototype.trim`, `String.prototype.indexOf` (compared
  only with -1 by the script), and the substring test behind CSS
  `[src*="..."]` selectors.
- `Locator`: `findTerminalIframe`, the marker priority `/wetty`,
  `/terminal`, `/tty`, then the active right panel, then the right-panel
  scan. It includes a proof that the scan can never change the result.
- `Injection`: the dispatch of `executeCommand`, meaning which one foreign
  call is made and with what payload, and which of its log branches is
  taken otherwise. The script itself returns nothing and only logs
  failures, so the model's `Outcome` value names the branch taken.
- `Tabs`: `switchToTerminalTab`, the first-match tab chooser.
- `Button`: the command bound by `addExecuteButton` (trimmed `textContent`)
  and one click, composed as "switch tab, then execute".

## Model

| member | source | states |
|---|---|---|
| Text.Trim | src/js/08-execute.js:34 | the result is a slice of the input with only whitespace cut from both ends, and neither of its ends is whitespace |
| Text.TrimCharacterized | src/js/08-execute.js:34 | any whitespace-bounded slice with clean edges is the trimmed string, so trimming is uniquely determined |
| Text.TrimIdempotent | src/js/08-execute.js:34 | trimming an already trimmed command changes nothing |
| Text.IndexOf | src/js/08-execute.js:184 | returns -1 exactly when the marker is not a substring, and otherwise the first index where it occurs |
| Locator.QuerySelector | src/js/08-execute.js:171-173 | finds a frame exactly when one matches the selector, and then returns the first match in document order |
| Locator.ScanPanelFrames | src/js/08-execute.js:181-187 | the scan finds a frame exactly when some right-panel frame's src contains one of the three markers, and then returns the first such frame in document order |
| Locator.FindByMarker | src/js/08-execute.js:171-174 | the first /wetty frame if any, else the first /terminal frame if any, else the first /tty frame; nothing exactly when no frame's src carries any marker |
| Locator.FindTerminalFrame | src/js/08-execute.js:164-193 | no parent or an unreadable parent gives null; otherwise the first /wetty frame, else the first /terminal, else the first /tty, else the first active-panel frame, else null |
| Locator.PanelScanIsDead | src/js/08-execute.js:180-187 | deleting the right-panel scan leaves the locator's result unchanged for every parent document |
| Locator.WettyWinsRegardlessOfOrder | src/js/08-execute.js:171-174 | if any frame carries /wetty, a frame without /wetty is never chosen, and the choice is a /wetty frame no later than any other |
| Locator.ActivePanelOnlyWithoutMarker | src/js/08-execute.js:176-178 | a frame without a marker is returned exactly when no frame anywhere has a marker and some frame is in the active panel |
| Locator.WettyPickedInEitherOrder | src/js/08-execute.js:171-174 | with one /wetty frame and one unmarked frame, the /wetty frame is picked in both document orders |
| Injection.Payload | src/js/08-execute.js:142 | the payload is the command unchanged followed by a single carriage return |
| Injection.Dispatch | src/js/08-execute.js:137-158 | a cross-origin window gives the access error; a socket gives emit('input'); without a socket a callable triggerDataEvent gives that call; otherwise no strategy; a sent payload is always the command plus one carriage return |
| Injection.ExecuteCommand | src/js/08-execute.js:129-159 | "frame not found" exactly when the locator finds nothing or the frame has no content window; otherwise the dispatch on that frame's window |
| Injection.FirstApplicable | src/js/08-execute.js:140-153 | picks the first strategy of the chain that applies, with none before it applying, and picks none exactly when none in the chain applies |
| Injection.DispatchFollowsStrategyChain | src/js/08-execute.js:140-155 | dispatch uses the first applicable strategy of the chain socket, then triggerDataEvent, and attempts no other |
| Injection.PayloadAddsOneCarriageReturn | src/js/08-execute.js:142 | the payload contains exactly one more carriage return than the command and the same number of line feeds |
| Injection.SocketTakesPrecedence | src/js/08-execute.js:140-144 | with a socket, emit('input') is used whatever the core service offers, and triggerDataEvent is never called |
| Injection.EmbeddedNewlineKept | src/js/08-execute.js:142 | "echo hi\n" is emitted as "echo hi\n\r": the embedded line feed is neither stripped nor collapsed |
| Tabs.SwitchToTerminalTab | src/js/08-execute.js:104-119 | clicks nothing without a readable parent; otherwise clicks the first tab whose trimmed text is Terminal or Bastion if it has a link, and nothing if it has none; the loop agrees with the first-match function ChosenTab |
| Tabs.ChosenTab | src/js/08-execute.js:108-114 | the same first-match choice, stated over the tab list |
| Tabs.FirstTerminalTabUnique | src/js/08-execute.js:108-110 | only one tab can be the first terminal-labelled tab |
| Tabs.LaterTabsIgnored | src/js/08-execute.js:108-114 | tabs after the first terminal-labelled tab are never examined: replacing them leaves the choice unchanged |
| Button.BoundCommand | src/js/08-execute.js:31-38 | a handler is installed exactly when the block has a code element and a content element; its command is the code text trimmed |
| Button.OnClick | src/js/08-execute.js:76-97 | a click on a block with a handler always runs the tab switch, clicking exactly the tab the first-match chooser picks in the parent at click time; then the command is executed against the later parent, and anything sent is the trimmed code text plus one carriage return |
| Button.TrailingWhitespaceTrimmedByButton | src/js/08-execute.js:34 | through the button, whitespace after the code text (such as a final line feed) is trimmed away, and the socket receives the text plus one carriage return |

## Left out

- Block discovery, styling, hover effects and the green flash (lines 17-27, 40-74, 85-96) are presentation only.
- The 300 ms and 1000 ms timers (lines 81-83, 91-96) are not modelled. A click is "switch tab, then execute". The parent window at execution time is a separate parameter of `Button.OnClick`, so the tab switch may change it. Races between repeated clicks are not modelled.
- Browser semantics are abstracted: `window.parent`, the same-origin policy, `querySelector` matching, and the difference between the `src` attribute and the resolved `src` property. The `src` of a frame is one string, and the empty string stands for a missing attribute. The right-panel scan is dead code only under this identification.
- `socket.emit`, `triggerDataEvent` and `console.error` are foreign calls. The model names the one call that would be made and which log branch is taken. A foreign call that throws would also land in the `catch`; this is not modelled, and only a cross-origin content window leads to `AccessError`.
- The `paste`/`write` insertion, hidden-textarea key simulation and `postMessage` notification strategies do not exist in this script, so they are not modelled. The chain here has two strategies, the socket and `triggerDataEvent`, because that is what the code does.
- Text.IndexOf: positions are counted in code points, not in UTF-16 code units as in JavaScript, so a position after a character outside the Basic Multilingual Plane differs. The script only compares the result with -1, where the two agree.
- Text.IsWhitespace lists the ECMAScript WhiteSpace and LineTerminator code points. The space separators follow current Unicode, and later Unicode versions may add more.
