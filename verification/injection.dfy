/**
 * `executeCommand`: locate the terminal iframe, then hand the command to
 * wetty through the first injection strategy its `wetty_term` object
 * supports. Foreign calls (`socket.emit`, `triggerDataEvent`) are not
 * performed; the outcome names the one call that would be made.
 */
module Injection {
  import opened Wrappers
  import opened Text
  import opened Dom
  import Locator

  /** The single foreign call a successful injection makes. */
  datatype Action =
    | EmitInput(data: string)          // `wetty_term.socket.emit('input', data)`
    | TriggerDataEvent(data: string)   // `wetty_term._core.coreService.triggerDataEvent(data)`

  /** One outcome per exit of `executeCommand`, matching its log messages. */
  datatype Outcome =
    | FrameNotFound     // "Terminal iframe not found"
    | NoStrategy        // "wetty_term or socket not found in terminal iframe"
    | AccessError       // "Error sending command" (the `catch` branch)
    | Sent(action: Action)

  /** What is written to the terminal for `command`: the text and one carriage return. */
  function Payload(command: string): (p: string)
    ensures |p| == |command| + 1
    ensures p[..|command|] == command
    ensures p[|command|] == '\r'
  {
    command + "\r"
  }

  predicate HasSocket(t: Option<Term>) {
    t.Some? && t.value.hasSocket
  }

  predicate HasTriggerDataEvent(t: Option<Term>) {
    && t.Some?
    && t.value.core.Some?
    && t.value.core.value.coreService.Some?
    && t.value.core.value.coreService.value.triggerDataEventIsFunction
  }

  /** The injection attempt of `executeCommand` once a content window is in hand. */
  function Dispatch(w: ContentWindow, command: string): (o: Outcome)
    ensures o != FrameNotFound
    ensures o == AccessError <==> w.CrossOriginWindow?
    ensures o.Sent? ==> o.action.data == Payload(command)
    ensures o.Sent? && o.action.EmitInput? <==> w.SameOriginWindow? && HasSocket(w.wettyTerm)
    ensures o.Sent? && o.action.TriggerDataEvent?
            <==> w.SameOriginWindow? && !HasSocket(w.wettyTerm) && HasTriggerDataEvent(w.wettyTerm)
    ensures o == NoStrategy
            <==> w.SameOriginWindow? && !HasSocket(w.wettyTerm) && !HasTriggerDataEvent(w.wettyTerm)
  {
    match w
    case CrossOriginWindow => AccessError
    case SameOriginWindow(term) =>
      if term.Some? && term.value.hasSocket then
        Sent(EmitInput(command + "\r"))
      else if term.Some? && term.value.core.Some? then
        var core := term.value.core.value;
        if core.coreService.Some? && core.coreService.value.triggerDataEventIsFunction then
          Sent(TriggerDataEvent(command + "\r"))
        else NoStrategy
      else NoStrategy
  }

  /** `executeCommand(command)` against the parent window `parent`. */
  function ExecuteCommand(parent: Parent, command: string): (o: Outcome)
    ensures o == FrameNotFound
            <==> (var f := Locator.FindTerminalFrame(parent);
                  f.None? || parent.doc.frames[f.value].contentWindow.None?)
    ensures !parent.SameOriginParent? ==> o == FrameNotFound
    ensures o != FrameNotFound ==>
              (var f := Locator.FindTerminalFrame(parent);
               f.Some? && o == Dispatch(parent.doc.frames[f.value].contentWindow.value, command))
  {
    var frame := Locator.FindTerminalFrame(parent);
    if frame.None? then FrameNotFound
    else
      var window := parent.doc.frames[frame.value].contentWindow;
      if window.None? then FrameNotFound
      else Dispatch(window.value, command)
  }

  /** The capability probes of `executeCommand`, in the order it tries them. */
  datatype Strategy = SessionChannel | InternalTrigger

  const StrategyChain: seq<Strategy> := [SessionChannel, InternalTrigger]

  predicate Applicable(s: Strategy, t: Option<Term>) {
    match s
    case SessionChannel => HasSocket(t)
    case InternalTrigger => HasTriggerDataEvent(t)
  }

  function Inject(s: Strategy, payload: string): Action {
    match s
    case SessionChannel => EmitInput(payload)
    case InternalTrigger => TriggerDataEvent(payload)
  }

  /** `chain[k]` applies to `t` and no strategy before it does. */
  predicate IsFirstApplicable(chain: seq<Strategy>, t: Option<Term>, k: nat) {
    && k < |chain|
    && Applicable(chain[k], t)
    && forall j :: 0 <= j < k ==> !Applicable(chain[j], t)
  }

  /** The position of the first strategy of `chain`, from `k` on, that `t` supports. */
  function FirstApplicableFrom(chain: seq<Strategy>, t: Option<Term>, k: nat): (r: Option<nat>)
    requires k <= |chain|
    ensures r.Some? ==> k <= r.value < |chain| && Applicable(chain[r.value], t)
    ensures r.Some? ==> forall j :: k <= j < r.value ==> !Applicable(chain[j], t)
    ensures r.None? ==> forall j :: k <= j < |chain| ==> !Applicable(chain[j], t)
    decreases |chain| - k
  {
    if k == |chain| then None
    else if Applicable(chain[k], t) then Some(k)
    else FirstApplicableFrom(chain, t, k + 1)
  }

  /** The position of the first strategy of `chain` that `t` supports. */
  function FirstApplicable(chain: seq<Strategy>, t: Option<Term>): (r: Option<nat>)
    ensures r.Some? ==> IsFirstApplicable(chain, t, r.value)
    ensures r.None? <==> forall i :: 0 <= i < |chain| ==> !Applicable(chain[i], t)
  {
    FirstApplicableFrom(chain, t, 0)
  }

  /**
   * Dispatch is a probe-then-dispatch chain: the first applicable strategy
   * in priority order is the one used, and no other is attempted.
   */
  lemma DispatchFollowsStrategyChain(term: Option<Term>, command: string)
    ensures Dispatch(SameOriginWindow(term), command)
            == match FirstApplicable(StrategyChain, term)
               case Some(k) => Sent(Inject(StrategyChain[k], Payload(command)))
               case None => NoStrategy
  {
  }

  /**
   * The payload adds exactly one carriage return and changes nothing else:
   * every line feed and carriage return of the command is kept.
   */
  lemma PayloadAddsOneCarriageReturn(command: string)
    ensures Count(Payload(command), '\r') == Count(command, '\r') + 1
    ensures Count(Payload(command), '\n') == Count(command, '\n')
  {
    CountConcat(command, "\r", '\r');
    CountConcat(command, "\r", '\n');
  }

  /**
   * With a socket present the socket is used, whatever `_core` offers:
   * `triggerDataEvent` is never called alongside it.
   */
  lemma SocketTakesPrecedence(core: Option<Core>, command: string)
    ensures Dispatch(SameOriginWindow(Some(Term(true, core))), command) == Sent(EmitInput(Payload(command)))
  {
  }

  /** A command with an embedded line feed is sent untouched, followed by one carriage return. */
  lemma EmbeddedNewlineKept(w: ContentWindow)
    requires w.SameOriginWindow? && HasSocket(w.wettyTerm)
    ensures Dispatch(w, "echo hi\n") == Sent(EmitInput("echo hi\n\r"))
  {
  }
}
