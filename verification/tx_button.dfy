/** The transaction button: a guard against re-entry, a spinner flag that
    the `finally` clause resets, and a truncated error message. */
module TxButton {
  import opened Js
  import opened Contracts

  /** Error messages are cut to this many characters before being stored. */
  const MAX_ERROR_LENGTH: nat := 80

  /** Shown when something that is not an `Error` instance is thrown. */
  const GENERIC_FAILURE: string := "Transaction failed"

  /** Shown when an `Error` instance carries no message at all. */
  const MISSING_MESSAGE: string := "Error"

  /** The button's own React state. */
  datatype ButtonState = ButtonState(loading: bool, error: Option<string>)

  /** The state at mount. */
  const INITIAL: ButtonState := ButtonState(false, None)

  /** The message stored for a thrown value. */
  function ErrorText(t: Thrown): (e: string)
    ensures |e| <= MAX_ERROR_LENGTH
    ensures t.NonError? ==> e == GENERIC_FAILURE
    ensures t == ErrorObject(None) ==> e == MISSING_MESSAGE
    ensures t.ErrorObject? && t.message.Some? ==>
              |e| == Min(MAX_ERROR_LENGTH, |t.message.value|) && e == t.message.value[..|e|]
  {
    match t
    case NonError => GENERIC_FAILURE[..Min(MAX_ERROR_LENGTH, |GENERIC_FAILURE|)]
    case ErrorObject(None) => MISSING_MESSAGE
    case ErrorObject(Some(m)) => m[..Min(MAX_ERROR_LENGTH, |m|)]
  }

  /** A click is ignored while a previous one is in flight or the caller
      disabled the button; the same condition is rendered as the button's
      `disabled` attribute. */
  predicate Blocked(b: ButtonState, disabled: bool) {
    b.loading || disabled
  }

  /** What a click that proceeds does before invoking the handler. */
  function Begin(b: ButtonState): (r: ButtonState)
    ensures r.loading && r.error.None?
  {
    ButtonState(true, None)
  }

  /** The state once the handler has completed: the `finally` clause clears
      the spinner unless the handler never settles. */
  function Settle(b: ButtonState, c: Completion): (r: ButtonState)
    requires b.loading && b.error.None?
    ensures r.loading <==> c == Suspended
    ensures c.Threw? ==> r.error == Some(ErrorText(c.reason))
    ensures !c.Threw? ==> r.error.None?
  {
    match c
    case Returned => b.(loading := false)
    case Threw(t) => ButtonState(false, Some(ErrorText(t)))
    case Suspended => b
  }

  /** The result of one click: the button's state, the page state and the
      gateway afterwards. */
  datatype Pressed<+S> = Pressed(button: ButtonState, state: S, gateway: Gateway)

  /** `handleClick`: a blocked click changes nothing and does not invoke
      the handler; otherwise the handler runs once against a loading button
      with no error, and its completion settles the button. */
  function Press<S>(b: ButtonState, disabled: bool, s: S, g: Gateway,
                    handler: (S, Gateway) -> Run<S>): (r: Pressed<S>)
    ensures Blocked(b, disabled) ==> r == Pressed(b, s, g)
    ensures !Blocked(b, disabled) ==>
              var run := handler(s, g);
              && r.state == run.state && r.gateway == run.gateway
              && (r.button.loading <==> run.completion == Suspended)
              && (run.completion.Threw? ==> r.button.error == Some(ErrorText(run.completion.reason)))
              && (!run.completion.Threw? ==> r.button.error.None?)
  {
    if Blocked(b, disabled) then Pressed(b, s, g)
    else
      var run := handler(s, g);
      Pressed(Settle(Begin(b), run.completion), run.state, run.gateway)
  }

  /** The rendered error paragraph, if any: `{error && <p>{error}</p>}`
      renders nothing for a null or empty message. */
  function ErrorLine(b: ButtonState): (line: Option<string>)
    ensures line.Some? ==> b.error == line && line.value != ""
    ensures line.None? ==> b.error.None? || b.error.value == ""
  {
    if b.error.Some? && b.error.value != "" then b.error else None
  }

  /** A message longer than the limit is cut to exactly the limit; a
      shorter one is kept whole. */
  lemma TruncatedMessage(m: string)
    ensures |m| <= MAX_ERROR_LENGTH ==> ErrorText(ErrorObject(Some(m))) == m
    ensures |m| > MAX_ERROR_LENGTH ==>
              |ErrorText(ErrorObject(Some(m)))| == MAX_ERROR_LENGTH
              && m == ErrorText(ErrorObject(Some(m))) + m[MAX_ERROR_LENGTH..]
  {
  }

  /** The error line shows after a throw exactly when the stored message is
      non-empty; in particular an `Error` with an empty message shows none. */
  lemma ErrorLineAfterThrow<S>(b: ButtonState, s: S, g: Gateway,
                               handler: (S, Gateway) -> Run<S>)
    requires !Blocked(b, false)
    requires handler(s, g).completion.Threw?
    ensures var r := Press(b, false, s, g, handler);
            var t := handler(s, g).completion.reason;
            && !r.button.loading
            && (ErrorLine(r.button).Some? <==> ErrorText(t) != "")
            && (t == ErrorObject(Some("")) ==> ErrorLine(r.button).None? && r.button.error == Some(""))
            && (t.NonError? ==> ErrorLine(r.button) == Some(GENERIC_FAILURE))
  {
  }

  /** While a handler is still awaiting the wallet the button is disabled,
      so a second click reaches neither the handler nor the gateway: no
      double submission. */
  lemma NoReentry<S>(b: ButtonState, disabled: bool, s: S, g: Gateway,
                     handler: (S, Gateway) -> Run<S>, second: (S, Gateway) -> Run<S>)
    requires !Blocked(b, disabled)
    requires handler(s, g).completion == Suspended
    ensures var r := Press(b, disabled, s, g, handler);
            && Blocked(r.button, disabled)
            && Press(r.button, disabled, r.state, r.gateway, second) == r
  {
  }

  /** After a click that returned or threw, the button is ready again, so a
      retry invokes the handler on the state left by the first click. */
  lemma RetryAfterSettling<S>(b: ButtonState, s: S, g: Gateway,
                              handler: (S, Gateway) -> Run<S>)
    requires !Blocked(b, false)
    requires handler(s, g).completion != Suspended
    ensures var r := Press(b, false, s, g, handler);
            var again := Press(r.button, false, r.state, r.gateway, handler);
            && !Blocked(r.button, false)
            && again.gateway == handler(r.state, r.gateway).gateway
  {
  }
}
