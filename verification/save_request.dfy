/** The save/publish request built by the editor's save handler and the message
    shown when the request fails (public/assets/js/source/process-save.js). */
module SaveRequest {
  import Shortcode

  const PublishClass := "lasso-publish-post"
  const ShortcodifyClass := "shortcodify-enabled"
  const PublishAction := "process_save_publish-content"
  const SaveAction := "process_save_content"

  /** The clicked control, known by its classes. */
  datatype Trigger = Trigger(classes: set<string>)

  /** The fields posted to the AJAX endpoint. */
  datatype Payload = Payload(action: string, author: string, content: string, postId: string, nonce: string)

  /** The payload gathered on click. `parsed` is what the HTML parser returns
      for `html`; it is only used when the trigger asks for shortcodes. */
  function BuildPayload(trigger: Trigger, html: string, parsed: seq<Shortcode.Node>,
                        author: string, postId: string, nonce: string): (p: Payload)
    ensures p.action == PublishAction <==> PublishClass in trigger.classes
    ensures p.action == SaveAction <==> PublishClass !in trigger.classes
    ensures ShortcodifyClass in trigger.classes ==> p.content == Shortcode.Serialize(parsed)
    ensures ShortcodifyClass !in trigger.classes ==> p.content == html
    ensures p.author == author && p.postId == postId && p.nonce == nonce
  {
    Payload(
      if PublishClass in trigger.classes then PublishAction else SaveAction,
      author,
      if ShortcodifyClass in trigger.classes then Shortcode.Serialize(parsed) else html,
      postId,
      nonce)
  }

  /** The requests that leave the browser after one click. A publish trigger
      sends only from the confirm dialog's callback, which runs only when the
      user confirms; any other trigger sends at once. */
  function RequestsSent(trigger: Trigger, payload: Payload, confirmed: bool): (sent: seq<Payload>)
    ensures |sent| <= 1
    ensures |sent| == 1 ==> sent[0] == payload
    ensures |sent| == 1 <==> PublishClass !in trigger.classes || confirmed
  {
    if PublishClass in trigger.classes then
      if confirmed then [payload] else []
    else [payload]
  }

  // ---------------------------------------------------------------------------
  // EditusFormatAJAXErrorMessage

  /** The failure categories the message distinguishes. */
  datatype AjaxFailure =
    | NotConnected
    | NotFound
    | ServerError
    | ParseFailed
    | TimedOut
    | Aborted
    | Uncaught(responseText: string)

  predicate KnownStatus(status: int) {
    status == 0 || status == 404 || status == 500
  }

  predicate KnownException(exception: string) {
    exception == "parsererror" || exception == "timeout" || exception == "abort"
  }

  /** The ordered case split: the status is consulted first (0, 404, 500),
      then the exception text (parsererror, timeout, abort). */
  function Classify(status: int, exception: string, responseText: string): (r: AjaxFailure)
    ensures r == NotConnected <==> status == 0
    ensures r == NotFound <==> status == 404
    ensures r == ServerError <==> status == 500
    ensures r == ParseFailed <==> !KnownStatus(status) && exception == "parsererror"
    ensures r == TimedOut <==> !KnownStatus(status) && exception == "timeout"
    ensures r == Aborted <==> !KnownStatus(status) && exception == "abort"
    ensures r.Uncaught? <==> !KnownStatus(status) && !KnownException(exception)
    ensures r.Uncaught? ==> r.responseText == responseText
  {
    if status == 0 then NotConnected
    else if status == 404 then NotFound
    else if status == 500 then ServerError
    else if exception == "parsererror" then ParseFailed
    else if exception == "timeout" then TimedOut
    else if exception == "abort" then Aborted
    else Uncaught(responseText)
  }

  const UncaughtPrefix := "AJAX Error: Uncaught Error.\n"

  function Message(f: AjaxFailure): string {
    match f
    case NotConnected => "AJAX Error: Not connected." + "\nPlease verify your network connection."
    case NotFound => "AJAX Error: The requested page not found. [404]"
    case ServerError => "AJAX Error: Internal Server Error [500]."
    case ParseFailed => "AJAX Error: Requested JSON parse failed."
    case TimedOut => "AJAX Error: Time out error."
    case Aborted => "AJAX Error: Ajax request aborted."
    case Uncaught(text) => UncaughtPrefix + text
  }

  /** The alert text: the category it is read back as is the one the status
      and exception select. */
  function FormatAjaxErrorMessage(status: int, exception: string, responseText: string): (r: string)
    ensures MessageCategory(r) == Classify(status, exception, responseText)
  {
    var f := Classify(status, exception, responseText);
    MessageRoundTrip(f);
    Message(f)
  }

  /** Reads the category back from a message: one of the six fixed texts, or
      else the uncaught-error prefix followed by the response text. */
  function MessageCategory(msg: string): AjaxFailure {
    if msg == Message(NotConnected) then NotConnected
    else if msg == Message(NotFound) then NotFound
    else if msg == Message(ServerError) then ServerError
    else if msg == Message(ParseFailed) then ParseFailed
    else if msg == Message(TimedOut) then TimedOut
    else if msg == Message(Aborted) then Aborted
    else Uncaught(if |msg| >= |UncaughtPrefix| then msg[|UncaughtPrefix|..] else "")
  }

  /** No uncaught-error message coincides with one of the fixed texts: they
      differ at the thirteenth character. */
  lemma UncaughtNotFixed(text: string, f: AjaxFailure)
    requires !f.Uncaught?
    ensures Message(Uncaught(text)) != Message(f)
  {
    assert Message(Uncaught(text))[12] == 'U';
    match f
    case NotConnected => assert Message(f)[12] == 'N';
    case NotFound => assert Message(f)[12] == 'T';
    case ServerError => assert Message(f)[12] == 'I';
    case ParseFailed => assert Message(f)[12] == 'R';
    case TimedOut => assert Message(f)[12] == 'T';
    case Aborted => assert Message(f)[12] == 'A';
  }

  lemma UncaughtRoundTrip(text: string)
    ensures MessageCategory(Message(Uncaught(text))) == Uncaught(text)
  {
    var m := Message(Uncaught(text));
    UncaughtNotFixed(text, NotConnected);
    UncaughtNotFixed(text, NotFound);
    UncaughtNotFixed(text, ServerError);
    UncaughtNotFixed(text, ParseFailed);
    UncaughtNotFixed(text, TimedOut);
    UncaughtNotFixed(text, Aborted);
    assert m[|UncaughtPrefix|..] == text;
  }

  // The fixed texts late in the lookup are read back one lemma each, so that
  // each proof compares one text with the texts before it.

  lemma ParseFailedRoundTrip()
    ensures MessageCategory(Message(ParseFailed)) == ParseFailed
  {
  }

  lemma TimedOutRoundTrip()
    ensures MessageCategory(Message(TimedOut)) == TimedOut
  {
  }

  lemma AbortedRoundTrip()
    ensures MessageCategory(Message(Aborted)) == Aborted
  {
  }

  lemma MessageRoundTrip(f: AjaxFailure)
    ensures MessageCategory(Message(f)) == f
  {
    match f
    case Uncaught(text) => UncaughtRoundTrip(text);
    case ParseFailed => ParseFailedRoundTrip();
    case TimedOut => TimedOutRoundTrip();
    case Aborted => AbortedRoundTrip();
    case _ =>
  }

  /** Exactly one message comes out, and distinct categories give distinct messages. */
  lemma MessagesDistinct(f: AjaxFailure, g: AjaxFailure)
    ensures Message(f) == Message(g) <==> f == g
  {
    MessageRoundTrip(f);
    MessageRoundTrip(g);
  }

  /** Status takes precedence: for 0, 404 and 500 the exception text and the
      response text do not matter. */
  lemma StatusDecidesFirst(status: int, e1: string, e2: string, t1: string, t2: string)
    requires status == 0 || status == 404 || status == 500
    ensures FormatAjaxErrorMessage(status, e1, t1) == FormatAjaxErrorMessage(status, e2, t2)
    ensures FormatAjaxErrorMessage(status, e1, t1) != Message(Uncaught(t1))
  {
    MessagesDistinct(Classify(status, e1, t1), Uncaught(t1));
  }

  /** For any other status the message depends on the exception alone, and the
      response text is shown only when the exception is none of the three known ones. */
  lemma ExceptionDecidesOtherwise(s1: int, s2: int, e: string, t: string)
    requires s1 != 0 && s1 != 404 && s1 != 500
    requires s2 != 0 && s2 != 404 && s2 != 500
    ensures FormatAjaxErrorMessage(s1, e, t) == FormatAjaxErrorMessage(s2, e, t)
    ensures FormatAjaxErrorMessage(s1, e, t) == UncaughtPrefix + t
        <==> e != "parsererror" && e != "timeout" && e != "abort"
  {
    MessagesDistinct(Classify(s1, e, t), Uncaught(t));
  }
}
