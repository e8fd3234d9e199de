/**
 * The 'Me' screen: the assistant chat, whose transcript only grows, and the
 * symptom report download with its loading flag. The report download itself
 * (`downloadSymptomPdf`) is modelled by how it ends.
 */
module Settings {
  import opened Wrappers
  import opened Strings
  import opened Api
  import opened Storage
  import Auth

  datatype Role = User | Assistant

  datatype ChatMessage = ChatMessage(role: Role, text: string)

  /** Who speaks at position `i` of the transcript: the user at even positions, the assistant at odd ones. */
  function RoleAt(i: nat): Role {
    if i % 2 == 0 then User else Assistant
  }

  /** The transcript alternates: each message has the role due at its position. */
  predicate Alternates(messages: seq<ChatMessage>) {
    messages == []
    || (Alternates(messages[..|messages| - 1]) && messages[|messages| - 1].role == RoleAt(|messages| - 1))
  }

  /** A message with the role due at the end keeps the transcript alternating. */
  lemma AlternatesAppend(messages: seq<ChatMessage>, m: ChatMessage)
    requires Alternates(messages) && m.role == RoleAt(|messages|)
    ensures Alternates(messages + [m])
  {
    assert (messages + [m])[..|messages|] == messages;
  }

  /** In an alternating transcript every message has the role of its position. */
  lemma {:induction false} AlternatesAt(messages: seq<ChatMessage>, i: nat)
    requires Alternates(messages) && i < |messages|
    ensures messages[i].role == RoleAt(i)
  {
    if i < |messages| - 1 {
      AlternatesAt(messages[..|messages| - 1], i);
    }
  }

  /** The text of the assistant's answer: the reply, or the error shown as 'Error: …'. */
  function AnswerText(outcome: Response<Option<string>>): (t: string)
    ensures outcome.Ok? && outcome.data.Some? ==> t == outcome.data.value
    ensures outcome.Ok? && outcome.data.None? ==> t == "No reply."
    ensures outcome.Err? ==> t == "Error: " + ErrorText(outcome.error, "Something went wrong.")
  {
    match outcome
    case Ok(reply) => reply.GetOr("No reply.")
    case Err(e) => "Error: " + ErrorText(e, "Something went wrong.")
  }

  const NotAuthenticated: string := "Not authenticated. Please complete onboarding."

  /**
   * How the report request ends once it is made: the file arrives, the
   * server answers with a status outside 200..299 and a body, or the request
   * or the file step rejects with a message (empty when it has none).
   */
  datatype PdfOutcome = Downloaded | HttpError(status: int, body: string) | Rejected(message: string)

  /**
   * `downloadSymptomPdf()` once the token has been read: the message it
   * rejects with, or None when the file was saved. A missing or empty token
   * rejects without a request; a 404 and other statuses have their own
   * defaults for an empty body.
   */
  function DownloadRejection(token: Option<string>, outcome: PdfOutcome): (r: Option<string>)
    ensures !Auth.Truthy(token) ==> r == Some(NotAuthenticated)
    ensures Auth.Truthy(token) ==> (r.None? <==> outcome.Downloaded?)
    ensures Auth.Truthy(token) && outcome.HttpError? ==>
      r == Some(if outcome.body != "" then outcome.body
                else if outcome.status == 404 then "No symptom logs to export."
                else "Could not download PDF.")
    ensures Auth.Truthy(token) && outcome.Rejected? ==> r == Some(outcome.message)
  {
    if !Auth.Truthy(token) then Some(NotAuthenticated)
    else match outcome
      case Downloaded => None
      case HttpError(status, body) =>
        if status == 404 then Some(if body != "" then body else "No symptom logs to export.")
        else Some(if body != "" then body else "Could not download PDF.")
      case Rejected(message) => Some(message)
  }

  /** `err?.message || 'Download failed'`. */
  function ShownPdfError(message: string): (r: string)
    ensures r != ""
    ensures message != "" ==> r == message
    ensures message == "" ==> r == "Download failed"
  {
    if message != "" then message else "Download failed"
  }

  /** The PDF flags once the click has played out, with no throw while reading the token. */
  function PdfSettled(token: Option<string>, outcome: PdfOutcome): (bool, Option<string>) {
    match DownloadRejection(token, outcome)
    case None => (false, None)
    case Some(m) => (false, Some(ShownPdfError(m)))
  }

  /**
   * The PDF flags (`pdfLoading`, `pdfError`) after `handlePdfClick` as
   * written: `downloadSymptomPdf` reads the token before it returns a
   * promise, so a throwing read escapes the click handler before `.catch`
   * and `.finally` are attached, and `pdfLoading` keeps the true it was
   * just given.
   */
  function PdfAfterClick(readFails: bool, token: Option<string>, outcome: PdfOutcome): (bool, Option<string>) {
    if readFails then (true, None) else PdfSettled(token, outcome)
  }

  /**
   * The PDF flags with the throwing read handled like any other failure of
   * the download: its message is shown and loading ends.
   */
  function PdfAfterClickHandled(readFails: bool, thrownMessage: string, token: Option<string>, outcome: PdfOutcome): (bool, Option<string>) {
    if readFails then (false, Some(ShownPdfError(thrownMessage))) else PdfSettled(token, outcome)
  }

  class SettingsPage {
    var message: string
    var messages: seq<ChatMessage>
    var loading: bool
    var error: Option<string>
    var pdfLoading: bool
    var pdfError: Option<string>

    /** A request is pending exactly when the transcript ends with a user message. */
    predicate Valid()
      reads this
    {
      Alternates(messages) && (loading <==> |messages| % 2 == 1)
    }

    constructor ()
      ensures message == "" && messages == [] && !loading && error == None
      ensures !pdfLoading && pdfError == None
      ensures Valid()
    {
      message, messages, loading, error := "", [], false, None;
      pdfLoading, pdfError := false, None;
    }

    /**
     * The first half of `handleSend`: a blank message or a send while a reply
     * is pending changes nothing; otherwise the trimmed text is appended as a
     * user message, the input is cleared, loading starts and the error is
     * cleared. `sent` is the text posted to the assistant.
     */
    method Send() returns (sent: Option<string>)
      requires Valid()
      modifies this
      ensures Valid()
      ensures old(Trim(message)) == [] || old(loading) <==> sent == None
      ensures sent == None ==>
        message == old(message) && messages == old(messages) && loading == old(loading) && error == old(error)
      ensures sent.Some? ==>
        sent.value == old(Trim(message))
        && messages == old(messages) + [ChatMessage(User, sent.value)]
        && message == "" && loading && error == None
      ensures pdfLoading == old(pdfLoading) && pdfError == old(pdfError)
    {
      var text := Trim(message);
      if text == [] || loading {
        return None;
      }
      AlternatesAppend(messages, ChatMessage(User, text));
      message := "";
      messages := messages + [ChatMessage(User, text)];
      loading := true;
      error := None;
      sent := Some(text);
    }

    /**
     * The second half of `handleSend`, once `POST /assistant` settles: one
     * assistant message with the reply or the error, the error shown on
     * failure, and loading ends either way.
     */
    method SettleSend(outcome: Response<Option<string>>)
      requires Valid() && loading
      modifies this
      ensures Valid()
      ensures messages == old(messages) + [ChatMessage(Assistant, AnswerText(outcome))]
      ensures !loading
      ensures error == if outcome.Err? then Some(ErrorText(outcome.error, "Something went wrong.")) else old(error)
      ensures message == old(message) && pdfLoading == old(pdfLoading) && pdfError == old(pdfError)
    {
      match outcome {
        case Ok(reply) =>
          AlternatesAppend(messages, ChatMessage(Assistant, reply.GetOr("No reply.")));
          messages := messages + [ChatMessage(Assistant, reply.GetOr("No reply."))];
        case Err(e) =>
          var msg := ErrorText(e, "Something went wrong.");
          AlternatesAppend(messages, ChatMessage(Assistant, "Error: " + msg));
          error := Some(msg);
          messages := messages + [ChatMessage(Assistant, "Error: " + msg)];
      }
      loading := false;
    }

    /**
     * `handlePdfClick` as written, played out to the end: `threw` when the
     * token read throws out of the handler, after which nothing resets
     * `pdfLoading`.
     */
    method HandlePdfClick(store: KeyValueStore, readFails: bool, outcome: PdfOutcome) returns (threw: bool)
      modifies this
      ensures threw == readFails
      ensures (pdfLoading, pdfError) == PdfAfterClick(readFails, Lookup(store.entries, Auth.TokenKey), outcome)
      ensures message == old(message) && messages == old(messages) && loading == old(loading) && error == old(error)
    {
      pdfError := None;
      pdfLoading := true;
      var token: Option<string>;
      threw, token := store.GetItem(Auth.TokenKey, readFails);
      if threw {
        return;
      }
      var rejection := DownloadRejection(token, outcome);
      if rejection.Some? {
        pdfError := Some(ShownPdfError(rejection.value));
      }
      pdfLoading := false;
    }

    /** `handlePdfClick` with the token read's throw caught and shown like a rejection. */
    method HandlePdfClickHandled(store: KeyValueStore, readFails: bool, thrownMessage: string, outcome: PdfOutcome)
      modifies this
      ensures (pdfLoading, pdfError) == PdfAfterClickHandled(readFails, thrownMessage, Lookup(store.entries, Auth.TokenKey), outcome)
      ensures !pdfLoading
      ensures message == old(message) && messages == old(messages) && loading == old(loading) && error == old(error)
    {
      pdfError := None;
      pdfLoading := true;
      var threw, token := store.GetItem(Auth.TokenKey, readFails);
      var rejection := if threw then Some(thrownMessage) else DownloadRejection(token, outcome);
      if rejection.Some? {
        pdfError := Some(ShownPdfError(rejection.value));
      }
      pdfLoading := false;
      PdfHandledSettles(readFails, thrownMessage, token, outcome);
    }
  }

  /**
   * As written, a throwing token read leaves the download button disabled
   * with no error shown, whatever the rest of the download would have done.
   */
  lemma PdfStuckAfterThrowingRead(token: Option<string>, outcome: PdfOutcome)
    ensures PdfAfterClick(true, token, outcome) == (true, None)
  {
  }

  /**
   * With the throw handled, loading always ends, and no error is shown
   * exactly when the token was read, usable, and the file arrived.
   */
  lemma PdfHandledSettles(readFails: bool, thrownMessage: string, token: Option<string>, outcome: PdfOutcome)
    ensures !PdfAfterClickHandled(readFails, thrownMessage, token, outcome).0
    ensures PdfAfterClickHandled(readFails, thrownMessage, token, outcome).1 == None
      <==> !readFails && Auth.Truthy(token) && outcome.Downloaded?
    ensures !readFails ==> PdfAfterClickHandled(readFails, thrownMessage, token, outcome) == PdfAfterClick(readFails, token, outcome)
  {
  }

  /** After a working logout the download is refused as unauthenticated, without a request. */
  lemma LogoutBlocksDownload(entries: map<string, string>, outcome: PdfOutcome)
    ensures PdfAfterClick(false, Lookup(Auth.StoredAfter(entries, None, false), Auth.TokenKey), outcome)
      == (false, Some(NotAuthenticated))
  {
  }

  /** Each settled request adds one user message and one reply: the transcript grows by two. */
  lemma ExchangeGrows(messages: seq<ChatMessage>, text: string, outcome: Response<Option<string>>)
    requires Alternates(messages) && |messages| % 2 == 0
    ensures var after := messages + [ChatMessage(User, text)] + [ChatMessage(Assistant, AnswerText(outcome))];
      Alternates(after) && |after| % 2 == 0 && after[..|messages|] == messages
  {
    AlternatesAppend(messages, ChatMessage(User, text));
    AlternatesAppend(messages + [ChatMessage(User, text)], ChatMessage(Assistant, AnswerText(outcome)));
  }
}
