/**
 * `handleRequest`: what the processor sends and writes back for one
 * `requests` document. Every collaborator is a parameter: how the `got`
 * call settled (it is made with `throwHttpErrors: true`, so any response
 * that reaches the code is a success), the html-to-text conversion, and
 * whether each of the two `sendEmail` calls threw.
 */
module Request {
  import opened Wrappers
  import opened JsStrings
  import opened Store
  import opened Fetch
  import Title

  /** The configuration the messages use: `config.smtp.sender` and the address the notice is copied to. */
  datatype MailConfig = MailConfig(sender: string, noticeBcc: string)

  /** A message handed to `sendEmail`. */
  datatype Message = Message(from: string, to: Option<string>, bcc: Option<string>, subject: string, text: string)

  /** Whether a `sendEmail` call threw, and with what message. */
  datatype SendResult = Delivered | SendFailed(message: string)

  /**
   * The `updates` object written back: `success` and `completed` always,
   * `title` (possibly null) only on success, `error` only when something threw.
   */
  datatype Updates = Updates(success: bool, title: Field<Option<string>>, error: Field<string>, completed: Time)

  /** The processor's effects: the messages it tried to send, in order, and the update it wrote, if any. */
  datatype Processed = Processed(attempted: seq<Message>, update: Option<Updates>)

  /** The state the `try` block leaves: the digest it tried to send, and the fields of `updates` it set. */
  datatype Attempt = Attempt(digest: Option<Message>, success: bool, title: Field<Option<string>>, error: Field<string>)

  const NoticeSubject := "Oops..."

  /** The apology that opens the failure notice. */
  const NoticeGreeting := "Something went wrong processing your request. That's why we call it a prototype. We'll have a look."

  /** The digest: subject the title, or the final URL when the title is null or empty; body the URL, blank lines, then the text. */
  function Digest(cfg: MailConfig, to: Option<string>, title: Option<string>, finalUrl: string, text: string): Message {
    Message(cfg.sender, to, None, if Truthy(title) then title.value else finalUrl, finalUrl + "\r\n\r\n\r\n" + text)
  }

  /** How `${updates.error}` renders: the message, or `undefined` when no error was recorded. */
  function ErrorText(error: Field<string>): string {
    match error
    case Present(m) => m
    case Absent => "undefined"
  }

  /** The body of the failure notice: an apology, the request id, the URL and the error. */
  function NoticeText(id: string, url: string, error: Field<string>): string {
    NoticeGreeting + "\n\nRequest ID: " + id + "\nURL: " + url + "\n\n" + ErrorText(error) + "\n"
  }

  function Notice(cfg: MailConfig, id: string, doc: RequestDoc, error: Field<string>): Message
    requires doc.url.Some?
  {
    Message(cfg.sender, doc.email, Some(cfg.noticeBcc), NoticeSubject, NoticeText(id, doc.url.value, error))
  }

  /**
   * The `try` block: fetch, convert, send the digest; a throw at any step
   * records its message. The digest is attempted exactly when the page had
   * text, and success means it went out.
   */
  function TryDeliver(cfg: MailConfig, to: Option<string>, fetch: GotResult, toText: string -> string,
                      digestSend: SendResult): (a: Attempt)
    ensures a.digest.Some? <==> HasText(fetch, toText)
    ensures a.success <==> HasText(fetch, toText) && digestSend.Delivered?
    ensures a.success ==> a.title == Present(Title.HtmlToTitle(Some(fetch.body))) && a.error == Absent
    ensures !a.success ==> a.title == Absent
    ensures fetch.Rejected? ==> a.error == Present(fetch.message)
    ensures HasText(fetch, toText) && digestSend.SendFailed? ==> a.error == Present(digestSend.message)
    ensures fetch.Resolved? && !HasText(fetch, toText) ==> a.error == Absent
    ensures a.digest.Some? ==>
      var title := Title.HtmlToTitle(Some(fetch.body));
      a.digest.value == Message(cfg.sender, to, None, if Truthy(title) then title.value else fetch.url,
                                fetch.url + "\r\n\r\n\r\n" + toText(fetch.body))
  {
    match fetch
    case Rejected(m) => Attempt(None, false, Absent, Present(m))
    case Resolved(_, html, finalUrl) =>
      var title := if html != "" then Title.HtmlToTitle(Some(html)) else None;
      var text := if html != "" then Some(toText(html)) else None;
      if !Truthy(text) then Attempt(None, false, Absent, Absent)
      else
        var digest := Digest(cfg, to, title, finalUrl, text.value);
        match digestSend
        case Delivered => Attempt(Some(digest), true, Present(title), Absent)
        case SendFailed(m) => Attempt(Some(digest), false, Absent, Present(m))
  }

  /** The fetched page had text to send: the digest is attempted. */
  predicate HasText(fetch: GotResult, toText: string -> string) {
    fetch.Resolved? && fetch.body != "" && toText(fetch.body) != ""
  }

  /**
   * `handleRequest`. A document without a URL is left alone; any other
   * gets exactly one update, carrying `completed`, and the notice is
   * attempted, last, exactly when the update records no success.
   * `SuccessCondition`, `UpdateFields` and `DigestContents` say the rest.
   */
  function HandleRequest(id: string, doc: RequestDoc, cfg: MailConfig, fetch: GotResult,
                         toText: string -> string, digestSend: SendResult, noticeSend: SendResult,
                         now: Time): (r: Processed)
    ensures !Truthy(doc.url) ==> r.attempted == [] && r.update == None
    ensures Truthy(doc.url) ==> r.update.Some? && r.update.value.completed == now
    ensures Truthy(doc.url) && r.update.Some? && !r.update.value.success ==>
      r.attempted != [] && r.attempted[|r.attempted| - 1] == Notice(cfg, id, doc, r.update.value.error)
    ensures Truthy(doc.url) ==>
      (Notice(cfg, id, doc, r.update.value.error) in r.attempted <==> !r.update.value.success)
    ensures r.update.Some? ==>
      |r.attempted| == (if HasText(fetch, toText) then 1 else 0) + (if r.update.value.success then 0 else 1)
  {
    if !Truthy(doc.url) then Processed([], None)
    else
      var a := TryDeliver(cfg, doc.email, fetch, toText, digestSend);
      var digest := if a.digest.Some? then [a.digest.value] else [];
      // The notice's own failure is caught and only logged: `noticeSend` changes nothing.
      var notice := if a.success then [] else [Notice(cfg, id, doc, a.error)];
      Processed(digest + notice, Some(Updates(a.success, a.title, a.error, now)))
  }

  /** Success means exactly: the fetch returned, the page had text, and the digest went out. */
  lemma SuccessCondition(id: string, doc: RequestDoc, cfg: MailConfig, fetch: GotResult,
                         toText: string -> string, digestSend: SendResult, noticeSend: SendResult, now: Time)
    requires Truthy(doc.url)
    ensures var u := HandleRequest(id, doc, cfg, fetch, toText, digestSend, noticeSend, now).update.value;
      u.success <==> fetch.Resolved? && fetch.body != "" && toText(fetch.body) != "" && digestSend.Delivered?
  {
  }

  /**
   * The fields written: on success the title matched in the page (null
   * when there is none) and no error; on failure no title, and as error
   * the message of whatever threw, or nothing when only the text was empty.
   */
  lemma UpdateFields(id: string, doc: RequestDoc, cfg: MailConfig, fetch: GotResult,
                     toText: string -> string, digestSend: SendResult, noticeSend: SendResult, now: Time)
    requires Truthy(doc.url)
    ensures var u := HandleRequest(id, doc, cfg, fetch, toText, digestSend, noticeSend, now).update.value;
      && (u.success ==> u.title == Present(Title.HtmlToTitle(Some(fetch.body))) && u.error == Absent)
      && (!u.success ==> u.title == Absent)
      && (fetch.Rejected? ==> u.error == Present(fetch.message))
      && (HasText(fetch, toText) && digestSend.SendFailed? ==> u.error == Present(digestSend.message))
      && (fetch.Resolved? && !HasText(fetch, toText) ==> u.error == Absent)
  {
  }

  /**
   * The digest, attempted first and only when the page had text, goes to
   * the document's address with the page title as subject (the final URL
   * when the title is null or empty) and the final URL above the text.
   */
  lemma DigestContents(id: string, doc: RequestDoc, cfg: MailConfig, fetch: GotResult,
                       toText: string -> string, digestSend: SendResult, noticeSend: SendResult, now: Time)
    requires Truthy(doc.url)
    requires HasText(fetch, toText)
    ensures var r := HandleRequest(id, doc, cfg, fetch, toText, digestSend, noticeSend, now);
      var title := Title.HtmlToTitle(Some(fetch.body));
      r.attempted != [] && r.attempted[0] == Message(cfg.sender, doc.email, None,
                                if Truthy(title) then title.value else fetch.url,
                                fetch.url + "\r\n\r\n\r\n" + toText(fetch.body))
  {
  }

  /** A failed notice still finalises the document exactly as a delivered one does. */
  lemma NoticeFailureIsSwallowed(id: string, doc: RequestDoc, cfg: MailConfig, fetch: GotResult,
                                 toText: string -> string, digestSend: SendResult, n1: SendResult,
                                 n2: SendResult, now: Time)
    ensures HandleRequest(id, doc, cfg, fetch, toText, digestSend, n1, now)
         == HandleRequest(id, doc, cfg, fetch, toText, digestSend, n2, now)
  {
  }

  /**
   * Nothing guards against reprocessing: a document that already carries
   * `completed` is fetched, mailed and overwritten just like a fresh one.
   */
  lemma NoCompletedGuard(id: string, doc: RequestDoc, cfg: MailConfig, fetch: GotResult,
                         toText: string -> string, digestSend: SendResult, noticeSend: SendResult,
                         earlier: Time, now: Time)
    ensures HandleRequest(id, doc.(completed := Some(earlier)), cfg, fetch, toText, digestSend, noticeSend, now)
         == HandleRequest(id, doc.(completed := None), cfg, fetch, toText, digestSend, noticeSend, now)
  {
  }

  /**
   * A page whose text comes out empty fails without an `error` field, and
   * the notice reports the error as `undefined`.
   */
  lemma EmptyTextFailsSilently(id: string, doc: RequestDoc, cfg: MailConfig, status: int, html: string,
                               finalUrl: string, toText: string -> string, digestSend: SendResult,
                               noticeSend: SendResult, now: Time)
    requires Truthy(doc.url)
    requires html == "" || toText(html) == ""
    ensures var r := HandleRequest(id, doc, cfg, Resolved(status, html, finalUrl), toText, digestSend, noticeSend, now);
      && r.update == Some(Updates(false, Absent, Absent, now))
      && r.attempted == [Notice(cfg, id, doc, Absent)]
      && ErrorText(Absent) == "undefined"
  {
  }
}
