/**
 * The two functions together: every record the webhook creates is a
 * document the processor finalises, and its mail goes back to the sender.
 */
module Pipeline {
  import opened Wrappers
  import opened JsStrings
  import opened Store
  import opened Fetch
  import opened Intake
  import opened Request
  import Urls

  /**
   * Since the URL parser rejects the empty string, each record created for
   * a known sender has a URL, so processing it writes exactly one update
   * and addresses every message to that sender.
   */
  lemma {:induction false} CreatedRecordsAreFinalised(
    configuredKey: Option<string>, req: Inbound, isKnown: string -> bool, valid: string -> bool,
    clock: nat -> Time, k: int, id: string, cfg: MailConfig, fetch: GotResult, toText: string -> string,
    digestSend: SendResult, noticeSend: SendResult, now: Time)
    requires !valid("")
    requires HandleCloudMailin(configuredKey, req, isKnown, valid, clock).batch.Some?
    requires 0 <= k < |HandleCloudMailin(configuredKey, req, isKnown, valid, clock).batch.value|
    ensures var record := HandleCloudMailin(configuredKey, req, isKnown, valid, clock).batch.value[k];
      var p := HandleRequest(id, Created(record), cfg, fetch, toText, digestSend, noticeSend, now);
      && p.update.Some? && p.update.value.completed == now
      && forall m :: 0 <= m < |p.attempted| ==> p.attempted[m].to == req.sender
  {
    var urls := Urls.FindUrls(req.plain, valid);
    var record := HandleCloudMailin(configuredKey, req, isKnown, valid, clock).batch.value[k];
    assert record == NewRecord(urls[k], req.sender.value, clock(k));
    assert valid(urls[k]);
    assert urls[k] != "";
    var doc := Created(record);
    assert Truthy(doc.url);
    var p := HandleRequest(id, doc, cfg, fetch, toText, digestSend, noticeSend, now);
    if HasText(fetch, toText) {
      DigestContents(id, doc, cfg, fetch, toText, digestSend, noticeSend, now);
    }
  }
}
