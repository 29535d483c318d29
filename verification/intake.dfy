/**
 * The CloudMailin webhook: `validateCloudMailin` and the decision part of
 * `handleCloudMailin`. The Firestore lookup of a sender is the parameter
 * `isKnown`; the batch write is returned rather than performed.
 */
module Intake {
  import opened Wrappers
  import opened JsStrings
  import Urls
  import opened Store

  /** What the handler reads from the webhook call: `req.query.key`, `req.body.envelope.from`, `req.body.plain`. */
  datatype Inbound = Inbound(queryKey: Option<string>, sender: Option<string>, plain: Option<string>)

  /**
   * The handler's effects: the HTTP status sent, the `emails` document
   * looked up (if any), and the batch committed (if any).
   */
  datatype Reply = Reply(status: int, lookedUp: Option<string>, batch: Option<seq<NewRecord>>)

  /**
   * `validateCloudMailin`: with no configured key (missing or empty) every
   * call passes; with one, exactly the calls whose `key` query parameter
   * equals it pass.
   */
  function ValidateCloudMailin(configuredKey: Option<string>, queryKey: Option<string>): (ok: bool)
    ensures !Truthy(configuredKey) ==> ok
    ensures Truthy(configuredKey) ==> (ok <==> queryKey.Some? && queryKey.value == configuredKey.value)
  {
    if Truthy(configuredKey) then queryKey == configuredKey else true
  }

  /**
   * One record per URL, in order, all for `email`. The loop reads the clock
   * once per record: `clock(k)` is what `new Date()` returns on its k-th pass.
   */
  function RecordsFor(urls: seq<string>, email: string, clock: nat -> Time): (records: seq<NewRecord>)
    ensures |records| == |urls|
    ensures forall k :: 0 <= k < |urls| ==> records[k] == NewRecord(urls[k], email, clock(k))
  {
    seq(|urls|, k requires 0 <= k < |urls| => NewRecord(urls[k], email, clock(k)))
  }

  /**
   * `handleCloudMailin`: a bad key is refused with 403 before anything is
   * read or written; otherwise the answer is 200, a non-empty sender is
   * looked up, and a known sender gets one record per URL of the body.
   */
  function HandleCloudMailin(configuredKey: Option<string>, req: Inbound, isKnown: string -> bool,
                             valid: string -> bool, clock: nat -> Time): (r: Reply)
    ensures r.status == 403 <==> !ValidateCloudMailin(configuredKey, req.queryKey)
    ensures r.status != 403 ==> r.status == 200
    ensures r.status == 403 ==> r.lookedUp == None && r.batch == None
    ensures r.status == 200 ==> r.lookedUp == (if Truthy(req.sender) then req.sender else None)
    ensures r.batch.Some? <==> r.status == 200 && Truthy(req.sender) && isKnown(req.sender.value)
    ensures r.batch.Some? ==>
      var urls := Urls.FindUrls(req.plain, valid);
      && |r.batch.value| == |urls|
      && forall k :: 0 <= k < |urls| ==> r.batch.value[k] == NewRecord(urls[k], req.sender.value, clock(k))
  {
    if !ValidateCloudMailin(configuredKey, req.queryKey) then
      Reply(403, None, None)
    else if !Truthy(req.sender) then
      Reply(200, None, None)
    else
      var email := req.sender.value;
      if isKnown(email) then
        Reply(200, Some(email), Some(RecordsFor(Urls.FindUrls(req.plain, valid), email, clock)))
      else
        Reply(200, Some(email), None)
  }

  /** A sender missing from the registry is answered 200 and creates nothing. */
  lemma UnknownSenderCreatesNothing(configuredKey: Option<string>, req: Inbound, isKnown: string -> bool,
                                    valid: string -> bool, clock: nat -> Time)
    requires ValidateCloudMailin(configuredKey, req.queryKey)
    requires !Truthy(req.sender) || !isKnown(req.sender.value)
    ensures var r := HandleCloudMailin(configuredKey, req, isKnown, valid, clock);
            r.status == 200 && r.batch == None
  {
  }

  /**
   * A known sender whose body is a single URL line (no surrounding
   * whitespace, no line break) gets exactly one record for that URL.
   */
  lemma SingleUrlMessage(configuredKey: Option<string>, key: Option<string>, sender: string, u: string,
                         isKnown: string -> bool, valid: string -> bool, clock: nat -> Time)
    requires ValidateCloudMailin(configuredKey, key)
    requires sender != "" && isKnown(sender)
    requires u != "" && '\r' !in u && IsTrimmed(u) && valid(u)
    ensures HandleCloudMailin(configuredKey, Inbound(key, Some(sender), Some(u)), isKnown, valid, clock)
         == Reply(200, Some(sender), Some([NewRecord(u, sender, clock(0))]))
  {
    Urls.NoCrNoCrlf(u);
    assert JoinCrlf([u]) == u;
    Urls.TrimmedLinesOfJoin([u]);
    assert [u][1..] == [];
    assert Urls.FindUrls(Some(u), valid) == [u];
    assert RecordsFor([u], sender, clock) == [NewRecord(u, sender, clock(0))];
  }

  /** The single-URL case for the address `https://x.example`. */
  lemma {:induction false} ExampleSingleUrl(key: Option<string>, sender: string, isKnown: string -> bool,
                         valid: string -> bool, clock: nat -> Time)
    requires sender != "" && isKnown(sender)
    requires valid("https://x.example")
    ensures HandleCloudMailin(None, Inbound(key, Some(sender), Some("https://x.example")), isKnown, valid, clock)
         == Reply(200, Some(sender), Some([NewRecord("https://x.example", sender, clock(0))]))
  {
    SingleUrlMessage(None, key, sender, "https://x.example", isKnown, valid, clock);
  }
}
