/**
 * Fetching an eBay inventory item: the request that `get_ebay_product` sends
 * and the way it classifies the decoded reply. A reply carrying a known eBay
 * error code becomes ItemNotFoundError or AuthenticationError; any other
 * reply is handed back to the caller as it is. The HTTP call itself is not
 * modelled: the decoded reply is an input.
 */
module EbayInventory {
  import opened Documents
  import Results

  const InventoryItemUrlPrefix := "https://api.ebay.com/sell/inventory/v1/inventory_item/"
  const BearerPrefix := "Bearer "

  /** eBay error codes that the classification recognises. */
  const SkuNotFound := 25702
  const InvalidAccessToken := 1001
  const MissingAccessToken := 1002
  const AccessDenied := 1100

  /** The request sent for one SKU: its URL and its HTTP headers. */
  datatype Request = Request(url: string, headers: map<string, string>)

  /** The URL of the inventory item with the given SKU. */
  function InventoryItemUrl(sku: string): (url: string)
    ensures InventoryItemUrlPrefix <= url
    ensures url[|InventoryItemUrlPrefix|..] == sku
  {
    InventoryItemUrlPrefix + sku
  }

  /** The SKU an inventory-item URL names, if it is one. */
  function SkuOfUrl(url: string): (r: Results.Option<string>)
    ensures r.Some? <==> InventoryItemUrlPrefix <= url
    ensures r.Some? ==> InventoryItemUrl(r.value) == url
  {
    if InventoryItemUrlPrefix <= url then Results.Some(url[|InventoryItemUrlPrefix|..]) else Results.None
  }

  /** The headers that authenticate a request with a bearer token. */
  function AuthHeaders(token: string): (h: map<string, string>)
    ensures h.Keys == {"Authorization"}
    ensures BearerPrefix <= h["Authorization"]
    ensures h["Authorization"][|BearerPrefix|..] == token
  {
    map["Authorization" := BearerPrefix + token]
  }

  /** The bearer token carried by a set of headers, if any. */
  function TokenOfHeaders(h: map<string, string>): (r: Results.Option<string>)
    ensures r.Some? <==> "Authorization" in h && BearerPrefix <= h["Authorization"]
    ensures r.Some? && h.Keys == {"Authorization"} ==> AuthHeaders(r.value) == h
  {
    if "Authorization" in h && BearerPrefix <= h["Authorization"] then
      var token := h["Authorization"][|BearerPrefix|..];
      assert BearerPrefix + token == h["Authorization"];
      assert h.Keys == {"Authorization"} ==> AuthHeaders(token) == h;
      Results.Some(token)
    else
      Results.None
  }

  function EbayRequest(token: string, sku: string): Request {
    Request(InventoryItemUrl(sku), AuthHeaders(token))
  }

  /** The request determines the SKU and the token it was built from. */
  lemma EbayRequestInverts(token: string, sku: string)
    ensures SkuOfUrl(EbayRequest(token, sku).url) == Results.Some(sku)
    ensures TokenOfHeaders(EbayRequest(token, sku).headers) == Results.Some(token)
  {
  }

  /** Python errors the classification can raise on a reply it does not expect. */
  datatype PyError = KeyError(key: string) | TypeError

  /** What `get_ebay_product` does with a decoded reply: return it, or raise. */
  datatype Outcome =
    | Ok(reply: Json)
    | ItemNotFoundError(message: Json)
    | AuthenticationError(message: Json)
    | Raised(error: PyError)

  predicate IsNotFoundCode(id: Json) {
    id == JInt(SkuNotFound)
  }

  predicate IsAuthCode(id: Json) {
    id == JInt(InvalidAccessToken) || id == JInt(MissingAccessToken) || id == JInt(AccessDenied)
  }

  /** An entry of the `errors` list that the loop passes over: a mapping whose `errorId` is not in the table. */
  predicate Skipped(e: Json) {
    && e.JObject?
    && "errorId" in e.fields
    && !IsNotFoundCode(e.fields["errorId"])
    && !IsAuthCode(e.fields["errorId"])
  }

  predicate AllSkipped(es: seq<Json>) {
    forall j :: 0 <= j < |es| ==> Skipped(es[j])
  }

  /** Entry `e` has a known code and a message, and `o` is the error that code raises, carrying that message. */
  predicate RaisedBy(e: Json, o: Outcome) {
    && e.JObject? && "errorId" in e.fields && "message" in e.fields
    && (o.ItemNotFoundError? || o.AuthenticationError?)
    && e.fields["message"] == o.message
    && (o.ItemNotFoundError? <==> IsNotFoundCode(e.fields["errorId"]))
    && (o.AuthenticationError? <==> IsAuthCode(e.fields["errorId"]))
  }

  /** One pass of the loop body: `None` moves on to the next entry, `Some(o)` ends the call with `o`. */
  function EntryOutcome(e: Json): Results.Option<Outcome> {
    if !e.JObject? then Results.Some(Raised(TypeError))
    else if "errorId" !in e.fields then Results.Some(Raised(KeyError("errorId")))
    else
      var id := e.fields["errorId"];
      if IsNotFoundCode(id) then
        Results.Some(if "message" in e.fields then ItemNotFoundError(e.fields["message"]) else Raised(KeyError("message")))
      else if IsAuthCode(id) then
        Results.Some(if "message" in e.fields then AuthenticationError(e.fields["message"]) else Raised(KeyError("message")))
      else
        Results.None
  }

  /** The loop over a list of error entries; falling off the end returns the whole reply. */
  function ScanEntries(reply: Json, es: seq<Json>): (r: Outcome)
    ensures r.Ok? ==> r.reply == reply
  {
    if es == [] then Ok(reply)
    else
      match EntryOutcome(es[0])
      case None => ScanEntries(reply, es[1..])
      case Some(o) => o
  }

  /** `for e in errors` where `errors` is whatever the reply holds under that key. */
  function ScanErrors(reply: Json, errors: Json): Outcome {
    match errors
    case JArray(es) => ScanEntries(reply, es)
    // iterating a mapping yields its keys, and a key (a string) cannot be indexed by 'errorId'
    case JObject(keys) => if keys == map[] then Ok(reply) else Raised(TypeError)
    // iterating a string yields one-character strings, which cannot be indexed by 'errorId'
    case JStr(s) => if s == "" then Ok(reply) else Raised(TypeError)
    case _ => Raised(TypeError)
  }

  /** The classification of a decoded reply, following Python's meaning of `'errors' in j` and `j['errors']`. */
  function Classify(reply: Json): (r: Outcome)
    ensures r.Ok? ==> r.reply == reply
    ensures reply.JObject? && "errors" !in reply.fields ==> r == Ok(reply)
    ensures r.ItemNotFoundError? || r.AuthenticationError? ==>
      reply.JObject? && "errors" in reply.fields && reply.fields["errors"].JArray?
  {
    match reply
    case JObject(f) => if "errors" in f then ScanErrors(reply, f["errors"]) else Ok(reply)
    case JArray(items) => if JStr("errors") in items then Raised(TypeError) else Ok(reply)
    case JStr(s) => if HasSubstring(s, "errors") then Raised(TypeError) else Ok(reply)
    case _ => Raised(TypeError)
  }

  /**
   * The classification as the source runs it: test for an `errors` key, walk
   * the list in order and stop at the first entry whose code is in the table.
   */
  method ClassifyReply(reply: Json) returns (o: Outcome)
    ensures o == Classify(reply)
    ensures reply.JObject? && "errors" !in reply.fields ==> o == Ok(reply)
  {
    if !reply.JObject? {
      match reply {
        case JArray(items) => o := if JStr("errors") in items then Raised(TypeError) else Ok(reply);
        case JStr(s) => o := if HasSubstring(s, "errors") then Raised(TypeError) else Ok(reply);
        case _ => o := Raised(TypeError);
      }
      return;
    }
    if "errors" !in reply.fields {
      return Ok(reply);
    }
    var errors := reply.fields["errors"];
    if !errors.JArray? {
      o := ScanErrors(reply, errors);
      return;
    }
    var es := errors.items;
    var i := 0;
    while i < |es|
      invariant 0 <= i <= |es|
      invariant ScanEntries(reply, es[i..]) == Classify(reply)
    {
      var e := es[i];
      if !e.JObject? {
        return Raised(TypeError);
      }
      if "errorId" !in e.fields {
        return Raised(KeyError("errorId"));
      }
      var id := e.fields["errorId"];
      if id == JInt(SkuNotFound) {
        if "message" !in e.fields {
          return Raised(KeyError("message"));
        }
        return ItemNotFoundError(e.fields["message"]);
      } else if id == JInt(InvalidAccessToken) || id == JInt(MissingAccessToken) || id == JInt(AccessDenied) {
        if "message" !in e.fields {
          return Raised(KeyError("message"));
        }
        return AuthenticationError(e.fields["message"]);
      }
      assert es[i..][1..] == es[i + 1..];
      i := i + 1;
    }
    return Ok(reply);
  }

  /** A list whose every entry is passed over yields the reply itself. */
  lemma {:induction false} ScanSkipsUnrecognised(reply: Json, es: seq<Json>)
    requires AllSkipped(es)
    ensures ScanEntries(reply, es) == Ok(reply)
  {
    if es != [] {
      ScanSkipsUnrecognised(reply, es[1..]);
    }
  }

  /** The first entry that is not passed over decides the outcome; no later entry is looked at. */
  lemma {:induction false} ScanStopsAtFirstRecognised(reply: Json, es: seq<Json>, i: nat)
    requires i < |es| && AllSkipped(es[..i]) && !Skipped(es[i])
    ensures EntryOutcome(es[i]).Some?
    ensures ScanEntries(reply, es) == EntryOutcome(es[i]).value
  {
    if i > 0 {
      assert Skipped(es[..i][0]);
      assert es[1..][..i - 1] == es[1..i];
      assert forall j :: 0 <= j < i - 1 ==> es[1..i][j] == es[..i][j + 1];
      ScanStopsAtFirstRecognised(reply, es[1..], i - 1);
    }
  }

  /** Every outcome of the scan is the reply itself (exactly when all entries are passed over) or the outcome of the first entry that is not. */
  lemma {:induction false} ScanOutcomeCases(reply: Json, es: seq<Json>)
    ensures ScanEntries(reply, es).Ok? <==> AllSkipped(es)
    ensures ScanEntries(reply, es).Ok? ==> ScanEntries(reply, es) == Ok(reply)
    ensures !AllSkipped(es) ==>
      exists i :: 0 <= i < |es| && AllSkipped(es[..i]) && !Skipped(es[i]) &&
                  EntryOutcome(es[i]) == Results.Some(ScanEntries(reply, es))
  {
    if es == [] {
    } else if Skipped(es[0]) {
      ScanOutcomeCases(reply, es[1..]);
      if !AllSkipped(es) {
        assert !AllSkipped(es[1..]);
        var k :| 0 <= k < |es[1..]| && AllSkipped(es[1..][..k]) && !Skipped(es[1..][k]) &&
                 EntryOutcome(es[1..][k]) == Results.Some(ScanEntries(reply, es[1..]));
        assert es[..k + 1] == [es[0]] + es[1..][..k];
        assert AllSkipped(es[..k + 1]);
      }
    } else {
      assert AllSkipped(es[..0]);
    }
  }

  /** An entry with code 25702 that is the first recognised one makes the call raise ItemNotFoundError with that entry's message. */
  lemma ClassifyNotFound(f: map<string, Json>, es: seq<Json>, i: nat)
    requires "errors" in f && f["errors"] == JArray(es)
    requires i < |es| && AllSkipped(es[..i])
    requires es[i].JObject? && "errorId" in es[i].fields && es[i].fields["errorId"] == JInt(SkuNotFound)
    requires "message" in es[i].fields
    ensures Classify(JObject(f)) == ItemNotFoundError(es[i].fields["message"])
  {
    ScanStopsAtFirstRecognised(JObject(f), es, i);
  }

  /** An entry with code 1001, 1002 or 1100 that is the first recognised one makes the call raise AuthenticationError with that entry's message. */
  lemma ClassifyAuthentication(f: map<string, Json>, es: seq<Json>, i: nat)
    requires "errors" in f && f["errors"] == JArray(es)
    requires i < |es| && AllSkipped(es[..i])
    requires es[i].JObject? && "errorId" in es[i].fields
    requires es[i].fields["errorId"] in {JInt(InvalidAccessToken), JInt(MissingAccessToken), JInt(AccessDenied)}
    requires "message" in es[i].fields
    ensures Classify(JObject(f)) == AuthenticationError(es[i].fields["message"])
  {
    ScanStopsAtFirstRecognised(JObject(f), es, i);
  }

  /** When no entry carries a known code, the reply is returned whole, its `errors` list included. */
  lemma ClassifyUnrecognisedIsOk(f: map<string, Json>, es: seq<Json>)
    requires "errors" in f && f["errors"] == JArray(es)
    requires AllSkipped(es)
    ensures Classify(JObject(f)) == Ok(JObject(f))
  {
    ScanSkipsUnrecognised(JObject(f), es);
  }

  /** Entries after the first recognised one do not affect the outcome, whatever they hold. */
  lemma ClassifyIgnoresLaterEntries(f: map<string, Json>, pre: seq<Json>, e: Json, post: seq<Json>)
    requires AllSkipped(pre) && !Skipped(e)
    ensures Classify(JObject(f["errors" := JArray(pre + [e] + post)]))
         == Classify(JObject(f["errors" := JArray(pre + [e])]))
  {
    var long, short := pre + [e] + post, pre + [e];
    assert long[..|pre|] == pre && short[..|pre|] == pre;
    ScanStopsAtFirstRecognised(JObject(f["errors" := JArray(long)]), long, |pre|);
    ScanStopsAtFirstRecognised(JObject(f["errors" := JArray(short)]), short, |pre|);
  }

  /** An ItemNotFoundError or AuthenticationError always comes from the first recognised entry of an `errors` list and carries its message. */
  lemma ClassifyErrorSource(f: map<string, Json>)
    requires Classify(JObject(f)).ItemNotFoundError? || Classify(JObject(f)).AuthenticationError?
    ensures "errors" in f && f["errors"].JArray?
    ensures exists i :: 0 <= i < |f["errors"].items| && AllSkipped(f["errors"].items[..i]) &&
                        RaisedBy(f["errors"].items[i], Classify(JObject(f)))
  {
    var es := f["errors"].items;
    ScanOutcomeCases(JObject(f), es);
  }
}
