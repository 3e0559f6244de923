/**
 * The gift-card service client: one redemption is one POST of a fixed
 * payload to the card's redeem path, and the service's answer, or the
 * failure of the call, becomes a result record. The network is a parameter:
 * the reply the request meets.
 */
module GiftCardApi {
  import opened Wrappers
  import opened Text
  import Merchant

  const PathPrefix := "/GiftCards/"
  const PathSuffix := "/redeem-by-passkit-member"
  const UnknownError := "Error desconocido"

  /**
   * The body of a redemption. `amountMinor` is None where the caller passes
   * `null`; `taxMinor` has had its default applied.
   */
  datatype Payload = Payload(
    amountMinor: Option<nat>,
    taxMinor: nat,
    merchantId: string,
    locationId: string,
    posId: string,
    receiptNumber: string)

  /** A POST of `payload` to `path` under `baseUrl`. */
  datatype Request = Request(baseUrl: string, path: string, payload: Payload)

  /** What the network does with the request. */
  datatype Reply =
    | Answered(data: string)
      /**
       * The call failed: `responseData` is the body of the error response, if
       * there was a response and it had one; `message` is the error's message.
       */
    | Failed(responseData: Option<string>, message: Option<string>)

  datatype RedeemResult = Redeemed(data: string) | NotRedeemed(error: string)

  /** The requests one call issued, in order, and what it returned. */
  datatype Call = Call(requests: seq<Request>, result: RedeemResult)

  /** The redeem path of a gift card: its id between a fixed prefix and suffix. */
  function RedeemPath(giftCardId: string): (p: string)
    ensures |p| == |PathPrefix| + |giftCardId| + |PathSuffix|
    ensures PathPrefix <= p
  {
    PathPrefix + giftCardId + PathSuffix
  }

  /** Reads the gift card id back from a redeem path; None for any other path. */
  function ParseRedeemPath(p: string): (r: Option<string>)
    ensures r.Some? ==> |p| == |PathPrefix| + |r.value| + |PathSuffix|
  {
    if |p| >= |PathPrefix| + |PathSuffix|
       && p[..|PathPrefix|] == PathPrefix
       && p[|p| - |PathSuffix|..] == PathSuffix
    then Some(p[|PathPrefix|..|p| - |PathSuffix|])
    else None
  }

  /** Every gift card id, whatever characters it holds, is read back from its path. */
  lemma ParseRedeemPathOfRedeemPath(giftCardId: string)
    ensures ParseRedeemPath(RedeemPath(giftCardId)) == Some(giftCardId)
  {
    var p := RedeemPath(giftCardId);
    assert p[..|PathPrefix|] == PathPrefix;
    assert p[|p| - |PathSuffix|..] == PathSuffix;
    assert p[|PathPrefix|..|p| - |PathSuffix|] == giftCardId;
  }

  /** Every path that reads as a redeem path is the redeem path of what it reads as. */
  lemma RedeemPathOfParseRedeemPath(p: string)
    requires ParseRedeemPath(p).Some?
    ensures RedeemPath(ParseRedeemPath(p).value) == p
  {
    var id := ParseRedeemPath(p).value;
    assert p == p[..|PathPrefix|] + id + p[|p| - |PathSuffix|..];
  }

  /** Different gift cards are redeemed at different paths. */
  lemma RedeemPathInjective(a: string, b: string)
    requires RedeemPath(a) == RedeemPath(b)
    ensures a == b
  {
    ParseRedeemPathOfRedeemPath(a);
    ParseRedeemPathOfRedeemPath(b);
  }

  /**
   * The message of a failed call: the response body when it is truthy, else
   * the error's message when that is truthy, else a fixed text.
   */
  function ErrorText(responseData: Option<string>, message: Option<string>): (e: string)
    ensures e != []
    ensures e == UnknownError || (Truthy(responseData) && e == responseData.value)
                              || (Truthy(message) && e == message.value)
  {
    if Truthy(responseData) then responseData.value
    else if Truthy(message) then message.value
    else UnknownError
  }

  /** A truthy response body wins over any message. */
  lemma ErrorPrefersResponse(data: string, message: Option<string>)
    requires data != []
    ensures ErrorText(Some(data), message) == data
  {
  }

  /** With no usable body, a truthy message is reported as it is. */
  lemma ErrorFallsBackToMessage(responseData: Option<string>, message: string)
    requires !Truthy(responseData) && message != []
    ensures ErrorText(responseData, Some(message)) == message
  {
  }

  /** With neither a usable body nor a usable message, the fixed text. */
  lemma ErrorUnknown(responseData: Option<string>, message: Option<string>)
    requires !Truthy(responseData) && !Truthy(message)
    ensures ErrorText(responseData, message) == UnknownError
  {
  }

  /**
   * The request `redeemGiftCard` issues: the arguments as the payload, with
   * `taxMinor` defaulting to 0 when omitted, posted to the card's redeem path.
   */
  function RedeemRequest(giftCardId: string, amountMinor: Option<nat>, taxMinor: Option<nat>,
                         merchantId: string, locationId: string, posId: string,
                         receiptNumber: string): (r: Request)
    ensures ParseRedeemPath(r.path) == Some(giftCardId)
    ensures r.baseUrl == Merchant.ApiBaseUrl
    ensures r.payload.amountMinor == amountMinor && r.payload.receiptNumber == receiptNumber
    ensures taxMinor.None? ==> r.payload.taxMinor == 0
    ensures taxMinor.Some? ==> r.payload.taxMinor == taxMinor.value
    ensures r.payload.merchantId == merchantId && r.payload.locationId == locationId && r.payload.posId == posId
  {
    ParseRedeemPathOfRedeemPath(giftCardId);
    var payload := Payload(amountMinor, taxMinor.GetOr(0), merchantId, locationId, posId, receiptNumber);
    Request(Merchant.ApiBaseUrl, RedeemPath(giftCardId), payload)
  }

  /** What `redeemGiftCard` returns for the reply its request met. */
  function ResultOf(reply: Reply): (r: RedeemResult)
    ensures r.Redeemed? <==> reply.Answered?
    ensures reply.Answered? ==> r.data == reply.data
    ensures r.NotRedeemed? ==> r.error != []
    ensures reply.Failed? ==> r.error == ErrorText(reply.responseData, reply.message)
  {
    match reply
    case Answered(data) => Redeemed(data)
    case Failed(responseData, message) => NotRedeemed(ErrorText(responseData, message))
  }

  /**
   * `redeemGiftCard`: exactly one request, which does not depend on the
   * reply, and no retry; the reply decides the result alone.
   */
  function RedeemGiftCard(giftCardId: string, amountMinor: Option<nat>, taxMinor: Option<nat>,
                          merchantId: string, locationId: string, posId: string,
                          receiptNumber: string, reply: Reply): (c: Call)
    ensures c.requests == [RedeemRequest(giftCardId, amountMinor, taxMinor, merchantId, locationId, posId, receiptNumber)]
    ensures c.result == ResultOf(reply)
  {
    var request := RedeemRequest(giftCardId, amountMinor, taxMinor, merchantId, locationId, posId, receiptNumber);
    Call([request], ResultOf(reply))
  }
}
