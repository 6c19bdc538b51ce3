/** Reading a bounded preview of the request body without losing it (services/gateway/internal/proxy/gateway.go). */
module RequestBody {
  newtype Byte = b: int | 0 <= b < 256

  /**
   A body: bytes still to be delivered, whether reading past them fails, and whether
   closing fails.
   */
  datatype Body = NoBody | Stream(data: seq<Byte>, readFails: bool, closeFails: bool)

  const MAX_INT64: int := 0x7FFF_FFFF_FFFF_FFFF

  /** 64-bit addition of one, with wrap-around. */
  function Increment64(n: int): int {
    if n == MAX_INT64 then -MAX_INT64 - 1 else n + 1
  }

  /** `io.ReadAll(io.LimitReader(body, n))`: what is read, and whether an error is met. */
  function ReadLimited(body: Body, n: int): (seq<Byte>, bool)
    requires body.Stream?
  {
    if n <= 0 then ([], false)
    else if n <= |body.data| then (body.data[..n], false)
    else (body.data, body.readFails)
  }

  /** The bytes a body will deliver to the origin. */
  function Delivered(body: Body): seq<Byte> {
    if body == NoBody then [] else body.data
  }

  /** The body cannot be prepared: reading it to its end, or closing it, fails. */
  predicate Unreadable(body: Body, limit: int) {
    && body.Stream? && limit > 0
    && (limit < MAX_INT64 ==> |body.data| <= limit)
    && (body.closeFails || (body.readFails && limit < MAX_INT64))
  }

  /** The body is longer than a limit that applies to it. */
  predicate Exceeds(body: Body, limit: int) {
    0 < limit < MAX_INT64 && limit < |Delivered(body)|
  }

  class HttpRequest {
    var body: Body

    constructor (body: Body)
      ensures this.body == body
    {
      this.body := body;
    }

    /**
     `prepareRequestBody`. For every limit below the 64-bit maximum the origin receives
     the original bytes, the preview is their first `limit` bytes when a positive limit
     applies, and `exceeded` holds exactly when there are more. At the maximum the sum
     `limit + 1` wraps around, nothing is read, and the origin receives an empty body.
     */
    method PrepareBody(limit: int) returns (preview: seq<Byte>, exceeded: bool, ok: bool)
      requires -MAX_INT64 - 1 <= limit <= MAX_INT64
      modifies this
      ensures !ok <==>
                && old(body).Stream? && limit > 0 && (limit < MAX_INT64 ==> |old(body).data| <= limit)
                && (old(body).closeFails || (old(body).readFails && limit < MAX_INT64))
      ensures ok ==> (Delivered(body) == Delivered(old(body)) <==> limit < MAX_INT64 || Delivered(old(body)) == [])
      ensures ok ==> (exceeded <==> 0 < limit < MAX_INT64 && limit < |Delivered(old(body))|)
      ensures ok && limit < MAX_INT64 ==>
                preview == if limit <= 0 then [] else if exceeded then Delivered(old(body))[..limit] else Delivered(old(body))
      ensures ok && (exceeded || limit <= 0) ==> body == old(body)
      ensures ok && limit == MAX_INT64 ==> preview == [] && Delivered(body) == []
    {
      if body == NoBody { return [], false, true; }
      if limit <= 0 { return [], false, true; }
      var original := body;
      var (data, failed) := ReadLimited(original, Increment64(limit));
      body := original.(data := original.data[|data|..]);
      if failed { return [], false, false; }
      exceeded := |data| > limit;
      preview := data;
      if exceeded {
        preview := data[..limit];
        body := Stream(data + body.data, original.readFails, original.closeFails);
        assert body == original;
        return preview, true, true;
      }
      if original.closeFails { return [], false, false; }
      body := Stream(data, false, false);
      return preview, false, true;
    }
  }
}
