/**
 * Per-response byte accounting of one page load. The browser reports every
 * network response of the visit, in arrival order, to a handler that adds
 * the response's size to a running total. A response is seen here only
 * through what the handler reads from it: the request URL, the
 * content-length header (if any) and the outcome of reading its body.
 */
module Accounting {
  import opened Wrappers
  import opened ContentLength

  /** The outcome of asking the browser for a response's body. */
  datatype BodyRead = Body(length: nat) | ReadFailed

  datatype Response = Response(url: string, contentLength: Option<string>, body: BodyRead)

  /** URLs whose content never crosses the network. */
  predicate IsNonNetwork(url: string) {
    "data:" <= url || "about:" <= url
  }

  /**
   * The size the content-length header announces: the parsed integer when
   * the header is present, non-empty and parses; 0 otherwise.
   */
  function HeaderLength(contentLength: Option<string>): (n: int)
    ensures n != 0 ==> contentLength.Some? && ParseInt(contentLength.value) == Some(n)
    ensures contentLength.Some? && ParseInt(contentLength.value).Some? ==> n == ParseInt(contentLength.value).value
  {
    match contentLength
    case None => 0
    case Some(cl) =>
      if cl == "" then 0
      else match ParseInt(cl)
        case Some(k) => k
        case None => 0
  }

  /** What the body read yields: its length, or 0 when reading failed. */
  function BodyLength(body: BodyRead): (n: nat)
    ensures body.Body? ==> n == body.length
    ensures body.ReadFailed? ==> n == 0
  {
    match body
    case Body(length) => length
    case ReadFailed => 0
  }

  /**
   * The number of bytes one response adds to the visit total. This is the
   * reference definition of the handler's decision; VisitMeter.HandleResponse
   * takes the same branches step by step and is proved to add exactly this.
   */
  function Contribution(r: Response): int {
    if IsNonNetwork(r.url) then 0
    else
      var length := HeaderLength(r.contentLength);
      if length == 0 then BodyLength(r.body) else length
  }

  /** The visit total after the given responses, in arrival order. */
  function VisitTotal(responses: seq<Response>): int {
    if responses == [] then 0
    else VisitTotal(responses[..|responses| - 1]) + Contribution(responses[|responses| - 1])
  }

  /** The running total that the response handler of one visit updates. */
  class VisitMeter {
    var totalBytes: int

    constructor ()
      ensures totalBytes == 0
    {
      totalBytes := 0;
    }

    /** Account for one response; nothing about it can make the handler fail. */
    method HandleResponse(r: Response)
      modifies this
      ensures totalBytes == old(totalBytes) + Contribution(r)
    {
      if IsNonNetwork(r.url) {
        return;
      }
      var length := 0;
      match r.contentLength {
        case Some(cl) =>
          if cl != "" {
            match ParseInt(cl) {
              case Some(k) => length := k;
              case None => length := 0;
            }
          }
        case None =>
      }
      if length == 0 {
        match r.body {
          case Body(n) => length := n;
          case ReadFailed => length := 0;
        }
      }
      totalBytes := totalBytes + length;
    }
  }

  /** Total bytes of one page load: every response handled, in arrival order. */
  method MeasureVisit(responses: seq<Response>) returns (totalBytes: int)
    ensures totalBytes == VisitTotal(responses)
  {
    var meter := new VisitMeter();
    var i := 0;
    while i < |responses|
      invariant 0 <= i <= |responses|
      invariant meter.totalBytes == VisitTotal(responses[..i])
    {
      meter.HandleResponse(responses[i]);
      assert responses[..i + 1][..i] == responses[..i];
      i := i + 1;
    }
    assert responses[..i] == responses;
    totalBytes := meter.totalBytes;
  }

  /** A data: or about: response adds nothing, whatever its headers and body. */
  lemma NonNetworkAddsNothing(url: string, contentLength: Option<string>, body: BodyRead)
    requires IsNonNetwork(url)
    ensures Contribution(Response(url, contentLength, body)) == 0
  {
  }

  /** A header that parses to a non-zero integer decides the size; the body is not consulted. */
  lemma HeaderDecides(url: string, cl: string, n: int, body: BodyRead)
    requires !IsNonNetwork(url)
    requires ParseInt(cl) == Some(n) && n != 0
    ensures Contribution(Response(url, Some(cl), body)) == n
  {
  }

  /**
   * A missing, unparseable or zero header falls back to the body's length,
   * and a failed body read then adds 0.
   */
  lemma BodyFallback(r: Response)
    requires !IsNonNetwork(r.url)
    requires r.contentLength.None? || ParseInt(r.contentLength.value).None? || ParseInt(r.contentLength.value) == Some(0)
    ensures Contribution(r) == BodyLength(r.body)
    ensures r.body.ReadFailed? ==> Contribution(r) == 0
  {
  }

  /** Totals of consecutive stretches of responses add up. */
  lemma {:induction false} VisitTotalAppend(a: seq<Response>, b: seq<Response>)
    ensures VisitTotal(a + b) == VisitTotal(a) + VisitTotal(b)
  {
    if b == [] {
      assert a + b == a;
    } else {
      var b' := b[..|b| - 1];
      assert (a + b)[..|a + b| - 1] == a + b';
      assert (a + b)[|a + b| - 1] == b[|b| - 1];
      VisitTotalAppend(a, b');
    }
  }

  /** The total around one response is the totals before and after it plus its own contribution. */
  lemma VisitTotalSplit(pre: seq<Response>, r: Response, post: seq<Response>)
    ensures VisitTotal(pre + [r] + post) == VisitTotal(pre) + Contribution(r) + VisitTotal(post)
  {
    VisitTotalAppend(pre + [r], post);
    VisitTotalAppend(pre, [r]);
    assert [r][..0] == [];
  }

  /**
   * Responses are isolated from each other: whatever happens to the i-th
   * response changes the total by exactly the change in its own contribution.
   */
  lemma VisitTotalIsolation(responses: seq<Response>, i: nat, r: Response)
    requires i < |responses|
    ensures VisitTotal(responses[i := r])
         == VisitTotal(responses) - Contribution(responses[i]) + Contribution(r)
  {
    var pre, post := responses[..i], responses[i + 1..];
    assert responses == pre + [responses[i]] + post;
    assert responses[i := r] == pre + [r] + post;
    VisitTotalSplit(pre, responses[i], post);
    VisitTotalSplit(pre, r, post);
  }

  /** A response that fails outright counts as if it had never arrived. */
  lemma FailedResponseIsSkipped(responses: seq<Response>, i: nat)
    requires i < |responses|
    requires Contribution(responses[i]) == 0
    ensures VisitTotal(responses[..i] + responses[i + 1..]) == VisitTotal(responses)
  {
    assert responses == responses[..i] + [responses[i]] + responses[i + 1..];
    VisitTotalSplit(responses[..i], responses[i], responses[i + 1..]);
    VisitTotalAppend(responses[..i], responses[i + 1..]);
  }

  /** No header carries a minus sign. */
  predicate UnsignedHeaders(responses: seq<Response>) {
    forall i :: 0 <= i < |responses| && responses[i].contentLength.Some? ==>
      '-' !in responses[i].contentLength.value
  }

  /** Without minus signs in content-length headers, no total is negative. */
  lemma {:induction false} VisitTotalNonNegative(responses: seq<Response>)
    requires UnsignedHeaders(responses)
    ensures VisitTotal(responses) >= 0
  {
    if responses != [] {
      var last := responses[|responses| - 1];
      VisitTotalNonNegative(responses[..|responses| - 1]);
      assert last.contentLength.Some? ==> '-' !in last.contentLength.value;
      assert Contribution(last) >= 0;
    }
  }

  /** A negative content-length header is added as it stands, so a total can be negative. */
  lemma NegativeHeaderReachesTotal()
    ensures VisitTotal([Response("https://example.com/", Some("-5"), Body(100))]) == -5
  {
    ParseRenderNegative(5);
    assert Render(-5) == "-5";
    var r := Response("https://example.com/", Some("-5"), Body(100));
    assert r.url[0] == 'h';
    assert [r][..0] == [];
  }
}
