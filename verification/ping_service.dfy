/**
 * The ping service: a dispatcher that routes three opcodes to their handlers
 * and rejects every other opcode, a ping handler that echoes its nonce, a
 * proxy-ping handler that pings another server and reports the round-trip
 * time or -1, and a metrics handler that appends the serialized metrics to
 * the reply.
 *
 * The cycle counter, the inner ping across the network and the metrics
 * serializer are inputs: clock readings, the inner ping's outcome and the
 * serialized bytes.
 */
module PingService {
  import opened Wrappers
  import opened Bytes

  /** The opcodes this service serves, and every other opcode. */
  datatype Opcode = GetMetricsOpcode | PingOpcode | ProxyPingOpcode | OtherOpcode(code: nat)

  datatype Handler = GetMetricsHandler | PingHandler | ProxyPingHandler

  /** A request's header, in the typed view its handler reads. */
  datatype RequestHeader =
    | GetMetricsRequest
    | PingRequest(nonce: uint64)
    | ProxyPingRequest(timeoutNanoseconds: uint64, serviceLocatorLength: uint32)
    | OtherRequest(code: nat)

  /** The response header a handler fills in; NoResponse until one does. */
  datatype ResponseHeader =
    | NoResponse
    | GetMetricsResponse(messageLength: uint32)
    | PingResponse(nonce: uint64)
    | ProxyPingResponse(replyNanoseconds: int)

  /**
   * Why a request fails: an opcode no handler serves, a payload too short for
   * the string it should hold, or an exception from the inner ping other than
   * a timeout, which proxyPing does not catch.
   */
  datatype ServiceError = UnimplementedRequest | MessageTooShort | InnerPingFailed

  /**
   * What the inner ping of a proxy ping came back with: a timeout, a reply
   * nonce, or any other exception the ping client throws.
   */
  datatype PingOutcome = Timeout | Reply(nonce: uint64) | OtherFailure

  /** The inner ping a proxy ping sends: where to, with which nonce, and how long to wait. */
  datatype InnerPing = InnerPing(serviceLocator: seq<byte>, nonce: uint64, timeoutNanoseconds: uint64)

  /** The inputs a dispatched request may consume. */
  datatype Environment = Environment(
    serializedMetrics: seq<byte>,
    innerPing: PingOutcome,
    startCycles: uint64,
    endCycles: uint64,
    toNanoseconds: uint64 -> uint64)

  /** The nonce proxyPing sends and expects back. */
  const PROXY_PING_NONCE: uint64 := 99999

  /** The reply time that stands for "no response". */
  const NO_RESPONSE: int := -1

  function OpcodeOf(header: RequestHeader): Opcode
  {
    match header
    case GetMetricsRequest => GetMetricsOpcode
    case PingRequest(_) => PingOpcode
    case ProxyPingRequest(_, _) => ProxyPingOpcode
    case OtherRequest(code) => OtherOpcode(code)
  }

  /** The opcode each handler serves. */
  function Serves(h: Handler): Opcode
  {
    match h
    case GetMetricsHandler => GetMetricsOpcode
    case PingHandler => PingOpcode
    case ProxyPingHandler => ProxyPingOpcode
  }

  /**
   * The dispatcher's switch: the handler for an opcode, or none. Exactly the
   * opcodes some handler serves are routed, each to that handler.
   */
  function Route(opcode: Opcode): (h: Option<Handler>)
    ensures h.None? <==> opcode.OtherOpcode?
    ensures forall handler :: h == Some(handler) <==> Serves(handler) == opcode
  {
    match opcode
    case GetMetricsOpcode => Some(GetMetricsHandler)
    case PingOpcode => Some(PingHandler)
    case ProxyPingOpcode => Some(ProxyPingHandler)
    case OtherOpcode(_) => None
  }

  /** Cycles between two readings of the 64-bit counter; the subtraction wraps. */
  function ElapsedCycles(startCycles: uint64, endCycles: uint64): (cycles: uint64)
    ensures startCycles <= endCycles ==> cycles == endCycles - startCycles
    ensures endCycles < startCycles ==> cycles == endCycles - startCycles + TWO_64
  {
    (endCycles - startCycles) % TWO_64
  }

  /**
   * The reply time proxyPing reports: the elapsed time exactly when the inner
   * ping came back with the nonce it was sent, -1 on a timeout or any other
   * reply; an exception other than a timeout is not caught and fails the request.
   */
  function ProxyPingNanoseconds(outcome: PingOutcome, startCycles: uint64, endCycles: uint64,
                                toNanoseconds: uint64 -> uint64): (r: Result<int, ServiceError>)
    ensures r.Failure? <==> outcome == OtherFailure
    ensures r.Failure? ==> r.error == InnerPingFailed
    ensures r.Success? ==> (r.value == NO_RESPONSE <==> outcome != Reply(PROXY_PING_NONCE))
    ensures r.Success? && r.value != NO_RESPONSE ==> r.value == toNanoseconds(ElapsedCycles(startCycles, endCycles))
  {
    match outcome
    case Timeout => Success(NO_RESPONSE)
    case Reply(result) =>
      if result == PROXY_PING_NONCE then Success(toNanoseconds(ElapsedCycles(startCycles, endCycles)))
      else Success(NO_RESPONSE)
    case OtherFailure => Failure(InnerPingFailed)
  }

  /** The `length` bytes at `offset` in a request payload, or an error if the payload is shorter. */
  function GetString(payload: seq<byte>, offset: nat, length: nat): (r: Result<seq<byte>, ServiceError>)
    ensures r.Success? ==> |r.value| == length && offset + length <= |payload| && payload[..offset] + r.value + payload[offset + length..] == payload
    ensures r.Failure? ==> r.error == MessageTooShort && |payload| < offset + length
  {
    if |payload| < offset + length then Failure(MessageTooShort)
    else Success(payload[offset..offset + length])
  }

  /** One RPC as the handlers see it: the typed request, its payload, and the reply being built. */
  class Rpc {
    const request: RequestHeader
    const requestPayload: seq<byte>
    var response: ResponseHeader
    var replyPayload: seq<byte>

    constructor (request: RequestHeader, requestPayload: seq<byte>)
      ensures this.request == request && this.requestPayload == requestPayload
      ensures response == NoResponse && replyPayload == []
    {
      this.request := request;
      this.requestPayload := requestPayload;
      response := NoResponse;
      replyPayload := [];
    }
  }

  class PingService {
    /** sizeof(ProxyPingRpc::Request): where the service locator starts in a proxy-ping payload. */
    const proxyPingRequestSize: nat
    /** Every handler run so far, in order. */
    ghost var handlersRun: seq<Handler>
    /** Every inner ping sent so far, in order. */
    ghost var pingsSent: seq<InnerPing>

    constructor (proxyPingRequestSize: nat)
      ensures this.proxyPingRequestSize == proxyPingRequestSize
      ensures handlersRun == [] && pingsSent == []
    {
      this.proxyPingRequestSize := proxyPingRequestSize;
      handlersRun := [];
      pingsSent := [];
    }

    /**
     * getMetrics: the reply header gets the serialized length, and the reply
     * payload grows by exactly that many bytes, the serialized metrics.
     */
    method GetMetrics(rpc: Rpc, serialized: seq<byte>)
      requires |serialized| < TWO_32
      modifies rpc`response, rpc`replyPayload, this`handlersRun
      ensures rpc.response == GetMetricsResponse(|serialized|)
      ensures rpc.replyPayload == old(rpc.replyPayload) + serialized
      ensures handlersRun == old(handlersRun) + [GetMetricsHandler]
    {
      handlersRun := handlersRun + [GetMetricsHandler];
      var messageLength: uint32 := |serialized|;
      rpc.response := GetMetricsResponse(messageLength);
      rpc.replyPayload := rpc.replyPayload + serialized[..messageLength];
    }

    /** ping: the reply carries the request's nonce, whatever its value. */
    method Ping(rpc: Rpc)
      requires rpc.request.PingRequest?
      modifies rpc`response, this`handlersRun
      ensures rpc.response == PingResponse(rpc.request.nonce)
      ensures handlersRun == old(handlersRun) + [PingHandler]
    {
      handlersRun := handlersRun + [PingHandler];
      rpc.response := PingResponse(rpc.request.nonce);
    }

    /**
     * proxyPing: reads the locator after the request header, pings it with
     * nonce 99999 and the request's timeout, and reports the elapsed time if
     * 99999 came back and -1 otherwise (a timeout included). A payload too
     * short for the locator fails before any ping is sent; any other exception
     * from the inner ping fails the request and leaves the response header as it was.
     */
    method ProxyPing(rpc: Rpc, outcome: PingOutcome, startCycles: uint64, endCycles: uint64,
                     toNanoseconds: uint64 -> uint64)
        returns (r: Outcome<ServiceError>)
      requires rpc.request.ProxyPingRequest?
      modifies rpc`response, this`handlersRun, this`pingsSent
      ensures handlersRun == old(handlersRun) + [ProxyPingHandler]
      ensures match GetString(rpc.requestPayload, proxyPingRequestSize, rpc.request.serviceLocatorLength)
        case Failure(e) =>
          r == Fail(e) && rpc.response == old(rpc.response) && pingsSent == old(pingsSent)
        case Success(locator) =>
          && pingsSent == old(pingsSent) + [InnerPing(locator, PROXY_PING_NONCE, rpc.request.timeoutNanoseconds)]
          && match ProxyPingNanoseconds(outcome, startCycles, endCycles, toNanoseconds)
             case Failure(e) => r == Fail(e) && rpc.response == old(rpc.response)
             case Success(ns) => r == Pass && rpc.response == ProxyPingResponse(ns)
    {
      handlersRun := handlersRun + [ProxyPingHandler];
      var located := GetString(rpc.requestPayload, proxyPingRequestSize, rpc.request.serviceLocatorLength);
      if located.Failure? {
        return Fail(located.error);
      }
      pingsSent := pingsSent + [InnerPing(located.value, PROXY_PING_NONCE, rpc.request.timeoutNanoseconds)];
      match outcome {
        case Reply(result) =>
          if result == PROXY_PING_NONCE {
            rpc.response := ProxyPingResponse(toNanoseconds(ElapsedCycles(startCycles, endCycles)));
          } else {
            rpc.response := ProxyPingResponse(NO_RESPONSE);
          }
        case Timeout =>
          rpc.response := ProxyPingResponse(NO_RESPONSE);
        case OtherFailure =>
          return Fail(InnerPingFailed);
      }
      r := Pass;
    }

    /**
     * dispatch: runs exactly the one handler the opcode routes to; an opcode
     * no handler serves fails with UnimplementedRequest and runs nothing.
     */
    method Dispatch(opcode: Opcode, rpc: Rpc, env: Environment) returns (r: Outcome<ServiceError>)
      requires opcode == OpcodeOf(rpc.request)
      requires opcode == GetMetricsOpcode ==> |env.serializedMetrics| < TWO_32
      modifies rpc`response, rpc`replyPayload, this`handlersRun, this`pingsSent
      ensures Route(opcode).None? ==>
        && r == Fail(UnimplementedRequest)
        && handlersRun == old(handlersRun) && pingsSent == old(pingsSent)
        && rpc.response == old(rpc.response) && rpc.replyPayload == old(rpc.replyPayload)
      ensures Route(opcode).Some? ==> handlersRun == old(handlersRun) + [Route(opcode).value]
      ensures opcode != ProxyPingOpcode ==> pingsSent == old(pingsSent)
      ensures opcode == GetMetricsOpcode ==>
        && r == Pass
        && rpc.response == GetMetricsResponse(|env.serializedMetrics|)
        && rpc.replyPayload == old(rpc.replyPayload) + env.serializedMetrics
      ensures opcode == PingOpcode ==>
        r == Pass && rpc.response == PingResponse(rpc.request.nonce) && rpc.replyPayload == old(rpc.replyPayload)
      ensures opcode == ProxyPingOpcode ==>
        && rpc.replyPayload == old(rpc.replyPayload)
        && match GetString(rpc.requestPayload, proxyPingRequestSize, rpc.request.serviceLocatorLength)
           case Failure(e) => r == Fail(e) && rpc.response == old(rpc.response) && pingsSent == old(pingsSent)
           case Success(locator) =>
             && pingsSent == old(pingsSent) + [InnerPing(locator, PROXY_PING_NONCE, rpc.request.timeoutNanoseconds)]
             && match ProxyPingNanoseconds(env.innerPing, env.startCycles, env.endCycles, env.toNanoseconds)
                case Failure(e) => r == Fail(e) && rpc.response == old(rpc.response)
                case Success(ns) => r == Pass && rpc.response == ProxyPingResponse(ns)
    {
      match opcode {
        case GetMetricsOpcode =>
          GetMetrics(rpc, env.serializedMetrics);
          r := Pass;
        case PingOpcode =>
          Ping(rpc);
          r := Pass;
        case ProxyPingOpcode =>
          r := ProxyPing(rpc, env.innerPing, env.startCycles, env.endCycles, env.toNanoseconds);
        case OtherOpcode(_) =>
          r := Fail(UnimplementedRequest);
      }
    }
  }

  /**
   * A proxy ping whose inner ping is answered by a server running the ping
   * handler: the nonce 99999 comes back unchanged, so the reply carries the
   * elapsed time and never the sentinel.
   */
  method ProxyPingViaPingHandler(locator: seq<byte>, requestSize: nat, timeoutNanoseconds: uint64,
                                 startCycles: uint64, endCycles: uint64, toNanoseconds: uint64 -> uint64)
      returns (replyNanoseconds: int)
    requires |locator| < TWO_32
    ensures replyNanoseconds == toNanoseconds(ElapsedCycles(startCycles, endCycles))
    ensures replyNanoseconds != NO_RESPONSE
  {
    var proxy := new PingService(requestSize);
    var proxyRpc := new Rpc(ProxyPingRequest(timeoutNanoseconds, |locator|), Zeros(requestSize) + locator);
    var peer := new PingService(requestSize);
    var pingRpc := new Rpc(PingRequest(PROXY_PING_NONCE), []);
    peer.Ping(pingRpc);
    var _ := proxy.ProxyPing(proxyRpc, Reply(pingRpc.response.nonce), startCycles, endCycles, toNanoseconds);
    replyNanoseconds := proxyRpc.response.replyNanoseconds;
  }
}
