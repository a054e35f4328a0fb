/**
 * The gateway's BookingClient: before forwarding a new booking to the server it rejects
 * requests whose end is not after their start. Every other call is forwarded as is.
 */
module BookingClient {
  import opened Common
  import opened Domain
  import opened Store
  import opened BookingService

  /** The guard of `saveBooking`: the request to forward, or BadRequest. */
  function SaveBookingGuard(request: BookingRequest): (r: Result<BookingRequest>)
    ensures r.Ok? <==> request.start < request.end
    ensures !r.Ok? ==> r.BadRequest?
    ensures r.Ok? ==> r.value == request
  {
    if request.start == request.end || request.end < request.start then BadRequest
    else Ok(request)
  }

  /**
   * What a client sees when creating a booking through the gateway and the server
   * version: the guard's error, or the server's checks on the forwarded request.
   */
  function CreateThroughGateway(t: Tables, bookerId: int, request: BookingRequest): (r: Result<Item>)
    ensures !SaveBookingGuard(request).Ok? ==> r == BadRequest
    ensures SaveBookingGuard(request).Ok? ==> r == ServerCreateCheck(t, bookerId, request)
  {
    var forwarded := SaveBookingGuard(request);
    if !forwarded.Ok? then forwarded.Propagate() else ServerCreateCheck(t, bookerId, forwarded.value)
  }

  /**
   * Moving the interval check from the service to the gateway does not change which
   * requests create a booking, nor the outcome of any request with a proper interval.
   */
  lemma GatewayAgreesOnCreation(t: Tables, bookerId: int, request: BookingRequest)
    ensures CreateThroughGateway(t, bookerId, request).Ok? <==> ValidatedCreateCheck(t, bookerId, request).Ok?
    ensures request.start < request.end ==>
              CreateThroughGateway(t, bookerId, request) == ValidatedCreateCheck(t, bookerId, request)
  {
  }

  /**
   * Example (one fixed input, not a general property): the two orders do differ in the
   * error reported. An unknown booker with an inverted interval gets BadRequest from the
   * gateway but NotFound from the earlier service.
   */
  lemma GatewayReportsIntervalFirst(t: Tables)
    requires 1 !in t.users
    ensures var request := BookingRequest(1, 10, 5);
            CreateThroughGateway(t, 1, request) == BadRequest &&
            ValidatedCreateCheck(t, 1, request) == NotFound
  {
  }
}
