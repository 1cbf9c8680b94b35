/** The payment orchestration: idempotent charging against a gateway outcome,
    refunds guarded by the payment's status, and read-only lookups. Each call
    runs as one atomic unit of work against the repository. */
module Service {
  import opened Wrappers
  import opened Entity
  import opened Dto
  import opened Repository

  /** The reason recorded on a declined charge. */
  const DeclineReason: string := "Insufficient funds (mock failure)"
  const PaymentIdPrefix: string := "PAY-"
  const TransactionIdPrefix: string := "TXN-"

  /** The errors the service reports to its callers, with their messages. */
  datatype Error = NotFound(message: string) | BadRequest(message: string)

  const PaymentNotFound: Error := NotFound("Payment not found")
  const OrderNotFound: Error := NotFound("Payment not found for order")
  const NotRefundable: Error := BadRequest("Only successful payments can be refunded")

  /** What one charge takes from outside the model: the gateway's decision, the
      random suffixes of the new payment and transaction references, and the
      creation time of the record. */
  datatype Environment = Environment(
    approved: bool,
    paymentSuffix: string,
    transactionSuffix: string,
    now: Timestamp)

  /** `mapToResponse`: the caller's view of a payment. */
  function MapToResponse(p: Payment): PaymentResponse
  {
    PaymentResponse(p.id, p.orderId, p.amount, Name(p.status), p.transactionId,
                    p.failureReason, p.createdAt)
  }

  /** A record as a completed charge or refund leaves it: never pending; a
      transaction reference exactly when the gateway approved; the decline reason
      on a failed payment and no reason on a successful one. */
  predicate Settled(p: Payment)
  {
    match p.status
    case PENDING => false
    case SUCCESS => p.transactionId.Some? && TransactionIdPrefix <= p.transactionId.value && p.failureReason.None?
    case FAILED => p.transactionId.None? && p.failureReason == Some(DeclineReason)
    case REFUNDED => p.transactionId.Some? && TransactionIdPrefix <= p.transactionId.value
  }

  /** No two rows share an idempotency key. */
  ghost predicate KeysUnique(rows: map<int, Payment>)
  {
    forall j, k :: j in rows && k in rows && rows[j].idempotencyKey == rows[k].idempotencyKey ==> j == k
  }

  /** The invariant the service keeps over the table between calls. */
  ghost predicate Consistent(s: Store)
  {
    WellFormed(s) && KeysUnique(s.rows) && forall k :: k in s.rows ==> Settled(s.rows[k])
  }

  /** The record a fresh charge creates before the gateway is consulted. */
  function NewPending(request: ChargeRequest, key: string, userId: int, env: Environment): (p: Payment)
  {
    Payment(None, PaymentIdPrefix + env.paymentSuffix, request.orderId, key, userId,
            request.amount, PENDING, None, None, env.now)
  }

  /** The gateway outcome applied to a pending record. */
  function Settle(p: Payment, env: Environment): (q: Payment)
  {
    if env.approved then
      p.(status := SUCCESS, transactionId := Some(TransactionIdPrefix + env.transactionSuffix))
    else
      p.(status := FAILED, failureReason := Some(DeclineReason))
  }

  /** What `charge` does: the table after the call and the response. */
  ghost function ChargeStep(s: Store, request: ChargeRequest, key: string, userId: int, env: Environment): (Store, PaymentResponse)
    requires WellFormed(s)
  {
    match Find(s, ByIdempotencyKey(key))
    case Some(k) => (s, MapToResponse(s.rows[k]))
    case None =>
      var (s1, pending) := Stored(s, NewPending(request, key, userId, env));
      var (s2, settled) := Stored(s1, Settle(pending, env));
      (s2, MapToResponse(settled))
  }

  /** What `refund` does: the table after the call and the outcome. An unknown
      id is `NotFound` and a payment that is not successful is `BadRequest`,
      both leaving the table as it was; otherwise only that row changes, to
      `REFUNDED` with the request's reason. */
  ghost function RefundStep(s: Store, request: RefundRequest): (r: (Store, Result<PaymentResponse, Error>))
    requires WellFormed(s)
    ensures WellFormed(r.0)
    ensures request.paymentId !in s.rows ==> r == (s, Failure(PaymentNotFound))
    ensures request.paymentId in s.rows && s.rows[request.paymentId].status != SUCCESS ==>
              r == (s, Failure(NotRefundable))
    ensures r.1.Success? <==> request.paymentId in s.rows && s.rows[request.paymentId].status == SUCCESS
    ensures r.1.Success? ==>
              var id, before := request.paymentId, s.rows[request.paymentId];
              r.0.nextId == s.nextId && r.0.rows.Keys == s.rows.Keys &&
              (forall k :: k in s.rows && k != id ==> r.0.rows[k] == s.rows[k]) &&
              var after := r.0.rows[id];
              after.status == REFUNDED && after.failureReason == request.reason &&
              after.id == before.id && after.paymentId == before.paymentId &&
              after.orderId == before.orderId && after.idempotencyKey == before.idempotencyKey &&
              after.userId == before.userId && after.amount == before.amount &&
              after.transactionId == before.transactionId && after.createdAt == before.createdAt &&
              r.1.value == MapToResponse(after)
  {
    if request.paymentId !in s.rows then (s, Failure(PaymentNotFound))
    else
      var payment := s.rows[request.paymentId];
      if payment.status != SUCCESS then (s, Failure(NotRefundable))
      else
        var (s1, saved) := Stored(s, payment.(status := REFUNDED, failureReason := request.reason));
        (s1, Success(MapToResponse(saved)))
  }

  /** A charge keeps the table consistent: a record is inserted only under a key
      no row carries yet, and it is settled before the call returns. */
  lemma ChargeKeepsConsistent(s: Store, request: ChargeRequest, key: string, userId: int, env: Environment)
    requires Consistent(s)
    ensures Consistent(ChargeStep(s, request, key, userId, env).0)
  {
  }

  /** A refund keeps the table consistent: it only turns a successful payment,
      which has a transaction reference, into a refunded one. */
  lemma RefundKeepsConsistent(s: Store, request: RefundRequest)
    requires Consistent(s)
    ensures Consistent(RefundStep(s, request).0)
  {
  }

  /** The service object, holding its repository. */
  class PaymentService {
    const repository: PaymentRepository

    constructor (repository: PaymentRepository)
      requires Consistent(repository.Snapshot())
      ensures this.repository == repository && Valid()
    {
      this.repository := repository;
    }

    ghost predicate Valid()
      reads this, repository
    {
      Consistent(repository.Snapshot())
    }

    /** `charge`: return the payment already made under `idempotencyKey`
        unchanged, or create one, settle it with the gateway's decision and
        save it. */
    method Charge(request: ChargeRequest, idempotencyKey: string, userId: int, env: Environment)
      returns (response: PaymentResponse)
      requires Valid()
      modifies repository
      ensures Valid()
      ensures (repository.Snapshot(), response) ==
              ChargeStep(old(repository.Snapshot()), request, idempotencyKey, userId, env)
    {
      ChargeKeepsConsistent(repository.Snapshot(), request, idempotencyKey, userId, env);
      var existing := repository.FindByIdempotencyKey(idempotencyKey);
      if existing.Some? {
        return MapToResponse(existing.value);
      }

      var payment := NewPending(request, idempotencyKey, userId, env);
      payment := repository.Save(payment);

      if env.approved {
        payment := payment.(status := SUCCESS);
        payment := payment.(transactionId := Some(TransactionIdPrefix + env.transactionSuffix));
      } else {
        payment := payment.(status := FAILED);
        payment := payment.(failureReason := Some(DeclineReason));
      }

      payment := repository.Save(payment);
      response := MapToResponse(payment);
    }

    /** `refund`: only a successful payment can be refunded; it becomes
        `REFUNDED` and its failure reason holds the refund reason. */
    method Refund(request: RefundRequest) returns (result: Result<PaymentResponse, Error>)
      requires Valid()
      modifies repository
      ensures Valid()
      ensures (repository.Snapshot(), result) == RefundStep(old(repository.Snapshot()), request)
    {
      RefundKeepsConsistent(repository.Snapshot(), request);
      var found := repository.FindById(request.paymentId);
      if found.None? {
        return Failure(PaymentNotFound);
      }
      var payment := found.value;
      if payment.status != SUCCESS {
        return Failure(NotRefundable);
      }

      payment := payment.(status := REFUNDED);
      payment := payment.(failureReason := request.reason);
      payment := repository.Save(payment);
      result := Success(MapToResponse(payment));
    }

    /** `getPaymentById`: the payment stored under `id`, or `NotFound`. */
    function GetPaymentById(id: int): (r: Result<PaymentResponse, Error>)
      reads this, repository
      requires Valid()
      ensures r.Failure? <==> id !in repository.rows
      ensures r.Failure? ==> r.error == PaymentNotFound
      ensures r.Success? ==> r.value == MapToResponse(repository.rows[id])
      ensures r.Success? ==> r.value.id == Some(id) && r.value.status != Name(PENDING)
    {
      match repository.FindById(id)
      case None => Failure(PaymentNotFound)
      case Some(p) => Success(MapToResponse(p))
    }

    /** `getPaymentByOrderId`: a payment for the order (the earliest one), or
        `NotFound` when the order has none. */
    function GetPaymentByOrderId(orderId: string): (r: Result<PaymentResponse, Error>)
      reads this, repository
      requires Valid()
      ensures r.Failure? <==> forall k :: k in repository.rows ==> repository.rows[k].orderId != orderId
      ensures r.Failure? ==> r.error == OrderNotFound
      ensures r.Success? ==> r.value.orderId == orderId && r.value.status != Name(PENDING)
      ensures r.Success? ==>
                exists k :: k in repository.rows && r.value == MapToResponse(repository.rows[k]) &&
                  forall j :: j in repository.rows && j < k ==> repository.rows[j].orderId != orderId
    {
      match repository.FindByOrderId(orderId)
      case None => Failure(OrderNotFound)
      case Some(p) => Success(MapToResponse(p))
    }
  }
}
