/** The persisted payment record and its status enumeration. */
module Entity {
  import opened Wrappers

  /** The four states a payment can be in. */
  datatype PaymentStatus = PENDING | SUCCESS | FAILED | REFUNDED

  /** The constant's name, as the enumeration's `name()` gives it. */
  function Name(s: PaymentStatus): string
  {
    match s
    case PENDING => "PENDING"
    case SUCCESS => "SUCCESS"
    case FAILED => "FAILED"
    case REFUNDED => "REFUNDED"
  }

  /** Distinct states have distinct names, so a name identifies its state. */
  lemma NameInjective(a: PaymentStatus, b: PaymentStatus)
    ensures Name(a) == Name(b) <==> a == b
  {
    if a != b {
      assert Name(a)[0] != Name(b)[0];
    }
  }

  /** The creation time of a record; only stored and copied, never inspected. */
  datatype Timestamp = Timestamp(ticks: int)

  /** A payment row. `id` is absent until the record is first saved. */
  datatype Payment = Payment(
    id: Option<int>,
    paymentId: string,
    orderId: string,
    idempotencyKey: string,
    userId: int,
    amount: int,
    status: PaymentStatus,
    transactionId: Option<string>,
    failureReason: Option<string>,
    createdAt: Timestamp)
}
