/** The request and response shapes the service exchanges with its callers. */
module Dto {
  import opened Wrappers
  import opened Entity

  /** A charge: which order, and how much (in the smallest currency unit). */
  datatype ChargeRequest = ChargeRequest(orderId: string, amount: int)

  /** A refund: which payment, and an optional reason. */
  datatype RefundRequest = RefundRequest(paymentId: int, reason: Option<string>)

  /** What callers see of a payment; the status is carried by its name. */
  datatype PaymentResponse = PaymentResponse(
    id: Option<int>,
    orderId: string,
    amount: int,
    status: string,
    transactionId: Option<string>,
    failureReason: Option<string>,
    createdAt: Timestamp)
}
