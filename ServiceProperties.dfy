/** Properties of the payment service that relate several calls or hold of
    every call: idempotent charging, the shape of a fresh charge, the legal
    status transitions, terminal states, and the caller's view of a record. */
module ServiceProperties {
  import opened Wrappers
  import opened Entity
  import opened Dto
  import opened Repository
  import opened Service

  /** The response carries every caller-visible field of the record verbatim:
      two records give the same response exactly when they agree on id, order,
      amount, status, transaction reference, failure reason and creation time. */
  lemma ResponseDeterminesVisibleFields(p: Payment, q: Payment)
    ensures MapToResponse(p) == MapToResponse(q) <==>
              p.id == q.id && p.orderId == q.orderId && p.amount == q.amount &&
              p.status == q.status && p.transactionId == q.transactionId &&
              p.failureReason == q.failureReason && p.createdAt == q.createdAt
  {
    NameInjective(p.status, q.status);
  }

  /** A charge under a key some record already carries returns that record's
      view and leaves the table untouched, whatever the request and gateway say. */
  lemma ChargeExistingKey(s: Store, request: ChargeRequest, key: string, userId: int, env: Environment, k: int)
    requires Consistent(s)
    requires k in s.rows && s.rows[k].idempotencyKey == key
    ensures ChargeStep(s, request, key, userId, env) == (s, MapToResponse(s.rows[k]))
  {
    assert Matches(s.rows[k], ByIdempotencyKey(key));
  }

  /** A charge under a key no record carries adds exactly one record, under the
      next id, with the request's order and amount, the key and the user; it is
      settled by the gateway's decision and every earlier record is untouched. */
  lemma ChargeFreshKey(s: Store, request: ChargeRequest, key: string, userId: int, env: Environment)
    requires Consistent(s)
    requires forall k :: k in s.rows ==> s.rows[k].idempotencyKey != key
    ensures var (t, response) := ChargeStep(s, request, key, userId, env);
            var id := s.nextId;
            id !in s.rows && t.rows.Keys == s.rows.Keys + {id} && t.nextId == id + 1 &&
            (forall k :: k in s.rows ==> t.rows[k] == s.rows[k]) &&
            var p := t.rows[id];
            p.id == Some(id) && p.idempotencyKey == key && p.orderId == request.orderId &&
            p.userId == userId && p.amount == request.amount && p.createdAt == env.now &&
            p.paymentId == PaymentIdPrefix + env.paymentSuffix &&
            (env.approved ==> p.status == SUCCESS && p.failureReason.None? &&
                              p.transactionId == Some(TransactionIdPrefix + env.transactionSuffix)) &&
            (!env.approved ==> p.status == FAILED && p.transactionId.None? &&
                               p.failureReason == Some(DeclineReason)) &&
            response == MapToResponse(p) && response.status != Name(PENDING)
  {
  }

  /** Idempotence: charging twice with the same key returns the same response
      (id, status, transaction reference, failure reason and all) and the second
      call changes nothing, whatever its request, user and gateway outcome. */
  lemma ChargeTwice(s: Store, key: string,
                    request1: ChargeRequest, userId1: int, env1: Environment,
                    request2: ChargeRequest, userId2: int, env2: Environment)
    requires Consistent(s)
    ensures var (s1, r1) := ChargeStep(s, request1, key, userId1, env1);
            ChargeStep(s1, request2, key, userId2, env2) == (s1, r1)
  {
    var (s1, r1) := ChargeStep(s, request1, key, userId1, env1);
    ChargeKeepsConsistent(s, request1, key, userId1, env1);
    match Find(s, ByIdempotencyKey(key))
    case Some(k) =>
      ChargeExistingKey(s1, request2, key, userId2, env2, k);
    case None =>
      ChargeFreshKey(s, request1, key, userId1, env1);
      ChargeExistingKey(s1, request2, key, userId2, env2, s.nextId);
  }

  /** The transitions a call may apply to an existing record: none, or a
      successful payment becoming refunded with everything but the failure
      reason kept. */
  ghost predicate LegalChange(before: Payment, after: Payment)
  {
    after == before ||
    (before.status == SUCCESS && after == before.(status := REFUNDED, failureReason := after.failureReason))
  }

  /** Neither call deletes a record, and each record it keeps changes only along
      a legal transition. */
  lemma StepsFollowStateMachine(s: Store, request: ChargeRequest, key: string, userId: int,
                                env: Environment, refund: RefundRequest)
    requires Consistent(s)
    ensures var t := ChargeStep(s, request, key, userId, env).0;
            s.rows.Keys <= t.rows.Keys && forall k :: k in s.rows ==> LegalChange(s.rows[k], t.rows[k])
    ensures var t := RefundStep(s, refund).0;
            s.rows.Keys <= t.rows.Keys && forall k :: k in s.rows ==> LegalChange(s.rows[k], t.rows[k])
  {
  }

  /** Terminality: a failed or refunded payment is never changed again, by a
      charge under any key or by any refund. */
  lemma TerminalRecordsNeverChange(s: Store, k: int, request: ChargeRequest, key: string, userId: int,
                                   env: Environment, refund: RefundRequest)
    requires Consistent(s)
    requires k in s.rows && (s.rows[k].status == FAILED || s.rows[k].status == REFUNDED)
    ensures ChargeStep(s, request, key, userId, env).0.rows[k] == s.rows[k]
    ensures RefundStep(s, refund).0.rows[k] == s.rows[k]
    ensures refund.paymentId == k ==> RefundStep(s, refund) == (s, Failure(NotRefundable))
  {
  }

  /** A refunded payment cannot be refunded again: the second refund of the same
      id is `BadRequest` and leaves the table as the first one left it. */
  lemma RefundTwice(s: Store, first: RefundRequest, second: RefundRequest)
    requires WellFormed(s)
    requires RefundStep(s, first).1.Success?
    requires second.paymentId == first.paymentId
    ensures var s1 := RefundStep(s, first).0;
            RefundStep(s1, second) == (s1, Failure(NotRefundable))
  {
  }

  /** A charge and a later refund of the same payment: an approved charge can be
      refunded once, a declined one cannot, and repeating the approved charge's
      key returns the same record. */
  lemma ChargeThenRefund(s: Store, request: ChargeRequest, key: string, userId: int, env: Environment,
                         reason: Option<string>)
    requires Consistent(s)
    requires forall k :: k in s.rows ==> s.rows[k].idempotencyKey != key
    ensures var (s1, charged) := ChargeStep(s, request, key, userId, env);
            var (s2, refunded) := RefundStep(s1, RefundRequest(s.nextId, reason));
            charged.id == Some(s.nextId) &&
            (env.approved ==>
               refunded.Success? && refunded.value.status == Name(REFUNDED) &&
               refunded.value.failureReason == reason &&
               refunded.value.transactionId == charged.transactionId) &&
            (!env.approved ==> s2 == s1 && refunded == Failure(NotRefundable))
  {
  }

  /** A walk-through from an empty table: order "ORD-1" charged
      under "K1" and approved, then charged again under "K1" with the gateway now
      declining, then refunded; order "ORD-2" charged under "K2" and declined,
      then refused a refund. */
  lemma Walkthrough(t1: Timestamp, t2: Timestamp)
    ensures var empty := Store(map[], 1);
            var approve := Environment(true, "0A1B2C3D", "tx-1", t1);
            var decline := Environment(false, "4E5F6A7B", "tx-2", t2);
            var (s1, a) := ChargeStep(empty, ChargeRequest("ORD-1", 10000), "K1", 7, approve);
            var (s2, c) := ChargeStep(s1, ChargeRequest("ORD-1", 10000), "K1", 7, decline);
            var (s3, b) := ChargeStep(s2, ChargeRequest("ORD-2", 10000), "K2", 7, decline);
            var (s4, d) := RefundStep(s3, RefundRequest(2, Some("customer request")));
            var (s5, e) := RefundStep(s4, RefundRequest(1, Some("customer request")));
            a.status == "SUCCESS" && a.transactionId == Some("TXN-tx-1") && a.failureReason.None? &&
            c == a && s2 == s1 &&
            b.status == "FAILED" && b.failureReason == Some("Insufficient funds (mock failure)") &&
            b.transactionId.None? &&
            d == Failure(BadRequest("Only successful payments can be refunded")) && s4 == s3 &&
            e.Success? && e.value.id == Some(1) && e.value.status == "REFUNDED" &&
            e.value.failureReason == Some("customer request") && e.value.transactionId == a.transactionId
  {
    var empty := Store(map[], 1);
    var approve := Environment(true, "0A1B2C3D", "tx-1", t1);
    var decline := Environment(false, "4E5F6A7B", "tx-2", t2);
    var order1, order2 := ChargeRequest("ORD-1", 10000), ChargeRequest("ORD-2", 10000);
    var reason := Some("customer request");
    ChargeFreshKey(empty, order1, "K1", 7, approve);
    ChargeKeepsConsistent(empty, order1, "K1", 7, approve);
    var (s1, a) := ChargeStep(empty, order1, "K1", 7, approve);
    assert s1.rows.Keys == {1} && s1.rows[1].idempotencyKey == "K1";
    ChargeTwice(empty, "K1", order1, 7, approve, order1, 7, decline);
    var (s2, c) := ChargeStep(s1, order1, "K1", 7, decline);
    assert s2 == s1 && c == a;
    assert "K1"[1] != "K2"[1];
    ChargeFreshKey(s1, order2, "K2", 7, decline);
    ChargeKeepsConsistent(s1, order2, "K2", 7, decline);
    var (s3, b) := ChargeStep(s2, order2, "K2", 7, decline);
    assert s3.rows[2].status == FAILED && s3.rows[1] == s1.rows[1];
    ChargeThenRefund(s1, order2, "K2", 7, decline, reason);
    var (s4, d) := RefundStep(s3, RefundRequest(2, reason));
    assert s4 == s3;
    var (s5, e) := RefundStep(s4, RefundRequest(1, reason));
    assert s4.rows[1].status == SUCCESS;
    assert TransactionIdPrefix + "tx-1" == "TXN-tx-1";
  }
}
