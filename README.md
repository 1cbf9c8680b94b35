# Payment service model

A Dafny model of the payment orchestration of a ticketing system's payment
service. The service charges an order under a client-supplied idempotency key,
refunds successful payments, and looks payments up by id or by order id. Every
result is returned as a response view of the stored record.

- `Entity` (Entity.dfy): the `PaymentStatus` enumeration (`PENDING`,
  `SUCCESS`, `FAILED`, `REFUNDED`) with its constant names, and the `Payment` record.
- `Dto` (Dto.dfy): the charge and refund requests and the `PaymentResponse` view.
- `Repository` (Repository.dfy): the payment table. It is a map from the
  generated numeric id to the record, plus the next id the identity column hands
  out. It offers lookups by id, by order id and by idempotency key, and an
  insert-or-update `save`. `PaymentRepository` is the mutable object, and
  `Store` is its value.
- `Service` (Service.dfy): the `PaymentService` class. `Charge` and `Refund`
  are imperative methods that update the record step by step and save it.
  Each is proved equal to a specification function on store values
  (`ChargeStep`, `RefundStep`). Each keeps the table invariant `Consistent`:
  ids are well formed, no two rows share an idempotency key, and every row is
  settled. A settled row is never `PENDING`. It has a `TXN-` transaction reference
  exactly when the gateway approved, and a failed row carries the decline reason.
  The getters are functions that read the repository.
- `ServiceProperties` (ServiceProperties.dfy): lemmas relating several calls.
  They cover idempotence, the shape of a fresh charge, legal transitions,
  terminal states, the response projection, and a worked example.

Inputs from outside the model are parameters of `Charge`, bundled as an
`Environment`. These are the gateway's approve/decline decision, the random
suffixes of the `PAY-` and `TXN-` references, and the creation time.

## Model

| member | source | states |
|---|---|---|
| Repository.FirstMatch | src/main/java/com/ticketing/payment/service/PaymentService.java:30 | the lowest id in a range whose row matches the lookup; none exactly when no row in the range matches |
| Repository.Find | src/main/java/com/ticketing/payment/service/PaymentService.java:87 | a secondary lookup finds a matching row, the one with the lowest id, and finds nothing exactly when no row matches |
| Repository.Stored | src/main/java/com/ticketing/payment/service/PaymentService.java:44 | save assigns the next id to a new record and stores it; a record with an id overwrites its row; the table stays well formed |
| Repository.PaymentRepository.FindById | src/main/java/com/ticketing/payment/service/PaymentService.java:65 | a row is found exactly when its id is stored, and it is that row |
| Repository.PaymentRepository.FindByOrderId | src/main/java/com/ticketing/payment/service/PaymentService.java:87 | a row with the order id is found, the lowest-id one; nothing is found exactly when no row has that order id |
| Repository.PaymentRepository.FindByIdempotencyKey | src/main/java/com/ticketing/payment/service/PaymentService.java:30 | a row with the key is found, and nothing is found exactly when no row carries it |
| Repository.PaymentRepository.Save | src/main/java/com/ticketing/payment/service/PaymentService.java:59 | the table after save is the store-level save of the old table, and it stays well formed |
| Entity.NameInjective | src/main/java/com/ticketing/payment/service/PaymentService.java:97 | two statuses have the same name exactly when they are the same status |
| Service.RefundStep | src/main/java/com/ticketing/payment/service/PaymentService.java:64-78 | an unknown id gives NotFound and a non-SUCCESS payment gives BadRequest, both with the table unchanged; otherwise only that row changes, to REFUNDED with the refund reason, and every other field and row is kept |
| Service.ChargeKeepsConsistent | src/main/java/com/ticketing/payment/service/PaymentService.java:28-61 | a charge keeps ids well formed, keeps idempotency keys unique and leaves every row settled (never PENDING) |
| Service.RefundKeepsConsistent | src/main/java/com/ticketing/payment/service/PaymentService.java:64-78 | a refund keeps the same invariant |
| Service.PaymentService.Charge | src/main/java/com/ticketing/payment/service/PaymentService.java:28-61 | the new table and the response are those of ChargeStep on the old table; the invariant is kept |
| Service.PaymentService.Refund | src/main/java/com/ticketing/payment/service/PaymentService.java:64-78 | the new table and the outcome are those of RefundStep on the old table; the invariant is kept |
| Service.PaymentService.GetPaymentById | src/main/java/com/ticketing/payment/service/PaymentService.java:80-84 | NotFound exactly when no row has the id; otherwise the view of that row, never PENDING |
| Service.PaymentService.GetPaymentByOrderId | src/main/java/com/ticketing/payment/service/PaymentService.java:86-90 | NotFound exactly when no row has the order id; otherwise the view of the lowest-id row for that order, never PENDING |
| ServiceProperties.ResponseDeterminesVisibleFields | src/main/java/com/ticketing/payment/service/PaymentService.java:92-102 | two records give the same response exactly when they agree on id, order id, amount, status, transaction id, failure reason and creation time |
| ServiceProperties.ChargeExistingKey | src/main/java/com/ticketing/payment/service/PaymentService.java:30-34 | a charge under a key already stored returns that record's view and leaves the table unchanged, whatever the request and gateway outcome |
| ServiceProperties.ChargeFreshKey | src/main/java/com/ticketing/payment/service/PaymentService.java:37-60 | a charge under a new key adds exactly one row under the next id, with the key, order, user and amount; approve gives SUCCESS with a TXN- id and no reason; decline gives FAILED with the fixed reason and no transaction id; earlier rows are untouched; the response is never PENDING |
| ServiceProperties.ChargeTwice | src/main/java/com/ticketing/payment/service/PaymentService.java:28-34 | charging twice with one key returns identical responses, and the second call changes nothing, whatever its gateway outcome |
| ServiceProperties.StepsFollowStateMachine | src/main/java/com/ticketing/payment/service/PaymentService.java:28-78 | neither charge nor refund removes a row; each existing row either stays as it is or goes from SUCCESS to REFUNDED with only the failure reason otherwise changed |
| ServiceProperties.TerminalRecordsNeverChange | src/main/java/com/ticketing/payment/service/PaymentService.java:68-72 | a FAILED or REFUNDED row is never changed by any charge or refund |
| ServiceProperties.RefundTwice | src/main/java/com/ticketing/payment/service/PaymentService.java:68-74 | after a successful refund, refunding the same payment again is BadRequest and leaves the table unchanged |
| ServiceProperties.ChargeThenRefund | src/main/java/com/ticketing/payment/service/PaymentService.java:47-74 | an approved fresh charge can be refunded, giving REFUNDED with the reason and the same transaction id; a declined one is refused with BadRequest |
| ServiceProperties.Walkthrough | src/main/java/com/ticketing/payment/service/PaymentService.java:28-78 | from an empty table: approved charge, replay with the same key, declined charge, refused refund, successful refund, each with the result the code gives |

## Left out

- The random gateway decision (the 90% approval rate) is an input boolean. Its probability is not modelled.
- The random UUID suffixes of the `PAY-` and `TXN-` references are inputs. Their truncation and upper-casing are not modelled, and neither is their uniqueness.
- The transaction boundary is not modelled as such. Each call is one atomic step, and concurrent charges racing on one key are not modelled.
- A storage-level uniqueness constraint on the idempotency key, and recovery from the conflict it would raise, are not in the code. Its key check is application level, as modelled.
- The code rejects a refund with one fixed message, "Only successful payments can be refunded". It does not name the current state and the rejected event, and the model follows the code.
- Logging is not modelled.
- `PaymentController` is not modelled: HTTP routing, header extraction, principal casting and request validation (such as a positive amount).
- The monetary amount is a `BigDecimal` in the code and an integer in the model. No arithmetic is done on it.
- Ids and user ids are unbounded integers, not 64-bit values. The id counter never overflows in the model.
- The `PaymentRepository` interface and the `Payment` entity are not part of this model. The repository is a map with an identity counter starting at 1.
- Repository.PaymentRepository.FindByOrderId: when several rows share an order id, it returns the lowest-id one. The real derived query's behaviour for several matches is not modelled.
- `createdAt` is set from the environment when the record is built. The entity's own timestamp hook is not modelled.
- Repository.PaymentRepository.Save: requires that a record carrying an id is already stored. Merging an unknown id is outside the repository abstraction, and the service never does it.
