/** The payment table behind the service: rows keyed by a generated numeric id,
    with lookups by id, by order id and by idempotency key, and an
    insert-or-update `save`. */
module Repository {
  import opened Wrappers
  import opened Entity

  /** The table's contents and the next id its identity column hands out. */
  datatype Store = Store(rows: map<int, Payment>, nextId: int)

  /** Ids are handed out from 1 upward, and every row carries its own id. */
  ghost predicate WellFormed(s: Store)
  {
    1 <= s.nextId &&
    forall k :: k in s.rows ==> 1 <= k < s.nextId && s.rows[k].id == Some(k)
  }

  /** The two secondary lookups the service uses. */
  datatype Query = ByOrderId(orderId: string) | ByIdempotencyKey(key: string)

  predicate Matches(p: Payment, q: Query)
  {
    match q
    case ByOrderId(o) => p.orderId == o
    case ByIdempotencyKey(k) => p.idempotencyKey == k
  }

  /** The lowest id in [lo, hi) whose row matches `q`, if any. */
  function FirstMatch(rows: map<int, Payment>, q: Query, lo: int, hi: int): (r: Option<int>)
    decreases hi - lo
    ensures r.Some? ==> lo <= r.value < hi && r.value in rows && Matches(rows[r.value], q)
    ensures r.Some? ==> forall k :: lo <= k < r.value && k in rows ==> !Matches(rows[k], q)
    ensures r.None? ==> forall k :: lo <= k < hi && k in rows ==> !Matches(rows[k], q)
  {
    if hi <= lo then None
    else if lo in rows && Matches(rows[lo], q) then Some(lo)
    else FirstMatch(rows, q, lo + 1, hi)
  }

  /** The row a secondary lookup finds: the one with the lowest id among those
      that match, and none exactly when no row matches. */
  function Find(s: Store, q: Query): (r: Option<int>)
    requires WellFormed(s)
    ensures r.Some? ==> r.value in s.rows && Matches(s.rows[r.value], q)
    ensures r.Some? ==> forall k :: k in s.rows && k < r.value ==> !Matches(s.rows[k], q)
    ensures r.None? <==> forall k :: k in s.rows ==> !Matches(s.rows[k], q)
  {
    FirstMatch(s.rows, q, 1, s.nextId)
  }

  /** `save` on a store value: a record without an id is inserted under the next
      id, which is then used up; a record with an id overwrites its row. The
      saved record is returned. */
  function Stored(s: Store, p: Payment): (r: (Store, Payment))
    requires WellFormed(s)
    requires p.id.Some? ==> p.id.value in s.rows
    ensures WellFormed(r.0)
    ensures r.1.id.Some? && r.0.rows == s.rows[r.1.id.value := r.1]
    ensures p.id.None? ==> s.nextId !in s.rows && r.1 == p.(id := Some(s.nextId))
    ensures p.id.Some? ==> r.1 == p && r.0.nextId == s.nextId
  {
    match p.id
    case None =>
      var saved := p.(id := Some(s.nextId));
      (Store(s.rows[s.nextId := saved], s.nextId + 1), saved)
    case Some(k) =>
      (s.(rows := s.rows[k := p]), p)
  }

  /** The repository object the service holds; its fields are the table. */
  class PaymentRepository {
    var rows: map<int, Payment>
    var nextId: int

    function Snapshot(): Store
      reads this
    {
      Store(rows, nextId)
    }

    ghost predicate Valid()
      reads this
    {
      WellFormed(Snapshot())
    }

    constructor ()
      ensures Valid() && Snapshot() == Store(map[], 1)
    {
      rows := map[];
      nextId := 1;
    }

    /** `findById`: the row stored under `id`, absent when there is none. */
    function FindById(id: int): (r: Option<Payment>)
      reads this
      ensures r.Some? <==> id in rows
      ensures r.Some? ==> r.value == rows[id]
    {
      if id in rows then Some(rows[id]) else None
    }

    /** `findByOrderId`: a row for the order (the lowest id among several),
        absent exactly when no row carries that order id. */
    function FindByOrderId(orderId: string): (r: Option<Payment>)
      reads this
      requires Valid()
      ensures r.None? <==> forall k :: k in rows ==> rows[k].orderId != orderId
      ensures r.Some? ==> r.value.orderId == orderId && r.value.id.Some? && r.value.id.value in rows
      ensures r.Some? ==> rows[r.value.id.value] == r.value
      ensures r.Some? ==> forall k :: k in rows && k < r.value.id.value ==> rows[k].orderId != orderId
    {
      match Find(Snapshot(), ByOrderId(orderId))
      case None => None
      case Some(k) => Some(rows[k])
    }

    /** `findByIdempotencyKey`: a row carrying the key, absent exactly when no
        row carries it. */
    function FindByIdempotencyKey(key: string): (r: Option<Payment>)
      reads this
      requires Valid()
      ensures r.None? <==> forall k :: k in rows ==> rows[k].idempotencyKey != key
      ensures r.Some? ==> r.value.idempotencyKey == key && r.value.id.Some? && r.value.id.value in rows
      ensures r.Some? ==> rows[r.value.id.value] == r.value
    {
      match Find(Snapshot(), ByIdempotencyKey(key))
      case None => None
      case Some(k) => Some(rows[k])
    }

    /** `save`: insert a new record under a fresh id, or overwrite a stored one. */
    method Save(p: Payment) returns (saved: Payment)
      requires Valid()
      requires p.id.Some? ==> p.id.value in rows
      modifies this
      ensures Valid()
      ensures (Snapshot(), saved) == Stored(old(Snapshot()), p)
    {
      if p.id.None? {
        saved := p.(id := Some(nextId));
        rows := rows[nextId := saved];
        nextId := nextId + 1;
      } else {
        saved := p;
        rows := rows[p.id.value := p];
      }
    }
  }
}
