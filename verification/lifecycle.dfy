/**
 * Whole runs of the service: a sequence of requests applied to the products
 * table, and the invariants every run keeps.
 */
module Lifecycle {
  import opened Domain
  import opened Dtos
  import opened ProductRules

  /** One mutating call on the service, with its clock readings and fresh Id. */
  datatype Request =
    | CreateRequest(id: Guid, create: CreateProductDto, createdNow: Instant, updatedNow: Instant)
    | UpdateRequest(id: Guid, update: UpdateProductDto, now: Instant)
    | DeleteRequest(id: Guid)
    | UpdateImageRequest(id: Guid, imageUrl: string, now: Instant)

  /** A Create gets an Id not yet in the table (Guid.NewGuid never repeats). */
  predicate FreshId(t: Table, req: Request) {
    req.CreateRequest? ==> req.id !in t
  }

  /** The table after one request. */
  function Apply(t: Table, req: Request): Table
    requires FreshId(t, req)
  {
    match req
    case CreateRequest(id, dto, c, u) => Created(t, id, dto, c, u)
    case UpdateRequest(id, dto, now) => Updated(t, id, dto, now)
    case DeleteRequest(id) => Deleted(t, id)
    case UpdateImageRequest(id, url, now) => ImageUpdated(t, id, url, now)
  }

  /** Every Create of the run gets an Id not in the table it meets. */
  predicate ValidRun(t: Table, reqs: seq<Request>)
    decreases |reqs|
  {
    reqs == [] || (FreshId(t, reqs[0]) && ValidRun(Apply(t, reqs[0]), reqs[1..]))
  }

  /** The table after the whole run. */
  function Run(t: Table, reqs: seq<Request>): Table
    requires ValidRun(t, reqs)
    decreases |reqs|
  {
    if reqs == [] then t else Run(Apply(t, reqs[0]), reqs[1..])
  }

  /** The clock does not read earlier than any timestamp already stored. */
  predicate ClockNotBehind(t: Table, now: Instant) {
    forall k :: k in t ==> t[k].updatedAt <= now
  }

  /**
   * The clock readings a request carries do not run backwards: not behind
   * the stored timestamps, and the two readings of a Create in order.
   */
  predicate ClockInOrder(t: Table, req: Request) {
    match req
    case CreateRequest(_, _, c, u) => ClockNotBehind(t, c) && c <= u
    case UpdateRequest(_, _, now) => ClockNotBehind(t, now)
    case DeleteRequest(_) => true
    case UpdateImageRequest(_, _, now) => ClockNotBehind(t, now)
  }

  /** The clock does not run backwards anywhere in the run. */
  predicate ClockedRun(t: Table, reqs: seq<Request>)
    requires ValidRun(t, reqs)
    decreases |reqs|
  {
    reqs == [] || (ClockInOrder(t, reqs[0]) && ClockedRun(Apply(t, reqs[0]), reqs[1..]))
  }

  /** Some request of the run creates a product with this Id. */
  predicate CreatesId(reqs: seq<Request>, k: Guid) {
    exists i :: 0 <= i < |reqs| && reqs[i].CreateRequest? && reqs[i].id == k
  }

  /** The table invariant: rows stored under their Id, never modified before created. */
  predicate Consistent(t: Table) {
    KeyedById(t) && forall k :: k in t ==> t[k].createdAt <= t[k].updatedAt
  }

  lemma ApplyKeepsConsistent(t: Table, req: Request)
    requires Consistent(t) && FreshId(t, req) && ClockInOrder(t, req)
    ensures Consistent(Apply(t, req))
  {
  }

  /** Every run from a consistent table, with a clock that does not run backwards, ends in a consistent table. */
  lemma {:induction false} RunKeepsConsistent(t: Table, reqs: seq<Request>)
    requires Consistent(t) && ValidRun(t, reqs) && ClockedRun(t, reqs)
    ensures Consistent(Run(t, reqs))
    decreases |reqs|
  {
    if reqs != [] {
      ApplyKeepsConsistent(t, reqs[0]);
      RunKeepsConsistent(Apply(t, reqs[0]), reqs[1..]);
    }
  }

  /** No row appears that was neither there before nor created by the run. */
  lemma {:induction false} RunOnlyCreatesRequestedIds(t: Table, reqs: seq<Request>)
    requires ValidRun(t, reqs)
    ensures forall k :: k in Run(t, reqs) ==> k in t || CreatesId(reqs, k)
    decreases |reqs|
  {
    if reqs != [] {
      var t1 := Apply(t, reqs[0]);
      RunOnlyCreatesRequestedIds(t1, reqs[1..]);
      forall k | k in Run(t, reqs)
        ensures k in t || CreatesId(reqs, k)
      {
        if k in t1 && k !in t {
          assert reqs[0].CreateRequest? && reqs[0].id == k;
        } else if k !in t1 {
          var i :| 0 <= i < |reqs[1..]| && reqs[1..][i].CreateRequest? && reqs[1..][i].id == k;
          assert reqs[i + 1] == reqs[1..][i];
        }
      }
    }
  }

  /**
   * A product that survives a run in which nothing re-creates its Id keeps
   * its Id and its creation time.
   */
  lemma {:induction false} RunKeepsIdentity(t: Table, reqs: seq<Request>, k: Guid)
    requires ValidRun(t, reqs)
    requires k in t && k in Run(t, reqs) && !CreatesId(reqs, k)
    ensures Run(t, reqs)[k].id == t[k].id && Run(t, reqs)[k].createdAt == t[k].createdAt
    decreases |reqs|
  {
    if reqs != [] {
      var t1 := Apply(t, reqs[0]);
      assert !CreatesId(reqs[1..], k) by {
        forall i | 0 <= i < |reqs[1..]|
          ensures !(reqs[1..][i].CreateRequest? && reqs[1..][i].id == k)
        {
          assert reqs[1..][i] == reqs[i + 1];
        }
      }
      assert !(reqs[0].CreateRequest? && reqs[0].id == k);
      RunOnlyCreatesRequestedIds(t1, reqs[1..]);
      assert k in t1;
      RunKeepsIdentity(t1, reqs[1..], k);
    }
  }
}
