/** `ObjectPool` (one FIFO queue of recycled objects per C# type) and
    `BytesPool` (one FIFO queue of byte arrays per array length). Objects are
    modelled by identity only: `new T()` hands out the next unused id. */
module ObjectPools {
  import opened Wrappers

  /** A C# type used as a pool key (`typeof(T)`). */
  type TypeKey = nat

  /** The identity of a pooled object. */
  type Obj = nat

  /** The per-type queues, `InitCount`, and the next id `new T()` yields. */
  datatype ObjectPool = ObjectPool(queues: map<TypeKey, seq<Obj>>, initCount: int, nextFresh: nat)

  /** A new pool: no queues, `InitCount` 100. */
  function NewObjectPool(nextFresh: nat): (p: ObjectPool)
    ensures p.queues == map[] && p.initCount == 100
  {
    ObjectPool(map[], 100, nextFresh)
  }

  /** The queue for type `t`, empty when the dictionary has none yet. */
  function QueueOf(p: ObjectPool, t: TypeKey): seq<Obj> {
    if t in p.queues then p.queues[t] else []
  }

  /** `GetQueue<T>`: looks the queue up, adding an empty one when missing. */
  function GetQueue(p: ObjectPool, t: TypeKey): (p': ObjectPool)
    ensures t in p'.queues && p'.queues[t] == QueueOf(p, t)
    ensures forall u :: u != t ==> QueueOf(p', u) == QueueOf(p, u)
    ensures p'.initCount == p.initCount && p'.nextFresh == p.nextFresh
  {
    if t in p.queues then p else p.(queues := p.queues[t := []])
  }

  /** The ids `from, from + 1, …, from + n - 1`. */
  function FreshIds(from: nat, n: nat): (ids: seq<Obj>)
    ensures |ids| == n
    ensures forall i :: 0 <= i < n ==> ids[i] == from + i
  {
    seq(n, i => from + i)
  }

  /** `Expansion<T>`: enqueues `InitCount` newly constructed objects (none when
      `InitCount` is not positive). */
  function Expansion(p: ObjectPool, t: TypeKey): (p': ObjectPool)
    ensures var n := if p.initCount > 0 then p.initCount else 0;
      && QueueOf(p', t) == QueueOf(p, t) + FreshIds(p.nextFresh, n)
      && p'.nextFresh == p.nextFresh + n
    ensures forall u :: u != t ==> QueueOf(p', u) == QueueOf(p, u)
    ensures p'.initCount == p.initCount
  {
    var n := if p.initCount > 0 then p.initCount else 0;
    var q := GetQueue(p, t);
    q.(queues := q.queues[t := q.queues[t] + FreshIds(p.nextFresh, n)], nextFresh := p.nextFresh + n)
  }

  /** The result of `Get<T>`: the dequeued object and the pool after it, or
      the pool as it stood when `Queue.Dequeue` threw on an empty queue. */
  datatype GetOutcome = Got(obj: Obj, pool: ObjectPool) | EmptyQueue(pool: ObjectPool)

  /** `Get<T>`: refills an empty queue with `InitCount` fresh objects, then
      dequeues the head. */
  function Get(p: ObjectPool, t: TypeKey): (o: GetOutcome)
    ensures |QueueOf(p, t)| > 0 ==>
      o == Got(QueueOf(p, t)[0], o.pool) && QueueOf(o.pool, t) == QueueOf(p, t)[1..]
      && o.pool.nextFresh == p.nextFresh
    ensures |QueueOf(p, t)| == 0 && p.initCount > 0 ==>
      o == Got(p.nextFresh, o.pool)
      && QueueOf(o.pool, t) == FreshIds(p.nextFresh + 1, p.initCount - 1)
      && o.pool.nextFresh == p.nextFresh + p.initCount
    ensures |QueueOf(p, t)| == 0 && p.initCount <= 0 ==> o.EmptyQueue? && QueueOf(o.pool, t) == []
    ensures forall u :: u != t ==> QueueOf(o.pool, u) == QueueOf(p, u)
    ensures o.pool.initCount == p.initCount
  {
    var p1 := GetQueue(p, t);
    var p2 := if |p1.queues[t]| == 0 then Expansion(p1, t) else p1;
    var q := QueueOf(p2, t);
    if |q| == 0 then EmptyQueue(p2)
    else Got(q[0], p2.(queues := p2.queues[t := q[1..]]))
  }

  /** `Put<T>`: enqueues the object at the back of its type's queue. */
  function Put(p: ObjectPool, t: TypeKey, obj: Obj): (p': ObjectPool)
    ensures QueueOf(p', t) == QueueOf(p, t) + [obj]
    ensures forall u :: u != t ==> QueueOf(p', u) == QueueOf(p, u)
    ensures p'.initCount == p.initCount && p'.nextFresh == p.nextFresh
  {
    var q := GetQueue(p, t);
    q.(queues := q.queues[t := q.queues[t] + [obj]])
  }

  /** `Clear`: drops every queue. */
  function Clear(p: ObjectPool): (p': ObjectPool)
    ensures forall t :: QueueOf(p', t) == []
    ensures p'.initCount == p.initCount && p'.nextFresh == p.nextFresh
  {
    p.(queues := map[])
  }

  /** Objects come back out in the order they were put in: putting an object
      into an empty queue and getting from it returns that very object and
      leaves the queue empty again. */
  lemma PutThenGet(p: ObjectPool, t: TypeKey, obj: Obj)
    requires QueueOf(p, t) == []
    ensures Get(Put(p, t, obj), t) == Got(obj, Get(Put(p, t, obj), t).pool)
    ensures QueueOf(Get(Put(p, t, obj), t).pool, t) == []
  {
  }

  /** Two puts and two gets preserve order. */
  lemma {:induction false} PutPutGetGet(p: ObjectPool, t: TypeKey, a: Obj, b: Obj)
    requires QueueOf(p, t) == []
    ensures var p2 := Put(Put(p, t, a), t, b);
      var g1 := Get(p2, t);
      var g2 := Get(g1.pool, t);
      g1.Got? && g1.obj == a && g2.Got? && g2.obj == b && QueueOf(g2.pool, t) == []
  {
    var p2 := Put(Put(p, t, a), t, b);
    assert QueueOf(p2, t) == [a, b];
    var g1 := Get(p2, t);
    assert QueueOf(g1.pool, t) == [b];
  }

  // ---------------------------------------------------------------------
  // BytesPool

  /** A byte array by identity and length; its contents are not modelled. */
  datatype ByteArray = ByteArray(id: nat, length: nat)

  /** The per-length queues and the next id `new byte[len]` yields. */
  datatype BytesPool = BytesPool(queues: map<int, seq<ByteArray>>, nextFresh: nat)

  /** Every queue holds arrays of exactly its key's length. */
  predicate Filed(p: BytesPool) {
    forall len | len in p.queues :: forall i | 0 <= i < |p.queues[len]| :: p.queues[len][i].length == len
  }

  /** `BytesPool.Get(len)`: null for a non-positive length; otherwise the head
      of that length's queue, allocating a new array when the queue is missing
      or empty. */
  function GetBytes(p: BytesPool, len: int): (r: (Option<ByteArray>, BytesPool))
    requires Filed(p)
    ensures Filed(r.1)
    ensures len <= 0 <==> r.0.None?
    ensures len <= 0 ==> r.1 == p
    ensures r.0.Some? ==> r.0.value.length == len
    ensures len > 0 && len in p.queues && |p.queues[len]| > 0 ==>
      r.0 == Some(p.queues[len][0]) && r.1.queues == p.queues[len := p.queues[len][1..]]
    ensures len > 0 && (len !in p.queues || |p.queues[len]| == 0) ==>
      r.0 == Some(ByteArray(p.nextFresh, len)) && r.1.queues == p.queues[len := []]
  {
    if len <= 0 then (None, p)
    else if len in p.queues && |p.queues[len]| > 0 then
      (Some(p.queues[len][0]), p.(queues := p.queues[len := p.queues[len][1..]]))
    else
      (Some(ByteArray(p.nextFresh, len)), BytesPool(p.queues[len := []], p.nextFresh + 1))
  }

  /** `BytesPool.Put(data)`: ignores a null or empty array, otherwise files it
      at the back of the queue for its length. */
  function PutBytes(p: BytesPool, data: Option<ByteArray>): (p': BytesPool)
    requires Filed(p)
    ensures Filed(p')
    ensures data.None? || data.value.length == 0 ==> p' == p
    ensures data.Some? && data.value.length > 0 ==>
      var len := data.value.length;
      && len in p'.queues
      && p'.queues[len] == (if len in p.queues then p.queues[len] else []) + [data.value]
      && (forall k :: k != len ==> (k in p'.queues <==> k in p.queues))
      && (forall k | k in p.queues && k != len :: p'.queues[k] == p.queues[k])
  {
    if data.None? || data.value.length == 0 then p
    else
      var len := data.value.length;
      var q := if len in p.queues then p.queues[len] else [];
      p.(queues := p.queues[len := q + [data.value]])
  }

  /** An array put back into a pool with no spare arrays of its length is the
      one the next `Get` of that length returns. */
  lemma PutBytesThenGet(p: BytesPool, a: ByteArray)
    requires Filed(p) && a.length > 0
    requires a.length !in p.queues || p.queues[a.length] == []
    ensures GetBytes(PutBytes(p, Some(a)), a.length).0 == Some(a)
  {
  }

  /** `BytesPool.Clear`. */
  function ClearBytes(p: BytesPool): (p': BytesPool)
    ensures Filed(p') && p'.queues == map[]
  {
    p.(queues := map[])
  }
}
