/**
 * The WebSocket fan-out `Broadcaster`: a registry from connection key to
 * that connection's outbound channel handle, a round-robin queue of the
 * same keys, and a global broadcast channel.
 *
 * Sequential model: every method is one atomic step (the queue lock, the
 * registry shards and `join_all` are not modelled). Each send on a
 * per-connection channel is recorded in `attempts`, and its outcome (the
 * channel may have been closed by its owner at any time) is an unconstrained
 * boolean recorded at the same index of `outcomes`.
 */
module Broadcasting {
  import opened DeliveryQueue
  import opened Fanout

  /** A 128-bit UUID. */
  newtype Uuid = x: int | 0 <= x < 0x1_0000_0000_0000_0000_0000_0000_0000_0000

  /** The connection key `(user_id, ip)`. */
  datatype Key = Key(user: Uuid, ip: string)

  /**
   * A `broadcast::Receiver`: it observes every message published from
   * position `from` of the broadcast log onwards.
   */
  datatype Receiver = Receiver(from: nat)

  /** `broadcast::error::SendError`: the message comes back when nobody listens. */
  datatype SendError<M> = SendError(message: M)

  datatype Result<T, E> = Success(value: T) | Failure(error: E)

  /**
   * After a delivery that appended `Plan(sockets, msgs, targets)` to the
   * attempt log, a handle that no target uses has the same outbox as before.
   */
  lemma UntargetedOutboxes<M>(a: seq<Request<M>>, oa: seq<bool>, sockets: map<Key, SenderId>, msgs: seq<M>, targets: seq<Key>, now: seq<bool>)
    requires |a| == |oa| && |oa| <= |now| && now[..|oa|] == oa
    requires |now| == |a| + |Plan(sockets, msgs, targets)|
    ensures forall tx :: Hits(sockets, targets, tx) == 0 ==>
      Delivered(a + Plan(sockets, msgs, targets), now, tx) == Delivered(a, oa, tx)
  {
    var p := Plan(sockets, msgs, targets);
    assert now == oa + now[|oa|..];
    forall tx | Hits(sockets, targets, tx) == 0
      ensures Delivered(a + p, now, tx) == Delivered(a, oa, tx)
    {
      PlanPerSender(sockets, msgs, targets, tx);
      OutboxUntouched(a, oa, p, now[|oa|..], tx);
    }
  }

  class Broadcaster<M> {
    /** Live receiving ends of the global channel. */
    var receivers: nat
    /** Messages the global channel accepted, in order. */
    var published: seq<M>
    /** The registry `sockets`: connection key to its channel handle. */
    var sockets: map<Key, SenderId>
    /** The round-robin `queue` of connection keys. */
    var queue: seq<Key>
    /** Every send attempted on a per-connection channel, in order. */
    var attempts: seq<Request<M>>
    /** Whether the attempt at the same index succeeded. */
    var outcomes: seq<bool>

    ghost predicate Valid()
      reads this
    {
      |attempts| == |outcomes|
    }

    /** What has reached the channel of `tx` so far. */
    function Outbox(tx: SenderId): seq<M>
      reads this
      requires Valid()
    {
      Delivered(attempts, outcomes, tx)
    }

    /** The messages a receiver has been offered so far. */
    function Observed(rx: Receiver): (r: seq<M>)
      reads this
      requires rx.from <= |published|
      ensures |r| == |published| - rx.from
    {
      published[rx.from..]
    }

    /**
     * `Broadcaster::new`: empty registry and queue; the receiving end the
     * channel is created with is dropped at once, so no receiver is live.
     */
    constructor ()
      ensures Valid()
      ensures sockets == map[] && queue == []
      ensures receivers == 0 && published == []
      ensures attempts == [] && outcomes == []
    {
      receivers := 0;
      published := [];
      sockets := map[];
      queue := [];
      attempts := [];
      outcomes := [];
    }

    /**
     * One `Sender::send` on the handle `tx`. Its outcome is decided outside
     * the broadcaster (the owner of the receiving end may have gone), so it
     * is left unconstrained.
     */
    method Send(tx: SenderId, m: M) returns (ok: bool)
      requires Valid()
      modifies this`attempts, this`outcomes
      ensures Valid()
      ensures attempts == old(attempts) + [Request(tx, m)]
      ensures outcomes == old(outcomes) + [ok]
    {
      ok := *;
      attempts := attempts + [Request(tx, m)];
      outcomes := outcomes + [ok];
    }

    /**
     * `broadcast`: publishes `m` on the global channel and returns how many
     * receivers were live, or gives `m` back when none is.
     */
    method Broadcast(m: M) returns (r: Result<nat, SendError<M>>)
      modifies this`published
      ensures receivers == 0 ==> r == Failure(SendError(m)) && published == old(published)
      ensures receivers > 0 ==> r == Success(receivers) && published == old(published) + [m]
      ensures r.Success? ==> r.value > 0
      ensures forall rx: Receiver :: rx.from <= old(|published|) && r.Success? ==>
        Observed(rx) == old(published[rx.from..]) + [m]
    {
      if receivers == 0 {
        return Failure(SendError(m));
      }
      published := published + [m];
      return Success(receivers);
    }

    /**
     * `batch`: one attempt to send `m` on the handle of each registered
     * target, none for unregistered ones; a failed attempt does not stop
     * the others. Registry and queue are unchanged.
     */
    method Batch(m: M, targets: seq<Key>)
      requires Valid()
      modifies this`attempts, this`outcomes
      ensures Valid()
      ensures attempts == old(attempts) + Plan(sockets, [m], targets)
      ensures sockets == old(sockets) && queue == old(queue)
      ensures |old(outcomes)| <= |outcomes| && outcomes[..|old(outcomes)|] == old(outcomes)
      ensures forall tx :: Hits(sockets, targets, tx) == 0 ==> Outbox(tx) == old(Outbox(tx))
    {
      var i := 0;
      while i < |targets|
        invariant 0 <= i <= |targets|
        invariant Valid()
        invariant attempts == old(attempts) + Plan(sockets, [m], targets[..i])
        invariant |old(outcomes)| <= |outcomes| && outcomes[..|old(outcomes)|] == old(outcomes)
      {
        var target := targets[i];
        assert targets[..i + 1][..i] == targets[..i];
        if target in sockets {
          var _ := Send(sockets[target], m);
          assert Stamp(sockets[target], [m]) == [Request(sockets[target], m)];
        }
        i := i + 1;
      }
      assert targets[..i] == targets;
      UntargetedOutboxes(old(attempts), old(outcomes), sockets, [m], targets, outcomes);
    }

    /** `move_queue`: drains the first `min(count, |queue|)` keys, puts them back at the end, and returns them. */
    method MoveQueue(count: nat) returns (drained: seq<Key>)
      modifies this`queue
      ensures drained == Selected(old(queue), count)
      ensures queue == Rotated(old(queue), count)
      ensures |queue| == |old(queue)| && multiset(queue) == multiset(old(queue))
    {
      RotatedKeepsKeys(queue, count);
      var k := if count < |queue| then count else |queue|;
      drained := queue[..k];
      queue := queue[k..] + drained;
    }

    /** Sends `msgs` in order on the one handle `tx`; every message is attempted whatever happened to the earlier ones. */
    method SendAll(tx: SenderId, msgs: seq<M>)
      requires Valid()
      modifies this`attempts, this`outcomes
      ensures Valid()
      ensures attempts == old(attempts) + Stamp(tx, msgs)
      ensures |old(outcomes)| <= |outcomes| && outcomes[..|old(outcomes)|] == old(outcomes)
    {
      var j := 0;
      while j < |msgs|
        invariant 0 <= j <= |msgs|
        invariant Valid()
        invariant |old(outcomes)| <= |outcomes| && outcomes[..|old(outcomes)|] == old(outcomes)
        invariant attempts == old(attempts) + Stamp(tx, msgs[..j])
      {
        var _ := Send(tx, msgs[j]);
        assert msgs[..j + 1][..j] == msgs[..j];
        j := j + 1;
      }
      assert msgs[..j] == msgs;
    }

    /**
     * `broadcast_to_user`: when `id` is registered, every message of `msgs`
     * is attempted on its handle, in order; otherwise nothing is sent.
     */
    method BroadcastToUser(msgs: seq<M>, id: Key)
      requires Valid()
      modifies this`attempts, this`outcomes
      ensures Valid()
      ensures id in sockets ==> attempts == old(attempts) + Stamp(sockets[id], msgs)
      ensures id !in sockets ==> attempts == old(attempts)
      ensures attempts == old(attempts) + Plan(sockets, msgs, [id])
      ensures |old(outcomes)| <= |outcomes| && outcomes[..|old(outcomes)|] == old(outcomes)
    {
      assert [id][..0] == [];
      if id in sockets {
        var tx := sockets[id];
        SendAll(tx, msgs);
      }
    }

    /**
     * `queue_multiple`: rotates the queue by `count`, sends the whole of
     * `msgs` to every selected key that is still registered, and returns the
     * selected keys whatever the sends did.
     */
    method QueueMultiple(msgs: seq<M>, count: nat) returns (drained: seq<Key>)
      requires Valid()
      modifies this`queue, this`attempts, this`outcomes
      ensures Valid()
      ensures drained == Selected(old(queue), count)
      ensures queue == Rotated(old(queue), count)
      ensures attempts == old(attempts) + Plan(sockets, msgs, drained)
      ensures |old(outcomes)| <= |outcomes| && outcomes[..|old(outcomes)|] == old(outcomes)
      ensures forall tx :: Hits(sockets, drained, tx) == 0 ==> Outbox(tx) == old(Outbox(tx))
    {
      drained := MoveQueue(count);
      SendToEach(msgs, drained);
    }

    /**
     * The `join_all` of `queue_multiple`: every target still registered gets
     * the whole of `msgs` on its handle; the others are skipped.
     */
    method SendToEach(msgs: seq<M>, targets: seq<Key>)
      requires Valid()
      modifies this`attempts, this`outcomes
      ensures Valid()
      ensures attempts == old(attempts) + Plan(sockets, msgs, targets)
      ensures |old(outcomes)| <= |outcomes| && outcomes[..|old(outcomes)|] == old(outcomes)
      ensures forall tx :: Hits(sockets, targets, tx) == 0 ==> Outbox(tx) == old(Outbox(tx))
    {
      var i := 0;
      while i < |targets|
        invariant 0 <= i <= |targets|
        invariant Valid()
        invariant |old(outcomes)| <= |outcomes| && outcomes[..|old(outcomes)|] == old(outcomes)
        invariant attempts == old(attempts) + Plan(sockets, msgs, targets[..i])
      {
        var id := targets[i];
        assert targets[..i + 1][..i] == targets[..i];
        if id in sockets {
          SendAll(sockets[id], msgs);
        }
        i := i + 1;
      }
      assert targets[..i] == targets;
      UntargetedOutboxes(old(attempts), old(outcomes), sockets, msgs, targets, outcomes);
    }

    /**
     * `subscribe`: registers (or silently replaces) the handle for the key,
     * appends the key to the back of the queue even when it is already
     * queued, and hands out a new receiver of the global channel that sees
     * what is published from now on.
     */
    method Subscribe(user: Uuid, ip: string, sink: SenderId) returns (rx: Receiver)
      modifies this`sockets, this`queue, this`receivers
      ensures sockets == old(sockets)[Key(user, ip) := sink]
      ensures queue == old(queue) + [Key(user, ip)]
      ensures receivers == old(receivers) + 1
      ensures rx.from == |published| && Observed(rx) == []
    {
      sockets := sockets[Key(user, ip) := sink];
      queue := queue + [Key(user, ip)];
      receivers := receivers + 1;
      rx := Receiver(|published|);
    }

    /**
     * `unsubscribe`: drops the key from the registry and its first
     * occurrence from the queue; when the queue does not hold it, the queue
     * is left alone and the call still returns normally.
     */
    method Unsubscribe(user: Uuid, ip: string)
      modifies this`sockets, this`queue
      ensures sockets == old(sockets) - {Key(user, ip)}
      ensures queue == RemoveFirst(old(queue), Key(user, ip))
      ensures Key(user, ip) !in old(queue) ==> queue == old(queue)
    {
      var key := Key(user, ip);
      sockets := sockets - {key};
      var pos := Position(queue, key);
      match pos {
        case Some(i) =>
          RemoveFirstAt(queue, key, i);
          queue := queue[..i] + queue[i + 1..];
        case None =>
      }
    }

    /**
     * A connection handler dropping its receiver; this happens outside the
     * broadcaster and only lowers the live-receiver count.
     */
    method ReleaseReceiver()
      requires receivers > 0
      modifies this`receivers
      ensures receivers == old(receivers) - 1
    {
      receivers := receivers - 1;
    }
  }
}

/**
 * How the registry and the queue relate across `subscribe`, `unsubscribe`
 * and rotation. The intended invariant is that the queue holds each
 * registered key exactly once and nothing else; the code keeps it only when
 * a key is never subscribed twice without an unsubscribe in between.
 */
module Membership {
  import opened DeliveryQueue
  import opened Fanout

  ghost predicate Distinct<K>(q: seq<K>)
  {
    forall k | k in q :: multiset(q)[k] <= 1
  }

  /** The queue holds exactly the registered keys, each once. */
  ghost predicate Consistent<K>(sockets: map<K, SenderId>, q: seq<K>)
  {
    && Distinct(q)
    && (forall k | k in q :: k in sockets)
    && (forall k | k in sockets :: k in q)
  }

  /** Subscribing a key that is not registered keeps the two structures consistent. */
  lemma SubscribeFreshKeepsConsistent<K>(sockets: map<K, SenderId>, q: seq<K>, k: K, tx: SenderId)
    requires Consistent(sockets, q) && k !in sockets
    ensures Consistent(sockets[k := tx], q + [k])
  {
    assert multiset(q + [k]) == multiset(q) + multiset{k};
    assert multiset(q)[k] == 0;
  }

  /**
   * Subscribing a key that is already registered replaces its handle but
   * queues the key a second time: the queue is no longer duplicate-free.
   */
  lemma ResubscribeDuplicates<K>(sockets: map<K, SenderId>, q: seq<K>, k: K, tx: SenderId)
    requires Consistent(sockets, q) && k in sockets
    ensures multiset(q + [k])[k] == 2
    ensures !Consistent(sockets[k := tx], q + [k])
  {
    assert multiset(q + [k]) == multiset(q) + multiset{k};
    assert k in q;
  }

  /** Unsubscribing keeps the two structures consistent. */
  lemma UnsubscribeKeepsConsistent<K>(sockets: map<K, SenderId>, q: seq<K>, k: K)
    requires Consistent(sockets, q)
    ensures Consistent(sockets - {k}, RemoveFirst(q, k))
  {
    var r := RemoveFirst(q, k);
    RemoveFirstKeys(q, k);
    forall x | x in r
      ensures multiset(r)[x] <= 1 && x in sockets - {k}
    {
      assert multiset(r)[x] > 0;
      assert multiset(r)[x] == multiset(q)[x];
      assert x in q;
    }
    forall x | x in sockets - {k}
      ensures x in r
    {
      assert x in q && x != k;
      assert multiset(r)[x] == multiset(q)[x] > 0;
    }
  }

  /** Rotation keeps the two structures consistent. */
  lemma RotationKeepsConsistent<K>(sockets: map<K, SenderId>, q: seq<K>, count: nat)
    requires Consistent(sockets, q)
    ensures Consistent(sockets, Rotated(q, count))
  {
    var r := Rotated(q, count);
    RotatedKeepsKeys(q, count);
    forall x
      ensures x in r <==> x in sockets
    {
      assert x in r <==> multiset(r)[x] > 0;
      assert x in q <==> multiset(q)[x] > 0;
    }
  }

  /**
   * `subscribe` then `unsubscribe` of a key that is neither registered nor
   * queued restores registry and queue exactly, whatever duplicates other
   * keys have.
   */
  lemma SubscribeUnsubscribeRoundTrip<K>(sockets: map<K, SenderId>, q: seq<K>, k: K, tx: SenderId)
    requires k !in sockets && k !in q
    ensures sockets[k := tx] - {k} == sockets
    ensures RemoveFirst(q + [k], k) == q
    ensures k !in sockets[k := tx] - {k} && k !in RemoveFirst(q + [k], k)
  {
    RemoveFirstAt(q + [k], k, |q|);
    assert (q + [k])[..|q|] == q;
  }

  /**
   * Two `subscribe`s of one key followed by one `unsubscribe` leave the key
   * queued but unregistered; later rotations select it and deliveries skip it.
   */
  lemma StaleKeyAfterResubscribe<K, M>(sockets: map<K, SenderId>, q: seq<K>, k: K, tx1: SenderId, tx2: SenderId, msgs: seq<M>)
    ensures k !in sockets[k := tx1][k := tx2] - {k}
    ensures k in RemoveFirst(q + [k] + [k], k)
    ensures Plan(sockets[k := tx1][k := tx2] - {k}, msgs, [k]) == []
  {
    var q2 := q + [k] + [k];
    RemoveFirstKeys(q2, k);
    assert multiset(q2)[k] >= 2;
    assert multiset(RemoveFirst(q2, k))[k] >= 1;
    assert [k][..0] == [];
  }
}
