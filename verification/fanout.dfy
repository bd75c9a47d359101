/**
 * What the broadcaster attempts to send on the per-connection channels.
 * A `Request` is one `Sender::send` call: the channel handle it goes to and
 * the message. A plan lists, in order, the requests one delivery operation
 * issues. Each attempt succeeds or fails independently of the others, so the
 * outcomes are kept apart from the plan.
 */
module Fanout {

  /** Identity of one `mpsc::Sender` handle (clones of a handle share it). */
  type SenderId = nat

  datatype Request<M> = Request(sender: SenderId, msg: M)

  /** The requests for sending `msgs`, in order, on the one handle `tx`. */
  function Stamp<M>(tx: SenderId, msgs: seq<M>): (r: seq<Request<M>>)
    ensures |r| == |msgs|
    ensures forall i :: 0 <= i < |r| ==> r[i] == Request(tx, msgs[i])
  {
    if msgs == [] then [] else Stamp(tx, msgs[..|msgs| - 1]) + [Request(tx, msgs[|msgs| - 1])]
  }

  /**
   * The requests a delivery to `targets` issues: every target that is
   * registered in `sockets` gets all of `msgs`, in order, on its own handle;
   * a target that is not registered gets nothing.
   */
  function Plan<K, M>(sockets: map<K, SenderId>, msgs: seq<M>, targets: seq<K>): (r: seq<Request<M>>)
    ensures msgs == [] ==> r == []
    ensures forall i :: 0 <= i < |r| ==> r[i].sender in sockets.Values && r[i].msg in msgs
  {
    if targets == [] then []
    else
      var t := targets[|targets| - 1];
      var init := Plan(sockets, msgs, targets[..|targets| - 1]);
      if t in sockets then
        var tail := Stamp(sockets[t], msgs);
        assert sockets[t] in sockets.Values;
        assert forall i :: 0 <= i < |tail| ==> tail[i].sender == sockets[t] && tail[i].msg in msgs;
        init + tail
      else init
  }

  /** The targets that are registered, in their original order. */
  function Registered<K>(sockets: map<K, SenderId>, targets: seq<K>): (r: seq<K>)
    ensures |r| <= |targets|
    ensures forall t :: t in r ==> t in sockets && t in targets
    ensures forall t :: t in targets && t in sockets ==> t in r
  {
    if targets == [] then []
    else
      var t := targets[|targets| - 1];
      Registered(sockets, targets[..|targets| - 1]) + (if t in sockets then [t] else [])
  }

  /**
   * `Registered` is a filter: on a concatenation it is the concatenation of
   * the two filtered parts, so the kept targets stay in their list order.
   */
  lemma {:induction false} RegisteredAppend<K>(sockets: map<K, SenderId>, a: seq<K>, b: seq<K>)
    ensures Registered(sockets, a + b) == Registered(sockets, a) + Registered(sockets, b)
  {
    if b != [] {
      var last := |b| - 1;
      assert (a + b)[..|a + b| - 1] == a + b[..last];
      assert (a + b)[|a + b| - 1] == b[last];
      RegisteredAppend(sockets, a, b[..last]);
    } else {
      assert a + b == a;
    }
  }

  /** How many of `targets` are registered to the handle `tx`. */
  function Hits<K>(sockets: map<K, SenderId>, targets: seq<K>, tx: SenderId): nat
  {
    if targets == [] then 0
    else
      var t := targets[|targets| - 1];
      Hits(sockets, targets[..|targets| - 1], tx) + (if t in sockets && sockets[t] == tx then 1 else 0)
  }

  /** The messages attempted on the handle `tx`, in the order they were attempted. */
  function Attempted<M>(p: seq<Request<M>>, tx: SenderId): seq<M>
  {
    if p == [] then []
    else Attempted(p[..|p| - 1], tx) + (if p[|p| - 1].sender == tx then [p[|p| - 1].msg] else [])
  }

  /** The messages that reached the channel of `tx`: the attempts on it whose outcome was success. */
  function Delivered<M>(p: seq<Request<M>>, ok: seq<bool>, tx: SenderId): seq<M>
    requires |p| == |ok|
  {
    if p == [] then []
    else
      var last := |p| - 1;
      Delivered(p[..last], ok[..last], tx) + (if p[last].sender == tx && ok[last] then [p[last].msg] else [])
  }

  /** `n` copies of `msgs`, one after another. */
  function Repeat<M>(msgs: seq<M>, n: nat): (r: seq<M>)
    ensures |r| == n * |msgs|
  {
    if n == 0 then [] else Repeat(msgs, n - 1) + msgs
  }

  lemma {:induction false} AttemptedAppend<M>(a: seq<Request<M>>, b: seq<Request<M>>, tx: SenderId)
    ensures Attempted(a + b, tx) == Attempted(a, tx) + Attempted(b, tx)
  {
    if b != [] {
      var last := |b| - 1;
      assert (a + b)[..|a + b| - 1] == a + b[..last];
      AttemptedAppend(a, b[..last], tx);
    } else {
      assert a + b == a;
    }
  }

  /** One handle's stream carries exactly the messages sent on it, in order. */
  lemma {:induction false} AttemptedStamp<M>(s: SenderId, msgs: seq<M>, tx: SenderId)
    ensures Attempted(Stamp(s, msgs), tx) == if s == tx then msgs else []
  {
    if msgs != [] {
      var last := |msgs| - 1;
      var init, one := msgs[..last], [Request(s, msgs[last])];
      assert Stamp(s, msgs) == Stamp(s, init) + one;
      AttemptedAppend(Stamp(s, init), one, tx);
      AttemptedStamp(s, init, tx);
      assert one[..0] == [];
      assert Attempted(one, tx) == if s == tx then [msgs[last]] else [];
      assert msgs == init + [msgs[last]];
    }
  }

  /**
   * Per handle, a delivery to `targets` attempts the whole message list once
   * for every registered target that uses that handle, and in list order:
   * no target is skipped because of another, and no unregistered target
   * contributes anything.
   */
  lemma {:induction false} PlanPerSender<K, M>(sockets: map<K, SenderId>, msgs: seq<M>, targets: seq<K>, tx: SenderId)
    ensures Attempted(Plan(sockets, msgs, targets), tx) == Repeat(msgs, Hits(sockets, targets, tx))
  {
    if targets != [] {
      var init := targets[..|targets| - 1];
      PlanPerSender(sockets, msgs, init, tx);
      PlanStep(sockets, msgs, targets, tx);
    }
  }

  /** Appending one target adds its whole message list to the stream of `tx` exactly when it is registered to `tx`. */
  lemma PlanStep<K, M>(sockets: map<K, SenderId>, msgs: seq<M>, targets: seq<K>, tx: SenderId)
    requires targets != []
    ensures var init, t := targets[..|targets| - 1], targets[|targets| - 1];
      var hit := t in sockets && sockets[t] == tx;
      Attempted(Plan(sockets, msgs, targets), tx)
        == Attempted(Plan(sockets, msgs, init), tx) + (if hit then msgs else [])
      && Hits(sockets, targets, tx) == Hits(sockets, init, tx) + (if hit then 1 else 0)
  {
    var init, t := targets[..|targets| - 1], targets[|targets| - 1];
    var before := Plan(sockets, msgs, init);
    if t in sockets {
      var tail := Stamp(sockets[t], msgs);
      assert Plan(sockets, msgs, targets) == before + tail;
      AttemptedAppend(before, tail, tx);
      AttemptedStamp(sockets[t], msgs, tx);
    } else {
      assert Plan(sockets, msgs, targets) == before;
    }
  }

  /** Unregistered targets can be dropped from the target list without changing the plan. */
  lemma {:induction false} PlanSkipsAbsent<K, M>(sockets: map<K, SenderId>, msgs: seq<M>, targets: seq<K>)
    ensures Plan(sockets, msgs, targets) == Plan(sockets, msgs, Registered(sockets, targets))
  {
    if targets != [] {
      var init, t := targets[..|targets| - 1], targets[|targets| - 1];
      var reg := Registered(sockets, init);
      PlanSkipsAbsent(sockets, msgs, init);
      if t in sockets {
        assert Registered(sockets, targets) == reg + [t];
        assert (reg + [t])[..|reg + [t]| - 1] == reg;
      } else {
        assert Registered(sockets, targets) == reg;
      }
    }
  }

  /** A delivery issues exactly `|msgs|` requests per registered target. */
  lemma {:induction false} PlanLength<K, M>(sockets: map<K, SenderId>, msgs: seq<M>, targets: seq<K>)
    ensures |Plan(sockets, msgs, targets)| == |Registered(sockets, targets)| * |msgs|
  {
    if targets != [] {
      var init, t := targets[..|targets| - 1], targets[|targets| - 1];
      PlanLength(sockets, msgs, init);
      var n, len := |Registered(sockets, init)|, |msgs|;
      if t in sockets {
        assert |Plan(sockets, msgs, targets)| == |Plan(sockets, msgs, init)| + len;
        assert |Registered(sockets, targets)| == n + 1;
        OneMoreBlock(n, len);
      } else {
        assert Plan(sockets, msgs, targets) == Plan(sockets, msgs, init);
        assert Registered(sockets, targets) == Registered(sockets, init);
      }
    }
  }

  lemma OneMoreBlock(n: nat, len: nat)
    ensures (n + 1) * len == n * len + len
  {
  }

  lemma {:induction false} DeliveredAppend<M>(a: seq<Request<M>>, oa: seq<bool>, b: seq<Request<M>>, ob: seq<bool>, tx: SenderId)
    requires |a| == |oa| && |b| == |ob|
    ensures Delivered(a + b, oa + ob, tx) == Delivered(a, oa, tx) + Delivered(b, ob, tx)
  {
    if b != [] {
      var last := |b| - 1;
      assert (a + b)[..|a + b| - 1] == a + b[..last];
      assert (oa + ob)[..|oa + ob| - 1] == oa + ob[..last];
      DeliveredAppend(a, oa, b[..last], ob[..last], tx);
    } else {
      assert a + b == a && oa + ob == oa;
    }
  }

  /** Whatever the outcomes, only messages attempted on `tx` reach it, and no more of them than were attempted. */
  lemma {:induction false} DeliveredOnlyAttempted<M>(p: seq<Request<M>>, ok: seq<bool>, tx: SenderId)
    requires |p| == |ok|
    ensures Attempted(p, tx) == [] ==> Delivered(p, ok, tx) == []
    ensures (forall i :: 0 <= i < |ok| ==> ok[i]) ==> Delivered(p, ok, tx) == Attempted(p, tx)
    ensures |Delivered(p, ok, tx)| <= |Attempted(p, tx)|
    ensures forall x :: x in Delivered(p, ok, tx) ==> x in Attempted(p, tx)
  {
    if p != [] {
      var last := |p| - 1;
      DeliveredOnlyAttempted(p[..last], ok[..last], tx);
    }
  }

  /** The outcomes of the attempts made on `tx`, in the order they were made. */
  function Mask<M>(p: seq<Request<M>>, ok: seq<bool>, tx: SenderId): (r: seq<bool>)
    requires |p| == |ok|
    ensures |r| == |Attempted(p, tx)|
  {
    if p == [] then []
    else
      var last := |p| - 1;
      Mask(p[..last], ok[..last], tx) + (if p[last].sender == tx then [ok[last]] else [])
  }

  /** The elements of `xs` whose flag in `flags` is set, in their order in `xs`. */
  function Kept<M>(xs: seq<M>, flags: seq<bool>): (r: seq<M>)
    requires |xs| == |flags|
    ensures |r| <= |xs|
  {
    if xs == [] then []
    else
      var last := |xs| - 1;
      Kept(xs[..last], flags[..last]) + (if flags[last] then [xs[last]] else [])
  }

  /**
   * What reaches `tx` is the subsequence of what was attempted on it picked
   * out by those attempts' outcomes: the order of attempts is kept, and a
   * failed attempt drops only its own message.
   */
  lemma {:induction false} DeliveredInOrder<M>(p: seq<Request<M>>, ok: seq<bool>, tx: SenderId)
    requires |p| == |ok|
    ensures Delivered(p, ok, tx) == Kept(Attempted(p, tx), Mask(p, ok, tx))
  {
    if p != [] {
      var last := |p| - 1;
      var xs, fs := Attempted(p[..last], tx), Mask(p[..last], ok[..last], tx);
      DeliveredInOrder(p[..last], ok[..last], tx);
      if p[last].sender == tx {
        var xs2, fs2 := xs + [p[last].msg], fs + [ok[last]];
        assert Attempted(p, tx) == xs2 && Mask(p, ok, tx) == fs2;
        assert xs2[..|xs2| - 1] == xs && fs2[..|fs2| - 1] == fs;
      } else {
        assert Attempted(p, tx) == xs && Mask(p, ok, tx) == fs;
      }
    }
  }

  /**
   * Sends made to other handles never touch the stream of `tx`: appending
   * a plan without requests for `tx`, whatever its outcomes, leaves what
   * reached `tx` as it was.
   */
  lemma OutboxUntouched<M>(a: seq<Request<M>>, oa: seq<bool>, p: seq<Request<M>>, op: seq<bool>, tx: SenderId)
    requires |a| == |oa| && |p| == |op|
    requires Attempted(p, tx) == []
    ensures Delivered(a + p, oa + op, tx) == Delivered(a, oa, tx)
  {
    DeliveredAppend(a, oa, p, op, tx);
    DeliveredOnlyAttempted(p, op, tx);
  }
}
