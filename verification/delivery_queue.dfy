/**
 * The round-robin fairness queue of the broadcaster: what one `move_queue`
 * call returns and leaves behind, the first-match removal that `unsubscribe`
 * performs, and the fairness of repeated rotations.
 */
module DeliveryQueue {

  datatype Option<T> = None | Some(value: T)

  /** How many keys one rotation moves: `count.min(queue.len())`. */
  function Take(n: nat, count: nat): (k: nat)
    ensures k <= n && k <= count
    ensures k == n || k == count
  {
    if count < n then count else n
  }

  /** The keys `move_queue(count)` drains from the front and returns. */
  function Selected<K>(q: seq<K>, count: nat): (r: seq<K>)
    ensures |r| == Take(|q|, count)
    ensures r <= q
    ensures count >= |q| ==> r == q
  {
    q[..Take(|q|, count)]
  }

  /**
   * The queue after `move_queue(count)`: the drained keys go to the back in
   * their original order, so the length and the multiset of keys are kept.
   */
  function Rotated<K>(q: seq<K>, count: nat): (r: seq<K>)
    ensures |r| == |q|
    ensures count >= |q| ==> r == q
  {
    var k := Take(|q|, count);
    assert k == |q| ==> q[k..] + q[..k] == q;
    q[k..] + q[..k]
  }

  /** A rotation keeps the multiset of queued keys: nothing is lost or duplicated. */
  lemma RotatedKeepsKeys<K>(q: seq<K>, count: nat)
    ensures multiset(Rotated(q, count)) == multiset(q)
  {
    var k := Take(|q|, count);
    assert q == q[..k] + q[k..];
  }

  /** After a rotation the undrained keys come first and the drained ones follow, each group in its old order. */
  lemma RotatedShape<K>(q: seq<K>, count: nat)
    ensures Rotated(q, count)[..|q| - Take(|q|, count)] == q[Take(|q|, count)..]
    ensures Rotated(q, count)[|q| - Take(|q|, count)..] == Selected(q, count)
  {
  }

  /**
   * `VecDeque::remove` at the first position holding `key`; the queue is
   * returned unchanged when no position holds it.
   */
  function RemoveFirst<K(==)>(q: seq<K>, key: K): (r: seq<K>)
    ensures key !in q ==> r == q
    ensures key in q ==> |r| == |q| - 1
  {
    if q == [] then []
    else if q[0] == key then q[1..]
    else
      assert q == [q[0]] + q[1..];
      [q[0]] + RemoveFirst(q[1..], key)
  }

  /** Exactly one copy of `key` leaves the multiset of queued keys, or none when it is not queued. */
  lemma {:induction false} RemoveFirstKeys<K>(q: seq<K>, key: K)
    ensures multiset(RemoveFirst(q, key)) == multiset(q) - multiset{key}
  {
    if q != [] {
      assert q == [q[0]] + q[1..];
      if q[0] != key {
        RemoveFirstKeys(q[1..], key);
      }
    }
  }

  /** The linear scan `queue.iter().position(..)` of `unsubscribe`. */
  method Position<K(==)>(q: seq<K>, key: K) returns (pos: Option<nat>)
    ensures pos.None? <==> key !in q
    ensures pos.Some? ==> pos.value < |q| && q[pos.value] == key && key !in q[..pos.value]
  {
    var i := 0;
    while i < |q|
      invariant 0 <= i <= |q|
      invariant key !in q[..i]
    {
      if q[i] == key {
        return Some(i);
      }
      assert q[..i + 1] == q[..i] + [q[i]];
      i := i + 1;
    }
    assert q[..i] == q;
    return None;
  }

  /**
   * Removing the first match is removing the element at the position the
   * scan finds: every other key keeps its relative order.
   */
  lemma {:induction false} RemoveFirstAt<K>(q: seq<K>, key: K, i: nat)
    requires i < |q| && q[i] == key && key !in q[..i]
    ensures RemoveFirst(q, key) == q[..i] + q[i + 1..]
  {
    if i > 0 {
      var rest := q[1..];
      assert q[..i] == [q[0]] + rest[..i - 1];
      assert q[0] != key;
      assert RemoveFirst(q, key) == [q[0]] + RemoveFirst(rest, key);
      RemoveFirstAt(rest, key, i - 1);
      assert q[i + 1..] == rest[i..];
      assert q[..i] + q[i + 1..] == [q[0]] + (rest[..i - 1] + rest[i..]);
    }
  }

  // ---------------------------------------------------------------------
  // Repeated rotation and fairness
  // ---------------------------------------------------------------------

  /** The queue after `j` consecutive `move_queue(count)` calls. */
  function Rotations<K>(q: seq<K>, count: nat, j: nat): (r: seq<K>)
    ensures |r| == |q|
  {
    if j == 0 then q else Rotated(Rotations(q, count, j - 1), count)
  }

  /** Any number of consecutive rotations keeps the multiset of queued keys. */
  lemma {:induction false} RotationsKeepKeys<K>(q: seq<K>, count: nat, j: nat)
    ensures multiset(Rotations(q, count, j)) == multiset(q)
  {
    if j > 0 {
      var prev := Rotations(q, count, j - 1);
      assert Rotations(q, count, j) == Rotated(prev, count);
      RotationsKeepKeys(q, count, j - 1);
      RotatedKeepsKeys(prev, count);
    }
  }

  /** The keys returned by call number `j` (counting from 0) of a series of `move_queue(count)` calls. */
  function Selection<K>(q: seq<K>, count: nat, j: nat): seq<K>
  {
    Selected(Rotations(q, count, j), count)
  }

  /** All keys returned by the first `m` calls, in the order they were returned. */
  function Selections<K>(q: seq<K>, count: nat, m: nat): seq<K>
  {
    if m == 0 then [] else Selections(q, count, m - 1) + Selection(q, count, m - 1)
  }

  /** The number of keys moved by `j` calls that each move `k`, that is `j * k`. */
  function Moved(k: nat, j: nat): nat
  {
    if j == 0 then 0 else Moved(k, j - 1) + k
  }

  lemma {:induction false} MovedIsProduct(k: nat, j: nat)
    ensures Moved(k, j) == j * k
  {
    if j > 0 {
      MovedIsProduct(k, j - 1);
      assert (j - 1) * k + k == j * k;
    }
  }

  /** Rotating a queue already rotated by `s` rotates it by `s + k` while that does not wrap. */
  lemma ShiftThenRotate<K>(q: seq<K>, s: nat, count: nat)
    requires s + Take(|q|, count) <= |q|
    ensures Rotated(q[s..] + q[..s], count) == q[s + Take(|q|, count)..] + q[..s + Take(|q|, count)]
  {
    var k := Take(|q|, count);
    var shifted := q[s..] + q[..s];
    assert shifted[..k] == q[s..s + k];
    assert shifted[k..] == q[s + k..] + q[..s];
    assert q[..s + k] == q[..s] + q[s..s + k];
  }

  /** While the rotations have not wrapped, `j` calls move exactly the first `j * k` keys to the back. */
  lemma {:induction false} RotationsPrefix<K>(q: seq<K>, count: nat, j: nat)
    requires Moved(Take(|q|, count), j) <= |q|
    ensures Rotations(q, count, j) == q[Moved(Take(|q|, count), j)..] + q[..Moved(Take(|q|, count), j)]
  {
    var k := Take(|q|, count);
    if j == 0 {
      assert q[0..] + q[..0] == q;
    } else {
      RotationsPrefix(q, count, j - 1);
      ShiftThenRotate(q, Moved(k, j - 1), count);
    }
  }

  /** Before wrapping, call `j` returns the `j`-th block of `k` consecutive keys of the original queue. */
  lemma SelectionWindow<K>(q: seq<K>, count: nat, j: nat)
    requires Moved(Take(|q|, count), j + 1) <= |q|
    ensures Selection(q, count, j) == q[Moved(Take(|q|, count), j)..Moved(Take(|q|, count), j + 1)]
  {
    RotationsPrefix(q, count, j);
  }

  /** The first `m` calls, before wrapping, return the front `m * k` keys, each once and in queue order. */
  lemma {:induction false} SelectionsPrefix<K>(q: seq<K>, count: nat, m: nat)
    requires Moved(Take(|q|, count), m) <= |q|
    ensures Selections(q, count, m) == q[..Moved(Take(|q|, count), m)]
  {
    var k := Take(|q|, count);
    if m > 0 {
      var a, b := Moved(k, m - 1), Moved(k, m);
      var before, last := Selections(q, count, m - 1), Selection(q, count, m - 1);
      assert Selections(q, count, m) == before + last;
      SelectionsPrefix(q, count, m - 1);
      assert before == q[..a];
      SelectionWindow(q, count, m - 1);
      assert last == q[a..b];
      assert q[..b] == q[..a] + q[a..b];
    }
  }

  /**
   * A full cycle of `m` calls with `m * k == |q|` returns every queued key
   * exactly once, in queue order, and leaves the queue as it found it.
   */
  lemma FullCycle<K>(q: seq<K>, count: nat, m: nat)
    requires m * Take(|q|, count) == |q|
    ensures Selections(q, count, m) == q
    ensures Rotations(q, count, m) == q
  {
    MovedIsProduct(Take(|q|, count), m);
    SelectionsPrefix(q, count, m);
    RotationsPrefix(q, count, m);
    assert q[|q|..] + q[..|q|] == q;
  }

  /** Division facts for the fairness lemma: `p / k` is the block holding `p`, and it is below `m` when `p < m * k`. */
  lemma QuotientBelow(p: nat, k: nat, m: nat)
    requires 0 < k && p < m * k
    ensures p / k < m
    ensures (p / k) * k + p % k == p && p % k < k
  {
    var j := p / k;
    if j >= m {
      MulMonotone(m, j, k);
    }
  }

  lemma MulMonotone(a: nat, b: nat, k: nat)
    requires a <= b
    ensures a * k <= b * k
  {
  }

  /**
   * Fairness: with a positive `count`, once `m` calls have asked for at
   * least `|q|` keys in total, the key at every position `p` has been
   * returned, by call `p / k` at offset `p % k`.
   */
  lemma EverySelectedWithin<K>(q: seq<K>, count: nat, m: nat, p: nat)
    requires count > 0 && p < |q|
    requires m * Take(|q|, count) >= |q|
    ensures p / Take(|q|, count) < m
    ensures p % Take(|q|, count) < |Selection(q, count, p / Take(|q|, count))|
    ensures Selection(q, count, p / Take(|q|, count))[p % Take(|q|, count)] == q[p]
  {
    var k := Take(|q|, count);
    var j, i := p / k, p % k;
    QuotientBelow(p, k, m);
    MovedIsProduct(k, j);
    RotationsPrefix(q, count, j);
    var rotated := Rotations(q, count, j);
    assert rotated == q[j * k..] + q[..j * k];
    assert rotated[i] == q[j * k + i];
  }

  /**
   * Three keys selected two at a time: the calls return `[a, b]`, `[c, a]`
   * and `[b, c]`, so after three calls every key has been chosen twice and
   * the queue is back in its first order.
   */
  lemma ThreeKeysTwoAtATime<K>(a: K, b: K, c: K)
    ensures Selection([a, b, c], 2, 0) == [a, b]
    ensures Selection([a, b, c], 2, 1) == [c, a]
    ensures Selection([a, b, c], 2, 2) == [b, c]
    ensures Rotations([a, b, c], 2, 3) == [a, b, c]
  {
    var q0, q1, q2 := [a, b, c], [c, a, b], [b, c, a];
    assert q0[2..] + q0[..2] == q1;
    assert q1[2..] + q1[..2] == q2;
    assert q2[2..] + q2[..2] == q0;
    assert Rotations(q0, 2, 1) == q1;
    assert Rotations(q0, 2, 2) == q2;
    assert Rotations(q0, 2, 3) == q0;
    assert q1[..2] == [c, a] && q2[..2] == [b, c];
  }
}
