# Broadcaster: a Dafny model of the WebSocket fan-out

This project models the `Broadcaster` of the block-mesh WebSocket manager.
The broadcaster is the server-side relay that delivers messages to
long-lived node connections. It owns three pieces of state:

- `sockets`: a registry from a connection key `(user_id, ip)` to that
  connection's outbound `mpsc` channel handle;
- `queue`: a round-robin queue of connection keys, used to spread report
  requests fairly across the connected nodes;
- `global_transmitter`: a broadcast channel that every subscribed
  connection receives from.

On this state it offers `subscribe` and `unsubscribe`, a global `broadcast`,
a targeted `batch` send, an ordered per-connection send
(`broadcast_to_user`), the queue rotation `move_queue`, and
`queue_multiple`, which rotates the queue and delivers a message list to the
selected connections.

Files:

- `delivery_queue.dfy`, module `DeliveryQueue`: pure definitions of one
  rotation (`Selected`, `Rotated`) and of the first-match removal
  (`RemoveFirst`), plus the scan `Position` that `unsubscribe` runs. It also
  holds the fairness results for repeated rotations (`Rotations`,
  `Selection`, `Selections`).
- `fanout.dfy`, module `Fanout`: a send attempt is a `Request(sender, msg)`.
  `Plan` is the ordered list of attempts that one delivery to a target list
  makes. `Attempted` and `Delivered` give, per channel handle, the messages
  attempted and the messages that got through.
- `broadcaster.dfy`, module `Broadcasting`: the class `Broadcaster<M>` is
  generic in the message type, because the broadcaster never looks inside a
  message. Module `Membership` holds lemmas on how the registry and the queue
  stay consistent, or fail to, across subscribe, unsubscribe and rotation.

How the model represents the source:

- The DashMap is a `map<Key, SenderId>` field and the VecDeque is a
  `seq<Key>` field. Each method reassigns these fields.
- A channel handle is a `SenderId`. Clones of one handle share the same id.
- Each `Sender::send` is one atomic `Send`. It appends the attempt to
  `attempts` and its outcome to `outcomes`. The outcome is a havoc value,
  because whether the receiving end is still open is decided by the
  connection handler, outside this code. `Outbox(tx)` is what reached the
  channel of `tx`.
- The broadcast channel is a live-receiver count `receivers` plus the log
  `published` of the messages it accepted. A `Receiver(from)` is told every
  message published from position `from` onwards.
- Receivers are dropped by the connection handler, not by the broadcaster.
  The model stands for that with the environment step `ReleaseReceiver`.

## Model

| member | source | states |
|---|---|---|
| DeliveryQueue.Take | libs/block-mesh-manager-ws/src/websocket/manager/broadcaster.rs:58 | the number of keys moved is at most the queue length and at most `count`, and it equals one of the two |
| DeliveryQueue.Selected | libs/block-mesh-manager-ws/src/websocket/manager/broadcaster.rs:58-59 | the drained keys are a prefix of the queue of length `min(count, len)`; with `count >= len` they are the whole queue |
| DeliveryQueue.Rotated | libs/block-mesh-manager-ws/src/websocket/manager/broadcaster.rs:58-60 | a rotation keeps the queue length; with `count >= len` it leaves the queue unchanged |
| DeliveryQueue.RotatedKeepsKeys | libs/block-mesh-manager-ws/src/websocket/manager/broadcaster.rs:59-60 | a rotation keeps the multiset of queued keys: no key is lost or duplicated |
| DeliveryQueue.RotatedShape | libs/block-mesh-manager-ws/src/websocket/manager/broadcaster.rs:59-60 | after a rotation the undrained keys come first and the drained keys follow, each group in its old order |
| DeliveryQueue.RemoveFirst | libs/block-mesh-manager-ws/src/websocket/manager/broadcaster.rs:124-127 | removing a key that is not queued leaves the queue unchanged (the warn branch); otherwise the length drops by exactly one |
| DeliveryQueue.RemoveFirstKeys | libs/block-mesh-manager-ws/src/websocket/manager/broadcaster.rs:124-125 | one copy of the key, and only one, leaves the multiset of queued keys; every other key keeps its count |
| DeliveryQueue.Position | libs/block-mesh-manager-ws/src/websocket/manager/broadcaster.rs:124 | the scan finds nothing iff the key is not queued; otherwise it returns the first index holding the key |
| DeliveryQueue.RemoveFirstAt | libs/block-mesh-manager-ws/src/websocket/manager/broadcaster.rs:124-125 | removing at the position the scan found is removing the first match; all other keys keep their relative order |
| DeliveryQueue.Rotations | libs/block-mesh-manager-ws/src/websocket/manager/broadcaster.rs:56-62 | any number of consecutive rotations keeps the queue length |
| DeliveryQueue.RotationsKeepKeys | libs/block-mesh-manager-ws/src/websocket/manager/broadcaster.rs:56-62 | any number of consecutive rotations keeps the multiset of queued keys |
| DeliveryQueue.RotationsPrefix | libs/block-mesh-manager-ws/src/websocket/manager/broadcaster.rs:56-62 | until the rotations wrap, `j` calls have moved exactly the first `j * k` keys to the back, in order |
| DeliveryQueue.SelectionWindow | libs/block-mesh-manager-ws/src/websocket/manager/broadcaster.rs:56-62 | until the rotations wrap, call `j` returns the `j`-th block of `k` consecutive keys of the original queue |
| DeliveryQueue.SelectionsPrefix | libs/block-mesh-manager-ws/src/websocket/manager/broadcaster.rs:56-62 | the first `m` calls, before wrapping, together return the front `m * k` keys of the queue, each once and in order |
| DeliveryQueue.FullCycle | libs/block-mesh-manager-ws/src/websocket/manager/broadcaster.rs:56-62 | a cycle of `m` calls with `m * k == len` returns every queued key once, in queue order, and leaves the queue as it was |
| DeliveryQueue.EverySelectedWithin | libs/block-mesh-manager-ws/src/websocket/manager/broadcaster.rs:56-62 | round-robin fairness: with `count > 0`, once `m` calls have asked for at least `len` keys, the key at position `p` was returned by call `p / k` at offset `p % k` |
| DeliveryQueue.ThreeKeysTwoAtATime | libs/block-mesh-manager-ws/src/websocket/manager/broadcaster.rs:56-62 | keys `a, b, c` selected two at a time give `[a, b]`, `[c, a]`, `[b, c]`, and after three calls the queue is back to `[a, b, c]` |
| Fanout.Stamp | libs/block-mesh-manager-ws/src/websocket/manager/broadcaster.rs:73-77 | sending a message list on one handle makes one attempt per message, on that handle, in list order |
| Fanout.Plan | libs/block-mesh-manager-ws/src/websocket/manager/broadcaster.rs:39-51 | every request a delivery issues goes to a registered handle and carries one of the messages; an empty message list issues nothing |
| Fanout.Registered | libs/block-mesh-manager-ws/src/websocket/manager/broadcaster.rs:39-51 | the `filter_map` keeps a target if and only if it is in the list and registered |
| Fanout.RegisteredAppend | libs/block-mesh-manager-ws/src/websocket/manager/broadcaster.rs:39-51 | the kept targets stay in list order: filtering a concatenation is concatenating the filtered parts |
| Fanout.AttemptedStamp | libs/block-mesh-manager-ws/src/websocket/manager/broadcaster.rs:73-77 | the stream of one handle carries exactly the messages sent on it, in order, and nothing reaches other handles |
| Fanout.PlanStep | libs/block-mesh-manager-ws/src/websocket/manager/broadcaster.rs:88-103 | one more target adds its whole message list to a handle's stream, and one hit to its count, exactly when it is registered to that handle; otherwise both stay as they were |
| Fanout.PlanPerSender | libs/block-mesh-manager-ws/src/websocket/manager/broadcaster.rs:88-103 | per handle, a delivery attempts the whole message list once for each registered target using that handle, in list order; unregistered targets add nothing |
| Fanout.PlanSkipsAbsent | libs/block-mesh-manager-ws/src/websocket/manager/broadcaster.rs:39-51 | dropping the unregistered targets from the list does not change what a delivery attempts |
| Fanout.PlanLength | libs/block-mesh-manager-ws/src/websocket/manager/broadcaster.rs:38-54 | a delivery makes exactly `len(msgs)` attempts per registered target (for `batch`, one per registered target) |
| Fanout.DeliveredOnlyAttempted | libs/block-mesh-manager-ws/src/websocket/manager/broadcaster.rs:44-46 | every message that reaches a handle was attempted on it, no more messages reach it than were attempted, and nothing reaches it when nothing was attempted; when every attempt succeeds, a handle receives exactly what was attempted on it |
| Fanout.Mask | libs/block-mesh-manager-ws/src/websocket/manager/broadcaster.rs:44-46 | there is exactly one recorded outcome per attempt made on the handle |
| Fanout.DeliveredInOrder | libs/block-mesh-manager-ws/src/websocket/manager/broadcaster.rs:93-97 | what reaches a handle is the subsequence of its attempts whose outcome was success, in the order attempted; a failed send drops only its own message |
| Fanout.OutboxUntouched | libs/block-mesh-manager-ws/src/websocket/manager/broadcaster.rs:39-53 | sends to other handles, whatever their outcomes, leave a handle's delivered messages unchanged |
| Broadcasting.UntargetedOutboxes | libs/block-mesh-manager-ws/src/websocket/manager/broadcaster.rs:88-103 | after a delivery, every handle that no target uses has the same outbox as before |
| Broadcasting.Broadcaster.constructor | libs/block-mesh-manager-ws/src/websocket/manager/broadcaster.rs:24-31 | a new broadcaster has an empty registry and queue, no live receiver and no traffic |
| Broadcasting.Broadcaster.Observed | libs/block-mesh-manager-ws/src/websocket/manager/broadcaster.rs:118 | a receiver is offered exactly the messages published since it was handed out |
| Broadcasting.Broadcaster.Send | libs/block-mesh-manager-ws/src/websocket/manager/broadcaster.rs:44 | one attempt on one handle is logged with an outcome that the broadcaster does not control |
| Broadcasting.Broadcaster.Broadcast | libs/block-mesh-manager-ws/src/websocket/manager/broadcaster.rs:32-36 | with no live receiver the message comes back as an error and nothing is published; otherwise the live-receiver count is returned, it is positive, and every existing receiver is offered the message |
| Broadcasting.Broadcaster.Batch | libs/block-mesh-manager-ws/src/websocket/manager/broadcaster.rs:38-54 | the attempts made are exactly the plan for `[m]` over the targets, whatever the outcomes; registry and queue are unchanged; handles no target uses keep their outbox; earlier outcomes are kept, so what already reached a handle stays there |
| Broadcasting.Broadcaster.MoveQueue | libs/block-mesh-manager-ws/src/websocket/manager/broadcaster.rs:56-62 | returns the first `min(count, len)` keys; the new queue is the rest followed by them; length and multiset are kept |
| Broadcasting.Broadcaster.SendAll | libs/block-mesh-manager-ws/src/websocket/manager/broadcaster.rs:73-77 | every message of the list is attempted on the one handle, in order, whatever earlier attempts did |
| Broadcasting.Broadcaster.BroadcastToUser | libs/block-mesh-manager-ws/src/websocket/manager/broadcaster.rs:64-79 | for a registered key, every message is attempted on its handle in order; for an unregistered key nothing is attempted; earlier outcomes are kept, so what already reached a handle stays there |
| Broadcasting.Broadcaster.QueueMultiple | libs/block-mesh-manager-ws/src/websocket/manager/broadcaster.rs:82-105 | returns exactly what the rotation selected and leaves the rotated queue; attempts the full message list on every selected key that is still registered, whatever the outcomes; handles not selected keep their outbox; earlier outcomes are kept, so what already reached a handle stays there |
| Broadcasting.Broadcaster.SendToEach | libs/block-mesh-manager-ws/src/websocket/manager/broadcaster.rs:88-103 | every selected key still registered gets the whole message list attempted on its handle, whatever the outcomes; unregistered keys are skipped; handles no key uses keep their outbox; earlier outcomes are kept, so what already reached a handle stays there |
| Broadcasting.Broadcaster.Subscribe | libs/block-mesh-manager-ws/src/websocket/manager/broadcaster.rs:107-119 | the key maps to the new handle, replacing any old one; the key is appended to the queue even if it is already there; one more live receiver, which starts at the current end of the broadcast log |
| Broadcasting.Broadcaster.Unsubscribe | libs/block-mesh-manager-ws/src/websocket/manager/broadcaster.rs:121-129 | the key leaves the registry; only its first queue occurrence is removed; an unqueued key leaves the queue unchanged and the call still returns |
| Membership.SubscribeFreshKeepsConsistent | libs/block-mesh-manager-ws/src/websocket/manager/broadcaster.rs:113-117 | subscribing an unregistered key keeps "the queue holds each registered key exactly once" |
| Membership.ResubscribeDuplicates | libs/block-mesh-manager-ws/src/websocket/manager/broadcaster.rs:113-117 | subscribing an already registered key queues it twice and breaks that invariant |
| Membership.UnsubscribeKeepsConsistent | libs/block-mesh-manager-ws/src/websocket/manager/broadcaster.rs:121-128 | unsubscribing keeps the invariant |
| Membership.RotationKeepsConsistent | libs/block-mesh-manager-ws/src/websocket/manager/broadcaster.rs:56-62 | rotation keeps the invariant |
| Membership.SubscribeUnsubscribeRoundTrip | libs/block-mesh-manager-ws/src/websocket/manager/broadcaster.rs:107-129 | subscribe then unsubscribe of a key that is neither registered nor queued restores the registry and the queue exactly, and the key is in neither; other keys may be queued more than once |
| Membership.StaleKeyAfterResubscribe | libs/block-mesh-manager-ws/src/websocket/manager/broadcaster.rs:113-128 | two subscribes of one key and one unsubscribe leave the key queued but unregistered, and a delivery to it sends nothing |

## Left out

- Concurrency is not modelled. This covers the queue `Mutex`, the DashMap
  sharding, the interleaving of the futures under `join_all`, and the window
  between the registry update and the queue update in `subscribe` and
  `unsubscribe`. Every method is one atomic step.
- Broadcasting.Broadcaster.Batch: the source runs the per-target sends
  concurrently, so it fixes no order across targets. The model logs them in
  target order. That also fixes the interleaving on a handle shared by
  several targets (a key queued twice, or two keys registered to clones of
  one sender). The source keeps in order only each target's own sends.
- Broadcasting.Broadcaster.QueueMultiple: as for `Batch`, the order across
  selected keys is the model's choice. So is the interleaving of two message
  lists on one handle used by several selected keys; under backpressure the
  source may interleave them. The source keeps in order only each key's own
  list (lines 93-97).
- Fanout.PlanPerSender: its `Repeat` form lists the blocks of a shared
  handle one after another. That is the model's sequential order, not a
  promise of the source, for the reason given under `QueueMultiple`.
- Broadcasting.Broadcaster.Send: the outcome is unconstrained. A tokio
  `mpsc` send fails only when the receiving end has been closed, and that
  state belongs to the connection handler. Blocking on a full bounded
  channel (backpressure) is not modelled.
- Broadcasting.Broadcaster.Broadcast: the broadcast channel's capacity of
  10000 and receiver lag are not modelled. A receiver is offered every
  published message and never misses one.
- Receivers are dropped by the connection handler. This is stood for by
  `ReleaseReceiver`, which only lowers the count and does not say which
  receiver went.
- The message type `WsServerMessage` is the type parameter `M`, because the
  broadcaster never inspects a message.
- `Default::default` (lines 17-21) only calls `new`. It is covered by the
  constructor.
- Logging through `tracing` is left out.
- Broadcasting.Broadcaster.QueueMultiple returns the selected keys, as the
  code does (line 104). The doc comment on `queue_multiple` (line 81) says it
  returns the number of nodes messages were sent to. The model follows the
  code: the returned list also holds selected keys that are no longer
  registered and were sent nothing.
- The schedulers that call the broadcaster (`cron_reports`, `ws_keep_alive`)
  are not part of this model.
- The intended invariant (each subscribed key queued exactly once) is not
  kept by the code. The code does not guard re-subscription, so the model
  follows the code. Re-subscribing appends a
  duplicate (`Membership.ResubscribeDuplicates`). The invariant is proved
  only under the explicit precondition that the key is not yet registered.
