# Peer registry, synchronisation round and event retrieval of an owshen node

This project models the part of an owshen node's `NodeManager` that keeps
track of other nodes and fetches chain events (`src/network.rs`):

- the **peer registry**: a list of `Peer {addr, current_block}` records with
  `add_peer` (never this node's own external address, never a record already
  present), `remove_peer` (drops every entry with an address) and
  `update_peer` (remove, then add) — module `Registry`;
- one **synchronisation round** (`sync_with_peers`): every peer of a snapshot
  of the registry is contacted in order; a peer that answers the handshake has
  its record replaced with the height it reported, takes part in a running
  maximum election and is asked for its own peer list (gossip,
  `_add_batch_peer_peers`), and a peer whose request fails is removed. The
  election itself is module `Election`; the round is module `Sync`;
- the **paginated fetch** of spend and sent events from the elected peer
  (`get_events_from_elected_peer`) — module `Pagination`;
- the **adaptive block-range fetch** straight from the chain provider
  (`get_spend_events`, `get_sent_events`, which are the same loop over a
  different event type, modelled once over a type parameter) — module
  `RangeScan`.

Every network effect is an input. A request to a peer ends in a `Reply`:
`Failed(Transport | Status | Body | Json)` or `Ok(value)`, following the order
in which the code checks sending, the status code, reading the body and
decoding the JSON (module `Wire`). A round takes one `Contact` (handshake
reply and gossip reply) per snapshot peer. The paginated fetch takes what the
elected peer serves at given cursors as a function, plus one `Exchange` per
request. Within one fetch the cursors only move forward and a retry serves
nothing, so each pair of cursors is served at most once and the function can
describe any sequence of pages, including data that changes between requests. The adaptive fetch takes the provider's answer for a range as a
function, plus one boolean per attempt (answered in time, or timed out or
failed). The loops do not terminate in general. Each is therefore a fold
over its sequence of outcomes, and running out of outcomes while the loop
would go on gives `Pending` / `Stuck`.

Peer equality is assumed to be derived, whole-record equality (the `Peer`
type and its `PartialEq` live in `config`, which is not part of this model).
So `add_peer` rejects exact duplicate records, not duplicate addresses. The
registry invariant proved here is `Wellformed`: no entry is this node, and no
record occurs twice. Address uniqueness is not an invariant:
`Sync.GossipCanRepeatAddress` shows gossip adding a second record for a known
address.

## Behaviour notes

Where the code's behaviour is easy to misread, the model follows the code:

- `add_peer` skips a peer only if the identical record is present, so a
  known address with a new height is appended by gossip, rather than being
  ignored.
- A body that does not decode as JSON aborts the whole round with an error
  (the `?` at src/network.rs:65, :79 via :115). It does not just remove the
  peer. Registry edits made earlier in the round stay; the election is not
  committed.
- A node (not a client) without an external address aborts the round, but
  only when there is a peer to contact.
- In the paginated fetch, a bad status or an unreadable body is retried with
  the same cursors, forever if it keeps happening. Only a transport error ends
  the loop early. A JSON error returns an error and discards what was
  gathered.
- The adaptive fetch's ranges overlap on their boundary block, and the last
  range is not clamped to `to` (see Findings).

## Model

| member | source | states |
|---|---|---|
| `Registry.AddPeer` | src/network.rs:13-23 | earlier entries are kept as a prefix; the list grows by one exactly when the peer is not this node and the identical record is absent, and then the peer is the new last entry; membership afterwards is the old membership plus the peer unless it is this node; `Wellformed` is preserved |
| `Registry.RemovePeer` | src/network.rs:29-31 | a record is in the result exactly when it was in the input with a different address; the result is no longer; no duplicate records are introduced |
| `Registry.RemoveDistributes` | src/network.rs:29-31 | removing an address from a concatenation is the concatenation of the removals, so the relative order of kept entries is preserved |
| `Registry.RemoveAbsent` | src/network.rs:29-31 | removing an address no entry has leaves the list unchanged |
| `Registry.RemoveIdempotent` | src/network.rs:29-31 | removing the same address twice is the same as removing it once |
| `Registry.RemoveCounts` | src/network.rs:29-31 | each record with another address occurs in the result exactly as often as in the input; records with the address occur zero times |
| `Registry.RemoveCommutes` | src/network.rs:29-31 | removing two addresses in either order gives the same list |
| `Registry.UpdatePeer` | src/network.rs:33-36 | after removing the peer's address, the result equals the input with that address removed, so other entries keep their values and order; if the peer is not this node, it is the last entry and the only one with its address; otherwise no entry has its address; `Wellformed` is preserved |
| `Registry.AddAll` | src/network.rs:116-118 | folding `add_peer` over a received list keeps the old list as a prefix, so known records are never modified; a record is in the result exactly when it was already present or is in the list and is not this node; `Wellformed` is preserved |
| `Registry.AddAllAppend` | src/network.rs:116-118 | merging two lists one after the other equals merging their concatenation, and merging one record is `add_peer`: the list is merged record by record, in list order |
| `Election.Consider` | src/network.rs:74-77 | the running maximum never decreases, and becomes the seen peer's height whenever that height is at least the maximum; the ballot either stays or becomes the seen peer with its height; the seen peer leads afterwards exactly when its height is at least the running maximum or it already led |
| `Election.Tally` | src/network.rs:71-77 | over a sequence of successful peers the running maximum never decreases, and the ballot either stays as it was or names one of those peers with the height it reported |
| `Election.TallyLastMax` | src/network.rs:71-77 | if every height is below the running maximum, the ballot is unchanged; otherwise the tally ends on the highest peer that no later peer reaches (ties go to the last seen), with its height as the maximum |
| `Election.OpeningElectsLastMax` | src/network.rs:39-40 | from the opening ballot (no leader, maximum 0) nobody is elected when nobody answered; otherwise the last highest peer is elected with the height it reported |
| `Election.LastMaxIffLastRecord` | src/network.rs:74-77 | the peer the `>=` comparison keeps is characterised two ways that agree: highest with no later peer reaching it, if and only if its height is at least every earlier one and every later peer is outranked by some earlier one |
| `Election.TieGoesToLastSeen` | src/network.rs:74 | with heights 10, 20, 20 in that order, the third peer wins the tie |
| `Sync.Gossip` | src/network.rs:111-130 | a received list is merged by `add_peer` in list order, keeping the old list as prefix and adding only listed records that are not this node; a transport, status or body failure gives exactly the old list with the source's address removed, survivors in order; an undecodable list aborts; `Wellformed` is preserved |
| `Sync.Visit` | src/network.rs:45-92 | the round goes on exactly when the node can introduce itself and no reply of this contact is malformed; a node without its address stops with nothing changed; a handshake transport, status or body failure gives exactly the registry with that address removed, survivors in order, and leaves the ballot; a malformed handshake stops with nothing changed; a successful handshake updates the peer with its reported height, considers it for election, and then: a malformed gossip reply stops after the update; a gossip transport, status or body failure leaves exactly the registry with that address removed; a received list is merged in list order after the updated registry, so the entries with other addresses come first, in order, then the updated peer (unless it is this node), and a record is present exactly when it is one of those or a listed record whose address is not this node's; `Wellformed` is preserved |
| `Sync.Round` | src/network.rs:45-92 | folding `Visit` over the snapshot keeps `Wellformed`, including the registry left behind by an abort |
| `Sync.SyncWithPeers` | src/network.rs:38-101 | the node's address and role are unchanged; an aborted round leaves the elected peer unchanged; `Wellformed` is preserved |
| `Sync.RoundTallies` | src/network.rs:71-77 | a completed fold has run the election over exactly the successful handshakes, in snapshot order, each with its reported height |
| `Sync.RoundCompletesIff` | src/network.rs:50-79 | the fold completes if and only if, when there is a peer to contact, the node can introduce itself, and no handshake or gossip reply is malformed |
| `Sync.SyncElection` | src/network.rs:93-96 | a completed round with no successful handshake keeps the previous elected peer; otherwise the new elected peer is the last highest successful peer, with the height it reported, whatever the previous winner was |
| `Sync.SyncCompletesIff` | src/network.rs:50-57 | a round completes if and only if the introduction condition holds and no reply is malformed; a node without an address that has peers aborts with `NotANode` and its state unchanged |
| `Sync.GossipCanRepeatAddress` | src/network.rs:116-118 | merging `[("a", 2)]` into `[("a", 1)]` gives `[("a", 1), ("a", 2)]`: addresses are not kept unique |
| `Pagination.Turn` | src/network.rs:163-187 | the turn aborts exactly on a JSON fault; it finishes exactly on a transport fault or an empty page; status and body faults leave cursor and accumulators unchanged; a served non-empty page always moves both cursors by one page of 256 and appends that page to the accumulators; whenever the loop goes on, both cursors have moved by the same amount and the accumulators only grow |
| `Pagination.FetchFromElected` | src/network.rs:142-194 | with no elected peer the result is `([], [], 0)`; when events are returned, the third component is the elected peer's last reported height |
| `Pagination.Pull` | src/network.rs:152-189 | the events returned, or gathered by a pending loop, extend what the loop started with; a pending loop's cursors have moved forward by the same amount; returned events carry the height the loop was given |
| `Pagination.PullCollects` | src/network.rs:152-188 | returned events, and the state of a pending loop, are the first k pages joined in order, all non-empty, with both cursors at start + 256·k; without a transport error the loop returned at the first empty page; an `Undecoded` result means some body did not decode |
| `Pagination.RetriesDoNotAdvance` | src/network.rs:178-183 | any run of status and body failures leaves the loop pending at the same cursors with nothing gathered: it never ends on its own |
| `Pagination.HonestPeerRoundTrip` | src/network.rs:168-177 | from a peer that serves 256-wide windows of its lists, with every request getting through, the fetch returns exactly the rest of both lists from the starting cursors, nothing missing or repeated |
| `RangeScan.Adjust` | src/network.rs:224-231 | a success moves `from` by exactly the step and at most doubles the step; a failure keeps `from` and halves the step with integer division; a step of 0 changes nothing |
| `RangeScan.AdjustKeepsStepValid` | src/network.rs:226-230 | a step that is 0 or a power of two up to 1024 stays one: a success doubles it unless it is already 1024, a failure halves it, so 1 becomes 0 |
| `RangeScan.Sweep` | src/network.rs:208-232 | a finished loop has `from ≥ to` and never went backwards; a stuck loop stands between the start and `to` and keeps a valid starting step valid; events only grow; a start at or past `to` returns at once |
| `RangeScan.FetchEvents` | src/network.rs:196-238 | with no provider the result is empty; a finished fetch reached `to`; a stuck one holds a valid step between the start and `to` (the same loop is at src/network.rs:240-281) |
| `RangeScan.SweepHarvests` | src/network.rs:224 | the events gathered are exactly the results of the successful queries, joined in order |
| `RangeScan.PlanStepsValid` | src/network.rs:226-230 | every successful query used a step of 0 or a power of two up to 1024 |
| `RangeScan.PlanStarts` | src/network.rs:208-231 | failures before the first successful range do not move `from`, so that range starts at the starting block |
| `RangeScan.PlanChains` | src/network.rs:213-225 | each successful range starts at the previous range's `from + step`, the block that range ended on |
| `RangeScan.PlanEnds` | src/network.rs:225 | the loop stops where the last successful range's `from + step` is |
| `RangeScan.StallIsPermanent` | src/network.rs:226-230 | once the step is 0 below `to`, the loop never finishes, and step and `from` never change |
| `RangeScan.HalvingExample` | src/network.rs:229-230 | success on [0, 1024], timeout on [1024, 2048], then success on [1024, 1536] at step 512 |
| `RangeScan.InclusiveSweepRepeatsBoundary` | src/network.rs:213-225 | as written, an event in block 1024 is fetched twice over blocks 0 to 2048 |
| `RangeScan.HalfOpenSweepIsExact` | src/network.rs:213-225 | with half-open ranges, the events gathered are every block from the start to where the loop stopped, each exactly once, in block order |
| `RangeScan.HalfOpenSweepFetchesOnce` | src/network.rs:213-225 | with half-open ranges the same event in block 1024 is fetched once |

## Findings

| source | as written | input that shows it | evidently intended | confidence | as-written member | corrected member |
|---|---|---|---|---|---|---|
| src/network.rs:213-225 | each query asks for blocks `from` to `from + step`, both included, and then `from += step`, so the next range starts on the block the previous one ended on | one event in block 1024, fetching blocks 0 to 2048 with both queries succeeding: the event is returned twice | each block queried once, e.g. `to_block(from + step - 1)` | medium, not executed (assumes the provider's `to_block` is inclusive, as in `eth_getLogs`) | `RangeScan.InclusiveSweepRepeatsBoundary` | `RangeScan.HalfOpenSweepIsExact` |

The corrected query is `RangeScan.HalfOpenQuery`. `RangeScan.HalfOpenSweepFetchesOnce`
runs the same input through it. The controller itself (`Adjust`, `Sweep`) is
unchanged by the fix.

## Left out

- HTTP client construction (`reqwest::Client::builder().build()?`) is treated as never failing. Its error path is not modelled.
- URL formatting, the 1-second and 10-second timeouts and `reqwest` status and body handling are collapsed into the `Fault` outcome of each request.
- `serde_json` decoding appears only as a `Json` fault or an `Ok` value.
- Logging has no semantic effect and is left out.
- `get_peers` returns a copy of the list. With immutable sequences the copy is the list itself, so the round reads `n.peers` as its snapshot.
- `set_provider_network` / `get_provider_network` are a plain `Option` setter and getter. The provider is the `Option` parameter of `RangeScan.FetchEvents`; with `None` the fetch returns nothing.
- `ethers` contract construction and log queries are an abstract query function. The timeout wrapper is the per-attempt boolean.
- `NetworkManager::new` / `add_network` (a static token table) are not part of this model.
- Termination of the pagination and adaptive loops is false in general. Each loop gets one outcome per iteration, and running out gives `Pending` / `Stuck`; no claim about what happens after those outcomes.
- u64 and usize overflow of cursors, heights and `from + step` is not modelled: all are unbounded naturals.
- `Sync.SyncWithPeers` requires exactly one contact per registry entry. This is how the model is driven, not a demand of the source.
- The claim that the paginated fetch and the direct fetch return the same events for the same blocks relates two separate data sources and is not modelled.
- The last adaptive range is not clamped to `to`, so a fetch can include events from blocks at or past `to`. This is stated (`Sweep` finishes with `reached >= to`) but not corrected.
