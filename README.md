# Packet routing of the replicated-document stress harness

`test/test.mjs` drives the document engine with simulated replicas: a
server world view and a number of player world views. They exchange
document updates as binary packets over in-memory pipes. This project
models the sequential part of that harness. It does not model the engine.

- **Packet header** (`packet_format.dfy`, module `PacketFormat`).
  - A packet starts with a little-endian uint32 method tag, counted up from 1 by `MESSAGES`.
  - A state reset (tag 1) carries a little-endian uint32 clock and then the encoded state.
  - A transaction (tag 2) is the whole packet, handed to the transaction decoder.
  - Any other tag yields `null`.
  - `getUint32` past the end of the view raises a `RangeError`, modelled as a `Failure`.
  - The engine's decoders (`zbdecode`, `deserializeUpdate`) and the per-event summary are function parameters.
- **Delayed FIFO pipes** (`packet_queue.dfy`, module `PacketQueue`; `routing.dfy`, class `Routing.Pipe`).
  - A pipe holds a queue of `(data, delay, origin)` entries for one destination view.
  - On a tick, a head with a positive delay loses one unit of delay and blocks the pipe. Heads with delay 0 are shifted off and handed to the destination.
  - A packet is never handed to the view whose player id is the packet's origin.
  - A flush hands over every entry whatever its delay, then empties the queue.
  - Every handled entry writes one event line: sent, skipped sending, flushed or skipped flushing.
  - The specification functions are `TickQueue`, `Delivered` and `RouteEvents`. The methods that work in place are proved against them.
- **World views** (`routing.dfy`, class `Routing.WorldView`).
  - Each view has its list of pipes, and can pipe, unpipe and fan a packet out to all of its pipes.
  - The document's update listener pushes updates that did not come from the view itself.
  - `update` ticks every pipe in list order, and `flush` drains every pipe.
  - What a view receives is a log of handled packets, standing in for `Z.applyUpdate`.
  - The whole pass over the pipes is specified by the ghost values `Runs` and `Received`. The lemma `ReceivedIff` states when a view receives a packet.
- **Players** (`players.dfy`, module `Players`; `routing.dfy`).
  - `handlePacket` checks for duplicate player ids after applying an update.
  - The players observer removes a remote player for each deleted entry and appends one for each added entry.
  - `ServerWorldView.clearPlayer` deletes a player from the document's players array.
  - The observer is modelled twice: once as written, and once with the lookup by id that its error message implies. See "Findings".

Ids and origins are JavaScript values (`JsValue`: `undefined`, `null` or a
string), because the observer's bug depends on truthiness. Bytes are
integers in `0..255`. Tags and clocks are `uint32`, a subset type of `int`.
A delay is an integer in `0..3`, the range of
`Math.floor(Math.pow(rng() * 5, 0.7))`. It is taken as a parameter.

## Model

| member | source | states |
|---|---|---|
| Base.Truthy | test/test.mjs:1163 | JavaScript truthiness over these values: everything except `undefined`, `null` and the empty string |
| Base.DefaultNull | test/test.mjs:1199 | the `origin = null` default: an `undefined` argument becomes `null`, any other is passed on |
| Base.Nullish | test/test.mjs:1148 | `origin ?? this.playerId`: a string origin is kept; `null` and `undefined` are replaced by the fallback |
| Base.FindIndex | test/test.mjs:1192 | `findIndex`: the result is the first index whose element satisfies the predicate; `None` (JavaScript's -1) exactly when no element does |
| Base.RemoveAt | test/test.mjs:1194 | `splice(index, 1)`: one element shorter, the element at the index is gone, the others keep their order, and the multiset loses exactly that element |
| PacketFormat.GetUint32 | test/test.mjs:906 | `getUint32(index, true)` succeeds exactly when the four bytes lie in the view, and the value's little-endian encoding is those bytes |
| PacketFormat.ParseHeader | test/test.mjs:903-911 | a header that is read is well formed, fits in the packet, and is exactly the encoding of the packet's first bytes |
| PacketFormat.ParsePacketData | test/test.mjs:902-946 | `_parsePacketData` as written throws exactly when the packet is under 4 bytes, or is a state reset under 8 bytes; its results are stated by `TransactionRoundTrip`, `UnknownMethodIsNull` and `StateResetAsWritten` |
| PacketFormat.ParsePacketDataBounded | test/test.mjs:902-946 | the parser with the state view bounded by the packet throws on exactly the same packets; its results are stated by the three round-trip lemmas |
| PacketFormat.DecodeEncode | test/test.mjs:906 | little-endian uint32 decoding inverts encoding |
| PacketFormat.EncodeDecode | test/test.mjs:906 | encoding inverts decoding on every 4-byte sequence, so the tag is exactly bytes 0..4 |
| PacketFormat.ParseEncodedHeader | test/test.mjs:895-911 | every well-formed header (tag 1 with a clock, tag 2, or any other tag) is read back from its encoding, whatever bytes follow |
| PacketFormat.ParsedHeaderIsPrefix | test/test.mjs:903-911 | a header that parses is well formed, fits inside the packet, and the packet is its encoding followed by the body |
| PacketFormat.ParseHeaderFails | test/test.mjs:906-911 | reading fails (RangeError) exactly when the packet has fewer than 4 bytes, or is a state reset with fewer than 8 |
| PacketFormat.DescribeEvents | test/test.mjs:924-931 | the event summaries: one per decoded event, in the same order |
| PacketFormat.StateResetRoundTrip | test/test.mjs:909-920 | a tag-1 packet yields `{clock, state}`, with the clock at bytes 4..8 and the state decoded from byte 8 to the end of the packet, wherever the packet sits in its buffer |
| PacketFormat.StateResetAsWritten | test/test.mjs:909-920 | as written, a tag-1 packet yields its clock and the state decoded from the bytes after the header followed by every byte of the buffer after the packet |
| PacketFormat.TransactionRoundTrip | test/test.mjs:921-933 | for both parsers, a tag-2 packet yields the summaries of the events the transaction decoder reads from the whole packet |
| PacketFormat.UnknownMethodIsNull | test/test.mjs:941-944 | for both parsers, any tag other than 1 and 2 yields `null` |
| PacketFormat.ParsersAgreeAtBufferEnd | test/test.mjs:913 | the parser as written and the bounded parser agree on every packet whose view reaches the end of its buffer |
| PacketFormat.StateViewOverrunsPacket | test/test.mjs:913 | as written, the state decoder of a packet that is a sub-view of a larger buffer also sees the bytes after the packet |
| PacketQueue.TickQueue | test/test.mjs:1211-1226 | one tick of a queue: only entries with delay 0 are shifted off, and every entry is either kept or shifted off (its full shape is `TickQueueShape`) |
| PacketQueue.TickQueueShape | test/test.mjs:1211-1226 | a tick shifts off a prefix of zero-delay entries; it stops at the end of the queue, or at the first entry with a positive delay, which loses one unit while every later entry keeps its own |
| PacketQueue.TickNeverGrows | test/test.mjs:1211-1226 | every entry is either still queued or was shifted off, so a tick never grows the queue |
| PacketQueue.BlockedHead | test/test.mjs:1213-1215 | a head with a positive delay loses exactly one unit of delay; nothing is shifted off; the rest of the queue is unchanged |
| PacketQueue.TickMakesProgress | test/test.mjs:1211-1226 | each tick of a non-empty queue strictly lowers its total pending ticks, so a queue with no new pushes drains |
| PacketQueue.Delivered | test/test.mjs:1218-1219 | the shifted-off entries handed to the destination: no more than were shifted off, and none that originated from the destination's own id (exactly those: `DeliveredIff`) |
| PacketQueue.DeliveredIff | test/test.mjs:1218-1219 | an entry reaches the destination exactly when it was shifted off and its origin is not the destination's player id |
| PacketQueue.DeliveredPartition | test/test.mjs:1218-1223 | the shifted-off entries are exactly the delivered ones plus the destination's own echoes (as multisets) |
| PacketQueue.Echoes | test/test.mjs:1221-1222 | every dropped entry came from the destination's own player id |
| PacketQueue.RouteEventOf | test/test.mjs:1218-1223 | the line of one handled entry: from this view, to the destination, with the entry's origin; a delivery exactly when the origin is not the destination's id; a flush line exactly on a flush |
| PacketQueue.RouteEvents | test/test.mjs:1220-1222 | one event line per shifted-off entry |
| PacketQueue.RouteEventsLines | test/test.mjs:1211-1250 | line `i` of a tick or a flush is the line of entry `i`, in queue order |
| PacketQueue.SentLinesAreDeliveries | test/test.mjs:1218-1223 | the number of sent (or flushed) lines equals the number of packets handed to the destination |
| Players.FirstRepeat | test/test.mjs:1261-1268 | the first position whose id occurred earlier; every id before it is seen for the first time; `None` exactly when every id is new |
| Players.NoRepeatIffUnique | test/test.mjs:1260-1269 | there is no repeated position exactly when no two entries share an id |
| Players.CheckPlayerIds | test/test.mjs:1258-1270 | the set-based scan passes exactly when the ids are pairwise distinct, and otherwise reports the id at the first repeated position |
| Players.DeletePlayers | test/test.mjs:1159-1171 | the deletion loop only removes players; when no deletion throws it removes one player per deleted id; an error names one of the deleted ids |
| Players.AsWrittenMatch | test/test.mjs:1163 | the predicate as written accepts exactly the players whose id is not `undefined`, `null` or empty, and never looks at the deleted id |
| Players.FindMatch | test/test.mjs:1163 | the first remote player the lookup accepts for the deleted id, or `None` when it accepts none |
| Players.AsPlayers | test/test.mjs:1172-1177 | the players appended for the added entries, one per entry and in order |
| Players.AsWrittenOutcome | test/test.mjs:1159-1171 | as written, the deletions succeed exactly when there are at least as many players with a truthy id as deleted ids; each removes one such player, whichever id was deleted |
| Players.AsWrittenRemovesWrongPlayer | test/test.mjs:1163 | as written, with players "a" and "b", deleting "b" removes "a" and keeps "b" |
| Players.ByIdRemovesNamedPlayer | test/test.mjs:1159-1170 | looked up by id, deleting "b" removes "b" and keeps "a" |
| Players.ByIdOutcome | test/test.mjs:1159-1171 | looked up by id, the deletions succeed exactly when the deleted players are a sub-multiset of the remote players; they then remove exactly those players |
| Players.ByIdMissing | test/test.mjs:1168-1169 | a deleted id with no remote player makes the observer throw, and the deleted players are not all present |
| Routing.Pipe.constructor | test/test.mjs:1115-1118 | a pipe towards the destination holding the given queue |
| Routing.Pipe.PushPacket | test/test.mjs:1119-1123 | exactly one entry with the data, origin and drawn delay goes to the back of the queue |
| Routing.Pipe.Clone | test/test.mjs:1124-1130 | a fresh pipe with the same destination and an entry-wise equal queue; a separate object, so ticking it leaves the original alone |
| Routing.Pipe.HandOver | test/test.mjs:1217-1223 | one shifted-off entry is handed to the destination unless it is the destination's own echo; the matching line is written |
| Routing.Pipe.Tick | test/test.mjs:1211-1226 | the `while` loop: the queue becomes what `TickQueue` leaves; the destination receives the delivered part of the shifted-off prefix, in order; the lines are those of that prefix |
| Routing.Pipe.Flush | test/test.mjs:1237-1250 | the queue is emptied; the destination receives every non-echo entry in queue order, whatever its delay; one flushed or skipped line per entry |
| Routing.ReceivedIff | test/test.mjs:1210-1226 | after a pass over the pipes, a view holds a packet exactly when it held it before, or some pipe towards it handed the packet over and the packet's origin is not the view's player id |
| Routing.ReceivedOthers | test/test.mjs:1236-1251 | a view that no pipe leads to receives nothing during a pass |
| Routing.WorldView.constructor | test/test.mjs:1133-1140 | a view with no pipes, no handled packets and no remote players |
| Routing.WorldView.PipeTo | test/test.mjs:1183-1190 | a null destination throws and changes nothing; otherwise one fresh empty pipe towards it is appended and returned |
| Routing.WorldView.Unpipe | test/test.mjs:1191-1198 | the first pipe towards the destination is spliced out, the others keep their order; with none it throws and changes nothing |
| Routing.WorldView.PushPacket | test/test.mjs:1199-1203 | every pipe gets exactly one new entry with this data and origin (an `undefined` origin taking the default `null`) at the back of its queue; the list of pipes is unchanged |
| Routing.WorldView.OnDocUpdate | test/test.mjs:1145-1153 | an update from the view's own player id is not pushed; any other is pushed to every pipe, with a `null` or `undefined` origin replaced by the view's id, and that by `null` if the id is `undefined` |
| Routing.WorldView.RunPipe | test/test.mjs:1210-1227 | one pipe's pass: its queue and its destination's log move to what its run says, and every other pipe is untouched |
| Routing.WorldView.RunPipes | test/test.mjs:1236-1251 | the pipes run one after the other in list order; the lines are those of every run, concatenated in pipe order |
| Routing.WorldView.Update | test/test.mjs:1204-1232 | `_tickPackets`: each queue becomes what one tick leaves; each destination's log grows by what the pipes towards it hand over, in pipe order; the lines of all pipes are returned |
| Routing.WorldView.Flush | test/test.mjs:1233-1254 | every queue is emptied; each destination's log grows by every non-echo entry of the pipes towards it, in pipe and queue order; the lines are returned |
| Routing.WorldView.Receive | test/test.mjs:1256 | applying an update appends the packet to the view's log |
| Routing.WorldView.HandlePacket | test/test.mjs:1255-1271 | the packet is applied; the call throws exactly when two entries of the players array share an id, naming the first repeated one |
| Routing.WorldView.ApplyPlayersEvent | test/test.mjs:1157-1178 | the deleted ids are removed one at a time with the given lookup; at the first failure it throws `delete nonexistent player` and stops; otherwise the added players are appended in order |
| Routing.WorldView.OnPlayersChanged | test/test.mjs:1157-1178 | the observer as written: each deletion removes the first remote player whose id is truthy |
| Routing.WorldView.OnPlayersChangedById | test/test.mjs:1157-1178 | the observer with each deletion looked up by the deleted player's id |
| Routing.WorldView.ClearPlayer | test/test.mjs:1324-1336 | `ServerWorldView.clearPlayer`: deletes the players-array entry at the index of the first remote player with that id; does nothing if there is none |
| Routing.WorldView.ClearPlayerById | test/test.mjs:1324-1336 | the corrected clear: the players array becomes `Cleared` of itself, the player looked up in the array |
| Routing.Cleared | test/test.mjs:1327-1332 | exactly one occurrence of the id fewer; when the id is present, its first occurrence goes and the entries before and after it keep their order; the array is unchanged when the id is absent |
| Routing.ClearPlayerDeletesWrongEntry | test/test.mjs:1327-1332 | with array ["a","b","c"] mirrored in the remote players, clearing "c" finds remote index 2; the as-written observer then splices "a" from the remote players, leaving ["b","c"]; clearing "b" finds remote index 0, so the two deletes leave the array ["b"] |
| Routing.ClearByIdKeepsOthers | test/test.mjs:1327-1332 | looked up in the array, clearing "c" and then "b" from ["a","b","c"] leaves ["a"] |
| Routing.ArrayDelete | test/test.mjs:1332 | `playersArray.delete(index)`: the element at the index goes and the others keep their order |

## Left out

- The document engine (`z.mjs`) is not part of this model. That covers `Z.applyUpdate`, `zbdecode`, `TransactionCache.deserializeUpdate`, and `Doc`, `Map` and `Array`. Applying an update is modelled as appending the packet to the view's `handled` log. The decoders are function parameters.
- Re-entrant listeners: inside `Z.applyUpdate`, the destination's document can fire its `update` listener and push the packet into the destination's own pipes. That happens inside the engine, so `Routing.Pipe.HandOver` only appends to the log. The listener is modelled separately as `Routing.WorldView.OnDocUpdate`.
- The duplicate-id exception aborting a tick or a flush halfway: `Update` and `Flush` hand packets over with `Receive`. The check that `handlePacket` runs after applying is modelled on its own, in `HandlePacket`.
- The random delay `Math.floor(Math.pow(rng() * 5, 0.7))` is floating point and randomness. `PushPacket` takes the drawn delays as a parameter, one per pipe.
- `console.warn` for an unknown method, the event lines as strings, and `console.log`. Event lines are structured `RouteEvent` values that carry the same three ids.
- `this.appManager.update()` in `update`, `AppManager`, and `Player.destroy`: their bodies are stubs.
- `WorldView.clone`, `ServerWorldView.bind`, `ClientWorldView`, `Simulation` and the test cases: they are test control flow, or they exercise the engine.
- `e.changes.keys.get(index).value.get('playerId')` and `playersArray.get(newKey, Z.Map)` in the observer are document reads. The observer takes the deleted ids and the added ids as sequences, and a `Player` is modelled by its id.
- Routing.ArrayDelete: the engine's behaviour for an index past the end of the players array is not part of this model. The model deletes nothing there. `ClearPlayer` passes an index into the remote players. That list has the same length as the array while the observer does not throw. But a remote player's index need not be its array index: see "Findings", and note that `e.added` always appends to the remote players.
- The players array that `handlePacket` reads is the `playersArray` field. It is kept apart from the document, so applying a packet does not change it.
- Routing.Pipe.Clone: entries are values here, so the copy made by `PacketQueueEntry.clone` (test/test.mjs:1110-1112) is implicit. The aliasing it avoids (the source mutates `packet.delay` in place) cannot arise.

## Findings

| source | as written | input that shows it | evidently intended | confidence | as-written member | corrected member |
|---|---|---|---|---|---|---|
| test/test.mjs:1163 | `this.remotePlayers.findIndex(player => player.playerId)` finds the first remote player with a truthy id, ignoring the deleted `playerId` | remote players "a" and "b"; player "b" is deleted; "a" is removed and "b" stays | remove the remote player whose id is the deleted `playerId` (the error message on the next lines names that id) | high; not executed | Players.AsWrittenRemovesWrongPlayer | Players.ByIdRemovesNamedPlayer |
| test/test.mjs:913 | `new Uint8Array(uint8Array.buffer, uint8Array.byteOffset + index)` has no length, so the state view runs to the end of the underlying buffer, not to the end of the packet | a 9-byte buffer `[1,0,0,0,0,0,0,0,7]` with the packet viewing its first 8 bytes; the state decoder is handed `[7]` instead of `[]` | decode the state from the packet's own bytes after the header | medium (harmless while every packet owns its whole buffer; `_parsePacketData` is reached only through `_parsePacket`, whose call sites are in commented-out logging); not executed | PacketFormat.StateViewOverrunsPacket | PacketFormat.StateResetRoundTrip |
| test/test.mjs:1327-1332 | `clearPlayer` finds the player in `remotePlayers` and deletes that index from the players array | array ["a","b","c"] with remote players [A,B,C]; `clearPlayer("c")` deletes array index 2, the as-written observer splices A, leaving remote [B,C]; `clearPlayer("b")` finds remote index 0 and deletes "a", leaving the array ["b"] | delete the players-array entry whose id is the cleared id | medium (the drift assumes the server's own observer fires on its own delete, which the Z document library decides; z.mjs is not part of this model); not executed | Routing.ClearPlayerDeletesWrongEntry | Routing.Cleared |
