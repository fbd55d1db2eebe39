# Rabbit zoo: a verified model

The rabbit zoo has three parts:
- A drawing page (`public/draw.js`), where a visitor paints a rabbit inside a template mask. It trims the painting to its painted pixels, downscales it and sends it to the server as `add_rabbit`.
- A Node WebSocket server (`server/server.js`). It keeps the rabbits in memory, numbers them with a counter, broadcasts every change to the open connections, and drops connections that miss a heartbeat.
- A viewer page (`public/zoo.js`). It keeps a cache of hopping rabbits on six depth rows and applies the server's events to that cache. Each frame it runs every rabbit's hop state machine (forward, in place, idle), promotes a rabbit that leaves its row to the next row back, and asks the server to remove a rabbit that leaves the last row. It also draws the rows back to front, and lets an admin click a rabbit to remove it.

Both pages talk to the server through the same reconnecting connection manager, `createWSManager`. It has capped exponential backoff.

## Modules

| File | What it models |
|---|---|
| `numeric.dfy` | JavaScript and p5 arithmetic on unbounded reals. `Math.round(x)` is `floor(x + 1/2)`. p5's `random(a, b)` is `u * (b - a) + a` for a unit draw `u`. `constrain` and `lerp` are as p5 writes them. `Math.pow` is taken on natural exponents. |
| `protocol.dfy` | The JSON messages that pass between the pages and the server, and the server's rabbit record. |
| `server.dfy` | Three layers. The `message` switch as a function `Apply` on a `Store`. The heartbeat, pong and broadcast as functions on the list of connections. The class `ZooServer`, whose methods update `rabbits`, `nextId` and `clients` in place. |
| `connection.dfy` | `createWSManager` as the class `ConnManager`, with socket events and timer firings as method calls. |
| `zoo_rows.dfy` | `buildRowDefs`. |
| `zoo_hop.dfy` | `updateRabbitHopOnly`. The function `HopStep` is the pure transition. The class `Hopper` is the mutable record; its `Update` method performs the tick field by field and is proved equal to `HopStep`. |
| `zoo_spawn.dfy` | The head/body cut of `makeRabbitFromImage`, and the initial records of the two spawn functions. |
| `zoo_view.dfy` | The viewer's `rabbits` array as the class `Zoo`: `handleServerMessage`, the frame update loop, the back-to-front sort, the admin click selection, and the prefab request. |
| `draw_geometry.dfy` | `fitImageInBox`, `computeTemplateBox` (the class `TemplateBox`), the 512-pixel downscale, the byte estimate, and `mouseWithinCanvas`. |
| `draw_pixels.dfy` | `normalizeMaskAlpha` and `trimTransparent`, as loops over a byte `array`. |
| `outgoing.dfy` | `doSendToZoo` and `sendOnePrefab`, and what the server makes of their payloads. |

Every `random()` call site of the source becomes its own unit draw `u` with `0 <= u < 1`. These draws are grouped in `SpawnDraws` and `TickDraws`. `millis()` and `Date.now()` are parameters. Each hop step of a frame gets its own `millis()` reading. Each image load carries the `millis()` and `Date.now()` readings taken when its callback runs.

## Where the specification and the code disagree

The model follows the code:
- The description of the server says a removal of an unknown id is not broadcast. `server/server.js:81-84` broadcasts `remove_rabbit` for every truthy id. `Server.Remove` states the broadcast.
- The description of the viewer says a `new_rabbit` for an id already in the cache is an idempotent update. `public/zoo.js:123-125` spawns a second entry. `ZooView.Zoo.HandleServerMessage` appends.

## Model

| member | source | states |
|---|---|---|
| Server.AdmitScale | server/server.js:61 | The admission scale always lies in [0.6, 1.2]. |
| Server.AdmitScaleCases | server/server.js:61 | The scale is 1 when `w` or `h` is missing or zero. Otherwise, with `m = max(w, h)`: a longer side of at least 1600/3 (or a negative one) gives 0.6, one in (0, 800/3] gives 1.2, and one in between gives a scale exactly 320 / m. |
| Server.AdmitScalePortrait | server/server.js:61 | A 600 by 800 image gets the minimum scale 0.6. |
| Server.AddRejected | server/server.js:52-58 | An `add_rabbit` whose `imgData` is missing, not a string, without the `data:image/` prefix, or longer than 1,500,000 characters leaves the store as it is and broadcasts nothing. |
| Server.AddAccepted | server/server.js:59-72 | An accepted add appends exactly one record at the end and keeps the rest. The record has id `nextId`, the given name or "Rabbit", x in [0, 1), y in [0.55, 0.9) and scale in [0.6, 1.2]. The counter rises by one, and exactly one `new_rabbit` with that record is broadcast. |
| Server.ClearAll | server/server.js:75-78 | `clear_all` empties the list, keeps the counter and broadcasts `clear_all`. |
| Server.Remove | server/server.js:80-85 | A missing or zero id changes nothing and broadcasts nothing. Otherwise exactly the records with another id remain, in their order, and the counter is kept. A store without that id is left as it is, and `remove_rabbit` is broadcast either way. |
| Server.WithoutIdSpec | server/server.js:83 | The filter keeps exactly the records whose id differs. |
| Server.WithoutIdConcat | server/server.js:83 | The filter distributes over concatenation, so the survivors keep their relative order. |
| Server.WithoutIdKeepsValid | server/server.js:83 | Filtering keeps the ids strictly increasing and in [1, nextId). |
| Server.WithoutIdBounded | server/server.js:83 | Filtering a list of ascending ids below a bound gives such a list. |
| Server.ApplyKeepsValid | server/server.js:48-90 | Every message keeps the ids ascending and below the counter. An admitted rabbit gets the old counter as its id and the counter rises by one. Every other message leaves the counter unchanged, including `clear_all` and removals. |
| Server.RunIssuesFreshIds | server/server.js:21-90 | Over any sequence of messages, the `new_rabbit` ids are strictly increasing (so never reused) and lie between the starting and the final counter. |
| Server.FanoutOpenOnly | server/server.js:24-29 | A broadcast reaches a connection exactly when its `readyState` is open, and carries only the broadcast event. |
| Server.TickSurvivors | server/server.js:99-107 | After a heartbeat, the connections left are exactly those whose flag was up, each now with its flag down. |
| Server.NoneAlive | server/server.js:99-107 | A heartbeat over connections that are all flagged down terminates them all. |
| Server.TickTwice | server/server.js:99-107 | Two heartbeats with no `pong` in between terminate every connection. |
| Server.PongsFlags | server/server.js:34 | After some `pong`s, a connection keeps its id and state, and its flag is up exactly when it was up already or it answered. |
| Server.AnsweredSurvive | server/server.js:99-107 | Of the connections that survived a heartbeat, exactly those that answered with a `pong` since then survive the next one. |
| Server.TickKeepsUnique | server/server.js:99-107 | A heartbeat keeps the connection ids distinct. |
| Server.DisconnectedKeepsUnique | server/server.js:35-37 | Removing a closed connection keeps the connection ids distinct. |
| Server.DisconnectedSpec | server/server.js:35-37 | A connection that has closed leaves `wss.clients`, and the others stay. |
| Server.ZooServer.constructor | server/server.js:20-21 | The server starts with no rabbits, counter 1 and no connections. |
| Server.ZooServer.Broadcast | server/server.js:24-29 | The loop over `wss.clients` sends the event to each open connection in turn, matching `Fanout`. |
| Server.ZooServer.Connect | server/server.js:31-43 | A new connection, with an id no connection has, joins alive and open. It receives exactly one `sync_state` with the whole list. The store is unchanged, and the connection ids stay distinct. |
| Server.ZooServer.OnMessage | server/server.js:45-94 | The new store is `Apply` of the old one, the store invariant is kept, and the connections are unchanged. The messages sent are the event of `Apply` to every open connection, or none. |
| Server.ZooServer.OnPong | server/server.js:34 | A `pong` raises the flag of that one connection and changes nothing else. The connection ids stay distinct. |
| Server.ZooServer.OnReadyState | server/server.js:27 | The transport changes one connection's `readyState`, and nothing else changes. The connection ids stay distinct. |
| Server.ZooServer.OnClosed | server/server.js:35-37 | A closed connection is removed from `wss.clients`, and the loop matches `Disconnected`. The connection ids stay distinct. |
| Server.ZooServer.Heartbeat | server/server.js:99-108 | The set after the heartbeat is `Tick` of the old one, and the connections pinged are exactly the survivors. The connection ids stay distinct. |
| Connection.BackoffDelay | public/zoo.js:524 | `min(8000, round(800 * 1.7^n))` always lies in [800, 8000]. The same code is at public/draw.js:455. |
| Connection.BackoffMonotone | public/zoo.js:524 | The delay never shrinks as the attempt count grows. |
| Connection.BackoffSchedule | public/zoo.js:524 | The delays are 800, 1360, 2312, 3930 and 6682 ms, then 8000 ms from the fifth attempt on. |
| Connection.ConnManager.constructor | public/zoo.js:517-557 | The manager ends construction connecting, with no attempts counted, no timer, no keep-alive and nothing sent. |
| Connection.ConnManager.Connect | public/zoo.js:526-529 | `connect()` clears the timer, puts the state at connecting with a new connecting socket, and keeps the counter. |
| Connection.ConnManager.ScheduleReconnect | public/zoo.js:543-548 | While reconnecting it is a no-op. Otherwise it arms the timer with the backoff for the current count, raises the count by one and moves to reconnecting. |
| Connection.ConnManager.OnOpen | public/zoo.js:531-537 | `open` resets the attempt counter to 0, moves to open and starts the keep-alive. The manager invariant is kept. |
| Connection.ConnManager.OnClose | public/zoo.js:550 | `close` stops the keep-alive and schedules exactly one reconnect with the backoff of the old count, which then rises by one. The same code is at public/draw.js:479. |
| Connection.ConnManager.OnError | public/zoo.js:551 | `error` starts closing the socket and changes nothing else. The same code is at public/draw.js:480. |
| Connection.ConnManager.OnReconnectTimer | public/zoo.js:548 | The timer armed here fires `connect()` (public/zoo.js:526-529) again, which keeps the attempt counter. The same code is at public/draw.js:477. |
| Connection.ConnManager.Send | public/zoo.js:553 | `send` answers true and transmits exactly when the socket is open. Otherwise it answers false and nothing is queued. The same code is at public/draw.js:483. |
| Connection.ConnManager.IsOpen | public/zoo.js:554 | `isOpen()` holds exactly when the current socket's `readyState` is open. The same code is at public/draw.js:484. |
| Connection.ConnManager.GetState | public/zoo.js:555 | `getState()` reports the manager's state. The same code is at public/draw.js:485. |
| Connection.ConnManager.StateAgrees | public/zoo.js:554-555 | `isOpen()` and `getState()` agree: an open socket is only reported while the state is open, never while connecting or reconnecting, and a created manager is never disconnected. |
| Connection.ConnManager.OnKeepAlive | public/zoo.js:534-536 | The keep-alive sends one `client_ping` with the role and the clock exactly when the socket is open. |
| ZooRows.BuildRowDefs | public/zoo.js:102-113 | Every call yields ROW_COUNT rows, row i built from index i. |
| ZooRows.RowShape | public/zoo.js:102-113 | Even rows walk left and odd rows walk right. The front row is at 0.9 with scale 1 and hop height 0.22. The back row is at 0.28, and every row lies between them. |
| ZooRows.RowStep | public/zoo.js:106-108 | One row back flips the direction and multiplies the scale by 0.78 and the hop height by 0.88. |
| ZooRows.RowsRecede | public/zoo.js:104-108 | Rows further back are strictly higher, smaller and hop lower. |
| ZooHop.RowDx | public/zoo.js:337 | The stride `0.02 * 0.86^row` is in (0, 0.02]. The spawns set the same stride at public/zoo.js:145 and 183. |
| ZooHop.HopPeriod | public/zoo.js:265 | A hop period is in [0.4, 0.8). |
| ZooHop.BurstLength | public/zoo.js:264 | A burst is one or two hops. |
| ZooHop.IdleDeadline | public/zoo.js:293 | The idle deadline is 3 to 5 seconds after now. |
| ZooHop.Arm | public/zoo.js:265-268 | Re-arming restarts the hop at the current position. The target is one stride along for a forward record, and the position itself otherwise. |
| ZooHop.Advance | public/zoo.js:272-317 | Advancing never changes the row, the direction or the scale. |
| ZooHop.WakeUpSpec | public/zoo.js:262-269 | A due idle record starts a burst of one or two hops from where it stands, going forward exactly when the draw is below 0.55. Any other record is untouched. |
| ZooHop.SmoothstepBounds | public/zoo.js:277 | `p^2(3 - 2p)` maps [0, 1] into [0, 1]. |
| ZooHop.InFlight | public/zoo.js:272-279 | In flight the clock advances by dt and the progress is in [0, 1]. A forward record sits at the smoothstep interpolation, an in-place record at x0, and nothing else changes. |
| ZooHop.Landing | public/zoo.js:282-316 | Landing snaps x to x1 exactly and counts the hop. With hops left it re-arms in the same motion. With none left: a draw below 0.95 idles for 3 to 5 s, one below 0.951 gives an in-place burst with x0 = x1, and anything else gives a forward burst with x1 = x + dir * stride. |
| ZooHop.IdleWaits | public/zoo.js:262-272 | An idle record before its deadline does not move, and its hop fields stay the same. |
| ZooHop.RowExit | public/zoo.js:320-346 | A record exits exactly when it passed the edge while in the last row. Past the edge on any other row, it moves exactly one row back with that row's direction, height and hop height, 0.78 of its scale, the far entry point and the stride `0.02 * 0.86^row`. |
| ZooHop.ArmKeepsInv | public/zoo.js:265-268 | Re-arming with a drawn period keeps the record invariant. |
| ZooHop.AdvanceKeepsInv | public/zoo.js:272-317 | Advancing keeps the record invariant. |
| ZooHop.HopStepKeepsInv | public/zoo.js:248-347 | A tick keeps the invariant: the row is below ROW_COUNT, direction, height and stride are the row's, and the target matches the motion. The row stays or grows by one, and only a last-row record exits. |
| ZooHop.Hopper.constructor | public/zoo.js:225-231 | A new record holds the given id, creation time, image size, cut and hop fields. |
| ZooHop.Hopper.Rearm | public/zoo.js:265-268 | The four assignments give `Arm` of the old fields. |
| ZooHop.Hopper.WakeIfDue | public/zoo.js:262-269 | The fields become `WakeUp` of the old ones. |
| ZooHop.Hopper.ChooseNext | public/zoo.js:289-308 | The weighted choice after a burst: idle below 0.95, in place below 0.951, otherwise forward. |
| ZooHop.Hopper.AdvanceHop | public/zoo.js:272-317 | The fields become `Advance` of the old ones. |
| ZooHop.Hopper.PromoteRow | public/zoo.js:328-345 | The fields become `Promote` of the old ones. |
| ZooHop.Hopper.Update | public/zoo.js:248-347 | The new fields and the exit flag are exactly `HopStep` of the old fields. |
| ZooSpawn.HeadRatio | public/zoo.js:213-216 | The head ratio is in [0.25, 0.5]. |
| ZooSpawn.CutCoversImage | public/zoo.js:213-222 | Together the head slice [0, headH) and the body slice [bodyStart, imgH) cover the image. They overlap at the seam, and the cut is in the top half or at the one-pixel minimum. |
| ZooSpawn.EntryBurst | public/zoo.js:158 | A newcomer's first burst is 10 to 19 hops. |
| ZooSpawn.Phase | public/zoo.js:160 | The starting phase is in [0, period). |
| ZooSpawn.PhaseBounds | public/zoo.js:160 | `random(0, period)` is in [0, period). |
| ZooSpawn.FrontSpawnPlacement | public/zoo.js:143-170 | A newcomer has the hop invariant and is on row 0, walking left at y 0.9. It starts at 1.08, going forward for 10 to 19 hops with x0 = x and x1 = x + dir * stride. |
| ZooSpawn.FrontSpawnScale | public/zoo.js:154 | A newcomer's scale is between a quarter and a half of the server's scale. |
| ZooSpawn.RandomRow | public/zoo.js:181 | A sync spawn's row is below ROW_COUNT. |
| ZooSpawn.RandomSpawnPlacement | public/zoo.js:181-207 | A synced rabbit has the hop invariant and an x in [0.1, 0.9). It goes forward exactly when the draw is below 0.6 and is never idle. It has one or two hops, an idle deadline 3 to 5 s ahead, and the row's scale. |
| ZooView.WithoutIdSpec | public/zoo.js:132 | The cache filter keeps exactly the entries with another id, and leaves a cache without that id unchanged. |
| ZooView.WithoutIdAppend | public/zoo.js:132 | The filter keeps the remaining entries in their order. |
| ZooView.DropIdsSpec | public/zoo.js:324-325 | After the frame's removals, exactly the entries whose id was not requested remain. |
| ZooView.FlaggedIdsSpec | public/zoo.js:323-324 | Exactly the ids of the records that left the last row are requested, and there are no more requests than records. |
| ZooView.DrawOrderStable | public/zoo.js:242 | The sort keeps each row's entries in their original order. |
| ZooView.DrawOrderSorted | public/zoo.js:242 | The sorted cache runs from the back row to the front row. |
| ZooView.DrawOrderPermutes | public/zoo.js:242 | The sorted cache is a permutation of the entries on the rows. |
| ZooView.BackToFrontFacts | public/zoo.js:242 | For a cache on the rows, the draw order is a permutation, descending by row and stable. |
| ZooView.PrefabIndex | public/zoo.js:470 | `random(PREFAB_URLS)` picks one of the five prefabs. |
| ZooView.PrefabRequestSize | public/zoo.js:473-483 | A prefab request has no name and a longer side of at most 512. A loaded image of at most 512 pixels keeps its size. |
| ZooView.Zoo.constructor | public/zoo.js:8 | The cache starts empty. |
| ZooView.Zoo.SpawnFront | public/zoo.js:139-174 | A newcomer with an image appends exactly one fresh entry in front-row position. One with an empty `imgData` or a failed load changes nothing. |
| ZooView.Zoo.SpawnRandom | public/zoo.js:177-209 | A loaded synced record appends exactly one fresh entry placed by `RandomSpawn` at its load's `millis()` reading, with the load's `Date.now()` as fallback creation time, and any other changes nothing. |
| ZooView.Zoo.Resync | public/zoo.js:118-122 | `sync_state` empties the cache, then spawns exactly the loadable records of the event, in order. |
| ZooView.Zoo.RestoreOne | public/zoo.js:120 | One turn of the sync loop adds an entry exactly when the record is loadable. |
| ZooView.Zoo.RemoveId | public/zoo.js:131-134 | `remove_rabbit` filters the cache by id. |
| ZooView.Zoo.HandleServerMessage | public/zoo.js:116-136 | `sync_state` replaces the cache by the loadable records, in order. `new_rabbit` appends one front-row entry, or none. `clear_all` empties the cache, `remove_rabbit` filters it, and anything else changes nothing. |
| ZooView.Zoo.UpdateAll | public/zoo.js:239 | Every entry takes exactly its `HopStep`, at its own clock reading, as each call of `updateRabbitHopOnly` reads `millis()` anew (public/zoo.js:249). The ids of the entries that left the last row are requested once each, in order, and exactly those leave the cache. |
| ZooView.StepAll | public/zoo.js:239 | The loop body runs on each record in order and ends with the requests and survivors above. |
| ZooView.Zoo.SortBackToFront | public/zoo.js:242 | The cache becomes a stable back-to-front permutation of itself. |
| ZooView.Zoo.Frame | public/zoo.js:235-244 | Every entry takes exactly its `HopStep`, at its own clock reading. The ids of the entries that left the last row are requested, in order. The cache becomes the draw order of the entries not requested: back row to front, each row keeping its previous order, a permutation of the survivors. There are no more requests than entries. |
| ZooView.Zoo.PickAt | public/zoo.js:431-445 | Nothing is selected exactly when no drawn rectangle contains the point. Otherwise the choice contains it, is in the frontmost such row, and is the earliest of that row. |
| ZooView.Zoo.MousePressed | public/zoo.js:428-446 | Outside admin mode nothing is sent. In admin mode, exactly one `remove_rabbit` is sent for a frontmost rabbit under the pointer, and nothing when there is none. |
| DrawGeometry.FitImageInBox | public/draw.js:208-214 | The scale is the smaller ratio. The rectangle fits the box, touches it on one side, keeps the aspect ratio and is centred. |
| DrawGeometry.FitBounds | public/draw.js:208-210 | Scaling by the smaller ratio fits each side and meets at least one. |
| DrawGeometry.TemplateTargets | public/draw.js:165-169 | Before rounding, `targetH` is at most `maxH` and `1.1 * maxW` and equals one of them. `targetW` is at most `maxW` and `0.9 * targetH` and equals one of them. |
| DrawGeometry.TemplateBox.constructor | public/draw.js:24 | The template box starts at zero. |
| DrawGeometry.TemplateBox.Compute | public/draw.js:165-175 | The fields become the rounded target size and the rounded centred and 55% offsets. |
| DrawGeometry.TemplateBoxPlacement | public/draw.js:165-175 | The box keeps a 40-pixel margin on three sides, is centred to half a pixel, and leaves 55% of the spare height above it to half a pixel. |
| DrawGeometry.ScaledSideBounds | public/draw.js:264-267 | A rescaled side is between 1 and 512, and the longer side becomes exactly 512. |
| DrawGeometry.ExportSizeBounds | public/draw.js:262-268 | Both sides are at least 1. A size over 512 ends with its longer side exactly 512. Any other is unchanged apart from `max(1, ·)`. |
| DrawGeometry.DownscaleBounds | public/zoo.js:473-479 | The prefab downscale never exceeds 512 on the longer side, and keeps an image that already fits. |
| DrawGeometry.EstimateBytesClose | public/draw.js:273 | `round(len * 3 / 4)` is within half a byte of three quarters of the length. |
| DrawGeometry.MouseWithinCanvasPixel | public/draw.js:161 | The pointer is within the canvas exactly when the pixel under it is a canvas pixel. |
| DrawPixels.OffsetInRange | public/draw.js:228 | `idx = 4 * (y * w + x)` addresses four bytes inside the buffer. |
| DrawPixels.BinarisedPixels | public/draw.js:229-233 | Each output pixel is (255, 255, 255, 255) when the luma exceeds 127, and (0, 0, 0, 0) otherwise. |
| DrawPixels.BinarisedIdempotent | public/draw.js:226-234 | Binarising a binarised mask changes nothing. |
| DrawPixels.ScanAlpha | public/draw.js:222-223 | The flag is set exactly when some alpha byte is below 250. |
| DrawPixels.Binarise | public/draw.js:226-234 | The nested loops fill a fresh buffer with the binarised mask. |
| DrawPixels.BinariseRow | public/draw.js:227-234 | One row of the loop extends the binarised prefix by one row. |
| DrawPixels.PaintPixel | public/draw.js:228-233 | One pixel of the loop writes the four binarised bytes. |
| DrawPixels.NormalizeMaskAlpha | public/draw.js:217-237 | With some alpha below 250, the input is returned. Otherwise a fresh buffer holds its binarised mask. |
| DrawPixels.PadClampBounds | public/draw.js:308-312 | The padded crop lies inside the image, is 1 to w wide and 1 to h high, and holds the box with at most `pad` to spare on each side. |
| DrawPixels.Visit | public/draw.js:296-301 | A painted pixel stretches the box, which still holds every painted pixel seen, with each edge pinned by one. |
| DrawPixels.ScanRow | public/draw.js:295-302 | A row of the scan keeps that state. |
| DrawPixels.ScanDone | public/draw.js:294-302 | At the end the box is the initial one with no painted pixel, or the tight box of the painted pixels. |
| DrawPixels.ScanImage | public/draw.js:294-302 | The scan over all rows reaches that final state. |
| DrawPixels.TrimTransparent | public/draw.js:280-316 | The 64 by 64 blank is returned exactly when no pixel reaches the threshold. Otherwise the crop is the padded, clamped tight box, lies inside the image, and is at least one pixel each way. |
| Outgoing.ExportPayloadShape | public/draw.js:262-276 | An export carries the image and no name. Each side is between 1 and 512, and is the trimmed size when that fits. |
| Outgoing.SmallImageScale | server/server.js:61 | The server scales an image of at most 512 pixels a side into [0.625, 1.2]. |
| Outgoing.ExportAdmitted | public/draw.js:275 | An admitted export adds one record named "Rabbit" with a scale in [0.625, 1.2]. |
| Outgoing.PrefabAdmitted | public/zoo.js:483 | An admitted prefab adds one record named "Rabbit" with a scale in [0.625, 1.2]. |
| Outgoing.DoSendToZoo | public/draw.js:362-368 | With no manager or a socket that is not open, nothing is sent. Otherwise exactly the export payload is sent. |
| Outgoing.SendOnePrefab | public/zoo.js:468-485 | The downscaled prefab is sent exactly when a manager exists and its socket is open. |

## Left out

- Rendering and compositing are not modelled: `drawRabbit`, the night background, the ear-flick timers, the `sin`/`noise` jitter and the preview composite. They decide no placement.
- The DOM is not modelled: badges, the admin HUD, the preview modal, buttons, key handlers, alerts and the `onStateChange` callback. The alerts of `doSendToZoo` are its returned outcome.
- Image loading and encoding (`loadImage`, `createGraphics`, `g.get()`, `toDataURL`) are foreign browser calls. A load arrives as its outcome (`Load`), a pixel buffer as an `array<byte>`, and the PNG data URL as a string parameter.
- Image loads in the viewer are synchronous here: each spawn completes before the next message is handled. In the source, each `loadImage` callback pushes into `rabbits` whenever its load completes. A load still pending when a later message arrives therefore inserts its rabbit after that message. After `clear_all` it brings back a cleared rabbit. After `remove_rabbit` it brings back the removed rabbit. After a second `sync_state` it duplicates a synced rabbit. Loads can also complete out of order, which reorders a sync. The `ClearedAll`, `RemovedRabbit` and `SyncState` clauses of `ZooView.Zoo.HandleServerMessage` hold in the source only for loads that completed before the message.
- JSON parsing and invalid JSON are not modelled. Messages are datatypes, and the `add_rabbit` `imgData` field arrives already sorted into missing, not a string, or a string.
- The `remove_rabbit` id is an optional integer. A string or fractional id, which the server's `!==` filter matches against no record and still broadcasts, is not modelled.
- The `add_rabbit` name is an optional string. A `null` or non-string name, which the server stores as it is, is not modelled.
- Numbers are unbounded reals, not IEEE doubles. NaN and infinities are not modelled, and neither are `w`/`h` fields holding something other than a number.
- String length is the sequence length. JavaScript counts UTF-16 code units; the two agree on data URLs, which are ASCII.
- Express static serving, `server.listen` and logging are not modelled.
- Sockets are values identified by a connection id, one per `ws` object, kept distinct by the server's invariant. The `ws` library's removal of a closed connection from `wss.clients` is the method `OnClosed`. `terminate` is removal in `Tick`. A failed `ping` is not modelled.
- Server.ZooServer.OnMessage: `name` takes the default "Rabbit" only when it is missing. A present but falsy name is kept, as the source's destructuring default does.
- Connection.ConnManager.Connect: the source also calls `close()` on the previous socket. That socket is always already closed when `connect` runs from the reconnect timer, so the model only replaces it. Late events from a replaced socket are not modelled.
- Connection.ConnManager.OnClose and OnOpen require the socket to be in a state the transport can deliver that event in, and apply to the current socket.
- Outgoing.DoSendToZoo has no "not sent" outcome. The source shows that alert when `send` fails right after `isOpen()` was true. Both read the same `readyState` with nothing in between, so it cannot happen.
- ZooView.Zoo.MousePressed leaves out the `!WS` guard. It returns the removal request rather than passing it to the manager, and `UpdateAll` does the same for its requests; `ConnManager.Send` models the send itself. The selection is a direct scan for the frontmost, earliest covering entry, which is what the copy, the stable ascending sort and the first match of the source select.
- ZooView.Zoo.SortBackToFront assigns the stably sorted sequence, defined by `DrawOrder`, rather than sorting in place.
- ZooSpawn.FrontSpawn and ZooSpawn.RandomSpawn model `stateUntil: null` as 0; it is only read while idle, and a newcomer is never idle. `data.scale ?? base.scale ?? 1` is the record's scale, which the server always sets.
- DrawPixels.NormalizeMaskAlpha takes the pixels of the mask image as drawn at its own size at pixel density 1, so the redrawn copy equals the input.
- DrawPixels.TrimTransparent works at pixel density 1, which both pages set. The blit into the cropped graphics is not modelled.
- The clear button of the viewer (`clear_all` from the admin UI) and the `R` key are UI and are not modelled. The message itself is modelled on the server side.
- The sketch demo page (`public/sketch.js`) is not part of this model.
