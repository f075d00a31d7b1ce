# Alpha speaker connector: registry and servicer tables

This project models the in-memory core of the Alpha speaker connector, a Home Assistant
integration. Smart speakers ("Alphas") connect to it over a streaming RPC service. Two parts
are modelled.

- **The speaker registry** (`SpeakerManager`, module `SpeakerRegistry`). It is a table from
  speaker id to a `ConnectedSpeaker` record. Registration overwrites the entry and issues a
  session id `<speaker_id>_<second>`. The registry also covers:
  - activity refresh, removal and clearing;
  - the 300-second "active" window and the one-hour eviction pass;
  - the statistics with counts by type and by capability;
  - the record-skipping rule of loading saved records.
- **The bookkeeping of the RPC servicer** (`AlphaSpeakerService`, module `SpeakerService`). It
  keeps three tables:
  - the connected sessions;
  - the one active TTS queue of each speaker;
  - the pending TTS replies, keyed by message id.

  Queues (`TtsQueue`) and reply futures (`ResponseSlot`) are objects. Their identity is
  reference equality, so the identity-guarded queue removal of the source (`is queue`) is
  modelled exactly. The invariant `AlphaSpeakerService.Valid` holds across every handler:
  - every active queue belongs to a connected session;
  - every slot still filed as pending is unresolved;
  - no slot is filed under two message ids.

The pure helpers the handlers use are in module `DeviceListing`:
- entity-id prefix filters;
- the domain of an entity id;
- the fixed domain-to-commands table;
- the device listing and the initial snapshot of a device-state stream;
- the hours/minutes/seconds split of the keep-alive uptime.

Supporting modules:
- `OrderedMaps`: a Python `dict` with insertion order. The registry and the session table are
  iterated in that order.
- `Tally`: counting maps and the sum of their values.
- `Text`: the decimal text of a natural number and its inverse, used by session ids.

`Scenarios` chains whole sequences of handler steps on a fresh service and proves their outcome:
- the TTS round trip;
- a reply timeout;
- the reconnect race;
- registering a speaker twice;
- an eviction.

Time is an integer parameter `now` (seconds). Millisecond timestamps are `now * 1000`. The
Home Assistant event bus is an append-only log of `Event` values. A handler that awaits is
modelled as one atomic step. `send_tts_to_speaker` is split at its 30-second wait into two
steps:
- `SendTtsToSpeaker` runs up to the enqueue. Enqueue failure is an input.
- `AwaitTtsReply` is the end of the wait. Timeout is the slot still being unresolved.

Behaviour of the code worth noting:
- Session ids are unique only across distinct seconds: `SessionIdInjective` states that equal
  session ids imply the same speaker and the same second. Two registrations of one speaker in
  the same second get the same id, because `SessionId` depends on nothing but the speaker id
  and the second.
- The average uptime in the statistics sums over the active speakers but divides by the total
  count.
- In `KeepAlive` the idle test reads the `last_activity` it has just refreshed, so it never
  reports a speaker as idle. `SpeakerService.AlphaSpeakerService.KeepAlive` states `!idle`.

## Model

| member | source | states |
|---|---|---|
| SpeakerRegistry.SessionId | speaker_manager.py:75 | a session id is the speaker id, then `_`, then a non-empty run of decimal digits |
| SpeakerRegistry.SessionIdRoundTrip | speaker_manager.py:75 | a session id splits back into the speaker id and the registration second |
| SpeakerRegistry.SessionIdInjective | speaker_manager.py:75 | equal session ids imply the same speaker and the same second, so registrations at different seconds get different ids |
| SpeakerRegistry.ActiveOf | speaker_manager.py:123-132 | a speaker is in the active list iff it is in the input and `now - last_seen <= window` |
| SpeakerRegistry.StaleOf | speaker_manager.py:139-146 | a speaker is in the stale list iff it is in the input and `now - last_seen > window` |
| SpeakerRegistry.ActiveStalePartition | speaker_manager.py:123-146 | the active and stale lists split the speakers: their sizes add up to the table size |
| SpeakerRegistry.Ids | speaker_manager.py:142 | one speaker id per record, in table order |
| SpeakerRegistry.MinusStale | speaker_manager.py:139-148 | with distinct ids, taking the stale speakers' ids out of the id list leaves the active speakers' ids, in table order |
| SpeakerRegistry.StaleIds | speaker_manager.py:140-145 | the first loop of the eviction pass collects the ids of `StaleOf` the records in table order, i.e. exactly the ids whose speaker is idle for more than 3600 s |
| SpeakerRegistry.StaleIdsMembership | speaker_manager.py:142-145 | an id is among the stale records' ids iff it is in the table and its speaker is idle for more than the window |
| SpeakerRegistry.DropStale | speaker_manager.py:147-148 | deleting exactly the stale ids from a table leaves exactly its active entries, unchanged |
| SpeakerRegistry.EvictionOutcome | speaker_manager.py:139-148 | deleting the stale ids from a well-formed table leaves the active speakers' ids in table order with their records, and the deleted and remaining ids add up to the table size |
| SpeakerRegistry.WithActivity | speaker_manager.py:98-101 | an unknown id leaves the table unchanged with no new entry; a known id changes only that entry's `last_seen`; key order is kept |
| SpeakerRegistry.Decode | speaker_manager.py:180-189 | a saved record loads iff every required field is present and no unknown one; a record lacking `speaker_id` is skipped |
| SpeakerRegistry.Encode | speaker_manager.py:160 | `asdict` writes every field, so a saved speaker loads back as the same speaker |
| SpeakerRegistry.LoadInto | speaker_manager.py:180-188 | loading keeps every existing id and the order of the existing keys as a prefix, and adds at most one key per record |
| SpeakerRegistry.LoadIntoSpec | speaker_manager.py:180-189 | loading keeps the table well formed and keyed by id; an id is present afterwards iff it was before or some loadable record carries it |
| SpeakerRegistry.ActiveTotals | speaker_manager.py:200-206 | the scan counts exactly the speakers active within 300 s and sums their uptimes |
| SpeakerRegistry.SpeakerManager.RegisterSpeaker | speaker_manager.py:71-96 | returns `speaker_id_<now>`; the table gets one entry under the id with `connected_at == last_seen == now`; other entries and their order are unchanged |
| SpeakerRegistry.SpeakerManager.UpdateSpeakerActivity | speaker_manager.py:98-101 | the table becomes `WithActivity(old table, id, now)` |
| SpeakerRegistry.SpeakerManager.RemoveSpeaker | speaker_manager.py:107-113 | deletes exactly that key and keeps the other entries in order; an absent key changes nothing |
| SpeakerRegistry.SpeakerManager.GetSpeaker | speaker_manager.py:115-117 | returns a record iff the id is registered, and the record carries that id |
| SpeakerRegistry.SpeakerManager.GetAllSpeakers | speaker_manager.py:119-121 | one record per registered id, each equal to the table's entry for it, no id twice |
| SpeakerRegistry.SpeakerManager.GetActiveSpeakers | speaker_manager.py:123-132 | returns `ActiveOf` of the speakers in table order: exactly those with `now - last_seen <= max_inactive` |
| SpeakerRegistry.SpeakerManager.CleanupInactiveSpeakers | speaker_manager.py:134-148 | returns the ids of the speakers idle more than 3600 s, in table order; removes exactly those entries; the remaining keys are the active speakers' ids in their old order; removed and remaining add up to the old size; every remaining entry is within 3600 s |
| SpeakerRegistry.SpeakerManager.RemoveEach | speaker_manager.py:147-148 | `remove_speaker` for each id in turn deletes exactly those ids and keeps the order of the other keys |
| SpeakerRegistry.SpeakerManager.GetSpeakerStats | speaker_manager.py:196-216 | total is the table size; active is the number within 300 s and at most the total; an empty table gives average 0; otherwise the active uptime divided by the total; both count maps are tallies |
| SpeakerRegistry.SpeakerManager.CountByType | speaker_manager.py:218-223 | the map tallies the speaker types: keys are the types that occur, each value is its number of occurrences, values sum to the speaker count |
| SpeakerRegistry.SpeakerManager.CountByCapability | speaker_manager.py:225-231 | the map tallies all capability-list entries across speakers: each value is that capability's number of occurrences |
| SpeakerRegistry.SpeakerManager.Clear | speaker_manager.py:233-235 | the table is empty |
| SpeakerRegistry.SpeakerManager.Load | speaker_manager.py:171-189 | the table becomes the old table with each loadable record put in turn (`LoadInto`) |
| Tally.Bump | speaker_manager.py:222 | `counts[k] = counts.get(k, 0) + 1`: `k` becomes a key, its count grows by one (from 1 when new), other counts are unchanged, and the values' sum grows by one |
| Tally.TallyStep | speaker_manager.py:221-222 | one `counts[k] = counts.get(k, 0) + 1` step turns a tally of the items into a tally of the items plus `k` |
| Tally.TallyUnique | speaker_manager.py:218-231 | two maps that tally the same items are equal |
| Tally.SumValuesRemove | speaker_manager.py:218-223 | the sum of a map's values does not depend on the order the keys are taken |
| OrderedMaps.OrderedMap.Get | speaker_manager.py:117 | `d.get(k)`: a value iff `k` is a key, and then the entry's value |
| OrderedMaps.OrderedMap.Put | speaker_manager.py:90 | `d[k] = v`: k maps to v, other keys unchanged, an existing key keeps its position, a new one is appended |
| OrderedMaps.OrderedMap.Remove | speaker_manager.py:111 | `del d[k]`: k is gone, other keys unchanged, the order of the rest kept |
| OrderedMaps.RemoveAbsent | speaker_manager.py:109 | deleting a key that is absent changes nothing |
| OrderedMaps.OrderedMap.RemoveAll | speaker_manager.py:147-148 | `del d[k]` for each `k` in turn: exactly those keys are gone and the other keys keep their order |
| OrderedMaps.Minus | speaker_manager.py:147-148 | a key list filtered by a set of keys: a key stays iff it is listed and not filtered out |
| OrderedMaps.WithoutMinus | speaker_manager.py:147-148 | deleting one more key from a filtered key list equals filtering by one more key |
| OrderedMaps.OrderedMap.Values | speaker_manager.py:121 | `list(d.values())`: one value per key, in key order |
| Text.ParseNatToString | speaker_manager.py:75 | parsing the decimal text of `n` gives back `n` |
| Text.NatToStringInjective | speaker_manager.py:75 | different numbers have different decimal texts |
| Text.DigitSuffixAfterSeparator | speaker_manager.py:75 | after `<prefix>_<digits>` the trailing digit run is exactly the digits |
| DeviceListing.FriendlyName | grpc_server.py:136 | `attributes.get('friendly_name', entity_id)`: the friendly name when present, else the entity id |
| DeviceListing.MatchesFilters | grpc_server.py:132-133 | an empty filter list passes every entity; otherwise an entity passes iff some filter is a prefix of its id |
| DeviceListing.DomainAllowed | grpc_server.py:480 | an empty domain list passes every domain; otherwise a domain passes iff it is listed |
| DeviceListing.Domain | grpc_server.py:151 | `entity_id.split('.')[0]`: a dot-free prefix of the id, followed by a dot unless it is the whole id |
| DeviceListing.DomainOfQualifiedId | grpc_server.py:151 | the domain of `domain.object_id` is `domain` |
| DeviceListing.AnyPrefix | grpc_server.py:133 | true iff some filter is a prefix of the entity id |
| DeviceListing.SupportedCommands | grpc_server.py:484-500 | the command list is empty iff the domain is not one of the eight known domains |
| DeviceListing.Describe | grpc_server.py:510-516 | a device carries the entity's id, state and friendly name; its domain is the dot-free prefix of the id; its command list is empty iff the domain is unknown |
| DeviceListing.Listing | grpc_server.py:474-516 | a device is listed iff some entity's domain passes the domain list (an empty list passes all); each device's commands come from its domain alone |
| DeviceListing.ListDevices | grpc_server.py:474-516 | the scan returns exactly `Listing` of the snapshot |
| DeviceListing.DescribeState | grpc_server.py:146-154 | an initial state carries the entity's id and state, the same friendly name and domain as the listing, and both timestamps equal to `now` in milliseconds |
| DeviceListing.InitialStates | grpc_server.py:124-154 | one initial state per entity that passes the prefix filters (an empty filter list passes all) |
| DeviceListing.InitialDeviceStates | grpc_server.py:124-154 | the scan returns exactly `InitialStates` of the snapshot |
| DeviceListing.LightFilterExample | grpc_server.py:124-154 | with filter `light.`, of `light.kitchen` and `switch.fan` only `light.kitchen` is pushed |
| DeviceListing.UptimeParts | grpc_server.py:535-536 | hours, minutes and seconds recombine to the uptime, with minutes and seconds below 60 |
| SpeakerService.MessageId | grpc_server.py:566 | a TTS message id is non-empty and starts with `tts_` |
| SpeakerService.SessionTouched | grpc_server.py:112-113 | refreshing a session's `last_activity` changes only that session, and only when it is connected |
| SpeakerService.ReleaseQueue | grpc_server.py:315-319 | afterwards the id does not hold this queue; an entry holding another queue survives; other ids are unchanged |
| SpeakerService.NewerQueueSurvives | grpc_server.py:315-319 | an older stream's cleanup leaves a newer stream's queue in place |
| SpeakerService.StaleSessions | grpc_server.py:649-651 | an id is collected iff it is connected and idle for more than 3600 s |
| SpeakerService.DisconnectEvents | grpc_server.py:659-668 | one `disconnected` event per collected id, in the same order, with that speaker's name |
| SpeakerService.CollectStale | grpc_server.py:649-668 | the scan collects `StaleSessions`, drops their queue entries and appends their events |
| SpeakerService.DropSessions | grpc_server.py:670-672 | deletes exactly the collected ids from the session table; the other sessions keep their order |
| SpeakerService.TtsQueue.Put | grpc_server.py:593 | `queue.put`: the command is appended at the back |
| SpeakerService.TtsQueue.Poll | grpc_server.py:283 | returns the oldest queued command and removes it; an empty queue yields nothing |
| SpeakerService.ResponseSlot.SetResult | grpc_server.py:352-357 | a slot is resolved only while unresolved |
| SpeakerService.AlphaSpeakerService.Touch | grpc_server.py:330-333 | refreshes the registry's `last_seen` and the session's `last_activity` and nothing else |
| SpeakerService.AlphaSpeakerService.RegisterAlphaSpeaker | grpc_server.py:35-100 | always `success`; the id is a connected session with fresh timestamps; the registry holds the new record; one `connected` event |
| SpeakerService.AlphaSpeakerService.OpenDeviceStateStream | grpc_server.py:102-154 | an unregistered id is rejected with nothing changed; otherwise activity is refreshed and the filtered snapshot is sent first when asked for |
| SpeakerService.AlphaSpeakerService.OpenTtsStream | grpc_server.py:249-264 | an unregistered id is rejected before the queue table changes; otherwise a fresh empty queue becomes the id's active queue, replacing any other |
| SpeakerService.AlphaSpeakerService.DeliverTtsCommand | grpc_server.py:283-292 | the oldest command is taken from the queue; it is forwarded iff its text is non-empty, and only then is activity refreshed |
| SpeakerService.AlphaSpeakerService.CloseTtsStream | grpc_server.py:313-319 | the queue table becomes `ReleaseQueue(old, id, this queue)` |
| SpeakerService.AlphaSpeakerService.SendTtsResponse | grpc_server.py:323-364 | a pending slot for the id is resolved with the reply and filed off; the ack is always `success`; one `tts_response` event |
| SpeakerService.AlphaSpeakerService.SendTtsToSpeaker | grpc_server.py:558-618 | no active stream: failure with nothing changed; enqueue failure: the pending slot and the queue entry are removed; otherwise a fresh unresolved slot is filed under the new id and the command is appended to the queue |
| SpeakerService.AlphaSpeakerService.AwaitTtsReply | grpc_server.py:620-634 | the result is the resolved success flag, false on timeout; the timeout path removes its pending entry; no pending entry of this send remains |
| SpeakerService.AlphaSpeakerService.CleanupInactiveSpeakers | grpc_server.py:640-672 | exactly the sessions idle more than 3600 s are dropped with their queue entries and one `disconnected` event each, in table order; the other sessions are untouched and keep their order |
| SpeakerService.AlphaSpeakerService.GetAvailableDevices | grpc_server.py:461-521 | the devices are `Listing` of the snapshot and `total_count` is their number; activity is refreshed only for a connected id |
| SpeakerService.AlphaSpeakerService.KeepAlive | grpc_server.py:523-556 | `alive` iff the session is tracked; the uptime split is from the registry's `connected_at`; the idle flag is never set |
| Scenarios.TtsRoundTrip | grpc_server.py:249-364 | register, open a stream, send "hello" at volume 50: the stream yields that command with a non-empty message id, the reply resolves the send to true, and nothing stays pending |
| Scenarios.ReplyTimeout | grpc_server.py:620-634 | without a reply the send returns false and nothing stays pending |
| Scenarios.ReconnectRace | grpc_server.py:264 | after a reconnect, the old stream's cleanup leaves the new queue active |
| Scenarios.RegisterTwice | speaker_manager.py:71-96 | registering one id at two different seconds gives two session ids and one entry |
| Scenarios.EvictAfterAnHour | speaker_manager.py:134-148 | a speaker silent for more than an hour is gone after one pass |

## Left out

- Persistence I/O: `Store.async_save`/`async_load`, the saved blob's `updated_at` and `entry_id`,
  and the save after every registration or removal. The save on every 30th second
  (speaker_manager.py:104) is also left out. Only the rule that decides which saved records load
  is modelled (`Decode`).
- The registry's cleanup loop awaits a save between removals. Another task could re-register a
  speaker during that await, and the pass would still evict it. The model runs each pass as one
  atomic step.
- Background loops and timers: the 60-second sleeps of both reapers, the one-second TTS wait and
  the half-second state-stream wait. The 30-second heartbeats of both streams (empty
  `DeviceState`, `keepalive_` TTS messages) and cancellation are also left out. Timeouts are
  outcomes of a step.
- Subscribing to state changes in `StreamDeviceStates` and pushing changes (grpc_server.py:156-247)
  are left out. So are the per-stream `active_state_streams` and `state_listeners` entries. Only
  the entry guard, the activity refresh and the initial snapshot are modelled.
- `SendTextForSpeech` and `SendAlphaCommand` (grpc_server.py:366-459) are left out. They only
  refresh activity, fire events and call Home Assistant services.
- The gRPC server and its lifecycle (`AlphaSpeakerServer`, ports, `context.peer/abort/done`,
  `stop`) are left out. Rejection is a result value rather than an abort.
- Entity attributes other than the friendly name, and their stringification, are left out.
  Human-readable status and log messages are also left out. `KeepAlive` returns a structured
  status instead of its text.
- Floating-point time is left out. Each handler's several `time.time()` calls are one integer
  `now`, so `int(now)` and `now` coincide. `average_uptime` is a real quotient of integers.
- The `uuid` part of a message id is an input (`nonce`).
- In `send_tts_to_speaker`, the check `if not queue` (grpc_server.py:586-588) cannot fail. The key
  was tested at line 561 with no suspension in between, and a queue object is always truthy. The
  model therefore has no step for it.
- The `tts` capability warning in `StreamTTSCommands` (grpc_server.py:269-273) only logs, so it is
  left out.
- SpeakerService.AlphaSpeakerService.SendTtsToSpeaker: a failing `queue.put` is an input flag,
  because the reasons an asyncio queue's `put` can raise are not modelled.
- SpeakerService.AlphaSpeakerService.AwaitTtsReply: requires that the slot is filed under no
  other message id than its own. This is the situation `send_tts_to_speaker` creates.
- The `tts_responses` and `active_tts_streams` tables are plain maps rather than ordered ones.
  Nothing in the core iterates over them.
