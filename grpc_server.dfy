/**
 * The session and stream bookkeeping of the RPC servicer. Each handler is one atomic step
 * over three tables: the connected sessions, the active TTS queue of each speaker, and the
 * pending TTS replies keyed by message id. Events for the host's bus are appended to a log.
 */
module SpeakerService {
  import opened Wrappers
  import opened Text
  import opened OrderedMaps
  import opened SpeakerRegistry
  import opened DeviceListing

  const ServerVersion: string := "2.1.0"
  const GrpcPort: string := "50051"
  /** A keep-alive calls a speaker idle when its last activity is older than this many seconds. */
  const IdleThreshold: int := 300

  /** The servicer's own record of a registered connection. */
  datatype SessionInfo = SessionInfo(
    name: string,
    speakerType: string,
    firmware: string,
    capabilities: seq<string>,
    settings: map<string, string>,
    sessionId: string,
    address: string,
    connectedAt: nat,
    lastActivity: nat)

  type SessionTable = OrderedMap<string, SessionInfo>

  datatype SpeakerRegistration = SpeakerRegistration(
    speakerId: string,
    speakerName: string,
    speakerType: string,
    firmwareVersion: string,
    capabilities: seq<string>,
    settings: map<string, string>)

  datatype RegistrationResponse = RegistrationResponse(
    success: bool,
    serverVersion: string,
    sessionId: string,
    serverSettings: map<string, string>)

  datatype SpeakTextRequest = SpeakTextRequest(
    speakerId: string,
    text: string,
    language: string,
    voice: string,
    volume: int,
    priority: bool,
    messageId: string,
    timestamp: int)

  /** What a speaker reports back for one TTS command. */
  datatype TtsReply = TtsReply(success: bool, message: string, speakerId: string)

  datatype TtsAck = TtsAck(success: bool, messageId: string, timestamp: int)

  /** Events fired on the host's bus. */
  datatype Event =
    | SpeakerConnected(speakerId: string, speakerName: string, speakerType: string, firmwareVersion: string,
                       capabilities: seq<string>, sessionId: string, address: string, timestamp: int)
    | SpeakerDisconnected(speakerId: string, speakerName: string, timestamp: int)
    | TtsResponseReceived(speakerId: string, messageId: string, success: bool, message: string)
    | TtsCommandSent(speakerId: string, text: string, language: string, volume: int, messageId: string, timestamp: int)

  /** The message queue a TTS stream reads from; its identity is the object's. */
  class TtsQueue {
    var items: seq<SpeakTextRequest>

    constructor ()
      ensures items == []
    {
      items := [];
    }

    /** `queue.put(item)` */
    method Put(item: SpeakTextRequest)
      modifies this
      ensures items == old(items) + [item]
    {
      items := items + [item];
    }

    /** One wait on the queue: the oldest item, or None when the wait times out on an empty queue. */
    method Poll() returns (item: Option<SpeakTextRequest>)
      modifies this
      ensures old(items) == [] ==> item == None && items == []
      ensures old(items) != [] ==> item == Some(old(items)[0]) && items == old(items)[1..]
    {
      if items == [] {
        item := None;
      } else {
        item := Some(items[0]);
        items := items[1..];
      }
    }
  }

  /** A single-assignment result slot (a future) awaited by one TTS send. */
  class ResponseSlot {
    var result: Option<TtsReply>

    constructor ()
      ensures result == None
    {
      result := None;
    }

    /** `future.set_result(reply)`, which the future accepts only while not done. */
    method SetResult(reply: TtsReply)
      requires result == None
      modifies this
      ensures result == Some(reply)
    {
      result := Some(reply);
    }
  }

  datatype TtsStreamOpen = TtsRejected | TtsOpened(queue: TtsQueue)
  datatype StateStreamOpen = StateRejected | StateOpened(initial: seq<DeviceState>)
  datatype SendStart = NoTtsStream | EnqueueFailed | AwaitingReply(slot: ResponseSlot, request: SpeakTextRequest)

  datatype KeepAliveStatus = NotRegistered | NoSpeakerRecord | Active(uptime: Uptime, idle: bool)
  datatype PingResponse = PingResponse(alive: bool, serverTime: int, status: KeepAliveStatus)

  /** `f"tts_{int(now)}_{nonce}"`, where the nonce is the first eight hex digits of a fresh uuid. */
  function MessageId(now: nat, nonce: string): (id: string)
    ensures "tts_" <= id && |id| > |"tts_"|
  {
    "tts_" + NatToString(now) + "_" + nonce
  }

  /** `connected_speakers[id]['last_activity'] = now` when the id is connected. */
  function SessionTouched(d: SessionTable, speakerId: string, now: nat): (r: SessionTable)
    ensures d.Valid() ==> r.Valid()
    ensures r.keys == d.keys
    ensures forall id :: id in r.entries <==> id in d.entries
    ensures forall id :: id in d.entries && id != speakerId ==> r.entries[id] == d.entries[id]
    ensures speakerId in d.entries ==> r.entries[speakerId] == d.entries[speakerId].(lastActivity := now)
  {
    if speakerId in d.entries then d.Put(speakerId, d.entries[speakerId].(lastActivity := now)) else d
  }

  /** Refreshing a record that was just written at `now` changes nothing. */
  lemma RefreshOfFreshRecord(d: SpeakerTable, speakerId: string, record: ConnectedSpeaker, now: nat)
    requires record.lastSeen == now
    ensures WithActivity(d.Put(speakerId, record), speakerId, now) == d.Put(speakerId, record)
  {
    assert record.(lastSeen := now) == record;
  }

  /**
   * The identity-guarded removal used when a TTS stream ends and when an enqueue fails: the
   * entry of `speakerId` goes only if it still holds this very queue.
   */
  function ReleaseQueue(streams: map<string, TtsQueue>, speakerId: string, queue: TtsQueue): (r: map<string, TtsQueue>)
    ensures speakerId !in r || r[speakerId] != queue
    ensures speakerId in streams && streams[speakerId] != queue ==> speakerId in r && r[speakerId] == streams[speakerId]
    ensures r.Keys <= streams.Keys
    ensures forall id :: id != speakerId ==> (id in r <==> id in streams) && (id in r ==> r[id] == streams[id])
  {
    if speakerId in streams && streams[speakerId] == queue then streams - {speakerId} else streams
  }

  /** A reconnect race: the older stream's cleanup leaves the newer stream's queue in place. */
  lemma NewerQueueSurvives(streams: map<string, TtsQueue>, speakerId: string, older: TtsQueue, newer: TtsQueue)
    requires older != newer
    ensures ReleaseQueue(streams[speakerId := newer], speakerId, older) == streams[speakerId := newer]
  {
  }

  /** The connected ids idle for more than an hour, in table order. */
  function StaleSessions(keys: seq<string>, table: map<string, SessionInfo>, now: nat): (r: seq<string>)
    requires forall k :: k in keys ==> k in table
    ensures forall id :: id in r <==> id in keys && now - table[id].lastActivity > InactivityTimeout
  {
    if keys == [] then []
    else
      var init := keys[..|keys| - 1];
      var k := keys[|keys| - 1];
      assert forall x :: x in keys <==> x in init || x == k;
      StaleSessions(init, table, now) + (if now - table[k].lastActivity > InactivityTimeout then [k] else [])
  }

  /** One `disconnected` event per evicted id, in the same order. */
  function DisconnectEvents(ids: seq<string>, table: map<string, SessionInfo>, now: nat): (r: seq<Event>)
    requires forall k :: k in ids ==> k in table
    ensures |r| == |ids|
    ensures forall i :: 0 <= i < |ids| ==> r[i] == SpeakerDisconnected(ids[i], table[ids[i]].name, now * 1000)
  {
    if ids == [] then []
    else DisconnectEvents(ids[..|ids| - 1], table, now) + [SpeakerDisconnected(ids[|ids| - 1], table[ids[|ids| - 1]].name, now * 1000)]
  }

  lemma StaleSessionsStep(ids: seq<string>, i: nat, table: map<string, SessionInfo>, now: nat)
    requires i < |ids|
    requires forall k :: k in ids ==> k in table
    ensures StaleSessions(ids[..i + 1], table, now)
         == StaleSessions(ids[..i], table, now) + (if now - table[ids[i]].lastActivity > InactivityTimeout then [ids[i]] else [])
  {
    assert ids[..i + 1][..i] == ids[..i];
  }

  lemma DisconnectEventsStep(ids: seq<string>, id: string, table: map<string, SessionInfo>, now: nat)
    requires forall k :: k in ids ==> k in table
    requires id in table
    ensures DisconnectEvents(ids + [id], table, now) == DisconnectEvents(ids, table, now) + [SpeakerDisconnected(id, table[id].name, now * 1000)]
  {
    assert (ids + [id])[..|ids|] == ids;
  }

  lemma DropStep<V>(m: map<string, V>, ids: seq<string>, id: string)
    ensures m - (set k | k in ids + [id]) == (m - (set k | k in ids)) - {id}
  {
    assert (set k | k in ids + [id]) == (set k | k in ids) + {id};
  }

  /** One stale id appends one `disconnected` event. */
  lemma DisconnectLogStep(log: seq<Event>, removed: seq<string>, id: string, table: map<string, SessionInfo>, now: nat)
    requires forall k :: k in removed ==> k in table
    requires id in table
    ensures log + DisconnectEvents(removed, table, now) + [SpeakerDisconnected(id, table[id].name, now * 1000)]
         == log + DisconnectEvents(removed + [id], table, now)
  {
    DisconnectEventsStep(removed, id, table, now);
  }

  /**
   * The scan of the reaper over the session table: the stale ids in table order, the queue
   * table without their entries, and the event log with one `disconnected` event per id.
   */
  method CollectStale(ids: seq<string>, table: map<string, SessionInfo>, streams: map<string, TtsQueue>,
                      log: seq<Event>, now: nat)
    returns (removed: seq<string>, streams': map<string, TtsQueue>, log': seq<Event>)
    requires forall k :: k in ids ==> k in table
    ensures removed == StaleSessions(ids, table, now)
    ensures streams' == streams - (set id | id in removed)
    ensures log' == log + DisconnectEvents(removed, table, now)
  {
    removed, streams', log' := [], streams, log;
    for i := 0 to |ids|
      invariant removed == StaleSessions(ids[..i], table, now)
      invariant forall k :: k in removed ==> k in table
      invariant streams' == streams - (set id | id in removed)
      invariant log' == log + DisconnectEvents(removed, table, now)
    {
      var id := ids[i];
      if now - table[id].lastActivity > InactivityTimeout {
        var e := [SpeakerDisconnected(id, table[id].name, now * 1000)];
        StaleSessionsStep(ids, i, table, now);
        DropStep(streams, removed, id);
        DisconnectLogStep(log, removed, id, table, now);
        removed, streams', log' := removed + [id], streams' - {id}, log' + e;
      } else {
        StaleSessionsStep(ids, i, table, now);
      }
    }
    assert ids[..|ids|] == ids;
  }

  /** `del connected_speakers[id]` for each collected id that is still present. */
  method DropSessions(sessions: SessionTable, ids: seq<string>) returns (r: SessionTable)
    requires sessions.Valid()
    ensures r.Valid()
    ensures r == sessions.RemoveAll(ids)
    ensures r.keys == Minus(sessions.keys, ids)
    ensures r.entries == sessions.entries - (set id | id in ids)
  {
    r := sessions;
    for j := 0 to |ids|
      invariant r == sessions.RemoveAll(ids[..j])
      invariant r.Valid()
    {
      RemoveAllStep(sessions, ids, j);
      if ids[j] in r.entries {
        r := r.Remove(ids[j]);
      } else {
        RemoveAbsent(r, ids[j]);
      }
    }
    assert ids[..|ids|] == ids;
  }

  class AlphaSpeakerService {
    const manager: SpeakerManager
    const eventPrefix: string
    var connectedSpeakers: SessionTable
    var activeTtsStreams: map<string, TtsQueue>
    var ttsResponses: map<string, ResponseSlot>
    var events: seq<Event>

    /**
     * Every active TTS queue belongs to a connected session; every slot still filed as
     * pending is unresolved; no slot is filed under two message ids.
     */
    ghost predicate Valid()
      reads this, manager, ttsResponses.Values
    {
      && manager.Valid()
      && connectedSpeakers.Valid()
      && activeTtsStreams.Keys <= connectedSpeakers.entries.Keys
      && (forall id :: id in ttsResponses ==> ttsResponses[id].result == None)
      && (forall a, b :: a in ttsResponses && b in ttsResponses && a != b ==> ttsResponses[a] != ttsResponses[b])
    }

    constructor (manager: SpeakerManager, eventPrefix: string)
      requires manager.Valid()
      ensures Valid()
      ensures this.manager == manager && this.eventPrefix == eventPrefix
      ensures connectedSpeakers == Empty() && activeTtsStreams == map[] && ttsResponses == map[] && events == []
    {
      this.manager := manager;
      this.eventPrefix := eventPrefix;
      connectedSpeakers := Empty();
      activeTtsStreams := map[];
      ttsResponses := map[];
      events := [];
    }

    /** The activity refresh the handlers share: the registry's `last_seen` and the session's `last_activity`. */
    method Touch(speakerId: string, now: nat)
      requires Valid()
      modifies this, manager
      ensures Valid()
      ensures manager.speakers == WithActivity(old(manager.speakers), speakerId, now)
      ensures connectedSpeakers == SessionTouched(old(connectedSpeakers), speakerId, now)
      ensures activeTtsStreams == old(activeTtsStreams) && ttsResponses == old(ttsResponses) && events == old(events)
    {
      manager.UpdateSpeakerActivity(speakerId, now);
      if speakerId in connectedSpeakers.entries {
        connectedSpeakers := connectedSpeakers.Put(speakerId, connectedSpeakers.entries[speakerId].(lastActivity := now));
      }
    }

    /**
     * Registration always succeeds: the registry gets a fresh record, the session table a
     * fresh session for the speaker, and a `connected` event is fired.
     */
    method RegisterAlphaSpeaker(request: SpeakerRegistration, peer: string, now: nat)
      returns (response: RegistrationResponse)
      requires Valid()
      modifies this, manager
      ensures Valid()
      ensures response.success && response.serverVersion == ServerVersion
      ensures response.sessionId == SessionId(request.speakerId, now)
      ensures response.serverSettings == map["grpc_port" := GrpcPort, "event_prefix" := eventPrefix, "integration_mode" := "true"]
      ensures request.speakerId in connectedSpeakers.entries
      ensures connectedSpeakers == old(connectedSpeakers).Put(request.speakerId,
        SessionInfo(request.speakerName, request.speakerType, request.firmwareVersion, request.capabilities,
                    request.settings, response.sessionId, peer, now, now))
      ensures manager.speakers == old(manager.speakers).Put(request.speakerId,
        ConnectedSpeaker(request.speakerId, request.speakerName, request.speakerType, request.firmwareVersion,
                         request.capabilities, response.sessionId, now, now, peer, request.settings))
      ensures activeTtsStreams == old(activeTtsStreams) && ttsResponses == old(ttsResponses)
      ensures events == old(events) + [SpeakerConnected(request.speakerId, request.speakerName, request.speakerType,
        request.firmwareVersion, request.capabilities, response.sessionId, peer, now * 1000)]
    {
      var speakerId := request.speakerId;
      ghost var before := manager.speakers;
      var sessionId := manager.RegisterSpeaker(speakerId, request.speakerName, request.speakerType,
        request.firmwareVersion, request.capabilities, peer, request.settings, now);
      var info := SessionInfo(request.speakerName, request.speakerType, request.firmwareVersion,
        request.capabilities, request.settings, sessionId, peer, now, now);
      connectedSpeakers := connectedSpeakers.Put(speakerId, info);
      RefreshOfFreshRecord(before, speakerId, manager.speakers.entries[speakerId], now);
      manager.UpdateSpeakerActivity(speakerId, now);
      events := events + [SpeakerConnected(speakerId, request.speakerName, request.speakerType,
        request.firmwareVersion, request.capabilities, sessionId, peer, now * 1000)];
      response := RegistrationResponse(true, ServerVersion, sessionId,
        map["grpc_port" := GrpcPort, "event_prefix" := eventPrefix, "integration_mode" := "true"]);
    }

    /**
     * Opening a device-state stream: an unregistered speaker is rejected before anything
     * changes; otherwise activity is refreshed and, when asked for, the filtered snapshot is
     * pushed first.
     */
    method OpenDeviceStateStream(speakerId: string, filters: seq<string>, sendInitialState: bool,
                                 states: seq<EntityState>, now: nat)
      returns (r: StateStreamOpen)
      requires Valid()
      modifies this, manager
      ensures Valid()
      ensures speakerId !in old(connectedSpeakers.entries) ==>
        r == StateRejected && manager.speakers == old(manager.speakers) && connectedSpeakers == old(connectedSpeakers)
      ensures speakerId in old(connectedSpeakers.entries) ==>
        && r == StateOpened(if sendInitialState then InitialStates(states, filters, now) else [])
        && manager.speakers == WithActivity(old(manager.speakers), speakerId, now)
        && connectedSpeakers == SessionTouched(old(connectedSpeakers), speakerId, now)
      ensures activeTtsStreams == old(activeTtsStreams) && ttsResponses == old(ttsResponses) && events == old(events)
    {
      if speakerId !in connectedSpeakers.entries {
        return StateRejected;
      }
      Touch(speakerId, now);
      var initial := [];
      if sendInitialState {
        initial := InitialDeviceStates(states, filters, now);
      }
      r := StateOpened(initial);
    }

    /**
     * Opening a TTS stream: an unregistered speaker is rejected before the queue table is
     * touched; otherwise a fresh queue becomes the speaker's active queue, replacing any other.
     */
    method OpenTtsStream(speakerId: string) returns (r: TtsStreamOpen)
      requires Valid()
      modifies this
      ensures Valid()
      ensures speakerId !in old(connectedSpeakers.entries) ==> r == TtsRejected && activeTtsStreams == old(activeTtsStreams)
      ensures speakerId in old(connectedSpeakers.entries) ==>
        r.TtsOpened? && fresh(r.queue) && r.queue.items == [] && activeTtsStreams == old(activeTtsStreams)[speakerId := r.queue]
      ensures connectedSpeakers == old(connectedSpeakers) && ttsResponses == old(ttsResponses) && events == old(events)
    {
      if speakerId !in connectedSpeakers.entries {
        return TtsRejected;
      }
      var queue := new TtsQueue();
      activeTtsStreams := activeTtsStreams[speakerId := queue];
      r := TtsOpened(queue);
    }

    /**
     * One turn of a TTS stream's loop: take the next command from the stream's own queue and
     * forward it to the device only if its text is non-empty, refreshing activity when it does.
     */
    method DeliverTtsCommand(speakerId: string, queue: TtsQueue, now: nat) returns (sent: Option<SpeakTextRequest>)
      requires Valid()
      modifies this, manager, queue
      ensures Valid()
      ensures queue.items == if old(queue.items) == [] then [] else old(queue.items)[1..]
      ensures sent.Some? <==> old(queue.items) != [] && old(queue.items)[0].text != ""
      ensures sent.Some? ==> sent.value == old(queue.items)[0] && sent.value.text != ""
      ensures sent.Some? ==>
        manager.speakers == WithActivity(old(manager.speakers), speakerId, now)
        && connectedSpeakers == SessionTouched(old(connectedSpeakers), speakerId, now)
      ensures sent.None? ==> manager.speakers == old(manager.speakers) && connectedSpeakers == old(connectedSpeakers)
      ensures activeTtsStreams == old(activeTtsStreams) && ttsResponses == old(ttsResponses) && events == old(events)
    {
      var command := queue.Poll();
      sent := None;
      if command.Some? && command.value.text != "" {
        sent := command;
        Touch(speakerId, now);
      }
    }

    /** The end of a TTS stream, on every exit path: drop the table entry only if it is still this stream's queue. */
    method CloseTtsStream(speakerId: string, queue: TtsQueue)
      requires Valid()
      modifies this
      ensures Valid()
      ensures activeTtsStreams == ReleaseQueue(old(activeTtsStreams), speakerId, queue)
      ensures connectedSpeakers == old(connectedSpeakers) && ttsResponses == old(ttsResponses) && events == old(events)
    {
      if speakerId in activeTtsStreams && activeTtsStreams[speakerId] == queue {
        activeTtsStreams := activeTtsStreams - {speakerId};
      }
    }

    /**
     * A speaker's reply to a TTS command: resolves the pending slot of `messageId` if there is
     * one (once: only while it is not done) and files it off; acknowledges in every case.
     */
    method SendTtsResponse(speakerId: string, messageId: string, success: bool, message: string, now: nat)
      returns (ack: TtsAck)
      requires Valid()
      modifies this, manager, if messageId in ttsResponses then {ttsResponses[messageId]} else {}
      ensures Valid()
      ensures ack == TtsAck(true, messageId, now * 1000)
      ensures ttsResponses == old(ttsResponses) - {messageId}
      ensures messageId in old(ttsResponses) ==> old(ttsResponses)[messageId].result == Some(TtsReply(success, message, speakerId))
      ensures speakerId in old(connectedSpeakers.entries) ==>
        manager.speakers == WithActivity(old(manager.speakers), speakerId, now)
        && connectedSpeakers == SessionTouched(old(connectedSpeakers), speakerId, now)
      ensures speakerId !in old(connectedSpeakers.entries) ==>
        manager.speakers == old(manager.speakers) && connectedSpeakers == old(connectedSpeakers)
      ensures activeTtsStreams == old(activeTtsStreams)
      ensures events == old(events) + [TtsResponseReceived(speakerId, messageId, success, message)]
    {
      if speakerId in connectedSpeakers.entries {
        Touch(speakerId, now);
      }
      events := events + [TtsResponseReceived(speakerId, messageId, success, message)];
      if messageId in ttsResponses {
        var slot := ttsResponses[messageId];
        if slot.result == None {
          slot.SetResult(TtsReply(success, message, speakerId));
        }
        ttsResponses := ttsResponses - {messageId};
      }
      ack := TtsAck(true, messageId, now * 1000);
    }

    /**
     * The first half of `send_tts_to_speaker`, up to the wait: without an active TTS stream it
     * fails with no effect; otherwise it files a fresh pending slot under a new message id and
     * enqueues the command on the speaker's active queue. A failed enqueue removes the slot and,
     * identity-guarded, the queue's entry.
     */
    method SendTtsToSpeaker(speakerId: string, text: string, language: string, voice: string, volume: int,
                            priority: bool, nonce: string, now: nat, enqueueFails: bool)
      returns (r: SendStart)
      requires Valid()
      modifies this, if speakerId in activeTtsStreams then {activeTtsStreams[speakerId]} else {}
      ensures Valid()
      ensures speakerId !in old(activeTtsStreams) ==>
        r == NoTtsStream && activeTtsStreams == old(activeTtsStreams) && ttsResponses == old(ttsResponses) && events == old(events)
      ensures speakerId in old(activeTtsStreams) && enqueueFails ==>
        && r == EnqueueFailed
        && activeTtsStreams == old(activeTtsStreams) - {speakerId}
        && ttsResponses == old(ttsResponses) - {MessageId(now, nonce)}
        && events == old(events)
        && old(activeTtsStreams)[speakerId].items == old(activeTtsStreams[speakerId].items)
      ensures speakerId in old(activeTtsStreams) && !enqueueFails ==>
        && r.AwaitingReply? && fresh(r.slot) && r.slot.result == None
        && r.request == SpeakTextRequest(speakerId, text, language, voice, volume, priority, MessageId(now, nonce), now * 1000)
        && activeTtsStreams == old(activeTtsStreams)
        && activeTtsStreams[speakerId].items == old(activeTtsStreams[speakerId].items) + [r.request]
        && ttsResponses == old(ttsResponses)[MessageId(now, nonce) := r.slot]
        && events == old(events) + [TtsCommandSent(speakerId, text, language, volume, MessageId(now, nonce), now * 1000)]
      ensures connectedSpeakers == old(connectedSpeakers)
    {
      if speakerId !in activeTtsStreams {
        return NoTtsStream;
      }
      var messageId := MessageId(now, nonce);
      var request := SpeakTextRequest(speakerId, text, language, voice, volume, priority, messageId, now * 1000);
      var slot := new ResponseSlot();
      ttsResponses := ttsResponses[messageId := slot];
      var queue := activeTtsStreams[speakerId];
      if enqueueFails {
        activeTtsStreams := ReleaseQueue(activeTtsStreams, speakerId, queue);
        if messageId in ttsResponses {
          ttsResponses := ttsResponses - {messageId};
        }
        return EnqueueFailed;
      }
      queue.Put(request);
      events := events + [TtsCommandSent(speakerId, text, language, volume, messageId, now * 1000)];
      r := AwaitingReply(slot, request);
    }

    /**
     * The second half of `send_tts_to_speaker`: the wait ends. A resolved slot yields its
     * success flag (its resolver already filed it off); an unresolved one means the wait timed
     * out, and the send files off its own pending entry and reports failure. Either way no
     * pending entry of this send remains.
     */
    method AwaitTtsReply(messageId: string, slot: ResponseSlot) returns (ok: bool)
      requires Valid()
      requires forall id :: id in ttsResponses && ttsResponses[id] == slot ==> id == messageId
      modifies this
      ensures Valid()
      ensures ok <==> slot.result.Some? && slot.result.value.success
      ensures slot.result.Some? ==> ttsResponses == old(ttsResponses)
      ensures slot.result.None? ==> ttsResponses == old(ttsResponses) - {messageId}
      ensures slot !in ttsResponses.Values
      ensures connectedSpeakers == old(connectedSpeakers) && activeTtsStreams == old(activeTtsStreams) && events == old(events)
    {
      if slot.result.Some? {
        ok := slot.result.value.success;
      } else {
        if messageId in ttsResponses {
          ttsResponses := ttsResponses - {messageId};
        }
        ok := false;
      }
    }

    /**
     * One pass of the servicer's reaper: every session idle for more than an hour is dropped
     * together with its TTS queue entry, and a `disconnected` event is fired for it. Sessions
     * within the hour are untouched.
     */
    method CleanupInactiveSpeakers(now: nat) returns (removed: seq<string>)
      requires Valid()
      modifies this
      ensures Valid()
      ensures removed == StaleSessions(old(connectedSpeakers.keys), old(connectedSpeakers.entries), now)
      ensures forall id :: id in removed <==>
        id in old(connectedSpeakers.entries) && now - old(connectedSpeakers.entries)[id].lastActivity > InactivityTimeout
      ensures connectedSpeakers.keys == Minus(old(connectedSpeakers.keys), removed)
      ensures connectedSpeakers.entries == old(connectedSpeakers.entries) - (set id | id in removed)
      ensures activeTtsStreams == old(activeTtsStreams) - (set id | id in removed)
      ensures events == old(events) + DisconnectEvents(removed, old(connectedSpeakers.entries), now)
      ensures ttsResponses == old(ttsResponses)
    {
      var streams, log;
      removed, streams, log := CollectStale(connectedSpeakers.keys, connectedSpeakers.entries, activeTtsStreams, events, now);
      connectedSpeakers := DropSessions(connectedSpeakers, removed);
      activeTtsStreams := streams;
      events := log;
    }

    /** The device listing: refreshes activity of a connected speaker and lists the snapshot by domain. */
    method GetAvailableDevices(speakerId: string, domains: seq<string>, states: seq<EntityState>, now: nat)
      returns (list: DeviceList)
      requires Valid()
      modifies this, manager
      ensures Valid()
      ensures list.devices == Listing(states, domains) && list.totalCount == |list.devices|
      ensures speakerId in old(connectedSpeakers.entries) ==>
        manager.speakers == WithActivity(old(manager.speakers), speakerId, now)
        && connectedSpeakers == SessionTouched(old(connectedSpeakers), speakerId, now)
      ensures speakerId !in old(connectedSpeakers.entries) ==>
        manager.speakers == old(manager.speakers) && connectedSpeakers == old(connectedSpeakers)
      ensures activeTtsStreams == old(activeTtsStreams) && ttsResponses == old(ttsResponses) && events == old(events)
    {
      if speakerId in connectedSpeakers.entries {
        Touch(speakerId, now);
      }
      var devices := ListDevices(states, domains);
      list := DeviceList(devices, |devices|);
    }

    /**
     * Keep-alive: `alive` says whether the session is tracked. For a tracked session activity
     * is refreshed and the registry's record gives the uptime; the idle test then reads the
     * activity time it has just refreshed, so it never reports the speaker idle.
     */
    method KeepAlive(speakerId: string, now: nat) returns (response: PingResponse)
      requires Valid()
      modifies this, manager
      ensures Valid()
      ensures response.alive == (speakerId in old(connectedSpeakers.entries))
      ensures response.serverTime == now * 1000
      ensures !response.alive ==>
        response.status == NotRegistered
        && manager.speakers == old(manager.speakers) && connectedSpeakers == old(connectedSpeakers)
      ensures response.alive ==>
        && manager.speakers == WithActivity(old(manager.speakers), speakerId, now)
        && connectedSpeakers == SessionTouched(old(connectedSpeakers), speakerId, now)
        && (response.status == NoSpeakerRecord <==> speakerId !in old(manager.speakers.entries))
      ensures response.status.Active? ==>
        && speakerId in old(manager.speakers.entries)
        && response.status.uptime == UptimeParts(now - old(manager.speakers.entries)[speakerId].connectedAt)
        && !response.status.idle
      ensures activeTtsStreams == old(activeTtsStreams) && ttsResponses == old(ttsResponses) && events == old(events)
    {
      var alive := speakerId in connectedSpeakers.entries;
      var status := NotRegistered;
      if alive {
        Touch(speakerId, now);
        var speaker := manager.GetSpeaker(speakerId);
        if speaker.Some? {
          var uptime := UptimeParts(now - speaker.value.connectedAt);
          var lastSeen := connectedSpeakers.entries[speakerId].lastActivity;
          status := Active(uptime, now - lastSeen > IdleThreshold);
        } else {
          status := NoSpeakerRecord;
        }
      }
      response := PingResponse(alive, now * 1000, status);
    }
  }
}
