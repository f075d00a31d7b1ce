/**
 * Whole-system runs of the servicer and the registry, each a sequence of handler steps on a
 * fresh service: the TTS correlation round trip, a reply that never comes, a reconnect racing
 * an old stream's cleanup, a second registration of the same speaker, and an eviction.
 */
module Scenarios {
  import opened Wrappers
  import opened SpeakerRegistry
  import opened SpeakerService

  function Kitchen(): SpeakerRegistration {
    SpeakerRegistration("kitchen-1", "Kitchen", "alpha", "1.0", ["tts"], map[])
  }

  /**
   * Register "kitchen-1", open its TTS stream, send "hello" at volume 50; the stream yields
   * exactly that command with a non-empty message id, the speaker replies success for that
   * id, and the send reports success with nothing left pending.
   */
  method TtsRoundTrip(now: nat, nonce: string) returns (delivered: Option<SpeakTextRequest>, ok: bool, pending: nat)
    ensures delivered.Some? && delivered.value.text == "hello" && delivered.value.volume == 50
    ensures delivered.Some? ==> |delivered.value.messageId| > 0
    ensures ok && pending == 0
  {
    var manager := new SpeakerManager();
    var service := new AlphaSpeakerService(manager, "alpha_speaker_");
    var _ := service.RegisterAlphaSpeaker(Kitchen(), "ipv4:10.0.0.2:5000", now);
    var stream := service.OpenTtsStream("kitchen-1");
    var start := service.SendTtsToSpeaker("kitchen-1", "hello", "ru", "default", 50, false, nonce, now, false);
    delivered := service.DeliverTtsCommand("kitchen-1", stream.queue, now);
    var messageId := delivered.value.messageId;
    var _ := service.SendTtsResponse("kitchen-1", messageId, true, "spoken", now);
    ok := service.AwaitTtsReply(messageId, start.slot);
    pending := |service.ttsResponses|;
  }

  /** The speaker never answers: the send reports failure and leaves no pending entry. */
  method ReplyTimeout(now: nat, nonce: string) returns (ok: bool, pending: nat)
    ensures !ok && pending == 0
  {
    var manager := new SpeakerManager();
    var service := new AlphaSpeakerService(manager, "alpha_speaker_");
    var _ := service.RegisterAlphaSpeaker(Kitchen(), "ipv4:10.0.0.2:5000", now);
    var _ := service.OpenTtsStream("kitchen-1");
    var start := service.SendTtsToSpeaker("kitchen-1", "hello", "ru", "default", 50, false, nonce, now, false);
    ok := service.AwaitTtsReply(MessageId(now, nonce), start.slot);
    pending := |service.ttsResponses|;
  }

  /**
   * The speaker reconnects and opens a second TTS stream before the first one has exited;
   * the first stream's cleanup then leaves the second stream's queue as the active one.
   */
  method ReconnectRace(now: nat) returns (activeIsNewer: bool)
    ensures activeIsNewer
  {
    var manager := new SpeakerManager();
    var service := new AlphaSpeakerService(manager, "alpha_speaker_");
    var _ := service.RegisterAlphaSpeaker(Kitchen(), "ipv4:10.0.0.2:5000", now);
    var first := service.OpenTtsStream("kitchen-1");
    var _ := service.RegisterAlphaSpeaker(Kitchen(), "ipv4:10.0.0.2:5001", now + 1);
    var second := service.OpenTtsStream("kitchen-1");
    service.CloseTtsStream("kitchen-1", first.queue);
    activeIsNewer := "kitchen-1" in service.activeTtsStreams && service.activeTtsStreams["kitchen-1"] == second.queue;
  }

  /** Two registrations of one id at different seconds: two session ids, one registry entry. */
  method RegisterTwice(first: nat, second: nat) returns (s1: string, s2: string, entries: nat)
    requires first != second
    ensures s1 != s2 && entries == 1
  {
    var manager := new SpeakerManager();
    s1 := manager.RegisterSpeaker("kitchen-1", "Kitchen", "alpha", "1.0", [], "10.0.0.2", map[], first);
    s2 := manager.RegisterSpeaker("kitchen-1", "Kitchen", "alpha", "1.0", [], "10.0.0.2", map[], second);
    if s1 == s2 {
      SessionIdInjective("kitchen-1", first, "kitchen-1", second);
    }
    entries := |manager.speakers.entries|;
  }

  /** A speaker silent for more than an hour is evicted by the registry's pass and is gone afterwards. */
  method EvictAfterAnHour(now: nat) returns (found: Option<ConnectedSpeaker>)
    ensures found == None
  {
    var manager := new SpeakerManager();
    var _ := manager.RegisterSpeaker("kitchen-1", "Kitchen", "alpha", "1.0", [], "10.0.0.2", map[], now);
    var _ := manager.CleanupInactiveSpeakers(now + InactivityTimeout + 1);
    found := manager.GetSpeaker("kitchen-1");
  }
}
