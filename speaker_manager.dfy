/**
 * The speaker registry: a table from `speaker_id` to the record of a connected speaker,
 * with registration, activity updates, removal, inactivity eviction and statistics.
 * Time is the caller's clock reading `now`, in whole seconds since the epoch.
 */
module SpeakerRegistry {
  import opened Wrappers
  import opened Text
  import opened OrderedMaps
  import opened Tally

  /** A speaker seen within this many seconds counts as active in the statistics. */
  const ActiveWindow: int := 300
  /** The eviction pass removes speakers idle for longer than this many seconds. */
  const InactivityTimeout: int := 3600

  datatype ConnectedSpeaker = ConnectedSpeaker(
    speakerId: string,
    name: string,
    speakerType: string,
    version: string,
    capabilities: seq<string>,
    sessionId: string,
    connectedAt: nat,
    lastSeen: nat,
    address: string,
    settings: map<string, string>)

  type SpeakerTable = OrderedMap<string, ConnectedSpeaker>

  // ---------------------------------------------------------------------------------------
  // Session ids

  /** The session id a registration at second `now` receives: the speaker id, `_`, the second. */
  function SessionId(speakerId: string, now: nat): (sid: string)
    ensures |sid| > |speakerId| + 1
    ensures sid[..|speakerId|] == speakerId && sid[|speakerId|] == '_'
    ensures AllDigits(sid[|speakerId| + 1..])
  {
    var sid := speakerId + "_" + NatToString(now);
    assert sid[|speakerId| + 1..] == NatToString(now);
    sid
  }

  /** Reads a session id back into the speaker id and the second it was issued at. */
  function SplitSessionId(sid: string): Option<(string, nat)> {
    var k := DigitSuffixLength(sid);
    if 0 < k < |sid| && sid[|sid| - k - 1] == '_' then
      Some((sid[..|sid| - k - 1], ParseNat(sid[|sid| - k..])))
    else None
  }

  lemma SessionIdRoundTrip(speakerId: string, now: nat)
    ensures SplitSessionId(SessionId(speakerId, now)) == Some((speakerId, now))
  {
    var d := NatToString(now);
    var sid := SessionId(speakerId, now);
    assert sid == speakerId + ['_'] + d;
    DigitSuffixAfterSeparator(speakerId, '_', d);
    assert sid[..|sid| - |d| - 1] == speakerId;
    assert sid[|sid| - |d|..] == d;
    ParseNatToString(now);
  }

  /**
   * A session id determines both the speaker and the second of registration: two
   * registrations of any speakers at different seconds never share a session id.
   */
  lemma SessionIdInjective(a: string, t: nat, b: string, u: nat)
    requires SessionId(a, t) == SessionId(b, u)
    ensures a == b && t == u
  {
    SessionIdRoundTrip(a, t);
    SessionIdRoundTrip(b, u);
  }

  // ---------------------------------------------------------------------------------------
  // Specification functions over the speakers in table order

  predicate IsActive(s: ConnectedSpeaker, now: nat, window: int) {
    now - s.lastSeen <= window
  }

  /** The speakers seen within `window` seconds, in table order. */
  function ActiveOf(xs: seq<ConnectedSpeaker>, now: nat, window: int): (r: seq<ConnectedSpeaker>)
    ensures forall s :: s in r <==> s in xs && IsActive(s, now, window)
    ensures |r| <= |xs|
  {
    if xs == [] then []
    else
      var last := xs[|xs| - 1];
      ActiveOf(xs[..|xs| - 1], now, window) + (if IsActive(last, now, window) then [last] else [])
  }

  /** The speakers idle for longer than `window` seconds, in table order. */
  function StaleOf(xs: seq<ConnectedSpeaker>, now: nat, window: int): (r: seq<ConnectedSpeaker>)
    ensures forall s :: s in r <==> s in xs && !IsActive(s, now, window)
  {
    if xs == [] then []
    else
      var last := xs[|xs| - 1];
      StaleOf(xs[..|xs| - 1], now, window) + (if IsActive(last, now, window) then [] else [last])
  }

  /** Every speaker is either active or stale for a given window, never both. */
  lemma {:induction false} ActiveStalePartition(xs: seq<ConnectedSpeaker>, now: nat, window: int)
    ensures |ActiveOf(xs, now, window)| + |StaleOf(xs, now, window)| == |xs|
  {
    if xs != [] {
      ActiveStalePartition(xs[..|xs| - 1], now, window);
    }
  }

  /** The speaker ids, one per speaker, in table order. */
  function Ids(xs: seq<ConnectedSpeaker>): (r: seq<string>)
    ensures |r| == |xs|
    ensures forall i :: 0 <= i < |xs| ==> r[i] == xs[i].speakerId
  {
    if xs == [] then [] else Ids(xs[..|xs| - 1]) + [xs[|xs| - 1].speakerId]
  }

  lemma IdsAppend(xs: seq<ConnectedSpeaker>, x: ConnectedSpeaker)
    ensures Ids(xs + [x]) == Ids(xs) + [x.speakerId]
  {
    assert (xs + [x])[..|xs|] == xs;
  }

  lemma IdsMember(xs: seq<ConnectedSpeaker>, s: ConnectedSpeaker)
    requires s in xs
    ensures s.speakerId in Ids(xs)
  {
    var i :| 0 <= i < |xs| && xs[i] == s;
    assert Ids(xs)[i] == s.speakerId;
  }

  /** Every id of a stale speaker is an id of the speakers. */
  lemma StaleIdsAreIds(xs: seq<ConnectedSpeaker>, now: nat, window: int)
    ensures forall id :: id in Ids(StaleOf(xs, now, window)) ==> id in Ids(xs)
  {
    var stale := StaleOf(xs, now, window);
    forall id | id in Ids(stale)
      ensures id in Ids(xs)
    {
      var j :| 0 <= j < |stale| && Ids(stale)[j] == id;
      IdsMember(xs, stale[j]);
    }
  }

  /**
   * With distinct ids, taking the ids of the stale speakers out of the id list leaves the
   * ids of the active speakers, in table order.
   */
  lemma {:induction false} MinusStale(xs: seq<ConnectedSpeaker>, now: nat, window: int)
    requires Distinct(Ids(xs))
    ensures Minus(Ids(xs), Ids(StaleOf(xs, now, window))) == Ids(ActiveOf(xs, now, window))
  {
    if xs != [] {
      var init := xs[..|xs| - 1];
      var x := xs[|xs| - 1];
      assert xs == init + [x];
      IdsAppend(init, x);
      assert Ids(init) == Ids(xs)[..|xs| - 1];
      MinusStale(init, now, window);
      MinusStaleStep(init, x, now, window);
    }
  }

  /** The last speaker's step of `MinusStale`. */
  lemma MinusStaleStep(init: seq<ConnectedSpeaker>, x: ConnectedSpeaker, now: nat, window: int)
    requires x.speakerId !in Ids(init)
    requires Minus(Ids(init), Ids(StaleOf(init, now, window))) == Ids(ActiveOf(init, now, window))
    ensures Minus(Ids(init + [x]), Ids(StaleOf(init + [x], now, window))) == Ids(ActiveOf(init + [x], now, window))
  {
    var xs := init + [x];
    assert xs[..|xs| - 1] == init;
    IdsAppend(init, x);
    var stale0 := StaleOf(init, now, window);
    var active0 := ActiveOf(init, now, window);
    var ids := Ids(init);
    assert Ids(xs) == ids + [x.speakerId];
    if IsActive(x, now, window) {
      assert StaleOf(xs, now, window) == stale0 + [] == stale0;
      assert ActiveOf(xs, now, window) == active0 + [x];
      StaleIdsAreIds(init, now, window);
      assert x.speakerId !in Ids(stale0);
      MinusAppend(ids, x.speakerId, Ids(stale0));
      IdsAppend(active0, x);
      assert Minus(ids + [x.speakerId], Ids(stale0)) == Ids(active0) + [x.speakerId];
      assert Ids(ActiveOf(xs, now, window)) == Ids(active0) + [x.speakerId];
    } else {
      assert StaleOf(xs, now, window) == stale0 + [x];
      assert ActiveOf(xs, now, window) == active0 + [] == active0;
      IdsAppend(stale0, x);
      var gone := Ids(stale0) + [x.speakerId];
      MinusAppend(ids, x.speakerId, gone);
      MinusIgnores(ids, Ids(stale0), x.speakerId);
      assert Minus(ids + [x.speakerId], gone) == Ids(active0);
      assert Ids(StaleOf(xs, now, window)) == gone;
    }
  }

  /** Sum of `now - connected_at` over the active speakers. */
  function ActiveUptime(xs: seq<ConnectedSpeaker>, now: nat, window: int): int {
    if xs == [] then 0
    else
      var last := xs[|xs| - 1];
      ActiveUptime(xs[..|xs| - 1], now, window)
        + (if IsActive(last, now, window) then now - last.connectedAt else 0)
  }

  /** The speaker types, one per speaker, in table order. */
  function Types(xs: seq<ConnectedSpeaker>): (r: seq<string>)
    ensures |r| == |xs|
  {
    if xs == [] then [] else Types(xs[..|xs| - 1]) + [xs[|xs| - 1].speakerType]
  }

  /** All capability lists concatenated, in table order. */
  function AllCapabilities(xs: seq<ConnectedSpeaker>): seq<string> {
    if xs == [] then [] else AllCapabilities(xs[..|xs| - 1]) + xs[|xs| - 1].capabilities
  }

  /** `speaker.last_seen = now` for a known id; the table unchanged for an unknown one. */
  function WithActivity(d: SpeakerTable, speakerId: string, now: nat): (r: SpeakerTable)
    ensures d.Valid() ==> r.Valid()
    ensures r.keys == d.keys
    ensures forall id :: id in r.entries <==> id in d.entries
    ensures forall id :: id in d.entries && id != speakerId ==> r.entries[id] == d.entries[id]
    ensures speakerId in d.entries ==> r.entries[speakerId] == d.entries[speakerId].(lastSeen := now)
  {
    if speakerId in d.entries then d.Put(speakerId, d.entries[speakerId].(lastSeen := now)) else d
  }

  /** Every entry is filed under its own speaker id. */
  ghost predicate KeyedById(d: SpeakerTable) {
    forall id :: id in d.entries ==> d.entries[id].speakerId == id
  }

  // ---------------------------------------------------------------------------------------
  // Persisted records

  /** Field names of a saved speaker record (`asdict(ConnectedSpeaker)`). */
  const RequiredFields: set<string> := {"speaker_id", "name", "speaker_type", "version",
    "capabilities", "session_id", "connected_at", "last_seen", "address"}
  const AllFields: set<string> := RequiredFields + {"settings"}

  /**
   * A saved record: the field names it holds, and the values of those fields. Values of
   * fields the record lacks are meaningless.
   */
  datatype StoredRecord = StoredRecord(fields: set<string>, values: ConnectedSpeaker)

  /** `asdict(speaker)`: every field present, so the record loads back as the speaker itself. */
  function Encode(s: ConnectedSpeaker): (r: StoredRecord)
    ensures r.fields == AllFields
    ensures Decode(r) == Some(s)
  {
    StoredRecord(AllFields, s)
  }

  /**
   * Loading one record: a record without `speaker_id` is skipped; `ConnectedSpeaker(**data)`
   * fails (and the record is skipped) when a required field is missing or an unknown field is
   * present; a missing `settings` takes its default, the empty dict.
   */
  function Decode(r: StoredRecord): (s: Option<ConnectedSpeaker>)
    ensures s.Some? <==> RequiredFields <= r.fields <= AllFields
    ensures "speaker_id" !in r.fields ==> s == None
  {
    if "speaker_id" !in r.fields then None
    else if !(RequiredFields <= r.fields <= AllFields) then None
    else if "settings" in r.fields then Some(r.values)
    else Some(r.values.(settings := map[]))
  }

  /** The table after loading `records` into `d`, one record after another. */
  function LoadInto(d: SpeakerTable, records: seq<StoredRecord>): (r: SpeakerTable)
    ensures d.keys <= r.keys
    ensures |r.keys| <= |d.keys| + |records|
    ensures forall id :: id in d.entries ==> id in r.entries
  {
    if records == [] then d
    else
      var before := LoadInto(d, records[..|records| - 1]);
      match Decode(records[|records| - 1])
      case None => before
      case Some(s) => before.Put(s.speakerId, s)
  }

  /**
   * Loading keeps the table well formed, and a speaker id is in the loaded table exactly when
   * it was there before or some well-formed record carries it.
   */
  lemma {:induction false} LoadIntoSpec(d: SpeakerTable, records: seq<StoredRecord>, id: string)
    requires d.Valid() && KeyedById(d)
    ensures LoadInto(d, records).Valid() && KeyedById(LoadInto(d, records))
    ensures id in LoadInto(d, records).entries <==>
      id in d.entries || exists i :: 0 <= i < |records| && Decode(records[i]).Some? && Decode(records[i]).value.speakerId == id
  {
    if records != [] {
      var init := records[..|records| - 1];
      LoadIntoSpec(d, init, id);
      assert forall i :: 0 <= i < |init| ==> init[i] == records[i];
    }
  }

  // ---------------------------------------------------------------------------------------
  // The registry

  datatype SpeakerStats = SpeakerStats(
    totalSpeakers: nat,
    activeSpeakers: nat,
    averageUptime: real,
    byType: map<string, nat>,
    byCapability: map<string, nat>)

  /** The active-speaker scan of the statistics: how many are active and their summed uptime. */
  method ActiveTotals(all: seq<ConnectedSpeaker>, now: nat) returns (activeSpeakers: nat, totalUptime: int)
    ensures activeSpeakers == |ActiveOf(all, now, ActiveWindow)|
    ensures totalUptime == ActiveUptime(all, now, ActiveWindow)
  {
    activeSpeakers, totalUptime := 0, 0;
    for i := 0 to |all|
      invariant activeSpeakers == |ActiveOf(all[..i], now, ActiveWindow)|
      invariant totalUptime == ActiveUptime(all[..i], now, ActiveWindow)
    {
      assert all[..i + 1][..i] == all[..i];
      if now - all[i].lastSeen <= ActiveWindow {
        activeSpeakers := activeSpeakers + 1;
        totalUptime := totalUptime + (now - all[i].connectedAt);
      }
    }
    assert all[..|all|] == all;
  }

  /**
   * The scan of the eviction pass: the ids, in table order, whose speaker has been idle for
   * longer than `InactivityTimeout`. `all` is the table's records in the order of `ids`.
   */
  method StaleIds(ids: seq<string>, table: map<string, ConnectedSpeaker>, ghost all: seq<ConnectedSpeaker>, now: nat)
    returns (removed: seq<string>)
    requires |all| == |ids|
    requires forall i :: 0 <= i < |ids| ==> ids[i] in table && all[i] == table[ids[i]] && all[i].speakerId == ids[i]
    ensures removed == Ids(StaleOf(all, now, InactivityTimeout))
    ensures forall id :: id in removed <==> id in ids && !IsActive(table[id], now, InactivityTimeout)
  {
    removed := [];
    for i := 0 to |ids|
      invariant removed == Ids(StaleOf(all[..i], now, InactivityTimeout))
    {
      var before := StaleOf(all[..i], now, InactivityTimeout);
      assert all[..i + 1][..i] == all[..i];
      assert all[..i + 1][i] == all[i] == table[ids[i]];
      if now - table[ids[i]].lastSeen > InactivityTimeout {
        assert StaleOf(all[..i + 1], now, InactivityTimeout) == before + [all[i]];
        IdsAppend(before, all[i]);
        removed := removed + [ids[i]];
      } else {
        assert StaleOf(all[..i + 1], now, InactivityTimeout) == before + [] == before;
      }
    }
    assert all[..|ids|] == all;
    StaleIdsMembership(ids, table, all, now, InactivityTimeout);
  }

  /** The records of a table keyed by id, in key order, carry the keys as their ids. */
  lemma ValuesById(d: SpeakerTable)
    requires d.Valid() && KeyedById(d)
    ensures |d.Values()| == |d.keys|
    ensures forall i :: 0 <= i < |d.keys| ==> d.keys[i] in d.entries && d.Values()[i] == d.entries[d.keys[i]] && d.Values()[i].speakerId == d.keys[i]
    ensures Ids(d.Values()) == d.keys
  {
  }

  /**
   * Removing the stale ids of a well-formed table leaves the ids of the active speakers in
   * table order with their records unchanged, and the removed and remaining ids add up to
   * the table's size.
   */
  lemma EvictionOutcome(d: SpeakerTable, all: seq<ConnectedSpeaker>, removed: seq<string>, now: nat)
    requires d.Valid() && KeyedById(d) && all == d.Values()
    requires removed == Ids(StaleOf(all, now, InactivityTimeout))
    requires forall id :: id in removed <==> id in d.entries && !IsActive(d.entries[id], now, InactivityTimeout)
    ensures d.RemoveAll(removed).keys == Ids(ActiveOf(all, now, InactivityTimeout))
    ensures d.RemoveAll(removed).entries ==
      map id | id in d.entries && IsActive(d.entries[id], now, InactivityTimeout) :: d.entries[id]
    ensures |removed| + |d.RemoveAll(removed).keys| == |d.keys|
  {
    ValuesById(d);
    DropStale(d.entries, removed, now);
    MinusStale(all, now, InactivityTimeout);
    ActiveStalePartition(all, now, InactivityTimeout);
  }

  /** Dropping exactly the stale ids from a table keeps exactly its active entries. */
  lemma DropStale(table: map<string, ConnectedSpeaker>, removed: seq<string>, now: nat)
    requires forall id :: id in removed <==> id in table && !IsActive(table[id], now, InactivityTimeout)
    ensures table - (set id | id in removed) ==
      map id | id in table && IsActive(table[id], now, InactivityTimeout) :: table[id]
  {
  }

  /** An id is among the stale ids exactly when it is in the table and its speaker is stale. */
  lemma StaleIdsMembership(ids: seq<string>, table: map<string, ConnectedSpeaker>, all: seq<ConnectedSpeaker>, now: nat, window: int)
    requires |all| == |ids|
    requires forall i :: 0 <= i < |ids| ==> ids[i] in table && all[i] == table[ids[i]] && all[i].speakerId == ids[i]
    ensures forall id :: id in Ids(StaleOf(all, now, window)) <==> id in ids && !IsActive(table[id], now, window)
  {
    var stale := StaleOf(all, now, window);
    forall id
      ensures id in Ids(stale) <==> id in ids && !IsActive(table[id], now, window)
    {
      if id in Ids(stale) {
        var j :| 0 <= j < |stale| && Ids(stale)[j] == id;
        assert stale[j] in all;
        var i :| 0 <= i < |all| && all[i] == stale[j];
        assert ids[i] == id;
      }
      if id in ids && !IsActive(table[id], now, window) {
        var i :| 0 <= i < |ids| && ids[i] == id;
        IdsMember(stale, all[i]);
      }
    }
  }

  class SpeakerManager {
    var speakers: SpeakerTable

    ghost predicate Valid()
      reads this
    {
      speakers.Valid() && KeyedById(speakers)
    }

    constructor ()
      ensures Valid() && speakers == Empty()
    {
      speakers := Empty();
    }

    /**
     * Registration always succeeds: it (re)places the entry for `speakerId` with a fresh
     * record whose session id is derived from `now` and whose timestamps are `now`.
     */
    method RegisterSpeaker(speakerId: string, name: string, speakerType: string, version: string,
                           capabilities: seq<string>, address: string, settings: map<string, string>,
                           now: nat)
      returns (sessionId: string)
      requires Valid()
      modifies this
      ensures Valid()
      ensures sessionId == SessionId(speakerId, now)
      ensures speakers == old(speakers).Put(speakerId,
        ConnectedSpeaker(speakerId, name, speakerType, version, capabilities, sessionId, now, now, address, settings))
    {
      sessionId := SessionId(speakerId, now);
      var speaker := ConnectedSpeaker(speakerId, name, speakerType, version, capabilities,
                                      sessionId, now, now, address, settings);
      speakers := speakers.Put(speakerId, speaker);
    }

    /** Refreshes `last_seen` of a known speaker; an unknown id is ignored. */
    method UpdateSpeakerActivity(speakerId: string, now: nat)
      requires Valid()
      modifies this
      ensures Valid()
      ensures speakers == WithActivity(old(speakers), speakerId, now)
    {
      if speakerId in speakers.entries {
        speakers := speakers.Put(speakerId, speakers.entries[speakerId].(lastSeen := now));
      }
    }

    /** Deletes the entry for `speakerId`; no effect when there is none. */
    method RemoveSpeaker(speakerId: string)
      requires Valid()
      modifies this
      ensures Valid()
      ensures speakers == old(speakers).Remove(speakerId)
    {
      if speakerId in speakers.entries {
        speakers := speakers.Remove(speakerId);
      } else {
        RemoveAbsent(speakers, speakerId);
      }
    }

    function GetSpeaker(speakerId: string): (r: Option<ConnectedSpeaker>)
      reads this
      requires Valid()
      ensures r.Some? <==> speakerId in speakers.entries
      ensures r.Some? ==> r.value.speakerId == speakerId && r.value == speakers.entries[speakerId]
    {
      speakers.Get(speakerId)
    }

    /** The records in table order: one per registered speaker id, each under its own id. */
    function GetAllSpeakers(): (r: seq<ConnectedSpeaker>)
      reads this
      requires Valid()
      ensures |r| == |speakers.entries|
      ensures forall i :: 0 <= i < |r| ==> r[i].speakerId in speakers.entries && speakers.entries[r[i].speakerId] == r[i]
      ensures forall i, j :: 0 <= i < j < |r| ==> r[i].speakerId != r[j].speakerId
      ensures forall id :: id in speakers.entries ==> exists i :: 0 <= i < |r| && r[i].speakerId == id
    {
      var r := speakers.Values();
      assert forall i :: 0 <= i < |r| ==> r[i].speakerId == speakers.keys[i];
      assert forall id :: id in speakers.entries ==> exists i :: 0 <= i < |speakers.keys| && speakers.keys[i] == id;
      r
    }

    /** The records of the speakers seen within `maxInactive` seconds, in table order. */
    method GetActiveSpeakers(maxInactive: int, now: nat) returns (active: seq<ConnectedSpeaker>)
      requires Valid()
      ensures active == ActiveOf(GetAllSpeakers(), now, maxInactive)
      ensures forall s :: s in active <==> s in GetAllSpeakers() && now - s.lastSeen <= maxInactive
    {
      var all := speakers.Values();
      active := [];
      for i := 0 to |all|
        invariant active == ActiveOf(all[..i], now, maxInactive)
      {
        assert all[..i + 1][..i] == all[..i];
        if now - all[i].lastSeen <= maxInactive {
          active := active + [all[i]];
        }
      }
      assert all[..|all|] == all;
    }

    /**
     * One pass of the eviction task: every speaker idle for more than an hour is removed,
     * and nothing else changes. Returns the evicted ids in table order.
     */
    method CleanupInactiveSpeakers(now: nat) returns (removed: seq<string>)
      requires Valid()
      modifies this
      ensures Valid()
      ensures removed == Ids(StaleOf(old(GetAllSpeakers()), now, InactivityTimeout))
      ensures forall id :: id in removed <==> id in old(speakers.entries) && !IsActive(old(speakers.entries)[id], now, InactivityTimeout)
      ensures speakers.keys == Minus(old(speakers.keys), removed)
      ensures speakers.keys == Ids(ActiveOf(old(GetAllSpeakers()), now, InactivityTimeout))
      ensures speakers.entries == map id | id in old(speakers.entries) && IsActive(old(speakers.entries)[id], now, InactivityTimeout) :: old(speakers.entries)[id]
      ensures forall id :: id in speakers.entries ==> now - speakers.entries[id].lastSeen <= InactivityTimeout
      ensures |removed| + |speakers.keys| == |old(speakers.keys)|
    {
      ghost var all := GetAllSpeakers();
      ValuesById(speakers);
      removed := StaleIds(speakers.keys, speakers.entries, all, now);
      ghost var before := speakers;
      RemoveEach(removed);
      EvictionOutcome(before, all, removed, now);
    }

    /** `remove_speaker` for each id in turn. */
    method RemoveEach(ids: seq<string>)
      requires Valid()
      modifies this
      ensures Valid()
      ensures speakers == old(speakers).RemoveAll(ids)
    {
      ghost var start := speakers;
      for j := 0 to |ids|
        invariant speakers == start.RemoveAll(ids[..j])
        invariant Valid()
      {
        RemoveAllStep(start, ids, j);
        RemoveSpeaker(ids[j]);
      }
      assert ids[..|ids|] == ids;
    }

    /** `len`, active count, average uptime and the two breakdowns, computed in one scan. */
    method GetSpeakerStats(now: nat) returns (stats: SpeakerStats)
      requires Valid()
      ensures stats.totalSpeakers == |speakers.entries|
      ensures stats.activeSpeakers == |ActiveOf(GetAllSpeakers(), now, ActiveWindow)| <= stats.totalSpeakers
      ensures stats.totalSpeakers == 0 ==> stats.averageUptime == 0.0
      ensures stats.totalSpeakers > 0 ==>
        stats.averageUptime == ActiveUptime(GetAllSpeakers(), now, ActiveWindow) as real / stats.totalSpeakers as real
      ensures IsTally(stats.byType, Types(GetAllSpeakers()))
      ensures IsTally(stats.byCapability, AllCapabilities(GetAllSpeakers()))
    {
      var activeSpeakers, totalUptime := ActiveTotals(speakers.Values(), now);
      var average := if |speakers.entries| > 0 then totalUptime as real / |speakers.entries| as real else 0.0;
      var byType := CountByType();
      var byCapability := CountByCapability();
      stats := SpeakerStats(|speakers.entries|, activeSpeakers, average, byType, byCapability);
    }

    /** Number of speakers of each type. */
    method CountByType() returns (counts: map<string, nat>)
      requires Valid()
      ensures IsTally(counts, Types(GetAllSpeakers()))
    {
      var all := speakers.Values();
      counts := map[];
      TallyEmpty(Types(all[..0]));
      for i := 0 to |all|
        invariant IsTally(counts, Types(all[..i]))
      {
        assert all[..i + 1][..i] == all[..i];
        assert Types(all[..i + 1]) == Types(all[..i]) + [all[i].speakerType];
        TallyStep(counts, Types(all[..i]), all[i].speakerType);
        counts := Bump(counts, all[i].speakerType);
      }
      assert all[..|all|] == all;
    }

    /** Number of occurrences of each capability across all speakers' capability lists. */
    method CountByCapability() returns (counts: map<string, nat>)
      requires Valid()
      ensures IsTally(counts, AllCapabilities(GetAllSpeakers()))
    {
      var all := speakers.Values();
      counts := map[];
      TallyEmpty(AllCapabilities(all[..0]));
      for i := 0 to |all|
        invariant IsTally(counts, AllCapabilities(all[..i]))
      {
        assert all[..i + 1][..i] == all[..i];
        var caps := all[i].capabilities;
        ghost var before := AllCapabilities(all[..i]);
        for j := 0 to |caps|
          invariant IsTally(counts, before + caps[..j])
        {
          PrefixStep(before, caps, j);
          TallyStep(counts, before + caps[..j], caps[j]);
          counts := Bump(counts, caps[j]);
        }
        assert caps[..|caps|] == caps;
        AllCapabilitiesStep(all, i);
      }
      assert all[..|all|] == all;
    }

    /** Empties the table. */
    method Clear()
      requires Valid()
      modifies this
      ensures Valid() && speakers == Empty()
    {
      speakers := Empty();
    }

    /**
     * Loads saved records into the table, skipping records that lack `speaker_id` or do not
     * construct a speaker; a later record for the same id replaces an earlier one.
     */
    method Load(records: seq<StoredRecord>)
      requires Valid()
      modifies this
      ensures Valid()
      ensures speakers == LoadInto(old(speakers), records)
    {
      ghost var start := speakers;
      for i := 0 to |records|
        invariant speakers == LoadInto(start, records[..i])
        invariant Valid()
      {
        assert records[..i + 1][..i] == records[..i];
        LoadIntoSpec(start, records[..i + 1], "");
        var decoded := Decode(records[i]);
        if decoded.Some? {
          speakers := speakers.Put(decoded.value.speakerId, decoded.value);
        }
      }
      assert records[..|records|] == records;
    }
  }

  lemma AllCapabilitiesStep(xs: seq<ConnectedSpeaker>, i: nat)
    requires i < |xs|
    ensures AllCapabilities(xs[..i + 1]) == AllCapabilities(xs[..i]) + xs[i].capabilities
  {
    assert xs[..i + 1][..i] == xs[..i];
  }

  lemma PrefixStep(front: seq<string>, s: seq<string>, j: nat)
    requires j < |s|
    ensures front + s[..j + 1] == (front + s[..j]) + [s[j]]
  {
    assert s[..j + 1] == s[..j] + [s[j]];
  }
}
