/**
 * The session engine: one method per message the handler processes and
 * per helper it calls, each changing the store step by step the way the
 * handler does and proved to leave it as the matching `SessionSpec`
 * function says. Each message runs as one store transaction, so a message
 * is one method call here.
 */
module Sessions {
  import opened Wrappers
  import opened Store
  import opened SessionSpec
  import opened TreeMaps
  import Text

  /** What `upload` and `uploadProfile` hand to the upload thread. */
  datatype UploadRequest = UploadRequested | RetryRequested

  /**
   * The open/close map of the tag-event message, built slot by slot: the
   * caller's entry for each of the first `n` dimension keys it carries is
   * put into a fresh TreeMap.
   */
  function DimensionEntriesBelow(m: Pairs, n: nat): Pairs
    requires n <= Text.MAX_CUSTOM_DIMENSIONS
  {
    if n == 0 then []
    else
      var k := Text.DimensionKey(n - 1);
      var init := DimensionEntriesBelow(m, n - 1);
      match Lookup(m, k)
      case None => init
      case Some(v) => Put(init, k, v)
  }

  /**
   * The map holds exactly the caller's entries under the first `n`
   * dimension keys, with the caller's values, in key order.
   */
  lemma {:induction false} DimensionEntriesMeaning(m: Pairs, n: nat)
    requires n <= Text.MAX_CUSTOM_DIMENSIONS
    ensures Sorted(DimensionEntriesBelow(m, n))
    ensures forall j :: 0 <= j < n ==>
      Lookup(DimensionEntriesBelow(m, n), Text.DimensionKey(j)) == Lookup(m, Text.DimensionKey(j))
    ensures forall k :: HasKey(DimensionEntriesBelow(m, n), k) ==>
      exists j :: 0 <= j < n && k == Text.DimensionKey(j)
  {
    if n > 0 {
      var k := Text.DimensionKey(n - 1);
      var init := DimensionEntriesBelow(m, n - 1);
      DimensionEntriesMeaning(m, n - 1);
      match Lookup(m, k)
      case None =>
      case Some(v) =>
        PutSorted(init, k, v);
        PutLookup(init, k, v);
        forall j | 0 <= j < n - 1
          ensures Text.DimensionKey(j) != k
        {
          Text.DimensionKeysDistinct(j, n - 1);
        }
    }
  }

  /**
   * The open/close map of the tag-event message: null unless the caller's
   * map carries a dimension key, otherwise the caller's dimension entries.
   */
  function OpenCloseAttributes(attrs: Option<Pairs>): (r: Option<Pairs>)
    ensures r.None? <==>
      attrs.None? || forall j :: 0 <= j < Text.MAX_CUSTOM_DIMENSIONS ==> !HasKey(attrs.value, Text.DimensionKey(j))
    ensures r.Some? ==> r.value == DimensionEntriesBelow(attrs.value, Text.MAX_CUSTOM_DIMENSIONS)
  {
    if attrs.None? then None
    else
      var d := DimensionEntriesBelow(attrs.value, Text.MAX_CUSTOM_DIMENSIONS);
      DimensionEntriesMeaning(attrs.value, Text.MAX_CUSTOM_DIMENSIONS);
      if d == [] then
        assert forall j :: 0 <= j < Text.MAX_CUSTOM_DIMENSIONS ==> Lookup(d, Text.DimensionKey(j)).None?;
        None
      else
        assert HasKey(d, d[0].0);
        Some(d)
  }

  class SessionHandler {
    const provider: Provider
    const cfg: Config
    /** This key's entry in the static "already uploading" map. */
    var isUploading: bool
    /** This key's entry in the static "already uploading profile" map. */
    var isUploadingProfile: bool

    constructor (p: Provider, c: Config)
      ensures provider == p && cfg == c && !isUploading && !isUploadingProfile
    {
      provider, cfg := p, c;
      isUploading, isUploadingProfile := false, false;
    }

    /** The sticky-dimension loop of `tagEvent`: stored dimensions for the slots the caller left out. */
    method StickyDimensions(attrs: Option<Pairs>) returns (all: Option<Pairs>)
      ensures all == Sticky(provider.Snapshot().dimensions, attrs)
    {
      all := attrs;
      var i := 0;
      while i < Text.MAX_CUSTOM_DIMENSIONS
        invariant i <= Text.MAX_CUSTOM_DIMENSIONS
        invariant all == StickyBelow(provider.Snapshot().dimensions, attrs, i)
      {
        var value := GetCustomDimension(provider.Snapshot(), i);
        if value.Some? {
          var m := if all.None? then [] else all.value;
          var key := Text.DimensionKey(i);
          if HasKey(m, key) {
            all := Some(m);
          } else {
            all := Some(Put(m, key, value.value));
          }
        }
        i := i + 1;
      }
    }

    /** The attribute loop of `tagEvent`: one row per entry, skipping application entries past the cap. */
    method InsertCappedAttributes(e: nat, entries: Pairs)
      modifies provider
      ensures provider.Snapshot() ==
        InsertAttributes(old(provider.Snapshot()), e, Capped(Text.AppPrefix(cfg.packageName), entries, cfg.maxAttributes))
    {
      ghost var db0 := provider.Snapshot();
      var prefix := Text.AppPrefix(cfg.packageName);
      var count := 0;
      var j := 0;
      while j < |entries|
        invariant j <= |entries|
        invariant count == AppCount(prefix, entries[..j])
        invariant provider.Snapshot() == InsertAttributes(db0, e, Capped(prefix, entries[..j], cfg.maxAttributes))
      {
        CappedSnoc(prefix, entries, j, cfg.maxAttributes);
        ghost var kept := Capped(prefix, entries[..j], cfg.maxAttributes);
        ghost var next := Capped(prefix, entries[..j + 1], cfg.maxAttributes);
        var app := prefix <= entries[j].0;
        if app {
          count := count + 1;
        }
        if !app || count <= cfg.maxAttributes {
          InsertAttributesSnoc(db0, e, kept, entries[j]);
          provider.AddAttribute(Attribute(e, entries[j].0, entries[j].1));
          assert provider.Snapshot() == InsertAttributes(db0, e, kept + [entries[j]]);
          assert next == kept + [entries[j]];
        } else {
          assert next == kept;
        }
        assert provider.Snapshot() == InsertAttributes(db0, e, next);
        j := j + 1;
      }
      assert entries[..j] == entries;
    }

    /** The reconnect join of `open`: the newest close event at or after `threshold` that no blob holds. */
    method FindReconnectCandidate(threshold: int) returns (closeEventId: Option<nat>)
      ensures closeEventId == ReconnectBelow(provider.Snapshot(), threshold, provider.nextEvent)
    {
      closeEventId := None;
      var k := 0;
      while k < provider.nextEvent
        invariant k <= provider.nextEvent
        invariant closeEventId == ReconnectBelow(provider.Snapshot(), threshold, k)
      {
        if Reconnectable(provider.Snapshot(), threshold, k) {
          if closeEventId.None? || k > closeEventId.value {
            closeEventId := Some(k);
          }
        }
        k := k + 1;
      }
    }

    /**
     * `tagEvent`: the event row, the sticky-dimension loop, the capped
     * attribute loop and, for an application event, the history row and
     * the flow marker.
     */
    method TagEvent(now: int, name: EventName, attrs: Option<Pairs>, clv: Option<int>)
      modifies provider
      decreases TagRank(name)
      ensures provider.Snapshot() == TagEventSpec(old(provider.Snapshot()), cfg, now, name, attrs, clv)
    {
      ghost var db0 := provider.Snapshot();
      var open := OpenSessionId(provider.Snapshot());
      if open.None? {
        return;
      }
      var s := open.value;
      RecordEventRows(now, s, name, attrs, clv);
      if name.AppEvent? {
        provider.AddHistory(HistoryRow(s, EventKind, name.name, None));
        ConditionallyAddFlowEvent(now);
      }
    }

    /** The event row of `tagEvent` in open session `s`, then its sticky dimensions and capped attributes. */
    method RecordEventRows(now: int, s: nat, name: EventName, attrs: Option<Pairs>, clv: Option<int>)
      requires s in provider.sessions
      modifies provider
      ensures provider.Snapshot() == RecordEvent(old(provider.Snapshot()), cfg, now, s, name, attrs, clv)
    {
      ghost var db0 := provider.Snapshot();
      var ids := if provider.identifiers == map[] then None else Some(provider.identifiers);
      var wall := if name == OpenEvent then provider.sessions[s].startWallTime else now;
      var e := provider.AddEvent(Event(s, name, wall, if clv.None? then 0 else clv.value, ids));
      ghost var db1 := provider.Snapshot();
      assert db1 == InsertEvent(db0, NewEvent(db0, now, s, name, clv));

      var all := StickyDimensions(attrs);
      assert all == Sticky(db0.dimensions, attrs);
      if all.Some? {
        InsertCappedAttributes(e, all.value);
      }
    }

    /** `conditionallyAddFlowEvent`: join flow events against blob links; tag a flow event if none is unclaimed. */
    method ConditionallyAddFlowEvent(now: int)
      modifies provider
      decreases 1
      ensures provider.Snapshot() == FlowSpec(old(provider.Snapshot()), cfg, now)
    {
      ghost var db0 := provider.Snapshot();
      var found := false;
      var k := 0;
      while k < provider.nextEvent
        invariant k <= provider.nextEvent
        invariant provider.Snapshot() == db0
        invariant found <==> exists e: nat :: e < k && UnlinkedFlow(db0, e)
      {
        if UnlinkedFlow(provider.Snapshot(), k) {
          found := true;
        }
        k := k + 1;
      }
      if !found {
        TagEvent(now, FlowEvent, None, None);
      }
    }

    /** `tagScreen`: append a screen row unless it repeats the session's newest screen row. */
    method TagScreen(now: int, screen: string)
      modifies provider
      ensures provider.Snapshot() == TagScreenSpec(old(provider.Snapshot()), cfg, now, screen)
    {
      var open := OpenSessionId(provider.Snapshot());
      if open.None? {
        return;
      }
      var s := open.value;
      var last := LastScreen(provider.Snapshot(), s);
      if last.Some? && provider.history[last.value].name == screen {
        return;
      }
      provider.AddHistory(HistoryRow(s, ScreenKind, screen, None));
      ConditionallyAddFlowEvent(now);
    }

    /** `close`: tag the close event if a session is open. */
    method Close(now: int, attrs: Option<Pairs>)
      modifies provider
      ensures provider.Snapshot() == CloseSpec(old(provider.Snapshot()), cfg, now, attrs)
    {
      if OpenSessionId(provider.Snapshot()).None? {
        return;
      }
      TagEvent(now, CloseEvent, attrs, None);
    }

    /** `openNewSession`. */
    method OpenNewSession(now: int, attrs: Option<Pairs>)
      modifies provider
      ensures provider.Snapshot() == OpenNewSpec(old(provider.Snapshot()), cfg, now, attrs)
    {
      ghost var db0 := provider.Snapshot();
      var last := provider.lastSessionOpenTime;
      if last == 0 {
        last := now;
      }
      var s := provider.AddSession(Session(now, now - last));
      provider.SetLastSessionOpenTime(now);
      assert provider.Snapshot() == WithNewSession(db0, now);
      TagEvent(now, OpenEvent, attrs, None);
    }

    /** `openClosedSession`: delete the close event and its attributes, or open afresh if the event is gone. */
    method OpenClosedSession(now: int, closeEventId: nat)
      modifies provider
      ensures old(closeEventId in provider.events) ==>
        provider.Snapshot() == ReopenSpec(old(provider.Snapshot()), closeEventId)
      ensures old(closeEventId !in provider.events) ==>
        provider.Snapshot() == OpenNewSpec(old(provider.Snapshot()), cfg, now, None)
    {
      if closeEventId in provider.events {
        provider.DeleteAttributesOf(closeEventId);
        provider.DeleteEvent(closeEventId);
      } else {
        OpenNewSession(now, None);
      }
    }

    /**
     * `open`: nothing if a session is open or the key is opted out; else
     * reconnect to the newest recent unclaimed close event; else nothing
     * if the latest session is still recent; else a new session, within
     * the session cap unless `ignoreLimits`.
     */
    method Open(now: int, ignoreLimits: bool, attrs: Option<Pairs>)
      modifies provider
      ensures provider.Snapshot() == OpenSpec(old(provider.Snapshot()), cfg, now, ignoreLimits, attrs)
    {
      ghost var db0 := provider.Snapshot();
      if OpenSessionId(provider.Snapshot()).Some? {
        return;
      }
      if provider.optedOut {
        return;
      }

      var threshold := now - cfg.expiration;
      var closeEventId := FindReconnectCandidate(threshold);

      if closeEventId.Some? {
        assert closeEventId.value in provider.events;
        OpenSpecReconnects(db0, cfg, now, ignoreLimits, attrs, closeEventId.value);
        OpenClosedSession(now, closeEventId.value);
        return;
      }

      var latest := LatestSession(provider.Snapshot());
      if latest.Some? {
        var s := latest.value;
        if provider.sessions[s].startWallTime >= threshold {
          return;
        }
        // The cleanup of an event-less latest session: that session has
        // no close event, so it is the open session and `open` has
        // already returned.
        var empty := forall e | e in provider.events :: provider.events[e].session != s;
        if empty {
          assert false;
        }
      }

      if !ignoreLimits && |provider.sessions| >= cfg.maxSessions {
        return;
      }
      OpenSpecOpensNew(db0, cfg, now, ignoreLimits, attrs);
      OpenNewSession(now, attrs);
    }

    /** `optOut`: nothing if unchanged; the opt event (in a forced session when none is open); the flag. */
    method OptOut(now: int, optingOut: bool)
      modifies provider
      ensures provider.Snapshot() == OptOutSpec(old(provider.Snapshot()), cfg, now, optingOut)
    {
      if provider.optedOut == optingOut {
        return;
      }
      var name := if optingOut then OptOutEvent else OptInEvent;
      if OpenSessionId(provider.Snapshot()).None? {
        Open(now, true, None);
        TagEvent(now, name, None, None);
        Close(now, None);
      } else {
        TagEvent(now, name, None, None);
      }
      provider.SetOptedOut(optingOut);
    }

    /** The tag-event message: tag into the open session, or open, tag and close with the caller's dimension keys. */
    method TagEventMessage(now: int, name: EventName, attrs: Option<Pairs>, clv: Option<int>)
      modifies provider
      ensures provider.Snapshot() ==
        TagEventMessageSpec(old(provider.Snapshot()), cfg, now, name, attrs, OpenCloseAttributes(attrs), clv)
    {
      if OpenSessionId(provider.Snapshot()).Some? {
        TagEvent(now, name, attrs, clv);
      } else {
        var openClose := OpenCloseAttributes(attrs);
        Open(now, false, openClose);
        TagEvent(now, name, attrs, clv);
        Close(now, openClose);
      }
    }

    /** `setIdentifier`. */
    method SetIdentifier(key: string, value: Option<string>)
      modifies provider
      ensures provider.Snapshot() == SetIdentifierSpec(old(provider.Snapshot()), key, value)
    {
      if key in provider.identifiers {
        if value.None? {
          provider.DeleteIdentifier(key);
        } else if value.value != provider.identifiers[key] {
          provider.PutIdentifier(key, value.value);
        }
      } else if value.Some? {
        provider.PutIdentifier(key, value.value);
      }
    }

    /** `setCustomDimension`. */
    method SetCustomDimension(dimension: int, value: Option<string>)
      modifies provider
      ensures provider.Snapshot() == SetCustomDimensionSpec(old(provider.Snapshot()), dimension, value)
    {
      if dimension < 0 || dimension > 9 {
        return;
      }
      var slot := dimension as nat;
      if slot in provider.dimensions {
        if value.None? {
          provider.DeleteDimension(slot);
        } else {
          provider.PutDimension(slot, value.value);
        }
      } else if value.Some? {
        provider.PutDimension(slot, value.value);
      }
    }

    /** The set-profile-attribute message: one SET_ATTRIBUTE row for the current customer. */
    method SetProfileAttribute(customer: string, attribute: StoredJson)
      modifies provider
      ensures provider.Snapshot() == InsertProfile(old(provider.Snapshot()), ProfileRow(customer, SET_ATTRIBUTE, attribute))
    {
      provider.AddProfile(ProfileRow(customer, SET_ATTRIBUTE, attribute));
    }

    /** `preUploadBuildBlobs`: collect the eligible events, then one blob, its links and the history stamp. */
    method PreUploadBuildBlobs(now: int)
      modifies provider
      ensures provider.Snapshot() == BuildBlobsSpec(old(provider.Snapshot()), cfg, now)
    {
      var eventIds := CollectEligible(now);
      if |eventIds| > 0 {
        var b := provider.AddBlob();
        AddLinks(b, eventIds);
        provider.MarkHistory(b);
      }
    }

    /** The join loop of `preUploadBuildBlobs`: every eligible event id, ascending. */
    method CollectEligible(now: int) returns (eventIds: seq<nat>)
      ensures eventIds == EligibleEvents(provider.Snapshot(), cfg, now)
    {
      eventIds := [];
      var k := 0;
      while k < provider.nextEvent
        invariant k <= provider.nextEvent
        invariant eventIds == EligibleBelow(provider.Snapshot(), cfg, now, k)
      {
        if Eligible(provider.Snapshot(), cfg, now, k) {
          eventIds := eventIds + [k];
        }
        k := k + 1;
      }
    }

    /** The link loop of `preUploadBuildBlobs`: one link per collected event into blob `b`. */
    method AddLinks(b: nat, eventIds: seq<nat>)
      modifies provider
      ensures provider.Snapshot() == InsertLinks(old(provider.Snapshot()), b, eventIds)
    {
      ghost var db0 := provider.Snapshot();
      var i := 0;
      while i < |eventIds|
        invariant i <= |eventIds|
        invariant provider.Snapshot() == InsertLinks(db0, b, eventIds[..i])
      {
        assert eventIds[..i + 1][..i] == eventIds[..i];
        provider.AddLink(Link(b, eventIds[i]));
        i := i + 1;
      }
      assert eventIds[..i] == eventIds;
    }

    /** `upload`: a retry request while an upload is in flight; otherwise build blobs, raise the flag and request the upload. */
    method Upload(now: int) returns (request: UploadRequest)
      modifies this, provider
      ensures old(isUploading) ==>
        (request == RetryRequested && isUploading && provider.Snapshot() == old(provider.Snapshot()))
      ensures !old(isUploading) ==>
        (request == UploadRequested && isUploading && provider.Snapshot() == BuildBlobsSpec(old(provider.Snapshot()), cfg, now))
      ensures isUploadingProfile == old(isUploadingProfile)
    {
      if isUploading {
        return RetryRequested;
      }
      PreUploadBuildBlobs(now);
      isUploading := true;
      return UploadRequested;
    }

    /** `uploadProfile`: the same flag protocol for profile uploads. */
    method UploadProfile() returns (request: UploadRequest)
      modifies this
      ensures old(isUploadingProfile) ==> request == RetryRequested
      ensures !old(isUploadingProfile) ==> request == UploadRequested
      ensures isUploadingProfile && isUploading == old(isUploading)
    {
      if isUploadingProfile {
        return RetryRequested;
      }
      isUploadingProfile := true;
      return UploadRequested;
    }

    /** MESSAGE_UPLOAD_CALLBACK. */
    method UploadCallback()
      modifies this
      ensures !isUploading && isUploadingProfile == old(isUploadingProfile)
    {
      isUploading := false;
    }

    /** MESSAGE_UPLOAD_PROFILE_CALLBACK. */
    method UploadProfileCallback()
      modifies this
      ensures !isUploadingProfile && isUploading == old(isUploading)
    {
      isUploadingProfile := false;
    }
  }
}
