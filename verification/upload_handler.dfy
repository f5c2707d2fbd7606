/**
 * The upload thread: one method per message it handles and per helper it
 * calls, each reading or changing the store the way the handler does and
 * proved to compute what the `Conversion` and `UploadSpec` functions say.
 * The HTTP exchange is a parameter: the `Outcome` each POST ends with.
 */
module Uploads {
  import opened Wrappers
  import opened Store
  import opened UploadSpec
  import opened Conversion
  import Sessions

  /** The store after MESSAGE_UPLOAD: the sweep runs only when a non-empty upload was accepted. */
  function AfterUpload(db: Db, packageName: string, outcome: Outcome): Db
  {
    var body := ConvertSpec(db, packageName);
    if body.Ok? && body.value != [] && Accepted(outcome) then DeleteSpec(db) else db
  }

  /**
   * Whatever the server answers, an upload keeps the store consistent,
   * never loses an event that is not yet in a blob, and leaves profiles,
   * dimensions and identifiers alone; once a non-empty upload is
   * accepted, no link is left to send again.
   */
  lemma UploadKeepsUnsent(db: Db, packageName: string, outcome: Outcome)
    requires Valid(db)
    ensures var r := AfterUpload(db, packageName, outcome);
      Valid(r) &&
      (forall e :: e in db.events && !IsLinked(db, e) ==> e in r.events && r.events[e] == db.events[e]) &&
      r.profiles == db.profiles && r.dimensions == db.dimensions && r.identifiers == db.identifiers
    ensures var body := ConvertSpec(db, packageName);
      body.Ok? && body.value != [] && Accepted(outcome) ==> AfterUpload(db, packageName, outcome).links == map[]
  {
    DeleteMeaning(db);
    DeleteValid(db);
  }

  class UploadHandler {
    const provider: Provider
    const sessions: Sessions.SessionHandler
    const packageName: string

    constructor (s: Sessions.SessionHandler, packageName: string)
      ensures provider == s.provider && sessions == s && this.packageName == packageName
    {
      provider, sessions := s.provider, s;
      this.packageName := packageName;
    }

    // -------------------------------------------------------------------------
    // convertDatabaseToJson and its helpers; none of them writes the store
    // -------------------------------------------------------------------------

    /** The custom-dimension loop of `convertEventToJson`: each dimension row puts its value under its slot. */
    method EventDimensions(e: nat) returns (dims: map<nat, string>)
      ensures dims == Dims(provider.Snapshot(), e)
    {
      dims := map[];
      var a := 0;
      while a < provider.nextAttribute
        invariant a <= provider.nextAttribute
        invariant dims == DimsBelow(provider.Snapshot(), e, a)
      {
        if a in provider.attributes && provider.attributes[a].event == e {
          var slot := DimensionSlot(provider.attributes[a].key);
          if slot.Some? {
            dims := dims[slot.value := provider.attributes[a].value];
          }
        }
        a := a + 1;
      }
    }

    /** `convertAttributesToJson`: null without a non-dimension row; otherwise each row under its stripped key. */
    method EventAttributes(e: nat) returns (r: Result<Option<map<string, string>>>)
      ensures r == ConvertAttributes(provider.Snapshot(), packageName, e)
    {
      ghost var db := provider.Snapshot();
      if !HasAppRowBelow(provider.Snapshot(), e, provider.nextAttribute) {
        return Ok(None);
      }
      var m: map<string, string> := map[];
      var a := 0;
      while a < provider.nextAttribute
        invariant a <= provider.nextAttribute
        invariant AttrsBelow(db, packageName, e, a) == Ok(m)
      {
        if a in provider.attributes && provider.attributes[a].event == e && DimensionSlot(provider.attributes[a].key).None? {
          var key := provider.attributes[a].key;
          if |key| < |packageName| + 1 {
            assert AttrsBelow(db, packageName, e, a + 1).Err?;
            AttrsBelowErrStays(db, packageName, e, a + 1, provider.nextAttribute);
            return Err("StringIndexOutOfBoundsException");
          }
          m := m[key[|packageName| + 1..] := provider.attributes[a].value];
        }
        a := a + 1;
      }
      r := Ok(Some(m));
    }

    /** The screen-history cursor of a close event, in row order. */
    method Screens(s: nat) returns (names: seq<string>)
      ensures names == ScreensBelow(provider.Snapshot(), s, provider.nextHistory)
    {
      names := [];
      var h := 0;
      while h < provider.nextHistory
        invariant h <= provider.nextHistory
        invariant names == ScreensBelow(provider.Snapshot(), s, h)
      {
        if h in provider.history && provider.history[h].session == s && provider.history[h].kind == ScreenKind {
          names := names + [provider.history[h].name];
        }
        h := h + 1;
      }
    }

    /** The flow cursor of a flow event: rows of this blob go to the new array, earlier ones to the old. */
    method Flow(s: nat, b: nat) returns (newFlow: seq<FlowStep>, oldFlow: seq<FlowStep>)
      ensures var split := FlowSplit(provider.Snapshot(), s, b, provider.nextHistory);
        newFlow == Steps(provider.Snapshot(), split.0) && oldFlow == Steps(provider.Snapshot(), split.1)
    {
      newFlow, oldFlow := [], [];
      var h := 0;
      while h < provider.nextHistory
        invariant h <= provider.nextHistory
        invariant FlowStepsBelow(provider.Snapshot(), s, b, h) == (newFlow, oldFlow)
      {
        if h in provider.history && provider.history[h].session == s && provider.history[h].blob.Some? &&
           provider.history[h].blob.value <= b {
          var step := FlowStep(provider.history[h].kind, provider.history[h].name);
          if provider.history[h].blob.value == b {
            newFlow := newFlow + [step];
          } else {
            oldFlow := oldFlow + [step];
          }
        }
        h := h + 1;
      }
      FlowStepsMatch(provider.Snapshot(), s, b, provider.nextHistory);
    }

    /** `convertEventToJson` for event `e` of blob `b`. */
    method EventRecordOf(e: nat, b: nat) returns (r: Result<Record>)
      ensures r == ConvertEvent(provider.Snapshot(), packageName, e, b)
    {
      if e !in provider.events {
        return Err("RuntimeException");
      }
      var ev := provider.events[e];
      var s := ev.session;
      if s !in provider.sessions {
        return Err("RuntimeException");
      }
      match ev.name {
        case OpenEvent =>
          var dims := EventDimensions(e);
          r := Ok(EventRecord(e, OpenBody(s, dims)));
        case CloseEvent =>
          var screens := Screens(s);
          var dims := EventDimensions(e);
          r := Ok(EventRecord(e, CloseBody(s, screens, dims)));
        case OptInEvent =>
          r := Ok(EventRecord(e, OptBody(false)));
        case OptOutEvent =>
          r := Ok(EventRecord(e, OptBody(true)));
        case FlowEvent =>
          var newFlow, oldFlow := Flow(s, b);
          r := Ok(EventRecord(e, FlowBody(newFlow, oldFlow)));
        case AppEvent(name) =>
          var dims := EventDimensions(e);
          var attributes := EventAttributes(e);
          if attributes.Err? {
            r := Err(attributes.message);
          } else {
            r := Ok(EventRecord(e, AppBody(name, ev.clv, ev.identifiers, dims, attributes.value)));
          }
      }
    }

    /** The blob header: `getSessionIdForBlobId` through the blob's first link, then the session and identifiers. */
    method BlobHeader(b: nat) returns (r: Result<Record>)
      ensures r == HeaderOf(provider.Snapshot(), b)
    {
      var first: Option<nat> := None;
      var l := 0;
      while l < provider.nextLink
        invariant l <= provider.nextLink
        invariant first == FirstLinkBelow(provider.Snapshot(), b, l)
      {
        if first.None? && l in provider.links && provider.links[l].blob == b {
          first := Some(l);
        }
        l := l + 1;
      }
      if first.None? {
        return Err("No events associated with blob");
      }
      var e := provider.links[first.value].event;
      if e !in provider.events {
        return Err("No session associated with event");
      }
      var s := provider.events[e].session;
      if s !in provider.sessions {
        return Err("No session exists");
      }
      var identifiers := if provider.identifiers == map[] then None else Some(provider.identifiers);
      r := Ok(Header(b, s, identifiers));
    }

    /** The blob's link cursor sorted by event id. */
    method EventsOfBlob(b: nat) returns (es: seq<nat>)
      ensures es == BlobEvents(provider.Snapshot(), b)
    {
      es := [];
      var e := 0;
      while e < provider.nextEvent
        invariant e <= provider.nextEvent
        invariant es == BlobEventsBelow(provider.Snapshot(), b, e)
      {
        if InBlob(provider.Snapshot(), b, e) {
          es := es + [e];
        }
        e := e + 1;
      }
    }

    /** The blob-event loop: one record per event, in order; an exception ends it. */
    method EventRecords(b: nat, es: seq<nat>) returns (r: Result<seq<Record>>)
      ensures r == ConvertEvents(provider.Snapshot(), packageName, b, es)
    {
      ghost var db := provider.Snapshot();
      var records: seq<Record> := [];
      var i := 0;
      while i < |es|
        invariant i <= |es|
        invariant ConvertEvents(db, packageName, b, es[..i]) == Ok(records)
      {
        var record := EventRecordOf(es[i], b);
        assert es[..i + 1][..i] == es[..i];
        if record.Err? {
          ConvertEventsErrStays(db, packageName, b, es, i + 1);
          return Err(record.message);
        }
        records := records + [record.value];
        i := i + 1;
      }
      assert es[..|es|] == es;
      r := Ok(records);
    }

    /** One blob's header followed by its events. */
    method BlobRecords(b: nat) returns (r: Result<seq<Record>>)
      ensures r == ConvertBlob(provider.Snapshot(), packageName, b)
    {
      var header := BlobHeader(b);
      if header.Err? {
        return Err(header.message);
      }
      var es := EventsOfBlob(b);
      var records := EventRecords(b, es);
      if records.Err? {
        return Err(records.message);
      }
      r := Ok([header.value] + records.value);
    }

    /**
     * `convertDatabaseToJson`: for each blob in id order its header, then
     * one record per event it holds; an exception ends the conversion.
     */
    method ConvertDatabaseToJson() returns (r: Result<seq<Record>>)
      ensures r == ConvertSpec(provider.Snapshot(), packageName)
    {
      ghost var db := provider.Snapshot();
      var rs: seq<Record> := [];
      var b := 0;
      while b < provider.nextBlob
        invariant b <= provider.nextBlob
        invariant ConvertBelow(db, packageName, b) == Ok(rs)
      {
        if b in provider.blobs {
          var records := BlobRecords(b);
          if records.Err? {
            ConvertBelowErrStays(db, packageName, b + 1, provider.nextBlob);
            return Err(records.message);
          }
          rs := rs + records.value;
        }
        b := b + 1;
      }
      r := Ok(rs);
    }

    // -------------------------------------------------------------------------
    // deleteBlobsAndSessions
    // -------------------------------------------------------------------------

    /** One row of the link cursor: the link, its event's attributes, a close event's session history, the event. */
    method SweepOne(l: nat, k: Link, blobs: set<nat>, sessionIds: seq<nat>) returns (blobs': set<nat>, sessionIds': seq<nat>)
      modifies provider
      ensures Sweep(provider.Snapshot(), blobs', sessionIds') == SweepLink(Sweep(old(provider.Snapshot()), blobs, sessionIds), l, k)
    {
      provider.DeleteLink(l);
      blobs' := blobs + {k.blob};
      provider.DeleteAttributesOf(k.event);
      sessionIds' := sessionIds;
      if k.event in provider.events && provider.events[k.event].name == CloseEvent {
        var s := provider.events[k.event].session;
        provider.DeleteHistoryOf(s);
        sessionIds' := sessionIds + [s];
      }
      provider.DeleteEvent(k.event);
    }

    /** The link cursor, queried before any row is removed, in id order; returns the blobs and sessions it gathered. */
    method SweepLinks() returns (blobsToDelete: set<nat>, sessionsToDelete: seq<nat>)
      modifies provider
      ensures Sweep(provider.Snapshot(), blobsToDelete, sessionsToDelete) == SweepBelow(old(provider.Snapshot()), old(provider.nextLink))
    {
      ghost var db0 := provider.Snapshot();
      var rows := provider.links;
      var n := provider.nextLink;
      blobsToDelete, sessionsToDelete := {}, [];
      var l := 0;
      while l < n
        invariant l <= n && rows == db0.links && n == db0.nextLink
        invariant Sweep(provider.Snapshot(), blobsToDelete, sessionsToDelete) == SweepBelow(db0, l)
      {
        if l in rows {
          blobsToDelete, sessionsToDelete := SweepOne(l, rows[l], blobsToDelete, sessionsToDelete);
        }
        l := l + 1;
      }
    }

    /** The blob loop of `deleteBlobsAndSessions`: every gathered blob is removed. */
    method DeleteBlobs(blobsToDelete: set<nat>)
      modifies provider
      ensures provider.Snapshot() == old(provider.Snapshot()).(blobs := old(provider.blobs) - blobsToDelete)
    {
      ghost var db0 := provider.Snapshot();
      var todo := blobsToDelete;
      while todo != {}
        invariant todo <= blobsToDelete
        invariant provider.Snapshot() == db0.(blobs := db0.blobs - (blobsToDelete - todo))
        decreases |todo|
      {
        var x :| x in todo;
        provider.DeleteBlob(x);
        todo := todo - {x};
      }
    }

    /** The session loop of `deleteBlobsAndSessions`: every gathered session is removed. */
    method DeleteSessions(sessionsToDelete: seq<nat>)
      modifies provider
      ensures provider.Snapshot() == old(provider.Snapshot()).(sessions := old(provider.sessions) - set s | s in sessionsToDelete)
    {
      ghost var db0 := provider.Snapshot();
      ghost var gone: set<nat> := {};
      var i := 0;
      while i < |sessionsToDelete|
        invariant i <= |sessionsToDelete|
        invariant gone == set s | s in sessionsToDelete[..i]
        invariant provider.Snapshot() == db0.(sessions := db0.sessions - gone)
      {
        provider.DeleteSession(sessionsToDelete[i]);
        assert sessionsToDelete[..i + 1] == sessionsToDelete[..i] + [sessionsToDelete[i]];
        gone := gone + {sessionsToDelete[i]};
        i := i + 1;
      }
      assert sessionsToDelete[..i] == sessionsToDelete;
    }

    /**
     * `deleteBlobsAndSessions`: the link cursor, then the gathered blobs,
     * then the gathered sessions.
     */
    method DeleteBlobsAndSessions()
      modifies provider
      ensures provider.Snapshot() == DeleteSpec(old(provider.Snapshot()))
    {
      var blobsToDelete, sessionsToDelete := SweepLinks();
      DeleteBlobs(blobsToDelete);
      DeleteSessions(sessionsToDelete);
    }

    // -------------------------------------------------------------------------
    // Profiles
    // -------------------------------------------------------------------------

    /** `getProfileAttributes`: the profile cursor in id order, merging each customer's SET_ATTRIBUTE rows. */
    method GetProfileAttributes() returns (m: map<string, Consolidated>)
      ensures m == Consolidate(provider.Snapshot())
    {
      m := map[];
      var p := 0;
      while p < provider.nextProfile
        invariant p <= provider.nextProfile
        invariant m == ConsolidateBelow(provider.Snapshot(), p)
      {
        if p in provider.profiles && provider.profiles[p].action == SET_ATTRIBUTE {
          var row := provider.profiles[p];
          var fields := if row.attribute.Parsed? then row.attribute.fields else [];
          if row.customer !in m {
            m := m[row.customer := Consolidated(fields, [p])];
          } else {
            var entry := m[row.customer];
            var merged := entry.fields;
            if fields != [] {
              merged := JsonPut(merged, fields[0].0, fields[0].1);
            }
            m := m[row.customer := Consolidated(merged, entry.rowIds + [p])];
          }
        }
        p := p + 1;
      }
    }

    /** `deleteProfileAttribute`: removes the rows whose ids are listed. */
    method DeleteProfileAttribute(rowIds: seq<nat>)
      modifies provider
      ensures provider.Snapshot() == DeleteRows(old(provider.Snapshot()), rowIds)
    {
      provider.DeleteProfiles(set i | i in rowIds);
    }

    // -------------------------------------------------------------------------
    // The messages
    // -------------------------------------------------------------------------

    /**
     * MESSAGE_UPLOAD: convert the store; when there is something to send
     * and the server accepts it, sweep what was sent. The session thread
     * is told the upload is over whatever happened.
     */
    method HandleUpload(outcome: Outcome) returns (body: Result<seq<Record>>)
      modifies provider, sessions
      ensures body == ConvertSpec(old(provider.Snapshot()), packageName)
      ensures provider.Snapshot() == AfterUpload(old(provider.Snapshot()), packageName, outcome)
      ensures !sessions.isUploading && sessions.isUploadingProfile == old(sessions.isUploadingProfile)
    {
      body := ConvertDatabaseToJson();
      if body.Ok? && body.value != [] && Accepted(outcome) {
        DeleteBlobsAndSessions();
      }
      sessions.UploadCallback();
    }

    /** The loop over the merged customers: one POST each; an accepted customer's rows are deleted. */
    method UploadCustomers(m: map<string, Consolidated>, outcome: string -> Outcome)
      modifies provider
      ensures provider.Snapshot() == RemoveProfiles(old(provider.Snapshot()), AcceptedRows(m, outcome, m.Keys))
    {
      ghost var db0 := provider.Snapshot();
      var todo := m.Keys;
      ghost var done: set<string> := {};
      ghost var gone: set<nat> := {};
      while todo != {}
        invariant todo <= m.Keys && done == m.Keys - todo
        invariant gone == AcceptedRows(m, outcome, done)
        invariant provider.Snapshot() == RemoveProfiles(db0, gone)
        decreases |todo|
      {
        var c :| c in todo;
        AcceptedRowsStep(m, outcome, done, c);
        if Accepted(outcome(c)) {
          DeleteProfileAttribute(m[c].rowIds);
          DeleteRowsTwice(db0, gone, m[c].rowIds);
          gone := gone + set i | i in m[c].rowIds;
        }
        todo, done := todo - {c}, done + {c};
      }
    }

    /**
     * MESSAGE_UPLOAD_PROFILE: gather each customer's rows, upload them,
     * then tell the session thread the profile upload is over.
     */
    method HandleUploadProfile(outcome: string -> Outcome)
      modifies provider, sessions
      ensures provider.Snapshot() == ProfileUploadSpec(old(provider.Snapshot()), outcome)
      ensures !sessions.isUploadingProfile && sessions.isUploading == old(sessions.isUploading)
    {
      var m := GetProfileAttributes();
      UploadCustomers(m, outcome);
      sessions.UploadProfileCallback();
    }
  }
}
