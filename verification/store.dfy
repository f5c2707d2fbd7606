/**
 * The library's on-device store: the tables the session engine and the
 * upload engine read and write, as maps from row id to record, each with
 * the next id its auto-increment column will hand out.
 *
 * `Db` is the store as a value; the class `Provider` is the store the
 * handlers mutate, with one method per SQL statement they issue, each
 * proved to move `Snapshot()` exactly as the matching `Db` function says.
 */
module Store {
  import opened Wrappers
  import Text
  import Shaping

  /**
   * The `event_name` column. The library's own events use fixed names; an
   * application event `AppEvent(n)` is stored as `packageName + ":" + n`,
   * and `n` is what its history row records.
   */
  datatype EventName = OpenEvent | CloseEvent | OptInEvent | OptOutEvent | FlowEvent | AppEvent(name: string)

  datatype Session = Session(startWallTime: int, elapsedSinceLast: int)

  /** An event row; `identifiers` is the identifiers table as it was when the event was tagged, null when empty. */
  datatype Event = Event(session: nat, name: EventName, wallTime: int, clv: int, identifiers: Option<map<string, string>>)

  datatype Attribute = Attribute(event: nat, key: string, value: string)

  datatype HistoryKind = ScreenKind | EventKind

  /** An event-history row; `blob` is the `processed_in_blob` column, null until a blob claims the row. */
  datatype HistoryRow = HistoryRow(session: nat, kind: HistoryKind, name: string, blob: Option<nat>)

  /** A row of the blob/event join table. */
  datatype Link = Link(blob: nat, event: nat)

  /** `ProfileDbAction.SET_ATTRIBUTE.ordinal()`, the only profile action there is. */
  const SET_ATTRIBUTE: nat := 0

  /** The stored attribute text of a profile row, once parsed as a JSON object. */
  datatype StoredJson = Parsed(fields: seq<(string, Shaping.Json)>) | Unparsable

  datatype ProfileRow = ProfileRow(customer: string, action: nat, attribute: StoredJson)

  datatype Db = Db(
    sessions: map<nat, Session>, nextSession: nat,
    events: map<nat, Event>, nextEvent: nat,
    attributes: map<nat, Attribute>, nextAttribute: nat,
    history: map<nat, HistoryRow>, nextHistory: nat,
    blobs: set<nat>, nextBlob: nat,
    links: map<nat, Link>, nextLink: nat,
    dimensions: map<nat, string>,
    identifiers: map<string, string>,
    profiles: map<nat, ProfileRow>, nextProfile: nat,
    optedOut: bool,
    lastSessionOpenTime: int)

  // ---------------------------------------------------------------------------
  // Invariant
  // ---------------------------------------------------------------------------

  /** Every row id was handed out by its table's counter, and rows only point at sessions that were created. */
  predicate IdsBelow(db: Db)
  {
    (forall s :: s in db.sessions ==> s < db.nextSession) &&
    (forall e :: e in db.events ==> e < db.nextEvent && db.events[e].session < db.nextSession) &&
    (forall a :: a in db.attributes ==> a < db.nextAttribute) &&
    (forall h :: h in db.history ==> h < db.nextHistory && db.history[h].session < db.nextSession) &&
    (forall b :: b in db.blobs ==> b < db.nextBlob) &&
    (forall l :: l in db.links ==> l < db.nextLink) &&
    (forall p :: p in db.profiles ==> p < db.nextProfile)
  }

  /** Every link joins an existing blob to an existing event. */
  predicate LinksResolve(db: Db)
  {
    forall l :: l in db.links ==> db.links[l].blob in db.blobs && db.links[l].event in db.events
  }

  /** An event is in at most one blob. */
  predicate OneBlobPerEvent(db: Db)
  {
    forall l, m :: l in db.links && m in db.links && db.links[l].event == db.links[m].event ==> l == m
  }

  predicate Valid(db: Db)
  {
    IdsBelow(db) && LinksResolve(db) && OneBlobPerEvent(db) &&
    (forall d :: d in db.dimensions ==> d < Text.MAX_CUSTOM_DIMENSIONS)
  }

  // ---------------------------------------------------------------------------
  // Queries
  // ---------------------------------------------------------------------------

  /** The largest session id below `n` (a cursor over sessions sorted by id, moved to its last row). */
  function LatestSessionBelow(sessions: map<nat, Session>, n: nat): (r: Option<nat>)
    ensures r.Some? ==> r.value in sessions && r.value < n && forall k :: r.value < k < n ==> k !in sessions
    ensures r.None? ==> forall k :: k < n ==> k !in sessions
  {
    if n == 0 then None
    else if n - 1 in sessions then Some(n - 1)
    else LatestSessionBelow(sessions, n - 1)
  }

  function LatestSession(db: Db): Option<nat>
  {
    LatestSessionBelow(db.sessions, db.nextSession)
  }

  predicate HasCloseEvent(db: Db, s: nat)
  {
    exists e :: e in db.events && db.events[e].session == s && db.events[e].name == CloseEvent
  }

  /** `getOpenSessionId`: the latest session, unless it already has a close event. */
  function OpenSessionId(db: Db): (r: Option<nat>)
    ensures r.Some? ==> r.value in db.sessions && r == LatestSession(db) && !HasCloseEvent(db, r.value)
  {
    match LatestSession(db)
    case None => None
    case Some(s) => if HasCloseEvent(db, s) then None else Some(s)
  }

  predicate IsLinked(db: Db, e: nat)
  {
    exists l :: l in db.links && db.links[l].event == e
  }

  function LinkedEvents(db: Db): set<nat>
  {
    set l | l in db.links :: db.links[l].event
  }

  lemma LinkedEventsMeaning(db: Db, e: nat)
    ensures e in LinkedEvents(db) <==> IsLinked(db, e)
  {
    if IsLinked(db, e) {
      var l :| l in db.links && db.links[l].event == e;
      assert db.links[l].event in LinkedEvents(db);
    }
  }

  // ---------------------------------------------------------------------------
  // One function per SQL statement
  // ---------------------------------------------------------------------------

  function InsertSession(db: Db, s: Session): Db
  {
    db.(sessions := db.sessions[db.nextSession := s], nextSession := db.nextSession + 1)
  }

  function InsertEvent(db: Db, e: Event): Db
  {
    db.(events := db.events[db.nextEvent := e], nextEvent := db.nextEvent + 1)
  }

  function InsertAttribute(db: Db, a: Attribute): Db
  {
    db.(attributes := db.attributes[db.nextAttribute := a], nextAttribute := db.nextAttribute + 1)
  }

  function InsertHistory(db: Db, h: HistoryRow): Db
  {
    db.(history := db.history[db.nextHistory := h], nextHistory := db.nextHistory + 1)
  }

  function InsertBlob(db: Db): Db
  {
    db.(blobs := db.blobs + {db.nextBlob}, nextBlob := db.nextBlob + 1)
  }

  function InsertLink(db: Db, k: Link): Db
  {
    db.(links := db.links[db.nextLink := k], nextLink := db.nextLink + 1)
  }

  function InsertProfile(db: Db, p: ProfileRow): Db
  {
    db.(profiles := db.profiles[db.nextProfile := p], nextProfile := db.nextProfile + 1)
  }

  function RemoveEvent(db: Db, e: nat): Db
  {
    db.(events := db.events - {e})
  }

  /** `DELETE FROM attributes WHERE events_key_ref = e`. */
  function RemoveAttributesOf(db: Db, e: nat): Db
  {
    db.(attributes := map a | a in db.attributes && db.attributes[a].event != e :: db.attributes[a])
  }

  /** `DELETE FROM event_history WHERE session_key_ref = s`. */
  function RemoveHistoryOf(db: Db, s: nat): Db
  {
    db.(history := map h | h in db.history && db.history[h].session != s :: db.history[h])
  }

  function RemoveSession(db: Db, s: nat): Db
  {
    db.(sessions := db.sessions - {s})
  }

  function RemoveBlob(db: Db, b: nat): Db
  {
    db.(blobs := db.blobs - {b})
  }

  function RemoveLink(db: Db, l: nat): Db
  {
    db.(links := db.links - {l})
  }

  /** `DELETE FROM profile WHERE _id IN (...)`. */
  function RemoveProfiles(db: Db, ids: set<nat>): Db
  {
    db.(profiles := db.profiles - ids)
  }

  /** `UPDATE event_history SET processed_in_blob = b WHERE processed_in_blob IS NULL`. */
  function StampHistory(db: Db, b: nat): Db
  {
    db.(history := map h | h in db.history ::
      if db.history[h].blob.None? then db.history[h].(blob := Some(b)) else db.history[h])
  }

  // ---------------------------------------------------------------------------
  // The mutable store
  // ---------------------------------------------------------------------------

  class Provider {
    var sessions: map<nat, Session>
    var nextSession: nat
    var events: map<nat, Event>
    var nextEvent: nat
    var attributes: map<nat, Attribute>
    var nextAttribute: nat
    var history: map<nat, HistoryRow>
    var nextHistory: nat
    var blobs: set<nat>
    var nextBlob: nat
    var links: map<nat, Link>
    var nextLink: nat
    var dimensions: map<nat, string>
    var identifiers: map<string, string>
    var profiles: map<nat, ProfileRow>
    var nextProfile: nat
    var optedOut: bool
    var lastSessionOpenTime: int

    function Snapshot(): Db
      reads this
    {
      Db(sessions, nextSession, events, nextEvent, attributes, nextAttribute,
         history, nextHistory, blobs, nextBlob, links, nextLink,
         dimensions, identifiers, profiles, nextProfile, optedOut, lastSessionOpenTime)
    }

    /** A freshly created database: empty tables, not opted out, no session opened yet. */
    constructor ()
      ensures Snapshot() == Db(map[], 0, map[], 0, map[], 0, map[], 0, {}, 0, map[], 0, map[], map[], map[], 0, false, 0)
      ensures Valid(Snapshot())
    {
      sessions, nextSession := map[], 0;
      events, nextEvent := map[], 0;
      attributes, nextAttribute := map[], 0;
      history, nextHistory := map[], 0;
      blobs, nextBlob := {}, 0;
      links, nextLink := map[], 0;
      dimensions, identifiers := map[], map[];
      profiles, nextProfile := map[], 0;
      optedOut, lastSessionOpenTime := false, 0;
    }

    method AddSession(s: Session) returns (id: nat)
      modifies this
      ensures id == old(nextSession)
      ensures Snapshot() == InsertSession(old(Snapshot()), s)
    {
      id := nextSession;
      sessions, nextSession := sessions[id := s], id + 1;
    }

    method AddEvent(e: Event) returns (id: nat)
      modifies this
      ensures id == old(nextEvent)
      ensures Snapshot() == InsertEvent(old(Snapshot()), e)
    {
      id := nextEvent;
      events, nextEvent := events[id := e], id + 1;
    }

    method AddAttribute(a: Attribute)
      modifies this
      ensures Snapshot() == InsertAttribute(old(Snapshot()), a)
    {
      attributes, nextAttribute := attributes[nextAttribute := a], nextAttribute + 1;
    }

    method AddHistory(h: HistoryRow)
      modifies this
      ensures Snapshot() == InsertHistory(old(Snapshot()), h)
    {
      history, nextHistory := history[nextHistory := h], nextHistory + 1;
    }

    method AddBlob() returns (id: nat)
      modifies this
      ensures id == old(nextBlob)
      ensures Snapshot() == InsertBlob(old(Snapshot()))
    {
      id := nextBlob;
      blobs, nextBlob := blobs + {id}, id + 1;
    }

    method AddLink(k: Link)
      modifies this
      ensures Snapshot() == InsertLink(old(Snapshot()), k)
    {
      links, nextLink := links[nextLink := k], nextLink + 1;
    }

    method AddProfile(p: ProfileRow)
      modifies this
      ensures Snapshot() == InsertProfile(old(Snapshot()), p)
    {
      profiles, nextProfile := profiles[nextProfile := p], nextProfile + 1;
    }

    method DeleteEvent(e: nat)
      modifies this
      ensures Snapshot() == RemoveEvent(old(Snapshot()), e)
    {
      events := events - {e};
    }

    method DeleteAttributesOf(e: nat)
      modifies this
      ensures Snapshot() == RemoveAttributesOf(old(Snapshot()), e)
    {
      attributes := map a | a in attributes && attributes[a].event != e :: attributes[a];
    }

    method DeleteHistoryOf(s: nat)
      modifies this
      ensures Snapshot() == RemoveHistoryOf(old(Snapshot()), s)
    {
      history := map h | h in history && history[h].session != s :: history[h];
    }

    method DeleteSession(s: nat)
      modifies this
      ensures Snapshot() == RemoveSession(old(Snapshot()), s)
    {
      sessions := sessions - {s};
    }

    method DeleteBlob(b: nat)
      modifies this
      ensures Snapshot() == RemoveBlob(old(Snapshot()), b)
    {
      blobs := blobs - {b};
    }

    method DeleteLink(l: nat)
      modifies this
      ensures Snapshot() == RemoveLink(old(Snapshot()), l)
    {
      links := links - {l};
    }

    method DeleteProfiles(ids: set<nat>)
      modifies this
      ensures Snapshot() == RemoveProfiles(old(Snapshot()), ids)
    {
      profiles := profiles - ids;
    }

    method MarkHistory(b: nat)
      modifies this
      ensures Snapshot() == StampHistory(old(Snapshot()), b)
    {
      history := map h | h in history ::
        if history[h].blob.None? then history[h].(blob := Some(b)) else history[h];
    }

    method PutDimension(slot: nat, value: string)
      modifies this
      ensures Snapshot() == old(Snapshot()).(dimensions := old(dimensions)[slot := value])
    {
      dimensions := dimensions[slot := value];
    }

    method DeleteDimension(slot: nat)
      modifies this
      ensures Snapshot() == old(Snapshot()).(dimensions := old(dimensions) - {slot})
    {
      dimensions := dimensions - {slot};
    }

    method PutIdentifier(key: string, value: string)
      modifies this
      ensures Snapshot() == old(Snapshot()).(identifiers := old(identifiers)[key := value])
    {
      identifiers := identifiers[key := value];
    }

    method DeleteIdentifier(key: string)
      modifies this
      ensures Snapshot() == old(Snapshot()).(identifiers := old(identifiers) - {key})
    {
      identifiers := identifiers - {key};
    }

    method SetOptedOut(value: bool)
      modifies this
      ensures Snapshot() == old(Snapshot()).(optedOut := value)
    {
      optedOut := value;
    }

    method SetLastSessionOpenTime(t: int)
      modifies this
      ensures Snapshot() == old(Snapshot()).(lastSessionOpenTime := t)
    {
      lastSessionOpenTime := t;
    }
  }
}
