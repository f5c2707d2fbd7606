/**
 * What each session-engine message does to the store, as functions from
 * the store before the message to the store after it. The handler methods
 * in module `Sessions` are proved to move the store exactly as these say;
 * the lemmas here state what the engine promises about them.
 */
module SessionSpec {
  import opened Wrappers
  import opened Store
  import opened TreeMaps
  import Text

  /**
   * The engine's fixed limits and its package name: MAX_NUM_SESSIONS,
   * MAX_NUM_ATTRIBUTES and SESSION_EXPIRATION (milliseconds).
   */
  datatype Config = Config(packageName: string, maxSessions: nat, maxAttributes: nat, expiration: int)

  // ---------------------------------------------------------------------------
  // tagEvent
  // ---------------------------------------------------------------------------

  /**
   * The sticky-dimension loop of `tagEvent` over slots 0 .. n-1: a stored
   * dimension is put under its slot's key only when the caller's map has
   * no such key, creating an empty TreeMap when the caller passed none.
   */
  function StickyBelow(dims: map<nat, string>, attrs: Option<Pairs>, n: nat): Option<Pairs>
    requires n <= Text.MAX_CUSTOM_DIMENSIONS
  {
    if n == 0 then attrs
    else
      var a := StickyBelow(dims, attrs, n - 1);
      if n - 1 in dims then
        var m := if a.None? then [] else a.value;
        if HasKey(m, Text.DimensionKey(n - 1)) then Some(m)
        else Some(Put(m, Text.DimensionKey(n - 1), dims[n - 1]))
      else a
  }

  function Sticky(dims: map<nat, string>, attrs: Option<Pairs>): Option<Pairs>
  {
    StickyBelow(dims, attrs, Text.MAX_CUSTOM_DIMENSIONS)
  }

  /** Number of entries whose key carries the application prefix. */
  function AppCount(prefix: string, s: Pairs): (n: nat)
    ensures n <= |s|
  {
    if s == [] then 0
    else AppCount(prefix, s[..|s| - 1]) + (if prefix <= s[|s| - 1].0 then 1 else 0)
  }

  /** The entries without the application prefix, in order. */
  function NonApp(prefix: string, s: Pairs): Pairs
  {
    if s == [] then []
    else NonApp(prefix, s[..|s| - 1]) + (if prefix <= s[|s| - 1].0 then [] else [s[|s| - 1]])
  }

  /**
   * The attribute loop of `tagEvent`: entries are stored in iteration
   * order (ascending key order for a TreeMap), and an application-prefixed
   * entry is skipped once `max` of them have been counted; other keys are
   * never counted.
   */
  function Capped(prefix: string, s: Pairs, max: nat): Pairs
  {
    if s == [] then []
    else
      var init := s[..|s| - 1];
      var x := s[|s| - 1];
      Capped(prefix, init, max) + (if prefix <= x.0 && AppCount(prefix, init) >= max then [] else [x])
  }

  /** One more entry of the attribute loop. */
  lemma CappedSnoc(prefix: string, s: Pairs, j: nat, max: nat)
    requires j < |s|
    ensures Capped(prefix, s[..j + 1], max) ==
      Capped(prefix, s[..j], max) + (if prefix <= s[j].0 && AppCount(prefix, s[..j]) >= max then [] else [s[j]])
    ensures AppCount(prefix, s[..j + 1]) == AppCount(prefix, s[..j]) + (if prefix <= s[j].0 then 1 else 0)
  {
    assert s[..j + 1][..j] == s[..j];
  }

  /** Attribute rows inserted for event `e`, one per entry, in order. */
  function InsertAttributes(db: Db, e: nat, s: Pairs): (r: Db)
    ensures r == db.(attributes := r.attributes, nextAttribute := r.nextAttribute)
    ensures r.nextAttribute == db.nextAttribute + |s|
  {
    if s == [] then db
    else
      var x := s[|s| - 1];
      InsertAttribute(InsertAttributes(db, e, s[..|s| - 1]), Attribute(e, x.0, x.1))
  }

  /** Inserting attribute rows keeps every existing row below the counter and uses only fresh ids. */
  lemma {:induction false} InsertAttributesFrame(db: Db, e: nat, s: Pairs)
    ensures forall a :: a in db.attributes && a < db.nextAttribute ==>
      a in InsertAttributes(db, e, s).attributes && InsertAttributes(db, e, s).attributes[a] == db.attributes[a]
    ensures forall a :: a in InsertAttributes(db, e, s).attributes ==>
      a in db.attributes || db.nextAttribute <= a < db.nextAttribute + |s|
  {
    if s != [] {
      var init := s[..|s| - 1];
      var x := s[|s| - 1];
      var mid := InsertAttributes(db, e, init);
      InsertAttributesFrame(db, e, init);
      assert InsertAttributes(db, e, s) == InsertAttribute(mid, Attribute(e, x.0, x.1));
    }
  }

  lemma InsertAttributesSnoc(db: Db, e: nat, a: Pairs, x: (string, string))
    ensures InsertAttributes(db, e, a + [x]) == InsertAttribute(InsertAttributes(db, e, a), Attribute(e, x.0, x.1))
  {
    assert (a + [x])[..|a|] == a;
  }

  /** The event row `tagEvent` writes into open session `s`. */
  function NewEvent(db: Db, now: int, s: nat, name: EventName, clv: Option<int>): Event
    requires s in db.sessions
  {
    Event(s, name,
          if name == OpenEvent then db.sessions[s].startWallTime else now,
          if clv.None? then 0 else clv.value,
          if db.identifiers == map[] then None else Some(db.identifiers))
  }

  /** The event row and its attribute rows. */
  function RecordEvent(db: Db, cfg: Config, now: int, s: nat, name: EventName, attrs: Option<Pairs>, clv: Option<int>): Db
    requires s in db.sessions
  {
    var e := db.nextEvent;
    var db1 := InsertEvent(db, NewEvent(db, now, s, name, clv));
    match Sticky(db.dimensions, attrs)
    case None => db1
    case Some(all) => InsertAttributes(db1, e, Capped(Text.AppPrefix(cfg.packageName), all, cfg.maxAttributes))
  }

  /** Rank of a tag for the mutual recursion with the flow marker. */
  function TagRank(name: EventName): nat
  {
    if name.AppEvent? then 2 else 0
  }

  /**
   * `tagEvent`: nothing without an open session; otherwise the event and
   * its attributes, and for an application event a history row followed
   * by the flow-marker rule.
   */
  function TagEventSpec(db: Db, cfg: Config, now: int, name: EventName, attrs: Option<Pairs>, clv: Option<int>): Db
    decreases TagRank(name)
  {
    match OpenSessionId(db)
    case None => db
    case Some(s) =>
      var db1 := RecordEvent(db, cfg, now, s, name, attrs, clv);
      if name.AppEvent? then FlowSpec(InsertHistory(db1, HistoryRow(s, EventKind, name.name, None)), cfg, now)
      else db1
  }

  // ---------------------------------------------------------------------------
  // The flow marker
  // ---------------------------------------------------------------------------

  predicate UnlinkedFlow(db: Db, e: nat)
  {
    e in db.events && db.events[e].name == FlowEvent && !IsLinked(db, e)
  }

  /** The join in `conditionallyAddFlowEvent` finds a flow event no blob holds. */
  predicate HasUnlinkedFlow(db: Db)
  {
    exists e: nat :: e < db.nextEvent && UnlinkedFlow(db, e)
  }

  /** `conditionallyAddFlowEvent`: tag a flow event unless an unclaimed one exists. */
  function FlowSpec(db: Db, cfg: Config, now: int): Db
    decreases 1
  {
    if HasUnlinkedFlow(db) then db else TagEventSpec(db, cfg, now, FlowEvent, None, None)
  }

  // ---------------------------------------------------------------------------
  // tagScreen
  // ---------------------------------------------------------------------------

  predicate IsScreenOf(db: Db, s: nat, h: nat)
  {
    h in db.history && db.history[h].session == s && db.history[h].kind == ScreenKind
  }

  /** The newest screen row of session `s` with id below `n`. */
  function LastScreenBelow(db: Db, s: nat, n: nat): (r: Option<nat>)
    ensures r.Some? ==> r.value < n && IsScreenOf(db, s, r.value) && forall h :: r.value < h < n ==> !IsScreenOf(db, s, h)
    ensures r.None? ==> forall h: nat :: h < n ==> !IsScreenOf(db, s, h)
  {
    if n == 0 then None
    else if IsScreenOf(db, s, n - 1) then Some(n - 1)
    else LastScreenBelow(db, s, n - 1)
  }

  function LastScreen(db: Db, s: nat): Option<nat>
  {
    LastScreenBelow(db, s, db.nextHistory)
  }

  /** `tagScreen`: a screen equal to the session's latest screen row is dropped. */
  function TagScreenSpec(db: Db, cfg: Config, now: int, screen: string): Db
  {
    match OpenSessionId(db)
    case None => db
    case Some(s) =>
      var last := LastScreen(db, s);
      if last.Some? && db.history[last.value].name == screen then db
      else FlowSpec(InsertHistory(db, HistoryRow(s, ScreenKind, screen, None)), cfg, now)
  }

  // ---------------------------------------------------------------------------
  // close
  // ---------------------------------------------------------------------------

  function CloseSpec(db: Db, cfg: Config, now: int, attrs: Option<Pairs>): Db
  {
    if OpenSessionId(db).None? then db else TagEventSpec(db, cfg, now, CloseEvent, attrs, None)
  }

  // ---------------------------------------------------------------------------
  // open
  // ---------------------------------------------------------------------------

  /** A close event the reconnect join of `open` accepts: recent and not yet in a blob. */
  predicate Reconnectable(db: Db, threshold: int, e: nat)
  {
    e in db.events && db.events[e].name == CloseEvent && db.events[e].wallTime >= threshold && !IsLinked(db, e)
  }

  /** The largest reconnectable close event id below `n`. */
  function ReconnectBelow(db: Db, threshold: int, n: nat): (r: Option<nat>)
    ensures r.Some? ==> (r.value < n && Reconnectable(db, threshold, r.value) &&
                         forall e :: r.value < e < n ==> !Reconnectable(db, threshold, e))
    ensures r.None? ==> forall e: nat :: e < n ==> !Reconnectable(db, threshold, e)
  {
    if n == 0 then None
    else if Reconnectable(db, threshold, n - 1) then Some(n - 1)
    else ReconnectBelow(db, threshold, n - 1)
  }

  function ReconnectCandidate(db: Db, cfg: Config, now: int): Option<nat>
  {
    ReconnectBelow(db, now - cfg.expiration, db.nextEvent)
  }

  /** `openClosedSession`: the close event's attributes, then the event itself, are deleted. */
  function ReopenSpec(db: Db, e: nat): Db
  {
    RemoveEvent(RemoveAttributesOf(db, e), e)
  }

  /**
   * `openNewSession`: a session stamped `now` whose elapsed time is
   * measured from the last recorded open (or is zero when none was
   * recorded), the new last-open time, and the open event.
   */
  function OpenNewSpec(db: Db, cfg: Config, now: int, attrs: Option<Pairs>): Db
  {
    TagEventSpec(WithNewSession(db, now), cfg, now, OpenEvent, attrs, None)
  }

  /** The session row of `openNewSession` and the new last-open time. */
  function WithNewSession(db: Db, now: int): Db
  {
    var last := if db.lastSessionOpenTime == 0 then now else db.lastSessionOpenTime;
    InsertSession(db, Session(now, now - last)).(lastSessionOpenTime := now)
  }

  /**
   * `open`. The latest session is never empty on the path that would
   * clean it up (see `Sessions.SessionHandler.Open`), so that branch does
   * not appear here.
   */
  function OpenSpec(db: Db, cfg: Config, now: int, ignoreLimits: bool, attrs: Option<Pairs>): Db
  {
    if OpenSessionId(db).Some? || db.optedOut then db
    else match ReconnectCandidate(db, cfg, now)
      case Some(e) => ReopenSpec(db, e)
      case None =>
        var latest := LatestSession(db);
        if latest.Some? && db.sessions[latest.value].startWallTime >= now - cfg.expiration then db
        else if !ignoreLimits && |db.sessions| >= cfg.maxSessions then db
        else OpenNewSpec(db, cfg, now, attrs)
  }

  /** With no open session and not opted out, a reconnectable close event makes `open` reopen its session. */
  lemma OpenSpecReconnects(db: Db, cfg: Config, now: int, ignoreLimits: bool, attrs: Option<Pairs>, e: nat)
    requires OpenSessionId(db).None? && !db.optedOut && ReconnectCandidate(db, cfg, now) == Some(e)
    ensures OpenSpec(db, cfg, now, ignoreLimits, attrs) == ReopenSpec(db, e)
  {
  }

  /** Past every check, `open` opens a new session. */
  lemma OpenSpecOpensNew(db: Db, cfg: Config, now: int, ignoreLimits: bool, attrs: Option<Pairs>)
    requires OpenSessionId(db).None? && !db.optedOut && ReconnectCandidate(db, cfg, now).None?
    requires LatestSession(db).None? || db.sessions[LatestSession(db).value].startWallTime < now - cfg.expiration
    requires ignoreLimits || |db.sessions| < cfg.maxSessions
    ensures OpenSpec(db, cfg, now, ignoreLimits, attrs) == OpenNewSpec(db, cfg, now, attrs)
  {
  }

  // ---------------------------------------------------------------------------
  // Message handlers built from the above
  // ---------------------------------------------------------------------------

  /** Opting in or out: nothing when unchanged; else the opt event (in a forced session if none is open), then the flag. */
  function OptOutSpec(db: Db, cfg: Config, now: int, optingOut: bool): Db
  {
    if db.optedOut == optingOut then db
    else
      var name := if optingOut then OptOutEvent else OptInEvent;
      var db1 :=
        if OpenSessionId(db).None? then
          CloseSpec(TagEventSpec(OpenSpec(db, cfg, now, true, None), cfg, now, name, None, None), cfg, now, None)
        else TagEventSpec(db, cfg, now, name, None, None);
      db1.(optedOut := optingOut)
  }

  /** The tag-event message: straight into the open session, or wrapped in open and close. */
  function TagEventMessageSpec(db: Db, cfg: Config, now: int, name: EventName, attrs: Option<Pairs>,
                               openClose: Option<Pairs>, clv: Option<int>): Db
  {
    if OpenSessionId(db).Some? then TagEventSpec(db, cfg, now, name, attrs, clv)
    else CloseSpec(TagEventSpec(OpenSpec(db, cfg, now, false, openClose), cfg, now, name, attrs, clv), cfg, now, openClose)
  }

  /** `setCustomDimension`: indices outside 0..9 are ignored, null deletes, anything else is stored. */
  function SetCustomDimensionSpec(db: Db, dimension: int, value: Option<string>): Db
  {
    if dimension < 0 || dimension > 9 then db
    else if value.None? then db.(dimensions := db.dimensions - {dimension as nat})
    else db.(dimensions := db.dimensions[dimension as nat := value.value])
  }

  /** `getCustomDimension`. */
  function GetCustomDimension(db: Db, dimension: int): Option<string>
  {
    if dimension < 0 || dimension > 9 || dimension as nat !in db.dimensions then None
    else Some(db.dimensions[dimension as nat])
  }

  /** `setIdentifier`: null deletes the key, anything else is stored under it. */
  function SetIdentifierSpec(db: Db, key: string, value: Option<string>): Db
  {
    if value.None? then db.(identifiers := db.identifiers - {key})
    else db.(identifiers := db.identifiers[key := value.value])
  }

  // ---------------------------------------------------------------------------
  // preUploadBuildBlobs
  // ---------------------------------------------------------------------------

  /** An event the next blob takes: not in a blob yet, and not a close event younger than the expiration window. */
  predicate Eligible(db: Db, cfg: Config, now: int, e: nat)
  {
    e in db.events && !IsLinked(db, e) &&
    !(db.events[e].name == CloseEvent && now - db.events[e].wallTime < cfg.expiration)
  }

  /** The eligible event ids below `n`, ascending. */
  function EligibleBelow(db: Db, cfg: Config, now: int, n: nat): (r: seq<nat>)
    ensures forall i :: 0 <= i < |r| ==> r[i] < n && Eligible(db, cfg, now, r[i])
    ensures forall i, j :: 0 <= i < j < |r| ==> r[i] < r[j]
    ensures forall e: nat :: e < n && Eligible(db, cfg, now, e) ==> e in r
  {
    if n == 0 then []
    else EligibleBelow(db, cfg, now, n - 1) + (if Eligible(db, cfg, now, n - 1) then [n - 1] else [])
  }

  function EligibleEvents(db: Db, cfg: Config, now: int): seq<nat>
  {
    EligibleBelow(db, cfg, now, db.nextEvent)
  }

  /** One link row per event, in order, all into blob `b`. */
  function InsertLinks(db: Db, b: nat, es: seq<nat>): (r: Db)
    ensures r == db.(links := r.links, nextLink := r.nextLink)
    ensures r.nextLink == db.nextLink + |es|
  {
    if es == [] then db
    else InsertLink(InsertLinks(db, b, es[..|es| - 1]), Link(b, es[|es| - 1]))
  }

  /** `preUploadBuildBlobs`: a new blob holding every eligible event, claiming every unclaimed history row. */
  function BuildBlobsSpec(db: Db, cfg: Config, now: int): Db
  {
    var es := EligibleEvents(db, cfg, now);
    if es == [] then db
    else
      var b := db.nextBlob;
      StampHistory(InsertLinks(InsertBlob(db), b, es), b)
  }
}
