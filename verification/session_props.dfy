/**
 * What the session engine promises, proved about the `SessionSpec`
 * functions the handler methods are tied to.
 */
module SessionProperties {
  import opened Wrappers
  import opened Store
  import opened SessionSpec
  import opened TreeMaps
  import Text

  // ---------------------------------------------------------------------------
  // Attribute maps
  // ---------------------------------------------------------------------------

  /** A key the sticky loop over slots 0 .. n-1 can add: that of a stored slot. */
  predicate StoredSlotKey(dims: map<nat, string>, k: string, n: nat)
  {
    exists i :: 0 <= i < n && i < Text.MAX_CUSTOM_DIMENSIONS && i in dims && k == Text.DimensionKey(i)
  }

  /**
   * The sticky loop creates a map exactly when the caller passed one or a
   * slot is stored; its keys are the caller's plus the stored slots' keys,
   * and every caller key keeps the caller's value.
   */
  lemma {:induction false} StickyShape(dims: map<nat, string>, attrs: Option<Pairs>, n: nat)
    requires n <= Text.MAX_CUSTOM_DIMENSIONS
    ensures var r := StickyBelow(dims, attrs, n);
      (r.None? <==> attrs.None? && forall i :: 0 <= i < n ==> i !in dims) &&
      (r.Some? ==> forall k ::
        HasKey(r.value, k) <==> (attrs.Some? && HasKey(attrs.value, k)) || StoredSlotKey(dims, k, n)) &&
      (attrs.Some? ==> forall k :: HasKey(attrs.value, k) ==> Lookup(r.value, k) == Lookup(attrs.value, k))
  {
    if n > 0 {
      StickyShape(dims, attrs, n - 1);
      var a := StickyBelow(dims, attrs, n - 1);
      var key := Text.DimensionKey(n - 1);
      forall k
        ensures StoredSlotKey(dims, k, n) <==> StoredSlotKey(dims, k, n - 1) || (n - 1 in dims && k == key)
      {
        if StoredSlotKey(dims, k, n) {
          var i :| 0 <= i < n && i < Text.MAX_CUSTOM_DIMENSIONS && i in dims && k == Text.DimensionKey(i);
          if i < n - 1 {
            assert StoredSlotKey(dims, k, n - 1);
          }
        }
      }
      if n - 1 in dims {
        var m := if a.None? then [] else a.value;
        if !HasKey(m, key) {
          PutLookup(m, key, dims[n - 1]);
        }
      }
    }
  }

  /** The sticky loop keeps a TreeMap in key order. */
  lemma {:induction false} StickySorted(dims: map<nat, string>, attrs: Option<Pairs>, n: nat)
    requires n <= Text.MAX_CUSTOM_DIMENSIONS
    requires attrs.Some? ==> Sorted(attrs.value)
    ensures StickyBelow(dims, attrs, n).Some? ==> Sorted(StickyBelow(dims, attrs, n).value)
  {
    if n > 0 {
      StickySorted(dims, attrs, n - 1);
      var a := StickyBelow(dims, attrs, n - 1);
      if n - 1 in dims {
        var m := if a.None? then [] else a.value;
        PutSorted(m, Text.DimensionKey(n - 1), dims[n - 1]);
      }
    }
  }

  /** The value a stored slot ends up with: the caller's, when the caller has that key. */
  function SlotOutcome(dims: map<nat, string>, attrs: Option<Pairs>, i: nat): Option<string>
    requires i < Text.MAX_CUSTOM_DIMENSIONS && i in dims
  {
    if attrs.Some? && HasKey(attrs.value, Text.DimensionKey(i)) then Lookup(attrs.value, Text.DimensionKey(i))
    else Some(dims[i])
  }

  /** Step `n - 1` of the sticky loop settles slot `n - 1` when it is stored. */
  lemma StickyLastSlot(dims: map<nat, string>, attrs: Option<Pairs>, n: nat)
    requires 0 < n <= Text.MAX_CUSTOM_DIMENSIONS && n - 1 in dims
    ensures StickyBelow(dims, attrs, n).Some?
    ensures Lookup(StickyBelow(dims, attrs, n).value, Text.DimensionKey(n - 1)) == SlotOutcome(dims, attrs, n - 1)
  {
    StickyShape(dims, attrs, n - 1);
    var a := StickyBelow(dims, attrs, n - 1);
    var key := Text.DimensionKey(n - 1);
    var m := if a.None? then [] else a.value;
    if HasKey(m, key) {
      // The slot's key is already present: it can only be the caller's.
      assert attrs.Some? && HasKey(attrs.value, key) by {
        if !(attrs.Some? && HasKey(attrs.value, key)) {
          assert StoredSlotKey(dims, key, n - 1);
          var i :| 0 <= i < n - 1 && i < Text.MAX_CUSTOM_DIMENSIONS && i in dims && key == Text.DimensionKey(i);
          Text.DimensionKeysDistinct(i, n - 1);
        }
      }
    } else {
      PutLookup(m, key, dims[n - 1]);
    }
  }

  /** Step `n - 1` of the sticky loop leaves the lookups of earlier slots as they were. */
  lemma StickyEarlierSlot(dims: map<nat, string>, attrs: Option<Pairs>, n: nat, i: nat)
    requires i < n - 1 && n <= Text.MAX_CUSTOM_DIMENSIONS && StickyBelow(dims, attrs, n - 1).Some?
    ensures StickyBelow(dims, attrs, n).Some?
    ensures Lookup(StickyBelow(dims, attrs, n).value, Text.DimensionKey(i)) ==
      Lookup(StickyBelow(dims, attrs, n - 1).value, Text.DimensionKey(i))
  {
    var m := StickyBelow(dims, attrs, n - 1).value;
    var key := Text.DimensionKey(n - 1);
    if n - 1 in dims && !HasKey(m, key) {
      PutLookup(m, key, dims[n - 1]);
      Text.DimensionKeysDistinct(i, n - 1);
    }
  }

  /**
   * The sticky-dimension loop, slot by slot: every stored slot ends up
   * present, carrying the caller's value when the caller had that key
   * and the stored value otherwise.
   */
  lemma {:induction false} StickyLookup(dims: map<nat, string>, attrs: Option<Pairs>, n: nat)
    requires n <= Text.MAX_CUSTOM_DIMENSIONS
    ensures forall i :: 0 <= i < n && i in dims ==>
      StickyBelow(dims, attrs, n).Some? &&
      Lookup(StickyBelow(dims, attrs, n).value, Text.DimensionKey(i)) ==
        (if attrs.Some? && HasKey(attrs.value, Text.DimensionKey(i)) then Lookup(attrs.value, Text.DimensionKey(i))
         else Some(dims[i]))
  {
    if n > 0 {
      StickyLookup(dims, attrs, n - 1);
      forall i | 0 <= i < n && i in dims
        ensures StickyBelow(dims, attrs, n).Some?
        ensures Lookup(StickyBelow(dims, attrs, n).value, Text.DimensionKey(i)) == SlotOutcome(dims, attrs, i)
      {
        if i == n - 1 {
          StickyLastSlot(dims, attrs, n);
        } else {
          StickyEarlierSlot(dims, attrs, n, i);
        }
      }
    }
  }

  /**
   * The whole sticky loop: the caller's entries keep their values (so the
   * caller's value for a dimension key beats the stored one), every stored
   * slot is present, nothing else is added, and a TreeMap stays in key order.
   */
  lemma StickyCallerWins(dims: map<nat, string>, attrs: Option<Pairs>)
    ensures attrs.Some? ==>
      Sticky(dims, attrs).Some? &&
      forall k :: HasKey(attrs.value, k) ==> Lookup(Sticky(dims, attrs).value, k) == Lookup(attrs.value, k)
    ensures forall i :: 0 <= i < Text.MAX_CUSTOM_DIMENSIONS && i in dims ==>
      Sticky(dims, attrs).Some? &&
      Lookup(Sticky(dims, attrs).value, Text.DimensionKey(i)) ==
        (if attrs.Some? && HasKey(attrs.value, Text.DimensionKey(i)) then Lookup(attrs.value, Text.DimensionKey(i))
         else Some(dims[i]))
    ensures Sticky(dims, attrs).None? <==> attrs.None? && forall i :: 0 <= i < Text.MAX_CUSTOM_DIMENSIONS ==> i !in dims
    ensures Sticky(dims, attrs).Some? ==> forall k ::
      HasKey(Sticky(dims, attrs).value, k) <==>
        (attrs.Some? && HasKey(attrs.value, k)) || StoredSlotKey(dims, k, Text.MAX_CUSTOM_DIMENSIONS)
    ensures (attrs.Some? ==> Sorted(attrs.value)) && Sticky(dims, attrs).Some? ==> Sorted(Sticky(dims, attrs).value)
  {
    StickyShape(dims, attrs, Text.MAX_CUSTOM_DIMENSIONS);
    StickyLookup(dims, attrs, Text.MAX_CUSTOM_DIMENSIONS);
    if attrs.Some? ==> Sorted(attrs.value) {
      StickySorted(dims, attrs, Text.MAX_CUSTOM_DIMENSIONS);
    }
  }

  /**
   * Running the sticky loop on its own result changes nothing: every stored
   * slot's key is already present.
   */
  lemma {:induction false} StickyIdempotentBelow(dims: map<nat, string>, attrs: Option<Pairs>, n: nat)
    requires n <= Text.MAX_CUSTOM_DIMENSIONS
    ensures StickyBelow(dims, Sticky(dims, attrs), n) == Sticky(dims, attrs)
  {
    if n > 0 {
      StickyIdempotentBelow(dims, attrs, n - 1);
      StickyShape(dims, attrs, Text.MAX_CUSTOM_DIMENSIONS);
      if n - 1 in dims {
        assert StoredSlotKey(dims, Text.DimensionKey(n - 1), Text.MAX_CUSTOM_DIMENSIONS);
      }
    }
  }

  lemma StickyIdempotent(dims: map<nat, string>, attrs: Option<Pairs>)
    ensures Sticky(dims, Sticky(dims, attrs)) == Sticky(dims, attrs)
  {
    StickyIdempotentBelow(dims, attrs, Text.MAX_CUSTOM_DIMENSIONS);
  }

  lemma SnocCounts(prefix: string, a: Pairs, x: (string, string))
    ensures AppCount(prefix, a + [x]) == AppCount(prefix, a) + (if prefix <= x.0 then 1 else 0)
    ensures NonApp(prefix, a + [x]) == NonApp(prefix, a) + (if prefix <= x.0 then [] else [x])
  {
    assert (a + [x])[..|a|] == a;
  }

  /**
   * The attribute cap: every entry without the application prefix is
   * stored, in order, and the application entries stored number the
   * smaller of how many there were and the cap.
   */
  lemma {:induction false} CappedFacts(prefix: string, s: Pairs, max: nat)
    ensures NonApp(prefix, Capped(prefix, s, max)) == NonApp(prefix, s)
    ensures AppCount(prefix, Capped(prefix, s, max)) ==
      if AppCount(prefix, s) < max then AppCount(prefix, s) else max
  {
    if s != [] {
      var init := s[..|s| - 1];
      var x := s[|s| - 1];
      assert s == init + [x];
      SnocCounts(prefix, init, x);
      CappedFacts(prefix, init, max);
      var c := Capped(prefix, init, max);
      if prefix <= x.0 && AppCount(prefix, init) >= max {
        assert Capped(prefix, s, max) == c + [];
        assert c + [] == c;
      } else {
        assert Capped(prefix, s, max) == c + [x];
        SnocCounts(prefix, c, x);
      }
    }
  }

  /**
   * Whether the attribute loop stores entry j: it is not an application
   * entry, or fewer than `max` application entries came before it.
   */
  predicate KeptByCap(prefix: string, s: Pairs, max: nat, j: nat)
    requires j < |s|
  {
    !(prefix <= s[j].0) || AppCount(prefix, s[..j]) < max
  }

  /**
   * The capped entries are the subsequence of `s`, in order, made of the
   * entries the loop keeps: `idx` lists their positions.
   */
  lemma {:induction false} CappedSubsequence(prefix: string, s: Pairs, max: nat) returns (idx: seq<nat>)
    ensures |idx| == |Capped(prefix, s, max)|
    ensures forall t :: 0 <= t < |idx| ==> idx[t] < |s| && Capped(prefix, s, max)[t] == s[idx[t]]
    ensures forall t, u :: 0 <= t < u < |idx| ==> idx[t] < idx[u]
    ensures forall j :: 0 <= j < |s| ==> (j in idx <==> KeptByCap(prefix, s, max, j))
  {
    if s == [] {
      idx := [];
    } else {
      var n := |s| - 1;
      var init := s[..n];
      var idx0 := CappedSubsequence(prefix, init, max);
      CappedSnoc(prefix, s, n, max);
      assert s[..n + 1] == s;
      forall j | 0 <= j < n
        ensures KeptByCap(prefix, init, max, j) == KeptByCap(prefix, s, max, j)
      {
        assert init[..j] == s[..j];
      }
      if KeptByCap(prefix, s, max, n) {
        idx := idx0 + [n];
      } else {
        idx := idx0;
      }
    }
  }

  /** Application entries only accumulate along the loop. */
  lemma {:induction false} AppCountMonotone(prefix: string, s: Pairs, i: nat, j: nat)
    requires i <= j <= |s|
    ensures AppCount(prefix, s[..i]) <= AppCount(prefix, s[..j])
  {
    if i < j {
      AppCountMonotone(prefix, s, i, j - 1);
      CappedSnoc(prefix, s, j - 1, 0);
    }
  }

  /**
   * On a TreeMap's entries (ascending keys) the cap keeps the entries in
   * key order, and every application key it keeps lies alphabetically
   * before every application key it skips: the `max` smallest are stored.
   */
  lemma CappedKeepsSmallest(prefix: string, s: Pairs, max: nat)
    requires Sorted(s)
    ensures Sorted(Capped(prefix, s, max))
    ensures forall i, j ::
      0 <= i < |s| && 0 <= j < |s| && prefix <= s[i].0 && prefix <= s[j].0 &&
      KeptByCap(prefix, s, max, i) && !KeptByCap(prefix, s, max, j)
      ==> KeyLess(s[i].0, s[j].0)
  {
    var c := Capped(prefix, s, max);
    var idx := CappedSubsequence(prefix, s, max);
    forall t, u | 0 <= t < u < |c|
      ensures KeyLess(c[t].0, c[u].0)
    {
      assert c[t] == s[idx[t]] && c[u] == s[idx[u]];
    }
    forall i, j | 0 <= i < |s| && 0 <= j < |s| && prefix <= s[i].0 && prefix <= s[j].0 &&
        KeptByCap(prefix, s, max, i) && !KeptByCap(prefix, s, max, j)
      ensures KeyLess(s[i].0, s[j].0)
    {
      if j <= i {
        AppCountMonotone(prefix, s, j, i);
      }
    }
  }

  /**
   * With a cap of one application attribute, "p:a" is stored and "p:b" is
   * skipped, although "p:b" was put into the TreeMap first.
   */
  lemma CapKeepsAlphabeticallyFirst()
    ensures Capped("p:", PutAll([], [("p:b", "1"), ("p:a", "2")]), 1) == [("p:a", "2")]
  {
  }

  // ---------------------------------------------------------------------------
  // Store invariant, one step at a time
  // ---------------------------------------------------------------------------

  lemma InsertEventValid(db: Db, ev: Event)
    requires Valid(db) && ev.session < db.nextSession
    ensures Valid(InsertEvent(db, ev)) && db.nextEvent !in db.events
  {
    var r := InsertEvent(db, ev);
    forall l | l in r.links ensures r.links[l].blob in r.blobs && r.links[l].event in r.events {
      assert db.links[l].event in db.events;
    }
  }

  lemma InsertAttributesValid(db: Db, e: nat, s: Pairs)
    requires Valid(db)
    ensures Valid(InsertAttributes(db, e, s))
  {
    InsertAttributesFrame(db, e, s);
    var r := InsertAttributes(db, e, s);
    assert r.links == db.links && r.events == db.events && r.blobs == db.blobs;
    forall a | a in r.attributes ensures a < r.nextAttribute { }
  }

  /** Recording an event in an existing session keeps the invariant and touches only events and attributes. */
  lemma RecordEventValid(db: Db, cfg: Config, now: int, s: nat, name: EventName, attrs: Option<Pairs>, clv: Option<int>)
    requires Valid(db) && s in db.sessions
    ensures var r := RecordEvent(db, cfg, now, s, name, attrs, clv);
      Valid(r) && db.nextEvent !in db.events &&
      r == db.(events := db.events[db.nextEvent := NewEvent(db, now, s, name, clv)], nextEvent := db.nextEvent + 1,
               attributes := r.attributes, nextAttribute := r.nextAttribute)
  {
    var db1 := InsertEvent(db, NewEvent(db, now, s, name, clv));
    InsertEventValid(db, NewEvent(db, now, s, name, clv));
    match Sticky(db.dimensions, attrs)
    case None =>
    case Some(all) =>
      InsertAttributesValid(db1, db.nextEvent, Capped(Text.AppPrefix(cfg.packageName), all, cfg.maxAttributes));
  }

  /** With no close event added, the open session stays open. */
  lemma RecordKeepsOpen(db: Db, cfg: Config, now: int, s: nat, name: EventName, attrs: Option<Pairs>, clv: Option<int>)
    requires Valid(db) && OpenSessionId(db) == Some(s) && name != CloseEvent
    ensures OpenSessionId(RecordEvent(db, cfg, now, s, name, attrs, clv)) == Some(s)
  {
    RecordEventValid(db, cfg, now, s, name, attrs, clv);
    var r := RecordEvent(db, cfg, now, s, name, attrs, clv);
    assert LatestSession(r) == LatestSession(db);
    forall e | e in r.events && r.events[e].session == s ensures r.events[e].name != CloseEvent {
      if e != db.nextEvent {
        assert r.events[e] == db.events[e];
      }
    }
  }

  /** A flow event recorded in an open session is one no blob holds. */
  lemma RecordFlowUnlinked(db: Db, cfg: Config, now: int, s: nat)
    requires Valid(db) && s in db.sessions
    ensures UnlinkedFlow(RecordEvent(db, cfg, now, s, FlowEvent, None, None), db.nextEvent)
  {
    RecordEventValid(db, cfg, now, s, FlowEvent, None, None);
    var r := RecordEvent(db, cfg, now, s, FlowEvent, None, None);
    forall l | l in r.links ensures r.links[l].event != db.nextEvent {
      assert db.links[l].event in db.events;
    }
  }

  lemma FlowValid(db: Db, cfg: Config, now: int)
    requires Valid(db)
    ensures Valid(FlowSpec(db, cfg, now))
    ensures FlowSpec(db, cfg, now).history == db.history && FlowSpec(db, cfg, now).nextHistory == db.nextHistory
    ensures FlowSpec(db, cfg, now).sessions == db.sessions && FlowSpec(db, cfg, now).links == db.links
    ensures forall e :: e in db.events ==> e in FlowSpec(db, cfg, now).events && FlowSpec(db, cfg, now).events[e] == db.events[e]
  {
    if !HasUnlinkedFlow(db) {
      match OpenSessionId(db)
      case None =>
      case Some(s) =>
        RecordEventValid(db, cfg, now, s, FlowEvent, None, None);
    }
  }

  /** With session `s` open, `tagEvent` of an event that is not an application event only records it. */
  lemma TagEventShape(db: Db, cfg: Config, now: int, name: EventName, attrs: Option<Pairs>, clv: Option<int>, s: nat)
    requires OpenSessionId(db) == Some(s) && !name.AppEvent?
    ensures s in db.sessions
    ensures TagEventSpec(db, cfg, now, name, attrs, clv) == RecordEvent(db, cfg, now, s, name, attrs, clv)
  {
  }

  /** With session `s` open, `tagEvent` of an application event records it, adds its history row, then runs the flow marker. */
  lemma TagEventAppShape(db: Db, cfg: Config, now: int, name: EventName, attrs: Option<Pairs>, clv: Option<int>, s: nat)
    requires OpenSessionId(db) == Some(s) && name.AppEvent?
    ensures s in db.sessions
    ensures TagEventSpec(db, cfg, now, name, attrs, clv) ==
      FlowSpec(InsertHistory(RecordEvent(db, cfg, now, s, name, attrs, clv), HistoryRow(s, EventKind, name.name, None)), cfg, now)
  {
  }

  /** `tagEvent` keeps the store invariant. */
  lemma TagEventValid(db: Db, cfg: Config, now: int, name: EventName, attrs: Option<Pairs>, clv: Option<int>)
    requires Valid(db)
    ensures Valid(TagEventSpec(db, cfg, now, name, attrs, clv))
  {
    match OpenSessionId(db)
    case None =>
    case Some(s) =>
      RecordEventValid(db, cfg, now, s, name, attrs, clv);
      if name.AppEvent? {
        var db1 := RecordEvent(db, cfg, now, s, name, attrs, clv);
        FlowValid(InsertHistory(db1, HistoryRow(s, EventKind, name.name, None)), cfg, now);
      }
  }

  // ---------------------------------------------------------------------------
  // The open session and close
  // ---------------------------------------------------------------------------

  /** A session is open exactly when it is the highest-id session and has no close event. */
  lemma OpenSessionIdMeaning(db: Db, s: nat)
    requires Valid(db)
    ensures OpenSessionId(db) == Some(s) <==>
      s in db.sessions && (forall k :: k in db.sessions ==> k <= s) && !HasCloseEvent(db, s)
  {
    if s in db.sessions && (forall k :: k in db.sessions ==> k <= s) && !HasCloseEvent(db, s) {
      var latest := LatestSession(db);
      assert latest.Some?;
      assert latest.value == s;
    }
  }

  /** After `close` no session is open, whatever the store held. */
  lemma CloseLeavesNoOpenSession(db: Db, cfg: Config, now: int, attrs: Option<Pairs>)
    ensures OpenSessionId(CloseSpec(db, cfg, now, attrs)).None?
  {
    match OpenSessionId(db)
    case None =>
    case Some(s) =>
      var r := CloseSpec(db, cfg, now, attrs);
      assert r == RecordEvent(db, cfg, now, s, CloseEvent, attrs, None);
      assert r.events[db.nextEvent].session == s;
      assert LatestSession(r) == Some(s);
      assert HasCloseEvent(r, s);
  }

  /** A second `close` changes nothing. */
  lemma CloseIdempotent(db: Db, cfg: Config, now: int, attrs: Option<Pairs>, later: int, attrs2: Option<Pairs>)
    ensures CloseSpec(CloseSpec(db, cfg, now, attrs), cfg, later, attrs2) == CloseSpec(db, cfg, now, attrs)
  {
    CloseLeavesNoOpenSession(db, cfg, now, attrs);
  }

  /** `close` of an open session appends exactly one close event to it and touches no other table but attributes. */
  lemma CloseAppendsOneCloseEvent(db: Db, cfg: Config, now: int, attrs: Option<Pairs>)
    requires Valid(db) && OpenSessionId(db).Some?
    ensures var s := OpenSessionId(db).value; var r := CloseSpec(db, cfg, now, attrs);
      r.events == db.events[db.nextEvent := Event(s, CloseEvent, now, 0, if db.identifiers == map[] then None else Some(db.identifiers))] &&
      db.nextEvent !in db.events &&
      r == db.(events := r.events, nextEvent := db.nextEvent + 1, attributes := r.attributes, nextAttribute := r.nextAttribute)
  {
    var s := OpenSessionId(db).value;
    RecordEventValid(db, cfg, now, s, CloseEvent, attrs, None);
  }

  lemma CloseValid(db: Db, cfg: Config, now: int, attrs: Option<Pairs>)
    requires Valid(db)
    ensures Valid(CloseSpec(db, cfg, now, attrs))
  {
    TagEventValid(db, cfg, now, CloseEvent, attrs, None);
  }

  // ---------------------------------------------------------------------------
  // The flow marker
  // ---------------------------------------------------------------------------

  function FlowEvents(db: Db): set<nat>
  {
    set e | e in db.events && db.events[e].name == FlowEvent
  }

  /** In an open session, the flow-marker rule always leaves an unclaimed flow event. */
  lemma FlowMarkerPresent(db: Db, cfg: Config, now: int)
    requires Valid(db) && OpenSessionId(db).Some?
    ensures HasUnlinkedFlow(FlowSpec(db, cfg, now))
  {
    if !HasUnlinkedFlow(db) {
      var s := OpenSessionId(db).value;
      RecordFlowUnlinked(db, cfg, now, s);
      var r := RecordEvent(db, cfg, now, s, FlowEvent, None, None);
      assert FlowSpec(db, cfg, now) == r;
      assert db.nextEvent < r.nextEvent;
    }
  }

  /** An unclaimed flow event stays unclaimed and present while only events, attributes and history rows are added. */
  lemma UnlinkedFlowKept(db: Db, r: Db)
    requires HasUnlinkedFlow(db) && r.links == db.links && db.nextEvent <= r.nextEvent
    requires forall e :: e in db.events && e < db.nextEvent ==> e in r.events && r.events[e] == db.events[e]
    ensures HasUnlinkedFlow(r)
  {
    var e: nat :| e < db.nextEvent && UnlinkedFlow(db, e);
    assert UnlinkedFlow(r, e);
  }

  /** After `tagEvent` appends a history row, some flow event is unclaimed by any blob. */
  lemma TagEventLeavesFlowMarker(db: Db, cfg: Config, now: int, name: EventName, attrs: Option<Pairs>, clv: Option<int>)
    requires Valid(db)
    ensures var r := TagEventSpec(db, cfg, now, name, attrs, clv);
      r.nextHistory > db.nextHistory ==> HasUnlinkedFlow(r)
  {
    match OpenSessionId(db)
    case None =>
    case Some(s) =>
      RecordEventValid(db, cfg, now, s, name, attrs, clv);
      if name.AppEvent? {
        RecordKeepsOpen(db, cfg, now, s, name, attrs, clv);
        var db1 := RecordEvent(db, cfg, now, s, name, attrs, clv);
        var db2 := InsertHistory(db1, HistoryRow(s, EventKind, name.name, None));
        assert OpenSessionId(db2) == OpenSessionId(db1);
        FlowMarkerPresent(db2, cfg, now);
      }
  }

  /** After `tagScreen` appends a history row, some flow event is unclaimed by any blob. */
  lemma TagScreenLeavesFlowMarker(db: Db, cfg: Config, now: int, screen: string)
    requires Valid(db)
    ensures var r := TagScreenSpec(db, cfg, now, screen);
      r.nextHistory > db.nextHistory ==> HasUnlinkedFlow(r)
  {
    match OpenSessionId(db)
    case None =>
    case Some(s) =>
      var db2 := InsertHistory(db, HistoryRow(s, ScreenKind, screen, None));
      assert OpenSessionId(db2) == OpenSessionId(db);
      FlowMarkerPresent(db2, cfg, now);
  }

  /** While an unclaimed flow event exists, `tagEvent` of any other event adds no flow event. */
  lemma NoSecondFlowMarker(db: Db, cfg: Config, now: int, name: EventName, attrs: Option<Pairs>, clv: Option<int>)
    requires Valid(db) && HasUnlinkedFlow(db) && name != FlowEvent
    ensures FlowEvents(TagEventSpec(db, cfg, now, name, attrs, clv)) == FlowEvents(db)
  {
    match OpenSessionId(db)
    case None =>
    case Some(s) =>
      RecordEventValid(db, cfg, now, s, name, attrs, clv);
      var db1 := RecordEvent(db, cfg, now, s, name, attrs, clv);
      assert FlowEvents(db1) == FlowEvents(db);
      if name.AppEvent? {
        var db2 := InsertHistory(db1, HistoryRow(s, EventKind, name.name, None));
        UnlinkedFlowKept(db, db2);
      }
  }

  /** While an unclaimed flow event exists, `tagScreen` adds no flow event. */
  lemma NoSecondFlowMarkerOnScreen(db: Db, cfg: Config, now: int, screen: string)
    requires HasUnlinkedFlow(db)
    ensures FlowEvents(TagScreenSpec(db, cfg, now, screen)) == FlowEvents(db)
  {
    match OpenSessionId(db)
    case None =>
    case Some(s) =>
      var db2 := InsertHistory(db, HistoryRow(s, ScreenKind, screen, None));
      UnlinkedFlowKept(db, db2);
  }

  // ---------------------------------------------------------------------------
  // tagEvent and tagScreen
  // ---------------------------------------------------------------------------

  /**
   * `tagEvent` writes nothing without an open session; with one, the
   * event lands in it at the next event id, stamped with the session
   * start for an open event and `now` otherwise, with a zero customer
   * value when none is given.
   */
  lemma TagEventInsertsIntoOpenSession(db: Db, cfg: Config, now: int, name: EventName, attrs: Option<Pairs>, clv: Option<int>)
    requires Valid(db)
    ensures OpenSessionId(db).None? ==> TagEventSpec(db, cfg, now, name, attrs, clv) == db
    ensures OpenSessionId(db).Some? ==>
      var s := OpenSessionId(db).value; var r := TagEventSpec(db, cfg, now, name, attrs, clv);
      db.nextEvent in r.events && db.nextEvent !in db.events &&
      r.events[db.nextEvent].session == s && r.events[db.nextEvent].name == name &&
      r.events[db.nextEvent].wallTime == (if name == OpenEvent then db.sessions[s].startWallTime else now) &&
      r.events[db.nextEvent].clv == (if clv.Some? then clv.value else 0) &&
      (forall e :: e in db.events ==> e in r.events && r.events[e] == db.events[e]) &&
      r.sessions == db.sessions
  {
    match OpenSessionId(db)
    case None =>
    case Some(s) =>
      var db1 := RecordEvent(db, cfg, now, s, name, attrs, clv);
      RecordEventValid(db, cfg, now, s, name, attrs, clv);
      var r := TagEventSpec(db, cfg, now, name, attrs, clv);
      if name.AppEvent? {
        TagEventAppShape(db, cfg, now, name, attrs, clv, s);
        var db2 := InsertHistory(db1, HistoryRow(s, EventKind, name.name, None));
        assert Valid(db2);
        FlowValid(db2, cfg, now);
        assert r.events[db.nextEvent] == db1.events[db.nextEvent];
      } else {
        TagEventShape(db, cfg, now, name, attrs, clv, s);
      }
      assert r.events[db.nextEvent] == NewEvent(db, now, s, name, clv);
      forall e | e in db.events
        ensures e in r.events && r.events[e] == db.events[e]
      {
        assert db1.events[e] == db.events[e];
      }
  }

  /** `tagScreen` drops a screen equal to the newest screen row of the open session, and otherwise appends exactly that row. */
  lemma TagScreenAppendsOneRow(db: Db, cfg: Config, now: int, screen: string)
    requires Valid(db) && OpenSessionId(db).Some?
    ensures var s := OpenSessionId(db).value; var last := LastScreen(db, s); var r := TagScreenSpec(db, cfg, now, screen);
      if last.Some? && db.history[last.value].name == screen then r == db
      else r.history == db.history[db.nextHistory := HistoryRow(s, ScreenKind, screen, None)] &&
           db.nextHistory !in db.history
  {
    var s := OpenSessionId(db).value;
    var db2 := InsertHistory(db, HistoryRow(s, ScreenKind, screen, None));
    assert Valid(db2);
    FlowValid(db2, cfg, now);
  }

  lemma TagScreenValid(db: Db, cfg: Config, now: int, screen: string)
    requires Valid(db)
    ensures Valid(TagScreenSpec(db, cfg, now, screen))
  {
    match OpenSessionId(db)
    case None =>
    case Some(s) =>
      var db2 := InsertHistory(db, HistoryRow(s, ScreenKind, screen, None));
      assert Valid(db2);
      FlowValid(db2, cfg, now);
  }

  // ---------------------------------------------------------------------------
  // open
  // ---------------------------------------------------------------------------

  /**
   * The reconnect path of `open`: the candidate is the largest-id recent
   * close event no blob holds, and exactly it and its attributes are
   * deleted.
   */
  lemma OpenReconnects(db: Db, cfg: Config, now: int, ignoreLimits: bool, attrs: Option<Pairs>)
    requires OpenSessionId(db).None? && !db.optedOut && ReconnectCandidate(db, cfg, now).Some?
    ensures var e := ReconnectCandidate(db, cfg, now).value; var r := OpenSpec(db, cfg, now, ignoreLimits, attrs);
      Reconnectable(db, now - cfg.expiration, e) &&
      r.events == db.events - {e} &&
      (forall a :: a in r.attributes <==> a in db.attributes && db.attributes[a].event != e) &&
      r == db.(events := r.events, attributes := r.attributes)
  {
  }

  /** Reconnecting to the latest session's only close event reopens that session. */
  lemma ReconnectReopens(db: Db, cfg: Config, now: int, ignoreLimits: bool, attrs: Option<Pairs>, e: nat)
    requires OpenSessionId(db).None? && !db.optedOut && ReconnectCandidate(db, cfg, now) == Some(e)
    requires LatestSession(db) == Some(db.events[e].session)
    requires forall e' :: e' in db.events && e' != e && db.events[e'].session == db.events[e].session ==>
      db.events[e'].name != CloseEvent
    ensures OpenSessionId(OpenSpec(db, cfg, now, ignoreLimits, attrs)) == Some(db.events[e].session)
  {
    var r := OpenSpec(db, cfg, now, ignoreLimits, attrs);
    assert r == ReopenSpec(db, e);
    assert LatestSession(r) == LatestSession(db);
  }

  /** The session row `openNewSession` writes is the latest one, and it is open. */
  lemma NewSessionOpen(db: Db, now: int)
    requires Valid(db)
    ensures var db1 := WithNewSession(db, now);
      Valid(db1) && OpenSessionId(db1) == Some(db.nextSession) &&
      db1.sessions == db.sessions[db.nextSession := Session(now, now - (if db.lastSessionOpenTime == 0 then now else db.lastSessionOpenTime))] &&
      db1.nextSession == db.nextSession + 1 && db1.lastSessionOpenTime == now &&
      db1.nextEvent == db.nextEvent && db1.identifiers == db.identifiers
  {
    var db1 := WithNewSession(db, now);
    assert LatestSession(db1) == Some(db.nextSession);
    forall e | e in db1.events ensures db1.events[e].session != db.nextSession {
      assert db.events[e].session < db.nextSession;
    }
  }


  /** Tagging the open event into open session `s` records it there and leaves the session open and the session table alone. */
  lemma OpenEventRecorded(db: Db, cfg: Config, now: int, attrs: Option<Pairs>, s: nat)
    requires Valid(db) && OpenSessionId(db) == Some(s)
    ensures var r := TagEventSpec(db, cfg, now, OpenEvent, attrs, None);
      Valid(r) && OpenSessionId(r) == Some(s) &&
      r.sessions == db.sessions && r.nextSession == db.nextSession && r.lastSessionOpenTime == db.lastSessionOpenTime &&
      db.nextEvent in r.events &&
      r.events[db.nextEvent] == Event(s, OpenEvent, db.sessions[s].startWallTime, 0, if db.identifiers == map[] then None else Some(db.identifiers))
  {
    TagEventShape(db, cfg, now, OpenEvent, attrs, None, s);
    RecordEventValid(db, cfg, now, s, OpenEvent, attrs, None);
    RecordKeepsOpen(db, cfg, now, s, OpenEvent, attrs, None);
  }

  /** The new session `openNewSession` creates is the open session, holding its open event. */
  lemma OpenNewOpensSession(db: Db, cfg: Config, now: int, attrs: Option<Pairs>)
    requires Valid(db)
    ensures Valid(OpenNewSpec(db, cfg, now, attrs))
    ensures var r := OpenNewSpec(db, cfg, now, attrs);
      r.sessions == db.sessions[db.nextSession := Session(now, now - (if db.lastSessionOpenTime == 0 then now else db.lastSessionOpenTime))] &&
      r.nextSession == db.nextSession + 1 &&
      r.lastSessionOpenTime == now
    ensures OpenSessionId(OpenNewSpec(db, cfg, now, attrs)) == Some(db.nextSession)
    ensures var r := OpenNewSpec(db, cfg, now, attrs);
      db.nextEvent in r.events &&
      r.events[db.nextEvent] == Event(db.nextSession, OpenEvent, now, 0, if db.identifiers == map[] then None else Some(db.identifiers))
  {
    NewSessionOpen(db, now);
    OpenEventRecorded(WithNewSession(db, now), cfg, now, attrs, db.nextSession);
  }

  /**
   * `open` creates a session only when none is open, the key is not
   * opted out, nothing can be reconnected, the latest session is older
   * than the window, and `ignoreLimits` holds or the session count is
   * below the cap; it then creates exactly one.
   */
  lemma OpenCreatesOnlyUnderCap(db: Db, cfg: Config, now: int, ignoreLimits: bool, attrs: Option<Pairs>)
    requires Valid(db)
    ensures var r := OpenSpec(db, cfg, now, ignoreLimits, attrs);
      r.nextSession == db.nextSession || r.nextSession == db.nextSession + 1
    ensures var r := OpenSpec(db, cfg, now, ignoreLimits, attrs);
      r.nextSession != db.nextSession ==>
        OpenSessionId(db).None? && !db.optedOut && ReconnectCandidate(db, cfg, now).None? &&
        (LatestSession(db).None? || db.sessions[LatestSession(db).value].startWallTime < now - cfg.expiration) &&
        (ignoreLimits || |db.sessions| < cfg.maxSessions) &&
        OpenSessionId(r) == Some(db.nextSession)
  {
    OpenNewOpensSession(db, cfg, now, attrs);
  }

  lemma OpenValid(db: Db, cfg: Config, now: int, ignoreLimits: bool, attrs: Option<Pairs>)
    requires Valid(db)
    ensures Valid(OpenSpec(db, cfg, now, ignoreLimits, attrs))
  {
    if OpenSessionId(db).None? && !db.optedOut {
      match ReconnectCandidate(db, cfg, now)
      case Some(e) =>
        var r := ReopenSpec(db, e);
        forall l | l in r.links ensures r.links[l].event in r.events {
          assert db.links[l].event != e;
        }
      case None =>
        OpenNewOpensSession(db, cfg, now, attrs);
    }
  }

  // ---------------------------------------------------------------------------
  // Messages built from open, tagEvent and close
  // ---------------------------------------------------------------------------

  /** When no session is open, the tag-event message leaves none open. */
  lemma TagEventMessageLeavesNoOpenSession(db: Db, cfg: Config, now: int, name: EventName, attrs: Option<Pairs>,
                                           openClose: Option<Pairs>, clv: Option<int>)
    requires OpenSessionId(db).None?
    ensures OpenSessionId(TagEventMessageSpec(db, cfg, now, name, attrs, openClose, clv)).None?
  {
    var db1 := TagEventSpec(OpenSpec(db, cfg, now, false, openClose), cfg, now, name, attrs, clv);
    CloseLeavesNoOpenSession(db1, cfg, now, openClose);
  }

  lemma TagEventMessageValid(db: Db, cfg: Config, now: int, name: EventName, attrs: Option<Pairs>,
                             openClose: Option<Pairs>, clv: Option<int>)
    requires Valid(db)
    ensures Valid(TagEventMessageSpec(db, cfg, now, name, attrs, openClose, clv))
  {
    if OpenSessionId(db).Some? {
      TagEventValid(db, cfg, now, name, attrs, clv);
    } else {
      var db1 := OpenSpec(db, cfg, now, false, openClose);
      OpenValid(db, cfg, now, false, openClose);
      TagEventValid(db1, cfg, now, name, attrs, clv);
      CloseValid(TagEventSpec(db1, cfg, now, name, attrs, clv), cfg, now, openClose);
    }
  }

  /** Opting out or in always leaves the flag as requested and keeps the invariant. */
  lemma OptOutSetsFlag(db: Db, cfg: Config, now: int, optingOut: bool)
    requires Valid(db)
    ensures OptOutSpec(db, cfg, now, optingOut).optedOut == optingOut
    ensures Valid(OptOutSpec(db, cfg, now, optingOut))
  {
    if db.optedOut != optingOut {
      var name := if optingOut then OptOutEvent else OptInEvent;
      if OpenSessionId(db).None? {
        var db1 := OpenSpec(db, cfg, now, true, None);
        OpenValid(db, cfg, now, true, None);
        TagEventValid(db1, cfg, now, name, None, None);
        CloseValid(TagEventSpec(db1, cfg, now, name, None, None), cfg, now, None);
      } else {
        TagEventValid(db, cfg, now, name, None, None);
      }
    }
  }

  /**
   * Opting out while a session is open records the opt-out event in that
   * session, which stays open.
   */
  lemma OptOutInsideSession(db: Db, cfg: Config, now: int)
    requires Valid(db) && !db.optedOut && OpenSessionId(db).Some?
    ensures var s := OpenSessionId(db).value; var r := OptOutSpec(db, cfg, now, true);
      db.nextEvent in r.events && r.events[db.nextEvent].session == s && r.events[db.nextEvent].name == OptOutEvent &&
      OpenSessionId(r) == Some(s) && r.optedOut
  {
    var s := OpenSessionId(db).value;
    RecordEventValid(db, cfg, now, s, OptOutEvent, None, None);
    RecordKeepsOpen(db, cfg, now, s, OptOutEvent, None, None);
  }

  /**
   * Opting out with no session open: when `open` (ignoring the session
   * cap) manages to open one, the opt-out event lands in it and the
   * session is closed again.
   */
  lemma OptOutInForcedSession(db: Db, cfg: Config, now: int)
    requires Valid(db) && !db.optedOut && OpenSessionId(db).None?
    requires OpenSessionId(OpenSpec(db, cfg, now, true, None)).Some?
    ensures var db1 := OpenSpec(db, cfg, now, true, None); var r := OptOutSpec(db, cfg, now, true);
      db1.nextEvent in r.events && r.events[db1.nextEvent].name == OptOutEvent &&
      r.events[db1.nextEvent].session == OpenSessionId(db1).value &&
      OpenSessionId(r).None? && r.optedOut
  {
    var db1 := OpenSpec(db, cfg, now, true, None);
    OpenValid(db, cfg, now, true, None);
    var s := OpenSessionId(db1).value;
    TagEventShape(db1, cfg, now, OptOutEvent, None, None, s);
    var db2 := RecordEvent(db1, cfg, now, s, OptOutEvent, None, None);
    RecordEventValid(db1, cfg, now, s, OptOutEvent, None, None);
    RecordKeepsOpen(db1, cfg, now, s, OptOutEvent, None, None);
    var db3 := CloseSpec(db2, cfg, now, None);
    CloseAppendsOneCloseEvent(db2, cfg, now, None);
    CloseLeavesNoOpenSession(db2, cfg, now, None);
    assert OptOutSpec(db, cfg, now, true) == db3.(optedOut := true);
    assert db3.events[db1.nextEvent] == NewEvent(db1, now, s, OptOutEvent, None);
  }

  /**
   * Opting back in while no session is open records no opt-in event:
   * `open` refuses while the key is still opted out, so only the flag
   * changes.
   */
  lemma OptInOutsideSessionRecordsNothing(db: Db, cfg: Config, now: int)
    requires db.optedOut && OpenSessionId(db).None?
    ensures OptOutSpec(db, cfg, now, false) == db.(optedOut := false)
  {
  }

  // ---------------------------------------------------------------------------
  // Custom dimensions and identifiers
  // ---------------------------------------------------------------------------

  /** Reading a slot back after `setCustomDimension`: the new value in range, the old one elsewhere. */
  lemma CustomDimensionReadBack(db: Db, dimension: int, value: Option<string>, other: int)
    requires Valid(db)
    ensures Valid(SetCustomDimensionSpec(db, dimension, value))
    ensures GetCustomDimension(SetCustomDimensionSpec(db, dimension, value), other) ==
      if 0 <= dimension <= 9 && other == dimension then value else GetCustomDimension(db, other)
  {
  }

  lemma IdentifierReadBack(db: Db, key: string, value: Option<string>, other: string)
    requires Valid(db)
    ensures Valid(SetIdentifierSpec(db, key, value))
    ensures var r := SetIdentifierSpec(db, key, value);
      (other in r.identifiers) == (if other == key then value.Some? else other in db.identifiers) &&
      (other in r.identifiers ==> r.identifiers[other] == if other == key then value.value else db.identifiers[other])
  {
  }

  // ---------------------------------------------------------------------------
  // preUploadBuildBlobs
  // ---------------------------------------------------------------------------

  /** The link for the `i`-th event sits at the `i`-th fresh id. */
  lemma {:induction false} InsertLinksAt(db: Db, b: nat, es: seq<nat>, i: nat)
    requires i < |es|
    ensures db.nextLink + i in InsertLinks(db, b, es).links
    ensures InsertLinks(db, b, es).links[db.nextLink + i] == Link(b, es[i])
    decreases |es|
  {
    var init := es[..|es| - 1];
    var mid := InsertLinks(db, b, init);
    assert InsertLinks(db, b, es) == InsertLink(mid, Link(b, es[|es| - 1]));
    if i < |init| {
      InsertLinksAt(db, b, init, i);
      assert init[i] == es[i];
    }
  }

  /** Adding links keeps every old link and uses only the fresh ids. */
  lemma {:induction false} InsertLinksFrame(db: Db, b: nat, es: seq<nat>)
    requires forall l :: l in db.links ==> l < db.nextLink
    ensures forall l :: l in db.links ==> l in InsertLinks(db, b, es).links && InsertLinks(db, b, es).links[l] == db.links[l]
    ensures forall l :: l in InsertLinks(db, b, es).links ==> l in db.links || db.nextLink <= l < db.nextLink + |es|
  {
    if es != [] {
      var init := es[..|es| - 1];
      var mid := InsertLinks(db, b, init);
      InsertLinksFrame(db, b, init);
      assert InsertLinks(db, b, es) == InsertLink(mid, Link(b, es[|es| - 1]));
      assert mid.nextLink == db.nextLink + |init|;
    }
  }

  lemma InsertLinksContents(db: Db, b: nat, es: seq<nat>)
    requires forall l :: l in db.links ==> l < db.nextLink
    ensures forall l :: l in db.links ==> l in InsertLinks(db, b, es).links && InsertLinks(db, b, es).links[l] == db.links[l]
    ensures forall l :: db.nextLink <= l < db.nextLink + |es| ==>
      l in InsertLinks(db, b, es).links && InsertLinks(db, b, es).links[l] == Link(b, es[l - db.nextLink])
    ensures forall l :: l in InsertLinks(db, b, es).links ==> l in db.links || db.nextLink <= l < db.nextLink + |es|
  {
    InsertLinksFrame(db, b, es);
    forall l | db.nextLink <= l < db.nextLink + |es|
      ensures l in InsertLinks(db, b, es).links && InsertLinks(db, b, es).links[l] == Link(b, es[l - db.nextLink])
    {
      InsertLinksAt(db, b, es, l - db.nextLink);
    }
  }

  /** The link table after building a non-empty blob: the old links, then one link per eligible event. */
  lemma BuildBlobsLinkTable(db: Db, cfg: Config, now: int)
    requires Valid(db) && EligibleEvents(db, cfg, now) != []
    ensures var r := BuildBlobsSpec(db, cfg, now); var es := EligibleEvents(db, cfg, now);
      r == db.(blobs := db.blobs + {db.nextBlob}, nextBlob := db.nextBlob + 1, links := r.links,
               nextLink := db.nextLink + |es|, history := r.history) &&
      (forall l :: l in db.links ==> l in r.links && r.links[l] == db.links[l]) &&
      (forall l :: db.nextLink <= l < db.nextLink + |es| ==> l in r.links && r.links[l] == Link(db.nextBlob, es[l - db.nextLink])) &&
      (forall l :: l in r.links ==> l in db.links || db.nextLink <= l < db.nextLink + |es|)
  {
    var es := EligibleEvents(db, cfg, now);
    var d1 := InsertBlob(db);
    var d2 := InsertLinks(d1, db.nextBlob, es);
    InsertLinksContents(d1, db.nextBlob, es);
    assert d2 == d1.(links := d2.links, nextLink := d2.nextLink);
    assert BuildBlobsSpec(db, cfg, now) == StampHistory(d2, db.nextBlob);
  }

  lemma BuildBlobsLinked(db: Db, cfg: Config, now: int, e: nat)
    requires Valid(db)
    ensures IsLinked(BuildBlobsSpec(db, cfg, now), e) <==> IsLinked(db, e) || Eligible(db, cfg, now, e)
  {
    var es := EligibleEvents(db, cfg, now);
    if es != [] {
      var r := BuildBlobsSpec(db, cfg, now);
      BuildBlobsLinkTable(db, cfg, now);
      if IsLinked(r, e) {
        var l :| l in r.links && r.links[l].event == e;
        if l !in db.links {
          assert r.links[l] == Link(db.nextBlob, es[l - db.nextLink]);
        }
      }
      if Eligible(db, cfg, now, e) {
        assert e in es;
        var i :| 0 <= i < |es| && es[i] == e;
        var l := db.nextLink + i;
        assert r.links[l] == Link(db.nextBlob, es[l - db.nextLink]);
      }
      if IsLinked(db, e) {
        var l :| l in db.links && db.links[l].event == e;
        assert r.links[l].event == e;
      }
    }
  }

  lemma BuildBlobsValid(db: Db, cfg: Config, now: int)
    requires Valid(db)
    ensures Valid(BuildBlobsSpec(db, cfg, now))
  {
    var es := EligibleEvents(db, cfg, now);
    if es != [] {
      var r := BuildBlobsSpec(db, cfg, now);
      var b := db.nextBlob;
      BuildBlobsLinkTable(db, cfg, now);
      // A new link points at an event no old link held, and new links point at distinct events.
      forall l | l in r.links && l !in db.links
        ensures r.links[l].blob == b && r.links[l].event in db.events && !IsLinked(db, r.links[l].event)
      {
        assert r.links[l] == Link(b, es[l - db.nextLink]);
      }
      forall l | l in db.links ensures IsLinked(db, r.links[l].event) {
        assert db.links[l].event == r.links[l].event;
      }
      forall l, m | l in r.links && m in r.links && l !in db.links && m !in db.links && r.links[l].event == r.links[m].event
        ensures l == m
      {
        assert r.links[l] == Link(b, es[l - db.nextLink]);
        assert r.links[m] == Link(b, es[m - db.nextLink]);
      }
      assert OneBlobPerEvent(r);
      assert IdsBelow(r);
    }
  }

  /**
   * Blob building stamps the new blob into exactly the history rows no blob
   * held and leaves every other field of every row as it was.
   */
  lemma BuildBlobsStampsHistory(db: Db, cfg: Config, now: int)
    requires EligibleEvents(db, cfg, now) != []
    ensures var r := BuildBlobsSpec(db, cfg, now);
      r.history.Keys == db.history.Keys &&
      forall h :: h in db.history ==>
        r.history[h] == if db.history[h].blob.None? then db.history[h].(blob := Some(db.nextBlob)) else db.history[h]
  {
    var d := InsertLinks(InsertBlob(db), db.nextBlob, EligibleEvents(db, cfg, now));
    assert d.history == db.history;
    assert BuildBlobsSpec(db, cfg, now) == StampHistory(d, db.nextBlob);
  }

  /**
   * `preUploadBuildBlobs` makes a new blob exactly when some event is
   * eligible, links exactly the eligible events to it, leaves every
   * existing link alone, and stamps the new blob into every history row no
   * blob held, leaving rows that had a blob, and all other fields, as they
   * were. With no eligible event the store is unchanged.
   */
  lemma BuildBlobsLinksEligible(db: Db, cfg: Config, now: int)
    requires Valid(db)
    ensures var r := BuildBlobsSpec(db, cfg, now);
      Valid(r) &&
      (EligibleEvents(db, cfg, now) == [] ==> r == db) &&
      (forall e: nat :: IsLinked(r, e) <==> IsLinked(db, e) || Eligible(db, cfg, now, e)) &&
      (forall l :: l in db.links ==> l in r.links && r.links[l] == db.links[l]) &&
      (r.blobs == db.blobs <==> EligibleEvents(db, cfg, now) == []) &&
      (r.blobs != db.blobs ==>
        (r.blobs == db.blobs + {db.nextBlob} && db.nextBlob !in db.blobs &&
         r.history.Keys == db.history.Keys &&
         forall h :: h in r.history && h in db.history ==>
           r.history[h].(blob := db.history[h].blob) == db.history[h] &&
           r.history[h].blob == (if db.history[h].blob.None? then Some(db.nextBlob) else db.history[h].blob)))
  {
    BuildBlobsValid(db, cfg, now);
    forall e: nat ensures IsLinked(BuildBlobsSpec(db, cfg, now), e) <==> IsLinked(db, e) || Eligible(db, cfg, now, e) {
      BuildBlobsLinked(db, cfg, now, e);
    }
    if EligibleEvents(db, cfg, now) != [] {
      BuildBlobsLinkTable(db, cfg, now);
      BuildBlobsStampsHistory(db, cfg, now);
    }
  }

  /** A close event younger than the expiration window stays out of every blob. */
  lemma YoungCloseNotLinked(db: Db, cfg: Config, now: int, e: nat)
    requires Valid(db) && e in db.events && !IsLinked(db, e)
    requires db.events[e].name == CloseEvent && now - db.events[e].wallTime < cfg.expiration
    ensures !IsLinked(BuildBlobsSpec(db, cfg, now), e)
  {
    BuildBlobsLinked(db, cfg, now, e);
  }
}
