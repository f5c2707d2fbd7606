/**
 * What `convertDatabaseToJson` produces from the store: for each upload
 * blob, a header record followed by one record per event the blob holds.
 * JSON objects are modelled as records of the fields the layout depends
 * on; the exceptions the conversion can throw become `Err`.
 */
module Conversion {
  import opened Wrappers
  import opened Store
  import Text

  /** One element of a flow array: `{"e": name}` or `{"s": name}`. */
  datatype FlowStep = FlowStep(kind: HistoryKind, name: string)

  /**
   * The event-specific part of an event record. `dims` maps a custom
   * dimension slot to the value put under that slot's JSON key.
   */
  datatype Body =
    | OpenBody(count: nat, dims: map<nat, string>)
    | CloseBody(session: nat, screens: seq<string>, dims: map<nat, string>)
    | OptBody(optOut: bool)
    | FlowBody(newFlow: seq<FlowStep>, oldFlow: seq<FlowStep>)
    | AppBody(name: string, clv: int, identifiers: Option<map<string, string>>,
              dims: map<nat, string>, attributes: Option<map<string, string>>)

  /** A blob header (its sequence number, the session its attributes describe, the identifiers) or an event. */
  datatype Record =
    | Header(blob: nat, session: nat, identifiers: Option<map<string, string>>)
    | EventRecord(event: nat, body: Body)

  // ---------------------------------------------------------------------------
  // Custom dimensions of one event
  // ---------------------------------------------------------------------------

  /** The chain of key comparisons, from slot `i` on. */
  function SlotFrom(k: string, i: nat): (r: Option<nat>)
    decreases Text.MAX_CUSTOM_DIMENSIONS - i
    ensures r.Some? ==> i <= r.value < Text.MAX_CUSTOM_DIMENSIONS && k == Text.DimensionKey(r.value)
    ensures r.None? ==> forall j :: i <= j < Text.MAX_CUSTOM_DIMENSIONS ==> k != Text.DimensionKey(j)
  {
    if i >= Text.MAX_CUSTOM_DIMENSIONS then None
    else if k == Text.DimensionKey(i) then Some(i)
    else SlotFrom(k, i + 1)
  }

  /** The slot whose dimension key `k` is, if any. */
  function DimensionSlot(k: string): Option<nat>
  {
    SlotFrom(k, 0)
  }

  lemma DimensionSlotMeaning(k: string)
    ensures DimensionSlot(k).None? <==> !Text.IsDimensionKey(k)
    ensures forall i: nat :: DimensionSlot(k) == Some(i) <==> i < Text.MAX_CUSTOM_DIMENSIONS && k == Text.DimensionKey(i)
  {
    var r := DimensionSlot(k);
    if r.Some? {
      forall i: nat | i < Text.MAX_CUSTOM_DIMENSIONS && k == Text.DimensionKey(i) ensures r == Some(i) {
        Text.DimensionKeysDistinct(i, r.value);
      }
    }
  }

  /** Attribute row `a` belongs to event `e` and stores slot `i`. */
  predicate DimRow(db: Db, e: nat, a: nat, i: nat)
  {
    a in db.attributes && db.attributes[a].event == e && DimensionSlot(db.attributes[a].key) == Some(i)
  }

  /** The attribute cursor of one event, rows below `n`: each dimension row puts its value under its slot. */
  function DimsBelow(db: Db, e: nat, n: nat): map<nat, string>
  {
    if n == 0 then map[]
    else
      var m := DimsBelow(db, e, n - 1);
      var a := n - 1;
      if a in db.attributes && db.attributes[a].event == e && DimensionSlot(db.attributes[a].key).Some? then
        m[DimensionSlot(db.attributes[a].key).value := db.attributes[a].value]
      else m
  }

  /** Every slot the cursor fills comes from a dimension row of the event with that value, and every such row's slot is filled. */
  lemma {:induction false} DimsBelowMeaning(db: Db, e: nat, n: nat)
    ensures forall i: nat :: i in DimsBelow(db, e, n) ==>
      exists a: nat :: a < n && DimRow(db, e, a, i) && db.attributes[a].value == DimsBelow(db, e, n)[i]
    ensures forall a: nat, i: nat :: a < n && DimRow(db, e, a, i) ==> i in DimsBelow(db, e, n)
  {
    if n > 0 {
      DimsBelowMeaning(db, e, n - 1);
      var m := DimsBelow(db, e, n - 1);
      var r := DimsBelow(db, e, n);
      var b := n - 1;
      forall i: nat | i in r
        ensures exists a: nat :: a < n && DimRow(db, e, a, i) && db.attributes[a].value == r[i]
      {
        if DimRow(db, e, b, i) {
          assert db.attributes[b].value == r[i];
        } else {
          assert i in m && r[i] == m[i];
          var a: nat :| a < b && DimRow(db, e, a, i) && db.attributes[a].value == m[i];
        }
      }
    }
  }

  function Dims(db: Db, e: nat): map<nat, string>
  {
    DimsBelow(db, e, db.nextAttribute)
  }

  // ---------------------------------------------------------------------------
  // convertAttributesToJson
  // ---------------------------------------------------------------------------

  /** Attribute row `a` belongs to event `e` and its key is none of the ten dimension keys. */
  predicate AppRow(db: Db, e: nat, a: nat)
  {
    a in db.attributes && db.attributes[a].event == e && DimensionSlot(db.attributes[a].key).None?
  }

  /** `key.substring(packageName.length() + 1)`, which throws on a shorter key. */
  function StripPrefix(packageName: string, key: string): Option<string>
  {
    if |key| >= |packageName| + 1 then Some(key[|packageName| + 1..]) else None
  }

  /** Some non-dimension row of event `e` below `n` has stripped key `k` and value `v`. */
  ghost predicate KeyFrom(db: Db, packageName: string, e: nat, n: nat, k: string, v: string)
  {
    exists a: nat :: a < n && AppRow(db, e, a) && StripPrefix(packageName, db.attributes[a].key) == Some(k) && db.attributes[a].value == v
  }

  /** The filtered attribute cursor over rows below `n`: each row puts its value under its stripped key. */
  function AttrsBelow(db: Db, packageName: string, e: nat, n: nat): Result<map<string, string>>
  {
    if n == 0 then Ok(map[])
    else
      var r := AttrsBelow(db, packageName, e, n - 1);
      var a := n - 1;
      if r.Err? || !AppRow(db, e, a) then r
      else match StripPrefix(packageName, db.attributes[a].key)
        case None => Err("StringIndexOutOfBoundsException")
        case Some(k) => Ok(r.value[k := db.attributes[a].value])
  }

  function HasAppRowBelow(db: Db, e: nat, n: nat): (b: bool)
    ensures b <==> exists a: nat :: a < n && AppRow(db, e, a)
  {
    if n == 0 then false else AppRow(db, e, n - 1) || HasAppRowBelow(db, e, n - 1)
  }

  /** `convertAttributesToJson`: null when the event has no non-dimension attribute. */
  function ConvertAttributes(db: Db, packageName: string, e: nat): Result<Option<map<string, string>>>
  {
    if !HasAppRowBelow(db, e, db.nextAttribute) then Ok(None)
    else match AttrsBelow(db, packageName, e, db.nextAttribute)
      case Err(msg) => Err(msg)
      case Ok(m) => Ok(Some(m))
  }

  /**
   * The filtered cursor keeps exactly the non-dimension rows: every key it
   * produces is the stripped key of such a row, holding that row's value,
   * and every such row's stripped key is present.
   */
  lemma {:induction false} AttrsBelowMeaning(db: Db, packageName: string, e: nat, n: nat)
    ensures AttrsBelow(db, packageName, e, n).Ok? <==>
      forall a: nat :: a < n && AppRow(db, e, a) ==> StripPrefix(packageName, db.attributes[a].key).Some?
    ensures AttrsBelow(db, packageName, e, n).Ok? ==>
      var m := AttrsBelow(db, packageName, e, n).value;
      (forall k :: k in m ==> KeyFrom(db, packageName, e, n, k, m[k])) &&
      (forall a: nat :: a < n && AppRow(db, e, a) ==>
         StripPrefix(packageName, db.attributes[a].key).Some? && StripPrefix(packageName, db.attributes[a].key).value in m)
  {
    if n > 0 {
      AttrsBelowMeaning(db, packageName, e, n - 1);
      var r := AttrsBelow(db, packageName, e, n - 1);
      var a := n - 1;
      if r.Ok? && AppRow(db, e, a) && StripPrefix(packageName, db.attributes[a].key).Some? {
        var m := AttrsBelow(db, packageName, e, n).value;
        var k := StripPrefix(packageName, db.attributes[a].key).value;
        assert m == r.value[k := db.attributes[a].value];
        forall k' | k' in m ensures KeyFrom(db, packageName, e, n, k', m[k']) {
          if k' != k {
            assert KeyFrom(db, packageName, e, n - 1, k', r.value[k']);
            var a': nat :| a' < n - 1 && AppRow(db, e, a') &&
              StripPrefix(packageName, db.attributes[a'].key) == Some(k') && db.attributes[a'].value == r.value[k'];
          }
        }
      }
      if r.Err? {
        var a': nat :| a' < n - 1 && AppRow(db, e, a') && StripPrefix(packageName, db.attributes[a'].key).None?;
        assert a' < n;
      }
    }
  }

  /**
   * `convertAttributesToJson` leaves out the ten dimension keys: no
   * result key comes from a dimension row, every non-dimension row is
   * represented, and null is returned exactly when there is none.
   */
  lemma AttributesExcludeDimensions(db: Db, packageName: string, e: nat)
    requires ConvertAttributes(db, packageName, e).Ok?
    ensures ConvertAttributes(db, packageName, e).value.None? <==>
      forall a: nat :: a < db.nextAttribute ==> !AppRow(db, e, a)
    ensures ConvertAttributes(db, packageName, e).value.Some? ==>
      var m := ConvertAttributes(db, packageName, e).value.value;
      (forall k :: k in m ==> KeyFrom(db, packageName, e, db.nextAttribute, k, m[k])) &&
      (forall a: nat ::
         (a < db.nextAttribute && a in db.attributes && db.attributes[a].event == e && !Text.IsDimensionKey(db.attributes[a].key)) ==>
         StripPrefix(packageName, db.attributes[a].key).Some? && StripPrefix(packageName, db.attributes[a].key).value in m)
  {
    AttrsBelowMeaning(db, packageName, e, db.nextAttribute);
    forall a: nat | a in db.attributes ensures AppRow(db, e, a) <==> db.attributes[a].event == e && !Text.IsDimensionKey(db.attributes[a].key) {
      DimensionSlotMeaning(db.attributes[a].key);
    }
  }

  // ---------------------------------------------------------------------------
  // Screens of a close event and the flow split
  // ---------------------------------------------------------------------------

  predicate IsScreenOf(db: Db, s: nat, h: nat)
  {
    h in db.history && db.history[h].session == s && db.history[h].kind == ScreenKind
  }

  /** The screen-history cursor of session `s` over rows below `n`, sorted by id. */
  function ScreensBelow(db: Db, s: nat, n: nat): (r: seq<string>)
  {
    if n == 0 then []
    else if IsScreenOf(db, s, n - 1) then ScreensBelow(db, s, n - 1) + [db.history[n - 1].name]
    else ScreensBelow(db, s, n - 1)
  }

  /** History row `h` of session `s` went into blob `b` or an earlier one. */
  predicate InFlow(db: Db, s: nat, b: nat, h: nat)
  {
    h in db.history && db.history[h].session == s && db.history[h].blob.Some? && db.history[h].blob.value <= b
  }

  /**
   * The flow cursor over history rows below `n`, sorted by id, split by
   * whether the row's blob is this blob (new) or an earlier one (old).
   */
  function FlowSplit(db: Db, s: nat, b: nat, n: nat): (r: (seq<nat>, seq<nat>))
    ensures forall h: nat :: h in r.0 <==> h < n && InFlow(db, s, b, h) && db.history[h].blob.value == b
    ensures forall h: nat :: h in r.1 <==> h < n && InFlow(db, s, b, h) && db.history[h].blob.value < b
    ensures forall i :: 0 <= i < |r.0| ==> r.0[i] < n && r.0[i] in db.history
    ensures forall i :: 0 <= i < |r.1| ==> r.1[i] < n && r.1[i] in db.history
    ensures forall i, j :: 0 <= i < j < |r.0| ==> r.0[i] < r.0[j]
    ensures forall i, j :: 0 <= i < j < |r.1| ==> r.1[i] < r.1[j]
  {
    if n == 0 then ([], [])
    else
      var split := FlowSplit(db, s, b, n - 1);
      if !InFlow(db, s, b, n - 1) then split
      else if db.history[n - 1].blob.value == b then (split.0 + [n - 1], split.1)
      else (split.0, split.1 + [n - 1])
  }

  function Steps(db: Db, hs: seq<nat>): (r: seq<FlowStep>)
    requires forall i :: 0 <= i < |hs| ==> hs[i] in db.history
    ensures |r| == |hs|
    ensures forall i :: 0 <= i < |hs| ==> r[i] == FlowStep(db.history[hs[i]].kind, db.history[hs[i]].name)
  {
    if hs == [] then [] else Steps(db, hs[..|hs| - 1]) + [FlowStep(db.history[hs[|hs| - 1]].kind, db.history[hs[|hs| - 1]].name)]
  }

  lemma StepsAppend(db: Db, hs: seq<nat>, h: nat)
    requires (forall i :: 0 <= i < |hs| ==> hs[i] in db.history) && h in db.history
    ensures Steps(db, hs + [h]) == Steps(db, hs) + [FlowStep(db.history[h].kind, db.history[h].name)]
  {
    assert (hs + [h])[..|hs|] == hs;
  }

  /** The flow cursor building both arrays directly, one row at a time. */
  function FlowStepsBelow(db: Db, s: nat, b: nat, n: nat): (seq<FlowStep>, seq<FlowStep>)
  {
    if n == 0 then ([], [])
    else
      var r := FlowStepsBelow(db, s, b, n - 1);
      var h := n - 1;
      if !InFlow(db, s, b, h) then r
      else if db.history[h].blob.value == b then (r.0 + [FlowStep(db.history[h].kind, db.history[h].name)], r.1)
      else (r.0, r.1 + [FlowStep(db.history[h].kind, db.history[h].name)])
  }

  /** Building the arrays row by row gives the steps of the split rows. */
  lemma {:induction false} FlowStepsMatch(db: Db, s: nat, b: nat, n: nat)
    ensures var split := FlowSplit(db, s, b, n);
      FlowStepsBelow(db, s, b, n) == (Steps(db, split.0), Steps(db, split.1))
  {
    if n > 0 {
      var h := n - 1;
      FlowStepsMatch(db, s, b, h);
      var split := FlowSplit(db, s, b, h);
      var r := FlowStepsBelow(db, s, b, h);
      if !InFlow(db, s, b, h) {
        assert FlowSplit(db, s, b, n) == split && FlowStepsBelow(db, s, b, n) == r;
      } else {
        var step := FlowStep(db.history[h].kind, db.history[h].name);
        if db.history[h].blob.value == b {
          assert FlowSplit(db, s, b, n) == (split.0 + [h], split.1);
          assert FlowStepsBelow(db, s, b, n) == (r.0 + [step], r.1);
          StepsAppend(db, split.0, h);
        } else {
          assert FlowSplit(db, s, b, n) == (split.0, split.1 + [h]);
          assert FlowStepsBelow(db, s, b, n) == (r.0, r.1 + [step]);
          StepsAppend(db, split.1, h);
        }
      }
    }
  }

  // ---------------------------------------------------------------------------
  // convertEventToJson
  // ---------------------------------------------------------------------------

  /**
   * One event of blob `b`. A missing event or a missing session throws;
   * otherwise the record's kind follows the event's name.
   */
  function ConvertEvent(db: Db, packageName: string, e: nat, b: nat): Result<Record>
  {
    if e !in db.events then Err("RuntimeException")
    else
      var ev := db.events[e];
      var s := ev.session;
      if s !in db.sessions then Err("RuntimeException")
      else match ev.name
        case OpenEvent => Ok(EventRecord(e, OpenBody(s, Dims(db, e))))
        case CloseEvent => Ok(EventRecord(e, CloseBody(s, ScreensBelow(db, s, db.nextHistory), Dims(db, e))))
        case OptInEvent => Ok(EventRecord(e, OptBody(false)))
        case OptOutEvent => Ok(EventRecord(e, OptBody(true)))
        case FlowEvent =>
          var split := FlowSplit(db, s, b, db.nextHistory);
          Ok(EventRecord(e, FlowBody(Steps(db, split.0), Steps(db, split.1))))
        case AppEvent(name) =>
          match ConvertAttributes(db, packageName, e)
          case Err(msg) => Err(msg)
          case Ok(attributes) => Ok(EventRecord(e, AppBody(name, ev.clv, ev.identifiers, Dims(db, e), attributes)))
  }

  /**
   * A flow record lists this blob's history rows of the event's session
   * as new and the rows of earlier blobs as old, each in row order.
   */
  lemma FlowRecordSplit(db: Db, packageName: string, e: nat, b: nat) returns (nw: seq<nat>, od: seq<nat>)
    requires ConvertEvent(db, packageName, e, b).Ok? && db.events[e].name == FlowEvent
    ensures forall i :: 0 <= i < |nw| ==> nw[i] in db.history
    ensures forall i :: 0 <= i < |od| ==> od[i] in db.history
    ensures ConvertEvent(db, packageName, e, b).value.body == FlowBody(Steps(db, nw), Steps(db, od))
    ensures forall h: nat :: h in nw <==> h < db.nextHistory && InFlow(db, db.events[e].session, b, h) && db.history[h].blob.value == b
    ensures forall h: nat :: h in od <==> h < db.nextHistory && InFlow(db, db.events[e].session, b, h) && db.history[h].blob.value < b
    ensures forall i, j :: 0 <= i < j < |nw| ==> nw[i] < nw[j]
    ensures forall i, j :: 0 <= i < j < |od| ==> od[i] < od[j]
  {
    var split := FlowSplit(db, db.events[e].session, b, db.nextHistory);
    nw, od := split.0, split.1;
  }

  // ---------------------------------------------------------------------------
  // Blob headers and the layout
  // ---------------------------------------------------------------------------

  /** The lowest link id below `n` whose blob is `b`: the unsorted link cursor's first row. */
  function FirstLinkBelow(db: Db, b: nat, n: nat): (r: Option<nat>)
    ensures r.Some? ==> (r.value < n && r.value in db.links && db.links[r.value].blob == b &&
      forall l: nat :: l < r.value && l in db.links ==> db.links[l].blob != b)
    ensures r.None? ==> forall l: nat :: l < n && l in db.links ==> db.links[l].blob != b
  {
    if n == 0 then None
    else
      var r := FirstLinkBelow(db, b, n - 1);
      if r.Some? then r
      else if n - 1 in db.links && db.links[n - 1].blob == b then Some(n - 1)
      else None
  }

  /** `getIdentifiers`: null for an empty identifiers table. */
  function Identifiers(db: Db): Option<map<string, string>>
  {
    if db.identifiers == map[] then None else Some(db.identifiers)
  }

  /** The header of blob `b`; its session is found through the blob's first link. */
  function HeaderOf(db: Db, b: nat): Result<Record>
  {
    match FirstLinkBelow(db, b, db.nextLink)
    case None => Err("No events associated with blob")
    case Some(l) =>
      var e := db.links[l].event;
      if e !in db.events then Err("No session associated with event")
      else if db.events[e].session !in db.sessions then Err("No session exists")
      else Ok(Header(b, db.events[e].session, Identifiers(db)))
  }

  predicate InBlob(db: Db, b: nat, e: nat)
  {
    exists l :: l in db.links && db.links[l] == Link(b, e)
  }

  /** The blob's link rows sorted by event id: the events below `n` the blob holds, ascending. */
  function BlobEventsBelow(db: Db, b: nat, n: nat): (r: seq<nat>)
    ensures forall e: nat :: e in r <==> e < n && InBlob(db, b, e)
    ensures forall i :: 0 <= i < |r| ==> r[i] < n
    ensures forall i, j :: 0 <= i < j < |r| ==> r[i] < r[j]
  {
    if n == 0 then []
    else if InBlob(db, b, n - 1) then BlobEventsBelow(db, b, n - 1) + [n - 1]
    else BlobEventsBelow(db, b, n - 1)
  }

  function BlobEvents(db: Db, b: nat): seq<nat>
  {
    BlobEventsBelow(db, b, db.nextEvent)
  }

  /** The records of events `es`, in order; the first exception aborts. */
  function ConvertEvents(db: Db, packageName: string, b: nat, es: seq<nat>): (r: Result<seq<Record>>)
    ensures r.Ok? ==> AllEvents(r.value) && EventIds(r.value) == es
  {
    if es == [] then Ok([])
    else match ConvertEvents(db, packageName, b, es[..|es| - 1])
      case Err(msg) => Err(msg)
      case Ok(rs) =>
        match ConvertEvent(db, packageName, es[|es| - 1], b)
        case Err(msg) => Err(msg)
        case Ok(rec) => Ok(rs + [rec])
  }

  /** One blob: its header, then its events in ascending id order. */
  function ConvertBlob(db: Db, packageName: string, b: nat): Result<seq<Record>>
  {
    match HeaderOf(db, b)
    case Err(msg) => Err(msg)
    case Ok(h) =>
      match ConvertEvents(db, packageName, b, BlobEvents(db, b))
      case Err(msg) => Err(msg)
      case Ok(rs) => Ok([h] + rs)
  }

  /** The blob cursor over ids below `n`. */
  function ConvertBelow(db: Db, packageName: string, n: nat): Result<seq<Record>>
  {
    if n == 0 then Ok([])
    else match ConvertBelow(db, packageName, n - 1)
      case Err(msg) => Err(msg)
      case Ok(rs) =>
        if n - 1 !in db.blobs then Ok(rs)
        else match ConvertBlob(db, packageName, n - 1)
          case Err(msg) => Err(msg)
          case Ok(bs) => Ok(rs + bs)
  }

  /** `convertDatabaseToJson`. */
  function ConvertSpec(db: Db, packageName: string): Result<seq<Record>>
  {
    ConvertBelow(db, packageName, db.nextBlob)
  }

  /** An exception in the attribute cursor ends it: later rows do not change the outcome. */
  lemma {:induction false} AttrsBelowErrStays(db: Db, packageName: string, e: nat, n: nat, m: nat)
    requires n <= m && AttrsBelow(db, packageName, e, n).Err?
    ensures AttrsBelow(db, packageName, e, m) == AttrsBelow(db, packageName, e, n)
  {
    if m > n {
      AttrsBelowErrStays(db, packageName, e, n, m - 1);
    }
  }

  /** An exception converting one of a blob's events ends the blob. */
  lemma {:induction false} ConvertEventsErrStays(db: Db, packageName: string, b: nat, es: seq<nat>, i: nat)
    requires i <= |es| && ConvertEvents(db, packageName, b, es[..i]).Err?
    ensures ConvertEvents(db, packageName, b, es) == ConvertEvents(db, packageName, b, es[..i])
    decreases |es|
  {
    if i < |es| {
      var init := es[..|es| - 1];
      assert init[..i] == es[..i];
      ConvertEventsErrStays(db, packageName, b, init, i);
    } else {
      assert es[..i] == es;
    }
  }

  /** An exception in one blob ends the whole conversion. */
  lemma {:induction false} ConvertBelowErrStays(db: Db, packageName: string, n: nat, m: nat)
    requires n <= m && ConvertBelow(db, packageName, n).Err?
    ensures ConvertBelow(db, packageName, m) == ConvertBelow(db, packageName, n)
  {
    if m > n {
      ConvertBelowErrStays(db, packageName, n, m - 1);
    }
  }

  // ---------------------------------------------------------------------------
  // The layout of the upload
  // ---------------------------------------------------------------------------

  predicate AllEvents(rs: seq<Record>)
  {
    forall k :: 0 <= k < |rs| ==> rs[k].EventRecord?
  }

  /** The event ids of a run of event records. */
  function EventIds(rs: seq<Record>): (r: seq<nat>)
    requires AllEvents(rs)
    ensures |r| == |rs| && forall k :: 0 <= k < |rs| ==> r[k] == rs[k].event
  {
    if rs == [] then [] else EventIds(rs[..|rs| - 1]) + [rs[|rs| - 1].event]
  }

  /** The header at `i` is followed by its blob's events in ascending order, then by the next header or the end. */
  ghost predicate Segment(db: Db, rs: seq<Record>, i: nat)
    requires i < |rs| && rs[i].Header?
  {
    var end := i + 1 + |BlobEvents(db, rs[i].blob)|;
    end <= |rs| && AllEvents(rs[i + 1..end]) && EventIds(rs[i + 1..end]) == BlobEvents(db, rs[i].blob) &&
    (end == |rs| || rs[end].Header?)
  }

  /** A header at `i` names a stored blob below `n` and begins its segment. */
  ghost predicate SoundAt(db: Db, rs: seq<Record>, n: nat, i: nat)
    requires i < |rs|
  {
    rs[i].Header? ==> rs[i].blob < n && rs[i].blob in db.blobs && Segment(db, rs, i)
  }

  /** Every header names a stored blob below `n` and begins its segment. */
  ghost predicate HeadersSound(db: Db, rs: seq<Record>, n: nat)
  {
    forall i :: 0 <= i < |rs| ==> SoundAt(db, rs, n, i)
  }

  ghost predicate HeadersAscending(rs: seq<Record>)
  {
    forall i, j :: 0 <= i < j < |rs| && rs[i].Header? && rs[j].Header? ==> rs[i].blob < rs[j].blob
  }

  /** Every stored blob below `n` has a header. */
  ghost predicate HeadersCover(db: Db, rs: seq<Record>, n: nat)
  {
    forall b: nat :: b < n && b in db.blobs ==> exists i :: 0 <= i < |rs| && rs[i].Header? && rs[i].blob == b
  }

  /**
   * The records of the blobs below `n`: they start with a header; every
   * header names a stored blob below `n` and begins a segment; headers
   * come in ascending blob order; every stored blob below `n` has one.
   */
  ghost predicate Laid(db: Db, rs: seq<Record>, n: nat)
  {
    (|rs| > 0 ==> rs[0].Header?) && HeadersSound(db, rs, n) && HeadersAscending(rs) && HeadersCover(db, rs, n)
  }

  /** The records of one blob: its header, then exactly its events in ascending id order. */
  ghost predicate Block(db: Db, bs: seq<Record>, b: nat)
  {
    |bs| > 0 && bs[0].Header? && bs[0].blob == b && AllEvents(bs[1..]) && EventIds(bs[1..]) == BlobEvents(db, b)
  }

  /** One blob's records are a block. */
  lemma ConvertBlobShape(db: Db, packageName: string, b: nat)
    requires ConvertBlob(db, packageName, b).Ok?
    ensures Block(db, ConvertBlob(db, packageName, b).value, b)
  {
    var bs := ConvertBlob(db, packageName, b).value;
    var rs := ConvertEvents(db, packageName, b, BlobEvents(db, b)).value;
    assert bs == [HeaderOf(db, b).value] + rs;
    assert bs[1..] == rs;
    assert EventIds(rs) == BlobEvents(db, b);
  }

  lemma SegmentBeforeBlock(db: Db, rs: seq<Record>, bs: seq<Record>, i: nat)
    requires i < |rs| && rs[i].Header? && Segment(db, rs, i)
    requires |bs| > 0 && bs[0].Header?
    ensures (rs + bs)[i].Header? && Segment(db, rs + bs, i)
  {
    var t := rs + bs;
    var end := i + 1 + |BlobEvents(db, rs[i].blob)|;
    assert t[i] == rs[i];
    assert t[i + 1..end] == rs[i + 1..end];
    if end < |rs| {
      assert t[end] == rs[end];
    } else {
      assert t[end] == bs[0];
    }
  }

  lemma SegmentOfBlock(db: Db, rs: seq<Record>, bs: seq<Record>, b: nat)
    requires Block(db, bs, b)
    ensures (rs + bs)[|rs|].Header? && Segment(db, rs + bs, |rs|)
  {
    var t := rs + bs;
    assert t[|rs|] == bs[0];
    assert t[|rs| + 1..|t|] == bs[1..];
  }

  /** Within a block only the first record is a header. */
  lemma BlockHeaderFirst(db: Db, bs: seq<Record>, b: nat, i: nat)
    requires Block(db, bs, b) && i < |bs| && bs[i].Header?
    ensures i == 0
  {
  }

  lemma SoundAppend(db: Db, rs: seq<Record>, bs: seq<Record>, b: nat)
    requires HeadersSound(db, rs, b) && b in db.blobs && Block(db, bs, b)
    ensures HeadersSound(db, rs + bs, b + 1)
  {
    var t := rs + bs;
    var n := b + 1;
    forall i | 0 <= i < |t| ensures SoundAt(db, t, n, i) {
      if !t[i].Header? {
      } else if i < |rs| {
        assert t[i] == rs[i];
        assert SoundAt(db, rs, b, i);
        SegmentBeforeBlock(db, rs, bs, i);
      } else {
        assert t[i] == bs[i - |rs|];
        BlockHeaderFirst(db, bs, b, i - |rs|);
        SegmentOfBlock(db, rs, bs, b);
      }
    }
  }

  lemma AscendingAppend(db: Db, rs: seq<Record>, bs: seq<Record>, b: nat)
    requires (forall i :: 0 <= i < |rs| && rs[i].Header? ==> rs[i].blob < b) && HeadersAscending(rs) && Block(db, bs, b)
    ensures HeadersAscending(rs + bs)
  {
    var t := rs + bs;
    forall i, j | 0 <= i < j < |t| && t[i].Header? && t[j].Header? ensures t[i].blob < t[j].blob {
      if j >= |rs| {
        assert t[j] == bs[j - |rs|];
        BlockHeaderFirst(db, bs, b, j - |rs|);
        assert t[i] == rs[i];
      } else {
        assert t[i] == rs[i] && t[j] == rs[j];
      }
    }
  }

  lemma CoverAppend(db: Db, rs: seq<Record>, bs: seq<Record>, b: nat)
    requires HeadersCover(db, rs, b) && Block(db, bs, b)
    ensures HeadersCover(db, rs + bs, b + 1)
  {
    var t := rs + bs;
    forall b': nat | b' < b + 1 && b' in db.blobs ensures exists i :: 0 <= i < |t| && t[i].Header? && t[i].blob == b' {
      if b' == b {
        assert t[|rs|] == bs[0];
      } else {
        var i :| 0 <= i < |rs| && rs[i].Header? && rs[i].blob == b';
        assert t[i] == rs[i];
      }
    }
  }

  lemma SoundSkip(db: Db, rs: seq<Record>, b: nat)
    requires HeadersSound(db, rs, b)
    ensures HeadersSound(db, rs, b + 1)
  {
    var n := b + 1;
    forall i | 0 <= i < |rs| ensures SoundAt(db, rs, n, i) {
      assert SoundAt(db, rs, b, i);
    }
  }

  /** `t` is the layout `rs` of the blobs below `n - 1` followed by blob `n - 1`'s block when that blob is stored. */
  ghost predicate Extends(db: Db, rs: seq<Record>, bs: seq<Record>, t: seq<Record>, n: nat)
  {
    n > 0 &&
    (n - 1 in db.blobs ==> Block(db, bs, n - 1) && t == rs + bs) &&
    (n - 1 !in db.blobs ==> t == rs)
  }

  /** How the blob cursor extends its result by blob `n - 1`. */
  lemma ConvertBelowStep(db: Db, packageName: string, n: nat) returns (bs: seq<Record>)
    requires n > 0 && ConvertBelow(db, packageName, n).Ok?
    ensures ConvertBelow(db, packageName, n - 1).Ok?
    ensures Extends(db, ConvertBelow(db, packageName, n - 1).value, bs, ConvertBelow(db, packageName, n).value, n)
  {
    if n - 1 in db.blobs {
      bs := ConvertBlob(db, packageName, n - 1).value;
      ConvertBlobShape(db, packageName, n - 1);
    } else {
      bs := [];
    }
  }

  lemma StartsExtend(db: Db, rs: seq<Record>, bs: seq<Record>, t: seq<Record>, n: nat)
    requires Extends(db, rs, bs, t, n) && (|rs| > 0 ==> rs[0].Header?)
    ensures |t| > 0 ==> t[0].Header?
  {
    if n - 1 in db.blobs {
      if |rs| == 0 {
        assert t[0] == bs[0];
      } else {
        assert t[0] == rs[0];
      }
    }
  }

  lemma {:induction false} ConvertStartsWithHeader(db: Db, packageName: string, n: nat)
    requires ConvertBelow(db, packageName, n).Ok?
    ensures var rs := ConvertBelow(db, packageName, n).value; |rs| > 0 ==> rs[0].Header?
  {
    if n > 0 {
      var bs := ConvertBelowStep(db, packageName, n);
      ConvertStartsWithHeader(db, packageName, n - 1);
      StartsExtend(db, ConvertBelow(db, packageName, n - 1).value, bs, ConvertBelow(db, packageName, n).value, n);
    }
  }

  lemma SoundExtend(db: Db, rs: seq<Record>, bs: seq<Record>, t: seq<Record>, n: nat)
    requires Extends(db, rs, bs, t, n) && HeadersSound(db, rs, n - 1)
    ensures HeadersSound(db, t, n)
  {
    if n - 1 in db.blobs {
      SoundAppend(db, rs, bs, n - 1);
    } else {
      SoundSkip(db, rs, n - 1);
    }
  }

  lemma {:induction false} ConvertHeadersSound(db: Db, packageName: string, n: nat)
    requires ConvertBelow(db, packageName, n).Ok?
    ensures HeadersSound(db, ConvertBelow(db, packageName, n).value, n)
  {
    if n > 0 {
      var bs := ConvertBelowStep(db, packageName, n);
      ConvertHeadersSound(db, packageName, n - 1);
      SoundExtend(db, ConvertBelow(db, packageName, n - 1).value, bs, ConvertBelow(db, packageName, n).value, n);
    }
  }

  lemma AscendingExtend(db: Db, rs: seq<Record>, bs: seq<Record>, t: seq<Record>, n: nat)
    requires Extends(db, rs, bs, t, n) && HeadersSound(db, rs, n - 1) && HeadersAscending(rs)
    ensures HeadersAscending(t)
  {
    var b := n - 1;
    if b in db.blobs {
      forall i | 0 <= i < |rs| && rs[i].Header? ensures rs[i].blob < b {
        assert SoundAt(db, rs, b, i);
      }
      AscendingAppend(db, rs, bs, b);
    }
  }

  lemma {:induction false} ConvertHeadersAscending(db: Db, packageName: string, n: nat)
    requires ConvertBelow(db, packageName, n).Ok?
    ensures HeadersAscending(ConvertBelow(db, packageName, n).value)
  {
    if n > 0 {
      var bs := ConvertBelowStep(db, packageName, n);
      ConvertHeadersAscending(db, packageName, n - 1);
      ConvertHeadersSound(db, packageName, n - 1);
      AscendingExtend(db, ConvertBelow(db, packageName, n - 1).value, bs, ConvertBelow(db, packageName, n).value, n);
    }
  }

  lemma CoverExtend(db: Db, rs: seq<Record>, bs: seq<Record>, t: seq<Record>, n: nat)
    requires Extends(db, rs, bs, t, n) && HeadersCover(db, rs, n - 1)
    ensures HeadersCover(db, t, n)
  {
    var b := n - 1;
    if b in db.blobs {
      CoverAppend(db, rs, bs, b);
    } else {
      forall b': nat | b' < n && b' in db.blobs ensures exists i :: 0 <= i < |rs| && rs[i].Header? && rs[i].blob == b' {
        assert b' < b;
      }
    }
  }

  lemma {:induction false} ConvertHeadersCover(db: Db, packageName: string, n: nat)
    requires ConvertBelow(db, packageName, n).Ok?
    ensures HeadersCover(db, ConvertBelow(db, packageName, n).value, n)
  {
    if n > 0 {
      var bs := ConvertBelowStep(db, packageName, n);
      ConvertHeadersCover(db, packageName, n - 1);
      CoverExtend(db, ConvertBelow(db, packageName, n - 1).value, bs, ConvertBelow(db, packageName, n).value, n);
    }
  }

  /** `convertDatabaseToJson` lays the upload out blob by blob, each header followed by its own events. */
  lemma ConvertLayout(db: Db, packageName: string)
    requires ConvertSpec(db, packageName).Ok?
    ensures Laid(db, ConvertSpec(db, packageName).value, db.nextBlob)
  {
    ConvertStartsWithHeader(db, packageName, db.nextBlob);
    ConvertHeadersSound(db, packageName, db.nextBlob);
    ConvertHeadersAscending(db, packageName, db.nextBlob);
    ConvertHeadersCover(db, packageName, db.nextBlob);
  }

  /** A segment holds a record for each of its blob's events. */
  lemma SegmentHolds(db: Db, rs: seq<Record>, i: nat, e: nat)
    requires i < |rs| && rs[i].Header? && Segment(db, rs, i) && e in BlobEvents(db, rs[i].blob)
    ensures exists j :: i < j < |rs| && rs[j].EventRecord? && rs[j].event == e
  {
    var evs := BlobEvents(db, rs[i].blob);
    var j :| 0 <= j < |evs| && evs[j] == e;
    var run := rs[i + 1..i + 1 + |evs|];
    assert EventIds(run)[j] == e;
    assert run[j] == rs[i + 1 + j];
  }

  /** A sound, covering layout holds every event of every stored blob below `n`, after that blob's header. */
  lemma LaidHolds(db: Db, rs: seq<Record>, n: nat, b: nat, e: nat)
    requires HeadersSound(db, rs, n) && HeadersCover(db, rs, n)
    requires b < n && b in db.blobs && e in BlobEvents(db, b)
    ensures exists i, j :: 0 <= i < j < |rs| && rs[i].Header? && rs[i].blob == b && rs[j].EventRecord? && rs[j].event == e
  {
    var i :| 0 <= i < |rs| && rs[i].Header? && rs[i].blob == b;
    assert SoundAt(db, rs, n, i);
    SegmentHolds(db, rs, i, e);
  }

  /** In a consistent store a link's event is among its blob's events. */
  lemma LinkedEventInBlob(db: Db, l: nat)
    requires Valid(db) && l in db.links
    ensures db.links[l].blob < db.nextBlob && db.links[l].blob in db.blobs
    ensures db.links[l].event in BlobEvents(db, db.links[l].blob)
  {
    var k := db.links[l];
    assert InBlob(db, k.blob, k.event);
  }

  /**
   * In a consistent store, every event some blob holds is uploaded: the
   * conversion, when it succeeds, has a record for it after its blob's
   * header.
   */
  lemma EveryLinkedEventUploaded(db: Db, packageName: string, l: nat)
    requires Valid(db) && l in db.links && ConvertSpec(db, packageName).Ok?
    ensures var rs := ConvertSpec(db, packageName).value;
      exists i, j :: 0 <= i < j < |rs| && rs[i].Header? && rs[i].blob == db.links[l].blob &&
        rs[j].EventRecord? && rs[j].event == db.links[l].event
  {
    ConvertHeadersSound(db, packageName, db.nextBlob);
    ConvertHeadersCover(db, packageName, db.nextBlob);
    LinkedEventInBlob(db, l);
    LaidHolds(db, ConvertSpec(db, packageName).value, db.nextBlob, db.links[l].blob, db.links[l].event);
  }
}
