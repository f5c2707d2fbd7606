/**
 * What the upload handler decides and what it does to the store after an
 * upload, as functions of the store; the `Uploads` handler methods are
 * proved to follow them.
 */
module UploadSpec {
  import opened Wrappers
  import opened Store
  import Text
  import Shaping

  // ---------------------------------------------------------------------------
  // The HTTP exchange
  // ---------------------------------------------------------------------------

  /**
   * How one POST ended: the body could not be encoded or compressed, the
   * connection failed, or a status code came back (and, outside the 4xx
   * and 5xx ranges, whether the response body could be read).
   */
  datatype Outcome = EncodingFailure | TransportFailure | Status(code: int, bodyRead: bool)

  /**
   * `upload`'s return value. True means the data is finished with: it was
   * delivered, or the server refused it with a client error and it must
   * not be sent again. False means keep it and retry later.
   */
  function Accepted(o: Outcome): (done: bool)
    ensures o.Status? && 400 <= o.code <= 499 ==> done
    ensures o.Status? && 500 <= o.code <= 599 ==> !done
    ensures !o.Status? ==> !done
    ensures done && o.Status? && !(400 <= o.code <= 499) ==> o.bodyRead
  {
    match o
    case EncodingFailure => false
    case TransportFailure => false
    case Status(code, bodyRead) =>
      if 400 <= code <= 499 then true
      else if 500 <= code <= 599 then false
      else bodyRead
  }

  const MAX_UPLOAD_BYTES: nat := 50000

  /** `isUploadTooBig`: the body's UTF-8 encoding is at least 50000 bytes. */
  function IsUploadTooBig(body: string): (tooBig: bool)
    ensures |body| >= MAX_UPLOAD_BYTES ==> tooBig
    ensures 4 * |body| < MAX_UPLOAD_BYTES ==> !tooBig
  {
    Text.Utf8Length(body) >= MAX_UPLOAD_BYTES
  }

  // ---------------------------------------------------------------------------
  // deleteBlobsAndSessions
  // ---------------------------------------------------------------------------

  /** The store part way through the link cursor, with the blob set and session list gathered so far. */
  datatype Sweep = Sweep(db: Db, blobs: set<nat>, sessions: seq<nat>)

  /**
   * One row of the link cursor: the link, the event's attributes, then,
   * when the event is (still) a close event, its session's history, and
   * the event itself.
   */
  function SweepLink(w: Sweep, l: nat, k: Link): Sweep
  {
    var d1 := RemoveAttributesOf(RemoveLink(w.db, l), k.event);
    if k.event in d1.events && d1.events[k.event].name == CloseEvent then
      var s := d1.events[k.event].session;
      Sweep(RemoveEvent(RemoveHistoryOf(d1, s), k.event), w.blobs + {k.blob}, w.sessions + [s])
    else
      Sweep(RemoveEvent(d1, k.event), w.blobs + {k.blob}, w.sessions)
  }

  /** The link rows with id below `n`, in id order. */
  function SweepBelow(db: Db, n: nat): Sweep
  {
    if n == 0 then Sweep(db, {}, [])
    else
      var w := SweepBelow(db, n - 1);
      if n - 1 in db.links then SweepLink(w, n - 1, db.links[n - 1]) else w
  }

  /** `deleteBlobsAndSessions`: the link cursor, then the gathered blobs, then the gathered sessions. */
  function DeleteSpec(db: Db): Db
  {
    var w := SweepBelow(db, db.nextLink);
    w.db.(blobs := w.db.blobs - w.blobs, sessions := w.db.sessions - set s | s in w.sessions)
  }

  predicate SweptEvent(db: Db, n: nat, e: nat)
  {
    exists l :: l < n && l in db.links && db.links[l].event == e
  }

  predicate SweptBlob(db: Db, n: nat, b: nat)
  {
    exists l :: l < n && l in db.links && db.links[l].blob == b
  }

  /** Session `s` has a close event one of the first links points at. */
  predicate ClosedBy(db: Db, n: nat, s: nat)
  {
    exists l :: l < n && l in db.links && db.links[l].event in db.events &&
      db.events[db.links[l].event].name == CloseEvent && db.events[db.links[l].event].session == s
  }

  /** The first `n` links reference a blob exactly when the first `n - 1` do or link `n - 1` points at it. */
  lemma SweptBlobStep(db: Db, n: nat, b: nat)
    requires n > 0
    ensures SweptBlob(db, n, b) <==> SweptBlob(db, n - 1, b) || (n - 1 in db.links && db.links[n - 1].blob == b)
  {
    if SweptBlob(db, n - 1, b) {
      var l :| l < n - 1 && l in db.links && db.links[l].blob == b;
      assert l < n;
    }
    if SweptBlob(db, n, b) && !SweptBlob(db, n - 1, b) {
      var l :| l < n && l in db.links && db.links[l].blob == b;
      assert l == n - 1;
    }
  }

  /** Link `n - 1`, if present, removes itself and records its blob; only four tables change. */
  lemma SweepStepFrame(db: Db, n: nat)
    requires n > 0
    ensures var w0 := SweepBelow(db, n - 1); var w := SweepBelow(db, n);
      w.db == w0.db.(links := w.db.links, events := w.db.events, attributes := w.db.attributes, history := w.db.history) &&
      w.db.links == (if n - 1 in db.links then w0.db.links - {n - 1} else w0.db.links) &&
      w.blobs == if n - 1 in db.links then w0.blobs + {db.links[n - 1].blob} else w0.blobs
  {
    var w0 := SweepBelow(db, n - 1);
    if n - 1 in db.links {
      var k := db.links[n - 1];
      var d1 := RemoveAttributesOf(RemoveLink(w0.db, n - 1), k.event);
      assert d1 == w0.db.(links := w0.db.links - {n - 1}, attributes := d1.attributes);
    }
  }

  /** Link `n - 1`, if present, removes exactly its event. */
  lemma SweepStepEvents(db: Db, n: nat)
    requires n > 0
    ensures var w0 := SweepBelow(db, n - 1).db; var w := SweepBelow(db, n).db;
      w.events == if n - 1 in db.links then w0.events - {db.links[n - 1].event} else w0.events
  {
  }

  lemma {:induction false} SweepFrame(db: Db, n: nat)
    ensures var w := SweepBelow(db, n);
      w.db == db.(links := w.db.links, events := w.db.events, attributes := w.db.attributes, history := w.db.history)
    ensures var w := SweepBelow(db, n);
      forall l :: l in w.db.links <==> l in db.links && l >= n
    ensures var w := SweepBelow(db, n);
      forall l :: l in w.db.links ==> w.db.links[l] == db.links[l]
    ensures forall b :: b in SweepBelow(db, n).blobs <==> SweptBlob(db, n, b)
  {
    if n > 0 {
      SweepFrame(db, n - 1);
      SweepStepFrame(db, n);
      forall b ensures b in SweepBelow(db, n).blobs <==> SweptBlob(db, n, b) {
        SweptBlobStep(db, n, b);
      }
    }
  }

  lemma {:induction false} SweepEvents(db: Db, n: nat)
    ensures var w := SweepBelow(db, n);
      forall e :: e in w.db.events <==> e in db.events && !SweptEvent(db, n, e)
    ensures var w := SweepBelow(db, n);
      forall e :: e in w.db.events ==> w.db.events[e] == db.events[e]
  {
    if n > 0 {
      SweepEvents(db, n - 1);
      SweepStepEvents(db, n);
      forall e ensures e in SweepBelow(db, n).db.events <==> e in db.events && !SweptEvent(db, n, e) {
        SweptEventStep(db, n, e);
      }
    }
  }

  /** The first `n` links sweep an event exactly when the first `n - 1` do or link `n - 1` points at it. */
  lemma SweptEventStep(db: Db, n: nat, e: nat)
    requires n > 0
    ensures SweptEvent(db, n, e) <==> SweptEvent(db, n - 1, e) || (n - 1 in db.links && db.links[n - 1].event == e)
  {
    if SweptEvent(db, n - 1, e) {
      var l :| l < n - 1 && l in db.links && db.links[l].event == e;
      assert l < n;
    }
    if SweptEvent(db, n, e) && !SweptEvent(db, n - 1, e) {
      var l :| l < n && l in db.links && db.links[l].event == e;
      assert l == n - 1;
    }
  }

  /** Link `n - 1`, if present, removes exactly the attributes of its event. */
  lemma SweepStepAttributes(db: Db, n: nat)
    requires n > 0
    ensures var w0 := SweepBelow(db, n - 1).db; var w := SweepBelow(db, n).db;
      forall a :: a in w.attributes <==> a in w0.attributes && !(n - 1 in db.links && w0.attributes[a].event == db.links[n - 1].event)
    ensures var w0 := SweepBelow(db, n - 1).db; var w := SweepBelow(db, n).db;
      forall a :: a in w.attributes ==> w.attributes[a] == w0.attributes[a]
  {
  }

  lemma {:induction false} SweepAttributes(db: Db, n: nat)
    ensures var w := SweepBelow(db, n);
      forall a :: a in w.db.attributes <==> a in db.attributes && !SweptEvent(db, n, db.attributes[a].event)
    ensures var w := SweepBelow(db, n);
      forall a :: a in w.db.attributes ==> w.db.attributes[a] == db.attributes[a]
  {
    if n > 0 {
      SweepAttributes(db, n - 1);
      SweepStepAttributes(db, n);
      forall a | a in db.attributes
        ensures a in SweepBelow(db, n).db.attributes <==> !SweptEvent(db, n, db.attributes[a].event)
      {
        SweptEventStep(db, n, db.attributes[a].event);
      }
    }
  }

  /** Link `n - 1` finds its event still present, a close event of session `s`. */
  predicate StepCloses(db: Db, n: nat, s: nat)
    requires n > 0
  {
    var w0 := SweepBelow(db, n - 1);
    n - 1 in db.links && db.links[n - 1].event in w0.db.events &&
    w0.db.events[db.links[n - 1].event].name == CloseEvent && w0.db.events[db.links[n - 1].event].session == s
  }

  /**
   * A session is closed by the first `n` links exactly when it was by the
   * first `n - 1` or link `n - 1` finds its close event: an event already
   * removed was removed by an earlier link, which recorded the session.
   */
  lemma ClosedByStep(db: Db, n: nat, s: nat)
    requires n > 0
    ensures ClosedBy(db, n, s) <==> ClosedBy(db, n - 1, s) || StepCloses(db, n, s)
  {
    SweepEvents(db, n - 1);
    if ClosedBy(db, n - 1, s) {
      var l :| l < n - 1 && l in db.links && db.links[l].event in db.events &&
        db.events[db.links[l].event].name == CloseEvent && db.events[db.links[l].event].session == s;
      assert l < n;
    }
    if StepCloses(db, n, s) {
      assert db.links[n - 1].event in db.events;
    }
    if ClosedBy(db, n, s) && !ClosedBy(db, n - 1, s) {
      var l :| l < n && l in db.links && db.links[l].event in db.events &&
        db.events[db.links[l].event].name == CloseEvent && db.events[db.links[l].event].session == s;
      assert l == n - 1;
    }
  }

  lemma {:induction false} SweepSessions(db: Db, n: nat)
    ensures forall s :: s in SweepBelow(db, n).sessions <==> ClosedBy(db, n, s)
  {
    if n > 0 {
      SweepSessions(db, n - 1);
      forall s ensures s in SweepBelow(db, n).sessions <==> ClosedBy(db, n, s) {
        ClosedByStep(db, n, s);
      }
    }
  }

  /** Link `n - 1` removes a session's history exactly when it finds that session's close event. */
  lemma SweepStepHistory(db: Db, n: nat)
    requires n > 0
    ensures var w0 := SweepBelow(db, n - 1).db; var w := SweepBelow(db, n).db;
      forall h :: h in w.history <==> h in w0.history && !StepCloses(db, n, w0.history[h].session)
    ensures var w0 := SweepBelow(db, n - 1).db; var w := SweepBelow(db, n).db;
      forall h :: h in w.history ==> w.history[h] == w0.history[h]
  {
  }

  lemma {:induction false} SweepHistory(db: Db, n: nat)
    ensures var w := SweepBelow(db, n);
      forall h :: h in w.db.history <==> h in db.history && !ClosedBy(db, n, db.history[h].session)
    ensures var w := SweepBelow(db, n);
      forall h :: h in w.db.history ==> w.db.history[h] == db.history[h]
  {
    if n > 0 {
      SweepHistory(db, n - 1);
      SweepStepHistory(db, n);
      forall h | h in db.history
        ensures h in SweepBelow(db, n).db.history <==> !ClosedBy(db, n, db.history[h].session)
      {
        ClosedByStep(db, n, db.history[h].session);
      }
    }
  }

  /** Session `s` has a close event that is in some blob. */
  predicate UploadedClose(db: Db, s: nat)
  {
    exists e :: e in db.events && IsLinked(db, e) && db.events[e].name == CloseEvent && db.events[e].session == s
  }

  predicate BlobReferenced(db: Db, b: nat)
  {
    exists l :: l in db.links && db.links[l].blob == b
  }

  /** In a consistent store, all links together sweep exactly the linked events. */
  lemma SweptEventLinked(db: Db, e: nat)
    requires Valid(db)
    ensures SweptEvent(db, db.nextLink, e) <==> IsLinked(db, e)
  {
    if IsLinked(db, e) {
      var l :| l in db.links && db.links[l].event == e;
      assert l < db.nextLink;
    }
  }

  /** In a consistent store, all links together close exactly the sessions with an uploaded close event. */
  lemma ClosedByUploaded(db: Db, s: nat)
    requires Valid(db)
    ensures ClosedBy(db, db.nextLink, s) <==> UploadedClose(db, s)
  {
    if UploadedClose(db, s) {
      var e :| e in db.events && IsLinked(db, e) && db.events[e].name == CloseEvent && db.events[e].session == s;
      var l :| l in db.links && db.links[l].event == e;
      assert l < db.nextLink;
    }
    if ClosedBy(db, db.nextLink, s) {
      var l :| l < db.nextLink && l in db.links && db.links[l].event in db.events &&
        db.events[db.links[l].event].name == CloseEvent && db.events[db.links[l].event].session == s;
      assert IsLinked(db, db.links[l].event);
    }
  }

  /** In a consistent store, all links together reference exactly the blobs some link points at. */
  lemma SweptBlobReferenced(db: Db, b: nat)
    requires Valid(db)
    ensures SweptBlob(db, db.nextLink, b) <==> BlobReferenced(db, b)
  {
    if BlobReferenced(db, b) {
      var l :| l in db.links && db.links[l].blob == b;
      assert l < db.nextLink;
    }
  }

  /** The deletion removes every link and touches only five tables. */
  lemma DeleteFrameMeaning(db: Db)
    requires Valid(db)
    ensures DeleteSpec(db).links == map[]
    ensures var r := DeleteSpec(db);
      r == db.(links := r.links, events := r.events, attributes := r.attributes, history := r.history,
               sessions := r.sessions, blobs := r.blobs)
  {
    SweepFrame(db, db.nextLink);
    assert SweepBelow(db, db.nextLink).db.links == map[];
  }

  /** The deletion removes exactly the linked events and their attributes. */
  lemma DeleteEventsMeaning(db: Db)
    requires Valid(db)
    ensures var r := DeleteSpec(db);
      (forall e :: e in r.events <==> e in db.events && !IsLinked(db, e)) &&
      (forall e :: e in r.events ==> r.events[e] == db.events[e])
    ensures var r := DeleteSpec(db);
      (forall a :: a in r.attributes <==> a in db.attributes && !IsLinked(db, db.attributes[a].event)) &&
      (forall a :: a in r.attributes ==> r.attributes[a] == db.attributes[a])
  {
    var n := db.nextLink;
    SweepEvents(db, n);
    SweepAttributes(db, n);
    forall e ensures SweptEvent(db, n, e) <==> IsLinked(db, e) {
      SweptEventLinked(db, e);
    }
  }

  /** The deletion removes exactly the sessions, and their history, whose close event was uploaded. */
  lemma DeleteSessionsMeaning(db: Db)
    requires Valid(db)
    ensures var r := DeleteSpec(db);
      (forall h :: h in r.history <==> h in db.history && !UploadedClose(db, db.history[h].session)) &&
      (forall h :: h in r.history ==> r.history[h] == db.history[h])
    ensures var r := DeleteSpec(db);
      (forall s :: s in r.sessions <==> s in db.sessions && !UploadedClose(db, s)) &&
      (forall s :: s in r.sessions ==> r.sessions[s] == db.sessions[s])
  {
    var n := db.nextLink;
    SweepFrame(db, n);
    SweepSessions(db, n);
    SweepHistory(db, n);
    forall s ensures ClosedBy(db, n, s) <==> UploadedClose(db, s) {
      ClosedByUploaded(db, s);
    }
  }

  /** The deletion removes exactly the blobs some link referenced. */
  lemma DeleteBlobsMeaning(db: Db)
    requires Valid(db)
    ensures var r := DeleteSpec(db);
      forall b :: b in r.blobs <==> b in db.blobs && !BlobReferenced(db, b)
  {
    var n := db.nextLink;
    SweepFrame(db, n);
    forall b ensures SweptBlob(db, n, b) <==> BlobReferenced(db, b) {
      SweptBlobReferenced(db, b);
    }
  }

  /**
   * After a successful upload every link is gone, and so is every linked
   * event with its attributes and every referenced blob; a session and
   * its history go only when one of its linked events is a close event.
   * Everything else, unlinked events first of all, is untouched.
   */
  lemma DeleteMeaning(db: Db)
    requires Valid(db)
    ensures DeleteSpec(db).links == map[]
    ensures var r := DeleteSpec(db);
      (forall e :: e in r.events <==> e in db.events && !IsLinked(db, e)) &&
      (forall e :: e in r.events ==> r.events[e] == db.events[e])
    ensures var r := DeleteSpec(db);
      (forall a :: a in r.attributes <==> a in db.attributes && !IsLinked(db, db.attributes[a].event)) &&
      (forall a :: a in r.attributes ==> r.attributes[a] == db.attributes[a])
    ensures var r := DeleteSpec(db);
      (forall h :: h in r.history <==> h in db.history && !UploadedClose(db, db.history[h].session)) &&
      (forall h :: h in r.history ==> r.history[h] == db.history[h])
    ensures var r := DeleteSpec(db);
      (forall s :: s in r.sessions <==> s in db.sessions && !UploadedClose(db, s)) &&
      (forall s :: s in r.sessions ==> r.sessions[s] == db.sessions[s])
    ensures var r := DeleteSpec(db);
      forall b :: b in r.blobs <==> b in db.blobs && !BlobReferenced(db, b)
    ensures var r := DeleteSpec(db);
      r == db.(links := r.links, events := r.events, attributes := r.attributes, history := r.history,
               sessions := r.sessions, blobs := r.blobs)
  {
    DeleteFrameMeaning(db);
    DeleteEventsMeaning(db);
    DeleteSessionsMeaning(db);
    DeleteBlobsMeaning(db);
  }

  /** The deletion keeps the store invariant. */
  lemma DeleteValid(db: Db)
    requires Valid(db)
    ensures Valid(DeleteSpec(db))
  {
    DeleteMeaning(db);
  }

  // ---------------------------------------------------------------------------
  // getProfileAttributes and deleteProfileAttribute
  // ---------------------------------------------------------------------------

  type Fields = seq<(string, Shaping.Json)>

  /** The value under `k`: the first entry with that key. */
  function JsonGet(fs: Fields, k: string): Option<Shaping.Json>
  {
    if fs == [] then None else if fs[0].0 == k then Some(fs[0].1) else JsonGet(fs[1..], k)
  }

  /** `JSONObject.put`: replaces the value under `k`, or adds `k` at the end. */
  function JsonPut(fs: Fields, k: string, v: Shaping.Json): (r: Fields)
    ensures JsonGet(r, k) == Some(v)
    ensures forall k' :: k' != k ==> JsonGet(r, k') == JsonGet(fs, k')
  {
    if fs == [] then [(k, v)]
    else if fs[0].0 == k then [(k, v)] + fs[1..]
    else
      assert ([fs[0]] + JsonPut(fs[1..], k, v))[1..] == JsonPut(fs[1..], k, v);
      [fs[0]] + JsonPut(fs[1..], k, v)
  }

  /** A stored attribute that does not parse is taken as an empty object. */
  function ParsedFields(j: StoredJson): Fields
  {
    if j.Parsed? then j.fields else []
  }

  /** One customer's entry: the merged object and the ids of the rows merged into it. */
  datatype Consolidated = Consolidated(fields: Fields, rowIds: seq<nat>)

  predicate SetRowOf(db: Db, c: string, p: nat)
  {
    p in db.profiles && db.profiles[p].action == SET_ATTRIBUTE && db.profiles[p].customer == c
  }

  /**
   * The profile cursor over row ids below `n`, ascending: SET_ATTRIBUTE
   * rows only; a customer's first row gives the whole object, each later
   * row puts its first field; every merged row's id is kept.
   */
  function ConsolidateBelow(db: Db, n: nat): map<string, Consolidated>
  {
    if n == 0 then map[] else MergeRow(db, ConsolidateBelow(db, n - 1), n - 1)
  }

  /** One cursor step over row `p`. */
  function MergeRow(db: Db, m: map<string, Consolidated>, p: nat): map<string, Consolidated>
  {
    if p in db.profiles && db.profiles[p].action == SET_ATTRIBUTE then
      var row := db.profiles[p];
      var fs := ParsedFields(row.attribute);
      if row.customer !in m then m[row.customer := Consolidated(fs, [p])]
      else
        var c := m[row.customer];
        m[row.customer := Consolidated(if fs == [] then c.fields else JsonPut(c.fields, fs[0].0, fs[0].1), c.rowIds + [p])]
    else m
  }

  /** Every entry holds one or more ascending ids of its customer's SET_ATTRIBUTE rows below `n`. */
  ghost predicate RowsSound(db: Db, m: map<string, Consolidated>, n: nat)
  {
    forall c :: c in m ==>
      |m[c].rowIds| > 0 &&
      (forall i :: 0 <= i < |m[c].rowIds| ==> m[c].rowIds[i] < n && SetRowOf(db, c, m[c].rowIds[i])) &&
      (forall i, j :: 0 <= i < j < |m[c].rowIds| ==> m[c].rowIds[i] < m[c].rowIds[j])
  }

  /** Every SET_ATTRIBUTE row below `n` is gathered under its customer. */
  ghost predicate RowsComplete(db: Db, m: map<string, Consolidated>, n: nat)
  {
    forall p: nat, c :: p < n && SetRowOf(db, c, p) ==> c in m && p in m[c].rowIds
  }

  lemma MergeRowSound(db: Db, m: map<string, Consolidated>, p: nat)
    requires RowsSound(db, m, p)
    ensures RowsSound(db, MergeRow(db, m, p), p + 1)
  {
    var r := MergeRow(db, m, p);
    forall c | c in r
      ensures |r[c].rowIds| > 0
      ensures forall i :: 0 <= i < |r[c].rowIds| ==> r[c].rowIds[i] < p + 1 && SetRowOf(db, c, r[c].rowIds[i])
      ensures forall i, j :: 0 <= i < j < |r[c].rowIds| ==> r[c].rowIds[i] < r[c].rowIds[j]
    {
      if SetRowOf(db, c, p) && c in m {
        assert r[c].rowIds == m[c].rowIds + [p];
      } else if SetRowOf(db, c, p) {
        assert r[c].rowIds == [p];
      } else {
        assert r[c] == m[c];
      }
    }
  }

  /** `MergeRowSound` for the step from `n - 1` to `n`. */
  lemma MergeRowSoundAt(db: Db, m: map<string, Consolidated>, n: nat)
    requires n > 0 && RowsSound(db, m, n - 1)
    ensures RowsSound(db, MergeRow(db, m, n - 1), n)
  {
    var p := n - 1;
    MergeRowSound(db, m, p);
    assert p + 1 == n;
  }

  lemma MergeRowComplete(db: Db, m: map<string, Consolidated>, n: nat)
    requires n > 0 && RowsComplete(db, m, n - 1)
    ensures RowsComplete(db, MergeRow(db, m, n - 1), n)
  {
    var p := n - 1;
    var r := MergeRow(db, m, p);
    forall q: nat, c | q < n && SetRowOf(db, c, q) ensures c in r && q in r[c].rowIds {
      if SetRowOf(db, c, p) && c in m {
        assert r[c].rowIds == m[c].rowIds + [p];
      } else if SetRowOf(db, c, p) {
        assert r[c].rowIds == [p];
      } else {
        assert q < p;
        assert r[c] == m[c];
      }
    }
  }

  /**
   * The merged rows: each customer present has at least one row; their
   * ids are ascending SET_ATTRIBUTE rows of that customer; and every such
   * row below `n` is gathered under its customer.
   */
  lemma {:induction false} ConsolidateRows(db: Db, n: nat)
    ensures RowsSound(db, ConsolidateBelow(db, n), n)
    ensures RowsComplete(db, ConsolidateBelow(db, n), n)
  {
    if n > 0 {
      ConsolidateRows(db, n - 1);
      MergeRowSoundAt(db, ConsolidateBelow(db, n - 1), n);
      MergeRowComplete(db, ConsolidateBelow(db, n - 1), n);
    }
  }

  function Consolidate(db: Db): map<string, Consolidated>
  {
    ConsolidateBelow(db, db.nextProfile)
  }

  /** `setProfileAttribute` row `p` of customer `c` that sets `k` first. */
  predicate PutsKey(db: Db, c: string, p: nat, k: string)
  {
    SetRowOf(db, c, p) && ParsedFields(db.profiles[p].attribute) != [] && ParsedFields(db.profiles[p].attribute)[0].0 == k
  }

  /** A row that does not put `k` leaves an existing customer's value under `k` alone. */
  lemma MergeRowKeeps(db: Db, m: map<string, Consolidated>, p: nat, c: string, k: string)
    requires c in m && !PutsKey(db, c, p, k)
    ensures c in MergeRow(db, m, p)
    ensures JsonGet(MergeRow(db, m, p)[c].fields, k) == JsonGet(m[c].fields, k)
  {
  }

  /** A later row of an existing customer that puts `k` sets it to its own value. */
  lemma MergeRowPuts(db: Db, m: map<string, Consolidated>, p: nat, c: string, k: string)
    requires c in m && PutsKey(db, c, p, k)
    ensures c in MergeRow(db, m, p)
    ensures JsonGet(MergeRow(db, m, p)[c].fields, k) == Some(ParsedFields(db.profiles[p].attribute)[0].1)
  {
  }

  /**
   * A later row overwrites the same attribute name: once a customer has
   * an earlier row, the value their merged object holds under `k` is the
   * one from the latest row that puts `k`.
   */
  lemma {:induction false} LaterRowOverwrites(db: Db, n: nat, c: string, p: nat, q: nat, k: string)
    requires q < p < n && SetRowOf(db, c, q) && PutsKey(db, c, p, k)
    requires forall p': nat :: p < p' < n ==> !PutsKey(db, c, p', k)
    ensures c in ConsolidateBelow(db, n)
    ensures JsonGet(ConsolidateBelow(db, n)[c].fields, k) == Some(ParsedFields(db.profiles[p].attribute)[0].1)
  {
    ConsolidateRows(db, n - 1);
    if n - 1 == p {
      MergeRowPuts(db, ConsolidateBelow(db, n - 1), p, c, k);
    } else {
      LaterRowOverwrites(db, n - 1, c, p, q, k);
      MergeRowKeeps(db, ConsolidateBelow(db, n - 1), n - 1, c, k);
    }
  }

  /** `deleteProfileAttribute` with one customer's gathered ids: `IN (id, id, ...)`. */
  function DeleteRows(db: Db, ids: seq<nat>): Db
  {
    RemoveProfiles(db, set i | i in ids)
  }

  /**
   * Deleting a customer's gathered ids removes exactly that customer's
   * SET_ATTRIBUTE rows; other customers' rows and other actions stay.
   */
  lemma DeleteOnlyCustomerRows(db: Db, c: string)
    requires Valid(db) && c in Consolidate(db)
    ensures var r := DeleteRows(db, Consolidate(db)[c].rowIds);
      (forall p :: p in r.profiles <==> p in db.profiles && !SetRowOf(db, c, p)) &&
      r == db.(profiles := r.profiles)
  {
    ConsolidateRows(db, db.nextProfile);
    var ids := Consolidate(db)[c].rowIds;
    forall p | p in db.profiles && SetRowOf(db, c, p) ensures p in ids {
      assert p < db.nextProfile;
    }
    forall p | p in ids ensures SetRowOf(db, c, p) {
      var i :| 0 <= i < |ids| && ids[i] == p;
      assert ConsolidateBelow(db, db.nextProfile)[c].rowIds[i] == p;
    }
  }

  /** The gathered row ids of the customers in `cs` whose upload was accepted. */
  function AcceptedRows(m: map<string, Consolidated>, outcome: string -> Outcome, cs: set<string>): set<nat>
  {
    set c, p | c in cs && c in m && Accepted(outcome(c)) && p in m[c].rowIds :: p
  }

  /** Two deletions of profile rows are one deletion of both id sets. */
  lemma DeleteRowsTwice(db: Db, ids: set<nat>, more: seq<nat>)
    ensures DeleteRows(RemoveProfiles(db, ids), more) == RemoveProfiles(db, ids + set i | i in more)
  {
    assert db.profiles - ids - (set i | i in more) == db.profiles - (ids + set i | i in more);
  }

  /** Handling one more customer adds its rows exactly when its upload was accepted. */
  lemma AcceptedRowsStep(m: map<string, Consolidated>, outcome: string -> Outcome, cs: set<string>, c: string)
    requires c in m
    ensures AcceptedRows(m, outcome, cs + {c}) ==
      AcceptedRows(m, outcome, cs) + (if Accepted(outcome(c)) then set i | i in m[c].rowIds else {})
  {
  }

  /**
   * MESSAGE_UPLOAD_PROFILE's effect on the store: one POST per customer,
   * whose gathered rows are deleted when that POST is accepted.
   */
  function ProfileUploadSpec(db: Db, outcome: string -> Outcome): Db
  {
    var m := Consolidate(db);
    RemoveProfiles(db, AcceptedRows(m, outcome, m.Keys))
  }

  /**
   * After a profile upload exactly the SET_ATTRIBUTE rows of the customers
   * whose POST was accepted are gone; rows of other customers and rows of
   * other actions stay, and nothing else in the store changes.
   */
  lemma ProfileUploadMeaning(db: Db, outcome: string -> Outcome)
    requires Valid(db)
    ensures var r := ProfileUploadSpec(db, outcome);
      (forall p :: p in r.profiles <==>
         p in db.profiles && !(db.profiles[p].action == SET_ATTRIBUTE && Accepted(outcome(db.profiles[p].customer)))) &&
      r == db.(profiles := r.profiles)
  {
    ConsolidateRows(db, db.nextProfile);
    var m := Consolidate(db);
    var gone := AcceptedRows(m, outcome, m.Keys);
    forall p | p in db.profiles
      ensures p in gone <==> db.profiles[p].action == SET_ATTRIBUTE && Accepted(outcome(db.profiles[p].customer))
    {
      var c := db.profiles[p].customer;
      if db.profiles[p].action == SET_ATTRIBUTE && Accepted(outcome(c)) {
        assert p < db.nextProfile && SetRowOf(db, c, p);
        assert c in m && p in m[c].rowIds;
      }
      if p in gone {
        var c', p' :| c' in m.Keys && c' in m && Accepted(outcome(c')) && p' in m[c'].rowIds && p' == p;
        var i :| 0 <= i < |m[c'].rowIds| && m[c'].rowIds[i] == p;
        assert SetRowOf(db, c', ConsolidateBelow(db, db.nextProfile)[c'].rowIds[i]);
      }
    }
  }
}
