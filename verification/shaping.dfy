/**
 * Input shaping of the public `LocalyticsSession` API: argument checks that
 * throw `IllegalArgumentException`, the remapping of attribute keys into the
 * application namespace, the custom-dimension slots, and the value
 * conversions of `setProfileAttribute`. Each public call either throws or
 * produces the message it hands to the session handler.
 */
module Shaping {
  import opened Wrappers
  import opened Text
  import opened TreeMaps

  // ---------------------------------------------------------------------------
  // Custom dimensions
  // ---------------------------------------------------------------------------

  /** Slot i's key paired with element i, for the first ten elements, in slot order. */
  function SlotEntries(dims: seq<string>): (s: Pairs)
    ensures |s| == if |dims| < MAX_CUSTOM_DIMENSIONS then |dims| else MAX_CUSTOM_DIMENSIONS
    ensures forall i :: 0 <= i < |s| ==> s[i] == (DimensionKey(i), dims[i])
  {
    var n := if |dims| < MAX_CUSTOM_DIMENSIONS then |dims| else MAX_CUSTOM_DIMENSIONS;
    seq(n, i requires 0 <= i < n => (DimensionKey(i), dims[i]))
  }

  /** The TreeMap `convertDimensionsToAttributes` returns, as a value. */
  function DimensionAttributes(dims: seq<string>): Pairs
  {
    PutAll([], SlotEntries(dims))
  }

  /**
   * `convertDimensionsToAttributes`: element i, for i below ten, is put
   * into a TreeMap under slot i's key; later elements are ignored.
   */
  method ConvertDimensionsToAttributes(dims: seq<string>) returns (attrs: Pairs)
    ensures attrs == DimensionAttributes(dims)
  {
    attrs := [];
    var index := 0;
    ghost var slots := SlotEntries(dims);
    while index < |dims|
      invariant 0 <= index <= |dims|
      invariant attrs == PutAll([], slots[..if index < MAX_CUSTOM_DIMENSIONS then index else MAX_CUSTOM_DIMENSIONS])
    {
      if index < MAX_CUSTOM_DIMENSIONS {
        assert slots[..index + 1][..index] == slots[..index];
        attrs := Put(attrs, DimensionKey(index), dims[index]);
      }
      index := index + 1;
    }
    assert slots[..|slots|] == slots;
  }

  /**
   * The dimension map holds one entry per element up to the tenth, under
   * that slot's key, in key order, and no other key.
   */
  lemma DimensionAttributesMeaning(dims: seq<string>)
    ensures Sorted(DimensionAttributes(dims))
    ensures |DimensionAttributes(dims)| == if |dims| < MAX_CUSTOM_DIMENSIONS then |dims| else MAX_CUSTOM_DIMENSIONS
    ensures forall i :: 0 <= i < MAX_CUSTOM_DIMENSIONS ==>
      Lookup(DimensionAttributes(dims), DimensionKey(i)) == if i < |dims| then Some(dims[i]) else None
    ensures forall k :: HasKey(DimensionAttributes(dims), k) ==> IsDimensionKey(k)
  {
    var s := SlotEntries(dims);
    var d := DimensionAttributes(dims);
    assert DistinctKeys(s) by {
      forall i, j | 0 <= i < j < |s|
        ensures s[i].0 != s[j].0
      {
        DimensionKeysDistinct(i, j);
      }
    }
    PutAllMeaning([], s);
    PutAllNew([], s);
    assert |d| == |multiset(d)| == |multiset(s)| == |s|;
    forall i | 0 <= i < MAX_CUSTOM_DIMENSIONS
      ensures Lookup(d, DimensionKey(i)) == if i < |dims| then Some(dims[i]) else None
    {
      LastLookupHasKey(s, DimensionKey(i));
      if i < |s| {
        LookupAt(s, i);
      } else {
        forall j | 0 <= j < |s|
          ensures s[j].0 != DimensionKey(i)
        {
          DimensionKeysDistinct(i, j);
        }
      }
    }
    forall k | HasKey(d, k)
      ensures IsDimensionKey(k)
    {
      LastLookupHasKey(s, k);
      var j :| 0 <= j < |s| && s[j].0 == k;
    }
  }

  /** The check on one custom-dimension element: null, then empty. */
  function DimensionError(e: Option<string>): Option<string>
  {
    if e.None? then Some("customDimensions cannot contain null elements")
    else if e.value == "" then Some("customDimensions cannot contain empty elements")
    else None
  }

  /** The exception of the first offending element, if any (the loop stops at it). */
  function FirstDimensionError(dims: seq<Option<string>>): Option<string>
  {
    if dims == [] then None
    else if DimensionError(dims[0]).Some? then DimensionError(dims[0])
    else FirstDimensionError(dims[1..])
  }

  lemma {:induction false} FirstDimensionErrorNone(dims: seq<Option<string>>)
    ensures FirstDimensionError(dims).None? <==>
      forall i :: 0 <= i < |dims| ==> dims[i].Some? && dims[i].value != ""
  {
    if dims != [] {
      FirstDimensionErrorNone(dims[1..]);
      assert forall i :: 1 <= i < |dims| ==> dims[i] == dims[1..][i - 1];
    }
  }

  /** The validation loop over a dimension list. */
  method ValidateDimensions(dims: seq<Option<string>>) returns (err: Option<string>)
    ensures err == FirstDimensionError(dims)
    ensures err.None? <==> forall i :: 0 <= i < |dims| ==> dims[i].Some? && dims[i].value != ""
  {
    var i := 0;
    while i < |dims|
      invariant 0 <= i <= |dims|
      invariant forall j :: 0 <= j < i ==> DimensionError(dims[j]).None?
      invariant FirstDimensionError(dims) == FirstDimensionError(dims[i..])
    {
      assert dims[i..][1..] == dims[i + 1..];
      var e := DimensionError(dims[i]);
      if e.Some? {
        FirstDimensionErrorNone(dims);
        return e;
      }
      i := i + 1;
    }
    FirstDimensionErrorNone(dims);
    return None;
  }

  /** The non-null elements of a list that passed validation. */
  function Present(dims: seq<Option<string>>): (r: seq<string>)
    requires forall i :: 0 <= i < |dims| ==> dims[i].Some?
    ensures |r| == |dims| && forall i :: 0 <= i < |r| ==> r[i] == dims[i].value
  {
    seq(|dims|, i requires 0 <= i < |dims| => dims[i].value)
  }

  /**
   * `open(customDimensions)` and `close(customDimensions)`: after the element
   * checks, a null or empty list sends no attributes and any other list
   * sends its dimension attributes.
   */
  method OpenCloseAttributes(dims: Option<seq<Option<string>>>) returns (r: Result<Option<seq<(string, string)>>>)
    ensures dims.Some? && FirstDimensionError(dims.value).Some? ==> r == Err(FirstDimensionError(dims.value).value)
    ensures r.Ok? <==> dims.None? || FirstDimensionError(dims.value).None?
    ensures r.Ok? && (dims.None? || dims.value == []) ==> r.value.None?
    ensures r.Ok? && dims.Some? ==>
      (forall i :: 0 <= i < |dims.value| ==> dims.value[i].Some? && dims.value[i].value != "") &&
      (dims.value != [] ==> r.value == Some(DimensionAttributes(Present(dims.value))))
  {
    if dims.Some? {
      var err := ValidateDimensions(dims.value);
      if err.Some? {
        return Err(err.value);
      }
      if dims.value == [] {
        return Ok(None);
      }
      var attrs := ConvertDimensionsToAttributes(Present(dims.value));
      assert attrs == DimensionAttributes(Present(dims.value));
      return Ok(Some(attrs));
    }
    return Ok(None);
  }

  // ---------------------------------------------------------------------------
  // tagEvent
  // ---------------------------------------------------------------------------

  /** One entry of a caller's attribute map; Java maps may hold null keys and values. */
  type Entry = (Option<string>, Option<string>)

  /** The checks on one entry, in the order the source makes them. */
  function EntryError(e: Entry): Option<string>
  {
    if e.0.None? then Some("attributes cannot contain null keys")
    else if e.1.None? then Some("attributes cannot contain null values")
    else if e.0.value == "" then Some("attributes cannot contain empty keys")
    else if e.1.value == "" then Some("attributes cannot contain empty values")
    else None
  }

  predicate EntryValid(e: Entry)
  {
    e.0.Some? && e.1.Some? && e.0.value != "" && e.1.value != ""
  }

  function KeyOf(e: Entry): string
    requires EntryValid(e)
  {
    e.0.value
  }

  function ValueOf(e: Entry): string
    requires EntryValid(e)
  {
    e.1.value
  }

  function FirstEntryError(entries: seq<Entry>): Option<string>
  {
    if entries == [] then None
    else if EntryError(entries[0]).Some? then EntryError(entries[0])
    else FirstEntryError(entries[1..])
  }

  lemma {:induction false} FirstEntryErrorNone(entries: seq<Entry>)
    ensures FirstEntryError(entries).None? <==> forall i :: 0 <= i < |entries| ==> EntryValid(entries[i])
  {
    if entries != [] {
      FirstEntryErrorNone(entries[1..]);
      assert forall i :: 1 <= i < |entries| ==> entries[i] == entries[1..][i - 1];
    }
  }

  /** The validation loop over the caller's attribute entries, in iteration order. */
  method ValidateAttributes(entries: seq<Entry>) returns (err: Option<string>)
    ensures err == FirstEntryError(entries)
    ensures err.None? <==> forall i :: 0 <= i < |entries| ==> EntryValid(entries[i])
  {
    var i := 0;
    while i < |entries|
      invariant 0 <= i <= |entries|
      invariant forall j :: 0 <= j < i ==> EntryError(entries[j]).None?
      invariant FirstEntryError(entries) == FirstEntryError(entries[i..])
    {
      assert entries[i..][1..] == entries[i + 1..];
      var e := EntryError(entries[i]);
      if e.Some? {
        FirstEntryErrorNone(entries);
        return e;
      }
      i := i + 1;
    }
    FirstEntryErrorNone(entries);
    return None;
  }

  /** Every caller key moved into the application namespace, values unchanged. */
  function Remapped(packageName: string, entries: seq<Entry>): (r: seq<(string, string)>)
    requires forall i :: 0 <= i < |entries| ==> EntryValid(entries[i])
    ensures |r| == |entries|
    ensures forall i :: 0 <= i < |r| ==>
      r[i] == (AppKey(packageName, KeyOf(entries[i])), ValueOf(entries[i]))
  {
    seq(|entries|, i requires 0 <= i < |entries| =>
      (AppKey(packageName, KeyOf(entries[i])), ValueOf(entries[i])))
  }

  /** A Java map holds each key once. */
  predicate DistinctCallerKeys(entries: seq<Entry>)
  {
    forall i, j :: 0 <= i < j < |entries| ==> entries[i].0 != entries[j].0
  }

  /** The caller's entries put into a TreeMap under their application keys. */
  function CallerMap(packageName: string, attributes: Option<seq<Entry>>): Pairs
    requires attributes.Some? ==> forall i :: 0 <= i < |attributes.value| ==> EntryValid(attributes.value[i])
  {
    if attributes.Some? then PutAll([], Remapped(packageName, attributes.value)) else []
  }

  /**
   * The caller map is in key order and every key in it carries the
   * application prefix. For distinct caller keys it holds exactly the
   * remapped entries, each caller key mapping to the caller's value.
   */
  lemma CallerMapMeaning(packageName: string, attributes: Option<seq<Entry>>)
    requires attributes.Some? ==> forall i :: 0 <= i < |attributes.value| ==> EntryValid(attributes.value[i])
    ensures Sorted(CallerMap(packageName, attributes))
    ensures forall k :: HasKey(CallerMap(packageName, attributes), k) ==> AppPrefix(packageName) <= k
    ensures attributes.Some? && DistinctCallerKeys(attributes.value) ==>
      multiset(CallerMap(packageName, attributes)) == multiset(Remapped(packageName, attributes.value)) &&
      forall i :: 0 <= i < |attributes.value| ==>
        Lookup(CallerMap(packageName, attributes), AppKey(packageName, KeyOf(attributes.value[i]))) ==
        Some(ValueOf(attributes.value[i]))
  {
    if attributes.Some? {
      var e := attributes.value;
      var r := Remapped(packageName, e);
      var m := CallerMap(packageName, attributes);
      PutAllMeaning([], r);
      PutAllKeys([], r);
      forall k | HasKey(m, k)
        ensures AppPrefix(packageName) <= k
      {
        var j :| 0 <= j < |r| && r[j].0 == k;
      }
      if DistinctCallerKeys(e) {
        assert DistinctKeys(r) by {
          forall i, j | 0 <= i < j < |r|
            ensures r[i].0 != r[j].0
          {
            AppKeyInjective(packageName, KeyOf(e[i]), KeyOf(e[j]));
          }
        }
        PutAllNew([], r);
        forall i | 0 <= i < |r|
          ensures Lookup(m, r[i].0) == Some(r[i].1)
        {
          LastLookupHasKey(r, r[i].0);
          LookupAt(r, i);
        }
      }
    }
  }

  /**
   * The TreeMap `tagEvent` sends: every caller entry put under its key in
   * the application namespace, then the dimension map put over them.
   */
  function EventAttributes(packageName: string, attributes: Option<seq<Entry>>, dims: Option<seq<Option<string>>>): Pairs
    requires attributes.Some? ==> forall i :: 0 <= i < |attributes.value| ==> EntryValid(attributes.value[i])
    requires dims.Some? ==> forall i :: 0 <= i < |dims.value| ==> dims.value[i].Some?
  {
    var base := CallerMap(packageName, attributes);
    if dims.Some? then PutAll(base, DimensionAttributes(Present(dims.value))) else base
  }

  /**
   * The map `tagEvent` sends is in key order. It is a permutation of the
   * remapped caller entries followed by the dimension entries, so nothing
   * is lost or overwritten. Each caller key maps to the caller's value and
   * each dimension slot to its element.
   */
  lemma EventAttributesMeaning(packageName: string, attributes: Option<seq<Entry>>, dims: Option<seq<Option<string>>>)
    requires attributes.Some? ==> forall i :: 0 <= i < |attributes.value| ==> EntryValid(attributes.value[i])
    requires dims.Some? ==> forall i :: 0 <= i < |dims.value| ==> dims.value[i].Some?
    ensures Sorted(EventAttributes(packageName, attributes, dims))
    ensures (attributes.Some? ==> DistinctCallerKeys(attributes.value)) ==>
      multiset(EventAttributes(packageName, attributes, dims)) ==
      multiset((if attributes.Some? then Remapped(packageName, attributes.value) else []) +
               (if dims.Some? then SlotEntries(Present(dims.value)) else []))
    ensures attributes.Some? && DistinctCallerKeys(attributes.value) ==>
      forall i :: 0 <= i < |attributes.value| ==>
        Lookup(EventAttributes(packageName, attributes, dims), AppKey(packageName, KeyOf(attributes.value[i]))) ==
        Some(ValueOf(attributes.value[i]))
    ensures forall i :: 0 <= i < MAX_CUSTOM_DIMENSIONS ==>
      Lookup(EventAttributes(packageName, attributes, dims), DimensionKey(i)) ==
      if dims.Some? && i < |dims.value| then dims.value[i] else None
  {
    var base := CallerMap(packageName, attributes);
    CallerMapMeaning(packageName, attributes);
    forall i | 0 <= i < MAX_CUSTOM_DIMENSIONS
      ensures !HasKey(base, DimensionKey(i))
    {
      DimensionKeyNotApplication(packageName, i);
    }
    if dims.Some? {
      var ds := Present(dims.value);
      DimensionsOverCallerMap(packageName, base, ds);
      forall i | 0 <= i < MAX_CUSTOM_DIMENSIONS && i < |dims.value|
        ensures Some(ds[i]) == dims.value[i]
      {
      }
    }
  }

  /**
   * The dimension map put over a map of application keys: the step of
   * `EventAttributesMeaning` with dimensions.
   */
  lemma DimensionsOverCallerMap(packageName: string, base: Pairs, dims: seq<string>)
    requires Sorted(base)
    requires forall k :: HasKey(base, k) ==> AppPrefix(packageName) <= k
    ensures var m := PutAll(base, DimensionAttributes(dims));
      Sorted(m) &&
      multiset(m) == multiset(base) + multiset(SlotEntries(dims)) &&
      (forall k :: !IsDimensionKey(k) ==> Lookup(m, k) == Lookup(base, k)) &&
      (forall i :: 0 <= i < MAX_CUSTOM_DIMENSIONS ==>
        Lookup(m, DimensionKey(i)) == if i < |dims| then Some(dims[i]) else None)
  {
    var d := DimensionAttributes(dims);
    DimensionAttributesMeaning(dims);
    SortedDistinct(d);
    PutAllMeaning(base, d);
    forall k | HasKey(d, k)
      ensures !HasKey(base, k)
    {
      var i: nat :| i < MAX_CUSTOM_DIMENSIONS && k == DimensionKey(i);
      DimensionKeyNotApplication(packageName, i);
    }
    forall k
      ensures LastLookup(d, k) == Lookup(d, k)
    {
      LastLookupHasKey(d, k);
    }
    forall i | 0 <= i < MAX_CUSTOM_DIMENSIONS
      ensures !HasKey(base, DimensionKey(i))
    {
      DimensionKeyNotApplication(packageName, i);
    }
    PutAllNew(base, d);
    SlotEntriesPermutation(dims);
  }

  /** The dimension map holds exactly the slot entries. */
  lemma SlotEntriesPermutation(dims: seq<string>)
    ensures multiset(DimensionAttributes(dims)) == multiset(SlotEntries(dims))
  {
    var sl := SlotEntries(dims);
    assert DistinctKeys(sl) by {
      forall i, j | 0 <= i < j < |sl|
        ensures sl[i].0 != sl[j].0
      {
        DimensionKeysDistinct(i, j);
      }
    }
    PutAllNew([], sl);
  }

  /** The message `tagEvent` hands to the session handler. */
  datatype TagEventRequest = TagEventRequest(event: string, attributes: Option<Pairs>, clv: int)

  /**
   * `tagEvent(event, attributes, customDimensions, customerValueIncrease)`:
   * a null or empty event name, an offending attribute entry or an offending
   * dimension element throws (in that order of checking); otherwise the event
   * is sent with the TreeMap of its remapped attributes and dimension slots,
   * or with no attributes when both are null. That map is in key order and,
   * for a caller map (whose keys are distinct), a permutation of the remapped
   * entries followed by the dimension entries.
   */
  method TagEvent(packageName: string, event: Option<string>, attributes: Option<seq<Entry>>,
                  dims: Option<seq<Option<string>>>, clv: int) returns (r: Result<TagEventRequest>)
    ensures event.None? ==> r == Err("event cannot be null")
    ensures event == Some("") ==> r == Err("event cannot be empty")
    ensures event.Some? && event.value != "" && attributes.Some? && FirstEntryError(attributes.value).Some? ==>
      r == Err(FirstEntryError(attributes.value).value)
    ensures r.Ok? <==>
      event.Some? && event.value != "" &&
      (attributes.Some? ==> forall i :: 0 <= i < |attributes.value| ==> EntryValid(attributes.value[i])) &&
      (dims.Some? ==> forall i :: 0 <= i < |dims.value| ==> dims.value[i].Some? && dims.value[i].value != "")
    ensures r.Ok? ==> r.value.event == event.value && r.value.clv == clv
    ensures r.Ok? ==> (r.value.attributes.None? <==> attributes.None? && dims.None?)
    ensures r.Ok? && r.value.attributes.Some? ==>
      r.value.attributes.value == EventAttributes(packageName, attributes, dims) &&
      Sorted(r.value.attributes.value)
    ensures r.Ok? && r.value.attributes.Some? && attributes.Some? && DistinctCallerKeys(attributes.value) ==>
      multiset(r.value.attributes.value) ==
      multiset(Remapped(packageName, attributes.value) + (if dims.Some? then SlotEntries(Present(dims.value)) else []))
  {
    if event.None? {
      return Err("event cannot be null");
    }
    if event.value == "" {
      return Err("event cannot be empty");
    }
    if attributes.Some? {
      var err := ValidateAttributes(attributes.value);
      if err.Some? {
        return Err(err.value);
      }
    }
    if dims.Some? {
      var err := ValidateDimensions(dims.value);
      if err.Some? {
        return Err(err.value);
      }
    }
    if attributes.None? && dims.None? {
      return Ok(TagEventRequest(event.value, None, clv));
    }
    var remapped: Pairs := [];
    if attributes.Some? {
      var entries := attributes.value;
      var i := 0;
      while i < |entries|
        invariant 0 <= i <= |entries|
        invariant remapped == PutAll([], Remapped(packageName, entries[..i]))
      {
        assert Remapped(packageName, entries[..i + 1])[..i] == Remapped(packageName, entries[..i]);
        remapped := Put(remapped, AppKey(packageName, KeyOf(entries[i])), ValueOf(entries[i]));
        i := i + 1;
      }
      assert entries[..i] == entries;
    }
    if dims.Some? {
      var extra := ConvertDimensionsToAttributes(Present(dims.value));
      remapped := PutAll(remapped, extra);
    }
    EventAttributesMeaning(packageName, attributes, dims);
    return Ok(TagEventRequest(event.value, Some(remapped), clv));
  }

  /** `setCustomDimension(dimension, value)`: only slots 0..9 are accepted. */
  function SetCustomDimension(dimension: int, value: Option<string>): (r: Result<(nat, Option<string>)>)
    ensures r.Ok? <==> 0 <= dimension < MAX_CUSTOM_DIMENSIONS as int
    ensures r.Ok? ==> r.value == (dimension as nat, value)
  {
    if dimension < 0 || dimension > 9 then Err("Only valid dimensions are 0 - 9")
    else Ok((dimension as nat, value))
  }

  // ---------------------------------------------------------------------------
  // setProfileAttribute
  // ---------------------------------------------------------------------------

  /**
   * The argument of `setProfileAttribute`. Dates are given already formatted
   * as "yyyy-MM-dd"; `Unsupported` is any other runtime type.
   */
  datatype ProfileValue =
    | NullValue
    | StringValue(s: string)
    | StringArray(items: seq<Option<string>>)
    | DateValue(formatted: string)
    | DateArray(dates: seq<Option<string>>)
    | IntegerValue(n: int)
    | IntArray(ints: seq<int>)
    | IntegerArray(boxed: seq<Option<int>>)
    | LongValue(l: int)
    | LongArray(longs: seq<int>)
    | BoxedLongArray(boxedLongs: seq<Option<int>>)
    | Unsupported

  /** An element of a JSON array the library sends. */
  datatype Item = StrItem(s: string) | NumItem(n: int)

  /** The JSON value put under the attribute name. */
  datatype Json = JNull | JString(s: string) | JNumber(n: int) | JArray(items: seq<Item>)

  /** The message `setProfileAttribute` hands to the session handler (action SET_ATTRIBUTE). */
  datatype ProfileRequest = ProfileRequest(name: string, value: Json)

  predicate IsArray(v: ProfileValue)
  {
    v.StringArray? || v.DateArray? || v.IntArray? || v.IntegerArray? || v.LongArray? || v.BoxedLongArray?
  }

  /** An array argument as the `Object[]` it is converted to: primitives boxed, dates formatted, nulls kept. */
  function ArrayItems(v: ProfileValue): (items: seq<Option<Item>>)
    requires IsArray(v)
  {
    match v
    case StringArray(xs) => seq(|xs|, i requires 0 <= i < |xs| => if xs[i].None? then None else Some(StrItem(xs[i].value)))
    case DateArray(xs) => seq(|xs|, i requires 0 <= i < |xs| => if xs[i].None? then None else Some(StrItem(xs[i].value)))
    case IntArray(xs) => seq(|xs|, i requires 0 <= i < |xs| => Some(NumItem(xs[i])))
    case IntegerArray(xs) => seq(|xs|, i requires 0 <= i < |xs| => if xs[i].None? then None else Some(NumItem(xs[i].value)))
    case LongArray(xs) => seq(|xs|, i requires 0 <= i < |xs| => Some(NumItem(xs[i])))
    case BoxedLongArray(xs) => seq(|xs|, i requires 0 <= i < |xs| => if xs[i].None? then None else Some(NumItem(xs[i].value)))
  }

  /** A kept array item: not null and not the empty string. */
  predicate Keeps(o: Option<Item>)
  {
    o.Some? && o.value != StrItem("")
  }

  predicate TooLong(o: Option<Item>, maxValueLength: nat)
  {
    o.Some? && o.value.StrItem? && Utf8Length(o.value.s) > maxValueLength
  }

  /** The items of an array that survive the null/empty filter, in order. */
  function Kept(items: seq<Option<Item>>): seq<Item>
  {
    if items == [] then []
    else (if Keeps(items[0]) then [items[0].value] else []) + Kept(items[1..])
  }

  /** The filter keeps exactly the non-null, non-empty items. */
  lemma {:induction false} KeptMembers(items: seq<Option<Item>>)
    ensures forall x :: x in Kept(items) <==> Some(x) in items && x != StrItem("")
  {
    if items != [] {
      KeptMembers(items[1..]);
      assert items == [items[0]] + items[1..];
    }
  }

  /**
   * The array loop of `setProfileAttribute`: an over-long string item aborts
   * the whole call, null and empty items are dropped.
   */
  method CollectItems(items: seq<Option<Item>>, maxValueLength: nat) returns (r: Option<seq<Item>>)
    ensures r.None? <==> exists i :: 0 <= i < |items| && TooLong(items[i], maxValueLength)
    ensures r.Some? ==> r.value == Kept(items)
  {
    var list: seq<Item> := [];
    var i := 0;
    while i < |items|
      invariant 0 <= i <= |items|
      invariant forall j :: 0 <= j < i ==> !TooLong(items[j], maxValueLength)
      invariant list + Kept(items[i..]) == Kept(items)
    {
      assert items[i..] == [items[i]] + items[i + 1..];
      var item := items[i];
      if Keeps(item) {
        if TooLong(item, maxValueLength) {
          return None;
        }
        list := list + [item.value];
      }
      i := i + 1;
    }
    return Some(list);
  }

  /** What the value shaping puts under the name, or None when nothing is sent. */
  function ProfileJson(v: ProfileValue, maxValueLength: nat): Option<Json>
  {
    match v
    case Unsupported => None
    case NullValue => Some(JNull)
    case DateValue(d) => if Trim(d) == "" then None else Some(JString(d))
    case StringValue(s) =>
      if Utf8Length(s) > maxValueLength || Trim(s) == "" then None else Some(JString(s))
    case IntegerValue(n) => Some(JNumber(n))
    case LongValue(n) => Some(JNumber(n))
    case _ =>
      var items := ArrayItems(v);
      if exists i :: 0 <= i < |items| && TooLong(items[i], maxValueLength) then None
      else if Kept(items) == [] then None
      else Some(JArray(Kept(items)))
  }

  /** The name checks, after trimming: non-empty, short enough in UTF-8, not starting with "_". */
  predicate NameAccepted(trimmed: string, maxNameLength: nat)
  {
    trimmed != [] && Utf8Length(trimmed) <= maxNameLength && !("_" <= trimmed)
  }

  /**
   * The value half of `setProfileAttribute`: an unsupported type, an
   * over-long string, an array with a too-long item or no item left, or a
   * blank scalar gives nothing to send.
   */
  method ShapeProfileValue(value: ProfileValue, maxValueLength: nat) returns (r: Option<Json>)
    ensures r == ProfileJson(value, maxValueLength)
  {
    if value.Unsupported? {
      return None;
    }
    if IsArray(value) {
      var list := CollectItems(ArrayItems(value), maxValueLength);
      if list.None? || list.value == [] {
        return None;
      }
      return Some(JArray(list.value));
    }
    var json: Json;
    match value {
      case NullValue => json := JNull;
      case DateValue(d) => json := JString(d);
      case StringValue(s) =>
        if Utf8Length(s) > maxValueLength {
          return None;
        }
        json := JString(s);
      case IntegerValue(n) => json := JNumber(n);
      case LongValue(n) => json := JNumber(n);
    }
    var shown := match json case JNull => "null" case JString(s) => s case _ => "0";
    if Trim(shown) == "" {
      return None;
    }
    return Some(json);
  }

  /**
   * `setProfileAttribute(attributeName, attributeValue)`: a null or rejected
   * name sends nothing; otherwise the trimmed name goes with the shaped
   * value, when there is one.
   */
  method SetProfileAttribute(name: Option<string>, value: ProfileValue, maxNameLength: nat, maxValueLength: nat)
    returns (r: Option<ProfileRequest>)
    ensures name.None? ==> r.None?
    ensures name.Some? && !NameAccepted(Trim(name.value), maxNameLength) ==> r.None?
    ensures name.Some? && NameAccepted(Trim(name.value), maxNameLength) ==>
      r == (match ProfileJson(value, maxValueLength)
            case None => None
            case Some(j) => Some(ProfileRequest(Trim(name.value), j)))
  {
    if name.None? {
      return None;
    }
    var attributeName := Trim(name.value);
    if attributeName == [] {
      return None;
    }
    if Utf8Length(attributeName) > maxNameLength {
      return None;
    }
    if "_" <= attributeName {
      return None;
    }
    var json := ShapeProfileValue(value, maxValueLength);
    if json.None? {
      return None;
    }
    return Some(ProfileRequest(attributeName, json.value));
  }

  /** Null is sent as JSON null; numbers are always sent. */
  lemma NullAndNumbersSent(v: ProfileValue, maxValueLength: nat)
    requires v.NullValue? || v.IntegerValue? || v.LongValue?
    ensures ProfileJson(v, maxValueLength).Some?
    ensures v.NullValue? ==> ProfileJson(v, maxValueLength) == Some(JNull)
  {
  }

  /** A sent array holds no null and no empty string, and every other element of the argument. */
  lemma {:induction false} SentArrayItems(v: ProfileValue, maxValueLength: nat)
    requires IsArray(v)
    ensures var j := ProfileJson(v, maxValueLength);
      j.Some? ==> (j.value.JArray? && j.value.items != [] &&
        forall x :: x in j.value.items <==> Some(x) in ArrayItems(v) && x != StrItem(""))
  {
    KeptMembers(ArrayItems(v));
  }

  /** A blank string (only chars at or below U+0020) is never sent, however short. */
  lemma BlankStringNotSent(s: string, maxValueLength: nat)
    requires forall k :: 0 <= k < |s| ==> IsTrimmed(s[k])
    ensures ProfileJson(StringValue(s), maxValueLength).None?
  {
    TrimShape(s);
  }
}
