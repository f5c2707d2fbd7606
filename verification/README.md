# Localytics Android analytics engine, modelled in Dafny

This project models the core of the Localytics Android client. That core is an on-device analytics engine. It records sessions, events, screens and profile attributes in a small relational store. It then moves them through a batch-and-upload pipeline.

The model has three parts.

- **The session engine** (`SessionHandler.java`). The store is a `Store.Db` value: one map per table (sessions, events, attributes, event history, upload blobs, blob–event links, profile rows, custom dimensions, identifiers) plus the API key's opt-out flag and one id counter per table. `Store.Provider` is a class holding those tables as fields. It has one primitive method per SQL statement, and `Snapshot()` reads the whole store as a `Db`.
  - `Sessions.SessionHandler` has one method per message handler and per helper. It keeps the cursor loops of the source as `while` loops.
  - Each method is proved to leave the store equal to a specification function in `SessionSpec` applied to the old store.
  - The lemmas in `SessionProperties` state what those functions mean: at most one open session, the reconnect rule, the session cap, the sticky dimensions, the attribute cap, duplicate-screen suppression, the flow-marker rule, blob building and the upload flag protocol.
  - Wall-clock `now`, the expiration window and the limits are parameters (`Store.Config`).
- **The upload thread** (`UploadHandler.java`), modelled as the `Uploads.UploadHandler` class.
  - `convertDatabaseToJson` produces abstract records (`Conversion.Record`): a header per blob, then that blob's events in event-id order. The flow event's history is split into new and old steps. Attributes drop the ten dimension keys.
  - Each HTTP exchange is a parameter, the `UploadSpec.Outcome` it ends with. `UploadSpec.Accepted` is the status-code decision.
  - `deleteBlobsAndSessions` is proved against `UploadSpec.DeleteSpec`. Profile-attribute consolidation is proved against `UploadSpec.Consolidate`. The profile upload is proved against `UploadSpec.ProfileUploadSpec`.
- **Input shaping** (`LocalyticsSession.java`).
  - `Ranged` covers both `createRangedAttribute` overloads, with Java's 32-bit `int` arithmetic written out.
  - `Shaping` covers `convertDimensionsToAttributes` and the argument checks of `tagEvent`, `setCustomDimension` and `setProfileAttribute`.
  - `Text` covers the key formats, UTF-8 byte length and `String.trim`.

A `TreeMap` is modelled as its entries in ascending key order (`TreeMaps`). `put` inserts a new key at its place in that order and replaces the value of a present key. Iterating a `TreeMap` therefore visits keys in `String.compareTo` order. Orders the source leaves to an unordered cursor or a `HashSet` are modelled as ascending id order.

## Model

| member | source | states |
|---|---|---|
| Text.AppPrefix | app/src/main/java/com/localytics/android/SessionHandler.java:2076 | The application prefix is a prefix of every key remapped into the package namespace. |
| Text.AppKeyInjective | app/src/main/java/com/localytics/android/LocalyticsSession.java:718-725 | Two caller keys land on the same application key exactly when they are equal, so remapping loses no entry. |
| Text.DimensionKeysDistinct | app/src/main/java/com/localytics/android/SessionHandler.java:2282 | Two slots have the same key exactly when they are the same slot. |
| Text.DimensionKeyNotApplication | app/src/main/java/com/localytics/android/SessionHandler.java:2076-2090 | No dimension key carries the application prefix, so dimensions never count toward the attribute cap. |
| Text.Utf8Width | app/src/main/java/com/localytics/android/LocalyticsSession.java:954 | UTF-8 uses one to four bytes per char. |
| Text.Utf8Length | app/src/main/java/com/localytics/android/LocalyticsSession.java:954 | A string's byte length lies between its char count and four times that. |
| Text.TrimStartDropsBlanks | app/src/main/java/com/localytics/android/LocalyticsSession.java:945 | The part `trim` keeps at the front is a suffix of the input that does not start with a blank, and only blanks were dropped before it. |
| Text.TrimEndDropsBlanks | app/src/main/java/com/localytics/android/LocalyticsSession.java:945 | The part `trim` keeps at the back is a prefix of its input that does not end with a blank, and only blanks were dropped after it. |
| Text.TrimSpan | app/src/main/java/com/localytics/android/LocalyticsSession.java:945 | `trim` keeps a slice `s[i..j]`: everything before i and from j on is blank, and when the slice is non-empty its first and last chars are not blank. |
| Text.TrimShape | app/src/main/java/com/localytics/android/LocalyticsSession.java:945 | `trim` keeps a contiguous middle that neither starts nor ends with a blank. It is empty exactly when every char is blank. |
| TreeMaps.Lookup | app/src/main/java/com/localytics/android/SessionHandler.java:2061 | A map lookup succeeds exactly when the key is present. |
| TreeMaps.HasKeyCons | app/src/main/java/com/localytics/android/SessionHandler.java:2061 | A key is present in a non-empty map exactly when it is the first key or present in the rest. |
| TreeMaps.KeyLessIrreflexive | app/src/main/java/com/localytics/android/LocalyticsSession.java:738-739 | No key sorts before itself. |
| TreeMaps.KeyLessTransitive | app/src/main/java/com/localytics/android/LocalyticsSession.java:738-739 | Key order is transitive. |
| TreeMaps.KeyLessTotal | app/src/main/java/com/localytics/android/LocalyticsSession.java:738-739 | Of two different keys, one sorts before the other. |
| TreeMaps.KeyLessAsymmetric | app/src/main/java/com/localytics/android/LocalyticsSession.java:738-739 | When a sorts before b, b does not sort before a, and a differs from b. |
| TreeMaps.SortedDistinct | app/src/main/java/com/localytics/android/LocalyticsSession.java:718 | A TreeMap in ascending key order holds each key at most once. |
| TreeMaps.SortedHead | app/src/main/java/com/localytics/android/LocalyticsSession.java:718 | In a sorted map the first key sorts before every other key. |
| TreeMaps.SortedCons | app/src/main/java/com/localytics/android/LocalyticsSession.java:718 | Putting an entry in front of a sorted map whose keys all sort after it keeps the map sorted. |
| TreeMaps.PutLookup | app/src/main/java/com/localytics/android/LocalyticsSession.java:725 | After `put(k, v)` the key k maps to v, every other key keeps its lookup, and the keys are the old keys plus k. |
| TreeMaps.PutSorted | app/src/main/java/com/localytics/android/LocalyticsSession.java:725 | `put` keeps a TreeMap in ascending key order; its size grows by one exactly when the key is new. |
| TreeMaps.PutNewKey | app/src/main/java/com/localytics/android/LocalyticsSession.java:725 | `put` of a new key adds exactly that entry and removes none. |
| TreeMaps.LastLookupHasKey | app/src/main/java/com/localytics/android/LocalyticsSession.java:731 | The last value a run of puts gives a key exists exactly when the key occurs, and with distinct keys it is the key's only value. |
| TreeMaps.LookupSnoc | app/src/main/java/com/localytics/android/SessionHandler.java:2061 | Looking up in a map with one more entry at the end finds the old entry first, then the new one. |
| TreeMaps.PutAllMeaning | app/src/main/java/com/localytics/android/LocalyticsSession.java:731 | `putAll` keeps a TreeMap sorted; each key maps to the last value put for it, or keeps its old value when none was put. |
| TreeMaps.LookupAt | app/src/main/java/com/localytics/android/SessionHandler.java:2061 | With distinct keys, looking up the key of entry i gives entry i's value. |
| TreeMaps.PutAllNew | app/src/main/java/com/localytics/android/LocalyticsSession.java:731 | `putAll` of entries with distinct keys that are all new yields exactly the old entries plus the new ones. |
| TreeMaps.PutAllKeys | app/src/main/java/com/localytics/android/LocalyticsSession.java:731 | The keys after `putAll` are the old keys plus the keys put. |
| Ranged.Wrap32 | app/src/main/java/com/localytics/android/LocalyticsSession.java:1196-1201 | Java `int` arithmetic: the result is in the 32-bit range, congruent modulo 2^32, and unchanged when already in range. |
| Ranged.JavaDiv | app/src/main/java/com/localytics/android/LocalyticsSession.java:1196 | Java division by a positive int: equals Euclidean division for a non-negative dividend, and for a negative dividend equals minus the quotient of its negation, which lies between the dividend and zero. |
| Ranged.SearchBrackets | app/src/main/java/com/localytics/android/LocalyticsSession.java:1241-1259 | For any array, a binary-search miss reports an insertion point between a smaller and a larger element, and a hit is an index holding the key. |
| Ranged.Bucketize | app/src/main/java/com/localytics/android/LocalyticsSession.java:1217-1259 | Empty steps throw. Below the first step gives "less than". At or above the last step gives "and above". Otherwise, with i the probed index, the bucket starts at steps[i] <= v and ends at steps[i+1]-1 computed in 32-bit `int` (so `Integer.MIN_VALUE - 1` wraps to `Integer.MAX_VALUE`); when steps[i] < steps[i+1] the value is at most that end. |
| Ranged.Probe | app/src/main/java/com/localytics/android/LocalyticsSession.java:1244-1250 | The index the binary search settles on (a hit, or the insertion point minus one) brackets v: steps[i] <= v, and v either equals steps[i] or lies below steps[i+1]. |
| Ranged.Decrement32Wraps | app/src/main/java/com/localytics/android/LocalyticsSession.java:1251-1257 | `steps[i + 1] - 1` is 32-bit `int` subtraction with wrap-around. |
| Ranged.WrappedUpperBound | app/src/main/java/com/localytics/android/LocalyticsSession.java:1251-1257 | For v = Integer.MIN_VALUE and steps [MIN, MIN, MIN, 0] the label is the span from Integer.MIN_VALUE to Integer.MAX_VALUE: the upper end wraps. |
| Ranged.CreateRangedAttribute | app/src/main/java/com/localytics/android/LocalyticsSession.java:1217-1259 | Throws exactly on a null or empty array; otherwise renders the bucket the lookup chooses. |
| Ranged.BracketUnique | app/src/main/java/com/localytics/android/LocalyticsSession.java:1241-1259 | In a strictly ascending array a value lies between at most one pair of neighbours. |
| Ranged.BucketizeAscending | app/src/main/java/com/localytics/android/LocalyticsSession.java:1241-1259 | For strictly ascending steps with steps[i] <= v < steps[i+1], the label is "a" when the bucket holds one value and "a-b" otherwise, with b = steps[i+1]-1 in 32-bit arithmetic. |
| Ranged.StepCount | app/src/main/java/com/localytics/android/LocalyticsSession.java:1196 | The intended step count is at least one. |
| Ranged.IntendedSteps | app/src/main/java/com/localytics/android/LocalyticsSession.java:1196-1201 | The intended array has one entry per step, and entry k is min + k*step. |
| Ranged.IntendedStepsShape | app/src/main/java/com/localytics/android/LocalyticsSession.java:1196-1201 | The intended steps ascend strictly from min, and the last step lies beyond max, so every value of [min, max] falls in a bucket. |
| Ranged.SteppedBucket | app/src/main/java/com/localytics/android/LocalyticsSession.java:1175-1203 | With overflow-free arithmetic, v in [min, max] is labelled with its own interval [min+k*step, min+(k+1)*step-1], where k = (v-min)/step. |
| Ranged.CreateSteppedRangedAttribute | app/src/main/java/com/localytics/android/LocalyticsSession.java:1175-1203 | Null for step < 1 or min >= max; otherwise the label of the array overload on min, min+step, … past max. |
| Ranged.StepsAsWritten | app/src/main/java/com/localytics/android/LocalyticsSession.java:1196-1201 | The array the source builds: its size and every entry computed with 32-bit wrap-around; it throws exactly when the wrapped size is negative. |
| Ranged.CreateSteppedRangedAttributeAsWritten | app/src/main/java/com/localytics/android/LocalyticsSession.java:1175-1203 | The overload with `int` arithmetic: null for a bad step or range, otherwise the array overload applied to the wrapped steps, or an exception. |
| Ranged.FullRangeCollapses | app/src/main/java/com/localytics/android/LocalyticsSession.java:1196 | On the full int range with step 1 the count wraps to 0 and 5 is labelled "-2147483648 and above", where the intended result is "5". |
| Ranged.WideRangeThrows | app/src/main/java/com/localytics/android/LocalyticsSession.java:1196-1197 | For min 0, max 2147483646, step 1 the array size wraps negative and the call throws, although the intended array is well formed. |
| Shaping.ConvertDimensionsToAttributes | app/src/main/java/com/localytics/android/LocalyticsSession.java:1272-1327 | The loop puts element i, for i < 10, into a TreeMap under slot i's key and ignores later elements: it returns the dimension map. |
| Shaping.SlotEntries | app/src/main/java/com/localytics/android/LocalyticsSession.java:1276-1324 | The slot entries in slot order: one per element up to the tenth, entry i pairing slot i's key with element i. |
| Shaping.SlotEntriesPermutation | app/src/main/java/com/localytics/android/LocalyticsSession.java:1272-1327 | The dimension map holds exactly the slot entries, reordered by key. |
| Shaping.DimensionAttributesMeaning | app/src/main/java/com/localytics/android/LocalyticsSession.java:1272-1327 | The dimension map is in key order, has one entry per element up to the tenth, maps slot i's key to element i (no entry for missing elements) and has no other key. |
| Shaping.FirstDimensionErrorNone | app/src/main/java/com/localytics/android/LocalyticsSession.java:611-705 | A dimension list raises no error exactly when every element is non-null and non-empty. |
| Shaping.ValidateDimensions | app/src/main/java/com/localytics/android/LocalyticsSession.java:611-705 | The loop reports the first offending element's exception, and none exactly when all elements are non-null and non-empty. |
| Shaping.Present | app/src/main/java/com/localytics/android/LocalyticsSession.java:1272-1327 | A validated list's elements, position for position. |
| Shaping.OpenCloseAttributes | app/src/main/java/com/localytics/android/LocalyticsSession.java:390-470 | `open`/`close` with dimensions: an offending element throws; a null or empty list sends no attributes; otherwise the list's dimension attributes are sent. |
| Shaping.FirstEntryErrorNone | app/src/main/java/com/localytics/android/LocalyticsSession.java:611-705 | An attribute map raises no error exactly when every key and value is non-null and non-empty. |
| Shaping.ValidateAttributes | app/src/main/java/com/localytics/android/LocalyticsSession.java:611-705 | The loop reports the first offending entry's exception, and none exactly when every entry is valid. |
| Shaping.Remapped | app/src/main/java/com/localytics/android/LocalyticsSession.java:707-743 | Every caller key is moved into the package namespace, in order, values unchanged. |
| Shaping.CallerMapMeaning | app/src/main/java/com/localytics/android/LocalyticsSession.java:718-725 | The remapped caller map is in key order and every key carries the application prefix. With distinct caller keys it holds exactly the remapped entries, each caller key giving the caller's value. |
| Shaping.DimensionsOverCallerMap | app/src/main/java/com/localytics/android/LocalyticsSession.java:729-732 | `putAll` of the dimension map over a sorted map of application keys keeps it sorted, adds exactly the slot entries, leaves every other key alone and gives each slot key its element. |
| Shaping.EventAttributesMeaning | app/src/main/java/com/localytics/android/LocalyticsSession.java:718-742 | The map `tagEvent` sends is in key order, a permutation of the remapped caller entries followed by the slot entries (for distinct caller keys), maps each caller key to its value and each slot key to its element. |
| Shaping.TagEvent | app/src/main/java/com/localytics/android/LocalyticsSession.java:611-743 | A null or empty name, an offending attribute or an offending dimension throws, checked in that order; otherwise the event is sent under its own name and value. Its attributes are null exactly when both inputs are null; otherwise they are a TreeMap in ascending key order and, for distinct caller keys, a permutation of the remapped entries followed by the slot entries. |
| Shaping.SetCustomDimension | app/src/main/java/com/localytics/android/LocalyticsSession.java:828-836 | Accepted exactly for indices 0..9, passing index and value through unchanged. |
| Shaping.KeptMembers | app/src/main/java/com/localytics/android/LocalyticsSession.java:1062-1081 | The array filter keeps exactly the items that are neither null nor the empty string. |
| Shaping.CollectItems | app/src/main/java/com/localytics/android/LocalyticsSession.java:1062-1081 | The array loop aborts exactly when some string item is over MAX_VALUE_LENGTH bytes; otherwise it yields the kept items in order. |
| Shaping.SetProfileAttribute | app/src/main/java/com/localytics/android/LocalyticsSession.java:933-1105 | A null name, or a trimmed name that is empty, over MAX_NAME_LENGTH bytes or starting with "_", sends nothing. Otherwise the trimmed name is sent with the shaped value, or nothing when the value is dropped. |
| Shaping.ShapeProfileValue | app/src/main/java/com/localytics/android/LocalyticsSession.java:981-1105 | The value sent is the one `ProfileJson` defines: nothing for an unsupported type, an over-long string, an array with a too-long item or no item left, or a blank scalar. |
| Shaping.NullAndNumbersSent | app/src/main/java/com/localytics/android/LocalyticsSession.java:1000-1105 | Null is always sent, as JSON null; integers and longs are always sent. |
| Shaping.SentArrayItems | app/src/main/java/com/localytics/android/LocalyticsSession.java:1062-1095 | A sent array is non-empty, holds no null and no empty string, and keeps every other item. |
| Shaping.BlankStringNotSent | app/src/main/java/com/localytics/android/LocalyticsSession.java:1096 | A string made only of blanks is never sent, however short. |
| Store.LatestSessionBelow | app/src/main/java/com/localytics/android/SessionHandler.java:1219-1284 | The session cursor moved to its last row is the largest session id. |
| Store.OpenSessionId | app/src/main/java/com/localytics/android/SessionHandler.java:1219-1284 | `getOpenSessionId` returns only the latest session, and only when it has no close event. |
| Store.LinkedEventsMeaning | app/src/main/java/com/localytics/android/SessionHandler.java:2543-2630 | An event is in the linked set exactly when some link row joins it to a blob. |
| SessionSpec.AppCount | app/src/main/java/com/localytics/android/SessionHandler.java:2076-2095 | The count of application-prefixed keys never exceeds the number of entries. |
| SessionSpec.CappedSnoc | app/src/main/java/com/localytics/android/SessionHandler.java:2076-2095 | One more attribute entry: it is stored unless it is the application entry past the cap, and only application entries are counted. |
| SessionSpec.InsertAttributes | app/src/main/java/com/localytics/android/SessionHandler.java:2076-2106 | Inserting attributes touches only the attribute table and moves its counter on by one per entry. |
| SessionSpec.InsertAttributesFrame | app/src/main/java/com/localytics/android/SessionHandler.java:2076-2106 | Every existing attribute row below the counter survives unchanged, and new rows appear only at the fresh ids. |
| SessionSpec.LastScreenBelow | app/src/main/java/com/localytics/android/SessionHandler.java:2155-2210 | The newest screen row of the session, or none when it has no screen row. |
| SessionSpec.ReconnectBelow | app/src/main/java/com/localytics/android/SessionHandler.java:1364-1468 | The largest close-event id that is recent and in no blob, or none when no such event exists. |
| SessionSpec.EligibleBelow | app/src/main/java/com/localytics/android/SessionHandler.java:2543-2630 | Exactly the eligible event ids, ascending. |
| SessionSpec.InsertLinks | app/src/main/java/com/localytics/android/SessionHandler.java:2604-2627 | Adding links appends one link per event at fresh ids and changes nothing else. |
| SessionProperties.StickyLookup | app/src/main/java/com/localytics/android/SessionHandler.java:2291-2351 | After the sticky loop every stored slot is present. It carries the caller's value when the caller had the key, and the stored value otherwise. |
| SessionProperties.StickyCallerWins | app/src/main/java/com/localytics/android/SessionHandler.java:2049-2066 | The whole sticky loop: caller entries keep their values, every stored slot is present with the caller's value if any and the stored one otherwise, a map exists exactly when the caller gave one or a slot is stored, nothing else is added, and a TreeMap stays sorted. |
| SessionProperties.StickyShape | app/src/main/java/com/localytics/android/SessionHandler.java:2049-2066 | The sticky loop yields a map exactly when the caller passed one or a slot is stored. Its keys are the caller's plus the stored slots' keys, and caller keys keep their values. |
| SessionProperties.StickySorted | app/src/main/java/com/localytics/android/SessionHandler.java:2055-2063 | The sticky loop keeps a TreeMap in ascending key order. |
| SessionProperties.StickyLastSlot | app/src/main/java/com/localytics/android/SessionHandler.java:2059-2063 | The loop step for a stored slot leaves that slot's key with the caller's value when the caller had it, and the stored value otherwise. |
| SessionProperties.StickyEarlierSlot | app/src/main/java/com/localytics/android/SessionHandler.java:2059-2063 | A loop step leaves the lookups of earlier slots unchanged. |
| SessionProperties.StickyIdempotent | app/src/main/java/com/localytics/android/SessionHandler.java:2049-2066 | Running the sticky loop on its own result changes nothing, so the in-place update of a map shared between messages is harmless. |
| SessionProperties.CappedFacts | app/src/main/java/com/localytics/android/SessionHandler.java:2076-2095 | Every entry without the application prefix is stored, in order. The number of application entries stored is the smaller of how many there were and MAX_NUM_ATTRIBUTES. |
| SessionProperties.CappedSubsequence | app/src/main/java/com/localytics/android/SessionHandler.java:2076-2095 | The stored attributes are the subsequence of the map's entries, in iteration order, made of exactly the entries that are not application entries or come before the cap is reached. |
| SessionProperties.AppCountMonotone | app/src/main/java/com/localytics/android/SessionHandler.java:2084-2091 | The count of application entries only grows along the loop. |
| SessionProperties.CappedKeepsSmallest | app/src/main/java/com/localytics/android/SessionHandler.java:2076-2095 | On a TreeMap the stored entries stay in key order, and every application key stored sorts before every application key skipped: the alphabetically first MAX_NUM_ATTRIBUTES are kept. |
| SessionProperties.CapKeepsAlphabeticallyFirst | app/src/main/java/com/localytics/android/LocalyticsSession.java:738-739 | With a cap of one, "p:a" is stored and "p:b" skipped, although "p:b" was put first. |
| SessionProperties.RecordEventValid | app/src/main/java/com/localytics/android/SessionHandler.java:1948-2106 | Recording an event in an existing session keeps the store invariant and touches only events and attributes. |
| SessionProperties.RecordKeepsOpen | app/src/main/java/com/localytics/android/SessionHandler.java:1948-2106 | Recording an event other than close leaves the open session open. |
| SessionProperties.RecordFlowUnlinked | app/src/main/java/com/localytics/android/SessionHandler.java:2455-2508 | A flow event recorded in an open session is in no blob. |
| SessionProperties.FlowValid | app/src/main/java/com/localytics/android/SessionHandler.java:2455-2508 | The flow-marker rule keeps the store invariant. |
| SessionProperties.TagEventValid | app/src/main/java/com/localytics/android/SessionHandler.java:1948-2121 | `tagEvent` keeps the store invariant. |
| SessionProperties.OpenSessionIdMeaning | app/src/main/java/com/localytics/android/SessionHandler.java:1219-1284 | A session is open exactly when it is the highest-id session and has no close event. |
| SessionProperties.CloseLeavesNoOpenSession | app/src/main/java/com/localytics/android/SessionHandler.java:1891-1903 | After `close` no session is open. |
| SessionProperties.CloseIdempotent | app/src/main/java/com/localytics/android/SessionHandler.java:1891-1903 | A second `close` changes nothing. |
| SessionProperties.CloseAppendsOneCloseEvent | app/src/main/java/com/localytics/android/SessionHandler.java:1891-1903 | Closing an open session appends exactly one close event to it and touches no table but attributes. |
| SessionProperties.CloseValid | app/src/main/java/com/localytics/android/SessionHandler.java:1891-1903 | `close` keeps the store invariant. |
| SessionProperties.FlowMarkerPresent | app/src/main/java/com/localytics/android/SessionHandler.java:2455-2508 | In an open session the flow-marker rule always leaves a flow event that no blob holds. |
| SessionProperties.UnlinkedFlowKept | app/src/main/java/com/localytics/android/SessionHandler.java:2455-2508 | An unclaimed flow event stays present and unclaimed while only events, attributes and history rows are added. |
| SessionProperties.TagEventLeavesFlowMarker | app/src/main/java/com/localytics/android/SessionHandler.java:2111-2121 | After `tagEvent` appends a history row, some flow event is in no blob. |
| SessionProperties.TagScreenLeavesFlowMarker | app/src/main/java/com/localytics/android/SessionHandler.java:2155-2210 | After `tagScreen` appends a history row, some flow event is in no blob. |
| SessionProperties.NoSecondFlowMarker | app/src/main/java/com/localytics/android/SessionHandler.java:2455-2508 | While an unclaimed flow event exists, tagging another event adds no flow event. |
| SessionProperties.NoSecondFlowMarkerOnScreen | app/src/main/java/com/localytics/android/SessionHandler.java:2455-2508 | While an unclaimed flow event exists, `tagScreen` adds no flow event. |
| SessionProperties.TagEventInsertsIntoOpenSession | app/src/main/java/com/localytics/android/SessionHandler.java:1948-2106 | `tagEvent` writes nothing without an open session. Otherwise the event lands in the open session at the next event id. It is stamped with the session start for an open event and `now` otherwise, with a zero customer value when none is given. |
| SessionProperties.TagScreenAppendsOneRow | app/src/main/java/com/localytics/android/SessionHandler.java:2155-2210 | `tagScreen` drops a screen equal to the open session's newest screen row; otherwise it appends exactly that row. |
| SessionProperties.TagScreenValid | app/src/main/java/com/localytics/android/SessionHandler.java:2155-2210 | `tagScreen` keeps the store invariant. |
| SessionProperties.OpenReconnects | app/src/main/java/com/localytics/android/SessionHandler.java:1364-1468 | The reconnect path deletes exactly the largest-id recent close event that no blob holds, together with its attributes. |
| SessionProperties.ReconnectReopens | app/src/main/java/com/localytics/android/SessionHandler.java:1807-1821 | Deleting the latest session's only close event reopens that session. |
| SessionProperties.NewSessionOpen | app/src/main/java/com/localytics/android/SessionHandler.java:1579-1670 | The session `openNewSession` writes is the latest one, and it is open. |
| SessionProperties.OpenNewOpensSession | app/src/main/java/com/localytics/android/SessionHandler.java:1579-1670 | The new session is the open session and holds an open event stamped with the session's start time. |
| SessionProperties.OpenCreatesOnlyUnderCap | app/src/main/java/com/localytics/android/SessionHandler.java:1470-1569 | `open` creates a session only when all of these hold: none is open, the key is not opted out, nothing can be reconnected, the latest session is older than the window, and `ignoreLimits` holds or the count is below the cap. It then creates exactly one. |
| SessionProperties.OpenValid | app/src/main/java/com/localytics/android/SessionHandler.java:1362-1569 | `open` keeps the store invariant. |
| SessionProperties.TagEventMessageLeavesNoOpenSession | app/src/main/java/com/localytics/android/SessionHandler.java:481-560 | When no session was open, the tag-event message leaves none open. |
| SessionProperties.TagEventMessageValid | app/src/main/java/com/localytics/android/SessionHandler.java:481-560 | The tag-event message keeps the store invariant. |
| SessionProperties.OptOutSetsFlag | app/src/main/java/com/localytics/android/SessionHandler.java:1164-1195 | Opting out or in always leaves the flag as requested and keeps the invariant. |
| SessionProperties.OptOutInsideSession | app/src/main/java/com/localytics/android/SessionHandler.java:1164-1195 | Opting out while a session is open records the opt-out event in that session, which stays open. |
| SessionProperties.OptOutInForcedSession | app/src/main/java/com/localytics/android/SessionHandler.java:1164-1195 | Opting out with no open session puts the opt-out event into a session opened despite the cap, and closes that session again. |
| SessionProperties.OptInOutsideSessionRecordsNothing | app/src/main/java/com/localytics/android/SessionHandler.java:1164-1195 | Opting back in with no open session records no event (open refuses while opted out); only the flag changes. |
| SessionProperties.CustomDimensionReadBack | app/src/main/java/com/localytics/android/SessionHandler.java:2291-2370 | Reading a slot back after `setCustomDimension` gives the new value for an index in range, and the old value for every other slot. |
| SessionProperties.IdentifierReadBack | app/src/main/java/com/localytics/android/SessionHandler.java:2222-2270 | After `setIdentifier` the key reads back as the new value (absent for null), and other keys are unchanged. |
| SessionProperties.InsertLinksContents | app/src/main/java/com/localytics/android/SessionHandler.java:2604-2627 | The link loop adds one link per collected event, in order, all into the new blob. |
| SessionProperties.BuildBlobsLinkTable | app/src/main/java/com/localytics/android/SessionHandler.java:2543-2630 | Building a blob leaves the old links and adds one link per eligible event. |
| SessionProperties.BuildBlobsLinked | app/src/main/java/com/localytics/android/SessionHandler.java:2543-2630 | After blob building an event is linked exactly when it was already linked or was eligible. |
| SessionProperties.BuildBlobsValid | app/src/main/java/com/localytics/android/SessionHandler.java:2543-2630 | Blob building keeps the store invariant, so no event ends up in two blobs. |
| SessionProperties.BuildBlobsLinksEligible | app/src/main/java/com/localytics/android/SessionHandler.java:2543-2630 | With no eligible event the store is unchanged. Otherwise a new blob is made, it links exactly the eligible events, and every existing link is left alone. Each history row that no blob held gets the new blob; rows that had one keep it, and every other field of every row is kept. |
| SessionProperties.BuildBlobsStampsHistory | app/src/main/java/com/localytics/android/SessionHandler.java:2604-2629 | When some event is eligible, the history table keeps its rows. Each row with a null blob gets the new blob id, and every other row is left exactly as it was. |
| SessionProperties.YoungCloseNotLinked | app/src/main/java/com/localytics/android/SessionHandler.java:2566-2590 | A close event younger than the expiration window stays out of every blob. |
| Sessions.DimensionEntriesMeaning | app/src/main/java/com/localytics/android/SessionHandler.java:494-555 | The open/close map holds exactly the caller's entries under the dimension keys, with the caller's values, in key order, and no other key. |
| Sessions.OpenCloseAttributes | app/src/main/java/com/localytics/android/SessionHandler.java:494-555 | The open/close map is null exactly when the message carries no attributes or none under a dimension key; otherwise it is the map of the caller's dimension entries. |
| Sessions.SessionHandler.constructor | app/src/main/java/com/localytics/android/SessionHandler.java:1123-1130 | The handler works on the given store and configuration, with no upload in flight. |
| Sessions.SessionHandler.StickyDimensions | app/src/main/java/com/localytics/android/SessionHandler.java:2049-2066 | The sticky-dimension loop yields the specification's map: stored slots are put into the caller's TreeMap (or a new one) under keys the caller did not set. |
| Sessions.SessionHandler.InsertCappedAttributes | app/src/main/java/com/localytics/android/SessionHandler.java:2076-2106 | The attribute loop stores exactly the capped entries, one row each, in order. |
| Sessions.SessionHandler.FindReconnectCandidate | app/src/main/java/com/localytics/android/SessionHandler.java:1364-1468 | The reconnect join returns the largest recent close event no blob holds, and changes nothing. |
| Sessions.SessionHandler.RecordEventRows | app/src/main/java/com/localytics/android/SessionHandler.java:1975-2106 | The store gains the event row and its capped attribute rows that `RecordEvent` describes, and nothing else. |
| Sessions.SessionHandler.TagEvent | app/src/main/java/com/localytics/android/SessionHandler.java:1948-2121 | The store becomes `tagEvent`'s specification of the old store. |
| Sessions.SessionHandler.ConditionallyAddFlowEvent | app/src/main/java/com/localytics/android/SessionHandler.java:2455-2508 | The store becomes the flow-marker specification of the old store. |
| Sessions.SessionHandler.TagScreen | app/src/main/java/com/localytics/android/SessionHandler.java:2155-2210 | The store becomes `tagScreen`'s specification of the old store. |
| Sessions.SessionHandler.Close | app/src/main/java/com/localytics/android/SessionHandler.java:1891-1903 | The store becomes `close`'s specification of the old store. |
| Sessions.SessionHandler.OpenNewSession | app/src/main/java/com/localytics/android/SessionHandler.java:1579-1670 | The store becomes `openNewSession`'s specification of the old store. |
| Sessions.SessionHandler.OpenClosedSession | app/src/main/java/com/localytics/android/SessionHandler.java:1807-1856 | The close event and its attributes are deleted, or a new session is opened when the event is gone. |
| Sessions.SessionHandler.Open | app/src/main/java/com/localytics/android/SessionHandler.java:1362-1569 | The store becomes `open`'s specification of the old store; the empty-session cleanup is proved unreachable. |
| Sessions.SessionHandler.OptOut | app/src/main/java/com/localytics/android/SessionHandler.java:1164-1195 | The store becomes the opt-out specification of the old store. |
| Sessions.SessionHandler.TagEventMessage | app/src/main/java/com/localytics/android/SessionHandler.java:467-560 | The store becomes the tag-event message's specification: tag directly, or open, tag and close with the caller's dimension keys. |
| Sessions.SessionHandler.SetIdentifier | app/src/main/java/com/localytics/android/SessionHandler.java:2222-2270 | Null deletes the identifier; any other value is stored under the key. |
| Sessions.SessionHandler.SetCustomDimension | app/src/main/java/com/localytics/android/SessionHandler.java:2291-2351 | Indices outside 0..9 change nothing; null deletes the slot; otherwise the slot is upserted. |
| Sessions.SessionHandler.SetProfileAttribute | app/src/main/java/com/localytics/android/SessionHandler.java:783-809 | One SET_ATTRIBUTE row for the customer is appended. |
| Sessions.SessionHandler.PreUploadBuildBlobs | app/src/main/java/com/localytics/android/SessionHandler.java:2543-2630 | The store becomes the blob-building specification of the old store. |
| Sessions.SessionHandler.CollectEligible | app/src/main/java/com/localytics/android/SessionHandler.java:2543-2601 | The join loop returns every eligible event id, ascending, and changes nothing. |
| Sessions.SessionHandler.AddLinks | app/src/main/java/com/localytics/android/SessionHandler.java:2604-2627 | One link per collected event into blob `b`, in order. |
| Sessions.SessionHandler.Upload | app/src/main/java/com/localytics/android/SessionHandler.java:2644-2683 | While an upload is in flight only a retry is requested and nothing changes. Otherwise blobs are built, the flag is raised and an upload is requested. |
| Sessions.SessionHandler.UploadProfile | app/src/main/java/com/localytics/android/SessionHandler.java:2697-2740 | The same flag protocol for profile uploads, leaving the store unchanged. |
| Sessions.SessionHandler.UploadCallback | app/src/main/java/com/localytics/android/SessionHandler.java:772-781 | MESSAGE_UPLOAD_CALLBACK lowers the upload flag and nothing else. |
| Sessions.SessionHandler.UploadProfileCallback | app/src/main/java/com/localytics/android/SessionHandler.java:832-842 | MESSAGE_UPLOAD_PROFILE_CALLBACK lowers the profile-upload flag and nothing else. |
| UploadSpec.Accepted | app/src/main/java/com/localytics/android/UploadHandler.java:442-456 | 4xx means done; 5xx, encoding failures and transport failures mean retry; any other status is done only when the response was read. |
| UploadSpec.IsUploadTooBig | app/src/main/java/com/localytics/android/UploadHandler.java:333-342 | True at 50000 chars and above; false below 12500 chars. The exact cut is 50000 UTF-8 bytes. |
| UploadSpec.SweepFrame | app/src/main/java/com/localytics/android/UploadHandler.java:904-999 | The link cursor removes every link and gathers exactly the blobs they referenced. Blobs, profiles, dimensions and identifiers are untouched until the end. |
| UploadSpec.SweepEvents | app/src/main/java/com/localytics/android/UploadHandler.java:904-999 | The link cursor removes exactly the linked events and keeps every other event unchanged. |
| UploadSpec.SweepAttributes | app/src/main/java/com/localytics/android/UploadHandler.java:904-999 | The link cursor removes exactly the attributes of linked events. |
| UploadSpec.SweepSessions | app/src/main/java/com/localytics/android/UploadHandler.java:904-999 | The sessions gathered are exactly those of linked close events. |
| UploadSpec.SweepHistory | app/src/main/java/com/localytics/android/UploadHandler.java:904-999 | History is removed exactly for the sessions of linked close events. |
| UploadSpec.SweptEventLinked | app/src/main/java/com/localytics/android/UploadHandler.java:904-975 | In a consistent store the link cursor deletes an event exactly when some link holds it. |
| UploadSpec.ClosedByUploaded | app/src/main/java/com/localytics/android/UploadHandler.java:940-962 | In a consistent store a session is gathered for deletion exactly when one of its close events was linked. |
| UploadSpec.SweptBlobReferenced | app/src/main/java/com/localytics/android/UploadHandler.java:904-991 | In a consistent store a blob is gathered for deletion exactly when some link points at it. |
| UploadSpec.DeleteFrameMeaning | app/src/main/java/com/localytics/android/UploadHandler.java:904-999 | The sweep leaves no link and changes only links, events, attributes, history, sessions and blobs. |
| UploadSpec.DeleteEventsMeaning | app/src/main/java/com/localytics/android/UploadHandler.java:904-975 | An event, and each of its attribute rows, survives exactly when no link held it, and survives unchanged. |
| UploadSpec.DeleteSessionsMeaning | app/src/main/java/com/localytics/android/UploadHandler.java:940-997 | A session and its history rows survive, unchanged, exactly when none of its close events was uploaded. |
| UploadSpec.DeleteBlobsMeaning | app/src/main/java/com/localytics/android/UploadHandler.java:904-991 | A blob survives exactly when no link referenced it. |
| UploadSpec.DeleteMeaning | app/src/main/java/com/localytics/android/UploadHandler.java:904-999 | After the sweep: no link is left. Linked events and their attributes are gone, and so are the referenced blobs. A session and its history are gone exactly when one of its linked events was a close event. Unlinked events and profile rows are untouched. |
| UploadSpec.DeleteValid | app/src/main/java/com/localytics/android/UploadHandler.java:904-999 | The sweep keeps the store invariant. |
| UploadSpec.JsonPut | app/src/main/java/com/localytics/android/UploadHandler.java:855 | A put makes the key read back as the new value and leaves every other key alone. |
| UploadSpec.ConsolidateRows | app/src/main/java/com/localytics/android/UploadHandler.java:812-873 | Consolidation groups exactly the SET_ATTRIBUTE rows by customer. Every such row id is collected, unparsable ones included, and no other row is. |
| UploadSpec.MergeRowKeeps | app/src/main/java/com/localytics/android/UploadHandler.java:812-873 | A row that does not set a name leaves that name's consolidated value alone. |
| UploadSpec.MergeRowPuts | app/src/main/java/com/localytics/android/UploadHandler.java:812-873 | A row that sets a name puts its value under that name for its customer. |
| UploadSpec.LaterRowOverwrites | app/src/main/java/com/localytics/android/UploadHandler.java:812-873 | A customer's consolidated value for a name is the one from the latest row that sets it. |
| UploadSpec.DeleteOnlyCustomerRows | app/src/main/java/com/localytics/android/UploadHandler.java:268-286 | Deleting a customer's collected rows removes exactly that customer's SET_ATTRIBUTE rows and changes nothing else. |
| UploadSpec.ProfileUploadMeaning | app/src/main/java/com/localytics/android/UploadHandler.java:253-299 | After the profile upload a profile row remains exactly when it was not a SET_ATTRIBUTE row of a customer whose upload was accepted. Nothing else changes. |
| Conversion.SlotFrom | app/src/main/java/com/localytics/android/UploadHandler.java:1266-1320 | The slot found is one whose key matches; none means no later slot's key matches. |
| Conversion.DimensionSlotMeaning | app/src/main/java/com/localytics/android/UploadHandler.java:1266-1320 | A key has a slot exactly when it is a dimension key, and then it is that key's slot. |
| Conversion.DimsBelowMeaning | app/src/main/java/com/localytics/android/UploadHandler.java:1266-1320 | Every slot in the result comes from a dimension row of the event with that value, and every such row's slot is present. |
| Conversion.HasAppRowBelow | app/src/main/java/com/localytics/android/UploadHandler.java:1892-1930 | True exactly when the event has a non-dimension attribute row. |
| Conversion.AttrsBelowMeaning | app/src/main/java/com/localytics/android/UploadHandler.java:1892-1930 | The attribute loop succeeds exactly when every non-dimension key is longer than the package name, since `substring(packageName.length() + 1)` checks only the length, not the prefix. It then maps every stripped key to a value of that key's row, and every such row's stripped key is present. |
| Conversion.AttributesExcludeDimensions | app/src/main/java/com/localytics/android/UploadHandler.java:1892-1930 | `convertAttributesToJson` is null exactly when only dimension rows exist; otherwise no dimension key appears. |
| Conversion.FlowSplit | app/src/main/java/com/localytics/android/UploadHandler.java:1516-1551 | The session's history rows of this blob form the new list and those of earlier blobs the old list, each ascending by row id. |
| Conversion.Steps | app/src/main/java/com/localytics/android/UploadHandler.java:1516-1551 | One flow step per history row, carrying that row's type and name. |
| Conversion.FlowStepsMatch | app/src/main/java/com/localytics/android/UploadHandler.java:1516-1551 | The flow cursor, building both arrays row by row, yields the steps of the split's new and old rows. |
| Conversion.FlowRecordSplit | app/src/main/java/com/localytics/android/UploadHandler.java:1503-1560 | A converted flow event's body is the new/old split: rows of this blob and of earlier blobs, each ascending. |
| Conversion.FirstLinkBelow | app/src/main/java/com/localytics/android/UploadHandler.java:1934-2004 | The blob's lowest-id link, or none when the blob has no link. |
| Conversion.BlobEventsBelow | app/src/main/java/com/localytics/android/UploadHandler.java:728-810 | Exactly the blob's events, in ascending event-id order. |
| Conversion.ConvertEvents | app/src/main/java/com/localytics/android/UploadHandler.java:728-810 | A successful conversion yields one event record per event id, in the given order. |
| Conversion.ConvertBlobShape | app/src/main/java/com/localytics/android/UploadHandler.java:728-810 | A blob converts to its header followed by its events' records, ascending. |
| Conversion.ConvertStartsWithHeader | app/src/main/java/com/localytics/android/UploadHandler.java:728-810 | A non-empty upload starts with a blob header. |
| Conversion.ConvertHeadersSound | app/src/main/java/com/localytics/android/UploadHandler.java:728-810 | Every header is followed by exactly its blob's events. |
| Conversion.ConvertHeadersAscending | app/src/main/java/com/localytics/android/UploadHandler.java:728-810 | Blob headers appear in ascending blob order. |
| Conversion.ConvertHeadersCover | app/src/main/java/com/localytics/android/UploadHandler.java:728-810 | Every blob has a header. |
| Conversion.ConvertLayout | app/src/main/java/com/localytics/android/UploadHandler.java:728-810 | The converted list is laid out blob by blob: a header per blob, ascending, each followed by that blob's events in ascending order. |
| Conversion.LinkedEventInBlob | app/src/main/java/com/localytics/android/UploadHandler.java:728-810 | Every link's event is among its blob's events. |
| Conversion.EveryLinkedEventUploaded | app/src/main/java/com/localytics/android/UploadHandler.java:728-810 | Every linked event appears in the upload, after its blob's header. |
| Uploads.UploadKeepsUnsent | app/src/main/java/com/localytics/android/UploadHandler.java:188-242 | Whatever the server answers, MESSAGE_UPLOAD keeps the invariant, never loses an event not yet in a blob, and leaves profiles, dimensions and identifiers alone. An accepted non-empty upload leaves no link. |
| Uploads.UploadHandler.constructor | app/src/main/java/com/localytics/android/UploadHandler.java:180 | The upload thread shares the session engine's store. |
| Uploads.UploadHandler.EventDimensions | app/src/main/java/com/localytics/android/UploadHandler.java:1266-1320 | The dimension loop reads the event's dimension slots, changing nothing. |
| Uploads.UploadHandler.EventAttributes | app/src/main/java/com/localytics/android/UploadHandler.java:1892-1930 | The attribute cursor computes `convertAttributesToJson`'s specification, changing nothing. |
| Uploads.UploadHandler.Screens | app/src/main/java/com/localytics/android/UploadHandler.java:1370-1395 | The session's screen names in row order, changing nothing. |
| Uploads.UploadHandler.Flow | app/src/main/java/com/localytics/android/UploadHandler.java:1516-1551 | The flow cursor yields the steps of the new/old split, changing nothing. |
| Uploads.UploadHandler.EventRecordOf | app/src/main/java/com/localytics/android/UploadHandler.java:1196-1700 | `convertEventToJson` computes the event-record specification, changing nothing. |
| Uploads.UploadHandler.BlobHeader | app/src/main/java/com/localytics/android/UploadHandler.java:1934-2004 | The header takes its session from the blob's lowest-id link, changing nothing. |
| Uploads.UploadHandler.EventsOfBlob | app/src/main/java/com/localytics/android/UploadHandler.java:728-810 | The blob's events sorted by id, changing nothing. |
| Uploads.UploadHandler.EventRecords | app/src/main/java/com/localytics/android/UploadHandler.java:728-810 | One record per event in order; an exception ends the loop. |
| Uploads.UploadHandler.BlobRecords | app/src/main/java/com/localytics/android/UploadHandler.java:728-810 | One blob's header followed by its events' records. |
| Uploads.UploadHandler.ConvertDatabaseToJson | app/src/main/java/com/localytics/android/UploadHandler.java:728-810 | The whole conversion computes the layout proved by `Conversion.ConvertLayout`, changing nothing. |
| Uploads.UploadHandler.SweepOne | app/src/main/java/com/localytics/android/UploadHandler.java:927-977 | One link row: the link, its event's attributes, a close event's session history, then the event. |
| Uploads.UploadHandler.SweepLinks | app/src/main/java/com/localytics/android/UploadHandler.java:904-990 | The link cursor performs the sweep the `UploadSpec.Sweep*` lemmas describe. |
| Uploads.UploadHandler.DeleteBlobs | app/src/main/java/com/localytics/android/UploadHandler.java:987-991 | Exactly the gathered blobs leave the blob table. No other table changes. |
| Uploads.UploadHandler.DeleteSessions | app/src/main/java/com/localytics/android/UploadHandler.java:993-997 | Exactly the gathered sessions leave the session table, duplicates included. No other table changes. |
| Uploads.UploadHandler.DeleteBlobsAndSessions | app/src/main/java/com/localytics/android/UploadHandler.java:904-999 | The store becomes the cascade deletion that `UploadSpec.DeleteMeaning` characterises. |
| Uploads.UploadHandler.GetProfileAttributes | app/src/main/java/com/localytics/android/UploadHandler.java:812-873 | Returns the per-customer consolidation that `UploadSpec.ConsolidateRows` characterises, changing nothing. |
| Uploads.UploadHandler.DeleteProfileAttribute | app/src/main/java/com/localytics/android/UploadHandler.java:892-895 | Exactly the listed profile rows are removed. |
| Uploads.UploadHandler.HandleUpload | app/src/main/java/com/localytics/android/UploadHandler.java:188-242 | Converts the store. It sweeps only when a non-empty upload was accepted, and on every path it lowers the upload flag, leaving the profile flag alone. |
| Uploads.UploadHandler.UploadCustomers | app/src/main/java/com/localytics/android/UploadHandler.java:266-287 | Exactly the rows of customers whose upload was accepted are removed. |
| Uploads.UploadHandler.HandleUploadProfile | app/src/main/java/com/localytics/android/UploadHandler.java:253-299 | The store becomes the profile-upload specification that `UploadSpec.ProfileUploadMeaning` characterises; the profile flag is lowered and the upload flag left alone. |

## Left out

- The Android `Handler`/`Looper` threads and the callback threads are not modelled. Each message is one atomic method call.
- The HTTP transport is not modelled: connection, headers, GZIP, timeouts and reading the response. `upload` is reduced to the `UploadSpec.Outcome` of the exchange.
- The request body is abstract records, not JSON text. The org.json serialisation and the newline join are not modelled.
- MESSAGE_RETRY_UPLOAD_REQUEST and MESSAGE_RETRY_UPLOAD_PROFILE_REQUEST are not modelled. They only re-post a message to the other thread.
- A `JSONException` raised while converting one blob is not modelled. Any `RuntimeException` during conversion is modelled as an `Err` that aborts the upload.
- Iteration order of `HashSet` and unsorted cursors is modelled as ascending id order. The profile-upload loop's final store does not depend on that order. A `TreeMap` is iterated in key order, as in Java.
- Several record fields are not modelled, being clocks, randomness, floating point or foreign calls: UUIDs, seconds fields computed with `Math.round`, location, customer id and user type, device info, `getApiKeyCreationTime`, the session fields of `getAttributesFromSession`, and `getIdentifiers` beyond their presence.
- Push registration, push receipt, the location message and advertising ids are not modelled.
- `isUploadTooBig` is modelled but no handler calls it, as in the source.
- The `LocalyticsProvider` constants for the ten dimension keys are not part of this model. `Text.DimensionKey(i)` stands for both `CustomDimensionsDbColumns.CUSTOM_DIMENSION_{i+1}` (SessionHandler.java:2282, the sticky loop's keys) and `AttributesDbColumns.ATTRIBUTE_CUSTOM_DIMENSION_{i+1}` (LocalyticsSession.java:1283 and UploadHandler.java:1897, the keys `tagEvent` writes and the upload filters out). The model assumes the two constants of each slot are the same string. The stand-in strings are pairwise distinct and carry no application prefix, the two properties the code relies on. Their real values, and so their place in the TreeMap key order relative to other keys, are unknown.
- The `IDENTIFIERS` column of an open or close event (UploadHandler.java:1257-1261 and 1423-1427) is not carried into `Conversion.OpenBody`/`Conversion.CloseBody`. `getIdentifiers` is left out with the other foreign calls.
- `Constants.IS_PARAMETER_CHECKING_ENABLED` (LocalyticsSession.java:392, 467, 613) is taken to be true. The argument checks of `open`, `close` and `tagEvent` are always modelled.
- `TreeMaps.KeyLess` compares chars as Unicode code points. Java's `String.compareTo` compares UTF-16 code units, so the two orders can differ for keys holding supplementary chars.
- The sticky-dimension loop writes into the caller's map in place (SessionHandler.java:2055-2063). The model returns a new map instead, so the aliasing of one map between the open, tag and close messages is not modelled. `SessionProperties.StickyIdempotent` shows a second pass over an already updated map changes nothing.
- Shaping.ConvertDimensionsToAttributes, Shaping.DimensionAttributesMeaning: the result is a TreeMap, so they promise its contents and key order, not that entry i sits at position i. The slot-order positions are a property of `Shaping.SlotEntries`.
- Shaping.TagEvent: the permutation property is stated for distinct caller keys, as any Java `Map` has. With repeated keys a later entry overwrites an earlier one, and only the key-order property is promised.
- The SQLite provider is abstracted as in-memory tables (`Store.Provider`). Its primitive methods mirror one SQL statement each.
- `open` contains a cleanup for an event-less latest session. It is unreachable: such a session has no close event, so it is the open session and `open` has already returned. `Sessions.SessionHandler.Open` proves the branch dead, and `SessionSpec.OpenSpec` leaves it out.
- UploadSpec.IsUploadTooBig: the contract states the cut-off through the bounds between char count and byte count, not the exact UTF-8 byte count (the body states that).
- Strings are sequences of Unicode code points, so Java's UTF-16 surrogate pairs are not modelled. A supplementary char is one char of four UTF-8 bytes.

## Findings

| source | as written | input that shows it | evidently intended | confidence | as-written member | corrected member |
|---|---|---|---|---|---|---|
| app/src/main/java/com/localytics/android/LocalyticsSession.java:1196-1197 | `(maxValue - minValue + step) / step` is computed in 32-bit `int` and wraps. | min = -2147483648, max = 2147483647, step = 1: the count wraps to 0, the array holds only min, and 5 is labelled "-2147483648 and above". | One bucket per step from min past max; 5 is labelled "5". | not executed | Ranged.FullRangeCollapses | Ranged.CreateSteppedRangedAttribute |
| app/src/main/java/com/localytics/android/LocalyticsSession.java:1196-1197 | `new int[stepQuantity + 1]` with stepQuantity = Integer.MAX_VALUE wraps to a negative size. | min = 0, max = 2147483646, step = 1: `NegativeArraySizeException`. | A well-formed array of min, min+1, …, max+1. | not executed | Ranged.WideRangeThrows | Ranged.SteppedBucket |
