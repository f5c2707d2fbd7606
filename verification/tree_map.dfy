/**
 * `java.util.TreeMap<String, String>` as a sequence of entries kept in
 * ascending key order, with at most one entry per key. Keys are ordered as
 * `String.compareTo` orders them: char by char, a proper prefix first.
 * Every attribute map the library builds is a TreeMap, so this order is the
 * order in which the handler iterates the attributes of an event.
 */
module TreeMaps {
  import opened Wrappers

  type Pairs = seq<(string, string)>

  predicate HasKey(m: Pairs, k: string)
  {
    exists i :: 0 <= i < |m| && m[i].0 == k
  }

  /** `get(k)`: the value stored under `k` (the first entry with that key). */
  function Lookup(m: Pairs, k: string): (r: Option<string>)
    ensures r.Some? <==> HasKey(m, k)
  {
    if m == [] then None
    else if m[0].0 == k then Some(m[0].1)
    else
      assert forall i :: 1 <= i < |m| ==> m[i] == m[1..][i - 1];
      Lookup(m[1..], k)
  }

  lemma HasKeyCons(m: Pairs, k: string)
    requires m != []
    ensures HasKey(m, k) <==> m[0].0 == k || HasKey(m[1..], k)
  {
    if HasKey(m, k) && m[0].0 != k {
      var i :| 0 <= i < |m| && m[i].0 == k;
      assert m[1..][i - 1].0 == k;
    }
    if HasKey(m[1..], k) {
      var i :| 0 <= i < |m[1..]| && m[1..][i].0 == k;
      assert m[i + 1].0 == k;
    }
  }

  // ---------------------------------------------------------------------------
  // String.compareTo
  // ---------------------------------------------------------------------------

  /** `a.compareTo(b) < 0`. */
  predicate KeyLess(a: string, b: string)
  {
    if a == [] then b != []
    else if b == [] then false
    else if a[0] != b[0] then a[0] < b[0]
    else KeyLess(a[1..], b[1..])
  }

  lemma {:induction false} KeyLessIrreflexive(a: string)
    ensures !KeyLess(a, a)
  {
    if a != [] {
      KeyLessIrreflexive(a[1..]);
    }
  }

  lemma {:induction false} KeyLessTransitive(a: string, b: string, c: string)
    requires KeyLess(a, b) && KeyLess(b, c)
    ensures KeyLess(a, c)
  {
    if a != [] && a[0] == b[0] && b[0] == c[0] {
      KeyLessTransitive(a[1..], b[1..], c[1..]);
    }
  }

  lemma {:induction false} KeyLessTotal(a: string, b: string)
    requires a != b
    ensures KeyLess(a, b) || KeyLess(b, a)
  {
    if a != [] && b != [] && a[0] == b[0] {
      assert a == [a[0]] + a[1..] && b == [b[0]] + b[1..];
      KeyLessTotal(a[1..], b[1..]);
    }
  }

  lemma KeyLessAsymmetric(a: string, b: string)
    requires KeyLess(a, b)
    ensures !KeyLess(b, a) && a != b
  {
    KeyLessIrreflexive(a);
    if KeyLess(b, a) {
      KeyLessTransitive(a, b, a);
    }
  }

  // ---------------------------------------------------------------------------
  // The TreeMap shape
  // ---------------------------------------------------------------------------

  /** Entries in strictly ascending key order, hence one per key. */
  predicate Sorted(m: Pairs)
  {
    forall i, j :: 0 <= i < j < |m| ==> KeyLess(m[i].0, m[j].0)
  }

  predicate DistinctKeys(s: Pairs)
  {
    forall i, j :: 0 <= i < j < |s| ==> s[i].0 != s[j].0
  }

  lemma SortedDistinct(m: Pairs)
    requires Sorted(m)
    ensures DistinctKeys(m)
  {
    forall i, j | 0 <= i < j < |m|
      ensures m[i].0 != m[j].0
    {
      KeyLessAsymmetric(m[i].0, m[j].0);
    }
  }

  /** In a sorted map every key after the first lies above the first. */
  lemma SortedHead(m: Pairs, k: string)
    requires Sorted(m) && m != [] && HasKey(m[1..], k)
    ensures KeyLess(m[0].0, k)
  {
    var i :| 0 <= i < |m[1..]| && m[1..][i].0 == k;
    assert m[i + 1].0 == k;
  }

  lemma SortedCons(x: (string, string), t: Pairs)
    requires Sorted(t)
    requires forall k :: HasKey(t, k) ==> KeyLess(x.0, k)
    ensures Sorted([x] + t)
  {
    var m := [x] + t;
    forall i, j | 0 <= i < j < |m|
      ensures KeyLess(m[i].0, m[j].0)
    {
      if i == 0 {
        assert t[j - 1].0 == m[j].0;
        assert HasKey(t, m[j].0);
      } else {
        assert m[i] == t[i - 1] && m[j] == t[j - 1];
      }
    }
  }

  // ---------------------------------------------------------------------------
  // put and putAll
  // ---------------------------------------------------------------------------

  /** `put(k, v)`: replaces the value of an existing key, else inserts at the key's place. */
  function Put(m: Pairs, k: string, v: string): Pairs
  {
    if m == [] then [(k, v)]
    else if m[0].0 == k then [(k, v)] + m[1..]
    else if KeyLess(k, m[0].0) then [(k, v)] + m
    else [m[0]] + Put(m[1..], k, v)
  }

  /** After `put(k, v)`, `k` maps to `v` and every other key to what it mapped to before. */
  lemma {:induction false} PutLookup(m: Pairs, k: string, v: string)
    ensures forall k' :: Lookup(Put(m, k, v), k') == if k' == k then Some(v) else Lookup(m, k')
    ensures forall k' :: HasKey(Put(m, k, v), k') <==> k' == k || HasKey(m, k')
  {
    if m != [] && m[0].0 != k && !KeyLess(k, m[0].0) {
      PutLookup(m[1..], k, v);
      var r := [m[0]] + Put(m[1..], k, v);
      assert r[1..] == Put(m[1..], k, v);
    }
    forall k' ensures HasKey(Put(m, k, v), k') <==> k' == k || HasKey(m, k') {
      assert Lookup(Put(m, k, v), k').Some? <==> HasKey(Put(m, k, v), k');
      assert Lookup(m, k').Some? <==> HasKey(m, k');
    }
  }

  /** `put` keeps the map in key order; it grows by one exactly when the key is new. */
  lemma {:induction false} PutSorted(m: Pairs, k: string, v: string)
    requires Sorted(m)
    ensures Sorted(Put(m, k, v))
    ensures |Put(m, k, v)| == if HasKey(m, k) then |m| else |m| + 1
  {
    if m == [] {
    } else if m[0].0 == k {
      assert HasKey(m, k);
      assert Sorted([(k, v)] + m[1..]) by {
        forall i, j | 0 <= i < j < |m|
          ensures KeyLess(([(k, v)] + m[1..])[i].0, ([(k, v)] + m[1..])[j].0)
        {
          assert ([(k, v)] + m[1..])[i].0 == m[i].0;
          assert ([(k, v)] + m[1..])[j].0 == m[j].0;
        }
      }
    } else if KeyLess(k, m[0].0) {
      forall k' | HasKey(m, k')
        ensures KeyLess(k, k')
      {
        HasKeyCons(m, k');
        if k' != m[0].0 {
          SortedHead(m, k');
          KeyLessTransitive(k, m[0].0, k');
        }
      }
      KeyLessIrreflexive(k);
      SortedCons((k, v), m);
    } else {
      KeyLessTotal(k, m[0].0);
      var t := m[1..];
      assert Sorted(t) by {
        forall i, j | 0 <= i < j < |t|
          ensures KeyLess(t[i].0, t[j].0)
        {
          assert t[i] == m[i + 1] && t[j] == m[j + 1];
        }
      }
      PutSorted(t, k, v);
      PutLookup(t, k, v);
      forall k' | HasKey(Put(t, k, v), k')
        ensures KeyLess(m[0].0, k')
      {
        if k' != k {
          SortedHead(m, k');
        }
      }
      SortedCons(m[0], Put(t, k, v));
      HasKeyCons(m, k);
      assert [m[0]] + t == m;
    }
  }

  /** `put` of a new key adds exactly that entry. */
  lemma {:induction false} PutNewKey(m: Pairs, k: string, v: string)
    requires !HasKey(m, k)
    ensures multiset(Put(m, k, v)) == multiset(m) + multiset{(k, v)}
  {
    if m != [] {
      assert m[0].0 != k;
      if !KeyLess(k, m[0].0) {
        HasKeyCons(m, k);
        PutNewKey(m[1..], k, v);
        assert m == [m[0]] + m[1..];
      }
    }
  }

  /** `putAll` of entries taken in iteration order: later entries overwrite earlier ones. */
  function PutAll(m: Pairs, s: Pairs): Pairs
  {
    if s == [] then m
    else Put(PutAll(m, s[..|s| - 1]), s[|s| - 1].0, s[|s| - 1].1)
  }

  /** The value of the last entry with key `k`, the one a sequence of puts leaves behind. */
  function LastLookup(s: Pairs, k: string): (r: Option<string>)
  {
    if s == [] then None
    else if s[|s| - 1].0 == k then Some(s[|s| - 1].1)
    else LastLookup(s[..|s| - 1], k)
  }

  lemma {:induction false} LastLookupHasKey(s: Pairs, k: string)
    ensures LastLookup(s, k).Some? <==> HasKey(s, k)
    ensures DistinctKeys(s) ==> LastLookup(s, k) == Lookup(s, k)
  {
    if s != [] {
      var init := s[..|s| - 1];
      LastLookupHasKey(init, k);
      assert s == init + [s[|s| - 1]];
      assert forall i :: 0 <= i < |init| ==> init[i] == s[i];
      if HasKey(s, k) && s[|s| - 1].0 != k {
        var i :| 0 <= i < |s| && s[i].0 == k;
        assert init[i].0 == k;
      }
      if DistinctKeys(s) {
        LookupSnoc(init, s[|s| - 1], k);
      }
    }
  }

  lemma {:induction false} LookupSnoc(m: Pairs, x: (string, string), k: string)
    ensures Lookup(m + [x], k) == if HasKey(m, k) then Lookup(m, k) else if x.0 == k then Some(x.1) else None
  {
    if m != [] {
      LookupSnoc(m[1..], x, k);
      assert (m + [x])[1..] == m[1..] + [x];
      HasKeyCons(m, k);
    }
  }

  /**
   * After `putAll`, a key carries the value of its last entry in `s` when
   * `s` has it and its old value otherwise; the result stays in key order.
   */
  lemma {:induction false} PutAllMeaning(m: Pairs, s: Pairs)
    requires Sorted(m)
    ensures Sorted(PutAll(m, s))
    ensures forall k ::
      Lookup(PutAll(m, s), k) == (if LastLookup(s, k).Some? then LastLookup(s, k) else Lookup(m, k))
  {
    if s != [] {
      var init := s[..|s| - 1];
      var x := s[|s| - 1];
      PutAllMeaning(m, init);
      PutSorted(PutAll(m, init), x.0, x.1);
      PutLookup(PutAll(m, init), x.0, x.1);
    }
  }

  /** With distinct keys, the lookup of an entry's key finds that entry. */
  lemma {:induction false} LookupAt(s: Pairs, i: nat)
    requires DistinctKeys(s) && i < |s|
    ensures Lookup(s, s[i].0) == Some(s[i].1)
  {
    if i > 0 {
      assert s[0].0 != s[i].0;
      assert DistinctKeys(s[1..]) by {
        forall p, q | 0 <= p < q < |s[1..]|
          ensures s[1..][p].0 != s[1..][q].0
        {
          assert s[1..][p] == s[p + 1] && s[1..][q] == s[q + 1];
        }
      }
      LookupAt(s[1..], i - 1);
    }
  }

  /**
   * `putAll` of entries with distinct keys, none of them already in the
   * map, adds exactly those entries.
   */
  lemma {:induction false} PutAllNew(m: Pairs, s: Pairs)
    requires DistinctKeys(s)
    requires forall k :: HasKey(s, k) ==> !HasKey(m, k)
    ensures multiset(PutAll(m, s)) == multiset(m) + multiset(s)
  {
    if s != [] {
      var init := s[..|s| - 1];
      var x := s[|s| - 1];
      assert s == init + [x];
      assert DistinctKeys(init) by {
        forall i, j | 0 <= i < j < |init|
          ensures init[i].0 != init[j].0
        {
          assert init[i] == s[i] && init[j] == s[j];
        }
      }
      forall k | HasKey(init, k)
        ensures !HasKey(m, k)
      {
        var i :| 0 <= i < |init| && init[i].0 == k;
        assert s[i].0 == k;
      }
      PutAllNew(m, init);
      PutAllKeys(m, init);
      assert HasKey(s, x.0);
      assert !HasKey(init, x.0);
      PutNewKey(PutAll(m, init), x.0, x.1);
    }
  }

  /** The keys after `putAll` are the old keys and the keys of `s`. */
  lemma {:induction false} PutAllKeys(m: Pairs, s: Pairs)
    ensures forall k :: HasKey(PutAll(m, s), k) <==> HasKey(m, k) || HasKey(s, k)
  {
    if s != [] {
      var init := s[..|s| - 1];
      var x := s[|s| - 1];
      PutAllKeys(m, init);
      PutLookup(PutAll(m, init), x.0, x.1);
      forall k
        ensures HasKey(s, k) <==> HasKey(init, k) || x.0 == k
      {
        if HasKey(s, k) && x.0 != k {
          var i :| 0 <= i < |s| && s[i].0 == k;
          assert init[i].0 == k;
        }
        if HasKey(init, k) {
          var i :| 0 <= i < |init| && init[i].0 == k;
          assert s[i].0 == k;
        }
      }
    }
  }
}
