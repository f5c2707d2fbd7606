/**
 * String facts the library relies on: the attribute-key namespaces, the
 * custom-dimension keys, Java's `String.trim` and the UTF-8 byte length
 * that `String.getBytes()` produces on Android.
 */
module Text {
  /** Number of custom-dimension slots (indices 0 through 9). */
  const MAX_CUSTOM_DIMENSIONS: nat := 10

  /** The `%s:%s` format used for event names and application attribute keys. */
  function AppKey(packageName: string, key: string): string
  {
    packageName + ":" + key
  }

  /** `ATTRIBUTE_FORMAT(packageName, "")`: the prefix every application attribute key carries. */
  function AppPrefix(packageName: string): (p: string)
    ensures forall key :: p <= AppKey(packageName, key)
  {
    packageName + ":"
  }

  /** Keys of one package's namespace are equal exactly when the caller's keys are. */
  lemma AppKeyInjective(packageName: string, a: string, b: string)
    ensures AppKey(packageName, a) == AppKey(packageName, b) <==> a == b
  {
    if AppKey(packageName, a) == AppKey(packageName, b) {
      assert AppKey(packageName, a)[|packageName| + 1..] == a;
      assert AppKey(packageName, b)[|packageName| + 1..] == b;
    }
  }

  /**
   * The attribute key of custom-dimension slot `i` (`ATTRIBUTE_CUSTOM_DIMENSION_{i+1}`
   * and `CUSTOM_DIMENSION_{i+1}`). The library's own constant strings are
   * not part of this model; these stand-ins share the two properties the
   * code depends on: they are pairwise distinct and carry no application
   * prefix (DimensionKeysDistinct, DimensionKeyNotApplication).
   */
  function DimensionKey(i: nat): string
    requires i < MAX_CUSTOM_DIMENSIONS
  {
    "custom_dimension_" + ["0123456789"[i]]
  }

  lemma DimensionKeysDistinct(i: nat, j: nat)
    requires i < MAX_CUSTOM_DIMENSIONS && j < MAX_CUSTOM_DIMENSIONS
    ensures DimensionKey(i) == DimensionKey(j) <==> i == j
  {
    if DimensionKey(i) == DimensionKey(j) {
      assert DimensionKey(i)[17] == DimensionKey(j)[17];
    }
  }

  /** No dimension key is an application attribute key, whatever the package name. */
  lemma DimensionKeyNotApplication(packageName: string, i: nat)
    requires i < MAX_CUSTOM_DIMENSIONS
    ensures !(AppPrefix(packageName) <= DimensionKey(i))
  {
    var p := AppPrefix(packageName);
    var k := DimensionKey(i);
    assert ':' !in k;
    assert p[|packageName|] == ':';
    if |p| <= |k| {
      assert k[|packageName|] in k;
    }
  }

  predicate IsDimensionKey(k: string)
  {
    exists i: nat :: i < MAX_CUSTOM_DIMENSIONS && k == DimensionKey(i)
  }

  // ---------------------------------------------------------------------------
  // UTF-8 length
  // ---------------------------------------------------------------------------

  /** Bytes UTF-8 uses for one code point. */
  function Utf8Width(c: char): (w: nat)
    ensures 1 <= w <= 4
  {
    if c < 0x80 as char then 1
    else if c < 0x800 as char then 2
    else if c < 0x1_0000 as char then 3
    else 4
  }

  /** `s.getBytes().length` with the UTF-8 platform charset. */
  function Utf8Length(s: string): (n: nat)
    ensures |s| <= n <= 4 * |s|
  {
    if s == [] then 0 else Utf8Width(s[0]) + Utf8Length(s[1..])
  }

  // ---------------------------------------------------------------------------
  // String.trim
  // ---------------------------------------------------------------------------

  /** `String.trim` removes every leading and trailing char at or below U+0020. */
  predicate IsTrimmed(c: char) { c <= ' ' }

  function TrimStart(s: string): (r: string)
    ensures |r| <= |s|
  {
    if s != [] && IsTrimmed(s[0]) then TrimStart(s[1..]) else s
  }

  function TrimEnd(s: string): (r: string)
    ensures |r| <= |s|
  {
    if s != [] && IsTrimmed(s[|s| - 1]) then TrimEnd(s[..|s| - 1]) else s
  }

  function Trim(s: string): string
  {
    TrimEnd(TrimStart(s))
  }

  /** `TrimStart` drops a run of leading blanks and stops at the first other char. */
  lemma {:induction false} TrimStartDropsBlanks(s: string)
    ensures var r := TrimStart(s);
      r == s[|s| - |r|..] && (r != [] ==> !IsTrimmed(r[0])) &&
      forall i :: 0 <= i < |s| - |r| ==> IsTrimmed(s[i])
  {
    if s != [] && IsTrimmed(s[0]) {
      TrimStartDropsBlanks(s[1..]);
      var r := TrimStart(s);
      assert r == s[1..][|s| - 1 - |r|..];
      forall i | 0 <= i < |s| - |r|
        ensures IsTrimmed(s[i])
      {
        if i > 0 {
          assert s[i] == s[1..][i - 1];
        }
      }
    }
  }

  /** `TrimEnd` drops a run of trailing blanks and stops at the last other char. */
  lemma {:induction false} TrimEndDropsBlanks(s: string)
    ensures var r := TrimEnd(s);
      r == s[..|r|] && (r != [] ==> !IsTrimmed(r[|r| - 1])) &&
      forall i :: |r| <= i < |s| ==> IsTrimmed(s[i])
  {
    if s != [] && IsTrimmed(s[|s| - 1]) {
      var p := s[..|s| - 1];
      TrimEndDropsBlanks(p);
      var r := TrimEnd(s);
      assert r == p[..|r|];
      forall i | |r| <= i < |s|
        ensures IsTrimmed(s[i])
      {
        if i < |s| - 1 {
          assert s[i] == p[i];
        }
      }
    }
  }

  /**
   * Where a blank-free prefix `t` of a blank-free suffix `a` of `s` sits in
   * `s`, when only blanks lie before `a` and after `t`.
   */
  lemma SpanOfTrimmed(s: string, a: string, t: string) returns (i: nat, j: nat)
    requires |a| <= |s| && a == s[|s| - |a|..]
    requires a != [] ==> !IsTrimmed(a[0])
    requires forall k :: 0 <= k < |s| - |a| ==> IsTrimmed(s[k])
    requires |t| <= |a| && t == a[..|t|]
    requires t != [] ==> !IsTrimmed(t[|t| - 1])
    requires forall k :: |t| <= k < |a| ==> IsTrimmed(a[k])
    ensures i <= j <= |s| && t == s[i..j]
    ensures forall k :: 0 <= k < i ==> IsTrimmed(s[k])
    ensures forall k :: j <= k < |s| ==> IsTrimmed(s[k])
    ensures i < j ==> !IsTrimmed(s[i]) && !IsTrimmed(s[j - 1])
  {
    i := |s| - |a|;
    j := i + |t|;
    forall k | j <= k < |s|
      ensures IsTrimmed(s[k])
    {
      assert s[k] == a[k - i];
    }
    if i < j {
      assert s[i] == a[0] == t[0];
      assert s[j - 1] == t[|t| - 1];
    }
  }

  /** Where `trim` cuts `s`: the kept part is `s[i..j]`, and only blanks lie outside it. */
  lemma TrimSpan(s: string) returns (i: nat, j: nat)
    ensures i <= j <= |s| && Trim(s) == s[i..j]
    ensures forall k :: 0 <= k < i ==> IsTrimmed(s[k])
    ensures forall k :: j <= k < |s| ==> IsTrimmed(s[k])
    ensures i < j ==> !IsTrimmed(s[i]) && !IsTrimmed(s[j - 1])
  {
    var a := TrimStart(s);
    TrimStartDropsBlanks(s);
    TrimEndDropsBlanks(a);
    i, j := SpanOfTrimmed(s, a, TrimEnd(a));
  }

  /**
   * `trim` keeps a contiguous middle part of the string that neither starts
   * nor ends with a blank, and drops only blanks around it; in particular
   * it is empty exactly when every char is blank.
   */
  lemma TrimShape(s: string)
    ensures var t := Trim(s);
      exists i, j :: 0 <= i <= j <= |s| && t == s[i..j] &&
        (forall k :: 0 <= k < i || j <= k < |s| ==> IsTrimmed(s[k]))
    ensures var t := Trim(s); t != [] ==> !IsTrimmed(t[0]) && !IsTrimmed(t[|t| - 1])
    ensures Trim(s) == [] <==> forall k :: 0 <= k < |s| ==> IsTrimmed(s[k])
  {
    var i, j := TrimSpan(s);
    if i < j {
      assert Trim(s)[0] == s[i];
    }
  }
}
