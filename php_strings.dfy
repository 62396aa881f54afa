/**
 * The PHP string primitives the link preview relies on: `trim` with its default
 * character list, `ltrim($s, '/')`, `empty()` on a string, the XPath `contains()`
 * function and the `FILTER_SANITIZE_URL` filter.
 */
module PhpStrings {

  /** The characters `trim` removes when no list is given: space, tab, LF, CR, NUL and vertical tab. */
  predicate IsTrimmed(c: char) {
    c == ' ' || c == '\t' || c == '\n' || c == '\r' || c == '\0' || c == '\U{000B}'
  }

  /** `ltrim($s)`: the suffix of `s` left after dropping every leading trimmed character. */
  function TrimStart(s: string): (r: string)
    ensures |r| <= |s| && r == s[|s| - |r|..]
    ensures forall k :: 0 <= k < |s| - |r| ==> IsTrimmed(s[k])
    ensures r == [] || !IsTrimmed(r[0])
  {
    if s != [] && IsTrimmed(s[0]) then TrimStart(s[1..]) else s
  }

  /** `rtrim($s)`: the prefix of `s` left after dropping every trailing trimmed character. */
  function TrimEnd(s: string): (r: string)
    ensures |r| <= |s| && r == s[..|r|]
    ensures forall k :: |r| <= k < |s| ==> IsTrimmed(s[k])
    ensures r == [] || !IsTrimmed(r[|r| - 1])
  {
    if s != [] && IsTrimmed(s[|s| - 1]) then TrimEnd(s[..|s| - 1]) else s
  }

  /** `trim($s)`: neither end of the result is a trimmed character. */
  function Trim(s: string): (r: string)
    ensures |r| <= |s|
    ensures r == [] || (!IsTrimmed(r[0]) && !IsTrimmed(r[|r| - 1]))
  {
    TrimEnd(TrimStart(s))
  }

  predicate AllTrimmed(s: string) {
    forall k :: 0 <= k < |s| ==> IsTrimmed(s[k])
  }

  /** A string whose first and last characters (if any) survive `trim`. */
  predicate IsTrimCore(s: string) {
    s == [] || (!IsTrimmed(s[0]) && !IsTrimmed(s[|s| - 1]))
  }

  /**
   * `trim` is characterised by the split it finds: whenever `s` is trimmed characters,
   * then a core with untrimmed ends, then trimmed characters, `trim` returns that core.
   */
  lemma {:induction false} TrimFindsCore(s: string, lead: string, core: string, trail: string)
    requires s == lead + core + trail
    requires AllTrimmed(lead) && AllTrimmed(trail) && IsTrimCore(core)
    ensures Trim(s) == core
  {
    if core == [] {
      assert s == (lead + trail) + [];
      assert AllTrimmed(lead + trail) by {
        forall k | 0 <= k < |lead + trail| ensures IsTrimmed((lead + trail)[k]) {
          if k < |lead| { assert (lead + trail)[k] == lead[k]; }
          else { assert (lead + trail)[k] == trail[k - |lead|]; }
        }
      }
      TrimStartSkipsLead(s, lead + trail, []);
      assert TrimEnd([]) == [];
    } else {
      assert s == lead + (core + trail);
      assert (core + trail)[0] == core[0];
      TrimStartSkipsLead(s, lead, core + trail);
      TrimEndSkipsTrail(core + trail, core, trail);
    }
  }

  /** `ltrim` drops a trimmed prefix and stops at the first character it keeps. */
  lemma {:induction false} TrimStartSkipsLead(s: string, lead: string, rest: string)
    requires s == lead + rest && AllTrimmed(lead)
    requires rest == [] || !IsTrimmed(rest[0])
    ensures TrimStart(s) == rest
  {
    if lead == [] {
      assert s == rest;
    } else {
      assert s[0] == lead[0];
      assert s[1..] == lead[1..] + rest;
      TrimStartSkipsLead(s[1..], lead[1..], rest);
    }
  }

  /** `rtrim` drops a trimmed suffix and stops at the last character it keeps. */
  lemma {:induction false} TrimEndSkipsTrail(s: string, rest: string, trail: string)
    requires s == rest + trail && AllTrimmed(trail)
    requires rest == [] || !IsTrimmed(rest[|rest| - 1])
    ensures TrimEnd(s) == rest
  {
    if trail == [] {
      assert s == rest;
    } else {
      var last := |trail| - 1;
      assert s[|s| - 1] == trail[last];
      assert s[..|s| - 1] == rest + trail[..last];
      TrimEndSkipsTrail(s[..|s| - 1], rest, trail[..last]);
    }
  }

  /** Trimming an already trimmed string changes nothing. */
  lemma TrimIdempotent(s: string)
    ensures Trim(Trim(s)) == Trim(s)
  {
    var r := Trim(s);
    assert r == [] + r + [];
    TrimFindsCore(r, [], r, []);
  }

  /** `ltrim($s, '/')`: the suffix of `s` left after dropping every leading slash. */
  function TrimLeadingSlashes(s: string): (r: string)
    ensures |r| <= |s| && r == s[|s| - |r|..]
    ensures forall k :: 0 <= k < |s| - |r| ==> s[k] == '/'
    ensures r == [] || r[0] != '/'
  {
    if s != [] && s[0] == '/' then TrimLeadingSlashes(s[1..]) else s
  }

  /** PHP's `empty()` on a string: true for the empty string and for "0", false for anything longer. */
  predicate IsEmpty(s: string): (b: bool)
    ensures s == "" || s == "0" ==> b
    ensures |s| == 1 ==> (b <==> s[0] == '0')
    ensures |s| > 1 ==> !b
  {
    s == "" || s == "0"
  }

  /** `needle` occurs in `haystack` starting at index `i`. */
  predicate OccursAt(haystack: string, needle: string, i: int) {
    0 <= i && i + |needle| <= |haystack| && haystack[i..i + |needle|] == needle
  }

  /** XPath `contains(haystack, needle)`: a case-sensitive substring test. */
  function Contains(haystack: string, needle: string): (b: bool)
    ensures b <==> exists i :: OccursAt(haystack, needle, i)
  {
    if needle <= haystack then
      assert OccursAt(haystack, needle, 0);
      true
    else if haystack == [] then
      false
    else
      var b := Contains(haystack[1..], needle);
      assert forall i :: OccursAt(haystack[1..], needle, i) ==> OccursAt(haystack, needle, i + 1);
      assert forall i :: OccursAt(haystack, needle, i) ==> i != 0 && OccursAt(haystack[1..], needle, i - 1);
      b
  }

  /**
   * The characters `FILTER_SANITIZE_URL` keeps: ASCII letters and digits and
   * $-_.+!*'(),{}|\^~[]`<>#%";/?:@&=
   */
  predicate IsUrlSafe(c: char) {
    ('a' <= c <= 'z') || ('A' <= c <= 'Z') || ('0' <= c <= '9')
    || c in {
      '$', '-', '_', '.', '+', '!', '*', '\'', '(', ')', ',', '{', '}', '|', '\\', '^',
      '~', '[', ']', '`', '<', '>', '#', '%', '\"', ';', '/', '?', ':', '@', '&', '='
    }
  }

  /** `filter_var($s, FILTER_SANITIZE_URL)`: `s` with every character outside the safe set removed. */
  function SanitizeUrl(s: string): (r: string)
    ensures |r| <= |s|
    ensures forall k :: 0 <= k < |r| ==> IsUrlSafe(r[k])
  {
    if s == [] then [] else Kept(s[0]) + SanitizeUrl(s[1..])
  }

  /** Sanitising keeps every safe character, as often as it occurs, and drops the rest. */
  lemma {:induction false} SanitizeUrlKeepsSafe(s: string, c: char)
    ensures multiset(SanitizeUrl(s))[c] == if IsUrlSafe(c) then multiset(s)[c] else 0
  {
    if s != [] {
      SanitizeUrlKeepsSafe(s[1..], c);
      KeptCount(s[0], c);
      assert s == [s[0]] + s[1..];
      assert SanitizeUrl(s) == Kept(s[0]) + SanitizeUrl(s[1..]);
    }
  }

  lemma KeptCount(d: char, c: char)
    ensures multiset(Kept(d))[c] == if IsUrlSafe(c) && d == c then 1 else 0
  {
  }

  /** A string made only of safe characters passes the filter unchanged. */
  lemma {:induction false} SanitizeUrlOfSafe(s: string)
    requires forall k :: 0 <= k < |s| ==> IsUrlSafe(s[k])
    ensures SanitizeUrl(s) == s
  {
    if s != [] {
      SanitizeUrlOfSafe(s[1..]);
      assert s == [s[0]] + s[1..];
    }
  }

  /**
   * Sanitising works character by character and keeps the order: the filtered
   * concatenation is the concatenation of the filtered parts.
   */
  lemma {:induction false} SanitizeUrlAppend(a: string, b: string)
    ensures SanitizeUrl(a + b) == SanitizeUrl(a) + SanitizeUrl(b)
  {
    if a == [] {
      assert a + b == b;
    } else {
      var ab := a + b;
      assert ab[0] == a[0];
      assert ab[1..] == a[1..] + b;
      calc {
        SanitizeUrl(ab);
        Kept(a[0]) + SanitizeUrl(a[1..] + b);
        { SanitizeUrlAppend(a[1..], b); }
        Kept(a[0]) + (SanitizeUrl(a[1..]) + SanitizeUrl(b));
        (Kept(a[0]) + SanitizeUrl(a[1..])) + SanitizeUrl(b);
        SanitizeUrl(a) + SanitizeUrl(b);
      }
    }
  }

  /** No character the URL filter keeps is whitespace, so `trim` leaves a filtered string alone. */
  lemma TrimKeepsUrlSafe(s: string)
    requires forall k :: 0 <= k < |s| ==> IsUrlSafe(s[k])
    ensures Trim(s) == s
  {
    if s != [] {
      TrimmedIsNotUrlSafe(s[0]);
      TrimmedIsNotUrlSafe(s[|s| - 1]);
    }
    assert s == [] + s + [];
    TrimFindsCore(s, [], s, []);
  }

  /** PHP's whitespace characters all lie outside the URL filter's alphabet. */
  lemma TrimmedIsNotUrlSafe(c: char)
    ensures IsTrimmed(c) ==> !IsUrlSafe(c)
  {
  }

  /** The part of a one-character string that `FILTER_SANITIZE_URL` keeps. */
  function Kept(c: char): string {
    if IsUrlSafe(c) then [c] else []
  }

  /** Sanitising twice is sanitising once. */
  lemma SanitizeUrlIdempotent(s: string)
    ensures SanitizeUrl(SanitizeUrl(s)) == SanitizeUrl(s)
  {
    SanitizeUrlOfSafe(SanitizeUrl(s));
  }
}
