/**
 * String primitives with the meaning JavaScript gives them: `trim`, literal
 * `split`/`join`, `startsWith`/`endsWith`, `length` in UTF-16 code units and
 * decimal rendering of integers. Strings are sequences of Unicode scalar values.
 */
module Text {
  import opened Wrappers

  /** The code points JavaScript's `trim` strips and regex `\s` matches:
      the WhiteSpace and LineTerminator productions of ECMAScript. */
  predicate IsSpace(c: char) {
    || c == '\t' || c == '\n' || c == '\U{000B}' || c == '\U{000C}' || c == '\r'
    || c == ' ' || c == '\U{00A0}' || c == '\U{1680}'
    || ('\U{2000}' <= c <= '\U{200A}')
    || c == '\U{2028}' || c == '\U{2029}' || c == '\U{202F}' || c == '\U{205F}'
    || c == '\U{3000}' || c == '\U{FEFF}'
  }

  /** The code points a regex `.` does not match (ECMAScript LineTerminator). */
  predicate IsLineTerminator(c: char) {
    c == '\n' || c == '\r' || c == '\U{2028}' || c == '\U{2029}'
  }

  /** ASCII digit, as regex `\d` without the `u` flag sees it. */
  predicate IsDigit(c: char) {
    '0' <= c <= '9'
  }

  predicate AllSpace(s: string) {
    forall i :: 0 <= i < |s| ==> IsSpace(s[i])
  }

  // ---------------------------------------------------------------- trimming

  /** The first index at or after `i` that does not hold whitespace (`|s|` if none). */
  function SkipSpace(s: string, i: nat): (n: nat)
    requires i <= |s|
    ensures i <= n <= |s|
    ensures forall j :: i <= j < n ==> IsSpace(s[j])
    ensures n < |s| ==> !IsSpace(s[n])
    decreases |s| - i
  {
    if i < |s| && IsSpace(s[i]) then SkipSpace(s, i + 1) else i
  }

  /** Scanning back from `hi` to `lo`: the index just after the last position
      that does not hold whitespace (`lo` if none). */
  function SkipSpaceBack(s: string, lo: nat, hi: nat): (e: nat)
    requires lo <= hi <= |s|
    ensures lo <= e <= hi
    ensures forall j :: e <= j < hi ==> IsSpace(s[j])
    ensures e > lo ==> !IsSpace(s[e - 1])
    decreases hi
  {
    if hi > lo && IsSpace(s[hi - 1]) then SkipSpaceBack(s, lo, hi - 1) else hi
  }

  /** Number of whitespace code points `trim` drops at the front of `s`. */
  function LeadingSpace(s: string): nat {
    SkipSpace(s, 0)
  }

  /** `s.trimStart()`, and the `\s*` a pattern consumes greedily. */
  function TrimStart(s: string): (r: string)
    ensures |r| <= |s| && r == s[|s| - |r|..]
    ensures AllSpace(s[..|s| - |r|])
    ensures |r| > 0 ==> !IsSpace(r[0])
  {
    s[LeadingSpace(s)..]
  }

  /** `s.trim()`: the slice of `s` left after dropping whitespace at both ends. */
  function Trim(s: string): (r: string)
    ensures |r| > 0 ==> !IsSpace(r[0]) && !IsSpace(r[|r| - 1])
    ensures LeadingSpace(s) + |r| <= |s|
    ensures r == s[LeadingSpace(s)..LeadingSpace(s) + |r|]
    ensures AllSpace(s[..LeadingSpace(s)]) && AllSpace(s[LeadingSpace(s) + |r|..])
  {
    var a := LeadingSpace(s);
    s[a..SkipSpaceBack(s, a, |s|)]
  }

  /** Trimming only removes characters. */
  lemma TrimKeepsCharacters(s: string)
    ensures forall x :: x in Trim(s) ==> x in s
  {
    var r := Trim(s);
    forall x | x in r ensures x in s {
      var j :| 0 <= j < |r| && r[j] == x;
      assert s[LeadingSpace(s) + j] == x;
    }
  }

  /** A string whose ends are not whitespace is its own trim. */
  lemma TrimOfTrimmed(s: string)
    requires |s| == 0 || (!IsSpace(s[0]) && !IsSpace(s[|s| - 1]))
    ensures Trim(s) == s
  {
    assert LeadingSpace(s) == 0;
    assert SkipSpaceBack(s, 0, |s|) == |s|;
  }

  /** Trimming twice is trimming once. */
  lemma TrimIdempotent(s: string)
    ensures Trim(Trim(s)) == Trim(s)
  {
    TrimOfTrimmed(Trim(s));
  }

  /** Trimming yields the empty string exactly on all-whitespace input. */
  lemma TrimEmptyIff(s: string)
    ensures Trim(s) == "" <==> AllSpace(s)
  {
    var a := LeadingSpace(s);
    if Trim(s) == "" {
      assert SkipSpaceBack(s, a, |s|) == a;
      assert forall j :: 0 <= j < |s| ==> IsSpace(s[j]) by {
        forall j | 0 <= j < |s| ensures IsSpace(s[j]) {
          if j < a {
            assert IsSpace(s[j]);
          }
        }
      }
    } else {
      assert s[a] == Trim(s)[0];
    }
  }

  // -------------------------------------------------------- prefix / suffix

  predicate StartsWith(s: string, p: string) {
    |p| <= |s| && s[..|p|] == p
  }

  predicate EndsWith(s: string, p: string) {
    |p| <= |s| && s[|s| - |p|..] == p
  }

  // ------------------------------------------------------- literal search

  /** `pat` occurs in `s` starting at index `j`. */
  predicate OccursAt(s: string, pat: string, j: int) {
    0 <= j && j + |pat| <= |s| && s[j..j + |pat|] == pat
  }

  /** The middle part of a concatenation occurs right after the first part. */
  lemma OccursBetween(head: string, pat: string, rest: string)
    ensures OccursAt(head + pat + rest, pat, |head|)
  {
    assert (head + pat + rest)[|head|..|head| + |pat|] == pat;
  }

  lemma ConcatAssoc(a: string, b: string, c: string)
    ensures a + (b + c) == (a + b) + c
  {
  }

  lemma EndsWithAppended(a: string, b: string)
    ensures EndsWith(a + b, b)
  {
    assert (a + b)[|a|..] == b;
  }

  lemma ConcatRegroup(a: string, b: string, c: string, d: string, e: string)
    ensures (a + b) + ((c + d) + e) == (a + (b + c)) + (d + e)
  {
  }

  /** No occurrence of `pat` in `s` starts before index `k`. */
  predicate NoOccurrenceBefore(s: string, pat: string, k: int) {
    forall j :: 0 <= j < k ==> !OccursAt(s, pat, j)
  }

  /** The first occurrence of `pat` in `s` at or after `from` (`indexOf`). */
  function FindFrom(s: string, pat: string, from: nat): (r: Option<nat>)
    ensures r.Some? ==> from <= r.value && OccursAt(s, pat, r.value)
    ensures r.Some? ==> forall j :: from <= j < r.value ==> !OccursAt(s, pat, j)
    ensures r.None? ==> forall j :: from <= j ==> !OccursAt(s, pat, j)
    decreases |s| - from
  {
    if from + |pat| > |s| then None
    else if s[from..from + |pat|] == pat then Some(from)
    else FindFrom(s, pat, from + 1)
  }

  /** The first index at or after `from` holding `c`. */
  function FindChar(s: string, c: char, from: nat): (r: Option<nat>)
    ensures r.Some? ==> from <= r.value < |s| && s[r.value] == c
    ensures r.Some? ==> forall j :: from <= j < r.value ==> s[j] != c
    ensures r.None? ==> forall j :: from <= j < |s| ==> s[j] != c
    decreases |s| - from
  {
    if from >= |s| then None
    else if s[from] == c then Some(from)
    else FindChar(s, c, from + 1)
  }

  /** The leftmost match of a pattern, the way a regular-expression search
      tries start positions: `m(s, i)` is the end of a match starting at `i`. */
  function FirstMatch(m: (string, nat) -> Option<nat>, s: string, from: nat): (r: Option<(nat, nat)>)
    ensures r.Some? ==> from <= r.value.0 <= |s| && m(s, r.value.0) == Some(r.value.1)
    ensures r.Some? ==> forall j :: from <= j < r.value.0 ==> m(s, j).None?
    ensures r.None? ==> forall j :: from <= j <= |s| ==> m(s, j).None?
    decreases |s| - from + 1
  {
    if from > |s| then None
    else match m(s, from)
      case Some(e) => Some((from, e))
      case None => FirstMatch(m, s, from + 1)
  }

  /** A pattern matches at `i` and at no earlier position. */
  predicate FirstMatchAt(m: (string, nat) -> Option<nat>, s: string, i: nat) {
    i <= |s| && m(s, i).Some? && forall j: nat :: j < i ==> m(s, j).None?
  }

  /** A pattern matches nowhere in `s`. */
  predicate NoMatch(m: (string, nat) -> Option<nat>, s: string) {
    forall j: nat :: j <= |s| ==> m(s, j).None?
  }

  /** The search from the start finds exactly the first matching position. */
  lemma FirstMatchFound(m: (string, nat) -> Option<nat>, s: string)
    ensures FirstMatch(m, s, 0).None? <==> NoMatch(m, s)
    ensures forall i: nat :: FirstMatchAt(m, s, i) <==>
              FirstMatch(m, s, 0).Some? && FirstMatch(m, s, 0).value.0 == i
  {
  }

  // ------------------------------------------------------ split and join

  /** `ps.join(sep)`. */
  function Join(ps: seq<string>, sep: string): string {
    if |ps| == 0 then ""
    else if |ps| == 1 then ps[0]
    else ps[0] + sep + Join(ps[1..], sep)
  }

  /** Pieces free of a one-character separator are what splitting their join cuts. */
  lemma CharFreePieces(ps: seq<string>, c: char)
    requires |ps| >= 1 && forall j :: 0 <= j < |ps| ==> c !in ps[j]
    ensures WellCut(ps, [c])
  {
    forall p | p in ps ensures InnerPiece(p, [c]) && LastPiece(p, [c]) {
      forall j | 0 <= j < |p| ensures !OccursAt(p + [c], [c], j) && !OccursAt(p, [c], j) {
        assert (p + [c])[j..j + 1][0] == p[j];
      }
    }
  }

  /** A join starts with the first piece and ends with the last one. */
  lemma {:induction false} JoinEnds(ps: seq<string>, sep: string)
    requires |ps| >= 1 && ps[|ps| - 1] != ""
    ensures var t := Join(ps, sep); |t| > 0 && t[|t| - 1] == ps[|ps| - 1][|ps[|ps| - 1]| - 1]
    ensures ps[0] != "" ==> Join(ps, sep)[0] == ps[0][0]
    decreases |ps|
  {
    if |ps| > 1 {
      JoinEnds(ps[1..], sep);
    }
  }

  /** `ps.join('')`. */
  function Concat(ps: seq<string>): string {
    if |ps| == 0 then "" else ps[0] + Concat(ps[1..])
  }

  /** A piece that a separator follows: scanning `p + sep` finds `sep` first at `|p|`. */
  predicate InnerPiece(p: string, sep: string) {
    NoOccurrenceBefore(p + sep, sep, |p|)
  }

  /** A final piece: `sep` does not occur in it at all. */
  predicate LastPiece(p: string, sep: string) {
    NoOccurrenceBefore(p, sep, |p|)
  }

  /** The pieces a left-to-right, non-overlapping scan for `sep` would cut. */
  predicate WellCut(ps: seq<string>, sep: string) {
    && |ps| >= 1
    && (forall i :: 0 <= i < |ps| - 1 ==> InnerPiece(ps[i], sep))
    && LastPiece(ps[|ps| - 1], sep)
  }

  /** `s.split(sep)` for a non-empty literal separator (also `s.split(/sep/)`
      when the pattern has no metacharacters and no capture group). */
  function Split(s: string, sep: string): (r: seq<string>)
    requires |sep| > 0
    ensures WellCut(r, sep)
    ensures Join(r, sep) == s
    decreases |s|
  {
    match FindFrom(s, sep, 0)
    case None =>
      assert NoOccurrenceBefore(s, sep, |s|);
      [s]
    case Some(k) =>
      FirstOccurrenceCuts(s, sep, k);
      var rest := Split(s[k + |sep|..], sep);
      ConsWellCut(s[..k], rest, sep);
      [s[..k]] + rest
  }

  /** The text before the first separator is an inner piece. */
  lemma FirstOccurrenceCuts(s: string, sep: string, k: nat)
    requires |sep| > 0 && FindFrom(s, sep, 0) == Some(k)
    ensures k + |sep| <= |s| && s == s[..k] + sep + s[k + |sep|..]
    ensures InnerPiece(s[..k], sep)
  {
    var head := s[..k];
    assert head + sep == s[..k + |sep|];
    forall j | 0 <= j < k ensures !OccursAt(head + sep, sep, j) {
      assert !OccursAt(s, sep, j);
      assert (head + sep)[j..j + |sep|] == s[j..j + |sep|];
    }
  }

  /** An inner piece in front of well-cut pieces keeps them well cut. */
  lemma ConsWellCut(head: string, rest: seq<string>, sep: string)
    requires InnerPiece(head, sep) && WellCut(rest, sep)
    ensures WellCut([head] + rest, sep)
    ensures Join([head] + rest, sep) == head + sep + Join(rest, sep)
  {
    var ps := [head] + rest;
    assert ps[1..] == rest;
    forall i | 0 <= i < |ps| - 1 ensures InnerPiece(ps[i], sep) {
      if i > 0 { assert ps[i] == rest[i - 1]; }
    }
    assert ps[|ps| - 1] == rest[|rest| - 1];
  }

  /** A scan from `from` stops at the first occurrence `k` it meets. */
  lemma {:induction false} FindFromFirst(s: string, pat: string, from: nat, k: nat)
    requires from <= k && OccursAt(s, pat, k)
    requires forall j :: from <= j < k ==> !OccursAt(s, pat, j)
    ensures FindFrom(s, pat, from) == Some(k)
    decreases k - from
  {
    if from < k {
      assert !OccursAt(s, pat, from);
      FindFromFirst(s, pat, from + 1, k);
    }
  }

  /** A scan over a string without occurrences finds nothing. */
  lemma {:induction false} FindFromNone(s: string, pat: string, from: nat)
    requires forall j :: from <= j ==> !OccursAt(s, pat, j)
    ensures FindFrom(s, pat, from) == None
    decreases |s| - from
  {
    if from + |pat| <= |s| {
      assert !OccursAt(s, pat, from);
      FindFromNone(s, pat, from + 1);
    }
  }

  /** A piece the separator follows is cut off first. */
  lemma SplitCons(a: string, sep: string, b: string)
    requires |sep| > 0 && InnerPiece(a, sep)
    ensures Split(a + sep + b, sep) == [a] + Split(b, sep)
  {
    var tail := Split(b, sep);
    ConsWellCut(a, tail, sep);
    SplitJoin([a] + tail, sep);
  }

  /** Splitting undoes joining well-cut pieces: with `Split`'s own guarantee
      `Join(Split(s)) == s`, the two are inverse bijections. */
  lemma {:induction false} SplitJoin(ps: seq<string>, sep: string)
    requires |sep| > 0
    requires WellCut(ps, sep)
    ensures Split(Join(ps, sep), sep) == ps
    decreases |ps|
  {
    var s := Join(ps, sep);
    if |ps| == 1 {
      FindFromNone(s, sep, 0);
    } else {
      var p := ps[0];
      var tail := Join(ps[1..], sep);
      assert s == (p + sep) + tail;
      assert OccursAt(s, sep, |p|) by {
        assert s[|p|..|p| + |sep|] == sep;
      }
      forall j | 0 <= j < |p| ensures !OccursAt(s, sep, j) {
        assert !OccursAt(p + sep, sep, j);
        assert s[j..j + |sep|] == (p + sep)[j..j + |sep|];
      }
      FindFromFirst(s, sep, 0, |p|);
      assert s[..|p|] == p;
      assert s[|p| + |sep|..] == tail;
      assert WellCut(ps[1..], sep) by {
        forall i | 0 <= i < |ps| - 2 ensures InnerPiece(ps[1..][i], sep) {
          assert ps[1..][i] == ps[i + 1];
        }
      }
      SplitJoin(ps[1..], sep);
      assert ps == [p] + ps[1..];
    }
  }

  lemma {:induction false} ConcatAppend(a: seq<string>, b: seq<string>)
    ensures Concat(a + b) == Concat(a) + Concat(b)
  {
    if |a| == 0 {
      assert a + b == b;
    } else {
      assert (a + b)[1..] == a[1..] + b;
      ConcatAppend(a[1..], b);
    }
  }

  // ------------------------------------------------------------ filtering

  /** `xs.filter(keep)`. */
  function Filter<T>(keep: T -> bool, xs: seq<T>): (r: seq<T>)
    ensures |r| <= |xs|
    ensures forall i :: 0 <= i < |r| ==> keep(r[i]) && r[i] in xs
    ensures forall i :: 0 <= i < |xs| && keep(xs[i]) ==> xs[i] in r
  {
    if |xs| == 0 then []
    else
      var rest := Filter(keep, xs[1..]);
      assert forall i :: 1 <= i < |xs| ==> xs[i] == xs[1..][i - 1];
      if keep(xs[0]) then [xs[0]] + rest else rest
  }

  /** Filtering respects order: it distributes over concatenation. */
  lemma {:induction false} FilterAppend<T>(keep: T -> bool, a: seq<T>, b: seq<T>)
    ensures Filter(keep, a + b) == Filter(keep, a) + Filter(keep, b)
  {
    if |a| == 0 {
      assert a + b == b;
    } else {
      assert (a + b)[1..] == a[1..] + b;
      FilterAppend(keep, a[1..], b);
    }
  }

  /** Filtering keeps a sequence unchanged exactly when every element passes. */
  lemma {:induction false} FilterIdentity<T>(keep: T -> bool, xs: seq<T>)
    ensures Filter(keep, xs) == xs <==> forall i :: 0 <= i < |xs| ==> keep(xs[i])
  {
    if |xs| > 0 {
      FilterIdentity(keep, xs[1..]);
      assert forall i :: 1 <= i < |xs| ==> xs[i] == xs[1..][i - 1];
      if !keep(xs[0]) {
        assert |Filter(keep, xs)| < |xs|;
      }
    }
  }

  // --------------------------------------------------- character removal

  /** `s.replace(/c/g, '')` for a single character `c`. */
  function RemoveChar(s: string, c: char): (r: string)
    ensures |r| <= |s|
    ensures forall x :: x in r <==> x in s && x != c
  {
    if |s| == 0 then ""
    else
      var rest := RemoveChar(s[1..], c);
      assert forall x :: x in s <==> x == s[0] || x in s[1..];
      if s[0] == c then rest else [s[0]] + rest
  }

  /** Removing an absent character changes nothing. */
  lemma {:induction false} RemoveCharAbsent(s: string, c: char)
    requires c !in s
    ensures RemoveChar(s, c) == s
  {
    if |s| > 0 {
      assert c !in s[1..];
      RemoveCharAbsent(s[1..], c);
      assert s == [s[0]] + s[1..];
    }
  }

  /** Removal is per character: it distributes over concatenation. */
  lemma {:induction false} RemoveCharAppend(a: string, b: string, c: char)
    ensures RemoveChar(a + b, c) == RemoveChar(a, c) + RemoveChar(b, c)
  {
    if |a| == 0 {
      assert a + b == b;
    } else {
      assert (a + b)[1..] == a[1..] + b;
      RemoveCharAppend(a[1..], b, c);
    }
  }

  // ------------------------------------------------------ UTF-16 length

  /** Code units a code point needs in UTF-16. */
  function Utf16Units(c: char): nat {
    if c as int >= 0x1_0000 then 2 else 1
  }

  /** JavaScript's `s.length`: the number of UTF-16 code units. */
  function Utf16Len(s: string): (n: nat)
    ensures |s| <= n <= 2 * |s|
    ensures n == |s| <==> forall i :: 0 <= i < |s| ==> (s[i] as int) < 0x1_0000
  {
    if |s| == 0 then 0
    else
      var rest := Utf16Len(s[1..]);
      assert forall i :: 1 <= i < |s| ==> s[i] == s[1..][i - 1];
      Utf16Units(s[0]) + rest
  }

  // ------------------------------------------------- decimal rendering

  function DigitChar(d: nat): (c: char)
    requires d < 10
    ensures IsDigit(c)
  {
    "0123456789"[d]
  }

  function DigitValue(c: char): nat
    requires IsDigit(c)
  {
    (c as int) - ('0' as int)
  }

  predicate AllDigits(s: string) {
    forall i :: 0 <= i < |s| ==> IsDigit(s[i])
  }

  /** Reads a string of decimal digits back as a number. */
  function DigitsValue(s: string): nat
    requires AllDigits(s)
  {
    if |s| == 0 then 0 else 10 * DigitsValue(s[..|s| - 1]) + DigitValue(s[|s| - 1])
  }

  /** `String(n)` for a non-negative integer: shortest decimal, no leading zero. */
  function NatToString(n: nat): (r: string)
    ensures |r| >= 1 && AllDigits(r)
    ensures |r| > 1 ==> r[0] != '0'
  {
    if n < 10 then [DigitChar(n)] else NatToString(n / 10) + [DigitChar(n % 10)]
  }

  /** Reading the rendered digits back gives the number. */
  lemma {:induction false} NatToStringRoundTrip(n: nat)
    ensures DigitsValue(NatToString(n)) == n
  {
    var r := NatToString(n);
    if n >= 10 {
      NatToStringRoundTrip(n / 10);
      assert r[..|r| - 1] == NatToString(n / 10);
    }
    assert DigitValue(DigitChar(n % 10)) == n % 10 by {
      assert "0123456789"[n % 10] as int == '0' as int + n % 10;
    }
  }

  /** `String(n)` for an integer-valued number: a minus sign for a negative
      number, then the shortest decimal digits of its magnitude. */
  function IntToString(n: int): (r: string)
    ensures n < 0 <==> StartsWith(r, "-")
    ensures n >= 0 ==> |r| >= 1 && AllDigits(r) && DigitsValue(r) == n && (|r| > 1 ==> r[0] != '0')
    ensures n < 0 ==> |r| >= 2 && AllDigits(r[1..]) && DigitsValue(r[1..]) == -n && (|r| > 2 ==> r[1] != '0')
  {
    if n < 0 then
      var d := NatToString(-n);
      NatToStringRoundTrip(-n);
      assert ("-" + d)[1..] == d;
      "-" + d
    else
      NatToStringRoundTrip(n);
      NatToString(n)
  }
}
