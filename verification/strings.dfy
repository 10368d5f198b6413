/** Character-sequence helpers shared by the model.

    A narrow `std::string` and a wide `std::wstring` are both modelled as
    `seq<char>`, one element per character.  For text inside the Basic
    Multilingual Plane that is one element per code unit; a character
    beyond it, a surrogate pair in a `std::wstring`, is one element here.
    The helpers here are the few
    library behaviours the modelled code relies on: substring search
    (`strstr`, `find`), whitespace trimming with the set " \t\n\r\f\v",
    ASCII case folding (`towlower` in the default locale), decimal
    rendering of integers (`operator<<`, `std::to_wstring`) and the
    lexicographic order of `std::basic_string::compare`, which compares
    characters as unsigned values. */
module Strings {
  import opened Wrappers

  type String = seq<char>

  // ---------------------------------------------------------------------
  // Substring search
  // ---------------------------------------------------------------------

  /** `pat` occurs in `s` starting at index `i`. */
  predicate OccursAt(s: String, pat: String, i: nat) {
    i + |pat| <= |s| && s[i..i + |pat|] == pat
  }

  /** Index of the first occurrence of `pat` in `s` at or after `from`. */
  function FindFrom(s: String, pat: String, from: nat): (r: Option<nat>)
    ensures r.Some? ==> from <= r.value && OccursAt(s, pat, r.value)
    ensures r.Some? ==> forall j :: from <= j < r.value ==> !OccursAt(s, pat, j)
    ensures r.None? ==> forall j :: from <= j ==> !OccursAt(s, pat, j)
    decreases |s| - from
  {
    if from + |pat| > |s| then None
    else if OccursAt(s, pat, from) then Some(from)
    else FindFrom(s, pat, from + 1)
  }

  /** Index of the first occurrence of `pat` in `s` (`strstr`, `find`). */
  function Find(s: String, pat: String): (r: Option<nat>)
    ensures r.Some? ==> OccursAt(s, pat, r.value)
    ensures r.Some? ==> forall j :: 0 <= j < r.value ==> !OccursAt(s, pat, j)
    ensures r.None? ==> forall j :: 0 <= j ==> !OccursAt(s, pat, j)
  {
    FindFrom(s, pat, 0)
  }

  /** `pat` occurs somewhere in `s`. */
  predicate Contains(s: String, pat: String) {
    Find(s, pat).Some?
  }

  /** Search finds an occurrence exactly when one exists. */
  lemma ContainsIff(s: String, pat: String)
    ensures Contains(s, pat) <==> exists i: nat :: OccursAt(s, pat, i)
  {
    if Contains(s, pat) {
      assert OccursAt(s, pat, Find(s, pat).value);
    }
  }

  /** An occurrence at `i` makes `s` contain `pat`, and the first one is no later. */
  lemma OccursAtContains(s: String, pat: String, i: nat)
    requires OccursAt(s, pat, i)
    ensures Contains(s, pat) && Find(s, pat).value <= i
  {
  }

  /** Text without the pattern's first character does not contain it. */
  lemma MissingFirstChar(s: String, pat: String)
    requires |pat| > 0 && forall k :: 0 <= k < |s| ==> s[k] != pat[0]
    ensures !Contains(s, pat)
  {
  }

  /** An occurrence inside a prefix is an occurrence in the whole string. */
  lemma OccursAtPrefix(s: String, t: String, pat: String, i: nat)
    requires OccursAt(s, pat, i)
    ensures OccursAt(s + t, pat, i)
  {
    assert (s + t)[i..i + |pat|] == s[i..i + |pat|];
  }

  /** When `l` has no `c`, the first `c` in `l + [c] + rest` is the one after `l`. */
  lemma FindAfterFree(l: String, c: char, rest: String)
    requires forall i :: 0 <= i < |l| ==> l[i] != c
    ensures Find(l + [c] + rest, [c]) == Some(|l|)
  {
    var s := l + [c] + rest;
    assert s[|l|..|l| + 1] == [c];
    OccursAtContains(s, [c], |l|);
    assert forall q :: 0 <= q < |l| ==> !OccursAt(s, [c], q) by {
      forall q | 0 <= q < |l| ensures !OccursAt(s, [c], q) {
        assert s[q] == l[q];
      }
    }
  }

  // ---------------------------------------------------------------------
  // Whitespace and case
  // ---------------------------------------------------------------------

  /** The set " \t\n\r\f\v" that the source passes to `find_first_not_of`. */
  predicate IsSpace(c: char) {
    c == ' ' || c == '\t' || c == '\n' || c == '\r' || c == '\U{000C}' || c == '\U{000B}'
  }

  /** Drops leading whitespace. */
  function TrimStart(s: String): (r: String)
    ensures |r| <= |s| && r == s[|s| - |r|..]
    ensures forall i :: 0 <= i < |s| - |r| ==> IsSpace(s[i])
    ensures |r| > 0 ==> !IsSpace(r[0])
  {
    if |s| > 0 && IsSpace(s[0]) then
      var r := TrimStart(s[1..]);
      assert forall i :: 1 <= i < |s| - |r| ==> s[i] == s[1..][i - 1];
      r
    else s
  }

  /** Drops trailing whitespace. */
  function TrimEnd(s: String): (r: String)
    ensures |r| <= |s| && r == s[..|r|]
    ensures forall i :: |r| <= i < |s| ==> IsSpace(s[i])
    ensures |r| > 0 ==> !IsSpace(r[|r| - 1])
  {
    if |s| > 0 && IsSpace(s[|s| - 1]) then
      var r := TrimEnd(s[..|s| - 1]);
      assert forall i :: |r| <= i < |s| - 1 ==> s[i] == s[..|s| - 1][i];
      r
    else s
  }

  /** Neither end of `s` is whitespace. */
  predicate Trimmed(s: String) {
    |s| == 0 || (!IsSpace(s[0]) && !IsSpace(s[|s| - 1]))
  }

  /** The two-sided trim the configuration store applies to keys and values. */
  function Trim(s: String): (r: String)
    ensures Trimmed(r)
    ensures Trimmed(s) ==> r == s
    ensures |r| <= |s|
  {
    var a := TrimStart(s);
    var r := TrimEnd(a);
    assert |r| > 0 ==> r[0] == a[0];
    assert Trimmed(s) && |s| > 0 ==> a == s;
    r
  }

  /** `towlower` restricted to what the default "C" locale changes: A-Z. */
  function LowerChar(c: char): (r: char)
    ensures 'A' <= c <= 'Z' ==> 'a' <= r <= 'z' && r as int - c as int == 32
    ensures !('A' <= c <= 'Z') ==> r == c
  {
    if 'A' <= c <= 'Z' then (c as int + 32) as char else c
  }

  /** `std::transform(..., ::towlower)` over a whole string. */
  function ToLower(s: String): (r: String)
    ensures |r| == |s|
    ensures forall i :: 0 <= i < |s| ==> r[i] == LowerChar(s[i])
  {
    seq(|s|, i requires 0 <= i < |s| => LowerChar(s[i]))
  }

  // ---------------------------------------------------------------------
  // Decimal rendering
  // ---------------------------------------------------------------------

  predicate IsDigit(c: char) {
    '0' <= c <= '9'
  }

  function DigitChar(d: nat): (c: char)
    requires d < 10
    ensures IsDigit(c) && c as int - '0' as int == d
  {
    ('0' as int + d) as char
  }

  /** Decimal digits of `n`, most significant first, no leading zero. */
  function NatToString(n: nat): (r: String)
    ensures |r| > 0
    ensures forall i :: 0 <= i < |r| ==> IsDigit(r[i])
    ensures r[0] == '0' ==> n == 0
  {
    if n < 10 then [DigitChar(n)] else NatToString(n / 10) + [DigitChar(n % 10)]
  }

  /** The value of a string of decimal digits. */
  function DigitsValue(s: String): nat
    requires forall i :: 0 <= i < |s| ==> IsDigit(s[i])
  {
    if |s| == 0 then 0
    else
      assert IsDigit(s[|s| - 1]);
      DigitsValue(s[..|s| - 1]) * 10 + (s[|s| - 1] as int - '0' as int)
  }

  /** Rendering a number and reading the digits back gives the number. */
  lemma {:induction false} NatToStringRoundTrip(n: nat)
    ensures DigitsValue(NatToString(n)) == n
  {
    if n >= 10 {
      var r := NatToString(n);
      assert r[..|r| - 1] == NatToString(n / 10);
      NatToStringRoundTrip(n / 10);
    }
  }

  /** Signed decimal rendering: a '-' sign before the magnitude when negative. */
  function IntToString(i: int): (r: String)
    ensures |r| > 0
    ensures r[0] == '-' <==> i < 0
    ensures var m := if i < 0 then r[1..] else r;
      && (forall k :: 0 <= k < |m| ==> IsDigit(m[k]))
      && DigitsValue(m) == (if i < 0 then -i else i)
  {
    if i < 0 then
      NatToStringRoundTrip(-i);
      var r := "-" + NatToString(-i);
      assert r[1..] == NatToString(-i);
      r
    else
      NatToStringRoundTrip(i);
      NatToString(i)
  }

  // ---------------------------------------------------------------------
  // Lexicographic order of std::basic_string::compare
  // ---------------------------------------------------------------------

  /** `a` sorts strictly before `b`: a proper prefix, or smaller at the first difference. */
  predicate Less(a: String, b: String) {
    |b| > 0 && (|a| == 0 || a[0] < b[0] || (a[0] == b[0] && Less(a[1..], b[1..])))
  }

  lemma {:induction false} LessIrreflexive(a: String)
    ensures !Less(a, a)
  {
    if |a| > 0 {
      LessIrreflexive(a[1..]);
    }
  }

  lemma {:induction false} LessTransitive(a: String, b: String, c: String)
    requires Less(a, b) && Less(b, c)
    ensures Less(a, c)
  {
    if |a| > 0 && a[0] == b[0] && b[0] == c[0] {
      LessTransitive(a[1..], b[1..], c[1..]);
    }
  }

  lemma {:induction false} LessTotal(a: String, b: String)
    ensures a == b || Less(a, b) || Less(b, a)
  {
    if |a| > 0 && |b| > 0 && a[0] == b[0] {
      LessTotal(a[1..], b[1..]);
      if a[1..] == b[1..] {
        assert a == [a[0]] + a[1..] && b == [b[0]] + b[1..];
      }
    }
  }

  lemma LessAsymmetric(a: String, b: String)
    requires Less(a, b)
    ensures !Less(b, a)
  {
    if Less(b, a) {
      LessTransitive(a, b, a);
      LessIrreflexive(a);
    }
  }
}
