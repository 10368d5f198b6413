/** `StringUtils::extractComPort`: the port name ("COM3") inside a device's
    friendly name ("USB Serial Port (COM3)").

    The argument is a `const char*`.  `None` models the null pointer; a
    `Some` buffer is read the way C reads it, up to its first NUL. */
module StringUtils {
  import opened Wrappers
  import opened Strings

  /** The scan copies at most this many characters (`i < 10`). */
  const MaxPortName: nat := 10

  /** The needle passed to `strstr`. */
  const ComMarker: String := "COM"

  /** The characters of a C string: everything before the first NUL. */
  function CText(buf: String): (r: String)
    ensures |r| <= |buf| && r == buf[..|r|]
    ensures forall i :: 0 <= i < |r| ==> r[i] != '\0'
    ensures |r| == |buf| || buf[|r|] == '\0'
  {
    if |buf| == 0 || buf[0] == '\0' then []
    else [buf[0]] + CText(buf[1..])
  }

  /** Characters at which the copy loop stops (besides the terminator). */
  predicate IsStop(c: char) {
    c == ' ' || c == ')'
  }

  /** `t[..n]` is a run the copy loop would produce: at most `limit`
      characters, no stop character, and it ends at the limit, the end of
      `t`, or a stop character. */
  predicate IsMaximalRun(t: String, limit: nat, n: nat) {
    && n <= limit && n <= |t|
    && (forall i :: 0 <= i < n ==> !IsStop(t[i]))
    && (n == limit || n == |t| || IsStop(t[n]))
  }

  /** There is only one maximal run. */
  lemma MaximalRunUnique(t: String, limit: nat, n: nat, m: nat)
    requires IsMaximalRun(t, limit, n) && IsMaximalRun(t, limit, m)
    ensures n == m
  {
  }

  /** The longest prefix of `t` with at most `limit` characters and no stop character. */
  function TakeRun(t: String, limit: nat): (r: String)
    ensures |r| <= |t| && r == t[..|r|]
    ensures IsMaximalRun(t, limit, |r|)
  {
    if |t| == 0 || limit == 0 || IsStop(t[0]) then []
    else
      var rest := TakeRun(t[1..], limit - 1);
      assert forall i :: 1 <= i < 1 + |rest| ==> t[i] == t[1..][i - 1];
      [t[0]] + rest
  }

  /** A run that starts at "COM" keeps at least those three characters. */
  lemma ComRunLength(t: String)
    requires |t| >= 3 && t[..3] == ComMarker
    ensures |TakeRun(t, MaxPortName)| >= 3
  {
    assert t[0] == 'C' && t[1] == 'O' && t[2] == 'M' by {
      assert t[..3][0] == t[0] && t[..3][1] == t[1] && t[..3][2] == t[2];
    }
  }

  /** What `extractComPort` returns, stated as the copy loop's result:
      empty for a null pointer or text without "COM"; otherwise the maximal
      run that starts at the first "COM". */
  function ExtractComPort(text: Option<String>): (r: String)
    ensures r == [] <==> text.None? || !Contains(CText(text.value), ComMarker)
    ensures r != [] ==>
      var s := CText(text.value);
      var p := Find(s, ComMarker).value;
      && 3 <= |r| <= MaxPortName
      && r[..3] == ComMarker
      && p + |r| <= |s| && r == s[p..p + |r|]
      && IsMaximalRun(s[p..], MaxPortName, |r|)
    ensures forall i :: 0 <= i < |r| ==> !IsStop(r[i]) && r[i] != '\0'
  {
    if text.None? then []
    else
      var s := CText(text.value);
      match Find(s, ComMarker)
      case None => []
      case Some(p) =>
        var r := TakeRun(s[p..], MaxPortName);
        ComRunLength(s[p..]);
        assert s[p..][..3] == ComMarker;
        assert forall i :: 0 <= i < |r| ==> r[i] == s[p + i];
        r
  }

  /** The copy loop of the source, character by character. */
  method ExtractComPortScan(text: Option<String>) returns (r: String)
    ensures r == ExtractComPort(text)
  {
    if text.None? {
      return [];
    }
    var s := CText(text.value);
    var found := Find(s, ComMarker);
    if found.None? {
      return [];
    }
    var p := found.value;
    r := [];
    var i := 0;
    while p + i < |s| && s[p + i] != ' ' && s[p + i] != ')' && i < MaxPortName
      invariant p + i <= |s| && i <= MaxPortName
      invariant r == s[p..p + i]
      invariant forall j :: 0 <= j < i ==> !IsStop(s[p..][j])
      decreases MaxPortName - i
    {
      r := r + [s[p + i]];
      i := i + 1;
    }
    assert IsMaximalRun(s[p..], MaxPortName, i);
    MaximalRunUnique(s[p..], MaxPortName, i, |TakeRun(s[p..], MaxPortName)|);
  }

  /** A buffer without NUL is read in full. */
  lemma CTextWithoutNul(buf: String)
    requires forall i :: 0 <= i < |buf| ==> buf[i] != '\0'
    ensures CText(buf) == buf
  {
  }

  /** In text whose prefix holds no "C", the first "COM" is the one right
      after the prefix. */
  lemma ComFoundAfter(prefix: String, rest: String)
    requires forall i :: 0 <= i < |prefix| ==> prefix[i] != 'C'
    requires |rest| >= 3 && rest[..3] == ComMarker
    ensures Find(prefix + rest, ComMarker) == Some(|prefix|)
  {
    var s := prefix + rest;
    var p := |prefix|;
    assert s[p..p + 3] == rest[..3];
    OccursAtContains(s, ComMarker, p);
    var q := Find(s, ComMarker).value;
    assert OccursAt(s, ComMarker, q);
    assert s[q] == s[q..q + 3][0] == 'C';
  }

  /** "COM<digits>)" has "COM<digits>" as its maximal run. */
  lemma DigitsRun(digits: String)
    requires 1 <= |digits| <= MaxPortName - 3
    requires forall i :: 0 <= i < |digits| ==> IsDigit(digits[i])
    ensures var t := ComMarker + digits + ")";
      IsMaximalRun(t, MaxPortName, 3 + |digits|) && t[..3 + |digits|] == ComMarker + digits
  {
    var t := ComMarker + digits + ")";
    assert forall i :: 3 <= i < 3 + |digits| ==> t[i] == digits[i - 3];
  }

  /** A friendly name of the shape the registry reports, `<prefix>COM<digits>)`
      with no "C" in the prefix, yields "COM<digits>" for up to seven digits. */
  lemma {:induction false} FriendlyNameExtract(prefix: String, digits: String)
    requires forall i :: 0 <= i < |prefix| ==> prefix[i] != 'C' && prefix[i] != '\0'
    requires 1 <= |digits| <= MaxPortName - 3
    requires forall i :: 0 <= i < |digits| ==> IsDigit(digits[i])
    ensures ExtractComPort(Some(prefix + ComMarker + digits + ")")) == ComMarker + digits
  {
    var t := ComMarker + digits + ")";
    var s := prefix + t;
    assert s == prefix + ComMarker + digits + ")";
    CTextWithoutNul(s);
    ComFoundAfter(prefix, t);
    assert s[|prefix|..] == t;
    DigitsRun(digits);
    MaximalRunUnique(t, MaxPortName, 3 + |digits|, |ExtractComPort(Some(s))|);
  }

  /** Extracting again from an extracted port name returns it unchanged. */
  lemma ExtractIdempotent(text: Option<String>)
    requires ExtractComPort(text) != []
    ensures ExtractComPort(Some(ExtractComPort(text))) == ExtractComPort(text)
  {
    var r := ExtractComPort(text);
    CTextWithoutNul(r);
    assert OccursAt(r, ComMarker, 0);
    OccursAtContains(r, ComMarker, 0);
    assert Find(r, ComMarker).value == 0;
    var r2 := ExtractComPort(Some(r));
    assert r[0..] == r;
    assert IsMaximalRun(r, MaxPortName, |r|);
    MaximalRunUnique(r, MaxPortName, |r|, |r2|);
  }
}
