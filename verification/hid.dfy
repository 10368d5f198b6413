/** `HID`: USB HID devices located through the device registry, filtered by
    vendor id, product id, usage page and usage, and exchanged with by
    feature reports.

    Whatever the system reports is an input here: whether `hid.dll` loads,
    the list of device interfaces (or `None` when the registry cannot be
    opened), and for each interface whether it opens and what its
    attributes and capabilities are.  Callbacks are the `Event`s an
    operation emits. */
module Hid {
  import opened Wrappers
  import opened Strings

  type u8 = x: int | 0 <= x < 0x100
  type u16 = x: int | 0 <= x < 0x1_0000

  /** Data bytes of a feature report unless configured otherwise. */
  const DefaultFeatureReportSize: nat := 7

  /** `HIDP_STATUS_SUCCESS`, the status `HidP_GetCaps` returns on success. */
  const HidpStatusSuccess: int := 0x0011_0000

  const NotInitializedMessage: String := "HID not initialized \U{2014} call init() first"

  /** The configured filter; a zero field accepts any value. */
  datatype Filter = Filter(vid: u16, pid: u16, usagePage: u16, usage: u16)

  /** `HIDD_ATTRIBUTES`. */
  datatype Attributes = Attributes(vendorId: u16, productId: u16, versionNumber: u16)

  /** The part of `HIDP_CAPS` the filter reads. */
  datatype Caps = Caps(usagePage: u16, usage: u16)

  /** The capability query: no preparsed data, or a `HidP_GetCaps` status and result. */
  datatype CapsQuery = NoPreparsedData | CapsResult(status: int, caps: Caps)

  /** One enumerated device interface, as the system reports it.  `opens`
      says that its detail record was read and `CreateFile` gave a handle;
      `attrs` is `None` when `HidD_GetAttributes` fails. */
  datatype Interface = Interface(path: String, opens: bool, attrs: Option<Attributes>, caps: CapsQuery)

  /** `HIDDevice`, one entry of a scan. */
  datatype HidDevice = HidDevice(
    vendorId: u16, productId: u16, versionNumber: u16,
    usagePage: u16, usage: u16, path: String)

  /** The callbacks an operation fires. */
  datatype Event = Connected | Disconnected | Error(message: String)

  /** Session state.  `handle` holds the path of the open device. */
  datatype Session = Session(
    initialized: bool,
    handle: Option<String>,
    open: bool,
    filter: Filter,
    reportSize: nat)

  /** A handle is held exactly while the session is open, and only an
      initialised session is ever open. */
  predicate Valid(s: Session) {
    && (s.handle.Some? <==> s.open)
    && (s.open ==> s.initialized)
  }

  /** The constructed object: no library, no handle, a filter accepting
      everything, seven-byte feature reports. */
  function NewSession(): (r: Session)
    ensures Valid(r) && !r.initialized && !r.open
    ensures r.filter == Filter(0, 0, 0, 0) && r.reportSize == DefaultFeatureReportSize
  {
    Session(false, None, false, Filter(0, 0, 0, 0), 7)
  }

  // ---------------------------------------------------------------------
  // init
  // ---------------------------------------------------------------------

  /** What loading `hid.dll` and resolving its entry points gives. */
  datatype DllLoad = Loaded | LoadFailed | ResolveFailed

  /** `init`: succeeds at once when already initialised; otherwise it
      depends on loading the library and resolving all its functions. */
  function Init(s: Session, dll: DllLoad): (r: (Session, bool, seq<Event>))
    ensures r.1 <==> s.initialized || dll == Loaded
    ensures r.0 == s.(initialized := r.1)
    ensures r.1 ==> r.2 == []
    ensures !r.1 ==> |r.2| == 1 && r.2[0].Error?
  {
    if s.initialized then (s, true, [])
    else match dll
      case Loaded => (s.(initialized := true), true, [])
      case LoadFailed => (s, false, [Error("Failed to load hid.dll")])
      case ResolveFailed => (s, false, [Error("Failed to resolve hid.dll functions")])
  }

  // ---------------------------------------------------------------------
  // Configuration
  // ---------------------------------------------------------------------

  /** `setVidPid`: the vendor and product filter fields only. */
  function SetVidPid(s: Session, vid: u16, pid: u16): (r: Session)
    ensures r.filter.vid == vid && r.filter.pid == pid
    ensures r.filter.usagePage == s.filter.usagePage && r.filter.usage == s.filter.usage
    ensures r.initialized == s.initialized && r.handle == s.handle && r.open == s.open
    ensures r.reportSize == s.reportSize
  {
    s.(filter := s.filter.(vid := vid, pid := pid))
  }

  /** `setUsage`: the usage-page and usage filter fields only. */
  function SetUsage(s: Session, usagePage: u16, usage: u16): (r: Session)
    ensures r.filter.usagePage == usagePage && r.filter.usage == usage
    ensures r.filter.vid == s.filter.vid && r.filter.pid == s.filter.pid
    ensures r.initialized == s.initialized && r.handle == s.handle && r.open == s.open
    ensures r.reportSize == s.reportSize
  {
    s.(filter := s.filter.(usagePage := usagePage, usage := usage))
  }

  /** `setFeatureReportSize`: the number of data bytes per feature report,
      taking effect on the next transfer even while a device is open. */
  function SetFeatureReportSize(s: Session, dataBytes: nat): (r: Session)
    ensures r.reportSize == dataBytes
    ensures r.filter == s.filter && r.initialized == s.initialized
    ensures r.handle == s.handle && r.open == s.open
  {
    s.(reportSize := dataBytes)
  }

  // ---------------------------------------------------------------------
  // Filtering
  // ---------------------------------------------------------------------

  /** A filter field accepts a value: zero is a wildcard. */
  predicate FieldOk(want: u16, have: u16) {
    want == 0 || want == have
  }

  /** The filter asks for a usage page or a usage, so capabilities are needed. */
  predicate UsageFiltered(f: Filter) {
    f.usagePage != 0 || f.usage != 0
  }

  /** The capability query succeeded. */
  predicate CapsOk(q: CapsQuery) {
    q.CapsResult? && q.status == HidpStatusSuccess
  }

  /** `matchDevice` on an open handle.  Capabilities are consulted only when
      a usage page or usage is configured. */
  function MatchDevice(f: Filter, attrs: Option<Attributes>, caps: CapsQuery): (r: bool)
    ensures r ==> attrs.Some?
    ensures attrs.Some? ==>
      (r <==> && FieldOk(f.vid, attrs.value.vendorId)
              && FieldOk(f.pid, attrs.value.productId)
              && (UsageFiltered(f) ==>
                    && CapsOk(caps)
                    && FieldOk(f.usagePage, caps.caps.usagePage)
                    && FieldOk(f.usage, caps.caps.usage)))
  {
    match attrs
    case None => false
    case Some(a) =>
      if f.vid != 0 && a.vendorId != f.vid then false
      else if f.pid != 0 && a.productId != f.pid then false
      else if f.usagePage != 0 || f.usage != 0 then
        match caps
        case NoPreparsedData => false
        case CapsResult(status, c) =>
          if status != HidpStatusSuccess then false
          else if f.usagePage != 0 && c.usagePage != f.usagePage then false
          else if f.usage != 0 && c.usage != f.usage then false
          else true
      else true
  }

  /** Without a usage filter the capability query does not affect the match. */
  lemma MatchIgnoresCapsWithoutUsageFilter(f: Filter, attrs: Option<Attributes>, c1: CapsQuery, c2: CapsQuery)
    requires !UsageFiltered(f)
    ensures MatchDevice(f, attrs, c1) == MatchDevice(f, attrs, c2)
  {
  }

  /** A device satisfies the filter on all four fields. */
  predicate Satisfies(f: Filter, d: HidDevice) {
    && FieldOk(f.vid, d.vendorId) && FieldOk(f.pid, d.productId)
    && FieldOk(f.usagePage, d.usagePage) && FieldOk(f.usage, d.usage)
  }

  /** What one interface contributes to a scan.  Unlike `matchDevice`, the
      scan always needs the capabilities, because the entry records them. */
  function ScanEntry(f: Filter, i: Interface): (r: Option<HidDevice>)
    ensures r.Some? <==> i.opens && MatchDevice(f, i.attrs, i.caps) && CapsOk(i.caps)
    ensures r.Some? ==> Satisfies(f, r.value) && r.value.path == i.path
    ensures r.Some? ==>
      && r.value.vendorId == i.attrs.value.vendorId
      && r.value.productId == i.attrs.value.productId
      && r.value.versionNumber == i.attrs.value.versionNumber
      && r.value.usagePage == i.caps.caps.usagePage
      && r.value.usage == i.caps.caps.usage
  {
    if !i.opens then None
    else match i.attrs
      case None => None
      case Some(a) =>
        if f.vid != 0 && a.vendorId != f.vid then None
        else if f.pid != 0 && a.productId != f.pid then None
        else match i.caps
          case NoPreparsedData => None
          case CapsResult(status, c) =>
            if status != HidpStatusSuccess then None
            else if f.usagePage != 0 && c.usagePage != f.usagePage then None
            else if f.usage != 0 && c.usage != f.usage then None
            else Some(HidDevice(a.vendorId, a.productId, a.versionNumber, c.usagePage, c.usage, i.path))
  }

  /** With working capabilities the scan and `matchDevice` agree. */
  lemma ScanAgreesWithMatch(f: Filter, i: Interface)
    requires i.opens && CapsOk(i.caps)
    ensures ScanEntry(f, i).Some? <==> MatchDevice(f, i.attrs, i.caps)
  {
  }

  /** They disagree exactly on devices whose capability query fails while no
      usage filter is set: `matchDevice` accepts such a device, the scan drops it. */
  lemma ScanStricterThanMatch(f: Filter, i: Interface)
    requires i.opens
    ensures ScanEntry(f, i).Some? ==> MatchDevice(f, i.attrs, i.caps)
    ensures MatchDevice(f, i.attrs, i.caps) && ScanEntry(f, i).None? <==>
      MatchDevice(f, i.attrs, i.caps) && !UsageFiltered(f) && !CapsOk(i.caps)
  {
  }

  /** The scan loop over the enumerated interfaces, in enumeration order. */
  function ScanList(f: Filter, ifaces: seq<Interface>): (r: seq<HidDevice>)
    ensures |r| <= |ifaces|
    ensures forall k :: 0 <= k < |r| ==> Satisfies(f, r[k])
    decreases |ifaces|
  {
    if |ifaces| == 0 then []
    else
      match ScanEntry(f, ifaces[0])
      case None => ScanList(f, ifaces[1..])
      case Some(d) => [d] + ScanList(f, ifaces[1..])
  }

  /** Scanning two lists one after the other gives the two results in order. */
  lemma {:induction false} ScanListAppend(f: Filter, a: seq<Interface>, b: seq<Interface>)
    ensures ScanList(f, a + b) == ScanList(f, a) + ScanList(f, b)
    decreases |a|
  {
    if |a| > 0 {
      assert (a + b)[0] == a[0];
      assert (a + b)[1..] == a[1..] + b;
      ScanListAppend(f, a[1..], b);
    } else {
      assert a + b == b;
    }
  }

  /** Every interface the scan accepts is listed, and only those. */
  lemma {:induction false} ScanListMembers(f: Filter, ifaces: seq<Interface>, d: HidDevice)
    ensures d in ScanList(f, ifaces) <==> exists i :: 0 <= i < |ifaces| && ScanEntry(f, ifaces[i]) == Some(d)
    decreases |ifaces|
  {
    if |ifaces| > 0 {
      ScanListMembers(f, ifaces[1..], d);
      if exists i :: 0 <= i < |ifaces| && ScanEntry(f, ifaces[i]) == Some(d) {
        var i :| 0 <= i < |ifaces| && ScanEntry(f, ifaces[i]) == Some(d);
        if i > 0 { assert ifaces[1..][i - 1] == ifaces[i]; }
      }
      if exists i :: 0 <= i < |ifaces[1..]| && ScanEntry(f, ifaces[1..][i]) == Some(d) {
        var i :| 0 <= i < |ifaces[1..]| && ScanEntry(f, ifaces[1..][i]) == Some(d);
        assert ifaces[i + 1] == ifaces[1..][i];
      }
    }
  }

  /** `scan`: nothing before `init` or when the registry cannot be opened;
      otherwise the accepted interfaces in enumeration order.  The session
      is not changed. */
  function Scan(s: Session, registry: Option<seq<Interface>>): (r: seq<HidDevice>)
    ensures !s.initialized || registry.None? ==> r == []
    ensures s.initialized && registry.Some? ==> r == ScanList(s.filter, registry.value)
    ensures forall k :: 0 <= k < |r| ==> Satisfies(s.filter, r[k])
  {
    if !s.initialized then []
    else match registry
      case None => []
      case Some(ifaces) => ScanList(s.filter, ifaces)
  }

  // ---------------------------------------------------------------------
  // Open / close
  // ---------------------------------------------------------------------

  /** The result of an operation: the new session, what it returns, and the
      callbacks it fired in order. */
  datatype Outcome = Outcome(session: Session, ok: bool, events: seq<Event>)

  /** `close`: releases the handle; `onDisconnect` fires only if the session
      was open. */
  function Close(s: Session): (r: (Session, seq<Event>))
    ensures r.0 == s.(handle := None, open := false)
    ensures Valid(r.0)
    ensures r.1 == (if s.open then [Disconnected] else [])
  {
    (s.(handle := None, open := false), if s.open then [Disconnected] else [])
  }

  /** Closing twice is closing once: the second call changes nothing and
      fires nothing. */
  lemma CloseIdempotent(s: Session)
    ensures Close(Close(s).0) == (Close(s).0, [])
  {
  }

  /** `open(path)`: closes any open device, then needs `init` and a
      successful `CreateFile` (`opens`). */
  function Open(s: Session, path: String, opens: bool): (r: Outcome)
    ensures Valid(r.session)
    ensures r.ok <==> s.initialized && opens
    ensures r.ok ==> r.session.handle == Some(path)
    ensures !r.ok ==> r.session == Close(s).0
    ensures |r.events| == |Close(s).1| + 1 && r.events[..|Close(s).1|] == Close(s).1
    ensures r.events[|r.events| - 1] ==
      if !s.initialized then Error(NotInitializedMessage)
      else if !opens then Error("Failed to open device: " + path)
      else Connected
    ensures r.session.initialized == s.initialized && r.session.filter == s.filter
    ensures r.session.reportSize == s.reportSize
  {
    var (c, closing) := Close(s);
    if !c.initialized then Outcome(c, false, closing + [Error(NotInitializedMessage)])
    else if !opens then Outcome(c, false, closing + [Error("Failed to open device: " + path)])
    else Outcome(c.(handle := Some(path), open := true), true, closing + [Connected])
  }

  /** Index of the first interface that opens and passes `matchDevice`. */
  function FirstMatch(f: Filter, ifaces: seq<Interface>): (r: Option<nat>)
    ensures r.Some? ==>
      (r.value < |ifaces| && ifaces[r.value].opens
       && MatchDevice(f, ifaces[r.value].attrs, ifaces[r.value].caps))
    ensures r.Some? ==> forall j :: 0 <= j < r.value ==>
      !(ifaces[j].opens && MatchDevice(f, ifaces[j].attrs, ifaces[j].caps))
    ensures r.None? ==> forall j :: 0 <= j < |ifaces| ==>
      !(ifaces[j].opens && MatchDevice(f, ifaces[j].attrs, ifaces[j].caps))
    decreases |ifaces|
  {
    if |ifaces| == 0 then None
    else if ifaces[0].opens && MatchDevice(f, ifaces[0].attrs, ifaces[0].caps) then Some(0)
    else
      match FirstMatch(f, ifaces[1..])
      case None => None
      case Some(k) => Some(k + 1)
  }

  /** `findAndOpen`: closes any open device; reports an error when not
      initialised or when the registry cannot be opened; otherwise opens the
      first interface that passes `matchDevice`, or returns false silently
      when none does. */
  function FindAndOpen(s: Session, registry: Option<seq<Interface>>): (r: Outcome)
    ensures Valid(r.session)
    ensures r.ok <==> s.initialized && registry.Some? && FirstMatch(s.filter, registry.value).Some?
    ensures r.ok ==> r.session.handle == Some(registry.value[FirstMatch(s.filter, registry.value).value].path)
    ensures !r.ok ==> r.session == Close(s).0
    ensures |r.events| >= |Close(s).1| && r.events[..|Close(s).1|] == Close(s).1
    ensures r.ok ==> r.events == Close(s).1 + [Connected]
    ensures !s.initialized ==> r.events == Close(s).1 + [Error(NotInitializedMessage)]
    ensures s.initialized && registry.None? ==> r.events == Close(s).1 + [Error("SetupDiGetClassDevs failed")]
    ensures s.initialized && registry.Some? && !r.ok ==> r.events == Close(s).1
  {
    var (c, closing) := Close(s);
    if !c.initialized then Outcome(c, false, closing + [Error(NotInitializedMessage)])
    else match registry
      case None => Outcome(c, false, closing + [Error("SetupDiGetClassDevs failed")])
      case Some(ifaces) =>
        match FirstMatch(c.filter, ifaces)
        case None => Outcome(c, false, closing)
        case Some(k) => Outcome(c.(handle := Some(ifaces[k].path), open := true), true, closing + [Connected])
  }

  /** A device the scan lists is one `findAndOpen` would also accept, so an
      empty-free scan means `findAndOpen` succeeds. */
  lemma ScanNonEmptyFindsDevice(s: Session, ifaces: seq<Interface>)
    requires s.initialized && |Scan(s, Some(ifaces))| > 0
    ensures FindAndOpen(s, Some(ifaces)).ok
  {
    var d := Scan(s, Some(ifaces))[0];
    ScanListMembers(s.filter, ifaces, d);
    var i :| 0 <= i < |ifaces| && ScanEntry(s.filter, ifaces[i]) == Some(d);
    ScanStricterThanMatch(s.filter, ifaces[i]);
  }

  // ---------------------------------------------------------------------
  // Feature reports
  // ---------------------------------------------------------------------

  function Min(a: nat, b: nat): nat {
    if a <= b then a else b
  }

  function Zeros(n: nat): (r: seq<u8>)
    ensures |r| == n && forall i :: 0 <= i < n ==> r[i] == 0
  {
    seq(n, _ => 0)
  }

  /** The buffer handed to the device: the report id, then up to `size`
      data bytes, then zeros up to `1 + size` bytes. */
  function FeatureBuffer(reportId: u8, data: seq<u8>, size: nat): (r: seq<u8>)
    ensures |r| == 1 + size && r[0] == reportId
    ensures forall i :: 0 <= i < Min(|data|, size) ==> r[1 + i] == data[i]
    ensures forall i :: 1 + Min(|data|, size) <= i < 1 + size ==> r[i] == 0
  {
    var n := Min(|data|, size);
    [reportId] + data[..n] + Zeros(size - n)
  }

  /** The `n` data bytes a buffer carries after its id. */
  function Payload(buf: seq<u8>, n: nat): (r: seq<u8>)
    requires 1 + n <= |buf|
    ensures |r| == n && forall i :: 0 <= i < n ==> r[i] == buf[1 + i]
  {
    buf[1..1 + n]
  }

  /** Framing data that fits and reading the same number of bytes back
      gives the data; longer data is cut to its first `size` bytes. */
  lemma FeatureBufferRoundTrip(reportId: u8, data: seq<u8>, size: nat)
    ensures Payload(FeatureBuffer(reportId, data, size), Min(|data|, size)) == data[..Min(|data|, size)]
    ensures |data| <= size ==> Payload(FeatureBuffer(reportId, data, size), |data|) == data
  {
    var n := Min(|data|, size);
    var p := Payload(FeatureBuffer(reportId, data, size), n);
    assert forall i :: 0 <= i < n ==> p[i] == data[i];
  }

  /** What a feature-report call did: its result, the buffer passed to the
      device (empty when no call was made), the bytes written to the
      caller's array, and the callbacks fired. */
  datatype Transfer = Transfer(ok: bool, sent: seq<u8>, received: seq<u8>, events: seq<Event>)

  /** `setFeatureReport`: needs an open device; frames the data and passes
      the buffer to `HidD_SetFeature`, whose outcome is `accepted`. */
  function SetFeatureReport(s: Session, reportId: u8, data: seq<u8>, accepted: bool): (r: Transfer)
    ensures !s.open ==> r == Transfer(false, [], [], [Error("setFeatureReport: device not open")])
    ensures s.open ==> r.sent == FeatureBuffer(reportId, data, s.reportSize) && r.received == []
    ensures s.open ==> (r.ok <==> accepted)
    ensures s.open && accepted ==> r.events == []
    ensures s.open && !accepted ==> r.events == [Error("HidD_SetFeature failed")]
  {
    if !s.open then Transfer(false, [], [], [Error("setFeatureReport: device not open")])
    else
      var buf := FeatureBuffer(reportId, data, s.reportSize);
      if accepted then Transfer(true, buf, [], [])
      else Transfer(false, buf, [], [Error("HidD_SetFeature failed")])
  }

  /** `getFeatureReport`: needs an open device; passes a zeroed buffer
      carrying the report id to `HidD_GetFeature`.  `reply` is the buffer
      after the call (`None` when the call fails).  On success exactly
      `min(dataLen, size)` bytes are copied out, starting after the id. */
  function GetFeatureReport(s: Session, reportId: u8, dataLen: nat, reply: Option<seq<u8>>): (r: Transfer)
    requires reply.Some? ==> |reply.value| == 1 + s.reportSize
    ensures !s.open ==> r == Transfer(false, [], [], [Error("getFeatureReport: device not open")])
    ensures s.open ==> r.sent == FeatureBuffer(reportId, [], s.reportSize)
    ensures s.open ==> (r.ok <==> reply.Some?)
    ensures r.ok ==> |r.received| == Min(dataLen, s.reportSize)
    ensures r.ok ==> forall i :: 0 <= i < |r.received| ==> r.received[i] == reply.value[1 + i]
    ensures !r.ok ==> r.received == []
    ensures s.open && reply.None? ==> r.events == [Error("HidD_GetFeature failed")]
    ensures r.ok ==> r.events == []
  {
    if !s.open then Transfer(false, [], [], [Error("getFeatureReport: device not open")])
    else
      var buf := FeatureBuffer(reportId, [], s.reportSize);
      match reply
      case None => Transfer(false, buf, [], [Error("HidD_GetFeature failed")])
      case Some(back) => Transfer(true, buf, Payload(back, Min(dataLen, s.reportSize)), [])
  }

  /** Every buffer handed to the device is `1 + size` bytes led by the
      report id, whichever call made it. */
  lemma SentBufferShape(s: Session, reportId: u8, data: seq<u8>, accepted: bool, dataLen: nat, reply: Option<seq<u8>>)
    requires s.open
    requires reply.Some? ==> |reply.value| == 1 + s.reportSize
    ensures var t := SetFeatureReport(s, reportId, data, accepted);
      |t.sent| == 1 + s.reportSize && t.sent[0] == reportId
    ensures var t := GetFeatureReport(s, reportId, dataLen, reply);
      |t.sent| == 1 + s.reportSize && t.sent[0] == reportId
  {
  }

  // ---------------------------------------------------------------------
  // HIDDevice::toString
  // ---------------------------------------------------------------------

  /** An upper-case hexadecimal digit. */
  function HexDigit(d: nat): (c: char)
    requires d < 16
    ensures HexDigitValue(c) == d
  {
    if d < 10 then ('0' as int + d) as char else ('A' as int + d - 10) as char
  }

  /** The value of a hexadecimal digit produced by `HexDigit`. */
  function HexDigitValue(c: char): nat {
    if '0' <= c <= '9' then c as int - '0' as int
    else if 'A' <= c <= 'F' then c as int - 'A' as int + 10
    else 0
  }

  /** `%04X` of a 16-bit value: exactly four upper-case digits. */
  function Hex4(n: u16): (r: String)
    ensures |r| == 4
  {
    var hi, lo := n / 0x100, n % 0x100;
    [HexDigit(hi / 16), HexDigit(hi % 16), HexDigit(lo / 16), HexDigit(lo % 16)]
  }

  /** The value of four hexadecimal digits. */
  function Hex4Value(s: String): nat
    requires |s| == 4
  {
    ((HexDigitValue(s[0]) * 16 + HexDigitValue(s[1])) * 16 + HexDigitValue(s[2])) * 16 + HexDigitValue(s[3])
  }

  /** Four-digit hexadecimal rendering loses nothing. */
  lemma Hex4RoundTrip(n: u16)
    ensures Hex4Value(Hex4(n)) == n
  {
    var hi, lo := n / 0x100, n % 0x100;
    assert n == hi * 0x100 + lo;
    assert hi == hi / 16 * 16 + hi % 16;
    assert lo == lo / 16 * 16 + lo % 16;
  }

  /** `HIDDevice::toString`: "HID vvvv:pppp  UsagePage=0xuuuu Usage=0xuuuu",
      44 characters, well inside the 128-byte buffer, so never truncated.
      Each field reads back from its four digits. */
  function DeviceString(d: HidDevice): (r: String)
    ensures |r| == 44
    ensures r[..4] == "HID " && r[8] == ':'
    ensures Hex4Value(r[4..8]) == d.vendorId && Hex4Value(r[9..13]) == d.productId
    ensures Hex4Value(r[27..31]) == d.usagePage && Hex4Value(r[40..44]) == d.usage
    ensures r[13..27] == "  UsagePage=0x" && r[31..40] == " Usage=0x"
  {
    Hex4RoundTrip(d.vendorId);
    Hex4RoundTrip(d.productId);
    Hex4RoundTrip(d.usagePage);
    Hex4RoundTrip(d.usage);
    var ids := "HID " + Hex4(d.vendorId) + ":" + Hex4(d.productId);
    var usages := "  UsagePage=0x" + Hex4(d.usagePage) + " Usage=0x" + Hex4(d.usage);
    var r := ids + usages;
    assert r[4..8] == Hex4(d.vendorId) && r[9..13] == Hex4(d.productId) by {
      assert r[..13] == ids;
    }
    assert r[27..31] == Hex4(d.usagePage) && r[40..44] == Hex4(d.usage) by {
      assert r[13..] == usages;
    }
    assert r[13..27] == "  UsagePage=0x" && r[31..40] == " Usage=0x" by {
      assert r[13..] == usages;
    }
    r
  }

  /** After `setVidPid(vid, pid)` every scanned device carries that vendor
      and product id, except where an id of zero leaves the field open. */
  lemma SetVidPidScans(s: Session, vid: u16, pid: u16, registry: Option<seq<Interface>>)
    ensures var r := Scan(SetVidPid(s, vid, pid), registry);
      forall k :: 0 <= k < |r| ==>
        (vid != 0 ==> r[k].vendorId == vid) && (pid != 0 ==> r[k].productId == pid)
  {
    var r := Scan(SetVidPid(s, vid, pid), registry);
    forall k | 0 <= k < |r|
      ensures (vid != 0 ==> r[k].vendorId == vid) && (pid != 0 ==> r[k].productId == pid)
    {
      assert Satisfies(SetVidPid(s, vid, pid).filter, r[k]);
    }
  }

  /** After `setFeatureReportSize(n)` on an open device, the next report
      sent is `1 + n` bytes long and carries the data cut to `n` bytes. */
  lemma SetFeatureReportSizeFrames(s: Session, n: nat, reportId: u8, data: seq<u8>, accepted: bool)
    requires s.open
    ensures var t := SetFeatureReport(SetFeatureReportSize(s, n), reportId, data, accepted);
      |t.sent| == 1 + n && t.sent[0] == reportId
      && Payload(t.sent, Min(|data|, n)) == data[..Min(|data|, n)]
  {
    FeatureBufferRoundTrip(reportId, data, n);
  }
}
