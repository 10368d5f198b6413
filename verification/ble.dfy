/** `BLE`: Bluetooth Low Energy devices found through the device registry,
    kept in a discovery list, and connected to by opening the device path.

    The scan, connection and notification threads are not modelled as
    threads.  The scan is a fold of `Discover` over the enumerated
    interfaces, and the connection thread is the separate step
    `ConnectionAttempt`, whose open result is an input.  Wide strings are
    sequences of characters; the narrow strings that `BLEDevice::toString`
    builds keep the low byte of each character.  A character outside the
    Basic Multilingual Plane is one element here but two UTF-16 code units
    in the source. */
module Ble {
  import opened Wrappers
  import opened Strings

  /** `ConnectionState`.  `Scanning` exists but no operation ever enters it. */
  datatype ConnectionState = Disconnected | Scanning | Connecting | Connected | ConnectionError

  /** `BLEDevice`. */
  datatype Device = Device(name: String, address: String, rssi: int, connectable: bool)

  /** One interface the registry enumerates.  `readable` says that its
      detail record could be read; the two names are the friendly-name and
      device-description properties, `None` when the query fails. */
  datatype Interface = Interface(
    path: String, readable: bool,
    friendlyName: Option<String>, description: Option<String>)

  /** The callbacks an operation fires. */
  datatype Event =
    | DeviceDiscovered(device: Device)
    | ScanComplete
    | Connect
    | Disconnect
    | Error(message: String)

  /** The object's state.  `handleOpen` says the device handle is valid. */
  datatype Ble = Ble(
    available: bool,
    scanning: bool,
    state: ConnectionState,
    handleOpen: bool,
    selected: String,
    devices: seq<Device>,
    deviceStrings: seq<String>)

  /** Name given to a device whose registry name is empty. */
  const DefaultDeviceName: String := "BLE Device"

  // ---------------------------------------------------------------------
  // BLEDevice::toString
  // ---------------------------------------------------------------------

  /** `std::string(ws.begin(), ws.end())`: each character keeps its low byte. */
  function Narrow(s: String): (r: String)
    ensures |r| == |s|
    ensures forall i :: 0 <= i < |s| ==> r[i] as int == s[i] as int % 256
  {
    seq(|s|, i requires 0 <= i < |s| => (s[i] as int % 256) as char)
  }

  /** Narrowing leaves text that is already narrow unchanged. */
  lemma NarrowIdempotent(s: String)
    requires forall i :: 0 <= i < |s| ==> s[i] as int < 256
    ensures Narrow(s) == s
  {
  }

  /** The suffix `toString` appends for a non-zero signal strength. */
  function RssiSuffix(rssi: int): String {
    " (RSSI: " + IntToString(rssi) + " dBm)"
  }

  /** `BLEDevice::toString`: the narrowed name, followed by the signal
      strength only when it is non-zero.  The address plays no part. */
  function ToString(d: Device): (r: String)
    ensures |r| >= |d.name| && r[..|d.name|] == Narrow(d.name)
    ensures d.rssi == 0 <==> |r| == |d.name|
    ensures d.rssi != 0 ==> r[|d.name|..] == RssiSuffix(d.rssi)
  {
    if d.rssi != 0 then
      var r := Narrow(d.name) + RssiSuffix(d.rssi);
      assert r[..|d.name|] == Narrow(d.name);
      r
    else Narrow(d.name)
  }

  /** `updateAvailableDeviceStrings`: one display string per device, in order. */
  function DeviceStrings(ds: seq<Device>): (r: seq<String>)
    ensures |r| == |ds|
    ensures forall i :: 0 <= i < |ds| ==> r[i] == ToString(ds[i])
  {
    seq(|ds|, i requires 0 <= i < |ds| => ToString(ds[i]))
  }

  // ---------------------------------------------------------------------
  // Invariants
  // ---------------------------------------------------------------------

  /** No two listed devices share an address. */
  predicate NoDuplicateAddresses(ds: seq<Device>) {
    forall i, j :: 0 <= i < j < |ds| ==> ds[i].address != ds[j].address
  }

  /** `address` is one of the listed addresses. */
  predicate Listed(ds: seq<Device>, address: String) {
    exists i :: 0 <= i < |ds| && ds[i].address == address
  }

  /** What every operation keeps: distinct addresses, display strings that
      mirror the devices, a handle exactly while connected, and never the
      `Scanning` connection state. */
  predicate Valid(b: Ble) {
    && NoDuplicateAddresses(b.devices)
    && b.deviceStrings == DeviceStrings(b.devices)
    && (b.handleOpen <==> b.state == Connected)
    && b.state != Scanning
  }

  /** The constructed object. */
  function NewBle(): (r: Ble)
    ensures Valid(r) && r.state == Disconnected && !r.available && !r.scanning
    ensures r.devices == [] && r.deviceStrings == []
  {
    Ble(false, false, Disconnected, false, [], [], [])
  }

  // ---------------------------------------------------------------------
  // Scanning
  // ---------------------------------------------------------------------

  /** `startScan`: refuses without Bluetooth, does nothing while already
      scanning, and otherwise clears the discovery list and starts. */
  function StartScan(b: Ble): (r: (Ble, bool, seq<Event>))
    ensures !b.available ==> r == (b, false, [Error("Bluetooth nie jest dost\U{0119}pny w systemie")])
    ensures b.available && b.scanning ==> r == (b, true, [])
    ensures b.available && !b.scanning ==>
      r == (b.(scanning := true, devices := [], deviceStrings := []), true, [])
    ensures Valid(b) ==> Valid(r.0)
  {
    if !b.available then (b, false, [Error("Bluetooth nie jest dost\U{0119}pny w systemie")])
    else if b.scanning then (b, true, [])
    else (b.(scanning := true, devices := [], deviceStrings := []), true, [])
  }

  /** `init`: Bluetooth counts as available exactly when a radio is found
      (`radio`), whether or not its details can then be read. */
  function InitBle(b: Ble, radio: bool): (r: (Ble, bool))
    ensures r.1 == radio && r.0.available == radio
    ensures r.0.scanning == b.scanning && r.0.state == b.state && r.0.devices == b.devices
    ensures Valid(b) ==> Valid(r.0)
  {
    (b.(available := radio), radio)
  }

  /** `stopScan`: a running scan is marked stopped; its list is kept. */
  function StopScan(b: Ble): (r: Ble)
    ensures !r.scanning
    ensures r.devices == b.devices && r.state == b.state && r.available == b.available
    ensures Valid(b) ==> Valid(r)
  {
    b.(scanning := false)
  }

  /** The end of the scan thread: the scan is over and `onScanComplete`
      fires, also after an early `stopScan`. */
  function ScanFinished(b: Ble): (r: (Ble, seq<Event>))
    ensures !r.0.scanning && r.1 == [ScanComplete]
    ensures r.0.devices == b.devices && r.0.state == b.state
    ensures Valid(b) ==> Valid(r.0)
  {
    (b.(scanning := false), [ScanComplete])
  }

  /** A second `startScan` while scanning keeps the devices found so far;
      after `stopScan` or the end of the scan, it starts afresh with an
      empty list. */
  lemma StopScanRestarts(b: Ble)
    requires b.available && b.scanning
    ensures StartScan(b).0.devices == b.devices
    ensures StartScan(StopScan(b)).0.devices == [] && StartScan(StopScan(b)).0.scanning
    ensures StartScan(ScanFinished(b).0).0.devices == [] && StartScan(ScanFinished(b).0).0.scanning
  {
  }

  /** Without a radio no scan starts, and `startScan` reports the error. */
  lemma NoRadioNoScan(b: Ble)
    ensures var (b1, ok) := InitBle(b, false);
      !ok && !StartScan(b1).1 && StartScan(b1).0 == b1 && |StartScan(b1).2| == 1
  {
  }

  /** The name read from the registry: the friendly name, else the device
      description, else the zero-filled buffer's empty string. */
  function RegistryName(i: Interface): (r: String)
    ensures i.friendlyName.Some? ==> r == i.friendlyName.value
    ensures i.friendlyName.None? && i.description.Some? ==> r == i.description.value
    ensures i.friendlyName.None? && i.description.None? ==> r == []
  {
    match i.friendlyName
    case Some(n) => n
    case None => i.description.GetOr([])
  }

  /** An OWON meter: "ow18b" or "owon" in the lower-cased name or path. */
  predicate IsOwon(name: String, path: String) {
    var n := ToLower(name);
    var p := ToLower(path);
    Contains(n, "ow18b") || Contains(n, "owon") || Contains(p, "ow18b") || Contains(p, "owon")
  }

  /** The device record built for an interface. */
  function DeviceFor(i: Interface): (d: Device)
    ensures d.address == i.path && d.rssi == 0 && d.connectable
    ensures |d.name| > 0
    ensures RegistryName(i) != [] ==> d.name == RegistryName(i)
    ensures RegistryName(i) == [] ==> d.name == DefaultDeviceName
  {
    var n := RegistryName(i);
    Device(if n == [] then DefaultDeviceName else n, i.path, 0, true)
  }

  /** One iteration of the scan loop.  An unreadable interface or a known
      address changes nothing and fires nothing.  A new OWON device goes to
      the front, any other new device to the back; the display strings are
      rebuilt and the discovered callback fires. */
  function Discover(b: Ble, i: Interface): (r: (Ble, seq<Event>))
    ensures !i.readable || Listed(b.devices, i.path) ==> r == (b, [])
    ensures i.readable && !Listed(b.devices, i.path) ==>
      && r.1 == [DeviceDiscovered(DeviceFor(i))]
      && r.0 == b.(devices := r.0.devices, deviceStrings := DeviceStrings(r.0.devices))
      && r.0.devices ==
           if IsOwon(RegistryName(i), i.path) then [DeviceFor(i)] + b.devices
           else b.devices + [DeviceFor(i)]
    ensures Valid(b) ==> Valid(r.0)
  {
    if !i.readable || Listed(b.devices, i.path) then (b, [])
    else
      var d := DeviceFor(i);
      var ds := if IsOwon(RegistryName(i), i.path) then [d] + b.devices else b.devices + [d];
      assert NoDuplicateAddresses(b.devices) ==> NoDuplicateAddresses(ds) by {
        if NoDuplicateAddresses(b.devices) {
          if IsOwon(RegistryName(i), i.path) {
            assert forall k :: 0 < k < |ds| ==> ds[k] == b.devices[k - 1];
          } else {
            assert forall k :: 0 <= k < |b.devices| ==> ds[k] == b.devices[k];
          }
        }
      }
      (b.(devices := ds, deviceStrings := DeviceStrings(ds)), [DeviceDiscovered(d)])
  }

  /** After a discovery step the interface's address is listed, whether it
      was new or already known. */
  lemma DiscoverLists(b: Ble, i: Interface)
    requires i.readable
    ensures Listed(Discover(b, i).0.devices, i.path)
  {
    var ds := Discover(b, i).0.devices;
    if !Listed(b.devices, i.path) {
      if IsOwon(RegistryName(i), i.path) {
        assert ds[0].address == i.path;
      } else {
        assert ds[|ds| - 1].address == i.path;
      }
    }
  }

  /** The scan loop: every enumerated interface in turn. */
  function DiscoverAll(b: Ble, ifaces: seq<Interface>): (r: (Ble, seq<Event>))
    ensures Valid(b) ==> Valid(r.0)
    ensures r.0.state == b.state && r.0.selected == b.selected && r.0.handleOpen == b.handleOpen
    ensures r.0.available == b.available && r.0.scanning == b.scanning
    ensures OwonFirst(b.devices) ==> OwonFirst(r.0.devices)
    decreases |ifaces|
  {
    if |ifaces| == 0 then (b, [])
    else
      DiscoverOwonFirst(b, ifaces[0]);
      var (b1, e1) := Discover(b, ifaces[0]);
      var (b2, e2) := DiscoverAll(b1, ifaces[1..]);
      (b2, e1 + e2)
  }

  /** Adding a device at either end keeps every listed address listed. */
  lemma ListedGrows(ds: seq<Device>, d: Device, a: String)
    requires Listed(ds, a)
    ensures Listed([d] + ds, a) && Listed(ds + [d], a)
  {
    var k :| 0 <= k < |ds| && ds[k].address == a;
    assert ([d] + ds)[k + 1] == ds[k];
    assert (ds + [d])[k] == ds[k];
  }

  /** A discovery step never drops a listed device. */
  lemma DiscoverKeeps(b: Ble, i: Interface, a: String)
    requires Listed(b.devices, a)
    ensures Listed(Discover(b, i).0.devices, a)
  {
    ListedGrows(b.devices, DeviceFor(i), a);
  }

  /** The listed devices only grow: a scan never drops a device. */
  lemma {:induction false} DiscoverAllKeeps(b: Ble, ifaces: seq<Interface>, a: String)
    requires Listed(b.devices, a)
    ensures Listed(DiscoverAll(b, ifaces).0.devices, a)
    decreases |ifaces|
  {
    if |ifaces| > 0 {
      var b1 := Discover(b, ifaces[0]).0;
      DiscoverKeeps(b, ifaces[0], a);
      DiscoverAllKeeps(b1, ifaces[1..], a);
      assert DiscoverAll(b, ifaces).0 == DiscoverAll(b1, ifaces[1..]).0;
    }
  }

  /** Every readable interface of a scan ends up listed. */
  lemma {:induction false} DiscoverAllLists(b: Ble, ifaces: seq<Interface>, k: nat)
    requires k < |ifaces| && ifaces[k].readable
    ensures Listed(DiscoverAll(b, ifaces).0.devices, ifaces[k].path)
    decreases |ifaces|
  {
    var b1 := Discover(b, ifaces[0]).0;
    if k == 0 {
      DiscoverLists(b, ifaces[0]);
      DiscoverAllKeeps(b1, ifaces[1..], ifaces[0].path);
    } else {
      DiscoverAllLists(b1, ifaces[1..], k - 1);
    }
  }

  /** A discovery step lists nothing new but the readable interface. */
  lemma DiscoverOnly(b: Ble, i: Interface, a: String)
    requires Listed(Discover(b, i).0.devices, a)
    ensures Listed(b.devices, a) || (i.readable && i.path == a)
  {
    var ds := Discover(b, i).0.devices;
    if i.readable && !Listed(b.devices, i.path) && i.path != a {
      var k :| 0 <= k < |ds| && ds[k].address == a;
      if IsOwon(RegistryName(i), i.path) {
        assert ds[k] == b.devices[k - 1];
      } else {
        assert ds[k] == b.devices[k];
      }
    }
  }

  /** A scan lists nothing new but readable scanned interfaces. */
  lemma {:induction false} DiscoverAllOnly(b: Ble, ifaces: seq<Interface>, a: String)
    requires Listed(DiscoverAll(b, ifaces).0.devices, a)
    ensures Listed(b.devices, a) || exists k :: 0 <= k < |ifaces| && ifaces[k].readable && ifaces[k].path == a
    decreases |ifaces|
  {
    if |ifaces| > 0 {
      var b1 := Discover(b, ifaces[0]).0;
      assert DiscoverAll(b, ifaces).0 == DiscoverAll(b1, ifaces[1..]).0;
      DiscoverAllOnly(b1, ifaces[1..], a);
      if Listed(b1.devices, a) {
        DiscoverOnly(b, ifaces[0], a);
      } else {
        var k :| 0 <= k < |ifaces[1..]| && ifaces[1..][k].readable && ifaces[1..][k].path == a;
        assert ifaces[k + 1] == ifaces[1..][k];
      }
    }
  }

  /** A scan from an empty list, as `startScan` leaves it, lists exactly the
      readable scanned addresses, each once, with OWON meters first. */
  lemma ScanExact(b: Ble, ifaces: seq<Interface>, a: String)
    requires Valid(b) && b.devices == []
    ensures var ds := DiscoverAll(b, ifaces).0.devices;
      && (Listed(ds, a) <==> exists k :: 0 <= k < |ifaces| && ifaces[k].readable && ifaces[k].path == a)
      && NoDuplicateAddresses(ds)
      && OwonFirst(ds)
  {
    var ds := DiscoverAll(b, ifaces).0.devices;
    if Listed(ds, a) {
      DiscoverAllOnly(b, ifaces, a);
    }
    if exists k :: 0 <= k < |ifaces| && ifaces[k].readable && ifaces[k].path == a {
      var k :| 0 <= k < |ifaces| && ifaces[k].readable && ifaces[k].path == a;
      DiscoverAllLists(b, ifaces, k);
    }
  }

  // ---------------------------------------------------------------------
  // OWON meters first
  // ---------------------------------------------------------------------

  /** A device the scan would treat as an OWON meter. */
  predicate OwonDevice(d: Device) {
    IsOwon(d.name, d.address)
  }

  /** No OWON meter follows a device that is not one. */
  predicate OwonFirst(ds: seq<Device>) {
    forall i, j :: 0 <= i < j < |ds| && OwonDevice(ds[j]) ==> OwonDevice(ds[i])
  }

  /** The default name has no 'o', so it never marks an OWON meter. */
  lemma DefaultNameNotOwon()
    ensures !Contains(ToLower(DefaultDeviceName), "ow18b") && !Contains(ToLower(DefaultDeviceName), "owon")
  {
    var n := ToLower(DefaultDeviceName);
    assert forall k :: 0 <= k < |n| ==> n[k] != 'o';
    MissingFirstChar(n, "ow18b");
    MissingFirstChar(n, "owon");
  }

  /** The device record is an OWON meter exactly when the scan classed its
      interface as one, so the list order reflects the records. */
  lemma DeviceForOwon(i: Interface)
    ensures OwonDevice(DeviceFor(i)) == IsOwon(RegistryName(i), i.path)
  {
    if RegistryName(i) == [] {
      DefaultNameNotOwon();
      MissingFirstChar(ToLower(RegistryName(i)), "ow18b");
      MissingFirstChar(ToLower(RegistryName(i)), "owon");
    }
  }

  /** An OWON meter put in front keeps OWON meters first. */
  lemma OwonFirstFront(d: Device, ds: seq<Device>)
    requires OwonFirst(ds) && OwonDevice(d)
    ensures OwonFirst([d] + ds)
  {
    var es := [d] + ds;
    assert forall k :: 0 < k < |es| ==> es[k] == ds[k - 1];
  }

  /** Another device put at the back keeps OWON meters first. */
  lemma OwonFirstBack(ds: seq<Device>, d: Device)
    requires OwonFirst(ds) && !OwonDevice(d)
    ensures OwonFirst(ds + [d])
  {
    var es := ds + [d];
    assert forall k :: 0 <= k < |ds| ==> es[k] == ds[k];
  }

  /** A discovery step keeps OWON meters first. */
  lemma DiscoverOwonFirst(b: Ble, i: Interface)
    ensures OwonFirst(b.devices) ==> OwonFirst(Discover(b, i).0.devices)
  {
    if OwonFirst(b.devices) && i.readable && !Listed(b.devices, i.path) {
      DeviceForOwon(i);
      if IsOwon(RegistryName(i), i.path) {
        OwonFirstFront(DeviceFor(i), b.devices);
      } else {
        OwonFirstBack(b.devices, DeviceFor(i));
      }
    }
  }

  /** `scanThreadFunction`: an error when the registry cannot be read,
      otherwise the scan loop. */
  function ScanThread(b: Ble, registry: Option<seq<Interface>>): (r: (Ble, seq<Event>))
    ensures registry.None? ==> r == (b, [Error("Nie mo\U{017C}na pobra\U{0107} listy urz\U{0105}dze\U{0144} BLE")])
    ensures registry.Some? ==> r == DiscoverAll(b, registry.value)
    ensures Valid(b) ==> Valid(r.0)
    ensures OwonFirst(b.devices) ==> OwonFirst(r.0.devices)
  {
    match registry
    case None => (b, [Error("Nie mo\U{017C}na pobra\U{0107} listy urz\U{0105}dze\U{0144} BLE")])
    case Some(ifaces) => DiscoverAll(b, ifaces)
  }

  // ---------------------------------------------------------------------
  // Connection state
  // ---------------------------------------------------------------------

  /** `disconnect`: nothing when already disconnected; from any other state
      the handle is closed, the state becomes `Disconnected` and
      `onDisconnect` fires. */
  function DisconnectBle(b: Ble): (r: (Ble, seq<Event>))
    ensures b.state == Disconnected ==> r == (b, [])
    ensures b.state != Disconnected ==>
      r == (b.(state := Disconnected, handleOpen := false), [Disconnect])
    ensures r.0.state == Disconnected
    ensures Valid(b) ==> Valid(r.0)
  {
    if b.state == Disconnected then (b, [])
    else (b.(state := Disconnected, handleOpen := false), [Disconnect])
  }

  /** Disconnecting twice is disconnecting once. */
  lemma DisconnectIdempotent(b: Ble)
    ensures DisconnectBle(DisconnectBle(b).0) == (DisconnectBle(b).0, [])
  {
  }

  /** `connect(address)`: refuses without Bluetooth and leaves everything
      as it was; otherwise ends a connected session, records the address,
      enters `Connecting` and returns true.  The outcome arrives later in
      `ConnectionAttempt`. */
  function ConnectBle(b: Ble, address: String): (r: (Ble, bool, seq<Event>))
    ensures !b.available ==> r == (b, false, [Error("Bluetooth nie jest dost\U{0119}pny")])
    ensures b.available ==> r.1 && r.0.state == Connecting && r.0.selected == address && !r.0.handleOpen
    ensures b.available ==> r.2 == (if b.state == Connected then [Disconnect] else [])
    ensures r.0.devices == b.devices && r.0.deviceStrings == b.deviceStrings
    ensures Valid(b) ==> Valid(r.0)
  {
    if !b.available then (b, false, [Error("Bluetooth nie jest dost\U{0119}pny")])
    else
      var (c, closing) := if b.state == Connected then DisconnectBle(b) else (b, []);
      (c.(selected := address, state := Connecting, handleOpen := false), true, closing)
  }

  /** `connectionThreadFunction`: opening the selected path fails with a
      system error code, or succeeds. */
  datatype OpenResult = OpenFailed(code: nat) | Opened

  /** The connection thread's outcome: `ConnectionError` with an error
      message carrying the code, or `Connected` with `onConnect`. */
  function ConnectionAttempt(b: Ble, result: OpenResult): (r: (Ble, seq<Event>))
    ensures result.OpenFailed? ==>
      r == (b.(state := ConnectionError, handleOpen := false),
            [Error("Nie mo\U{017C}na otworzy\U{0107} urz\U{0105}dzenia BLE (b\U{0142}\U{0105}d: " + NatToString(result.code) + ")")])
    ensures result.Opened? ==> r == (b.(state := Connected, handleOpen := true), [Connect])
    ensures Valid(b) ==> Valid(r.0)
  {
    match result
    case OpenFailed(code) =>
      (b.(state := ConnectionError, handleOpen := false),
       [Error("Nie mo\U{017C}na otworzy\U{0107} urz\U{0105}dzenia BLE (b\U{0142}\U{0105}d: " + NatToString(code) + ")")])
    case Opened => (b.(state := Connected, handleOpen := true), [Connect])
  }

  /** A successful `connect` followed by its connection attempt ends
      `Connected` on a successful open and `ConnectionError` otherwise. */
  lemma ConnectThenAttempt(b: Ble, address: String, result: OpenResult)
    requires b.available
    ensures var c := ConnectBle(b, address).0;
      var a := ConnectionAttempt(c, result).0;
      && a.selected == address
      && (a.state == Connected <==> result.Opened?)
      && (a.state == ConnectionError <==> result.OpenFailed?)
  {
  }

  /** `write`: false unless connected with a valid handle; otherwise true
      exactly when the system reports every byte written.  `written` is the
      reported count, `None` when the write or its wait fails. */
  function Write(b: Ble, data: seq<int>, written: Option<nat>): (r: bool)
    ensures r <==> b.state == Connected && b.handleOpen && written == Some(|data|)
  {
    if b.state != Connected || !b.handleOpen then false
    else match written
      case None => false
      case Some(n) => n == |data|
  }

  /** In a valid state the write guard reduces to the connection state. */
  lemma WriteNeedsConnected(b: Ble, data: seq<int>, written: Option<nat>)
    requires Valid(b)
    ensures Write(b, data, written) ==> b.state == Connected
    ensures b.state == Connected ==> (Write(b, data, written) <==> written == Some(|data|))
  {
  }

  /** `getConnectionStateString`. */
  function StateString(s: ConnectionState): String {
    match s
    case Disconnected => "Roz\U{0142}\U{0105}czony"
    case Scanning => "Skanowanie..."
    case Connecting => "\U{0141}\U{0105}czenie..."
    case Connected => "Po\U{0142}\U{0105}czony"
    case ConnectionError => "B\U{0142}\U{0105}d"
  }

  /** Each state has its own label. */
  lemma StateStringInjective(s: ConnectionState, t: ConnectionState)
    requires StateString(s) == StateString(t)
    ensures s == t
  {
  }

  // ---------------------------------------------------------------------
  // setDevice
  // ---------------------------------------------------------------------

  /** The test `setDevice` applies to each device in turn: the name or the
      address equals the query, or the narrowed query occurs in the display
      string. */
  predicate Picks(d: Device, query: String) {
    d.name == query || d.address == query || Contains(ToString(d), Narrow(query))
  }

  /** Index of the first device `setDevice` picks. */
  function FirstPicked(ds: seq<Device>, query: String): (r: Option<nat>)
    ensures r.Some? ==> r.value < |ds| && Picks(ds[r.value], query)
    ensures r.Some? ==> forall j :: 0 <= j < r.value ==> !Picks(ds[j], query)
    ensures r.None? ==> forall j :: 0 <= j < |ds| ==> !Picks(ds[j], query)
  {
    var picked := seq(|ds|, i requires 0 <= i < |ds| => Picks(ds[i], query));
    assert forall j :: 0 <= j < |ds| ==> picked[j] == Picks(ds[j], query);
    FirstTrue(picked, 0)
  }

  /** The search loop over the per-device verdicts, from index `from` on. */
  function FirstTrue(bs: seq<bool>, from: nat): (r: Option<nat>)
    requires from <= |bs|
    ensures r.Some? ==> from <= r.value < |bs| && bs[r.value]
    ensures r.Some? ==> forall j :: from <= j < r.value ==> !bs[j]
    ensures r.None? ==> forall j :: from <= j < |bs| ==> !bs[j]
    decreases |bs| - from
  {
    if from == |bs| then None
    else if bs[from] then Some(from)
    else FirstTrue(bs, from + 1)
  }

  /** `setDevice`: selects the address of the first device picked by the
      query, or the query itself when none is. */
  function SetDevice(b: Ble, query: String): (r: Ble)
    ensures r == b.(selected := r.selected)
    ensures FirstPicked(b.devices, query).Some? ==>
      r.selected == b.devices[FirstPicked(b.devices, query).value].address
    ensures FirstPicked(b.devices, query).None? ==> r.selected == query
    ensures Valid(b) ==> Valid(r)
  {
    match FirstPicked(b.devices, query)
    case Some(k) => b.(selected := b.devices[k].address)
    case None => b.(selected := query)
  }

  /** Querying by a listed address selects that address when no earlier
      device is picked first. */
  lemma SetDeviceByAddress(b: Ble, k: nat)
    requires k < |b.devices|
    requires forall j :: 0 <= j < k ==> !Picks(b.devices[j], b.devices[k].address)
    ensures SetDevice(b, b.devices[k].address).selected == b.devices[k].address
  {
    var q := b.devices[k].address;
    assert Picks(b.devices[k], q);
    var f := FirstPicked(b.devices, q);
    assert f.Some? && f.value <= k;
    assert f.value == k;
  }

  /** The empty query occurs in every display string, so it selects the
      first listed device. */
  lemma SetDeviceEmptyQuery(b: Ble)
    requires |b.devices| > 0
    ensures SetDevice(b, []).selected == b.devices[0].address
  {
    assert OccursAt(ToString(b.devices[0]), Narrow([]), 0);
    OccursAtContains(ToString(b.devices[0]), Narrow([]), 0);
  }
}
