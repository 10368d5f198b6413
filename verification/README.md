# JQB_WindowsLib: a verified model of the decision logic

JQB_WindowsLib is a C++ library for Win32. It wraps native widgets and three
device transports: USB HID, Bluetooth Low Energy and a serial COM port. This
project models the sequential logic under that plumbing as immutable state
records and pure transition functions, and proves properties about them in
Dafny. Operating-system results are parameters of the model: a handle that
opens or not, an enumeration list, the bytes a read returns, a clock reading.
The same goes for callbacks, which become the list of events they would
receive.

| file | module | models |
|---|---|---|
| wrappers.dfy | Wrappers | `Option`, standing for null pointers and absent results |
| strings.dfy | Strings | substring search, whitespace trimming, ASCII lower-casing, decimal rendering, `std::string` ordering |
| ordered_map.dfy | OrderedMap | `std::map<std::string, V>` as a list kept in ascending key order |
| hid.dfy | Hid | `src/IO/HID/HID.cpp`: the device filter, scanning, the open/close session, feature-report framing |
| ble.dfy | Ble | `src/IO/BLE/BLE.cpp`: the discovery list, device strings, device selection, connection states, the write guard |
| serial.dfy | Serial | `src/IO/Serial/Serial.cpp`: the connect/disconnect/write/read guards, the reader's fault counter, the COM-port list |
| string_utils.dfy | StringUtils | `src/Util/StringUtils.cpp`: `extractComPort` |
| config_manager.dfy | ConfigManager | `src/Util/ConfigManager.cpp`: the key/value store, its line parser and serialiser |
| value_display.dfy | ValueDisplay | `src/UI/ValueDisplay/ValueDisplay.cpp`: unit, prefix and mode tables, text colour, the status line |
| progress_bar.dfy | ProgressBar | `src/UI/ProgressBar/ProgressBar.cpp`: the range fix-up, clamping, stepping |
| select.dfy | Select | `src/UI/Select/Select.cpp`: item list and selection bookkeeping |
| chart.dfy | Chart | `src/UI/Chart/Chart.cpp` and `Chart.h`: the sliding time window and the manual axis bounds |
| image_view.dfy | ImageView | `src/UI/ImageView/ImageView.cpp`: image state, load outcomes, integer placement |

Three behaviours of the code that are easy to misread, modelled as the code has them:

- `Serial::read` keeps the caller's buffer when its guard fails. Only a failed `ReadFile` clears it.
- `Serial::connect` with an empty port name returns before it closes anything, so an open session stays open.
- `Serial::updateComPorts` empties the list before it opens the registry, so a registry failure leaves no ports.

C++ integer behaviour is written out where it matters:

- `int` is 32 bits wide.
- `ProgressBar::step` can overflow a signed `int`, which C++ leaves undefined. The model assumes the two's-complement wrap-around that common compilers produce.
- A `UINT` image size cast to `int` is assumed to wrap the same way.
- Division in `ImageView` truncates toward zero.

## Model

| member | source | states |
|---|---|---|
| Hid.NewSession | src/IO/HID/HID.cpp:26-43 | a new object holds no library and no handle, its filter accepts every device, and its reports carry 7 data bytes |
| Hid.Init | src/IO/HID/HID.cpp:58-89 | succeeds if already initialised or if `hid.dll` loads with every entry point; it changes only the initialised flag; a failure fires exactly one error callback |
| Hid.MatchDevice | src/IO/HID/HID.cpp:125-156 | a device matches iff its attributes can be read, each non-zero VID/PID filter field equals the device's value, and, when a usage page or usage is configured, the capability query succeeds and each non-zero usage field matches |
| Hid.MatchIgnoresCapsWithoutUsageFilter | src/IO/HID/HID.cpp:135-149 | with no usage page or usage configured, the capability query cannot change whether a device matches |
| Hid.ScanEntry | src/IO/HID/HID.cpp:273-325 | an interface is listed iff it opens, passes the match and its capability query succeeds; the entry satisfies all four filter fields and copies the attributes, capabilities and path |
| Hid.ScanAgreesWithMatch | src/IO/HID/HID.cpp:290-316 | when the capability query works, the scan accepts exactly the devices `matchDevice` accepts |
| Hid.ScanStricterThanMatch | src/IO/HID/HID.cpp:300-312 | everything the scan lists also matches; the devices that match but are not listed are exactly those whose capability query fails while no usage filter is set |
| Hid.ScanList | src/IO/HID/HID.cpp:252-326 | the scan loop lists at most one device per interface, each satisfying the filter |
| Hid.ScanListAppend | src/IO/HID/HID.cpp:252-326 | scanning two runs of interfaces gives the two results concatenated, so enumeration order is kept |
| Hid.ScanListMembers | src/IO/HID/HID.cpp:252-326 | a device is listed iff some enumerated interface yields it |
| Hid.Scan | src/IO/HID/HID.cpp:235-330 | the result is empty before `init` or when the registry cannot be opened; otherwise it is the scan loop's list, every entry satisfying the filter |
| Hid.Close | src/IO/HID/HID.cpp:368-377 | releases the handle and clears the open flag; `onDisconnect` fires iff the session was open |
| Hid.CloseIdempotent | src/IO/HID/HID.cpp:368-377 | a second `close` changes nothing and fires no callback |
| Hid.Open | src/IO/HID/HID.cpp:336-362 | closes first; succeeds iff initialised and the path opens, holding exactly that path; a failure leaves the closed session; the closing callbacks are followed by exactly one connect or error callback; the session stays valid, open only when initialised |
| Hid.FirstMatch | src/IO/HID/HID.cpp:181-225 | the index found is the first interface that opens and matches; none is found iff no interface does |
| Hid.FindAndOpen | src/IO/HID/HID.cpp:158-229 | closes first; succeeds iff initialised, the registry opens and some interface matches, holding the first matching path; reports "not initialised" and registry failure as errors and a fruitless search silently; the session stays valid, open only when initialised |
| Hid.ScanNonEmptyFindsDevice | src/IO/HID/HID.cpp:158-330 | when `scan` lists a device, `findAndOpen` on the same registry succeeds |
| Hid.FeatureBuffer | src/IO/HID/HID.cpp:410-416 | the buffer has 1 + size bytes, byte 0 is the report id, then min(data length, size) data bytes, then zeros |
| Hid.Payload | src/IO/HID/HID.cpp:399-400 | the bytes copied out are the `n` bytes after the report id |
| Hid.FeatureBufferRoundTrip | src/IO/HID/HID.cpp:399-416 | reading back the framed bytes returns the data, cut at the report size |
| Hid.SetFeatureReport | src/IO/HID/HID.cpp:404-424 | on a closed device: false, nothing sent, "device not open"; otherwise the framed buffer is sent and the result is the device's answer, with an error callback on refusal |
| Hid.GetFeatureReport | src/IO/HID/HID.cpp:383-402 | on a closed device: false, nothing sent, "device not open"; otherwise a zeroed buffer led by the id is sent; success copies exactly min(dataLen, size) bytes from offset 1, failure copies nothing |
| Hid.SentBufferShape | src/IO/HID/HID.cpp:389-413 | every buffer either call hands to the device has 1 + size bytes and starts with the report id |
| Hid.HexDigit | src/IO/HID/HID.cpp:16-17 | each `%X` digit reads back as its value |
| Hid.Hex4 | src/IO/HID/HID.cpp:16-17 | `%04X` of a 16-bit field is exactly four characters |
| Hid.Hex4RoundTrip | src/IO/HID/HID.cpp:16-17 | the four hexadecimal digits read back as the field's value |
| Hid.DeviceString | src/IO/HID/HID.cpp:14-19 | the text is 44 characters, so the 128-byte buffer never truncates it; it starts "HID ", has ':' and the "  UsagePage=0x" and " Usage=0x" separators at fixed places, and VID, PID, usage page and usage each read back from their four digits |
| Hid.SetVidPid | src/IO/HID/HID.cpp:91-94 | replaces the vendor and product filter fields and leaves the usage fields, the session and the report size alone |
| Hid.SetUsage | src/IO/HID/HID.cpp:96-99 | replaces the usage-page and usage filter fields and leaves the id fields, the session and the report size alone |
| Hid.SetFeatureReportSize | src/IO/HID/HID.cpp:101-103 | replaces the report size and nothing else, even while a device is open |
| Hid.SetVidPidScans | src/IO/HID/HID.cpp:91-94 | after `setVidPid(vid, pid)` every scanned device has that vendor and product id, except for a field set to 0 |
| Hid.SetFeatureReportSizeFrames | src/IO/HID/HID.cpp:101-103 | after `setFeatureReportSize(n)` the next report sent is 1 + n bytes long, starts with the report id and carries the data cut to n bytes |
| Ble.Narrow | src/IO/BLE/BLE.cpp:35 | the narrow name has the wide name's length and keeps each character's low byte |
| Ble.NarrowIdempotent | src/IO/BLE/BLE.cpp:35 | text that is already narrow comes through unchanged |
| Ble.ToString | src/IO/BLE/BLE.cpp:34-51 | the display string is the narrowed name, followed by " (RSSI: r dBm)" exactly when the signal strength is non-zero |
| Ble.DeviceStrings | src/IO/BLE/BLE.cpp:277-282 | the display list has one entry per device, each the device's `toString`, in the same order |
| Ble.NewBle | src/IO/BLE/BLE.cpp:53-65 | a new object is disconnected, not scanning, without Bluetooth and with empty lists, and satisfies the invariant |
| Ble.StartScan | src/IO/BLE/BLE.cpp:111-160 | without Bluetooth: false and an error; while scanning: true and nothing else; otherwise the device and display lists are cleared and scanning starts; the invariant is kept |
| Ble.DeviceFor | src/IO/BLE/BLE.cpp:213-241 | a discovered device has the interface path as address, signal strength 0, is connectable, and carries the registry name when there is one and "BLE Device" exactly when it is empty |
| Ble.RegistryName | src/IO/BLE/BLE.cpp:212-220 | the friendly name when the registry has one, else the device description, else the empty string the zero-filled buffer holds |
| Ble.IsOwon | src/IO/BLE/BLE.cpp:225-234 | an OWON meter is one whose lower-cased name or path contains "ow18b" or "owon"; `Ble.DeviceForOwon` shows the device record is classed the same way |
| Ble.Discover | src/IO/BLE/BLE.cpp:245-264 | a known address or unreadable interface changes nothing and fires nothing; a new OWON device goes to the front, any other to the back; display strings are rebuilt and one discovered callback fires; addresses stay distinct |
| Ble.DiscoverLists | src/IO/BLE/BLE.cpp:245-258 | after a step on a readable interface its address is listed |
| Ble.DiscoverAll | src/IO/BLE/BLE.cpp:192-272 | the scan loop keeps the invariant, touches only the device and display lists, and keeps OWON meters ahead of all other devices |
| Ble.ListedGrows | src/IO/BLE/BLE.cpp:253-258 | inserting at the front or the back keeps every listed address |
| Ble.DiscoverKeeps | src/IO/BLE/BLE.cpp:245-264 | a discovery step never drops a listed device |
| Ble.DiscoverAllKeeps | src/IO/BLE/BLE.cpp:192-272 | a whole scan never drops a listed device |
| Ble.DiscoverAllLists | src/IO/BLE/BLE.cpp:192-272 | every readable interface of a scan ends up listed |
| Ble.DiscoverOnly | src/IO/BLE/BLE.cpp:245-264 | a discovery step adds no address but the readable interface's own |
| Ble.DiscoverAllOnly | src/IO/BLE/BLE.cpp:192-272 | every address listed after a scan was listed before or is the path of a readable scanned interface |
| Ble.ScanExact | src/IO/BLE/BLE.cpp:192-272 | from the empty list `startScan` leaves, a scan lists an address iff some readable scanned interface has it, each address once, with OWON meters first |
| Ble.DefaultNameNotOwon | src/IO/BLE/BLE.cpp:238 | the fallback name "BLE Device" contains neither "ow18b" nor "owon" once lower-cased |
| Ble.DeviceForOwon | src/IO/BLE/BLE.cpp:225-241 | the device record built for an interface is an OWON meter exactly when the scan classed the interface as one |
| Ble.OwonFirstFront | src/IO/BLE/BLE.cpp:254-255 | inserting an OWON meter at the front keeps OWON meters ahead of all other devices |
| Ble.OwonFirstBack | src/IO/BLE/BLE.cpp:256-257 | appending a device that is not an OWON meter keeps OWON meters ahead of all other devices |
| Ble.DiscoverOwonFirst | src/IO/BLE/BLE.cpp:245-264 | a discovery step keeps every OWON meter ahead of every other device |
| Ble.ScanThread | src/IO/BLE/BLE.cpp:169-275 | an unreadable registry gives one error and no change; otherwise the scan loop runs over the interfaces; the invariant and the OWON-first order are kept |
| Ble.DisconnectBle | src/IO/BLE/BLE.cpp:399-419 | from `Disconnected` nothing happens; from any other state the handle is closed, the state becomes `Disconnected` and `onDisconnect` fires |
| Ble.DisconnectIdempotent | src/IO/BLE/BLE.cpp:399-419 | a second `disconnect` changes nothing and fires nothing |
| Ble.ConnectBle | src/IO/BLE/BLE.cpp:284-311 | without Bluetooth: false, an error, no change; otherwise true, a connected session is disconnected first, the address is selected and the state is `Connecting`; the lists are untouched |
| Ble.ConnectionAttempt | src/IO/BLE/BLE.cpp:313-346 | a failed open gives `ConnectionError` and an error carrying the code; a successful one gives `Connected` with a handle and `onConnect` |
| Ble.ConnectThenAttempt | src/IO/BLE/BLE.cpp:284-346 | after `connect`, the attempt ends `Connected` iff the open succeeds and `ConnectionError` iff it fails, with the requested address selected |
| Ble.Write | src/IO/BLE/BLE.cpp:462-494 | a write succeeds iff the session is connected with a valid handle and the system reports every byte written |
| Ble.WriteNeedsConnected | src/IO/BLE/BLE.cpp:463-479 | under the invariant the guard reduces to the connection state |
| Ble.StateString | src/IO/BLE/BLE.cpp:441-456 | one Polish label per connection state; `Ble.StateStringInjective` shows no two states share one |
| Ble.StateStringInjective | src/IO/BLE/BLE.cpp:441-456 | distinct connection states get distinct labels |
| Ble.FirstPicked | src/IO/BLE/BLE.cpp:423-435 | the index found is the first device whose name or address equals the query or whose display string contains it; none is found iff no device qualifies |
| Ble.SetDevice | src/IO/BLE/BLE.cpp:421-439 | only the selection changes: the first qualifying device's address, or the query itself when none qualifies |
| Ble.SetDeviceByAddress | src/IO/BLE/BLE.cpp:421-427 | querying by a listed address selects that address when no earlier device qualifies |
| Ble.SetDeviceEmptyQuery | src/IO/BLE/BLE.cpp:428-434 | the empty query occurs in every display string, so it selects the first device |
| Ble.InitBle | src/IO/BLE/BLE.cpp:87-108 | reports and records availability exactly when a radio is found, even if its details cannot be read; scan, connection and list are untouched |
| Ble.StopScan | src/IO/BLE/BLE.cpp:162-167 | afterwards no scan is marked running; the devices found, the connection state and availability are kept |
| Ble.ScanFinished | src/IO/BLE/BLE.cpp:152-156 | the scan thread's end marks the scan over and fires `onScanComplete` once, keeping the devices found |
| Ble.StopScanRestarts | src/IO/BLE/BLE.cpp:119-132 | `startScan` during a scan keeps the devices found so far, but after `stopScan` or the scan's end it restarts with an empty list |
| Ble.NoRadioNoScan | src/IO/BLE/BLE.cpp:107-117 | with no radio, `init` fails and `startScan` then fails with one error and changes nothing |
| Serial.NewSerial | src/IO/Serial/Serial.cpp:7-10 | a new object has no handle, no session, no port name and no ports, and satisfies the invariant |
| Serial.SetPort | src/IO/Serial/Serial.cpp:144-146 | records the port name and leaves the handle, the session and the port list alone |
| Serial.SetPortThenConnect | src/IO/Serial/Serial.cpp:21-26 | after `setPort(name)`, `connect` succeeds iff the name is non-empty and the port comes up; an empty name only shows the "no port" message |
| Serial.DisconnectSerial | src/IO/Serial/Serial.cpp:125-142 | afterwards there is no handle, no session and no reader; `onDisconnect` fires iff a valid handle belonged to a connected session |
| Serial.DisconnectIdempotent | src/IO/Serial/Serial.cpp:125-142 | a second `disconnect` changes nothing and fires nothing |
| Serial.ConnectSerial | src/IO/Serial/Serial.cpp:21-123 | an empty port name shows one message and changes nothing; otherwise an open handle is disconnected first and the call succeeds iff opening and configuring succeed; success opens, connects and fires `onConnect`; a failure shows the message for the failing step (error code 2 and 5 described in words) and leaves no handle |
| Serial.FailedConnectLeavesNothing | src/IO/Serial/Serial.cpp:23-106 | a failed `connect` never fires `onConnect`; with a port name set it leaves no handle and no session, and without one an open session is kept |
| Serial.ReconnectClosesFirst | src/IO/Serial/Serial.cpp:29-31 | connecting an already connected port reports the disconnection before the new connection |
| Serial.WriteSerial | src/IO/Serial/Serial.cpp:185-194 | a write succeeds iff there is a valid handle and a session and `WriteFile` reports every byte written |
| Serial.ReadSerial | src/IO/Serial/Serial.cpp:196-212 | without a session: false and the caller's buffer untouched; otherwise true iff `ReadFile` gives at least one byte, the buffer then holding exactly those 1..bytesToRead bytes, and empty on failure |
| Serial.ReaderPass | src/IO/Serial/Serial.cpp:240-277 | the intended pass: one with queued bytes asks for min(256, queued), delivers a non-empty read and clears the counter; a quiet pass with errors counts one and at 10 reconnects and clears it; an exception counts one without the test |
| Serial.RunReader | src/IO/Serial/Serial.cpp:240-281 | the loop produces one reconnect flag per pass |
| Serial.ErrorPolls | src/IO/Serial/Serial.cpp:259-261 | a run of `k` passes that each saw communication errors |
| Serial.ErrorsBelowThreshold | src/IO/Serial/Serial.cpp:259-270 | starting below the threshold, each error pass adds one and none reconnects while the total stays below 10 |
| Serial.TenErrorsReconnectOnce | src/IO/Serial/Serial.cpp:259-270 | in the intended reader, ten consecutive error passes from zero reconnect exactly on the tenth and leave the counter at 0 |
| Serial.RunReaderAppend | src/IO/Serial/Serial.cpp:240-281 | running two stretches of passes is running the first, then the second from the counter it left |
| Serial.CounterBounded | src/IO/Serial/Serial.cpp:252-270 | in the intended reader, passes other than exceptions keep the counter within 0..9 |
| Serial.ExceptionsOvershoot | src/IO/Serial/Serial.cpp:263-276 | exceptions alone push the counter past 10 (12 after twelve); the next error pass then reconnects at once in the intended reader, and stops the reader as written |
| Serial.ExceptionsCount | src/IO/Serial/Serial.cpp:273-276 | each exception pass adds exactly one to the counter |
| Serial.ReaderPassAsWritten | src/IO/Serial/Serial.cpp:259-276 | the pass as written never reconnects; it ends the loop exactly at the threshold, where `disconnect` joins the reader's own thread and throws, leaving the counter two higher; every other pass is the intended one |
| Serial.RunReaderAsWritten | src/IO/Serial/Serial.cpp:240-281 | the written loop runs the passes in order until one ends it, never more passes than polls |
| Serial.AsWrittenStopsOnlyOnErrors | src/IO/Serial/Serial.cpp:240-281 | the written loop ends early only right after a quiet pass with communication errors; exceptions, reads and closed passes never stop it |
| Serial.AsWrittenBelowThreshold | src/IO/Serial/Serial.cpp:259-264 | below the threshold the written loop counts each error pass and keeps running, whatever follows |
| Serial.TenErrorsStopReader | src/IO/Serial/Serial.cpp:234-282 | as written, ten error passes from zero stop the reader on the tenth pass with the counter at 11 and no reconnect, whatever polls follow; the intended pass at 9 reconnects and clears the counter |
| Serial.ReaderStoppedAsWritten | src/IO/Serial/Serial.cpp:125-141 | the written threshold pass leaves the handle and the connected flag as they were, with no reader |
| Serial.SelfJoinLeavesPortOpen | src/IO/Serial/Serial.cpp:125-141 | after it an open session has no reader, which breaks validity; a later `disconnect` closes the port, fires `onDisconnect` and restores validity |
| Serial.PortEntry | src/IO/Serial/Serial.cpp:172-178 | an entry contributes exactly when its friendly name, read as a C string, contains "COM", and then a name of 3 to the maximum length starting "COM" |
| Serial.PortEntryIsExtract | src/IO/Serial/Serial.cpp:172-178 | the "contains COM" test is redundant: an entry contributes exactly when `extractComPort` returns a non-empty name, and contributes that name |
| Serial.PortList | src/IO/Serial/Serial.cpp:161-180 | every listed port starts with "COM" and has 3 to 10 characters; at most one per registry entry |
| Serial.PortListAppend | src/IO/Serial/Serial.cpp:161-180 | listing two stretches of registry entries gives the two lists in order |
| Serial.UpdateComPorts | src/IO/Serial/Serial.cpp:148-183 | only the port list changes; it is empty when the registry cannot be opened and otherwise the port list of the friendly names |
| Serial.InitSerial | src/IO/Serial/Serial.cpp:16-19 | always succeeds; the port list is refreshed from the registry (empty when it cannot be opened, COM names only), nothing else changes, and validity is kept |
| Strings.FindFrom | src/Util/StringUtils.cpp:57 | the position found is the first occurrence at or after the start; none is found iff the pattern occurs nowhere from there |
| Strings.Find | src/Util/StringUtils.cpp:57 | `strstr`: the position found is the first occurrence; none is found iff the pattern occurs nowhere |
| Strings.ContainsIff | src/IO/BLE/BLE.cpp:231-234 | `find(...) != npos` holds iff the pattern occurs at some position |
| Strings.OccursAtContains | src/Util/StringUtils.cpp:57 | any occurrence proves the search succeeds at or before it |
| Strings.TrimStart | src/Util/ConfigManager.cpp:22 | the result is a suffix of the input; everything dropped is whitespace and the result does not start with whitespace |
| Strings.TrimEnd | src/Util/ConfigManager.cpp:23 | the result is a prefix of the input; everything dropped is whitespace and the result does not end with whitespace |
| Strings.Trim | src/Util/ConfigManager.cpp:22-23 | the result neither starts nor ends with whitespace, and text that already does not is returned unchanged |
| Strings.LowerChar | src/IO/BLE/BLE.cpp:226 | A-Z move to a-z; every other character is kept |
| Strings.ToLower | src/IO/BLE/BLE.cpp:226 | the whole string is lowered character by character, keeping its length |
| Strings.NatToString | src/IO/Serial/Serial.cpp:55 | a non-empty run of decimal digits without a leading zero |
| Strings.NatToStringRoundTrip | src/IO/Serial/Serial.cpp:55 | the digits read back as the number |
| Strings.IntToString | src/IO/BLE/BLE.cpp:48 | non-empty, starts with '-' iff the number is negative, and the rest is decimal digits whose value is the magnitude |
| StringUtils.CText | src/Util/StringUtils.cpp:53-64 | a C string is the buffer's prefix up to (not including) the first NUL, or the whole buffer when there is none |
| StringUtils.MaximalRunUnique | src/Util/StringUtils.cpp:64-67 | the copy loop's stopping point is unique |
| StringUtils.TakeRun | src/Util/StringUtils.cpp:64-67 | the copied run is a prefix of the text and a maximal run: at most 10 characters, no space or ')', and stopping at the limit, the end or a stop character |
| StringUtils.ComRunLength | src/Util/StringUtils.cpp:57-67 | a run starting at "COM" keeps at least those three characters |
| StringUtils.ExtractComPort | src/Util/StringUtils.cpp:53-70 | empty iff the pointer is null or the text has no "COM"; otherwise 3 to 10 characters starting with "COM", copied from the first occurrence, forming the maximal run there; never contains a space, ')' or NUL |
| StringUtils.ExtractComPortScan | src/Util/StringUtils.cpp:60-69 | the character-by-character copy loop returns exactly the specified result |
| StringUtils.CTextWithoutNul | src/Util/StringUtils.cpp:64 | a buffer without NUL is read in full |
| StringUtils.ComFoundAfter | src/Util/StringUtils.cpp:57 | when the prefix holds no 'C', the first "COM" is the one right after it |
| StringUtils.DigitsRun | src/Util/StringUtils.cpp:64-67 | in "COM<digits>)" the copy stops at the ')' |
| StringUtils.FriendlyNameExtract | src/Util/StringUtils.cpp:52 | a friendly name of the form "<prefix>COM<1 to 7 digits>)" with no 'C' in the prefix yields "COM<digits>"; "USB Serial Port (COM3)" giving "COM3" is one instance |
| StringUtils.ExtractIdempotent | src/Util/StringUtils.cpp:57-67 | extracting again from a non-empty result returns it unchanged |
| OrderedMap.ToMap | src/Util/ConfigManager.h:90 | the map's keys are exactly the keys listed |
| OrderedMap.Keys | src/Util/ConfigManager.cpp:112-114 | the keys in iteration order, one per entry |
| OrderedMap.Lookup | src/Util/ConfigManager.cpp:34-38 | `find` succeeds iff the key is present and then gives its value |
| OrderedMap.Insert | src/Util/ConfigManager.cpp:30 | `m[k] = v` sets k to v and keeps every other entry |
| OrderedMap.Remove | src/Util/ConfigManager.cpp:46 | `erase(k)` removes exactly k |
| OrderedMap.RemoveAbsent | src/Util/ConfigManager.cpp:46 | erasing an absent key leaves the map as it was |
| OrderedMap.InsertOrdered | src/Util/ConfigManager.cpp:30 | inserting keeps the keys strictly ascending |
| OrderedMap.RemoveOrdered | src/Util/ConfigManager.cpp:46 | erasing keeps the keys strictly ascending |
| OrderedMap.OrderedDistinct | src/Util/ConfigManager.h:90 | in a strictly ascending list no key appears twice |
| OrderedMap.InsertGreatest | src/Util/ConfigManager.cpp:30 | a key above every present key is inserted at the end |
| ConfigManager.Empty | src/Util/ConfigManager.cpp:8-9 | a store with the given path and no settings satisfies the invariant |
| ConfigManager.NewConfig | src/Util/ConfigManager.cpp:8-12 | the constructor's store holds exactly what the file's lines give, or nothing when the file cannot be opened |
| ConfigManager.SetValue | src/Util/ConfigManager.cpp:19-31 | a key that trims to nothing changes nothing; otherwise the trimmed key maps to the untrimmed value and every other entry is kept; the invariant is kept |
| ConfigManager.GetValue | src/Util/ConfigManager.cpp:33-39 | the stored value for exactly this key, and the default exactly when it is absent |
| ConfigManager.HasKey | src/Util/ConfigManager.cpp:41-43 | true iff the key, compared verbatim, is present |
| ConfigManager.RemoveKey | src/Util/ConfigManager.cpp:45-47 | exactly this key is gone and the invariant is kept |
| ConfigManager.GetKeys | src/Util/ConfigManager.cpp:108-117 | every key appears, each exactly once, in strictly ascending order |
| ConfigManager.SetConfigFilePath | src/Util/ConfigManager.cpp:104-106 | the path changes and the settings do not |
| ConfigManager.DistinctKeysCount | src/Util/ConfigManager.h:90 | a key list without repeats has as many map entries as list entries |
| ConfigManager.SetThenGet | src/Util/ConfigManager.cpp:19-43 | after `setValue(k, v)` with a non-empty trimmed key t, `hasKey(t)` holds, `getValue(t)` gives v, and every other key reads as before |
| ConfigManager.PaddedKeyNotFound | src/Util/ConfigManager.cpp:21-42 | reads do not trim: a key with surrounding whitespace is never found, even right after `setValue` with it |
| ConfigManager.RemoveThenGet | src/Util/ConfigManager.cpp:33-47 | after `removeKey(k)` the key is absent and reads the default, other keys read as before, and removing an absent key changes nothing |
| ConfigManager.ParseLine | src/Util/ConfigManager.cpp:74-97 | blank lines, comment lines and lines without '=' give nothing; a parsed key is trimmed, non-empty and free of '=', and a parsed value is trimmed |
| ConfigManager.ParseLineAtFirstEquals | src/Util/ConfigManager.cpp:81-96 | a line is split at its first '=', key and value are trimmed, and an empty key drops the line |
| ConfigManager.FirstSeparator | src/Util/ConfigManager.cpp:81 | the separator found is a '=' with none before it |
| ConfigManager.TrimKeepsFree | src/Util/ConfigManager.cpp:87-91 | trimming never introduces a character |
| ConfigManager.ApplyLine | src/Util/ConfigManager.cpp:93-96 | a rejected line changes nothing; a parsed line sets its key to its value |
| ConfigManager.LoadLines | src/Util/ConfigManager.cpp:74-98 | each line applied in order; `ConfigManager.LoadLinesAppend`, `ConfigManager.LastLineWins` and `ConfigManager.SkippedLineIgnored` give its effect |
| ConfigManager.LoadLinesValid | src/Util/ConfigManager.cpp:74-98 | the parse loop keeps the store's invariant |
| ConfigManager.LoadLinesAppend | src/Util/ConfigManager.cpp:74-98 | reading the lines in two parts is reading the first part and then the second |
| ConfigManager.SkippedLineIgnored | src/Util/ConfigManager.cpp:76-82 | a rejected line has no effect wherever it appears |
| ConfigManager.LastLineWins | src/Util/ConfigManager.cpp:95 | the last line that sets a key decides its value |
| ConfigManager.LoadFromFile | src/Util/ConfigManager.cpp:64-102 | a file that cannot be opened leaves the store alone and gives false; otherwise the settings are exactly what the lines give, the path is kept and the result is true |
| ConfigManager.EntryLines | src/Util/ConfigManager.cpp:56-58 | one `key=value` line per entry, in entry order |
| ConfigManager.SaveLines | src/Util/ConfigManager.cpp:56-58 | one line per setting |
| ConfigManager.SaveToFile | src/Util/ConfigManager.cpp:49-62 | lines are written iff the file opens, one per setting, and for a serialisable store they load back as the same settings |
| ConfigManager.ParseFormatLine | src/Util/ConfigManager.cpp:57-96 | a written line parses back to its key and its trimmed value; the value is unchanged iff it had no surrounding whitespace |
| ConfigManager.LoadSavedLines | src/Util/ConfigManager.cpp:56-96 | loading the lines of ordered, serialisable entries after smaller keys appends exactly those entries |
| ConfigManager.LoadStep | src/Util/ConfigManager.cpp:57-96 | one written line, loaded after smaller keys, appends its entry |
| ConfigManager.SaveLoadRoundTrip | src/Util/ConfigManager.cpp:49-102 | saving and loading back reproduces a serialisable store entry for entry |
| ConfigManager.KeyWithEqualsSplits | src/Util/ConfigManager.cpp:81-84 | a key containing '=' does not survive the round trip: the part after its first '=' moves into the value |
| ConfigManager.SplitLines | src/Util/ConfigManager.cpp:74 | the lines `getline` yields contain no newline |
| ConfigManager.SplitJoinLines | src/Util/ConfigManager.cpp:57-74 | lines each ended by a newline split back into the same lines |
| ConfigManager.SaveLoadTextRoundTrip | src/Util/ConfigManager.cpp:49-102 | the round trip also holds through the file's text |
| ValueDisplay.NewDisplay | src/UI/ValueDisplay/ValueDisplay.cpp:18-22 | a new display has no label, unit, prefix, flags or statuses, and the default colours (20,20,20), (0,220,0), (220,0,0), (0,0,220) with precision 2 |
| ValueDisplay.UnitFor | src/UI/ValueDisplay/ValueDisplay.cpp:231-264 | a mode code gets a unit iff it is one of 1, 3, 5, 7, 9, 10-14 |
| ValueDisplay.PrefixFor | src/UI/ValueDisplay/ValueDisplay.cpp:267-275 | a range code gets a prefix iff it is 0-5 other than 3, and a prefix is one character |
| ValueDisplay.RangeString | src/UI/ValueDisplay/ValueDisplay.cpp:510-520 | a range code has a name iff it is 0-5 |
| ValueDisplay.ModeString | src/UI/ValueDisplay/ValueDisplay.cpp:493-507 | a mode code has a label iff it is one of the ten measuring codes, and the five direct-current codes are labelled "DC …" |
| ValueDisplay.LabelIffUnit | src/UI/ValueDisplay/ValueDisplay.cpp:231-264 | a mode code has a label exactly when it has a unit |
| ValueDisplay.DcLabelNamesUnit | src/UI/ValueDisplay/ValueDisplay.cpp:495-499 | the five DC codes are labelled "DC " followed by their unit |
| ValueDisplay.PrefixIffNamedRange | src/UI/ValueDisplay/ValueDisplay.cpp:267-275 | a range has a prefix exactly when it has a name other than "base" |
| ValueDisplay.UpdateDisplay | src/UI/ValueDisplay/ValueDisplay.cpp:221-281 | value, codes and flags are stored verbatim, unit and prefix come from the tables, and the label, statuses and colours are untouched |
| ValueDisplay.UpdateValue | src/UI/ValueDisplay/ValueDisplay.cpp:146-155 | the value, prefix and unit are replaced and nothing else; the painted unit text becomes prefix then unit and the painted mode text is unchanged |
| ValueDisplay.SetModeLabel | src/UI/ValueDisplay/ValueDisplay.cpp:158-165 | the label is replaced and nothing else; the painted mode text becomes the label, or the mode code's label when it is empty, and the unit text is unchanged |
| ValueDisplay.SetModeCode | src/UI/ValueDisplay/ValueDisplay.cpp:168-178 | the mode code is stored together with its table label |
| ValueDisplay.SetRange | src/UI/ValueDisplay/ValueDisplay.cpp:181-188 | the range code changes but the painted unit text does not |
| ValueDisplay.SetRangeKeepsPrefix | src/UI/ValueDisplay/ValueDisplay.cpp:181-188 | after `updateDisplay` and then `setRange` with another code, the prefix painted still belongs to the first range |
| ValueDisplay.SetAuto | src/UI/ValueDisplay/ValueDisplay.cpp:191-198 | only the AUTO flag changes, and the text colour does not |
| ValueDisplay.SetHold | src/UI/ValueDisplay/ValueDisplay.cpp:201-208 | only the HOLD flag changes; switching it on shows the hold colour |
| ValueDisplay.SetDelta | src/UI/ValueDisplay/ValueDisplay.cpp:211-218 | only the DELTA flag changes; while holding the colour does not change |
| ValueDisplay.FlagSettersMatchUpdate | src/UI/ValueDisplay/ValueDisplay.cpp:191-228 | setting the three flags one by one shows the same flag words, colour and status line as `updateDisplay` with those flags |
| ValueDisplay.SetConfig | src/UI/ValueDisplay/ValueDisplay.cpp:322-323 | the colours come from the new configuration; the status line and mode text are unaffected |
| ValueDisplay.ShownMode | src/UI/ValueDisplay/ValueDisplay.cpp:452 | the painted mode text is the label, or the code's label when the label is empty |
| ValueDisplay.SetModeCodeShown | src/UI/ValueDisplay/ValueDisplay.cpp:168-172 | after `setMode(code)` the painted mode text is that code's label |
| ValueDisplay.UpdateDisplayShown | src/UI/ValueDisplay/ValueDisplay.cpp:221-228 | `updateDisplay` changes the painted mode text only when no label is set; a stale label survives |
| ValueDisplay.UpdateDisplayUnitText | src/UI/ValueDisplay/ValueDisplay.cpp:231-275 | after `updateDisplay` the painted unit text is the range prefix followed by the mode unit, the prefix alone for an unknown mode |
| ValueDisplay.TextColor | src/UI/ValueDisplay/ValueDisplay.cpp:528-537 | the text colour is always one of the three configured text colours |
| ValueDisplay.ColourPriority | src/UI/ValueDisplay/ValueDisplay.cpp:528-537 | hold gives the hold colour whatever delta is; otherwise delta gives the delta colour; otherwise the plain colour |
| ValueDisplay.DefaultColoursDistinct | src/UI/ValueDisplay/ValueDisplay.h:17-19 | under the default configuration the colour tells hold, delta and neither apart |
| ValueDisplay.AddCustomStatus | src/UI/ValueDisplay/ValueDisplay.cpp:300-307 | one status is set, inserted if new, and the rest of the map is kept, still ordered |
| ValueDisplay.UpdateFullDisplay | src/UI/ValueDisplay/ValueDisplay.cpp:284-297 | the value, texts, label and the whole status map are replaced at once |
| ValueDisplay.ActiveNames | src/UI/ValueDisplay/ValueDisplay.cpp:436-440 | only names present in the map are listed |
| ValueDisplay.ActiveNamesIff | src/UI/ValueDisplay/ValueDisplay.cpp:436-440 | a name is listed iff the map holds it as active |
| ValueDisplay.ActiveNamesAscending | src/UI/ValueDisplay/ValueDisplay.cpp:436-440 | active names are listed in strictly ascending order |
| ValueDisplay.InsertInactive | src/UI/ValueDisplay/ValueDisplay.cpp:300-301 | inserting or resetting a status as inactive lists the same names |
| ValueDisplay.ActiveNamesAppend | src/UI/ValueDisplay/ValueDisplay.cpp:436-440 | the names of two stretches of the map are listed one after the other |
| ValueDisplay.WordsAppend | src/UI/ValueDisplay/ValueDisplay.cpp:438 | writing two lists of words is writing one, then the other |
| ValueDisplay.AddInactiveKeepsLine | src/UI/ValueDisplay/ValueDisplay.cpp:300-301 | adding an inactive status leaves the status line as it was |
| ValueDisplay.AddGreatestActive | src/UI/ValueDisplay/ValueDisplay.cpp:300-440 | adding an active status whose name sorts after every other appends the name and a space to the status line |
| ValueDisplay.StatusLineEmpty | src/UI/ValueDisplay/ValueDisplay.cpp:431-442 | the status line is empty, and so not painted, iff no flag is set and no status is active |
| ProgressBar.NewBar | src/UI/ProgressBar/ProgressBar.cpp:16-28 | a constructed bar always has a strictly increasing range (a requested empty range becomes 0..100) and its position is the requested minimum, set before that fix-up |
| ProgressBar.ConstructedOutsideRange | src/UI/ProgressBar/ProgressBar.cpp:18-27 | a bar constructed as (200, 50) has range 0..100 and position 200, outside its own range |
| ProgressBar.Clamp | src/UI/ProgressBar/ProgressBar.cpp:87-91 | the result is the value itself, the lower bound or the upper bound; for a non-empty range it lies in the range, and a value already inside is kept |
| ProgressBar.SetProgress | src/UI/ProgressBar/ProgressBar.cpp:85-98 | the range and widget are kept; the new position is the argument when in range, otherwise the nearer bound, so a valid bar ends in range |
| ProgressBar.SetProgressIdempotent | src/UI/ProgressBar/ProgressBar.cpp:87-93 | setting a position twice is setting it once, and re-setting the in-range position changes nothing |
| ProgressBar.GetProgress | src/UI/ProgressBar/ProgressBar.cpp:100-105 | without a native control the stored position, otherwise the control's position |
| ProgressBar.SetRange | src/UI/ProgressBar/ProgressBar.cpp:107-128 | an empty range changes nothing; a proper one replaces both bounds, and the position is pulled into it only when the native control exists; validity is preserved |
| ProgressBar.GetRange | src/UI/ProgressBar/ProgressBar.cpp:130-133 | returns a strictly increasing pair for a valid bar, and giving it back to `setRange` changes nothing |
| ProgressBar.WidgetKeepsInRange | src/UI/ProgressBar/ProgressBar.cpp:113-127 | with a native control, an in-range position stays in range across any `setRange` |
| ProgressBar.NoWidgetCanStrand | src/UI/ProgressBar/ProgressBar.cpp:113-127 | without a native control, position 90 stays at 90 after narrowing the range to 0..50 |
| ProgressBar.Create | src/UI/ProgressBar/ProgressBar.cpp:37-83 | the native control exists exactly when the window was created, with range and position kept; `ProgressBar.CreateEnablesReclamp` shows its effect on later range changes |
| ProgressBar.CreateEnablesReclamp | src/UI/ProgressBar/ProgressBar.cpp:58-65 | a failed first creation changes nothing; after a successful one, narrowing 0..100 to 0..50 pulls position 90 to 50, unlike the same steps without a control |
| ProgressBar.Step | src/UI/ProgressBar/ProgressBar.cpp:175-184 | the range and widget are kept; with a native control the position is the control's reading, without one a valid bar ends in range |
| ProgressBar.StepMoves | src/UI/ProgressBar/ProgressBar.cpp:181-182 | without a native control and without overflow, `step(k)` is `setProgress(value + k)` and never moves an in-range position backwards for k >= 0 |
| ProgressBar.StepOverflowWraps | src/UI/ProgressBar/ProgressBar.cpp:182 | on a bar 0..2147483647 at its maximum, `step(1)` wraps the sum and lands on 0 |
| ProgressBar.StepSaturating | src/UI/ProgressBar/ProgressBar.cpp:175-184 | the step computed without wrap-around: it keeps a valid bar in range and moves the position in the direction of the increment |
| ProgressBar.StepAgreesWithoutOverflow | src/UI/ProgressBar/ProgressBar.cpp:181-182 | whenever the sum fits in an `int`, the source's step and the saturating step agree exactly |
| Select.NewSelect | src/UI/Select/Select.cpp:8-12 | a new object has the given text, no items, selected index -1, no link and no combo box |
| Select.AddItem | src/UI/Select/Select.cpp:84-92 | exactly one item is appended at the end, in the combo box too when it exists; selection and text are kept; the invariant is preserved |
| Select.SetText | src/UI/Select/Select.cpp:94-100 | only the text changes; `Select.SetTextOverridden` shows a later pick or update replaces it |
| Select.SetTextOverridden | src/UI/Select/Select.cpp:94-100 | `setText` changes only the text, and the next pick or update from a non-empty linked list replaces it by an item |
| Select.Clear | src/UI/Select/Select.cpp:102-110 | items empty and index -1, in the combo box too, while the text and the link are kept |
| Select.UpdateItems | src/UI/Select/Select.cpp:120-143 | without a link nothing changes; with one the items become an exact copy of the linked list, and the first item is selected and shown, or index -1 and empty text for an empty list |
| Select.UpdateItemsIdempotent | src/UI/Select/Select.cpp:120-143 | updating twice from the same list is updating once |
| Select.UpdateItemsForgetsHistory | src/UI/Select/Select.cpp:124-132 | with a link, items added or cleared beforehand do not affect the result of an update |
| Select.Link | src/UI/Select/Select.cpp:111-118 | records whether a list is linked, and updates from it only when the combo box already exists |
| Select.Create | src/UI/Select/Select.cpp:21-64 | a failed creation leaves no combo box, even when one existed, and changes nothing else; otherwise the combo box lists the items and re-selects the stored index only when it names an item, then a linked list replaces them |
| Select.FailedCreateDetaches | src/UI/Select/Select.cpp:26-41 | after a failed creation on an object with a combo box, adding an item touches only the stored items; a later successful creation brings the combo box back |
| Select.HandleSelection | src/UI/Select/Select.cpp:66-82 | a change is reported iff the combo box has a selection, and then the object takes its index and item text; nothing changes otherwise |
| Select.PickSelects | src/UI/Select/Select.cpp:66-82 | picking item i and handling the notification selects exactly item i, with its text, keeping the items |
| Chart.NewChart | src/UI/Chart/Chart.h:58-67 | a new chart has no points, a 30-second window, autoscaling on and manual bounds 0 to 10 |
| Chart.StaleCount | src/UI/Chart/Chart.cpp:122-124 | counts the points before the first one not older than the cutoff: all counted ones are older, the next one is not |
| Chart.Prune | src/UI/Chart/Chart.cpp:113-125 | what is left is a suffix of the series in its order, everything dropped was older than the cutoff, and the first point left is not |
| Chart.PruneScan | src/UI/Chart/Chart.cpp:122-124 | the pop-front loop computes exactly the pruned suffix |
| Chart.StaleCountUnique | src/UI/Chart/Chart.cpp:122-124 | the maximal stale prefix is unique, so pruning removes exactly it |
| Chart.PrunedWithinWindow | src/UI/Chart/Chart.cpp:119-122 | on a series in time order, every point left is within the window |
| Chart.PruneIdempotent | src/UI/Chart/Chart.cpp:114-124 | pruning twice at one cutoff is pruning once, and an empty series stays empty |
| Chart.PruneSorted | src/UI/Chart/Chart.cpp:122-124 | pruning keeps a series in time order |
| Chart.AddDataPoint | src/UI/Chart/Chart.cpp:85-94 | only the points change: they are the old series plus the new point at the back, pruned against the window at the pruning instant |
| Chart.AddedPointKept | src/UI/Chart/Chart.cpp:86-94 | the new point survives as the last one whenever it lies within the window |
| Chart.NegativeWindowEmpties | src/UI/Chart/Chart.cpp:118-124 | with a negative window even the point just added is pruned, leaving no points |
| Chart.AddKeepsSorted | src/UI/Chart/Chart.cpp:85-94 | with a clock that never runs backwards, adding keeps the series in time order |
| Chart.Clear | src/UI/Chart/Chart.cpp:127-133 | no points remain and the window, bounds and scaling are kept; `Chart.ClearThenAdd` shows the next point is then the only one |
| Chart.ClearThenAdd | src/UI/Chart/Chart.cpp:127-133 | after `clear` the axis shows the manual bounds, and a new point within the window is then the only one |
| Chart.SetTimeWindow | src/UI/Chart/Chart.h:39 | only the window changes; stored points are untouched until the next addition |
| Chart.WindowAppliesOnNextAdd | src/UI/Chart/Chart.h:39 | after a new window is set, the next addition leaves only points within that window |
| Chart.SetAutoScale | src/UI/Chart/Chart.h:41 | only the autoscale flag changes; the manual bounds survive |
| Chart.AutoScaleToggle | src/UI/Chart/Chart.h:41-46 | turning autoscaling back on after `setYRange` lets data drive the axis, and turning it off again restores the range that was set |
| Chart.YBounds | src/UI/Chart/Chart.cpp:145-179 | the axis uses the manual bounds exactly when there is no data or autoscaling is off |
| Chart.SetYRange | src/UI/Chart/Chart.h:42-46 | both manual bounds set and autoscaling switched off, nothing else; `Chart.SetYRangeSticks` shows the axis then keeps that range |
| Chart.SetYRangeSticks | src/UI/Chart/Chart.h:42-46 | after `setYRange` the axis shows exactly that range, also after further data arrives |
| ImageView.NewView | src/UI/ImageView/ImageView.cpp:111-117 | a new view holds no image, records size 0 by 0 and uses the aspect-fit mode |
| ImageView.HasImage | src/UI/ImageView/ImageView.cpp:478-480 | an image is shown exactly while a bitmap is held; `ImageView.FailedLoadNoImage` and `ImageView.Place` rely on it |
| ImageView.Cleanup | src/UI/ImageView/ImageView.cpp:130-138 | afterwards there is no image and the recorded size is 0 by 0; the scale mode is kept |
| ImageView.ClearImage | src/UI/ImageView/ImageView.cpp:421-429 | `clear` leaves no image and size 0 by 0, keeping the scale mode |
| ImageView.SetScaleMode | src/UI/ImageView/ImageView.cpp:431-441 | only the scale mode changes |
| ImageView.ToInt | src/UI/ImageView/ImageView.cpp:323-324 | an unsigned size above the largest `int` becomes negative by wrap-around; smaller sizes are kept |
| ImageView.LoadGdi | src/UI/ImageView/ImageView.cpp:297-342 | the load reports success iff the bitmap was decoded and converted, and an image is held iff it succeeded; an undecoded file leaves the cleaned-up view; a decoded one records its size |
| ImageView.FailedLoadNoImage | src/UI/ImageView/ImageView.cpp:323-330 | a failed load holds no image, yet a failed conversion still records the decoded size |
| ImageView.LoadResource | src/UI/ImageView/ImageView.cpp:344-369 | success iff the resource bitmap loads; it then records the bitmap's size, and otherwise leaves the cleaned-up view |
| ImageView.Place | src/UI/ImageView/ImageView.cpp:209-263 | nothing is drawn iff there is no image; STRETCH fills the client from (0,0); ACTUAL_SIZE uses the image size at half the free space, or 0 when the image is larger; CENTER uses the image size with each offset half the free space, truncated toward zero, so within one pixel of centred whether the free space is positive or negative |
| ImageView.CenterBalanced | src/UI/ImageView/ImageView.cpp:256-262 | an image that fits is centred to within one pixel, the extra pixel on the right or bottom |
| ImageView.ActualMatchesCenterWhenFits | src/UI/ImageView/ImageView.cpp:227-230 | ACTUAL_SIZE and CENTER give the same rectangle whenever the image fits |
| ImageView.CenterCropsTruncating | src/UI/ImageView/ImageView.cpp:227-261 | a 13-pixel-wide image in a 10-pixel client is drawn at x = -1 by CENTER, since the division truncates, and at x = 0 by ACTUAL_SIZE |
| ImageView.CenterOverhangs | src/UI/ImageView/ImageView.cpp:256-262 | an image wider than the client overhangs both edges under CENTER, by amounts that differ by at most one pixel |

## Left out

- Threads. The HID, BLE and Serial worker threads, their stop flags, joins and sleeps are not modelled. Each thread body is one step function over inputs: `Ble.ScanThread`, `Ble.ConnectionAttempt`, `Ble.ScanFinished`, `Serial.ReaderPass`. The scan's duration timer is left out with them.
- Operating-system I/O. `CreateFile`, `ReadFile`/`WriteFile`, overlapped I/O, SetupAPI enumeration and port configuration are replaced by their results, given as parameters.
- Library loading. Loading `hid.dll`, `gdiplus.dll` and `shlwapi.dll` is replaced by its outcome (`Hid.DllLoad`, `ImageView.GdiLoad`).
- Serial.ReaderPass: models the reconnect the reader evidently intends at ten consecutive errors, not what the code does there. The code's behaviour is `Serial.ReaderPassAsWritten`; see Findings.
- The BLE notification thread and `onReceive`. They depend on GATT calls whose results are not visible here.
- `send` in BLE and Serial. Each only forwards to `write`, so `Ble.Write` and `Serial.WriteSerial` stand for both.
- Floating point:
  - `ValueDisplay::formatValue` and `setValueFormatter`. The value is stored but never printed, because fixed-precision printing of a `double` is not modelled.
  - Chart's 10% autoscale margins and its pixel projection.
  - ImageView's ASPECT_FIT placement.
- Rendering. `drawDisplay` beyond the status line, Chart's `render`/`drawGrid`/`drawAxes`/`drawData`, and the GDI calls of `ImageViewProc` beyond the destination rectangle are left out.
- Colour and style setters with no effect on the modelled state: ProgressBar's `setColor`, `setBackColor` and `setMarquee`; Chart's `setColors`; ImageView's `setBorderStyle` and `setBackgroundColor`.
- Widget creation and forwarding. Window classes, control ids, fonts and message boxes are left out; only the item lists sent to a control are kept (`Select.ComboBox`).
- UTF-8/UTF-16 conversion. It is a wrapper over `MultiByteToWideChar`/`WideCharToMultiByte`. Text is a sequence of characters throughout.
- ConfigManager file streams:
  - the file is a sequence of lines or its newline-joined text;
  - the text-mode CR/LF translation is left out;
  - so is the save the destructor makes.
- Chart's refresh throttle. It uses fields that `Chart.h` does not declare.
- The clock tick. Chart timestamps are integer nanoseconds, the usual `steady_clock` resolution; other resolutions only scale the window.
- Ble.Narrow: a character outside the Basic Multilingual Plane is one element of the model's text, but two UTF-16 code units, and so two narrowed bytes, in the source.
- Ble.IsOwon: `towlower` is modelled on ASCII letters only (`Strings.LowerChar`), which is all the "owon"/"ow18b" test needs.
- Serial.ReaderPass: `errors` from `ClearCommError` is an input even when that call fails. The source then reads an uninitialised variable.
- Serial.ReaderPass: the exception path's unbounded counter is an unbounded integer. A C++ `int` would overflow only after about 2^31 consecutive exceptions.
- Serial.ReadSerial: requires that `ReadFile` report at most the requested number of bytes, which is what the system call guarantees.
- Serial.ReaderPass: requires the same of each poll (at most the queued bytes, and at most 256).
- Hid.GetFeatureReport: requires that `HidD_GetFeature` hand back a buffer of the length it was given, as the system call does.
- Hid.SetFeatureReportSize: the report size is an unbounded `nat`. The `size_t` overflow of `1 + size` at the top of its range is not modelled.
- Select.HandleSelection: requires a combo box, because it runs only on that box's change notification.
- Select.HandleSelection: does not model the 256-character buffer for the item text; items are taken whole.
- ValueDisplay.UpdateFullDisplay: requires the status list in key order, as every `std::map` is.
- Chart.YBounds: with data and autoscaling on, it says only that the bounds come from the data, not their floating-point value.
- ImageView.Place: for ASPECT_FIT it says only that the fit is computed in floating point.
- ImageView.Place: the client and image sizes are unbounded integers, so an `int` overflow of `client - image` is not modelled. It would need sizes near 2^31.

## Findings

| source | as written | input that shows it | evidently intended | confidence | as-written member | corrected member |
|---|---|---|---|---|---|---|
| src/UI/ProgressBar/ProgressBar.cpp:182 | `setProgress(m_value + increment)` adds in `int`, so a sum past the largest `int` wraps around before the clamp | a bar with range 0..2147483647 at position 2147483647, `step(1)` with no native control: the sum wraps to -2147483648 and is clamped to 0 | the sum limited to the range, so the bar stays at its maximum | medium, not executed (signed overflow is undefined in C++; two's-complement wrap-around is what common compilers produce) | ProgressBar.StepOverflowWraps | ProgressBar.StepSaturating |
| src/IO/Serial/Serial.cpp:265 | at ten consecutive errors the reader thread calls `disconnect`, which finds the reader thread joinable, raises the stop flag and joins it (lines 127-129): the thread joins itself, `std::thread::join` throws `std::system_error`, and the handler at lines 273-276 counts the error again; the sleep, `connect` and reset at lines 266-268 never run | an open port whose `ClearCommError` reports errors on ten passes in a row: the tenth pass ends the reader with the counter at 11, while the handle stays open and `isConnected` stays true with no reader | close the port, wait, reopen it and clear the counter, so the reader keeps running | high, not executed (a self-join reports `resource_deadlock_would_occur`) | Serial.TenErrorsStopReader | Serial.TenErrorsReconnectOnce |
