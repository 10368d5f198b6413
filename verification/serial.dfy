/** `Serial`: a COM port opened and configured on `connect`, closed on
    `disconnect`, written and read in blocking calls, and polled by a
    reader loop that counts consecutive communication errors.

    Every system call's result is an input: the outcome of opening and
    configuring the port, the byte counts of `WriteFile` and `ReadFile`,
    what `ClearCommError` reports, and the friendly names the device
    registry lists.  Message boxes and callbacks are `Event`s. */
module Serial {
  import opened Wrappers
  import opened Strings
  import StringUtils

  type u8 = x: int | 0 <= x < 0x100

  /** `ERROR_FILE_NOT_FOUND` and `ERROR_ACCESS_DENIED`. */
  const ErrorFileNotFound: nat := 2
  const ErrorAccessDenied: nat := 5

  /** The reader's buffer size and its fault threshold. */
  const ReadBufferSize: nat := 256
  const MaxConsecutiveErrors: int := 10

  /** What happened to the port: the callbacks, and the text of each
      message box (all titled "B\U{0142}\U{0105}d po\U{0142}\U{0105}czenia"). */
  datatype Event = Connect | Disconnect | Dialog(text: String)

  /** The object's state.  `readerRunning` says the reader thread exists. */
  datatype Serial = Serial(
    portName: String,
    handleValid: bool,
    connected: bool,
    readerRunning: bool,
    ports: seq<String>)

  /** A valid handle, the connected flag and the reader thread come and go
      together. */
  predicate Valid(s: Serial) {
    s.handleValid == s.connected == s.readerRunning
  }

  /** The constructed object. */
  function NewSerial(): (r: Serial)
    ensures Valid(r) && !r.connected && r.portName == [] && r.ports == []
  {
    Serial([], false, false, false, [])
  }

  /** `setPort`: records the name `connect` will open; an open session is
      left as it is. */
  function SetPort(s: Serial, name: String): (r: Serial)
    ensures r.portName == name
    ensures r.handleValid == s.handleValid && r.connected == s.connected && r.ports == s.ports
  {
    s.(portName := name)
  }

  // ---------------------------------------------------------------------
  // connect / disconnect
  // ---------------------------------------------------------------------

  /** `disconnect`: stops the reader, fires `onDisconnect` if a valid handle
      belonged to a connected session, and leaves no handle and no session. */
  function DisconnectSerial(s: Serial): (r: (Serial, seq<Event>))
    ensures r.0 == s.(handleValid := false, connected := false, readerRunning := false)
    ensures r.1 == (if s.handleValid && s.connected then [Disconnect] else [])
    ensures Valid(r.0)
  {
    (s.(handleValid := false, connected := false, readerRunning := false),
     if s.handleValid && s.connected then [Disconnect] else [])
  }

  /** Disconnecting twice is disconnecting once. */
  lemma DisconnectIdempotent(s: Serial)
    ensures DisconnectSerial(DisconnectSerial(s).0) == (DisconnectSerial(s).0, [])
  {
  }

  /** How far opening and configuring the port gets: the first failing call
      with its system error code, or all of them succeed. */
  datatype PortSetup =
    | OpenFailed(code: nat)
    | GetStateFailed(code: nat)
    | SetStateFailed(code: nat)
    | TimeoutsFailed(code: nat)
    | Ready

  /** The message box text for a port that cannot be opened. */
  function OpenFailureText(port: String, code: nat): String {
    var detail :=
      if code == ErrorFileNotFound then "Port nie istnieje lub jest niedost\U{0119}pny."
      else if code == ErrorAccessDenied then "Dost\U{0119}p zabroniony. Port mo\U{017C}e by\U{0107} ju\U{017C} u\U{017C}ywany przez inn\U{0105} aplikacj\U{0119}."
      else "Kod b\U{0142}\U{0119}du: " + NatToString(code);
    "Nie uda\U{0142}o si\U{0119} otworzy\U{0107} portu " + port + "!\n" + detail
  }

  /** The message box text for the step that failed. */
  function FailureText(port: String, setup: PortSetup): String
    requires setup != Ready
  {
    match setup
    case OpenFailed(code) => OpenFailureText(port, code)
    case GetStateFailed(code) => "B\U{0142}\U{0105}d podczas pobierania stanu portu COM! Kod b\U{0142}\U{0119}du: " + NatToString(code)
    case SetStateFailed(code) => "B\U{0142}\U{0105}d podczas konfiguracji portu COM! Kod b\U{0142}\U{0119}du: " + NatToString(code)
    case TimeoutsFailed(code) => "B\U{0142}\U{0105}d podczas konfiguracji timeout\U{00F3}w! Kod b\U{0142}\U{0119}du: " + NatToString(code)
  }

  const NoPortText: String := "Nie wybrano portu COM! Wybierz port z listy przed pr\U{00F3}b\U{0105} po\U{0142}\U{0105}czenia."

  /** The events of closing a handle that is still open before reopening. */
  function Reopening(s: Serial): seq<Event> {
    if s.handleValid then DisconnectSerial(s).1 else []
  }

  /** `connect`.  Without a port name: a message box and nothing else.
      Otherwise an open port is disconnected first, and then any failing
      step shows its message box and leaves no handle; success connects,
      starts the reader and fires `onConnect`. */
  function ConnectSerial(s: Serial, setup: PortSetup): (r: (Serial, bool, seq<Event>))
    ensures s.portName == [] ==> r == (s, false, [Dialog(NoPortText)])
    ensures s.portName != [] ==> (r.1 <==> setup == Ready)
    ensures s.portName != [] && setup == Ready ==>
      && r.0 == s.(handleValid := true, connected := true, readerRunning := true)
      && r.2 == Reopening(s) + [Connect]
    ensures s.portName != [] && setup != Ready ==>
      && !r.0.handleValid
      && r.0.connected == (s.connected && !s.handleValid)
      && r.2 == Reopening(s) + [Dialog(FailureText(s.portName, setup))]
    ensures r.0.portName == s.portName && r.0.ports == s.ports
    ensures Valid(s) ==> Valid(r.0)
  {
    if s.portName == [] then (s, false, [Dialog(NoPortText)])
    else
      var c := if s.handleValid then DisconnectSerial(s).0 else s;
      if setup == Ready then
        (c.(handleValid := true, connected := true, readerRunning := true), true, Reopening(s) + [Connect])
      else
        (c.(handleValid := false), false, Reopening(s) + [Dialog(FailureText(s.portName, setup))])
  }

  /** A failed `connect` fires no connect callback.  Once a port name is
      set, it also leaves no handle and no session on a valid state; without
      one, an open session survives the refused call. */
  lemma FailedConnectLeavesNothing(s: Serial, setup: PortSetup)
    requires Valid(s)
    requires !ConnectSerial(s, setup).1
    ensures var r := ConnectSerial(s, setup);
      && Connect !in r.2
      && (s.portName != [] ==> !r.0.handleValid && !r.0.connected && !r.0.readerRunning)
      && (s.portName == [] ==> r.0.connected == s.connected)
  {
    if s.portName != [] {
      var last := Dialog(FailureText(s.portName, setup));
      assert Connect !in Reopening(s) + [last];
    }
  }

  /** Whether `connect` succeeds after `setPort(name)` depends only on the
      name being non-empty and on the port coming up. */
  lemma SetPortThenConnect(s: Serial, name: String, setup: PortSetup)
    ensures ConnectSerial(SetPort(s, name), setup).1 <==> name != [] && setup == Ready
    ensures name == [] ==> ConnectSerial(SetPort(s, name), setup).2 == [Dialog(NoPortText)]
  {
  }

  /** Connecting twice with the same outcome: the second call first closes
      what the first opened, reporting the disconnection. */
  lemma ReconnectClosesFirst(s: Serial)
    requires Valid(s) && s.portName != []
    ensures var first := ConnectSerial(s, Ready).0;
      ConnectSerial(first, Ready).2 == [Disconnect, Connect]
  {
  }

  // ---------------------------------------------------------------------
  // write / read
  // ---------------------------------------------------------------------

  /** `write`: false without a valid handle and a session; otherwise true
      exactly when `WriteFile` reports every byte written (`written` is
      `None` when it fails). */
  function WriteSerial(s: Serial, data: seq<u8>, written: Option<nat>): (r: bool)
    ensures r <==> s.handleValid && s.connected && written == Some(|data|)
  {
    if !s.handleValid || !s.connected then false
    else match written
      case None => false
      case Some(n) => n == |data|
  }

  /** `read(data, bytesToRead)`.  Without a session it returns false and
      leaves the caller's buffer alone.  Otherwise `ReadFile` fills at most
      `bytesToRead` bytes (`got`, `None` on failure): a non-empty read is
      returned as the buffer; anything else empties it. */
  function ReadSerial(s: Serial, buffer: seq<u8>, bytesToRead: nat, got: Option<seq<u8>>): (r: (bool, seq<u8>))
    requires got.Some? ==> |got.value| <= bytesToRead
    ensures !(s.handleValid && s.connected) ==> r == (false, buffer)
    ensures r.0 ==> got.Some? && r.1 == got.value && 1 <= |r.1| <= bytesToRead
    ensures s.handleValid && s.connected ==> (r.0 <==> got.Some? && |got.value| > 0)
    ensures s.handleValid && s.connected && !r.0 ==> r.1 == []
  {
    if !s.handleValid || !s.connected then (false, buffer)
    else match got
      case Some(bytes) => if |bytes| > 0 then (true, bytes) else (false, [])
      case None => (false, [])
  }

  // ---------------------------------------------------------------------
  // The reader loop's error counter
  // ---------------------------------------------------------------------

  /** What one pass of the reader loop observes.  `Closed`: no handle or no
      session.  `Queued`: `ClearCommError` succeeded with bytes waiting, and
      the read of the requested bytes gave `got`.  `Quiet`: nothing queued
      (or `ClearCommError` failed) with the error mask `errors`.  `Threw`:
      an exception escaped the pass. */
  datatype Poll =
    | Closed
    | Queued(inQueue: nat, got: Option<seq<u8>>)
    | Quiet(errors: nat)
    | Threw

  /** A `Queued` poll never reports more bytes than the pass asked for. */
  predicate WellFormed(p: Poll) {
    p.Queued? ==> p.inQueue > 0 && (p.got.Some? ==> |p.got.value| <= Min(ReadBufferSize, p.inQueue))
  }

  function Min(a: nat, b: nat): nat {
    if a <= b then a else b
  }

  /** The effect of one pass: the new counter, how many bytes it asked for,
      the frame it delivered, and whether it reconnected the port. */
  datatype Pass = Pass(errors: int, requested: nat, delivered: Option<seq<u8>>, reconnect: bool)

  /** One pass of `readThreadFunction` as intended.  Bytes waiting are read
      up to the buffer size; a non-empty read is delivered and clears the
      counter.  A quiet pass with errors counts one, and at the threshold
      reconnects and clears it.  An exception counts one without the
      threshold test.  The threshold branch is what the code evidently
      means; `ReaderPassAsWritten` is what it does. */
  function ReaderPass(counter: int, p: Poll): (r: Pass)
    requires WellFormed(p)
    ensures p.Closed? ==> r == Pass(counter, 0, None, false)
    ensures p.Queued? ==> r.requested == Min(ReadBufferSize, p.inQueue) && !r.reconnect
    ensures p.Queued? ==> (r.delivered.Some? <==> p.got.Some? && |p.got.value| > 0)
    ensures p.Queued? && r.delivered.Some? ==> r.delivered == p.got && r.errors == 0
    ensures p.Queued? && r.delivered.None? ==> r.errors == counter
    ensures p.Quiet? ==> r.requested == 0 && r.delivered.None?
    ensures p.Quiet? && p.errors == 0 ==> r == Pass(counter, 0, None, false)
    ensures p.Quiet? && p.errors > 0 ==>
      (r.reconnect <==> counter + 1 >= MaxConsecutiveErrors)
      && r.errors == (if counter + 1 >= MaxConsecutiveErrors then 0 else counter + 1)
    ensures p.Threw? ==> r == Pass(counter + 1, 0, None, false)
  {
    match p
    case Closed => Pass(counter, 0, None, false)
    case Queued(n, got) =>
      var want := Min(ReadBufferSize, n);
      if got.Some? && |got.value| > 0 then Pass(0, want, got, false)
      else Pass(counter, want, None, false)
    case Quiet(errors) =>
      if errors > 0 then
        if counter + 1 >= MaxConsecutiveErrors then Pass(0, 0, None, true)
        else Pass(counter + 1, 0, None, false)
      else Pass(counter, 0, None, false)
    case Threw => Pass(counter + 1, 0, None, false)
  }

  /** The loop: passes in order, collecting the final counter and, per
      pass, whether it reconnected. */
  function RunReader(counter: int, polls: seq<Poll>): (r: (int, seq<bool>))
    requires forall i :: 0 <= i < |polls| ==> WellFormed(polls[i])
    ensures |r.1| == |polls|
    decreases |polls|
  {
    if |polls| == 0 then (counter, [])
    else
      var pass := ReaderPass(counter, polls[0]);
      var rest := RunReader(pass.errors, polls[1..]);
      (rest.0, [pass.reconnect] + rest.1)
  }

  /** A pass that saw communication errors. */
  const ErrorPoll: Poll := Quiet(1)

  function ErrorPolls(k: nat): (r: seq<Poll>)
    ensures |r| == k && forall i :: 0 <= i < k ==> r[i] == ErrorPoll
  {
    seq(k, _ => ErrorPoll)
  }

  /** Below the threshold, error passes only count. */
  lemma {:induction false} ErrorsBelowThreshold(counter: int, k: nat)
    requires 0 <= counter && counter + k < MaxConsecutiveErrors
    ensures RunReader(counter, ErrorPolls(k)).0 == counter + k
    ensures forall i :: 0 <= i < k ==> !RunReader(counter, ErrorPolls(k)).1[i]
    decreases k
  {
    if k > 0 {
      assert ErrorPolls(k)[1..] == ErrorPolls(k - 1);
      ErrorsBelowThreshold(counter + 1, k - 1);
    }
  }

  /** Ten error passes in a row from a clear counter reconnect exactly once,
      on the tenth, and leave the counter clear. */
  lemma TenErrorsReconnectOnce()
    ensures RunReader(0, ErrorPolls(10)).0 == 0
    ensures forall i :: 0 <= i < 9 ==> !RunReader(0, ErrorPolls(10)).1[i]
    ensures RunReader(0, ErrorPolls(10)).1[9]
  {
    var polls := ErrorPolls(10);
    assert polls == ErrorPolls(9) + [ErrorPoll];
    RunReaderAppend(0, ErrorPolls(9), [ErrorPoll]);
    ErrorsBelowThreshold(0, 9);
  }

  /** Running two stretches of passes is running the first, then the second
      from where the first left the counter. */
  lemma {:induction false} RunReaderAppend(counter: int, a: seq<Poll>, b: seq<Poll>)
    requires forall i :: 0 <= i < |a| ==> WellFormed(a[i])
    requires forall i :: 0 <= i < |b| ==> WellFormed(b[i])
    ensures forall i :: 0 <= i < |a + b| ==> WellFormed((a + b)[i])
    ensures RunReader(counter, a + b) ==
      (RunReader(RunReader(counter, a).0, b).0, RunReader(counter, a).1 + RunReader(RunReader(counter, a).0, b).1)
    decreases |a|
  {
    if |a| == 0 {
      assert a + b == b;
      assert RunReader(counter, a) == (counter, []);
      assert [] + RunReader(counter, b).1 == RunReader(counter, b).1;
    } else {
      assert (a + b)[0] == a[0];
      assert (a + b)[1..] == a[1..] + b;
      var pass := ReaderPass(counter, a[0]);
      RunReaderAppend(pass.errors, a[1..], b);
      var tail := RunReader(pass.errors, a[1..]);
      assert RunReader(counter, a + b) == (RunReader(pass.errors, a[1..] + b).0, [pass.reconnect] + RunReader(pass.errors, a[1..] + b).1);
      assert RunReader(counter, a) == (tail.0, [pass.reconnect] + tail.1);
      var later := RunReader(tail.0, b).1;
      assert [pass.reconnect] + (tail.1 + later) == ([pass.reconnect] + tail.1) + later;
    }
  }

  /** Passes other than exceptions keep the counter between 0 and 9. */
  lemma CounterBounded(counter: int, p: Poll)
    requires 0 <= counter < MaxConsecutiveErrors && WellFormed(p) && !p.Threw?
    ensures 0 <= ReaderPass(counter, p).errors < MaxConsecutiveErrors
  {
  }

  /** Exceptions alone can push the counter past the threshold, and the
      next error pass then reconnects at once (as written, it stops the
      reader instead). */
  lemma ExceptionsOvershoot()
    ensures RunReader(0, seq(12, _ => Threw)).0 == 12
    ensures ReaderPass(12, ErrorPoll).reconnect
    ensures ReaderPassAsWritten(12, ErrorPoll).1
  {
    var polls: seq<Poll> := seq(12, _ => Threw);
    ExceptionsCount(0, 12);
  }

  /** Each exception pass adds one to the counter. */
  lemma {:induction false} ExceptionsCount(counter: int, k: nat)
    ensures RunReader(counter, seq(k, _ => Threw)).0 == counter + k
    decreases k
  {
    if k > 0 {
      var polls: seq<Poll> := seq(k, _ => Threw);
      assert polls[1..] == seq(k - 1, _ => Threw);
      ExceptionsCount(counter + 1, k - 1);
    }
  }

  // ---------------------------------------------------------------------
  // The threshold pass as the code has it
  // ---------------------------------------------------------------------

  /** A quiet pass with errors that brings the counter to the threshold. */
  predicate AtThreshold(counter: int, p: Poll) {
    p.Quiet? && p.errors > 0 && counter + 1 >= MaxConsecutiveErrors
  }

  /** One pass of `readThreadFunction` as written, paired with whether the
      loop ends after it.  At the threshold the reader calls `disconnect`
      on its own thread.  The reader thread is joinable, so `disconnect`
      raises the stop flag and joins the calling thread, and that join
      throws.  The handler counts the error a second time, the reconnect
      after the call never runs, and the raised flag ends the loop.  Any
      other pass is the intended `ReaderPass`. */
  function ReaderPassAsWritten(counter: int, p: Poll): (r: (Pass, bool))
    requires WellFormed(p)
    ensures !r.0.reconnect
    ensures r.1 <==> AtThreshold(counter, p)
    ensures r.1 ==> r.0.errors == counter + 2 && r.0.requested == 0 && r.0.delivered.None?
    ensures !r.1 ==> r.0 == ReaderPass(counter, p)
  {
    if AtThreshold(counter, p) then (Pass(counter + 2, 0, None, false), true)
    else (ReaderPass(counter, p), false)
  }

  /** The loop as written: the final counter and how many passes ran
      before it stopped on its own. */
  function RunReaderAsWritten(counter: int, polls: seq<Poll>): (r: (int, nat))
    requires forall i :: 0 <= i < |polls| ==> WellFormed(polls[i])
    ensures r.1 <= |polls|
    decreases |polls|
  {
    if |polls| == 0 then (counter, 0)
    else
      var pass := ReaderPassAsWritten(counter, polls[0]);
      if pass.1 then (pass.0.errors, 1)
      else
        var rest := RunReaderAsWritten(pass.0.errors, polls[1..]);
        (rest.0, 1 + rest.1)
  }

  /** The written loop ends early only right after a quiet pass with
      errors: exceptions, reads and closed passes never stop it. */
  lemma {:induction false} AsWrittenStopsOnlyOnErrors(counter: int, polls: seq<Poll>)
    requires forall i :: 0 <= i < |polls| ==> WellFormed(polls[i])
    ensures var n := RunReaderAsWritten(counter, polls).1;
      n < |polls| ==> 0 < n && polls[n - 1].Quiet? && polls[n - 1].errors > 0
    decreases |polls|
  {
    if |polls| > 0 {
      var pass := ReaderPassAsWritten(counter, polls[0]);
      if !pass.1 {
        AsWrittenStopsOnlyOnErrors(pass.0.errors, polls[1..]);
        var n := RunReaderAsWritten(pass.0.errors, polls[1..]).1;
        if n < |polls| - 1 {
          assert polls[1..][n - 1] == polls[n];
        }
      }
    }
  }

  /** Below the threshold the written loop counts error passes just as the
      intended one does, and keeps running. */
  lemma {:induction false} AsWrittenBelowThreshold(counter: int, k: nat, rest: seq<Poll>)
    requires 0 <= counter && counter + k < MaxConsecutiveErrors
    requires forall i :: 0 <= i < |rest| ==> WellFormed(rest[i])
    ensures forall i :: 0 <= i < |ErrorPolls(k) + rest| ==> WellFormed((ErrorPolls(k) + rest)[i])
    ensures RunReaderAsWritten(counter, ErrorPolls(k) + rest)
      == (RunReaderAsWritten(counter + k, rest).0, k + RunReaderAsWritten(counter + k, rest).1)
    decreases k
  {
    var polls := ErrorPolls(k) + rest;
    ErrorPollsWellFormed(k, rest);
    if k == 0 {
      assert polls == rest;
    } else {
      assert polls[0] == ErrorPoll;
      assert polls[1..] == ErrorPolls(k - 1) + rest;
      var pass := ReaderPassAsWritten(counter, ErrorPoll);
      assert !pass.1 && pass.0.errors == counter + 1;
      AsWrittenBelowThreshold(counter + 1, k - 1, rest);
    }
  }

  /** Error passes put in front of well-formed polls keep them well formed. */
  lemma ErrorPollsWellFormed(k: nat, rest: seq<Poll>)
    requires forall i :: 0 <= i < |rest| ==> WellFormed(rest[i])
    ensures forall i :: 0 <= i < |ErrorPolls(k) + rest| ==> WellFormed((ErrorPolls(k) + rest)[i])
  {
    var polls := ErrorPolls(k) + rest;
    forall i | 0 <= i < |polls|
      ensures WellFormed(polls[i])
    {
      if i >= k {
        assert polls[i] == rest[i - k];
      }
    }
  }

  /** Ten error passes in a row from a clear counter, whatever follows: the
      written loop never reconnects.  It stops on the tenth pass with the
      counter at 11, while the intended loop reconnects there and clears
      the counter. */
  lemma TenErrorsStopReader(rest: seq<Poll>)
    requires forall i :: 0 <= i < |rest| ==> WellFormed(rest[i])
    ensures forall i :: 0 <= i < |ErrorPolls(10) + rest| ==> WellFormed((ErrorPolls(10) + rest)[i])
    ensures RunReaderAsWritten(0, ErrorPolls(10) + rest) == (11, 10)
    ensures ReaderPass(9, ErrorPoll) == Pass(0, 0, None, true)
  {
    var tail := ErrorPolls(1) + rest;
    ErrorPollsWellFormed(1, rest);
    assert ErrorPolls(10) + rest == ErrorPolls(9) + tail;
    AsWrittenBelowThreshold(0, 9, tail);
    assert tail[0] == ErrorPoll;
  }

  /** The state the written threshold pass leaves: the reader has returned,
      but the handle is still open and the session still marked connected,
      since `disconnect` threw before closing either. */
  function ReaderStoppedAsWritten(s: Serial): (r: Serial)
    ensures r.handleValid == s.handleValid && r.connected == s.connected
    ensures r.portName == s.portName && r.ports == s.ports
    ensures !r.readerRunning
  {
    s.(readerRunning := false)
  }

  /** After the written threshold pass an open session is left without a
      reader, which breaks `Valid`; only a later `disconnect` from another
      thread closes the port and restores it. */
  lemma SelfJoinLeavesPortOpen(s: Serial)
    requires Valid(s) && s.connected
    ensures var r := ReaderStoppedAsWritten(s);
      && r.handleValid && r.connected && !r.readerRunning
      && !Valid(r)
      && DisconnectSerial(r).1 == [Disconnect]
      && Valid(DisconnectSerial(r).0)
  {
  }

  // ---------------------------------------------------------------------
  // updateComPorts
  // ---------------------------------------------------------------------

  /** What one registry entry contributes: its port name when its friendly
      name (a zero-filled C buffer) contains "COM" and yields a non-empty
      port name. */
  function PortEntry(friendlyName: String): (r: Option<String>)
    ensures r.Some? ==> 3 <= |r.value| <= StringUtils.MaxPortName && r.value[..3] == "COM"
    ensures r.Some? <==> Contains(StringUtils.CText(friendlyName), "COM")
  {
    var text := StringUtils.CText(friendlyName);
    if Contains(text, "COM") then
      var port := StringUtils.ExtractComPort(Some(friendlyName));
      if port != [] then Some(port) else None
    else None
  }

  /** The "contains COM" test adds nothing: an entry contributes exactly
      when `extractComPort` finds a port. */
  lemma PortEntryIsExtract(friendlyName: String)
    ensures var port := StringUtils.ExtractComPort(Some(friendlyName));
      PortEntry(friendlyName) == if port != [] then Some(port) else None
  {
  }

  /** The port list for the registry's friendly names, in enumeration order. */
  function PortList(names: seq<String>): (r: seq<String>)
    ensures |r| <= |names|
    ensures forall i :: 0 <= i < |r| ==> 3 <= |r[i]| <= StringUtils.MaxPortName && r[i][..3] == "COM"
    decreases |names|
  {
    if |names| == 0 then []
    else
      match PortEntry(names[0])
      case None => PortList(names[1..])
      case Some(p) => [p] + PortList(names[1..])
  }

  /** Listing two stretches of entries gives the two lists in order. */
  lemma {:induction false} PortListAppend(a: seq<String>, b: seq<String>)
    ensures PortList(a + b) == PortList(a) + PortList(b)
    decreases |a|
  {
    if |a| == 0 {
      assert a + b == b;
    } else {
      assert (a + b)[0] == a[0];
      assert (a + b)[1..] == a[1..] + b;
      PortListAppend(a[1..], b);
    }
  }

  /** `updateComPorts`: the list is cleared first, so a registry that cannot
      be opened leaves it empty; otherwise it is the port list of the names. */
  function UpdateComPorts(s: Serial, registry: Option<seq<String>>): (r: Serial)
    ensures r == s.(ports := r.ports)
    ensures registry.None? ==> r.ports == []
    ensures registry.Some? ==> r.ports == PortList(registry.value)
    ensures Valid(s) ==> Valid(r)
  {
    match registry
    case None => s.(ports := [])
    case Some(names) => s.(ports := PortList(names))
  }

  /** `init`: refreshes the port list and always reports success. */
  function InitSerial(s: Serial, registry: Option<seq<String>>): (r: (Serial, bool))
    ensures r.1
    ensures r.0.portName == s.portName && r.0.connected == s.connected
    ensures forall i :: 0 <= i < |r.0.ports| ==> 3 <= |r.0.ports[i]| && r.0.ports[i][..3] == "COM"
    ensures registry.None? ==> r.0.ports == []
    ensures registry.Some? ==> r.0.ports == PortList(registry.value)
    ensures r.0 == s.(ports := r.0.ports)
    ensures Valid(s) ==> Valid(r.0)
  {
    (UpdateComPorts(s, registry), true)
  }
}
