/**
 * The Android IUT controller (class `AndroidCtl` of
 * projects/android/iutctl.py) and the process-wide ID counter it draws from.
 *
 * The controller owns at most one BTP session: a socket to the BTP listener
 * in the on-device companion app and a worker that receives frames on it.
 * The socket and the worker classes are not part of this model; they are
 * abstract objects whose only state is what the controller can observe
 * (open or closed, how often closed, the handler registered, the frames read).
 * The adb processes are not run: their output text, and the frame the device
 * sends first, are parameters.
 */
module AndroidIutCtl {
  import opened Wrappers
  import opened PyStr
  import opened AndroidAdb
  import Stack

  // ---------------------------------------------------------------------------
  // The process-wide ID counter
  // ---------------------------------------------------------------------------

  /** The module global `ID` and `get_next_id`. */
  class IdCounter {
    var next: nat
    /** Every ID handed out so far. */
    ghost var issued: set<nat>

    ghost predicate Valid()
      reads this
    {
      forall i :: i in issued <==> 0 <= i < next
    }

    /** `ID = 0` at import time. */
    constructor ()
      ensures Valid() && next == 0 && issued == {}
    {
      next := 0;
      issued := {};
    }

    /** `get_next_id()`: the current value, after which the counter is one
        higher; so every ID is larger than, and distinct from, every ID
        returned before it. */
    method GetNextId() returns (id: nat)
      requires Valid()
      modifies this
      ensures Valid()
      ensures id == old(next) && next == old(next) + 1
      ensures forall j :: j in old(issued) ==> j < id
      ensures issued == old(issued) + {id}
    {
      id := next;
      next := next + 1;
      issued := issued + {id};
    }
  }

  // ---------------------------------------------------------------------------
  // The BTP session, abstracted
  // ---------------------------------------------------------------------------

  /** The header of a BTP frame. */
  datatype Header = Header(svcId: int, op: int)

  /** `defs.BTP_SERVICE_ID_CORE` */
  const ServiceIdCore: int := 0
  /** `defs.CORE_EV_IUT_READY` */
  const CoreEvIutReady: int := 0x80

  /** The frame the app sends once its BTP service is up. */
  predicate IsIutReady(h: Header)
  {
    h.svcId == ServiceIdCore && h.op == CoreEvIutReady
  }

  /** `BTPWebSocket(host, port)`: the connection to the device's BTP listener. */
  class BtpSocket {
    const host: string
    const port: int

    constructor (host: string, port: int)
      ensures this.host == host && this.port == port
    {
      this.host := host;
      this.port := port;
    }
  }

  /** `BTPEventHandler(controller)`: where the worker dispatches events. */
  class EventHandler {
    constructor ()
    {
    }
  }

  /** `BTPWorker(socket, name)`: receives frames on the socket in the background. */
  class BtpWorker {
    const socket: BtpSocket
    const name: string
    var isOpen: bool
    var accepting: bool
    var handler: EventHandler?
    /** How many times `close` was called. */
    var closes: nat
    /** The frame headers handed out by `read`, oldest first. */
    var framesRead: seq<Header>

    constructor (socket: BtpSocket, name: string)
      ensures this.socket == socket && this.name == name
      ensures !isOpen && !accepting && handler == null && closes == 0 && framesRead == []
    {
      this.socket := socket;
      this.name := name;
      isOpen := false;
      accepting := false;
      handler := null;
      closes := 0;
      framesRead := [];
    }

    method Open()
      modifies this
      ensures isOpen
      ensures accepting == old(accepting) && handler == old(handler)
      ensures closes == old(closes) && framesRead == old(framesRead)
    {
      isOpen := true;
    }

    method RegisterEventHandler(h: EventHandler)
      modifies this
      ensures handler == h
      ensures isOpen == old(isOpen) && accepting == old(accepting)
      ensures closes == old(closes) && framesRead == old(framesRead)
    {
      handler := h;
    }

    method Accept()
      modifies this
      ensures accepting
      ensures isOpen == old(isOpen) && handler == old(handler)
      ensures closes == old(closes) && framesRead == old(framesRead)
    {
      accepting := true;
    }

    /** `read()`: blocks until the background receiver hands over a frame;
        `next` is that frame. */
    method Read(next: Header) returns (hdr: Header)
      modifies this
      ensures hdr == next && framesRead == old(framesRead) + [next]
      ensures isOpen == old(isOpen) && accepting == old(accepting)
      ensures handler == old(handler) && closes == old(closes)
    {
      hdr := next;
      framesRead := framesRead + [next];
    }

    method Close()
      modifies this
      ensures !isOpen && !accepting && closes == old(closes) + 1
      ensures handler == old(handler) && framesRead == old(framesRead)
    {
      isOpen := false;
      accepting := false;
      closes := closes + 1;
    }
  }

  /** The name of a controller's receive thread. */
  function WorkerName(id: nat): string
  {
    "RxWorkerAndroid-" + DecimalString(id)
  }

  /** Controllers with different IDs name their receive threads differently. */
  lemma WorkerNameInjective(a: nat, b: nat)
    requires WorkerName(a) == WorkerName(b)
    ensures a == b
  {
    var n := |"RxWorkerAndroid-"|;
    assert DecimalString(a) == WorkerName(a)[n..];
    assert DecimalString(b) == WorkerName(b)[n..];
    DecimalStringInjective(a, b);
  }

  /** The command `_adb_open_bluetooth_settings` issues. */
  function SettingsCommand(sn: string): string
  {
    AdbPrefix(Some(sn)) + "shell am start -a android.settings.BLUETOOTH_SETTINGS"
  }

  // ---------------------------------------------------------------------------
  // The controller
  // ---------------------------------------------------------------------------

  /** `PORT_DEFAULT`: the port of the app's BTP listener. */
  const PortDefault: int := 8765

  /** Why constructing a controller failed. */
  datatype CtlError =
    /** `devices[self.id]` with fewer devices listed than the controller's ID. */
    IndexError

  /** The port a controller connects to: the argument when truthy, else the
      default, so never 0. */
  function ResolvePort(port: Option<int>): (p: int)
    ensures p != 0
    ensures port.Some? && port.value != 0 ==> p == port.value
    ensures port == None || port == Some(0) ==> p == PortDefault
  {
    if port.Some? && port.value != 0 then port.value else PortDefault
  }

  /** The serial a controller addresses: the argument when truthy, else the
      `id`-th device adb lists, or an IndexError when it lists fewer devices. */
  function ResolveSerial(serialNum: Option<string>, devices: seq<string>, id: nat)
    : (r: Result<string, CtlError>)
    ensures r.Ok? <==> IsTruthy(serialNum) || id < |devices|
    ensures IsTruthy(serialNum) ==> r == Ok(serialNum.value)
    ensures !IsTruthy(serialNum) && id < |devices| ==> r == Ok(devices[id])
  {
    if IsTruthy(serialNum) then Ok(serialNum.value)
    else if id < |devices| then Ok(devices[id])
    else Err(IndexError)
  }

  /** Whichever way it is resolved, the serial of a constructed controller is
      non-empty, so every adb command it issues selects its device. */
  lemma ResolvedSerialSelectsDevice(serialNum: Option<string>, devicesOutput: string, id: nat)
    requires ResolveSerial(serialNum, ParseDeviceList(devicesOutput), id).Ok?
    ensures var sn := ResolveSerial(serialNum, ParseDeviceList(devicesOutput), id).value;
      sn != [] && AdbPrefix(Some(sn)) == "adb -s " + sn + " "
  {
    var devices := ParseDeviceList(devicesOutput);
    var sn := ResolveSerial(serialNum, devices, id).value;
    assert sn != [] by {
      if !IsTruthy(serialNum) {
        assert sn == devices[id];
      }
    }
    AdbPrefixSerial(sn);
  }

  /** The example listing with no serial given: the first controller of the
      process addresses the one device listed. */
  lemma FirstControllerTakesListedDevice()
    ensures ResolveSerial(None, ParseDeviceList("List of devices attached\nABC123\tdevice"), 0)
            == Ok("ABC123")
  {
    SingleDeviceListing();
  }

  class AndroidCtl {
    const id: nat
    const serialNum: string
    const host: string
    const port: int
    const stack: Stack.Stack
    const eventHandler: EventHandler
    var btpSocket: BtpSocket?
    var btpWorker: BtpWorker?
    /** The adb command lines issued after construction, oldest first. */
    var commands: seq<string>
    /** For each entry of `commands`, the worker present when it was issued. */
    ghost var issuedUnder: seq<BtpWorker?>
    /** How many commands had been issued when a frame was last read. */
    ghost var commandsAtRead: nat
    /** The worker the latest `start` created. */
    ghost var lastWorker: BtpWorker?

    /** The session invariant: socket and worker are present together or
        absent together, and a present pair is connected, open and dispatching. */
    ghost predicate Valid()
      reads this, btpWorker
    {
      (btpSocket == null <==> btpWorker == null)
      && (btpWorker != null ==>
            btpWorker.socket == btpSocket
            && btpSocket.host == host && btpSocket.port == port
            && btpWorker.isOpen && btpWorker.accepting
            && btpWorker.handler == eventHandler)
    }

    /** The part of `__init__` after the serial, host and port are resolved:
        no session, a new Stack and a new event handler. */
    constructor (id: nat, serialNum: string, host: string, port: int)
      ensures Valid()
      ensures this.id == id && this.serialNum == serialNum
      ensures this.host == host && this.port == port
      ensures btpSocket == null && btpWorker == null && lastWorker == null
      ensures fresh(stack) && stack.Present() == Stack.Presence(false, false, false, false)
      ensures fresh(eventHandler) && commands == [] && issuedUnder == []
      ensures commandsAtRead == 0
    {
      this.id := id;
      this.serialNum := serialNum;
      this.host := host;
      this.port := port;
      btpSocket := null;
      btpWorker := null;
      lastWorker := null;
      commands := [];
      issuedUnder := [];
      commandsAtRead := 0;
      stack := new Stack.Stack();
      eventHandler := new EventHandler();
    }

    /** `AndroidCtl(serial_num, host, port)`. It takes the next process-wide
        ID, even when it then fails. `devicesOutput` is what `adb devices`
        prints and `ipOutput` what the device's `ip addr` pipeline prints; the
        first is used only without a truthy serial, the second only without a
        truthy host. */
    static method Create(serialNum: Option<string>, host: Option<string>, port: Option<int>,
                         ids: IdCounter, devicesOutput: string, ipOutput: string)
      returns (r: Result<AndroidCtl, CtlError>)
      requires ids.Valid()
      modifies ids
      ensures ids.Valid() && ids.next == old(ids.next) + 1
      ensures ResolveSerial(serialNum, ParseDeviceList(devicesOutput), old(ids.next)).Err?
              ==> r == Err(IndexError)
      ensures ResolveSerial(serialNum, ParseDeviceList(devicesOutput), old(ids.next)).Ok?
              ==> r.Ok? && fresh(r.value)
      ensures r.Ok? ==>
        var c := r.value;
        c.Valid()
        && c.id == old(ids.next)
        && Ok(c.serialNum) == ResolveSerial(serialNum, ParseDeviceList(devicesOutput), old(ids.next))
        && c.host == (if IsTruthy(host) then host.value else Strip(ipOutput))
        && c.port == ResolvePort(port)
        && c.btpSocket == null && c.btpWorker == null
        && c.commands == [] && c.issuedUnder == []
        && c.stack.Present() == Stack.Presence(false, false, false, false)
    {
      var id := ids.GetNextId();
      var serial: string;
      if IsTruthy(serialNum) {
        serial := serialNum.value;
      } else {
        var devices := ListDevices(devicesOutput);
        if id >= |devices| {
          return Err(IndexError);
        }
        serial := devices[id];
      }
      var h := if IsTruthy(host) then host.value else Strip(ipOutput);
      var c := new AndroidCtl(id, serial, h, ResolvePort(port));
      return Ok(c);
    }

    /** `start()`: a new socket to the controller's endpoint and a new worker
        on it, opened, dispatching to the event handler and accepting frames.
        An existing pair is replaced without being closed. */
    method Start()
      modifies this
      ensures Valid()
      ensures btpSocket != null && fresh(btpSocket)
      ensures btpWorker != null && fresh(btpWorker) && lastWorker == btpWorker
      ensures btpWorker.name == WorkerName(id)
      ensures btpWorker.closes == 0 && btpWorker.framesRead == []
      ensures commands == old(commands) && issuedUnder == old(issuedUnder)
      ensures commandsAtRead == old(commandsAtRead)
    {
      btpSocket := new BtpSocket(host, port);
      btpWorker := new BtpWorker(btpSocket, WorkerName(id));
      btpWorker.Open();
      btpWorker.RegisterEventHandler(eventHandler);
      btpWorker.Accept();
      lastWorker := btpWorker;
    }

    /** `stop()`: a present worker is closed and both references are
        released; without a worker nothing happens, so a second `stop` is a
        no-op. */
    method Stop()
      requires Valid()
      modifies this, btpWorker
      ensures Valid()
      ensures btpSocket == null && btpWorker == null
      ensures old(btpWorker) != null ==>
        !old(btpWorker).isOpen && old(btpWorker).closes == old(btpWorker.closes) + 1
        && old(btpWorker).framesRead == old(btpWorker.framesRead)
      ensures old(btpWorker) == null ==> unchanged(this)
      ensures commands == old(commands) && issuedUnder == old(issuedUnder)
      ensures lastWorker == old(lastWorker) && commandsAtRead == old(commandsAtRead)
    {
      if btpWorker != null {
        btpWorker.Close();
        btpWorker := null;
        btpSocket := null;
      }
    }

    /** `_adb_open_bluetooth_settings(self.serial_num)`, issued while the
        current worker is present. */
    method OpenBluetoothSettings()
      modifies this`commands, this`issuedUnder
      ensures commands == old(commands) + [SettingsCommand(serialNum)]
      ensures issuedUnder == old(issuedUnder) + [btpWorker]
    {
      commands := commands + [SettingsCommand(serialNum)];
      issuedUnder := issuedUnder + [btpWorker];
    }

    /** `reset()`: stop, start, then open the Bluetooth settings screen. It
        always ends with a newly opened worker present; the previous one, if
        any, has been closed; and the settings command is issued only once
        that new worker is open and accepting. */
    method Reset()
      requires Valid()
      modifies this, btpWorker
      ensures Valid()
      ensures btpSocket != null && fresh(btpSocket)
      ensures btpWorker != null && fresh(btpWorker) && lastWorker == btpWorker
      ensures btpWorker.closes == 0 && btpWorker.framesRead == []
      ensures old(btpWorker) != null ==>
        !old(btpWorker).isOpen && old(btpWorker).closes == old(btpWorker.closes) + 1
      ensures commands == old(commands) + [SettingsCommand(serialNum)]
      ensures issuedUnder == old(issuedUnder) + [btpWorker]
      ensures commandsAtRead == old(commandsAtRead)
    {
      Stop();
      Start();
      OpenBluetoothSettings();
    }

    /** `wait_iut_ready_event()`: reset, then read one frame, only once the
        reset's settings command has been issued. A worker is left present
        exactly when that frame is CORE / IUT_READY; otherwise the worker was
        stopped, closed exactly once, and no error escapes. */
    method WaitIutReadyEvent(first: Header)
      requires Valid()
      modifies this, btpWorker
      ensures Valid()
      ensures lastWorker != null && fresh(lastWorker) && lastWorker.framesRead == [first]
      ensures IsIutReady(first) <==> btpWorker != null
      ensures IsIutReady(first) ==> btpWorker == lastWorker && lastWorker.isOpen && lastWorker.closes == 0
      ensures !IsIutReady(first) ==> !lastWorker.isOpen && lastWorker.closes == 1
      ensures old(btpWorker) != null ==>
        !old(btpWorker).isOpen && old(btpWorker).closes == old(btpWorker.closes) + 1
      ensures commands == old(commands) + [SettingsCommand(serialNum)]
      ensures issuedUnder == old(issuedUnder) + [lastWorker]
      ensures commandsAtRead == |old(commands)| + 1
    {
      Reset();
      commandsAtRead := |commands|;
      var hdr := btpWorker.Read(first);
      if !IsIutReady(hdr) {
        Stop();
      }
    }
  }
}
