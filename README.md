# Android IUT controller and protocol-state Stack — a Dafny model

This project models the core of a Bluetooth test rig's Android device
controller. The controller turns an Android handset into an Implementation
Under Test (IUT) driven over the Bluetooth Test Protocol (BTP). Two source
files are modelled:

- `projects/android/iutctl.py`:
  - the parser that turns `adb devices` output into device serials;
  - the `adb` command prefix;
  - the process-wide ID counter;
  - the rule that turns the view-dump matches for the "OK" and "PAIR" labels
    into the coordinates of the pairing-confirmation tap;
  - the `AndroidCtl` session state machine over its BTP socket and worker.
- `stack/stack.py`: the `Stack` container. It records which of four profile
  components (GAP, GATT, Mesh, L2CAP) a test has initialised.

Files:

- `wrappers.dfy`: `Option` (Python's `None`) and `Result` (a raised error).
- `pystr.dfy` (module `PyStr`): the Python `str` operations the code relies on.
  These are `strip()`, `splitlines()`, `split()` and `str(n)`, with Python's
  own sets of whitespace and line-boundary characters. It also holds the
  lemmas that make them usable: fields of a concatenation, fields after
  stripping, and decimal round-trip.
- `android_adb.dfy` (module `AndroidAdb`): the module-level helpers of
  `iutctl.py`. The device-list loop is a method proved against the
  specification function `ParseDeviceList`.
- `android_iutctl.dfy` (module `AndroidIutCtl`): the ID counter, the abstract
  BTP socket and worker, and class `AndroidCtl`.
- `stack.dfy` (module `Stack`): class `Stack` and the opaque component classes.

Everything outside the process is a parameter, because none of it is run:

- the text `adb devices` prints;
- the text the device's `ip addr` pipeline prints;
- the matches Perl's regular expression finds in the view dump (one
  rectangle per matching line);
- the first BTP frame the device sends after a reset.

The BTP socket and worker are abstract objects. A worker can be opened,
closed and read; `read` returns a frame header `(svc_id, op)`. The constants
`BTP_SERVICE_ID_CORE` and `CORE_EV_IUT_READY` take their values from the BTP
protocol (0 and 0x80). `pybtp/defs.py` is not part of this model, and no proof
depends on the two values.

Two behaviours of the code are worth stating:

- `start` does not require a stopped controller. Called twice, it replaces
  the socket/worker pair without closing the old worker.
- The device-list parser drops the first line of the stripped output. It
  does not check it against a fixed header string. When the output starts
  with a blank line, `strip()` removes that line, so the first device line
  is the one dropped.

## Model

| member | source | states |
|---|---|---|
| `AndroidIutCtl.IdCounter.constructor` | projects/android/iutctl.py:30 | the counter starts at 0 with no ID handed out |
| `AndroidIutCtl.IdCounter.GetNextId` | projects/android/iutctl.py:43-47 | returns the current value and increases the counter by exactly one; the ID is larger than, so distinct from, every ID returned before |
| `PyStr.TrimLeft` | projects/android/iutctl.py:51 | the result is a suffix of the input, everything dropped is whitespace, and the result does not start with whitespace |
| `PyStr.TrimRight` | projects/android/iutctl.py:51 | the result is a prefix of the input, everything dropped is whitespace, and the result does not end with whitespace |
| `PyStr.Strip` | projects/android/iutctl.py:51 | `strip()` is empty exactly for all-whitespace text, and otherwise starts and ends with a non-whitespace character |
| `PyStr.StripDecompose` | projects/android/iutctl.py:51 | `strip()` only removes whitespace: the input is the result with a whitespace prefix and suffix around it |
| `PyStr.SplitLines` | projects/android/iutctl.py:51 | `splitlines()` yields no more lines than characters, and no line contains a line boundary |
| `PyStr.SplitLinesCons` | projects/android/iutctl.py:51-53 | a boundary-free line followed by "\n" is the first line and the rest splits independently |
| `PyStr.SplitLinesJoin` | projects/android/iutctl.py:51 | `splitlines()` gives back exactly the boundary-free lines that were joined with "\n", when the last line is not empty |
| `PyStr.SplitJoinedText` | projects/android/iutctl.py:51 | stripping and then splitting joined lines, followed by any trailing whitespace, gives them back when the first line starts and the last line ends with a non-whitespace character |
| `PyStr.Fields` | projects/android/iutctl.py:56 | every field of `split()` is non-empty and free of whitespace |
| `PyStr.FieldsConcat` | projects/android/iutctl.py:56 | splitting commutes with concatenation at a whitespace boundary |
| `PyStr.FieldsStrip` | projects/android/iutctl.py:73 | stripping does not change the fields |
| `PyStr.DecimalString` | projects/android/iutctl.py:177-178 | `str(n)` is a non-empty digit string without a leading zero (except for 0) |
| `PyStr.DecimalRoundTrip` | projects/android/iutctl.py:177-178 | reading the decimal rendering back gives the number |
| `AndroidAdb.Tail` | projects/android/iutctl.py:53 | `output[1:]` drops exactly the first line and is empty for an empty list |
| `AndroidAdb.DeviceSerials` | projects/android/iutctl.py:55-59 | at most one serial per line, each non-empty and free of whitespace |
| `AndroidAdb.DeviceSerialsAppend` | projects/android/iutctl.py:55-59 | the serials of concatenated lines are the serials of each part in order: line order is kept and a skipped line never shifts later entries |
| `AndroidAdb.DeviceSerialsSnoc` | projects/android/iutctl.py:56-59 | one more line appends its first field exactly when it is a device line (`IsDeviceLine`: at least two fields) |
| `AndroidAdb.SkippedLineIgnored` | projects/android/iutctl.py:57-58 | a line with fewer than two fields contributes nothing and leaves the entries around it unchanged |
| `AndroidAdb.AllDeviceLinesKept` | projects/android/iutctl.py:55-59 | N well-formed device lines give exactly N serials, the k-th being the k-th line's first field |
| `AndroidAdb.ParseDeviceListBound` | projects/android/iutctl.py:51-53 | `ParseDeviceList` (strip, split into lines, drop the first, keep the device lines' serials) gives at most (number of lines − 1) serials; blank output gives an empty list |
| `AndroidAdb.ListDevices` | projects/android/iutctl.py:50-61 | the append loop returns exactly `ParseDeviceList` of the output, the specification of iutctl.py:51-61 |
| `AndroidAdb.ParseListing` | projects/android/iutctl.py:50-61 | a header line, "\n", the device lines and any trailing whitespace (adb ends with a blank line) yield exactly the serials of those lines, whatever a header without surrounding whitespace says |
| `AndroidAdb.SingleDeviceListing` | projects/android/iutctl.py:50-61 | "List of devices attached\nABC123\tdevice\n\n", and the same text without the final blank line, yield ["ABC123"] |
| `AndroidAdb.BlankFirstLineDropsDevice` | projects/android/iutctl.py:51-53 | with a blank first line, `strip()` removes it and the dropped first line is the device line: "\nABC123\tdevice" yields [] |
| `AndroidAdb.AdbPrefix` | projects/android/iutctl.py:64-65 | the prefix starts with "adb " and ends with a blank, so the sub-command is a separate word |
| `AndroidAdb.AdbPrefixSerial` | projects/android/iutctl.py:64-65 | with a non-empty serial the prefix is exactly "adb -s <serial> " |
| `AndroidAdb.AdbPrefixWords` | projects/android/iutctl.py:64-65 | the shell sees "adb -s <serial>" exactly when the serial is truthy, and "adb" alone for None or "" |
| `AndroidAdb.Midpoint` | projects/android/iutctl.py:69-71 | the tap point is the rounded-down midpoint; it lies inside the rectangle when the corners are ordered, and before the excluded right/bottom edge when the rectangle is at least one pixel wide/high |
| `AndroidAdb.FormatPoint` | projects/android/iutctl.py:69 | a printed point is non-empty and starts and ends with a digit |
| `AndroidAdb.FindButtonCoords` | projects/android/iutctl.py:68-74 | the coordinate text is empty exactly when the label matched nothing |
| `AndroidAdb.PerlOutputWords` | projects/android/iutctl.py:69-72 | Perl's output (`PerlOutput`: one "x y" line per match), as words, is both midpoint coordinates of every match in file order |
| `AndroidAdb.ButtonCoordsWords` | projects/android/iutctl.py:68-74 | the stripped coordinate text, as words, is the midpoints of the matches |
| `AndroidAdb.SingleMatchCoords` | projects/android/iutctl.py:68-74 | with one match the coordinate text is exactly "x y" |
| `AndroidAdb.TapCoords` | projects/android/iutctl.py:90-92 | the "OK" coordinates when "OK" matched, otherwise the "PAIR" coordinates |
| `AndroidAdb.TapCoordsEmpty` | projects/android/iutctl.py:90-92 | the tap coordinates are empty exactly when neither label matched |
| `AndroidAdb.TapTarget` | projects/android/iutctl.py:90-95 | the device-scoped tap carries the midpoints of every "OK" match, or those of every "PAIR" match only when there is no "OK" match; with neither, a tap is still issued with no coordinates |
| `AndroidAdb.TapCommandWords` | projects/android/iutctl.py:94-95 | the words of `TapCommand` are "adb -s <serial> shell input tap" followed by the coordinate words |
| `AndroidAdb.ViewFile` | projects/android/iutctl.py:83 | the local dump path is exactly "/tmp/view-", then the serial, then ".xml" |
| `AndroidAdb.ViewFileInjective` | projects/android/iutctl.py:83 | different devices never share a view file |
| `AndroidIutCtl.WorkerNameInjective` | projects/android/iutctl.py:177-178 | controllers with different IDs give their receive threads (`WorkerName`: "RxWorkerAndroid-" and the ID) different names |
| `AndroidIutCtl.ResolvePort` | projects/android/iutctl.py:139-142 | the port is the argument when truthy, else 8765 (so 0 also becomes 8765); a resolved port is never 0 |
| `AndroidIutCtl.ResolveSerial` | projects/android/iutctl.py:128-132 | the serial is the argument when truthy, else `devices[id]`; it fails with IndexError exactly when no serial is given and fewer than id+1 devices are listed |
| `AndroidIutCtl.ResolvedSerialSelectsDevice` | projects/android/iutctl.py:128-132 | a resolved serial is never empty, so the controller's adb commands always carry "-s <serial>" |
| `AndroidIutCtl.FirstControllerTakesListedDevice` | projects/android/iutctl.py:126-132 | with the one-device listing and no serial, the first controller addresses "ABC123" |
| `AndroidIutCtl.AndroidCtl.constructor` | projects/android/iutctl.py:144-155 | a new controller has neither socket nor worker, a new empty Stack and a new event handler |
| `AndroidIutCtl.AndroidCtl.Create` | projects/android/iutctl.py:122-145 | consumes one ID even on failure; fails with IndexError exactly when serial resolution fails; otherwise serial, host (argument or stripped IP lookup) and port are resolved and the session starts with both socket and worker absent |
| `AndroidIutCtl.AndroidCtl.Start` | projects/android/iutctl.py:173-181 | a new socket to (host, port) and a new worker on it, named after the ID, opened, with the handler registered and accepting; socket and worker are present together |
| `AndroidIutCtl.AndroidCtl.Stop` | projects/android/iutctl.py:208-214 | a present worker is closed once and both references are cleared; with no worker nothing changes, so stop;stop equals stop |
| `AndroidIutCtl.AndroidCtl.OpenBluetoothSettings` | projects/android/iutctl.py:109-111 | appends the device-scoped settings command (`SettingsCommand`: the adb prefix, then "shell am start -a android.settings.BLUETOOTH_SETTINGS") and records the worker present when it is issued |
| `AndroidIutCtl.AndroidCtl.Reset` | projects/android/iutctl.py:183-191 | stop, start, then the settings command; ends with a new socket and a newly opened worker present and any previous worker closed, and the settings command is recorded as issued under that new, open and accepting worker, so it follows the start |
| `AndroidIutCtl.AndroidCtl.WaitIutReadyEvent` | projects/android/iutctl.py:193-206 | the single frame is read after the reset, once its settings command has been issued, and the settings command was issued under the worker that reads it; a worker is then present exactly when that frame is (CORE, IUT_READY) (`IsIutReady`); otherwise that worker was closed exactly once and the session is empty |
| `Stack.Mesh.constructor` | stack/stack.py:39-40 | a Mesh keeps the seven values it is created from |
| `Stack.Stack.constructor` | stack/stack.py:22-26 | all four slots start absent |
| `Stack.Stack.GapInit` | stack/stack.py:28-29 | a new GAP component; the other three slots are unchanged |
| `Stack.Stack.GattInit` | stack/stack.py:31-32 | a new GATT component; the other three slots are unchanged |
| `Stack.Stack.L2capInit` | stack/stack.py:34-35 | a new L2CAP component; the other three slots are unchanged |
| `Stack.Stack.MeshInit` | stack/stack.py:37-40 | a new Mesh built from the given seven values; the other three slots are unchanged |
| `Stack.Stack.Cleanup` | stack/stack.py:42-56 | the presence pattern and the Mesh configuration are unchanged, and every present component is a new instance; so a second cleanup leaves the same view as the first |

## Left out

- Process execution is not modelled. This covers `check_call`/`check_output`
  (projects/android/iutctl.py:33-40) and every `subprocess` call. Their output
  text is a parameter, and a non-zero exit (`CalledProcessError`) is not
  modelled: every command is taken to succeed.
- UTF-8 decoding of process output is not modelled. Text is a sequence of
  code points.
- The `uiautomator dump` and `adb pull` steps of `_adb_tap_ok`
  (projects/android/iutctl.py:80-86) are not modelled as commands. Only the
  local path they write to (`ViewFile`) is.
- Perl's regular expression itself (projects/android/iutctl.py:69-72) is not
  modelled; its matches are an input. That includes the unescaped label
  interpolation. Perl's own number handling for values beyond its integer
  range is not modelled: the arithmetic is on unbounded naturals.
- `_adb_stop_app` and `_adb_start_app` (projects/android/iutctl.py:98-106) are
  not modelled. They are not called anywhere in the modelled code.
- The `ip addr | grep | awk` pipeline of `_adb_get_ip`
  (projects/android/iutctl.py:114-118) is not modelled. Its output is a
  parameter and only the final `strip()` is modelled.
- The registration of the pairing callbacks (projects/android/iutctl.py:151-154)
  is not modelled. `Stack` as given has no such methods.
- The internals of `BTPWebSocket`, `BTPWorker` and `BTPEventHandler` are not
  modelled: sockets, the receive thread, and dispatch. The worker is an
  abstract object. The payload half of `read()` is ignored.
- AndroidAdb.TapTarget: the tap command is described by its words (`split()`),
  not by how a shell would tokenize it. With two or more matches the
  coordinate text holds a "\n", so under `shell=True` the shell runs
  `adb -s <sn> shell input tap x1 y1` and then tries `x2 y2` as a second
  command. That second command fails, so `check_call` raises
  (projects/android/iutctl.py:94-95). The model does not capture this.
- AndroidIutCtl.AndroidCtl.WaitIutReadyEvent: a `read()` that never returns
  (no frame arrives) is not modelled. The first frame is a parameter.
- AndroidIutCtl.AndroidCtl.Create: a failing lookup command (`adb devices`,
  the IP lookup) is not modelled. Only the IndexError of `devices[self.id]` is.
- AndroidIutCtl.AndroidCtl.Start: a failing start is not modelled. The source
  assigns the socket and the worker before opening and accepting
  (projects/android/iutctl.py:176-181). If `BTPWorker(...)` raises, the socket
  is set and the worker is `None`. If `open()` or `accept()` raises, both are
  set and the worker is not opened or not accepting. The model's `Start`
  always succeeds, so its pairing of socket and worker holds on the success
  path only.
- The read-only properties `btp_worker`, `event_handler` and `stack`
  (projects/android/iutctl.py:161-171) are not modelled as members. The
  fields they return are public in the model.
- Logging, and the thread-safety of the global `ID` counter, are not modelled.
- Python truthiness of component and worker objects is not modelled in full:
  they are assumed always truthy (no `__bool__` or `__len__`), so `if x:` is
  `x != null`.
- The `Gap`, `Gatt`, `L2CAP` and `Mesh` classes (stack/gap.py and the like)
  are not part of this model. They are opaque objects; Mesh is the record of
  its seven constructor values.
