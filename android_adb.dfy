/**
 * The module-level helpers of the Android IUT controller
 * (projects/android/iutctl.py): the parser of `adb devices` output, the
 * `adb` command prefix, and the rule that turns the view-dump matches for a
 * button label into the coordinates of the pairing-confirmation tap.
 *
 * The processes themselves (adb, uiautomator, perl) are not modelled: their
 * output text, or the matches Perl's regular expression finds, are inputs.
 */
module AndroidAdb {
  import opened Wrappers
  import opened PyStr

  // ---------------------------------------------------------------------------
  // Device list
  // ---------------------------------------------------------------------------

  /** Python's `xs[1:]`, which is empty for an empty list. */
  function Tail<T>(xs: seq<T>): (r: seq<T>)
    ensures |r| == if xs == [] then 0 else |xs| - 1
    ensures forall k :: 0 <= k < |r| ==> r[k] == xs[k + 1]
  {
    if xs == [] then [] else xs[1..]
  }

  /** A line of `adb devices` output that names a device: `line.split()` has
      at least two fields, the serial and the device's state. */
  predicate IsDeviceLine(line: string)
  {
    |Fields(line)| >= 2
  }

  /** The serial (first field) of every device line, in the lines' order;
      every other line is skipped. Each serial is non-empty and holds no whitespace. */
  function DeviceSerials(lines: seq<string>): (serials: seq<string>)
    ensures |serials| <= |lines|
    ensures forall k :: 0 <= k < |serials| ==> serials[k] != [] && NoSpace(serials[k])
  {
    if lines == [] then []
    else
      (if IsDeviceLine(lines[0]) then [Fields(lines[0])[0]] else [])
      + DeviceSerials(lines[1..])
  }

  /** What `_android_list_devices` returns for the text `adb devices` printed:
      the serials of the device lines after the header line. */
  function ParseDeviceList(output: string): (serials: seq<string>)
  {
    DeviceSerials(Tail(SplitLines(Strip(output))))
  }

  /** The device lines of a concatenation are those of each part, in order:
      a skipped line never shifts the entries that follow it. */
  lemma {:induction false} DeviceSerialsAppend(a: seq<string>, b: seq<string>)
    ensures DeviceSerials(a + b) == DeviceSerials(a) + DeviceSerials(b)
    decreases |a|
  {
    if a == [] {
      assert a + b == b;
    } else {
      var head := if IsDeviceLine(a[0]) then [Fields(a[0])[0]] else [];
      assert (a + b)[0] == a[0];
      TakeAppend(a, b, 1);
      DeviceSerialsAppend(a[1..], b);
      AppendAssoc(head, DeviceSerials(a[1..]), DeviceSerials(b));
    }
  }

  /** Appending one line appends its serial when it is a device line, and nothing otherwise. */
  lemma DeviceSerialsSnoc(lines: seq<string>, line: string)
    ensures IsDeviceLine(line) ==> DeviceSerials(lines + [line]) == DeviceSerials(lines) + [Fields(line)[0]]
    ensures !IsDeviceLine(line) ==> DeviceSerials(lines + [line]) == DeviceSerials(lines)
  {
    DeviceSerialsAppend(lines, [line]);
    assert [line][1..] == [];
    assert DeviceSerials(lines) + [] == DeviceSerials(lines);
  }

  /** A line with fewer than two fields contributes nothing and leaves the
      entries before and after it as they are. */
  lemma SkippedLineIgnored(before: seq<string>, line: string, after: seq<string>)
    requires !IsDeviceLine(line)
    ensures DeviceSerials(before + [line] + after) == DeviceSerials(before) + DeviceSerials(after)
  {
    DeviceSerialsAppend(before + [line], after);
    DeviceSerialsSnoc(before, line);
    assert DeviceSerials(before + [line]) == DeviceSerials(before);
  }

  /** N well-formed device lines give exactly N serials, the k-th being the
      first field of the k-th line. */
  lemma {:induction false} AllDeviceLinesKept(lines: seq<string>)
    requires forall k :: 0 <= k < |lines| ==> |Fields(lines[k])| >= 2
    ensures |DeviceSerials(lines)| == |lines|
    ensures forall k :: 0 <= k < |lines| ==> DeviceSerials(lines)[k] == Fields(lines[k])[0]
    decreases |lines|
  {
    if lines != [] {
      AllDeviceLinesKept(lines[1..]);
    }
  }

  /** The header line is never reported: at most one serial per line after it,
      and none at all when the output is blank. */
  lemma ParseDeviceListBound(output: string)
    ensures |ParseDeviceList(output)| <= |Tail(SplitLines(Strip(output)))|
    ensures |ParseDeviceList(output)| <= |SplitLines(Strip(output))| - 1
            || ParseDeviceList(output) == []
    ensures AllSpace(output) ==> ParseDeviceList(output) == []
  {
  }

  /** The parsing half of `_android_list_devices`: skip the header line, then
      append the first field of every line with at least two fields. */
  method ListDevices(output: string) returns (devices: seq<string>)
    ensures devices == ParseDeviceList(output)
  {
    var lines := Tail(SplitLines(Strip(output)));
    devices := [];
    for i := 0 to |lines|
      invariant devices == DeviceSerials(lines[..i])
    {
      var fields := Fields(lines[i]);
      DeviceSerialsSnoc(lines[..i], lines[i]);
      TakeSnoc(lines, i);
      if |fields| < 2 {
        continue;
      }
      devices := devices + [fields[0]];
    }
    assert lines[..|lines|] == lines;
  }

  /** A listing as adb prints it: a header line, one line per entry, and
      trailing whitespace (adb ends its listing with a blank line). The
      output yields the serials of its device lines in order, whatever a
      header without surrounding whitespace says. Together with
      AllDeviceLinesKept: a header and N device lines give exactly the N
      serials. */
  lemma ParseListing(header: string, lines: seq<string>, trail: string)
    requires header != [] && NoLineBreak(header)
    requires !IsSpace(header[0]) && !IsSpace(header[|header| - 1])
    requires forall k :: 0 <= k < |lines| ==> NoLineBreak(lines[k])
    requires |lines| > 0 ==> lines[|lines| - 1] != []
    requires |lines| > 0 ==> !IsSpace(lines[|lines| - 1][|lines[|lines| - 1]| - 1])
    requires AllSpace(trail)
    ensures ParseDeviceList(header + "\n" + JoinLines(lines) + trail) == DeviceSerials(lines)
  {
    var all := [header] + lines;
    assert Tail(all) == lines;
    if |lines| == 0 {
      HeaderOnlyLines(header, trail);
    } else {
      ListingLinesOf(header, lines, trail);
    }
  }

  /** A header followed by "\n" and whitespace only is one line. */
  lemma HeaderOnlyLines(header: string, trail: string)
    requires header != [] && NoLineBreak(header)
    requires !IsSpace(header[0]) && !IsSpace(header[|header| - 1])
    requires AllSpace(trail)
    ensures SplitLines(Strip(header + "\n" + JoinLines([]) + trail)) == [header]
  {
    assert header + "\n" + JoinLines([]) + trail == [] + header + ("\n" + trail);
    StripPadded([], header, "\n" + trail);
    SplitLinesSingle(header);
  }

  /** A header followed by at least one line splits into the header and those lines. */
  lemma ListingLinesOf(header: string, lines: seq<string>, trail: string)
    requires header != [] && NoLineBreak(header) && !IsSpace(header[0])
    requires forall k :: 0 <= k < |lines| ==> NoLineBreak(lines[k])
    requires |lines| > 0 && lines[|lines| - 1] != []
    requires !IsSpace(lines[|lines| - 1][|lines[|lines| - 1]| - 1])
    requires AllSpace(trail)
    ensures SplitLines(Strip(header + "\n" + JoinLines(lines) + trail)) == [header] + lines
  {
    var all := [header] + lines;
    assert JoinLines(all) == header + "\n" + JoinLines(lines) by {
      JoinLinesCons(header, lines);
    }
    assert SplitLines(Strip(JoinLines(all) + trail)) == all by {
      ConsNoLineBreak(header, lines);
      ConsEnds(header, lines);
      SplitJoinedText(all, trail);
    }
  }

  /** A one-device listing as adb prints it, with or without the final blank
      line, yields that device's serial. */
  lemma SingleDeviceListing()
    ensures ParseDeviceList("List of devices attached\nABC123\tdevice\n\n") == ["ABC123"]
    ensures ParseDeviceList("List of devices attached\nABC123\tdevice") == ["ABC123"]
  {
    var header := "List of devices attached";
    var line := "ABC123\tdevice";
    ListingText();
    assert JoinLines([line]) == line;
    ParseListing(header, [line], "\n\n");
    ParseListing(header, [line], "");
    SingleDeviceSerials();
  }

  lemma ListingText()
    ensures "List of devices attached\nABC123\tdevice\n\n"
            == "List of devices attached" + "\n" + "ABC123\tdevice" + "\n\n"
    ensures "List of devices attached\nABC123\tdevice"
            == "List of devices attached" + "\n" + "ABC123\tdevice" + ""
    ensures NoLineBreak("List of devices attached") && NoLineBreak("ABC123\tdevice")
    ensures AllSpace("\n\n") && AllSpace("")
  {
  }

  /** The example device line is kept, as its serial. */
  lemma SingleDeviceSerials()
    ensures DeviceSerials(["ABC123\tdevice"]) == ["ABC123"]
  {
    var line := "ABC123\tdevice";
    DeviceLineFields();
    DeviceSerialsSnoc([], line);
    assert [] + [line] == [line];
  }

  /** The first line is dropped after stripping: when the output starts with
      a blank line, `strip()` removes it and the first device line is the one
      dropped instead. */
  lemma BlankFirstLineDropsDevice()
    ensures ParseDeviceList("\nABC123\tdevice") == []
  {
    var line := "ABC123\tdevice";
    assert "\nABC123\tdevice" == "\n" + line + [];
    assert NoLineBreak(line);
    StripPadded("\n", line, []);
    SplitLinesSingle(line);
  }

  /** The example device line splits into its serial and its state. */
  lemma DeviceLineFields()
    ensures Fields("ABC123\tdevice") == ["ABC123", "device"]
  {
    DeviceLineText();
    FieldsTwoWords("ABC123", '\t', "device");
  }

  lemma DeviceLineText()
    ensures "ABC123\tdevice" == "ABC123" + ['\t'] + "device"
    ensures NoSpace("ABC123") && NoSpace("device")
  {
  }

  // ---------------------------------------------------------------------------
  // adb prefix
  // ---------------------------------------------------------------------------

  /** Python truthiness of an optional string: present and non-empty. */
  predicate IsTruthy(s: Option<string>)
  {
    s.Some? && s.value != []
  }

  /** `_adb_prefix(sn)`: the start of every adb command line, selecting the
      device when a serial is given. It always starts with the word "adb" and
      ends in a blank, so the sub-command appended to it is a separate word. */
  function AdbPrefix(sn: Option<string>): (prefix: string)
    ensures |prefix| >= 4 && prefix[..4] == "adb "
    ensures prefix[|prefix| - 1] == ' '
  {
    "adb " + (if IsTruthy(sn) then "-s " + sn.value + " " else "")
  }

  /** With a non-empty serial the prefix is "adb -s <serial> ". */
  lemma AdbPrefixSerial(sn: string)
    requires sn != []
    ensures AdbPrefix(Some(sn)) == "adb -s " + sn + " "
  {
    AppendAssoc("adb ", "-s " + sn, " ");
    AppendAssoc("adb ", "-s ", sn);
    assert "adb " + "-s " == "adb -s ";
  }

  /** The shell sees the words "adb -s <serial>" exactly when a serial is
      given, and the bare word "adb" for None or "". */
  lemma AdbPrefixWords(sn: Option<string>)
    requires IsTruthy(sn) ==> NoSpace(sn.value)
    ensures IsTruthy(sn) ==> Fields(AdbPrefix(sn)) == ["adb", "-s", sn.value]
    ensures !IsTruthy(sn) ==> Fields(AdbPrefix(sn)) == ["adb"]
  {
    var words := if IsTruthy(sn) then ["adb", "-s", sn.value] else ["adb"];
    AdbPrefixText(sn);
    FieldsJoinWords(words, []);
    assert AdbPrefix(sn) + [] == AdbPrefix(sn);
  }

  /** The prefix is its words, each followed by one blank. */
  lemma AdbPrefixText(sn: Option<string>)
    ensures !IsTruthy(sn) ==> AdbPrefix(sn) == JoinWords(["adb"])
    ensures IsTruthy(sn) ==> AdbPrefix(sn) == JoinWords(["adb", "-s", sn.value])
  {
    if IsTruthy(sn) {
      var s := sn.value;
      assert JoinWords([s]) == s + " ";
      assert ["-s", s][1..] == [s];
      assert JoinWords(["-s", s]) == "-s" + " " + s + " ";
      assert ["adb", "-s", s][1..] == ["-s", s];
    }
  }

  // ---------------------------------------------------------------------------
  // Button coordinates and the pairing tap
  // ---------------------------------------------------------------------------

  /** The rectangle `bounds="[x1,y1][x2,y2]"` of a view element whose text
      matched the label (the four numbers are `\d+`, so non-negative). */
  datatype Rect = Rect(x1: nat, y1: nat, x2: nat, y2: nat)

  /** A screen pixel. */
  datatype Point = Point(x: nat, y: nat)

  /** The pixel Perl prints for a match, `($1+$3)/2` and `($2+$4)/2` through
      "%d": the midpoint rounded down. It lies inside the rectangle whenever the
      corners are ordered, and strictly before the right and bottom edges (which
      the bounds exclude) whenever the rectangle is at least one pixel wide and high. */
  function Midpoint(r: Rect): (p: Point)
    ensures 2 * p.x <= r.x1 + r.x2 < 2 * p.x + 2
    ensures 2 * p.y <= r.y1 + r.y2 < 2 * p.y + 2
    ensures r.x1 <= r.x2 ==> r.x1 <= p.x <= r.x2
    ensures r.y1 <= r.y2 ==> r.y1 <= p.y <= r.y2
    ensures r.x1 < r.x2 ==> p.x < r.x2
    ensures r.y1 < r.y2 ==> p.y < r.y2
  {
    Point((r.x1 + r.x2) / 2, (r.y1 + r.y2) / 2)
  }

  /** The line Perl prints for one match, without its "\n". */
  function FormatPoint(p: Point): (line: string)
    ensures line != [] && IsDigit(line[0]) && IsDigit(line[|line| - 1])
    ensures !IsSpace(line[0]) && !IsSpace(line[|line| - 1])
  {
    var dx := DecimalString(p.x);
    var dy := DecimalString(p.y);
    var line := dx + " " + dy;
    assert line[0] == dx[0];
    assert line[|line| - 1] == dy[|dy| - 1];
    line
  }

  /** Everything `perl -ne 'printf "%d %d\n", ... if /.../'` prints: one line
      per matching line of the view file, in file order. */
  function PerlOutput(matches: seq<Rect>): string
  {
    if matches == [] then ""
    else FormatPoint(Midpoint(matches[0])) + "\n" + PerlOutput(matches[1..])
  }

  /** `_find_button_coords`: Perl's output, stripped. It is empty exactly
      when no element with the label was found. */
  function FindButtonCoords(matches: seq<Rect>): (coords: string)
    ensures |coords| == 0 <==> |matches| == 0
  {
    var out := PerlOutput(matches);
    assert matches != [] ==> out[0] == FormatPoint(Midpoint(matches[0]))[0];
    Strip(out)
  }

  /** The words of the coordinate text: both coordinates of every match, in order. */
  function MidpointWords(matches: seq<Rect>): (words: seq<string>)
    ensures |words| == 2 * |matches|
  {
    if matches == [] then []
    else
      var p := Midpoint(matches[0]);
      [DecimalString(p.x), DecimalString(p.y)] + MidpointWords(matches[1..])
  }

  /** Split into words, Perl's output is the midpoint coordinates of the
      matches, in order, each as a decimal number. */
  lemma {:induction false} PerlOutputWords(matches: seq<Rect>)
    ensures Fields(PerlOutput(matches)) == MidpointWords(matches)
    decreases |matches|
  {
    if matches != [] {
      var p := Midpoint(matches[0]);
      var dx, dy := DecimalString(p.x), DecimalString(p.y);
      var rest := PerlOutput(matches[1..]);
      PerlOutputWords(matches[1..]);
      PerlOutputText(matches);
      DecimalStringNoSpace(p.x);
      DecimalStringNoSpace(p.y);
      FieldsWordThen(dy, '\n', rest);
      FieldsWordThen(dx, ' ', dy + ['\n'] + rest);
    }
  }

  /** The first line Perl prints, as words and separators. */
  lemma PerlOutputText(matches: seq<Rect>)
    requires matches != []
    ensures var p := Midpoint(matches[0]);
      PerlOutput(matches)
      == DecimalString(p.x) + [' '] + (DecimalString(p.y) + ['\n'] + PerlOutput(matches[1..]))
  {
  }

  /** The coordinate text `_find_button_coords` returns, split into words,
      is the midpoints of the matches. */
  lemma ButtonCoordsWords(matches: seq<Rect>)
    ensures Fields(FindButtonCoords(matches)) == MidpointWords(matches)
  {
    FieldsStrip(PerlOutput(matches));
    PerlOutputWords(matches);
  }

  /** With exactly one match the coordinate text is "x y". */
  lemma SingleMatchCoords(r: Rect)
    ensures FindButtonCoords([r]) == FormatPoint(Midpoint(r))
  {
    var line := FormatPoint(Midpoint(r));
    assert [r][1..] == [];
    assert PerlOutput([r]) == [] + line + "\n";
    StripPadded([], line, "\n");
  }

  /** The coordinates `_adb_tap_ok` taps: those of the "OK" button when the
      view has one, otherwise those of the "PAIR" button, which are empty when
      neither label was found. */
  function TapCoords(okMatches: seq<Rect>, pairMatches: seq<Rect>): (coords: string)
    ensures okMatches != [] ==> coords == FindButtonCoords(okMatches)
    ensures okMatches == [] ==> coords == FindButtonCoords(pairMatches)
  {
    var coords := FindButtonCoords(okMatches);
    if coords == [] then FindButtonCoords(pairMatches) else coords
  }

  /** No tap coordinates exactly when neither label was found. */
  lemma TapCoordsEmpty(okMatches: seq<Rect>, pairMatches: seq<Rect>)
    ensures |TapCoords(okMatches, pairMatches)| == 0 <==> |okMatches| == 0 && |pairMatches| == 0
  {
  }

  /** The tap command `_adb_tap_ok` issues; it is issued in every case, with
      empty coordinates when neither button was found. */
  function TapCommand(sn: Option<string>, okMatches: seq<Rect>, pairMatches: seq<Rect>): string
  {
    AdbPrefix(sn) + "shell input tap " + TapCoords(okMatches, pairMatches)
  }

  /** After the device selector and "shell input tap", the command's words
      are the midpoint coordinates of every "OK" match; only when there is no
      "OK" match, those of every "PAIR" match; and when neither exists the
      command still runs, with no coordinates at all. */
  lemma TapTarget(sn: string, okMatches: seq<Rect>, pairMatches: seq<Rect>)
    requires sn != [] && NoSpace(sn)
    ensures okMatches != [] ==>
      Fields(TapCommand(Some(sn), okMatches, pairMatches))
        == ["adb", "-s", sn, "shell", "input", "tap"] + MidpointWords(okMatches)
    ensures okMatches == [] ==>
      Fields(TapCommand(Some(sn), okMatches, pairMatches))
        == ["adb", "-s", sn, "shell", "input", "tap"] + MidpointWords(pairMatches)
    ensures okMatches == [] && pairMatches == [] ==>
      Fields(TapCommand(Some(sn), okMatches, pairMatches)) == ["adb", "-s", sn, "shell", "input", "tap"]
  {
    TapCommandText(Some(sn), okMatches, pairMatches);
    TapCommandWords(sn, TapCoords(okMatches, pairMatches));
    ButtonCoordsWords(okMatches);
    ButtonCoordsWords(pairMatches);
  }

  /** The words of a device-scoped tap command: the selector, the
      sub-command, then the coordinate words. */
  lemma TapCommandWords(sn: string, coords: string)
    requires sn != [] && NoSpace(sn)
    ensures Fields(AdbPrefix(Some(sn)) + ("shell input tap " + coords))
            == ["adb", "-s", sn, "shell", "input", "tap"] + Fields(coords)
  {
    AdbPrefixWords(Some(sn));
    TapWords(coords);
    FieldsConcat(AdbPrefix(Some(sn)), "shell input tap " + coords);
    AppendAssoc(["adb", "-s", sn], ["shell", "input", "tap"], Fields(coords));
    assert ["adb", "-s", sn] + ["shell", "input", "tap"] == ["adb", "-s", sn, "shell", "input", "tap"];
  }

  lemma TapCommandText(sn: Option<string>, okMatches: seq<Rect>, pairMatches: seq<Rect>)
    ensures TapCommand(sn, okMatches, pairMatches)
            == AdbPrefix(sn) + ("shell input tap " + TapCoords(okMatches, pairMatches))
  {
  }

  /** The words of the tap sub-command. */
  lemma TapWords(coords: string)
    ensures Fields("shell input tap " + coords) == ["shell", "input", "tap"] + Fields(coords)
  {
    assert "shell input tap " == JoinWords(["shell", "input", "tap"]);
    FieldsJoinWords(["shell", "input", "tap"], coords);
  }

  /** The local file the view dump is pulled to, keyed by the device serial. */
  function ViewFile(sn: string): (path: string)
    ensures |path| == |sn| + 14
    ensures path[..10] == "/tmp/view-" && path[10..10 + |sn|] == sn
    ensures path[10 + |sn|..] == ".xml"
  {
    "/tmp/view-" + sn + ".xml"
  }

  /** Controllers for different devices never share a view file. */
  lemma ViewFileInjective(a: string, b: string)
    requires ViewFile(a) == ViewFile(b)
    ensures a == b
  {
    assert a == ViewFile(a)[10..10 + |a|];
    assert b == ViewFile(b)[10..10 + |b|];
  }
}
