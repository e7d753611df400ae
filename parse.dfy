/** The specifier parsers of libpod's container-creation configuration
    (package `createconfig`, pkg/spec/parse.go): device weights, device
    throttle rates, device mappings with permission modes, namespace
    specifiers and the log-path option. Every operation takes text and
    returns a value, a verdict or an error. */
module CreateConfig {
  import opened GoStrings
  import opened GoStrconv

  /** Go's `uint16` and `int64`. */
  type uint16 = x: int | 0 <= x < 0x1_0000
  type int64 = x: int | -0x8000_0000_0000_0000 <= x < 0x8000_0000_0000_0000

  /** The kinds of error the parsers report (the Go code formats a message for each). */
  datatype ParseError =
    | BadFormat          // no `:` between device path and number
    | InvalidPath        // device path outside /dev/
    | InvalidWeight      // weight not a number, or not 0 and outside [10, 1000]
    | InvalidRate        // rate not a number, or negative
    | InvalidMode        // bad permission mode in a device mapping
    | InvalidDeviceSpec  // device mapping with more than three fields

  datatype Result<+T> = Ok(value: T) | Err(error: ParseError)

  // ---------------------------------------------------------------------------
  // Namespace specifiers
  // ---------------------------------------------------------------------------

  /** Sentinel meaning "share this kernel namespace with the pod". */
  const Pod := "pod"

  /** `IsNS`: the text before the first `:` is exactly `ns`. */
  predicate IsNS(s: string) {
    var parts := SplitAtFirst(s, ':');
    |parts| > 1 && parts[0] == "ns"
  }

  predicate IsPod(s: string) {
    s == Pod
  }

  /** `Valid(s, ns)`: the namespace kind's own check (`ns.Valid()`, the one
      method of the `LinuxNS` interface) is passed in as `kindValid`. */
  predicate Valid(s: string, kindValid: bool) {
    IsPod(s) || IsNS(s) || kindValid
  }

  /** `NS`: the namespace path, everything after the first `:` (it may hold
      further colons), or the empty string when there is no `:`. */
  function NS(s: string): (r: string)
    ensures ':' !in s ==> r == ""
    ensures ':' in s ==>
      |r| < |s| && s[|s| - |r| - 1] == ':' && ':' !in s[..|s| - |r| - 1] && s[|s| - |r|..] == r
  {
    var parts := SplitAtFirst(s, ':');
    if |parts| > 1 then
      assert s[..|s| - |parts[1]| - 1] == parts[0];
      assert s[|s| - |parts[1]|..] == parts[1];
      parts[1]
    else ""
  }

  /** A specifier is an explicit namespace path exactly when it starts with `ns:`. */
  lemma IsNSIffPrefix(s: string)
    ensures IsNS(s) <==> HasPrefix(s, "ns:")
  {
    if HasPrefix(s, "ns:") {
      assert s == "ns" + [':'] + s[3..];
      SplitAtFirstOfJoin("ns", ':', s[3..]);
    }
    if IsNS(s) {
      var parts := SplitAtFirst(s, ':');
      assert s[..3] == parts[0] + [':'];
    }
  }

  /** `ns:` followed by any path is an explicit namespace whose path is read back intact. */
  lemma NSOfPath(path: string)
    ensures IsNS("ns:" + path) && NS("ns:" + path) == path
  {
    assert "ns:" + path == "ns" + [':'] + path;
    SplitAtFirstOfJoin("ns", ':', path);
  }

  /** `pod` and every `ns:` specifier are valid whatever the namespace kind says;
      every other specifier is valid exactly when the kind's check accepts it. */
  lemma ValidClassification(s: string, kindValid: bool)
    ensures Valid(s, kindValid) <==> s == Pod || HasPrefix(s, "ns:") || kindValid
  {
    IsNSIffPrefix(s);
  }

  // ---------------------------------------------------------------------------
  // Device weights and throttle rates: `<device path>:<number>`
  // ---------------------------------------------------------------------------

  /** Root directory every device path must start with. */
  const DevRoot := "/dev/"

  /** A device path as the validators return it: under /dev/ and without `:`. */
  predicate DevicePath(p: string) {
    HasPrefix(p, DevRoot) && ':' !in p
  }

  /** Weights the blkio weight-device option accepts: 0 (unset) or 10 to 1000. */
  predicate WeightAllowed(w: int) {
    w == 0 || 10 <= w <= 1000
  }

  datatype WeightDevice = WeightDevice(path: string, weight: uint16) {
    /** `%s:%d` */
    function String(): string {
      path + ":" + Decimal(weight)
    }
  }

  datatype ThrottleDevice = ThrottleDevice(path: string, rate: uint64) {
    /** `%s:%d` */
    function String(): string {
      path + ":" + Decimal(rate)
    }
  }

  /** The split-and-check step that opens all three validators: `SplitN(val, ":", 2)`
      must give two parts and the first must start with /dev/. */
  function DevicePathAndNumber(val: string): (r: Result<(string, string)>)
    ensures r == Err(BadFormat) <==> ':' !in val
    ensures r == Err(InvalidPath) <==> ':' in val && !HasPrefix(val, DevRoot)
    ensures r.Ok? || r == Err(BadFormat) || r == Err(InvalidPath)
    ensures r.Ok? ==> DevicePath(r.value.0) && val == r.value.0 + ":" + r.value.1
  {
    var split := SplitAtFirst(val, ':');
    if |split| != 2 then Err(BadFormat)
    else
      // "/dev/" holds no ':', so the part before the first ':' starts with it
      // exactly when the whole input does.
      assert HasPrefix(split[0], DevRoot) <==> HasPrefix(val, DevRoot) by {
        if HasPrefix(val, DevRoot) {
          assert val[..5] == DevRoot;
          assert ':' !in val[..5];
          assert |split[0]| >= 5;
          assert split[0][..5] == val[..5];
        }
        if HasPrefix(split[0], DevRoot) {
          assert val[..5] == split[0][..5];
        }
      }
      if !HasPrefix(split[0], DevRoot) then Err(InvalidPath)
      else Ok((split[0], split[1]))
  }

  /** Gluing a device path and a number back together and splitting again gives them back. */
  lemma DevicePathAndNumberOfParts(path: string, number: string)
    requires DevicePath(path)
    ensures DevicePathAndNumber(path + ":" + number) == Ok((path, number))
  {
    assert path + ":" + number == path + [':'] + number;
    SplitAtFirstOfJoin(path, ':', number);
  }

  /** `validateweightDevice`: `/dev/<name>:<weight>` with a decimal weight that is 0 or in [10, 1000]. */
  function ValidateWeightDevice(val: string): (r: Result<WeightDevice>)
    ensures ':' !in val ==> r == Err(BadFormat)
    ensures ':' in val && !HasPrefix(val, DevRoot) ==> r == Err(InvalidPath)
    ensures r.Ok? ==> DevicePath(r.value.path) && WeightAllowed(r.value.weight)
    ensures r.Err? ==> r.error in {BadFormat, InvalidPath, InvalidWeight}
  {
    match DevicePathAndNumber(val)
    case Err(e) => Err(e)
    case Ok((path, number)) =>
      match ParseUint(number)
      case None => Err(InvalidWeight)
      case Some(weight) =>
        if weight > 0 && (weight < 10 || weight > 1000) then Err(InvalidWeight)
        // the uint16 conversion is lossless: the weight is at most 1000
        else Ok(WeightDevice(path, weight))
  }

  /** Past the path checks, a weight device is accepted exactly when its number
      parses and is an allowed weight, and then it carries that path and weight. */
  lemma WeightDeviceOfParts(path: string, number: string)
    requires DevicePath(path)
    ensures var r := ValidateWeightDevice(path + ":" + number);
            var n := ParseUint(number);
            (r.Ok? <==> n.Some? && WeightAllowed(n.value))
            && (r.Ok? ==> r.value == WeightDevice(path, n.value))
            && (r.Err? ==> r.error == InvalidWeight)
  {
    DevicePathAndNumberOfParts(path, number);
  }

  /** Every allowed weight, printed in decimal after a device path, is accepted as itself. */
  lemma WeightDeviceAccepts(path: string, weight: nat)
    requires DevicePath(path) && WeightAllowed(weight)
    ensures ValidateWeightDevice(path + ":" + Decimal(weight)) == Ok(WeightDevice(path, weight))
  {
    WeightDeviceOfParts(path, Decimal(weight));
    ParseDecimal(weight);
  }

  /** A 64-bit weight from 1 to 9 or above 1000 is refused as an invalid weight. */
  lemma WeightDeviceRejects(path: string, weight: uint64)
    requires DevicePath(path) && !WeightAllowed(weight)
    ensures ValidateWeightDevice(path + ":" + Decimal(weight)) == Err(InvalidWeight)
  {
    WeightDeviceOfParts(path, Decimal(weight));
    ParseDecimal(weight);
  }

  /** Printing an accepted weight device and validating the text gives the same device. */
  lemma WeightDeviceRoundTrip(val: string)
    requires ValidateWeightDevice(val).Ok?
    ensures ValidateWeightDevice(ValidateWeightDevice(val).value.String()) == ValidateWeightDevice(val)
  {
    var w := ValidateWeightDevice(val).value;
    WeightDeviceAccepts(w.path, w.weight);
  }

  /** When the weight is written without leading zeros, printing the accepted device
      gives back the very text it was read from. */
  lemma WeightDeviceTextRoundTrip(val: string)
    requires ':' in val
    requires var number := SplitAtFirst(val, ':')[1]; number != [] && (number[0] == '0' ==> |number| == 1)
    requires ValidateWeightDevice(val).Ok?
    ensures ValidateWeightDevice(val).value.String() == val
  {
    var w := ValidateWeightDevice(val).value;
    var number := SplitAtFirst(val, ':')[1];
    assert DevicePathAndNumber(val) == Ok((w.path, number));
    CanonicalDigitsUnique(number, w.weight);
  }

  /** `validateIOpsDevice`: `/dev/<name>:<rate>` with a decimal 64-bit rate. */
  function ValidateIOpsDevice(val: string): (r: Result<ThrottleDevice>)
    ensures ':' !in val ==> r == Err(BadFormat)
    ensures ':' in val && !HasPrefix(val, DevRoot) ==> r == Err(InvalidPath)
    ensures r.Ok? ==> DevicePath(r.value.path)
    ensures r.Err? ==> r.error in {BadFormat, InvalidPath, InvalidRate}
  {
    match DevicePathAndNumber(val)
    case Err(e) => Err(e)
    case Ok((path, number)) =>
      match ParseUint(number)
      case None => Err(InvalidRate)
      case Some(rate) =>
        // the unsigned parse never yields a negative rate, so this test never fires
        if rate < 0 then Err(InvalidRate)
        else Ok(ThrottleDevice(path, rate))
  }

  /** Past the path checks, an operation rate is refused exactly when its number does
      not parse (never for being negative), and otherwise is that number. */
  lemma IOpsDeviceOfParts(path: string, number: string)
    requires DevicePath(path)
    ensures var r := ValidateIOpsDevice(path + ":" + number);
            (r.Ok? <==> ParseUint(number).Some?)
            && (r.Ok? ==> r.value == ThrottleDevice(path, ParseUint(number).value))
            && (r.Err? ==> r.error == InvalidRate)
  {
    DevicePathAndNumberOfParts(path, number);
  }

  /** Printing an accepted operation-rate device and validating the text gives the same device. */
  lemma IOpsDeviceRoundTrip(val: string)
    requires ValidateIOpsDevice(val).Ok?
    ensures ValidateIOpsDevice(ValidateIOpsDevice(val).value.String()) == ValidateIOpsDevice(val)
  {
    var t := ValidateIOpsDevice(val).value;
    IOpsDeviceOfParts(t.path, Decimal(t.rate));
    ParseDecimal(t.rate);
  }

  /** `validateBpsDevice`: `/dev/<name>:<size>` where the size is read by the byte-size
      parser of the go-units library, passed in as `ramInBytes` (`None` for its errors). */
  function ValidateBpsDevice(val: string, ramInBytes: string -> Option<int64>): (r: Result<ThrottleDevice>)
    ensures ':' !in val ==> r == Err(BadFormat)
    ensures ':' in val && !HasPrefix(val, DevRoot) ==> r == Err(InvalidPath)
    ensures r.Ok? ==> DevicePath(r.value.path) && r.value.rate < 0x8000_0000_0000_0000
    ensures r.Err? ==> r.error in {BadFormat, InvalidPath, InvalidRate}
  {
    match DevicePathAndNumber(val)
    case Err(e) => Err(e)
    case Ok((path, size)) =>
      match ramInBytes(size)
      case None => Err(InvalidRate)
      case Some(rate) =>
        if rate < 0 then Err(InvalidRate)
        else Ok(ThrottleDevice(path, rate))
  }

  /** Past the path checks, a byte rate is accepted exactly when the size parser gives
      a non-negative size, and then that size is the rate. */
  lemma BpsDeviceOfParts(path: string, size: string, ramInBytes: string -> Option<int64>)
    requires DevicePath(path)
    ensures var r := ValidateBpsDevice(path + ":" + size, ramInBytes);
            var n := ramInBytes(size);
            (r.Ok? <==> n.Some? && n.value >= 0)
            && (r.Ok? ==> r.value == ThrottleDevice(path, n.value))
            && (r.Err? ==> r.error == InvalidRate)
  {
    DevicePathAndNumberOfParts(path, size);
  }

  /** Where the byte-size parser reads a plain decimal as itself, the byte-rate and the
      operation-rate validators agree. */
  lemma BpsAgreesWithIOps(path: string, rate: nat, ramInBytes: string -> Option<int64>)
    requires DevicePath(path) && rate < 0x8000_0000_0000_0000
    requires ramInBytes(Decimal(rate)) == Some(rate)
    ensures ValidateBpsDevice(path + ":" + Decimal(rate), ramInBytes)
         == ValidateIOpsDevice(path + ":" + Decimal(rate))
         == Ok(ThrottleDevice(path, rate))
  {
    DevicePathAndNumberOfParts(path, Decimal(rate));
    ParseDecimal(rate);
  }

  // ---------------------------------------------------------------------------
  // Device mappings: `<src>[:<dst or mode>][:<mode>]`
  // ---------------------------------------------------------------------------

  predicate IsModeChar(c: char) {
    c == 'r' || c == 'w' || c == 'm'
  }

  /** A permission mode: a non-empty string over r (read), w (write) and m (mknod)
      in which no character occurs twice. */
  predicate ValidMode(mode: string) {
    |mode| > 0
    && (forall k :: 0 <= k < |mode| ==> IsModeChar(mode[k]))
    && (forall j, k :: 0 <= j < k < |mode| ==> mode[j] != mode[k])
  }

  /** `validDeviceMode`: each character must still be marked legal in a table of
      r, w and m, and is unmarked once seen, so a repeat is refused. A character
      missing from the table reads as not legal, as a Go map lookup yields false. */
  method ValidDeviceMode(mode: string) returns (ok: bool)
    ensures ok <==> ValidMode(mode)
  {
    var legal := map['r' := true, 'w' := true, 'm' := true];
    if mode == "" {
      return false;
    }
    var i := 0;
    while i < |mode|
      invariant 0 <= i <= |mode|
      invariant forall c :: (c in legal && legal[c]) <==> IsModeChar(c) && c !in mode[..i]
      invariant forall k :: 0 <= k < i ==> IsModeChar(mode[k])
      invariant forall j, k :: 0 <= j < k < i ==> mode[j] != mode[k]
    {
      var c := mode[i];
      if !(c in legal && legal[c]) {
        if IsModeChar(c) {
          var j :| 0 <= j < i && mode[..i][j] == c;
          assert mode[j] == mode[i];
        }
        return false;
      }
      legal := legal[c := false];
      assert mode[..i + 1] == mode[..i] + [c];
      i := i + 1;
    }
    assert mode[..i] == mode;
    return true;
  }

  /** A string of pairwise distinct characters drawn from `chars` is no longer than `chars` is large. */
  lemma {:induction false} DistinctWithin(s: string, chars: set<char>)
    requires forall k :: 0 <= k < |s| ==> s[k] in chars
    requires forall j, k :: 0 <= j < k < |s| ==> s[j] != s[k]
    ensures |s| <= |chars|
  {
    if |s| > 0 {
      var rest := s[1..];
      forall k | 0 <= k < |rest| ensures rest[k] in chars - {s[0]} {
        assert rest[k] == s[k + 1];
      }
      DistinctWithin(rest, chars - {s[0]});
    }
  }

  /** A valid mode has one to three characters. */
  lemma ValidModeLength(mode: string)
    requires ValidMode(mode)
    ensures 1 <= |mode| <= 3
  {
    DistinctWithin(mode, {'r', 'w', 'm'});
    assert |{'r', 'w', 'm'}| == 3;
  }

  /** What `parseDevice` yields: source, destination and permission string, an error,
      or a Go run-time panic (an index out of range) on two inputs the code does not guard. */
  datatype DeviceOutcome =
    | Parsed(src: string, dst: string, permissions: string)
    | Failed(error: ParseError)
    | Panics

  /** The outcome of `parseDevice` for the `:`-separated fields of its argument, by field count. */
  function DeviceOutcomeOf(fields: seq<string>): (r: DeviceOutcome)
    requires |fields| >= 1
    ensures r.Parsed? ==>
      r.src == fields[0] && ValidMode(r.permissions)
      && (r.dst == r.src || (|fields| >= 2 && r.dst == fields[1] && r.dst != [] && r.dst[0] == '/'))
    ensures r.Failed? ==> r.error in {InvalidMode, InvalidDeviceSpec}
  {
    if |fields| > 3 then Failed(InvalidDeviceSpec)
    else if |fields| == 3 && !ValidMode(fields[2]) then Failed(InvalidMode)
    else if |fields| == 1 then Parsed(fields[0], fields[0], "rwm")
    // the middle field is tried as a mode first; as a mode it overrides a third field
    else if ValidMode(fields[1]) then Parsed(fields[0], fields[0], fields[1])
    // `arr[1][0]` on an empty middle field
    else if fields[1] == [] then Panics
    // the error message reads `arr[2]`, which a two-field mapping does not have
    else if fields[1][0] != '/' then (if |fields| == 2 then Panics else Failed(InvalidMode))
    else Parsed(fields[0], fields[1], if |fields| == 3 then fields[2] else "rwm")
  }

  /** `parseDevice`, as written: locals start as empty source and destination and full
      permissions, and the `switch` on the field count falls through from three fields
      to two to one. */
  method ParseDevice(device: string) returns (r: DeviceOutcome)
    ensures r == DeviceOutcomeOf(Split(device, ':'))
  {
    var src, dst, permissions := "", "", "rwm";
    var arr := Split(device, ':');
    ghost var expected := DeviceOutcomeOf(arr);
    if |arr| > 3 {
      return Failed(InvalidDeviceSpec);
    }
    if |arr| == 3 {
      var ok := ValidDeviceMode(arr[2]);
      if !ok {
        return Failed(InvalidMode);
      }
      permissions := arr[2];
    }
    if |arr| >= 2 {
      var ok := ValidDeviceMode(arr[1]);
      if ok {
        permissions := arr[1];
      } else {
        if arr[1] == [] {
          return Panics;  // Go: arr[1][0] index out of range
        }
        if arr[1][0] != '/' {
          if |arr| == 2 {
            return Panics;  // Go: arr[2] index out of range while formatting the error
          }
          return Failed(InvalidMode);
        }
        dst := arr[1];
      }
    }
    src := arr[0];
    if dst == "" {
      dst := src;
    }
    return Parsed(src, dst, permissions);
  }

  /** `parseDevice` as evidently intended: where the code as written panics, the
      mapping is refused as an invalid mode. */
  method ParseDeviceChecked(device: string) returns (r: DeviceOutcome)
    ensures !r.Panics?
    ensures r == (if DeviceOutcomeOf(Split(device, ':')).Panics? then Failed(InvalidMode)
                  else DeviceOutcomeOf(Split(device, ':')))
  {
    var src, dst, permissions := "", "", "rwm";
    var arr := Split(device, ':');
    ghost var expected := DeviceOutcomeOf(arr);
    if |arr| > 3 {
      return Failed(InvalidDeviceSpec);
    }
    if |arr| == 3 {
      var ok := ValidDeviceMode(arr[2]);
      if !ok {
        return Failed(InvalidMode);
      }
      permissions := arr[2];
    }
    if |arr| >= 2 {
      var ok := ValidDeviceMode(arr[1]);
      if ok {
        permissions := arr[1];
      } else {
        if arr[1] == [] || arr[1][0] != '/' {
          return Failed(InvalidMode);
        }
        dst := arr[1];
      }
    }
    src := arr[0];
    if dst == "" {
      dst := src;
    }
    return Parsed(src, dst, permissions);
  }

  /** First panic of the code as written, for any source such as `/dev/sda`: an empty
      middle field, as in `/dev/sda:`. */
  lemma EmptyMiddleFieldPanics(src: string)
    requires ':' !in src
    ensures DeviceOutcomeOf(Split(src + ":", ':')) == Panics
  {
    assert src + ":" == src + [':'] + "";
    SplitOfTwo(src, ':', "");
  }

  /** Second panic of the code as written, for any source such as `/dev/sda`: a two-field
      mapping whose second field is neither a mode nor a path, as in `/dev/sda:x`. */
  lemma NonPathSecondFieldPanics(src: string, second: string)
    requires ':' !in src && ':' !in second
    requires second != [] && second[0] != '/' && !ValidMode(second)
    ensures DeviceOutcomeOf(Split(src + [':'] + second, ':')) == Panics
  {
    SplitOfTwo(src, ':', second);
  }

  /** A mapping without `:` maps the device onto itself with full permissions. */
  lemma DeviceSingleField(device: string)
    requires ':' !in device
    ensures DeviceOutcomeOf(Split(device, ':')) == Parsed(device, device, "rwm")
  {
  }

  /** A mapping with four or more fields is an invalid device specification. */
  lemma DeviceTooManyFields(device: string)
    requires |Split(device, ':')| >= 4
    ensures DeviceOutcomeOf(Split(device, ':')) == Failed(InvalidDeviceSpec)
  {
  }

  /** Two fields: the second is taken as permissions if it is a valid mode (the
      destination then defaults to the source), else as a destination if it starts with `/`. */
  lemma DeviceTwoFields(src: string, second: string)
    requires ':' !in src && ':' !in second
    ensures var r := DeviceOutcomeOf(Split(src + ":" + second, ':'));
            (ValidMode(second) ==> r == Parsed(src, src, second))
            && (!ValidMode(second) && second != [] && second[0] == '/' ==> r == Parsed(src, second, "rwm"))
            && (!ValidMode(second) && (second == [] || second[0] != '/') ==> r == Panics)
  {
    SplitOfTwo(src, ':', second);
  }

  /** Three fields: an invalid third field is an invalid mode; otherwise a middle field
      that is itself a valid mode becomes the permissions and the destination defaults to
      the source; otherwise a middle field starting with `/` is the destination and the
      third field the permissions. */
  lemma DeviceThreeFields(src: string, middle: string, mode: string)
    requires ':' !in src && ':' !in middle && ':' !in mode
    ensures var r := DeviceOutcomeOf(Split(src + ":" + middle + ":" + mode, ':'));
            (!ValidMode(mode) ==> r == Failed(InvalidMode))
            && (ValidMode(mode) && ValidMode(middle) ==> r == Parsed(src, src, middle))
            && (ValidMode(mode) && !ValidMode(middle) && middle != [] && middle[0] == '/'
                ==> r == Parsed(src, middle, mode))
            && (ValidMode(mode) && !ValidMode(middle) && middle != [] && middle[0] != '/'
                ==> r == Failed(InvalidMode))
            && (ValidMode(mode) && middle == [] ==> r == Panics)
  {
    SplitOfThree(src, ':', middle, mode);
  }

  // ---------------------------------------------------------------------------
  // Logging options
  // ---------------------------------------------------------------------------

  /** An option `key=value` whose key, trimmed of white space, is `path`. */
  predicate IsPathOption(opt: string) {
    var kv := SplitAtFirst(opt, '=');
    |kv| == 2 && TrimSpace(kv[0]) == "path"
  }

  /** The value a `path` option sets: the text after its first `=`, trimmed. */
  function PathOptionValue(opt: string): string
    requires IsPathOption(opt)
  {
    TrimSpace(SplitAtFirst(opt, '=')[1])
  }

  /** `opts[k]` is the first option that sets the path. */
  predicate FirstPathOption(opts: seq<string>, k: int) {
    0 <= k < |opts| && IsPathOption(opts[k]) && forall j :: 0 <= j < k ==> !IsPathOption(opts[j])
  }

  /** The option found by a left-to-right scan is the first path option. */
  lemma FirstPathOptionAt(opts: seq<string>, i: int)
    requires 0 <= i < |opts| && IsPathOption(opts[i])
    requires forall j :: 0 <= j < i ==> !IsPathOption(opts[j])
    ensures forall k :: FirstPathOption(opts, k) <==> k == i
  {
  }

  /** `getLoggingPath`: the value of the first option that sets the path, or the
      empty string when no option does. */
  method GetLoggingPath(opts: seq<string>) returns (path: string)
    ensures (forall k :: 0 <= k < |opts| ==> !IsPathOption(opts[k])) ==> path == ""
    ensures forall k :: FirstPathOption(opts, k) ==> path == PathOptionValue(opts[k])
  {
    for i := 0 to |opts|
      invariant forall j :: 0 <= j < i ==> !IsPathOption(opts[j])
    {
      var arr := SplitAtFirst(opts[i], '=');
      if |arr| == 2 {
        if TrimSpace(arr[0]) == "path" {
          assert IsPathOption(opts[i]);
          FirstPathOptionAt(opts, i);
          path := TrimSpace(arr[1]);
          assert path == PathOptionValue(opts[i]);
          return;
        }
      }
    }
    return "";
  }

  /** The `path` key is recognised whatever white space surrounds it, and its value
      is returned without surrounding white space. */
  lemma PaddedPathOption(a: string, b: string, value: string)
    requires AllSpace(a) && AllSpace(b) && '=' !in a && '=' !in b
    ensures IsPathOption(a + "path" + b + "=" + value)
    ensures PathOptionValue(a + "path" + b + "=" + value) == TrimSpace(value)
  {
    var key := a + "path" + b;
    assert '=' !in key by {
      assert forall k :: 0 <= k < |key| ==> key[k] != '=' by {
        forall k | 0 <= k < |key| ensures key[k] != '=' {
          if k < |a| {
            assert key[k] == a[k];
          } else if k < |a| + 4 {
            assert key[k] == "path"[k - |a|];
          } else {
            assert key[k] == b[k - |a| - 4];
          }
        }
      }
    }
    assert a + "path" + b + "=" + value == key + ['='] + value;
    SplitAtFirstOfJoin(key, '=', value);
    TrimSpaceOfPadded(a, "path", b);
  }
}
