# Specifier parsers of libpod's container-creation configuration

A Dafny model of `pkg/spec/parse.go` (Go package `createconfig`). It covers the
small parsers that turn compact, colon-separated specifiers into validated values
before a container is created:

- **device weights** `/dev/<name>:<weight>` (`validateweightDevice`), with the
  `weightDevice` printer `String()`;
- **device throttle rates** `/dev/<name>:<rate>`, in operations per second
  (`validateIOpsDevice`) or bytes per second (`validateBpsDevice`), with the
  `throttleDevice` printer `String()`;
- **permission modes** over `r`, `w`, `m` (`validDeviceMode`);
- **device mappings** `<src>[:<dst or mode>][:<mode>]` (`parseDevice`);
- **namespace specifiers** `pod`, `ns:<path>` or a kind-specific value
  (`IsPod`, `IsNS`, `NS`, `Valid`);
- the **log path** option `path=<value>` (`getLoggingPath`).

Files:

- `go_strings.dfy`, module `GoStrings`: the parts of Go's `strings` package the
  parsers use (`SplitN(s, sep, 2)` as `SplitAtFirst`, `Split`, `HasPrefix`,
  `TrimSpace`); `SplitAtFirst`, `Split` and `TrimSpace` come with lemmas that
  characterise them, and `HasPrefix` is a plain definition.
- `go_strconv.dfy`, module `GoStrconv`: `strconv.ParseUint(s, 10, 64)` as
  `ParseUint`, and `%d` printing as `Decimal`, with the round trip between them.
- `parse.dfy`, module `CreateConfig`: the parsers themselves.

The functions of parse.go that only compute a value (`IsNS`, `NS`, `Valid`, the
three validators, the two `String()` methods) are Dafny functions. The three whose
Go code works step by step are methods: `ValidDeviceMode` clears entries of a
`map<char, bool>` as it consumes characters; `ParseDevice` reassigns the locals
`src`, `dst` and `permissions` as the `switch` falls through from three fields to
one; `GetLoggingPath` loops over the options and returns early. Each method is
proved against a specification: `ValidDeviceMode` against the predicate
`ValidMode`, `ParseDevice` against the field-count table `DeviceOutcomeOf`, and
`GetLoggingPath` against `FirstPathOption`.

Some behaviour of `parse.go` worth knowing before reading the contracts:

- `parseDevice` returns the permissions as a string over `r`, `w` and `m`.
- A two-field mapping whose second field is neither a mode nor a path starting
  with `/` makes `parseDevice` panic (see Findings).
- The weight and rate validators accept empty parts at the split: `/dev/sda:`
  reaches the number parser and is rejected there as an invalid weight or rate, and
  `:5` is rejected as an invalid path.
- A weight may have leading zeros (`/dev/sda:0500` is weight 500), so it is not
  limited to three digits.
- The namespace check `Valid` returns only a boolean.

## Model

| member | source | states |
|---|---|---|
| `CreateConfig.NS` | pkg/spec/parse.go:48-55 | the result is the empty string when there is no `:`; otherwise it is the whole suffix after the first `:`, colons included |
| `CreateConfig.IsNSIffPrefix` | pkg/spec/parse.go:31-35 | `IsNS(s)` holds exactly when `s` starts with `ns:` |
| `CreateConfig.NSOfPath` | pkg/spec/parse.go:31-55 | for every path `p`, `ns:` + `p` is an explicit namespace and `NS` gives back `p` intact |
| `CreateConfig.ValidClassification` | pkg/spec/parse.go:37-46 | `Valid(s, ns)` holds exactly when `s` is `pod`, or starts with `ns:`, or the namespace kind's own check holds |
| `CreateConfig.IsNS` | pkg/spec/parse.go:31-35 | definition: `SplitN(s, ":", 2)` gives two parts and the first is `ns`; `IsNSIffPrefix` shows this is exactly a `ns:` prefix |
| `CreateConfig.IsPod` | pkg/spec/parse.go:37-40 | definition: the string is exactly `pod`; used by `Valid` and characterised in `ValidClassification` |
| `CreateConfig.Valid` | pkg/spec/parse.go:42-46 | definition: `IsPod(s) || IsNS(s) || ns.Valid()`, with `ns.Valid()` passed in as a boolean; `ValidClassification` restates it in terms of the `ns:` prefix |
| `CreateConfig.DevicePathAndNumber` | pkg/spec/parse.go:60-66 | bad format exactly when the input has no `:`; invalid path exactly when it has one but does not start with `/dev/`; otherwise a `/dev/` path without `:` and the rest, which glue back into the input |
| `CreateConfig.DevicePathAndNumberOfParts` | pkg/spec/parse.go:60-66 | splitting `path:number` for a `/dev/` path without `:` gives back that path and that number |
| `CreateConfig.ValidateWeightDevice` | pkg/spec/parse.go:59-79 | no `:` is a bad format, no `/dev/` prefix an invalid path, any other failure an invalid weight; an accepted device has a `/dev/` path and a weight that is 0 or in [10, 1000], so the `uint16` conversion is lossless |
| `CreateConfig.WeightDevice.String` | pkg/spec/parse.go:21-23 | definition: `path:weight` with the weight printed by `Decimal`; `WeightDeviceRoundTrip` and `WeightDeviceTextRoundTrip` show the validator reads it back |
| `CreateConfig.WeightDeviceOfParts` | pkg/spec/parse.go:67-78 | past the path checks, the input is accepted exactly when the number parses and is 0 or in [10, 1000], and then the device carries that path and weight; every other outcome is an invalid weight |
| `CreateConfig.WeightDeviceAccepts` | pkg/spec/parse.go:59-79 | every allowed weight printed after a `/dev/` path is accepted as exactly that path and weight |
| `CreateConfig.WeightDeviceRejects` | pkg/spec/parse.go:71-73 | every 64-bit weight from 1 to 9 or above 1000 is rejected as an invalid weight |
| `CreateConfig.WeightDeviceRoundTrip` | pkg/spec/parse.go:21-23 | validating the `String()` of an accepted weight device gives the same device |
| `CreateConfig.WeightDeviceTextRoundTrip` | pkg/spec/parse.go:21-23 | when the weight has no leading zeros, `String()` of the accepted device is the input text itself |
| `CreateConfig.ValidateIOpsDevice` | pkg/spec/parse.go:117-137 | same bad-format and invalid-path cases as the weight; an accepted device has a `/dev/` path; every other failure is an invalid rate |
| `CreateConfig.ThrottleDevice.String` | pkg/spec/parse.go:87-89 | definition: `path:rate` with the rate printed by `Decimal`; `IOpsDeviceRoundTrip` shows the operation-rate validator reads it back |
| `CreateConfig.IOpsDeviceOfParts` | pkg/spec/parse.go:125-136 | past the path checks, the device is accepted exactly when the number parses as a 64-bit decimal, and then carries that path and rate; every other outcome is an invalid rate (the negative-rate test never fires) |
| `CreateConfig.IOpsDeviceRoundTrip` | pkg/spec/parse.go:87-89 | validating the `String()` of an accepted operation-rate device gives the same device |
| `CreateConfig.ValidateBpsDevice` | pkg/spec/parse.go:93-113 | same bad-format and invalid-path cases; an accepted device has a `/dev/` path and a rate below 2^63; every other failure is an invalid rate |
| `CreateConfig.BpsDeviceOfParts` | pkg/spec/parse.go:101-112 | past the path checks, the input is accepted exactly when the byte-size parser gives a non-negative size, and then that size is the rate; a parse error or a negative size is an invalid rate |
| `CreateConfig.BpsAgreesWithIOps` | pkg/spec/parse.go:93-137 | when the byte-size parser reads a plain decimal as itself, the byte-rate and operation-rate validators return the same device |
| `CreateConfig.ValidDeviceMode` | pkg/spec/parse.go:188-204 | the result is true exactly when the mode is non-empty, every character is `r`, `w` or `m`, and no character occurs twice |
| `CreateConfig.ValidModeLength` | pkg/spec/parse.go:188-204 | every accepted mode has one to three characters |
| `CreateConfig.DeviceOutcomeOf` | pkg/spec/parse.go:152-183 | on success the source is the first field, the permissions are a valid mode, and the destination is the source or a middle field starting with `/`; a failure is an invalid mode or an invalid device specification |
| `CreateConfig.ParseDevice` | pkg/spec/parse.go:152-184 | the fall-through `switch` over the `:`-fields yields exactly the outcome of the field-count table, including the two run-time panics |
| `CreateConfig.ParseDeviceChecked` | pkg/spec/parse.go:164-172 | never panics; it agrees with the code as written except that the panicking inputs are rejected as invalid modes |
| `CreateConfig.EmptyMiddleFieldPanics` | pkg/spec/parse.go:164-168 | for any source without `:`, the mapping `<src>:` (an empty middle field) panics in the code as written |
| `CreateConfig.NonPathSecondFieldPanics` | pkg/spec/parse.go:164-169 | for any source and second field without `:`, where the second field is non-empty, is not a valid mode and does not start with `/`, the two-field mapping `<src>:<second>` panics in the code as written |
| `CreateConfig.DeviceSingleField` | pkg/spec/parse.go:174-182 | a mapping without `:` maps the device onto itself with permissions `rwm` |
| `CreateConfig.DeviceTooManyFields` | pkg/spec/parse.go:176-177 | four or more fields are an invalid device specification |
| `CreateConfig.DeviceTwoFields` | pkg/spec/parse.go:164-182 | with two fields, a valid mode is taken as the permissions and the destination defaults to the source; otherwise a field starting with `/` is the destination with permissions `rwm`; otherwise the code panics |
| `CreateConfig.DeviceThreeFields` | pkg/spec/parse.go:158-182 | with three fields, an invalid third field is an invalid mode; a middle field that is a valid mode overrides the third field and the destination defaults to the source; a middle field starting with `/` is the destination with the third field as permissions; any other non-empty middle field is an invalid mode |
| `CreateConfig.GetLoggingPath` | pkg/spec/parse.go:139-149 | the result is the trimmed value of the first option whose trimmed key before its first `=` is `path`, and the empty string when no option is one |
| `CreateConfig.PaddedPathOption` | pkg/spec/parse.go:141-144 | a key `path` surrounded by white space is recognised, and the value it sets is the text after `=` without surrounding white space |
| `GoStrings.SplitAtFirst` | pkg/spec/parse.go:33 | one part, equal to the input, exactly when the separator is absent; otherwise two parts, the first free of the separator, that glue back into the input |
| `GoStrings.SplitAtFirstOfJoin` | pkg/spec/parse.go:60 | splitting `p` + separator + `q` with `p` free of the separator gives back `[p, q]` |
| `GoStrings.Split` | pkg/spec/parse.go:156 | at least one field, none containing the separator, joining back into the input; a single field exactly when the separator is absent |
| `GoStrings.SplitOfJoin` | pkg/spec/parse.go:156 | splitting the join of separator-free fields gives back those fields |
| `GoStrings.TrimSpace` | pkg/spec/parse.go:143 | the result neither starts nor ends with white space and is no longer than the input |
| `GoStrings.TrimSpaceStripsSpace` | pkg/spec/parse.go:143 | the trimmed result is the part of the input between an all-white-space prefix and an all-white-space suffix |
| `GoStrings.TrimSpaceOfPadded` | pkg/spec/parse.go:143-144 | trimming text padded on both sides with white space gives back the text |
| `GoStrconv.Decimal` | pkg/spec/parse.go:22 | the printed number is a non-empty string of digits without leading zeros that denotes the number |
| `GoStrconv.ParseUint` | pkg/spec/parse.go:125 | definition of `strconv.ParseUint(s, 10, 64)`: a non-empty string of ASCII digits whose value is below 2^64, else an error; `ParseDecimal` shows it reads back every printed `uint64` |
| `GoStrconv.ParseDecimal` | pkg/spec/parse.go:67 | the 64-bit decimal parser reads back every printed 64-bit value |
| `GoStrconv.CanonicalDigitsUnique` | pkg/spec/parse.go:22 | a digit string without leading zeros is the printed form of the number it denotes |

## Findings

| source | as written | input that shows it | evidently intended | confidence | as-written member | corrected member |
|---|---|---|---|---|---|---|
| pkg/spec/parse.go:168 | `arr[1][0]` is read without checking that the middle field is non-empty | `/dev/sda:` (also `/dev/sda::r`) | reject the mapping as an invalid device mode | high; not executed | `CreateConfig.EmptyMiddleFieldPanics` | `CreateConfig.ParseDeviceChecked` |
| pkg/spec/parse.go:169 | the error for a second field that is neither a mode nor a path formats `arr[2]`, which a two-field mapping does not have | `/dev/sda:x` | return the invalid-mode error, naming `arr[1]` | high; not executed | `CreateConfig.NonPathSecondFieldPanics` | `CreateConfig.ParseDeviceChecked` |

`CreateConfig.ParseDevice` models the code as written: where Go would panic with
an index out of range, it returns the outcome `Panics`. `ParseDeviceChecked` is
the same procedure with both guards added.

## Left out

- `units.RAMInBytes` from the go-units library is not part of this model: it is the
  function parameter `ramInBytes` of `ValidateBpsDevice`, returning a 64-bit signed
  size or `None` for its errors. Its unit grammar (`kb`, `mb`, `gb`, fractions) is
  not modelled, so the byte-rate examples such as `1mb` are not proved.
- ValidateBpsDevice: no print/parse round trip is stated, because it would depend on
  how the foreign size parser reads plain decimals; `BpsAgreesWithIOps` states it
  under that assumption.
- Error messages from `fmt.Errorf` are modelled as the constructors of `ParseError`
  (and the message text of each is not).
- Go's `panic` is modelled as the outcome `Panics`, not as a crash.
- The `LinuxNS` interface is not part of this model: its one method `Valid()` is the
  boolean argument `kindValid` of `Valid`, and no namespace kind is modelled.
- Strings are sequences of characters: Go's UTF-8 decoding in `range mode` and of
  invalid byte sequences is not modelled; any character other than `r`, `w`, `m`
  is illegal in a mode, as in the code.
- `strconv.ParseUint(s, 10, 0)` in `validateweightDevice` uses the platform's `int`
  size; the model takes 64 bits.
- The `%d` printer is modelled only for non-negative integers, the only ones printed.
- Nothing runs concurrently or does I/O in this code, so nothing of that kind is left out.
