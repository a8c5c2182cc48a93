# huehue: identification, bridge descriptor and error codes

A Dafny model of the pure rules inside `huehue`, a Rust client for the Philips
Hue bridge API:

- `DeviceType` (src/models/device_type.rs): the `devicetype` identification an
  application sends when it asks the bridge for a key. `DeviceType::new`
  checks the application name against `^\w{1,20}$` and then the device name
  against `^\w{1,19}$`. `to_string` formats the pair as `application#device`.
  Module `DeviceTypes`.
- The bridge descriptor (src/bridge.rs, the two `From` conversions). A model
  id string maps to `BSB001`, `BSB002` or `Unknown`. A descriptor is built
  from the bridge address and its `/api/0/config` record, and it is
  `supported` when `swversion >= "1948086000"` in Rust's string order.
  Module `Bridges`. That string order is module `StrOrder`.
- The bridge's error-code table (src/models/error.rs): a `#[repr(u32)]` enum
  serialised as its discriminant. Module `ErrorCodes`.
- The translation of an error code into the crate's `HueError`
  (src/http.rs). Module `Http`.

Modelling choices:

- Rust's regex `\w` is Unicode-aware. Its table is foreign data, so the
  model takes it as a parameter `word: char -> bool`. The ghost predicate
  `DeviceTypes.WordClass` says what every such table does on ASCII: there
  it is exactly `[0-9A-Za-z_]`, so `#` is not a word character. Nothing is
  assumed about other characters.
- The regex `^\w{min,max}$` is modelled by the recursive matcher
  `DeviceTypes.MatchRepeat`. Its contract ties it to the declarative
  `WordRun`: the length is between `min` and `max` and every character is
  in the class. The `{1,20}` bound counts Unicode scalar values, which are
  Dafny `char`s. `$` without the multi-line flag matches only at the end of
  the text, so no trailing newline is accepted.
- Rust compares `str` values by their UTF-8 bytes. UTF-8 keeps code-point
  order, so `StrOrder.Less` is lexicographic order on `char`s, where a
  proper prefix sorts first. The comparison in `supported` is therefore not
  numeric. `Bridges.SupportedTenDigits` shows that it agrees with the
  numeric order on ten-digit versions. `Bridges.SupportedNotNumeric` shows
  that `"999"` is accepted and `"10000000000"` is refused.
- `u32` and `u8` are newtypes over their ranges. `Ipv4Addr` is four octets.

## Model

| member | source | states |
|---|---|---|
| `DeviceTypes.SeparatorIsNotWord` | src/models/device_type.rs:4-5 | whatever Unicode table `\w` uses, `#` is not a word character |
| `DeviceTypes.MatchRepeat` | src/models/device_type.rs:4-5 | the anchored `^\w{min,max}$` accepts a string iff its length is between `min` and `max` and every character is a word character |
| `DeviceTypes.New` | src/models/device_type.rs:21-36 | `Ok` iff the application name is 1–20 word characters and the device name 1–19; an invalid application name gives `ApplicationName` whatever the device name; a valid application name with an invalid device name gives `DeviceName`; on success both names are stored unchanged |
| `DeviceTypes.ToString` | src/models/device_type.rs:40-42 | the identifier is the application name, then `#` at index `len(application name)`, then the device name |
| `DeviceTypes.ToStringLength` | src/models/device_type.rs:4-5 | the identifier of a valid device type is 3 to 40 characters long |
| `DeviceTypes.ToStringOneSeparator` | src/models/device_type.rs:41 | the identifier of a valid device type holds exactly one `#`, and no position other than `len(application name)` holds one |
| `DeviceTypes.ToStringInjective` | src/models/device_type.rs:41 | two valid device types with the same identifier are equal |
| `DeviceTypes.NewAcceptsExamples` | src/models/device_type.rs:51-52 | `("some", "thing")` and `("123_some", "thing_345")` are accepted and stored as given, so letters, digits and `_` are word characters |
| `DeviceTypes.NewRejectsEmpty` | src/models/device_type.rs:54-55 | an empty device name gives `DeviceName`; an empty application name gives `ApplicationName` |
| `DeviceTypes.ToStringExample` | src/models/device_type.rs:60-62 | `("some", "thing")` formats as `"some#thing"` |
| `StrOrder.Less` | src/bridge.rs:122 | `a < b` on Rust strings holds iff `a` is a proper prefix of `b`, or the two agree up to some index `k` and `a` has the smaller character at `k` |
| `StrOrder.LessIrreflexive` | src/bridge.rs:122 | no string is below itself in Rust's string order |
| `StrOrder.LessTransitive` | src/bridge.rs:122 | Rust's string order is transitive |
| `StrOrder.LessAsymmetric` | src/bridge.rs:122 | if `a < b` then not `b < a` |
| `StrOrder.LessAtFirstDifference` | src/bridge.rs:122 | two strings with a common prefix of length `k` are ordered by their characters at index `k` |
| `StrOrder.LessTotal` | src/bridge.rs:122 | any two strings are equal or ordered one way or the other |
| `StrOrder.PrefixLess` | src/bridge.rs:122 | a proper prefix sorts below the longer string, whatever the digits denote |
| `StrOrder.DigitsOrder` | src/bridge.rs:122 | on digit strings of equal length, the string order is the numeric order of their values |
| `Bridges.ModelFrom` | src/bridge.rs:127-135 | the model is `BSB001` iff the id is exactly `"BSB001"`, `BSB002` iff exactly `"BSB002"`, and `Unknown` iff it is neither |
| `Bridges.ModelFromExamples` | src/bridge.rs:129-133 | `"bsb002"` and `""` are `Unknown`: the match is exact and case-sensitive |
| `Bridges.Supported` | src/bridge.rs:122 | `swversion >= VERSION_MIN` (the constant `"1948086000"` of src/bridge.rs:11) holds iff the version equals `"1948086000"` or lies above it in string order |
| `Bridges.VersionMinValue` | src/bridge.rs:11 | `VERSION_MIN` is a ten-digit decimal string denoting 1948086000 |
| `Bridges.FromConfig` | src/bridge.rs:115-125 | `id` is `bridgeid`, `version` is `swversion`, `address` is the given IP, `model` comes from `modelid`, and `supported` holds iff `swversion` is not below `"1948086000"` in string order |
| `Bridges.FromConfigDependsOnly` | src/bridge.rs:117-123 | two configs that agree on `bridgeid`, `modelid` and `swversion` give the same descriptor for the same address |
| `Bridges.ModelAndSupportSeparate` | src/bridge.rs:119-122 | `model` depends only on `modelid`, and `supported` only on `swversion` |
| `Bridges.SupportedUpwardClosed` | src/bridge.rs:122 | a version at or above a supported version in string order is supported |
| `Bridges.SupportedTenDigits` | src/bridge.rs:122 | a ten-digit version is supported iff its numeric value is at least 1948086000 |
| `Bridges.SupportedNotNumeric` | src/bridge.rs:122 | `"999"` is supported and `"10000000000"` is not |
| `Bridges.SupportedBoundary` | src/bridge.rs:122 | `"1948086000"` is supported and `"1948085999"` is not |
| `ErrorCodes.Encode` | src/models/error.rs:8-22 | every variant serialises to one of the twelve declared discriminants; which one is stated by `ErrorCodes.Discriminants` |
| `ErrorCodes.Discriminants` | src/models/error.rs:9-21 | Unauthorized=1, InvalidJson=2, ResourceNotAvailable=3, ResourceMethodNotAvailable=4, ParameterMissing=5, ParameterNotAvailable=6, ParameterValue=7, ParameterNotModifiable=8, TooManyItems=11, PortalConnectionRequired=12, InternalError=901, LinkButtonNotPressed=101 |
| `ErrorCodes.Decode` | src/models/error.rs:6-22 | a `u32` deserialises iff it is one of the twelve discriminants |
| `ErrorCodes.DecodeEncode` | src/models/error.rs:9-21 | each variant decodes back from its own code, so with `ErrorCodes.Discriminants` the number 1 decodes to `Unauthorized`, …, 101 to `LinkButtonNotPressed` |
| `ErrorCodes.EncodeDecode` | src/models/error.rs:9-21 | a number that decodes encodes back to itself |
| `ErrorCodes.EncodeInjective` | src/models/error.rs:9-21 | no two variants share a code |
| `ErrorCodes.CodeCount` | src/models/error.rs:8-22 | there are exactly twelve distinct codes |
| `ErrorCodes.DecodeGaps` | src/models/error.rs:9-21 | 0, 9, 10, 13, 100 and 102 do not decode |
| `Http.FromErrorCode` | src/http.rs:107-115 | the result is `Unauthorized` iff the code is `Unauthorized` or `LinkButtonNotPressed`, and it is always `Unauthorized` or `Unknown`, never another `HueError` |
| `Http.FromWireCode` | src/http.rs:109-113 | a decoded code maps to `Unauthorized` iff it is 1 or 101, and to `Unknown` otherwise |

## Left out

- Colour conversion between RGB and CIE xy. `xy_from_rgb8` and `Component::new` are called in the crate, but their definitions are not part of this model; src/color.rs holds only data structs. The work is also `f32` arithmetic.
- Bridge discovery (`Bridge::new`, `discover`, `discover_mdns`, `discover_meethue`, `get_config`). These use mDNS, a wall clock, HTTP and async tasks.
- `Bridge::url` and `Hue::url`. They go through an external URL parser.
- HTTP client construction, certificate pinning, headers, `get_auth`, `get_text` and `put_auth`. These are network I/O.
- `impl From<reqwest::Error> for HueError`. It depends on the HTTP library's error predicates. Its payload is why `Http.HueError.Response` carries no value here.
- `Hue` and `Client` authorization, lights and devices, and the `Light` operations. These are async network calls around local field updates with `f32` brightness.
- The serde JSON models other than the error-code table. They are derived (de)serialisation with no logic of their own.
- `DeviceTypes.New`: the set of non-ASCII word characters is a parameter, so the model does not decide whether a particular non-ASCII name is accepted.
- The `(de)serialisation` of error codes is modelled on `u32` values; JSON numbers outside `u32` are not modelled.
