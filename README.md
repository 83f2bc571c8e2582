# CoIoT decoding layer, modelled in Dafny

CoIoT is a vendor protocol layered on CoAP (RFC 7252). Devices add three
options of their own to a CoAP response:

- a device identity string `<type>#<serial>#<version>`;
- a 16-bit status-validity period;
- a 16-bit status sequence number.

Devices also serve two JSON documents: a descriptor catalog of blocks and
sensors (`/cit/d`), and a live status list of `[channel, sensor id, value]`
readings (`/cit/s`). The Rust file `src/coiot.rs` decodes all of this. It
also correlates each status reading with the descriptor to name the sensor
and the device it belongs to.

This project models that decoding layer as pure Dafny functions and proves
what it does.

| file | module | what it holds |
|---|---|---|
| `types.dfy` | `Types` | `byte`, `u16`, `u32` as bounded integer subset types |
| `wrappers.dfy` | `Wrappers` | `Option`, with `:-` propagation like Rust's `?` |
| `strings.dfy` | `Strings` | `split_once`, `rsplit_once`, `u32::from_str` |
| `utf8.dfy` | `Utf8` | `str::from_utf8` as a UTF-8 decoder (Unicode Table 3-7), its encoder, and both round trips |
| `options.dfy` | `Options` | the option codes, the response's option table, and `get_opt` / `front` |
| `identity.dfy` | `Identity` | `device_id`, `device_type`, `device_serial`, `coiot_version` |
| `fields.dfy` | `Fields` | `validity_duration` and `msg_seq_no` |
| `json.dfy` | `Json` | a parsed JSON value |
| `schema.dfy` | `Schema` | the descriptor and status datatypes, their serde decoding from JSON values, and encoders for round trips |
| `correlator.dfy` | `Correlator` | the lookup and device-label logic of `StatusEntry::pretty_print`, returning a record |

Some modelling choices:

- A response is its option table: a map from the 16-bit option number to the
  list of byte strings stored under it.
- A `Duration` is a natural number of milliseconds.
- `u16::from_ne_bytes` is read little-endian, since the devices and hosts
  this code targets are little-endian.
- The `f64` reading is a type parameter `V` in the correlator. The JSON
  decoder keeps it as the JSON number it was written as.
- Every failure is `None`, as in the code. The code has no typed errors
  (missing separator, short field and so on). It only chains `Option`s with
  `?`, and the model follows the code.
- The validity field keeps its flag bit: an odd value `d` announces `d * 4`
  seconds with `d` taken whole. The code multiplies the whole field, and the
  model follows the code.
- `schema.dfy` also holds encoders that write each schema type as a JSON
  value. The Rust code only reads these documents; the encoders stand for
  what a device sends, and they are the partner of the round-trip lemmas
  (`BlockDescRoundTrip`, `SenDescRoundTrip`, `DescriptionRoundTrip`,
  `StatusRoundTrip`), which show that the decoders lose nothing.

## Model

| member | source | states |
|---|---|---|
| Options.Code | src/coiot.rs:13-17 | Each CoIoT option number is 3332 plus a multiple of 8. It lies in the Expert Review range 2048–64999 of RFC 7252 section 12.2. Its two low bits are clear, so it is elective and safe-to-forward (RFC 7252 section 5.4.6) |
| Options.CodesDistinct | src/coiot.rs:13-17 | The codes are exactly 3332, 3412 and 3420. Two options have equal codes exactly when they are the same option |
| Options.OnlySerialIsNoCacheKey | src/coiot.rs:13-17 | Of the three codes, only StatusSerial (3420) has the NoCacheKey bit pattern of RFC 7252 section 5.4.6 |
| Options.GetOpt | src/coiot.rs:91-94 | `get_opt` is `Some` exactly when the option number is in the response's table, and then gives the whole list stored under it |
| Options.Front | src/coiot.rs:38 | `front()` is `Some` exactly for a non-empty list, and then gives its first element |
| Options.FirstValue | src/coiot.rs:37-39 | The value the accessors read (`front()`) is the first element of the stored list. It is `None` when the option is absent or its list is empty |
| Strings.SplitOnce | src/coiot.rs:44-46 | `split_once('#')` is `None` exactly when there is no `#`. Otherwise the text is `before + "#" + after`, and `before` holds no `#` |
| Strings.RSplitOnce | src/coiot.rs:57 | `rsplit_once('#')` is `None` exactly when there is no `#`. Otherwise the text is `before + "#" + after`, and `after` holds no `#` |
| Strings.SplitOnceJoin | src/coiot.rs:44-46 | Splitting `a + "#" + b` where `a` holds no `#` gives back exactly `(a, b)` |
| Strings.RSplitOnceJoin | src/coiot.rs:57 | Right-splitting `a + "#" + b` where `b` holds no `#` gives back exactly `(a, b)` |
| Strings.ParseU32 | src/coiot.rs:60 | `u32::from_str` succeeds exactly on an optional single `+` followed by at least one decimal digit and nothing else, with a value below 2^32. The result is the decimal value of those digits |
| Strings.ParseU32ToDecimal | src/coiot.rs:60 | Every `u32` is read back from its decimal text, with or without a leading `+` |
| Strings.ParseU32Overflow | src/coiot.rs:60 | A decimal of 2^32 or more is rejected, never wrapped |
| Strings.DigitsValueLeadingZero | src/coiot.rs:60 | A leading zero never changes the value read |
| Utf8.DecodeFirst | src/coiot.rs:39 | Each character is read from 1 to 4 bytes, and one byte is used exactly for ASCII |
| Utf8.DecodeEncode | src/coiot.rs:39 | Every string survives the trip through its UTF-8 bytes |
| Utf8.Decode | src/coiot.rs:39 | Bytes that `from_utf8` accepts are exactly the encoding of the text it returns, so no two byte strings give the same id |
| Utf8.DecodeAscii | src/coiot.rs:39 | ASCII bytes always decode, one character per byte, to the same code points |
| Utf8.DecodeFirstCanonical | src/coiot.rs:39 | A decoded character re-encodes to exactly the bytes it was read from. Overlong forms are refused |
| Identity.DeviceId | src/coiot.rs:36-40 | `device_id` is `Some` exactly when the GlobalDevId option has a first value that is valid UTF-8, and the text's UTF-8 encoding is that value |
| Identity.IdentityReadsFirstValue | src/coiot.rs:36-63 | Two responses whose first GlobalDevId values agree give the same id, type, serial and version. Later values are never read |
| Identity.TypeOf | src/coiot.rs:52 | The type exists exactly when the id holds a `#`. It holds no `#` itself, and it followed by `#` is a prefix of the id |
| Identity.SerialOf | src/coiot.rs:43-48 | The serial exists exactly when the id holds at least two `#`. It holds no `#`, and type + `#` + serial + `#` is a prefix of the id |
| Identity.DeviceType | src/coiot.rs:51-53 | `device_type` is the text before the first `#` of the device id. It is `None` when the id is missing or holds no `#` |
| Identity.DeviceSerial | src/coiot.rs:42-49 | `device_serial` is the text between the first and second `#` of the device id. It is `None` when the id is missing or holds fewer than two `#` |
| Identity.VersionTag | src/coiot.rs:57-61 | `"1"` gives V1 and `"2"` gives V2, each exactly for that text. A tag that `u32::from_str` rejects gives `None`. Any other accepted tag gives `Unknown` of its value |
| Identity.VersionOf | src/coiot.rs:57-61 | An id without `#` has no version. Otherwise the version is `VersionTag` of the text after the last `#`, and that text holds no `#` |
| Identity.CoiotVersion | src/coiot.rs:55-63 | `coiot_version` is `None` when the id is missing or holds no `#`. Otherwise it is the version tag after the last `#` |
| Identity.DeviceIdentityJoin | src/coiot.rs:42-63 | For an id `t#s#v` where `t` and `s` hold no `#`, the type is `t` and the serial is `s` whatever `v` holds. The version is read from `v` when `v` holds no `#` |
| Identity.WireIdentity | src/coiot.rs:36-63 | A response carrying the UTF-8 bytes of `t#s#v` gives exactly that id, type `t`, serial `s` and the version of `v` |
| Identity.NoSeparator | src/coiot.rs:42-63 | An id without `#` has no type, no serial and no version |
| Identity.OneSeparator | src/coiot.rs:42-63 | An id with a single `#` has a type but no serial, and its version is read after that `#` |
| Identity.OnlyOneHash | src/coiot.rs:42-63 | `onlyonehash#nosecond` has type `onlyonehash`, no serial and no version |
| Identity.NonNumericTag | src/coiot.rs:60 | A tag starting with neither a digit nor `+` gives no version |
| Identity.KnownVersionTags | src/coiot.rs:58-59 | `"1"` is V1 and `"2"` is V2 |
| Identity.UnknownVersionTags | src/coiot.rs:60 | `"01"` is `Unknown(1)`, `"+2"` is `Unknown(2)` and `"3"` is `Unknown(3)` |
| Identity.DecimalVersionTag | src/coiot.rs:57-61 | The decimal text of any number other than 1 and 2 is `Unknown` of that number below 2^32, and no version at 2^32 or above |
| Identity.RejectedVersionTags | src/coiot.rs:57-61 | The empty tag, `+`, `-1` and `v2` give no version |
| Fields.LeU16 | src/coiot.rs:66 | `u16::from_ne_bytes` on a little-endian target: the low byte of the value is the first byte and the high byte is the second |
| Fields.LeU16OfBytes | src/coiot.rs:66 | Reading the little-endian bytes of a `u16` gives back the value |
| Fields.LeBytesOfU16 | src/coiot.rs:88 | Every byte pair is the little-endian form of the value read from it |
| Fields.ValidityMs | src/coiot.rs:73-79 | An odd field `d` is `d * 4000` ms, with the flag bit kept. An even field is `d * 100` ms. The period is never above 65535 × 4 s and is a whole number of tenths |
| Fields.ValidityFieldDecodes | src/coiot.rs:73-79 | Every period the reference encoder can express is decoded back to itself |
| Fields.ValidityMsEncodes | src/coiot.rs:73-79 | Every decoded period can be encoded again and decodes to the same period |
| Fields.ValidityExamples | src/coiot.rs:73-79 | 0 is 0 ms, 1 is 4 s, 2 is 200 ms and 3 is 12 s. 0xFFFF and 0xFFFE sit at the ends of their ranges |
| Fields.ValidityNotInjective | src/coiot.rs:73-79 | Fields 1 and 40 both announce 4 s |
| Fields.FirstTwoBytes | src/coiot.rs:67-69 | `get(..2)` of the first value is `Some` exactly when that value has at least two bytes, and gives bytes 0 and 1 |
| Fields.ValidityDuration | src/coiot.rs:65-80 | `validity_duration` is `None` exactly when the option is absent or its first value is shorter than two bytes. Otherwise it is the period of the little-endian field, at most 65535 × 4 s. The `unwrap` never fails |
| Fields.MsgSeqNo | src/coiot.rs:82-89 | `msg_seq_no` is `None` exactly when the option is absent or its first value is shorter than two bytes. Otherwise it is `b[0] + 256 * b[1]`, and those two bytes are its little-endian form |
| Fields.FieldsReadTwoBytes | src/coiot.rs:65-89 | Responses that agree on the first two bytes of each first value agree on both fields. Extra bytes and later values are ignored |
| Fields.WireSeqNo | src/coiot.rs:82-89 | A response carrying the little-endian bytes of `n`, followed by anything, reads back `n` |
| Schema.GenEntries | src/coiot.rs:184-188 | `gen_entries` yields every reading once, in wire order |
| Schema.SenTypeToken | src/coiot.rs:161-176 | Each category's wire token is one of the seven serde renames `A`, `I`, `E`, `EVC`, `P`, `S`, `V` |
| Schema.SenTypeOfToken | src/coiot.rs:160-176 | A token accepted as a sensor category is exactly that category's own token |
| Schema.SenTypeTokenRoundTrip | src/coiot.rs:160-176 | Each category is read back from its token, and a token names a category exactly when it is that category's token |
| Schema.AcceptedTokens | src/coiot.rs:160-176 | Exactly `A`, `I`, `E`, `EVC`, `P`, `S` and `V` are accepted |
| Schema.UnsupportedTokens | src/coiot.rs:145-176 | The documented but unsupported tokens `B`, `C`, `EV`, `H`, `L` and `T` are refused |
| Schema.DecodeU32 | src/coiot.rs:112 | A `u32` is accepted exactly from an integer literal in range |
| Schema.DecodeStr | src/coiot.rs:118 | A string field is accepted exactly from a JSON string |
| Schema.DecodeNumber | src/coiot.rs:194 | An `f64` is accepted from any JSON number, integer literals included |
| Schema.DecodeSenType | src/coiot.rs:130-131 | A category is read only from a string holding its token |
| Schema.DecodeEach | src/coiot.rs:107-109 | A `Vec` decodes exactly when every item does, with the same length and each item decoded in place |
| Schema.DecodeVec | src/coiot.rs:107-109 | Only a JSON array decodes as a `Vec` |
| Schema.DecodeOneOrMany | src/coiot.rs:137-143 | `OneOrMany` tries a single value first, which becomes a one-element list, and otherwise decodes a list |
| Schema.Required | src/coiot.rs:114-117 | A required field is `None` when its key is absent, and is otherwise its decoded value |
| Schema.Optional | src/coiot.rs:132-135 | An `Option` field is `None` when its key is absent or `null`. Any other value must decode |
| Schema.DecodeStatusEntry | src/coiot.rs:190-195 | A reading decodes exactly from an array of three items whose first two are `u32`s and whose third is a number. The result is channel, sensor id and value taken from items 0, 1 and 2: the array is exactly the reading written back in that order |
| Schema.DecodeRange | src/coiot.rs:141-143 | A bare string is a one-token range. Otherwise the range decodes exactly from an array of strings, token by token in order |
| Schema.DecodeLinks | src/coiot.rs:136-138 | A bare `u32` is a one-block list. Otherwise the links decode exactly from an array of `u32`s, id by id in order |
| Schema.DecodeBlockDesc | src/coiot.rs:113-119 | A block decodes exactly from an object with a `u32` under `I` and a string under `D`, and those keys hold its id and description |
| Schema.DecodeSenDesc | src/coiot.rs:123-139 | A sensor decodes exactly from an object with a `u32` under `I`, a string under `D`, a known category token under `T`, links under `L`, and under `U` and `R` either nothing, `null` or a decodable value. Each field of the result is what its key holds; the unit and the range are absent exactly when their key is absent or `null` |
| Schema.DecodeDescription | src/coiot.rs:105-109 | The descriptor decodes exactly when `blk` and `sen` are arrays whose every item decodes. Its blocks and sensors are those items decoded one for one, in order |
| Schema.DecodeStatus | src/coiot.rs:178-182 | The status decodes exactly when `G` is an array whose every item is a reading. `gen_entries` then lists those readings one for one, in wire order |
| Schema.OneOrManyScalar | src/coiot.rs:137-143 | A bare scalar and the one-element list holding it decode to the same list |
| Schema.LinksScalar | src/coiot.rs:136-138 | `"L": n` and `"L": [n]` both give the links `[n]` |
| Schema.RangeScalar | src/coiot.rs:134-135 | `"R": t` and `"R": [t]` both give the range `[t]` |
| Schema.BlockDescIgnoresUnknownKeys | src/coiot.rs:113-119 | A block decodes the same whatever keys other than `I` and `D` hold |
| Schema.SenDescIgnoresUnknownKeys | src/coiot.rs:123-139 | A sensor decodes the same whatever keys other than `I`, `D`, `T`, `U`, `R` and `L` hold |
| Schema.NullUnitIsAbsent | src/coiot.rs:132-133 | A sensor with `"U": null` decodes as one without the key |
| Schema.SenDescRequiresLinksAndKnownType | src/coiot.rs:123-139 | A sensor without `L`, or with an unknown category token, is refused |
| Schema.DecodeEachEncode | src/coiot.rs:107-109 | A list of items that each round-trip decodes back to the list |
| Schema.BlockDescRoundTrip | src/coiot.rs:113-119 | Every block survives the trip through its JSON form |
| Schema.SenDescRoundTrip | src/coiot.rs:123-139 | Every sensor, with or without unit and range, survives the trip through its JSON form |
| Schema.DescriptionRoundTrip | src/coiot.rs:105-109 | Every descriptor survives the trip through its JSON form |
| Schema.StatusRoundTrip | src/coiot.rs:178-195 | Every status survives the trip through its JSON form |
| Correlator.FirstSensor | src/coiot.rs:199 | `find` gives the position of the first sensor with the reading's id, or `None` exactly when no sensor has it |
| Correlator.LinkedBlocks | src/coiot.rs:200-205 | The filter keeps exactly the blocks whose id is among the sensor's links, and never more blocks than there are |
| Correlator.Correlate | src/coiot.rs:198-225 | The result is "no description" exactly when no sensor has the reading's id. Otherwise the first such sensor gives the description, the unit (empty when absent) and the range, and its linked blocks give the device label. The id and value are the reading's own |
| Correlator.LinkedBlocksAppend | src/coiot.rs:200-205 | The filter keeps descriptor order: it distributes over concatenation |
| Correlator.LinkedBlocksExtremes | src/coiot.rs:200-205 | All blocks are kept when all are linked, and none when none is |
| Correlator.ConcatDescrAppend | src/coiot.rs:209-212 | The label of several blocks runs their descriptions together with no separator, block by block |
| Correlator.ConcatDescr | src/coiot.rs:209-212 | The collected label of one block is its description, and any longer label starts with the first block's description |
| Correlator.DeviceLabel | src/coiot.rs:206-213 | No block gives `Unknown device`. One block or more gives the descriptions concatenated in order with no separator, so one block gives its own description and two give both |
| Correlator.DanglingLinks | src/coiot.rs:200-208 | A sensor whose links name no block reads as `Unknown device` |
| Correlator.FirstSensorWins | src/coiot.rs:199 | When several sensors share an id, the first one describes the reading and later ones never matter |
| Correlator.MissingUnitIsEmpty | src/coiot.rs:219 | A sensor without a unit reads with the empty unit |
| Correlator.RelayDescriptorDecodes | src/coiot.rs:105-143 | A one-relay descriptor with a power sensor linked by a bare id decodes to one block and one sensor |
| Correlator.RelayStatusDecodes | src/coiot.rs:178-195 | The status `{"G":[[0,s,x]]}` decodes to the one reading `(0, s, x)` |
| Correlator.RelayReadings | src/coiot.rs:198-225 | In the one-relay catalog, a reading of the power sensor is named after the relay with the sensor's description and unit, and any other id has no description |
| Correlator.RelayEndToEnd | src/coiot.rs:198-225 | Decoding both documents and correlating names the relay as the device, with the sensor's description and unit. A reading for any other id gives no description |

## Left out

- `src/main.rs` is not part of this model. It holds the CoAP GET requests to a fixed device address and the loop that prints every reading.
- `deserialize_payload` (src/coiot.rs:96-102) is not modelled. It covers the payload's UTF-8 check, JSON text parsing by `serde_json`, and the error path that pretty-prints the JSON with the `json` crate. That path's `unwrap` at src/coiot.rs:101 panics when the re-parse fails. The schemas are decoded from already parsed JSON values instead.
- A JSON object with a repeated key is not represented: object fields are a map.
- serde also accepts a struct written as a JSON array of its fields in order, and a unit enum variant written as a one-key object. Descriptors never use either form, so neither is modelled.
- The `f64` value is kept as the JSON number it was written as. Rounding to `f64` is not modelled, and the correlator leaves the value type open.
- The `println!` formatting of a reading (field widths and `{:8.2}`) is not modelled. The correlator returns the fields as a record.
- `u16::from_ne_bytes` is modelled for little-endian targets only.
- The CoAP packet's header, token and payload are not modelled. Only its option table is, and any other packet internals of `coap_lite` are left out.
- The multicast observer that receives status announcements does not appear in this source, and it is socket I/O.
- The `Into<u16>` conversion (src/coiot.rs:19-23) has no member of its own: `Options.Code` is that conversion.
