# OSC unbundler: a Dafny model of its OSC codec and server

`oscunbundler.rb` (ArduinoOSC-LED) is a small relay. It embeds a copy of the
ruby-osc library (module `OSC`): an Open Sound Control codec with `Message`
and `Bundle` classes, plus a UDP `Server`. The server decodes each datagram.
It hands a message at once to every handler whose pattern matches the
message address. It does the same for each element of a bundle with a `nil`
timetag. A bundle with a timetag goes onto a queue instead, and a periodic
timer releases it once the time is reached. The relay registers one handler
that forwards `/ardosc…` messages to an Arduino.

The model has two parts.

* **The codec**, as pure functions over byte sequences.
  * `Bytes`: padding, big-endian words and the signed reading of `i` words.
  * `OscValues`: the values, the constructor checks, `coerce_argument`,
    `to_a` and the two `==` methods.
  * `OscEncode`: `encoding_directive`, `Message#encode` and
    `Bundle#encode`.
  * `OscDecode`: `OSC.decode`, `Message.decode` and `Bundle.decode`. Each
    `StringScanner` step becomes a reader that returns its value and the
    unread input. Every failure carries the Ruby exception class the code
    raises.
  * `OscRoundTrip`: decode inverts encode for every packet the decoder can
    produce, nested bundles included. It also proves the failure cases.
* **The server**, as a class `OscServer.Server`.
  * Its fields are `queue` and `patterns`, which `add_pattern`,
    `delete_pattern`, `receive` and the timer update in place.
  * A ghost `log` records every handler call.
  * Each method is proved against a specification function:
    * `Dispatch.DispatchSpec` (`Dispatch.HandlersFor` for a message) for
      `dispatch`, and `Dispatch.DispatchEachSpec` for the `each` loops;
    * `Dispatch.Release` for the `delete_if` body of `check_queue`;
    * `Dispatch.Without` for `Array#delete`;
    * `OscServer.ReceiveSpec` for `receive`.
  * Lemmas about those functions give the routing, ordering and queue
    properties.
  * `OscReceive` connects the two parts: it covers what `receive` does
    with an encoded message or bundle.

The abstractions:
* A handler is a `HandlerId`.
* `pat === address` is a parameter `matches`.
* Whether a handler raises is a parameter `raises`.
* The clock reading `Time.now` is the argument `now` of `Tick`. It is an NTP
  value `seconds * 2^32 + fraction`.

Behaviours of the code that the model keeps as written:
* **Nested bundles are not flattened.** `dispatch` receives the inner
  `Bundle`, and `message.address` raises NoMethodError as soon as one
  pattern is registered. `rescue` then drops the rest of the datagram
  (`NestedBundleStopsDispatch`, `ReceiveNestedBundleCallsNothing`).
* **A bare pattern deletes nothing.** `delete_pattern(pattern)` calls
  `@patterns.delete(pattern)`, but the entries are `[pattern, block]`
  pairs. Only a whole pair equal to an entry removes anything
  (`DeleteBarePatternKeepsTable`, `DeletePairRemovesOnlyIt`).
* **An unknown tag raises NameError.** A word character other than
  `i f s b` reaches `raise DecodeError, "#{ t } …"`. `t` is undefined there,
  so the exception is a NameError, not a DecodeError (`UnknownTagFails`).
* **The empty string cannot be read back.** It encodes as four NULs, and
  the `[^\000]+\000` scan cannot read them (`EmptyStringNotDecodable`).
* **The nil sentinel is an ordinary time.** The timetag words (0, 1) that
  stand for `nil` are also a real instant. A bundle stamped with that
  instant decodes as immediate (`ImmediateSentinelCollision`).
* **An overrunning blob raises RangeError or TypeError.** When a blob length
  word overruns the input, the scanner position is still advanced by the
  padding before `Blob.new(nil)` is reached. The result is a RangeError when
  that move passes the end, and a TypeError otherwise (`BlobOverrunFails`).
* **A Blob address stays a Blob.** `Message.new` accepts a Blob as the
  address, because a Blob is a String. `encode` then writes the address in
  the blob layout, with a length word first, and `to_a` hands the Blob to the
  handlers. Such a message cannot be decoded again when its address is shorter
  than 2^24 bytes (`BlobAddressNotDecodable`).

## Model

| member | source | states |
|---|---|---|
| Bytes.PaddingSize | oscunbundler.rb:50-52 | the padding is below 4 and brings the size to a multiple of 4 |
| Bytes.PaddingIsLeast | oscunbundler.rb:50-52 | any other amount below 4 that aligns the size is the padding itself, so the padding is the least aligning amount |
| Bytes.WordBytes | oscunbundler.rb:57 | `pack('N')` gives four bytes whose big-endian value is the word |
| Bytes.WordValue | oscunbundler.rb:175 | `unpack('N')`: the big-endian value of four bytes; `WordBytes` and `WordBytesOfValue` state that it inverts `pack('N')` both ways |
| Bytes.WordBytesOfValue | oscunbundler.rb:175 | reading four bytes with `unpack('N')` and packing the value again gives back the same bytes |
| Bytes.Signed | oscunbundler.rb:174-176 | the signed reading of a word lies in the int32 range and agrees with the word modulo 2^32 |
| Bytes.SignedOfTruncated | oscunbundler.rb:174-176 | any int32, packed to its low 32 bits and read back signed, is itself |
| OscValues.CoerceArgument | oscunbundler.rb:38-44 | symbols become strings; strings, blobs, floats and Fixnums pass unchanged; anything else, Bignums included, is a TypeError |
| OscValues.CoerceAll | oscunbundler.rb:137 | it succeeds iff every argument coerces, and then yields each coerced argument in order; otherwise TypeError |
| OscValues.NewMessage | oscunbundler.rb:136-141 | it succeeds iff the arguments coerce and the address is a String (a Blob included); then it holds that address, marked as a Blob exactly when it is one, and the coerced arguments; otherwise TypeError |
| OscValues.NewBundle | oscunbundler.rb:73-78 | it succeeds iff every item is a Message or Bundle and the timetag is a Time or nil; then it holds the items in order and the timetag; otherwise TypeError |
| OscValues.ToA | oscunbundler.rb:160 | the address comes first, as a Blob when it is one and as a String otherwise, then exactly the arguments |
| OscValues.MessageEquals | oscunbundler.rb:156-158 | `Message#==` compares `to_a` element by element; `MessageEqualsIffPlainEqual` states what it decides |
| OscValues.BundleEquals | oscunbundler.rb:110-112 | `Bundle#==` compares timetags and contents; `BundleEqualsIffPlainEqual` characterises it in both directions |
| OscValues.PacketEquals | oscunbundler.rb:110-112 | `==` between bundle elements: a Message never equals a Bundle; `PacketEqualsIffPlainEqual` characterises it in both directions |
| OscValues.MessageEqualsIffPlainEqual | oscunbundler.rb:156-158 | two messages are `==` exactly when they are equal once blobs are read as strings |
| OscValues.BundleEqualsReflexive | oscunbundler.rb:110-112 | every bundle is `==` to itself, at every level of nesting |
| OscValues.ElementsEqualReflexive | oscunbundler.rb:110-112 | the element-wise comparison of a bundle's contents is reflexive |
| OscValues.PacketEqualsReflexive | oscunbundler.rb:110-112 | every message or bundle is `==` to itself |
| OscValues.BundleEqualsIffPlainEqual | oscunbundler.rb:110-112 | two bundles are `==` exactly when they have the same timetag and contents that agree element by element, at every level of nesting, with blobs read as strings |
| OscValues.ElementsEqualIffPlainEqual | oscunbundler.rb:110-112 | two bundle contents agree exactly when they have the same length and their elements are pairwise `==`, with blobs read as strings |
| OscValues.PacketEqualsIffPlainEqual | oscunbundler.rb:110-112 | `==` between bundle elements holds exactly when both are Messages that are `==` or both are Bundles that are `==`; a Message never equals a Bundle |
| OscEncode.EncodeString | oscunbundler.rb:59 | the bytes come first, then between 1 and 4 NULs, with an aligned total length |
| OscEncode.Tag | oscunbundler.rb:56-59 | the tag `encoding_directive` picks: `f`, `i`, `b` or `s` by argument kind; `ReadEncodedArg` states that each tag reads its own kind back |
| OscEncode.EncodeArg | oscunbundler.rb:54-59 | each payload is aligned; an Int gives one word holding its low 32 bits; a Blob gives a length word, the data and fewer than 4 padding bytes, all NUL |
| OscEncode.EncodeAddress | oscunbundler.rb:147-149 | the address field is aligned; for a String address it is the string field; for a Blob it is the length word of the address, its bytes and NUL padding to the next word |
| OscEncode.MessageOpensWithAddress | oscunbundler.rb:147-149 | an encoded message opens with its address field |
| OscEncode.Tags | oscunbundler.rb:144-147 | the tag string has one tag per argument, in order |
| OscEncode.Payloads | oscunbundler.rb:153 | the concatenated payloads are aligned |
| OscEncode.EncodeMessage | oscunbundler.rb:143-154 | an encoded message is aligned |
| OscEncode.EncodeTimetag | oscunbundler.rb:81-85 | the timetag is eight bytes: the words (0, 1) for nil, otherwise the seconds and fraction words |
| OscEncode.EncodeBundle | oscunbundler.rb:80-91 | an encoded bundle is aligned and starts with `#bundle\0` and then the timetag |
| OscEncode.EncodeElements | oscunbundler.rb:87-90 | the framed elements are aligned |
| OscEncode.EncodePacket | oscunbundler.rb:88 | every encoded element is aligned |
| OscDecode.NonNulPrefix | oscunbundler.rb:166 | the run of non-NUL bytes at the start, ending at the first NUL if there is one |
| OscDecode.ReadString | oscunbundler.rb:165-169 | on success the string is non-empty and NUL-free, it is followed by a NUL, and the read skips the padding; it is NoMethodError exactly when the input is empty, starts with NUL or holds no NUL; it succeeds exactly when a NUL follows a non-empty run and the padding after it fits in the input; any other failure is RangeError |
| OscDecode.ReadArg | oscunbundler.rb:172-190 | on success it reads an argument of the announced tag that the decoder can produce; it is NameError exactly for a tag outside `i f s b` |
| OscDecode.DecodeArgs | oscunbundler.rb:171-191 | every decoded argument is one the decoder can produce |
| OscDecode.DecodeMessage | oscunbundler.rb:163-194 | a decoded message has a non-empty, NUL-free address and decoder-produced arguments |
| OscDecode.DecodeTimetag | oscunbundler.rb:97 | the result is nil exactly for the words (0, 1), and otherwise those two words |
| OscDecode.HasBundlePrefix | oscunbundler.rb:47 | the `/^#bundle/` test at the start of the input; `BundleRoundTrip` states that every encoded bundle passes it, `MessageEncodingIsNotBundle` that a message with a String address not starting with `#bundle` does not |
| OscDecode.DecodeBundle | oscunbundler.rb:93-108 | `Bundle.decode`; `ReadBundle`, `BundleRoundTrip`, `ImmediateSentinelCollision` and `ElementOverrunFails` state what it returns |
| OscDecode.DecodeElements | oscunbundler.rb:101-105 | the element loop of `Bundle.decode`; `ReadFramed`, `ElementsRoundTrip` and `ElementOverrunFails` state what it returns |
| OscDecode.DecodePacket | oscunbundler.rb:46-48 | a successful decode is a Bundle exactly when the input starts with `#bundle` |
| OscRoundTrip.ReadEncodedString | oscunbundler.rb:165-169 | a non-empty NUL-free string field reads back as the string, leaving exactly the bytes after it |
| OscRoundTrip.ReadEncodedArg | oscunbundler.rb:172-187 | every decodable argument reads back from its payload under its own tag, leaving exactly the bytes after it |
| OscRoundTrip.ReadEncodedBlob | oscunbundler.rb:183-187 | a blob shorter than 2^32 bytes reads back from its length word, data and padding |
| OscRoundTrip.DecodeEncodedArgs | oscunbundler.rb:171-191 | the tags and payloads of decodable arguments decode back to the same arguments |
| OscRoundTrip.DecodeArgsAfter | oscunbundler.rb:171-191 | the tags and payloads of decodable arguments, followed by any tags and bytes, decode to those arguments and then what the rest decodes to, or fail with the rest's error |
| OscRoundTrip.DecodeMessageAfterArgs | oscunbundler.rb:165-193 | `Message.decode` of an address and of the tags and payloads of decodable arguments followed by more: the message of those arguments and what the rest decodes to, or the rest's error |
| OscRoundTrip.DecodeArgsCons | oscunbundler.rb:172-173 | the tag loop reads one encoded argument, then carries on with the next tag on the rest |
| OscRoundTrip.TagStringNulFree | oscunbundler.rb:147 | the tag string `,` + tags contains no NUL, so it is readable as a string field |
| OscRoundTrip.SkipComma | oscunbundler.rb:172 | the leading `,` is not a word character and is skipped |
| OscRoundTrip.DecodeMessageFields | oscunbundler.rb:165-169 | the encoded address and tag-string fields read back, and argument decoding starts right after them |
| OscRoundTrip.MessageRoundTrip | oscunbundler.rb:163-194 | `Message.decode` inverts `Message#encode` for every decodable message |
| OscRoundTrip.MessageEncodingIsNotBundle | oscunbundler.rb:47 | an encoded message whose address does not start with `#bundle` is not taken for a bundle |
| OscRoundTrip.PacketRoundTrip | oscunbundler.rb:46-48 | `OSC.decode` inverts `encode` for every decodable message or bundle, nested bundles included |
| OscRoundTrip.BundleRoundTrip | oscunbundler.rb:93-108 | an encoded bundle starts with `#bundle`, and `Bundle.decode` gives back the same bundle |
| OscRoundTrip.ReadBundle | oscunbundler.rb:94-97 | the header is stripped, the two timetag words are read, and the rest is decoded as elements |
| OscRoundTrip.ElementsRoundTrip | oscunbundler.rb:101-105 | the framed elements of decodable packets decode back to the same packets, in order |
| OscRoundTrip.EncodeElementsFirst | oscunbundler.rb:87-90 | the first frame of the elements is the length word of the first encoded element, then that element |
| OscRoundTrip.ReadFramed | oscunbundler.rb:101-105 | one framed element that decodes, followed by any bytes, decodes to that element and then what the bytes decode to, or fails with their error |
| OscRoundTrip.ElementsAfter | oscunbundler.rb:101-105 | the framed elements of decodable packets, followed by any bytes, decode to those packets and then what the bytes decode to, or fail with their error |
| OscRoundTrip.ImmediateSentinelCollision | oscunbundler.rb:97 | a bundle stamped with the instant (0, 1) decodes with a nil timetag |
| OscRoundTrip.ElementOverrunFails | oscunbundler.rb:102-104 | after any decodable elements, a length word claiming more bytes than remain makes `OSC.decode` raise NoMethodError |
| OscRoundTrip.ShortLengthWordFails | oscunbundler.rb:102-103 | after any decodable elements, one to three trailing bytes make `OSC.decode` raise NoMethodError |
| OscRoundTrip.BlobAddressNotDecodable | oscunbundler.rb:165-167 | a message whose Blob address is shorter than 2^24 bytes encodes to bytes that `OSC.decode` rejects with NoMethodError |
| OscRoundTrip.BlobOverrunFails | oscunbundler.rb:184-187 | after any decodable arguments, a blob length word claiming more bytes than remain fails with TypeError, or with RangeError when the padding already passes the end, whatever tags follow |
| OscRoundTrip.UnknownTagFails | oscunbundler.rb:188-189 | after the tags of any decodable arguments, an unknown word-character tag fails with NameError, whatever follows |
| OscRoundTrip.EmptyStringNotDecodable | oscunbundler.rb:180-181 | a message whose arguments are decodable ones, then an empty string, then any others, fails to decode with NoMethodError |
| OscRoundTrip.ArdoscExample | oscunbundler.rb:46-48 | a concrete message whose address the relay's `ardosc` pattern matches, `/ardosc/1` carrying 42 and "on", decodes back to itself through `OSC.decode` |
| Dispatch.Matching | oscunbundler.rb:253-254 | an entry is selected iff it is in the table and its pattern matches the address; no entry is selected more often than it is registered |
| Dispatch.MatchingKeepsOrder | oscunbundler.rb:253-254 | selection keeps registration order: the matches among earlier entries come before those among later ones |
| Dispatch.CallsTo | oscunbundler.rb:254 | one call per entry, in order, each with the same arguments |
| Dispatch.RunCallsStopsAtFirstRaise | oscunbundler.rb:252-256 | the calls made are a prefix of the intended ones; all of them if the pass completes; otherwise they end with the first call that raises, and no earlier call raises |
| Dispatch.RunCallsCompletes | oscunbundler.rb:252-256 | the pass completes iff no intended call raises |
| Dispatch.HandlersFor | oscunbundler.rb:253-255 | the `@patterns.each` loop of `dispatch` for a message; `HandlersForCallsMatching` and `RunCallsStopsAtFirstRaise` state which handlers it calls, in what order, and where it stops |
| Dispatch.DispatchSpec | oscunbundler.rb:252-256 | `dispatch` of a message or of an unflattened bundle; `NestedBundleStopsDispatch` states the bundle case |
| Dispatch.DispatchEachSpec | oscunbundler.rb:231 | `each { \|m\| dispatch m }` over a bundle's elements, stopping at the first raise; `Server.DispatchEach` is proved against it |
| Dispatch.Due | oscunbundler.rb:245 | `now >= bundle.timetag`; `DuePendingMembers` and `DuePendingPartition` state how it splits the queue |
| Dispatch.Release | oscunbundler.rb:244-247 | the `delete_if` pass; `ReleaseDispatchesDueInOrder`, `ReleaseKeepsPending`, `ReleaseStopKeepsRest` and `ReleaseKeepsTimed` state what it calls and keeps |
| Dispatch.HandlersForCallsMatching | oscunbundler.rb:252-256 | `dispatch` of a message calls each matching handler in registration order with `to_a`, until one raises |
| Dispatch.NestedBundleStopsDispatch | oscunbundler.rb:254 | with any pattern registered, a nested bundle stops the pass over its enclosing bundle before any handler runs |
| Dispatch.DuePendingMembers | oscunbundler.rb:244-247 | a queued bundle is due at `now` iff its timetag has passed, and pending iff it has not |
| Dispatch.DuePendingPartition | oscunbundler.rb:244-247 | the due and pending bundles together are exactly the queue, counted with multiplicity |
| Dispatch.ReleaseDispatchesDueInOrder | oscunbundler.rb:244-247 | a tick's handler calls are those of the due bundles, in queue order, until one raises |
| Dispatch.ReleaseKeepsPending | oscunbundler.rb:244-247 | a tick that completes leaves exactly the pending bundles, in order |
| Dispatch.ReleaseKeepsTimed | oscunbundler.rb:244-247 | a tick keeps only bundles that carry a timetag |
| Dispatch.ReleaseStopKeepsRest | oscunbundler.rb:244-247 | a tick stopped by a raising bundle leaves the pending bundles before it, then that bundle and everything after it |
| Dispatch.Without | oscunbundler.rb:225 | an entry survives iff it was in the table and differs from the argument; no entry survives more often than it was there |
| Dispatch.DeleteBarePatternKeepsTable | oscunbundler.rb:224-226 | `delete_pattern` with a bare pattern leaves the table unchanged |
| Dispatch.DeletePairRemovesOnlyIt | oscunbundler.rb:224-226 | deleting a pair removes every copy of it and keeps every other entry as many times as before |
| OscServer.ReceiveSpec | oscunbundler.rb:228-237 | what `receive` does with one datagram; `OscReceive.MalformedDatagramDropped`, `ReceiveMessage`, `ReceiveImmediateBundle`, `ReceiveTimedBundle` and `ReceiveNestedBundleCallsNothing` state each case |
| OscServer.Server.constructor | oscunbundler.rb:201-203 | a new server has an empty queue and an empty table |
| OscServer.Server.AddPattern | oscunbundler.rb:219-222 | without a block it raises ArgumentError and leaves the table alone; with one it appends `[pattern, block]` |
| OscServer.Server.DeletePattern | oscunbundler.rb:224-226 | the table loses exactly the entries equal to the argument, and is unchanged for a bare pattern |
| OscServer.Server.Dispatch | oscunbundler.rb:252-256 | the log grows by exactly the calls of `DispatchSpec`, and the result says whether the pass completed: for a message those are the calls of `HandlersFor`; for a Bundle there are none, and the pass raises iff the table is non-empty |
| OscServer.Server.DispatchEach | oscunbundler.rb:231 | the log grows by the calls for each element in order, stopping at the first dispatch that raises |
| OscServer.Server.Receive | oscunbundler.rb:228-237 | it queues a timed bundle; it dispatches a message or an immediate bundle; anything raised is rescued; the queue keeps its timetag invariant |
| OscServer.Server.Tick | oscunbundler.rb:240-250 | the queue and log become exactly those of `Release` at `now`, and the queue keeps its timetag invariant |
| OscReceive.MalformedDatagramDropped | oscunbundler.rb:235-236 | a datagram that does not decode calls nothing, leaves the queue alone and is rescued |
| OscReceive.ReceiveMessage | oscunbundler.rb:232-233 | an encoded message is dispatched to its matching handlers, and the queue is unchanged |
| OscReceive.ReceiveImmediateBundle | oscunbundler.rb:231 | an encoded bundle with a nil timetag has its elements dispatched at once, in order |
| OscReceive.ReceiveTimedBundle | oscunbundler.rb:231 | an encoded bundle with a timetag is appended to the queue, and nothing is called |
| OscReceive.ReceiveNestedBundleCallsNothing | oscunbundler.rb:231 | an immediate bundle whose first element is a bundle calls no handler once any pattern is registered |
| OscReceive.TickReleasesAtTimetag | oscunbundler.rb:244-247 | a bundle anywhere in the queue stays queued after a tick before its timetag, even when another bundle's dispatch raises; at or after its timetag it is one of the due bundles whose dispatches make the tick's calls, in queue order, and it leaves the queue once that tick completes |

## Left out

- EventMachine: the reactor thread, `run`, `stop`, the UDP `Connection` and the periodic timer itself. `Tick` models one firing of the timer, with the clock passed in as `now`.
- `Client` and the relay script's UDP send are left out; they are network I/O.
- The `Mutex` around the queue is left out. The model is sequential, and each `Receive` and `Tick` runs atomically.
- Floats are kept as their four big-endian bytes. `pack('g')`/`unpack('g')` rounding, NaN and Ruby's `1 == 1.0` are not modelled.
- The conversion between Ruby `Time` and NTP words is left out, because it is floating-point arithmetic (the `Time` branch of `encoding_directive` and the `Time.at` in `Bundle.decode`). Timetags are kept as their two words.
- `pat === address` is a parameter `matches`; Regexp semantics are not modelled.
- `OscDecode.DecodeElements`: the scans `/.{4}/` without the `m` flag (the bundle element length and the blob length) fail on a newline byte in Ruby. The model reads any four bytes.
- `OscDecode.DecodePacket`: `/^#bundle/` and `sub!(/^#bundle\000/)` also match after a newline in Ruby. The model tests only a prefix at the start.
- Onigmo's limit on repeat counts in `/.{N}/` (a RegexpError for very large N) is not modelled.
- `OSCArgument#to_osc_type`: custom argument objects and `args.flatten!` are left out. Only the built-in argument kinds are modelled.
- String sizes are byte counts. Multibyte encodings, where `size` counts characters, are not modelled.
- The Fixnum range is taken as 64-bit MRI before Integer unification. On Ruby 2.4 to 3.1 `Fixnum` names `Integer`, so Bignums would pass `coerce_argument`. Ruby 3.2 removed the constant. From then on, `coerce_argument` raises NameError instead of TypeError for every argument that is not an `OSCArgument`, a Symbol, a String (a Blob included) or a Float, because the `when` list reaches `Fixnum` for it; Integers are among these. `encoding_directive` likewise raises NameError for every object except a Float. That includes the address and tag strings, so every `Message#encode` fails. The model follows the Fixnum semantics.
- Only exceptions that `rescue => e` catches (StandardError) are modelled. A handler's own side effects are outside the model; only its call is logged.
- What the timer does after an exception escapes a tick (the EventMachine error handler) is left out.
- `Dispatch.Release`: after a raise inside `delete_if`, the removals already made are kept and the failing bundle stays queued. This is the behaviour of current Ruby; older Ruby versions may differ.
- `Dispatch.Due`: a bundle with a nil timetag is treated as not due. That case never arises, because `receive` queues only bundles that carry a timetag (`Server.Valid`).
- `OscDecode.ReadArg`: its contract does not say which suffix of the input is left unread. That is stated for encoded inputs by `OscRoundTrip.ReadEncodedArg`.
