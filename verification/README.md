# Verified models of five programs

Dafny models, with proofs, of the parts of this repository that hold state machines or codecs:

1. **The AddressBook codec** (`Wire`, `WireLayout`, `Scalars`, `Utf8`, `Messages`, `Codec*`, `Printing`, `ParseCases`,
   `Cpp*`, `Js*`). `WireLayout` and `Utf8` say what the bytes are, apart from the functions that read and write them.
   `Messages` says what a record does to a message and how a message is printed; the three C++ classes and the
   JavaScript reader and writer are imperative and proved against it. The C++ objects live on the heap: messages own
   sub-messages, size caches are fields that one pass fills and the next trusts. Floats are bit patterns, strings are
   byte sequences, integers have their widths written out.
2. **The pod controller** (`WorkQueue`, `Controller`, `ControllerRuns`, `ControllerHistory`, `ControllerRetries`,
   `ControllerLoop`). The queue and the worker code are objects; the same operations on values are the atomic steps of
   a state machine with any number of workers, an informer and retry timers, and `ItemIsARun` ties the two together.
   `ControllerHistory` reads what happened off the steps of a run.
3. **The shared informer factory** (`InformerFactory`), as an object and as a state machine in which `Start` holds the
   lock over many steps while goroutines finish and any number of `Shutdown` callers arrive and wait.
4. **The Redis transfer** (`RedisStore`, `RedisTransfer`, `RedisRuns`, `RedisPlain`, `RedisClient`): any number of
   transfers and overwrites, interleaved command by command, both under WATCH and EXEC and as the plain pipeline, and
   the client programs.
5. **The protoc plugin** (`GoNames`, `GoPlugin`, `GoReader`, `GoStructs`): a compiler from a descriptor tree to Go
   text, and a reader of that text on characters alone.

## Choices

- The varint, tag and record formats are those of the Protocol Buffers Encoding specification, sections "Base 128
  Varints", "Message Structure", "Length-Delimited Records" and "Last One Wins".
- A read past the end of the input is a parse failure; the runtime's buffering is not modelled beyond that.
- `Timestamp`'s generated C++ code is not part of this model's sources; it is modelled in the generated shape of the
  other messages, with `seconds` = 1 and `nanos` = 2.
- The C++ repeated-field merge copies each element by merging it into a new one, so a -0.0 inside a copied person
  becomes +0.0, as it does when a message is printed and parsed. `DropSign` and `UnsignBook` name that difference.
- The JavaScript runtime is not part of this model: its reader is taken to throw on a known field number with a foreign
  wire type, its numbers to have one NaN pattern, its enum to be cut to 32 bits, and its `nextField` to accept an
  end-group tag, at which the generated loops stop and return.
- The transfer's comments describe WATCH / MULTI / EXEC, while `db-engines/redis/transaction/ex04-watch.go:90` calls
  `Pipelined`, which sends no MULTI. Both readings are modelled: `Transactional` is what the comments describe, `Plain`
  the call as written. The theorems are stated for both modes, and for the plain one from the starts in `PlainSafe`;
  `RedisPlain.PlainSerialIff` shows that those are exactly the starts from which it is serial.
- In Redis a value can be a number for Go and not for Redis (`Loose`), and EXEC does not undo one command when the other
  fails. `TotalsIff` says exactly when the totals are right all the same.
- A Go string in the plugin is its bytes, each a character below 256; `string(c)` of a byte from 128 on is two bytes.

## Properties that do not hold as one would first state them

- Re-printing a parsed message is not always shorter: an id read from five varint bytes is written in ten
  (`CodecAcceptance.ReprintCanGrow`); twice the input is a bound (`CodecGrowth.ReprintAtMostDoubles`), and it
  does not grow when no negative 32-bit number is read from a record of fewer than eleven bytes
  (`CodecGrowth.ReprintDoesNotGrow`).
- Joining any two accepted inputs is merging for an AddressBook, printed or not. For a Person it is so exactly when no
  zero or empty value written in the second overrides something in the first (`CodecOverlay.PersonJoinIff`, an input
  that fails in `CodecAcceptance.ExplicitZeroOverrides`).
- The two readers recover the same known fields except over a second last_updated; `JsAgreement.ReadersAgreeIff` is the
  exact condition. An end-group tag C++ refuses ends a JavaScript message quietly (`JsReading.EndGroupEndsQuietly`).
- The plain pipeline overdraws (`RedisPlain.PlainPipelineOverdraws`); `RedisPlain.PlainSerialIff` says exactly when it
  cannot.
- A message with text that is not UTF-8 prints and does not parse; `CodecAcceptance.SurvivesIff` is the exact condition,
  and `Utf8.ValidIffText` says what UTF-8 is.
- JavaScript cannot read every C++ output: unknown fields kept under a known number stop it (`JsCodec.JsReadsCpp`, an
  if and only if).
- `camelCase` is idempotent on exactly the ASCII names, and can be undone on exactly the names in `Snake`.
- Struct names can collide when a simple name has an underscore (`GoStructs.UnderscoreCollides`).

## Model

| member | source | states |
|---|---|---|
| Wire.VarintRoundTrip | protocol-buffers/basics/README.md:139-141 | reading the base-128 form of any 64-bit value, with anything after it, gives the value and the number of bytes written |
| Wire.TenBytesIffNegative | protocol-buffers/basics/encoding/varint/varint.go:29-37 | a signed number takes ten varint bytes exactly when it is negative |
| Wire.FixedRoundTrip | protocol-buffers/basics/README.md:107-116 | little-endian fixed-width values are read back |
| Wire.TagRoundTrip | protocol-buffers/basics/README.md:118-123 | a printed tag is read back, and splits into the field number and wire type it was made of |
| Wire.RecordRoundTrip | protocol-buffers/basics/README.md:91-95 | one record is read back whole, whatever follows it |
| Wire.RecordsRoundTrip | protocol-buffers/basics/README.md:91-95 | a printed list of records is read back as that list |
| Wire.ReadRecordsConcat | protocol-buffers/basics/README.md:91-95 | the records of two joined record streams are the records of both, in order |
| WireLayout.VarintLayout | protocol-buffers/basics/README.md:139-141 | a written varint is the value in base 128, least digit first, with the top bit set on every byte but the last |
| WireLayout.ReadVarintIff | protocol-buffers/basics/README.md:139-141 | a varint is read as v from n bytes exactly when the first byte without a top bit is the n-th, within the limit, and v is the base-128 sum; padded forms included |
| WireLayout.FixedLayout | protocol-buffers/basics/README.md:107-116 | a fixed-width value is read as the base-256 sum of its bytes, the first byte the least |
| WireLayout.FixedWritten | protocol-buffers/basics/README.md:107-116 | and written as the k bytes with that sum |
| WireLayout.ReadRecordIff | protocol-buffers/basics/README.md:118-123 | one record is read exactly where the bytes spell it: a tag of one to five bytes cut to 32 bits, then the payload that its wire type names, padded varints included |
| WireLayout.ReadRecordsIff | protocol-buffers/basics/README.md:91-95 | a buffer is read as these records exactly when it spells them one after the other |
| WireLayout.SignedIs | protocol-buffers/basics/api/service/v1/addressbook.pb.cc:540-545 | a varint read into an int32 or int64 is the number in range that is congruent to it |
| WireLayout.DemoId | protocol-buffers/basics/encoding/varint/varint.go:13-15 | the person of id 100000 is printed as 10 A0 8D 06 |
| WireLayout.EveryFieldLiteral | protocol-buffers/basics/api/service/v1/addressbook.pb.cc:610-676 | the bytes in full of a person with every field set: name, id, email, a phone, last_updated, height 1.75, weight 1.0 |
| WireLayout.BookLiteral | protocol-buffers/basics/api/service/v1/addressbook.pb.cc:923-943 | and of the book that holds that person |
| Utf8.ValidIffText | protocol-buffers/basics/api/service/v1/addressbook.pb.cc:535-551 | the text check accepts exactly the encodings, one to four bytes each, of sequences of code points up to 0x10FFFF without surrogates |
| Utf8.TextIsInjective | protocol-buffers/basics/api/service/v1/addressbook.pb.cc:535-551 | a text is the encoding of one sequence of code points only |
| Codec.ParseConcat | protocol-buffers/basics/api/service/v1/addressbook.pb.cc:525-601 | parsing joined bytes is parsing the second half into what the first half gave |
| Codec.ParseHeader | protocol-buffers/basics/api/service/v1/addressbook.pb.cc:525-528 | one turn of the parse loop reads a tag and goes on with the switch, or fails where the record stream is malformed |
| Codec.PhoneMerges | protocol-buffers/basics/api/service/v1/addressbook.pb.cc:244-381 | applying a phone's printed records to any phone is exactly MergeFrom |
| Codec.PersonMerges | protocol-buffers/basics/api/service/v1/addressbook.pb.cc:522-781 | the same for a person: scalars last-wins, phones appended, last_updated merged, unknown fields appended |
| Codec.BookMerges | protocol-buffers/basics/api/service/v1/addressbook.pb.cc:881-991 | the same for an address book |
| CodecLaws.RoundTrip | protocol-buffers/basics/api/service/v1/addressbook.pb.cc:881-967 | parsing a printed book returns it, with -0.0 as +0.0, for every book of less than 2^31 bytes whose text is UTF-8 as in `Utf8.ValidIffText` |
| CodecLaws.AppendIsMerge | protocol-buffers/basics/api/service/v1/addressbook.pb.cc:881-943 | appending a printed book to any parsed input merges it into what was parsed |
| CodecLaws.ConcatenationIsMerge | protocol-buffers/basics/api/service/v1/addressbook.pb.cc:881-991 | parsing Serialize(a) followed by Serialize(b) is MergeFrom of a and b, up to signed zero |
| CodecLaws.PersonConcatenationIsMerge | protocol-buffers/basics/api/service/v1/addressbook.pb.cc:522-781 | the same for two printed people |
| CodecLaws.MergePersonAssociative | protocol-buffers/basics/api/service/v1/addressbook.pb.cc:755-781 | merging people is associative, exactly |
| CodecLaws.MergePhoneAssociative | protocol-buffers/basics/api/service/v1/addressbook.pb.cc:368-381 | merging phones is associative, exactly |
| CodecLaws.MergeBookAssociative | protocol-buffers/basics/api/service/v1/addressbook.pb.cc:984-991 | merging books is associative, exactly |
| CodecLaws.MergeIdentity | protocol-buffers/basics/api/service/v1/addressbook.pb.cc:503-520 | the cleared message is a right identity, and a left identity up to signed zero |
| CodecLaws.ParsedBooksAreOk | protocol-buffers/basics/api/service/v1/addressbook.pb.cc:529-599 | whatever parses has UTF-8 text and only unknown fields among its unknown fields |
| CodecLaws.PhoneKeepsUnknown | protocol-buffers/basics/api/service/v1/addressbook.pb.cc:249-284 | the records a phone does not know, known numbers with a foreign wire type among them, are kept in order |
| CodecLaws.TimeKeepsUnknown | protocol-buffers/basics/api/service/v1/addressbook.pb.cc:567-573 | the same for the timestamp a person embeds |
| CodecLaws.PersonKeepsUnknown | protocol-buffers/basics/api/service/v1/addressbook.pb.cc:588-599 | the same for a person |
| CodecLaws.BookKeepsUnknown | protocol-buffers/basics/api/service/v1/addressbook.pb.cc:903-915 | the same for an address book |
| CodecGrowth.ReprintAtMostDoubles | protocol-buffers/basics/api/service/v1/addressbook.pb.cc:945-967 | printing what any accepted input parsed to takes at most twice the input |
| CodecGrowth.ReprintDoesNotGrow | protocol-buffers/basics/api/service/v1/addressbook.pb.cc:945-967 | it takes no more than the input unless some id, type or nanos at some level is negative and was read from a record under eleven bytes |
| CodecGrowth.Int32GrowsIff | protocol-buffers/basics/api/service/v1/addressbook.pb.cc:678-738 | the field of a single such record grows exactly then |
| CodecGrowth.NormalForm | protocol-buffers/basics/api/service/v1/addressbook.pb.cc:529-600 | for every accepted input, Parse(Serialize(Parse(b))) = Parse(b) up to signed zero, and the bytes are then fixed |
| CodecGrowth.NormalFormBelowGuard | protocol-buffers/basics/api/service/v1/addressbook.pb.cc:881-967 | inputs under 2^30 bytes never meet the size guard |
| CodecGrowth.PrintingIsInjective | protocol-buffers/basics/api/service/v1/addressbook.pb.cc:610-676 | two books print alike exactly when they differ in signs of zeros only |
| CodecAcceptance.AcceptedIff | protocol-buffers/basics/api/service/v1/addressbook.pb.cc:522-608 | an input is accepted exactly when it and every embedded message is a record stream as in `WireLayout.ReadRecordsIff` and every string is UTF-8 as in `Utf8.ValidIffText` |
| CodecAcceptance.SurvivesIff | protocol-buffers/basics/api/service/v1/addressbook.pb.cc:535-551 | a printed book parses to the same book, up to signed zero, exactly when all its text is UTF-8, as in `Utf8.ValidIffText` |
| CodecAcceptance.AnyConcatenationIsMerge | protocol-buffers/basics/api/service/v1/addressbook.pb.cc:881-991 | joining any two accepted book inputs, printed or not, is merging what they parse to |
| CodecOverlay.PersonJoinIff | protocol-buffers/basics/api/service/v1/addressbook.pb.cc:522-781 | joining any two accepted Person inputs is MergeFrom of what they parse to, up to signed zero, exactly when no zero or empty value written in the second overrides something in the first |
| CodecOverlay.LastUpdatedIs | protocol-buffers/basics/api/service/v1/addressbook.pb.cc:567-573 | however many last_updated records there are, their payloads are read as one stream into one timestamp |
| CodecAcceptance.ExplicitZeroOverrides | protocol-buffers/basics/api/service/v1/addressbook.pb.cc:540-545 | an input where it fails: an id of zero written by hand overrides 5, where MergeFrom keeps 5 |
| CodecAcceptance.ReprintCanGrow | protocol-buffers/basics/encoding/varint/varint.go:29-37 | six accepted bytes whose message prints in eleven |
| CppRuntime.CachedPrefixExact | protocol-buffers/basics/api/service/v1/addressbook.pb.h:354 | a length prefix written from an exact size cache is the varint of the size |
| CppLeaves.PhoneNumber.InternalParse | protocol-buffers/basics/api/service/v1/addressbook.pb.cc:245-290 | the parse loop on a phone ends, within bounds, in exactly the message the record stream denotes, or fails when there is none |
| CppLeaves.PhoneNumber.ByteSizeLong | protocol-buffers/basics/api/service/v1/addressbook.pb.cc:323-351 | returns the printed length and caches it |
| CppLeaves.PhoneNumber.InternalSerialize | protocol-buffers/basics/api/service/v1/addressbook.pb.cc:292-321 | appends exactly the printed phone to the output |
| CppLeaves.PhoneNumber.MergeFrom | protocol-buffers/basics/api/service/v1/addressbook.pb.cc:368-381 | changes the phone to the merge of both |
| CppPerson.Person.Copy | protocol-buffers/basics/api/service/v1/addressbook.pb.cc:441-464 | the copy constructor keeps everything, scalars bit by bit, and shares no sub-message |
| CppPerson.Person.Clear | protocol-buffers/basics/api/service/v1/addressbook.pb.cc:503-520 | leaves the empty person, owning nothing |
| CppPerson.Person.AddPhones | protocol-buffers/basics/api/service/v1/addressbook.pb.h:996-998 | appends one new, empty phone and returns it |
| CppPerson.Person.MutableLastUpdated | protocol-buffers/basics/api/service/v1/addressbook.pb.h:1052-1059 | returns the existing timestamp, or a new empty one when there is none |
| CppPerson.Person.ParsePhones | protocol-buffers/basics/api/service/v1/addressbook.pb.cc:556-566 | the inner loop that stays on tag 34 gives the message and cursor that re-reading a tag for every element gives |
| CppPerson.Person.ParseLastUpdated | protocol-buffers/basics/api/service/v1/addressbook.pb.cc:567-573 | a second last_updated is parsed into the first |
| CppPerson.Person.InternalParse | protocol-buffers/basics/api/service/v1/addressbook.pb.cc:522-608 | the parse loop on a person ends in exactly the message the bytes denote, at the end of its input, or fails when they denote none |
| CppPerson.Person.ByteSizeLong | protocol-buffers/basics/api/service/v1/addressbook.pb.cc:678-738 | returns the printed length and leaves every nested size cache exact |
| CppPerson.Person.InternalSerialize | protocol-buffers/basics/api/service/v1/addressbook.pb.cc:610-676 | with exact caches, appends exactly the printed person: every length prefix is right |
| CppPerson.Person.MergeFrom | protocol-buffers/basics/api/service/v1/addressbook.pb.cc:755-781 | changes the person to the merge of both; the two still share no sub-message |
| CppPerson.Person.CopyFrom | protocol-buffers/basics/api/service/v1/addressbook.pb.cc:790-795 | equal up to signed zero, every sub-message new, and nothing happens when copying from itself |
| CppPerson.Person.SerializeToString | protocol-buffers/basics/demo.cc:21-26 | one size pass and one write pass give exactly the printed person, refused from 2^31 bytes on |
| CppPerson.Person.ParseFromString | protocol-buffers/basics/demo.cc:28-33 | clears, and ends in exactly the person the bytes denote or fails when they denote none |
| CppPerson.PersonThroughBytes | protocol-buffers/basics/demo.cc:21-33 | printing one object and parsing into another makes them equal up to signed zero, sharing nothing |
| CppAddressBook.AddressBook.ParsePeople | protocol-buffers/basics/api/service/v1/addressbook.pb.cc:890-900 | the inner loop on tag 10 refines re-reading a tag for every person |
| CppAddressBook.AddressBook.InternalParse | protocol-buffers/basics/api/service/v1/addressbook.pb.cc:881-921 | the parse loop on a book gives exactly what the bytes denote, keeping the people apart on the heap |
| CppAddressBook.AddressBook.ByteSizeLong | protocol-buffers/basics/api/service/v1/addressbook.pb.cc:945-967 | returns the printed length and leaves the size caches of all three levels exact |
| CppAddressBook.AddressBook.InternalSerialize | protocol-buffers/basics/api/service/v1/addressbook.pb.cc:923-943 | with exact caches, appends exactly the printed book |
| CppAddressBook.AddressBook.MergeFrom | protocol-buffers/basics/api/service/v1/addressbook.pb.cc:984-991 | changes the book to the merge of both, adding new people only; the source keeps its value, and books that share nothing still share nothing |
| CppAddressBook.AddressBook.CopyFrom | protocol-buffers/basics/api/service/v1/addressbook.pb.cc:1001-1006 | an equal book up to signed zero, made of new objects only, the source unchanged |
| CppAddressBook.ChangeCopy | protocol-buffers/basics/api/service/v1/addressbook.pb.cc:984-1006 | clearing a person of a copy and merging more people into it leaves the source as it was |
| CppAddressBook.AddressBook.SerializeToString | protocol-buffers/basics/api/service/v1/addressbook.pb.cc:923-967 | one size pass and one write pass give exactly the printed book, refused from 2^31 bytes on |
| CppAddressBook.CopyThroughBytes | protocol-buffers/basics/api/service/v1/addressbook.pb.cc:881-967 | printing one book and parsing into another makes them equal up to signed zero |
| JsMessages.JsAcceptsIffTyped | protocol-buffers/basics/api/service/v1/addressbook_pb.js:160-201 | of the inputs C++ accepts, JavaScript accepts exactly those where no known number has a foreign wire type |
| JsAgreement.ReadersAgreeIff | protocol-buffers/basics/api/service/v1/addressbook_pb.js:160-201 | on an input both accept, both readers recover the same people with the same known fields, floats bit for bit or both NaN, timestamps aside; and the timestamps too exactly when, in every person with two or more last_updated records, the last one sets each of seconds and nanos that is not zero in the merge of all |
| JsAgreement.NaNIff | protocol-buffers/basics/api/service/v1/addressbook_pb.js:189-195 | the bit patterns JavaScript does not keep are those with an exponent of all ones and a fraction that is not zero |
| JsCodec.JsReadsCpp | protocol-buffers/basics/api/service/v1/addressbook_pb.js:675-694 | C++ output is readable in JavaScript exactly when no unknown field has a known number, and then field by field only unknown fields, signs of zeros and NaN patterns are lost |
| JsCodec.CppReadsJs | protocol-buffers/basics/api/service/v1/addressbook_pb.js:224-277 | C++ and JavaScript each get every JavaScript message back whole, up to signed zero |
| JsCodec.SecondTimeIsMergedOrReplaced | protocol-buffers/basics/api/service/v1/addressbook_pb.js:184-188 | one such input: C++ merges the second last_updated, JavaScript puts it in place of the first |
| JsReading.IntoAgrees | protocol-buffers/basics/api/service/v1/addressbook_pb.js:160-166 | on every record stream that C++ accepts, a JavaScript reader goes through the same records |
| JsReading.EndGroupEndsQuietly | protocol-buffers/basics/api/service/v1/addressbook_pb.js:161-164 | a single end-group tag: C++ refuses it, a JavaScript reader returns the message it has |
| JsSerializer.WritePhone | protocol-buffers/basics/api/service/v1/addressbook_pb.js:385-402 | the JavaScript writer emits the bytes of the C++ printer for a phone |
| JsSerializer.WritePerson | protocol-buffers/basics/api/service/v1/addressbook_pb.js:224-277 | and for a person, back-patched lengths included |
| JsSerializer.WriteBook | protocol-buffers/basics/api/service/v1/addressbook_pb.js:714-725 | and for an address book |
| JsSerializer.ReadPhone | protocol-buffers/basics/api/service/v1/addressbook_pb.js:343-364 | the reader loop for a phone, its stop at an end-group tag included, computes the fold of its record step, or throws when there is none |
| JsSerializer.ReadPerson | protocol-buffers/basics/api/service/v1/addressbook_pb.js:160-202 | the reader loop for a person does |
| JsSerializer.DeserializeBook | protocol-buffers/basics/api/service/v1/addressbook_pb.js:661-694 | the reader loop for a book does |
| WorkQueue.RateLimitingQueue.AddKey | kubernetes/dev/controller/sec-01-stdout/main.go:29-34 | what the handlers call: nothing once shutting down, a dirty key is not queued again, a key in processing is only marked, any other goes to the end of the queue |
| WorkQueue.GetKeeps | kubernetes/dev/controller/sec-01-stdout/main.go:58-63 | the key taken was not in processing and is dirty no more; queued is still dirty and not in processing, once |
| WorkQueue.DoneKeeps | kubernetes/dev/controller/sec-01-stdout/main.go:64-67 | a key that became dirty while in processing is queued again, once |
| Controller.StepKeeps | kubernetes/dev/controller/sec-01-stdout/main.go:58-116 | every step of every worker, of the informer and of the timers keeps exclusivity, balance, budget and no lost update |
| ControllerRuns.EveryRun | kubernetes/dev/controller/sec-01-stdout/main.go:118-143 | these hold in every state of every run, for any number of workers |
| ControllerRuns.NeverTwice | kubernetes/dev/controller/sec-01-stdout/main.go:64-67 | no key is processed by two workers at once |
| ControllerRuns.TakesMatchReturns | kubernetes/dev/controller/sec-01-stdout/main.go:60-67 | every Get is matched by one Done, but for the one still in processing |
| ControllerRuns.NothingLost | kubernetes/dev/controller/sec-01-stdout/main.go:24-49 | with nothing left to do, every key was synced at its newest version or given up at it |
| ControllerRuns.DroppedAtSix | kubernetes/dev/controller/sec-01-stdout/main.go:104-115 | a key is given up exactly at its sixth failed sync since it was last forgotten |
| ControllerRuns.NothingAddedAfterStop | kubernetes/dev/controller/sec-01-stdout/main.go:118-121 | once the queue was told to stop, in every run no key enters it that was not already dirty and no retry is scheduled |
| ControllerHistory.NoUpdateLost | kubernetes/dev/controller/sec-01-stdout/main.go:24-49 | of the events of any run that has come to rest before the stop: every update of a key was followed by a sync that succeeded, or by one that failed and after which the key was given up |
| ControllerHistory.GivenUpAtSixth | kubernetes/dev/controller/sec-01-stdout/main.go:104-115 | of the events of any run: whenever a key is given up, its sync has failed exactly six times since it was last forgotten or given up |
| ControllerHistory.TakenThenReturned | kubernetes/dev/controller/sec-01-stdout/main.go:60-67 | of the events of any run: each Get of a key has its Done, but for the one still in processing |
| ControllerHistory.RecordedFromInit | kubernetes/dev/controller/sec-01-stdout/main.go:58-116 | the versions, streaks and counts that the state keeps are those of the events |
| ControllerRetries.SixAttempts | kubernetes/dev/controller/sec-01-stdout/main.go:95-116 | a key that always fails, without new events, is taken at most six times and at most 35 steps are taken on it; it is gone exactly when all 35 were, and was then taken six times and forgotten |
| ControllerRetries.CountedStep | kubernetes/dev/controller/sec-01-stdout/main.go:58-116 | every step anyone takes on such a key leaves exactly one fewer to take, and no other step changes the number |
| ControllerRetries.SomeStepEnabled | kubernetes/dev/controller/sec-01-stdout/main.go:132-143 | until the key is gone some step on it can be taken, unless it stands in the queue, and then a worker can take its next step |
| ControllerRetries.RestIff | kubernetes/dev/controller/sec-01-stdout/main.go:132-143 | no queued key, retry, pending event or busy worker is ever stuck: the controller rests exactly when all that can happen is a new event or the stop |
| ControllerRetries.NearerToFront | kubernetes/dev/controller/sec-01-stdout/main.go:58-64 | only a Get moves a queued key, one place towards the front, and at the front takes it |
| ControllerLoop.PodController.HandleErr | kubernetes/dev/controller/sec-01-stdout/main.go:95-116 | forgets on success, schedules a retry below the budget, forgets and gives up at it |
| ControllerLoop.PodController.ProcessNextItem | kubernetes/dev/controller/sec-01-stdout/main.go:58-74 | takes, syncs, handles and gives back the first key; false exactly on an empty queue that is shutting down |
| ControllerLoop.PodController.RunWorker | kubernetes/dev/controller/sec-01-stdout/main.go:140-143 | after shutdown the loop drains the queue, each key once, schedules nothing and stops |
| ControllerLoop.ItemIsARun | kubernetes/dev/controller/sec-01-stdout/main.go:58-116 | what the worker code does to one item is a run of the state machine, whether its sync succeeds or fails |
| InformerFactory.SharedInformerFactory.constructor | kubernetes/dev/controller/sec-02-sample/pkg/generated/informers/externalversions/factory.go:90-106 | a new factory has nothing registered or started, and each setting is the one given by the last option that names it, or else the default; resync periods so for each type on its own |
| InformerFactory.SharedInformerFactory.InformerFor | kubernetes/dev/controller/sec-02-sample/pkg/generated/informers/externalversions/factory.go:164-184 | returns the registered informer, or registers one more, of that type, with the transform, and with the custom resync period of the type or else the default |
| InformerFactory.SharedInformerFactory.Start | kubernetes/dev/controller/sec-02-sample/pkg/generated/informers/externalversions/factory.go:108-130 | nothing at all once shutting down; else, whatever order the map gives, each registered type never started is launched exactly once more and no other |
| InformerFactory.OrderIrrelevant | kubernetes/dev/controller/sec-02-sample/pkg/generated/informers/externalversions/factory.go:116-129 | visiting the types one by one, in any order and even repeatedly, launches each unstarted one once |
| InformerFactory.SharedInformerFactory.WaitForCacheSync | kubernetes/dev/controller/sec-02-sample/pkg/generated/informers/externalversions/factory.go:141-160 | reports exactly the types that are registered and started at the snapshot |
| InformerFactory.SharedInformerFactory.BeginShutdown | kubernetes/dev/controller/sec-02-sample/pkg/generated/informers/externalversions/factory.go:132-135 | the locked half of Shutdown sets the flag and nothing else |
| InformerFactory.EveryRun | kubernetes/dev/controller/sec-02-sample/pkg/generated/informers/externalversions/factory.go:108-139 | in every state of every run of any number of callers: one informer per type, started types registered and launched once, the WaitGroup counting the running ones |
| InformerFactory.SameInformerForever | kubernetes/dev/controller/sec-02-sample/pkg/generated/informers/externalversions/factory.go:168-172 | once a type has an informer, InformerFor returns that one for ever |
| InformerFactory.LaunchedOnce | kubernetes/dev/controller/sec-02-sample/pkg/generated/informers/externalversions/factory.go:116-129 | a started type is registered and was launched exactly once, an unstarted one never |
| InformerFactory.WaitGroupCounts | kubernetes/dev/controller/sec-02-sample/pkg/generated/informers/externalversions/factory.go:117-126 | the WaitGroup is the started informers less the finished ones, never negative |
| InformerFactory.NoStartAfterShutdown | kubernetes/dev/controller/sec-02-sample/pkg/generated/informers/externalversions/factory.go:132-139 | after the flag is set nothing is launched and the WaitGroup only falls, so no Add follows a Wait |
| InformerFactory.StartIsARun | kubernetes/dev/controller/sec-02-sample/pkg/generated/informers/externalversions/factory.go:108-130 | a call of the object's Start is a run of the state machine, for every order of the map: BeginStart alone once shutting down, else one step for each registered type under the lock |
| InformerFactory.ShutdownWaits | kubernetes/dev/controller/sec-02-sample/pkg/generated/informers/externalversions/factory.go:213-227 | a waiting Shutdown can return exactly when nothing runs; once one has returned, every started informer has finished, in that and every later state, and none is started any more |
| InformerFactory.ShutdownCanReturn | kubernetes/dev/controller/sec-02-sample/pkg/generated/informers/externalversions/factory.go:132-139 | a waiting Shutdown can always return, after as many goroutines have finished as were running |
| RedisStore.WholeIff | db-engines/redis/transaction/ex04-watch.go:90-94 | neither command of a transfer fails exactly when Redis reads the balance as a number and the debt has room |
| RedisStore.TotalsIff | db-engines/redis/transaction/ex04-watch.go:89-95 | the totals are right at every moment exactly when no committed transfer was half done |
| RedisStore.HalfDone | db-engines/redis/transaction/ex04-watch.go:89-95 | two concrete stores in which a transfer is half done and the totals break |
| RedisRuns.Serializable | db-engines/redis/transaction/ex04-watch.go:69-96 | every interleaving, under EXEC or of a plain pipeline from a safe start, ends as the committed transactions done one by one in commit order, each transfer finding at least 20 |
| RedisPlain.PlainSerialIff | db-engines/redis/transaction/ex04-watch.go:90-95 | the call as written is serial in all its runs exactly when there is no call, no balance, nothing to spend, or always enough for all the calls |
| RedisPlain.UnsafeBreaks | db-engines/redis/transaction/ex04-watch.go:90-95 | from any other start, steps that make a call spend what is not there |
| RedisRuns.StepIsOneTransaction | db-engines/redis/transaction/ex04-watch.go:103-108 | in either mode a step of such a run leaves both keys alone, as a conflicted attempt does, or acts as one whole transaction; a commit is held back exactly when under EXEC the balance was written since it was watched |
| RedisRuns.OneTransferPerCall | db-engines/redis/transaction/ex04-watch.go:98-112 | in either mode and from any start a call commits one transfer or none, and reports success exactly when it committed one and both commands succeeded |
| RedisRuns.ThreeAttempts | db-engines/redis/transaction/ex04-watch.go:65-115 | under EXEC at most three attempts; a call that gives up made three, committed nothing, and saw the balance written three times by others |
| RedisRuns.PlainNeverRetries | db-engines/redis/transaction/ex04-watch.go:90-107 | as a plain pipeline the retry loop runs at most once and no call gives up |
| RedisRuns.EndedIff | db-engines/redis/transaction/ex04-watch.go:62-140 | no call is ever stuck: no step can be taken exactly when every call has ended |
| RedisRuns.TotalsHold | db-engines/redis/transaction/ex04-watch.go:69-96 | in either mode, from a safe start with tidy balances and room for the debt: debt up 20 per transfer, balance down 20 per transfer since it was last set, always |
| RedisPlain.PlainPipelineOverdraws | db-engines/redis/transaction/ex04-watch.go:90-95 | as a plain pipeline, two calls both succeed on a balance of 20 and leave -20 |
| RedisPlain.TransactionTurnsBack | db-engines/redis/transaction/ex04-watch.go:103-108 | the same steps under EXEC let one through and send the other back to retry |
| RedisClient.Client1 | db-engines/redis/transaction/ex04-watch.go:62-115 | the retry loop in either mode, with arbitrary commits by others before each command: turned down exactly when the balance last read is no number or below 20, else one transfer or three conflicts, reported as it went; under EXEC a serial log stays serial and the transfer finds the balance that was read, as a plain pipeline there is one attempt; alone, with 20 to take and room for the debt, 20 moves |
| RedisClient.Client2 | db-engines/redis/transaction/ex04-watch.go:117-140 | overwrites the balance when there is one, whatever others commit in between |
| GoNames.CamelCase | protocol-buffers/protoc-gen-example/main.go:188-212 | the loop computes Camel |
| GoNames.CamelIsCapitaliseAndJoin | protocol-buffers/protoc-gen-example/main.go:188-212 | on ASCII names, Camel is: split at underscores, capitalise each piece, glue |
| GoNames.IdempotentIff | protocol-buffers/protoc-gen-example/main.go:194-210 | applying it twice changes nothing exactly on the ASCII names |
| GoNames.FixedIff | protocol-buffers/protoc-gen-example/main.go:194-210 | an ASCII name is unchanged exactly when it has no underscore and no small first letter |
| GoNames.RecoveredIff | protocol-buffers/protoc-gen-example/main.go:188-212 | the inverse recovers an ASCII name exactly when it is in snake case with a letter after every underscore |
| GoNames.SnakeNamesStayDistinct | protocol-buffers/basics/README.md:37 | distinct snake-case field names stay distinct |
| GoNames.DigitSegmentsCollide | protocol-buffers/protoc-gen-example/main.go:194-210 | a_2 and a2 both become A2 |
| GoNames.GetTypeName | protocol-buffers/protoc-gen-example/main.go:179-186 | the result has no dot and is the whole name or what follows its last dot |
| GoNames.EncodedIsUtf8 | protocol-buffers/protoc-gen-example/main.go:204-207 | a byte copied by string(c) is the UTF-8 encoding of that code point |
| GoPlugin.GenerateMessage | protocol-buffers/protoc-gen-example/main.go:122-140 | the recursive printer emits one struct for each entry of the message's tree, in pre-order, named by its path; `GoReader.StructsRead` says what that text is |
| GoPlugin.GenerateFile | protocol-buffers/protoc-gen-example/main.go:106-120 | the package clause, main by default, then those structs for all messages of the file; `GoReader.FileReads` says what that text is |
| GoPlugin.Generate | protocol-buffers/protoc-gen-example/main.go:77-104 | one output per requested file that exists, in the order of the request, from the first file of that name |
| GoPlugin.StructsUnder | protocol-buffers/protoc-gen-example/main.go:135-137 | printing a nested tree with a longer prefix is printing it with longer paths |
| GoReader.FileReads | protocol-buffers/protoc-gen-example/main.go:106-140 | a reader defined on characters alone reads back from a generated file its package and, for each descriptor in pre-order, the struct's name and every field's Go name, Go type and proto name |
| GoReader.StructsRead | protocol-buffers/protoc-gen-example/main.go:122-140 | the same for the text of any list of structs, with any prefix |
| GoReader.FieldReads | protocol-buffers/protoc-gen-example/main.go:127-131 | and for one field line: a tab, the Go name, the type, the proto name as its json tag |
| GoStructs.LineLiteral | protocol-buffers/protoc-gen-example/main.go:130 | one such line in full: a repeated double named a_b |
| GoStructs.FlattenHas | protocol-buffers/protoc-gen-example/main.go:122-140 | a struct for a path and fields is emitted exactly when walking the descriptors by those names can end at those fields |
| GoStructs.OneEach | protocol-buffers/protoc-gen-example/main.go:115-117 | there are as many structs as descriptors in the whole nesting tree |
| GoStructs.PreOrder | protocol-buffers/protoc-gen-example/main.go:133-139 | a struct comes after that of the message it is nested in |
| GoStructs.StructNamesDistinctIff | protocol-buffers/protoc-gen-example/main.go:122-125 | where simple names have no underscore, struct names are pairwise distinct exactly when sibling names are |
| GoStructs.UnderscoreCollides | protocol-buffers/protoc-gen-example/main.go:135-137 | A_B beside B nested in A: two structs of one name |
| GoStructs.FieldsStayDistinct | protocol-buffers/protoc-gen-example/main.go:127-131 | snake-case fields of different names are different Go fields of the struct |
| GoStructs.ScalarTypesDistinct | protocol-buffers/protoc-gen-example/main.go:145-176 | the Go type of a scalar field tells its proto type and whether it is repeated |
| GoStructs.ReferenceTypes | protocol-buffers/protoc-gen-example/main.go:163-176 | a message field is a pointer to the last segment of its type name, an enum field that segment, a repeated one a slice of those |
| GoStructs.AnswersAre | protocol-buffers/protoc-gen-example/main.go:80-99 | each requested file that exists is answered and nothing else is |
| GoStructs.AnswersInOrder | protocol-buffers/protoc-gen-example/main.go:80-99 | the answers of a joined request are those of its halves, in order |
| GoStructs.FirstNamedIs | protocol-buffers/protoc-gen-example/main.go:82-87 | the file answered with is the first of that name, and none exactly when there is none |

## Left out

- Groups (wire types 3 and 4): a start-group tag is a parse failure here, in both languages.
- Arenas, default instances, descriptors, reflection, slop-region buffering and the recursion limit of the C++ runtime; lengths are refused from 2^31 on, without the runtime's few bytes of slack.
- JsSerializer.ReadPhone: skipping a whole group of an unknown field, which the JavaScript runtime can do, is not modelled.
- The heap of the JavaScript messages: they are values, so aliasing between them is not captured; text is kept as bytes, so replacing invalid UTF-8 on reading is not.
- CodecGrowth.NormalForm: needs the printed form to stay under the printer's own 2^31 guard, which an input between 2^30 and 2^31 bytes can exceed.
- CodecGrowth.ReprintDoesNotGrow: one way only; whether an input with such a record grows depends on how many bytes its other records waste.
- CppPerson.Person.MergeFrom: requires that the two messages share no sub-message; the operations keep this, and breaking it through release and set-allocated accessors is not modelled.
- CppAddressBook.AddressBook.SerializeToString: flags such as deterministic output are not modelled.
- Key functions of the event handlers that return an error, and the watch that feeds the informer.
- WorkQueue.RateLimitingQueue.GetKey: blocking on an empty queue is a precondition; the state machine has no such step enabled.
- ControllerLoop.PodController.RunWorker: as an uninterrupted loop it is proved after shutdown with one worker, where it ends; with others beside it, it is the runs of `Controller`.
- `Run` of the pod controller: starting the informer, waiting for its cache, restarting workers each second, and the length of retry delays.
- InformerFactory.SharedInformerFactory.WaitForCacheSync: whether each informer has synced is a parameter; the waiting itself is not modelled.
- The informers themselves, `ForResource` and the group accessors of the factory, and stop channels.
- A plain pipeline's two commands are one step here: another client's command between them could see the debt not yet raised.
- Connection errors of the Redis client, UNWATCH, the delay between attempts, and balances of other Redis types.
- RedisRuns.TotalsHold: needs balances in Redis's own form and a debt with room; `RedisStore.TotalsIff` is the exact condition and `RedisStore.HalfDone` shows that it can fail.
- RedisClient.Client1: what the others commit is given by a function; that they do so as whole transactions is `RedisRuns.Serializable`.
- GoReader.FileReads: needs names and type names without spaces, line ends or quotes, as every proto identifier is; others are copied into the text as they are.
- References from one generated struct to another: `getTypeName` keeps the last segment only and enums are never emitted, so they close for top-level messages alone.
- The plugin's standard input and output, its debug mode and the feature flag of its response.
- The MySQL lock examples, the proxy, the WebSocket and OpenTelemetry demos, generated clients and listers: no algorithm of their own, or easy ones.
