# Mainflux: a verified model of its codec and state machines

Mainflux is an IoT messaging platform. This project models the parts of it in which a small slip would lose,
duplicate or misdeliver data, and proves what each of them promises over every input, every run or every graph.

**The protobuf wire codec** (`pkg/messaging/message.pb.go`, `auth.pb.go`). A message is a sequence of records on
the wire. The generated encoder computes a size, allocates a buffer and fills it from the end towards the front;
the generated decoder is a cursor loop over base 128 varints with 64-bit wrap-around, a cutoff at shift 64 and a
field number truncated to 32 bits. Fields that are not known are stepped over with a depth counter and kept.

* `MachineWord` has the word types and the shifts, ors and conversions the code is written with.
* `Varint` has the varint grammar, the reader, the minimal encoder and the size formula; `Varint32` the reader that
  accumulates in 32 bits.
* `FieldGrammar` and `SkipProofs` define the nested grammar of fields as a datatype and show that the counter of
  `skipMessage` recognises exactly it; `GroupNumbers` shows that the grammar can be read in one way only and which
  of its fields the Protocol Buffers specification accepts.
* `Records`, `MessageGrammar` and `RecordProofs` read and write messages of any schema of consecutively numbered
  fields. `Marshalling` has the backward-filled buffer and the unknown bytes.
* `CodecLaws` derives the round trip, the canonicalisation fixpoint and its length bound from facts about single
  assignments. `Message` (with `MessageProofs`), `MembersRes`, `IssueReq` and `AuthorizeRes` instantiate them: a
  class each, with the fields the decoder assigns, and a codec proved lawful.
* `Rejections` says on the bytes which error a rejected or truncated input gets and what was assigned by then, and
  `PartialReads` what each message type holds after one.

**Twin states** (`twins/service.go`). Each SenML record of a message is dropped, folded into the newest stored
state or opens a new one. `TwinStates` has the operations and the store, `TwinProofs` what every run of one twin
keeps, `TwinOutcomes` what one message, addition or update stores and reports, `TwinRuns` the runs of the whole
service and their projection on each twin.

**Thing access** (`things/service.go`). Two caches answer access checks before the repository is asked.
`ThingAccess` has the tables, the caches and the service, `ThingEffects` the rows and answers every operation
leaves, `ThingProofs` the refinement, `ThingFailures` where it ends.

**CoAP observers** (`coap/adapter.go`). A lock-protected map of maps, and the subscribers, unsubscribers and
waiting watchers that use it in any order. `CoapObservers` has both the registry and the transition system.

**MQTT topics** (`mqtt/forwarder.go`, `mqtt/handler.go`). One prints a channel and a subtopic as a topic, the
other reads them back. `MqttTopics` has the two, `MqttProofs` their laws, `MqttSubtopics` what is accepted,
character by character.

**OPC-UA browse** (`opcua/gopcua/browser.go`). A depth-bounded walk over a graph that may be cyclic.
`OpcuaBrowse` has the recursion, `OpcuaProofs` the walks it lists and their entries, `OpcuaErrors` the paths and the
failures.

Errors are values (`Option`, `Decoded`, `Result`, `Answer`). Clocks, identifier providers, the answers of the
auth service and of a store, and the result of a `Cancel` are parameters, so every result holds for all of them.

## Where the code differs from what it is written for

These are results: each has a condition that decides it for all inputs and an input that shows it.

* A message whose unrecognised bytes are not well-formed unknown fields is encoded without complaint and does not
  come back. Condition: `MessageProofs.RoundTrip`, tested by `Marshalling.UnknownStreamIsTestable`. Input:
  `MessageProofs.RoundTripNeedsWellFormedUnknowns`.
* The field number is a 61-bit quantity truncated to 32 bits, so a number that differs from a known one by a
  multiple of 2^32 is taken for it. The Protocol Buffers encoding does not number fields that high. Condition:
  `MessageGrammar.NumberIff`. Input: `MessageGrammar.AliasedNumber`.
* A ten-byte varint may have bits beyond the 64th, which are dropped. Condition: `Varint.BitsAreKeptIff`. Input:
  `Varint.BitsAreLost`.
* The end tag of a group need not carry the number of its start tag; `skipMessage` compares depths only. The
  grammar in `FieldGrammar` follows the code. Condition: `GroupNumbers.ClosedIff`. Input:
  `GroupNumbers.GroupsEndUnderAnyNumber`.
* A twin added with definitions of its own does not have definition IDs equal to positions, because the new one
  is always given ID 0. Condition: `TwinProofs.AddedIsNumberedIff`. Input:
  `TwinProofs.SuppliedDefinitionBreaksNumbering`.
* Before a twin has a state, a timed record within the window of the zero time is acknowledged and stored
  nowhere. Condition: `TwinProofs.FirstRecordLostIff`. Input: `TwinProofs.FirstRecordLost`.
* A definition added by an update keeps a window of 0, while a first definition with a window of 0 is given a
  millisecond. Condition: `TwinProofs.ZeroWindowIff`. Input: `TwinProofs.WindowIsNotDefaultedOnUpdate`.
* A removed thing whose connection is cached is still let in when asked for by ID. Condition:
  `ThingProofs.AccessByIDIsHasThingIff`. Input: `ThingFailures.RemovedThingAnsweredByID`.
* Changing the key of a thing leaves the old key in the cache, which goes on identifying the thing and letting it
  in. Conditions: `ThingFailures.KeyUpdateIdentifiesIff`, `ThingFailures.KeyUpdateAdmitsIff`. Input:
  `ThingFailures.ReplacedKeyLetsIn`.
* Saving a key takes two writes. If only the first goes through, the thing is identified by it even after it was
  removed. Condition: `ThingFailures.RemovalIdentifiesIff`. Input: `ThingFailures.RemovedThingIdentified`.
* The watcher of a CoAP client that was replaced removes the replacement when the old client is done, since
  entries are removed by endpoint and token. Condition: `CoapObservers.StaysRegisteredIff`. Input:
  `CoapObservers.ReplacementRemovedByOldWatcher`.
* A watcher that fires before its subscriber's put finds nothing to remove, and the observer stays registered with
  nobody waiting for its client. Condition: `CoapObservers.UnwatchedIff`. Input: `CoapObservers.WatcherFiresTooEarly`.
* An observer whose put is refused, because the observer in its way could not be cancelled, is neither registered
  nor cancelled. Condition: `CoapObservers.LostIff`. Input: `CoapObservers.RefusedObserverIsLost`.
* Parsing a parsed subtopic again changes it if it still contains an escape. Condition:
  `MqttProofs.ParseIsIdempotentIff`. Input: `MqttProofs.EscapedResultIsNotFixed`.

## Model

| member | source | states |
|---|---|---|
| Varint.ReadComplete | pkg/messaging/message.pb.go:258-272 | every varint of one to ten bytes is read whole, whatever follows, as its digits modulo 2^64 |
| Varint.ReadSound | pkg/messaging/message.pb.go:258-272 | whatever the loop accepts is a varint of the grammar, at its full length and with its value |
| Varint.ReadLocal | pkg/messaging/message.pb.go:258-272 | an accepted varint is read the same whatever bytes are appended |
| Varint.ReadWordIsRead | pkg/messaging/message.pb.go:259-272 | masking, truncating 64-bit shifts and ors accumulate exactly the number modulo 2^64, also where the loop stops with an error |
| Varint.ReadVarint | pkg/messaging/message.pb.go:259-272 | the loop with its shift cutoff computes the reading and never leaves the input |
| Varint.SkipVarint | pkg/messaging/message.pb.go:511-523 | the loop that keeps no value consumes the same bytes and fails on the same inputs |
| Varint.EncodeIsVarint | pkg/messaging/message.pb.go:202-212 | the encoding of a 64-bit word is a varint that spells the word |
| Varint.ReadEncode | pkg/messaging/message.pb.go:202-212 | reading inverts writing, whatever follows |
| Varint.ReadNeedsEncode | pkg/messaging/message.pb.go:202-212 | no accepted varint is shorter than the encoding of its value |
| Varint.SovIsEncodedLength | pkg/messaging/message.pb.go:248-250 | the formula over the bit length is the number of base-128 digits written, 1 to 10 for a word |
| Varint.EncodeVarint | pkg/messaging/message.pb.go:202-212 | the loop writes the encoding so that it ends at the offset given and changes no other byte |
| Varint.BitsAreKeptIff | pkg/messaging/message.pb.go:259-272 | a varint is read as the number it spells exactly unless it has a tenth byte with more than its lowest bit |
| Varint.BitsAreLost | pkg/messaging/message.pb.go:260-263 | ten bytes that spell 2^64 are read as 0 |
| Varint32.ReadWord32IsRead | auth.pb.go:2476-2490 | masking, truncating 32-bit shifts and ors accumulate exactly the number modulo 2^32, also where the loop stops with an error |
| Varint32.ReadVarint32 | auth.pb.go:2477-2490 | the loop with a 32-bit accumulator computes that reading and never leaves the input |
| FieldGrammar.StepToken | pkg/messaging/message.pb.go:493-561 | one iteration steps over one tag and what its wire type announces, in wrapping arithmetic, with the code's errors |
| FieldGrammar.StepBytes | pkg/messaging/message.pb.go:526-545 | a length is read, refused if negative as an int, and added to the cursor with wrap-around |
| FieldGrammar.SkipField | pkg/messaging/message.pb.go:489-566 | the loop with its depth counter computes the skip, stays inside the input and ends |
| SkipProofs.SkipOverField | pkg/messaging/message.pb.go:489-566 | at every nesting depth the walk passes over a field of the grammar, groups included, as one unit |
| SkipProofs.FramesSound | pkg/messaging/message.pb.go:546-552 | a successful walk inside d groups has read a body and an end tag for each of them, innermost first |
| SkipProofs.SkipRecognisesFields | pkg/messaging/message.pb.go:489-566 | the skip answers n exactly when the first n bytes are one field of the nested grammar |
| SkipProofs.SkipLocal | pkg/messaging/message.pb.go:489-566 | the answer depends on the field's own bytes only |
| Records.ReadTag | pkg/messaging/message.pb.go:258-281 | tag, truncated number, end-group and illegal-tag errors, as one step of the reading |
| Records.ReadDelimited | pkg/messaging/message.pb.go:283-314 | length-delimited case: negative, overflowing and overlong lengths are told apart as in the code, the slice is in bounds |
| Records.ReadUnknown | pkg/messaging/message.pb.go:464-480 | default case: the whole field, tag included, is kept and the cursor moves past it |
| MessageGrammar.StepSuitable | pkg/messaging/message.pb.go:257-481 | every field whose wire type suits its number is read as one record of its own width, whatever follows |
| MessageGrammar.StepSound | pkg/messaging/message.pb.go:257-481 | whatever one pass reads is such a field and the record is its meaning |
| MessageGrammar.ParseSuitable | pkg/messaging/message.pb.go:254-488 | a concatenation of such fields is read as their records, in order |
| MessageGrammar.AcceptsIffGrammar | pkg/messaging/message.pb.go:254-488 | an input is accepted exactly when it is a concatenation of such fields |
| MessageGrammar.NumberIff | pkg/messaging/message.pb.go:273-274 | a field is taken for number n exactly when its own number is n modulo 2^32 |
| MessageGrammar.AliasedNumber | pkg/messaging/message.pb.go:273-274 | a field numbered 2^32 + 1 is read as field 1 |
| GroupNumbers.FieldUnique | pkg/messaging/message.pb.go:489-566 | the nested grammar is unambiguous: a text starts with one field at most, of one length and one shape |
| GroupNumbers.FieldsUnique | pkg/messaging/message.pb.go:546-552 | the body of a group stops at one end tag only |
| GroupNumbers.MessageUnique | pkg/messaging/message.pb.go:254-488 | a message is a concatenation of fields in one way only |
| GroupNumbers.ClosedIff | pkg/messaging/message.pb.go:546-552 | what is skipped as one field is one field of the specification exactly when every group in it, at every depth, is closed under its own number |
| GroupNumbers.GroupsEndUnderAnyNumber | pkg/messaging/message.pb.go:546-552 | group 7 closed by the end tag of group 8 is skipped as one field, which the specification does not allow |
| RecordProofs.ParseConcat | pkg/messaging/message.pb.go:254-488 | after an accepted prefix, reading goes on as if it started there |
| RecordProofs.WrittenField | pkg/messaging/message.pb.go:150-200 | every record written is a field that suits the schema and is read back as that record |
| RecordProofs.ParseEncoded | pkg/messaging/message.pb.go:150-200 | the records written are the records read |
| RecordProofs.ParseFits | pkg/messaging/message.pb.go:254-488 | all records read fit the schema, and writing them takes no more bytes than were read |
| RecordProofs.UnknownsEncodeToInput | pkg/messaging/message.pb.go:464-480 | an input of unknown fields only is kept byte for byte |
| RecordProofs.MergeByConcatenation | pkg/messaging/message.pb.go:254-488 | for every schema, decoding a ++ b is decoding b into the result of a, errors and partial assignments included |
| RecordProofs.PositionOnlyNamesTheError | pkg/messaging/message.pb.go:300-306 | where an input starts decides only which error an overlong length is reported as |
| RecordProofs.UnmarshalConcat | pkg/messaging/message.pb.go:254-488 | `Unmarshal(a ++ b)` into m leaves the same message as the two calls in turn, and is accepted exactly when the second is |
| RecordProofs.DecodeEncoded | pkg/messaging/message.pb.go:135-200 | decoding written records assigns exactly those records, known ones first |
| Marshalling.PutVarint | pkg/messaging/message.pb.go:202-212 | the finished part of the buffer grows by the encoding in front; the rest is as it was |
| Marshalling.PutDelimited | pkg/messaging/message.pb.go:188-194 | data, length and tag written backwards are the record written forwards |
| Marshalling.PutOptional | pkg/messaging/message.pb.go:160-194 | a string field is written exactly when it is not empty |
| Marshalling.PutNonZero | pkg/messaging/message.pb.go:160-164 | an integer field is written exactly when it is not zero |
| Marshalling.SizeOptionalExact | pkg/messaging/message.pb.go:219-238 | the size of a string field predicts the bytes written, tag and length included |
| Marshalling.SizeNonZeroExact | pkg/messaging/message.pb.go:239-241 | the size of an integer field predicts the bytes written |
| Marshalling.UnknownBytesStream | pkg/messaging/message.pb.go:464-480 | what decoding leaves unrecognised is a concatenation of well-formed unknown fields |
| Marshalling.UnknownStreamIsTestable | pkg/messaging/message.pb.go:156-159 | unrecognised bytes are such a concatenation exactly when decoding them succeeds and finds unknown records only |
| CodecLaws.RoundTrip | pkg/messaging/message.pb.go:135-488 | for every lawful codec, decoding the encoding gives the message back exactly when its unknown bytes are well-formed unknown fields |
| CodecLaws.ReencodingNeverGrows | pkg/messaging/message.pb.go:135-488 | for every lawful codec, what an accepted input decodes to is encoded in no more bytes than the input has |
| CodecLaws.Canonicalisation | pkg/messaging/message.pb.go:135-488 | for every lawful codec, decoding then encoding is a fixpoint that keeps known fields and unknown bytes and never grows |
| Message.Message.Size | pkg/messaging/message.pb.go:213-247 | the size predicted is the length of the encoding |
| Message.Message.MarshalToSizedBuffer | pkg/messaging/message.pb.go:150-200 | the encoding fills the end of the buffer, its length is returned and nothing in front of it changes |
| Message.Message.Marshal | pkg/messaging/message.pb.go:135-144 | a fresh buffer holds exactly the encoding |
| Message.Message.MarshalTo | pkg/messaging/message.pb.go:145-149 | the encoding fills the start of a larger buffer and the rest is unchanged |
| Message.Message.UnmarshalField | pkg/messaging/message.pb.go:257-482 | one pass reads one record and assigns it; on an error exactly the bits of a partly read `Created` are assigned |
| Message.Message.Unmarshal | pkg/messaging/message.pb.go:254-488 | the loop decodes the whole input into the message, advances on every pass and never leaves the input |
| MessageProofs.LastOneWins | pkg/messaging/message.pb.go:282-481 | each known field is decided by its last record alone, and unknown bytes are appended in order |
| MessageProofs.MergeByConcatenation | pkg/messaging/message.pb.go:254-488 | the concatenation law for `Message` |
| MessageProofs.EncodeIsRecords | pkg/messaging/message.pb.go:150-200 | what is written is a list of records followed by the unknown bytes |
| MessageProofs.RecordsAscend | pkg/messaging/message.pb.go:150-200 | fields are written in ascending order of their numbers, each at most once |
| MessageProofs.WrittenIff | pkg/messaging/message.pb.go:150-200 | a field is written exactly when it is not empty or zero, as one record with its number and value |
| MessageProofs.AssignKnown | pkg/messaging/message.pb.go:282-463 | assigning a message's own records to a zero message restores every known field, negative `Created` included |
| MessageProofs.AssignGrows | pkg/messaging/message.pb.go:213-247 | assigning a record lengthens the encoding by at most the record's minimal encoding |
| MessageProofs.CodecIsLawful | pkg/messaging/message.pb.go:135-488 | `Message` meets the laws the general results rest on |
| MessageProofs.RoundTrip | pkg/messaging/message.pb.go:135-488 | `Unmarshal(Marshal(m))` is m exactly when the unrecognised bytes of m are well-formed unknown fields |
| MessageProofs.RoundTripNeedsWellFormedUnknowns | pkg/messaging/message.pb.go:156-159 | a lone end-group tag among the unrecognised bytes makes the encoding undecodable |
| MessageProofs.CanonicalisationFixpoint | pkg/messaging/message.pb.go:135-566 | for every accepted input, decoding, encoding and decoding again gives the same message, in no more bytes |
| MembersRes.MembersRes.Size | auth.pb.go:1816-1846 | the sum over the members predicts the length of the encoding |
| MembersRes.MembersRes.MarshalToSizedBuffer | auth.pb.go:1554-1595 | the encoding fills the end of the buffer and nothing in front of it changes |
| MembersRes.MembersRes.PutMembers | auth.pb.go:1563-1571 | the descending loop writes the members in ascending order |
| MembersRes.MembersRes.UnmarshalField | auth.pb.go:3081-3245 | one pass reads one record and assigns or appends it, keeping the bits of a partly read integer |
| MembersRes.MembersRes.Unmarshal | auth.pb.go:3078-3252 | the loop decodes the whole input into the message |
| MembersRes.MembersFit | auth.pb.go:1563-1571 | every member of an encodable list is a record the schema can read |
| MembersRes.AssignMembers | auth.pb.go:3196-3227 | appending the members read gives the list written, in its order, empty and repeated members included |
| MembersRes.DecodedFields | auth.pb.go:3106-3245 | scalars keep their last record; members and unknown bytes accumulate in wire order |
| MembersRes.AssignKnown | auth.pb.go:3106-3227 | a message's own records restore its known fields |
| MembersRes.CodecIsLawful | auth.pb.go:1539-1595 | `MembersRes` meets the codec laws |
| MembersRes.RoundTrip | auth.pb.go:3078-3252 | a message comes back, list order included, exactly when its unrecognised bytes are well-formed unknown fields |
| MembersRes.CanonicalisationFixpoint | auth.pb.go:3078-3330 | decoding then encoding is a fixpoint and never grows |
| MembersRes.WrittenIff | auth.pb.go:1554-1595 | page numbers and the type are written unless zero or empty, members always |
| IssueReq.IssueReq.Size | auth.pb.go:1700-1721 | the size predicted is the length of the encoding |
| IssueReq.IssueReq.MarshalToSizedBuffer | auth.pb.go:1317-1346 | the encoding fills the end of the buffer and nothing in front of it changes |
| IssueReq.IssueReq.UnmarshalField | auth.pb.go:2382-2508 | one pass reads one record and assigns it; the type is accumulated in 32 bits, keeping the bits of a partly read one |
| IssueReq.IssueReq.Unmarshal | auth.pb.go:2379-2515 | the loop decodes the whole input into the message |
| IssueReq.DecodedFields | auth.pb.go:2407-2508 | each field is decided by its last record, the type modulo 2^32 |
| IssueReq.RoundTrip | auth.pb.go:2379-2515 | every 32-bit type comes back; the message does exactly when its unrecognised bytes are well-formed unknown fields |
| IssueReq.CanonicalisationFixpoint | auth.pb.go:2379-2515 | decoding then encoding is a fixpoint and never grows, although wide types are truncated |
| IssueReq.WrittenIff | auth.pb.go:1317-1346 | a field is written exactly when it is not empty or zero |
| AuthorizeRes.AuthorizeRes.Size | auth.pb.go:1747-1760 | the size predicted is the length of the encoding |
| AuthorizeRes.AuthorizeRes.MarshalToSizedBuffer | auth.pb.go:1411-1432 | a true flag is one tag and one byte; the encoding fills the end of the buffer |
| AuthorizeRes.AuthorizeRes.UnmarshalField | auth.pb.go:2669-2732 | one pass reads one record; a partly read flag is not assigned |
| AuthorizeRes.AuthorizeRes.Unmarshal | auth.pb.go:2666-2739 | the loop decodes the whole input into the message |
| AuthorizeRes.DecodedFields | auth.pb.go:2694-2732 | the flag is whether its last record is non-zero |
| AuthorizeRes.RoundTrip | auth.pb.go:2666-2739 | the message comes back exactly when its unrecognised bytes are well-formed unknown fields |
| AuthorizeRes.CanonicalisationFixpoint | auth.pb.go:2666-2739 | decoding then encoding is a fixpoint and never grows, any non-zero flag becoming 1 |
| Rejections.UnfinishedIff | pkg/messaging/message.pb.go:260-266 | a varint is not read exactly when its input ends within it, or ten bytes all announce another; the error says which |
| Rejections.ReadUnfinished | pkg/messaging/message.pb.go:259-272 | the bits read until then are the digits seen so far, modulo 2^64 |
| Rejections.TagRejected | pkg/messaging/message.pb.go:274-286 | an end tag outside a group, a number not positive in 32 bits and a known number with the wrong wire type each get their own error, with their own numbers in it |
| Rejections.NumberRejected | pkg/messaging/message.pb.go:445-463 | an integer that does not end: its error, and the bits read until then exactly where the loop reads in place |
| Rejections.LengthRejected | pkg/messaging/message.pb.go:287-301 | a length that does not end assigns nothing |
| Rejections.DataRejected | pkg/messaging/message.pb.go:302-312 | a length negative as an int or taking the cursor past one is invalid, data that is not all there an unexpected end |
| Rejections.UnknownRejected | pkg/messaging/message.pb.go:464-478 | a field that is not known is rejected as the skip says, or when it would end behind the input |
| Rejections.SkipRejects | pkg/messaging/message.pb.go:489-566 | whatever groups are open and whatever fields they hold, the walk reports the error that the first text which is no token calls for |
| Rejections.TruncatedInput | pkg/messaging/message.pb.go:254-488 | an accepted input cut off anywhere is accepted or reported as ending too early, never as anything else, and the records read are the first of the whole |
| PartialReads.CreatedBreaksOff | pkg/messaging/message.pb.go:445-463 | a message whose `Created` breaks off holds the bits read until then |
| PartialReads.ChannelBreaksOff | pkg/messaging/message.pb.go:283-301 | a message whose `Channel` breaks off is as it was |
| PartialReads.MessageBreaksOff | pkg/messaging/message.pb.go:254-488 | behind any accepted input every earlier field is assigned and `Created` holds the bits read |
| PartialReads.PageBreaksOff | auth.pb.go:3106-3163 | each of the three page numbers holds the bits read until it broke off |
| PartialReads.TypeBreaksOff | auth.pb.go:2472-2490 | so does the type, modulo 2^32 |
| PartialReads.FlagBreaksOff | auth.pb.go:2695-2714 | the flag is as it was |
| TwinStates.FirstMatch | twins/service.go:362-366 | the attribute found is the first that persists its state and is fed by the message; none is found only if there is none |
| TwinStates.FindAttribute | twins/service.go:406-413 | the first position of a name, or -1 exactly when it does not occur |
| TwinStates.Prune | twins/service.go:347-352 | in any order of visiting, exactly the keys survive whose first attribute of that name is persisted |
| TwinStates.PrepareState | twins/service.go:339-385 | the in-place steps give the state and action that `RecordOutcome` decides for every record |
| TwinStates.TwinsService.AddTwin | twins/service.go:118-159 | the stored twin and the error for every answer of the auth service, the identifier provider, the store and the cache, in their order; nothing is stored on an error but that of the cache |
| TwinStates.TwinsService.UpdateTwin | twins/service.go:161-210 | the revision stored, refused when it names nothing new, with the errors in the code's order; a failing cache comes after the store |
| TwinStates.TwinsService.SaveState | twins/service.go:296-337 | the loop stores what delivering the records one by one stores, stopping at a record that feeds nothing or a refused write; nothing changes when the last state cannot be retrieved |
| TwinStates.TwinsService.SaveStates | twins/service.go:265-294 | every twin found is served in turn until the first failure; the states of any other twin are untouched |
| TwinStates.SaveAllFrame | twins/service.go:287-291 | a twin the message was not looked up for keeps its states |
| TwinProofs.PreparedPayloadFits | twins/service.go:347-382 | after any record the payload names only attributes the current definition persists |
| TwinProofs.AmendLast | twins/mongodb/states.go:46-56 | with IDs equal to positions, an update of the store replaces the newest state and no other |
| TwinProofs.SaveKeepsInv | twins/service.go:366-373 | a record that opens a state keeps numbering, payloads and windows |
| TwinProofs.UpdateKeepsInv | twins/service.go:366-373 | a record folded in keeps them too, inside the window of the definition then in force |
| TwinProofs.DeliverKeepsInv | twins/service.go:317-331 | a whole message, refused writes included, keeps the invariant and amends at most the newest state |
| TwinProofs.LogIsFaithful | twins/service.go:317-331 | the run that logs which records went into which state stores what `saveState` stores |
| TwinProofs.AddedIsNumberedIff | twins/service.go:136-148 | definition IDs equal positions from the start exactly when the caller supplied no definitions |
| TwinProofs.SuppliedDefinitionBreaksNumbering | twins/service.go:146-148 | a twin added with one definition of its own has two, of which the second has ID 0 |
| TwinProofs.RunKeepsInv | twins/service.go:161-385 | every run of messages and updates keeps the invariant; stored IDs and creation times never change |
| TwinProofs.EveryRun | twins/service.go:118-385 | after any run states are numbered 0 to n - 1, definitions by position and counted by the revision, payloads fit the definition cited and folded records lie in the window |
| TwinProofs.RecordOutcome | twins/service.go:339-385 | what one record does to the stored states in full: nothing, a new state, an amendment of the newest one only, or, before the first state, a loss; the value stored is the one the record carries |
| TwinProofs.FirstRecordLostIff | twins/service.go:366-373 | a first record is acknowledged and stored nowhere exactly when it is timed and in the window of the zero time |
| TwinProofs.FirstRecordLost | twins/service.go:366-373 | a twin and a record for which that happens |
| TwinProofs.ZeroWindowIff | twins/service.go:183-188 | a definition added by an update keeps the window given, where a first one never has 0; under 0 only records at exactly the state's time are folded in, under a negative window none |
| TwinProofs.WindowIsNotDefaultedOnUpdate | twins/service.go:142-144 | the same two records are one state under a first definition and two under the same definition added by an update |
| TwinProofs.ValueIff | twins/service.go:387-404 | the value taken from a record is the first one present of float, text, data, boolean and sum, as it is, and null when none is |
| TwinProofs.OpensIff | twins/service.go:366-369 | a record opens a state exactly when it has no time, or lies before the window around the state or after it |
| TwinOutcomes.FirstMatchIff | twins/service.go:362-366 | an attribute is found at a position exactly when it is persisted and on the message's channel, with its subtopic or the wildcard, and none before it is |
| TwinOutcomes.KeptIff | twins/service.go:347-352 | a payload key stays exactly when the first attribute of its name is persisted |
| TwinOutcomes.AmendFirst | twins/mongodb/states.go:46-56 | an update of the store replaces the first state with that ID and no other |
| TwinOutcomes.MessageIsItsRecords | twins/service.go:317-331 | a message stores what its records would as messages of their own, one after the other up to the first write refused, lost records included |
| TwinOutcomes.RefusedRecord | twins/service.go:322-329 | a record whose write is refused changes no stored state |
| TwinOutcomes.RecordLogged | twins/service.go:366-373 | every record stored is logged at the state it went into, with the window then in force |
| TwinOutcomes.DeliverFailsIff | twins/service.go:317-331 | a delivery fails exactly when the message feeds the twin and some write for it is refused |
| TwinOutcomes.SaveOneFailsIff | twins/service.go:302-331 | which failure `saveState` reports: the twin is not found, the payload not decodable, or the store fails; none exactly when all goes well |
| TwinOutcomes.SaveAllFailsIff | twins/service.go:287-293 | a message is acknowledged exactly when it goes well for every twin it was looked up for |
| TwinOutcomes.AddedTwin | twins/service.go:128-151 | a new twin has the authenticated owner, the new identifier, the times of its creation and all it was given; its definition comes last, with ID 0 and a millisecond for a window of 0 |
| TwinOutcomes.RevisedTwin | twins/service.go:176-200 | an update is refused exactly when it names nothing new; it stores each part it names and keeps all others, owner and identifier included |
| TwinRuns.SaveAllTracks | twins/service.go:265-337 | a message served to many twins takes each of them through its own deliveries, one for each time it is served before the first failure, and nothing else |
| TwinRuns.NextTracks | twins/service.go:118-337 | one call of the service takes each twin through the events it addresses to that twin and nothing else |
| TwinRuns.RunTracks | twins/service.go:118-337 | from any state a run of the service takes each twin through the run of its own events |
| TwinRuns.EveryTwin | twins/service.go:118-385 | after any run of the service exactly the twins added are there; the definitions, states and folded records of each are those of the run of its own revisions and of the deliveries that reached it, hence numbered, fitting and in their windows |
| TwinRuns.OnlyTheNewestChanges | twins/service.go:296-385 | however a run of the service goes on, stored states keep their IDs and times and all but a twin's newest are not touched |
| ThingAccess.ThingsService.CreateThings | things/service.go:168-191 | the batch is stamped in place and saved as one transaction; when the provider does not suffice nothing is stored, and the batch is left as far as the stamping got |
| ThingAccess.ThingsService.StampBatch | things/service.go:174-188 | the loop stamps the batch up to the failure of the provider, if it fails |
| ThingAccess.StampingIff | things/service.go:174-188 | the provider suffices exactly if it gives one identifier for each thing and one more for each without a key, and then every thing is stamped |
| ThingProofs.StampingStops | things/service.go:174-188 | otherwise the things in front of one are stamped, that one has an empty identifier or an empty key, and those behind it are as they were |
| ThingAccess.WithChannels | things/postgres/channels.go:40-73 | saving adds exactly the rows of the new identifiers, each with the owner |
| ThingAccess.ThingsService.CreateChannels | things/service.go:254-270 | every channel gets the next identifier and the owner, and all are stored; when the provider fails midway nothing is stored, and the channel in hand has an empty identifier |
| ThingAccess.ThingsService.Connect | things/service.go:322-329 | the connections after the transaction, and its error |
| ThingAccess.ThingsService.Disconnect | things/service.go:331-342 | the cache entry goes first, and nothing else happens when it cannot; then the connection, not found exactly when there is none under the owner |
| ThingAccess.ThingsService.RemoveThing | things/service.go:242-252 | the thing cache forgets it first, and nothing else happens when it cannot; then the owner's row and its connections go; the channel cache is untouched |
| ThingAccess.ThingsService.RemoveChannel | things/service.go:309-320 | the channel's cache entries go first, and nothing else happens when they cannot; then the owner's row and its connections |
| ThingAccess.ThingsService.UpdateKey | things/service.go:204-213 | the key of an owned thing is replaced unless another thing has it; no cache is told |
| ThingAccess.ThingsService.SaveKey | things/redis/things.go:33-44 | two writes, the first of which may go through alone |
| ThingAccess.ThingsService.Lookup | things/postgres/things.go:170-182 | the holder of the key, or not found when nothing holds it |
| ThingAccess.ThingsService.CanAccessByKey | things/service.go:344-362 | both caches are tried, then the repository, whose answer is cached; a failed read is a miss and a failed write refuses the check |
| ThingAccess.ThingsService.CanAccessByID | things/service.go:364-377 | the channel cache is tried, then the repository, whose answer is cached; a failed write refuses the check |
| ThingAccess.ThingsService.Identify | things/service.go:379-394 | the thing cache is tried, then the repository, whose answer is cached; a failed write refuses the identification |
| ThingProofs.AccessByKeyIsHasThing | things/service.go:344-406 | with sound caches a check by key answers as the repository, failures included, or fails where the repository grants and a cache cannot be written |
| ThingProofs.IdentifyIsByKey | things/service.go:379-394 | with sound caches an identification answers as the repository, or fails where a cache cannot be written |
| ThingProofs.GrantedIsCached | things/service.go:344-362 | a granted check is answered by the fast path from then on |
| ThingProofs.AccessByIDIsHasThingIff | things/service.go:364-377 | a check by ID agrees with the repository exactly unless the cache still holds a removed thing |
| ThingProofs.StampIsFresh | things/service.go:174-188 | identifiers are new and distinct, chosen keys are kept, missing ones issued |
| ThingProofs.InsertIff | things/postgres/things.go:44-80 | the transaction goes through exactly when no identifier or key is taken or repeated, and then adds exactly the batch |
| ThingProofs.LinkIff | things/postgres/channels.go:271-311 | connecting goes through exactly when every pair is owned, new and named once, and then adds exactly the pairs |
| ThingProofs.PairsAreProduct | things/postgres/channels.go:280-281 | every channel is paired with every thing |
| ThingProofs.DisconnectedKeepsInv | things/service.go:331-342 | disconnecting keeps the caches sound, whether or not the repository refuses |
| ThingProofs.ThingRemovedKeepsInv | things/service.go:242-252 | removing a thing keeps them sound, although stale entries stay in the channel cache, unless only half of its key was saved |
| ThingProofs.ChannelRemovedKeepsInv | things/service.go:309-320 | removing a channel keeps them sound |
| ThingProofs.AccessByKeyKeepsInv | things/service.go:344-362 | a check keeps them sound whichever of its writes go through |
| ThingProofs.RunKeepsInv | things/service.go:168-406 | every run keeps the invariant in which no cached key is replaced and no thing removed whose key is half saved, whatever else fails |
| ThingProofs.WholeKeysAreCareful | things/redis/things.go:33-72 | in a run that saves every key whole or not at all no such removal happens |
| ThingProofs.CachesRefineRepository | things/service.go:344-406 | after any such run `CanAccessByKey` and `Identify` answer exactly as the repository alone would, or fail where it grants and a cache cannot be written |
| ThingProofs.WholeKeysRefine | things/service.go:344-406 | so the refinement holds after every run that saves whole keys and replaces no cached one |
| ThingProofs.QueriesOnlyCache | things/service.go:344-394 | checks and identifications change no table |
| ThingEffects.HasThingIff | things/postgres/channels.go:341-371 | a key is granted on a channel exactly when its holder is connected; the reason tells a key nobody holds from a connection that is missing |
| ThingEffects.ByKeyIff | things/postgres/things.go:170-182 | a key is answered with its holder, and not found exactly when nobody holds it |
| ThingEffects.AccessByKeyAnswer | things/service.go:344-362 | the answer under every behaviour of the caches: the repository's, or a cache failure exactly when the repository grants, the caches missed and a write fails |
| ThingEffects.AccessByIDAnswer | things/service.go:364-377 | the answer under every behaviour of the channel cache, sound or not |
| ThingEffects.AccessByIDAgreesIff | things/service.go:364-377 | under every behaviour of the channel cache the answer is the repository's, or fails where a grant cannot be cached, exactly unless the cache can be read and still holds a removed thing |
| ThingEffects.IdentifyAnswer | things/service.go:379-394 | the answer under every behaviour of the thing cache |
| ThingEffects.AccessByKeyCaches | things/service.go:344-362 | what is granted is cached, and nothing else is |
| ThingEffects.AccessByIDCaches | things/service.go:364-377 | what is granted is cached, and nothing else is |
| ThingEffects.IdentifyCaches | things/service.go:379-394 | an identified key is cached with its holder, and nothing else is |
| ThingEffects.ThingsCreatedIff | things/service.go:168-191 | exactly the stamped things are added if the batch can be inserted, and none otherwise; every row that was there stays |
| ThingEffects.ChannelsCreatedRows | things/service.go:254-270 | exactly the new channels are added, each with the owner |
| ThingEffects.LinkReason | things/postgres/channels.go:288-299 | `Connect` reports the first pair that cannot be connected: not found when an end is missing or another's, a conflict when it is connected already or named before |
| ThingEffects.ConnectedRows | things/postgres/channels.go:271-311 | exactly the product of channels and things is added if all of it can be, and nothing otherwise |
| ThingEffects.DisconnectedRows | things/service.go:331-342 | exactly the owner's connection goes, and the pair's cache entry whoever asks; all else stays |
| ThingEffects.DisconnectedIsRefused | things/service.go:331-342 | a disconnected pair is let in neither by ID nor by any key, whatever the caches answer |
| ThingEffects.DisconnectedOthers | things/postgres/channels.go:313-339 | every other pair is answered as before, and a disconnect by another owner disconnects nothing |
| ThingEffects.ThingRemovedRows | things/service.go:242-252 | exactly the owner's thing goes with its connections, and its entries in the thing cache whoever asks |
| ThingEffects.RemovedThingRefused | things/service.go:242-252 | a removed thing is let in by no key and identified by none, unless only half of its key was saved |
| ThingEffects.ChannelRemovedRows | things/postgres/channels.go:261-269 | exactly the owner's channel goes with its connections, and its entries in the channel cache whoever asks |
| ThingEffects.RemovedChannelRefuses | things/service.go:309-320 | nothing is let into a removed channel, by ID or by key, whatever the caches answer |
| ThingEffects.UntoldChangesNothing | things/service.go:242-342 | a cache that cannot be told stops each of the three removals |
| ThingEffects.KeyUpdatedIff | things/service.go:204-213 | the owner's thing gets the key exactly unless another thing has it; no other row and no cache changes |
| ThingFailures.KeyUpdateIdentifiesIff | things/service.go:204-213 | after an update every identification is right exactly unless the update replaced a cached key |
| ThingFailures.KeyUpdateAdmitsIff | things/service.go:204-213 | after an update every check by key is right exactly unless it replaced a cached key of a thing with a cached connection |
| ThingFailures.ReplacedKeyLetsIn | things/service.go:204-213 | a run of five operations after which a replaced key lets its thing in and the repository refuses it |
| ThingFailures.RemovalIdentifiesIff | things/redis/things.go:33-72 | after a removal every identification is right exactly unless only half of the thing's key was saved |
| ThingFailures.RemovedThingIdentified | things/redis/things.go:33-72 | a run of five operations after which a removed thing is identified |
| ThingFailures.RemovedThingAnsweredByID | things/service.go:242-252 | a run of five operations after which a removed thing is let in by ID and the repository refuses it |
| ThingFailures.KeyUpdatedKeepsInvIff | things/service.go:204-213 | the invariant of the runs survives an update exactly when it changes nothing or the key replaced is not cached |
| CoapObservers.Registry.PutObserver | coap/adapter.go:132-151 | the table after a put, the observer it cancelled and whether it failed |
| CoapObservers.Registry.RemoveObserver | coap/adapter.go:153-172 | the table after a removal, the observer it cancelled and whether it failed |
| CoapObservers.PutLookup | coap/adapter.go:132-151 | a put cancels exactly the observer in its way and changes that entry only, or fails and changes none |
| CoapObservers.RemoveLookup | coap/adapter.go:153-172 | a removal cancels and deletes exactly the entry named, or fails and changes none |
| CoapObservers.PutKeepsInv | coap/adapter.go:132-151 | a put keeps every observer accounted for |
| CoapObservers.RemoveKeepsInv | coap/adapter.go:153-172 | a removal does too, and leaves no endpoint with an empty table |
| CoapObservers.RunKeepsInv | coap/adapter.go:89-172 | over every interleaving each observer is in exactly one place and the last completed change of a key decides its entry |
| CoapObservers.LostIff | coap/adapter.go:143-148 | over any run an observer is lost exactly when its put is taken while its entry is occupied by one that cannot be cancelled |
| CoapObservers.NothingLost | coap/adapter.go:132-151 | while puts can cancel what they displace nothing is lost, whatever removals do |
| CoapObservers.EveryObserverAccounted | coap/adapter.go:89-172 | over any interleaving with any failures each observer created is in flight, registered once, cancelled once or was refused by its put, and only one of these, and no endpoint is left with an empty table |
| CoapObservers.RefusedObserverIsLost | coap/adapter.go:143-148 | after a second subscription whose put cannot cancel the first, the second observer is neither registered nor cancelled |
| CoapObservers.Conservation | coap/adapter.go:89-172 | over every interleaving in which puts can cancel what they displace each observer is in flight, registered once or cancelled once, and only one of these |
| CoapObservers.FailureChangesNothing | coap/adapter.go:142-167 | an operation whose cancellation fails leaves the table as it was |
| CoapObservers.StaysRegisteredIff | coap/adapter.go:132-172 | a registered observer stays exactly as long as no operation on its endpoint and token gets its cancellation through |
| CoapObservers.ReplacementRemovedByOldWatcher | coap/adapter.go:103-106 | after two subscriptions under one key the first watcher removes the second observer |
| CoapObservers.UnwatchedIff | coap/adapter.go:103-112 | a registered observer has no watcher left exactly when as many watchers of its key have fired as subscriptions have started one |
| CoapObservers.WatcherFiresTooEarly | coap/adapter.go:103-112 | a run in which the watcher fires before the put and the observer stays registered unwatched |
| MqttTopics.ParseSubtopic | mqtt/handler.go:208-235 | the loop with its filter computes the parse, which `ParseRefusedIff` and `ParseIff` decide on the characters |
| MqttProofs.ReceiveIff | mqtt/handler.go:130-143 | a channel and subtopic are published exactly when the topic matches the pattern with a path that parses to the subtopic |
| MqttProofs.Received | mqtt/handler.go:127-152 | what is published is what the topic carries, in normal form, and is not forwarded back |
| MqttProofs.FindIffMatches | mqtt/handler.go:25 | channel and path are found exactly when the topic matches the pattern with them, hence in one way at most |
| MqttProofs.JoinSplit | mqtt/handler.go:219-233 | joining inverts splitting |
| MqttProofs.SplitJoin | mqtt/handler.go:219-233 | splitting inverts joining for segments without dots |
| MqttProofs.UnescapeEscape | mqtt/handler.go:213-216 | unescaping inverts percent-encoding of every byte string |
| MqttProofs.ParseIsNormal | mqtt/handler.go:208-235 | every result is empty or dot-joined non-empty segments, each one character or free of wildcards, without slashes |
| MqttProofs.ParseIsIdempotentIff | mqtt/handler.go:208-235 | a result is parsed to itself exactly when it contains no percent or plus sign |
| MqttProofs.EscapedResultIsNotFixed | mqtt/handler.go:213-216 | a result that still contains an escape is parsed to something else |
| MqttProofs.RoundTrip | mqtt/forwarder.go:43-61 | a message that is forwarded comes back with its channel and subtopic exactly when both are canonical |
| MqttSubtopics.MatchesIff | mqtt/handler.go:25 | the pattern and its two groups, spelled out with the characters and words it allows |
| MqttSubtopics.UnescapeIff | mqtt/handler.go:213-216 | unescaping gives a text exactly when the subtopic is written in characters, plus signs and well-formed escapes that stand for it |
| MqttSubtopics.ParseRefusedIff | mqtt/handler.go:213-228 | a subtopic is refused exactly when an escape is broken or, once unescaped, some segment between slashes and dots is longer than one character and contains `*` or `>` |
| MqttSubtopics.ParseIff | mqtt/handler.go:217-234 | what is accepted are the segments without the empty ones, joined by dots |
| MqttSubtopics.TrailingWildcardIsRefused | mqtt/handler.go:226-228 | `a>` and `a*b` are refused and `>` is accepted |
| MqttSubtopics.ForwardIff | mqtt/forwarder.go:43-61 | a message is not forwarded exactly when it came in over MQTT; any other goes to its channel's topic, with the dots of its subtopic as slashes |
| OpcuaBrowse.BrowseNode | opcua/gopcua/browser.go:82-203 | the attribute reads with their ignored and fatal statuses, the level cutoff and the three reference types compute the browse |
| OpcuaBrowse.BrowseReferences | opcua/gopcua/browser.go:180-202 | the node itself, then its references by type, concatenated in order up to the first error |
| OpcuaBrowse.BrowseTyped | opcua/gopcua/browser.go:205-221 | the loop over references one level down, up to the first error |
| OpcuaProofs.WalksComplete | opcua/gopcua/browser.go:82-221 | every walk of at most n references that ends in a variable is listed |
| OpcuaProofs.WalksSound | opcua/gopcua/browser.go:82-221 | every walk listed is one |
| OpcuaProofs.WalksInOrder | opcua/gopcua/browser.go:180-202 | walks are listed in depth-first order, none twice |
| OpcuaProofs.BrowseIsWalks | opcua/gopcua/browser.go:82-221 | a browse that succeeds lists the definitions along the walks, with the names on the way as path |
| OpcuaProofs.BrowseSucceedsIff | opcua/gopcua/browser.go:82-221 | it succeeds exactly when no walk within the bound reaches a node whose class or name is not good, another attribute neither good nor absent, or references unreadable |
| OpcuaProofs.BrowseListsBoundedWalks | opcua/gopcua/browser.go:82-221 | from the top, on any graph: one entry for each walk of at most four references to a variable, in depth-first order, or an error exactly when a walk is blocked |
| OpcuaProofs.BrowseBounded | opcua/gopcua/browser.go:82-88 | with at most d references out of any node there are at most 1 + d + d^2 + d^3 + d^4 entries |
| OpcuaProofs.DefPath | opcua/gopcua/browser.go:104-177 | a node whose statuses allow it has the entry that the statuses call for: what could be read, blanks for absent attributes, the write bit and the dot-joined path |
| OpcuaProofs.TypeNameIff | opcua/gopcua/browser.go:143-170 | the name of every data type, by identifier, or its text for the others |
| OpcuaErrors.PathIsNames | opcua/gopcua/browser.go:177-228 | the path of an entry is the names of the nodes on the way joined by dots, without blank ones in front |
| OpcuaErrors.ErrorIsOwn | opcua/gopcua/browser.go:82-221 | a browse that fails reports what is wrong with a node within the bound: not there, its first unreadable attribute, or its references |
| OpcuaErrors.FirstChildError | opcua/gopcua/browser.go:212-218 | of several failing children the first one's failure is reported |
| OpcuaErrors.FirstNodeError | opcua/gopcua/browser.go:108-200 | of one node the attributes' failure comes first, then that of its components, members and properties |

## Left out

- The other eight messages of `auth.pb.go`, and `Marshal`/`MarshalTo` of the three modelled: the same generated code again.
- Getters, `XXX_` helpers, nil receivers, descriptors and gRPC stubs.
- Decoder input is a sequence value: it is only read, and the code slices but never writes it.
- The five string cases of `Unmarshal` are the same block five times; `Records.ReadDelimited` and `Marshalling.PutOptional` have it once.
- Message fields are sequence values: nil and empty slices are equal, and the reuse of a payload's or the unrecognised bytes' backing array by `append` is not captured.
- Inputs and buffers are shorter than 2^63 bytes, as every Go slice is; a `Size` above that is not wrapped.
- Strings on the wire are bytes: the code does not check UTF-8.
- The `sch`, `num`, `n`, `orig` and `done` parameters of the codec methods are ghost and stand for nothing in the code.
- Twins: time is exact nanoseconds, so rounding in `float64` and the millisecond resolution of stored times are not modelled.
- Twins: the answers of the caches looked up by `SaveStates` are a parameter; published notifications, views, lists and removal are not modelled.
- Twins: the store keeps insertion order and an update of a missing ID does nothing; two messages for one twin are handled one after the other.
- Things: identifiers are numbers that never repeat; names, metadata, groups, listings, failures of the repository and expiry of cache entries are not modelled.
- Things: calls are sequential; a check that races with a removal is not modelled.
- Things: runs that replace a cached key or remove a thing whose key is half saved are outside `CachesRefineRepository`, since they break it; `ThingFailures` has the exact conditions.
- CoAP: authorisation, NATS subscriptions and publishing; `Cancel` is one call with one answer, and a watcher may fire at any time after it was started.
- MQTT: sessions, authorisation, logging and the loop over publishers; the regular-expression engine is a scanner proved equal to the pattern.
- OPC-UA: connecting, the mapping to the result type of `Browse`, and a server that changes while it is browsed.
