# Talemu, modelled and verified in Dafny

Talemu emulates Talos machines. This project models the parts of it whose correctness is not plain
from reading one function, and proves what they promise:

* the **wire codec** of the emulator's records: `SizeVT`, `MarshalToSizedBufferVT`, `UnmarshalVT`,
  `EqualVT` and `CloneVT` of four messages, over byte strings and buffers written in place, with Go's
  wrapping integers (`Ints`, `Results`, `Varints`, `Wire`, `Reader`, `Encoding`, `Codecs`, `Writer`;
  the messages `MachineTask`, `ClusterStatus`, `EventSinkState`, `Timestamp`, `Health`, `Service`; each of
  them through the wire, `WireRoundTrips`, and field by field, `FieldNumbers`; map entries against the
  standard, `MapEntries`, and what an unknown field is, `UnknownFields`);
* the **WireGuard peer diff**, up to the device it configures (`KeyStrings`, `Wireguard`, `WireguardDevice`);
* **apid**: the rewriting of replies, the choice of backends and the marking of forwarded requests, and
  the cache of backends (`Apid`, `Proxying`, `ApidFactory`);
* **cluster and etcd membership** as a state machine over the records all machines share (`Membership`,
  `MembershipCalls`, `MembershipRuns`, `MembershipLabels`, `MembershipResets`, `MembershipCounts`);
* the **event sink** with optimistic concurrency, and the replacement of its connection (`EventSink`,
  `EventSinkProgress`, `SinkHandler`);
* **images and upgrades**, **SideroLink endpoint rotation**, **machine slots**, the **hostname merge**,
  the **member reconcile** and **node names** (`Images`, `Endpoints`, `Slots`, `HostnameMerge`,
  `Members`, `Nodenames`; `Sets` holds a fact about set sizes, `Paths` what a run of a state machine is).

Code that works step by step is a class or a method with loops, proved against a specification
function; the laws are lemmas about these functions. Concurrency is a state machine over atomic steps:
a run is a sequence of worlds, each a step from the one before. Strings of the wire format are byte
sequences. A reader, a store or a random source is a parameter.

`dafny verify dfyconfig.toml` checks the whole project.

## Where the code does not do what one would expect

Each of these has a lemma that shows it, on an input, a run or a whole family of them, and most one that
says exactly when all is well.

* A map entry can read past its own end, and a second value inside an entry is or-ed into the first,
  where the section "Maps" of the Protocol Buffers encoding specification has the last one win
  (`EventSinkState.EntryOverrun`, `EventSinkState.OneThenTwo`; exactly when: `MapEntries.LoopIsStandardExactly`).
* A wanted peer is lost if its key ends in "+=" or "/=" where the device writes "8=", as both parse to the
  same key (`WireguardDevice.WantedPeerIsLost`; exactly when: `WireguardDevice.PatchReachesKeys`).
* A unary response with more than one field loses the rest inside the first reply (`Apid.PlainReply`).
* The counters of a cluster go wrong after a partial configuration over a complete one, or a change of
  role, and can wrap (`MembershipCounts.PartialCountsTwice`, `MembershipCounts.RoleChangeWraps`; exactly
  when: `MembershipCounts.CountersAreConserved`). The test that should clear the bootstrapped flag looks at
  the counter before the decrement, and never succeeds while the counters are right
  (`MembershipCounts.StaysBootstrapped`).
* A reconcile under way during a reset puts the cluster's labels back on the machine
  (`MembershipResets.LateReconcileRelabels`; exactly when: `MembershipResets.ResetRelabelsExactly`).
* Published versions can go back after a crash if an update came between reading the latest version and
  watching (`EventSink.SkippedIsReplayed`; exactly when: `EventSink.CrashGoesBackExactly`).
* A provision response whose addresses do not parse is not replaced until the UUID changes
  (`Endpoints.BadAddressesAreCached`; exactly when: `Endpoints.BadAddressesStay`), and after a failed
  creation of a machine task two machines can have one slot (`Slots.FailedCreateSharesSlot`; exactly
  when: `Slots.SlotsAreDistinctExactly`).
* A node name can have dots, which its documented format excludes (`Nodenames.DotIsKept`; exactly when:
  `Nodenames.FormatExactly`).

Of the hostname merge, this is a fact about arbitrary lists only: a spec without a hostname can erase those
before it (`HostnameMerge.UnnamedErases`). The repository writes such a spec only at the lowest layer, where
it erases none (`HostnameMerge.NoneIsErased`).

## Model

| member | source | states |
|---|---|---|
| `Varints.ReadVarint` | api/specs/specs_vtproto.pb.go:1521-1534 | The varint loop, with its shift limit of 64 and an accumulator of 32 or 64 bits that starts at zero or, for a map value, at the old value, reads exactly what the standard says a varint is (Scan): the same errors, the same end, the low bits or-ed in. |
| `Varints.ScanWithin` | api/specs/specs_vtproto.pb.go:1521-1534 | What a varint means depends on its own bytes only: inside a longer string it is the same number, and it is found in the part exactly if it ends there. |
| `Varints.ScanVarint` | api/specs/specs_vtproto.pb.go:1248-1252 | Every encoded number, at any place of any input, is read back as itself, and the read ends where the encoding ends. |
| `Varints.ScansExactly` | api/specs/specs_vtproto.pb.go:1521-1534 | For every input: a number is read up to an index if and only if the bytes up to there are a varint, at most ten of which all but the last have the high bit set, and it is the value spelled by their low seven bits; ten high bits are an overflow, and fewer up to the end of the input an unexpected end. |
| `Varints.VarintLength` | api/specs/specs_vtproto.pb.go:1256-1283 | An encoding has at most k bytes exactly if the number has at most 7k bits. |
| `Varints.SizeIsLength` | api/specs/specs_vtproto.pb.go:1256-1283 | The closed form SizeVT uses for the length of a varint, seven bits a byte, is the length of its encoding. |
| `Varints.EncodeVarint` | api/specs/specs_vtproto.pb.go:636-640 | Written backwards from an offset, the encoding ends there, and every other byte of the buffer is unchanged. |
| `Reader.ReadTag` | api/specs/specs_vtproto.pb.go:1519-1542 | Tag reading with the end-group and illegal-tag checks, against the meaning of a tag. |
| `Reader.ReadSpan` | api/specs/specs_vtproto.pb.go:1621-1633 | With Go ints that wrap, the two tests for a negative number catch exactly the lengths and ends that do not fit: the result is that of unbounded arithmetic, and never out of bounds. |
| `Reader.Skip` | api/specs/specs_vtproto.pb.go:1669-1676 | protohelpers.Skip, written from the standard: on every input it ends, and gives the length of the first field, groups included, or the error of the standard reading. |
| `Wire.SkipWithin` | api/specs/specs_vtproto.pb.go:1668-1681 | The length of a skipped field depends only on the bytes it consumes. |
| `Reader.SkipField` | api/specs/specs_vtproto.pb.go:1668-1681 | Skipping an unknown field never goes past the limit, and its wrapping checks agree with unbounded arithmetic. |
| `Reader.ReadEntry` | api/specs/specs_vtproto.pb.go:1898-1978 | The inner loop of a map field: it runs to postIndex or beyond, reads keys and values up to the end of the input, and always ends. |
| `Wire.NextRecord` | api/specs/specs_vtproto.pb.go:1839-1994 | The outer index strictly grows on every turn that succeeds, whatever the inner map loop has read, and stays within the input. |
| `Wire.NextRecordWithin` | api/specs/specs_vtproto.pb.go:1839-1994 | A turn that succeeds does the same at any place of a longer input; at the very end, nothing more can succeed. |
| `Encoding.SignedReadsBack` | api/specs/specs_vtproto.pb.go:3012-3026 | Every int32, written as a sign-extended 64-bit varint (ten bytes if negative), is read back by the 32-bit loop as itself. |
| `Encoding.TagReadsBack` | api/specs/specs_vtproto.pb.go:1248-1252 | A field header is read back as its number and wire type. |
| `Encoding.SpanReadsBack` | api/specs/specs_vtproto.pb.go:620-626 | A length-delimited value is read back as exactly its bytes. |
| `Encoding.EntryReadsBack` | api/specs/specs_vtproto.pb.go:733-763 | A map entry as it is written is read back as its key and value, at any place of an input. |
| `Encoding.RecordReadsBack` | api/specs/specs_vtproto.pb.go:608-657 | Every field of a message, written and read back, is the same field, and the turn ends where the field ends. |
| `Codecs.ConcatenationIsMerge` | api/specs/specs_vtproto.pb.go:1515-1689 | For every message type: if a decodes into m, decoding a followed by b into m is decoding b into the result of decoding a (same result, or both fail). |
| `Codecs.RoundTrip` | api/specs/specs_vtproto.pb.go:608-657 | For every message type: the encoding of some fields followed by bytes u decodes into an empty message as body b and unknown bytes u if and only if the fields make b and u is a well-formed sequence of fields the message does not know. |
| `Codecs.DecodingMerges` | api/specs/specs_vtproto.pb.go:1515-1689 | For every message type: decoding the encoding of a message into another one does to the body what its fields do, and appends its unknown bytes. |
| `Codecs.ParseUnknown` | api/specs/specs_vtproto.pb.go:1668-1681 | Unknown fields are kept byte for byte, in order, and change nothing else. |
| `Codecs.UnknownKept` | api/specs/specs_vtproto.pb.go:1668-1681 | Whatever is decoded, the unknown bytes of the result are again well-formed unknown fields. |
| `Codecs.RawReadsBack` | api/specs/specs_vtproto.pb.go:1668-1681 | The bytes kept for one unknown field are, on their own, that unknown field. |
| `UnknownFields.SkipsExactly` | api/specs/specs_vtproto.pb.go:1668-1681 | For every input: what Skip gives is a length within it if and only if a field of the grammar of that length stands there: a varint, eight or four bytes, as many bytes as announced, or a group of fields up to its end. The grammar is written without Skip. |
| `UnknownFields.UnknownReadsBack` | api/specs/specs_vtproto.pb.go:1668-1681 | Any field of the grammar whose number the message does not know is kept whole by one turn of the loop, whatever follows it. |
| `UnknownFields.UnknownExactly` | api/specs/specs_vtproto.pb.go:1668-1681 | The well-formed unknown bytes of the round trips are exactly the concatenations of such fields. |
| `UnknownFields.NewerFields` | api/specs/specs_vtproto.pb.go:1668-1681 | Fields of every wire type, groups included, as a writer with a newer schema writes them, are such fields. |
| `UnknownFields.AnnouncedExactly` | api/specs/specs_vtproto.pb.go:1668-1681 | An unknown field that announces bytes by any varint is skipped with them, unless they would end beyond the largest int, or else beyond the input or its limit, each with its own error. |
| `UnknownFields.TagsExactly` | api/specs/specs_vtproto.pb.go:1519-1542 | A tag, spelled in any way, is refused if its wire type is 4, or else if its number, as a signed 32-bit number, is not positive. |
| `UnknownFields.OtherWireType` | api/specs/specs_vtproto.pb.go:1544-1546 | A known field with another wire type than its own is refused. |
| `UnknownFields.NumbersExactly` | api/specs/specs_vtproto.pb.go:1544-1565 | A number is read from any varint after its tag, of which it keeps 64 bits. |
| `UnknownFields.BytesExactly` | api/specs/specs_vtproto.pb.go:1603-1635 | Bytes are read as announced by any varint after the tag; a length that does not fit an int is refused, and so is one beyond the input. |
| `Writer.PutBytes` | api/specs/specs_vtproto.pb.go:620-626 | A length-delimited field written backwards into the buffer puts its encoding before what is written already, and touches nothing else. |
| `Writer.PutNumber` | api/specs/specs_vtproto.pb.go:1248-1252 | The same for a number field. |
| `Writer.PutRepeated` | api/specs/specs_vtproto.pb.go:627-635 | Repeated strings written last to first give their encodings in first-to-last order. |
| `FieldNumbers.TaskBytes` | api/specs/specs_vtproto.pb.go:1191-1254 | The bytes of a MachineTaskSpec, field by field with their numbers, written out. |
| `FieldNumbers.TaskReads` | api/specs/specs_vtproto.pb.go:2979-3228 | What reading each single field does to a MachineTaskSpec, for all numbers and bytes. |
| `FieldNumbers.StatusBytes` | api/specs/specs_vtproto.pb.go:608-657 | The bytes of a ClusterStatusSpec, field by field with their numbers, written out. |
| `FieldNumbers.StatusReads` | api/specs/specs_vtproto.pb.go:1515-1689 | What reading each single field does to a ClusterStatusSpec: any number but zero is true, counters keep 32 bits, strings are appended. |
| `FieldNumbers.HealthBytes` | api/specs/specs_vtproto.pb.go:929-979 | The bytes of a ServiceSpec_Health, field by field, a present but empty timestamp included. |
| `FieldNumbers.HealthReads` | api/specs/specs_vtproto.pb.go:2365-2523 | What reading each single field of its own does to a ServiceSpec_Health. |
| `FieldNumbers.HealthReadsTime` | api/specs/specs_vtproto.pb.go:2365-2523 | A timestamp is read into the one that is there, or else into an empty one; it is refused exactly if that fails. |
| `FieldNumbers.ServiceBytes` | api/specs/specs_vtproto.pb.go:999-1036 | The bytes of a ServiceSpec, field by field, a present but empty health included. |
| `FieldNumbers.ServiceReads` | api/specs/specs_vtproto.pb.go:2524-2674 | What reading each single field of its own does to a ServiceSpec. |
| `FieldNumbers.ServiceReadsHealth` | api/specs/specs_vtproto.pb.go:2524-2674 | A health is read into the one that is there, or else into an empty one; it is refused exactly if that fails. |
| `FieldNumbers.StateBytes` | api/specs/specs_vtproto.pb.go:733-763 | The bytes of an EventSinkStateSpec, entry by entry in the order of the visit. |
| `FieldNumbers.StateReads` | api/specs/specs_vtproto.pb.go:1837-2000 | Reading one entry sets its key to its value. |
| `FieldNumbers.NewerStatusField` | api/specs/specs_vtproto.pb.go:1668-1681 | A field 6 of two bytes, which look like a known field, is kept as unknown and changes nothing else in a ClusterStatusSpec. |
| `ClusterStatus.StatusRoundTrip` | api/specs/specs_vtproto.pb.go:1515-1689 | The bytes of a ClusterStatusSpec decode into a fresh message as the same message if and only if its unknown bytes are well-formed unknown fields, repeated strings in order. |
| `ClusterStatus.StatusMerges` | api/specs/specs_vtproto.pb.go:1515-1689 | Decoding the bytes of one ClusterStatusSpec into another one, for all pairs: scalars and bytes are overwritten where the second message writes them, repeated strings appended, and the unknown bytes are appended. |
| `ClusterStatus.StatusReencodes` | api/specs/specs_vtproto.pb.go:1515-1689 | Whatever input decodes into a fresh message: the message that was decoded, encoded and decoded again, is the same message. |
| `ClusterStatus.ClusterStatusSpec.SizeVT` | api/specs/specs_vtproto.pb.go:1256-1283 | SizeVT is the length of the encoding. |
| `ClusterStatus.ClusterStatusSpec.MarshalToSizedBufferVT` | api/specs/specs_vtproto.pb.go:608-657 | On every buffer of at least that size, the encoding is written at its end, the size is returned, no index goes negative and every earlier byte is unchanged. |
| `ClusterStatus.ClusterStatusSpec.MarshalVT` | api/specs/specs_vtproto.pb.go:590-601 | The buffer is exactly the encoding. |
| `ClusterStatus.ClusterStatusSpec.UnmarshalVT` | api/specs/specs_vtproto.pb.go:1515-1689 | Total on every byte string, with no index out of bounds; the error, and on success the new message, are those of the standard reading merged into the message as it was. |
| `ClusterStatus.ClusterStatusSpec.EqualVT` | api/specs/specs_vtproto.pb.go:272-301 | True exactly if all fields and the unknown bytes are equal. |
| `ClusterStatus.ClusterStatusSpec.CloneVT` | api/specs/specs_vtproto.pb.go:27-50 | A fresh message with the same value. |
| `EventSinkState.StateRoundTrip` | api/specs/specs_vtproto.pb.go:1837-2000 | The bytes of a EventSinkStateSpec decode into a fresh message as the same message if and only if its unknown bytes are well-formed unknown fields, for every order in which the map may be visited. |
| `EventSinkState.StateMerges` | api/specs/specs_vtproto.pb.go:1837-2000 | Decoding the bytes of one EventSinkStateSpec into another one, for all pairs: the values of its keys override, the other keys stay, and the unknown bytes are appended. |
| `EventSinkState.StateReencodes` | api/specs/specs_vtproto.pb.go:1837-2000 | Whatever input decodes into a fresh message: the message that was decoded, encoded and decoded again, is the same message. |
| `EventSinkState.SizeOfAnyOrder` | api/specs/specs_vtproto.pb.go:1309-1325 | The size of the map's entries does not depend on the order of the visit, so that Size and Marshal may visit it differently. |
| `EventSinkState.EntryAlone` | api/specs/specs_vtproto.pb.go:1898-1978 | An entry is read as if it stood alone if and only if its last key or value ends where the entry ends; otherwise it takes bytes of what follows. |
| `EventSinkState.EntryOverrun` | api/specs/specs_vtproto.pb.go:1898-1978 | A message on which the inner loop reads past postIndex and is pulled back: the byte behind the entry becomes its key and is then read again as a tag. |
| `MapEntries.LoopIsStandardExactly` | api/specs/specs_vtproto.pb.go:1898-1978 | For every entry that has a standard reading (its own recursion, bounded by the end of the entry, the last key and the last value winning), wherever it stands: the inner loop reads the same key and ends at the end of the entry, and it reads the same value if and only if no value in the entry has a bit that the last one lacks. On any other entry, it runs past the end if the first field that cannot be read before the end is a key or a value that goes on after it, and fails otherwise. |
| `MapEntries.SubmessageIsStandard` | api/specs/specs_vtproto.pb.go:1898-1978 | The standard reading is how any submessage with a bytes field 1 and a number field 2 is decoded. |
| `MapEntries.OneValueIsStandard` | api/specs/specs_vtproto.pb.go:1898-1978 | An entry that stands alone and gives at most one value is read as the standard asks. |
| `MapEntries.StandardOneThenTwo` | api/specs/specs_vtproto.pb.go:1947-1961 | By the standard, an entry that gives the value one and then two has the value two. |
| `EventSinkState.OneThenTwo` | api/specs/specs_vtproto.pb.go:1947-1961 | A message whose entry gives the value one and then two decodes to a map with the value three. |
| `EventSinkState.EventSinkStateSpec.SizeVT` | api/specs/specs_vtproto.pb.go:1309-1325 | SizeVT is the length of the encoding in any order of the visit. |
| `EventSinkState.EventSinkStateSpec.MarshalToSizedBufferVT` | api/specs/specs_vtproto.pb.go:733-763 | On every buffer of at least that size, the encoding is written at its end, the size is returned, no index goes negative and every earlier byte is unchanged. |
| `EventSinkState.EventSinkStateSpec.MarshalVT` | api/specs/specs_vtproto.pb.go:715-726 | The buffer is exactly the encoding. |
| `EventSinkState.EventSinkStateSpec.UnmarshalVT` | api/specs/specs_vtproto.pb.go:1837-2000 | Total on every byte string, with no index out of bounds; the error, and on success the new message, are those of the standard reading merged into the message as it was. |
| `EventSinkState.EventSinkStateSpec.EqualVT` | api/specs/specs_vtproto.pb.go:340-360 | True exactly if all fields and the unknown bytes are equal. |
| `EventSinkState.EventSinkStateSpec.CloneVT` | api/specs/specs_vtproto.pb.go:79-97 | A fresh message with the same value. |
| `Health.HealthRoundTrip` | api/specs/specs_vtproto.pb.go:2365-2523 | The bytes of a ServiceSpec_Health decode into a fresh message as the same message if and only if its unknown bytes, and those of the messages inside it, are well-formed unknown fields, a present but empty timestamp included. |
| `Health.HealthMerges` | api/specs/specs_vtproto.pb.go:2365-2523 | Decoding the bytes of one ServiceSpec_Health into another one, for all pairs: a timestamp is merged into the one that is there, and the unknown bytes are appended. |
| `Health.HealthReencodes` | api/specs/specs_vtproto.pb.go:2365-2523 | Whatever input decodes into a fresh message: the message that was decoded, encoded and decoded again, is the same message. |
| `Health.HealthKept` | api/specs/specs_vtproto.pb.go:2365-2523 | Decoding into a well-formed message leaves a well-formed message, whose unknown bytes are no more than the input. |
| `Health.ServiceSpec_Health.SizeVT` | api/specs/specs_vtproto.pb.go:1384-1405 | SizeVT is the length of the encoding. |
| `Health.ServiceSpec_Health.MarshalToSizedBufferVT` | api/specs/specs_vtproto.pb.go:929-979 | On every buffer of at least that size, the encoding is written at its end, the size is returned, no index goes negative and every earlier byte is unchanged. |
| `Health.ServiceSpec_Health.MarshalVT` | api/specs/specs_vtproto.pb.go:911-922 | The buffer is exactly the encoding. |
| `Health.ServiceSpec_Health.UnmarshalVT` | api/specs/specs_vtproto.pb.go:2365-2523 | Total on every byte string, with no index out of bounds; the error, and on success the new message, are those of the standard reading merged into the message as it was. |
| `Health.ServiceSpec_Health.EqualVT` | api/specs/specs_vtproto.pb.go:437-457 | True exactly if all fields and the unknown bytes are equal. |
| `Health.ServiceSpec_Health.CloneVT` | api/specs/specs_vtproto.pb.go:157-172 | A fresh message with the same value. |
| `Service.ServiceRoundTrip` | api/specs/specs_vtproto.pb.go:2524-2674 | The bytes of a ServiceSpec decode into a fresh message as the same message if and only if its unknown bytes, and those of the messages inside it, are well-formed unknown fields, a present but empty health included. |
| `Service.ServiceMerges` | api/specs/specs_vtproto.pb.go:2524-2674 | Decoding the bytes of one ServiceSpec into another one, for all pairs: a health is merged into the one that is there, and its timestamp into that one's, and the unknown bytes are appended. |
| `Service.ServiceReencodes` | api/specs/specs_vtproto.pb.go:2524-2674 | Whatever input decodes into a fresh message: the message that was decoded, encoded and decoded again, is the same message. |
| `Service.ServiceSpec.SizeVT` | api/specs/specs_vtproto.pb.go:1408-1428 | SizeVT is the length of the encoding. |
| `Service.ServiceSpec.MarshalToSizedBufferVT` | api/specs/specs_vtproto.pb.go:999-1036 | On every buffer of at least that size, the encoding is written at its end, the size is returned, no index goes negative and every earlier byte is unchanged. |
| `Service.ServiceSpec.MarshalVT` | api/specs/specs_vtproto.pb.go:981-992 | The buffer is exactly the encoding. |
| `Service.ServiceSpec.UnmarshalVT` | api/specs/specs_vtproto.pb.go:2524-2674 | Total on every byte string, with no index out of bounds; the error, and on success the new message, are those of the standard reading merged into the message as it was. |
| `Service.ServiceSpec.EqualVT` | api/specs/specs_vtproto.pb.go:465-482 | True exactly if all fields and the unknown bytes are equal. |
| `Service.ServiceSpec.CloneVT` | api/specs/specs_vtproto.pb.go:177-191 | A fresh message with the same value; the health inside it is fresh too. |
| `MachineTask.TaskRoundTrip` | api/specs/specs_vtproto.pb.go:2979-3228 | The bytes of a MachineTaskSpec decode into a fresh message as the same message if and only if its unknown bytes are well-formed unknown fields, a negative slot included. |
| `MachineTask.TaskMerges` | api/specs/specs_vtproto.pb.go:2979-3228 | Decoding the bytes of one MachineTaskSpec into another one, for all pairs: every field is overwritten where the second message writes it, and the unknown bytes are appended. |
| `MachineTask.TaskReencodes` | api/specs/specs_vtproto.pb.go:2979-3228 | Whatever input decodes into a fresh message: the message that was decoded, encoded and decoded again, is the same message. |
| `MachineTask.MachineTaskSpec.SizeVT` | api/specs/specs_vtproto.pb.go:1479-1513 | SizeVT is the length of the encoding. |
| `MachineTask.MachineTaskSpec.MarshalToSizedBufferVT` | api/specs/specs_vtproto.pb.go:1191-1254 | On every buffer of at least that size, the encoding is written at its end, the size is returned, no index goes negative and every earlier byte is unchanged. |
| `MachineTask.MachineTaskSpec.MarshalVT` | api/specs/specs_vtproto.pb.go:1173-1184 | The buffer is exactly the encoding. |
| `MachineTask.MachineTaskSpec.UnmarshalVT` | api/specs/specs_vtproto.pb.go:2979-3228 | Total on every byte string, with no index out of bounds; the error, and on success the new message, are those of the standard reading merged into the message as it was. |
| `MachineTask.MachineTaskSpec.EqualVT` | api/specs/specs_vtproto.pb.go:553-582 | True exactly if all fields and the unknown bytes are equal. |
| `MachineTask.MachineTaskSpec.CloneVT` | api/specs/specs_vtproto.pb.go:249-267 | A fresh message with the same value. |
| `WireRoundTrips.MachineTaskThroughWire` | api/specs/specs_vtproto.pb.go:1173-1184 | MarshalVT, UnmarshalVT into a fresh message and EqualVT, one after the other: EqualVT accepts the copy if and only if the unknown bytes, at every level, are well-formed unknown fields. |
| `WireRoundTrips.ClusterStatusThroughWire` | api/specs/specs_vtproto.pb.go:590-601 | MarshalVT, UnmarshalVT into a fresh message and EqualVT, one after the other: EqualVT accepts the copy if and only if the unknown bytes, at every level, are well-formed unknown fields. |
| `WireRoundTrips.EventSinkStateThroughWire` | api/specs/specs_vtproto.pb.go:715-726 | MarshalVT, UnmarshalVT into a fresh message and EqualVT, one after the other: EqualVT accepts the copy if and only if the unknown bytes, at every level, are well-formed unknown fields. |
| `WireRoundTrips.HealthThroughWire` | api/specs/specs_vtproto.pb.go:911-922 | MarshalVT, UnmarshalVT into a fresh message and EqualVT, one after the other: EqualVT accepts the copy if and only if the unknown bytes, at every level, are well-formed unknown fields. |
| `WireRoundTrips.ServiceThroughWire` | api/specs/specs_vtproto.pb.go:981-992 | MarshalVT, UnmarshalVT into a fresh message and EqualVT, one after the other: EqualVT accepts the copy if and only if the unknown bytes, at every level, are well-formed unknown fields. |
| `Wireguard.ChangesAreDifference` | internal/pkg/machine/controllers/link_spec.go:391-488 | The merge of two sorted peer lists finds, in strictly ascending order, exactly: an addition for each wanted peer that is not there in an equal form, and a deletion for each peer whose key is not wanted. So there is one entry for each key in only one list or with unequal peers. |
| `Wireguard.Encode` | internal/pkg/machine/controllers/link_spec.go:368-491 | The two-cursor loop ends, its switch is exhaustive, and the patch holds exactly the changes that are due, in order, each written with all its parts; for sorted lists it fails if and only if the private key differs and does not parse, or a due addition has a key that does not parse or an endpoint that does not resolve, or a due deletion has a key that does not parse. |
| `Wireguard.UnwritableExactly` | internal/pkg/machine/controllers/link_spec.go:391-445 | For sorted lists, some change cannot be written exactly if some peer that is due cannot, in terms of the two lists and the libraries alone. |
| `Wireguard.NothingToChange` | internal/pkg/machine/controllers/link_spec.go:391-488 | There are no peer entries exactly if each wanted peer is there in an equal form and each peer's key is wanted. |
| `Wireguard.SelfNeedsNoChange` | internal/pkg/machine/controllers/link_spec.go:391-488 | Encoding a configuration against itself has no peer entries. |
| `Wireguard.LessTotal` | internal/pkg/machine/controllers/link_spec.go:455-487 | Exactly one of the three cases of the switch over two keys holds. |
| `Wireguard.LessExactly` | internal/pkg/machine/controllers/link_spec.go:455-479 | One key is before another exactly if it is its beginning, or smaller at the first place where they differ. |
| `WireguardDevice.PatchReachesKeys` | internal/pkg/machine/controllers/link_spec.go:368-491 | Applying the patch leaves exactly the wanted keys on the device if and only if every key that is wanted in another spelling than the device's own is also wanted in a spelling that sorts after it. |
| `WireguardDevice.PatchReachesPeers` | internal/pkg/machine/controllers/link_spec.go:391-488 | Where keys have one spelling: equal peers stay untouched; every other wanted peer gets its allowed IPs and keepalive, and its endpoint and preshared key where it sets them (else they stay); no other key is left. |
| `WireguardDevice.WireguardSpec.Decode` | internal/pkg/machine/controllers/link_spec.go:494-528 | Decode reads every peer of the device, the absent endpoint and the zero preshared key as empty, and the private or the public key. |
| `WireguardDevice.DecodedShows` | internal/pkg/machine/controllers/link_spec.go:494-528 | What was read of a device, in any order, has all of its keys, each in the one spelling the device uses. |
| `WireguardDevice.ReadingRebuilds` | internal/pkg/machine/controllers/link_spec.go:494-528 | What was read of a peer of the device, added to an empty device, makes the very same peer, if addresses and keys read back. |
| `WireguardDevice.SyncReaches` | internal/pkg/machine/controllers/link_spec.go:262-301 | Reading a device, sorting, encoding the difference to a wanted configuration with canonical keys and applying it: the device then has the wanted scalars, exactly the wanted keys, equal peers untouched and the others as wanted. |
| `WireguardDevice.WantedPeerIsLost` | internal/pkg/machine/controllers/link_spec.go:391-488 | For every key whose string ends in "8=" and a wanted peer with the same key spelled "+=" or "/=" at the end, which parses as the same key: the patch is encoded, and removes the wanted peer. |
| `WireguardDevice.SpelledBefore` | internal/pkg/machine/controllers/link_spec.go:455-479 | Among the four spellings of a key that parse, one sorts before the device's if and only if the device's ends in "8=" and it in "+=" or "/=". |
| `WireguardDevice.Base64ReadsBack` | internal/pkg/machine/controllers/link_spec.go:494-512 | Keys in base 64 read back, so that what is required of key strings above holds of real ones. |
| `KeyStrings.RespelledParses` | internal/pkg/machine/controllers/link_spec.go:392-396 | A key string parses as the same key with any two lowest bits in its last letter. |
| `KeyStrings.PrintReadsBack` | internal/pkg/machine/controllers/link_spec.go:494-512 | Every key of 32 bytes, printed and parsed again, is the same key. |
| `KeyStrings.ParsesExactly` | internal/pkg/machine/controllers/link_spec.go:392-396 | A string parses as a key if and only if it is one of the four ways to write it. |
| `Apid.AcceptsExactly` | internal/pkg/machine/services/apid/pkg/backend/apid.go:185-200 | A unary response is accepted if and only if it begins with the varints, in any form, of the tag 10 and of a length of at most 64 bits. |
| `Apid.AnswersExactly` | internal/pkg/machine/services/apid/pkg/backend/apid.go:168-253 | Every answer of AppendInfo and BuildError, streamed or not: which response gives which bytes and which error. |
| `Apid.ConsumesExactly` | internal/pkg/machine/services/apid/pkg/backend/apid.go:185-193 | The header decoder accepts a varint if and only if it is one by the standard, of a number of at most 64 bits, and reads that number. |
| `Apid.AppendInfoExtendsReply` | internal/pkg/machine/services/apid/pkg/backend/apid.go:168-214 | A unary reply with such a header is accepted, and gets the metadata at its end if and only if it is the whole response. |
| `Apid.PlainReply` | internal/pkg/machine/services/apid/pkg/backend/apid.go:168-214 | A reply with an ordinary header is accepted; whatever follows it in the response, such as a second reply, ends up inside the first. |
| `Apid.PartsAggregate` | internal/pkg/machine/services/apid/pkg/backend/apid.go:135-142 | For any number of backends whose replies are each one length-delimited field 1 with the header in any accepted varint form, mixed with errors in any order: the concatenation decodes to exactly one reply for each, its own body followed by its own metadata. |
| `Apid.MetadataIsMerged` | internal/pkg/machine/services/apid/pkg/backend/apid.go:150-152 | A reply that carries metadata, streamed or not, decodes as the reply with the metadata merged into it, whatever message it is. |
| `Apid.ConsumedFits` | internal/pkg/machine/services/apid/pkg/backend/apid.go:185-193 | A varint that the header decoder accepts is below 2^64, so nothing of it is lost. |
| `Proxying.Router.Director` | internal/pkg/machine/services/apid/pkg/director/director.go:60-75 | Local without metadata or with proxyfrom; otherwise as decided below. |
| `Proxying.Router.DirectAccessDirector` | internal/pkg/machine/services/apid/pkg/director/director.go:79-117 | With node proxying disabled, by the headers themselves: "node" is refused; without "nodes", or with none in it, local; refused if the method is of COSI, or if the one node is not this one; otherwise a fan-out over all of them, in order. |
| `Proxying.DirectAccessIsLocal` | internal/pkg/machine/services/apid/pkg/director/director.go:79-117 | So nothing but a fan-out leaves the node, and a fan-out over one node is over this one. |
| `Proxying.Router.ProxyDirector` | internal/pkg/machine/services/apid/pkg/director/director.go:120-151 | With node proxying enabled: one remote node exactly for a single "node" and no "nodes", a fan-out for "nodes", local for neither, else refused. |
| `Proxying.Router.AggregateDirector` | internal/pkg/machine/services/apid/pkg/director/director.go:154-167 | Backend i of a fan-out is the remote backend for target i, for all targets, or the whole fan-out is refused because one target is. |
| `Proxying.DirectorIsDetermined` | internal/pkg/machine/services/apid/pkg/director/director.go:60-167 | What is stated of a Director determines its decision for every request. |
| `Proxying.APID.GetConnection` | internal/pkg/machine/services/apid/pkg/backend/apid.go:67-123 | The outgoing headers carry proxyfrom and no "node", "nodes" or ":authority", and all others unchanged; a connection is dialled once and cached, and no failure is. |
| `Proxying.OneRemoteHop` | internal/pkg/machine/services/apid/pkg/director/director.go:60-75 | Over every network of nodes in either mode and whatever the headers, a request makes at most one remote hop: where it arrives, the Director can only pick the local backend. |
| `ApidFactory.StepKeeps` | internal/pkg/machine/services/apid/pkg/backend/apid_factory.go:40-60 | In any interleaving of Get calls, each backend built is in the cache, closed or held by the one call that built it, and every returned one is the cached one. |
| `ApidFactory.OneBackendPerTarget` | internal/pkg/machine/services/apid/pkg/backend/apid_factory.go:40-60 | Any two Get calls for one target return the same backend, which is open and stays cached. |
| `ApidFactory.LosersAreClosed` | internal/pkg/machine/services/apid/pkg/backend/apid_factory.go:40-60 | When no call is under way, a backend is closed exactly if it is not cached. |
| `ApidFactory.GetsExactly` | internal/pkg/machine/services/apid/pkg/backend/apid_factory.go:40-60 | A call of Get returns what is cached; otherwise it builds a backend if the target is accepted, and fails without a trace if it is not. |
| `ApidFactory.StoresExactly` | internal/pkg/machine/services/apid/pkg/backend/apid_factory.go:40-60 | A call that has built its backend returns it and caches it, or, if another one is cached meanwhile, closes it and returns that. |
| `Membership.MachineService.ApplyConfiguration` | internal/pkg/machine/services/machined.go:79-180 | The new local and shared state, the error and the mode, for a partial or complete configuration over none, a partial or a complete one, also where a step fails half-way. |
| `Membership.MachineService.Bootstrap` | internal/pkg/machine/services/machined.go:183-217 | Only an existing cluster that is not bootstrapped is bootstrapped; nothing else changes. |
| `Membership.MachineService.Reset` | internal/pkg/machine/services/machined.go:220-296 | The configuration is destroyed first; the counter of the role is decremented, the bootstrapped flag decided by the record as read before, the record torn down if both counters are zero, the labels removed. |
| `Membership.MachineService.EtcdMemberList` | internal/pkg/machine/services/machined.go:400-469 | The members are exactly the machines labelled as control planes of the cluster, with a member ID that is not denied, once each. |
| `Membership.MachineService.EtcdRemoveMemberByID` | internal/pkg/machine/services/machined.go:472-508 | The member is added to the denied ones of the caller's cluster, once, if the caller is a control plane. |
| `Membership.MachineService.EtcdLeaveCluster` | internal/pkg/machine/services/machined.go:511-558 | The same for the machine's own member. |
| `Membership.EtcdController.ReconcileEtcd` | internal/pkg/machine/controllers/etcd.go:103-189 | One reconcile: the service, the member ID, made only if there is none, and the shared status with the labels. |
| `MembershipCalls.ApplyMeans` | internal/pkg/machine/services/machined.go:79-180 | What ApplyConfiguration leaves in every field of both stores, written out: when the machine joins, its role is counted, modulo 2^32, and it gets the labels of its cluster and of its own role. |
| `MembershipCalls.BootstrapMeans` | internal/pkg/machine/services/machined.go:183-217 | What Bootstrap leaves, and which error it returns when, written out. |
| `MembershipCalls.ResetMeans` | internal/pkg/machine/services/machined.go:220-296 | What Reset leaves, and which error it returns when, written out: the bootstrapped flag goes exactly if a control plane is reset while their counter was zero already. |
| `MembershipCalls.RemoveMeans` | internal/pkg/machine/services/machined.go:472-508 | What removing a member leaves, written out. |
| `MembershipCalls.LeaveMeans` | internal/pkg/machine/services/machined.go:511-558 | What leaving the cluster leaves, written out. |
| `MembershipCalls.ReconcileMeans` | internal/pkg/machine/controllers/etcd.go:116-212 | What a reconcile leaves in the service, the member and the status, written out. |
| `MembershipLabels.ConfiguredHasOwnLabels` | internal/pkg/machine/services/machined.go:157-166 | Over every run: a machine that is configured when it has no labels, no complete configuration and no reconcile under way that may write labels has exactly the labels of its cluster and its own role, as long as it keeps that configuration. |
| `MembershipRuns.StepUpToDate` | internal/pkg/machine/controllers/etcd.go:75-98 | Every step of every machine keeps: a control plane with no pending event is settled, or its reconcile has read what is current. |
| `MembershipRuns.EtcdStartsUp` | internal/pkg/machine/controllers/etcd.go:103-189 | In any interleaving of configuration, bootstrap, denials and clean-up: whenever a control plane has no event pending and no reconcile under way, its etcd is running exactly if the cluster is bootstrapped, healthy exactly if its member is also not denied, and if running, the shared status has the member ID and both labels. |
| `MembershipRuns.ReconcileSettles` | internal/pkg/machine/controllers/etcd.go:116-189 | A pending event is enough: three undisturbed steps of the controller settle the machine. |
| `MembershipRuns.RunningIsListed` | internal/pkg/machine/services/machined.go:400-469 | Over every run, of the control planes with no pending event and no reconcile under way, those that run etcd are in the member list exactly if their service is healthy. |
| `MembershipRuns.ListedIsOwn` | internal/pkg/machine/services/machined.go:400-469 | Over every run, whatever EtcdMemberList reports is the own member of a machine with the labels of the cluster and of a control plane, and is not denied. |
| `MembershipRuns.MemberIsKept` | internal/pkg/machine/controllers/etcd.go:154-169 | Over every run, a member ID never changes once it is set. |
| `MembershipRuns.DeniedGrows` | internal/pkg/machine/services/machined.go:486-500 | Over every run, the denied members of a cluster only grow and never repeat while its record lives. |
| `MembershipRuns.NeverListedAgain` | internal/pkg/machine/services/machined.go:419-458 | A denied member is never listed again while the record lives. |
| `MembershipRuns.RemovedIsDenied` | internal/pkg/machine/services/machined.go:472-558 | Removing a member and leaving are what denies it. |
| `MembershipRuns.DeniedIsUnhealthy` | internal/pkg/machine/controllers/etcd.go:183-188 | Over every run, a control plane of the cluster whose member was denied is not healthy whenever it has no pending event and no reconcile under way. |
| `MembershipRuns.DeniedNeverHealthy` | internal/pkg/machine/controllers/etcd.go:183-188 | Over every run, once the member is denied and the service not healthy, and no reconcile has read an older record, it is never healthy again while the record lives and the machine is not configured for another cluster, however often it is reset and configured. |
| `MembershipResets.ResetRelabelsExactly` | internal/pkg/machine/services/machined.go:220-296 | After a reset that succeeds, from any world: some continuation that applies no complete configuration to the machine ends with the machine labelled and without one, if and only if a reconcile of it was under way that had read a bootstrapped record or had not read the record yet. |
| `MembershipResets.BareRelabelsExactly` | internal/pkg/machine/controllers/etcd.go:118-212 | The same of any machine without a complete configuration and labels. For a reconcile that has only started, the continuation is built: if the record is being torn down it is cleaned up, another machine joins the cluster and bootstraps it, and the reconcile reads and finishes. |
| `MembershipResets.BareIsKept` | internal/pkg/machine/controllers/etcd.go:118-212 | Without such a reconcile, a machine without a complete configuration and labels stays so over every path of steps of any machines that do not apply one to it. |
| `MembershipResets.ResetStaysUnlabelled` | internal/pkg/machine/controllers/etcd.go:175-181 | Over every run, a machine reset at such a moment has no labels until a complete configuration is applied to it. |
| `MembershipResets.FinishLabels` | internal/pkg/machine/controllers/etcd.go:201-212 | A reconcile that has read a bootstrapped record labels the machine when it finishes, whatever became of the machine meanwhile. |
| `MembershipResets.LateReconcileRelabels` | internal/pkg/machine/controllers/etcd.go:175-181 | A run from the beginning in which that happens: join, bootstrap, a reconcile reads, reset, the reconcile finishes; the machine has no configuration and both labels. |
| `MembershipCounts.StepConserves` | internal/pkg/machine/services/machined.go:119-155 | One step keeps the counters equal to the numbers of configured machines if and only if it is not a configuration that is partial or of another role or cluster over a complete one, or the first one for a cluster being torn down. |
| `MembershipCounts.CountersAreConserved` | internal/pkg/machine/services/machined.go:119-155 | Over every run: the counters always equal the numbers of configured machines, and a record is being torn down exactly while no machine is left, if and only if every step is orderly in that sense. |
| `MembershipCounts.NoCounterWraps` | internal/pkg/machine/services/machined.go:252-264 | As long as the counters are right, no increment or decrement of the uint32 counters wraps, and a configured machine's record is there and not torn down. |
| `MembershipCounts.StaysBootstrapped` | internal/pkg/machine/services/machined.go:255-257 | As long as the counters are right, a bootstrapped cluster stays so until its record is destroyed, also when its last control plane is reset. |
| `MembershipCounts.PartialCountsTwice` | internal/pkg/machine/services/machined.go:94-119 | A partial configuration between two complete ones counts the machine twice. |
| `MembershipCounts.RoleChangeWraps` | internal/pkg/machine/services/machined.go:252-264 | A machine that changes its role and is reset leaves the other counter at 2^32-1. |
| `EventSink.RecordIsSafe` | internal/pkg/machine/events/events.go:326-365 | Over every run with conflicts, retries and crashes, and any number of publishers on one entry, the recorded version never goes back and was always published before. |
| `EventSink.StepSound` | internal/pkg/machine/events/events.go:326-365 | The invariant behind it, kept by every step. |
| `EventSink.WatchCovers` | internal/pkg/machine/events/events.go:276-318 | A watch starts with every version not yet recorded if and only if no update came between getting the latest version and watching, or just one and there was no backlog. |
| `EventSink.NeverGoesBack` | internal/pkg/machine/events/events.go:276-370 | For one publisher, over every run, gaps, conflicts, retries and crashes included: the published versions never go back, if no session crashes after it has published a version beyond the next one to record. |
| `EventSink.CrashGoesBackExactly` | internal/pkg/machine/events/events.go:276-370 | After such a run, a crash, with no harmful one after it, can be followed by published versions that go back if and only if the session has published a version beyond the next one to record. |
| `EventSink.PublishedInOrder` | internal/pkg/machine/events/events.go:276-370 | For one publisher and runs without a gap, crashes at any moment: the versions are published in order, none is left out, only repeats occur, and once a session has handled all it was sent, everything is recorded. |
| `EventSinkProgress.CatchesUp` | internal/pkg/machine/events/events.go:276-370 | From every world of a gapless run, a session that has not just started, or a new one if there is none, alone comes to one that has nothing left to handle, with the current version recorded. |
| `EventSinkProgress.HandlesAll` | internal/pkg/machine/events/events.go:314-370 | With any number of publishers and any versions to handle, in any order: a session left alone handles them all, and the highest, or what was recorded before, is recorded. |
| `EventSinkProgress.SwapsExactly` | internal/pkg/machine/events/events.go:326-365 | A swap at the revision that was read records just the version that was published, one revision on; at any other revision it writes nothing, and the same version is handled again. |
| `EventSinkProgress.ReceivesExactly` | internal/pkg/machine/events/events.go:326-358 | A version is dropped exactly if it is not above the recorded one; otherwise it is published, and nothing is recorded before that. |
| `EventSinkProgress.ConflictIsRetried` | internal/pkg/machine/events/events.go:326-365 | Any other write to the record between reading and swapping makes the swap write nothing. |
| `EventSinkProgress.InitialExactly` | internal/pkg/machine/events/events.go:294-309 | A watch starts with as many of the last versions as there is backlog, or else with the current one, if there is one. |
| `EventSink.SkippedIsReplayed` | internal/pkg/machine/events/events.go:276-318 | A run with such a gap and a crash, in which version 2 is published and then version 1. |
| `SinkHandler.Handler.HandleAddress` | internal/pkg/machine/events/events.go:93-127 | A sink is replaced exactly if an address is found that is not the bound one; the old one ends first. |
| `SinkHandler.Handler.Run` | internal/pkg/machine/events/events.go:53-127 | Over all turns, and over several calls one after the other: the starts and ends of sinks, and whether it fails, are exactly those that the turns call for; sinks never overlap, the last one is bound to the address found last, and none is left at the end. |
| `SinkHandler.EndedBetween` | internal/pkg/machine/events/events.go:80-127 | Between the starts of two sinks, the first one has ended. |
| `Images.BuiltParses` | internal/pkg/machine/runtime/resources/talos/image.go:45-72 | A reference built from path segments, name, tag and an optional digest parses to its host, its schematic if the host is the factory, and its tag. |
| `Images.ParsesExactlyTagged` | internal/pkg/machine/runtime/resources/talos/image.go:45-72 | A reference parses if and only if it is built in that way. |
| `Images.PinKeepsIdentity` | internal/pkg/machine/services/image.go:70-76 | Pinning changes nothing that parsing sees, for every reference and digest, and pinning again changes nothing. |
| `Images.PinsExactly` | internal/pkg/machine/services/image.go:70-76 | Pinning adds the digest to a reference that has none, and leaves one that has. |
| `Images.MachineService.SetImage` | internal/pkg/machine/services/machined.go:1034-1061 | The image becomes the parsed one; it has changed exactly if it is another one than before. |
| `Images.MachineService.Upgrade` | internal/pkg/machine/services/machined.go:327-367 | A reboot and another boot ID exactly if the request is accepted and the image changes. |
| `Images.MachineService.Upgrades` | internal/pkg/machine/services/machined.go:327-367 | A run of upgrades reboots exactly once for every change of the image, and rotates the boot ID only then. |
| `Images.SameImageChangesOnce` | internal/pkg/machine/services/machined.go:346-357 | Upgrades to references of one host, schematic and version change the image at most once: exactly if one is accepted and it is not that image already. |
| `Endpoints.LeftRotates` | internal/pkg/machine/controllers/siderolink.go:138-181 | In every history that follows the rotation: between two responses, the endpoints taken are those of the first, once each and in order, all of them unless a UUID other than the one it was for ended it; of the last response a beginning is taken; and every endpoint is taken of a response for the UUID that was current then. |
| `Endpoints.TakenInOrder` | internal/pkg/machine/controllers/siderolink.go:407-420 | The endpoints taken from a response since, and those left, make up its list. |
| `Endpoints.ManagerController.HandleTurn` | internal/pkg/machine/controllers/siderolink.go:119-181 | One pass, by the steps of the source, is PassOf, and keeps the rotation: what is cached is what the history has left over. |
| `Endpoints.PassIsRight` | internal/pkg/machine/controllers/siderolink.go:138-154 | A pass drops what is cached exactly if the current UUID is another one, gets a response exactly if nothing is cached then and the service responds, and takes an endpoint only of data for the UUID it read last. |
| `Endpoints.PassExactly` | internal/pkg/machine/controllers/siderolink.go:138-181 | What one pass takes, what stays cached and whether it fails, by the data it takes an endpoint of: those cached for the current UUID, or else a new response, whose endpoints are then used in its order. |
| `Endpoints.ManagerController.TakeEndpoint` | internal/pkg/machine/controllers/siderolink.go:411-420 | The first endpoint, if there is one, and the rest stays. |
| `Endpoints.ManagerController.Run` | internal/pkg/machine/controllers/siderolink.go:119-284 | Every run, of any turns and after any earlier run, follows the rotation stated by LeftRotates; what happens in it is what its passes do, one after the other up to the first failure. |
| `Endpoints.BadAddressesStay` | internal/pkg/machine/controllers/siderolink.go:160-168 | With a cached response whose addresses do not parse, nothing happens in a run if and only if its first turn that is not idle, if any, does not read another UUID. |
| `Endpoints.BadAddressesAreCached` | internal/pkg/machine/controllers/siderolink.go:160-168 | A response of this kind is cached by the pass that asks for it and fails, and the next pass fails on it. |
| `Slots.Provisioner.PickFreeSlot` | internal/pkg/provider/provision.go:169-189 | The least positive slot that no task uses, at most one more than the number of tasks; none exactly if 1 to 99999 are all used. |
| `Slots.FreeSlotIsUnique` | internal/pkg/provider/provision.go:169-189 | The tasks alone determine the outcome: there is only one least free slot. |
| `Slots.FreeSlotIsSmall` | internal/pkg/provider/provision.go:169-189 | A free slot is at most the number of tasks plus one, and there is none only with 99999 tasks or more. |
| `Slots.Provisioner.CreateMachine` | internal/pkg/provider/provision.go:51-128 | One creating step of a run: an existing machine task is reported as it is; a machine keeps its slot from an earlier attempt, or gets the free one. |
| `Slots.Provisioner.Deprovision` | internal/pkg/provider/provision.go:135-166 | One removing step of a run: the machine task and the state of this machine are gone, and all others stay as they are. |
| `Slots.CreateKeepsDistinct` | internal/pkg/provider/provision.go:81-122 | A created machine task keeps all slots distinct if and only if the machine had no slot from an earlier attempt, or nobody has taken it since. |
| `Slots.SlotsAreDistinctExactly` | internal/pkg/provider/provision.go:51-166 | Over every run, failed creations included: all live machine tasks have different slots throughout, if and only if every task is created with a slot that nobody has taken since an earlier attempt. |
| `Slots.SlotsStayDistinct` | internal/pkg/provider/provision.go:51-166 | Over every run of steps whose creations succeed, all live machine tasks have different slots. |
| `Slots.FailedCreateSharesSlot` | internal/pkg/provider/provision.go:119-125 | A creation that fails leaves its slot to the next machine, and the retry then shares it. |
| `HostnameMerge.HostnameMergeController.Merge` | internal/pkg/machine/controllers/hostname_merge.go:70-81 | For every list, the loop comes to the first spec with a hostname that no later spec outranks, or to the last spec if there is none; for named specs, to the first spec of the highest layer. |
| `HostnameMerge.MergedIsFirstSurvivor` | internal/pkg/machine/controllers/hostname_merge.go:70-81 | For every list: the result is the first spec with a hostname that no later spec outranks, and the last spec if there is none; it has a hostname if and only if there is one. |
| `HostnameMerge.MergedIsWinner` | internal/pkg/machine/controllers/hostname_merge.go:70-81 | The result is the first spec of the highest layer if and only if that has a hostname, or no hostname survives and the last spec is the same. |
| `HostnameMerge.NoneIsErased` | internal/pkg/machine/controllers/hostname_config.go:156-175 | If specs without a hostname are of the lowest layer, as the controller that writes them sees to, there is a hostname in the result if and only if some spec has one. |
| `HostnameMerge.UnnamedErases` | internal/pkg/machine/controllers/hostname_merge.go:75-80 | A list with a named spec whose result has no hostname. |
| `HostnameMerge.WinnerIsUnique` | internal/pkg/machine/controllers/hostname_merge.go:70-81 | There is only one such spec. |
| `HostnameMerge.HostnameMergeController.Reconcile` | internal/pkg/machine/controllers/hostname_merge.go:83-115 | The output gets the merged spec exactly if that has a hostname and the output is not being torn down; otherwise it is torn down, and destroyed once it has no finalizers. |
| `Members.MemberController.Reconcile` | internal/pkg/machine/controllers/member.go:63-106 | Exactly the wanted members are owned afterwards, each as its last affiliate says; those of others are untouched; it fails exactly if somebody else owns a wanted name. |
| `Members.ReconciledIsDetermined` | internal/pkg/machine/controllers/member.go:63-106 | The members after a reconcile are determined by those before it and the affiliates. |
| `Members.ReconcileIsIdempotent` | internal/pkg/machine/controllers/member.go:63-106 | Reconciling again changes nothing. |
| `Nodenames.FromHostnameIsNodename` | internal/pkg/machine/controllers/nodename.go:127-159 | The result has only `[a-z0-9.-]` and starts and ends with a letter or digit; it fails exactly if no letter or digit is left. |
| `Nodenames.FromHostnameExactly` | internal/pkg/machine/controllers/nodename.go:127-159 | For every hostname: of what is left without the characters that are dropped, the node name is the part from the first letter or digit to the last, in lower case and with dashes for underscores. |
| `Nodenames.FormatExactly` | internal/pkg/machine/controllers/nodename.go:127-159 | The result has the format that the comment gives, `[a-z0-9]([-a-z0-9]*[a-z0-9])?`, if and only if the hostname has no dot between two letters or digits. |
| `Nodenames.DotIsKept` | internal/pkg/machine/controllers/nodename.go:127-159 | The hostname "a.b" is its own node name, which does not have that format. |
| `Nodenames.FromHostnameIsIdempotent` | internal/pkg/machine/controllers/nodename.go:127-159 | A node name converts to itself. |

## Left out

- Varints.EncodeVarint: EncodeVarint, SizeOfVarint and Skip of protohelpers are not part of the repository; they are written from the sections "Base 128 Varints" and "Message Structure" of the Protocol Buffers encoding specification.
- Health.HealthRoundTrip: the timestamp inside a health is external; it is modelled from the definition of google.protobuf.Timestamp, as values only, without its buffer-writing code.
- MachineTask.MachineTaskSpec.UnmarshalVT: the fields of the message after an error are not stated, nor is the order in which Go assigns them before it.
- ClusterStatus.ClusterStatusSpec.EqualVT: nil receivers are not modelled, and a nil slice or map is the same as an empty one.
- Codecs.ConcatenationIsMerge: when both sides fail, it does not say that they fail with the same error, because the concatenation may fail at another point of the input.
- Inputs are at most as long as the largest Go int; all other messages of the generated file follow the same pattern and are not modelled.
- KeyStrings.RespelledParses: wgtypes.ParseKey is not part of the repository; it is written from section 4 of RFC 4648 and from the key length, and line breaks, which Go's decoder skips, do not parse here.
- MapEntries.LoopIsStandardExactly: neither reading looks at the wire type of a key or a value, because the code does not; entries with a wrong one, which a decoder of submessages rejects, are read by both.
- Wireguard.Encode: the order of strings is that of their characters, which for keys in base64 is Go's order of bytes; the conversions between netip.Prefix and net.IPNet are taken to be the identity.
- WireguardDevice.PatchReachesPeers: the kernel's rule that an allowed IP moves from one peer to another is not modelled; an endpoint or preshared key that is wanted empty stays as it is, as the patch has no way to clear it.
- WireguardDevice.SyncReaches: sorting is any rearrangement that is sorted; the comparison of whole specifications that comes before Encode is external.
- Apid.PartsAggregate: the marshalled metadata and errors are opaque bytes; the test n1+n2 > len(resp) of AppendInfo can never hold and is not written out.
- Proxying.Router.Director: the remote backend factory accepts or refuses a target; dialling, TLS and connection shutdown are not modelled, nor is the list of streamed methods.
- Proxying.OneRemoteHop: that the receiving node gets every forwarded header, and that target addresses lead to nodes, is assumed of the network.
- ApidFactory.OneBackendPerTarget: Flush, which closes cached backends at shutdown, is not modelled.
- Membership.MachineService.ApplyConfiguration: loading a configuration and validating its installer are parameters; each call is one atomic step of a run, and an update of a record that is being torn down fails, as the store does by default.
- Membership.EtcdController.ReconcileEtcd: a failure to generate a member ID or to write the service is not modelled. In runs a reconcile is three steps: it reads the configuration, then the record, then writes.
- Machines are never removed from a run: destroying a machine that was not reset leaves its cluster's counters as they are.
- EventSink.PublishedInOrder: versions are kept by type, so nothing is claimed for the three services, which share one counter; a failed Publish is a crash, the history of a resource is unbounded, and a resource is not destroyed and created anew.
- Images.MachineService.Upgrade: a failure of the reboot request itself is not modelled; the image is recorded before it.
- Endpoints.PassIsRight: a pass reads the system information once to compare and once more when it asks; the UUID of an endpoint taken is compared with the later of the two.
- Endpoints.ManagerController.HandleTurn: the link, address and tunnel specs are not modelled beyond the endpoint taken; whether writing them fails only decides the error.
- Slots.Provisioner.CreateMachine: of a machine task only its slot is modelled, not its UUID, schematic or version; tearing it down is one step.
- Members.MemberController.Reconcile: of a member only its owner and one opaque value are modelled.
- Role and authorisation middleware, certificates, Kubernetes, storage, netlink, gRPC transport, logging, fake processes and disks, kernel arguments and URL parsing: input and output, libraries or constants.
- The enterprise probe cache, version naming and performance counters: easy members.
