# Verified model of dmchain's codecs, price statistics, genesis and message filter

The project models, in Dafny, the parts of the chain whose correctness is a matter of algorithm:

- the protobuf wire codec generated for the multisig module (`size`, `marshal` and `unmarshal` of `Proposal`,
  `MultisigAccountDetails`, `MsgCreateMultisigAccountParams`, `Params` and `MsgUpdateParams`);
- the oracle's statistics over lists of decimals (`util/decmath`);
- the oracle's genesis import and export, over all the collections of the keeper;
- the ante decorator that looks for blocked messages inside nested `MsgExec` messages.

## How it is built

| file | contents |
|---|---|
| `Machine.dfy` | Go's integer conversions with their wrap-around, byte strings, decimals, the codec's errors |
| `Varint.dfy` | varints: the reading loop, `EncodeVarint`, `Sov`, and their laws |
| `Skip.dfy` | skipping an unknown field by counting open groups, and the recursive grammar it refines |
| `Wire.dfy` | the record loop of `unmarshal` over a table of fields, the records `marshal` writes, and every law that holds for all messages |
| `Format.dfy` | the format as the Encoding specification describes it, and the pass that tells which accepted strings are in it |
| `Proposal.dfy`, `MultisigAccountDetails.dfy`, `CreateMultisigAccountParams.dfy`, `UpdateParams.dfy` | one message each: its switch, its records, its theorems, and a class with the three generated methods |
| `DecMath.dfy` | medians, means, deviations, sorting in place |
| `OracleGenesis.dfy` | the keeper as a class, genesis import and export |
| `MsgFilter.dfy` | the recursive search and the tree it searches |

A message is a class with the fields of the Go struct. Its methods work as the source does: `Marshal` fills an
array of `Size()` bytes from the end, `Unmarshal` loops over the bytes and updates the fields in place. Each method is
proved equal to a function: `Marshal` to `Marshalled`, the concatenation of the message's records, and `Unmarshal` to
`Unmarshalled`, which also gives the state that a failed decoding leaves behind, including the groups of a truncated
varint that were already stored in the field. The theorems are about these two functions, which each message obtains
from `Wire.Encode` and `Wire.Decode` by giving its table of fields, its switch and its list of records. The generated code repeats the
same statements for every field; here each repeated piece (the varint loop, the tag checks, the slice guards, the
default case, one backward write) is one method, and the body of the record loop is `UnmarshalRecord`.

Conventions of the model:

- A slice is a sequence, so nil and empty slices are the same value. Strings are byte strings.
- A Go slice has at most 2^63-1 bytes (`MAX_INT`). Where a contract asks for `|s| <= MAX_INT` or
  `|Encode(..)| <= MAX_INT` it says that the buffer exists; nothing else about the input is assumed.
- `acc |= group << shift` is `Varint.Or` of the accumulator and the low 64 or 32 bits of the shifted group;
  `Varint.OrIsAddition` shows that it adds. An enum is accumulated as an unsigned 32-bit word and read as signed.
- `runtime.EncodeVarint`, `runtime.Sov` and `runtime.Skip` are imported by the generated code. The repository holds
  the same three helpers in `x/multisig/types/state.pb.go`, which are the ones modelled and cited.
- Whether the library call that decodes a nested message resets it first is not visible in the repository. It is the
  parameter `merge` (`mergeNested`), and every theorem holds for both values.
- `LegacyDec` is the integer number of units of 10^-18. `QuoInt64` truncates toward zero; `Mul` rounds half to even.
- Genesis: bech32 encodings, `strings.ToUpper`, the validators of the parameters, the order of store walks and the
  existence of the module account are parameters (`Env`). `Sound` asks that an address that was parsed from a text
  parses back from the text it is shown as, that upper-casing is idempotent, that a walk visits every key once and the
  blocks of a denom in ascending order. `SetParamSet` of the Cosmos SDK is taken to set the 18 pairs in the order of
  `ParamSetPairs` and to panic at the first value that its validator refuses.

## What was found

- **Round trip.** A message survives marshal and unmarshal if and only if its `unknownFields` are a run of whole
  records that the switch sends to its default case. Decoding establishes that condition; a caller who puts a record of
  a declared field there breaks injectivity (`ProposalCodec.NotInjective`).
- **Shortest form.** Re-encoding never lengthens a `Proposal`, a `Params` or a `MsgUpdateParams`. For
  `MultisigAccountDetails` and `MsgCreateMultisigAccountParams` that is false: a negative permission is sign-extended to
  10 bytes although the reader needs 5. `marshal` writes the shortest encoding exactly when the permission is not
  negative (`AccountCodec.ShortestIffNonNegative`, `CreateParamsCodec.ShortestIffNonNegative`).
- **Field numbers.** Protocol Buffers limits field numbers to 29 bits (the language guide, "Assigning Field Numbers").
  The generated code does not check that, and keeps the low 32 bits of the number in the tag. The number is kept if and
  only if it is below 2^31 (`Wire.FieldNumberKept`), and two tags name the same field if and only if their numbers
  differ by a multiple of 2^32 (`Wire.FieldNumberWraps`). In the tag of a record every legal number passes, and of the
  others exactly those pass that are 2^29 or more and whose low 32 bits are a positive `int32` (`Wire.IllegalNumbers`),
  as the declared field with these low bits if there is one and as an unknown record otherwise (`Wire.TagDecides`). So a
  tag with the number 2^32 + 1 sets the id of a proposal (`ProposalCodec.IllegalNumberSetsField`). Inside a group any
  number passes, 0 included (`ProposalCodec.IllegalNumberInGroupAccepted`).
- **More is accepted than the format allows.** `Format.WellFormed` is the format of the Encoding specification, sections
  "Groups" and "Condensed Reference Card": field numbers from 1 to 2^29-1, varints of at most 64 bits, lengths below 2^31,
  groups closed by an end tag with their own number, at any depth; and the declared fields with their wire types, strings
  in UTF-8 and nested messages in the format themselves. The decoder accepts all of it, and more: its depth counter forgets
  which group is open (`ProposalCodec.MismatchedGroupAccepted`), ten-byte varints lose their high bits
  (`ProposalCodec.WideVarintAccepted`), the same holds inside a nested message
  (`UpdateParamsCodec.NestedIllegalNumberAccepted`), and strings are not checked
  (`UpdateParamsCodec.InvalidStringAccepted`). A single pass with a stack of group numbers in place of the counter
  decides the matter: it goes through a field exactly if the format allows the field (`Format.MatchesField`), and an
  accepted string is in the format if and only if the pass goes through each of its records and, in declared fields,
  the strings are UTF-8 and the nested messages pass likewise (`Format.DecodesWellFormedIff`, and `WellFormedIff` of each
  message).
- **Errors depend on position.** Decoding a concatenation is merging, but whether a record that is cut short, declared
  or unknown, is reported as an invalid length or as an unexpected end depends on its offset: the length is invalid
  exactly when the end that the record claims exceeds 2^63-1 (`Wire.PositionDecidesError`). Two positions give the
  same turn if and only if that end lies on the same side of the limit for both (`Wire.NextShift`), and a concatenation
  gives the same error as a merge on the same condition (`Wire.ConcatenationError`). The state left behind does not
  depend on the position.
- **Genesis.** Exporting and re-importing rebuilds the store exactly when the addresses of feeder delegations and miss
  counters read back from how they are shown, prevotes and votes name their keys, rates are stored in upper case, the
  last price block of each denom is the greatest one, the parameters pass their validators, and the averages, the
  validator reward set and the parameter update plans are empty, because genesis does not carry them
  (`OracleGenesis.RoundTripIff`). Importing establishes all of it but the last-block clause, which fails for a list that
  does not end each denom with its greatest block (`OracleGenesis.LastBlockLost`).

## Model

| member | source | states |
|---|---|---|
| Varint.GetFails | api/multisig/v1/state.pulsar.go:1136-1149 | the varint loop fails with an unexpected end exactly when all remaining bytes, fewer than it may read, carry the continuation bit, and with an overflow exactly when ten bytes do |
| Varint.GetBound | api/multisig/v1/state.pulsar.go:1136-1149 | a varint has at most 10 bytes, and its value is below 2^7 to the power of their number |
| Varint.LoopIsGet | api/multisig/v1/state.pulsar.go:1136-1149 | or-ing in each group, shifted by seven more bits, leaves the low 64 or 32 bits of the value read from the last group inwards, and stops where that reading does |
| Varint.DecodeVarint | api/multisig/v1/state.pulsar.go:523-537 | the loop, for 32- and 64-bit accumulators: consumed bytes, error, and the low bits of the sum of groups, also when it stops early |
| Varint.GetIsSum | api/multisig/v1/state.pulsar.go:1136-1149 | what a varint is read as, minimal or not and complete or not, is the sum of its groups, each at its place |
| Varint.OrIsAddition | api/multisig/v1/state.pulsar.go:1145-1145 | on words of any width, or-ing in a group shifted beyond the bits already set is an addition with wrap-around, whether the group fits, is cut or falls off |
| Varint.GetPutUint64 | x/multisig/types/state.pb.go:360-370 | reading undoes writing for every uint64, whatever bytes follow |
| Varint.GetLocal | api/multisig/v1/state.pulsar.go:1136-1149 | a reading depends on the bytes it consumed only |
| Varint.PutMinimal | x/multisig/types/state.pb.go:360-370 | the varint written for a value, or for any less, is no longer than any string that reads as the value |
| Varint.EncodeVarint | x/multisig/types/state.pb.go:360-370 | writes the minimal varint so that it ends at the offset, returns where it starts, and leaves all other bytes alone |
| Varint.SovExact | x/multisig/types/state.pb.go:425-427 | the bit-length formula is the length of the varint |
| Skip.Skip | x/multisig/types/state.pb.go:773-850 | the loop with its depth counter equals the function on suffixes, results and errors alike |
| Skip.SkipIsField | x/multisig/types/state.pb.go:773-850 | skipping returns an offset inside the string if and only if the recursive grammar of fields and groups finds a whole field there, of that length |
| Skip.RunGroup | x/multisig/types/state.pb.go:773-850 | inside a group the counter reaches the matching end tag exactly where the grammar does, at any depth |
| Skip.RunErrors | x/multisig/types/state.pb.go:773-850 | at any depth: which error a broken tag, wire type, varint, end tag or length gives |
| Skip.RunTruncated | x/multisig/types/state.pb.go:773-850 | in a group, whatever reaches the end of the string first is an unexpected end |
| Skip.RunLocal | x/multisig/types/state.pb.go:773-850 | skipping depends on the bytes of the field only, not on its offset nor on what follows |
| Wire.NextIff | api/multisig/v1/state.pulsar.go:1133-1353 | one turn of the loop yields a record, and how long a one, exactly when a whole field with an allowed tag comes next, in spite of the wrapping length arithmetic |
| Wire.NextPayload | api/multisig/v1/state.pulsar.go:1182-1211 | the record read is the declared field of the tag with the bytes after the length as payload, if that field is length-delimited |
| Wire.DecodeAcceptsIff | api/multisig/v1/state.pulsar.go:1133-1353 | for every message, the strings that decode are exactly the sequences of whole fields with allowed tags and payloads that the switch takes |
| Wire.NextErrors | api/multisig/v1/state.pulsar.go:1133-1353 | which error a record gives, by the first of its tag, group end, number, wire type, varint, length and unknown field that is wrong |
| Wire.FailureKeeps | api/multisig/v1/state.pulsar.go:1133-1353 | a record that fails leaves the message as it was, but for a varint accumulated in its field |
| Wire.ScalarRecord | api/multisig/v1/state.pulsar.go:1158-1177 | a varint record, whatever its value and length, does to any message what the switch does with its value, and a broken one with the groups read |
| Wire.SliceRecord | api/multisig/v1/state.pulsar.go:1178-1211 | a length-delimited record, empty or not, does to any message what the switch does with its bytes |
| Wire.NextLocal | api/multisig/v1/state.pulsar.go:1133-1353 | a turn that yields a record depends on the bytes of that record only |
| Wire.NextMinimal | api/multisig/v1/state.pulsar.go:1133-1353 | the record read is declared with the right wire type or unknown, and written again it is no longer than it was |
| Wire.FieldNumberIff | api/multisig/v1/state.pulsar.go:1150-1150 | the field is a given one exactly if the number in the tag is congruent to it modulo 2^32 |
| Wire.FieldNumberKept | api/multisig/v1/state.pulsar.go:1150-1157 | the number in the tag is kept exactly below 2^31, and passes as positive exactly if its low 32 bits do |
| Wire.FieldNumberWraps | api/multisig/v1/state.pulsar.go:1150-1150 | two tags name the same field exactly if their numbers differ by a multiple of 2^32 |
| Wire.IllegalNumbers | api/multisig/v1/state.pulsar.go:1150-1157 | legal numbers are kept, and illegal ones pass exactly if they are 2^29 or more with low 32 bits that are a positive int32 |
| Wire.TagDecides | api/multisig/v1/state.pulsar.go:1150-1353 | whatever the number in a tag, the turn is an illegal-tag error, the default case, or what the one-byte tag of the declared field would give, decided by the low 32 bits |
| Format.MatchesField | x/multisig/types/state.pb.go:773-850 | where skipping finds a field, its iterations with a stack of group numbers go through the field exactly if the Encoding specification allows it |
| Format.MatchesGroup | x/multisig/types/state.pb.go:773-850 | inside a group they reach its end exactly if all that is in it is allowed and its end tag has its own number |
| Format.StrictFieldIff | x/multisig/types/state.pb.go:773-850 | the fields of the specification are those that the lax grammar finds and the pass goes through |
| Format.SkipIsStrictField | x/multisig/types/state.pb.go:773-850 | skipping returns an offset inside the string and the pass goes through if and only if the specification has a field there, of that length |
| Format.ConformsIff | api/multisig/v1/state.pulsar.go:1133-1353 | a string is in the format if and only if it is a sequence of whole fields with allowed tags and its records and payloads conform |
| Format.DecodesWellFormedIff | api/multisig/v1/state.pulsar.go:1120-1354 | for every message, a string decodes and conforms if and only if it is in the format |
| Wire.ReadTag | api/multisig/v1/state.pulsar.go:1135-1157 | field number and wire type of the tag, or the error of the first check that fails |
| Wire.ReadSlice | api/multisig/v1/state.pulsar.go:1182-1211 | with 64-bit wrap-around, the guards on length and end index leave exactly the slices inside the buffer |
| Wire.ReadUnknown | api/multisig/v1/state.pulsar.go:1331-1347 | the default case returns the bytes of the whole field from its tag on, or the error of the guard that stops it |
| Wire.NextEmit | api/multisig/v1/state.pulsar.go:1050-1119 | a written record of a declared field reads back as itself, whatever follows |
| Wire.DecodeEmitted | api/multisig/v1/state.pulsar.go:1120-1354 | decoding written records is running the switch over their list, then decoding what follows |
| Wire.ConcatenationIsMerge | api/multisig/v1/state.pulsar.go:1120-1354 | if one string decodes into a message, decoding its concatenation with another does what decoding the other into the result does: success, failure, and the state left |
| Wire.ConcatenationError | api/multisig/v1/state.pulsar.go:1120-1354 | the error is the same too exactly if the end that the last record claims does not wrap around in one of the two places only |
| Wire.PositionDecidesError | api/multisig/v1/state.pulsar.go:1199-1342 | a record, declared or unknown, that claims to end beyond the buffer has an invalid length exactly when the end index wraps around, and is an unexpected end otherwise; any other turn does not depend on the position |
| Wire.NextShift | api/multisig/v1/state.pulsar.go:1133-1353 | two positions give the same turn exactly if the claimed end wraps around at both or at neither, and otherwise differ in that error only |
| Wire.DecodeShift | api/multisig/v1/state.pulsar.go:1120-1354 | two positions leave the same state, and the same error exactly if the end that the last record claims wraps around at both or at neither |
| Wire.DecodeKeepsUnknownRun | api/multisig/v1/state.pulsar.go:1331-1347 | decoding keeps `unknownFields` a run of whole unknown records, even when it fails |
| Wire.DecodeUnknownGrowth | api/multisig/v1/state.pulsar.go:1331-1347 | `unknownFields` grows by at most the length of the input, and by all of it only if the input is such a run |
| Wire.DecodeUnknownRun | api/multisig/v1/state.pulsar.go:1331-1347 | a run of unknown records decodes to itself |
| Wire.DiscardIsProjection | api/multisig/v1/state.pulsar.go:1343-1345 | discarding unknown records has the same error and the same declared fields as keeping them |
| Wire.DecodeCost | api/multisig/v1/state.pulsar.go:1120-1354 | if no record adds more than its written length to the size of the declared fields, no decoded message is larger than its input |
| Wire.RoundTripIff | api/multisig/v1/state.pulsar.go:1050-1354 | any message survives the wire if and only if the switch rebuilds its fields from their records and its unknown bytes are a run of unknown records |
| Wire.WriteSlice | api/multisig/v1/state.pulsar.go:1083-1089 | writing bytes, length and tag from the end puts the tagged record in front of what was written before |
| Wire.WriteRepeated | api/multisig/v1/state.pulsar.go:1070-1077 | writing the elements last to first yields them in list order |
| ProposalCodec.WireFormat | api/multisig/v1/state.pulsar.go:1050-1119 | the encoding is the tagged fields in ascending order with tags 0x08 to 0x32, zero and empty ones left out, approvals in list order, then the unknown bytes |
| ProposalCodec.SizeExact | api/multisig/v1/state.pulsar.go:1004-1048 | the size pass is the length of the encoding |
| ProposalCodec.RoundTrip | api/multisig/v1/state.pulsar.go:1050-1354 | a proposal survives the wire if and only if its unknown bytes are a run of unknown records |
| ProposalCodec.ScalarRecords | api/multisig/v1/state.pulsar.go:1158-1330 | in any message, a varint record replaces id or deposit by its value, zero included, even if it is not minimal; a broken one by the groups read so far |
| ProposalCodec.SliceRecords | api/multisig/v1/state.pulsar.go:1178-1330 | in any message, a length-delimited record, empty included, replaces address, hash or depositor, or is appended to the approvals |
| ProposalCodec.Injective | api/multisig/v1/state.pulsar.go:1050-1119 | two such proposals with one encoding are equal |
| ProposalCodec.NotInjective | api/multisig/v1/state.pulsar.go:1065-1068 | without the condition two different proposals share an encoding |
| ProposalCodec.NormalForm | api/multisig/v1/state.pulsar.go:1050-1354 | whatever decodes to a proposal, encoding it gives no more bytes, which decode to the same proposal |
| ProposalCodec.DecodeMerges | api/multisig/v1/state.pulsar.go:1120-1354 | decoding an encoding into a message in use replaces the fields that are set and appends approvals and unknown bytes |
| ProposalCodec.ConcatenationMerges | api/multisig/v1/state.pulsar.go:1120-1354 | the concatenation of two encodings decodes to their merge: last one wins |
| ProposalCodec.KeepsClean | api/multisig/v1/state.pulsar.go:1331-1347 | decoding any bytes, even with a failure, keeps the unknown bytes a run of unknown records |
| ProposalCodec.IllegalNumberSetsField | api/multisig/v1/state.pulsar.go:1150-1177 | a tag whose number is 1 modulo 2^32, but is not a legal one, sets the id |
| ProposalCodec.MismatchedGroupAccepted | x/multisig/types/state.pb.go:829-836 | a group whose end tag has another number is kept as an unknown record, though it is not in the format |
| ProposalCodec.IllegalNumberInGroupAccepted | x/multisig/types/state.pb.go:773-850 | so is a group with a field of number 0 |
| ProposalCodec.WideVarintAccepted | api/multisig/v1/state.pulsar.go:1162-1177 | a varint of more than 64 bits is read as its low 64 bits, though it is not in the format |
| ProposalCodec.WellFormedIff | api/multisig/v1/state.pulsar.go:1120-1354 | a string decodes to a proposal and conforms if and only if it is in the format |
| ProposalCodec.AcceptsIff | api/multisig/v1/state.pulsar.go:1120-1354 | exactly the sequences of whole fields with allowed tags decode to a proposal |
| ProposalCodec.DiscardKeepsFields | api/multisig/v1/state.pulsar.go:1331-1347 | with unknown records discarded, decoding gives the same fields and error and leaves the unknown bytes as they were |
| ProposalCodec.Proposal.Size | api/multisig/v1/state.pulsar.go:1004-1048 | returns the length of the encoding |
| ProposalCodec.Proposal.Marshal | api/multisig/v1/state.pulsar.go:1050-1119 | the backward writes stay inside a buffer of that size, fill it, and append the encoding to an untouched input buffer |
| ProposalCodec.Proposal.Unmarshal | api/multisig/v1/state.pulsar.go:1120-1354 | terminates in bounds on every byte string, and leaves the state and error of the decoding function |
| AccountCodec.WireFormat | api/multisig/v1/state.pulsar.go:399-447 | signers, threshold and sign-extended permission with tags 0x0a, 0x10 and 0x18, then the unknown bytes |
| AccountCodec.RoundTrip | api/multisig/v1/state.pulsar.go:399-580 | for every uint32 threshold and int32 permission the details survive the wire if and only if their unknown bytes are a run of unknown records |
| AccountCodec.ScalarRecords | api/multisig/v1/state.pulsar.go:519-560 | in any details, a varint record replaces threshold or permission by its low 32 bits, zero included, the permission as a signed number; a broken one by the groups read so far |
| AccountCodec.SliceRecords | api/multisig/v1/state.pulsar.go:486-518 | in any details, a length-delimited record is appended to the signers |
| AccountCodec.AcceptsIff | api/multisig/v1/state.pulsar.go:448-580 | exactly the sequences of whole fields with allowed tags decode |
| AccountCodec.WellFormedIff | api/multisig/v1/state.pulsar.go:448-580 | a string decodes and conforms if and only if it is in the format |
| AccountCodec.DiscardKeepsFields | api/multisig/v1/state.pulsar.go:560-580 | discarding unknown records gives the same fields and error and leaves the unknown bytes as they were |
| AccountCodec.DecodeMerges | api/multisig/v1/state.pulsar.go:448-580 | decoding an encoding into details in use replaces a threshold or permission that is set and appends signers and unknown bytes |
| AccountCodec.ConcatenationMerges | api/multisig/v1/state.pulsar.go:448-580 | the concatenation of two encodings decodes to their merge: last one wins |
| AccountCodec.SignExtensionCost | api/multisig/v1/state.pulsar.go:416-420 | a negative permission makes the encoding five bytes longer than the shortest, and nothing else makes it longer |
| AccountCodec.ShortestForm | api/multisig/v1/state.pulsar.go:448-580 | no string that decodes to some details is shorter than their encoding with the permission cut to 32 bits |
| AccountCodec.ShortestIffNonNegative | api/multisig/v1/state.pulsar.go:399-580 | the encoding is the shortest of all strings that decode to the details if and only if the permission is not negative |
| AccountCodec.NormalForm | api/multisig/v1/state.pulsar.go:399-580 | re-encoding what was decoded adds at most the five bytes of a sign extension, and decodes to the same details |
| AccountCodec.MultisigAccountDetails.Size | api/multisig/v1/state.pulsar.go:365-397 | returns the length of the encoding |
| AccountCodec.MultisigAccountDetails.Marshal | api/multisig/v1/state.pulsar.go:399-447 | fills a buffer of the exact size from its end with the encoding |
| AccountCodec.MultisigAccountDetails.Unmarshal | api/multisig/v1/state.pulsar.go:448-580 | as for proposals, with 32-bit accumulation of threshold and permission |
| CreateParamsCodec.WireFormat | api/multisig/v1/tx.pulsar.go:1306-1366 | the five fields in ascending order with their tags, signers in list order, then the unknown bytes |
| CreateParamsCodec.SizeExact | api/multisig/v1/tx.pulsar.go:1265-1304 | the size pass is the length of the encoding |
| CreateParamsCodec.RoundTrip | api/multisig/v1/tx.pulsar.go:1306-1550 | the message with all kinds of fields survives the wire if and only if its unknown bytes are a run of unknown records |
| CreateParamsCodec.ScalarRecords | api/multisig/v1/tx.pulsar.go:1367-1550 | in any message, a varint record replaces seed, threshold or permission by its low 32 bits, zero included; a broken one by the groups read so far |
| CreateParamsCodec.SliceRecords | api/multisig/v1/tx.pulsar.go:1367-1550 | in any message, a length-delimited record, empty included, replaces the authority or is appended to the signers |
| CreateParamsCodec.AcceptsIff | api/multisig/v1/tx.pulsar.go:1367-1550 | exactly the sequences of whole fields with allowed tags decode |
| CreateParamsCodec.DiscardKeepsFields | api/multisig/v1/tx.pulsar.go:1367-1550 | discarding unknown records gives the same fields and error and leaves the unknown bytes as they were |
| CreateParamsCodec.DecodeMerges | api/multisig/v1/tx.pulsar.go:1367-1550 | decoding an encoding into a message in use replaces the fields that are set and appends signers and unknown bytes |
| CreateParamsCodec.ConcatenationMerges | api/multisig/v1/tx.pulsar.go:1367-1550 | the concatenation of two encodings decodes to their merge |
| CreateParamsCodec.SignExtensionCost | api/multisig/v1/tx.pulsar.go:1265-1366 | a negative permission makes the encoding five bytes longer than with the permission cut to 32 bits, and nothing else makes it longer |
| CreateParamsCodec.ShortestForm | api/multisig/v1/tx.pulsar.go:1367-1550 | no string that decodes to the message is shorter than that encoding |
| CreateParamsCodec.ShortestIffNonNegative | api/multisig/v1/tx.pulsar.go:1306-1550 | the encoding is the shortest of all strings that decode to the message if and only if the permission is not negative |
| CreateParamsCodec.NormalForm | api/multisig/v1/tx.pulsar.go:1306-1550 | re-encoding what was decoded adds at most the five bytes of a sign extension, and decodes to the same message |
| CreateParamsCodec.WellFormedIff | api/multisig/v1/tx.pulsar.go:1367-1550 | a string decodes and conforms, its authorities in UTF-8, if and only if it is in the format |
| CreateParamsCodec.MsgCreateMultisigAccountParams.Size | api/multisig/v1/tx.pulsar.go:1265-1304 | returns the length of the encoding |
| CreateParamsCodec.MsgCreateMultisigAccountParams.Marshal | api/multisig/v1/tx.pulsar.go:1306-1366 | fills a buffer of the exact size from its end with the encoding |
| CreateParamsCodec.MsgCreateMultisigAccountParams.Unmarshal | api/multisig/v1/tx.pulsar.go:1367-1550 | terminates in bounds on every byte string, and leaves the state and error of the decoding function |
| ParamsCodec.RoundTrip | api/multisig/v1/genesis.pulsar.go:728-850 | the boolean survives the wire if and only if the unknown bytes are a run of unknown records |
| ParamsCodec.FlagRecord | api/multisig/v1/genesis.pulsar.go:806-826 | in any message, a varint record sets the flag if it is not zero and unsets it if it is; a broken one leaves it |
| ParamsCodec.EncodeFields | api/multisig/v1/genesis.pulsar.go:728-767 | the encoding is 0x10 0x01 if the flag is set, then the unknown bytes |
| ParamsCodec.DiscardKeepsFields | api/multisig/v1/genesis.pulsar.go:826-850 | discarding unknown records gives the same flag and error and leaves the unknown bytes as they were |
| ParamsCodec.AcceptsIff | api/multisig/v1/genesis.pulsar.go:768-850 | exactly the sequences of whole fields with allowed tags decode |
| ParamsCodec.NormalForm | api/multisig/v1/genesis.pulsar.go:728-850 | whatever decodes to the message, encoding it gives no more bytes, which decode to the same message |
| ParamsCodec.FoldRecords | api/multisig/v1/genesis.pulsar.go:745-754 | merging an encoding can set the flag and never unset it, as a false one is not written |
| ParamsCodec.Params.Marshal | api/multisig/v1/genesis.pulsar.go:728-767 | two bytes for a true flag, then the unknown bytes |
| ParamsCodec.Params.Unmarshal | api/multisig/v1/genesis.pulsar.go:768-850 | the flag is any non-zero varint; a truncated one leaves it unchanged |
| UpdateParamsCodec.WireFormat | api/multisig/v1/tx.pulsar.go:325-375 | authority, then a present `Params` with its length even if it is empty, then the unknown bytes |
| UpdateParamsCodec.RoundTrip | api/multisig/v1/tx.pulsar.go:325-506 | the message survives the wire, an absent `Params` distinct from an empty one, if and only if the unknown bytes at both levels are runs of unknown records |
| UpdateParamsCodec.AuthorityRecord | api/multisig/v1/tx.pulsar.go:413-446 | in any message, a record, empty included, replaces the authority |
| UpdateParamsCodec.NestedRecord | api/multisig/v1/tx.pulsar.go:447-482 | in any message, a nested record leaves what `Params` makes of its payload, even on failure, starting from what was there or from an empty one |
| UpdateParamsCodec.AcceptsIff | api/multisig/v1/tx.pulsar.go:376-506 | exactly the sequences of whole fields with allowed tags decode whose nested payloads are such sequences for `Params`, with nested records merged or replaced |
| UpdateParamsCodec.WellFormedIff | api/multisig/v1/tx.pulsar.go:376-506 | a string decodes and conforms at both levels, its authorities in UTF-8, if and only if it and its nested messages are in the format |
| UpdateParamsCodec.NestedIllegalNumberAccepted | api/multisig/v1/tx.pulsar.go:476-481 | a tag with the number 2^32 + 2 in the nested message sets its flag |
| UpdateParamsCodec.InvalidStringAccepted | api/multisig/v1/tx.pulsar.go:445-445 | any bytes that are not UTF-8 are taken as the authority |
| UpdateParamsCodec.NormalForm | api/multisig/v1/tx.pulsar.go:325-506 | whatever decodes to the message, encoding it gives no more bytes, which decode to the same message, with nested records merged or replaced |
| UpdateParamsCodec.DecodeMerges | api/multisig/v1/tx.pulsar.go:376-506 | decoding an encoding into a message in use replaces or merges the nested message, and an absent one changes nothing |
| UpdateParamsCodec.DiscardKeepsFields | api/multisig/v1/tx.pulsar.go:376-506 | discarding drops unknown records at both levels and changes nothing else |
| UpdateParamsCodec.MsgUpdateParams.Size | api/multisig/v1/tx.pulsar.go:295-323 | returns the length of the encoding, nested size included |
| UpdateParamsCodec.MsgUpdateParams.Marshal | api/multisig/v1/tx.pulsar.go:325-375 | fills a buffer of the exact size from its end with the encoding |
| UpdateParamsCodec.MsgUpdateParams.Unmarshal | api/multisig/v1/tx.pulsar.go:376-506 | terminates in bounds, changes the nested object only if it was there before, and leaves the state and error of the decoding function |
| DecMath.SortedUnique | util/decmath/decmath.go:20-23 | only one sorted list has given elements, so the sorting algorithm is irrelevant |
| DecMath.SortSlice | util/decmath/decmath.go:20-23 | sorts the caller's array in place |
| DecMath.SortSorts | util/decmath/decmath.go:20-23 | the sorted list is ordered and a permutation of the input |
| DecMath.Median | util/decmath/decmath.go:15-31 | leaves the caller's slice sorted and returns its median, or the error on an empty one |
| DecMath.MedianExact | util/decmath/decmath.go:20-30 | the median is the middle of the sorted prices, or the mean of the two middles truncated toward zero |
| DecMath.MedianOrderFree | util/decmath/decmath.go:15-31 | the median does not depend on the order of the input |
| DecMath.MedianBetween | util/decmath/decmath.go:15-31 | the median lies between the least and the greatest price |
| DecMath.MedianMinimises | util/decmath/decmath.go:25-30 | over all decimals the median minimises the sum of absolute deviations, even when the mean of two middles was truncated, and another point does so exactly if it lies between the middles |
| DecMath.MedianDeviation | util/decmath/decmath.go:36-53 | applies the square root to the variance summed in list order |
| DecMath.VarianceExact | util/decmath/decmath.go:41-45 | the variance is the sum of the squares, each divided by the number of prices and truncated before it is added |
| DecMath.VarianceBounds | util/decmath/decmath.go:41-45 | n times the truncated variance is at most the sum of rounded squares, and short of it by at most n(n-1) units |
| DecMath.SquareAccurate | util/decmath/decmath.go:43-44 | a rounded square is the nearest unit to the exact one, and of two equally near the even one |
| DecMath.VarianceShift | util/decmath/decmath.go:41-45 | the variance is unchanged when median and prices move together |
| DecMath.VarianceOrderFree | util/decmath/decmath.go:41-45 | the variance does not depend on the order of the prices |
| DecMath.Average | util/decmath/decmath.go:57-68 | the truncated mean, or the error on an empty list |
| DecMath.AverageBounds | util/decmath/decmath.go:57-68 | for prices of any sign the average lies between the extremes and is within n-1 units of the sum when multiplied back |
| DecMath.AverageTruncates | util/decmath/decmath.go:62-67 | the average is the exact mean truncated toward zero |
| DecMath.AverageOrderFree | util/decmath/decmath.go:57-68 | the average does not depend on the order of the prices |
| DecMath.Max | util/decmath/decmath.go:72-85 | returns an element that no other exceeds |
| DecMath.Min | util/decmath/decmath.go:89-102 | returns an element that exceeds no other |
| OracleGenesis.ImportLoop | x/oracle/genesis.go:16-28 | the loop over a genesis list: later entries win, and a panic leaves the earlier ones |
| OracleGenesis.ImportIsLastWrite | x/oracle/genesis.go:16-80 | every imported value was listed under its key, and is the last one that was |
| OracleGenesis.ImportWrites | x/oracle/genesis.go:16-76 | into a map in use: a key has the value of the last entry that names it, of those before the first that cannot be read, and keeps its value if none does |
| OracleGenesis.EntriesRead | x/oracle/genesis.go:16-76 | how each entry is read, and which ones cannot be |
| OracleGenesis.ImportExactly | x/oracle/genesis.go:15-85 | for any store and any lists, what every collection holds after an import, where it stops, and when it panics |
| OracleGenesis.ImportPanics | x/oracle/genesis.go:17-25 | a list panics exactly when one of its entries cannot be read |
| OracleGenesis.SetParamsIff | x/oracle/keeper/params.go:138-140 | the parameters are all set if all pass their validators, and setting them panics otherwise |
| OracleGenesis.StreamRoundTrip | x/oracle/genesis.go:88-177 | a map is rebuilt from its walk when every entry reads back as itself |
| OracleGenesis.DelegationsRoundTrip | x/oracle/genesis.go:91-99 | feeder delegations survive if and only if both addresses read back from how they are shown |
| OracleGenesis.MissCountersRoundTrip | x/oracle/genesis.go:111-119 | miss counters survive if and only if their operators' addresses read back |
| OracleGenesis.RatesRoundTrip | x/oracle/keeper/keeper.go:260-263 | exchange rates survive if and only if their denoms are in upper case |
| OracleGenesis.VotersRoundTrip | x/oracle/genesis.go:123-139 | prevotes and votes survive the export, which drops their keys, if and only if each names its key |
| OracleGenesis.LastBlocksOfImport | x/oracle/keeper/historic_price.go:333-341 | after an import the last blocks are the greatest ones if and only if every denom ends with its greatest block in the list |
| OracleGenesis.LastBlocksRoundTrip | x/oracle/keeper/historic_price.go:333-341 | the last blocks, which are not exported, are rebuilt if and only if they are the greatest blocks of the prices |
| OracleGenesis.LastBlockLost | x/oracle/keeper/historic_price.go:333-341 | a list out of order leaves a smaller block as the last one |
| OracleGenesis.ExportIsWalk | x/oracle/genesis.go:88-177 | every list has one entry for each key, in the order of the walk, made of the key and its value |
| OracleGenesis.EntriesShown | x/oracle/genesis.go:91-155 | what is exported of a key and its value |
| OracleGenesis.RoundTripIff | x/oracle/genesis.go:15-177 | exporting a store and importing it into an empty one rebuilds it if and only if addresses read back, votes name their keys, rates are upper-case, last blocks are the greatest, parameters are valid, and what genesis leaves out is empty |
| OracleGenesis.ImportEstablishes | x/oracle/genesis.go:15-85 | a successful import into an empty store establishes that invariant, the last-block clause exactly for lists in order |
| OracleGenesis.SecondRound | x/oracle/genesis.go:15-177 | after an import, exporting and importing once more brings the last blocks up to date and changes nothing else, hence nothing at all exactly for lists in order |
| OracleGenesis.CurrentIsCurrent | x/oracle/genesis.go:88-177 | bringing last blocks up to date is invisible to the export, which is therefore idempotent |
| OracleGenesis.Keeper.InitGenesis | x/oracle/genesis.go:15-85 | sets every list in order, then the parameters one by one; an address that does not parse, a nil price, an invalid parameter or a missing module account panics and leaves the store as far as it got |
| OracleGenesis.Keeper.ExportGenesis | x/oracle/genesis.go:88-177 | returns every exported collection in walk order and changes nothing |
| MsgFilter.SearchIsExact | app/decorators/msg_filter_template.go:37-60 | the search answers yes if and only if some message reached by a path of indices has a blocked name or is an exec message that does not unpack |
| MsgFilter.HitPath | app/decorators/msg_filter_template.go:37-60 | the path at which the search stops leads to an offending message |
| MsgFilter.SearchDistributes | app/decorators/msg_filter_template.go:37-60 | the answer for a concatenation is the disjunction of the answers |
| MsgFilter.WrappingHidesNothing | app/decorators/msg_filter_template.go:39-50 | wrapping in any number of exec messages never turns a yes into a no, and adds a yes only if exec itself is blocked |
| MsgFilter.LeafIsExact | app/decorators/msg_filter_template.go:39-55 | a single message is stopped exactly if its name is blocked, and an exec that does not unpack always |
| MsgFilter.AnteHandleIsExact | app/decorators/msg_filter_template.go:28-35 | the next handler is called exactly when no message in the tree offends |

## Left out

- OracleGenesis.Keeper.ExportGenesis: a walk that fails is logged by the source and yields a partial list; walks do not fail in the model.
- DecMath.Median: the panic of `LegacyDec` on results beyond its bit length is not modelled, decimals are unbounded.
- DecMath.MedianDeviation: the square root is a parameter, so nothing is said about its accuracy.
- Wire.ReadSlice: the slice is copied; that Go reuses the backing array of a bytes field, and so aliases it, is not captured.
- Nil receivers of the generated methods, which return at once, and the choice between a nil and a non-nil input buffer.
- `Range`, `Has`, `Get`, `Set` and the rest of the reflection methods, message descriptors and type tables.
- The codecs of the remaining messages, `GenesisState` included, which follow the same template.
- Text of error messages; the errors themselves are distinguished.
- Errors of the store's `Set`, which the keeper discards, such as a denom with a NUL byte in a pair key.
- What the validators of the parameters check; the events and metrics of the keeper's setters.
- `NewDecFromFloat`, `util/reward` and other code over floating-point numbers.
- The multisig workflow, the ORM tables, the application wiring, the command line and the price feeder.
