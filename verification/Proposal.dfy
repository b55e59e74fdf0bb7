/** `multisig.v1.Proposal`: its `size`, `marshal` and `unmarshal`. */
module ProposalCodec {
  import opened Machine
  import opened Varint
  import opened Wire
  import opened Skip
  import opened Format

  datatype Fields = Fields(id: uint64, multisigAddress: bytes, callHash: bytes, depositor: bytes, deposit: uint64,
          approvals: seq<bytes>)

  const ZERO := Fields(0, [], [], [], 0, [])
  const EMPTY: Message<Fields> := Message(ZERO, [])
  const SCHEMA: Schema := map[1 := InPlace, 2 := Slice, 3 := Slice, 4 := Slice, 5 := InPlace, 6 := Slice]

  lemma Kinds(f: int)
    ensures f in SCHEMA <==> 1 <= f <= 6
    ensures f in SCHEMA ==> SCHEMA[f] == if f == 1 || f == 5 then InPlace else Slice
  {
  }

  /** What the switch does with a record: scalars and bytes are replaced, approvals appended. */
  function Apply(x: Fields, r: Record): Outcome<Fields> {
    Outcome(
      match r
      case Scalar(f, v) => if f == 1 then x.(id := v) else if f == 5 then x.(deposit := v) else x
      case Chunk(f, b) =>
        if f == 2 then x.(multisigAddress := b)
        else if f == 3 then x.(callHash := b)
        else if f == 4 then x.(depositor := b)
        else if f == 6 then x.(approvals := x.approvals + [b])
        else x
      case Unknown(_) => x,
      None)
  }

  /** The records of a message, in ascending field order. */
  function Records(x: Fields): (rs: seq<Record>)
    ensures AllDeclared(SCHEMA, rs)
  {
    ScalarField(1, x.id) + SliceField(2, x.multisigAddress) + SliceField(3, x.callHash) +
    SliceField(4, x.depositor) + ScalarField(5, x.deposit) + RepeatedField(6, x.approvals)
  }

  /** What `marshal` writes. */
  function Marshalled(m: Message<Fields>): bytes {
    Encode(Records, m)
  }

  /** What `unmarshal` makes of a message and a byte string. */
  function Unmarshalled(x: Message<Fields>, s: bytes, discard: bool): Outcome<Message<Fields>> {
    Decode(SCHEMA, Apply, discard, x, s, 0)
  }

  /** The unknown bytes are a run of whole records that the switch does not know. */
  predicate Clean(m: Message<Fields>) {
    UnknownRun(SCHEMA, m.unknown)
  }

  // ----- The switch undoes the records -----

  lemma {:induction false} FoldApprovals(x: Fields, bs: seq<bytes>)
    ensures Fold(Apply, x, RepeatedField(6, bs)) == Outcome(x.(approvals := x.approvals + bs), None)
    decreases |bs|
  {
    if bs == [] {
      assert x.approvals + bs == x.approvals;
    } else {
      FoldApprovals(Apply(x, Chunk(6, bs[0])).state, bs[1..]);
      assert x.approvals + bs == x.approvals + [bs[0]] + bs[1..];
    }
  }

  /** Merging `x` into `y`: set fields of `x` replace those of `y`, approvals are appended. */
  function Merge(y: Fields, x: Fields): Fields {
    Fields(
      if x.id != 0 then x.id else y.id,
      if x.multisigAddress != [] then x.multisigAddress else y.multisigAddress,
      if x.callHash != [] then x.callHash else y.callHash,
      if x.depositor != [] then x.depositor else y.depositor,
      if x.deposit != 0 then x.deposit else y.deposit,
      y.approvals + x.approvals)
  }

  lemma FoldField(y: Fields, x: Fields)
    ensures Fold(Apply, y, ScalarField(1, x.id)) == Outcome(y.(id := Merge(y, x).id), None)
    ensures Fold(Apply, y, SliceField(2, x.multisigAddress)) ==
            Outcome(y.(multisigAddress := Merge(y, x).multisigAddress), None)
    ensures Fold(Apply, y, SliceField(3, x.callHash)) == Outcome(y.(callHash := Merge(y, x).callHash), None)
    ensures Fold(Apply, y, SliceField(4, x.depositor)) == Outcome(y.(depositor := Merge(y, x).depositor), None)
    ensures Fold(Apply, y, ScalarField(5, x.deposit)) == Outcome(y.(deposit := Merge(y, x).deposit), None)
  {
  }

  /** The switch, run over the records of `x`, merges `x` into what it started from. */
  lemma FoldRecords(y: Fields, x: Fields)
    ensures Fold(Apply, y, Records(x)) == Outcome(Merge(y, x), None)
  {
    hide Fold, ScalarField, SliceField, RepeatedField, Apply;
    var r1, r2, r3 := ScalarField(1, x.id), SliceField(2, x.multisigAddress), SliceField(3, x.callHash);
    var r4, r5, r6 := SliceField(4, x.depositor), ScalarField(5, x.deposit), RepeatedField(6, x.approvals);
    var z := Merge(y, x);
    var y1 := y.(id := z.id);
    var y2 := y1.(multisigAddress := z.multisigAddress);
    var y3 := y2.(callHash := z.callHash);
    var y4 := y3.(depositor := z.depositor);
    var y5 := y4.(deposit := z.deposit);
    FoldField(y, x);
    FoldField(y1, x);
    FoldThen(Apply, y, r1, y1, r2, y2);
    FoldField(y2, x);
    FoldThen(Apply, y, r1 + r2, y2, r3, y3);
    FoldField(y3, x);
    FoldThen(Apply, y, r1 + r2 + r3, y3, r4, y4);
    FoldField(y4, x);
    FoldThen(Apply, y, r1 + r2 + r3 + r4, y4, r5, y5);
    FoldApprovals(y5, x.approvals);
    FoldThen(Apply, y, r1 + r2 + r3 + r4 + r5, y5, r6, z);
  }

  lemma MergeIntoZero(x: Fields)
    ensures Merge(ZERO, x) == x
  {
    assert [] + x.approvals == x.approvals;
  }

  /** A proposal survives the wire exactly when its unknown bytes are a run of unknown records. */
  lemma RoundTrip(m: Message<Fields>)
    requires |Marshalled(m)| <= MAX_INT
    ensures Unmarshalled(EMPTY, Marshalled(m), false) == Outcome(m, None) <==>
            Clean(m)
  {
    FoldRecords(ZERO, m.known);
    MergeIntoZero(m.known);
    RoundTripIff(SCHEMA, Apply, Records, ZERO, m);
  }

  /** So no two proposals with such unknown bytes share an encoding. */
  lemma Injective(m: Message<Fields>, m': Message<Fields>)
    requires Clean(m) && Clean(m')
    requires |Marshalled(m)| <= MAX_INT
    requires Marshalled(m) == Marshalled(m')
    ensures m == m'
  {
    RoundTrip(m);
    RoundTrip(m');
  }

  /** Without the condition two do: a record of a known field among the unknown bytes. */
  lemma NotInjective()
    ensures Marshalled(Message(ZERO, [0x08, 1])) == Marshalled(Message(ZERO.(id := 1), []))
    ensures !Clean(Message(ZERO, [0x08, 1]))
  {
    var m, m' := Message(ZERO, [0x08, 1]), Message(ZERO.(id := 1), []);
    assert Records(m'.known) == [Scalar(1, 1)];
    EmitOne(Scalar(1, 1));
    assert Marshalled(m) == Marshalled(m') == [0x08, 1];
    RoundTrip(m);
    RoundTrip(m');
  }

  /** Decoding an encoding into a message that is not empty merges, which is also what decoding a concatenation does. */
  lemma DecodeMerges(y: Message<Fields>, m: Message<Fields>)
    requires Clean(m)
    requires |Marshalled(m)| <= MAX_INT
    ensures Unmarshalled(y, Marshalled(m), false) ==
            Outcome(Message(Merge(y.known, m.known), y.unknown + m.unknown), None)
  {
    FoldRecords(y.known, m.known);
    DecodeEncoded(SCHEMA, Apply, Records, y, m, Merge(y.known, m.known));
  }

  lemma ConcatenationMerges(m: Message<Fields>, m': Message<Fields>)
    requires Clean(m) && Clean(m')
    requires |Marshalled(m)| + |Marshalled(m')| <= MAX_INT
    ensures Unmarshalled(EMPTY, Marshalled(m) + Marshalled(m'), false) ==
            Outcome(Message(Merge(m.known, m'.known), m.unknown + m'.unknown), None)
  {
    RoundTrip(m);
    ConcatenationIsMerge(SCHEMA, Apply, false, EMPTY, m, Marshalled(m), Marshalled(m'));
    DecodeMerges(m, m');
  }

  /** Decoding keeps the unknown bytes clean, even when it fails. */
  lemma KeepsClean(x: Message<Fields>, s: bytes, discard: bool)
    requires Clean(x)
    requires |s| <= MAX_INT && |Unmarshalled(x, s, discard).state.unknown| <= MAX_INT
    ensures Clean(Unmarshalled(x, s, discard).state)
  {
    DecodeKeepsUnknownRun(SCHEMA, Apply, discard, x, s, 0);
  }

  /** Exactly the sequences of whole fields with allowed tags decode. */
  lemma AcceptsIff(x: Message<Fields>, s: bytes, discard: bool)
    requires |s| <= MAX_INT
    ensures Unmarshalled(x, s, discard).err.None? <==> Accepts(SCHEMA, AnyPayload, s)
  {
    DecodeAcceptsIff(SCHEMA, Apply, AnyPayload, discard, x, s, 0);
  }

  /** Of the strings that decode, exactly those that conform are in the format. */
  lemma WellFormedIff(x: Message<Fields>, s: bytes, discard: bool)
    requires |s| <= MAX_INT
    ensures Unmarshalled(x, s, discard).err.None? && Conforms(SCHEMA, AnyPayload, s) <==>
            WellFormed(SCHEMA, AnyPayload, s)
  {
    hide Decode, Conforms, WellFormed;
    DecodesWellFormedIff(SCHEMA, Apply, AnyPayload, AnyPayload, AnyPayload, discard, x, s);
  }

  /** A string of one unknown field is kept, whatever the specification says of the field. */
  lemma UnknownKept(s: bytes)
    requires |s| <= MAX_INT && Field(s) == Some(|s|)
    requires FieldNumber(Get(s, 0).value) > 6
    ensures Unmarshalled(EMPTY, s, false) == Outcome(Message(ZERO, s), None)
    ensures !Matches(s, []) ==> !WellFormed(SCHEMA, AnyPayload, s)
  {
    hide Get, FieldNumber, Field, NextSlice, NextScalar, Run, StrictField, Matches;
    NextIff(SCHEMA, s, 0);
    UnknownIsRaw(SCHEMA, s, 0);
    Kinds(FieldNumber(Get(s, 0).value));
    assert Next(SCHEMA, s, 0) == Got(Unknown(s), |s|) by { assert s[..|s|] == s; }
    hide Next, Decode;
    assert s[0..] == s && [] + s == s;
    DecodeTurn(SCHEMA, Apply, false, EMPTY, s, 0);
    DecodeTurn(SCHEMA, Apply, false, EMPTY.(unknown := s), s, |s|);
    StrictFieldIff(s);
  }

  /** A group closed by an end tag with another number, which is kept as an unknown field. */
  lemma MismatchedGroupAccepted()
    ensures var s := [0x7b, 0x74];
            Unmarshalled(EMPTY, s, false) == Outcome(Message(ZERO, s), None) && !WellFormed(SCHEMA, AnyPayload, s)
  {
    EmptyGroup(15, 14);
    UnknownKept([0x7b, 0x74]);
  }

  /** A field with the number 0 inside a group. */
  lemma IllegalNumberInGroupAccepted()
    ensures var s := [0x7b, 0x00, 0x00, 0x7c];
            Unmarshalled(EMPTY, s, false) == Outcome(Message(ZERO, s), None) && !WellFormed(SCHEMA, AnyPayload, s)
  {
    var s: bytes, body: bytes := [0x7b, 0x00, 0x00, 0x7c], [0x00, 0x00, 0x7c];
    TagOf(15, 3, body);
    TagOf(15, 4, []);
    assert s == [0x7b] + body && [0x7c] == [0x7c] + [];
    assert Group([0x7c]) == Some(1);
    assert body[1..] == [0x00, 0x7c] && body[2..] == [0x7c];
    assert Field(body) == Some(2);
    assert Group(body) == Some(3);
    assert !Matches(body, [15]);
    UnknownKept(s);
  }

  /** A varint of more than 64 bits loses its high bits. */
  lemma WideVarintAccepted(v: nat)
    requires v >= TWO64 && |Put(v)| <= 10
    ensures Unmarshalled(EMPTY, [0x08] + Put(v), false) == Outcome(Message(ZERO.(id := Low64(v)), []), None)
    ensures !WellFormed(SCHEMA, AnyPayload, [0x08] + Put(v))
  {
    var s := [0x08] + Put(v);
    assert s == [8 * 1] + (Put(v) + []) && s[0..] == s;
    hide Next, Decode, Put, Low64, WellFormed;
    NextScalarPut(SCHEMA, 1, v, [], 0);
    WideVarint(SCHEMA, AnyPayload, 1, v);
    DecodeTurn(SCHEMA, Apply, false, EMPTY, s, 0);
    DecodeTurn(SCHEMA, Apply, false, EMPTY.(known := ZERO.(id := Low64(v))), s, |s|);
  }

  /** A tag with the number 2^32 + 1, or any other that is 1 modulo 2^32, sets the field with number 1. */
  lemma IllegalNumberSetsField(k: nat, v: uint64)
    requires 0 < k < 0x2000_0000
    ensures !LegalNumber(1 + TWO32 * k)
    ensures Unmarshalled(EMPTY, Put(8 * (1 + TWO32 * k)) + Put(v), false) == Outcome(Message(ZERO.(id := v), []), None)
  {
    var wire := 8 * (1 + TWO32 * k);
    var n, s := |Put(wire)|, Put(wire) + Put(v);
    GetPutUint64(wire, Put(v));
    GetPutUint64(v, []);
    FieldNumberIff(wire, 1);
    assert TagNumber(wire) == 1 + TWO32 * k && WireType(wire) == 0;
    hide Get, Put, FieldNumber, TagNumber, WireType;
    assert s[n..] == Put(v) == Put(v) + [];
    assert Next(SCHEMA, s, 0) == Got(Scalar(1, v), |s|);
    hide Next, Decode;
    assert s[0..] == s;
    DecodeTurn(SCHEMA, Apply, false, EMPTY, s, 0);
    DecodeTurn(SCHEMA, Apply, false, EMPTY.(known := ZERO.(id := v)), s, |s|);
  }

  /** Discarding unknown records changes nothing else. */
  lemma DiscardKeepsFields(x: Message<Fields>, s: bytes)
    ensures var kept := Unmarshalled(x, s, false);
            Unmarshalled(x, s, true) == Outcome(kept.state.(unknown := x.unknown), kept.err)
  {
    DiscardIsProjection(SCHEMA, Apply, Apply, (v: Fields) => v, x, x.unknown, s, 0);
  }

  // ----- One record -----

  /**
   * One varint record, zero or not, minimal or not, replaces the field it names, whatever that held;
   * if the varint is cut short or too long, by the groups read so far.
   */
  lemma ScalarRecords(x: Message<Fields>, s: bytes, discard: bool)
    requires Get(s, 0).err.Some? || Get(s, 0).n == |s|
    ensures var v := Get(s, 0);
            && Unmarshalled(x, [0x08] + s, discard) == Outcome(x.(known := x.known.(id := v.value % TWO64)), v.err)
            && Unmarshalled(x, [0x28] + s, discard) == Outcome(x.(known := x.known.(deposit := v.value % TWO64)), v.err)
  {
    hide Decode, Get;
    ScalarRecord(SCHEMA, Apply, discard, x, 1, 0x08, s);
    ScalarRecord(SCHEMA, Apply, discard, x, 5, 0x28, s);
  }

  /** One length-delimited record, empty or not, replaces the field it names, or is appended to the approvals. */
  lemma SliceRecords(x: Message<Fields>, b: bytes, discard: bool)
    requires |b| + 11 <= MAX_INT
    ensures var s, y := Put(|b|) + b, x.known;
            && Unmarshalled(x, [0x12] + s, discard) == Outcome(x.(known := y.(multisigAddress := b)), None)
            && Unmarshalled(x, [0x1a] + s, discard) == Outcome(x.(known := y.(callHash := b)), None)
            && Unmarshalled(x, [0x22] + s, discard) == Outcome(x.(known := y.(depositor := b)), None)
            && Unmarshalled(x, [0x32] + s, discard) == Outcome(x.(known := y.(approvals := y.approvals + [b])), None)
  {
    Kinds(2);
    Kinds(3);
    Kinds(4);
    Kinds(6);
    hide Decode, Put, SCHEMA;
    SliceRecord(SCHEMA, Apply, discard, x, 2, 0x12, b);
    SliceRecord(SCHEMA, Apply, discard, x, 3, 0x1a, b);
    SliceRecord(SCHEMA, Apply, discard, x, 4, 0x22, b);
    SliceRecord(SCHEMA, Apply, discard, x, 6, 0x32, b);
  }

  // ----- Size -----

  function Size(x: Fields): nat {
    (if x.id != 0 then 1 + Sov(x.id) else 0) +
    (if |x.multisigAddress| > 0 then SliceSize(x.multisigAddress) else 0) +
    (if |x.callHash| > 0 then SliceSize(x.callHash) else 0) +
    (if |x.depositor| > 0 then SliceSize(x.depositor) else 0) +
    (if x.deposit != 0 then 1 + Sov(x.deposit) else 0) +
    RepeatedSize(x.approvals)
  }

  /** The encoding, field by field. */
  lemma EncodeFields(m: Message<Fields>)
    ensures var x := m.known;
            Marshalled(m) ==
            EmitAll(ScalarField(1, x.id)) +
            (EmitAll(SliceField(2, x.multisigAddress)) + (EmitAll(SliceField(3, x.callHash)) +
            (EmitAll(SliceField(4, x.depositor)) + (EmitAll(ScalarField(5, x.deposit)) +
            (EmitAll(RepeatedField(6, x.approvals)) + m.unknown)))))
  {
    var x := m.known;
    var r1, r2, r3 := ScalarField(1, x.id), SliceField(2, x.multisigAddress), SliceField(3, x.callHash);
    var r4, r5, r6 := SliceField(4, x.depositor), ScalarField(5, x.deposit), RepeatedField(6, x.approvals);
    hide EmitAll, ScalarField, SliceField, RepeatedField;
    EmitAllThen(r1 + r2 + r3 + r4 + r5, r6, m.unknown);
    EmitAllThen(r1 + r2 + r3 + r4, r5, EmitAll(r6) + m.unknown);
    EmitAllThen(r1 + r2 + r3, r4, EmitAll(r5) + (EmitAll(r6) + m.unknown));
    EmitAllThen(r1 + r2, r3, EmitAll(r4) + (EmitAll(r5) + (EmitAll(r6) + m.unknown)));
    EmitAllThen(r1, r2, EmitAll(r3) + (EmitAll(r4) + (EmitAll(r5) + (EmitAll(r6) + m.unknown))));
  }

  /** The encoding, byte by byte: tagged fields in ascending order, approvals in list order, then the unknown bytes. */
  lemma WireFormat(m: Message<Fields>)
    ensures var x := m.known;
            Marshalled(m) ==
            ScalarBytes(0x08, x.id) + (SliceBytes(0x12, x.multisigAddress) + (SliceBytes(0x1a, x.callHash) +
            (SliceBytes(0x22, x.depositor) + (ScalarBytes(0x28, x.deposit) +
            (RepeatedBytes(0x32, x.approvals) + m.unknown)))))
  {
    hide *;
    var x := m.known;
    EncodeFields(m);
    FieldBytes(1, x.id, []);
    FieldBytes(2, 0, x.multisigAddress);
    FieldBytes(3, 0, x.callHash);
    FieldBytes(4, 0, x.depositor);
    FieldBytes(5, x.deposit, []);
    RepeatedFieldBytes(6, x.approvals);
  }

  /** The size pass is exact. */
  lemma SizeExact(m: Message<Fields>)
    ensures Size(m.known) + |m.unknown| == |Marshalled(m)|
  {
    var x := m.known;
    EncodeFields(m);
    ScalarFieldSize(1, x.id);
    SliceFieldSize(2, x.multisigAddress);
    SliceFieldSize(3, x.callHash);
    SliceFieldSize(4, x.depositor);
    ScalarFieldSize(5, x.deposit);
    RepeatedSizeExact(6, x.approvals);
    hide EmitAll, Encode, Sov, SliceSize, RepeatedSize, ScalarField, SliceField, RepeatedField;
  }

  lemma SliceBounds(m: Message<Fields>)
    requires |Marshalled(m)| <= MAX_INT
    ensures |m.known.multisigAddress| <= MAX_INT && |m.known.callHash| <= MAX_INT && |m.known.depositor| <= MAX_INT
  {
    SizeExact(m);
    hide Encode, Sov, RepeatedSize;
  }

  lemma ApplyCost(x: Fields, r: Record)
    ensures Size(Apply(x, r).state) <= Size(x) + |Emit(r)|
  {
    hide Emit, Sov, SliceSize, RepeatedSize;
    EmitSize(r);
    if r.Chunk? {
      RepeatedSizeAppend(x.approvals, r.payload);
    }
  }

  /**
   * Normal form: whatever bytes decode to a proposal, encoding it again gives no more bytes, and
   * these decode to the same proposal.
   */
  lemma NormalForm(s: bytes, discard: bool)
    requires |s| <= MAX_INT
    requires Unmarshalled(EMPTY, s, discard).err.None?
    ensures var m := Unmarshalled(EMPTY, s, discard).state;
            |Marshalled(m)| <= |s| && Clean(m) &&
            Unmarshalled(EMPTY, Marshalled(m), false) == Outcome(m, None)
  {
    var m := Unmarshalled(EMPTY, s, discard).state;
    forall v, r | Declared(SCHEMA, r)
      ensures Size(Apply(v, r).state) <= Size(v) + |Emit(r)|
    {
      ApplyCost(v, r);
    }
    DecodeCost(SCHEMA, Apply, discard, (v: Fields) => true, Size, EMPTY, s, 0);
    DecodeKeepsUnknownRun(SCHEMA, Apply, discard, EMPTY, s, 0);
    SizeExact(m);
    RoundTrip(m);
  }

  // ----- The generated methods -----

  class Proposal {
    var Id: uint64
    var MultisigAddress: bytes
    var CallHash: bytes
    var Depositor: bytes
    var Deposit: uint64
    var Approvals: seq<bytes>
    var unknownFields: bytes

    ghost function View(): Message<Fields>
      reads this
    {
      Message(Fields(Id, MultisigAddress, CallHash, Depositor, Deposit, Approvals), unknownFields)
    }

    constructor ()
      ensures View() == EMPTY
    {
      Id, MultisigAddress, CallHash, Depositor, Deposit, Approvals, unknownFields := 0, [], [], [], 0, [], [];
    }

    method Size() returns (n: nat)
      ensures n == |Marshalled(View())|
    {
      SizeExact(View());
      hide Encode, Sov, RepeatedSize;
      n := 0;
      if Id != 0 { n := n + 1 + Sov(Id); }
      var l := |MultisigAddress|;
      if l > 0 { n := n + 1 + l + Sov(l); }
      l := |CallHash|;
      if l > 0 { n := n + 1 + l + Sov(l); }
      l := |Depositor|;
      if l > 0 { n := n + 1 + l + Sov(l); }
      if Deposit != 0 { n := n + 1 + Sov(Deposit); }
      var k := SizeRepeated(Approvals);
      n := n + k + |unknownFields|;
    }

    /** Fills a buffer of exactly `Size()` bytes from its end, and appends it to `buf`. */
    method Marshal(buf: bytes) returns (out: bytes)
      requires |Marshalled(View())| <= MAX_INT
      ensures out == buf + Marshalled(View())
    {
      hide EmitAll, Marshalled, Records, ScalarField, SliceField, RepeatedField, Put, Sov;
      ghost var m := View();
      SliceBounds(m);
      EncodeFields(m);
      ghost var t6 := EmitAll(RepeatedField(6, Approvals)) + unknownFields;
      ghost var t5 := EmitAll(ScalarField(5, Deposit)) + t6;
      ghost var t4 := EmitAll(SliceField(4, Depositor)) + t5;
      ghost var t3 := EmitAll(SliceField(3, CallHash)) + t4;
      ghost var t2 := EmitAll(SliceField(2, MultisigAddress)) + t3;
      ghost var t1 := EmitAll(ScalarField(1, Id)) + t2;
      assert Marshalled(m) == t1;
      var size := Size();
      var dAtA := new byte[size](_ => 0);
      var i := WriteBytes(dAtA, size, unknownFields);
      i := WriteRepeated(dAtA, i, 6, Approvals);
      assert dAtA[i..] == t6;
      i := WriteScalarField(dAtA, i, 5, Deposit);
      assert dAtA[i..] == t5;
      i := WriteSliceField(dAtA, i, 4, Depositor);
      assert dAtA[i..] == t4;
      i := WriteSliceField(dAtA, i, 3, CallHash);
      assert dAtA[i..] == t3;
      i := WriteSliceField(dAtA, i, 2, MultisigAddress);
      assert dAtA[i..] == t2;
      i := WriteScalarField(dAtA, i, 1, Id);
      assert dAtA[i..] == t1;
      out := buf + dAtA[..];
    }

    /** The body of the record loop. */
    method UnmarshalRecord(dAtA: bytes, preIndex: nat, discardUnknown: bool) returns (iNdEx: int, err: Option<Error>)
      requires preIndex < |dAtA| <= MAX_INT
      modifies this
      ensures var turn := Next(SCHEMA, dAtA[preIndex..], preIndex);
              Outcome(View(), err) == Take(Apply, discardUnknown, old(View()), turn) &&
              (err.None? ==> iNdEx == preIndex + turn.n)
    {
      hide NextSlice, NextUnknown, Get, FieldNumber, WireType, Low64, SCHEMA;
      var fieldNum, wireType, b;
      fieldNum, wireType, iNdEx, err := ReadTag(dAtA, preIndex);
      if err.Some? { return; }
      Kinds(fieldNum);
      if fieldNum == 1 {
        if wireType != 0 { return iNdEx, Some(WrongWireType(fieldNum)); }
        Id, iNdEx, err := DecodeVarint(dAtA, iNdEx, TWO64);
        if err.Some? { return; }
      } else if fieldNum == 2 {
        if wireType != 2 { return iNdEx, Some(WrongWireType(fieldNum)); }
        b, iNdEx, err := ReadSlice(dAtA, iNdEx, 2, preIndex);
        if err.Some? { return; }
        MultisigAddress := b;
      } else if fieldNum == 3 {
        if wireType != 2 { return iNdEx, Some(WrongWireType(fieldNum)); }
        b, iNdEx, err := ReadSlice(dAtA, iNdEx, 3, preIndex);
        if err.Some? { return; }
        CallHash := b;
      } else if fieldNum == 4 {
        if wireType != 2 { return iNdEx, Some(WrongWireType(fieldNum)); }
        b, iNdEx, err := ReadSlice(dAtA, iNdEx, 4, preIndex);
        if err.Some? { return; }
        Depositor := b;
      } else if fieldNum == 5 {
        if wireType != 0 { return iNdEx, Some(WrongWireType(fieldNum)); }
        Deposit, iNdEx, err := DecodeVarint(dAtA, iNdEx, TWO64);
        if err.Some? { return; }
      } else if fieldNum == 6 {
        if wireType != 2 { return iNdEx, Some(WrongWireType(fieldNum)); }
        b, iNdEx, err := ReadSlice(dAtA, iNdEx, 6, preIndex);
        if err.Some? { return; }
        Approvals := Approvals + [b];
      } else {
        b, iNdEx, err := ReadUnknown(dAtA, preIndex);
        if err.Some? { return; }
        if !discardUnknown { unknownFields := unknownFields + b; }
      }
    }

    /** Decodes into the message as it stands; an error leaves it as far as decoding got. */
    method Unmarshal(dAtA: bytes, discardUnknown: bool) returns (err: Option<Error>)
      requires |dAtA| <= MAX_INT
      modifies this
      ensures Outcome(View(), err) == Unmarshalled(old(View()), dAtA, discardUnknown)
    {
      hide Decode, Next, Take;
      var l := |dAtA|;
      var iNdEx := 0;
      assert dAtA[0..] == dAtA;
      while iNdEx < l
        invariant 0 <= iNdEx <= l
        invariant Unmarshalled(old(View()), dAtA, discardUnknown) ==
                  Decode(SCHEMA, Apply, discardUnknown, View(), dAtA[iNdEx..], iNdEx)
        decreases l - iNdEx
      {
        DecodeTurn(SCHEMA, Apply, discardUnknown, View(), dAtA, iNdEx);
        iNdEx, err := UnmarshalRecord(dAtA, iNdEx, discardUnknown);
        if err.Some? { return; }
      }
      DecodeTurn(SCHEMA, Apply, discardUnknown, View(), dAtA, l);
      return None;
    }
  }
}
