/** `multisig.v1.MultisigAccountDetails`: its `size`, `marshal` and `unmarshal`. */
module AccountCodec {
  import opened Machine
  import opened Varint
  import opened Wire
  import opened Skip
  import opened Format

  datatype Fields = Fields(signers: seq<bytes>, threshold: uint32, permission: int32)

  const ZERO := Fields([], 0, 0)
  const EMPTY: Message<Fields> := Message(ZERO, [])
  const SCHEMA: Schema := map[1 := Slice, 2 := InPlace, 3 := InPlace]

  function Apply(x: Fields, r: Record): Outcome<Fields> {
    Outcome(
      match r
      case Scalar(f, v) =>
        if f == 2 then x.(threshold := Low32(v)) else if f == 3 then x.(permission := EnumOf(v)) else x
      case Chunk(f, b) => if f == 1 then x.(signers := x.signers + [b]) else x
      case Unknown(_) => x,
      None)
  }

  /** The records of a message whose permission is written as `bits`. */
  function RecordsAs(x: Fields, bits: uint64): (rs: seq<Record>)
    ensures AllDeclared(SCHEMA, rs)
  {
    RepeatedField(1, x.signers) + ScalarField(2, x.threshold) + ScalarField(3, bits)
  }

  function Records(x: Fields): (rs: seq<Record>)
    ensures AllDeclared(SCHEMA, rs)
  {
    RecordsAs(x, EnumBits(x.permission))
  }

  /** The records with the permission cut to the 32 bits that the reader keeps. */
  function ShortRecords(x: Fields): (rs: seq<Record>)
    ensures AllDeclared(SCHEMA, rs)
  {
    RecordsAs(x, Low32(EnumBits(x.permission)))
  }

  /** What `marshal` writes. */
  function Marshalled(m: Message<Fields>): bytes {
    Encode(Records, m)
  }

  /** What `unmarshal` makes of a message and a byte string. */
  function Unmarshalled(x: Message<Fields>, s: bytes, discard: bool): Outcome<Message<Fields>> {
    Decode(SCHEMA, Apply, discard, x, s, 0)
  }

  /** The unknown bytes are a run of whole records that the switch does not know. */
  predicate Clean(m: Message<Fields>) {
    UnknownRun(SCHEMA, m.unknown)
  }

  /** The same message with its permission written in 32 bits. */
  function MarshalledShort(m: Message<Fields>): bytes {
    Encode(ShortRecords, m)
  }

  // ----- The switch undoes the records -----

  lemma {:induction false} FoldSigners(x: Fields, bs: seq<bytes>)
    ensures Fold(Apply, x, RepeatedField(1, bs)) == Outcome(x.(signers := x.signers + bs), None)
    decreases |bs|
  {
    if bs == [] {
      assert x.signers + bs == x.signers;
    } else {
      FoldSigners(Apply(x, Chunk(1, bs[0])).state, bs[1..]);
      assert x.signers + bs == x.signers + [bs[0]] + bs[1..];
    }
  }

  /** Merging `x` into `y`: a threshold or permission that is set replaces that of `y`, signers are appended. */
  function Merge(y: Fields, x: Fields): Fields {
    Fields(
      y.signers + x.signers,
      if x.threshold != 0 then x.threshold else y.threshold,
      if x.permission != 0 then x.permission else y.permission)
  }

  /** `bits` stand for the permission: the reader gets it back, and they are zero only if it is. */
  predicate BitsOf(x: Fields, bits: uint64) {
    EnumOf(bits) == x.permission && (bits == 0 <==> x.permission == 0)
  }

  lemma FoldField(y: Fields, x: Fields, bits: uint64)
    requires BitsOf(x, bits)
    ensures Fold(Apply, y, ScalarField(2, x.threshold)) == Outcome(y.(threshold := Merge(y, x).threshold), None)
    ensures Fold(Apply, y, ScalarField(3, bits)) == Outcome(y.(permission := Merge(y, x).permission), None)
  {
    hide EnumOf;
  }

  /** The switch, run over the records of `x`, merges `x` into what it started from. */
  lemma FoldRecords(y: Fields, x: Fields, bits: uint64)
    requires BitsOf(x, bits)
    ensures Fold(Apply, y, RecordsAs(x, bits)) == Outcome(Merge(y, x), None)
  {
    hide Fold, ScalarField, RepeatedField, Apply, BitsOf;
    var r1, r2, r3 := RepeatedField(1, x.signers), ScalarField(2, x.threshold), ScalarField(3, bits);
    var z := Merge(y, x);
    var y1 := y.(signers := z.signers);
    var y2 := y1.(threshold := z.threshold);
    FoldSigners(y, x.signers);
    FoldField(y1, x, bits);
    FoldThen(Apply, y, r1, y1, r2, y2);
    FoldField(y2, x, bits);
    FoldThen(Apply, y, r1 + r2, y2, r3, z);
  }

  lemma MergeIntoZero(x: Fields)
    ensures Merge(ZERO, x) == x
  {
    assert [] + x.signers == x.signers;
  }

  /** Account details survive the wire, negative permissions included, exactly when their unknown bytes do. */
  lemma RoundTrip(m: Message<Fields>)
    requires |Marshalled(m)| <= MAX_INT
    ensures Unmarshalled(EMPTY, Marshalled(m), false) == Outcome(m, None) <==>
            Clean(m)
  {
    EnumRoundTrip(m.known.permission);
    FoldRecords(ZERO, m.known, EnumBits(m.known.permission));
    MergeIntoZero(m.known);
    RoundTripIff(SCHEMA, Apply, Records, ZERO, m);
  }

  lemma ShortRoundTrip(m: Message<Fields>)
    requires |MarshalledShort(m)| <= MAX_INT
    ensures Unmarshalled(EMPTY, MarshalledShort(m), false) == Outcome(m, None) <==>
            Clean(m)
  {
    EnumRoundTrip(m.known.permission);
    FoldRecords(ZERO, m.known, Low32(EnumBits(m.known.permission)));
    MergeIntoZero(m.known);
    RoundTripIff(SCHEMA, Apply, ShortRecords, ZERO, m);
  }

  /** Decoding an encoding into details in use merges: last one wins, signers and unknown bytes are appended. */
  lemma DecodeMerges(y: Message<Fields>, m: Message<Fields>)
    requires Clean(m)
    requires |Marshalled(m)| <= MAX_INT
    ensures Unmarshalled(y, Marshalled(m), false) ==
            Outcome(Message(Merge(y.known, m.known), y.unknown + m.unknown), None)
  {
    EnumRoundTrip(m.known.permission);
    FoldRecords(y.known, m.known, EnumBits(m.known.permission));
    DecodeEncoded(SCHEMA, Apply, Records, y, m, Merge(y.known, m.known));
  }

  /** The concatenation of two encodings decodes to their merge. */
  lemma ConcatenationMerges(m: Message<Fields>, m': Message<Fields>)
    requires Clean(m) && Clean(m')
    requires |Marshalled(m)| + |Marshalled(m')| <= MAX_INT
    ensures Unmarshalled(EMPTY, Marshalled(m) + Marshalled(m'), false) ==
            Outcome(Message(Merge(m.known, m'.known), m.unknown + m'.unknown), None)
  {
    RoundTrip(m);
    ConcatenationIsMerge(SCHEMA, Apply, false, EMPTY, m, Marshalled(m), Marshalled(m'));
    DecodeMerges(m, m');
  }

  // ----- One record -----

  /**
   * One varint record, zero or not, minimal or not, replaces the field it names, whatever that held,
   * by its low 32 bits, those of the permission read as signed; if the varint is cut short or too
   * long, by the groups read so far.
   */
  lemma ScalarRecords(x: Message<Fields>, s: bytes, discard: bool)
    requires Get(s, 0).err.Some? || Get(s, 0).n == |s|
    ensures var v := Get(s, 0);
            var low := v.value % TWO32;
            && Unmarshalled(x, [0x10] + s, discard) == Outcome(x.(known := x.known.(threshold := low)), v.err)
            && Unmarshalled(x, [0x18] + s, discard) ==
               Outcome(x.(known := x.known.(permission := if low < TWO31 then low else low - TWO32)), v.err)
  {
    hide Decode, Get, Low64;
    LowOfLow(Get(s, 0).value);
    ScalarRecord(SCHEMA, Apply, discard, x, 2, 0x10, s);
    ScalarRecord(SCHEMA, Apply, discard, x, 3, 0x18, s);
  }

  /** One length-delimited record is appended to the signers. */
  lemma SliceRecords(x: Message<Fields>, b: bytes, discard: bool)
    requires |b| + 11 <= MAX_INT
    ensures Unmarshalled(x, [0x0a] + (Put(|b|) + b), discard) ==
            Outcome(x.(known := x.known.(signers := x.known.signers + [b])), None)
  {
    hide Decode, Put;
    SliceRecord(SCHEMA, Apply, discard, x, 1, 0x0a, b);
  }

  /** Discarding unknown records changes nothing else. */
  lemma DiscardKeepsFields(x: Message<Fields>, s: bytes)
    ensures var kept := Unmarshalled(x, s, false);
            Unmarshalled(x, s, true) == Outcome(kept.state.(unknown := x.unknown), kept.err)
  {
    DiscardIsProjection(SCHEMA, Apply, Apply, (v: Fields) => v, x, x.unknown, s, 0);
  }

  /** Exactly the sequences of whole fields with allowed tags decode. */
  lemma AcceptsIff(x: Message<Fields>, s: bytes, discard: bool)
    requires |s| <= MAX_INT
    ensures Unmarshalled(x, s, discard).err.None? <==> Accepts(SCHEMA, AnyPayload, s)
  {
    DecodeAcceptsIff(SCHEMA, Apply, AnyPayload, discard, x, s, 0);
  }

  /** Of the strings that decode, exactly those that conform are in the format. */
  lemma WellFormedIff(x: Message<Fields>, s: bytes, discard: bool)
    requires |s| <= MAX_INT
    ensures WellFormed(SCHEMA, AnyPayload, s) <==>
            Unmarshalled(x, s, discard).err.None? && Conforms(SCHEMA, AnyPayload, s)
  {
    hide Decode, Conforms, WellFormed;
    DecodesWellFormedIff(SCHEMA, Apply, AnyPayload, AnyPayload, AnyPayload, discard, x, s);
  }

  // ----- Size -----

  function SizeAs(x: Fields, bits: uint64): nat {
    RepeatedSize(x.signers) +
    (if x.threshold != 0 then 1 + Sov(x.threshold) else 0) +
    (if bits != 0 then 1 + Sov(bits) else 0)
  }

  function ShortSize(x: Fields): nat {
    SizeAs(x, Low32(EnumBits(x.permission)))
  }

  lemma EncodeFields(x: Fields, bits: uint64, t: bytes)
    ensures EmitAll(RecordsAs(x, bits)) + t ==
            EmitAll(RepeatedField(1, x.signers)) +
            (EmitAll(ScalarField(2, x.threshold)) + (EmitAll(ScalarField(3, bits)) + t))
  {
    var r1, r2, r3 := RepeatedField(1, x.signers), ScalarField(2, x.threshold), ScalarField(3, bits);
    hide EmitAll, ScalarField, RepeatedField;
    EmitAllThen(r1 + r2, r3, t);
    EmitAllThen(r1, r2, EmitAll(r3) + t);
  }

  /** The encoding, byte by byte. */
  lemma WireFormat(m: Message<Fields>)
    ensures var x := m.known;
            Marshalled(m) ==
            RepeatedBytes(0x0a, x.signers) +
            (ScalarBytes(0x10, x.threshold) +
            (ScalarBytes(0x18, if x.permission < 0 then x.permission + TWO64 else x.permission) + m.unknown))
  {
    var x := m.known;
    assert Marshalled(m) == EmitAll(RecordsAs(x, EnumBits(x.permission))) + m.unknown;
    hide *;
    SignExtended(x.permission);
    EncodeFields(x, EnumBits(x.permission), m.unknown);
    RepeatedFieldBytes(1, x.signers);
    FieldBytes(2, x.threshold, []);
    FieldBytes(3, EnumBits(x.permission), []);
  }

  lemma SizeExact(x: Fields, bits: uint64)
    ensures SizeAs(x, bits) == |EmitAll(RecordsAs(x, bits))|
  {
    EncodeFields(x, bits, []);
    RepeatedSizeExact(1, x.signers);
    ScalarFieldSize(2, x.threshold);
    ScalarFieldSize(3, bits);
    hide EmitAll, RecordsAs, Sov, RepeatedSize, ScalarField, RepeatedField;
  }

  /** A negative permission, and nothing else, makes the encoding five bytes longer than it need be. */
  lemma SignExtensionCost(m: Message<Fields>)
    ensures |Marshalled(m)| == |MarshalledShort(m)| + if m.known.permission < 0 then 5 else 0
    ensures |MarshalledShort(m)| == ShortSize(m.known) + |m.unknown|
  {
    var x := m.known;
    SizeExact(x, EnumBits(x.permission));
    SizeExact(x, Low32(EnumBits(x.permission)));
    hide EmitAll, RecordsAs, Sov, EnumBits, Low32;
    EnumRoundTrip(x.permission);
    if x.permission < 0 {
      NegativeEnumSize(x.permission);
    } else {
      assert EnumBits(x.permission) == Low32(EnumBits(x.permission)) by { NonNegativeBits(x.permission); }
    }
  }

  lemma ApplyCost(x: Fields, r: Record)
    ensures ShortSize(Apply(x, r).state) <= ShortSize(x) + |Emit(r)|
  {
    hide Emit, Sov, SliceSize, RepeatedSize, EnumBits, EnumOf, Low32;
    EmitSize(r);
    match r
    case Scalar(f, v) =>
      SovMonotone(Low32(v), v);
      EnumRoundTrip(EnumOf(v));
      BitsOfEnum(v);
    case Chunk(_, b) => RepeatedSizeAppend(x.signers, b);
    case Unknown(_) =>
  }

  /** Whatever decodes to the account details, it is no shorter than their encoding in short form. */
  lemma ShortestForm(s: bytes, discard: bool)
    requires |s| <= MAX_INT
    requires Unmarshalled(EMPTY, s, discard).err.None?
    ensures var m := Unmarshalled(EMPTY, s, discard).state;
            Clean(m) && |MarshalledShort(m)| <= |s|
  {
    var m := Unmarshalled(EMPTY, s, discard).state;
    forall v, r | Declared(SCHEMA, r)
      ensures ShortSize(Apply(v, r).state) <= ShortSize(v) + |Emit(r)|
    {
      ApplyCost(v, r);
    }
    DecodeCost(SCHEMA, Apply, discard, (v: Fields) => true, ShortSize, EMPTY, s, 0);
    DecodeKeepsUnknownRun(SCHEMA, Apply, discard, EMPTY, s, 0);
    SignExtensionCost(m);
  }

  /** `s` is one of the byte strings that decode to `m`. */
  predicate DecodesTo(s: bytes, m: Message<Fields>) {
    |s| <= MAX_INT && Unmarshalled(EMPTY, s, false) == Outcome(m, None)
  }

  /**
   * Re-encoding never lengthens the input, unless the permission is negative, and then some input
   * was shorter: `marshal` writes the shortest encoding iff the permission is not negative.
   */
  lemma ShortestIffNonNegative(m: Message<Fields>)
    requires |Marshalled(m)| <= MAX_INT && Clean(m)
    ensures (forall s :: DecodesTo(s, m) ==> |Marshalled(m)| <= |s|) <==> m.known.permission >= 0
  {
    hide Decode;
    SignExtensionCost(m);
    if m.known.permission < 0 {
      ShortRoundTrip(m);
      assert DecodesTo(MarshalledShort(m), m);
    } else {
      forall s | DecodesTo(s, m)
        ensures |Marshalled(m)| <= |s|
      {
        ShortestForm(s, false);
      }
    }
  }

  /** Normal form, up to the five bytes of a sign extension. */
  lemma NormalForm(s: bytes, discard: bool)
    requires |s| + 5 <= MAX_INT
    requires Unmarshalled(EMPTY, s, discard).err.None?
    ensures var m := Unmarshalled(EMPTY, s, discard).state;
            |Marshalled(m)| <= |s| + (if m.known.permission < 0 then 5 else 0) &&
            Unmarshalled(EMPTY, Marshalled(m), false) == Outcome(m, None)
  {
    var m := Unmarshalled(EMPTY, s, discard).state;
    hide Decode;
    ShortestForm(s, discard);
    SignExtensionCost(m);
    RoundTrip(m);
  }

  // ----- The generated methods -----

  class MultisigAccountDetails {
    var Signers: seq<bytes>
    var Threshold: uint32
    var Permission: int32
    var unknownFields: bytes

    ghost function View(): Message<Fields>
      reads this
    {
      Message(Fields(Signers, Threshold, Permission), unknownFields)
    }

    constructor ()
      ensures View() == EMPTY
    {
      Signers, Threshold, Permission, unknownFields := [], 0, 0, [];
    }

    method Size() returns (n: nat)
      ensures n == |Marshalled(View())|
    {
      hide RecordsAs;
      SizeExact(View().known, EnumBits(Permission));
      EnumRoundTrip(Permission);
      hide EmitAll, Sov, RepeatedSize, EnumBits;
      n := SizeRepeated(Signers);
      if Threshold != 0 { n := n + 1 + Sov(Threshold); }
      if Permission != 0 { n := n + 1 + Sov(EnumBits(Permission)); }
      n := n + |unknownFields|;
    }

    method Marshal(buf: bytes) returns (out: bytes)
      requires |Marshalled(View())| <= MAX_INT
      ensures out == buf + Marshalled(View())
    {
      hide EmitAll, ScalarField, RepeatedField, RecordsAs;
      EncodeFields(View().known, EnumBits(Permission), unknownFields);
      EnumRoundTrip(Permission);
      var size := Size();
      var dAtA := new byte[size](_ => 0);
      var i := WriteBytes(dAtA, size, unknownFields);
      i := WriteScalarField(dAtA, i, 3, EnumBits(Permission));
      i := WriteScalarField(dAtA, i, 2, Threshold);
      i := WriteRepeated(dAtA, i, 1, Signers);
      out := buf + dAtA[..];
    }

    /** The body of the record loop. */
    method UnmarshalRecord(dAtA: bytes, preIndex: nat, discardUnknown: bool) returns (iNdEx: int, err: Option<Error>)
      requires preIndex < |dAtA| <= MAX_INT
      modifies this
      ensures var turn := Next(SCHEMA, dAtA[preIndex..], preIndex);
              Outcome(View(), err) == Take(Apply, discardUnknown, old(View()), turn) &&
              (err.None? ==> iNdEx == preIndex + turn.n)
    {
      hide NextSlice, NextUnknown, Get, FieldNumber, WireType, Low32, Low64, ToInt32;
      var fieldNum, wireType, b, v;
      fieldNum, wireType, iNdEx, err := ReadTag(dAtA, preIndex);
      if err.Some? { return; }
      if fieldNum == 1 {
        if wireType != 2 { return iNdEx, Some(WrongWireType(fieldNum)); }
        b, iNdEx, err := ReadSlice(dAtA, iNdEx, 1, preIndex);
        if err.Some? { return; }
        Signers := Signers + [b];
      } else if fieldNum == 2 {
        if wireType != 0 { return iNdEx, Some(WrongWireType(fieldNum)); }
        LowOfLow(Get(dAtA[iNdEx..], 0).value);
        Threshold, iNdEx, err := DecodeVarint(dAtA, iNdEx, TWO32);
        if err.Some? { return; }
      } else if fieldNum == 3 {
        if wireType != 0 { return iNdEx, Some(WrongWireType(fieldNum)); }
        LowOfLow(Get(dAtA[iNdEx..], 0).value);
        v, iNdEx, err := DecodeVarint(dAtA, iNdEx, TWO32);
        Permission := ToInt32(v);
        if err.Some? { return; }
      } else {
        b, iNdEx, err := ReadUnknown(dAtA, preIndex);
        if err.Some? { return; }
        if !discardUnknown { unknownFields := unknownFields + b; }
      }
    }

    method Unmarshal(dAtA: bytes, discardUnknown: bool) returns (err: Option<Error>)
      requires |dAtA| <= MAX_INT
      modifies this
      ensures Outcome(View(), err) == Unmarshalled(old(View()), dAtA, discardUnknown)
    {
      hide Decode, Next, Take;
      var l := |dAtA|;
      var iNdEx := 0;
      assert dAtA[0..] == dAtA;
      while iNdEx < l
        invariant 0 <= iNdEx <= l
        invariant Unmarshalled(old(View()), dAtA, discardUnknown) ==
                  Decode(SCHEMA, Apply, discardUnknown, View(), dAtA[iNdEx..], iNdEx)
        decreases l - iNdEx
      {
        DecodeTurn(SCHEMA, Apply, discardUnknown, View(), dAtA, iNdEx);
        iNdEx, err := UnmarshalRecord(dAtA, iNdEx, discardUnknown);
        if err.Some? { return; }
      }
      DecodeTurn(SCHEMA, Apply, discardUnknown, View(), dAtA, l);
      return None;
    }
  }
}
