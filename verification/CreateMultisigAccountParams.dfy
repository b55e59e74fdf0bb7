/** `multisig.v1.MsgCreateMultisigAccountParams`, the message with every kind of field. */
module CreateParamsCodec {
  import opened Machine
  import opened Varint
  import opened Wire
  import opened Skip
  import opened Format

  datatype Fields = Fields(authority: bytes, seed: uint32, threshold: uint32, signers: seq<bytes>, permission: int32)

  const ZERO := Fields([], 0, 0, [], 0)
  const EMPTY: Message<Fields> := Message(ZERO, [])
  const SCHEMA: Schema := map[1 := Slice, 2 := InPlace, 3 := InPlace, 4 := Slice, 5 := InPlace]

  function Apply(x: Fields, r: Record): Outcome<Fields> {
    Outcome(
      match r
      case Scalar(f, v) =>
        if f == 2 then x.(seed := Low32(v))
        else if f == 3 then x.(threshold := Low32(v))
        else if f == 5 then x.(permission := EnumOf(v))
        else x
      case Chunk(f, b) =>
        if f == 1 then x.(authority := b) else if f == 4 then x.(signers := x.signers + [b]) else x
      case Unknown(_) => x,
      None)
  }

  function Records(x: Fields): (rs: seq<Record>)
    ensures AllDeclared(SCHEMA, rs)
  {
    SliceField(1, x.authority) + ScalarField(2, x.seed) + ScalarField(3, x.threshold) +
    RepeatedField(4, x.signers) + ScalarField(5, EnumBits(x.permission))
  }

  /** What `marshal` writes. */
  function Marshalled(m: Message<Fields>): bytes {
    Encode(Records, m)
  }

  /** What `unmarshal` makes of a message and a byte string. */
  function Unmarshalled(x: Message<Fields>, s: bytes, discard: bool): Outcome<Message<Fields>> {
    Decode(SCHEMA, Apply, discard, x, s, 0)
  }

  /** The unknown bytes are a run of whole records that the switch does not know. */
  predicate Clean(m: Message<Fields>) {
    UnknownRun(SCHEMA, m.unknown)
  }

  lemma {:induction false} FoldSigners(x: Fields, bs: seq<bytes>)
    ensures Fold(Apply, x, RepeatedField(4, bs)) == Outcome(x.(signers := x.signers + bs), None)
    decreases |bs|
  {
    if bs == [] {
      assert x.signers + bs == x.signers;
    } else {
      FoldSigners(Apply(x, Chunk(4, bs[0])).state, bs[1..]);
      assert x.signers + bs == x.signers + [bs[0]] + bs[1..];
    }
  }

  /** Merging `x` into `y`: set fields of `x` replace those of `y`, signers are appended. */
  function Merge(y: Fields, x: Fields): Fields {
    Fields(
      if x.authority != [] then x.authority else y.authority,
      if x.seed != 0 then x.seed else y.seed,
      if x.threshold != 0 then x.threshold else y.threshold,
      y.signers + x.signers,
      if x.permission != 0 then x.permission else y.permission)
  }

  lemma FoldField(y: Fields, x: Fields)
    ensures Fold(Apply, y, SliceField(1, x.authority)) == Outcome(y.(authority := Merge(y, x).authority), None)
    ensures Fold(Apply, y, ScalarField(2, x.seed)) == Outcome(y.(seed := Merge(y, x).seed), None)
    ensures Fold(Apply, y, ScalarField(3, x.threshold)) == Outcome(y.(threshold := Merge(y, x).threshold), None)
    ensures Fold(Apply, y, ScalarField(5, EnumBits(x.permission))) ==
            Outcome(y.(permission := Merge(y, x).permission), None)
  {
    EnumRoundTrip(x.permission);
    hide EnumOf, EnumBits;
  }

  /** The switch, run over the records of `x`, merges `x` into what it started from. */
  lemma FoldRecords(y: Fields, x: Fields)
    ensures Fold(Apply, y, Records(x)) == Outcome(Merge(y, x), None)
  {
    hide Fold, ScalarField, SliceField, RepeatedField, Apply, EnumOf, EnumBits;
    var r1, r2, r3 := SliceField(1, x.authority), ScalarField(2, x.seed), ScalarField(3, x.threshold);
    var r4, r5 := RepeatedField(4, x.signers), ScalarField(5, EnumBits(x.permission));
    var z := Merge(y, x);
    var y1 := y.(authority := z.authority);
    var y2 := y1.(seed := z.seed);
    var y3 := y2.(threshold := z.threshold);
    var y4 := y3.(signers := z.signers);
    FoldField(y, x);
    FoldField(y1, x);
    FoldThen(Apply, y, r1, y1, r2, y2);
    FoldField(y2, x);
    FoldThen(Apply, y, r1 + r2, y2, r3, y3);
    FoldSigners(y3, x.signers);
    FoldThen(Apply, y, r1 + r2 + r3, y3, r4, y4);
    FoldField(y4, x);
    FoldThen(Apply, y, r1 + r2 + r3 + r4, y4, r5, z);
  }

  /** The message survives the wire, signers in their order, exactly when its unknown bytes do. */
  lemma RoundTrip(m: Message<Fields>)
    requires |Marshalled(m)| <= MAX_INT
    ensures Unmarshalled(EMPTY, Marshalled(m), false) == Outcome(m, None) <==>
            Clean(m)
  {
    FoldRecords(ZERO, m.known);
    assert ZERO.signers + m.known.signers == m.known.signers;
    RoundTripIff(SCHEMA, Apply, Records, ZERO, m);
  }

  /** Decoding an encoding into a message in use merges. */
  lemma DecodeMerges(y: Message<Fields>, m: Message<Fields>)
    requires Clean(m) && |Marshalled(m)| <= MAX_INT
    ensures Unmarshalled(y, Marshalled(m), false) ==
            Outcome(Message(Merge(y.known, m.known), y.unknown + m.unknown), None)
  {
    FoldRecords(y.known, m.known);
    DecodeEncoded(SCHEMA, Apply, Records, y, m, Merge(y.known, m.known));
  }

  /** The concatenation of two encodings decodes to their merge. */
  lemma ConcatenationMerges(m: Message<Fields>, m': Message<Fields>)
    requires Clean(m) && Clean(m')
    requires |Marshalled(m)| + |Marshalled(m')| <= MAX_INT
    ensures Unmarshalled(EMPTY, Marshalled(m) + Marshalled(m'), false) ==
            Outcome(Message(Merge(m.known, m'.known), m.unknown + m'.unknown), None)
  {
    RoundTrip(m);
    ConcatenationIsMerge(SCHEMA, Apply, false, EMPTY, m, Marshalled(m), Marshalled(m'));
    DecodeMerges(m, m');
  }

  /** The encoding, field by field. */
  lemma EncodeFields(m: Message<Fields>)
    ensures var x := m.known;
            Marshalled(m) ==
            EmitAll(SliceField(1, x.authority)) +
            (EmitAll(ScalarField(2, x.seed)) + (EmitAll(ScalarField(3, x.threshold)) +
            (EmitAll(RepeatedField(4, x.signers)) + (EmitAll(ScalarField(5, EnumBits(x.permission))) + m.unknown))))
  {
    var x := m.known;
    var r1, r2, r3 := SliceField(1, x.authority), ScalarField(2, x.seed), ScalarField(3, x.threshold);
    var r4, r5 := RepeatedField(4, x.signers), ScalarField(5, EnumBits(x.permission));
    hide EmitAll, ScalarField, SliceField, RepeatedField, EnumBits;
    EmitAllThen(r1 + r2 + r3 + r4, r5, m.unknown);
    EmitAllThen(r1 + r2 + r3, r4, EmitAll(r5) + m.unknown);
    EmitAllThen(r1 + r2, r3, EmitAll(r4) + (EmitAll(r5) + m.unknown));
    EmitAllThen(r1, r2, EmitAll(r3) + (EmitAll(r4) + (EmitAll(r5) + m.unknown)));
  }

  /** The encoding, byte by byte. */
  lemma WireFormat(m: Message<Fields>)
    ensures var x := m.known;
            Marshalled(m) ==
            SliceBytes(0x0a, x.authority) + (ScalarBytes(0x10, x.seed) + (ScalarBytes(0x18, x.threshold) +
            (RepeatedBytes(0x22, x.signers) +
            (ScalarBytes(0x28, if x.permission < 0 then x.permission + TWO64 else x.permission) + m.unknown))))
  {
    hide *;
    var x := m.known;
    SignExtended(x.permission);
    EncodeFields(m);
    FieldBytes(1, 0, x.authority);
    FieldBytes(2, x.seed, []);
    FieldBytes(3, x.threshold, []);
    RepeatedFieldBytes(4, x.signers);
    FieldBytes(5, EnumBits(x.permission), []);
  }

  function Size(x: Fields): nat {
    (if |x.authority| > 0 then SliceSize(x.authority) else 0) +
    (if x.seed != 0 then 1 + Sov(x.seed) else 0) +
    (if x.threshold != 0 then 1 + Sov(x.threshold) else 0) +
    RepeatedSize(x.signers) +
    (if x.permission != 0 then 1 + Sov(EnumBits(x.permission)) else 0)
  }

  /** The size pass is exact. */
  lemma SizeExact(m: Message<Fields>)
    ensures Size(m.known) + |m.unknown| == |Marshalled(m)|
  {
    var x := m.known;
    EncodeFields(m);
    SliceFieldSize(1, x.authority);
    ScalarFieldSize(2, x.seed);
    ScalarFieldSize(3, x.threshold);
    RepeatedSizeExact(4, x.signers);
    ScalarFieldSize(5, EnumBits(x.permission));
    EnumRoundTrip(x.permission);
    hide EmitAll, Encode, Sov, SliceSize, RepeatedSize, ScalarField, SliceField, RepeatedField, EnumBits;
  }

  lemma AuthorityBound(m: Message<Fields>)
    requires |Marshalled(m)| <= MAX_INT
    ensures |m.known.authority| <= MAX_INT
  {
    SizeExact(m);
    hide Encode, Sov, RepeatedSize;
  }

  // ----- Normal form -----

  /** The records with the permission, the last field, cut to the 32 bits that the reader keeps. */
  function ShortRecords(x: Fields): (rs: seq<Record>)
    ensures AllDeclared(SCHEMA, rs)
  {
    Records(x.(permission := 0)) + ScalarField(5, Low32(EnumBits(x.permission)))
  }

  function MarshalledShort(m: Message<Fields>): bytes {
    Encode(ShortRecords, m)
  }

  function ShortSize(x: Fields): nat {
    Size(x.(permission := 0)) + if x.permission != 0 then 1 + Sov(Low32(EnumBits(x.permission))) else 0
  }

  lemma ShortRoundTrip(m: Message<Fields>)
    requires |MarshalledShort(m)| <= MAX_INT
    ensures Unmarshalled(EMPTY, MarshalledShort(m), false) == Outcome(m, None) <==>
            Clean(m)
  {
    var x, x0 := m.known, m.known.(permission := 0);
    FoldRecords(ZERO, x0);
    assert ZERO.signers + x.signers == x.signers;
    assert Merge(ZERO, x0) == x0;
    FoldPermission(x0, x.permission);
    FoldThen(Apply, ZERO, Records(x0), x0, ScalarField(5, Low32(EnumBits(x.permission))), x);
    RoundTripIff(SCHEMA, Apply, ShortRecords, ZERO, m);
  }

  lemma FoldPermission(y: Fields, permission: int32)
    requires y.permission == 0
    ensures Fold(Apply, y, ScalarField(5, Low32(EnumBits(permission)))) == Outcome(y.(permission := permission), None)
  {
    EnumRoundTrip(permission);
    hide EnumOf, EnumBits, Low32;
  }

  lemma ShortSizeExact(m: Message<Fields>)
    ensures |MarshalledShort(m)| == ShortSize(m.known) + |m.unknown|
  {
    var x, x0 := m.known, m.known.(permission := 0);
    var bits := Low32(EnumBits(x.permission));
    SizeExact(Message(x0, []));
    assert EmitAll(Records(x0)) + [] == EmitAll(Records(x0));
    EmitAllConcat(Records(x0), ScalarField(5, bits));
    ScalarFieldSize(5, bits);
    EnumRoundTrip(x.permission);
    hide EmitAll, Records, Size, Sov, EnumBits, Low32, ScalarField;
  }

  /** A negative permission, and nothing else, makes the encoding five bytes longer than it need be. */
  lemma SignExtensionCost(m: Message<Fields>)
    ensures |Marshalled(m)| == |MarshalledShort(m)| + if m.known.permission < 0 then 5 else 0
  {
    SizeExact(m);
    ShortSizeExact(m);
    var permission := m.known.permission;
    EnumRoundTrip(permission);
    if permission < 0 {
      NegativeEnumSize(permission);
    } else {
      NonNegativeBits(permission);
    }
    hide Sov, EnumBits, Low32, SliceSize, RepeatedSize, Encode;
  }

  lemma ApplyCost(x: Fields, r: Record)
    ensures ShortSize(Apply(x, r).state) <= ShortSize(x) + |Emit(r)|
  {
    hide Emit, Sov, SliceSize, RepeatedSize, EnumBits, EnumOf, Low32;
    EmitSize(r);
    match r
    case Scalar(f, v) =>
      SovMonotone(Low32(v), v);
      EnumRoundTrip(EnumOf(v));
      BitsOfEnum(v);
    case Chunk(_, b) => RepeatedSizeAppend(x.signers, b);
    case Unknown(_) =>
  }

  /** Whatever decodes to the message, it is no shorter than its encoding in short form. */
  lemma ShortestForm(s: bytes, discard: bool)
    requires |s| <= MAX_INT
    requires Unmarshalled(EMPTY, s, discard).err.None?
    ensures var m := Unmarshalled(EMPTY, s, discard).state;
            Clean(m) && |MarshalledShort(m)| <= |s|
  {
    forall v, r | Declared(SCHEMA, r)
      ensures ShortSize(Apply(v, r).state) <= ShortSize(v) + |Emit(r)|
    {
      ApplyCost(v, r);
    }
    DecodeCost(SCHEMA, Apply, discard, (v: Fields) => true, ShortSize, EMPTY, s, 0);
    DecodeKeepsUnknownRun(SCHEMA, Apply, discard, EMPTY, s, 0);
    ShortSizeExact(Unmarshalled(EMPTY, s, discard).state);
  }

  predicate DecodesTo(s: bytes, m: Message<Fields>) {
    |s| <= MAX_INT && Unmarshalled(EMPTY, s, false) == Outcome(m, None)
  }

  /** `marshal` writes the shortest encoding iff the permission is not negative. */
  lemma ShortestIffNonNegative(m: Message<Fields>)
    requires |Marshalled(m)| <= MAX_INT && Clean(m)
    ensures m.known.permission >= 0 <==> forall s :: DecodesTo(s, m) ==> |Marshalled(m)| <= |s|
  {
    hide Decode;
    SignExtensionCost(m);
    if m.known.permission < 0 {
      ShortRoundTrip(m);
      assert DecodesTo(MarshalledShort(m), m);
    } else {
      forall s | DecodesTo(s, m)
        ensures |Marshalled(m)| <= |s|
      {
        ShortestForm(s, false);
      }
    }
  }

  /** Normal form, up to the five bytes of a sign extension. */
  lemma NormalForm(s: bytes, discard: bool)
    requires |s| + 5 <= MAX_INT
    requires Unmarshalled(EMPTY, s, discard).err.None?
    ensures var m := Unmarshalled(EMPTY, s, discard).state;
            |Marshalled(m)| <= |s| + (if m.known.permission < 0 then 5 else 0) &&
            Clean(m) && Unmarshalled(EMPTY, Marshalled(m), false) == Outcome(m, None)
  {
    var m := Unmarshalled(EMPTY, s, discard).state;
    hide Decode;
    ShortestForm(s, discard);
    SignExtensionCost(m);
    RoundTrip(m);
  }

  // ----- One record -----

  /**
   * One varint record, zero or not, minimal or not, replaces the field it names, whatever that held,
   * by its low 32 bits, those of the permission read as signed; if the varint is cut short or too
   * long, by the groups read so far.
   */
  lemma ScalarRecords(x: Message<Fields>, s: bytes, discard: bool)
    requires Get(s, 0).err.Some? || Get(s, 0).n == |s|
    ensures var v := Get(s, 0);
            var low := v.value % TWO32;
            && Unmarshalled(x, [0x10] + s, discard) == Outcome(x.(known := x.known.(seed := low)), v.err)
            && Unmarshalled(x, [0x18] + s, discard) == Outcome(x.(known := x.known.(threshold := low)), v.err)
            && Unmarshalled(x, [0x28] + s, discard) ==
               Outcome(x.(known := x.known.(permission := if low < TWO31 then low else low - TWO32)), v.err)
  {
    hide Decode, Get, Low64;
    LowOfLow(Get(s, 0).value);
    ScalarRecord(SCHEMA, Apply, discard, x, 2, 0x10, s);
    ScalarRecord(SCHEMA, Apply, discard, x, 3, 0x18, s);
    ScalarRecord(SCHEMA, Apply, discard, x, 5, 0x28, s);
  }

  /** One length-delimited record, empty or not, replaces the authority or is appended to the signers. */
  lemma SliceRecords(x: Message<Fields>, b: bytes, discard: bool)
    requires |b| + 11 <= MAX_INT
    ensures Unmarshalled(x, [0x0a] + (Put(|b|) + b), discard) == Outcome(x.(known := x.known.(authority := b)), None)
    ensures Unmarshalled(x, [0x22] + (Put(|b|) + b), discard) ==
            Outcome(x.(known := x.known.(signers := x.known.signers + [b])), None)
  {
    hide Decode, Put;
    SliceRecord(SCHEMA, Apply, discard, x, 1, 0x0a, b);
    SliceRecord(SCHEMA, Apply, discard, x, 4, 0x22, b);
  }

  /** Discarding unknown records changes nothing else. */
  lemma DiscardKeepsFields(x: Message<Fields>, s: bytes)
    ensures var kept := Unmarshalled(x, s, false);
            Unmarshalled(x, s, true) == Outcome(kept.state.(unknown := x.unknown), kept.err)
  {
    DiscardIsProjection(SCHEMA, Apply, Apply, (v: Fields) => v, x, x.unknown, s, 0);
  }

  /** Exactly the sequences of whole fields with allowed tags decode. */
  lemma AcceptsIff(x: Message<Fields>, s: bytes, discard: bool)
    requires |s| <= MAX_INT
    ensures Unmarshalled(x, s, discard).err.None? <==> Accepts(SCHEMA, AnyPayload, s)
  {
    DecodeAcceptsIff(SCHEMA, Apply, AnyPayload, discard, x, s, 0);
  }

  // ----- The format -----

  predicate PayloadRight(f: FieldNum, b: bytes) {
    f == 1 ==> Utf8(b)
  }

  /** Of the strings that decode, exactly those that conform, with an authority in UTF-8, are in the format. */
  lemma WellFormedIff(x: Message<Fields>, s: bytes, discard: bool)
    requires |s| <= MAX_INT
    ensures Unmarshalled(x, s, discard).err.None? && Conforms(SCHEMA, PayloadRight, s) <==>
            WellFormed(SCHEMA, PayloadRight, s)
  {
    hide Decode, Conforms, WellFormed;
    DecodesWellFormedIff(SCHEMA, Apply, AnyPayload, PayloadRight, PayloadRight, discard, x, s);
  }

  // ----- The generated methods -----

  class MsgCreateMultisigAccountParams {
    var Authority: bytes
    var Seed: uint32
    var Threshold: uint32
    var Signers: seq<bytes>
    var Permission: int32
    var unknownFields: bytes

    ghost function View(): Message<Fields>
      reads this
    {
      Message(Fields(Authority, Seed, Threshold, Signers, Permission), unknownFields)
    }

    constructor ()
      ensures View() == EMPTY
    {
      Authority, Seed, Threshold, Signers, Permission, unknownFields := [], 0, 0, [], 0, [];
    }

    method Size() returns (n: nat)
      ensures n == |Marshalled(View())|
    {
      SizeExact(View());
      hide Encode, Sov, RepeatedSize, EnumBits;
      n := 0;
      var l := |Authority|;
      if l > 0 { n := n + 1 + l + Sov(l); }
      if Seed != 0 { n := n + 1 + Sov(Seed); }
      if Threshold != 0 { n := n + 1 + Sov(Threshold); }
      var k := SizeRepeated(Signers);
      n := n + k;
      if Permission != 0 { n := n + 1 + Sov(EnumBits(Permission)); }
      n := n + |unknownFields|;
    }

    method Marshal(buf: bytes) returns (out: bytes)
      requires |Marshalled(View())| <= MAX_INT
      ensures out == buf + Marshalled(View())
    {
      hide EmitAll, Marshalled, Records, ScalarField, SliceField, RepeatedField, EnumBits, Put, Sov;
      ghost var m := View();
      EncodeFields(m);
      AuthorityBound(m);
      var bits := EnumBits(Permission);
      ghost var t5 := EmitAll(ScalarField(5, bits)) + unknownFields;
      ghost var t4 := EmitAll(RepeatedField(4, Signers)) + t5;
      ghost var t3 := EmitAll(ScalarField(3, Threshold)) + t4;
      ghost var t2 := EmitAll(ScalarField(2, Seed)) + t3;
      ghost var t1 := EmitAll(SliceField(1, Authority)) + t2;
      assert Marshalled(m) == t1;
      var size := Size();
      var dAtA := new byte[size](_ => 0);
      var i := WriteBytes(dAtA, size, unknownFields);
      i := WriteScalarField(dAtA, i, 5, bits);
      assert dAtA[i..] == t5;
      i := WriteRepeated(dAtA, i, 4, Signers);
      assert dAtA[i..] == t4;
      i := WriteScalarField(dAtA, i, 3, Threshold);
      assert dAtA[i..] == t3;
      i := WriteScalarField(dAtA, i, 2, Seed);
      assert dAtA[i..] == t2;
      i := WriteSliceField(dAtA, i, 1, Authority);
      assert dAtA[i..] == t1;
      out := buf + dAtA[..];
    }

    /** The body of the record loop. */
    method UnmarshalRecord(dAtA: bytes, preIndex: nat, discardUnknown: bool) returns (iNdEx: int, err: Option<Error>)
      requires preIndex < |dAtA| <= MAX_INT
      modifies this
      ensures var turn := Next(SCHEMA, dAtA[preIndex..], preIndex);
              Outcome(View(), err) == Take(Apply, discardUnknown, old(View()), turn) &&
              (err.None? ==> iNdEx == preIndex + turn.n)
    {
      hide NextSlice, NextUnknown, Get, FieldNumber, WireType, Low32, Low64, ToInt32;
      var fieldNum, wireType, b, v;
      fieldNum, wireType, iNdEx, err := ReadTag(dAtA, preIndex);
      if err.Some? { return; }
      if fieldNum == 1 {
        if wireType != 2 { return iNdEx, Some(WrongWireType(fieldNum)); }
        b, iNdEx, err := ReadSlice(dAtA, iNdEx, 1, preIndex);
        if err.Some? { return; }
        Authority := b;
      } else if fieldNum == 2 {
        if wireType != 0 { return iNdEx, Some(WrongWireType(fieldNum)); }
        LowOfLow(Get(dAtA[iNdEx..], 0).value);
        Seed, iNdEx, err := DecodeVarint(dAtA, iNdEx, TWO32);
        if err.Some? { return; }
      } else if fieldNum == 3 {
        if wireType != 0 { return iNdEx, Some(WrongWireType(fieldNum)); }
        LowOfLow(Get(dAtA[iNdEx..], 0).value);
        Threshold, iNdEx, err := DecodeVarint(dAtA, iNdEx, TWO32);
        if err.Some? { return; }
      } else if fieldNum == 4 {
        if wireType != 2 { return iNdEx, Some(WrongWireType(fieldNum)); }
        b, iNdEx, err := ReadSlice(dAtA, iNdEx, 4, preIndex);
        if err.Some? { return; }
        Signers := Signers + [b];
      } else if fieldNum == 5 {
        if wireType != 0 { return iNdEx, Some(WrongWireType(fieldNum)); }
        LowOfLow(Get(dAtA[iNdEx..], 0).value);
        v, iNdEx, err := DecodeVarint(dAtA, iNdEx, TWO32);
        Permission := ToInt32(v);
        if err.Some? { return; }
      } else {
        b, iNdEx, err := ReadUnknown(dAtA, preIndex);
        if err.Some? { return; }
        if !discardUnknown { unknownFields := unknownFields + b; }
      }
    }

    method Unmarshal(dAtA: bytes, discardUnknown: bool) returns (err: Option<Error>)
      requires |dAtA| <= MAX_INT
      modifies this
      ensures Outcome(View(), err) == Unmarshalled(old(View()), dAtA, discardUnknown)
    {
      hide Decode, Next, Take;
      var l := |dAtA|;
      var iNdEx := 0;
      assert dAtA[0..] == dAtA;
      while iNdEx < l
        invariant 0 <= iNdEx <= l
        invariant Unmarshalled(old(View()), dAtA, discardUnknown) ==
                  Decode(SCHEMA, Apply, discardUnknown, View(), dAtA[iNdEx..], iNdEx)
        decreases l - iNdEx
      {
        DecodeTurn(SCHEMA, Apply, discardUnknown, View(), dAtA, iNdEx);
        iNdEx, err := UnmarshalRecord(dAtA, iNdEx, discardUnknown);
        if err.Some? { return; }
      }
      DecodeTurn(SCHEMA, Apply, discardUnknown, View(), dAtA, l);
      return None;
    }
  }
}
