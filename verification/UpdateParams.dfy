/** `multisig.v1.Params`, a single boolean. */
module ParamsCodec {
  import opened Machine
  import opened Varint
  import opened Wire
  import opened Skip
  import opened Format

  datatype Fields = Fields(someValue: bool)

  const ZERO := Fields(false)
  const EMPTY: Message<Fields> := Message(ZERO, [])
  const SCHEMA: Schema := map[2 := Local]

  function Apply(x: Fields, r: Record): Outcome<Fields> {
    Outcome(if r.Scalar? && r.field == 2 then x.(someValue := r.bits != 0) else x, None)
  }

  function Records(x: Fields): (rs: seq<Record>)
    ensures AllDeclared(SCHEMA, rs)
  {
    if x.someValue then [Scalar(2, 1)] else []
  }

  /** What `marshal` writes. */
  function Marshalled(m: Message<Fields>): bytes {
    Encode(Records, m)
  }

  /** What `unmarshal` makes of a message and a byte string. */
  function Unmarshalled(x: Message<Fields>, s: bytes, discard: bool): Outcome<Message<Fields>> {
    Decode(SCHEMA, Apply, discard, x, s, 0)
  }

  /** The unknown bytes are a run of whole records that the switch does not know. */
  predicate Clean(m: Message<Fields>) {
    UnknownRun(SCHEMA, m.unknown)
  }

  /** Merging cannot unset the flag, as a false one is not written. */
  function Merge(y: Fields, x: Fields): Fields {
    Fields(y.someValue || x.someValue)
  }

  lemma FoldRecords(y: Fields, x: Fields)
    ensures Fold(Apply, y, Records(x)) == Outcome(Merge(y, x), None)
  {
  }

  lemma MergeIntoZero(x: Fields)
    ensures Merge(ZERO, x) == x
  {
  }

  lemma RoundTrip(m: Message<Fields>)
    requires |Marshalled(m)| <= MAX_INT
    ensures Unmarshalled(EMPTY, Marshalled(m), false) == Outcome(m, None) <==>
            Clean(m)
  {
    FoldRecords(ZERO, m.known);
    RoundTripIff(SCHEMA, Apply, Records, ZERO, m);
  }

  /** Decoding an encoding into a message in use merges. */
  lemma DecodeMerges(y: Message<Fields>, m: Message<Fields>)
    requires |Marshalled(m)| <= MAX_INT
    requires Clean(m)
    ensures Unmarshalled(y, Marshalled(m), false) ==
            Outcome(Message(Merge(y.known, m.known), y.unknown + m.unknown), None)
  {
    FoldRecords(y.known, m.known);
    DecodeEncoded(SCHEMA, Apply, Records, y, m, Merge(y.known, m.known));
  }

  /** Exactly the sequences of whole fields with allowed tags decode. */
  lemma AcceptsIff(x: Message<Fields>, s: bytes, discard: bool)
    requires |s| <= MAX_INT
    ensures Accepts(SCHEMA, AnyPayload, s) <==> Unmarshalled(x, s, discard).err.None?
  {
    DecodeAcceptsIff(SCHEMA, Apply, AnyPayload, discard, x, s, 0);
  }

  /**
   * One varint record sets the flag if it is not zero and unsets it if it is, whatever the flag was;
   * one that is cut short or too long leaves it.
   */
  lemma FlagRecord(x: Message<Fields>, s: bytes, discard: bool)
    requires Get(s, 0).err.Some? || Get(s, 0).n == |s|
    ensures var v := Get(s, 0);
            Unmarshalled(x, [0x10] + s, discard) ==
            if v.err.None? then Outcome(x.(known := Fields(v.value % TWO64 != 0)), None) else Outcome(x, v.err)
  {
    hide Decode, Get;
    ScalarRecord(SCHEMA, Apply, discard, x, 2, 0x10, s);
  }

  /** Discarding unknown records changes nothing else. */
  lemma DiscardKeepsFields(x: Message<Fields>, s: bytes)
    ensures var kept := Unmarshalled(x, s, false);
            Unmarshalled(x, s, true) == Outcome(kept.state.(unknown := x.unknown), kept.err)
  {
    DiscardIsProjection(SCHEMA, Apply, Apply, (v: Fields) => v, x, x.unknown, s, 0);
  }

  /** A tag whose number is 2 modulo 2^32 sets the flag. */
  lemma IllegalNumberSetsFlag()
    ensures var s := Put(8 * (2 + TWO32)) + [1];
            Unmarshalled(EMPTY, s, false) == Outcome(Message(Fields(true), []), None) &&
            !WellFormed(SCHEMA, AnyPayload, s) && |s| <= 11
  {
    var wire := 8 * (2 + TWO32);
    var n, s := |Put(wire)|, Put(wire) + [1];
    PutLengthUint64(wire);
    GetPutUint64(wire, [1]);
    FieldNumberIff(wire, 2);
    assert Get([1], 0) == Reading(1, 1, None);
    assert TagNumber(wire) == 2 + TWO32 && WireType(wire) == 0;
    hide Get, Put, FieldNumber, TagNumber, WireType;
    assert s[n..] == [1];
    assert Next(SCHEMA, s, 0) == Got(Scalar(2, 1), |s|);
    assert !InBounds(s);
    hide Next, Decode, InBounds;
    assert s[0..] == s;
    DecodeTurn(SCHEMA, Apply, false, EMPTY, s, 0);
    DecodeTurn(SCHEMA, Apply, false, Message(Fields(true), []), s, |s|);
  }

  lemma EncodeFields(m: Message<Fields>)
    ensures Marshalled(m) == (if m.known.someValue then [0x10, 1] else []) + m.unknown
  {
    if m.known.someValue {
      EmitOne(Scalar(2, 1));
    }
  }

  /** What the fields take on the wire. */
  function Size(x: Fields): nat {
    if x.someValue then 2 else 0
  }

  /**
   * Decoding into `x` adds no more to the encoding than what it reads, and keeps its unknown bytes a
   * run of unknown records.
   */
  lemma DecodeGrows(x: Message<Fields>, s: bytes, discard: bool)
    requires |s| <= MAX_INT
    requires Unmarshalled(x, s, discard).err.None?
    ensures var y := Unmarshalled(x, s, discard).state;
            |Marshalled(y)| <= |Marshalled(x)| + |s| &&
            (Clean(x) && |y.unknown| <= MAX_INT ==> Clean(y)) &&
            |x.unknown| <= |y.unknown|
  {
    hide Decode;
    var y := Unmarshalled(x, s, discard).state;
    forall v, r | Declared(SCHEMA, r)
      ensures Size(Apply(v, r).state) <= Size(v) + |Emit(r)|
    {
    }
    DecodeCost(SCHEMA, Apply, discard, (v: Fields) => true, Size, x, s, 0);
    DecodeUnknownGrows(SCHEMA, Apply, discard, x, s, 0);
    if Clean(x) && |y.unknown| <= MAX_INT {
      DecodeKeepsUnknownRun(SCHEMA, Apply, discard, x, s, 0);
    }
    EncodeFields(x);
    EncodeFields(y);
  }

  /** Normal form. */
  lemma NormalForm(s: bytes, discard: bool)
    requires |s| <= MAX_INT
    requires Unmarshalled(EMPTY, s, discard).err.None?
    ensures var m := Unmarshalled(EMPTY, s, discard).state;
            |Marshalled(m)| <= |s| && Unmarshalled(EMPTY, Marshalled(m), false) == Outcome(m, None)
  {
    DecodeGrows(EMPTY, s, discard);
    EncodeFields(EMPTY);
    EncodeFields(Unmarshalled(EMPTY, s, discard).state);
    hide Decode;
    RoundTrip(Unmarshalled(EMPTY, s, discard).state);
  }

  class Params {
    var SomeValue: bool
    var unknownFields: bytes

    ghost function View(): Message<Fields>
      reads this
    {
      Message(Fields(SomeValue), unknownFields)
    }

    constructor ()
      ensures View() == EMPTY
    {
      SomeValue, unknownFields := false, [];
    }

    method Reset()
      modifies this
      ensures View() == EMPTY
    {
      SomeValue, unknownFields := false, [];
    }

    method Size() returns (n: nat)
      ensures n == |Marshalled(View())|
    {
      EncodeFields(View());
      n := (if SomeValue then 2 else 0) + |unknownFields|;
    }

    method Marshal(buf: bytes) returns (out: bytes)
      ensures out == buf + Marshalled(View())
    {
      EncodeFields(View());
      var size := Size();
      var dAtA := new byte[size](_ => 0);
      var i := WriteBytes(dAtA, size, unknownFields);
      if SomeValue {
        i := WriteByte(dAtA, i, if SomeValue then 1 else 0);
        i := WriteByte(dAtA, i, 0x10);
      }
      assert dAtA[..] == Marshalled(View());
      out := buf + dAtA[..];
    }

    /** The body of the record loop. */
    method UnmarshalRecord(dAtA: bytes, preIndex: nat, discardUnknown: bool) returns (iNdEx: int, err: Option<Error>)
      requires preIndex < |dAtA| <= MAX_INT
      modifies this
      ensures var turn := Next(SCHEMA, dAtA[preIndex..], preIndex);
              Outcome(View(), err) == Take(Apply, discardUnknown, old(View()), turn) &&
              (err.None? ==> iNdEx == preIndex + turn.n)
    {
      hide NextSlice, NextUnknown, Get, FieldNumber, WireType;
      var fieldNum, wireType, b, v;
      fieldNum, wireType, iNdEx, err := ReadTag(dAtA, preIndex);
      if err.Some? { return; }
      if fieldNum == 2 {
        if wireType != 0 { return iNdEx, Some(WrongWireType(fieldNum)); }
        v, iNdEx, err := DecodeVarint(dAtA, iNdEx, TWO64);
        if err.Some? { return; }
        SomeValue := v != 0;
      } else {
        b, iNdEx, err := ReadUnknown(dAtA, preIndex);
        if err.Some? { return; }
        if !discardUnknown { unknownFields := unknownFields + b; }
      }
    }

    method Unmarshal(dAtA: bytes, discardUnknown: bool) returns (err: Option<Error>)
      requires |dAtA| <= MAX_INT
      modifies this
      ensures Outcome(View(), err) == Unmarshalled(old(View()), dAtA, discardUnknown)
    {
      hide Decode, Next, Take;
      var l := |dAtA|;
      var iNdEx := 0;
      assert dAtA[0..] == dAtA;
      while iNdEx < l
        invariant 0 <= iNdEx <= l
        invariant Unmarshalled(old(View()), dAtA, discardUnknown) ==
                  Decode(SCHEMA, Apply, discardUnknown, View(), dAtA[iNdEx..], iNdEx)
        decreases l - iNdEx
      {
        DecodeTurn(SCHEMA, Apply, discardUnknown, View(), dAtA, iNdEx);
        iNdEx, err := UnmarshalRecord(dAtA, iNdEx, discardUnknown);
        if err.Some? { return; }
      }
      DecodeTurn(SCHEMA, Apply, discardUnknown, View(), dAtA, l);
      return None;
    }
  }
}

/** `multisig.v1.MsgUpdateParams`, which carries a `Params`. */
module UpdateParamsCodec {
  import opened Machine
  import opened Varint
  import opened Wire
  import opened Skip
  import opened Format
  import P = ParamsCodec

  type ParamsMessage = Message<P.Fields>

  datatype Fields = Fields(authority: bytes, params: Option<ParamsMessage>)

  const ZERO := Fields([], None)
  const EMPTY: Message<Fields> := Message(ZERO, [])
  const SCHEMA: Schema := map[1 := Slice, 2 := Slice]

  /**
   * The switch. The library call that decodes the nested message may reset it first (`merge` is
   * false) or decode into what an earlier record left (`merge` is true).
   */
  function ApplyOne(discard: bool, merge: bool, x: Fields, r: Record): Outcome<Fields> {
    match r
    case Chunk(f, b) =>
      if f == 1 then Outcome(x.(authority := b), None)
      else if f == 2 then
        var base := if merge && x.params.Some? then x.params.value else P.EMPTY;
        var o := P.Unmarshalled(base, b, discard);
        Outcome(x.(params := Some(o.state)), o.err)
      else Outcome(x, None)
    case _ => Outcome(x, None)
  }

  function Apply(discard: bool, merge: bool): (Fields, Record) -> Outcome<Fields> {
    (x, r) => ApplyOne(discard, merge, x, r)
  }

  function ParamsField(p: Option<ParamsMessage>): seq<Record> {
    if p.Some? then [Chunk(2, P.Marshalled(p.value))] else []
  }

  function Records(x: Fields): (rs: seq<Record>)
    ensures AllDeclared(SCHEMA, rs)
  {
    SliceField(1, x.authority) + ParamsField(x.params)
  }

  /** What `marshal` writes. */
  function Marshalled(m: Message<Fields>): bytes {
    Encode(Records, m)
  }

  /** What `unmarshal` makes of a message and a byte string. */
  function Unmarshalled(merge: bool, x: Message<Fields>, s: bytes, discard: bool): Outcome<Message<Fields>> {
    Decode(SCHEMA, Apply(discard, merge), discard, x, s, 0)
  }

  /** Nested unknown bytes are a run of unknown records. */
  predicate NestedRun(x: Fields) {
    x.params.Some? ==> P.Clean(x.params.value)
  }

  /** The unknown bytes are a run of whole records that the switch does not know, at both levels. */
  predicate Clean(m: Message<Fields>) {
    UnknownRun(SCHEMA, m.unknown) && NestedRun(m.known)
  }

  /** The encoding, field by field. */
  lemma EncodeFields(m: Message<Fields>)
    ensures Marshalled(m) ==
            EmitAll(SliceField(1, m.known.authority)) + (EmitAll(ParamsField(m.known.params)) + m.unknown)
    ensures m.known.params.Some? ==>
              EmitAll(ParamsField(m.known.params)) == Emit(Chunk(2, P.Marshalled(m.known.params.value)))
    ensures m.known.params.Some? ==> |P.Marshalled(m.known.params.value)| <= |Marshalled(m)|
  {
    var x := m.known;
    EmitAllThen(SliceField(1, x.authority), ParamsField(x.params), m.unknown);
    if x.params.Some? {
      var b := P.Marshalled(x.params.value);
      EmitOne(Chunk(2, b));
      EmitChunk(2, b, []);
    }
  }

  lemma ParamsBytes(p: Option<ParamsMessage>)
    ensures EmitAll(ParamsField(p)) ==
            if p.None? then [] else
              var b := (if p.value.known.someValue then [0x10, 1] else []) + p.value.unknown;
              [0x12] + Put(|b|) + b
  {
    EmitNothing();
    if p.Some? {
      P.EncodeFields(p.value);
      EmitOne(Chunk(2, P.Marshalled(p.value)));
      hide Put, EmitAll, Encode;
    }
  }

  /** The encoding, byte by byte; a present `Params` is written even when it is empty. */
  lemma WireFormat(m: Message<Fields>)
    ensures var x := m.known;
            Marshalled(m) ==
            SliceBytes(0x0a, x.authority) +
            ((if x.params.None? then [] else
               var b := (if x.params.value.known.someValue then [0x10, 1] else []) + x.params.value.unknown;
               [0x12] + Put(|b|) + b) + m.unknown)
  {
    hide *;
    var x := m.known;
    EncodeFields(m);
    FieldBytes(1, 0, x.authority);
    ParamsBytes(x.params);
  }

  /** Merging, with the nested message either replaced or itself merged; an absent one changes nothing. */
  function Merge(merge: bool, y: Fields, x: Fields): Fields {
    Fields(
      if x.authority != [] then x.authority else y.authority,
      if x.params.None? then y.params
      else if merge && y.params.Some? then
        var p, q := y.params.value, x.params.value;
        Some(Message(P.Merge(p.known, q.known), p.unknown + q.unknown))
      else x.params)
  }

  lemma FoldParams(merge: bool, y: Fields, x: Fields)
    requires x.params.Some? ==> |P.Marshalled(x.params.value)| <= MAX_INT
    requires NestedRun(x)
    ensures Fold(Apply(false, merge), y, ParamsField(x.params)) ==
            Outcome(y.(params := Merge(merge, y, x).params), None)
  {
    if x.params.Some? {
      ApplyParams(merge, y, x);
      hide ApplyOne, Merge, P.Marshalled;
      FoldOne(Apply(false, merge), y, Chunk(2, P.Marshalled(x.params.value)));
    }
  }

  lemma ApplyParams(merge: bool, y: Fields, x: Fields)
    requires x.params.Some? && |P.Marshalled(x.params.value)| <= MAX_INT
    requires NestedRun(x)
    ensures ApplyOne(false, merge, y, Chunk(2, P.Marshalled(x.params.value))) ==
            Outcome(y.(params := Merge(merge, y, x).params), None)
  {
    var p := x.params.value;
    P.DecodeMerges(if merge && y.params.Some? then y.params.value else P.EMPTY, p);
    P.MergeIntoZero(p.known);
    assert [] + p.unknown == p.unknown;
    hide P.Unmarshalled, P.Marshalled, P.Clean, P.Merge;
  }

  lemma FoldAuthority(discard: bool, merge: bool, y: Fields, x: Fields)
    ensures Fold(Apply(discard, merge), y, SliceField(1, x.authority)) ==
            Outcome(y.(authority := Merge(merge, y, x).authority), None)
  {
  }

  lemma FoldRecords(merge: bool, y: Fields, x: Fields)
    requires x.params.Some? ==> |P.Marshalled(x.params.value)| <= MAX_INT
    requires NestedRun(x)
    ensures Fold(Apply(false, merge), y, Records(x)) == Outcome(Merge(merge, y, x), None)
  {
    hide Fold, Apply, NestedRun;
    var y1 := y.(authority := Merge(merge, y, x).authority);
    FoldAuthority(false, merge, y, x);
    FoldParams(merge, y1, x);
    FoldThen(Apply(false, merge), y, SliceField(1, x.authority), y1, ParamsField(x.params), Merge(merge, y, x));
  }

  /** Only a run of unknown records inside the nested message lets the switch rebuild it. */
  lemma FoldRecordsOnlyIf(merge: bool, x: Fields)
    requires x.params.Some? ==> |P.Marshalled(x.params.value)| <= MAX_INT
    requires Fold(Apply(false, merge), ZERO, Records(x)) == Outcome(x, None)
    ensures NestedRun(x)
  {
    if x.params.Some? {
      hide Decode, UnknownRun, Encode;
      FoldAuthority(false, merge, ZERO, x);
      FoldConcat(Apply(false, merge), ZERO, SliceField(1, x.authority), ParamsField(x.params));
      var y := ZERO.(authority := x.authority);
      assert Fold(Apply(false, merge), y, ParamsField(x.params)) == Outcome(x, None);
      assert Apply(false, merge)(y, ParamsField(x.params)[0]).state.params == x.params;
      P.RoundTrip(x.params.value);
    }
  }

  /**
   * The message survives the wire, an absent `Params` staying distinct from an empty one, exactly
   * when its unknown bytes and those of the nested message are runs of unknown records.
   */
  lemma RoundTrip(merge: bool, m: Message<Fields>)
    requires |Marshalled(m)| <= MAX_INT
    ensures Unmarshalled(merge, EMPTY, Marshalled(m), false) == Outcome(m, None) <==> Clean(m)
  {
    hide Decode, UnknownRun, Encode, Records, NestedRun;
    EncodeFields(m);
    RoundTripIff(SCHEMA, Apply(false, merge), Records, ZERO, m);
    if NestedRun(m.known) {
      FoldRecords(merge, ZERO, m.known);
    } else if Fold(Apply(false, merge), ZERO, Records(m.known)) == Outcome(m.known, None) {
      FoldRecordsOnlyIf(merge, m.known);
    }
  }

  // ----- Normal form -----

  /** What the fields take on the wire. */
  function Size(x: Fields): nat {
    (if |x.authority| > 0 then SliceSize(x.authority) else 0) +
    (if x.params.Some? then SliceSize(P.Marshalled(x.params.value)) else 0)
  }

  lemma SizeExact(m: Message<Fields>)
    ensures Size(m.known) + |m.unknown| == |Marshalled(m)|
  {
    EncodeFields(m);
    SliceFieldSize(1, m.known.authority);
    hide EmitAll, Encode, SliceField, SliceSize, Emit;
    EmitNothing();
    if m.known.params.Some? {
      EmitSize(Chunk(2, P.Marshalled(m.known.params.value)));
    }
  }

  /** `NestedRun`, as far as the nested bytes are few enough for a Go slice. */
  predicate NestedRunIfFits(x: Fields) {
    x.params.Some? && |x.params.value.unknown| <= MAX_INT ==> P.Clean(x.params.value)
  }

  lemma ApplyCost(discard: bool, merge: bool, v: Fields, r: Record)
    requires NestedRunIfFits(v) && |Emit(r)| <= MAX_INT
    requires ApplyOne(discard, merge, v, r).err.None?
    ensures var w := ApplyOne(discard, merge, v, r).state;
            NestedRunIfFits(w) && Size(w) <= Size(v) + |Emit(r)|
  {
    hide Decode, Encode, Emit, UnknownRun, SliceSize;
    EmitSize(r);
    if r.Chunk? && r.field == 2 {
      EmitChunk(2, r.payload, []);
      var base := if merge && v.params.Some? then v.params.value else P.EMPTY;
      P.DecodeGrows(base, r.payload, discard);
      P.EncodeFields(P.EMPTY);
      EmptyRun();
      var p := P.Unmarshalled(base, r.payload, discard).state;
      if merge && v.params.Some? {
        SliceSizeAdd(P.Marshalled(base), r.payload, P.Marshalled(p));
      } else {
        SliceSizeMonotone(P.Marshalled(p), r.payload);
      }
    }
  }

  lemma EmptyRun()
    ensures P.Clean(P.EMPTY)
  {
  }

  lemma SliceSizeMonotone(a: bytes, b: bytes)
    requires |a| <= |b|
    ensures SliceSize(a) <= SliceSize(b)
  {
    SovMonotone(|a|, |b|);
  }

  /**
   * Normal form, whether nested messages are merged or replaced: encoding what was decoded gives no
   * more bytes, and they decode to the same message.
   */
  lemma NormalForm(merge: bool, s: bytes, discard: bool)
    requires |s| <= MAX_INT
    requires Unmarshalled(merge, EMPTY, s, discard).err.None?
    ensures var m := Unmarshalled(merge, EMPTY, s, discard).state;
            |Marshalled(m)| <= |s| && Clean(m) &&
            Unmarshalled(merge, EMPTY, Marshalled(m), false) == Outcome(m, None)
  {
    var apply := Apply(discard, merge);
    var m := Decode(SCHEMA, apply, discard, EMPTY, s, 0).state;
    hide Decode, Encode, Emit, UnknownRun;
    forall v, r | NestedRunIfFits(v) && Declared(SCHEMA, r) && |Emit(r)| <= MAX_INT && apply(v, r).err.None?
      ensures NestedRunIfFits(apply(v, r).state) && Size(apply(v, r).state) <= Size(v) + |Emit(r)|
    {
      ApplyCost(discard, merge, v, r);
    }
    DecodeCost(SCHEMA, apply, discard, NestedRunIfFits, Size, EMPTY, s, 0);
    OuterEmptyRun();
    DecodeKeepsUnknownRun(SCHEMA, apply, discard, EMPTY, s, 0);
    SizeExact(m);
    NestedFits(m);
    RoundTrip(merge, m);
  }

  lemma OuterEmptyRun()
    ensures UnknownRun(SCHEMA, EMPTY.unknown)
  {
  }

  lemma NestedFits(m: Message<Fields>)
    ensures m.known.params.Some? ==> |m.known.params.value.unknown| <= |Marshalled(m)|
  {
    EncodeFields(m);
    if m.known.params.Some? {
      P.EncodeFields(m.known.params.value);
      hide Encode;
    }
  }

  /** Decoding an encoding into a message that is not empty merges. */
  lemma DecodeMerges(merge: bool, y: Message<Fields>, m: Message<Fields>)
    requires Clean(m)
    requires |Marshalled(m)| <= MAX_INT
    ensures Unmarshalled(merge, y, Marshalled(m), false) ==
            Outcome(Message(Merge(merge, y.known, m.known), y.unknown + m.unknown), None)
  {
    hide Decode, UnknownRun, Encode, Records, NestedRun;
    EncodeFields(m);
    FoldRecords(merge, y.known, m.known);
    DecodeEncoded(SCHEMA, Apply(false, merge), Records, y, m, Merge(merge, y.known, m.known));
  }

  /** One record, empty or not, replaces the authority. */
  lemma AuthorityRecord(merge: bool, x: Message<Fields>, b: bytes, discard: bool)
    requires |b| + 11 <= MAX_INT
    ensures Unmarshalled(merge, x, [0x0a] + (Put(|b|) + b), discard) ==
            Outcome(x.(known := x.known.(authority := b)), None)
  {
    hide Decode, Put;
    SliceRecord(SCHEMA, Apply(discard, merge), discard, x, 1, 0x0a, b);
  }

  /**
   * One record of the nested message leaves it with what `Params` makes of the payload, even if that
   * fails, starting from what it held if records are merged and from an empty one otherwise.
   */
  lemma NestedRecord(merge: bool, x: Message<Fields>, b: bytes, discard: bool)
    requires |b| + 11 <= MAX_INT
    ensures var base := if merge && x.known.params.Some? then x.known.params.value else Message(P.Fields(false), []);
            var o := P.Unmarshalled(base, b, discard);
            Unmarshalled(merge, x, [0x12] + (Put(|b|) + b), discard) ==
            Outcome(x.(known := x.known.(params := Some(o.state))), o.err)
  {
    hide Decode, Put;
    SliceRecord(SCHEMA, Apply(discard, merge), discard, x, 2, 0x12, b);
  }

  /** A nested payload must itself be one that `Params` accepts. */
  ghost predicate PayloadOk(f: FieldNum, b: bytes) {
    f == 2 ==> Accepts(P.SCHEMA, AnyPayload, b)
  }

  /**
   * Exactly the sequences of whole fields with allowed tags decode whose nested payloads are such
   * sequences for `Params`.
   */
  lemma {:induction false} AcceptsIff(merge: bool, x: Message<Fields>, s: bytes, discard: bool)
    requires |s| <= MAX_INT
    ensures Unmarshalled(merge, x, s, discard).err.None? <==> Accepts(SCHEMA, PayloadOk, s)
  {
    var apply := Apply(discard, merge);
    forall v: Fields, r: Record | r.Chunk? ==> |r.payload| <= MAX_INT
      ensures apply(v, r).err.None? <==> (r.Chunk? ==> PayloadOk(r.field, r.payload))
    {
      if r.Chunk? && r.field == 2 {
        var base := if merge && v.params.Some? then v.params.value else P.EMPTY;
        P.AcceptsIff(base, r.payload, discard);
      }
    }
    hide Decode, Accepts, ApplyOne;
    DecodeAcceptsIff(SCHEMA, apply, PayloadOk, discard, x, s, 0);
  }

  /** What the format asks of the payloads, beyond what the switch asks. */
  ghost predicate PayloadConforms(f: FieldNum, b: bytes) {
    (f == 1 ==> Utf8(b)) && (f == 2 ==> Conforms(P.SCHEMA, AnyPayload, b))
  }

  /** The authority is a string and the nested message is itself in the format. */
  ghost predicate PayloadRight(f: FieldNum, b: bytes) {
    (f == 1 ==> Utf8(b)) && (f == 2 ==> WellFormed(P.SCHEMA, AnyPayload, b))
  }

  /** Of the strings that decode, exactly those that conform at both levels are in the format. */
  lemma WellFormedIff(merge: bool, x: Message<Fields>, s: bytes, discard: bool)
    requires |s| <= MAX_INT
    ensures Unmarshalled(merge, x, s, discard).err.None? && Conforms(SCHEMA, PayloadConforms, s) <==>
            WellFormed(SCHEMA, PayloadRight, s)
  {
    forall f, b
      ensures PayloadRight(f, b) <==> PayloadOk(f, b) && PayloadConforms(f, b)
    {
      ConformsIff(P.SCHEMA, AnyPayload, AnyPayload, AnyPayload, b);
    }
    hide Decode, Accepts, Conforms, WellFormed;
    AcceptsIff(merge, x, s, discard);
    ConformsIff(SCHEMA, PayloadOk, PayloadConforms, PayloadRight, s);
  }

  /** A nested message in which a tag with the number 2^32 + 2 sets the flag. */
  lemma NestedIllegalNumberAccepted(merge: bool)
    ensures var b := Put(8 * (2 + TWO32)) + [1];
            var s := [0x12] + (Put(|b|) + b);
            Unmarshalled(merge, EMPTY, s, false) ==
            Outcome(Message(ZERO.(params := Some(Message(P.Fields(true), []))), []), None) &&
            !WellFormed(SCHEMA, PayloadRight, s)
  {
    var b := Put(8 * (2 + TWO32)) + [1];
    P.IllegalNumberSetsFlag();
    hide Put, WellFormed, P.Unmarshalled, Unmarshalled;
    NestedRecord(merge, EMPTY, b, false);
    OneChunkWellFormed(SCHEMA, PayloadRight, 2, 0x12, b);
  }

  /** A string field takes bytes that are not UTF-8. */
  lemma InvalidStringAccepted(merge: bool, b: bytes)
    requires !Utf8(b) && |b| + 11 <= MAX_INT
    ensures var s := [0x0a] + (Put(|b|) + b);
            Unmarshalled(merge, EMPTY, s, false) == Outcome(Message(ZERO.(authority := b), []), None) &&
            !WellFormed(SCHEMA, PayloadRight, s)
  {
    hide Put, WellFormed, Unmarshalled;
    AuthorityRecord(merge, EMPTY, b, false);
    OneChunkWellFormed(SCHEMA, PayloadRight, 1, 0x0a, b);
  }

  /** The message without the unknown bytes of its nested message. */
  function Strip(x: Fields): Fields {
    if x.params.Some? then x.(params := Some(x.params.value.(unknown := []))) else x
  }

  /** Discarding unknown records drops them at both levels, and changes nothing else. */
  lemma DiscardKeepsFields(merge: bool, x: Message<Fields>, u: bytes, s: bytes)
    ensures var kept := Unmarshalled(merge, x, s, false);
            Unmarshalled(merge, Message(Strip(x.known), u), s, true) ==
            Outcome(Message(Strip(kept.state.known), u), kept.err)
  {
    var keep, drop := Apply(false, merge), Apply(true, merge);
    forall v, r
      ensures drop(Strip(v), r) == Outcome(Strip(keep(v, r).state), keep(v, r).err)
    {
      ApplyOneDiscards(merge, v, r);
    }
    DiscardIsProjection(SCHEMA, keep, drop, Strip, x, u, s, 0);
  }

  lemma ApplyOneDiscards(merge: bool, v: Fields, r: Record)
    ensures var kept := ApplyOne(false, merge, v, r);
            ApplyOne(true, merge, Strip(v), r) == Outcome(Strip(kept.state), kept.err)
  {
    hide Decode;
    if r.Chunk? && r.field == 2 {
      var base := if merge && v.params.Some? then v.params.value else P.EMPTY;
      DiscardIsProjection(P.SCHEMA, P.Apply, P.Apply, (w: P.Fields) => w, base, [], r.payload, 0);
    }
  }

  // ----- The generated methods -----

  class MsgUpdateParams {
    var Authority: bytes
    var Params: P.Params?
    var unknownFields: bytes

    ghost function View(): Message<Fields>
      reads this, Params
    {
      Message(Fields(Authority, if Params == null then None else Some(Params.View())), unknownFields)
    }

    constructor ()
      ensures View() == EMPTY
    {
      Authority, Params, unknownFields := [], null, [];
    }

    method Size() returns (n: nat)
      ensures n == |Marshalled(View())|
    {
      EncodeFields(View());
      SliceFieldSize(1, Authority);
      hide EmitAll, Encode, Sov, Emit;
      n := 0;
      var l := |Authority|;
      if l > 0 { n := n + 1 + l + Sov(l); }
      if Params != null {
        l := Params.Size();
        EmitSize(Chunk(2, P.Marshalled(Params.View())));
        n := n + 1 + l + Sov(l);
      } else {
        EmitNothing();
      }
      n := n + |unknownFields|;
    }

    method Marshal(buf: bytes) returns (out: bytes)
      requires |Marshalled(View())| <= MAX_INT
      ensures out == buf + Marshalled(View())
    {
      ghost var m := View();
      EncodeFields(m);
      AuthorityBound(m);
      ghost var p := m.known.params;
      ghost var t2 := EmitAll(ParamsField(p)) + unknownFields;
      ghost var t1 := EmitAll(SliceField(1, Authority)) + t2;
      assert Marshalled(m) == t1;
      hide EmitAll, Marshalled, SliceField, ParamsField, P.Marshalled, Emit;
      var size := Size();
      var dAtA := new byte[size](_ => 0);
      var i := WriteBytes(dAtA, size, unknownFields);
      i := MarshalParams(dAtA, i, p);
      assert dAtA[i..] == t2;
      i := WriteSliceField(dAtA, i, 1, Authority);
      assert dAtA[i..] == t1;
      out := buf + dAtA[..];
    }

    /** A present nested message is encoded on its own, then copied; `p` is its value. */
    method MarshalParams(dAtA: array<byte>, end: nat, ghost p: Option<ParamsMessage>) returns (i: nat)
      requires p == if Params == null then None else Some(Params.View())
      requires p.Some? ==> |P.Marshalled(p.value)| <= MAX_INT
      requires |EmitAll(ParamsField(p))| <= end <= dAtA.Length
      modifies dAtA
      ensures i == end - |EmitAll(ParamsField(p))|
      ensures dAtA[i..] == EmitAll(ParamsField(p)) + old(dAtA[end..])
    {
      hide EmitAll, P.Marshalled, Emit;
      EmitNothing();
      i := end;
      if Params != null {
        var encoded := Params.Marshal([]);
        assert encoded == P.Marshalled(p.value);
        EmitOne(Chunk(2, encoded));
        i := WriteSlice(dAtA, i, 2, encoded);
      }
    }

    /** Allocates the nested message if need be, and decodes the slice of its record into it. */
    method UnmarshalParams(b: bytes, discardUnknown: bool, mergeNested: bool) returns (err: Option<Error>)
      requires |b| <= MAX_INT
      modifies this, Params
      ensures Params == old(Params) || fresh(Params)
      ensures unknownFields == old(unknownFields)
      ensures Outcome(View().known, err) == ApplyOne(discardUnknown, mergeNested, old(View().known), Chunk(2, b))
    {
      hide Decode;
      if Params == null { Params := new P.Params(); }
      if !mergeNested { Params.Reset(); }
      err := Params.Unmarshal(b, discardUnknown);
    }

    /** The body of the record loop. */
    method UnmarshalRecord(dAtA: bytes, preIndex: nat, discardUnknown: bool, mergeNested: bool) returns (iNdEx: int,
            err: Option<Error>)
      requires preIndex < |dAtA| <= MAX_INT
      modifies this, Params
      ensures Params == old(Params) || fresh(Params)
      ensures var turn := Next(SCHEMA, dAtA[preIndex..], preIndex);
              Outcome(View(), err) == Take(Apply(discardUnknown, mergeNested), discardUnknown, old(View()), turn) &&
              (err.None? ==> iNdEx == preIndex + turn.n)
    {
      hide NextSlice, NextUnknown, Get, FieldNumber, WireType, Decode;
      var fieldNum, wireType, b;
      fieldNum, wireType, iNdEx, err := ReadTag(dAtA, preIndex);
      if err.Some? { return; }
      if fieldNum == 1 {
        if wireType != 2 { return iNdEx, Some(WrongWireType(fieldNum)); }
        b, iNdEx, err := ReadSlice(dAtA, iNdEx, 1, preIndex);
        if err.Some? { return; }
        Authority := b;
      } else if fieldNum == 2 {
        if wireType != 2 { return iNdEx, Some(WrongWireType(fieldNum)); }
        b, iNdEx, err := ReadSlice(dAtA, iNdEx, 2, preIndex);
        if err.Some? { return; }
        err := UnmarshalParams(b, discardUnknown, mergeNested);
      } else {
        b, iNdEx, err := ReadUnknown(dAtA, preIndex);
        if err.Some? { return; }
        if !discardUnknown { unknownFields := unknownFields + b; }
      }
    }

    /** `mergeNested` is whether the library decodes into the nested message without resetting it. */
    method Unmarshal(dAtA: bytes, discardUnknown: bool, mergeNested: bool) returns (err: Option<Error>)
      requires |dAtA| <= MAX_INT
      modifies this, Params
      ensures Params == old(Params) || fresh(Params)
      ensures Outcome(View(), err) == Unmarshalled(mergeNested, old(View()), dAtA, discardUnknown)
    {
      hide Decode, Next, Take, Apply;
      ghost var apply := Apply(discardUnknown, mergeNested);
      ghost var all := Decode(SCHEMA, apply, discardUnknown, View(), dAtA, 0);
      var l := |dAtA|;
      var iNdEx := 0;
      assert dAtA[0..] == dAtA;
      while iNdEx < l
        invariant 0 <= iNdEx <= l
        invariant Params == old(Params) || fresh(Params)
        invariant all == Decode(SCHEMA, apply, discardUnknown, View(), dAtA[iNdEx..], iNdEx)
        decreases l - iNdEx
      {
        DecodeTurn(SCHEMA, apply, discardUnknown, View(), dAtA, iNdEx);
        iNdEx, err := UnmarshalRecord(dAtA, iNdEx, discardUnknown, mergeNested);
        if err.Some? { return; }
      }
      DecodeTurn(SCHEMA, apply, discardUnknown, View(), dAtA, l);
      return None;
    }
  }

  lemma AuthorityBound(m: Message<Fields>)
    requires |Marshalled(m)| <= MAX_INT
    ensures |m.known.authority| <= MAX_INT
  {
    EncodeFields(m);
    SliceFieldSize(1, m.known.authority);
    hide EmitAll, Encode, Sov;
  }
}
