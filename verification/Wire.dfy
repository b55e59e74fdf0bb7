/**
 * The record loop shared by every generated `unmarshal`, with the switch of the message abstracted
 * as a table of its fields, and the records that `marshal` writes.
 */
module Wire {
  import opened Machine
  import opened Varint
  import opened Skip

  // ----- Records -----

  /**
   * What the switch does with a field: accumulate a varint in the field itself, read a varint into
   * a local variable first, or take a length-delimited slice.
   */
  datatype Kind = InPlace | Local | Slice

  /** Field numbers whose tag is one byte long, as in all the messages here. */
  type FieldNum = f: int | 0 < f < 16 witness 1

  type Schema = map<FieldNum, Kind>

  datatype Record =
    | Scalar(field: FieldNum, bits: uint64)
    | Chunk(field: FieldNum, payload: bytes)
    | Unknown(raw: bytes)

  /**
   * One turn of the loop: a record and its length, or an error. An error inside an in-place varint
   * leaves the groups read so far in the field, as a torn record.
   */
  datatype Turn = Got(rec: Record, n: nat) | Bad(err: Error, torn: Option<Record>)

  function FieldNumber(wire: nat): int32 {
    ToInt32(Low32(Low64(wire) / 8))
  }

  /** A slice whose length varint starts `s`; `head` bytes of the record precede it, `pos` its start. */
  function NextSlice(field: FieldNum, s: bytes, head: nat, pos: nat): (r: Turn)
    ensures r.Got? ==> head < r.n <= head + |s|
    ensures r.Bad? ==> r.torn == None
  {
    var v := Get(s, 0);
    if v.err.Some? then Bad(v.err.value, None) else
    var length := ToInt64(Low64(v.value));
    if length < 0 then Bad(InvalidLength, None) else
    var postIndex := ToInt64(pos + head + v.n + length);
    if postIndex < 0 then Bad(InvalidLength, None)
    else if length > |s| - v.n then Bad(UnexpectedEOF, None)
    else Got(Chunk(field, s[v.n..v.n + length]), head + v.n + length)
  }

  function NextScalar(field: FieldNum, inPlace: bool, s: bytes, head: nat): (r: Turn)
    ensures r.Got? ==> head < r.n <= head + |s|
  {
    var v := Get(s, 0);
    var rec := Scalar(field, Low64(v.value));
    if v.err.Some? then Bad(v.err.value, if inPlace then Some(rec) else None)
    else Got(rec, head + v.n)
  }

  /** The default case: rewind to the tag and skip the field. */
  function NextUnknown(s: bytes, pos: nat): (r: Turn)
    ensures r.Got? ==> 0 < r.n <= |s|
    ensures r.Bad? ==> r.torn == None
  {
    match Run(s, 0, 0)
    case Stuck(e) => Bad(e, None)
    case Skipped(skippy) =>
      if ToInt64(pos + skippy) < 0 then Bad(InvalidLength, None)
      else if skippy > |s| then Bad(UnexpectedEOF, None)
      else Got(Unknown(s[..skippy]), skippy)
  }

  /** One turn of the loop on the bytes `s` still to be read, which start at index `pos`. */
  function Next(schema: Schema, s: bytes, pos: nat): (r: Turn)
    ensures r.Got? ==> 0 < r.n <= |s|
  {
    var tag := Get(s, 0);
    if tag.err.Some? then Bad(tag.err.value, None) else
    var fieldNum, wireType := FieldNumber(tag.value), WireType(tag.value);
    if wireType == 4 then Bad(EndGroupForNonGroup, None)
    else if fieldNum <= 0 then Bad(IllegalTag, None)
    else if fieldNum !in schema then NextUnknown(s, pos)
    else if schema[fieldNum] == Slice then
      if wireType != 2 then Bad(WrongWireType(fieldNum), None) else NextSlice(fieldNum, s[tag.n..], tag.n, pos)
    else
      if wireType != 0 then Bad(WrongWireType(fieldNum), None)
      else NextScalar(fieldNum, schema[fieldNum] == InPlace, s[tag.n..], tag.n)
  }

  // ----- The loop -----

  /** A message: its declared fields, and the records it was decoded from but does not know. */
  datatype Message<V> = Message(known: V, unknown: bytes)

  /** What a decoder leaves behind, and its error if it has one. */
  datatype Outcome<V> = Outcome(state: V, err: Option<Error>)

  /** What a turn does to a message; `apply` is what the switch does to the declared fields. */
  function Take<V>(apply: (V, Record) -> Outcome<V>, discard: bool, x: Message<V>, turn: Turn): (o: Outcome<Message<V>>)
    ensures o.err.None? ==> turn.Got?
  {
    match turn
    case Bad(e, torn) =>
      Outcome(if torn.Some? then x.(known := apply(x.known, torn.value).state) else x, Some(e))
    case Got(Unknown(raw), _) => Outcome(if discard then x else x.(unknown := x.unknown + raw), None)
    case Got(rec, _) =>
      var o := apply(x.known, rec);
      Outcome(x.(known := o.state), o.err)
  }

  /** The loop of `unmarshal`. */
  function Decode<V>(schema: Schema, apply: (V, Record) -> Outcome<V>, discard: bool, x: Message<V>, s: bytes,
          pos: nat): Outcome<Message<V>>
    decreases |s|
  {
    if s == [] then Outcome(x, None) else
    var turn := Next(schema, s, pos);
    var o := Take(apply, discard, x, turn);
    if o.err.Some? then o else Decode(schema, apply, discard, o.state, s[turn.n..], pos + turn.n)
  }

  /** One turn of the loop, at an index of the buffer. */
  lemma DecodeTurn<V>(schema: Schema, apply: (V, Record) -> Outcome<V>, discard: bool, x: Message<V>, dAtA: bytes,
          iNdEx: nat)
    requires iNdEx <= |dAtA|
    ensures Decode(schema, apply, discard, x, dAtA[iNdEx..], iNdEx) ==
            if iNdEx == |dAtA| then Outcome(x, None) else
            var turn := Next(schema, dAtA[iNdEx..], iNdEx);
            var o := Take(apply, discard, x, turn);
            if o.err.Some? then o else Decode(schema, apply, discard, o.state, dAtA[iNdEx + turn.n..], iNdEx + turn.n)
  {
    hide Next, Take;
    var turn := Next(schema, dAtA[iNdEx..], iNdEx);
    if turn.Got? {
      assert dAtA[iNdEx..][turn.n..] == dAtA[iNdEx + turn.n..];
    }
  }

  // ----- Locality -----

  lemma NextSliceLocal(field: FieldNum, s: bytes, t: bytes, head: nat, pos: nat, pos': nat)
    requires var r := NextSlice(field, s, head, pos);
             r.Got? && r.n - head <= |t| && t[..r.n - head] == s[..r.n - head]
    requires pos' + head + |t| <= MAX_INT
    ensures NextSlice(field, t, head, pos') == NextSlice(field, s, head, pos)
  {
    hide Get, ToInt64, Low64;
    var n := NextSlice(field, s, head, pos).n - head;
    var v := Get(s, 0);
    Window(s, t, v.n, n);
    GetLocal(s, t, 0);
    assert s[v.n..n] == s[v.n..][..n - v.n] && t[v.n..n] == t[v.n..][..n - v.n];
  }

  lemma NextScalarLocal(field: FieldNum, inPlace: bool, s: bytes, t: bytes, head: nat)
    requires var r := NextScalar(field, inPlace, s, head);
             r.Got? && r.n - head <= |t| && t[..r.n - head] == s[..r.n - head]
    ensures NextScalar(field, inPlace, t, head) == NextScalar(field, inPlace, s, head)
  {
    hide Get, Low64;
    GetLocal(s, t, 0);
  }

  lemma NextUnknownLocal(s: bytes, t: bytes, pos: nat, pos': nat)
    requires var r := NextUnknown(s, pos);
             r.Got? && r.n <= |t| && t[..r.n] == s[..r.n]
    requires |s| <= MAX_INT && pos' + |t| <= MAX_INT
    ensures NextUnknown(t, pos') == NextUnknown(s, pos)
  {
    hide Run, ToInt64;
    RunLocal(s, t, 0, 0, 0);
  }

  /** A turn that yields a record depends on the bytes of the record only. */
  lemma NextLocal(schema: Schema, s: bytes, t: bytes, pos: nat, pos': nat)
    requires var r := Next(schema, s, pos);
             r.Got? && r.n <= |t| && t[..r.n] == s[..r.n]
    requires pos + |s| <= MAX_INT && pos' + |t| <= MAX_INT
    ensures Next(schema, t, pos') == Next(schema, s, pos)
  {
    hide Get, NextSlice, NextScalar, NextUnknown, FieldNumber, WireType;
    var n := Next(schema, s, pos).n;
    var tag := Get(s, 0);
    var fieldNum := FieldNumber(tag.value);
    if fieldNum !in schema {
      NextUnknownTag(s, pos);
      Window(s, t, tag.n, n);
      GetLocal(s, t, 0);
      NextUnknownLocal(s, t, pos, pos');
    } else {
      Window(s, t, tag.n, n);
      GetLocal(s, t, 0);
      var a, b := s[tag.n..], t[tag.n..];
      if schema[fieldNum] == Slice {
        NextSliceLocal(fieldNum, a, b, tag.n, pos, pos');
      } else {
        NextScalarLocal(fieldNum, schema[fieldNum] == InPlace, a, b, tag.n);
      }
    }
  }

  /** A skipped field includes its tag. */
  lemma NextUnknownTag(s: bytes, pos: nat)
    requires NextUnknown(s, pos).Got?
    ensures Get(s, 0).err.None? && Get(s, 0).n <= NextUnknown(s, pos).n
  {
    hide Get, ToInt64, Low64, WireType;
  }

  // ----- What depends on the position -----

  /** The two errors between which the position of a truncated record decides. */
  predicate SameError(e: Error, e': Error) {
    e == e' || (e in {InvalidLength, UnexpectedEOF} && e' in {InvalidLength, UnexpectedEOF})
  }

  /** The end that a length, `head` bytes into its record, claims beyond the bytes there are. */
  function SliceEnd(s: bytes, head: nat): Option<nat> {
    var v := Get(s, 0);
    var length := ToInt64(Low64(v.value));
    if v.err.None? && length > |s| - v.n then Some(head + v.n + length) else None
  }

  /** The same for an unknown record. */
  function UnknownEnd(s: bytes): Option<nat> {
    var r := Run(s, 0, 0);
    if r.Skipped? && r.end > |s| then Some(r.end) else None
  }

  /** The end that the record at the head of `s` claims, if `s` is too short for it. */
  function ClaimedEnd(schema: Schema, s: bytes): Option<nat> {
    var tag := Get(s, 0);
    var fieldNum, wireType := FieldNumber(tag.value), WireType(tag.value);
    if tag.err.Some? || wireType == 4 || fieldNum <= 0 then None
    else if fieldNum !in schema then UnknownEnd(s)
    else if schema[fieldNum] == Slice && wireType == 2 then SliceEnd(s[tag.n..], tag.n)
    else None
  }

  lemma NextSliceShift(field: FieldNum, s: bytes, head: nat, pos: nat, pos': nat)
    requires pos + head + |s| <= MAX_INT && pos' + head + |s| <= MAX_INT
    ensures match SliceEnd(s, head)
            case Some(end) =>
              NextSlice(field, s, head, pos) == Bad(if pos + end > MAX_INT then InvalidLength else UnexpectedEOF, None)
            case None => NextSlice(field, s, head, pos) == NextSlice(field, s, head, pos')
  {
    hide Get, ToInt64, Low64;
  }

  lemma NextUnknownShift(s: bytes, pos: nat, pos': nat)
    requires pos + |s| <= MAX_INT && pos' + |s| <= MAX_INT
    ensures match UnknownEnd(s)
            case Some(end) =>
              NextUnknown(s, pos) == Bad(if pos + end > MAX_INT then InvalidLength else UnexpectedEOF, None)
            case None => NextUnknown(s, pos) == NextUnknown(s, pos')
  {
    hide Run, ToInt64;
    RunBound(s, 0, 0);
  }

  /** A record that claims to end beyond the buffer has an invalid length iff its end index wraps around. */
  lemma PositionDecidesError(schema: Schema, s: bytes, pos: nat, pos': nat)
    requires pos + |s| <= MAX_INT && pos' + |s| <= MAX_INT
    ensures match ClaimedEnd(schema, s)
            case Some(end) =>
              Next(schema, s, pos) == Bad(if pos + end > MAX_INT then InvalidLength else UnexpectedEOF, None)
            case None => Next(schema, s, pos) == Next(schema, s, pos')
  {
    hide Get, FieldNumber, WireType, NextSlice, NextUnknown, NextScalar, SliceEnd, UnknownEnd;
    var tag := Get(s, 0);
    var fieldNum := FieldNumber(tag.value);
    NextUnknownShift(s, pos, pos');
    if fieldNum in schema {
      NextSliceShift(fieldNum, s[tag.n..], tag.n, pos, pos');
    }
  }

  /** Two positions lie on the same side of the wrap-around. */
  predicate SameSide(end: Option<nat>, pos: nat, pos': nat) {
    end.Some? ==> (pos + end.value > MAX_INT <==> pos' + end.value > MAX_INT)
  }

  predicate SameTurn(a: Turn, b: Turn) {
    if a.Got? then a == b else b.Bad? && a.torn == b.torn && SameError(a.err, b.err)
  }

  /** What two positions share, and when they share the error too. */
  lemma NextShift(schema: Schema, s: bytes, pos: nat, pos': nat)
    requires pos + |s| <= MAX_INT && pos' + |s| <= MAX_INT
    ensures SameTurn(Next(schema, s, pos), Next(schema, s, pos'))
    ensures Next(schema, s, pos) == Next(schema, s, pos') <==> SameSide(ClaimedEnd(schema, s), pos, pos')
    ensures ClaimedEnd(schema, s).Some? ==> Next(schema, s, pos).Bad?
  {
    hide Next, ClaimedEnd;
    PositionDecidesError(schema, s, pos, pos');
    PositionDecidesError(schema, s, pos', pos);
  }

  // ----- Errors -----

  /** The error of a turn, from what is wrong with the record; for lengths see also `PositionDecidesError`. */
  lemma NextErrors(schema: Schema, s: bytes, pos: nat)
    requires pos + |s| <= MAX_INT
    ensures var tag, r := Get(s, 0), Next(schema, s, pos);
            if tag.err.Some? then r == Bad(tag.err.value, None) else
            var fieldNum, wireType, v := FieldNumber(tag.value), WireType(tag.value), Get(s[tag.n..], 0);
            if wireType == 4 then r == Bad(EndGroupForNonGroup, None)
            else if fieldNum <= 0 then r == Bad(IllegalTag, None)
            else if fieldNum in schema then
              var slice := schema[fieldNum] == Slice;
              && (wireType != (if slice then 2 else 0) ==> r == Bad(WrongWireType(fieldNum), None))
              && (wireType == (if slice then 2 else 0) && v.err.Some? ==>
                    r.Bad? && r.err == v.err.value && (r.torn.Some? <==> schema[fieldNum] == InPlace))
              && (slice && wireType == 2 && v.err.None? && Low64(v.value) >= TWO63 ==> r == Bad(InvalidLength, None))
            else Run(s, 0, 0).Stuck? ==> r == Bad(Run(s, 0, 0).err, None)
  {
    hide Get, FieldNumber, WireType, Low64, Run;
  }

  /** A record that fails leaves the message as it was, unless it is a varint accumulated in its field. */
  lemma FailureKeeps<V>(schema: Schema, apply: (V, Record) -> Outcome<V>, discard: bool, x: Message<V>, s: bytes,
          pos: nat)
    requires s != [] && pos + |s| <= MAX_INT && Next(schema, s, pos).Bad?
    ensures var o, fieldNum := Decode(schema, apply, discard, x, s, pos), FieldNumber(Get(s, 0).value);
            && o.err == Some(Next(schema, s, pos).err)
            && o.state.unknown == x.unknown
            && (o.state == x || (fieldNum in schema && schema[fieldNum] == InPlace && WireType(Get(s, 0).value) == 0))
  {
    hide Get, FieldNumber, WireType, Low64, NextUnknown, NextSlice;
  }

  // ----- Which strings are accepted -----

  /** What the loop asks of a tag: a positive field number and, for a declared field, its wire type. */
  predicate TagAllowed(schema: Schema, s: bytes) {
    var tag := Get(s, 0);
    var fieldNum, wireType := FieldNumber(tag.value), WireType(tag.value);
    fieldNum > 0 && (fieldNum in schema ==> wireType == if schema[fieldNum] == Slice then 2 else 0)
  }

  /** Of the field at the head of `s`, the bytes after its length. */
  ghost function Payload(s: bytes): bytes {
    var body := s[Get(s, 0).n..];
    var v := Get(body, 0);
    if v.n + Low64(v.value) <= |body| then body[v.n..v.n + Low64(v.value)] else []
  }

  /** Whether the tag at the head of `s` is that of a declared length-delimited field. */
  predicate TagOfSlice(schema: Schema, s: bytes) {
    var fieldNum := FieldNumber(Get(s, 0).value);
    fieldNum in schema && schema[fieldNum] == Slice
  }

  /** A sequence of whole fields with allowed tags and, in declared fields, payloads of which `ok` holds. */
  ghost predicate Accepts(schema: Schema, ok: (FieldNum, bytes) -> bool, s: bytes)
    decreases |s|
  {
    s == [] ||
    (&& TagAllowed(schema, s)
     && Field(s).Some?
     && (TagOfSlice(schema, s) ==> ok(FieldNumber(Get(s, 0).value), Payload(s)))
     && Accepts(schema, ok, s[Field(s).value..]))
  }

  /** For switches that take every payload. */
  predicate AnyPayload(f: FieldNum, b: bytes) {
    true
  }

  lemma NextSliceIff(field: FieldNum, s: bytes, head: nat, pos: nat)
    requires pos + head + |s| <= MAX_INT
    ensures var v, r := Get(s, 0), NextSlice(field, s, head, pos);
            if v.err.None? && v.n + Low64(v.value) <= |s|
            then r == Got(Chunk(field, s[v.n..v.n + Low64(v.value)]), head + v.n + Low64(v.value))
            else r.Bad?
  {
    hide Get, ToInt64, Low64;
  }

  /** A turn yields a record exactly when a whole field with an allowed tag is next. */
  lemma NextIff(schema: Schema, s: bytes, pos: nat)
    requires pos + |s| <= MAX_INT
    ensures var f, r := Field(s), Next(schema, s, pos);
            if TagAllowed(schema, s) && f.Some? then r.Got? && r.n == f.value else r.Bad?
  {
    hide Get, FieldNumber, WireType, ToInt64, Low64, Run, NextSlice, Group;
    var tag := Get(s, 0);
    if tag.err.None? {
      var fieldNum := FieldNumber(tag.value);
      if fieldNum !in schema {
        if NextUnknown(s, pos).Got? {
          SkipIsField(s, NextUnknown(s, pos).n);
        }
        if Field(s).Some? {
          SkipIsField(s, Field(s).value);
        }
      } else if schema[fieldNum] == Slice {
        NextSliceIff(fieldNum, s[tag.n..], tag.n, pos);
      }
    }
  }

  /** Which record it is. */
  lemma NextPayload(schema: Schema, s: bytes, pos: nat)
    requires pos + |s| <= MAX_INT && Next(schema, s, pos).Got?
    ensures var r := Next(schema, s, pos).rec;
            if TagOfSlice(schema, s) then r == Chunk(FieldNumber(Get(s, 0).value), Payload(s)) else !r.Chunk?
  {
    hide Get, FieldNumber, WireType, ToInt64, Low64, Run, NextSlice;
    if TagOfSlice(schema, s) {
      var tag := Get(s, 0);
      NextSliceIff(FieldNumber(tag.value), s[tag.n..], tag.n, pos);
    }
  }

  /**
   * If the switch fails only on payloads of which `ok` does not hold, the loop accepts exactly the
   * sequences of whole fields with allowed tags and such payloads.
   */
  lemma {:induction false} DecodeAcceptsIff<V(!new)>(schema: Schema, apply: (V, Record) -> Outcome<V>,
          ok: (FieldNum, bytes) -> bool, discard: bool, x: Message<V>, s: bytes, pos: nat)
    requires forall v: V, r: Record :: (r.Chunk? ==> |r.payload| <= MAX_INT) ==>
               (apply(v, r).err.None? <==> (r.Chunk? ==> ok(r.field, r.payload)))
    requires pos + |s| <= MAX_INT
    ensures Decode(schema, apply, discard, x, s, pos).err.None? <==> Accepts(schema, ok, s)
    decreases |s|
  {
    hide Next, TagAllowed, TagOfSlice, Field, Payload, FieldNumber, Get;
    if s != [] {
      NextIff(schema, s, pos);
      var turn := Next(schema, s, pos);
      if turn.Got? {
        NextPayload(schema, s, pos);
        PayloadShorter(s);
        var o := Take(apply, discard, x, turn);
        if o.err.None? {
          DecodeAcceptsIff(schema, apply, ok, discard, o.state, s[turn.n..], pos + turn.n);
        }
      }
    }
  }

  lemma PayloadShorter(s: bytes)
    ensures |Payload(s)| <= |s|
  {
    hide Get, Low64;
  }

  // ----- The number in a tag -----

  /** The number as it is written, before the varint is cut to 64 bits and the number to 32. */
  function TagNumber(wire: nat): nat {
    wire / 8
  }

  /** The conversion keeps a number modulo 2^32. */
  lemma FieldNumberIff(wire: nat, f: int32)
    ensures FieldNumber(wire) == f <==> TagNumber(wire) % TWO32 == f % TWO32
  {
    CutTwice(wire);
    hide Low64, TagNumber;
  }

  lemma CutTwice(wire: nat)
    ensures Low32(Low64(wire) / 8) == TagNumber(wire) % TWO32
    ensures Low64(wire) / 8 <= TagNumber(wire)
  {
    var q, r := wire / TWO64, wire % TWO64;
    assert wire / 8 == TWO32 * (0x2000_0000 * q) + r / 8;
    AddMultiple(0x2000_0000 * q, r / 8);
  }

  lemma AddMultiple(m: nat, t: nat)
    ensures (TWO32 * m + t) % TWO32 == t % TWO32
  {
  }

  /** It is the number as written exactly below 2^31, and positive exactly if the low 32 bits are. */
  lemma FieldNumberKept(wire: nat)
    ensures FieldNumber(wire) == TagNumber(wire) <==> TagNumber(wire) < TWO31
    ensures FieldNumber(wire) > 0 <==> 0 < TagNumber(wire) % TWO32 < TWO31
  {
    CutTwice(wire);
    hide Low64, TagNumber;
  }

  /** Two tags name the same field exactly when their numbers differ by a multiple of 2^32. */
  lemma FieldNumberWraps(wire: nat, wire': nat)
    ensures FieldNumber(wire) == FieldNumber(wire') <==> TagNumber(wire) % TWO32 == TagNumber(wire') % TWO32
  {
    hide TagNumber, FieldNumber;
    FieldNumberIff(wire, FieldNumber(wire'));
    FieldNumberIff(wire', FieldNumber(wire'));
  }

  /** The field numbers of Protocol Buffers. */
  predicate LegalNumber(n: nat) {
    0 < n < 0x2000_0000
  }

  /**
   * In the tag of a record, the loop lets every legal number pass. Of the others it lets pass exactly
   * those from 2^29 up whose low 32 bits are a positive `int32`.
   */
  lemma IllegalNumbers(wire: nat)
    ensures var n := TagNumber(wire);
            && (LegalNumber(n) ==> FieldNumber(wire) == n)
            && (!LegalNumber(n) && FieldNumber(wire) > 0 <==> n >= 0x2000_0000 && 0 < n % TWO32 < TWO31)
  {
    hide TagNumber, FieldNumber;
    FieldNumberKept(wire);
  }

  /** What it does with a tag, by the number as written, legal or not. */
  lemma TagDecides(schema: Schema, s: bytes, pos: nat)
    requires pos + |s| <= MAX_INT
    requires Get(s, 0).err.None? && WireType(Get(s, 0).value) != 4
    ensures var tag := Get(s, 0);
            var low := TagNumber(tag.value) % TWO32;
            var turn := Next(schema, s, pos);
            if low == 0 || low >= TWO31 then turn == Bad(IllegalTag, None)
            else if low !in schema then turn == NextUnknown(s, pos)
            else
              var canonical := Next(schema, [8 * low + WireType(tag.value)] + s[tag.n..], pos);
              if turn.Got? then canonical == Got(turn.rec, turn.n - tag.n + 1) && !turn.rec.Unknown? else canonical.Bad?
  {
    hide Get, TagNumber, FieldNumber, WireType, NextSlice, NextUnknown, Low64;
    var tag := Get(s, 0);
    var low := TagNumber(tag.value) % TWO32;
    FieldNumberKept(tag.value);
    if 0 < low < TWO31 {
      FieldNumberIff(tag.value, low);
      if low in schema {
        var body := s[tag.n..];
        TagOf(low, WireType(tag.value), body);
        NextSliceIff(low, body, tag.n, pos);
        NextSliceIff(low, body, 1, pos);
      }
    }
  }

  // ----- Concatenation is merge -----

  predicate SameOutcome<V(==)>(a: Outcome<V>, b: Outcome<V>) {
    a.state == b.state && (a.err.None? <==> b.err.None?) && (a.err.Some? ==> SameError(a.err.value, b.err.value))
  }

  /** The end that the last record claims, if decoding stops there because `s` is too short for it. */
  ghost function Overrun<V>(schema: Schema, apply: (V, Record) -> Outcome<V>, discard: bool, x: Message<V>,
          s: bytes): Option<nat>
    decreases |s|
  {
    if s == [] then None else
    var turn := Next(schema, s, 0);
    var o := Take(apply, discard, x, turn);
    if turn.Bad? then ClaimedEnd(schema, s)
    else if o.err.Some? then None
    else
      match Overrun(schema, apply, discard, o.state, s[turn.n..])
      case Some(end) => Some(turn.n + end)
      case None => None
  }

  /** Decoding at two positions: the same state, and the same error unless a length wraps around at one of them. */
  lemma {:induction false} DecodeShift<V>(schema: Schema, apply: (V, Record) -> Outcome<V>, discard: bool,
          x: Message<V>, s: bytes, pos: nat, pos': nat)
    requires pos + |s| <= MAX_INT && pos' + |s| <= MAX_INT
    ensures var a, b := Decode(schema, apply, discard, x, s, pos), Decode(schema, apply, discard, x, s, pos');
            SameOutcome(a, b) && (a == b <==> SameSide(Overrun(schema, apply, discard, x, s), pos, pos'))
    decreases |s|
  {
    hide Next, ClaimedEnd;
    if s != [] {
      NextShift(schema, s, pos, pos');
      NextShift(schema, s, pos, 0);
      var turn := Next(schema, s, pos);
      var o := Take(apply, discard, x, turn);
      if o.err.None? {
        hide Take;
        DecodeShift(schema, apply, discard, o.state, s[turn.n..], pos + turn.n, pos' + turn.n);
      }
    }
  }

  lemma {:induction false} DecodeAppend<V>(schema: Schema, apply: (V, Record) -> Outcome<V>, discard: bool,
          x: Message<V>, a: bytes, b: bytes, pos: nat)
    requires Decode(schema, apply, discard, x, a, pos).err.None?
    requires pos + |a| + |b| <= MAX_INT
    ensures Decode(schema, apply, discard, x, a + b, pos) ==
            Decode(schema, apply, discard, Decode(schema, apply, discard, x, a, pos).state, b, pos + |a|)
    decreases |a|
  {
    hide Next, Take;
    if a == [] {
      assert a + b == b;
    } else {
      var turn := Next(schema, a, pos);
      var n := turn.n;
      assert (a + b)[..n] == a[..n];
      assert (a + b)[n..] == a[n..] + b;
      NextLocal(schema, a, a + b, pos, pos);
      DecodeAppend(schema, apply, discard, Take(apply, discard, x, turn).state, a[n..], b, pos + n);
    }
  }

  /**
   * If `a` decodes into `x` giving `y`, decoding `a + b` into `x` does what decoding `b` into `y`
   * does, success or failure, down to the state a failure leaves.
   */
  lemma ConcatenationIsMerge<V>(schema: Schema, apply: (V, Record) -> Outcome<V>, discard: bool,
          x: Message<V>, y: Message<V>, a: bytes, b: bytes)
    requires Decode(schema, apply, discard, x, a, 0) == Outcome(y, None)
    requires |a| + |b| <= MAX_INT
    ensures SameOutcome(Decode(schema, apply, discard, x, a + b, 0), Decode(schema, apply, discard, y, b, 0))
  {
    hide Decode, Next, Overrun;
    DecodeAppend(schema, apply, discard, x, a, b, 0);
    DecodeShift(schema, apply, discard, y, b, |a|, 0);
  }

  /** The error is the same too, unless the end that the last record claims wraps around in one place only. */
  lemma ConcatenationError<V>(schema: Schema, apply: (V, Record) -> Outcome<V>, discard: bool,
          x: Message<V>, y: Message<V>, a: bytes, b: bytes)
    requires Decode(schema, apply, discard, x, a, 0) == Outcome(y, None)
    requires |a| + |b| <= MAX_INT
    ensures Decode(schema, apply, discard, x, a + b, 0) == Decode(schema, apply, discard, y, b, 0) <==>
            SameSide(Overrun(schema, apply, discard, y, b), |a|, 0)
  {
    hide Decode, Next, Overrun;
    DecodeAppend(schema, apply, discard, x, a, b, 0);
    DecodeShift(schema, apply, discard, y, b, |a|, 0);
  }

  // ----- Unknown records -----

  /** A run of whole records, each of which the switch sends to its default case. */
  predicate UnknownRun(schema: Schema, u: bytes)
    decreases |u|
  {
    u == [] ||
    var turn := Next(schema, u, 0);
    turn.Got? && turn.rec.Unknown? && UnknownRun(schema, u[turn.n..])
  }

  /** An unknown record is preserved byte for byte. */
  lemma UnknownIsRaw(schema: Schema, s: bytes, pos: nat)
    requires Next(schema, s, pos).Got?
    ensures Next(schema, s, pos).rec.Unknown? ==> Next(schema, s, pos).rec.raw == s[..Next(schema, s, pos).n]
    ensures !Next(schema, s, pos).rec.Unknown? ==> Next(schema, s, pos).rec.field in schema
  {
    hide Get, FieldNumber, WireType, Run, ToInt64, Low64;
  }

  lemma {:induction false} UnknownRunAppend(schema: Schema, u: bytes, s: bytes, pos: nat)
    requires UnknownRun(schema, u)
    requires Next(schema, s, pos).Got? && Next(schema, s, pos).rec.Unknown?
    requires pos + |s| <= MAX_INT && |u| + Next(schema, s, pos).n <= MAX_INT
    ensures UnknownRun(schema, u + s[..Next(schema, s, pos).n])
    decreases |u|
  {
    hide Next;
    var raw := s[..Next(schema, s, pos).n];
    if u == [] {
      NextLocal(schema, s, raw, pos, 0);
      assert u + raw == raw && raw[|raw|..] == [];
    } else {
      var n := Next(schema, u, 0).n;
      assert (u + raw)[..n] == u[..n];
      assert (u + raw)[n..] == u[n..] + raw;
      NextLocal(schema, u, u + raw, 0, 0);
      UnknownRunAppend(schema, u[n..], s, pos);
    }
  }

  lemma {:induction false} DecodeUnknownGrows<V>(schema: Schema, apply: (V, Record) -> Outcome<V>, discard: bool,
          x: Message<V>, s: bytes, pos: nat)
    ensures |x.unknown| <= |Decode(schema, apply, discard, x, s, pos).state.unknown|
    decreases |s|
  {
    hide Next;
    if s != [] {
      var turn := Next(schema, s, pos);
      var o := Take(apply, discard, x, turn);
      if o.err.None? {
        DecodeUnknownGrows(schema, apply, discard, o.state, s[turn.n..], pos + turn.n);
      }
    }
  }

  /** Decoding keeps `unknownFields` a run of unknown records, on failure too. */
  lemma {:induction false} DecodeKeepsUnknownRun<V>(schema: Schema, apply: (V, Record) -> Outcome<V>, discard: bool,
          x: Message<V>, s: bytes, pos: nat)
    requires UnknownRun(schema, x.unknown)
    requires pos + |s| <= MAX_INT && |Decode(schema, apply, discard, x, s, pos).state.unknown| <= MAX_INT
    ensures UnknownRun(schema, Decode(schema, apply, discard, x, s, pos).state.unknown)
    decreases |s|
  {
    hide Next, UnknownRun;
    if s != [] {
      var turn := Next(schema, s, pos);
      var o := Take(apply, discard, x, turn);
      if o.err.None? {
        DecodeUnknownGrows(schema, apply, discard, o.state, s[turn.n..], pos + turn.n);
        if turn.rec.Unknown? && !discard {
          UnknownIsRaw(schema, s, pos);
          UnknownRunAppend(schema, x.unknown, s, pos);
        }
        hide Take;
        DecodeKeepsUnknownRun(schema, apply, discard, o.state, s[turn.n..], pos + turn.n);
      }
    }
  }

  /** A run of unknown records decodes to itself. */
  lemma {:induction false} DecodeUnknownRun<V>(schema: Schema, apply: (V, Record) -> Outcome<V>, discard: bool,
          x: Message<V>, u: bytes, pos: nat)
    requires UnknownRun(schema, u)
    requires pos + |u| <= MAX_INT
    ensures Decode(schema, apply, discard, x, u, pos) ==
            Outcome(if discard then x else x.(unknown := x.unknown + u), None)
    decreases |u|
  {
    hide Next;
    if u == [] {
      assert x.unknown + u == x.unknown;
    } else {
      var turn := Next(schema, u, 0);
      NextLocal(schema, u, u, 0, pos);
      UnknownIsRaw(schema, u, 0);
      var x' := if discard then x else x.(unknown := x.unknown + turn.rec.raw);
      DecodeUnknownRun(schema, apply, discard, x', u[turn.n..], pos + turn.n);
      assert u == turn.rec.raw + u[turn.n..];
      assert x.unknown + u == x.unknown + turn.rec.raw + u[turn.n..];
    }
  }

  /** `unknownFields` grows by no more than the input, and by all of it only on a run of unknown records. */
  lemma {:induction false} DecodeUnknownGrowth<V>(schema: Schema, apply: (V, Record) -> Outcome<V>, x: Message<V>,
          s: bytes, pos: nat)
    requires pos + |s| <= MAX_INT
    ensures var o := Decode(schema, apply, false, x, s, pos);
            |o.state.unknown| <= |x.unknown| + |s| &&
            (o.err.None? && |o.state.unknown| == |x.unknown| + |s| ==> UnknownRun(schema, s))
    decreases |s|
  {
    hide Next;
    if s != [] {
      var turn := Next(schema, s, pos);
      var o := Take(apply, false, x, turn);
      if o.err.None? {
        UnknownIsRaw(schema, s, pos);
        NextLocal(schema, s, s, pos, 0);
        DecodeUnknownGrowth(schema, apply, o.state, s[turn.n..], pos + turn.n);
      }
    }
  }

  /**
   * Discarding unknown records is a projection. `strip` is what discarding does to the declared
   * fields, the identity unless one of them is itself a message.
   */
  lemma {:induction false} DiscardIsProjection<V(!new)>(schema: Schema, keep: (V, Record) -> Outcome<V>, drop: (V,
          Record) -> Outcome<V>, strip: V -> V, x: Message<V>, u: bytes, s: bytes, pos: nat)
    requires forall v, r :: drop(strip(v), r) == Outcome(strip(keep(v, r).state), keep(v, r).err)
    ensures var kept := Decode(schema, keep, false, x, s, pos);
            Decode(schema, drop, true, Message(strip(x.known), u), s, pos) ==
            Outcome(Message(strip(kept.state.known), u), kept.err)
    decreases |s|
  {
    hide Next;
    if s != [] {
      var turn := Next(schema, s, pos);
      if turn.Bad? && turn.torn.Some? {
        assert drop(strip(x.known), turn.torn.value).state == strip(keep(x.known, turn.torn.value).state);
      } else if turn.Got? {
        var kept := keep(x.known, turn.rec);
        assert drop(strip(x.known), turn.rec) == Outcome(strip(kept.state), kept.err);
      }
      var o := Take(keep, false, x, turn);
      assert Take(drop, true, Message(strip(x.known), u), turn) == Outcome(Message(strip(o.state.known), u), o.err);
      if o.err.None? {
        hide Take;
        DiscardIsProjection(schema, keep, drop, strip, o.state, u, s[turn.n..], pos + turn.n);
      }
    }
  }

  // ----- Records as written -----

  /** A record as `marshal` writes it, with a one-byte tag. */
  function Emit(r: Record): bytes
  {
    match r
    case Scalar(f, bits) => [8 * f] + Put(bits)
    case Chunk(f, payload) => [8 * f + 2] + Put(|payload|) + payload
    case Unknown(raw) => raw
  }

  /** A record of a declared field, with the wire type the switch asks for. */
  predicate Declared(schema: Schema, r: Record) {
    match r
    case Scalar(f, _) => f in schema && schema[f] != Slice
    case Chunk(f, _) => f in schema && schema[f] == Slice
    case Unknown(_) => false
  }

  ghost predicate AllDeclared(schema: Schema, rs: seq<Record>) {
    forall i :: 0 <= i < |rs| ==> Declared(schema, rs[i])
  }

  function EmitAll(rs: seq<Record>): bytes
  {
    if rs == [] then [] else Emit(rs[0]) + EmitAll(rs[1..])
  }

  lemma {:induction false} EmitAllConcat(a: seq<Record>, b: seq<Record>)
    ensures EmitAll(a + b) == EmitAll(a) + EmitAll(b)
  {
    hide Emit;
    if a == [] {
      assert a + b == b;
    } else {
      EmitAllConcat(a[1..], b);
      assert (a + b)[1..] == a[1..] + b && (a + b)[0] == a[0];
    }
  }

  lemma EmitAllThen(a: seq<Record>, b: seq<Record>, t: bytes)
    ensures EmitAll(a + b) + t == EmitAll(a) + (EmitAll(b) + t)
  {
    EmitAllConcat(a, b);
    Assoc(EmitAll(a), EmitAll(b), t);
  }

  /** The switch, run over a list of records. */
  function Fold<V>(apply: (V, Record) -> Outcome<V>, x: V, rs: seq<Record>): Outcome<V> {
    if rs == [] then Outcome(x, None) else
    var o := apply(x, rs[0]);
    if o.err.Some? then o else Fold(apply, o.state, rs[1..])
  }

  lemma FoldOne<V>(apply: (V, Record) -> Outcome<V>, x: V, r: Record)
    ensures Fold(apply, x, [r]) == apply(x, r)
  {
  }

  lemma {:induction false} FoldConcat<V>(apply: (V, Record) -> Outcome<V>, x: V, a: seq<Record>, b: seq<Record>)
    requires Fold(apply, x, a).err.None?
    ensures Fold(apply, x, a + b) == Fold(apply, Fold(apply, x, a).state, b)
  {
    if a == [] {
      assert a + b == b;
    } else {
      FoldConcat(apply, apply(x, a[0]).state, a[1..], b);
      assert (a + b)[1..] == a[1..] + b;
    }
  }

  /** The fold over two lists, from what it does to each. */
  lemma FoldThen<V>(apply: (V, Record) -> Outcome<V>, x: V, a: seq<Record>, y: V, b: seq<Record>, z: V)
    requires Fold(apply, x, a) == Outcome(y, None)
    requires Fold(apply, y, b) == Outcome(z, None)
    ensures Fold(apply, x, a + b) == Outcome(z, None)
  {
    FoldConcat(apply, x, a, b);
  }

  lemma TagOf(f: FieldNum, wt: int, t: bytes)
    requires 0 <= wt < 8
    ensures var s := [8 * f + wt] + t;
            Get(s, 0) == Reading(8 * f + wt, 1, None) && s[1..] == t &&
            FieldNumber(8 * f + wt) == f && WireType(8 * f + wt) == wt
  {
  }

  lemma EmitScalar(f: FieldNum, v: uint64, tail: bytes)
    ensures Emit(Scalar(f, v)) + tail == [8 * f] + (Put(v) + tail)
    ensures |Emit(Scalar(f, v))| == 1 + |Put(v)|
  {
    hide Put;
    Assoc([8 * f], Put(v), tail);
  }

  lemma EmitChunk(f: FieldNum, b: bytes, tail: bytes)
    ensures Emit(Chunk(f, b)) + tail == [8 * f + 2] + (Put(|b|) + (b + tail))
    ensures |Emit(Chunk(f, b))| == 1 + |Put(|b|)| + |b|
  {
    hide Put;
    assert [8 * f + 2] + Put(|b|) + b + tail == [8 * f + 2] + (Put(|b|) + (b + tail));
  }

  lemma NextSliceEmit(f: FieldNum, payload: bytes, t: bytes, pos: nat)
    requires pos + 1 + |Put(|payload|)| + |payload| + |t| <= MAX_INT
    ensures NextSlice(f, Put(|payload|) + (payload + t), 1, pos) ==
            Got(Chunk(f, payload), 1 + |Put(|payload|)| + |payload|)
  {
    hide Get, Put, ToInt64, Low64;
    GetPutUint64(|payload|, payload + t);
    var body := Put(|payload|) + (payload + t);
    var k := |Put(|payload|)|;
    assert body[k..k + |payload|] == payload;
  }

  /** A varint of ten bytes may have a value of more than 64 bits, of which the low ones are kept. */
  lemma NextScalarPut(schema: Schema, f: FieldNum, v: nat, t: bytes, pos: nat)
    requires f in schema && schema[f] != Slice && |Put(v)| <= 10
    ensures var s := [8 * f] + (Put(v) + t);
            Next(schema, s, pos) == Got(Scalar(f, Low64(v)), 1 + |Put(v)|)
  {
    hide Get, Put, FieldNumber, WireType, Low64, NextUnknown, NextSlice;
    TagOf(f, 0, Put(v) + t);
    GetPut(v, t, 0);
  }

  lemma NextScalarEmit(schema: Schema, f: FieldNum, bits: uint64, t: bytes, pos: nat)
    requires Declared(schema, Scalar(f, bits))
    ensures var s := [8 * f] + (Put(bits) + t);
            Next(schema, s, pos) == Got(Scalar(f, bits), 1 + |Put(bits)|)
  {
    hide Put, Next;
    PutLengthUint64(bits);
    NextScalarPut(schema, f, bits, t, pos);
  }

  lemma NextChunkEmit(schema: Schema, f: FieldNum, payload: bytes, t: bytes, pos: nat)
    requires Declared(schema, Chunk(f, payload))
    requires pos + 1 + |Put(|payload|)| + |payload| + |t| <= MAX_INT
    ensures var s := [8 * f + 2] + (Put(|payload|) + (payload + t));
            Next(schema, s, pos) == Got(Chunk(f, payload), 1 + |Put(|payload|)| + |payload|)
  {
    hide Get, Put, FieldNumber, WireType, NextUnknown, NextSlice, NextScalar;
    TagOf(f, 2, Put(|payload|) + (payload + t));
    NextSliceEmit(f, payload, t, pos);
  }

  /** A written record reads back as itself, whatever follows. */
  lemma NextEmit(schema: Schema, r: Record, t: bytes, pos: nat)
    requires Declared(schema, r)
    requires pos + |Emit(r)| + |t| <= MAX_INT
    ensures Next(schema, Emit(r) + t, pos) == Got(r, |Emit(r)|)
  {
    hide Put, Emit, Next;
    match r
    case Scalar(f, bits) =>
      EmitScalar(f, bits, t);
      NextScalarEmit(schema, f, bits, t, pos);
    case Chunk(f, payload) =>
      EmitChunk(f, payload, t);
      NextChunkEmit(schema, f, payload, t, pos);
  }

  /** A record is never written longer than it was read. */
  lemma NextMinimal(schema: Schema, s: bytes, pos: nat)
    requires Next(schema, s, pos).Got? && pos + |s| <= MAX_INT
    ensures var turn := Next(schema, s, pos);
            (turn.rec.Unknown? || Declared(schema, turn.rec)) && |Emit(turn.rec)| <= turn.n
  {
    hide Get, Put, FieldNumber, WireType, ToInt64, Low64, Run;
    var turn := Next(schema, s, pos);
    var body := s[Get(s, 0).n..];
    if !turn.rec.Unknown? {
      PutMinimal(body, Low64(Get(body, 0).value));
    }
  }

  /** Written records are decoded one by one: the loop is the fold of the switch over them. */
  lemma {:induction false} DecodeEmitted<V>(schema: Schema, apply: (V, Record) -> Outcome<V>, discard: bool,
          x: Message<V>, rs: seq<Record>, tail: bytes, pos: nat)
    requires AllDeclared(schema, rs)
    requires pos + |EmitAll(rs)| + |tail| <= MAX_INT
    ensures var o := Fold(apply, x.known, rs);
            var known := x.(known := o.state);
            Decode(schema, apply, discard, x, EmitAll(rs) + tail, pos) ==
            if o.err.Some? then Outcome(known, o.err)
            else Decode(schema, apply, discard, known, tail, pos + |EmitAll(rs)|)
    decreases |rs|
  {
    hide Next, Emit;
    if rs == [] {
      assert EmitAll(rs) + tail == tail;
    } else {
      var r := rs[0];
      var rest := EmitAll(rs[1..]) + tail;
      assert EmitAll(rs) + tail == Emit(r) + rest;
      NextEmit(schema, r, rest, pos);
      assert (Emit(r) + rest)[|Emit(r)|..] == rest;
      var o := apply(x.known, r);
      if o.err.None? {
        DecodeEmitted(schema, apply, discard, x.(known := o.state), rs[1..], tail, pos + |Emit(r)|);
      }
    }
  }

  // ----- One record, whatever it holds -----

  lemma NextVarint(schema: Schema, f: FieldNum, s: bytes)
    requires f in schema && schema[f] != Slice
    ensures var v, rec := Get(s, 0), Scalar(f, Low64(Get(s, 0).value));
            Next(schema, [8 * f] + s, 0) ==
            if v.err.None? then Got(rec, 1 + v.n)
            else Bad(v.err.value, if schema[f] == InPlace then Some(rec) else None)
  {
    TagOf(f, 0, s);
    hide Get, FieldNumber, WireType, Low64, NextUnknown, NextSlice;
  }

  /** A varint field, zero or not, minimal or not, complete or not. */
  lemma ScalarRecord<V>(schema: Schema, apply: (V, Record) -> Outcome<V>, discard: bool, x: Message<V>, f: FieldNum,
          tag: byte, s: bytes)
    requires f in schema && schema[f] != Slice && tag == 8 * f
    requires Get(s, 0).err.Some? || Get(s, 0).n == |s|
    ensures var v := Get(s, 0);
            var o := apply(x.known, Scalar(f, Low64(v.value)));
            Decode(schema, apply, discard, x, [tag] + s, 0) ==
            if v.err.None? then Outcome(x.(known := o.state), o.err)
            else Outcome(if schema[f] == InPlace then x.(known := o.state) else x, v.err)
  {
    var t := [tag] + s;
    NextVarint(schema, f, s);
    hide Get, Low64, Next, Decode;
    var o := Take(apply, discard, x, Next(schema, t, 0));
    assert t[0..] == t;
    DecodeTurn(schema, apply, discard, x, t, 0);
    if o.err.None? {
      DecodeTurn(schema, apply, discard, o.state, t, |t|);
    }
  }

  /** A length-delimited field, empty or not. */
  lemma SliceRecord<V>(schema: Schema, apply: (V, Record) -> Outcome<V>, discard: bool, x: Message<V>, f: FieldNum,
          tag: byte, b: bytes)
    requires f in schema && schema[f] == Slice && tag == 8 * f + 2
    requires |b| + 11 <= MAX_INT
    ensures var o := apply(x.known, Chunk(f, b));
            Decode(schema, apply, discard, x, [tag] + (Put(|b|) + b), 0) == Outcome(x.(known := o.state), o.err)
  {
    var s := [tag] + (Put(|b|) + b);
    SliceLength(f, b);
    NextEmit(schema, Chunk(f, b), [], 0);
    hide Next, Emit, Decode, Put;
    assert Emit(Chunk(f, b)) + [] == s && s[0..] == s;
    DecodeTurn(schema, apply, discard, x, s, 0);
    DecodeTurn(schema, apply, discard, x.(known := apply(x.known, Chunk(f, b)).state), s, |s|);
  }

  /** The bytes of such a field. */
  lemma SliceLength(f: FieldNum, b: bytes)
    requires |b| + 11 <= MAX_INT
    ensures Emit(Chunk(f, b)) == [8 * f + 2] + (Put(|b|) + b) && |Emit(Chunk(f, b))| <= MAX_INT
  {
    hide Put;
    PutLengthUint64(|b|);
    Assoc([8 * f + 2], Put(|b|), b);
  }

  // ----- Round trip and normal form of a whole message -----

  /** The wire form of a message: its records, then the unknown ones. */
  function Encode<V>(records: V -> seq<Record>, m: Message<V>): bytes
  {
    EmitAll(records(m.known)) + m.unknown
  }

  /**
   * A message survives the wire exactly when the switch rebuilds its declared fields from their
   * records and its unknown bytes are a run of unknown records.
   */
  lemma RoundTripIff<V>(schema: Schema, apply: (V, Record) -> Outcome<V>, records: V -> seq<Record>, zero: V,
          m: Message<V>)
    requires AllDeclared(schema, records(m.known))
    requires |Encode(records, m)| <= MAX_INT
    ensures Decode(schema, apply, false, Message(zero, []), Encode(records, m), 0) == Outcome(m, None) <==>
            UnknownRun(schema, m.unknown) && Fold(apply, zero, records(m.known)) == Outcome(m.known, None)
  {
    hide Next, UnknownRun, Decode;
    var o := Fold(apply, zero, records(m.known));
    var x := Message(o.state, []);
    var n := |EmitAll(records(m.known))|;
    DecodeEmitted(schema, apply, false, Message(zero, []), records(m.known), m.unknown, 0);
    if o.err.None? {
      if UnknownRun(schema, m.unknown) {
        DecodeUnknownRun(schema, apply, false, x, m.unknown, n);
        assert [] + m.unknown == m.unknown;
      } else {
        DecodeUnknownGrowth(schema, apply, x, m.unknown, n);
      }
    }
  }

  /** Decoding an encoding into any message does to it what the switch does to its records. */
  lemma DecodeEncoded<V>(schema: Schema, apply: (V, Record) -> Outcome<V>, records: V -> seq<Record>, y: Message<V>,
          m: Message<V>, z: V)
    requires AllDeclared(schema, records(m.known)) && UnknownRun(schema, m.unknown)
    requires Fold(apply, y.known, records(m.known)) == Outcome(z, None)
    requires |Encode(records, m)| <= MAX_INT
    ensures Decode(schema, apply, false, y, Encode(records, m), 0) == Outcome(Message(z, y.unknown + m.unknown), None)
  {
    hide Next, UnknownRun, Decode;
    DecodeEmitted(schema, apply, false, y, records(m.known), m.unknown, 0);
    DecodeUnknownRun(schema, apply, false, y.(known := z), m.unknown, |EmitAll(records(m.known))|);
  }

  /**
   * Decoding costs nothing: if no record adds more to the `cost` of the declared fields than its
   * own written length, the decoded message costs no more than what it was decoded from.
   */
  lemma {:induction false} DecodeCost<V(!new)>(schema: Schema, apply: (V, Record) -> Outcome<V>, discard: bool,
          valid: V -> bool, cost: V -> nat, x: Message<V>, s: bytes, pos: nat)
    requires forall v, r :: valid(v) && Declared(schema, r) && |Emit(r)| <= MAX_INT && apply(v, r).err.None? ==>
               valid(apply(v, r).state) && cost(apply(v, r).state) <= cost(v) + |Emit(r)|
    requires valid(x.known) && pos + |s| <= MAX_INT
    requires Decode(schema, apply, discard, x, s, pos).err.None?
    ensures var y := Decode(schema, apply, discard, x, s, pos).state;
            valid(y.known) && cost(y.known) + |y.unknown| <= cost(x.known) + |x.unknown| + |s|
    decreases |s|
  {
    hide Next, Emit;
    if s != [] {
      var turn := Next(schema, s, pos);
      NextMinimal(schema, s, pos);
      UnknownIsRaw(schema, s, pos);
      DecodeCost(schema, apply, discard, valid, cost, Take(apply, discard, x, turn).state, s[turn.n..], pos + turn.n);
    }
  }

  // ----- The fields of a message -----

  /** A scalar field is written unless it is zero, a bytes or string field unless it is empty. */
  function ScalarField(f: FieldNum, v: uint64): seq<Record> {
    if v != 0 then [Scalar(f, v)] else []
  }

  function SliceField(f: FieldNum, b: bytes): seq<Record> {
    if b != [] then [Chunk(f, b)] else []
  }

  /** A repeated field: one record an element, empty ones too. */
  function RepeatedField(f: FieldNum, bs: seq<bytes>): (rs: seq<Record>)
    ensures |rs| == |bs| && forall i :: 0 <= i < |bs| ==> rs[i] == Chunk(f, bs[i])
  {
    if bs == [] then [] else [Chunk(f, bs[0])] + RepeatedField(f, bs[1..])
  }

  /** A length-delimited field takes its tag, its length and its bytes. */
  function SliceSize(b: bytes): nat {
    1 + |b| + Sov(|b|)
  }

  function RepeatedSize(bs: seq<bytes>): nat {
    if bs == [] then 0 else SliceSize(bs[0]) + RepeatedSize(bs[1..])
  }

  lemma {:induction false} RepeatedSizeAppend(bs: seq<bytes>, b: bytes)
    ensures RepeatedSize(bs + [b]) == RepeatedSize(bs) + SliceSize(b)
  {
    if bs != [] {
      assert (bs + [b])[1..] == bs[1..] + [b];
      RepeatedSizeAppend(bs[1..], b);
    }
  }

  lemma {:induction false} RepeatedSizeExact(f: FieldNum, bs: seq<bytes>)
    ensures |EmitAll(RepeatedField(f, bs))| == RepeatedSize(bs)
  {
    if bs != [] {
      SovExact(|bs[0]|);
      RepeatedSizeExact(f, bs[1..]);
    }
  }

  lemma EmitSize(r: Record)
    ensures r.Scalar? ==> |Emit(r)| == 1 + Sov(r.bits)
    ensures r.Chunk? ==> |Emit(r)| == SliceSize(r.payload)
  {
    hide Put, Sov;
    match r
    case Scalar(_, v) => SovExact(v);
    case Chunk(_, b) => SovExact(|b|);
    case Unknown(_) =>
  }

  lemma ScalarFieldSize(f: FieldNum, v: uint64)
    ensures |EmitAll(ScalarField(f, v))| == if v != 0 then 1 + Sov(v) else 0
  {
    hide Emit, Sov;
    EmitSize(Scalar(f, v));
  }

  lemma SliceFieldSize(f: FieldNum, b: bytes)
    ensures |EmitAll(SliceField(f, b))| == if |b| > 0 then SliceSize(b) else 0
  {
    hide Emit, SliceSize;
    EmitSize(Chunk(f, b));
  }

  // ----- The same, byte by byte -----

  function ScalarBytes(tag: byte, v: uint64): bytes {
    if v == 0 then [] else [tag] + Put(v)
  }

  function SliceBytes(tag: byte, b: bytes): bytes {
    if b == [] then [] else [tag] + Put(|b|) + b
  }

  function RepeatedBytes(tag: byte, bs: seq<bytes>): bytes {
    if bs == [] then [] else [tag] + Put(|bs[0]|) + bs[0] + RepeatedBytes(tag, bs[1..])
  }

  lemma FieldBytes(f: FieldNum, v: uint64, b: bytes)
    ensures EmitAll(ScalarField(f, v)) == ScalarBytes(8 * f, v)
    ensures EmitAll(SliceField(f, b)) == SliceBytes(8 * f + 2, b)
  {
    hide Put;
    EmitOne(Scalar(f, v));
    EmitOne(Chunk(f, b));
    EmitNothing();
    hide EmitAll;
  }

  lemma {:induction false} RepeatedFieldBytes(f: FieldNum, bs: seq<bytes>)
    ensures EmitAll(RepeatedField(f, bs)) == RepeatedBytes(8 * f + 2, bs)
  {
    hide Put;
    if bs != [] {
      RepeatedFieldBytes(f, bs[1..]);
    }
  }

  method SizeRepeated(bs: seq<bytes>) returns (n: nat)
    ensures n == RepeatedSize(bs)
  {
    n := 0;
    assert bs[..|bs|] == bs;
    for i := 0 to |bs|
      invariant n == RepeatedSize(bs[..i])
    {
      var l := |bs[i]|;
      n := n + 1 + l + Sov(l);
      RepeatedSizeAppend(bs[..i], bs[i]);
      assert bs[..i + 1] == bs[..i] + [bs[i]];
    }
  }

  // ----- uint32 and enum fields -----

  /** `uint64(x)` of an enum: a negative value is sign-extended. */
  function EnumBits(v: int32): uint64 {
    ToUint64(v)
  }

  /** What the shifts leave in an enum field. */
  function EnumOf(bits: nat): int32 {
    ToInt32(Low32(bits))
  }

  /** The reader's 32-bit shifts recover a value whether its upper 32 bits were written or not. */
  lemma EnumRoundTrip(v: int32)
    ensures EnumOf(EnumBits(v)) == v && EnumOf(Low32(EnumBits(v))) == v
    ensures Low32(EnumBits(v)) == if v < 0 then v + TWO32 else v
    ensures v == 0 <==> EnumBits(v) == 0
    ensures v == 0 <==> Low32(EnumBits(v)) == 0
  {
  }

  lemma SignExtended(v: int32)
    ensures EnumBits(v) == if v < 0 then v + TWO64 else v
  {
  }

  lemma NonNegativeBits(v: int32)
    requires v >= 0
    ensures EnumBits(v) == v == Low32(EnumBits(v))
  {
  }

  lemma BitsOfEnum(v: nat)
    ensures Low32(EnumBits(EnumOf(v))) == Low32(v)
  {
  }

  lemma LowOfLow(v: nat)
    ensures Low32(Low64(v)) == Low32(v)
  {
  }

  lemma SovMonotone(v: nat, w: nat)
    requires v <= w
    ensures Sov(v) <= Sov(w)
  {
    SovExact(v);
    SovExact(w);
    PutMonotone(v, w);
  }

  /** Joining two slices saves at least a tag: lengths are subadditive. */
  lemma SliceSizeAdd(a: bytes, b: bytes, c: bytes)
    requires |c| <= |a| + |b|
    ensures SliceSize(c) <= SliceSize(a) + SliceSize(b)
  {
    var m := if |a| >= |b| then |a| else |b|;
    SovExact(|a|);
    SovExact(|b|);
    SovExact(|c|);
    PutMonotone(|c|, 128 * m);
    assert m > 0 ==> |Put(128 * m)| == 1 + |Put(m)|;
  }

  /** A negative enum takes 10 bytes, of which the reader needs 5. */
  lemma NegativeEnumSize(v: int32)
    requires v < 0
    ensures Sov(EnumBits(v)) == 10 && Sov(Low32(EnumBits(v))) == 5
  {
    hide Pow2, Put, Sov;
    EnumRoundTrip(v);
    SovExact(EnumBits(v));
    SovExact(Low32(EnumBits(v)));
    var e: nat :| e == 0;
    Pow2Values(e);
    PutExactly(EnumBits(v), e + 9);
    PutExactly(Low32(EnumBits(v)), e + 4);
  }

  // ----- Backward writing -----

  /** `i -= len(src)` and `copy(dAtA[i:], src)`. */
  method WriteBytes(dAtA: array<byte>, end: nat, src: bytes) returns (i: nat)
    requires |src| <= end <= dAtA.Length
    modifies dAtA
    ensures i == end - |src|
    ensures dAtA[i..] == src + old(dAtA[end..])
  {
    i := end - |src|;
    forall k | 0 <= k < |src| {
      dAtA[i + k] := src[k];
    }
    assert dAtA[i..] == dAtA[i..end] + dAtA[end..];
  }

  /** `i--` and `dAtA[i] = v`. */
  method WriteByte(dAtA: array<byte>, end: nat, v: byte) returns (i: nat)
    requires 0 < end <= dAtA.Length
    modifies dAtA
    ensures i == end - 1
    ensures dAtA[i..] == [v] + old(dAtA[end..])
  {
    i := end - 1;
    dAtA[i] := v;
  }

  /** A tag and a varint, written from the end. */
  method WriteScalar(dAtA: array<byte>, end: nat, f: FieldNum, v: uint64) returns (i: nat)
    requires |Emit(Scalar(f, v))| <= end <= dAtA.Length
    modifies dAtA
    ensures i == end - |Emit(Scalar(f, v))|
    ensures dAtA[i..] == Emit(Scalar(f, v)) + old(dAtA[end..])
  {
    hide Put, Emit;
    EmitScalar(f, v, dAtA[end..]);
    i := EncodeVarint(dAtA, end, v);
    i := WriteByte(dAtA, i, 8 * f);
  }

  /** A tag, a length and the bytes, written from the end. */
  method WriteSlice(dAtA: array<byte>, end: nat, f: FieldNum, b: bytes) returns (i: nat)
    requires |b| <= MAX_INT
    requires |Emit(Chunk(f, b))| <= end <= dAtA.Length
    modifies dAtA
    ensures i == end - |Emit(Chunk(f, b))|
    ensures dAtA[i..] == Emit(Chunk(f, b)) + old(dAtA[end..])
  {
    hide Put, Emit;
    EmitChunk(f, b, dAtA[end..]);
    i := WriteBytes(dAtA, end, b);
    i := EncodeVarint(dAtA, i, |b|);
    i := WriteByte(dAtA, i, 8 * f + 2);
  }

  /** A scalar field, left out when zero. */
  method WriteScalarField(dAtA: array<byte>, end: nat, f: FieldNum, v: uint64) returns (i: nat)
    requires |EmitAll(ScalarField(f, v))| <= end <= dAtA.Length
    modifies dAtA
    ensures i == end - |EmitAll(ScalarField(f, v))|
    ensures dAtA[i..] == EmitAll(ScalarField(f, v)) + old(dAtA[end..])
  {
    hide Emit;
    i := end;
    if v != 0 {
      EmitOne(Scalar(f, v));
      hide EmitAll;
      i := WriteScalar(dAtA, i, f, v);
    }
  }

  /** A bytes or string field, left out when empty. */
  method WriteSliceField(dAtA: array<byte>, end: nat, f: FieldNum, b: bytes) returns (i: nat)
    requires |b| <= MAX_INT && |EmitAll(SliceField(f, b))| <= end <= dAtA.Length
    modifies dAtA
    ensures i == end - |EmitAll(SliceField(f, b))|
    ensures dAtA[i..] == EmitAll(SliceField(f, b)) + old(dAtA[end..])
  {
    hide Emit;
    i := end;
    if |b| > 0 {
      EmitOne(Chunk(f, b));
      hide EmitAll;
      i := WriteSlice(dAtA, i, f, b);
    }
  }

  lemma EmitNothing()
    ensures EmitAll([]) == []
  {
  }

  lemma EmitOne(r: Record)
    ensures EmitAll([r]) == Emit(r)
  {
    assert [r][1..] == [] && Emit(r) + [] == Emit(r);
  }

  /** The written form of the elements from the `k`-th on. */
  ghost function RepeatedFrom(f: FieldNum, bs: seq<bytes>, k: nat): bytes
    requires k <= |bs|
    decreases |bs| - k
  {
    if k == |bs| then [] else Emit(Chunk(f, bs[k])) + RepeatedFrom(f, bs, k + 1)
  }

  lemma {:induction false} RepeatedFromIsSuffix(f: FieldNum, bs: seq<bytes>, k: nat)
    requires k <= |bs|
    ensures RepeatedFrom(f, bs, k) == EmitAll(RepeatedField(f, bs[k..]))
    decreases |bs| - k
  {
    hide Emit;
    if k < |bs| {
      RepeatedFromIsSuffix(f, bs, k + 1);
      assert bs[k..][1..] == bs[k + 1..];
    }
  }

  lemma {:induction false} RepeatedFromShrinks(f: FieldNum, bs: seq<bytes>, k: nat)
    requires k <= |bs|
    ensures |RepeatedFrom(f, bs, k)| <= |RepeatedFrom(f, bs, 0)|
  {
    hide Emit;
    if k > 0 {
      RepeatedFromShrinks(f, bs, k - 1);
    }
  }

  lemma RepeatedFromStep(f: FieldNum, bs: seq<bytes>, k: nat, tail: bytes)
    requires k < |bs|
    ensures RepeatedFrom(f, bs, k) + tail == Emit(Chunk(f, bs[k])) + (RepeatedFrom(f, bs, k + 1) + tail)
    ensures |RepeatedFrom(f, bs, k)| == |Emit(Chunk(f, bs[k]))| + |RepeatedFrom(f, bs, k + 1)|
    ensures |bs[k]| <= |RepeatedFrom(f, bs, k)| <= |RepeatedFrom(f, bs, 0)|
  {
    EmitChunk(f, bs[k], []);
    hide Emit;
    RepeatedFromShrinks(f, bs, k);
    Assoc(Emit(Chunk(f, bs[k])), RepeatedFrom(f, bs, k + 1), tail);
  }

  /** A repeated field, last element first, so that it reads in list order. */
  method WriteRepeated(dAtA: array<byte>, end: nat, f: FieldNum, bs: seq<bytes>) returns (i: nat)
    requires |EmitAll(RepeatedField(f, bs))| <= end <= dAtA.Length <= MAX_INT
    modifies dAtA
    ensures i == end - |EmitAll(RepeatedField(f, bs))|
    ensures dAtA[i..] == EmitAll(RepeatedField(f, bs)) + old(dAtA[end..])
  {
    hide Emit, EmitAll, RepeatedField;
    RepeatedFromIsSuffix(f, bs, 0);
    assert bs[0..] == bs;
    assert RepeatedFrom(f, bs, |bs|) == [];
    hide RepeatedFrom;
    i := end;
    ghost var tail := dAtA[end..];
    var iNdEx := |bs| - 1;
    while iNdEx >= 0
      invariant -1 <= iNdEx < |bs|
      invariant i == end - |RepeatedFrom(f, bs, iNdEx + 1)|
      invariant dAtA[i..] == RepeatedFrom(f, bs, iNdEx + 1) + tail
    {
      RepeatedFromStep(f, bs, iNdEx, tail);
      i := WriteSlice(dAtA, i, f, bs[iNdEx]);
      iNdEx := iNdEx - 1;
    }
  }

  // ----- Reading one record -----

  /** The tag, split into field number and wire type. */
  method ReadTag(dAtA: bytes, start: nat) returns (fieldNum: int32, wireType: nat, iNdEx: nat, err: Option<Error>)
    requires start <= |dAtA|
    ensures var tag := Get(dAtA[start..], 0);
            if tag.err.Some? then err == tag.err
            else if WireType(tag.value) == 4 then err == Some(EndGroupForNonGroup)
            else if FieldNumber(tag.value) <= 0 then err == Some(IllegalTag)
            else err == None && iNdEx == start + tag.n &&
                 fieldNum == FieldNumber(tag.value) && wireType == WireType(tag.value)
  {
    fieldNum, wireType := 0, 0;
    var wire;
    wire, iNdEx, err := DecodeVarint(dAtA, start, TWO64);
    if err.Some? { return; }
    WireTypeLow(Get(dAtA[start..], 0).value);
    fieldNum := ToInt32(Low32(wire / 8));
    wireType := WireType(wire);
    if wireType == 4 { return fieldNum, wireType, iNdEx, Some(EndGroupForNonGroup); }
    if fieldNum <= 0 { return fieldNum, wireType, iNdEx, Some(IllegalTag); }
  }

  /** A length and that many bytes; `f` only names the record in the contract. */
  method ReadSlice(dAtA: bytes, iNdEx: nat, ghost f: FieldNum, ghost preIndex: nat) returns (payload: bytes,
          postIndex: int, err: Option<Error>)
    requires preIndex <= iNdEx <= |dAtA| <= MAX_INT
    ensures match NextSlice(f, dAtA[iNdEx..], iNdEx - preIndex, preIndex)
            case Bad(e, _) => err == Some(e)
            case Got(rec, n) => err == None && rec == Chunk(f, payload) && postIndex == preIndex + n <= |dAtA|
    ensures |payload| <= |dAtA|
  {
    hide Get, Low64, ToInt64;
    payload := [];
    var byteLen, start;
    byteLen, start, err := DecodeVarint(dAtA, iNdEx, TWO64);
    postIndex := start;
    if err.Some? { return; }
    var length := ToInt64(byteLen);
    if length < 0 { return payload, postIndex, Some(InvalidLength); }
    postIndex := ToInt64(start + length);
    if postIndex < 0 { return payload, postIndex, Some(InvalidLength); }
    if postIndex > |dAtA| { return payload, postIndex, Some(UnexpectedEOF); }
    payload := dAtA[start..postIndex];
  }

  /** The default case. */
  method ReadUnknown(dAtA: bytes, preIndex: nat) returns (raw: bytes, iNdEx: int, err: Option<Error>)
    requires preIndex <= |dAtA| <= MAX_INT
    ensures match NextUnknown(dAtA[preIndex..], preIndex)
            case Bad(e, _) => err == Some(e)
            case Got(rec, n) => err == None && rec == Unknown(raw) && iNdEx == preIndex + n <= |dAtA|
  {
    hide Run, ToInt64;
    raw, iNdEx := [], preIndex;
    RunBound(dAtA[preIndex..], 0, 0);
    var skippy;
    skippy, err := Skip.Skip(dAtA[preIndex..]);
    if err.Some? { return; }
    if skippy < 0 || ToInt64(preIndex + skippy) < 0 { return raw, iNdEx, Some(InvalidLength); }
    if ToInt64(preIndex + skippy) > |dAtA| { return raw, iNdEx, Some(UnexpectedEOF); }
    raw := dAtA[preIndex..preIndex + skippy];
    iNdEx := preIndex + skippy;
  }
}
