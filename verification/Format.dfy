/**
 * The format as the Encoding specification of Protocol Buffers describes it, and when what the
 * decoder accepts is in it.
 */
module Format {
  import opened Machine
  import opened Varint
  import opened Skip
  import opened Wire

  // ----- One field -----

  /**
   * What the specification bounds: field numbers to 29 bits, varints to 64, and lengths, which are
   * `int32` varints.
   */
  predicate InBounds(s: bytes) {
    var tag := Get(s, 0);
    var v := Get(s[tag.n..], 0).value;
    && LegalNumber(TagNumber(tag.value))
    && (WireType(tag.value) == 0 ==> v < TWO64)
    && (WireType(tag.value) == 2 ==> v < TWO31)
  }

  /** The length of the field at the head of `s`, if it is one by the specification. */
  ghost function StrictField(s: bytes): (r: Option<nat>)
    ensures r.Some? ==> 0 < r.value <= |s|
    decreases |s|, 0
  {
    var tag := Get(s, 0);
    if tag.err.Some? || !InBounds(s) then None else
    var body := s[tag.n..];
    match WireType(tag.value)
    case 0 => var v := Get(body, 0); if v.err.None? then Some(tag.n + v.n) else None
    case 1 => if 8 <= |body| then Some(tag.n + 8) else None
    case 2 =>
      var v := Get(body, 0);
      if v.err.None? && v.n + v.value <= |body| then Some(tag.n + v.n + v.value) else None
    case 3 =>
      var g := StrictGroup(body, TagNumber(tag.value));
      if g.Some? then Some(tag.n + g.value) else None
    case 5 => if 4 <= |body| then Some(tag.n + 4) else None
    case _ => None
  }

  /** The length of the fields of a group up to and including its end tag, which has the number of its start tag. */
  ghost function StrictGroup(s: bytes, number: nat): (r: Option<nat>)
    ensures r.Some? ==> 0 < r.value <= |s|
    decreases |s|, 1
  {
    var tag := Get(s, 0);
    if tag.err.None? && WireType(tag.value) == 4 then
      if TagNumber(tag.value) == number then Some(tag.n) else None
    else
      var f := StrictField(s);
      if f.None? then None else
      var g := StrictGroup(s[f.value..], number);
      if g.None? then None else Some(f.value + g.value)
  }

  // ----- One pass with a stack -----

  /** The numbers of the open groups after one more tag. */
  function Opened(s: bytes, open: seq<nat>): seq<nat> {
    var tag := Get(s, 0);
    if WireType(tag.value) == 3 then open + [TagNumber(tag.value)]
    else if WireType(tag.value) == 4 && open != [] then open[..|open| - 1]
    else open
  }

  /**
   * The iterations of `Skip` up to the end of a field, with the numbers of the open groups in place
   * of their count: all tags and lengths in bounds, every end tag with the number of the innermost
   * open group.
   */
  predicate Matches(s: bytes, open: seq<nat>)
    decreases |s|
  {
    var tag := Get(s, 0);
    match Element(s, |open|)
    case Stop(_) => false
    case Go(n, _) =>
      && (if WireType(tag.value) == 4 then open != [] && open[|open| - 1] == TagNumber(tag.value) else InBounds(s))
      && (n >= |s| || Opened(s, open) == [] || Matches(s[n..], Opened(s, open)))
  }

  /** What is left of the pass once the bytes before `s` are done. */
  predicate Continues(s: bytes, open: seq<nat>) {
    s == [] || open == [] || Matches(s, open)
  }

  /** A field or group that the specification allows is the one that the decoder finds. */
  lemma {:induction false} StrictFieldIsField(s: bytes)
    requires StrictField(s).Some?
    ensures StrictField(s) == Field(s)
    decreases |s|, 0
  {
    hide Get, WireType, TagNumber, LegalNumber, StrictGroup, Group;
    var tag := Get(s, 0);
    if WireType(tag.value) == 3 {
      StrictGroupIsGroup(s[tag.n..], TagNumber(tag.value));
    }
  }

  lemma {:induction false} StrictGroupIsGroup(s: bytes, number: nat)
    requires StrictGroup(s, number).Some?
    ensures StrictGroup(s, number) == Group(s)
    decreases |s|, 1
  {
    hide Get, WireType, TagNumber, StrictField, Field;
    var tag := Get(s, 0);
    if tag.err.Some? || WireType(tag.value) != 4 {
      var n := StrictField(s).value;
      StrictFieldIsField(s);
      StrictGroupIsGroup(s[n..], number);
    }
  }

  /** Where the decoder finds a field, one iteration goes past it, or past the tag that opens a group. */
  lemma StepOfField(s: bytes, depth: nat)
    requires Field(s).Some?
    ensures var tag := Get(s, 0);
            && tag.err.None?
            && WireType(tag.value) != 4
            && (WireType(tag.value) == 3 ==> Element(s, depth) == Go(tag.n, depth + 1) && Group(s[tag.n..]).Some? &&
                                             Field(s).value == tag.n + Group(s[tag.n..]).value)
            && (WireType(tag.value) != 3 && InBounds(s) ==> Element(s, depth) == Go(Field(s).value, depth))
            && (WireType(tag.value) != 3 ==> (StrictField(s).Some? <==> InBounds(s)))
  {
    hide Get, WireType, TagNumber, LegalNumber, Group, StrictGroup;
  }

  /** The pass goes through a field exactly if the specification allows it. */
  lemma {:induction false} MatchesField(s: bytes, open: seq<nat>)
    requires Field(s).Some?
    ensures Matches(s, open) <==> StrictField(s).Some? && Continues(s[Field(s).value..], open)
    decreases |s|, 0
  {
    hide Get, WireType, TagNumber, InBounds, Group, StrictGroup, Element, Field;
    var tag := Get(s, 0);
    StepOfField(s, |open|);
    if WireType(tag.value) == 3 {
      var body := s[tag.n..];
      MatchesGroup(body, open, TagNumber(tag.value));
      assert body[Group(body).value..] == s[Field(s).value..];
    }
  }

  /** It goes through the rest of a group exactly if that ends with the group's own number. */
  lemma {:induction false} MatchesGroup(s: bytes, open: seq<nat>, number: nat)
    requires Group(s).Some?
    ensures Matches(s, open + [number]) <==> StrictGroup(s, number).Some? && Continues(s[Group(s).value..], open)
    decreases |s|, 1
  {
    hide Get, WireType, TagNumber, InBounds, Field, StrictField;
    var tag := Get(s, 0);
    var all := open + [number];
    assert all[..|all| - 1] == open;
    if tag.err.Some? || WireType(tag.value) != 4 {
      hide Element, Matches;
      var n := Field(s).value;
      var rest := s[n..];
      MatchesField(s, all);
      MatchesGroup(rest, open, number);
      assert rest[Group(rest).value..] == s[Group(s).value..];
      if StrictField(s).Some? {
        StrictFieldIsField(s);
      }
    }
  }

  /** Of the fields that the decoder finds, the specification allows exactly those that the pass goes through. */
  lemma StrictFieldIff(s: bytes)
    ensures StrictField(s) == if Matches(s, []) then Field(s) else None
  {
    hide Get, StrictField, Field, Matches;
    if StrictField(s).Some? {
      StrictFieldIsField(s);
    }
    if Field(s).Some? {
      MatchesField(s, []);
    }
  }

  /** Had `Skip` kept the numbers of the open groups, it would find exactly the fields of the specification. */
  lemma SkipIsStrictField(s: bytes, n: nat)
    requires |s| <= MAX_INT
    ensures Run(s, 0, 0) == Skipped(n) && n <= |s| && Matches(s, []) <==> StrictField(s) == Some(n)
  {
    hide Run, Field, StrictField, Matches;
    SkipIsField(s, n);
    StrictFieldIff(s);
  }

  // ----- Whole strings -----

  /**
   * A sequence of fields that the specification allows, the declared ones with their wire types and
   * with payloads of which `right` holds.
   */
  ghost predicate WellFormed(schema: Schema, right: (FieldNum, bytes) -> bool, s: bytes)
    decreases |s|
  {
    s == [] ||
    var tag := Get(s, 0);
    var number, wireType := TagNumber(tag.value), WireType(tag.value);
    && StrictField(s).Some?
    && (number in schema ==>
          if schema[number] == Slice then wireType == 2 && right(number, Payload(s)) else wireType == 0)
    && WellFormed(schema, right, s[StrictField(s).value..])
  }

  /** Record by record, the pass goes through and `also` holds of the declared payloads. */
  ghost predicate Conforms(schema: Schema, also: (FieldNum, bytes) -> bool, s: bytes)
    decreases |s|
  {
    Field(s).Some? ==>
      && Matches(s, [])
      && (TagOfSlice(schema, s) ==> also(FieldNumber(Get(s, 0).value), Payload(s)))
      && Conforms(schema, also, s[Field(s).value..])
  }

  /**
   * If `ok` and `also` make up `right`, then of the strings that a loop accepts exactly those that
   * conform are well-formed.
   */
  lemma {:induction false} ConformsIff(schema: Schema, ok: (FieldNum, bytes) -> bool,
          also: (FieldNum, bytes) -> bool, right: (FieldNum, bytes) -> bool, s: bytes)
    requires forall f, b :: right(f, b) <==> ok(f, b) && also(f, b)
    ensures WellFormed(schema, right, s) <==> Accepts(schema, ok, s) && Conforms(schema, also, s)
    decreases |s|
  {
    hide Get, Field, StrictField, Payload, Matches, FieldNumber, TagNumber, WireType;
    if s == [] {
      assert Field(s).None?;
    } else {
      StrictFieldIff(s);
      if Field(s).Some? {
        if Matches(s, []) {
          StrictTag(s);
        }
        ConformsIff(schema, ok, also, right, s[Field(s).value..]);
      }
    }
  }

  /** The number in the tag of a field that the specification allows is the one the loop sees. */
  lemma StrictTag(s: bytes)
    requires StrictField(s).Some?
    ensures var wire := Get(s, 0).value;
            LegalNumber(TagNumber(wire)) && FieldNumber(wire) == TagNumber(wire) > 0
  {
    hide Get, FieldNumber, TagNumber, WireType;
    IllegalNumbers(Get(s, 0).value);
  }

  /** The same for a decoder whose switch fails exactly on the payloads that are not `ok`. */
  lemma DecodesWellFormedIff<V(!new)>(schema: Schema, apply: (V, Record) -> Outcome<V>,
          ok: (FieldNum, bytes) -> bool, also: (FieldNum, bytes) -> bool, right: (FieldNum, bytes) -> bool,
          discard: bool, x: Message<V>, s: bytes)
    requires forall v: V, r: Record :: (r.Chunk? ==> |r.payload| <= MAX_INT) ==>
               (apply(v, r).err.None? <==> (r.Chunk? ==> ok(r.field, r.payload)))
    requires forall f, b :: right(f, b) <==> ok(f, b) && also(f, b)
    requires |s| <= MAX_INT
    ensures Decode(schema, apply, discard, x, s, 0).err.None? && Conforms(schema, also, s) <==>
            WellFormed(schema, right, s)
  {
    hide Decode, Accepts, Conforms, WellFormed;
    DecodeAcceptsIff(schema, apply, ok, discard, x, s, 0);
    ConformsIff(schema, ok, also, right, s);
  }

  /** A group of nothing but its two tags. */
  lemma EmptyGroup(f: FieldNum, g: FieldNum)
    ensures var s := [8 * f + 3, 8 * g + 4];
            Field(s) == Some(2) && FieldNumber(Get(s, 0).value) == f && (Matches(s, []) <==> f == g)
  {
    var s: bytes, body: bytes := [8 * f + 3, 8 * g + 4], [8 * g + 4];
    TagOf(f, 3, body);
    TagOf(g, 4, []);
    assert s == [8 * f + 3] + body && body == [8 * g + 4] + [];
    hide Get, FieldNumber, WireType, StrictField;
    assert Group(body) == Some(1);
    MatchesField(s, []);
    StrictFieldIff(s);
    hide Matches;
    EmptyStrictGroup(f, g);
  }

  lemma EmptyStrictGroup(f: FieldNum, g: FieldNum)
    ensures StrictField([8 * f + 3, 8 * g + 4]).Some? <==> f == g
  {
    var s: bytes, body: bytes := [8 * f + 3, 8 * g + 4], [8 * g + 4];
    TagOf(f, 3, body);
    TagOf(g, 4, []);
    assert s == [8 * f + 3] + body && body == [8 * g + 4] + [];
    hide Get, FieldNumber, WireType;
  }

  /** A string of one varint field that has more than 64 bits. */
  lemma WideVarint(schema: Schema, right: (FieldNum, bytes) -> bool, f: FieldNum, v: nat)
    requires v >= TWO64 && |Put(v)| <= 10
    ensures !WellFormed(schema, right, [8 * f] + Put(v))
  {
    TagOf(f, 0, Put(v));
    GetPut(v, [], 0);
    assert Put(v) + [] == Put(v);
    hide Get, Put, FieldNumber, WireType;
  }

  /** A string of one length-delimited field. */
  lemma OneChunkWellFormed(schema: Schema, right: (FieldNum, bytes) -> bool, f: FieldNum, tag: byte, b: bytes)
    requires f in schema && schema[f] == Slice && tag == 8 * f + 2 && |b| + 11 <= MAX_INT
    ensures WellFormed(schema, right, [tag] + (Put(|b|) + b)) ==> right(f, b)
  {
    var s := [tag] + (Put(|b|) + b);
    SliceLength(f, b);
    hide Emit, Put, Next, Payload, StrictField, Get, WireType, TagNumber, FieldNumber;
    assert s + [] == s;
    NextEmit(schema, Chunk(f, b), [], 0);
    NextPayload(schema, s, 0);
    if StrictField(s).Some? {
      StrictTag(s);
    }
  }

  // ----- Strings -----

  predicate Trail(b: bytes, k: nat) {
    k < |b| && 0x80 <= b[k] < 0xC0
  }

  /** The bytes of the character at the head of `b` in UTF-8, or 0. */
  function CharSize(b: bytes): (n: nat)
    ensures n <= |b|
  {
    if b == [] then 0
    else if b[0] < 0x80 then 1
    else if 0xC2 <= b[0] < 0xE0 && Trail(b, 1) then 2
    else if 0xE0 <= b[0] < 0xF0 && Trail(b, 1) && Trail(b, 2) &&
            (b[0] == 0xE0 ==> b[1] >= 0xA0) && (b[0] == 0xED ==> b[1] < 0xA0) then 3
    else if 0xF0 <= b[0] < 0xF5 && Trail(b, 1) && Trail(b, 2) && Trail(b, 3) &&
            (b[0] == 0xF0 ==> b[1] >= 0x90) && (b[0] == 0xF4 ==> b[1] < 0x90) then 4
    else 0
  }

  predicate Utf8(b: bytes)
    decreases |b|
  {
    b == [] || (CharSize(b) > 0 && Utf8(b[CharSize(b)..]))
  }
}
