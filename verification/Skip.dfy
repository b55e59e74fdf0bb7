/** `Skip`: the length of the field at the head of a string, counting the depth of open groups. */
module Skip {
  import opened Machine
  import opened Varint

  // ----- The loop as a function -----

  /** `int(wire & 0x7)` */
  function WireType(wire: nat): (t: nat)
    ensures t < 8
  {
    wire % 8
  }

  lemma WireTypeLow(v: nat)
    ensures WireType(Low64(v)) == WireType(v)
  {
  }

  datatype Step = Go(n: nat, depth: nat) | Stop(err: Error)
  datatype Skipped = Skipped(end: nat) | Stuck(err: Error)

  /** The length of the tag and what its wire type says follows, and the groups open after it. */
  function Element(s: bytes, depth: nat): (r: Step)
    ensures r.Go? ==> 0 < r.n
  {
    var tag := Get(s, 0);
    if tag.err.Some? then Stop(tag.err.value) else
    var body := s[tag.n..];
    match WireType(tag.value)
    case 0 =>
      var v := Get(body, 0);
      if v.err.Some? then Stop(v.err.value) else Go(tag.n + v.n, depth)
    case 1 => Go(tag.n + 8, depth)
    case 2 =>
      var v := Get(body, 0);
      if v.err.Some? then Stop(v.err.value) else
      var length := ToInt64(Low64(v.value));
      if length < 0 then Stop(InvalidLength) else Go(tag.n + v.n + length, depth)
    case 3 => Go(tag.n, depth + 1)
    case 4 => if depth == 0 then Stop(UnexpectedEndOfGroup) else Go(tag.n, depth - 1)
    case 5 => Go(tag.n + 4, depth)
    case _ => Stop(IllegalWireType)
  }

  /** One iteration, with `s` still to be read, `off` bytes consumed and `depth` groups open. */
  function OneStep(s: bytes, off: nat, depth: nat): (r: Step)
    ensures r.Go? ==> 0 < r.n
  {
    match Element(s, depth)
    case Stop(e) => Stop(e)
    case Go(n, d) => if ToInt64(off + n) < 0 then Stop(InvalidLength) else Go(n, d)
  }

  /** The offset just after the field, which may lie beyond the end of the string. */
  function Run(s: bytes, off: nat, depth: nat): (r: Skipped)
    ensures r.Skipped? ==> off < r.end
    decreases |s|
  {
    if s == [] then Stuck(UnexpectedEOF) else
    match OneStep(s, off, depth)
    case Stop(e) => Stuck(e)
    case Go(n, d) =>
      if d == 0 then Skipped(off + n)
      else if n >= |s| then Stuck(UnexpectedEOF)
      else Run(s[n..], off + n, d)
  }

  lemma OneStepLocal(s: bytes, t: bytes, off: nat, off': nat, depth: nat)
    requires OneStep(s, off, depth).Go?
    requires var n := OneStep(s, off, depth).n;
             n <= |s| && n <= |t| && t[..n] == s[..n] && off + n <= MAX_INT && off' + n <= MAX_INT
    ensures OneStep(t, off', depth) == OneStep(s, off, depth)
  {
    hide Get, ToInt64, Low64, WireType;
    var n := OneStep(s, off, depth).n;
    var tag := Get(s, 0);
    Window(s, t, tag.n, n);
    GetLocal(s, t, 0);
    var body, body' := s[tag.n..], t[tag.n..];
    if WireType(tag.value) == 0 || WireType(tag.value) == 2 {
      var v := Get(body, 0);
      Window(body, body', v.n, n - tag.n);
      GetLocal(body, body', 0);
    }
  }

  /** Skipping only depends on the bytes of the field, not on where it lies or what follows. */
  lemma {:induction false} RunLocal(s: bytes, t: bytes, off: nat, off': nat, depth: nat)
    requires Run(s, off, depth).Skipped?
    requires var n := Run(s, off, depth).end - off;
             n <= |s| && n <= |t| && t[..n] == s[..n] && off + n <= MAX_INT && off' + n <= MAX_INT
    ensures Run(t, off', depth) == Skipped(off' + (Run(s, off, depth).end - off))
    decreases |s|
  {
    hide OneStep, Get;
    var n := Run(s, off, depth).end - off;
    var step := OneStep(s, off, depth);
    Window(s, t, step.n, n);
    OneStepLocal(s, t, off, off', depth);
    if step.depth != 0 {
      RunLocal(s[step.n..], t[step.n..], off + step.n, off' + step.n, step.depth);
    }
  }

  lemma {:induction false} RunBound(s: bytes, off: nat, depth: nat)
    requires off + |s| <= MAX_INT
    ensures Run(s, off, depth).Skipped? ==> Run(s, off, depth).end <= MAX_INT
    decreases |s|
  {
    hide Get, Element, ToInt64;
    if s != [] {
      ElementBound(s, depth);
      var step := OneStep(s, off, depth);
      if step.Go? && step.n < |s| {
        RunBound(s[step.n..], off + step.n, step.depth);
      }
    }
  }

  lemma ElementBound(s: bytes, depth: nat)
    ensures Element(s, depth).Go? ==> Element(s, depth).n <= |s| + MAX_INT
  {
    hide Get, ToInt64, Low64;
  }

  // ----- The grammar, by recursive descent -----

  /** Why skipping fails, at any depth, on what comes next. */
  lemma RunErrors(s: bytes, off: nat, depth: nat)
    requires off + |s| <= MAX_INT
    ensures var r := Run(s, off, depth);
            if s == [] then r == Stuck(UnexpectedEOF) else
            var tag := Get(s, 0);
            if tag.err.Some? then r == Stuck(tag.err.value) else
            var wireType, v := WireType(tag.value), Get(s[tag.n..], 0);
            && (wireType > 5 ==> r == Stuck(IllegalWireType))
            && (wireType == 4 && depth == 0 ==> r == Stuck(UnexpectedEndOfGroup))
            && (wireType in {0, 2} && v.err.Some? ==> r == Stuck(v.err.value))
            && (wireType == 2 && v.err.None? && off + tag.n + v.n + Low64(v.value) > MAX_INT ==>
                  r == Stuck(InvalidLength))
            && (wireType == 1 && off + tag.n + 8 > MAX_INT ==> r == Stuck(InvalidLength))
            && (wireType == 5 && off + tag.n + 4 > MAX_INT ==> r == Stuck(InvalidLength))
  {
    hide Get, ToInt64, Low64, WireType;
  }

  /** Inside a group, whatever reaches the end of the string before the group is closed. */
  lemma RunTruncated(s: bytes, off: nat, depth: nat)
    requires off + |s| <= MAX_INT && s != [] && depth > 0
    requires Get(s, 0).err.None?
    ensures var tag := Get(s, 0);
            var wireType, v := WireType(tag.value), Get(s[tag.n..], 0);
            var r := Run(s, off, depth);
            && (wireType == 0 && v.err.None? && tag.n + v.n == |s| ==> r == Stuck(UnexpectedEOF))
            && (wireType == 1 && tag.n + 8 >= |s| && off + tag.n + 8 <= MAX_INT ==> r == Stuck(UnexpectedEOF))
            && (wireType == 2 && v.err.None? && |s| <= tag.n + v.n + Low64(v.value) <= MAX_INT - off ==>
                  r == Stuck(UnexpectedEOF))
            && (wireType == 3 && tag.n == |s| ==> r == Stuck(UnexpectedEOF))
            && (wireType == 4 && depth > 1 && tag.n == |s| ==> r == Stuck(UnexpectedEOF))
            && (wireType == 5 && tag.n + 4 >= |s| && off + tag.n + 4 <= MAX_INT ==> r == Stuck(UnexpectedEOF))
  {
    hide Get, ToInt64, Low64, WireType;
  }

  /** The length of the whole field at the head of `s`, if there is one. */
  ghost function Field(s: bytes): (r: Option<nat>)
    ensures r.Some? ==> 0 < r.value <= |s|
    decreases |s|, 0
  {
    var tag := Get(s, 0);
    if tag.err.Some? then None else
    var body := s[tag.n..];
    match WireType(tag.value)
    case 0 => var v := Get(body, 0); if v.err.None? then Some(tag.n + v.n) else None
    case 1 => if 8 <= |body| then Some(tag.n + 8) else None
    case 2 =>
      var v := Get(body, 0);
      var length := Low64(v.value);
      if v.err.None? && v.n + length <= |body| then Some(tag.n + v.n + length) else None
    case 3 => var g := Group(body); if g.Some? then Some(tag.n + g.value) else None
    case 5 => if 4 <= |body| then Some(tag.n + 4) else None
    case _ => None
  }

  /** The length of the fields of a group up to and including its end tag. */
  ghost function Group(s: bytes): (r: Option<nat>)
    ensures r.Some? ==> 0 < r.value <= |s|
    decreases |s|, 1
  {
    var tag := Get(s, 0);
    if tag.err.None? && WireType(tag.value) == 4 then Some(tag.n) else
    var f := Field(s);
    if f.None? then None else
    var g := Group(s[f.value..]);
    if g.None? then None else Some(f.value + g.value)
  }

  /** What is left to do once the innermost open group is closed after `n` bytes. */
  ghost function After(s: bytes, off: nat, depth: nat, n: nat): Skipped
    requires n <= |s|
  {
    if depth == 0 then Skipped(off + n)
    else if n == |s| then Stuck(UnexpectedEOF)
    else Run(s[n..], off + n, depth)
  }

  /** One iteration on anything but a group tag goes to the end of a field, if that lies inside the string. */
  lemma StepIsField(s: bytes, off: nat, depth: nat)
    requires off + |s| <= MAX_INT
    requires Get(s, 0).err.None? ==> WireType(Get(s, 0).value) !in {3, 4}
    ensures var r := OneStep(s, off, depth);
            if Field(s).Some? then r == Go(Field(s).value, depth)
            else r.Stop? || (r.n > |s| && r.depth == depth)
  {
    hide Get, ToInt64, Low64, WireType, Group;
  }

  lemma RunStart(s: bytes, off: nat, depth: nat)
    requires off + |s| <= MAX_INT
    requires Get(s, 0).err.None? && WireType(Get(s, 0).value) == 3
    ensures var n := Get(s, 0).n;
            Run(s, off, depth) == After(s, off, depth + 1, n)
  {
    hide Get, ToInt64, Low64, WireType;
  }

  /** Inside a group, one field: the counter skips what the grammar calls a field. */
  lemma {:induction false} RunField(s: bytes, off: nat, depth: nat)
    requires off + |s| <= MAX_INT && s != []
    requires depth > 0 && (Get(s, 0).err.None? ==> WireType(Get(s, 0).value) != 4)
    ensures var f := Field(s);
            if f.Some? then Run(s, off, depth) == After(s, off, depth, f.value) else Run(s, off, depth).Stuck?
    decreases |s|, 0
  {
    hide Get, ToInt64, Low64, WireType, Group, OneStep;
    var tag := Get(s, 0);
    if tag.err.None? && WireType(tag.value) == 3 {
      hide Run;
      var body := s[tag.n..];
      RunStart(s, off, depth);
      if body == [] {
        RunEnd(body, off + tag.n, depth + 1);
      } else {
        RunGroup(body, off + tag.n, depth + 1);
      }
      var g := Group(body);
      if g.Some? {
        assert body[g.value..] == s[tag.n + g.value..];
      }
    } else {
      StepIsField(s, off, depth);
      hide Field;
    }
  }

  lemma RunEnd(s: bytes, off: nat, depth: nat)
    requires off + |s| <= MAX_INT
    requires depth > 0
    requires s == [] || (Get(s, 0).err.None? && WireType(Get(s, 0).value) == 4)
    ensures Run(s, off, depth) == if s == [] then Stuck(UnexpectedEOF) else After(s, off, depth - 1, Get(s, 0).n)
  {
    hide Get, ToInt64, Low64, WireType;
  }

  /** Inside a group: the counter reaches the matching end tag exactly where the grammar does. */
  lemma {:induction false} RunGroup(s: bytes, off: nat, depth: nat)
    requires off + |s| <= MAX_INT
    requires depth > 0
    ensures var g := Group(s);
            if g.Some? then Run(s, off, depth) == After(s, off, depth - 1, g.value) else Run(s, off, depth).Stuck?
    decreases |s|, 1
  {
    hide Get, ToInt64, Low64, WireType, Field, Run, OneStep;
    var tag := Get(s, 0);
    if s == [] || (tag.err.None? && WireType(tag.value) == 4) {
      RunEnd(s, off, depth);
    } else {
      RunField(s, off, depth);
      var f := Field(s);
      if f.Some? {
        var t := s[f.value..];
        var g := Group(t);
        if t == [] {
          RunEnd(t, off + f.value, depth);
        } else {
          RunGroup(t, off + f.value, depth);
        }
        if g.Some? {
          assert t[g.value..] == s[f.value + g.value..];
        }
      }
    }
  }

  lemma SkipGroup(s: bytes)
    requires |s| <= MAX_INT
    requires Get(s, 0).err.None? && WireType(Get(s, 0).value) == 3
    ensures if Field(s).Some? then Run(s, 0, 0) == Skipped(Field(s).value) else Run(s, 0, 0).Stuck?
  {
    hide Get, ToInt64, Low64, WireType, Group, Run;
    var tag := Get(s, 0);
    RunStart(s, 0, 0);
    RunGroup(s[tag.n..], tag.n, 1);
  }

  /** Counting depths refines the grammar: `Skip` returns an offset inside the string iff a whole field is there. */
  lemma SkipIsField(s: bytes, n: nat)
    requires |s| <= MAX_INT
    ensures Run(s, 0, 0) == Skipped(n) && n <= |s| <==> Field(s) == Some(n)
  {
    hide Get, ToInt64, Low64, WireType, Group;
    var tag := Get(s, 0);
    if tag.err.None? && WireType(tag.value) == 3 {
      SkipGroup(s);
      hide *;
    } else if tag.err.Some? || WireType(tag.value) != 4 {
      StepIsField(s, 0, 0);
      hide OneStep, Field;
    }
  }

  // ----- The loop -----

  lemma RunUnfold(s: bytes, off: nat, depth: nat)
    ensures Run(s, off, depth) ==
            if s == [] then Stuck(UnexpectedEOF) else
            match OneStep(s, off, depth)
            case Stop(e) => Stuck(e)
            case Go(n, d) =>
              if d == 0 then Skipped(off + n)
              else if n >= |s| then Stuck(UnexpectedEOF)
              else Run(s[n..], off + n, d)
  {
    hide OneStep;
  }

  /** One iteration: the tag, and what its wire type says follows it. */
  method SkipElement(dAtA: bytes, start: nat, open: nat) returns (iNdEx: int, depth: nat, err: Option<Error>)
    requires start < |dAtA| <= MAX_INT
    ensures match OneStep(dAtA[start..], start, open)
            case Stop(e) => err == Some(e)
            case Go(n, d) => err == None && iNdEx == start + n && depth == d
  {
    hide Get, ToInt64, Low64, WireType;
    var wire, v;
    depth := open;
    wire, iNdEx, err := DecodeVarint(dAtA, start, TWO64);
    if err.Some? { return; }
    var wireType := WireType(wire);
    WireTypeLow(Get(dAtA[start..], 0).value);
    if wireType == 0 {
      v, iNdEx, err := DecodeVarint(dAtA, iNdEx, TWO64);
      if err.Some? { return; }
    } else if wireType == 1 {
      iNdEx := ToInt64(iNdEx + 8);
    } else if wireType == 2 {
      v, iNdEx, err := DecodeVarint(dAtA, iNdEx, TWO64);
      if err.Some? { return; }
      var length := ToInt64(v);
      if length < 0 { return iNdEx, depth, Some(InvalidLength); }
      iNdEx := ToInt64(iNdEx + length);
    } else if wireType == 3 {
      depth := depth + 1;
    } else if wireType == 4 {
      if depth == 0 { return iNdEx, depth, Some(UnexpectedEndOfGroup); }
      depth := depth - 1;
    } else if wireType == 5 {
      iNdEx := ToInt64(iNdEx + 4);
    } else {
      return iNdEx, depth, Some(IllegalWireType);
    }
    if iNdEx < 0 { return iNdEx, depth, Some(InvalidLength); }
  }

  method Skip(dAtA: bytes) returns (n: nat, err: Option<Error>)
    requires |dAtA| <= MAX_INT
    ensures match Run(dAtA, 0, 0)
            case Skipped(end) => err == None && n == end
            case Stuck(e) => err == Some(e)
  {
    hide Run, OneStep;
    RunUnfold(dAtA, 0, 0);
    assert dAtA[0..] == dAtA;
    var l := |dAtA|;
    var iNdEx, depth: nat := 0, 0;
    n := 0;
    while iNdEx < l
      invariant 0 <= iNdEx
      invariant if iNdEx < l then Run(dAtA[iNdEx..], iNdEx, depth) == Run(dAtA, 0, 0)
                else Run(dAtA, 0, 0) == Stuck(UnexpectedEOF)
      decreases l - iNdEx
    {
      RunUnfold(dAtA[iNdEx..], iNdEx, depth);
      iNdEx, depth, err := SkipElement(dAtA, iNdEx, depth);
      if err.Some? { return; }
      if depth == 0 { return iNdEx, None; }
    }
    return n, Some(UnexpectedEOF);
  }
}
