/** The ante decorator that rejects transactions carrying a blocked message at any nesting depth. */
module MsgFilter {

  /**
   * A message: one of any type, by its name, or a `MsgExec`, whose nested messages unpack or not.
   */
  datatype Msg = Plain(name: string) | Exec(inner: Unpacked)

  datatype Unpacked = Msgs(msgs: seq<Msg>) | UnpackError

  const EXEC_NAME := "cosmos.authz.v1beta1.MsgExec"

  /** `proto.MessageName`. */
  function MessageName(msg: Msg): string {
    if msg.Plain? then msg.name else EXEC_NAME
  }

  /** The scan of the blocked types, by name. */
  predicate IsBlocked(blockedTypes: seq<string>, msg: Msg) {
    exists i :: 0 <= i < |blockedTypes| && MessageName(msg) == blockedTypes[i]
  }

  /** The recursive search, which stops at the first hit. */
  predicate HasDisallowedMessage(blockedTypes: seq<string>, msgs: seq<Msg>)
    decreases msgs
  {
    if msgs == [] then false
    else if InnerDisallowed(blockedTypes, msgs[0]) then true
    else if IsBlocked(blockedTypes, msgs[0]) then true
    else HasDisallowedMessage(blockedTypes, msgs[1..])
  }

  /** The check of nested messages. */
  predicate InnerDisallowed(blockedTypes: seq<string>, msg: Msg)
    decreases msg
  {
    match msg
    case Exec(UnpackError) => true
    case Exec(Msgs(msgs)) => HasDisallowedMessage(blockedTypes, msgs)
    case Plain(_) => false
  }

  // ----- The tree -----

  /** The message reached by choosing an index at every level, if the path leads to one. */
  predicate Reaches(msgs: seq<Msg>, path: seq<nat>, msg: Msg)
    decreases |path|
  {
    path != [] && path[0] < |msgs| &&
    var m := msgs[path[0]];
    if |path| == 1 then m == msg
    else m.Exec? && m.inner.Msgs? && Reaches(m.inner.msgs, path[1..], msg)
  }

  /** What the filter must not let through: a blocked type, or an exec message it cannot look into. */
  predicate Offends(blockedTypes: seq<string>, msg: Msg) {
    match msg
    case Plain(name) => name in blockedTypes
    case Exec(inner) => EXEC_NAME in blockedTypes || inner.UnpackError?
  }

  /** The path of the hit that the search stops at. */
  lemma {:induction false} HitPath(blockedTypes: seq<string>, msgs: seq<Msg>) returns (path: seq<nat>, msg: Msg)
    requires HasDisallowedMessage(blockedTypes, msgs)
    ensures Reaches(msgs, path, msg) && Offends(blockedTypes, msg)
    decreases msgs
  {
    if Offends(blockedTypes, msgs[0]) {
      path, msg := [0], msgs[0];
    } else if InnerDisallowed(blockedTypes, msgs[0]) {
      path, msg := HitInside(blockedTypes, msgs[0]);
      path := [0] + path;
    } else {
      path, msg := HitPath(blockedTypes, msgs[1..]);
      path := [path[0] + 1] + path[1..];
    }
  }

  lemma HitInside(blockedTypes: seq<string>, outer: Msg) returns (path: seq<nat>, msg: Msg)
    requires InnerDisallowed(blockedTypes, outer) && outer.inner.Msgs?
    ensures Reaches(outer.inner.msgs, path, msg) && Offends(blockedTypes, msg)
    decreases outer
  {
    path, msg := HitPath(blockedTypes, outer.inner.msgs);
  }

  /** An offending message anywhere is found. */
  lemma {:induction false} Found(blockedTypes: seq<string>, msgs: seq<Msg>, path: seq<nat>, msg: Msg)
    requires Reaches(msgs, path, msg) && Offends(blockedTypes, msg)
    ensures HasDisallowedMessage(blockedTypes, msgs)
    decreases |path|, |msgs|
  {
    if path[0] == 0 {
      if |path| > 1 {
        Found(blockedTypes, msgs[0].inner.msgs, path[1..], msg);
      }
    } else {
      Found(blockedTypes, msgs[1..], [path[0] - 1] + path[1..], msg);
    }
  }

  /** Some message in the tree offends. */
  ghost predicate SomeOffends(blockedTypes: seq<string>, msgs: seq<Msg>) {
    exists path: seq<nat>, msg: Msg :: Reaches(msgs, path, msg) && Offends(blockedTypes, msg)
  }

  /** The search answers yes exactly when some message in the tree offends. */
  lemma SearchIsExact(blockedTypes: seq<string>, msgs: seq<Msg>)
    ensures HasDisallowedMessage(blockedTypes, msgs) <==> SomeOffends(blockedTypes, msgs)
  {
    if HasDisallowedMessage(blockedTypes, msgs) {
      var path, msg := HitPath(blockedTypes, msgs);
    } else {
      forall path: seq<nat>, msg: Msg | Reaches(msgs, path, msg) && Offends(blockedTypes, msg)
        ensures false
      {
        Found(blockedTypes, msgs, path, msg);
      }
    }
  }

  /** Neither the order of messages nor their split into lists matters. */
  lemma {:induction false} SearchDistributes(blockedTypes: seq<string>, a: seq<Msg>, b: seq<Msg>)
    ensures HasDisallowedMessage(blockedTypes, a + b) <==>
            HasDisallowedMessage(blockedTypes, a) || HasDisallowedMessage(blockedTypes, b)
    decreases |a|
  {
    if a == [] {
      assert a + b == b;
    } else {
      SearchDistributes(blockedTypes, a[1..], b);
      assert (a + b)[1..] == a[1..] + b;
    }
  }

  function Wrap(msgs: seq<Msg>, depth: nat): seq<Msg> {
    if depth == 0 then msgs else [Exec(Msgs(Wrap(msgs, depth - 1)))]
  }

  /** Wrapping in exec messages hides nothing, however deep, and is itself caught if exec is blocked. */
  lemma {:induction false} WrappingHidesNothing(blockedTypes: seq<string>, msgs: seq<Msg>, depth: nat)
    ensures HasDisallowedMessage(blockedTypes, Wrap(msgs, depth)) <==>
            HasDisallowedMessage(blockedTypes, msgs) || (depth > 0 && EXEC_NAME in blockedTypes)
  {
    if depth > 0 {
      WrappingHidesNothing(blockedTypes, msgs, depth - 1);
      var outer := Wrap(msgs, depth);
      assert outer[1..] == [];
    }
  }

  /** One message that carries no others. */
  lemma LeafIsExact(blockedTypes: seq<string>, name: string)
    ensures HasDisallowedMessage(blockedTypes, [Plain(name)]) <==> name in blockedTypes
    ensures HasDisallowedMessage(blockedTypes, [Exec(UnpackError)])
  {
    SearchIsExact(blockedTypes, [Plain(name)]);
    assert Reaches([Plain(name)], [0], Plain(name));
    assert Reaches([Exec(UnpackError)], [0], Exec(UnpackError)) && Offends(blockedTypes, Exec(UnpackError));
    SearchIsExact(blockedTypes, [Exec(UnpackError)]);
  }

  // ----- The decorator -----

  datatype AnteResult<T> = Rejected(height: int) | Passed(result: T)

  /** `next` stands for the rest of the ante chain. */
  function AnteHandle<T>(blockedTypes: seq<string>, height: int, msgs: seq<Msg>, next: seq<Msg> -> T): AnteResult<T> {
    if HasDisallowedMessage(blockedTypes, msgs) then Rejected(height) else Passed(next(msgs))
  }

  /** The chain goes on exactly when no message in the tree offends. */
  lemma AnteHandleIsExact<T>(blockedTypes: seq<string>, height: int, msgs: seq<Msg>, next: seq<Msg> -> T)
    ensures AnteHandle(blockedTypes, height, msgs, next) ==
            if SomeOffends(blockedTypes, msgs) then Rejected(height) else Passed(next(msgs))
  {
    SearchIsExact(blockedTypes, msgs);
  }
}
