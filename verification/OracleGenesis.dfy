/** Genesis import and export of the oracle module, over a keeper whose collections are maps. */
module OracleGenesis {

  import opened Machine

  // ----- Genesis state and store -----

  type Addr = seq<int>
  type Param = int

  /** One value for each of the pairs of `ParamSetPairs`, in their order. */
  const PARAM_COUNT: nat := 18
  type Params = p: seq<Param> | |p| == PARAM_COUNT witness seq(PARAM_COUNT, _ => 0)
  type Plan = seq<int>

  datatype DecCoin = DecCoin(denom: string, amount: Dec)
  datatype FeederDelegation = FeederDelegation(validatorAddress: string, feederAddress: string)
  datatype MissCounter = MissCounter(validatorAddress: string, missCounter: nat)
  datatype Prevote = Prevote(hash: string, voter: string, submitBlock: nat)
  datatype Vote = Vote(exchangeRates: seq<DecCoin>, voter: string)

  /** The exchange rate is a pointer, which may be nil. */
  datatype PriceStamp = PriceStamp(exchangeRate: Option<DecCoin>, blockNum: nat)

  datatype Genesis = Genesis(
    params: Params,
    exchangeRates: seq<DecCoin>,
    feederDelegations: seq<FeederDelegation>,
    missCounters: seq<MissCounter>,
    prevotes: seq<Prevote>,
    votes: seq<Vote>,
    historicPrices: seq<PriceStamp>,
    medians: seq<PriceStamp>,
    medianDeviations: seq<PriceStamp>)

  type Stamp = (string, nat)

  /** All the keeper's collections, those that genesis does not mention last. */
  datatype Store = Store(
    params: Params,
    rates: map<string, Dec>,
    delegations: map<Addr, Addr>,
    missCounters: map<Addr, nat>,
    prevotes: map<Addr, Prevote>,
    votes: map<Addr, Vote>,
    prices: map<Stamp, Dec>,
    medians: map<Stamp, Dec>,
    deviations: map<Stamp, Dec>,
    lastBlocks: map<string, nat>,
    averages: map<(string, string), Dec>,
    rewardSet: Option<seq<Addr>>,
    plans: map<nat, Plan>)

  function Empty(params: Params): Store {
    Store(params, map[], map[], map[], map[], map[], map[], map[], map[], map[], map[], None, map[])
  }

  /**
   * Text and byte encodings of addresses, upper-casing, the validators of the parameters, and the
   * order in which the store is walked.
   */
  datatype Env = Env(
    parseVal: string -> Option<Addr>, showVal: Addr -> string,
    parseAcc: string -> Option<Addr>, showAcc: Addr -> string,
    upper: string -> string,
    validParam: (nat, Param) -> bool,
    addrOrder: set<Addr> -> seq<Addr>,
    denomOrder: set<string> -> seq<string>,
    stampOrder: set<Stamp> -> seq<Stamp>,
    hasModuleAccount: bool)

  ghost predicate Distinct<K>(s: seq<K>) {
    forall i, j :: 0 <= i < j < |s| ==> s[i] != s[j]
  }

  /** A walk visits every key once. */
  ghost predicate Visits<K(!new)>(order: set<K> -> seq<K>) {
    forall s: set<K> :: Distinct(order(s)) && forall k :: k in order(s) <==> k in s
  }

  /** A walk over pairs visits the blocks of a denom in ascending order. */
  ghost predicate Ascends(order: set<Stamp> -> seq<Stamp>) {
    forall s: set<Stamp>, i, j :: 0 <= i < j < |order(s)| && order(s)[i].0 == order(s)[j].0 ==>
                                    order(s)[i].1 < order(s)[j].1
  }

  /** An address that was read from a text reads back from the text it is shown as. */
  ghost predicate ReadsBack(parse: string -> Option<Addr>, show: Addr -> string) {
    forall t :: parse(t).Some? ==> parse(show(parse(t).value)) == parse(t)
  }

  ghost predicate Sound(env: Env) {
    && ReadsBack(env.parseVal, env.showVal)
    && ReadsBack(env.parseAcc, env.showAcc)
    && (forall s :: env.upper(env.upper(s)) == env.upper(s))
    && Visits(env.addrOrder) && Visits(env.denomOrder) && Visits(env.stampOrder)
    && Ascends(env.stampOrder)
  }

  // ----- One stream of entries -----

  /** What one setter call does with an element: a key and a value, or a panic before it. */
  datatype Imported<K, V> = Imported(m: map<K, V>, panicked: bool)

  /** The import loop: later entries win, and a panic leaves the earlier ones. */
  function ImportAll<E, K, V>(m: map<K, V>, list: seq<E>, entry: E -> Option<(K, V)>): Imported<K, V> {
    if list == [] then Imported(m, false) else
    var r := ImportAll(m, list[..|list| - 1], entry);
    if r.panicked then r else
    match entry(list[|list| - 1])
    case None => Imported(r.m, true)
    case Some((k, v)) => Imported(r.m[k := v], false)
  }

  /** A walk with a callback that appends to a list. */
  function ExportAll<E, K, V>(m: map<K, V>, keys: seq<K>, show: (K, V) -> E): (list: seq<E>)
    requires forall k :: k in keys ==> k in m
    ensures |list| == |keys| && forall i :: 0 <= i < |keys| ==> list[i] == show(keys[i], m[keys[i]])
  {
    if keys == [] then [] else
    ExportAll(m, keys[..|keys| - 1], show) + [show(keys[|keys| - 1], m[keys[|keys| - 1]])]
  }

  method ImportLoop<E, K, V>(m: map<K, V>, list: seq<E>, entry: E -> Option<(K, V)>) returns (r: map<K, V>,
          panicked: bool)
    ensures Imported(r, panicked) == ImportAll(m, list, entry)
  {
    r := m;
    for i := 0 to |list|
      invariant ImportAll(m, list[..i], entry) == Imported(r, false)
    {
      assert list[..i + 1][..i] == list[..i];
      match entry(list[i])
      case None =>
        PanicStays(m, list, entry, i + 1);
        return r, true;
      case Some((k, v)) =>
        r := r[k := v];
    }
    assert list[..|list|] == list;
    return r, false;
  }

  lemma {:induction false} PanicStays<E, K, V>(m: map<K, V>, list: seq<E>, entry: E -> Option<(K, V)>, n: nat)
    requires n <= |list| && ImportAll(m, list[..n], entry).panicked
    ensures ImportAll(m, list, entry) == ImportAll(m, list[..n], entry)
  {
    if n == |list| {
      assert list[..n] == list;
    } else {
      var rest := list[..|list| - 1];
      assert rest[..n] == list[..n];
      PanicStays(m, rest, entry, n);
    }
  }

  method ExportLoop<E, K, V>(m: map<K, V>, keys: seq<K>, show: (K, V) -> E) returns (list: seq<E>)
    requires forall k :: k in keys ==> k in m
    ensures list == ExportAll(m, keys, show)
  {
    list := [];
    for i := 0 to |keys|
      invariant list == ExportAll(m, keys[..i], show)
    {
      list := list + [show(keys[i], m[keys[i]])];
      assert keys[..i + 1][..i] == keys[..i];
    }
    assert keys[..|keys|] == keys;
  }

  /** Which entry a key of an imported map comes from: the last one with that key. */
  ghost predicate WrittenLast<E, K, V>(list: seq<E>, entry: E -> Option<(K, V)>, k: K, v: V, i: nat) {
    i < |list| && entry(list[i]) == Some((k, v)) &&
    forall j :: i < j < |list| ==> entry(list[j]).Some? && entry(list[j]).value.0 != k
  }

  lemma {:induction false} ImportIsLastWrite<E, K, V>(list: seq<E>, entry: E -> Option<(K, V)>, k: K) returns (i: nat)
    requires !ImportAll(map[], list, entry).panicked
    requires k in ImportAll(map[], list, entry).m
    ensures WrittenLast(list, entry, k, ImportAll(map[], list, entry).m[k], i)
  {
    var n := |list| - 1;
    var rest := list[..n];
    var (k', v) := entry(list[n]).value;
    if k == k' {
      i := n;
    } else {
      i := ImportIsLastWrite(rest, entry, k);
      forall j | i < j < |list|
        ensures entry(list[j]).Some? && entry(list[j]).value.0 != k
      {
        if j < n {
          assert rest[j] == list[j];
        }
      }
    }
  }

  lemma {:induction false} ImportHasKeys<E, K, V>(list: seq<E>, entry: E -> Option<(K, V)>, i: nat)
    requires !ImportAll(map[], list, entry).panicked && i < |list|
    ensures entry(list[i]).Some? && entry(list[i]).value.0 in ImportAll(map[], list, entry).m
  {
    if i < |list| - 1 {
      ImportHasKeys(list[..|list| - 1], entry, i);
    }
  }

  lemma {:induction false} ImportPanics<E, K, V>(m: map<K, V>, list: seq<E>, entry: E -> Option<(K, V)>)
    ensures ImportAll(m, list, entry).panicked <==> exists i :: 0 <= i < |list| && entry(list[i]) == None
  {
    if list != [] {
      var n := |list| - 1;
      ImportPanics(m, list[..n], entry);
      assert forall i :: 0 <= i < n ==> list[..n][i] == list[i];
    }
  }

  /** How many entries are read before the first one that cannot be. */
  ghost function Readable<E, K, V>(list: seq<E>, entry: E -> Option<(K, V)>): (n: nat)
    ensures n <= |list| && forall i :: 0 <= i < n ==> entry(list[i]).Some?
    ensures n < |list| ==> entry(list[n]) == None
  {
    if list == [] || entry(list[0]) == None then 0 else 1 + Readable(list[1..], entry)
  }

  /** Of the first `n` entries, the `i`-th is the last that names its key. */
  ghost predicate LastOfKey<E, K, V>(list: seq<E>, n: nat, entry: E -> Option<(K, V)>, i: nat)
    requires i < n <= |list| && entry(list[i]).Some?
  {
    forall j :: i < j < n && entry(list[j]).Some? ==> entry(list[j]).value.0 != entry(list[i]).value.0
  }

  ghost predicate Names<E, K, V>(list: seq<E>, n: nat, entry: E -> Option<(K, V)>, k: K)
    requires n <= |list|
  {
    exists i :: 0 <= i < n && entry(list[i]).Some? && entry(list[i]).value.0 == k
  }

  /**
   * What the first `n` entries of a list make of a map in use: a key has the value of the last of
   * them that names it, and keeps its value if none does.
   */
  ghost predicate LastWrites<E, K(!new), V>(m0: map<K, V>, m: map<K, V>, list: seq<E>, n: nat,
          entry: E -> Option<(K, V)>)
    requires n <= |list|
  {
    NamedWritten(m, list, n, entry) && OthersKept(m0, m, list, n, entry)
  }

  ghost predicate NamedWritten<E, K, V>(m: map<K, V>, list: seq<E>, n: nat, entry: E -> Option<(K, V)>)
    requires n <= |list|
  {
    forall i :: 0 <= i < n && entry(list[i]).Some? && LastOfKey(list, n, entry, i) ==>
      entry(list[i]).value.0 in m && m[entry(list[i]).value.0] == entry(list[i]).value.1
  }

  ghost predicate OthersKept<E, K(!new), V>(m0: map<K, V>, m: map<K, V>, list: seq<E>, n: nat,
          entry: E -> Option<(K, V)>)
    requires n <= |list|
  {
    forall k: K :: !Names(list, n, entry, k) ==> (k in m <==> k in m0) && (k in m && k in m0 ==> m[k] == m0[k])
  }

  lemma {:induction false} ImportPrefix<E, K(!new), V>(m0: map<K, V>, list: seq<E>, entry: E -> Option<(K, V)>, n: nat)
    requires n <= |list| && forall i :: 0 <= i < n ==> entry(list[i]).Some?
    ensures !ImportAll(m0, list[..n], entry).panicked
    ensures LastWrites(m0, ImportAll(m0, list[..n], entry).m, list, n, entry)
  {
    hide LastOfKey, Names;
    if n > 0 {
      var k := n - 1;
      ImportPrefix(m0, list, entry, k);
      assert list[..n][..k] == list[..k] && list[..n][k] == list[k];
      hide LastWrites;
      WriteOne(m0, ImportAll(m0, list[..k], entry).m, list, k, entry);
    }
  }

  /** One more entry. */
  lemma WriteOne<E, K(!new), V>(m0: map<K, V>, m: map<K, V>, list: seq<E>, n: nat, entry: E -> Option<(K, V)>)
    requires n < |list| && entry(list[n]).Some?
    requires LastWrites(m0, m, list, n, entry)
    ensures var (k, v) := entry(list[n]).value;
            LastWrites(m0, m[k := v], list, n + 1, entry)
  {
    WriteNamed(m, list, n, entry);
    KeepOthers(m0, m, list, n, entry);
  }

  lemma WriteNamed<E, K, V>(m: map<K, V>, list: seq<E>, n: nat, entry: E -> Option<(K, V)>)
    requires n < |list| && entry(list[n]).Some?
    requires NamedWritten(m, list, n, entry)
    ensures var (k, v) := entry(list[n]).value;
            NamedWritten(m[k := v], list, n + 1, entry)
  {
    hide LastOfKey;
    forall i | 0 <= i < n && entry(list[i]).Some? && LastOfKey(list, n + 1, entry, i)
      ensures LastOfKey(list, n, entry, i) && entry(list[n]).value.0 != entry(list[i]).value.0
    {
      StillLast(list, n, entry, i);
    }
  }

  lemma KeepOthers<E, K(!new), V>(m0: map<K, V>, m: map<K, V>, list: seq<E>, n: nat, entry: E -> Option<(K, V)>)
    requires n < |list| && entry(list[n]).Some?
    requires OthersKept(m0, m, list, n, entry)
    ensures var (k, v) := entry(list[n]).value;
            OthersKept(m0, m[k := v], list, n + 1, entry)
  {
    hide Names;
    var m' := m[entry(list[n]).value.0 := entry(list[n]).value.1];
    forall k: K | !Names(list, n + 1, entry, k)
      ensures (k in m' <==> k in m0) && (k in m' && k in m0 ==> m'[k] == m0[k])
    {
      StillUnnamed(list, n, entry, k);
    }
  }

  lemma StillLast<E, K, V>(list: seq<E>, n: nat, entry: E -> Option<(K, V)>, i: nat)
    requires i < n < |list| && entry(list[i]).Some? && entry(list[n]).Some?
    requires LastOfKey(list, n + 1, entry, i)
    ensures LastOfKey(list, n, entry, i) && entry(list[n]).value.0 != entry(list[i]).value.0
  {
  }

  lemma StillUnnamed<E, K, V>(list: seq<E>, n: nat, entry: E -> Option<(K, V)>, k: K)
    requires n < |list| && entry(list[n]).Some?
    requires !Names(list, n + 1, entry, k)
    ensures !Names(list, n, entry, k) && entry(list[n]).value.0 != k
  {
  }

  /** The import of a list into a map in use, panic or not. */
  lemma ImportWrites<E, K(!new), V>(m0: map<K, V>, list: seq<E>, entry: E -> Option<(K, V)>)
    ensures var n, r := Readable(list, entry), ImportAll(m0, list, entry);
            (r.panicked <==> n < |list|) && LastWrites(m0, r.m, list, n, entry)
  {
    var n := Readable(list, entry);
    ImportPrefix(m0, list, entry, n);
    if n < |list| {
      assert list[..n + 1][..n] == list[..n] && list[..n + 1][n] == list[n];
      PanicStays(m0, list, entry, n + 1);
    } else {
      assert list[..n] == list;
    }
  }

  /** Importing an exported map, when every entry reads back as itself. */
  lemma {:induction false} Rebuilds<E, K, V>(m: map<K, V>, keys: seq<K>, show: (K, V) -> E, entry: E -> Option<(K, V)>)
    requires forall k :: k in keys ==> k in m && entry(show(k, m[k])) == Some((k, m[k]))
    ensures var r := ImportAll(map[], ExportAll(m, keys, show), entry);
            !r.panicked && (forall k :: k in r.m <==> k in keys) && forall k :: k in r.m ==> r.m[k] == m[k]
  {
    if keys != [] {
      var rest, last := keys[..|keys| - 1], keys[|keys| - 1];
      Rebuilds(m, rest, show, entry);
      var list := ExportAll(m, keys, show);
      assert list[..|list| - 1] == ExportAll(m, rest, show);
      assert keys == rest + [last];
    }
  }

  /** A whole stream survives export and import. */
  lemma StreamRoundTrip<E, K(!new), V>(m: map<K, V>, order: set<K> -> seq<K>, show: (K, V) -> E,
          entry: E -> Option<(K, V)>)
    requires Visits(order)
    requires forall k :: k in m ==> entry(show(k, m[k])) == Some((k, m[k]))
    ensures forall k :: k in order(m.Keys) ==> k in m
    ensures ImportAll(map[], ExportAll(m, order(m.Keys), show), entry) == Imported(m, false)
  {
    Rebuilds(m, order(m.Keys), show, entry);
  }

  // ----- The elements -----

  function DelegationEntry(env: Env): FeederDelegation -> Option<(Addr, Addr)> {
    (d: FeederDelegation) => match (env.parseVal(d.validatorAddress), env.parseAcc(d.feederAddress))
         case (Some(v), Some(f)) => Some((v, f))
         case _ => None
  }

  function ShowDelegation(env: Env): (Addr, Addr) -> FeederDelegation {
    (v, f) => FeederDelegation(env.showVal(v), env.showAcc(f))
  }

  /** `SetExchangeRate` stores under the upper-cased denom. */
  function RateEntry(env: Env): DecCoin -> Option<(string, Dec)> {
    (c: DecCoin) => Some((env.upper(c.denom), c.amount))
  }

  function ShowRate(): (string, Dec) -> DecCoin {
    (denom, rate) => DecCoin(denom, rate)
  }

  function MissEntry(env: Env): MissCounter -> Option<(Addr, nat)> {
    (c: MissCounter) => match env.parseVal(c.validatorAddress)
         case Some(v) => Some((v, c.missCounter))
         case None => None
  }

  function ShowMiss(env: Env): (Addr, nat) -> MissCounter {
    (v: Addr, n: nat) => MissCounter(env.showVal(v), n)
  }

  /** Prevotes and votes are stored under the validator they name. */
  function VoterEntry<V>(env: Env, voter: V -> string): V -> Option<(Addr, V)> {
    (p: V) => match env.parseVal(voter(p))
         case Some(v) => Some((v, p))
         case None => None
  }

  function PrevoteVoter(): Prevote -> string {
    (p: Prevote) => p.voter
  }

  function VoteVoter(): Vote -> string {
    (p: Vote) => p.voter
  }

  /** The export of prevotes and votes drops the key. */
  function ShowValue<V>(): (Addr, V) -> V {
    (_, v) => v
  }

  function StampEntry(): PriceStamp -> Option<(Stamp, Dec)> {
    (p: PriceStamp) => match p.exchangeRate
         case Some(c) => Some(((c.denom, p.blockNum), c.amount))
         case None => None
  }

  /** `SetHistoricPrice` also records the block as the last one of its denom. */
  function LastBlockEntry(): PriceStamp -> Option<(string, nat)> {
    (p: PriceStamp) => match p.exchangeRate
         case Some(c) => Some((c.denom, p.blockNum))
         case None => None
  }

  function ShowStamp(): (Stamp, Dec) -> PriceStamp {
    (s: Stamp, amount: Dec) => PriceStamp(Some(DecCoin(s.0, amount)), s.1)
  }

  // ----- Parameters -----

  /** Setting the parameters from the `i`-th on: the first that is invalid panics and leaves those before it set. */
  function SetParams(env: Env, stored: Params, given: Params, i: nat): (Params, bool)
    requires i <= PARAM_COUNT
    decreases PARAM_COUNT - i
  {
    if i == PARAM_COUNT then (stored, false)
    else if !env.validParam(i, given[i]) then (stored, true)
    else SetParams(env, stored[i := given[i]], given, i + 1)
  }

  predicate ParamsValid(env: Env, p: Params) {
    forall i :: 0 <= i < PARAM_COUNT ==> env.validParam(i, p[i])
  }

  /** They are all set if they are all valid, and otherwise setting them panics. */
  lemma {:induction false} SetParamsIff(env: Env, stored: Params, given: Params, i: nat)
    requires i <= PARAM_COUNT && stored[..i] == given[..i]
    requires forall j :: 0 <= j < i ==> env.validParam(j, given[j])
    ensures if ParamsValid(env, given) then SetParams(env, stored, given, i) == (given, false)
            else SetParams(env, stored, given, i).1
    decreases PARAM_COUNT - i
  {
    if i == PARAM_COUNT {
      assert stored == stored[..i] == given[..i] == given;
    } else if env.validParam(i, given[i]) {
      SetParamsIff(env, stored[i := given[i]], given, i + 1);
    }
  }

  // ----- Import and export -----

  datatype Loaded = Loaded(store: Store, panicked: bool)

  /** The streams of addresses, rates and votes, in order. */
  function ImportVotes(env: Env, s0: Store, g: Genesis): Loaded {
    var delegations := ImportAll(s0.delegations, g.feederDelegations, DelegationEntry(env));
    var s1 := s0.(delegations := delegations.m);
    if delegations.panicked then Loaded(s1, true) else
    var s2 := s1.(rates := ImportAll(s1.rates, g.exchangeRates, RateEntry(env)).m);
    var missCounters := ImportAll(s2.missCounters, g.missCounters, MissEntry(env));
    var s3 := s2.(missCounters := missCounters.m);
    if missCounters.panicked then Loaded(s3, true) else
    var prevotes := ImportAll(s3.prevotes, g.prevotes, VoterEntry(env, PrevoteVoter()));
    var s4 := s3.(prevotes := prevotes.m);
    if prevotes.panicked then Loaded(s4, true) else
    var votes := ImportAll(s4.votes, g.votes, VoterEntry(env, VoteVoter()));
    Loaded(s4.(votes := votes.m), votes.panicked)
  }

  /** The streams of price stamps, the parameters, and the check of the module account. */
  function ImportPrices(env: Env, s0: Store, g: Genesis): Loaded {
    var prices := ImportAll(s0.prices, g.historicPrices, StampEntry());
    var s1 := s0.(prices := prices.m, lastBlocks := ImportAll(s0.lastBlocks, g.historicPrices, LastBlockEntry()).m);
    if prices.panicked then Loaded(s1, true) else
    var medians := ImportAll(s1.medians, g.medians, StampEntry());
    var s2 := s1.(medians := medians.m);
    if medians.panicked then Loaded(s2, true) else
    var deviations := ImportAll(s2.deviations, g.medianDeviations, StampEntry());
    var s3 := s2.(deviations := deviations.m);
    if deviations.panicked then Loaded(s3, true) else
    var (params, panicked) := SetParams(env, s3.params, g.params, 0);
    Loaded(s3.(params := params), panicked || !env.hasModuleAccount)
  }

  /** `InitGenesis`. */
  function Import(env: Env, s0: Store, g: Genesis): Loaded {
    var o := ImportVotes(env, s0, g);
    if o.panicked then o else ImportPrices(env, o.store, g)
  }

  /** A successful import, stream by stream. */
  lemma ImportStreams(env: Env, params: Params, g: Genesis)
    ensures var o := Import(env, Empty(params), g);
            var delegations := ImportAll(map[], g.feederDelegations, DelegationEntry(env));
            var missCounters := ImportAll(map[], g.missCounters, MissEntry(env));
            var prevotes := ImportAll(map[], g.prevotes, VoterEntry(env, PrevoteVoter()));
            var votes := ImportAll(map[], g.votes, VoterEntry(env, VoteVoter()));
            var prices := ImportAll(map[], g.historicPrices, StampEntry());
            var medians := ImportAll(map[], g.medians, StampEntry());
            var deviations := ImportAll(map[], g.medianDeviations, StampEntry());
            if delegations.panicked || missCounters.panicked || prevotes.panicked || votes.panicked ||
               prices.panicked || medians.panicked || deviations.panicked || !ParamsValid(env, g.params) ||
               !env.hasModuleAccount
            then o.panicked
            else o == Loaded(
                   Store(g.params, ImportAll(map[], g.exchangeRates, RateEntry(env)).m, delegations.m, missCounters.m,
                         prevotes.m, votes.m, prices.m, medians.m, deviations.m,
                         ImportAll(map[], g.historicPrices, LastBlockEntry()).m, map[], None, map[]), false)
  {
    hide ImportAll, SetParams, ParamsValid;
    SetParamsIff(env, params, g.params, 0);
  }

  /** `ExportGenesis`. */
  function Export(env: Env, s: Store): Genesis
    requires Sound(env)
  {
    Genesis(
      s.params,
      ExportAll(s.rates, env.denomOrder(s.rates.Keys), ShowRate()),
      ExportAll(s.delegations, env.addrOrder(s.delegations.Keys), ShowDelegation(env)),
      ExportAll(s.missCounters, env.addrOrder(s.missCounters.Keys), ShowMiss(env)),
      ExportAll(s.prevotes, env.addrOrder(s.prevotes.Keys), ShowValue()),
      ExportAll(s.votes, env.addrOrder(s.votes.Keys), ShowValue()),
      ExportAll(s.prices, env.stampOrder(s.prices.Keys), ShowStamp()),
      ExportAll(s.medians, env.stampOrder(s.medians.Keys), ShowStamp()),
      ExportAll(s.deviations, env.stampOrder(s.deviations.Keys), ShowStamp()))
  }

  lemma {:induction false} DistinctSize<K>(keys: seq<K>, all: set<K>)
    requires Distinct(keys) && forall k :: k in keys <==> k in all
    ensures |keys| == |all|
  {
    if keys == [] {
      assert all == {};
    } else {
      var n := |keys| - 1;
      assert keys == keys[..n] + [keys[n]];
      DistinctSize(keys[..n], all - {keys[n]});
    }
  }

  /** A list has one entry for each key of a map, in the walk's order, made of the key and its value. */
  ghost predicate Walked<E, K(!new), V>(list: seq<E>, m: map<K, V>, keys: seq<K>, show: (K, V) -> E) {
    && |list| == |keys| == |m| && Distinct(keys)
    && (forall k: K :: k in keys <==> k in m)
    && forall i :: 0 <= i < |keys| ==> keys[i] in m && list[i] == show(keys[i], m[keys[i]])
  }

  lemma WalkLists<E, K(!new), V>(order: set<K> -> seq<K>, m: map<K, V>, show: (K, V) -> E)
    requires Visits(order)
    ensures forall k :: k in order(m.Keys) ==> k in m
    ensures Walked(ExportAll(m, order(m.Keys), show), m, order(m.Keys), show)
  {
    DistinctSize(order(m.Keys), m.Keys);
    assert |m.Keys| == |m|;
  }

  /** What is exported of a key and its value. */
  lemma EntriesShown(env: Env, a: Addr, b: Addr, n: nat, denom: string, x: Dec, block: nat, p: Prevote, v: Vote)
    ensures ShowDelegation(env)(a, b) == FeederDelegation(env.showVal(a), env.showAcc(b))
    ensures ShowRate()(denom, x) == DecCoin(denom, x)
    ensures ShowMiss(env)(a, n) == MissCounter(env.showVal(a), n)
    ensures ShowValue()(a, p) == p && ShowValue()(a, v) == v
    ensures ShowStamp()((denom, block), x) == PriceStamp(Some(DecCoin(denom, x)), block)
  {
  }

  /** Every collection is exported in the order of its walk, each key at its place and once, with its value. */
  lemma ExportIsWalk(env: Env, s: Store)
    requires Sound(env)
    ensures var g := Export(env, s);
            && Walked(g.exchangeRates, s.rates, env.denomOrder(s.rates.Keys), ShowRate())
            && Walked(g.feederDelegations, s.delegations, env.addrOrder(s.delegations.Keys), ShowDelegation(env))
            && Walked(g.missCounters, s.missCounters, env.addrOrder(s.missCounters.Keys), ShowMiss(env))
            && Walked(g.prevotes, s.prevotes, env.addrOrder(s.prevotes.Keys), ShowValue())
            && Walked(g.votes, s.votes, env.addrOrder(s.votes.Keys), ShowValue())
            && Walked(g.historicPrices, s.prices, env.stampOrder(s.prices.Keys), ShowStamp())
            && Walked(g.medians, s.medians, env.stampOrder(s.medians.Keys), ShowStamp())
            && Walked(g.medianDeviations, s.deviations, env.stampOrder(s.deviations.Keys), ShowStamp())
            && g.params == s.params
  {
    WalkLists(env.denomOrder, s.rates, ShowRate());
    WalkLists(env.addrOrder, s.delegations, ShowDelegation(env));
    WalkLists(env.addrOrder, s.missCounters, ShowMiss(env));
    WalkLists(env.addrOrder, s.prevotes, ShowValue());
    WalkLists(env.addrOrder, s.votes, ShowValue());
    WalkLists(env.stampOrder, s.prices, ShowStamp());
    WalkLists(env.stampOrder, s.medians, ShowStamp());
    WalkLists(env.stampOrder, s.deviations, ShowStamp());
    hide ExportAll, Walked, ShowDelegation, ShowRate, ShowMiss, ShowValue, ShowStamp;
  }

  /** What is left of a store that was exported and imported into an empty one. */
  function Restored(env: Env, params: Params, s: Store): Loaded
    requires Sound(env)
  {
    Import(env, Empty(params), Export(env, s))
  }

  // ----- What an import writes -----

  /** How the entries are read, and which ones cannot be. */
  lemma EntriesRead(env: Env, d: FeederDelegation, c: MissCounter, r: DecCoin, p: Prevote, v: Vote, s: PriceStamp)
    ensures DelegationEntry(env)(d) == None <==>
            env.parseVal(d.validatorAddress) == None || env.parseAcc(d.feederAddress) == None
    ensures forall a, b :: DelegationEntry(env)(d) == Some((a, b)) <==>
                           env.parseVal(d.validatorAddress) == Some(a) && env.parseAcc(d.feederAddress) == Some(b)
    ensures RateEntry(env)(r) == Some((env.upper(r.denom), r.amount))
    ensures MissEntry(env)(c) == None <==> env.parseVal(c.validatorAddress) == None
    ensures forall a, n :: MissEntry(env)(c) == Some((a, n)) <==>
                           env.parseVal(c.validatorAddress) == Some(a) && n == c.missCounter
    ensures VoterEntry(env, PrevoteVoter())(p) == None <==> env.parseVal(p.voter) == None
    ensures forall a, q :: VoterEntry(env, PrevoteVoter())(p) == Some((a, q)) <==>
                           env.parseVal(p.voter) == Some(a) && q == p
    ensures VoterEntry(env, VoteVoter())(v) == None <==> env.parseVal(v.voter) == None
    ensures forall a, w :: VoterEntry(env, VoteVoter())(v) == Some((a, w)) <==>
                           env.parseVal(v.voter) == Some(a) && w == v
    ensures if s.exchangeRate == None then StampEntry()(s) == None && LastBlockEntry()(s) == None
            else var c := s.exchangeRate.value;
                 && StampEntry()(s) == Some(((c.denom, s.blockNum), c.amount))
                 && LastBlockEntry()(s) == Some((c.denom, s.blockNum))
  {
  }

  /** How many entries of each list an import reads before it stops; `complete` if it reads them all. */
  datatype Progress = Progress(delegations: nat, rates: nat, counters: nat, prevotes: nat, votes: nat, prices: nat,
          medians: nat, deviations: nat, complete: bool)

  ghost function Reached<E, K, V>(open: bool, list: seq<E>, entry: E -> Option<(K, V)>): (n: nat)
    ensures n <= |list|
  {
    if open then Readable(list, entry) else 0
  }

  /** The lists are read in this order, up to the first entry that cannot be. */
  ghost function Reads(env: Env, g: Genesis): (n: Progress)
    ensures n.delegations <= |g.feederDelegations| && n.rates <= |g.exchangeRates| && n.counters <= |g.missCounters|
    ensures n.prevotes <= |g.prevotes| && n.votes <= |g.votes| && n.prices <= |g.historicPrices|
    ensures n.medians <= |g.medians| && n.deviations <= |g.medianDeviations|
  {
    var n1 := Reached(true, g.feederDelegations, DelegationEntry(env));
    var ok1 := n1 == |g.feederDelegations|;
    var n2 := Reached(ok1, g.exchangeRates, RateEntry(env));
    var n3 := Reached(ok1, g.missCounters, MissEntry(env));
    var ok3 := ok1 && n3 == |g.missCounters|;
    var n4 := Reached(ok3, g.prevotes, VoterEntry(env, PrevoteVoter()));
    var ok4 := ok3 && n4 == |g.prevotes|;
    var n5 := Reached(ok4, g.votes, VoterEntry(env, VoteVoter()));
    var ok5 := ok4 && n5 == |g.votes|;
    var n6 := Reached(ok5, g.historicPrices, StampEntry());
    var ok6 := ok5 && n6 == |g.historicPrices|;
    var n7 := Reached(ok6, g.medians, StampEntry());
    var ok7 := ok6 && n7 == |g.medians|;
    var n8 := Reached(ok7, g.medianDeviations, StampEntry());
    Progress(n1, n2, n3, n4, n5, n6, n7, n8, ok7 && n8 == |g.medianDeviations|)
  }

  /** A list that is not reached, or read as far as it can be. */
  lemma StreamWrites<E, K(!new), V>(open: bool, m0: map<K, V>, list: seq<E>, entry: E -> Option<(K, V)>)
    ensures var n, r := Reached(open, list, entry), ImportAll(m0, list, entry);
            LastWrites(m0, if open then r.m else m0, list, n, entry) && (open ==> (r.panicked <==> n < |list|))
  {
    ImportWrites(m0, list, entry);
  }

  lemma ImportVotesWrites(env: Env, s0: Store, g: Genesis)
    ensures var o, n := ImportVotes(env, s0, g), Reads(env, g);
            var s := o.store;
            && LastWrites(s0.delegations, s.delegations, g.feederDelegations, n.delegations, DelegationEntry(env))
            && LastWrites(s0.rates, s.rates, g.exchangeRates, n.rates, RateEntry(env))
            && LastWrites(s0.missCounters, s.missCounters, g.missCounters, n.counters, MissEntry(env))
            && LastWrites(s0.prevotes, s.prevotes, g.prevotes, n.prevotes, VoterEntry(env, PrevoteVoter()))
            && LastWrites(s0.votes, s.votes, g.votes, n.votes, VoterEntry(env, VoteVoter()))
            && s == s0.(delegations := s.delegations, rates := s.rates, missCounters := s.missCounters,
                        prevotes := s.prevotes, votes := s.votes)
    ensures var n := Reads(env, g);
            ImportVotes(env, s0, g).panicked <==>
            n.delegations < |g.feederDelegations| || n.counters < |g.missCounters| || n.prevotes < |g.prevotes| ||
            n.votes < |g.votes|
  {
    var n := Reads(env, g);
    var ok1 := n.delegations == |g.feederDelegations|;
    var ok3 := ok1 && n.counters == |g.missCounters|;
    var ok4 := ok3 && n.prevotes == |g.prevotes|;
    StreamWrites(true, s0.delegations, g.feederDelegations, DelegationEntry(env));
    StreamWrites(ok1, s0.rates, g.exchangeRates, RateEntry(env));
    StreamWrites(ok1, s0.missCounters, g.missCounters, MissEntry(env));
    StreamWrites(ok3, s0.prevotes, g.prevotes, VoterEntry(env, PrevoteVoter()));
    StreamWrites(ok4, s0.votes, g.votes, VoterEntry(env, VoteVoter()));
    hide ImportAll, LastWrites, Reached, DelegationEntry, RateEntry, MissEntry, VoterEntry, PrevoteVoter, VoteVoter;
  }

  lemma {:induction false} SetParamsWrites(env: Env, stored: Params, given: Params, i: nat, j: nat)
    requires i <= PARAM_COUNT && j < PARAM_COUNT
    ensures var r := SetParams(env, stored, given, i);
            && (r.1 <==> exists k :: i <= k < PARAM_COUNT && !env.validParam(k, given[k]))
            && r.0[j] ==
               if i <= j && (forall k :: i <= k <= j ==> env.validParam(k, given[k])) then given[j] else stored[j]
    decreases PARAM_COUNT - i
  {
    if i < PARAM_COUNT && env.validParam(i, given[i]) {
      SetParamsWrites(env, stored[i := given[i]], given, i + 1, j);
    }
  }

  lemma ParamsWrites(env: Env, stored: Params, given: Params)
    ensures var r := SetParams(env, stored, given, 0);
            && (r.1 <==> !ParamsValid(env, given))
            && forall j :: 0 <= j < PARAM_COUNT ==>
                 r.0[j] == if forall k :: 0 <= k <= j ==> env.validParam(k, given[k]) then given[j] else stored[j]
  {
    forall j | 0 <= j < PARAM_COUNT
      ensures var r := SetParams(env, stored, given, 0);
              (r.1 <==> !ParamsValid(env, given)) &&
              r.0[j] == if forall k :: 0 <= k <= j ==> env.validParam(k, given[k]) then given[j] else stored[j]
    {
      SetParamsWrites(env, stored, given, 0, j);
    }
  }

  lemma ImportPricesWrites(env: Env, s0: Store, g: Genesis)
    requires !ImportVotes(env, s0, g).panicked
    ensures var o, n := ImportPrices(env, s0, g), Reads(env, g);
            var s := o.store;
            && LastWrites(s0.prices, s.prices, g.historicPrices, n.prices, StampEntry())
            && LastWrites(s0.lastBlocks, s.lastBlocks, g.historicPrices, n.prices, LastBlockEntry())
            && LastWrites(s0.medians, s.medians, g.medians, n.medians, StampEntry())
            && LastWrites(s0.deviations, s.deviations, g.medianDeviations, n.deviations, StampEntry())
            && (forall j :: 0 <= j < PARAM_COUNT ==>
                  s.params[j] ==
                  if n.complete && (forall k :: 0 <= k <= j ==> env.validParam(k, g.params[k])) then g.params[j]
                  else s0.params[j])
            && s == s0.(prices := s.prices, lastBlocks := s.lastBlocks, medians := s.medians,
                        deviations := s.deviations, params := s.params)
            && (o.panicked <==> !n.complete || !ParamsValid(env, g.params) || !env.hasModuleAccount)
  {
    ImportVotesWrites(env, s0, g);
    var n := Reads(env, g);
    var ok6 := n.prices == |g.historicPrices|;
    var ok7 := ok6 && n.medians == |g.medians|;
    StreamWrites(true, s0.prices, g.historicPrices, StampEntry());
    StreamWrites(true, s0.lastBlocks, g.historicPrices, LastBlockEntry());
    SameReadable(g.historicPrices);
    StreamWrites(ok6, s0.medians, g.medians, StampEntry());
    StreamWrites(ok7, s0.deviations, g.medianDeviations, StampEntry());
    ParamsWrites(env, s0.params, g.params);
    hide ImportAll, LastWrites, Readable, StampEntry, LastBlockEntry, SetParams, ParamsValid, ImportVotes;
    hide DelegationEntry, RateEntry, MissEntry, VoterEntry, PrevoteVoter, VoteVoter;
  }

  lemma {:induction false} SameReadable(list: seq<PriceStamp>)
    ensures Readable(list, StampEntry()) == Readable(list, LastBlockEntry())
  {
    if list != [] {
      SameReadable(list[1..]);
    }
  }

  /**
   * Importing into a store in use: of every list, what is read before the first entry that cannot be
   * read; of the parameters, if all was read, those before the first invalid one; and nothing else.
   */
  lemma ImportExactly(env: Env, s0: Store, g: Genesis)
    ensures var s, n := Import(env, s0, g).store, Reads(env, g);
            && LastWrites(s0.delegations, s.delegations, g.feederDelegations, n.delegations, DelegationEntry(env))
            && LastWrites(s0.rates, s.rates, g.exchangeRates, n.rates, RateEntry(env))
            && LastWrites(s0.missCounters, s.missCounters, g.missCounters, n.counters, MissEntry(env))
            && LastWrites(s0.prevotes, s.prevotes, g.prevotes, n.prevotes, VoterEntry(env, PrevoteVoter()))
            && LastWrites(s0.votes, s.votes, g.votes, n.votes, VoterEntry(env, VoteVoter()))
            && LastWrites(s0.prices, s.prices, g.historicPrices, n.prices, StampEntry())
            && LastWrites(s0.lastBlocks, s.lastBlocks, g.historicPrices, n.prices, LastBlockEntry())
            && LastWrites(s0.medians, s.medians, g.medians, n.medians, StampEntry())
            && LastWrites(s0.deviations, s.deviations, g.medianDeviations, n.deviations, StampEntry())
            && (forall j :: 0 <= j < PARAM_COUNT ==>
                  s.params[j] ==
                  if n.complete && (forall k :: 0 <= k <= j ==> env.validParam(k, g.params[k])) then g.params[j]
                  else s0.params[j])
            && s.averages == s0.averages && s.rewardSet == s0.rewardSet && s.plans == s0.plans
    ensures Import(env, s0, g).panicked <==>
            !Reads(env, g).complete || !ParamsValid(env, g.params) || !env.hasModuleAccount
  {
    ImportVotesWrites(env, s0, g);
    var a := ImportVotes(env, s0, g);
    if a.panicked {
      StreamWrites(false, s0.prices, g.historicPrices, StampEntry());
      StreamWrites(false, s0.lastBlocks, g.historicPrices, LastBlockEntry());
      StreamWrites(false, s0.medians, g.medians, StampEntry());
      StreamWrites(false, s0.deviations, g.medianDeviations, StampEntry());
    } else {
      ImportVotesWrites(env, a.store, g);
      ImportPricesWrites(env, a.store, g);
    }
    hide LastWrites, Readable, ImportVotes, ImportPrices, ParamsValid, DelegationEntry, RateEntry, MissEntry;
    hide VoterEntry, StampEntry, LastBlockEntry, PrevoteVoter, VoteVoter;
  }

  // ----- The invariant -----

  /** Every stored prevote or vote names the validator it is stored under. */
  ghost predicate NameKeys<V>(env: Env, voter: V -> string, m: map<Addr, V>) {
    forall k :: k in m ==> env.parseVal(voter(m[k])) == Some(k)
  }

  /** The addresses of the feeder delegations read back from how they are shown. */
  ghost predicate DelegationsReadable(env: Env, m: map<Addr, Addr>) {
    forall k :: k in m ==> env.parseVal(env.showVal(k)) == Some(k) && env.parseAcc(env.showAcc(m[k])) == Some(m[k])
  }

  ghost predicate OperatorsReadable(env: Env, m: map<Addr, nat>) {
    forall k :: k in m ==> env.parseVal(env.showVal(k)) == Some(k)
  }

  ghost predicate RatesUpperCase(env: Env, rates: map<string, Dec>) {
    forall denom :: denom in rates ==> env.upper(denom) == denom
  }

  /** The last block of a denom is the greatest one it has a price for, and there are no others. */
  ghost predicate LastBlocksCurrent(prices: map<Stamp, Dec>, lastBlocks: map<string, nat>) {
    && (forall k :: k in prices ==> k.0 in lastBlocks && k.1 <= lastBlocks[k.0])
    && (forall denom :: denom in lastBlocks ==> (denom, lastBlocks[denom]) in prices)
  }

  /** Nothing in the collections that genesis does not carry. */
  predicate NothingElse(s: Store) {
    s.averages == map[] && s.rewardSet == None && s.plans == map[]
  }

  ghost predicate Exportable(env: Env, s: Store) {
    && DelegationsReadable(env, s.delegations)
    && OperatorsReadable(env, s.missCounters)
    && ParamsValid(env, s.params)
    && NameKeys(env, PrevoteVoter(), s.prevotes)
    && NameKeys(env, VoteVoter(), s.votes)
    && RatesUpperCase(env, s.rates)
    && LastBlocksCurrent(s.prices, s.lastBlocks)
    && NothingElse(s)
  }

  // ----- The streams of an exported store -----

  /** Imported addresses read back. */
  lemma DelegationsRead(env: Env, list: seq<FeederDelegation>)
    requires Sound(env)
    requires !ImportAll(map[], list, DelegationEntry(env)).panicked
    ensures DelegationsReadable(env, ImportAll(map[], list, DelegationEntry(env)).m)
  {
    var m := ImportAll(map[], list, DelegationEntry(env)).m;
    forall k | k in m
      ensures env.parseVal(env.showVal(k)) == Some(k) && env.parseAcc(env.showAcc(m[k])) == Some(m[k])
    {
      var i := ImportIsLastWrite(list, DelegationEntry(env), k);
      assert env.parseVal(list[i].validatorAddress) == Some(k);
      assert env.parseAcc(list[i].feederAddress) == Some(m[k]);
    }
  }

  lemma OperatorsRead(env: Env, list: seq<MissCounter>)
    requires Sound(env)
    requires !ImportAll(map[], list, MissEntry(env)).panicked
    ensures OperatorsReadable(env, ImportAll(map[], list, MissEntry(env)).m)
  {
    forall k | k in ImportAll(map[], list, MissEntry(env)).m
      ensures env.parseVal(env.showVal(k)) == Some(k)
    {
      var i := ImportIsLastWrite(list, MissEntry(env), k);
      assert env.parseVal(list[i].validatorAddress) == Some(k);
    }
  }

  /** Feeder delegations survive iff their addresses can be read back; an empty one, for instance, cannot. */
  lemma DelegationsRoundTrip(env: Env, m: map<Addr, Addr>)
    requires Sound(env)
    ensures var list := ExportAll(m, env.addrOrder(m.Keys), ShowDelegation(env));
            ImportAll(map[], list, DelegationEntry(env)) == Imported(m, false) <==> DelegationsReadable(env, m)
  {
    var list := ExportAll(m, env.addrOrder(m.Keys), ShowDelegation(env));
    if DelegationsReadable(env, m) {
      StreamRoundTrip(m, env.addrOrder, ShowDelegation(env), DelegationEntry(env));
    } else if ImportAll(map[], list, DelegationEntry(env)) == Imported(m, false) {
      DelegationsRead(env, list);
    }
  }

  lemma MissCountersRoundTrip(env: Env, m: map<Addr, nat>)
    requires Sound(env)
    ensures var list := ExportAll(m, env.addrOrder(m.Keys), ShowMiss(env));
            ImportAll(map[], list, MissEntry(env)) == Imported(m, false) <==> OperatorsReadable(env, m)
  {
    var list := ExportAll(m, env.addrOrder(m.Keys), ShowMiss(env));
    if OperatorsReadable(env, m) {
      StreamRoundTrip(m, env.addrOrder, ShowMiss(env), MissEntry(env));
    } else if ImportAll(map[], list, MissEntry(env)) == Imported(m, false) {
      OperatorsRead(env, list);
    }
  }

  lemma StampsRoundTrip(env: Env, m: map<Stamp, Dec>)
    requires Sound(env)
    ensures ImportAll(map[], ExportAll(m, env.stampOrder(m.Keys), ShowStamp()), StampEntry()) == Imported(m, false)
  {
    StreamRoundTrip(m, env.stampOrder, ShowStamp(), StampEntry());
  }

  /** Exchange rates survive iff their keys are in upper case. */
  lemma RatesRoundTrip(env: Env, m: map<string, Dec>)
    requires Sound(env)
    ensures ImportAll(map[], ExportAll(m, env.denomOrder(m.Keys), ShowRate()), RateEntry(env)).m == m <==>
            RatesUpperCase(env, m)
  {
    var list := ExportAll(m, env.denomOrder(m.Keys), ShowRate());
    var r := ImportAll(map[], list, RateEntry(env));
    if RatesUpperCase(env, m) {
      StreamRoundTrip(m, env.denomOrder, ShowRate(), RateEntry(env));
    } else if r.m == m {
      ImportPanics(map[], list, RateEntry(env));
      forall denom | denom in m
        ensures env.upper(denom) == denom
      {
        var i := ImportIsLastWrite(list, RateEntry(env), denom);
      }
    }
  }

  /** Prevotes and votes survive iff each names its key, which the export drops. */
  lemma VotersRoundTrip<V>(env: Env, voter: V -> string, m: map<Addr, V>)
    requires Sound(env)
    ensures var list := ExportAll(m, env.addrOrder(m.Keys), ShowValue());
            ImportAll(map[], list, VoterEntry(env, voter)) == Imported(m, false) <==> NameKeys(env, voter, m)
  {
    var list := ExportAll(m, env.addrOrder(m.Keys), ShowValue());
    if NameKeys(env, voter, m) {
      StreamRoundTrip(m, env.addrOrder, ShowValue(), VoterEntry(env, voter));
    } else if ImportAll(map[], list, VoterEntry(env, voter)) == Imported(m, false) {
      VotersNamed(env, voter, list);
    }
  }

  lemma VotersNamed<V>(env: Env, voter: V -> string, list: seq<V>)
    requires !ImportAll(map[], list, VoterEntry(env, voter)).panicked
    ensures NameKeys(env, voter, ImportAll(map[], list, VoterEntry(env, voter)).m)
  {
    forall k | k in ImportAll(map[], list, VoterEntry(env, voter)).m
      ensures env.parseVal(voter(ImportAll(map[], list, VoterEntry(env, voter)).m[k])) == Some(k)
    {
      var i := ImportIsLastWrite(list, VoterEntry(env, voter), k);
    }
  }

  /** In every denom, the stamp listed last has the greatest block. */
  ghost predicate LastListedGreatest(list: seq<PriceStamp>) {
    forall i, j :: 0 <= i < j < |list| && list[i].exchangeRate.Some? && list[j].exchangeRate.Some? &&
                   list[i].exchangeRate.value.denom == list[j].exchangeRate.value.denom &&
                   (forall k :: j < k < |list| && list[k].exchangeRate.Some? ==>
                      list[k].exchangeRate.value.denom != list[j].exchangeRate.value.denom) ==>
                   list[i].blockNum <= list[j].blockNum
  }

  /** If the last blocks are current, the list ends every denom with its greatest block. */
  lemma CurrentIsListedLast(list: seq<PriceStamp>)
    requires !ImportAll(map[], list, StampEntry()).panicked && !ImportAll(map[], list, LastBlockEntry()).panicked
    requires LastBlocksCurrent(ImportAll(map[], list, StampEntry()).m, ImportAll(map[], list, LastBlockEntry()).m)
    requires forall i :: 0 <= i < |list| ==> list[i].exchangeRate.Some?
    ensures LastListedGreatest(list)
  {
    forall i, j | 0 <= i < j < |list| && list[i].exchangeRate.value.denom == list[j].exchangeRate.value.denom &&
                  (forall k :: j < k < |list| ==>
                     list[k].exchangeRate.value.denom != list[j].exchangeRate.value.denom)
      ensures list[i].blockNum <= list[j].blockNum
    {
      ImportHasKeys(list, StampEntry(), i);
      var at := ImportIsLastWrite(list, LastBlockEntry(), list[j].exchangeRate.value.denom);
      assert at == j;
    }
  }

  lemma ListedLastIsCurrent(list: seq<PriceStamp>)
    requires !ImportAll(map[], list, StampEntry()).panicked && !ImportAll(map[], list, LastBlockEntry()).panicked
    requires LastListedGreatest(list)
    ensures LastBlocksCurrent(ImportAll(map[], list, StampEntry()).m, ImportAll(map[], list, LastBlockEntry()).m)
  {
    var prices, last := ImportAll(map[], list, StampEntry()).m, ImportAll(map[], list, LastBlockEntry()).m;
    forall k | k in prices
      ensures k.0 in last && k.1 <= last[k.0]
    {
      var i := ImportIsLastWrite(list, StampEntry(), k);
      ImportHasKeys(list, LastBlockEntry(), i);
      var j := ImportIsLastWrite(list, LastBlockEntry(), k.0);
    }
    forall denom | denom in last
      ensures (denom, last[denom]) in prices
    {
      var j := ImportIsLastWrite(list, LastBlockEntry(), denom);
      ImportHasKeys(list, StampEntry(), j);
    }
  }

  /** Importing prices leaves the last blocks current exactly when the list ends every denom with its greatest block. */
  lemma LastBlocksOfImport(list: seq<PriceStamp>)
    requires !ImportAll(map[], list, StampEntry()).panicked
    ensures !ImportAll(map[], list, LastBlockEntry()).panicked
    ensures LastBlocksCurrent(ImportAll(map[], list, StampEntry()).m, ImportAll(map[], list, LastBlockEntry()).m) <==>
            LastListedGreatest(list)
  {
    ImportPanics(map[], list, StampEntry());
    ImportPanics(map[], list, LastBlockEntry());
    assert forall i :: 0 <= i < |list| ==> StampEntry()(list[i]) != None;
    assert forall i :: 0 <= i < |list| ==> list[i].exchangeRate.Some?;
    hide ImportAll, LastBlocksCurrent, LastListedGreatest;
    if LastBlocksCurrent(ImportAll(map[], list, StampEntry()).m, ImportAll(map[], list, LastBlockEntry()).m) {
      CurrentIsListedLast(list);
    }
    if LastListedGreatest(list) {
      ListedLastIsCurrent(list);
    }
  }

  lemma LastBlocksUnique(prices: map<Stamp, Dec>, a: map<string, nat>, b: map<string, nat>)
    requires LastBlocksCurrent(prices, a) && LastBlocksCurrent(prices, b)
    ensures a == b
  {
    forall denom
      ensures denom in a <==> denom in b
      ensures denom in a && denom in b ==> a[denom] == b[denom]
    {
      if denom in a { assert (denom, a[denom]) in prices; }
      if denom in b { assert (denom, b[denom]) in prices; }
    }
  }

  /** The walk over prices ends every denom with its greatest block. */
  lemma ExportListsGreatestLast(env: Env, m: map<Stamp, Dec>)
    requires Sound(env)
    ensures LastListedGreatest(ExportAll(m, env.stampOrder(m.Keys), ShowStamp()))
  {
  }

  lemma LastBlocksRoundTrip(env: Env, m: map<Stamp, Dec>, last: map<string, nat>)
    requires Sound(env)
    ensures ImportAll(map[], ExportAll(m, env.stampOrder(m.Keys), ShowStamp()), LastBlockEntry()).m == last <==>
            LastBlocksCurrent(m, last)
  {
    var list := ExportAll(m, env.stampOrder(m.Keys), ShowStamp());
    StampsRoundTrip(env, m);
    ExportListsGreatestLast(env, m);
    LastBlocksOfImport(list);
    if LastBlocksCurrent(m, last) {
      LastBlocksUnique(m, last, ImportAll(map[], list, LastBlockEntry()).m);
    }
  }

  // ----- The round trip -----

  /** A genesis state lists, stream by stream, what a store holds. */
  ghost predicate Lists(env: Env, g: Genesis, s: Store) {
    && ImportAll(map[], g.feederDelegations, DelegationEntry(env)) == Imported(s.delegations, false)
    && ImportAll(map[], g.exchangeRates, RateEntry(env)).m == s.rates
    && ImportAll(map[], g.missCounters, MissEntry(env)) == Imported(s.missCounters, false)
    && ImportAll(map[], g.prevotes, VoterEntry(env, PrevoteVoter())) == Imported(s.prevotes, false)
    && ImportAll(map[], g.votes, VoterEntry(env, VoteVoter())) == Imported(s.votes, false)
    && ImportAll(map[], g.historicPrices, StampEntry()) == Imported(s.prices, false)
    && ImportAll(map[], g.historicPrices, LastBlockEntry()).m == s.lastBlocks
    && ImportAll(map[], g.medians, StampEntry()) == Imported(s.medians, false)
    && ImportAll(map[], g.medianDeviations, StampEntry()) == Imported(s.deviations, false)
    && g.params == s.params
  }

  /** What it takes to import a given store. */
  lemma ImportIff(env: Env, params: Params, g: Genesis, s: Store)
    ensures Import(env, Empty(params), g) == Loaded(s, false) <==>
            Lists(env, g, s) && ParamsValid(env, g.params) && NothingElse(s) && env.hasModuleAccount
  {
    ImportStreams(env, params, g);
    hide ImportAll, Import, ParamsValid, Empty, DelegationEntry, RateEntry, MissEntry, VoterEntry, StampEntry,
      LastBlockEntry;
  }

  /** Of the streams that are exported, which ones the lists give back. */
  lemma ExportLists(env: Env, s: Store)
    requires Sound(env)
    ensures Lists(env, Export(env, s), s) <==>
            && DelegationsReadable(env, s.delegations)
            && OperatorsReadable(env, s.missCounters)
            && NameKeys(env, PrevoteVoter(), s.prevotes)
            && NameKeys(env, VoteVoter(), s.votes)
            && RatesUpperCase(env, s.rates)
            && LastBlocksCurrent(s.prices, s.lastBlocks)
  {
    DelegationsRoundTrip(env, s.delegations);
    RatesRoundTrip(env, s.rates);
    MissCountersRoundTrip(env, s.missCounters);
    VotersRoundTrip(env, PrevoteVoter(), s.prevotes);
    VotersRoundTrip(env, VoteVoter(), s.votes);
    StampsRoundTrip(env, s.prices);
    LastBlocksRoundTrip(env, s.prices, s.lastBlocks);
    StampsRoundTrip(env, s.medians);
    StampsRoundTrip(env, s.deviations);
    hide Sound, ImportAll, ExportAll, LastBlocksCurrent, NameKeys, RatesUpperCase, DelegationsReadable,
      OperatorsReadable;
  }

  /**
   * Exporting a store and importing it into an empty one rebuilds it exactly when it is exportable:
   * addresses read back, votes name their keys, rates are stored in upper case, last blocks are the
   * greatest ones, the parameters are valid, and the collections that genesis leaves out are empty.
   */
  lemma RoundTripIff(env: Env, s: Store, params: Params)
    requires Sound(env) && env.hasModuleAccount
    ensures Restored(env, params, s) == Loaded(s, false) <==> Exportable(env, s)
  {
    ExportLists(env, s);
    ImportIff(env, params, Export(env, s), s);
    assert Export(env, s).params == s.params;
    hide Sound, Lists, Export, LastBlocksCurrent, NameKeys, RatesUpperCase, DelegationsReadable, OperatorsReadable,
      ParamsValid, NothingElse, Import, Empty;
  }

  lemma RatesAreUpper(env: Env, list: seq<DecCoin>, denom: string)
    requires Sound(env)
    ensures var r := ImportAll(map[], list, RateEntry(env));
            !r.panicked && (denom in r.m ==> env.upper(denom) == denom)
  {
    ImportPanics(map[], list, RateEntry(env));
    if denom in ImportAll(map[], list, RateEntry(env)).m {
      var i := ImportIsLastWrite(list, RateEntry(env), denom);
      assert env.upper(env.upper(list[i].denom)) == env.upper(list[i].denom);
    }
  }

  /** What a successful import into an empty store establishes, whatever the lists. */
  lemma ImportEstablishes(env: Env, g: Genesis, params: Params)
    requires Sound(env)
    requires !Import(env, Empty(params), g).panicked
    ensures var s := Import(env, Empty(params), g).store;
            && DelegationsReadable(env, s.delegations)
            && OperatorsReadable(env, s.missCounters)
            && ParamsValid(env, s.params)
            && NameKeys(env, PrevoteVoter(), s.prevotes)
            && NameKeys(env, VoteVoter(), s.votes)
            && RatesUpperCase(env, s.rates)
            && NothingElse(s)
            && (LastBlocksCurrent(s.prices, s.lastBlocks) <==> LastListedGreatest(g.historicPrices))
  {
    var s := Import(env, Empty(params), g).store;
    ImportStreams(env, params, g);
    hide Import, ImportAll;
    DelegationsRead(env, g.feederDelegations);
    OperatorsRead(env, g.missCounters);
    VotersNamed(env, PrevoteVoter(), g.prevotes);
    VotersNamed(env, VoteVoter(), g.votes);
    forall denom | denom in s.rates
      ensures env.upper(denom) == denom
    {
      RatesAreUpper(env, g.exchangeRates, denom);
    }
    LastBlocksOfImport(g.historicPrices);
  }

  /** The store with its last blocks brought up to date. */
  ghost function Current(env: Env, s: Store): Store
    requires Sound(env)
  {
    var list := ExportAll(s.prices, env.stampOrder(s.prices.Keys), ShowStamp());
    s.(lastBlocks := ImportAll(map[], list, LastBlockEntry()).m)
  }

  /** Export is blind to last blocks. */
  lemma CurrentIsCurrent(env: Env, s: Store)
    requires Sound(env)
    ensures var c := Current(env, s);
            LastBlocksCurrent(c.prices, c.lastBlocks) && Export(env, c) == Export(env, s)
    ensures Current(env, s) == s <==> LastBlocksCurrent(s.prices, s.lastBlocks)
  {
    LastBlocksRoundTrip(env, s.prices, s.lastBlocks);
    LastBlocksRoundTrip(env, s.prices, Current(env, s).lastBlocks);
  }

  /**
   * After an import, export is a normal form: exporting and importing once more brings the last
   * blocks up to date and changes nothing else, hence nothing at all if the lists were in order.
   */
  lemma SecondRound(env: Env, g: Genesis, params: Params, s: Store)
    requires Sound(env)
    requires Import(env, Empty(params), g) == Loaded(s, false)
    ensures Restored(env, params, s) == Loaded(Current(env, s), false)
    ensures Current(env, s) == s <==> LastListedGreatest(g.historicPrices)
  {
    ImportStreams(env, params, g);
    ImportEstablishes(env, g, params);
    CurrentIsCurrent(env, s);
    var c := Current(env, s);
    assert c.prevotes == s.prevotes && c.votes == s.votes && c.rates == s.rates && NothingElse(c);
    assert c.delegations == s.delegations && c.missCounters == s.missCounters && c.params == s.params;
    hide Sound, ImportAll, ExportAll, LastBlocksCurrent, NameKeys, RatesUpperCase, DelegationsReadable,
      OperatorsReadable, ParamsValid, Import, Export, Current;
    RoundTripIff(env, c, params);
  }

  /** A list out of block order: the rebuilt store remembers block 3 as the last one, not block 5. */
  lemma LastBlockLost()
    ensures var list := [PriceStamp(Some(DecCoin("ATOM", 1)), 5), PriceStamp(Some(DecCoin("ATOM", 1)), 3)];
            ImportAll(map[], list, LastBlockEntry()) == Imported(map["ATOM" := 3], false) && !LastListedGreatest(list)
  {
    var p, q := PriceStamp(Some(DecCoin("ATOM", 1)), 5), PriceStamp(Some(DecCoin("ATOM", 1)), 3);
    var list := [p, q];
    assert list[..1] == [p] && [p][..0] == [];
    assert list[0].blockNum > list[1].blockNum;
  }

  // ----- The keeper -----

  class Keeper {
    const env: Env
    var params: Params
    var ExchangeRates: map<string, Dec>
    var FeederDelegations: map<Addr, Addr>
    var MissCounters: map<Addr, nat>
    var Prevotes: map<Addr, Prevote>
    var Votes: map<Addr, Vote>
    var HistoricPrices: map<Stamp, Dec>
    var MedianPrices: map<Stamp, Dec>
    var MedianDeviations: map<Stamp, Dec>
    var LastHistoricPriceBlock: map<string, nat>
    var Averages: map<(string, string), Dec>
    var ValidatorRewardSet: Option<seq<Addr>>
    var ParamUpdatePlans: map<nat, Plan>

    ghost function View(): Store
      reads this
    {
      Store(params, ExchangeRates, FeederDelegations, MissCounters, Prevotes, Votes, HistoricPrices, MedianPrices,
            MedianDeviations, LastHistoricPriceBlock, Averages, ValidatorRewardSet, ParamUpdatePlans)
    }

    constructor (env: Env, params: Params)
      ensures View() == Empty(params) && this.env == env
    {
      this.env, this.params := env, params;
      ExchangeRates, FeederDelegations, MissCounters, Prevotes, Votes := map[], map[], map[], map[], map[];
      HistoricPrices, MedianPrices, MedianDeviations, LastHistoricPriceBlock := map[], map[], map[], map[];
      Averages, ValidatorRewardSet, ParamUpdatePlans := map[], None, map[];
    }

    method InitVotes(genState: Genesis) returns (panicked: bool)
      modifies this
      ensures Loaded(View(), panicked) == ImportVotes(env, old(View()), genState)
    {
      hide ImportAll, DelegationEntry, RateEntry, MissEntry, VoterEntry, PrevoteVoter, VoteVoter;
      FeederDelegations, panicked := ImportLoop(FeederDelegations, genState.feederDelegations, DelegationEntry(env));
      if panicked { return; }
      ExchangeRates, panicked := ImportLoop(ExchangeRates, genState.exchangeRates, RateEntry(env));
      MissCounters, panicked := ImportLoop(MissCounters, genState.missCounters, MissEntry(env));
      if panicked { return; }
      Prevotes, panicked := ImportLoop(Prevotes, genState.prevotes, VoterEntry(env, PrevoteVoter()));
      if panicked { return; }
      Votes, panicked := ImportLoop(Votes, genState.votes, VoterEntry(env, VoteVoter()));
    }

    method InitPrices(genState: Genesis) returns (panicked: bool)
      modifies this
      ensures Loaded(View(), panicked) == ImportPrices(env, old(View()), genState)
    {
      hide ImportAll, StampEntry, LastBlockEntry, SetParams;
      HistoricPrices, panicked := ImportLoop(HistoricPrices, genState.historicPrices, StampEntry());
      var samePanic;
      LastHistoricPriceBlock, samePanic :=
        ImportLoop(LastHistoricPriceBlock, genState.historicPrices, LastBlockEntry());
      if panicked { return; }
      MedianPrices, panicked := ImportLoop(MedianPrices, genState.medians, StampEntry());
      if panicked { return; }
      MedianDeviations, panicked := ImportLoop(MedianDeviations, genState.medianDeviations, StampEntry());
      if panicked { return; }
      panicked := InitParams(genState.params);
      if panicked { return; }
      return !env.hasModuleAccount;
    }

    /** Sets the parameters one by one, up to the first that fails its validator. */
    method InitParams(given: Params) returns (panicked: bool)
      modifies this
      ensures var r := SetParams(env, old(params), given, 0);
              panicked == r.1 && View() == old(View()).(params := r.0)
    {
      ghost var s0 := View();
      for i := 0 to PARAM_COUNT
        invariant View() == s0.(params := params)
        invariant SetParams(env, params, given, i) == SetParams(env, s0.params, given, 0)
      {
        if !env.validParam(i, given[i]) { return true; }
        params := params[i := given[i]];
      }
      return false;
    }

    /** Sets every list of the genesis state; a panic leaves the store as far as it got. */
    method InitGenesis(genState: Genesis) returns (panicked: bool)
      modifies this
      ensures Loaded(View(), panicked) == Import(env, old(View()), genState)
    {
      hide ImportVotes, ImportPrices;
      panicked := InitVotes(genState);
      if panicked { return; }
      panicked := InitPrices(genState);
    }

    method ExportGenesis() returns (g: Genesis)
      requires Sound(env)
      ensures g == Export(env, View())
    {
      var delegations := ExportLoop(FeederDelegations, env.addrOrder(FeederDelegations.Keys), ShowDelegation(env));
      var rates := ExportLoop(ExchangeRates, env.denomOrder(ExchangeRates.Keys), ShowRate());
      var missCounters := ExportLoop(MissCounters, env.addrOrder(MissCounters.Keys), ShowMiss(env));
      var prevotes := ExportLoop(Prevotes, env.addrOrder(Prevotes.Keys), ShowValue());
      var votes := ExportLoop(Votes, env.addrOrder(Votes.Keys), ShowValue());
      var prices := ExportLoop(HistoricPrices, env.stampOrder(HistoricPrices.Keys), ShowStamp());
      var medians := ExportLoop(MedianPrices, env.stampOrder(MedianPrices.Keys), ShowStamp());
      var deviations := ExportLoop(MedianDeviations, env.stampOrder(MedianDeviations.Keys), ShowStamp());
      g := Genesis(params, rates, delegations, missCounters, prevotes, votes, prices, medians, deviations);
    }
  }
}
