/** What sequences of stores and lookups keep. */
module IvonaCacheLaws {
  import opened Collections
  import opened IvonaCacheSpec

  datatype Op = StoreOp(key: string, wave: seq<int>) | GetOp(key: string)

  function Step(es: seq<Entry>, op: Op): seq<Entry> {
    match op
    case StoreOp(key, wave) => AfterStore(es, key, wave)
    case GetOp(key) => AfterGet(es, key)
  }

  /** The cache after a sequence of operations. */
  function Run(ops: seq<Op>): seq<Entry> {
    if ops == [] then [] else Step(Run(ops[..|ops| - 1]), ops[|ops| - 1])
  }

  predicate StoredBy(ops: seq<Op>, e: Entry) {
    StoreOp(e.key, e.wave) in ops
  }

  /** Same string and wave, and a count that is still positive. */
  predicate SameWave(e: Entry, was: Entry) {
    e.key == was.key && e.wave == was.wave && (was.count >= 1 ==> e.count >= 1)
  }

  lemma RemoveAt(es: seq<Entry>, v: nat, k: nat)
    requires v < |es| && k + 1 < |es|
    ensures Remove(es, v)[k] == es[if k < v then k else k + 1]
  {
  }

  lemma StoreOrigin(es: seq<Entry>, key: string, wave: seq<int>, k: nat)
    requires k < |AfterStore(es, key, wave)|
    ensures var e := AfterStore(es, key, wave)[k];
            (|key| <= MAX_STRLEN && e == Entry(key, wave, 1)) || exists i :: 0 <= i < |es| && SameWave(e, es[i])
  {
    hide Victim;
    var e, v := AfterStore(es, key, wave)[k], Victim(es, INT_MAX);
    if |key| <= MAX_STRLEN && SIZE <= |es| && v < |es| {
      if k + 1 < |es| {
        RemoveAt(Aged(es), v, k);
        hide Remove;
        assert SameWave(e, es[if k < v then k else k + 1]);
      }
    } else if k < |es| {
      assert SameWave(e, es[k]);
    }
  }

  lemma GetOrigin(es: seq<Entry>, key: string, k: nat)
    requires k < |AfterGet(es, key)|
    ensures exists i :: 0 <= i < |es| && SameWave(AfterGet(es, key)[k], es[i])
  {
    hide Find;
    var e, f := AfterGet(es, key)[k], Find(es, key);
    if |key| > MAX_STRLEN || f == |es| {
      assert SameWave(e, es[k]);
    } else if k + 1 < |es| {
      RemoveAt(es, f, k);
      assert SameWave(e, es[if k < f then k else k + 1]);
    } else {
      assert SameWave(e, es[f]);
    }
  }

  /** Up to its count every entry after a step was there before or is the one stored. */
  lemma StepOrigin(es: seq<Entry>, op: Op, k: nat)
    requires k < |Step(es, op)|
    ensures var e := Step(es, op)[k];
            (op == StoreOp(e.key, e.wave) && e.count == 1 && |e.key| <= MAX_STRLEN)
            || exists i :: 0 <= i < |es| && SameWave(e, es[i])
  {
    hide AfterStore, AfterGet;
    match op
    case StoreOp(key, wave) => StoreOrigin(es, key, wave, k);
    case GetOp(key) => GetOrigin(es, key, k);
  }

  /** At most SIZE entries, each one holding a wave that was stored under that very string. */
  lemma {:induction false} HoldsOnlyStored(ops: seq<Op>)
    ensures |Run(ops)| <= 256
    ensures forall e | e in Run(ops) :: StoredBy(ops, e) && e.count >= 1 && |e.key| <= 11
  {
    if ops != [] {
      var n := |ops| - 1;
      HoldsOnlyStored(ops[..n]);
      var es := Run(ops[..n]);
      forall k | 0 <= k < |Run(ops)|
        ensures StoredBy(ops, Run(ops)[k]) && Run(ops)[k].count >= 1 && |Run(ops)[k].key| <= MAX_STRLEN
      {
        StepOrigin(es, ops[n], k);
        var e := Run(ops)[k];
        if ops[n] != StoreOp(e.key, e.wave) {
          var i :| 0 <= i < |es| && SameWave(e, es[i]);
          assert es[i] in es && StoredBy(ops[..n], es[i]);
        }
      }
    }
  }

  /** The wave last stored under a string. */
  function LastStored(ops: seq<Op>, key: string): Option<seq<int>> {
    if ops == [] then None
    else
      var op := ops[|ops| - 1];
      if op.StoreOp? && op.key == key then Some(op.wave) else LastStored(ops[..|ops| - 1], key)
  }

  /** ivona_get_wave's discipline: store only what was just looked up and missed. */
  predicate StoresOnlyMisses(ops: seq<Op>) {
    forall i | 0 <= i < |ops| && ops[i].StoreOp? :: Find(Run(ops[..i]), ops[i].key) == |Run(ops[..i])|
  }

  predicate KeysDiffer(es: seq<Entry>) {
    forall i, j | 0 <= i < j < |es| :: es[i].key != es[j].key
  }

  lemma RemoveThenAppendKeepsKeysDifferent(es: seq<Entry>, v: nat, e: Entry)
    requires KeysDiffer(es) && v < |es| && forall k | 0 <= k < |es| && k != v :: es[k].key != e.key
    ensures KeysDiffer(Remove(es, v) + [e])
  {
    var r := Remove(es, v) + [e];
    forall i, j | 0 <= i < j < |r|
      ensures r[i].key != r[j].key
    {
      assert r[i] == es[if i < v then i else i + 1];
    }
  }

  lemma StoreKeepsKeysDifferent(es: seq<Entry>, key: string, wave: seq<int>)
    requires KeysDiffer(es) && Find(es, key) == |es|
    ensures KeysDiffer(AfterStore(es, key, wave))
  {
    var v := Victim(es, INT_MAX);
    if |key| <= MAX_STRLEN && |es| >= SIZE && v < |es| {
      assert forall i | 0 <= i < |es| :: Aged(es)[i].key == es[i].key;
      RemoveThenAppendKeepsKeysDifferent(Aged(es), v, Entry(key, wave, 1));
    }
  }

  lemma GetKeepsKeysDifferent(es: seq<Entry>, key: string)
    requires KeysDiffer(es)
    ensures KeysDiffer(AfterGet(es, key))
  {
    var k := Find(es, key);
    if k < |es| {
      RemoveThenAppendKeepsKeysDifferent(es, k, es[k].(count := es[k].count + 1));
    }
  }

  /** With that discipline the cache is a part of the map from strings to the waves last stored under them. */
  lemma {:induction false} AgreesWithMap(ops: seq<Op>)
    requires StoresOnlyMisses(ops)
    ensures KeysDiffer(Run(ops))
    ensures forall k | 0 <= k < |Run(ops)| :: LastStored(ops, Run(ops)[k].key) == Some(Run(ops)[k].wave)
  {
    if ops != [] {
      var n := |ops| - 1;
      var es, op := Run(ops[..n]), ops[n];
      assert forall i | 0 <= i < n :: ops[..n][i] == ops[i] && ops[..n][..i] == ops[..i];
      AgreesWithMap(ops[..n]);
      if op.StoreOp? {
        StoreKeepsKeysDifferent(es, op.key, op.wave);
      } else {
        GetKeepsKeysDifferent(es, op.key);
      }
      forall k | 0 <= k < |Run(ops)|
        ensures LastStored(ops, Run(ops)[k].key) == Some(Run(ops)[k].wave)
      {
        StepOrigin(es, op, k);
      }
    }
  }

  /** So a hit is the last wave stored under the string; what was once stored may be gone, never wrong. */
  lemma HitIsLastStored(ops: seq<Op>, key: string)
    requires StoresOnlyMisses(ops)
    ensures var es := Run(ops); var k := Find(es, key); k < |es| ==> LastStored(ops, key) == Some(es[k].wave)
  {
    AgreesWithMap(ops);
  }

  // ---------------------------------------------------------------- several waves under one string

  /** The waves stored under a string, oldest use first. */
  function Under(es: seq<Entry>, key: string): seq<seq<int>> {
    if es == [] then [] else (if es[0].key == key then [es[0].wave] else []) + Under(es[1..], key)
  }

  /** What a lookup gives. */
  function Served(es: seq<Entry>, key: string): Option<seq<int>> {
    var k := Find(es, key);
    if |key| <= MAX_STRLEN && k < |es| then Some(es[k].wave) else None
  }

  lemma {:induction false} UnderAppend(a: seq<Entry>, b: seq<Entry>, key: string)
    ensures Under(a + b, key) == Under(a, key) + Under(b, key)
  {
    if a == [] {
      assert a + b == b;
    } else {
      assert (a + b)[1..] == a[1..] + b;
      UnderAppend(a[1..], b, key);
    }
  }

  lemma {:induction false} NothingUnder(es: seq<Entry>, key: string)
    requires forall j | 0 <= j < |es| :: es[j].key != key
    ensures Under(es, key) == []
  {
    if es != [] {
      NothingUnder(es[1..], key);
    }
  }

  lemma UnderOne(e: Entry, key: string)
    ensures Under([e], key) == if e.key == key then [e.wave] else []
  {
  }

  lemma UnderAt(es: seq<Entry>, k: nat, key: string)
    requires k < |es|
    ensures Under(es, key) == Under(es[..k], key) + Under([es[k]], key) + Under(es[k + 1..], key)
  {
    assert es == es[..k] + ([es[k]] + es[k + 1..]);
    UnderAppend(es[..k], [es[k]] + es[k + 1..], key);
    UnderAppend([es[k]], es[k + 1..], key);
  }

  /** Moving an entry to the head end. */
  lemma UnderMoved(es: seq<Entry>, k: nat, e: Entry, key: string)
    requires k < |es|
    ensures Under(Remove(es, k) + [e], key) == Under(es[..k], key) + Under(es[k + 1..], key) + Under([e], key)
  {
    UnderAppend(Remove(es, k), [e], key);
    UnderAppend(es[..k], es[k + 1..], key);
  }

  /** A hit serves the first of the waves stored under the string and puts it behind the others. */
  lemma HitTurns(es: seq<Entry>, k: nat, e: Entry, key: string)
    requires k < |es| && es[k].key == e.key == key && es[k].wave == e.wave
    requires forall j | 0 <= j < k :: es[j].key != key
    ensures Under(es, key) == [e.wave] + Under(es[k + 1..], key)
    ensures Under(Remove(es, k) + [e], key) == Under(es[k + 1..], key) + [e.wave]
  {
    hide Under, Remove;
    NothingUnder(es[..k], key);
    UnderAt(es, k, key);
    UnderMoved(es, k, e, key);
    UnderOne(es[k], key);
    UnderOne(e, key);
  }

  lemma OthersStay(es: seq<Entry>, k: nat, e: Entry, other: string)
    requires k < |es| && es[k].key == e.key != other
    ensures Under(Remove(es, k) + [e], other) == Under(es, other)
  {
    hide Under, Remove;
    UnderAt(es, k, other);
    UnderMoved(es, k, e, other);
    UnderOne(es[k], other);
    UnderOne(e, other);
  }

  /** A lookup serves the first of the waves stored under the string and puts it behind the others; what is stored
      under other strings keeps its order. */
  lemma LookupTurns(es: seq<Entry>, key: string, other: string)
    requires |key| <= MAX_STRLEN
    ensures var u := Under(es, key); Served(es, key) == if u == [] then None else Some(u[0])
    ensures var u := Under(es, key); Under(AfterGet(es, key), key) == if u == [] then [] else u[1..] + [u[0]]
    ensures other != key ==> Under(AfterGet(es, key), other) == Under(es, other)
  {
    hide Under, Remove;
    var k := Find(es, key);
    if k == |es| {
      NothingUnder(es, key);
    } else {
      var e := es[k].(count := es[k].count + 1);
      HitTurns(es, k, e, key);
      if other != key {
        OthersStay(es, k, e, other);
      }
      hide Find;
    }
  }

  /** The cache after lookups. */
  function Lookups(es: seq<Entry>, keys: seq<string>): seq<Entry> {
    if keys == [] then es else AfterGet(Lookups(es, keys[..|keys| - 1]), keys[|keys| - 1])
  }

  function Times(keys: seq<string>, key: string): nat {
    if keys == [] then 0 else Times(keys[..|keys| - 1], key) + if keys[|keys| - 1] == key then 1 else 0
  }

  /** A list turned n times. */
  function Turned<T>(u: seq<T>, n: nat): seq<T> {
    if u == [] then [] else u[n % |u|..] + u[..n % |u|]
  }

  lemma Remainder(n: nat, d: nat, q: nat, r: nat)
    requires r < d && n == d * q + r
    ensures n % d == r
  {
    var k := n / d;
    assert n == d * k + n % d;
    assert k < q ==> d * (k + 1) <= d * q;
    assert k > q ==> d * (q + 1) <= d * k;
  }

  lemma NextTurn(n: nat, d: nat)
    requires d > 0
    ensures (n + 1) % d == if n % d + 1 == d then 0 else n % d + 1
  {
    var q, m := n / d, n % d;
    if m + 1 == d {
      assert d * (q + 1) == d * q + d;
      Remainder(n + 1, d, q + 1, 0);
    } else {
      Remainder(n + 1, d, q, m + 1);
    }
  }

  lemma TurnedAt<T>(u: seq<T>, m: nat)
    requires m < |u|
    ensures var t := u[m..] + u[..m]; t[0] == u[m] && t[1..] + [t[0]] == u[m + 1..] + u[..m + 1]
  {
  }

  lemma TurnedOnce<T>(u: seq<T>, n: nat)
    requires u != []
    ensures var t := Turned(u, n); t != [] && t[0] == u[n % |u|] && t[1..] + [t[0]] == Turned(u, n + 1)
  {
    TurnedAt(u, n % |u|);
    NextTurn(n, |u|);
    assert u[|u|..] + u[..|u|] == u[0..] + u[..0];
  }

  lemma TurnedNever<T>(u: seq<T>)
    ensures Turned(u, 0) == u
  {
    if u != [] {
      assert u[0..] + u[..0] == u;
    }
  }

  lemma TurnedNothing<T>(n: nat)
    ensures Turned<T>([], n) == []
  {
  }

  lemma OthersTurnNothing(es: seq<Entry>, key: string, other: string)
    requires other != key
    ensures Under(AfterGet(es, key), other) == Under(es, other)
  {
    if |key| <= MAX_STRLEN {
      LookupTurns(es, key, other);
    }
  }

  lemma {:induction false} LookupsTurn(es: seq<Entry>, keys: seq<string>, key: string)
    requires |key| <= MAX_STRLEN
    ensures Under(Lookups(es, keys), key) == Turned(Under(es, key), Times(keys, key))
  {
    hide AfterGet, Under, Turned;
    if keys == [] {
      assert Turned(Under(es, key), 0) == Under(es, key) by {
        TurnedNever(Under(es, key));
      }
    } else {
      var n := |keys| - 1;
      var before := Lookups(es, keys[..n]);
      LookupsTurn(es, keys[..n], key);
      if keys[n] == key {
        LookupTurns(before, key, key);
        if Under(es, key) == [] {
          TurnedNothing<seq<int>>(Times(keys[..n], key));
          TurnedNothing<seq<int>>(Times(keys, key));
        } else {
          TurnedOnce(Under(es, key), Times(keys[..n], key));
        }
      } else {
        OthersTurnNothing(before, keys[n], key);
      }
    }
  }

  /** Without that discipline a string can have several waves, and its lookups serve them in turn, whatever other
      strings are looked up in between. */
  lemma LookupsTakeTurns(es: seq<Entry>, keys: seq<string>, key: string)
    requires |key| <= MAX_STRLEN
    ensures var u := Under(es, key);
            Served(Lookups(es, keys), key) == if u == [] then None else Some(u[Times(keys, key) % |u|])
  {
    hide Under, Turned, Lookups, Served, AfterGet, Times;
    LookupsTurn(es, keys, key);
    LookupTurns(Lookups(es, keys), key, key);
    if Under(es, key) == [] {
      TurnedNothing<seq<int>>(Times(keys, key));
    } else {
      TurnedOnce(Under(es, key), Times(keys, key));
    }
  }

  /** While there is room a store queues its wave behind those stored under the same string. */
  lemma StoreQueues(es: seq<Entry>, key: string, wave: seq<int>, other: string)
    requires |es| < 256 && |key| <= 11
    ensures Under(AfterStore(es, key, wave), other) ==
            Under(es, other) + if other == key then [wave] else []
  {
    UnderAppend(es, [Entry(key, wave, 1)], other);
  }

  /** The oldest of the least used. */
  predicate OldestLeastUsed(es: seq<Entry>, v: nat) {
    v < |es| && forall j | 0 <= j < |es| :: es[j].count >= es[v].count && (j < v ==> es[j].count > es[v].count)
  }

  lemma VictimIsOldestLeastUsed(es: seq<Entry>)
    requires exists j :: 0 <= j < |es| && es[j].count < INT_MAX
    ensures OldestLeastUsed(es, Victim(es, INT_MAX))
  {
    hide Victim;
  }

  lemma AgedWithout(es: seq<Entry>, v: nat)
    requires v < |es|
    ensures Remove(Aged(es), v) == Aged(Remove(es, v))
  {
  }

  /** One use less for whoever was used more than once. */
  predicate OneUsePoorer(e: Entry, was: Entry) {
    e.key == was.key && e.wave == was.wave && e.count == if was.count > 1 then was.count - 1 else was.count
  }

  /** `r` is what is left of the entries without number v, everybody one use poorer, and a new entry with one use. */
  predicate Evicted(es: seq<Entry>, v: nat, r: seq<Entry>, key: string, wave: seq<int>)
    requires v < |es|
  {
    && |r| == |es| && r[|es| - 1] == Entry(key, wave, 1)
    && forall j | 0 <= j < |es| - 1 :: OneUsePoorer(r[j], es[if j < v then j else j + 1])
  }

  lemma AgedIsPoorer(es: seq<Entry>, v: nat, key: string, wave: seq<int>)
    requires v < |es|
    ensures Evicted(es, v, Remove(Aged(es), v) + [Entry(key, wave, 1)], key, wave)
  {
    var r := Remove(Aged(es), v) + [Entry(key, wave, 1)];
    forall j | 0 <= j < |es| - 1
      ensures OneUsePoorer(r[j], es[if j < v then j else j + 1])
    {
      RemoveAt(Aged(es), v, j);
    }
  }

  /** A store into a full cache loses exactly one entry, the oldest of the least used, and everybody else who was
      used more than once is one use poorer. */
  lemma EvictsOldestLeastUsed(es: seq<Entry>, key: string, wave: seq<int>)
    requires |es| == 256 && |key| <= 11 && exists j :: 0 <= j < |es| && es[j].count < INT_MAX
    ensures exists v :: OldestLeastUsed(es, v) && Evicted(es, v, AfterStore(es, key, wave), key, wave)
  {
    var v := Victim(es, INT_MAX);
    VictimIsOldestLeastUsed(es);
    AgedIsPoorer(es, v, key, wave);
    hide Victim, OldestLeastUsed, Remove, Aged, Evicted;
    assert OldestLeastUsed(es, v);
  }

  // ---------------------------------------------------------------- uses

  /** The uses counted for the waves under a string. */
  function UsesOf(es: seq<Entry>, key: string): int {
    if es == [] then 0 else (if es[0].key == key then es[0].count else 0) + UsesOf(es[1..], key)
  }

  lemma {:induction false} UsesAppend(a: seq<Entry>, b: seq<Entry>, key: string)
    ensures UsesOf(a + b, key) == UsesOf(a, key) + UsesOf(b, key)
  {
    if a == [] {
      assert a + b == b;
    } else {
      assert (a + b)[1..] == a[1..] + b;
      UsesAppend(a[1..], b, key);
    }
  }

  lemma UsesOfOne(e: Entry, key: string)
    ensures UsesOf([e], key) == if e.key == key then e.count else 0
  {
  }

  lemma UsesMoved(es: seq<Entry>, k: nat, e: Entry, key: string)
    requires k < |es| && e == es[k].(count := es[k].count + 1)
    ensures UsesOf(Remove(es, k) + [e], key) == UsesOf(es, key) + if e.key == key then 1 else 0
  {
    assert es == es[..k] + ([es[k]] + es[k + 1..]);
    UsesAppend(es[..k], [es[k]] + es[k + 1..], key);
    UsesAppend([es[k]], es[k + 1..], key);
    UsesAppend(Remove(es, k), [e], key);
    UsesAppend(es[..k], es[k + 1..], key);
    UsesOfOne(e, key);
    UsesOfOne(es[k], key);
    hide UsesOf;
  }

  /** Every hit is counted once, for its string only. */
  lemma {:induction false} HitsAreCounted(es: seq<Entry>, keys: seq<string>, key: string)
    requires |key| <= 11 && Under(es, key) != []
    ensures UsesOf(Lookups(es, keys), key) == UsesOf(es, key) + Times(keys, key)
  {
    hide UsesOf, Under, Remove;
    if keys != [] {
      var n := |keys| - 1;
      var before := Lookups(es, keys[..n]);
      HitsAreCounted(es, keys[..n], key);
      LookupsTurn(es, keys[..n], key);
      TurnedLength(Under(es, key), Times(keys[..n], key));
      var k := Find(before, keys[n]);
      if k == |before| {
        NothingUnder(before, keys[n]);
      } else if |keys[n]| <= 11 {
        UsesMoved(before, k, before[k].(count := before[k].count + 1), key);
      }
    }
  }

  lemma TurnedLength<T>(u: seq<T>, n: nat)
    requires u != []
    ensures Turned(u, n) != []
  {
    TurnedOnce(u, n);
  }
}
