/** What cleaning evicts, and what sequences of insertions and lookups keep. */
module FestivalCacheLaws {
  import opened Collections
  import opened Strings
  import opened FestivalCacheSpec

  // ---------------------------------------------------------------- table keys

  lemma SignedHasNoUnderscore(n: int)
    ensures '_' !in Signed(n) && Signed(n) != []
  {
  }

  lemma SignedInjective(m: int, n: int)
    requires Signed(m) == Signed(n)
    ensures m == n
  {
    if m < 0 && n < 0 {
      assert Signed(m)[1..] == Decimal(-m) && Signed(n)[1..] == Decimal(-n);
      DecimalInjective(-m, -n);
    } else if m < 0 {
      assert Decimal(n)[0] in Decimal(n);
    } else if n < 0 {
      assert Decimal(m)[0] in Decimal(m);
    } else {
      DecimalInjective(m, n);
    }
  }

  lemma LastUnderscore(a: string, x: string)
    requires '_' !in x
    ensures var s := a + "_" + x; s[|a|] == '_' && forall i | |a| < i < |s| :: s[i] != '_'
  {
    var s := a + "_" + x;
    forall i | |a| < i < |s|
      ensures s[i] != '_'
    {
      assert s[i] == x[i - |a| - 1];
    }
  }

  /** The last field can be split off, whatever stands before it. */
  lemma LastField(a: string, x: string, b: string, y: string)
    requires '_' !in x && '_' !in y && a + "_" + x == b + "_" + y
    ensures a == b && x == y
  {
    var s := a + "_" + x;
    LastUnderscore(a, x);
    LastUnderscore(b, y);
    assert |a| == |b|;
    assert a == s[..|a|] && b == s[..|a|] && x == s[|a| + 1..] && y == s[|a| + 1..];
  }

  /** Different tables have different keys, even when the language has underscores. */
  lemma PrintedInjective(a: TableId, b: TableId)
    requires Printed(a) == Printed(b)
    ensures a == b
  {
    hide Signed;
    SignedHasNoUnderscore(a.voice);
    SignedHasNoUnderscore(a.rate);
    SignedHasNoUnderscore(a.pitch);
    SignedHasNoUnderscore(b.voice);
    SignedHasNoUnderscore(b.rate);
    SignedHasNoUnderscore(b.pitch);
    var a3, b3 := [a.ktype] + "_" + a.language, [b.ktype] + "_" + b.language;
    var a2, b2 := a3 + "_" + Signed(a.voice), b3 + "_" + Signed(b.voice);
    var a1, b1 := a2 + "_" + Signed(a.rate), b2 + "_" + Signed(b.rate);
    LastField(a1, Signed(a.pitch), b1, Signed(b.pitch));
    LastField(a2, Signed(a.rate), b2, Signed(b.rate));
    LastField(a3, Signed(a.voice), b3, Signed(b.voice));
    SignedInjective(a.pitch, b.pitch);
    SignedInjective(a.rate, b.rate);
    SignedInjective(a.voice, b.voice);
    assert a3[0] == a.ktype && b3[0] == b.ktype && a3[2..] == a.language && b3[2..] == b.language;
  }

  // ---------------------------------------------------------------- requests

  /** What a wave is asked for with. */
  datatype Request = Request(msgtype: MsgType, settings: Settings, key: string)

  /** Only characters, keys and sound icons in a language have a table. */
  predicate Cacheable(r: Request) {
    r.settings.language.Some? && (r.msgtype.CharMsg? || r.msgtype.KeyMsg? || r.msgtype.SoundIcon?)
  }

  /** The same type and language, and the same voice, rate and pitch where they are told apart. */
  predicate SameTable(a: Request, b: Request, config: Config) {
    && a.msgtype == b.msgtype && a.settings.language == b.settings.language
    && (config.distinguishVoices ==> a.settings.voiceType == b.settings.voiceType)
    && (config.distinguishRate ==> a.settings.rate == b.settings.rate)
    && (config.distinguishPitch ==> a.settings.pitch == b.settings.pitch)
  }

  function TableOf(r: Request, config: Config): Option<string> {
    GenKey(r.msgtype, r.settings, config)
  }

  /** Which requests have a table, and which have the same. */
  lemma TablesExactly(a: Request, b: Request, config: Config)
    ensures TableOf(a, config).Some? <==> Cacheable(a)
    ensures Cacheable(a) && Cacheable(b) ==> (TableOf(a, config) == TableOf(b, config) <==> SameTable(a, b, config))
  {
    hide Printed;
    var x, y := IdOf(a.msgtype, a.settings, config), IdOf(b.msgtype, b.settings, config);
    if x.Some? && y.Some? && Printed(x.value) == Printed(y.value) {
      PrintedInjective(x.value, y.value);
    }
  }

  // ---------------------------------------------------------------- cleaning

  predicate Ordered(s: seq<Item>, now: int) {
    forall i, j | 0 <= i < j < |s| :: Score(s[i], now) >= Score(s[j], now)
  }

  lemma InsertKeepsOrder(s: seq<Item>, x: Item, now: int)
    requires Ordered(s, now)
    ensures Ordered(InsertedAt(s, PlaceFor(s, x, now), x), now)
  {
    hide Score, PlaceFor;
    InsertAt(s, PlaceFor(s, x, now), x);
  }

  lemma {:induction false} SortedIsOrdered(items: seq<Item>, now: int)
    ensures Ordered(Sorted(items, now), now)
  {
    if items != [] {
      var n := |items| - 1;
      SortedIsOrdered(items[..n], now);
      hide PlaceFor, Score, Ordered;
      InsertKeepsOrder(Sorted(items[..n], now), items[n], now);
    }
  }

  /** The items with a certain score, in order. */
  function WithScore(s: seq<Item>, now: int, score: real): seq<Item> {
    if s == [] then []
    else WithScore(s[..|s| - 1], now, score) + (if Score(s[|s| - 1], now) == score then [s[|s| - 1]] else [])
  }

  lemma {:induction false} NoneWithScore(s: seq<Item>, k: nat, now: int, score: real)
    requires k <= |s| && forall j | k <= j < |s| :: Score(s[j], now) != score
    ensures WithScore(s, now, score) == WithScore(s[..k], now, score)
  {
    if k < |s| {
      var n := |s| - 1;
      NoneWithScore(s[..n], k, now, score);
      assert s[..n][..k] == s[..k];
    } else {
      assert s[..k] == s;
    }
  }

  lemma {:induction false} InsertScore(s: seq<Item>, k: nat, x: Item, now: int, score: real)
    requires k <= |s| && forall j | k <= j < |s| :: Score(s[j], now) != Score(x, now)
    ensures WithScore(InsertedAt(s, k, x), now, score) ==
            WithScore(s, now, score) + if Score(x, now) == score then [x] else []
  {
    var r, n := InsertedAt(s, k, x), |s| - 1;
    if k == |s| {
      assert r[..|s|] == s;
    } else {
      InsertScore(s[..n], k, x, now, score);
      assert r[..|s|] == InsertedAt(s[..n], k, x) && r[|s|] == s[n];
    }
  }

  /** Items with the same score keep their order. */
  lemma {:induction false} SortedIsStable(items: seq<Item>, now: int, score: real)
    ensures WithScore(Sorted(items, now), now, score) == WithScore(items, now, score)
  {
    if items != [] {
      var n := |items| - 1;
      var r, x := Sorted(items[..n], now), items[n];
      SortedIsStable(items[..n], now, score);
      SortedIsOrdered(items[..n], now);
      assert Sorted(items, now) == InsertedAt(r, PlaceFor(r, x, now), x);
      hide Score, PlaceFor, Sorted, InsertedAt;
      InsertScore(r, PlaceFor(r, x, now), x, now, score);
    }
  }

  /** Kept is the longest front part with room for the addition, or nothing. */
  lemma {:induction false} KeptIsLongest(s: seq<Item>, added: nat, required: nat, j: nat)
    ensures var k := |Kept(s, added, required)|;
            && (k == 0 || Total(s[..k]) + added <= required)
            && (k < j <= |s| ==> Total(s[..j]) + added > required)
  {
    assert s[..|s|] == s;
    if s != [] && Total(s) + added > required {
      var n := |s| - 1;
      KeptIsLongest(s[..n], added, required, if j <= n then j else n);
      var k := |Kept(s[..n], added, required)|;
      assert s[..n][..k] == s[..k];
      assert j <= n ==> s[..n][..j] == s[..j];
    }
  }

  /** cache_clean evicts the end of the order by score: nothing evicted scores above anything kept, what is kept fits
      into two thirds of the former size, or nothing is kept, and with one item more it would not. */
  lemma CleanedIsBest(items: seq<Item>, added: nat, now: int, j: nat)
    ensures var s, k := Sorted(items, now), |Cleaned(items, added, now)|;
            && k <= |s| && Cleaned(items, added, now) == s[..k] && multiset(s) == multiset(items)
            && (forall a, b | 0 <= a < k <= b < |s| :: Score(s[a], now) >= Score(s[b], now))
            && (k == 0 || Total(s[..k]) + added <= 2 * Total(items) / 3)
            && (k < j <= |s| ==> Total(s[..j]) + added > 2 * Total(items) / 3)
  {
    var s := Sorted(items, now);
    SortedIsOrdered(items, now);
    SortedIsPermutation(items, now);
    KeptIsLongest(s, added, 2 * Total(items) / 3, j);
    hide Sorted, Kept, Total, Score;
  }

  // ---------------------------------------------------------------- runs

  datatype Op = InsertOp(r: Request, wave: Wave, now: int) | LookupOp(r: Request)

  /** An operation that is switched on; a request without a table changes nothing. */
  function Step(items: seq<Item>, op: Op, config: Config): seq<Item> {
    var table := TableOf(op.r, config);
    if table.None? then items
    else
      match op
      case InsertOp(r, wave, now) => AfterInsert(items, table.value, r.key, wave, now, config.maxKBytes * 1024)
      case LookupOp(r) => AfterLookup(items, table.value, r.key)
  }

  /** What is cached after a sequence of operations. */
  function Run(ops: seq<Op>, config: Config): seq<Item> {
    if ops == [] then [] else Step(Run(ops[..|ops| - 1], config), ops[|ops| - 1], config)
  }

  /** Within the budget, unless a single wave exceeds it. */
  predicate Bounded(items: seq<Item>, maxBytes: nat) {
    Total(items) <= maxBytes || |items| == 1
  }

  lemma {:induction false} StepKeepsBound(items: seq<Item>, op: Op, config: Config)
    requires Bounded(items, config.maxKBytes * 1024)
    ensures Bounded(Step(items, op, config), config.maxKBytes * 1024)
  {
    var table, maxBytes := TableOf(op.r, config), config.maxKBytes * 1024;
    hide TableOf, Total, Find, NoRoom, Cleaned;
    if table.Some? {
      var k := Find(items, table.value, op.r.key);
      if k < |items| {
        TotalTouched(items, k);
      } else if op.InsertOp? {
        var item := Item(op.now, 1, table.value, op.r.key, op.wave);
        RoomIsEnough(items, op.wave, maxBytes);
        if NoRoom(items, op.wave, maxBytes) {
          CleaningKeepsBound(items, op.wave, op.now, maxBytes);
          TotalAppend(Cleaned(items, WaveSize(op.wave), op.now), item);
        } else {
          TotalAppend(items, item);
        }
      }
    }
  }

  lemma RoomIsEnough(items: seq<Item>, wave: Wave, maxBytes: nat)
    ensures NoRoom(items, wave, maxBytes) <==> Total(items) + WaveSize(wave) > maxBytes
  {
  }

  lemma {:induction false} SortedTotal(items: seq<Item>, now: int)
    ensures Total(Sorted(items, now)) == Total(items)
  {
    if items != [] {
      var n := |items| - 1;
      SortedTotal(items[..n], now);
      var r := Sorted(items[..n], now);
      TotalInsert(r, PlaceFor(r, items[n], now), items[n]);
    }
  }

  lemma CleaningKeepsBound(items: seq<Item>, wave: Wave, now: int, maxBytes: nat)
    requires Bounded(items, maxBytes) && NoRoom(items, wave, maxBytes)
    ensures var room := Cleaned(items, WaveSize(wave), now); room == [] || Total(room) + WaveSize(wave) <= maxBytes
  {
    var room := Cleaned(items, WaveSize(wave), now);
    CleanedIsBest(items, WaveSize(wave), now, 0);
    SortedTotal(items, now);
    hide Cleaned, Sorted, Score, Total;
    var s := Sorted(items, now);
    assert s[..|s|] == s;
  }

  /** The samples of all waves cached. */
  function SamplesOf(items: seq<Item>): seq<int> {
    if items == [] then [] else SamplesOf(items[..|items| - 1]) + items[|items| - 1].wave.samples
  }

  lemma {:induction false} TotalIsSamples(items: seq<Item>)
    ensures Total(items) == 2 * |SamplesOf(items)|
  {
    if items != [] {
      TotalIsSamples(items[..|items| - 1]);
    }
  }

  /** Two bytes a sample, within the kilobytes configured, unless a single wave exceeds them. */
  lemma {:induction false} RunIsBounded(ops: seq<Op>, config: Config)
    ensures Bounded(Run(ops, config), config.maxKBytes * 1024)
    ensures 2 * |SamplesOf(Run(ops, config))| <= 1024 * config.maxKBytes || |Run(ops, config)| == 1
  {
    TotalIsSamples(Run(ops, config));
    if ops != [] {
      RunIsBounded(ops[..|ops| - 1], config);
      StepKeepsBound(Run(ops[..|ops| - 1], config), ops[|ops| - 1], config);
    }
  }

  // ---------------------------------------------------------------- agreement with a plain map

  predicate Matches(item: Item, table: string, key: string) {
    item.table == table && item.key == key
  }

  predicate KeysDiffer(items: seq<Item>) {
    forall i, j | 0 <= i < j < |items| :: !Matches(items[j], items[i].table, items[i].key)
  }

  predicate Has(items: seq<Item>, table: string, key: string) {
    Find(items, table, key) < |items|
  }

  /** What is cached under a key of a table. */
  function ItemOf(items: seq<Item>, table: string, key: string): Option<Item> {
    var k := Find(items, table, key);
    if k < |items| then Some(items[k]) else None
  }

  function WaveOf(items: seq<Item>, table: string, key: string): Option<Wave> {
    var x := ItemOf(items, table, key);
    if x.Some? then Some(x.value.wave) else None
  }

  lemma InsertKeepsKeysDifferent(s: seq<Item>, k: nat, x: Item)
    requires k <= |s| && KeysDiffer(s) && forall i | 0 <= i < |s| :: !Matches(s[i], x.table, x.key)
    ensures KeysDiffer(InsertedAt(s, k, x))
  {
    InsertAt(s, k, x);
  }

  lemma {:induction false} SortedKeysDiffer(items: seq<Item>, now: int)
    requires KeysDiffer(items)
    ensures KeysDiffer(Sorted(items, now))
  {
    if items != [] {
      var n := |items| - 1;
      SortedKeysDiffer(items[..n], now);
      SortedIsPermutation(items[..n], now);
      var r, x := Sorted(items[..n], now), items[n];
      forall i | 0 <= i < |r|
        ensures !Matches(r[i], x.table, x.key)
      {
        assert r[i] in multiset(r);
        assert r[i] in items[..n];
      }
      InsertKeepsKeysDifferent(r, PlaceFor(r, x, now), x);
    }
  }

  /** What cleaning leaves was there. */
  lemma CleanedKeepsItems(items: seq<Item>, added: nat, now: int, table: string, key: string)
    requires KeysDiffer(items)
    ensures var room := Cleaned(items, added, now);
            KeysDiffer(room) && (Has(room, table, key) ==> ItemOf(items, table, key) == ItemOf(room, table, key))
  {
    var s, room := Sorted(items, now), Cleaned(items, added, now);
    SortedKeysDiffer(items, now);
    SortedIsPermutation(items, now);
    assert room <= s;
    hide Cleaned, Sorted, Find, Kept;
    if Has(room, table, key) {
      var x := room[Find(room, table, key)];
      assert x == s[Find(room, table, key)];
      assert x in multiset(s);
      var i :| 0 <= i < |items| && items[i] == x;
      FoundAt(items, table, key, i);
    }
  }

  lemma FoundAt(items: seq<Item>, table: string, key: string, i: nat)
    requires KeysDiffer(items) && i < |items| && Matches(items[i], table, key)
    ensures Find(items, table, key) == i
  {
    hide Find;
    FirstIs(items, table, key, i);
  }

  lemma FirstIs(items: seq<Item>, table: string, key: string, k: nat)
    requires k <= |items| && (k < |items| ==> Matches(items[k], table, key))
    requires forall j | 0 <= j < k :: !Matches(items[j], table, key)
    ensures Find(items, table, key) == k
  {
    hide Find;
  }

  lemma TouchedItem(items: seq<Item>, k: nat, table: string, key: string)
    requires k < |items| && KeysDiffer(items)
    ensures KeysDiffer(Touched(items, k))
    ensures ItemOf(Touched(items, k), table, key) ==
            if Matches(items[k], table, key) then Some(items[k].(count := items[k].count + 1))
            else ItemOf(items, table, key)
  {
    hide Find;
    if Matches(items[k], table, key) {
      FoundAt(items, table, key, k);
    }
    FirstIs(Touched(items, k), table, key, Find(items, table, key));
  }

  lemma AppendedItem(items: seq<Item>, x: Item, table: string, key: string)
    requires KeysDiffer(items) && !Has(items, x.table, x.key)
    ensures KeysDiffer(items + [x])
    ensures ItemOf(items + [x], table, key) ==
            if Matches(x, table, key) then Some(x) else ItemOf(items, table, key)
  {
    hide Find;
    FirstIs(items + [x], table, key,
            if Has(items, table, key) then Find(items, table, key)
            else if Matches(x, table, key) then |items| else |items| + 1);
  }

  /** An operation under a key that is there counts one use of it; an insertion under one that is missing adds it, with
      one use, cleaning before that if there is no room. */
  lemma StepItem(items: seq<Item>, op: Op, config: Config, table: string, key: string)
    requires KeysDiffer(items)
    ensures var after := Step(items, op, config); var x, x' := ItemOf(items, table, key), ItemOf(after, table, key);
            var t := TableOf(op.r, config);
            && KeysDiffer(after)
            && (t.None? || (op.LookupOp? && !Has(items, t.value, op.r.key)) ==> x' == x)
            && (t.Some? && Has(items, t.value, op.r.key) ==>
                  if table == t.value && key == op.r.key
                  then x.Some? && x' == Some(x.value.(count := x.value.count + 1)) else x' == x)
            && (op.InsertOp? && t.Some? && !Has(items, t.value, op.r.key) ==>
                  if table == t.value && key == op.r.key then x' == Some(Item(op.now, 1, table, key, op.wave))
                  else x' == x || (x' == None && NoRoom(items, op.wave, config.maxKBytes * 1024)))
  {
    hide Find, TableOf, Touched, Cleaned, KeysDiffer;
    var t, maxBytes := TableOf(op.r, config), config.maxKBytes * 1024;
    if t.Some? {
      var k := Find(items, t.value, op.r.key);
      if k < |items| {
        TouchedItem(items, k, table, key);
      } else if op.InsertOp? {
        var x := Item(op.now, 1, t.value, op.r.key, op.wave);
        if NoRoom(items, op.wave, maxBytes) {
          var room := Cleaned(items, WaveSize(op.wave), op.now);
          CleanedKeepsItems(items, WaveSize(op.wave), op.now, table, key);
          CleanedBringsNothing(items, WaveSize(op.wave), op.now, x.table, x.key);
          AppendedItem(room, x, table, key);
        } else {
          AppendedItem(items, x, table, key);
        }
      }
    }
  }

  /** An operation changes what is found only by inserting under a key that is missing, and by cleaning before that. */
  lemma StepWave(items: seq<Item>, op: Op, config: Config, table: string, key: string)
    requires KeysDiffer(items)
    ensures var after, maxBytes := Step(items, op, config), config.maxKBytes * 1024;
            var w, w' := WaveOf(items, table, key), WaveOf(after, table, key);
            var t := TableOf(op.r, config);
            && KeysDiffer(after)
            && (op.LookupOp? || t.None? || Has(items, t.value, op.r.key) ==> w' == w)
            && (op.InsertOp? && t.Some? && !Has(items, t.value, op.r.key) ==>
                  if table == t.value && key == op.r.key then w' == Some(op.wave)
                  else w' == w || (w' == None && NoRoom(items, op.wave, maxBytes)))
  {
    hide Step, TableOf, KeysDiffer, NoRoom, ItemOf, Has;
    StepItem(items, op, config, table, key);
  }

  /** What a lookup gives after some operations. */
  function Served(ops: seq<Op>, config: Config, r: Request): Option<Wave> {
    var table := TableOf(r, config);
    if table.None? then None else WaveOf(Run(ops, config), table.value, r.key)
  }

  /** Requests for the same sound. */
  predicate Alike(a: Request, b: Request, config: Config) {
    Cacheable(a) && Cacheable(b) && SameTable(a, b, config) && a.key == b.key
  }

  /** An insertion that finds no room. */
  predicate Overflows(ops: seq<Op>, config: Config, op: Op) {
    op.InsertOp? && 2 * |SamplesOf(Run(ops, config))| + 2 * |op.wave.samples| > 1024 * config.maxKBytes
  }

  /** What a plain memory of requests would have: the first wave inserted under such a request, until an insertion that
      found no room has evicted it. */
  function Remembered(ops: seq<Op>, config: Config, r: Request): Option<Wave> {
    if ops == [] then None
    else
      var n := |ops| - 1;
      var was, op := Remembered(ops[..n], config, r), ops[n];
      if op.InsertOp? && Alike(op.r, r, config) && was.None? then Some(op.wave)
      else if Overflows(ops[..n], config, op) && Served(ops, config, r).None? then None
      else was
  }

  /** One operation more, seen by a request. */
  lemma LastServed(ops: seq<Op>, config: Config, r: Request)
    requires ops != [] && KeysDiffer(Run(ops[..|ops| - 1], config))
    ensures KeysDiffer(Run(ops, config))
    ensures var n := |ops| - 1; var was, op, got := Served(ops[..n], config, r), ops[n], Served(ops, config, r);
            if op.InsertOp? && Alike(op.r, r, config) && was.None? then got == Some(op.wave)
            else got == was || (got == None && Overflows(ops[..n], config, op))
  {
    var n := |ops| - 1;
    var items, op := Run(ops[..n], config), ops[n];
    TablesExactly(op.r, r, config);
    TablesExactly(r, op.r, config);
    var t := TableOf(r, config);
    StepWave(items, op, config, if t.Some? then t.value else "", r.key);
    TotalIsSamples(items);
    assert op.InsertOp? ==> (NoRoom(items, op.wave, config.maxKBytes * 1024) <==> Overflows(ops[..n], config, op));
    assert Run(ops, config) == Step(items, op, config);
    hide Step, Run, Find, KeysDiffer, TableOf, NoRoom, Cacheable, SameTable, Overflows, Total, SamplesOf;
  }

  /** A lookup gives what the plain memory has, for requests of any type, settings and key. */
  lemma {:induction false} AgreesWithMemory(ops: seq<Op>, config: Config, r: Request)
    ensures KeysDiffer(Run(ops, config))
    ensures Served(ops, config, r) == Remembered(ops, config, r)
  {
    if ops == [] {
      NothingServed(config, r);
    } else {
      AgreesWithMemory(ops[..|ops| - 1], config, r);
      LastServed(ops, config, r);
      hide Served, Run, KeysDiffer, Alike, Overflows;
    }
  }

  lemma NothingServed(config: Config, r: Request)
    ensures KeysDiffer(Run([], config)) && Served([], config, r) == None
  {
    hide TableOf;
  }

  /** Found after each operation from number i on. */
  predicate ServedSince(ops: seq<Op>, config: Config, r: Request, i: nat) {
    forall j | i < j <= |ops| :: Served(ops[..j], config, r).Some?
  }

  lemma ServedOnceMore(ops: seq<Op>, config: Config, r: Request, i: nat)
    requires ops != [] && ServedSince(ops[..|ops| - 1], config, r, i) && Served(ops, config, r).Some?
    ensures ServedSince(ops, config, r, i)
  {
    hide Served;
    var n := |ops| - 1;
    forall j | i < j <= |ops|
      ensures Served(ops[..j], config, r).Some?
    {
      if j <= n {
        assert ops[..n][..j] == ops[..j];
      } else {
        assert ops[..j] == ops;
      }
    }
  }

  /** So a hit is the wave of the insertion, under a request of the same type, language and key, and voice, rate and
      pitch where they are told apart, that found nothing there, and nothing was evicted there since. */
  lemma {:induction false} HitIsFirstInsertion(ops: seq<Op>, config: Config, r: Request)
    returns (i: nat)
    requires Served(ops, config, r).Some?
    ensures i < |ops| && ops[i].InsertOp? && Alike(ops[i].r, r, config)
    ensures Served(ops, config, r) == Some(ops[i].wave)
    ensures Served(ops[..i], config, r).None? && ServedSince(ops, config, r, i)
  {
    hide Served, Run, Alike, ServedSince, KeysDiffer;
    AgreesWithMemory([], config, r);
    assert ops != [];
    var n := |ops| - 1;
    AgreesWithMemory(ops[..n], config, r);
    LastServed(ops, config, r);
    if Served(ops[..n], config, r).Some? {
      i := HitIsFirstInsertion(ops[..n], config, r);
      assert ops[..n][..i] == ops[..i];
    } else {
      i := n;
      SinceNow(ops, config, r);
    }
    ServedOnceMore(ops, config, r, i);
  }

  lemma SinceNow(ops: seq<Op>, config: Config, r: Request)
    requires ops != []
    ensures ServedSince(ops[..|ops| - 1], config, r, |ops| - 1)
  {
  }

  // ---------------------------------------------------------------- uses

  /** How often the wave a request finds was asked for, its insertion counting once. */
  function Uses(ops: seq<Op>, config: Config, r: Request): nat {
    if ops == [] then 0
    else
      var n := |ops| - 1;
      if !Alike(ops[n].r, r, config) then Uses(ops[..n], config, r)
      else if Served(ops[..n], config, r).Some? then Uses(ops[..n], config, r) + 1
      else 1
  }

  /** When the wave a request finds was inserted. */
  function Born(ops: seq<Op>, config: Config, r: Request): int {
    if ops == [] then 0
    else
      var n := |ops| - 1;
      if ops[n].InsertOp? && Alike(ops[n].r, r, config) && Served(ops[..n], config, r).None? then ops[n].now
      else Born(ops[..n], config, r)
  }

  /** The counter of a cached wave is the number of its uses, its start the time of its insertion. */
  lemma {:induction false} CounterIsUses(ops: seq<Op>, config: Config, r: Request)
    requires Served(ops, config, r).Some?
    ensures var table := TableOf(r, config);
            && table.Some? && ItemOf(Run(ops, config), table.value, r.key).Some?
            && var x := ItemOf(Run(ops, config), table.value, r.key).value;
               x.count == Uses(ops, config, r) && x.start == Born(ops, config, r)
  {
    NothingServed(config, r);
    assert ops != [];
    var n := |ops| - 1;
    var items, op := Run(ops[..n], config), ops[n];
    AgreesWithMemory(ops[..n], config, r);
    TablesExactly(op.r, r, config);
    TablesExactly(r, op.r, config);
    StepItem(items, op, config, TableOf(r, config).value, r.key);
    assert Run(ops, config) == Step(items, op, config);
    hide Step, Run, Find, KeysDiffer, TableOf, NoRoom, Cacheable, SameTable;
    if Served(ops[..n], config, r).Some? {
      CounterIsUses(ops[..n], config, r);
    }
  }

  lemma CrossMultiplied(m: nat, n: nat, a: int, b: int)
    requires a > 0 && b > 0
    ensures m as real / a as real >= n as real / b as real <==> m * b >= n * a
  {
    var x, y := m as real / a as real, n as real / b as real;
    assert x * a as real == m as real && y * b as real == n as real;
    assert (m * b) as real == x * (a as real * b as real) && (n * a) as real == y * (a as real * b as real);
    assert a as real * b as real > 0.0;
  }

  lemma ScoresCompare(a: Item, b: Item, now: int)
    requires a.start < now && b.start < now
    ensures Score(a, now) >= Score(b, now) <==> a.count * (now - b.start) >= b.count * (now - a.start)
  {
    CrossMultiplied(a.count, b.count, now - a.start, now - b.start);
  }

  lemma SortedAreLater(items: seq<Item>, now: int, i: nat)
    requires Later(items, now) && i < |Sorted(items, now)|
    ensures Sorted(items, now)[i] in items && Sorted(items, now)[i].start < now
  {
    SortedIsPermutation(items, now);
    hide Sorted;
    var s := Sorted(items, now);
    assert s[i] in multiset(s);
  }

  /** What is evicted was used less in its time than what is kept, or as much. */
  lemma EvictsLeastUsed(items: seq<Item>, added: nat, now: int, i: nat, j: nat)
    requires Later(items, now)
    requires i < |Cleaned(items, added, now)| <= j < |Sorted(items, now)|
    ensures var kept, gone := Sorted(items, now)[i], Sorted(items, now)[j];
            && kept in items && gone in items
            && kept.count * (now - gone.start) >= gone.count * (now - kept.start)
  {
    hide Sorted, Cleaned, Total, Score, Later;
    CleanedIsBest(items, added, now, 0);
    SortedAreLater(items, now, i);
    SortedAreLater(items, now, j);
    ScoresCompare(Sorted(items, now)[i], Sorted(items, now)[j], now);
  }
}
