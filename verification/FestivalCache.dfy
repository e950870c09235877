/** The wave cache of src/modules/festival.c: a table of tables of waves, a list of counters, and a budget of bytes.
    `FestivalCacheSpec` says what the operations mean on the list of cached items, `FestivalCache` is the structure
    proved against it. */
module FestivalCacheSpec {
  import opened Collections
  import opened Strings

  datatype MsgType = TextMsg | SoundIcon | CharMsg | KeyMsg | SpellMsg

  datatype Settings = Settings(language: Option<string>, voiceType: int, pitch: int, rate: int)

  datatype Config = Config(on: bool, maxKBytes: nat, distinguishVoices: bool, distinguishRate: bool,
                           distinguishPitch: bool)

  /** What tells tables apart. */
  datatype TableId = TableId(ktype: char, language: string, voice: int, rate: int, pitch: int)

  function IdOf(msgtype: MsgType, settings: Settings, config: Config): Option<TableId> {
    if settings.language.None? || msgtype.TextMsg? || msgtype.SpellMsg? then None
    else
      Some(TableId(if msgtype.CharMsg? then 'c' else if msgtype.KeyMsg? then 'k' else 's',
                   settings.language.value,
                   if config.distinguishVoices then settings.voiceType else 0,
                   if config.distinguishRate then settings.rate else 0,
                   if config.distinguishPitch then settings.pitch else 0))
  }

  /** printf's %d */
  function Signed(n: int): string {
    if n < 0 then "-" + Decimal(-n) else Decimal(n)
  }

  /** The key of a table, "%c_%s_%d_%d_%d". */
  function Printed(id: TableId): string {
    [id.ktype] + "_" + id.language + "_" + Signed(id.voice) + "_" + Signed(id.rate) + "_" + Signed(id.pitch)
  }

  /** cache_gen_key */
  function GenKey(msgtype: MsgType, settings: Settings, config: Config): Option<string> {
    var id := IdOf(msgtype, settings, config);
    if id.None? then None else Some(Printed(id.value))
  }

  datatype Wave = Wave(samples: seq<int>)

  const SIZEOF_SHORT := 2

  function WaveSize(w: Wave): nat {
    |w.samples| * SIZEOF_SHORT
  }

  /** A cached wave with its counter, in the order of the counter list. */
  datatype Item = Item(start: int, count: nat, table: string, key: string, wave: Wave)

  function Find(items: seq<Item>, table: string, key: string): (k: nat)
    ensures k <= |items|
    ensures k < |items| ==> items[k].table == table && items[k].key == key
    ensures forall j | 0 <= j < k :: !(items[j].table == table && items[j].key == key)
  {
    if items == [] || (items[0].table == table && items[0].key == key) then 0 else 1 + Find(items[1..], table, key)
  }

  function Total(items: seq<Item>): nat {
    if items == [] then 0 else Total(items[..|items| - 1]) + WaveSize(items[|items| - 1].wave)
  }

  /** Requests per second of life; asked for only with a clock later than the start. */
  function Score(item: Item, now: int): real {
    if now <= item.start then 0.0 else item.count as real / (now - item.start) as real
  }

  predicate Later(items: seq<Item>, now: int) {
    forall i | 0 <= i < |items| :: items[i].start < now
  }

  /** Behind everything that scores as much. */
  function PlaceFor(sorted: seq<Item>, x: Item, now: int): (k: nat)
    ensures k <= |sorted|
    ensures forall j | 0 <= j < k :: Score(sorted[j], now) >= Score(x, now)
    ensures k < |sorted| ==> Score(sorted[k], now) < Score(x, now)
  {
    if sorted == [] || Score(sorted[0], now) < Score(x, now) then 0 else 1 + PlaceFor(sorted[1..], x, now)
  }

  function InsertedAt<T>(s: seq<T>, k: nat, x: T): seq<T>
    requires k <= |s|
  {
    s[..k] + [x] + s[k..]
  }

  /** g_list_sort with cache_counter_comp: best score first, stable. */
  function Sorted(items: seq<Item>, now: int): (r: seq<Item>)
    ensures |r| == |items|
  {
    if items == [] then []
    else
      var r := Sorted(items[..|items| - 1], now);
      var x := items[|items| - 1];
      InsertedAt(r, PlaceFor(r, x, now), x)
  }

  lemma SortedStart(items: seq<Item>, now: int)
    ensures Sorted(items[..0], now) == items[..0] && Total(items[..0]) == 0
  {
  }

  lemma SortedStep(items: seq<Item>, n: nat, now: int)
    requires n < |items|
    ensures var r := Sorted(items[..n], now);
            Sorted(items[..n + 1], now) == InsertedAt(r, PlaceFor(r, items[n], now), items[n])
  {
    assert items[..n + 1][..n] == items[..n];
  }

  lemma TotalStep(items: seq<Item>, n: nat)
    requires n < |items|
    ensures Total(items[..n + 1]) == Total(items[..n]) + WaveSize(items[n].wave)
  {
    assert items[..n + 1][..n] == items[..n];
  }

  lemma TotalAppend(items: seq<Item>, x: Item)
    ensures Total(items + [x]) == Total(items) + WaveSize(x.wave)
  {
    assert (items + [x])[..|items|] == items;
  }

  lemma {:induction false} TotalInsert(s: seq<Item>, k: nat, x: Item)
    requires k <= |s|
    ensures Total(InsertedAt(s, k, x)) == Total(s) + WaveSize(x.wave)
  {
    var r, n := InsertedAt(s, k, x), |s| - 1;
    if k == |s| {
      assert r[..|s|] == s;
    } else {
      TotalInsert(s[..n], k, x);
      assert r[..|s|] == InsertedAt(s[..n], k, x);
    }
  }

  lemma InsertAt<T>(s: seq<T>, k: nat, x: T)
    requires k <= |s|
    ensures |InsertedAt(s, k, x)| == |s| + 1
    ensures forall i | 0 <= i <= |s| :: InsertedAt(s, k, x)[i] == if i < k then s[i] else if i == k then x else s[i - 1]
  {
  }

  lemma InsertKeepsLater(s: seq<Item>, k: nat, x: Item, now: int)
    requires k <= |s| && Later(s, now) && x.start < now
    ensures Later(InsertedAt(s, k, x), now)
  {
    InsertAt(s, k, x);
  }

  lemma InsertElements<T>(s: seq<T>, k: nat, x: T)
    requires k <= |s|
    ensures multiset(InsertedAt(s, k, x)) == multiset(s + [x])
  {
    assert s == s[..k] + s[k..];
  }

  /** What is left when the last is dropped as long as `added` bytes more do not fit into `required`. */
  function Kept(items: seq<Item>, added: nat, required: nat): (r: seq<Item>)
    ensures r <= items
  {
    if items == [] || Total(items) + added <= required then items else Kept(items[..|items| - 1], added, required)
  }

  /** The items after cache_clean. */
  function Cleaned(items: seq<Item>, added: nat, now: int): seq<Item> {
    Kept(Sorted(items, now), added, 2 * Total(items) / 3)
  }

  /** Sorting keeps what there is. */
  lemma {:induction false} SortedIsPermutation(items: seq<Item>, now: int)
    ensures multiset(Sorted(items, now)) == multiset(items)
  {
    if items != [] {
      var n := |items| - 1;
      assert items == items[..n] + [items[n]];
      SortedIsPermutation(items[..n], now);
      var r := Sorted(items[..n], now);
      InsertElements(r, PlaceFor(r, items[n], now), items[n]);
    }
  }

  lemma CleanedBringsNothing(items: seq<Item>, added: nat, now: int, table: string, key: string)
    requires Find(items, table, key) == |items|
    ensures Find(Cleaned(items, added, now), table, key) == |Cleaned(items, added, now)|
  {
    hide Find, Kept;
    var r := Cleaned(items, added, now);
    SortedIsPermutation(items, now);
    hide Sorted;
    forall j | 0 <= j < |r|
      ensures !(r[j].table == table && r[j].key == key)
    {
      assert r[j] == Sorted(items, now)[j];
      assert r[j] in multiset(Sorted(items, now));
      assert r[j] in items;
    }
  }

  function Touched(items: seq<Item>, k: nat): seq<Item>
    requires k < |items|
  {
    items[k := items[k].(count := items[k].count + 1)]
  }

  lemma {:induction false} TotalTouched(items: seq<Item>, k: nat)
    requires k < |items|
    ensures Total(Touched(items, k)) == Total(items)
  {
    var n := |items| - 1;
    if k < n {
      TotalTouched(items[..n], k);
      assert Touched(items, k)[..n] == Touched(items[..n], k);
    } else {
      assert Touched(items, k)[..n] == items[..n];
    }
  }

  /** The items after a lookup. */
  function AfterLookup(items: seq<Item>, table: string, key: string): seq<Item> {
    var k := Find(items, table, key);
    if k < |items| then Touched(items, k) else items
  }

  predicate NoRoom(items: seq<Item>, wave: Wave, maxBytes: nat) {
    Total(items) + WaveSize(wave) > maxBytes
  }

  /** The items after an insertion. */
  function AfterInsert(items: seq<Item>, table: string, key: string, wave: Wave, now: int, maxBytes: nat): seq<Item> {
    var k := Find(items, table, key);
    if k < |items| then Touched(items, k)
    else
      var room := if NoRoom(items, wave, maxBytes) then Cleaned(items, WaveSize(wave), now) else items;
      room + [Item(now, 1, table, key, wave)]
  }
}

module FestivalCache {
  import opened Collections
  import opened FestivalCacheSpec

  class CounterEntry {
    const start: int
    var count: nat
    const size: nat
    const table: string // p_caches: tables are never removed, so their key stands for them
    const key: string

    constructor (start: int, size: nat, table: string, key: string)
      ensures this.start == start && count == 1 && this.size == size && this.table == table && this.key == key
    {
      this.start, this.count, this.size, this.table, this.key := start, 1, size, table, key;
    }
  }

  datatype TableEntry = TableEntry(counter: CounterEntry, wave: Wave)

  type Tables = map<string, map<string, TableEntry>>

  /** A counter holds what an item says, and the tables hold the item. */
  ghost predicate Represents(c: CounterEntry, item: Item, caches: Tables)
    reads c`count
  {
    && c.start == item.start && c.count == item.count && c.size == WaveSize(item.wave)
    && c.table == item.table && c.key == item.key
    && c.table in caches && c.key in caches[c.table] && caches[c.table][c.key] == TableEntry(c, item.wave)
  }

  ghost predicate Distinct(counter: seq<CounterEntry>) {
    forall i, j | 0 <= i < j < |counter| :: counter[i] != counter[j]
  }

  /** Whatever the tables hold has its counter in the list. */
  ghost predicate Counted(caches: Tables, counter: seq<CounterEntry>) {
    forall t, k | t in caches && k in caches[t] ::
      caches[t][k].counter in counter && caches[t][k].counter.table == t && caches[t][k].counter.key == k
  }

  ghost predicate AllRepresent(counter: seq<CounterEntry>, items: seq<Item>, caches: Tables)
    requires |counter| == |items|
    reads counter`count
  {
    forall i | 0 <= i < |counter| :: Represents(counter[i], items[i], caches)
  }

  lemma DistinctPermuted(a: seq<CounterEntry>, b: seq<CounterEntry>)
    requires Distinct(a) && multiset(a) == multiset(b)
    ensures Distinct(b)
  {
    forall i, j | 0 <= i < j < |b|
      ensures b[i] != b[j]
    {
      if b[i] == b[j] {
        TwiceInMultiset(b, i, j);
        OnceInMultiset(a, b[i]);
      }
    }
  }

  lemma TwiceInMultiset(b: seq<CounterEntry>, i: nat, j: nat)
    requires i < j < |b| && b[i] == b[j]
    ensures multiset(b)[b[i]] >= 2
  {
    assert b == b[..i] + [b[i]] + b[i + 1..j] + [b[j]] + b[j + 1..];
  }

  lemma {:induction false} OnceInMultiset(a: seq<CounterEntry>, c: CounterEntry)
    requires Distinct(a)
    ensures multiset(a)[c] <= 1
  {
    if a != [] {
      var n := |a| - 1;
      OnceInMultiset(a[..n], c);
      assert a == a[..n] + [a[n]];
      assert c == a[n] ==> c !in a[..n];
    }
  }

  lemma InsertRepresents(s: seq<CounterEntry>, items: seq<Item>, caches: Tables, k: nat, c: CounterEntry, x: Item)
    requires |s| == |items| && k <= |s| && AllRepresent(s, items, caches) && Represents(c, x, caches)
    ensures |InsertedAt(s, k, c)| == |InsertedAt(items, k, x)|
    ensures AllRepresent(InsertedAt(s, k, c), InsertedAt(items, k, x), caches)
  {
    InsertAt(s, k, c);
    InsertAt(items, k, x);
    hide Represents;
    forall i | 0 <= i <= |s|
      ensures Represents(InsertedAt(s, k, c)[i], InsertedAt(items, k, x)[i], caches)
    {
      assert i < k ==> Represents(s[i], items[i], caches);
      assert i > k ==> Represents(s[i - 1], items[i - 1], caches);
    }
  }

  lemma CountedPermuted(caches: Tables, a: seq<CounterEntry>, b: seq<CounterEntry>)
    requires Counted(caches, a) && multiset(a) == multiset(b)
    ensures Counted(caches, b)
  {
    forall c | c in a
      ensures c in b
    {
      assert c in multiset(a);
      assert c in multiset(b);
    }
  }

  class Cache {
    const config: Config
    var size: nat
    var caches: Tables
    var counter: seq<CounterEntry>
    ghost var items: seq<Item> // what is cached, in the order of the counter list

    ghost predicate Valid()
      reads this, counter`count
    {
      && |counter| == |items| && Distinct(counter)
      && AllRepresent(counter, items, caches)
      && Counted(caches, counter)
      && size == Total(items)
    }

    constructor (config: Config)
      ensures Valid() && items == [] && this.config == config
    {
      this.config := config;
      size, caches, counter, items := 0, map[], [], [];
    }

    /** The tables and the list agree on what is cached. */
    lemma Located(table: string, key: string)
      requires Valid()
      ensures var k := Find(items, table, key);
              if k < |items| then
                table in caches && key in caches[table] && caches[table][key] == TableEntry(counter[k], items[k].wave)
              else table !in caches || key !in caches[table]
    {
      hide Find, Total, Distinct;
      var k := Find(items, table, key);
      if table in caches && key in caches[table] {
        var c := caches[table][key].counter;
        var i :| 0 <= i < |counter| && counter[i] == c;
        assert Represents(counter[i], items[i], caches);
      }
      if k < |items| {
        assert Represents(counter[k], items[k], caches);
      }
    }

    /** A hit is counted. */
    method Count(c: CounterEntry, ghost k: nat)
      requires Valid() && k < |counter| && c == counter[k]
      modifies this`items, c`count
      ensures Valid() && items == Touched(old(items), k)
    {
      hide Total;
      TotalTouched(items, k);
      assert Represents(counter[k], items[k], caches);
      c.count := c.count + 1;
      items := Touched(items, k);
      forall i | 0 <= i < |counter|
        ensures Represents(counter[i], items[i], caches)
      {
        assert old(Represents(counter[i], items[i], caches));
      }
    }

    /** cache_lookup; it counts the hit whatever `add_counter` is. */
    method Lookup(key: Option<string>, msgtype: MsgType, settings: Settings) returns (r: Option<Wave>)
      requires Valid()
      modifies this`items, counter`count
      ensures Valid()
      ensures var table := GenKey(msgtype, settings, config);
              if !config.on || key.None? || table.None? then r == None && items == old(items)
              else
                && items == AfterLookup(old(items), table.value, key.value)
                && var k := Find(old(items), table.value, key.value);
                   r == if k < |old(items)| then Some(old(items)[k].wave) else None
    {
      hide GenKey, Find, Valid, Touched;
      if !config.on || key.None? {
        return None;
      }
      var keyTable := GenKey(msgtype, settings, config);
      if keyTable.None? {
        return None;
      }
      Located(keyTable.value, key.value);
      if keyTable.value !in caches || key.value !in caches[keyTable.value] {
        return None;
      }
      var entry := caches[keyTable.value][key.value];
      ghost var k := Find(items, keyTable.value, key.value);
      SameLength();
      assert counter[k] in counter;
      Count(entry.counter, k);
      r := Some(entry.wave);
    }

    /** cache_counter_comp asks for the quotient of count and age. */
    method Place(sorted: seq<CounterEntry>, c: CounterEntry, now: int, ghost done: seq<Item>, ghost x: Item)
      returns (k: nat)
      requires |sorted| == |done| && Represents(c, x, caches) && x.start < now && Later(done, now)
      requires AllRepresent(sorted, done, caches)
      ensures k == PlaceFor(done, x, now)
    {
      hide PlaceFor;
      k := 0;
      while k < |sorted|
             && sorted[k].count as real / (now - sorted[k].start) as real
                >= c.count as real / (now - c.start) as real
        invariant k <= |sorted| && forall j | 0 <= j < k :: Score(done[j], now) >= Score(x, now)
      {
        assert Represents(sorted[k], done[k], caches);
        k := k + 1;
      }
      assert k < |sorted| ==> Represents(sorted[k], done[k], caches);
    }

    /** g_list_sort with cache_counter_comp, as an insertion sort. */
    method Sort(now: int)
      requires Valid() && Later(items, now)
      modifies this`counter, this`items
      ensures Valid() && items == Sorted(old(items), now)
      ensures multiset(counter) == multiset(old(counter))
    {
      hide Valid, Total, Sorted, InsertedAt, Represents, Counted;
      SameLength();
      Unpacked();
      var n, sorted, was := 0, [], counter;
      ghost var done, all := [], items;
      SortedStart(all, now);
      while n < |was|
        invariant n <= |was| == |all| && |sorted| == |done| == n && counter == was && items == all
        invariant done == Sorted(all[..n], now) && Later(done, now) && Total(done) == Total(all[..n])
        invariant AllRepresent(sorted, done, caches)
        invariant multiset(sorted) == multiset(was[..n])
      {
        var k := Place(sorted, was[n], now, done, all[n]);
        SortedStep(all, n, now);
        TotalStep(all, n);
        TotalInsert(done, k, all[n]);
        InsertKeepsLater(done, k, all[n], now);
        InsertRepresents(sorted, done, caches, k, was[n], all[n]);
        InsertElements(sorted, k, was[n]);
        assert was[..n + 1] == was[..n] + [was[n]];
        sorted := InsertedAt(sorted, k, was[n]);
        done := InsertedAt(done, k, all[n]);
        n := n + 1;
      }
      assert was[..n] == was && all[..n] == all;
      DistinctPermuted(was, sorted);
      CountedPermuted(caches, was, sorted);
      counter, items := sorted, done;
      Packed();
    }

    lemma LastCounter()
      requires Valid() && counter != []
      ensures var n := |counter| - 1;
              && |items| == n + 1 && Represents(counter[n], items[n], caches)
              && Total(items) == Total(items[..n]) + WaveSize(items[n].wave)
              && size == Total(items)
    {
    }

    /** The rest is represented when one entry has left its table. */
    lemma WithoutLast(without: Tables)
      requires Valid() && counter != []
      requires var c := counter[|counter| - 1];
               c.table in caches && without == caches[c.table := caches[c.table] - {c.key}]
      ensures var n := |counter| - 1;
              && |items| == n + 1 && AllRepresent(counter[..n], items[..n], without)
              && Counted(without, counter[..n]) && Distinct(counter[..n])
    {
      hide Total;
      var n := |counter| - 1;
      var c := counter[n];
      assert Represents(c, items[n], caches);
      forall i | 0 <= i < n
        ensures Represents(counter[..n][i], items[..n][i], without)
      {
        assert Represents(counter[i], items[i], caches);
        assert counter[i] != c;
      }
      forall t, k | t in without && k in without[t]
        ensures without[t][k].counter in counter[..n] && without[t][k].counter.table == t
                && without[t][k].counter.key == k
      {
        assert t in caches && k in caches[t] && without[t][k] == caches[t][k];
        assert caches[t][k].counter != c;
      }
    }

    /** One round of the loop of cache_clean, with the error it would report. */
    method DropLast() returns (r: int)
      requires Valid() && counter != []
      modifies this`size, this`caches, this`counter, this`items
      ensures Valid() && items == old(items)[..|old(items)| - 1] && r == 0
      ensures counter == old(counter)[..|old(counter)| - 1]
    {
      hide Valid, Total, Represents, AllRepresent, Counted, Distinct;
      LastCounter();
      var centry := counter[|counter| - 1];
      RepresentsSize(centry, items[|counter| - 1], caches);
      if size < centry.size {
        return -1;
      }
      var without := caches[centry.table := caches[centry.table] - {centry.key}];
      WithoutLast(without);
      ghost var n := |items| - 1;
      size := size - centry.size;
      caches := without;
      counter := counter[..|counter| - 1];
      items := items[..n];
      Packed();
      r := 0;
    }

    /** cache_clean: neither of its errors occurs. */
    method Clean(added: nat, now: int) returns (r: int)
      requires Valid() && Later(items, now)
      modifies this`size, this`caches, this`counter, this`items
      ensures Valid() && items == Cleaned(old(items), added, now) && r == 0
    {
      hide Valid, Sorted, Total, Later;
      SameLength();
      var required := 2 * size / 3;
      Sort(now);
      ghost var sorted := items;
      SameLength();
      while size + added > required
        invariant Valid() && size == Total(items) && |counter| == |items|
        invariant Kept(sorted, added, required) == Kept(items, added, required)
        decreases |counter|
      {
        if counter == [] {
          break;
        }
        r := DropLast();
        SameLength();
        if r != 0 {
          return r;
        }
      }
      r := 0;
    }

    /** The new wave in its table and at the end of the list. */
    lemma WithNew(c: CounterEntry, item: Item, with: Tables)
      requires Valid() && c !in counter && Find(items, c.table, c.key) == |items|
      requires && c.start == item.start && c.count == item.count && c.size == WaveSize(item.wave)
               && c.table == item.table && c.key == item.key
      requires with == caches[c.table := (if c.table in caches then caches[c.table] else map[])
                                         [c.key := TableEntry(c, item.wave)]]
      ensures |counter| == |items| && AllRepresent(counter + [c], items + [item], with)
      ensures Counted(with, counter + [c]) && Distinct(counter + [c])
    {
      hide Total, Find;
      forall i | 0 <= i < |counter|
        ensures Represents((counter + [c])[i], (items + [item])[i], with)
      {
        assert Represents(counter[i], items[i], caches);
        assert !(items[i].table == c.table && items[i].key == c.key);
      }
      assert Represents((counter + [c])[|counter|], (items + [item])[|counter|], with);
      forall t, k | t in with && k in with[t]
        ensures with[t][k].counter in counter + [c] && with[t][k].counter.table == t && with[t][k].counter.key == k
      {
        if t != c.table || k != c.key {
          assert t in caches && k in caches[t] && with[t][k] == caches[t][k];
        }
      }
    }

    /** cache_insert */
    method Insert(key: Option<string>, msgtype: MsgType, fwave: Option<Wave>, settings: Settings, now: int)
      returns (r: int)
      requires Valid()
      requires config.on && key.Some? && fwave.Some? ==>
                 GenKey(msgtype, settings, config).Some?
                 && (NoRoom(items, fwave.value, config.maxKBytes * 1024) ==> Later(items, now))
      modifies this, counter`count
      ensures Valid()
      ensures if !config.on then r == 0 && items == old(items)
              else if key.None? || fwave.None? then r == -1 && items == old(items)
              else
                && r == 0
                && var table := GenKey(msgtype, settings, config).value;
                   items == AfterInsert(old(items), table, key.value, fwave.value, now, config.maxKBytes * 1024)
    {
      hide Valid, GenKey, Find, Total, Later, Cleaned, Touched;
      if !config.on {
        return 0;
      }
      if key.None? {
        return -1;
      }
      if fwave.None? {
        return -1;
      }
      var present := Lookup(key, msgtype, settings);
      if present.Some? {
        return 0;
      }
      SameLength();
      var wave := fwave.value;
      if size + WaveSize(wave) > config.maxKBytes * 1024 {
        CleanedBringsNothing(items, WaveSize(wave), now, GenKey(msgtype, settings, config).value, key.value);
        r := Clean(WaveSize(wave), now);
        if r != 0 {
          return -1;
        }
      }
      var keyTable := GenKey(msgtype, settings, config).value;
      Add(keyTable, key.value, wave, now);
      r := 0;
    }

    method Add(keyTable: string, key: string, wave: Wave, now: int)
      requires Valid() && Find(items, keyTable, key) == |items|
      modifies this`size, this`caches, this`counter, this`items
      ensures Valid() && items == old(items) + [Item(now, 1, keyTable, key, wave)]
    {
      hide Valid, Find, Total, Represents, AllRepresent, Counted, Distinct;
      SameLength();
      var centry := new CounterEntry(now, WaveSize(wave), keyTable, key);
      ghost var item := Item(now, 1, keyTable, key, wave);
      var cache := if keyTable in caches then caches[keyTable] else map[];
      var with := caches[keyTable := cache[key := TableEntry(centry, wave)]];
      WithNew(centry, item, with);
      TotalAppend(items, item);
      counter := counter + [centry];
      size := size + centry.size;
      caches := with;
      items := items + [item];
      Packed();
    }

    lemma RepresentsSize(c: CounterEntry, item: Item, tables: Tables)
      requires Represents(c, item, tables)
      ensures c.size == WaveSize(item.wave) && c.table in tables
    {
    }

    lemma Unpacked()
      requires Valid()
      ensures |counter| == |items| && AllRepresent(counter, items, caches) && Counted(caches, counter)
      ensures Distinct(counter) && size == Total(items)
    {
    }

    lemma Packed()
      requires |counter| == |items| && AllRepresent(counter, items, caches) && Counted(caches, counter)
      requires Distinct(counter) && size == Total(items)
      ensures Valid()
    {
    }

    lemma SameLength()
      requires Valid()
      ensures |counter| == |items| && size == Total(items)
    {
    }
  }
}
