/** The wave cache of src/modules/ivona_client.c: slots in a doubly linked list between two sentinels, oldest use
    at the tail end, with use counts.  `IvonaCacheSpec` says what the operations mean on the list of entries,
    `IvonaCache` is the linked structure proved against it. */
module IvonaCacheSpec {

  const SIZE := 256
  const MAX_STRLEN := 11
  const INT_MAX := 0x7fff_ffff

  datatype Entry = Entry(key: string, wave: seq<int>, count: int)

  /** The oldest entry stored under `key`, or the length. */
  function Find(es: seq<Entry>, key: string): (k: nat)
    ensures k <= |es|
    ensures k < |es| ==> es[k].key == key
    ensures forall j | 0 <= j < k :: es[j].key != key
  {
    if es == [] then 0 else if es[0].key == key then 0 else 1 + Find(es[1..], key)
  }

  /** The oldest of the entries with the least count below `bound`, or the length. */
  function Victim(es: seq<Entry>, bound: int): (k: nat)
    ensures k <= |es|
    ensures k == |es| ==> forall j | 0 <= j < |es| :: es[j].count >= bound
    ensures k < |es| ==> es[k].count < bound
    ensures k < |es| ==> forall j | 0 <= j < k :: es[j].count > es[k].count
    ensures k < |es| ==> forall j | k <= j < |es| :: es[j].count >= es[k].count
  {
    if es == [] then 0
    else
      var n := |es| - 1;
      var k := Victim(es[..n], bound);
      if k < n then (if es[n].count < es[k].count then n else k)
      else if es[n].count < bound then n else |es|
  }

  function Remove(es: seq<Entry>, k: nat): seq<Entry>
    requires k < |es|
  {
    es[..k] + es[k + 1..]
  }

  function AgedEntry(e: Entry): Entry {
    if e.count > 1 then e.(count := e.count - 1) else e
  }

  function Aged(es: seq<Entry>): (r: seq<Entry>)
    ensures |r| == |es|
  {
    seq(|es|, i requires 0 <= i < |es| => AgedEntry(es[i]))
  }

  /** The entries after a lookup. */
  function AfterGet(es: seq<Entry>, key: string): seq<Entry> {
    var k := Find(es, key);
    if |key| > MAX_STRLEN || k == |es| then es
    else Remove(es, k) + [es[k].(count := es[k].count + 1)]
  }

  /** The entries after a store. */
  function AfterStore(es: seq<Entry>, key: string, wave: seq<int>): seq<Entry> {
    if |key| > MAX_STRLEN then es
    else if |es| < SIZE then es + [Entry(key, wave, 1)]
    else
      var v := Victim(es, INT_MAX);
      if v == |es| then es else Remove(Aged(es), v) + [Entry(key, wave, 1)]
  }
}

module IvonaCache {
  import opened Collections
  import opened IvonaCacheSpec

  class Slot {
    var succ: Slot?
    var pred: Slot?
    var count: int
    var str: string
    var samples: int
    var wave: seq<int>

    constructor ()
      ensures succ == null && pred == null && samples == 0
    {
      succ, pred, count, str, samples, wave := null, null, 0, "", 0, [];
    }
  }

  class Cache {
    const head: Slot
    const tail: Slot
    const icas: seq<Slot>
    ghost const Repr: set<Slot>
    var used: nat
    ghost var chain: seq<Slot> // the tail sentinel, the used slots oldest use first, the head sentinel
    ghost var Contents: seq<Entry> // what the used slots hold, oldest use first

    ghost predicate Distinct() {
      && |icas| == SIZE
      && Repr == (set s | s in icas) + {head, tail}
      && head != tail
      && (forall i | 0 <= i < SIZE :: icas[i] != head && icas[i] != tail)
      && (forall i, j | 0 <= i < j < SIZE :: icas[i] != icas[j])
    }

    /** Places k and k + 1 point at each other. */
    static ghost predicate Link(ch: seq<Slot>, k: nat)
      requires k + 1 < |ch|
      reads ch`succ, ch`pred
    {
      ch[k].succ == ch[k + 1] && ch[k + 1].pred == ch[k]
    }

    /** The links run through the chain, both ways, without a repetition. */
    ghost predicate Linked(ch: seq<Slot>)
      reads ch`succ, ch`pred
    {
      && |ch| >= 2 && ch[0] == tail && ch[|ch| - 1] == head
      && NoRepeat(ch)
      && (forall k | 0 <= k < |ch| - 1 :: Link(ch, k))
    }

    /** A slot that holds a wave. */
    static ghost predicate Filled(s: Slot)
      reads s`samples, s`wave, s`str
    {
      s.samples == |s.wave| > 0 && |s.str| <= MAX_STRLEN
    }

    static ghost function EntryAt(s: Slot): Entry
      reads s`str, s`wave, s`count
    {
      Entry(s.str, s.wave, s.count)
    }

    /** `es` is what the slots between the sentinels hold. */
    static ghost predicate Holds(ch: seq<Slot>, es: seq<Entry>)
      reads ch`str, ch`wave, ch`count
    {
      |ch| == |es| + 2 && forall k | 0 <= k < |es| :: es[k] == EntryAt(ch[k + 1])
    }

    /** The places between the sentinels hold used slots. */
    ghost predicate Inner(ch: seq<Slot>)
      requires used <= |icas|
      reads this, ch`samples, ch`wave, ch`str
    {
      forall k | 0 < k < |ch| - 1 :: ch[k] in icas && ch[k] !in icas[used..] && Filled(ch[k])
    }

    ghost predicate Sentinels()
      requires Distinct() && used <= SIZE
      reads this, head`samples, tail`samples, icas`succ, icas`pred
    {
      && head.samples == 0 && tail.samples == 0
      && (forall i | used <= i < SIZE :: icas[i].succ == null && icas[i].pred == null)
    }

    ghost predicate Valid()
      reads this, head, tail, icas, chain
    {
      && Distinct()
      && used <= SIZE && |chain| == used + 2
      && Linked(chain)
      && Inner(chain)
      && Sentinels()
      && Holds(chain, Contents)
    }

    /** ivona_init_cache, on zeroed storage. */
    constructor ()
      ensures Valid() && Contents == []
      ensures fresh(Repr)
    {
      var h := new Slot();
      var t := new Slot();
      var slots: seq<Slot> := [];
      while |slots| < SIZE
        invariant |slots| <= SIZE
        invariant h != t && fresh(h) && fresh(t)
        invariant h.samples == 0 && t.samples == 0
        invariant forall s | s in slots :: fresh(s) && s != h && s != t && s.succ == null && s.pred == null
        invariant forall i, j | 0 <= i < j < |slots| :: slots[i] != slots[j]
      {
        var s := new Slot();
        slots := slots + [s];
      }
      head, tail, icas, used, chain, Contents := h, t, slots, 0, [t, h], [];
      Repr := (set s | s in slots) + {h, t};
      h.pred := t;
      t.succ := h;
    }

    /** A chain without its place k. */
    static ghost function Without(ch: seq<Slot>, k: nat): seq<Slot>
      requires k < |ch|
    {
      ch[..k] + ch[k + 1..]
    }

    /** A chain with a slot put at the head end. */
    static ghost function WithLast(ch: seq<Slot>, s: Slot): seq<Slot>
      requires |ch| >= 2
    {
      ch[..|ch| - 1] + [s, ch[|ch| - 1]]
    }

    static ghost predicate NoRepeat(ch: seq<Slot>) {
      forall j, k | 0 <= j < k < |ch| :: ch[j] != ch[k]
    }

    /** Linked, except that the neighbours of place k point past it. */
    ghost predicate LinkedPast(ch: seq<Slot>, k: nat)
      requires 0 < k < |ch| - 1
      reads ch
    {
      && ch[0] == tail && ch[|ch| - 1] == head && NoRepeat(ch)
      && (forall j | 0 <= j < |ch| - 1 && j != k - 1 && j != k :: Link(ch, j))
      && ch[k - 1].succ == ch[k + 1] && ch[k + 1].pred == ch[k - 1]
    }

    lemma LinkedWithout(ch: seq<Slot>, k: nat)
      requires 0 < k < |ch| - 1 && LinkedPast(ch, k)
      ensures Linked(Without(ch, k)) && ch[k] !in Without(ch, k)
    {
      var o := Without(ch, k);
      forall j | 0 <= j < |o| - 1
        ensures Link(o, j)
      {
        if j != k - 1 {
          assert Link(ch, if j < k then j else j + 1);
        }
      }
    }

    lemma LinkedWithLast(ch: seq<Slot>, ica: Slot)
      requires |ch| >= 2 && ch[0] == tail && ch[|ch| - 1] == head && NoRepeat(ch) && ica !in ch
      requires forall j | 0 <= j < |ch| - 2 :: Link(ch, j)
      requires ch[|ch| - 2].succ == ica && ica.pred == ch[|ch| - 2] && ica.succ == head && head.pred == ica
      ensures Linked(WithLast(ch, ica))
    {
      var o := WithLast(ch, ica);
      forall j | 0 <= j < |o| - 1
        ensures Link(o, j)
      {
        if j < |ch| - 2 {
          assert Link(ch, j);
        }
      }
    }

    /** Let the neighbours of a slot at place k point past it; a slot in no chain (k is 0) has none. */
    method Bypass(ica: Slot, ghost k: nat)
      requires Linked(chain) && (forall s | s in chain :: s in Repr) && k < |chain| - 1
      requires if k == 0 then ica.succ == null && ica.pred == null else chain[k] == ica
      modifies Repr`succ, Repr`pred
      ensures if k == 0 then Linked(chain) else LinkedPast(chain, k)
      ensures forall s | s in Repr && (k == 0 || s !in chain) :: s.succ == old(s.succ) && s.pred == old(s.pred)
    {
      assert k > 0 ==> Link(chain, k - 1) && Link(chain, k);
      if ica.pred != null {
        ica.pred.succ := ica.succ;
      }
      if ica.succ != null {
        ica.succ.pred := ica.pred;
      }
      forall j | 0 <= j < |chain| - 1 && (k == 0 || (j != k - 1 && j != k))
        ensures Link(chain, j)
      {
        assert old(Link(chain, j));
      }
    }

    /** The first half of ica_tohead: the slot leaves its place. */
    method Unlink(ica: Slot, ghost k: nat)
      requires Linked(chain) && (forall s | s in chain :: s in Repr) && k < |chain| - 1
      requires if k == 0 then ica !in chain && ica.succ == null && ica.pred == null else chain[k] == ica
      modifies this`chain, Repr`succ, Repr`pred
      ensures Linked(chain) && ica !in chain
      ensures chain == if k == 0 then old(chain) else Without(old(chain), k)
      ensures forall s | s in Repr && s !in old(chain) :: s.succ == old(s.succ) && s.pred == old(s.pred)
    {
      Bypass(ica, k);
      if k > 0 {
        LinkedWithout(chain, k);
        chain := Without(chain, k);
      }
    }

    /** The second half of ica_tohead: a slot in no chain goes to the head end. */
    method Append(ica: Slot)
      requires Linked(chain) && (forall s | s in chain :: s in Repr) && head in Repr && ica in Repr && ica !in chain
      modifies this`chain, Repr`succ, Repr`pred
      ensures Linked(chain) && chain == WithLast(old(chain), ica)
      ensures forall s | s in Repr && s !in chain :: s.succ == old(s.succ) && s.pred == old(s.pred)
    {
      assert Link(chain, |chain| - 2);
      ica.pred := head.pred;
      ica.pred.succ := ica;
      ica.succ := head;
      head.pred := ica;
      forall j | 0 <= j < |chain| - 2
        ensures Link(chain, j)
      {
        assert old(Link(chain, j));
      }
      LinkedWithLast(chain, ica);
      chain := WithLast(chain, ica);
    }

    /** ica_tohead */
    method ToHead(ica: Slot, ghost k: nat)
      requires Linked(chain) && (forall s | s in chain :: s in Repr) && head in Repr && ica in Repr && k < |chain| - 1
      requires if k == 0 then ica !in chain && ica.succ == null && ica.pred == null else chain[k] == ica
      modifies this`chain, Repr`succ, Repr`pred
      ensures Linked(chain)
      ensures chain == WithLast(if k == 0 then old(chain) else Without(old(chain), k), ica)
      ensures forall s | s in Repr && s !in old(chain) && s != ica :: s.succ == old(s.succ) && s.pred == old(s.pred)
    {
      Unlink(ica, k);
      Append(ica);
    }

    lemma HoldsWithout(ch: seq<Slot>, es: seq<Entry>, k: nat)
      requires used <= |icas| && 0 < k < |ch| - 1 && Holds(ch, es) && Inner(ch)
      ensures Holds(Without(ch, k), Remove(es, k - 1)) && Inner(Without(ch, k))
    {
      var o, r := Without(ch, k), Remove(es, k - 1);
      forall j | 0 <= j < |r|
        ensures r[j] == EntryAt(o[j + 1])
      {
        var i := if j < k - 1 then j else j + 1;
        assert r[j] == es[i] && o[j + 1] == ch[i + 1];
      }
    }

    /** With a filled slot at the head end of what the chain held, the cache is valid again. */
    lemma MovedIsValid(ch: seq<Slot>, es: seq<Entry>, ica: Slot)
      requires Distinct() && used <= SIZE && Sentinels() && Holds(ch, es)
      requires |ch| == used + 1 && Inner(ch) && ica in icas && ica !in icas[used..] && Filled(ica)
      requires chain == WithLast(ch, ica) && Linked(chain) && Contents == es + [EntryAt(ica)]
      ensures Valid()
    {
    }

    /** Walk from the tail end to the first slot stored under `key`. */
    method Search(key: string) returns (ica: Slot?, ghost k: nat)
      requires Valid()
      ensures k == Find(Contents, key) + 1
      ensures ica != null <==> k <= |Contents|
      ensures ica != null ==> k <= used && ica == chain[k] && EntryAt(ica) == Contents[k - 1]
    {
      assert Link(chain, 0);
      ica := tail.succ;
      k := 1;
      while ica != null && ica.samples != 0
        invariant 1 <= k <= |chain| - 1 && ica == chain[k]
        invariant forall j | 0 <= j < k - 1 :: Contents[j].key != key
        decreases |chain| - k
      {
        assert Contents[k - 1] == EntryAt(ica);
        if ica.str == key {
          return;
        }
        assert Link(chain, k);
        ica := ica.succ;
        k := k + 1;
      }
      ica := null;
    }

    /** ivona_get_wave_from_cache */
    method Get(key: string) returns (r: Option<seq<int>>)
      requires Valid()
      modifies this`chain, this`Contents, Repr
      ensures Valid() && Contents == AfterGet(old(Contents), key)
      ensures var k := Find(old(Contents), key);
              r == if |key| <= MAX_STRLEN && k < |old(Contents)| then Some(old(Contents)[k].wave) else None
    {
      hide Valid, Find;
      if |key| > MAX_STRLEN {
        return None;
      }
      ghost var k;
      var ica;
      ica, k := Search(key);
      if ica == null {
        return None;
      }
      r := Some(ica.wave);
      Touch(ica, k);
    }

    /** The hit: one more use, and to the head end. */
    method Touch(ica: Slot, ghost k: nat)
      requires Valid() && 0 < k <= used && ica == chain[k]
      modifies this`chain, this`Contents, Repr
      ensures Valid()
      ensures var e := old(Contents)[k - 1];
              Contents == Remove(old(Contents), k - 1) + [e.(count := e.count + 1)]
    {
      ica.count := ica.count + 1;
      MoveFilled(ica, k, Contents[k - 1 := EntryAt(ica)]);
    }

    /** Slots not in use are in no chain. */
    lemma UnusedAreOutside(ica: Slot)
      requires Distinct() && used <= SIZE && |chain| >= 2 && chain[0] == tail && chain[|chain| - 1] == head
      requires Inner(chain) && ica in icas && ica !in icas[used..]
      ensures forall i | used <= i < SIZE :: icas[i] in Repr && icas[i] !in chain && icas[i] != ica
      ensures head in Repr && tail in Repr && ica in Repr && forall s | s in chain :: s in Repr
    {
      forall i | used <= i < SIZE
        ensures icas[i] !in chain && icas[i] != ica
      {
        assert icas[i] in icas[used..];
      }
    }

    /** Move a slot that holds a wave to the head end; `es` is what the chain holds before the move. */
    method MoveFilled(ica: Slot, ghost k: nat, ghost es: seq<Entry>)
      requires Distinct() && used <= SIZE && Linked(chain) && Inner(chain) && Sentinels() && Holds(chain, es)
      requires k < |chain| - 1 && |chain| == if k == 0 then used + 1 else used + 2
      requires ica in icas && ica !in icas[used..] && Filled(ica)
      requires if k == 0 then ica !in chain && ica.succ == null && ica.pred == null else chain[k] == ica
      modifies this`chain, this`Contents, Repr`succ, Repr`pred
      ensures Valid() && Contents == (if k == 0 then es else Remove(es, k - 1)) + [EntryAt(ica)]
    {
      ghost var ch := chain;
      UnusedAreOutside(ica);
      hide Holds, Filled, Inner, Link, NoRepeat;
      ToHead(ica, k);
      if k == 0 {
        Contents := es + [EntryAt(ica)];
        MovedIsValid(ch, es, ica);
      } else {
        HoldsWithout(ch, es, k);
        Contents := Remove(es, k - 1) + [EntryAt(ica)];
        MovedIsValid(Without(ch, k), Remove(es, k - 1), ica);
      }
    }

    static lemma VictimOfOneMore(es: seq<Entry>, k: nat)
      requires k < |es|
      ensures var v := Victim(es[..k], INT_MAX);
              Victim(es[..k + 1], INT_MAX) ==
              if v < k then (if es[k].count < es[v].count then k else v)
              else if es[k].count < INT_MAX then k else k + 1
    {
      assert es[..k + 1][..k] == es[..k];
    }

    /** The first loop of find_min_count. Its counter `i` stays 0, so the search covers the whole list. */
    method FindLeast() returns (found: Slot?)
      requires Valid()
      ensures var v := Victim(Contents, INT_MAX);
              if v == |Contents| then found == null else found == chain[v + 1]
    {
      hide Victim;
      var cnt := INT_MAX;
      found := null;
      assert Link(chain, 0);
      var ica := tail.succ;
      var i := 0;
      ghost var k, v := 0, 0;
      while i < SIZE / 2 && ica.samples != 0
        invariant k <= |Contents| && ica == chain[k + 1]
        invariant i == 0
        invariant v == Victim(Contents[..k], INT_MAX)
        invariant found == if v == k then null else chain[v + 1]
        invariant cnt == if v == k then INT_MAX else Contents[v].count
        decreases |Contents| - k
      {
        assert Contents[k] == EntryAt(ica);
        VictimOfOneMore(Contents, k);
        if ica.count < cnt {
          cnt := ica.count;
          found := ica;
        }
        v := Victim(Contents[..k + 1], INT_MAX);
        assert Link(chain, k + 1);
        ica := ica.succ;
        k := k + 1;
      }
      assert Contents[..k] == Contents;
    }

    /** The slots hold the entries of `es`, the first k of them aged. */
    static ghost predicate AgedUpTo(ch: seq<Slot>, es: seq<Entry>, k: nat)
      reads ch`str, ch`wave, ch`count
    {
      && |ch| == |es| + 2
      && forall j | 0 <= j < |es| :: EntryAt(ch[j + 1]) == if j < k then AgedEntry(es[j]) else es[j]
    }

    /** The second loop of find_min_count: every count above 1 drops by one. */
    method Age()
      requires Valid()
      modifies this`Contents, Repr`count
      ensures Valid() && Contents == Aged(old(Contents))
    {
      assert Link(chain, 0);
      var ica := tail.succ;
      ghost var k, es := 0, Contents;
      assert AgedUpTo(chain, es, 0);
      while ica.samples != 0
        invariant k <= |es| && ica == chain[k + 1]
        invariant Linked(chain) && Inner(chain) && Sentinels()
        invariant AgedUpTo(chain, es, k)
        decreases |es| - k
      {
        assert chain[k + 1] in Repr && EntryAt(ica) == es[k];
        AgeSlot(ica, k, es);
        assert Link(chain, k + 1);
        ica := ica.succ;
        k := k + 1;
      }
      Contents := Aged(es);
    }

    method AgeSlot(ica: Slot, ghost k: nat, ghost es: seq<Entry>)
      requires NoRepeat(chain) && k < |es| && AgedUpTo(chain, es, k) && ica == chain[k + 1]
      modifies ica`count
      ensures AgedUpTo(chain, es, k + 1)
    {
      assert EntryAt(ica) == es[k];
      assert forall i | 0 <= i < |chain| && i != k + 1 :: chain[i] != ica;
      if ica.count > 1 {
        ica.count := ica.count - 1;
      }
      assert EntryAt(ica) == AgedEntry(es[k]);
    }

    /** find_min_count */
    method FindMinCount() returns (found: Slot?)
      requires Valid()
      modifies this`Contents, Repr`count
      ensures Valid()
      ensures var v := Victim(old(Contents), INT_MAX);
              if v == |old(Contents)| then found == null && Contents == old(Contents)
              else found == chain[v + 1] && Contents == Aged(old(Contents))
    {
      found := FindLeast();
      if found != null {
        Age();
      }
    }

    /** ivona_store_wave_in_cache */
    method Store(key: string, wave: seq<int>)
      requires Valid() && |wave| > 0
      modifies this, Repr
      ensures Valid() && Contents == AfterStore(old(Contents), key, wave)
    {
      if |key| > MAX_STRLEN {
        return;
      }
      var ica: Slot?;
      ghost var k := 0;
      if used < SIZE {
        ica := icas[used];
        used := used + 1;
      } else {
        k := Victim(Contents, INT_MAX) + 1;
        ica := FindMinCount();
        if ica == null {
          return;
        }
      }
      Fill(ica, k, key, wave);
    }

    /** The slot takes the wave; `es` is what the chain holds then. */
    method SetWave(ica: Slot, ghost k: nat, key: string, wave: seq<int>) returns (ghost es: seq<Entry>)
      requires Distinct() && used <= SIZE && Linked(chain) && Inner(chain) && Holds(chain, Contents)
      requires k < |chain| - 1 && (if k == 0 then ica !in chain else chain[k] == ica)
      requires |wave| > 0 && |key| <= MAX_STRLEN
      modifies ica`count, ica`wave, ica`samples, ica`str
      ensures EntryAt(ica) == Entry(key, wave, 1) && Filled(ica)
      ensures Inner(chain) && Holds(chain, es)
      ensures es == if k == 0 then Contents else Contents[k - 1 := Entry(key, wave, 1)]
    {
      hide Distinct;
      ica.count := 1;
      ica.wave := wave;
      ica.samples := |wave|;
      ica.str := key;
      es := if k == 0 then Contents else Contents[k - 1 := Entry(key, wave, 1)];
    }

    /** The tail of ivona_store_wave_in_cache: the slot takes the wave and goes to the head end. */
    method Fill(ica: Slot, ghost k: nat, key: string, wave: seq<int>)
      requires Distinct() && used <= SIZE && Linked(chain) && Inner(chain) && Sentinels() && Holds(chain, Contents)
      requires k < |chain| - 1 && |chain| == if k == 0 then used + 1 else used + 2
      requires ica in icas && ica !in icas[used..] && |wave| > 0 && |key| <= MAX_STRLEN
      requires if k == 0 then ica !in chain && ica.succ == null && ica.pred == null else chain[k] == ica
      modifies this`chain, this`Contents, Repr
      ensures Valid()
      ensures Contents == (if k == 0 then old(Contents) else Remove(old(Contents), k - 1)) + [Entry(key, wave, 1)]
    {
      assert |Contents| == |chain| - 2 && ica in Repr && ica != head && ica != tail;
      hide Inner, Holds, Filled;
      ghost var es := SetWave(ica, k, key, wave);
      MoveFilled(ica, k, es);
    }
  }
}
