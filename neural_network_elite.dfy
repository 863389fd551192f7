/**
 * The elite list: a bounded list of (network, goodness) pairs kept in
 * descending goodness order. The C code keeps a circular doubly-linked list
 * whose head is the best entry; here the cycle is a sequence read from the
 * head, so `entries[0]` is the head and `entries[|entries| - 1]` is
 * `head->prev`, the worst entry. Networks are opaque values of type `N`,
 * compared by identity as the C code compares pointers.
 */
module Elite {
  import opened Oracle

  datatype Entry<N> = Entry(nn: N, goodness: real)

  /** Descending goodness from head to tail. */
  predicate Sorted<N>(es: seq<Entry<N>>) {
    forall i, j :: 0 <= i < j < |es| ==> es[i].goodness >= es[j].goodness
  }

  /** The most entries `nn_elites_add` leaves: `max_len`, but never below the first entry. */
  function Cap(maxLen: int): int {
    if maxLen < 1 then 1 else maxLen
  }

  // ---------------------------------------------------------------------
  // Insertion and eviction
  // ---------------------------------------------------------------------

  /**
   * Where the scan from the head stops: the first entry strictly worse than
   * `g`, or the end of the list (the scan wrapped round to the head).
   */
  function InsertionPoint<N>(es: seq<Entry<N>>, g: real): (p: nat)
    ensures p <= |es|
    ensures forall k :: 0 <= k < p ==> es[k].goodness >= g
    ensures p < |es| ==> es[p].goodness < g
  {
    if es == [] || es[0].goodness < g then 0
    else 1 + InsertionPoint(es[1..], g)
  }

  /** The list with `e` linked in just before the entry the scan stopped at. */
  function Inserted<N>(es: seq<Entry<N>>, e: Entry<N>): seq<Entry<N>> {
    var p := InsertionPoint(es, e.goodness);
    es[..p] + [e] + es[p..]
  }

  /** `nn_elites_add` on the sequence: the first entry is kept unconditionally; otherwise insert, then drop the tail when over `max_len`. */
  function Added<N>(maxLen: int, es: seq<Entry<N>>, e: Entry<N>): seq<Entry<N>> {
    if es == [] then [e]
    else
      var t := Inserted(es, e);
      if maxLen < |t| then t[..|t| - 1] else t
  }

  /** The entry an over-full insertion drops: the tail of the list after inserting. */
  function Evicted<N>(es: seq<Entry<N>>, e: Entry<N>): Entry<N> {
    var t := Inserted(es, e);
    t[|t| - 1]
  }

  /** Entry k of the inserted list: the old entries before the insertion point, `e` at it, the rest shifted by one. */
  lemma InsertedAt<N>(es: seq<Entry<N>>, e: Entry<N>)
    ensures var p := InsertionPoint(es, e.goodness);
            var t := Inserted(es, e);
            && |t| == |es| + 1 && t[p] == e
            && (forall k :: 0 <= k < p ==> t[k] == es[k])
            && (forall k :: p < k < |t| ==> t[k] == es[k - 1])
  {
  }

  /** Inserting keeps the list descending. */
  lemma InsertedSorted<N>(es: seq<Entry<N>>, e: Entry<N>)
    requires Sorted(es)
    ensures Sorted(Inserted(es, e))
    ensures multiset(Inserted(es, e)) == multiset(es) + multiset{e}
  {
    InsertedSortedOrder(es, e);
    var p := InsertionPoint(es, e.goodness);
    assert es == es[..p] + es[p..];
  }

  /** The ordering half of `InsertedSorted`. */
  lemma InsertedSortedOrder<N>(es: seq<Entry<N>>, e: Entry<N>)
    requires Sorted(es)
    ensures Sorted(Inserted(es, e))
  {
    var p := InsertionPoint(es, e.goodness);
    var t := Inserted(es, e);
    InsertedAt(es, e);
    forall i, j | 0 <= i < j < |t|
      ensures t[i].goodness >= t[j].goodness
    {
      if p < i {
        assert es[i - 1].goodness >= es[j - 1].goodness;
      } else if i == p && p < j {
        assert es[p].goodness >= es[j - 1].goodness;
      } else if j <= p {
        assert i < p;
      } else {
        assert es[i].goodness >= es[j - 1].goodness;
      }
    }
  }

  /** Ties land after the equal entries: everything ahead of `e` is at least as good, everything behind strictly worse. */
  lemma AddedAfterTies<N>(maxLen: int, es: seq<Entry<N>>, e: Entry<N>)
    requires Sorted(es)
    ensures var p := InsertionPoint(es, e.goodness);
            && (forall k :: 0 <= k < p ==> es[k].goodness >= e.goodness)
            && (forall k :: p <= k < |es| ==> es[k].goodness < e.goodness)
            && (p < |Added(maxLen, es, e)| ==> Added(maxLen, es, e)[p] == e)
  {
    var p := InsertionPoint(es, e.goodness);
    forall k | p <= k < |es|
      ensures es[k].goodness < e.goodness
    {
      assert es[p].goodness >= es[k].goodness;
    }
    if es != [] {
      var t := Inserted(es, e);
      assert t[p] == e;
    }
  }

  /** `nn_elites_add` keeps the list descending. */
  lemma AddedSorted<N>(maxLen: int, es: seq<Entry<N>>, e: Entry<N>)
    requires Sorted(es)
    ensures Sorted(Added(maxLen, es, e))
  {
    if es != [] {
      InsertedSorted(es, e);
    }
  }

  /** The head changes exactly when the new goodness beats the old head's. */
  lemma AddedHead<N>(maxLen: int, es: seq<Entry<N>>, e: Entry<N>)
    requires es != []
    ensures es[0].goodness < e.goodness ==> Added(maxLen, es, e)[0] == e
    ensures es[0].goodness >= e.goodness ==> Added(maxLen, es, e)[0] == es[0]
  {
    var t := Inserted(es, e);
    assert |t| == |es| + 1;
    if es[0].goodness < e.goodness {
      assert InsertionPoint(es, e.goodness) == 0;
      assert t[0] == e;
    } else {
      assert InsertionPoint(es, e.goodness) >= 1;
      assert t[0] == es[0];
    }
  }

  /** Adding never takes the list past its capacity. */
  lemma AddedBounded<N>(maxLen: int, es: seq<Entry<N>>, e: Entry<N>)
    requires |es| <= Cap(maxLen)
    ensures 1 <= |Added(maxLen, es, e)| <= Cap(maxLen)
    ensures |Added(maxLen, es, e)| == if |es| < Cap(maxLen) then |es| + 1 else |es|
  {
  }

  /**
   * Eviction: when the insertion overfills the list, exactly one entry goes,
   * it is no better than any entry that stays, and the rest keep their order.
   */
  lemma AddedEvictsWorst<N>(maxLen: int, es: seq<Entry<N>>, e: Entry<N>)
    requires Sorted(es) && es != [] && maxLen < |es| + 1
    ensures var r := Added(maxLen, es, e);
            var w := Evicted(es, e);
            && multiset(r) + multiset{w} == multiset(es) + multiset{e}
            && (forall k :: 0 <= k < |r| ==> r[k].goodness >= w.goodness)
            && r + [w] == Inserted(es, e)
  {
    var t := Inserted(es, e);
    InsertedSorted(es, e);
    assert t == t[..|t| - 1] + [t[|t| - 1]];
  }

  /** Without overflow, nothing is dropped. */
  lemma AddedKeepsAll<N>(maxLen: int, es: seq<Entry<N>>, e: Entry<N>)
    requires |es| + 1 <= maxLen || es == []
    ensures multiset(Added(maxLen, es, e)) == multiset(es) + multiset{e}
  {
    if es != [] {
      var p := InsertionPoint(es, e.goodness);
      assert es == es[..p] + es[p..];
    }
  }

  /** An entry no better than the tail goes on the end. */
  lemma AddedAtTail<N>(maxLen: int, es: seq<Entry<N>>, e: Entry<N>)
    requires Sorted(es) && |es| < Cap(maxLen)
    requires es != [] ==> es[|es| - 1].goodness >= e.goodness
    ensures Added(maxLen, es, e) == es + [e]
  {
    if es != [] {
      var p := InsertionPoint(es, e.goodness);
      assert p == |es|;
      assert es[..p] == es;
    }
  }

  // ---------------------------------------------------------------------
  // A run of additions, as `nn_elites_loadf` performs them
  // ---------------------------------------------------------------------

  /** Adding `rs` in order, starting from `es`. */
  function AddAll<N>(maxLen: int, es: seq<Entry<N>>, rs: seq<Entry<N>>): seq<Entry<N>>
    decreases |rs|
  {
    if rs == [] then es
    else Added(maxLen, AddAll(maxLen, es, rs[..|rs| - 1]), rs[|rs| - 1])
  }

  /** A run of additions keeps the list descending. */
  lemma {:induction false} AddAllSorted<N>(maxLen: int, es: seq<Entry<N>>, rs: seq<Entry<N>>)
    requires Sorted(es)
    ensures Sorted(AddAll(maxLen, es, rs))
    decreases |rs|
  {
    if rs != [] {
      AddAllSorted(maxLen, es, rs[..|rs| - 1]);
      AddedSorted(maxLen, AddAll(maxLen, es, rs[..|rs| - 1]), rs[|rs| - 1]);
    }
  }

  /** Re-adding a descending list within capacity, head first, into an empty list rebuilds it. */
  lemma {:induction false} AddAllRebuilds<N>(maxLen: int, es: seq<Entry<N>>, k: nat)
    requires Sorted(es) && |es| <= Cap(maxLen) && k <= |es|
    ensures AddAll(maxLen, [], es[..k]) == es[..k]
  {
    if k > 0 {
      AddAllRebuilds(maxLen, es, k - 1);
      assert es[..k][..k - 1] == es[..k - 1];
      assert es[..k][k - 1] == es[k - 1];
      assert es[..k - 1] + [es[k - 1]] == es[..k];
      if k > 1 {
        assert es[k - 2].goodness >= es[k - 1].goodness;
      }
      AddedAtTail(maxLen, es[..k - 1], es[k - 1]);
    }
  }

  // ---------------------------------------------------------------------
  // The elite file
  // ---------------------------------------------------------------------

  /** One record of an elite file: an `int`, a saved network, or a goodness. */
  datatype Record<N> = Num(n: int) | Net(nn: N) | Good(g: real)

  function Pairs<N>(es: seq<Entry<N>>): seq<Record<N>>
    decreases |es|
  {
    if es == [] then []
    else Pairs(es[..|es| - 1]) + [Net(es[|es| - 1].nn), Good(es[|es| - 1].goodness)]
  }

  /** What `nn_elites_savef` writes: `max_len`, the count, then each network and its goodness from head to tail. */
  function EliteEncode<N>(maxLen: int, es: seq<Entry<N>>): seq<Record<N>> {
    [Num(maxLen), Num(|es|)] + Pairs(es)
  }

  /** The first `n` (network, goodness) pairs from `at`; None on a short read. */
  function PairsAt<N>(s: seq<Record<N>>, at: nat, n: nat): (r: Option<seq<Entry<N>>>)
    ensures r.Some? ==> |r.value| == n && (n > 0 ==> at + 2 * n <= |s|)
    decreases n
  {
    if n == 0 then Some([])
    else
      var q := at + 2 * (n - 1);
      var r := PairsAt(s, at, n - 1);
      if r.None? || !(q + 1 < |s| && s[q].Net? && s[q + 1].Good?) then None
      else Some(r.value + [Entry(s[q].nn, s[q + 1].g)])
  }

  /** The whole (network, goodness) pairs among the first `n` from `at`, up to the first one that is short. */
  function ReadablePairs<N>(s: seq<Record<N>>, at: nat, n: nat): (r: seq<Entry<N>>)
    ensures |r| <= n
    decreases n
  {
    if n == 0 then []
    else
      var q := at + 2 * (n - 1);
      var r := ReadablePairs(s, at, n - 1);
      if |r| == n - 1 && q + 1 < |s| && s[q].Net? && s[q + 1].Good? then r + [Entry(s[q].nn, s[q + 1].g)]
      else r
  }

  /** The pairs read before a failure are the readable ones, and all `n` of them exactly when the read succeeds. */
  lemma {:induction false} ReadablePairsAgree<N>(s: seq<Record<N>>, at: nat, n: nat)
    ensures PairsAt(s, at, n).Some? <==> |ReadablePairs(s, at, n)| == n
    ensures PairsAt(s, at, n).Some? ==> PairsAt(s, at, n).value == ReadablePairs(s, at, n)
    decreases n
  {
    if n > 0 {
      ReadablePairsAgree(s, at, n - 1);
    }
  }

  /** Once pair `i` is short, no later pair is read. */
  lemma {:induction false} ReadablePairsStop<N>(s: seq<Record<N>>, at: nat, i: nat, n: nat)
    requires i < n && |ReadablePairs(s, at, i)| == i
    requires !(at + 2 * i + 1 < |s| && s[at + 2 * i].Net? && s[at + 2 * i + 1].Good?)
    ensures ReadablePairs(s, at, n) == ReadablePairs(s, at, i)
    decreases n
  {
    if n - 1 > i {
      ReadablePairsStop(s, at, i, n - 1);
    }
  }

  /** How many times `for (i = 0; i < cnt; i++)` runs. */
  function Count(cnt: int): nat {
    if cnt < 0 then 0 else cnt
  }

  /** What `nn_elites_loadf` reads from `at`: `max_len`, the entries, and the position after them. */
  function EliteDecode<N>(s: seq<Record<N>>, at: nat): Option<(int, seq<Entry<N>>, nat)> {
    if !(at + 1 < |s| && s[at].Num? && s[at + 1].Num?) then None
    else
      var n := Count(s[at + 1].n);
      var r := PairsAt(s, at + 2, n);
      if r.None? then None else Some((s[at].n, r.value, at + 2 + 2 * n))
  }

  lemma {:induction false} PairsRead<N>(pre: seq<Record<N>>, es: seq<Entry<N>>, post: seq<Record<N>>, k: nat)
    requires k <= |es|
    ensures PairsAt(pre + Pairs(es) + post, |pre|, k) == Some(es[..k])
  {
    var s := pre + Pairs(es) + post;
    if k > 0 {
      PairsRead(pre, es, post, k - 1);
      PairsPrefix(es, k);
      var q := |pre| + 2 * (k - 1);
      assert |Pairs(es[..k])| == 2 * k;
      assert s[q] == Pairs(es[..k])[2 * (k - 1)] == Net(es[k - 1].nn);
      assert s[q + 1] == Pairs(es[..k])[2 * (k - 1) + 1] == Good(es[k - 1].goodness);
      assert es[..k - 1] + [es[k - 1]] == es[..k];
    }
  }

  /** The records of the first `k` entries head the records of the whole list. */
  lemma {:induction false} PairsPrefix<N>(es: seq<Entry<N>>, k: nat)
    requires k <= |es|
    ensures |Pairs(es)| == 2 * |es|
    ensures Pairs(es)[..2 * k] == Pairs(es[..k])
    decreases |es|
  {
    if es != [] {
      var init := es[..|es| - 1];
      PairsPrefix(init, if k < |es| then k else |es| - 1);
      if k < |es| {
        assert init[..k] == es[..k];
      } else {
        assert es[..k] == es;
      }
    }
  }

  /** Save then load: the file holds exactly `max_len` and the entries, whatever surrounds it. */
  lemma EliteDecodeEncode<N>(maxLen: int, es: seq<Entry<N>>, pre: seq<Record<N>>, post: seq<Record<N>>)
    ensures EliteDecode(pre + EliteEncode(maxLen, es) + post, |pre|)
            == Some((maxLen, es, |pre| + |EliteEncode(maxLen, es)|))
  {
    var s := pre + EliteEncode(maxLen, es) + post;
    PairsPrefix(es, |es|);
    assert s == (pre + [Num(maxLen), Num(|es|)]) + Pairs(es) + post;
    PairsRead(pre + [Num(maxLen), Num(|es|)], es, post, |es|);
    assert es[..|es|] == es;
  }

  /**
   * Saving a well-formed list and loading the file into an empty list gives
   * back the same entries in the same order, and the same `max_len`.
   */
  lemma SaveThenLoad<N>(maxLen: int, es: seq<Entry<N>>, pre: seq<Record<N>>, post: seq<Record<N>>)
    requires Sorted(es) && |es| <= Cap(maxLen)
    ensures var d := EliteDecode(pre + EliteEncode(maxLen, es) + post, |pre|);
            d.Some? && d.value.0 == maxLen && AddAll(d.value.0, [], d.value.1) == es
  {
    EliteDecodeEncode(maxLen, es, pre, post);
    AddAllRebuilds(maxLen, es, |es|);
    assert es[..|es|] == es;
  }

  // ---------------------------------------------------------------------
  // The list object
  // ---------------------------------------------------------------------

  /** `NNEliteList`: the capacity and the cycle of entries read from the head. */
  class EliteList<N(==)> {
    var maxLen: int
    var entries: seq<Entry<N>>

    ghost predicate Valid()
      reads this
    {
      Sorted(entries)
    }

    /** `nn_elites_init_list`. */
    constructor Init(maxLen: int)
      ensures Valid() && this.maxLen == maxLen && entries == []
    {
      this.maxLen := maxLen;
      entries := [];
    }

    /** `nn_elites_get_count`: walks the cycle once from the head. */
    method GetCount() returns (cnt: int)
      ensures cnt == |entries|
    {
      if entries == [] {
        return 0;
      }
      cnt := 0;
      var el := 0;
      while true
        invariant 0 <= el < |entries| && cnt == el
        decreases |entries| - el
      {
        cnt := cnt + 1;
        el := (el + 1) % |entries|;
        if el == 0 {
          break;
        }
      }
    }

    /** `nn_elites_add`. */
    method Add(nn: N, goodness: real)
      requires Valid()
      modifies this`entries
      ensures Valid()
      ensures entries == Added(maxLen, old(entries), Entry(nn, goodness))
    {
      var node := Entry(nn, goodness);
      AddedSorted(maxLen, entries, node);
      if entries == [] {
        entries := [node];
        return;
      }
      var ptr := 0;
      while ptr < |entries| && !(entries[ptr].goodness < goodness)
        invariant 0 <= ptr <= |entries|
        invariant forall k :: 0 <= k < ptr ==> entries[k].goodness >= goodness
      {
        ptr := ptr + 1;
      }
      assert ptr == InsertionPoint(entries, goodness);
      entries := entries[..ptr] + [node] + entries[ptr..];
      var cnt := GetCount();
      if maxLen < cnt {
        entries := entries[..cnt - 1];
      }
    }

    /** `nn_elites_clear`: afterwards the list is empty. */
    method Clear()
      modifies this`entries
      ensures Valid() && entries == []
    {
      var cnt := GetCount();
      if cnt == 0 {
        return;
      }
      entries := [];
    }

    /** `nn_elites_get_best`: NULL when empty, otherwise the head's network, which is among the best. */
    method GetBest() returns (r: Option<N>)
      requires Valid()
      ensures r.None? <==> entries == []
      ensures r.Some? ==> r.value == entries[0].nn
                          && forall k :: 0 <= k < |entries| ==> entries[0].goodness >= entries[k].goodness
    {
      if entries == [] {
        return None;
      }
      r := Some(entries[0].nn);
    }

    /**
     * `nn_elites_pick_by_random`: draws `rand() % count` until the drawn
     * entry's network is not `dontPick`, so every earlier draw fell on it;
     * a one-entry list returns after the first draw. The loop ends only if
     * the stream holds such a draw: `hit` is the position of one.
     */
    method PickByRandom(dontPick: N, rng: CRand, ghost hit: nat) returns (r: Option<N>)
      requires |entries| > 1 ==> rng.pos <= hit && entries[rng.stream(hit) % |entries|].nn != dontPick
      modifies rng`pos
      ensures r.None? <==> entries == []
      ensures entries == [] ==> rng.pos == old(rng.pos)
      ensures r.Some? ==> old(rng.pos) < rng.pos && r.value == entries[rng.stream(rng.pos - 1) % |entries|].nn
      ensures |entries| == 1 ==> r == Some(entries[0].nn) && rng.pos == old(rng.pos) + 1
      ensures |entries| > 1 ==> r.Some? && r.value != dontPick && rng.pos <= hit + 1
      ensures |entries| > 1 ==>
                forall t :: old(rng.pos) <= t < rng.pos - 1 ==> entries[rng.stream(t) % |entries|].nn == dontPick
    {
      var cnt := GetCount();
      if cnt == 0 {
        return None;
      }
      var i := 0;
      while true
        invariant rng.pos >= old(rng.pos) && 0 <= i < cnt
        invariant cnt == 1 ==> rng.pos == old(rng.pos)
        invariant cnt > 1 ==> rng.pos <= hit
        invariant cnt > 1 ==> forall t :: old(rng.pos) <= t < rng.pos ==> entries[rng.stream(t) % cnt].nn == dontPick
        decreases if cnt > 1 then hit - rng.pos else 0
      {
        var x := rng.Next();
        i := x % cnt;
        if cnt == 1 || entries[i].nn != dontPick {
          break;
        }
      }
      r := Some(entries[i].nn);
    }

    /** `nn_elites_savef`. The C code walks the cycle from the head, so it needs a non-empty list. */
    method SaveF(f: Stream<Record<N>>) returns (ret: int)
      requires entries != [] && f.Valid()
      modifies f`items
      ensures f.Valid() && f.items == old(f.items) + EliteEncode(maxLen, entries)
      ensures ret == 0
    {
      ghost var s0 := f.items;
      f.Write(Num(maxLen));
      var cnt := GetCount();
      f.Write(Num(cnt));
      var el := 0;
      while el < cnt
        invariant 0 <= el <= cnt && f.Valid()
        invariant f.items == s0 + [Num(maxLen), Num(cnt)] + Pairs(entries[..el])
      {
        assert entries[..el + 1][..el] == entries[..el];
        f.Write(Net(entries[el].nn));
        f.Write(Good(entries[el].goodness));
        el := el + 1;
      }
      assert entries[..el] == entries;
      ret := 0;
    }

    /**
     * `nn_elites_loadf`: reads `max_len` into the list, then each entry and
     * adds it. On success the list is what adding the file's entries to the
     * old list gives; -1 on any short read, with `max_len` overwritten once
     * read and the whole entries read so far kept.
     */
    method LoadF(f: Stream<Record<N>>) returns (ret: int)
      requires Valid() && f.Valid()
      modifies this, f`pos
      ensures Valid() && f.Valid()
      ensures ret == 0 <==> EliteDecode(f.items, old(f.pos)).Some?
      ensures ret != 0 ==> ret == -1
      ensures ret == 0 ==>
                var d := EliteDecode(f.items, old(f.pos)).value;
                && maxLen == d.0 && f.pos == d.2
                && entries == AddAll(d.0, old(entries), d.1)
      ensures ret == -1 ==>
                var s, at := f.items, old(f.pos);
                if !(at < |s| && s[at].Num?) then maxLen == old(maxLen) && entries == old(entries)
                else if !(at + 1 < |s| && s[at + 1].Num?) then maxLen == s[at].n && entries == old(entries)
                else maxLen == s[at].n && entries == AddAll(maxLen, old(entries), ReadablePairs(s, at + 2, Count(s[at + 1].n)))
    {
      ghost var s := f.items;
      ghost var at := f.pos;
      var x := f.Read();
      if x.None? || !x.value.Num? {
        return -1;
      }
      maxLen := x.value.n;
      var y := f.Read();
      if y.None? || !y.value.Num? {
        return -1;
      }
      var ok := LoadEntries(f, y.value.n);
      if !ok {
        return -1;
      }
      ReadablePairsAgree(s, at + 2, Count(y.value.n));
      EliteDecodeOf(s, at, PairsAt(s, at + 2, Count(y.value.n)).value);
      ret := 0;
    }

    /** The loop of `nn_elites_loadf`: `cnt` entries read and added one by one; false on a short read. */
    method LoadEntries(f: Stream<Record<N>>, cnt: int) returns (ok: bool)
      requires Valid() && f.Valid()
      modifies this`entries, f`pos
      ensures Valid() && f.Valid()
      ensures ok <==> PairsAt(f.items, old(f.pos), Count(cnt)).Some?
      ensures ok ==> f.pos == old(f.pos) + 2 * Count(cnt)
      ensures entries == AddAll(maxLen, old(entries), ReadablePairs(f.items, old(f.pos), Count(cnt)))
    {
      ghost var s := f.items;
      ghost var at := f.pos;
      ghost var e0 := entries;
      ghost var got: seq<Entry<N>> := [];
      var i := 0;
      assert Loading(s, at, 0, got, maxLen, e0, entries);
      while i < cnt
        invariant 0 <= i <= Count(cnt)
        invariant f.Valid() && f.items == s && f.pos == at + 2 * i
        invariant Valid()
        invariant Loading(s, at, i, got, maxLen, e0, entries)
      {
        var e := ReadPair(f);
        if e.None? {
          LoadStops(s, at, i, Count(cnt), got, maxLen, e0, entries);
          return false;
        }
        LoadStep(s, at, i, got, maxLen, e0, entries);
        Add(e.value.nn, e.value.goodness);
        got := got + [e.value];
        i := i + 1;
      }
      ReadAll(s, at, i, got, maxLen, e0, entries);
      return true;
    }
  }

  /** The two reads of one entry in `nn_elites_loadf`: `nn_loadf`, then the goodness. */
  method ReadPair<N>(f: Stream<Record<N>>) returns (r: Option<Entry<N>>)
    requires f.Valid()
    modifies f`pos
    ensures f.Valid()
    ensures var p := old(f.pos);
            r.Some? <==> p + 1 < |f.items| && f.items[p].Net? && f.items[p + 1].Good?
    ensures r.Some? ==> r.value == Entry(f.items[old(f.pos)].nn, f.items[old(f.pos) + 1].g)
                        && f.pos == old(f.pos) + 2
  {
    var a := f.Read();
    if a.None? || !a.value.Net? {
      return None;
    }
    var b := f.Read();
    if b.None? || !b.value.Good? {
      return None;
    }
    r := Some(Entry(a.value.nn, b.value.g));
  }

  lemma EliteDecodeOf<N>(s: seq<Record<N>>, at: nat, got: seq<Entry<N>>)
    requires at + 1 < |s| && s[at].Num? && s[at + 1].Num?
    requires PairsAt(s, at + 2, Count(s[at + 1].n)) == Some(got)
    ensures EliteDecode(s, at) == Some((s[at].n, got, at + 2 + 2 * |got|))
  {
  }

  /** The first `i` pairs from `at` are whole, and they are `got`. */
  ghost predicate ReadSoFar<N>(s: seq<Record<N>>, at: nat, i: nat, got: seq<Entry<N>>) {
    PairsAt(s, at, i) == Some(got) && ReadablePairs(s, at, i) == got
  }

  /** The load loop after `i` pairs: they were read as `got`, and the list `es` is `e0` with them added. */
  ghost predicate Loading<N>(s: seq<Record<N>>, at: nat, i: nat, got: seq<Entry<N>>, maxLen: int,
                             e0: seq<Entry<N>>, es: seq<Entry<N>>) {
    ReadSoFar(s, at, i, got) && es == AddAll(maxLen, e0, got)
  }

  /** All `i` pairs read: the read succeeds, and the list holds every pair added. */
  lemma ReadAll<N>(s: seq<Record<N>>, at: nat, i: nat, got: seq<Entry<N>>, maxLen: int,
                   e0: seq<Entry<N>>, es: seq<Entry<N>>)
    requires Loading(s, at, i, got, maxLen, e0, es)
    ensures PairsAt(s, at, i).Some? && es == AddAll(maxLen, e0, ReadablePairs(s, at, i))
  {
  }

  /** One more whole pair: read, readable, and added after the others. */
  lemma LoadStep<N>(s: seq<Record<N>>, at: nat, i: nat, got: seq<Entry<N>>, maxLen: int,
                    e0: seq<Entry<N>>, es: seq<Entry<N>>)
    requires Loading(s, at, i, got, maxLen, e0, es)
    requires at + 2 * i + 1 < |s| && s[at + 2 * i].Net? && s[at + 2 * i + 1].Good?
    ensures var e := Entry(s[at + 2 * i].nn, s[at + 2 * i + 1].g);
            Loading(s, at, i + 1, got + [e], maxLen, e0, Added(maxLen, es, e))
  {
    PairsAtStep(s, at, i, got);
    AddAllStep(maxLen, e0, got, Entry(s[at + 2 * i].nn, s[at + 2 * i + 1].g));
  }

  /** A short pair `i < n` fails the read of `n` pairs, and the list holds the pairs before it. */
  lemma LoadStops<N>(s: seq<Record<N>>, at: nat, i: nat, n: nat, got: seq<Entry<N>>, maxLen: int,
                     e0: seq<Entry<N>>, es: seq<Entry<N>>)
    requires i < n && Loading(s, at, i, got, maxLen, e0, es)
    requires !(at + 2 * i + 1 < |s| && s[at + 2 * i].Net? && s[at + 2 * i + 1].Good?)
    ensures PairsAt(s, at, n).None? && es == AddAll(maxLen, e0, ReadablePairs(s, at, n))
  {
    PairsAtShort(s, at, i, n);
    ReadablePairsStop(s, at, i, n);
  }

  lemma PairsAtStep<N>(s: seq<Record<N>>, at: nat, i: nat, got: seq<Entry<N>>)
    requires PairsAt(s, at, i) == Some(got)
    requires at + 2 * i + 1 < |s| && s[at + 2 * i].Net? && s[at + 2 * i + 1].Good?
    ensures PairsAt(s, at, i + 1) == Some(got + [Entry(s[at + 2 * i].nn, s[at + 2 * i + 1].g)])
  {
  }

  lemma AddAllStep<N>(maxLen: int, es: seq<Entry<N>>, rs: seq<Entry<N>>, e: Entry<N>)
    ensures AddAll(maxLen, es, rs + [e]) == Added(maxLen, AddAll(maxLen, es, rs), e)
  {
    assert (rs + [e])[..|rs|] == rs;
  }

  /** A pair that cannot be read at index `i` makes every longer read short. */
  lemma {:induction false} PairsAtShort<N>(s: seq<Record<N>>, at: nat, i: nat, n: nat)
    requires i < n
    requires !(at + 2 * i + 1 < |s| && s[at + 2 * i].Net? && s[at + 2 * i + 1].Good?)
    ensures PairsAt(s, at, n).None?
    decreases n
  {
    if n - 1 > i {
      PairsAtShort(s, at, i, n - 1);
    }
  }
}
