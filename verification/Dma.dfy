/** carlfw dma.c: queues of packets shared with the hardware.  A packet is a
    chain of descriptors; a queue is a chain of packets that ends in a
    terminator, where the hardware waits.  A packet is appended by copying its
    first descriptor over the terminator, so that the place where the hardware
    waits becomes the packet, and its own first descriptor the terminator. */
module Dma {
  const SW: nat := 0
  const HW: nat := 1
  const BLOCK_SIZE: nat := 320

  /** struct dma_desc, with the owner bits of its status on their own. */
  class Desc {
    var own: nat
    var ctrl: nat
    var dataSize: nat
    var totalLen: nat
    var lastAddr: Desc?
    var dataAddr: nat
    var nextAddr: Desc?

    constructor ()
      ensures own == SW && fresh(this)
    {
      own, ctrl, dataSize, totalLen, dataAddr := SW, 0, 0, 0, 0;
      lastAddr, nextAddr := null, null;
    }

    /** clear_descriptor */
    method Clear()
      modifies this
      ensures own == SW && ctrl == 0 && dataSize == 0 && totalLen == 0 && dataAddr == 0
      ensures lastAddr == this && nextAddr == this
    {
      own, ctrl, dataSize, totalLen, dataAddr := SW, 0, 0, 0, 0;
      lastAddr, nextAddr := this, this;
    }

    /** fill_descriptor */
    method Fill(size: nat, data: nat)
      modifies this
      ensures own == SW && ctrl == 0 && dataSize == size && totalLen == 0 && dataAddr == data
      ensures lastAddr == this && nextAddr == null
    {
      own, ctrl, dataSize, totalLen, dataAddr := SW, 0, size, 0, data;
      lastAddr, nextAddr := this, null;
    }
  }

  ghost predicate Distinct(c: seq<Desc>) {
    forall i, j :: 0 <= i < j < |c| ==> c[i] != c[j]
  }

  /** The buffers of all packets, in order. */
  function Flat(cc: seq<seq<nat>>): seq<nat> {
    if |cc| == 0 then [] else Flat(cc[..|cc| - 1]) + cc[|cc| - 1]
  }

  /** Where packet k begins. */
  function Offset(cc: seq<seq<nat>>, k: nat): nat
    requires k <= |cc|
  {
    |Flat(cc[..k])|
  }

  lemma {:induction false} FlatConcat(cc: seq<seq<nat>>, dd: seq<seq<nat>>)
    ensures Flat(cc + dd) == Flat(cc) + Flat(dd)
  {
    if |dd| == 0 {
      assert cc + dd == cc;
    } else {
      FlatConcat(cc, dd[..|dd| - 1]);
      assert (cc + dd)[..|cc + dd| - 1] == cc + dd[..|dd| - 1];
    }
  }

  lemma FlatOne(c: seq<nat>)
    ensures Flat([c]) == c
  {
    assert [c][..0] == [];
  }

  lemma OffsetZero(cc: seq<seq<nat>>)
    ensures Offset(cc, 0) == 0
  {
  }

  lemma OffsetNext(cc: seq<seq<nat>>, k: nat)
    requires k < |cc|
    ensures Offset(cc, k + 1) == Offset(cc, k) + |cc[k]|
  {
    assert cc[..k + 1][..k] == cc[..k];
  }

  /** Offsets after a packet has been taken from the front. */
  lemma OffsetRest(cc: seq<seq<nat>>, k: nat)
    requires |cc| > 0 && k < |cc|
    ensures Offset(cc, k + 1) == |cc[0]| + Offset(cc[1..], k)
  {
    FlatConcat([cc[0]], cc[1..][..k]);
    FlatOne(cc[0]);
    assert cc[..k + 1] == [cc[0]] + cc[1..][..k];
  }

  /** Each buffer as a packet of its own. */
  function Singles(c: seq<nat>): (cc: seq<seq<nat>>)
    ensures |cc| == |c| && forall i :: 0 <= i < |c| ==> cc[i] == [c[i]]
  {
    seq(|c|, i requires 0 <= i < |c| => [c[i]])
  }

  lemma {:induction false} FlatSingles(c: seq<nat>)
    ensures Flat(Singles(c)) == c
  {
    if |c| > 0 {
      FlatSingles(c[..|c| - 1]);
      assert Singles(c)[..|c| - 1] == Singles(c[..|c| - 1]);
    }
  }

  /** The chain c goes on to t. */
  ghost predicate LinkedTo(c: seq<Desc>, t: Desc)
    reads c
  {
    forall i {:trigger c[i].nextAddr} :: 0 <= i < |c| ==> c[i].nextAddr == (c + [t])[i + 1]
  }

  ghost predicate Buffers(c: seq<Desc>, bufs: seq<nat>)
    requires |c| >= |bufs|
    reads c
  {
    forall i :: 0 <= i < |bufs| ==> c[i].dataAddr == bufs[i]
  }

  /** A packet that is in no queue: its descriptors are linked, and the first
      knows the last. */
  ghost predicate Loose(p: seq<Desc>, bufs: seq<nat>)
    reads p
  {
    |p| == |bufs| > 0 && Distinct(p) && LinkedTo(p[..|p| - 1], p[|p| - 1]) && p[0].lastAddr == p[|p| - 1]
      && Buffers(p, bufs)
  }

  /** The first descriptor of every packet knows the last. */
  ghost predicate Lasts(c: seq<Desc>, cc: seq<seq<nat>>)
    requires |c| == |Flat(cc)|
    reads c
  {
    forall k :: 0 <= k < |cc| ==> LastAt(c, cc, k)
  }

  ghost predicate LastAt(c: seq<Desc>, cc: seq<seq<nat>>, k: nat)
    requires |c| == |Flat(cc)| && k < |cc|
    reads c
  {
    Offset(cc, k) < Offset(cc, k + 1) <= |c| && c[Offset(cc, k)].lastAddr == c[Offset(cc, k + 1) - 1]
  }

  /** The packets of a chain without the first. */
  lemma LastsRest(c: seq<Desc>, cc: seq<seq<nat>>)
    requires |cc| > 0 && |c| == |Flat(cc)| && Lasts(c, cc)
    ensures 0 < |cc[0]| <= |c| && c[0].lastAddr == c[|cc[0]| - 1]
    ensures Flat(cc) == cc[0] + Flat(cc[1..]) && Lasts(c[|cc[0]|..], cc[1..])
  {
    hide Flat;
    var n := |cc[0]|;
    assert LastAt(c, cc, 0);
    OffsetNext(cc, 0);
    OffsetZero(cc);
    FlatConcat([cc[0]], cc[1..]);
    FlatOne(cc[0]);
    assert [cc[0]] + cc[1..] == cc;
    var d, dd := c[n..], cc[1..];
    forall k | 0 <= k < |dd|
      ensures LastAt(d, dd, k)
    {
      assert LastAt(c, cc, k + 1);
      OffsetRest(cc, k);
      OffsetRest(cc, k + 1);
    }
  }

  /** Two chains of packets one after the other. */
  lemma LastsConcat(c: seq<Desc>, cc: seq<seq<nat>>, d: seq<Desc>, dd: seq<seq<nat>>)
    requires |c| == |Flat(cc)| && |d| == |Flat(dd)| && Lasts(c, cc) && Lasts(d, dd)
    ensures Flat(cc + dd) == Flat(cc) + Flat(dd) && Lasts(c + d, cc + dd)
  {
    FlatConcat(cc, dd);
    forall k | 0 <= k < |cc + dd|
      ensures LastAt(c + d, cc + dd, k)
    {
      if k < |cc| { LastAtLeft(c, cc, d, dd, k); } else { LastAtRight(c, cc, d, dd, k - |cc|); }
    }
  }

  lemma LastAtLeft(c: seq<Desc>, cc: seq<seq<nat>>, d: seq<Desc>, dd: seq<seq<nat>>, k: nat)
    requires |c| == |Flat(cc)| && |d| == |Flat(dd)| && k < |cc| && LastAt(c, cc, k)
    ensures |c + d| == |Flat(cc + dd)| && LastAt(c + d, cc + dd, k)
  {
    hide Flat;
    FlatConcat(cc, dd);
    assert (cc + dd)[..k] == cc[..k] && (cc + dd)[..k + 1] == cc[..k + 1];
  }

  lemma LastAtRight(c: seq<Desc>, cc: seq<seq<nat>>, d: seq<Desc>, dd: seq<seq<nat>>, j: nat)
    requires |c| == |Flat(cc)| && |d| == |Flat(dd)| && j < |dd| && LastAt(d, dd, j)
    ensures |c + d| == |Flat(cc + dd)| && LastAt(c + d, cc + dd, |cc| + j)
  {
    hide Flat;
    FlatConcat(cc, dd);
    FlatConcat(cc, dd[..j]);
    FlatConcat(cc, dd[..j + 1]);
    assert (cc + dd)[..|cc| + j] == cc + dd[..j] && (cc + dd)[..|cc| + j + 1] == cc + dd[..j + 1];
  }

  /** The two parts of a chain. */
  lemma LinkedCut(c: seq<Desc>, t: Desc, k: nat)
    requires k <= |c| && LinkedTo(c, t)
    ensures LinkedTo(c[k..], t)
    ensures k < |c| ==> LinkedTo(c[..k], c[k]) && c[k].nextAddr == (c[k + 1..] + [t])[0]
  {
    var l, r, e := c[..k], c[k..], c + [t];
    forall i | 0 <= i < |r|
      ensures r[i].nextAddr == (r + [t])[i + 1]
    {
      assert c[k + i].nextAddr == e[k + i + 1];
    }
    if k < |c| {
      assert c[k].nextAddr == e[k + 1];
      forall i | 0 <= i < |l|
        ensures l[i].nextAddr == (l + [c[k]])[i + 1]
      {
        assert c[i].nextAddr == e[i + 1];
      }
    }
  }

  lemma DistinctCut(c: seq<Desc>, t: Desc, n: nat)
    requires 0 < n <= |c| && Distinct(c + [t])
    ensures Distinct(c[..n]) && Distinct(c[n..] + [t])
    ensures c[n - 1] !in c[n..] && c[n - 1] != t && c[n - 1] !in c[..n - 1]
  {
    var e := c + [t];
    assert e[|c|] == t && e[..n] == c[..n] && e[n..] == c[n..] + [t];
    assert forall i :: 0 <= i < |c| ==> e[i] == c[i];
  }

  /** A packet cut off the front of a chain. */
  lemma CutOff(c: seq<Desc>, t: Desc, bufs: seq<nat>, n: nat)
    requires 0 < n <= |c| == |bufs| && Distinct(c + [t]) && LinkedTo(c, t) && Buffers(c, bufs)
    ensures Distinct(c[..n]) && Distinct(c[n..] + [t]) && LinkedTo(c[n..], t)
    ensures Buffers(c[..n], bufs[..n]) && Buffers(c[n..], bufs[n..])
    ensures (c + [t])[0] == c[0] && c[n - 1].nextAddr == (c[n..] + [t])[0]
    ensures c[n - 1] !in c[n..] && c[n - 1] != t && c[n - 1] !in c[..n - 1] && LinkedTo(c[..n - 1], c[n - 1])
    ensures c == c[..n] + c[n..] && c[..n][..n - 1] == c[..n - 1]
  {
    hide Distinct, LinkedTo;
    DistinctCut(c, t, n);
    LinkedCut(c, t, n);
    LinkedCut(c, t, n - 1);
  }

  /** Chains joined at t, which ends the first and begins the second. */
  lemma JoinLinks(c: seq<Desc>, t: Desc, q: seq<Desc>, e: Desc)
    requires LinkedTo(c, t) && LinkedTo(q, e) && t.nextAddr == (q + [e])[0]
    ensures LinkedTo(c + [t] + q, e)
  {
    var b := c + [t] + q;
    forall i | 0 <= i < |b|
      ensures b[i].nextAddr == (b + [e])[i + 1]
    {
      if i < |c| { assert c[i].nextAddr == (c + [t])[i + 1]; }
      else if i > |c| { assert q[i - |c| - 1].nextAddr == (q + [e])[i - |c|]; }
    }
  }

  lemma DistinctConcat(c: seq<Desc>, d: seq<Desc>)
    requires Distinct(c) && Distinct(d) && forall x :: x in d ==> x !in c
    ensures Distinct(c + d)
  {
    var w := c + d;
    forall i, j | 0 <= i < j < |w|
      ensures w[i] != w[j]
    {
      if j >= |c| {
        assert w[j] == d[j - |c|] && w[j] in d;
        if i < |c| { assert w[i] == c[i]; } else { assert w[i] == d[i - |c|]; }
      }
    }
  }

  lemma DistinctRotate(e: Desc, q: seq<Desc>)
    requires Distinct([e] + q)
    ensures Distinct(q + [e]) && e !in q
  {
    var r := [e] + q;
    assert forall i :: 0 <= i < |q| ==> r[i + 1] == q[i] && r[0] == e;
  }

  lemma DistinctEnd(c: seq<Desc>, t: Desc)
    requires Distinct(c + [t])
    ensures t !in c
  {
    var w := c + [t];
    assert w[|c|] == t && forall i :: 0 <= i < |c| ==> w[i] == c[i];
  }

  lemma JoinDistinct(c: seq<Desc>, t: Desc, q: seq<Desc>, e: Desc)
    requires Distinct(c + [t]) && Distinct([e] + q) && (forall d :: d in [e] + q ==> d !in c && d != t)
    ensures Distinct(c + [t] + q + [e])
    ensures t !in c && t !in q && e !in c && e !in q && t != e
  {
    hide Distinct;
    DistinctEnd(c, t);
    DistinctRotate(e, q);
    assert e in [e] + q && forall d :: d in q ==> d in [e] + q;
    assert forall d :: d in q + [e] ==> d in [e] + q;
    DistinctConcat(c + [t], q + [e]);
    assert c + [t] + (q + [e]) == c + [t] + q + [e];
  }

  lemma JoinBuffers(c: seq<Desc>, bufs: seq<nat>, q: seq<Desc>, more: seq<nat>)
    requires |c| == |bufs| && |q| == |more| && Buffers(c, bufs) && Buffers(q, more)
    ensures Buffers(c + q, bufs + more)
  {
  }

  twostate predicate Same(d: Desc)
    reads d
  {
    SameData(d) && d.lastAddr == old(d.lastAddr) && d.nextAddr == old(d.nextAddr)
  }

  /** Everything but the links is as it was. */
  twostate predicate SameData(d: Desc)
    reads d
  {
    d.own == old(d.own) && d.ctrl == old(d.ctrl) && d.dataSize == old(d.dataSize) && d.totalLen == old(d.totalLen)
    && d.dataAddr == old(d.dataAddr)
  }

  /** All descriptors of a packet go to the hardware, keep their buffers, and
      know the last one; the first counts its length. */
  method MarkPut(desc: Desc, ghost p: seq<Desc>, ghost bufs: seq<nat>)
    requires Loose(p, bufs) && p[0] == desc
    modifies p
    ensures Chained(p, bufs) && desc.lastAddr == p[|p| - 1]
    ensures forall d :: d in p ==> d.own == HW && d.totalLen == old(desc.totalLen) && d.lastAddr == p[|p| - 1]
    ensures forall d :: d in p ==> d.ctrl == old(d.ctrl) && d.dataSize == old(d.dataSize)
  {
    var t := desc;
    ghost var i, m := 0, |p|;
    ghost var len := desc.totalLen;
    LooseLinks(p, bufs);
    var more := true;
    while more
      invariant i < m && t == p[i] && desc.lastAddr == p[m - 1] && desc.totalLen == len
      invariant forall j :: 0 <= j < m ==> p[j].nextAddr == old(p[j].nextAddr) && p[j].dataAddr == old(p[j].dataAddr)
      invariant forall j :: 0 <= j < m ==> p[j].ctrl == old(p[j].ctrl) && p[j].dataSize == old(p[j].dataSize)
      invariant forall j :: 0 <= j < (if more then i else m) ==>
        p[j].own == HW && p[j].totalLen == len && p[j].lastAddr == p[m - 1]
      decreases more, m - i
    {
      t.totalLen := desc.totalLen;
      t.own := HW;
      t.lastAddr := desc.lastAddr;
      if desc.lastAddr == t {
        more := false;
      } else {
        assert old(p[i].nextAddr) == p[i + 1];
        t := t.nextAddr;
        i := i + 1;
      }
    }
  }

  /** With the hardware, as part of a packet of this length that ends in last. */
  predicate Sent(d: Desc, len: nat, last: Desc)
    reads d
  {
    d.own == HW && d.totalLen == len && d.lastAddr == last
  }

  lemma LooseLater(p: seq<Desc>, bufs: seq<nat>)
    requires Loose(p, bufs)
    ensures forall i :: 0 < i < |p| ==> p[i] != p[0]
  {
  }

  /** Ready to be filled by the hardware, as a packet of its own. */
  predicate Emptied(d: Desc)
    reads d
  {
    d.own == HW && d.totalLen == 0 && d.ctrl == 0 && d.dataSize == BLOCK_SIZE && d.lastAddr == d
  }

  /** All descriptors of a packet go to the hardware, empty and each on its own;
      the last one. */
  method MarkReclaim(desc: Desc, ghost p: seq<Desc>, ghost bufs: seq<nat>) returns (t: Desc)
    requires Loose(p, bufs) && p[0] == desc
    modifies p
    ensures Chained(p, bufs) && t == p[|p| - 1]
    ensures forall i :: 0 <= i < |p| ==> Emptied(p[i])
  {
    t := desc;
    var last := desc.lastAddr;
    ghost var i, m := 0, |p|;
    LooseLinks(p, bufs);
    var more := true;
    while more
      invariant i < m && t == p[i] && last == p[m - 1] && (!more ==> i == m - 1)
      invariant forall j :: 0 <= j < m ==> p[j].nextAddr == old(p[j].nextAddr) && p[j].dataAddr == old(p[j].dataAddr)
      invariant forall j :: 0 <= j < (if more then i else m) ==> Emptied(p[j])
      decreases more, m - i
    {
      t.own, t.ctrl, t.totalLen, t.dataSize := HW, 0, 0, BLOCK_SIZE;
      t.lastAddr := t;
      if t == last {
        more := false;
      } else {
        assert old(p[i].nextAddr) == p[i + 1];
        t := t.nextAddr;
        i := i + 1;
      }
    }
  }

  /** A chain of steps closed back to its first descriptor. */
  lemma Closed(p: seq<Desc>)
    requires |p| > 0 && Steps(p) && p[|p| - 1].nextAddr == p[0]
    ensures LinkedTo(p[1..], p[0]) && p[0].nextAddr == (p[1..] + [p[0]])[0]
  {
    var q, e := p[1..], p[0];
    forall i | 0 <= i < |q|
      ensures q[i].nextAddr == (q + [e])[i + 1]
    {
      assert q[i] == p[i + 1];
      if i + 2 < |p| { assert p[i + 1].nextAddr == p[i + 2]; }
    }
    if |p| > 1 { assert p[0].nextAddr == p[1]; }
  }

  /** Where the packets made of single buffers begin. */
  lemma SinglesOffset(bufs: seq<nat>, k: nat)
    requires k <= |bufs|
    ensures Offset(Singles(bufs), k) == k
  {
    FlatSingles(bufs[..k]);
    assert Singles(bufs)[..k] == Singles(bufs[..k]);
  }

  /** One packet of several descriptors, or one packet for each. */
  lemma LastsOfOne(p: seq<Desc>, t: Desc, bufs: seq<nat>, ls: seq<Desc?>)
    requires |p| == |bufs| == |ls| > 0 && ls[0] == (if |p| == 1 then t else p[|p| - 1])
    ensures Flat([bufs]) == bufs && LastsFor(ls, p, t, [bufs])
  {
    FlatOne(bufs);
    OffsetNext([bufs], 0);
    forall k | 0 <= k < |[bufs]|
      ensures LastForAt(ls, p, t, [bufs], k)
    {
    }
  }

  lemma LastsOfMany(p: seq<Desc>, t: Desc, bufs: seq<nat>, ls: seq<Desc?>)
    requires |p| == |bufs| == |ls| > 0 && ls[0] == t && forall i :: 0 < i < |p| ==> ls[i] == p[i]
    ensures Flat(Singles(bufs)) == bufs && LastsFor(ls, p, t, Singles(bufs))
  {
    FlatSingles(bufs);
    forall k | 0 <= k < |Singles(bufs)|
      ensures LastForAt(ls, p, t, Singles(bufs), k)
    {
      SinglesOffset(bufs, k);
      SinglesOffset(bufs, k + 1);
    }
  }

  /** Linked in order, with these buffers. */
  ghost predicate Chained(p: seq<Desc>, bufs: seq<nat>)
    reads p
  {
    |p| == |bufs| > 0 && Distinct(p) && Buffers(p, bufs) && Steps(p)
  }

  ghost predicate Steps(p: seq<Desc>)
    reads p
  {
    forall i :: 0 <= i < |p| - 1 ==> p[i].nextAddr == p[i + 1]
  }

  lemma LooseLinks(p: seq<Desc>, bufs: seq<nat>)
    requires Loose(p, bufs)
    ensures Chained(p, bufs)
  {
    var l, e := p[..|p| - 1], p[|p| - 1];
    assert l + [e] == p;
    forall i | 0 <= i < |p| - 1
      ensures p[i].nextAddr == p[i + 1]
    {
      assert l[i].nextAddr == (l + [e])[i + 1];
    }
  }

  /** struct dma_queue, with the descriptors before the terminator, and the
      buffers of its packets. */
  class Queue {
    var head: Desc
    var terminator: Desc
    ghost var body: seq<Desc>
    ghost var contents: seq<seq<nat>>

    ghost function Chain(): seq<Desc>
      reads this
    {
      body + [terminator]
    }

    ghost predicate Valid()
      reads this, body, terminator
    {
      && |body| == |Flat(contents)|
      && Distinct(Chain()) && LinkedTo(body, terminator) && Buffers(body, Flat(contents)) && Lasts(body, contents)
      && head == Chain()[0]
      && terminator.own == SW && terminator.lastAddr == terminator && terminator.nextAddr == terminator
    }

    /** init_queue, with a cleared descriptor. */
    constructor (d: Desc)
      requires d.own == SW && d.lastAddr == d && d.nextAddr == d
      ensures Valid() && contents == [] && Chain() == [d]
    {
      head, terminator := d, d;
      body, contents := [], [];
    }

    /** queue_empty */
    predicate Empty()
      reads this
    {
      head == terminator
    }

    lemma EmptyMeans()
      requires Valid()
      ensures Empty() <==> contents == []
    {
      if contents != [] {
        LastsRest(body, contents);
        assert Chain()[0] == body[0] && Chain()[|body|] == terminator;
      }
    }

    /** dma_unlink_head: the oldest packet, or nothing. */
    method UnlinkHead() returns (desc: Desc?, ghost p: seq<Desc>)
      requires Valid()
      modifies this, body
      ensures Valid() && terminator == old(terminator)
      ensures desc == null <==> old(contents) == []
      ensures desc == null ==> body == old(body) && contents == [] && p == []
      ensures desc != null ==>
        && p + body == old(body) && desc == old(head) && |p| > 0 && p[0] == desc
        && [old(contents)[0]] + contents == old(contents) && Loose(p, old(contents)[0])
      ensures forall d :: d in old(body) ==> SameData(d)
    {
      EmptyMeans();
      desc, p := null, [];
      if !Empty() { desc, p := Unlink(); }
    }

    /** The oldest packet leaves the queue; its last descriptor is tied to
        itself. */
    method Unlink() returns (desc: Desc, ghost p: seq<Desc>)
      requires Valid() && contents != []
      modifies this, body
      ensures Valid() && terminator == old(terminator)
      ensures p + body == old(body) && desc == old(head) && |p| > 0 && p[0] == desc
      ensures [old(contents)[0]] + contents == old(contents) && Loose(p, old(contents)[0])
      ensures forall d :: d in old(body) ==> SameData(d)
    {
      hide Lasts, Flat, Distinct, LinkedTo;
      LastsRest(body, contents);
      ghost var n, bufs := |contents[0]|, Flat(contents);
      CutOff(body, terminator, bufs, n);
      assert bufs[..n] == contents[0] && bufs[n..] == Flat(contents[1..]);
      assert [contents[0]] + contents[1..] == contents;
      p := body[..n];
      desc := head;
      var last := desc.lastAddr;
      head := last.nextAddr;
      last.nextAddr := last;
      last.lastAddr := last;
      body, contents := body[n..], contents[1..];
    }

    /** Loose descriptors that follow the terminator, once the first of them has
        changed places with it. */
    ghost predicate Joinable(p: seq<Desc>, bufs: seq<nat>)
      requires Valid()
      reads this, body, terminator, p
    {
      && |p| == |bufs| > 0 && Distinct(p) && Buffers(p, bufs)
      && (forall d :: d in p ==> d !in body && d != terminator)
      && LinkedTo(p[1..], p[0]) && p[0].nextAddr == (p[1..] + [p[0]])[0]
    }

    /** The steps that dma_put and dma_reclaim share: the first descriptor is
        copied over the terminator, cleared, and becomes the terminator; the
        owner bit of the old one is set last. */
    method Exchange(desc: Desc, ghost p: seq<Desc>, ghost bufs: seq<nat>, ghost added: seq<seq<nat>>,
            ghost ls: seq<Desc?>)
      requires Valid() && Joinable(p, bufs) && p[0] == desc && desc.own == HW && Flat(added) == bufs
      requires |ls| == |p| && Know(p, ls) && LastsFor(ls, p, terminator, added)
      modifies this, terminator, desc
      ensures Valid() && head == old(head) && terminator == desc
      ensures contents == old(contents) + added && body == old(body) + [old(terminator)] + p[1..]
      ensures old(terminator).own == HW
      ensures old(terminator).ctrl == old(desc.ctrl) && old(terminator).dataSize == old(desc.dataSize)
      ensures old(terminator).totalLen == old(desc.totalLen) && old(terminator).lastAddr == old(desc.lastAddr)
    {
      hide Lasts, Flat, LinkedTo, Distinct, Buffers, Know, LastsFor;
      ghost var q, t := p[1..], terminator;
      assert [desc] + q == p;
      JoinDistinct(body, t, q, desc);
      SplitFirst(desc, q, bufs, ls);
      Swap(desc);
      SplitFirst(t, q, bufs, ls);
      terminator := desc;
      Joined(body, contents, t, q, desc, p, bufs, added, ls);
      body, contents := body + [t] + q, contents + added;
    }

    /** Changes to other descriptors do not matter. */
    twostate lemma Untouched()
      requires old(Valid()) && head == old(head) && terminator == old(terminator) && body == old(body)
        && contents == old(contents)
      requires Same(terminator) && forall i :: 0 <= i < |body| ==> Same(body[i])
      ensures Valid()
    {
      hide Flat, Distinct;
      assert LinkedTo(body, terminator);
      assert Buffers(body, Flat(contents));
      forall k | 0 <= k < |contents|
        ensures LastAt(body, contents, k)
      {
        assert old(LastAt(body, contents, k));
      }
    }

    /** The last descriptor points to the first, which will be the terminator. */
    method CloseUp(desc: Desc, last: Desc, single: bool, ghost p: seq<Desc>, ghost bufs: seq<nat>)
      requires Valid() && Chained(p, bufs) && p[0] == desc && p[|p| - 1] == last
      requires forall d :: d in p ==> d !in body && d != terminator
      modifies p
      ensures Valid() && Joinable(p, bufs)
      ensures forall i :: 0 < i < |p| ==> p[i].lastAddr == old(p[i].lastAddr)
      ensures desc.lastAddr == if single then terminator else old(desc.lastAddr)
      ensures forall i :: 0 <= i < |p| ==> p[i].own == old(p[i].own) && p[i].totalLen == old(p[i].totalLen)
      ensures forall i :: 0 <= i < |p| ==> p[i].ctrl == old(p[i].ctrl) && p[i].dataSize == old(p[i].dataSize)
    {
      hide Lasts, Flat, LinkedTo;
      assert terminator !in p && forall i :: 0 <= i < |body| ==> body[i] !in p;
      assert forall i :: 0 <= i < |p| - 1 ==> p[i] != p[|p| - 1];
      assert p[0] in p && p[|p| - 1] in p;
      last.nextAddr := desc;
      if single { desc.lastAddr := terminator; }
      Untouched();
      Closed(p);
    }

    /** dma_put: a whole packet goes to the end of the queue.  The descriptor
        where the hardware waits becomes its first. */
    method Put(desc: Desc, ghost p: seq<Desc>, ghost bufs: seq<nat>)
      requires Valid() && Loose(p, bufs) && p[0] == desc && forall d :: d in p ==> d !in body && d != terminator
      modifies this, terminator, p
      ensures Valid() && head == old(head) && terminator == desc
      ensures contents == old(contents) + [bufs] && body == old(body) + [old(terminator)] + p[1..]
      ensures Sent(old(terminator), old(desc.totalLen), if |p| == 1 then old(terminator) else p[|p| - 1])
      ensures old(terminator).ctrl == old(desc.ctrl) && old(terminator).dataSize == old(desc.dataSize)
      ensures forall i :: 0 < i < |p| ==> Sent(p[i], old(desc.totalLen), p[|p| - 1])
      ensures forall i :: 0 < i < |p| ==> p[i].ctrl == old(p[i].ctrl) && p[i].dataSize == old(p[i].dataSize)
    {
      hide Lasts, Flat, LinkedTo, Distinct, Buffers, LastsFor, Loose;
      LooseLater(p, bufs);
      assert terminator !in p && forall i :: 0 <= i < |body| ==> body[i] !in p;
      MarkPut(desc, p, bufs);
      Untouched();
      ghost var t, m := terminator, |p|;
      ghost var ls: seq<Desc?> := seq(m, i requires 0 <= i < m => if i == 0 && m == 1 then t else p[m - 1]);
      CloseUp(desc, desc.lastAddr, desc.lastAddr == desc, p, bufs);
      LastsOfOne(p, t, bufs, ls);
      Exchange(desc, p, bufs, [bufs], ls);
    }

    /** dma_reclaim: every descriptor of a packet goes back to the hardware as
        an empty packet of its own. */
    method Reclaim(desc: Desc, ghost p: seq<Desc>, ghost bufs: seq<nat>)
      requires Valid() && Loose(p, bufs) && p[0] == desc && forall d :: d in p ==> d !in body && d != terminator
      modifies this, terminator, p
      ensures Valid() && head == old(head) && terminator == desc
      ensures contents == old(contents) + Singles(bufs) && body == old(body) + [old(terminator)] + p[1..]
      ensures Emptied(old(terminator)) && forall i :: 0 < i < |p| ==> Emptied(p[i])
    {
      hide Lasts, Flat, LinkedTo, Distinct, Buffers, LastsFor, Loose;
      LooseLater(p, bufs);
      assert terminator !in p && forall i :: 0 <= i < |body| ==> body[i] !in p;
      var last := MarkReclaim(desc, p, bufs);
      Untouched();
      ghost var t, m := terminator, |p|;
      ghost var ls: seq<Desc?> := seq(m, i requires 0 <= i < m => if i == 0 then t else p[i]);
      CloseUp(desc, last, true, p, bufs);
      LastsOfMany(p, t, bufs, ls);
      Exchange(desc, p, bufs, Singles(bufs), ls);
    }

    /** copy_dma_desc to a temporary, clear_descriptor, and copy_dma_desc over
        the terminator, software-owned until the owner bit is set. */
    method Swap(desc: Desc)
      requires desc != terminator
      modifies terminator, desc
      ensures terminator.own == HW && terminator.ctrl == old(desc.ctrl) && terminator.dataSize == old(desc.dataSize)
      ensures terminator.totalLen == old(desc.totalLen) && terminator.lastAddr == old(desc.lastAddr)
      ensures terminator.dataAddr == old(desc.dataAddr) && terminator.nextAddr == old(desc.nextAddr)
      ensures desc.own == SW && desc.lastAddr == desc && desc.nextAddr == desc
    {
      var ctrl, dataSize, totalLen, lastAddr, dataAddr, nextAddr :=
        desc.ctrl, desc.dataSize, desc.totalLen, desc.lastAddr, desc.dataAddr, desc.nextAddr;
      desc.Clear();
      terminator.own := SW;
      terminator.ctrl, terminator.dataSize, terminator.totalLen := ctrl, dataSize, totalLen;
      terminator.lastAddr, terminator.dataAddr, terminator.nextAddr := lastAddr, dataAddr, nextAddr;
      terminator.own := HW;
    }
  }

  lemma SplitFirst(desc: Desc, q: seq<Desc>, bufs: seq<nat>, ls: seq<Desc?>)
    requires 1 + |q| == |bufs| == |ls|
    ensures Buffers([desc] + q, bufs) <==> desc.dataAddr == bufs[0] && Buffers(q, bufs[1..])
    ensures Know([desc] + q, ls) <==> desc.lastAddr == ls[0] && Know(q, ls[1..])
  {
    var p := [desc] + q;
    assert p[0] == desc && forall i :: 0 <= i < |q| ==>
      p[i + 1] == q[i] && bufs[i + 1] == bufs[1..][i] && ls[i + 1] == ls[1..][i];
    if desc.dataAddr == bufs[0] && Buffers(q, bufs[1..]) {
      forall i | 0 <= i < |p|
        ensures p[i].dataAddr == bufs[i]
      {
        if i > 0 { assert q[i - 1].dataAddr == bufs[1..][i - 1]; }
      }
    }
    if desc.lastAddr == ls[0] && Know(q, ls[1..]) {
      forall i | 0 <= i < |p|
        ensures p[i].lastAddr == ls[i]
      {
        if i > 0 { assert q[i - 1].lastAddr == ls[1..][i - 1]; }
      }
    }
    if Buffers(p, bufs) {
      forall i | 0 <= i < |q|
        ensures q[i].dataAddr == bufs[1..][i]
      {
        assert p[i + 1].dataAddr == bufs[i + 1];
      }
    }
    if Know(p, ls) {
      forall i | 0 <= i < |q|
        ensures q[i].lastAddr == ls[1..][i]
      {
        assert p[i + 1].lastAddr == ls[i + 1];
      }
    }
  }

  /** The longer chain, and its packets. */
  lemma Joined(c: seq<Desc>, cc: seq<seq<nat>>, t: Desc, q: seq<Desc>, e: Desc, p: seq<Desc>, bufs: seq<nat>,
               added: seq<seq<nat>>, ls: seq<Desc?>)
    requires |c| == |Flat(cc)| && p == [e] + q && |p| == |bufs| && Flat(added) == bufs && |ls| == |p|
    requires LinkedTo(c, t) && LinkedTo(q, e) && t.nextAddr == (q + [e])[0]
    requires Buffers(c, Flat(cc)) && Buffers([t] + q, bufs) && Lasts(c, cc) && LastsFor(ls, p, t, added)
      && Know([t] + q, ls)
    ensures var b := c + [t] + q;
      && |b| == |Flat(cc + added)| && LinkedTo(b, e) && Buffers(b, Flat(cc + added)) && Lasts(b, cc + added)
  {
    hide Lasts, Flat, LinkedTo, Buffers, LastsFor, Know;
    assert q == p[1..];
    JoinLinks(c, t, q, e);
    JoinBuffers(c, Flat(cc), [t] + q, bufs);
    LastsJoin(ls, p, t, q, added);
    LastsConcat(c, cc, [t] + q, added);
    assert c + ([t] + q) == c + [t] + q;
  }

  ghost predicate Know(p: seq<Desc>, ls: seq<Desc?>)
    reads p
  {
    |ls| == |p| && forall i :: 0 <= i < |p| ==> p[i].lastAddr == ls[i]
  }

  /** With t in the place of p[0], the first descriptor of every packet of
      `added` knows the last. */
  ghost predicate LastsFor(ls: seq<Desc?>, p: seq<Desc>, t: Desc, added: seq<seq<nat>>)
    requires |ls| == |p| == |Flat(added)|
  {
    forall k :: 0 <= k < |added| ==> LastForAt(ls, p, t, added, k)
  }

  ghost predicate LastForAt(ls: seq<Desc?>, p: seq<Desc>, t: Desc, added: seq<seq<nat>>, k: nat)
    requires |ls| == |p| == |Flat(added)| && k < |added|
  {
    var s, e := Offset(added, k), Offset(added, k + 1) - 1;
    0 <= s <= e < |p| && ls[s] == if e == 0 then t else p[e]
  }

  lemma LastsJoin(ls: seq<Desc?>, p: seq<Desc>, t: Desc, q: seq<Desc>, added: seq<seq<nat>>)
    requires |ls| == |p| == |Flat(added)| > 0 && q == p[1..] && LastsFor(ls, p, t, added) && Know([t] + q, ls)
    ensures Lasts([t] + q, added)
  {
    forall k | 0 <= k < |added|
      ensures LastAt([t] + q, added, k)
    {
      assert LastForAt(ls, p, t, added, k);
    }
  }
}
