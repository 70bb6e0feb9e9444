/** What the hardware does to a queue: when it is done with a packet it gives the
    descriptors back, and where it receives, it ties descriptors that waited one
    by one into a packet, by telling the first of them the last. */
module DmaHardware {
  import opened Dma

  /** n packets from the i-th on become one. */
  function Grouped(c: seq<seq<nat>>, i: nat, n: nat): seq<seq<nat>>
    requires i + n <= |c|
  {
    c[..i] + [Flat(c[i..i + n])] + c[i + n..]
  }

  lemma {:induction false} OffsetOrder(cc: seq<seq<nat>>, j: nat, k: nat)
    requires j <= k <= |cc|
    ensures Offset(cc, j) <= Offset(cc, k) <= |Flat(cc)|
  {
    FlatConcat(cc[..j], cc[j..k]);
    FlatConcat(cc[..k], cc[k..]);
    assert cc[..j] + cc[j..k] == cc[..k] && cc[..k] + cc[k..] == cc;
  }

  lemma OffsetFrom(cc: seq<seq<nat>>, k: nat, j: nat)
    requires k + j <= |cc|
    ensures Offset(cc, k + j) == Offset(cc, k) + Offset(cc[k..], j)
  {
    FlatConcat(cc[..k], cc[k..][..j]);
    assert cc[..k] + cc[k..][..j] == cc[..k + j];
  }

  /** The packets of the two parts of a chain. */
  lemma LastsCut(c: seq<Desc>, cc: seq<seq<nat>>, k: nat)
    requires |c| == |Flat(cc)| && Lasts(c, cc) && k <= |cc|
    ensures var o := Offset(cc, k);
      && o == |Flat(cc[..k])| <= |c| && |c| - o == |Flat(cc[k..])|
      && Lasts(c[..o], cc[..k]) && Lasts(c[o..], cc[k..])
  {
    hide Flat;
    var o := Offset(cc, k);
    OffsetOrder(cc, k, |cc|);
    FlatConcat(cc[..k], cc[k..]);
    assert cc[..k] + cc[k..] == cc;
    forall j | 0 <= j < k
      ensures LastAt(c[..o], cc[..k], j)
    {
      assert LastAt(c, cc, j);
      OffsetOrder(cc, j + 1, k);
      assert cc[..k][..j] == cc[..j] && cc[..k][..j + 1] == cc[..j + 1];
    }
    forall j | 0 <= j < |cc| - k
      ensures LastAt(c[o..], cc[k..], j)
    {
      assert LastAt(c, cc, k + j);
      OffsetFrom(cc, k, j);
      OffsetFrom(cc, k, j + 1);
    }
  }

  lemma FlatGrouped(c: seq<seq<nat>>, i: nat, n: nat)
    requires i + n <= |c|
    ensures Flat(Grouped(c, i, n)) == Flat(c) == Flat(c[..i]) + Flat(c[i..i + n]) + Flat(c[i + n..])
    ensures Offset(c, i + n) == Offset(c, i) + |Flat(c[i..i + n])|
  {
    var a, b, d := c[..i], c[i..i + n], c[i + n..];
    assert a + b + d == c && a + [Flat(b)] + d == Grouped(c, i, n) && a + b == c[..i + n];
    FlatConcat(a + b, d);
    FlatConcat(a, b);
    FlatConcat(a + [Flat(b)], d);
    FlatConcat(a, [Flat(b)]);
    FlatOne(Flat(b));
  }

  /** The chain c, whose descriptors from o to e are one packet now. */
  lemma LastsGrouped(c: seq<Desc>, cc: seq<seq<nat>>, i: nat, n: nat, o: nat, e: nat)
    requires |c| == |Flat(cc)| && i + n <= |cc| && o == Offset(cc, i) < e == Offset(cc, i + n) <= |c|
    requires |c[..o]| == |Flat(cc[..i])| && |c[e..]| == |Flat(cc[i + n..])|
    requires Lasts(c[..o], cc[..i]) && Lasts(c[e..], cc[i + n..]) && c[o].lastAddr == c[e - 1]
    ensures |c| == |Flat(Grouped(cc, i, n))| && Lasts(c, Grouped(cc, i, n))
  {
    hide Flat, Lasts, LastAt;
    var b, bufs := c[o..e], Flat(cc[i..i + n]);
    FlatGrouped(cc, i, n);
    FlatOne(bufs);
    LastsOne(b, bufs);
    LastsConcat(c[..o], cc[..i], b, [bufs]);
    FlatConcat(cc[..i], [bufs]);
    LastsConcat(c[..o] + b, cc[..i] + [bufs], c[e..], cc[i + n..]);
    assert c[..o] + b + c[e..] == c;
  }

  lemma LastsOne(b: seq<Desc>, bufs: seq<nat>)
    requires |b| == |bufs| > 0 && b[0].lastAddr == b[|b| - 1]
    ensures |b| == |Flat([bufs])| && Lasts(b, [bufs])
  {
    FlatOne(bufs);
    OffsetZero([bufs]);
    OffsetNext([bufs], 0);
  }

  /** Where the i-th packet of a queue begins, and where the n packets end. */
  ghost predicate At(q: Queue, i: nat, n: nat, desc: Desc, last: Desc)
    requires q.Valid()
    reads q, q.body, q.terminator
  {
    i + n <= |q.contents| && Offset(q.contents, i) < Offset(q.contents, i + n) <= |q.body|
    && desc == q.body[Offset(q.contents, i)] && last == q.body[Offset(q.contents, i + n) - 1]
  }

  lemma Parts(q: Queue, i: nat, n: nat)
    requires q.Valid() && i + n <= |q.contents| && Offset(q.contents, i) < Offset(q.contents, i + n) <= |q.body|
    ensures var c, cc, o, e := q.body, q.contents, Offset(q.contents, i), Offset(q.contents, i + n);
      && Distinct(c) && (forall m :: 0 <= m < |c| - 1 ==> c[m].nextAddr == c[m + 1]) && q.terminator !in c
      && o == |Flat(cc[..i])| && |c| - e == |Flat(cc[i + n..])| && Lasts(c[..o], cc[..i]) && Lasts(c[e..], cc[i + n..])
  {
    hide Flat, Offset, Lasts;
    LastsCut(q.body, q.contents, i);
    LastsCut(q.body, q.contents, i + n);
    assert forall m :: 0 <= m < |q.body| ==> q.Chain()[m] == q.body[m];
    assert q.Chain()[|q.body|] == q.terminator;
  }

  twostate predicate SameLinks(c: seq<Desc>)
    reads c
  {
    forall m :: 0 <= m < |c| ==> c[m].nextAddr == old(c[m].nextAddr) && c[m].dataAddr == old(c[m].dataAddr)
  }

  twostate predicate SameLasts(c: seq<Desc>)
    reads c
  {
    forall m :: 0 <= m < |c| ==> c[m].lastAddr == old(c[m].lastAddr)
  }

  datatype Chain = Chain(c: seq<Desc>, cc: seq<seq<nat>>)

  twostate lemma LastsKept(f: Chain)
    requires |f.c| == |Flat(f.cc)| && old(Lasts(f.c, f.cc)) && SameLasts(f.c)
    ensures Lasts(f.c, f.cc)
  {
    hide Flat;
    forall k | 0 <= k < |f.cc|
      ensures LastAt(f.c, f.cc, k)
    {
      assert old(LastAt(f.c, f.cc, k));
    }
  }

  datatype Group = Group(q: Queue, i: nat, n: nat)

  /** The queue is in order with the packets as one. */
  twostate lemma Regrouped(g: Group)
    requires old(g.q.Valid()) && g.i + g.n <= |old(g.q.contents)|
    requires var c, o, e := old(g.q.body), Offset(old(g.q.contents), g.i), Offset(old(g.q.contents), g.i + g.n);
      && o < e <= |c| && g.q.body == c && g.q.head == old(g.q.head) && g.q.terminator == old(g.q.terminator)
      && Same(g.q.terminator) && SameLinks(c) && SameLasts(c[..o]) && SameLasts(c[e..]) && c[o].lastAddr == c[e - 1]
    requires var c, cc, o, e := old(g.q.body), old(g.q.contents), Offset(old(g.q.contents), g.i),
      Offset(old(g.q.contents), g.i + g.n);
      && o == |Flat(cc[..g.i])| && |c| - e == |Flat(cc[g.i + g.n..])|
      && old(Lasts(c[..o], cc[..g.i])) && old(Lasts(c[e..], cc[g.i + g.n..]))
    requires g.q.contents == Grouped(old(g.q.contents), g.i, g.n)
    ensures g.q.Valid()
  {
    hide Flat, Offset, Lasts, Distinct;
    var q, c, cc, i, n := g.q, g.q.body, old(g.q.contents), g.i, g.n;
    var o, e := Offset(cc, i), Offset(cc, i + n);
    LastsKept(Chain(c[..o], cc[..i]));
    LastsKept(Chain(c[e..], cc[i + n..]));
    LastsGrouped(c, cc, i, n, o, e);
    FlatGrouped(cc, i, n);
    assert old(LinkedTo(c, q.terminator)) && old(Buffers(c, Flat(cc)));
  }

  /** Only the descriptors from o to e change, in what is not a link or buffer. */
  twostate predicate Written(c: seq<Desc>, o: nat, e: nat, own: nat, len: nat, last: Desc)
    requires o <= e <= |c|
    reads c
  {
    && SameLinks(c)
    && (forall m :: 0 <= m < |c| && !(o <= m < e) ==> Same(c[m]))
    && forall m :: o <= m < e ==> c[m].own == own && c[m].totalLen == len && c[m].lastAddr == last
  }

  method WriteBack(desc: Desc, last: Desc, own: nat, ctrl: nat, size: nat, len: nat, ghost c: seq<Desc>, ghost o: nat,
          ghost e: nat)
    requires o < e <= |c| && Distinct(c) && (forall m :: 0 <= m < |c| - 1 ==> c[m].nextAddr == c[m + 1])
    requires desc == c[o] && last == c[e - 1]
    modifies c
    ensures Written(c, o, e, own, len, last)
  {
    var t := desc;
    ghost var j := o;
    var more := true;
    while more
      invariant o <= j < e && t == c[j] && (!more ==> j == e - 1)
      invariant SameLinks(c) && forall m :: 0 <= m < |c| && !(o <= m < e) ==> Same(c[m])
      invariant forall m :: o <= m < (if more then j else e) ==>
        c[m].own == own && c[m].totalLen == len && c[m].lastAddr == last
      decreases more, e - j
    {
      t.own, t.ctrl, t.dataSize, t.totalLen, t.lastAddr := own, ctrl, size, len, last;
      if t == last {
        more := false;
      } else {
        assert old(c[j].nextAddr) == c[j + 1];
        t := t.nextAddr;
        j := j + 1;
      }
    }
  }

  /** The hardware is done with the descriptors from `desc` to `last`, all of
      which it owns: it leaves what it wrote, and gives them back as one packet. */
  method Complete(q: Queue, desc: Desc, last: Desc, own: nat, ctrl: nat, size: nat, len: nat, ghost i: nat,
          ghost n: nat)
    requires q.Valid() && At(q, i, n, desc, last)
    requires forall j :: Offset(q.contents, i) <= j < Offset(q.contents, i + n) ==> q.body[j].own == HW
    modifies q.body, q`contents
    ensures q.Valid() && q.contents == Grouped(old(q.contents), i, n)
    ensures Written(q.body, Offset(old(q.contents), i), Offset(old(q.contents), i + n), own, len, last)
  {
    hide Queue.Valid, Flat, Offset, Distinct, Lasts, Grouped, SameLinks;
    ghost var c, cc, o, e := q.body, q.contents, Offset(q.contents, i), Offset(q.contents, i + n);
    Parts(q, i, n);
    WriteBack(desc, last, own, ctrl, size, len, c, o, e);
    q.contents := Grouped(cc, i, n);
    Regrouped(Group(q, i, n));
  }
}
