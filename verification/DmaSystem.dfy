/** hostif.c and wlan.c: the handlers move packets from queue to queue, put as
    they are or reclaimed as empty descriptors.  No buffer is lost or doubled,
    and the queues share no descriptor. */
module DmaSystem {
  import opened Dma

  // ----- moves as steps on the contents of all queues -----

  /** A packet goes from the head of queue i to the end of queue j: whole
      (dma_put) or as single empty descriptors (dma_reclaim). */
  datatype Move = Move(i: nat, j: nat, reclaim: bool)

  type Contents = seq<seq<nat>>

  function Arrives(m: Move, bufs: seq<nat>): Contents {
    if m.reclaim then Singles(bufs) else [bufs]
  }

  /** Nothing happens if queue i is empty. */
  function Step(s: seq<Contents>, m: Move): (r: seq<Contents>)
    requires m.i < |s| && m.j < |s|
    ensures |r| == |s|
  {
    if s[m.i] == [] then s
    else
      var t := s[m.i := s[m.i][1..]];
      t[m.j := t[m.j] + Arrives(m, s[m.i][0])]
  }

  /** How often buffer x is in one of the queues. */
  function Count(s: seq<Contents>, x: nat): nat {
    if |s| == 0 then 0 else Count(s[..|s| - 1], x) + Times(s[|s| - 1], x)
  }

  function Times(c: Contents, x: nat): nat { multiset(Flat(c))[x] }

  lemma {:induction false} CountUpdate(s: seq<Contents>, k: nat, c: Contents, x: nat)
    requires k < |s|
    ensures Count(s[k := c], x) + Times(s[k], x) == Count(s, x) + Times(c, x)
  {
    hide Times;
    var n := |s| - 1;
    if k == n {
      assert s[k := c][..n] == s[..n];
    } else {
      CountUpdate(s[..n], k, c, x);
      assert s[k := c][..n] == s[..n][k := c] && s[k := c][n] == s[n];
    }
  }

  lemma TimesConcat(c: Contents, d: Contents, x: nat)
    ensures Times(c + d, x) == Times(c, x) + Times(d, x)
  {
    FlatConcat(c, d);
  }

  lemma ArrivesFlat(m: Move, bufs: seq<nat>)
    ensures Flat(Arrives(m, bufs)) == Flat([bufs]) == bufs
  {
    FlatSingles(bufs);
    FlatOne(bufs);
  }

  /** A move neither loses nor doubles a buffer. */
  lemma StepConserves(s: seq<Contents>, m: Move, x: nat)
    requires m.i < |s| && m.j < |s|
    ensures Count(Step(s, m), x) == Count(s, x)
  {
    hide Count, Times, Arrives;
    if s[m.i] != [] {
      var p, rest := s[m.i][0], s[m.i][1..];
      var t := s[m.i := rest];
      assert [p] + rest == s[m.i];
      TimesConcat([p], rest, x);
      TimesConcat(t[m.j], Arrives(m, p), x);
      SameTimes(m, p, x);
      CountUpdate(s, m.i, rest, x);
      CountUpdate(t, m.j, t[m.j] + Arrives(m, p), x);
    }
  }

  lemma SameTimes(m: Move, p: seq<nat>, x: nat)
    ensures Times(Arrives(m, p), x) == Times([p], x)
  {
    ArrivesFlat(m, p);
  }

  // ----- the queues themselves -----

  ghost predicate Disjoint(c: seq<Desc>, d: seq<Desc>) {
    forall x :: x in c ==> x !in d
  }

  /** No two chains share a descriptor. */
  ghost predicate AllDisjoint(cs: seq<seq<Desc>>) {
    forall k, l :: 0 <= k < |cs| && 0 <= l < |cs| && k != l ==> Disjoint(cs[k], cs[l])
  }

  ghost predicate AllFrom(p: seq<Desc>, cs: seq<seq<Desc>>) {
    forall k :: 0 <= k < |cs| ==> Disjoint(p, cs[k])
  }

  ghost predicate Owned(q: Queue, s: set<Desc>)
    reads q
  {
    q.terminator in s && forall d :: d in q.body ==> d in s
  }

  /** Every queue is in order, over these chains of descriptors from s, and the
      chains are disjoint. */
  ghost predicate Ready(qs: seq<Queue>, cs: seq<seq<Desc>>, s: set<Desc>)
    reads qs, s
  {
    && |cs| == |qs| && AllDisjoint(cs)
    && (forall k :: 0 <= k < |qs| ==> Owned(qs[k], s) && qs[k].Valid() && qs[k].Chain() == cs[k])
    && forall k, l :: 0 <= k < l < |qs| ==> qs[k] != qs[l]
  }

  ghost function Of(p: seq<Desc>): set<Desc> { set d | d in p }

  ghost function Snapshot(qs: seq<Queue>): (s: seq<Contents>)
    reads qs
    ensures |s| == |qs| && forall k :: 0 <= k < |qs| ==> s[k] == qs[k].contents
  {
    seq(|qs|, k requires 0 <= k < |qs| reads qs => qs[k].contents)
  }

  /** A chain loses its first descriptors. */
  lemma DisjointTake(cs: seq<seq<Desc>>, i: nat, p: seq<Desc>, c: seq<Desc>)
    requires i < |cs| && AllDisjoint(cs) && cs[i] == p + c && Disjoint(p, c)
    ensures AllDisjoint(cs[i := c]) && AllFrom(p, cs[i := c])
  {
    var ds := cs[i := c];
    assert forall x :: x in c ==> x in cs[i];
    assert forall x :: x in p ==> x in cs[i];
    forall k, l | 0 <= k < |ds| && 0 <= l < |ds| && k != l
      ensures Disjoint(ds[k], ds[l])
    {
      assert Disjoint(cs[k], cs[l]);
    }
    forall k | 0 <= k < |ds|
      ensures Disjoint(p, ds[k])
    {
      if k != i { assert Disjoint(cs[i], cs[k]); }
    }
  }

  /** A chain grows by descriptors that were in none. */
  lemma DisjointGive(cs: seq<seq<Desc>>, j: nat, p: seq<Desc>, c: seq<Desc>)
    requires j < |cs| && AllDisjoint(cs) && AllFrom(p, cs) && forall x :: x in c ==> x in cs[j] || x in p
    ensures AllDisjoint(cs[j := c])
  {
    var ds := cs[j := c];
    forall k, l | 0 <= k < |ds| && 0 <= l < |ds| && k != l
      ensures Disjoint(ds[k], ds[l])
    {
      assert Disjoint(cs[k], cs[l]);
      assert Disjoint(p, cs[k]) && Disjoint(p, cs[l]);
    }
  }

  lemma FirstPart(q: Queue, p: seq<Desc>, c: seq<Desc>)
    requires Distinct(p + c)
    ensures Disjoint(p, c)
  {
    forall x | x in p
      ensures x !in c
    {
      var i :| 0 <= i < |p| && p[i] == x;
      assert (p + c)[i] == x && forall j :: 0 <= j < |c| ==> (p + c)[|p| + j] == c[j];
    }
  }

  /** The packet at the head of a queue leaves it. */
  method Take(qs: seq<Queue>, i: nat, ghost cs: seq<seq<Desc>>, ghost s: set<Desc>)
    returns (desc: Desc, ghost p: seq<Desc>, ghost ds: seq<seq<Desc>>)
    requires Ready(qs, cs, s) && i < |qs| && qs[i].contents != []
    modifies qs[i], qs[i].body
    ensures Ready(qs, ds, s - Of(p)) && |p| > 0 && p[0] == desc && Loose(p, old(qs[i].contents)[0])
    ensures AllFrom(p, ds) && Of(p) <= s
    ensures Snapshot(qs) == old(Snapshot(qs))[i := old(qs[i].contents)[1..]]
  {
    hide AllFrom, Loose, LinkedTo, Buffers, Lasts, Of;
    var q := qs[i];
    TakenFrom(q);
    desc, p := q.Unlink();
    ghost var c := q.Chain();
    assert p + c == cs[i];
    PartOwned(q, s, p, c);
    FirstPart(q, p, c);
    DisjointTake(cs, i, p, c);
    ds := cs[i := c];
    OthersDisjoint(cs, i);
    KeptAll(Rest(qs, cs, s, i, |qs|));
    TakenOwned(qs, ds, s, p);
  }

  lemma PartOwned(q: Queue, s: set<Desc>, p: seq<Desc>, c: seq<Desc>)
    requires c == q.Chain() && q.terminator in s && forall d :: d in p + q.body ==> d in s
    ensures Of(p) <= s && Owned(q, s)
  {
    assert forall d :: d in q.body ==> d in p + q.body;
    assert forall d :: d in p ==> d in p + q.body;
  }

  /** What was taken is in none of the chains left. */
  lemma TakenOwned(qs: seq<Queue>, ds: seq<seq<Desc>>, s: set<Desc>, p: seq<Desc>)
    requires |qs| == |ds| && AllFrom(p, ds) && forall k :: 0 <= k < |qs| ==> Owned(qs[k], s) && qs[k].Chain() == ds[k]
    ensures forall k :: 0 <= k < |qs| ==> Owned(qs[k], s - Of(p))
  {
    forall k | 0 <= k < |qs|
      ensures Owned(qs[k], s - Of(p))
    {
      InChain(qs[k]);
      assert Disjoint(p, ds[k]);
    }
  }

  lemma InChain(q: Queue)
    ensures q.terminator in q.Chain() && forall d :: d in q.body ==> d in q.Chain()
  {
    assert q.Chain()[|q.body|] == q.terminator;
  }

  /** The state of a queue apart from its descriptors. */
  twostate predicate SameQueue(q: Queue)
    reads q
  {
    q.head == old(q.head) && q.terminator == old(q.terminator) && q.body == old(q.body) && q.contents == old(q.contents)
  }

  twostate predicate SameAll(c: seq<Desc>)
    reads c
  {
    forall n :: 0 <= n < |c| ==> Same(c[n])
  }

  /** All queues but one, with their chains; the first n of them. */
  datatype Rest = Rest(qs: seq<Queue>, cs: seq<seq<Desc>>, s: set<Desc>, i: nat, n: nat)

  datatype One = One(q: Queue, c: seq<Desc>)

  twostate lemma Kept(o: One)
    requires old(o.q.Valid()) && old(o.q.Chain()) == o.c && SameQueue(o.q) && SameAll(o.c)
    ensures o.q.Valid() && o.q.Chain() == o.c
  {
    assert forall i :: 0 <= i < |o.q.body| ==> o.c[i] == o.q.body[i];
    assert o.c[|o.q.body|] == o.q.terminator;
    o.q.Untouched();
  }

  /** Queues are not touched by changes to another. */
  twostate lemma {:induction false} KeptAll(f: Rest)
    requires old(Ready(f.qs, f.cs, f.s)) && f.n <= |f.qs|
    requires forall k :: 0 <= k < |f.qs| && k != f.i ==> SameQueue(f.qs[k])
    requires forall k :: 0 <= k < |f.qs| && k != f.i ==> SameAll(f.cs[k])
    ensures forall k :: 0 <= k < f.n && k != f.i ==>
      f.qs[k].Valid() && f.qs[k].Chain() == f.cs[k] && Owned(f.qs[k], f.s)
    decreases f.n
  {
    hide Queue.Valid, AllDisjoint, SameAll;
    if f.n > 0 {
      KeptAll(f.(n := f.n - 1));
      if f.n - 1 != f.i {
        Kept(One(f.qs[f.n - 1], f.cs[f.n - 1]));
      }
    }
  }

  lemma OthersDisjoint(cs: seq<seq<Desc>>, i: nat)
    requires AllDisjoint(cs) && i < |cs|
    ensures forall k, n :: 0 <= k < |cs| && k != i && 0 <= n < |cs[k]| ==> cs[k][n] !in cs[i]
  {
    forall k, n | 0 <= k < |cs| && k != i && 0 <= n < |cs[k]|
      ensures cs[k][n] !in cs[i]
    {
      assert Disjoint(cs[k], cs[i]);
    }
  }

  lemma TakenFrom(q: Queue)
    requires q.Valid()
    ensures Distinct(q.Chain())
  {
  }

  /** dma_put or dma_reclaim. */
  method Enqueue(q: Queue, reclaim: bool, desc: Desc, ghost p: seq<Desc>, ghost bufs: seq<nat>)
    requires q.Valid() && Loose(p, bufs) && p[0] == desc && forall d :: d in p ==> d !in q.body && d != q.terminator
    modifies q, q.terminator, p
    ensures q.Valid() && q.contents == old(q.contents) + Arrives(Move(0, 0, reclaim), bufs)
    ensures q.Chain() == old(q.body) + [old(q.terminator)] + p[1..] + [p[0]]
  {
    hide Queue.Valid, Loose;
    if reclaim { q.Reclaim(desc, p, bufs); } else { q.Put(desc, p, bufs); }
  }

  /** A packet from elsewhere goes to the end of a queue. */
  method Give(qs: seq<Queue>, j: nat, reclaim: bool, desc: Desc, ghost p: seq<Desc>, ghost bufs: seq<nat>,
              ghost cs: seq<seq<Desc>>, ghost s: set<Desc>)
    returns (ghost ds: seq<seq<Desc>>)
    requires Ready(qs, cs, s) && j < |qs| && Loose(p, bufs) && |p| > 0 && p[0] == desc && AllFrom(p, cs)
    modifies qs[j], qs[j].terminator, p
    ensures Ready(qs, ds, s + Of(p))
    ensures Snapshot(qs) == old(Snapshot(qs))[j := old(qs[j].contents) + Arrives(Move(0, 0, reclaim), bufs)]
  {
    hide AllFrom, Disjoint;
    hide Loose, Queue.Valid, LinkedTo, Distinct, Of;
    var q := qs[j];
    ghost var t := q.terminator;
    InNone(cs, j, p, q);
    Enqueue(q, reclaim, desc, p, bufs);
    ghost var c := q.Chain();
    ds := cs[j := c];
    Longer(cs[j], p, t, c);
    DisjointGive(cs, j, p, c);
    KeptAll(Rest(qs, cs, s, j, |qs|));
    GivenOwned(qs, j, s, p, cs[j]);
  }

  lemma GivenOwned(qs: seq<Queue>, j: nat, s: set<Desc>, p: seq<Desc>, c: seq<Desc>)
    requires j < |qs| && forall k :: 0 <= k < |qs| && k != j ==> Owned(qs[k], s)
    requires (forall d :: d in c ==> d in s) && forall d :: d in qs[j].Chain() ==> d in c || d in p
    ensures forall k :: 0 <= k < |qs| ==> Owned(qs[k], s + Of(p))
  {
    InChain(qs[j]);
  }

  lemma InNone(cs: seq<seq<Desc>>, j: nat, p: seq<Desc>, q: Queue)
    requires j < |cs| && AllFrom(p, cs) && AllDisjoint(cs) && q.Chain() == cs[j]
    ensures forall d :: d in p ==> d !in q.body && d != q.terminator
    ensures forall k, n :: 0 <= k < |cs| && 0 <= n < |cs[k]| ==> cs[k][n] !in p
    ensures forall k, n :: 0 <= k < |cs| && k != j && 0 <= n < |cs[k]| ==> cs[k][n] != q.terminator
  {
    assert q.Chain()[|q.body|] == q.terminator && Disjoint(p, cs[j]);
    forall k, n | 0 <= k < |cs| && 0 <= n < |cs[k]|
      ensures cs[k][n] !in p
    {
      assert Disjoint(p, cs[k]) && cs[k][n] in cs[k];
    }
    OthersDisjoint(cs, j);
  }

  lemma Longer(old': seq<Desc>, p: seq<Desc>, t: Desc, c: seq<Desc>)
    requires |p| > 0 && |old'| > 0 && old'[|old'| - 1] == t && c == old'[..|old'| - 1] + [t] + p[1..] + [p[0]]
    ensures forall x :: x in c ==> x in old' || x in p
  {
  }

  /** Queues over s have nothing from outside. */
  lemma Outside(qs: seq<Queue>, cs: seq<seq<Desc>>, s: set<Desc>, p: seq<Desc>)
    requires Ready(qs, cs, s) && Of(p) !! s
    ensures AllFrom(p, cs)
  {
    forall k | 0 <= k < |cs|
      ensures Disjoint(p, cs[k])
    {
      assert Owned(qs[k], s) && qs[k].Chain() == cs[k];
      forall x | x in p
        ensures x !in cs[k]
      {
        assert x in Of(p);
      }
    }
  }

  lemma EmptyAt(qs: seq<Queue>, cs: seq<seq<Desc>>, s: set<Desc>, k: nat)
    requires Ready(qs, cs, s) && k < |qs|
    ensures qs[k].Empty() <==> qs[k].contents == []
    ensures qs[k].terminator in s && forall d :: d in qs[k].body ==> d in s
  {
    qs[k].EmptyMeans();
  }

  /** One move. */
  method Transfer(qs: seq<Queue>, m: Move, ghost cs: seq<seq<Desc>>, ghost s: set<Desc>)
    returns (ghost ds: seq<seq<Desc>>)
    requires Ready(qs, cs, s) && m.i < |qs| && m.j < |qs|
    modifies qs, s
    ensures Ready(qs, ds, s) && Snapshot(qs) == Step(old(Snapshot(qs)), m)
  {
    hide Ready, Loose, AllFrom, Singles, Of;
    ds := cs;
    EmptyAt(qs, cs, s, m.i);
    if !qs[m.i].Empty() {
      ghost var bufs := qs[m.i].contents[0];
      var desc;
      ghost var p;
      desc, p, ds := Take(qs, m.i, cs, s);
      ghost var left := s - Of(p);
      EmptyAt(qs, ds, left, m.j);
      InOf(p);
      ds := Give(qs, m.j, m.reclaim, desc, p, bufs, ds, left);
      assert left + Of(p) == s;
    }
  }

  lemma InOf(p: seq<Desc>)
    ensures forall d :: d in p <==> d in Of(p)
  {
  }
}
