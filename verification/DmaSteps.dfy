/** dma.c against the hardware, one memory write at a time.  While dma_put or
    dma_reclaim writes the fields of descriptors in program order, the hardware
    runs: it completes descriptors it owns, one after the other, and waits at
    the first it does not own. */
module DmaSteps {
  import Dma

  const SW := Dma.SW
  const HW := Dma.HW
  const BLOCK_SIZE := Dma.BLOCK_SIZE

  /** struct dma_desc, with addresses as numbers. */
  datatype TD = TD(own: nat, ctrl: nat, dataSize: nat, totalLen: nat, last: nat, data: nat, next: nat)

  type Mem = map<nat, TD>

  datatype Field = Own(v: nat) | Ctrl(v: nat) | DataSize(v: nat) | TotalLen(v: nat) | Last(v: nat) | Data(v: nat)
                 | Next(v: nat)

  datatype Write = Write(at: nat, f: Field)

  function Set(d: TD, f: Field): TD {
    match f
    case Own(v) => d.(own := v)
    case Ctrl(v) => d.(ctrl := v)
    case DataSize(v) => d.(dataSize := v)
    case TotalLen(v) => d.(totalLen := v)
    case Last(v) => d.(last := v)
    case Data(v) => d.(data := v)
    case Next(v) => d.(next := v)
  }

  function Do(m: Mem, w: Write): Mem {
    if w.at in m then m[w.at := Set(m[w.at], w.f)] else m
  }

  function DoAll(m: Mem, ws: seq<Write>): Mem {
    if |ws| == 0 then m else Do(DoAll(m, ws[..|ws| - 1]), ws[|ws| - 1])
  }

  lemma {:induction false} DoConcat(m: Mem, a: seq<Write>, b: seq<Write>)
    ensures DoAll(m, a + b) == DoAll(DoAll(m, a), b)
  {
    if |b| == 0 {
      assert a + b == a;
    } else {
      DoConcat(m, a, b[..|b| - 1]);
      assert (a + b)[..|a + b| - 1] == a + b[..|b| - 1];
    }
  }

  // ----- the two programs -----

  /** What dma_put writes to one descriptor of the packet. */
  function MarkPut(a: nat, len: nat, last: nat): seq<Write> {
    [Write(a, TotalLen(len)), Write(a, Own(HW)), Write(a, Last(last))]
  }

  /** What dma_reclaim writes to it. */
  function MarkReclaim(a: nat): seq<Write> {
    [Write(a, Own(HW)), Write(a, Ctrl(0)), Write(a, TotalLen(0)), Write(a, DataSize(BLOCK_SIZE)), Write(a, Last(a))]
  }

  function Mark(reclaim: bool, a: nat, len: nat, last: nat): seq<Write> {
    if reclaim then MarkReclaim(a) else MarkPut(a, len, last)
  }

  function Marks(reclaim: bool, p: seq<nat>, len: nat, last: nat): seq<Write> {
    if |p| == 0 then [] else Marks(reclaim, p[..|p| - 1], len, last) + Mark(reclaim, p[|p| - 1], len, last)
  }

  /** clear_descriptor */
  function Clear(a: nat): seq<Write> {
    [Write(a, Own(SW)), Write(a, Ctrl(0)), Write(a, DataSize(0)), Write(a, TotalLen(0)), Write(a, Last(a)),
      Write(a, Data(0)), Write(a, Next(a))]
  }

  function Fields(d: TD): set<Field> {
    {Own(d.own), Ctrl(d.ctrl), DataSize(d.dataSize), TotalLen(d.totalLen), Last(d.last), Data(d.data), Next(d.next)}
  }

  /** copy_dma_desc: all fields of d are written, in whatever order. */
  ghost predicate CopyOf(ws: seq<Write>, a: nat, d: TD) {
    && (forall i :: 0 <= i < |ws| ==> ws[i].at == a && ws[i].f in Fields(d))
    && forall f :: f in Fields(d) ==> Write(a, f) in ws
  }

  /** The first descriptor as it is copied: marked, linked to the second or, if
      it is alone, to itself, and knowing the last of its packet. */
  function First(reclaim: bool, d: TD, t: nat, p: seq<nat>): TD
    requires |p| > 0
  {
    var next := if |p| == 1 then p[0] else d.next;
    if reclaim then TD(SW, 0, BLOCK_SIZE, 0, t, d.data, next)
    else TD(SW, d.ctrl, d.dataSize, d.totalLen, if |p| == 1 then t else p[|p| - 1], d.data, next)
  }

  /** Everything dma_put or dma_reclaim writes, in order; t is the terminator and
      p the packet. */
  function Program(reclaim: bool, m: Mem, t: nat, p: seq<nat>, copy: seq<Write>): seq<Write>
    requires |p| > 0 && p[0] in m
  {
    Marks(reclaim, p, m[p[0]].totalLen, p[|p| - 1])
    + [Write(p[|p| - 1], Next(p[0]))]
    + (if reclaim || |p| == 1 then [Write(p[0], Last(t))] else [])
    + Clear(p[0]) + copy + [Write(t, Own(HW))]
  }

  // ----- what they leave -----

  function Marked(reclaim: bool, d: TD, a: nat, len: nat, last: nat): TD {
    if reclaim then TD(HW, 0, BLOCK_SIZE, 0, a, d.data, d.next)
      else TD(HW, d.ctrl, d.dataSize, len, last, d.data, d.next)
  }

  lemma MarkDoes(m: Mem, reclaim: bool, a: nat, len: nat, last: nat)
    requires a in m
    ensures DoAll(m, Mark(reclaim, a, len, last)) == m[a := Marked(reclaim, m[a], a, len, last)]
  {
    var d := m[a];
    if reclaim {
      var w := MarkReclaim(a);
      assert w[..1] == [w[0]] && w[..2][..1] == w[..1] && w[..3][..2] == w[..2] && w[..4][..3] == w[..3] && w[..5] == w;
      assert DoAll(m, w[..1]) == Do(m, w[0]) by { assert w[..1][..0] == []; }
      assert DoAll(m, w[..2]) == Do(Do(m, w[0]), w[1]);
      assert DoAll(m, w[..3]) == Do(DoAll(m, w[..2]), w[2]);
      assert DoAll(m, w[..4]) == Do(DoAll(m, w[..3]), w[3]);
      assert DoAll(m, w) == Do(DoAll(m, w[..4]), w[4]);
    } else {
      var w := MarkPut(a, len, last);
      assert w[..1] == [w[0]] && w[..2][..1] == w[..1] && w[..3] == w;
      assert DoAll(m, w[..1]) == Do(m, w[0]) by { assert w[..1][..0] == []; }
      assert DoAll(m, w[..2]) == Do(Do(m, w[0]), w[1]);
      assert DoAll(m, w) == Do(DoAll(m, w[..2]), w[2]);
    }
  }

  ghost predicate Distinct(p: seq<nat>) {
    forall i, j :: 0 <= i < j < |p| ==> p[i] != p[j]
  }

  ghost predicate AllIn(p: seq<nat>, m: Mem) {
    forall i :: 0 <= i < |p| ==> p[i] in m
  }

  lemma {:induction false} MarksDo(m: Mem, reclaim: bool, p: seq<nat>, len: nat, last: nat)
    requires Distinct(p) && AllIn(p, m)
    ensures var r := DoAll(m, Marks(reclaim, p, len, last));
      && r.Keys == m.Keys
      && (forall i :: 0 <= i < |p| ==> r[p[i]] == Marked(reclaim, m[p[i]], p[i], len, last))
      && (forall a :: a in m && a !in p ==> r[a] == m[a])
  {
    hide Mark, Marked;
    if |p| > 0 {
      var n := |p| - 1;
      var q := p[..n];
      MarksDo(m, reclaim, q, len, last);
      var r := DoAll(m, Marks(reclaim, q, len, last));
      DoConcat(m, Marks(reclaim, q, len, last), Mark(reclaim, p[n], len, last));
      assert DoAll(m, Marks(reclaim, p, len, last)) == DoAll(r, Mark(reclaim, p[n], len, last));
      NotBefore(p);
      MarkDoes(r, reclaim, p[n], len, last);
      assert r[p[n]] == m[p[n]];
    }
  }

  lemma NotBefore(p: seq<nat>)
    requires |p| > 0 && Distinct(p)
    ensures p[|p| - 1] !in p[..|p| - 1] && forall a :: a in p <==> a in p[..|p| - 1] || a == p[|p| - 1]
    ensures forall i :: 0 <= i < |p| - 1 ==> p[..|p| - 1][i] == p[i] && p[i] != p[|p| - 1]
  {
    assert p == p[..|p| - 1] + [p[|p| - 1]];
  }

  /** The memory after all marks and the two links. */
  function Linked(reclaim: bool, m: Mem, t: nat, p: seq<nat>): Mem
    requires |p| > 0 && p[0] in m
  {
    var m1 := DoAll(m, Marks(reclaim, p, m[p[0]].totalLen, p[|p| - 1]));
    var m2 := Do(m1, Write(p[|p| - 1], Next(p[0])));
    if reclaim || |p| == 1 then Do(m2, Write(p[0], Last(t))) else m2
  }

  lemma LinkedDoes(reclaim: bool, m: Mem, t: nat, p: seq<nat>)
    requires |p| > 0 && Distinct(p) && AllIn(p, m) && t !in p
    ensures var r := Linked(reclaim, m, t, p);
      && r.Keys == m.Keys && (forall a :: a in m && a !in p ==> r[a] == m[a])
      && r[p[0]].(own := SW) == First(reclaim, m[p[0]], t, p)
      && forall i :: 0 < i < |p| ==>
        r[p[i]] == Marked(reclaim, m[p[i]], p[i], m[p[0]].totalLen, p[|p| - 1]).(next := if i == |p| - 1 then p[0]
          else m[p[i]].next)
  {
    hide Marks, DoAll;
    MarksDo(m, reclaim, p, m[p[0]].totalLen, p[|p| - 1]);
    assert p[0] in p && p[|p| - 1] in p;
  }

  lemma ClearDoes(m: Mem, a: nat)
    requires a in m
    ensures DoAll(m, Clear(a)) == m[a := TD(SW, 0, 0, 0, a, 0, a)]
  {
    var w := Clear(a);
    DoElsewhereAll(m, w, a);
    Covers(m, w, a, TD(SW, 0, 0, 0, a, 0, a));
  }

  /** Writes to a alone change nothing else. */
  lemma {:induction false} DoElsewhereAll(m: Mem, ws: seq<Write>, a: nat)
    requires a in m && forall i :: 0 <= i < |ws| ==> ws[i].at == a
    ensures DoAll(m, ws).Keys == m.Keys && DoAll(m, ws) == m[a := DoAll(m, ws)[a]]
  {
    if |ws| > 0 { DoElsewhereAll(m, ws[..|ws| - 1], a); }
  }

  predicate Has(d: TD, f: Field) { Set(d, f) == d }

  /** All fields of d, written in any order, make d. */
  lemma {:induction false} CopyHas(m: Mem, ws: seq<Write>, a: nat, d: TD)
    requires a in m && forall i :: 0 <= i < |ws| ==> ws[i].at == a && ws[i].f in Fields(d)
    ensures a in DoAll(m, ws) && forall i :: 0 <= i < |ws| ==> Has(DoAll(m, ws)[a], ws[i].f)
  {
    if |ws| > 0 {
      var v, w := ws[..|ws| - 1], ws[|ws| - 1];
      CopyHas(m, v, a, d);
      var x := DoAll(m, v)[a];
      forall i | 0 <= i < |ws|
        ensures Has(Set(x, w.f), ws[i].f)
      {
        if i < |v| { assert Has(x, v[i].f); }
      }
    }
  }

  lemma Covers(m: Mem, ws: seq<Write>, a: nat, d: TD)
    requires a in m && CopyOf(ws, a, d)
    ensures a in DoAll(m, ws) && DoAll(m, ws)[a] == d
  {
    CopyHas(m, ws, a, d);
    var x := DoAll(m, ws)[a];
    forall f | f in Fields(d)
      ensures Has(x, f)
    {
      var i :| 0 <= i < |ws| && ws[i] == Write(a, f);
      assert Has(x, ws[i].f);
    }
    assert Has(x, Own(d.own)) && Has(x, Ctrl(d.ctrl)) && Has(x, DataSize(d.dataSize)) && Has(x, TotalLen(d.totalLen));
    assert Has(x, Last(d.last)) && Has(x, Data(d.data)) && Has(x, Next(d.next));
  }

  /** A packet in software's hands, next to a queue that ends in t. */
  ghost predicate Loose(m: Mem, t: nat, p: seq<nat>) {
    && |p| > 0 && Distinct(p) && AllIn(p, m) && t in m && t !in p && m[t].own == SW
    && forall i :: 0 <= i < |p| - 1 ==> m[p[i]].next == p[i + 1]
  }

  ghost predicate IsCopy(copy: seq<Write>, reclaim: bool, m: Mem, t: nat, p: seq<nat>)
    requires |p| > 0 && p[0] in m
  {
    CopyOf(copy, t, First(reclaim, m[p[0]], t, p))
  }

  lemma ProgramIs(reclaim: bool, m: Mem, t: nat, p: seq<nat>, copy: seq<Write>)
    requires |p| > 0 && p[0] in m
    ensures DoAll(m, Program(reclaim, m, t, p, copy))
         == Do(DoAll(DoAll(Linked(reclaim, m, t, p), Clear(p[0])), copy), Write(t, Own(HW)))
  {
    hide Marks, Clear;
    var marks := Marks(reclaim, p, m[p[0]].totalLen, p[|p| - 1]);
    var w := Write(p[|p| - 1], Next(p[0]));
    var l := if reclaim || |p| == 1 then [Write(p[0], Last(t))] else [];
    var a, b, c, d, e := marks + [w], marks + [w] + l, marks + [w] + l + Clear(p[0]),
      marks + [w] + l + Clear(p[0]) + copy, [Write(t, Own(HW))];
    DoConcat(m, marks, [w]);
    DoConcat(m, a, l);
    DoConcat(m, b, Clear(p[0]));
    DoConcat(m, c, copy);
    DoConcat(m, d, e);
    DoOne(DoAll(m, marks), w);
    DoOne(DoAll(m, a), Write(p[0], Last(t)));
    DoOne(DoAll(m, d), Write(t, Own(HW)));
  }

  lemma DoOne(m: Mem, w: Write)
    ensures DoAll(m, [w]) == Do(m, w) && DoAll(m, []) == m
  {
    assert [w][..0] == [];
  }

  /** Descriptor i of the packet once it is in the queue, where the first is at the
      old terminator t: the hardware's, with its buffer and the link to the next,
      and empty and on its own, or with the size it had, the length of the packet,
      and the last descriptor. */
  function Appended(reclaim: bool, m: Mem, t: nat, p: seq<nat>, i: nat): TD
    requires i < |p| && p[0] in m && p[i] in m
  {
    var d, next := m[p[i]], (p[1..] + [p[0]])[i];
    if reclaim then TD(HW, 0, BLOCK_SIZE, 0, if i == 0 then t else p[i], d.data, next)
    else TD(HW, d.ctrl, d.dataSize, m[p[0]].totalLen, if |p| == 1 then t else p[|p| - 1], d.data, next)
  }

  /** The whole program turns the terminator into the first descriptor of the
      packet, and leaves its own first descriptor as the new terminator. */
  lemma ProgramDoes(reclaim: bool, m: Mem, t: nat, p: seq<nat>, copy: seq<Write>)
    requires Loose(m, t, p) && IsCopy(copy, reclaim, m, t, p)
    ensures var r := DoAll(m, Program(reclaim, m, t, p, copy));
      && r.Keys == m.Keys && (forall a :: a in m && a !in p && a != t ==> r[a] == m[a])
      && r[p[0]] == TD(SW, 0, 0, 0, p[0], 0, p[0])
      && r[t] == Appended(reclaim, m, t, p, 0)
      && forall i :: 0 < i < |p| ==> r[p[i]] == Appended(reclaim, m, t, p, i)
  {
    hide DoAll, Marks, Clear, Linked, Program, CopyOf;
    ProgramIs(reclaim, m, t, p, copy);
    LinkedDoes(reclaim, m, t, p);
    var r := Linked(reclaim, m, t, p);
    ClearDoes(r, p[0]);
    var r1 := DoAll(r, Clear(p[0]));
    CopyOnly(copy, t, First(reclaim, m[p[0]], t, p));
    DoElsewhereAll(r1, copy, t);
    Covers(r1, copy, t, First(reclaim, m[p[0]], t, p));
    if |p| > 1 { assert m[p[0]].next == p[1]; }
    forall i | 0 < i < |p|
      ensures r[p[i]] == Appended(reclaim, m, t, p, i)
    {
      if i < |p| - 1 { assert m[p[i]].next == p[i + 1]; }
    }
  }

  lemma CopyOnly(ws: seq<Write>, a: nat, d: TD)
    requires CopyOf(ws, a, d)
    ensures forall i :: 0 <= i < |ws| ==> ws[i].at == a
  {
  }

  // ----- firmware and hardware together -----

  /** A queue of descriptors `body` that ends in t, a packet p on its way to it,
      the memory at first, and the program that appends p. */
  datatype Setup = Setup(reclaim: bool, body: seq<nat>, t: nat, p: seq<nat>, m: Mem, ws: seq<Write>) {
    /** The chain that the hardware will find in the end. */
    ghost function Chain(): seq<nat>
      requires |p| > 0
    {
      body + [t] + p[1..] + [p[0]]
    }

    /** The buffers along the chain. */
    ghost function Buffer(i: nat): nat
      requires i < |body| + |p| && AllIn(body, m) && AllIn(p, m)
    {
      if i < |body| then m[body[i]].data else m[p[i - |body|]].data
    }

    /** Descriptor i of the chain, as the hardware is to find it. */
    ghost function Want(i: nat): TD
      requires i < |body| + |p| && AllIn(body, m) && AllIn(p, m)
    {
      if i < |body| then m[body[i]] else Appended(reclaim, m, t, p, i - |body|)
    }

    ghost predicate OK() {
      && Loose(m, t, p) && Distinct(body + [t] + p) && AllIn(body, m)
      && forall i :: 0 <= i < |body| ==> m[body[i]].next == (body + [t])[i + 1]
    }
  }

  /** The memory, how many descriptors the hardware has passed, where it is, those
      it has passed in this run, and how many writes of the program have been made. */
  datatype State = State(m: Mem, pos: nat, h: nat, seen: set<nat>, k: nat)

  /** The next write of the program; the hardware filling in the descriptor where
      it is, and going on to the next; or the hardware filling in one that it has
      passed and still owns, such as the first of a packet, once it knows the last.
      It may give up ownership with either. */
  datatype Event =
    | Firmware
    | Hardware(own: nat, ctrl: nat, dataSize: nat, totalLen: nat, last: nat)
    | Amend(a: nat, own: nat, ctrl: nat, dataSize: nat, totalLen: nat, last: nat)

  ghost predicate Init(u: Setup, s: State) {
    s.m == u.m && s.k == 0 && s.pos <= |u.body| && s.h == (u.body + [u.t])[s.pos] && s.seen == {}
  }

  /** The hardware writes all but link and buffer. */
  function FillIn(d: TD, e: Event): TD
    requires !e.Firmware?
  {
    d.(own := e.own, ctrl := e.ctrl, dataSize := e.dataSize, totalLen := e.totalLen, last := e.last)
  }

  ghost predicate NextState(u: Setup, s: State, e: Event, s': State) {
    match e
    case Firmware => s.k < |u.ws| && s' == s.(m := Do(s.m, u.ws[s.k]), k := s.k + 1)
    case Hardware(_, _, _, _, _) =>
      && s.h in s.m && s.m[s.h].own == HW
      && s' == s.(m := s.m[s.h := FillIn(s.m[s.h], e)], pos := s.pos + 1, h := s.m[s.h].next, seen := s.seen + {s.h})
    case Amend(a, _, _, _, _, _) =>
      && a in s.seen && a in s.m && s.m[a].own == HW
      && s' == s.(m := s.m[a := FillIn(s.m[a], e)])
  }

  /** States reached by any interleaving. */
  ghost predicate Run(u: Setup, ss: seq<State>, es: seq<Event>) {
    && |ss| == |es| + 1 && Init(u, ss[0])
    && forall i :: 0 <= i < |es| ==> NextState(u, ss[i], es[i], ss[i + 1])
  }

  // ----- what every interleaving keeps -----

  /** A program that only writes to the packet and the terminator, gives the
      terminator to the hardware with its last write, and leaves the chain. */
  ghost predicate Publishes(u: Setup)
    requires u.OK()
  {
    && |u.ws| > 0
    && (forall i :: 0 <= i < |u.ws| ==> u.ws[i].at == u.t || u.ws[i].at in u.p)
    && (forall i :: 0 <= i < |u.ws| - 1 ==> Quiet(u, u.ws[i]))
    && DoAll(u.m, u.ws).Keys == u.m.Keys
    && (forall i :: |u.body| <= i < |u.body| + |u.p| ==> Filled(u, DoAll(u.m, u.ws), i))
    && u.p[0] in DoAll(u.m, u.ws) && DoAll(u.m, u.ws)[u.p[0]].own == SW
  }

  predicate Quiet(u: Setup, w: Write) { w.at == u.t && w.f.Own? ==> w.f.v == SW }

  /** Descriptor i of the chain is as the hardware is to find it. */
  ghost predicate Filled(u: Setup, m: Mem, i: nat)
    requires u.OK() && i < |u.body| + |u.p|
  {
    var c := u.Chain();
    c[i] in m && m[c[i]] == u.Want(i)
  }

  /** What it is to find holds the buffer, and leads to the next descriptor. */
  lemma WantLeads(u: Setup, i: nat)
    requires u.OK() && i < |u.body| + |u.p|
    ensures u.Want(i).data == u.Buffer(i) && u.Want(i).next == u.Chain()[i + 1]
    ensures i >= |u.body| ==> u.Want(i).own == HW
  {
    if i < |u.body| {
      BodyLinks(u);
    } else {
      assert u.Chain()[i + 1] == (u.p[1..] + [u.p[0]])[i - |u.body|];
    }
  }

  /** Before the last write, packet and terminator are as the program left them;
      after it, all that the hardware has not completed is. */
  ghost predicate Untouched(u: Setup, s: State)
    requires u.OK() && s.k <= |u.ws|
  {
    var r, c := DoAll(u.m, u.ws[..s.k]), u.Chain();
    forall i :: |u.body| <= i < |c| && (s.k == |u.ws| ==> s.pos <= i) ==>
      c[i] in r && c[i] in s.m && s.m[c[i]] == r[c[i]]
  }

  ghost predicate Inv(u: Setup, s: State)
    requires u.OK()
  {
    var c := u.Chain();
    && s.m.Keys == u.m.Keys && AllIn(c, u.m)
    && s.k <= |u.ws| && s.pos < |c| && s.h == c[s.pos] && (s.k < |u.ws| ==> s.pos <= |u.body|)
    && (forall i :: s.pos <= i < |u.body| ==> s.m[c[i]] == u.m[u.body[i]])
    && (forall a :: a in s.seen ==> a in c[..s.pos])
    && Untouched(u, s)
  }

  lemma ChainFacts(u: Setup)
    requires u.OK()
    ensures |u.p| > 0
    ensures var c := u.Chain();
      && |c| == |u.body| + |u.p| + 1 && Distinct(c) && AllIn(c, u.m) && c[|u.body|] == u.t && c[|c| - 1] == u.p[0]
      && (forall i :: 0 <= i < |u.body| ==> c[i] == u.body[i] && c[i] != u.t && c[i] !in u.p)
      && (forall i :: |u.body| < i < |c| - 1 ==> c[i] == u.p[i - |u.body|])
      && (forall i :: |u.body| < i < |c| ==> c[i] in u.p && c[i] != u.t)
  {
    ChainShape(u.body, u.t, u.p);
    Parted(u.body, u.t, u.p);
    forall i | 0 <= i < |u.Chain()|
      ensures u.Chain()[i] in u.m
    {
      if i < |u.body| { assert u.body[i] in u.m; }
      else if i > |u.body| && i < |u.body| + |u.p| { assert u.p[i - |u.body|] in u.m; }
    }
  }

  /** The chain is the body, the terminator and the packet in another order. */
  lemma ChainShape(body: seq<nat>, t: nat, p: seq<nat>)
    requires |p| > 0 && Distinct(body + [t] + p)
    ensures Distinct(body + [t] + p[1..] + [p[0]])
  {
    var c, d := body + [t] + p[1..] + [p[0]], body + [t] + p;
    forall i, j | 0 <= i < j < |c|
      ensures c[i] != c[j]
    {
      var x := if i <= |body| then i else i + 1;
      var y := if j <= |body| then j else if j == |c| - 1 then |body| + 1 else j + 1;
      assert d[x] == c[i] && d[y] == c[j] && x != y;
    }
  }

  lemma Parted(body: seq<nat>, t: nat, p: seq<nat>)
    requires Distinct(body + [t] + p)
    ensures t !in p && t !in body && forall i :: 0 <= i < |body| ==> body[i] !in p
  {
    var d := body + [t] + p;
    assert d[|body|] == t;
    assert forall i :: 0 <= i < |body| ==> d[i] == body[i];
    assert forall i :: 0 <= i < |p| ==> d[|body| + 1 + i] == p[i];
  }

  lemma BodyLinks(u: Setup)
    requires u.OK()
    ensures var c := u.Chain();
      forall i :: 0 <= i < |u.body| ==>
        u.m[u.body[i]].next == c[i + 1] && c[i] == u.body[i] && u.m[u.body[i]].data == u.Buffer(i)
  {
    hide Distinct;
    var c, d := u.Chain(), u.body + [u.t];
    assert forall i :: 0 <= i < |d| ==> c[i] == d[i];
    forall i | 0 <= i < |u.body|
      ensures u.m[u.body[i]].next == c[i + 1]
    {
      assert u.m[u.body[i]].next == d[i + 1];
    }
  }

  lemma InvInit(u: Setup, s: State)
    requires u.OK() && Publishes(u) && Init(u, s)
    ensures Inv(u, s)
  {
    hide Setup.OK, DoAll, Publishes;
    ChainFacts(u);
    BodyLinks(u);
    NothingYet(u);
    if s.pos < |u.body| { assert (u.body + [u.t])[s.pos] == u.body[s.pos]; }
  }

  lemma NothingYet(u: Setup)
    ensures u.ws[..0] == [] && DoAll(u.m, u.ws[..0]) == u.m
    ensures u.OK() && Publishes(u) ==> |u.ws| > 0
  {
  }

  /** A write of the program. */
  lemma InvFirmware(u: Setup, s: State, s': State)
    requires u.OK() && Publishes(u) && Inv(u, s) && NextState(u, s, Firmware, s')
    ensures Inv(u, s')
  {
    hide DoAll, Filled, Quiet, Distinct, Setup.OK, Setup.Chain, Setup.Want;
    ChainFacts(u);
    NextWrite(u, s.k);
  }

  lemma NextWrite(u: Setup, k: nat)
    requires k < |u.ws|
    ensures DoAll(u.m, u.ws[..k + 1]) == Do(DoAll(u.m, u.ws[..k]), u.ws[k])
  {
    assert u.ws[..k + 1][..k] == u.ws[..k];
  }

  /** Until its last write, the program keeps the hardware waiting. */
  lemma {:induction false} StillWaiting(u: Setup, k: nat)
    requires u.OK() && Publishes(u) && k < |u.ws|
    ensures u.t in DoAll(u.m, u.ws[..k]) && DoAll(u.m, u.ws[..k])[u.t].own == SW
  {
    if k > 0 {
      StillWaiting(u, k - 1);
      assert u.ws[..k][..k - 1] == u.ws[..k - 1];
      assert DoAll(u.m, u.ws[..k]) == Do(DoAll(u.m, u.ws[..k - 1]), u.ws[k - 1]);
      assert Quiet(u, u.ws[k - 1]);
    } else {
      assert u.ws[..0] == [];
    }
  }

  lemma Waits(u: Setup, s: State)
    requires u.OK() && Publishes(u) && Inv(u, s) && s.k < |u.ws|
    ensures u.t in s.m && s.m[u.t].own == SW
  {
    ChainFacts(u);
    StillWaiting(u, s.k);
    var c := u.Chain();
    assert s.m[c[|u.body|]] == DoAll(u.m, u.ws[..s.k])[c[|u.body|]];
  }

  /** What the hardware may act on. */
  lemma Sees(u: Setup, s: State)
    requires u.OK() && Publishes(u) && Inv(u, s) && s.m[s.h].own == HW
    ensures s.pos < |u.body| + |u.p|
    ensures s.m[s.h] == u.Want(s.pos) && s.m[s.h].next == u.Chain()[s.pos + 1]
    ensures s.pos >= |u.body| ==> s.k == |u.ws|
  {
    ChainFacts(u);
    var c := u.Chain();
    if s.pos >= |u.body| {
      if s.k < |u.ws| { Waits(u, s); }
      assert u.ws[..s.k] == u.ws;
      assert s.m[c[s.pos]] == DoAll(u.m, u.ws)[c[s.pos]];
      if s.pos < |c| - 1 { assert Filled(u, DoAll(u.m, u.ws), s.pos); }
    }
  }

  /** The hardware filling in the descriptor where it is. */
  lemma InvHardware(u: Setup, s: State, e: Event, s': State)
    requires u.OK() && Publishes(u) && Inv(u, s) && e.Hardware? && NextState(u, s, e, s')
    ensures Inv(u, s')
  {
    hide DoAll, Publishes, FillIn, Distinct, Setup.OK, Setup.Chain, Setup.Want;
    ChainFacts(u);
    Sees(u, s);
    var c := u.Chain();
    HardwareRest(c, s.pos, s, s.h, e);
    assert c[..s.pos + 1] == c[..s.pos] + [s.h];
  }

  /** The hardware filling in one that it has passed. */
  lemma InvAmend(u: Setup, s: State, e: Event, s': State)
    requires u.OK() && Publishes(u) && Inv(u, s) && e.Amend? && NextState(u, s, e, s')
    ensures Inv(u, s')
  {
    hide DoAll, Publishes, FillIn, Distinct, Setup.OK, Setup.Chain, Setup.Want;
    ChainFacts(u);
    var c := u.Chain();
    var i :| 0 <= i < s.pos && c[i] == e.a;
    HardwareRest(c, i, s, e.a, e);
  }

  /** It changes no other descriptor. */
  lemma HardwareRest(c: seq<nat>, k: nat, s: State, a: nat, e: Event)
    requires Distinct(c) && k < |c| && a == c[k] && a in s.m && !e.Firmware?
    ensures var m := s.m[a := FillIn(s.m[a], e)];
      m.Keys == s.m.Keys && forall i :: 0 <= i < |c| && i != k && c[i] in s.m ==> m[c[i]] == s.m[c[i]]
  {
    forall i | 0 <= i < |c| && i != k && c[i] in s.m
      ensures c[i] != a
    {
      assert c[i] != c[k];
    }
  }

  lemma {:induction false} InvRun(u: Setup, ss: seq<State>, es: seq<Event>, n: nat)
    requires u.OK() && Publishes(u) && Run(u, ss, es) && n < |ss|
    ensures Inv(u, ss[n])
  {
    hide Inv, Publishes, NextState;
    if n == 0 {
      InvInit(u, ss[0]);
    } else {
      InvRun(u, ss, es, n - 1);
      assert NextState(u, ss[n - 1], es[n - 1], ss[n]);
      match es[n - 1]
      case Firmware => InvFirmware(u, ss[n - 1], ss[n]);
      case Hardware(_, _, _, _, _) => InvHardware(u, ss[n - 1], es[n - 1], ss[n]);
      case Amend(_, _, _, _, _, _) => InvAmend(u, ss[n - 1], es[n - 1], ss[n]);
    }
  }

  /** In every state of every interleaving of dma_put or dma_reclaim with the
      hardware: the hardware is on the chain; a descriptor that it finds its own is,
      in every field, what it was before or what the packet is to be in the queue,
      so that it holds the right buffer and leads to the next; and if the old
      terminator is its own, the program is done, and all the rest of the chain is
      so, up to a terminator that software owns. */
  lemma Interleaved(reclaim: bool, body: seq<nat>, t: nat, p: seq<nat>, m: Mem, copy: seq<Write>,
                    ss: seq<State>, es: seq<Event>, n: nat)
    requires Loose(m, t, p) && IsCopy(copy, reclaim, m, t, p)
    requires var u := Setup(reclaim, body, t, p, m, Program(reclaim, m, t, p, copy));
      u.OK() && Run(u, ss, es) && n < |ss|
    ensures var u, s := Setup(reclaim, body, t, p, m, Program(reclaim, m, t, p, copy)), ss[n];
      var c := u.Chain();
      && s.pos < |c| && s.h == c[s.pos] && s.h in s.m
      && (s.m[s.h].own == HW ==>
            && s.pos + 1 < |c| && Filled(u, s.m, s.pos)
            && s.m[s.h].data == u.Buffer(s.pos) && s.m[s.h].next == c[s.pos + 1])
      && (t in s.m && s.m[t].own == HW && s.pos <= |body| ==>
            && s.k == |u.ws|
            && (forall i :: |body| <= i < |c| - 1 ==> Filled(u, s.m, i))
            && c[|c| - 1] in s.m && s.m[c[|c| - 1]].own == SW)
  {
    var u, s := Setup(reclaim, body, t, p, m, Program(reclaim, m, t, p, copy)), ss[n];
    ProgramPublishes(reclaim, u, copy);
    InvRun(u, ss, es, n);
    ChainFacts(u);
    if s.m[s.h].own == HW {
      Sees(u, s);
      WantLeads(u, s.pos);
    }
    if s.m[t].own == HW && s.pos <= |body| { Published(u, s); }
  }

  lemma Published(u: Setup, s: State)
    requires u.OK() && Publishes(u) && Inv(u, s) && u.t in s.m && s.m[u.t].own == HW && s.pos <= |u.body|
    ensures s.k == |u.ws| && (forall i :: |u.body| <= i < |u.body| + |u.p| ==> Filled(u, s.m, i))
    ensures u.p[0] in s.m && s.m[u.p[0]].own == SW
  {
    ChainFacts(u);
    var c := u.Chain();
    if s.k < |u.ws| { Waits(u, s); }
    assert u.ws[..s.k] == u.ws;
    forall i | |u.body| <= i < |u.body| + |u.p|
      ensures Filled(u, s.m, i)
    {
      assert Filled(u, DoAll(u.m, u.ws), i);
    }
    assert s.m[c[|c| - 1]] == DoAll(u.m, u.ws)[c[|c| - 1]];
  }

  lemma ProgramPublishes(reclaim: bool, u: Setup, copy: seq<Write>)
    requires u.OK() && u.reclaim == reclaim && IsCopy(copy, reclaim, u.m, u.t, u.p)
    requires u.ws == Program(reclaim, u.m, u.t, u.p, copy)
    ensures Publishes(u)
  {
    ChainFacts(u);
    ProgramDoes(reclaim, u.m, u.t, u.p, copy);
    ProgramQuiet(reclaim, u, copy);
    var c, r := u.Chain(), DoAll(u.m, u.ws);
    forall i | |u.body| <= i < |u.body| + |u.p|
      ensures Filled(u, r, i)
    {
      assert c[i] == if i == |u.body| then u.t else u.p[i - |u.body|];
    }
  }

  /** Writes to the packet, or to the terminator without giving it away. */
  ghost predicate Tame(u: Setup, ws: seq<Write>) {
    forall i :: 0 <= i < |ws| ==> Quiet(u, ws[i]) && (ws[i].at == u.t || ws[i].at in u.p)
  }

  lemma TameConcat(u: Setup, a: seq<Write>, b: seq<Write>)
    requires Tame(u, a) && Tame(u, b)
    ensures Tame(u, a + b)
  {
  }

  lemma TameMark(u: Setup, reclaim: bool, a: nat, len: nat, last: nat)
    requires a in u.p && a != u.t
    ensures Tame(u, Mark(reclaim, a, len, last)) && Tame(u, Clear(a)) && Tame(u, [Write(a, Last(u.t))])
      && forall b :: Tame(u, [Write(a, Next(b))])
  {
  }

  lemma {:induction false} TameMarks(u: Setup, reclaim: bool, p: seq<nat>, len: nat, last: nat)
    requires forall i :: 0 <= i < |p| ==> p[i] in u.p && p[i] != u.t
    ensures Tame(u, Marks(reclaim, p, len, last))
  {
    hide Mark, Tame;
    if |p| > 0 {
      var q := p[..|p| - 1];
      TameMarks(u, reclaim, q, len, last);
      TameMark(u, reclaim, p[|p| - 1], len, last);
      TameConcat(u, Marks(reclaim, q, len, last), Mark(reclaim, p[|p| - 1], len, last));
    } else {
      TameNone(u);
    }
  }

  lemma TameNone(u: Setup)
    ensures Tame(u, [])
  {
  }

  lemma TameCopy(u: Setup, copy: seq<Write>, d: TD)
    requires CopyOf(copy, u.t, d) && d.own == SW
    ensures Tame(u, copy)
  {
  }

  lemma ProgramQuiet(reclaim: bool, u: Setup, copy: seq<Write>)
    requires u.OK() && IsCopy(copy, reclaim, u.m, u.t, u.p) && u.ws == Program(reclaim, u.m, u.t, u.p, copy)
    ensures |u.ws| > 0 && forall i :: 0 <= i < |u.ws| ==> u.ws[i].at == u.t || u.ws[i].at in u.p
    ensures forall i :: 0 <= i < |u.ws| - 1 ==> Quiet(u, u.ws[i])
  {
    var p, t := u.p, u.t;
    var marks := Marks(reclaim, p, u.m[p[0]].totalLen, p[|p| - 1]);
    var w := [Write(p[|p| - 1], Next(p[0]))];
    var l := if reclaim || |p| == 1 then [Write(p[0], Last(t))] else [];
    var all := marks + w + l + Clear(p[0]) + copy;
    TameMarks(u, reclaim, p, u.m[p[0]].totalLen, p[|p| - 1]);
    TameMark(u, reclaim, p[0], 0, 0);
    TameMark(u, reclaim, p[|p| - 1], 0, 0);
    TameCopy(u, copy, First(reclaim, u.m[p[0]], t, p));
    TameNone(u);
    assert u.ws == all + [Write(t, Own(HW))];
    assert Tame(u, all) by {
      hide Tame, Marks, Clear;
      TameConcat(u, marks, w);
      TameConcat(u, marks + w, l);
      TameConcat(u, marks + w + l, Clear(p[0]));
      TameConcat(u, marks + w + l + Clear(p[0]), copy);
    }
    assert forall i :: 0 <= i < |all| ==> u.ws[i] == all[i];
  }
}
