/** Where the buffers of the carl9170 firmware are. The blocks up to a limit serve the
    packets of the host, the others those from the air, and neither kind ever gets to the
    queues of the other; and packets on their way to the air stay whole until they are
    given back. */
module DmaPlaces {
  import opened Dma
  import opened DmaHardware
  import opened DmaSystem
  import opened DmaEvents

  // ----- two kinds of blocks -----

  /** The queues of what comes from the air. */
  predicate Inward(k: nat) { k == RX || k == UP }

  /** The queues of what goes to the air. */
  predicate Outward(l: Layout, k: nat) { k == DOWN || l.Tx(k) || k == RETRY || l.Cab(k) }

  /** Blocks up to Down() are for what goes to the air, and later ones for what comes from it. */
  predicate Belongs(l: Layout, k: nat, x: nat) {
    && (1 <= x <= l.Down() ==> Outward(l, k) && !Inward(k))
    && (l.Down() < x <= l.blocks ==> Inward(k) && !Outward(l, k))
  }

  predicate Placed(l: Layout, k: nat, p: seq<nat>) {
    forall x :: x in p ==> Belongs(l, k, x)
  }

  predicate QueuePlaced(l: Layout, k: nat, c: Contents) {
    forall p :: p in c ==> Placed(l, k, p)
  }

  predicate AllPlaced(l: Layout, s: State) {
    forall k :: 0 <= k < |s.queues| ==> QueuePlaced(l, k, s.queues[k])
  }

  lemma EitherWay(l: Layout, k: nat)
    requires k < l.Queues()
    ensures Outward(l, k) <==> !Inward(k)
  {
  }

  lemma SameSide(l: Layout, i: nat, j: nat, p: seq<nat>)
    requires i < l.Queues() && j < l.Queues() && Inward(i) == Inward(j) && Placed(l, i, p)
    ensures Placed(l, j, p)
  {
    EitherWay(l, i);
    EitherWay(l, j);
  }

  lemma ArrivesPlaced(l: Layout, m: Move, p: seq<nat>)
    requires Placed(l, m.j, p)
    ensures QueuePlaced(l, m.j, Arrives(m, p))
  {
    hide Belongs;
  }

  /** A packet that stays on its side. */
  lemma MovedPlaced(l: Layout, s: State, m: Move)
    requires |s.queues| == l.Queues() && m.i < |s.queues| && m.j < |s.queues| && AllPlaced(l, s)
    requires Inward(m.i) == Inward(m.j)
    ensures AllPlaced(l, Moved(s, m))
  {
    hide Belongs, Placed, Arrives, Inward;
    var q := s.queues;
    if q[m.i] != [] {
      assert QueuePlaced(l, m.i, q[m.i]);
      SameSide(l, m.i, m.j, q[m.i][0]);
      ArrivesPlaced(l, m, q[m.i][0]);
      var t := q[m.i := q[m.i][1..]];
      assert QueuePlaced(l, m.i, t[m.i]);
      assert QueuePlaced(l, m.j, q[m.j]);
      assert QueuePlaced(l, m.j, t[m.j] + Arrives(m, q[m.i][0]));
    }
  }

  /** One queue changes. */
  lemma ChangedPlaced(l: Layout, s: State, k: nat, c: Contents, r: State)
    requires AllPlaced(l, s) && k < |s.queues| && r.queues == s.queues[k := c] && QueuePlaced(l, k, c)
    ensures AllPlaced(l, r)
  {
    hide QueuePlaced;
  }

  lemma GroupedPlaced(l: Layout, k: nat, c: Contents, i: nat, n: nat)
    requires QueuePlaced(l, k, c) && i + n <= |c|
    ensures QueuePlaced(l, k, Grouped(c, i, n))
  {
    hide Belongs;
    var b := c[i..i + n];
    forall x | x in Flat(b)
      ensures Belongs(l, k, x)
    {
      InFlat(b, x);
      var p :| p in b && x in p;
      assert p in c;
    }
  }

  lemma PopPlaced(l: Layout, s: State, k: nat, r: State)
    requires AllPlaced(l, s) && k < |s.queues| && s.queues[k] != [] && r.queues == s.queues[k := s.queues[k][1..]]
    ensures AllPlaced(l, r)
  {
    hide Placed;
    assert QueuePlaced(l, k, s.queues[k]);
    ChangedPlaced(l, s, k, s.queues[k][1..], r);
  }

  /** A buffer that is no block may go anywhere. */
  lemma PushPlaced(l: Layout, s: State, k: nat, y: nat, r: State)
    requires AllPlaced(l, s) && k < |s.queues| && y > l.blocks && r.queues == s.queues[k := s.queues[k] + [[y]]]
    ensures AllPlaced(l, r)
  {
    assert QueuePlaced(l, k, s.queues[k]);
    assert Placed(l, k, [y]);
    ChangedPlaced(l, s, k, s.queues[k] + [[y]], r);
  }

  lemma FillPlaced(l: Layout, s: State, k: nat, i: nat, n: nat)
    requires |s.queues| == l.Queues() && AllPlaced(l, s) && Legal(l, Fill(k, i, n))
    ensures AllPlaced(l, Next(l, s, Fill(k, i, n)))
  {
    hide Placed, Grouped;
    var c := s.queues[k];
    if i + n <= |c| {
      assert QueuePlaced(l, k, c);
      GroupedPlaced(l, k, c, i, n);
      ChangedPlaced(l, s, k, Grouped(c, i, n), Next(l, s, Fill(k, i, n)));
    }
  }

  /** Every event leaves the blocks on their side. */
  lemma NextPlaced(l: Layout, s: State, e: Event)
    requires |s.queues| == l.Queues() && AllPlaced(l, s) && Legal(l, e)
    ensures AllPlaced(l, Next(l, s, e))
  {
    hide AllPlaced, Moved;
    var r := Next(l, s, e);
    match e
    case Download(k) => MovedPlaced(l, s, Move(DOWN, k, false));
    case Refuse => MovedPlaced(l, s, Move(DOWN, DOWN, true));
    case Retry(k) => MovedPlaced(l, s, Move(k, RETRY, false));
    case Resend(i, k) => MovedPlaced(l, s, Move(i, k, false));
    case Receive => MovedPlaced(l, s, Move(RX, UP, false));
    case Filter => MovedPlaced(l, s, Move(RX, RX, true));
    case Upload =>
      if Starts(Head(s, UP), l.Rsp()) { PopPlaced(l, s, UP, r); } else { MovedPlaced(l, s, Move(UP, RX, true)); }
    case TxDone(k) =>
      if Starts(Head(s, k), s.frame) { PopPlaced(l, s, k, r); } else { MovedPlaced(l, s, Move(k, DOWN, true)); }
    case StatusIn => if s.rspFree { PushPlaced(l, s, UP, l.Rsp(), r); }
    case TxFw(super, k) => if s.frameFree { PushPlaced(l, s, k, super, r); }
    case Fill(k, i, n) => FillPlaced(l, s, k, i, n);
  }

  lemma {:induction false} StartedPlaced(l: Layout, n: nat)
    requires n <= l.blocks
    ensures AllPlaced(l, Started(l, n))
  {
    hide AllPlaced;
    if n == 0 {
      NonePlaced(l);
    } else {
      var s, k := Started(l, n - 1), if n - 1 < l.Down() then DOWN else RX;
      StartedPlaced(l, n - 1);
      BlockPlaced(l, s, k, n, Started(l, n));
    }
  }

  lemma NonePlaced(l: Layout)
    ensures AllPlaced(l, Started(l, 0))
  {
  }

  lemma BlockPlaced(l: Layout, s: State, k: nat, n: nat, r: State)
    requires AllPlaced(l, s) && k < |s.queues| && r.queues == s.queues[k := s.queues[k] + [[n]]]
    requires k == if n - 1 < l.Down() then DOWN else RX
    ensures AllPlaced(l, r)
  {
    assert QueuePlaced(l, k, s.queues[k]);
    assert Placed(l, k, [n]);
    ChangedPlaced(l, s, k, s.queues[k] + [[n]], r);
  }

  lemma {:induction false} RunPlaced(l: Layout, s: State, ee: seq<Event>)
    requires |s.queues| == l.Queues() && AllPlaced(l, s) && forall e :: e in ee ==> Legal(l, e)
    ensures AllPlaced(l, Run(l, s, ee))
  {
    hide Next, Legal, AllPlaced;
    if |ee| > 0 {
      var n := |ee| - 1;
      RunPlaced(l, s, ee[..n]);
      NextPlaced(l, Run(l, s, ee[..n]), ee[n]);
    }
  }

  /** A block that a queue has is on its side. */
  lemma {:induction false} HeldThere(l: Layout, k: nat, c: Contents, x: nat)
    requires QueuePlaced(l, k, c) && Times(c, x) > 0
    ensures Belongs(l, k, x)
  {
    hide Belongs;
    var p := FoundIn(c, x);
  }

  lemma FoundIn(c: Contents, x: nat) returns (p: seq<nat>)
    requires Times(c, x) > 0
    ensures p in c && x in p
  {
    InFlat(c, x);
    p :| p in c && x in p;
  }

  /** How often buffer x is in the queues of what comes from the air. */
  function Within(s: State, x: nat): nat
    requires |s.queues| >= CAB
  {
    Times(s.queues[RX], x) + Times(s.queues[UP], x)
  }

  lemma {:induction false} CountOne(q: seq<Contents>, x: nat, k: nat)
    requires k < |q| && forall j :: 0 <= j < |q| && j != k ==> Times(q[j], x) == 0
    ensures Count(q, x) == Times(q[k], x)
  {
    hide Times;
    var n := |q| - 1;
    if k == n { NoCount(q[..n], x); } else { CountOne(q[..n], x, k); }
  }

  lemma {:induction false} NoCount(q: seq<Contents>, x: nat)
    requires forall j :: 0 <= j < |q| ==> Times(q[j], x) == 0
    ensures Count(q, x) == 0
  {
    hide Times;
    if |q| > 0 { NoCount(q[..|q| - 1], x); }
  }

  lemma {:induction false} CountTwo(q: seq<Contents>, x: nat, k: nat, m: nat)
    requires k < m < |q| && forall j :: 0 <= j < |q| && j != k && j != m ==> Times(q[j], x) == 0
    ensures Count(q, x) == Times(q[k], x) + Times(q[m], x)
  {
    hide Times;
    var n := |q| - 1;
    if m == n { CountOne(q[..n], x, k); } else { CountTwo(q[..n], x, k, m); }
  }

  /** From dma_init_descriptors on, after any events: a block up to Down() is in exactly one
      queue of what goes to the air, and a later block is in exactly one of the two queues of
      what comes from the air. */
  lemma EachOnItsSide(l: Layout, ee: seq<Event>, x: nat)
    requires (forall e :: e in ee ==> Legal(l, e)) && 1 <= x <= l.blocks
    ensures var s := Run(l, Initial(l), ee);
      && Within(s, x) == (if x <= l.Down() then 0 else 1) && Count(s.queues, x) == 1
      && forall k :: 0 <= k < |s.queues| && Times(s.queues[k], x) > 0 ==>
          if x <= l.Down() then k == DOWN || l.Tx(k) || k == RETRY || l.Cab(k) else k == RX || k == UP
  {
    hide Next, Legal, Count, Times, QueuePlaced, AllAlone;
    var s := Run(l, Initial(l), ee);
    StartedPlaced(l, l.blocks);
    RunPlaced(l, Initial(l), ee);
    InitialSound(l);
    RunSound(l, Initial(l), ee);
    assert Held(l, s, x) == 1;
    forall k | 0 <= k < |s.queues| && Times(s.queues[k], x) > 0
      ensures Belongs(l, k, x)
    {
      HeldThere(l, k, s.queues[k], x);
    }
    if x > l.Down() { CountTwo(s.queues, x, UP, RX); }
  }

  // ----- a packet that is filtered -----

  /** A packet from the air that is dropped leaves its queue and comes back to the end of it
      buffer by buffer; nothing else changes, so the host never sees it. */
  lemma FilterGivesBack(l: Layout, s: State)
    requires |s.queues| == l.Queues() && s.queues[RX] != []
    ensures var r, p := Next(l, s, Filter), s.queues[RX][0];
      && (forall k :: 0 <= k < |s.queues| && k != RX ==> r.queues[k] == s.queues[k])
      && |r.queues[RX]| == |s.queues[RX]| - 1 + |p| && r.queues[RX][..|s.queues[RX]| - 1] == s.queues[RX][1..]
      && (forall i :: 0 <= i < |p| ==> r.queues[RX][|s.queues[RX]| - 1 + i] == [p[i]])
      && r.rspFree == s.rspFree && r.frameFree == s.frameFree && r.frame == s.frame
  {
  }

  // ----- packets on their way to the air -----

  predicate InAir(k: nat) { k != UP && k != DOWN && k != RX }

  /** How often packet p is in queue k, if that leads to the air. */
  function Here(k: nat, c: Contents, p: seq<nat>): nat {
    if InAir(k) then multiset(c)[p] else 0
  }

  /** How often packet p is on its way in the first n queues. */
  function Air(q: seq<Contents>, n: nat, p: seq<nat>): nat
    requires n <= |q|
  {
    if n == 0 then 0 else Air(q, n - 1, p) + Here(n - 1, q[n - 1], p)
  }

  function IsAt(c: Contents, p: seq<nat>): nat { if c != [] && c[0] == p then 1 else 0 }

  lemma {:induction false} AirUpdate(q: seq<Contents>, n: nat, k: nat, c: Contents, p: seq<nat>)
    requires n <= |q| && k < |q|
    ensures Air(q[k := c], n, p) == Air(q, n, p) + if k < n then Here(k, c, p) - Here(k, q[k], p) else 0
  {
    hide Here;
    if n > 0 { AirUpdate(q, n - 1, k, c, p); }
  }

  lemma HereHead(k: nat, c: Contents, p: seq<nat>)
    requires c != []
    ensures Here(k, c, p) == Here(k, c[1..], p) + if InAir(k) then IsAt(c, p) else 0
  {
    assert c == [c[0]] + c[1..];
  }

  lemma HereMore(k: nat, c: Contents, x: seq<nat>, p: seq<nat>)
    ensures Here(k, c + [x], p) == Here(k, c, p) + if InAir(k) && x == p then 1 else 0
  {
  }

  /** What putting a packet to another queue, whole, does to the packets on their way. */
  lemma AirPut(q: seq<Contents>, i: nat, j: nat, p: seq<nat>)
    requires i < |q| && j < |q|
    ensures Air(Step(q, Move(i, j, false)), |q|, p)
         == Air(q, |q|, p) + (if InAir(j) then IsAt(q[i], p) else 0) - if InAir(i) then IsAt(q[i], p) else 0
  {
    hide Air, InAir, Here;
    if q[i] != [] {
      var t := q[i := q[i][1..]];
      HereHead(i, q[i], p);
      AirUpdate(q, |q|, i, q[i][1..], p);
      HereMore(j, t[j], q[i][0], p);
      AirUpdate(t, |q|, j, t[j] + [q[i][0]], p);
    }
  }

  /** What giving back the buffers of a packet does. */
  lemma AirBack(q: seq<Contents>, i: nat, j: nat, p: seq<nat>)
    requires i < |q| && j < |q| && !InAir(j)
    ensures Air(Step(q, Move(i, j, true)), |q|, p) == Air(q, |q|, p) - if InAir(i) then IsAt(q[i], p) else 0
  {
    hide Air, Arrives;
    if q[i] != [] {
      var t := q[i := q[i][1..]];
      HereHead(i, q[i], p);
      AirUpdate(q, |q|, i, q[i][1..], p);
      AirUpdate(t, |q|, j, t[j] + Arrives(Move(i, j, true), q[i][0]), p);
    }
  }

  lemma AirFill(l: Layout, s: State, k: nat, i: nat, n: nat, p: seq<nat>)
    requires |s.queues| == l.Queues() && Legal(l, Fill(k, i, n))
    ensures Air(Next(l, s, Fill(k, i, n)).queues, |s.queues|, p) == Air(s.queues, |s.queues|, p)
  {
    hide Air, Grouped;
    var q := s.queues;
    if i + n <= |q[k]| {
      if n == 1 { OneGroup(q[k], i); }
      AirUpdate(q, |q|, k, Grouped(q[k], i, n), p);
    }
  }

  lemma OneGroup(c: Contents, i: nat)
    requires i < |c|
    ensures Grouped(c, i, 1) == c
  {
    FlatOne(c[i]);
    assert c[i..i + 1] == [c[i]];
  }

  lemma AirSpecial(l: Layout, s: State, e: Event, p: seq<nat>)
    requires |s.queues| == l.Queues() && Legal(l, e) && (e.StatusIn? || e.TxFw?)
    ensures Air(Next(l, s, e).queues, |s.queues|, p)
         == Air(s.queues, |s.queues|, p) + if e.TxFw? && s.frameFree && p == [e.super] then 1 else 0
  {
    hide Air;
    var q := s.queues;
    var k, x := if e.TxFw? then e.k else UP, if e.TxFw? then e.super else l.Rsp();
    HereMore(k, q[k], [x], p);
    AirUpdate(q, |q|, k, q[k] + [[x]], p);
  }

  lemma AirPop(q: seq<Contents>, k: nat, p: seq<nat>)
    requires k < |q| && q[k] != []
    ensures Air(q[k := q[k][1..]], |q|, p) == Air(q, |q|, p) - if InAir(k) then IsAt(q[k], p) else 0
  {
    hide Air, InAir, Here;
    HereHead(k, q[k], p);
    AirUpdate(q, |q|, k, q[k][1..], p);
  }

  /** How an event changes how often packet p is on its way. */
  function Change(l: Layout, s: State, e: Event, p: seq<nat>): int
    requires |s.queues| == l.Queues() && Legal(l, e)
  {
    if e.Download? then IsAt(s.queues[DOWN], p)
    else if e.TxDone? then 0 - IsAt(s.queues[e.k], p)
    else if e.TxFw? && s.frameFree && p == [e.super] then 1
    else 0
  }

  /** Packets on their way to the air stay whole, and none is lost or doubled: only a packet
      of the host that is sent, or a frame of the firmware, is added, and only a packet that
      is given back is taken away. Trying again later only moves a packet. */
  lemma AirKept(l: Layout, s: State, e: Event, p: seq<nat>)
    requires |s.queues| == l.Queues() && Legal(l, e)
    ensures Air(Next(l, s, e).queues, |s.queues|, p) == Air(s.queues, |s.queues|, p) + Change(l, s, e, p)
  {
    hide Air, Step, Grouped, IsAt;
    var q := s.queues;
    match e {
      case Download(k) => AirPut(q, DOWN, k, p);
      case Refuse => AirBack(q, DOWN, DOWN, p);
      case Retry(k) => AirPut(q, k, RETRY, p);
      case Resend(i, k) => AirPut(q, i, k, p);
      case Receive => AirPut(q, RX, UP, p);
      case Filter => AirBack(q, RX, RX, p);
      case Upload =>
        if Starts(Head(s, UP), l.Rsp()) { AirPop(q, UP, p); } else { AirBack(q, UP, RX, p); }
      case TxDone(k) =>
        if Starts(Head(s, k), s.frame) { AirPop(q, k, p); } else { AirBack(q, k, DOWN, p); }
      case StatusIn => AirSpecial(l, s, e, p);
      case TxFw(super, k) => AirSpecial(l, s, e, p);
      case Fill(k, i, n) => AirFill(l, s, k, i, n, p);
    }
  }
}
