/** The buffers of the carl9170 firmware as a state machine: what each handler
    of hostif.c, wlan.c and usb/main.c does to the packets of all queues and to
    the two special descriptors, and what the hardware does in between.  In
    every reachable state each buffer is in exactly one place. */
module DmaEvents {
  import opened Dma
  import opened DmaHardware
  import opened DmaSystem

  // The queues, in the order in which they get their terminators.
  const UP: nat := 0
  const DOWN: nat := 1
  const TX: nat := 2
  const RETRY: nat := 7
  const RX: nat := 8
  const CAB: nat := 9

  /** Blocks have buffers 1 to `blocks`; then comes the response buffer, and
      above it the frames that the firmware sends itself. */
  datatype Layout = Layout(blocks: nat, cabs: nat) {
    function Queues(): nat { CAB + cabs }

    /** AR9170_TX_BLOCK_NUMBER */
    function Down(): nat { blocks * 2 / 3 }

    function Rsp(): nat { blocks + 1 }

    predicate Tx(k: nat) { TX <= k < RETRY }

    predicate Cab(k: nat) { CAB <= k < Queues() }
  }

  /** The packets of every queue; int_desc_available, where int_desc has the
      response buffer; fw_desc_available, where fw_desc has the last frame of the
      firmware, fw_desc_data. */
  datatype State = State(queues: seq<Contents>, rspFree: bool, frameFree: bool, frame: nat)

  datatype Event =
    | Download(k: nat)           // handle_download, wlan_tx: a packet of the host is sent
    | Refuse                     // handle_download, handle_download_exception: or given back
    | Retry(k: nat)              // wlan_tx_status: tried again later
    | Resend(i: nat, k: nat)     // handle_tx_completion, wlan_cab_flush_queue
    | TxDone(k: nat)             // wlan_tx_status: given back
    | Receive                    // handle_rx: a packet from the air goes to the host
    | Filter                     // handle_rx: or is dropped
    | Upload                     // handle_upload: the host has it
    | StatusIn                   // usb_status_in: the response buffer goes to the host
    | TxFw(super: nat, k: nat)   // wlan_tx_fw: the firmware sends a frame of its own
    | Fill(k: nat, i: nat, n: nat)  // the hardware is done with n packets, as one

  /** The queues each handler works on.  Only where it receives does the
      hardware tie descriptors together. */
  predicate Legal(l: Layout, e: Event) {
    match e
    case Download(k) => l.Tx(k) || l.Cab(k)
    case Retry(k) => l.Tx(k)
    case Resend(i, k) => (i == RETRY || l.Cab(i)) && l.Tx(k)
    case TxDone(k) => l.Tx(k)
    case TxFw(super, k) => super > l.Rsp() && (l.Tx(k) || l.Cab(k))
    case Fill(k, i, n) => k < l.Queues() && n > 0 && (n == 1 || k == RX || k == DOWN)
    case _ => true
  }

  function Head(s: State, k: nat): (p: seq<nat>)
    requires k < |s.queues|
  {
    if s.queues[k] == [] then [] else s.queues[k][0]
  }

  predicate Starts(p: seq<nat>, x: nat) { |p| > 0 && p[0] == x }

  function Moved(s: State, m: Move): State
    requires m.i < |s.queues| && m.j < |s.queues|
  {
    s.(queues := Step(s.queues, m))
  }

  function Next(l: Layout, s: State, e: Event): (r: State)
    requires |s.queues| == l.Queues() && Legal(l, e)
    ensures |r.queues| == |s.queues|
  {
    var q := s.queues;
    match e
    case Download(k) => Moved(s, Move(DOWN, k, false))
    case Refuse => Moved(s, Move(DOWN, DOWN, true))
    case Retry(k) => Moved(s, Move(k, RETRY, false))
    case Resend(i, k) => Moved(s, Move(i, k, false))
    case Receive => Moved(s, Move(RX, UP, false))
    case Filter => Moved(s, Move(RX, RX, true))
    case Upload =>
      if Starts(Head(s, UP), l.Rsp()) then s.(queues := q[UP := q[UP][1..]], rspFree := true)
      else Moved(s, Move(UP, RX, true))
    case TxDone(k) =>
      if Starts(Head(s, k), s.frame) then s.(queues := q[k := q[k][1..]], frameFree := true)
      else Moved(s, Move(k, DOWN, true))
    case StatusIn =>
      if s.rspFree then s.(queues := q[UP := q[UP] + [[l.Rsp()]]], rspFree := false) else s
    case TxFw(super, k) =>
      if s.frameFree then s.(queues := q[k := q[k] + [[super]]], frameFree := false, frame := super) else s
    case Fill(k, i, n) =>
      if i + n <= |q[k]| then s.(queues := q[k := Grouped(q[k], i, n)]) else s
  }

  /** In how many places buffer x is. */
  function Held(l: Layout, s: State, x: nat): nat {
    Count(s.queues, x)
    + (if s.rspFree && x == l.Rsp() then 1 else 0)
    + (if s.frameFree && x == s.frame then 1 else 0)
  }

  /** The blocks, the response buffer, and the frame of the firmware. */
  predicate InUse(l: Layout, s: State, x: nat) {
    1 <= x <= l.Rsp() || x == s.frame
  }

  /** The response buffer is only ever sent to the host, and the frame of the
      firmware to the air; each is a packet of its own. */
  predicate Alone(l: Layout, frame: nat, k: nat, p: seq<nat>) {
    && (l.Rsp() in p ==> k == UP && p == [l.Rsp()])
    && (frame in p ==> k != UP && k != DOWN && k != RX && p == [frame])
  }

  predicate QueueAlone(l: Layout, frame: nat, k: nat, c: Contents) {
    forall p :: p in c ==> Alone(l, frame, k, p)
  }

  predicate AllAlone(l: Layout, s: State) {
    forall k :: 0 <= k < |s.queues| ==> QueueAlone(l, s.frame, k, s.queues[k])
  }

  ghost predicate Once(l: Layout, s: State) {
    forall x :: Held(l, s, x) == if InUse(l, s, x) then 1 else 0
  }

  ghost predicate Sound(l: Layout, s: State) {
    |s.queues| == l.Queues() && (s.frame == 0 || s.frame > l.Rsp()) && AllAlone(l, s) && Once(l, s)
  }

  // ----- dma_init_descriptors -----

  /** The first n blocks have been handed out. */
  function Started(l: Layout, n: nat): (s: State)
    ensures |s.queues| == l.Queues() && s.frame == 0
  {
    if n == 0 then State(seq(l.Queues(), _ => []), true, true, 0)
    else
      var s, k := Started(l, n - 1), if n - 1 < l.Down() then DOWN else RX;
      s.(queues := s.queues[k := s.queues[k] + [[n]]])
  }

  function Initial(l: Layout): State { Started(l, l.blocks) }

  function Run(l: Layout, s: State, ee: seq<Event>): (r: State)
    requires |s.queues| == l.Queues() && forall e :: e in ee ==> Legal(l, e)
    ensures |r.queues| == |s.queues|
  {
    if |ee| == 0 then s else Next(l, Run(l, s, ee[..|ee| - 1]), ee[|ee| - 1])
  }

  // ----- counting -----

  /** One queue changes. */
  lemma CountAt(q: seq<Contents>, k: nat, c: Contents, x: nat)
    requires k < |q|
    ensures Count(q[k := c], x) == Count(q, x) - Times(q[k], x) + Times(c, x)
  {
    CountUpdate(q, k, c, x);
  }

  lemma TimesPacket(p: seq<nat>, x: nat)
    ensures Times([p], x) == multiset(p)[x]
  {
    FlatOne(p);
  }

  lemma TimesHead(c: Contents, x: nat)
    requires c != []
    ensures Times(c, x) == multiset(c[0])[x] + Times(c[1..], x)
  {
    assert [c[0]] + c[1..] == c;
    TimesConcat([c[0]], c[1..], x);
    TimesPacket(c[0], x);
  }

  lemma TimesAdd(c: Contents, y: nat, x: nat)
    ensures Times(c + [[y]], x) == Times(c, x) + if x == y then 1 else 0
  {
    TimesConcat(c, [[y]], x);
    TimesPacket([y], x);
  }

  /** A buffer that is counted nowhere is in no packet. */
  lemma {:induction false} NotIn(c: Contents, x: nat, p: seq<nat>)
    requires Times(c, x) == 0 && p in c
    ensures x !in p
    decreases |c|
  {
    TimesHead(c, x);
    if p == c[0] {
      assert multiset(p)[x] == 0;
    } else {
      NotIn(c[1..], x, p);
    }
  }

  lemma {:induction false} NotCounted(q: seq<Contents>, x: nat, k: nat)
    requires Count(q, x) == 0 && k < |q|
    ensures Times(q[k], x) == 0
  {
    CountUpdate(q, k, [], x);
  }

  /** Grouping keeps the buffers. */
  lemma GroupTimes(c: Contents, i: nat, n: nat, x: nat)
    requires i + n <= |c|
    ensures Times(Grouped(c, i, n), x) == Times(c, x)
  {
    var a, b, d := c[..i], c[i..i + n], c[i + n..];
    assert a + b + d == c && a + [Flat(b)] + d == Grouped(c, i, n);
    TimesConcat(a + b, d, x);
    TimesConcat(a, b, x);
    TimesConcat(a + [Flat(b)], d, x);
    TimesConcat(a, [Flat(b)], x);
    FlatOne(Flat(b));
  }

  lemma {:induction false} InFlat(c: Contents, x: nat)
    requires x in Flat(c)
    ensures exists p :: p in c && x in p
  {
    var n := |c| - 1;
    if x in c[n] {
      assert c[n] in c;
    } else {
      InFlat(c[..n], x);
      var p :| p in c[..n] && x in p;
      assert p in c;
    }
  }

  // ----- every event keeps the invariant -----

  lemma MovedHeld(l: Layout, s: State, m: Move)
    requires m.i < |s.queues| && m.j < |s.queues| && Once(l, s)
    ensures Once(l, Moved(s, m))
  {
    hide Step, Count;
    var r := Moved(s, m);
    forall x
      ensures Held(l, r, x) == if InUse(l, r, x) then 1 else 0
    {
      StepConserves(s.queues, m, x);
      assert Held(l, s, x) == if InUse(l, s, x) then 1 else 0;
    }
  }

  /** A packet may go where it is not reclaimed and may stand alone, or where
      neither special buffer is in it. */
  predicate MayMove(l: Layout, frame: nat, m: Move, p: seq<nat>) {
    (l.Rsp() !in p && frame !in p) || (!m.reclaim && Alone(l, frame, m.j, p))
  }

  lemma ArrivesAlone(l: Layout, frame: nat, m: Move, p: seq<nat>)
    requires MayMove(l, frame, m, p)
    ensures QueueAlone(l, frame, m.j, Arrives(m, p))
  {
  }

  lemma MovedAlone(l: Layout, s: State, m: Move)
    requires |s.queues| == l.Queues() && m.i < |s.queues| && m.j < |s.queues| && AllAlone(l, s)
    requires s.queues[m.i] != [] ==> MayMove(l, s.frame, m, s.queues[m.i][0])
    ensures AllAlone(l, Moved(s, m))
  {
    hide Alone, MayMove, Arrives;
    var q := s.queues;
    if q[m.i] != [] {
      ArrivesAlone(l, s.frame, m, q[m.i][0]);
      var t := q[m.i := q[m.i][1..]];
      assert QueueAlone(l, s.frame, m.i, q[m.i]);
      assert QueueAlone(l, s.frame, m.i, t[m.i]);
      assert QueueAlone(l, s.frame, m.j, q[m.j]);
      assert QueueAlone(l, s.frame, m.j, t[m.j] + Arrives(m, q[m.i][0]));
    }
  }

  lemma MovedSound(l: Layout, s: State, m: Move)
    requires Sound(l, s) && m.i < |s.queues| && m.j < |s.queues|
    requires s.queues[m.i] != [] ==> MayMove(l, s.frame, m, s.queues[m.i][0])
    ensures Sound(l, Moved(s, m))
  {
    hide Step, Once, AllAlone, MayMove;
    MovedHeld(l, s, m);
    MovedAlone(l, s, m);
  }

  lemma HeadAlone(l: Layout, s: State, k: nat)
    requires |s.queues| == l.Queues() && AllAlone(l, s) && k < |s.queues|
    ensures Alone(l, s.frame, k, Head(s, k))
  {
    if s.queues[k] != [] {
      assert QueueAlone(l, s.frame, k, s.queues[k]) && s.queues[k][0] in s.queues[k];
    }
  }

  /** The queues after one of them changed. */
  lemma ChangedAlone(l: Layout, s: State, k: nat, c: Contents, r: State)
    requires AllAlone(l, s) && k < |s.queues| && r.queues == s.queues[k := c] && r.frame == s.frame
    requires QueueAlone(l, s.frame, k, c)
    ensures AllAlone(l, r)
  {
    hide QueueAlone;
  }

  /** The response buffer comes back. */
  lemma UploadSound(l: Layout, s: State)
    requires Sound(l, s) && Starts(Head(s, UP), l.Rsp())
    ensures !s.rspFree && Head(s, UP) == [l.Rsp()] && Sound(l, Next(l, s, Upload))
  {
    hide Count, Times;
    var r, c, y := Next(l, s, Upload), s.queues[UP], l.Rsp();
    HeadAlone(l, s, UP);
    assert QueueAlone(l, s.frame, UP, c) && c[0] == [y];
    ChangedAlone(l, s, UP, c[1..], r);
    Popped(l, s, r, UP, y);
  }

  /** The frame of the firmware comes back. */
  lemma TxDoneSound(l: Layout, s: State, k: nat)
    requires Sound(l, s) && l.Tx(k) && Starts(Head(s, k), s.frame)
    ensures !s.frameFree && Head(s, k) == [s.frame] && Sound(l, Next(l, s, TxDone(k)))
  {
    hide Count, Times;
    var r, c := Next(l, s, TxDone(k)), s.queues[k];
    HeadAlone(l, s, k);
    assert QueueAlone(l, s.frame, k, c) && c[0] == [s.frame];
    ChangedAlone(l, s, k, c[1..], r);
    Popped(l, s, r, k, s.frame);
  }

  lemma CountPop(q: seq<Contents>, k: nat, y: nat, x: nat)
    requires k < |q| && q[k] != [] && q[k][0] == [y]
    ensures Count(q, x) == Count(q[k := q[k][1..]], x) + if x == y then 1 else 0
  {
    hide Count, Times;
    CountAt(q, k, q[k][1..], x);
    TimesHead(q[k], x);
  }

  lemma Popped(l: Layout, s: State, r: State, k: nat, y: nat)
    requires Once(l, s) && k < |s.queues| && s.queues[k] != [] && s.queues[k][0] == [y] && s.frame != l.Rsp()
    requires r.queues == s.queues[k := s.queues[k][1..]] && r.frame == s.frame
    requires y == l.Rsp() ==> r.rspFree && r.frameFree == s.frameFree
    requires y == s.frame ==> r.frameFree && r.rspFree == s.rspFree
    requires y == l.Rsp() || y == s.frame
    ensures Once(l, r)
    ensures y == l.Rsp() ==> !s.rspFree
    ensures y == s.frame ==> !s.frameFree
  {
    hide Count, Times;
    CountPop(s.queues, k, y, y);
    assert Held(l, s, y) == 1;
    forall x
      ensures Held(l, r, x) == if InUse(l, r, x) then 1 else 0
    {
      CountPop(s.queues, k, y, x);
      assert Held(l, s, x) == if InUse(l, s, x) then 1 else 0;
    }
  }

  lemma CountPush(q: seq<Contents>, k: nat, y: nat, x: nat)
    requires k < |q|
    ensures Count(q[k := q[k] + [[y]]], x) == Count(q, x) + if x == y then 1 else 0
  {
    hide Count, Times;
    CountAt(q, k, q[k] + [[y]], x);
    TimesAdd(q[k], y, x);
  }

  lemma StatusSound(l: Layout, s: State)
    requires Sound(l, s)
    ensures Sound(l, Next(l, s, StatusIn))
  {
    hide Count, Times;
    var r, c, y := Next(l, s, StatusIn), s.queues[UP], l.Rsp();
    if s.rspFree {
      assert QueueAlone(l, s.frame, UP, c);
      ChangedAlone(l, s, UP, c + [[y]], r);
      forall x
        ensures Held(l, r, x) == if InUse(l, r, x) then 1 else 0
      {
        CountPush(s.queues, UP, y, x);
        assert Held(l, s, x) == if InUse(l, s, x) then 1 else 0;
      }
    }
  }

  /** The new frame was nowhere, and the old one is nowhere now. */
  lemma TxFwSound(l: Layout, s: State, super: nat, k: nat)
    requires Sound(l, s) && Legal(l, TxFw(super, k))
    ensures Sound(l, Next(l, s, TxFw(super, k)))
  {
    hide Count, Times;
    var r := Next(l, s, TxFw(super, k));
    if s.frameFree {
      assert Held(l, s, super) == if InUse(l, s, super) then 1 else 0;
      assert Count(s.queues, super) == 0;
      NewFrame(l, s, super);
      assert QueueAlone(l, super, k, s.queues[k]);
      ChangedAlone(l, s.(frame := super), k, s.queues[k] + [[super]], r);
      forall x
        ensures Held(l, r, x) == if InUse(l, r, x) then 1 else 0
      {
        CountPush(s.queues, k, super, x);
        assert Held(l, s, x) == if InUse(l, s, x) then 1 else 0;
      }
    }
  }

  lemma NewFrame(l: Layout, s: State, super: nat)
    requires AllAlone(l, s) && Count(s.queues, super) == 0
    ensures AllAlone(l, s.(frame := super))
  {
    hide Count, Times;
    forall k | 0 <= k < |s.queues|
      ensures QueueAlone(l, super, k, s.queues[k])
    {
      NotCounted(s.queues, super, k);
      assert QueueAlone(l, s.frame, k, s.queues[k]);
      forall p | p in s.queues[k]
        ensures Alone(l, super, k, p)
      {
        NotIn(s.queues[k], super, p);
      }
    }
  }

  lemma FillSound(l: Layout, s: State, k: nat, i: nat, n: nat)
    requires Sound(l, s) && Legal(l, Fill(k, i, n))
    ensures Sound(l, Next(l, s, Fill(k, i, n)))
  {
    hide Count, Times, Grouped;
    var r, c := Next(l, s, Fill(k, i, n)), s.queues[k];
    if i + n <= |c| {
      assert QueueAlone(l, s.frame, k, c);
      GroupedAlone(l, s.frame, k, c, i, n);
      ChangedAlone(l, s, k, Grouped(c, i, n), r);
      forall x
        ensures Held(l, r, x) == if InUse(l, r, x) then 1 else 0
      {
        GroupTimes(c, i, n, x);
        CountAt(s.queues, k, Grouped(c, i, n), x);
        assert Held(l, s, x) == if InUse(l, s, x) then 1 else 0;
      }
    }
  }

  /** A group has neither special buffer, unless it is one packet. */
  lemma GroupedAlone(l: Layout, frame: nat, k: nat, c: Contents, i: nat, n: nat)
    requires QueueAlone(l, frame, k, c) && i + n <= |c| && n > 0 && (n == 1 || k == RX || k == DOWN)
    ensures QueueAlone(l, frame, k, Grouped(c, i, n))
  {
    var b := c[i..i + n];
    if n == 1 {
      assert b == [c[i]];
      FlatOne(c[i]);
      assert Grouped(c, i, n) == c;
    } else {
      forall x | x in Flat(b)
        ensures x != l.Rsp() && x != frame
      {
        InFlat(b, x);
        var p :| p in b && x in p;
        assert p in c && Alone(l, frame, k, p);
      }
      assert Alone(l, frame, k, Flat(b));
    }
  }

  lemma NextSound(l: Layout, s: State, e: Event)
    requires Sound(l, s) && Legal(l, e)
    ensures Sound(l, Next(l, s, e))
  {
    hide Sound, Moved, Starts, MayMove;
    OnlyPlain(l, s, e);
    match e
    case Download(k) => MovedSound(l, s, Move(DOWN, k, false));
    case Refuse => MovedSound(l, s, Move(DOWN, DOWN, true));
    case Retry(k) => MovedSound(l, s, Move(k, RETRY, false));
    case Resend(i, k) => MovedSound(l, s, Move(i, k, false));
    case Receive => MovedSound(l, s, Move(RX, UP, false));
    case Filter => MovedSound(l, s, Move(RX, RX, true));
    case Upload =>
      if Starts(Head(s, UP), l.Rsp()) { UploadSound(l, s); } else { MovedSound(l, s, Move(UP, RX, true)); }
    case TxDone(k) =>
      if Starts(Head(s, k), s.frame) { TxDoneSound(l, s, k); } else { MovedSound(l, s, Move(k, DOWN, true)); }
    case StatusIn => StatusSound(l, s);
    case TxFw(super, k) => TxFwSound(l, s, super, k);
    case Fill(k, i, n) => FillSound(l, s, k, i, n);
  }

  /** The packet a handler moves on is no special buffer, or may go where it
      sends it. */
  lemma OnlyPlain(l: Layout, s: State, e: Event)
    requires Sound(l, s) && Legal(l, e)
    ensures |s.queues| == l.Queues()
    ensures e.Download? ==> MayMove(l, s.frame, Move(DOWN, e.k, false), Head(s, DOWN))
    ensures e.Refuse? ==> MayMove(l, s.frame, Move(DOWN, DOWN, true), Head(s, DOWN))
    ensures e.Retry? ==> MayMove(l, s.frame, Move(e.k, RETRY, false), Head(s, e.k))
    ensures e.Resend? ==> MayMove(l, s.frame, Move(e.i, e.k, false), Head(s, e.i))
    ensures e.Receive? ==> MayMove(l, s.frame, Move(RX, UP, false), Head(s, RX))
    ensures e.Filter? ==> MayMove(l, s.frame, Move(RX, RX, true), Head(s, RX))
    ensures e.Upload? && !Starts(Head(s, UP), l.Rsp()) ==> MayMove(l, s.frame, Move(UP, RX, true), Head(s, UP))
    ensures e.TxDone? && !Starts(Head(s, e.k), s.frame) ==> MayMove(l, s.frame, Move(e.k, DOWN, true), Head(s, e.k))
  {
    hide Once, AllAlone, Head;
    var k := match e
      case Download(_) => DOWN
      case Refuse => DOWN
      case Retry(k) => k
      case Resend(i, _) => i
      case Receive => RX
      case Filter => RX
      case Upload => UP
      case TxDone(k) => k
      case _ => UP;
    HeadAlone(l, s, k);
  }

  // ----- the initial state, and all runs -----

  lemma {:induction false} EmptyCount(q: seq<Contents>, x: nat)
    requires forall k :: 0 <= k < |q| ==> q[k] == []
    ensures Count(q, x) == 0
  {
    if |q| > 0 { EmptyCount(q[..|q| - 1], x); }
  }

  /** Of the blocks, those handed out so far are each in one place. */
  lemma {:induction false} StartedOnce(l: Layout, n: nat, x: nat)
    requires n <= l.blocks
    ensures Count(Started(l, n).queues, x) == if 1 <= x <= n then 1 else 0
    ensures AllAlone(l, Started(l, n)) && Started(l, n).rspFree && Started(l, n).frameFree
    decreases n
  {
    hide Count;
    var r := Started(l, n);
    if n == 0 {
      EmptyCount(r.queues, x);
    } else {
      var s, k := Started(l, n - 1), if n - 1 < l.Down() then DOWN else RX;
      StartedOnce(l, n - 1, x);
      CountPush(s.queues, k, n, x);
      assert QueueAlone(l, 0, k, s.queues[k]);
      ChangedAlone(l, s, k, s.queues[k] + [[n]], r);
    }
  }

  lemma InitialSound(l: Layout)
    ensures Sound(l, Initial(l))
  {
    hide Count;
    StartedOnce(l, l.blocks, 0);
    forall x
      ensures Held(l, Initial(l), x) == if InUse(l, Initial(l), x) then 1 else 0
    {
      StartedOnce(l, l.blocks, x);
    }
  }

  lemma {:induction false} RunSound(l: Layout, s: State, ee: seq<Event>)
    requires Sound(l, s) && forall e :: e in ee ==> Legal(l, e)
    ensures Sound(l, Run(l, s, ee))
  {
    hide Next, Legal;
    if |ee| > 0 {
      var n := |ee| - 1;
      RunSound(l, s, ee[..n]);
      NextSound(l, Run(l, s, ee[..n]), ee[n]);
    }
  }

  /** From dma_init_descriptors on, after any events: every block, the response
      buffer and the frame of the firmware are in exactly one queue or special
      descriptor, and nothing else is. */
  lemma ExactlyOnce(l: Layout, ee: seq<Event>, x: nat)
    requires forall e :: e in ee ==> Legal(l, e)
    ensures var s := Run(l, Initial(l), ee);
      Held(l, s, x) == if 1 <= x <= l.Rsp() || x == s.frame then 1 else 0
  {
    hide Next, Legal, Held;
    InitialSound(l);
    RunSound(l, Initial(l), ee);
  }

  /** The flags say whether the special descriptors are there: the response
      buffer is available exactly when no queue has it, and if one has it, it is
      the queue to the host, as a packet of its own; so for the frame. */
  lemma FlagsTell(l: Layout, ee: seq<Event>)
    requires forall e :: e in ee ==> Legal(l, e)
    ensures var s := Run(l, Initial(l), ee);
      && (s.rspFree <==> Count(s.queues, l.Rsp()) == 0) && (s.frameFree <==> Count(s.queues, s.frame) == 0)
      && forall k, p :: 0 <= k < |s.queues| && p in s.queues[k] ==> Alone(l, s.frame, k, p)
  {
    hide Next, Legal, Count, Alone;
    InitialSound(l);
    RunSound(l, Initial(l), ee);
    var s := Run(l, Initial(l), ee);
    assert InUse(l, s, l.Rsp()) && InUse(l, s, s.frame);
    assert Held(l, s, l.Rsp()) == 1 && Held(l, s, s.frame) == 1;
    assert forall k :: 0 <= k < |s.queues| ==> QueueAlone(l, s.frame, k, s.queues[k]);
  }
}
