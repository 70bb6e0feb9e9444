/** The firmware's queues and special descriptors as they are in memory.  Each
    handler does to them what its event does to the state of `DmaEvents`, so that
    from initialisation on no buffer is lost or doubled. */
module Firmware {
  import opened Dma
  import opened DmaHardware
  import opened DmaSystem
  import opened DmaEvents

  /** AR9170_CTRL_FS_BIT | AR9170_CTRL_LS_BIT */
  const FS_LS: nat := 0x300

  class Firmware {
    const l: Layout
    var qs: seq<Queue>
    var intDesc: Desc
    var intAvailable: bool
    var fwDesc: Desc
    var fwAvailable: bool
    var fwData: nat
    ghost var cs: seq<seq<Desc>>
    ghost var repr: set<Desc>

    ghost function Model(): (s: State)
      reads this, qs
      ensures |s.queues| == |qs|
    {
      State(Snapshot(qs), intAvailable, fwAvailable, fwData)
    }

    /** A special descriptor that is available is in no queue. */
    ghost predicate Special(d: Desc, x: nat)
      reads this, d
    {
      d !in repr && Loose([d], [x])
    }

    ghost predicate Specials()
      reads this, intDesc, fwDesc
    {
      && (intAvailable ==> Special(intDesc, l.Rsp()))
      && (fwAvailable ==> Special(fwDesc, fwData))
      && (intAvailable && fwAvailable ==> intDesc != fwDesc)
    }

    ghost predicate Valid()
      reads this, qs, repr, intDesc, fwDesc
    {
      |qs| == l.Queues() && Ready(qs, cs, repr) && Specials() && Sound(l, Model())
    }

    /** What an event makes of the present state. */
    ghost function After(e: Event): State
      requires Valid()
      reads this, qs, repr, intDesc, fwDesc
    {
      if Legal(l, e) then Next(l, Model(), e) else Model()
    }

    lemma Here(e: Event)
      requires Valid()
      ensures |qs| == l.Queues() && Ready(qs, cs, repr) && Specials() && Sound(l, Model())
      ensures Legal(l, e) ==> After(e) == Next(l, Model(), e)
    {
      hide Ready, Sound, Specials, Next, Legal;
    }

    lemma Made()
      requires |qs| == l.Queues() && Ready(qs, cs, repr) && Specials() && Sound(l, Model())
      ensures Valid()
    {
      hide Ready, Sound, Specials;
    }

    /** dma_init_descriptors */
    constructor (layout: Layout)
      ensures Valid() && l == layout && Model() == Initial(l)
      ensures fresh(repr) && fresh(intDesc) && fresh(fwDesc) && fresh(qs)
    {
      hide Ready, Sound, Initial, Snapshot, Loose;
      l := layout;
      var queues, rsp, own;
      ghost var chains, s;
      queues, rsp, own, chains, s := InitDescriptors(layout);
      qs, intDesc, fwDesc, cs, repr := queues, rsp, own, chains, s;
      intAvailable, fwAvailable, fwData := true, true, 0;
      InitialIs(layout);
    }

    /** A handler moves a packet on, or gives it back. */
    method Forward(m: Move, ghost e: Event)
      requires Valid() && Legal(l, e) && m.i < |qs| && m.j < |qs| && Next(l, Model(), e) == Moved(Model(), m)
      modifies this`cs, qs, repr
      ensures Valid() && Model() == old(After(e))
    {
      hide Sound, Ready, Next, Legal, Step;
      NextSound(l, Model(), e);
      cs := Transfer(qs, m, cs, repr);
    }

    /** The packet at the head of queue k is given back to queue j, one by one,
        unless it is that of buffer x. */
    method TakeBack(k: nat, j: nat, x: nat) returns (desc: Desc?)
      requires k < |qs| && j < |qs| && Ready(qs, cs, repr) && qs[k].contents != []
      requires Starts(qs[k].contents[0], x) ==> qs[k].contents[0] == [x]
      modifies this`cs, this`repr, qs, repr
      ensures Ready(qs, cs, repr)
      ensures desc == null ==>
        && !Starts(old(qs[k].contents)[0], x) && repr == old(repr)
        && Snapshot(qs) == Step(old(Snapshot(qs)), Move(k, j, true))
      ensures desc != null ==>
        && Starts(old(qs[k].contents)[0], x) && desc in old(repr) && repr == old(repr) - {desc} && Loose([desc], [x])
        && Snapshot(qs) == old(Snapshot(qs))[k := old(Snapshot(qs))[k][1..]]
    {
      hide Ready, Loose, Of, Singles, AllFrom, Arrives, Snapshot, Starts;
      EmptyAt(qs, cs, repr, k);
      ghost var bufs := qs[k].contents[0];
      ghost var p, left;
      desc, p, cs := Take(qs, k, cs, repr);
      left := repr - Of(p);
      FirstBuffer(p, bufs, x);
      InOf(p);
      if desc.dataAddr == x {
        Single(p, x);
        repr := repr - {desc};
      } else {
        EmptyAt(qs, cs, left, j);
        SameArrives(k, j, bufs);
        cs := Give(qs, j, true, desc, p, bufs, cs, left);
        assert left + Of(p) == repr;
        desc := null;
      }
    }

    /** handle_download, for one packet: it goes to queue k, unless it is shorter
        than it says. */
    method DownloadOne(whole: bool, k: nat)
      requires Valid() && Legal(l, Download(k))
      modifies this`cs, qs, repr
      ensures Valid() && Model() == old(After(if whole then Download(k) else Refuse))
    {
      hide Sound, Ready, Step;
      if whole { Forward(Move(DOWN, k, false), Download(k)); } else { Forward(Move(DOWN, DOWN, true), Refuse); }
    }

    /** handle_rx, for one packet: it goes to the host, unless it is filtered. */
    method ReceiveOne(filtered: bool)
      requires Valid()
      modifies this`cs, qs, repr
      ensures Valid() && Model() == old(After(if filtered then Filter else Receive))
    {
      hide Sound, Ready, Step;
      if filtered { Forward(Move(RX, RX, true), Filter); } else { Forward(Move(RX, UP, false), Receive); }
    }

    /** wlan_tx_status, for an aggregated packet without acknowledgement. */
    method RetryOne(k: nat)
      requires Valid() && l.Tx(k)
      modifies this`cs, qs, repr
      ensures Valid() && Model() == old(After(Retry(k)))
    {
      hide Sound, Ready, Step;
      Forward(Move(k, RETRY, false), Retry(k));
    }

    /** handle_tx_completion and wlan_cab_flush_queue: all packets of queue i are
        sent, in order, each to the queue that its frame names. */
    method Drain(i: nat, target: nat -> nat) returns (ghost ee: seq<Event>)
      requires Valid() && (i == RETRY || l.Cab(i)) && forall x :: l.Tx(target(x))
      modifies this`cs, qs, repr
      ensures Valid() && i < |qs| && qs[i].contents == []
      ensures ee == Resends(i, old(qs[i].contents), target) && (forall e :: e in ee ==> Legal(l, e))
      ensures Model() == Run(l, old(Model()), ee)
    {
      hide Firmware.Valid, Firmware.After, Sound, Ready, Next, Step, Snapshot, Specials, Legal, Resends, Run;
      Here(Receive);
      ghost var c0 := qs[i].contents;
      ee := [];
      EmptyAt(qs, cs, repr, i);
      NoneSent(l, Model(), i, c0, target);
      while !qs[i].Empty()
        invariant Valid() && |ee| <= |c0| && qs[i].contents == c0[|ee|..]
        invariant ee == Resends(i, c0[..|ee|], target) && forall e :: e in ee ==> Legal(l, e)
        invariant Model() == Run(l, old(Model()), ee)
        invariant qs[i].Empty() <==> qs[i].contents == []
        decreases |qs[i].contents|
      {
        Here(Receive);
        HeadFirst(qs, cs, repr, i);
        var k := target(qs[i].head.dataAddr);
        ghost var e := Resend(i, k);
        Here(e);
        ResendPops(l, Model(), i, k);
        OneMoreEvent(l, old(Model()), ee, e);
        ResendsNext(i, c0, |ee|, target);
        Forward(Move(i, k, false), e);
        ee := ee + [e];
        Here(e);
        EmptyAt(qs, cs, repr, i);
      }
      assert c0[..|ee|] == c0;
    }

    /** handle_upload: the packets that the host has taken go back to the receive
        queue, one by one and in order, but the response buffer becomes available
        again.  It stops where the hardware still owns the packet. */
    method HandleUpload() returns (ghost n: nat)
      requires Valid()
      modifies this`cs, this`repr, this`intDesc, this`intAvailable, qs, repr
      ensures Valid() && Uploaded(l, old(Model()), Model(), n)
      ensures UP < |qs| && (qs[UP].contents == [] || qs[UP].head.own == HW)
    {
      hide Firmware.Valid, Firmware.After, Sound, Ready, Next, Snapshot, Uploaded, Specials, Legal;
      ghost var s := Model();
      n := 0;
      Here(Upload);
      EmptyAt(qs, cs, repr, UP);
      NoneYet(l, s);
      while !qs[UP].Empty() && qs[UP].head.own != HW
        invariant Valid() && repr <= old(repr) && Uploaded(l, s, Model(), n)
        invariant UP < |qs| && (qs[UP].Empty() <==> qs[UP].contents == [])
        decreases |qs[UP].contents|
      {
        Here(Upload);
        UploadedNext(l, s, Model(), n);
        UploadOne();
        n := n + 1;
        Here(Upload);
        EmptyAt(qs, cs, repr, UP);
      }
    }

    /** A special descriptor is sent, as a packet of its own. */
    method PutSpecial(k: nat, desc: Desc, ghost x: nat)
      requires k < |qs| && Ready(qs, cs, repr) && desc !in repr && Loose([desc], [x])
      modifies this`cs, this`repr, qs, repr, desc
      ensures Ready(qs, cs, repr) && repr == old(repr) + {desc}
      ensures Snapshot(qs) == old(Snapshot(qs))[k := old(Snapshot(qs))[k] + [[x]]]
    {
      hide Ready, Loose, AllFrom;
      EmptyAt(qs, cs, repr, k);
      ghost var p := [desc];
      assert Of(p) == {desc};
      Outside(qs, cs, repr, p);
      cs := Give(qs, k, false, desc, p, [x], cs, repr);
      repr := repr + {desc};
    }

    /** handle_upload, for one packet. */
    method UploadOne()
      requires Valid() && qs[UP].contents != []
      modifies this`cs, this`repr, this`intDesc, this`intAvailable, qs, repr
      ensures Valid() && Model() == old(After(Upload)) && repr <= old(repr)
    {
      hide Firmware.Valid, Firmware.After, Sound, Ready, Loose, Starts, Next, Legal, Step, Snapshot;
      ghost var s := Model();
      Here(Upload);
      NextUpload(l, s);
      var desc := TakeBack(UP, RX, l.Rsp());
      if desc != null {
        intDesc := desc;
        intAvailable := true;
      }
      assert Model() == Next(l, s, Upload);
      Made();
    }

    /** wlan_tx_status, for a packet that is not to be sent again. */
    method TxDoneOne(k: nat)
      requires Valid() && l.Tx(k) && qs[k].contents != []
      modifies this`cs, this`repr, this`fwDesc, this`fwAvailable, qs, repr
      ensures Valid() && Model() == old(After(TxDone(k)))
    {
      hide Firmware.Valid, Firmware.After, Sound, Ready, Loose, Starts, Next, Legal, Step, Snapshot;
      ghost var s := Model();
      Here(TxDone(k));
      NextTxDone(l, s, k);
      var desc := TakeBack(k, DOWN, fwData);
      if desc != null {
        fwDesc := desc;
        fwAvailable := true;
      }
      Made();
    }

    /** usb_status_in, with `len` bytes of responses. */
    method SendStatus(len: nat)
      requires Valid()
      modifies this`cs, this`repr, this`intAvailable, qs, repr, intDesc
      ensures Valid() && Model() == old(After(StatusIn))
    {
      hide Firmware.Valid, Firmware.After, Sound, Ready, Next, Legal, Snapshot, Loose;
      Here(StatusIn);
      NextStatus(l, Model());
      if intAvailable {
        intAvailable := false;
        FormatResponse(intDesc, len, l.Rsp());
        PutSpecial(UP, intDesc, l.Rsp());
      }
      Made();
    }

    /** wlan_tx_fw, with a frame of `len` bytes at `super`. */
    method TxFrame(super: nat, len: nat, k: nat)
      requires Valid() && Legal(l, TxFw(super, k))
      modifies this`cs, this`repr, this`fwAvailable, this`fwData, qs, repr, fwDesc
      ensures Valid() && Model() == old(After(TxFw(super, k)))
    {
      hide Firmware.Valid, Firmware.After, Sound, Ready, Next, Legal, Snapshot, Loose;
      ghost var s := Model();
      Here(TxFw(super, k));
      NextTxFw(l, s, super, k);
      if fwAvailable {
        fwAvailable := false;
        fwData := super;
        FormatFrame(fwDesc, super, len);
        PutSpecial(k, fwDesc, super);
      }
      assert Model() == Next(l, s, TxFw(super, k));
      Made();
    }

    /** The hardware is done with n packets of queue k, which it owns, as one. */
    method Filled(k: nat, desc: Desc, last: Desc, own: nat, ctrl: nat, size: nat, len: nat, ghost i: nat, ghost n: nat)
      requires Valid() && Legal(l, Fill(k, i, n)) && At(qs[k], i, n, desc, last)
      requires forall j :: Offset(qs[k].contents, i) <= j < Offset(qs[k].contents, i + n) ==> qs[k].body[j].own == HW
      modifies qs, repr
      ensures Valid() && Model() == old(After(Fill(k, i, n)))
    {
      hide Sound, Ready, Written, Grouped;
      NextSound(l, Model(), Fill(k, i, n));
      CompleteAt(qs, cs, repr, k, desc, last, own, ctrl, size, len, i, n);
    }
  }

  /** init_queue for n queues, each with a cleared terminator. */
  method MakeQueues(n: nat) returns (qs: seq<Queue>, ghost cs: seq<seq<Desc>>, ghost s: set<Desc>)
    ensures Ready(qs, cs, s) && |qs| == n && Snapshot(qs) == seq(n, _ => [])
    ensures fresh(s) && fresh(qs)
  {
    hide Ready;
    qs, cs, s := [], [], {};
    assert Ready(qs, cs, s) by { NoQueues(); }
    while |qs| < n
      invariant |qs| <= n && Ready(qs, cs, s)
      invariant fresh(s) && fresh(qs)
      invariant forall k :: 0 <= k < |qs| ==> qs[k].contents == []
    {
      var d := new Desc();
      d.Clear();
      var q := new Queue(d);
      MoreQueues(qs, cs, s, q, d);
      qs, cs, s := qs + [q], cs + [[d]], s + {d};
    }
  }

  lemma NoQueues()
    ensures Ready([], [], {})
  {
  }

  lemma MoreQueues(qs: seq<Queue>, cs: seq<seq<Desc>>, s: set<Desc>, q: Queue, d: Desc)
    requires Ready(qs, cs, s) && q !in qs && d !in s && q.Valid() && q.Chain() == [d]
    ensures Ready(qs + [q], cs + [[d]], s + {d})
  {
    hide Queue.Valid;
    InChain(q);
    var p, ds := qs + [q], cs + [[d]];
    Outside(qs, cs, s, [d]);
    forall k, m | 0 <= k < |ds| && 0 <= m < |ds| && k != m
      ensures Disjoint(ds[k], ds[m])
    {
      if k == |cs| { assert Disjoint([d], cs[m]); } else if m == |cs| { assert Disjoint([d], cs[k]);
      } else { assert Disjoint(cs[k], cs[m]); }
    }
    forall k | 0 <= k < |p|
      ensures Owned(p[k], s + {d}) && p[k].Valid() && p[k].Chain() == ds[k]
    {
      if k < |qs| { assert Owned(qs[k], s); }
    }
  }

  lemma {:induction false} StartedFlags(l: Layout, n: nat)
    ensures Started(l, n).rspFree && Started(l, n).frameFree
  {
    if n > 0 { StartedFlags(l, n - 1); }
  }

  method InitDescriptors(l: Layout)
    returns (qs: seq<Queue>, rsp: Desc, own: Desc, ghost cs: seq<seq<Desc>>, ghost s: set<Desc>)
    ensures Ready(qs, cs, s) && |qs| == l.Queues() && Snapshot(qs) == Initial(l).queues
    ensures Loose([rsp], [l.Rsp()]) && Loose([own], [0]) && rsp !in s && own !in s && rsp != own
    ensures fresh(s) && fresh(rsp) && fresh(own) && fresh(qs)
  {
    hide Ready, Initial, Snapshot, Loose;
    qs, cs, s := MakeQueues(l.Queues());
    cs, s := HandOut(l, qs, cs, s);
    rsp := InitSpecial(BLOCK_SIZE, l.Rsp());
    own := InitSpecial(0, 0);
  }

  /** A terminator without a queue. */
  method InitSpecial(size: nat, x: nat) returns (d: Desc)
    ensures Loose([d], [x]) && fresh(d)
  {
    d := new Desc();
    d.Clear();
    d.dataSize, d.dataAddr := size, x;
    OneLoose(d, x);
  }

  lemma InitialIs(l: Layout)
    ensures Sound(l, Initial(l)) && Initial(l) == State(Initial(l).queues, true, true, 0)
  {
    InitialSound(l);
    StartedFlags(l, l.blocks);
  }

  /** fill_descriptor and dma_reclaim for every block. */
  method HandOut(l: Layout, qs: seq<Queue>, ghost cs0: seq<seq<Desc>>, ghost s0: set<Desc>)
    returns (ghost cs: seq<seq<Desc>>, ghost s: set<Desc>)
    requires Ready(qs, cs0, s0) && |qs| == l.Queues() && Snapshot(qs) == seq(l.Queues(), _ => [])
    modifies qs, s0
    ensures Ready(qs, cs, s) && Snapshot(qs) == Initial(l).queues && s0 <= s && fresh(s - s0)
  {
    hide Ready, Snapshot, Started;
    StartedNone(l);
    cs, s := cs0, s0;
    var i := 0;
    while i < l.blocks
      invariant i <= l.blocks && Ready(qs, cs, s) && Snapshot(qs) == Started(l, i).queues && s0 <= s && fresh(s - s0)
    {
      var k := if i < l.Down() then DOWN else RX;
      StartedNext(l, i);
      cs, s := HandOne(qs, k, i + 1, cs, s);
      i := i + 1;
    }
  }

  lemma StartedNone(l: Layout)
    ensures Started(l, 0).queues == seq(l.Queues(), _ => [])
  {
  }

  lemma StartedNext(l: Layout, i: nat)
    ensures var q, k := Started(l, i).queues, if i < l.Down() then DOWN else RX;
      k < |q| && Started(l, i + 1).queues == q[k := q[k] + [[i + 1]]]
  {
  }

  method HandOne(qs: seq<Queue>, k: nat, x: nat, ghost cs0: seq<seq<Desc>>, ghost s0: set<Desc>)
    returns (ghost cs: seq<seq<Desc>>, ghost s: set<Desc>)
    requires Ready(qs, cs0, s0) && k < |qs|
    modifies qs, s0
    ensures Ready(qs, cs, s) && s0 <= s && fresh(s - s0)
    ensures Snapshot(qs) == old(Snapshot(qs))[k := old(Snapshot(qs))[k] + [[x]]]
  {
    hide Ready, Loose, AllFrom;
    var d := new Desc();
    d.Fill(BLOCK_SIZE, x);
    ghost var p := [d];
    OneLoose(d, x);
    Outside(qs, cs0, s0, p);
    EmptyAt(qs, cs0, s0, k);
    assert Singles([x]) == [[x]];
    cs := Give(qs, k, true, d, p, [x], cs0, s0);
    s := s0 + Of(p);
  }

  lemma OneLoose(d: Desc, x: nat)
    requires d.lastAddr == d && d.dataAddr == x
    ensures Loose([d], [x]) && Of([d]) == {d}
  {
  }

  method FormatResponse(d: Desc, len: nat, ghost x: nat)
    requires Loose([d], [x])
    modifies d
    ensures Loose([d], [x]) && d.ctrl == FS_LS && d.totalLen == len && d.dataSize == len
  {
    assert old(d.lastAddr) == d && d.dataAddr == x by { OneIs(d, x); }
    d.ctrl, d.totalLen, d.dataSize := FS_LS, len, len;
    OneLoose(d, x);
  }

  method FormatFrame(d: Desc, super: nat, len: nat)
    modifies d
    ensures Loose([d], [super]) && d.ctrl == FS_LS && d.own == SW && d.totalLen == len && d.dataSize == len
  {
    d.ctrl, d.own, d.totalLen, d.dataSize, d.dataAddr := FS_LS, SW, len, len, super;
    d.nextAddr, d.lastAddr := d, d;
    OneLoose(d, super);
  }

  lemma OneIs(d: Desc, x: nat)
    requires Loose([d], [x])
    ensures d.lastAddr == d && d.dataAddr == x
  {
  }

  method CompleteAt(qs: seq<Queue>, ghost cs: seq<seq<Desc>>, ghost s: set<Desc>, k: nat, desc: Desc, last: Desc,
                    own: nat, ctrl: nat, size: nat, len: nat, ghost i: nat, ghost n: nat)
    requires Ready(qs, cs, s) && k < |qs| && At(qs[k], i, n, desc, last)
    requires forall j :: Offset(qs[k].contents, i) <= j < Offset(qs[k].contents, i + n) ==> qs[k].body[j].own == HW
    modifies qs, s
    ensures Ready(qs, cs, s)
    ensures i + n <= |old(qs[k].contents)| && Snapshot(qs) == old(Snapshot(qs))[k := Grouped(old(qs[k].contents), i, n)]
  {
    hide Queue.Valid, Written, Grouped, Offset;
    EmptyAt(qs, cs, s, k);
    InChain(qs[k]);
    OthersDisjoint(cs, k);
    Complete(qs[k], desc, last, own, ctrl, size, len, i, n);
    KeptAll(Rest(qs, cs, s, k, |qs|));
  }

  lemma SameArrives(i: nat, j: nat, bufs: seq<nat>)
    ensures Arrives(Move(0, 0, true), bufs) == Arrives(Move(i, j, true), bufs)
  {
  }

  lemma FirstBuffer(p: seq<Desc>, bufs: seq<nat>, x: nat)
    requires Loose(p, bufs)
    ensures |p| > 0 && (p[0].dataAddr == x <==> Starts(bufs, x))
  {
  }

  /** What goes back to the receive queue: the buffers of all packets but that
      of the response, one by one. */
  function Recycled(c: Contents, rsp: nat): Contents {
    if |c| == 0 then []
    else Recycled(c[..|c| - 1], rsp) + if Starts(c[|c| - 1], rsp) then [] else Singles(c[|c| - 1])
  }

  function Responses(c: Contents, rsp: nat): nat {
    if |c| == 0 then 0 else Responses(c[..|c| - 1], rsp) + if Starts(c[|c| - 1], rsp) then 1 else 0
  }

  lemma OneMore(c: Contents, n: nat, rsp: nat)
    requires n < |c|
    ensures Recycled(c[..n + 1], rsp) == Recycled(c[..n], rsp) + if Starts(c[n], rsp) then [] else Singles(c[n])
    ensures Responses(c[..n + 1], rsp) == Responses(c[..n], rsp) + if Starts(c[n], rsp) then 1 else 0
    ensures c[n..] != [] && c[n..][0] == c[n] && c[n..][1..] == c[n + 1..]
  {
    assert c[..n + 1][..n] == c[..n];
  }

  function Uploads(n: nat): (ee: seq<Event>)
    ensures |ee| == n && forall e :: e in ee ==> e == Upload
  {
    seq(n, _ => Upload)
  }

  /** Of the packets to the host the first n have come back, from s to r. */
  predicate Uploaded(l: Layout, s: State, r: State, n: nat) {
    && |s.queues| == |r.queues| == l.Queues() && r == Run(l, s, Uploads(n)) && n <= |s.queues[UP]|
    && r.queues == s.queues[UP := s.queues[UP][n..]][RX := s.queues[RX] + Recycled(s.queues[UP][..n], l.Rsp())]
    && (r.rspFree <==> s.rspFree || Responses(s.queues[UP][..n], l.Rsp()) > 0)
  }

  lemma NoneYet(l: Layout, s: State)
    requires |s.queues| == l.Queues()
    ensures Uploaded(l, s, s, 0)
  {
    assert s.queues[UP][0..] == s.queues[UP] && s.queues[RX] + Recycled([], l.Rsp()) == s.queues[RX];
    assert s.queues[UP][..0] == [];
  }

  lemma UploadedNext(l: Layout, s: State, r: State, n: nat)
    requires Uploaded(l, s, r, n) && r.queues[UP] != []
    ensures Legal(l, Upload)
    ensures Uploaded(l, s, Next(l, r, Upload), n + 1) && |Next(l, r, Upload).queues[UP]| < |r.queues[UP]|
  {
    hide Recycled, Responses, Next, Run, Uploads;
    OneMore(s.queues[UP], n, l.Rsp());
    UploadPops(l, r);
    UploadsNext(l, s, n);
    var a, p := s.queues[RX], s.queues[UP][n];
    assert a + Recycled(s.queues[UP][..n + 1], l.Rsp()) ==
      (a + Recycled(s.queues[UP][..n], l.Rsp())) + if Starts(p, l.Rsp()) then [] else Singles(p);
  }

  lemma UploadsNext(l: Layout, s: State, n: nat)
    requires |s.queues| == l.Queues()
    ensures Legal(l, Upload) && Run(l, s, Uploads(n + 1)) == Next(l, Run(l, s, Uploads(n)), Upload)
  {
    assert Uploads(n + 1) == Uploads(n) + [Upload];
    OneMoreEvent(l, s, Uploads(n), Upload);
  }

  lemma UploadPops(l: Layout, s: State)
    requires |s.queues| == l.Queues() && s.queues[UP] != []
    ensures var r, p := Next(l, s, Upload), s.queues[UP][0];
      && r.queues[UP] == s.queues[UP][1..]
      && r.queues[RX] == s.queues[RX] + (if Starts(p, l.Rsp()) then [] else Singles(p))
      && (forall k :: 0 <= k < |s.queues| && k != UP && k != RX ==> r.queues[k] == s.queues[k])
      && (r.rspFree <==> s.rspFree || Starts(p, l.Rsp()))
  {
  }

  /** Where the packets of queue i are sent. */
  function Resends(i: nat, c: Contents, target: nat -> nat): (ee: seq<Event>)
    ensures |ee| == |c|
  {
    seq(|c|, n requires 0 <= n < |c| => Resend(i, target(if c[n] == [] then 0 else c[n][0])))
  }

  lemma NoneSent(l: Layout, s: State, i: nat, c: Contents, target: nat -> nat)
    requires |s.queues| == l.Queues()
    ensures Resends(i, c[..0], target) == [] && Run(l, s, []) == s && c[0..] == c
  {
  }

  lemma ResendsNext(i: nat, c: Contents, n: nat, target: nat -> nat)
    requires n < |c| && c[n] != []
    ensures Resends(i, c[..n + 1], target) == Resends(i, c[..n], target) + [Resend(i, target(c[n][0]))]
    ensures c[n..] != [] && c[n..][0] == c[n] && c[n..][1..] == c[n + 1..]
  {
  }

  lemma ResendPops(l: Layout, s: State, i: nat, k: nat)
    requires |s.queues| == l.Queues() && (i == RETRY || l.Cab(i)) && l.Tx(k) && s.queues[i] != []
    ensures Legal(l, Resend(i, k)) && Next(l, s, Resend(i, k)).queues[i] == s.queues[i][1..]
    ensures Next(l, s, Resend(i, k)) == Moved(s, Move(i, k, false))
  {
  }

  lemma OneMoreEvent(l: Layout, s: State, ee: seq<Event>, e: Event)
    requires |s.queues| == l.Queues() && (forall f :: f in ee ==> Legal(l, f)) && Legal(l, e)
    ensures Run(l, s, ee + [e]) == Next(l, Run(l, s, ee), e)
  {
    assert (ee + [e])[..|ee|] == ee;
  }

  /** The first buffer of the packet at the head. */
  lemma HeadFirst(qs: seq<Queue>, cs: seq<seq<Desc>>, s: set<Desc>, i: nat)
    requires Ready(qs, cs, s) && i < |qs| && qs[i].contents != []
    ensures qs[i].contents[0] != [] && qs[i].head.dataAddr == qs[i].contents[0][0]
  {
    var q := qs[i];
    LastsRest(q.body, q.contents);
    assert q.head == q.body[0] && q.body[0].dataAddr == Flat(q.contents)[0];
  }

  lemma NextStatus(l: Layout, s: State)
    requires Sound(l, s)
    ensures |s.queues| == l.Queues() && Legal(l, StatusIn) && Sound(l, Next(l, s, StatusIn))
    ensures Next(l, s, StatusIn) ==
      if s.rspFree then s.(queues := s.queues[UP := s.queues[UP] + [[l.Rsp()]]], rspFree := false) else s
  {
    NextSound(l, s, StatusIn);
  }

  lemma NextTxFw(l: Layout, s: State, super: nat, k: nat)
    requires Sound(l, s) && Legal(l, TxFw(super, k))
    ensures k < |s.queues| == l.Queues() && Sound(l, Next(l, s, TxFw(super, k)))
    ensures Next(l, s, TxFw(super, k)) ==
      if s.frameFree then s.(queues := s.queues[k := s.queues[k] + [[super]]], frameFree := false, frame := super)
        else s
  {
    NextSound(l, s, TxFw(super, k));
  }

  lemma NextUpload(l: Layout, s: State)
    requires Sound(l, s) && s.queues[UP] != []
    ensures Legal(l, Upload) && Sound(l, Next(l, s, Upload))
    ensures Starts(s.queues[UP][0], l.Rsp()) ==>
      && s.queues[UP][0] == [l.Rsp()] && !s.rspFree
      && Next(l, s, Upload) == s.(queues := s.queues[UP := s.queues[UP][1..]], rspFree := true)
    ensures !Starts(s.queues[UP][0], l.Rsp()) ==>
      Next(l, s, Upload) == s.(queues := Step(s.queues, Move(UP, RX, true)))
  {
    NextSound(l, s, Upload);
    if Starts(s.queues[UP][0], l.Rsp()) { UploadSound(l, s); }
  }

  lemma NextTxDone(l: Layout, s: State, k: nat)
    requires Sound(l, s) && l.Tx(k) && s.queues[k] != []
    ensures Legal(l, TxDone(k)) && Sound(l, Next(l, s, TxDone(k)))
    ensures Starts(s.queues[k][0], s.frame) ==>
      && s.queues[k][0] == [s.frame] && !s.frameFree
      && Next(l, s, TxDone(k)) == s.(queues := s.queues[k := s.queues[k][1..]], frameFree := true)
    ensures !Starts(s.queues[k][0], s.frame) ==>
      Next(l, s, TxDone(k)) == s.(queues := Step(s.queues, Move(k, DOWN, true)))
  {
    NextSound(l, s, TxDone(k));
    if Starts(s.queues[k][0], s.frame) { TxDoneSound(l, s, k); }
  }

  lemma Single(p: seq<Desc>, x: nat)
    requires Loose(p, [x])
    ensures p == [p[0]] && Of(p) == {p[0]}
  {
  }
}
