/** inflate.c: the stream around the blocks (section 2.2 of RFC 1950), and what
    any sequence of calls to it delivers. */
module Inflate {
  import opened Bits
  import opened Adler
  import opened HuffTables
  import opened InfTrees
  import opened Deflate
  import opened InfUtil
  import InfBlock

  datatype InflateMode = METHOD | FLAG | DICT4 | DICT3 | DICT2 | DICT1 | DICT0 | BLOCKS
                       | CHECK4 | CHECK3 | CHECK2 | CHECK1 | I_DONE | I_BAD

  const Z_PACKET_FLUSH := 2
  const Z_FINISH := 5
  const Z_DEFLATED := 8
  const PRESET_DICT := 32

  // ----- what a stream means -----

  /** How a stream ends: whole, with the position after it, wrong, in need of a
      dictionary, or not yet. */
  datatype Ending = Finished(at: nat) | Corrupt | NeedDict | Unfinished

  /** The output, after what the window held at first, and the end. */
  datatype Result = Result(hist: seq<byte>, ending: Ending)

  /** The first n of four bytes, the most significant first. */
  function BigEndian(inp: seq<byte>, at: nat, n: nat): (r: nat)
    requires n <= 4 && at + n <= |inp|
  {
    (if n > 0 then inp[at] as int * 16777216 else 0) + (if n > 1 then inp[at + 1] as int * 65536 else 0)
    + (if n > 2 then inp[at + 2] as int * 256 else 0) + (if n > 3 then inp[at + 3] as int else 0)
  }

  predicate MethodOK(cmf: nat, wbits: nat) { cmf % 16 == Z_DEFLATED && cmf / 16 + 8 <= wbits }
  predicate HeaderOK(cmf: nat, flg: nat) { (cmf * 256 + flg) % 31 == 0 }
  predicate HasDict(flg: nat) { flg / PRESET_DICT % 2 == 1 }

  /** Where the blocks begin. */
  function Start(nowrap: bool): nat { if nowrap then 0 else 16 }

  /** What follows the blocks. */
  ghost function Tail(inp: seq<byte>, nowrap: bool, start: seq<byte>, o: Outcome): (r: Result)
    requires start <= o.out
    ensures r.hist == o.out
  {
    match o.stop
    case Bad => Result(o.out, Corrupt)
    case BadDistance => Result(o.out, Corrupt)
    case Truncated => Result(o.out, Unfinished)
    case End(pos) =>
      var at := NextByte(pos);
      if nowrap then Result(o.out, Finished(at))
      else if at + 4 > |inp| then Result(o.out, Unfinished)
      else if BigEndian(inp, at, 4) == Checksum(START, o.out[|start|..]).Word() then Result(o.out, Finished(at + 4))
      else Result(o.out, Corrupt)
  }

  ghost function Data(inp: seq<byte>, nowrap: bool, start: seq<byte>): (o: Outcome)
    requires 0 < |start|
    ensures start <= o.out
  {
    Blocks(inp, Ring(|start|), Start(nowrap), start)
  }

  /** The meaning of a whole stream. */
  ghost function Stream(inp: seq<byte>, nowrap: bool, wbits: nat, start: seq<byte>): (r: Result)
    requires 0 < |start|
    ensures start <= r.hist
  {
    if nowrap then Tail(inp, nowrap, start, Data(inp, nowrap, start))
    else if |inp| < 1 then Result(start, Unfinished)
    else if !MethodOK(inp[0], wbits) then Result(start, Corrupt)
    else if |inp| < 2 then Result(start, Unfinished)
    else if !HeaderOK(inp[0], inp[1]) then Result(start, Corrupt)
    else if HasDict(inp[1]) then Result(start, NeedDict)
    else Tail(inp, nowrap, start, Data(inp, nowrap, start))
  }

  // ----- the state of the machine as a value -----

  /** The header, as far as it matters once the blocks are reached. */
  ghost predicate InData(inp: seq<byte>, nowrap: bool, wbits: nat) {
    nowrap || (|inp| >= 2 && MethodOK(inp[0], wbits) && HeaderOK(inp[0], inp[1]) && !HasDict(inp[1]))
  }

  lemma StreamData(inp: seq<byte>, nowrap: bool, wbits: nat, start: seq<byte>)
    requires 0 < |start| && InData(inp, nowrap, wbits)
    ensures Stream(inp, nowrap, wbits, start) == Tail(inp, nowrap, start, Data(inp, nowrap, start))
  {
    hide Tail, Data, MethodOK, HeaderOK, HasDict;
  }

  /** Which trailer byte is next. */
  function Nth(m: InflateMode): nat {
    match m case CHECK4 => 0 case CHECK3 => 1 case CHECK2 => 2 case CHECK1 => 3 case _ => 4
  }

  predicate Checking(m: InflateMode) { m == CHECK4 || m == CHECK3 || m == CHECK2 || m == CHECK1 }
  predicate Dictionary(m: InflateMode) { m == DICT4 || m == DICT3 || m == DICT2 || m == DICT1 || m == DICT0 }

  /** In the trailer: all blocks are behind, and some bytes of the check. */
  ghost predicate InTrailer(inp: seq<byte>, start: seq<byte>, o: Outcome, m: InflateMode, need: nat, was: nat, p: nat,
          out: seq<byte>) {
    && o.out == start + out && o.stop.End?
    && p == NextByte(o.stop.pos) + Nth(m) && p <= |inp|
    && need == BigEndian(inp, p - Nth(m), Nth(m)) && was == Checksum(START, out).Word()
  }

  lemma TrailerBegins(inp: seq<byte>, start: seq<byte>, o: Outcome, need: nat, was: nat, p: nat, pos: nat,
          out: seq<byte>)
    requires o == Outcome(start + out, End(pos)) && pos <= 8 * p < pos + 8 && p <= |inp|
      && was == Checksum(START, out).Word() && need == 0
    ensures InTrailer(inp, start, o, CHECK4, need, was, p, out)
  {
    hide Checksum;
    ByteAfter(p, pos);
  }

  lemma ByteAfter(p: nat, pos: nat)
    requires pos <= 8 * p < pos + 8
    ensures NextByte(pos) == p
  {
  }

  function NextCheck(m: InflateMode): InflateMode {
    match m case CHECK4 => CHECK3 case CHECK3 => CHECK2 case CHECK2 => CHECK1 case _ => I_DONE
  }

  function Weight(m: InflateMode): nat {
    match m case CHECK4 => 16777216 case CHECK3 => 65536 case CHECK2 => 256 case _ => 1
  }

  lemma WeightOne()
    ensures Weight(CHECK1) == 1
  {
  }

  /** One more byte of the check. */
  lemma TrailerNext(inp: seq<byte>, start: seq<byte>, o: Outcome, m: InflateMode, need: nat, was: nat, p: nat,
          out: seq<byte>)
    requires InTrailer(inp, start, o, m, need, was, p, out) && p < |inp| && Checking(m) && m != CHECK1
    ensures InTrailer(inp, start, o, NextCheck(m), (if m == CHECK4 then 0
      else need) + inp[p] as int * Weight(m), was, p + 1, out)
  {
    hide Checksum, NextByte;
  }

  /** The last byte of the check decides. */
  lemma TrailerDone(inp: seq<byte>, nowrap: bool, start: seq<byte>, o: Outcome, need: nat, was: nat, p: nat,
          out: seq<byte>)
    requires !nowrap && InTrailer(inp, start, o, CHECK1, need, was, p, out) && p < |inp|
    ensures Tail(inp, nowrap, start, o) == Result(start + out, if was == need + inp[p] then Finished(p + 1)
      else Corrupt)
  {
    hide Checksum;
    assert o.out[|start|..] == out;
  }

  lemma TailBad(inp: seq<byte>, nowrap: bool, start: seq<byte>, o: Outcome)
    requires start <= o.out && o.stop == Bad
    ensures Tail(inp, nowrap, start, o) == Result(o.out, Corrupt)
  {
  }

  lemma TailRaw(inp: seq<byte>, start: seq<byte>, o: Outcome)
    requires start <= o.out && o.stop.End?
    ensures Tail(inp, true, start, o) == Result(o.out, Finished(NextByte(o.stop.pos)))
  {
  }

  /** The header read so far decides. */
  lemma StreamMethod(inp: seq<byte>, wbits: nat, start: seq<byte>)
    requires 0 < |start| && |inp| >= 1 && !MethodOK(inp[0], wbits)
    ensures Stream(inp, false, wbits, start) == Result(start, Corrupt)
  {
  }

  lemma StreamFlag(inp: seq<byte>, wbits: nat, start: seq<byte>)
    requires 0 < |start| && |inp| >= 2 && MethodOK(inp[0], wbits)
    ensures !HeaderOK(inp[0], inp[1]) ==> Stream(inp, false, wbits, start) == Result(start, Corrupt)
    ensures HeaderOK(inp[0], inp[1]) && HasDict(inp[1]) ==> Stream(inp, false, wbits, start) == Result(start, NeedDict)
  {
    hide MethodOK, HeaderOK, HasDict, Tail, Data;
  }

  /** Modes in their order. */
  function Turns(m: InflateMode): nat {
    match m
    case METHOD => 13 case FLAG => 12 case DICT4 => 11 case DICT3 => 10 case DICT2 => 9 case DICT1 => 8 case DICT0 => 7
    case BLOCKS => 6 case CHECK4 => 5 case CHECK3 => 4 case CHECK2 => 3 case CHECK1 => 2
    case I_DONE => 1 case I_BAD => 0
  }

  /** struct internal_state, with the stream it belongs to. */
  class Inflate {
    const bits: BitInput
    const win: SlidingWindow
    const blocks: InfBlock.InflateBlocks
    const nowrap: bool
    const wbits: nat
    var mode: InflateMode
    var cmf: nat
    var need: nat
    var was: nat

    ghost function Inp(): seq<byte> { bits.input }

    ghost predicate Parts() {
      && blocks.bits == bits && blocks.win == win && blocks.Parts()
      && win.size == |win.start| && win.checked == !nowrap && blocks.pos0 == Start(nowrap)
    }

    /** What the caller should get. */
    ghost function Want(): (r: Result)
      requires 0 < |win.start|
      ensures win.start <= r.hist
    {
      Stream(Inp(), nowrap, wbits, win.start)
    }

    ghost function DataOf(): Outcome
      requires 0 < |win.start|
    {
      Data(Inp(), nowrap, win.start)
    }

    ghost predicate Ready()
      reads bits, win, win.window
    {
      Parts() && bits.Valid() && win.Valid() && 0 < |win.start|
    }

    /** What is written so far is followed by a block whose tables do not fit the
        space. */
    ghost predicate Crowded()
      requires Parts()
      reads win, blocks
    {
      InfBlock.Crowded(DataOf(), Inp(), Ring(win.size), win.hist)
    }

    /** Nothing has been done but reading the header. */
    ghost predicate Untouched()
      reads bits, win, blocks
    {
      bits.K == 0 && bits.k == 0 && win.hist == win.start && blocks.mode == InfBlock.TYPE
    }

    ghost predicate InMode()
      requires Ready()
      reads this, bits, win, win.window, blocks, blocks.hufts, blocks.blens, blocks.codes
    {
      match mode
      case METHOD => !nowrap && Untouched() && bits.p == 0
      case FLAG => !nowrap && Untouched() && bits.p == 1 && cmf == Inp()[0] && MethodOK(cmf, wbits)
      case BLOCKS => InData(Inp(), nowrap, wbits) && blocks.Valid()
      case I_DONE => win.read == win.write && Want() == Result(win.hist, Finished(bits.p))
      case I_BAD => win.hist <= Want().hist
        && (Crowded() || Want() == Result(win.hist, Corrupt) || Want().ending == NeedDict)
      case _ =>
        if Checking(mode) then
          && !nowrap && InData(Inp(), nowrap, wbits) && bits.K == 0 && win.read == win.write
          && InTrailer(Inp(), win.start, DataOf(), mode, need, was, bits.p, win.out)
        else bits.K == 0 && win.hist <= Want().hist && Want().ending == NeedDict
    }

    ghost predicate Valid()
      reads this, bits, win, win.window, blocks, blocks.hufts, blocks.blens, blocks.codes
    {
      Ready() && InMode()
    }

    /** zlib_inflateInit2_ for a window of 2^wbits bytes and a fresh workspace. */
    constructor (input: seq<byte>, nowrap: bool, wbits: nat, window: array<byte>, hufts: array<Huft>, blens: array<nat>,
            v: array<nat>)
      requires 8 <= wbits <= 15 && window.Length == Pow2(wbits)
      requires MANY <= hufts.Length && blens.Length == 320 && v.Length == 288
      requires blens != v && blens as object != hufts && v as object != hufts
      requires window as object != hufts && window as object != blens && window as object != v
      ensures Valid() && Inp() == input && this.nowrap == nowrap && this.wbits == wbits
      ensures win.start == old(window[..]) && win.out == [] && fresh(bits) && fresh(win) && fresh(blocks)
      ensures win.window == window && blocks.hufts == hufts && blocks.blens == blens && blocks.v == v
        && blocks.codes == null
    {
      hide BitInput.Valid, SlidingWindow.Valid, Stream, InfBlock.InflateBlocks.Valid, Pow2;
      var bi := new BitInput(input);
      var wi := new SlidingWindow(window, !nowrap);
      var bl := new InfBlock.InflateBlocks(bi, wi, hufts, blens, v, Start(nowrap));
      bits, win, blocks := bi, wi, bl;
      this.nowrap, this.wbits := nowrap, wbits;
      cmf, need, was := 0, 0, 0;
      mode := if nowrap then BLOCKS else METHOD;
      new;
      if nowrap { blocks.Begun(); }
    }

    /** METHOD: the first byte of the header. */
    method StepMethod(r0: int, trv: int) returns (leave: bool, r: int)
      requires Valid() && mode == METHOD
      modifies this`mode, this`cmf, bits
      ensures Valid() && r == (if leave then r0 else trv) && (leave ==> bits.n == 0 && mode == METHOD) && (!leave ==>
        Turns(mode) < Turns(METHOD))
      ensures bits.p + bits.n == old(bits.p + bits.n)
    {
      hide BitInput.Valid, SlidingWindow.Valid, InfBlock.InflateBlocks.Valid, Stream, MethodOK;
      leave := bits.n == 0;
      r := if leave then r0 else trv;
      if !leave {
        cmf := bits.NextByte();
        if MethodOK(cmf, wbits) {
          mode := FLAG;
        } else {
          StreamMethod(Inp(), wbits, win.start);
          mode := I_BAD;
        }
      }
    }

    /** FLAG: the second byte of the header. */
    method StepFlag(r0: int, trv: int) returns (leave: bool, r: int)
      requires Valid() && mode == FLAG
      modifies this`mode, bits
      ensures Valid() && r == (if leave then r0 else trv) && (leave ==> bits.n == 0 && mode == FLAG) && (!leave ==>
        Turns(mode) < Turns(FLAG))
      ensures bits.p + bits.n == old(bits.p + bits.n)
    {
      hide BitInput.Valid, SlidingWindow.Valid, InfBlock.InflateBlocks.Valid, Stream, MethodOK, HeaderOK, HasDict;
      leave := bits.n == 0;
      r := if leave then r0 else trv;
      if !leave {
        var b := bits.NextByte();
        StreamFlag(Inp(), wbits, win.start);
        if !HeaderOK(cmf, b) {
          mode := I_BAD;
        } else if !HasDict(b) {
          win.Sized();
          blocks.Begun();
          mode := BLOCKS;
        } else {
          mode := DICT4;
        }
      }
    }

    /** DICT4 to DICT1: the dictionary's check value, of which nothing comes. */
    method StepDict(r0: int, trv: int) returns (leave: bool, r: int)
      requires Valid() && (mode == DICT4 || mode == DICT3 || mode == DICT2 || mode == DICT1)
      modifies this`mode, this`need, bits
      ensures Valid() && Dictionary(mode)
      ensures (r == Z_NEED_DICT && mode == DICT0 && leave)
        || (r == (if leave then r0 else trv) && (leave ==> bits.n == 0))
      ensures !leave ==> Turns(mode) < old(Turns(mode))
      ensures bits.p + bits.n == old(bits.p + bits.n)
    {
      hide BitInput.Valid, SlidingWindow.Valid, InfBlock.InflateBlocks.Valid, Stream;
      leave := bits.n == 0;
      r := if leave then r0 else trv;
      if !leave {
        var b: nat := bits.NextByte();
        if mode == DICT4 {
          need, mode := b * 16777216, DICT3;
        } else if mode == DICT3 {
          need, mode := need + b * 65536, DICT2;
        } else if mode == DICT2 {
          need, mode := need + b * 256, DICT1;
        } else {
          need, mode := need + b, DICT0;
          leave, r := true, Z_NEED_DICT;
        }
      }
    }

    lemma HereBlocks()
      requires Valid() && mode == BLOCKS
      ensures Parts() && blocks.Valid() && InData(Inp(), nowrap, wbits) && bits.Valid()
      ensures blocks.bits == bits && blocks.win == win
    {
      hide BitInput.Valid, SlidingWindow.Valid, InfBlock.InflateBlocks.Valid, InData;
    }

    /** BLOCKS: all blocks, then their check value is put aside and the bit
        buffer emptied. */
    method StepBlocks(r0: int, trv: int) returns (leave: bool, r: int)
      requires Valid() && mode == BLOCKS && Going(r0) && Going(trv)
      modifies this`mode, this`was, this`need, bits, win, win.window, blocks, blocks.hufts, blocks.blens, blocks.v,
        blocks.codes
      ensures Valid() && (blocks.codes == old(blocks.codes) || fresh(blocks.codes))
      ensures leave ==> mode == BLOCKS && (bits.n == 0 || win.availOut == 0) && (r == trv || r == Z_BUF_ERROR)
      ensures !leave ==> Turns(mode) < Turns(BLOCKS) && (r == trv || mode == I_BAD)
      ensures bits.p + bits.n == old(bits.p + bits.n) && old(win.out) <= win.out && win.given == old(win.given)
    {
      hide Inflate.Valid, Parts, BitInput.Valid, SlidingWindow.Valid, InfBlock.InflateBlocks.Valid, InData, Want;
      HereBlocks();
      r := blocks.Run(r0);
      blocks.Here();
      leave := Settle(r);
      if r != Z_BUF_ERROR { r := trv; }
    }

    /** The blocks stopped: for now, wrong, or at the end. */
    method Settle(r: int) returns (leave: bool)
      requires Parts() && blocks.Valid() && InData(Inp(), nowrap, wbits) && mode == BLOCKS && bits.Valid()
      requires Going(r) || (r == Z_STREAM_END && blocks.mode == InfBlock.B_DONE)
        || (r == Z_DATA_ERROR && blocks.Failed())
      modifies this`mode, this`was, this`need, bits
      ensures Valid() && bits.Valid() && bits.p == old(bits.p) && bits.n == old(bits.n)
      ensures leave <==> Going(r)
      ensures if leave then mode == BLOCKS else Turns(mode) < Turns(BLOCKS) && (r == Z_DATA_ERROR ==> mode == I_BAD)
    {
      hide Inflate.Valid, Parts, BitInput.Valid, SlidingWindow.Valid, InfBlock.InflateBlocks.Valid, InData, Want;
      leave := Going(r);
      if leave { MadeBlocks(); } else { LeaveBlocks(r == Z_DATA_ERROR); }
    }

    /** The blocks ended, well or not. */
    method LeaveBlocks(failed: bool)
      requires Parts() && blocks.Valid() && InData(Inp(), nowrap, wbits)
      requires if failed then blocks.Failed() else blocks.mode == InfBlock.B_DONE
      modifies this`mode, this`was, this`need, bits
      ensures Valid() && bits.Valid() && bits.p == old(bits.p) && bits.n == old(bits.n)
      ensures mode == if failed then I_BAD else if nowrap then I_DONE else CHECK4
    {
      hide Inflate.Valid, BitInput.Valid, SlidingWindow.Valid, InfBlock.InflateBlocks.Valid, InData, Stream, Blocks,
        InfBlock.Crowded;
      blocks.Yields();
      blocks.Here();
      blocks.AtEnd();
      if failed {
        mode := I_BAD;
        MadeBad();
      } else {
        EndBlocks();
      }
    }

    lemma MadeBlocks()
      requires Parts() && mode == BLOCKS && blocks.Valid() && InData(Inp(), nowrap, wbits)
      ensures Valid() && bits.Valid()
    {
      hide BitInput.Valid, SlidingWindow.Valid, InfBlock.InflateBlocks.Valid, InData;
      blocks.Here();
    }

    lemma MadeBad()
      requires Ready() && mode == I_BAD && InData(Inp(), nowrap, wbits)
      requires win.hist <= DataOf().out && (Crowded() || DataOf() == Outcome(win.hist, Bad))
      ensures Valid()
    {
      hide BitInput.Valid, SlidingWindow.Valid, InData, Data, Stream, InfBlock.Crowded, InTrailer, Tail;
      StreamData(Inp(), nowrap, wbits, win.start);
      if DataOf() == Outcome(win.hist, Bad) { TailBad(Inp(), nowrap, win.start, DataOf()); }
    }

    /** The blocks are behind and everything has been delivered. */
    method EndBlocks()
      requires Ready() && InData(Inp(), nowrap, wbits) && win.read == win.write && bits.k <= 7
      requires DataOf() == Outcome(win.hist, End(bits.Pos()))
      modifies this`mode, this`was, this`need, bits
      ensures Valid() && bits.Valid() && bits.p == old(bits.p) && bits.n == old(bits.n)
      ensures mode == if nowrap then I_DONE else CHECK4
    {
      hide Inflate.Valid, DataOf, Want, BitInput.Valid, SlidingWindow.Valid, InData, InTrailer;
      ghost var pos := bits.Pos();
      bits.Sized();
      bits.Clear();
      bits.Sized();
      win.OutInHist();
      if nowrap {
        mode := I_DONE;
        MadeDone(pos);
      } else {
        win.Checked();
        was, need := win.check, 0;
        mode := CHECK4;
        TrailerBegins(Inp(), win.start, DataOf(), need, was, bits.p, pos, win.out);
        MadeTrailer();
      }
    }

    lemma MadeDone(pos: nat)
      requires Ready() && mode == I_DONE && nowrap && win.read == win.write && pos <= 8 * bits.p < pos + 8
      requires DataOf() == Outcome(win.hist, End(pos))
      ensures Valid()
    {
      hide BitInput.Valid, SlidingWindow.Valid, Data, Stream, NextByte;
      StreamData(Inp(), nowrap, wbits, win.start);
      TailRaw(Inp(), win.start, DataOf());
      ByteAfter(bits.p, pos);
    }

    lemma MadeTrailer()
      requires Ready() && !nowrap && InData(Inp(), nowrap, wbits) && Checking(mode) && bits.K == 0
        && win.read == win.write
      requires InTrailer(Inp(), win.start, DataOf(), mode, need, was, bits.p, win.out)
      ensures Valid()
    {
      hide BitInput.Valid, SlidingWindow.Valid, InData, Data, Stream, InTrailer;
    }

    lemma HereTrailer()
      requires Valid() && Checking(mode)
      ensures Ready() && !nowrap && InData(Inp(), nowrap, wbits) && bits.K == 0 && bits.k == 0 && win.read == win.write
      ensures InTrailer(Inp(), win.start, DataOf(), mode, need, was, bits.p, win.out)
    {
      hide BitInput.Valid, SlidingWindow.Valid, InData, Data, Stream, InTrailer;
      bits.Sized();
    }

    /** CHECK4 to CHECK1: the four bytes of the check. */
    method StepCheck(r0: int, trv: int) returns (leave: bool, r: int)
      requires Valid() && Checking(mode)
      modifies this`mode, this`need, bits
      ensures Valid() && r == (if leave then r0 else trv) && (leave ==> bits.n == 0 && mode == old(mode)) && (!leave ==>
        Turns(mode) < old(Turns(mode)))
      ensures bits.p + bits.n == old(bits.p + bits.n)
    {
      hide Inflate.Valid, BitInput.Valid, SlidingWindow.Valid, InData, DataOf, InTrailer, Want;
      HereTrailer();
      leave := bits.n == 0;
      r := if leave then r0 else trv;
      if !leave { CheckByte(); }
    }

    /** One byte of the check, and the comparison after the last. */
    method CheckByte()
      requires Ready() && !nowrap && InData(Inp(), nowrap, wbits) && bits.K == 0 && win.read == win.write && bits.n > 0
      requires Checking(mode) && InTrailer(Inp(), win.start, DataOf(), mode, need, was, bits.p, win.out)
      modifies this`mode, this`need, bits
      ensures Valid() && bits.Valid() && Turns(mode) < old(Turns(mode)) && bits.p + bits.n == old(bits.p + bits.n)
    {
      hide Inflate.Valid, BitInput.Valid, SlidingWindow.Valid, InData, DataOf, InTrailer, Want, Weight;
      ghost var p, m, n0 := bits.p, mode, need;
      var b := bits.NextByte();
      need := (if mode == CHECK4 then 0 else need) + b as int * Weight(mode);
      if mode == CHECK1 {
        WeightOne();
        mode := if was == need then I_DONE else I_BAD;
        MadeChecked(n0, p);
      } else {
        TrailerNext(Inp(), win.start, DataOf(), m, n0, was, p, win.out);
        mode := NextCheck(mode);
        MadeTrailer();
      }
    }

    lemma MadeChecked(need0: nat, p: nat)
      requires Ready() && !nowrap && InData(Inp(), nowrap, wbits) && win.read == win.write && p + 1 == bits.p <= |Inp()|
      requires InTrailer(Inp(), win.start, DataOf(), CHECK1, need0, was, p, win.out)
      requires need == need0 + Inp()[p] && mode == if was == need then I_DONE else I_BAD
      ensures Valid()
    {
      hide BitInput.Valid, SlidingWindow.Valid, InData, Data, Stream, InTrailer;
      TrailerDone(Inp(), nowrap, win.start, DataOf(), need0, was, p, win.out);
      StreamData(Inp(), nowrap, wbits, win.start);
      win.OutInHist();
    }

    /** What a call may return, and in which state it leaves the machine. */
    predicate Reply(r: int, trv: int)
      reads this, bits, win
    {
      || ((r == trv || r == Z_BUF_ERROR) && !Over() && (bits.n == 0 || win.availOut == 0))
      || (r == Z_STREAM_END && mode == I_DONE)
      || (r == Z_DATA_ERROR && mode == I_BAD)
      || (r == Z_NEED_DICT && mode == DICT0)
      || (r == Z_STREAM_ERROR && mode == I_BAD)
    }

    /** The header modes, and the one waiting for a dictionary. */
    method StepHeader(r0: int, trv: int) returns (leave: bool, r: int)
      requires Valid() && (r0 == trv || r0 == Z_BUF_ERROR) && (mode == METHOD || mode == FLAG || Dictionary(mode))
      modifies this`mode, this`cmf, this`need, bits
      ensures Valid() && bits.Valid() && bits.p + bits.n == old(bits.p + bits.n)
      ensures leave ==> Reply(r, trv)
      ensures !leave ==> r == trv && Turns(mode) < old(Turns(mode))
    {
      hide BitInput.Valid, SlidingWindow.Valid, InfBlock.InflateBlocks.Valid, Stream, InMode, Parts;
      if mode == METHOD {
        leave, r := StepMethod(r0, trv);
      } else if mode == FLAG {
        leave, r := StepFlag(r0, trv);
      } else if mode == DICT0 {
        DictFails();
        mode := I_BAD;
        MadeNoDict();
        leave, r := true, Z_STREAM_ERROR;
      } else {
        leave, r := StepDict(r0, trv);
      }
    }

    lemma DictFails()
      requires Valid() && mode == DICT0
      ensures Ready() && win.hist <= Want().hist && Want().ending == NeedDict
    {
      hide BitInput.Valid, SlidingWindow.Valid, Stream;
    }

    lemma MadeNoDict()
      requires Ready() && mode == I_BAD && win.hist <= Want().hist && Want().ending == NeedDict
      ensures Valid()
    {
      hide BitInput.Valid, SlidingWindow.Valid, Stream;
    }

    lemma Here()
      requires Valid()
      ensures Ready() && bits.Valid() && win.Valid()
    {
      hide BitInput.Valid, SlidingWindow.Valid, InMode;
    }

    /** The states that are never left. */
    predicate Over()
      reads this
    {
      mode == I_DONE || mode == I_BAD
    }

    /** One pass of the state switch. */
    method Step(r0: int, trv: int) returns (leave: bool, r: int)
      requires Valid() && Going(trv) && (r0 == trv || r0 == Z_BUF_ERROR || mode == I_BAD)
      modifies this`mode, this`cmf, this`was, this`need, bits, win, win.window
      modifies blocks, blocks.hufts, blocks.blens, blocks.v, blocks.codes
      ensures Valid() && (blocks.codes == old(blocks.codes) || fresh(blocks.codes))
      ensures bits.Valid() && bits.p + bits.n == old(bits.p + bits.n)
      ensures old(win.out) <= win.out && win.given == old(win.given)
      ensures leave ==> Reply(r, trv)
      ensures !leave ==> (r == trv || mode == I_BAD) && Turns(mode) < old(Turns(mode))
      ensures old(Over()) ==> leave && Over() && mode == old(mode) && win.out == old(win.out)
    {
      hide Inflate.Valid, Ready, BitInput.Valid, SlidingWindow.Valid;
      Here();
      if mode == BLOCKS {
        leave, r := StepBlocks(r0, trv);
      } else if Checking(mode) {
        leave, r := StepCheck(r0, trv);
      } else if mode == I_DONE || mode == I_BAD {
        leave, r := true, if mode == I_DONE then Z_STREAM_END else Z_DATA_ERROR;
      } else {
        leave, r := StepHeader(r0, trv);
      }
      Here();
    }

    /** The stream is wrapped, whole and right, and all its input has been offered. */
    ghost predicate Offered()
      requires Ready()
      reads bits, win, win.window
    {
      !nowrap && bits.p + bits.n == |Inp()| && Want().ending.Finished?
    }

    /** zlib_inflate, with n bytes of input and room for output given, and any flush
        value but that of packets. */
    method Call(f: int, n: nat, room: nat) returns (r: int)
      requires Valid() && bits.p + n <= |bits.input| && f != Z_PACKET_FLUSH
      modifies this`mode, this`cmf, this`was, this`need, bits, win, win.window
      modifies blocks, blocks.hufts, blocks.blens, blocks.v, blocks.codes
      ensures Valid() && (blocks.codes == old(blocks.codes) || fresh(blocks.codes))
      ensures bits.p + bits.n == old(bits.p) + n && old(win.out) <= win.out
      ensures win.availOut + |win.out| == room + |old(win.out)|
      ensures Ready()
      ensures Offered() && win.availOut > 0 ==> r == Z_STREAM_END || Crowded()
      ensures Offered() && |win.start| + |old(win.out)| + room > |Want().hist| ==> r == Z_STREAM_END || Crowded()
      ensures Reply(r, if f == Z_FINISH then Z_BUF_ERROR else Z_OK)
      ensures old(Over()) ==> Over() && mode == old(mode) && win.out == old(win.out)
    {
      hide Inflate.Valid, Ready, BitInput.Valid, SlidingWindow.Valid, Reply;
      Here();
      Given(n, room);
      var trv := if f == Z_FINISH then Z_BUF_ERROR else Z_OK;
      var leave;
      leave, r := Step(Z_BUF_ERROR, trv);
      while !leave
        invariant Valid() && bits.Valid() && (blocks.codes == old(blocks.codes) || fresh(blocks.codes))
        invariant bits.p + bits.n == old(bits.p) + n
        invariant old(win.out) <= win.out && win.given == room + |old(win.out)|
        invariant if leave then Reply(r, trv) else r == trv || mode == I_BAD
        invariant old(Over()) ==> leave && Over() && mode == old(mode) && win.out == old(win.out)
        decreases !leave, Turns(mode)
      {
        leave, r := Step(r, trv);
      }
      Ends(r, trv);
      Fits();
    }

    /** No more is delivered than there is. */
    lemma Fits()
      requires Valid()
      ensures Ready() && |win.start| + |win.out| <= |Want().hist|
    {
      hide Inflate.Valid, Want;
      Delivers();
      Here();
    }

    /** Once all input has been offered, a wrapped stream that is whole and right has
        ended, unless there was no room for output or for tables: what has not been
        looked at by the time the input is used up is shorter than the trailer. */
    lemma Ends(r: int, trv: int)
      requires Valid() && Reply(r, trv) && Going(trv)
      ensures Ready() && win.availOut + |win.out| == win.given
      ensures Offered() && win.availOut > 0 ==> r == Z_STREAM_END || Crowded()
    {
      hide Inflate.Valid, BitInput.Valid, SlidingWindow.Valid, Want, Parts, Inflate.Crowded;
      Here();
      win.Room();
      if !nowrap && bits.p + bits.n == |Inp()| && win.availOut > 0 {
        if bits.n == 0 { Starved(); }
        if r != Z_STREAM_END && bits.n > 0 { Refused(); }
      }
    }

    lemma Starved()
      requires Valid() && !nowrap && bits.p == |Inp()|
      ensures Ready() && (Want().ending.Finished? ==> mode == I_DONE || Crowded())
    {
      hide Inflate.Valid, BitInput.Valid, SlidingWindow.Valid, Want, Parts, Inflate.Crowded, Ready;
      Here();
      if mode == BLOCKS {
        StarvedBlocks();
      } else if Checking(mode) {
        StarvedTrailer();
      } else if mode == METHOD || mode == FLAG {
        StarvedHeader();
      } else if mode != I_DONE {
        Refused();
      }
    }

    lemma Refused()
      requires Valid() && (mode == I_BAD || Dictionary(mode))
      ensures Ready() && (Want().ending.Finished? ==> Crowded())
    {
      hide BitInput.Valid, SlidingWindow.Valid, Want, Inflate.Crowded;
    }

    lemma StarvedHeader()
      requires Valid() && (mode == METHOD || mode == FLAG) && bits.p == |Inp()|
      ensures Ready() && !Want().ending.Finished?
    {
      hide BitInput.Valid, SlidingWindow.Valid, InfBlock.InflateBlocks.Valid, Data, Tail;
    }

    lemma StarvedBlocks()
      requires Valid() && mode == BLOCKS && !nowrap && bits.p == |Inp()|
      ensures Ready() && (Crowded() || !Want().ending.Finished?)
    {
      hide BitInput.Valid, SlidingWindow.Valid, InfBlock.InflateBlocks.Valid, InData, Stream, InfBlock.Crowded, Blocks,
        Inflate.Valid;
      HereBlocks();
      StreamData(Inp(), nowrap, wbits, win.start);
      blocks.Near();
      blocks.Here();
      if !Crowded() { TooFew(Inp(), win.start, DataOf()); }
    }

    lemma StarvedTrailer()
      requires Valid() && Checking(mode) && !nowrap && bits.p == |Inp()|
      ensures Ready() && !Want().ending.Finished?
    {
      hide BitInput.Valid, SlidingWindow.Valid, InfBlock.InflateBlocks.Valid, InData, Stream, Data, BigEndian, Checksum;
      StreamData(Inp(), nowrap, wbits, win.start);
    }

    /** z->next_in, avail_in, next_out and avail_out as the caller sets them. */
    method Given(n: nat, room: nat)
      requires Valid() && bits.p + n <= |bits.input|
      modifies bits`n, win`availOut, win`given
      ensures Valid() && bits.n == n && win.availOut == room && win.given == |win.out| + room
    {
      hide BitInput.Valid, SlidingWindow.Valid, InfBlock.InflateBlocks.Valid, Stream, Data, InTrailer, InData;
      if mode == BLOCKS {
        blocks.Given(n, room);
        blocks.Here();
      } else {
        bits.Given(n);
        win.Given(room);
      }
    }

    /** In every state, delivered and pending bytes are a prefix of what the
        stream means; at the end they are all of it, and all delivered. */
    lemma Delivers()
      requires Valid()
      ensures Ready() && win.start + win.out <= win.hist <= Want().hist
      ensures mode == I_DONE ==> Want() == Result(win.start + win.out, Finished(bits.p))
      ensures mode == I_BAD ==> Crowded() || Want() == Result(win.hist, Corrupt) || Want().ending == NeedDict
      ensures mode == DICT0 ==> Want().ending == NeedDict
    {
      hide BitInput.Valid, SlidingWindow.Valid, InfBlock.InflateBlocks.Valid, Stream, InData;
      win.OutInHist();
      if mode == BLOCKS {
        blocks.Yields();
        StreamData(Inp(), nowrap, wbits, win.start);
      } else if Checking(mode) {
        StreamData(Inp(), nowrap, wbits, win.start);
      }
    }

    /** Any sequence of calls, each offering some of the input that is left. */
    method Drive(calls: seq<Request>) returns (replies: seq<int>)
      requires Valid() && forall c :: c in calls ==> c.flush != Z_PACKET_FLUSH
      modifies this`mode, this`cmf, this`was, this`need, bits, win, win.window
      modifies blocks, blocks.hufts, blocks.blens, blocks.v, blocks.codes
      ensures Valid() && |replies| == |calls| && old(win.out) <= win.out
      ensures Ready() && win.start + win.out <= Want().hist
      ensures Z_STREAM_END in replies ==> Want() == Result(win.start + win.out, Finished(bits.p))
      ensures Z_DATA_ERROR in replies ==> Crowded() || Want() == Result(win.hist, Corrupt) || Want().ending == NeedDict
    {
      hide Inflate.Valid, Ready, BitInput.Valid, SlidingWindow.Valid, Want;
      Here();
      replies := [];
      var i := 0;
      while i < |calls|
        invariant i <= |calls| && |replies| == i && Valid() && bits.Valid()
        invariant blocks.codes == old(blocks.codes) || fresh(blocks.codes)
        invariant old(win.out) <= win.out
        invariant Z_STREAM_END in replies ==> mode == I_DONE
        invariant Z_DATA_ERROR in replies ==> mode == I_BAD
      {
        bits.Sized();
        var c := calls[i];
        var left := |bits.input| - bits.p;
        var r := Call(c.flush, if c.n < left then c.n else left, c.room);
        ReplyMeans(r, if c.flush == Z_FINISH then Z_BUF_ERROR else Z_OK);
        replies := replies + [r];
        i := i + 1;
        Here();
      }
      Delivers();
    }

    lemma ReplyMeans(r: int, trv: int)
      requires Reply(r, trv) && Going(trv)
      ensures r == Z_STREAM_END ==> mode == I_DONE
      ensures r == Z_DATA_ERROR ==> mode == I_BAD
    {
    }
  }

  /** The trailer is missing if the blocks end within the last 31 bits. */
  lemma TooFew(inp: seq<byte>, start: seq<byte>, o: Outcome)
    requires start <= o.out && (o.stop.End? ==> Bits8(inp) < o.stop.pos + 32)
    ensures !Tail(inp, false, start, o).ending.Finished?
  {
    hide BigEndian, Checksum;
  }

  datatype Request = Request(flush: int, n: nat, room: nat)

  /** However input and output are split, two decoders of one stream deliver the
      same bytes, one perhaps more of them, and end at the same place. */
  lemma Chunking(a: Inflate, b: Inflate)
    requires a.Valid() && b.Valid() && a.Inp() == b.Inp() && a.nowrap == b.nowrap && a.wbits == b.wbits
    requires a.win.start == b.win.start
    ensures a.win.out <= b.win.out || b.win.out <= a.win.out
    ensures a.mode == I_DONE && b.mode == I_DONE ==> a.win.out == b.win.out && a.bits.p == b.bits.p
    ensures a.mode == I_DONE ==> b.win.out <= a.win.out
  {
    hide Inflate.Valid, Stream, BitInput.Valid, SlidingWindow.Valid;
    a.Delivers();
    b.Delivers();
    Prefixes(a.win.start, a.win.out, b.win.out, a.Want().hist);
  }

  lemma Prefixes(s: seq<byte>, x: seq<byte>, y: seq<byte>, all: seq<byte>)
    requires s + x <= all && s + y <= all
    ensures x <= y || y <= x
    ensures s + x == all ==> y <= x
    ensures s + x == s + y ==> x == y
  {
    assert (s + x)[|s|..] == x && (s + y)[|s|..] == y;
    assert x == all[|s|..|s| + |x|] && y == all[|s|..|s| + |y|];
  }
}
