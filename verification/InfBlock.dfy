/** infblock.c: stored, fixed and dynamic blocks up to the last one, as a
    machine that can stop wherever input or room for output runs out. */
module InfBlock {
  import opened Bits
  import opened Canonical
  import opened HuffTables
  import opened InfTrees
  import opened Trees
  import opened Deflate
  import opened InfUtil
  import opened InfCodes

  datatype BlocksMode = TYPE | LENS | STORED | TABLE | BTREE | DTREE | CODES | DRY | B_DONE | B_BAD

  // ----- reading the format -----

  lemma TypeBits(inp: seq<byte>, pos: nat)
    ensures Peek(inp, pos, 3) < 8 && Peek(inp, pos, 3) % 2 == Peek(inp, pos, 1)
      && Peek(inp, pos, 3) / 2 == Peek(inp, pos + 1, 2)
  {
    assert Peek(inp, pos, 1) == Bit(inp, pos) + 2 * Peek(inp, pos + 1, 0);
    PeekBound(inp, pos, 3);
    Pow2Values();
  }

  /** The blocks from here on, given the header of the first. */
  lemma BlocksHeader(inp: seq<byte>, w: Reach, pos: nat, hist: seq<byte>)
    requires ReachOK(w, hist) && pos + 3 <= Bits8(inp)
    ensures var t := Peek(inp, pos, 3);
      Blocks(inp, w, pos, hist) == NextBlock(inp, w, t % 2 == 1, Block(inp, w, t / 2, pos + 3, hist))
  {
    hide Block, NextBlock, Peek;
    TypeBits(inp, pos);
  }

  lemma BlocksNext(inp: seq<byte>, w: Reach, last: bool, pos: nat, hist: seq<byte>)
    requires ReachOK(w, hist) && pos <= Bits8(inp)
    ensures NextBlock(inp, w, last, Done(pos, hist)) == if last then Outcome(hist, End(pos))
      else Blocks(inp, w, pos, hist)
  {
    hide Blocks;
  }

  lemma BlocksFail(inp: seq<byte>, w: Reach, last: bool, hist: seq<byte>)
    requires ReachOK(w, hist)
    ensures NextBlock(inp, w, last, Fail(hist)) == Outcome(hist, Bad)
  {
    hide Blocks;
  }

  /** The kinds of block. */
  lemma BlockKinds(inp: seq<byte>, w: Reach, pos: nat, hist: seq<byte>)
    requires ReachOK(w, hist)
    ensures Block(inp, w, 0, pos, hist) == StoredLength(inp, NextByte(pos), hist)
    ensures Block(inp, w, 1, pos, hist) == Body(inp, w, FixedLiteral(), FixedDistance(), pos, hist)
    ensures Block(inp, w, 2, pos, hist) == DynTable(inp, w, pos, hist)
    ensures Block(inp, w, 3, pos, hist) == Fail(hist)
  {
    hide StoredLength, Body, DynTable;
  }

  /** Sixteen bits at a byte boundary. */
  lemma PeekWord(inp: seq<byte>, at: nat)
    requires at + 2 <= |inp|
    ensures Peek(inp, 8 * at, 16) == Word(inp[at], inp[at + 1])
  {
    hide Peek;
    var v := Peek(inp, 8 * at, 16);
    PeekCut(inp, 8 * at, 8, 8);
    PeekByte(inp, at);
    PeekByte(inp, at + 1);
    LowShr(v, 8);
    Times256(Shr(v, 8));
  }

  lemma Times16(x: nat)
    ensures Shl(x, 4) == 16 * x
  {
    assert Shl(x, 2) == 2 * Shl(x, 1) == 4 * x;
    assert Shl(x, 4) == 2 * Shl(x, 3) == 4 * Shl(x, 2);
  }

  lemma Times256(x: nat)
    ensures Shl(x, 8) == 256 * x
  {
    Times16(x);
    Times16(Shl(x, 4));
    ShlShl(x, 4, 4);
  }

  /** Bytes taken t at a time. */
  lemma {:induction false} StoredMore(inp: seq<byte>, left: nat, at: nat, hist: seq<byte>, t: nat)
    requires t <= left && at + t <= |inp|
    ensures Stored(inp, left, at, hist) == Stored(inp, left - t, at + t, hist + inp[at..at + t])
    decreases t
  {
    if t == 0 {
      assert hist + inp[at..at] == hist;
    } else {
      StoredMore(inp, left - 1, at + 1, hist + [inp[at]], t - 1);
      assert hist + [inp[at]] + inp[at + 1..at + t] == hist + inp[at..at + t];
    }
  }

  lemma StoredEnd(inp: seq<byte>, at: nat, hist: seq<byte>)
    requires at <= |inp|
    ensures Stored(inp, 0, at, hist) == Done(8 * at, hist)
  {
  }

  /** A stored block after its two lengths. */
  lemma StoredHeader(inp: seq<byte>, at: nat, hist: seq<byte>)
    requires at + 4 <= |inp|
    ensures var lo, hi := Peek(inp, 8 * at, 16), Peek(inp, 8 * at + 16, 16);
      && lo < 65536 && hi < 65536
      && StoredLength(inp, at, hist) == if lo + hi != 65535 then Fail(hist) else Stored(inp, lo, at + 4, hist)
  {
    hide Stored, Peek;
    PeekWord(inp, at);
    PeekWord(inp, at + 2);
    assert 8 * at + 16 == 8 * (at + 2);
  }

  // ----- the order of the code lengths of the code-length code -----

  /** Where a symbol stands in that order. */
  const PLACE: seq<nat> := [3, 17, 15, 13, 11, 9, 7, 5, 4, 6, 8, 10, 12, 14, 16, 18, 0, 1, 2]

  function Border(i: nat): (s: nat) requires i < 19 { BORDER[i] }
  function Place(s: nat): (i: nat) requires s < 19 { PLACE[s] }

  lemma BorderPlace(i: nat)
    requires i < 19
    ensures Border(i) < 19 && Place(Border(i)) == i && Place(i) < 19 && Border(Place(i)) == i
  {
  }

  /** The first i lengths in the order are in place. */
  ghost predicate Filled(lens: seq<nat>, bl: seq<nat>, i: nat) {
    |bl| == 19 <= |lens| && forall s: nat :: s < 19 && Place(s) < i ==> lens[s] == bl[s]
  }

  ghost predicate ZeroFrom(bl: seq<nat>, i: nat) {
    |bl| == 19 && (forall s :: 0 <= s < 19 ==> bl[s] <= 7) && forall s: nat :: s < 19 && Place(s) >= i ==> bl[s] == 0
  }

  /** One more length put in place. */
  lemma FillOne(lens: seq<nat>, bl: seq<nat>, i: nat, x: nat)
    requires Filled(lens, bl, i) && i < 19
    ensures Border(i) < 19
    ensures Filled(lens[Border(i) := x], bl[Border(i) := x], i + 1)
    ensures bl[Border(i)] == x ==> Filled(lens[Border(i) := x], bl, i + 1)
    ensures x <= 7 && ZeroFrom(bl, i) ==> ZeroFrom(bl[Border(i) := x], i + 1)
  {
    BorderPlace(i);
    forall s: nat | s < 19
      ensures Place(s) == i ==> s == Border(i)
    {
      BorderPlace(s);
    }
  }

  lemma FillAll(lens: seq<nat>, bl: seq<nat>)
    requires Filled(lens, bl, 19)
    ensures lens[..19] == bl
  {
    forall s: nat | s < 19
      ensures lens[s] == bl[s]
    {
      BorderPlace(s);
    }
  }

  lemma ZeroAt(bl: seq<nat>, n: nat, i: nat)
    requires ZeroFrom(bl, n) && n <= i < 19
    ensures Border(i) < 19 && bl[Border(i)] == 0
  {
    BorderPlace(i);
  }

  lemma FilledSelf(bl: seq<nat>, i: nat)
    requires |bl| == 19
    ensures Filled(bl, bl, i)
  {
  }

  lemma OrderRead(inp: seq<byte>, w: Reach, t: nat, i: nat, bl: seq<nat>, pos: nat, hist: seq<byte>)
    requires Table(t) && i < HCLen(t) && ZeroFrom(bl, i) && ReachOK(w, hist) && pos + 3 <= Bits8(inp)
    ensures Border(i) < 19 && Peek(inp, pos, 3) <= 7
    ensures var bl' := bl[Border(i) := Peek(inp, pos, 3)];
      ZeroFrom(bl', i + 1) && DynOrder(inp, w, t, i, bl, pos, hist) == DynOrder(inp, w, t, i + 1, bl', pos + 3, hist)
  {
    hide Peek, DynLengths, Accepted, Place, Filled;
    PeekBound(inp, pos, 3);
    Pow2Values();
    FilledSelf(bl, i);
    FillOne(bl, bl, i, Peek(inp, pos, 3));
  }

  lemma OrderDone(inp: seq<byte>, w: Reach, t: nat, bl: seq<nat>, pos: nat, hist: seq<byte>)
    requires Table(t) && |bl| == 19 && ReachOK(w, hist) && forall j :: 0 <= j < 19 ==> bl[j] <= 7
    ensures DynOrder(inp, w, t, HCLen(t), bl, pos, hist) == if Accepted(bl)
      then DynLengths(inp, w, t, bl, [], pos, hist) else Fail(hist)
  {
    hide Peek, DynLengths, Accepted;
  }

  // ----- the run-length coded lengths -----

  lemma LengthsDone(inp: seq<byte>, w: Reach, t: nat, bl: seq<nat>, lens: seq<nat>, pos: nat, hist: seq<byte>)
    requires Table(t) && |bl| == 19 && Lengths(bl) && Accepted(bl) && ReachOK(w, hist)
    requires |lens| == Total(t) && Lengths(lens)
    ensures DynLengths(inp, w, t, bl, lens, pos, hist) == DynCodes(inp, w, t, lens, pos, hist)
  {
    hide DynCodes;
  }

  lemma LengthsOne(inp: seq<byte>, w: Reach, t: nat, bl: seq<nat>, lens: seq<nat>, pos: nat, hist: seq<byte>)
    requires w.Ring? && Table(t) && |bl| == 19 && Lengths(bl) && Accepted(bl) && ReachOK(w, hist)
    requires |lens| < Total(t) && Lengths(lens) && LenSymbol(bl, inp, pos) < 16
    requires pos + bl[LenSymbol(bl, inp, pos)] <= Bits8(inp)
    ensures var c := LenSymbol(bl, inp, pos);
      && Lengths(lens + [c])
      && DynLengths(inp, w, t, bl, lens, pos, hist) == DynLengths(inp, w, t, bl, lens + [c], pos + bl[c], hist)
  {
    hide DynCodes, LenSymbol, Accepted, DynRun;
  }

  function RunValue(lens: seq<nat>, i: nat, c: nat): nat
    requires c == 16 ==> 0 < i <= |lens|
  {
    if c == 16 then lens[i - 1] else 0
  }

  lemma LengthsRun(inp: seq<byte>, w: Reach, t: nat, bl: seq<nat>, lens: seq<nat>, pos: nat, hist: seq<byte>)
    requires w.Ring? && Table(t) && |bl| == 19 && Lengths(bl) && Accepted(bl) && ReachOK(w, hist)
    requires |lens| < Total(t) && Lengths(lens) && LenSymbol(bl, inp, pos) >= 16
    requires var c := LenSymbol(bl, inp, pos); pos + bl[c] + RunExtra(c) <= Bits8(inp)
    ensures var c := LenSymbol(bl, inp, pos);
      var i := RunExtra(c);
      var j := RunBase(c) + Peek(inp, pos + bl[c], i);
      if |lens| + j > Total(t) || (c == 16 && |lens| == 0) then DynLengths(inp, w, t, bl, lens, pos, hist) == Fail(hist)
      else
        var more := lens + Repeat(j, RunValue(lens, |lens|, c));
        && Lengths(more)
        && DynLengths(inp, w, t, bl, lens, pos, hist) == DynLengths(inp, w, t, bl, more, pos + bl[c] + i, hist)
  {
    hide DynCodes, LenSymbol, Accepted, Peek;
  }

  // ----- the state of the machine as a value -----

  /** The fields of the machine; bl holds the lengths of the code-length code as far
      as they are known. */
  datatype State = State(mode: BlocksMode, last: bool, left: nat, table: nat, index: nat, bb: nat, tb: nat,
          bl: seq<nat>)

  /** What makes sense of the work left, in the modes inside a block. */
  ghost predicate RestOK(inp: seq<byte>, s: State, lens: seq<nat>, pos: nat) {
    match s.mode
    case STORED => NextByte(pos) <= |inp| && s.left > 0
    case BTREE => Table(s.table) && s.index <= HCLen(s.table) && Filled(lens, s.bl, s.index) && ZeroFrom(s.bl, s.index)
    case DTREE => Table(s.table) && |s.bl| == 19 && Lengths(s.bl) && Accepted(s.bl)
      && s.index <= Total(s.table) <= |lens| && Lengths(lens[..s.index])
    case _ => s.mode == LENS || s.mode == TABLE
  }

  /** What the current block has still to do. */
  ghost function Rest(inp: seq<byte>, w: Reach, s: State, lens: seq<nat>, pos: nat, hist: seq<byte>): Part
    requires ReachOK(w, hist) && RestOK(inp, s, lens, pos)
  {
    match s.mode
    case LENS => StoredLength(inp, NextByte(pos), hist)
    case STORED => Stored(inp, s.left, NextByte(pos), hist)
    case TABLE => DynTable(inp, w, pos, hist)
    case BTREE => DynOrder(inp, w, s.table, s.index, s.bl, pos, hist)
    case DTREE => DynLengths(inp, w, s.table, s.bl, lens[..s.index], pos, hist)
  }

  /** After hist comes a block whose tables do not fit the space. */
  ghost predicate Crowded(full: Outcome, inp: seq<byte>, w: Reach, hist: seq<byte>) {
    exists ll: seq<nat>, dl: seq<nat>, last: bool, pos: nat :: CrowdedAt(full, inp, w, hist, ll, dl, last, pos)
  }

  ghost predicate CrowdedAt(full: Outcome, inp: seq<byte>, w: Reach, hist: seq<byte>, ll: seq<nat>, dl: seq<nat>,
          last: bool, pos: nat) {
    && ReachOK(w, hist) && Codes2(ll, dl) && OutOfRoom(ll, dl) && Accepted(ll) && AcceptedDist(dl, |ll|)
    && Then(full, inp, w, last, Body(inp, w, ll, dl, pos, hist))
  }

  /** Everything the stream yields is what has been written and what the work
      left to do adds to it. */
  ghost predicate Leads(full: Outcome, inp: seq<byte>, w: Reach, s: State, lens: seq<nat>, pos: nat, hist: seq<byte>)
    requires ReachOK(w, hist)
  {
    match s.mode
    case TYPE => Blocks(inp, w, pos, hist) == full
    case CODES => true
    case DRY => s.last && Outcome(hist, End(pos)) == full
    case B_DONE => s.last && Outcome(hist, End(pos)) == full
    case B_BAD => hist <= full.out && (Crowded(full, inp, w, hist) || Outcome(hist, Bad) == full)
    case _ => RestOK(inp, s, lens, pos) && Then(full, inp, w, s.last, Rest(inp, w, s, lens, pos, hist))
  }

  ghost predicate Then(full: Outcome, inp: seq<byte>, w: Reach, last: bool, rest: Part) {
    ReachOK(w, rest.hist) && (rest.Done? ==> rest.pos <= Bits8(inp)) && NextBlock(inp, w, last, rest) == full
  }

  /** How many bits the buffer may hold. */
  predicate BitsOK(m: BlocksMode, k: nat, K: nat) {
    match m
    case LENS => k <= 24 && Whole(k)
    case STORED => k == 0 && K == 0
    case DRY => k <= 7
    case B_DONE => k <= 7
    case B_BAD => true
    case _ => k <= 15
  }

  lemma BitsEmpty(k: nat, K: nat)
    requires k == 0 && K == 0
    ensures forall m: BlocksMode :: BitsOK(m, k, K)
  {
  }

  lemma BitsBad(k: nat, K: nat)
    ensures BitsOK(B_BAD, k, K)
  {
  }

  lemma BitsStored(k: nat, K: nat)
    ensures BitsOK(STORED, k, K) <==> k == 0 && K == 0
  {
  }

  lemma BitsPlain(m: BlocksMode, k: nat, K: nat)
    requires m == TYPE || m == TABLE || m == BTREE || m == DTREE || m == CODES
    ensures BitsOK(m, k, K) <==> k <= 15
  {
  }

  lemma BitsAfter(m: BlocksMode, k: nat, K: nat)
    ensures m == DRY || m == B_DONE ==> (BitsOK(m, k, K) <==> k <= 7)
    ensures m == TYPE && k <= 7 ==> BitsOK(m, k, K)
  {
  }

  lemma BitsInLens(k: nat, K: nat)
    ensures BitsOK(LENS, k, K) <==> Whole(k) && k <= 24
  {
  }

  // ----- one step of the meaning each -----

  lemma LeadsType(full: Outcome, inp: seq<byte>, w: Reach, s: State, lens: seq<nat>, pos: nat, hist: seq<byte>)
    requires ReachOK(w, hist) && s.mode == TYPE
    ensures Leads(full, inp, w, s, lens, pos, hist) <==> Blocks(inp, w, pos, hist) == full
  {
    hide Blocks;
  }

  /** The three header bits lead into a block. */
  lemma LeadsHeader(full: Outcome, inp: seq<byte>, w: Reach, s: State, lens: seq<nat>, pos: nat, hist: seq<byte>)
    requires ReachOK(w, hist) && s.mode == TYPE && pos + 3 <= Bits8(inp) && Leads(full, inp, w, s, lens, pos, hist)
    ensures var t := Peek(inp, pos, 3); t < 8 && Then(full, inp, w, t % 2 == 1, Block(inp, w, t / 2, pos + 3, hist))
  {
    hide Block, Peek;
    LeadsType(full, inp, w, s, lens, pos, hist);
    TypeBits(inp, pos);
    BlocksHeader(inp, w, pos, hist);
  }

  /** Inside a block, the rest of the block and then the next ones. */
  lemma LeadsRest(full: Outcome, inp: seq<byte>, w: Reach, s: State, lens: seq<nat>, pos: nat, hist: seq<byte>)
    requires ReachOK(w, hist)
      && (s.mode == LENS || s.mode == STORED || s.mode == TABLE || s.mode == BTREE || s.mode == DTREE)
    ensures Leads(full, inp, w, s, lens, pos, hist)
       <==> RestOK(inp, s, lens, pos) && Then(full, inp, w, s.last, Rest(inp, w, s, lens, pos, hist))
  {
    hide Blocks, Then, Rest, RestOK;
  }

  lemma LeadsBad(full: Outcome, inp: seq<byte>, w: Reach, s: State, lens: seq<nat>, pos: nat, hist: seq<byte>)
    requires ReachOK(w, hist) && s.mode == B_BAD && Then(full, inp, w, s.last, Fail(hist))
    ensures Leads(full, inp, w, s, lens, pos, hist)
  {
    hide Blocks;
    BlocksFail(inp, w, s.last, hist);
  }

  lemma NextByteAt(at: nat)
    ensures NextByte(8 * at) == at
  {
  }

  /** Dropping k & 7 bits goes to the byte boundary. */
  lemma ToByte(p: nat, k: nat)
    requires k <= 15 && k <= 8 * p
    ensures k % 8 <= k && Whole(k - k % 8) && NextByte(8 * p - (k - k % 8)) == NextByte(8 * p - k)
  {
  }

  /** The two kinds of block that begin without trees. */
  lemma LeadsInto(full: Outcome, inp: seq<byte>, w: Reach, s: State, lens: seq<nat>, pos: nat, hist: seq<byte>)
    requires ReachOK(w, hist) && (s.mode == LENS || s.mode == TABLE)
    requires Then(full, inp, w, s.last, if s.mode == LENS then StoredLength(inp, NextByte(pos), hist)
      else DynTable(inp, w, pos, hist))
    ensures Leads(full, inp, w, s, lens, pos, hist)
  {
    hide Then, StoredLength, DynTable, Blocks;
    LeadsRest(full, inp, w, s, lens, pos, hist);
  }

  /** The two lengths of a stored block. */
  lemma LeadsLengths(full: Outcome, inp: seq<byte>, w: Reach, s: State, lens: seq<nat>, at: nat, hist: seq<byte>)
    requires ReachOK(w, hist) && s.mode == LENS && at + 4 <= |inp| && Leads(full, inp, w, s, lens, 8 * at, hist)
    ensures var lo, hi := Peek(inp, 8 * at, 16), Peek(inp, 8 * at + 16, 16);
      && lo < 65536 && hi < 65536
      && Then(full, inp, w, s.last, if lo + hi != 65535 then Fail(hist) else Stored(inp, lo, at + 4, hist))
  {
    hide Stored, Peek, Blocks;
    LeadsRest(full, inp, w, s, lens, 8 * at, hist);
    NextByteAt(at);
    StoredHeader(inp, at, hist);
  }

  /** t bytes of a stored block. */
  lemma LeadsStored(full: Outcome, inp: seq<byte>, w: Reach, s: State, lens: seq<nat>, at: nat, hist: seq<byte>, t: nat)
    requires ReachOK(w, hist) && s.mode == STORED && Leads(full, inp, w, s, lens, 8 * at, hist)
    requires t <= s.left && at + t <= |inp|
    ensures s.left > 0 && Then(full, inp, w, s.last, Stored(inp, s.left - t, at + t, hist + inp[at..at + t]))
  {
    hide Stored, Blocks;
    LeadsRest(full, inp, w, s, lens, 8 * at, hist);
    NextByteAt(at);
    StoredMore(inp, s.left, at, hist, t);
  }

  function Zeros(): (z: seq<nat>) { seq(19, _ => 0) }

  /** The sizes of the two codes. */
  lemma LeadsTable(full: Outcome, inp: seq<byte>, w: Reach, s: State, lens: seq<nat>, pos: nat, hist: seq<byte>)
    requires ReachOK(w, hist) && s.mode == TABLE && pos + 14 <= Bits8(inp) && Leads(full, inp, w, s, lens, pos, hist)
    ensures var t := Peek(inp, pos, 14);
      && t < 16384
      && if HLit(t) > 29 || HDist(t) > 29 then Then(full, inp, w, s.last, Fail(hist))
         else ZeroFrom(Zeros(), 0) && Then(full, inp, w, s.last, DynOrder(inp, w, t, 0, Zeros(), pos + 14, hist))
  {
    hide DynOrder, Peek, Blocks;
    LeadsRest(full, inp, w, s, lens, pos, hist);
    PeekBound(inp, pos, 14);
    Pow2Values();
  }

  /** The start of the code-length code. */
  lemma LeadsIntoOrder(full: Outcome, inp: seq<byte>, w: Reach, s: State, lens: seq<nat>, pos: nat, hist: seq<byte>)
    requires ReachOK(w, hist) && s.mode == BTREE && Table(s.table) && s.index == 0 && s.bl == Zeros() && |lens| >= 19
    requires ZeroFrom(Zeros(), 0) && Then(full, inp, w, s.last, DynOrder(inp, w, s.table, 0, Zeros(), pos, hist))
    ensures Leads(full, inp, w, s, lens, pos, hist)
  {
    hide DynOrder, Then, Place;
    LeadsRest(full, inp, w, s, lens, pos, hist);
  }

  /** One length of the code-length code. */
  lemma LeadsOrder(full: Outcome, inp: seq<byte>, w: Reach, s: State, lens: seq<nat>, pos: nat, hist: seq<byte>)
    requires ReachOK(w, hist) && s.mode == BTREE && pos + 3 <= Bits8(inp) && Leads(full, inp, w, s, lens, pos, hist)
    requires s.index < HCLen(s.table)
    ensures s.index < 19 && Border(s.index) < 19 <= |lens| && |s.bl| == 19
    ensures var x := Peek(inp, pos, 3);
      var s' := s.(index := s.index + 1, bl := s.bl[Border(s.index) := x]);
      Leads(full, inp, w, s', lens[Border(s.index) := x], pos + 3, hist)
  {
    hide DynOrder, Peek, Blocks, Place, Filled, ZeroFrom, Then;
    LeadsRest(full, inp, w, s, lens, pos, hist);
    OrderShape(lens, s.bl, s.index);
    var x := Peek(inp, pos, 3);
    OrderRead(inp, w, s.table, s.index, s.bl, pos, hist);
    FillOne(lens, s.bl, s.index, x);
    var s' := s.(index := s.index + 1, bl := s.bl[Border(s.index) := x]);
    LeadsRest(full, inp, w, s', lens[Border(s.index) := x], pos + 3, hist);
  }

  lemma OrderShape(lens: seq<nat>, bl: seq<nat>, i: nat)
    requires Filled(lens, bl, i) && ZeroFrom(bl, i)
    ensures |bl| == 19 <= |lens| && Lengths(bl) && NoLonger(bl, 7)
  {
  }

  /** All lengths of the code-length code are known. */
  lemma LeadsOrdered(full: Outcome, inp: seq<byte>, w: Reach, s: State, lens: seq<nat>, pos: nat, hist: seq<byte>)
    requires ReachOK(w, hist) && s.mode == BTREE && Leads(full, inp, w, s, lens, pos, hist) && s.index == HCLen(s.table)
    ensures Table(s.table) && Filled(lens, s.bl, s.index) && ZeroFrom(s.bl, s.index)
    ensures |s.bl| == 19 <= |lens| && Lengths(s.bl) && NoLonger(s.bl, 7)
    ensures Then(full, inp, w, s.last, if Accepted(s.bl) then DynLengths(inp, w, s.table, s.bl, [], pos, hist)
      else Fail(hist))
  {
    hide DynOrder, DynLengths, Blocks, Place, Filled, ZeroFrom, Then, Accepted;
    LeadsRest(full, inp, w, s, lens, pos, hist);
    OrderShape(lens, s.bl, s.index);
    OrderValues(s.bl, s.index);
    OrderDone(inp, w, s.table, s.bl, pos, hist);
  }

  lemma OrderLength(lens: seq<nat>, bl: seq<nat>, i: nat)
    requires Filled(lens, bl, i)
    ensures |bl| == 19 <= |lens|
  {
  }

  lemma OrderValues(bl: seq<nat>, i: nat)
    requires ZeroFrom(bl, i)
    ensures |bl| == 19 && forall j :: 0 <= j < 19 ==> bl[j] <= 7
  {
  }

  lemma LeadsIntoLengths(full: Outcome, inp: seq<byte>, w: Reach, s: State, lens: seq<nat>, pos: nat, hist: seq<byte>)
    requires ReachOK(w, hist) && s.mode == DTREE && s.index == 0 && |lens| >= 320
    requires Table(s.table) && |s.bl| == 19 && Lengths(s.bl) && Accepted(s.bl)
    requires Then(full, inp, w, s.last, DynLengths(inp, w, s.table, s.bl, [], pos, hist))
    ensures Leads(full, inp, w, s, lens, pos, hist)
  {
    hide DynLengths, Then, Accepted;
    assert lens[..0] == [];
    LeadsRest(full, inp, w, s, lens, pos, hist);
  }

  lemma LengthsShape(full: Outcome, inp: seq<byte>, w: Reach, s: State, lens: seq<nat>, pos: nat, hist: seq<byte>)
    requires ReachOK(w, hist) && s.mode == DTREE && Leads(full, inp, w, s, lens, pos, hist)
    ensures Table(s.table) && |s.bl| == 19 && Lengths(s.bl) && Accepted(s.bl) && s.index <= Total(s.table) <= |lens|
    ensures Lengths(lens[..s.index]) && Total(s.table) == 258 + HLit(s.table) + HDist(s.table)
    ensures Then(full, inp, w, s.last, DynLengths(inp, w, s.table, s.bl, lens[..s.index], pos, hist))
  {
    hide DynLengths, Then, Accepted, Table;
    LeadsRest(full, inp, w, s, lens, pos, hist);
  }

  /** A single length. */
  lemma LeadsOne(full: Outcome, inp: seq<byte>, w: Reach, s: State, lens: seq<nat>, pos: nat, hist: seq<byte>, c: nat)
    requires w.Ring? && ReachOK(w, hist) && s.mode == DTREE && Leads(full, inp, w, s, lens, pos, hist)
    requires Accepted(s.bl) && Lengths(s.bl) && |s.bl| == 19 && c == LenSymbol(s.bl, inp, pos)
    requires s.index < Total(s.table) && c < 16 && pos + s.bl[c] <= Bits8(inp)
    ensures s.index < |lens| && Leads(full, inp, w, s.(index := s.index + 1), lens[s.index := c], pos + s.bl[c], hist)
  {
    hide DynLengths, Then, Accepted, Table, LenSymbol, Total;
    LengthsShape(full, inp, w, s, lens, pos, hist);
    LengthsOne(inp, w, s.table, s.bl, lens[..s.index], pos, hist);
    assert lens[s.index := c][..s.index + 1] == lens[..s.index] + [c];
    LeadsRest(full, inp, w, s.(index := s.index + 1), lens[s.index := c], pos + s.bl[c], hist);
  }

  /** The lengths with a run of n times x written after the first i. */
  ghost predicate RunWritten(lens: seq<nat>, lens': seq<nat>, i: nat, n: nat, x: nat) {
    |lens'| == |lens| && i + n <= |lens| && lens'[..i + n] == lens[..i] + Repeat(n, x)
  }

  /** The bits of a run, and whether there is a place for it. */
  ghost predicate RunFits(s: State, c: nat, j: nat) { s.index + j <= Total(s.table) && (c == 16 ==> s.index > 0) }

  lemma RunSame(lens: seq<nat>, lens': seq<nat>, i: nat, j: nat, c: nat)
    requires (c == 16 ==> i > 0) && i <= |lens| && RunWritten(lens, lens', i, j, RunValue(lens, i, c))
    ensures |lens'| == |lens| && i + j <= |lens'| && lens'[..i + j] == lens[..i] + Repeat(j, RunValue(lens[..i], i, c))
  {
  }

  lemma RunPlace(s: State, c: nat, j: nat, n: nat)
    requires RunFits(s, c, j) && Total(s.table) <= n && RunBase(c) <= j
    ensures 0 < j && s.index + j <= n
  {
  }

  lemma LeadsRunBad(full: Outcome, inp: seq<byte>, w: Reach, s: State, lens: seq<nat>, pos: nat, hist: seq<byte>,
          c: nat, j: nat)
    requires w.Ring? && ReachOK(w, hist) && s.mode == DTREE && Leads(full, inp, w, s, lens, pos, hist)
    requires Accepted(s.bl) && Lengths(s.bl) && |s.bl| == 19 && c == LenSymbol(s.bl, inp, pos)
    requires s.index < Total(s.table) && 16 <= c && pos + s.bl[c] + RunExtra(c) <= Bits8(inp)
    requires j == RunBase(c) + Peek(inp, pos + s.bl[c], RunExtra(c)) && !RunFits(s, c, j)
    ensures Then(full, inp, w, s.last, Fail(hist))
  {
    hide DynLengths, Then, Accepted, Table, LenSymbol, Total, RunBase, RunExtra, Peek;
    LengthsShape(full, inp, w, s, lens, pos, hist);
    LengthsRun(inp, w, s.table, s.bl, lens[..s.index], pos, hist);
  }

  lemma LeadsRun(full: Outcome, inp: seq<byte>, w: Reach, s: State, lens: seq<nat>, lens': seq<nat>, pos: nat,
          hist: seq<byte>, c: nat, j: nat)
    requires w.Ring? && ReachOK(w, hist) && s.mode == DTREE && Leads(full, inp, w, s, lens, pos, hist)
    requires Accepted(s.bl) && Lengths(s.bl) && |s.bl| == 19 && c == LenSymbol(s.bl, inp, pos)
    requires s.index < Total(s.table) && 16 <= c && pos + s.bl[c] + RunExtra(c) <= Bits8(inp)
    requires j == RunBase(c) + Peek(inp, pos + s.bl[c], RunExtra(c)) && RunFits(s, c, j)
    requires s.index <= |lens| && RunWritten(lens, lens', s.index, j, RunValue(lens, s.index, c))
    ensures Leads(full, inp, w, s.(index := s.index + j), lens', pos + s.bl[c] + RunExtra(c), hist)
  {
    hide DynLengths, Then, Accepted, Table, LenSymbol, Total, RunBase, RunExtra, Peek, RunWritten;
    LengthsShape(full, inp, w, s, lens, pos, hist);
    var old', i := lens[..s.index], s.index;
    LengthsRun(inp, w, s.table, s.bl, old', pos, hist);
    RunSame(lens, lens', i, j, c);
    LeadsRest(full, inp, w, s.(index := i + j), lens', pos + s.bl[c] + RunExtra(c), hist);
  }

  /** All lengths are known. */
  lemma LeadsToCodes(full: Outcome, inp: seq<byte>, w: Reach, s: State, lens: seq<nat>, pos: nat, hist: seq<byte>)
    requires ReachOK(w, hist) && s.mode == DTREE && Leads(full, inp, w, s, lens, pos, hist) && s.index == Total(s.table)
    ensures HLit(s.table) <= 29 && HDist(s.table) <= 29 && 258 + HLit(s.table) + HDist(s.table) <= |lens|
    ensures var n := 257 + HLit(s.table);
      var ll, dl := lens[..n], lens[n..s.index];
      && Lengths(ll) && Lengths(dl) && |dl| == 1 + HDist(s.table)
      && Then(full, inp, w, s.last, if Accepted(ll) && AcceptedDist(dl, |ll|) then Body(inp, w, ll, dl, pos, hist)
        else Fail(hist))
  {
    hide Then, Accepted, AcceptedDist, Body;
    LengthsShape(full, inp, w, s, lens, pos, hist);
    var all, n := lens[..s.index], 257 + HLit(s.table);
    LengthsDone(inp, w, s.table, s.bl, all, pos, hist);
    assert all[..n] == lens[..n] && all[n..] == lens[n..s.index];
  }

  /** The mode after a block. */
  function NextMode(last: bool): BlocksMode { if last then DRY else TYPE }

  /** Bytes are left, or the block is behind. */
  lemma LeadsFromStored(full: Outcome, inp: seq<byte>, w: Reach, s: State, lens: seq<nat>, at: nat, hist: seq<byte>)
    requires ReachOK(w, hist) && at <= |inp| && Then(full, inp, w, s.last, Stored(inp, s.left, at, hist))
    requires s.mode == if s.left > 0 then STORED else NextMode(s.last)
    ensures Leads(full, inp, w, s, lens, 8 * at, hist)
  {
    hide Blocks;
    NextByteAt(at);
    if s.left > 0 {
      LeadsRest(full, inp, w, s, lens, 8 * at, hist);
    } else {
      StoredEnd(inp, at, hist);
      LeadsNext(full, inp, w, s, lens, 8 * at, hist);
    }
  }

  /** A block is behind. */
  lemma LeadsNext(full: Outcome, inp: seq<byte>, w: Reach, s: State, lens: seq<nat>, pos: nat, hist: seq<byte>)
    requires ReachOK(w, hist) && s.mode == NextMode(s.last) && Then(full, inp, w, s.last, Done(pos, hist))
    ensures Leads(full, inp, w, s, lens, pos, hist)
  {
    hide Blocks;
    LeadsDone(full, inp, w, s.last, pos, hist);
  }

  lemma LeadsDry(full: Outcome, inp: seq<byte>, w: Reach, s: State, s': State, lens: seq<nat>, pos: nat,
          hist: seq<byte>)
    requires ReachOK(w, hist) && s.mode == DRY && s' == s.(mode := B_DONE) && Leads(full, inp, w, s, lens, pos, hist)
    ensures Leads(full, inp, w, s', lens, pos, hist)
  {
  }

  lemma ThenFail(full: Outcome, inp: seq<byte>, w: Reach, last: bool, hist: seq<byte>)
    requires ReachOK(w, hist) && Then(full, inp, w, last, Fail(hist))
    ensures full == Outcome(hist, Bad)
  {
    hide Blocks;
    BlocksFail(inp, w, last, hist);
  }

  lemma LeadsPrefix(full: Outcome, inp: seq<byte>, w: Reach, s: State, lens: seq<nat>, pos: nat, hist: seq<byte>)
    requires ReachOK(w, hist) && s.mode != CODES && Leads(full, inp, w, s, lens, pos, hist)
    ensures hist <= full.out
    ensures s.mode == B_DONE ==> full == Outcome(hist, End(pos))
    ensures s.mode == B_BAD ==> Crowded(full, inp, w, hist) || full == Outcome(hist, Bad)
  {
    hide Then, StoredLength, Stored, DynTable, DynOrder, DynLengths;
    if s.mode == LENS || s.mode == STORED || s.mode == TABLE || s.mode == BTREE || s.mode == DTREE {
      LeadsRest(full, inp, w, s, lens, pos, hist);
      LeadsMore(full, inp, w, s.last, Rest(inp, w, s, lens, pos, hist));
    }
  }

  /** The trees of a dynamic block were refused. */
  lemma LeadsBadOrMany(full: Outcome, inp: seq<byte>, w: Reach, s: State, lens: seq<nat>, pos: nat, hist: seq<byte>,
          ll: seq<nat>, dl: seq<nat>)
    requires ReachOK(w, hist) && s.mode == B_BAD && Codes2(ll, dl)
    requires Then(full, inp, w, s.last, if Accepted(ll) && AcceptedDist(dl, |ll|) then Body(inp, w, ll, dl, pos, hist)
      else Fail(hist))
    requires OutOfRoom(ll, dl) || !(Accepted(ll) && AcceptedDist(dl, |ll|))
    ensures Leads(full, inp, w, s, lens, pos, hist)
  {
    hide Then, Accepted, AcceptedDist, Body, Blocks, OutOfRoom, Rest, RestOK, Codes2, ReachOK;
    if Accepted(ll) && AcceptedDist(dl, |ll|) {
      LeadsMore(full, inp, w, s.last, Body(inp, w, ll, dl, pos, hist));
      assert CrowdedAt(full, inp, w, hist, ll, dl, s.last, pos);
    } else {
      LeadsBad(full, inp, w, s, lens, pos, hist);
    }
  }

  lemma LeadsDone(full: Outcome, inp: seq<byte>, w: Reach, last: bool, pos: nat, hist: seq<byte>)
    requires ReachOK(w, hist) && Then(full, inp, w, last, Done(pos, hist))
    ensures full == if last then Outcome(hist, End(pos)) else Blocks(inp, w, pos, hist)
  {
    hide Blocks;
    BlocksNext(inp, w, last, pos, hist);
  }

  lemma LeadsMore(full: Outcome, inp: seq<byte>, w: Reach, last: bool, rest: Part)
    requires Then(full, inp, w, last, rest)
    ensures rest.hist <= full.out
  {
    hide Blocks;
  }

  /** struct inflate_blocks_state. */
  class InflateBlocks {
    const bits: BitInput
    const win: SlidingWindow
    const hufts: array<Huft>
    const blens: array<nat>
    const v: array<nat>
    var mode: BlocksMode
    var last: bool
    var left: nat
    var table: nat
    var index: nat
    var bb: nat
    var tb: nat
    var codes: InflateCodes?
    ghost var bl: seq<nat>
    /** Where the first block starts. */
    ghost const pos0: nat

    ghost function Inp(): seq<byte> { bits.input }
    ghost function Win(): Reach { Ring(win.size) }

    ghost predicate Parts() {
      && 0 < win.size <= |win.start|
      && MANY <= hufts.Length && blens.Length == 320 && v.Length == 288
      && blens != v && blens as object != hufts && v as object != hufts
      && win.window as object != hufts && win.window as object != blens && win.window as object != v
    }

    /** Everything the stream yields. */
    ghost function Full(): Outcome
      requires Parts()
    {
      Blocks(Inp(), Win(), pos0, win.start)
    }

    ghost function St(): State
      reads this
    {
      State(mode, last, left, table, index, bb, tb, bl)
    }

    /** In CODES: the codes machine works on this block. */
    ghost predicate InCodes()
      requires Parts()
      reads this, bits, win, win.window, hufts, codes
    {
      && codes != null && codes.bits == bits && codes.win == win && codes.hufts == hufts
      && codes.Valid()
      && ReachOK(Win(), codes.hist0) && Codes2(codes.ll, codes.dl)
      && Then(Full(), Inp(), Win(), last, Body(Inp(), Win(), codes.ll, codes.dl, codes.pos0, codes.hist0))
    }

    ghost predicate Ready()
      reads bits, win, win.window
    {
      Parts() && bits.Valid() && win.Valid() && ReachOK(Win(), win.hist)
    }

    /** What has been written, and the work left, are what the stream yields. */
    ghost predicate OnTrack()
      requires Ready()
      reads this, bits, win, win.window, blens
    {
      Leads(Full(), Inp(), Win(), St(), blens[..], bits.Pos(), win.hist)
    }

    ghost predicate Valid()
      reads this, bits, win, win.window, hufts, blens, codes
    {
      && Ready()
      && BitsOK(mode, bits.k, bits.K)
      && OnTrack()
      && (mode == DTREE ==> 1 <= bb <= 7 && ReadsLengths(hufts[..], tb, bb, bl))
      && (mode == B_DONE ==> win.read == win.write)
      && (mode == CODES ==> InCodes())
    }

    /** zlib_inflate_blocks_new */
    constructor (bits: BitInput, win: SlidingWindow, hufts: array<Huft>, blens: array<nat>, v: array<nat>,
            ghost pos0: nat)
      requires bits.Valid() && bits.k <= 15 && win.Valid() && win.hist == win.start
      requires MANY <= hufts.Length && blens.Length == 320 && v.Length == 288
      requires blens != v && blens as object != hufts && v as object != hufts
      requires win.window as object != hufts && win.window as object != blens && win.window as object != v
      ensures this.bits == bits && this.win == win && this.hufts == hufts && this.blens == blens && this.v == v
      ensures this.pos0 == pos0 && Ready() && mode == TYPE && codes == null
    {
      this.bits, this.win, this.hufts, this.blens, this.v, this.pos0 := bits, win, hufts, blens, v, pos0;
      mode, last, left, table, index, bb, tb, codes := TYPE, false, 0, 0, 0, 0, 0, null;
      this.bl := [];
    }

    lemma Here()
      requires Valid()
      ensures Ready()
      ensures OnTrack()
      ensures win.write <= win.size && win.read < win.size && bits.Pos() <= Bits8(Inp())
      ensures BitsOK(mode, bits.k, bits.K)
    {
      hide Blocks, Leads, BitsOK, ReadsLengths;
      win.Sized();
    }

    /** Valid(), in the modes that need nothing more. */
    lemma Made()
      requires Ready() && BitsOK(mode, bits.k, bits.K)
      requires OnTrack()
      requires mode != DTREE && mode != B_DONE && mode != CODES
      ensures Valid()
    {
      hide Leads, BitsOK, Full;
    }

    lemma MadeBad()
      requires Ready() && mode == B_BAD && OnTrack()
      ensures Valid()
    {
      hide Leads, Full;
      BitsBad(bits.k, bits.K);
    }

    /** At the start of the first block. */
    lemma Begun()
      requires Ready() && mode == TYPE && bits.k <= 15 && bits.Pos() == pos0 && win.hist == win.start
      ensures Valid()
    {
      hide InflateBlocks.Valid, Leads, Blocks, BitsOK;
      LeadsType(Full(), Inp(), Win(), St(), blens[..], bits.Pos(), win.hist);
      BitsPlain(mode, bits.k, bits.K);
      Made();
    }

    /** The stream is wrong here. */
    method Refuse()
      requires Ready() && Then(Full(), Inp(), Win(), last, Fail(win.hist))
      modifies this`mode
      ensures Valid() && mode == B_BAD
    {
      hide InflateBlocks.Valid, Full, Then, BitInput.Valid, SlidingWindow.Valid, Leads;
      mode := B_BAD;
      LeadsBad(Full(), Inp(), Win(), St(), blens[..], bits.Pos(), win.hist);
      MadeBad();
    }

    /** The three header bits of a block, all in the bit buffer. */
    method Header() returns (kind: nat)
      requires Ready() && mode == TYPE && 3 <= bits.k
      requires OnTrack()
      modifies this`last, bits
      ensures bits.Valid() && kind < 4 && bits.Pos() == old(bits.Pos()) + 3 && bits.k == old(bits.k) - 3
      ensures bits.p == old(bits.p) && bits.n == old(bits.n)
      ensures Then(Full(), Inp(), Win(), last, Block(Inp(), Win(), kind, bits.Pos(), win.hist))
    {
      hide Leads, Full, Then, Block, Peek, BitInput.Valid, SlidingWindow.Valid;
      bits.Sized();
      LeadsHeader(Full(), Inp(), Win(), St(), blens[..], bits.Pos(), win.hist);
      var t := bits.Low(3);
      last := t % 2 == 1;
      kind := t / 2;
      bits.Dump(3);
    }

    /** The fixed trees, and a codes machine that uses them. */
    method FixedCodes()
      requires Ready() && bits.k <= 15
      requires Then(Full(), Inp(), Win(), last,
        Body(Inp(), Win(), FixedLiteral(), FixedDistance(), bits.Pos(), win.hist))
      modifies this`mode, this`codes, hufts, v
      ensures Valid() && mode == CODES && fresh(codes)
    {
      hide Blocks, NextBlock, Body, Peek, BitInput.Valid, SlidingWindow.Valid, FixedLiteral, FixedDistance, HasTree;
      var tl, td, b, d;
      b, d, tl, td := TreesFixed(hufts, v);
      FixedReady(hufts[..], b, d, tl, td);
      codes := new InflateCodes(bits, win, hufts, b, d, tl, td, FixedLiteral(), FixedDistance());
      mode := CODES;
    }

    /** TYPE: what comes first depends on the kind of block. */
    method StepType(r0: int) returns (leave: bool, r: int)
      requires Valid() && mode == TYPE && Going(r0)
      modifies this`mode, this`last, this`codes, bits, hufts, v
      ensures Valid() && (codes == old(codes) || fresh(codes))
      ensures leave ==> (r == Z_DATA_ERROR && mode == B_BAD) || (Going(r) && bits.n == 0 && mode == TYPE)
      ensures !leave ==> Going(r) && bits.Pos() > old(bits.Pos())
      ensures bits.p + bits.n == old(bits.p + bits.n) && bits.Pos() >= old(bits.Pos())
    {
      hide InflateBlocks.Valid, Leads, Full, Then, Block, Peek, BitInput.Valid, SlidingWindow.Valid, BitsOK;
      Here();
      BitsPlain(mode, bits.k, bits.K);
      var ok;
      ok, r := bits.Need(3, r0);
      BitsPlain(mode, bits.k, bits.K);
      if ok {
        var kind := Header();
        leave := StartBlock(kind);
        r := if leave then Z_DATA_ERROR else r;
      } else {
        leave := true;
        Made();
      }
    }

    /** What comes first in a block of each kind. */
    method StartBlock(kind: nat) returns (bad: bool)
      requires Ready() && bits.k <= 15 && kind < 4
      requires Then(Full(), Inp(), Win(), last, Block(Inp(), Win(), kind, bits.Pos(), win.hist))
      modifies this`mode, this`codes, bits, hufts, v
      ensures Valid() && (codes == old(codes) || fresh(codes)) && (bad ==> mode == B_BAD)
      ensures bits.p == old(bits.p) && bits.n == old(bits.n) && bits.Pos() >= old(bits.Pos())
    {
      hide InflateBlocks.Valid, Leads, Full, Then, Block, BitInput.Valid, SlidingWindow.Valid, NextByte;
      hide StoredLength, Body, DynTable, FixedLiteral, FixedDistance;
      BlockKinds(Inp(), Win(), bits.Pos(), win.hist);
      bad := kind == 3;
      if kind == 1 {
        FixedCodes();
      } else if kind == 3 {
        Refuse();
      } else {
        if kind == 0 {
          bits.Sized();
          ToByte(bits.p, bits.k);
          bits.Dump(bits.k % 8);
          bits.Sized();
          mode := LENS;
        } else {
          mode := TABLE;
        }
        LeadsInto(Full(), Inp(), Win(), St(), blens[..], bits.Pos(), win.hist);
        Made();
      }
    }

    /** LENS: the length of a stored block, and its complement. */
    method StepLens(r0: int) returns (leave: bool, r: int)
      requires Valid() && mode == LENS && Going(r0)
      modifies this`mode, this`left, bits
      ensures Valid()
      ensures leave ==> (r == Z_DATA_ERROR && mode == B_BAD) || (Going(r) && bits.n == 0 && mode == LENS)
      ensures !leave ==> Going(r) && bits.Pos() > old(bits.Pos())
      ensures bits.p + bits.n == old(bits.p + bits.n) && bits.Pos() >= old(bits.Pos())
    {
      hide InflateBlocks.Valid, Leads, Full, BitInput.Valid, SlidingWindow.Valid, BitsOK;
      Here();
      BitsInLens(bits.k, bits.K);
      var ok;
      ok, r := bits.Need(32, r0);
      BitsInLens(bits.k, bits.K);
      if ok {
        leave := StoredLen();
        r := if leave then Z_DATA_ERROR else r;
      } else {
        leave := true;
        Made();
      }
    }

    /** The two lengths, all in the bit buffer. */
    method StoredLen() returns (bad: bool)
      requires Ready() && mode == LENS && bits.k == 32
      requires OnTrack()
      modifies this`mode, this`left, bits
      ensures Valid() && (bad <==> mode == B_BAD)
      ensures !bad ==> bits.Pos() == old(bits.Pos()) + 32
      ensures bits.p == old(bits.p) && bits.n == old(bits.n) && bits.Pos() >= old(bits.Pos())
    {
      hide InflateBlocks.Valid, Leads, Full, Then, Stored, Peek, BitInput.Valid, SlidingWindow.Valid, BitsOK, NextByte;
      bits.Sized();
      ghost var s, at := St(), bits.p - 4;
      var lo, hi := bits.Halves();
      LeadsLengths(Full(), Inp(), Win(), s, blens[..], at, win.hist);
      bad := 65535 - hi != lo;
      if bad {
        Refuse();
      } else {
        left := lo;
        bits.Clear();
        BitsEmpty(bits.k, bits.K);
        mode := if left > 0 then STORED else if last then DRY else TYPE;
        LeadsFromStored(Full(), Inp(), Win(), St(), blens[..], at + 4, win.hist);
        Made();
      }
    }

    /** STORED: as many bytes as input, window and the block allow. */
    method StepStored(r0: int) returns (leave: bool, r: int)
      requires Valid() && mode == STORED && Going(r0)
      modifies this`mode, this`left, bits, win, win.window
      ensures Valid() && Going(r)
      ensures leave ==> (bits.n == 0 || win.availOut == 0) && mode == STORED
      ensures !leave ==> bits.Pos() > old(bits.Pos())
      ensures bits.p + bits.n == old(bits.p + bits.n) && bits.Pos() >= old(bits.Pos())
      ensures old(win.hist) <= win.hist && old(win.out) <= win.out && win.given == old(win.given)
    {
      hide InflateBlocks.Valid, Leads, Full, Then, Stored, BitInput.Valid, SlidingWindow.Valid, BitsOK, NextByte;
      Here();
      BitsStored(bits.k, bits.K);
      leave, r := true, r0;
      if bits.n > 0 {
        var ok;
        ok, r := win.NeedOut(r0);
        leave := !ok;
        if ok { StoredBytes(); } else { Made(); }
      }
    }

    /** The largest piece of a stored block that can be moved at once. */
    method StoredBytes()
      requires Ready() && mode == STORED
      requires bits.k == 0 && bits.K == 0 && bits.n > 0 && win.write <= win.size && win.read < win.size
        && win.Avail() > 0
      requires OnTrack()
      modifies this`mode, this`left, bits, win`write, win`hist, win.window
      ensures Valid()
      ensures bits.Pos() > old(bits.Pos()) && bits.p + bits.n == old(bits.p + bits.n)
      ensures old(win.hist) <= win.hist
    {
      hide InflateBlocks.Valid, Leads, Full, Then, Stored, BitInput.Valid, SlidingWindow.Valid, BitsOK, NextByte;
      ghost var s, at := St(), bits.p;
      bits.Sized();
      var t := left;
      if t > bits.n { t := bits.n; }
      if t > win.Avail() { t := win.Avail(); }
      LeadsStored(Full(), Inp(), Win(), s, blens[..], at, win.hist, t);
      win.Put(bits.input[bits.p..bits.p + t]);
      bits.Skip(t);
      left := left - t;
      if left == 0 { mode := if last then DRY else TYPE; }
      BitsEmpty(bits.k, bits.K);
      LeadsFromStored(Full(), Inp(), Win(), St(), blens[..], at + t, win.hist);
      Made();
    }

    /** TABLE: how many codes of each kind. */
    method StepTable(r0: int) returns (leave: bool, r: int)
      requires Valid() && mode == TABLE && Going(r0)
      modifies this`mode, this`table, this`index, this`bl, bits
      ensures Valid()
      ensures leave ==> (r == Z_DATA_ERROR && mode == B_BAD) || (Going(r) && bits.n == 0 && mode == TABLE)
      ensures !leave ==> Going(r) && bits.Pos() > old(bits.Pos())
      ensures bits.p + bits.n == old(bits.p + bits.n) && bits.Pos() >= old(bits.Pos())
    {
      hide InflateBlocks.Valid, Leads, Full, BitInput.Valid, SlidingWindow.Valid, BitsOK;
      Here();
      BitsPlain(mode, bits.k, bits.K);
      var ok;
      ok, r := bits.Need(14, r0);
      BitsPlain(mode, bits.k, bits.K);
      if ok {
        leave := ReadTable();
        r := if leave then Z_DATA_ERROR else r;
      } else {
        leave := true;
        Made();
      }
    }

    /** The sizes of the two codes, all in the bit buffer. */
    method ReadTable() returns (bad: bool)
      requires Ready() && mode == TABLE && 14 <= bits.k <= 32 && OnTrack() && bits.k <= 29
      modifies this`mode, this`table, this`index, this`bl, bits
      ensures Valid() && (bad ==> mode == B_BAD)
      ensures bits.Pos() == old(bits.Pos()) + 14 && bits.p == old(bits.p) && bits.n == old(bits.n)
    {
      hide InflateBlocks.Valid, Leads, Full, Then, DynOrder, Peek, BitInput.Valid, SlidingWindow.Valid, BitsOK, HLit,
        HDist, ZeroFrom, Zeros;
      bits.Sized();
      LeadsTable(Full(), Inp(), Win(), St(), blens[..], bits.Pos(), win.hist);
      var t := bits.Low(14);
      table := t;
      bad := HLit(t) > 29 || HDist(t) > 29;
      bits.Dump(14);
      if bad {
        Refuse();
      } else {
        index, bl, mode := 0, Zeros(), BTREE;
        LeadsIntoOrder(Full(), Inp(), Win(), St(), blens[..], bits.Pos(), win.hist);
        BitsPlain(mode, bits.k, bits.K);
        Made();
      }
    }

    /** One length of the code-length code, in the bit buffer. */
    method OrderOne()
      requires Ready() && mode == BTREE && 3 <= bits.k && OnTrack() && index < HCLen(table)
      modifies this`index, this`bl, bits, blens
      ensures Ready() && OnTrack() && index == old(index) + 1
      ensures bits.Pos() == old(bits.Pos()) + 3 && bits.p == old(bits.p) && bits.n == old(bits.n)
    {
      hide InflateBlocks.Valid, Leads, Full, DynOrder, Peek, BitInput.Valid, SlidingWindow.Valid;
      bits.Sized();
      LeadsOrder(Full(), Inp(), Win(), St(), blens[..], bits.Pos(), win.hist);
      var x := bits.Low(3);
      ghost var lens := blens[..][Border(index) := x];
      blens[Border(index)] := x;
      assert blens[..] == lens;
      bl := bl[Border(index) := x];
      index := index + 1;
      bits.Dump(3);
    }

    /** The first loop of BTREE. */
    method ReadOrder(r0: int) returns (ok: bool, r: int)
      requires Ready() && mode == BTREE && bits.k <= 15 && OnTrack() && Going(r0)
      modifies this`index, this`bl, bits, blens
      ensures Ready() && OnTrack() && bits.k <= 15 && Going(r)
      ensures if ok then index == HCLen(table) else bits.n == 0
      ensures bits.Pos() >= old(bits.Pos()) && bits.p + bits.n == old(bits.p + bits.n)
    {
      hide Leads, Full, BitInput.Valid, SlidingWindow.Valid;
      r, ok := r0, true;
      OrderBound();
      while ok && index < HCLen(table)
        invariant Ready() && OnTrack() && bits.k <= 15 && Going(r) && index <= HCLen(table)
        invariant !ok ==> bits.n == 0
        invariant bits.Pos() >= old(bits.Pos()) && bits.p + bits.n == old(bits.p + bits.n)
        decreases ok, HCLen(table) - index
      {
        ok, r := bits.Need(3, r);
        if ok { OrderOne(); }
      }
    }

    lemma OrderBound()
      requires Ready() && mode == BTREE && OnTrack()
      ensures index <= HCLen(table)
    {
      hide Full, Then, Rest, BitInput.Valid, SlidingWindow.Valid;
      LeadsRest(Full(), Inp(), Win(), St(), blens[..], bits.Pos(), win.hist);
    }

    /** The second loop of BTREE: lengths that were not sent are zero. */
    method ZeroOrder()
      requires Parts() && Filled(blens[..], bl, index) && ZeroFrom(bl, index) && index <= 19
      modifies this`index, blens
      ensures blens[..19] == bl
    {
      hide Filled, ZeroFrom, Place;
      ghost var from := index;
      while index < 19
        invariant from <= index <= 19 && Filled(blens[..], bl, index)
      {
        ZeroAt(bl, from, index);
        OrderLength(blens[..], bl, index);
        FillOne(blens[..], bl, index, 0);
        ghost var lens := blens[..][Border(index) := 0];
        blens[Border(index)] := 0;
        assert blens[..] == lens;
        index := index + 1;
      }
      FillAll(blens[..], bl);
    }

    /** The second half of BTREE: the table of the code-length code. */
    method BuildLengths() returns (bad: bool)
      requires Ready() && mode == BTREE && bits.k <= 15 && OnTrack() && index == HCLen(table)
      modifies this`mode, this`index, this`bb, this`tb, blens, hufts, v
      ensures Valid() && mode == if bad then B_BAD else DTREE
    {
      hide InflateBlocks.Valid, Leads, Full, Then, Accepted, DynLengths, BitInput.Valid, SlidingWindow.Valid, BitsOK,
        Place, ReadsLengths, Filled, ZeroFrom;
      LeadsOrdered(Full(), Inp(), Win(), St(), blens[..], bits.Pos(), win.hist);
      ZeroOrder();
      var rc;
      rc, bb, tb := TreesBits(blens[..19], hufts, v);
      bad := rc != Ok;
      if bad {
        Refuse();
      } else {
        index, mode := 0, DTREE;
        LeadsIntoLengths(Full(), Inp(), Win(), St(), blens[..], bits.Pos(), win.hist);
        MadeLengths();
      }
    }

    /** BTREE: the code-length code. */
    method StepBtree(r0: int) returns (leave: bool, r: int)
      requires Valid() && mode == BTREE && Going(r0)
      modifies this`mode, this`index, this`bl, this`bb, this`tb, bits, blens, hufts, v
      ensures Valid()
      ensures leave ==> (r == Z_DATA_ERROR && mode == B_BAD) || (Going(r) && bits.n == 0 && mode == BTREE)
      ensures !leave ==> Going(r) && mode == DTREE
      ensures bits.p + bits.n == old(bits.p + bits.n) && bits.Pos() >= old(bits.Pos())
    {
      hide InflateBlocks.Valid, OnTrack, Leads, Full, BitInput.Valid, SlidingWindow.Valid, BitsOK;
      Here();
      BitsPlain(mode, bits.k, bits.K);
      var ok;
      ok, r := ReadOrder(r0);
      if ok {
        leave := BuildLengths();
        r := if leave then Z_DATA_ERROR else r;
      } else {
        leave := true;
        BitsPlain(mode, bits.k, bits.K);
        Made();
      }
    }

    /** In DTREE: the table of the code-length code is there. */
    ghost predicate InLengths()
      requires Ready()
      reads this, bits, win, win.window, blens, hufts
    {
      && mode == DTREE && OnTrack() && bits.k <= 15
      && 1 <= bb <= 7 && ReadsLengths(hufts[..], tb, bb, bl)
    }

    lemma MadeLengths()
      requires Ready() && InLengths()
      ensures Valid()
    {
      hide Leads, Full, ReadsLengths;
    }

    lemma HereLengths()
      requires Valid() && mode == DTREE
      ensures Ready() && InLengths()
    {
      hide Leads, Full, ReadsLengths;
    }

    /** The table entry for the next code length: symbol and bits. */
    method LengthEntry() returns (c: nat, t: nat)
      requires Ready() && InLengths() && bb <= bits.k
      ensures Accepted(bl) && Lengths(bl) && |bl| == 19
      ensures c == LenSymbol(bl, Inp(), bits.Pos()) && 1 <= t == bl[c] <= bb
    {
      hide Accepted, Lengths, LenSymbol, BitInput.Valid, SlidingWindow.Valid, Full, Then;
      LengthsShape(Full(), Inp(), Win(), St(), blens[..], bits.Pos(), win.hist);
      var x := bits.Low(bb);
      assert ReadsLength(hufts[..], tb, bb, bl, Inp(), bits.Pos());
      c, t := hufts[tb + x].base, hufts[tb + x].bits;
    }

    /** A length below 16 stands for itself. */
    method LengthOne(c: nat, t: nat)
      requires Ready() && InLengths() && Accepted(bl) && Lengths(bl) && |bl| == 19
      requires c == LenSymbol(bl, Inp(), bits.Pos()) && 1 <= t == bl[c] <= bits.k && c < 16 && index < Total(table)
      modifies this`index, bits, blens
      ensures Ready() && InLengths() && index == old(index) + 1
      ensures bits.p == old(bits.p) && bits.n == old(bits.n) && bits.Pos() > old(bits.Pos())
    {
      hide Leads, Accepted, Lengths, LenSymbol, BitInput.Valid, SlidingWindow.Valid, Full, Then, ReadsLengths, Total;
      bits.Sized();
      LeadsOne(Full(), Inp(), Win(), St(), blens[..], bits.Pos(), win.hist, c);
      bits.Dump(t);
      ghost var lens := blens[..][index := c];
      blens[index] := c;
      assert blens[..] == lens;
      index := index + 1;
    }

    /** n times x from index i on. */
    method Fill(i0: nat, n: nat, x: nat)
      requires 0 < n && i0 + n <= blens.Length
      modifies blens
      ensures RunWritten(old(blens[..]), blens[..], i0, n, x)
    {
      var i, j := i0 + 1, n - 1;
      blens[i0] := x;
      while j > 0
        invariant i0 < i && i + j == i0 + n
        invariant blens[..i] == old(blens[..i0]) + Repeat(i - i0, x)
      {
        blens[i] := x;
        assert blens[..i + 1] == blens[..i] + [x];
        i, j := i + 1, j - 1;
      }
    }

    /** A run, all in the bit buffer. */
    method LengthRun(c: nat, t: nat) returns (bad: bool)
      requires Ready() && InLengthsAt(t + RunExtra(c)) && Accepted(bl) && Lengths(bl) && |bl| == 19
      requires c == LenSymbol(bl, Inp(), bits.Pos()) && 1 <= t == bl[c] && 16 <= c && index < Total(table)
      modifies this`mode, this`index, bits, blens
      ensures bad ==> Valid() && mode == B_BAD
      ensures !bad ==> Ready() && InLengths() && index > old(index)
      ensures bits.p == old(bits.p) && bits.n == old(bits.n) && bits.Pos() > old(bits.Pos())
    {
      hide InflateBlocks.Valid, Leads, Accepted, Lengths, LenSymbol, BitInput.Valid, SlidingWindow.Valid, Full, Then,
        ReadsLengths, Total, RunExtra, BitsOK, Peek;
      ghost var pos := bits.Pos();
      var i := RunExtra(c);
      bits.Dump(t);
      var j := bits.Low(i);
      bits.Dump(i);
      bits.Sized();
      bad := PutRun(c, RunBase(c) + j, pos);
    }

    /** The run itself; its code and extra bits, from pos on, are dropped. */
    method PutRun(c: nat, j: nat, ghost pos: nat) returns (bad: bool)
      requires Ready() && InRun(c, j, pos)
      modifies this`mode, this`index, blens
      ensures bad ==> Valid() && mode == B_BAD
      ensures !bad ==> Ready() && InLengths() && index > old(index)
    {
      hide InflateBlocks.Valid, Leads, Accepted, Lengths, LenSymbol, BitInput.Valid, SlidingWindow.Valid, Full, Then,
        ReadsLengths, Total, RunExtra, Peek;
      bits.Sized();
      bad := index + j > Total(table) || (c == 16 && index < 1);
      if bad {
        LeadsRunBad(Full(), Inp(), Win(), St(), blens[..], pos, win.hist, c, j);
        Refuse();
      } else {
        StoreRun(c, j, pos);
      }
    }

    /** A run of j for symbol c has been read, from pos on. */
    ghost predicate InRun(c: nat, j: nat, pos: nat)
      requires Ready()
      reads this, bits, win, win.window, blens, hufts
    {
      && mode == DTREE && bits.k <= 15 && 1 <= bb <= 7 && ReadsLengths(hufts[..], tb, bb, bl)
      && Accepted(bl) && Lengths(bl) && |bl| == 19 && c == LenSymbol(bl, Inp(), pos) && 16 <= c && index < Total(table)
      && Leads(Full(), Inp(), Win(), St(), blens[..], pos, win.hist)
      && bits.Pos() == pos + bl[c] + RunExtra(c) && j == RunBase(c) + Peek(Inp(), pos + bl[c], RunExtra(c))
    }

    method StoreRun(c: nat, j: nat, ghost pos: nat)
      requires Ready() && InRun(c, j, pos) && RunFits(St(), c, j)
      modifies this`index, blens
      ensures Ready() && InLengths() && index > old(index)
    {
      hide Leads, Accepted, Lengths, LenSymbol, BitInput.Valid, SlidingWindow.Valid, Full, Then, ReadsLengths, Total,
        RunExtra, Peek, RunWritten;
      ghost var s, lens := St(), blens[..];
      LengthsShape(Full(), Inp(), Win(), s, lens, pos, win.hist);
      bits.Sized();
      var x := if c == 16 then blens[index - 1] else 0;
      assert x == RunValue(lens, index, c);
      RunPlace(s, c, j, blens.Length);
      Fill(index, j, x);
      LeadsRun(Full(), Inp(), Win(), s, lens, blens[..], pos, win.hist, c, j);
      index := index + j;
    }

    /** InLengths() with j bits in the buffer, of which at most 15 remain. */
    ghost predicate InLengthsAt(j: nat)
      requires Ready()
      reads this, bits, win, win.window, blens, hufts
    {
      && mode == DTREE && OnTrack() && j <= bits.k <= j + 15
      && 1 <= bb <= 7 && ReadsLengths(hufts[..], tb, bb, bl)
    }

    /** One pass of the loop of DTREE. */
    method ReadLength(r0: int) returns (leave: bool, r: int)
      requires Ready() && InLengths() && index < Total(table) && Going(r0)
      modifies this`mode, this`index, bits, blens
      ensures !leave ==> Ready() && InLengths() && index > old(index) && Going(r)
      ensures leave ==> Valid() && ((r == Z_DATA_ERROR && mode == B_BAD) || (Going(r) && bits.n == 0 && mode == DTREE))
      ensures bits.p + bits.n == old(bits.p + bits.n) && bits.Pos() >= old(bits.Pos())
    {
      hide InflateBlocks.Valid, Leads, Accepted, Lengths, LenSymbol, BitInput.Valid, SlidingWindow.Valid, Full,
        ReadsLengths, Total, BitsOK;
      var ok;
      ok, r := bits.Need(bb, r0);
      if ok {
        var c, t := LengthEntry();
        if c < 16 {
          LengthOne(c, t);
          leave := false;
        } else {
          ok, r := bits.Need(t + RunExtra(c), r);
          if ok {
            leave := LengthRun(c, t);
            r := if leave then Z_DATA_ERROR else r;
          } else {
            leave := true;
            MadeLengths();
          }
        }
      } else {
        leave := true;
        MadeLengths();
      }
    }

    /** The loop of DTREE. */
    method ReadLengths(r0: int) returns (leave: bool, r: int)
      requires Ready() && InLengths() && Going(r0)
      modifies this`mode, this`index, bits, blens
      ensures !leave ==> Ready() && InLengths() && index == Total(table) && Going(r)
      ensures leave ==> Valid() && ((r == Z_DATA_ERROR && mode == B_BAD) || (Going(r) && bits.n == 0 && mode == DTREE))
      ensures bits.p + bits.n == old(bits.p + bits.n) && bits.Pos() >= old(bits.Pos())
    {
      hide InflateBlocks.Valid, Leads, Full, BitInput.Valid, SlidingWindow.Valid, ReadsLengths, Total;
      r, leave := r0, false;
      LengthsBound();
      while !leave && index < Total(table)
        invariant !leave ==> Ready() && InLengths() && index <= Total(table) && Going(r)
        invariant leave ==>
          Valid() && ((r == Z_DATA_ERROR && mode == B_BAD) || (Going(r) && bits.n == 0 && mode == DTREE))
        invariant bits.Valid() && bits.p + bits.n == old(bits.p + bits.n) && bits.Pos() >= old(bits.Pos())
        decreases !leave, Total(table) - index
      {
        leave, r := ReadLength(r);
        if leave { Here(); } else { LengthsBound(); }
      }
    }

    lemma LengthsBound()
      requires Ready() && InLengths()
      ensures index <= Total(table)
    {
      hide Full, Then, BitInput.Valid, SlidingWindow.Valid, Leads, Accepted, DynLengths, ReadsLengths;
      LengthsShape(Full(), Inp(), Win(), St(), blens[..], bits.Pos(), win.hist);
    }

    /** The end of DTREE: the trees of the block. */
    method BuildCodes() returns (bad: bool)
      requires Ready() && InLengths() && index == Total(table)
      modifies this`mode, this`codes, hufts, v
      ensures Valid() && (codes == old(codes) || fresh(codes)) && mode == if bad then B_BAD else CODES
    {
      hide InflateBlocks.Valid, InflateCodes.Valid, Leads, Full, Then, Accepted, AcceptedDist, Body, BitInput.Valid,
        SlidingWindow.Valid,
        BitsOK, ReadsLengths, HasTree, TreesReady, Lengths, AllZero, OutOfRoom, Symbol, Symbols, Peek;
      LeadsToCodes(Full(), Inp(), Win(), St(), blens[..], bits.Pos(), win.hist);
      var nl := 257 + HLit(table);
      var l, d := blens[..nl], blens[nl..index];
      assert l == blens[..][..nl] && d == blens[..][nl..index];
      var rc, b, e, tl, td;
      ghost var full;
      rc, b, e, tl, td, full := TreesDynamic(l, d, hufts, v);
      bad := rc != Ok;
      if bad {
        mode := B_BAD;
        LeadsBadOrMany(Full(), Inp(), Win(), St(), blens[..], bits.Pos(), win.hist, l, d);
        BitsBad(bits.k, bits.K);
        MadeBad();
      } else {
        DynamicReady(hufts[..], b, e, tl, td, l, d);
        codes := new InflateCodes(bits, win, hufts, b, e, tl, td, l, d);
        mode := CODES;
        MadeCodes();
      }
    }

    lemma MadeCodes()
      requires Ready() && mode == CODES && InCodes() && bits.k <= 15
      ensures Valid()
    {
      hide Full, InflateCodes.Valid;
      BitsPlain(mode, bits.k, bits.K);
    }

    /** DTREE: the lengths of both codes, and their trees. */
    method StepDtree(r0: int) returns (leave: bool, r: int)
      requires Valid() && mode == DTREE && Going(r0)
      modifies this`mode, this`index, this`codes, bits, blens, hufts, v
      ensures Valid() && (codes == old(codes) || fresh(codes))
      ensures leave ==> (r == Z_DATA_ERROR && mode == B_BAD) || (Going(r) && bits.n == 0 && mode == DTREE)
      ensures !leave ==> Going(r) && mode == CODES
      ensures bits.p + bits.n == old(bits.p + bits.n) && bits.Pos() >= old(bits.Pos())
    {
      hide InflateBlocks.Valid, InLengths, OnTrack, BitInput.Valid, SlidingWindow.Valid, Total;
      HereLengths();
      leave, r := ReadLengths(r0);
      if !leave {
        leave := BuildCodes();
        r := if leave then Z_DATA_ERROR else r;
      }
    }

    lemma HereCodes()
      requires Valid() && mode == CODES
      ensures Ready() && InCodes() && bits.k <= 15
    {
      hide Full, InflateCodes.Valid, Then;
    }

    /** CODES: the body of a block. */
    method StepCodes(r0: int) returns (leave: bool, r: int)
      requires Valid() && mode == CODES && Going(r0)
      modifies this`mode, codes, bits, win, win.window
      ensures Valid()
      ensures leave ==>
        mode == CODES && ((r == Z_DATA_ERROR && Failed()) || (Going(r) && (bits.n == 0 || win.availOut == 0)))
      ensures !leave ==> r == Z_OK && mode == NextMode(last)
      ensures bits.p + bits.n == old(bits.p + bits.n) && bits.Pos() >= old(bits.Pos())
      ensures old(win.hist) <= win.hist && old(win.out) <= win.out && win.given == old(win.given)
    {
      hide InflateBlocks.Valid, Full, BitInput.Valid, SlidingWindow.Valid, InflateCodes.Valid, Then, Body, BitsOK;
      HereCodes();
      r := codes.Run(r0);
      CodesParts();
      leave := r != Z_STREAM_END;
      if leave {
        MadeCodes();
      } else {
        r := Z_OK;
        codes.Yields();
        EndBlock();
      }
    }

    /** After a block with codes, the next one, or the end. */
    method EndBlock()
      requires Ready() && bits.k <= 7 && Then(Full(), Inp(), Win(), last, Done(bits.Pos(), win.hist))
      modifies this`mode
      ensures Valid() && mode == NextMode(last)
    {
      hide InflateBlocks.Valid, Full, BitInput.Valid, SlidingWindow.Valid, Then, BitsOK;
      mode := if last then DRY else TYPE;
      LeadsNext(Full(), Inp(), Win(), St(), blens[..], bits.Pos(), win.hist);
      BitsAfter(mode, bits.k, bits.K);
      Made();
    }

    /** The parts of a valid codes machine are valid. */
    lemma CodesParts()
      requires codes != null && codes.bits == bits && codes.win == win && codes.Valid()
      ensures bits.Valid() && win.Valid() && ReachOK(Win(), win.hist) && bits.k <= 15
    {
      hide BitInput.Valid, InflateCodes.Rest, InflateCodes.ModeOK, Symbol, Symbols, TreesReady;
      win.Sized();
    }

    /** The stream is in error. */
    predicate Failed()
      reads this, codes
    {
      mode == B_BAD || (mode == CODES && codes != null && codes.mode == BADCODE)
    }

    /** DRY: deliver all that is left. */
    method StepDry(r0: int) returns (leave: bool, r: int)
      requires Valid() && mode == DRY && Going(r0)
      modifies this`mode, win`read, win`write, win`availOut, win`out, win`check
      ensures Valid() && Going(r)
      ensures leave ==> mode == DRY && win.availOut == 0
      ensures !leave ==> mode == B_DONE
      ensures old(win.out) <= win.out
    {
      hide InflateBlocks.Valid, Full, BitInput.Valid, SlidingWindow.Valid, Leads, BitsOK;
      Here();
      BitsAfter(mode, bits.k, bits.K);
      ghost var s := St();
      r := win.Flush(r0);
      leave := win.read != win.write;
      if leave {
        Made();
      } else {
        mode := B_DONE;
        LeadsDry(Full(), Inp(), Win(), s, St(), blens[..], bits.Pos(), win.hist);
        BitsAfter(mode, bits.k, bits.K);
        MadeDone();
      }
    }

    lemma MadeDone()
      requires Ready() && mode == B_DONE && OnTrack() && BitsOK(mode, bits.k, bits.K) && win.read == win.write
      ensures Valid()
    {
      hide Leads, Full;
    }

    /** The modes of the switch before a block's data, and stored data. */
    method StepHeader(r0: int) returns (leave: bool, r: int)
      requires Valid() && Going(r0) && (mode == TYPE || mode == LENS || mode == STORED)
      modifies this`mode, this`last, this`left, this`codes, bits, win, win.window, hufts, v
      ensures Valid() && (codes == old(codes) || fresh(codes))
      ensures !leave ==> Going(r) && (bits.Pos() > old(bits.Pos()) || Turns(mode) < old(Turns(mode)))
      ensures leave ==>
        (Going(r) && (bits.n == 0 || win.availOut == 0)) || (r == Z_STREAM_END && mode == B_DONE)
          || (r == Z_DATA_ERROR && Failed())
      ensures bits.p + bits.n == old(bits.p + bits.n) && bits.Pos() >= old(bits.Pos())
      ensures old(win.hist) <= win.hist && old(win.out) <= win.out && win.given == old(win.given)
    {
      hide InflateBlocks.Valid, Ready, OnTrack, BitInput.Valid, SlidingWindow.Valid, Parts;
      Here();
      if mode == TYPE {
        leave, r := StepType(r0);
      } else if mode == LENS {
        leave, r := StepLens(r0);
      } else {
        leave, r := StepStored(r0);
      }
      Here();
    }

    /** The modes of the switch that read the code-length code. */
    method StepOrder(r0: int) returns (leave: bool, r: int)
      requires Valid() && Going(r0) && (mode == TABLE || mode == BTREE)
      modifies this`mode, this`table, this`index, this`bb, this`tb, this`bl, bits, hufts, blens, v
      ensures Valid()
      ensures !leave ==> Going(r) && (bits.Pos() > old(bits.Pos()) || Turns(mode) < old(Turns(mode)))
      ensures leave ==> (Going(r) && bits.n == 0) || (r == Z_DATA_ERROR && mode == B_BAD)
      ensures bits.p + bits.n == old(bits.p + bits.n) && bits.Pos() >= old(bits.Pos())
    {
      hide InflateBlocks.Valid, Ready, OnTrack, BitInput.Valid, SlidingWindow.Valid, Parts;
      Here();
      if mode == TABLE {
        leave, r := StepTable(r0);
      } else {
        leave, r := StepBtree(r0);
      }
      Here();
    }

    /** The modes of the switch after that. */
    method StepTail(r0: int) returns (leave: bool, r: int)
      requires Valid() && Going(r0) && (mode == CODES || mode == DRY || mode == B_DONE || mode == B_BAD)
      modifies this`mode, codes, bits, win, win.window
      ensures Valid() && (codes == old(codes) || fresh(codes))
      ensures !leave ==> Going(r) && (bits.Pos() > old(bits.Pos()) || Turns(mode) < old(Turns(mode)))
      ensures leave ==>
        (Going(r) && (bits.n == 0 || win.availOut == 0)) || (r == Z_STREAM_END && mode == B_DONE)
          || (r == Z_DATA_ERROR && Failed())
      ensures bits.p + bits.n == old(bits.p + bits.n) && bits.Pos() >= old(bits.Pos())
      ensures old(win.hist) <= win.hist && old(win.out) <= win.out && win.given == old(win.given)
    {
      hide InflateBlocks.Valid, Ready, OnTrack, BitInput.Valid, SlidingWindow.Valid, Parts;
      Here();
      if mode == CODES {
        leave, r := StepCodes(r0);
      } else if mode == DRY {
        leave, r := StepDry(r0);
      } else {
        leave, r := true, if mode == B_DONE then Z_STREAM_END else Z_DATA_ERROR;
      }
      Here();
    }

    /** One pass of the state switch. */
    method Step(r0: int) returns (leave: bool, r: int)
      requires Valid() && Going(r0)
      modifies this`mode, this`last, this`left, this`table, this`index, this`bb, this`tb, this`codes, this`bl
      modifies codes, bits, win, win.window, hufts, blens, v
      ensures Valid() && (codes == old(codes) || fresh(codes))
      ensures !leave ==> Going(r) && (bits.Pos() > old(bits.Pos()) || Turns(mode) < old(Turns(mode)))
      ensures leave ==>
        (Going(r) && (bits.n == 0 || win.availOut == 0)) || (r == Z_STREAM_END && mode == B_DONE)
          || (r == Z_DATA_ERROR && Failed())
      ensures bits.p + bits.n == old(bits.p + bits.n) && bits.Pos() >= old(bits.Pos())
      ensures old(win.hist) <= win.hist && old(win.out) <= win.out && win.given == old(win.given)
    {
      hide InflateBlocks.Valid, Ready, OnTrack, BitInput.Valid, SlidingWindow.Valid, Parts;
      if mode == TYPE || mode == LENS || mode == STORED {
        leave, r := StepHeader(r0);
      } else if mode == TABLE || mode == BTREE {
        leave, r := StepOrder(r0);
      } else if mode == DTREE {
        leave, r := StepDtree(r0);
      } else {
        leave, r := StepTail(r0);
      }
    }

    /** LEAVE */
    method Leave(r0: int) returns (r: int)
      requires Valid()
      modifies win`read, win`write, win`availOut, win`out, win`check
      ensures Valid() && (Going(r0) ==> Going(r)) && (!Going(r0) ==> r == r0)
      ensures old(win.availOut) == 0 ==> win.availOut == 0
      ensures old(win.out) <= win.out
    {
      hide Leads, Full, BitInput.Valid, SlidingWindow.Valid, BitsOK, Then, ReadsLengths, Body, Symbol, Symbols,
        TreesReady, InTree;
      win.Sized();
      r := win.Flush(r0);
    }

    /** zlib_inflate_blocks: run until the end of the last block, an error, or
        until no input or no room for output is left. */
    method Run(r0: int) returns (r: int)
      requires Valid() && Going(r0)
      modifies this`mode, this`last, this`left, this`table, this`index, this`bb, this`tb, this`codes, this`bl
      modifies codes, bits, win, win.window, hufts, blens, v
      ensures Valid() && (codes == old(codes) || fresh(codes))
      ensures (Going(r) && (bits.n == 0 || win.availOut == 0)) || (r == Z_STREAM_END && mode == B_DONE)
        || (r == Z_DATA_ERROR && Failed())
      ensures bits.p + bits.n == old(bits.p + bits.n) && bits.Pos() >= old(bits.Pos())
      ensures old(win.hist) <= win.hist && old(win.out) <= win.out && win.given == old(win.given)
    {
      hide InflateBlocks.Valid, OnTrack, BitInput.Valid, SlidingWindow.Valid;
      Here();
      var leave;
      leave, r := Step(r0);
      Here();
      while !leave
        invariant Valid() && (codes == old(codes) || fresh(codes))
        invariant !leave ==> Going(r)
        invariant leave ==>
          (Going(r) && (bits.n == 0 || win.availOut == 0)) || (r == Z_STREAM_END && mode == B_DONE)
            || (r == Z_DATA_ERROR && Failed())
        invariant bits.Valid() && bits.p + bits.n == old(bits.p + bits.n) && bits.Pos() >= old(bits.Pos())
        invariant old(win.hist) <= win.hist && old(win.out) <= win.out && win.given == old(win.given)
        decreases !leave, Bits8(bits.input) - bits.Pos(), Turns(mode)
      {
        leave, r := Step(r);
        Here();
      }
      r := Leave(r);
      Here();
    }

    /** avail_in and avail_out as the caller of the next call sets them. */
    method Given(n: nat, room: nat)
      requires Valid() && bits.p + n <= |bits.input|
      modifies bits`n, win`availOut, win`given
      ensures Valid() && bits.n == n && win.availOut == room && win.given == |win.out| + room
    {
      hide InflateCodes.Valid, BitInput.Valid, SlidingWindow.Valid, Leads, Full, ReadsLengths, BitsOK, Then, Body;
      if mode == CODES {
        codes.Given(n, room);
        CodesParts();
      } else {
        bits.Given(n);
        win.Given(room);
      }
    }

    /** At the end of the last block. */
    lemma AtEnd()
      requires Valid()
      ensures mode == B_DONE ==> win.read == win.write && bits.k <= 7
    {
      hide Full, BitInput.Valid, SlidingWindow.Valid, Leads, BitsOK;
      BitsAfter(mode, bits.k, bits.K);
    }

    /** If the stream ends, it does so less than 32 bits before the input that has
        been taken. */
    lemma Near()
      requires Valid()
      ensures Parts() && bits.Valid()
      ensures Full().stop.End? ==>
        bits.Pos() + bits.k <= Full().stop.pos + 2 * MAXBITS || Crowded(Full(), Inp(), Win(), win.hist)
    {
      hide Full, BitInput.Valid, SlidingWindow.Valid, InflateCodes.Valid, Then, Body, Crowded, Leads;
      if mode == CODES {
        HereCodes();
        codes.Near();
        ThenNear(Full(), Inp(), Win(), last, Body(Inp(), Win(), codes.ll, codes.dl, codes.pos0, codes.hist0),
          bits.Pos(), MAXBITS);
      } else {
        LeadsNear(Full(), Inp(), Win(), St(), blens[..], bits.Pos(), win.hist);
      }
    }

    /** What has been written is a prefix of what the stream yields, and all of
        it at the end or at an error. */
    lemma Yields()
      requires Valid()
      ensures Parts() && bits.Valid() && win.hist <= Full().out
      ensures mode == B_DONE ==> Full() == Outcome(win.hist, End(bits.Pos()))
      ensures Failed() ==> Crowded(Full(), Inp(), Win(), win.hist) || Full() == Outcome(win.hist, Bad)
    {
      hide Full, BitInput.Valid, SlidingWindow.Valid, InflateCodes.Valid, Then, BitsOK, Body;
      if mode == CODES {
        HereCodes();
        codes.Yields();
        LeadsMore(Full(), Inp(), Win(), last, Body(Inp(), Win(), codes.ll, codes.dl, codes.pos0, codes.hist0));
        if codes.mode == BADCODE { ThenFail(Full(), Inp(), Win(), last, win.hist); }
      } else {
        LeadsPrefix(Full(), Inp(), Win(), St(), blens[..], bits.Pos(), win.hist);
      }
    }
  }

  /** A stream ends after where it begins. */
  lemma {:induction false} BlocksEnd(inp: seq<byte>, w: Reach, pos: nat, hist: seq<byte>)
    requires ReachOK(w, hist)
    ensures var o := Blocks(inp, w, pos, hist); o.stop.End? ==> pos <= o.stop.pos <= Bits8(inp)
    decreases if pos <= Bits8(inp) then Bits8(inp) - pos + 2 else 1
  {
    hide Block, Peek;
    if pos + 3 <= Bits8(inp) {
      var b := Block(inp, w, Peek(inp, pos + 1, 2), pos + 3, hist);
      if b.Done? { BlocksEnd(inp, w, b.pos, b.hist); }
    }
  }

  /** And after the end of the present block. */
  lemma ThenNear(full: Outcome, inp: seq<byte>, w: Reach, last: bool, rest: Part, pos: nat, slack: nat)
    requires Then(full, inp, w, last, rest) && (rest.Done? ==> pos <= rest.pos + slack)
    ensures full.stop.End? ==> pos <= full.stop.pos + slack && full.stop.pos <= Bits8(inp)
  {
    hide Blocks;
    if rest.Done? { BlocksEnd(inp, w, rest.pos, rest.hist); }
  }

  lemma LeadsNear(full: Outcome, inp: seq<byte>, w: Reach, s: State, lens: seq<nat>, pos: nat, hist: seq<byte>)
    requires ReachOK(w, hist) && Leads(full, inp, w, s, lens, pos, hist) && s.mode != CODES && pos <= Bits8(inp)
    ensures full.stop.End? ==> (s.mode != B_BAD && pos <= full.stop.pos) || Crowded(full, inp, w, hist)
  {
    hide Blocks, Then, Crowded;
    if s.mode == TYPE {
      BlocksEnd(inp, w, pos, hist);
    } else if s.mode == LENS || s.mode == STORED || s.mode == TABLE || s.mode == BTREE || s.mode == DTREE {
      ThenNear(full, inp, w, s.last, Rest(inp, w, s, lens, pos, hist), pos, 0);
    }
  }

  /** Modes that follow without input in between, in order. */
  function Turns(m: BlocksMode): nat {
    match m
    case BTREE => 6 case DTREE => 5 case CODES => 4 case TYPE => 3 case DRY => 2 case B_DONE => 1 case _ => 0
  }

  /** The trees of a dynamic block, once accepted. */
  lemma DynamicReady(T: seq<Huft>, lbits: nat, dbits: nat, ltree: nat, dtree: nat, ll: seq<nat>, dl: seq<nat>)
    requires |ll| <= 286 && |dl| <= 30 && Lengths(ll) && Lengths(dl) && AcceptedDist(dl, |ll|)
    requires HasTree(T, ltree, lbits, ll, LITERALS) && (!AllZero(dl) ==> HasTree(T, dtree, dbits, dl, DISTANCES))
    ensures TreesReady(T, lbits, dbits, ltree, dtree, ll, dl)
  {
    hide HasTree, Accepted, AllZero;
    AcceptedKraft(dl);
  }

  lemma FixedReady(T: seq<Huft>, lbits: nat, dbits: nat, ltree: nat, dtree: nat)
    requires HasTree(T, ltree, lbits, FixedLiteral(), LITERALS) && HasTree(T, dtree, dbits, FixedDistance(), DISTANCES)
    ensures TreesReady(T, lbits, dbits, ltree, dtree, FixedLiteral(), FixedDistance())
  {
    hide HasTree, Kraft;
    FixedLiteralComplete();
    FixedDistanceIncomplete();
  }
}
