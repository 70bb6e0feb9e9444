/** infcodes.c and inffast.c: literals and length/distance pairs, as a machine
    that can stop and resume between any two bytes of input or output, and as
    the unchecked loop that runs while there is plenty of both. */
module InfCodes {
  import opened Bits
  import opened Canonical
  import opened HuffTables
  import opened InfTrees
  import opened Trees
  import opened Deflate
  import opened InfUtil

  datatype CodesMode = START | LEN | LENEXT | DIST | DISTEXT | COPY | LIT | WASH | END | BADCODE

  /** The two trees of a block, the distance tree missing if there are no
      length symbols. */
  ghost predicate TreesReady(T: seq<Huft>, lbits: nat, dbits: nat, ltree: nat, dtree: nat, ll: seq<nat>, dl: seq<nat>) {
    && Codes2(ll, dl) && Lengths(ll) && Lengths(dl)
    && HasTree(T, ltree, lbits, ll, LITERALS)
    && (if AllZero(dl) then |ll| <= 257 else HasTree(T, dtree, dbits, dl, DISTANCES))
  }

  /** Part of the way down a tree: the tables at `tree` finish the symbol that
      began at `from`. */
  ghost predicate InTree(T: seq<Huft>, tree: nat, need: nat, lens: seq<nat>, m: Meaning, inp: seq<byte>, from: nat,
          pos: nat) {
    m.Covers(|lens|) && exists hi: nat, w: nat :: InTreeAt(T, hi, w, tree, need, lens, m, inp, from, pos)
  }

  ghost predicate InTreeAt(T: seq<Huft>, hi: nat, w: nat, tree: nat, need: nat, lens: seq<nat>, m: Meaning,
          inp: seq<byte>, from: nat, pos: nat)
    requires m.Covers(|lens|)
  {
    TableOK(T, hi, 9, tree, need, w) && pos == from + w && Walk(T, tree, need, inp, pos) == CodeHit(lens, m, inp, from)
  }

  lemma TreeNear(T: seq<Huft>, tree: nat, need: nat, lens: seq<nat>, m: Meaning, inp: seq<byte>, from: nat, pos: nat)
    requires InTree(T, tree, need, lens, m, inp, from, pos)
    ensures pos <= from + MAXBITS
  {
    Lookup(T, tree, need, lens, m, inp, from, pos);
  }

  lemma AtRoot(T: seq<Huft>, tree: nat, need: nat, lens: seq<nat>, m: Meaning, inp: seq<byte>, pos: nat)
    requires HasTree(T, tree, need, lens, m)
    ensures InTree(T, tree, need, lens, m, inp, pos, pos)
  {
    var hi: nat :| TreeFor(T, 0, hi, tree, need, lens, m);
    assert InTreeAt(T, hi, 0, tree, need, lens, m, inp, pos, pos);
  }

  /** One lookup: in bounds, and either one level further down or at the entry
      of the symbol. */
  lemma Lookup(T: seq<Huft>, tree: nat, need: nat, lens: seq<nat>, m: Meaning, inp: seq<byte>, from: nat, pos: nat)
    requires InTree(T, tree, need, lens, m, inp, from, pos)
    ensures 1 <= need <= 9 && pos + need <= from + MAXBITS && tree + Peek(inp, pos, need) < |T|
    ensures var i := tree + Peek(inp, pos, need);
      && 1 <= T[i].bits <= need
      && (if IsLink(T[i]) then InTree(T, i + T[i].base, T[i].exop, lens, m, inp, from, pos + T[i].bits)
          else if IsBad(T[i]) then CodeHit(lens, m, inp, from) == Miss
          else CodeHit(lens, m, inp, from) == Hit(T[i].exop, T[i].base, pos + T[i].bits))
  {
    var hi: nat, w: nat :| InTreeAt(T, hi, w, tree, need, lens, m, inp, from, pos);
    PeekBound(inp, pos, need);
    var i := tree + Peek(inp, pos, need);
    assert EntryOK(T, hi, 9, i, need, w);
    if IsLink(T[i]) {
      assert InTreeAt(T, hi, w + T[i].bits, i + T[i].base, T[i].exop, lens, m, inp, from, pos + T[i].bits);
    }
  }

  // ----- what an entry means -----

  lemma LengthTable(s: nat)
    requires 257 <= s <= 285
    ensures LengthBits(s) <= 5 && 3 <= LengthBase(s) && LengthBase(s) + Pow2(LengthBits(s)) <= 259
  {
    Pow2Values();
  }

  lemma DistanceTable(s: nat)
    requires s < 30
    ensures DistanceBits(s) <= 13 && 1 <= DistanceBase(s)
  {
  }

  lemma ExtraKind(x: nat, e: Huft)
    requires x < 16 && e.exop == x + 16 + 64
    ensures e.exop / 16 % 2 == 1 && e.exop % 16 == x && !IsBad(e)
  {
    assert e.exop / 16 == 5;
  }

  lemma LiteralKind(s: nat, bits: nat)
    requires s < 288
    ensures var e := LITERALS.Entry(s, bits);
      && e.bits == bits
      && (if s < 256 then e.exop == 0 && e.base == s && !IsBad(e)
          else if s == 256 then e.exop == 96 && !IsBad(e)
          else if s <= 285 then
            && e.exop / 16 % 2 == 1 && e.exop % 16 == LengthBits(s) && e.base == LengthBase(s) && !IsBad(e)
          else IsBad(e))
  {
    hide IsBad, Meaning.Entry, LengthBits, LengthBase;
    if s < 257 {
      LiteralEnd(s, bits);
    } else if s <= 285 {
      LengthKind(s, bits);
    } else {
      UnusedKind(s, bits);
    }
  }

  lemma LiteralEnd(s: nat, bits: nat)
    requires s < 257
    ensures var e := LITERALS.Entry(s, bits);
      e.bits == bits && !IsBad(e) && if s < 256 then e.exop == 0 && e.base == s else e.exop == 96
  {
  }

  lemma LengthKind(s: nat, bits: nat)
    requires 257 <= s <= 285
    ensures var e := LITERALS.Entry(s, bits);
      e.bits == bits && e.exop / 16 % 2 == 1 && e.exop % 16 == LengthBits(s) && e.base == LengthBase(s) && !IsBad(e)
  {
    hide IsBad, Meaning.Entry, LengthBits, LengthBase;
    LengthTable(s);
    LengthFields(s);
    EntryExtra(LITERALS, s, bits);
    ExtraKind(LengthBits(s), LITERALS.Entry(s, bits));
  }

  lemma EntryExtra(m: Meaning, s: nat, bits: nat)
    requires m.s <= s && s - m.s < |m.d| && s - m.s < |m.e|
    ensures m.Entry(s, bits) == Huft(m.e[s - m.s] + 16 + 64, bits, m.d[s - m.s])
  {
  }

  lemma LengthFields(s: nat)
    requires 257 <= s <= 285
    ensures LITERALS.s == 257 && s - 257 < |LITERALS.d| && s - 257 < |LITERALS.e|
    ensures LITERALS.e[s - 257] == LengthBits(s) && LITERALS.d[s - 257] == LengthBase(s)
  {
    assert LITERALS.d == CPLENS && LITERALS.e == CPLEXT && |CPLENS| == |CPLEXT| == 31;
  }

  lemma UnusedKind(s: nat, bits: nat)
    requires 286 <= s < 288
    ensures var e := LITERALS.Entry(s, bits); e.bits == bits && IsBad(e)
  {
    assert CPLEXT[s - 257] == 112;
  }

  lemma DistanceKind(s: nat, bits: nat)
    requires s < 30
    ensures var e := DISTANCES.Entry(s, bits);
      e.bits == bits && e.exop / 16 % 2 == 1 && e.exop % 16 == DistanceBits(s) && e.base == DistanceBase(s) && !IsBad(e)
  {
    DistanceTable(s);
    ExtraKind(DistanceBits(s), DISTANCES.Entry(s, bits));
  }

  /** The entry of a literal/length code decides how its symbol goes on. */
  lemma LiteralEntry(inp: seq<byte>, w: Reach, ll: seq<nat>, dl: seq<nat>, from: nat, hist: seq<byte>)
    requires Codes2(ll, dl) && ReachOK(w, hist)
    ensures LITERALS.Covers(|ll|)
    ensures match CodeHit(ll, LITERALS, inp, from)
      case Miss => Symbol(inp, w, ll, dl, from, hist) == Wrong
      case Hit(exop, base, end) =>
        end <= Bits8(inp) ==>
          if exop == 0 then base < 256 && Symbol(inp, w, ll, dl, from, hist) == More(end, hist + [base])
          else if exop / 16 % 2 == 1 then
            && |ll| > 257 && exop % 16 <= 5 && 3 <= base && base + Pow2(exop % 16) <= 259
            && Symbol(inp, w, ll, dl, from, hist) == LengthExtra(inp, w, dl, exop % 16, base, end, hist)
          else Symbol(inp, w, ll, dl, from, hist) == EndOfBlock(end)
  {
    hide LengthExtra, Decode, Pow2, IsBad, Meaning.Covers, Meaning.Entry, LengthBits, LengthBase;
    var s := Decode(ll, inp, from);
    MeaningsCover();
    CoversFewer(LITERALS, 288, |ll|);
    if s >= 0 {
      LiteralKind(s, ll[s]);
      if 257 <= s <= 285 { LengthTable(s); }
    }
  }

  lemma DistanceEntry(inp: seq<byte>, w: Reach, dl: seq<nat>, len: nat, from: nat, hist: seq<byte>)
    requires |dl| <= 30 && ReachOK(w, hist)
    ensures DISTANCES.Covers(|dl|)
    ensures match CodeHit(dl, DISTANCES, inp, from)
      case Miss => Distance(inp, w, dl, len, from, hist) == Wrong
      case Hit(exop, base, end) =>
        && exop / 16 % 2 == 1 && exop % 16 <= 13 && 1 <= base
        && (end <= Bits8(inp) ==>
          Distance(inp, w, dl, len, from, hist) == DistanceExtra(inp, w, len, exop % 16, base, end, hist))
  {
    hide DistanceExtra, Decode, IsBad, Meaning.Covers, Meaning.Entry, DistanceBits, DistanceBase;
    var s := Decode(dl, inp, from);
    MeaningsCover();
    CoversFewer(DISTANCES, 30, |dl|);
    if s >= 0 {
      DistanceKind(s, dl[s]);
      DistanceTable(s);
    }
  }

  // ----- the copy -----

  /** A string copied one byte further. */
  lemma CopyStep(w: Reach, dist: nat, len: nat, hist: seq<byte>)
    requires 0 < dist && ReachOK(w, hist) && w.Ring? && len > 0
    ensures Copy(w, dist, len, hist) == Copy(w, dist, len - 1, hist + [hist[|hist| - Back(dist, w.size)]])
  {
  }

  lemma CopyNone(w: Reach, dist: nat, hist: seq<byte>)
    requires 0 < dist && ReachOK(w, hist) && w.Ring?
    ensures Copy(w, dist, 0, hist) == hist
  {
  }

  /** Copying n bytes and then more. */
  lemma {:induction false} CopyConcat(w: Reach, dist: nat, n: nat, len: nat, hist: seq<byte>)
    requires 0 < dist && ReachOK(w, hist) && w.Ring? && n <= len
    ensures Copy(w, dist, len, hist) == Copy(w, dist, len - n, Copy(w, dist, n, hist))
    decreases n
  {
    hide Copy, Back;
    if n == 0 {
      CopyNone(w, dist, hist);
    } else {
      CopyStep(w, dist, n, hist);
      CopyStep(w, dist, len, hist);
      CopyConcat(w, dist, n - 1, len - 1, hist + [hist[|hist| - Back(dist, w.size)]]);
    }
  }

  /** A block is what its first n symbols and the rest of it yield. */
  lemma BodyAfter(n: nat, inp: seq<byte>, w: Reach, ll: seq<nat>, dl: seq<nat>, pos: nat, hist: seq<byte>, p: nat,
          h: seq<byte>)
    requires Codes2(ll, dl) && ReachOK(w, hist) && ReachOK(w, h)
    requires Symbols(n, inp, w, ll, dl, pos, hist) == More(p, h)
    ensures Body(inp, w, ll, dl, pos, hist) == After(inp, w, ll, dl, Symbol(inp, w, ll, dl, p, h), h)
  {
    hide Symbol, Symbols;
    SymbolsBody(n, inp, w, ll, dl, pos, hist);
  }

  /** struct inflate_codes_state, working on the input and window it is given. */
  class InflateCodes {
    const bits: BitInput
    const win: SlidingWindow
    const hufts: array<Huft>
    const lbits: nat
    const dbits: nat
    const ltree: nat
    const dtree: nat
    var mode: CodesMode
    var len: nat
    var need: nat
    var tree: nat
    var lit: nat
    var get: nat
    var dist: nat

    /** The code lengths behind the trees, and where the block's data began. */
    ghost const ll: seq<nat>
    ghost const dl: seq<nat>
    ghost const pos0: nat
    ghost const hist0: seq<byte>
    /** How many whole symbols are behind, and where the current one began. */
    ghost var done: nat
    ghost var symPos: nat
    ghost var symHist: seq<byte>
    /** Where the code being looked up began. */
    ghost var from: nat

    ghost function Inp(): seq<byte> { bits.input }
    ghost function Win(): Reach { Ring(win.size) }

    ghost predicate Apart() {
      bits as object != this && win as object != this && win.window as object != hufts && win.window as object != this
    }

    /** What the current symbol has still to do. */
    ghost function Rest(): Step
      requires Codes2(ll, dl) && bits.Valid() && win.Valid()
      reads this, bits, win, win.window
    {
      var pos, h, w := bits.Pos(), win.hist, Win();
      match mode
      case START => Symbol(Inp(), w, ll, dl, pos, h)
      case LEN => Symbol(Inp(), w, ll, dl, from, h)
      case LENEXT => LengthExtra(Inp(), w, dl, get, len, pos, h)
      case DIST => Distance(Inp(), w, dl, len, from, h)
      case DISTEXT => if dist > 0 then DistanceExtra(Inp(), w, len, get, dist, pos, h) else Wrong
      case COPY => if dist > 0 then More(pos, Copy(w, dist, len, h)) else Wrong
      case LIT => if lit < 256 then More(pos, h + [lit]) else Wrong
      case WASH => EndOfBlock(pos)
      case END => EndOfBlock(pos)
      case BADCODE => Wrong
    }

    /** Bounds on the fields that the mode uses. */
    ghost predicate ModeOK()
      requires bits.Valid() && win.Valid()
      reads this, hufts, bits, win, win.window
    {
      match mode
      case START => symPos == bits.Pos()
      case LEN => InTree(hufts[..], tree, need, ll, LITERALS, Inp(), from, bits.Pos())
      case LENEXT => !AllZero(dl) && get <= 5 && 3 <= len && len + Pow2(get) <= 259
      case DIST => !AllZero(dl) && 3 <= len <= 258
        && InTree(hufts[..], tree, need, dl, DISTANCES, Inp(), from, bits.Pos())
      case DISTEXT => 3 <= len <= 258 && get <= 13 && 1 <= dist
      case COPY => len <= 258 && 1 <= dist
      case LIT => lit < 256
      case WASH => true
      case END => win.Pending() == 0 && bits.k <= 7
      case BADCODE => true
    }

    /** The parts never change, and both trees decode the block's codes. */
    ghost predicate Ready()
      reads this, bits, win, win.window, hufts
    {
      && Apart() && bits.Valid() && win.Valid() && bits.k <= 15
      && TreesReady(hufts[..], lbits, dbits, ltree, dtree, ll, dl)
      && |hist0| >= win.size
    }

    /** The machine is some whole symbols into the block, and what it is about
        to do finishes the next one. */
    ghost predicate Valid()
      reads this, bits, win, win.window, hufts
    {
      && Ready() && ModeOK()
      && Symbols(done, Inp(), Win(), ll, dl, pos0, hist0) == More(symPos, symHist)
      && Rest() == Symbol(Inp(), Win(), ll, dl, symPos, symHist)
      && symPos <= bits.Pos()
      && (if mode == COPY then symHist <= win.hist else symHist == win.hist)
    }

    constructor (bits: BitInput, win: SlidingWindow, hufts: array<Huft>, lbits: nat, dbits: nat, ltree: nat, dtree: nat,
                 ghost ll: seq<nat>, ghost dl: seq<nat>)
      requires bits.Valid() && win.Valid() && bits.k <= 15 && win.window as object != hufts
      requires TreesReady(hufts[..], lbits, dbits, ltree, dtree, ll, dl)
      ensures Valid() && mode == START
      ensures this.bits == bits && this.win == win && this.hufts == hufts && this.ll == ll && this.dl == dl
      ensures pos0 == bits.Pos() && hist0 == win.hist
      ensures fresh(this)
    {
      this.bits, this.win, this.hufts := bits, win, hufts;
      this.lbits, this.dbits, this.ltree, this.dtree := lbits, dbits, ltree, dtree;
      this.ll, this.dl := ll, dl;
      mode := START;
      len, need, tree, lit, get, dist := 0, 0, 0, 0, 0, 0;
      pos0, hist0 := bits.Pos(), win.hist;
      done, symPos, symHist, from := 0, bits.Pos(), win.hist, 0;
    }

    /** Between two symbols, or within one that has not been copied from yet. */
    ghost predicate Core()
      reads this, bits, win, win.window, hufts
    {
      && Ready() && symPos <= bits.Pos() && symHist == win.hist
      && Symbols(done, Inp(), Win(), ll, dl, pos0, hist0) == More(symPos, symHist)
    }

    lemma AtLen()
      requires Valid() && mode == LEN
      ensures Core() && InTree(hufts[..], tree, need, ll, LITERALS, Inp(), from, bits.Pos())
      ensures |ll| > 257 ==> !AllZero(dl)
      ensures Codes2(ll, dl) && ReachOK(Win(), win.hist)
      ensures Symbol(Inp(), Win(), ll, dl, from, win.hist) == Symbol(Inp(), Win(), ll, dl, symPos, symHist)
    {
      hide InTree, Symbol, Symbols, HasTree, BitInput.Valid, Mirrors;
    }

    lemma MadeLen()
      requires Core() && mode == LEN && InTree(hufts[..], tree, need, ll, LITERALS, Inp(), from, bits.Pos())
      requires Codes2(ll, dl) && ReachOK(Win(), win.hist)
      requires Symbol(Inp(), Win(), ll, dl, from, win.hist) == Symbol(Inp(), Win(), ll, dl, symPos, symHist)
      ensures Valid()
    {
      hide InTree, Symbol, Symbols, HasTree, BitInput.Valid, SlidingWindow.Valid;
    }

    lemma AtLenext()
      requires Valid() && mode == LENEXT
      ensures Core() && !AllZero(dl) && get <= 5 && 3 <= len && len + Pow2(get) <= 259
      ensures Codes2(ll, dl) && ReachOK(Win(), win.hist)
      ensures LengthExtra(Inp(), Win(), dl, get, len, bits.Pos(), win.hist)
        == Symbol(Inp(), Win(), ll, dl, symPos, symHist)
    {
      hide InTree, Symbol, Symbols, HasTree, BitInput.Valid, Mirrors, LengthExtra, Pow2;
    }

    lemma MadeLenext()
      requires Core() && mode == LENEXT && !AllZero(dl) && get <= 5 && 3 <= len && len + Pow2(get) <= 259
      requires Codes2(ll, dl) && ReachOK(Win(), win.hist)
      requires LengthExtra(Inp(), Win(), dl, get, len, bits.Pos(), win.hist)
        == Symbol(Inp(), Win(), ll, dl, symPos, symHist)
      ensures Valid()
    {
      hide InTree, Symbol, Symbols, HasTree, BitInput.Valid, SlidingWindow.Valid, LengthExtra, Pow2;
    }

    lemma AtDist()
      requires Valid() && mode == DIST
      ensures Core() && !AllZero(dl) && 3 <= len <= 258
        && InTree(hufts[..], tree, need, dl, DISTANCES, Inp(), from, bits.Pos())
      ensures Codes2(ll, dl) && ReachOK(Win(), win.hist)
      ensures Distance(Inp(), Win(), dl, len, from, win.hist) == Symbol(Inp(), Win(), ll, dl, symPos, symHist)
    {
      hide InTree, Symbol, Symbols, HasTree, BitInput.Valid, Mirrors, Distance;
    }

    lemma MadeDist()
      requires Core() && mode == DIST && !AllZero(dl) && 3 <= len <= 258
      requires InTree(hufts[..], tree, need, dl, DISTANCES, Inp(), from, bits.Pos())
      requires Codes2(ll, dl) && ReachOK(Win(), win.hist)
      requires Distance(Inp(), Win(), dl, len, from, win.hist) == Symbol(Inp(), Win(), ll, dl, symPos, symHist)
      ensures Valid()
    {
      hide InTree, Symbol, Symbols, HasTree, BitInput.Valid, SlidingWindow.Valid, Distance;
    }

    lemma MadeDistext()
      requires Core() && mode == DISTEXT && 3 <= len <= 258 && get <= 13 && 1 <= dist
      requires Codes2(ll, dl) && ReachOK(Win(), win.hist)
      requires DistanceExtra(Inp(), Win(), len, get, dist, bits.Pos(), win.hist)
        == Symbol(Inp(), Win(), ll, dl, symPos, symHist)
      ensures Valid()
    {
      hide InTree, Symbol, Symbols, HasTree, BitInput.Valid, SlidingWindow.Valid, DistanceExtra;
    }

    lemma MadeLit()
      requires Core() && mode == LIT && lit < 256
      requires Codes2(ll, dl) && ReachOK(Win(), win.hist)
      requires More(bits.Pos(), win.hist + [lit]) == Symbol(Inp(), Win(), ll, dl, symPos, symHist)
      ensures Valid()
    {
      hide InTree, Symbol, Symbols, HasTree, BitInput.Valid, SlidingWindow.Valid;
    }

    lemma MadeWash()
      requires Core() && mode == WASH
      requires Codes2(ll, dl) && ReachOK(Win(), win.hist)
      requires EndOfBlock(bits.Pos()) == Symbol(Inp(), Win(), ll, dl, symPos, symHist)
      ensures Valid()
    {
      hide InTree, Symbol, Symbols, HasTree, BitInput.Valid, SlidingWindow.Valid;
    }

    lemma MadeBadCode()
      requires Core() && mode == BADCODE
      requires Codes2(ll, dl) && ReachOK(Win(), win.hist)
      requires Wrong == Symbol(Inp(), Win(), ll, dl, symPos, symHist)
      ensures Valid()
    {
      hide InTree, Symbol, Symbols, HasTree, BitInput.Valid, SlidingWindow.Valid;
    }

    /** START without the fast loop: set up for LEN. */
    method StepStart()
      requires Valid() && mode == START
      modifies this`mode, this`need, this`tree, this`from
      ensures Valid() && mode == LEN
    {
      hide BitInput.Valid, SlidingWindow.Valid, Symbol, Symbols, LengthExtra, Distance, DistanceExtra, Copy, Peek,
        CodeHit, Pow2;
      win.Sized();
      need := lbits;
      tree := ltree;
      from := bits.Pos();
      AtRoot(hufts[..], ltree, lbits, ll, LITERALS, Inp(), from);
      mode := LEN;
    }

    /** NEEDBITS(j), one lookup, DUMPBITS(t->bits): the entry at t. */
    method Fetch(r0: int, ghost lens: seq<nat>, ghost m: Meaning) returns (ok: bool, r: int, t: nat)
      requires Apart() && bits.Valid() && bits.k <= 15 && Going(r0)
      requires InTree(hufts[..], tree, need, lens, m, Inp(), from, bits.Pos())
      modifies bits
      ensures bits.Valid() && bits.k <= 15 && bits.p + bits.n == old(bits.p + bits.n) && Going(r)
      ensures !ok ==> bits.Pos() == old(bits.Pos()) && bits.n == 0
      ensures ok ==> t < hufts.Length && bits.Pos() > old(bits.Pos()) && m.Covers(|lens|)
      ensures ok ==>
        if IsLink(hufts[t]) then InTree(hufts[..], t + hufts[t].base, hufts[t].exop, lens, m, Inp(), from, bits.Pos())
        else if IsBad(hufts[t]) then CodeHit(lens, m, Inp(), from) == Miss
        else CodeHit(lens, m, Inp(), from) == Hit(hufts[t].exop, hufts[t].base, bits.Pos())
    {
      hide Peek;
      Lookup(hufts[..], tree, need, lens, m, Inp(), from, bits.Pos());
      ok, r := bits.Need(need, r0);
      t := 0;
      if ok {
        var j := bits.Low(need);
        t := tree + j;
        bits.Dump(hufts[t].bits);
      }
    }

    /** LEN: get length/literal/eob next. */
    method StepLen(r0: int) returns (leave: bool, r: int)
      requires Valid() && mode == LEN && Going(r0)
      modifies this`mode, this`need, this`tree, this`lit, this`get, this`len, bits
      ensures Valid()
      ensures leave ==> (r == Z_DATA_ERROR && mode == BADCODE) || (Going(r) && bits.n == 0 && mode == LEN)
      ensures !leave ==> Going(r) && bits.Pos() > old(bits.Pos())
      ensures bits.p + bits.n == old(bits.p + bits.n) && bits.Pos() >= old(bits.Pos())
    {
      hide InflateCodes.Valid, InTree, CodeHit, Symbol, Symbols, LengthExtra, TreesReady, BitInput.Valid,
        SlidingWindow.Valid, AllZero,
        Pow2;
      AtLen();
      var ok, t;
      ok, r, t := Fetch(r0, ll, LITERALS);
      leave := !ok;
      if ok {
        var e := hufts[t].exop;
        LiteralEntry(Inp(), Win(), ll, dl, from, win.hist);
        if e == 0 {
          lit := hufts[t].base;
          mode := LIT;
          MadeLit();
        } else if e / 16 % 2 == 1 {
          get := e % 16;
          len := hufts[t].base;
          mode := LENEXT;
          MadeLenext();
        } else if e / 64 % 2 == 0 {
          need := e;
          tree := t + hufts[t].base;
          MadeLen();
        } else if e / 32 % 2 == 1 {
          mode := WASH;
          MadeWash();
        } else {
          mode := BADCODE;
          leave, r := true, Z_DATA_ERROR;
          MadeBadCode();
        }
      } else {
        MadeLen();
      }
    }

    /** NEEDBITS(j), the j bits, DUMPBITS(j). */
    method Extra(j: nat, r0: int) returns (ok: bool, r: int, v: nat)
      requires bits.Valid() && bits.k <= 15 && Going(r0) && j <= 13
      modifies bits
      ensures bits.Valid() && bits.k <= 15 && bits.p + bits.n == old(bits.p + bits.n) && Going(r)
      ensures !ok ==> bits.Pos() == old(bits.Pos()) && bits.n == 0
      ensures ok ==> v == Peek(Inp(), old(bits.Pos()), j) && v < Pow2(j) && bits.Pos() == old(bits.Pos()) + j
    {
      hide Peek, Pow2;
      v := 0;
      ok, r := bits.Need(j, r0);
      if ok {
        v := bits.Low(j);
        PeekBound(Inp(), bits.Pos(), j);
        bits.Dump(j);
      }
    }

    /** LENEXT: getting length extra (have base); then set up for DIST. */
    method StepLenext(r0: int) returns (leave: bool, r: int)
      requires Valid() && mode == LENEXT && Going(r0)
      modifies this`mode, this`need, this`tree, this`len, this`from, bits
      ensures Valid() && Going(r)
      ensures leave ==> bits.n == 0 && mode == LENEXT
      ensures !leave ==> mode == DIST && bits.Pos() >= old(bits.Pos())
      ensures bits.p + bits.n == old(bits.p + bits.n) && bits.Pos() >= old(bits.Pos())
    {
      hide InflateCodes.Valid, InTree, Symbol, Symbols, Distance, HasTree, BitInput.Valid, SlidingWindow.Valid, Peek,
        Pow2, AllZero;
      AtLenext();
      var ok, v;
      ok, r, v := Extra(get, r0);
      leave := !ok;
      if ok {
        len := len + v;
        need := dbits;
        tree := dtree;
        from := bits.Pos();
        AtRoot(hufts[..], dtree, dbits, dl, DISTANCES, Inp(), from);
        mode := DIST;
        MadeDist();
      } else {
        MadeLenext();
      }
    }

    /** DIST: get distance next. */
    method StepDist(r0: int) returns (leave: bool, r: int)
      requires Valid() && mode == DIST && Going(r0)
      modifies this`mode, this`need, this`tree, this`get, this`dist, bits
      ensures Valid()
      ensures leave ==> (r == Z_DATA_ERROR && mode == BADCODE) || (Going(r) && bits.n == 0 && mode == DIST)
      ensures !leave ==> Going(r) && bits.Pos() > old(bits.Pos())
      ensures bits.p + bits.n == old(bits.p + bits.n) && bits.Pos() >= old(bits.Pos())
    {
      hide InflateCodes.Valid, InTree, CodeHit, Symbol, Symbols, Distance, DistanceExtra, TreesReady, BitInput.Valid,
        SlidingWindow.Valid, AllZero;
      AtDist();
      var ok, t;
      ok, r, t := Fetch(r0, dl, DISTANCES);
      leave := !ok;
      if ok {
        var e := hufts[t].exop;
        DistanceEntry(Inp(), Win(), dl, len, from, win.hist);
        if e / 16 % 2 == 1 {
          get := e % 16;
          dist := hufts[t].base;
          mode := DISTEXT;
          MadeDistext();
        } else if e / 64 % 2 == 0 {
          need := e;
          tree := t + hufts[t].base;
          MadeDist();
        } else {
          mode := BADCODE;
          leave, r := true, Z_DATA_ERROR;
          MadeBadCode();
        }
      } else {
        MadeDist();
      }
    }

    /** DISTEXT: getting distance extra. */
    method StepDistext(r0: int) returns (leave: bool, r: int)
      requires Valid() && mode == DISTEXT && Going(r0)
      modifies this`mode, this`dist, bits
      ensures Valid() && Going(r)
      ensures leave ==> bits.n == 0 && mode == DISTEXT
      ensures !leave ==> mode == COPY && bits.Pos() >= old(bits.Pos())
      ensures bits.p + bits.n == old(bits.p + bits.n) && bits.Pos() >= old(bits.Pos())
    {
      hide Symbol, Symbols, HasTree, BitInput.Valid, SlidingWindow.Valid, Peek, Copy;
      win.Sized();
      var ok, v;
      ok, r, v := Extra(get, r0);
      leave := !ok;
      if ok {
        dist := dist + v;
        mode := COPY;
      }
    }

    /** LIT: got literal, waiting for output space. */
    method StepLit(r0: int) returns (leave: bool, r: int)
      requires Valid() && mode == LIT && Going(r0)
      modifies this`mode, this`done, this`symPos, this`symHist, win, win.window
      ensures Valid() && Going(r)
      ensures leave ==> win.availOut == 0 && mode == LIT
      ensures !leave ==> mode == START
      ensures old(win.hist) <= win.hist && old(win.out) <= win.out && win.given == old(win.given)
    {
      hide Symbol, Symbols, HasTree, BitInput.Valid, Mirrors;
      var ok;
      ok, r := win.NeedOut(r0);
      leave := !ok;
      if ok {
        SymbolsMore(done, Inp(), Win(), ll, dl, pos0, hist0);
        win.OutByte(lit);
        NextSymbol();
      }
    }

    /** A whole symbol is behind: back to START. */
    ghost method NextSymbolGhost()
      modifies this`done, this`symPos, this`symHist
      requires bits.Valid()
      ensures done == old(done) + 1 && symPos == bits.Pos() && symHist == win.hist
    {
      done, symPos, symHist := done + 1, bits.Pos(), win.hist;
    }

    method NextSymbol()
      requires Ready()
      requires Symbols(done + 1, Inp(), Win(), ll, dl, pos0, hist0) == More(bits.Pos(), win.hist)
      modifies this`mode, this`done, this`symPos, this`symHist
      ensures Valid() && mode == START
    {
      NextSymbolGhost();
      mode := START;
    }

    /** One byte of a copy. */
    method CopyOne(f0: nat, ghost d: nat) returns (f: nat)
      requires Valid() && mode == COPY && len > 0 && win.Avail() > 0
      requires d == Back(dist, win.size) && f0 == Index(win.write, win.size, d)
      modifies this`len, win`write, win`hist, win.window
      ensures Valid() && mode == COPY && len == old(len) - 1
      ensures win.write <= win.size && f == Index(win.write, win.size, d) && old(win.hist) <= win.hist
    {
      hide Symbol, Symbols, HasTree, TreesReady, BitInput.Valid, Mirrors, LengthExtra, Distance, DistanceExtra, InTree,
        CodeHit,
        Pow2, Copy, Peek;
      CopyStep(Win(), dist, len, win.hist);
      f := win.CopyByte(f0, d);
      len := len - 1;
    }

    /** COPY: copying bytes in window, waiting for space. */
    method StepCopy(r0: int) returns (leave: bool, r: int)
      requires Valid() && mode == COPY && Going(r0)
      modifies this`mode, this`len, this`done, this`symPos, this`symHist, win, win.window
      ensures Valid() && Going(r)
      ensures leave ==> win.availOut == 0 && mode == COPY
      ensures !leave ==> mode == START
      ensures old(win.hist) <= win.hist && old(win.out) <= win.out && win.given == old(win.given)
    {
      hide Symbol, Symbols, HasTree, BitInput.Valid, Mirrors, Copy, SlidingWindow.Valid;
      r, leave := r0, false;
      var f := win.SourceOf(dist);
      ghost var d := Back(dist, win.size);
      while len > 0
        invariant Valid() && mode == COPY && Going(r)
        invariant d == Back(dist, win.size) && win.write <= win.size && f == Index(win.write, win.size, d)
        invariant old(win.hist) <= win.hist && old(win.out) <= win.out && win.given == old(win.given)
        decreases len
      {
        var ok;
        ok, r := win.NeedOut(r);
        if !ok { return true, r; }
        f := CopyOne(f, d);
      }
      CopyDone();
      NextSymbol();
    }

    lemma CopyDone()
      requires Valid() && mode == COPY && len == 0
      ensures Symbols(done + 1, Inp(), Win(), ll, dl, pos0, hist0) == More(bits.Pos(), win.hist)
    {
      SymbolsMore(done, Inp(), Win(), ll, dl, pos0, hist0);
    }

    /** WASH: got eob, possibly more output.  At most 15 bits are left, so at
        most one whole byte is unused, and it is given back. */
    method StepWash(r0: int) returns (leave: bool, r: int)
      requires Valid() && mode == WASH && (Going(r0) || r0 == Z_STREAM_END)
      modifies this`mode, bits, win`read, win`write, win`availOut, win`out, win`check
      ensures Valid() && (if Going(r0) then Going(r) else r == r0)
      ensures leave ==> win.availOut == 0 && mode == WASH
      ensures !leave ==> mode == END
      ensures bits.k <= 7 && bits.Pos() == old(bits.Pos()) && bits.p + bits.n == old(bits.p + bits.n)
      ensures old(win.out) <= win.out
    {
      hide Symbol, Symbols, HasTree, TreesReady, Mirrors, Peek, LengthExtra, Distance, DistanceExtra, Copy, InTree,
        CodeHit, Pow2;
      if bits.k > 7 { bits.GiveBack(1); }
      r := win.Flush(r0);
      leave := win.read != win.write;
      if !leave { mode := END; }
    }

    // ----- the fast loop -----

    /** GRABBITS(j) */
    method Grab(j: nat)
      requires bits.Valid() && j <= 20 && 8 * bits.n >= j + 7
      modifies bits
      ensures bits.Valid() && bits.Pos() == old(bits.Pos()) && bits.p + bits.n == old(bits.p + bits.n)
      ensures j <= bits.k && (bits.k == old(bits.k) || bits.k < j + 8)
      ensures 8 * bits.n >= old(8 * bits.n) - j - 7 && bits.n <= old(bits.n)
    {
      hide Peek;
      while bits.k < j
        invariant bits.Valid() && bits.Pos() == old(bits.Pos()) && bits.p + bits.n == old(bits.p + bits.n)
        invariant bits.k == old(bits.k) || bits.k < j + 8
        invariant 8 * bits.n + bits.k == old(8 * bits.n + bits.k) && bits.n <= old(bits.n)
        decreases bits.n
      {
        bits.LoadByte();
      }
    }

    /** Follow the tables from the root to the entry of the next symbol and drop
        its code; there are bits enough for the longest code. */
    method Follow(root: nat, rootBits: nat, ghost lens: seq<nat>, ghost m: Meaning) returns (t: nat)
      requires Apart() && bits.Valid() && bits.k >= MAXBITS && HasTree(hufts[..], root, rootBits, lens, m)
      modifies bits
      ensures bits.Valid() && bits.p == old(bits.p) && bits.n == old(bits.n)
      ensures old(bits.Pos()) < bits.Pos() <= old(bits.Pos()) + MAXBITS
      ensures t < hufts.Length && !IsLink(hufts[t]) && m.Covers(|lens|)
      ensures if IsBad(hufts[t]) then CodeHit(lens, m, Inp(), old(bits.Pos())) == Miss
        else CodeHit(lens, m, Inp(), old(bits.Pos())) == Hit(hufts[t].exop, hufts[t].base, bits.Pos())
    {
      hide Peek, HasTree, CodeHit;
      ghost var start := bits.Pos();
      AtRoot(hufts[..], root, rootBits, lens, m, Inp(), start);
      ghost var tr: nat, need: nat := root, rootBits;
      Lookup(hufts[..], tr, need, lens, m, Inp(), start, bits.Pos());
      var v := bits.Low(rootBits);
      t := root + v;
      while IsLink(hufts[t])
        invariant bits.Valid() && bits.p == old(bits.p) && bits.n == old(bits.n)
        invariant start <= bits.Pos() && InTree(hufts[..], tr, need, lens, m, Inp(), start, bits.Pos())
        invariant bits.Pos() + need <= start + MAXBITS && t == tr + Peek(Inp(), bits.Pos(), need) < hufts.Length
        decreases start + MAXBITS - bits.Pos()
      {
        Lookup(hufts[..], tr, need, lens, m, Inp(), start, bits.Pos());
        bits.Dump(hufts[t].bits);
        tr, need := t + hufts[t].base, hufts[t].exop;
        Lookup(hufts[..], tr, need, lens, m, Inp(), start, bits.Pos());
        v := bits.Low(hufts[t].exop);
        t := t + hufts[t].base + v;
      }
      Lookup(hufts[..], tr, need, lens, m, Inp(), start, bits.Pos());
      bits.Dump(hufts[t].bits);
    }

    /** do { *q++ = *r++; } while (--n), without leaving the window. */
    method CopyRun(f: nat, n: nat, dist: nat)
      requires win.Valid() && 0 < n <= win.Avail() && 0 < dist && f + n <= win.size
      requires f == Index(win.write, win.size, Back(dist, win.size))
      modifies win`write, win`hist, win.window
      ensures win.Valid() && win.hist == Copy(Win(), dist, n, old(win.hist))
      ensures win.write == old(win.write) + n <= win.size && win.Avail() == old(win.Avail()) - n
      ensures Index(win.write, win.size, Back(dist, win.size)) == (if f + n == win.size then 0 else f + n)
    {
      hide Mirrors, SlidingWindow.Valid, Copy;
      win.Sized();
      ghost var h, d := win.hist, Back(dist, win.size);
      var i, g := 0, f;
      while i < n
        invariant i <= n && win.Valid() && win.write == old(win.write) + i <= win.size
          && win.Avail() == old(win.Avail()) - i
        invariant |win.hist| >= win.size && Copy(Win(), dist, n, h) == Copy(Win(), dist, n - i, win.hist)
        invariant g == Index(win.write, win.size, d) && g == (if f + i == win.size then 0 else f + i)
      {
        CopyStep(Win(), dist, n - i, win.hist);
        g := win.CopyByte(g, d);
        win.Sized();
        i := i + 1;
      }
      CopyNone(Win(), dist, win.hist);
    }

    /** The copy of the fast loop: c bytes, in two pieces if the source runs
        over the end of the window. */
    method FastCopy(dist: nat, c: nat)
      requires win.Valid() && 3 <= c <= win.Avail() && 0 < dist
      modifies win`write, win`hist, win.window
      ensures win.Valid() && win.hist == Copy(Win(), dist, c, old(win.hist))
    {
      hide Mirrors, SlidingWindow.Valid, Copy;
      win.Sized();
      ghost var h := win.hist;
      var f := win.SourceOf(dist);
      if dist > win.write {
        var e := win.size - f;
        if c > e {
          CopyRun(f, e, dist);
          CopyConcat(Win(), dist, e, c, h);
          CopyRun(0, c - e, dist);
        } else {
          CopyRun(f, c, dist);
        }
      } else {
        CopyRun(f, c, dist);
      }
    }

    /** Nothing of the current symbol has been used: it began here. */
    ghost predicate AtBoundary()
      requires bits.Valid()
      reads this, bits, win
    {
      symPos == bits.Pos() && symHist == win.hist
    }

    /** What the fast loop keeps: like Valid at START, but with more bits. */
    ghost predicate FastOK()
      reads this, bits, win, win.window, hufts
    {
      && Apart() && bits.Valid() && win.Valid() && bits.k <= 27 && mode == START
      && TreesReady(hufts[..], lbits, dbits, ltree, dtree, ll, dl) && |hist0| >= win.size
      && Symbols(done, Inp(), Win(), ll, dl, pos0, hist0) == More(symPos, symHist)
      && symPos <= bits.Pos() && symHist == win.hist
    }

    /** The distance half of a string of c bytes. */
    method FastDistance(c: nat) returns (rc: int)
      requires FastOK() && 3 <= c <= 258 <= win.Avail() && 8 * bits.n >= 42
      requires Symbol(Inp(), Win(), ll, dl, symPos, symHist) == Distance(Inp(), Win(), dl, c, bits.Pos(), win.hist)
      requires !AllZero(dl)
      modifies bits, win`write, win`hist, win.window, this`done, this`symPos, this`symHist
      ensures FastOK() && bits.p + bits.n == old(bits.p + bits.n) && old(win.hist) <= win.hist
      ensures bits.Pos() > old(bits.Pos()) && bits.n <= old(bits.n)
      ensures rc == Z_OK || rc == Z_DATA_ERROR
      ensures rc == Z_OK ==> AtBoundary() && done == old(done) + 1
      ensures rc == Z_DATA_ERROR ==> done == old(done) && Symbol(Inp(), Win(), ll, dl, symPos, symHist) == Wrong
    {
      hide Symbol, Symbols, HasTree, BitInput.Valid, SlidingWindow.Valid, Peek, Copy, CodeHit, Distance, LengthExtra,
        InTree, Pow2;
      win.Sized();
      Grab(15);
      DistanceEntry(Inp(), Win(), dl, c, bits.Pos(), win.hist);
      var t := Follow(dtree, dbits, dl, DISTANCES);
      var e := hufts[t].exop;
      if e / 16 % 2 == 1 {
        FastString(c, e % 16, hufts[t].base);
        rc := Z_OK;
      } else {
        rc := Z_DATA_ERROR;
      }
    }

    /** The extra bits of a distance, and the copy. */
    method FastString(c: nat, e: nat, base: nat)
      requires FastOK() && 3 <= c <= 258 <= win.Avail() && 8 * bits.n >= 20 && e <= 13 && 1 <= base
      requires Symbol(Inp(), Win(), ll, dl, symPos, symHist) ==
        DistanceExtra(Inp(), Win(), c, e, base, bits.Pos(), win.hist)
      modifies bits, win`write, win`hist, win.window, this`done, this`symPos, this`symHist
      ensures FastOK() && bits.p + bits.n == old(bits.p + bits.n) && old(win.hist) <= win.hist
      ensures bits.Pos() >= old(bits.Pos()) && bits.n <= old(bits.n) && AtBoundary() && done == old(done) + 1
    {
      hide Symbol, Symbols, HasTree, BitInput.Valid, SlidingWindow.Valid, Peek, Copy;
      win.Sized();
      Grab(e);
      var v := bits.Low(e);
      bits.Dump(e);
      SymbolsMore(done, Inp(), Win(), ll, dl, pos0, hist0);
      FastCopy(base + v, c);
      NextSymbolGhost();
    }

    /** One pass of the fast loop: one whole symbol, its end or its error. */
    method FastSymbol() returns (rc: int)
      requires FastOK() && AtBoundary() && 258 <= win.Avail() && bits.n >= 10
      modifies bits, win`write, win`hist, win.window, this`done, this`symPos, this`symHist
      ensures FastOK() && bits.p + bits.n == old(bits.p + bits.n) && old(win.hist) <= win.hist
      ensures bits.Pos() > old(bits.Pos()) && bits.n <= old(bits.n)
      ensures rc == Z_OK || rc == Z_STREAM_END || rc == Z_DATA_ERROR
      ensures rc == Z_OK ==> AtBoundary() && done == old(done) + 1
      ensures rc != Z_OK ==> done == old(done)
      ensures rc == Z_STREAM_END ==> Symbol(Inp(), Win(), ll, dl, symPos, symHist) == EndOfBlock(bits.Pos())
      ensures rc == Z_DATA_ERROR ==> Symbol(Inp(), Win(), ll, dl, symPos, symHist) == Wrong
    {
      hide Symbol, Symbols, HasTree, BitInput.Valid, SlidingWindow.Valid, Peek, CodeHit, Distance, DistanceExtra, Pow2;
      win.Sized();
      Grab(20);
      LiteralEntry(Inp(), Win(), ll, dl, bits.Pos(), win.hist);
      var t := Follow(ltree, lbits, ll, LITERALS);
      var e := hufts[t].exop;
      if e == 0 {
        SymbolsMore(done, Inp(), Win(), ll, dl, pos0, hist0);
        win.OutByte(hufts[t].base);
        NextSymbolGhost();
        rc := Z_OK;
      } else if e / 16 % 2 == 1 {
        e := e % 16;
        PeekBound(Inp(), bits.Pos(), e);
        var v := bits.Low(e);
        bits.Dump(e);
        rc := FastDistance(hufts[t].base + v);
      } else if e / 32 % 2 == 1 {
        rc := Z_STREAM_END;
      } else {
        rc := Z_DATA_ERROR;
      }
    }

    /** UNGRAB: return the bytes read by this call that are still whole. */
    method Ungrab(n0: nat)
      requires bits.Valid() && bits.n <= n0
      modifies bits
      ensures bits.Valid() && bits.Pos() == old(bits.Pos()) && bits.p + bits.n == old(bits.p + bits.n)
      ensures bits.k <= 7 || bits.n == n0
    {
      hide Peek;
      var c := n0 - bits.n;
      c := if bits.k / 8 < c then bits.k / 8 else c;
      bits.GiveBack(c);
    }

    /** zlib_inflate_fast: whole symbols while there are 258 bytes of window and
        10 bytes of input for each. */
    method Fast() returns (rc: int)
      requires Valid() && mode == START && 258 <= win.Avail() && bits.n >= 10
      modifies bits, win`write, win`hist, win.window, this`done, this`symPos, this`symHist
      ensures FastOK() && bits.k <= 15 && bits.p + bits.n == old(bits.p + bits.n)
      ensures bits.Pos() > old(bits.Pos()) && old(win.hist) <= win.hist && done >= old(done)
      ensures rc == Z_OK || rc == Z_STREAM_END || rc == Z_DATA_ERROR
      ensures rc == Z_OK ==> AtBoundary()
      ensures rc == Z_STREAM_END ==> Symbol(Inp(), Win(), ll, dl, symPos, symHist) == EndOfBlock(bits.Pos())
      ensures rc == Z_DATA_ERROR ==> Symbol(Inp(), Win(), ll, dl, symPos, symHist) == Wrong
    {
      hide Symbol, Symbols, HasTree, SlidingWindow.Valid, Peek;
      var n0 := bits.n;
      ghost var from0 := bits.Pos();
      win.Sized();
      rc := FastSymbol();
      win.Sized();
      while rc == Z_OK && win.Avail() >= 258 && bits.n >= 10
        invariant FastOK() && bits.p + bits.n == old(bits.p + bits.n) && bits.n <= n0
        invariant bits.Pos() > from0 && old(win.hist) <= win.hist && done >= old(done)
        invariant rc == Z_OK || rc == Z_STREAM_END || rc == Z_DATA_ERROR
        invariant rc == Z_OK ==> AtBoundary()
        invariant rc == Z_STREAM_END ==> Symbol(Inp(), Win(), ll, dl, symPos, symHist) == EndOfBlock(bits.Pos())
        invariant rc == Z_DATA_ERROR ==> Symbol(Inp(), Win(), ll, dl, symPos, symHist) == Wrong
        invariant win.write <= win.size && win.read < win.size
        decreases 8 * |bits.input| - bits.Pos()
      {
        rc := FastSymbol();
        win.Sized();
      }
      Ungrab(n0);
    }

    /** START: run the fast loop if there is room for it, then set up for LEN,
        or take note of how the block ended. */
    method Start(r0: int) returns (r: int)
      requires Valid() && mode == START && Going(r0)
      modifies this, bits, win`write, win`hist, win.window
      ensures Valid()
      ensures bits.p + bits.n == old(bits.p + bits.n) && bits.Pos() >= old(bits.Pos())
      ensures old(win.hist) <= win.hist
      ensures (Going(r) && mode == LEN) || (r == Z_STREAM_END && mode == WASH) || (r == Z_DATA_ERROR && mode == BADCODE)
    {
      hide Symbol, Symbols, HasTree, SlidingWindow.Valid, BitInput.Valid, Peek;
      r := r0;
      win.Sized();
      if win.Avail() >= 258 && bits.n >= 10 {
        r := Fast();
        if r != Z_OK {
          mode := if r == Z_STREAM_END then WASH else BADCODE;
          return;
        }
      }
      StepStart();
    }

    ghost function Rank(): nat
      reads this
    {
      match mode
      case LENEXT => 9 case DIST => 8 case DISTEXT => 7 case COPY => 6 case LIT => 5
      case START => 4 case LEN => 3 case WASH => 2 case END => 1 case BADCODE => 0
    }

    /** What every mode has in common. */
    lemma Here()
      requires Valid()
      ensures Apart() && bits.Valid() && win.Valid() && bits.k <= 15 && (mode == END ==> bits.k <= 7)
    {
    }

    /** Steps until one of them leaves. */
    method Steps(r0: int) returns (r: int)
      requires Valid() && Going(r0)
      modifies this, bits, win, win.window
      ensures Valid()
      ensures Going(r) || r == Z_STREAM_END || r == Z_DATA_ERROR
      ensures Going(r) ==> bits.n == 0 || win.availOut == 0
      ensures r == Z_STREAM_END ==> (mode == WASH || mode == END) && bits.k <= 7
      ensures r == Z_DATA_ERROR ==> mode == BADCODE
      ensures bits.p + bits.n == old(bits.p + bits.n) && bits.Pos() >= old(bits.Pos())
      ensures old(win.hist) <= win.hist && old(win.out) <= win.out && win.given == old(win.given)
    {
      hide InflateCodes.Valid, SlidingWindow.Valid, BitInput.Valid;
      r := r0;
      var leave := false;
      Here();
      while !leave
        invariant Valid() && bits.Valid() && win.Valid() && (mode == END ==> bits.k <= 7)
        invariant Going(r) || leave || mode == WASH || mode == END || mode == BADCODE
        invariant Going(r) || r == Z_STREAM_END || r == Z_DATA_ERROR
        invariant leave && Going(r) ==> bits.n == 0 || win.availOut == 0
        invariant leave && r == Z_STREAM_END ==> (mode == WASH || mode == END) && bits.k <= 7
        invariant r == Z_DATA_ERROR ==> mode == BADCODE
        invariant !leave && r == Z_STREAM_END ==> mode == WASH || mode == END
        invariant bits.p + bits.n == old(bits.p + bits.n) && bits.Pos() >= old(bits.Pos())
        invariant old(win.hist) <= win.hist && old(win.out) <= win.out && win.given == old(win.given)
        decreases !leave, 8 * |bits.input| - bits.Pos(), Rank()
      {
        match mode {
          case START => r := Start(r);
          case LEN => leave, r := StepLen(r);
          case LENEXT => leave, r := StepLenext(r);
          case DIST => leave, r := StepDist(r);
          case DISTEXT => leave, r := StepDistext(r);
          case COPY => leave, r := StepCopy(r);
          case LIT => leave, r := StepLit(r);
          case WASH => leave, r := StepWash(r);
          case END => leave, r := true, Z_STREAM_END;
          case BADCODE => leave, r := true, Z_DATA_ERROR;
        }
        Here();
      }
    }

    /** zlib_inflate_codes: run until the end of the block, an error, or until
        no input or no room for output is left. */
    method Run(r0: int) returns (r: int)
      requires Valid() && Going(r0)
      modifies this, bits, win, win.window
      ensures Valid()
      ensures Going(r) || r == Z_STREAM_END || r == Z_DATA_ERROR
      ensures Going(r) ==> bits.n == 0 || win.availOut == 0
      ensures r == Z_STREAM_END ==> (mode == WASH || mode == END) && bits.k <= 7
      ensures r == Z_DATA_ERROR ==> mode == BADCODE
      ensures bits.p + bits.n == old(bits.p + bits.n) && bits.Pos() >= old(bits.Pos())
      ensures old(win.hist) <= win.hist && old(win.out) <= win.out && win.given == old(win.given)
    {
      hide Symbol, Symbols, HasTree, TreesReady, SlidingWindow.Valid, BitInput.Valid, Peek, InTree, Copy, Distance,
        DistanceExtra,
        LengthExtra, CodeHit, Pow2, AllZero;
      r := Steps(r0);
      r := win.Flush(r);
    }

    /** avail_in and avail_out as the caller of the next call sets them. */
    method Given(n: nat, room: nat)
      requires Valid() && bits.p + n <= |bits.input|
      modifies bits`n, win`availOut, win`given
      ensures Valid() && bits.n == n && win.availOut == room && win.given == |win.out| + room
    {
      hide BitInput.Valid, SlidingWindow.Valid, Symbol, Symbols, TreesReady, InTree, Distance, DistanceExtra,
        LengthExtra, Copy, BitInput.Pos;
      bits.Given(n);
      win.Given(room);
    }

    /** If the block ends, it does so no more than a code before the bits taken. */
    lemma Near()
      requires Valid()
      ensures Codes2(ll, dl) && ReachOK(Win(), hist0) && bits.Valid()
      ensures var b := Body(Inp(), Win(), ll, dl, pos0, hist0); b.Done? ==> bits.Pos() <= b.pos + MAXBITS
    {
      hide Symbol, Symbols, HasTree, Mirrors, Distance, LengthExtra, Body, InTree, BitInput.Valid, Copy, Peek;
      BodyAfter(done, Inp(), Win(), ll, dl, pos0, hist0, symPos, symHist);
      if mode == LEN {
        TreeNear(hufts[..], tree, need, ll, LITERALS, Inp(), from, bits.Pos());
      } else if mode == DIST {
        TreeNear(hufts[..], tree, need, dl, DISTANCES, Inp(), from, bits.Pos());
      }
    }

    /** What the block holds, as far as it has been decoded: at its end or at an
        error, exactly what has been written; before that, more to come. */
    lemma Yields()
      requires Valid()
      ensures Codes2(ll, dl) && ReachOK(Win(), hist0)
      ensures var b := Body(Inp(), Win(), ll, dl, pos0, hist0);
        && win.hist <= b.hist
        && (mode == WASH || mode == END ==> b == Done(bits.Pos(), win.hist))
        && (mode == BADCODE ==> b == Fail(win.hist))
    {
      hide Symbol, Symbols, HasTree, Mirrors, InTree, Distance, DistanceExtra, LengthExtra, Body;
      BodyAfter(done, Inp(), Win(), ll, dl, pos0, hist0, symPos, symHist);
    }
  }
}
