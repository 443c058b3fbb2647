/** Bits, code units and the two bit cursors of the string compressor.

    A code of `n` bits travels least significant bit first; a transport symbol
    carries its bits most significant bit first. */
module LzBits {
  import opened Arithmetic

  type CodeUnit = u: int | 0 <= u < 65536
  type Text = seq<CodeUnit>
  type Bits = seq<bool>

  function Bit(b: bool): nat { if b then 1 else 0 }

  /** The low `n` bits of `value`, least significant first. */
  function LowBits(value: nat, n: nat): (bits: Bits)
    ensures |bits| == n
  {
    if n == 0 then [] else [value % 2 == 1] + LowBits(value / 2, n - 1)
  }

  /** A position past the end reads as 0: the reader's symbol is then
      `undefined` or `NaN`, and `& position` turns both into 0. */
  function BitAt(bits: Bits, position: nat): nat
  {
    if position < |bits| then Bit(bits[position]) else 0
  }

  /** The `n`-bit number starting at `position`, least significant bit first. */
  function ReadBits(bits: Bits, position: nat, n: nat): (value: nat)
    ensures value < Pow2(n)
    decreases n
  {
    if n == 0 then 0 else BitAt(bits, position) + 2 * ReadBits(bits, position + 1, n - 1)
  }

  /** Reading undoes writing, whatever surrounds the code. */
  lemma {:induction false} ReadLowBits(before: Bits, value: nat, n: nat, after: Bits)
    requires value < Pow2(n)
    ensures ReadBits(before + LowBits(value, n) + after, |before|, n) == value
    decreases n
  {
    if n > 0 {
      var b := value % 2 == 1;
      ReadLowBits(before + [b], value / 2, n - 1, after);
      assert before + [b] + LowBits(value / 2, n - 1) + after == before + LowBits(value, n) + after;
    }
  }

  /** `n + 1` bits are the low `n` bits and one more of weight 2^n. */
  lemma {:induction false} ReadBitsSnoc(bits: Bits, position: nat, n: nat)
    ensures ReadBits(bits, position, n + 1) == ReadBits(bits, position, n) + BitAt(bits, position + n) * Pow2(n)
    decreases n
  {
    if n > 0 { ReadBitsSnoc(bits, position + 1, n - 1); }
  }

  /** The bits of one transport symbol, most significant first. */
  function SymbolBits(symbol: nat, width: nat): (bits: Bits)
    ensures |bits| == width
  {
    if width == 0 then [] else SymbolBits(symbol / 2, width - 1) + [symbol % 2 == 1]
  }

  lemma SymbolPush(symbol: nat, width: nat, b: bool)
    ensures SymbolBits(2 * symbol + Bit(b), width + 1) == SymbolBits(symbol, width) + [b]
  {
  }

  /** Where symbol `k` starts: `k * width`, without the multiplication. */
  function Offset(k: nat, width: nat): nat
  {
    if k == 0 then 0 else Offset(k - 1, width) + width
  }

  lemma {:induction false} OffsetMonotone(k: nat, n: nat, width: nat)
    requires k <= n
    ensures Offset(k, width) <= Offset(n, width)
  {
    if k < n { OffsetMonotone(k, n - 1, width); }
  }

  function Unpack(symbols: seq<nat>, width: nat): (bits: Bits)
    ensures |bits| == Offset(|symbols|, width)
  {
    if symbols == [] then []
    else Unpack(symbols[..|symbols| - 1], width) + SymbolBits(symbols[|symbols| - 1], width)
  }

  lemma UnpackPush(symbols: seq<nat>, symbol: nat, width: nat)
    ensures Unpack(symbols + [symbol], width) == Unpack(symbols, width) + SymbolBits(symbol, width)
  {
    assert (symbols + [symbol])[..|symbols|] == symbols;
  }

  lemma {:induction false} UnpackAppend(symbols: seq<nat>, more: seq<nat>, width: nat)
    ensures Unpack(symbols + more, width) == Unpack(symbols, width) + Unpack(more, width)
  {
    if more == [] {
      assert symbols + more == symbols;
    } else {
      var init, last := more[..|more| - 1], more[|more| - 1];
      UnpackAppend(symbols, init, width);
      UnpackPush(symbols + init, last, width);
      Associate(Unpack(symbols, width), Unpack(init, width), SymbolBits(last, width));
      assert symbols + more == symbols + init + [last];
    }
  }

  lemma Associate(a: Bits, b: Bits, c: Bits)
    ensures a + b + c == a + (b + c)
  {
  }

  /** Bit `j` of a symbol is what `value & position` isolates. */
  lemma {:induction false} SymbolBitAt(symbol: nat, width: nat, j: nat)
    requires j < width
    ensures SymbolBits(symbol, width)[j] <==> symbol / Pow2(width - 1 - j) % 2 == 1
  {
    if j < width - 1 {
      SymbolBitAt(symbol / 2, width - 1, j);
      HalfThenDivide(symbol, Pow2(width - 2 - j));
    }
  }

  lemma {:induction false} UnpackBitAt(symbols: seq<nat>, width: nat, k: nat, j: nat)
    requires k < |symbols| && j < width
    ensures Offset(k, width) + j < Offset(|symbols|, width)
    ensures Unpack(symbols, width)[Offset(k, width) + j] == SymbolBits(symbols[k], width)[j]
  {
    var n := |symbols| - 1;
    var front := Unpack(symbols[..n], width);
    if k < n {
      UnpackBitAt(symbols[..n], width, k, j);
      assert symbols[..n][k] == symbols[k];
    } else {
      assert |front| == Offset(k, width);
    }
  }

  function Zeros(n: nat): Bits { seq(n, _ => false) }

  /** What a writer has written: its full symbols, then the partial one. */
  function Written(data: seq<nat>, val: nat, position: nat, width: nat): Bits
  {
    Unpack(data, width) + SymbolBits(val, position)
  }

  lemma WriteBit(data: seq<nat>, val: nat, position: nat, width: nat, b: bool)
    ensures Written(data, 2 * val + Bit(b), position + 1, width) == Written(data, val, position, width) + [b]
  {
    SymbolPush(val, position, b);
  }

  lemma WriteFull(data: seq<nat>, val: nat, width: nat, b: bool)
    requires width >= 1
    ensures Written(data + [2 * val + Bit(b)], 0, 0, width) == Written(data, val, width - 1, width) + [b]
  {
    SymbolPush(val, width - 1, b);
    UnpackPush(data, 2 * val + Bit(b), width);
  }

  lemma PushFits(val: nat, position: nat, b: bool)
    requires val < Pow2(position)
    ensures 2 * val + Bit(b) < Pow2(position + 1)
  {
  }

  function Symbol(symbols: seq<nat>, k: nat): nat
  {
    if k < |symbols| then symbols[k] else 0
  }

  /** Masking symbol `k` isolates its bit in the whole stream, and 0 past the end. */
  lemma BitHere(symbols: seq<nat>, width: nat, k: nat, used: nat)
    requires used < width
    ensures BitAt(Unpack(symbols, width), Offset(k, width) + used)
         == Bit(Symbol(symbols, k) / Pow2(width - 1 - used) % 2 == 1)
  {
    if k < |symbols| {
      UnpackBitAt(symbols, width, k, used);
      SymbolBitAt(symbols[k], width, used);
    } else {
      OffsetMonotone(|symbols|, k, width);
    }
  }

  predicate InRange(data: seq<nat>, width: nat)
  {
    forall i | 0 <= i < |data| :: data[i] < Pow2(width)
  }

  lemma InRangePush(data: seq<nat>, v: nat, width: nat)
    requires InRange(data, width) && v < Pow2(width)
    ensures InRange(data + [v], width)
  {
  }

  lemma FullSymbol(data: seq<nat>, val: nat, width: nat, b: bool)
    requires width >= 1 && InRange(data, width) && val < Pow2(width - 1)
    ensures InRange(data + [2 * val + Bit(b)], width)
    ensures Written(data + [2 * val + Bit(b)], 0, 0, width) == Written(data, val, width - 1, width) + [b]
  {
    PushFits(val, width - 1, b);
    InRangePush(data, 2 * val + Bit(b), width);
    WriteFull(data, val, width, b);
  }

  /** The compressor's accumulator: bits enter from the right, and a full
      accumulator is pushed as one symbol. */
  class BitWriter {
    const width: nat
    var data: seq<nat>
    var val: nat
    var position: nat

    ghost predicate Valid()
      reads this
    {
      position < width && val < Pow2(position) && InRange(data, width)
    }

    ghost function Contents(): Bits
      reads this
    {
      Written(data, val, position, width)
    }

    constructor (width: nat)
      requires width >= 1
      ensures Valid() && this.width == width && Contents() == []
    {
      this.width := width;
      data, val, position := [], 0, 0;
    }

    /** A bit that does not fill the accumulator. */
    method KeepBit(b: bool)
      requires Valid() && position < width - 1
      modifies this
      ensures Valid() && Contents() == old(Contents()) + [b] && position == old(position) + 1
    {
      PushFits(val, position, b);
      WriteBit(data, val, position, width, b);
      val := 2 * val + Bit(b);
      position := position + 1;
    }

    /** The bit that does: the symbol is pushed. */
    method PushBit(b: bool)
      requires Valid() && position == width - 1
      modifies this
      ensures Valid() && Contents() == old(Contents()) + [b] && position == 0
    {
      FullSymbol(data, val, width, b);
      var symbol := 2 * val + Bit(b);
      position := 0;
      data := data + [symbol];
      val := 0;
      assert Contents() == Written(data, 0, 0, width);
    }

    method PutBit(b: bool)
      requires Valid()
      modifies this
      ensures Valid() && Contents() == old(Contents()) + [b]
      ensures position == if old(position) == width - 1 then 0 else old(position) + 1
    {
      if position == width - 1 { PushBit(b); } else { KeepBit(b); }
    }

    /** Writes the low `n` bits of `value`, least significant first. */
    method PutBits(value: nat, n: nat)
      requires Valid()
      modifies this
      ensures Valid() && Contents() == old(Contents()) + LowBits(value, n)
    {
      var t := value;
      for e := 0 to n
        invariant Valid()
        invariant Contents() + LowBits(t, n - e) == old(Contents()) + LowBits(value, n)
      {
        assert LowBits(t, n - e) == [t % 2 == 1] + LowBits(t / 2, n - e - 1);
        PutBit(t % 2 == 1);
        t := t / 2;
      }
    }

    /** Pads with zeros until one more symbol has been pushed: at least one
        padding bit is written even when the last symbol was already full. */
    method Finish() returns (ghost padding: nat)
      requires Valid()
      modifies this
      ensures 1 <= padding <= width
      ensures Unpack(data, width) == old(Contents()) + Zeros(padding)
      ensures forall i | 0 <= i < |data| :: data[i] < Pow2(width)
    {
      ghost var start := Contents();
      padding := 0;
      while true
        invariant Valid() && padding + width - position <= width
        invariant Contents() == start + Zeros(padding)
        decreases width - position
      {
        var full := position == width - 1;
        PutBit(false);
        padding := padding + 1;
        assert Contents() == start + Zeros(padding);
        if full { break; }
      }
      assert Contents() == Unpack(data, width);
    }
  }

  /** The decompressor's cursor: `position` is the mask of the next bit of the
      current symbol `val`, and `index` the next symbol to fetch. */
  class BitReader {
    const symbols: seq<nat>
    const width: nat
    var val: nat
    var position: nat
    var index: nat
    ghost var used: nat

    ghost predicate Valid()
      reads this
    {
      used < width && position == Pow2(width - 1 - used) && index >= 1 && val == Symbol(symbols, index - 1)
    }

    /** The number of bits read so far. */
    ghost function Position(): nat
      requires Valid()
      reads this
    {
      Offset(index - 1, width) + used
    }

    ghost function AllBits(): Bits { Unpack(symbols, width) }

    constructor (symbols: seq<nat>, width: nat)
      requires width >= 1
      ensures Valid() && this.symbols == symbols && this.width == width && Position() == 0
    {
      this.symbols, this.width := symbols, width;
      val := Symbol(symbols, 0);
      position, index, used := Pow2(width - 1), 1, 0;
    }

    /** `index > length` holds exactly when every bit has been read. */
    method AtEnd() returns (atEnd: bool)
      requires Valid()
      ensures atEnd <==> Position() >= |AllBits()|
    {
      atEnd := index > |symbols|;
      if atEnd {
        OffsetMonotone(|symbols|, index - 1, width);
      } else {
        OffsetMonotone(index, |symbols|, width);
      }
    }

    method GetBit() returns (b: nat)
      requires Valid()
      modifies this
      ensures Valid() && Position() == old(Position()) + 1
      ensures b == BitAt(AllBits(), old(Position()))
    {
      b := if val / position % 2 == 1 then 1 else 0;
      BitHere(symbols, width, index - 1, used);
      Advance();
    }

    method Advance()
      requires Valid()
      modifies this
      ensures Valid() && Position() == old(Position()) + 1
    {
      position := position / 2;
      used := used + 1;
      if position == 0 {
        assert used == width;
        position := Pow2(width - 1);
        val := Symbol(symbols, index);
        index, used := index + 1, 0;
      }
    }

    method GetBits(n: nat) returns (value: nat)
      requires Valid()
      modifies this
      ensures Valid() && Position() == old(Position()) + n
      ensures value == ReadBits(AllBits(), old(Position()), n)
    {
      value := 0;
      var power, maxPower := 1, Pow2(n);
      ghost var k := 0;
      while power != maxPower
        invariant Valid() && k <= n && power == Pow2(k) && Position() == old(Position()) + k
        invariant value == ReadBits(AllBits(), old(Position()), k)
        decreases n - k
      {
        if k == n { assert false; }
        var b := GetBit();
        ReadBitsSnoc(AllBits(), old(Position()), k);
        value := value + b * power;
        power := 2 * power;
        k := k + 1;
      }
      if k < n { Pow2Monotone(k + 1, n); }
    }
  }

  // ---------- Sequences of codes ----------

  datatype Code = Code(value: nat, width: nat)

  /** Codes one after the other. */
  function CodeBits(cs: seq<Code>): Bits
  {
    if cs == [] then []
    else CodeBits(cs[..|cs| - 1]) + LowBits(cs[|cs| - 1].value, cs[|cs| - 1].width)
  }

  lemma {:induction false} CodesSplit(cs: seq<Code>, i: nat) returns (rest: Bits)
    requires i < |cs|
    ensures CodeBits(cs) == CodeBits(cs[..i]) + LowBits(cs[i].value, cs[i].width) + rest
  {
    var n := |cs| - 1;
    rest := [];
    if i < n {
      var last := LowBits(cs[n].value, cs[n].width);
      var part := CodesSplit(cs[..n], i);
      assert cs[..n][..i] == cs[..i];
      Associate(CodeBits(cs[..i]) + LowBits(cs[i].value, cs[i].width), part, last);
      rest := part + last;
    }
  }

  /** Every code of a sequence is read back where the codes before it end. */
  lemma CodeReadsBack(cs: seq<Code>, i: nat, padding: Bits)
    requires i < |cs| && cs[i].value < Pow2(cs[i].width)
    ensures ReadBits(CodeBits(cs) + padding, |CodeBits(cs[..i])|, cs[i].width) == cs[i].value
    ensures |CodeBits(cs[..i + 1])| == |CodeBits(cs[..i])| + cs[i].width
  {
    var rest := CodesSplit(cs, i);
    var before, code := CodeBits(cs[..i]), LowBits(cs[i].value, cs[i].width);
    Associate(before + code, rest, padding);
    ReadLowBits(before, cs[i].value, cs[i].width, rest + padding);
    assert cs[..i + 1][..i] == cs[..i];
  }

  /** The two cursors are inverse: codes of any widths, written in a row into
      symbols of any width, are read back in a row. */
  method WriteThenRead(cs: seq<Code>, width: nat) returns (values: seq<nat>)
    requires width >= 1 && forall i | 0 <= i < |cs| :: cs[i].value < Pow2(cs[i].width)
    ensures |values| == |cs| && forall i | 0 <= i < |cs| :: values[i] == cs[i].value
  {
    var symbols, padding := WriteCodes(cs, width);
    var g := new BitReader(symbols, width);
    values := [];
    for i := 0 to |cs|
      invariant g.Valid() && g.AllBits() == CodeBits(cs) + Zeros(padding) && fresh(g)
      invariant |values| == i && g.Position() == |CodeBits(cs[..i])|
      invariant forall k | 0 <= k < i :: values[k] == cs[k].value
    {
      CodeReadsBack(cs, i, Zeros(padding));
      var v := g.GetBits(cs[i].width);
      values := values + [v];
    }
  }

  method WriteCodes(cs: seq<Code>, width: nat) returns (symbols: seq<nat>, ghost padding: nat)
    requires width >= 1
    ensures Unpack(symbols, width) == CodeBits(cs) + Zeros(padding)
  {
    var w := new BitWriter(width);
    for i := 0 to |cs|
      invariant w.Valid() && w.width == width && w.Contents() == CodeBits(cs[..i]) && fresh(w)
    {
      w.PutBits(cs[i].value, cs[i].width);
      assert cs[..i + 1][..i] == cs[..i];
    }
    assert cs[..|cs|] == cs;
    padding := w.Finish();
    symbols := w.data;
  }
}
