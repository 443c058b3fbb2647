/** The compressor and decompressor loops, and the wrappers that choose a
    transport alphabet. */
module LzString {
  import opened Arithmetic
  import opened LzBits
  import opened LzCodec

  method PutToken(w: BitWriter, t: Token, width: nat)
    requires w.Valid()
    modifies w
    ensures w.Valid() && w.Contents() == old(w.Contents()) + TokenBits(t, width)
  {
    match t
    case Literal(u) =>
      ghost var start := w.Contents();
      w.PutBits(Bit(u >= 256), width);
      w.PutBits(u, UnitBits(u >= 256));
      Associate(start, LowBits(Bit(u >= 256), width), LowBits(u, UnitBits(u >= 256)));
    case Reference(code) => w.PutBits(code, width);
    case End => w.PutBits(2, width);
  }

  method CountDown(countdown: Positive, numBits: Positive) returns (countdown': Positive, numBits': Positive)
    ensures Sizer(countdown', numBits') == Tick(Sizer(countdown, numBits))
  {
    var left := countdown - 1;
    if left == 0 {
      countdown', numBits' := Pow2(numBits), numBits + 1;
    } else {
      countdown', numBits' := left, numBits;
    }
  }

  /** The local variables of `_compress`. */
  class Compressor {
    const w: BitWriter
    var dict: Dictionary
    var unsent: set<Text>
    var next: nat
    var countdown: Positive
    var numBits: Positive
    var phrase: Text

    ghost function State(): Encoder
      reads this
    {
      Encoder(dict, unsent, next, Sizer(countdown, numBits), phrase)
    }

    constructor (width: nat)
      requires width >= 1
      ensures fresh(w) && w.Valid() && w.width == width && w.Contents() == [] && State() == NewEncoder
    {
      w := new BitWriter(width);
      dict, unsent, phrase, next, countdown, numBits := map[], {}, [], 3, 2, 2;
    }

    /** Sends the current phrase and moves the code-width countdown on. */
    method Send()
      requires w.Valid()
      modifies this, w
      ensures w.Valid() && w.Contents() == old(w.Contents()) + LastToken(old(State()))
      ensures State() == Emitted(old(State()))
    {
      if phrase in unsent && phrase != [] {
        PutToken(w, Literal(phrase[0]), numBits);
        countdown, numBits := CountDown(countdown, numBits);
        unsent := unsent - {phrase};
      } else {
        PutToken(w, Reference(if phrase in dict then dict[phrase] else 0), numBits);
      }
      countdown, numBits := CountDown(countdown, numBits);
    }

    /** A code unit met for the first time gets a number. */
    method Meet(a: CodeUnit)
      modifies this
      ensures State() == Met(old(State()), a)
    {
      if [a] !in dict {
        dict := Insert(dict, [a], next);
        next := next + 1;
        unsent := unsent + {[a]};
      }
    }

    method Feed(a: CodeUnit)
      requires w.Valid()
      modifies this, w
      ensures w.Valid()
      ensures State() == LzCodec.Feed(old(State()), a).0
      ensures w.Contents() == old(w.Contents()) + LzCodec.Feed(old(State()), a).1
    {
      Meet(a);
      var longer := phrase + [a];
      if longer in dict {
        phrase := longer;
      } else {
        Send();
        dict := Insert(dict, longer, next);
        next := next + 1;
        phrase := [a];
      }
    }

    method Close()
      requires w.Valid()
      modifies this, w
      ensures w.Valid() && w.Contents() == Closed(old(State()), old(w.Contents()))
    {
      if phrase != [] {
        Send();
      }
      PutToken(w, End, numBits);
    }

    method FeedAll(input: Text)
      requires w.Valid() && w.Contents() == [] && State() == NewEncoder
      modifies this, w
      ensures w.Valid() && (State(), w.Contents()) == Encode(input)
    {
      for i := 0 to |input|
        invariant w.Valid() && (State(), w.Contents()) == Encode(input[..i])
      {
        Extend(input[..i], input[i]);
        assert input[..i + 1] == input[..i] + [input[i]];
        Feed(input[i]);
      }
      assert input[..|input|] == input;
    }
  }

  lemma UnpackNonempty(symbols: seq<nat>, width: nat)
    requires |Unpack(symbols, width)| > 0
    ensures symbols != []
  {
  }

  /** `_compress`: the symbols carry exactly the specified stream and at least
      one bit of padding. */
  method Compress(input: Text, width: nat) returns (out: seq<nat>, ghost padding: nat)
    requires width >= 1
    ensures 1 <= padding <= width && Unpack(out, width) == Stream(input) + Zeros(padding)
    ensures out != [] && forall i | 0 <= i < |out| :: out[i] < Pow2(width)
  {
    var c := new Compressor(width);
    c.FeedAll(input);
    c.Close();
    padding := c.w.Finish();
    out := c.w.data;
    UnpackNonempty(out, width);
  }

  /** `_decompress` computes the decoder's specification on any symbols. */
  method Decompress(symbols: seq<nat>, width: nat) returns (r: Outcome)
    requires width >= 1
    ensures r == Decode(Unpack(symbols, width))
  {
    ghost var bits := Unpack(symbols, width);
    var g := new BitReader(symbols, width);
    var t := GetToken(g, 2);
    if t.End? { return Decoded([]); }
    if t.Reference? { return Undefined; }
    var entries: seq<Text> := [[], [], [], [t.unit]];
    var countdown: Positive, numBits: Positive := 4, 3;
    var previous, output := [t.unit], [t.unit];
    while true
      invariant g.Valid() && fresh(g) && g.AllBits() == bits
      invariant var d := Decoder(entries, Sizer(countdown, numBits), previous, output);
        Decode(bits) == DecodeFrom(bits, g.Position(), d)
      decreases |bits| - g.Position()
    {
      var atEnd := g.AtEnd();
      if atEnd { return Decoded([]); }
      t := GetToken(g, numBits);
      if t.End? { return Decoded(output); }
      var code;
      if t.Literal? {
        code := |entries|;
        entries := entries + [[t.unit]];
        countdown, numBits := CountDown(countdown, numBits);
      } else {
        code := t.code;
      }
      var m;
      if code < |entries| && entries[code] != [] {
        m := entries[code];
      } else if code == |entries| {
        m := previous + First(previous);
      } else {
        return Null;
      }
      output := output + m;
      entries := entries + [previous + First(m)];
      previous := m;
      countdown, numBits := CountDown(countdown, numBits);
    }
  }

  method GetUnit(g: BitReader, wide: bool) returns (u: CodeUnit)
    requires g.Valid()
    modifies g
    ensures g.Valid() && g.Position() == old(g.Position()) + UnitBits(wide)
    ensures u == ReadBits(g.AllBits(), old(g.Position()), UnitBits(wide))
  {
    Pow2Values();
    u := g.GetBits(UnitBits(wide));
  }

  method GetToken(g: BitReader, width: Positive) returns (t: Token)
    requires g.Valid()
    modifies g
    ensures g.Valid() && (t, g.Position()) == ReadToken(g.AllBits(), old(g.Position()), width)
    ensures g.Position() > old(g.Position())
  {
    var code := g.GetBits(width);
    if code <= 1 {
      var u := GetUnit(g, code == 1);
      t := Literal(u);
    } else {
      t := if code == 2 then End else Reference(code);
    }
  }

  /** The specified stream, its padding and any further symbols decode to the text. */
  lemma DecodeWithSuffix(input: Text, symbols: seq<nat>, suffix: seq<nat>, width: nat, padding: nat)
    requires Unpack(symbols, width) == Stream(input) + Zeros(padding)
    ensures Decode(Unpack(symbols + suffix, width)) == Decoded(input)
  {
    UnpackAppend(symbols, suffix, width);
    Regroup(Stream(input), Zeros(padding), Unpack(suffix, width), []);
    RoundTrip(input, Zeros(padding) + Unpack(suffix, width));
  }

  /** The two loops together: decompression restores every string, for every
      symbol width, and ignores any symbols a wrapper appends. */
  method CompressThenDecompress(input: Text, width: nat, suffix: seq<nat>) returns (symbols: seq<nat>, text: Outcome)
    requires width >= 1
    ensures text == Decoded(input)
    ensures |suffix| <= |symbols| && symbols[|symbols| - |suffix|..] == suffix
  {
    ghost var padding;
    symbols, padding := Compress(input, width);
    DecodeWithSuffix(input, symbols, suffix, width, padding);
    symbols := symbols + suffix;
    text := Decompress(symbols, width);
  }
}
