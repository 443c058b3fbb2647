/** What a compressed stream looks like, apart from how it is read back. */
module LzFormat {
  import opened Arithmetic
  import opened LzBits
  import opened LzCodec
  import opened LzWidth

  // ---------- Bits and tokens ----------

  /** Bit `j` of a code is its binary digit of weight 2^j. */
  lemma {:induction false} LowBitsAt(value: nat, n: nat, j: nat)
    requires j < n
    ensures LowBits(value, n)[j] <==> value / Pow2(j) % 2 == 1
    decreases n
  {
    if j > 0 {
      LowBitsAt(value / 2, n - 1, j - 1);
      HalfThenDivide(value, Pow2(j - 1));
    }
  }

  /** Bits are packed into symbols from the most significant one down. */
  lemma PackedStandard(symbols: seq<nat>, width: nat, k: nat, j: nat)
    requires k < |symbols| && j < width
    ensures k * width + j < |Unpack(symbols, width)|
    ensures Unpack(symbols, width)[k * width + j] <==> symbols[k] / Pow2(width - 1 - j) % 2 == 1
  {
    OffsetIs(k, width);
    UnpackBitAt(symbols, width, k, j);
    SymbolBitAt(symbols[k], width, j);
  }

  lemma {:induction false} OffsetIs(k: nat, width: nat)
    ensures Offset(k, width) == k * width
  {
    if k > 0 { OffsetIs(k - 1, width); }
  }

  /** A first occurrence costs 8 bits after code 0 below 256, and 16 after code 1 from
      there on; the end marker is code 2. */
  lemma TokenStandard(u: CodeUnit, code: nat, width: nat)
    ensures u < 256 ==> TokenBits(Literal(u), width) == LowBits(0, width) + LowBits(u, 8)
    ensures u >= 256 ==> TokenBits(Literal(u), width) == LowBits(1, width) + LowBits(u, 16)
    ensures |TokenBits(Literal(u), width)| == width + if u < 256 then 8 else 16
    ensures TokenBits(Reference(code), width) == LowBits(code, width) && TokenBits(End, width) == LowBits(2, width)
  {
  }

  // ---------- The encoder ----------

  /** A new unit, and a new phrase, get the next numbers; a phrase is sent when the
      next unit makes it unknown, as a literal if it is a unit that was never sent. */
  lemma FeedStandard(e: Encoder, a: CodeUnit)
    requires EncoderOk(e) && e.phrase + [a] !in Met(e, a).dict
    ensures [a] !in e.dict ==> Met(e, a).dict == e.dict[[a] := e.next] && Met(e, a).next == e.next + 1
    ensures [a] in e.dict ==> Met(e, a).dict == e.dict && Met(e, a).next == e.next
    ensures Feed(e, a).0.phrase == [a] && Feed(e, a).0.next == Met(e, a).next + 1
    ensures e.phrase + [a] != PROTO ==> Feed(e, a).0.dict == Met(e, a).dict[e.phrase + [a] := Met(e, a).next]
    ensures e.phrase in e.unsent ==> Feed(e, a).1 == TokenBits(Literal(e.phrase[0]), e.sizer.width)
    ensures e.phrase !in e.unsent ==> Feed(e, a).1 == TokenBits(Reference(e.dict[e.phrase]), e.sizer.width)
  {
    SendPhrase(e, a);
  }

  /** As long as the phrase is known it grows, and nothing is sent. */
  lemma GrowStandard(e: Encoder, a: CodeUnit)
    requires EncoderOk(e) && e.phrase + [a] in e.dict
    ensures Feed(e, a) == (e.(phrase := e.phrase + [a]), [])
  {
    assert (e.phrase + [a])[|e.phrase|] == a;
  }

  /** The width of codes is the least that holds every code the decoder knows and the
      one it is about to learn. */
  lemma WidthStandard(input: Text)
    requires input != [] && !Waiting(Encode(input).0)
    ensures WidthLeast(Encode(input).0)
  {
    var d := DecodePrefix(input, []);
    CountdownBound(input);
    var (e, bits) := Encode(input);
    SyncedWidth(input, e, bits, d);
  }

  /** All numbers but the encoder's last, and but a literal's that waits, are known. */
  predicate WidthLeast(e: Encoder)
  {
    var known := e.next - (if e.phrase in e.unsent then 2 else 1);
    e.sizer.width >= 1 && Pow2(e.sizer.width - 1) <= known < Pow2(e.sizer.width)
  }

  lemma SyncedWidth(input: Text, e: Encoder, bits: Bits, d: Decoder)
    requires Reached(input, e, bits, [], d) && !Waiting(e) && CountdownOk(e.sizer)
    ensures WidthLeast(e)
  {
    assert Pow2(e.sizer.width) == 2 * Pow2(e.sizer.width - 1);
  }

  /** The stream of no text is the end marker in two bits. */
  lemma EmptyStream()
    ensures Stream([]) == LowBits(2, 2)
  {
  }

  /** `aaa` is the literal `a`, the phrase 4, which stands for `aa`, and the end. */
  lemma StreamExample(a: CodeUnit)
    requires a == 97
    ensures Stream([a, a, a]) == LowBits(0, 2) + LowBits(a, 8) + LowBits(4, 3) + LowBits(2, 3)
  {
    var e := Encoder(map[[a] := 3, [a, a] := 4], {}, 5, Sizer(4, 3), [a, a]);
    ThreeEncoded(a, e);
    ThreeClosed(a, e, TokenBits(Literal(a), 2));
    TokenStandard(a, 0, 2);
  }

  lemma ThreeEncoded(a: CodeUnit, e: Encoder)
    requires e == Encoder(map[[a] := 3, [a, a] := 4], {}, 5, Sizer(4, 3), [a, a])
    ensures Encode([a, a, a]) == (e, TokenBits(Literal(a), 2))
  {
    var sent := TokenBits(Literal(a), 2);
    OneEncoded(a, Encoder(map[[a] := 3], {[a]}, 4, Sizer(2, 2), [a]));
    TwoEncoded(a, e.(phrase := [a]));
    ThirdFed(a, e.(phrase := [a]), e);
    Fed([a, a], a, e.(phrase := [a]), sent, e, []);
    assert [a, a] + [a] == [a, a, a] && sent + [] == sent;
  }

  lemma OneEncoded(a: CodeUnit, e: Encoder)
    requires e == Encoder(map[[a] := 3], {[a]}, 4, Sizer(2, 2), [a])
    ensures Encode([a]) == (e, [])
  {
    FirstFed(a, e);
    assert Encode([]) == (NewEncoder, []);
    var none: Bits := [];
    Fed([], a, NewEncoder, none, e, none);
    assert none + none == none && [] + [a] == [a];
  }

  lemma TwoEncoded(a: CodeUnit, e: Encoder)
    requires e == Encoder(map[[a] := 3, [a, a] := 4], {}, 5, Sizer(4, 3), [a])
    ensures Encode([a, a]) == (e, TokenBits(Literal(a), 2))
  {
    var e1 := Encoder(map[[a] := 3], {[a]}, 4, Sizer(2, 2), [a]);
    var sent := TokenBits(Literal(a), 2);
    OneEncoded(a, e1);
    SecondUnit(a, e1, e);
    Fed([a], a, e1, [], e, sent);
    assert [a] + [a] == [a, a] && [] + sent == sent;
  }

  lemma SecondUnit(a: CodeUnit, e1: Encoder, e: Encoder)
    requires e1 == Encoder(map[[a] := 3], {[a]}, 4, Sizer(2, 2), [a])
    requires e == Encoder(map[[a] := 3, [a, a] := 4], {}, 5, Sizer(4, 3), [a])
    ensures Feed(e1, a) == (e, TokenBits(Literal(a), 2))
  {
    SecondFed(e1, a, a);
    FirstSent(e1, a);
  }

  lemma Fed(prefix: Text, a: CodeUnit, e: Encoder, bits: Bits, e': Encoder, more: Bits)
    requires Encode(prefix) == (e, bits) && Feed(e, a) == (e', more)
    ensures Encode(prefix + [a]) == (e', bits + more)
  {
    Extend(prefix, a);
  }

  lemma ThreeClosed(a: CodeUnit, e: Encoder, sent: Bits)
    requires e == Encoder(map[[a] := 3, [a, a] := 4], {}, 5, Sizer(4, 3), [a, a])
    ensures Closed(e, sent) == sent + LowBits(4, 3) + LowBits(2, 3)
  {
  }

  lemma FirstFed(a: CodeUnit, e: Encoder)
    requires e == Encoder(map[[a] := 3], {[a]}, 4, Sizer(2, 2), [a])
    ensures Feed(NewEncoder, a) == (e, [])
  {
    assert [] + [a] == [a] && |PROTO| == 9 && [a] != PROTO;
    assert map[][[a] := 3] == map[[a] := 3] && {} + {[a]} == {[a]};
  }

  lemma ThirdFed(a: CodeUnit, e: Encoder, e': Encoder)
    requires e == Encoder(map[[a] := 3, [a, a] := 4], {}, 5, Sizer(4, 3), [a]) && e' == e.(phrase := [a, a])
    ensures Feed(e, a) == (e', [])
  {
    assert [a] + [a] == [a, a];
  }

  // ---------- The decoder on other streams ----------

  /** Input that ends before the marker yields the empty string. */
  lemma EndsEarly(bits: Bits, position: nat, d: Decoder)
    requires position >= |bits|
    ensures DecodeFrom(bits, position, d) == Decoded([])
  {
  }

  /** A code beyond the next entry yields null, and a first code from 3 on leaves the
      first character undefined. */
  lemma UnknownCode(bits: Bits, position: nat, d: Decoder, code: nat, next: nat)
    requires position < |bits| && ReadToken(bits, position, d.sizer.width) == (Reference(code), next)
    requires code > |d.entries|
    ensures DecodeFrom(bits, position, d) == Null
  {
  }

  lemma UnknownFirst(bits: Bits, code: nat, next: nat)
    requires ReadToken(bits, 0, 2) == (Reference(code), next)
    ensures Decode(bits) == Undefined
  {
  }
}
