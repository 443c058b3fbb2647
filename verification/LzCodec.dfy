/** The dictionary coder of `LZString`: adaptive code width, characters sent as
    literals at their first use, and a decoder that is one dictionary entry
    behind the encoder. */
module LzCodec {
  import opened Wrappers
  import opened Arithmetic
  import opened LzBits

  datatype Outcome = Decoded(text: Text) | Null | Undefined

  /** How many codes remain before the code width grows, and the width. */
  datatype Sizer = Sizer(countdown: Positive, width: Positive)

  type Positive = n: nat | n >= 1 witness 1

  function Tick(z: Sizer): Sizer
  {
    if z.countdown == 1 then Sizer(Pow2(z.width), z.width + 1) else Sizer(z.countdown - 1, z.width)
  }

  // ---------- Tokens ----------

  datatype Token = Literal(unit: CodeUnit) | Reference(code: nat) | End

  /** A literal has 8 bits after code 0 and 16 bits after code 1. */
  function UnitBits(wide: bool): nat { if wide then 16 else 8 }

  function TokenBits(t: Token, width: nat): Bits
  {
    match t
    case Literal(u) => LowBits(Bit(u >= 256), width) + LowBits(u, UnitBits(u >= 256))
    case Reference(code) => LowBits(code, width)
    case End => LowBits(2, width)
  }

  /** The token at `position`, and the position after it. */
  function ReadToken(bits: Bits, position: nat, width: nat): (Token, nat)
  {
    Pow2Values();
    var code := ReadBits(bits, position, width);
    var next := position + width;
    if code <= 1 then
      var n := UnitBits(code == 1);
      (Literal(ReadBits(bits, next, n)), next + n)
    else if code == 2 then (End, next)
    else (Reference(code), next)
  }

  lemma Regroup(a: Bits, b: Bits, c: Bits, d: Bits)
    ensures a + (b + c) + d == a + b + (c + d) && a + (b + c) + d == (a + b) + c + d
    ensures a + b + c == a + (b + c)
  {
  }

  /** Two numbers written one after the other are read one after the other. */
  lemma ReadTwo(before: Bits, v: nat, n: nat, v': nat, n': nat, after: Bits, bits: Bits)
    requires v < Pow2(n) && v' < Pow2(n')
    requires bits == before + (LowBits(v, n) + LowBits(v', n')) + after
    ensures ReadBits(bits, |before|, n) == v && ReadBits(bits, |before| + n, n') == v'
  {
    var first, second := LowBits(v, n), LowBits(v', n');
    Regroup(before, first, second, after);
    ReadLowBits(before, v, n, second + after);
    ReadLowBits(before + first, v', n', after);
  }

  lemma ReadTokenBits(before: Bits, t: Token, width: nat, after: Bits, bits: Bits)
    requires width >= 2 && bits == before + TokenBits(t, width) + after
    requires t.Reference? ==> 3 <= t.code < Pow2(width)
    ensures ReadToken(bits, |before|, width) == (t, |before| + |TokenBits(t, width)|)
  {
    WidthFits(width);
    match t
    case Literal(u) => UnitFits(u); ReadLiteral(before, u, u >= 256, width, after, bits);
    case Reference(code) => ReadCode(before, code, width, after, bits);
    case End => ReadCode(before, 2, width, after, bits);
  }

  lemma UnitFits(u: CodeUnit)
    ensures u < Pow2(UnitBits(u >= 256))
  {
    Pow2Values();
  }

  lemma WidthFits(width: nat)
    requires width >= 2
    ensures Pow2(width) >= 4
  {
    Pow2Monotone(2, width);
  }

  lemma ReadCode(before: Bits, code: nat, width: nat, after: Bits, bits: Bits)
    requires 2 <= code < Pow2(width) && bits == before + LowBits(code, width) + after
    ensures ReadToken(bits, |before|, width)
         == (if code == 2 then End else Reference(code), |before| + width)
  {
    ReadLowBits(before, code, width, after);
  }

  lemma ReadLiteral(before: Bits, u: CodeUnit, wide: bool, width: nat, after: Bits, bits: Bits)
    requires u < Pow2(UnitBits(wide)) && 1 < Pow2(width)
    requires bits == before + (LowBits(Bit(wide), width) + LowBits(u, UnitBits(wide))) + after
    ensures ReadToken(bits, |before|, width) == (Literal(u), |before| + width + UnitBits(wide))
  {
    ReadTwo(before, Bit(wide), width, u, UnitBits(wide), after, bits);
  }

  // ---------- The encoder's specification ----------

  type Dictionary = map<Text, nat>

  /** The UTF-16 code units of `__proto__`. */
  const PROTO: Text := [95, 95, 112, 114, 111, 116, 111, 95, 95]

  /** Assigning a number to the key `__proto__` of a plain object creates no
      own property: that phrase never enters the dictionary. */
  function Insert(dict: Dictionary, phrase: Text, code: nat): Dictionary
  {
    if phrase == PROTO then dict else dict[phrase := code]
  }

  datatype Encoder = Encoder(
    dict: Dictionary, unsent: set<Text>, next: nat, sizer: Sizer, phrase: Text)

  const NewEncoder := Encoder(map[], {}, 3, Sizer(2, 2), [])

  /** The first use of a character sends the character itself. */
  predicate AsLiteral(e: Encoder) { e.phrase in e.unsent && e.phrase != [] }

  /** What the current phrase is sent as; a phrase without a code would be
      written as the bits of `undefined`, all 0. */
  function PhraseToken(e: Encoder): Token
  {
    if AsLiteral(e) then Literal(e.phrase[0])
    else Reference(if e.phrase in e.dict then e.dict[e.phrase] else 0)
  }

  function Emitted(e: Encoder): (r: Encoder)
  {
    if AsLiteral(e)
    then e.(unsent := e.unsent - {e.phrase}, sizer := Tick(Tick(e.sizer)))
    else e.(sizer := Tick(e.sizer))
  }

  /** The encoder after the dictionary has met code unit `a`. */
  function Met(e: Encoder, a: CodeUnit): Encoder
  {
    if [a] in e.dict then e
    else e.(dict := Insert(e.dict, [a], e.next), next := e.next + 1, unsent := e.unsent + {[a]})
  }

  /** One iteration of the compressor's loop: the new state and the bits written. */
  function Feed(e: Encoder, a: CodeUnit): (r: (Encoder, Bits))
  {
    var e1 := Met(e, a);
    var longer := e1.phrase + [a];
    if longer in e1.dict then (e1.(phrase := longer), [])
    else
      var e2 := Emitted(e1);
      (e2.(dict := Insert(e2.dict, longer, e2.next), next := e2.next + 1, phrase := [a]),
       TokenBits(PhraseToken(e1), e1.sizer.width))
  }

  function Encode(input: Text): (r: (Encoder, Bits))
  {
    if input == [] then (NewEncoder, [])
    else
      var (e, bits) := Encode(input[..|input| - 1]);
      var (e', more) := Feed(e, input[|input| - 1]);
      (e', bits + more)
  }

  function LastToken(e: Encoder): Bits { TokenBits(PhraseToken(e), e.sizer.width) }

  function Marker(e: Encoder): Bits { TokenBits(End, Emitted(e).sizer.width) }

  /** Everything the compressor writes before the padding. */
  function Stream(input: Text): Bits
  {
    var (e, bits) := Encode(input);
    Closed(e, bits)
  }

  /** The last phrase, if there is one, and the end marker. */
  function Closed(e: Encoder, bits: Bits): Bits
  {
    if e.phrase == [] then bits + TokenBits(End, e.sizer.width) else bits + LastToken(e) + Marker(e)
  }

  // ---------- The decoder's specification ----------

  datatype Decoder = Decoder(entries: seq<Text>, sizer: Sizer, previous: Text, output: Text)

  /** Entries 0, 1 and 2 are the reserved codes, which hold no text. */
  function FirstDecoder(u: CodeUnit): (d: Decoder)
  {
    Decoder([[], [], [], [u]], Sizer(4, 3), [u], [u])
  }

  function First(t: Text): Text { if t == [] then [] else [t[0]] }

  /** One iteration of the decompressor's loop on a token other than `End`. */
  function Apply(d: Decoder, t: Token): (r: Option<Decoder>)
    requires !t.End?
  {
    var d1 := if t.Literal? then d.(entries := d.entries + [[t.unit]], sizer := Tick(d.sizer)) else d;
    var code := if t.Literal? then |d.entries| else t.code;
    if code < |d1.entries| && d1.entries[code] != [] then Some(Extended(d1, d1.entries[code]))
    else if code == |d1.entries| then Some(Extended(d1, d1.previous + First(d1.previous)))
    else None
  }

  function Extended(d: Decoder, m: Text): (r: Decoder)
  {
    Decoder(d.entries + [d.previous + First(m)], Tick(d.sizer), m, d.output + m)
  }

  function DecodeFrom(bits: Bits, position: nat, d: Decoder): Outcome
    decreases |bits| - position
  {
    if position >= |bits| then Decoded([])
    else
      var (t, next) := ReadToken(bits, position, d.sizer.width);
      if t.End? then Decoded(d.output)
      else match Apply(d, t)
        case None => Null
        case Some(d') => DecodeFrom(bits, next, d')
  }

  /** The first token has two bits; a first code of 3 leaves the first
      character undefined. */
  function Decode(bits: Bits): Outcome
  {
    var (t, next) := ReadToken(bits, 0, 2);
    match t
    case Literal(u) => DecodeFrom(bits, next, FirstDecoder(u))
    case End => Decoded([])
    case Reference(_) => Undefined
  }

  // ---------- Synchronisation ----------

  /** What the encoder keeps between code units. */
  ghost predicate EncoderOk(e: Encoder)
  {
    && e.phrase in e.dict && e.phrase != []
    && e.unsent <= {e.phrase} && (e.phrase in e.unsent ==> |e.phrase| == 1)
    && (forall x <- e.dict :: x != [] && 3 <= e.dict[x] < e.next)
    && (forall x <- e.dict, i | 0 <= i < |x| :: [x[i]] in e.dict)
    && (forall x <- e.dict :: |x| >= 2 ==> [x[0]] !in e.unsent)
  }

  /** Nothing has been written yet: one character is waiting. */
  ghost predicate Waiting(e: Encoder)
  {
    |e.phrase| == 1 && e == Encoder(map[e.phrase := 3], {e.phrase}, 4, Sizer(2, 2), e.phrase)
  }

  /** The dictionary entry the decoder will add with its next token. */
  function Pending(e: Encoder, d: Decoder): Text
  {
    d.previous + First(e.phrase)
  }

  /** What code `k` of phrase `x` will mean to the decoder: an entry it has, the
      literal now waiting, or its pending entry. */
  ghost predicate Resolves(e: Encoder, d: Decoder, x: Text, k: nat)
  {
    var h := |d.entries|;
    if k < h then d.entries[k] == x
    else if e.phrase in e.unsent && k == h then x == e.phrase
    else k == e.next - 1 && x == Pending(e, d)
  }

  ghost predicate Synced(e: Encoder, d: Decoder)
  {
    && EncoderOk(e)
    && d.previous != [] && |d.entries| >= 4 && d.sizer == e.sizer
    && e.next == |d.entries| + (if e.phrase in e.unsent then 2 else 1)
    && |d.entries| + d.sizer.countdown == Pow2(d.sizer.width) && d.sizer.width >= 2
    && (forall x <- e.dict :: Resolves(e, d, x, e.dict[x]))
  }

  /** The decoder reads the phrase back from its token, even when the token
      names the entry the decoder is only about to add. */
  lemma ApplyPhrase(e: Encoder, d: Decoder)
    requires Synced(e, d)
    ensures Apply(d, PhraseToken(e)).Some?
    ensures var d' := Apply(d, PhraseToken(e)).value;
      && d'.output == d.output + e.phrase && d'.previous == e.phrase
      && d'.sizer == Emitted(e).sizer
      && d'.entries == d.entries + (if e.phrase in e.unsent then [e.phrase] else []) + [Pending(e, d)]
  {
    assert Resolves(e, d, e.phrase, e.dict[e.phrase]);
    if e.phrase in e.unsent {
      assert e.phrase == [e.phrase[0]];
    }
  }

  // ---------- One step of both sides ----------

  lemma MetKeepsOk(e: Encoder, a: CodeUnit)
    requires EncoderOk(e)
    ensures [a] !in e.dict ==> e.phrase + [a] !in Met(e, a).dict
    ensures var e1 := Met(e, a);
      && [a] in e1.dict && e1.phrase == e.phrase && e1.phrase in e1.dict
      && (forall x <- e1.dict :: x != [] && 3 <= e1.dict[x] < e1.next)
      && (forall x <- e1.dict, i | 0 <= i < |x| :: [x[i]] in e1.dict)
  {
    assert (e.phrase + [a])[|e.phrase|] == a;
  }

  /** A phrase that is already known: nothing is sent. */
  lemma GrowPhrase(e: Encoder, a: CodeUnit)
    requires EncoderOk(e) && e.phrase + [a] in Met(e, a).dict
    ensures Met(e, a) == e && e.phrase !in e.unsent && EncoderOk(Feed(e, a).0)
    ensures Feed(e, a) == (e.(phrase := e.phrase + [a]), [])
  {
    MetKeepsOk(e, a);
    assert (e.phrase + [a])[0] == e.phrase[0];
    assert |e.phrase| == 1 ==> e.phrase == [e.phrase[0]];
  }

  /** A phrase that is not: the current one is sent and a new one starts. */
  lemma SendPhrase(e: Encoder, a: CodeUnit)
    requires EncoderOk(e) && e.phrase + [a] !in Met(e, a).dict
    ensures EncoderOk(Feed(e, a).0)
  {
    MetKeepsOk(e, a);
    var e' := Feed(e, a).0;
    var longer := e.phrase + [a];
    forall x <- e'.dict, i | 0 <= i < |x| ensures [x[i]] in e'.dict {
      if x == longer {
        if i < |e.phrase| { assert [e.phrase[i]] in e.dict; }
      }
    }
  }

  lemma SyncGrow(e: Encoder, d: Decoder, a: CodeUnit)
    requires Synced(e, d) && e.phrase + [a] in Met(e, a).dict
    ensures Synced(Feed(e, a).0, d)
  {
    GrowPhrase(e, a);
    var e' := Feed(e, a).0;
    assert First(e'.phrase) == First(e.phrase);
    forall x <- e'.dict ensures Resolves(e', d, x, e'.dict[x]) {
      assert Resolves(e, d, x, e.dict[x]);
    }
  }

  /** The sum of table size and countdown stays the next power of two. */
  lemma TickBalance(size: nat, z: Sizer)
    requires size + z.countdown == Pow2(z.width)
    ensures size + 1 + Tick(z).countdown == Pow2(Tick(z).width)
  {
  }

  lemma SendBalance(e: Encoder, d: Decoder, a: CodeUnit)
    requires Synced(e, d) && e.phrase + [a] !in Met(e, a).dict
    ensures var e', d' := Feed(e, a).0, Apply(d, PhraseToken(e)).value;
      && d'.sizer == e'.sizer && d'.sizer.width >= 2
      && |d'.entries| + d'.sizer.countdown == Pow2(d'.sizer.width)
      && e'.next == |d'.entries| + (if e'.phrase in e'.unsent then 2 else 1)
  {
    ApplyPhrase(e, d);
    MetKeepsOk(e, a);
    TickBalance(|d.entries|, d.sizer);
    if e.phrase in e.unsent { TickBalance(|d.entries| + 1, Tick(d.sizer)); }
  }

  lemma SendResolves(e: Encoder, d: Decoder, a: CodeUnit)
    requires Synced(e, d) && e.phrase + [a] !in Met(e, a).dict
    ensures var e', d' := Feed(e, a).0, Apply(d, PhraseToken(e)).value;
      forall x <- e'.dict :: Resolves(e', d', x, e'.dict[x])
  {
    ApplyPhrase(e, d);
    SendBalance(e, d, a);
    var e', d' := Feed(e, a).0, Apply(d, PhraseToken(e)).value;
    forall x <- e'.dict ensures Resolves(e', d', x, e'.dict[x]) {
      if x in e.dict && e'.dict[x] == e.dict[x] { assert Resolves(e, d, x, e.dict[x]); }
    }
  }

  lemma SyncSend(e: Encoder, d: Decoder, a: CodeUnit)
    requires Synced(e, d) && e.phrase + [a] !in Met(e, a).dict
    ensures Apply(d, PhraseToken(e)).Some?
    ensures Synced(Feed(e, a).0, Apply(d, PhraseToken(e)).value)
  {
    ApplyPhrase(e, d);
    SendPhrase(e, a);
    SendBalance(e, d, a);
    SendResolves(e, d, a);
  }

  lemma FirstSent(e: Encoder, a: CodeUnit)
    requires Waiting(e)
    ensures Feed(e, a).1 == TokenBits(Literal(e.phrase[0]), 2)
  {
    assert (e.phrase + [a])[1] == a;
  }

  /** The encoder after its first two units. */
  function SecondState(u: CodeUnit, a: CodeUnit): Encoder
  {
    if a == u then Encoder(map[[u] := 3, [u, a] := 4], {}, 5, Sizer(4, 3), [a])
    else Encoder(map[[u] := 3, [a] := 4, [u, a] := 5], {[a]}, 6, Sizer(4, 3), [a])
  }

  lemma SecondFed(e: Encoder, u: CodeUnit, a: CodeUnit)
    requires Waiting(e) && e.phrase == [u]
    ensures Feed(e, a).0 == SecondState(u, a)
  {
    assert e.phrase + [a] == [u, a] && [u, a] != [u] && [u, a] != [a];
    assert [a] == [u] <==> a == u;
  }

  lemma SecondSynced(u: CodeUnit, a: CodeUnit)
    ensures Synced(SecondState(u, a), FirstDecoder(u))
  {
    assert [a] == [u] <==> a == u;
    assert [u, a][0] == u && [u, a][1] == a;
  }

  lemma SyncFirst(e: Encoder, a: CodeUnit)
    requires Waiting(e)
    ensures Synced(Feed(e, a).0, FirstDecoder(e.phrase[0]))
  {
    assert e.phrase == [e.phrase[0]];
    SecondFed(e, e.phrase[0], a);
    SecondSynced(e.phrase[0], a);
  }

  // ---------- The round trip ----------

  lemma Extend(prefix: Text, a: CodeUnit)
    ensures Encode(prefix + [a]).0 == Feed(Encode(prefix).0, a).0
    ensures Encode(prefix + [a]).1 == Encode(prefix).1 + Feed(Encode(prefix).0, a).1
  {
    assert (prefix + [a])[..|prefix|] == prefix;
  }

  /** The code of the current phrase fits the current width. */
  lemma PhraseFits(e: Encoder, d: Decoder)
    requires Synced(e, d)
    ensures PhraseToken(e).Reference? ==> 3 <= PhraseToken(e).code < Pow2(e.sizer.width)
  {
    assert Resolves(e, d, e.phrase, e.dict[e.phrase]);
  }

  /** The decoder reads one token and goes on behind it. */
  lemma DecodeToken(bits: Bits, before: Bits, t: Token, d: Decoder, after: Bits)
    requires bits == before + TokenBits(t, d.sizer.width) + after && d.sizer.width >= 2
    requires !t.End? && (t.Reference? ==> 3 <= t.code < Pow2(d.sizer.width)) && Apply(d, t).Some?
    ensures DecodeFrom(bits, |before|, d)
         == DecodeFrom(bits, |before + TokenBits(t, d.sizer.width)|, Apply(d, t).value)
  {
    ReadTokenBits(before, t, d.sizer.width, after, bits);
    var sent := TokenBits(t, d.sizer.width);
    assert |bits| >= |before| + |sent| && |sent| >= d.sizer.width;
    DecodeStep(bits, |before|, |before + sent|, t, d);
  }

  lemma DecodeStep(bits: Bits, position: nat, next: nat, t: Token, d: Decoder)
    requires position < |bits| && ReadToken(bits, position, d.sizer.width) == (t, next) && next > position
    requires !t.End? && Apply(d, t).Some?
    ensures DecodeFrom(bits, position, d) == DecodeFrom(bits, next, Apply(d, t).value)
  {
  }

  lemma DecodePhrase(bits: Bits, before: Bits, e: Encoder, d: Decoder, after: Bits)
    requires Synced(e, d) && bits == before + TokenBits(PhraseToken(e), e.sizer.width) + after
    ensures Apply(d, PhraseToken(e)).Some?
    ensures var d' := Apply(d, PhraseToken(e)).value;
      && DecodeFrom(bits, |before|, d)
      == DecodeFrom(bits, |before + TokenBits(PhraseToken(e), e.sizer.width)|, d')
      && d'.output == d.output + e.phrase && d'.sizer == Emitted(e).sizer
  {
    PhraseFits(e, d);
    ApplyPhrase(e, d);
    DecodeToken(bits, before, PhraseToken(e), d, after);
  }

  /** The decoder, having read `bits`, has produced all of `prefix` but the
      encoder's current phrase, and goes on with `rest`. */
  ghost predicate Reached(prefix: Text, e: Encoder, bits: Bits, rest: Bits, d: Decoder)
  {
    if Waiting(e) then bits == [] && e.phrase == prefix
    else Synced(e, d) && d.output + e.phrase == prefix
         && Decode(bits + rest) == DecodeFrom(bits + rest, |bits|, d)
  }

  lemma ReachFirst(prefix: Text, e: Encoder, a: CodeUnit, rest: Bits)
    requires Waiting(e) && e.phrase == prefix
    ensures Reached(prefix + [a], Feed(e, a).0, Feed(e, a).1, rest, FirstDecoder(prefix[0]))
  {
    SyncFirst(e, a);
    FirstSent(e, a);
    FirstToken(prefix[0], Feed(e, a).1, rest);
  }

  lemma FirstToken(u: CodeUnit, more: Bits, rest: Bits)
    requires more == TokenBits(Literal(u), 2)
    ensures Decode(more + rest) == DecodeFrom(more + rest, |more|, FirstDecoder(u))
  {
    assert more + rest == [] + more + rest;
    ReadTokenBits([], Literal(u), 2, rest, more + rest);
  }

  lemma ReachGrow(prefix: Text, e: Encoder, bits: Bits, a: CodeUnit, rest: Bits, d: Decoder)
    requires !Waiting(e) && Reached(prefix, e, bits, rest, d) && e.phrase + [a] in Met(e, a).dict
    ensures Feed(e, a).1 == [] && Reached(prefix + [a], Feed(e, a).0, bits, rest, d)
  {
    GrowPhrase(e, a);
    SyncGrow(e, d, a);
    assert d.output + (e.phrase + [a]) == prefix + [a];
  }

  lemma ReachSend(prefix: Text, e: Encoder, bits: Bits, a: CodeUnit, rest: Bits, d: Decoder) returns (d': Decoder)
    requires !Waiting(e) && Reached(prefix, e, bits, Feed(e, a).1 + rest, d)
    requires e.phrase + [a] !in Met(e, a).dict
    ensures Reached(prefix + [a], Feed(e, a).0, bits + Feed(e, a).1, rest, d')
  {
    SyncSend(e, d, a);
    SendShape(e, a);
    d' := Apply(d, PhraseToken(e)).value;
    ReachNext(prefix, e, Feed(e, a).0, bits, Feed(e, a).1, a, rest, d, d');
  }

  lemma SendShape(e: Encoder, a: CodeUnit)
    requires EncoderOk(e) && e.phrase + [a] !in Met(e, a).dict
    ensures Feed(e, a).0.phrase == [a] && Feed(e, a).1 == TokenBits(PhraseToken(e), e.sizer.width)
  {
    SendPhrase(e, a);
  }

  /** What a sent phrase adds, whatever the encoder's other fields are. */
  lemma ReachNext(prefix: Text, e: Encoder, e': Encoder, bits: Bits, more: Bits, a: CodeUnit, rest: Bits,
                  d: Decoder, d': Decoder)
    requires !Waiting(e) && Reached(prefix, e, bits, more + rest, d)
    requires more == TokenBits(PhraseToken(e), e.sizer.width) && e'.phrase == [a]
    requires Apply(d, PhraseToken(e)) == Some(d') && Synced(e', d') && !Waiting(e')
    ensures Reached(prefix + [a], e', bits + more, rest, d')
  {
    Associate(bits, more, rest);
    DecodePhrase(bits + more + rest, bits, e, d, rest);
  }

  /** One more unit fed, after at least one. */
  lemma ReachStep(prefix: Text, e: Encoder, bits: Bits, a: CodeUnit, rest: Bits, d: Decoder) returns (d': Decoder)
    requires prefix != [] && Reached(prefix, e, bits, Feed(e, a).1 + rest, d)
    ensures Reached(prefix + [a], Feed(e, a).0, bits + Feed(e, a).1, rest, d')
  {
    if Waiting(e) {
      ReachFirst(prefix, e, a, rest);
      d' := FirstDecoder(prefix[0]);
      assert bits + Feed(e, a).1 == Feed(e, a).1;
    } else if e.phrase + [a] in Met(e, a).dict {
      GrowPhrase(e, a);
      assert [] + rest == rest && bits + [] == bits;
      ReachGrow(prefix, e, bits, a, rest, d);
      d' := d;
    } else {
      d' := ReachSend(prefix, e, bits, a, rest, d);
    }
  }

  lemma ReachOne(a: CodeUnit, rest: Bits, d: Decoder)
    ensures Reached([a], Feed(Encode([]).0, a).0, Encode([]).1 + Feed(Encode([]).0, a).1, rest, d)
  {
    assert [] + [a] == [a];
  }

  lemma {:induction false} DecodePrefix(prefix: Text, rest: Bits) returns (d: Decoder)
    requires prefix != []
    ensures Reached(prefix, Encode(prefix).0, Encode(prefix).1, rest, d)
  {
    var a, init := prefix[|prefix| - 1], prefix[..|prefix| - 1];
    assert prefix == init + [a];
    Extend(init, a);
    if init == [] {
      d := FirstDecoder(a);
      ReachOne(a, rest, d);
    } else {
      var (e, bits) := Encode(init);
      d := DecodePrefix(init, Feed(e, a).1 + rest);
      d := ReachStep(init, e, bits, a, rest, d);
    }
  }

  /** The end marker still has unread bits in front of it, so the end-of-input
      check does not fire before it is read. */
  lemma DecodeMarker(stream: Bits, before: Bits, d: Decoder, rest: Bits)
    requires stream == before + TokenBits(End, d.sizer.width) + rest && d.sizer.width >= 2
    ensures DecodeFrom(stream, |before|, d) == Decoded(d.output)
  {
    ReadTokenBits(before, End, d.sizer.width, rest, stream);
  }

  lemma DecodeShort(e: Encoder, rest: Bits)
    requires Waiting(e)
    ensures Decode(LastToken(e) + Marker(e) + rest) == Decoded(e.phrase)
  {
    var stream := LastToken(e) + Marker(e) + rest;
    assert stream == [] + LastToken(e) + (Marker(e) + rest);
    ReadTokenBits([], PhraseToken(e), 2, Marker(e) + rest, stream);
    DecodeMarker(stream, LastToken(e), FirstDecoder(e.phrase[0]), rest);
  }

  lemma DecodeLong(e: Encoder, bits: Bits, rest: Bits, d: Decoder, stream: Bits)
    requires Synced(e, d) && stream == bits + LastToken(e) + Marker(e) + rest
    ensures DecodeFrom(stream, |bits|, d) == Decoded(d.output + e.phrase)
  {
    Associate(bits + LastToken(e), Marker(e), rest);
    DecodePhrase(stream, bits, e, d, Marker(e) + rest);
    DecodeMarker(stream, bits + LastToken(e), Apply(d, PhraseToken(e)).value, rest);
  }

  /** `e` and `bits` stand for the encoder's state and output after `prefix`. */
  lemma DecodeReached(prefix: Text, e: Encoder, bits: Bits, rest: Bits, d: Decoder, stream: Bits)
    requires Reached(prefix, e, bits, LastToken(e) + Marker(e) + rest, d)
    requires stream == bits + LastToken(e) + Marker(e) + rest
    ensures e.phrase != [] && Decode(stream) == Decoded(prefix)
  {
    Associate(bits, LastToken(e), Marker(e));
    Associate(bits, LastToken(e) + Marker(e), rest);
    if Waiting(e) {
      assert stream == LastToken(e) + Marker(e) + rest;
      DecodeShort(e, rest);
    } else {
      DecodeLong(e, bits, rest, d, stream);
    }
  }

  lemma RoundTripEmpty(rest: Bits)
    ensures Decode(Stream([]) + rest) == Decoded([])
  {
    var stream := Stream([]) + rest;
    assert stream == [] + TokenBits(End, 2) + rest;
    ReadTokenBits([], End, 2, rest, stream);
  }

  /** Decompressing what compression wrote returns the text, for every string of
      UTF-16 code units and whatever bits follow the end marker. */
  lemma RoundTrip(input: Text, rest: Bits)
    ensures Decode(Stream(input) + rest) == Decoded(input)
  {
    if input == [] {
      RoundTripEmpty(rest);
    } else {
      RoundTripSome(input, Encode(input).0, Encode(input).1, rest);
    }
  }

  lemma RoundTripSome(input: Text, e: Encoder, bits: Bits, rest: Bits)
    requires input != [] && (e, bits) == Encode(input)
    ensures Decode(Stream(input) + rest) == Decoded(input)
  {
    var d := DecodePrefix(input, LastToken(e) + Marker(e) + rest);
    DecodeReached(input, e, bits, rest, d, bits + LastToken(e) + Marker(e) + rest);
  }
}
