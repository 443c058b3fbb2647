/** The public pairs of `LZString`: each spells the 6-, 15- or 16-bit symbols in
    its own alphabet and reads them back. */
module LzWrappers {
  import opened Arithmetic
  import opened LzBits
  import opened LzCodec
  import opened LzString

  // ---------- Alphabets ----------

  /** The two keys as they are written. */
  const BASE64_KEY: string := "ABCDEFGHIJKLMNOPQRSTUVWXYZ" + "abcdefghijklmnopqrstuvwxyz" + "0123456789+/="
  const URI_KEY: string := "ABCDEFGHIJKLMNOPQRSTUVWXYZ" + "abcdefghijklmnopqrstuvwxyz" + "0123456789+-$"

  /** Letters and digits in both keys; the last three characters differ. */
  const BASE64_TAIL: Text := [43, 47, 61]  // + / =
  const URI_TAIL: Text := [43, 45, 36]     // + - $

  function KeyAt(tail: Text, i: nat): CodeUnit
    requires |tail| == 3 && i < 65
  {
    if i < 26 then 65 + i else if i < 52 then 97 + i - 26 else if i < 62 then 48 + i - 52 else tail[i - 62]
  }

  /** The position of a unit in the key; `undefined`, which masks to 0, otherwise. */
  function KeyIndex(tail: Text, u: CodeUnit): nat
    requires |tail| == 3
  {
    if 65 <= u < 91 then u - 65 else if 97 <= u < 123 then u - 97 + 26 else if 48 <= u < 58 then u - 48 + 52
    else if u == tail[0] then 62 else if u == tail[1] then 63 else if u == tail[2] then 64 else 0
  }

  /** `charAt` in the two keys. */
  lemma Base64Key(i: nat)
    requires i < 65
    ensures BASE64_KEY == "ABCDEFGHIJKLMNOPQRSTUVWXYZ" + "abcdefghijklmnopqrstuvwxyz" + "0123456789+/="
    ensures KeyAt(BASE64_TAIL, i) == BASE64_KEY[i] as int
  {
    if i < 26 { CapitalKey(i); } else if i < 52 { SmallKey(i - 26); }
  }

  lemma UriKey(i: nat)
    requires i < 65
    ensures URI_KEY == "ABCDEFGHIJKLMNOPQRSTUVWXYZ" + "abcdefghijklmnopqrstuvwxyz" + "0123456789+-$"
    ensures KeyAt(URI_TAIL, i) == URI_KEY[i] as int
  {
    if i < 26 { CapitalKey(i); } else if i < 52 { SmallKey(i - 26); }
  }

  lemma CapitalKey(i: nat)
    requires i < 26
    ensures "ABCDEFGHIJKLMNOPQRSTUVWXYZ"[i] as int == 65 + i
  {
  }

  lemma SmallKey(i: nat)
    requires i < 26
    ensures "abcdefghijklmnopqrstuvwxyz"[i] as int == 97 + i
  {
  }

  lemma KeyRoundTrip(tail: Text, i: nat)
    requires tail == BASE64_TAIL || tail == URI_TAIL
    requires i < 65
    ensures KeyIndex(tail, KeyAt(tail, i)) == i && KeyAt(tail, i) != 32
  {
  }

  function Spell(tail: Text, symbols: seq<nat>): (t: Text)
    requires |tail| == 3 && forall i | 0 <= i < |symbols| :: symbols[i] < 65
    ensures |t| == |symbols|
  {
    seq(|symbols|, i requires 0 <= i < |symbols| => KeyAt(tail, symbols[i]))
  }

  function Read(tail: Text, t: Text): (symbols: seq<nat>)
    requires |tail| == 3
    ensures |symbols| == |t|
  {
    seq(|t|, i requires 0 <= i < |t| => KeyIndex(tail, t[i]))
  }

  /** The symbols, each as its character of the key, begin the text. */
  predicate Spells(key: string, symbols: seq<nat>, t: Text)
  {
    |symbols| <= |t| && forall i | 0 <= i < |symbols| :: symbols[i] < |key| && t[i] as int == key[symbols[i]] as int
  }

  lemma SpellsBase64(symbols: seq<nat>, equals: Text)
    requires forall i | 0 <= i < |symbols| :: symbols[i] < 65
    ensures Spells(BASE64_KEY, symbols, Spell(BASE64_TAIL, symbols) + equals)
  {
    forall i | 0 <= i < |symbols|
      ensures Spell(BASE64_TAIL, symbols)[i] == BASE64_KEY[symbols[i]] as int
    {
      Base64Key(symbols[i]);
    }
  }

  lemma SpellsUri(symbols: seq<nat>)
    requires forall i | 0 <= i < |symbols| :: symbols[i] < 65
    ensures Spells(URI_KEY, symbols, Spell(URI_TAIL, symbols))
  {
    forall i | 0 <= i < |symbols|
      ensures Spell(URI_TAIL, symbols)[i] == URI_KEY[symbols[i]] as int
    {
      UriKey(symbols[i]);
    }
  }

  lemma ReadSpell(tail: Text, symbols: seq<nat>)
    requires tail == BASE64_TAIL || tail == URI_TAIL
    requires forall i | 0 <= i < |symbols| :: symbols[i] < 65
    ensures Read(tail, Spell(tail, symbols)) == symbols
    ensures 32 !in Spell(tail, symbols)
  {
    forall i | 0 <= i < |symbols|
      ensures Read(tail, Spell(tail, symbols))[i] == symbols[i] && Spell(tail, symbols)[i] != 32
    {
      KeyRoundTrip(tail, symbols[i]);
    }
  }

  // ---------- Base64 ----------

  /** The text spells the compressed symbols in the key; `=` fills it up to a multiple
      of four. */
  method CompressToBase64(input: Text) returns (t: Text, ghost symbols: seq<nat>, ghost padding: nat)
    ensures Unpack(symbols, 6) == Stream(input) + Zeros(padding) && 1 <= padding <= 6
    ensures Spells(BASE64_KEY, symbols, t)
    ensures |t| < |symbols| + 4 && forall i | |symbols| <= i < |t| :: t[i] as int == '=' as int
    ensures t != [] && |t| % 4 == 0
    ensures Decode(Unpack(Read(BASE64_TAIL, t), 6)) == Decoded(input)
  {
    var output;
    output, padding := Compress(input, 6);
    symbols := output;
    Pow2Values();
    var n := Spell(BASE64_TAIL, output);
    ghost var equals;
    t, equals := PadToFour(n);
    Base64Decodes(input, output, padding, equals);
    SpellsBase64(output, equals);
  }

  method PadToFour(n: Text) returns (t: Text, ghost equals: Text)
    ensures t == n + equals && |t| % 4 == 0 && |equals| < 4
    ensures forall i | 0 <= i < |equals| :: equals[i] as int == '=' as int
  {
    t := n + Equals(|n| % 4);
    equals := Equals(|n| % 4);
  }

  lemma Base64Decodes(input: Text, symbols: seq<nat>, padding: nat, equals: Text)
    requires Unpack(symbols, 6) == Stream(input) + Zeros(padding)
    requires forall i | 0 <= i < |symbols| :: symbols[i] < 65
    ensures Decode(Unpack(Read(BASE64_TAIL, Spell(BASE64_TAIL, symbols) + equals), 6)) == Decoded(input)
  {
    ReadSpell(BASE64_TAIL, symbols);
    ReadAppend(BASE64_TAIL, Spell(BASE64_TAIL, symbols), equals);
    DecodeWithSuffix(input, symbols, Read(BASE64_TAIL, equals), 6, padding);
  }

  function Equals(r: nat): (t: Text)
    requires r < 4
    ensures (r + |t| == 0 || r + |t| == 4) && forall i | 0 <= i < |t| :: t[i] as int == '=' as int
  {
    if r == 1 then [61, 61, 61] else if r == 2 then [61, 61] else if r == 3 then [61] else []
  }

  lemma ReadAppend(tail: Text, a: Text, b: Text)
    requires |tail| == 3
    ensures Read(tail, a + b) == Read(tail, a) + Read(tail, b)
  {
  }

  method DecompressFromBase64(t: Text) returns (r: Outcome)
    ensures r == if t == [] then Null else Decode(Unpack(Read(BASE64_TAIL, t), 6))
  {
    if t == [] { return Null; }
    r := Decompress(Read(BASE64_TAIL, t), 6);
  }

  // ---------- Playground links ----------

  function SpacesToPlus(t: Text): (r: Text)
    ensures |r| == |t|
  {
    seq(|t|, i requires 0 <= i < |t| => if t[i] == 32 then 43 else t[i])
  }

  /** The text carries no space, so a `+` turned into a space on the way can be
      recognised and restored. */
  method CompressToEncodedURIComponent(input: Text) returns (t: Text, ghost symbols: seq<nat>, ghost padding: nat)
    ensures Unpack(symbols, 6) == Stream(input) + Zeros(padding) && 1 <= padding <= 6
    ensures |t| == |symbols| && Spells(URI_KEY, symbols, t)
    ensures t != [] && 32 !in t
    ensures Decode(Unpack(Read(URI_TAIL, t), 6)) == Decoded(input)
  {
    var output;
    output, padding := Compress(input, 6);
    symbols := output;
    Pow2Values();
    t := Spell(URI_TAIL, output);
    ReadSpell(URI_TAIL, output);
    SpellsUri(output);
    assert output + [] == output;
    DecodeWithSuffix(input, output, [], 6, padding);
  }

  method DecompressFromEncodedURIComponent(t: Text) returns (r: Outcome)
    ensures r == if t == [] then Null else Decode(Unpack(Read(URI_TAIL, SpacesToPlus(t)), 6))
  {
    if t == [] { return Null; }
    r := Decompress(Read(URI_TAIL, SpacesToPlus(t)), 6);
  }

  /** A link survives any set of its `+` arriving as spaces. */
  lemma PlusesSurvive(t: Text, received: Text)
    requires 32 !in t && |received| == |t|
    requires forall i | 0 <= i < |t| :: received[i] == t[i] || (t[i] == 43 && received[i] == 32)
    ensures SpacesToPlus(received) == t
  {
    forall i | 0 <= i < |t| ensures SpacesToPlus(received)[i] == t[i] {
      assert t[i] in t;
    }
  }

  method LinkRoundTrip(input: Text, spaced: set<nat>)
    returns (t: Text, r: Outcome, ghost symbols: seq<nat>, ghost padding: nat)
    ensures Unpack(symbols, 6) == Stream(input) + Zeros(padding) && 1 <= padding <= 6
    ensures |t| == |symbols| && Spells(URI_KEY, symbols, t)
    ensures r == Decoded(input)
  {
    t, symbols, padding := CompressToEncodedURIComponent(input);
    var received := seq(|t|, i requires 0 <= i < |t| => if i in spaced && t[i] == 43 then 32 else t[i]);
    PlusesSurvive(t, received);
    r := DecompressFromEncodedURIComponent(received);
  }

  method Base64RoundTrip(input: Text) returns (r: Outcome)
    ensures r == Decoded(input)
  {
    var t;
    ghost var symbols, padding;
    t, symbols, padding := CompressToBase64(input);
    r := DecompressFromBase64(t);
  }

  // ---------- UTF-16 and raw ----------

  /** 15-bit symbols are shifted past the control characters. */
  function Shifted(symbols: seq<nat>): (t: Text)
    requires forall i | 0 <= i < |symbols| :: symbols[i] < 32768
    ensures |t| == |symbols|
  {
    seq(|symbols|, i requires 0 <= i < |symbols| => (symbols[i] + 32) as CodeUnit)
  }

  /** `charCodeAt(i) - 32`; a negative difference keeps its low 16 bits under `&`. */
  function Unshifted(t: Text): (symbols: seq<nat>)
    ensures |symbols| == |t|
  {
    seq(|t|, i requires 0 <= i < |t| => (t[i] as int + 65504) % 65536)
  }

  method Utf16RoundTrip(input: Text) returns (t: Text, r: Outcome)
    ensures t != [] && (forall u :: u in t ==> 32 <= u < 32800) && r == Decoded(input)
  {
    ghost var symbols, padding;
    t, symbols, padding := CompressToUTF16(input);
    r := DecompressFromUTF16(t);
  }

  /** 15-bit symbols, each 32 more, and a blank. */
  method CompressToUTF16(input: Text) returns (t: Text, ghost symbols: seq<nat>, ghost padding: nat)
    ensures Unpack(symbols, 15) == Stream(input) + Zeros(padding) && 1 <= padding <= 15
    ensures |t| == |symbols| + 1 && t[|symbols|] == 32 && forall i | 0 <= i < |symbols| :: t[i] == symbols[i] + 32
    ensures t != [] && (forall u :: u in t ==> 32 <= u < 32800)
    ensures Decode(Unpack(Unshifted(t), 15)) == Decoded(input)
  {
    var output;
    output, padding := Compress(input, 15);
    symbols := output;
    Pow2Values();
    t := Shifted(output) + [32];
    UnshiftShifted(output);
    ShiftedRange(output);
    DecodeWithSuffix(input, output, [0], 15, padding);
  }

  lemma UnshiftShifted(symbols: seq<nat>)
    requires forall i | 0 <= i < |symbols| :: symbols[i] < 32768
    ensures Unshifted(Shifted(symbols) + [32]) == symbols + [0]
  {
  }

  lemma ShiftedRange(symbols: seq<nat>)
    requires forall i | 0 <= i < |symbols| :: symbols[i] < 32768
    ensures forall u :: u in Shifted(symbols) + [32] ==> 32 <= u < 32800
  {
  }

  method DecompressFromUTF16(t: Text) returns (r: Outcome)
    ensures r == if t == [] then Null else Decode(Unpack(Unshifted(t), 15))
  {
    if t == [] { return Null; }
    r := Decompress(Unshifted(t), 15);
  }

  method CompressRaw(input: Text) returns (t: Text, ghost padding: nat)
    ensures Unpack(t, 16) == Stream(input) + Zeros(padding) && 1 <= padding <= 16
    ensures t != [] && Decode(Unpack(t, 16)) == Decoded(input)
  {
    var symbols;
    symbols, padding := Compress(input, 16);
    Pow2Values();
    t := AsText(symbols);
    assert symbols + [] == symbols;
    DecodeWithSuffix(input, symbols, [], 16, padding);
  }

  method AsText(symbols: seq<nat>) returns (t: Text)
    requires forall i | 0 <= i < |symbols| :: symbols[i] < 65536
    ensures t == symbols
  {
    t := seq(|symbols|, i requires 0 <= i < |symbols| => symbols[i]);
  }

  method DecompressRaw(t: Text) returns (r: Outcome)
    ensures r == if t == [] then Null else Decode(Unpack(t, 16))
  {
    if t == [] { return Null; }
    r := Decompress(t, 16);
  }

  // ---------- Bytes ----------

  type Byte = b: int | 0 <= b < 256

  /** Every 16-bit symbol as two bytes, the high byte first. */
  method CompressToUint8Array(input: Text) returns (bytes: array<Byte>, ghost units: Text, ghost padding: nat)
    ensures Unpack(units, 16) == Stream(input) + Zeros(padding) && 1 <= padding <= 16
    ensures bytes.Length == 2 * |units|
    ensures forall k | 0 <= k < |units| :: bytes[2 * k] == units[k] / 256 && bytes[2 * k + 1] == units[k] % 256
    ensures fresh(bytes) && bytes.Length % 2 == 0 && bytes.Length > 0
    ensures Decode(Unpack(UnitsOf(bytes[..]), 16)) == Decoded(input)
  {
    var t;
    t, padding := CompressRaw(input);
    units := t;
    bytes := BytesOf(t);
  }

  method BytesOf(t: Text) returns (bytes: array<Byte>)
    ensures fresh(bytes) && bytes.Length == 2 * |t|
    ensures forall k | 0 <= k < |t| :: bytes[2 * k] == t[k] / 256 && bytes[2 * k + 1] == t[k] % 256
    ensures UnitsOf(bytes[..]) == t
  {
    bytes := new Byte[2 * |t|];
    for e := 0 to |t|
      invariant forall k | 0 <= k < e :: bytes[2 * k] == t[k] / 256 && bytes[2 * k + 1] == t[k] % 256
    {
      bytes[2 * e], bytes[2 * e + 1] := t[e] / 256, t[e] % 256;
    }
    assert UnitsOf(bytes[..]) == t;
  }

  function UnitsOf(bytes: seq<Byte>): (t: Text)
    requires |bytes| % 2 == 0
    ensures |t| == |bytes| / 2
  {
    seq(|bytes| / 2, e requires 0 <= e < |bytes| / 2 => 256 * (bytes[2 * e] as int) + bytes[2 * e + 1] as int)
  }

  method DecompressFromUint8Array(bytes: array<Byte>) returns (r: Outcome)
    requires bytes.Length % 2 == 0
    ensures r == if bytes.Length == 0 then Null else Decode(Unpack(UnitsOf(bytes[..]), 16))
  {
    r := DecompressRaw(UnitsOf(bytes[..]));
  }

  method Uint8ArrayRoundTrip(input: Text) returns (r: Outcome)
    ensures r == Decoded(input)
  {
    var bytes;
    ghost var units, padding;
    bytes, units, padding := CompressToUint8Array(input);
    r := DecompressFromUint8Array(bytes);
  }
}
