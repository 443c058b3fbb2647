/** How large codes can get: JavaScript's shifts and masks are 32-bit, so the
    integer arithmetic of this model is the code's own as long as codes stay
    below 2^31. */
module LzWidth {
  import opened Arithmetic
  import opened LzBits
  import opened LzCodec

  function Units(t: Text): set<CodeUnit> { set u | u in t }

  /** Every code is either a character's first use or a phrase ended by one unit. */
  lemma {:induction false} NextBound(input: Text)
    ensures var e := Encode(input).0;
      && e.next <= 3 + |input| + |Units(input)|
      && forall u <- input :: [u] in e.dict
  {
    if input != [] {
      var a, init := input[|input| - 1], input[..|input| - 1];
      assert input == init + [a];
      Extend(init, a);
      NextBound(init);
      assert Units(input) == Units(init) + {a};
      assert a in Units(init) ==> Units(input) == Units(init);
    }
  }

  function Below(n: nat): (s: set<int>)
    ensures |s| == n && forall u :: u in s <==> 0 <= u < n
  {
    if n == 0 then {} else Below(n - 1) + {n - 1}
  }

  lemma SubsetSize(s: set<int>, t: set<int>)
    requires s <= t
    ensures |s| <= |t|
  {
    assert s + (t - s) == t;
  }

  lemma UnitsBound(input: Text)
    ensures |Units(input)| <= 65536
  {
    var s: set<int> := set u | u in input :: u as int;
    assert s == Units(input);
    SubsetSize(s, Below(65536));
  }

  predicate CountdownOk(z: Sizer) { z.countdown <= Pow2(z.width - 1) }

  /** The countdown never exceeds half of the codes of the current width. */
  lemma {:induction false} CountdownBound(input: Text)
    ensures CountdownOk(Encode(input).0.sizer)
  {
    if input != [] {
      var a, init := input[|input| - 1], input[..|input| - 1];
      assert input == init + [a];
      Extend(init, a);
      CountdownBound(init);
      FeedTicks(Encode(init).0, a);
    }
  }

  lemma FeedTicks(e: Encoder, a: CodeUnit)
    requires CountdownOk(e.sizer)
    ensures CountdownOk(Feed(e, a).0.sizer)
  {
    TickKeepsCountdown(e.sizer);
    TickKeepsCountdown(Tick(e.sizer));
  }

  lemma TickKeepsCountdown(z: Sizer)
    requires CountdownOk(z)
    ensures CountdownOk(Tick(z))
  {
  }

  /** Below 2^29 code units no code, width mask or shift reaches the sign bit. */
  lemma WidthBound(input: Text)
    ensures var width := Encode(input).0.sizer.width;
      && Pow2(width) <= 2 * (|input| + 65539)
      && (|input| < 0x2000_0000 ==> width <= 30)
  {
    var e := Encode(input).0;
    NextBound(input);
    UnitsBound(input);
    CountdownBound(input);
    TableBalance(input);
    Pow2Words();
    if e.sizer.width > 30 { Pow2Monotone(31, e.sizer.width); }
  }

  /** Nor does the width of the end marker, which may have grown once more. */
  lemma MarkerWidthBound(input: Text)
    requires |input| < 0x2000_0000
    ensures Emitted(Encode(input).0).sizer.width <= 30
  {
    WidthBound(input);
    var e := Encode(input).0;
    NextBound(input);
    UnitsBound(input);
    TableBalance(input);
    EmittedWidth(e);
    if e.sizer.width == 30 {
      Pow2Words();
      assert e.sizer.countdown > 2;
    }
  }

  lemma EmittedWidth(e: Encoder)
    ensures Emitted(e).sizer.width <= e.sizer.width + 1
    ensures e.sizer.countdown > 2 ==> Emitted(e).sizer.width == e.sizer.width
  {
    TicksOnce(e.sizer);
  }

  /** Two ticks widen the code at most once, and only near the end of the countdown. */
  lemma TicksOnce(z: Sizer)
    ensures Tick(z).width <= Tick(Tick(z)).width <= z.width + 1
    ensures z.countdown > 2 ==> Tick(Tick(z)).width == z.width
  {
  }

  lemma TableBalance(input: Text)
    ensures var e := Encode(input).0; Pow2(e.sizer.width) <= e.next + e.sizer.countdown
  {
    Pow2Values();
    if input != [] {
      var d := DecodePrefix(input, []);
    }
  }
}
