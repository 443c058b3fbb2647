/** A quotation on its way from the macro to the engine: nested `let`s around a text
    with marks, which the engine splits at the marks and weaves together again. */
module QuoteSplit {
  import opened Wrappers
  import opened Quote

  // ---------- What the macro emits ----------

  /** The emitted expression: a `let` for each antiquotation, around the text. */
  datatype Code = Text(s: string) | Let(q: Antiquote, body: Code)

  datatype Emitted =
    | Reserved
    | Invalid(rest: string)
    | Unparsable(payload: string)
    | Future(payload: string)
    | Quoted(code: Code)

  function Lets(qs: seq<Antiquote>, s: string): Code
  {
    if qs == [] then Text(s) else Let(qs[0], Lets(qs[1..], s))
  }

  /** The last antiquotation that uses the `future` operator, which only a quotation
      in item position may. */
  ghost predicate LastFuture(qs: seq<Antiquote>, future: string -> bool, k: nat)
  {
    k < |qs| && future(qs[k].payload) && forall i | k < i < |qs| :: !future(qs[i].payload)
  }

  /** What `expression` promises for a payload, in terms of its scan. */
  ghost predicate EmittedFor(s: string, parses: string -> bool, unit: bool, future: string -> bool, r: Emitted)
  {
    if Contains(s, SPLIT_MARK) then r == Reserved
    else
      match ScanFrom(s, parses)
      case Empty(rest) => r == Invalid(rest)
      case Panicked(payload) => r == Unparsable(payload)
      case Scanned(ps) =>
        var qs := Antiquotes(ps);
        if unit || forall i | 0 <= i < |qs| :: !future(qs[i].payload) then r == Quoted(Lets(qs, Output(ps)))
        else exists k: nat | k < |qs| :: LastFuture(qs, future, k) && r == Future(qs[k].payload)
  }

  method HasMark(s: string) returns (found: bool)
    ensures found <==> Contains(s, SPLIT_MARK)
  {
    for i := 0 to |s| + 1
      invariant forall k | 0 <= k < i :: !StartsWith(s[k..], SPLIT_MARK)
    {
      if StartsWith(s[i..], SPLIT_MARK) { return true; }
    }
    found := false;
  }

  /** `expression`: the loop wraps the text from the last antiquotation to the first. */
  method Expression(s: string, parses: string -> bool, unit: bool, future: string -> bool) returns (r: Emitted)
    ensures EmittedFor(s, parses, unit, future, r)
  {
    var reserved := HasMark(s);
    if reserved { return Reserved; }
    var scanned := ProcessString(s, parses);
    match scanned
    case Err(rest) => return Invalid(rest);
    case Panic(payload) => return Unparsable(payload);
    case Ok(text, qs) =>
      var code := Text(text);
      var i := |qs|;
      assert qs[i..] == [];
      while i > 0
        invariant 0 <= i <= |qs| && code == Lets(qs[i..], text)
        invariant unit || forall k | i <= k < |qs| :: !future(qs[k].payload)
      {
        i := i - 1;
        if !unit && future(qs[i].payload) {
          assert LastFuture(qs, future, i);
          return Future(qs[i].payload);
        }
        assert qs[i..][1..] == qs[i + 1..];
        code := Let(qs[i], code);
      }
      assert qs[0..] == qs;
      return Quoted(code);
  }

  // ---------- The engine's splitter ----------

  /** `split_list_once`: what precedes the first mark and what follows it; the second
      part is empty also when there is no mark. */
  function SplitOnce(acc: string, s: string): (r: (string, string))
    ensures |r.1| <= |s| && (r.1 != [] ==> |r.1| < |s|)
    decreases |s|
  {
    if s == [] then (acc, [])
    else if StartsWith(s, SPLIT_MARK) then (acc, s[|SPLIT_MARK|..])
    else SplitOnce(acc + [s[0]], s[1..])
  }

  /** `split_list`: it stops when nothing is left, even right after a mark. */
  function SplitList(s: string): (parts: seq<string>)
    decreases |s|
  {
    var (first, rest) := SplitOnce([], s);
    if rest == [] then [first] else [first] + SplitList(rest)
  }

  /** Of two or more parts the last is empty. */
  predicate LosesLast(parts: seq<string>) { |parts| >= 2 && parts[|parts| - 1] == [] }

  function DropEmptyLast(parts: seq<string>): seq<string>
  {
    if LosesLast(parts) then parts[..|parts| - 1] else parts
  }

  lemma {:induction false} SplitOnceIs(acc: string, s: string)
    ensures var (first, rest) := SplitOnce(acc, s); first == acc + Split(s)[0]
    ensures var (first, rest) := SplitOnce(acc, s); |Split(s)| == 1 ==> rest == []
    ensures var (first, rest) := SplitOnce(acc, s); |Split(s)| > 1 ==> Split(s)[1..] == Split(rest)
    decreases |s|
  {
    if s != [] {
      if StartsWith(s, SPLIT_MARK) {
        assert ([[]] + Split(s[|SPLIT_MARK|..]))[1..] == Split(s[|SPLIT_MARK|..]);
      } else {
        SplitOnceIs(acc + [s[0]], s[1..]);
        var parts := Split(s[1..]);
        assert ([[s[0]] + parts[0]] + parts[1..])[1..] == parts[1..];
        assert acc + [s[0]] + parts[0] == acc + ([s[0]] + parts[0]);
      }
    }
  }

  /** A text that is a single part holds no mark, and is that part. */
  lemma {:induction false} SinglePart(s: string)
    requires |Split(s)| == 1
    ensures Split(s) == [s]
  {
    if s != [] {
      SinglePart(s[1..]);
      assert s == [s[0]] + s[1..];
    }
  }

  /** For every text the engine's parts are those between the marks, except that an
      empty last one is dropped. */
  lemma {:induction false} SplitListDrops(s: string)
    ensures SplitList(s) == DropEmptyLast(Split(s))
    decreases |s|
  {
    SplitOnceIs([], s);
    var (first, rest) := SplitOnce([], s);
    var parts := Split(s);
    assert [] + parts[0] == parts[0];
    assert parts == [first] + parts[1..];
    if rest == [] {
      if |parts| > 1 { assert parts == [first, []]; }
    } else {
      SplitListDrops(rest);
      if |parts| == 2 { SinglePart(rest); }
      DropCons(first, parts[1..]);
    }
  }

  lemma DropCons(first: string, parts: seq<string>)
    requires parts != [] && (|parts| == 1 ==> parts[0] != [])
    ensures DropEmptyLast([first] + parts) == [first] + DropEmptyLast(parts)
  {
  }

  // ---------- Which segments arrive ----------

  /** A payload's scan ends with an antiquotation. */
  predicate EndsInAnti(ps: seq<Piece>) { ps != [] && ps[|ps| - 1].Anti? }

  lemma {:induction false} LastLiteral(ps: seq<Piece>)
    ensures LosesLast(Literals(ps)) <==> EndsInAnti(ps)
    ensures Literals(ps) == [[]] ==> ps == []
    decreases |ps|
  {
    if ps != [] {
      LastLiteral(ps[1..]);
      var ls := Literals(ps[1..]);
      EndsCons(ps);
      if ps[0].Plain? {
        assert [[ps[0].c] + ls[0]][0] != [];
        LosesPlain(ps[0].c, ls);
      } else {
        LosesAnti(ls);
      }
    }
  }

  lemma EndsCons(ps: seq<Piece>)
    requires ps != []
    ensures EndsInAnti(ps) <==> if |ps| == 1 then ps[0].Anti? else EndsInAnti(ps[1..])
  {
  }

  lemma LosesPlain(c: char, ls: seq<string>)
    requires ls != []
    ensures LosesLast([[c] + ls[0]] + ls[1..]) <==> LosesLast(ls)
  {
  }

  lemma LosesAnti(ls: seq<string>)
    requires ls != []
    ensures LosesLast([[]] + ls) <==> LosesLast(ls) || ls == [[]]
  {
  }

  /** The engine finds the literal segments of every payload free of the mark, but
      for an empty last one; it finds all of them if and only if the payload does not
      end with an antiquotation. */
  lemma EngineSplits(s: string, parses: string -> bool)
    requires !Contains(s, SPLIT_MARK) && ScanFrom(s, parses).Scanned?
    ensures var ps := ScanFrom(s, parses).pieces;
      && SplitList(Output(ps)) == DropEmptyLast(Literals(ps))
      && (SplitList(Output(ps)) == Literals(ps) <==> !EndsInAnti(ps))
  {
    var ps := ScanFrom(s, parses).pieces;
    SplitGivesLiterals(s, parses);
    SplitListDrops(Output(ps));
    LastLiteral(ps);
  }

  /** The payload `$x` already loses a segment: the engine sees one, not two. */
  lemma LostSegment(parses: string -> bool)
    requires parses("x")
    ensures ScanFrom("$x", parses) == Scanned([Anti(Expr, "x", "$x")])
    ensures var ps := [Anti(Expr, "x", "$x")]; Literals(ps) == ["", ""] && SplitList(Output(ps)) == [""]
  {
    var ps := [Anti(Expr, "x", "$x")];
    ScanOne(parses);
    assert ps[1..] == [] && Literals(ps) == ["", ""] && Output(ps) == SPLIT_MARK;
    assert SPLIT_MARK[|SPLIT_MARK|..] == [];
  }

  lemma ScanOne(parses: string -> bool)
    requires parses("x")
    ensures ScanFrom("$x", parses) == Scanned([Anti(Expr, "x", "$x")])
  {
    var s := "$x";
    assert s[1..] == "x" && s[2..] == [] && "x"[0..] == "x" && "x"[1..] == [];
    assert PathLength("x") == 1 + PathLength("x"[1..]) == 1;
    assert "x"[..1] == "x" && BodyAt("x") == ("x", 1);
    assert AntiAt("x") == (Expr, "x", 1);
    assert s[..2] == s;
  }

  // ---------- Weaving the contents ----------

  /** The contents of the engine's quotation. */
  datatype Content = Verbatim(s: string) | Quasi(q: Antiquote)

  /** `f`: segments and antiquotations in turn; no result where the code reports a
      malformed call. */
  function Interleave(verbatim: seq<string>, code: seq<Antiquote>): Option<seq<Content>>
  {
    if verbatim != [] && code != [] then
      match Interleave(verbatim[1..], code[1..])
      case None => None
      case Some(rest) => Some([Verbatim(verbatim[0]), Quasi(code[0])] + rest)
    else if |verbatim| == 1 && code == [] then Some([Verbatim(verbatim[0])])
    else if verbatim == [] && code == [] then Some([])
    else None
  }

  /** `collect_let_bindings` */
  function CollectLets(c: Code): (seq<Antiquote>, string)
  {
    match c
    case Text(s) => ([], s)
    case Let(q, body) =>
      var (qs, s) := CollectLets(body);
      ([q] + qs, s)
  }

  /** What the engine makes of an emitted quotation. */
  function Engine(c: Code): Option<seq<Content>>
  {
    var (code, text) := CollectLets(c);
    Interleave(SplitList(text), code)
  }

  lemma {:induction false} CollectsLets(qs: seq<Antiquote>, s: string)
    ensures CollectLets(Lets(qs, s)) == (qs, s)
  {
    if qs != [] {
      CollectsLets(qs[1..], s);
      assert qs == [qs[0]] + qs[1..];
    }
  }

  /** The segments are as many as the antiquotations, or one more, exactly when the
      engine accepts them. */
  lemma {:induction false} AcceptsIff(verbatim: seq<string>, code: seq<Antiquote>)
    ensures Interleave(verbatim, code).Some? <==> |code| <= |verbatim| <= |code| + 1
  {
    if verbatim != [] && code != [] { AcceptsIff(verbatim[1..], code[1..]); }
  }

  /** Segments stand at even places, in order, and antiquotations at odd ones. */
  lemma {:induction false} InterleavedAt(verbatim: seq<string>, code: seq<Antiquote>, k: nat)
    requires |code| <= |verbatim| <= |code| + 1 && k < |verbatim| + |code|
    ensures Interleave(verbatim, code).Some? && |Interleave(verbatim, code).value| == |verbatim| + |code|
    ensures Interleave(verbatim, code).value[k] == if k % 2 == 0 then Verbatim(verbatim[k / 2]) else Quasi(code[k / 2])
  {
    AcceptsIff(verbatim, code);
    if verbatim != [] && code != [] {
      if k >= 2 {
        InterleavedAt(verbatim[1..], code[1..], k - 2);
      } else if |verbatim| + |code| > 2 {
        InterleavedAt(verbatim[1..], code[1..], 0);
      }
    }
  }

  /** The text of the contents, every antiquotation spelt as given. */
  function Rendered(contents: seq<Content>, spellings: seq<string>): string
  {
    if contents == [] then []
    else
      match contents[0]
      case Verbatim(s) => s + Rendered(contents[1..], spellings)
      case Quasi(q) =>
        if spellings == [] then [] else spellings[0] + Rendered(contents[1..], spellings[1..])
  }

  /** Dropping an empty last segment changes nothing in the text. */
  lemma {:induction false} RenderedIsWeave(verbatim: seq<string>, code: seq<Antiquote>, spellings: seq<string>)
    requires |verbatim| == |code| + 1 && |spellings| == |code|
    ensures Interleave(verbatim, code).Some? && Interleave(DropEmptyLast(verbatim), code).Some?
    ensures Rendered(Interleave(verbatim, code).value, spellings) == Weave(verbatim, spellings)
    ensures Rendered(Interleave(DropEmptyLast(verbatim), code).value, spellings) == Weave(verbatim, spellings)
  {
    AcceptsIff(verbatim, code);
    AcceptsIff(DropEmptyLast(verbatim), code);
    if code == [] {
      assert [Verbatim(verbatim[0])][1..] == [];
    } else {
      RenderedIsWeave(verbatim[1..], code[1..], spellings[1..]);
      RenderTwo(verbatim, code, spellings);
      RenderTwo(DropEmptyLast(verbatim), code, spellings);
      if |code| == 1 && verbatim[1] == [] {
        assert DropEmptyLast(verbatim)[1..] == [] && verbatim[1..] == [[]];
      } else {
        assert DropEmptyLast(verbatim)[1..] == DropEmptyLast(verbatim[1..]);
      }
    }
  }

  lemma RenderTwo(verbatim: seq<string>, code: seq<Antiquote>, spellings: seq<string>)
    requires code != [] && |code| <= |verbatim| <= |code| + 1 && |spellings| == |code|
    requires Interleave(verbatim, code).Some? && Interleave(verbatim[1..], code[1..]).Some?
    ensures Rendered(Interleave(verbatim, code).value, spellings)
      == verbatim[0] + spellings[0] + Rendered(Interleave(verbatim[1..], code[1..]).value, spellings[1..])
  {
    var rest := Interleave(verbatim[1..], code[1..]).value;
    var all := [Verbatim(verbatim[0]), Quasi(code[0])] + rest;
    assert all[1..] == [Quasi(code[0])] + rest && all[1..][1..] == rest;
  }

  /** The engine accepts every emitted quotation. Its contents are the literal
      segments, without an empty last one, and the antiquotations in turn; spelling
      these as they were written gives back the payload. */
  lemma EngineRebuilds(s: string, parses: string -> bool, unit: bool, future: string -> bool, code: Code)
    requires EmittedFor(s, parses, unit, future, Quoted(code))
    ensures !Contains(s, SPLIT_MARK) && ScanFrom(s, parses).Scanned?
    ensures var ps := ScanFrom(s, parses).pieces;
      && Engine(code) == Interleave(DropEmptyLast(Literals(ps)), Antiquotes(ps))
      && Engine(code).Some? && Rendered(Engine(code).value, Raws(ps)) == s
  {
    var ps := ScanFrom(s, parses).pieces;
    CollectsLets(Antiquotes(ps), Output(ps));
    EngineSplits(s, parses);
    RenderedIsWeave(Literals(ps), Antiquotes(ps), Raws(ps));
    WeaveRebuilds(s, parses);
  }

  /** The macro and the engine together. */
  method QuoteThrough(s: string, parses: string -> bool, unit: bool, future: string -> bool)
    returns (r: Emitted, contents: Option<seq<Content>>)
    ensures EmittedFor(s, parses, unit, future, r)
    ensures contents.Some? <==> r.Quoted?
    ensures contents.Some? ==> Rendered(contents.value, Raws(ScanFrom(s, parses).pieces)) == s
  {
    r := Expression(s, parses, unit, future);
    contents := None;
    if r.Quoted? {
      contents := Engine(r.code);
      EngineRebuilds(s, parses, unit, future, r.code);
    }
  }
}
