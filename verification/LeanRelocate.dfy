/** Walking the blocks of a Lean file, and moving some of them to its end. The
    regular expression that finds the identifier in a block's first line is the
    parameter `header`. */
module LeanRelocate {
  import opened Wrappers
  import opened LeanBlocks
  import opened TextLines

  type Header = Line -> Option<string>
  type Callback = (string, seq<Line>) -> Option<string>

  predicate Headed(l: Line, header: Header) { Doc(l) && header(l).Some? }

  /** What the walk makes of the lines: some it keeps, some blocks it replaces. */
  datatype Segment =
    | Keep(line: Line)
    | Block(body: seq<Line>, blanks: seq<Line>, replacement: string)

  function Segments(lines: seq<Line>, i: nat, header: Header, f: Callback): (r: Option<seq<Segment>>)
    requires i <= |lines|
    decreases |lines| - i
  {
    if i == |lines| then Some([])
    else
      match Next(lines, i, header, f)
      case None => None
      case Some((s, k)) => Then([s], Segments(lines, k, header, f))
  }

  /** The segment that begins at line `i`, and the line after it. */
  function Next(lines: seq<Line>, i: nat, header: Header, f: Callback): (r: Option<(Segment, nat)>)
    requires i < |lines|
    ensures r.Some? ==> i < r.value.1 <= |lines|
  {
    var keep := (Keep(lines[i]), i + 1);
    if !Headed(lines[i], header) then Some(keep)
    else
      var found := BlockEnd(lines, i);
      if found.None? then None
      else
        var end := found.value.0;
        Some(Replaced(lines, i, end, found.value.1, f(header(lines[i]).value, lines[i..end])))
  }

  function Replaced(lines: seq<Line>, i: nat, end: nat, j: nat, text: Option<string>): (r: (Segment, nat))
    requires i < end <= j <= |lines|
    ensures i < r.1 <= |lines|
  {
    if text.None? then (Keep(lines[i]), i + 1) else (Block(lines[i..end], lines[end..j], text.value), j)
  }

  function Then(first: seq<Segment>, rest: Option<seq<Segment>>): Option<seq<Segment>>
  {
    if rest.Some? then Some(first + rest.value) else None
  }

  function SegmentLines(s: Segment): seq<Line> { if s.Keep? then [s.line] else s.body + s.blanks }

  function SegmentOutput(s: Segment): seq<Line> { if s.Keep? then [s.line] else Split(s.replacement) + s.blanks }

  /** The lines the segments were cut from. */
  function Source(segs: seq<Segment>): seq<Line>
  {
    if segs == [] then [] else SegmentLines(segs[0]) + Source(segs[1..])
  }

  function Output(segs: seq<Segment>): seq<Line>
  {
    if segs == [] then [] else SegmentOutput(segs[0]) + Output(segs[1..])
  }

  /** The replaced blocks, in order. */
  function Bodies(segs: seq<Segment>): seq<seq<Line>>
  {
    if segs == [] then [] else (if segs[0].Block? then [segs[0].body] else []) + Bodies(segs[1..])
  }

  /** The lines outside replaced blocks, in order. */
  function Kept(segs: seq<Segment>): seq<Line>
  {
    if segs == [] then [] else (if segs[0].Keep? then [segs[0].line] else segs[0].blanks) + Kept(segs[1..])
  }

  lemma {:induction false} OutputAppend(a: seq<Segment>, b: seq<Segment>)
    ensures Output(a + b) == Output(a) + Output(b)
  {
    if a == [] {
      assert a + b == b;
    } else {
      assert (a + b)[0] == a[0] && (a + b)[1..] == a[1..] + b;
      OutputAppend(a[1..], b);
    }
  }

  lemma {:induction false} BodiesAppend(a: seq<Segment>, b: seq<Segment>)
    ensures Bodies(a + b) == Bodies(a) + Bodies(b)
  {
    if a == [] {
      assert a + b == b;
    } else {
      assert (a + b)[0] == a[0] && (a + b)[1..] == a[1..] + b;
      BodiesAppend(a[1..], b);
    }
  }

  // ---------- transform_blocks ----------

  /** What the walk returns: the new text and the blocks its callback replaced; no
      result where the code raises. */
  function Transformed(text: string, header: Header, f: Callback): Option<(string, seq<seq<Line>>)>
  {
    match Segments(Split(text), 0, header, f)
    case None => None
    case Some(segs) => Some((Join(Output(segs)), Bodies(segs)))
  }

  /** Where the walk stands: the segments it has passed, before line `i`. */
  ghost predicate Walked(lines: seq<Line>, i: nat, done: seq<Segment>, header: Header, f: Callback)
    requires i <= |lines|
  {
    Segments(lines, 0, header, f) == Then(done, Segments(lines, i, header, f))
  }

  lemma WalkOn(lines: seq<Line>, i: nat, done: seq<Segment>, s: Segment, k: nat, header: Header, f: Callback)
    requires i < k <= |lines| && Walked(lines, i, done, header, f)
    requires Segments(lines, i, header, f) == Then([s], Segments(lines, k, header, f))
    ensures Walked(lines, k, done + [s], header, f)
  {
    var rest := Segments(lines, k, header, f);
    if rest.Some? {
      assert done + ([s] + rest.value) == (done + [s]) + rest.value;
    }
  }

  lemma OutputOn(done: seq<Segment>, s: Segment)
    ensures Output(done + [s]) == Output(done) + SegmentOutput(s)
    ensures Bodies(done + [s]) == Bodies(done) + (if s.Block? then [s.body] else [])
  {
    OutputAppend(done, [s]);
    BodiesAppend(done, [s]);
    assert [s][1..] == [] && Output([s]) == SegmentOutput(s) + [];
  }

  /** One turn of the walk's loop. */
  method Turn(lines: seq<Line>, i: nat, header: Header, f: Callback) returns (r: Option<(Segment, nat)>)
    requires i < |lines|
    ensures r == Next(lines, i, header, f)
  {
    if Headed(lines[i], header) {
      var found := FindBlockEnd(lines, i);
      if found.None? { return None; }
      var (end, j) := found.value;
      var replacement := f(header(lines[i]).value, lines[i..end]);
      if replacement.Some? {
        return Some((Block(lines[i..end], lines[end..j], replacement.value), j));
      }
    }
    r := Some((Keep(lines[i]), i + 1));
  }

  method TransformBlocks(text: string, header: Header, f: Callback) returns (r: Option<(string, seq<seq<Line>>)>)
    ensures r == Transformed(text, header, f)
  {
    var lines := Split(text);
    var out: seq<Line> := [];
    var taken: seq<seq<Line>> := [];
    var i: nat := 0;
    ghost var done: seq<Segment> := [];
    assert Walked(lines, 0, done, header, f) by { ThenNothing(Segments(lines, 0, header, f)); }
    while i < |lines|
      invariant i <= |lines| && Walked(lines, i, done, header, f)
      invariant out == Output(done) && taken == Bodies(done)
    {
      var turn := Turn(lines, i, header, f);
      if turn.None? { return None; }
      var (s, k) := turn.value;
      WalkOn(lines, i, done, s, k, header, f);
      OutputOn(done, s);
      out := out + SegmentOutput(s);
      taken := taken + if s.Block? then [s.body] else [];
      done, i := done + [s], k;
    }
    assert done + [] == done;
    r := Some((Join(out), taken));
  }

  lemma ThenNothing(rest: Option<seq<Segment>>)
    ensures rest == Then([], rest)
  {
    if rest.Some? { assert [] + rest.value == rest.value; }
  }

  // ---------- The walk loses nothing ----------

  /** The segments of a walk are cut from the lines in order: replaced blocks begin
      with a header, and only blank lines are set aside after one. */
  predicate ProperSegment(s: Segment, header: Header, f: Callback)
  {
    s.Block? ==>
      && s.body != [] && Headed(s.body[0], header)
      && f(header(s.body[0]).value, s.body) == Some(s.replacement)
      && forall k | 0 <= k < |s.blanks| :: Blank(s.blanks[k])
  }

  predicate Proper(segs: seq<Segment>, header: Header, f: Callback)
  {
    forall k | 0 <= k < |segs| :: ProperSegment(segs[k], header, f)
  }

  lemma {:induction false} NothingLost(lines: seq<Line>, i: nat, segs: seq<Segment>, header: Header, f: Callback)
    requires i <= |lines| && Segments(lines, i, header, f) == Some(segs)
    ensures Source(segs) == lines[i..] && Proper(segs, header, f)
    decreases |lines| - i
  {
    if i < |lines| {
      var k, rest := NextLine(lines, i, segs, header, f);
      NothingLost(lines, k, rest, header, f);
      SourceStep(segs, rest, lines, i, k);
    }
  }

  /** A line is kept if it has no header or the callback leaves its block; a block is
      replaced, and its blank lines set aside, where the callback has a text for it. */
  predicate Fits(lines: seq<Line>, p: nat, s: Segment, header: Header, f: Callback)
  {
    && p < |lines|
    && if !Headed(lines[p], header) then s == Keep(lines[p])
       else
         var found := BlockEnd(lines, p);
         found.Some? && var (end, j) := found.value;
         match f(header(lines[p]).value, lines[p..end])
         case None => s == Keep(lines[p])
         case Some(text) => s == Block(lines[p..end], lines[end..j], text)
  }

  /** Every segment is the one its place asks for: it begins where the lines of those
      before it end. */
  lemma EachSegment(lines: seq<Line>, segs: seq<Segment>, k: nat, header: Header, f: Callback) returns (p: nat)
    requires Segments(lines, 0, header, f) == Some(segs) && k < |segs|
    ensures p <= |lines| && Source(segs[..k]) == lines[..p] && Fits(lines, p, segs[k], header, f)
  {
    p := SegmentsFrom(lines, segs, k, header, f);
    assert segs[k..] != [];
    FirstFits(lines, p, segs[k..], header, f);
  }

  lemma {:induction false} SegmentsFrom(lines: seq<Line>, segs: seq<Segment>, k: nat, header: Header, f: Callback)
    returns (p: nat)
    requires Segments(lines, 0, header, f) == Some(segs) && k <= |segs|
    ensures p <= |lines| && Source(segs[..k]) == lines[..p] && Segments(lines, p, header, f) == Some(segs[k..])
  {
    if k == 0 {
      p := 0;
      assert segs[0..] == segs;
    } else {
      var q := SegmentsFrom(lines, segs, k - 1, header, f);
      p := NextFrom(lines, q, segs[k - 1..], header, f);
      assert segs[k - 1..][1..] == segs[k..];
      SourceOneMore(segs, k - 1);
      assert lines[..p] == lines[..q] + lines[q..p];
    }
  }

  lemma NextFrom(lines: seq<Line>, q: nat, segs: seq<Segment>, header: Header, f: Callback) returns (p: nat)
    requires q <= |lines| && Segments(lines, q, header, f) == Some(segs) && segs != []
    ensures q < p <= |lines| && Segments(lines, p, header, f) == Some(segs[1..])
    ensures SegmentLines(segs[0]) == lines[q..p]
  {
    var rest;
    p, rest := NextLine(lines, q, segs, header, f);
    assert segs[1..] == rest;
  }

  lemma {:induction false} SourceOneMore(segs: seq<Segment>, k: nat)
    requires k < |segs|
    ensures Source(segs[..k + 1]) == Source(segs[..k]) + SegmentLines(segs[k])
  {
    if k > 0 {
      SourceOneMore(segs[1..], k - 1);
      assert segs[..k + 1][1..] == segs[1..][..k] && segs[..k][1..] == segs[1..][..k - 1];
    } else {
      assert segs[..1][1..] == [];
    }
  }

  lemma FirstFits(lines: seq<Line>, i: nat, segs: seq<Segment>, header: Header, f: Callback)
    requires i < |lines| && Segments(lines, i, header, f) == Some(segs)
    ensures segs != [] && Fits(lines, i, segs[0], header, f)
  {
    var next := Next(lines, i, header, f);
    assert segs[0] == next.value.0;
  }

  lemma SourceStep(segs: seq<Segment>, rest: seq<Segment>, lines: seq<Line>, i: nat, k: nat)
    requires i < k <= |lines| && segs != [] && segs == [segs[0]] + rest
    requires SegmentLines(segs[0]) == lines[i..k] && Source(rest) == lines[k..]
    ensures Source(segs) == lines[i..]
  {
    assert segs[1..] == rest;
    assert lines[i..k] + lines[k..] == lines[i..];
  }

  lemma NextLine(lines: seq<Line>, i: nat, segs: seq<Segment>, header: Header, f: Callback)
    returns (k: nat, rest: seq<Segment>)
    requires i < |lines| && Segments(lines, i, header, f) == Some(segs)
    ensures i < k <= |lines| && Segments(lines, k, header, f) == Some(rest)
    ensures segs != [] && segs == [segs[0]] + rest && SegmentLines(segs[0]) == lines[i..k]
    ensures ProperSegment(segs[0], header, f)
  {
    k := i + 1;
    if Headed(lines[i], header) {
      BlockShape(lines, i);
      var (end, j) := BlockEnd(lines, i).value;
      var text := f(header(lines[i]).value, lines[i..end]);
      if text.Some? {
        k := j;
        BlockCase(lines, i, end, j, text.value, header, f);
      }
    }
    rest := Segments(lines, k, header, f).value;
  }

  lemma BlockCase(lines: seq<Line>, i: nat, end: nat, j: nat, text: string, header: Header, f: Callback)
    requires i < end <= j <= |lines| && Headed(lines[i], header)
    requires f(header(lines[i]).value, lines[i..end]) == Some(text)
    requires forall k | end <= k < j :: Blank(lines[k])
    ensures SegmentLines(Block(lines[i..end], lines[end..j], text)) == lines[i..j]
    ensures ProperSegment(Block(lines[i..end], lines[end..j], text), header, f)
  {
    assert lines[i..end] + lines[end..j] == lines[i..j];
    assert lines[i..end][0] == lines[i];
  }

  /** Whether the documentation comments with a header are closed, from `i` on. */
  predicate Closed(lines: seq<Line>, i: nat, header: Header)
  {
    forall k | i <= k < |lines| && Headed(lines[k], header) :: Somewhere(lines, k, DocEnds)
  }

  /** The walk succeeds exactly on files whose headed comments are closed, whatever
      the callback does. */
  lemma {:induction false} WalksIffClosed(lines: seq<Line>, i: nat, header: Header, f: Callback)
    requires i <= |lines|
    ensures Segments(lines, i, header, f).Some? <==> Closed(lines, i, header)
    decreases |lines| - i
  {
    if i < |lines| {
      ClosedIffNext(lines, i, header, f);
      var next := Next(lines, i, header, f);
      if next.Some? { WalksIffClosed(lines, next.value.1, header, f); }
    }
  }

  lemma ClosedIffNext(lines: seq<Line>, i: nat, header: Header, f: Callback)
    requires i < |lines|
    ensures var next := Next(lines, i, header, f);
      Closed(lines, i, header) <==> next.Some? && Closed(lines, next.value.1, header)
  {
    if !Headed(lines[i], header) {
      ClosedNext(lines, i, header);
    } else {
      BlockShape(lines, i);
      var found := BlockEnd(lines, i);
      if found.Some? { ClosedPast(lines, i, found.value.1, header); }
    }
  }

  /** The comments a block runs over are closed with it. */
  lemma ClosedPast(lines: seq<Line>, i: nat, j: nat, header: Header)
    requires i < |lines| && Doc(lines[i]) && BlockEnd(lines, i).Some? && BlockEnd(lines, i).value.1 == j
    ensures Closed(lines, i, header) <==> Closed(lines, j, header)
    ensures Closed(lines, i, header) <==> Closed(lines, i + 1, header)
  {
    forall k | i <= k < j && Headed(lines[k], header) ensures Somewhere(lines, k, DocEnds) {
      NoNestedDoc(lines, i, k);
    }
  }

  lemma ClosedNext(lines: seq<Line>, i: nat, header: Header)
    requires i < |lines| && !Headed(lines[i], header)
    ensures Closed(lines, i, header) <==> Closed(lines, i + 1, header)
  {
  }

  /** A file of one headed comment that is never closed: the walk raises. */
  lemma UnclosedExample(header: Header, f: Callback)
    requires header("/-- [f]").Some?
    ensures Transformed("/-- [f]", header, f) == None
  {
    var l := "/-- [f]";
    SplitOneLine(l);
    NotAnEnd(l);
    assert Headed([l][0], header) && !Somewhere([l], 0, DocEnds);
    WalksIffClosed([l], 0, header, f);
  }

  lemma NotAnEnd(l: Line)
    requires l != "" && l[|l| - 1] == ']'
    ensures !DocEnds(l)
  {
    assert RStrip(l) == l;
  }

  /** A callback that replaces nothing leaves the text as it was; the only other
      outcome is the exception, exactly when a headed comment is never closed. */
  lemma NoChange(text: string, header: Header, f: Callback)
    requires forall name, block :: f(name, block) == None
    ensures Transformed(text, header, f) == if Closed(Split(text), 0, header) then Some((text, [])) else None
  {
    var lines := Split(text);
    WalksIffClosed(lines, 0, header, f);
    if Closed(lines, 0, header) {
      var segs := Segments(lines, 0, header, f).value;
      NoChangeLines(lines, segs, header, f);
      JoinSplit(text);
    }
  }

  lemma NoChangeLines(lines: seq<Line>, segs: seq<Segment>, header: Header, f: Callback)
    requires Segments(lines, 0, header, f) == Some(segs)
    requires forall name, block :: f(name, block) == None
    ensures Output(segs) == lines && Bodies(segs) == []
  {
    NothingLost(lines, 0, segs, header, f);
    forall k | 0 <= k < |segs| ensures segs[k].Keep? {
      assert ProperSegment(segs[k], header, f);
    }
    AllKept(segs);
    assert lines[0..] == lines;
  }

  lemma {:induction false} AllKept(segs: seq<Segment>)
    requires forall k | 0 <= k < |segs| :: segs[k].Keep?
    ensures Output(segs) == Source(segs) && Bodies(segs) == []
  {
    if segs != [] { AllKept(segs[1..]); }
  }

  // ---------- relocate_blocks_to_end ----------

  /** The callback of the relocation: a chosen block gives way to an empty line. */
  function Vacate(chosen: string -> bool): Callback
  {
    (name: string, block: seq<Line>) => if chosen(name) then Some("") else None
  }

  /** The blocks with a blank line between each two. */
  function Spread(blocks: seq<seq<Line>>): seq<Line>
  {
    if blocks == [] then [] else if |blocks| == 1 then blocks[0] else blocks[0] + [""] + Spread(blocks[1..])
  }

  /** Joins the blocks with an empty line between each two. */
  method JoinBlocks(blocks: seq<seq<Line>>) returns (text: string)
    requires |blocks| >= 1 && forall k | 0 <= k < |blocks| :: blocks[k] != []
    ensures text == Join(Spread(blocks))
  {
    text := Join(blocks[|blocks| - 1]);
    var k: nat := |blocks| - 1;
    while k > 0
      invariant k < |blocks| && text == Join(Spread(blocks[k..])) && Spread(blocks[k..]) != []
    {
      k := k - 1;
      SpreadMore(blocks[k], blocks[k + 1..]);
      assert blocks[k..] == [blocks[k]] + blocks[k + 1..];
      text := Join(blocks[k]) + "\n\n" + text;
    }
  }

  lemma SpreadMore(block: seq<Line>, rest: seq<seq<Line>>)
    requires block != [] && rest != [] && Spread(rest) != []
    ensures Spread([block] + rest) == block + [""] + Spread(rest)
    ensures Join(Spread([block] + rest)) == Join(block) + "\n\n" + Join(Spread(rest))
  {
    assert ([block] + rest)[1..] == rest;
    JoinAppend([""], Spread(rest));
    JoinAppend(block, [""] + Spread(rest));
    assert block + [""] + Spread(rest) == block + ([""] + Spread(rest));
    assert Join(block) + "\n" + ("" + "\n" + Join(Spread(rest))) == Join(block) + "\n\n" + Join(Spread(rest));
  }

  /** What relocation makes of a text: `m` is the marked line before which the
      blocks go, if there is one. */
  ghost predicate RelocatesTo(text: string, header: Header, chosen: string -> bool, marker: Line, r: string)
  {
    match Transformed(text, header, Vacate(chosen))
    case None => false
    case Some((body, blocks)) =>
      if blocks == [] then r == body
      else PlacedIn(body, marker, Join(Spread(blocks)), r)
  }

  ghost predicate PlacedIn(body: string, marker: Line, blocks: string, r: string)
  {
    exists at :: IsLast(body, "\n" + marker, at) && r == Placed(body, at, blocks)
  }

  function Placed(body: string, at: Option<nat>, blocks: string): string
  {
    if at.Some? && at.value <= |body| then body[..at.value] + "\n\n" + blocks + "\n" + body[at.value..]
    else RStrip(body) + "\n\n" + blocks + "\n"
  }

  method RelocateBlocksToEnd(text: string, header: Header, chosen: string -> bool, marker: Line)
    returns (r: Option<string>)
    ensures r.None? <==> !Closed(Split(text), 0, header)
    ensures r.Some? ==> RelocatesTo(text, header, chosen, marker, r.value)
  {
    WalksIffClosed(Split(text), 0, header, Vacate(chosen));
    var walked := TransformBlocks(text, header, Vacate(chosen));
    if walked.None? { return None; }
    var (body, captured) := walked.value;
    if captured == [] { return Some(body); }
    BlocksNotEmpty(text, header, Vacate(chosen));
    var at := RFind(body, "\n" + marker);
    var blocks := JoinBlocks(captured);
    if at.None? {
      r := Some(RStrip(body) + "\n\n" + blocks + "\n");
    } else {
      r := Some(body[..at.value] + "\n\n" + blocks + "\n" + body[at.value..]);
    }
    assert r.value == Placed(body, at, Join(Spread(captured)));
  }

  lemma BlocksNotEmpty(text: string, header: Header, f: Callback)
    requires Transformed(text, header, f).Some?
    ensures forall k | 0 <= k < |Transformed(text, header, f).value.1| :: Transformed(text, header, f).value.1[k] != []
  {
    var segs := Segments(Split(text), 0, header, f).value;
    NothingLost(Split(text), 0, segs, header, f);
    BodiesNotEmpty(segs, header, f);
  }

  lemma {:induction false} BodiesNotEmpty(segs: seq<Segment>, header: Header, f: Callback)
    requires Proper(segs, header, f)
    ensures forall k | 0 <= k < |Bodies(segs)| :: Bodies(segs)[k] != []
  {
    if segs != [] {
      assert ProperSegment(segs[0], header, f);
      assert Proper(segs[1..], header, f);
      BodiesNotEmpty(segs[1..], header, f);
    }
  }

  // ---------- comment_out_blocks ----------

  /** Wraps a chosen block between a line `/-` and a closing line. */
  function Wrapped(block: seq<Line>, closing: Line): seq<Line> { ["/-"] + block + [closing] }

  function Comment(chosen: string -> bool, closing: Line): Callback
  {
    (name: string, block: seq<Line>) => if chosen(name) then Some("/-\n" + Join(block) + "\n" + closing) else None
  }

  lemma CommentText(block: seq<Line>, closing: Line)
    requires block != [] && OneLines(block) && OneLine(closing)
    ensures Split("/-\n" + Join(block) + "\n" + closing) == Wrapped(block, closing)
  {
    JoinAppend(["/-"], block);
    JoinAppend(["/-"] + block, [closing]);
    assert "/-" + "\n" + Join(block) + "\n" + closing == "/-\n" + Join(block) + "\n" + closing;
    OneLinesAppend(["/-"], block);
    OneLinesAppend(["/-"] + block, [closing]);
    SplitJoin(Wrapped(block, closing));
  }

  /** The output with every chosen block wrapped. */
  function CommentedOut(segs: seq<Segment>, closing: Line): seq<Line>
  {
    if segs == [] then []
    else
      var s := segs[0];
      (if s.Keep? then [s.line] else Wrapped(s.body, closing) + s.blanks) + CommentedOut(segs[1..], closing)
  }

  lemma {:induction false} OutputIsCommentedOut(segs: seq<Segment>, header: Header, chosen: string -> bool,
                                                closing: Line)
    requires Proper(segs, header, Comment(chosen, closing)) && OneLines(Source(segs)) && OneLine(closing)
    ensures Output(segs) == CommentedOut(segs, closing)
  {
    if segs != [] {
      var s := segs[0];
      OneLinesAppend(SegmentLines(s), Source(segs[1..]));
      assert Proper(segs[1..], header, Comment(chosen, closing));
      OutputIsCommentedOut(segs[1..], header, chosen, closing);
      if s.Block? {
        assert ProperSegment(s, header, Comment(chosen, closing));
        OneLinesAppend(s.body, s.blanks);
        CommentText(s.body, closing);
      }
    }
  }

  /** Commenting blocks out changes nothing but to put a line before and a line
      after each chosen block: the output without these is the text. */
  lemma CommentsOut(text: string, header: Header, chosen: string -> bool, closing: Line) returns (segs: seq<Segment>)
    requires OneLine(closing) && Closed(Split(text), 0, header)
    ensures Source(segs) == Split(text) && Proper(segs, header, Comment(chosen, closing))
    ensures Transformed(text, header, Comment(chosen, closing))
      == Some((Join(CommentedOut(segs, closing)), Bodies(segs)))
  {
    WalksIffClosed(Split(text), 0, header, Comment(chosen, closing));
    segs := Segments(Split(text), 0, header, Comment(chosen, closing)).value;
    NothingLost(Split(text), 0, segs, header, Comment(chosen, closing));
    assert Split(text)[0..] == Split(text);
    OutputIsCommentedOut(segs, header, chosen, closing);
  }

  // ---------- Relocation permutes the lines that are not blank ----------

  function NonBlank(ls: seq<Line>): seq<Line>
  {
    if ls == [] then [] else (if Blank(ls[0]) then [] else [ls[0]]) + NonBlank(ls[1..])
  }

  lemma {:induction false} NonBlankAppend(a: seq<Line>, b: seq<Line>)
    ensures NonBlank(a + b) == NonBlank(a) + NonBlank(b)
  {
    if a == [] {
      assert a + b == b;
    } else {
      assert (a + b)[0] == a[0] && (a + b)[1..] == a[1..] + b;
      NonBlankAppend(a[1..], b);
    }
  }

  lemma {:induction false} NonBlankNone(ls: seq<Line>)
    requires forall k | 0 <= k < |ls| :: Blank(ls[k])
    ensures NonBlank(ls) == []
  {
    if ls != [] { NonBlankNone(ls[1..]); }
  }

  function Flat(blocks: seq<seq<Line>>): seq<Line>
  {
    if blocks == [] then [] else blocks[0] + Flat(blocks[1..])
  }

  lemma {:induction false} SpreadNonBlank(blocks: seq<seq<Line>>)
    ensures NonBlank(Spread(blocks)) == NonBlank(Flat(blocks))
  {
    if |blocks| == 1 {
      assert Flat(blocks[1..]) == [];
      assert Flat(blocks) == blocks[0];
    } else if |blocks| > 1 {
      SpreadNonBlank(blocks[1..]);
      NonBlankAppend(blocks[0], [""] + Spread(blocks[1..]));
      NonBlankAppend([""], Spread(blocks[1..]));
      NonBlankNone([""]);
      NonBlankAppend(blocks[0], Flat(blocks[1..]));
      assert blocks[0] + [""] + Spread(blocks[1..]) == blocks[0] + ([""] + Spread(blocks[1..]));
    }
  }

  predicate Vacated(segs: seq<Segment>)
  {
    segs == [] || (VacatedBlock(segs[0]) && Vacated(segs[1..]))
  }

  predicate VacatedBlock(s: Segment) { s.Block? ==> s.replacement == "" && NonBlank(s.blanks) == [] }

  lemma {:induction false} ProperVacates(segs: seq<Segment>, header: Header, chosen: string -> bool)
    requires Proper(segs, header, Vacate(chosen))
    ensures Vacated(segs)
  {
    if segs != [] {
      assert ProperSegment(segs[0], header, Vacate(chosen));
      if segs[0].Block? { NonBlankNone(segs[0].blanks); }
      assert Proper(segs[1..], header, Vacate(chosen));
      ProperVacates(segs[1..], header, chosen);
    }
  }

  /** The walk's output holds the kept lines in order. */
  lemma {:induction false} OutputIsKept(segs: seq<Segment>)
    requires Vacated(segs)
    ensures NonBlank(Output(segs)) == NonBlank(Kept(segs))
  {
    if segs != [] {
      var s, rest := segs[0], segs[1..];
      OutputIsKept(rest);
      NonBlankAppend(SegmentOutput(s), Output(rest));
      NonBlankAppend(if s.Keep? then [s.line] else s.blanks, Kept(rest));
      if s.Block? {
        NonBlankAppend([""], s.blanks);
        NonBlankNone([""]);
      }
    }
  }

  /** How often a line occurs. */
  function Count(ls: seq<Line>, l: Line): nat
  {
    if ls == [] then 0 else (if ls[0] == l then 1 else 0) + Count(ls[1..], l)
  }

  lemma {:induction false} CountAppend(a: seq<Line>, b: seq<Line>, l: Line)
    ensures Count(a + b, l) == Count(a, l) + Count(b, l)
  {
    if a == [] {
      assert a + b == b;
    } else {
      assert (a + b)[1..] == a[1..] + b;
      CountAppend(a[1..], b, l);
    }
  }

  lemma {:induction false} CountIsMultiplicity(ls: seq<Line>, l: Line)
    ensures multiset(ls)[l] == Count(ls, l)
  {
    if ls != [] {
      CountIsMultiplicity(ls[1..], l);
      assert ls == [ls[0]] + ls[1..];
    }
  }

  lemma SameCounts(a: seq<Line>, b: seq<Line>)
    requires forall l :: Count(a, l) == Count(b, l)
    ensures multiset(a) == multiset(b)
  {
    forall l ensures multiset(a)[l] == multiset(b)[l] {
      CountIsMultiplicity(a, l);
      CountIsMultiplicity(b, l);
    }
  }

  /** What is neither kept nor blank is in the replaced blocks, each line as often. */
  lemma {:induction false} Partition(segs: seq<Segment>, l: Line)
    requires Vacated(segs)
    ensures Count(NonBlank(Source(segs)), l) == Count(NonBlank(Kept(segs)), l) + Count(NonBlank(Flat(Bodies(segs))), l)
  {
    if segs != [] {
      Partition(segs[1..], l);
      PartitionStep(segs[0], segs[1..], l);
      assert segs == [segs[0]] + segs[1..];
    }
  }

  lemma PartitionStep(s: Segment, rest: seq<Segment>, l: Line)
    requires s.Block? ==> NonBlank(s.blanks) == []
    requires Count(NonBlank(Source(rest)), l) == Count(NonBlank(Kept(rest)), l) + Count(NonBlank(Flat(Bodies(rest))), l)
    ensures Count(NonBlank(Source([s] + rest)), l)
      == Count(NonBlank(Kept([s] + rest)), l) + Count(NonBlank(Flat(Bodies([s] + rest))), l)
  {
    SourceStepNonBlank(s, rest);
    KeptStepNonBlank(s, rest);
    CountAppend(if s.Keep? then NonBlank([s.line]) else NonBlank(s.body), NonBlank(Source(rest)), l);
    CountAppend(if s.Keep? then NonBlank([s.line]) else [], NonBlank(Kept(rest)), l);
    CountAppend(if s.Keep? then [] else NonBlank(s.body), NonBlank(Flat(Bodies(rest))), l);
  }

  lemma SourceStepNonBlank(s: Segment, rest: seq<Segment>)
    requires s.Block? ==> NonBlank(s.blanks) == []
    ensures NonBlank(Source([s] + rest))
      == (if s.Keep? then NonBlank([s.line]) else NonBlank(s.body)) + NonBlank(Source(rest))
  {
    assert ([s] + rest)[1..] == rest;
    NonBlankAppend(SegmentLines(s), Source(rest));
    if s.Block? { NonBlankAppend(s.body, s.blanks); }
  }

  lemma KeptStepNonBlank(s: Segment, rest: seq<Segment>)
    requires s.Block? ==> NonBlank(s.blanks) == []
    ensures NonBlank(Kept([s] + rest)) == (if s.Keep? then NonBlank([s.line]) else []) + NonBlank(Kept(rest))
    ensures NonBlank(Flat(Bodies([s] + rest)))
      == (if s.Keep? then [] else NonBlank(s.body)) + NonBlank(Flat(Bodies(rest)))
  {
    assert ([s] + rest)[1..] == rest;
    NonBlankAppend(if s.Keep? then [s.line] else s.blanks, Kept(rest));
    if s.Block? {
      FlatNonBlank(s.body, Bodies(rest));
    } else {
      assert [] + Bodies(rest) == Bodies(rest);
    }
  }

  lemma FlatNonBlank(block: seq<Line>, rest: seq<seq<Line>>)
    ensures NonBlank(Flat([block] + rest)) == NonBlank(block) + NonBlank(Flat(rest))
  {
    assert ([block] + rest)[1..] == rest;
    NonBlankAppend(block, Flat(rest));
  }

  lemma {:induction false} OneLinesOut(segs: seq<Segment>)
    requires OneLines(Source(segs))
    ensures OneLines(Output(segs)) && OneLines(Spread(Bodies(segs)))
    ensures segs != [] ==> Output(segs) != []
  {
    if segs != [] {
      var s, rest := segs[0], segs[1..];
      OneLinesAppend(SegmentLines(s), Source(rest));
      OneLinesOut(rest);
      OneLinesAppend(SegmentOutput(s), Output(rest));
      if s.Block? {
        OneLinesAppend(s.body, s.blanks);
        OneLinesAppend(Split(s.replacement), s.blanks);
        OneLinesSpread(s.body, Bodies(rest));
      } else {
        assert [] + Bodies(rest) == Bodies(rest);
      }
    }
  }

  lemma OneLinesAppend(a: seq<Line>, b: seq<Line>)
    ensures OneLines(a + b) <==> OneLines(a) && OneLines(b)
  {
    var all := a + b;
    if OneLines(all) {
      forall k | 0 <= k < |a| ensures OneLine(a[k]) { assert a[k] == all[k]; }
      forall k | 0 <= k < |b| ensures OneLine(b[k]) { assert b[k] == all[|a| + k]; }
    }
  }

  lemma OneLinesSpread(block: seq<Line>, rest: seq<seq<Line>>)
    requires OneLines(block) && OneLines(Spread(rest))
    ensures OneLines(Spread([block] + rest))
  {
    assert ([block] + rest)[1..] == rest;
    OneLinesAppend(block, [""]);
    OneLinesAppend(block + [""], Spread(rest));
  }

  /** The walk's segments, and the lines of what it returns. */
  lemma WalkOutput(text: string, header: Header, chosen: string -> bool) returns (segs: seq<Segment>)
    requires Transformed(text, header, Vacate(chosen)).Some?
    ensures Segments(Split(text), 0, header, Vacate(chosen)) == Some(segs)
    ensures Source(segs) == Split(text) && Vacated(segs) && Proper(segs, header, Vacate(chosen))
    ensures Split(Transformed(text, header, Vacate(chosen)).value.0) == Output(segs)
    ensures OneLines(Spread(Bodies(segs))) && (Bodies(segs) != [] ==> Spread(Bodies(segs)) != [])
    ensures Transformed(text, header, Vacate(chosen)) == Some((Join(Output(segs)), Bodies(segs)))
  {
    segs := Segments(Split(text), 0, header, Vacate(chosen)).value;
    NothingLost(Split(text), 0, segs, header, Vacate(chosen));
    assert Split(text)[0..] == Split(text);
    ProperVacates(segs, header, chosen);
    OneLinesOut(segs);
    SplitJoin(Output(segs));
    BodiesNotEmpty(segs, header, Vacate(chosen));
    if Bodies(segs) != [] { SpreadNotEmpty(Bodies(segs)); }
  }

  /** The lines after relocation: the blocks go right before line `m`. */
  function Moved(kept: seq<Line>, m: nat, blocks: seq<Line>): seq<Line>
    requires m <= |kept|
  {
    kept[..m] + ([""] + (blocks + ([""] + kept[m..])))
  }

  lemma PlacedLines(kept: seq<Line>, m: nat, blocks: seq<Line>)
    requires Lines(kept) && Lines(blocks) && 1 <= m < |kept|
    ensures Split(Placed(Join(kept), Some(|Join(kept[..m])|), Join(blocks))) == Moved(kept, m, blocks)
  {
    var after := blocks + ([""] + kept[m..]);
    CutAt(kept, m);
    JoinAppend([""], kept[m..]);
    JoinAppend(blocks, [""] + kept[m..]);
    JoinAppend([""], after);
    JoinAppend(kept[..m], [""] + after);
    OneLinesMoved(kept, m, blocks);
    SplitJoin(Moved(kept, m, blocks));
    PlacedText(Join(kept[..m]), Join(kept[m..]), Join(blocks));
  }

  lemma PlacedText(front: string, back: string, blocks: string)
    ensures Placed(front + "\n" + back, Some(|front|), blocks)
      == front + "\n" + ("" + "\n" + (blocks + "\n" + ("" + "\n" + back)))
  {
    var body := front + "\n" + back;
    assert body[..|front|] == front && body[|front|..] == "\n" + back;
    assert front + "\n\n" + blocks + "\n" + ("\n" + back)
        == front + "\n" + ("" + "\n" + (blocks + "\n" + ("" + "\n" + back)));
  }

  lemma OneLinesMoved(kept: seq<Line>, m: nat, blocks: seq<Line>)
    requires m <= |kept| && OneLines(kept) && OneLines(blocks)
    ensures OneLines(Moved(kept, m, blocks))
  {
    assert kept == kept[..m] + kept[m..];
    OneLinesAppend(kept[..m], kept[m..]);
    OneLinesAppend([""], kept[m..]);
    OneLinesAppend(blocks, [""] + kept[m..]);
    OneLinesAppend([""], blocks + ([""] + kept[m..]));
    OneLinesAppend(kept[..m], [""] + (blocks + ([""] + kept[m..])));
  }

  lemma MovedNonBlank(kept: seq<Line>, m: nat, blocks: seq<Line>)
    requires m <= |kept|
    ensures NonBlank(Moved(kept, m, blocks)) == NonBlank(kept[..m]) + (NonBlank(blocks) + NonBlank(kept[m..]))
    ensures NonBlank(kept) == NonBlank(kept[..m]) + NonBlank(kept[m..])
  {
    assert kept == kept[..m] + kept[m..];
    NonBlankNone([""]);
    NonBlankAppend(kept[..m], kept[m..]);
    NonBlankAppend([""], kept[m..]);
    NonBlankAppend(blocks, [""] + kept[m..]);
    NonBlankAppend([""], blocks + ([""] + kept[m..]));
    NonBlankAppend(kept[..m], [""] + (blocks + ([""] + kept[m..])));
  }

  /** When some line after the first carries the end marker, relocation permutes the
      lines that are not blank: the kept ones stay in order, split before the last
      marked line, and the chosen blocks stand there in their own order. */
  lemma Relocated(text: string, header: Header, chosen: string -> bool, marker: Line, r: string)
    returns (segs: seq<Segment>, m: nat)
    requires OneLine(marker) && RelocatesTo(text, header, chosen, marker, r)
    requires Transformed(text, header, Vacate(chosen)).value.1 != []
    requires var body := Split(Transformed(text, header, Vacate(chosen)).value.0);
      exists k :: LastMarked(body, marker, k)
    ensures Segments(Split(text), 0, header, Vacate(chosen)) == Some(segs) && Source(segs) == Split(text)
    ensures LastMarked(Output(segs), marker, m)
    ensures Split(r) == Moved(Output(segs), m, Spread(Bodies(segs)))
    ensures NonBlank(Output(segs)[..m]) + NonBlank(Output(segs)[m..]) == NonBlank(Kept(segs))
    ensures NonBlank(Split(r))
      == NonBlank(Output(segs)[..m]) + (NonBlank(Flat(Bodies(segs))) + NonBlank(Output(segs)[m..]))
    ensures multiset(NonBlank(Split(r))) == multiset(NonBlank(Split(text)))
  {
    segs := WalkOutput(text, header, chosen);
    m := PlacedAt(segs, marker, r);
    MovedNonBlank(Output(segs), m, Spread(Bodies(segs)));
    SpreadNonBlank(Bodies(segs));
    OutputIsKept(segs);
    SameLines(segs, Output(segs), m);
  }

  lemma SameLines(segs: seq<Segment>, kept: seq<Line>, m: nat)
    requires m <= |kept| && Vacated(segs)
    requires NonBlank(kept[..m]) + NonBlank(kept[m..]) == NonBlank(Kept(segs))
    ensures multiset(NonBlank(kept[..m]) + (NonBlank(Flat(Bodies(segs))) + NonBlank(kept[m..])))
      == multiset(NonBlank(Source(segs)))
  {
    var front, back, moved := NonBlank(kept[..m]), NonBlank(kept[m..]), NonBlank(Flat(Bodies(segs)));
    forall l ensures Count(front + (moved + back), l) == Count(NonBlank(Source(segs)), l) {
      Partition(segs, l);
      CountAppend(front, moved + back, l);
      CountAppend(moved, back, l);
      CountAppend(front, back, l);
    }
    SameCounts(front + (moved + back), NonBlank(Source(segs)));
  }

  lemma PlacedAt(segs: seq<Segment>, marker: Line, r: string) returns (m: nat)
    requires Lines(Output(segs)) && OneLine(marker) && OneLines(Spread(Bodies(segs))) && Spread(Bodies(segs)) != []
    requires exists k :: LastMarked(Output(segs), marker, k)
    requires PlacedIn(Join(Output(segs)), marker, Join(Spread(Bodies(segs))), r)
    ensures LastMarked(Output(segs), marker, m) && Split(r) == Moved(Output(segs), m, Spread(Bodies(segs)))
  {
    var kept, blocks := Output(segs), Spread(Bodies(segs));
    var at :| IsLast(Join(kept), "\n" + marker, at) && r == Placed(Join(kept), at, Join(blocks));
    RFindLine(kept, marker, at);
    m :| 1 <= m <= |kept| && LastMarked(kept, marker, m) && at.value == |Join(kept[..m])|;
    PlacedLines(kept, m, blocks);
  }

  lemma SpreadNotEmpty(blocks: seq<seq<Line>>)
    requires blocks != [] && blocks[0] != []
    ensures Spread(blocks) != []
  {
    assert |blocks| > 1 ==> |Spread(blocks)| >= |blocks[0]|;
  }

  // ---------- Relocation without an end marker ----------

  /** Cutting trailing white space off a text of two parts. */
  lemma {:induction false} StripParts(a: string, l: string)
    ensures RStrip(a + l) == if Blank(l) then RStrip(a) else a + RStrip(l)
    decreases |l|
  {
    if l == [] {
      assert a + l == a;
    } else {
      var front := l[..|l| - 1];
      assert l == front + [l[|l| - 1]];
      if Space(l[|l| - 1]) {
        StripParts(a, front);
        assert (a + l)[..|a + l| - 1] == a + front;
        assert Blank(l) <==> Blank(front);
      }
    }
  }

  /** The lines that stay when trailing white space is cut off a text: blank lines at
      the end go, and the last line left is stripped. */
  function StripEnd(ls: seq<Line>): (r: seq<Line>)
    requires ls != []
    ensures r != []
  {
    var n := |ls| - 1;
    if n > 0 && Blank(ls[n]) then StripEnd(ls[..n]) else ls[..n] + [RStrip(ls[n])]
  }

  lemma StripOneLine(l: Line)
    requires OneLine(l)
    ensures OneLine(RStrip(l))
  {
  }

  lemma {:induction false} StripLines(ls: seq<Line>)
    requires Lines(ls)
    ensures Split(RStrip(Join(ls))) == StripEnd(ls) && Lines(StripEnd(ls))
  {
    var n := |ls| - 1;
    var front, last := ls[..n], ls[n];
    StripOneLine(last);
    if n == 0 {
      assert ls == [last];
      SplitJoin([RStrip(last)]);
    } else {
      CutAt(ls, n);
      assert ls[n..] == [last];
      StripLastLine(Join(front), last);
      if Blank(last) {
        StripLines(front);
      } else {
        JoinAppend(front, [RStrip(last)]);
        OneLinesAppend(front, [RStrip(last)]);
        SplitJoin(front + [RStrip(last)]);
      }
    }
  }

  lemma StripLastLine(front: string, last: Line)
    ensures RStrip(front + "\n" + last) == if Blank(last) then RStrip(front) else front + "\n" + RStrip(last)
  {
    StripParts(front + "\n", last);
    if Blank(last) { StripBreak(front); }
  }

  lemma StripBreak(front: string)
    ensures RStrip(front + "\n") == RStrip(front)
  {
    assert (front + "\n")[..|front|] == front;
  }

  /** The same for the lines that are not blank. */
  function StripLast(ls: seq<Line>): seq<Line>
  {
    if ls == [] then [] else ls[..|ls| - 1] + [RStrip(ls[|ls| - 1])]
  }

  lemma StripBlank(l: Line)
    ensures Blank(RStrip(l)) <==> Blank(l)
  {
    assert l == RStrip(l) + l[|RStrip(l)|..];
  }

  lemma {:induction false} StripEndNonBlank(ls: seq<Line>)
    requires ls != []
    ensures NonBlank(StripEnd(ls)) == StripLast(NonBlank(ls))
  {
    var n := |ls| - 1;
    var front, last := ls[..n], ls[n];
    assert ls == front + [last];
    NonBlankAppend(front, [last]);
    if Blank(last) {
      NonBlankNone([last]);
      if n > 0 {
        StripEndNonBlank(front);
      } else {
        StripBlank(last);
        NonBlankNone([RStrip(last)]);
        assert StripEnd(ls) == [RStrip(last)];
      }
    } else {
      StripBlank(last);
      NonBlankAppend(front, [RStrip(last)]);
      OneNonBlank(last);
      OneNonBlank(RStrip(last));
    }
  }

  lemma OneNonBlank(l: Line)
    requires !Blank(l)
    ensures NonBlank([l]) == [l]
  {
    assert [l][1..] == [];
  }

  lemma AppendedLines(kept: seq<Line>, blocks: seq<Line>)
    requires Lines(kept) && Lines(blocks)
    ensures Split(Placed(Join(kept), None, Join(blocks))) == StripEnd(kept) + ([""] + (blocks + [""]))
  {
    var left := StripEnd(kept);
    StripLines(kept);
    JoinSplit(RStrip(Join(kept)));
    JoinAppend(blocks, [""]);
    JoinAppend([""], blocks + [""]);
    JoinAppend(left, [""] + (blocks + [""]));
    AppendedText(Join(left), Join(blocks));
    OneLinesAppend(blocks, [""]);
    OneLinesAppend([""], blocks + [""]);
    OneLinesAppend(left, [""] + (blocks + [""]));
    SplitJoin(left + ([""] + (blocks + [""])));
  }

  lemma AppendedText(front: string, blocks: string)
    ensures front + "\n\n" + blocks + "\n" == front + "\n" + ("" + "\n" + (blocks + "\n" + ""))
  {
    assert front + "\n\n" == front + "\n" + "\n";
  }

  lemma AppendedNonBlank(kept: seq<Line>, blocks: seq<Line>)
    requires kept != []
    ensures NonBlank(StripEnd(kept) + ([""] + (blocks + [""]))) == StripLast(NonBlank(kept)) + NonBlank(blocks)
  {
    StripEndNonBlank(kept);
    NonBlankAppend(StripEnd(kept), [""] + (blocks + [""]));
    BetweenBlanks(blocks);
  }

  lemma BetweenBlanks(blocks: seq<Line>)
    ensures NonBlank([""] + (blocks + [""])) == NonBlank(blocks)
  {
    NonBlankNone([""]);
    NonBlankAppend([""], blocks + [""]);
    NonBlankAppend(blocks, [""]);
    assert [] + NonBlank(blocks) == NonBlank(blocks) + [] == NonBlank(blocks);
  }

  /** When no line after the first carries the end marker, relocation keeps the
      other lines that are not blank in order, the last without its trailing white
      space, and the chosen blocks follow in their own order. */
  lemma RelocatedToEnd(text: string, header: Header, chosen: string -> bool, marker: Line, r: string)
    returns (segs: seq<Segment>)
    requires OneLine(marker) && RelocatesTo(text, header, chosen, marker, r)
    requires Transformed(text, header, Vacate(chosen)).value.1 != []
    requires var body := Split(Transformed(text, header, Vacate(chosen)).value.0);
      forall k | 1 <= k < |body| :: !(marker <= body[k])
    ensures Segments(Split(text), 0, header, Vacate(chosen)) == Some(segs) && Source(segs) == Split(text)
    ensures Split(r) == StripEnd(Output(segs)) + ([""] + (Spread(Bodies(segs)) + [""]))
    ensures NonBlank(Split(r)) == StripLast(NonBlank(Kept(segs))) + NonBlank(Flat(Bodies(segs)))
  {
    segs := WalkOutput(text, header, chosen);
    AppendedAt(segs, marker, r);
    AppendedNonBlank(Output(segs), Spread(Bodies(segs)));
    SpreadNonBlank(Bodies(segs));
    OutputIsKept(segs);
  }

  lemma AppendedAt(segs: seq<Segment>, marker: Line, r: string)
    requires Lines(Output(segs)) && OneLine(marker) && Lines(Spread(Bodies(segs)))
    requires forall k | 1 <= k < |Output(segs)| :: !(marker <= Output(segs)[k])
    requires PlacedIn(Join(Output(segs)), marker, Join(Spread(Bodies(segs))), r)
    ensures Split(r) == StripEnd(Output(segs)) + ([""] + (Spread(Bodies(segs)) + [""]))
  {
    var kept, blocks := Output(segs), Spread(Bodies(segs));
    var at :| IsLast(Join(kept), "\n" + marker, at) && r == Placed(Join(kept), at, Join(blocks));
    RFindLine(kept, marker, at);
    AppendedLines(kept, blocks);
  }
}
