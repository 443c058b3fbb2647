/** Antiquotations of the quotation macros: `$`, an optional prefix, and a path
    or a braced group, each replaced by a reserved mark. */
module Quote {

  const SPLIT_MARK: string := "SPLIT_QUOTE"

  datatype Kind = Expr | Constructor | Pat | Ty

  /** A character kept as it is, or an antiquotation: its payload, and the exact
      text it stood for. */
  datatype Piece = Plain(c: char) | Anti(kind: Kind, payload: string, raw: string)

  datatype Scan = Scanned(pieces: seq<Piece>) | Empty(rest: string) | Panicked(payload: string)

  predicate IsPrefix(c: char) { c == '?' || c == '$' || c == ':' }

  function KindOf(c: char): Kind
  {
    if c == '?' then Pat else if c == '$' then Constructor else if c == ':' then Ty else Expr
  }

  /** A path ends before one of these. */
  predicate Terminator(c: char)
  {
    c == ' ' || c == '\t' || c == '\n' || c == '(' || c == '{' || c == ')' || c == ';' || c == '!' || c == '?'
  }

  /** How far a path goes. */
  function PathLength(s: string): (n: nat)
    ensures n <= |s|
  {
    if s == [] || Terminator(s[0]) then 0 else 1 + PathLength(s[1..])
  }

  function Level(c: char): int { if c == '{' then 1 else if c == '}' then -1 else 0 }

  /** How far a group goes: up to the brace that brings the level below 0. */
  function GroupLength(s: string, level: nat): (n: nat)
    ensures n <= |s|
  {
    if s == [] || level + Level(s[0]) < 0 then 0 else 1 + GroupLength(s[1..], level + Level(s[0]))
  }

  /** An antiquotation right after its `$`: kind, payload and length. */
  function AntiAt(s: string): (r: (Kind, string, nat))
    ensures r.2 <= |s|
  {
    var p := if s != [] && IsPrefix(s[0]) then 1 else 0;
    var kind := if p == 1 then KindOf(s[0]) else Expr;
    var rest := s[p..];
    var (payload, n) := BodyAt(rest);
    (kind, payload, p + n)
  }

  function BodyAt(rest: string): (r: (string, nat))
    ensures r.1 <= |rest|
  {
    if rest != [] && rest[0] == '{' then
      var n := GroupLength(rest[1..], 0);
      // the closing brace, when there is one, is consumed with the group
      (rest[1..][..n], 1 + n + (if n < |rest| - 1 then 1 else 0))
    else
      var n := PathLength(rest);
      (rest[..n], n)
  }

  /** The whole payload. `parses` is the Rust parser on an antiquotation. */
  function ScanFrom(s: string, parses: string -> bool): Scan
  {
    if s == [] then Scanned([])
    else if s[0] != '$' then Push(Plain(s[0]), ScanFrom(s[1..], parses))
    else
      var (kind, payload, n) := AntiAt(s[1..]);
      if payload == [] then Empty(s[1..][n..])
      else if !parses(payload) then Panicked(payload)
      else Push(Anti(kind, payload, s[..n + 1]), ScanFrom(s[n + 1..], parses))
  }

  function Push(p: Piece, r: Scan): Scan
  {
    if r.Scanned? then Scanned([p] + r.pieces) else r
  }

  function PushAll(ps: seq<Piece>, r: Scan): Scan
  {
    if r.Scanned? then Scanned(ps + r.pieces) else r
  }

  // ---------- What is emitted ----------

  function Output(ps: seq<Piece>): string
  {
    if ps == [] then []
    else (if ps[0].Plain? then [ps[0].c] else SPLIT_MARK) + Output(ps[1..])
  }

  datatype Antiquote = Antiquote(kind: Kind, payload: string)

  function Antiquotes(ps: seq<Piece>): seq<Antiquote>
  {
    if ps == [] then []
    else (if ps[0].Anti? then [Antiquote(ps[0].kind, ps[0].payload)] else []) + Antiquotes(ps[1..])
  }

  /** The literal segments: one more than the antiquotations. */
  function Literals(ps: seq<Piece>): (ls: seq<string>)
    ensures |ls| == |Antiquotes(ps)| + 1
  {
    if ps == [] then [[]]
    else
      var ls := Literals(ps[1..]);
      if ps[0].Plain? then [[ps[0].c] + ls[0]] + ls[1..] else [[]] + ls
  }

  /** The text each antiquotation stood for. */
  function Raws(ps: seq<Piece>): (rs: seq<string>)
    ensures |rs| == |Antiquotes(ps)|
  {
    if ps == [] then [] else (if ps[0].Anti? then [ps[0].raw] else []) + Raws(ps[1..])
  }

  /** Segments with separators in between. */
  function Weave(ls: seq<string>, rs: seq<string>): string
    requires |ls| == |rs| + 1
  {
    if rs == [] then ls[0] else ls[0] + rs[0] + Weave(ls[1..], rs[1..])
  }

  lemma {:induction false} OutputPush(ps: seq<Piece>, p: Piece)
    ensures Output(ps + [p]) == Output(ps) + (if p.Plain? then [p.c] else SPLIT_MARK)
    ensures Antiquotes(ps + [p]) == Antiquotes(ps) + (if p.Anti? then [Antiquote(p.kind, p.payload)] else [])
  {
    if ps == [] {
      assert ps + [p] == [p] && [p][1..] == [];
    } else {
      assert (ps + [p])[1..] == ps[1..] + [p];
      OutputPush(ps[1..], p);
    }
  }

  datatype Result = Ok(output: string, antiquotes: seq<Antiquote>) | Err(rest: string) | Panic(payload: string)

  function ResultOf(r: Scan): Result
  {
    match r
    case Scanned(ps) => Ok(Output(ps), Antiquotes(ps))
    case Empty(rest) => Err(rest)
    case Panicked(payload) => Panic(payload)
  }

  // ---------- The loop ----------

  /** The characters of a group, one at a time. */
  method TakeGroup(s: string, open: nat) returns (payload: string, i: nat)
    requires open <= |s|
    ensures open <= i <= |s| && payload == s[open..i] && i - open == GroupLength(s[open..], 0)
  {
    i, payload := open, [];
    var level: int := 0;
    while i < |s|
      invariant open <= i <= |s| && level >= 0 && payload == s[open..i]
      invariant GroupLength(s[open..], 0) == i - open + GroupLength(s[i..], level)
    {
      assert s[i..][1..] == s[i + 1..];
      level := level + Level(s[i]);
      if level < 0 { break; }
      payload := payload + [s[i]];
      i := i + 1;
    }
  }

  method TakePath(s: string, open: nat) returns (payload: string, i: nat)
    requires open <= |s|
    ensures open <= i <= |s| && payload == s[open..i] && i - open == PathLength(s[open..])
  {
    i, payload := open, [];
    while i < |s| && !Terminator(s[i])
      invariant open <= i <= |s| && payload == s[open..i]
      invariant PathLength(s[open..]) == i - open + PathLength(s[i..])
    {
      assert s[i..][1..] == s[i + 1..];
      payload := payload + [s[i]];
      i := i + 1;
    }
  }

  /** The payload after a `$`. */
  method TakeAnti(s: string, start: nat) returns (kind: Kind, payload: string, next: nat)
    requires start <= |s|
    ensures start <= next <= |s| && (kind, payload, next - start) == AntiAt(s[start..])
  {
    var i := start;
    kind := Expr;
    if i < |s| && IsPrefix(s[i]) {
      kind := KindOf(s[i]);
      i := i + 1;
    }
    Slices(s, start, i);
    payload, next := TakeBody(s, i);
  }

  method TakeBody(s: string, i: nat) returns (payload: string, next: nat)
    requires i <= |s|
    ensures i <= next <= |s| && (payload, next - i) == BodyAt(s[i..])
  {
    if i < |s| && s[i] == '{' {
      assert s[i..][1..] == s[i + 1..];
      payload, next := TakeGroup(s, i + 1);
      assert s[i + 1..][..next - (i + 1)] == payload;
      if next < |s| { next := next + 1; }
    } else {
      payload, next := TakePath(s, i);
      assert s[i..][..next - i] == payload;
    }
  }

  /** `process_string` */
  method ProcessString(s: string, parses: string -> bool) returns (r: Result)
    ensures r == ResultOf(ScanFrom(s, parses))
  {
    var output: string, antiquotations: seq<Antiquote> := [], [];
    ghost var ps: seq<Piece> := [];
    var i := 0;
    assert s[0..] == s;
    while i < |s|
      invariant i <= |s|
      invariant ScanFrom(s, parses) == PushAll(ps, ScanFrom(s[i..], parses))
      invariant output == Output(ps) && antiquotations == Antiquotes(ps)
      decreases |s| - i
    {
      var ch := s[i];
      ghost var piece;
      if ch == '$' {
        var kind, payload, next := TakeAnti(s, i + 1);
        ScanAnti(s, i, kind, payload, next, parses);
        if payload == [] { return Err(s[next..]); }
        if !parses(payload) { return Panic(payload); }
        piece := Anti(kind, payload, s[i..next]);
        output := output + SPLIT_MARK;
        antiquotations := antiquotations + [Antiquote(kind, payload)];
        i := next;
      } else {
        ScanPlain(s, i, parses);
        piece := Plain(ch);
        output := output + [ch];
        i := i + 1;
      }
      OutputPush(ps, piece);
      PushAssociates(ps, piece, ScanFrom(s[i..], parses));
      ps := ps + [piece];
    }
    assert s[i..] == [] && ps + [] == ps;
    r := Ok(output, antiquotations);
  }

  lemma Slices(s: string, i: nat, j: nat)
    requires i <= j <= |s|
    ensures s[i..][j - i..] == s[j..]
  {
  }

  lemma ScanPlain(s: string, i: nat, parses: string -> bool)
    requires i < |s| && s[i] != '$'
    ensures ScanFrom(s[i..], parses) == Push(Plain(s[i]), ScanFrom(s[i + 1..], parses))
  {
    Slices(s, i, i + 1);
  }

  lemma ScanAnti(s: string, i: nat, kind: Kind, payload: string, next: nat, parses: string -> bool)
    requires i < next <= |s| && s[i] == '$' && (kind, payload, next - (i + 1)) == AntiAt(s[i + 1..])
    ensures ScanFrom(s[i..], parses)
      == if payload == [] then Empty(s[next..])
         else if !parses(payload) then Panicked(payload)
         else Push(Anti(kind, payload, s[i..next]), ScanFrom(s[next..], parses))
  {
    Slices(s, i, i + 1);
    Slices(s, i + 1, next);
    Slices(s, i, next);
    ScanFirst(s[i..], kind, payload, next - (i + 1), parses);
    assert s[i..][..next - i] == s[i..next];
  }

  lemma ScanFirst(s: string, kind: Kind, payload: string, n: nat, parses: string -> bool)
    requires s != [] && s[0] == '$' && n < |s| && (kind, payload, n) == AntiAt(s[1..])
    ensures ScanFrom(s, parses)
      == if payload == [] then Empty(s[1..][n..])
         else if !parses(payload) then Panicked(payload)
         else Push(Anti(kind, payload, s[..n + 1]), ScanFrom(s[n + 1..], parses))
  {
  }

  lemma PushAssociates(ps: seq<Piece>, p: Piece, r: Scan)
    ensures PushAll(ps, Push(p, r)) == PushAll(ps + [p], r)
  {
    if r.Scanned? { assert ps + ([p] + r.pieces) == ps + [p] + r.pieces; }
  }

  // ---------- Nothing is lost ----------

  /** The first piece, and where the others begin. */
  lemma FirstPiece(s: string, parses: string -> bool) returns (k: nat, p: Piece)
    requires s != [] && ScanFrom(s, parses).Scanned?
    ensures 0 < k <= |s| && ScanFrom(s[k..], parses).Scanned?
    ensures ScanFrom(s, parses).pieces == [p] + ScanFrom(s[k..], parses).pieces
    ensures if p.Plain? then p.c != '$' else p.payload != "" && parses(p.payload)
    ensures s[..k] == if p.Plain? then [p.c] else p.raw
  {
    if s[0] != '$' {
      k, p := 1, Plain(s[0]);
    } else {
      var (kind, payload, n) := AntiAt(s[1..]);
      k, p := n + 1, Anti(kind, payload, s[..n + 1]);
    }
  }

  /** Putting the antiquotations' own text back between the literal segments
      rebuilds the payload, also when a last group is not closed. */
  lemma {:induction false} WeaveRebuilds(s: string, parses: string -> bool)
    requires ScanFrom(s, parses).Scanned?
    ensures var ps := ScanFrom(s, parses).pieces; Weave(Literals(ps), Raws(ps)) == s
  {
    if s != [] {
      var k, p := FirstPiece(s, parses);
      WeaveRebuilds(s[k..], parses);
      WeavePiece(p, ScanFrom(s[k..], parses).pieces);
      assert s == s[..k] + s[k..];
    }
  }

  lemma WeavePiece(p: Piece, ps: seq<Piece>)
    ensures Weave(Literals([p] + ps), Raws([p] + ps)) ==
      (if p.Plain? then [p.c] else p.raw) + Weave(Literals(ps), Raws(ps))
  {
    if p.Plain? {
      PlainFirst(p.c, ps);
      WeaveCons(p.c, Literals(ps), Raws(ps));
    } else {
      AntiFirst(p, ps);
      WeaveAnti(p.raw, Literals(ps), Raws(ps));
    }
  }

  lemma PlainFirst(c: char, ps: seq<Piece>)
    ensures Literals([Plain(c)] + ps) == [[c] + Literals(ps)[0]] + Literals(ps)[1..]
    ensures Antiquotes([Plain(c)] + ps) == Antiquotes(ps) && Raws([Plain(c)] + ps) == Raws(ps)
  {
    assert ([Plain(c)] + ps)[1..] == ps;
  }

  lemma AntiFirst(p: Piece, ps: seq<Piece>)
    requires p.Anti?
    ensures Literals([p] + ps) == [[]] + Literals(ps) && Raws([p] + ps) == [p.raw] + Raws(ps)
    ensures Antiquotes([p] + ps) == [Antiquote(p.kind, p.payload)] + Antiquotes(ps)
  {
    assert ([p] + ps)[1..] == ps;
  }

  lemma WeaveAnti(r: string, ls: seq<string>, rs: seq<string>)
    requires |ls| == |rs| + 1
    ensures Weave([[]] + ls, [r] + rs) == r + Weave(ls, rs)
  {
    assert ([[]] + ls)[1..] == ls && ([r] + rs)[1..] == rs && [] + r == r;
  }

  lemma WeaveCons(c: char, ls: seq<string>, rs: seq<string>)
    requires |ls| == |rs| + 1
    ensures Weave([[c] + ls[0]] + ls[1..], rs) == [c] + Weave(ls, rs)
  {
    assert ([[c] + ls[0]] + ls[1..])[1..] == ls[1..];
    if rs != [] {
      assert [c] + ls[0] + rs[0] + Weave(ls[1..], rs[1..]) == [c] + (ls[0] + rs[0] + Weave(ls[1..], rs[1..]));
    }
  }

  function Marks(n: nat): seq<string> { seq(n, _ => SPLIT_MARK) }

  /** The output is the literal segments with a mark for each antiquotation. */
  lemma {:induction false} OutputIsWeave(ps: seq<Piece>)
    ensures SPLIT_MARK == "SPLIT_QUOTE"
    ensures Output(ps) == Weave(Literals(ps), Marks(|Antiquotes(ps)|))
  {
    if ps != [] {
      OutputIsWeave(ps[1..]);
      var ls, marks := Literals(ps[1..]), Marks(|Antiquotes(ps[1..])|);
      if ps[0].Plain? {
        WeaveCons(ps[0].c, ls, marks);
      } else {
        assert ([[]] + ls)[1..] == ls && Marks(|marks| + 1)[1..] == marks;
        assert SPLIT_MARK + Output(ps[1..]) == [] + SPLIT_MARK + Output(ps[1..]);
      }
    }
  }

  // ---------- Splitting on the mark ----------

  predicate StartsWith(s: string, m: string) { m <= s }

  predicate Contains(s: string, m: string) { exists i | 0 <= i <= |s| :: StartsWith(s[i..], m) }

  /** Splitting at the leftmost marks, as `split` does. */
  function Split(s: string): (parts: seq<string>)
    ensures parts != []
    decreases |s|
  {
    if StartsWith(s, SPLIT_MARK) then [[]] + Split(s[|SPLIT_MARK|..])
    else if s == [] then [[]]
    else
      var parts := Split(s[1..]);
      [[s[0]] + parts[0]] + parts[1..]
  }

  lemma StartsIff(s: string)
    requires |s| >= 11
    ensures StartsWith(s, SPLIT_MARK) <==> s[..11] == SPLIT_MARK
  {
  }

  /** The mark has no border: no occurrence can start in text before a mark and
      reach into it, for only the mark's first character is an 'S'. */
  lemma NoSpuriousMark(l: string, rest: string, i: nat)
    requires !Contains(l, SPLIT_MARK) && i < |l|
    ensures !StartsWith((l + SPLIT_MARK + rest)[i..], SPLIT_MARK)
  {
    var t := (l + SPLIT_MARK + rest)[i..];
    StartsIff(t);
    if i + 11 <= |l| {
      StartsIff(l[i..]);
      assert t[..11] == l[i..][..11];
    } else {
      var k := |l| - i;
      assert t[k] == 'S' && SPLIT_MARK[k] != 'S' && t[..11][k] == t[k];
    }
  }

  lemma {:induction false} SplitFirst(l: string, rest: string)
    requires !Contains(l, SPLIT_MARK)
    ensures Split(l + SPLIT_MARK + rest) == [l] + Split(rest)
  {
    var t := l + SPLIT_MARK + rest;
    if l == [] {
      assert t[|SPLIT_MARK|..] == rest;
    } else {
      NoSpuriousMark(l, rest, 0);
      assert t[0..] == t && t[1..] == l[1..] + SPLIT_MARK + rest;
      ContainsTail(l);
      SplitFirst(l[1..], rest);
      assert ([l[1..]] + Split(rest))[1..] == Split(rest) && l == [l[0]] + l[1..];
    }
  }

  lemma ContainsTail(l: string)
    requires l != [] && !Contains(l, SPLIT_MARK)
    ensures !Contains(l[1..], SPLIT_MARK)
  {
    forall i | 0 <= i <= |l| - 1 ensures !StartsWith(l[1..][i..], SPLIT_MARK) {
      assert l[1..][i..] == l[i + 1..];
    }
  }

  lemma {:induction false} SplitPlain(l: string)
    requires !Contains(l, SPLIT_MARK)
    ensures Split(l) == [l]
  {
    assert l[0..] == l;
    if l != [] {
      ContainsTail(l);
      SplitPlain(l[1..]);
      assert [l[1..]][1..] == [] && l == [l[0]] + l[1..];
    }
  }

  lemma {:induction false} SplitWeave(ls: seq<string>, n: nat)
    requires |ls| == n + 1 && forall i | 0 <= i < |ls| :: !Contains(ls[i], SPLIT_MARK)
    ensures Split(Weave(ls, Marks(n))) == ls
    decreases n
  {
    if n == 0 {
      SplitPlain(ls[0]);
      assert ls == [ls[0]];
    } else {
      assert Marks(n)[1..] == Marks(n - 1);
      SplitWeave(ls[1..], n - 1);
      SplitFirst(ls[0], Weave(ls[1..], Marks(n - 1)));
      assert ls == [ls[0]] + ls[1..];
    }
  }

  /** Every literal segment is a stretch of the payload. */
  lemma {:induction false} LiteralsInside(ls: seq<string>, rs: seq<string>, i: nat)
    requires |ls| == |rs| + 1 && i < |ls| && !Contains(Weave(ls, rs), SPLIT_MARK)
    ensures !Contains(ls[i], SPLIT_MARK)
    decreases |ls|
  {
    var w := Weave(ls, rs);
    if i == 0 {
      forall k | 0 <= k <= |ls[0]| ensures !StartsWith(ls[0][k..], SPLIT_MARK) {
        assert w[..|ls[0]|] == ls[0] && !StartsWith(w[k..], SPLIT_MARK);
        if k + 11 <= |ls[0]| {
          StartsIff(w[k..]);
          StartsIff(ls[0][k..]);
          assert w[k..][..11] == ls[0][k..][..11];
        }
      }
    } else {
      var t := Weave(ls[1..], rs[1..]);
      var d := |ls[0]| + |rs[0]|;
      assert w[d..] == t;
      forall k | 0 <= k <= |t| ensures !StartsWith(t[k..], SPLIT_MARK) {
        assert w[d + k..] == t[k..];
      }
      LiteralsInside(ls[1..], rs[1..], i - 1);
    }
  }

  /** For every payload free of the mark, splitting the output gives back exactly
      the literal segments in order, one more than the antiquotations. */
  lemma SplitGivesLiterals(s: string, parses: string -> bool)
    requires !Contains(s, SPLIT_MARK) && ScanFrom(s, parses).Scanned?
    ensures var ps := ScanFrom(s, parses).pieces;
      Split(Output(ps)) == Literals(ps) && |Literals(ps)| == |Antiquotes(ps)| + 1
  {
    var ps := ScanFrom(s, parses).pieces;
    WeaveRebuilds(s, parses);
    forall i | 0 <= i < |Literals(ps)| ensures !Contains(Literals(ps)[i], SPLIT_MARK) {
      LiteralsInside(Literals(ps), Raws(ps), i);
    }
    OutputIsWeave(ps);
    SplitWeave(Literals(ps), |Antiquotes(ps)|);
  }

  // ---------- What an antiquotation's text looks like ----------

  function Prefix(kind: Kind): string
  {
    match kind
    case Expr => ""
    case Pat => "?"
    case Constructor => "$"
    case Ty => ":"
  }

  /** The braces opened in a text and not closed, or less than 0. */
  function Levels(s: string): int { if s == [] then 0 else Level(s[0]) + Levels(s[1..]) }

  /** No closing brace comes before its opening one. */
  ghost predicate Nested(s: string) { forall k | 0 <= k <= |s| :: Levels(s[..k]) >= 0 }

  ghost predicate Balanced(s: string) { Nested(s) && Levels(s) == 0 }

  /** After a `$` comes the kind's prefix and then the payload, either bare, or in
      braces of which the last may be missing only at the end of the text. The braces
      inside a group match, but for some left open with the group itself. */
  lemma AntiShape(s: string)
    ensures var (kind, payload, n) := AntiAt(s);
      || s[..n] == Prefix(kind) + payload
      || (s[..n] == Prefix(kind) + "{" + payload + "}" && Balanced(payload))
      || (n == |s| && s == Prefix(kind) + "{" + payload && Nested(payload))
  {
    if Braced(s) { BracedUpTo(s); } else { BareUpTo(s); }
  }

  lemma Prepend(a: string, b: string, c: string, d: string)
    ensures a + (b + c + d) == a + b + c + d && a + (b + c) == a + b + c
  {
  }

  lemma GroupBalances(s: string)
    ensures var n := GroupLength(s, 0); Nested(s[..n]) && (n < |s| ==> Balanced(s[..n]))
  {
    var n := GroupLength(s, 0);
    forall k | 0 <= k <= n ensures Levels(s[..n][..k]) >= 0 {
      GroupLevels(s, 0, k);
      assert s[..n][..k] == s[..k];
    }
    GroupLevels(s, 0, n);
  }

  lemma {:induction false} GroupLevels(s: string, level: nat, k: nat)
    requires k <= GroupLength(s, level)
    ensures level + Levels(s[..k]) >= 0
    ensures k == GroupLength(s, level) < |s| ==> level + Levels(s[..k]) == 0
    decreases |s|
  {
    if k > 0 {
      GroupLevels(s[1..], level + Level(s[0]), k - 1);
      assert s[..k][1..] == s[1..][..k - 1];
    }
  }

  lemma {:induction false} GroupCloses(s: string, level: nat)
    ensures var n := GroupLength(s, level); n < |s| ==> s[n] == '}'
  {
    if s != [] && level + Level(s[0]) >= 0 { GroupCloses(s[1..], level + Level(s[0])); }
  }

  // ---------- Rebuilding the payload from what is returned ----------

  /** How an antiquotation is spelt, bare or in braces. */
  function Spelled(q: Antiquote, braced: bool): string
  {
    "$" + (Prefix(q.kind) + if braced then "{" + q.payload + "}" else q.payload)
  }

  function SpelledAll(qs: seq<Antiquote>, braced: seq<bool>): (rs: seq<string>)
    requires |qs| == |braced|
    ensures |rs| == |qs|
  {
    if qs == [] then [] else [Spelled(qs[0], braced[0])] + SpelledAll(qs[1..], braced[1..])
  }

  /** The last antiquotation is a group whose brace the payload does not close. */
  predicate LastOpen(ps: seq<Piece>)
  {
    ps != [] && var p := ps[|ps| - 1]; p.Anti? && p.raw == "$" + (Prefix(p.kind) + ("{" + p.payload))
  }

  /** The literal segments and the returned kinds and payloads, each bare or in
      braces, are the text; only a last group left open gains its brace. */
  predicate Rebuilt(s: string, ps: seq<Piece>, braced: seq<bool>, open: bool)
  {
    && |braced| == |Antiquotes(ps)| && (open ==> LastOpen(ps))
    && Weave(Literals(ps), SpelledAll(Antiquotes(ps), braced)) == s + Brace(open)
  }

  /** The whole payload can be rebuilt from what is returned. */
  lemma {:induction false} Rebuilds(s: string, parses: string -> bool) returns (braced: seq<bool>, open: bool)
    requires ScanFrom(s, parses).Scanned?
    ensures Rebuilt(s, ScanFrom(s, parses).pieces, braced, open)
    decreases |s|
  {
    if s == [] {
      braced, open := [], false;
    } else if s[0] != '$' {
      braced, open := Rebuilds(s[1..], parses);
      RebuiltPlain(s[0], s[1..], ScanFrom(s[1..], parses).pieces, braced, open);
      assert s == [s[0]] + s[1..];
    } else {
      var (kind, payload, n) := AntiAt(s[1..]);
      var ps := ScanFrom(s[n + 1..], parses).pieces;
      var b, o := PieceSpelled(s, kind, payload, n);
      braced, open := Rebuilds(s[n + 1..], parses);
      RebuiltBy(s, n + 1, Anti(kind, payload, s[..n + 1]), ps, b, o, braced, open);
      braced, open := [b] + braced, o || open;
    }
  }

  lemma RebuiltPlain(c: char, s: string, ps: seq<Piece>, braced: seq<bool>, open: bool)
    requires Rebuilt(s, ps, braced, open)
    ensures Rebuilt([c] + s, [Plain(c)] + ps, braced, open)
  {
    RebuildPlain(c, ps, braced);
    assert [c] + s + Brace(open) == [c] + (s + Brace(open));
    LastOpenCons(Plain(c), ps);
  }

  lemma LastOpenCons(p: Piece, ps: seq<Piece>)
    ensures LastOpen(ps) ==> LastOpen([p] + ps)
  {
    if ps != [] { assert ([p] + ps)[|ps|] == ps[|ps| - 1]; }
  }

  /** The spelling of the antiquotation whose `$` begins the text. */
  lemma PieceSpelled(s: string, kind: Kind, payload: string, n: nat) returns (b: bool, o: bool)
    requires s != [] && s[0] == '$' && AntiAt(s[1..]) == (kind, payload, n)
    ensures Spelled(Antiquote(kind, payload), b) == s[..n + 1] + Brace(o)
    ensures o ==> n + 1 == |s| && LastOpen([Anti(kind, payload, s[..n + 1])])
  {
    b, o := SpelledAt(s[1..]);
    assert "$" + s[1..][..n] == s[..n + 1];
    if o { assert s[..n + 1] == s == "$" + s[1..]; }
  }

  lemma RebuiltBy(s: string, k: nat, p: Piece, ps: seq<Piece>, b: bool, o: bool, braced: seq<bool>, open: bool)
    requires k <= |s| && p.Anti? && Rebuilt(s[k..], ps, braced, open)
    requires Spelled(Antiquote(p.kind, p.payload), b) == s[..k] + Brace(o)
    requires o ==> k == |s| && ps == [] && LastOpen([p])
    ensures Rebuilt(s, [p] + ps, [b] + braced, o || open)
  {
    RebuildAnti(p, ps, b, braced);
    Glue(s, k, o, open);
    LastOpenCons(p, ps);
    assert o ==> [p] + ps == [p];
  }

  lemma Glue(s: string, k: nat, o: bool, open: bool)
    requires k <= |s| && (o ==> k == |s| && !open)
    ensures s[..k] + Brace(o) + (s[k..] + Brace(open)) == s + Brace(o || open)
  {
    assert s == s[..k] + s[k..];
  }

  function Brace(open: bool): string { if open then "}" else "" }

  lemma RebuildPlain(c: char, ps: seq<Piece>, braced: seq<bool>)
    requires |braced| == |Antiquotes(ps)|
    ensures Antiquotes([Plain(c)] + ps) == Antiquotes(ps)
    ensures Weave(Literals([Plain(c)] + ps), SpelledAll(Antiquotes(ps), braced))
      == [c] + Weave(Literals(ps), SpelledAll(Antiquotes(ps), braced))
  {
    PlainFirst(c, ps);
    WeaveCons(c, Literals(ps), SpelledAll(Antiquotes(ps), braced));
  }

  lemma RebuildAnti(p: Piece, ps: seq<Piece>, b: bool, braced: seq<bool>)
    requires p.Anti? && |braced| == |Antiquotes(ps)|
    ensures Antiquotes([p] + ps) == [Antiquote(p.kind, p.payload)] + Antiquotes(ps)
    ensures Weave(Literals([p] + ps), SpelledAll(Antiquotes([p] + ps), [b] + braced))
      == Spelled(Antiquote(p.kind, p.payload), b) + Weave(Literals(ps), SpelledAll(Antiquotes(ps), braced))
  {
    var q, qs := Antiquote(p.kind, p.payload), Antiquotes(ps);
    AntiFirst(p, ps);
    SpelledCons(q, qs, b, braced);
    WeaveAnti(Spelled(q, b), Literals(ps), SpelledAll(qs, braced));
  }

  lemma SpelledCons(q: Antiquote, qs: seq<Antiquote>, b: bool, braced: seq<bool>)
    requires |qs| == |braced|
    ensures SpelledAll([q] + qs, [b] + braced) == [Spelled(q, b)] + SpelledAll(qs, braced)
  {
    assert ([q] + qs)[1..] == qs && ([b] + braced)[1..] == braced;
  }

  /** Which spelling an antiquotation has, and whether its brace is missing. */
  lemma SpelledAt(s: string) returns (braced: bool, open: bool)
    ensures var (kind, payload, n) := AntiAt(s);
      && Spelled(Antiquote(kind, payload), braced) == "$" + s[..n] + Brace(open)
      && (open ==> n == |s| && s == Prefix(kind) + ("{" + payload))
  {
    AntiShape(s);
    var (kind, payload, n) := AntiAt(s);
    Prepend(Prefix(kind), "{", payload, "}");
    braced := s[..n] != Prefix(kind) + payload;
    open := braced && s[..n] != Prefix(kind) + "{" + payload + "}";
    if open {
      assert s[..n] == s;
    }
  }

  // ---------- Where an antiquotation ends ----------

  predicate EndsPath(c: char) { c in {' ', '\t', '\n', '(', '{', ')', ';', '!', '?'} }

  /** None of blank, tab, line break, `(`, `{`, `)`, `;`, `!`, `?` is in a text. */
  predicate PathOnly(s: string)
  {
    && ' ' !in s && '\t' !in s && '\n' !in s && '(' !in s && '{' !in s
    && ')' !in s && ';' !in s && '!' !in s && '?' !in s
  }

  lemma {:induction false} PathEnds(s: string)
    ensures var n := PathLength(s); PathOnly(s[..n]) && (n == |s| || EndsPath(s[n]))
  {
    if s != [] && !Terminator(s[0]) {
      PathEnds(s[1..]);
      var n := PathLength(s[1..]);
      assert s[..n + 1] == [s[0]] + s[1..][..n];
    }
  }

  /** Whether a group begins right after the prefix. */
  predicate Braced(s: string) { var p := |Prefix(AntiAt(s).0)|; p < |s| && s[p] == '{' }

  lemma AntiBody(s: string)
    ensures var (kind, payload, n) := AntiAt(s); var p := |Prefix(kind)|;
      s[..p] == Prefix(kind) && p <= n && BodyAt(s[p..]) == (payload, n - p)
  {
  }

  /** Without a brace after the prefix the payload goes up to the first character that
      no path holds. */
  lemma BareUpTo(s: string)
    requires !Braced(s)
    ensures var (kind, payload, n) := AntiAt(s);
      s[..n] == Prefix(kind) + payload && PathOnly(payload) && (n == |s| || EndsPath(s[n]))
  {
    AntiBody(s);
    var (kind, payload, n) := AntiAt(s);
    var p := |Prefix(kind)|;
    PathEnds(s[p..]);
    assert s[..n] == s[..p] + s[p..][..n - p];
  }

  /** With one it goes up to the matching brace, or is the rest of the text. */
  lemma BracedUpTo(s: string)
    requires Braced(s)
    ensures var (kind, payload, n) := AntiAt(s);
      || (s[..n] == Prefix(kind) + "{" + payload + "}" && Balanced(payload))
      || (n == |s| && s == Prefix(kind) + "{" + payload && Nested(payload))
  {
    AntiBody(s);
    var (kind, payload, n) := AntiAt(s);
    var p := |Prefix(kind)|;
    BracedBody(s[p..]);
    assert s[..n] == s[..p] + s[p..][..n - p] && s == s[..p] + s[p..];
    Prepend(Prefix(kind), "{", payload, "}");
  }

  lemma BracedBody(rest: string)
    requires rest != [] && rest[0] == '{'
    ensures var (payload, n) := BodyAt(rest);
      || (rest[..n] == "{" + payload + "}" && Balanced(payload))
      || (n == |rest| && rest == "{" + payload && Nested(payload))
  {
    GroupCloses(rest[1..], 0);
    GroupBalances(rest[1..]);
    assert rest == "{" + rest[1..];
  }

  /** The level of a text is what it opens less what it closes. */
  lemma {:induction false} LevelsCount(s: string)
    ensures Levels(s) + multiset(s)['}'] == multiset(s)['{']
  {
    if s != [] {
      LevelsCount(s[1..]);
      assert s == [s[0]] + s[1..];
    }
  }

  /** The kinds and their prefixes; anything else begins an expression. */
  lemma Kinds(s: string)
    ensures var kind := AntiAt(s).0;
      && (kind == Pat <==> s != [] && s[0] == '?')
      && (kind == Constructor <==> s != [] && s[0] == '$')
      && (kind == Ty <==> s != [] && s[0] == ':')
  {
  }

  /** Every `$` begins an antiquotation: no literal segment holds one. */
  lemma {:induction false} DollarsTaken(s: string, parses: string -> bool, i: nat)
    requires ScanFrom(s, parses).Scanned? && i < |Literals(ScanFrom(s, parses).pieces)|
    ensures '$' !in Literals(ScanFrom(s, parses).pieces)[i]
    decreases |s|
  {
    if s != [] {
      var k, p := FirstPiece(s, parses);
      var ps := ScanFrom(s[k..], parses).pieces;
      if p.Plain? {
        DollarsTaken(s[k..], parses, i);
        PlainFirst(p.c, ps);
      } else {
        AntiFirst(p, ps);
        if i > 0 { DollarsTaken(s[k..], parses, i - 1); }
      }
    }
  }

  /** Every payload is there and parses. */
  lemma {:induction false} PayloadsParse(s: string, parses: string -> bool, q: Antiquote)
    requires ScanFrom(s, parses).Scanned? && q in Antiquotes(ScanFrom(s, parses).pieces)
    ensures q.payload != "" && parses(q.payload)
    decreases |s|
  {
    if s != [] {
      var k, p := FirstPiece(s, parses);
      OneOrLater(p, ScanFrom(s[k..], parses).pieces, q);
      if p.Plain? || q != Antiquote(p.kind, p.payload) { PayloadsParse(s[k..], parses, q); }
    }
  }

  lemma OneOrLater(p: Piece, ps: seq<Piece>, q: Antiquote)
    requires q in Antiquotes([p] + ps)
    ensures q in Antiquotes(ps) || (p.Anti? && q == Antiquote(p.kind, p.payload))
  {
    assert ([p] + ps)[1..] == ps;
  }

  /** Scanning stops only at a `$` with an empty payload, and says what comes after, or
      at one whose payload does not parse. */
  lemma {:induction false} StopsAt(s: string, parses: string -> bool) returns (k: nat)
    requires !ScanFrom(s, parses).Scanned?
    ensures Stops(s, k, parses, ScanFrom(s, parses))
    decreases |s|
  {
    var n := Passed(s, parses);
    k := 0;
    if n > 0 {
      k := StopsAt(s[n..], parses);
      StopsLater(s, n, k, parses, ScanFrom(s, parses));
      k := n + k;
    }
  }

  predicate Stops(s: string, k: nat, parses: string -> bool, r: Scan)
  {
    && k < |s| && s[k] == '$'
    && var (kind, payload, n) := AntiAt(s[k + 1..]);
       if payload == "" then r == Empty(s[k + 1..][n..]) else !parses(payload) && r == Panicked(payload)
  }

  lemma StopsLater(s: string, n: nat, k: nat, parses: string -> bool, r: Scan)
    requires n <= |s| && Stops(s[n..], k, parses, r)
    ensures Stops(s, n + k, parses, r)
  {
    assert s[n..][k + 1..] == s[n + k + 1..];
  }

  lemma Passed(s: string, parses: string -> bool) returns (n: nat)
    requires !ScanFrom(s, parses).Scanned?
    ensures n <= |s| && ScanFrom(s, parses) == ScanFrom(s[n..], parses)
    ensures n == 0 ==> Stops(s, 0, parses, ScanFrom(s, parses))
  {
    if s[0] != '$' {
      n := 1;
    } else {
      var (kind, payload, m) := AntiAt(s[1..]);
      n := if payload == "" || !parses(payload) then 0 else m + 1;
    }
  }
}
