/** Directives queued for promotion: merging the expected failures of one line. */
module Directives {

  type Backend = string

  /** An error code as written and as compared. */
  datatype ErrorCode = ErrorCode(original: string, normalized: string)

  const HAX := "HAX"

  /** Without leading zeros. */
  function TrimZeros(s: string): (r: string)
    ensures |r| <= |s| && r == s[|s| - |r|..] && (r != "" ==> r[0] != '0')
    ensures forall i | 0 <= i < |s| - |r| :: s[i] == '0'
  {
    if s != "" && s[0] == '0' then TrimZeros(s[1..]) else s
  }

  function Normal(s: string): string
  {
    if HAX <= s then HAX + TrimZeros(s[3..]) else TrimZeros(s)
  }

  /** `ErrorCode::new`; codes are compared by their normalised spelling. */
  function NewCode(original: string): ErrorCode { ErrorCode(original, Normal(original)) }

  predicate SameCode(a: string, b: string) { NewCode(a).normalized == NewCode(b).normalized }

  predicate NoLeadingZero(s: string) { s == "" || s[0] != '0' }

  function Zeros(n: nat): string { seq(n, _ => '0') }

  lemma {:induction false} TrimAnyZeros(zeros: nat, s: string)
    requires NoLeadingZero(s)
    ensures TrimZeros(Zeros(zeros) + s) == s
  {
    if zeros == 0 {
      assert Zeros(0) + s == s;
    } else {
      var all := Zeros(zeros) + s;
      assert all[0] == '0' && all[1..] == Zeros(zeros - 1) + s;
      TrimAnyZeros(zeros - 1, s);
    }
  }

  lemma NormalHax(r: string)
    ensures Normal(HAX + r) == HAX + TrimZeros(r)
  {
    assert (HAX + r)[3..] == r;
  }

  lemma Prepended(p: string, a: string, b: string)
    ensures p + a == p + b <==> a == b
  {
    assert (p + a)[|p|..] == a && (p + b)[|p|..] == b;
  }

  /** Codes with the prefix are the same if and only if they differ in leading
      zeros only. */
  lemma SameUpToZeros(m: nat, n: nat, a: string, b: string)
    requires NoLeadingZero(a) && NoLeadingZero(b)
    ensures SameCode("HAX" + (Zeros(m) + a), "HAX" + (Zeros(n) + b)) <==> a == b
  {
    TrimAnyZeros(m, a);
    TrimAnyZeros(n, b);
    NormalHax(Zeros(m) + a);
    NormalHax(Zeros(n) + b);
    Prepended(HAX, a, b);
  }

  /** And so are codes without it. */
  lemma SamePlainUpToZeros(m: nat, n: nat, a: string, b: string)
    requires NoLeadingZero(a) && NoLeadingZero(b)
    requires !(HAX <= Zeros(m) + a) && !(HAX <= Zeros(n) + b)
    ensures SameCode(Zeros(m) + a, Zeros(n) + b) <==> a == b
  {
    TrimAnyZeros(m, a);
    TrimAnyZeros(n, b);
  }

  lemma TrimTwice(s: string)
    ensures TrimZeros(TrimZeros(s)) == TrimZeros(s) && (TrimZeros(s) == s <==> NoLeadingZero(s))
  {
  }

  /** A code is the same as its normalised spelling, except where dropping zeros
      uncovers a prefix with zeros after it. */
  lemma NormalisedIsSame(s: string)
    ensures SameCode(Normal(s), s) <==> HAX <= s || !(HAX + "0" <= TrimZeros(s))
  {
    if HAX <= s {
      TrimTwice(s[3..]);
      NormalHax(TrimZeros(s[3..]));
    } else {
      TrimTwice(s);
      NormalTrimmed(TrimZeros(s));
    }
  }

  lemma ZeroNext(r: string)
    ensures HAX + "0" <= HAX + r <==> r != "" && r[0] == '0'
  {
    assert (HAX + "0")[3] == '0';
    assert r != "" ==> (HAX + r)[3] == r[0];
  }

  /** Such codes: the spelling `HAX01` would in turn lose a zero. */
  lemma CodeExample(code: string)
    requires code == Zeros(1) + (HAX + "01")
    ensures !SameCode(Normal(code), code)
  {
    var spelling := HAX + "01";
    TrimAnyZeros(1, spelling);
    assert code[0] == '0';
    assert HAX + "0" <= spelling;
    NormalisedIsSame(code);
  }

  lemma NormalTrimmed(t: string)
    requires NoLeadingZero(t)
    ensures Normal(t) == t <==> !(HAX + "0" <= t)
  {
    if HAX <= t {
      NormalPrefixed(t, t[3..]);
    } else {
      NoHax(t);
      TrimTwice(t);
    }
  }

  lemma NoHax(t: string)
    requires !(HAX <= t)
    ensures !(HAX + "0" <= t)
  {
    assert HAX <= HAX + "0";
  }

  lemma NormalPrefixed(t: string, r: string)
    requires t == HAX + r
    ensures Normal(t) == t <==> !(HAX + "0" <= t)
  {
    NormalHax(r);
    Prepended(HAX, TrimZeros(r), r);
    TrimTwice(r);
    ZeroNext(r);
  }

  datatype FailureKind = Typecheck | Extract

  type Errors = map<Backend, seq<ErrorCode>>

  /** A test directive's payload plays no part here. */
  datatype Directive = Test(payload: string) | Failure(kind: FailureKind, backends: Errors)

  datatype LineKind = Text(contents: string) | Mark(directive: Directive, bang: bool)

  datatype Line = Line(line: nat, kind: LineKind)

  // ---------- Directive::merge ----------

  function At(m: Errors, b: Backend): seq<ErrorCode> { if b in m then m[b] else [] }

  /** Every backend of either side, with its codes in order of arrival. */
  ghost predicate MergeOf(merged: Errors, mine: Errors, other: Errors)
  {
    merged.Keys == mine.Keys + other.Keys && forall b <- merged :: merged[b] == At(mine, b) + At(other, b)
  }

  method MergeErrors(mine: Errors, other: Errors) returns (merged: Errors)
    ensures MergeOf(merged, mine, other)
  {
    merged := mine;
    var left := other.Keys;
    while left != {}
      invariant left <= other.Keys && merged.Keys == mine.Keys + (other.Keys - left)
      invariant forall b <- merged :: merged[b] == At(mine, b)
    {
      var b :| b in left;
      if b !in merged { merged := merged[b := []]; }
      left := left - {b};
    }
    left := merged.Keys;
    while left != {}
      invariant left <= merged.Keys == mine.Keys + other.Keys
      invariant forall b <- merged :: merged[b] == At(mine, b) + if b in left then [] else At(other, b)
    {
      var b :| b in left;
      if b in other { merged := merged[b := merged[b] + other[b]]; }
      left := left - {b};
    }
  }

  function Merged(mine: Errors, other: Errors): (merged: Errors)
    ensures MergeOf(merged, mine, other)
  {
    map b | b in mine.Keys + other.Keys :: At(mine, b) + At(other, b)
  }

  /** Directives merge when both are expected failures of one kind. */
  method Merge(mine: Directive, other: Directive) returns (ok: bool, merged: Directive)
    ensures ok <==> mine.Failure? && other.Failure? && mine.kind == other.kind
    ensures merged == if ok then Failure(mine.kind, Merged(mine.backends, other.backends)) else mine
  {
    if mine.Failure? && other.Failure? && mine.kind == other.kind {
      var backends := MergeErrors(mine.backends, other.backends);
      assert backends == Merged(mine.backends, other.backends);
      return true, mine.(backends := backends);
    }
    return false, mine;
  }

  // ---------- push_line ----------

  /** A line expecting a failure of this kind at this place. */
  predicate Expects(l: Line, n: nat, k: FailureKind)
  {
    l.line == n && l.kind.Mark? && l.kind.directive.Failure? && l.kind.directive.kind == k
  }

  predicate Joins(l: Line, next: Line)
  {
    next.kind.Mark? && next.kind.directive.Failure? && Expects(l, next.line, next.kind.directive.kind)
  }

  function Joined(l: Line, next: Line): Line
    requires Joins(l, next)
  {
    var d := Failure(l.kind.directive.kind, Merged(l.kind.directive.backends, next.kind.directive.backends));
    l.(kind := l.kind.(directive := d))
  }

  /** Two lines join that number the same line and expect the same kind of failure. The
      first keeps everything but its backends, which are those of both. */
  lemma JoinedKeeps(l: Line, next: Line)
    ensures Joins(l, next) <==>
      && l.line == next.line && l.kind.Mark? && next.kind.Mark?
      && l.kind.directive.Failure? && next.kind.directive.Failure? && l.kind.directive.kind == next.kind.directive.kind
    ensures Joins(l, next) ==>
      var j := Joined(l, next);
      && j.line == l.line && j.kind.Mark? && j.kind.bang == l.kind.bang
      && j.kind.directive.Failure? && j.kind.directive.kind == l.kind.directive.kind
      && MergeOf(j.kind.directive.backends, l.kind.directive.backends, next.kind.directive.backends)
  {
  }

  function Pushed(lines: seq<Line>, next: Line): seq<Line>
  {
    if lines == [] then [next]
    else if Joins(lines[0], next) then [Joined(lines[0], next)] + lines[1..]
    else [lines[0]] + Pushed(lines[1..], next)
  }

  lemma {:induction false} PushedAt(lines: seq<Line>, i: nat, next: Line)
    requires i <= |lines| && forall j | 0 <= j < i :: !Joins(lines[j], next)
    ensures i == |lines| ==> Pushed(lines, next) == lines + [next]
    ensures i < |lines| && Joins(lines[i], next) ==> Pushed(lines, next) == lines[i := Joined(lines[i], next)]
  {
    if i > 0 {
      PushedAt(lines[1..], i - 1, next);
      assert lines == [lines[0]] + lines[1..];
    }
  }

  /** The lines queued for each file. */
  class Queue<Path(==)> {
    var files: map<Path, seq<Line>>

    constructor ()
      ensures files == map[]
    {
      files := map[];
    }

    method PushLine(path: Path, line: Line)
      modifies this
      ensures files == old(files)[path := Pushed(if path in old(files) then old(files)[path] else [], line)]
    {
      var lines := if path in files then files[path] else [];
      var i: nat := 0;
      while i < |lines|
        invariant i <= |lines| && forall j | 0 <= j < i :: !Joins(lines[j], line)
        invariant files == old(files)
      {
        if lines[i].line == line.line && line.kind.Mark? && lines[i].kind.Mark? {
          var ok, d := Merge(lines[i].kind.directive, line.kind.directive);
          if ok {
            PushedAt(lines, i, line);
            files := files[path := lines[i := lines[i].(kind := lines[i].kind.(directive := d))]];
            return;
          }
        }
        i := i + 1;
      }
      PushedAt(lines, i, line);
      files := files[path := lines + [line]];
    }
  }

  // ---------- What a run of pushes keeps ----------

  function PushAll(pushes: seq<Line>): seq<Line>
  {
    if pushes == [] then [] else Pushed(PushAll(pushes[..|pushes| - 1]), pushes[|pushes| - 1])
  }

  /** The error codes expected of a backend for a kind of failure at a place, in
      order. */
  function Codes(lines: seq<Line>, n: nat, k: FailureKind, b: Backend): seq<ErrorCode>
  {
    if lines == [] then [] else LineCodes(lines[0], n, k, b) + Codes(lines[1..], n, k, b)
  }

  function LineCodes(l: Line, n: nat, k: FailureKind, b: Backend): seq<ErrorCode>
  {
    if Expects(l, n, k) then At(l.kind.directive.backends, b) else []
  }

  predicate Merges(l: Line) { l.kind.Mark? && l.kind.directive.Failure? }

  /** The lines that never merge, in order. */
  function Others(lines: seq<Line>): seq<Line>
  {
    if lines == [] then [] else (if Merges(lines[0]) then [] else [lines[0]]) + Others(lines[1..])
  }

  /** No place expects a kind of failure twice. */
  predicate OneEach(lines: seq<Line>)
  {
    forall i, j | 0 <= i < j < |lines| :: !Joins(lines[i], lines[j])
  }

  lemma {:induction false} CodesAppend(a: seq<Line>, b: seq<Line>, n: nat, k: FailureKind, name: Backend)
    ensures Codes(a + b, n, k, name) == Codes(a, n, k, name) + Codes(b, n, k, name)
  {
    if a == [] {
      assert a + b == b;
    } else {
      assert (a + b)[1..] == a[1..] + b;
      CodesAppend(a[1..], b, n, k, name);
    }
  }

  lemma {:induction false} OthersAppend(a: seq<Line>, b: seq<Line>)
    ensures Others(a + b) == Others(a) + Others(b)
  {
    if a == [] {
      assert a + b == b;
    } else {
      assert (a + b)[1..] == a[1..] + b;
      OthersAppend(a[1..], b);
    }
  }

  lemma {:induction false} NoCodes(lines: seq<Line>, n: nat, k: FailureKind, b: Backend)
    requires forall i | 0 <= i < |lines| :: !Expects(lines[i], n, k)
    ensures Codes(lines, n, k, b) == []
  {
    if lines != [] { NoCodes(lines[1..], n, k, b); }
  }

  lemma {:induction false} PushKeepsCodes(lines: seq<Line>, next: Line, n: nat, k: FailureKind, b: Backend)
    requires OneEach(lines)
    ensures Codes(Pushed(lines, next), n, k, b) == Codes(lines, n, k, b) + Codes([next], n, k, b)
  {
    if lines == [] {
      assert Pushed(lines, next) == [next];
    } else if Joins(lines[0], next) {
      if Expects(next, n, k) { NoCodes(lines[1..], n, k, b); }
      PushJoined(lines[0], lines[1..], next, n, k, b);
      assert lines == [lines[0]] + lines[1..];
    } else {
      PushKeepsCodes(lines[1..], next, n, k, b);
      PushPast(lines[0], lines[1..], Pushed(lines[1..], next), next, n, k, b);
      assert lines == [lines[0]] + lines[1..];
    }
  }

  lemma PushJoined(l: Line, rest: seq<Line>, next: Line, n: nat, k: FailureKind, b: Backend)
    requires Joins(l, next) && (Expects(next, n, k) ==> Codes(rest, n, k, b) == [])
    ensures Codes([Joined(l, next)] + rest, n, k, b) == Codes([l] + rest, n, k, b) + Codes([next], n, k, b)
  {
    CodesCons(next, [], n, k, b);
    CodesCons(l, rest, n, k, b);
    CodesCons(Joined(l, next), rest, n, k, b);
    JoinedCodes(l, next, n, k, b);
    assert [next] + [] == [next];
  }

  lemma PushPast(l: Line, rest: seq<Line>, pushed: seq<Line>, next: Line, n: nat, k: FailureKind, b: Backend)
    requires Codes(pushed, n, k, b) == Codes(rest, n, k, b) + Codes([next], n, k, b)
    ensures Codes([l] + pushed, n, k, b) == Codes([l] + rest, n, k, b) + Codes([next], n, k, b)
  {
    CodesCons(l, rest, n, k, b);
    CodesCons(l, pushed, n, k, b);
  }

  lemma CodesCons(l: Line, ls: seq<Line>, n: nat, k: FailureKind, b: Backend)
    ensures Codes([l] + ls, n, k, b) == LineCodes(l, n, k, b) + Codes(ls, n, k, b)
  {
    assert ([l] + ls)[1..] == ls;
  }

  lemma JoinedCodes(l: Line, next: Line, n: nat, k: FailureKind, b: Backend)
    requires Joins(l, next)
    ensures LineCodes(Joined(l, next), n, k, b) == LineCodes(l, n, k, b) + LineCodes(next, n, k, b)
  {
  }

  lemma {:induction false} PushKeepsOthers(lines: seq<Line>, next: Line)
    ensures Others(Pushed(lines, next)) == Others(lines) + Others([next])
  {
    if lines == [] {
      assert Pushed(lines, next) == [next];
    } else if Joins(lines[0], next) {
      assert Pushed(lines, next)[1..] == lines[1..];
      assert Others([next]) == [];
    } else {
      PushKeepsOthers(lines[1..], next);
      assert Pushed(lines, next)[1..] == Pushed(lines[1..], next);
    }
  }

  lemma {:induction false} FirstJoin(lines: seq<Line>, next: Line) returns (i: nat)
    ensures i <= |lines| && (forall j | 0 <= j < i :: !Joins(lines[j], next)) && (i < |lines| ==> Joins(lines[i], next))
  {
    i := 0;
    while i < |lines| && !Joins(lines[i], next)
      invariant i <= |lines| && forall j | 0 <= j < i :: !Joins(lines[j], next)
    {
      i := i + 1;
    }
  }

  lemma PushKeepsOneEach(lines: seq<Line>, next: Line)
    requires OneEach(lines)
    ensures OneEach(Pushed(lines, next))
  {
    var at := FirstJoin(lines, next);
    PushedAt(lines, at, next);
    var pushed := Pushed(lines, next);
    forall i, j | 0 <= i < j < |pushed| ensures !Joins(pushed[i], pushed[j]) {
      if j < |lines| { assert !Joins(lines[i], lines[j]); }
    }
  }

  /** After any run of pushes to a file no line number holds two directives of one
      kind of failure; for every line number, kind and backend the error codes are
      those pushed, in the order pushed; and the other lines are untouched. */
  lemma {:induction false} RunOfPushes(pushes: seq<Line>)
    ensures OneEach(PushAll(pushes))
    ensures forall n, k, b :: Codes(PushAll(pushes), n, k, b) == Codes(pushes, n, k, b)
    ensures Others(PushAll(pushes)) == Others(pushes)
  {
    if pushes != [] {
      var last := |pushes| - 1;
      var before, next := pushes[..last], pushes[last];
      RunOfPushes(before);
      PushKeepsOneEach(PushAll(before), next);
      PushKeepsOthers(PushAll(before), next);
      OthersAppend(before, [next]);
      assert pushes == before + [next];
      forall n, k, b ensures Codes(PushAll(pushes), n, k, b) == Codes(pushes, n, k, b) {
        PushKeepsCodes(PushAll(before), next, n, k, b);
        CodesAppend(before, [next], n, k, b);
      }
    }
  }
}
