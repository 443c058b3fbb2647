/** Writing queued directives into a source file. How a directive is printed is
    the parameter `show`. */
module PromoteSave {
  import T = TextLines
  import opened Directives

  // ---------- The order of lines ----------

  /** Lines sort by number, and before a line of text come the directives with its
      number; the order says nothing more. */
  function Rank(l: Line): nat { 2 * l.line + if l.kind.Text? then 1 else 0 }

  predicate Sorted(ls: seq<Line>) { forall i, j | 0 <= i <= j < |ls| :: Rank(ls[i]) <= Rank(ls[j]) }

  function OfRank(ls: seq<Line>, k: nat): seq<Line>
  {
    if ls == [] then [] else OneOfRank(ls[0], k) + OfRank(ls[1..], k)
  }

  function OneOfRank(l: Line, k: nat): seq<Line> { if Rank(l) == k then [l] else [] }

  /** A stable sort: in order, and lines of equal rank keep theirs. */
  ghost predicate StableSortOf(r: seq<Line>, ls: seq<Line>)
  {
    Sorted(r) && forall k :: OfRank(r, k) == OfRank(ls, k)
  }

  lemma {:induction false} OfRankAppend(a: seq<Line>, b: seq<Line>, k: nat)
    ensures OfRank(a + b, k) == OfRank(a, k) + OfRank(b, k)
  {
    if a == [] {
      assert a + b == b;
    } else {
      assert (a + b)[1..] == a[1..] + b;
      OfRankAppend(a[1..], b, k);
    }
  }

  lemma OfRankCons(l: Line, ls: seq<Line>, k: nat)
    ensures OfRank([l] + ls, k) == OneOfRank(l, k) + OfRank(ls, k)
  {
    assert ([l] + ls)[1..] == ls;
  }

  lemma {:induction false} NoneOfRank(ls: seq<Line>, k: nat)
    requires forall i | 0 <= i < |ls| :: Rank(ls[i]) != k
    ensures OfRank(ls, k) == []
  {
    if ls != [] { NoneOfRank(ls[1..], k); }
  }

  lemma {:induction false} SomeOfRank(ls: seq<Line>, k: nat)
    requires OfRank(ls, k) != []
    ensures exists i | 0 <= i < |ls| :: Rank(ls[i]) == k
  {
    if Rank(ls[0]) != k {
      SomeOfRank(ls[1..], k);
      var i :| 0 <= i < |ls[1..]| && Rank(ls[1..][i]) == k;
      assert Rank(ls[i + 1]) == k;
    }
  }

  /** A stable sort has only one result. */
  lemma {:induction false} SortUnique(a: seq<Line>, b: seq<Line>)
    requires Sorted(a) && Sorted(b) && forall k :: OfRank(a, k) == OfRank(b, k)
    ensures a == b
  {
    HasRank(b);
    if a == [] {
      assert forall k :: OfRank(a, k) == [];
    } else {
      FirstRank(a, b);
      var k := Rank(a[0]);
      assert OfRank(a, k) == [a[0]] + OfRank(a[1..], k) && OfRank(b, k) == [b[0]] + OfRank(b[1..], k);
      assert a[0] == OfRank(a, k)[0] == OfRank(b, k)[0] == b[0];
      forall k ensures OfRank(a[1..], k) == OfRank(b[1..], k) {
        assert OfRank(a, k) == OfRank(b, k);
        assert OfRank(a[1..], k) == if Rank(a[0]) == k then OfRank(a, k)[1..] else OfRank(a, k);
        assert OfRank(b[1..], k) == if Rank(b[0]) == k then OfRank(b, k)[1..] else OfRank(b, k);
      }
      SortUnique(a[1..], b[1..]);
      assert a == [a[0]] + a[1..] && b == [b[0]] + b[1..];
    }
  }

  lemma HasRank(ls: seq<Line>)
    ensures ls != [] ==> exists k :: OfRank(ls, k) != []
  {
    if ls != [] { assert OfRank(ls, Rank(ls[0]))[0] == ls[0]; }
  }

  lemma FirstRank(a: seq<Line>, b: seq<Line>)
    requires a != [] && Sorted(a) && Sorted(b) && forall k :: OfRank(a, k) == OfRank(b, k)
    ensures b != [] && Rank(a[0]) == Rank(b[0])
  {
    assert OfRank(b, Rank(a[0])) == OfRank(a, Rank(a[0])) != [];
    assert b != [];
    SomeOfRank(b, Rank(a[0]));
    assert OfRank(a, Rank(b[0])) == OfRank(b, Rank(b[0])) != [];
    SomeOfRank(a, Rank(b[0]));
  }

  /** Puts a line after those of its rank. */
  function Insert(ls: seq<Line>, l: Line): (r: seq<Line>)
    ensures |r| == |ls| + 1 && forall i | 0 <= i < |r| :: r[i] == l || r[i] in ls
  {
    if ls == [] || Rank(l) < Rank(ls[0]) then [l] + ls else [ls[0]] + Insert(ls[1..], l)
  }

  lemma {:induction false} InsertSorted(ls: seq<Line>, l: Line)
    requires Sorted(ls)
    ensures Sorted(Insert(ls, l))
    ensures forall k :: OfRank(Insert(ls, l), k) == OfRank(ls, k) + OfRank([l], k)
  {
    forall k ensures OfRank(Insert(ls, l), k) == OfRank(ls, k) + OfRank([l], k) {
      InsertRanks(ls, l, k);
    }
    if ls != [] && Rank(l) >= Rank(ls[0]) {
      InsertSorted(ls[1..], l);
      forall i | 0 <= i < |Insert(ls[1..], l)| ensures Rank(ls[0]) <= Rank(Insert(ls[1..], l)[i]) {
        assert Insert(ls[1..], l)[i] == l || Insert(ls[1..], l)[i] in ls[1..];
      }
    }
  }

  lemma {:induction false} InsertRanks(ls: seq<Line>, l: Line, k: nat)
    requires Sorted(ls)
    ensures OfRank(Insert(ls, l), k) == OfRank(ls, k) + OfRank([l], k)
  {
    if ls == [] || Rank(l) < Rank(ls[0]) {
      OfRankAppend([l], ls, k);
      if Rank(l) == k { NoneOfRank(ls, k); }
    } else {
      InsertRanks(ls[1..], l, k);
      OfRankCons(ls[0], Insert(ls[1..], l), k);
    }
  }

  lemma SortedOneMore(r: seq<Line>, ls: seq<Line>, l: Line)
    requires StableSortOf(r, ls)
    ensures StableSortOf(Insert(r, l), ls + [l])
  {
    InsertSorted(r, l);
    forall k ensures OfRank(Insert(r, l), k) == OfRank(ls + [l], k) {
      OfRankAppend(ls, [l], k);
    }
  }

  /** The library's stable sort, whose results `SortUnique` fixes. */
  method StableSort(ls: seq<Line>) returns (r: seq<Line>)
    ensures StableSortOf(r, ls)
  {
    r := [];
    ghost var done: seq<Line> := [];
    for i := 0 to |ls|
      invariant done == ls[..i] && StableSortOf(r, done)
    {
      SortedOneMore(r, done, ls[i]);
      r, done := Insert(r, ls[i]), done + [ls[i]];
    }
    assert done == ls;
  }

  // ---------- Erasing the directives ----------

  function Numbered(contents: seq<string>): (r: seq<Line>)
    ensures |r| == |contents| && forall i | 0 <= i < |r| :: r[i] == Line(i + 1, Text(contents[i]))
  {
    seq(|contents|, i requires 0 <= i < |contents| => Line(i + 1, Text(contents[i])))
  }

  predicate OnlyMarks(ls: seq<Line>) { forall i | 0 <= i < |ls| :: ls[i].kind.Mark? }

  function Texts(ls: seq<Line>): seq<Line>
  {
    if ls == [] then [] else (if ls[0].kind.Text? then [ls[0]] else []) + Texts(ls[1..])
  }

  function Marks(ls: seq<Line>): seq<Line>
  {
    if ls == [] then [] else (if ls[0].kind.Mark? then [ls[0]] else []) + Marks(ls[1..])
  }

  lemma {:induction false} TextsRanks(ls: seq<Line>, k: nat)
    ensures OfRank(Texts(ls), k) == if k % 2 == 1 then OfRank(ls, k) else []
  {
    if ls != [] {
      TextsRanks(ls[1..], k);
      RankParity(ls[0]);
      if ls[0].kind.Text? {
        OfRankCons(ls[0], Texts(ls[1..]), k);
      } else {
        assert Texts(ls) == Texts(ls[1..]);
      }
    }
  }

  lemma {:induction false} TextsIn(ls: seq<Line>)
    ensures forall l <- Texts(ls) :: l in ls
  {
    if ls != [] { TextsIn(ls[1..]); }
  }

  lemma {:induction false} TextsSorted(ls: seq<Line>)
    requires Sorted(ls)
    ensures Sorted(Texts(ls))
  {
    if ls != [] {
      TextsSorted(ls[1..]);
      TextsIn(ls[1..]);
      var rest := Texts(ls[1..]);
      forall i | 0 <= i < |rest| ensures Rank(ls[0]) <= Rank(rest[i]) {
        assert rest[i] in ls[1..];
      }
      SortedCons(ls[0], rest);
      assert [] + rest == rest;
    }
  }

  lemma SortedCons(l: Line, ls: seq<Line>)
    requires Sorted(ls) && forall i | 0 <= i < |ls| :: Rank(l) <= Rank(ls[i])
    ensures Sorted([l] + ls)
  {
  }

  lemma {:induction false} MarksRanks(ls: seq<Line>, k: nat)
    ensures OfRank(Marks(ls), k) == if k % 2 == 0 then OfRank(ls, k) else []
  {
    if ls != [] {
      MarksRanks(ls[1..], k);
      RankParity(ls[0]);
      if ls[0].kind.Mark? {
        OfRankCons(ls[0], Marks(ls[1..]), k);
      } else {
        assert Marks(ls) == Marks(ls[1..]);
      }
    }
  }

  /** Directives have even ranks and text odd ones. */
  lemma RankParity(l: Line)
    ensures Rank(l) % 2 == 0 <==> l.kind.Mark?
  {
  }

  lemma MarkRanks(queued: seq<Line>, contents: seq<string>, k: nat)
    requires OnlyMarks(queued)
    ensures OfRank(queued + Numbered(contents), k)
      == if k % 2 == 1 then OfRank(Numbered(contents), k) else OfRank(queued, k)
  {
    OfRankAppend(queued, Numbered(contents), k);
    if k % 2 == 1 { NoneOfRank(queued, k); } else { NoneOfRank(Numbered(contents), k); }
  }

  /** Erasing the directives from the sorted lines gives back the file, line by
      line; what was erased are the queued directives, those with one number in the
      order queued; and a directive stands after the file's lines with smaller
      numbers and before the others. */
  lemma Erased(queued: seq<Line>, contents: seq<string>, r: seq<Line>)
    requires OnlyMarks(queued) && StableSortOf(r, queued + Numbered(contents))
    ensures Texts(r) == Numbered(contents)
    ensures forall n: nat :: OfRank(Marks(r), 2 * n) == OfRank(queued, 2 * n)
    ensures forall i, j | 0 <= i < |r| && 0 <= j < |r| && r[i].kind.Mark? && r[j].kind.Text? ::
      i < j <==> r[i].line <= r[j].line
  {
    ErasedTexts(queued, contents, r);
    ErasedMarks(queued, contents, r);
    MarksStand(r);
  }

  lemma ErasedMarks(queued: seq<Line>, contents: seq<string>, r: seq<Line>)
    requires OnlyMarks(queued) && StableSortOf(r, queued + Numbered(contents))
    ensures forall n: nat :: OfRank(Marks(r), 2 * n) == OfRank(queued, 2 * n)
  {
    forall n: nat ensures OfRank(Marks(r), 2 * n) == OfRank(queued, 2 * n) {
      MarksRanks(r, 2 * n);
      MarkRanks(queued, contents, 2 * n);
    }
  }

  lemma ErasedTexts(queued: seq<Line>, contents: seq<string>, r: seq<Line>)
    requires OnlyMarks(queued) && StableSortOf(r, queued + Numbered(contents))
    ensures Texts(r) == Numbered(contents)
  {
    TextsSorted(r);
    forall k ensures OfRank(Texts(r), k) == OfRank(Numbered(contents), k) {
      ErasedRank(queued, contents, r, k);
    }
    SortUnique(Texts(r), Numbered(contents));
  }

  lemma ErasedRank(queued: seq<Line>, contents: seq<string>, r: seq<Line>, k: nat)
    requires OnlyMarks(queued) && OfRank(r, k) == OfRank(queued + Numbered(contents), k)
    ensures OfRank(Texts(r), k) == OfRank(Numbered(contents), k)
  {
    TextsRanks(r, k);
    MarkRanks(queued, contents, k);
    if k % 2 == 0 { NoneOfRank(Numbered(contents), k); }
  }

  lemma MarksStand(r: seq<Line>)
    requires Sorted(r)
    ensures forall i, j | 0 <= i < |r| && 0 <= j < |r| && r[i].kind.Mark? && r[j].kind.Text? ::
      i < j <==> r[i].line <= r[j].line
  {
    forall i, j | 0 <= i < |r| && 0 <= j < |r| && r[i].kind.Mark? && r[j].kind.Text?
      ensures i < j <==> r[i].line <= r[j].line
    {
      assert i <= j ==> Rank(r[i]) <= Rank(r[j]);
      assert j <= i ==> Rank(r[j]) <= Rank(r[i]);
    }
  }

  // ---------- The written text ----------

  function StripReturn(l: string): string { if l != "" && l[|l| - 1] == '\r' then l[..|l| - 1] else l }

  function StripReturns(ls: seq<string>): (r: seq<string>)
    ensures |r| == |ls| && forall i | 0 <= i < |r| :: r[i] == StripReturn(ls[i])
  {
    seq(|ls|, i requires 0 <= i < |ls| => StripReturn(ls[i]))
  }

  /** `str::lines`: a line break ends a line, with the carriage return before it;
      what follows the last break is a line unless it is empty. */
  function ReadLines(text: string): seq<string>
  {
    var parts := T.Split(text);
    var last := |parts| - 1;
    StripReturns(parts[..last]) + if parts[last] == "" then [] else [parts[last]]
  }

  function Written(ls: seq<string>): string
  {
    var contents := T.Join(ls);
    if contents != "" && contents[|contents| - 1] == '\n' then contents else contents + "\n"
  }

  function Show(l: Line, show: (Directive, bool) -> string): string
  {
    match l.kind
    case Text(s) => s
    case Mark(d, bang) => show(d, bang)
  }

  function Shown(ls: seq<Line>, show: (Directive, bool) -> string): (r: seq<string>)
    ensures |r| == |ls| && forall i | 0 <= i < |r| :: r[i] == Show(ls[i], show)
  {
    seq(|ls|, i requires 0 <= i < |ls| => Show(ls[i], show))
  }

  /** The new contents of one file with queued lines. */
  method Save(queued: seq<Line>, file: string, show: (Directive, bool) -> string) returns (contents: string)
    ensures exists r :: StableSortOf(r, queued + Numbered(ReadLines(file))) && contents == Written(Shown(r, show))
  {
    var lines := StableSort(queued + Numbered(ReadLines(file)));
    contents := Written(Shown(lines, show));
  }

  /** The last of two or more lines is empty. */
  predicate EndsEmpty(ls: seq<string>) { |ls| >= 2 && ls[|ls| - 1] == "" }

  /** What a reader of the written file finds: an empty last line is lost. */
  lemma ReadWritten(ls: seq<string>)
    requires T.Lines(ls)
    ensures ReadLines(Written(ls)) == StripReturns(if EndsEmpty(ls) then ls[..|ls| - 1] else ls)
  {
    LastBreak(ls);
    if EndsEmpty(ls) {
      T.SplitJoin(ls);
      ReadParts(Written(ls), ls[..|ls| - 1]);
    } else {
      BreakAdded(ls);
      ReadParts(Written(ls), ls);
    }
  }

  lemma BreakAdded(ls: seq<string>)
    requires T.Lines(ls)
    ensures T.Split(T.Join(ls) + "\n") == ls + [""]
  {
    T.JoinAppend(ls, [""]);
    T.SplitJoin(ls + [""]);
    assert T.Join(ls) + "\n" + "" == T.Join(ls) + "\n";
  }

  lemma ReadParts(text: string, ls: seq<string>)
    requires T.Split(text) == ls + [""]
    ensures ReadLines(text) == StripReturns(ls)
  {
    assert (ls + [""])[..|ls|] == ls;
  }

  lemma {:induction false} LastBreak(ls: seq<string>)
    requires T.Lines(ls)
    ensures var text := T.Join(ls); (text != "" && text[|text| - 1] == '\n') <==> EndsEmpty(ls)
  {
    if |ls| == 1 {
      T.NoBreaks(ls[0]);
    } else {
      var front, last := ls[..|ls| - 1], ls[|ls| - 1];
      T.CutAt(ls, |front|);
      T.NoBreaks(last);
      assert ls[|front|..] == [last];
      assert T.Join([last]) == last;
    }
  }

  /** Saving keeps every line, to a later reader, if and only if the sorted lines do
      not end with an empty one and none ends with a carriage return. */
  lemma SavedExactly(ls: seq<string>)
    requires T.Lines(ls)
    ensures ReadLines(Written(ls)) == ls <==> !EndsEmpty(ls) && NoReturns(ls)
  {
    ReadWritten(ls);
  }

  // ---------- What a reader of the saved file finds ----------

  /** A queued directive prints as one line that a reader leaves as it is. */
  predicate PrintsPlain(l: Line, show: (Directive, bool) -> string)
  {
    l.kind.Mark? && Show(l, show) != "" && T.OneLine(Show(l, show)) && StripReturn(Show(l, show)) == Show(l, show)
  }

  predicate NoReturns(ls: seq<string>) { forall i | 0 <= i < |ls| :: StripReturn(ls[i]) == ls[i] }

  /** A condition on what `save` is given: the file's last line is not empty, or a
      directive is queued past the end of the file. */
  predicate EndStays(queued: seq<Line>, contents: seq<string>)
  {
    contents == [] || contents[|contents| - 1] != "" || exists q <- queued :: q.line > |contents|
  }

  lemma {:induction false} InItsRank(ls: seq<Line>, l: Line)
    ensures l in ls <==> l in OfRank(ls, Rank(l))
  {
    if ls != [] { InItsRank(ls[1..], l); }
  }

  /** Sorting keeps the elements. */
  lemma SameElements(r: seq<Line>, ls: seq<Line>)
    requires StableSortOf(r, ls)
    ensures forall l :: l in r <==> l in ls
  {
    forall l ensures l in r <==> l in ls {
      InItsRank(r, l);
      InItsRank(ls, l);
    }
  }

  lemma {:induction false} LastText(r: seq<Line>)
    requires r != [] && r[|r| - 1].kind.Text?
    ensures Texts(r) != [] && Texts(r)[|Texts(r)| - 1] == r[|r| - 1]
  {
    if |r| > 1 { LastText(r[1..]); }
  }

  lemma PlainLines(file: string)
    ensures T.OneLines(ReadLines(file))
  {
    var parts := T.Split(file);
    var front := parts[..|parts| - 1];
    forall i | 0 <= i < |front| ensures T.OneLine(StripReturns(front)[i]) {
      assert T.OneLine(parts[i]);
    }
  }

  /** Whether the last sorted line is an empty line of the file. */
  lemma EndOfSorted(queued: seq<Line>, contents: seq<string>, r: seq<Line>, show: (Directive, bool) -> string)
    requires queued != [] && (forall q <- queued :: PrintsPlain(q, show))
    requires StableSortOf(r, queued + Numbered(contents))
    ensures r != [] && (EndsEmpty(Shown(r, show)) <==> !EndStays(queued, contents))
  {
    SameElements(r, queued + Numbered(contents));
    assert queued[0] in r;
    PlainMarks(queued, show);
    Erased(queued, contents, r);
    var end := r[|r| - 1];
    if end.kind.Text? {
      LastText(r);
      assert end == Numbered(contents)[|contents| - 1];
      forall q <- queued ensures q.line <= |contents| { BeforeEnd(r, q); }
      assert |r| >= 2;
    } else {
      assert end in r && end in queued + Numbered(contents);
      assert end in queued;
      if contents != [] { AfterText(r, Numbered(contents)[|contents| - 1]); }
    }
  }

  lemma PlainMarks(queued: seq<Line>, show: (Directive, bool) -> string)
    requires forall q <- queued :: PrintsPlain(q, show)
    ensures OnlyMarks(queued)
  {
    forall i | 0 <= i < |queued| ensures queued[i].kind.Mark? {
      assert queued[i] in queued;
    }
  }

  lemma BeforeEnd(r: seq<Line>, q: Line)
    requires Sorted(r) && q in r && q.kind.Mark? && r[|r| - 1].kind.Text?
    ensures q.line <= r[|r| - 1].line
  {
    var i :| 0 <= i < |r| && r[i] == q;
    assert Rank(r[i]) <= Rank(r[|r| - 1]);
  }

  lemma AfterText(r: seq<Line>, l: Line)
    requires Sorted(r) && l in r && l.kind.Text? && r[|r| - 1].kind.Mark?
    ensures r[|r| - 1].line > l.line
  {
    var i :| 0 <= i < |r| && r[i] == l;
    assert Rank(r[i]) <= Rank(r[|r| - 1]);
  }

  lemma ShownPlain(queued: seq<Line>, contents: seq<string>, r: seq<Line>, show: (Directive, bool) -> string)
    requires (forall q <- queued :: PrintsPlain(q, show)) && T.OneLines(contents)
    requires forall l :: l in r <==> l in queued + Numbered(contents)
    ensures T.OneLines(Shown(r, show)) && (NoReturns(Shown(r, show)) <==> NoReturns(contents))
  {
    forall i | 0 <= i < |r|
      ensures T.OneLine(Shown(r, show)[i])
      ensures NoReturns(contents) ==> StripReturn(Shown(r, show)[i]) == Shown(r, show)[i]
    {
      assert r[i] in r;
      assert r[i] in queued || r[i] in Numbered(contents);
    }
    forall k | 0 <= k < |contents| ensures exists i | 0 <= i < |r| :: Shown(r, show)[i] == contents[k] {
      assert Numbered(contents)[k] in r;
      var i :| 0 <= i < |r| && r[i] == Numbered(contents)[k];
      assert Shown(r, show)[i] == contents[k];
    }
  }

  /** A reader of the saved file finds every line of it, so that erasing the
      directives leaves the lines of the old file, if and only if no line of the old
      file ends in a carriage return and its end stays. */
  lemma SavedFile(queued: seq<Line>, file: string, show: (Directive, bool) -> string, saved: string)
    returns (r: seq<Line>)
    requires queued != [] && (forall q <- queued :: PrintsPlain(q, show))
    requires exists r :: StableSortOf(r, queued + Numbered(ReadLines(file))) && saved == Written(Shown(r, show))
    ensures Texts(r) == Numbered(ReadLines(file))
    ensures forall n: nat :: OfRank(Marks(r), 2 * n) == OfRank(queued, 2 * n)
    ensures ReadLines(saved) == Shown(r, show)
      <==> NoReturns(ReadLines(file)) && EndStays(queued, ReadLines(file))
  {
    var contents := ReadLines(file);
    r :| StableSortOf(r, queued + Numbered(contents)) && saved == Written(Shown(r, show));
    PlainMarks(queued, show);
    Erased(queued, contents, r);
    SameElements(r, queued + Numbered(contents));
    PlainLines(file);
    ShownPlain(queued, contents, r, show);
    EndOfSorted(queued, contents, r, show);
    SavedExactly(Shown(r, show));
  }

  /** The new file, and what a reader finds in it. */
  method SaveThenRead(queued: seq<Line>, file: string, show: (Directive, bool) -> string)
    returns (lines: seq<string>, ghost r: seq<Line>)
    requires queued != [] && (forall q <- queued :: PrintsPlain(q, show))
    ensures Texts(r) == Numbered(ReadLines(file))
    ensures forall n: nat :: OfRank(Marks(r), 2 * n) == OfRank(queued, 2 * n)
    ensures lines == Shown(r, show) <==> NoReturns(ReadLines(file)) && EndStays(queued, ReadLines(file))
  {
    var saved := Save(queued, file, show);
    r := SavedFile(queued, file, show, saved);
    lines := ReadLines(saved);
  }

  /** A file ending in a blank line loses it, whatever is queued above. */
  lemma BlankLineLost(l: Line, r: seq<Line>, show: (Directive, bool) -> string)
    requires l.line == 0 && l.kind.Mark? && T.OneLine(Show(l, show)) && StripReturn(Show(l, show)) == Show(l, show)
    requires StableSortOf(r, [l] + Numbered(ReadLines("a\n\n")))
    ensures ReadLines("a\n\n") == ["a", ""] && ReadLines(Written(Shown(r, show))) == [Show(l, show), "a"]
  {
    ReadExample();
    var lines := [l] + Numbered(["a", ""]);
    assert Rank(lines[0]) == 0 && Rank(lines[1]) == 3 && Rank(lines[2]) == 5;
    assert Sorted(lines);
    SortUnique(r, lines);
    ShownExample(l, show);
  }

  lemma ShownExample(l: Line, show: (Directive, bool) -> string)
    requires l.kind.Mark? && T.OneLine(Show(l, show)) && StripReturn(Show(l, show)) == Show(l, show)
    ensures ReadLines(Written(Shown([l] + Numbered(["a", ""]), show))) == [Show(l, show), "a"]
  {
    assert Shown([l] + Numbered(["a", ""]), show) == [Show(l, show), "a", ""];
    LoseLast(Show(l, show));
  }

  lemma LoseLast(first: string)
    requires T.OneLine(first) && StripReturn(first) == first
    ensures ReadLines(Written([first, "a", ""])) == [first, "a"]
  {
    ReadWritten([first, "a", ""]);
    assert [first, "a", ""][..2] == [first, "a"];
  }

  lemma ReadExample()
    ensures ReadLines("a\n\n") == ["a", ""]
  {
    T.SplitJoin(["a", "", ""]);
    assert ["a", "", ""][1..] == ["", ""] && ["", ""][1..] == [""];
    assert T.Join(["", ""]) == "\n";
    assert T.Join(["a", "", ""]) == "a\n\n";
    assert ["a", "", ""][..2] == ["a", ""];
  }
}
