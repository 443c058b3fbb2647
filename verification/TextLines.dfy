/** A text as its lines, and searching it from the right. */
module TextLines {
  import opened Wrappers

  type Line = string

  predicate OneLine(l: Line) { '\n' !in l }

  predicate OneLines(ls: seq<Line>) { forall i | 0 <= i < |ls| :: OneLine(ls[i]) }

  predicate Lines(ls: seq<Line>) { |ls| >= 1 && OneLines(ls) }

  function Split(text: string): (ls: seq<Line>)
    ensures Lines(ls)
  {
    if text == "" then [""]
    else
      var rest := Split(text[1..]);
      if text[0] == '\n' then [""] + rest else [[text[0]] + rest[0]] + rest[1..]
  }

  function Join(ls: seq<Line>): string
  {
    if |ls| == 0 then "" else if |ls| == 1 then ls[0] else ls[0] + "\n" + Join(ls[1..])
  }

  lemma {:induction false} JoinSplit(text: string)
    ensures Join(Split(text)) == text
  {
    if text != "" {
      var rest := Split(text[1..]);
      JoinSplit(text[1..]);
      if text[0] == '\n' {
        assert Split(text)[1..] == rest;
        assert text == "\n" + text[1..];
      } else {
        JoinFirst(text[0], rest);
        assert text == [text[0]] + text[1..];
      }
    }
  }

  lemma JoinFirst(c: char, ls: seq<Line>)
    requires |ls| >= 1
    ensures Join([[c] + ls[0]] + ls[1..]) == [c] + Join(ls)
  {
    if |ls| > 1 {
      var longer := [[c] + ls[0]] + ls[1..];
      assert longer[1..] == ls[1..] && longer[0] == [c] + ls[0];
      Shift(c, ls[0], Join(ls[1..]));
    }
  }

  lemma Shift(c: char, l: Line, text: string)
    ensures ([c] + l) + "\n" + text == [c] + (l + "\n" + text)
  {
    assert ([c] + l) + "\n" == [c] + (l + "\n");
  }

  lemma NoBreaks(l: Line)
    requires OneLine(l)
    ensures forall i | 0 <= i < |l| :: l[i] != '\n'
  {
    forall i | 0 <= i < |l| ensures l[i] != '\n' { assert l[i] in l; }
  }

  lemma {:induction false} SplitJoin(ls: seq<Line>)
    requires Lines(ls)
    ensures Split(Join(ls)) == ls
  {
    if |ls| == 1 {
      SplitOneLine(ls[0]);
      assert ls == [ls[0]];
    } else {
      SplitJoin(ls[1..]);
      SplitFirst(ls[0], Join(ls[1..]));
      assert ls == [ls[0]] + ls[1..];
    }
  }

  lemma {:induction false} SplitOneLine(l: Line)
    requires OneLine(l)
    ensures Split(l) == [l]
  {
    if l != "" {
      assert l[0] in l;
      SplitOneLine(l[1..]);
      assert l == [l[0]] + l[1..];
    }
  }

  lemma {:induction false} SplitFirst(l: Line, text: string)
    requires OneLine(l)
    ensures Split(l + "\n" + text) == [l] + Split(text)
  {
    var all := l + "\n" + text;
    if l == "" {
      assert all[1..] == text;
    } else {
      assert l[0] in l;
      SplitFirst(l[1..], text);
      assert all[1..] == l[1..] + "\n" + text;
      assert l == [l[0]] + l[1..];
    }
  }

  lemma {:induction false} JoinAppend(a: seq<Line>, b: seq<Line>)
    requires |a| >= 1 && |b| >= 1
    ensures Join(a + b) == Join(a) + "\n" + Join(b)
  {
    if |a| == 1 {
      assert (a + b)[1..] == b;
    } else {
      assert (a + b)[1..] == a[1..] + b;
      JoinAppend(a[1..], b);
      assert Join(a + b) == a[0] + "\n" + (Join(a[1..]) + "\n" + Join(b));
      assert Join(a) == a[0] + "\n" + Join(a[1..]);
    }
  }

  // ---------- str.rfind ----------

  predicate At(text: string, needle: string, p: nat) { p <= |text| && needle <= text[p..] }

  predicate IsLast(text: string, needle: string, r: Option<nat>)
  {
    match r
    case None => forall q: nat | q <= |text| :: !At(text, needle, q)
    case Some(p) => At(text, needle, p) && forall q: nat | p < q <= |text| :: !At(text, needle, q)
  }

  method RFind(text: string, needle: string) returns (r: Option<nat>)
    ensures IsLast(text, needle, r)
  {
    var p: nat := |text|;
    while true
      invariant 0 <= p <= |text| && forall q: nat | p < q <= |text| :: !At(text, needle, q)
      decreases p
    {
      if needle <= text[p..] { return Some(p); }
      if p == 0 { return None; }
      p := p - 1;
    }
  }

  /** The last line, not the first of all, that starts with the marker. */
  predicate LastMarked(ls: seq<Line>, marker: Line, m: nat)
  {
    1 <= m < |ls| && marker <= ls[m] && forall k | m < k < |ls| :: !(marker <= ls[k])
  }

  /** Every line break of a text lies between two of its lines. */
  lemma {:induction false} BreakAt(ls: seq<Line>, q: nat) returns (m: nat)
    requires Lines(ls) && q < |Join(ls)| && Join(ls)[q] == '\n'
    ensures 1 <= m < |ls| && q == |Join(ls[..m])| && Join(ls)[q + 1..] == Join(ls[m..])
  {
    NoBreaks(ls[0]);
    if q == |ls[0]| {
      m := 1;
      assert ls[..1] == [ls[0]];
    } else {
      var rest := ls[1..];
      var p := q - |ls[0]| - 1;
      var k := BreakAt(rest, p);
      m := k + 1;
      JoinAppend([ls[0]], rest[..k]);
      assert ls[..m] == [ls[0]] + rest[..k];
      assert ls[m..] == rest[k..];
      assert Join(ls) == (ls[0] + "\n") + Join(rest);
      assert Join(ls)[q + 1..] == Join(rest)[p + 1..];
    }
  }

  lemma CutAt(ls: seq<Line>, m: nat)
    requires 1 <= m < |ls|
    ensures Join(ls) == Join(ls[..m]) + "\n" + Join(ls[m..])
  {
    JoinAppend(ls[..m], ls[m..]);
    assert ls == ls[..m] + ls[m..];
  }

  lemma MarkedIff(ls: seq<Line>, marker: Line)
    requires |ls| >= 1 && OneLine(marker)
    ensures marker <= Join(ls) <==> marker <= ls[0]
  {
    NoBreaks(marker);
    if |ls| > 1 {
      assert Join(ls) == ls[0] + ("\n" + Join(ls[1..]));
      assert Join(ls)[|ls[0]|] == '\n';
      assert marker <= Join(ls) ==> forall i | 0 <= i < |marker| :: marker[i] == Join(ls)[i];
      assert marker <= Join(ls) ==> |marker| <= |ls[0]|;
    }
  }

  /** A line starting with the marker is a place where the text holds a line break
      and the marker. */
  lemma MarkedAt(ls: seq<Line>, marker: Line, m: nat)
    requires Lines(ls) && OneLine(marker) && 1 <= m < |ls|
    ensures At(Join(ls), "\n" + marker, |Join(ls[..m])|) <==> marker <= ls[m]
  {
    CutAt(ls, m);
    MarkedIff(ls[m..], marker);
    var p := |Join(ls[..m])|;
    assert Join(ls)[p..] == "\n" + Join(ls[m..]);
    assert marker <= Join(ls[m..]) ==> "\n" + marker <= "\n" + Join(ls[m..]);
    assert "\n" + marker <= "\n" + Join(ls[m..]) ==> marker == ("\n" + marker)[1..] <= Join(ls[m..]);
  }

  lemma Shorter(ls: seq<Line>, a: nat, b: nat)
    requires 1 <= a < b <= |ls|
    ensures |Join(ls[..a])| < |Join(ls[..b])|
  {
    CutAt(ls[..b], a);
    assert ls[..b][..a] == ls[..a];
  }

  /** Searching the text for a line break followed by the marker finds the last
      line, after the first one, that starts with the marker. */
  lemma RFindLine(ls: seq<Line>, marker: Line, r: Option<nat>)
    requires Lines(ls) && OneLine(marker) && IsLast(Join(ls), "\n" + marker, r)
    ensures r.None? ==> forall m | 1 <= m < |ls| :: !(marker <= ls[m])
    ensures r.Some? ==> exists m: nat | m <= |ls| :: LastMarked(ls, marker, m) && r.value == |Join(ls[..m])|
  {
    var text := Join(ls);
    if r.None? {
      forall m | 1 <= m < |ls| ensures !(marker <= ls[m]) {
        MarkedAt(ls, marker, m);
        CutAt(ls, m);
      }
    } else {
      var p := r.value;
      assert ("\n" + marker)[0] == text[p..][0] == text[p];
      var m := BreakAt(ls, p);
      MarkedAt(ls, marker, m);
      forall k | m < k < |ls| ensures !(marker <= ls[k]) {
        MarkedAt(ls, marker, k);
        Shorter(ls, m, k);
        CutAt(ls, k);
      }
      assert LastMarked(ls, marker, m);
    }
  }
}
