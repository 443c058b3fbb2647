/** Rewriting generated Lean files block by block: a documentation comment, its
    attributes, a definition and its body. */
module LeanBlocks {
  import opened Wrappers
  import opened TextLines

  // ---------- Lines ----------

  predicate Space(c: char)
  {
    var k := c as int;
    || 9 <= k <= 13 || 28 <= k <= 32 || k == 133 || k == 160 || k == 5760 || 8192 <= k <= 8202
    || k == 8232 || k == 8233 || k == 8239 || k == 8287 || k == 12288
  }

  predicate Blank(l: Line) { forall i | 0 <= i < |l| :: Space(l[i]) }

  function RStrip(l: string): (r: string)
    ensures r <= l && Blank(l[|r|..]) && (r != [] ==> !Space(r[|r| - 1]))
  {
    if l != [] && Space(l[|l| - 1]) then RStrip(l[..|l| - 1]) else l
  }

  predicate EndsWith(l: Line, suffix: Line) { |suffix| <= |l| && l[|l| - |suffix|..] == suffix }

  predicate Keyword(l: Line)
  {
    || "def " <= l || "structure " <= l || "inductive " <= l || "abbrev " <= l || "instance " <= l
    || "theorem " <= l || "noncomputable def " <= l
  }

  predicate Attribute(l: Line) { "@[" <= l }

  predicate NotAttribute(l: Line) { !Attribute(l) }

  predicate Doc(l: Line) { "/--" <= l }

  predicate DocEnds(l: Line) { EndsWith(RStrip(l), "-/") }

  /** What ends the body of a block. */
  predicate TopLevel(l: Line) { Doc(l) || Attribute(l) || Keyword(l) || "end " <= l || RStrip(l) == "end" }

  lemma DocNotBlank(l: Line)
    requires Doc(l)
    ensures !Blank(l)
  {
    assert l[0] == '/';
  }

  lemma OneStart(l: Line)
    requires Doc(l)
    ensures !Attribute(l) && !Keyword(l)
  {
    assert l[0] == '/';
  }

  /** A definition begins with one of these words and a blank. */
  lemma KeywordsAre(l: Line)
    ensures Keyword(l) <==>
      || Begins(l, "def ") || Begins(l, "structure ") || Begins(l, "inductive ") || Begins(l, "abbrev ")
      || Begins(l, "instance ") || Begins(l, "theorem ") || Begins(l, "noncomputable def ")
    ensures Attribute(l) <==> Begins(l, "@[")
    ensures Doc(l) <==> Begins(l, "/--")
  {
  }

  predicate Begins(l: Line, word: string) { |word| <= |l| && forall i | 0 <= i < |word| :: l[i] == word[i] }

  /** A text that ends with white space begins with what is left when it is stripped. */
  lemma {:induction false} StripsTo(a: string, w: string)
    requires a != "" && !Space(a[|a| - 1]) && Blank(w)
    ensures RStrip(a + w) == a
    decreases |w|
  {
    if w == "" {
      assert a + w == a;
    } else {
      StripsTo(a, w[..|w| - 1]);
      assert (a + w)[..|a + w| - 1] == a + w[..|w| - 1];
    }
  }

  /** A line closes a comment if `-/` is the last of it that is not white space. */
  lemma DocEndsIff(l: Line)
    ensures DocEnds(l) <==> exists a, w :: l == a + "-/" + w && Blank(w)
  {
    if DocEnds(l) {
      var r := RStrip(l);
      assert l == r[..|r| - 2] + "-/" + l[|r|..];
    }
    if a, w :| l == a + "-/" + w && Blank(w) {
      StripsTo(a + "-/", w);
    }
  }

  /** A body ends before a comment, an attribute, a definition, or an `end` that stands
      alone or has a blank after it. */
  lemma TopLevelIff(l: Line)
    ensures TopLevel(l) <==>
      Doc(l) || Attribute(l) || Keyword(l) || Begins(l, "end ") || exists w :: l == "end" + w && Blank(w)
  {
    if RStrip(l) == "end" { assert l == "end" + l[3..]; }
    if w :| l == "end" + w && Blank(w) { StripsTo("end", w); }
  }

  // ---------- Where a block ends ----------

  /** The first line from `j` on where the predicate holds, or the end. */
  function FirstWhere(lines: seq<Line>, j: nat, p: Line -> bool): (k: nat)
    requires j <= |lines|
    ensures j <= k <= |lines| && (k < |lines| ==> p(lines[k]))
    ensures forall i | j <= i < k :: !p(lines[i])
    decreases |lines| - j
  {
    if j == |lines| || p(lines[j]) then j else FirstWhere(lines, j + 1, p)
  }

  /** Whether the predicate holds anywhere from `j` on. */
  predicate Somewhere(lines: seq<Line>, j: nat, p: Line -> bool)
  {
    exists k | j <= k < |lines| :: p(lines[k])
  }

  lemma FoundIff(lines: seq<Line>, j: nat, p: Line -> bool)
    requires j <= |lines|
    ensures FirstWhere(lines, j, p) < |lines| <==> Somewhere(lines, j, p)
  {
    var k := FirstWhere(lines, j, p);
    assert k < |lines| ==> p(lines[k]);
  }

  /** One past the last non-blank line before `j`, not below `i`. */
  function Trimmed(lines: seq<Line>, i: nat, j: nat): (end: nat)
    requires i <= j <= |lines|
    ensures i <= end <= j && (end > i ==> !Blank(lines[end - 1])) && forall k | end <= k < j :: Blank(lines[k])
  {
    if j > i && Blank(lines[j - 1]) then Trimmed(lines, i, j - 1) else j
  }

  /** The head of a block: attributes and at most one keyword line. */
  function AfterHead(lines: seq<Line>, d: nat): (b: nat)
    requires d <= |lines|
    ensures d <= b <= |lines|
    ensures forall k | d <= k < b :: Attribute(lines[k]) || Keyword(lines[k])
  {
    var a := FirstWhere(lines, d, NotAttribute);
    if a < |lines| && Keyword(lines[a]) then a + 1 else a
  }

  /** All attributes are in the head, and of the keyword lines one at most. */
  lemma HeadShape(lines: seq<Line>, d: nat) returns (a: nat)
    requires d <= |lines|
    ensures var b := AfterHead(lines, d);
      && d <= a <= b <= a + 1 && (forall k | d <= k < a :: Attribute(lines[k]))
      && (a < |lines| ==> !Attribute(lines[a])) && (b == a + 1 <==> a < |lines| && Keyword(lines[a]))
  {
    a := FirstWhere(lines, d, NotAttribute);
  }

  /** `(end, j)`: the block is `lines[i..end]` and the blank lines after it run to
      `j`. For a documentation comment that is never closed the code indexes past
      the end of the list, an exception. */
  function BlockEnd(lines: seq<Line>, i: nat): (r: Option<(nat, nat)>)
    requires i < |lines| && Doc(lines[i])
    ensures r.Some? ==> i < r.value.0 <= r.value.1 <= |lines|
  {
    var d := FirstWhere(lines, i, DocEnds);
    if d == |lines| then None
    else
      DocNotBlank(lines[i]);
      Some(BodyEnd(lines, i, d))
  }

  /** The same, for a comment that closes on line `d`. */
  function BodyEnd(lines: seq<Line>, i: nat, d: nat): (nat, nat)
    requires i <= d < |lines|
  {
    var j := FirstWhere(lines, AfterHead(lines, d + 1), TopLevel);
    (Trimmed(lines, i, j), j)
  }

  /** A block whose head ends at `b` ends after a line that is not blank, before blank
      lines, and these before the first top-level line or the end of the file. */
  predicate EndsProperly(lines: seq<Line>, b: nat, end: nat, j: nat)
  {
    && 0 < end <= j <= |lines| && b <= j && !Blank(lines[end - 1])
    && (forall k | end <= k < j :: Blank(lines[k]))
    && (forall k | b <= k < j :: !TopLevel(lines[k])) && (j < |lines| ==> TopLevel(lines[j]))
  }

  /** Where the head of a block ends whose comment is closed. */
  function HeadEnd(lines: seq<Line>, i: nat): nat
    requires i < |lines| && FirstWhere(lines, i, DocEnds) < |lines|
  {
    AfterHead(lines, FirstWhere(lines, i, DocEnds) + 1)
  }

  /** It has no end exactly when no line closes its comment. */
  lemma BlockShape(lines: seq<Line>, i: nat)
    requires i < |lines| && Doc(lines[i])
    ensures BlockEnd(lines, i).Some? <==> Somewhere(lines, i, DocEnds)
    ensures BlockEnd(lines, i).Some? ==>
      EndsProperly(lines, HeadEnd(lines, i), BlockEnd(lines, i).value.0, BlockEnd(lines, i).value.1)
  {
    FoundIff(lines, i, DocEnds);
    DocNotBlank(lines[i]);
    var d := FirstWhere(lines, i, DocEnds);
    if d < |lines| { BodyShape(lines, i, d); }
  }

  lemma BodyShape(lines: seq<Line>, i: nat, d: nat)
    requires i <= d < |lines| && !Blank(lines[i])
    ensures EndsProperly(lines, AfterHead(lines, d + 1), BodyEnd(lines, i, d).0, BodyEnd(lines, i, d).1)
  {
    var j := FirstWhere(lines, AfterHead(lines, d + 1), TopLevel);
    TrimmedKeeps(lines, i, j);
  }

  lemma {:induction false} TrimmedKeeps(lines: seq<Line>, i: nat, j: nat)
    requires i < j <= |lines| && !Blank(lines[i])
    ensures i < Trimmed(lines, i, j)
    decreases j
  {
    if Blank(lines[j - 1]) { TrimmedKeeps(lines, i, j - 1); }
  }

  /** The first line of a block that opens another documentation comment lies in
      this block's own comment. */
  lemma NoNestedDoc(lines: seq<Line>, i: nat, k: nat)
    requires i < |lines| && Doc(lines[i]) && BlockEnd(lines, i).Some?
    requires i <= k < BlockEnd(lines, i).value.1 && Doc(lines[k])
    ensures Somewhere(lines, k, DocEnds)
  {
    var d := FirstWhere(lines, i, DocEnds);
    var b := AfterHead(lines, d + 1);
    var j := FirstWhere(lines, b, TopLevel);
    OneStart(lines[k]);
    assert forall m | b <= m < j :: !TopLevel(lines[m]);
    assert k <= d;
  }

  /** `_find_block_end`. */
  method FindBlockEnd(lines: seq<Line>, i: nat) returns (r: Option<(nat, nat)>)
    requires i < |lines| && Doc(lines[i])
    ensures r == BlockEnd(lines, i)
  {
    var d := SkipTo(lines, i, DocEnds);
    if d == |lines| { return None; }
    var end, j := FindBodyEnd(lines, i, d);
    r := Some((end, j));
  }

  method FindBodyEnd(lines: seq<Line>, i: nat, d: nat) returns (end: nat, j: nat)
    requires i <= d < |lines|
    ensures (end, j) == BodyEnd(lines, i, d)
  {
    j := SkipHead(lines, d + 1);
    j := SkipTo(lines, j, TopLevel);
    end := Trim(lines, i, j);
  }

  method SkipHead(lines: seq<Line>, d: nat) returns (b: nat)
    requires d <= |lines|
    ensures b == AfterHead(lines, d)
  {
    b := SkipTo(lines, d, NotAttribute);
    if b < |lines| && Keyword(lines[b]) {
      b := b + 1;
    }
  }

  method SkipTo(lines: seq<Line>, from: nat, p: Line -> bool) returns (j: nat)
    requires from <= |lines|
    ensures j == FirstWhere(lines, from, p)
  {
    j := from;
    while j < |lines| && !p(lines[j])
      invariant from <= j <= |lines| && FirstWhere(lines, from, p) == FirstWhere(lines, j, p)
    {
      j := j + 1;
    }
  }

  method Trim(lines: seq<Line>, i: nat, j: nat) returns (end: nat)
    requires i <= j <= |lines|
    ensures end == Trimmed(lines, i, j)
  {
    end := j;
    while end > i && Blank(lines[end - 1])
      invariant i <= end <= j && Trimmed(lines, i, j) == Trimmed(lines, i, end)
    {
      end := end - 1;
    }
  }
}
