/** Shared nodes with identifiers: a value is written as a sorted table and bare
    identifiers, and rebuilt through a global table. */
module IdTable {
  import opened Wrappers

  /** The three types of value a table can hold. */
  datatype Kind = Ty | DefId | ItemRef

  /** A value: its constructor and the nodes in it. */
  datatype Content = Content(kind: Kind, tag: nat, children: seq<Node>)

  datatype Node = Node(id: nat, value: Content)

  type Table = map<nat, Content>

  /** Which kind of node a constructor expects at each place; the Rust types say so. */
  type Shape = (Kind, nat) -> seq<Kind>

  predicate Typed(shape: Shape, c: Content)
  {
    var kinds := shape(c.kind, c.tag);
    |c.children| == |kinds| && forall i | 0 <= i < |kinds| ::
      c.children[i].value.kind == kinds[i] && Typed(shape, c.children[i].value)
  }

  /** Every node in `c` is an entry of the table. */
  predicate Recorded(table: Table, c: Content)
  {
    forall n <- c.children :: n.id in table && table[n.id] == n.value
  }

  /** Entries mention only entries, and only ones with a smaller identifier. */
  ghost predicate Closed(table: Table)
  {
    forall id <- table :: Recorded(table, table[id]) && forall n <- table[id].children :: n.id < id
  }

  // ---------- Sessions ----------

  const U32_MAX := 0xFFFF_FFFF

  class Session {
    var nextId: nat
    var table: Table

    ghost predicate Valid()
      reads this
    {
      nextId <= U32_MAX && Closed(table) && forall id <- table :: id < nextId
    }

    constructor ()
      ensures Valid() && table == map[]
    {
      nextId, table := 0, map[];
    }

    /** `Node::new`: a fresh identifier and a table entry. Counting past the
        32-bit identifiers panics, and then no node is made. */
    method NewNode(value: Content) returns (n: Option<Node>)
      requires Valid() && Recorded(table, value)
      modifies this
      ensures Valid() && forall id <- old(table) :: id in table && table[id] == old(table)[id]
      ensures n.Some? <==> old(nextId) < U32_MAX
      ensures n.Some? ==> n.value == Node(old(nextId), value) && n.value.id !in old(table)
      ensures nextId == old(nextId) + (if n.Some? then 1 else 0)
      ensures n.Some? ==> table == old(table)[n.value.id := value]
      ensures n.None? ==> table == old(table)
    {
      var id := nextId;
      if id == U32_MAX { return None; }
      nextId := nextId + 1;
      table := table[id := value];
      n := Some(Node(id, value));
    }
  }

  // ---------- Serialised form ----------

  /** A node is written with its value or, under `WithTable`, without. */
  datatype Repr = NodeRepr(id: nat, value: Option<ContentRepr>)

  datatype ContentRepr = ContentRepr(tag: nat, children: seq<Repr>)

  /** A table entry carries its kind. */
  datatype Pair = Pair(id: nat, kind: Kind, value: ContentRepr)

  datatype Document = WithTable(pairs: seq<Pair>, value: ContentRepr)

  function Encode(c: Content, useIds: bool): ContentRepr
  {
    ContentRepr(c.tag, seq(|c.children|, i requires 0 <= i < |c.children| =>
      NodeRepr(c.children[i].id, if useIds then None else Some(Encode(c.children[i].value, useIds)))))
  }

  function EncodePairs(table: Table, ids: seq<nat>, useIds: bool): (pairs: seq<Pair>)
    requires forall id <- ids :: id in table
    ensures |pairs| == |ids|
  {
    seq(|ids|, i requires 0 <= i < |ids| =>
      assert ids[i] in ids;
      Pair(ids[i], table[ids[i]].kind, Encode(table[ids[i]], useIds)))
  }

  lemma {:induction false} HasLeast(s: set<nat>)
    requires s != {}
    ensures exists m :: IsLeast(s, m)
  {
    var m :| m in s;
    if s == {m} {
      assert IsLeast(s, m);
    } else {
      HasLeast(s - {m});
      var m' :| IsLeast(s - {m}, m');
      assert forall x <- s :: x == m || x in s - {m};
      assert IsLeast(s, if m <= m' then m else m');
    }
  }

  predicate IsLeast(s: set<nat>, m: nat) { m in s && forall x <- s :: m <= x }

  function Least(s: set<nat>): (m: nat)
    requires s != {}
    ensures IsLeast(s, m)
  {
    HasLeast(s);
    var m :| IsLeast(s, m);
    m
  }

  ghost predicate Sorted(ids: seq<nat>)
  {
    forall i, j | 0 <= i < j < |ids| :: ids[i] < ids[j]
  }

  lemma SortedCons(m: nat, ids: seq<nat>)
    requires Sorted(ids) && forall id <- ids :: m < id
    ensures Sorted([m] + ids)
  {
    forall i, j | 0 <= i < j < |[m] + ids| ensures ([m] + ids)[i] < ([m] + ids)[j] {
      assert ids[j - 1] in ids;
    }
  }

  /** The keys in the order of `sort_by_key`. */
  function SortedIds(s: set<nat>): (ids: seq<nat>)
    ensures (forall id :: id in ids <==> id in s) && Sorted(ids)
  {
    if s == {} then []
    else
      var m := Least(s);
      var rest := SortedIds(s - {m});
      SortedCons(m, rest);
      [m] + rest
  }

  // ---------- Deserialisation ----------

  datatype Error = Malformed | NotFound(id: nat) | WrongType(id: nat) | NestingForbidden

  /** A bare identifier takes its value from the table, if it has the right type. */
  function DecodeNode(shape: Shape, kind: Kind, r: Repr, state: Table): Result<Node, Error>
    decreases r
  {
    match r.value
    case Some(v) =>
      var c :- DecodeContent(shape, kind, v, state);
      Ok(Node(r.id, c))
    case None =>
      if r.id !in state then Err(NotFound(r.id))
      else if state[r.id].kind != kind then Err(WrongType(r.id))
      else Ok(Node(r.id, state[r.id]))
  }

  function DecodeContent(shape: Shape, kind: Kind, r: ContentRepr, state: Table): Result<Content, Error>
    decreases r
  {
    var kinds := shape(kind, r.tag);
    if |kinds| != |r.children| then Err(Malformed)
    else
      var children :- DecodeNodes(shape, kinds, r.children, state);
      Ok(Content(kind, r.tag, children))
  }

  function DecodeNodes(shape: Shape, kinds: seq<Kind>, rs: seq<Repr>, state: Table): Result<seq<Node>, Error>
    requires |kinds| == |rs|
    decreases rs
  {
    if rs == [] then Ok([])
    else
      var n :- DecodeNode(shape, kinds[0], rs[0], state);
      var ns :- DecodeNodes(shape, kinds[1..], rs[1..], state);
      Ok([n] + ns)
  }

  /** Entries are decoded in order, each with the table of the entries before it. */
  function DecodePairs(shape: Shape, pairs: seq<Pair>, state: Table): Result<Table, Error>
  {
    if pairs == [] then Ok(state)
    else
      var p := pairs[|pairs| - 1];
      var before :- DecodePairs(shape, pairs[..|pairs| - 1], state);
      var c :- DecodeContent(shape, p.kind, p.value, before);
      Ok(before[p.id := c])
  }

  function DecodeDocument(shape: Shape, kind: Kind, doc: Document): Result<(Table, Content), Error>
  {
    var table :- DecodePairs(shape, doc.pairs, map[]);
    var value :- DecodeContent(shape, kind, doc.value, table);
    Ok((table, value))
  }

  // ---------- Global state ----------

  /** The process-wide serialisation mode, deserialisation table and its lock. */
  class Globals {
    var useIds: bool
    var state: Table
    var locked: bool

    constructor ()
      ensures !useIds && !locked && state == map[]
    {
      useIds, state, locked := false, map[], false;
    }

    /** `WithTable::run` around serialisation: identifiers only, and the mode is
        put back. A nested run panics. */
    method Serialize(table: Table, value: Content) returns (doc: Option<Document>)
      modifies `useIds
      ensures useIds == old(useIds)
      ensures doc.None? <==> old(useIds)
      ensures doc.Some? ==>
        doc.value == WithTable(EncodePairs(table, SortedIds(table.Keys), true), Encode(value, true))
    {
      if useIds { return None; }
      useIds := true;
      var pairs := EncodePairs(table, SortedIds(table.Keys), useIds);
      doc := Some(WithTable(pairs, Encode(value, useIds)));
      useIds := false;
    }

    /** `WithTable::deserialize`: works on a fresh global table and puts the
        previous one back, also when decoding fails. */
    method Deserialize(shape: Shape, kind: Kind, doc: Document) returns (r: Result<(Table, Content), Error>)
      modifies `state, `locked
      ensures state == old(state) && locked == old(locked)
      ensures r == if old(locked) then Err(NestingForbidden) else DecodeDocument(shape, kind, doc)
    {
      if locked { return Err(NestingForbidden); }
      locked := true;
      var previous := state;
      state := map[];
      r := DecodeInGlobal(shape, kind, doc);
      state := previous;
      locked := false;
    }

    method DecodeInGlobal(shape: Shape, kind: Kind, doc: Document) returns (r: Result<(Table, Content), Error>)
      requires state == map[]
      modifies `state
      ensures r == DecodeDocument(shape, kind, doc)
    {
      var table: Table := map[];
      for i := 0 to |doc.pairs|
        invariant state == table && DecodePairs(shape, doc.pairs[..i], map[]) == Ok(state)
      {
        var p := doc.pairs[i];
        assert doc.pairs[..i + 1][..i] == doc.pairs[..i];
        var c := DecodeContent(shape, p.kind, p.value, state);
        if c.Err? {
          FailsEarly(shape, doc.pairs, i + 1);
          return Err(c.error);
        }
        state := state[p.id := c.value];
        table := table[p.id := c.value];
      }
      assert doc.pairs[..|doc.pairs|] == doc.pairs;
      var value := DecodeContent(shape, kind, doc.value, state);
      r := if value.Err? then Err(value.error) else Ok((table, value.value));
    }
  }

  lemma {:induction false} FailsEarly(shape: Shape, pairs: seq<Pair>, n: nat)
    requires n <= |pairs| && DecodePairs(shape, pairs[..n], map[]).Err?
    ensures DecodePairs(shape, pairs, map[]) == DecodePairs(shape, pairs[..n], map[])
    decreases |pairs|
  {
    if n < |pairs| {
      var init := pairs[..|pairs| - 1];
      assert init[..n] == pairs[..n];
      FailsEarly(shape, init, n);
    } else {
      assert pairs[..n] == pairs;
    }
  }

  // ---------- What is written, and what is read ----------

  /** A constructor is written as it is, each node in it by its identifier, with its
      value unless identifiers are to do. */
  lemma Written(c: Content, useIds: bool, i: nat)
    requires i < |c.children|
    ensures Encode(c, useIds).tag == c.tag && |Encode(c, useIds).children| == |c.children|
    ensures Encode(c, true).children[i] == NodeRepr(c.children[i].id, None)
    ensures Encode(c, false).children[i] == NodeRepr(c.children[i].id, Some(Encode(c.children[i].value, false)))
  {
  }

  /** A bare identifier is an error when no entry has it, another error when its
      entry is of another kind, and the entry's value otherwise. */
  lemma BareIdentifier(shape: Shape, kind: Kind, id: nat, state: Table)
    ensures var r := DecodeNode(shape, kind, NodeRepr(id, None), state);
      && (id !in state ==> r == Err(NotFound(id)))
      && (id in state && state[id].kind != kind ==> r == Err(WrongType(id)))
      && (id in state && state[id].kind == kind ==> r == Ok(Node(id, state[id])))
  {
  }

  function Bare(ids: seq<nat>): (rs: seq<Repr>) { seq(|ids|, i requires 0 <= i < |ids| => NodeRepr(ids[i], None)) }

  predicate Resolvable(ids: seq<nat>, kinds: seq<Kind>, state: Table)
  {
    |ids| == |kinds| && forall i | 0 <= i < |ids| :: ids[i] in state && state[ids[i]].kind == kinds[i]
  }

  /** Any constructor over bare identifiers, typed or not, decodes if and only if there
      are as many as it takes and each is an entry of the kind expected at its place. */
  lemma BareExact(shape: Shape, kind: Kind, tag: nat, ids: seq<nat>, state: Table)
    ensures var r := DecodeContent(shape, kind, ContentRepr(tag, Bare(ids)), state);
      && (r.Ok? <==> Resolvable(ids, shape(kind, tag), state))
      && (r.Ok? ==> r.value.kind == kind && r.value.tag == tag && Resolved(r.value.children, ids, state))
  {
    if |ids| == |shape(kind, tag)| { BareNodes(shape, shape(kind, tag), ids, state); }
  }

  predicate Resolved(nodes: seq<Node>, ids: seq<nat>, state: Table)
  {
    |nodes| == |ids| && forall i | 0 <= i < |ids| :: ids[i] in state && nodes[i] == Node(ids[i], state[ids[i]])
  }

  lemma {:induction false} BareNodes(shape: Shape, kinds: seq<Kind>, ids: seq<nat>, state: Table)
    requires |kinds| == |ids|
    ensures var r := DecodeNodes(shape, kinds, Bare(ids), state);
      && (r.Ok? <==> Resolvable(ids, kinds, state)) && (r.Ok? ==> Resolved(r.value, ids, state))
  {
    if ids != [] {
      assert Bare(ids)[1..] == Bare(ids[1..]);
      BareIdentifier(shape, kinds[0], ids[0], state);
      BareNodes(shape, kinds[1..], ids[1..], state);
      ResolvableCons(ids, kinds, state);
      var r := DecodeNodes(shape, kinds, Bare(ids), state);
      if r.Ok? { assert r.value[0] == Node(ids[0], state[ids[0]]) && r.value == [r.value[0]] + r.value[1..]; }
    }
  }

  lemma ResolvableCons(ids: seq<nat>, kinds: seq<Kind>, state: Table)
    requires ids != [] && |ids| == |kinds|
    ensures Resolvable(ids, kinds, state) <==>
      ids[0] in state && state[ids[0]].kind == kinds[0] && Resolvable(ids[1..], kinds[1..], state)
  {
    if Resolvable(ids[1..], kinds[1..], state) && ids[0] in state && state[ids[0]].kind == kinds[0] {
      forall i | 0 <= i < |ids| ensures ids[i] in state && state[ids[i]].kind == kinds[i] {
        if i > 0 { assert ids[1..][i - 1] == ids[i] && kinds[1..][i - 1] == kinds[i]; }
      }
    }
  }

  // ---------- The round trip ----------

  /** The identifiers of the nodes in `c`. */
  function Mentions(c: Content): set<nat> { set n | n in c.children :: n.id }

  /** Bare identifiers resolve exactly when the table has them, with their kinds. */
  lemma {:induction false} NodesResolve(shape: Shape, kinds: seq<Kind>, nodes: seq<Node>, rs: seq<Repr>, state: Table)
    requires |kinds| == |nodes| == |rs|
    requires forall i | 0 <= i < |nodes| :: rs[i] == NodeRepr(nodes[i].id, None) && nodes[i].value.kind == kinds[i]
    requires forall n <- nodes :: n.id in state ==> state[n.id] == n.value
    ensures DecodeNodes(shape, kinds, rs, state).Ok? <==> forall n <- nodes :: n.id in state
    ensures DecodeNodes(shape, kinds, rs, state).Ok? ==> DecodeNodes(shape, kinds, rs, state).value == nodes
  {
    if rs != [] {
      assert nodes[0] in nodes;
      NodesResolve(shape, kinds[1..], nodes[1..], rs[1..], state);
      assert nodes == [nodes[0]] + nodes[1..];
    }
  }

  lemma ContentResolves(shape: Shape, c: Content, state: Table)
    requires Typed(shape, c) && forall n <- c.children :: n.id in state ==> state[n.id] == n.value
    ensures var r := DecodeContent(shape, c.kind, Encode(c, true), state);
      && (r.Ok? <==> Mentions(c) <= state.Keys) && (r.Ok? ==> r.value == c)
  {
    NodesResolve(shape, shape(c.kind, c.tag), c.children, Encode(c, true).children, state);
    if forall n <- c.children :: n.id in state {
      assert Mentions(c) <= state.Keys;
    } else {
      var n :| n in c.children && n.id !in state;
      assert n.id in Mentions(c);
    }
  }

  function Restrict(table: Table, ids: seq<nat>): Table
  {
    map id | id in table && id in ids :: table[id]
  }

  /** `ids` lists every entry after the entries it mentions. */
  ghost predicate DependencyOrder(table: Table, ids: seq<nat>)
    requires forall id <- ids :: id in table
  {
    forall i | 0 <= i < |ids| :: ids[i] in ids && forall m <- Mentions(table[ids[i]]) :: m in ids[..i]
  }

  lemma EncodePairsInit(table: Table, ids: seq<nat>, n: nat)
    requires n + 1 == |ids| && forall id <- ids :: id in table
    ensures (forall x <- ids[..n] :: x in table) && ids[n] in table
    ensures var pairs := EncodePairs(table, ids, true);
      && pairs[..n] == EncodePairs(table, ids[..n], true)
      && pairs[n] == Pair(ids[n], table[ids[n]].kind, Encode(table[ids[n]], true))
  {
    assert ids[n] in ids && forall x <- ids[..n] :: x in ids;
    forall i | 0 <= i < n
      ensures EncodePairs(table, ids, true)[i] == EncodePairs(table, ids[..n], true)[i]
    {
      assert ids[..n][i] == ids[i] && ids[i] in ids && ids[i] in ids[..n];
    }
  }

  lemma DependencyOrderInit(table: Table, ids: seq<nat>, n: nat)
    requires n + 1 == |ids| && (forall id <- ids :: id in table) && forall x <- ids[..n] :: x in table
    ensures ids[n] in ids && (DependencyOrder(table, ids) <==>
      DependencyOrder(table, ids[..n]) && forall m <- Mentions(table[ids[n]]) :: m in ids[..n])
  {
    var init := ids[..n];
    assert forall i | 0 <= i < n :: init[..i] == ids[..i] && init[i] == ids[i] && ids[i] in ids && init[i] in init;
    assert ids[n] in ids && ids[..n] == init;
  }

  /** Any listing of entries decodes if and only if it is a dependency order,
      and then to exactly those entries. */
  lemma {:induction false} OrderExact(shape: Shape, table: Table, ids: seq<nat>)
    requires Closed(table) && (forall id <- table :: Typed(shape, table[id])) && forall id <- ids :: id in table
    ensures var r := DecodePairs(shape, EncodePairs(table, ids, true), map[]);
      && (r.Ok? <==> DependencyOrder(table, ids)) && (r.Ok? ==> r.value == Restrict(table, ids))
  {
    if ids != [] {
      var n := |ids| - 1;
      EncodePairsInit(table, ids, n);
      DependencyOrderInit(table, ids, n);
      OrderExact(shape, table, ids[..n]);
      LastEntry(shape, table, ids[n], ids[..n]);
      assert ids == ids[..n] + [ids[n]];
    }
  }

  /** One more entry on top of the entries `init`. */
  lemma LastEntry(shape: Shape, table: Table, id: nat, init: seq<nat>)
    requires Closed(table) && id in table && Typed(shape, table[id])
    ensures var before := Restrict(table, init);
      var r := DecodeContent(shape, table[id].kind, Encode(table[id], true), before);
      && (r.Ok? <==> forall m <- Mentions(table[id]) :: m in init)
      && (r.Ok? ==> before[id := r.value] == Restrict(table, init + [id]))
  {
    assert Recorded(table, table[id]);
    ContentResolves(shape, table[id], Restrict(table, init));
    MentionsIn(table, id, init);
  }

  lemma MentionsIn(table: Table, id: nat, init: seq<nat>)
    requires id in table && Closed(table)
    ensures Mentions(table[id]) <= Restrict(table, init).Keys <==> forall m <- Mentions(table[id]) :: m in init
  {
    assert Recorded(table, table[id]);
    assert forall m <- Mentions(table[id]) :: m in table;
  }

  /** Smaller identifiers come first, so sorted order always resolves. */
  lemma SortedIsDependencyOrder(table: Table)
    requires Closed(table)
    ensures DependencyOrder(table, SortedIds(table.Keys))
  {
    var ids := SortedIds(table.Keys);
    forall i | 0 <= i < |ids|
      ensures ids[i] in ids && forall m <- Mentions(table[ids[i]]) :: m in ids[..i]
    {
      assert ids[i] in ids;
      forall m <- Mentions(table[ids[i]]) ensures m in ids[..i] {
        assert Recorded(table, table[ids[i]]) && m in table && m in ids;
        var k :| 0 <= k < |ids| && ids[k] == m;
        assert ids[k] < ids[i];
        assert k < i;
      }
    }
  }

  /** Deserialising the identifiers-only form of a value of one session rebuilds
      the value and the table. */
  lemma RoundTrip(shape: Shape, table: Table, value: Content)
    requires Closed(table) && (forall id <- table :: Typed(shape, table[id]))
    requires Typed(shape, value) && Recorded(table, value)
    ensures DecodeDocument(shape, value.kind,
              WithTable(EncodePairs(table, SortedIds(table.Keys), true), Encode(value, true))) == Ok((table, value))
  {
    var ids := SortedIds(table.Keys);
    SortedIsDependencyOrder(table);
    OrderExact(shape, table, ids);
    assert Restrict(table, ids) == table;
    ContentResolves(shape, value, table);
  }

  /** Outside `WithTable` values are shipped, and any table will do. */
  lemma {:induction false} InlineRoundTrip(shape: Shape, c: Content, state: Table)
    requires Typed(shape, c)
    ensures DecodeContent(shape, c.kind, Encode(c, false), state) == Ok(c)
    decreases c
  {
    InlineNodes(shape, shape(c.kind, c.tag), c.children, Encode(c, false).children, state);
  }

  lemma {:induction false} InlineNode(shape: Shape, n: Node, state: Table)
    requires Typed(shape, n.value)
    ensures DecodeContent(shape, n.value.kind, Encode(n.value, false), state) == Ok(n.value)
    decreases n
  {
    InlineRoundTrip(shape, n.value, state);
  }

  lemma {:induction false} InlineNodes(shape: Shape, kinds: seq<Kind>, nodes: seq<Node>, rs: seq<Repr>, state: Table)
    requires |kinds| == |nodes| == |rs|
    requires forall i | 0 <= i < |nodes| ::
      rs[i] == NodeRepr(nodes[i].id, Some(Encode(nodes[i].value, false)))
      && nodes[i].value.kind == kinds[i] && Typed(shape, nodes[i].value)
    ensures DecodeNodes(shape, kinds, rs, state) == Ok(nodes)
    decreases nodes
  {
    if rs != [] {
      InlineNode(shape, nodes[0], state);
      InlineNodes(shape, kinds[1..], nodes[1..], rs[1..], state);
      assert nodes == [nodes[0]] + nodes[1..];
    }
  }

  /** Writing and reading back through the globals, from any unlocked state. */
  method WriteThenRead(g: Globals, shape: Shape, s: Session, value: Content)
    returns (r: Result<(Table, Content), Error>)
    requires !g.useIds && !g.locked && s.Valid() && (forall id <- s.table :: Typed(shape, s.table[id]))
    requires Typed(shape, value) && Recorded(s.table, value)
    modifies g
    ensures r == Ok((s.table, value))
    ensures g.state == old(g.state) && !g.useIds && !g.locked
  {
    var doc := g.Serialize(s.table, value);
    RoundTrip(shape, s.table, value);
    r := g.Deserialize(shape, value.kind, doc.value);
  }
}
