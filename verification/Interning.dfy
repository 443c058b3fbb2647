/** Global interning: equal values share one small handle. */
module Interning {
  import opened Wrappers

  const U32_COUNT := 0x1_0000_0000

  type Handle = n: nat | n < 0x1_0000_0000

  /** The items in order of arrival, and the handle of each interned value. */
  datatype Table<T(==)> = Table(items: seq<T>, ids: map<T, Handle>)
  {
    /** Handles and the first 2^32 items are in one-to-one correspondence. Later
        items were pushed without a handle. */
    ghost predicate Valid()
    {
      && (forall v <- ids :: ids[v] < |items| && items[ids[v]] == v)
      && (forall i | 0 <= i < |items| && i < U32_COUNT :: items[i] in ids && ids[items[i]] == i)
    }

    /** `try_intern`: past the limit the item is still pushed, but no handle is
        made and the value is not remembered. */
    function TryIntern(v: T): (Table<T>, Option<Handle>)
    {
      if v in ids then (this, Some(ids[v]))
      else
        var index := |items|;
        if index < U32_COUNT then (Table(items + [v], ids[v := index]), Some(index))
        else (Table(items + [v], ids), None)
    }

    lemma TryInternKeeps(v: T)
      requires Valid()
      ensures var (t, h) := TryIntern(v);
        && t.Valid() && items <= t.items
        && (forall u <- ids :: u in t.ids && t.ids[u] == ids[u])
        && (h.Some? <==> v in t.ids) && (h.Some? ==> t.ids[v] == h.value)
        && (v in ids ==> t == this) && (v !in ids ==> t.items == items + [v])
        && (v !in ids && |items| < 0x1_0000_0000 ==> h == Some(|items|))
        && (h.None? <==> v !in ids && |items| >= 0x1_0000_0000)
    {
    }
  }

  class InterningTable<T(==)> {
    var items: seq<T>
    var ids: map<T, Handle>

    ghost function State(): Table<T>
      reads this
    {
      Table(items, ids)
    }

    constructor ()
      ensures State() == Table([], map[]) && State().Valid()
    {
      items, ids := [], map[];
    }

    method TryIntern(value: T) returns (r: Option<Handle>)
      requires State().Valid()
      modifies this
      ensures State().Valid() && (State(), r) == old(State()).TryIntern(value)
    {
      State().TryInternKeeps(value);
      if value in ids { return Some(ids[value]); }
      var index := |items|;
      items := items + [value];
      if index >= U32_COUNT { return None; }
      var handle: Handle := index;
      ids := ids[value := handle];
      r := Some(handle);
    }

    /** Indexing never fails on a handle this table has issued. */
    method Get(h: Handle) returns (v: T)
      requires State().Valid() && h in ids.Values
      ensures v in ids && ids[v] == h && v == items[h]
    {
      v := items[h];
    }
  }

  // ---------- Runs ----------

  /** The table after interning `vs`, and the handle issued for each. */
  function Run<T>(start: Table<T>, vs: seq<T>): (r: (Table<T>, seq<Option<Handle>>))
    ensures |r.1| == |vs|
  {
    if vs == [] then (start, [])
    else
      var (t, hs) := Run(start, vs[..|vs| - 1]);
      var (t', h) := t.TryIntern(vs[|vs| - 1]);
      (t', hs + [h])
  }

  /** Along every run each issued handle keeps resolving to its value. */
  lemma {:induction false} RunKeeps<T>(start: Table<T>, vs: seq<T>)
    requires start.Valid()
    ensures var (t, hs) := Run(start, vs);
      && t.Valid() && start.items <= t.items
      && (forall u <- start.ids :: u in t.ids && t.ids[u] == start.ids[u])
      && forall i | 0 <= i < |vs| && hs[i].Some? :: vs[i] in t.ids && t.ids[vs[i]] == hs[i].value
  {
    if vs != [] {
      var init, last := vs[..|vs| - 1], vs[|vs| - 1];
      RunKeeps(start, init);
      var (t, hs) := Run(start, init);
      t.TryInternKeeps(last);
      forall i | 0 <= i < |vs| && Run(start, vs).1[i].Some?
        ensures vs[i] in Run(start, vs).0.ids && Run(start, vs).0.ids[vs[i]] == Run(start, vs).1[i].value
      {
        if i < |init| { assert init[i] == vs[i] && hs[i] == Run(start, vs).1[i]; }
      }
    }
  }

  /** Two handles of a run are equal exactly when their values are, and each
      resolves to its value in the final table. */
  lemma HandlesAreValues<T>(start: Table<T>, vs: seq<T>, i: nat, j: nat)
    requires start.Valid() && i < |vs| && j < |vs|
    requires Run(start, vs).1[i].Some? && Run(start, vs).1[j].Some?
    ensures var (t, hs) := Run(start, vs);
      && (hs[i] == hs[j] <==> vs[i] == vs[j])
      && hs[i].value < |t.items| && t.items[hs[i].value] == vs[i]
  {
    RunKeeps(start, vs);
  }

  // ---------- Prepopulated tables ----------

  predicate NoDuplicates<T(==)>(vs: seq<T>)
  {
    forall i, j | 0 <= i < j < |vs| :: vs[i] != vs[j]
  }

  /** The constant handles, computed without the values. */
  method ConstantHandles(n: nat) returns (handles: array<Handle>)
    requires n < U32_COUNT - 1
    ensures fresh(handles) && handles.Length == n && forall i | 0 <= i < n :: handles[i] == i
  {
    handles := new Handle[n](_ => 0);
    var i := 0;
    while i < n
      invariant i <= n && forall k | 0 <= k < i :: handles[k] == k
    {
      handles[i] := i;
      i := i + 1;
    }
  }

  /** A table that holds exactly these values, numbered in order. */
  ghost predicate Holds<T>(t: Table<T>, vs: seq<T>)
  {
    && t.items == vs && |vs| < U32_COUNT && (forall v <- t.ids :: v in vs)
    && forall i | 0 <= i < |vs| :: vs[i] in t.ids && t.ids[vs[i]] == i
  }

  lemma HoldsValid<T>(t: Table<T>, vs: seq<T>)
    requires Holds(t, vs)
    ensures t.Valid()
  {
  }

  lemma HoldsOneMore<T>(t: Table<T>, vs: seq<T>, v: T)
    requires Holds(t, vs) && v !in vs && |vs| + 1 < U32_COUNT
    ensures Holds(t.TryIntern(v).0, vs + [v]) && t.TryIntern(v).1 == Some(|vs|)
  {
  }

  lemma LastIsNew<T>(vs: seq<T>)
    requires vs != [] && NoDuplicates(vs)
    ensures NoDuplicates(vs[..|vs| - 1]) && vs[|vs| - 1] !in vs[..|vs| - 1]
  {
    var init := vs[..|vs| - 1];
    forall i, j | 0 <= i < j < |init| ensures init[i] != init[j] {
      assert init[i] == vs[i] && init[j] == vs[j];
    }
  }

  lemma {:induction false} PrepopulatedRun<T>(vs: seq<T>)
    requires |vs| < U32_COUNT && NoDuplicates(vs)
    ensures Holds(Run(Table([], map[]), vs).0, vs)
  {
    if vs != [] {
      var init, last := vs[..|vs| - 1], vs[|vs| - 1];
      LastIsNew(vs);
      PrepopulatedRun(init);
      HoldsOneMore(Run(Table([], map[]), init).0, init, last);
      assert vs == init + [last];
    }
  }

  /** The initialiser `new_with_values` leaves for later: it panics on
      duplicates and otherwise interns the values in order. */
  method BuildTable<T(==)>(values: seq<T>) returns (r: Option<InterningTable<T>>)
    requires |values| < U32_COUNT - 1
    ensures r.Some? <==> NoDuplicates(values)
    ensures r.Some? ==> fresh(r.value) && Holds(r.value.State(), values)
  {
    var unique := set v | v in values;
    DistinctCount(values);
    if |unique| != |values| { return None; }
    var table := new InterningTable<T>();
    for i := 0 to |values|
      invariant fresh(table) && Holds(table.State(), values[..i])
    {
      HoldsValid(table.State(), values[..i]);
      HoldsOneMore(table.State(), values[..i], values[i]);
      var h := table.TryIntern(values[i]);
      assert values[..i + 1] == values[..i] + [values[i]];
    }
    assert values[..|values|] == values;
    r := Some(table);
  }

  lemma {:induction false} DistinctCount<T>(vs: seq<T>)
    ensures |set v | v in vs| <= |vs|
    ensures |set v | v in vs| == |vs| <==> NoDuplicates(vs)
  {
    if vs == [] {
      assert (set v | v in vs) == {};
    } else {
      var init, last := vs[..|vs| - 1], vs[|vs| - 1];
      DistinctCount(init);
      assert vs == init + [last];
      assert (set v | v in vs) == (set v | v in init) + {last};
      assert NoDuplicates(vs) <==> NoDuplicates(init) && last !in init;
    }
  }

  /** `new_with_values`: the constant handles are those of the table built later,
      and stay so whatever is interned afterwards. */
  lemma ConstantsAgree<T>(vs: seq<T>, later: seq<T>, i: nat)
    requires |vs| < U32_COUNT - 1 && NoDuplicates(vs) && i < |vs|
    ensures var t := Run(Run(Table([], map[]), vs).0, later).0;
      && t.TryIntern(vs[i]) == (t, Some(i)) && i < |t.items| && t.items[i] == vs[i]
  {
    PrepopulatedRun(vs);
    HoldsValid(Run(Table([], map[]), vs).0, vs);
    RunKeeps(Run(Table([], map[]), vs).0, later);
  }
}
