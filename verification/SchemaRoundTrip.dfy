/** The generated parser undoes the generated printer. */
module SchemaRoundTrip {
  import opened Arithmetic
  import opened Wrappers
  import opened Schema
  import Decimal

  // ---------- The wire ----------

  /** `r` is what may arrive when `j` is written as text and read again: a
      numeral may come back as an integer. */
  predicate Arrives(j: Json, r: Json)
    decreases j
  {
    match j
    case JIntlit(s) => r == j || (r.JInt? && Decimal.Show(r.n) == s)
    case JList(js) => r.JList? && |r.items| == |js| && forall i | 0 <= i < |js| :: Arrives(js[i], r.items[i])
    case JAssoc(es) =>
      && r.JAssoc? && |r.entries| == |es|
      && forall i | 0 <= i < |es| :: r.entries[i].0 == es[i].0 && Arrives(es[i].1, r.entries[i].1)
    case _ => r == j
  }

  /** Reading the text of `j`: canonical numerals that fit OCaml's 63-bit
      integers become integers. */
  function Wire(j: Json): Json
  {
    match j
    case JIntlit(s) =>
      if Decimal.Canonical(s) && Fits(Decimal.Read(s).value, 63) then JInt(Decimal.Read(s).value) else j
    case JList(js) => JList(seq(|js|, i requires 0 <= i < |js| => Wire(js[i])))
    case JAssoc(es) => JAssoc(seq(|es|, i requires 0 <= i < |es| => (es[i].0, Wire(es[i].1))))
    case _ => j
  }

  lemma {:induction false} WireArrives(j: Json)
    ensures Arrives(j, Wire(j)) && Arrives(j, j)
  {
    match j
    case JList(js) =>
      forall i | 0 <= i < |js| ensures Arrives(js[i], Wire(js[i])) && Arrives(js[i], js[i]) {
        WireArrives(js[i]);
      }
    case JAssoc(es) =>
      forall i | 0 <= i < |es| ensures Arrives(es[i].1, Wire(es[i].1)) && Arrives(es[i].1, es[i].1) {
        WireArrives(es[i].1);
      }
    case _ =>
  }

  // ---------- What a round trip keeps ----------

  /** The value that comes back: `Some` of something that prints as null comes
      back as `None`, and `DefId` indices come back as zero. */
  function Kept(defs: Defs, t: TypeExpr, v: Val): Val
    decreases v, 3
  {
    match t
    case TOption(u) =>
      if v.VSome? then (if Print(defs, u, v.v).Null? then VNone else VSome(Kept(defs, u, v.v))) else v
    case TTuple(ts) =>
      if v.VTuple? && |v.vs| == |ts|
      then VTuple(seq(|ts|, i requires 0 <= i < |ts| => Kept(defs, ts[i], v.vs[i]))) else v
    case TArray(u) =>
      if v.VList? then VList(seq(|v.vs|, i requires 0 <= i < |v.vs| => Kept(defs, u, v.vs[i]))) else v
    case TName(n) => if n in defs then KeptDef(defs, n, v) else v
    case _ => v
  }

  function KeptRecord(defs: Defs, def: string, fields: seq<Field>, r: Val): Val
    requires r.VRecord? && |r.vs| == |fields|
    decreases r, 1
  {
    VRecord(seq(|fields|, i requires 0 <= i < |fields| =>
      if Zeroed(def, fields[i].name) then ZERO_INDEX else Kept(defs, fields[i].typ, r.vs[i])))
  }

  function KeptDef(defs: Defs, name: string, v: Val): Val
    requires name in defs
    decreases v, 2
  {
    match defs[name]
    case Newtype(t) => if v.VNewtype? then VNewtype(Kept(defs, t, v.inner)) else v
    case Object(fields) => if v.VRecord? && |v.vs| == |fields| then KeptRecord(defs, name, fields, v) else v
    case OneOf(cases) =>
      if !v.VCase? || v.payload.None? then v
      else (match FindCtor(cases, v.ctor)
        case None => v
        case Some(k) =>
          match cases[k].payload
          case Empty => v
          case Single(t) => VCase(v.ctor, Some(Kept(defs, t, v.payload.value)))
          case Record(fields) =>
            if v.payload.value.VRecord? && |v.payload.value.vs| == |fields|
            then VCase(v.ctor, Some(KeptRecord(defs, name, fields, v.payload.value))) else v)
    case _ => v
  }

  /** How many names the parser may have to follow. */
  function Depth(v: Val): nat
  {
    match v
    case VSome(x) => Depth(x)
    case VTuple(vs) => DepthAll(vs)
    case VList(vs) => DepthAll(vs)
    case VNewtype(x) => 1 + Depth(x)
    case VRecord(vs) => 1 + DepthAll(vs)
    case VCase(_, Some(x)) => 1 + Depth(x)
    case _ => 1
  }

  function DepthAll(vs: seq<Val>): nat
  {
    if vs == [] then 0 else var d, r := Depth(vs[0]), DepthAll(vs[1..]); if d > r then d else r
  }

  lemma {:induction false} DepthAt(vs: seq<Val>, i: nat)
    requires i < |vs|
    ensures Depth(vs[i]) <= DepthAll(vs)
  {
    if i > 0 { DepthAt(vs[1..], i - 1); }
  }

  // ---------- Sequences ----------

  lemma {:induction false} PartsParsed(defs: Defs, ts: seq<TypeExpr>, js: seq<Json>, vs: seq<Val>, fuel: nat)
    requires |ts| == |js| == |vs|
    requires forall i | 0 <= i < |ts| :: Parse(defs, ts[i], js[i], fuel) == Ok(vs[i])
    ensures ParseParts(defs, ts, js, fuel) == Ok(vs)
  {
    if ts != [] {
      PartsParsed(defs, ts[1..], js[1..], vs[1..], fuel);
      assert vs == [vs[0]] + vs[1..];
    }
  }

  lemma {:induction false} ItemsParsed(defs: Defs, t: TypeExpr, js: seq<Json>, vs: seq<Val>, fuel: nat)
    requires |js| == |vs|
    requires forall i | 0 <= i < |js| :: Parse(defs, t, js[i], fuel) == Ok(vs[i])
    ensures ParseItems(defs, t, js, fuel) == Ok(vs)
  {
    if js != [] {
      ItemsParsed(defs, t, js[1..], vs[1..], fuel);
      assert vs == [vs[0]] + vs[1..];
    }
  }

  lemma {:induction false} AssocFinds(entries: seq<(string, Json)>, k: nat)
    requires k < |entries| && forall i | 0 <= i < k :: entries[i].0 != entries[k].0
    ensures AssocOpt(entries, entries[k].0) == Some(entries[k].1)
  {
    if k > 0 { AssocFinds(entries[1..], k - 1); }
  }

  /** The fields from number `n` on, looked up in the whole object. */
  lemma {:induction false} FieldsParsed(
    defs: Defs, def: string, fields: seq<Field>, entries: seq<(string, Json)>, vs: seq<Val>, n: nat, fuel: nat)
    requires n <= |fields| == |vs|
    requires forall i | 0 <= i < |fields| :: FieldParses(defs, def, fields[i], entries, vs[i], fuel)
    ensures ParseFields(defs, def, fields[n..], entries, fuel) == Ok(vs[n..])
    decreases |fields| - n
  {
    if n < |fields| {
      FieldsParsed(defs, def, fields, entries, vs, n + 1, fuel);
      assert FieldParses(defs, def, fields[n], entries, vs[n], fuel);
      assert fields[n..] == [fields[n]] + fields[n + 1..] && vs[n..] == [vs[n]] + vs[n + 1..];
      FieldFirst(defs, def, fields[n], fields[n + 1..], entries, vs[n], vs[n + 1..], fuel);
    } else {
      assert fields[n..] == [] && vs[n..] == [];
    }
  }

  lemma FieldFirst(defs: Defs, def: string, f: Field, fields: seq<Field>, entries: seq<(string, Json)>, v: Val,
                   vs: seq<Val>, fuel: nat)
    requires FieldParses(defs, def, f, entries, v, fuel) && ParseFields(defs, def, fields, entries, fuel) == Ok(vs)
    ensures ParseFields(defs, def, [f] + fields, entries, fuel) == Ok([v] + vs)
  {
    assert ([f] + fields)[1..] == fields;
  }

  predicate FieldParses(defs: Defs, def: string, f: Field, entries: seq<(string, Json)>, v: Val, fuel: nat)
  {
    if Zeroed(def, f.name) then v == ZERO_INDEX
    else AssocOpt(entries, f.name).Some? && Parse(defs, f.typ, AssocOpt(entries, f.name).value, fuel) == Ok(v)
  }

  // ---------- The wire format ----------

  /** The JSON that stands for a value, from whichever side it comes: booleans,
      strings and numbers for themselves, absent options, units and empty structs as
      null, cases tagged with their Rust name, fields found by name. */
  ghost predicate Wires(defs: Defs, t: TypeExpr, v: Val, j: Json)
    decreases v, 1
  {
    match t
    case TOption(u) => (v.VNone? && j == Null) || (v.VSome? && Wires(defs, u, v.v, j))
    case TUnit => v.VUnit? && j == Null
    case TTuple(ts) =>
      && v.VTuple? && j.JList? && |v.vs| == |j.items| == |ts|
      && forall i | 0 <= i < |ts| :: Wires(defs, ts[i], v.vs[i], j.items[i])
    case TArray(u) =>
      && v.VList? && j.JList? && |v.vs| == |j.items|
      && forall i | 0 <= i < |v.vs| :: Wires(defs, u, v.vs[i], j.items[i])
    case TBool => v.VBool? && j == JBool(v.b)
    case TString => v.VString? && j == JString(v.s)
    case TChar => v.VString? && j == JString(v.s)
    case TInteger(AsString) => v.VString? && (j == JIntlit(v.s) || (j.JInt? && v.s == Decimal.Show(j.n)))
    case TInteger(_) => v.VInt? && (j == JInt(v.n) || (j.JIntlit? && Decimal.Read(j.lit) == Some(v.n)))
    case TName(n) => n in defs && WiresDef(defs, n, v, j)
  }

  ghost predicate WiresDef(defs: Defs, name: string, v: Val, j: Json)
    requires name in defs
    decreases v, 0, 2
  {
    match defs[name]
    case EmptyStruct => v.VEmptyStruct? && j == Null
    case Newtype(t) => v.VNewtype? && Wires(defs, t, v.inner, j)
    case Object(fields) => WiresRecord(defs, fields, v, j)
    case Enum(names) =>
      && v.VCase? && v.payload.None?
      && exists k | 0 <= k < |names| :: v.ctor == VariantNameOf(names[k]) && j == JString(names[k])
    case OneOf(cases) => exists k | 0 <= k < |cases| :: WiresCase(defs, cases[k], v, j)
  }

  ghost predicate WiresCase(defs: Defs, c: Case, v: Val, j: Json)
    decreases v, 0, 1
  {
    && v.VCase? && v.ctor == VariantNameOf(c.name) && (v.payload.Some? <==> !c.payload.Empty?)
    && match c.payload
       case Empty => j == JString(c.name)
       case Single(t) =>
         j.JAssoc? && |j.entries| == 1 && j.entries[0].0 == c.name && Wires(defs, t, v.payload.value, j.entries[0].1)
       case Record(fields) =>
         && j.JAssoc? && |j.entries| == 1 && j.entries[0].0 == c.name
         && WiresRecord(defs, fields, v.payload.value, j.entries[0].1)
  }

  ghost predicate WiresRecord(defs: Defs, fields: seq<Field>, r: Val, j: Json)
    decreases r, 0, 0
  {
    && r.VRecord? && |r.vs| == |fields| && j.JAssoc?
    && forall i | 0 <= i < |fields| :: WiresField(defs, fields[i], r.vs[i], j.entries)
  }

  ghost predicate WiresField(defs: Defs, f: Field, v: Val, entries: seq<(string, Json)>)
    decreases v, 2
  {
    exists m | 0 <= m < |entries| :: FirstAt(entries, f.name, m) && Wires(defs, f.typ, v, entries[m].1)
  }

  /** The first entry with this key. */
  predicate FirstAt(entries: seq<(string, Json)>, key: string, m: nat)
  {
    m < |entries| && entries[m].0 == key && forall i | 0 <= i < m :: entries[i].0 != key
  }

  /** What stands for nothing: an absent option, a unit, an empty struct, and a
      present option or a newtype of these. */
  predicate Vacant(v: Val)
  {
    match v
    case VNone => true
    case VUnit => true
    case VEmptyStruct => true
    case VSome(w) => Vacant(w)
    case VNewtype(w) => Vacant(w)
    case _ => false
  }

  /** Exactly these values print as null. */
  lemma {:induction false} NullIffVacant(defs: Defs, t: TypeExpr, v: Val)
    requires Typed(defs, t, v)
    ensures Print(defs, t, v).Null? <==> Vacant(v)
    decreases v
  {
    match t
    case TOption(u) => if v.VSome? { NullIffVacant(defs, u, v.v); }
    case TName(name) =>
      match defs[name] {
        case Newtype(u) => NullIffVacant(defs, u, v.inner);
        case _ =>
      }
    case _ =>
  }

  lemma {:induction false} WiresNull(defs: Defs, t: TypeExpr, v: Val, j: Json)
    requires Wires(defs, t, v, j)
    ensures j.Null? <==> Vacant(v)
    decreases v, 1
  {
    match t
    case TOption(u) => if v.VSome? { WiresNull(defs, u, v.v, j); }
    case TName(name) => WiresNullDef(defs, name, v, j);
    case _ =>
  }

  lemma {:induction false} WiresNullDef(defs: Defs, name: string, v: Val, j: Json)
    requires name in defs && WiresDef(defs, name, v, j)
    ensures j.Null? <==> Vacant(v)
    decreases v, 0
  {
    match defs[name]
    case Newtype(u) => WiresNull(defs, u, v.inner, j);
    case OneOf(cases) =>
      var k :| 0 <= k < |cases| && WiresCase(defs, cases[k], v, j);
    case Object(fields) => assert WiresRecord(defs, fields, v, j);
    case _ =>
  }

  // ---------- The parser reads it ----------

  /** Every JSON value that stands for a typed value parses to what the round trip
      keeps of it. */
  lemma {:induction false} ParseWired(defs: Defs, t: TypeExpr, v: Val, j: Json, fuel: nat)
    requires WellFormed(defs) && Typed(defs, t, v) && Wires(defs, t, v, j) && fuel >= Depth(v)
    ensures Parse(defs, t, j, fuel) == Ok(Kept(defs, t, v))
    decreases v, 4
  {
    match t
    case TOption(u) =>
      if v.VSome? {
        NullIffVacant(defs, u, v.v);
        WiresNull(defs, u, v.v, j);
        if !j.Null? { ParseWired(defs, u, v.v, j, fuel); }
      }
    case TTuple(ts) =>
      forall i | 0 <= i < |ts| ensures Parse(defs, ts[i], j.items[i], fuel) == Ok(Kept(defs, ts[i], v.vs[i])) {
        DepthAt(v.vs, i);
        ParseWired(defs, ts[i], v.vs[i], j.items[i], fuel);
      }
      PartsParsed(defs, ts, j.items, Kept(defs, t, v).vs, fuel);
    case TArray(u) =>
      forall i | 0 <= i < |v.vs| ensures Parse(defs, u, j.items[i], fuel) == Ok(Kept(defs, u, v.vs[i])) {
        DepthAt(v.vs, i);
        ParseWired(defs, u, v.vs[i], j.items[i], fuel);
      }
      ItemsParsed(defs, u, j.items, Kept(defs, t, v).vs, fuel);
    case TName(n) =>
      DepthPositive(defs, n, v);
      ParseWiredDef(defs, n, v, j, fuel - 1);
    case _ =>
  }

  lemma DepthPositive(defs: Defs, name: string, v: Val)
    requires name in defs && TypedDef(defs, name, v)
    ensures Depth(v) >= 1
  {
  }

  lemma {:induction false} ParseWiredRecord(defs: Defs, def: string, fields: seq<Field>, r: Val, j: Json, fuel: nat)
    requires WellFormed(defs) && r.VRecord? && |r.vs| == |fields| && fuel >= DepthAll(r.vs)
    requires forall i | 0 <= i < |fields| :: Typed(defs, fields[i].typ, r.vs[i])
    requires WiresRecord(defs, fields, r, j)
    ensures ParseRecord(defs, def, fields, j, fuel) == Ok(KeptRecord(defs, def, fields, r))
    decreases r, 0
  {
    var vs := KeptRecord(defs, def, fields, r).vs;
    forall i | 0 <= i < |fields| ensures FieldParses(defs, def, fields[i], j.entries, vs[i], fuel) {
      assert WiresField(defs, fields[i], r.vs[i], j.entries);
      var m :| 0 <= m < |j.entries| && FirstAt(j.entries, fields[i].name, m)
        && Wires(defs, fields[i].typ, r.vs[i], j.entries[m].1);
      AssocFinds(j.entries, m);
      DepthAt(r.vs, i);
      ParseWired(defs, fields[i].typ, r.vs[i], j.entries[m].1, fuel);
    }
    FieldsParsed(defs, def, fields, j.entries, vs, 0, fuel);
    assert fields[0..] == fields && vs[0..] == vs;
  }

  lemma {:induction false} ParseWiredDef(defs: Defs, name: string, v: Val, j: Json, fuel: nat)
    requires WellFormed(defs) && name in defs && TypedDef(defs, name, v)
    requires WiresDef(defs, name, v, j) && fuel + 1 >= Depth(v)
    ensures ParseDef(defs, name, j, fuel) == Ok(KeptDef(defs, name, v))
    decreases v, 3
  {
    assert WellFormedDef(defs[name]);
    match defs[name]
    case EmptyStruct =>
    case Newtype(t) => ParseWired(defs, t, v.inner, j, fuel);
    case Object(fields) => ParseWiredRecord(defs, name, fields, v, j, fuel);
    case Enum(names) =>
      var k :| 0 <= k < |names| && v.ctor == VariantNameOf(names[k]) && j == JString(names[k]);
      NameFinds(names, k);
    case OneOf(cases) => ParseWiredCase(defs, name, v, j, fuel);
  }

  lemma {:induction false} ParseWiredCase(defs: Defs, name: string, v: Val, j: Json, fuel: nat)
    requires WellFormed(defs) && name in defs && TypedDef(defs, name, v) && defs[name].OneOf?
    requires WiresDef(defs, name, v, j) && fuel + 1 >= Depth(v)
    ensures ParseDef(defs, name, j, fuel) == Ok(KeptDef(defs, name, v))
    decreases v, 2
  {
    assert WellFormedDef(defs[name]);
    var cases := defs[name].cases;
    var k :| 0 <= k < |cases| && WiresCase(defs, cases[k], v, j);
    CtorFinds(cases, k);
    CaseFinds(cases, k);
    if v.payload.Some? {
      if cases[k].payload.Single? {
        ParseWiredSingle(defs, name, v, j, fuel, k);
      } else {
        ParseWiredFields(defs, name, v, j, fuel, k);
      }
    }
  }

  lemma {:induction false} ParseWiredSingle(defs: Defs, name: string, v: Val, j: Json, fuel: nat, k: nat)
    requires WellFormed(defs) && name in defs && TypedDef(defs, name, v) && defs[name].OneOf? && fuel + 1 >= Depth(v)
    requires k < |defs[name].cases| && WiresCase(defs, defs[name].cases[k], v, j) && v.payload.Some?
    requires FindCtor(defs[name].cases, v.ctor) == Some(k) && defs[name].cases[k].payload.Single?
    requires FindCase(defs[name].cases, defs[name].cases[k].name, false) == Some(k)
    ensures ParseDef(defs, name, j, fuel) == Ok(KeptDef(defs, name, v))
    decreases v, 1
  {
    var c := defs[name].cases[k];
    ParseWired(defs, c.payload.typ, v.payload.value, j.entries[0].1, fuel);
    KeptPayload(defs, name, v, k);
    SingleParsed(defs, name, c, j, fuel, Kept(defs, c.payload.typ, v.payload.value));
  }

  lemma {:induction false} ParseWiredFields(defs: Defs, name: string, v: Val, j: Json, fuel: nat, k: nat)
    requires WellFormed(defs) && name in defs && TypedDef(defs, name, v) && defs[name].OneOf? && fuel + 1 >= Depth(v)
    requires k < |defs[name].cases| && WiresCase(defs, defs[name].cases[k], v, j) && v.payload.Some?
    requires FindCtor(defs[name].cases, v.ctor) == Some(k) && defs[name].cases[k].payload.Record?
    requires FindCase(defs[name].cases, defs[name].cases[k].name, false) == Some(k)
    ensures ParseDef(defs, name, j, fuel) == Ok(KeptDef(defs, name, v))
    decreases v, 1
  {
    var c := defs[name].cases[k];
    ParseWiredRecord(defs, name, c.payload.fields, v.payload.value, j.entries[0].1, fuel);
    KeptPayload(defs, name, v, k);
    RecordParsed(defs, name, c, j, fuel, KeptRecord(defs, name, c.payload.fields, v.payload.value));
  }

  lemma KeptPayload(defs: Defs, name: string, v: Val, k: nat)
    requires name in defs && TypedDef(defs, name, v) && defs[name].OneOf? && v.payload.Some?
    requires FindCtor(defs[name].cases, v.ctor) == Some(k)
    ensures var p := defs[name].cases[k].payload; p.Single? ==>
      KeptDef(defs, name, v) == VCase(v.ctor, Some(Kept(defs, p.typ, v.payload.value)))
    ensures var p := defs[name].cases[k].payload; p.Record? ==>
      KeptDef(defs, name, v) == VCase(v.ctor, Some(KeptRecord(defs, name, p.fields, v.payload.value)))
  {
  }

  lemma SingleParsed(defs: Defs, name: string, c: Case, j: Json, fuel: nat, w: Val)
    requires name in defs && defs[name].OneOf? && c.payload.Single? && c in defs[name].cases
    requires j.JAssoc? && |j.entries| == 1 && j.entries[0].0 == c.name
    requires var k := FindCase(defs[name].cases, c.name, false); k.Some? && defs[name].cases[k.value] == c
    requires Parse(defs, c.payload.typ, j.entries[0].1, fuel) == Ok(w)
    ensures ParseDef(defs, name, j, fuel) == Ok(VCase(VariantNameOf(c.name), Some(w)))
  {
  }

  lemma RecordParsed(defs: Defs, name: string, c: Case, j: Json, fuel: nat, w: Val)
    requires name in defs && defs[name].OneOf? && c.payload.Record? && c in defs[name].cases
    requires j.JAssoc? && |j.entries| == 1 && j.entries[0].0 == c.name
    requires var k := FindCase(defs[name].cases, c.name, false); k.Some? && defs[name].cases[k.value] == c
    requires ParseRecord(defs, name, c.payload.fields, j.entries[0].1, fuel) == Ok(w)
    ensures ParseDef(defs, name, j, fuel) == Ok(VCase(VariantNameOf(c.name), Some(w)))
  {
  }

  // ---------- The printer writes it ----------

  /** What is printed of a typed value stands for it, also after it has been read
      again. */
  lemma {:induction false} ArrivesWired(defs: Defs, t: TypeExpr, v: Val, j: Json)
    requires WellFormed(defs) && Typed(defs, t, v) && Arrives(Print(defs, t, v), j)
    ensures Wires(defs, t, v, j)
    decreases v, 3
  {
    match t
    case TOption(u) => if v.VSome? { ArrivesWired(defs, u, v.v, j); }
    case TTuple(ts) =>
      forall i | 0 <= i < |ts| ensures Wires(defs, ts[i], v.vs[i], j.items[i]) {
        ArrivesWired(defs, ts[i], v.vs[i], j.items[i]);
      }
    case TArray(u) =>
      forall i | 0 <= i < |v.vs| ensures Wires(defs, u, v.vs[i], j.items[i]) {
        ArrivesWired(defs, u, v.vs[i], j.items[i]);
      }
    case TInteger(repr) =>
      if v.VInt? { Decimal.ReadShow(v.n); }
      if j.JInt? { Decimal.ReadShow(j.n); }
    case TName(n) => ArrivesWiredDef(defs, n, v, j);
    case _ =>
  }

  lemma {:induction false} ArrivesWiredFields(defs: Defs, fields: seq<Field>, r: Val, j: Json)
    requires WellFormed(defs) && DistinctFields(fields) && r.VRecord? && |r.vs| == |fields|
    requires forall i | 0 <= i < |fields| :: Typed(defs, fields[i].typ, r.vs[i])
    requires j.JAssoc? && |j.entries| == |fields|
    requires forall i | 0 <= i < |fields| ::
      j.entries[i].0 == fields[i].name && Arrives(Print(defs, fields[i].typ, r.vs[i]), j.entries[i].1)
    ensures WiresRecord(defs, fields, r, j)
    decreases r, 0
  {
    forall i | 0 <= i < |fields|
      ensures WiresField(defs, fields[i], r.vs[i], j.entries)
    {
      ArrivesWired(defs, fields[i].typ, r.vs[i], j.entries[i].1);
      assert FirstAt(j.entries, fields[i].name, i);
    }
  }

  lemma {:induction false} ArrivesWiredDef(defs: Defs, name: string, v: Val, j: Json)
    requires WellFormed(defs) && name in defs && TypedDef(defs, name, v) && Arrives(PrintDef(defs, name, v), j)
    ensures WiresDef(defs, name, v, j)
    decreases v, 2
  {
    assert WellFormedDef(defs[name]);
    match defs[name]
    case EmptyStruct =>
    case Newtype(t) => ArrivesWired(defs, t, v.inner, j);
    case Object(fields) => ArrivesWiredFields(defs, fields, v, j);
    case Enum(names) =>
      var k := FindName(names, v.ctor, true).value;
      assert v.ctor == VariantNameOf(names[k]) && j == JString(names[k]);
    case OneOf(cases) => ArrivesWiredCase(defs, name, v, j);
  }

  lemma {:induction false} ArrivesWiredCase(defs: Defs, name: string, v: Val, j: Json)
    requires WellFormed(defs) && name in defs && TypedDef(defs, name, v) && defs[name].OneOf?
    requires Arrives(PrintDef(defs, name, v), j)
    ensures WiresDef(defs, name, v, j)
    decreases v, 1
  {
    assert WellFormedDef(defs[name]);
    var cases := defs[name].cases;
    var k := FindCtor(cases, v.ctor).value;
    assert v.ctor == VariantNameOf(cases[k].name);
    match cases[k].payload {
      case Empty =>
      case Single(t) => ArrivesWired(defs, t, v.payload.value, j.entries[0].1);
      case Record(fields) => ArrivesWiredFields(defs, fields, v.payload.value, j.entries[0].1);
    }
    assert WiresCase(defs, cases[k], v, j);
  }

  /** What is printed of a typed value stands for it. */
  lemma PrintWires(defs: Defs, t: TypeExpr, v: Val)
    requires WellFormed(defs) && Typed(defs, t, v)
    ensures Wires(defs, t, v, Print(defs, t, v)) && Wires(defs, t, v, Wire(Print(defs, t, v)))
  {
    WireArrives(Print(defs, t, v));
    ArrivesWired(defs, t, v, Print(defs, t, v));
    ArrivesWired(defs, t, v, Wire(Print(defs, t, v)));
  }

  // ---------- The round trip ----------

  /** Whatever may arrive of a printed value parses to what the round trip keeps. */
  lemma ParsePrint(defs: Defs, t: TypeExpr, v: Val, j: Json, fuel: nat)
    requires WellFormed(defs) && Typed(defs, t, v) && Arrives(Print(defs, t, v), j) && fuel >= Depth(v)
    ensures Parse(defs, t, j, fuel) == Ok(Kept(defs, t, v))
  {
    ArrivesWired(defs, t, v, j);
    ParseWired(defs, t, v, j, fuel);
  }

  lemma {:induction false} NameFinds(names: seq<string>, k: nat)
    requires k < |names|
    requires forall i, j | 0 <= i < j < |names| :: VariantNameOf(names[i]) != VariantNameOf(names[j])
    ensures FindName(names, names[k], false) == Some(k)
  {
    if k > 0 { NameFinds(names[1..], k - 1); }
  }

  lemma {:induction false} CtorFinds(cases: seq<Case>, k: nat)
    requires k < |cases|
    requires forall i, j | 0 <= i < j < |cases| :: VariantNameOf(cases[i].name) != VariantNameOf(cases[j].name)
    ensures FindCtor(cases, VariantNameOf(cases[k].name)) == Some(k)
  {
    if k > 0 { CtorFinds(cases[1..], k - 1); }
  }

  lemma {:induction false} CaseFinds(cases: seq<Case>, k: nat)
    requires k < |cases|
    requires forall i, j | 0 <= i < j < |cases| :: VariantNameOf(cases[i].name) != VariantNameOf(cases[j].name)
    ensures FindCase(cases, cases[k].name, cases[k].payload.Empty?) == Some(k)
  {
    if k > 0 { CaseFinds(cases[1..], k - 1); }
  }

  /** Directly, and through the text on the wire. */
  lemma RoundTrip(defs: Defs, t: TypeExpr, v: Val, fuel: nat)
    requires WellFormed(defs) && Typed(defs, t, v) && fuel >= Depth(v)
    ensures Parse(defs, t, Print(defs, t, v), fuel) == Ok(Kept(defs, t, v))
    ensures Parse(defs, t, Wire(Print(defs, t, v)), fuel) == Ok(Kept(defs, t, v))
  {
    WireArrives(Print(defs, t, v));
    ParsePrint(defs, t, v, Print(defs, t, v), fuel);
    ParsePrint(defs, t, v, Wire(Print(defs, t, v)), fuel);
  }

  // ---------- Exactly which values survive ----------

  /** No present option in the value holds something vacant, and its indices are
      zero. */
  predicate Clean(defs: Defs, t: TypeExpr, v: Val)
    decreases v, 3
  {
    match t
    case TOption(u) => v.VSome? ==> !Vacant(v.v) && Clean(defs, u, v.v)
    case TTuple(ts) => v.VTuple? && |v.vs| == |ts| ==> forall i | 0 <= i < |ts| :: Clean(defs, ts[i], v.vs[i])
    case TArray(u) => v.VList? ==> forall i | 0 <= i < |v.vs| :: Clean(defs, u, v.vs[i])
    case TName(n) => n in defs ==> CleanDef(defs, n, v)
    case _ => true
  }

  predicate CleanRecord(defs: Defs, def: string, fields: seq<Field>, r: Val)
    requires r.VRecord? && |r.vs| == |fields|
    decreases r, 1
  {
    forall i | 0 <= i < |fields| ::
      if Zeroed(def, fields[i].name) then r.vs[i] == ZERO_INDEX else Clean(defs, fields[i].typ, r.vs[i])
  }

  predicate CleanDef(defs: Defs, name: string, v: Val)
    requires name in defs
    decreases v, 2
  {
    match defs[name]
    case Newtype(t) => v.VNewtype? ==> Clean(defs, t, v.inner)
    case Object(fields) => v.VRecord? && |v.vs| == |fields| ==> CleanRecord(defs, name, fields, v)
    case OneOf(cases) =>
      v.VCase? && v.payload.Some? && FindCtor(cases, v.ctor).Some? ==>
      (match cases[FindCtor(cases, v.ctor).value].payload
       case Empty => true
       case Single(t) => Clean(defs, t, v.payload.value)
       case Record(fields) =>
         var r := v.payload.value;
         r.VRecord? && |r.vs| == |fields| ==> CleanRecord(defs, name, fields, r))
    case _ => true
  }

  lemma {:induction false} KeptIffClean(defs: Defs, t: TypeExpr, v: Val)
    requires Typed(defs, t, v)
    ensures Kept(defs, t, v) == v <==> Clean(defs, t, v)
    decreases v, 3
  {
    match t
    case TOption(u) =>
      if v.VSome? {
        NullIffVacant(defs, u, v.v);
        KeptIffClean(defs, u, v.v);
      }
    case TTuple(ts) =>
      forall i | 0 <= i < |ts| ensures Kept(defs, ts[i], v.vs[i]) == v.vs[i] <==> Clean(defs, ts[i], v.vs[i]) {
        KeptIffClean(defs, ts[i], v.vs[i]);
      }
      SameSeq(Kept(defs, t, v).vs, v.vs);
    case TArray(u) =>
      forall i | 0 <= i < |v.vs| ensures Kept(defs, u, v.vs[i]) == v.vs[i] <==> Clean(defs, u, v.vs[i]) {
        KeptIffClean(defs, u, v.vs[i]);
      }
      SameSeq(Kept(defs, t, v).vs, v.vs);
    case TName(n) => KeptDefIffClean(defs, n, v);
    case _ =>
  }

  lemma SameSeq(a: seq<Val>, b: seq<Val>)
    requires |a| == |b|
    ensures a == b <==> forall i | 0 <= i < |a| :: a[i] == b[i]
  {
  }

  lemma {:induction false} KeptRecordIffClean(defs: Defs, def: string, fields: seq<Field>, r: Val)
    requires r.VRecord? && |r.vs| == |fields| && forall i | 0 <= i < |fields| :: Typed(defs, fields[i].typ, r.vs[i])
    ensures KeptRecord(defs, def, fields, r) == r <==> CleanRecord(defs, def, fields, r)
    decreases r, 1
  {
    forall i | 0 <= i < |fields|
      ensures Kept(defs, fields[i].typ, r.vs[i]) == r.vs[i] <==> Clean(defs, fields[i].typ, r.vs[i])
    {
      KeptIffClean(defs, fields[i].typ, r.vs[i]);
    }
    SameSeq(KeptRecord(defs, def, fields, r).vs, r.vs);
  }

  lemma {:induction false} KeptDefIffClean(defs: Defs, name: string, v: Val)
    requires name in defs && TypedDef(defs, name, v)
    ensures KeptDef(defs, name, v) == v <==> CleanDef(defs, name, v)
    decreases v, 2
  {
    match defs[name]
    case Newtype(t) => KeptIffClean(defs, t, v.inner);
    case Object(fields) => KeptRecordIffClean(defs, name, fields, v);
    case OneOf(cases) =>
      if v.payload.Some? {
        match cases[FindCtor(cases, v.ctor).value].payload
        case Empty =>
        case Single(t) => KeptIffClean(defs, t, v.payload.value);
        case Record(fields) => KeptRecordIffClean(defs, name, fields, v.payload.value);
      }
    case _ =>
  }

  /** A well-typed value survives the round trip if and only if it is clean. */
  lemma SurvivesIffClean(defs: Defs, t: TypeExpr, v: Val, fuel: nat)
    requires WellFormed(defs) && Typed(defs, t, v) && fuel >= Depth(v)
    ensures Parse(defs, t, Wire(Print(defs, t, v)), fuel) == Ok(v) <==> Clean(defs, t, v)
  {
    RoundTrip(defs, t, v, fuel);
    KeptIffClean(defs, t, v);
  }

  /** An option that is present but holds an absent one comes back absent. */
  lemma NestedOptionLost(defs: Defs)
    ensures var t, v := TOption(TOption(TBool)), VSome(VNone);
      Typed(defs, t, v) && Parse(defs, t, Wire(Print(defs, t, v)), 0) == Ok(VNone)
  {
  }

  // ---------- Schemas all of whose values survive ----------

  /** No value of the type prints as null; `n` bounds a chain of newtypes. */
  predicate NullFree(defs: Defs, t: TypeExpr, n: nat)
    decreases n
  {
    match t
    case TOption(_) => false
    case TUnit => false
    case TName(m) =>
      m in defs && (match defs[m]
        case EmptyStruct => false
        case Newtype(u) => n > 0 && NullFree(defs, u, n - 1)
        case _ => true)
    case _ => true
  }

  lemma {:induction false} NullFreePrints(defs: Defs, t: TypeExpr, v: Val, n: nat)
    requires Typed(defs, t, v) && NullFree(defs, t, n)
    ensures !Print(defs, t, v).Null?
    decreases n
  {
    if t.TName? && defs[t.name].Newtype? { NullFreePrints(defs, defs[t.name].typ, v.inner, n - 1); }
  }

  predicate Sound(defs: Defs, t: TypeExpr, n: nat)
  {
    match t
    case TOption(u) => NullFree(defs, u, n) && Sound(defs, u, n)
    case TTuple(ts) => forall i | 0 <= i < |ts| :: Sound(defs, ts[i], n)
    case TArray(u) => Sound(defs, u, n)
    case _ => true
  }

  predicate SoundFields(defs: Defs, def: string, fields: seq<Field>, n: nat)
  {
    forall i | 0 <= i < |fields| :: !Zeroed(def, fields[i].name) && Sound(defs, fields[i].typ, n)
  }

  /** Every option in the schema holds a null-free type, and no index is zeroed. */
  predicate SoundSchema(defs: Defs, n: nat)
  {
    forall name <- defs :: SoundDef(defs, name, n)
  }

  predicate SoundDef(defs: Defs, name: string, n: nat)
    requires name in defs
  {
    match defs[name]
    case Newtype(t) => Sound(defs, t, n)
    case Object(fields) => SoundFields(defs, name, fields, n)
    case OneOf(cases) =>
      forall i | 0 <= i < |cases| ::
        (match cases[i].payload
         case Empty => true
         case Single(t) => Sound(defs, t, n)
         case Record(fields) => SoundFields(defs, name, fields, n))
    case _ => true
  }

  lemma {:induction false} SoundClean(defs: Defs, t: TypeExpr, v: Val, n: nat)
    requires SoundSchema(defs, n) && Sound(defs, t, n) && Typed(defs, t, v)
    ensures Clean(defs, t, v)
    decreases v, 3
  {
    match t
    case TOption(u) =>
      if v.VSome? {
        NullFreePrints(defs, u, v.v, n);
        NullIffVacant(defs, u, v.v);
        SoundClean(defs, u, v.v, n);
      }
    case TTuple(ts) =>
      forall i | 0 <= i < |ts| ensures Clean(defs, ts[i], v.vs[i]) { SoundClean(defs, ts[i], v.vs[i], n); }
    case TArray(u) => forall i | 0 <= i < |v.vs| ensures Clean(defs, u, v.vs[i]) { SoundClean(defs, u, v.vs[i], n); }
    case TName(name) => SoundCleanDef(defs, name, v, n);
    case _ =>
  }

  lemma {:induction false} SoundCleanRecord(defs: Defs, def: string, fields: seq<Field>, r: Val, n: nat)
    requires SoundSchema(defs, n) && SoundFields(defs, def, fields, n)
    requires r.VRecord? && |r.vs| == |fields| && forall i | 0 <= i < |fields| :: Typed(defs, fields[i].typ, r.vs[i])
    ensures CleanRecord(defs, def, fields, r)
    decreases r, 1
  {
    forall i | 0 <= i < |fields| ensures Clean(defs, fields[i].typ, r.vs[i]) {
      SoundClean(defs, fields[i].typ, r.vs[i], n);
    }
  }

  lemma {:induction false} SoundCleanDef(defs: Defs, name: string, v: Val, n: nat)
    requires SoundSchema(defs, n) && name in defs && TypedDef(defs, name, v)
    ensures CleanDef(defs, name, v)
    decreases v, 2
  {
    assert SoundDef(defs, name, n);
    match defs[name]
    case Newtype(t) => SoundClean(defs, t, v.inner, n);
    case Object(fields) => SoundCleanRecord(defs, name, fields, v, n);
    case OneOf(cases) =>
      if v.payload.Some? {
        match cases[FindCtor(cases, v.ctor).value].payload
        case Empty =>
        case Single(t) => SoundClean(defs, t, v.payload.value, n);
        case Record(fields) => SoundCleanRecord(defs, name, fields, v.payload.value, n);
      }
    case _ =>
  }

  /** For such a schema every value of every type comes back from the wire. */
  lemma SoundRoundTrip(defs: Defs, t: TypeExpr, v: Val, n: nat, fuel: nat)
    requires WellFormed(defs) && SoundSchema(defs, n) && Sound(defs, t, n) && Typed(defs, t, v) && fuel >= Depth(v)
    ensures Parse(defs, t, Wire(Print(defs, t, v)), fuel) == Ok(v)
  {
    SoundClean(defs, t, v, n);
    SurvivesIffClean(defs, t, v, fuel);
  }

  // ---------- Names and representations ----------

  /** `Some` and `None` are kept apart from OCaml's own; other names are capitalised. */
  lemma VariantNames(c: char, rest: string)
    ensures VariantNameOf("Some") == "Some'" && VariantNameOf("None") == "None'"
    ensures 'a' <= c <= 'z' && [c] + rest != "some" && [c] + rest != "none" ==>
      VariantNameOf([c] + rest) == [(c as int - 'a' as int + 'A' as int) as char] + rest
    ensures !('a' <= c <= 'z') && [c] + rest != "Some" && [c] + rest != "None" ==>
      VariantNameOf([c] + rest) == [c] + rest
  {
    assert ([c] + rest)[1..] == rest;
  }

  /** Booleans and strings are written and read as they are, small integers as numbers
      and others as numerals. */
  lemma Scalars(defs: Defs, b: bool, s: string, n: int, fuel: nat)
    ensures Print(defs, TBool, VBool(b)) == JBool(b) && Parse(defs, TBool, JBool(b), fuel) == Ok(VBool(b))
    ensures Print(defs, TString, VString(s)) == JString(s) && Parse(defs, TString, JString(s), fuel) == Ok(VString(s))
    ensures Print(defs, TChar, VString(s)) == JString(s) && Parse(defs, TChar, JString(s), fuel) == Ok(VString(s))
    ensures Print(defs, TInteger(AsInt), VInt(n)) == JInt(n)
    ensures Parse(defs, TInteger(AsInt), JInt(n), fuel) == Ok(VInt(n))
    ensures Print(defs, TInteger(Int64), VInt(n)) == JIntlit(Decimal.Show(n))
    ensures Print(defs, TInteger(AsString), VString(s)) == JIntlit(s)
  {
  }

  /** A present option that holds what stands for nothing is lost; another keeps what is
      kept of its content. */
  lemma KeptOption(defs: Defs, u: TypeExpr, w: Val)
    requires Typed(defs, u, w)
    ensures Kept(defs, TOption(u), VSome(w)) == if Vacant(w) then VNone else VSome(Kept(defs, u, w))
  {
    NullIffVacant(defs, u, w);
  }

  /** An empty struct is read from any JSON. */
  lemma EmptyStructRead(defs: Defs, name: string, j: Json, fuel: nat)
    requires name in defs && defs[name] == EmptyStruct && fuel >= 1
    ensures Parse(defs, TName(name), j, fuel) == Ok(VEmptyStruct)
  {
  }

  /** What the parser refuses of the wrong kind: everything but the matching JSON. */
  lemma WrongKind(defs: Defs, j: Json, repr: Repr, fuel: nat)
    ensures !j.JBool? ==> Parse(defs, TBool, j, fuel).Err?
    ensures !j.JString? ==> Parse(defs, TString, j, fuel).Err? && Parse(defs, TChar, j, fuel).Err?
    ensures !j.JInt? && !j.JIntlit? ==> Parse(defs, TInteger(repr), j, fuel).Err?
    ensures !j.Null? ==> Parse(defs, TUnit, j, fuel).Err?
  {
  }

  /** A record that lacks a field is refused by that field's name. */
  lemma MissingRefused(defs: Defs, def: string, f: Field, fields: seq<Field>, entries: seq<(string, Json)>, fuel: nat)
    requires !Zeroed(def, f.name) && forall i | 0 <= i < |entries| :: entries[i].0 != f.name
    ensures ParseFields(defs, def, [f] + fields, entries, fuel) == Err(MissingField(f.name))
  {
    AssocMisses(entries, f.name);
  }

  lemma {:induction false} AssocMisses(entries: seq<(string, Json)>, key: string)
    requires forall i | 0 <= i < |entries| :: entries[i].0 != key
    ensures AssocOpt(entries, key) == None
  {
    if entries != [] { AssocMisses(entries[1..], key); }
  }

  /** Only the `index` of a `DefId` is zeroed, and to `(0, 0, None)`. */
  lemma ZeroedOnly(def: string, field: string)
    ensures Zeroed(def, field) <==> def == "def_id_contents" && field == "index"
    ensures ZERO_INDEX == VTuple([VInt(0), VInt(0), VNone])
  {
  }

  // ---------- Integer formats ----------

  datatype IntFormat = IntFormat(name: string, signed: bool, bits: nat)

  /** `int_repr_of_format`, on the formats of Rust's integers. */
  function ReprOf(f: IntFormat): Repr
  {
    if f.bits == 128 || (!f.signed && f.bits == 64) then AsString
    else if f.name == "int64" || (!f.signed && f.bits == 32) then Int64
    else AsInt
  }

  /** The choice by name. */
  lemma ReprByName(f: IntFormat)
    requires f in FORMATS
    ensures ReprOf(f).AsString? <==> f.name in {"int128", "uint128", "uint64", "uint"}
    ensures ReprOf(f).Int64? <==> f.name in {"int64", "uint32"}
  {
  }

  /** `int` is `isize` and `uint` is `usize`, both 64 bits wide. */
  const FORMATS := [
    IntFormat("int8", true, 8), IntFormat("int16", true, 16), IntFormat("int32", true, 32),
    IntFormat("int64", true, 64), IntFormat("int128", true, 128), IntFormat("int", true, 64),
    IntFormat("uint8", false, 8), IntFormat("uint16", false, 16), IntFormat("uint32", false, 32),
    IntFormat("uint64", false, 64), IntFormat("uint128", false, 128), IntFormat("uint", false, 64)]

  predicate InRange(f: IntFormat, n: int)
    requires f.bits >= 1
  {
    if f.signed then 0 - Pow2(f.bits - 1) <= n < Pow2(f.bits - 1) else 0 <= n < Pow2(f.bits)
  }

  /** The numeral of `n` arrives at a parser for its representation. */
  predicate ReadsBack(repr: Repr, n: int)
  {
    Parse(map[], TInteger(repr), Wire(JIntlit(Decimal.Show(n))), 0)
      == Ok(if repr.AsString? then VString(Decimal.Show(n)) else VInt(n))
  }

  /** Exactly one Rust integer format has values the generated parser refuses:
      `isize`, which is given OCaml's 63-bit integers. */
  lemma FormatsReadBack(f: IntFormat)
    requires f in FORMATS
    ensures (forall n | InRange(f, n) :: ReadsBack(ReprOf(f), n)) <==> f.name != "int"
  {
    if f.name == "int" {
      IsizeRefused(f);
    } else {
      forall n | InRange(f, n) ensures ReadsBack(ReprOf(f), n) {
        ReadsBackIff(ReprOf(f), n);
        FormatShapes(f);
        FormatFits(f, n);
      }
    }
  }

  lemma IsizeRefused(f: IntFormat)
    requires f.name == "int" && f.signed && f.bits == 64
    ensures exists n :: InRange(f, n) && !ReadsBack(ReprOf(f), n)
  {
    Pow2SixtyThree();
    var big := 0x4000_0000_0000_0000;
    assert InRange(f, big);
    ReadsBackIff(AsInt, big);
  }

  lemma FormatShapes(f: IntFormat)
    requires f in FORMATS && f.name != "int"
    ensures 1 <= f.bits <= 32 || f.bits == 128 || (f.bits == 64 && (!f.signed || f.name == "int64"))
  {
  }

  lemma FormatFits(f: IntFormat, n: int)
    requires f.bits >= 1 && InRange(f, n)
    requires f.bits <= 32 || f.bits == 128 || (f.bits == 64 && (!f.signed || f.name == "int64"))
    ensures ReprOf(f).AsString? || Fits(n, if ReprOf(f).Int64? then 64 else 63)
  {
    Pow2Words();
    Pow2SixtyThree();
    if f.bits <= 32 {
      Pow2Monotone(f.bits, 32);
      Pow2Monotone(f.bits - 1, 32);
    }
  }

  lemma ReadsBackIff(repr: Repr, n: int)
    ensures ReadsBack(repr, n) <==> repr.AsString? || Fits(n, if repr.Int64? then 64 else 63)
  {
    Decimal.ReadShow(n);
  }
}
