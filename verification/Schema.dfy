/** The OCaml parser and printer that are generated for a JSON schema, run
    generically over the schema's type expressions and definitions. */
module Schema {
  import opened Wrappers
  import Decimal

  // ---------- Schemas, JSON, OCaml values ----------

  datatype Repr = Int64 | AsString | AsInt

  datatype TypeExpr =
    | TOption(inner: TypeExpr)
    | TUnit
    | TTuple(parts: seq<TypeExpr>)
    | TArray(item: TypeExpr)
    | TBool
    | TString
    | TChar
    | TInteger(repr: Repr)
    | TName(name: string)

  datatype Field = Field(name: string, typ: TypeExpr)

  datatype Payload = Empty | Single(typ: TypeExpr) | Record(fields: seq<Field>)

  datatype Case = Case(name: string, payload: Payload)

  /** The shapes of definition the generator has an exporter for. */
  datatype Def =
    | OneOf(cases: seq<Case>)
    | EmptyStruct
    | Newtype(typ: TypeExpr)
    | Object(fields: seq<Field>)
    | Enum(names: seq<string>)

  /** Definitions under their OCaml type names. */
  type Defs = map<string, Def>

  datatype Json =
    | Null
    | JBool(b: bool)
    | JInt(n: int)
    | JIntlit(lit: string)
    | JString(s: string)
    | JList(items: seq<Json>)
    | JAssoc(entries: seq<(string, Json)>)

  datatype Val =
    | VNone
    | VSome(v: Val)
    | VUnit
    | VTuple(vs: seq<Val>)
    | VList(vs: seq<Val>)
    | VBool(b: bool)
    | VString(s: string)
    | VInt(n: int)
    | VEmptyStruct
    | VNewtype(inner: Val)
    | VRecord(vs: seq<Val>)
    | VCase(ctor: string, payload: Option<Val>)

  // ---------- Names ----------

  function Upper(c: char): char
  {
    if 'a' <= c <= 'z' then (c as int - 32) as char else c
  }

  /** The constructor for a case: capitalised, and kept apart from `Some` and `None`. */
  function VariantNameOf(s: string): string
  {
    var v := if s == [] then s else [Upper(s[0])] + s[1..];
    if v == "Some" || v == "None" then v + "'" else v
  }

  /** Rust `DefId` indices are always read as `(0, 0, None)`. */
  predicate Zeroed(def: string, field: string)
  {
    field == "index" && def == "def_id_contents"
  }

  const ZERO_INDEX := VTuple([VInt(0), VInt(0), VNone])

  /** The first case with this constructor. */
  function FindCtor(cases: seq<Case>, ctor: string): (k: Option<nat>)
    ensures k.Some? ==> k.value < |cases| && VariantNameOf(cases[k.value].name) == ctor
  {
    if cases == [] then None
    else if VariantNameOf(cases[0].name) == ctor then Some(0)
    else match FindCtor(cases[1..], ctor)
      case None => None
      case Some(k) => Some(k + 1)
  }

  /** The first case a JSON value of this name selects: a string selects a case
      without payload, an object one with. */
  function FindCase(cases: seq<Case>, name: string, bare: bool): (k: Option<nat>)
    ensures k.Some? ==> k.value < |cases| && cases[k.value].name == name && cases[k.value].payload.Empty? == bare
  {
    if cases == [] then None
    else if cases[0].name == name && cases[0].payload.Empty? == bare then Some(0)
    else match FindCase(cases[1..], name, bare)
      case None => None
      case Some(k) => Some(k + 1)
  }

  function FindName(names: seq<string>, name: string, ocaml: bool): (k: Option<nat>)
    ensures k.Some? ==> k.value < |names|
    ensures k.Some? ==> (if ocaml then VariantNameOf(names[k.value]) else names[k.value]) == name
  {
    if names == [] then None
    else if (if ocaml then VariantNameOf(names[0]) else names[0]) == name then Some(0)
    else match FindName(names[1..], name, ocaml)
      case None => None
      case Some(k) => Some(k + 1)
  }

  // ---------- Typing ----------

  predicate Fits(n: int, bits: nat)
    requires bits == 63 || bits == 64
  {
    if bits == 63 then -0x4000_0000_0000_0000 <= n < 0x4000_0000_0000_0000
    else -0x8000_0000_0000_0000 <= n < 0x8000_0000_0000_0000
  }

  /** OCaml's typing of a value; big integers kept as strings are numerals. */
  predicate Typed(defs: Defs, t: TypeExpr, v: Val)
    decreases v, 1
  {
    match t
    case TOption(u) => v.VNone? || (v.VSome? && Typed(defs, u, v.v))
    case TUnit => v.VUnit?
    case TTuple(ts) => v.VTuple? && |v.vs| == |ts| && forall i | 0 <= i < |ts| :: Typed(defs, ts[i], v.vs[i])
    case TArray(u) => v.VList? && forall i | 0 <= i < |v.vs| :: Typed(defs, u, v.vs[i])
    case TBool => v.VBool?
    case TString => v.VString?
    case TChar => v.VString?
    case TInteger(Int64) => v.VInt? && Fits(v.n, 64)
    case TInteger(AsString) => v.VString? && Decimal.Canonical(v.s)
    case TInteger(AsInt) => v.VInt? && Fits(v.n, 63)
    case TName(n) => n in defs && TypedDef(defs, n, v)
  }

  predicate TypedDef(defs: Defs, name: string, v: Val)
    requires name in defs
    decreases v, 0
  {
    match defs[name]
    case EmptyStruct => v.VEmptyStruct?
    case Newtype(t) => v.VNewtype? && Typed(defs, t, v.inner)
    case Object(fields) => v.VRecord? && |v.vs| == |fields|
      && forall i | 0 <= i < |fields| :: Typed(defs, fields[i].typ, v.vs[i])
    case Enum(names) => v.VCase? && v.payload.None? && FindName(names, v.ctor, true).Some?
    case OneOf(cases) =>
      v.VCase? &&
      match FindCtor(cases, v.ctor)
      case None => false
      case Some(k) =>
        match cases[k].payload
        case Empty => v.payload.None?
        case Single(t) => v.payload.Some? && Typed(defs, t, v.payload.value)
        case Record(fields) =>
          && v.payload.Some? && v.payload.value.VRecord? && |v.payload.value.vs| == |fields|
          && forall i | 0 <= i < |fields| :: Typed(defs, fields[i].typ, v.payload.value.vs[i])
  }

  /** What a JSON object and an OCaml type definition guarantee: field names are
      distinct, and so are constructors. */
  predicate WellFormed(defs: Defs)
  {
    forall n <- defs :: WellFormedDef(defs[n])
  }

  predicate WellFormedDef(d: Def)
  {
    match d
    case Object(fields) => DistinctFields(fields)
    case Enum(names) => forall i, j | 0 <= i < j < |names| :: VariantNameOf(names[i]) != VariantNameOf(names[j])
    case OneOf(cases) =>
      && (forall i, j | 0 <= i < j < |cases| :: VariantNameOf(cases[i].name) != VariantNameOf(cases[j].name))
      && (forall i | 0 <= i < |cases| :: cases[i].payload.Record? ==> DistinctFields(cases[i].payload.fields))
    case _ => true
  }

  predicate DistinctFields(fields: seq<Field>)
  {
    forall i, j | 0 <= i < j < |fields| :: fields[i].name != fields[j].name
  }

  // ---------- The generated printer ----------

  /** `yojson_of`; an ill-typed value, which OCaml does not admit, prints as null. */
  function Print(defs: Defs, t: TypeExpr, v: Val): Json
    decreases v, 1
  {
    match t
    case TOption(u) => if v.VSome? then Print(defs, u, v.v) else Null
    case TUnit => Null
    case TTuple(ts) =>
      if v.VTuple? && |v.vs| == |ts|
      then JList(seq(|ts|, i requires 0 <= i < |ts| => Print(defs, ts[i], v.vs[i]))) else Null
    case TArray(u) =>
      if v.VList? then JList(seq(|v.vs|, i requires 0 <= i < |v.vs| => Print(defs, u, v.vs[i]))) else Null
    case TBool => if v.VBool? then JBool(v.b) else Null
    case TString => if v.VString? then JString(v.s) else Null
    case TChar => if v.VString? then JString(v.s) else Null
    case TInteger(Int64) => if v.VInt? then JIntlit(Decimal.Show(v.n)) else Null
    case TInteger(AsString) => if v.VString? then JIntlit(v.s) else Null
    case TInteger(AsInt) => if v.VInt? then JInt(v.n) else Null
    case TName(n) => if n in defs then PrintDef(defs, n, v) else Null
  }

  function PrintDef(defs: Defs, name: string, v: Val): Json
    requires name in defs
    decreases v, 0
  {
    match defs[name]
    case EmptyStruct => Null
    case Newtype(t) => if v.VNewtype? then Print(defs, t, v.inner) else Null
    case Object(fields) =>
      if v.VRecord? && |v.vs| == |fields|
      then JAssoc(seq(|fields|, i requires 0 <= i < |fields| => (fields[i].name, Print(defs, fields[i].typ, v.vs[i]))))
      else Null
    case Enum(names) =>
      if !v.VCase? then Null
      else (match FindName(names, v.ctor, true)
            case None => Null
            case Some(k) => JString(names[k]))
    case OneOf(cases) =>
      if !v.VCase? then Null
      else match FindCtor(cases, v.ctor)
        case None => Null
        case Some(k) =>
          match cases[k].payload
          case Empty => JString(cases[k].name)
          case Single(t) =>
            if v.payload.Some? then JAssoc([(cases[k].name, Print(defs, t, v.payload.value))]) else Null
          case Record(fields) =>
            if v.payload.Some? && v.payload.value.VRecord? && |v.payload.value.vs| == |fields| then
              JAssoc([(cases[k].name,
                       JAssoc(seq(|fields|, i requires 0 <= i < |fields| =>
                         (fields[i].name, Print(defs, fields[i].typ, v.payload.value.vs[i])))))])
            else Null
  }

  // ---------- The generated parser ----------

  datatype Error = ParsingError | MissingField(field: string) | TooDeep

  /** `of_yojson`. A newtype may refer to itself without consuming JSON, so the
      recursion through names is bounded by `fuel`. */
  function Parse(defs: Defs, t: TypeExpr, j: Json, fuel: nat): Result<Val, Error>
    decreases fuel, 0, t, 0
  {
    match t
    case TOption(u) =>
      if j.Null? then Ok(VNone)
      else
        var v :- Parse(defs, u, j, fuel);
        Ok(VSome(v))
    case TUnit => if j.Null? then Ok(VUnit) else Err(ParsingError)
    case TTuple(ts) =>
      if j.JList? && |j.items| == |ts| then
        var vs :- ParseParts(defs, ts, j.items, fuel);
        Ok(VTuple(vs))
      else Err(ParsingError)
    case TArray(u) =>
      if j.JList? then
        var vs :- ParseItems(defs, u, j.items, fuel);
        Ok(VList(vs))
      else Err(ParsingError)
    case TBool => if j.JBool? then Ok(VBool(j.b)) else Err(ParsingError)
    case TString => if j.JString? then Ok(VString(j.s)) else Err(ParsingError)
    case TChar => if j.JString? then Ok(VString(j.s)) else Err(ParsingError)
    case TInteger(AsString) =>
      if j.JInt? then Ok(VString(Decimal.Show(j.n)))
      else if j.JIntlit? then Ok(VString(j.lit))
      else Err(ParsingError)
    case TInteger(repr) =>
      if j.JInt? then Ok(VInt(j.n))
      else if j.JIntlit? then
        (match Decimal.Read(j.lit)
         case Some(n) => if Fits(n, if repr.Int64? then 64 else 63) then Ok(VInt(n)) else Err(ParsingError)
         case None => Err(ParsingError))
      else Err(ParsingError)
    case TName(n) =>
      if n !in defs then Err(ParsingError)
      else if fuel == 0 then Err(TooDeep)
      else ParseDef(defs, n, j, fuel - 1)
  }

  function ParseParts(defs: Defs, ts: seq<TypeExpr>, js: seq<Json>, fuel: nat): Result<seq<Val>, Error>
    requires |ts| == |js|
    decreases fuel, 0, ts, 0
  {
    if ts == [] then Ok([])
    else
      var v :- Parse(defs, ts[0], js[0], fuel);
      var vs :- ParseParts(defs, ts[1..], js[1..], fuel);
      Ok([v] + vs)
  }

  function ParseItems(defs: Defs, t: TypeExpr, js: seq<Json>, fuel: nat): Result<seq<Val>, Error>
    decreases fuel, 0, t, |js| + 1
  {
    if js == [] then Ok([])
    else
      var v :- Parse(defs, t, js[0], fuel);
      var vs :- ParseItems(defs, t, js[1..], fuel);
      Ok([v] + vs)
  }

  /** `List.assoc_opt`: the first entry with this key. */
  function AssocOpt(entries: seq<(string, Json)>, key: string): Option<Json>
  {
    if entries == [] then None
    else if entries[0].0 == key then Some(entries[0].1)
    else AssocOpt(entries[1..], key)
  }

  function ParseFields(defs: Defs, def: string, fields: seq<Field>, entries: seq<(string, Json)>, fuel: nat)
    : Result<seq<Val>, Error>
    decreases fuel, 1, |fields|
  {
    if fields == [] then Ok([])
    else
      var v :-
        if Zeroed(def, fields[0].name) then Ok(ZERO_INDEX)
        else match AssocOpt(entries, fields[0].name)
          case None => Err(MissingField(fields[0].name))
          case Some(j) => Parse(defs, fields[0].typ, j, fuel);
      var vs :- ParseFields(defs, def, fields[1..], entries, fuel);
      Ok([v] + vs)
  }

  function ParseRecord(defs: Defs, def: string, fields: seq<Field>, j: Json, fuel: nat): Result<Val, Error>
    decreases fuel, 2
  {
    if !j.JAssoc? then Err(ParsingError)
    else
      var vs :- ParseFields(defs, def, fields, j.entries, fuel);
      Ok(VRecord(vs))
  }

  function ParseDef(defs: Defs, name: string, j: Json, fuel: nat): Result<Val, Error>
    requires name in defs
    decreases fuel, 3
  {
    match defs[name]
    case EmptyStruct => Ok(VEmptyStruct)
    case Newtype(t) =>
      var v :- Parse(defs, t, j, fuel);
      Ok(VNewtype(v))
    case Object(fields) => ParseRecord(defs, name, fields, j, fuel)
    case Enum(names) =>
      if !j.JString? then Err(ParsingError)
      else (match FindName(names, j.s, false)
            case None => Err(ParsingError)
            case Some(k) => Ok(VCase(VariantNameOf(names[k]), None)))
    case OneOf(cases) =>
      if j.JString? then
        (match FindCase(cases, j.s, true)
         case None => Err(ParsingError)
         case Some(k) => Ok(VCase(VariantNameOf(cases[k].name), None)))
      else if j.JAssoc? && |j.entries| == 1 then
        (match FindCase(cases, j.entries[0].0, false)
         case None => Err(ParsingError)
         case Some(k) =>
           var v :-
             if cases[k].payload.Single? then Parse(defs, cases[k].payload.typ, j.entries[0].1, fuel)
             else ParseRecord(defs, name, cases[k].payload.fields, j.entries[0].1, fuel);
           Ok(VCase(VariantNameOf(cases[k].name), Some(v))))
      else Err(ParsingError)
  }
}
