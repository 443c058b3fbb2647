/** The cast function generated for an enum: one arm per variant, giving its
    discriminant. */
module CastOfEnum {
  import opened Wrappers
  import opened ThirSyntax

  /** How rustc exports a discriminant: a constant, or the distance to the last
      variant that has one. */
  datatype Discriminant = Relative(distance: nat) | Explicit(constant: Id)

  datatype Body = Number(n: nat) | Global(constant: Id) | Sum(base: Body, n: nat)

  function ValueOf(body: Body, constants: Id -> int): int
  {
    match body
    case Number(n) => n
    case Global(c) => constants(c)
    case Sum(base, n) => ValueOf(base, constants) + n
  }

  /** An enum declaration: which variants are given a constant. */
  type Declaration = seq<Option<Id>>

  /** The Rust rule: the constant, or one more than the variant before, or 0. */
  function Rust(d: Declaration, i: nat, constants: Id -> int): int
    requires i < |d|
  {
    if d[i].Some? then constants(d[i].value) else if i == 0 then 0 else Rust(d, i - 1, constants) + 1
  }

  /** The last variant up to `i` with a constant. */
  function LastExplicit(d: Declaration, i: nat): (k: Option<nat>)
    requires i < |d|
    ensures k.Some? ==> k.value <= i && d[k.value].Some?
  {
    if d[i].Some? then Some(i) else if i == 0 then None else LastExplicit(d, i - 1)
  }

  function Exported(d: Declaration, i: nat): Discriminant
    requires i < |d|
  {
    if d[i].Some? then Explicit(d[i].value)
    else match LastExplicit(d, i)
      case Some(k) => Relative(i - k)
      case None => Relative(i)
  }

  lemma {:induction false} RustFromLastExplicit(d: Declaration, i: nat, constants: Id -> int)
    requires i < |d|
    ensures Rust(d, i, constants)
      == match LastExplicit(d, i)
         case Some(k) => constants(d[k].value) + (i - k)
         case None => i
  {
    if d[i].None? && i > 0 { RustFromLastExplicit(d, i - 1, constants); }
  }

  /** `cast_of_enum`: every arm computes the discriminant Rust gives its variant. */
  method CastArms(d: Declaration, ghost constants: Id -> int) returns (bodies: seq<Body>)
    ensures |bodies| == |d|
    ensures forall i | 0 <= i < |d| :: ValueOf(bodies[i], constants) == Rust(d, i, constants)
  {
    var previous: Option<Body> := None;
    bodies := [];
    for i := 0 to |d|
      invariant |bodies| == i
      invariant i > 0 ==> previous == match LastExplicit(d, i - 1)
                                      case Some(k) => Some(Global(d[k].value))
                                      case None => None
      invariant i == 0 ==> previous == None
      invariant forall k | 0 <= k < i :: ValueOf(bodies[k], constants) == Rust(d, k, constants)
    {
      RustFromLastExplicit(d, i, constants);
      var body;
      match Exported(d, i) {
        case Relative(m) =>
          body := if previous.Some? then Sum(previous.value, m) else Number(m);
        case Explicit(c) =>
          body := Global(c);
          previous := Some(body);
      }
      bodies := bodies + [body];
    }
  }
}
