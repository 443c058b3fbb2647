/** The two expression languages of the importer and what running them means.

    Variables carry unique identifiers, so a frame is one map for a whole body.
    Running threads a frame and the trace of calls made; an early exit stops
    everything up to its loop or function. */
module ThirSyntax {
  import opened Wrappers

  type Id = nat

  datatype Value = Unit | Bool(b: bool) | Int(n: int) | Variant(tag: nat, payload: Value) | Pair(fst: Value, snd: Value)

  datatype Pattern =
    | Wild
    | Bind(id: Id)
    | Constant(v: Value)
    | PVariant(tag: nat, payload: Pattern)
    | PPair(fst: Pattern, snd: Pattern)

  type Frame = map<Id, Value>

  /** The frame after `p` has matched `v`. */
  function Match(p: Pattern, v: Value, frame: Frame): Option<Frame>
  {
    match p
    case Wild => Some(frame)
    case Bind(id) => Some(frame[id := v])
    case Constant(c) => if c == v then Some(frame) else None
    case PVariant(tag, q) => if v.Variant? && v.tag == tag then Match(q, v.payload, frame) else None
    case PPair(q1, q2) =>
      if v.Pair? then
        match Match(q1, v.fst, frame)
        case None => None
        case Some(frame') => Match(q2, v.snd, frame')
      else None
  }

  datatype Exit = Break(v: Value) | Continue | Return(v: Value) | Panic | Timeout

  /** `Stuck` is what the Rust type checker rules out: an unbound variable, a
      condition that is no boolean, an irrefutable pattern that fails, a
      non-exhaustive match, a diverging block that completes. */
  datatype Outcome = Done(v: Value) | Exited(x: Exit) | Stuck

  datatype Event = Called(name: string, args: seq<Value>)

  datatype State = State(frame: Frame, trace: seq<Event>)

  type Run = (Outcome, State)

  /** What a called function does: it may look at all calls so far, and panic. */
  type Oracle = (string, seq<Value>, seq<Event>) -> Option<Value>

  function Call(o: Oracle, name: string, args: seq<Value>, st: State): Run
  {
    var st' := st.(trace := st.trace + [Called(name, args)]);
    match o(name, args, st.trace)
    case None => (Exited(Panic), st')
    case Some(v) => (Done(v), st')
  }

  datatype Args = Args(vs: seq<Value>) | Interrupted(out: Outcome)

  // ---------- Source: typed Rust, as rustc exports it ----------

  datatype Expr =
    | Literal(v: Value)
    | VarRef(id: Id)
    | FnCall(name: string, args: seq<Expr>)
    | Assign(id: Id, rhs: Expr)
    | If(cond: Expr, thn: Expr, els: Option<Expr>)
    | LetCond(pat: Pattern, scrutinee: Expr)
    | MatchOn(scrutinee: Expr, arms: seq<Arm>)
    | BlockExpr(block: Block, never: bool)
    | Loop(body: Expr)
    | BreakWith(value: Option<Expr>)
    | ContinueLoop
    | ReturnWith(value: Option<Expr>)
    | Use(inner: Expr)
    | NeverToAny(inner: Expr)

  datatype Arm = Arm(pat: Pattern, guard: Option<Expr>, body: Expr)

  datatype Block = Block(stmts: seq<Stmt>, tail: Option<Expr>)

  datatype Stmt =
    | ExprStmt(e: Expr)
    | LetStmt(pat: Pattern, init: Option<Expr>, els: Option<Block>)

  function Eval(o: Oracle, e: Expr, st: State, fuel: nat): Run
    decreases fuel, e, 1
  {
    match e
    case Literal(v) => (Done(v), st)
    case VarRef(id) => if id in st.frame then (Done(st.frame[id]), st) else (Stuck, st)
    case FnCall(name, args) =>
      // a function without parameters is called with the unit value
      var (vs, st') := EvalArgs(o, args, st, fuel);
      if vs.Interrupted? then (vs.out, st')
      else Call(o, name, if args == [] then [Unit] else vs.vs, st')
    case Assign(id, rhs) =>
      var (r, st') := Eval(o, rhs, st, fuel);
      if r.Done? then (Done(Unit), st'.(frame := st'.frame[id := r.v])) else (r, st')
    case If(LetCond(pat, scrutinee), thn, els) =>
      var (r, st') := Eval(o, scrutinee, st, fuel);
      if !r.Done? then (r, st') else (
        match Match(pat, r.v, st'.frame)
        case Some(frame) => Eval(o, thn, st'.(frame := frame), fuel)
        case None => EvalOption(o, els, st', fuel))
    case If(cond, thn, els) =>
      var (r, st') := Eval(o, cond, st, fuel);
      if r == Done(Bool(true)) then Eval(o, thn, st', fuel)
      else if r == Done(Bool(false)) then EvalOption(o, els, st', fuel)
      else (if r.Done? then Stuck else r, st')
    case LetCond(_, _) => (Stuck, st)
    case MatchOn(scrutinee, arms) =>
      var (r, st') := Eval(o, scrutinee, st, fuel);
      if r.Done? then EvalArms(o, e, 0, r.v, st', fuel) else (r, st')
    case BlockExpr(block, never) =>
      var (r, st') := EvalStmts(o, block, 0, st, fuel);
      (if never && block.tail.None? && r.Done? then Stuck else r, st')
    case Loop(body) =>
      if fuel == 0 then (Exited(Timeout), st)
      else
        var (r, st') := Eval(o, body, st, fuel);
        (match r
         case Exited(Break(v)) => (Done(v), st')
         case Exited(Continue) => Eval(o, e, st', fuel - 1)
         case Done(_) => Eval(o, e, st', fuel - 1)
         case _ => (r, st'))
    case BreakWith(value) =>
      var (r, st') := EvalOption(o, value, st, fuel);
      (if r.Done? then Exited(Break(r.v)) else r, st')
    case ContinueLoop => (Exited(Continue), st)
    case ReturnWith(value) =>
      var (r, st') := EvalOption(o, value, st, fuel);
      (if r.Done? then Exited(Return(r.v)) else r, st')
    case Use(inner) => Eval(o, inner, st, fuel)
    case NeverToAny(inner) =>
      var (r, st') := Eval(o, inner, st, fuel);
      (if r.Done? then Stuck else r, st')
  }

  function EvalOption(o: Oracle, e: Option<Expr>, st: State, fuel: nat): Run
    decreases fuel, e, 0
  {
    match e
    case None => (Done(Unit), st)
    case Some(e1) => Eval(o, e1, st, fuel)
  }

  function EvalArgs(o: Oracle, es: seq<Expr>, st: State, fuel: nat): (r: (Args, State))
    ensures r.0.Args? ==> |r.0.vs| == |es|
    decreases fuel, es, 0
  {
    if es == [] then (Args([]), st)
    else
      var (r, st1) := Eval(o, es[0], st, fuel);
      if !r.Done? then (Interrupted(r), st1)
      else
        var (rs, st2) := EvalArgs(o, es[1..], st1, fuel);
        if rs.Interrupted? then (rs, st2) else (Args([r.v] + rs.vs), st2)
  }

  /** The arms from number `i` on, tried in order. */
  function EvalArms(o: Oracle, e: Expr, i: nat, v: Value, st: State, fuel: nat): Run
    requires e.MatchOn? && i <= |e.arms|
    decreases fuel, e, 0, |e.arms| - i
  {
    if i == |e.arms| then (Stuck, st)
    else
      match Match(e.arms[i].pat, v, st.frame)
      case None => EvalArms(o, e, i + 1, v, st, fuel)
      case Some(frame) =>
        var (g, st') := EvalGuard(o, e.arms[i].guard, st.(frame := frame), fuel);
        if g == Done(Bool(true)) then Eval(o, e.arms[i].body, st', fuel)
        else if g == Done(Bool(false)) then EvalArms(o, e, i + 1, v, st', fuel)
        else (if g.Done? then Stuck else g, st')
  }

  /** A guard is a boolean expression or a `let` whose bindings the body sees. */
  function EvalGuard(o: Oracle, guard: Option<Expr>, st: State, fuel: nat): Run
    decreases fuel, guard, 0
  {
    match guard
    case None => (Done(Bool(true)), st)
    case Some(LetCond(pat, rhs)) =>
      var (r, st') := Eval(o, rhs, st, fuel);
      if !r.Done? then (r, st') else (
        match Match(pat, r.v, st'.frame)
        case Some(frame) => (Done(Bool(true)), st'.(frame := frame))
        case None => (Done(Bool(false)), st'))
    case Some(g) => Eval(o, g, st, fuel)
  }

  /** The statements from number `i` on, then the tail expression. */
  function EvalStmts(o: Oracle, b: Block, i: nat, st: State, fuel: nat): Run
    requires i <= |b.stmts|
    decreases fuel, b, |b.stmts| - i
  {
    if i == |b.stmts| then EvalOption(o, b.tail, st, fuel)
    else
      var (r, st') := EvalStmt(o, b, i, st, fuel);
      if r.Done? then EvalStmts(o, b, i + 1, st', fuel) else (r, st')
  }

  /** One statement; a diverging `else` block must not complete. */
  function EvalStmt(o: Oracle, b: Block, i: nat, st: State, fuel: nat): Run
    requires i < |b.stmts|
    decreases fuel, b, |b.stmts| - i, 0
  {
    match b.stmts[i]
    case ExprStmt(e) => Eval(o, e, st, fuel)
    case LetStmt(_, None, _) => (Done(Unit), st)
    case LetStmt(pat, Some(init), els) =>
      var (r, st') := Eval(o, init, st, fuel);
      if !r.Done? then (r, st') else (
        match Match(pat, r.v, st'.frame)
        case Some(frame) => (Done(Unit), st'.(frame := frame))
        case None =>
          if els.None? then (Stuck, st')
          else
            var (x, st2) := EvalStmts(o, els.value, 0, st', fuel);
            (if x.Done? then Stuck else x, st2))
  }

  // ---------- Target: the engine's expressions ----------

  datatype Term =
    | TLiteral(v: Value)
    | TLocal(id: Id)
    | TApp(name: string, args: seq<Term>)
    | TNeverToAny(inner: Term)
    | TAssign(id: Id, rhs: Term)
    | TIf(cond: Term, thn: Term, els: Option<Term>)
    | TMatch(scrutinee: Term, arms: seq<TArm>)
    | TLet(lhs: Pattern, rhs: Term, body: Term)
    | TBlock(body: Term)
    | TLoop(body: Term)
    | TBreak(value: Term)
    | TContinue
    | TReturn(value: Term)
    | TError

  /** Every target guard is an `if let`. */
  datatype TArm = TArm(pat: Pattern, guard: Option<TGuard>, body: Term)

  datatype TGuard = IfLet(lhs: Pattern, rhs: Term)

  function TEval(o: Oracle, t: Term, st: State, fuel: nat): Run
    decreases fuel, t, 1
  {
    match t
    case TLiteral(v) => (Done(v), st)
    case TLocal(id) => if id in st.frame then (Done(st.frame[id]), st) else (Stuck, st)
    case TApp(name, args) =>
      var (vs, st') := TEvalArgs(o, args, st, fuel);
      if vs.Interrupted? then (vs.out, st') else Call(o, name, vs.vs, st')
    case TNeverToAny(inner) => TEval(o, inner, st, fuel)
    case TAssign(id, rhs) =>
      var (r, st') := TEval(o, rhs, st, fuel);
      if r.Done? then (Done(Unit), st'.(frame := st'.frame[id := r.v])) else (r, st')
    case TIf(cond, thn, els) =>
      var (r, st') := TEval(o, cond, st, fuel);
      if r == Done(Bool(true)) then TEval(o, thn, st', fuel)
      else if r == Done(Bool(false)) then
        (match els
         case None => (Done(Unit), st')
         case Some(e1) => TEval(o, e1, st', fuel))
      else (if r.Done? then Stuck else r, st')
    case TMatch(scrutinee, arms) =>
      var (r, st') := TEval(o, scrutinee, st, fuel);
      if r.Done? then TEvalArms(o, t, 0, r.v, st', fuel) else (r, st')
    case TLet(lhs, rhs, body) =>
      var (r, st') := TEval(o, rhs, st, fuel);
      if !r.Done? then (r, st') else (
        match Match(lhs, r.v, st'.frame)
        case None => (Stuck, st')
        case Some(frame) => TEval(o, body, st'.(frame := frame), fuel))
    case TBlock(body) => TEval(o, body, st, fuel)
    case TLoop(body) =>
      if fuel == 0 then (Exited(Timeout), st)
      else
        var (r, st') := TEval(o, body, st, fuel);
        (match r
         case Exited(Break(v)) => (Done(v), st')
         case Exited(Continue) => TEval(o, t, st', fuel - 1)
         case Done(_) => TEval(o, t, st', fuel - 1)
         case _ => (r, st'))
    case TBreak(value) =>
      var (r, st') := TEval(o, value, st, fuel);
      (if r.Done? then Exited(Break(r.v)) else r, st')
    case TContinue => (Exited(Continue), st)
    case TReturn(value) =>
      var (r, st') := TEval(o, value, st, fuel);
      (if r.Done? then Exited(Return(r.v)) else r, st')
    case TError => (Stuck, st)
  }

  function TEvalArgs(o: Oracle, ts: seq<Term>, st: State, fuel: nat): (Args, State)
    decreases fuel, ts, 0
  {
    if ts == [] then (Args([]), st)
    else
      var (r, st1) := TEval(o, ts[0], st, fuel);
      if !r.Done? then (Interrupted(r), st1)
      else
        var (rs, st2) := TEvalArgs(o, ts[1..], st1, fuel);
        if rs.Interrupted? then (rs, st2) else (Args([r.v] + rs.vs), st2)
  }

  function TEvalArms(o: Oracle, t: Term, i: nat, v: Value, st: State, fuel: nat): Run
    requires t.TMatch? && i <= |t.arms|
    decreases fuel, t, 0, |t.arms| - i
  {
    if i == |t.arms| then (Stuck, st)
    else
      match Match(t.arms[i].pat, v, st.frame)
      case None => TEvalArms(o, t, i + 1, v, st, fuel)
      case Some(frame) =>
        match t.arms[i].guard
        case None => TEval(o, t.arms[i].body, st.(frame := frame), fuel)
        case Some(IfLet(lhs, rhs)) =>
          var (r, st') := TEval(o, rhs, st.(frame := frame), fuel);
          if !r.Done? then (r, st') else
            match Match(lhs, r.v, st'.frame)
            case Some(frame') => TEval(o, t.arms[i].body, st'.(frame := frame'), fuel)
            case None => TEvalArms(o, t, i + 1, v, st', fuel)
  }
}
