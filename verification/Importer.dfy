/** The importer from typed Rust to the engine's expressions: statement blocks,
    `let-else`, `if let` and guards become nested `Let` and `Match`. */
module Importer {
  import opened Wrappers
  import opened ThirSyntax

  // ---------- Specification ----------

  function Import(e: Expr): Term
    decreases e, 1
  {
    match e
    case Literal(v) => TLiteral(v)
    case VarRef(id) => TLocal(id)
    case FnCall(name, args) => TApp(name, if args == [] then [TLiteral(Unit)] else ImportArgs(args))
    case Assign(id, rhs) => TAssign(id, Import(rhs))
    case If(LetCond(pat, scrutinee), thn, els) =>
      TMatch(Import(scrutinee),
             [TArm(pat, None, Import(thn)), TArm(Wild, None, if els.Some? then Import(els.value) else TLiteral(Unit))])
    case If(cond, thn, els) =>
      TIf(Import(cond), Import(thn), if els.Some? then Some(Import(els.value)) else None)
    case LetCond(_, _) => TError
    case MatchOn(scrutinee, arms) =>
      TMatch(Import(scrutinee), seq(|arms|, i requires 0 <= i < |arms| => ImportArm(arms[i])))
    case BlockExpr(block, never) => ImportBlock(block, never)
    case Loop(body) => TLoop(Import(body))
    case BreakWith(value) => TBreak(if value.Some? then Import(value.value) else TLiteral(Unit))
    case ContinueLoop => TContinue
    case ReturnWith(value) => TReturn(if value.Some? then Import(value.value) else TLiteral(Unit))
    case Use(inner) => Import(inner)
    case NeverToAny(inner) => TNeverToAny(Import(inner))
  }

  function ImportArgs(es: seq<Expr>): (ts: seq<Term>)
    ensures |ts| == |es|
    decreases es, 0
  {
    if es == [] then [] else [Import(es[0])] + ImportArgs(es[1..])
  }

  function ImportArm(arm: Arm): TArm
    decreases arm, 0
  {
    TArm(arm.pat,
         match arm.guard
         case None => None
         case Some(LetCond(pat, rhs)) => Some(IfLet(pat, Import(rhs)))
         case Some(g) => Some(IfLet(Constant(Bool(true)), Import(g))),
         Import(arm.body))
  }

  /** A block of type `!` without a tail loses its last statement, which becomes
      the tail when it is an expression and disappears when it is a `let`. */
  predicate Pops(b: Block, never: bool) { b.tail.None? && never && b.stmts != [] }

  function Kept(b: Block, never: bool): (n: nat)
    ensures n <= |b.stmts|
  {
    if Pops(b, never) then |b.stmts| - 1 else |b.stmts|
  }

  predicate LosesLet(b: Block, never: bool)
  {
    Pops(b, never) && b.stmts[|b.stmts| - 1].LetStmt?
  }

  predicate DeclaresFirst(b: Block, never: bool)
  {
    exists i | 0 <= i < Kept(b, never) :: b.stmts[i].LetStmt? && b.stmts[i].init.None?
  }

  function ImportBlock(b: Block, never: bool): Term
    decreases b, 2
  {
    if DeclaresFirst(b, never) then TError else ImportStmts(b, never, 0)
  }

  /** The innermost body: the tail, or the popped statement, or unit. */
  function ImportTail(b: Block, never: bool): Term
    decreases b, 0
  {
    if b.tail.Some? then TBlock(Import(b.tail.value))
    else if Pops(b, never) && b.stmts[|b.stmts| - 1].ExprStmt? then TBlock(Import(b.stmts[|b.stmts| - 1].e))
    else TLiteral(Unit)
  }

  /** What the statements from number `i` on become. */
  function ImportStmts(b: Block, never: bool, i: nat): Term
    requires i <= Kept(b, never)
    decreases b, 1, |b.stmts| - i
  {
    if i == Kept(b, never) then ImportTail(b, never)
    else Wrap(b, never, i, ImportStmts(b, never, i + 1))
  }

  function Wrap(b: Block, never: bool, i: nat, body: Term): Term
    requires i < Kept(b, never)
    decreases b, 0
  {
    match b.stmts[i]
    case ExprStmt(e) => TLet(Wild, Import(e), body)
    case LetStmt(_, None, _) => TError
    case LetStmt(pat, Some(init), None) => TLet(pat, Import(init), body)
    case LetStmt(pat, Some(init), Some(els)) =>
      // the else block is imported at the type of the enclosing block
      TMatch(Import(init), [TArm(pat, None, body), TArm(Wild, None, ImportBlock(els, never))])
  }

  // ---------- The loop ----------

  /** `import_block_expr`: pops a tail, then folds the statements from the last
      one back to the first. */
  method ImportBlockExpr(block: Block, never: bool) returns (acc: Term)
    ensures acc == ImportBlock(block, never)
  {
    var stmts, tail := block.stmts, block.tail;
    if tail.None? && never && stmts != [] {
      var last := stmts[|stmts| - 1];
      stmts := stmts[..|stmts| - 1];
      if last.ExprStmt? { tail := Some(last.e); }
    }
    acc := if tail.Some? then TBlock(Import(tail.value)) else TLiteral(Unit);
    var i: nat := |stmts|;
    while i > 0
      invariant i <= |stmts| == Kept(block, never) && stmts == block.stmts[..|stmts|]
      invariant acc == ImportStmts(block, never, i)
      invariant forall k | i <= k < |stmts| :: stmts[k].LetStmt? ==> stmts[k].init.Some?
    {
      i := i - 1;
      match stmts[i]
      case ExprStmt(e) =>
        acc := TLet(Wild, Import(e), acc);
      case LetStmt(pat, init, els) =>
        if init.None? {
          assert block.stmts[i].LetStmt? && block.stmts[i].init.None?;
          return TError;
        }
        var rhs := Import(init.value);
        if els.Some? {
          var elseExpr := ImportBlock(els.value, never);
          acc := TMatch(rhs, [TArm(pat, None, acc), TArm(Wild, None, elseExpr)]);
        } else {
          acc := TLet(pat, rhs, acc);
        }
    }
  }

  // ---------- What the importer supports ----------

  ghost predicate Supported(e: Expr)
    decreases e, 1
  {
    match e
    case Literal(_) => true
    case VarRef(_) => true
    case FnCall(_, args) => forall i | 0 <= i < |args| :: Supported(args[i])
    case Assign(_, rhs) => Supported(rhs)
    case If(LetCond(_, scrutinee), thn, els) =>
      Supported(scrutinee) && Supported(thn) && (els.Some? ==> Supported(els.value))
    case If(cond, thn, els) => Supported(cond) && Supported(thn) && (els.Some? ==> Supported(els.value))
    case LetCond(_, _) => false
    case MatchOn(scrutinee, arms) => Supported(scrutinee) && forall i | 0 <= i < |arms| :: SupportedArm(arms[i])
    case BlockExpr(block, never) => SupportedBlock(block, never)
    case Loop(body) => Supported(body)
    case BreakWith(value) => value.Some? ==> Supported(value.value)
    case ContinueLoop => true
    case ReturnWith(value) => value.Some? ==> Supported(value.value)
    case Use(inner) => Supported(inner)
    case NeverToAny(inner) => Supported(inner)
  }

  ghost predicate SupportedArm(arm: Arm)
    decreases arm, 0
  {
    && Supported(arm.body)
    && match arm.guard
       case None => true
       case Some(LetCond(_, rhs)) => Supported(rhs)
       case Some(g) => Supported(g)
  }

  ghost predicate SupportedBlock(b: Block, never: bool)
    decreases b, 2
  {
    && !DeclaresFirst(b, never) && SupportedParts(b, never) && (LosesLet(b, never) ==> ExitsFirst(b))
  }

  /** No run completes the statements before the last: a lost last `let` would not
      have been reached. */
  ghost predicate ExitsFirst(b: Block)
    requires b.stmts != []
  {
    forall o, st, fuel :: !ReachesLast(o, b, st, fuel)
  }

  predicate ReachesLast(o: Oracle, b: Block, st: State, fuel: nat)
    requires b.stmts != []
  {
    EvalPrefix(o, b, 0, |b.stmts| - 1, st, fuel).0.Done?
  }

  /** Everything inside the statements and the tail is supported. */
  ghost predicate SupportedParts(b: Block, never: bool)
    decreases b, 1
  {
    && (b.tail.Some? ==> Supported(b.tail.value))
    && forall i | 0 <= i < |b.stmts| :: SupportedStmt(b.stmts[i], never)
  }

  ghost predicate SupportedStmt(s: Stmt, never: bool)
    decreases s, 0
  {
    match s
    case ExprStmt(e) => Supported(e)
    case LetStmt(_, init, els) =>
      && (init.Some? ==> Supported(init.value))
      && (els.Some? ==> SupportedBlock(els.value, never))
  }

  // ---------- Meaning is preserved ----------

  /** Importing a supported expression changes neither the value, nor the calls
      made and their order, nor the early exit taken, nor any variable. */
  lemma {:induction false} ImportPreserves(o: Oracle, e: Expr, st: State, fuel: nat)
    requires Supported(e) && !Eval(o, e, st, fuel).0.Stuck?
    ensures TEval(o, Import(e), st, fuel) == Eval(o, e, st, fuel)
    decreases fuel, e, 1
  {
    match e
    case Literal(v) =>
    case VarRef(id) =>
    case FnCall(name, args) => CallPreserved(o, e, st, fuel);
    case Assign(id, rhs) => ImportPreserves(o, rhs, st, fuel);
    case If(cond, thn, els) =>
      if cond.LetCond? { IfLetPreserved(o, e, st, fuel); } else { IfPreserved(o, e, st, fuel); }
    case MatchOn(scrutinee, arms) => MatchPreserved(o, e, st, fuel);
    case BlockExpr(block, never) => BlockPreserved(o, block, never, st, fuel);
    case Loop(body) => LoopPreserved(o, e, st, fuel);
    case BreakWith(value) => OptionPreserved(o, value, st, fuel);
    case ContinueLoop =>
    case ReturnWith(value) => OptionPreserved(o, value, st, fuel);
    case Use(inner) => ImportPreserves(o, inner, st, fuel);
    case NeverToAny(inner) => ImportPreserves(o, inner, st, fuel);
  }

  /** An absent value is the unit value. */
  lemma {:induction false} OptionPreserved(o: Oracle, e: Option<Expr>, st: State, fuel: nat)
    requires e.Some? ==> Supported(e.value)
    requires !EvalOption(o, e, st, fuel).0.Stuck?
    ensures TEval(o, if e.Some? then Import(e.value) else TLiteral(Unit), st, fuel) == EvalOption(o, e, st, fuel)
    decreases fuel, e, 0
  {
    if e.Some? { ImportPreserves(o, e.value, st, fuel); }
  }

  lemma {:induction false} CallPreserved(o: Oracle, e: Expr, st: State, fuel: nat)
    requires e.FnCall? && Supported(e) && !Eval(o, e, st, fuel).0.Stuck?
    ensures TEval(o, Import(e), st, fuel) == Eval(o, e, st, fuel)
    decreases fuel, e, 0
  {
    if e.args == [] {
      var ts := [TLiteral(Unit)];
      assert ts[1..] == [] && TEval(o, ts[0], st, fuel) == (Done(Unit), st);
      assert TEvalArgs(o, ts[1..], st, fuel) == (Args([]), st);
      assert [Unit] + [] == [Unit];
    } else {
      ArgsPreserved(o, e.args, st, fuel);
    }
  }

  lemma {:induction false} IfPreserved(o: Oracle, e: Expr, st: State, fuel: nat)
    requires e.If? && !e.cond.LetCond? && Supported(e) && !Eval(o, e, st, fuel).0.Stuck?
    ensures TEval(o, Import(e), st, fuel) == Eval(o, e, st, fuel)
    decreases fuel, e, 0
  {
    ImportPreserves(o, e.cond, st, fuel);
    var (r, st') := Eval(o, e.cond, st, fuel);
    if r == Done(Bool(true)) { ImportPreserves(o, e.thn, st', fuel); }
    else if r == Done(Bool(false)) { OptionPreserved(o, e.els, st', fuel); }
  }

  lemma {:induction false} MatchPreserved(o: Oracle, e: Expr, st: State, fuel: nat)
    requires e.MatchOn? && Supported(e) && !Eval(o, e, st, fuel).0.Stuck?
    ensures TEval(o, Import(e), st, fuel) == Eval(o, e, st, fuel)
    decreases fuel, e, 0, |e.arms| + 1
  {
    ImportPreserves(o, e.scrutinee, st, fuel);
    var (r, st') := Eval(o, e.scrutinee, st, fuel);
    if r.Done? { ArmsPreserved(o, e, 0, r.v, st', fuel); }
  }

  lemma {:induction false} LoopPreserved(o: Oracle, e: Expr, st: State, fuel: nat)
    requires e.Loop? && Supported(e) && !Eval(o, e, st, fuel).0.Stuck?
    ensures TEval(o, Import(e), st, fuel) == Eval(o, e, st, fuel)
    decreases fuel, e, 0
  {
    if fuel > 0 {
      ImportPreserves(o, e.body, st, fuel);
      var (r, st') := Eval(o, e.body, st, fuel);
      if r == Exited(Continue) || r.Done? { ImportPreserves(o, e, st', fuel - 1); }
    }
  }

  lemma {:induction false} IfLetPreserved(o: Oracle, e: Expr, st: State, fuel: nat)
    requires e.If? && e.cond.LetCond? && Supported(e) && !Eval(o, e, st, fuel).0.Stuck?
    ensures TEval(o, Import(e), st, fuel) == Eval(o, e, st, fuel)
    decreases fuel, e, 0
  {
    ImportPreserves(o, e.cond.scrutinee, st, fuel);
    var (r, st') := Eval(o, e.cond.scrutinee, st, fuel);
    var t := Import(e);
    if r.Done? {
      match Match(e.cond.pat, r.v, st'.frame)
      case Some(frame) => ImportPreserves(o, e.thn, st'.(frame := frame), fuel);
      case None =>
        assert TEvalArms(o, t, 0, r.v, st', fuel) == TEvalArms(o, t, 1, r.v, st', fuel);
        assert Match(Wild, r.v, st'.frame) == Some(st'.frame);
        OptionPreserved(o, e.els, st', fuel);
    }
  }

  lemma {:induction false} ArgsPreserved(o: Oracle, es: seq<Expr>, st: State, fuel: nat)
    requires forall i | 0 <= i < |es| :: Supported(es[i])
    requires EvalArgs(o, es, st, fuel).0.Interrupted? ==> !EvalArgs(o, es, st, fuel).0.out.Stuck?
    ensures TEvalArgs(o, ImportArgs(es), st, fuel) == EvalArgs(o, es, st, fuel)
    decreases fuel, es, 0
  {
    if es != [] {
      ImportPreserves(o, es[0], st, fuel);
      var (r, st1) := Eval(o, es[0], st, fuel);
      assert ImportArgs(es)[1..] == ImportArgs(es[1..]);
      if r.Done? { ArgsPreserved(o, es[1..], st1, fuel); }
    }
  }

  lemma {:induction false} ArmsPreserved(o: Oracle, e: Expr, i: nat, v: Value, st: State, fuel: nat)
    requires e.MatchOn? && i <= |e.arms| && Supported(e) && !EvalArms(o, e, i, v, st, fuel).0.Stuck?
    ensures TEvalArms(o, Import(e), i, v, st, fuel) == EvalArms(o, e, i, v, st, fuel)
    decreases fuel, e, 0, |e.arms| - i
  {
    if i < |e.arms| {
      var arm := e.arms[i];
      assert SupportedArm(arm) && Import(e).arms[i] == ImportArm(arm);
      match Match(arm.pat, v, st.frame)
      case None => ArmsPreserved(o, e, i + 1, v, st, fuel);
      case Some(frame) =>
        var st1 := st.(frame := frame);
        GuardPreserved(o, arm.guard, st1, fuel);
        var (g, st') := EvalGuard(o, arm.guard, st1, fuel);
        if g == Done(Bool(true)) { ImportPreserves(o, arm.body, st', fuel); }
        else if g == Done(Bool(false)) { ArmsPreserved(o, e, i + 1, v, st', fuel); }
    }
  }

  /** A guard's imported right-hand side runs as the guard's own expression. */
  lemma {:induction false} GuardPreserved(o: Oracle, guard: Option<Expr>, st: State, fuel: nat)
    requires guard.Some? ==> Supported(if guard.value.LetCond? then guard.value.scrutinee else guard.value)
    requires !EvalGuard(o, guard, st, fuel).0.Stuck?
    ensures guard.Some? ==>
      var g := if guard.value.LetCond? then guard.value.scrutinee else guard.value;
      TEval(o, Import(g), st, fuel) == Eval(o, g, st, fuel)
    decreases fuel, guard, 0
  {
    if guard.Some? {
      ImportPreserves(o, if guard.value.LetCond? then guard.value.scrutinee else guard.value, st, fuel);
    }
  }

  /** A block that may not complete, when it has no tail and type `!`. */
  lemma {:induction false} BlockPreserved(o: Oracle, b: Block, never: bool, st: State, fuel: nat)
    requires SupportedBlock(b, never)
    requires var r := EvalStmts(o, b, 0, st, fuel).0; !r.Stuck? && (never && b.tail.None? ==> !r.Done?)
    ensures TEval(o, ImportBlock(b, never), st, fuel) == EvalStmts(o, b, 0, st, fuel)
    decreases fuel, b, |b.stmts| + 2
  {
    if LosesLet(b, never) {
      var n := Kept(b, never);
      PrefixThenRest(o, b, 0, n, st, fuel);
      assert !ReachesLast(o, b, st, fuel);
      LostLetRun(o, b, 0, st, fuel);
    } else {
      StmtsPreserved(o, b, never, 0, st, fuel);
    }
  }

  lemma {:induction false} StmtsPreserved(o: Oracle, b: Block, never: bool, i: nat, st: State, fuel: nat)
    requires SupportedBlock(b, never) && !LosesLet(b, never) && i <= Kept(b, never)
    requires var r := EvalStmts(o, b, i, st, fuel).0; !r.Stuck? && (never && b.tail.None? ==> !r.Done?)
    ensures TEval(o, ImportStmts(b, never, i), st, fuel) == EvalStmts(o, b, i, st, fuel)
    decreases fuel, b, |b.stmts| - i + 1
  {
    if i == Kept(b, never) {
      if b.tail.Some? {
        ImportPreserves(o, b.tail.value, st, fuel);
      } else if Pops(b, never) {
        assert SupportedStmt(b.stmts[i], never);
        ImportPreserves(o, b.stmts[i].e, st, fuel);
        var (r, st') := EvalStmt(o, b, i, st, fuel);
        assert EvalStmts(o, b, i + 1, st', fuel) == EvalOption(o, b.tail, st', fuel);
      }
    } else {
      WrapPreserved(o, b, never, i, st, fuel, ImportStmts(b, never, i + 1));
      var (r, st') := EvalStmt(o, b, i, st, fuel);
      if r.Done? { StmtsPreserved(o, b, never, i + 1, st', fuel); }
    }
  }

  /** Wrapping runs the statement, and then the body if the statement completes. */
  lemma {:induction false} WrapPreserved(o: Oracle, b: Block, never: bool, i: nat, st: State, fuel: nat, body: Term)
    requires i < Kept(b, never) && SupportedStmt(b.stmts[i], never)
    requires b.stmts[i].LetStmt? ==> b.stmts[i].init.Some?
    requires !EvalStmt(o, b, i, st, fuel).0.Stuck?
    ensures var (r, st') := EvalStmt(o, b, i, st, fuel);
      TEval(o, Wrap(b, never, i, body), st, fuel) == if r.Done? then TEval(o, body, st', fuel) else (r, st')
    decreases fuel, b, |b.stmts| - i, 1
  {
    match b.stmts[i]
    case ExprStmt(e) => ImportPreserves(o, e, st, fuel);
    case LetStmt(pat, init, els) =>
      ImportPreserves(o, init.value, st, fuel);
      if els.Some? {
        LetElsePreserved(o, b, never, i, st, fuel, body);
      } else {
        LetPreserved(o, b, never, i, st, fuel, body);
      }
  }

  lemma LetPreserved(o: Oracle, b: Block, never: bool, i: nat, st: State, fuel: nat, body: Term)
    requires i < Kept(b, never) && b.stmts[i].LetStmt? && b.stmts[i].init.Some? && b.stmts[i].els.None?
    requires !EvalStmt(o, b, i, st, fuel).0.Stuck?
    requires TEval(o, Import(b.stmts[i].init.value), st, fuel) == Eval(o, b.stmts[i].init.value, st, fuel)
    ensures var (r, st') := EvalStmt(o, b, i, st, fuel);
      TEval(o, Wrap(b, never, i, body), st, fuel) == if r.Done? then TEval(o, body, st', fuel) else (r, st')
  {
  }

  lemma {:induction false} LetElsePreserved(o: Oracle, b: Block, never: bool, i: nat, st: State, fuel: nat, body: Term)
    requires i < Kept(b, never) && SupportedStmt(b.stmts[i], never)
    requires b.stmts[i].LetStmt? && b.stmts[i].init.Some? && b.stmts[i].els.Some?
    requires !EvalStmt(o, b, i, st, fuel).0.Stuck?
    requires TEval(o, Import(b.stmts[i].init.value), st, fuel) == Eval(o, b.stmts[i].init.value, st, fuel)
    ensures var (r, st') := EvalStmt(o, b, i, st, fuel);
      TEval(o, Wrap(b, never, i, body), st, fuel) == if r.Done? then TEval(o, body, st', fuel) else (r, st')
    decreases fuel, b, |b.stmts| - i, 0
  {
    var LetStmt(pat, init, els) := b.stmts[i];
    var (r, st') := Eval(o, init.value, st, fuel);
    var t := Wrap(b, never, i, body);
    assert TEval(o, t, st, fuel) == if r.Done? then TEvalArms(o, t, 0, r.v, st', fuel) else (r, st');
    if r.Done? && Match(pat, r.v, st'.frame).None? {
      assert TEvalArms(o, t, 0, r.v, st', fuel) == TEvalArms(o, t, 1, r.v, st', fuel);
      BlockPreserved(o, els.value, never, st', fuel);
    }
  }

  // ---------- Exactly when a block's meaning is kept ----------

  /** Statements `i` to `n`, without the rest of the block. */
  function EvalPrefix(o: Oracle, b: Block, i: nat, n: nat, st: State, fuel: nat): Run
    requires i <= n <= |b.stmts|
    decreases n - i
  {
    if i == n then (Done(Unit), st)
    else
      var (r, st') := EvalStmt(o, b, i, st, fuel);
      if r.Done? then EvalPrefix(o, b, i + 1, n, st', fuel) else (r, st')
  }

  lemma {:induction false} PrefixThenRest(o: Oracle, b: Block, i: nat, n: nat, st: State, fuel: nat)
    requires i <= n <= |b.stmts|
    ensures var (r, st') := EvalPrefix(o, b, i, n, st, fuel);
      EvalStmts(o, b, i, st, fuel) == if r.Done? then EvalStmts(o, b, n, st', fuel) else (r, st')
    decreases n - i
  {
    if i < n {
      var (r, st') := EvalStmt(o, b, i, st, fuel);
      if r.Done? { PrefixThenRest(o, b, i + 1, n, st', fuel); }
    }
  }

  /** A block that loses its last `let` runs only the statements before it. */
  lemma {:induction false} LostLetRun(o: Oracle, b: Block, i: nat, st: State, fuel: nat)
    requires LosesLet(b, true) && !DeclaresFirst(b, true) && SupportedParts(b, true) && i <= Kept(b, true)
    requires !EvalPrefix(o, b, i, Kept(b, true), st, fuel).0.Stuck?
    ensures TEval(o, ImportStmts(b, true, i), st, fuel) == EvalPrefix(o, b, i, Kept(b, true), st, fuel)
    decreases fuel, b, |b.stmts| - i + 1
  {
    if i < Kept(b, true) {
      WrapPreserved(o, b, true, i, st, fuel, ImportStmts(b, true, i + 1));
      var (r, st') := EvalStmt(o, b, i, st, fuel);
      if r.Done? { LostLetRun(o, b, i + 1, st', fuel); }
    }
  }

  /** The import of a block keeps the meaning of a run if and only if no kept
      `let` lacks an initialiser and, when the last `let` was lost, the
      statements before it exit early. */
  lemma BlockExact(o: Oracle, b: Block, never: bool, st: State, fuel: nat)
    requires SupportedParts(b, never) && !Eval(o, BlockExpr(b, never), st, fuel).0.Stuck?
    ensures TEval(o, Import(BlockExpr(b, never)), st, fuel) == Eval(o, BlockExpr(b, never), st, fuel)
      <==> !DeclaresFirst(b, never)
           && (LosesLet(b, never) ==> EvalPrefix(o, b, 0, Kept(b, never), st, fuel).0.Exited?)
  {
    if DeclaresFirst(b, never) {
    } else if LosesLet(b, never) {
      var n := Kept(b, never);
      PrefixThenRest(o, b, 0, n, st, fuel);
      LostLetRun(o, b, 0, st, fuel);
      var (r, st') := EvalPrefix(o, b, 0, n, st, fuel);
      if r.Done? { LastLetCompletes(o, b, st', fuel); }
    } else {
      BlockPreserved(o, b, never, st, fuel);
    }
  }

  lemma LastLetCompletes(o: Oracle, b: Block, st: State, fuel: nat)
    requires b.tail.None? && b.stmts != []
    ensures var n := |b.stmts| - 1; var (r, st') := EvalStmt(o, b, n, st, fuel);
      EvalStmts(o, b, n, st, fuel) == if r.Done? then (Done(Unit), st') else (r, st')
  {
    var n := |b.stmts| - 1;
    var (r, st') := EvalStmt(o, b, n, st, fuel);
    assert EvalStmts(o, b, n + 1, st', fuel) == EvalOption(o, b.tail, st', fuel);
  }

  /** An expression that cannot complete. */
  predicate SureExit(e: Expr)
  {
    match e
    case BreakWith(_) => true
    case ContinueLoop => true
    case ReturnWith(_) => true
    case NeverToAny(_) => true
    case BlockExpr(b, never) => never && b.tail.None?
    case Use(inner) => SureExit(inner)
    case _ => false
  }

  predicate SureExitStmt(s: Stmt)
  {
    match s
    case ExprStmt(e) => SureExit(e)
    case LetStmt(_, init, _) => init.Some? && SureExit(init.value)
  }

  lemma {:induction false} SureExitNeverDone(o: Oracle, e: Expr, st: State, fuel: nat)
    requires SureExit(e)
    ensures !Eval(o, e, st, fuel).0.Done?
  {
    if e.Use? { SureExitNeverDone(o, e.inner, st, fuel); }
  }

  lemma {:induction false} PrefixStops(o: Oracle, b: Block, i: nat, j: nat, n: nat, st: State, fuel: nat)
    requires i <= j < n <= |b.stmts| && SureExitStmt(b.stmts[j])
    ensures !EvalPrefix(o, b, i, n, st, fuel).0.Done?
    decreases n - i
  {
    var (r, st') := EvalStmt(o, b, i, st, fuel);
    if i == j {
      SureExitNeverDone(o, if b.stmts[j].ExprStmt? then b.stmts[j].e else b.stmts[j].init.value, st, fuel);
    } else if r.Done? {
      PrefixStops(o, b, i + 1, j, n, st', fuel);
    }
  }

  /** A block with an early exit before its last statement: what the syntax shows. */
  lemma SureExitsFirst(b: Block, j: nat)
    requires j + 1 < |b.stmts| && SureExitStmt(b.stmts[j])
    ensures ExitsFirst(b)
  {
    forall o, st, fuel ensures !ReachesLast(o, b, st, fuel) {
      PrefixStops(o, b, 0, j, |b.stmts| - 1, st, fuel);
    }
  }

  /** `{ return e; let p = e'; }` at type `!` loses its `let` and keeps its meaning,
      wherever it stands. */
  lemma LostLetUnreached(e: Expr, p: Pattern, e': Expr)
    requires Supported(e) && Supported(e')
    ensures var b := Block([ExprStmt(ReturnWith(Some(e))), LetStmt(p, Some(e'), None)], None);
      LosesLet(b, true) && Supported(BlockExpr(b, true))
  {
    var b := Block([ExprStmt(ReturnWith(Some(e))), LetStmt(p, Some(e'), None)], None);
    SureExitsFirst(b, 0);
    assert SupportedStmt(b.stmts[0], true) && SupportedStmt(b.stmts[1], true);
  }

  /** `{ let x = return 1; }` at type `!`: the importer drops the `return`. */
  lemma LostLetExample(o: Oracle)
    ensures var e := BlockExpr(Block([LetStmt(Bind(0), Some(ReturnWith(Some(Literal(Int(1))))), None)], None), true);
      var st := State(map[], []);
      && Eval(o, e, st, 0).0 == Exited(Return(Int(1)))
      && TEval(o, Import(e), st, 0).0 == Done(Unit)
  {
    var b := Block([LetStmt(Bind(0), Some(ReturnWith(Some(Literal(Int(1))))), None)], None);
    var e, st := BlockExpr(b, true), State(map[], []);
    assert Eval(o, Literal(Int(1)), st, 0) == (Done(Int(1)), st);
    assert EvalStmt(o, b, 0, st, 0) == (Exited(Return(Int(1))), st);
    assert EvalStmts(o, b, 0, st, 0) == (Exited(Return(Int(1))), st);
    assert ImportBlock(b, true) == TLiteral(Unit);
  }
}
