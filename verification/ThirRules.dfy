/** What the two languages of the importer agree on: what a pattern matches, and the
    rules by which conditionals, calls, loops and blocks run. */
module ThirRules {
  import opened Wrappers
  import opened ThirSyntax

  // ---------- Patterns ----------

  function Binders(p: Pattern): set<Id>
  {
    match p
    case Wild => {}
    case Bind(id) => {id}
    case Constant(_) => {}
    case PVariant(_, q) => Binders(q)
    case PPair(q1, q2) => Binders(q1) + Binders(q2)
  }

  /** No variable is bound twice, as Rust demands. */
  predicate Linear(p: Pattern)
  {
    match p
    case PVariant(_, q) => Linear(q)
    case PPair(q1, q2) => Linear(q1) && Linear(q2) && Binders(q1) !! Binders(q2)
    case _ => true
  }

  /** The value is the pattern with its variables filled in from the frame, and with
      anything at all in place of `_`. */
  predicate Fills(p: Pattern, v: Value, frame: Frame)
  {
    match p
    case Wild => true
    case Bind(id) => id in frame && frame[id] == v
    case Constant(c) => v == c
    case PVariant(tag, q) => v.Variant? && v.tag == tag && Fills(q, v.payload, frame)
    case PPair(q1, q2) => v.Pair? && Fills(q1, v.fst, frame) && Fills(q2, v.snd, frame)
  }

  predicate SameBut(ids: set<Id>, before: Frame, after: Frame)
  {
    after.Keys == before.Keys + ids && forall id <- before :: id !in ids ==> after[id] == before[id]
  }

  /** A pattern that matches yields the frame that fills it and differs from the old
      one only in its variables; one that does not is filled by no frame. */
  lemma {:induction false} MatchFills(p: Pattern, v: Value, frame: Frame, any: Frame)
    requires Linear(p)
    ensures match Match(p, v, frame)
      case Some(after) => Fills(p, v, after) && SameBut(Binders(p), frame, after)
      case None => !Fills(p, v, any)
  {
    match p
    case PVariant(tag, q) => if v.Variant? { MatchFills(q, v.payload, frame, any); }
    case PPair(q1, q2) =>
      if v.Pair? {
        MatchFills(q1, v.fst, frame, any);
        var first := Match(q1, v.fst, frame);
        if first.Some? {
          MatchFills(q2, v.snd, first.value, any);
          var second := Match(q2, v.snd, first.value);
          if second.Some? { FillsStays(q1, v.fst, Binders(q2), first.value, second.value); }
        }
      }
    case _ =>
  }

  lemma {:induction false} FillsStays(p: Pattern, v: Value, ids: set<Id>, before: Frame, after: Frame)
    requires Fills(p, v, before) && SameBut(ids, before, after) && Binders(p) !! ids
    ensures Fills(p, v, after)
  {
    match p
    case PVariant(_, q) => FillsStays(q, v.payload, ids, before, after);
    case PPair(q1, q2) =>
      FillsStays(q1, v.fst, ids, before, after);
      FillsStays(q2, v.snd, ids, before, after);
    case _ =>
  }

  // ---------- Runs ----------

  /** A true condition runs the first branch, a false one the second, or yields unit;
      an exit of the condition is the exit of the whole. */
  lemma Conditional(o: Oracle, c: Expr, e1: Expr, e2: Expr, st: State, fuel: nat)
    requires !c.LetCond?
    ensures var (r, st') := Eval(o, c, st, fuel);
      && (r == Done(Bool(true)) ==> Eval(o, If(c, e1, Some(e2)), st, fuel) == Eval(o, e1, st', fuel))
      && (r == Done(Bool(false)) ==> Eval(o, If(c, e1, Some(e2)), st, fuel) == Eval(o, e2, st', fuel))
      && (r == Done(Bool(false)) ==> Eval(o, If(c, e1, None), st, fuel) == (Done(Unit), st'))
      && (r.Exited? ==> Eval(o, If(c, e1, Some(e2)), st, fuel) == (r, st'))
  {
  }

  /** `if let` runs the first branch in the frame that fills its pattern. */
  lemma ConditionalLet(o: Oracle, p: Pattern, e: Expr, e1: Expr, e2: Expr, st: State, fuel: nat)
    requires Eval(o, e, st, fuel).0.Done?
    ensures var (r, st') := Eval(o, e, st, fuel);
      Eval(o, If(LetCond(p, e), e1, Some(e2)), st, fuel) ==
        match Match(p, r.v, st'.frame)
        case Some(frame) => Eval(o, e1, State(frame, st'.trace), fuel)
        case None => Eval(o, e2, st', fuel)
  {
  }

  /** Arguments run from left to right. The call records its name and their values, and
      yields what the function makes of them and of the calls before. */
  lemma CallsInOrder(o: Oracle, f: string, es: seq<Expr>, vs: seq<Value>, states: seq<State>, fuel: nat)
    requires |es| == |vs| && |states| == |es| + 1 && es != []
    requires forall i | 0 <= i < |es| :: Eval(o, es[i], states[i], fuel) == (Done(vs[i]), states[i + 1])
    ensures var last := states[|es|]; var result := o(f, vs, last.trace);
      Eval(o, FnCall(f, es), states[0], fuel) ==
        (if result.Some? then Done(result.value) else Exited(Panic), State(last.frame, last.trace + [Called(f, vs)]))
  {
    ArgsInOrder(o, es, vs, states, fuel);
  }

  lemma {:induction false} ArgsInOrder(o: Oracle, es: seq<Expr>, vs: seq<Value>, states: seq<State>, fuel: nat)
    requires |es| == |vs| && |states| == |es| + 1
    requires forall i | 0 <= i < |es| :: Eval(o, es[i], states[i], fuel) == (Done(vs[i]), states[i + 1])
    ensures EvalArgs(o, es, states[0], fuel) == (Args(vs), states[|es|])
  {
    if es != [] {
      assert Eval(o, es[0], states[0], fuel) == (Done(vs[0]), states[1]);
      forall i | 0 <= i < |es| - 1
        ensures Eval(o, es[1..][i], states[1..][i], fuel) == (Done(vs[1..][i]), states[1..][i + 1])
      {
        assert Eval(o, es[i + 1], states[i + 1], fuel) == (Done(vs[i + 1]), states[i + 2]);
      }
      ArgsInOrder(o, es[1..], vs[1..], states[1..], fuel);
      assert vs == [vs[0]] + vs[1..];
    }
  }

  /** A loop runs its body again until the body breaks, returns or panics. */
  lemma LoopOnce(o: Oracle, e: Expr, st: State, fuel: nat)
    requires fuel > 0
    ensures var (r, st') := Eval(o, e, st, fuel); var l := Eval(o, Loop(e), st, fuel);
      && (r.Done? || r == Exited(Continue) ==> l == Eval(o, Loop(e), st', fuel - 1))
      && (r.Exited? && r.x.Break? ==> l == (Done(r.x.v), st'))
      && (r.Exited? && (r.x.Return? || r.x.Panic? || r.x.Timeout?) ==> l == (r, st'))
  {
  }

  /** Statements that complete run one after another, and then the tail. */
  lemma {:induction false} StatementsInOrder(o: Oracle, b: Block, i: nat, states: seq<State>, fuel: nat)
    requires i <= |b.stmts| && |states| == |b.stmts| + 1
    requires forall k | i <= k < |b.stmts| :: Completes(o, b, k, states[k], states[k + 1], fuel)
    ensures EvalStmts(o, b, i, states[i], fuel) ==
      if b.tail.Some? then Eval(o, b.tail.value, states[|b.stmts|], fuel) else (Done(Unit), states[|b.stmts|])
    decreases |b.stmts| - i
  {
    if i < |b.stmts| {
      assert Completes(o, b, i, states[i], states[i + 1], fuel);
      StatementsInOrder(o, b, i + 1, states, fuel);
    }
  }

  predicate Completes(o: Oracle, b: Block, k: nat, st: State, st': State, fuel: nat)
    requires k < |b.stmts|
  {
    var (r, st2) := EvalStmt(o, b, k, st, fuel); r.Done? && st2 == st'
  }

  /** `let p = e else { b }` binds the variables of `p`, or runs `b`, which must not complete. */
  lemma LetElse(o: Oracle, b: Block, k: nat, p: Pattern, e: Expr, els: Block, st: State, fuel: nat)
    requires k < |b.stmts| && b.stmts[k] == LetStmt(p, Some(e), Some(els)) && Eval(o, e, st, fuel).0.Done?
    ensures var (r, st') := Eval(o, e, st, fuel); var run := EvalStmt(o, b, k, st, fuel);
      match Match(p, r.v, st'.frame)
      case Some(frame) => run == (Done(Unit), State(frame, st'.trace))
      case None =>
        if EvalStmts(o, els, 0, st', fuel).0.Done? then run.0.Stuck? else run == EvalStmts(o, els, 0, st', fuel)
  {
  }

  /** The first arm that matches and whose guard is true gives the value. */
  lemma {:induction false} FirstArm(o: Oracle, e: Expr, i: nat, k: nat, v: Value, st: State, fuel: nat)
    requires e.MatchOn? && i <= k < |e.arms| && e.arms[k].guard.None? && Match(e.arms[k].pat, v, st.frame).Some?
    requires forall j | i <= j < k :: Match(e.arms[j].pat, v, st.frame).None?
    ensures EvalArms(o, e, i, v, st, fuel)
      == Eval(o, e.arms[k].body, State(Match(e.arms[k].pat, v, st.frame).value, st.trace), fuel)
    decreases k - i
  {
    if i < k { FirstArm(o, e, i + 1, k, v, st, fuel); }
  }

  /** A guard runs in the frame its pattern fills. If it is false the next arm is tried. */
  lemma GuardedArm(o: Oracle, e: Expr, i: nat, g: Expr, v: Value, st: State, fuel: nat)
    requires e.MatchOn? && i < |e.arms| && e.arms[i].guard == Some(g) && !g.LetCond?
    requires Match(e.arms[i].pat, v, st.frame).Some?
    ensures var (b, st') := Eval(o, g, State(Match(e.arms[i].pat, v, st.frame).value, st.trace), fuel);
      && (b == Done(Bool(true)) ==> EvalArms(o, e, i, v, st, fuel) == Eval(o, e.arms[i].body, st', fuel))
      && (b == Done(Bool(false)) ==> EvalArms(o, e, i, v, st, fuel) == EvalArms(o, e, i + 1, v, st', fuel))
      && (b.Exited? ==> EvalArms(o, e, i, v, st, fuel) == (b, st'))
  {
  }

  // ---------- Runs of the engine's expressions ----------

  lemma TargetConditional(o: Oracle, c: Term, t1: Term, t2: Term, st: State, fuel: nat)
    ensures var (r, st') := TEval(o, c, st, fuel);
      && (r == Done(Bool(true)) ==> TEval(o, TIf(c, t1, Some(t2)), st, fuel) == TEval(o, t1, st', fuel))
      && (r == Done(Bool(false)) ==> TEval(o, TIf(c, t1, Some(t2)), st, fuel) == TEval(o, t2, st', fuel))
      && (r == Done(Bool(false)) ==> TEval(o, TIf(c, t1, None), st, fuel) == (Done(Unit), st'))
      && (r.Exited? ==> TEval(o, TIf(c, t1, Some(t2)), st, fuel) == (r, st'))
  {
  }

  /** `let p = t in body`; a pattern that does not match is ruled out by the type checker. */
  lemma TargetLet(o: Oracle, p: Pattern, t: Term, body: Term, st: State, fuel: nat)
    ensures var (r, st') := TEval(o, t, st, fuel); var run := TEval(o, TLet(p, t, body), st, fuel);
      && (r.Exited? ==> run == (r, st'))
      && (r.Done? && Match(p, r.v, st'.frame).Some? ==>
            run == TEval(o, body, State(Match(p, r.v, st'.frame).value, st'.trace), fuel))
      && (r.Done? && Match(p, r.v, st'.frame).None? ==> run.0.Stuck?)
  {
  }

  /** The first arm that matches and has no guard, or whose `if let` matches too. */
  lemma {:induction false} TargetArm(o: Oracle, t: Term, i: nat, k: nat, v: Value, st: State, fuel: nat)
    requires t.TMatch? && i <= k < |t.arms| && Match(t.arms[k].pat, v, st.frame).Some?
    requires forall j | i <= j < k :: Match(t.arms[j].pat, v, st.frame).None?
    ensures var arm, st1 := t.arms[k], State(Match(t.arms[k].pat, v, st.frame).value, st.trace);
      TEvalArms(o, t, i, v, st, fuel) ==
        if arm.guard.None? then TEval(o, arm.body, st1, fuel)
        else var (r, st2) := TEval(o, arm.guard.value.rhs, st1, fuel);
          if !r.Done? then (r, st2)
          else match Match(arm.guard.value.lhs, r.v, st2.frame)
            case Some(frame) => TEval(o, arm.body, State(frame, st2.trace), fuel)
            case None => TEvalArms(o, t, k + 1, v, st2, fuel)
    decreases k - i
  {
    if i < k { TargetArm(o, t, i + 1, k, v, st, fuel); }
  }

  lemma TargetLoop(o: Oracle, t: Term, st: State, fuel: nat)
    requires fuel > 0
    ensures var (r, st') := TEval(o, t, st, fuel); var l := TEval(o, TLoop(t), st, fuel);
      && (r.Done? || r == Exited(Continue) ==> l == TEval(o, TLoop(t), st', fuel - 1))
      && (r.Exited? && r.x.Break? ==> l == (Done(r.x.v), st'))
      && (r.Exited? && (r.x.Return? || r.x.Panic? || r.x.Timeout?) ==> l == (r, st'))
  {
  }

  lemma {:induction false} TargetCall(o: Oracle, f: string, ts: seq<Term>, vs: seq<Value>, states: seq<State>,
                                      fuel: nat)
    requires |ts| == |vs| && |states| == |ts| + 1
    requires forall i | 0 <= i < |ts| :: TEval(o, ts[i], states[i], fuel) == (Done(vs[i]), states[i + 1])
    ensures TEvalArgs(o, ts, states[0], fuel) == (Args(vs), states[|ts|])
    ensures var last := states[|ts|]; var result := o(f, vs, last.trace);
      TEval(o, TApp(f, ts), states[0], fuel) ==
        (if result.Some? then Done(result.value) else Exited(Panic), State(last.frame, last.trace + [Called(f, vs)]))
  {
    if ts != [] {
      assert TEval(o, ts[0], states[0], fuel) == (Done(vs[0]), states[1]);
      forall i | 0 <= i < |ts| - 1
        ensures TEval(o, ts[1..][i], states[1..][i], fuel) == (Done(vs[1..][i]), states[1..][i + 1])
      {
        assert TEval(o, ts[i + 1], states[i + 1], fuel) == (Done(vs[i + 1]), states[i + 2]);
      }
      TargetCall(o, f, ts[1..], vs[1..], states[1..], fuel);
      assert vs == [vs[0]] + vs[1..];
    }
  }
}
