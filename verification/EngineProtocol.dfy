/** The message protocol between the inner OCaml engine, the Rust engine that
    runs it as a proxy, and cargo-hax: three processes over first-in-first-out
    pipes. */
module EngineProtocol {
  import opened Wrappers

  // ---------- Messages ----------

  type Item = nat

  datatype FromEngine =
    | Diagnostic(owner: Option<Item>)
    | File(path: string)
    | PrettyPrintDiagnostic(diagnostic: string)
    | PrettyPrintRust(code: string)
    | DebugString(text: string)
    | ProfilingData(text: string)
    | ItemProcessed(items: seq<Item>)
    | Exit
    | Ping

  datatype ToEngine = PrettyPrintedDiagnostic(text: string) | PrettyPrintedRust(ok: bool, text: string) | Pong

  /** What the inner engine may send: the common messages, or a response. */
  datatype Extended = Common(m: FromEngine) | Response(payload: string)

  predicate RequiresResponse(m: FromEngine)
  {
    m.PrettyPrintRust? || m.Ping? || m.PrettyPrintDiagnostic?
  }

  /** The reply has the kind its request asks for. */
  predicate Answers(m: FromEngine, r: ToEngine)
  {
    match m
    case PrettyPrintDiagnostic(_) => r.PrettyPrintedDiagnostic?
    case PrettyPrintRust(_) => r.PrettyPrintedRust?
    case Ping => r.Pong?
    case _ => false
  }

  // ---------- State ----------

  /** The inner engine waits for the reply to a request it has just sent. */
  datatype Inner = Running | Waiting(request: FromEngine) | Stopped

  datatype Proxy = Reading | Awaiting(request: FromEngine) | Left

  datatype Hax = Listening | Closed

  datatype State = State(
    inner: Inner, toProxy: seq<Extended>,
    proxy: Proxy, response: Option<string>, toInner: seq<ToEngine>, toHax: seq<FromEngine>,
    hax: Hax, fromHax: seq<ToEngine>,
    // history
    sent: seq<Extended>, seen: seq<FromEngine>)

  const INIT := State(Running, [], Reading, None, [], [], Listening, [], [], [])

  datatype Step =
    | InnerSend(message: Extended)
    | InnerReceive
    | ProxyRead
    | ProxyReply
    | HaxRead(reply: ToEngine)
    | HaxEnd

  predicate Enabled(s: State, a: Step)
  {
    match a
    case InnerSend(_) => s.inner.Running?
    case InnerReceive => s.inner.Waiting? && s.toInner != []
    case ProxyRead => s.proxy.Reading? && s.toProxy != []
    case ProxyReply => s.proxy.Awaiting? && s.fromHax != []
    case HaxRead(reply) =>
      s.hax.Listening? && s.toHax != [] && (RequiresResponse(s.toHax[0]) ==> Answers(s.toHax[0], reply))
    case HaxEnd => s.hax.Listening? && s.toHax == [] && s.proxy.Left?
  }

  function Apply(s: State, a: Step): State
    requires Enabled(s, a)
  {
    match a
    case InnerSend(m) =>
      s.(toProxy := s.toProxy + [m], sent := s.sent + [m],
         inner := if m.Common? && m.m.Exit? then Stopped
                  else if m.Common? && RequiresResponse(m.m) then Waiting(m.m) else Running)
    case InnerReceive => s.(toInner := s.toInner[1..], inner := Running)
    case ProxyRead =>
      var s1 := s.(toProxy := s.toProxy[1..]);
      (match s.toProxy[0]
       case Response(r) => s1.(response := Some(r))
       case Common(m) =>
         if m.Exit? then s1.(proxy := Left)
         else s1.(toHax := s.toHax + [m], proxy := if RequiresResponse(m) then Awaiting(m) else Reading))
    case ProxyReply => s.(fromHax := s.fromHax[1..], toInner := s.toInner + [s.fromHax[0]], proxy := Reading)
    case HaxRead(reply) =>
      var m := s.toHax[0];
      var s1 := s.(toHax := s.toHax[1..], seen := s.seen + [m]);
      if m.Exit? then s1.(hax := Closed)
      else if RequiresResponse(m) then s1.(fromHax := s.fromHax + [reply]) else s1
    case HaxEnd => s.(hax := Closed)
  }

  // ---------- The invariant ----------

  predicate IsRequest(m: Extended) { m.Common? && RequiresResponse(m.m) }

  predicate Quiet(ms: seq<Extended>) { forall i | 0 <= i < |ms| :: !IsRequest(ms[i]) }

  predicate QuietHax(ms: seq<FromEngine>) { forall i | 0 <= i < |ms| :: !RequiresResponse(ms[i]) && !ms[i].Exit? }

  /** What cargo-hax is meant to see: everything but responses and the exit. */
  function Forwarded(ms: seq<Extended>): seq<FromEngine>
  {
    if ms == [] then []
    else
      var m := ms[|ms| - 1];
      Forwarded(ms[..|ms| - 1]) + (if m.Common? && !m.m.Exit? then [m.m] else [])
  }

  function LastResponse(ms: seq<Extended>): Option<string>
  {
    if ms == [] then None
    else if ms[|ms| - 1].Response? then Some(ms[|ms| - 1].payload) else LastResponse(ms[..|ms| - 1])
  }

  /** Where the one outstanding request of a waiting engine is. */
  datatype Place = InPipe | AtHax | ReplyToProxy | ReplyToInner

  predicate RequestAt(s: State, request: FromEngine, p: Place)
  {
    match p
    case InPipe =>
      && s.toProxy != [] && Quiet(s.toProxy[..|s.toProxy| - 1]) && s.toProxy[|s.toProxy| - 1] == Common(request)
      && s.proxy == Reading && QuietHax(s.toHax) && s.fromHax == [] && s.toInner == []
    case AtHax =>
      && s.toProxy == [] && s.proxy == Awaiting(request)
      && s.toHax != [] && QuietHax(s.toHax[..|s.toHax| - 1]) && s.toHax[|s.toHax| - 1] == request
      && s.fromHax == [] && s.toInner == []
    case ReplyToProxy =>
      && s.toProxy == [] && s.proxy == Awaiting(request) && s.toHax == []
      && |s.fromHax| == 1 && Answers(request, s.fromHax[0]) && s.toInner == []
    case ReplyToInner =>
      && s.toProxy == [] && s.proxy == Reading && s.toHax == []
      && s.fromHax == [] && |s.toInner| == 1 && Answers(request, s.toInner[0])
  }

  predicate NoRequest(s: State)
  {
    Quiet(s.toProxy) && !s.proxy.Awaiting? && QuietHax(s.toHax) && s.fromHax == [] && s.toInner == []
  }

  predicate ExitIsLast(s: State)
  {
    && (forall i | 0 <= i < |s.toProxy| :: s.toProxy[i] == Common(Exit) ==> i == |s.toProxy| - 1 && s.inner.Stopped?)
    && (s.proxy.Left? ==> s.inner.Stopped? && s.toProxy == [])
    && (s.inner.Stopped? && !s.proxy.Left? ==> s.toProxy != [] && s.toProxy[|s.toProxy| - 1] == Common(Exit))
    && (s.hax.Closed? ==> s.proxy.Left? && s.toHax == [])
  }

  ghost predicate Placed(s: State)
  {
    if s.inner.Waiting?
    then RequiresResponse(s.inner.request) && exists p :: RequestAt(s, s.inner.request, p)
    else NoRequest(s)
  }

  /** At most one request is outstanding, nothing is lost, reordered or added. */
  ghost predicate Inv(s: State)
  {
    && Placed(s)
    && ExitIsLast(s)
    && exists done :: Delivered(s, done)
  }

  /** `done` is the part of the inner engine's output the proxy has read. */
  predicate Delivered(s: State, done: seq<Extended>)
  {
    done + s.toProxy == s.sent && s.seen + s.toHax == Forwarded(done) && s.response == LastResponse(done)
  }

  lemma ForwardedPush(ms: seq<Extended>, m: Extended)
    ensures Forwarded(ms + [m]) == Forwarded(ms) + (if m.Common? && !m.m.Exit? then [m.m] else [])
    ensures LastResponse(ms + [m]) == if m.Response? then Some(m.payload) else LastResponse(ms)
  {
    assert (ms + [m])[..|ms|] == ms;
  }

  lemma InitInv()
    ensures Inv(INIT)
  {
    assert Delivered(INIT, []);
  }

  lemma StepDelivers(s: State, a: Step, done: seq<Extended>)
    requires Delivered(s, done) && Enabled(s, a)
    ensures exists done' :: Delivered(Apply(s, a), done')
  {
    var s' := Apply(s, a);
    if a.ProxyRead? {
      ForwardedPush(done, s.toProxy[0]);
      assert done + [s.toProxy[0]] + s'.toProxy == s.sent;
      assert Delivered(s', done + [s.toProxy[0]]);
    } else {
      if a.HaxRead? { assert [s.toHax[0]] + s.toHax[1..] == s.toHax; }
      assert Delivered(s', done);
    }
  }

  lemma StepKeepsPlace(s: State, a: Step)
    requires Placed(s) && ExitIsLast(s) && Enabled(s, a)
    ensures Placed(Apply(s, a))
  {
    var s' := Apply(s, a);
    if a.InnerSend? {
      if s'.inner.Waiting? { assert RequestAt(s', s'.inner.request, InPipe); }
    } else if s.inner.Waiting? {
      var p :| RequestAt(s, s.inner.request, p);
      match p
      case InPipe => RequestMoves(s, a);
      case AtHax => HaxMoves(s, a);
      case ReplyToProxy => ReplyMoves(s, a);
      case ReplyToInner =>
    }
  }

  lemma HaxMoves(s: State, a: Step)
    requires s.inner.Waiting? && RequiresResponse(s.inner.request) && RequestAt(s, s.inner.request, AtHax)
    requires Enabled(s, a) && !a.InnerSend? && ExitIsLast(s)
    ensures Placed(Apply(s, a))
  {
    assert RequestAt(Apply(s, a), s.inner.request, if a.HaxRead? && |s.toHax| == 1 then ReplyToProxy else AtHax);
  }

  lemma ReplyMoves(s: State, a: Step)
    requires s.inner.Waiting? && RequiresResponse(s.inner.request) && RequestAt(s, s.inner.request, ReplyToProxy)
    requires Enabled(s, a) && !a.InnerSend? && ExitIsLast(s)
    ensures Placed(Apply(s, a))
  {
    assert RequestAt(Apply(s, a), s.inner.request, if a.ProxyReply? then ReplyToInner else ReplyToProxy);
  }

  lemma RequestMoves(s: State, a: Step)
    requires s.inner.Waiting? && RequiresResponse(s.inner.request) && RequestAt(s, s.inner.request, InPipe)
    requires Enabled(s, a) && !a.InnerSend? && ExitIsLast(s)
    ensures var s' := Apply(s, a);
      RequestAt(s', s.inner.request, if a.ProxyRead? && |s.toProxy| == 1 then AtHax else InPipe)
  {
    var s' := Apply(s, a);
    if a.ProxyRead? && |s.toProxy| > 1 {
      assert s.toProxy[0] == s.toProxy[..|s.toProxy| - 1][0];
      assert s'.toProxy[..|s'.toProxy| - 1] == s.toProxy[1..|s.toProxy| - 1];
    }
  }

  lemma StepKeepsExit(s: State, a: Step)
    requires Placed(s) && ExitIsLast(s) && Enabled(s, a)
    ensures ExitIsLast(Apply(s, a))
  {
  }

  lemma StepKeepsInv(s: State, a: Step)
    requires Inv(s) && Enabled(s, a)
    ensures Inv(Apply(s, a))
  {
    var done :| Delivered(s, done);
    StepDelivers(s, a, done);
    StepKeepsPlace(s, a);
    StepKeepsExit(s, a);
  }

  // ---------- Runs ----------

  /** A run from the initial state under any schedule and any messages. */
  predicate IsRun(states: seq<State>, steps: seq<Step>)
  {
    && |states| == |steps| + 1 && states[0] == INIT
    && forall i | 0 <= i < |steps| :: Enabled(states[i], steps[i]) && states[i + 1] == Apply(states[i], steps[i])
  }

  lemma {:induction false} RunInv(states: seq<State>, steps: seq<Step>, i: nat)
    requires IsRun(states, steps) && i < |states|
    ensures Inv(states[i])
  {
    if i == 0 {
      InitInv();
    } else {
      RunInv(states, steps, i - 1);
      StepKeepsInv(states[i - 1], steps[i - 1]);
    }
  }

  predicate Finished(s: State) { s.inner.Stopped? && s.proxy.Left? && s.hax.Closed? }

  /** How many requests and replies are on their way. */
  function Outstanding(s: State): nat
  {
    Requests(s.toProxy) + HaxRequests(s.toHax) + |s.fromHax| + |s.toInner|
  }

  function Requests(ms: seq<Extended>): nat
  {
    if ms == [] then 0 else Requests(ms[..|ms| - 1]) + (if IsRequest(ms[|ms| - 1]) then 1 else 0)
  }

  function HaxRequests(ms: seq<FromEngine>): nat
  {
    if ms == [] then 0 else HaxRequests(ms[..|ms| - 1]) + (if RequiresResponse(ms[|ms| - 1]) then 1 else 0)
  }

  lemma {:induction false} QuietCounts(ms: seq<Extended>, hs: seq<FromEngine>)
    ensures Quiet(ms) ==> Requests(ms) == 0
    ensures QuietHax(hs) ==> HaxRequests(hs) == 0
    decreases |ms| + |hs|
  {
    if ms != [] {
      QuietCounts(ms[..|ms| - 1], hs);
    } else if hs != [] {
      QuietCounts(ms, hs[..|hs| - 1]);
    }
  }

  lemma OneOutstanding(s: State)
    requires Placed(s)
    ensures Outstanding(s) == if s.inner.Waiting? then 1 else 0
  {
    QuietCounts(s.toProxy, s.toHax);
    if s.toProxy != [] { QuietCounts(s.toProxy[..|s.toProxy| - 1], []); }
    if s.toHax != [] { QuietCounts([], s.toHax[..|s.toHax| - 1]); }
  }

  /** Some process other than the inner engine's sending side can move. */
  lemma CanMove(s: State) returns (a: Step)
    requires Inv(s) && !s.inner.Running? && !Finished(s)
    ensures Enabled(s, a) && !a.InnerSend?
  {
    if s.toInner != [] {
      a := InnerReceive;
    } else if s.proxy.Awaiting? && s.fromHax != [] {
      a := ProxyReply;
    } else if s.proxy.Reading? && s.toProxy != [] {
      a := ProxyRead;
    } else if s.toHax != [] {
      var m := s.toHax[0];
      a := HaxRead(match m
        case PrettyPrintDiagnostic(d) => PrettyPrintedDiagnostic(d)
        case PrettyPrintRust(c) => PrettyPrintedRust(true, c)
        case _ => Pong);
    } else {
      a := HaxEnd;
    }
  }

  /** In every state of every run: at most one request is outstanding, a reply
      that can be received answers the waiting request, what cargo-hax has seen
      is a prefix of the forwarded messages, and no state is a deadlock. */
  lemma RunSafe(states: seq<State>, steps: seq<Step>, i: nat)
    requires IsRun(states, steps) && i < |states|
    ensures var s := states[i];
      && Outstanding(s) <= 1
      && (Enabled(s, InnerReceive) ==> |s.toInner| == 1 && Answers(s.inner.request, s.toInner[0]))
      && s.seen <= Forwarded(s.sent)
      && (Finished(s) || exists a :: Enabled(s, a))
  {
    var s := states[i];
    RunInv(states, steps, i);
    OneOutstanding(s);
    var done :| Delivered(s, done);
    ForwardedPrefix(done, s.toProxy);
    if s.inner.Running? {
      assert Enabled(s, InnerSend(Common(Exit)));
    } else if !Finished(s) {
      var a := CanMove(s);
    }
  }

  lemma {:induction false} ForwardedPrefix(ms: seq<Extended>, more: seq<Extended>)
    ensures Forwarded(ms) <= Forwarded(ms + more)
  {
    if more == [] {
      assert ms + more == ms;
    } else {
      var n := |more| - 1;
      ForwardedPrefix(ms, more[..n]);
      ForwardedPush(ms + more[..n], more[n]);
      assert ms + more == ms + more[..n] + [more[n]];
    }
  }

  /** At the end cargo-hax has seen exactly the inner messages minus responses
      and the exit, and the proxy holds the last response. */
  lemma RunComplete(states: seq<State>, steps: seq<Step>, i: nat)
    requires IsRun(states, steps) && i < |states| && Finished(states[i])
    ensures states[i].seen == Forwarded(states[i].sent) && states[i].response == LastResponse(states[i].sent)
  {
    var s := states[i];
    RunInv(states, steps, i);
    var done :| Delivered(s, done);
    assert done == s.sent && s.seen + s.toHax == s.seen;
  }

  // ---------- Every request is answered ----------

  /** The work left while the inner engine does not send. */
  function Work(s: State): nat
  {
    4 * |s.toProxy| + 2 * |s.toHax| + |s.fromHax| + |s.toInner| + (if s.proxy.Awaiting? then 1 else 0)
      + (if s.hax.Listening? then 1 else 0)
  }

  /** A waiting engine gets its reply after boundedly many steps, and a stopped
      one lets the others finish, whatever the schedule: every step that can be
      taken uses up work, and some step can be taken. */
  lemma WaitingProgress(s: State, a: Step)
    requires Inv(s) && !s.inner.Running? && Enabled(s, a)
    ensures Work(Apply(s, a)) < Work(s)
  {
  }

  /** In every run a waiting engine has received its reply before more steps are
      taken than there is work. */
  lemma ReplyComes(states: seq<State>, steps: seq<Step>, i: nat, n: nat) returns (j: nat)
    requires IsRun(states, steps) && i + n < |states| && states[i].inner.Waiting? && n > Work(states[i])
    ensures i <= j < i + n && steps[j].InnerReceive?
    ensures |states[j].toInner| == 1 && Answers(states[i].inner.request, states[j].toInner[0])
  {
    j := i;
    while !steps[j].InnerReceive?
      invariant i <= j < i + n && j <= i + Work(states[i]) - Work(states[j])
      invariant states[j].inner == states[i].inner
      decreases Work(states[j])
    {
      RunInv(states, steps, j);
      WaitingProgress(states[j], steps[j]);
      StaysWaiting(states[j], steps[j]);
      j := j + 1;
    }
    RunSafe(states, steps, j);
  }

  lemma StaysWaiting(s: State, a: Step)
    requires s.inner.Waiting? && Enabled(s, a) && !a.InnerReceive?
    ensures Apply(s, a).inner == s.inner
  {
  }

  // ---------- The message loop of cargo-hax ----------

  /** The messages up to the first exit, which ends the loop. */
  function UntilExit(ms: seq<FromEngine>): seq<FromEngine>
  {
    if ms == [] || ms[0].Exit? then [] else [ms[0]] + UntilExit(ms[1..])
  }

  /** Diagnostics of `item` since it was last declared processed; `None` when it
      was never mentioned. */
  function ErrorsOf(ms: seq<FromEngine>, item: Item): Option<nat>
  {
    if ms == [] then None
    else
      var before, m := ErrorsOf(ms[..|ms| - 1], item), ms[|ms| - 1];
      match m
      case Diagnostic(owner) =>
        if owner == Some(item) then Some(if before.Some? then before.value + 1 else 1) else before
      case ItemProcessed(items) => if item in items then Some(0) else before
      case _ => before
  }

  function Questions(ms: seq<FromEngine>): seq<FromEngine>
  {
    if ms == [] then []
    else Questions(ms[..|ms| - 1]) + (if RequiresResponse(ms[|ms| - 1]) then [ms[|ms| - 1]] else [])
  }

  /** The replies in order: the formatted diagnostic, the pretty-printed code or why
      there is none, or a pong. */
  predicate AllAnswered(questions: seq<FromEngine>, replies: seq<ToEngine>,
                        format: string -> string, pretty: string -> (bool, string))
  {
    && |questions| == |replies|
    && forall i | 0 <= i < |replies| :: IsReply(questions[i], replies[i], format, pretty)
  }

  predicate IsReply(m: FromEngine, r: ToEngine, format: string -> string, pretty: string -> (bool, string))
  {
    || (m.PrettyPrintDiagnostic? && r == PrettyPrintedDiagnostic(format(m.diagnostic)))
    || (m.PrettyPrintRust? && r == PrettyPrintedRust(pretty(m.code).0, pretty(m.code).1))
    || (m.Ping? && r == Pong)
  }

  /** What formatting and pretty-printing yield is a parameter. */
  function Reply(m: FromEngine, format: string -> string, pretty: string -> (bool, string)): (r: ToEngine)
    requires RequiresResponse(m)
    ensures Answers(m, r) && IsReply(m, r, format, pretty)
  {
    match m
    case PrettyPrintDiagnostic(d) => PrettyPrintedDiagnostic(format(d))
    case PrettyPrintRust(c) => var (ok, text) := pretty(c); PrettyPrintedRust(ok, text)
    case Ping => Pong
  }

  lemma UntilExitPrefix(ms: seq<FromEngine>, i: nat)
    requires i < |ms| && forall k | 0 <= k < i :: !ms[k].Exit?
    ensures ms[i].Exit? ==> UntilExit(ms) == ms[..i]
    ensures i + 1 == |ms| && !ms[i].Exit? ==> UntilExit(ms) == ms
  {
    if i > 0 {
      UntilExitPrefix(ms[1..], i - 1);
      assert ms[..i] == [ms[0]] + ms[1..][..i - 1];
    } else if |ms| == 1 {
      assert ms[1..] == [];
    }
  }

  function Stat(errorsPerItem: map<Item, nat>, item: Item): Option<nat>
  {
    if item in errorsPerItem then Some(errorsPerItem[item]) else None
  }

  ghost predicate Statistics(errorsPerItem: map<Item, nat>, ms: seq<FromEngine>)
  {
    forall item :: Stat(errorsPerItem, item) == ErrorsOf(ms, item)
  }

  method DeclareItems(errorsPerItem: map<Item, nat>, items: seq<Item>) returns (r: map<Item, nat>)
    ensures forall item :: Stat(r, item) == if item in items then Some(0) else Stat(errorsPerItem, item)
  {
    r := errorsPerItem;
    for k := 0 to |items|
      invariant forall item :: Stat(r, item) == if item in items[..k] then Some(0) else Stat(errorsPerItem, item)
    {
      assert items[..k + 1] == items[..k] + [items[k]];
      r := r[items[k] := 0];
    }
    assert items[..|items|] == items;
  }

  lemma HistoryPush(ms: seq<FromEngine>, m: FromEngine, item: Item)
    ensures ErrorsOf(ms + [m], item) == match m
      case Diagnostic(owner) =>
        var before := ErrorsOf(ms, item);
        if owner == Some(item) then Some(if before.Some? then before.value + 1 else 1) else before
      case ItemProcessed(items) => if item in items then Some(0) else ErrorsOf(ms, item)
      case _ => ErrorsOf(ms, item)
    ensures Questions(ms + [m]) == Questions(ms) + (if RequiresResponse(m) then [m] else [])
  {
    assert (ms + [m])[..|ms|] == ms;
  }

  /** The bookkeeping for one message. */
  method CountMessage(m: FromEngine, errorsPerItem: map<Item, nat>, ghost ms: seq<FromEngine>)
    returns (r: map<Item, nat>)
    requires Statistics(errorsPerItem, ms)
    ensures Statistics(r, ms + [m])
  {
    r := errorsPerItem;
    match m {
      case Diagnostic(owner) =>
        if owner.Some? {
          var before := if owner.value in r then r[owner.value] else 0;
          r := r[owner.value := before + 1];
        }
      case ItemProcessed(items) => r := DeclareItems(r, items);
      case _ =>
    }
    forall item ensures Stat(r, item) == ErrorsOf(ms + [m], item) {
      HistoryPush(ms, m, item);
      assert Stat(errorsPerItem, item) == ErrorsOf(ms, item);
    }
  }

  /** `run_engine`'s loop: an error is reported exactly when a diagnostic came
      before the exit, every question is answered in order, and the statistics
      count each item's diagnostics since its last declaration. */
  method RunEngine(ms: seq<FromEngine>, format: string -> string, pretty: string -> (bool, string))
    returns (error: bool, errorsPerItem: map<Item, nat>, replies: seq<ToEngine>)
    ensures error <==> exists m <- UntilExit(ms) :: m.Diagnostic?
    ensures AllAnswered(Questions(UntilExit(ms)), replies, format, pretty)
    ensures Statistics(errorsPerItem, UntilExit(ms))
  {
    error, errorsPerItem, replies := false, map[], [];
    for i := 0 to |ms|
      invariant forall k | 0 <= k < i :: !ms[k].Exit?
      invariant error <==> exists m <- ms[..i] :: m.Diagnostic?
      invariant AllAnswered(Questions(ms[..i]), replies, format, pretty)
      invariant Statistics(errorsPerItem, ms[..i])
    {
      UntilExitPrefix(ms, i);
      var m := ms[i];
      if m.Exit? { return; }
      assert ms[..i + 1] == ms[..i] + [m];
      HistoryPush(ms[..i], m, 0);
      errorsPerItem := CountMessage(m, errorsPerItem, ms[..i]);
      if m.Diagnostic? { error := true; }
      if RequiresResponse(m) { replies := replies + [Reply(m, format, pretty)]; }
    }
    assert ms[..|ms|] == ms;
    if ms != [] { UntilExitPrefix(ms, |ms| - 1); }
  }

  // ---------- The requests ----------

  /** Three kinds of message ask for a reply, each for one of its own kind. */
  lemma ThreeKinds(m: FromEngine, r: ToEngine)
    ensures RequiresResponse(m) <==> m.PrettyPrintDiagnostic? || m.PrettyPrintRust? || m.Ping?
    ensures Answers(m, r) <==>
      || (m.PrettyPrintDiagnostic? && r.PrettyPrintedDiagnostic?)
      || (m.PrettyPrintRust? && r.PrettyPrintedRust?)
      || (m.Ping? && r.Pong?)
  {
  }

  /** The questions are the messages of these kinds, all of them and in order. */
  lemma {:induction false} QuestionsAre(ms: seq<FromEngine>, m: FromEngine)
    ensures multiset(Questions(ms))[m] ==
      if m.PrettyPrintDiagnostic? || m.PrettyPrintRust? || m.Ping? then multiset(ms)[m] else 0
  {
    if ms != [] {
      QuestionsAre(ms[..|ms| - 1], m);
      assert ms == ms[..|ms| - 1] + [ms[|ms| - 1]];
    }
  }

  /** Cargo-hax is meant to see every message but responses and the exit. */
  lemma {:induction false} ForwardedAre(ms: seq<Extended>, m: FromEngine)
    ensures multiset(Forwarded(ms))[m] == if m == Exit then 0 else multiset(ms)[Common(m)]
  {
    if ms != [] {
      ForwardedAre(ms[..|ms| - 1], m);
      assert ms == ms[..|ms| - 1] + [ms[|ms| - 1]];
    }
  }

  /** The order of both is that of the messages: what was asked first comes first. */
  lemma {:induction false} InOrder(ms: seq<Extended>, hs: seq<FromEngine>, n: nat)
    requires n <= |ms| && n <= |hs|
    ensures Forwarded(ms[..n]) <= Forwarded(ms) && Questions(hs[..n]) <= Questions(hs)
    decreases |ms| + |hs|
  {
    if n < |ms| {
      InOrder(ms[..|ms| - 1], hs, n);
      assert ms[..|ms| - 1][..n] == ms[..n];
    } else if n < |hs| {
      InOrder(ms, hs[..|hs| - 1], n);
      assert hs[..|hs| - 1][..n] == hs[..n];
    } else {
      assert ms[..n] == ms && hs[..n] == hs;
    }
  }
}
