/** The flat loop with its condition stack refines an interpreter over nested conditionals. */
module Structured {
  import opened Core
  import opened Script
  import opened Interp

  /** A script as nested conditionals; a conditional has any number of ELSE segments. */
  datatype Tree =
    | Done
    | Plain(op: Op, next: Tree)
    | Cond(ifOp: Op, body: Tree, elses: Elses, endOp: Op, next: Tree)

  datatype Elses = NoElse | Else(elseOp: Op, body: Tree, more: Elses)

  predicate WellFormed(t: Tree) {
    match t
    case Done => true
    case Plain(op, next) => op.code !in {OP_IF, OP_NOTIF, OP_ELSE, OP_ENDIF} && WellFormed(next)
    case Cond(i, body, elses, e, next) =>
      (i.code == OP_IF || i.code == OP_NOTIF) && WellFormed(body) && WellFormedElses(elses) && e.code == OP_ENDIF && WellFormed(next)
  }

  predicate WellFormedElses(es: Elses) {
    match es
    case NoElse => true
    case Else(op, body, more) => op.code == OP_ELSE && WellFormed(body) && WellFormedElses(more)
  }

  function Flat(t: Tree): seq<Op> {
    match t
    case Done => []
    case Plain(op, next) => [op] + Flat(next)
    case Cond(i, body, elses, e, next) => [i] + (Flat(body) + (FlatElses(elses) + ([e] + Flat(next))))
  }

  function FlatElses(es: Elses): seq<Op> {
    match es
    case NoElse => []
    case Else(op, body, more) => [op] + (Flat(body) + FlatElses(more))
  }

  /** An op of a segment: counted in any case, acting only in a selected one. */
  function Turn(c: Ctx, script: Bytes, op: Op, st: State, live: bool): Result<State, Error> {
    match Count(op, st)
    case Err(e) => Err(e)
    case Ok(counted) =>
      if !live then Limit(counted)
      else if op.code <= OP_PUSHDATA4 then Limit(counted.(stack := st.stack + [op.data]))
      else match Execute(c, script, op.code, st.pc, counted)
        case Err(e) => Err(e)
        case Ok(acted) => Limit(acted)
  }

  /** The op that opens a conditional: whether its first segment is selected. */
  function Open(c: Ctx, op: Op, st: State, live: bool): Result<(bool, State), Error> {
    match Count(op, st)
    case Err(e) => Err(e)
    case Ok(counted) =>
      if !live then (match Limit(counted) case Err(e) => Err(e) case Ok(skipped) => Ok((false, skipped)))
      else match Condition(c, op.code, st.stack)
        case Err(e) => Err(e)
        case Ok(val) =>
          match Limit(counted.(stack := st.stack[..|st.stack| - 1]))
          case Err(e) => Err(e)
          case Ok(popped) => Ok((val, popped))
  }

  /** The recursive interpreter; the condition stack is not used. */
  function RunTree(c: Ctx, script: Bytes, t: Tree, st: State, live: bool): Result<State, Error>
    decreases t, 1
  {
    match t
    case Done => Ok(st)
    case Plain(op, next) =>
      (match Turn(c, script, op, st, live)
       case Err(e) => Err(e)
       case Ok(turned) => RunTree(c, script, next, turned, live))
    case Cond(i, body, elses, e, next) =>
      match Open(c, i, st, live)
      case Err(x) => Err(x)
      case Ok((val, entered)) => RunCond(c, script, t, entered, live, val)
  }

  /** The rest of a conditional after its opening op. */
  function RunCond(c: Ctx, script: Bytes, t: Tree, st: State, live: bool, val: bool): Result<State, Error>
    requires t.Cond?
    decreases t, 0
  {
    match RunTree(c, script, t.body, st, live && val)
    case Err(x) => Err(x)
    case Ok(ran) =>
      match RunElses(c, script, t.elses, ran, live, !val)
      case Err(x) => Err(x)
      case Ok(closing) =>
        match Turn(c, script, t.endOp, closing, false)
        case Err(x) => Err(x)
        case Ok(closed) => RunTree(c, script, t.next, closed, live)
  }

  /** The ELSE segments, selected alternately. */
  function RunElses(c: Ctx, script: Bytes, es: Elses, st: State, live: bool, selected: bool): Result<State, Error>
    decreases es, 1
  {
    match es
    case NoElse => Ok(st)
    case Else(op, body, more) =>
      match Turn(c, script, op, st, false)
      case Err(x) => Err(x)
      case Ok(turned) =>
        match RunTree(c, script, body, turned, live && selected)
        case Err(x) => Err(x)
        case Ok(ran) => RunElses(c, script, more, ran, live, !selected)
  }

  function WithExec(r: Result<State, Error>, exec: seq<bool>): Result<State, Error> {
    match r
    case Err(e) => Err(e)
    case Ok(st) => Ok(st.(exec := exec))
  }

  function Opened(r: Result<(bool, State), Error>, exec: seq<bool>): Result<State, Error> {
    match r
    case Err(e) => Err(e)
    case Ok((val, st)) => Ok(st.(exec := exec + [val]))
  }

  function ThenRun(c: Ctx, script: Bytes, r: Result<State, Error>, rest: seq<Op>): Result<State, Error> {
    match r
    case Err(e) => Err(e)
    case Ok(s) => RunOps(c, script, rest, s)
  }

  /** The state of the innermost condition after the ELSE ops. */
  function Flipped(es: Elses, val: bool): bool {
    match es
    case NoElse => val
    case Else(_, _, more) => Flipped(more, !val)
  }

  lemma StepPlain(c: Ctx, script: Bytes, op: Op, st: State, exec: seq<bool>)
    requires op.code !in {OP_IF, OP_NOTIF, OP_ELSE, OP_ENDIF}
    ensures Step(c, script, op, st.(exec := exec)) == WithExec(Turn(c, script, op, st, AllTrue(exec)), exec)
  {
    hide CheckSigOp, CheckMultiSig, PlainOp, AllTrue, Condition;
  }

  lemma StepOpen(c: Ctx, script: Bytes, op: Op, st: State, exec: seq<bool>)
    requires op.code == OP_IF || op.code == OP_NOTIF
    ensures Step(c, script, op, st.(exec := exec)) == Opened(Open(c, op, st, AllTrue(exec)), exec)
    ensures !AllTrue(exec) && Open(c, op, st, false).Ok? ==> !Open(c, op, st, false).value.0
  {
    hide Execute, AllTrue, Condition;
  }

  lemma StepElseEnd(c: Ctx, script: Bytes, op: Op, st: State, exec: seq<bool>, val: bool)
    requires op.code == OP_ELSE || op.code == OP_ENDIF
    ensures Step(c, script, op, st.(exec := exec + [val]))
              == WithExec(Turn(c, script, op, st, false), if op.code == OP_ELSE then exec + [!val] else exec)
  {
    hide Execute, AllTrue, Condition;
    assert (exec + [val])[..|exec|] == exec;
  }

  lemma AllTrueAppend(exec: seq<bool>, val: bool)
    ensures AllTrue(exec + [val]) <==> AllTrue(exec) && val
  {
    assert (exec + [val])[|exec|] == val;
    assert forall i :: 0 <= i < |exec| ==> (exec + [val])[i] == exec[i];
  }

  lemma {:induction false} RunAppend(c: Ctx, script: Bytes, a: seq<Op>, b: seq<Op>, st: State)
    ensures RunOps(c, script, a + b, st) == ThenRun(c, script, RunOps(c, script, a, st), b)
    decreases |a|
  {
    hide Step;
    if a == [] {
      assert a + b == b;
    } else {
      assert (a + b)[1..] == a[1..] + b;
      if Step(c, script, a[0], st).Ok? {
        RunAppend(c, script, a[1..], b, Step(c, script, a[0], st).value);
      }
    }
  }

  lemma {:induction false} RunCons(c: Ctx, script: Bytes, op: Op, rest: seq<Op>, st: State)
    ensures RunOps(c, script, [op] + rest, st) == ThenRun(c, script, Step(c, script, op, st), rest)
  {
    assert ([op] + rest)[1..] == rest;
  }

  /** Running the flat ops under any conditions is running the tree, selected exactly if all of them hold. */
  lemma {:induction false} FlatRefines(c: Ctx, script: Bytes, t: Tree, st: State, exec: seq<bool>)
    requires WellFormed(t)
    ensures RunOps(c, script, Flat(t), st.(exec := exec)) == WithExec(RunTree(c, script, t, st, AllTrue(exec)), exec)
    decreases t, 1
  {
    hide Step, Turn, Open, AllTrue;
    match t
    case Done =>
    case Plain(op, next) =>
      StepPlain(c, script, op, st, exec);
      RunCons(c, script, op, Flat(next), st.(exec := exec));
      var r := Turn(c, script, op, st, AllTrue(exec));
      if r.Ok? {
        FlatRefines(c, script, next, r.value, exec);
      }
    case Cond(i, body, elses, e, next) =>
      StepOpen(c, script, i, st, exec);
      RunCons(c, script, i, Flat(body) + (FlatElses(elses) + ([e] + Flat(next))), st.(exec := exec));
      var r := Open(c, i, st, AllTrue(exec));
      if r.Ok? {
        CondRefines(c, script, t, r.value.1, exec, r.value.0);
      }
  }

  /** The rest of a conditional after its opening op. */
  lemma {:induction false} CondRefines(c: Ctx, script: Bytes, t: Tree, st: State, exec: seq<bool>, val: bool)
    requires WellFormed(t) && t.Cond?
    ensures RunOps(c, script, Flat(t.body) + (FlatElses(t.elses) + ([t.endOp] + Flat(t.next))), st.(exec := exec + [val])) ==
            WithExec(RunCond(c, script, t, st, AllTrue(exec), val), exec)
    decreases t, 0
  {
    var Cond(_, body, elses, e, next) := t;
    hide Step, Turn, Open, AllTrue, RunTree, RunElses, Flat, FlatElses, RunOps;
    var start := st.(exec := exec + [val]);
    AllTrueAppend(exec, val);
    RunAppend(c, script, Flat(body), FlatElses(elses) + ([e] + Flat(next)), start);
    FlatRefines(c, script, body, st, exec + [val]);
    var r := RunTree(c, script, body, st, AllTrue(exec) && val);
    if r.Ok? {
      RunAppend(c, script, FlatElses(elses), [e] + Flat(next), r.value.(exec := exec + [val]));
      ElsesRefine(c, script, elses, r.value, exec, val);
      var q := RunElses(c, script, elses, r.value, AllTrue(exec), !val);
      if q.Ok? {
        StepElseEnd(c, script, e, q.value, exec, Flipped(elses, val));
        RunCons(c, script, e, Flat(next), q.value.(exec := exec + [Flipped(elses, val)]));
        var z := Turn(c, script, e, q.value, false);
        if z.Ok? {
          FlatRefines(c, script, next, z.value, exec);
        }
      }
    }
  }

  lemma {:induction false} ElsesRefine(c: Ctx, script: Bytes, es: Elses, st: State, exec: seq<bool>, val: bool)
    requires WellFormedElses(es)
    ensures RunOps(c, script, FlatElses(es), st.(exec := exec + [val]))
              == WithExec(RunElses(c, script, es, st, AllTrue(exec), !val), exec + [Flipped(es, val)])
    decreases es, 1
  {
    hide Step, Turn, Open, AllTrue, RunTree, Flat;
    match es
    case NoElse =>
    case Else(op, body, more) =>
      StepElseEnd(c, script, op, st, exec, val);
      RunCons(c, script, op, Flat(body) + FlatElses(more), st.(exec := exec + [val]));
      var r := Turn(c, script, op, st, false);
      if r.Ok? {
        var s := r.value;
        AllTrueAppend(exec, !val);
        RunAppend(c, script, Flat(body), FlatElses(more), s.(exec := exec + [!val]));
        FlatRefines(c, script, body, s, exec + [!val]);
        var q := RunTree(c, script, body, s, AllTrue(exec) && !val);
        if q.Ok? {
          ElsesRefine(c, script, more, q.value, exec, !val);
        }
      }
  }

  /** Counting an op list without executing any of it. */
  function SkipOps(ops: seq<Op>, st: State): Result<State, Error>
    decreases |ops|
  {
    if ops == [] then Ok(st)
    else match SkipOne(ops[0], st)
      case Err(e) => Err(e)
      case Ok(skipped) => SkipOps(ops[1..], skipped)
  }

  function SkipOne(op: Op, st: State): Result<State, Error> {
    match Count(op, st)
    case Err(e) => Err(e)
    case Ok(counted) => Limit(counted)
  }

  function ThenSkip(r: Result<State, Error>, rest: seq<Op>): Result<State, Error> {
    match r
    case Err(e) => Err(e)
    case Ok(s) => SkipOps(rest, s)
  }

  lemma {:induction false} SkipAppend(a: seq<Op>, b: seq<Op>, st: State)
    ensures SkipOps(a + b, st) == ThenSkip(SkipOps(a, st), b)
    decreases |a|
  {
    hide Count;
    if a == [] {
      assert a + b == b;
    } else {
      assert (a + b)[1..] == a[1..] + b;
      if Count(a[0], st).Ok? && Limit(Count(a[0], st).value).Ok? {
        SkipAppend(a[1..], b, Limit(Count(a[0], st).value).value);
      }
    }
  }

  lemma {:induction false} SkipCons(op: Op, rest: seq<Op>, st: State)
    ensures SkipOps([op] + rest, st) == ThenSkip(SkipOne(op, st), rest)
  {
    hide Count;
    assert ([op] + rest)[1..] == rest;
  }

  /** In a segment that is not selected every op is counted and can fail as disabled, oversized or one too many, and nothing else happens. */
  lemma {:induction false} UnselectedIsSkipped(c: Ctx, script: Bytes, t: Tree, st: State)
    ensures RunTree(c, script, t, st, false) == SkipOps(Flat(t), st)
    decreases t
  {
    hide Count, SkipOps;
    match t
    case Done =>
      assert SkipOps([], st) == Ok(st) by { SkipNothing(st); }
    case Plain(op, next) =>
      SkipCons(op, Flat(next), st);
      if Count(op, st).Ok? && Limit(Count(op, st).value).Ok? {
        UnselectedIsSkipped(c, script, next, Limit(Count(op, st).value).value);
      }
    case Cond(i, body, elses, e, next) =>
      var rest := FlatElses(elses) + ([e] + Flat(next));
      SkipCons(i, Flat(body) + rest, st);
      if Count(i, st).Ok? && Limit(Count(i, st).value).Ok? {
        var s := Limit(Count(i, st).value).value;
        SkipAppend(Flat(body), rest, s);
        UnselectedIsSkipped(c, script, body, s);
        var r := SkipOps(Flat(body), s);
        if r.Ok? {
          SkipAppend(FlatElses(elses), [e] + Flat(next), r.value);
          UnselectedElsesAreSkipped(c, script, elses, r.value, false);
          UnselectedElsesAreSkipped(c, script, elses, r.value, true);
          var q := SkipOps(FlatElses(elses), r.value);
          if q.Ok? {
            SkipCons(e, Flat(next), q.value);
            if Count(e, q.value).Ok? && Limit(Count(e, q.value).value).Ok? {
              UnselectedIsSkipped(c, script, next, Limit(Count(e, q.value).value).value);
            }
          }
        }
      }
  }

  lemma SkipNothing(st: State)
    ensures SkipOps([], st) == Ok(st)
  {
  }

  lemma {:induction false} UnselectedElsesAreSkipped(c: Ctx, script: Bytes, es: Elses, st: State, selected: bool)
    ensures RunElses(c, script, es, st, false, selected) == SkipOps(FlatElses(es), st)
    decreases es
  {
    hide Count, SkipOps;
    match es
    case NoElse =>
      SkipNothing(st);
    case Else(op, body, more) =>
      SkipCons(op, Flat(body) + FlatElses(more), st);
      if Count(op, st).Ok? && Limit(Count(op, st).value).Ok? {
        var s := Limit(Count(op, st).value).value;
        SkipAppend(Flat(body), FlatElses(more), s);
        UnselectedIsSkipped(c, script, body, s);
        if SkipOps(Flat(body), s).Ok? {
          UnselectedElsesAreSkipped(c, script, more, SkipOps(Flat(body), s).value, !selected);
        }
      }
  }

  lemma {:induction false} SkippedTouchesNothing(ops: seq<Op>, st: State, after: State)
    requires SkipOps(ops, st) == Ok(after)
    ensures after.stack == st.stack && after.alt == st.alt && after.exec == st.exec && after.begin == st.begin
    decreases |ops|
  {
    if ops != [] {
      SkippedTouchesNothing(ops[1..], Limit(Count(ops[0], st).value).value, after);
    }
  }

  /** Every ELSE and ENDIF has an open conditional, and none stays open. */
  predicate Balanced(ops: seq<Op>, depth: nat)
    decreases |ops|
  {
    if ops == [] then depth == 0
    else if ops[0].code == OP_IF || ops[0].code == OP_NOTIF then Balanced(ops[1..], depth + 1)
    else if ops[0].code == OP_ELSE then depth > 0 && Balanced(ops[1..], depth)
    else if ops[0].code == OP_ENDIF then depth > 0 && Balanced(ops[1..], depth - 1)
    else Balanced(ops[1..], depth)
  }

  /** A balanced op list is the flat form of a tree. */
  lemma {:induction false} BuildSegment(ops: seq<Op>, depth: nat) returns (t: Tree, rest: seq<Op>)
    requires Balanced(ops, depth)
    ensures WellFormed(t) && ops == Flat(t) + rest
    ensures if depth == 0 then rest == []
            else rest != [] && (rest[0].code == OP_ELSE || rest[0].code == OP_ENDIF) && Balanced(rest, depth)
    decreases |ops|, 0
  {
    if ops == [] || ops[0].code == OP_ELSE || ops[0].code == OP_ENDIF {
      assert [] + ops == ops;
      return Done, ops;
    }
    var tail := ops[1..];
    if ops[0].code == OP_IF || ops[0].code == OP_NOTIF {
      var body, afterBody := BuildSegment(tail, depth + 1);
      var elses, afterElses := BuildElses(afterBody, depth + 1);
      var next, after := BuildSegment(afterElses[1..], depth);
      t, rest := Cond(ops[0], body, elses, afterElses[0], next), after;
      assert WellFormed(t) && Flat(t) == [ops[0]] + (Flat(body) + (FlatElses(elses) + ([afterElses[0]] + Flat(next))));
      hide *;
      assert afterElses == [afterElses[0]] + afterElses[1..];
      CondTail(ops[0], Flat(body), FlatElses(elses), afterElses[0], Flat(next), rest);
      assert ops == [ops[0]] + tail;
    } else {
      var next, after := BuildSegment(tail, depth);
      t, rest := Plain(ops[0], next), after;
      assert ops == [ops[0]] + (Flat(next) + rest);
    }
  }

  lemma CondTail(i: Op, body: seq<Op>, elses: seq<Op>, e: Op, next: seq<Op>, rest: seq<Op>)
    ensures [i] + (body + (elses + ([e] + (next + rest)))) == [i] + (body + (elses + ([e] + next))) + rest
  {
  }

  lemma {:induction false} BuildElses(ops: seq<Op>, depth: nat) returns (es: Elses, rest: seq<Op>)
    requires depth > 0 && Balanced(ops, depth) && ops != [] && (ops[0].code == OP_ELSE || ops[0].code == OP_ENDIF)
    ensures WellFormedElses(es) && ops == FlatElses(es) + rest
    ensures rest != [] && rest[0].code == OP_ENDIF && Balanced(rest, depth)
    decreases |ops|, 1
  {
    if ops[0].code == OP_ENDIF {
      return NoElse, ops;
    }
    var body, afterBody := BuildSegment(ops[1..], depth);
    var more, after := BuildElses(afterBody, depth);
    es, rest := Else(ops[0], body, more), after;
    assert ops == [ops[0]] + (Flat(body) + (FlatElses(more) + rest));
  }

  /** Only balanced scripts leave no condition open. */
  lemma {:induction false} OpenConditions(c: Ctx, script: Bytes, ops: seq<Op>, st: State)
    requires RunOps(c, script, ops, st).Ok?
    ensures Balanced(ops, |st.exec|) <==> RunOps(c, script, ops, st).value.exec == []
    decreases |ops|
  {
    hide Step;
    if ops != [] {
      StepDepth(c, script, ops[0], st);
      OpenConditions(c, script, ops[1..], Step(c, script, ops[0], st).value);
    }
  }

  lemma StepDepth(c: Ctx, script: Bytes, op: Op, st: State)
    ensures var r := Step(c, script, op, st);
            r.Ok? ==>
              if op.code == OP_IF || op.code == OP_NOTIF then |r.value.exec| == |st.exec| + 1
              else if op.code == OP_ELSE then |r.value.exec| == |st.exec| > 0
              else if op.code == OP_ENDIF then |r.value.exec| == |st.exec| - 1
              else |r.value.exec| == |st.exec|
  {
    hide CheckSigOp, CheckMultiSig, PlainOp, AllTrue, Condition;
  }

  /** Evaluation through a tree of the script. */
  function EvalTree(c: Ctx, stack: Stack, script: Bytes, t: Tree): Result<Stack, Error> {
    if |script| > MAX_SCRIPT_SIZE then Err(ScriptTooLarge)
    else match RunTree(c, script, t, Start(stack), true)
      case Err(e) => Err(e)
      case Ok(st) => Ok(st.stack)
  }

  lemma EvalRefines(c: Ctx, stack: Stack, script: Bytes, t: Tree)
    requires WellFormed(t) && ParseScript(script) == Parse(Flat(t), None)
    ensures EvalScript(c, stack, script) == EvalTree(c, stack, script, t)
  {
    FlatRefines(c, script, t, Start(stack), []);
  }

  /** Every script either has a tree that evaluation follows, or never succeeds. */
  lemma BalancedOrFails(c: Ctx, script: Bytes)
    ensures var p := ParseScript(script);
            if p.error.None? && Balanced(p.ops, 0)
            then exists t :: WellFormed(t) && Flat(t) == p.ops && forall stack :: EvalScript(c, stack, script) == EvalTree(c, stack, script, t)
            else forall stack :: EvalScript(c, stack, script).Err?
  {
    var p := ParseScript(script);
    if p.error.None? && Balanced(p.ops, 0) {
      var t, rest := BuildSegment(p.ops, 0);
      assert Flat(t) + [] == Flat(t);
      forall stack
        ensures EvalScript(c, stack, script) == EvalTree(c, stack, script, t)
      {
        EvalRefines(c, stack, script, t);
      }
    } else {
      forall stack
        ensures EvalScript(c, stack, script).Err?
      {
        if RunOps(c, script, p.ops, Start(stack)).Ok? {
          OpenConditions(c, script, p.ops, Start(stack));
        }
      }
    }
  }
}
