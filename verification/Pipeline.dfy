/**
 The lowering, compile and execute threads of the eager pipeline as a state machine: three
 single-worker queues, tasks that skip stages, and an inline mode chosen anew for every task.
 */
module Pipeline {
  /** Which threads a task has work for. */
  datatype Kind = AllThreads | OnLowering | OnCompile | OnExecute {
    predicate CompileNeeded() { this != OnLowering }
    predicate ExecuteNeeded() { this == AllThreads || this == OnExecute }
  }

  /** A submitted task: its number in submission order, and its kind. */
  datatype Task = Task(id: nat, kind: Kind)

  /** Where the lowering thread is inside LoweringStage. */
  datatype LoweringAt =
    | LIdle
    | Calling(t: Task)
    | Choosing(t: Task)
    | WaitCompile(t: Task)
    | WaitExecute(t: Task)
    | InlineCompile(t: Task)
    | InlineExecute(t: Task)

  datatype CompileAt = CIdle | CCalling(t: Task) | CPassing(t: Task)

  datatype ExecuteAt = EIdle | ECalling(t: Task)

  /** Queues, program counters, and the calls made so far by stage. A call that does nothing because the
      task does not pass through the stage (possible inline only) leaves no mark. */
  datatype State = State(
    submitted: seq<Task>,
    lowerQ: seq<Task>, lowering: LoweringAt,
    compileQ: seq<Task>, compiling: CompileAt,
    executeQ: seq<Task>, executing: ExecuteAt,
    lowered: seq<Task>, compiled: seq<Task>, executed: seq<Task>)

  const INITIAL: State := State([], [], LIdle, [], CIdle, [], EIdle, [], [], [])

  datatype Step =
    | Submit(kind: Kind)
    | TakeLowering | CallLowering | Choose(inlined: bool) | CompileDrained | ExecuteDrained | CallInlineCompile | CallInlineExecute
    | TakeCompile | CallCompile | PassOn
    | TakeExecute | CallExecute

  predicate CompileEmpty(s: State) { s.compileQ == [] && s.compiling == CIdle }

  predicate ExecuteEmpty(s: State) { s.executeQ == [] && s.executing == EIdle }

  predicate Enabled(s: State, step: Step) {
    match step
    case Submit(_) => true
    case TakeLowering => s.lowering.LIdle? && s.lowerQ != []
    case CallLowering => s.lowering.Calling?
    case Choose(_) => s.lowering.Choosing?
    case CompileDrained => s.lowering.WaitCompile? && CompileEmpty(s)
    case ExecuteDrained => s.lowering.WaitExecute? && ExecuteEmpty(s)
    case CallInlineCompile => s.lowering.InlineCompile?
    case CallInlineExecute => s.lowering.InlineExecute?
    case TakeCompile => s.compiling.CIdle? && s.compileQ != []
    case CallCompile => s.compiling.CCalling?
    case PassOn => s.compiling.CPassing?
    case TakeExecute => s.executing.EIdle? && s.executeQ != []
    case CallExecute => s.executing.ECalling?
  }

  function MarkIf(trace: seq<Task>, t: Task, needed: bool): seq<Task> { if needed then trace + [t] else trace }

  function Apply(s: State, step: Step): State
    requires Enabled(s, step)
  {
    match step
    case Submit(kind) =>
      var t := Task(|s.submitted|, kind);
      s.(submitted := s.submitted + [t], lowerQ := s.lowerQ + [t])
    case TakeLowering => s.(lowerQ := s.lowerQ[1..], lowering := Calling(s.lowerQ[0]))
    case CallLowering => s.(lowered := s.lowered + [s.lowering.t], lowering := Choosing(s.lowering.t))
    case Choose(inlined) =>
      if inlined then s.(lowering := WaitCompile(s.lowering.t))
      else s.(compileQ := MarkIf(s.compileQ, s.lowering.t, s.lowering.t.kind.CompileNeeded()), lowering := LIdle)
    case CompileDrained => s.(lowering := WaitExecute(s.lowering.t))
    case ExecuteDrained => s.(lowering := InlineCompile(s.lowering.t))
    case CallInlineCompile =>
      s.(compiled := MarkIf(s.compiled, s.lowering.t, s.lowering.t.kind.CompileNeeded()), lowering := InlineExecute(s.lowering.t))
    case CallInlineExecute =>
      s.(executed := MarkIf(s.executed, s.lowering.t, s.lowering.t.kind.ExecuteNeeded()), lowering := LIdle)
    case TakeCompile => s.(compileQ := s.compileQ[1..], compiling := CCalling(s.compileQ[0]))
    case CallCompile => s.(compiled := s.compiled + [s.compiling.t], compiling := CPassing(s.compiling.t))
    case PassOn =>
      s.(executeQ := MarkIf(s.executeQ, s.compiling.t, s.compiling.t.kind.ExecuteNeeded()), compiling := CIdle)
    case TakeExecute => s.(executeQ := s.executeQ[1..], executing := ECalling(s.executeQ[0]))
    case CallExecute => s.(executed := s.executed + [s.executing.t], executing := EIdle)
  }

  /** A run from the start, any steps in any enabled order. */
  ghost predicate IsRun(run: seq<State>) {
    && |run| > 0 && run[0] == INITIAL
    && forall i :: 0 <= i < |run| - 1 ==> Steps(run[i], run[i + 1])
  }

  ghost predicate Steps(s: State, t: State) { exists step :: Enabled(s, step) && t == Apply(s, step) }

  // --- conservation ---

  function CompileOnly(ts: seq<Task>): seq<Task> {
    if ts == [] then []
    else (if ts[0].kind.CompileNeeded() then [ts[0]] else []) + CompileOnly(ts[1..])
  }

  function ExecuteOnly(ts: seq<Task>): seq<Task> {
    if ts == [] then []
    else (if ts[0].kind.ExecuteNeeded() then [ts[0]] else []) + ExecuteOnly(ts[1..])
  }

  /** The task the lowering thread holds that has not had its lowering call, its compile call (or been
      handed on), its execute call. */
  function ToLower(l: LoweringAt): seq<Task> { if l.Calling? then [l.t] else [] }

  function ToCompile(l: LoweringAt): seq<Task> { if l.LIdle? || l.InlineExecute? then [] else [l.t] }

  function ToExecute(l: LoweringAt): seq<Task> { if l.LIdle? then [] else [l.t] }

  function CompilePending(c: CompileAt): seq<Task> { if c.CCalling? then [c.t] else [] }

  function PassPending(c: CompileAt): seq<Task> { if c.CIdle? then [] else [c.t] }

  function ExecutePending(e: ExecuteAt): seq<Task> { if e.ECalling? then [e.t] else [] }

  /** What has reached or will reach each stage, in order. */
  function LowerStream(s: State): seq<Task> { s.lowered + ToLower(s.lowering) + s.lowerQ }

  function CompileStream(s: State): seq<Task> {
    s.compiled + CompilePending(s.compiling) + s.compileQ + CompileOnly(ToCompile(s.lowering) + s.lowerQ)
  }

  function ExecuteStream(s: State): seq<Task> {
    s.executed + ExecutePending(s.executing) + s.executeQ + ExecuteOnly(PassPending(s.compiling) + s.compileQ)
    + ExecuteOnly(ToExecute(s.lowering) + s.lowerQ)
  }

  ghost predicate Numbered(ts: seq<Task>) { forall i :: 0 <= i < |ts| ==> ts[i].id == i }

  ghost predicate AllNeedCompile(ts: seq<Task>) { forall i :: 0 <= i < |ts| ==> ts[i].kind.CompileNeeded() }

  /** What every reachable state satisfies: nothing is lost, repeated or reordered on the way through
      any stage, and the inline mode runs only with both later stages empty. */
  ghost predicate Inv(s: State) {
    && Numbered(s.submitted)
    && LowerStream(s) == s.submitted
    && CompileStream(s) == CompileOnly(s.submitted)
    && ExecuteStream(s) == ExecuteOnly(s.submitted)
    && AllNeedCompile(PassPending(s.compiling) + s.compileQ)
    && (s.lowering.WaitExecute? || s.lowering.InlineCompile? || s.lowering.InlineExecute? ==> CompileEmpty(s))
    && (s.lowering.InlineCompile? || s.lowering.InlineExecute? ==> ExecuteEmpty(s))
  }

  lemma {:induction false} CompileOnlyConcat(a: seq<Task>, b: seq<Task>)
    ensures CompileOnly(a + b) == CompileOnly(a) + CompileOnly(b)
    decreases |a|
  {
    if a == [] {
      assert a + b == b;
    } else {
      var rest := a[1..];
      CompileOnlyConcat(rest, b);
      FirstTask(a, rest);
      FirstTask(a + b, rest + b);
    }
  }

  lemma {:induction false} ExecuteOnlyConcat(a: seq<Task>, b: seq<Task>)
    ensures ExecuteOnly(a + b) == ExecuteOnly(a) + ExecuteOnly(b)
    decreases |a|
  {
    if a == [] {
      assert a + b == b;
    } else {
      var rest := a[1..];
      ExecuteOnlyConcat(rest, b);
      FirstTask(a, rest);
      FirstTask(a + b, rest + b);
    }
  }

  lemma FirstTask(ts: seq<Task>, rest: seq<Task>)
    requires ts != [] && rest == ts[1..]
    ensures CompileOnly(ts) == OneIf(ts[0], ts[0].kind.CompileNeeded()) + CompileOnly(rest)
    ensures ExecuteOnly(ts) == OneIf(ts[0], ts[0].kind.ExecuteNeeded()) + ExecuteOnly(rest)
  {
  }

  lemma Singles(t: Task)
    ensures CompileOnly([t]) == if t.kind.CompileNeeded() then [t] else []
    ensures ExecuteOnly([t]) == if t.kind.ExecuteNeeded() then [t] else []
  {
    assert [t][1..] == [];
  }

  lemma FrontBack(q: seq<Task>)
    requires q != []
    ensures [q[0]] + q[1..] == q
  {
  }

  function Added(s: State, step: Step): seq<Task> {
    if step.Submit? then [Task(|s.submitted|, step.kind)] else []
  }

  lemma LowerKept(s: State, step: Step)
    requires Enabled(s, step)
    ensures LowerStream(Apply(s, step)) == LowerStream(s) + Added(s, step)
  {
    if step.TakeLowering? { FrontBack(s.lowerQ); }
  }

  /** The suffix of the compile stream that is still before the compile queue. */
  function CompileTail(s: State): seq<Task> { CompileOnly(ToCompile(s.lowering) + s.lowerQ) }

  function OneIf(t: Task, needed: bool): seq<Task> { if needed then [t] else [] }

  lemma CompileFront(t: Task, q: seq<Task>)
    ensures CompileOnly([t] + q) == OneIf(t, t.kind.CompileNeeded()) + CompileOnly([] + q)
    ensures ExecuteOnly([t] + q) == OneIf(t, t.kind.ExecuteNeeded()) + ExecuteOnly([] + q)
  {
    Singles(t);
    CompileOnlyConcat([t], q);
    ExecuteOnlyConcat([t], q);
    assert [] + q == q;
  }

  lemma TailBack(front: seq<Task>, q: seq<Task>, more: seq<Task>)
    ensures CompileOnly(front + (q + more)) == CompileOnly(front + q) + CompileOnly(more)
    ensures ExecuteOnly(front + (q + more)) == ExecuteOnly(front + q) + ExecuteOnly(more)
  {
    assert front + (q + more) == (front + q) + more;
    CompileOnlyConcat(front + q, more);
    ExecuteOnlyConcat(front + q, more);
  }

  /** The tasks a step hands over from the lowering thread to the compile stage. */
  function HandedToCompile(s: State, step: Step): seq<Task>
    requires Enabled(s, step)
  {
    if (step.Choose? && !step.inlined) || step.CallInlineCompile?
    then OneIf(s.lowering.t, s.lowering.t.kind.CompileNeeded()) else []
  }

  lemma CompileTailStep(s: State, step: Step)
    requires Enabled(s, step)
    ensures HandedToCompile(s, step) + CompileTail(Apply(s, step)) == CompileTail(s) + CompileOnly(Added(s, step))
  {
    var tail := CompileTail(s);
    match step {
      case Submit(kind) =>
        TailBack(ToCompile(s.lowering), s.lowerQ, Added(s, step));
        NothingHanded(CompileTail(Apply(s, step)));
      case TakeLowering =>
        FrontBack(s.lowerQ);
        NothingHanded(s.lowerQ);
        NothingHanded(tail);
      case Choose(inlined) =>
        CompileFront(s.lowering.t, s.lowerQ);
        NothingHanded(tail);
      case CallInlineCompile =>
        CompileFront(s.lowering.t, s.lowerQ);
        NothingHanded(tail);
      case _ => NothingHanded(tail);
    }
  }

  lemma NothingHanded(tail: seq<Task>)
    ensures [] + tail == tail == tail + []
  {
  }

  function CompileHead(s: State): seq<Task> { s.compiled + CompilePending(s.compiling) + s.compileQ }

  lemma CompileHeadStep(s: State, step: Step)
    requires Enabled(s, step) && (step.CallInlineCompile? ==> CompileEmpty(s))
    ensures CompileHead(Apply(s, step)) == CompileHead(s) + HandedToCompile(s, step)
  {
    if step.TakeCompile? { FrontBack(s.compileQ); }
  }

  lemma Regroup(head: seq<Task>, handed: seq<Task>, tail: seq<Task>, before: seq<Task>, added: seq<Task>)
    requires handed + tail == before + added
    ensures (head + handed) + tail == (head + before) + added
  {
    assert (head + handed) + tail == head + (handed + tail);
  }

  lemma CompileKept(s: State, step: Step)
    requires Enabled(s, step) && (step.CallInlineCompile? ==> CompileEmpty(s))
    ensures CompileStream(Apply(s, step)) == CompileStream(s) + CompileOnly(Added(s, step))
  {
    CompileTailStep(s, step);
    CompileHeadStep(s, step);
    Regroup(CompileHead(s), HandedToCompile(s, step), CompileTail(Apply(s, step)), CompileTail(s), CompileOnly(Added(s, step)));
  }

  function ExecuteHead(s: State): seq<Task> { s.executed + ExecutePending(s.executing) + s.executeQ }

  function ExecuteMiddle(s: State): seq<Task> { ExecuteOnly(PassPending(s.compiling) + s.compileQ) }

  function ExecuteTail(s: State): seq<Task> { ExecuteOnly(ToExecute(s.lowering) + s.lowerQ) }

  /** What a step hands to the compile queue on its way to execution, and what it hands to the execute stage. */
  function HandedToMiddle(s: State, step: Step): seq<Task>
    requires Enabled(s, step)
  {
    if step.Choose? && !step.inlined then OneIf(s.lowering.t, s.lowering.t.kind.ExecuteNeeded()) else []
  }

  function HandedInline(s: State, step: Step): seq<Task>
    requires Enabled(s, step)
  {
    if step.CallInlineExecute? then OneIf(s.lowering.t, s.lowering.t.kind.ExecuteNeeded()) else []
  }

  function Passed(s: State, step: Step): seq<Task>
    requires Enabled(s, step)
  {
    if step.PassOn? then OneIf(s.compiling.t, s.compiling.t.kind.ExecuteNeeded()) else []
  }

  lemma ExecuteTailStep(s: State, step: Step)
    requires Enabled(s, step)
    ensures HandedToMiddle(s, step) + HandedInline(s, step) + ExecuteTail(Apply(s, step)) == ExecuteTail(s) + ExecuteOnly(Added(s, step))
  {
    var tail := ExecuteTail(s);
    match step {
      case Submit(kind) =>
        TailBack(ToExecute(s.lowering), s.lowerQ, Added(s, step));
        NothingHanded(ExecuteTail(Apply(s, step)));
      case TakeLowering =>
        FrontBack(s.lowerQ);
        NothingHanded(s.lowerQ);
        NothingHanded(tail);
      case Choose(inlined) =>
        CompileFront(s.lowering.t, s.lowerQ);
        NothingHanded(tail);
      case CallInlineExecute =>
        CompileFront(s.lowering.t, s.lowerQ);
        NothingHanded(tail);
      case _ => NothingHanded(tail);
    }
  }

  lemma ExecuteMiddleStep(s: State, step: Step)
    requires Enabled(s, step)
    ensures Passed(s, step) + ExecuteMiddle(Apply(s, step)) == ExecuteMiddle(s) + HandedToMiddle(s, step)
  {
    match step {
      case Choose(inlined) =>
        TailBack(PassPending(s.compiling), s.compileQ, [s.lowering.t]);
        Singles(s.lowering.t);
      case TakeCompile =>
        FrontBack(s.compileQ);
        assert [] + s.compileQ == s.compileQ;
      case PassOn => CompileFront(s.compiling.t, s.compileQ);
      case _ =>
    }
  }

  lemma ExecuteHeadStep(s: State, step: Step)
    requires Enabled(s, step) && (step.CallInlineExecute? ==> ExecuteEmpty(s))
    ensures ExecuteHead(Apply(s, step)) == ExecuteHead(s) + Passed(s, step) + HandedInline(s, step)
  {
    if step.TakeExecute? { FrontBack(s.executeQ); }
  }

  lemma RegroupThree(head: seq<Task>, passed: seq<Task>, inl: seq<Task>, mid: seq<Task>, was: seq<Task>, handed: seq<Task>,
                     tail: seq<Task>, before: seq<Task>, added: seq<Task>)
    requires passed + mid == was + handed && handed + inl + tail == before + added
    requires inl == [] || (passed == [] && mid == [] && was == [] && handed == [])
    ensures (head + passed + inl) + mid + tail == (head + was + before) + added
  {
    if inl == [] {
      assert (head + passed + inl) + mid + tail == head + (passed + mid) + tail;
      assert head + (was + handed) + tail == (head + was) + (handed + inl + tail);
      assert (head + was) + (before + added) == (head + was + before) + added;
    } else {
      assert (head + passed + inl) + mid + tail == head + (handed + inl + tail);
      assert head + (before + added) == (head + was + before) + added;
    }
  }

  lemma ExecuteKept(s: State, step: Step)
    requires Enabled(s, step) && (step.CallInlineExecute? ==> CompileEmpty(s) && ExecuteEmpty(s))
    ensures ExecuteStream(Apply(s, step)) == ExecuteStream(s) + ExecuteOnly(Added(s, step))
  {
    var t := Apply(s, step);
    ExecuteTailStep(s, step);
    ExecuteMiddleStep(s, step);
    ExecuteHeadStep(s, step);
    InlineAlone(s, step);
    RegroupThree(ExecuteHead(s), Passed(s, step), HandedInline(s, step), ExecuteMiddle(t), ExecuteMiddle(s),
                 HandedToMiddle(s, step), ExecuteTail(t), ExecuteTail(s), ExecuteOnly(Added(s, step)));
  }

  lemma InlineAlone(s: State, step: Step)
    requires Enabled(s, step) && (step.CallInlineExecute? ==> CompileEmpty(s))
    ensures HandedInline(s, step) == []
            || (Passed(s, step) == [] && ExecuteMiddle(Apply(s, step)) == [] && ExecuteMiddle(s) == [] && HandedToMiddle(s, step) == [])
  {
  }

  lemma StepKeepsInv(s: State, step: Step)
    requires Inv(s) && Enabled(s, step)
    ensures Inv(Apply(s, step))
  {
    StreamsKept(s, step);
    QueueNeedsCompile(s, step);
    InlineKept(s, step);
  }

  /** Each stage's stream stays the submitted tasks that need it. */
  lemma StreamsKept(s: State, step: Step)
    requires Inv(s) && Enabled(s, step)
    ensures var t := Apply(s, step);
            && Numbered(t.submitted) && LowerStream(t) == t.submitted
            && CompileStream(t) == CompileOnly(t.submitted) && ExecuteStream(t) == ExecuteOnly(t.submitted)
  {
    SubmittedStep(s, step);
    LowerKept(s, step);
    CompileKept(s, step);
    ExecuteKept(s, step);
    CompileOnlyConcat(s.submitted, Added(s, step));
    ExecuteOnlyConcat(s.submitted, Added(s, step));
  }

  lemma SubmittedStep(s: State, step: Step)
    requires Numbered(s.submitted) && Enabled(s, step)
    ensures Apply(s, step).submitted == s.submitted + Added(s, step) && Numbered(Apply(s, step).submitted)
  {
  }

  lemma InlineKept(s: State, step: Step)
    requires Inv(s) && Enabled(s, step)
    ensures var t := Apply(s, step);
            && (t.lowering.WaitExecute? || t.lowering.InlineCompile? || t.lowering.InlineExecute? ==> CompileEmpty(t))
            && (t.lowering.InlineCompile? || t.lowering.InlineExecute? ==> ExecuteEmpty(t))
  {
  }

  lemma QueueNeedsCompile(s: State, step: Step)
    requires Inv(s) && Enabled(s, step)
    ensures var t := Apply(s, step); AllNeedCompile(PassPending(t.compiling) + t.compileQ)
  {
    var q := PassPending(s.compiling) + s.compileQ;
    match step {
      case TakeCompile => assert q == s.compileQ; FrontBack(s.compileQ);
      case PassOn => forall i | 0 <= i < |s.compileQ| ensures s.compileQ[i].kind.CompileNeeded() { assert q[i + 1] == s.compileQ[i]; }
      case Choose(inlined) =>
        if !inlined && s.lowering.t.kind.CompileNeeded() {
          assert PassPending(s.compiling) + (s.compileQ + [s.lowering.t]) == q + [s.lowering.t];
        }
      case _ =>
    }
  }

  /** The invariant holds in every state of every run. */
  lemma {:induction false} RunKeepsInv(run: seq<State>, i: nat)
    requires IsRun(run) && i < |run|
    ensures Inv(run[i])
  {
    if i == 0 {
      assert INITIAL.submitted == [];
    } else {
      RunKeepsInv(run, i - 1);
      assert Steps(run[i - 1], run[i]);
      var step :| Enabled(run[i - 1], step) && run[i] == Apply(run[i - 1], step);
      StepKeepsInv(run[i - 1], step);
    }
  }

  // --- what it means for the tasks ---

  /** In every reachable state each stage has seen a prefix of the submitted tasks that need it, in
      submission order: none lost, none repeated, none overtaken. */
  lemma TracesArePrefixes(run: seq<State>, i: nat)
    requires IsRun(run) && i < |run|
    ensures run[i].lowered <= run[i].submitted
    ensures run[i].compiled <= CompileOnly(run[i].submitted)
    ensures run[i].executed <= ExecuteOnly(run[i].submitted)
  {
    RunKeepsInv(run, i);
    var s := run[i];
    Prefix(s.lowered, ToLower(s.lowering), s.lowerQ, [], []);
    Prefix(s.compiled, CompilePending(s.compiling), s.compileQ, CompileTail(s), []);
    Prefix(s.executed, ExecutePending(s.executing), s.executeQ, ExecuteMiddle(s), ExecuteTail(s));
  }

  lemma Prefix(a: seq<Task>, b: seq<Task>, c: seq<Task>, d: seq<Task>, e: seq<Task>)
    ensures a <= a + b + c + d + e && a <= a + b + c + d && a <= a + b + c
  {
  }

  lemma {:induction false} OnlyFrom(ts: seq<Task>, t: Task)
    ensures t in CompileOnly(ts) <==> t in ts && t.kind.CompileNeeded()
    ensures t in ExecuteOnly(ts) <==> t in ts && t.kind.ExecuteNeeded()
    decreases |ts|
  {
    if ts != [] {
      assert ts == [ts[0]] + ts[1..];
      OnlyFrom(ts[1..], t);
    }
  }

  lemma {:induction false} FilteredDistinct(ts: seq<Task>, from: nat)
    requires forall i :: 0 <= i < |ts| ==> ts[i].id == from + i
    ensures forall i, j :: 0 <= i < j < |CompileOnly(ts)| ==> CompileOnly(ts)[i].id < CompileOnly(ts)[j].id
    ensures forall i, j :: 0 <= i < j < |ExecuteOnly(ts)| ==> ExecuteOnly(ts)[i].id < ExecuteOnly(ts)[j].id
    ensures forall i :: 0 <= i < |CompileOnly(ts)| ==> CompileOnly(ts)[i].id >= from
    ensures forall i :: 0 <= i < |ExecuteOnly(ts)| ==> ExecuteOnly(ts)[i].id >= from
    decreases |ts|
  {
    if ts != [] { FilteredDistinct(ts[1..], from + 1); }
  }

  /** Every task runs lowering before compile before execute: in no reachable state has a later stage
      seen a task that an earlier one has not. */
  lemma StagesInOrder(run: seq<State>, i: nat, t: Task)
    requires IsRun(run) && i < |run|
    ensures t in run[i].compiled ==> t in run[i].lowered
    ensures t in run[i].executed ==> t in run[i].compiled
  {
    RunKeepsInv(run, i);
    var s := run[i];
    if t in s.compiled { CompiledIsLowered(s, t); }
    if t in s.executed { ExecutedIsCompiled(s, t); }
  }

  /** A task in the front part of a strictly increasing stream is not in the rest. */
  lemma NotInRest(stream: seq<Task>, front: seq<Task>, rest: seq<Task>, t: Task)
    requires stream == front + rest && t in front
    requires forall i, j :: 0 <= i < j < |stream| ==> stream[i].id < stream[j].id
    ensures t !in rest
  {
    if t in rest {
      var i :| 0 <= i < |front| && front[i] == t;
      var j :| 0 <= j < |rest| && rest[j] == t;
      FrontDiffers(stream, front, rest, i, j);
      assert false;
    }
  }

  lemma FrontDiffers(stream: seq<Task>, front: seq<Task>, rest: seq<Task>, i: nat, j: nat)
    requires stream == front + rest && i < |front| && j < |rest|
    requires forall i, j :: 0 <= i < j < |stream| ==> stream[i].id < stream[j].id
    ensures front[i] != rest[j]
  {
    assert stream[i] == front[i] && stream[|front| + j] == rest[j];
  }

  /** A task that a stage has seen was submitted, and is not on its way to that stage again. */
  lemma SeenOnce(ts: seq<Task>, stream: seq<Task>, front: seq<Task>, pending: seq<Task>, queue: seq<Task>, later: seq<Task>, t: Task)
    requires Numbered(ts) && t in front
    requires stream == CompileOnly(ts) || stream == ExecuteOnly(ts)
    requires stream == front + pending + queue + later
    ensures t in stream && t !in later
  {
    FilteredDistinct(ts, 0);
    Regrouped(front, pending, queue, later);
    NotInRest(stream, front, pending + queue + later, t);
  }

  lemma Regrouped<T>(a: seq<T>, b: seq<T>, c: seq<T>, d: seq<T>)
    ensures a + b + c + d == a + (b + c + d) == a + b + (c + d)
  {
  }

  lemma CompiledIsLowered(s: State, t: Task)
    requires Inv(s) && t in s.compiled
    ensures t in s.lowered
  {
    SeenOnce(s.submitted, CompileStream(s), s.compiled, CompilePending(s.compiling), s.compileQ, CompileTail(s), t);
    OnlyFrom(s.submitted, t);
    InLowerStream(s, t);
    if t !in s.lowered { StillToCompile(s, t); }
  }

  lemma InLowerStream(s: State, t: Task)
    requires LowerStream(s) == s.submitted && t in s.submitted
    ensures t in s.lowered || t in ToLower(s.lowering) + s.lowerQ
  {
    assert s.lowered + ToLower(s.lowering) + s.lowerQ == s.lowered + (ToLower(s.lowering) + s.lowerQ);
  }

  lemma StillToCompile(s: State, t: Task)
    requires t in ToLower(s.lowering) + s.lowerQ && t.kind.CompileNeeded()
    ensures t in CompileTail(s)
  {
    OnlyFrom(ToCompile(s.lowering) + s.lowerQ, t);
  }

  lemma ExecutedIsCompiled(s: State, t: Task)
    requires Inv(s) && t in s.executed
    ensures t in s.compiled
  {
    ExecutedOnce(s, t);
    OnlyFrom(s.submitted, t);
    InCompileStream(s.compiled, CompilePending(s.compiling), s.compileQ, CompileTail(s), t);
    if t !in s.compiled { StillToExecute(s, t); }
  }

  lemma ExecutedOnce(s: State, t: Task)
    requires Numbered(s.submitted) && ExecuteStream(s) == ExecuteOnly(s.submitted) && t in s.executed
    ensures t in ExecuteOnly(s.submitted) && t !in ExecuteMiddle(s) + ExecuteTail(s)
  {
    var pending := ExecutePending(s.executing);
    Regrouped(s.executed + pending, s.executeQ, ExecuteMiddle(s), ExecuteTail(s));
    SeenOnce(s.submitted, ExecuteStream(s), s.executed, pending, s.executeQ, ExecuteMiddle(s) + ExecuteTail(s), t);
  }

  lemma InCompileStream(front: seq<Task>, pending: seq<Task>, queue: seq<Task>, later: seq<Task>, t: Task)
    requires t in front + pending + queue + later
    ensures t in front || t in pending + queue || t in later
  {
  }

  lemma StillToExecute(s: State, t: Task)
    requires t in CompilePending(s.compiling) + s.compileQ || t in CompileTail(s)
    requires t.kind.ExecuteNeeded()
    ensures t in ExecuteMiddle(s) + ExecuteTail(s)
  {
    OnlyFrom(PassPending(s.compiling) + s.compileQ, t);
    OnlyFrom(ToCompile(s.lowering) + s.lowerQ, t);
    OnlyFrom(ToExecute(s.lowering) + s.lowerQ, t);
  }

  /** In inline mode, when the calls are made both later stages are empty, though they were waited for one
      after the other: while the lowering thread holds the task nothing can feed the compile stage, and
      nothing but the compile stage feeds the execute stage. */
  lemma InlineRunsAlone(run: seq<State>, i: nat)
    requires IsRun(run) && i < |run| && (run[i].lowering.InlineCompile? || run[i].lowering.InlineExecute?)
    ensures CompileEmpty(run[i]) && ExecuteEmpty(run[i])
  {
    RunKeepsInv(run, i);
  }

  // --- progress ---

  predicate Quiescent(s: State) { s.lowerQ == [] && s.lowering.LIdle? && CompileEmpty(s) && ExecuteEmpty(s) }

  /** Once every queue and thread is idle, every stage has seen all the tasks that need it. */
  lemma QuiescentIsComplete(run: seq<State>, i: nat)
    requires IsRun(run) && i < |run| && Quiescent(run[i])
    ensures run[i].lowered == run[i].submitted
    ensures run[i].compiled == CompileOnly(run[i].submitted)
    ensures run[i].executed == ExecuteOnly(run[i].submitted)
  {
    RunKeepsInv(run, i);
  }

  /** Whose own function runs at the stage; the other tasks only pass through it. */
  predicate CompileWork(kind: Kind) { kind == AllThreads || kind == OnCompile }

  predicate ExecuteWork(kind: Kind) { kind == AllThreads || kind == OnExecute }

  /** Once idle no task's work has been skipped at any stage. */
  lemma WorkIsDone(run: seq<State>, i: nat, t: Task)
    requires IsRun(run) && i < |run| && Quiescent(run[i]) && t in run[i].submitted
    ensures t in run[i].lowered
    ensures CompileWork(t.kind) ==> t in run[i].compiled
    ensures ExecuteWork(t.kind) ==> t in run[i].executed
  {
    QuiescentIsComplete(run, i);
    OnlyFrom(run[i].submitted, t);
  }

  /** A step of one of the three threads. */
  predicate ByThread(step: Step) { !step.Submit? }

  /** No deadlock: a state that is not quiescent has a thread that can move, even while the inline mode waits. */
  lemma Progress(s: State) returns (step: Step)
    requires !Quiescent(s)
    ensures ByThread(step) && Enabled(s, step)
  {
    if !ExecuteEmpty(s) {
      step := if s.executing.EIdle? then TakeExecute else CallExecute;
    } else if !CompileEmpty(s) {
      step := match s.compiling case CIdle => TakeCompile case CCalling(_) => CallCompile case CPassing(_) => PassOn;
    } else {
      step := match s.lowering
        case LIdle => TakeLowering
        case Calling(_) => CallLowering
        case Choosing(_) => Choose(false)
        case WaitCompile(_) => CompileDrained
        case WaitExecute(_) => ExecuteDrained
        case InlineCompile(_) => CallInlineCompile
        case InlineExecute(_) => CallInlineExecute;
    }
  }

  /** Steps left for the threads if nothing more is submitted. */
  function Work(s: State): nat {
    12 * |s.lowerQ|
    + (match s.lowering case LIdle => 0 case Calling(_) => 11 case Choosing(_) => 10 case WaitCompile(_) => 4
                        case WaitExecute(_) => 3 case InlineCompile(_) => 2 case InlineExecute(_) => 1)
    + 6 * |s.compileQ| + (match s.compiling case CIdle => 0 case CCalling(_) => 5 case CPassing(_) => 4)
    + 2 * |s.executeQ| + (match s.executing case EIdle => 0 case ECalling(_) => 1)
  }

  /** Every thread step is work done: the pipeline drains under any scheduling. */
  lemma StepsDoWork(s: State, step: Step)
    requires Enabled(s, step) && ByThread(step)
    ensures Work(Apply(s, step)) < Work(s)
  {
  }

  // --- why the order of the two waits matters ---

  lemma Extend(run: seq<State>, step: Step) returns (more: seq<State>)
    requires IsRun(run) && Enabled(run[|run| - 1], step)
    ensures IsRun(more) && more[|more| - 1] == Apply(run[|run| - 1], step)
  {
    more := run + [Apply(run[|run| - 1], step)];
    forall i | 0 <= i < |more| - 1 ensures Steps(more[i], more[i + 1]) {
      if i < |run| - 1 { assert Steps(run[i], run[i + 1]); }
    }
  }

  /** One task in the compile thread, about to be called there. */
  lemma BusyCompile() returns (run: seq<State>)
    ensures IsRun(run)
    ensures var t := Task(0, AllThreads);
            run[|run| - 1] == State([t], [], LIdle, [], CCalling(t), [], EIdle, [t], [], [])
  {
    run := [INITIAL];
    run := Extend(run, Submit(AllThreads));
    run := Extend(run, TakeLowering);
    run := Extend(run, CallLowering);
    run := Extend(run, Choose(false));
    run := Extend(run, TakeCompile);
  }

  /** A state in which the execute stage is empty, from which the compile thread alone empties its own
      stage and leaves the execute stage busy: had the inline mode waited for execute first, it would go on
      with a task still to be executed before its own. */
  lemma ExecuteFirstIsNotEnough() returns (run: seq<State>, later: State)
    ensures IsRun(run)
    ensures var s := run[|run| - 1];
            && s.lowering.WaitCompile? && ExecuteEmpty(s)
            && Enabled(s, CallCompile) && Enabled(Apply(s, CallCompile), PassOn)
            && later == Apply(Apply(s, CallCompile), PassOn)
            && CompileEmpty(later) && !ExecuteEmpty(later) && later.lowering == s.lowering
  {
    run := BusyCompile();
    run := Extend(run, Submit(AllThreads));
    run := Extend(run, TakeLowering);
    run := Extend(run, CallLowering);
    run := Extend(run, Choose(true));
    later := Apply(Apply(run[|run| - 1], CallCompile), PassOn);
  }
}
