/**
 The three pipeline threads as objects run them: queues and program counters updated in place,
 one atomic step at a time, and drained to quiescence under any scheduling.
 */
module PipelineThreads {
  import opened Pipeline

  /** The step the lowering thread is at. */
  function LoweringStep(s: State, inlined: bool): Step {
    match s.lowering
    case LIdle => TakeLowering
    case Calling(_) => CallLowering
    case Choosing(_) => Choose(inlined)
    case WaitCompile(_) => CompileDrained
    case WaitExecute(_) => ExecuteDrained
    case InlineCompile(_) => CallInlineCompile
    case InlineExecute(_) => CallInlineExecute
  }

  function CompileStep(s: State): Step {
    match s.compiling case CIdle => TakeCompile case CCalling(_) => CallCompile case CPassing(_) => PassOn
  }

  function ExecuteStep(s: State): Step {
    if s.executing.EIdle? then TakeExecute else CallExecute
  }

  /** The state after a step, or the same state if the thread has to wait. */
  function After(s: State, step: Step): State { if Enabled(s, step) then Apply(s, step) else s }

  class Threads {
    var submitted: seq<Task>
    var lowerQ: seq<Task>
    var lowering: LoweringAt
    var compileQ: seq<Task>
    var compiling: CompileAt
    var executeQ: seq<Task>
    var executing: ExecuteAt
    var lowered: seq<Task>
    var compiled: seq<Task>
    var executed: seq<Task>

    function Now(): State
      reads this
    {
      State(submitted, lowerQ, lowering, compileQ, compiling, executeQ, executing, lowered, compiled, executed)
    }

    constructor ()
      ensures Now() == INITIAL && Inv(Now())
    {
      submitted, lowerQ, lowering, compileQ, compiling := [], [], LIdle, [], CIdle;
      executeQ, executing, lowered, compiled, executed := [], EIdle, [], [], [];
    }

    /** PipelineTask: enqueue on the lowering thread. */
    method Enqueue(kind: Kind)
      requires Inv(Now())
      modifies this
      ensures Now() == Apply(old(Now()), Submit(kind)) && Inv(Now())
    {
      ghost var before := Now();
      var t := Task(|submitted|, kind);
      submitted, lowerQ := submitted + [t], lowerQ + [t];
      StepKeepsInv(before, Submit(kind));
    }

    /** One atomic step of LoweringStage; `inlined` is the flag if this step reads it. */
    method StepLowering(inlined: bool)
      requires Inv(Now())
      modifies this
      ensures Now() == After(old(Now()), LoweringStep(old(Now()), inlined)) && Inv(Now())
    {
      ghost var before := Now();
      MoveLowering(inlined);
      Kept(before, LoweringStep(before, inlined));
    }

    method MoveLowering(inlined: bool)
      modifies this
      ensures Now() == After(old(Now()), LoweringStep(old(Now()), inlined))
    {
      match lowering {
        case LIdle => TakeTask();
        case Calling(t) => lowered, lowering := lowered + [t], Choosing(t);
        case Choosing(t) => ChooseMode(t, inlined);
        case _ => StepInline();
      }
    }

    method TakeTask()
      requires lowering.LIdle?
      modifies this
      ensures Now() == After(old(Now()), TakeLowering)
    {
      if lowerQ != [] {
        lowering, lowerQ := Calling(lowerQ[0]), lowerQ[1..];
      }
    }

    method ChooseMode(t: Task, inlined: bool)
      requires lowering == Choosing(t)
      modifies this
      ensures Now() == Apply(old(Now()), Choose(inlined))
    {
      if inlined {
        lowering := WaitCompile(t);
      } else {
        if t.kind.CompileNeeded() {
          compileQ := compileQ + [t];
        }
        lowering := LIdle;
      }
    }

    /** The inline mode: wait for compile, wait for execute, then make both calls. */
    method StepInline()
      requires !lowering.LIdle? && !lowering.Calling? && !lowering.Choosing?
      modifies this
      ensures Now() == After(old(Now()), LoweringStep(old(Now()), true))
    {
      match lowering {
        case WaitCompile(t) =>
          if compileQ == [] && compiling == CIdle {
            lowering := WaitExecute(t);
          }
        case WaitExecute(t) =>
          if executeQ == [] && executing == EIdle {
            lowering := InlineCompile(t);
          }
        case InlineCompile(t) =>
          if t.kind.CompileNeeded() {
            compiled := compiled + [t];
          }
          lowering := InlineExecute(t);
        case InlineExecute(t) =>
          if t.kind.ExecuteNeeded() {
            executed := executed + [t];
          }
          lowering := LIdle;
      }
    }

    /** One atomic step of CompileStage. */
    method StepCompile()
      requires Inv(Now())
      modifies this
      ensures Now() == After(old(Now()), CompileStep(old(Now()))) && Inv(Now())
    {
      ghost var before := Now();
      match compiling {
        case CIdle => TakeCompiled();
        case CCalling(t) => compiled, compiling := compiled + [t], CPassing(t);
        case CPassing(t) => PassToExecute(t);
      }
      Kept(before, CompileStep(before));
    }

    method TakeCompiled()
      requires compiling.CIdle?
      modifies this
      ensures Now() == After(old(Now()), TakeCompile)
    {
      if compileQ != [] {
        compiling, compileQ := CCalling(compileQ[0]), compileQ[1..];
      }
    }

    method PassToExecute(t: Task)
      requires compiling == CPassing(t)
      modifies this
      ensures Now() == Apply(old(Now()), PassOn)
    {
      if t.kind.ExecuteNeeded() {
        executeQ := executeQ + [t];
      }
      compiling := CIdle;
    }

    /** One atomic step of ExecuteStage. */
    method StepExecute()
      requires Inv(Now())
      modifies this
      ensures Now() == After(old(Now()), ExecuteStep(old(Now()))) && Inv(Now())
    {
      ghost var before := Now();
      if executing.EIdle? {
        TakeExecuted();
      } else {
        executed, executing := executed + [executing.t], EIdle;
      }
      Kept(before, ExecuteStep(before));
    }

    method TakeExecuted()
      requires executing.EIdle?
      modifies this
      ensures Now() == After(old(Now()), TakeExecute)
    {
      if executeQ != [] {
        executing, executeQ := ECalling(executeQ[0]), executeQ[1..];
      }
    }

    /** Let the picked thread move if it can, else some thread that can. */
    method Schedule(pick: int, inlined: bool)
      requires Inv(Now()) && !Quiescent(Now())
      modifies this
      ensures Inv(Now()) && submitted == old(submitted) && Work(Now()) < Work(old(Now()))
    {
      ghost var before := Now();
      Drains(before, inlined);
      SomeThread(before, inlined);
      if pick == 0 && Enabled(Now(), LoweringStep(Now(), inlined)) {
        StepLowering(inlined);
      } else if pick == 1 && Enabled(Now(), CompileStep(Now())) {
        StepCompile();
      } else if Enabled(Now(), ExecuteStep(Now())) {
        StepExecute();
      } else if Enabled(Now(), CompileStep(Now())) {
        StepCompile();
      } else {
        StepLowering(inlined);
      }
    }

    /** Let the threads run, in whatever order the scheduler picks and with whatever flags the tasks find,
        until nothing is left: every stage has then seen exactly the tasks that need it, in order. */
    method Drain()
      requires Inv(Now())
      modifies this
      ensures Inv(Now()) && Quiescent(Now()) && submitted == old(submitted)
      ensures lowered == submitted && compiled == CompileOnly(submitted) && executed == ExecuteOnly(submitted)
    {
      while !Quiescent(Now())
        invariant Inv(Now()) && submitted == old(submitted)
        decreases Work(Now())
      {
        var inlined: bool := *;
        var pick: int := *;
        Schedule(pick, inlined);
      }
      IdleIsComplete(Now());
    }
  }

  /** In an idle state every stream is what its stage has seen. */
  lemma IdleIsComplete(s: State)
    requires Inv(s) && Quiescent(s)
    ensures s.lowered == s.submitted && s.compiled == CompileOnly(s.submitted) && s.executed == ExecuteOnly(s.submitted)
  {
  }

  lemma Kept(s: State, step: Step)
    requires Inv(s)
    ensures Inv(After(s, step))
  {
    if Enabled(s, step) { StepKeepsInv(s, step); }
  }

  /** In a state that is not quiescent, one of the three threads can move. */
  lemma SomeThread(s: State, inlined: bool)
    requires !Quiescent(s)
    ensures Enabled(s, LoweringStep(s, inlined)) || Enabled(s, CompileStep(s)) || Enabled(s, ExecuteStep(s))
  {
  }

  predicate Drained(s: State, t: State) { Work(t) < Work(s) && t.submitted == s.submitted }

  lemma Drains(s: State, inlined: bool)
    ensures Enabled(s, LoweringStep(s, inlined)) ==> Drained(s, After(s, LoweringStep(s, inlined)))
    ensures Enabled(s, CompileStep(s)) ==> Drained(s, After(s, CompileStep(s)))
    ensures Enabled(s, ExecuteStep(s)) ==> Drained(s, After(s, ExecuteStep(s)))
  {
    if Enabled(s, LoweringStep(s, inlined)) { StepsDoWork(s, LoweringStep(s, inlined)); }
    if Enabled(s, CompileStep(s)) { StepsDoWork(s, CompileStep(s)); }
    if Enabled(s, ExecuteStep(s)) { StepsDoWork(s, ExecuteStep(s)); }
  }
}
