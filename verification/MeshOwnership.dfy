/**
Device ownership of the examples (examples/common/runtime.py): the file lock around the open mesh, its
cleanup on every exit, and any interleaving of any number of processes.

Closing a mesh, resetting the fabric and unlocking are assumed not to fail; a call that fails to open a
mesh leaves no handle behind, while a failing fabric change may have taken effect.
*/
module MeshOwnership {
  import opened Prelude

  datatype Shape = Shape(rows: nat, columns: nat) {
    function Area(): nat {
      rows * columns
    }

    predicate FitsIn(outer: Shape) {
      rows <= outer.rows && columns <= outer.columns
    }

    function Rotated(): Shape {
      Shape(columns, rows)
    }
  }

  datatype MeshError = UnsupportedConfiguration | Raised(stage: Stage)

  function ParentShape(system: Shape, requested: Shape): (r: Result<Shape, MeshError>) {
    if requested == Shape(1, 1) then Ok(requested)
    else if requested.Area() == system.Area() then Ok(requested)
    else if requested.FitsIn(system) then Ok(system)
    else if requested.FitsIn(system.Rotated()) then Ok(system.Rotated())
    else Err(UnsupportedConfiguration)
  }

  /** The parent always contains the request, and except for a single chip it uses the whole system. */
  lemma ParentContainsRequest(system: Shape, requested: Shape)
    requires ParentShape(system, requested).Ok?
    ensures var parent := ParentShape(system, requested).value;
      && requested.FitsIn(parent)
      && (parent.Area() == system.Area() || parent == Shape(1, 1) == requested)
  {
  }

  /** Support does not depend on which way round the system is reported. */
  lemma SupportIgnoresOrientation(system: Shape, requested: Shape)
    ensures ParentShape(system, requested).Ok? <==> ParentShape(system.Rotated(), requested).Ok?
  {
    assert system.Rotated().Rotated() == system;
    assert system.rows * system.columns == system.columns * system.rows;
  }

  /**
   A request is supported exactly if it is one chip, has as many chips as the system, or fits into it one way round
   or the other; it is opened as it is in the first two cases, and inside the whole system, turned only if the
   system as reported does not hold it, in the last two.
   */
  lemma ParentShapeExactly(system: Shape, requested: Shape)
    ensures var r, rows, columns := ParentShape(system, requested), requested.rows, requested.columns;
      var asItIs := (rows == 1 && columns == 1) || rows * columns == system.rows * system.columns;
      var straight := rows <= system.rows && columns <= system.columns;
      var turned := rows <= system.columns && columns <= system.rows;
      && (r.Ok? <==> asItIs || straight || turned)
      && (r == Ok(requested) <==> asItIs || requested == system || requested == Shape(system.columns, system.rows))
      && (!asItIs && straight ==> r == Ok(system))
      && (!asItIs && !straight && turned ==> r == Ok(Shape(system.columns, system.rows)))
  {
  }

  /** Eight chips in a row are opened as such on two rows of four; half of them inside the whole system. */
  lemma RowOnTwoRows()
    ensures ParentShape(Shape(2, 4), Shape(1, 8)) == Ok(Shape(1, 8))
    ensures ParentShape(Shape(2, 4), Shape(1, 4)) == Ok(Shape(2, 4))
    ensures ParentShape(Shape(2, 4), Shape(4, 1)) == Ok(Shape(4, 2))
    ensures ParentShape(Shape(2, 4), Shape(1, 6)).Err?
  {
  }

  // ---- One session

  /** Where the session raises, if it does. */
  datatype Stage = NoFault | BeforeLock | SystemDescriptor | SetFabricCall | OpenCall | SubmeshCall | BodyCall

  datatype Plan = Plan(requested: Shape, system: Shape, fabric: bool, fault: Stage)

  datatype Action =
    | Acquire | SetFabric | OpenParent | CreateSubmesh | Body | CloseSubmesh | CloseParent | ResetFabric | Release

  /** What one process holds. */
  datatype Holding = Holding(locked: bool, fabric: bool, parent: bool, submesh: bool)

  const CLEAN := Holding(false, false, false, false)

  /** The action, if what is held permits it: the ownership rules. */
  function Apply(h: Holding, a: Action): (r: Option<Holding>) {
    match a
    case Acquire => if h == CLEAN then Some(h.(locked := true)) else None
    case SetFabric => if h.locked && !h.parent then Some(h.(fabric := true)) else None
    case OpenParent => if h.locked && !h.parent then Some(h.(parent := true)) else None
    case CreateSubmesh => if h.locked && h.parent && !h.submesh then Some(h.(submesh := true)) else None
    case Body => if h.locked && h.parent then Some(h) else None
    case CloseSubmesh => if h.submesh then Some(h.(submesh := false)) else None
    case CloseParent => if h.parent && !h.submesh then Some(h.(parent := false)) else None
    case ResetFabric => if h.locked && !h.parent then Some(h.(fabric := false)) else None
    case Release => if h == CLEAN.(locked := true) then Some(CLEAN) else None
  }

  predicate UsesSubmesh(plan: Plan) {
    ParentShape(plan.system, plan.requested) != Ok(plan.requested)
  }

  /** How far the guarded part gets before it raises. */
  function Reached(plan: Plan): (n: nat) {
    if plan.fault == SystemDescriptor || ParentShape(plan.system, plan.requested).Err? then 0
    else if plan.fabric && plan.fault == SetFabricCall then 1
    else if plan.fault == OpenCall then 2
    else if UsesSubmesh(plan) && plan.fault == SubmeshCall then 3
    else 4
  }

  /** What a session still does once the body is over: the cleanup of what had been opened. */
  function CleanupLog(plan: Plan): (log: seq<Action>) {
    (if Reached(plan) >= 4 && UsesSubmesh(plan) then [CloseSubmesh] else [])
    + (if Reached(plan) >= 3 then [CloseParent] else [])
    + (if plan.fabric then [ResetFabric] else [])
    + [Release]
  }

  /** The guarded part, up to the step that raises. */
  function TryLog(plan: Plan): (log: seq<Action>) {
    var n := Reached(plan);
    (if n >= 1 && plan.fabric then [SetFabric] else [])
    + (if n >= 3 then [OpenParent] else [])
    + (if n >= 4 && UsesSubmesh(plan) then [CreateSubmesh] else [])
    + (if n >= 4 then [Body] else [])
  }

  function SessionLog(plan: Plan): (log: seq<Action>) {
    if plan.fault == BeforeLock then [] else [Acquire] + TryLog(plan) + CleanupLog(plan)
  }

  /** A request that is opened inside a larger mesh, with a fabric, spelled out for every place where it may raise. */
  lemma SubmeshSession(plan: Plan)
    requires plan.fabric && ParentShape(plan.system, plan.requested).Ok?
    requires ParentShape(plan.system, plan.requested) != Ok(plan.requested)
    ensures SessionLog(plan) == match plan.fault
      case BeforeLock => []
      case SystemDescriptor => [Acquire, ResetFabric, Release]
      case SetFabricCall => [Acquire, SetFabric, ResetFabric, Release]
      case OpenCall => [Acquire, SetFabric, ResetFabric, Release]
      case SubmeshCall => [Acquire, SetFabric, OpenParent, CloseParent, ResetFabric, Release]
      case NoFault | BodyCall =>
        [Acquire, SetFabric, OpenParent, CreateSubmesh, Body, CloseSubmesh, CloseParent, ResetFabric, Release]
  {
  }

  /** The same for a mesh that is opened as it is, without a fabric. */
  lemma PlainSession(plan: Plan)
    requires !plan.fabric && ParentShape(plan.system, plan.requested) == Ok(plan.requested)
    ensures SessionLog(plan) == match plan.fault
      case BeforeLock => []
      case SystemDescriptor | OpenCall => [Acquire, Release]
      case NoFault | BodyCall | SetFabricCall | SubmeshCall => [Acquire, OpenParent, Body, CloseParent, Release]
  {
  }

  /** The other two combinations, and a request that is not supported. */
  lemma OtherSessions(plan: Plan)
    requires plan.fault != BeforeLock
    ensures ParentShape(plan.system, plan.requested).Err? ==>
      SessionLog(plan) == if plan.fabric then [Acquire, ResetFabric, Release] else [Acquire, Release]
    ensures plan.fabric && ParentShape(plan.system, plan.requested) == Ok(plan.requested) ==>
      SessionLog(plan) == match plan.fault
        case SystemDescriptor => [Acquire, ResetFabric, Release]
        case SetFabricCall | OpenCall => [Acquire, SetFabric, ResetFabric, Release]
        case _ => [Acquire, SetFabric, OpenParent, Body, CloseParent, ResetFabric, Release]
    ensures !plan.fabric && ParentShape(plan.system, plan.requested).Ok?
            && ParentShape(plan.system, plan.requested) != Ok(plan.requested) ==>
      SessionLog(plan) == match plan.fault
        case SystemDescriptor | OpenCall => [Acquire, Release]
        case SubmeshCall => [Acquire, OpenParent, CloseParent, Release]
        case _ => [Acquire, OpenParent, CreateSubmesh, Body, CloseSubmesh, CloseParent, Release]
  {
  }

  /** What is held after the log, each of whose actions is permitted. */
  function Replay(h: Holding, log: seq<Action>): (r: Option<Holding>)
    decreases |log|
  {
    if log == [] then Some(h)
    else if Apply(h, log[0]) == None then None
    else Replay(Apply(h, log[0]).value, log[1..])
  }

  lemma {:induction false} ReplayAppend(h: Holding, a: seq<Action>, b: seq<Action>)
    requires Replay(h, a).Some?
    ensures Replay(h, a + b) == Replay(Replay(h, a).value, b)
    decreases |a|
  {
    if a == [] {
      assert a + b == b;
    } else {
      ReplayAppend(Apply(h, a[0]).value, a[1..], b);
      assert (a + b)[1..] == a[1..] + b;
    }
  }

  /** Every action of the log is permitted when its turn comes, and nothing is held at the end. */
  predicate Legal(h: Holding, log: seq<Action>) {
    Replay(h, log) == Some(CLEAN)
  }

  /** A single optional action in front of the rest. */
  lemma ReplayOptional(h: Holding, c: bool, a: Action, rest: seq<Action>)
    requires c ==> Apply(h, a).Some?
    ensures Replay(h, (if c then [a] else []) + rest) == Replay(if c then Apply(h, a).value else h, rest)
  {
    if c {
      assert ([a] + rest)[0] == a && ([a] + rest)[1..] == rest;
    } else {
      assert [] + rest == rest;
    }
  }

  /** Held when the guarded part ends, normally or by raising. */
  function HeldAfterTry(plan: Plan): Holding {
    Holding(true, Reached(plan) >= 1 && plan.fabric, Reached(plan) >= 3, Reached(plan) >= 4 && UsesSubmesh(plan))
  }

  lemma TryHolds(plan: Plan)
    ensures Replay(CLEAN.(locked := true), TryLog(plan)) == Some(HeldAfterTry(plan))
  {
    var n := Reached(plan);
    var body := (if n >= 4 then [Body] else []) + [];
    var create := (if n >= 4 && UsesSubmesh(plan) then [CreateSubmesh] else []) + body;
    var open := (if n >= 3 then [OpenParent] else []) + create;
    var h0 := CLEAN.(locked := true);
    var h1 := h0.(fabric := n >= 1 && plan.fabric);
    var h2 := h1.(parent := n >= 3);
    var h3 := h2.(submesh := n >= 4 && UsesSubmesh(plan));
    assert TryLog(plan) == (if n >= 1 && plan.fabric then [SetFabric] else []) + open;
    ReplayOptional(h0, n >= 1 && plan.fabric, SetFabric, open);
    ReplayOptional(h1, n >= 3, OpenParent, create);
    ReplayOptional(h2, n >= 4 && UsesSubmesh(plan), CreateSubmesh, body);
    ReplayOptional(h3, n >= 4, Body, []);
  }

  lemma CleanupCleans(plan: Plan)
    ensures Replay(HeldAfterTry(plan), CleanupLog(plan)) == Some(CLEAN)
  {
    var n := Reached(plan);
    var reset := (if plan.fabric then [ResetFabric] else []) + [Release];
    var close := (if n >= 3 then [CloseParent] else []) + reset;
    var h0 := HeldAfterTry(plan);
    var h1 := h0.(submesh := false);
    var h2 := h1.(parent := false);
    assert CleanupLog(plan) == (if n >= 4 && UsesSubmesh(plan) then [CloseSubmesh] else []) + close;
    ReplayOptional(h0, n >= 4 && UsesSubmesh(plan), CloseSubmesh, close);
    ReplayOptional(h1, n >= 3, CloseParent, reset);
    ReplayOptional(h2, plan.fabric, ResetFabric, [Release]);
    ReplayOptional(CLEAN.(locked := true), true, Release, []);
  }

  /** Whatever raises, a session obeys the rules and gives everything back. */
  lemma SessionIsLegal(plan: Plan)
    ensures Legal(CLEAN, SessionLog(plan))
  {
    if plan.fault != BeforeLock {
      var rest := TryLog(plan) + CleanupLog(plan);
      assert SessionLog(plan) == [Acquire] + rest;
      ReplayOptional(CLEAN, true, Acquire, rest);
      TryHolds(plan);
      ReplayAppend(CLEAN.(locked := true), TryLog(plan), CleanupLog(plan));
      CleanupCleans(plan);
    }
  }

  /** The body is reached exactly if nothing raises before it. */
  lemma BodyReached(plan: Plan)
    ensures Body in SessionLog(plan) <==> plan.fault != BeforeLock && Reached(plan) == 4
  {
    var log := SessionLog(plan);
    if plan.fault != BeforeLock {
      assert Body !in CleanupLog(plan);
      assert Body in TryLog(plan) <==> Reached(plan) == 4;
      assert Body in log <==> Body in TryLog(plan);
    }
  }

  lemma ThreeParts<T>(before: seq<T>, a: seq<T>, b: seq<T>, c: seq<T>)
    ensures before + a + b + c == before + (a + b + c)
  {
  }

  // ---- The context manager

  /** The device as one process sees it; `log` records what was done to it. */
  class Host {
    var locked: bool
    var fabric: bool
    var parent: Option<Shape>
    var submesh: Option<Shape>
    ghost var log: seq<Action>

    constructor ()
      ensures Clean() && log == []
    {
      locked, fabric, parent, submesh, log := false, false, None, None, [];
    }

    predicate Clean()
      reads this
    {
      !locked && !fabric && parent == None && submesh == None
    }

    /** `with open_mesh_device(...)`: acquire, run the guarded part, and clean up whatever it opened. */
    method OpenMeshDevice(plan: Plan) returns (yielded: Option<Shape>, raised: bool)
      requires Clean()
      modifies this
      ensures Clean() && log == old(log) + SessionLog(plan)
      ensures yielded == if Body in SessionLog(plan) then Some(plan.requested) else None
      ensures raised <==> yielded == None || plan.fault == BodyCall
    {
      if plan.fault == BeforeLock {
        return None, true;
      }
      locked := true;
      log := log + [Acquire];
      yielded, raised := Guarded(plan);
      Cleanup(plan);
      ThreeParts(old(log), [Acquire], TryLog(plan), CleanupLog(plan));
      BodyReached(plan);
    }

    /** The `finally` clauses. */
    method Cleanup(plan: Plan)
      requires Holding(locked, fabric, parent.Some?, submesh.Some?) == HeldAfterTry(plan)
      modifies this
      ensures Clean() && log == old(log) + CleanupLog(plan)
    {
      if submesh.Some? {
        submesh := None;
        log := log + [CloseSubmesh];
      }
      if parent.Some? {
        parent := None;
        log := log + [CloseParent];
      }
      if plan.fabric {
        fabric := false;
        log := log + [ResetFabric];
      }
      locked := false;
      log := log + [Release];
    }

    method Guarded(plan: Plan) returns (yielded: Option<Shape>, raised: bool)
      requires locked && !fabric && parent == None && submesh == None && plan.fault != BeforeLock
      modifies this`fabric, this`parent, this`submesh, this`log
      ensures log == old(log) + TryLog(plan)
      ensures Holding(locked, fabric, parent.Some?, submesh.Some?) == HeldAfterTry(plan)
      ensures yielded == if Reached(plan) == 4 then Some(plan.requested) else None
      ensures raised <==> yielded == None || plan.fault == BodyCall
    {
      yielded, raised := None, true;
      if plan.fault == SystemDescriptor {
        return;
      }
      var parentShape := ParentShape(plan.system, plan.requested);
      if parentShape.Err? {
        return;
      }
      if plan.fabric {
        fabric := true;
        log := log + [SetFabric];
        if plan.fault == SetFabricCall {
          return;
        }
      }
      if plan.fault == OpenCall {
        return;
      }
      parent := Some(parentShape.value);
      log := log + [OpenParent];
      if plan.requested != parentShape.value {
        if plan.fault == SubmeshCall {
          return;
        }
        submesh := Some(plan.requested);
        log := log + [CreateSubmesh];
        yielded := submesh;
      } else {
        yielded := parent;
      }
      log := log + [Body];
      raised := plan.fault == BodyCall;
    }
  }

  // ---- Any interleaving of any number of processes

  /** The actions of a process that opens a mesh once per plan, one session after the other. */
  function Program(plans: seq<Plan>): (log: seq<Action>) {
    if plans == [] then [] else SessionLog(plans[0]) + Program(plans[1..])
  }

  lemma {:induction false} ProgramIsLegal(plans: seq<Plan>)
    ensures Legal(CLEAN, Program(plans))
  {
    if plans != [] {
      ProgramIsLegal(plans[1..]);
      SessionIsLegal(plans[0]);
      ReplayAppend(CLEAN, SessionLog(plans[0]), Program(plans[1..]));
    }
  }

  datatype Process = Process(held: Holding, rest: seq<Action>)

  /** The lock file's owner and all processes. */
  datatype System = System(owner: Option<nat>, processes: seq<Process>)

  function Start(programs: seq<seq<Plan>>): (s: System) {
    System(None, Map(plans => Process(CLEAN, Program(plans)), programs))
  }

  /** Process i can act: it has something left to do, and does not wait for a lock that is taken. */
  predicate Enabled(s: System, i: nat) {
    i < |s.processes| && s.processes[i].rest != [] && (s.processes[i].rest[0] == Acquire ==> s.owner == None)
  }

  /** The effect of an action on a holding, permitted or not. */
  function Effect(h: Holding, a: Action): Holding {
    match a
    case Acquire => h.(locked := true)
    case SetFabric => h.(fabric := true)
    case OpenParent => h.(parent := true)
    case CreateSubmesh => h.(submesh := true)
    case Body => h
    case CloseSubmesh => h.(submesh := false)
    case CloseParent => h.(parent := false)
    case ResetFabric => h.(fabric := false)
    case Release => h.(locked := false)
  }

  function Next(s: System, i: nat): (t: System)
    requires Enabled(s, i)
  {
    var p := s.processes[i];
    var a := p.rest[0];
    System(if a == Acquire then Some(i) else if a == Release then None else s.owner,
           s.processes[i := Process(Effect(p.held, a), p.rest[1..])])
  }

  /** The states of a run: `choices` says who acts at each step. */
  ghost predicate Reaches(s: System, choices: seq<nat>, t: System)
    decreases |choices|
  {
    if choices == [] then s == t
    else Enabled(s, choices[0]) && Reaches(Next(s, choices[0]), choices[1..], t)
  }

  /** The lock file's owner is the process that holds the lock, and everybody can still finish by the rules. */
  ghost predicate Inv(s: System) {
    && (s.owner.Some? ==> s.owner.value < |s.processes|)
    && forall i :: 0 <= i < |s.processes| ==> Lawful(s, i)
  }

  ghost predicate Lawful(s: System, i: nat)
    requires i < |s.processes|
  {
    var p := s.processes[i];
    && (p.held.locked <==> s.owner == Some(i))
    && (p.held.parent || p.held.fabric ==> p.held.locked) && (p.held.submesh ==> p.held.parent)
    && Legal(p.held, p.rest)
  }

  lemma StartInv(programs: seq<seq<Plan>>)
    ensures Inv(Start(programs))
  {
    forall i | 0 <= i < |programs| ensures Lawful(Start(programs), i) {
      ProgramIsLegal(programs[i]);
    }
  }

  lemma NextInv(s: System, i: nat)
    requires Inv(s) && Enabled(s, i)
    ensures Inv(Next(s, i))
  {
    var p := s.processes[i];
    assert Lawful(s, i);
    assert Effect(p.held, p.rest[0]) == Apply(p.held, p.rest[0]).value;
    forall j | 0 <= j < |s.processes| ensures Lawful(Next(s, i), j) {
      assert Lawful(s, j);
    }
  }

  lemma {:induction false} RunInv(s: System, choices: seq<nat>, t: System)
    requires Inv(s) && Reaches(s, choices, t)
    ensures Inv(t)
    decreases |choices|
  {
    if choices != [] {
      NextInv(s, choices[0]);
      RunInv(Next(s, choices[0]), choices[1..], t);
    }
  }

  /**
   Safety over every run: an open mesh (or a changed fabric) belongs to the process that holds the lock, so
   no two processes ever have one; a process with nothing left to do holds nothing and has not got the lock.
   */
  lemma MeshOwnersHoldTheLock(programs: seq<seq<Plan>>, choices: seq<nat>, s: System, i: nat)
    requires Reaches(Start(programs), choices, s) && i < |s.processes|
    ensures var p := s.processes[i];
      && (p.held.parent || p.held.submesh || p.held.fabric ==> s.owner == Some(i))
      && (p.rest == [] ==> p.held == CLEAN && s.owner != Some(i))
      && (p.rest != [] ==> Apply(p.held, p.rest[0]).Some?)
  {
    StartInv(programs);
    RunInv(Start(programs), choices, s);
    assert Lawful(s, i);
  }

  /** What a process with a lawful rest holds when it comes to its next action. */
  lemma NextActionIsOwned(s: System, i: nat)
    requires i < |s.processes| && Lawful(s, i) && s.processes[i].rest != []
    ensures var held, owned := s.processes[i].held, s.owner == Some(i);
      match s.processes[i].rest[0]
      case Acquire => !owned && !held.fabric && !held.parent && !held.submesh
      case SetFabric | OpenParent | ResetFabric => owned && !held.parent
      case CreateSubmesh => owned && held.parent && !held.submesh
      case Body => owned && held.parent
      case CloseSubmesh => owned && held.parent && held.submesh
      case CloseParent => owned && held.parent && !held.submesh
      case Release => owned && !held.fabric && !held.parent && !held.submesh
  {
    assert Apply(s.processes[i].held, s.processes[i].rest[0]).Some?;
  }

  /**
   In every state of every run the next action of a process finds what it needs: only the owner of the lock uses the
   device, the body runs on an open mesh, a submesh is closed before its parent, and unlocking comes last.
   */
  lemma ActionsAreOwned(programs: seq<seq<Plan>>, choices: seq<nat>, s: System, i: nat)
    requires Reaches(Start(programs), choices, s) && i < |s.processes| && s.processes[i].rest != []
    ensures var held, owned := s.processes[i].held, s.owner == Some(i);
      match s.processes[i].rest[0]
      case Acquire => !owned && !held.fabric && !held.parent && !held.submesh
      case SetFabric | OpenParent | ResetFabric => owned && !held.parent
      case CreateSubmesh => owned && held.parent && !held.submesh
      case Body => owned && held.parent
      case CloseSubmesh => owned && held.parent && held.submesh
      case CloseParent => owned && held.parent && !held.submesh
      case Release => owned && !held.fabric && !held.parent && !held.submesh
  {
    StartInv(programs);
    RunInv(Start(programs), choices, s);
    NextActionIsOwned(s, i);
  }

  /** No run gets stuck: while anybody has something left to do, somebody can do it. */
  lemma NoDeadlock(programs: seq<seq<Plan>>, choices: seq<nat>, s: System, i: nat)
    requires Reaches(Start(programs), choices, s)
    requires i < |s.processes| && s.processes[i].rest != []
    ensures exists j :: Enabled(s, j)
  {
    StartInv(programs);
    RunInv(Start(programs), choices, s);
    assert Lawful(s, i);
    if s.owner.Some? {
      assert Lawful(s, s.owner.value);
      assert Enabled(s, s.owner.value);
    } else {
      assert Enabled(s, i);
    }
  }

  // ---- Every run comes to its end

  function Remaining(processes: seq<Process>): (n: nat) {
    if processes == [] then 0 else Remaining(processes[..|processes| - 1]) + |processes[|processes| - 1].rest|
  }

  lemma {:induction false} RemainingUpdate(processes: seq<Process>, i: nat, p: Process)
    requires i < |processes|
    ensures Remaining(processes[i := p]) == Remaining(processes) - |processes[i].rest| + |p.rest|
  {
    var n := |processes| - 1;
    if i < n {
      RemainingUpdate(processes[..n], i, p);
      assert processes[i := p][..n] == processes[..n][i := p];
    } else {
      assert processes[i := p][..n] == processes[..n];
    }
  }

  /** A run is as long as what it has done: no run goes on forever. */
  lemma {:induction false} RunsAreBounded(s: System, choices: seq<nat>, t: System)
    requires Reaches(s, choices, t)
    ensures |choices| + Remaining(t.processes) == Remaining(s.processes)
    decreases |choices|
  {
    if choices != [] {
      var p := s.processes[choices[0]];
      RemainingUpdate(s.processes, choices[0], Process(Effect(p.held, p.rest[0]), p.rest[1..]));
      RunsAreBounded(Next(s, choices[0]), choices[1..], t);
    }
  }

  lemma {:induction false} NothingRemains(processes: seq<Process>)
    ensures Remaining(processes) == 0 <==> forall i :: 0 <= i < |processes| ==> processes[i].rest == []
  {
    if processes != [] {
      NothingRemains(processes[..|processes| - 1]);
    }
  }

  lemma {:induction false} ReachesMore(s: System, choices: seq<nat>, t: System, i: nat)
    requires Reaches(s, choices, t) && Enabled(t, i)
    ensures Reaches(s, choices + [i], Next(t, i))
    decreases |choices|
  {
    if choices == [] {
      assert Reaches(Next(s, i), [], Next(t, i));
      assert [i][1..] == [];
    } else {
      ReachesMore(Next(s, choices[0]), choices[1..], t, i);
      assert (choices + [i])[0] == choices[0] && (choices + [i])[1..] == choices[1..] + [i];
    }
  }

  /**
   Every run can be driven to its end, with as many steps as there are actions left; and as no run is longer than
   the programs together, every run that goes on as long as it can gets there.
   */
  lemma {:induction false} EveryRunFinishes(programs: seq<seq<Plan>>, choices: seq<nat>, s: System)
    returns (all: seq<nat>, t: System)
    requires Reaches(Start(programs), choices, s)
    ensures choices <= all && Reaches(Start(programs), all, t)
    ensures |all| == Remaining(Start(programs).processes)
    ensures forall i :: 0 <= i < |t.processes| ==> t.processes[i].rest == []
    decreases Remaining(s.processes)
  {
    RunsAreBounded(Start(programs), choices, s);
    NothingRemains(s.processes);
    if Remaining(s.processes) == 0 {
      all, t := choices, s;
    } else {
      var i :| 0 <= i < |s.processes| && s.processes[i].rest != [];
      NoDeadlock(programs, choices, s, i);
      var j :| Enabled(s, j);
      ReachesMore(Start(programs), choices, s, j);
      RunsAreBounded(Start(programs), choices + [j], Next(s, j));
      all, t := EveryRunFinishes(programs, choices + [j], Next(s, j));
    }
  }

  /** When everybody is done the lock is free. */
  lemma FinishedRunsAreClean(programs: seq<seq<Plan>>, choices: seq<nat>, s: System)
    requires Reaches(Start(programs), choices, s)
    requires forall i :: 0 <= i < |s.processes| ==> s.processes[i].rest == []
    ensures s.owner == None && forall i :: 0 <= i < |s.processes| ==> s.processes[i].held == CLEAN
  {
    StartInv(programs);
    RunInv(Start(programs), choices, s);
    forall i | 0 <= i < |s.processes| ensures s.processes[i].held == CLEAN && s.owner != Some(i) {
      MeshOwnersHoldTheLock(programs, choices, s, i);
    }
  }
}
