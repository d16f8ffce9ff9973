/** What holds in every run of the scheduler, whatever the order in which jobs exit. */
module ScheduleSafety {
  import opened Scheduler

  // ----- the invariant -----

  /** The commands started for a plugin, in order. */
  function Ran(log: seq<(Name, Cmd)>, n: Name): seq<Cmd> {
    if log == [] then []
    else Ran(log[..|log| - 1], n) + if log[|log| - 1].0 == n then [log[|log| - 1].1] else []
  }

  /** `ran` and then `rest` are the commands planned for a plugin. */
  ghost predicate Follows(c: Config, n: Name, ran: seq<Cmd>, rest: seq<Cmd>) {
    exists isNew: bool :: ran + rest == Plan(c, n, isNew)
  }

  ghost predicate Waits(c: Config, s: State, n: Name)
    requires n in s.todo
  {
    if s.todo[n].queue == [] then Ran(s.log, n) == []
    else Ran(s.log, n) != [] && Follows(c, n, Ran(s.log, n), s.todo[n].queue)
  }

  ghost predicate Works(c: Config, s: State, n: Name)
    requires n in s.jobs
  {
    Ran(s.log, n) != [] && Follows(c, n, Ran(s.log, n), s.jobs[n].queue)
  }

  /** A finished plugin ran nothing, or its whole plan, or failed on the way. */
  ghost predicate Ended(c: Config, s: State, n: Name) {
    var ran := Ran(s.log, n);
    || ran == [] || Follows(c, n, ran, [])
    || (n in s.errors && exists rest :: Follows(c, n, ran, rest))
  }

  ghost predicate Accounted(c: Config, s: State, n: Name) {
    if n in s.todo then Waits(c, s, n) else if n in s.jobs then Works(c, s, n) else Ended(c, s, n)
  }

  /** Each plugin waits, works or is finished; the bar counts the finished ones; no failed one is taken up again. */
  ghost predicate Shape(c: Config, s: State) {
    && Apart(s) && s.todo.Keys + s.jobs.Keys <= c.all
    && |s.bar| + |s.todo| + |s.jobs| == |c.all|
    && (forall n :: n in s.errors ==> n in c.all && n !in s.todo && n !in s.jobs)
    && (s.fin ==> s.todo == map[] && s.jobs == map[])
    && s.finishes == (if s.fin then 1 else 0)
  }

  ghost predicate Ok(c: Config, s: State) {
    Shape(c, s) && forall n :: n in c.all ==> Accounted(c, s, n)
  }

  /** Every job has a process that will exit. */
  ghost predicate Live(s: State) { forall n :: n in s.jobs ==> s.jobs[n].running || s.jobs[n].abort }

  /** What holds between events. */
  ghost predicate Settled(c: Config, s: State) {
    && Ok(c, s) && Live(s) && |s.jobs| <= c.threads
    && (s.todo == map[] || |s.jobs| >= c.threads)
    && (s.fin <==> s.todo == map[] && s.jobs == map[])
  }

  // ----- maps -----

  lemma LargerMap<V>(m: map<Name, V>, k: Name, v: V)
    ensures k !in m ==> |m[k := v]| == |m| + 1
    ensures k in m ==> |m[k := v]| == |m|
  {
    assert m[k := v].Keys == m.Keys + {k};
    KeysSize(m);
    KeysSize(m[k := v]);
  }

  lemma RanSnoc(log: seq<(Name, Cmd)>, n: Name, name: Name, cmd: Cmd)
    ensures Ran(log + [(name, cmd)], n) == Ran(log, n) + if n == name then [cmd] else []
  {
    var l := log + [(name, cmd)];
    assert l[..|l| - 1] == log && l[|l| - 1] == (name, cmd);
  }

  // ----- a job ends -----

  lemma ReapSizes(s: State, name: Name)
    requires name in s.jobs && Apart(s)
    ensures var t := Reap(s, name);
            |t.bar| + |t.todo| + |t.jobs| == |s.bar| + |s.todo| + |s.jobs| && |t.jobs| == |s.jobs| - 1
  {
    SmallerMap(s.jobs, name);
    LargerMap(s.todo, name, Spec(s.jobs[name].queue, false));
  }

  lemma ReapKeys(s: State, name: Name)
    requires name in s.jobs && Apart(s)
    ensures var t := Reap(s, name);
            && t.jobs.Keys == s.jobs.Keys - {name} && t.todo.Keys <= s.todo.Keys + {name} && t.fin == s.fin && t.finishes == s.finishes
            && (t.errors == s.errors || (t.errors == s.errors + [name] && t.todo == s.todo))
  {
  }

  lemma ReapShape(c: Config, s: State, name: Name)
    requires Shape(c, s) && name in s.jobs
    ensures Shape(c, Reap(s, name)) && |Reap(s, name).jobs| == |s.jobs| - 1
  {
    hide Reap, Shape;
    ShapeApart(c, s);
    ReapSizes(s, name);
    ReapKeys(s, name);
    ShapeAfter(c, s, Reap(s, name), name);
  }

  lemma ShapeAfter(c: Config, s: State, t: State, name: Name)
    requires Shape(c, s) && name in s.jobs
    requires t.jobs.Keys == s.jobs.Keys - {name} && t.todo.Keys <= s.todo.Keys + {name} && t.fin == s.fin && t.finishes == s.finishes
    requires t.errors == s.errors || (t.errors == s.errors + [name] && t.todo == s.todo)
    requires |t.bar| + |t.todo| + |t.jobs| == |s.bar| + |s.todo| + |s.jobs|
    ensures Shape(c, t)
  {
    assert s.jobs != map[];
    forall n | n in t.errors ensures n in c.all && n !in t.todo && n !in t.jobs {
      assert n in s.errors || n == name;
    }
  }

  /** Reaping a started job keeps the invariant. */
  lemma ReapOk(c: Config, s: State, name: Name)
    requires Ok(c, s) && name in s.jobs
    ensures Ok(c, Reap(s, name)) && |Reap(s, name).jobs| == |s.jobs| - 1
    ensures Live(s) ==> Live(Reap(s, name))
  {
    hide Accounted, Shape;
    ShapeApart(c, s);
    ReapShape(c, s, name);
    forall n | n in c.all ensures Accounted(c, Reap(s, name), n) {
      ReapAccounted(c, s, name, n);
    }
  }

  lemma ShapeApart(c: Config, s: State)
    requires Shape(c, s)
    ensures Apart(s) && (forall n :: n in s.jobs ==> n in c.all) && (forall n :: n in s.todo ==> n in c.all)
  {
  }

  lemma ReapAccounted(c: Config, s: State, name: Name, n: Name)
    requires Apart(s) && name in s.jobs && Accounted(c, s, n) && Accounted(c, s, name)
    ensures Accounted(c, Reap(s, name), n)
  {
    hide Ran, Follows;
    var t := Reap(s, name);
    if n == name {
      assert Follows(c, n, Ran(t.log, n), s.jobs[name].queue);
    } else {
      assert n in t.todo <==> n in s.todo;
      assert n in t.jobs <==> n in s.jobs;
      assert n in s.errors ==> n in t.errors;
    }
  }

  /** The outcome of the process does not touch the invariant. */
  lemma ExitedOk(c: Config, s: State, name: Name, code: int)
    requires Ok(c, s) && name in s.jobs
    ensures Ok(c, Exited(s, name, code)) && |Exited(s, name, code).jobs| == |s.jobs|
  {
    hide Accounted;
    var t := Exited(s, name, code);
    LargerMap(s.jobs, name, t.jobs[name]);
    assert t.jobs.Keys == s.jobs.Keys;
    assert s.jobs != map[];
    forall n | n in c.all ensures Accounted(c, t, n) {
      ExitedAccounted(c, s, name, code, n);
    }
  }

  lemma ExitedAccounted(c: Config, s: State, name: Name, code: int, n: Name)
    requires name in s.jobs && Accounted(c, s, n)
    ensures Accounted(c, Exited(s, name, code), n)
  {
    hide Ran, Follows;
  }

  // ----- a turn of the loop -----

  /** What taking up a plugin changes. */
  lemma TakeFrame(c: Config, w: World, s: State)
    requires s.todo != map[] && w.pick(s.clock, s.todo.Keys) in s.todo
    ensures var name, t := w.pick(s.clock, s.todo.Keys), Take(c, w, s);
            var queue := Queue(c, w, s.clock, name, s.todo[name]);
            && name in t.jobs && t.todo == s.todo - {name} && t.jobs == s.jobs[name := t.jobs[name]]
            && t.errors == s.errors && t.bar == s.bar && t.fin == s.fin && t.finishes == s.finishes
            && (t.log == s.log || (queue != [] && t.log == s.log + [(name, queue[0])]))
  {
    hide Begin, Queue;
  }

  lemma TakeShape(c: Config, w: World, s: State)
    requires Shape(c, s) && s.todo != map[] && w.pick(s.clock, s.todo.Keys) in s.todo
    ensures var t := Take(c, w, s); Shape(c, t) && |t.jobs| == |s.jobs| + 1
  {
    hide Take, Queue, Shape;
    var name := w.pick(s.clock, s.todo.Keys);
    var t := Take(c, w, s);
    TakeFrame(c, w, s);
    ShapeApart(c, s);
    SmallerMap(s.todo, name);
    LargerMap(s.jobs, name, t.jobs[name]);
    KeysMove(s.todo, s.jobs, name, t.jobs[name]);
    ShapeMove(c, s, t, name);
  }

  lemma KeysMove(todo: map<Name, Spec>, jobs: map<Name, Job>, name: Name, j: Job)
    ensures (todo - {name}).Keys == todo.Keys - {name} && jobs[name := j].Keys == jobs.Keys + {name}
  {
  }

  lemma ShapeMove(c: Config, s: State, t: State, name: Name)
    requires Shape(c, s) && name in s.todo
    requires t.todo.Keys == s.todo.Keys - {name} && t.jobs.Keys == s.jobs.Keys + {name}
    requires |t.todo| == |s.todo| - 1 && |t.jobs| == |s.jobs| + 1
    requires t.errors == s.errors && t.bar == s.bar && t.fin == s.fin && t.finishes == s.finishes
    ensures Shape(c, t)
  {
    assert s.todo != map[];
    forall n | n in t.errors ensures n in c.all && n !in t.todo && n !in t.jobs {
      assert n in s.errors;
    }
  }

  /** A turn, by what it does with the plugin it takes up. */
  lemma TurnAccounted(c: Config, w: World, s: State, n: Name)
    requires Shape(c, s) && s.todo != map[] && w.pick(s.clock, s.todo.Keys) in s.todo
    requires var name := w.pick(s.clock, s.todo.Keys); Accounted(c, s, name) && Accounted(c, s, n)
    ensures Accounted(c, Turn(c, w, s), n)
  {
    hide Ran, Follows, Plan;
    var name := w.pick(s.clock, s.todo.Keys);
    var queue := Queue(c, w, s.clock, name, s.todo[name]);
    if queue != [] { RanSnoc(s.log, n, name, queue[0]); }
    if n == name {
      TakenAccounted(c, w, s);
    } else {
      OtherAccounted(c, w, s, n);
    }
  }

  lemma OtherAccounted(c: Config, w: World, s: State, n: Name)
    requires Shape(c, s) && s.todo != map[] && w.pick(s.clock, s.todo.Keys) in s.todo
    requires n != w.pick(s.clock, s.todo.Keys) && Accounted(c, s, n)
    ensures Accounted(c, Turn(c, w, s), n)
  {
    hide Ran, Follows, Queue, Take, Accounted;
    var name := w.pick(s.clock, s.todo.Keys);
    var s1, queue := Take(c, w, s), Queue(c, w, s.clock, name, s.todo[name]);
    TakeFrame(c, w, s);
    if queue != [] { RanSnoc(s.log, n, name, queue[0]); }
    SameAccount(c, s, s1, n);
    if !s1.jobs[name].running {
      ReapFrame(s1, name, n);
      SameAccount(c, s1, Reap(s1, name), n);
    }
  }

  /** What is said of a plugin depends on its own entries only. */
  lemma SameAccount(c: Config, s: State, t: State, n: Name)
    requires Accounted(c, s, n) && Ran(t.log, n) == Ran(s.log, n)
    requires (n in t.todo <==> n in s.todo) && (n in s.todo ==> t.todo[n] == s.todo[n])
    requires (n in t.jobs <==> n in s.jobs) && (n in s.jobs ==> t.jobs[n] == s.jobs[n])
    requires n in s.errors ==> n in t.errors
    ensures Accounted(c, t, n)
  {
    hide Ran, Follows;
  }

  lemma ReapFrame(s: State, name: Name, n: Name)
    requires name in s.jobs && n != name
    ensures var t := Reap(s, name);
            && t.log == s.log && (n in s.errors ==> n in t.errors)
            && (n in t.todo <==> n in s.todo) && (n in s.todo ==> t.todo[n] == s.todo[n])
            && (n in t.jobs <==> n in s.jobs) && (n in s.jobs ==> t.jobs[n] == s.jobs[n])
  {
  }

  lemma TakenAccounted(c: Config, w: World, s: State)
    requires Apart(s) && s.todo != map[] && w.pick(s.clock, s.todo.Keys) in s.todo
    requires Accounted(c, s, w.pick(s.clock, s.todo.Keys))
    ensures Accounted(c, Turn(c, w, s), w.pick(s.clock, s.todo.Keys))
  {
    hide Ran, Follows, Plan;
    var name := w.pick(s.clock, s.todo.Keys);
    var spec, t := s.todo[name], Turn(c, w, s);
    var queue := Queue(c, w, s.clock, name, spec);
    if spec.abort {
      assert t.log == s.log && name in t.errors;
      if spec.queue != [] { assert Follows(c, name, Ran(s.log, name), spec.queue); }
    } else if queue == [] {
      assert t.log == s.log && Ran(s.log, name) == [];
    } else {
      RanSnoc(s.log, name, name, queue[0]);
      PlanFollows(c, w, s.clock, name, spec, Ran(s.log, name));
      assert Ran(t.log, name) == Ran(s.log, name) + [queue[0]];
      assert Follows(c, name, Ran(t.log, name), queue[1..]);
    }
  }

  lemma PlanFollows(c: Config, w: World, t: nat, name: Name, spec: Spec, ran: seq<Cmd>)
    requires if spec.queue == [] then ran == [] else Follows(c, name, ran, spec.queue)
    requires Queue(c, w, t, name, spec) != []
    ensures var queue := Queue(c, w, t, name, spec); Follows(c, name, ran + [queue[0]], queue[1..])
  {
    hide Plan;
    var queue := Queue(c, w, t, name, spec);
    assert ran + [queue[0]] + queue[1..] == ran + queue;
    if spec.queue == [] { assert ran + queue == queue; }
  }

  /** A turn keeps the invariant and starts at most one job; a skipped plugin starts none. */
  lemma TurnOk(c: Config, w: World, s: State)
    requires Ok(c, s) && Live(s) && s.todo != map[] && w.pick(s.clock, s.todo.Keys) in s.todo
    ensures var t := Turn(c, w, s);
            && Ok(c, t) && Live(t) && |t.jobs| <= |s.jobs| + 1
            && (s.todo[w.pick(s.clock, s.todo.Keys)].abort ==> |t.jobs| == |s.jobs|)
  {
    hide Accounted, Shape, Begin;
    var name := w.pick(s.clock, s.todo.Keys);
    TakeShape(c, w, s);
    ShapeApart(c, s);
    var s1 := Take(c, w, s);
    if !s1.jobs[name].running { ReapShape(c, s1, name); }
    forall n | n in c.all ensures Accounted(c, Turn(c, w, s), n) {
      TurnAccounted(c, w, s, n);
    }
  }

  lemma {:induction false} TickOk(c: Config, w: World, s: State)
    requires Picks(w) && Ok(c, s) && Live(s) && |s.jobs| < c.threads
    ensures Settled(c, Tick(c, w, s))
    decreases Work(s)
  {
    hide Ok, Turn, Work, Take, Settled;
    OkApart(c, s);
    if s.todo == map[] {
      TickIdle(c, w, s);
    } else {
      TurnWork(c, w, s);
      TurnOk(c, w, s);
      if Full(c, w, s) { TickFull(c, w, s); } else { TickOk(c, w, Turn(c, w, s)); }
    }
  }

  lemma TickIdle(c: Config, w: World, s: State)
    requires Picks(w) && Ok(c, s) && Live(s) && |s.jobs| < c.threads && s.todo == map[]
    ensures Settled(c, Tick(c, w, s))
  {
    hide Accounted, Turn, Work;
    if s.jobs == map[] && !s.fin { FinishOk(c, w, s); }
  }

  lemma TickFull(c: Config, w: World, s: State)
    requires Picks(w) && Ok(c, s) && Apart(s) && Live(s) && |s.jobs| < c.threads && s.todo != map[] && Full(c, w, s)
    requires Ok(c, Turn(c, w, s)) && Live(Turn(c, w, s)) && |Turn(c, w, s).jobs| <= |s.jobs| + 1
    ensures Settled(c, Turn(c, w, s))
  {
    hide Accounted, Turn, Work;
    var t := Turn(c, w, s);
    assert t.jobs == map[] ==> |t.jobs| == 0;
  }

  lemma FinishOk(c: Config, w: World, s: State)
    requires Ok(c, s) && s.todo == map[] && s.jobs == map[] && !s.fin
    ensures Ok(c, s.(fin := true, finishes := s.finishes + 1))
  {
    hide Ran, Follows;
    var t := s.(fin := true, finishes := s.finishes + 1);
    forall n | n in c.all ensures Accounted(c, t, n) { assert Accounted(c, s, n); }
  }

  // ----- every run -----

  lemma InitialOk(c: Config)
    ensures Ok(c, Initial(c)) && Live(Initial(c)) && Initial(c).jobs == map[]
  {
    var s := Initial(c);
    assert s.todo.Keys == c.all;
    KeysSize(s.todo);
  }

  lemma StartSettled(c: Config, w: World)
    requires Picks(w) && c.threads >= 1
    ensures Settled(c, Start(c, w))
  {
    hide Tick, Ok;
    InitialOk(c);
    TickOk(c, w, Initial(c));
  }

  lemma ExitSettled(c: Config, w: World, s: State, name: Name, code: int)
    requires Picks(w) && Settled(c, s) && name in s.jobs
    ensures Settled(c, JobExit(c, w, s, name, code))
  {
    hide Tick, Ok, Reap, Work;
    OkApart(c, s);
    ExitedOk(c, s, name, code);
    ExitedWork(s, name, code);
    var s1 := Exited(s, name, code);
    ReapOk(c, s1, name);
    ReapWork(s1, name);
    ReapLive(s, name, code);
    TickOk(c, w, Reap(s1, name));
  }

  lemma OkApart(c: Config, s: State)
    requires Ok(c, s)
    ensures Apart(s)
  {
  }

  lemma ReapLive(s: State, name: Name, code: int)
    requires Live(s) && name in s.jobs
    ensures Live(Reap(Exited(s, name, code), name))
  {
  }

  lemma CancelKeys(s: State)
    ensures var t := Cancel(s);
            && t.todo.Keys == s.todo.Keys && t.jobs.Keys == s.jobs.Keys && |t.todo| == |s.todo| && |t.jobs| == |s.jobs|
            && (t.todo == map[] <==> s.todo == map[]) && (t.jobs == map[] <==> s.jobs == map[])
  {
    var t := Cancel(s);
    assert t.todo.Keys == s.todo.Keys && t.jobs.Keys == s.jobs.Keys;
    KeysSize(t.todo);
    KeysSize(s.todo);
    KeysSize(t.jobs);
    KeysSize(s.jobs);
    assert s.todo == map[] <==> s.todo.Keys == {};
    assert s.jobs == map[] <==> s.jobs.Keys == {};
    assert t.todo == map[] <==> t.todo.Keys == {};
    assert t.jobs == map[] <==> t.jobs.Keys == {};
  }

  lemma CancelAccounted(c: Config, s: State, n: Name)
    requires Accounted(c, s, n)
    ensures Accounted(c, Cancel(s), n)
  {
    hide Ran, Follows;
  }

  lemma CancelSettled(c: Config, s: State)
    requires Settled(c, s)
    ensures Settled(c, Cancel(s))
  {
    hide Accounted;
    CancelKeys(s);
    forall n | n in c.all ensures Accounted(c, Cancel(s), n) { CancelAccounted(c, s, n); }
  }

  lemma {:induction false} RunSettled(c: Config, w: World, s: State, events: seq<Event>)
    requires Picks(w) && Settled(c, s) && Apart(s)
    ensures Settled(c, RunAll(c, w, s, events))
    decreases |events|
  {
    hide JobExit, Settled, Cancel;
    if events != [] {
      match events[0] {
        case Exit(name, code) => if name in s.jobs { ExitSettled(c, w, s, name, code); }
        case Abort => CancelSettled(c, s);
      }
      RunSettled(c, w, Apply(c, w, s, events[0]), events[1..]);
    }
  }

  // ----- the theorems -----

  /**
   * At every moment of every run no more jobs run than allowed, each plugin waits, runs or is finished, the
   * bar counts the finished ones, and the commands of each were started in the order of its plan.
   */
  lemma Safety(c: Config, w: World, events: seq<Event>)
    requires Picks(w) && c.threads >= 1
    ensures Settled(c, RunAll(c, w, Start(c, w), events))
  {
    hide Settled, Start;
    StartSettled(c, w);
    RunSettled(c, w, Start(c, w), events);
  }

  /** Unless the update is over, some job is alive: the scheduler never stalls. */
  lemma NoStall(c: Config, s: State)
    requires Settled(c, s) && !s.fin && c.threads >= 1
    ensures exists n :: n in s.jobs && (s.jobs[n].running || s.jobs[n].abort)
  {
    assert s.jobs != map[];
    var n :| n in s.jobs;
  }

  /** Number of events that end a job. */
  ghost function Exits(c: Config, w: World, s: State, events: seq<Event>): nat
    requires Picks(w) && Apart(s)
    decreases |events|
  {
    if events == [] then 0
    else (if events[0].Exit? && events[0].name in s.jobs then 1 else 0) + Exits(c, w, Apply(c, w, s, events[0]), events[1..])
  }

  lemma {:induction false} AbortTodo(m: map<Name, Spec>)
    ensures TodoWork(map n | n in m :: m[n].(abort := true)) == TodoWork(m)
    decreases |m|
  {
    var t := map n | n in m :: m[n].(abort := true);
    if m == map[] {
      assert t == map[];
    } else {
      var k :| k in m;
      SmallerMap(m, k);
      AbortTodo(m - {k});
      TodoWithout(m, k);
      TodoWithout(t, k);
      assert t - {k} == map n | n in m - {k} :: (m - {k})[n].(abort := true);
    }
  }

  lemma {:induction false} AbortJobs(m: map<Name, Job>)
    ensures JobsWork(map n | n in m :: m[n].(running := false, error := true, abort := true)) == JobsWork(m)
    decreases |m|
  {
    var t := map n | n in m :: m[n].(running := false, error := true, abort := true);
    if m == map[] {
      assert t == map[];
    } else {
      var k :| k in m;
      SmallerMap(m, k);
      AbortJobs(m - {k});
      JobsWithout(m, k);
      JobsWithout(t, k);
      assert t - {k} == map n | n in m - {k} :: (m - {k})[n].(running := false, error := true, abort := true);
    }
  }

  lemma {:induction false} WorkShrinks(c: Config, w: World, s: State, events: seq<Event>)
    requires Picks(w) && Apart(s)
    ensures Work(RunAll(c, w, s, events)) + Exits(c, w, s, events) <= Work(s)
    decreases |events|
  {
    hide JobExit, TodoWork, JobsWork;
    if events != [] {
      AbortTodo(s.todo);
      AbortJobs(s.jobs);
      WorkShrinks(c, w, Apply(c, w, s, events[0]), events[1..]);
    }
  }

  lemma {:induction false} InitialWork(m: map<Name, Spec>)
    requires forall n :: n in m ==> m[n].queue == []
    ensures TodoWork(m) == 10 * |m|
    decreases |m|
  {
    if m != map[] {
      var k :| k in m;
      SmallerMap(m, k);
      TodoWithout(m, k);
      InitialWork(m - {k});
    }
  }

  lemma JobsPositive(m: map<Name, Job>)
    requires m != map[]
    ensures JobsWork(m) > 0
  {
    var k :| k in m;
    JobsWithout(m, k);
  }

  /**
   * In every run at most ten jobs per plugin end, and while fewer than all work is done another job is alive:
   * so, if processes end, the update ends. It ends exactly once, with a bar as long as there are plugins.
   */
  lemma Progress(c: Config, w: World, events: seq<Event>)
    requires Picks(w) && c.threads >= 1
    ensures var s := RunAll(c, w, Start(c, w), events);
            && Exits(c, w, Start(c, w), events) <= 10 * |c.all|
            && (Exits(c, w, Start(c, w), events) == 10 * |c.all| ==> s.fin)
            && s.finishes <= 1 && (s.fin <==> s.finishes == 1)
            && (s.fin <==> |s.bar| == |c.all|)
            && (s.fin ==> s.todo == map[] && s.jobs == map[])
  {
    hide TodoWork, JobsWork, Start, Accounted;
    var s := RunAll(c, w, Start(c, w), events);
    Safety(c, w, events);
    WorkShrinks(c, w, Start(c, w), events);
    StartWork(c, w);
    if s.jobs != map[] { JobsPositive(s.jobs); }
    SizesZero(s);
  }

  lemma StartWork(c: Config, w: World)
    requires Picks(w)
    ensures Work(Start(c, w)) <= 10 * |c.all|
  {
    hide TodoWork;
    var s := Initial(c);
    InitialWork(s.todo);
    assert s.todo.Keys == c.all;
    KeysSize(s.todo);
    assert JobsWork(s.jobs) == 0;
  }

  lemma SizesZero(s: State)
    ensures |s.todo| + |s.jobs| == 0 <==> s.todo == map[] && s.jobs == map[]
  {
    if s.todo != map[] {
      var k :| k in s.todo;
      SmallerMap(s.todo, k);
    }
    if s.jobs != map[] {
      var k :| k in s.jobs;
      SmallerMap(s.jobs, k);
    }
  }

  // ----- a finished plugin stays finished -----

  ghost predicate Gone(s: State, n: Name) { n !in s.todo && n !in s.jobs }

  /** No further command is started for `n`, and its verdict stays. */
  ghost predicate StaysGone(s: State, t: State, n: Name) {
    Gone(s, n) ==> Gone(t, n) && Ran(t.log, n) == Ran(s.log, n) && (n in s.errors ==> n in t.errors)
  }

  lemma TurnGone(c: Config, w: World, s: State, n: Name)
    requires s.todo != map[] && w.pick(s.clock, s.todo.Keys) in s.todo
    ensures StaysGone(s, Turn(c, w, s), n)
  {
    hide Ran, Queue, Take;
    var name := w.pick(s.clock, s.todo.Keys);
    var s1, queue := Take(c, w, s), Queue(c, w, s.clock, name, s.todo[name]);
    TakeFrame(c, w, s);
    if queue != [] { RanSnoc(s.log, n, name, queue[0]); }
    if n != name && !s1.jobs[name].running { ReapFrame(s1, name, n); }
  }

  lemma {:induction false} TickGone(c: Config, w: World, s: State, n: Name)
    requires Picks(w) && Apart(s)
    ensures StaysGone(s, Tick(c, w, s), n)
    decreases Work(s)
  {
    hide Ran, Turn, Work;
    if s.todo != map[] {
      TurnWork(c, w, s);
      TurnGone(c, w, s, n);
      if !Full(c, w, s) { TickGone(c, w, Turn(c, w, s), n); }
    }
  }

  /** Once a plugin has failed, or is finished in any other way, nothing more is started for it. */
  lemma {:induction false} FinishedForGood(c: Config, w: World, s: State, events: seq<Event>, n: Name)
    requires Picks(w) && Apart(s)
    ensures StaysGone(s, RunAll(c, w, s, events), n)
    decreases |events|
  {
    hide Ran, Tick, Work;
    if events != [] {
      if events[0].Exit? && events[0].name in s.jobs {
        var Exit(name, code) := events[0];
        ExitedWork(s, name, code);
        ReapWork(Exited(s, name, code), name);
        if name != n { ReapFrame(Exited(s, name, code), name, n); }
        TickGone(c, w, Reap(Exited(s, name, code), name), n);
      }
      FinishedForGood(c, w, Apply(c, w, s, events[0]), events[1..], n);
    }
  }

  // ----- after a cancellation -----

  /** Every waiting plugin is to be skipped, except perhaps `n`. */
  ghost predicate OthersSkipped(s: State, n: Name) { forall m :: m in s.todo && m != n ==> s.todo[m].abort }

  ghost predicate AllSkipped(s: State) { forall m :: m in s.todo ==> s.todo[m].abort }

  lemma SkipTurn(c: Config, w: World, s: State)
    requires s.todo != map[] && w.pick(s.clock, s.todo.Keys) in s.todo && Apart(s)
    requires s.todo[w.pick(s.clock, s.todo.Keys)].abort
    ensures var name, t := w.pick(s.clock, s.todo.Keys), Turn(c, w, s);
            t.log == s.log && t.todo == s.todo - {name} && t.jobs == s.jobs
  {
    hide Queue, Begin;
    var name := w.pick(s.clock, s.todo.Keys);
    assert s.jobs[name := Job(false, true, false, true, [])] - {name} == s.jobs;
  }

  /** Skipping every waiting plugin starts nothing. */
  lemma {:induction false} TickSkips(c: Config, w: World, s: State)
    requires Picks(w) && Apart(s) && AllSkipped(s)
    ensures Tick(c, w, s).log == s.log && AllSkipped(Tick(c, w, s))
    decreases Work(s)
  {
    hide Turn, Work;
    if s.todo != map[] {
      TurnWork(c, w, s);
      SkipTurn(c, w, s);
      TickSkips(c, w, Turn(c, w, s));
    }
  }

  lemma TurnLog(c: Config, w: World, s: State)
    requires s.todo != map[] && w.pick(s.clock, s.todo.Keys) in s.todo
    ensures |s.log| <= |Turn(c, w, s).log|
    ensures !s.todo[w.pick(s.clock, s.todo.Keys)].abort && s.todo[w.pick(s.clock, s.todo.Keys)].queue != [] ==> |s.log| < |Turn(c, w, s).log|
  {
  }

  lemma {:induction false} TickLog(c: Config, w: World, s: State)
    requires Picks(w) && Apart(s)
    ensures |s.log| <= |Tick(c, w, s).log|
    decreases Work(s)
  {
    hide Turn, Work;
    if s.todo != map[] {
      TurnWork(c, w, s);
      TurnLog(c, w, s);
      if !Full(c, w, s) { TickLog(c, w, Turn(c, w, s)); }
    }
  }

  lemma {:induction false} TickStarts(c: Config, w: World, s: State, n: Name)
    requires Picks(w) && Apart(s) && OthersSkipped(s, n) && n in s.todo && !s.todo[n].abort && s.todo[n].queue != []
    ensures |s.log| < |Tick(c, w, s).log|
    decreases Work(s)
  {
    hide Turn, Work;
    TurnWork(c, w, s);
    TurnLog(c, w, s);
    if w.pick(s.clock, s.todo.Keys) != n {
      SkipTurn(c, w, s);
      TickStarts(c, w, Turn(c, w, s), n);
    } else if !Full(c, w, s) {
      TickLog(c, w, Turn(c, w, s));
    }
  }

  /**
   * While every waiting plugin is to be skipped, the end of a job starts another command exactly when the job
   * had commands left and its process reported success.
   */
  lemma SkippedExit(c: Config, w: World, s: State, name: Name, code: int)
    requires Picks(w) && Apart(s) && AllSkipped(s) && name in s.jobs
    ensures JobExit(c, w, s, name, code).log == s.log <==> code != 0 || s.jobs[name].queue == []
  {
    hide Tick, Work;
    ExitedWork(s, name, code);
    ReapWork(Exited(s, name, code), name);
    var t := Reap(Exited(s, name, code), name);
    if code != 0 || s.jobs[name].queue == [] {
      TickSkips(c, w, t);
    } else {
      TickStarts(c, w, t, name);
    }
  }

  lemma CancelSkips(s: State)
    requires Apart(s)
    ensures Apart(Cancel(s)) && AllSkipped(Cancel(s)) && Cancel(s).log == s.log
  {
  }

  /** So it is right after a cancellation: the mark it leaves on a running job is lost with the exit code. */
  lemma CancelledExit(c: Config, w: World, s: State, name: Name, code: int)
    requires Picks(w) && Apart(s) && name in s.jobs
    ensures Apart(Cancel(s)) && name in Cancel(s).jobs
    ensures JobExit(c, w, Cancel(s), name, code).log == s.log <==> code != 0 || s.jobs[name].queue == []
  {
    hide JobExit;
    CancelSkips(s);
    SkippedExit(c, w, Cancel(s), name, code);
  }

  // ----- no threads -----

  /**
   * The first plugin picked that is not skipped has a job that does not run: it needs none, cannot be started
   * or has been waited for; and it is not the last, or commands of its own are left.
   */
  ghost predicate Stalls(c: Config, w: World, s: State)
    requires Picks(w) && Apart(s)
    decreases Work(s)
  {
    s.todo != map[] &&
    var name := w.pick(s.clock, s.todo.Keys);
    var job := Begin(c, w, s.clock, name, s.todo[name]);
    TurnWork(c, w, s);
    if s.todo[name].abort then Stalls(c, w, Turn(c, w, s))
    else !job.running && (|s.todo| > 1 || (!job.error && job.queue != []))
  }

  /** With no threads allowed a tick that begins without jobs leaves plugins waiting and no job to wake them exactly in that case. */
  lemma {:induction false} NoThreadsStall(c: Config, w: World, s: State)
    requires Picks(w) && Apart(s) && c.threads <= 0 && s.jobs == map[]
    ensures var t := Tick(c, w, s); (t.jobs == map[] && t.todo != map[]) <==> Stalls(c, w, s)
    decreases Work(s)
  {
    hide Begin, Queue, Work;
    if s.todo != map[] {
      var name := w.pick(s.clock, s.todo.Keys);
      TurnWork(c, w, s);
      if s.todo[name].abort {
        SkipTurn(c, w, s);
        NoThreadsStall(c, w, Turn(c, w, s));
      } else {
        LoneTurn(c, w, s);
      }
    }
  }

  /** One turn when there is no other job. */
  lemma LoneTurn(c: Config, w: World, s: State)
    requires s.todo != map[] && w.pick(s.clock, s.todo.Keys) in s.todo && s.jobs == map[]
    requires !s.todo[w.pick(s.clock, s.todo.Keys)].abort
    ensures var name := w.pick(s.clock, s.todo.Keys);
            var t, job := Turn(c, w, s), Begin(c, w, s.clock, name, s.todo[name]);
            && (t.jobs == map[] <==> !job.running)
            && (!job.running ==> (t.todo != map[] <==> |s.todo| > 1 || (!job.error && job.queue != [])))
  {
    hide Begin, Queue;
    var name := w.pick(s.clock, s.todo.Keys);
    SmallerMap(s.todo, name);
    var t, job := Turn(c, w, s), Begin(c, w, s.clock, name, s.todo[name]);
    assert Take(c, w, s).jobs == map[name := job];
    assert Take(c, w, s).jobs - {name} == map[];
    if job.running { assert name in t.jobs; } else { assert t.todo == s.todo - {name} || name in t.todo; }
    if s.todo - {name} != map[] { NotEmptyMap(s.todo - {name}); }
  }

  lemma NotEmptyMap<V>(m: map<Name, V>)
    requires m != map[]
    ensures |m| > 0
  {
    var k :| k in m;
    SmallerMap(m, k);
  }
}
