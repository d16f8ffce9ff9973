/** The job scheduler of vim-plug as a state machine: what one tick, one exit and a cancellation do. */
module Scheduler {
  type Name = string

  datatype Cmd = Clone | Fetch | SetHead | Checkout | Merge

  /** A plugin that waits; without commands of its own it has not been looked at yet. */
  datatype Spec = Spec(queue: seq<Cmd>, abort: bool)

  datatype Job = Job(running: bool, error: bool, isNew: bool, abort: bool, queue: seq<Cmd>)

  /** What is fixed during an update: the plugins, and which of them have a tag or a commit. */
  datatype Config = Config(all: set<Name>, pinned: Name -> bool, pull: bool, threads: int)

  /** How the start of a command ends: it runs, it cannot be started, or (without jobs) it has been waited for. */
  datatype Outcome = Started | NotStarted | Waited(failed: bool)

  /** The answers of the environment, by the number of the question. */
  datatype World = World(pick: (nat, set<Name>) -> Name, isNew: nat -> bool, valid: nat -> bool, outcome: nat -> Outcome)

  /**
   * `log` records the commands in the order they were started, `asked` when a plugin was looked at for the
   * first time, and `finishes` counts the final steps.
   */
  datatype State = State(todo: map<Name, Spec>, jobs: map<Name, Job>, errors: seq<Name>, fresh_: set<Name>, bar: string,
                         fin: bool, finishes: nat, clock: nat, log: seq<(Name, Cmd)>, asked: map<Name, nat>)

  /** The dictionary order gives some key of a dictionary that is not empty. */
  ghost predicate Picks(w: World) { forall t: nat, s: set<Name> :: s != {} ==> w.pick(t, s) in s }

  /** The commands for a plugin that is cloned or updated. */
  function Plan(c: Config, name: Name, isNew: bool): (q: seq<Cmd>)
    ensures 2 <= |q| <= 4
  {
    if isNew then [Clone, Checkout, Merge]
    else if c.pinned(name) then [Fetch, SetHead]
    else [Fetch, SetHead, Checkout, Merge]
  }

  function Bullet(j: Job): char {
    if j.running then (if j.isNew then '+' else '*') else if j.abort then '~' else if j.error then 'x' else '='
  }

  // ----- reaping -----

  /** `s:reap`. */
  function Reap(s: State, name: Name): State
    requires name in s.jobs
  {
    var j := s.jobs[name];
    var s1 := s.(jobs := s.jobs - {name},
                 errors := if j.error then s.errors + [name] else s.errors,
                 fresh_ := if !j.error && j.isNew then s.fresh_ + {name} else s.fresh_);
    if !j.error && j.queue != [] then s1.(todo := s.todo[name := Spec(j.queue, false)])
    else s1.(bar := s.bar + [Bullet(j)])
  }

  // ----- starting -----

  /** `s:spawn`: the first command of a queue. */
  function Spawned(queue: seq<Cmd>, isNew: bool, outcome: Outcome): Job
    requires queue != []
  {
    match outcome
    case Started => Job(true, false, isNew, false, queue[1..])
    case NotStarted => Job(false, true, isNew, false, queue[1..])
    case Waited(failed) => Job(false, failed, isNew, false, queue[1..])
  }

  /** The commands a tick hands to `s:spawn`, or none when the plugin needs none or fails its check. */
  function Queue(c: Config, w: World, t: nat, name: Name, spec: Spec): seq<Cmd> {
    if spec.queue != [] then spec.queue
    else if w.isNew(t) then Plan(c, name, true)
    else if w.valid(t) && c.pull then Plan(c, name, false)
    else []
  }

  function Begin(c: Config, w: World, t: nat, name: Name, spec: Spec): Job {
    var queue := Queue(c, w, t, name, spec);
    if queue != [] then Spawned(queue, spec.queue == [] && w.isNew(t), w.outcome(t))
    else Job(false, !w.valid(t), false, false, [])
  }

  /** The next plugin leaves the waiting list and becomes a job, or is skipped because of a cancellation. */
  function Take(c: Config, w: World, s: State): State
    requires s.todo != map[] && w.pick(s.clock, s.todo.Keys) in s.todo
  {
    var name := w.pick(s.clock, s.todo.Keys);
    var spec := s.todo[name];
    var queue := Queue(c, w, s.clock, name, spec);
    var job := if spec.abort then Job(false, true, false, true, []) else Begin(c, w, s.clock, name, spec);
    s.(todo := s.todo - {name}, jobs := s.jobs[name := job], clock := s.clock + 1,
       log := if !spec.abort && queue != [] then s.log + [(name, queue[0])] else s.log,
       asked := if !spec.abort && spec.queue == [] then s.asked[name := s.clock] else s.asked)
  }

  /** One turn of the loop of `s:tick`: a job that does not run is reaped at once. */
  function Turn(c: Config, w: World, s: State): State
    requires s.todo != map[] && w.pick(s.clock, s.todo.Keys) in s.todo
  {
    var name := w.pick(s.clock, s.todo.Keys);
    var s1 := Take(c, w, s);
    if s1.jobs[name].running then s1 else Reap(s1, name)
  }

  /** The loop stops after a turn when as many jobs run as may; a skipped plugin does not stop it. */
  predicate Full(c: Config, w: World, s: State)
    requires s.todo != map[] && w.pick(s.clock, s.todo.Keys) in s.todo
  {
    !s.todo[w.pick(s.clock, s.todo.Keys)].abort && |Turn(c, w, s).jobs| >= c.threads
  }

  // ----- the work that is left -----

  function SpecWork(p: Spec): nat { if p.queue == [] then 10 else 2 * |p.queue| }

  function JobWork(j: Job): nat { 2 * |j.queue| + 1 }

  ghost function TodoWork(m: map<Name, Spec>): nat
    decreases |m|
  {
    if m == map[] then 0
    else
      var k :| k in m;
      SmallerMap(m, k);
      SpecWork(m[k]) + TodoWork(m - {k})
  }

  ghost function JobsWork(m: map<Name, Job>): nat
    decreases |m|
  {
    if m == map[] then 0
    else
      var k :| k in m;
      SmallerMap(m, k);
      JobWork(m[k]) + JobsWork(m - {k})
  }

  lemma SmallerMap<V>(m: map<Name, V>, k: Name)
    requires k in m
    ensures |m - {k}| == |m| - 1
  {
    assert (m - {k}).Keys == m.Keys - {k};
    KeysSize(m);
    KeysSize(m - {k});
  }

  lemma KeysSize<V>(m: map<Name, V>)
    ensures |m| == |m.Keys|
  {
  }

  lemma {:induction false} TodoWithout(m: map<Name, Spec>, k: Name)
    requires k in m
    ensures TodoWork(m) == SpecWork(m[k]) + TodoWork(m - {k})
    decreases |m|
  {
    var i :| i in m && TodoWork(m) == SpecWork(m[i]) + TodoWork(m - {i});
    if i != k {
      SmallerMap(m, i);
      TodoWithout(m - {i}, k);
      SmallerMap(m, k);
      TodoWithout(m - {k}, i);
      assert m - {i} - {k} == m - {k} - {i};
    }
  }

  lemma {:induction false} JobsWithout(m: map<Name, Job>, k: Name)
    requires k in m
    ensures JobsWork(m) == JobWork(m[k]) + JobsWork(m - {k})
    decreases |m|
  {
    var i :| i in m && JobsWork(m) == JobWork(m[i]) + JobsWork(m - {i});
    if i != k {
      SmallerMap(m, i);
      JobsWithout(m - {i}, k);
      SmallerMap(m, k);
      JobsWithout(m - {k}, i);
      assert m - {i} - {k} == m - {k} - {i};
    }
  }

  ghost function Work(s: State): nat { TodoWork(s.todo) + JobsWork(s.jobs) }

  /** No plugin waits and runs at the same time. */
  ghost predicate Apart(s: State) { s.todo.Keys !! s.jobs.Keys }

  lemma ReapWork(s: State, name: Name)
    requires name in s.jobs && Apart(s)
    ensures Work(Reap(s, name)) < Work(s) && Apart(Reap(s, name))
  {
    hide TodoWork, JobsWork;
    JobsWithout(s.jobs, name);
    var j, t := s.jobs[name], Reap(s, name);
    if !j.error && j.queue != [] {
      TodoWithout(t.todo, name);
      assert t.todo - {name} == s.todo;
    }
  }

  lemma TakeWork(c: Config, w: World, s: State)
    requires s.todo != map[] && w.pick(s.clock, s.todo.Keys) in s.todo && Apart(s)
    ensures Work(Take(c, w, s)) < Work(s) && Apart(Take(c, w, s))
  {
    hide TodoWork, JobsWork;
    var name := w.pick(s.clock, s.todo.Keys);
    var t := Take(c, w, s);
    TodoWithout(s.todo, name);
    JobsWithout(t.jobs, name);
    assert t.jobs - {name} == s.jobs;
  }

  lemma TurnWork(c: Config, w: World, s: State)
    requires s.todo != map[] && w.pick(s.clock, s.todo.Keys) in s.todo && Apart(s)
    ensures Work(Turn(c, w, s)) < Work(s) && Apart(Turn(c, w, s))
  {
    hide Work, Take, Reap;
    TakeWork(c, w, s);
    var name := w.pick(s.clock, s.todo.Keys);
    TakenJob(c, w, s);
    if !Take(c, w, s).jobs[name].running { ReapWork(Take(c, w, s), name); }
  }

  lemma TakenJob(c: Config, w: World, s: State)
    requires s.todo != map[] && w.pick(s.clock, s.todo.Keys) in s.todo
    ensures w.pick(s.clock, s.todo.Keys) in Take(c, w, s).jobs
  {
  }

  // ----- events -----

  /** `s:tick`. */
  ghost function Tick(c: Config, w: World, s: State): (t: State)
    requires Picks(w) && Apart(s)
    ensures Apart(t) && Work(t) <= Work(s)
    decreases Work(s)
  {
    if s.todo == map[] then
      if s.jobs == map[] && !s.fin then s.(fin := true, finishes := s.finishes + 1) else s
    else
      TurnWork(c, w, s);
      if Full(c, w, s) then Turn(c, w, s) else Tick(c, w, Turn(c, w, s))
  }

  /** The job of `name` with the outcome of its process. */
  function Exited(s: State, name: Name, code: int): State
    requires name in s.jobs
  {
    s.(jobs := s.jobs[name := s.jobs[name].(running := false, error := code != 0)])
  }

  lemma ExitedWork(s: State, name: Name, code: int)
    requires name in s.jobs && Apart(s)
    ensures Work(Exited(s, name, code)) == Work(s) && Apart(Exited(s, name, code))
  {
    hide TodoWork, JobsWork;
    var t := Exited(s, name, code);
    JobsWithout(s.jobs, name);
    JobsWithout(t.jobs, name);
    assert t.jobs - {name} == s.jobs - {name};
  }

  /** `s:job_exit_cb`. */
  ghost function JobExit(c: Config, w: World, s: State, name: Name, code: int): (t: State)
    requires Picks(w) && Apart(s) && name in s.jobs
    ensures Apart(t) && Work(t) < Work(s)
  {
    ExitedWork(s, name, code);
    ReapWork(Exited(s, name, code), name);
    Tick(c, w, Reap(Exited(s, name, code), name))
  }

  /** `s:job_abort` with the cancel flag: running jobs are stopped and marked, waiting plugins are marked to be skipped. */
  function Cancel(s: State): State {
    s.(jobs := map n | n in s.jobs :: s.jobs[n].(running := false, error := true, abort := true),
       todo := map n | n in s.todo :: s.todo[n].(abort := true))
  }

  datatype Event = Exit(name: Name, code: int) | Abort

  ghost function Apply(c: Config, w: World, s: State, ev: Event): (t: State)
    requires Picks(w) && Apart(s)
    ensures Apart(t)
  {
    match ev
    case Exit(name, code) => if name in s.jobs then JobExit(c, w, s, name, code) else s
    case Abort => Cancel(s)
  }

  function Initial(c: Config): State {
    State(map n | n in c.all :: Spec([], false), map[], [], {}, "", false, 0, 0, [], map[])
  }

  /** The state after a sequence of events. */
  ghost function RunAll(c: Config, w: World, s: State, events: seq<Event>): (t: State)
    requires Picks(w) && Apart(s)
    ensures Apart(t)
    decreases |events|
  {
    if events == [] then s else RunAll(c, w, Apply(c, w, s, events[0]), events[1..])
  }

  /** `s:update_vim`. */
  ghost function Start(c: Config, w: World): (t: State)
    requires Picks(w)
    ensures Apart(t)
  {
    Tick(c, w, Initial(c))
  }
}
