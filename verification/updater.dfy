/** The scheduler of vim-plug as its script runs it: dictionaries and lists that its functions update. */
module Updater {
  import opened Scheduler

  class Update {
    const c: Config
    const w: World
    var todo: map<Name, Spec>
    var jobs: map<Name, Job>
    var errors: seq<Name>
    var fresh_: set<Name>
    var bar: string
    var fin: bool
    ghost var finishes: nat
    var clock: nat
    ghost var log: seq<(Name, Cmd)>
    ghost var asked: map<Name, nat>

    ghost function Now(): State
      reads this
    {
      State(todo, jobs, errors, fresh_, bar, fin, finishes, clock, log, asked)
    }

    /** The part of `s:update_impl` that sets up an update. */
    constructor (c: Config, w: World)
      ensures this.c == c && this.w == w && Now() == Initial(c)
    {
      this.c, this.w := c, w;
      todo, jobs := map n | n in c.all :: Spec([], false), map[];
      errors, fresh_, bar, fin, finishes, clock, log, asked := [], {}, "", false, 0, 0, [], map[];
    }

    /** `s:reap`. */
    method ReapJob(name: Name)
      requires name in jobs
      modifies this
      ensures Now() == Reap(old(Now()), name)
    {
      var job := jobs[name];
      jobs := jobs - {name};
      if job.error {
        errors := errors + [name];
      } else if job.isNew {
        fresh_ := fresh_ + {name};
      }
      if !job.error && job.queue != [] {
        todo := todo[name := Spec(job.queue, false)];
      } else {
        bar := bar + [Bullet(job)];
      }
    }

    /** `s:spawn`: starts the first command of the queue and enters the job. */
    method Spawn(name: Name, queue: seq<Cmd>, isNew: bool, outcome: Outcome)
      requires queue != []
      modifies this`jobs, this`log
      ensures jobs == old(jobs)[name := Spawned(queue, isNew, outcome)] && log == old(log) + [(name, queue[0])]
    {
      var job := Job(true, false, isNew, false, queue[1..]);
      log := log + [(name, queue[0])];
      match outcome {
        case Started =>
        case NotStarted => job := job.(running := false, error := true);
        case Waited(failed) => job := job.(running := false, error := failed);
      }
      jobs := jobs[name := job];
    }

    /** The middle of the loop: looks at a plugin and starts what it needs, if anything. */
    method StartPlugin(name: Name, spec: Spec, t: nat)
      modifies this`jobs, this`log
      ensures jobs == old(jobs)[name := Begin(c, w, t, name, spec)]
      ensures var queue := Queue(c, w, t, name, spec); log == if queue != [] then old(log) + [(name, queue[0])] else old(log)
    {
      if spec.queue != [] {
        Spawn(name, spec.queue, false, w.outcome(t));
      } else if !w.isNew(t) {
        if w.valid(t) {
          if c.pull {
            var queue := [Fetch, SetHead];
            if !c.pinned(name) {
              queue := queue + [Checkout, Merge];
            }
            assert queue == Plan(c, name, false);
            Spawn(name, queue, false, w.outcome(t));
          } else {
            jobs := jobs[name := Job(false, false, false, false, [])];
          }
        } else {
          jobs := jobs[name := Job(false, true, false, false, [])];
        }
      } else {
        Spawn(name, [Clone, Checkout, Merge], true, w.outcome(t));
      }
    }

    /** One turn of the loop of `s:tick`; `skipped` for a plugin that a cancellation has marked. */
    method TurnOnce() returns (skipped: bool)
      requires todo != map[] && w.pick(clock, todo.Keys) in todo
      modifies this
      ensures Now() == Turn(c, w, old(Now())) && skipped == old(todo)[w.pick(old(clock), old(todo).Keys)].abort
    {
      hide Begin, Queue, Reap;
      var t, name := clock, w.pick(clock, todo.Keys);
      var spec := todo[name];
      todo, clock := todo - {name}, clock + 1;
      skipped := spec.abort;
      if skipped {
        jobs := jobs[name := Job(false, true, false, true, [])];
        ReapJob(name);
        return;
      }
      if spec.queue == [] {
        asked := asked[name := t];
      }
      StartPlugin(name, spec, t);
      BeginQuiet(c, w, t, name, spec);
      if !jobs[name].running {
        ReapJob(name);
      }
    }

    /** `s:tick`. */
    method RunTick()
      requires Picks(w) && Apart(Now())
      modifies this
      ensures Apart(Now()) && Now() == Tick(c, w, old(Now()))
    {
      hide Turn, Work, TodoWork, JobsWork;
      while true
        invariant Apart(Now()) && Tick(c, w, Now()) == Tick(c, w, old(Now()))
        decreases Work(Now())
      {
        if todo == map[] {
          if jobs == map[] && !fin {
            finishes := finishes + 1;
            fin := true;
          }
          return;
        }
        TurnWork(c, w, Now());
        var skipped := TurnOnce();
        if !skipped && |jobs| >= c.threads {
          break;
        }
      }
    }

    /** `s:job_exit_cb`. */
    method JobExited(name: Name, code: int)
      requires Picks(w) && Apart(Now()) && name in jobs
      modifies this
      ensures Apart(Now()) && Now() == JobExit(c, w, old(Now()), name, code)
    {
      hide Reap, Tick, Work;
      ExitedWork(Now(), name, code);
      ReapWork(Exited(Now(), name, code), name);
      jobs := jobs[name := jobs[name].(running := false, error := code != 0)];
      ReapJob(name);
      RunTick();
    }

    /** `s:job_abort` with the cancel flag. */
    method JobAbort()
      modifies this
      ensures Now() == Cancel(old(Now()))
    {
      jobs := map n | n in jobs :: jobs[n].(running := false, error := true, abort := true);
      todo := map n | n in todo :: todo[n].(abort := true);
    }

    /** `s:update_vim`. */
    method UpdateVim()
      requires Picks(w) && Now() == Initial(c)
      modifies this
      ensures Now() == Start(c, w)
    {
      hide Tick;
      RunTick();
    }
  }

  lemma BeginQuiet(c: Config, w: World, t: nat, name: Name, spec: Spec)
    ensures Queue(c, w, t, name, spec) == [] ==> !Begin(c, w, t, name, spec).running
  {
  }
}
