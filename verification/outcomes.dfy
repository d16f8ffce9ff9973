/** What an update has done for each plugin: the commands it has started, and the verdict it has recorded. */
module ScheduleOutcomes {
  import opened Scheduler
  import opened ScheduleSafety

  // ----- the commands that are due -----

  /** The commands for plugin `n`, first looked at with question `t`. */
  function Due(c: Config, w: World, t: nat, n: Name): seq<Cmd> {
    if w.isNew(t) then [Clone, Checkout, Merge]
    else if !w.valid(t) || !c.pull then []
    else if c.pinned(n) then [Fetch, SetHead]
    else [Fetch, SetHead, Checkout, Merge]
  }

  predicate Broken(w: World, t: nat) { !w.isNew(t) && !w.valid(t) }

  /** What has been started for `n` and what is still queued make up what is due; only a failure cuts it short. */
  ghost predicate Tracked(c: Config, w: World, s: State, n: Name) {
    var ran := Ran(s.log, n);
    && (n in s.asked ==> s.asked[n] < s.clock && ran <= Due(c, w, s.asked[n], n) && (Broken(w, s.asked[n]) ==> n in s.errors))
    && (n !in s.asked ==> ran == [])
    && if n in s.todo then
         if s.todo[n].queue == [] then n !in s.asked
         else n in s.asked && ran != [] && ran + s.todo[n].queue == Due(c, w, s.asked[n], n)
       else if n in s.jobs then n in s.asked && ran != [] && ran + s.jobs[n].queue == Due(c, w, s.asked[n], n)
       else n in s.errors || (n in s.asked && ran == Due(c, w, s.asked[n], n))
  }

  // ----- a job ends -----

  /** The part of a state that concerns one plugin. */
  ghost predicate SameFor(s: State, t: State, n: Name) {
    && Ran(t.log, n) == Ran(s.log, n) && (n in s.errors <==> n in t.errors) && s.clock <= t.clock
    && (n in t.todo <==> n in s.todo) && (n in s.todo ==> t.todo[n].queue == s.todo[n].queue)
    && (n in t.jobs <==> n in s.jobs) && (n in s.jobs ==> t.jobs[n].queue == s.jobs[n].queue)
    && (n in t.asked <==> n in s.asked) && (n in s.asked ==> t.asked[n] == s.asked[n])
  }

  lemma SameTracked(c: Config, w: World, s: State, t: State, n: Name)
    requires Tracked(c, w, s, n) && SameFor(s, t, n)
    ensures Tracked(c, w, t, n)
  {
    hide Ran, Due;
  }

  lemma ReapOther(s: State, name: Name, n: Name)
    requires name in s.jobs && n != name
    ensures SameFor(s, Reap(s, name), n)
  {
    hide Ran;
  }

  /** Reaping a started job: its failure is recorded, or it goes on, or all that is due was done. */
  lemma ReapSelf(c: Config, w: World, s: State, name: Name)
    requires name in s.jobs && Apart(s) && Tracked(c, w, s, name)
    ensures Tracked(c, w, Reap(s, name), name)
  {
    hide Ran, Due;
    var ran := Ran(s.log, name);
    if s.jobs[name].queue == [] { assert ran + [] == ran; }
  }

  lemma ReapTracked(c: Config, w: World, s: State, name: Name, n: Name)
    requires name in s.jobs && Apart(s) && Tracked(c, w, s, n) && Tracked(c, w, s, name)
    ensures Tracked(c, w, Reap(s, name), n)
  {
    hide Tracked, SameFor, Reap;
    if n == name {
      ReapSelf(c, w, s, name);
    } else {
      ReapOther(s, name, n);
      SameTracked(c, w, s, Reap(s, name), n);
    }
  }

  lemma ExitedTracked(c: Config, w: World, s: State, name: Name, code: int, n: Name)
    requires name in s.jobs && Tracked(c, w, s, n)
    ensures Tracked(c, w, Exited(s, name, code), n)
  {
    hide Ran, Due;
    SameTracked(c, w, s, Exited(s, name, code), n);
  }

  lemma CancelTracked(c: Config, w: World, s: State, n: Name)
    requires Tracked(c, w, s, n)
    ensures Tracked(c, w, Cancel(s), n)
  {
    hide Ran, Due;
    SameTracked(c, w, s, Cancel(s), n);
  }

  // ----- a turn -----

  lemma TurnOther(c: Config, w: World, s: State, n: Name)
    requires s.todo != map[] && w.pick(s.clock, s.todo.Keys) in s.todo && n != w.pick(s.clock, s.todo.Keys)
    ensures SameFor(s, Turn(c, w, s), n)
  {
    hide Ran, Queue, Begin, Reap;
    var name := w.pick(s.clock, s.todo.Keys);
    var s1, queue := Take(c, w, s), Queue(c, w, s.clock, name, s.todo[name]);
    if queue != [] { RanSnoc(s.log, n, name, queue[0]); }
    assert SameFor(s, s1, n);
    if !s1.jobs[name].running { ReapOther(s1, name, n); }
  }

  /** A plugin that is skipped fails with what it has done so far. */
  lemma SkippedTracked(c: Config, w: World, s: State)
    requires s.todo != map[] && w.pick(s.clock, s.todo.Keys) in s.todo && Apart(s)
    requires var name := w.pick(s.clock, s.todo.Keys); s.todo[name].abort && Tracked(c, w, s, name)
    ensures Tracked(c, w, Turn(c, w, s), w.pick(s.clock, s.todo.Keys))
  {
    hide Ran, Due, Queue, Begin;
  }

  /** What a plugin that is looked at, or goes on, has to do is what is due. */
  lemma QueueDue(c: Config, w: World, s: State, name: Name)
    requires name in s.todo && !s.todo[name].abort && Tracked(c, w, s, name)
    ensures var q, ran := Queue(c, w, s.clock, name, s.todo[name]), Ran(s.log, name);
            var t := if s.todo[name].queue == [] then s.clock else s.asked[name];
            && ran + q == Due(c, w, t, name) && (q == [] ==> s.todo[name].queue == [])
            && (q != [] && s.todo[name].queue == [] ==> !Broken(w, t))
            && (q == [] ==> Begin(c, w, s.clock, name, s.todo[name]) == Job(false, Broken(w, t), false, false, []))
  {
    hide Ran;
    var q, ran := Queue(c, w, s.clock, name, s.todo[name]), Ran(s.log, name);
    if s.todo[name].queue == [] { assert ran + q == q; }
  }

  /** The job of a plugin that is not skipped, right after it has been taken up. */
  lemma TakenTracked(c: Config, w: World, s: State)
    requires s.todo != map[] && w.pick(s.clock, s.todo.Keys) in s.todo && Apart(s)
    requires var name := w.pick(s.clock, s.todo.Keys);
             && !s.todo[name].abort && Tracked(c, w, s, name) && Queue(c, w, s.clock, name, s.todo[name]) != []
    ensures Tracked(c, w, Take(c, w, s), w.pick(s.clock, s.todo.Keys))
  {
    hide Ran, Due, Queue;
    var name := w.pick(s.clock, s.todo.Keys);
    var q, ran, t := Queue(c, w, s.clock, name, s.todo[name]), Ran(s.log, name), Take(c, w, s);
    QueueDue(c, w, s, name);
    RanSnoc(s.log, name, name, q[0]);
    assert Ran(t.log, name) == ran + [q[0]] && t.jobs[name].queue == q[1..];
    assert ran + [q[0]] + q[1..] == ran + q;
  }

  /** A plugin for which nothing is due is finished at once, with an error if its check fails. */
  lemma NothingTracked(c: Config, w: World, s: State)
    requires s.todo != map[] && w.pick(s.clock, s.todo.Keys) in s.todo && Apart(s)
    requires var name := w.pick(s.clock, s.todo.Keys);
             && !s.todo[name].abort && Tracked(c, w, s, name) && Queue(c, w, s.clock, name, s.todo[name]) == []
    ensures Tracked(c, w, Turn(c, w, s), w.pick(s.clock, s.todo.Keys))
  {
    hide Ran, Due, Queue, Begin;
    var name := w.pick(s.clock, s.todo.Keys);
    QueueDue(c, w, s, name);
    assert Ran(s.log, name) + [] == Ran(s.log, name);
    assert Turn(c, w, s).log == s.log && Turn(c, w, s).asked == s.asked[name := s.clock];
  }

  lemma TurnTracked(c: Config, w: World, s: State, n: Name)
    requires s.todo != map[] && w.pick(s.clock, s.todo.Keys) in s.todo && Apart(s)
    requires Tracked(c, w, s, n)
    ensures Tracked(c, w, Turn(c, w, s), n)
  {
    hide Tracked, SameFor, Queue, Take, Reap;
    var name := w.pick(s.clock, s.todo.Keys);
    if n != name {
      TurnOther(c, w, s, n);
      SameTracked(c, w, s, Turn(c, w, s), n);
    } else if s.todo[name].abort {
      SkippedTracked(c, w, s);
    } else if Queue(c, w, s.clock, name, s.todo[name]) == [] {
      NothingTracked(c, w, s);
    } else {
      TakenTracked(c, w, s);
      TakeWork(c, w, s);
      TakenJob(c, w, s);
      if !Take(c, w, s).jobs[name].running { ReapSelf(c, w, Take(c, w, s), name); }
    }
  }

  lemma {:induction false} TickTracked(c: Config, w: World, s: State, n: Name)
    requires Picks(w) && Apart(s) && Tracked(c, w, s, n)
    ensures Tracked(c, w, Tick(c, w, s), n)
    decreases Work(s)
  {
    hide Turn, Work, Tracked;
    if s.todo == map[] {
      IdleTracked(c, w, s, n);
    } else {
      TurnWork(c, w, s);
      TurnTracked(c, w, s, n);
      if !Full(c, w, s) { TickTracked(c, w, Turn(c, w, s), n); }
    }
  }

  lemma IdleTracked(c: Config, w: World, s: State, n: Name)
    requires Tracked(c, w, s, n)
    ensures Tracked(c, w, s.(fin := true, finishes := s.finishes + 1), n)
  {
    hide Ran, Due;
  }

  // ----- every run -----

  lemma {:induction false} RunTracked(c: Config, w: World, s: State, events: seq<Event>, n: Name)
    requires Picks(w) && Apart(s) && (forall m :: m in c.all ==> Tracked(c, w, s, m)) && s.jobs.Keys <= c.all && s.todo.Keys <= c.all && n in c.all
    ensures Tracked(c, w, RunAll(c, w, s, events), n)
    decreases |events|
  {
    hide Tracked, Tick, Work, Reap, Exited, Cancel;
    if events != [] {
      var t := Apply(c, w, s, events[0]);
      forall m | m in c.all ensures Tracked(c, w, t, m) { ApplyTracked(c, w, s, events[0], m); }
      ApplyKeys(c, w, s, events[0]);
      RunTracked(c, w, t, events[1..], n);
    }
  }

  lemma ApplyTracked(c: Config, w: World, s: State, ev: Event, n: Name)
    requires Picks(w) && Apart(s) && (forall m :: m in c.all ==> Tracked(c, w, s, m)) && s.jobs.Keys <= c.all && n in c.all
    ensures Tracked(c, w, Apply(c, w, s, ev), n)
  {
    hide Tracked, Tick, Work, Reap, Exited, Cancel;
    match ev
    case Abort => CancelTracked(c, w, s, n);
    case Exit(name, code) =>
      if name in s.jobs {
        var s1 := Exited(s, name, code);
        ExitedIn(s, name, code);
        ExitedWork(s, name, code);
        ReapWork(s1, name);
        ExitedTracked(c, w, s, name, code, n);
        ExitedTracked(c, w, s, name, code, name);
        ReapTracked(c, w, s1, name, n);
        TickTracked(c, w, Reap(s1, name), n);
      }
  }

  lemma ExitedIn(s: State, name: Name, code: int)
    requires name in s.jobs
    ensures name in Exited(s, name, code).jobs
  {
  }

  /** No plugin turns up that is not part of the update. */
  lemma {:induction false} TickKeys(c: Config, w: World, s: State)
    requires Picks(w) && Apart(s)
    ensures var t := Tick(c, w, s); t.todo.Keys + t.jobs.Keys <= s.todo.Keys + s.jobs.Keys
    decreases Work(s)
  {
    hide Turn, Work;
    if s.todo != map[] {
      TurnWork(c, w, s);
      TurnKeys(c, w, s);
      if !Full(c, w, s) { TickKeys(c, w, Turn(c, w, s)); }
    }
  }

  lemma TurnKeys(c: Config, w: World, s: State)
    requires s.todo != map[] && w.pick(s.clock, s.todo.Keys) in s.todo
    ensures var t := Turn(c, w, s); t.todo.Keys + t.jobs.Keys <= s.todo.Keys + s.jobs.Keys
  {
    hide Begin, Queue;
  }

  lemma ApplyKeys(c: Config, w: World, s: State, ev: Event)
    requires Picks(w) && Apart(s) && s.jobs.Keys <= c.all && s.todo.Keys <= c.all
    ensures var t := Apply(c, w, s, ev); t.jobs.Keys <= c.all && t.todo.Keys <= c.all
  {
    hide Tick, Work;
    match ev
    case Abort => CancelKeys(s);
    case Exit(name, code) =>
      if name in s.jobs {
        var s1 := Exited(s, name, code);
        ExitedWork(s, name, code);
        ReapWork(s1, name);
        ReapKeys(s1, name);
        TickKeys(c, w, Reap(s1, name));
      }
  }

  lemma StartTracked(c: Config, w: World, n: Name)
    requires Picks(w) && n in c.all
    ensures Tracked(c, w, Start(c, w), n) && Start(c, w).todo.Keys + Start(c, w).jobs.Keys <= c.all
  {
    hide Tick;
    TickTracked(c, w, Initial(c), n);
    TickKeys(c, w, Initial(c));
  }

  /**
   * In every run, whatever is cancelled or fails: the commands started for a plugin begin the list that was due
   * when it was first looked at; a finished plugin that is not among the errors has run all of it; and one
   * whose check failed is among the errors.
   */
  lemma Outcomes(c: Config, w: World, events: seq<Event>, n: Name)
    requires Picks(w) && n in c.all
    ensures var s := RunAll(c, w, Start(c, w), events);
            && (n !in s.asked ==> Ran(s.log, n) == [])
            && (n in s.asked ==> Ran(s.log, n) <= Due(c, w, s.asked[n], n) && (Broken(w, s.asked[n]) ==> n in s.errors))
            && (Gone(s, n) && n !in s.errors ==> n in s.asked && Ran(s.log, n) == Due(c, w, s.asked[n], n))
  {
    hide Start;
    forall m | m in c.all ensures Tracked(c, w, Start(c, w), m) { StartTracked(c, w, m); }
    StartTracked(c, w, n);
    RunTracked(c, w, Start(c, w), events, n);
  }

  // ----- every question is asked of one plugin -----

  ghost predicate Distinct(s: State) {
    && (forall n :: n in s.asked ==> s.asked[n] < s.clock)
    && (forall m, n :: m in s.asked && n in s.asked && m != n ==> s.asked[m] != s.asked[n])
  }

  lemma ReapDistinct(s: State, name: Name)
    requires name in s.jobs && Distinct(s)
    ensures Distinct(Reap(s, name))
  {
  }

  lemma TurnDistinct(c: Config, w: World, s: State)
    requires s.todo != map[] && w.pick(s.clock, s.todo.Keys) in s.todo && Distinct(s)
    ensures Distinct(Turn(c, w, s))
  {
    hide Queue, Begin, Reap;
    var name := w.pick(s.clock, s.todo.Keys);
    assert Distinct(Take(c, w, s));
    if !Take(c, w, s).jobs[name].running { ReapDistinct(Take(c, w, s), name); }
  }

  lemma {:induction false} TickDistinct(c: Config, w: World, s: State)
    requires Picks(w) && Apart(s) && Distinct(s)
    ensures Distinct(Tick(c, w, s))
    decreases Work(s)
  {
    hide Turn, Work;
    if s.todo != map[] {
      TurnWork(c, w, s);
      TurnDistinct(c, w, s);
      if !Full(c, w, s) { TickDistinct(c, w, Turn(c, w, s)); }
    }
  }

  lemma {:induction false} RunDistinct(c: Config, w: World, s: State, events: seq<Event>)
    requires Picks(w) && Apart(s) && Distinct(s)
    ensures Distinct(RunAll(c, w, s, events))
    decreases |events|
  {
    hide Tick, Work, Reap;
    if events != [] {
      if events[0].Exit? && events[0].name in s.jobs {
        var s1 := Exited(s, events[0].name, events[0].code);
        ExitedWork(s, events[0].name, events[0].code);
        ReapWork(s1, events[0].name);
        ReapDistinct(s1, events[0].name);
        TickDistinct(c, w, Reap(s1, events[0].name));
      }
      RunDistinct(c, w, Apply(c, w, s, events[0]), events[1..]);
    }
  }

  /** No two plugins are ever looked at first with the same question. */
  lemma AskedOnce(c: Config, w: World, events: seq<Event>)
    requires Picks(w)
    ensures Distinct(RunAll(c, w, Start(c, w), events))
  {
    hide Tick, RunAll;
    TickDistinct(c, w, Initial(c));
    RunDistinct(c, w, Start(c, w), events);
  }

  // ----- runs in which nothing goes wrong -----

  /** Every start succeeds, and so does what is waited for. */
  ghost predicate AllStart(w: World) { forall t: nat :: w.outcome(t) == Started || w.outcome(t) == Waited(false) }

  /** Every process exits with 0, and nothing is cancelled. */
  ghost predicate AllSucceed(events: seq<Event>) { forall k :: 0 <= k < |events| ==> events[k].Exit? && events[k].code == 0 }

  /** The only errors are failed checks. */
  ghost predicate Clean(w: World, s: State) {
    && (forall n :: n in s.errors ==> n in s.asked && Broken(w, s.asked[n]) && n !in s.todo && n !in s.jobs)
    && (forall n :: n in s.todo ==> !s.todo[n].abort && (s.todo[n].queue == [] ==> n !in s.asked))
    && (forall n :: n in s.jobs ==> !s.jobs[n].abort && (s.jobs[n].error ==> n in s.asked && Broken(w, s.asked[n])))
  }

  lemma ReapClean(w: World, s: State, name: Name)
    requires name in s.jobs && Apart(s) && Clean(w, s)
    ensures Clean(w, Reap(s, name))
  {
    var t := Reap(s, name);
    forall n | n in t.errors ensures n in t.asked && Broken(w, t.asked[n]) && n !in t.todo && n !in t.jobs {
      assert n in s.errors || n == name;
    }
  }

  lemma TakeClean(c: Config, w: World, s: State)
    requires s.todo != map[] && w.pick(s.clock, s.todo.Keys) in s.todo && Apart(s) && AllStart(w) && Clean(w, s)
    ensures Clean(w, Take(c, w, s))
  {
    hide Plan;
    var name := w.pick(s.clock, s.todo.Keys);
    var t := Take(c, w, s);
    assert w.outcome(s.clock) == Started || w.outcome(s.clock) == Waited(false);
    forall n | n in t.errors ensures n in t.asked && Broken(w, t.asked[n]) && n !in t.todo && n !in t.jobs {
      assert n in s.errors && n != name;
    }
  }

  lemma {:induction false} TickClean(c: Config, w: World, s: State)
    requires Picks(w) && Apart(s) && AllStart(w) && Clean(w, s)
    ensures Clean(w, Tick(c, w, s))
    decreases Work(s)
  {
    hide Take, Reap, Work, Clean, AllStart;
    if s.todo == map[] {
      IdleClean(w, s);
    } else {
      var name := w.pick(s.clock, s.todo.Keys);
      TurnWork(c, w, s);
      TakeWork(c, w, s);
      TakeClean(c, w, s);
      TakenJob(c, w, s);
      if !Take(c, w, s).jobs[name].running { ReapClean(w, Take(c, w, s), name); }
      if !Full(c, w, s) { TickClean(c, w, Turn(c, w, s)); }
    }
  }

  lemma IdleClean(w: World, s: State)
    requires Clean(w, s)
    ensures Clean(w, s.(fin := true, finishes := s.finishes + 1))
  {
  }

  lemma ExitClean(c: Config, w: World, s: State, name: Name)
    requires Picks(w) && Apart(s) && AllStart(w) && Clean(w, s) && name in s.jobs
    ensures Clean(w, JobExit(c, w, s, name, 0))
  {
    hide Tick, Work, Reap;
    var s1 := Exited(s, name, 0);
    ExitedWork(s, name, 0);
    ReapWork(s1, name);
    ReapClean(w, s1, name);
    TickClean(c, w, Reap(s1, name));
  }

  lemma {:induction false} RunClean(c: Config, w: World, s: State, events: seq<Event>)
    requires Picks(w) && Apart(s) && AllStart(w) && AllSucceed(events) && Clean(w, s)
    ensures Clean(w, RunAll(c, w, s, events))
    decreases |events|
  {
    hide JobExit, Clean, AllStart;
    if events != [] {
      if events[0].name in s.jobs { ExitClean(c, w, s, events[0].name); }
      RunClean(c, w, Apply(c, w, s, events[0]), events[1..]);
    }
  }

  /**
   * When every start succeeds and every process exits with 0, a finished update has run for each plugin exactly
   * what was due: a clone, a checkout and a merge for a new one; a fetch and a set-head, and unless it is pinned
   * a checkout and a merge, for a valid one that is to be pulled; and nothing otherwise. The errors are the
   * plugins whose check failed.
   */
  lemma AllDone(c: Config, w: World, events: seq<Event>, n: Name)
    requires Picks(w) && AllStart(w) && AllSucceed(events) && n in c.all
    requires RunAll(c, w, Start(c, w), events).fin && c.threads >= 1
    ensures var s := RunAll(c, w, Start(c, w), events);
            && n in s.asked
            && Ran(s.log, n) == (if w.isNew(s.asked[n]) then [Clone, Checkout, Merge]
                                 else if w.valid(s.asked[n]) && c.pull then [Fetch, SetHead] + (if c.pinned(n) then [] else [Checkout, Merge])
                                 else [])
            && (n in s.errors <==> !w.isNew(s.asked[n]) && !w.valid(s.asked[n]))
  {
    hide Start, RunAll, Settled, AllStart;
    var s := RunAll(c, w, Start(c, w), events);
    Outcomes(c, w, events, n);
    Safety(c, w, events);
    FinEmpty(c, s);
    StartClean(c, w);
    RunClean(c, w, Start(c, w), events);
    assert n in s.errors ==> n in s.asked && Broken(w, s.asked[n]);
  }

  lemma FinEmpty(c: Config, s: State)
    requires Settled(c, s) && s.fin
    ensures s.todo == map[] && s.jobs == map[]
  {
  }

  lemma StartClean(c: Config, w: World)
    requires Picks(w) && AllStart(w)
    ensures Clean(w, Start(c, w))
  {
    hide Tick;
    TickClean(c, w, Initial(c));
  }

  // ----- verdicts -----

  /** The tick after an exit only adds to the bar and to the errors, and nothing for a plugin that is finished. */
  lemma {:induction false} TickAdds(c: Config, w: World, s: State, n: Name)
    requires Picks(w) && Apart(s)
    ensures s.bar <= Tick(c, w, s).bar && s.errors <= Tick(c, w, s).errors && s.fresh_ <= Tick(c, w, s).fresh_
    ensures Gone(s, n) ==> Gone(Tick(c, w, s), n) && (n in Tick(c, w, s).errors <==> n in s.errors)
    decreases Work(s)
  {
    hide Turn, Work;
    if s.todo != map[] {
      TurnWork(c, w, s);
      TurnAdds(c, w, s, n);
      if !Full(c, w, s) { TickAdds(c, w, Turn(c, w, s), n); }
    }
  }

  lemma ReapAdds(s: State, name: Name, n: Name)
    requires name in s.jobs
    ensures var t := Reap(s, name);
            && s.bar <= t.bar && s.errors <= t.errors && s.fresh_ <= t.fresh_
            && (n != name ==> (n in t.errors <==> n in s.errors) && (Gone(s, n) ==> Gone(t, n)))
  {
  }

  lemma TurnAdds(c: Config, w: World, s: State, n: Name)
    requires s.todo != map[] && w.pick(s.clock, s.todo.Keys) in s.todo
    ensures var t := Turn(c, w, s);
            && s.bar <= t.bar && s.errors <= t.errors && s.fresh_ <= t.fresh_
            && (Gone(s, n) ==> Gone(t, n) && (n in t.errors <==> n in s.errors))
  {
    hide Begin, Queue, Reap;
    var name := w.pick(s.clock, s.todo.Keys);
    if !Take(c, w, s).jobs[name].running { ReapAdds(Take(c, w, s), name, n); }
  }

  /**
   * A job that fails, also at its last command, puts its plugin among the errors for good, and an `x` into the
   * bar; one that ends its last command well adds a `=` and no error. A cancelled job leaves a `~`. A new plugin is
   * recorded as new when a job of it succeeds.
   */
  lemma ExitVerdict(c: Config, w: World, s: State, name: Name, code: int)
    requires Picks(w) && Apart(s) && name in s.jobs
    ensures var t, j := JobExit(c, w, s, name, code), s.jobs[name];
            && (code != 0 ==> Gone(t, name) && name in t.errors && s.bar + [if j.abort then '~' else 'x'] <= t.bar)
            && (code == 0 && j.queue == [] ==>
                  Gone(t, name) && (name in t.errors <==> name in s.errors) && s.bar + [if j.abort then '~' else '='] <= t.bar)
            && (code == 0 && j.isNew ==> name in t.fresh_)
  {
    hide Tick, Work;
    ExitedWork(s, name, code);
    ReapWork(Exited(s, name, code), name);
    TickAdds(c, w, Reap(Exited(s, name, code), name), name);
  }

  /**
   * A command that is started runs; one that cannot be started, or has been waited for and failed, finishes its
   * plugin with an error; one that has been waited for and succeeded leaves the rest of the list for another turn.
   */
  lemma StartVerdict(c: Config, w: World, s: State)
    requires s.todo != map[] && w.pick(s.clock, s.todo.Keys) in s.todo && Apart(s)
    requires var name := w.pick(s.clock, s.todo.Keys);
             !s.todo[name].abort && name !in s.errors && Queue(c, w, s.clock, name, s.todo[name]) != []
    ensures var name, t := w.pick(s.clock, s.todo.Keys), Turn(c, w, s);
            var rest := Queue(c, w, s.clock, name, s.todo[name])[1..];
            match w.outcome(s.clock)
            case Started => name in t.jobs && t.jobs[name].running && t.jobs[name].queue == rest && t.bar == s.bar
            case NotStarted => Gone(t, name) && name in t.errors && t.bar == s.bar + ['x']
            case Waited(true) => Gone(t, name) && name in t.errors && t.bar == s.bar + ['x']
            case Waited(false) =>
              && name !in t.errors
              && if rest == [] then Gone(t, name) && t.bar == s.bar + ['='] else name in t.todo && t.todo[name] == Spec(rest, false) && t.bar == s.bar
  {
    hide Queue, Due, Ran;
  }

  /** Without a cancellation the bar holds an `x` for each error and a `=` for every other finished plugin. */
  ghost predicate Tells(s: State) {
    && multiset(s.bar)['x'] == |s.errors| && multiset(s.bar)['='] == |s.bar| - |s.errors|
    && (forall n :: n in s.todo ==> !s.todo[n].abort) && (forall n :: n in s.jobs ==> !s.jobs[n].abort)
  }

  ghost predicate NoAbort(events: seq<Event>) { forall k :: 0 <= k < |events| ==> events[k].Exit? }

  lemma ReapTells(s: State, name: Name)
    requires name in s.jobs && !s.jobs[name].running && Tells(s)
    ensures Tells(Reap(s, name))
  {
    BarSnoc(s.bar, Bullet(s.jobs[name]));
  }

  lemma BarSnoc(bar: string, sign: char)
    ensures multiset(bar + [sign])['x'] == multiset(bar)['x'] + (if sign == 'x' then 1 else 0)
    ensures multiset(bar + [sign])['='] == multiset(bar)['='] + (if sign == '=' then 1 else 0)
  {
  }

  lemma TakeTells(c: Config, w: World, s: State)
    requires s.todo != map[] && w.pick(s.clock, s.todo.Keys) in s.todo && Tells(s)
    ensures Tells(Take(c, w, s))
  {
    hide Queue;
  }

  lemma {:induction false} TickTells(c: Config, w: World, s: State)
    requires Picks(w) && Apart(s) && Tells(s)
    ensures Tells(Tick(c, w, s))
    decreases Work(s)
  {
    hide Take, Reap, Work, Tells;
    if s.todo == map[] {
      IdleTells(s);
    } else {
      var name := w.pick(s.clock, s.todo.Keys);
      TurnWork(c, w, s);
      TakeTells(c, w, s);
      TakenJob(c, w, s);
      if !Take(c, w, s).jobs[name].running { ReapTells(Take(c, w, s), name); }
      if !Full(c, w, s) { TickTells(c, w, Turn(c, w, s)); }
    }
  }

  lemma IdleTells(s: State)
    requires Tells(s)
    ensures Tells(s.(fin := true, finishes := s.finishes + 1))
  {
  }

  lemma ExitTells(c: Config, w: World, s: State, name: Name, code: int)
    requires Picks(w) && Apart(s) && Tells(s) && name in s.jobs
    ensures Tells(JobExit(c, w, s, name, code))
  {
    hide Tick, Work, Reap;
    var s1 := Exited(s, name, code);
    ExitedWork(s, name, code);
    ReapWork(s1, name);
    ReapTells(s1, name);
    TickTells(c, w, Reap(s1, name));
  }

  lemma {:induction false} RunTells(c: Config, w: World, s: State, events: seq<Event>)
    requires Picks(w) && Apart(s) && Tells(s) && NoAbort(events)
    ensures Tells(RunAll(c, w, s, events))
    decreases |events|
  {
    hide JobExit, Tells;
    if events != [] {
      if events[0].name in s.jobs { ExitTells(c, w, s, events[0].name, events[0].code); }
      RunTells(c, w, Apply(c, w, s, events[0]), events[1..]);
    }
  }

  /** So it is at every moment of every run without a cancellation. */
  lemma BarTells(c: Config, w: World, events: seq<Event>)
    requires Picks(w) && NoAbort(events)
    ensures Tells(RunAll(c, w, Start(c, w), events))
  {
    hide Start, RunAll, Tells, NoAbort;
    StartTells(c, w);
    RunTells(c, w, Start(c, w), events);
  }

  lemma StartTells(c: Config, w: World)
    requires Picks(w)
    ensures Tells(Start(c, w))
  {
    hide Tick;
    TickTells(c, w, Initial(c));
  }
}
