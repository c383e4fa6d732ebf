/**
  The order of the steps of a task: the two protocols of src/build_package.rs
  and src/build_fetch.rs, where they fail and what they end with.
 */
module Protocol {
  import opened Common
  import opened Units
  import opened Database
  import opened Tasks

  // --------------------------------------------------------- single steps

  /** Packages run a script whose output is then looked for; fetches send a request and download. */
  predicate FitsKind(u: Unit, t: Task) {
    && (t.pc.Run? || t.pc.Inspect? ==> u.PackageUnit?)
    && (t.pc.Request? || t.pc.Download? ==> u.FetchUnit?)
  }

  lemma StepFitsKind(u: Unit, rebuild: bool, output: string, t: Task, e: Event, s: Slot)
    requires FitsKind(u, t)
    ensures FitsKind(u, StepTask(u, rebuild, output, t, e, s).0)
  {
  }

  /** A step fails exactly if its operation fails, or a script has ended well without an output. */
  lemma FailsIff(u: Unit, rebuild: bool, output: string, t: Task, e: Event, s: Slot)
    requires !t.Ended()
    ensures StepTask(u, rebuild, output, t, e, s).0.HasFailed() <==>
      || e.Error?
      || (e.DbError? && (t.pc.Check? || t.pc.Remove? || t.pc.Register?))
      || (t.pc.Inspect? && s.file.None?)
  {
  }

  /** A task ends well exactly if it finds a registered path it may keep, or registers its output. */
  lemma EndsWellIff(u: Unit, rebuild: bool, output: string, t: Task, e: Event, s: Slot)
    requires !t.Ended()
    ensures StepTask(u, rebuild, output, t, e, s).0.pc.Done? <==>
      && !e.Error? && !e.DbError?
      && (t.pc.Register? || (t.pc.Check? && s.registered && !rebuild))
  {
  }

  /** A deletion removes all, nothing or a part, brings nothing into being, and the row goes last. */
  lemma DeletionLeaves(u: Unit, rebuild: bool, output: string, t: Task, e: Event, s: Slot)
    requires t.pc.Remove? || t.pc.Clean?
    ensures var (t', s') := StepTask(u, rebuild, output, t, e, s);
      && (!e.Error? ==> s'.file == None)
      && (e.Error? && e.left.None? ==> s' == s)
      && (e.Error? && e.left.Some? ==> s'.file == if s.file.None? then None else Some(Partial(e.left.value)))
      && (s'.registered <==> s.registered && (t.pc.Clean? || e.Error? || e.DbError?))
  {
  }

  /** What is on disk while a task works and after it has failed at work: what was last written, no more. */
  lemma WorkShows(u: Unit, rebuild: bool, output: string, t: Task, e: Event, s: Slot)
    requires t.pc.Run? || t.pc.Download?
    ensures var (t', s') := StepTask(u, rebuild, output, t, e, s);
      && s'.registered == s.registered
      && (e.Wrote? && t.left > 0 ==> s'.file == Some(Partial(e.bytes)))
      && (e.Error? && t.pc.Download? ==> s' == s)
      && (e.Error? && t.pc.Run? && e.left.None? ==> s'.file == None)
      && (e.Error? && t.pc.Run? && e.left.Some? ==> s'.file == Some(Partial(e.left.value)))
  {
  }

  // ---------------------------------------------------------- whole tasks

  /** A task from some state on, under a sequence of answers of the outside world. */
  function TaskAfter(u: Unit, rebuild: bool, output: string, t: Task, s: Slot, es: seq<Event>): (Task, Slot)
    decreases |es|
  {
    if es == [] then (t, s)
    else
      var (t', s') := StepTask(u, rebuild, output, t, es[0], s);
      TaskAfter(u, rebuild, output, t', s', es[1..])
  }

  lemma {:induction false} TaskAfterJoin(u: Unit, rebuild: bool, output: string, t: Task, s: Slot,
                                         es: seq<Event>, fs: seq<Event>)
    ensures TaskAfter(u, rebuild, output, t, s, es + fs) ==
      var (t', s') := TaskAfter(u, rebuild, output, t, s, es);
      TaskAfter(u, rebuild, output, t', s', fs)
    decreases |es|
  {
    if es == [] {
      assert es + fs == fs;
    } else {
      assert (es + fs)[0] == es[0] && (es + fs)[1..] == es[1..] + fs;
      var (t', s') := StepTask(u, rebuild, output, t, es[0], s);
      TaskAfterJoin(u, rebuild, output, t', s', es[1..], fs);
    }
  }

  function Times(e: Event, n: nat): seq<Event> {
    seq(n, _ => e)
  }

  lemma TimesStep(u: Unit, rebuild: bool, output: string, t: Task, s: Slot, e: Event, n: nat)
    requires n > 0
    ensures TaskAfter(u, rebuild, output, t, s, Times(e, n)) ==
      var (t', s') := StepTask(u, rebuild, output, t, e, s);
      TaskAfter(u, rebuild, output, t', s', Times(e, n - 1))
  {
    assert Times(e, n)[1..] == Times(e, n - 1);
  }

  /** The turns of the work loop, when every one goes through. */
  lemma {:induction false} LoopGoes(u: Unit, rebuild: bool, output: string, t: Task, s: Slot)
    requires t.pc.Run? || t.pc.Download?
    ensures TaskAfter(u, rebuild, output, t, s, Times(Go, t.left + 1)) ==
      (t.(pc := if t.pc.Run? then Inspect else Register, left := 0), s.(file := Some(Complete(output))))
    decreases t.left
  {
    var (t', s') := StepTask(u, rebuild, output, t, Go, s);
    assert Times(Go, t.left + 1)[1..] == Times(Go, t.left);
    if t.left > 0 {
      LoopGoes(u, rebuild, output, t', s');
    }
  }

  /**
    A task that is spared all failures ends well, after a number of steps that
    depends on what it finds: one if there is nothing to do, otherwise the turns
    of its loop and five or, with an old output to remove, six more.
   */
  lemma GoesThrough(u: Unit, rebuild: bool, output: string, left: nat, start: Slot)
    ensures
      var steps := if !Needed(rebuild, start) then 1 else left + if start.registered then 6 else 5;
      var (t, s) := TaskAfter(u, rebuild, output, Spawned(left), start, Times(Go, steps));
      t.pc.Done? && s == if !start.registered || rebuild then Slot(true, Some(Complete(output))) else start
  {
    if Needed(rebuild, start) {
      var before := if start.registered then 4 else 3;
      var t, s := Task(if u.PackageUnit? then Run else Download, left, false),
                  Slot(false, if u.PackageUnit? then None else Some(Partial("")));
      if u.PackageUnit? {
        before := before - 1;
      }
      var after := if u.PackageUnit? then 2 else 1;
      GoesToWork(u, rebuild, output, left, start, before);
      LoopGoes(u, rebuild, output, t, s);
      var (t', s') := TaskAfter(u, rebuild, output, t, s, Times(Go, left + 1));
      assert s'.file.Some?;
      GoesHome(u, rebuild, output, t', s', after);
      TaskAfterJoin(u, rebuild, output, Spawned(left), start, Times(Go, before), Times(Go, left + 1));
      TaskAfterJoin(u, rebuild, output, Spawned(left), start,
                    Times(Go, before) + Times(Go, left + 1), Times(Go, after));
      assert Times(Go, before) + Times(Go, left + 1) + Times(Go, after) == Times(Go, before + left + 1 + after);
    } else {
      TimesStep(u, rebuild, output, Spawned(left), start, Go, 1);
    }
  }

  lemma GoesToWork(u: Unit, rebuild: bool, output: string, left: nat, start: Slot, n: nat)
    requires Needed(rebuild, start)
    requires n == (if start.registered then 3 else 2) + if u.PackageUnit? then 0 else 1
    ensures TaskAfter(u, rebuild, output, Spawned(left), start, Times(Go, n)) ==
      (Task(if u.PackageUnit? then Run else Download, left, false),
       Slot(false, if u.PackageUnit? then None else Some(Partial(""))))
  {
    TimesStep(u, rebuild, output, Spawned(left), start, Go, n);
    if start.registered {
      TimesStep(u, rebuild, output, Task(Remove, left, false), start, Go, n - 1);
    }
    var clean := Slot(false, if start.registered then None else start.file);
    TimesStep(u, rebuild, output, Task(Clean, left, false), clean, Go, if start.registered then n - 2 else n - 1);
    if u.FetchUnit? {
      TimesStep(u, rebuild, output, Task(Request, left, false), Slot(false, None), Go, 1);
    }
  }

  lemma GoesHome(u: Unit, rebuild: bool, output: string, t: Task, s: Slot, n: nat)
    requires s.file.Some? && if n == 2 then t.pc.Inspect? else n == 1 && t.pc.Register?
    ensures TaskAfter(u, rebuild, output, t, s, Times(Go, n)) == (t.(pc := Done), s.(registered := true))
  {
    TimesStep(u, rebuild, output, t, s, Go, n);
    if t.pc.Inspect? {
      TimesStep(u, rebuild, output, t.(pc := Register), s, Go, 1);
    }
  }

  /** No script of the task touches the output: at `Run` the script ends well in silence or fails. */
  predicate NeverWrites(u: Unit, rebuild: bool, output: string, t: Task, s: Slot, es: seq<Event>)
    decreases |es|
  {
    es == []
    || (var (t', s') := StepTask(u, rebuild, output, t, es[0], s);
        (t.pc.Run? ==> es[0].NoOutput? || es[0].Error?) && NeverWrites(u, rebuild, output, t', s', es[1..]))
  }

  /** Where a package that never writes can stand. */
  predicate Silent(rebuild: bool, t: Task, s: Slot) {
    && !t.wrote && !t.pc.Register? && !t.pc.Done? && !t.pc.Request? && !t.pc.Download?
    && (t.pc.Run? || t.pc.Inspect? ==> s.file.None?)
    && (s.registered ==> rebuild && (t.pc.Check? || t.pc.Remove? || t.pc.Failed? || t.pc.Torn?))
  }

  /** A package whose script leaves no output is never registered and never ends well. */
  lemma {:induction false} SilenceNeverEndsWell(u: Unit, rebuild: bool, output: string, t: Task, s: Slot,
                                                es: seq<Event>)
    requires u.PackageUnit? && Silent(rebuild, t, s) && NeverWrites(u, rebuild, output, t, s, es)
    ensures var (t', s') := TaskAfter(u, rebuild, output, t, s, es);
      Silent(rebuild, t', s') && (!s.registered ==> !s'.registered)
    decreases |es|
  {
    if es != [] {
      var (t', s') := StepTask(u, rebuild, output, t, es[0], s);
      SilenceNeverEndsWell(u, rebuild, output, t', s', es[1..]);
    }
  }

  /** In particular: check, clean, a silent script of any length, and the look for the output fails. */
  lemma NoOutputFails(u: Unit, rebuild: bool, output: string, left: nat, file: Option<File>, last: Event)
    requires u.PackageUnit?
    ensures TaskAfter(u, rebuild, output, Spawned(left), Slot(false, file),
                      [Go, Go] + Times(NoOutput, left + 1) + [last])
      == (Task(Failed, 0, false), Slot(false, None))
  {
    var loop := Times(NoOutput, left + 1);
    TaskAfterJoin(u, rebuild, output, Spawned(left), Slot(false, file), [Go, Go], loop);
    TaskAfterJoin(u, rebuild, output, Spawned(left), Slot(false, file), [Go, Go] + loop, [last]);
    assert Times(Go, 2) == [Go, Go] && [last][1..] == [];
    TimesStep(u, rebuild, output, Spawned(left), Slot(false, file), Go, 2);
    TimesStep(u, rebuild, output, Task(Clean, left, false), Slot(false, file), Go, 1);
    LoopIsSilent(u, rebuild, output, Task(Run, left, false), Slot(false, None));
  }

  lemma {:induction false} LoopIsSilent(u: Unit, rebuild: bool, output: string, t: Task, s: Slot)
    requires t.pc.Run? && !t.wrote
    ensures TaskAfter(u, rebuild, output, t, s, Times(NoOutput, t.left + 1)) == (t.(pc := Inspect, left := 0), s)
    decreases t.left
  {
    assert Times(NoOutput, t.left + 1)[1..] == Times(NoOutput, t.left);
    if t.left > 0 {
      LoopIsSilent(u, rebuild, output, t.(left := t.left - 1), s);
    }
  }
}
