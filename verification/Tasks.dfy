/**
  One build task (`Build for Package`, src/build_package.rs, and `Build for
  Fetch`, src/build_fetch.rs) as a sequence of atomic steps: the database is
  locked for a single call at a time, so the tasks of a wave interleave
  between these steps.
 */
module Tasks {
  import opened Common
  import opened Units
  import opened Database

  /**
    Where a task stands. `Run` and `Download` are the two ways to produce.
    `Torn` is a failure that has damaged the output of a path and left it
    registered; the program reports it like any other failure.
   */
  datatype Pc =
    | Check | Remove | Clean
    | Run | Inspect
    | Request | Download
    | Register | Done | Failed | Torn

  /** `left` counts the turns of its work loop still to come; `wrote`, whether its script touched the output. */
  datatype Task = Task(pc: Pc, left: nat, wrote: bool) {
    predicate HasFailed() {
      pc.Failed? || pc.Torn?
    }

    predicate Ended() {
      pc.Done? || HasFailed()
    }

    /** Every step of a task that has not ended uses some of this up. */
    function Fuel(): nat {
      match pc
      case Check => 7 + left
      case Remove => 6 + left
      case Clean => 5 + left
      case Request => 4 + left
      case Run => 3 + left
      case Download => 3 + left
      case Inspect => 2
      case Register => 1
      case Done => 0
      case Failed => 0
      case Torn => 0
    }
  }

  function Spawned(left: nat): Task {
    Task(Check, left, false)
  }

  /**
    What the outside world answers to the next operation: it goes through, it
    writes part of the output, the script ends well without having touched the
    output, it fails, possibly leaving something behind, or the database fails.
   */
  datatype Event = Go | Wrote(bytes: string) | NoOutput | Error(left: Option<string>) | DbError

  /** How a failing or succeeding operation answers a request to delete. */
  function CleanReply(e: Event): OsReply {
    match e
    case Error(Some(left)) => Breaks(left)
    case Error(None) => Refuses
    case _ => Works
  }

  function Leftover(left: Option<string>): Option<File> {
    match left
    case None => None
    case Some(bytes) => Some(Partial(bytes))
  }

  /** One atomic step of the task of unit `u`; `output` is what producing `u` yields now. */
  function StepTask(u: Unit, rebuild: bool, output: string, t: Task, e: Event, s: Slot): (Task, Slot) {
    match t.pc
    case Check =>
      if e.Error? || e.DbError? then (t.(pc := Failed), s)
      else if s.registered then
        if rebuild then (t.(pc := Remove), s) else (t.(pc := Done), s)
      else (t.(pc := Clean), s)
    case Remove =>
      var s' := Removed(s, CleanReply(e), !e.DbError?);
      (t.(pc := if !e.Error? && !e.DbError? then Clean else if s' == s then Failed else Torn), s')
    case Clean =>
      if e.Error? then (t.(pc := Failed), s.(file := Cleaned(s.file, CleanReply(e))))
      else (t.(pc := if u.PackageUnit? then Run else Request), s.(file := None))
    case Run =>
      if e.Error? then (t.(pc := Failed), s.(file := Leftover(e.left)))
      else if t.left > 0 then
        (t.(left := t.left - 1, wrote := t.wrote || e.Wrote?),
         if e.Wrote? then s.(file := Some(Partial(e.bytes))) else s)
      else if e.NoOutput? && !t.wrote then (t.(pc := Inspect), s)
      else (t.(pc := Inspect), s.(file := Some(Complete(output))))
    case Inspect =>
      if e.Error? || s.file.None? then (t.(pc := Failed), s)
      else (t.(pc := Register), s)
    case Request =>
      if e.Error? then (t.(pc := Failed), s)
      else (t.(pc := Download), s.(file := Some(Partial(""))))
    case Download =>
      if e.Error? then (t.(pc := Failed), s)
      else if t.left > 0 then (t.(left := t.left - 1), if e.Wrote? then s.(file := Some(Partial(e.bytes))) else s)
      else (t.(pc := Register), s.(file := Some(Complete(output))))
    case Register =>
      if e.Error? || e.DbError? then (t.(pc := Failed), s)
      else (t.(pc := Done), s.(registered := true))
    case Done => (t, s)
    case Failed => (t, s)
    case Torn => (t, s)
  }

  /** The step that turns the work of a task into a finished output. */
  predicate Produces(t: Task, e: Event) {
    t.left == 0 && !e.Error? && (t.pc.Download? || (t.pc.Run? && !(e.NoOutput? && !t.wrote)))
  }

  function Needed(rebuild: bool, start: Slot): bool {
    !start.registered || rebuild
  }

  /** What a successful task leaves: a new output if one was needed, otherwise what was there. */
  function SlotAfter(rebuild: bool, start: Slot, output: string): Slot {
    if Needed(rebuild, start) then Slot(true, Some(Complete(output))) else start
  }

  /**
    What holds between any two steps of a task that began at `start`, when
    producing its unit yields `output`; `made` counts its productions.
   */
  predicate TaskInv(rebuild: bool, start: Slot, output: string, t: Task, s: Slot, made: nat) {
    match t.pc
    case Check => s == start && made == 0 && !t.wrote
    case Remove => s == start && s.registered && rebuild && made == 0 && !t.wrote
    case Clean => !s.registered && Needed(rebuild, start) && made == 0 && !t.wrote
    case Run =>
      && !s.registered && Needed(rebuild, start) && made == 0
      && if t.wrote then s.file.Some? && s.file.value.Partial? else s.file.None?
    case Inspect => !s.registered && Needed(rebuild, start)
      && (if s.file.Some? then s.file == Some(Complete(output)) && made == 1 else made == 0)
    case Request => !s.registered && Needed(rebuild, start) && made == 0 && s.file.None?
    case Download =>
      !s.registered && Needed(rebuild, start) && made == 0 && s.file.Some? && s.file.value.Partial?
    case Register => !s.registered && Needed(rebuild, start) && s.file == Some(Complete(output)) && made == 1
    case Done => TaskDone(rebuild, start, output, s, made)
    case Failed =>
      && (s.registered ==> s == start) && made <= 1
      && (!Needed(rebuild, start) ==> s == start && made == 0)
    case Torn =>
      && start.registered && rebuild && made == 0
      && s.registered && !SoundSlot(s)
  }

  /** A successful task leaves its outcome registered and produced it only if it had to. */
  predicate TaskDone(rebuild: bool, start: Slot, output: string, s: Slot, made: nat) {
    s == SlotAfter(rebuild, start, output) && made == if Needed(rebuild, start) then 1 else 0
  }

  lemma TaskStepInv(u: Unit, rebuild: bool, start: Slot, output: string, t: Task, e: Event, s: Slot, made: nat)
    requires TaskInv(rebuild, start, output, t, s, made)
    ensures var (t', s') := StepTask(u, rebuild, output, t, e, s);
      TaskInv(rebuild, start, output, t', s', made + if Produces(t, e) then 1 else 0)
  {
  }

  lemma StepUsesFuel(u: Unit, rebuild: bool, output: string, t: Task, e: Event, s: Slot)
    requires !t.Ended()
    ensures StepTask(u, rebuild, output, t, e, s).0.Fuel() < t.Fuel()
  {
  }

  /** The same step on the database connection, one locked call at a time. */
  method Advance(conn: DbConnection, u: Unit, rebuild: bool, output: string, t: Task, e: Event) returns (t': Task)
    requires conn.Valid()
    modifies conn
    ensures conn.Valid()
    ensures t' == StepTask(u, rebuild, output, t, e, old(At(conn.View(), u.StorePath()))).0
    ensures conn.View() == Put(old(conn.View()), u.StorePath(),
              StepTask(u, rebuild, output, t, e, old(At(conn.View(), u.StorePath()))).1)
  {
    var path := u.StorePath();
    ghost var s := At(conn.View(), path);
    PutSame(conn.View(), path);
    t' := t;
    match t.pc {
      case Check =>
        var known := conn.IsDbPath(path);
        t' := t.(pc := if e.Error? || e.DbError? then Failed
                       else if !known then Clean
                       else if rebuild then Remove
                       else Done);
      case Remove =>
        var files := conn.files;
        var ok := conn.Remove(path, CleanReply(e), !e.DbError?);
        assert conn.files == files ==> At(conn.View(), path).file == s.file;
        t' := t.(pc := if ok then Clean else if conn.files == files then Failed else Torn);
      case Clean =>
        var ok := conn.CleanPath(path, CleanReply(e));
        t' := t.(pc := if !ok then Failed else if u.PackageUnit? then Run else Request);
      case Run =>
        if e.Error? {
          conn.files := match e.left
            case None => conn.files - {path}
            case Some(bytes) => conn.files[path := Partial(bytes)];
          t' := t.(pc := Failed);
        } else if t.left > 0 {
          if e.Wrote? {
            conn.files := conn.files[path := Partial(e.bytes)];
          }
          t' := t.(left := t.left - 1, wrote := t.wrote || e.Wrote?);
        } else {
          if t.wrote || !e.NoOutput? {
            conn.files := conn.files[path := Complete(output)];
          }
          t' := t.(pc := Inspect);
        }
      case Inspect =>
        t' := t.(pc := if e.Error? || path !in conn.files then Failed else Register);
      case Request =>
        if e.Error? {
          t' := t.(pc := Failed);
        } else {
          conn.files := conn.files[path := Partial("")];
          t' := t.(pc := Download);
        }
      case Download =>
        if e.Error? {
          t' := t.(pc := Failed);
        } else if t.left > 0 {
          if e.Wrote? {
            conn.files := conn.files[path := Partial(e.bytes)];
          }
          t' := t.(left := t.left - 1);
        } else {
          conn.files := conn.files[path := Complete(output)];
          t' := t.(pc := Register);
        }
      case Register =>
        if e.Error? || e.DbError? {
          t' := t.(pc := Failed);
        } else {
          conn.Add(path);
          t' := t.(pc := Done);
        }
      case Done =>
      case Failed =>
      case Torn =>
    }
  }

  lemma PutSame(w: World, path: string)
    ensures Put(w, path, At(w, path)) == w
  {
  }

  // ----------------------------------------------------------- termination

  /** The work left in the spawned tasks of some units. */
  function TotalFuel(nodes: seq<Unit>, futs: map<Unit, Task>): nat {
    if nodes == [] then 0
    else TotalFuel(nodes[1..], futs) + if nodes[0] in futs then 1 + futs[nodes[0]].Fuel() else 0
  }

  lemma {:induction false} FuelDrops(nodes: seq<Unit>, futs: map<Unit, Task>, futs': map<Unit, Task>, u: Unit)
    requires u in futs && futs'.Keys <= futs.Keys
    requires forall v :: v in futs' && v != u ==> futs'[v] == futs[v]
    requires u in futs' ==> futs'[u].Fuel() < futs[u].Fuel()
    ensures TotalFuel(nodes, futs') <= TotalFuel(nodes, futs)
    ensures u in nodes ==> TotalFuel(nodes, futs') < TotalFuel(nodes, futs)
  {
    if nodes != [] {
      FuelDrops(nodes[1..], futs, futs', u);
      assert u in nodes ==> u == nodes[0] || u in nodes[1..];
    }
  }
}
