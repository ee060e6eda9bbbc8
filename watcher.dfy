/**
 * The watch mode of watcher/watcher.go: a loop that restarts a debounce timer
 * on every write to the database's write-ahead log and runs a backup once
 * the log has been quiet for the debounce period.
 *
 * The loop's `select` over the context, the watcher's two channels and the
 * timer goroutine becomes a sequence of `Input`s handled one at a time.  Time
 * is a count of nanoseconds.  The backup itself is not run here: a timer
 * firing carries the error the backup returned, which the loop only logs.
 */
module Watcher {
  import opened Wrappers

  /** The file whose writes trigger a backup. */
  const WalFileName: string := "db.sqlite3-wal"

  /** logCooldown: one second. */
  const LogCooldown: nat := 1_000_000_000

  datatype FsOp = Create | Write | Remove | Rename | Chmod

  /** An fsnotify event: the path it names and the operations it reports. */
  datatype Event = Event(name: string, ops: set<FsOp>)

  /** What the loop's `select` receives. */
  datatype Input =
    | Notify(event: Event, at: nat)          // an event from watcher.Events, received at `at`
    | Fire(at: nat, outcome: Option<Error>)  // a timer set for `at` expires; the backup returns `outcome`
    | WatchError(error: Error)               // an error from watcher.Errors
    | Cancel(cause: Error)                   // ctx.Done(), with ctx.Err()
    | EventsClosed                           // watcher.Events was closed
    | ErrorsClosed                           // watcher.Errors was closed

  /** What the loop does that can be observed: log a change, or run a backup. */
  datatype Effect = Logged(at: nat) | BackupRan(at: nat, outcome: Option<Error>)

  /** The value `runLoop` returns. */
  datatype Exit = Exit(returned: Option<Error>)

  /**
   * The loop's state: the deadline of the armed timer, the time of the last
   * logged change, what it has done so far, and how it ended, if it has.
   */
  datatype State = State(pending: Option<nat>, lastLog: Option<nat>, effects: seq<Effect>, exit: Option<Exit>)

  const Initial: State := State(None, None, [], None)

  /** An event that restarts the timer: the watched name, written or created. */
  predicate Qualifies(target: string, e: Event): (b: bool)
    ensures b <==> e.name == target && (Write in e.ops || Create in e.ops)
    ensures e.ops <= {Remove, Rename, Chmod} ==> !b
  {
    var hits := e.ops * {Write, Create};
    assert hits != {} <==> Write in e.ops || Create in e.ops by {
      if hits != {} {
        var op :| op in hits;
      }
      assert Write in e.ops ==> Write in hits;
      assert Create in e.ops ==> Create in hits;
    }
    e.name == target && hits != {}
  }

  /** When a timer armed at `at` expires: `time.AfterFunc` fires at once for a non-positive delay. */
  function Deadline(at: nat, debounce: int): (r: nat)
    ensures r >= at
    ensures debounce > 0 ==> r == at + debounce
    ensures debounce <= 0 ==> r == at
  {
    if debounce > 0 then at + debounce else at
  }

  /** A change is logged when none has been, or when the last one is a cooldown old. */
  predicate ShouldLog(lastLog: Option<nat>, at: nat): (b: bool)
    ensures lastLog.None? ==> b
    ensures lastLog.Some? && at < lastLog.value + LogCooldown ==> !b
    ensures lastLog.Some? && at >= lastLog.value + LogCooldown ==> b
  {
    lastLog.None? || at - lastLog.value >= LogCooldown
  }

  /** One pass of the loop. */
  function Step(target: string, debounce: int, s: State, input: Input): (r: State)
    ensures s.exit.Some? ==> r == s
    ensures |s.effects| <= |r.effects| <= |s.effects| + 1 && r.effects[..|s.effects|] == s.effects
    ensures s.exit.None? && r.exit.Some? ==> r.pending.None? && r.effects == s.effects
  {
    if s.exit.Some? then s
    else match input
      case Notify(e, at) =>
        if !Qualifies(target, e) then s
        else if ShouldLog(s.lastLog, at) then
          State(Some(Deadline(at, debounce)), Some(at), s.effects + [Logged(at)], None)
        else
          State(Some(Deadline(at, debounce)), s.lastLog, s.effects, None)
      case Fire(at, outcome) =>
        if s.pending == Some(at) then s.(pending := None, effects := s.effects + [BackupRan(at, outcome)])
        else s
      case WatchError(_) => s
      case Cancel(cause) => s.(pending := None, exit := Some(Exit(Some(cause))))
      case EventsClosed => s.(pending := None, exit := Some(Exit(None)))
      case ErrorsClosed => s.(pending := None, exit := Some(Exit(None)))
  }

  /** The loop over a sequence of inputs. */
  function Run(target: string, debounce: int, s: State, inputs: seq<Input>): (r: State)
    ensures |s.effects| <= |r.effects| <= |s.effects| + |inputs| && r.effects[..|s.effects|] == s.effects
    ensures s.exit.Some? ==> r == s
    decreases |inputs|
  {
    if inputs == [] then s
    else Run(target, debounce, Step(target, debounce, s, inputs[0]), inputs[1..])
  }

  // ---------------------------------------------------------------------
  // Properties of the loop
  // ---------------------------------------------------------------------

  /** An event for another file, or one that neither writes nor creates, changes nothing. */
  lemma OtherEventsIgnored(target: string, debounce: int, s: State, e: Event, at: nat)
    requires !Qualifies(target, e)
    ensures Step(target, debounce, s, Notify(e, at)) == s
  {
  }

  /**
   * A qualifying event replaces whatever timer was armed by one expiring a
   * debounce period after it, runs no backup, and logs exactly when the
   * cooldown allows; the log time moves only when a line is logged.
   */
  lemma EventRestartsTimer(target: string, debounce: int, s: State, e: Event, at: nat)
    requires s.exit.None? && Qualifies(target, e)
    ensures var t := Step(target, debounce, s, Notify(e, at));
            && t.pending == Some(Deadline(at, debounce))
            && t.exit.None?
            && (ShouldLog(s.lastLog, at) ==> t.effects == s.effects + [Logged(at)] && t.lastLog == Some(at))
            && (!ShouldLog(s.lastLog, at) ==> t.effects == s.effects && t.lastLog == s.lastLog)
  {
  }

  /** The first qualifying event is always logged. */
  lemma FirstEventLogged(target: string, debounce: int, e: Event, at: nat)
    requires Qualifies(target, e)
    ensures Step(target, debounce, Initial, Notify(e, at)).effects == [Logged(at)]
  {
  }

  /** Only the armed timer runs the backup; a stopped or replaced one does nothing. */
  lemma OnlyArmedTimerFires(target: string, debounce: int, s: State, at: nat, outcome: Option<Error>)
    ensures var t := Step(target, debounce, s, Fire(at, outcome));
            && (s.exit.None? && s.pending == Some(at) ==>
                  t == s.(pending := None, effects := s.effects + [BackupRan(at, outcome)]))
            && (!(s.exit.None? && s.pending == Some(at)) ==> t == s)
  {
  }

  /** A failed backup is only logged: the loop goes on. */
  lemma BackupErrorKeepsLooping(target: string, debounce: int, s: State, at: nat, e: Error)
    ensures Step(target, debounce, s, Fire(at, Some(e))).exit == s.exit
  {
  }

  /** A watcher error leaves the state as it was. */
  lemma WatchErrorIgnored(target: string, debounce: int, s: State, e: Error)
    ensures Step(target, debounce, s, WatchError(e)) == s
  {
  }

  /**
   * Cancellation stops the timer and returns ctx.Err(); a closed channel
   * stops it and returns nil.
   */
  lemma ShutdownStopsTimer(target: string, debounce: int, s: State, input: Input)
    requires s.exit.None? && (input.Cancel? || input.EventsClosed? || input.ErrorsClosed?)
    ensures var t := Step(target, debounce, s, input);
            && t.pending.None? && t.effects == s.effects
            && t.exit == Some(Exit(if input.Cancel? then Some(input.cause) else None))
  {
  }

  /** Once the loop has returned, nothing more happens: no backup runs. */
  lemma {:induction false} ExitIsFinal(target: string, debounce: int, s: State, inputs: seq<Input>)
    requires s.exit.Some?
    ensures Run(target, debounce, s, inputs) == s
    decreases |inputs|
  {
    if inputs != [] {
      ExitIsFinal(target, debounce, s, inputs[1..]);
    }
  }

  /** Running two input sequences one after the other. */
  lemma {:induction false} RunAppend(target: string, debounce: int, s: State, a: seq<Input>, b: seq<Input>)
    ensures Run(target, debounce, s, a + b) == Run(target, debounce, Run(target, debounce, s, a), b)
    decreases |a|
  {
    if a != [] {
      assert (a + b)[0] == a[0];
      assert (a + b)[1..] == a[1..] + b;
      RunAppend(target, debounce, Step(target, debounce, s, a[0]), a[1..], b);
    } else {
      assert a + b == b;
    }
  }

  /** Qualifying events at times `times`, in order. */
  function Burst(e: Event, times: seq<nat>): seq<Input> {
    if times == [] then [] else Burst(e, times[..|times| - 1]) + [Notify(e, times[|times| - 1])]
  }

  /**
   * A burst of qualifying events only logs, and leaves one timer armed: the
   * one of its last event.
   */
  lemma {:induction false} BurstArmsLastTimer(target: string, debounce: int, s: State, e: Event, times: seq<nat>)
    requires s.exit.None? && Qualifies(target, e) && times != []
    ensures var t := Run(target, debounce, s, Burst(e, times));
            && t.exit.None?
            && t.pending == Some(Deadline(times[|times| - 1], debounce))
            && |t.effects| >= |s.effects| && t.effects[..|s.effects|] == s.effects
            && forall k | |s.effects| <= k < |t.effects| :: t.effects[k].Logged?
    decreases |times|
  {
    var init := times[..|times| - 1];
    var last := times[|times| - 1];
    RunAppend(target, debounce, s, Burst(e, init), [Notify(e, last)]);
    var mid := Run(target, debounce, s, Burst(e, init));
    if init != [] {
      BurstArmsLastTimer(target, debounce, s, e, init);
    }
    EventRestartsTimer(target, debounce, mid, e, last);
  }

  /**
   * However many qualifying events arrive, the backup runs once, at the
   * last event's time plus the debounce period, when no further event comes.
   */
  lemma BurstRunsOneBackup(target: string, debounce: int, s: State, e: Event, times: seq<nat>, outcome: Option<Error>)
    requires s.exit.None? && Qualifies(target, e) && times != []
    ensures var fire := Deadline(times[|times| - 1], debounce);
            var t := Run(target, debounce, s, Burst(e, times) + [Fire(fire, outcome)]);
            && t.pending.None? && t.exit.None?
            && |t.effects| > |s.effects| && t.effects[..|s.effects|] == s.effects
            && t.effects[|t.effects| - 1] == BackupRan(fire, outcome)
            && forall k | |s.effects| <= k < |t.effects| - 1 :: t.effects[k].Logged?
  {
    var fire := Deadline(times[|times| - 1], debounce);
    RunAppend(target, debounce, s, Burst(e, times), [Fire(fire, outcome)]);
    BurstArmsLastTimer(target, debounce, s, e, times);
  }

  /**
   * With a 100 ns quiet period, writes at 0, 50 and 80 back up once, at 180;
   * the timers of the first two writes were replaced and do nothing.
   */
  lemma QuietPeriodExample(target: string, outcome: Option<Error>)
    ensures var e := Event(target, {Write});
            var t := Run(target, 100, Initial,
                         [Notify(e, 0), Notify(e, 50), Notify(e, 80),
                          Fire(100, outcome), Fire(150, outcome), Fire(180, outcome)]);
            t.effects == [Logged(0), BackupRan(180, outcome)] && t.pending.None?
  {
    var e := Event(target, {Write});
    var f1, f2, f3 := Fire(100, outcome), Fire(150, outcome), Fire(180, outcome);
    var armed := State(Some(180), Some(0), [Logged(0)], None);
    var s1 := State(Some(100), Some(0), [Logged(0)], None);
    var s2 := State(Some(150), Some(0), [Logged(0)], None);
    assert Step(target, 100, Initial, Notify(e, 0)) == s1;
    assert Step(target, 100, s1, Notify(e, 50)) == s2;
    assert Step(target, 100, s2, Notify(e, 80)) == armed;
    assert Step(target, 100, armed, f1) == armed;
    assert Step(target, 100, armed, f2) == armed;
    var done := Step(target, 100, armed, f3);
    assert done.effects == [Logged(0), BackupRan(180, outcome)] && done.pending.None?;
    assert Run(target, 100, done, []) == done;
    assert Run(target, 100, armed, [f3]) == done;
    assert Run(target, 100, armed, [f2, f3]) == done;
    assert Run(target, 100, armed, [f1, f2, f3]) == done;
    assert Run(target, 100, s2, [Notify(e, 80), f1, f2, f3]) == done;
    assert Run(target, 100, s1, [Notify(e, 50), Notify(e, 80), f1, f2, f3]) == done;
  }

  // ---------------------------------------------------------------------
  // The loop, step by step
  // ---------------------------------------------------------------------

  /** runLoop's variables: `debounceTimer` becomes `pending`, `lastLogTime` `lastLog`. */
  class Debouncer {
    const target: string
    const debounce: int
    var pending: Option<nat>
    var lastLog: Option<nat>
    var effects: seq<Effect>
    var exit: Option<Exit>

    function Current(): State
      reads this
    {
      State(pending, lastLog, effects, exit)
    }

    constructor(target: string, debounce: int)
      ensures this.target == target && this.debounce == debounce
      ensures Current() == Initial
    {
      this.target := target;
      this.debounce := debounce;
      pending := None;
      lastLog := None;
      effects := [];
      exit := None;
    }

    /** The `watcher.Events` case. */
    method HandleEvent(e: Event, at: nat)
      requires exit.None?
      modifies this
      ensures Current() == Step(target, debounce, old(Current()), Notify(e, at))
    {
      if e.name != target {
        return;
      }
      if !(Write in e.ops || Create in e.ops) {
        return;
      }
      pending := Some(Deadline(at, debounce));
      if lastLog.None? || at - lastLog.value >= LogCooldown {
        effects := effects + [Logged(at)];
        lastLog := Some(at);
      }
    }

    /** The `time.AfterFunc` callback of a timer set for `at`. */
    method Tick(at: nat, outcome: Option<Error>)
      requires exit.None?
      modifies this
      ensures Current() == Step(target, debounce, old(Current()), Fire(at, outcome))
    {
      if pending == Some(at) {
        effects := effects + [BackupRan(at, outcome)];
        pending := None;
      }
    }

    /** The `ctx.Done()` case. */
    method ContextDone(cause: Error)
      requires exit.None?
      modifies this
      ensures Current() == Step(target, debounce, old(Current()), Cancel(cause))
    {
      pending := None;
      exit := Some(Exit(Some(cause)));
    }

    /** A closed channel. */
    method ChannelClosed()
      requires exit.None?
      modifies this
      ensures Current() == Step(target, debounce, old(Current()), EventsClosed)
      ensures Current() == Step(target, debounce, old(Current()), ErrorsClosed)
    {
      pending := None;
      exit := Some(Exit(None));
    }

    /** `runLoop`: handles the inputs in order until it returns. */
    method RunLoop(inputs: seq<Input>) returns (result: Option<Exit>)
      modifies this
      ensures Current() == Run(target, debounce, old(Current()), inputs)
      ensures result == exit
    {
      var i := 0;
      while i < |inputs|
        invariant 0 <= i <= |inputs|
        invariant Run(target, debounce, Current(), inputs[i..]) == Run(target, debounce, old(Current()), inputs)
      {
        if exit.Some? {
          ExitIsFinal(target, debounce, Current(), inputs[i..]);
          return exit;
        }
        assert inputs[i..][1..] == inputs[i + 1..];
        match inputs[i] {
          case Notify(e, at) => HandleEvent(e, at);
          case Fire(at, outcome) => Tick(at, outcome);
          case WatchError(_) =>
          case Cancel(cause) => ContextDone(cause);
          case EventsClosed => ChannelClosed();
          case ErrorsClosed => ChannelClosed();
        }
        i := i + 1;
      }
      return exit;
    }
  }

  // ---------------------------------------------------------------------
  // Setting the watch up
  // ---------------------------------------------------------------------

  /** `walFilePath`: the path of the write-ahead log in the data directory. */
  function WalPath(dataDir: string): (r: string)
    ensures InDirectory(dataDir, r) && r[|dataDir| + 1..] == WalFileName
  {
    dataDir + "/" + WalFileName
  }

  /** `name` is a path inside the directory `dir`. */
  predicate InDirectory(dir: string, name: string) {
    |dir| < |name| && name[..|dir| + 1] == dir + "/"
  }

  /**
   * The filter as written compares event names with the bare file name, but
   * every event names a path inside the watched directory, and the bare name
   * has no separator: no event ever qualifies.
   */
  lemma BareNameNeverMatches(dataDir: string, e: Event)
    requires InDirectory(dataDir, e.name)
    ensures !Qualifies(WalFileName, e)
  {
    assert e.name[|dataDir|] == '/' by {
      assert e.name[..|dataDir| + 1][|dataDir|] == (dataDir + "/")[|dataDir|];
    }
    assert '/' !in WalFileName;
  }

  /** All events come from a watch on `dir`. */
  predicate FromDirectory(dir: string, inputs: seq<Input>) {
    forall i | 0 <= i < |inputs| && inputs[i].Notify? :: InDirectory(dir, inputs[i].event.name)
  }

  /** As written, the watch never runs a backup, whatever happens in the directory. */
  lemma {:induction false} AsWrittenNeverBacksUp(dataDir: string, debounce: int, s: State, inputs: seq<Input>)
    requires FromDirectory(dataDir, inputs) && s.pending.None?
    ensures Run(WalFileName, debounce, s, inputs).effects == s.effects
    ensures Run(WalFileName, debounce, s, inputs).pending.None?
    decreases |inputs|
  {
    if inputs != [] {
      if inputs[0].Notify? {
        BareNameNeverMatches(dataDir, inputs[0].event);
      }
      var t := Step(WalFileName, debounce, s, inputs[0]);
      assert FromDirectory(dataDir, inputs[1..]) by {
        forall i | 0 <= i < |inputs[1..]| && inputs[1..][i].Notify?
          ensures InDirectory(dataDir, inputs[1..][i].event.name)
        {
          assert inputs[1..][i] == inputs[i + 1];
        }
      }
      AsWrittenNeverBacksUp(dataDir, debounce, t, inputs[1..]);
    }
  }

  /**
   * Compared with the full path, an event qualifies exactly when it writes
   * or creates the log inside the data directory.
   */
  lemma FullPathMatches(dataDir: string, e: Event)
    requires InDirectory(dataDir, e.name)
    ensures Qualifies(WalPath(dataDir), e)
            <==> e.name[|dataDir| + 1..] == WalFileName && (Write in e.ops || Create in e.ops)
  {
    assert e.name == e.name[..|dataDir| + 1] + e.name[|dataDir| + 1..];
  }

  /**
   * `Watch`: creating the watcher and adding the data directory can fail
   * before the loop starts; otherwise the loop runs over `inputs`, with the
   * filter on the full path of the write-ahead log.  `None` means the loop
   * has not returned after these inputs.
   */
  method Watch(dataDir: string, debounce: int, newWatcherErr: Option<Error>, addErr: Option<Error>,
               inputs: seq<Input>) returns (result: Option<Exit>)
    ensures newWatcherErr.Some? ==> result == Some(Exit(Some(Wrapped("creating fsnotify watcher", newWatcherErr.value))))
    ensures newWatcherErr.None? && addErr.Some?
            ==> result == Some(Exit(Some(Wrapped("adding watch on data directory", addErr.value))))
    ensures newWatcherErr.None? && addErr.None?
            ==> result == Run(WalPath(dataDir), debounce, Initial, inputs).exit
  {
    var walFilePath := dataDir + "/" + WalFileName;
    if newWatcherErr.Some? {
      return Some(Exit(Some(Wrapped("creating fsnotify watcher", newWatcherErr.value))));
    }
    if addErr.Some? {
      return Some(Exit(Some(Wrapped("adding watch on data directory", addErr.value))));
    }
    var loop := new Debouncer(walFilePath, debounce);
    result := loop.RunLoop(inputs);
  }
}
