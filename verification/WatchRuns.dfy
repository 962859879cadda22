/** What the watcher keeps over every run of calls, exceptions, crashes and restarts. */
module WatchRuns {
  import opened Options
  import opened Sequences
  import opened Watcher

  /** A call of process_one, with the restart that follows when it is killed; or a restart
      between calls. A restart can read the state file, or is kept from it from outside. */
  datatype Event = Call(job: string, env: Env, readable: bool) | Restart(readable: bool)

  function Start(): WatchState {
    WatchState(map[], Absent, Absent, [], [])
  }

  predicate Reboots(s: WatchState, ev: Event) {
    ev.Restart? || OutcomeOf(s, ev.job, ev.env) == Killed
  }

  /** The state before the restart, if there is one. */
  function Worked(s: WatchState, ev: Event): WatchState {
    if ev.Call? then After(s, ev.job, ev.env) else s
  }

  function Next(s: WatchState, ev: Event): WatchState {
    if Reboots(s, ev) then Reboot(Worked(s, ev), ev.readable) else Worked(s, ev)
  }

  function Run(s: WatchState, events: seq<Event>): WatchState {
    if events == [] then s else Next(Run(s, events[..|events| - 1]), events[|events| - 1])
  }

  lemma {:induction false} RunConcat(s: WatchState, a: seq<Event>, b: seq<Event>)
    ensures Run(s, a + b) == Run(Run(s, a), b)
    decreases |b|
  {
    if b == [] {
      assert a + b == a;
    } else {
      RunConcat(s, a, b[..|b| - 1]);
      assert (a + b)[..|a + b| - 1] == a + b[..|b| - 1];
    }
  }

  // ----- what one call does

  /** The call finds out a category: the classifier's answer for a log with text, unknown for a blank one. */
  predicate Classified(env: Env, c: Category) {
    (env.fetch == Fetched(Text) && env.answer == Some(c)) || (env.fetch == Fetched(Blank) && c == Unknown)
  }

  /** A classified failure goes to the main log, an infra issue to the infra log as well, then to memory and
      to the state file. */
  lemma ClassifiedCall(s: WatchState, job: string, env: Env, c: Category)
    requires job !in s.memory && Classified(env, c) && env.fault == NoFault
    ensures var e := Entry(job, env.stamp, c);
            var s' := After(s, job, env);
            && s'.mainLog == s.mainLog + [Full(e)]
            && s'.infraLog == (if c == InfraIssue then s.infraLog + [Full(e)] else s.infraLog)
            && s'.memory == s.memory[job := e] && s'.stateFile == Whole(s'.memory) && s'.tmpFile == Absent
    ensures OutcomeOf(s, job, env) == Done
  {
  }

  /** A fault leaves what was written by then. */
  lemma FaultyCall(s: WatchState, job: string, env: Env, c: Category)
    requires job !in s.memory && Classified(env, c) && env.fault != NoFault
    ensures var e := Entry(job, env.stamp, c);
            var memory := s.memory[job := e];
            var s' := After(s, job, env);
            match env.fault.at
            case BeforeMainLog => s' == s
            case InMainLog => s' == s.(mainLog := s.mainLog + [Part(e)])
            case AfterMainLog => s' == s.(mainLog := s.mainLog + [Full(e)])
            case InInfraLog =>
              s' == s.(mainLog := s.mainLog + [Full(e)],
                       infraLog := if c == InfraIssue then s.infraLog + [Part(e)] else s.infraLog)
            case _ =>
              && s'.mainLog == s.mainLog + [Full(e)]
              && s'.infraLog == (if c == InfraIssue then s.infraLog + [Full(e)] else s.infraLog)
              && s'.memory == (if env.fault.at == AfterInfraLog then s.memory else memory)
              && s'.tmpFile == (if env.fault.at == InTmpFile then Torn
                                else if env.fault.at == AfterTmpFile then Whole(memory)
                                else if env.fault.at == AfterReplace then Absent else s.tmpFile)
              && s'.stateFile == if env.fault.at == AfterReplace then Whole(memory) else s.stateFile
    ensures OutcomeOf(s, job, env) == if env.fault.Kill? then Killed else Raised
  {
  }

  /** A job in memory, a log that cannot be fetched or is a stub, and a classifier that raises change nothing,
      so a later poll takes the job up again. */
  lemma IdleCall(s: WatchState, job: string, env: Env)
    requires job in s.memory || env.fetch == FetchRaises || env.fetch == Fetched(RateLimitStub) ||
             (env.fetch == Fetched(Text) && env.answer == None)
    ensures After(s, job, env) == s
    ensures OutcomeOf(s, job, env) ==
            if job !in s.memory && env.fetch == Fetched(Text) then Raised else Skipped
  {
  }

  // ----- what one poll does

  /** A poll looks at the jobs that are not in memory, in their order. */
  lemma {:induction false} UnseenAre(s: WatchState, jobs: seq<Job>)
    ensures forall x :: x in Unseen(s, jobs) <==> x in jobs && x.id !in s.memory
    ensures Subsequence(Unseen(s, jobs), jobs)
    decreases |jobs|
  {
    if jobs != [] {
      var init, last := jobs[..|jobs| - 1], jobs[|jobs| - 1];
      UnseenAre(s, init);
      assert jobs == init + [last];
      SubsequenceAppend(Unseen(s, init), init, last);
      assert Unseen(s, init) + [] == Unseen(s, init);
    }
  }

  /** Of these it gets to the first stopAt. */
  lemma DueAre(s: WatchState, p: Poll)
    ensures Due(s, p) <= Unseen(s, p.jobs)
    ensures |Due(s, p)| == if p.stopAt < |Unseen(s, p.jobs)| then p.stopAt else |Unseen(s, p.jobs)|
  {
  }

  /** The call is going to find out a category, and nothing cuts it short. */
  ghost predicate Undisturbed(env: Env) {
    env.fault == NoFault && exists c :: Classified(env, c)
  }

  lemma UndisturbedCall(s: WatchState, job: Job, id: string)
    requires Undisturbed(job.env)
    ensures id in After(s, job.id, job.env).memory <==> id in s.memory || id == job.id
    ensures OutcomeOf(s, job.id, job.env) != Killed
  {
    var c :| Classified(job.env, c);
    if job.id in s.memory {
      IdleCall(s, job.id, job.env);
    } else {
      ClassifiedCall(s, job.id, job.env, c);
    }
  }

  lemma {:induction false} JobsRemembered(s: WatchState, jobs: seq<Job>, id: string)
    requires forall i :: 0 <= i < |jobs| ==> Undisturbed(jobs[i].env)
    ensures id in AfterJobs(s, jobs).memory <==> id in s.memory || exists i :: 0 <= i < |jobs| && jobs[i].id == id
    decreases |jobs|
  {
    if jobs != [] {
      var rest := jobs[1..];
      assert forall i :: 0 < i < |jobs| ==> jobs[i] == rest[i - 1];
      assert forall i :: 0 <= i < |rest| ==> rest[i] == jobs[i + 1];
      UndisturbedCall(s, jobs[0], id);
      JobsRemembered(After(s, jobs[0].id, jobs[0].env), rest, id);
    }
  }

  /** Nothing is passed over: after an undisturbed poll every job it was given is remembered. */
  lemma PollTakesAll(s: WatchState, p: Poll, i: nat)
    requires i < |p.jobs| && p.stopAt >= |Unseen(s, p.jobs)|
    requires forall j :: 0 <= j < |p.jobs| ==> Undisturbed(p.jobs[j].env)
    ensures p.jobs[i].id in AfterPoll(s, p).memory
  {
    var unseen := Unseen(s, p.jobs);
    UnseenAre(s, p.jobs);
    assert Due(s, p) == unseen;
    forall j | 0 <= j < |unseen|
      ensures Undisturbed(unseen[j].env)
    {
      assert unseen[j] in unseen;
      var k :| 0 <= k < |p.jobs| && p.jobs[k] == unseen[j];
    }
    JobsRemembered(s, unseen, p.jobs[i].id);
    if p.jobs[i].id !in s.memory {
      assert p.jobs[i] in unseen;
    }
  }

  // ----- polls are runs

  lemma RunOne(s: WatchState, ev: Event)
    ensures Run(s, [ev]) == Next(s, ev)
  {
    assert [ev][..0] == [];
  }

  /** The calls of a poll, up to one that is killed. */
  lemma {:induction false} JobsAreRun(s: WatchState, jobs: seq<Job>, readable: bool) returns (calls: seq<Event>)
    ensures Run(s, calls) == if SomeKills(s, jobs) then Reboot(AfterJobs(s, jobs), readable) else AfterJobs(s, jobs)
    ensures |calls| <= |jobs| && (!SomeKills(s, jobs) ==> |calls| == |jobs|)
    ensures forall i :: 0 <= i < |calls| ==> calls[i] == Call(jobs[i].id, jobs[i].env, readable)
    decreases |jobs|
  {
    if jobs == [] {
      return [];
    }
    var first := Call(jobs[0].id, jobs[0].env, readable);
    RunOne(s, first);
    if OutcomeOf(s, jobs[0].id, jobs[0].env) == Killed {
      return [first];
    }
    var rest := JobsAreRun(After(s, jobs[0].id, jobs[0].env), jobs[1..], readable);
    RunConcat(s, [first], rest);
    calls := [first] + rest;
  }

  /** The main loop, over any number of polls and processes, is a run. */
  lemma {:induction false} PollsAreRun(s: WatchState, polls: seq<Poll>) returns (events: seq<Event>)
    ensures Run(s, events) == AfterPolls(s, polls)
    decreases |polls|
  {
    events := [];
    if polls != [] {
      var front, p := polls[..|polls| - 1], polls[|polls| - 1];
      var before := AfterPolls(s, front);
      var earlier := PollsAreRun(s, front);
      var calls := JobsAreRun(before, Due(before, p), p.readable);
      var ending := if Ends(before, p) then [Restart(p.readable)] else [];
      RunConcat(before, calls, ending);
      EndingRun(Run(before, calls), p.readable);
      RunConcat(s, earlier, calls + ending);
      events := earlier + (calls + ending);
    }
  }

  lemma EndingRun(s: WatchState, readable: bool)
    ensures Run(s, [Restart(readable)]) == Reboot(s, readable)
    ensures Reboot(Reboot(s, readable), readable) == Reboot(s, readable)
  {
    RunOne(s, Restart(readable));
  }

  // ----- the state file

  predicate Saves(s: WatchState, ev: Event) {
    ev.Call? && Writes(s, ev.job, ev.env).Some? && Progress(ev.env.fault) == 8
  }

  /** The memory of the process at the last save that was completed. */
  function LastSaved(s: WatchState, events: seq<Event>): map<string, Entry> {
    if events == [] then TableOf(s.stateFile) else
      var front, ev := events[..|events| - 1], events[|events| - 1];
      if Saves(Run(s, front), ev) then Worked(Run(s, front), ev).memory else LastSaved(s, front)
  }

  /** Wherever calls are cut short, the state file is never torn and holds what the last completed save
      was given; so that is what a restart loads, unless it is kept from reading the file. */
  lemma {:induction false} RunRestores(events: seq<Event>)
    ensures var s := Run(Start(), events);
            && s.stateFile != Torn && TableOf(s.stateFile) == LastSaved(Start(), events)
            && Reboot(s, true).memory == LastSaved(Start(), events)
    decreases |events|
  {
    if events != [] { RunRestores(events[..|events| - 1]); }
  }

  // ----- both logs against the tables

  /** The entries that a log holds in full. */
  function Entries(log: seq<Line>): seq<Entry> {
    if log == [] then []
    else Entries(log[..|log| - 1]) + if log[|log| - 1].Full? then [log[|log| - 1].entry] else []
  }

  lemma EntriesAppended(log: seq<Line>, e: Entry, steps: int)
    ensures Entries(Appended(log, e, steps)) == Entries(log) + if steps >= 2 then [e] else []
  {
    assert forall l :: (log + [l])[..|log|] == log;
    assert Entries(log) + [] == Entries(log);
  }

  /** What a call adds to the entries of both logs. */
  lemma EffectsEntries(s: WatchState, e: Entry, k: nat)
    ensures Entries(Effects(s, e, k).mainLog) == Entries(s.mainLog) + if k >= 2 then [e] else []
    ensures Entries(Effects(s, e, k).infraLog) ==
            Entries(s.infraLog) + if k >= 4 && e.category == InfraIssue then [e] else []
  {
    EntriesAppended(s.mainLog, e, k);
    EntriesAppended(s.infraLog, e, k - 2);
    assert Entries(s.infraLog) + [] == Entries(s.infraLog);
  }

  /** The entry has reached the logs it belongs in. */
  ghost predicate Logged(s: WatchState, e: Entry) {
    e in Entries(s.mainLog) && (e.category == InfraIssue ==> e in Entries(s.infraLog))
  }

  ghost predicate AllLogged(s: WatchState, table: map<string, Entry>) {
    forall job :: job in table ==> table[job].job == job && Logged(s, table[job])
  }

  ghost predicate LogsOk(s: WatchState) {
    && AllLogged(s, s.memory) && AllLogged(s, TableOf(s.tmpFile)) && AllLogged(s, TableOf(s.stateFile))
    && Subsequence(Entries(s.infraLog), Entries(s.mainLog))
  }

  lemma LoggedLater(s: WatchState, e: Entry, k: nat, table: map<string, Entry>)
    requires AllLogged(s, table)
    ensures AllLogged(Effects(s, e, k), table)
  {
    EffectsEntries(s, e, k);
  }

  lemma LoggedUpdate(s: WatchState, e: Entry, k: nat, table: map<string, Entry>)
    requires AllLogged(s, table) && k >= 4
    ensures AllLogged(Effects(s, e, k), table[e.job := e])
  {
    EffectsEntries(s, e, k);
  }

  lemma EffectsSubsequence(s: WatchState, e: Entry, k: nat)
    requires Subsequence(Entries(s.infraLog), Entries(s.mainLog))
    ensures Subsequence(Entries(Effects(s, e, k).infraLog), Entries(Effects(s, e, k).mainLog))
  {
    EffectsEntries(s, e, k);
    SubsequenceAppend(Entries(s.infraLog), Entries(s.mainLog), e);
    assert Entries(s.infraLog) + [] == Entries(s.infraLog) && Entries(s.mainLog) + [] == Entries(s.mainLog);
  }

  lemma EffectsKeepLogs(s: WatchState, e: Entry, k: nat)
    requires LogsOk(s)
    ensures LogsOk(Effects(s, e, k))
  {
    LoggedLater(s, e, k, s.memory);
    LoggedLater(s, e, k, TableOf(s.tmpFile));
    LoggedLater(s, e, k, TableOf(s.stateFile));
    if k >= 4 { LoggedUpdate(s, e, k, s.memory); }
    EffectsSubsequence(s, e, k);
  }

  lemma NextKeepsLogs(s: WatchState, ev: Event)
    requires LogsOk(s)
    ensures LogsOk(Next(s, ev))
  {
    if ev.Call? {
      var e := Writes(s, ev.job, ev.env);
      if e.Some? { EffectsKeepLogs(s, e.value, Progress(ev.env.fault)); }
    }
  }

  /** In every state of every run each remembered or saved job has its entry in the main log, and in
      the infra log if it was classified so; and the infra log is a subsequence of the main log. */
  lemma {:induction false} RunKeepsLogs(events: seq<Event>)
    ensures LogsOk(Run(Start(), events))
    decreases |events|
  {
    if events != [] {
      RunKeepsLogs(events[..|events| - 1]);
      NextKeepsLogs(Run(Start(), events[..|events| - 1]), events[|events| - 1]);
    }
  }

  // ----- the state file against the memory

  ghost predicate SavedIsRemembered(s: WatchState) {
    forall job :: job in TableOf(s.stateFile) ==> job in s.memory
  }

  /** One event keeps every saved job in memory exactly when it does not start a process that is kept
      from reading a state file with something in it. */
  lemma SavedStaysRemembered(s: WatchState, ev: Event)
    requires SavedIsRemembered(s)
    ensures SavedIsRemembered(Next(s, ev)) <==>
            !(Reboots(s, ev) && !ev.readable && TableOf(Worked(s, ev).stateFile) != map[])
  {
    if Reboots(s, ev) && !ev.readable && TableOf(Worked(s, ev).stateFile) != map[] {
      var job :| job in TableOf(Worked(s, ev).stateFile);
    }
  }

  /** No restart of the run is kept from reading the state file. */
  ghost predicate Undamaged(events: seq<Event>) {
    forall i :: 0 <= i < |events| ==> events[i].readable
  }

  /** Crashes alone never lose a saved job from memory. */
  lemma {:induction false} RunSavedIsRemembered(s: WatchState, events: seq<Event>)
    requires SavedIsRemembered(s) && Undamaged(events)
    ensures SavedIsRemembered(Run(s, events))
    decreases |events|
  {
    if events != [] {
      RunSavedIsRemembered(s, events[..|events| - 1]);
      SavedStaysRemembered(Run(s, events[..|events| - 1]), events[|events| - 1]);
    }
  }

  // ----- how often a job is logged

  function Count(log: seq<Entry>, job: string): nat {
    if log == [] then 0 else Count(log[..|log| - 1], job) + if log[|log| - 1].job == job then 1 else 0
  }

  /** How many entries of the job the main log holds. */
  function Logs(s: WatchState, job: string): nat {
    Count(Entries(s.mainLog), job)
  }

  lemma EffectsLogs(s: WatchState, e: Entry, k: nat, job: string)
    ensures Logs(Effects(s, e, k), job) == Logs(s, job) + if k >= 2 && e.job == job then 1 else 0
  {
    EffectsEntries(s, e, k);
    var log := Entries(s.mainLog);
    assert (log + [e])[..|log|] == log && log + [] == log;
  }

  /** The call logs the job but stops before remembering it. */
  predicate StopsAfterLog(s: WatchState, ev: Event, job: string) {
    ev.Call? && ev.job == job && Writes(s, job, ev.env).Some? && 2 <= Progress(ev.env.fault) < 5
  }

  /** A restart loses a job that was only in memory. */
  predicate Forgets(s: WatchState, ev: Event, job: string) {
    Reboots(s, ev) && job in Worked(s, ev).memory && (ev.readable ==> job !in TableOf(Worked(s, ev).stateFile))
  }

  /** A restart finds a saved job again that was dropped by one that could not read the file. */
  predicate Regains(s: WatchState, ev: Event, job: string) {
    Reboots(s, ev) && ev.readable && job !in Worked(s, ev).memory && job in TableOf(Worked(s, ev).stateFile)
  }

  /** How many events of the run interrupted the job after it was logged. */
  function Interruptions(s: WatchState, events: seq<Event>, job: string): nat {
    if events == [] then 0 else
      var before, ev := Run(s, events[..|events| - 1]), events[|events| - 1];
      Interruptions(s, events[..|events| - 1], job) +
      if StopsAfterLog(before, ev, job) || Forgets(before, ev, job) then 1 else 0
  }

  function Regained(s: WatchState, events: seq<Event>, job: string): nat {
    if events == [] then 0 else
      var before, ev := Run(s, events[..|events| - 1]), events[|events| - 1];
      Regained(s, events[..|events| - 1], job) + if Regains(before, ev, job) then 1 else 0
  }

  function Remembered(s: WatchState, job: string): nat {
    if job in s.memory then 1 else 0
  }

  /** A call adds an entry for a job it does not remember, and remembers it once both logs are written. */
  lemma WorkedCounts(s: WatchState, ev: Event, job: string)
    ensures Logs(Worked(s, ev), job) - Logs(s, job) ==
            Remembered(Worked(s, ev), job) - Remembered(s, job) + if StopsAfterLog(s, ev, job) then 1 else 0
  {
    if ev.Call? {
      var e := Writes(s, ev.job, ev.env);
      if e.Some? { EffectsLogs(s, e.value, Progress(ev.env.fault), job); }
    }
  }

  lemma NextCounts(s: WatchState, ev: Event, job: string)
    ensures Logs(Next(s, ev), job) + (if Regains(s, ev, job) then 1 else 0) + Remembered(s, job) ==
            Logs(s, job) + Remembered(Next(s, ev), job) +
            if StopsAfterLog(s, ev, job) || Forgets(s, ev, job) then 1 else 0
  {
    WorkedCounts(s, ev, job);
    if StopsAfterLog(s, ev, job) {
      assert job !in Worked(s, ev).memory;
    }
  }

  /** The number of entries of a job is exactly one if it is remembered, plus the interruptions that hit
      it after it was logged, less the times a restart found it again. */
  lemma {:induction false} EntriesExactly(events: seq<Event>, job: string)
    ensures var s := Run(Start(), events);
            Logs(s, job) + Regained(Start(), events, job) ==
            Remembered(s, job) + Interruptions(Start(), events, job)
    decreases |events|
  {
    if events != [] {
      EntriesExactly(events[..|events| - 1], job);
      NextCounts(Run(Start(), events[..|events| - 1]), events[|events| - 1], job);
    }
  }

  /** Without damage from outside nothing is ever regained. */
  lemma {:induction false} NothingRegained(events: seq<Event>, job: string)
    requires Undamaged(events)
    ensures Regained(Start(), events, job) == 0
    decreases |events|
  {
    if events != [] {
      var front, ev := events[..|events| - 1], events[|events| - 1];
      NothingRegained(front, job);
      RunSavedIsRemembered(Start(), front);
      var s := Run(Start(), front);
      if ev.Call? {
        assert job in TableOf(Worked(s, ev).stateFile) ==> job in Worked(s, ev).memory;
      }
    }
  }

  /** So a job has at most one entry more than the interruptions that hit it after it was logged, and
      exactly one if it is remembered and was never interrupted. */
  lemma EntriesAtMost(events: seq<Event>, job: string)
    requires Undamaged(events)
    ensures var s := Run(Start(), events);
            && Logs(s, job) <= 1 + Interruptions(Start(), events, job)
            && (job in s.memory ==> Logs(s, job) == 1 + Interruptions(Start(), events, job))
  {
    EntriesExactly(events, job);
    NothingRegained(events, job);
  }

  /** Deduplication: a job that is saved and remembered is never logged again, whatever follows,
      unless the state file is damaged from outside. */
  lemma {:induction false} NeverAgain(s: WatchState, events: seq<Event>, job: string)
    requires Undamaged(events) && job in TableOf(s.stateFile) && job in s.memory
    ensures var s' := Run(s, events);
            job in TableOf(s'.stateFile) && job in s'.memory && Logs(s', job) == Logs(s, job)
    decreases |events|
  {
    if events != [] {
      var front, ev := events[..|events| - 1], events[|events| - 1];
      NeverAgain(s, front, job);
      WorkedCounts(Run(s, front), ev, job);
    }
  }

  // ----- what the infra log misses

  function CountInfra(log: seq<Entry>): nat {
    if log == [] then 0 else CountInfra(log[..|log| - 1]) + if log[|log| - 1].category == InfraIssue then 1 else 0
  }

  /** The call logs an infra issue in full but does not get it into the infra log. */
  predicate StopsBetweenLogs(s: WatchState, ev: Event) {
    ev.Call? && 2 <= Progress(ev.env.fault) < 4 &&
    Writes(s, ev.job, ev.env).Some? && Writes(s, ev.job, ev.env).value.category == InfraIssue
  }

  function InfraMissed(s: WatchState, events: seq<Event>): nat {
    if events == [] then 0 else
      var before, ev := Run(s, events[..|events| - 1]), events[|events| - 1];
      InfraMissed(s, events[..|events| - 1]) + if StopsBetweenLogs(before, ev) then 1 else 0
  }

  /** How many infra issues the main log has that the infra log has not. */
  function Lacking(s: WatchState): int {
    CountInfra(Entries(s.mainLog)) - |Entries(s.infraLog)|
  }

  lemma EffectsLacking(s: WatchState, e: Entry, k: nat)
    ensures Lacking(Effects(s, e, k)) == Lacking(s) + if 2 <= k < 4 && e.category == InfraIssue then 1 else 0
  {
    EffectsEntries(s, e, k);
    var log := Entries(s.mainLog);
    assert (log + [e])[..|log|] == log && log + [] == log;
  }

  lemma LackingNext(s: WatchState, ev: Event)
    ensures Lacking(Next(s, ev)) == Lacking(s) + if StopsBetweenLogs(s, ev) then 1 else 0
  {
    if ev.Call? && Writes(s, ev.job, ev.env).Some? {
      EffectsLacking(s, Writes(s, ev.job, ev.env).value, Progress(ev.env.fault));
    }
  }

  /** The infra log lacks exactly the infra issues whose call stopped between the two logs. */
  lemma {:induction false} InfraExactly(events: seq<Event>)
    ensures Lacking(Run(Start(), events)) == InfraMissed(Start(), events)
    decreases |events|
  {
    if events != [] {
      InfraExactly(events[..|events| - 1]);
      LackingNext(Run(Start(), events[..|events| - 1]), events[|events| - 1]);
    }
  }
}
