/** The failure watcher's bookkeeping: an in-memory table, a state file written through a
    temporary file, and two append-only logs, under exceptions and crashes at any point. */
module Watcher {
  import opened Options
  import opened Arithmetic

  datatype Category = InfraIssue | User | Unknown

  /** One classified failure as it is written to the logs and remembered. */
  datatype Entry = Entry(job: string, stamp: nat, category: Category)

  /** What an append leaves in a log: the text of an entry, or the part that was written. */
  datatype Line = Full(entry: Entry) | Part(entry: Entry)

  /** A file that is replaced as a whole; torn while it is being written. */
  datatype File = Absent | Whole(table: map<string, Entry>) | Torn

  datatype LogText = RateLimitStub | Blank | Text
  datatype Fetch = FetchRaises | Fetched(log: LogText)

  /** Where an exception or a crash strikes: before, between and in the middle of the writes. */
  datatype Point = BeforeMainLog | InMainLog | AfterMainLog | InInfraLog | AfterInfraLog
                 | AfterMemory | InTmpFile | AfterTmpFile | AfterReplace
  datatype Fault = NoFault | Raise(at: Point) | Kill(at: Point)

  /** What the surroundings do to one call: the log fetched, the classifier's answer (None
      when it raises), the time, and the fault if any. */
  datatype Env = Env(fetch: Fetch, answer: Option<Category>, stamp: nat, fault: Fault)

  datatype Outcome = Skipped | Done | Raised | Killed

  datatype WatchState = WatchState(memory: map<string, Entry>, tmpFile: File, stateFile: File,
                                   mainLog: seq<Line>, infraLog: seq<Line>)

  // ----- one call of process_one

  /** How far a call gets. */
  function Progress(fault: Fault): nat {
    if fault.NoFault? then 8 else
      match fault.at
      case BeforeMainLog => 0
      case InMainLog => 1
      case AfterMainLog => 2
      case InInfraLog => 3
      case AfterInfraLog => 4
      case AfterMemory => 5
      case InTmpFile => 6
      case AfterTmpFile => 7
      case AfterReplace => 8
  }

  /** A log to which an entry was written not at all, in part, or in full. */
  function Appended(log: seq<Line>, e: Entry, steps: int): seq<Line> {
    if steps <= 0 then log else if steps == 1 then log + [Part(e)] else log + [Full(e)]
  }

  /** The state of a call for an entry that gets as far as k. */
  function Effects(s: WatchState, e: Entry, k: nat): WatchState {
    var memory := if k >= 5 then s.memory[e.job := e] else s.memory;
    WatchState(memory,
               if k <= 5 then s.tmpFile else if k == 6 then Torn else if k == 7 then Whole(memory) else Absent,
               if k >= 8 then Whole(memory) else s.stateFile,
               Appended(s.mainLog, e, k),
               if e.category == InfraIssue then Appended(s.infraLog, e, k - 2) else s.infraLog)
  }

  /** The entry a call is going to write; None when it skips the job or the classifier raises. */
  function Writes(s: WatchState, job: string, env: Env): Option<Entry> {
    if job in s.memory || env.fetch.FetchRaises? || env.fetch.log == RateLimitStub then None
    else if env.fetch.log == Blank then Some(Entry(job, env.stamp, Unknown))
    else if env.answer == None then None
    else Some(Entry(job, env.stamp, env.answer.value))
  }

  function After(s: WatchState, job: string, env: Env): WatchState {
    var e := Writes(s, job, env);
    if e == None then s else Effects(s, e.value, Progress(env.fault))
  }

  function OutcomeOf(s: WatchState, job: string, env: Env): Outcome {
    if job in s.memory || env.fetch.FetchRaises? || env.fetch.log == RateLimitStub then Skipped
    else if Writes(s, job, env) == None || env.fault.Raise? then Raised
    else if env.fault.Kill? then Killed
    else Done
  }

  /** The table a file holds; none when it is missing or torn. */
  function TableOf(f: File): map<string, Entry> {
    if f.Whole? then f.table else map[]
  }

  /** A new process loads the state file. It starts empty when the file is missing or torn, or when
      something outside the watcher keeps it from being read. */
  function Reboot(s: WatchState, readable: bool): WatchState {
    s.(memory := if readable then TableOf(s.stateFile) else map[])
  }

  // ----- the program

  class Process {
    var state: map<string, Entry>
    var tmpFile: File
    var stateFile: File
    var outputFile: seq<Line>
    var infraOutputFile: seq<Line>

    ghost function View(): WatchState
      reads this
    {
      WatchState(state, tmpFile, stateFile, outputFile, infraOutputFile)
    }

    constructor ()
      ensures View() == WatchState(map[], Absent, Absent, [], [])
    {
      state, tmpFile, stateFile, outputFile, infraOutputFile := map[], Absent, Absent, [], [];
    }

    method LoadState(readable: bool)
      modifies this`state
      ensures View() == Reboot(old(View()), readable)
    {
      state := map[];
      if stateFile != Absent && readable && stateFile != Torn {
        state := stateFile.table;
      }
    }

    /** The main log first, then the infra log when the entry is an infra issue. */
    method AppendOutput(entry: Entry, fault: Fault) returns (stopped: bool)
      modifies this`outputFile, this`infraOutputFile
      ensures stopped <==> Progress(fault) <= 4
      ensures View() == Effects(old(View()), entry, Min(Progress(fault), 4))
    {
      if fault != NoFault && fault.at == BeforeMainLog {
        return true;
      }
      if fault != NoFault && fault.at == InMainLog {
        outputFile := outputFile + [Part(entry)];
        return true;
      }
      outputFile := outputFile + [Full(entry)];
      if fault != NoFault && fault.at == AfterMainLog {
        return true;
      }
      if entry.category == InfraIssue {
        if fault != NoFault && fault.at == InInfraLog {
          infraOutputFile := infraOutputFile + [Part(entry)];
          return true;
        }
        infraOutputFile := infraOutputFile + [Full(entry)];
      }
      stopped := fault != NoFault && (fault.at == InInfraLog || fault.at == AfterInfraLog);
    }

    /** The state goes to a temporary file, which then takes the place of the state file. */
    method SaveState(fault: Fault)
      modifies this`tmpFile, this`stateFile
      ensures Progress(fault) <= 5 ==> tmpFile == old(tmpFile) && stateFile == old(stateFile)
      ensures Progress(fault) == 6 ==> tmpFile == Torn && stateFile == old(stateFile)
      ensures Progress(fault) == 7 ==> tmpFile == Whole(state) && stateFile == old(stateFile)
      ensures Progress(fault) == 8 ==> tmpFile == Absent && stateFile == Whole(state)
    {
      if fault != NoFault && Progress(fault) <= 5 {
        return;
      }
      tmpFile := Torn;
      if fault != NoFault && fault.at == InTmpFile {
        return;
      }
      tmpFile := Whole(state);
      if fault != NoFault && fault.at == AfterTmpFile {
        return;
      }
      stateFile, tmpFile := tmpFile, Absent;
    }

    method ProcessOne(job: string, env: Env) returns (r: Outcome)
      modifies this
      ensures View() == After(old(View()), job, env)
      ensures r == OutcomeOf(old(View()), job, env)
    {
      if job in state {
        return Skipped;
      }
      if env.fetch == FetchRaises {
        return Skipped;
      }
      if env.fetch.log == RateLimitStub {
        return Skipped;
      }
      var category;
      if env.fetch.log == Blank {
        category := Unknown;
      } else {
        if env.answer == None {
          return Raised;
        }
        category := env.answer.value;
      }
      var entry := Entry(job, env.stamp, category);
      r := if env.fault.NoFault? then Done else if env.fault.Raise? then Raised else Killed;
      var stopped := AppendOutput(entry, env.fault);
      if stopped {
        return;
      }
      state := state[job := entry];
      SaveState(env.fault);
    }

    /** One turn of the outer loop of main. The stop flag is set when stopAt of the new jobs are done;
        an exception ends the job, a crash the process. */
    method PollOnce(p: Poll) returns (ends: bool)
      modifies this
      ensures View() == AfterPoll(old(View()), p)
      ensures ends == Ends(old(View()), p)
    {
      var newJobs := [];
      for i := 0 to |p.jobs|
        invariant View() == old(View())
        invariant newJobs == Unseen(View(), p.jobs[..i])
      {
        assert p.jobs[..i + 1][..i] == p.jobs[..i];
        if p.jobs[i].id !in state {
          newJobs := newJobs + [p.jobs[i]];
        }
      }
      assert p.jobs[..|p.jobs|] == p.jobs;
      ghost var m := Min(p.stopAt, |newJobs|);
      ghost var goal, dies := AfterJobs(View(), newJobs[..m]), SomeKills(View(), newJobs[..m]);
      for i := 0 to |newJobs|
        invariant i <= m
        invariant AfterJobs(View(), newJobs[i..m]) == goal && SomeKills(View(), newJobs[i..m]) == dies
      {
        if i >= p.stopAt {
          break;
        }
        assert newJobs[i..m][1..] == newJobs[i + 1..m];
        var r := ProcessOne(newJobs[i].id, newJobs[i].env);
        if r == Killed {
          return true;
        }
      }
      ends := p.stopAt <= |newJobs|;
    }

    /** main, with a new process for each one that was killed or stopped. */
    method Watch(polls: seq<Poll>)
      modifies this
      ensures View() == AfterPolls(old(View()), polls)
    {
      for i := 0 to |polls|
        invariant View() == AfterPolls(old(View()), polls[..i])
      {
        assert polls[..i + 1][..i] == polls[..i];
        var ends := PollOnce(polls[i]);
        if ends {
          LoadState(polls[i].readable);
        }
      }
      assert polls[..|polls|] == polls;
    }
  }

  // ----- polls

  datatype Job = Job(id: string, env: Env)

  /** What happens in one poll: the failed jobs the query returns, the number of new ones done when
      the stop flag is set (if it is), and whether the next process, if this one ends, can read the
      state file. */
  datatype Poll = Poll(jobs: seq<Job>, stopAt: nat, readable: bool)

  /** The jobs that are not in memory when the poll starts. */
  function Unseen(s: WatchState, jobs: seq<Job>): seq<Job> {
    if jobs == [] then []
    else Unseen(s, jobs[..|jobs| - 1]) + if jobs[|jobs| - 1].id in s.memory then [] else [jobs[|jobs| - 1]]
  }

  /** The jobs the poll gets to unless it is killed. */
  function Due(s: WatchState, p: Poll): seq<Job> {
    var unseen := Unseen(s, p.jobs);
    unseen[..Min(p.stopAt, |unseen|)]
  }

  function AfterJobs(s: WatchState, jobs: seq<Job>): WatchState
    decreases |jobs|
  {
    if jobs == [] then s else
      var s' := After(s, jobs[0].id, jobs[0].env);
      if OutcomeOf(s, jobs[0].id, jobs[0].env) == Killed then s' else AfterJobs(s', jobs[1..])
  }

  /** Some call is hit by a crash. */
  predicate SomeKills(s: WatchState, jobs: seq<Job>)
    decreases |jobs|
  {
    jobs != [] &&
    (OutcomeOf(s, jobs[0].id, jobs[0].env) == Killed || SomeKills(After(s, jobs[0].id, jobs[0].env), jobs[1..]))
  }

  function AfterPoll(s: WatchState, p: Poll): WatchState {
    AfterJobs(s, Due(s, p))
  }

  /** The process does not outlive the poll. */
  predicate Ends(s: WatchState, p: Poll) {
    SomeKills(s, Due(s, p)) || p.stopAt <= |Unseen(s, p.jobs)|
  }

  function AfterPolls(s: WatchState, polls: seq<Poll>): WatchState {
    if polls == [] then s else
      var before, p := AfterPolls(s, polls[..|polls| - 1]), polls[|polls| - 1];
      if Ends(before, p) then Reboot(AfterPoll(before, p), p.readable) else AfterPoll(before, p)
  }
}
