/** The lock hierarchy of the daemon and why it cannot deadlock. A thread is a list of
    lock operations; threads may start at any time and are scheduled in any order. */
module LockOrder {

  datatype Lock =
    | StatesMap              // the map of mailbox states
    | Outer(mailbox: string) // one per mailbox
    | ConfigWrite            // process-wide
    | Cache(mailbox: string) // the dedup cache of a mailbox
    | Handle                 // the config handle

  datatype Program =
    | End
    | Acquire(lock: Lock, rest: Program)
    | Release(lock: Lock, rest: Program)
    | Work(rest: Program)

  type Ranking = Lock -> nat

  /** Locks are taken in rising rank, released only when held, and all released at the end. */
  ghost predicate Disciplined(todo: Program, held: set<Lock>, rank: Ranking) {
    match todo
    case End => held == {}
    case Acquire(l, rest) => (forall h :: h in held ==> rank(h) < rank(l)) && Disciplined(rest, held + {l}, rank)
    case Release(l, rest) => l in held && Disciplined(rest, held - {l}, rank)
    case Work(rest) => Disciplined(rest, held, rank)
  }

  datatype Thread = Thread(todo: Program, held: set<Lock>)

  datatype State = State(threads: seq<Thread>, owner: map<Lock, nat>)

  const IDLE := State([], map[])

  predicate Unfinished(s: State, t: nat) {
    t < |s.threads| && s.threads[t].todo != End
  }

  predicate CanRun(s: State, t: nat) {
    Unfinished(s, t) && (s.threads[t].todo.Acquire? ==> s.threads[t].todo.lock !in s.owner)
  }

  datatype Event = Start(prog: Program) | Go(t: nat)

  predicate Possible(s: State, e: Event) {
    e.Go? ==> CanRun(s, e.t)
  }

  function Next(s: State, e: Event): State
    requires Possible(s, e)
  {
    match e
    case Start(prog) => s.(threads := s.threads + [Thread(prog, {})])
    case Go(t) =>
      var thread := s.threads[t];
      match thread.todo
      case Acquire(l, rest) => State(s.threads[t := Thread(rest, thread.held + {l})], s.owner[l := t])
      case Release(l, rest) => State(s.threads[t := Thread(rest, thread.held - {l})], s.owner - {l})
      case Work(rest) => s.(threads := s.threads[t := thread.(todo := rest)])
  }

  ghost predicate Runs(s: State, events: seq<Event>)
    decreases |events|
  {
    events == [] || (Possible(s, events[0]) && Runs(Next(s, events[0]), events[1..]))
  }

  ghost function Run(s: State, events: seq<Event>): State
    requires Runs(s, events)
    decreases |events|
  {
    if events == [] then s else Run(Next(s, events[0]), events[1..])
  }

  ghost predicate StartsDisciplined(events: seq<Event>, rank: Ranking) {
    forall e :: e in events && e.Start? ==> Disciplined(e.prog, {}, rank)
  }

  /** The owner map and what the threads hold say the same. */
  ghost predicate Inv(s: State, rank: Ranking) {
    && (forall t :: 0 <= t < |s.threads| ==> Disciplined(s.threads[t].todo, s.threads[t].held, rank))
    && LocksMatch(s)
  }

  ghost predicate LocksMatch(s: State) {
    && (forall l, t :: 0 <= t < |s.threads| ==> (l in s.threads[t].held <==> l in s.owner && s.owner[l] == t))
    && (forall l :: l in s.owner ==> s.owner[l] < |s.threads|)
  }

  lemma LocksStayMatched(s: State, e: Event)
    requires LocksMatch(s) && Possible(s, e)
    requires e.Go? && s.threads[e.t].todo.Release? ==> s.threads[e.t].todo.lock in s.threads[e.t].held
    ensures LocksMatch(Next(s, e))
  {
    var n := Next(s, e);
    forall l, t | 0 <= t < |n.threads|
      ensures l in n.threads[t].held <==> l in n.owner && n.owner[l] == t
    {
      if t < |s.threads| {
        assert l in s.threads[t].held <==> l in s.owner && s.owner[l] == t;
      }
    }
  }

  lemma EventKeeps(s: State, e: Event, rank: Ranking)
    requires Inv(s, rank) && Possible(s, e) && (e.Start? ==> Disciplined(e.prog, {}, rank))
    ensures Inv(Next(s, e), rank)
  {
    hide LocksMatch;
    LocksStayMatched(s, e);
    var n := Next(s, e);
    forall t | 0 <= t < |n.threads|
      ensures Disciplined(n.threads[t].todo, n.threads[t].held, rank)
    {
      if t < |s.threads| {
        assert Disciplined(s.threads[t].todo, s.threads[t].held, rank);
      }
    }
  }

  lemma {:induction false} RunKeeps(s: State, events: seq<Event>, rank: Ranking)
    requires Inv(s, rank) && Runs(s, events) && StartsDisciplined(events, rank)
    ensures Inv(Run(s, events), rank)
    decreases |events|
  {
    hide Inv, Possible, Next, Disciplined;
    if events != [] {
      assert events[0] in events;
      EventKeeps(s, events[0], rank);
      RunKeeps(Next(s, events[0]), events[1..], rank);
    }
  }

  /** Following the chain of waiting threads upwards in rank ends at one that can run. */
  lemma {:induction false} WaitersLeadUp(s: State, t: nat, rank: Ranking, bound: nat) returns (runner: nat)
    requires Inv(s, rank) && Unfinished(s, t) && forall l :: rank(l) <= bound
    ensures CanRun(s, runner)
    decreases if CanRun(s, t) then 0 else bound + 1 - rank(s.threads[t].todo.lock)
  {
    if CanRun(s, t) {
      return t;
    }
    var u := s.owner[s.threads[t].todo.lock];
    assert s.threads[t].todo.lock in s.threads[u].held;
    runner := WaitersLeadUp(s, u, rank, bound);
  }

  /** No lock is ever held by two threads. */
  lemma MutualExclusion(events: seq<Event>, rank: Ranking, t: nat, u: nat)
    requires Runs(IDLE, events) && StartsDisciplined(events, rank)
    requires t < u < |Run(IDLE, events).threads|
    ensures Run(IDLE, events).threads[t].held !! Run(IDLE, events).threads[u].held
  {
    hide Runs, Run, Disciplined;
    RunKeeps(IDLE, events, rank);
    var s := Run(IDLE, events);
    forall l | l in s.threads[t].held
      ensures l !in s.threads[u].held
    {
      assert s.owner[l] == t;
    }
  }

  /** Deadlock freedom: whenever some thread is unfinished, some thread can run. */
  lemma NoDeadlock(events: seq<Event>, rank: Ranking, bound: nat, t: nat)
    requires (forall l :: rank(l) <= bound) && Runs(IDLE, events) && StartsDisciplined(events, rank)
    requires Unfinished(Run(IDLE, events), t)
    ensures exists runner :: CanRun(Run(IDLE, events), runner)
  {
    RunKeeps(IDLE, events, rank);
    var runner := WaitersLeadUp(Run(IDLE, events), t, rank, bound);
  }

  function Length(prog: Program): nat {
    if prog == End then 0 else 1 + Length(prog.rest)
  }

  function Remaining(threads: seq<Thread>): nat {
    if threads == [] then 0 else Length(threads[0].todo) + Remaining(threads[1..])
  }

  /** Each step of a thread is one step less to do. */
  lemma {:induction false} StepsRunOut(threads: seq<Thread>, t: nat, thread: Thread)
    requires t < |threads| && threads[t].todo != End && thread.todo == threads[t].todo.rest
    ensures Remaining(threads[t := thread]) + 1 == Remaining(threads)
  {
    if t == 0 {
      assert threads[0 := thread][1..] == threads[1..];
    } else {
      assert threads[t := thread][1..] == threads[1..][t - 1 := thread];
      StepsRunOut(threads[1..], t - 1, thread);
    }
  }

  lemma GoRunsOut(s: State, t: nat)
    requires CanRun(s, t)
    ensures Remaining(Next(s, Go(t)).threads) + 1 == Remaining(s.threads)
  {
    StepsRunOut(s.threads, t, Next(s, Go(t)).threads[t]);
  }

  predicate OnlyGoes(events: seq<Event>) {
    forall e :: e in events ==> e.Go?
  }

  lemma {:induction false} GoesRunOut(s: State, events: seq<Event>)
    requires Runs(s, events) && OnlyGoes(events)
    ensures Remaining(Run(s, events).threads) + |events| == Remaining(s.threads)
    decreases |events|
  {
    hide Remaining, CanRun;
    if events != [] {
      assert events[0] in events;
      GoRunsOut(s, events[0].t);
      GoesRunOut(Next(s, events[0]), events[1..]);
    }
  }

  /** Started threads finish: however they are scheduled, there are only so many steps to take, and
      when none is left to take every thread is at its end. */
  lemma StartedThreadsFinish(events: seq<Event>, goes: seq<Event>, rank: Ranking, bound: nat)
    requires (forall l :: rank(l) <= bound) && Runs(IDLE, events) && StartsDisciplined(events, rank)
    requires Runs(Run(IDLE, events), goes) && OnlyGoes(goes)
    ensures var s := Run(IDLE, events);
      && |goes| <= Remaining(s.threads)
      && ((forall t :: !CanRun(Run(s, goes), t)) ==> forall t :: !Unfinished(Run(s, goes), t))
  {
    hide CanRun, Remaining;
    var s := Run(IDLE, events);
    RunKeeps(IDLE, events, rank);
    RunKeeps(s, goes, rank);
    GoesRunOut(s, goes);
    forall t: nat | Unfinished(Run(s, goes), t)
      ensures exists runner :: CanRun(Run(s, goes), runner)
    {
      var runner := WaitersLeadUp(Run(s, goes), t, rank, bound);
    }
  }

  // ---- the threads of the daemon ------------------------------------------------

  /** The documented hierarchy, with the short-lived leaf locks. */
  function Hierarchy(l: Lock): nat {
    match l
    case StatesMap => 0
    case Outer(_) => 1
    case ConfigWrite => 2
    case Cache(_) => 2
    case Handle => 3
  }

  function Briefly(l: Lock, rest: Program): Program {
    Acquire(l, Work(Release(l, rest)))
  }

  datatype IngestEnd = Duplicate | WriteFails | Complete

  /** One recipient of a message. */
  datatype Job = Job(mailbox: string, dedup: bool, end: IngestEnd)

  function Ingest(job: Job, rest: Program): Program {
    var unlock := Release(Outer(job.mailbox), rest);
    var after := match job.end
      case Duplicate => unlock
      case WriteFails => Work(unlock)
      case Complete => Work(if job.dedup then Briefly(Cache(job.mailbox), unlock) else unlock);
    Briefly(StatesMap, Acquire(Outer(job.mailbox), if job.dedup then Briefly(Cache(job.mailbox), after) else after))
  }

  function IngestAll(jobs: seq<Job>): Program {
    if jobs == [] then End else Ingest(jobs[0], IngestAll(jobs[1..]))
  }

  /** The configuration is looked at a number of times. */
  function Looks(n: nat, rest: Program): Program {
    if n == 0 then rest else Briefly(Handle, Work(Looks(n - 1, rest)))
  }

  /** One message: a look for each recipient that is named and one at the delivery, which then goes
      from recipient to recipient. */
  function Delivery(looks: nat, jobs: seq<Job>): Program {
    Looks(looks, IngestAll(jobs))
  }

  /** The part under both locks, in which the configuration is looked at `n` times; `edits` is false
      when the request fails there. */
  function UnderLocks(mailbox: string, n: nat, edits: bool): Program {
    var unlock := Release(ConfigWrite, Release(Outer(mailbox), End));
    var edit := if edits then Work(Briefly(Handle, unlock)) else unlock;
    Briefly(StatesMap, Acquire(Outer(mailbox), Acquire(ConfigWrite, Looks(n, edit))))
  }

  /** HOOK-CREATE and HOOK-DELETE: one look before the locks, one under them. */
  function HookEdit(mailbox: string, edits: bool): Program {
    Looks(1, UnderLocks(mailbox, 1, edits))
  }

  /** MAILBOX-CREATE and MAILBOX-DELETE: no look before the locks, up to three under them. */
  function MailboxEdit(mailbox: string, n: nat, edits: bool): Program {
    UnderLocks(mailbox, n, edits)
  }

  /** Listings, and requests that are refused before they take a lock. */
  function Look(): Program {
    Looks(1, End)
  }

  function Mark(mailbox: string): Program {
    Briefly(Handle, Briefly(StatesMap, Acquire(Outer(mailbox), Work(Release(Outer(mailbox), End)))))
  }

  function Reload(): Program {
    Work(Briefly(Handle, End))
  }

  /** The locks of a program in the order in which it takes them. */
  function Taken(prog: Program): seq<Lock> {
    match prog
    case End => []
    case Acquire(l, rest) => [l] + Taken(rest)
    case Release(_, rest) => Taken(rest)
    case Work(rest) => Taken(rest)
  }

  function Times(n: nat, l: Lock): seq<Lock> {
    seq(n, i requires 0 <= i < n => l)
  }

  function JobTakes(job: Job): seq<Lock> {
    [StatesMap, Outer(job.mailbox)]
    + (if !job.dedup then []
       else if job.end.Complete? then [Cache(job.mailbox), Cache(job.mailbox)]
       else [Cache(job.mailbox)])
  }

  function JobsTake(jobs: seq<Job>): seq<Lock> {
    if jobs == [] then [] else JobTakes(jobs[0]) + JobsTake(jobs[1..])
  }

  lemma StepsTake(l: Lock, rest: Program)
    ensures Taken(End) == [] && Taken(Acquire(l, rest)) == [l] + Taken(rest)
    ensures Taken(Release(l, rest)) == Taken(rest) && Taken(Work(rest)) == Taken(rest)
    ensures Taken(Briefly(l, rest)) == [l] + Taken(rest)
  {
    assert Taken(Work(Release(l, rest))) == Taken(rest);
  }

  lemma {:induction false} LooksTake(n: nat, rest: Program)
    ensures Taken(Looks(n, rest)) == Times(n, Handle) + Taken(rest)
  {
    hide Briefly, Taken;
    if n > 0 {
      LooksTake(n - 1, rest);
      StepsTake(Handle, Looks(n - 1, rest));
      StepsTake(Handle, Work(Looks(n - 1, rest)));
      assert [Handle] + Times(n - 1, Handle) == Times(n, Handle);
    }
  }

  lemma {:induction false} IngestsTake(jobs: seq<Job>)
    ensures Taken(IngestAll(jobs)) == JobsTake(jobs)
  {
    hide JobTakes, Ingest;
    if jobs != [] {
      IngestsTake(jobs[1..]);
      IngestTakes(jobs[0], IngestAll(jobs[1..]));
    }
  }

  lemma IngestTakes(job: Job, rest: Program)
    ensures Taken(Ingest(job, rest)) == JobTakes(job) + Taken(rest)
  {
    hide Briefly, Taken;
    var cache, outer := Cache(job.mailbox), Outer(job.mailbox);
    var unlock := Release(outer, rest);
    StepsTake(outer, rest);
    StepsTake(cache, unlock);
    var last := if job.dedup then Briefly(cache, unlock) else unlock;
    StepsTake(cache, last);
    var after := match job.end
      case Duplicate => unlock
      case WriteFails => Work(unlock)
      case Complete => Work(last);
    StepsTake(cache, after);
    var inner := if job.dedup then Briefly(cache, after) else after;
    StepsTake(outer, inner);
    StepsTake(StatesMap, Acquire(outer, inner));
    assert Ingest(job, rest) == Briefly(StatesMap, Acquire(outer, inner));
    assert [StatesMap] + ([outer] + Taken(rest)) == [StatesMap, outer] + Taken(rest);
  }

  lemma MarkTakes(mailbox: string)
    ensures Taken(Mark(mailbox)) == [Handle, StatesMap, Outer(mailbox)]
    ensures Taken(Reload()) == [Handle]
  {
    hide Briefly, Taken;
    var free := Release(Outer(mailbox), End);
    StepsTake(Outer(mailbox), End);
    StepsTake(Outer(mailbox), free);
    StepsTake(Outer(mailbox), Work(free));
    StepsTake(StatesMap, Acquire(Outer(mailbox), Work(free)));
    StepsTake(Handle, Briefly(StatesMap, Acquire(Outer(mailbox), Work(free))));
    StepsTake(Handle, End);
    StepsTake(Handle, Briefly(Handle, End));
  }

  lemma UnderLocksTake(mailbox: string, n: nat, edits: bool)
    ensures Taken(UnderLocks(mailbox, n, edits))
         == [StatesMap, Outer(mailbox), ConfigWrite] + Times(n, Handle) + (if edits then [Handle] else [])
  {
    hide Briefly, Taken, Looks;
    var free := Release(Outer(mailbox), End);
    var unlock := Release(ConfigWrite, free);
    StepsTake(Outer(mailbox), End);
    StepsTake(ConfigWrite, free);
    StepsTake(Handle, unlock);
    StepsTake(Handle, Briefly(Handle, unlock));
    var edit := if edits then Work(Briefly(Handle, unlock)) else unlock;
    LooksTake(n, edit);
    StepsTake(ConfigWrite, Looks(n, edit));
    StepsTake(Outer(mailbox), Acquire(ConfigWrite, Looks(n, edit)));
    StepsTake(StatesMap, Acquire(Outer(mailbox), Acquire(ConfigWrite, Looks(n, edit))));
  }

  /** Which locks the threads of the daemon take, one after another. */
  lemma ProgramsTake(looks: nat, jobs: seq<Job>, mailbox: string, n: nat, edits: bool)
    ensures Taken(Delivery(looks, jobs)) == Times(looks, Handle) + JobsTake(jobs)
    ensures Taken(MailboxEdit(mailbox, n, edits))
         == [StatesMap, Outer(mailbox), ConfigWrite] + Times(n, Handle) + (if edits then [Handle] else [])
    ensures Taken(HookEdit(mailbox, edits))
         == [Handle, StatesMap, Outer(mailbox), ConfigWrite, Handle] + (if edits then [Handle] else [])
    ensures Taken(Mark(mailbox)) == [Handle, StatesMap, Outer(mailbox)]
    ensures Taken(Reload()) == [Handle] == Taken(Look())
  {
    hide IngestAll, Looks, UnderLocks, Taken, Mark, Reload;
    LooksTake(looks, IngestAll(jobs));
    IngestsTake(jobs);
    UnderLocksTake(mailbox, n, edits);
    UnderLocksTake(mailbox, 1, edits);
    LooksTake(1, UnderLocks(mailbox, 1, edits));
    LooksTake(1, End);
    StepsTake(Handle, End);
    MarkTakes(mailbox);
    assert Times(1, Handle) == [Handle];
  }

  ghost predicate DaemonProgram(prog: Program) {
    || (exists looks: nat, jobs :: prog == Delivery(looks, jobs))
    || (exists mailbox, edits :: prog == HookEdit(mailbox, edits))
    || (exists mailbox, n: nat, edits :: n <= 3 && prog == MailboxEdit(mailbox, n, edits))
    || (exists mailbox :: prog == Mark(mailbox))
    || prog == Reload() || prog == Look()
  }

  lemma {:induction false} BrieflyIsFine(l: Lock, rest: Program, held: set<Lock>, rank: Ranking)
    requires (forall h :: h in held ==> rank(h) < rank(l)) && Disciplined(rest, held, rank)
    ensures Disciplined(Briefly(l, rest), held, rank)
  {
    assert held + {l} - {l} == held;
  }

  lemma IngestIsFine(job: Job, rest: Program)
    requires Disciplined(rest, {}, Hierarchy)
    ensures Disciplined(Ingest(job, rest), {}, Hierarchy)
  {
    var unlock := Release(Outer(job.mailbox), rest);
    var held := {Outer(job.mailbox)};
    assert held - held == {} && {} + held == held;
    assert Disciplined(unlock, held, Hierarchy);
    BrieflyIsFine(Cache(job.mailbox), unlock, held, Hierarchy);
    var after := match job.end
      case Duplicate => unlock
      case WriteFails => Work(unlock)
      case Complete => Work(if job.dedup then Briefly(Cache(job.mailbox), unlock) else unlock);
    BrieflyIsFine(Cache(job.mailbox), after, held, Hierarchy);
    var locked := Acquire(Outer(job.mailbox), if job.dedup then Briefly(Cache(job.mailbox), after) else after);
    BrieflyIsFine(StatesMap, locked, {}, Hierarchy);
  }

  lemma {:induction false} IngestsAreFine(jobs: seq<Job>)
    ensures Disciplined(IngestAll(jobs), {}, Hierarchy)
  {
    hide Ingest;
    if jobs != [] {
      IngestsAreFine(jobs[1..]);
      IngestIsFine(jobs[0], IngestAll(jobs[1..]));
    }
  }

  lemma {:induction false} LooksAreFine(n: nat, rest: Program, held: set<Lock>)
    requires (forall h :: h in held ==> Hierarchy(h) < Hierarchy(Handle)) && Disciplined(rest, held, Hierarchy)
    ensures Disciplined(Looks(n, rest), held, Hierarchy)
  {
    if n > 0 {
      LooksAreFine(n - 1, rest, held);
      BrieflyIsFine(Handle, Work(Looks(n - 1, rest)), held, Hierarchy);
    }
  }

  lemma UnderLocksIsFine(mailbox: string, n: nat, edits: bool)
    ensures Disciplined(UnderLocks(mailbox, n, edits), {}, Hierarchy)
  {
    var unlock := Release(ConfigWrite, Release(Outer(mailbox), End));
    var outer, both := {Outer(mailbox)}, {Outer(mailbox), ConfigWrite};
    assert {} + outer == outer && outer + {ConfigWrite} == both && both - {ConfigWrite} == outer && outer - outer == {};
    assert Disciplined(unlock, both, Hierarchy);
    BrieflyIsFine(Handle, unlock, both, Hierarchy);
    var edit := if edits then Work(Briefly(Handle, unlock)) else unlock;
    LooksAreFine(n, edit, both);
    var locked := Acquire(Outer(mailbox), Acquire(ConfigWrite, Looks(n, edit)));
    assert Disciplined(locked, {}, Hierarchy);
    BrieflyIsFine(StatesMap, locked, {}, Hierarchy);
  }

  lemma MarkIsFine(mailbox: string)
    ensures Disciplined(Mark(mailbox), {}, Hierarchy) && Disciplined(Reload(), {}, Hierarchy)
  {
    var held := {Outer(mailbox)};
    assert held - held == {} && {} + held == held;
    var locked := Acquire(Outer(mailbox), Work(Release(Outer(mailbox), End)));
    assert Disciplined(Release(Outer(mailbox), End), held, Hierarchy);
    assert Disciplined(locked, {}, Hierarchy);
    BrieflyIsFine(StatesMap, locked, {}, Hierarchy);
    BrieflyIsFine(Handle, Briefly(StatesMap, locked), {}, Hierarchy);
    BrieflyIsFine(Handle, End, {}, Hierarchy);
  }

  lemma DaemonProgramsAreFine(prog: Program)
    requires DaemonProgram(prog)
    ensures Disciplined(prog, {}, Hierarchy)
  {
    if looks: nat, jobs :| prog == Delivery(looks, jobs) {
      IngestsAreFine(jobs);
      LooksAreFine(looks, IngestAll(jobs), {});
    } else if mailbox, edits :| prog == HookEdit(mailbox, edits) {
      UnderLocksIsFine(mailbox, 1, edits);
      LooksAreFine(1, UnderLocks(mailbox, 1, edits), {});
    } else if mailbox, n: nat, edits :| n <= 3 && prog == MailboxEdit(mailbox, n, edits) {
      UnderLocksIsFine(mailbox, n, edits);
    } else if mailbox :| prog == Mark(mailbox) {
      MarkIsFine(mailbox);
    } else {
      MarkIsFine("");
      LooksAreFine(1, End, {});
    }
  }

  /** Any number of deliveries, config edits, marks and reloads, in any interleaving. */
  lemma DaemonNeverDeadlocks(events: seq<Event>, t: nat)
    requires forall e :: e in events && e.Start? ==> DaemonProgram(e.prog)
    requires Runs(IDLE, events) && Unfinished(Run(IDLE, events), t)
    ensures exists runner :: CanRun(Run(IDLE, events), runner)
  {
    forall e | e in events && e.Start?
      ensures Disciplined(e.prog, {}, Hierarchy)
    {
      DaemonProgramsAreFine(e.prog);
    }
    NoDeadlock(events, Hierarchy, 3, t);
  }

  // ---- the inverse order ----------------------------------------------------------

  function OuterFirst(mailbox: string): Program {
    Acquire(Outer(mailbox), Acquire(ConfigWrite, Release(ConfigWrite, Release(Outer(mailbox), End))))
  }

  function ConfigFirst(mailbox: string): Program {
    Acquire(ConfigWrite, Acquire(Outer(mailbox), Release(Outer(mailbox), Release(ConfigWrite, End))))
  }

  /** One thread in each order on one mailbox can block each other for good. */
  lemma MixedOrdersDeadlock(mailbox: string)
    ensures exists events, t :: Runs(IDLE, events) && Unfinished(Run(IDLE, events), t) && Stuck(Run(IDLE, events))
  {
    var e3 := [Go(1)];
    var e2 := [Go(0)] + e3;
    var e1 := [Start(ConfigFirst(mailbox))] + e2;
    var events := [Start(OuterFirst(mailbox))] + e1;
    assert e3[1..] == [] && e2[1..] == e3 && e1[1..] == e2 && events[1..] == e1;
    var s1 := Next(IDLE, events[0]);
    var s2 := Next(s1, e1[0]);
    var s3 := Next(s2, e2[0]);
    var s4 := Next(s3, e3[0]);
    assert Runs(s3, e3) && Run(s3, e3) == s4;
    assert Runs(s2, e2) && Run(s2, e2) == s4;
    assert Runs(s1, e1) && Run(s1, e1) == s4;
    assert Runs(IDLE, events) && Run(IDLE, events) == s4;
    assert Unfinished(s4, 0) && Stuck(s4);
  }

  ghost predicate Stuck(s: State) {
    forall t :: !CanRun(s, t)
  }

  function Inverse(l: Lock): nat {
    3 - Hierarchy(l)
  }

  /** If every thread took the config lock first there would be a hierarchy again: the
      inverse order by itself is as safe as the documented one. */
  lemma InverseAloneIsFine(events: seq<Event>, t: nat)
    requires forall e :: e in events && e.Start? ==> exists mailbox :: e.prog == ConfigFirst(mailbox)
    requires Runs(IDLE, events) && Unfinished(Run(IDLE, events), t)
    ensures exists runner :: CanRun(Run(IDLE, events), runner)
  {
    forall e | e in events && e.Start?
      ensures Disciplined(e.prog, {}, Inverse)
    {
      var mailbox :| e.prog == ConfigFirst(mailbox);
      var config, both := {ConfigWrite}, {ConfigWrite, Outer(mailbox)};
      assert {} + config == config && config + {Outer(mailbox)} == both;
      assert both - {Outer(mailbox)} == config && config - config == {};
      assert Disciplined(Release(Outer(mailbox), Release(ConfigWrite, End)), both, Inverse);
    }
    NoDeadlock(events, Inverse, 3, t);
  }
}
