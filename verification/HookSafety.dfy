/** What every interleaving of configuration edits, reloads, edits by hand and restarts keeps: hooks
    in memory are valid, every acknowledged request is in the history exactly once, and since memory
    and file were last together the file is the replay of a sequential history. */
module HookSafety {
  import opened Text
  import opened HookNames
  import opened HookConfig
  import opened HookProtocol

  predicate HoldsConfigLock(phase: Phase) {
    phase.HasBoth? || phase.Edited? || phase.Saved? || phase.Swapped?
  }

  predicate HasTarget(phase: Phase) {
    phase.Ready? || phase.HasMailbox? || HoldsConfigLock(phase)
  }

  /** How often a worker's edit is in the log, by phase. */
  predicate Counted(request: Request, phase: Phase, n: nat) {
    match phase
    case Saved(_, _) => n == 1
    case Swapped(_) => n == 1
    case Finished(ok) => n == if ok && !request.ReloadConfig? then 1 else 0
    case Lost => n <= 1
    case _ => n == 0
  }

  /** The edit is the one the request names; a delete finds its mailbox by the hook's name. */
  predicate IsWhatWasAsked(request: Request, change: Change) {
    match request
    case CreateHook(m, hook) => change == AddHook(m, hook)
    case DeleteHook(name) => change.DropHook? && change.name == name
    case CreateMailbox(m, owner) => change == AddMailbox(m, owner)
    case DeleteMailbox(m) => change == DropMailbox(m)
    case ReloadConfig => false
  }

  predicate LogMatches(s: State) {
    forall k :: 0 <= k < |s.log| ==>
      && s.log[k].worker in s.workers
      && !s.workers[s.log[k].worker].request.ReloadConfig?
      && IsWhatWasAsked(s.workers[s.log[k].worker].request, s.log[k].change)
  }

  // ---- every run, whatever happens to memory and file ---------------------------------

  lemma {:induction false} CountAppend(log: seq<Entry>, e: Entry, w: nat)
    ensures Count(log + [e], w) == Count(log, w) + (if e.worker == w then 1 else 0)
  {
    assert (log + [e])[..|log|] == log;
  }

  /** A worker that has not asked yet has no edit in the log. */
  lemma AskedIsNew(s: State, w: nat)
    requires LogMatches(s) && w !in s.workers
    ensures Count(s.log, w) == 0
  {
    NoEntryNoCount(s.log, w);
  }

  lemma {:induction false} NoEntryNoCount(log: seq<Entry>, w: nat)
    requires forall k :: 0 <= k < |log| ==> log[k].worker != w
    ensures Count(log, w) == 0
  {
    if log != [] {
      NoEntryNoCount(log[..|log| - 1], w);
    }
  }

  /** Who holds the config lock, what the checks before the locks have established for good, and how
      many edits of the worker the history has. */
  predicate WorkerOrderly(s: State, w: nat)
    requires w in s.workers
  {
    var request, phase := s.workers[w].request, s.workers[w].phase;
    && Counted(request, phase, Count(s.log, w))
    && (HoldsConfigLock(phase) ==> s.configLock == Some(w))
    && (HasTarget(phase) ==> !request.ReloadConfig?)
    && (phase.Loaded? ==> request.ReloadConfig?)
    && (HasTarget(phase) ==> MatchesTarget(request, phase.target))
  }

  predicate MatchesTarget(request: Request, target: string) {
    match request
    case CreateHook(m, hook) => target == m && SingleError(hook).None?
    case DeleteHook(_) => true
    case CreateMailbox(m, _) => target == m && IsValidMailboxName(m)
    case DeleteMailbox(m) => target == m
    case ReloadConfig => false
  }

  predicate LockOwned(s: State) {
    s.configLock.Some? ==> s.configLock.value in s.workers && HoldsConfigLock(s.workers[s.configLock.value].phase)
  }

  predicate Orderly(s: State) {
    && s.epoch.start <= |s.log| && LockOwned(s)
    && LogMatches(s) && forall w :: w in s.workers ==> WorkerOrderly(s, w)
  }

  lemma SaveIsOrderly(sha: Sha, s: State, w: nat)
    requires Orderly(s) && Enabled(sha, s, Save(w))
    ensures Orderly(Move(sha, s, Save(w)))
  {
    hide Count, Loadable, Passes, Accepted, SingleError, IsValidMailboxName;
    var t := Move(sha, s, Save(w));
    assert WorkerOrderly(s, w);
    var e := Entry(w, ChangeOf(s.workers[w].request, s.workers[w].phase.target), s.workers[w].phase.from);
    forall v | v in t.workers
      ensures WorkerOrderly(t, v)
    {
      assert WorkerOrderly(s, v);
      CountAppend(s.log, e, v);
    }
  }

  lemma AskIsOrderly(sha: Sha, s: State, w: nat, request: Request)
    requires Orderly(s) && Enabled(sha, s, Ask(w, request))
    ensures Orderly(Move(sha, s, Ask(w, request)))
  {
    hide Count, SingleError, IsValidMailboxName, IsWhatWasAsked;
    var t := Move(sha, s, Ask(w, request));
    AskedIsNew(s, w);
    forall v | v in t.workers
      ensures WorkerOrderly(t, v)
    {
      if v in s.workers {
        assert WorkerOrderly(s, v);
      }
    }
  }

  lemma RestartIsOrderly(sha: Sha, s: State)
    requires Orderly(s) && Enabled(sha, s, Restart)
    ensures Orderly(Move(sha, s, Restart))
  {
    hide Count, SingleError, IsValidMailboxName, IsWhatWasAsked, Loadable;
    var t := Move(sha, s, Restart);
    forall v | v in t.workers
      ensures WorkerOrderly(t, v)
    {
      assert WorkerOrderly(s, v);
    }
  }

  lemma EarlyIsOrderly(sha: Sha, s: State, a: Action)
    requires Orderly(s) && Enabled(sha, s, a)
    requires a.Pass? || a.Refuse? || a.LockMailbox? || a.LockConfig? || a.Read?
    ensures Orderly(Move(sha, s, a))
  {
    hide Count, Loadable, Accepted, Apply, IsCatchall, SingleError, IsValidMailboxName, Owns, IsWhatWasAsked,
        BetweenSaveAndSwap;
    var t := Move(sha, s, a);
    forall v | v in t.workers
      ensures WorkerOrderly(t, v)
    {
      assert WorkerOrderly(s, v);
    }
  }

  lemma LateIsOrderly(sha: Sha, s: State, a: Action)
    requires Orderly(s) && Enabled(sha, s, a)
    requires a.MakeEdit? || a.GiveUp? || a.Swap? || a.Unlock? || a.Put?
    ensures Orderly(Move(sha, s, a))
  {
    hide Count, Loadable, Accepted, Apply, IsCatchall, SingleError, IsValidMailboxName, Passes, IsWhatWasAsked,
        BetweenSaveAndSwap;
    var t := Move(sha, s, a);
    forall v | v in t.workers
      ensures WorkerOrderly(t, v)
    {
      assert WorkerOrderly(s, v);
    }
  }

  lemma MoveIsOrderly(sha: Sha, s: State, a: Action)
    requires Orderly(s) && Enabled(sha, s, a)
    ensures Orderly(Move(sha, s, a))
  {
    match a
    case Ask(w, request) => hide *; AskIsOrderly(sha, s, w, request);
    case Save(w) => hide *; SaveIsOrderly(sha, s, w);
    case Restart => hide *; RestartIsOrderly(sha, s);
    case HandEdit(cfg) =>
      hide Count, Counted, MatchesTarget;
      assert forall w :: w in s.workers ==> WorkerOrderly(s, w) && WorkerOrderly(Move(sha, s, a), w);
    case MakeEdit(_) => hide *; LateIsOrderly(sha, s, a);
    case GiveUp(_) => hide *; LateIsOrderly(sha, s, a);
    case Swap(_) => hide *; LateIsOrderly(sha, s, a);
    case Unlock(_) => hide *; LateIsOrderly(sha, s, a);
    case Put(_) => hide *; LateIsOrderly(sha, s, a);
    case _ => hide *; EarlyIsOrderly(sha, s, a);
  }

  lemma NotedIsOrderly(sha: Sha, s: State)
    requires Orderly(s)
    ensures Orderly(Noted(sha, s))
  {
    hide Count, Counted, MatchesTarget, IsTogether;
    var t := Noted(sha, s);
    forall w | w in t.workers
      ensures WorkerOrderly(t, w)
    {
      assert WorkerOrderly(s, w);
    }
  }

  lemma StepIsOrderly(sha: Sha, s: State, a: Action)
    requires Orderly(s) && Enabled(sha, s, a)
    ensures Orderly(Step(sha, s, a))
  {
    hide Orderly, Enabled, Move, Noted;
    MoveIsOrderly(sha, s, a);
    NotedIsOrderly(sha, Move(sha, s, a));
  }

  lemma {:induction false} RunIsOrderly(sha: Sha, s: State, acts: seq<Action>)
    requires Orderly(s) && Runs(sha, s, acts)
    ensures Orderly(Run(sha, s, acts))
    decreases |acts|
  {
    hide Orderly, Enabled, Step;
    if acts != [] {
      StepIsOrderly(sha, s, acts[0]);
      RunIsOrderly(sha, Step(sha, s, acts[0]), acts[1..]);
    }
  }

  lemma ReachableOrderly(sha: Sha, init: Config, s: State)
    requires Reachable(sha, init, s)
    ensures Orderly(s)
  {
    hide Runs, Run;
    var acts :| Runs(sha, Start(init), acts) && Run(sha, Start(init), acts) == s;
    RunIsOrderly(sha, Start(init), acts);
  }

  // ---- hooks stay valid in every run --------------------------------------------------

  /** What the daemon wrote last, or what it started with. */
  function LastSaved(sha: Sha, init: Config, log: seq<Entry>): Config {
    if log == [] then init else Apply(sha, log[|log| - 1].from, log[|log| - 1].change)
  }

  ghost predicate EntryValid(sha: Sha, e: Entry) {
    ValidHooks(sha, e.from) && Accepted(sha, e.from, e.change)
  }

  ghost predicate WorkerValid(sha: Sha, s: State, w: nat)
    requires w in s.workers
  {
    var request, phase := s.workers[w].request, s.workers[w].phase;
    && (phase.Edited? && !request.ReloadConfig? ==>
          && EntryValid(sha, Entry(w, ChangeOf(request, phase.target), phase.from))
          && phase.next == Apply(sha, phase.from, ChangeOf(request, phase.target)))
    && (phase.Saved? ==> ValidHooks(sha, phase.next))
    && (phase.Loaded? ==> Loadable(sha, phase.read))
  }

  /** Memory and whatever is on its way there have valid hooks, and so has the file unless it was
      written by hand. */
  ghost predicate AllValid(sha: Sha, init: Config, s: State) {
    && ValidHooks(sha, s.mem) && ValidHooks(sha, init)
    && (!s.byHand ==> s.disk == LastSaved(sha, init, s.log))
    && (forall k :: 0 <= k < |s.log| ==> EntryValid(sha, s.log[k]))
    && forall w :: w in s.workers ==> WorkerValid(sha, s, w)
  }

  lemma EntryGivesValid(sha: Sha, e: Entry)
    requires EntryValid(sha, e)
    ensures ValidHooks(sha, Apply(sha, e.from, e.change))
  {
    hide ValidHooks, Accepted, Apply;
    AcceptedEdit(sha, e.from, e.change);
  }

  lemma SaveIsValid(sha: Sha, init: Config, s: State, w: nat)
    requires Orderly(s) && AllValid(sha, init, s) && Enabled(sha, s, Save(w))
    ensures AllValid(sha, init, Move(sha, s, Save(w)))
  {
    hide ValidHooks, Loadable, Accepted, Apply, Passes, Count, Counted;
    var t := Move(sha, s, Save(w));
    assert WorkerValid(sha, s, w);
    EntryGivesValid(sha, t.log[|s.log|]);
    forall v | v in t.workers
      ensures WorkerValid(sha, t, v)
    {
      assert WorkerValid(sha, s, v);
    }
  }

  lemma LoadableIsValid(sha: Sha, cfg: Config)
    requires Loadable(sha, cfg)
    ensures ValidHooks(sha, cfg)
  {
  }

  /** Steps that put a configuration into memory. */
  lemma StoreIsValid(sha: Sha, init: Config, s: State, a: Action)
    requires AllValid(sha, init, s) && Enabled(sha, s, a) && (a.Swap? || a.Put? || a.Restart?)
    ensures AllValid(sha, init, Move(sha, s, a))
  {
    hide ValidHooks, Loadable, Accepted, Apply, LastSaved, EntryValid, BetweenSaveAndSwap;
    var t := Move(sha, s, a);
    if !a.Restart? {
      assert WorkerValid(sha, s, a.w);
    }
    if !a.Swap? {
      LoadableIsValid(sha, t.mem);
    }
    forall v | v in t.workers
      ensures WorkerValid(sha, t, v)
    {
      assert WorkerValid(sha, s, v);
    }
  }

  /** Steps that leave memory and log alone. */
  lemma WorkIsValid(sha: Sha, init: Config, s: State, a: Action)
    requires Orderly(s) && AllValid(sha, init, s) && Enabled(sha, s, a)
    requires !a.Swap? && !a.Put? && !a.Restart? && !a.Save?
    ensures AllValid(sha, init, Move(sha, s, a))
  {
    hide ValidHooks, Loadable, Accepted, Apply, Passes, Count, Counted, LastSaved, EntryValid, IsWhatWasAsked,
        MatchesTarget;
    var t := Move(sha, s, a);
    if a.MakeEdit? {
      EditIsValid(sha, s, a.w);
    }
    forall v | v in t.workers
      ensures WorkerValid(sha, t, v)
    {
      if v in s.workers {
        assert WorkerValid(sha, s, v);
      }
    }
  }

  lemma MoveIsValid(sha: Sha, init: Config, s: State, a: Action)
    requires Orderly(s) && AllValid(sha, init, s) && Enabled(sha, s, a)
    ensures AllValid(sha, init, Move(sha, s, a))
  {
    hide *;
    match a
    case Save(w) => SaveIsValid(sha, init, s, w);
    case Swap(_) => StoreIsValid(sha, init, s, a);
    case Put(_) => StoreIsValid(sha, init, s, a);
    case Restart => StoreIsValid(sha, init, s, a);
    case _ => WorkIsValid(sha, init, s, a);
  }

  lemma EditIsValid(sha: Sha, s: State, w: nat)
    requires ValidHooks(sha, s.mem) && Enabled(sha, s, MakeEdit(w))
    ensures WorkerValid(sha, Move(sha, s, MakeEdit(w)), w)
  {
    hide ValidHooks, Loadable, Apply;
  }

  lemma NotedIsValid(sha: Sha, init: Config, s: State)
    requires AllValid(sha, init, s)
    ensures AllValid(sha, init, Noted(sha, s))
  {
    hide ValidHooks, Loadable, Apply, EntryValid, LastSaved, IsTogether;
    var t := Noted(sha, s);
    forall v | v in t.workers
      ensures WorkerValid(sha, t, v)
    {
      assert WorkerValid(sha, s, v);
    }
  }

  // ---- since memory and file were together -----------------------------------------------

  /** A create that was let in is not on the catchall. */
  predicate TargetOk(disk: Config, request: Request, target: string) {
    MatchesTarget(request, target) && (request.CreateHook? ==> target !in CatchallNames(disk))
  }

  ghost predicate WorkerGood(sha: Sha, s: State, w: nat)
    requires w in s.workers
  {
    var request, phase := s.workers[w].request, s.workers[w].phase;
    && (HasTarget(phase) && !phase.Saved? && !phase.Swapped? ==> TargetOk(s.disk, request, phase.target))
    && (phase.Edited? ==>
          && phase.from == s.disk && phase.next == Apply(sha, s.disk, ChangeOf(request, phase.target))
          && Legal(sha, s.disk, ChangeOf(request, phase.target)))
    && (phase.Loaded? ==>
          && Loadable(sha, phase.read)
          && phase.read.domain == s.disk.domain && CatchallNames(s.disk) <= CatchallNames(phase.read))
  }

  /** Memory and file agree unless the lock holder is between writing and swapping. */
  predicate Coherent(s: State) {
    match s.configLock
    case None => s.mem == s.disk
    case Some(w) =>
      w in s.workers && if s.workers[w].phase.Saved? then s.disk == s.workers[w].phase.next else s.mem == s.disk
  }

  /** The edits since the epoch began. */
  function Edits(s: State): seq<Entry>
    requires s.epoch.start <= |s.log|
  {
    s.log[s.epoch.start..]
  }

  /** Each edit was made to what the edits before it give. */
  ghost predicate FromReplay(sha: Sha, base: Config, log: seq<Entry>) {
    forall k :: 0 <= k < |log| ==> log[k].from == Replay(sha, base, log[..k])
  }

  ghost predicate ConfigsGood(sha: Sha, s: State) {
    && s.epoch.start <= |s.log|
    && s.mem.domain == s.disk.domain
    && Loadable(sha, s.mem) && Loadable(sha, s.disk) && Loadable(sha, s.epoch.base)
    && CatchallNames(s.disk) <= CatchallNames(s.mem)
    && s.disk == Replay(sha, s.epoch.base, Edits(s)) && Sequential(sha, s.epoch.base, Edits(s))
    && FromReplay(sha, s.epoch.base, Edits(s))
  }

  ghost predicate Good(sha: Sha, s: State) {
    && ConfigsGood(sha, s)
    && Coherent(s)
    && forall w :: w in s.workers ==> WorkerGood(sha, s, w)
  }

  lemma ChangeShrinksCatchalls(sha: Sha, cfg: Config, change: Change)
    requires change.AddMailbox? ==> IsValidMailboxName(change.m)
    ensures Apply(sha, cfg, change).domain == cfg.domain
    ensures CatchallNames(Apply(sha, cfg, change)) <= CatchallNames(cfg)
  {
    hide IsValidMailboxName, EffectiveName, IsCatchall, Retain;
    var after := Apply(sha, cfg, change);
    SameAddresses(cfg, after);
    if change.AddMailbox? {
      CreatedIsNotCatchall(cfg, change.m, change.owner);
      SameAddresses(cfg, after);
      NewMailboxIsNotCatchall(cfg, after, change.m, change.owner);
    }
  }

  lemma NewMailboxIsNotCatchall(cfg: Config, after: Config, m: string, owner: string)
    requires after.domain == cfg.domain && IsValidMailboxName(m)
    requires m in after.mailboxes && after.mailboxes[m] == Mailbox(m + "@" + cfg.domain, owner, [])
    ensures !IsCatchall(after, after.mailboxes[m])
  {
    CreatedIsNotCatchall(after, m, owner);
  }

  /** What the handler checks under its locks is enough for the sequential system. */
  lemma AcceptedIsLegal(sha: Sha, cfg: Config, request: Request, target: string)
    requires !request.ReloadConfig? && TargetOk(cfg, request, target) && Loadable(sha, cfg)
    requires Accepted(sha, cfg, ChangeOf(request, target))
    ensures Legal(sha, cfg, ChangeOf(request, target))
  {
    hide EffectiveName, SingleError, IsCatchall, ValidHooks, IsValidMailboxName;
    match request
    case CreateHook(m, hook) => PushIsValid(sha, cfg, m, hook);
    case DeleteHook(name) =>
      var hooks := cfg.mailboxes[target].hooks;
      if forall i :: 0 <= i < |hooks| ==> EffectiveName(sha, hooks[i]) != name {
        RetainWithout(sha, hooks, name);
      }
    case CreateMailbox(_, _) =>
    case DeleteMailbox(_) =>
  }

  lemma SequentialAppend(sha: Sha, base: Config, log: seq<Entry>, e: Entry)
    requires Sequential(sha, base, log) && Legal(sha, Replay(sha, base, log), e.change)
    requires FromReplay(sha, base, log) && e.from == Replay(sha, base, log)
    ensures Sequential(sha, base, log + [e]) && FromReplay(sha, base, log + [e])
    ensures Replay(sha, base, log + [e]) == Apply(sha, Replay(sha, base, log), e.change)
  {
    hide Legal, Apply;
    assert (log + [e])[..|log|] == log;
    forall k | 0 <= k < |log + [e]|
      ensures Legal(sha, Replay(sha, base, (log + [e])[..k]), (log + [e])[k].change)
      ensures (log + [e])[k].from == Replay(sha, base, (log + [e])[..k])
    {
      if k < |log| {
        assert (log + [e])[..k] == log[..k];
      }
    }
  }

  /** The lock holder writes its edit to the file. */
  lemma SaveKeeps(sha: Sha, s: State, w: nat)
    requires Orderly(s) && Good(sha, s) && Enabled(sha, s, Save(w))
    ensures Good(sha, Move(sha, s, Save(w)))
  {
    hide Legal, Apply, Loadable, IsCatchall, CatchallNames, SingleError, Replay, Sequential, FromReplay, Count,
        Counted, IsValidMailboxName;
    var t := Move(sha, s, Save(w));
    var request, phase := s.workers[w].request, s.workers[w].phase;
    var change := ChangeOf(request, phase.target);
    assert WorkerGood(sha, s, w) && WorkerOrderly(s, w);
    assert Edits(t) == Edits(s) + [Entry(w, change, s.disk)];
    SequentialAppend(sha, s.epoch.base, Edits(s), Entry(w, change, s.disk));
    LegalKeepsLoadable(sha, s.disk, change);
    LegalNames(sha, s.disk, change);
    ChangeShrinksCatchalls(sha, s.disk, change);
    forall v | v in t.workers
      ensures WorkerGood(sha, t, v)
    {
      assert WorkerGood(sha, s, v) && WorkerOrderly(s, v);
      if v != w && HasTarget(s.workers[v].phase) && !s.workers[v].phase.Saved? && !s.workers[v].phase.Swapped? {
        TargetStays(s.disk, t.disk, s.workers[v].request, s.workers[v].phase.target);
      }
    }
  }

  lemma TargetStays(disk: Config, after: Config, request: Request, target: string)
    requires CatchallNames(after) <= CatchallNames(disk) && TargetOk(disk, request, target)
    ensures TargetOk(after, request, target)
  {
    hide CatchallNames, MatchesTarget;
  }

  lemma LegalKeepsLoadable(sha: Sha, cfg: Config, change: Change)
    requires Loadable(sha, cfg) && Legal(sha, cfg, change)
    ensures Loadable(sha, Apply(sha, cfg, change))
  {
    hide Loadable, Legal, Apply;
    LegalEdit(sha, cfg, change);
  }

  lemma LegalNames(sha: Sha, cfg: Config, change: Change)
    requires Legal(sha, cfg, change)
    ensures change.AddMailbox? ==> IsValidMailboxName(change.m)
  {
  }

  /** Steps up to the moment both locks are held, and the first half of a reload. */
  lemma EarlyStepKeeps(sha: Sha, s: State, a: Action)
    requires Orderly(s) && Good(sha, s) && Enabled(sha, s, a)
    requires a.Ask? || a.Pass? || a.Refuse? || a.LockMailbox? || a.LockConfig? || a.Read?
    ensures Good(sha, Move(sha, s, a))
  {
    hide Legal, Apply, Loadable, IsCatchall, SingleError, Replay, Sequential, FromReplay, Count, IsValidMailboxName,
        Owns, EffectiveName, Accepted;
    var t := Move(sha, s, a);
    forall v | v in t.workers
      ensures WorkerGood(sha, t, v)
    {
      if v in s.workers {
        assert WorkerGood(sha, s, v);
      }
    }
  }

  /** Steps under both locks that touch neither file nor log, and the second half of a reload. */
  lemma LateStepKeeps(sha: Sha, s: State, a: Action)
    requires Orderly(s) && Good(sha, s) && Enabled(sha, s, a)
    requires a.MakeEdit? || a.GiveUp? || a.Swap? || a.Unlock? || a.Put?
    requires !Move(sha, s, a).stale
    ensures Good(sha, Move(sha, s, a))
  {
    hide Legal, Apply, Loadable, CatchallNames, SingleError, Replay, Sequential, FromReplay, Count, IsValidMailboxName,
        Owns, EffectiveName, Passes, Counted;
    var t := Move(sha, s, a);
    assert WorkerGood(sha, s, a.w) && WorkerOrderly(s, a.w);
    if a.MakeEdit? {
      hide Accepted;
      AcceptedIsLegal(sha, s.disk, s.workers[a.w].request, s.workers[a.w].phase.target);
    }
    forall v | v in t.workers
      ensures WorkerGood(sha, t, v)
    {
      assert WorkerGood(sha, s, v) && WorkerOrderly(s, v);
    }
  }

  lemma RestartKeeps(sha: Sha, s: State)
    requires Orderly(s) && Good(sha, s) && Enabled(sha, s, Restart)
    ensures Good(sha, Move(sha, s, Restart))
  {
    hide Legal, Apply, Loadable, IsCatchall, SingleError, Replay, Sequential, FromReplay, Count, CatchallNames;
    var t := Move(sha, s, Restart);
    forall v | v in t.workers
      ensures WorkerGood(sha, t, v)
    {
      assert WorkerGood(sha, s, v);
    }
  }

  lemma MoveKeeps(sha: Sha, s: State, a: Action)
    requires Orderly(s) && Good(sha, s) && Enabled(sha, s, a) && !s.stale && !Move(sha, s, a).stale
    ensures Good(sha, Move(sha, s, a))
  {
    match a
    case HandEdit(_) =>
    case Save(w) => hide *; SaveKeeps(sha, s, w);
    case Restart => hide *; RestartKeeps(sha, s);
    case MakeEdit(_) => hide *; LateStepKeeps(sha, s, a);
    case GiveUp(_) => hide *; LateStepKeeps(sha, s, a);
    case Swap(_) => hide *; LateStepKeeps(sha, s, a);
    case Unlock(_) => hide *; LateStepKeeps(sha, s, a);
    case Put(_) => hide *; LateStepKeeps(sha, s, a);
    case _ => hide *; EarlyStepKeeps(sha, s, a);
  }

  /** Where memory and file have come together, an epoch can begin. */
  lemma TogetherIsGood(sha: Sha, s: State)
    requires Orderly(s) && IsTogether(sha, s) && forall w :: w in s.workers ==> WorkerValid(sha, s, w)
    ensures Good(sha, s.(stale := false, epoch := Epoch(s.disk, |s.log|)))
  {
    hide Legal, Apply, Loadable, IsCatchall, CatchallNames, MatchesTarget, Count, Counted;
    var t := s.(stale := false, epoch := Epoch(s.disk, |s.log|));
    assert Edits(t) == [];
    forall w | w in t.workers
      ensures WorkerGood(sha, t, w)
    {
      assert WorkerValid(sha, s, w) && WorkerOrderly(s, w) && !IsOvertaken(s, w);
    }
  }

  // ---- whole runs --------------------------------------------------------------------

  ghost predicate Inv(sha: Sha, init: Config, s: State) {
    && Orderly(s) && AllValid(sha, init, s)
    && if s.stale then !IsTogether(sha, s) else Good(sha, s)
  }

  lemma StepKeeps(sha: Sha, init: Config, s: State, a: Action)
    requires Inv(sha, init, s) && Enabled(sha, s, a)
    ensures Inv(sha, init, Step(sha, s, a))
  {
    hide Good, Enabled, Orderly, AllValid, Move, IsTogether;
    var t := Move(sha, s, a);
    MoveIsOrderly(sha, s, a);
    MoveIsValid(sha, init, s, a);
    NotedIsOrderly(sha, t);
    NotedIsValid(sha, init, t);
    if t.stale {
      if IsTogether(sha, t) {
        AllValidWorkers(sha, init, t);
        TogetherIsGood(sha, t);
      }
    } else {
      StaleStays(sha, s, a);
      MoveKeeps(sha, s, a);
    }
  }

  lemma AllValidWorkers(sha: Sha, init: Config, s: State)
    requires AllValid(sha, init, s)
    ensures forall w :: w in s.workers ==> WorkerValid(sha, s, w)
  {
  }

  lemma StaleStays(sha: Sha, s: State, a: Action)
    requires Enabled(sha, s, a)
    ensures s.stale ==> Move(sha, s, a).stale
    ensures Move(sha, s, a).epoch == s.epoch
  {
  }

  lemma {:induction false} RunKeeps(sha: Sha, init: Config, s: State, acts: seq<Action>)
    requires Inv(sha, init, s) && Runs(sha, s, acts)
    ensures Inv(sha, init, Run(sha, s, acts))
    decreases |acts|
  {
    hide Inv, Enabled, Step;
    if acts != [] {
      StepKeeps(sha, init, s, acts[0]);
      RunKeeps(sha, init, Step(sha, s, acts[0]), acts[1..]);
    }
  }

  lemma StartInv(sha: Sha, init: Config)
    requires Loadable(sha, init)
    ensures Inv(sha, init, Start(init))
  {
    hide Loadable, IsCatchall;
    LoadableIsValid(sha, init);
    assert Edits(Start(init)) == [];
  }

  lemma ReachableInv(sha: Sha, init: Config, s: State)
    requires Loadable(sha, init) && Reachable(sha, init, s)
    ensures Inv(sha, init, s)
  {
    hide Loadable, Runs, Run, Inv;
    StartInv(sha, init);
    var acts :| Runs(sha, Start(init), acts) && Run(sha, Start(init), acts) == s;
    RunKeeps(sha, init, Start(init), acts);
  }

  /** Linearisation, in every run: since memory and file were last together the file is the replay of
      edits each of which the sequential system accepts at its place and was made to what the edits
      before it give, and whoever looks while the config lock is free finds memory and file equal.
      Whenever they come together after they have parted, a new epoch has begun. */
  lemma EditsLinearise(sha: Sha, init: Config, s: State)
    requires Loadable(sha, init) && Reachable(sha, init, s)
    ensures s.epoch.start <= |s.log|
    ensures s.stale ==> !IsTogether(sha, s)
    ensures !s.stale ==>
      && s.disk == Replay(sha, s.epoch.base, Edits(s))
      && Sequential(sha, s.epoch.base, Edits(s)) && FromReplay(sha, s.epoch.base, Edits(s))
      && (s.configLock.None? ==> s.mem == s.disk)
  {
    hide Reachable, Loadable, Replay, Sequential, FromReplay, IsTogether;
    ReachableInv(sha, init, s);
  }

  /** What makes memory and file part: a reload that stores an outdated configuration, or a change of
      the file by hand. */
  predicate Parts(s: State, a: Action) {
    match a
    case Put(w) =>
      w in s.workers && s.workers[w].phase.Loaded? && s.workers[w].phase.read != s.disk && !BetweenSaveAndSwap(s)
    case HandEdit(cfg) => cfg != s.disk
    case _ => false
  }

  ghost predicate NeverParts(sha: Sha, s: State, acts: seq<Action>)
    requires Runs(sha, s, acts)
    decreases |acts|
  {
    acts == [] || (!Parts(s, acts[0]) && NeverParts(sha, Step(sha, s, acts[0]), acts[1..]))
  }

  /** Nothing else ends an epoch. */
  lemma {:induction false} EpochLasts(sha: Sha, s: State, acts: seq<Action>)
    requires Runs(sha, s, acts) && NeverParts(sha, s, acts) && !s.stale
    ensures !Run(sha, s, acts).stale && Run(sha, s, acts).epoch == s.epoch
    decreases |acts|
  {
    hide Enabled, Step;
    if acts != [] {
      StepParts(sha, s, acts[0]);
      EpochLasts(sha, Step(sha, s, acts[0]), acts[1..]);
    }
  }

  lemma StepParts(sha: Sha, s: State, a: Action)
    requires Enabled(sha, s, a) && !s.stale && !Parts(s, a)
    ensures !Step(sha, s, a).stale && Step(sha, s, a).epoch == s.epoch
  {
    hide IsTogether, Apply, Passes, Accepted, Loadable;
  }

  /** A reload that reads the present file while no edit is under way and nothing is overtaken, and
      every restart, leave memory and file together: the promises hold from there on. */
  lemma ReloadStartsEpoch(sha: Sha, init: Config, s: State, a: Action)
    requires Loadable(sha, init) && Reachable(sha, init, s) && Enabled(sha, s, a)
    requires a.Restart? || a.Put?
    requires a.Put? ==>
      && s.workers[a.w].phase.read == s.disk
      && forall w :: w in s.workers && w != a.w ==> !IsEditing(s.workers[w].phase) && !IsOvertaken(s, w)
    ensures var t := Step(sha, s, a);
      !t.stale && t.mem == t.disk == s.disk && (s.stale ==> t.epoch == Epoch(s.disk, |s.log|))
  {
    hide Reachable, Loadable, Good, LastSaved, EntryValid;
    ReachableInv(sha, init, s);
    AllValidWorkers(sha, init, s);
    if a.Put? {
      assert WorkerValid(sha, s, a.w);
    }
    var t := Move(sha, s, a);
    forall w | w in t.workers
      ensures !IsEditing(t.workers[w].phase) && !IsOvertaken(t, w)
    {
      if a.Put? && w != a.w {
        assert !IsOvertaken(s, w);
      }
    }
    assert s.stale ==> IsTogether(sha, t);
  }

  // ---- requests -----------------------------------------------------------------------

  /** Acknowledged means done once: an Ok request has exactly one edit in the history, the
      one it asked for; a refused one has none; one cut off by a restart has at most one. This
      holds whatever reloads and edits by hand do. */
  lemma AcknowledgedOnce(sha: Sha, init: Config, s: State, w: nat)
    requires Reachable(sha, init, s)
    requires w in s.workers && !s.workers[w].request.ReloadConfig?
    ensures s.workers[w].phase == Finished(true) ==> Count(s.log, w) == 1
    ensures s.workers[w].phase == Finished(false) ==> Count(s.log, w) == 0
    ensures s.workers[w].phase == Lost ==> Count(s.log, w) <= 1
    ensures s.workers[w].phase.Asked? ==> Count(s.log, w) == 0
    ensures forall k :: 0 <= k < |s.log| && s.log[k].worker == w ==>
              IsWhatWasAsked(s.workers[w].request, s.log[k].change)
  {
    hide Reachable, Count;
    ReachableOrderly(sha, init, s);
    assert WorkerOrderly(s, w);
  }

  lemma {:induction false} LogGrows(sha: Sha, s: State, acts: seq<Action>)
    requires Runs(sha, s, acts)
    ensures s.log <= Run(sha, s, acts).log
    decreases |acts|
  {
    hide Enabled, Legal, Apply;
    if acts != [] {
      assert s.log <= Step(sha, s, acts[0]).log by { StepGrowsLog(sha, s, acts[0]); }
      LogGrows(sha, Step(sha, s, acts[0]), acts[1..]);
    }
  }

  lemma MoveGrowsLog(sha: Sha, s: State, a: Action)
    requires Enabled(sha, s, a)
    ensures s.log <= Move(sha, s, a).log
    ensures forall w :: w in s.workers && s.workers[w].phase.Finished? ==>
              w in Move(sha, s, a).workers && Move(sha, s, a).workers[w] == s.workers[w]
  {
    hide Apply, Loadable, Passes, Accepted, BetweenSaveAndSwap, ChangeOf;
  }

  lemma StepGrowsLog(sha: Sha, s: State, a: Action)
    requires Enabled(sha, s, a)
    ensures s.log <= Step(sha, s, a).log
    ensures forall w :: w in s.workers && s.workers[w].phase.Finished? ==>
              w in Step(sha, s, a).workers && Step(sha, s, a).workers[w] == s.workers[w]
  {
    hide Enabled, Move, IsTogether;
    MoveGrowsLog(sha, s, a);
  }

  lemma {:induction false} FinishedStays(sha: Sha, s: State, acts: seq<Action>, w: nat)
    requires Runs(sha, s, acts) && w in s.workers && s.workers[w].phase.Finished?
    ensures w in Run(sha, s, acts).workers && Run(sha, s, acts).workers[w] == s.workers[w]
    decreases |acts|
  {
    hide Enabled, Step;
    if acts != [] {
      StepGrowsLog(sha, s, acts[0]);
      FinishedStays(sha, Step(sha, s, acts[0]), acts[1..], w);
    }
  }

  lemma NotLoggedYet(s: State, v: nat)
    requires LogMatches(s) && v !in s.workers
    ensures forall k :: 0 <= k < |s.log| ==> s.log[k].worker != v
  {
  }

  lemma {:induction false} CountedEntry(log: seq<Entry>, w: nat) returns (k: nat)
    requires Count(log, w) > 0
    ensures k < |log| && log[k].worker == w
  {
    if log[|log| - 1].worker == w {
      k := |log| - 1;
    } else {
      k := CountedEntry(log[..|log| - 1], w);
    }
  }

  lemma {:induction false} EntryCounts(log: seq<Entry>, i: nat, w: nat)
    requires i < |log| && log[i].worker == w
    ensures Count(log, w) >= 1
  {
    if i < |log| - 1 {
      EntryCounts(log[..|log| - 1], i, w);
    }
  }

  lemma {:induction false} TwoEntriesCount(log: seq<Entry>, i: nat, j: nat, w: nat)
    requires i < j < |log| && log[i].worker == w && log[j].worker == w
    ensures Count(log, w) >= 2
  {
    if j < |log| - 1 {
      TwoEntriesCount(log[..|log| - 1], i, j, w);
    } else {
      EntryCounts(log[..|log| - 1], i, w);
    }
  }

  /** The history keeps the order in which requests were answered and asked: a request answered
      before another was made stands before it. */
  lemma RealTimeOrder(sha: Sha, init: Config, s: State, acts: seq<Action>, w: nat, v: nat, i: nat, j: nat)
    requires Reachable(sha, init, s) && Runs(sha, s, acts)
    requires w in s.workers && s.workers[w].phase == Finished(true) && v !in s.workers
    requires var log := Run(sha, s, acts).log; i < |log| && j < |log| && log[i].worker == w && log[j].worker == v
    ensures i < j
  {
    hide Reachable, Count, Runs, Run;
    var t := Run(sha, s, acts);
    ReachableOrderly(sha, init, s);
    RunIsOrderly(sha, s, acts);
    assert WorkerOrderly(s, w);
    FinishedStays(sha, s, acts, w);
    assert WorkerOrderly(t, w);
    LogGrows(sha, s, acts);
    assert forall k :: 0 <= k < |s.log| ==> s.log[k] == t.log[k];
    assert s.log[..] == s.log;
    NotLoggedYet(s, v);
    assert !s.workers[w].request.ReloadConfig? by {
      assert t.log[i].worker == w;
    }
    var k := CountedEntry(s.log, w);
    if k != i {
      TwoEntriesCount(t.log, if k < i then k else i, if k < i then i else k, w);
    }
  }

  /** In every run, the hooks in memory are individually valid and have unique names, and so have those
      in the file unless it was last written by hand. Since memory and file were together, both are
      also without hooks on the catchall, although that is checked before the locks only. */
  lemma ConfigStaysLoadable(sha: Sha, init: Config, s: State)
    requires Loadable(sha, init) && Reachable(sha, init, s)
    ensures ValidHooks(sha, s.mem)
    ensures !s.byHand ==> ValidHooks(sha, s.disk)
    ensures !s.stale ==> Loadable(sha, s.mem) && Loadable(sha, s.disk)
  {
    hide Reachable, ValidHooks, CatchallHasNoHooks, EntryValid, Apply;
    ReachableInv(sha, init, s);
    if !s.byHand && s.log != [] {
      EntryGivesValid(sha, s.log[|s.log| - 1]);
    }
  }

  /** An edit spoils a loadable configuration exactly when it adds a hook to its catchall: when the
      request was let in before the mailbox became that. */
  lemma EditSpoilsIff(sha: Sha, init: Config, s: State, w: nat)
    requires Loadable(sha, init) && Reachable(sha, init, s) && Loadable(sha, s.mem)
    requires Enabled(sha, s, MakeEdit(w))
    ensures !Loadable(sha, Step(sha, s, MakeEdit(w)).workers[w].phase.next)
      <==> s.workers[w].request.CreateHook? && s.workers[w].phase.target in CatchallNames(s.mem)
  {
    hide Reachable, ValidHooks, IsCatchall, Count, Counted, SingleError, EffectiveName, Retain;
    ReachableOrderly(sha, init, s);
    assert WorkerOrderly(s, w);
    var request, target := s.workers[w].request, s.workers[w].phase.target;
    if request.CreateHook? && target in CatchallNames(s.mem) {
      PushOnCatchall(s.mem, target, request.hook);
    } else {
      AcceptedKeepsLoadable(sha, s.mem, request, target);
    }
  }

  lemma PushOnCatchall(cfg: Config, m: string, hook: Hook)
    requires m in CatchallNames(cfg)
    ensures !CatchallHasNoHooks(Push(cfg, m, hook))
  {
    hide EqIgnoreAsciiCase;
    assert IsCatchall(Push(cfg, m, hook), Push(cfg, m, hook).mailboxes[m]);
  }

  lemma AcceptedKeepsLoadable(sha: Sha, cfg: Config, request: Request, target: string)
    requires Loadable(sha, cfg) && !request.ReloadConfig? && TargetOk(cfg, request, target)
    requires Accepted(sha, cfg, ChangeOf(request, target))
    ensures Loadable(sha, Apply(sha, cfg, ChangeOf(request, target)))
  {
    hide Loadable, Legal, Apply, Accepted, TargetOk;
    AcceptedIsLegal(sha, cfg, request, target);
    LegalKeepsLoadable(sha, cfg, ChangeOf(request, target));
  }

  /** In every run, each delete that reached the file cut out exactly one hook of the configuration in
      memory that it was made to, and left none of that name in any mailbox. */
  lemma DeleteRemovesExactlyOne(sha: Sha, init: Config, s: State, k: nat)
    requires Loadable(sha, init) && Reachable(sha, init, s)
    requires k < |s.log| && s.log[k].change.DropHook?
    ensures var before, change := s.log[k].from, s.log[k].change;
            var after := Apply(sha, before, change);
            && !HasName(sha, after, change.name)
            && exists i :: At(before, change.m, i) && NameAt(sha, before, change.m, i) == change.name
                 && after == WithHooks(before, change.m, CutOut(before.mailboxes[change.m].hooks, i))
  {
    hide Reachable, Loadable, ValidHooks, Accepted, Apply, At, NameAt, HasName, Good;
    ReachableInv(sha, init, s);
    assert EntryValid(sha, s.log[k]);
    AcceptedEdit(sha, s.log[k].from, s.log[k].change);
  }

  /** In every run, the file is what the last edit gives unless it was written by hand since. */
  lemma FileIsLastEdit(sha: Sha, init: Config, s: State)
    requires Loadable(sha, init) && Reachable(sha, init, s) && !s.byHand
    ensures s.disk == if s.log == [] then init else Apply(sha, s.log[|s.log| - 1].from, s.log[|s.log| - 1].change)
  {
    hide Reachable, Loadable, ValidHooks, Apply, EntryValid, Good;
    ReachableInv(sha, init, s);
  }

  /** In every run, a reload leaves memory and file together exactly when the file it read is still the
      file, or a config write is just about to replace what it puts into memory and its file is still
      there. */
  lemma ReloadIsSafeIff(sha: Sha, init: Config, s: State, w: nat)
    requires Reachable(sha, init, s) && Enabled(sha, s, Put(w))
    ensures Coherent(Step(sha, s, Put(w))) <==>
      if BetweenSaveAndSwap(s) then s.disk == s.workers[s.configLock.value].phase.next
      else s.workers[w].phase.read == s.disk
  {
    hide Reachable, Loadable, IsTogether, Counted, MatchesTarget;
    ReachableOrderly(sha, init, s);
  }
}
