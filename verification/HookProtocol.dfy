/** Configuration edits as a protocol: any number of hook and mailbox requests and config
    reloads, interleaved step by step, with failing writes, edits of the file by hand and
    daemon restarts. */
module HookProtocol {
  import opened Text
  import opened HookNames
  import opened HookConfig

  datatype Request =
    | CreateHook(m: string, hook: Hook)
    | DeleteHook(name: string)
    | CreateMailbox(m: string, owner: string)
    | DeleteMailbox(m: string)
    | ReloadConfig

  /** How far a request has come. `target` is the mailbox it locks. */
  datatype Phase =
    | Asked
    | Ready(target: string)
    | HasMailbox(target: string)
    | HasBoth(target: string)
    | Edited(target: string, from: Config, next: Config)
    | Saved(target: string, next: Config)
    | Swapped(target: string)
    | Loaded(read: Config)
    | Finished(ok: bool)
    | Lost

  datatype Worker = Worker(request: Request, phase: Phase)

  /** The edit a request makes, once its target is known. */
  datatype Change =
    | AddHook(m: string, hook: Hook)
    | DropHook(m: string, name: string)
    | AddMailbox(m: string, owner: string)
    | DropMailbox(m: string)

  /** An edit that reached the file, and the configuration in memory that it was made to. */
  datatype Entry = Entry(worker: nat, change: Change, from: Config)

  /** A stretch of the history: what memory and file held at its start, and the number of edits
      that were in the log by then. */
  datatype Epoch = Epoch(base: Config, start: nat)

  /** `log`, `epoch`, `stale` and `byHand` are history. `log`: the edits that reached the file.
      `stale`: memory and file have parted, as a reload has put a configuration into memory that the
      file no longer holds or somebody has changed the file by hand, and have not come together
      since. When they do a new epoch begins. `byHand`: the file was last written by hand. */
  datatype State = State(
    mem: Config,
    disk: Config,
    mailboxLock: map<string, nat>,
    configLock: Option<nat>,
    workers: map<nat, Worker>,
    log: seq<Entry>,
    epoch: Epoch,
    stale: bool,
    byHand: bool)

  function Start(init: Config): State {
    State(init, init, map[], None, map[], [], Epoch(init, 0), false, false)
  }

  // ---- the edits as functions --------------------------------------------------

  function ChangeOf(request: Request, target: string): Change
    requires !request.ReloadConfig?
  {
    match request
    case CreateHook(_, hook) => AddHook(target, hook)
    case DeleteHook(name) => DropHook(target, name)
    case CreateMailbox(_, owner) => AddMailbox(target, owner)
    case DeleteMailbox(_) => DropMailbox(target)
  }

  function Apply(sha: Sha, cfg: Config, change: Change): Config {
    match change
    case AddHook(m, hook) => if m in cfg.mailboxes then Push(cfg, m, hook) else cfg
    case DropHook(m, name) => if m in cfg.mailboxes then Remove(sha, cfg, m, name) else cfg
    case AddMailbox(m, owner) => cfg.(mailboxes := cfg.mailboxes[m := Mailbox(m + "@" + cfg.domain, owner, [])])
    case DropMailbox(m) => cfg.(mailboxes := cfg.mailboxes - {m})
  }

  /** When the sequential system would accept the edit. */
  ghost predicate Legal(sha: Sha, cfg: Config, change: Change) {
    match change
    case AddHook(m, hook) =>
      && m in cfg.mailboxes && !IsCatchall(cfg, cfg.mailboxes[m])
      && SingleError(hook).None? && !HasName(sha, cfg, EffectiveName(sha, hook))
    case DropHook(m, name) => Owns(sha, cfg, m, name)
    case AddMailbox(m, _) => IsValidMailboxName(m) && m !in cfg.mailboxes
    case DropMailbox(m) => m in cfg.mailboxes && m != "catchall"
  }

  /** What the handlers check with both locks held. The catchall is not among it. */
  ghost predicate Accepted(sha: Sha, cfg: Config, change: Change) {
    match change
    case AddHook(m, hook) => m in cfg.mailboxes && ValidHooks(sha, Push(cfg, m, hook))
    case DropHook(m, name) =>
      m in cfg.mailboxes && |Retain(sha, cfg.mailboxes[m].hooks, name)| != |cfg.mailboxes[m].hooks|
    case AddMailbox(m, _) => m !in cfg.mailboxes
    case DropMailbox(m) => m in cfg.mailboxes && m != "catchall"
  }

  /** What the handlers check before any lock is taken. */
  ghost predicate Passes(sha: Sha, cfg: Config, request: Request, target: string) {
    match request
    case CreateHook(m, hook) =>
      target == m && m in cfg.mailboxes && !IsCatchall(cfg, cfg.mailboxes[m]) && SingleError(hook).None?
    case DeleteHook(name) => Owns(sha, cfg, target, name)
    case CreateMailbox(m, _) => target == m && IsValidMailboxName(m)
    case DeleteMailbox(m) => target == m && IsValidMailboxName(m)
    case ReloadConfig => false
  }

  // ---- steps ---------------------------------------------------------------------

  datatype Action =
    | Ask(w: nat, request: Request)
    | Pass(w: nat, target: string)
    | Refuse(w: nat)
    | LockMailbox(w: nat)
    | LockConfig(w: nat)
    | MakeEdit(w: nat)
    | GiveUp(w: nat)
    | Save(w: nat)
    | Swap(w: nat)
    | Unlock(w: nat)
    | Read(w: nat)
    | Put(w: nat)
    | HandEdit(cfg: Config)
    | Restart

  ghost predicate Enabled(sha: Sha, s: State, a: Action) {
    match a
    case Ask(w, _) => w !in s.workers
    case Pass(w, target) => w in s.workers && s.workers[w].phase.Asked?
        && Passes(sha, s.mem, s.workers[w].request, target)
    case Refuse(w) => w in s.workers && s.workers[w].phase.Asked?
    case LockMailbox(w) => w in s.workers && s.workers[w].phase.Ready? && s.workers[w].phase.target !in s.mailboxLock
    case LockConfig(w) => w in s.workers && s.workers[w].phase.HasMailbox? && s.configLock.None?
    case MakeEdit(w) =>
      && w in s.workers && s.workers[w].phase.HasBoth? && !s.workers[w].request.ReloadConfig?
      && Accepted(sha, s.mem, ChangeOf(s.workers[w].request, s.workers[w].phase.target))
    case GiveUp(w) => w in s.workers && (s.workers[w].phase.HasBoth? || s.workers[w].phase.Edited?)
    case Save(w) => w in s.workers && s.workers[w].phase.Edited? && !s.workers[w].request.ReloadConfig?
    case Swap(w) => w in s.workers && s.workers[w].phase.Saved?
    case Unlock(w) => w in s.workers && s.workers[w].phase.Swapped?
    case Read(w) => w in s.workers && s.workers[w].phase.Asked? && s.workers[w].request.ReloadConfig?
        && Loadable(sha, s.disk)
    case Put(w) => w in s.workers && s.workers[w].phase.Loaded?
    case HandEdit(_) => true
    case Restart => Loadable(sha, s.disk)
  }

  function Moved(s: State, w: nat, phase: Phase): State
    requires w in s.workers
  {
    s.(workers := s.workers[w := s.workers[w].(phase := phase)])
  }

  function Unlocked(s: State, target: string): State {
    s.(mailboxLock := s.mailboxLock - {target}, configLock := None)
  }

  /** A config write has reached the file and not yet the memory. */
  predicate BetweenSaveAndSwap(s: State) {
    s.configLock.Some? && s.configLock.value in s.workers && s.workers[s.configLock.value].phase.Saved?
  }

  function Losing(worker: Worker): Worker {
    if worker.phase.Finished? then worker else worker.(phase := Lost)
  }

  ghost function Move(sha: Sha, s: State, a: Action): State
    requires Enabled(sha, s, a)
  {
    match a
    case Ask(w, request) => s.(workers := s.workers[w := Worker(request, Asked)])
    case Pass(w, target) => Moved(s, w, Ready(target))
    case Refuse(w) => Moved(s, w, Finished(false))
    case LockMailbox(w) =>
      var target := s.workers[w].phase.target;
      Moved(s, w, HasMailbox(target)).(mailboxLock := s.mailboxLock[target := w])
    case LockConfig(w) => Moved(s, w, HasBoth(s.workers[w].phase.target)).(configLock := Some(w))
    case MakeEdit(w) =>
      var target := s.workers[w].phase.target;
      Moved(s, w, Edited(target, s.mem, Apply(sha, s.mem, ChangeOf(s.workers[w].request, target))))
    case GiveUp(w) => Unlocked(Moved(s, w, Finished(false)), s.workers[w].phase.target)
    case Save(w) =>
      var phase := s.workers[w].phase;
      Moved(s, w, Saved(phase.target, phase.next)).(
        disk := phase.next,
        log := s.log + [Entry(w, ChangeOf(s.workers[w].request, phase.target), phase.from)],
        byHand := false)
    case Swap(w) => Moved(s, w, Swapped(s.workers[w].phase.target)).(mem := s.workers[w].phase.next)
    case Unlock(w) => Unlocked(Moved(s, w, Finished(true)), s.workers[w].phase.target)
    case Read(w) => Moved(s, w, Loaded(s.disk))
    case Put(w) =>
      var read := s.workers[w].phase.read;
      Moved(s, w, Finished(true)).(
        mem := read,
        stale := s.stale || (read != s.disk && !BetweenSaveAndSwap(s)))
    case HandEdit(cfg) => s.(disk := cfg, stale := s.stale || cfg != s.disk, byHand := s.byHand || cfg != s.disk)
    case Restart =>
      s.(mem := s.disk, mailboxLock := map[], configLock := None,
         workers := map w | w in s.workers :: Losing(s.workers[w]))
  }

  // ---- epochs ----------------------------------------------------------------------

  function CatchallNames(cfg: Config): set<string> {
    set m | m in cfg.mailboxes && IsCatchall(cfg, cfg.mailboxes[m])
  }

  predicate IsEditing(phase: Phase) {
    phase.Edited? || phase.Saved?
  }

  /** A create that was let in on a mailbox which the file makes the catchall, or a reload that has
      read another domain than the file's or fewer catchalls. */
  predicate IsOvertaken(s: State, w: nat)
    requires w in s.workers
  {
    var request, phase := s.workers[w].request, s.workers[w].phase;
    || (request.CreateHook? && (phase.Ready? || phase.HasMailbox? || phase.HasBoth?)
        && phase.target in CatchallNames(s.disk))
    || (phase.Loaded? && !(phase.read.domain == s.disk.domain && CatchallNames(s.disk) <= CatchallNames(phase.read)))
  }

  /** Memory and file are the same loadable configuration, no edit is under way, and nothing that is
      under way has been overtaken by what the file holds. */
  ghost predicate IsTogether(sha: Sha, s: State) {
    && s.mem == s.disk && Loadable(sha, s.disk)
    && forall w :: w in s.workers ==> !IsEditing(s.workers[w].phase) && !IsOvertaken(s, w)
  }

  ghost function Noted(sha: Sha, s: State): State {
    if s.stale && IsTogether(sha, s) then s.(stale := false, epoch := Epoch(s.disk, |s.log|)) else s
  }

  ghost function Step(sha: Sha, s: State, a: Action): State
    requires Enabled(sha, s, a)
  {
    Noted(sha, Move(sha, s, a))
  }

  ghost predicate Runs(sha: Sha, s: State, acts: seq<Action>)
    decreases |acts|
  {
    acts == [] || (Enabled(sha, s, acts[0]) && Runs(sha, Step(sha, s, acts[0]), acts[1..]))
  }

  ghost function Run(sha: Sha, s: State, acts: seq<Action>): State
    requires Runs(sha, s, acts)
    decreases |acts|
  {
    if acts == [] then s else Run(sha, Step(sha, s, acts[0]), acts[1..])
  }

  ghost predicate Reachable(sha: Sha, init: Config, s: State) {
    exists acts :: Runs(sha, Start(init), acts) && Run(sha, Start(init), acts) == s
  }

  lemma {:induction false} RunsExtend(sha: Sha, s: State, acts: seq<Action>, a: Action)
    requires Runs(sha, s, acts) && Enabled(sha, Run(sha, s, acts), a)
    ensures Runs(sha, s, acts + [a]) && Run(sha, s, acts + [a]) == Step(sha, Run(sha, s, acts), a)
    decreases |acts|
  {
    hide Enabled, Step;
    if acts == [] {
      assert [a][1..] == [] && acts + [a] == [a];
    } else {
      assert (acts + [a])[0] == acts[0] && (acts + [a])[1..] == acts[1..] + [a];
      RunsExtend(sha, Step(sha, s, acts[0]), acts[1..], a);
    }
  }

  /** Some steps take `s` to `t`. */
  ghost predicate Leads(sha: Sha, s: State, t: State) {
    exists acts :: Runs(sha, s, acts) && Run(sha, s, acts) == t
  }

  lemma LeadsNowhere(sha: Sha, s: State)
    ensures Leads(sha, s, s)
  {
    assert Runs(sha, s, []) && Run(sha, s, []) == s;
  }

  lemma LeadsOn(sha: Sha, s: State, t: State, a: Action)
    requires Leads(sha, s, t) && Enabled(sha, t, a)
    ensures Leads(sha, s, Step(sha, t, a))
  {
    hide Enabled, Step, Runs, Run;
    var acts :| Runs(sha, s, acts) && Run(sha, s, acts) == t;
    RunsExtend(sha, s, acts, a);
  }

  // ---- what the edits mean ------------------------------------------------------------

  /** What an edit makes of a configuration with unique names: one hook is added at the end of its
      mailbox's list or the one that answers to the name is taken out, one empty mailbox is put in under
      its name or one is taken out, and all else is as it was. */
  ghost predicate IsEdited(sha: Sha, cfg: Config, change: Change, after: Config) {
    match change
    case AddHook(m, hook) => m in cfg.mailboxes && after == WithHookAdded(cfg, m, hook)
    case DropHook(m, name) => exists i: nat ::
      At(cfg, m, i) && GoesBy(sha, cfg.mailboxes[m].hooks[i], name) && after == WithHookCut(cfg, m, i)
    case AddMailbox(m, owner) =>
      after == Config(cfg.domain, cfg.mailboxes[m := Mailbox(m + "@" + cfg.domain, owner, [])])
    case DropMailbox(m) => after == Config(cfg.domain, map k | k in cfg.mailboxes && k != m :: cfg.mailboxes[k])
  }

  lemma AppliedIsEdited(sha: Sha, cfg: Config, change: Change)
    requires NamesUnique(sha, cfg) && Accepted(sha, cfg, change)
    ensures IsEdited(sha, cfg, change, Apply(sha, cfg, change))
  {
    hide EffectiveName, ValidHooks, NamesUnique, HasHook, GoesBy, Remove, WithHookCut, Retain, IsCatchall, SingleError;
    match change
    case AddHook(m, hook) =>
    case DropHook(m, name) =>
      UniqueMeans(sha, cfg);
      OwnsMeansShorter(sha, cfg, m, name);
      HasHookMeans(sha, cfg, m, name);
      var _ := RemovedIsCut(sha, cfg, m, name);
    case AddMailbox(_, _) =>
    case DropMailbox(_) =>
  }

  /** What the handlers check under their locks, in the hooks' own terms. */
  lemma AcceptedMeans(sha: Sha, cfg: Config, change: Change)
    ensures Accepted(sha, cfg, change) <==>
      match change
      case AddHook(m, hook) =>
        && m in cfg.mailboxes
        && AllRunnable(WithHookAdded(cfg, m, hook)) && NoneClash(sha, WithHookAdded(cfg, m, hook))
      case DropHook(m, name) => HasHook(sha, cfg, m, name)
      case AddMailbox(m, _) => m !in cfg.mailboxes
      case DropMailbox(m) => m in cfg.mailboxes && m != "catchall"
  {
    hide EffectiveName, ValidHooks, HasHook, GoesBy, Retain, AllRunnable, NoneClash;
    match change
    case AddHook(m, hook) =>
      if m in cfg.mailboxes {
        ValidMeans(sha, WithHookAdded(cfg, m, hook));
      }
    case DropHook(m, name) =>
      HasHookMeans(sha, cfg, m, name);
      if m in cfg.mailboxes {
        OwnsMeansShorter(sha, cfg, m, name);
      }
    case AddMailbox(_, _) =>
    case DropMailbox(_) =>
  }

  /** ... and what the sequential system asks. */
  lemma LegalMeans(sha: Sha, cfg: Config, change: Change)
    ensures Legal(sha, cfg, change) <==>
      match change
      case AddHook(m, hook) =>
        && m in cfg.mailboxes && !IsStarAddress(cfg.mailboxes[m].address, cfg.domain) && IsRunnable(hook)
        && forall k, i :: At(cfg, k, i) ==> !Clash(sha, cfg.mailboxes[k].hooks[i], hook)
      case DropHook(m, name) => HasHook(sha, cfg, m, name)
      case AddMailbox(m, _) => IsValidMailboxName(m) && m !in cfg.mailboxes
      case DropMailbox(m) => m in cfg.mailboxes && m != "catchall"
  {
    hide EffectiveName, HasHook, GoesBy, IsCatchall, IsStarAddress, SingleError, IsRunnable, IsValidMailboxName, Clash;
    match change
    case AddHook(m, hook) =>
      if m in cfg.mailboxes {
        CatchallMeans(cfg, cfg.mailboxes[m]);
      }
      SingleOkMeans(hook);
      forall k, i | At(cfg, k, i)
        ensures Clash(sha, cfg.mailboxes[k].hooks[i], hook) <==> NameAt(sha, cfg, k, i) == EffectiveName(sha, hook)
      {
        ClashMeans(sha, cfg.mailboxes[k].hooks[i], hook);
      }
    case DropHook(m, name) => HasHookMeans(sha, cfg, m, name);
    case AddMailbox(_, _) =>
    case DropMailbox(_) =>
  }

  // ---- histories -------------------------------------------------------------------

  function Replay(sha: Sha, init: Config, log: seq<Entry>): Config {
    if log == [] then init
    else Apply(sha, Replay(sha, init, log[..|log| - 1]), log[|log| - 1].change)
  }

  /** Every edit of the log is one that the sequential system accepts at its place. */
  ghost predicate Sequential(sha: Sha, init: Config, log: seq<Entry>) {
    forall k :: 0 <= k < |log| ==> Legal(sha, Replay(sha, init, log[..k]), log[k].change)
  }

  function Count(log: seq<Entry>, w: nat): nat {
    if log == [] then 0
    else Count(log[..|log| - 1], w) + (if log[|log| - 1].worker == w then 1 else 0)
  }

  /** What one accepted edit does to valid hooks: they stay valid, and a delete cuts out one. */
  lemma AcceptedEdit(sha: Sha, cfg: Config, change: Change)
    requires ValidHooks(sha, cfg) && Accepted(sha, cfg, change)
    ensures ValidHooks(sha, Apply(sha, cfg, change)) && IsEdited(sha, cfg, change, Apply(sha, cfg, change))
    ensures change.DropHook? ==> !HasName(sha, Apply(sha, cfg, change), change.name)
    ensures change.DropHook? ==>
      exists i :: At(cfg, change.m, i) && NameAt(sha, cfg, change.m, i) == change.name
        && Apply(sha, cfg, change) == WithHooks(cfg, change.m, CutOut(cfg.mailboxes[change.m].hooks, i))
  {
    hide EffectiveName, SingleError, IsCatchall, ValidHooks, Retain, HasName, CutOut, IsEdited, NamesUnique;
    ValidParts(sha, cfg);
    AppliedIsEdited(sha, cfg, change);
    match change
    case AddHook(_, _) =>
    case DropHook(m, name) =>
      var hooks := cfg.mailboxes[m].hooks;
      if forall i :: 0 <= i < |hooks| ==> EffectiveName(sha, hooks[i]) != name {
        RetainWithout(sha, hooks, name);
        assert false;
      }
      var i :| 0 <= i < |hooks| && EffectiveName(sha, hooks[i]) == name;
      assert At(cfg, m, i) && NameAt(sha, cfg, m, i) == name;
      ValidParts(sha, cfg);
      RemoveKeepsValid(sha, cfg, m, i, name);
      RemoveCutsOne(sha, cfg, m, i, name);
    case AddMailbox(_, _) => SameHooks(sha, cfg, Apply(sha, cfg, change));
    case DropMailbox(_) => SameHooks(sha, cfg, Apply(sha, cfg, change));
  }

  /** What the sequential system accepts, the handlers accept. */
  lemma LegalIsAccepted(sha: Sha, cfg: Config, change: Change)
    requires ValidHooks(sha, cfg) && Legal(sha, cfg, change)
    ensures Accepted(sha, cfg, change)
  {
    hide EffectiveName, SingleError, IsCatchall, ValidHooks, Retain, HasName, IsValidMailboxName;
    match change
    case AddHook(m, hook) => PushIsValid(sha, cfg, m, hook);
    case DropHook(m, name) =>
      var i :| 0 <= i < |cfg.mailboxes[m].hooks| && EffectiveName(sha, cfg.mailboxes[m].hooks[i]) == name;
      assert At(cfg, m, i) && NameAt(sha, cfg, m, i) == name;
      ValidParts(sha, cfg);
      RemoveCutsOne(sha, cfg, m, i, name);
      assert Remove(sha, cfg, m, name).mailboxes[m].hooks == CutOut(cfg.mailboxes[m].hooks, i);
    case AddMailbox(_, _) =>
    case DropMailbox(_) =>
  }

  lemma LegalKeepsCatchall(sha: Sha, cfg: Config, change: Change)
    requires CatchallHasNoHooks(cfg) && Legal(sha, cfg, change)
    ensures CatchallHasNoHooks(Apply(sha, cfg, change))
  {
    hide EffectiveName, SingleError, IsCatchall, HasName, IsValidMailboxName;
    SameAddresses(cfg, Apply(sha, cfg, change));
    if change.AddMailbox? {
      CreatedIsNotCatchall(cfg, change.m, change.owner);
    }
  }

  /** What one edit does: it adds or cuts out one hook, or adds or drops one mailbox. */
  lemma LegalEdit(sha: Sha, cfg: Config, change: Change)
    requires Loadable(sha, cfg) && Legal(sha, cfg, change)
    ensures Loadable(sha, Apply(sha, cfg, change)) && IsEdited(sha, cfg, change, Apply(sha, cfg, change))
    ensures change.DropHook? ==> !HasName(sha, Apply(sha, cfg, change), change.name)
    ensures change.DropHook? ==>
      exists i :: At(cfg, change.m, i) && NameAt(sha, cfg, change.m, i) == change.name
        && Apply(sha, cfg, change) == WithHooks(cfg, change.m, CutOut(cfg.mailboxes[change.m].hooks, i))
  {
    hide ValidHooks, CatchallHasNoHooks, Apply, Accepted, Legal, HasName, CutOut, IsEdited;
    LegalIsAccepted(sha, cfg, change);
    AcceptedEdit(sha, cfg, change);
    LegalKeepsCatchall(sha, cfg, change);
  }

  lemma ValidParts(sha: Sha, cfg: Config)
    requires ValidHooks(sha, cfg)
    ensures HooksValid(cfg) && NamesUnique(sha, cfg)
  {
  }

  lemma SameAddresses(cfg: Config, after: Config)
    requires after.domain == cfg.domain
    ensures forall m ::
              m in after.mailboxes && m in cfg.mailboxes && after.mailboxes[m].address == cfg.mailboxes[m].address
              ==> IsCatchall(after, after.mailboxes[m]) == IsCatchall(cfg, cfg.mailboxes[m])
  {
  }

  /** Hooks that were all there before are still valid. */
  lemma SameHooks(sha: Sha, cfg: Config, after: Config)
    requires ValidHooks(sha, cfg)
    requires forall m, i :: At(after, m, i) ==>
      At(cfg, m, i) && after.mailboxes[m].hooks[i] == cfg.mailboxes[m].hooks[i]
    ensures ValidHooks(sha, after)
  {
    hide EffectiveName, SingleError;
    forall m1, i1, m2, i2 | At(after, m1, i1) && At(after, m2, i2)
      && NameAt(sha, after, m1, i1) == NameAt(sha, after, m2, i2)
      ensures m1 == m2 && i1 == i2
    {
      assert At(cfg, m1, i1) && At(cfg, m2, i2);
      assert NameAt(sha, cfg, m1, i1) == NameAt(sha, cfg, m2, i2);
    }
  }
}
