/** Runs in which a config reload makes an acknowledged request vanish, in which a request makes an
    edit by hand vanish, and in which both together leave a file that does not load. */
module HookScenarios {
  import opened Text
  import opened HookNames
  import opened HookConfig
  import opened HookProtocol
  import opened HookSteps
  import opened HookSafety

  ghost function After(sha: Sha, init: Config, s: State, a: Action): (t: State)
    requires Reachable(sha, init, s) && Enabled(sha, s, a)
    ensures Reachable(sha, init, t) && t == Step(sha, s, a)
  {
    hide Enabled, Step;
    var acts :| Runs(sha, Start(init), acts) && Run(sha, Start(init), acts) == s;
    RunsExtend(sha, Start(init), acts, a);
    Step(sha, s, a)
  }

  lemma {:induction false} RunsConcat(sha: Sha, s: State, acts: seq<Action>, more: seq<Action>)
    requires Runs(sha, s, acts) && Runs(sha, Run(sha, s, acts), more)
    ensures Runs(sha, s, acts + more) && Run(sha, s, acts + more) == Run(sha, Run(sha, s, acts), more)
    decreases |acts|
  {
    hide Enabled, Step;
    if acts == [] {
      assert acts + more == more;
    } else {
      assert (acts + more)[0] == acts[0] && (acts + more)[1..] == acts[1..] + more;
      RunsConcat(sha, Step(sha, s, acts[0]), acts[1..], more);
    }
  }

  lemma LeadsToReachable(sha: Sha, init: Config, s: State, t: State)
    requires Reachable(sha, init, s) && Leads(sha, s, t)
    ensures Reachable(sha, init, t)
  {
    hide Runs, Run;
    var acts :| Runs(sha, Start(init), acts) && Run(sha, Start(init), acts) == s;
    var more :| Runs(sha, s, more) && Run(sha, s, more) == t;
    RunsConcat(sha, Start(init), acts, more);
  }

  /** A create that passes the checks before the locks. */
  lemma LetIn(sha: Sha, init: Config, s: State, w: nat, m: string, hook: Hook) returns (t: State)
    requires Reachable(sha, init, s) && w !in s.workers && SingleError(hook).None?
    requires m in s.mem.mailboxes && !IsCatchall(s.mem, s.mem.mailboxes[m])
    ensures Reachable(sha, init, t)
    ensures SameButEpoch(t, s.(workers := s.workers[w := Worker(CreateHook(m, hook), Ready(m))]))
  {
    hide Reachable, IsCatchall, SingleError, IsTogether;
    var s1 := After(sha, init, s, Ask(w, CreateHook(m, hook)));
    t := After(sha, init, s1, Pass(w, m));
  }

  /** A HOOK-CREATE that nobody disturbs. */
  lemma CreateUndisturbed(sha: Sha, init: Config, s: State, w: nat, m: string, hook: Hook) returns (t: State)
    requires Reachable(sha, init, s) && w !in s.workers
    requires s.configLock.None? && m !in s.mailboxLock
    requires m in s.mem.mailboxes && !IsCatchall(s.mem, s.mem.mailboxes[m])
    requires SingleError(hook).None? && ValidHooks(sha, Push(s.mem, m, hook))
    ensures Reachable(sha, init, t)
    ensures t.disk == t.mem == Push(s.mem, m, hook)
    ensures t.configLock.None? && t.mailboxLock == s.mailboxLock
    ensures t.workers == s.workers[w := Worker(CreateHook(m, hook), Finished(true))]
    ensures t.log == s.log + [Entry(w, AddHook(m, hook), s.mem)]
  {
    hide Reachable, IsCatchall, SingleError, ValidHooks, Push, Leads;
    var s1 := LetIn(sha, init, s, w, m, hook);
    t := ServedBySteps(sha, s1, w, true);
    LeadsToReachable(sha, init, s1, t);
  }

  /** The first request was answered Ok and never deleted, and its hook is gone. */
  ghost predicate LostUpdate(sha: Sha, s: State, a: string, first: Hook, b: string, second: Hook) {
    && 1 in s.workers && s.workers[1] == Worker(CreateHook(a, first), Finished(true))
    && |s.log| == 2 && s.log[0].change == AddHook(a, first) && s.log[1].change == AddHook(b, second)
    && s.configLock.None? && s.mem == s.disk
    && !HasName(sha, s.disk, EffectiveName(sha, first))
  }

  /** A reload that reads the file before a create and stores it after: the next create
      writes the old configuration back. This happens to any two creates. */
  lemma ReloadLosesUpdate(sha: Sha, init: Config, a: string, first: Hook, b: string, second: Hook)
    requires Loadable(sha, init)
    requires a in init.mailboxes && !IsCatchall(init, init.mailboxes[a])
    requires b in init.mailboxes && !IsCatchall(init, init.mailboxes[b])
    requires SingleError(first).None? && SingleError(second).None?
    requires !HasName(sha, init, EffectiveName(sha, first)) && !HasName(sha, init, EffectiveName(sha, second))
    requires EffectiveName(sha, first) != EffectiveName(sha, second)
    ensures exists s :: Reachable(sha, init, s) && LostUpdate(sha, s, a, first, b, second)
  {
    hide IsCatchall, SingleError, EffectiveName, HasName, ValidHooks, Reachable, Push, Loadable, At, NameAt;
    var s := OutdatedReload(sha, init, a, first);
    PushAccepted(sha, init, b, second);
    s := CreateUndisturbed(sha, init, s, 2, b, second);
    PushAddsOneName(sha, init, b, second, EffectiveName(sha, first));
    assert LostUpdate(sha, s, a, first, b, second);
  }

  /** A reload reads the file, a create is answered Ok, the reload stores what it read. */
  lemma OutdatedReload(sha: Sha, init: Config, a: string, first: Hook) returns (s: State)
    requires Loadable(sha, init) && a in init.mailboxes && !IsCatchall(init, init.mailboxes[a])
    requires SingleError(first).None? && !HasName(sha, init, EffectiveName(sha, first))
    ensures Reachable(sha, init, s) && s.mem == init && s.configLock.None? && s.mailboxLock == map[]
    ensures s.workers.Keys == {0, 1} && s.workers[1] == Worker(CreateHook(a, first), Finished(true))
    ensures s.log == [Entry(1, AddHook(a, first), init)]
  {
    hide IsCatchall, SingleError, EffectiveName, HasName, ValidHooks, Reachable, Push, Loadable, At, NameAt;
    s := Start(init);
    StartIsReachable(sha, init);
    PushAccepted(sha, init, a, first);
    s := ReadIn(sha, init, s, 0);
    s := CreateUndisturbed(sha, init, s, 1, a, first);
    s := PutIn(sha, init, s, 0, init);
  }

  lemma StartIsReachable(sha: Sha, init: Config)
    ensures Reachable(sha, init, Start(init))
  {
    assert Runs(sha, Start(init), []) && Run(sha, Start(init), []) == Start(init);
  }

  lemma PushAccepted(sha: Sha, cfg: Config, m: string, hook: Hook)
    requires Loadable(sha, cfg) && m in cfg.mailboxes && SingleError(hook).None?
    requires !HasName(sha, cfg, EffectiveName(sha, hook))
    ensures ValidHooks(sha, Push(cfg, m, hook))
  {
    hide SingleError, EffectiveName, HasName, ValidHooks;
    PushIsValid(sha, cfg, m, hook);
  }

  lemma PushAddsOneName(sha: Sha, cfg: Config, m: string, hook: Hook, name: string)
    requires m in cfg.mailboxes && !HasName(sha, cfg, name) && name != EffectiveName(sha, hook)
    ensures !HasName(sha, Push(cfg, m, hook), name)
  {
    hide EffectiveName;
    PushPlaces(sha, cfg, m, hook);
    forall m1, i1 | At(Push(cfg, m, hook), m1, i1)
      ensures NameAt(sha, Push(cfg, m, hook), m1, i1) != name
    {
      if At(cfg, m1, i1) {
        assert NameAt(sha, cfg, m1, i1) != name;
      }
    }
  }

  /** What was written into the file by hand and not reloaded is gone with the next request, whatever
      it was: a create writes the configuration in memory. */
  lemma HandEditIsLost(sha: Sha, init: Config, cfg: Config, m: string, hook: Hook)
    requires Loadable(sha, init) && m in init.mailboxes && !IsCatchall(init, init.mailboxes[m])
    requires SingleError(hook).None? && !HasName(sha, init, EffectiveName(sha, hook))
    ensures exists s, t :: Reachable(sha, init, s) && s.disk == cfg && Leads(sha, s, t)
              && 1 in t.workers && t.workers[1] == Worker(CreateHook(m, hook), Finished(true))
              && t.disk == t.mem == Push(init, m, hook)
  {
    hide IsCatchall, SingleError, EffectiveName, HasName, ValidHooks, Reachable, Push, Loadable, Leads, At, NameAt;
    StartIsReachable(sha, init);
    PushAccepted(sha, init, m, hook);
    var s := LetIn(sha, init, Start(init), 1, m, hook);
    s := HandEdited(sha, init, s, cfg);
    var t := ServedBySteps(sha, s, 1, true);
    assert Served(sha, s, 1, true).disk == Push(init, m, hook);
  }

  /** A create is let in on a mailbox; somebody makes that the catchall by hand and the file is reloaded;
      the create then finishes, is answered Ok and leaves a file that does not load. This happens with any
      hook and any configuration that makes the mailbox the catchall. */
  lemma HookLandsOnCatchall(sha: Sha, init: Config, cfg: Config, m: string, hook: Hook)
    requires Loadable(sha, init) && m in init.mailboxes && !IsCatchall(init, init.mailboxes[m])
    requires Loadable(sha, cfg) && m in cfg.mailboxes && IsCatchall(cfg, cfg.mailboxes[m])
    requires SingleError(hook).None? && !HasName(sha, cfg, EffectiveName(sha, hook))
    ensures exists s :: Reachable(sha, init, s)
              && 1 in s.workers && s.workers[1] == Worker(CreateHook(m, hook), Finished(true))
              && s.disk == s.mem == Push(cfg, m, hook) && !CatchallHasNoHooks(s.disk)
  {
    hide IsCatchall, SingleError, EffectiveName, HasName, ValidHooks, Reachable, Push, Loadable, Leads, At, NameAt,
        IsTogether, CatchallHasNoHooks;
    StartIsReachable(sha, init);
    PushAccepted(sha, cfg, m, hook);
    var s := LetIn(sha, init, Start(init), 1, m, hook);
    s := ReloadedByHand(sha, init, s, cfg);
    var t := ServedBySteps(sha, s, 1, true);
    LeadsToReachable(sha, init, s, t);
    PushOnCatchall(cfg, m, hook);
  }

  lemma HandEdited(sha: Sha, init: Config, s: State, cfg: Config) returns (t: State)
    requires Reachable(sha, init, s)
    ensures Reachable(sha, init, t) && SameButEpoch(t, s.(disk := cfg, byHand := t.byHand))
  {
    hide Reachable, IsTogether;
    t := After(sha, init, s, HandEdit(cfg));
  }

  lemma ReadIn(sha: Sha, init: Config, s: State, w: nat) returns (t: State)
    requires Reachable(sha, init, s) && w !in s.workers && Loadable(sha, s.disk)
    ensures Reachable(sha, init, t)
    ensures SameButEpoch(t, s.(workers := s.workers[w := Worker(ReloadConfig, Loaded(s.disk))]))
  {
    hide Reachable, IsTogether, Loadable;
    var s1 := After(sha, init, s, Ask(w, ReloadConfig));
    t := After(sha, init, s1, Read(w));
  }

  lemma PutIn(sha: Sha, init: Config, s: State, w: nat, read: Config) returns (t: State)
    requires Reachable(sha, init, s) && w in s.workers && s.workers[w] == Worker(ReloadConfig, Loaded(read))
    ensures Reachable(sha, init, t)
    ensures SameButEpoch(t, s.(mem := read, workers := s.workers[w := Worker(ReloadConfig, Finished(true))]))
  {
    hide Reachable, IsTogether, BetweenSaveAndSwap;
    t := After(sha, init, s, Put(w));
  }

  /** The file is changed by hand and then reloaded. */
  lemma ReloadedByHand(sha: Sha, init: Config, s: State, cfg: Config) returns (t: State)
    requires Reachable(sha, init, s) && 2 !in s.workers && Loadable(sha, cfg)
    ensures Reachable(sha, init, t) && t.mem == t.disk == cfg
    ensures t.workers == s.workers[2 := Worker(ReloadConfig, Finished(true))]
    ensures t.mailboxLock == s.mailboxLock && t.configLock == s.configLock && t.log == s.log
  {
    hide Reachable, Loadable;
    t := HandEdited(sha, init, s, cfg);
    t := ReadIn(sha, init, t, 2);
    t := PutIn(sha, init, t, 2, cfg);
  }
}
