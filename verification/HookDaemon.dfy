/** The two paths that edit hooks: the daemon's handlers, which edit memory and file, and
    the command line's direct edit of the file when no daemon runs. */
module HookDaemon {
  import opened Text
  import opened HookNames
  import opened HookConfig
  import opened HookProtocol
  import opened HookSteps

  datatype ErrCode = Enoent | Denied | OnCatchall | Validation | Io
  datatype Reply = Done | Refused(code: ErrCode)

  /** Who may edit the hooks of a mailbox, for a given caller. */
  type Authority = Mailbox -> bool

  /** The configuration file. It is replaced whole by a rename, or not at all. */
  class ConfigFile {
    var content: Config

    constructor (content: Config)
      ensures this.content == content
    {
      this.content := content;
    }

    method Write(next: Config, works: bool) returns (written: bool)
      modifies this
      ensures written == works
      ensures content == if works then next else old(content)
    {
      if works {
        content := next;
      }
      written := works;
    }
  }

  // ---- what each path should do -----------------------------------------------------

  ghost function DaemonCreate(sha: Sha, cfg: Config, m: string, hook: Hook): Option<Config> {
    if m in cfg.mailboxes && !IsCatchall(cfg, cfg.mailboxes[m]) && SingleError(hook).None?
        && ValidHooks(sha, Push(cfg, m, hook))
    then Some(Push(cfg, m, hook)) else None
  }

  ghost function DirectCreate(sha: Sha, cfg: Config, m: string, hook: Hook): Option<Config> {
    if m in cfg.mailboxes && ValidHooks(sha, Push(cfg, m, hook)) then Some(Push(cfg, m, hook)) else None
  }

  function RemoveEverywhere(sha: Sha, cfg: Config, name: string): Config {
    cfg.(mailboxes := map m | m in cfg.mailboxes ::
        cfg.mailboxes[m].(hooks := Retain(sha, cfg.mailboxes[m].hooks, name)))
  }

  // ---- the daemon ----------------------------------------------------------------------

  class Daemon {
    var mem: Config
    const file: ConfigFile

    constructor (file: ConfigFile)
      ensures this.file == file && mem == file.content
    {
      this.file := file;
      mem := file.content;
    }

    /** HOOK-CREATE. `snapshot` is what the checks before the locks were made on; by the
        time both locks are held the configuration in memory may be another. */
    method HandleHookCreate(sha: Sha, snapshot: Config, m: string, hook: Hook, may: Authority, works: bool)
      returns (reply: Reply)
      modifies this, file
      ensures reply.Done? <==>
        && m in snapshot.mailboxes && may(snapshot.mailboxes[m]) && !IsCatchall(snapshot, snapshot.mailboxes[m])
        && m in old(mem).mailboxes && ValidHooks(sha, Push(old(mem), m, hook)) && works
      ensures reply.Done? <==>
        && m in snapshot.mailboxes && may(snapshot.mailboxes[m]) && Passes(sha, snapshot, CreateHook(m, hook), m)
        && EditUnderLocks(sha, old(mem), AddHook(m, hook), works) == Some(mem)
      ensures reply.Done? ==> mem == Push(old(mem), m, hook) && file.content == mem
      ensures reply.Refused? ==> mem == old(mem) && file.content == old(file.content)
      ensures reply == Refused(Denied) <==> m in snapshot.mailboxes && !may(snapshot.mailboxes[m])
      ensures reply == Refused(OnCatchall) <==>
        && m in snapshot.mailboxes && may(snapshot.mailboxes[m])
        && IsStarAddress(snapshot.mailboxes[m].address, snapshot.domain)
      ensures m in snapshot.mailboxes && may(snapshot.mailboxes[m])
              && snapshot.mailboxes[m].address == "*@" + snapshot.domain ==>
                reply == Refused(OnCatchall)
      ensures reply.Done? <==>
        && m in snapshot.mailboxes && may(snapshot.mailboxes[m])
        && !IsStarAddress(snapshot.mailboxes[m].address, snapshot.domain)
        && m in old(mem).mailboxes && works
        && AllRunnable(WithHookAdded(old(mem), m, hook)) && NoneClash(sha, WithHookAdded(old(mem), m, hook))
      ensures reply.Done? ==> mem == WithHookAdded(old(mem), m, hook)
      ensures reply == Refused(Io) <==>
        && m in snapshot.mailboxes && may(snapshot.mailboxes[m])
        && !IsStarAddress(snapshot.mailboxes[m].address, snapshot.domain)
        && m in old(mem).mailboxes && !works
        && AllRunnable(WithHookAdded(old(mem), m, hook)) && NoneClash(sha, WithHookAdded(old(mem), m, hook))
      ensures reply == Refused(Enoent) <==>
        || m !in snapshot.mailboxes
        || (may(snapshot.mailboxes[m]) && !IsCatchall(snapshot, snapshot.mailboxes[m])
            && SingleError(hook).None? && m !in old(mem).mailboxes)
      ensures snapshot == old(mem) && reply != Refused(Denied) && reply != Refused(Io) ==>
        match DaemonCreate(sha, old(mem), m, hook)
        case Some(next) => reply.Done? && mem == next
        case None => reply.Refused?
    {
      hide EffectiveName, SingleError, IsCatchall, IsStarAddress, AllRunnable, NoneClash;
      if m in mem.mailboxes {
        ValidMeans(sha, Push(mem, m, hook));
        assert Push(mem, m, hook) == WithHookAdded(mem, m, hook);
      }
      if m !in snapshot.mailboxes {
        return Refused(Enoent);
      }
      CatchallMeans(snapshot, snapshot.mailboxes[m]);
      if !may(snapshot.mailboxes[m]) {
        return Refused(Denied);
      }
      if IsCatchall(snapshot, snapshot.mailboxes[m]) {
        return Refused(OnCatchall);
      }
      if m in mem.mailboxes {
        PushIsValid(sha, mem, m, hook);
      }
      if SingleError(hook).Some? {
        return Refused(Validation);
      }
      var next := mem;
      if m !in next.mailboxes {
        return Refused(Enoent);
      }
      next := Push(next, m, hook);
      var error := ValidateHooks(sha, next);
      if error.Some? {
        return Refused(Validation);
      }
      var written := file.Write(next, works);
      if !written {
        return Refused(Io);
      }
      mem := next;
      reply := Done;
    }

    /** HOOK-DELETE. A caller who may not edit the mailbox learns no more than one who
        names a hook that does not exist. */
    method HandleHookDelete(sha: Sha, snapshot: Config, name: string, may: Authority, works: bool)
      returns (reply: Reply)
      modifies this, file
      ensures NoneClash(sha, snapshot) ==>
        if exists m :: HasHook(sha, snapshot, m, name) && may(snapshot.mailboxes[m]) && HasHook(sha, old(mem), m, name)
        then reply == if works then Done else Refused(Io)
        else reply == Refused(Enoent)
      ensures reply.Done? ==> file.content == mem
      ensures reply.Done? && NoneClash(sha, old(mem)) ==> exists m, i: nat ::
        && HasHook(sha, snapshot, m, name) && may(snapshot.mailboxes[m])
        && At(old(mem), m, i) && GoesBy(sha, old(mem).mailboxes[m].hooks[i], name)
        && mem == WithHookCut(old(mem), m, i)
      ensures reply.Done? ==> exists m :: (
        Passes(sha, snapshot, DeleteHook(name), m)
        && EditUnderLocks(sha, old(mem), DropHook(m, name), works) == Some(mem))
      ensures reply.Done? ==> exists m :: (
        HasHook(sha, snapshot, m, name) && may(snapshot.mailboxes[m])
        && HasHook(sha, old(mem), m, name) && mem == Remove(sha, old(mem), m, name))
      ensures reply.Refused? ==> mem == old(mem) && file.content == old(file.content)
    {
      hide EffectiveName, Owns, NamesUnique, Retain, Remove, HasHook, NoneClash, GoesBy, WithHookCut;
      UniqueMeans(sha, snapshot);
      forall m
        ensures HasHook(sha, snapshot, m, name) <==> Owns(sha, snapshot, m, name)
        ensures HasHook(sha, mem, m, name) <==> Owns(sha, mem, m, name)
      {
        HasHookMeans(sha, snapshot, m, name);
        HasHookMeans(sha, mem, m, name);
      }
      var owner := FindHookOwner(sha, snapshot, name);
      if owner.None? {
        return Refused(Enoent);
      }
      var m := owner.value;
      OwnerExists(sha, snapshot, m, name);
      forall m2 | Owns(sha, snapshot, m2, name) && NamesUnique(sha, snapshot)
        ensures m2 == m
      {
        OwnerIsUnique(sha, snapshot, m, m2, name);
      }
      if !may(snapshot.mailboxes[m]) {
        return Refused(Enoent);
      }
      var next := mem;
      if m !in next.mailboxes {
        if Owns(sha, mem, m, name) {
          OwnerExists(sha, mem, m, name);
        }
        return Refused(Enoent);
      }
      OwnsMeansShorter(sha, mem, m, name);
      RemovedLength(sha, mem, m, name);
      next := Remove(sha, next, m, name);
      if |next.mailboxes[m].hooks| == |mem.mailboxes[m].hooks| {
        return Refused(Enoent);
      }
      var written := file.Write(next, works);
      if !written {
        return Refused(Io);
      }
      mem := next;
      assert Passes(sha, snapshot, DeleteHook(name), m);
      assert EditUnderLocks(sha, old(mem), DropHook(m, name), works) == Some(mem);
      if NoneClash(sha, old(mem)) {
        var _ := RemovedIsCut(sha, old(mem), m, name);
      }
      reply := Done;
    }
  }

  lemma RemovedLength(sha: Sha, cfg: Config, m: string, name: string)
    requires m in cfg.mailboxes
    ensures m in Remove(sha, cfg, m, name).mailboxes
    ensures Remove(sha, cfg, m, name).mailboxes[m].hooks == Retain(sha, cfg.mailboxes[m].hooks, name)
  {
  }

  lemma OwnerExists(sha: Sha, cfg: Config, m: string, name: string)
    requires Owns(sha, cfg, m, name)
    ensures m in cfg.mailboxes
  {
  }

  // ---- the direct edits -----------------------------------------------------------------

  method ApplyCreateDirect(sha: Sha, file: ConfigFile, m: string, hook: Hook, works: bool) returns (ok: bool)
    modifies file
    ensures match DirectCreate(sha, old(file.content), m, hook)
            case Some(next) => ok == works && file.content == if works then next else old(file.content)
            case None => !ok && file.content == old(file.content)
    ensures ok <==>
      && works && m in old(file.content).mailboxes
      && AllRunnable(WithHookAdded(old(file.content), m, hook))
      && NoneClash(sha, WithHookAdded(old(file.content), m, hook))
    ensures ok ==> file.content == WithHookAdded(old(file.content), m, hook)
  {
    hide EffectiveName, SingleError, AllRunnable, NoneClash;
    var cfg := file.content;
    if m in cfg.mailboxes {
      ValidMeans(sha, Push(cfg, m, hook));
      assert Push(cfg, m, hook) == WithHookAdded(cfg, m, hook);
    }
    if m !in cfg.mailboxes {
      return false;
    }
    cfg := Push(cfg, m, hook);
    var error := ValidateHooks(sha, cfg);
    if error.Some? {
      return false;
    }
    ok := file.Write(cfg, works);
  }

  method ApplyDeleteDirect(sha: Sha, file: ConfigFile, name: string, works: bool) returns (ok: bool)
    modifies file
    ensures ok <==> works && exists m :: Owns(sha, old(file.content), m, name)
    ensures file.content == if ok then RemoveEverywhere(sha, old(file.content), name) else old(file.content)
    ensures ok <==> works && exists m :: HasHook(sha, old(file.content), m, name)
    ensures ok && NoneClash(sha, old(file.content)) ==> exists m, i: nat ::
      && At(old(file.content), m, i) && GoesBy(sha, old(file.content).mailboxes[m].hooks[i], name)
      && file.content == WithHookCut(old(file.content), m, i)
  {
    hide EffectiveName, Owns, Retain, HasHook, NoneClash, GoesBy, WithHookCut;
    var before := file.content;
    forall m
      ensures HasHook(sha, before, m, name) <==> Owns(sha, before, m, name)
    {
      HasHookMeans(sha, before, m, name);
    }
    var cfg := before;
    var found := false;
    var todo := cfg.mailboxes.Keys;
    while todo != {}
      invariant todo <= before.mailboxes.Keys && file.content == before
      invariant cfg.domain == before.domain && cfg.mailboxes.Keys == before.mailboxes.Keys
      invariant forall m :: m in todo ==> cfg.mailboxes[m] == before.mailboxes[m]
      invariant forall m :: m in before.mailboxes.Keys - todo ==>
                  cfg.mailboxes[m] == before.mailboxes[m].(hooks := Retain(sha, before.mailboxes[m].hooks, name))
      invariant found <==> exists m :: m in before.mailboxes.Keys - todo && Owns(sha, before, m, name)
    {
      var m :| m in todo;
      ghost var done := before.mailboxes.Keys - todo;
      todo := todo - {m};
      assert before.mailboxes.Keys - todo == done + {m};
      OwnsMeansShorter(sha, before, m, name);
      var hooks := cfg.mailboxes[m].hooks;
      cfg := WithHooks(cfg, m, Retain(sha, hooks, name));
      if |cfg.mailboxes[m].hooks| != |hooks| {
        found := true;
      }
    }
    forall m | Owns(sha, before, m, name)
      ensures m in before.mailboxes
    {
      OwnerExists(sha, before, m, name);
    }
    assert cfg.mailboxes == RemoveEverywhere(sha, before, name).mailboxes;
    assert cfg == RemoveEverywhere(sha, before, name);
    if !found {
      return false;
    }
    if NoneClash(sha, before) {
      ghost var m :| HasHook(sha, before, m, name);
      var _ := RemovedEverywhereIsCut(sha, before, m, name);
    }
    ok := file.Write(cfg, works);
  }

  lemma RemovedEverywhereIsCut(sha: Sha, cfg: Config, m: string, name: string) returns (i: nat)
    requires NoneClash(sha, cfg) && HasHook(sha, cfg, m, name)
    ensures At(cfg, m, i) && GoesBy(sha, cfg.mailboxes[m].hooks[i], name)
    ensures RemoveEverywhere(sha, cfg, name) == WithHookCut(cfg, m, i)
  {
    hide EffectiveName, Owns, NoneClash, NamesUnique, GoesBy, WithHookCut, RemoveEverywhere, Remove, HasHook;
    UniqueMeans(sha, cfg);
    HasHookMeans(sha, cfg, m, name);
    forall m2 | Owns(sha, cfg, m2, name)
      ensures m2 == m
    {
      OwnerIsUnique(sha, cfg, m, m2, name);
    }
    OwnerExists(sha, cfg, m, name);
    DeletePathsAgree(sha, cfg, m, name);
    i := RemovedIsCut(sha, cfg, m, name);
  }

  // ---- the paths agree ----------------------------------------------------------------------

  /** Creating: the paths differ on the catchall alone, where the direct edit leaves a file
      that no longer loads. */
  lemma CreatePathsAgree(sha: Sha, cfg: Config, m: string, hook: Hook)
    requires Loadable(sha, cfg)
    ensures DirectCreate(sha, cfg, m, hook) == DaemonCreate(sha, cfg, m, hook)
      <==> DirectCreate(sha, cfg, m, hook).None? || !IsCatchall(cfg, cfg.mailboxes[m])
    ensures DirectCreate(sha, cfg, m, hook).Some? ==>
      (Loadable(sha, DirectCreate(sha, cfg, m, hook).value) <==> !IsCatchall(cfg, cfg.mailboxes[m]))
  {
    hide EffectiveName, SingleError, ValidHooks, EqIgnoreAsciiCase;
    if m in cfg.mailboxes {
      PushIsValid(sha, cfg, m, hook);
      var next := Push(cfg, m, hook);
      assert |next.mailboxes[m].hooks| == |cfg.mailboxes[m].hooks| + 1;
      forall k | k in cfg.mailboxes
        ensures IsCatchall(next, next.mailboxes[k]) == IsCatchall(cfg, cfg.mailboxes[k])
      {
      }
    }
  }

  /** Deleting: cutting the name out of every mailbox is cutting it out of one exactly when
      no other mailbox has it. */
  lemma DeletePathsAgree(sha: Sha, cfg: Config, m: string, name: string)
    requires m in cfg.mailboxes
    ensures RemoveEverywhere(sha, cfg, name) == Remove(sha, cfg, m, name)
      <==> forall m2 :: Owns(sha, cfg, m2, name) ==> m2 == m
  {
    hide EffectiveName, Retain;
    var all, one := RemoveEverywhere(sha, cfg, name), Remove(sha, cfg, m, name);
    if all == one {
      forall m2 | Owns(sha, cfg, m2, name)
        ensures m2 == m
      {
        OwnsMeansShorter(sha, cfg, m2, name);
        assert all.mailboxes[m2] == one.mailboxes[m2];
      }
    }
    if forall m2 :: Owns(sha, cfg, m2, name) ==> m2 == m {
      forall k | k in cfg.mailboxes
        ensures all.mailboxes[k] == one.mailboxes[k]
      {
        if k != m {
          assert !Owns(sha, cfg, k, name);
          RetainWithout(sha, cfg.mailboxes[k].hooks, name);
          assert cfg.mailboxes[k].(hooks := cfg.mailboxes[k].hooks) == cfg.mailboxes[k];
        }
      }
      assert all.mailboxes == one.mailboxes;
    }
  }

  /** So on a valid configuration the direct delete is the daemon's, and it too cuts one hook. */
  lemma DirectDeleteCutsOne(sha: Sha, cfg: Config, m: string, i: int, name: string)
    requires Loadable(sha, cfg) && At(cfg, m, i) && NameAt(sha, cfg, m, i) == name
    ensures RemoveEverywhere(sha, cfg, name) == Remove(sha, cfg, m, name)
        == WithHooks(cfg, m, CutOut(cfg.mailboxes[m].hooks, i))
    ensures Loadable(sha, RemoveEverywhere(sha, cfg, name)) && !HasName(sha, RemoveEverywhere(sha, cfg, name), name)
  {
    hide EffectiveName, SingleError, Retain, EqIgnoreAsciiCase, RemoveEverywhere;
    assert Owns(sha, cfg, m, name);
    forall m2 | Owns(sha, cfg, m2, name)
      ensures m2 == m
    {
      OwnerIsUnique(sha, cfg, m, m2, name);
    }
    DeletePathsAgree(sha, cfg, m, name);
    RemoveCutsOne(sha, cfg, m, i, name);
    RemoveKeepsValid(sha, cfg, m, i, name);
    var after := Remove(sha, cfg, m, name);
    forall k | k in cfg.mailboxes
      ensures IsCatchall(after, after.mailboxes[k]) == IsCatchall(cfg, cfg.mailboxes[k])
      ensures cfg.mailboxes[k].hooks == [] ==> after.mailboxes[k].hooks == []
    {
    }
  }
}
