/** Hooks in the configuration: what a valid configuration is, the validator, and the
    two edits that create and delete a hook. */
module HookConfig {
  import opened Text
  import opened HookNames

  const MAX_HOOK_TIMEOUT_SECS := 600

  datatype Hook = Hook(
    name: Option<string>,
    event: HookEvent,
    kind: string,
    cmd: seq<string>,
    fireOnUntrusted: bool,
    timeoutSecs: nat)

  datatype Mailbox = Mailbox(address: string, owner: string, hooks: seq<Hook>)

  datatype Config = Config(domain: string, mailboxes: map<string, Mailbox>)

  function EffectiveName(sha: Sha, hook: Hook): string {
    match hook.name
    case Some(n) => n
    case None => DerivedName(sha, hook.event, hook.cmd, hook.fireOnUntrusted)
  }

  /** The name that a hook answers to: its own, or if it has none the one derived from what it does. */
  predicate GoesBy(sha: Sha, hook: Hook, name: string) {
    || hook.name == Some(name)
    || (hook.name == None && name == DerivedName(sha, hook.event, hook.cmd, hook.fireOnUntrusted))
  }

  lemma GoesByItsName(sha: Sha, hook: Hook, name: string)
    ensures EffectiveName(sha, hook) == name <==> GoesBy(sha, hook, name)
  {
    hide DerivedName;
  }

  /** Two hooks that answer to one name. */
  predicate Clash(sha: Sha, a: Hook, b: Hook) {
    match (a.name, b.name)
    case (Some(n1), Some(n2)) => n1 == n2
    case (Some(n1), None) => n1 == DerivedName(sha, b.event, b.cmd, b.fireOnUntrusted)
    case (None, Some(n2)) => DerivedName(sha, a.event, a.cmd, a.fireOnUntrusted) == n2
    case (None, None) =>
      DerivedName(sha, a.event, a.cmd, a.fireOnUntrusted) == DerivedName(sha, b.event, b.cmd, b.fireOnUntrusted)
  }

  lemma ClashMeans(sha: Sha, a: Hook, b: Hook)
    ensures Clash(sha, a, b) <==> EffectiveName(sha, a) == EffectiveName(sha, b)
  {
    hide DerivedName;
  }

  // ---- one hook ------------------------------------------------------------------

  datatype HookError =
    | BadName | EmptyCmd | BlankProgram | RelativeProgram | BadKind
    | FireOnAfterSend | ZeroTimeout | LongTimeout | DuplicateName

  /** The checks on a single hook, in their order. */
  function SingleError(hook: Hook): Option<HookError> {
    if hook.name.Some? && !IsValidHookName(hook.name.value) then Some(BadName)
    else if hook.cmd == [] then Some(EmptyCmd)
    else if TrimStart(hook.cmd[0]) == "" then Some(BlankProgram)
    else if hook.cmd[0][0] != '/' then Some(RelativeProgram)
    else if hook.kind != "cmd" then Some(BadKind)
    else if hook.fireOnUntrusted && hook.event != OnReceive then Some(FireOnAfterSend)
    else if hook.timeoutSecs == 0 then Some(ZeroTimeout)
    else if hook.timeoutSecs > MAX_HOOK_TIMEOUT_SECS then Some(LongTimeout)
    else None
  }

  /** What a hook has to be. */
  predicate IsRunnable(hook: Hook) {
    && (hook.name.Some? ==> IsValidHookName(hook.name.value))
    && hook.cmd != [] && StartsWith(hook.cmd[0], "/")
    && hook.kind == "cmd"
    && (hook.fireOnUntrusted ==> hook.event == OnReceive)
    && 1 <= hook.timeoutSecs <= MAX_HOOK_TIMEOUT_SECS
  }

  lemma SingleOkMeans(hook: Hook)
    ensures SingleError(hook).None? <==> IsRunnable(hook)
  {
    if hook.cmd != [] && hook.cmd[0] != [] {
      assert hook.cmd[0][..1] == [hook.cmd[0][0]];
    }
  }

  // ---- all hooks -----------------------------------------------------------------

  /** The hook at place `i` of mailbox `m`. */
  predicate At(cfg: Config, m: string, i: int) {
    m in cfg.mailboxes && 0 <= i < |cfg.mailboxes[m].hooks|
  }

  function NameAt(sha: Sha, cfg: Config, m: string, i: int): string
    requires At(cfg, m, i)
  {
    EffectiveName(sha, cfg.mailboxes[m].hooks[i])
  }

  ghost predicate HooksValid(cfg: Config) {
    forall m, i :: At(cfg, m, i) ==> SingleError(cfg.mailboxes[m].hooks[i]).None?
  }

  ghost predicate NamesUnique(sha: Sha, cfg: Config) {
    forall m1, i1, m2, i2 :: At(cfg, m1, i1) && At(cfg, m2, i2) && NameAt(sha, cfg, m1, i1) == NameAt(sha, cfg, m2, i2)
      ==> m1 == m2 && i1 == i2
  }

  ghost predicate ValidHooks(sha: Sha, cfg: Config) {
    HooksValid(cfg) && NamesUnique(sha, cfg)
  }

  ghost predicate HasName(sha: Sha, cfg: Config, name: string) {
    exists m, i :: At(cfg, m, i) && NameAt(sha, cfg, m, i) == name
  }

  ghost predicate AllRunnable(cfg: Config) {
    forall m, i :: At(cfg, m, i) ==> IsRunnable(cfg.mailboxes[m].hooks[i])
  }

  ghost predicate NoneClash(sha: Sha, cfg: Config) {
    forall m1, i1, m2, i2 ::
      At(cfg, m1, i1) && At(cfg, m2, i2) && Clash(sha, cfg.mailboxes[m1].hooks[i1], cfg.mailboxes[m2].hooks[i2])
      ==> m1 == m2 && i1 == i2
  }

  lemma UniqueMeans(sha: Sha, cfg: Config)
    ensures NamesUnique(sha, cfg) <==> NoneClash(sha, cfg)
  {
    hide EffectiveName, Clash;
    forall m1, i1, m2, i2 | At(cfg, m1, i1) && At(cfg, m2, i2)
      ensures Clash(sha, cfg.mailboxes[m1].hooks[i1], cfg.mailboxes[m2].hooks[i2])
        <==> NameAt(sha, cfg, m1, i1) == NameAt(sha, cfg, m2, i2)
    {
      ClashMeans(sha, cfg.mailboxes[m1].hooks[i1], cfg.mailboxes[m2].hooks[i2]);
    }
  }

  /** A configuration is valid when each hook can be run and no two answer to one name. */
  lemma ValidMeans(sha: Sha, cfg: Config)
    ensures ValidHooks(sha, cfg) <==> AllRunnable(cfg) && NoneClash(sha, cfg)
  {
    hide SingleError, IsRunnable, NamesUnique, NoneClash;
    UniqueMeans(sha, cfg);
    forall m, i | At(cfg, m, i)
      ensures SingleError(cfg.mailboxes[m].hooks[i]).None? <==> IsRunnable(cfg.mailboxes[m].hooks[i])
    {
      SingleOkMeans(cfg.mailboxes[m].hooks[i]);
    }
  }

  type Places = map<string, (string, int)>

  /** The hooks met so far: all of `done`, and the first `k` of mailbox `m`. */
  predicate Met(cfg: Config, done: set<string>, m: string, k: int, m1: string, i1: int) {
    At(cfg, m1, i1) && (m1 in done || (m1 == m && i1 < k))
  }

  /** `places` says where each name was met. */
  ghost predicate Recorded(sha: Sha, cfg: Config, done: set<string>, m: string, k: int, places: Places) {
    && (forall m1, i1 :: Met(cfg, done, m, k, m1, i1) ==>
          && SingleError(cfg.mailboxes[m1].hooks[i1]).None?
          && NameAt(sha, cfg, m1, i1) in places && places[NameAt(sha, cfg, m1, i1)] == (m1, i1))
    && (forall n :: n in places ==>
          Met(cfg, done, m, k, places[n].0, places[n].1) && NameAt(sha, cfg, places[n].0, places[n].1) == n)
  }

  /** The validator. The map of mailboxes is walked in no particular order. */
  method ValidateHooks(sha: Sha, cfg: Config) returns (error: Option<HookError>)
    ensures error.None? <==> ValidHooks(sha, cfg)
    ensures error.None? <==> AllRunnable(cfg) && NoneClash(sha, cfg)
  {
    hide Recorded, ValidHooks, EffectiveName, IsValidHookName, AllRunnable, NoneClash;
    ValidMeans(sha, cfg);
    NothingRecorded(sha, cfg);
    var seen: map<string, string> := map[];
    ghost var places: Places := map[];
    var todo := cfg.mailboxes.Keys;
    assert cfg.mailboxes.Keys - todo == {};
    while todo != {}
      invariant todo <= cfg.mailboxes.Keys
      invariant seen.Keys == places.Keys
      invariant Recorded(sha, cfg, cfg.mailboxes.Keys - todo, "", 0, places)
    {
      var m :| m in todo;
      ghost var done := cfg.mailboxes.Keys - todo;
      todo := todo - {m};
      var hooks := cfg.mailboxes[m].hooks;
      NextMailbox(sha, cfg, done, m, places);
      for i := 0 to |hooks|
        invariant seen.Keys == places.Keys
        invariant Recorded(sha, cfg, done, m, i, places)
      {
        var hook := hooks[i];
        BadHookIsBad(sha, cfg, m, i);
        if hook.name.Some? && !IsValidHookName(hook.name.value) {
          return Some(BadName);
        }
        if hook.cmd == [] {
          return Some(EmptyCmd);
        }
        if TrimStart(hook.cmd[0]) == "" {
          return Some(BlankProgram);
        }
        if hook.cmd[0][0] != '/' {
          return Some(RelativeProgram);
        }
        if hook.kind != "cmd" {
          return Some(BadKind);
        }
        if hook.fireOnUntrusted && hook.event != OnReceive {
          return Some(FireOnAfterSend);
        }
        if hook.timeoutSecs == 0 {
          return Some(ZeroTimeout);
        }
        if hook.timeoutSecs > MAX_HOOK_TIMEOUT_SECS {
          return Some(LongTimeout);
        }
        var name := EffectiveName(sha, hooks[i]);
        if name in seen {
          ClashIsBad(sha, cfg, done, m, i, places);
          return Some(DuplicateName);
        }
        seen := seen[name := m];
        RecordOne(sha, cfg, done, m, i, places);
        places := places[name := (m, i)];
      }
      assert cfg.mailboxes.Keys - todo == done + {m};
      MailboxDone(sha, cfg, done, m, places);
    }
    assert cfg.mailboxes.Keys - todo == cfg.mailboxes.Keys;
    AllRecorded(sha, cfg, places);
    error := None;
  }

  lemma NothingRecorded(sha: Sha, cfg: Config)
    ensures Recorded(sha, cfg, {}, "", 0, map[])
  {
  }

  lemma NextMailbox(sha: Sha, cfg: Config, done: set<string>, m: string, places: Places)
    requires Recorded(sha, cfg, done, "", 0, places)
    ensures Recorded(sha, cfg, done, m, 0, places)
  {
    hide SingleError, EffectiveName;
  }

  lemma BadHookIsBad(sha: Sha, cfg: Config, m: string, i: int)
    requires At(cfg, m, i)
    ensures SingleError(cfg.mailboxes[m].hooks[i]).Some? ==> !ValidHooks(sha, cfg)
  {
    hide SingleError, EffectiveName;
  }

  lemma ClashIsBad(sha: Sha, cfg: Config, done: set<string>, m: string, i: int, places: Places)
    requires Recorded(sha, cfg, done, m, i, places) && At(cfg, m, i) && m !in done
    requires NameAt(sha, cfg, m, i) in places
    ensures !ValidHooks(sha, cfg)
  {
    hide SingleError, EffectiveName;
    var name := NameAt(sha, cfg, m, i);
    assert Met(cfg, done, m, i, places[name].0, places[name].1);
  }

  lemma RecordOne(sha: Sha, cfg: Config, done: set<string>, m: string, i: int, places: Places)
    requires Recorded(sha, cfg, done, m, i, places) && At(cfg, m, i) && m !in done
    requires SingleError(cfg.mailboxes[m].hooks[i]).None? && NameAt(sha, cfg, m, i) !in places
    ensures Recorded(sha, cfg, done, m, i + 1, places[NameAt(sha, cfg, m, i) := (m, i)])
  {
    hide EffectiveName, SingleError;
    var after := places[NameAt(sha, cfg, m, i) := (m, i)];
    forall m1, i1 | Met(cfg, done, m, i + 1, m1, i1)
      ensures SingleError(cfg.mailboxes[m1].hooks[i1]).None?
      ensures NameAt(sha, cfg, m1, i1) in after && after[NameAt(sha, cfg, m1, i1)] == (m1, i1)
    {
      if m1 != m || i1 != i {
        assert Met(cfg, done, m, i, m1, i1);
      }
    }
  }

  lemma MailboxDone(sha: Sha, cfg: Config, done: set<string>, m: string, places: Places)
    requires m in cfg.mailboxes && Recorded(sha, cfg, done, m, |cfg.mailboxes[m].hooks|, places)
    ensures Recorded(sha, cfg, done + {m}, "", 0, places)
  {
    hide EffectiveName, SingleError;
    forall m1, i1
      ensures Met(cfg, done + {m}, "", 0, m1, i1) == Met(cfg, done, m, |cfg.mailboxes[m].hooks|, m1, i1)
    {
    }
  }

  lemma AllRecorded(sha: Sha, cfg: Config, places: Places)
    requires Recorded(sha, cfg, cfg.mailboxes.Keys, "", 0, places)
    ensures ValidHooks(sha, cfg)
  {
    hide EffectiveName, SingleError;
    forall m, i | At(cfg, m, i)
      ensures SingleError(cfg.mailboxes[m].hooks[i]).None?
      ensures NameAt(sha, cfg, m, i) in places && places[NameAt(sha, cfg, m, i)] == (m, i)
    {
      assert Met(cfg, cfg.mailboxes.Keys, "", 0, m, i);
    }
  }

  // ---- which mailbox owns a hook ---------------------------------------------------

  predicate Owns(sha: Sha, cfg: Config, m: string, name: string) {
    m in cfg.mailboxes &&
    exists i :: 0 <= i < |cfg.mailboxes[m].hooks| && EffectiveName(sha, cfg.mailboxes[m].hooks[i]) == name
  }

  /** The first owner met, mailboxes in no particular order. */
  method FindHookOwner(sha: Sha, cfg: Config, name: string) returns (owner: Option<string>)
    ensures owner.Some? ==> Owns(sha, cfg, owner.value, name)
    ensures owner.None? ==> forall m :: !Owns(sha, cfg, m, name)
    ensures owner.Some? ==>
              exists i :: At(cfg, owner.value, i) && GoesBy(sha, cfg.mailboxes[owner.value].hooks[i], name)
    ensures owner.None? ==> forall m, i :: At(cfg, m, i) ==> !GoesBy(sha, cfg.mailboxes[m].hooks[i], name)
  {
    hide EffectiveName, GoesBy;
    forall hook: Hook
      ensures EffectiveName(sha, hook) == name <==> GoesBy(sha, hook, name)
    {
      GoesByItsName(sha, hook, name);
    }
    var todo := cfg.mailboxes.Keys;
    while todo != {}
      invariant todo <= cfg.mailboxes.Keys
      invariant forall m :: m in cfg.mailboxes.Keys - todo ==> !Owns(sha, cfg, m, name)
    {
      var m :| m in todo;
      todo := todo - {m};
      var hooks := cfg.mailboxes[m].hooks;
      for i := 0 to |hooks|
        invariant forall j :: 0 <= j < i ==> EffectiveName(sha, hooks[j]) != name
      {
        if EffectiveName(sha, hooks[i]) == name {
          assert At(cfg, m, i);
          return Some(m);
        }
      }
    }
    forall m, i | At(cfg, m, i)
      ensures !GoesBy(sha, cfg.mailboxes[m].hooks[i], name)
    {
      assert m in cfg.mailboxes.Keys - todo;
    }
    owner := None;
  }

  /** With unique names the order of the map cannot matter. */
  lemma OwnerIsUnique(sha: Sha, cfg: Config, m1: string, m2: string, name: string)
    requires NamesUnique(sha, cfg) && Owns(sha, cfg, m1, name) && Owns(sha, cfg, m2, name)
    ensures m1 == m2
  {
    var i1 :| 0 <= i1 < |cfg.mailboxes[m1].hooks| && EffectiveName(sha, cfg.mailboxes[m1].hooks[i1]) == name;
    var i2 :| 0 <= i2 < |cfg.mailboxes[m2].hooks| && EffectiveName(sha, cfg.mailboxes[m2].hooks[i2]) == name;
    assert At(cfg, m1, i1) && At(cfg, m2, i2);
    assert NameAt(sha, cfg, m1, i1) == NameAt(sha, cfg, m2, i2);
  }

  // ---- the edits -------------------------------------------------------------------

  function WithHooks(cfg: Config, m: string, hooks: seq<Hook>): Config
    requires m in cfg.mailboxes
  {
    cfg.(mailboxes := cfg.mailboxes[m := cfg.mailboxes[m].(hooks := hooks)])
  }

  function Push(cfg: Config, m: string, hook: Hook): Config
    requires m in cfg.mailboxes
  {
    WithHooks(cfg, m, cfg.mailboxes[m].hooks + [hook])
  }

  function Retain(sha: Sha, hooks: seq<Hook>, name: string): seq<Hook> {
    if hooks == [] then []
    else if EffectiveName(sha, hooks[0]) != name then [hooks[0]] + Retain(sha, hooks[1..], name)
    else Retain(sha, hooks[1..], name)
  }

  function Remove(sha: Sha, cfg: Config, m: string, name: string): Config
    requires m in cfg.mailboxes
  {
    WithHooks(cfg, m, Retain(sha, cfg.mailboxes[m].hooks, name))
  }

  /** A push is accepted exactly when the rest was valid, the hook is, and its name is fresh. */
  lemma PushIsValid(sha: Sha, cfg: Config, m: string, hook: Hook)
    requires m in cfg.mailboxes
    ensures ValidHooks(sha, Push(cfg, m, hook))
      <==> ValidHooks(sha, cfg) && SingleError(hook).None? && !HasName(sha, cfg, EffectiveName(sha, hook))
  {
    hide EffectiveName, SingleError;
    var after := Push(cfg, m, hook);
    var n := |cfg.mailboxes[m].hooks|;
    PushPlaces(sha, cfg, m, hook);
    if ValidHooks(sha, after) {
      assert At(after, m, n) && NameAt(sha, after, m, n) == EffectiveName(sha, hook);
      forall m1, i1 | At(cfg, m1, i1)
        ensures SingleError(cfg.mailboxes[m1].hooks[i1]).None?
        ensures NameAt(sha, cfg, m1, i1) != EffectiveName(sha, hook)
      {
        assert At(after, m1, i1) && NameAt(sha, after, m1, i1) == NameAt(sha, cfg, m1, i1);
      }
      forall m1, i1, m2, i2 | At(cfg, m1, i1) && At(cfg, m2, i2) && NameAt(sha, cfg, m1, i1) == NameAt(sha, cfg, m2, i2)
        ensures m1 == m2 && i1 == i2
      {
        assert At(after, m1, i1) && At(after, m2, i2);
        assert NameAt(sha, after, m1, i1) == NameAt(sha, after, m2, i2);
      }
    }
    if ValidHooks(sha, cfg) && SingleError(hook).None? && !HasName(sha, cfg, EffectiveName(sha, hook)) {
      forall m1, i1, m2, i2 | At(after, m1, i1) && At(after, m2, i2)
        && NameAt(sha, after, m1, i1) == NameAt(sha, after, m2, i2)
        ensures m1 == m2 && i1 == i2
      {
        if (m1 != m || i1 != n) && (m2 != m || i2 != n) {
          assert At(cfg, m1, i1) && At(cfg, m2, i2);
          assert NameAt(sha, cfg, m1, i1) == NameAt(sha, cfg, m2, i2);
        }
      }
      forall m1, i1 | At(after, m1, i1)
        ensures SingleError(after.mailboxes[m1].hooks[i1]).None?
      {
        if m1 != m || i1 != n {
          assert At(cfg, m1, i1);
        }
      }
    }
  }

  /** The check of a single hook and the check of a whole configuration are written twice; they
      agree: a hook passes the first exactly when, alone, it passes the second, and that is when it
      can be run. */
  lemma AloneIsValid(sha: Sha, domain: string, m: string, mb: Mailbox, hook: Hook)
    ensures SingleError(hook).None? <==> ValidHooks(sha, Config(domain, map[m := mb.(hooks := [hook])]))
    ensures ValidHooks(sha, Config(domain, map[m := mb.(hooks := [hook])])) <==> IsRunnable(hook)
  {
    hide EffectiveName, SingleError, IsRunnable;
    SingleOkMeans(hook);
    var empty := Config(domain, map[m := mb.(hooks := [])]);
    assert Push(empty, m, hook) == Config(domain, map[m := mb.(hooks := [hook])]) by {
      assert [] + [hook] == [hook];
      assert empty.mailboxes[m := mb.(hooks := [hook])] == map[m := mb.(hooks := [hook])];
    }
    PushIsValid(sha, empty, m, hook);
  }

  lemma PushPlaces(sha: Sha, cfg: Config, m: string, hook: Hook)
    requires m in cfg.mailboxes
    ensures var after := Push(cfg, m, hook);
      forall m1, i1 :: At(after, m1, i1) <==> At(cfg, m1, i1) || (m1 == m && i1 == |cfg.mailboxes[m].hooks|)
    ensures var after := Push(cfg, m, hook);
      forall m1, i1 :: At(cfg, m1, i1) ==>
        At(after, m1, i1) && after.mailboxes[m1].hooks[i1] == cfg.mailboxes[m1].hooks[i1]
  {
  }

  lemma {:induction false} RetainWithout(sha: Sha, hooks: seq<Hook>, name: string)
    requires forall i :: 0 <= i < |hooks| ==> EffectiveName(sha, hooks[i]) != name
    ensures Retain(sha, hooks, name) == hooks
  {
    if hooks != [] {
      RetainWithout(sha, hooks[1..], name);
    }
  }

  function CutOut(hooks: seq<Hook>, i: int): seq<Hook>
    requires 0 <= i < |hooks|
  {
    hooks[..i] + hooks[i + 1..]
  }

  lemma {:induction false} RetainCutsOne(sha: Sha, hooks: seq<Hook>, i: int, name: string)
    requires 0 <= i < |hooks| && EffectiveName(sha, hooks[i]) == name
    requires forall j :: 0 <= j < |hooks| && j != i ==> EffectiveName(sha, hooks[j]) != name
    ensures Retain(sha, hooks, name) == CutOut(hooks, i)
  {
    hide EffectiveName;
    var rest := hooks[1..];
    if i == 0 {
      RetainWithout(sha, rest, name);
    } else {
      assert rest[i - 1] == hooks[i];
      forall j | 0 <= j < |rest| && j != i - 1
        ensures EffectiveName(sha, rest[j]) != name
      {
        assert rest[j] == hooks[j + 1];
      }
      RetainCutsOne(sha, rest, i - 1, name);
      assert [hooks[0]] + CutOut(rest, i - 1) == CutOut(hooks, i);
    }
  }

  /** With unique names, retaining all other names cuts out exactly one hook. */
  lemma RemoveCutsOne(sha: Sha, cfg: Config, m: string, i: int, name: string)
    requires NamesUnique(sha, cfg) && At(cfg, m, i) && NameAt(sha, cfg, m, i) == name
    ensures Remove(sha, cfg, m, name) == WithHooks(cfg, m, CutOut(cfg.mailboxes[m].hooks, i))
  {
    hide EffectiveName, Retain, CutOut;
    var hooks := cfg.mailboxes[m].hooks;
    forall j | 0 <= j < |hooks| && j != i
      ensures EffectiveName(sha, hooks[j]) != name
    {
      assert At(cfg, m, j);
      assert NameAt(sha, cfg, m, j) != NameAt(sha, cfg, m, i);
    }
    RetainCutsOne(sha, hooks, i, name);
  }

  /** The same in the hook's own terms: the list of its mailbox loses place `i`, and nothing else changes. */
  lemma RemoveSplices(sha: Sha, cfg: Config, m: string, i: int, name: string)
    requires NamesUnique(sha, cfg) && At(cfg, m, i) && GoesBy(sha, cfg.mailboxes[m].hooks[i], name)
    ensures var mb := cfg.mailboxes[m];
      Remove(sha, cfg, m, name)
      == Config(cfg.domain, cfg.mailboxes[m := Mailbox(mb.address, mb.owner, mb.hooks[..i] + mb.hooks[i + 1..])])
  {
    hide EffectiveName, GoesBy, Remove;
    GoesByItsName(sha, cfg.mailboxes[m].hooks[i], name);
    RemoveCutsOne(sha, cfg, m, i, name);
  }

  /** ... leaves no hook of that name anywhere, and keeps the configuration valid. */
  lemma RemoveKeepsValid(sha: Sha, cfg: Config, m: string, i: int, name: string)
    requires ValidHooks(sha, cfg) && At(cfg, m, i) && NameAt(sha, cfg, m, i) == name
    ensures ValidHooks(sha, Remove(sha, cfg, m, name))
    ensures !HasName(sha, Remove(sha, cfg, m, name), name)
  {
    hide EffectiveName, SingleError;
    RemoveCutsOne(sha, cfg, m, i, name);
    CutPlaces(sha, cfg, m, i);
    var after := WithHooks(cfg, m, CutOut(cfg.mailboxes[m].hooks, i));
    forall m1, j1 | At(after, m1, j1)
      ensures SingleError(after.mailboxes[m1].hooks[j1]).None?
      ensures NameAt(sha, after, m1, j1) != name
    {
      var i1 := Before(m, i, m1, j1);
      assert At(cfg, m1, i1) && NameAt(sha, after, m1, j1) == NameAt(sha, cfg, m1, i1);
    }
    forall m1, j1, m2, j2 | At(after, m1, j1) && At(after, m2, j2)
      && NameAt(sha, after, m1, j1) == NameAt(sha, after, m2, j2)
      ensures m1 == m2 && j1 == j2
    {
      var i1, i2 := Before(m, i, m1, j1), Before(m, i, m2, j2);
      assert At(cfg, m1, i1) && At(cfg, m2, i2);
      assert NameAt(sha, cfg, m1, i1) == NameAt(sha, cfg, m2, i2);
    }
  }

  /** Where a hook stood before place `i` of mailbox `m` was cut out. */
  function Before(m: string, i: int, m1: string, j1: int): int {
    if m1 == m && i <= j1 then j1 + 1 else j1
  }

  lemma CutPlaces(sha: Sha, cfg: Config, m: string, i: int)
    requires At(cfg, m, i)
    ensures var after := WithHooks(cfg, m, CutOut(cfg.mailboxes[m].hooks, i));
      forall m1, j1 :: At(after, m1, j1) ==>
        && At(cfg, m1, Before(m, i, m1, j1)) && (m1, Before(m, i, m1, j1)) != (m, i)
        && after.mailboxes[m1].hooks[j1] == cfg.mailboxes[m1].hooks[Before(m, i, m1, j1)]
  {
  }

  /** Creating a hook and deleting it again gives back the configuration, order included. */
  lemma CreateThenDelete(sha: Sha, cfg: Config, m: string, hook: Hook)
    requires m in cfg.mailboxes && ValidHooks(sha, Push(cfg, m, hook))
    ensures Remove(sha, Push(cfg, m, hook), m, EffectiveName(sha, hook)) == cfg
  {
    hide EffectiveName, SingleError;
    var n := |cfg.mailboxes[m].hooks|;
    var after := Push(cfg, m, hook);
    assert At(after, m, n) && NameAt(sha, after, m, n) == EffectiveName(sha, hook);
    RemoveCutsOne(sha, after, m, n, EffectiveName(sha, hook));
    assert CutOut(after.mailboxes[m].hooks, n) == cfg.mailboxes[m].hooks;
    assert cfg.mailboxes[m].(hooks := cfg.mailboxes[m].hooks) == cfg.mailboxes[m];
    assert after.mailboxes[m := cfg.mailboxes[m]] == cfg.mailboxes;
  }

  // ---- the edits in the hooks' own terms ----------------------------------------------

  /** A retain shortens the list exactly when the name was there. */
  lemma {:induction false} RetainLength(sha: Sha, hooks: seq<Hook>, name: string)
    ensures |Retain(sha, hooks, name)| <= |hooks|
    ensures |Retain(sha, hooks, name)| < |hooks| <==>
      exists i :: 0 <= i < |hooks| && EffectiveName(sha, hooks[i]) == name
  {
    hide EffectiveName;
    if hooks != [] {
      var rest := hooks[1..];
      RetainLength(sha, rest, name);
      if i :| 0 <= i < |rest| && EffectiveName(sha, rest[i]) == name {
        assert hooks[i + 1] == rest[i];
      }
      if i :| 0 <= i < |hooks| && EffectiveName(sha, hooks[i]) == name && i > 0 {
        assert rest[i - 1] == hooks[i];
      }
    }
  }

  lemma OwnsMeansShorter(sha: Sha, cfg: Config, m: string, name: string)
    requires m in cfg.mailboxes
    ensures Owns(sha, cfg, m, name) <==> |Retain(sha, cfg.mailboxes[m].hooks, name)| != |cfg.mailboxes[m].hooks|
  {
    hide EffectiveName;
    RetainLength(sha, cfg.mailboxes[m].hooks, name);
  }

  /** The configuration with a hook added behind the others of mailbox `m`, all else as it was. */
  function WithHookAdded(cfg: Config, m: string, hook: Hook): Config
    requires m in cfg.mailboxes
  {
    var mb := cfg.mailboxes[m];
    Config(cfg.domain, cfg.mailboxes[m := Mailbox(mb.address, mb.owner, mb.hooks + [hook])])
  }

  /** ... and with the hook at place `i` of mailbox `m` taken out. */
  function WithHookCut(cfg: Config, m: string, i: nat): Config
    requires m in cfg.mailboxes && i < |cfg.mailboxes[m].hooks|
  {
    var mb := cfg.mailboxes[m];
    Config(cfg.domain, cfg.mailboxes[m := Mailbox(mb.address, mb.owner, mb.hooks[..i] + mb.hooks[i + 1..])])
  }

  /** A hook of mailbox `m` answers to the name. */
  ghost predicate HasHook(sha: Sha, cfg: Config, m: string, name: string) {
    exists i :: At(cfg, m, i) && GoesBy(sha, cfg.mailboxes[m].hooks[i], name)
  }

  lemma HasHookMeans(sha: Sha, cfg: Config, m: string, name: string)
    ensures HasHook(sha, cfg, m, name) <==> Owns(sha, cfg, m, name)
  {
    hide EffectiveName, GoesBy;
    forall i | At(cfg, m, i)
      ensures EffectiveName(sha, cfg.mailboxes[m].hooks[i]) == name
        <==> GoesBy(sha, cfg.mailboxes[m].hooks[i], name)
    {
      GoesByItsName(sha, cfg.mailboxes[m].hooks[i], name);
    }
    if Owns(sha, cfg, m, name) {
      var i :| 0 <= i < |cfg.mailboxes[m].hooks| && EffectiveName(sha, cfg.mailboxes[m].hooks[i]) == name;
      assert At(cfg, m, i);
    }
  }

  /** What is removed is the one hook that answers to the name. */
  lemma RemovedIsCut(sha: Sha, cfg: Config, m: string, name: string) returns (i: nat)
    requires NoneClash(sha, cfg) && HasHook(sha, cfg, m, name)
    ensures At(cfg, m, i) && GoesBy(sha, cfg.mailboxes[m].hooks[i], name)
    ensures Remove(sha, cfg, m, name) == WithHookCut(cfg, m, i)
  {
    hide NoneClash, GoesBy, Remove;
    UniqueMeans(sha, cfg);
    i :| At(cfg, m, i) && GoesBy(sha, cfg.mailboxes[m].hooks[i], name);
    RemoveSplices(sha, cfg, m, i, name);
  }

  /** Of any list a retain takes out the hooks that answer to the name and keeps the others, in order. */
  lemma {:induction false} RetainIsFilter(sha: Sha, front: seq<Hook>, hook: Hook, rest: seq<Hook>, name: string)
    ensures Retain(sha, front + [hook] + rest, name)
         == Retain(sha, front, name) + (if GoesBy(sha, hook, name) then [] else [hook]) + Retain(sha, rest, name)
    ensures Retain(sha, [], name) == []
  {
    hide EffectiveName, GoesBy;
    var all := front + [hook] + rest;
    if front == [] {
      GoesByItsName(sha, hook, name);
      assert all[0] == hook && all[1..] == rest;
    } else {
      assert all[0] == front[0] && all[1..] == front[1..] + [hook] + rest;
      RetainIsFilter(sha, front[1..], hook, rest, name);
    }
  }

  // ---- the catchall ------------------------------------------------------------------

  function LowerChar(c: char): char {
    if 'A' <= c <= 'Z' then c - 'A' + 'a' else c
  }

  predicate EqIgnoreAsciiCase(a: string, b: string) {
    |a| == |b| && forall i :: 0 <= i < |a| ==> LowerChar(a[i]) == LowerChar(b[i])
  }

  predicate IsCatchall(cfg: Config, mb: Mailbox) {
    EqIgnoreAsciiCase(mb.address, "*@" + cfg.domain)
  }

  /** Equal, or one letter in its two cases. */
  predicate SameLetter(c: char, d: char) {
    || c == d
    || ('A' <= c <= 'Z' && d as int == c as int + 32)
    || ('A' <= d <= 'Z' && c as int == d as int + 32)
  }

  /** The address is `*@` and the domain, in any case. */
  predicate IsStarAddress(address: string, domain: string) {
    && |address| == |domain| + 2 && address[0] == '*' && address[1] == '@'
    && forall i :: 0 <= i < |domain| ==> SameLetter(address[i + 2], domain[i])
  }

  lemma LowerMeans(c: char, d: char)
    ensures LowerChar(c) == LowerChar(d) <==> SameLetter(c, d)
  {
  }

  lemma CatchallMeans(cfg: Config, mb: Mailbox)
    ensures IsCatchall(cfg, mb) <==> IsStarAddress(mb.address, cfg.domain)
    ensures mb.address == "*@" + cfg.domain ==> IsCatchall(cfg, mb)
  {
    hide LowerChar, SameLetter;
    var star := "*@" + cfg.domain;
    forall c, d
      ensures LowerChar(c) == LowerChar(d) <==> SameLetter(c, d)
    {
      LowerMeans(c, d);
    }
    OnlyItself(mb.address);
    assert star[0] == '*' && star[1] == '@' && forall i :: 0 <= i < |cfg.domain| ==> star[i + 2] == cfg.domain[i];
    assert forall i :: 2 <= i < |star| ==> star[i] == cfg.domain[i - 2];
  }

  lemma OnlyItself(address: string)
    ensures |address| > 0 ==> (SameLetter(address[0], '*') <==> address[0] == '*')
    ensures |address| > 1 ==> (SameLetter(address[1], '@') <==> address[1] == '@')
  {
  }

  predicate CatchallHasNoHooks(cfg: Config) {
    forall m :: m in cfg.mailboxes && IsCatchall(cfg, cfg.mailboxes[m]) ==> cfg.mailboxes[m].hooks == []
  }

  /** The part of loading a configuration that concerns hooks. */
  ghost predicate Loadable(sha: Sha, cfg: Config) {
    ValidHooks(sha, cfg) && CatchallHasNoHooks(cfg)
  }

  predicate IsNameChar(c: char) {
    'a' <= c <= 'z' || '0' <= c <= '9' || c == '.' || c == '_' || c == '-'
  }

  predicate ContainsDotDot(s: string) {
    exists i :: 0 <= i < |s| - 1 && s[i] == '.' && s[i + 1] == '.'
  }

  predicate IsValidMailboxName(name: string) {
    && name != "" && !ContainsDotDot(name)
    && name[0] != '.' && name[|name| - 1] != '.'
    && name != "catchall" && name != "aimx-catchall"
    && forall i :: 0 <= i < |name| ==> IsNameChar(name[i])
  }

  /** Lower-case letters, digits, `_`, `-`, and dots none of which stands at an end or beside another. */
  lemma MailboxNameMeans(name: string)
    ensures IsValidMailboxName(name) <==>
      && name != "" && name != "catchall" && name != "aimx-catchall"
      && (forall i :: 0 <= i < |name| ==> name[i] in LOWER || name[i] in DIGITS || name[i] in "_-.")
      && (forall i :: 0 <= i < |name| && name[i] == '.' ==> 0 < i < |name| - 1 && name[i + 1] != '.')
  {
    forall i | 0 <= i < |name|
      ensures IsNameChar(name[i]) <==> name[i] in LOWER || name[i] in DIGITS || name[i] in "_-."
    {
      InAlphabet(name[i]);
      assert name[i] in "_-." <==> name[i] == '_' || name[i] == '-' || name[i] == '.';
    }
  }

  /** A configuration loads when its hooks are valid and none is on a mailbox whose address is `*@` and
      the domain. */
  lemma LoadableMeans(sha: Sha, cfg: Config)
    ensures Loadable(sha, cfg) <==>
      && AllRunnable(cfg) && NoneClash(sha, cfg)
      && forall m :: m in cfg.mailboxes && IsStarAddress(cfg.mailboxes[m].address, cfg.domain) ==>
           cfg.mailboxes[m].hooks == []
  {
    hide AllRunnable, NoneClash, ValidHooks, IsCatchall, IsStarAddress;
    ValidMeans(sha, cfg);
    forall m | m in cfg.mailboxes
      ensures IsCatchall(cfg, cfg.mailboxes[m]) <==> IsStarAddress(cfg.mailboxes[m].address, cfg.domain)
    {
      CatchallMeans(cfg, cfg.mailboxes[m]);
    }
  }

  /** A created mailbox is never the catchall, whatever the domain. */
  lemma CreatedIsNotCatchall(cfg: Config, name: string, owner: string)
    requires IsValidMailboxName(name)
    ensures !IsCatchall(cfg, Mailbox(name + "@" + cfg.domain, owner, []))
  {
    var a, b := name + "@" + cfg.domain, "*@" + cfg.domain;
    if |a| == |b| {
      assert a[0] == name[0] && b[0] == '*';
    }
  }
}
