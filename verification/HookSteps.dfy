/** The handlers' work under both locks, as a run of the protocol's steps. */
module HookSteps {
  import opened Text
  import opened HookNames
  import opened HookConfig
  import opened HookProtocol

  /** What a handler does to the configuration once it holds both locks. */
  ghost function EditUnderLocks(sha: Sha, cfg: Config, change: Change, works: bool): Option<Config> {
    if works && Accepted(sha, cfg, change) then Some(Apply(sha, cfg, change)) else None
  }

  /** The state after worker `w`, which waits for its locks, has been served without a break. */
  ghost function Served(sha: Sha, s: State, w: nat, works: bool): State
    requires w in s.workers && s.workers[w].phase.Ready? && !s.workers[w].request.ReloadConfig?
  {
    var change := ChangeOf(s.workers[w].request, s.workers[w].phase.target);
    match EditUnderLocks(sha, s.mem, change, works)
    case None => Moved(s, w, Finished(false))
    case Some(next) =>
      Moved(s, w, Finished(true)).(
        mem := next, disk := next, byHand := false, log := s.log + [Entry(w, change, s.mem)])
  }

  /** The states differ at most in where an epoch has begun. */
  predicate SameButEpoch(s: State, t: State) {
    s == t.(epoch := s.epoch, stale := s.stale)
  }

  /** What a step does has nothing to do with epochs. */
  lemma StepSame(sha: Sha, s: State, t: State, a: Action)
    requires SameButEpoch(s, t) && Enabled(sha, t, a)
    ensures Enabled(sha, s, a) && SameButEpoch(Step(sha, s, a), Move(sha, t, a))
  {
    hide Accepted, Apply, Passes, Loadable, IsTogether;
  }

  /** One step further, followed on a state that may differ in its epoch. */
  lemma Follow(sha: Sha, s: State, t: State, u: State, a: Action) returns (v: State)
    requires Leads(sha, s, t) && SameButEpoch(t, u) && Enabled(sha, u, a)
    ensures Leads(sha, s, v) && SameButEpoch(v, Move(sha, u, a))
  {
    hide Enabled, Leads, Step, Move, SameButEpoch;
    StepSame(sha, t, u, a);
    LeadsOn(sha, s, t, a);
    v := Step(sha, t, a);
  }

  lemma LocksGiven(sha: Sha, s: State, w: nat)
    requires w in s.workers && s.workers[w].phase.Ready?
    requires s.workers[w].phase.target !in s.mailboxLock && s.configLock.None?
    ensures Enabled(sha, s, LockMailbox(w)) && Enabled(sha, Move(sha, s, LockMailbox(w)), LockConfig(w))
    ensures var target := s.workers[w].phase.target;
      Move(sha, Move(sha, s, LockMailbox(w)), LockConfig(w))
      == Moved(s, w, HasBoth(target)).(mailboxLock := s.mailboxLock[target := w], configLock := Some(w))
  {
  }

  lemma EditSaved(sha: Sha, s: State, w: nat, target: string, change: Change)
    requires w in s.workers && s.workers[w].phase == HasBoth(target) && !s.workers[w].request.ReloadConfig?
    requires change == ChangeOf(s.workers[w].request, target) && Accepted(sha, s.mem, change)
    ensures Enabled(sha, s, MakeEdit(w)) && Enabled(sha, Move(sha, s, MakeEdit(w)), Save(w))
    ensures var next := Apply(sha, s.mem, change);
      Move(sha, Move(sha, s, MakeEdit(w)), Save(w))
      == Moved(s, w, Saved(target, next)).(
           disk := next, byHand := false, log := s.log + [Entry(w, change, s.mem)])
  {
    hide Accepted, Apply;
  }

  lemma SwappedAndLeft(sha: Sha, s: State, w: nat, target: string, next: Config)
    requires w in s.workers && s.workers[w].phase == Saved(target, next)
    ensures Enabled(sha, s, Swap(w)) && Enabled(sha, Move(sha, s, Swap(w)), Unlock(w))
    ensures Move(sha, Move(sha, s, Swap(w)), Unlock(w))
         == Unlocked(Moved(s, w, Finished(true)).(mem := next), target)
  {
  }

  lemma GivenUp(sha: Sha, s: State, w: nat, target: string)
    requires w in s.workers && s.workers[w].phase == HasBoth(target)
    ensures Enabled(sha, s, GiveUp(w)) && Move(sha, s, GiveUp(w)) == Unlocked(Moved(s, w, Finished(false)), target)
  {
  }

  lemma FollowTwo(sha: Sha, s: State, t: State, u: State, a: Action, b: Action) returns (v: State)
    requires Leads(sha, s, t) && SameButEpoch(t, u) && Enabled(sha, u, a) && Enabled(sha, Move(sha, u, a), b)
    ensures Leads(sha, s, v) && SameButEpoch(v, Move(sha, Move(sha, u, a), b))
  {
    hide Enabled, Leads, Move, SameButEpoch;
    v := Follow(sha, s, t, u, a);
    v := Follow(sha, s, v, Move(sha, u, a), b);
  }

  /** Lock, edit, save, swap and unlock, or lock and give up: this is what the handlers do. */
  lemma ServedBySteps(sha: Sha, s: State, w: nat, works: bool) returns (t: State)
    requires w in s.workers && s.workers[w].phase.Ready? && !s.workers[w].request.ReloadConfig?
    requires s.workers[w].phase.target !in s.mailboxLock && s.configLock.None?
    ensures Leads(sha, s, t) && SameButEpoch(t, Served(sha, s, w, works))
  {
    hide Accepted, Apply, Leads, Enabled, Move;
    var target := s.workers[w].phase.target;
    var change := ChangeOf(s.workers[w].request, target);
    LeadsNowhere(sha, s);
    LocksGiven(sha, s, w);
    t := FollowTwo(sha, s, s, s, LockMailbox(w), LockConfig(w));
    var u := Moved(s, w, HasBoth(target)).(mailboxLock := s.mailboxLock[target := w], configLock := Some(w));
    assert s.mailboxLock[target := w] - {target} == s.mailboxLock;
    if !works || !Accepted(sha, s.mem, change) {
      GivenUp(sha, u, w, target);
      t := Follow(sha, s, t, u, GiveUp(w));
    } else {
      EditSaved(sha, u, w, target, change);
      t := FollowTwo(sha, s, t, u, MakeEdit(w), Save(w));
      u := Move(sha, Move(sha, u, MakeEdit(w)), Save(w));
      SwappedAndLeft(sha, u, w, target, Apply(sha, s.mem, change));
      t := FollowTwo(sha, s, t, u, Swap(w), Unlock(w));
    }
  }
}
