/** Creating and deleting mailboxes: what is on disk after every single file operation,
    so at every point where a crash can happen. */
module MailboxLayout {
  import opened HookConfig

  type Contents = set<string>

  datatype Disk = Disk(config: Config, inbox: map<string, Contents>, sent: map<string, Contents>)

  /** Every mailbox of the saved configuration has both its directories. */
  predicate Whole(d: Disk) {
    forall m :: m in d.config.mailboxes ==> m in d.inbox && m in d.sent
  }

  /** Mailbox `m` is as it was, mail included. */
  predicate Intact(before: Disk, after: Disk, m: string) {
    && m in before.config.mailboxes && m in after.config.mailboxes
    && after.config.mailboxes[m] == before.config.mailboxes[m]
    && m in before.inbox && m in after.inbox && after.inbox[m] == before.inbox[m]
    && m in before.sent && m in after.sent && after.sent[m] == before.sent[m]
  }

  /** How a recursive removal ends: what it leaves on the way, and whether it finishes. */
  datatype Removal = Removal(left: Contents, finished: bool)

  /** Which file operations work. `owns` is the change of ownership or mode of both directories,
      `unseen` and `uncounted` are the entries that the listing of a directory does not give to the
      wipe and to the count behind it. */
  datatype Luck = Luck(
    mkInbox: bool, mkSent: bool, asRoot: bool, owns: bool, save: bool,
    admits: bool, rmInbox: Removal, rmSent: Removal, unseen: Contents, uncounted: Contents)

  datatype Operation =
    | DirectCreate(name: string, owner: string)
    | DirectDelete(name: string)
    | DaemonCreate(name: string, owner: string)
    | DaemonDelete(name: string, force: bool)

  // ---- single file operations ---------------------------------------------------------

  /** Creating a directory that exists is no error and changes nothing. */
  function MadeInbox(d: Disk, m: string): Disk {
    if m in d.inbox then d else d.(inbox := d.inbox[m := {}])
  }

  function MadeSent(d: Disk, m: string): Disk {
    if m in d.sent then d else d.(sent := d.sent[m := {}])
  }

  function Saved(d: Disk, config: Config): Disk {
    d.(config := config)
  }

  /** A recursive removal, as it is halfway and at its end. */
  function RemovingInbox(d: Disk, m: string, r: Removal): seq<Disk> {
    if m !in d.inbox then []
    else if r.finished then [d.(inbox := d.inbox[m := d.inbox[m] * r.left]), d.(inbox := d.inbox - {m})]
    else [d.(inbox := d.inbox[m := d.inbox[m] * r.left])]
  }

  function RemovingSent(d: Disk, m: string, r: Removal): seq<Disk> {
    if m !in d.sent then []
    else if r.finished then [d.(sent := d.sent[m := d.sent[m] * r.left]), d.(sent := d.sent - {m})]
    else [d.(sent := d.sent[m := d.sent[m] * r.left])]
  }

  function Last(d: Disk, steps: seq<Disk>): Disk {
    if steps == [] then d else steps[|steps| - 1]
  }

  function WithMailbox(config: Config, m: string, owner: string): Config {
    config.(mailboxes := config.mailboxes[m := Mailbox(m + "@" + config.domain, owner, [])])
  }

  function WithoutMailbox(config: Config, m: string): Config {
    config.(mailboxes := config.mailboxes - {m})
  }

  // ---- the operations, as the disk goes through them ----------------------------------------

  function RemovingBoth(d: Disk, m: string, luck: Luck): seq<Disk> {
    var first := RemovingInbox(d, m, luck.rmInbox);
    first + RemovingSent(Last(d, first), m, luck.rmSent)
  }

  function DirectCreateSteps(d: Disk, m: string, owner: string, luck: Luck): seq<Disk> {
    if !IsValidMailboxName(m) || m in d.config.mailboxes || !luck.mkInbox then []
    else
      var d1 := MadeInbox(d, m);
      if !luck.mkSent then [d1] + RemovingInbox(d1, m, luck.rmInbox)
      else
        var d2 := MadeSent(d1, m);
        if !luck.owns then [d1, d2] + (if luck.asRoot then RemovingBoth(d2, m, luck) else [])
        else if !luck.save then [d1, d2]
        else [d1, d2, Saved(d2, WithMailbox(d.config, m, owner))]
  }

  /** The configuration is saved first, the directories go after. */
  function DirectDeleteSteps(d: Disk, m: string, luck: Luck): seq<Disk> {
    if m == "catchall" || m !in d.config.mailboxes || !luck.save then []
    else
      var d1 := Saved(d, WithoutMailbox(d.config, m));
      [d1] + RemovingBoth(d1, m, luck)
  }

  /** Only directories this call has made are removed again, and only while empty. */
  function UnmadeDirs(d: Disk, now: Disk, m: string, luck: Luck): seq<Disk> {
    var first := if m !in d.inbox && luck.rmInbox.finished then [now.(inbox := now.inbox - {m})] else [];
    var next := Last(now, first);
    first + (if m !in d.sent && luck.rmSent.finished then [next.(sent := next.sent - {m})] else [])
  }

  function DaemonCreateSteps(d: Disk, m: string, owner: string, luck: Luck): seq<Disk> {
    if !IsValidMailboxName(m) || m in d.config.mailboxes || !luck.admits || !luck.mkInbox then []
    else
      var d1 := MadeInbox(d, m);
      if !luck.mkSent then
        [d1] + (if m !in d.inbox && luck.rmInbox.finished then [d1.(inbox := d1.inbox - {m})] else [])
      else
        var d2 := MadeSent(d1, m);
        if !luck.owns || !luck.save then [d1, d2] + UnmadeDirs(d, d2, m, luck)
        else [d1, d2, Saved(d2, WithMailbox(d.config, m, owner))]
  }

  /** A wipe empties a directory of the entries it sees; it may stop halfway. */
  function WipingInbox(d: Disk, m: string, r: Removal, unseen: Contents): seq<Disk> {
    if m !in d.inbox then []
    else
      var half := d.(inbox := d.inbox[m := d.inbox[m] * r.left]);
      if r.finished then [half, d.(inbox := d.inbox[m := d.inbox[m] * unseen])] else [half]
  }

  function WipingSent(d: Disk, m: string, r: Removal, unseen: Contents): seq<Disk> {
    if m !in d.sent then []
    else
      var half := d.(sent := d.sent[m := d.sent[m] * r.left]);
      if r.finished then [half, d.(sent := d.sent[m := d.sent[m] * unseen])] else [half]
  }

  /** A forced delete wipes the inbox and then the sent directory. */
  function WipeSteps(d: Disk, m: string, luck: Luck): seq<Disk> {
    var first := WipingInbox(d, m, luck.rmInbox, luck.unseen);
    if m in d.inbox && !luck.rmInbox.finished then first
    else first + WipingSent(Last(d, first), m, luck.rmSent, luck.unseen)
  }

  predicate Wipes(d: Disk, m: string, luck: Luck) {
    (m in d.inbox ==> luck.rmInbox.finished) && (m in d.sent ==> luck.rmSent.finished)
  }

  /** The count of what is left; a missing directory counts as empty. */
  function FilesIn(d: Disk, m: string, uncounted: Contents): nat {
    (if m in d.inbox then |d.inbox[m] - uncounted| else 0) + (if m in d.sent then |d.sent[m] - uncounted| else 0)
  }

  function DaemonDeleteSteps(d: Disk, m: string, force: bool, luck: Luck): seq<Disk> {
    if !IsValidMailboxName(m) || !luck.admits || m !in d.config.mailboxes then []
    else
      var wipe := if force then WipeSteps(d, m, luck) else [];
      var d1 := Last(d, wipe);
      if (force && !Wipes(d, m, luck)) || FilesIn(d1, m, luck.uncounted) > 0 || !luck.save then wipe
      else wipe + [Saved(d1, WithoutMailbox(d.config, m))]
  }

  function Steps(d: Disk, op: Operation, luck: Luck): seq<Disk> {
    match op
    case DirectCreate(m, owner) => DirectCreateSteps(d, m, owner, luck)
    case DirectDelete(m) => DirectDeleteSteps(d, m, luck)
    case DaemonCreate(m, owner) => DaemonCreateSteps(d, m, owner, luck)
    case DaemonDelete(m, force) => DaemonDeleteSteps(d, m, force, luck)
  }

  // ---- one operation -----------------------------------------------------------------------

  /** Only mailbox `m` differs, and if it is configured it has its directories. */
  predicate Fine(d: Disk, s: Disk, m: string) {
    && (m in s.config.mailboxes ==> m in s.inbox && m in s.sent)
    && s.config.mailboxes - {m} == d.config.mailboxes - {m}
    && s.inbox - {m} == d.inbox - {m}
    && s.sent - {m} == d.sent - {m}
  }

  ghost predicate AllFine(d: Disk, steps: seq<Disk>, m: string) {
    forall i :: 0 <= i < |steps| ==> Fine(d, steps[i], m)
  }

  lemma RemovingInboxIsFine(d: Disk, now: Disk, m: string, r: Removal)
    requires Fine(d, now, m) && m !in now.config.mailboxes
    ensures AllFine(d, RemovingInbox(now, m, r), m)
    ensures Last(now, RemovingInbox(now, m, r)).config == now.config && Fine(d, Last(now, RemovingInbox(now, m, r)), m)
  {
    var left: map<string, Contents> := if m in now.inbox then now.inbox[m := now.inbox[m] * r.left] else now.inbox;
    assert left - {m} == now.inbox - {m} == (now.inbox - {m}) - {m};
  }

  lemma RemovingSentIsFine(d: Disk, now: Disk, m: string, r: Removal)
    requires Fine(d, now, m) && m !in now.config.mailboxes
    ensures AllFine(d, RemovingSent(now, m, r), m)
  {
    var left: map<string, Contents> := if m in now.sent then now.sent[m := now.sent[m] * r.left] else now.sent;
    assert left - {m} == now.sent - {m} == (now.sent - {m}) - {m};
  }

  lemma RemovingIsFine(d: Disk, now: Disk, m: string, luck: Luck)
    requires Fine(d, now, m) && m !in now.config.mailboxes
    ensures AllFine(d, RemovingInbox(now, m, luck.rmInbox), m)
    ensures AllFine(d, RemovingBoth(now, m, luck), m)
  {
    hide Fine, RemovingInbox, RemovingSent, Last;
    RemovingInboxIsFine(d, now, m, luck.rmInbox);
    RemovingSentIsFine(d, Last(now, RemovingInbox(now, m, luck.rmInbox)), m, luck.rmSent);
  }

  lemma MakingIsFine(d: Disk, m: string, owner: string)
    requires m !in d.config.mailboxes
    ensures var d1 := MadeInbox(d, m); var d2 := MadeSent(d1, m);
      Fine(d, d1, m) && Fine(d, d2, m) && Fine(d, Saved(d2, WithMailbox(d.config, m, owner)), m)
      && m !in d1.config.mailboxes && m !in d2.config.mailboxes
  {
  }

  lemma DirectCreateIsFine(d: Disk, m: string, owner: string, luck: Luck)
    ensures AllFine(d, DirectCreateSteps(d, m, owner, luck), m)
  {
    hide IsValidMailboxName, Fine, RemovingInbox, RemovingBoth, MadeInbox, MadeSent, WithMailbox, Saved;
    if m !in d.config.mailboxes {
      MakingIsFine(d, m, owner);
      RemovingIsFine(d, MadeInbox(d, m), m, luck);
      RemovingIsFine(d, MadeSent(MadeInbox(d, m), m), m, luck);
    }
  }

  lemma DirectDeleteIsFine(d: Disk, m: string, luck: Luck)
    ensures AllFine(d, DirectDeleteSteps(d, m, luck), m)
  {
    hide RemovingBoth;
    var d1 := Saved(d, WithoutMailbox(d.config, m));
    assert Fine(d, d1, m);
    RemovingIsFine(d, d1, m, luck);
  }

  lemma UnmakingIsFine(d: Disk, now: Disk, m: string, luck: Luck)
    requires Fine(d, now, m) && m !in now.config.mailboxes
    ensures Fine(d, now.(inbox := now.inbox - {m}), m)
    ensures AllFine(d, UnmadeDirs(d, now, m, luck), m)
  {
  }

  lemma DaemonCreateIsFine(d: Disk, m: string, owner: string, luck: Luck)
    ensures AllFine(d, DaemonCreateSteps(d, m, owner, luck), m)
  {
    hide IsValidMailboxName, Fine, UnmadeDirs, MadeInbox, MadeSent, WithMailbox, Saved;
    if m !in d.config.mailboxes {
      MakingIsFine(d, m, owner);
      UnmakingIsFine(d, MadeInbox(d, m), m, luck);
      UnmakingIsFine(d, MadeSent(MadeInbox(d, m), m), m, luck);
    }
  }

  lemma EmptiedIsFine(d: Disk, now: Disk, m: string, kept: Contents)
    requires Fine(d, now, m)
    ensures m in now.inbox ==> Fine(d, now.(inbox := now.inbox[m := kept]), m)
    ensures m in now.sent ==> Fine(d, now.(sent := now.sent[m := kept]), m)
  {
    assert now.inbox[m := kept] - {m} == now.inbox - {m};
    assert now.sent[m := kept] - {m} == now.sent - {m};
  }

  lemma WipeIsFine(d: Disk, m: string, luck: Luck)
    requires Fine(d, d, m)
    ensures AllFine(d, WipeSteps(d, m, luck), m)
    ensures var last := Last(d, WipeSteps(d, m, luck)); Fine(d, last, m) && last.config == d.config
  {
    hide Fine;
    if m in d.inbox {
      EmptiedIsFine(d, d, m, d.inbox[m] * luck.rmInbox.left);
      EmptiedIsFine(d, d, m, d.inbox[m] * luck.unseen);
    }
    var d1 := Last(d, WipingInbox(d, m, luck.rmInbox, luck.unseen));
    assert Fine(d, d1, m) && d1.config == d.config;
    if m in d1.sent {
      EmptiedIsFine(d, d1, m, d1.sent[m] * luck.rmSent.left);
      EmptiedIsFine(d, d1, m, d1.sent[m] * luck.unseen);
    }
  }

  lemma DaemonDeleteIsFine(d: Disk, m: string, force: bool, luck: Luck)
    requires m in d.config.mailboxes ==> m in d.inbox && m in d.sent
    ensures AllFine(d, DaemonDeleteSteps(d, m, force, luck), m)
  {
    hide IsValidMailboxName, WipeSteps, FilesIn, Wipes;
    if m in d.config.mailboxes {
      assert Fine(d, d, m);
      WipeIsFine(d, m, luck);
      var wipe := if force then WipeSteps(d, m, luck) else [];
      var d1 := Last(d, wipe);
      assert Fine(d, d1, m) && d1.config == d.config;
      assert Fine(d, Saved(d1, WithoutMailbox(d.config, m)), m);
      hide Fine;
      assert AllFine(d, wipe, m);
    }
  }

  lemma StepsAreFine(d: Disk, op: Operation, luck: Luck)
    requires Whole(d)
    ensures AllFine(d, Steps(d, op, luck), op.name)
  {
    hide DirectCreateSteps, DirectDeleteSteps, DaemonCreateSteps, DaemonDeleteSteps, AllFine;
    match op
    case DirectCreate(m, owner) => DirectCreateIsFine(d, m, owner, luck);
    case DirectDelete(m) => DirectDeleteIsFine(d, m, luck);
    case DaemonCreate(m, owner) => DaemonCreateIsFine(d, m, owner, luck);
    case DaemonDelete(m, force) => DaemonDeleteIsFine(d, m, force, luck);
  }

  lemma FineMeans(d: Disk, s: Disk, m: string)
    requires Whole(d) && Fine(d, s, m)
    ensures Whole(s)
    ensures forall k :: k in d.config.mailboxes && k != m ==> Intact(d, s, k)
  {
    forall k | k != m
      ensures k in s.config.mailboxes <==> k in d.config.mailboxes
      ensures k in d.config.mailboxes ==> s.config.mailboxes[k] == d.config.mailboxes[k]
      ensures k in s.inbox <==> k in d.inbox
      ensures k in d.inbox ==> s.inbox[k] == d.inbox[k]
      ensures k in s.sent <==> k in d.sent
      ensures k in d.sent ==> s.sent[k] == d.sent[k]
    {
      SameElsewhere(d.config.mailboxes, s.config.mailboxes, m, k);
      SameElsewhere(d.inbox, s.inbox, m, k);
      SameElsewhere(d.sent, s.sent, m, k);
    }
  }

  lemma SameElsewhere<T>(a: map<string, T>, b: map<string, T>, m: string, k: string)
    requires a - {m} == b - {m} && k != m
    ensures k in a <==> k in b
    ensures k in a ==> a[k] == b[k]
  {
    assert k in a <==> k in a - {m};
    assert k in b <==> k in b - {m};
    assert k in a ==> a[k] == (a - {m})[k];
  }

  /** After every file operation the disk is whole, whatever fails. */
  lemma StepsStayWhole(d: Disk, op: Operation, luck: Luck)
    requires Whole(d)
    ensures forall i :: 0 <= i < |Steps(d, op, luck)| ==> Whole(Steps(d, op, luck)[i])
  {
    hide Steps, Whole, Fine;
    StepsAreFine(d, op, luck);
    forall i | 0 <= i < |Steps(d, op, luck)|
      ensures Whole(Steps(d, op, luck)[i])
    {
      FineMeans(d, Steps(d, op, luck)[i], op.name);
    }
  }

  predicate Deletes(op: Operation, m: string) {
    (op.DirectDelete? || op.DaemonDelete?) && op.name == m
  }

  /** Mailboxes that the operation does not delete keep their entry and all their mail. In
      particular the rollback of a failed create never touches a registered mailbox. */
  lemma StepsKeepOthers(d: Disk, op: Operation, luck: Luck, m: string)
    requires Whole(d) && m in d.config.mailboxes && !Deletes(op, m)
    ensures forall i :: 0 <= i < |Steps(d, op, luck)| ==> Intact(d, Steps(d, op, luck)[i], m)
  {
    hide Whole, Fine, IsValidMailboxName, Intact;
    StepsAreFine(d, op, luck);
    if op.name != m {
      forall i | 0 <= i < |Steps(d, op, luck)|
        ensures Intact(d, Steps(d, op, luck)[i], m)
      {
        FineMeans(d, Steps(d, op, luck)[i], op.name);
      }
    }
  }

  /** Unless it is forced, a delete touches no directory before the mailbox has left the
      saved configuration. */
  lemma DeleteSavesFirst(d: Disk, op: Operation, luck: Luck, i: nat)
    requires i < |Steps(d, op, luck)|
    requires op.DirectDelete? || (op.DaemonDelete? && !op.force)
    ensures op.name !in Steps(d, op, luck)[i].config.mailboxes
  {
    hide IsValidMailboxName;
  }

  /** What a finished wipe leaves. */
  lemma WipeMeans(d: Disk, m: string, luck: Luck)
    requires m in d.inbox && m in d.sent
    ensures var after := Last(d, WipeSteps(d, m, luck));
      && m in after.inbox && m in after.sent && after.config == d.config
      && (Wipes(d, m, luck) ==>
            after.inbox[m] == d.inbox[m] * luck.unseen && after.sent[m] == d.sent[m] * luck.unseen)
  {
  }

  /** A forced delete empties the mailbox first. Where the wipe leaves nothing that counts, the mailbox
      stays registered exactly when the save fails, and what was in it is gone but for what the wipe
      did not see. */
  lemma ForcedDeleteCanEmpty(d: Disk, m: string, luck: Luck)
    requires Whole(d) && m in d.config.mailboxes && IsValidMailboxName(m)
    requires luck.admits && Wipes(d, m, luck) && luck.unseen <= luck.uncounted
    ensures var after := Last(d, Steps(d, DaemonDelete(m, true), luck));
      && (m in after.config.mailboxes <==> !luck.save)
      && m in after.inbox && after.inbox[m] == d.inbox[m] * luck.unseen
      && m in after.sent && after.sent[m] == d.sent[m] * luck.unseen
  {
    hide IsValidMailboxName, WipeSteps, Wipes;
    WipeMeans(d, m, luck);
    var d1 := Last(d, WipeSteps(d, m, luck));
    assert d1.inbox[m] - luck.uncounted == {} && d1.sent[m] - luck.uncounted == {};
  }

  /** No directory that was there before is gone or changed. */
  ghost predicate KeepsDirs(d: Disk, s: Disk) {
    && (forall k :: k in d.inbox ==> k in s.inbox && s.inbox[k] == d.inbox[k])
    && (forall k :: k in d.sent ==> k in s.sent && s.sent[k] == d.sent[k])
  }

  lemma MakingKeepsDirs(d: Disk, m: string, config: Config)
    ensures var d1 := MadeInbox(d, m); var d2 := MadeSent(d1, m);
      KeepsDirs(d, d1) && KeepsDirs(d, d2) && KeepsDirs(d, Saved(d2, config))
  {
  }

  lemma UnmakingKeepsDirs(d: Disk, now: Disk, m: string, luck: Luck)
    requires KeepsDirs(d, now)
    ensures m !in d.inbox ==> KeepsDirs(d, now.(inbox := now.inbox - {m}))
    ensures forall i :: 0 <= i < |UnmadeDirs(d, now, m, luck)| ==> KeepsDirs(d, UnmadeDirs(d, now, m, luck)[i])
  {
  }

  /** The daemon's create, failing or not, removes no directory that was there before. */
  lemma DaemonCreateKeepsAll(d: Disk, m: string, owner: string, luck: Luck, i: nat, k: string)
    requires i < |Steps(d, DaemonCreate(m, owner), luck)|
    ensures var s := Steps(d, DaemonCreate(m, owner), luck)[i];
      && (k in d.inbox ==> k in s.inbox && s.inbox[k] == d.inbox[k])
      && (k in d.sent ==> k in s.sent && s.sent[k] == d.sent[k])
  {
    var d1 := MadeInbox(d, m);
    var d2 := MadeSent(d1, m);
    MakingKeepsDirs(d, m, WithMailbox(d.config, m, owner));
    UnmakingKeepsDirs(d, d1, m, luck);
    UnmakingKeepsDirs(d, d2, m, luck);
    hide IsValidMailboxName, UnmadeDirs, MadeInbox, MadeSent, WithMailbox, Saved, KeepsDirs;
    assert KeepsDirs(d, Steps(d, DaemonCreate(m, owner), luck)[i]);
    KeepsOneDir(d, Steps(d, DaemonCreate(m, owner), luck)[i], k);
  }

  lemma KeepsOneDir(d: Disk, s: Disk, k: string)
    requires KeepsDirs(d, s)
    ensures k in d.inbox ==> k in s.inbox && s.inbox[k] == d.inbox[k]
    ensures k in d.sent ==> k in s.sent && s.sent[k] == d.sent[k]
  {
  }

  /** The direct create does remove an unregistered inbox of that name exactly when its
      rollback runs to the end. */
  lemma DirectCreateDropsInbox(d: Disk, m: string, owner: string, luck: Luck)
    requires IsValidMailboxName(m) && m !in d.config.mailboxes && m in d.inbox
    ensures m !in Last(d, Steps(d, DirectCreate(m, owner), luck)).inbox
      <==> luck.mkInbox && luck.rmInbox.finished && (!luck.mkSent || (!luck.owns && luck.asRoot))
  {
    hide IsValidMailboxName;
  }

  /** A create changes the saved configuration by one new mailbox that has both directories,
      or not at all. */
  lemma CreateMeans(d: Disk, op: Operation, luck: Luck)
    requires op.DirectCreate? || op.DaemonCreate?
    ensures var after := Last(d, Steps(d, op, luck));
      after.config != d.config ==>
        && op.name !in d.config.mailboxes && after == Registered(d, op.name, op.owner)
        && op.name in after.inbox && op.name in after.sent
  {
    hide IsValidMailboxName, RemovingBoth, WithMailbox;
    CreatedIsRegistered(d, op.name, op.owner);
    if op.DirectCreate? {
      RemovingKeepsConfig(MadeInbox(d, op.name), op.name, luck);
      RemovingKeepsConfig(MadeSent(MadeInbox(d, op.name), op.name), op.name, luck);
    }
  }

  /** The disk with mailbox `m` in the configuration, empty of hooks, with the address of its name and
      the domain, and with both its directories, which are kept if they were there. */
  function Registered(d: Disk, m: string, owner: string): Disk {
    Disk(
      Config(d.config.domain, d.config.mailboxes[m := Mailbox(m + "@" + d.config.domain, owner, [])]),
      if m in d.inbox then d.inbox else d.inbox[m := {}],
      if m in d.sent then d.sent else d.sent[m := {}])
  }

  lemma CreatedIsRegistered(d: Disk, m: string, owner: string)
    ensures Saved(MadeSent(MadeInbox(d, m), m), WithMailbox(d.config, m, owner)) == Registered(d, m, owner)
  {
  }

  lemma UnmadeIsUndone(d: Disk, m: string, luck: Luck)
    requires luck.rmInbox.finished && luck.rmSent.finished
    ensures var d1 := MadeInbox(d, m); var d2 := MadeSent(d1, m);
      && Last(d2, UnmadeDirs(d, d2, m, luck)) == d
      && (if m in d.inbox then d1 == d else d1.(inbox := d1.inbox - {m}) == d)
  {
    assert m !in d.inbox ==> d.inbox[m := {}] - {m} == d.inbox;
    assert m !in d.sent ==> d.sent[m := {}] - {m} == d.sent;
  }

  /** Where the daemon's rollback is not disturbed, a failed create leaves no trace. */
  lemma FailedCreateIsUndone(d: Disk, m: string, owner: string, luck: Luck)
    requires luck.rmInbox.finished && luck.rmSent.finished
    ensures var after := Last(d, Steps(d, DaemonCreate(m, owner), luck));
      after == d || after == Registered(d, m, owner)
  {
    hide IsValidMailboxName, MadeInbox, MadeSent, UnmadeDirs, WithMailbox, Registered;
    CreatedIsRegistered(d, m, owner);
    UnmadeIsUndone(d, m, luck);
  }

  lemma RegisteredIsNew(d: Disk, m: string, owner: string)
    ensures m !in d.config.mailboxes ==> Registered(d, m, owner).config != d.config
  {
  }

  /** The configuration without mailbox `m`, all else as it was. */
  ghost predicate HasLeft(before: Config, after: Config, m: string) {
    && after.domain == before.domain
    && (forall k :: k in after.mailboxes <==> k in before.mailboxes && k != m)
    && (forall k :: k in after.mailboxes ==> after.mailboxes[k] == before.mailboxes[k])
  }

  lemma WithoutHasLeft(config: Config, m: string)
    ensures HasLeft(config, WithoutMailbox(config, m), m)
  {
  }

  lemma RemovingKeepsConfig(d: Disk, m: string, luck: Luck)
    ensures Last(d, RemovingInbox(d, m, luck.rmInbox)).config == d.config
    ensures Last(d, RemovingBoth(d, m, luck)).config == d.config
  {
  }

  lemma NothingCounted(d: Disk, m: string, uncounted: Contents)
    requires m in d.inbox && m in d.sent
    ensures FilesIn(d, m, uncounted) == 0 <==> d.inbox[m] <= uncounted && d.sent[m] <= uncounted
  {
    if d.inbox[m] <= uncounted {
      assert d.inbox[m] - uncounted == {};
    } else {
      var x :| x in d.inbox[m] && x !in uncounted;
      assert x in d.inbox[m] - uncounted;
    }
    if d.sent[m] <= uncounted {
      assert d.sent[m] - uncounted == {};
    } else {
      var x :| x in d.sent[m] && x !in uncounted;
      assert x in d.sent[m] - uncounted;
    }
  }

  /** A delete changes it by one mailbox less; the daemon's then leaves nothing in either directory but
      what the count did not see. */
  lemma DeleteMeans(d: Disk, op: Operation, luck: Luck)
    requires Whole(d) && (op.DirectDelete? || op.DaemonDelete?)
    ensures var after := Last(d, Steps(d, op, luck));
      after.config != d.config ==>
        && op.name in d.config.mailboxes && HasLeft(d.config, after.config, op.name)
        && (op.DaemonDelete? ==>
              && op.name in after.inbox && after.inbox[op.name] <= luck.uncounted
              && op.name in after.sent && after.sent[op.name] <= luck.uncounted)
  {
    hide IsValidMailboxName, RemovingBoth, WithoutMailbox, HasLeft;
    WithoutHasLeft(d.config, op.name);
    if op.DirectDelete? {
      RemovingKeepsConfig(Saved(d, WithoutMailbox(d.config, op.name)), op.name, luck);
    } else if op.name in d.config.mailboxes {
      WipeMeans(d, op.name, luck);
      hide WipeSteps, FilesIn, Wipes;
      NothingCounted(d, op.name, luck.uncounted);
      NothingCounted(Last(d, WipeSteps(d, op.name, luck)), op.name, luck.uncounted);
    }
  }

  // ---- any number of operations, each cut off anywhere -----------------------------------------

  /** An operation that a crash may cut off after `reach` file operations. */
  datatype Attempt = Attempt(op: Operation, luck: Luck, reach: nat)

  function Reached(d: Disk, a: Attempt): seq<Disk> {
    var steps := Steps(d, a.op, a.luck);
    if a.reach < |steps| then steps[..a.reach] else steps
  }

  /** Every state of the disk on the way. */
  function Visited(d: Disk, attempts: seq<Attempt>): seq<Disk>
    decreases |attempts|
  {
    if attempts == [] then [d]
    else
      var reached := Reached(d, attempts[0]);
      [d] + reached + Visited(Last(d, reached), attempts[1..])
  }

  /** Whatever fails and wherever it crashes, the saved mailboxes always have their directories. */
  lemma {:induction false} AlwaysWhole(d: Disk, attempts: seq<Attempt>)
    requires Whole(d)
    ensures forall i :: 0 <= i < |Visited(d, attempts)| ==> Whole(Visited(d, attempts)[i])
    decreases |attempts|
  {
    hide Steps, Whole;
    if attempts != [] {
      StepsStayWhole(d, attempts[0].op, attempts[0].luck);
      AlwaysWhole(Last(d, Reached(d, attempts[0])), attempts[1..]);
    }
  }

  /** And a mailbox that nobody deletes keeps its entry and all its mail. */
  lemma {:induction false} MailIsKept(d: Disk, attempts: seq<Attempt>, m: string)
    requires Whole(d) && m in d.config.mailboxes
    requires forall i :: 0 <= i < |attempts| ==> !Deletes(attempts[i].op, m)
    ensures forall i :: 0 <= i < |Visited(d, attempts)| ==> Intact(d, Visited(d, attempts)[i], m)
    decreases |attempts|
  {
    hide Steps;
    if attempts != [] {
      var reached := Reached(d, attempts[0]);
      var next := Last(d, reached);
      StepsStayWhole(d, attempts[0].op, attempts[0].luck);
      StepsKeepOthers(d, attempts[0].op, attempts[0].luck, m);
      assert Intact(d, d, m);
      MailIsKept(next, attempts[1..], m);
      forall i | 0 <= i < |Visited(next, attempts[1..])|
        ensures Intact(d, Visited(next, attempts[1..])[i], m)
      {
        assert Intact(next, Visited(next, attempts[1..])[i], m);
      }
    }
  }

  // ---- the direct edits, step by step ------------------------------------------------------------

  class Store {
    var disk: Disk
    ghost var history: seq<Disk>

    constructor (disk: Disk)
      ensures this.disk == disk && history == []
    {
      this.disk := disk;
      history := [];
    }

    method MakeInbox(m: string, works: bool) returns (ok: bool)
      modifies this
      ensures ok == works
      ensures disk == if works then MadeInbox(old(disk), m) else old(disk)
      ensures disk.config == old(disk).config
      ensures history == old(history) + if works then [disk] else []
    {
      ok := works;
      if works {
        disk := MadeInbox(disk, m);
        history := history + [disk];
      }
    }

    method MakeSent(m: string, works: bool) returns (ok: bool)
      modifies this
      ensures ok == works
      ensures disk == if works then MadeSent(old(disk), m) else old(disk)
      ensures disk.config == old(disk).config
      ensures history == old(history) + if works then [disk] else []
    {
      ok := works;
      if works {
        disk := MadeSent(disk, m);
        history := history + [disk];
      }
    }

    method RemoveInbox(m: string, r: Removal) returns (ok: bool)
      modifies this
      ensures ok <==> m in old(disk).inbox && r.finished
      ensures history == old(history) + RemovingInbox(old(disk), m, r)
      ensures disk == Last(old(disk), RemovingInbox(old(disk), m, r)) && disk.config == old(disk).config
    {
      if m !in disk.inbox {
        return false;
      }
      ghost var before := disk;
      disk := disk.(inbox := disk.inbox[m := disk.inbox[m] * r.left]);
      history := history + [disk];
      if r.finished {
        disk := disk.(inbox := disk.inbox - {m});
        assert disk.inbox == before.inbox - {m};
        history := history + [disk];
      }
      ok := r.finished;
    }

    method RemoveSent(m: string, r: Removal) returns (ok: bool)
      modifies this
      ensures ok <==> m in old(disk).sent && r.finished
      ensures history == old(history) + RemovingSent(old(disk), m, r)
      ensures disk == Last(old(disk), RemovingSent(old(disk), m, r)) && disk.config == old(disk).config
    {
      if m !in disk.sent {
        return false;
      }
      ghost var before := disk;
      disk := disk.(sent := disk.sent[m := disk.sent[m] * r.left]);
      history := history + [disk];
      if r.finished {
        disk := disk.(sent := disk.sent - {m});
        assert disk.sent == before.sent - {m};
        history := history + [disk];
      }
      ok := r.finished;
    }

    method Save(config: Config, works: bool) returns (ok: bool)
      modifies this
      ensures ok == works
      ensures disk == if works then Saved(old(disk), config) else old(disk)
      ensures history == old(history) + if works then [disk] else []
    {
      ok := works;
      if works {
        disk := Saved(disk, config);
        history := history + [disk];
      }
    }

    /** What is undone when the new directories cannot be given to their owner. */
    method RollBack(m: string, luck: Luck)
      modifies this
      ensures history == old(history) + if luck.asRoot then RemovingBoth(old(disk), m, luck) else []
      ensures disk == Last(old(disk), if luck.asRoot then RemovingBoth(old(disk), m, luck) else [])
      ensures disk.config == old(disk).config
    {
      hide RemovingInbox, RemovingSent;
      if luck.asRoot {
        var _ := RemoveInbox(m, luck.rmInbox);
        var _ := RemoveSent(m, luck.rmSent);
      }
    }

    method CreateMailbox(m: string, owner: string, luck: Luck) returns (ok: bool)
      modifies this
      ensures history == old(history) + Steps(old(disk), DirectCreate(m, owner), luck)
      ensures disk == Last(old(disk), Steps(old(disk), DirectCreate(m, owner), luck))
      ensures ok <==>
        && IsValidMailboxName(m) && m !in old(disk).config.mailboxes
        && luck.mkInbox && luck.mkSent && luck.owns && luck.save
      ensures ok ==> disk == Registered(old(disk), m, owner)
      ensures !ok ==> disk.config == old(disk).config
      ensures !IsValidMailboxName(m) || m in old(disk).config.mailboxes || !luck.mkInbox ==> disk == old(disk)
    {
      hide IsValidMailboxName, MadeInbox, MadeSent, RemovingInbox, RemovingBoth, WithMailbox, Registered;
      CreatedIsRegistered(disk, m, owner);
      var config := disk.config;
      if !IsValidMailboxName(m) || m in config.mailboxes {
        return false;
      }
      ok := MakeInbox(m, luck.mkInbox);
      if !ok {
        return;
      }
      ok := MakeSent(m, luck.mkSent);
      if !ok {
        var _ := RemoveInbox(m, luck.rmInbox);
        return;
      }
      if !luck.owns {
        RollBack(m, luck);
        return false;
      }
      ok := Save(WithMailbox(config, m, owner), luck.save);
    }

    method DeleteMailbox(m: string, luck: Luck) returns (ok: bool)
      modifies this
      ensures history == old(history) + Steps(old(disk), DirectDelete(m), luck)
      ensures disk == Last(old(disk), Steps(old(disk), DirectDelete(m), luck))
      ensures disk.config != old(disk).config <==> m != "catchall" && m in old(disk).config.mailboxes && luck.save
      ensures ok <==> disk.config != old(disk).config && m !in disk.inbox && m !in disk.sent
      ensures if disk.config == old(disk).config then disk == old(disk) else HasLeft(old(disk).config, disk.config, m)
      ensures ok ==> disk.inbox == old(disk).inbox - {m} && disk.sent == old(disk).sent - {m}
    {
      var config := disk.config;
      if m == "catchall" || m !in config.mailboxes {
        return false;
      }
      ok := Save(WithoutMailbox(config, m), luck.save);
      if !ok {
        return;
      }
      assert m !in disk.config.mailboxes;
      if m in disk.inbox {
        ok := RemoveInbox(m, luck.rmInbox);
      }
      if m in disk.sent {
        var gone := RemoveSent(m, luck.rmSent);
        ok := ok && gone;
      }
    }

    // ---- the daemon's edits ----------------------------------------------------------------------

    /** Removes a directory that this call has made. */
    method RemoveMade(m: string, sent: bool, works: bool)
      modifies this
      ensures disk == if !works then old(disk)
        else if sent then old(disk).(sent := old(disk).sent - {m}) else old(disk).(inbox := old(disk).inbox - {m})
      ensures history == old(history) + if works then [disk] else []
      ensures disk.config == old(disk).config
    {
      if works {
        disk := if sent then disk.(sent := disk.sent - {m}) else disk.(inbox := disk.inbox - {m});
        history := history + [disk];
      }
    }

    /** Whichever of the two directories was not there before is removed again. */
    method RollBackMade(m: string, luck: Luck, ghost before: Disk, inboxExisted: bool, sentExisted: bool)
      requires inboxExisted == (m in before.inbox) && sentExisted == (m in before.sent)
      modifies this
      ensures history == old(history) + UnmadeDirs(before, old(disk), m, luck)
      ensures disk == Last(old(disk), UnmadeDirs(before, old(disk), m, luck))
      ensures disk.config == old(disk).config
    {
      if !inboxExisted {
        RemoveMade(m, false, luck.rmInbox.finished);
      }
      if !sentExisted {
        RemoveMade(m, true, luck.rmSent.finished);
      }
    }

    method DaemonCreateMailbox(m: string, owner: string, luck: Luck) returns (ok: bool)
      modifies this
      ensures history == old(history) + Steps(old(disk), DaemonCreate(m, owner), luck)
      ensures disk == Last(old(disk), Steps(old(disk), DaemonCreate(m, owner), luck))
      ensures ok <==>
        && IsValidMailboxName(m) && m !in old(disk).config.mailboxes
        && luck.admits && luck.mkInbox && luck.mkSent && luck.owns && luck.save
      ensures ok ==> disk == Registered(old(disk), m, owner)
      ensures !ok ==> disk.config == old(disk).config
      ensures !ok && luck.rmInbox.finished && luck.rmSent.finished ==> disk == old(disk)
    {
      hide IsValidMailboxName, MadeInbox, MadeSent, UnmadeDirs, WithMailbox, Registered;
      CreatedIsRegistered(disk, m, owner);
      RegisteredIsNew(disk, m, owner);
      if luck.rmInbox.finished && luck.rmSent.finished {
        FailedCreateIsUndone(disk, m, owner, luck);
      }
      ghost var before := disk;
      var config := disk.config;
      if !IsValidMailboxName(m) || m in config.mailboxes || !luck.admits {
        return false;
      }
      var inboxExisted, sentExisted := m in disk.inbox, m in disk.sent;
      ok := MakeInbox(m, luck.mkInbox);
      if !ok {
        return;
      }
      ok := MakeSent(m, luck.mkSent);
      if !ok {
        if !inboxExisted {
          RemoveMade(m, false, luck.rmInbox.finished);
        }
        return;
      }
      if !luck.owns {
        RollBackMade(m, luck, before, inboxExisted, sentExisted);
        return false;
      }
      ok := Save(WithMailbox(config, m, owner), luck.save);
      if !ok {
        RollBackMade(m, luck, before, inboxExisted, sentExisted);
      }
    }

    method WipeInbox(m: string, r: Removal, unseen: Contents) returns (ok: bool)
      modifies this
      ensures ok <==> (m in old(disk).inbox ==> r.finished)
      ensures history == old(history) + WipingInbox(old(disk), m, r, unseen)
      ensures disk == Last(old(disk), WipingInbox(old(disk), m, r, unseen))
      ensures disk.config == old(disk).config && disk.sent == old(disk).sent
    {
      if m !in disk.inbox {
        return true;
      }
      ghost var before := disk;
      var found := disk.inbox[m];
      disk := disk.(inbox := disk.inbox[m := found * r.left]);
      history := history + [disk];
      if r.finished {
        disk := disk.(inbox := disk.inbox[m := found * unseen]);
        assert disk.inbox == before.inbox[m := before.inbox[m] * unseen];
        history := history + [disk];
      }
      ok := r.finished;
    }

    method WipeSent(m: string, r: Removal, unseen: Contents) returns (ok: bool)
      modifies this
      ensures ok <==> (m in old(disk).sent ==> r.finished)
      ensures history == old(history) + WipingSent(old(disk), m, r, unseen)
      ensures disk == Last(old(disk), WipingSent(old(disk), m, r, unseen))
      ensures disk.config == old(disk).config
    {
      if m !in disk.sent {
        return true;
      }
      ghost var before := disk;
      var found := disk.sent[m];
      disk := disk.(sent := disk.sent[m := found * r.left]);
      history := history + [disk];
      if r.finished {
        disk := disk.(sent := disk.sent[m := found * unseen]);
        assert disk.sent == before.sent[m := before.sent[m] * unseen];
        history := history + [disk];
      }
      ok := r.finished;
    }

    method Wipe(m: string, luck: Luck) returns (ok: bool)
      modifies this
      ensures ok <==> Wipes(old(disk), m, luck)
      ensures history == old(history) + WipeSteps(old(disk), m, luck)
      ensures disk == Last(old(disk), WipeSteps(old(disk), m, luck))
      ensures disk.config == old(disk).config
    {
      hide WipingInbox, WipingSent;
      ok := WipeInbox(m, luck.rmInbox, luck.unseen);
      if !ok {
        return;
      }
      ok := WipeSent(m, luck.rmSent, luck.unseen);
    }

    method DaemonDeleteMailbox(m: string, force: bool, luck: Luck) returns (ok: bool)
      modifies this
      ensures history == old(history) + Steps(old(disk), DaemonDelete(m, force), luck)
      ensures disk == Last(old(disk), Steps(old(disk), DaemonDelete(m, force), luck))
      ensures ok <==> disk.config != old(disk).config
      ensures ok ==> HasLeft(old(disk).config, disk.config, m)
      ensures !force ==> disk.inbox == old(disk).inbox && disk.sent == old(disk).sent
      ensures !force && m in old(disk).inbox && m in old(disk).sent ==>
        (ok <==>
           && IsValidMailboxName(m) && luck.admits && luck.save && m in old(disk).config.mailboxes
           && old(disk).inbox[m] <= luck.uncounted && old(disk).sent[m] <= luck.uncounted)
    {
      hide IsValidMailboxName, WipeSteps, Wipes, FilesIn;
      WithoutHasLeft(disk.config, m);
      if m in disk.inbox && m in disk.sent {
        NothingCounted(disk, m, luck.uncounted);
      }
      var config := disk.config;
      if !IsValidMailboxName(m) || !luck.admits || m !in config.mailboxes {
        return false;
      }
      if force {
        ok := Wipe(m, luck);
        if !ok {
          return;
        }
      }
      if FilesIn(disk, m, luck.uncounted) > 0 {
        return false;
      }
      ok := Save(WithoutMailbox(config, m), luck.save);
      assert m !in WithoutMailbox(config, m).mailboxes;
    }
  }
}
