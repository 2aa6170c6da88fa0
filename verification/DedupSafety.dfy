/** What every run of the dedup protocol keeps. */
module DedupSafety {
  import opened Text
  import opened Frontmatter
  import opened DedupRebuild
  import opened DedupProtocol

  /** Something went wrong in the cache for the id at some time. */
  predicate IsFaulted(f: Faults, id: string) {
    id in f.refused || id in f.misordered || id in f.missed
  }

  /** No file speaks for an id that is not its own. */
  predicate Honest(f: Faults, id: string) {
    id !in f.leftover && id !in f.misread
  }

  predicate Copy(box: Box, name: string, id: string) {
    name in box.dir && box.dir[name].complete && box.dir[name].messageId == id
  }

  predicate Delivered(box: Box, id: string) {
    exists v :: v in box.written && box.written[v] == id
  }

  predicate MailOk(box: Box, name: string, now: nat, unit: nat)
    requires name in box.dir
  {
    var m := box.dir[name];
    && WellNamed(name, m, unit) && m.nameAt <= now
    && (m.complete ==>
          && m.receivedAt <= m.checkedAt <= now && m.serial < box.serial
          && m.writer in box.written && box.written[m.writer] == m.messageId
          && (m.messageId != "" && m.messageId !in box.faults.unreadable ==> ReadsTrue(m))
          && (m.doubt > 0 ==> IsFaulted(box.faults, m.messageId))
          && (m.readAs.Some? && m.readAs.value.id != m.messageId ==> m.readAs.value.id in box.faults.misread))
    && (!m.complete && m.readAs.Some? ==> m.readAs.value.id in box.faults.leftover)
  }

  predicate MailsOk(box: Box, now: nat, unit: nat) {
    forall name :: name in box.dir ==> MailOk(box, name, now, unit)
  }

  predicate Serials(box: Box) {
    forall n1, n2 :: n1 in box.dir && n2 in box.dir && n1 != n2 && box.dir[n1].complete && box.dir[n2].complete
      ==> box.dir[n1].serial != box.dir[n2].serial
  }

  /** Two stored copies of one id are a whole window apart, unless the check of the later had its doubts
      about the earlier. */
  ghost predicate Separated(box: Box, unit: nat) {
    forall n1, n2, id :: id != "" && Copy(box, n1, id) && Copy(box, n2, id)
      && box.dir[n1].serial < box.dir[n2].serial && box.dir[n2].doubt <= box.dir[n1].serial
      ==> box.dir[n1].receivedAt + Window(unit) <= box.dir[n2].checkedAt
  }

  /** A copy inside its window is in the cache, or is just about to be recorded. */
  predicate Remembered(box: Box, name: string, id: string, now: nat, unit: nat)
    requires Copy(box, name, id) && box.cache.Some?
  {
    var until := box.dir[name].receivedAt + Window(unit);
    || until <= now
    || (id in box.cache.value && until <= box.cache.value[id])
    || (box.holder.Some? && box.holder.value.section.Wrote? && box.holder.value.id == id)
  }

  ghost predicate Covered(box: Box, now: nat, unit: nat) {
    box.cache.Some? ==>
      forall name, id :: id != "" && Copy(box, name, id) && DoubtOf(box, id) <= box.dir[name].serial
        ==> Remembered(box, name, id, now, unit)
  }

  /** Every doubt has a fault behind it. */
  predicate DoubtsAreCaused(box: Box) {
    forall id :: id in box.doubts ==> IsFaulted(box.faults, id)
  }

  /** Every stored copy was checked by then. */
  predicate CheckedBy(box: Box, latest: nat) {
    forall name :: name in box.dir && box.dir[name].complete ==> box.dir[name].checkedAt <= latest
  }

  predicate GuardOk(box: Box, now: nat, unit: nat) {
    box.holder.Some? ==>
      var g := box.holder.value;
      && g.receivedAt <= g.nameAt <= now && InCalendar(g.nameAt, unit)
      && (!g.section.Entered? && g.id != "" ==> box.cache.Some?)
      && (g.section.Entered? ==> g.section.since <= now && CheckedBy(box, g.section.since))
      && (g.section.Fresh? ==>
            && g.receivedAt <= g.section.checkedAt <= now
            && (g.section.doubt > 0 ==> IsFaulted(box.faults, g.id)))
      && (g.section.Entered? || g.section.Fresh? ==> g.worker !in box.written)
      && (g.section.Wrote? || g.section.Recorded? ==> g.worker in box.written && box.written[g.worker] == g.id)
  }

  /** The check that let the lock holder in found every earlier copy it knew out of its window. */
  ghost predicate FreshIsFresh(box: Box, unit: nat) {
    box.holder.Some? && box.holder.value.section.Fresh? && box.holder.value.id != "" ==>
      forall name :: Copy(box, name, box.holder.value.id) && box.holder.value.section.doubt <= box.dir[name].serial
        ==> box.dir[name].receivedAt + Window(unit) <= box.holder.value.section.checkedAt
  }

  predicate CacheSound(box: Box) {
    box.cache.Some? ==> forall id :: id in box.cache.value && Honest(box.faults, id) ==> Delivered(box, id)
  }

  ghost predicate BoxInv(box: Box, now: nat, unit: nat) {
    && unit > 0
    && MailsOk(box, now, unit)
    && Serials(box)
    && GuardOk(box, now, unit)
    && Separated(box, unit) && Covered(box, now, unit) && FreshIsFresh(box, unit)
    && CacheSound(box) && DoubtsAreCaused(box)
    && (unit == 1 ==> OrderComesFromHonesty(box))
  }

  /** In whole seconds, an older entry decides only where a file speaks for another's id. */
  ghost predicate OrderComesFromHonesty(box: Box) {
    forall id :: id in box.faults.misordered ==>
      id in box.faults.refused || id in box.faults.unreadable || id in box.faults.missed || !Honest(box.faults, id)
  }

  lemma TimePasses(box: Box, now: nat, later: nat, unit: nat)
    requires BoxInv(box, now, unit) && now <= later
    ensures BoxInv(box, later, unit)
  {
    hide DatePrefix, InCalendar, Window;
    forall name | name in box.dir
      ensures MailOk(box, name, later, unit)
    {
      assert MailOk(box, name, now, unit);
    }
    if box.cache.Some? {
      forall name, id | id != "" && Copy(box, name, id) && DoubtOf(box, id) <= box.dir[name].serial
        ensures Remembered(box, name, id, later, unit)
      {
        assert Remembered(box, name, id, now, unit);
      }
    }
  }

  /** In whole seconds, no two copies of one id are live together. */
  lemma OneLiveCopy(box: Box, n1: string, n2: string, id: string, start: nat, now: nat)
    requires BoxInv(box, now, 1) && !IsFaulted(box.faults, id) && id != "" && CheckedBy(box, start)
    requires n1 != n2 && Copy(box, n1, id) && Copy(box, n2, id)
    ensures !StillLive(box.dir[n1].receivedAt, start, 1) || !StillLive(box.dir[n2].receivedAt, start, 1)
  {
    hide DatePrefix, InCalendar;
    assert MailOk(box, n1, now, 1) && MailOk(box, n2, now, 1);
  }

  /** Where no file speaks for an id that is not its own, what loads as an id is a copy of it. */
  lemma LoadedIsCopy(box: Box, name: string, id: string, start: nat, now: nat, unit: nat)
    requires MailsOk(box, now, unit) && Clock(start, unit) && LoadsId(box.dir, name, id, start, unit)
    requires Honest(box.faults, id)
    ensures Copy(box, name, id)
    ensures id !in box.faults.unreadable ==>
      ReadsTrue(box.dir[name]) && TimeAt(box.dir, name) == box.dir[name].receivedAt
  {
    hide DatePrefix, InCalendar, Window, Loads;
    assert MailOk(box, name, now, unit);
    LoadsIdMeans(box.dir, name, id, start, unit);
  }

  lemma WholeSecondsAreOrdered(box: Box, scan: Scan, id: string, now: nat)
    requires BoxInv(box, now, 1) && Clock(scan.start, 1) && CheckedBy(box, scan.start)
    requires !IsFaulted(box.faults, id) && id !in box.faults.unreadable && id != "" && Honest(box.faults, id)
    ensures LastIsNewest(box.dir, scan.visits, id, scan.start, 1)
  {
    hide DatePrefix, InCalendar, LoadsId, StillLive, TimeAt, Separated, Covered, MailOk, CheckedBy;
    var last := LastLoaded(box.dir, scan.visits, id, scan.start, 1);
    if last.Some? {
      var latest := last.value.name;
      forall name | name in box.dir && LoadsId(box.dir, name, id, scan.start, 1)
        ensures name == latest
      {
        LoadedIsCopy(box, name, id, scan.start, now, 1);
        LoadedIsCopy(box, latest, id, scan.start, now, 1);
        LoadsIdMeans(box.dir, name, id, scan.start, 1);
        LoadsIdMeans(box.dir, latest, id, scan.start, 1);
        if name != latest {
          OneLiveCopy(box, name, latest, id, scan.start, now);
        }
      }
    }
  }

  /** What a rebuild gives remembers each copy of an id that was not refused, no whole live message of
      which was missed, and whose latest entry decides. */
  lemma RebuildCovers(box: Box, scan: Scan, name: string, id: string, since: nat, now: nat, unit: nat)
    requires Clock(now, unit) && IsTimely(scan, since, now, unit)
    requires MailsOk(box, now, unit) && id != "" && Copy(box, name, id) && id !in Unsure(box.dir, scan, unit)
    ensures Remembered(box.(cache := Some(Rebuilt(box.dir, scan.visits, scan.start, unit))), name, id, now, unit)
  {
    hide DatePrefix, InCalendar, Rebuilt, Refusals, Misorderings, Missed, LastIsNewest, Window, NameTooOld, StillLive,
        Visited;
    assert MailOk(box, name, now, unit);
    MissedMeans(box.dir, scan.visits, name, scan.start, unit);
    if StillLive(box.dir[name].receivedAt, scan.start, unit) {
      MisorderingsMean(box.dir, scan.visits, id, scan.start, unit);
      RebuildIsComplete(box.dir, scan.visits, name, now, scan.start, unit);
    } else {
      WindowWithinTtl(unit);
      NotLive(box.dir[name].receivedAt, scan.start, unit);
    }
  }

  lemma NotLive(at: nat, now: nat, unit: nat)
    requires !StillLive(at, now, unit)
    ensures at + Ttl(unit) <= now
  {
  }

  lemma WindowWithinTtl(unit: nat)
    requires unit > 0
    ensures Window(unit) <= Ttl(unit)
  {
  }

  /** A rebuild knows no id that was not delivered, but those that files of others speak for. */
  lemma RebuildSound(box: Box, scan: Scan, now: nat, unit: nat)
    requires BoxInv(box, now, unit) && Clock(scan.start, unit)
    ensures CacheSound(box.(cache := Some(Rebuilt(box.dir, scan.visits, scan.start, unit))))
  {
    hide DatePrefix, InCalendar, Window, LoadsId, Separated, Covered, Rebuilt;
    RebuiltFromDir(box.dir, scan.visits, scan.start, unit);
    forall id | id in Rebuilt(box.dir, scan.visits, scan.start, unit) && Honest(box.faults, id)
      ensures Delivered(box, id)
    {
      var name :| BringsIn(box.dir, name, id, scan.start, unit);
      LoadedIsCopy(box, name, id, scan.start, now, unit);
      assert MailOk(box, name, now, unit);
      assert box.dir[name].writer in box.written;
    }
  }

  /** The file reads as the id, and what it says of its time is not refused. */
  predicate BringsIn(dir: Directory, name: string, id: string, now: nat, unit: nat)
    requires Clock(now, unit)
  {
    LoadsId(dir, name, id, now, unit) && TimeAt(dir, name) < now + unit
  }

  lemma QuotientWithin(x: int, q: int, k: int)
    requires k > 0
    ensures x / k <= q <==> x < (q + 1) * k
  {
    assert x == x / k * k + x % k && 0 <= x % k < k;
    if x / k <= q {
      MulMonotone(x / k + 1, q + 1, k);
    } else {
      MulMonotone(q + 1, x / k, k);
    }
  }

  lemma ProductWithin(a: int, b: int, k: int)
    requires k > 0
    ensures a * k <= b * k <==> a <= b
  {
    if a <= b {
      MulMonotone(a, b, k);
    } else {
      MulMonotone(b + 1, a, k);
    }
  }

  lemma ShortEnough(at: nat, now: nat, unit: nat)
    requires unit > 0
    ensures RemainingSecs(at, now, unit) * unit <= Ttl(unit) <==> at < now + unit
  {
    ProductWithin(RemainingSecs(at, now, unit), DEDUP_TTL_SECS, unit);
    QuotientWithin(Ttl(unit) - (now - at), DEDUP_TTL_SECS, unit);
    OneMore(DEDUP_TTL_SECS, unit);
  }

  lemma OneMore(q: int, k: int)
    ensures (q + 1) * k == q * k + k
  {
  }

  lemma {:induction false} RebuiltFromDir(dir: Directory, visits: seq<Visit>, now: nat, unit: nat)
    requires Clock(now, unit)
    ensures forall id :: id in Rebuilt(dir, visits, now, unit) ==> exists name :: BringsIn(dir, name, id, now, unit)
  {
    hide DatePrefix, InCalendar, NameTooOld, RemainingSecs, StillLive, IdAt, TimeAt, Loads, Ttl;
    if visits != [] {
      var before, v := visits[..|visits| - 1], visits[|visits| - 1];
      RebuiltFromDir(dir, before, now, unit);
      ShortEnough(TimeAt(dir, v.name), now, unit);
      forall id | id in Rebuilt(dir, visits, now, unit)
        ensures id in Rebuilt(dir, before, now, unit) || BringsIn(dir, v.name, id, now, unit)
      {
      }
    }
  }

  lemma LockKeeps(box: Box, g: Guard, now: nat, unit: nat)
    requires BoxInv(box, now, unit) && box.holder.None?
    requires g.worker !in box.written
    requires g.section == Entered(now) && g.receivedAt <= g.nameAt <= now && InCalendar(g.nameAt, unit)
    ensures BoxInv(box.(holder := Some(g)), now, unit)
  {
    hide DatePrefix, InCalendar, Window;
    AllChecked(box, now, unit);
    SameDisk(box, box.(holder := Some(g)), now, unit);
  }

  lemma AllChecked(box: Box, now: nat, unit: nat)
    requires MailsOk(box, now, unit)
    ensures CheckedBy(box, now)
  {
    hide DatePrefix, InCalendar, WellNamed, ReadsTrue;
    forall name | name in box.dir && box.dir[name].complete
      ensures box.dir[name].checkedAt <= now
    {
      assert MailOk(box, name, now, unit);
    }
  }

  predicate FaultsGrow(before: Faults, after: Faults) {
    && before.refused <= after.refused && before.unreadable <= after.unreadable && before.leftover <= after.leftover
    && before.misread <= after.misread && before.misordered <= after.misordered && before.missed <= after.missed
  }

  /** Steps that leave the disk alone keep what is said about the disk. */
  lemma SameDisk(box: Box, after: Box, now: nat, unit: nat)
    requires box.dir == after.dir && box.serial == after.serial && box.written == after.written
    requires FaultsGrow(box.faults, after.faults)
    ensures MailsOk(box, now, unit) ==> MailsOk(after, now, unit)
    ensures Serials(box) ==> Serials(after)
    ensures Separated(box, unit) ==> Separated(after, unit)
    ensures forall id :: Delivered(box, id) == Delivered(after, id)
    ensures CacheSound(box) && box.cache == after.cache ==> CacheSound(after)
    ensures DoubtsAreCaused(box) && box.doubts == after.doubts ==> DoubtsAreCaused(after)
    ensures
      (Covered(box, now, unit) && box.cache == after.cache && box.doubts == after.doubts
       && (box.holder.None? || !box.holder.value.section.Wrote?))
      ==> Covered(after, now, unit)
  {
    hide DatePrefix, InCalendar, Window;
    if MailsOk(box, now, unit) {
      forall name | name in after.dir
        ensures MailOk(after, name, now, unit)
      {
        assert MailOk(box, name, now, unit);
      }
    }
    if Separated(box, unit) {
      forall n1, n2, id | id != "" && Copy(after, n1, id) && Copy(after, n2, id)
        && after.dir[n1].serial < after.dir[n2].serial && after.dir[n2].doubt <= after.dir[n1].serial
        ensures after.dir[n1].receivedAt + Window(unit) <= after.dir[n2].checkedAt
      {
        assert Copy(box, n1, id) && Copy(box, n2, id);
      }
    }
    if Covered(box, now, unit) && box.cache == after.cache && box.doubts == after.doubts && box.cache.Some?
       && (box.holder.None? || !box.holder.value.section.Wrote?) {
      forall name, id | id != "" && Copy(after, name, id) && DoubtOf(after, id) <= after.dir[name].serial
        ensures Remembered(after, name, id, now, unit)
      {
        assert Copy(box, name, id) && DoubtOf(box, id) <= box.dir[name].serial;
        assert Remembered(box, name, id, now, unit);
      }
    }
  }

  lemma SerialBound(box: Box, name: string, now: nat, unit: nat)
    requires MailsOk(box, now, unit) && name in box.dir && box.dir[name].complete
    ensures box.dir[name].serial < box.serial
  {
    hide DatePrefix, InCalendar, WellNamed, ReadsTrue;
    assert MailOk(box, name, now, unit);
  }

  /** The cache that the check looks into, before the lock holder moves on. */
  lemma LookKeeps(box: Box, scan: Scan, now: nat, unit: nat)
    requires Clock(now, unit) && BoxInv(box, now, unit) && box.cache.None?
    requires box.holder.Some? && box.holder.value.section.Entered?
    requires IsTimely(scan, box.holder.value.section.since, now, unit)
    ensures BoxInv(Looked(box, scan, unit), now, unit)
  {
    hide DatePrefix, InCalendar, Window, Rebuilt, Unsure, NotedScan, LastIsNewest, MailOk, Serials, Separated,
        Clock, IsTimely, Remembered;
    var since := box.holder.value.section.since;
    var after := Looked(box, scan, unit);
    ScanFaultsGrow(box, scan, unit);
    SameDisk(box, after, now, unit);
    forall name, id | id != "" && Copy(after, name, id) && DoubtOf(after, id) <= after.dir[name].serial
      ensures Remembered(after, name, id, now, unit)
    {
      assert Copy(box, name, id);
      SerialBound(box, name, now, unit);
      RebuildCovers(box, scan, name, id, since, now, unit);
      SameRemembered(box.(cache := after.cache), after, name, id, now, unit);
    }
    RebuildSound(box, scan, now, unit);
    assert CacheSound(after);
    if unit == 1 {
      LookKeepsOrder(box, scan, now);
    }
  }

  lemma SameRemembered(box: Box, after: Box, name: string, id: string, now: nat, unit: nat)
    requires box.dir == after.dir && box.cache == after.cache && box.holder == after.holder && box.cache.Some?
    requires Copy(box, name, id) && Remembered(box, name, id, now, unit)
    ensures Remembered(after, name, id, now, unit)
  {
    hide Window;
  }

  lemma ScanFaultsGrow(box: Box, scan: Scan, unit: nat)
    requires box.cache.None? && Clock(scan.start, unit)
    ensures FaultsGrow(box.faults, Looked(box, scan, unit).faults)
    ensures DoubtsAreCaused(Looked(box, scan, unit))
  {
    hide Clock, Rebuilt, Refusals, Misorderings, Missed;
  }

  lemma LookKeepsOrder(box: Box, scan: Scan, now: nat)
    requires Clock(now, 1) && BoxInv(box, now, 1) && box.cache.None?
    requires box.holder.Some? && box.holder.value.section.Entered?
    requires IsTimely(scan, box.holder.value.section.since, now, 1)
    ensures OrderComesFromHonesty(Looked(box, scan, 1))
  {
    hide DatePrefix, InCalendar, Window, Rebuilt, Refusals, Misorderings, Missed, LastIsNewest, MailOk, Serials,
        Separated, Covered;
    var faults := Looked(box, scan, 1).faults;
    assert CheckedBy(box, scan.start);
    forall id | id in faults.misordered && id !in faults.refused && id !in faults.unreadable && id !in faults.missed
      && Honest(faults, id)
      ensures id in box.faults.misordered || IsFaulted(box.faults, id)
    {
      MisorderingsMean(box.dir, scan.visits, id, scan.start, 1);
      NoEmptyMisorderings(box.dir, scan.visits, scan.start, 1);
      if !IsFaulted(box.faults, id) && id != "" {
        WholeSecondsAreOrdered(box, scan, id, now);
      }
    }
  }

  lemma NoEmptyMisorderings(dir: Directory, visits: seq<Visit>, now: nat, unit: nat)
    requires Clock(now, unit)
    ensures "" !in Misorderings(dir, visits, now, unit)
  {
    hide DatePrefix, InCalendar, NameTooOld, StillLive, LastIsNewest;
  }

  lemma CheckKeeps(box: Box, scan: Scan, found: bool, now: nat, unit: nat)
    requires Clock(now, unit) && BoxInv(box, now, unit) && CanCheck(box, scan, found, now, unit)
    ensures BoxInv(AfterCheck(box, scan, found, now, unit), now, unit)
  {
    hide DatePrefix, InCalendar, Window, Rebuilt, NotedScan, Unsure, Clock, IsTimely, Doubting;
    var g := box.holder.value;
    var after := AfterCheck(box, scan, found, now, unit);
    var looked := after.(holder := Some(g));
    if g.id != "" && box.cache.None? {
      LookKeeps(box, scan, now, unit);
    }
    assert BoxInv(looked, now, unit);
    SameDisk(looked, after, now, unit);
    if !found && g.id != "" {
      forall name | Copy(after, name, g.id) && DoubtOf(after, g.id) <= after.dir[name].serial
        ensures after.dir[name].receivedAt + Window(unit) <= now
      {
        assert Copy(looked, name, g.id) && DoubtOf(looked, g.id) <= looked.dir[name].serial;
        assert Remembered(looked, name, g.id, now, unit);
      }
    }
  }

  lemma WriteKeeps(box: Box, name: string, readAs: Option<Reading>, now: nat, unit: nat)
    requires BoxInv(box, now, unit) && CanWrite(box, name, unit)
    ensures BoxInv(AfterWrite(box, name, readAs), now, unit)
  {
    hide DatePrefix, InCalendar, Window;
    var after := AfterWrite(box, name, readAs);
    WriteKeepsDisk(box, name, readAs, now, unit);
    WriteSeparates(box, name, readAs, now, unit);
    if after.cache.Some? {
      forall n, id | id != "" && Copy(after, n, id) && DoubtOf(after, id) <= after.dir[n].serial
        ensures Remembered(after, n, id, now, unit)
      {
        if n != name {
          assert Copy(box, n, id) && DoubtOf(box, id) <= box.dir[n].serial;
          assert Remembered(box, n, id, now, unit);
        }
      }
      forall id | id in after.cache.value && Honest(after.faults, id)
        ensures Delivered(after, id)
      {
        assert Honest(box.faults, id);
        StillDelivered(box, after, id);
      }
    }
  }

  lemma WriteKeepsDisk(box: Box, name: string, readAs: Option<Reading>, now: nat, unit: nat)
    requires BoxInv(box, now, unit) && CanWrite(box, name, unit)
    ensures MailsOk(AfterWrite(box, name, readAs), now, unit) && Serials(AfterWrite(box, name, readAs))
  {
    hide DatePrefix, InCalendar, Window, Covered, Separated;
    var after := AfterWrite(box, name, readAs);
    forall n | n in after.dir
      ensures MailOk(after, n, now, unit)
    {
      if n != name {
        assert MailOk(box, n, now, unit);
      }
    }
    forall n1, n2 | n1 in after.dir && n2 in after.dir && n1 != n2 && after.dir[n1].complete && after.dir[n2].complete
      ensures after.dir[n1].serial != after.dir[n2].serial
    {
      assert n1 != name ==> MailOk(box, n1, now, unit);
      assert n2 != name ==> MailOk(box, n2, now, unit);
    }
  }

  lemma StillDelivered(box: Box, after: Box, id: string)
    requires Delivered(box, id)
    requires forall v :: v in box.written ==> v in after.written && after.written[v] == box.written[v]
    ensures Delivered(after, id)
  {
    var v :| v in box.written && box.written[v] == id;
    assert v in after.written;
  }

  lemma WriteSeparates(box: Box, name: string, readAs: Option<Reading>, now: nat, unit: nat)
    requires BoxInv(box, now, unit) && CanWrite(box, name, unit)
    ensures Separated(AfterWrite(box, name, readAs), unit)
  {
    hide DatePrefix, InCalendar, Window;
    var after := AfterWrite(box, name, readAs);
    forall n1, n2, id | id != "" && Copy(after, n1, id) && Copy(after, n2, id)
      && after.dir[n1].serial < after.dir[n2].serial && after.dir[n2].doubt <= after.dir[n1].serial
      ensures after.dir[n1].receivedAt + Window(unit) <= after.dir[n2].checkedAt
    {
      assert n1 != name ==> MailOk(box, n1, now, unit) && Copy(box, n1, id);
      assert n2 != name ==> MailOk(box, n2, now, unit) && Copy(box, n2, id);
    }
  }

  lemma FailKeeps(box: Box, partial: Partial, now: nat, unit: nat)
    requires BoxInv(box, now, unit) && box.holder.Some? && box.holder.value.section.Fresh?
    requires partial.Truncated? ==> CanWrite(box, partial.name, unit)
    ensures BoxInv(AfterFail(box, partial), now, unit)
  {
    hide DatePrefix, InCalendar, Window;
    var after := AfterFail(box, partial);
    forall n | n in after.dir
      ensures MailOk(after, n, now, unit)
    {
      if n in box.dir {
        assert MailOk(box, n, now, unit);
      }
    }
    SameCopies(box, after, now, unit);
  }

  /** Fewer copies, or the same ones: nothing that is said about copies is lost. */
  lemma SameCopies(box: Box, after: Box, now: nat, unit: nat)
    requires BoxInv(box, now, unit)
    requires after.cache == box.cache && after.doubts == box.doubts && after.written == box.written
    requires after.holder.None? || after.holder == box.holder
    requires box.holder.Some? && box.holder.value.section.Wrote? ==> after.holder == box.holder
    requires forall n :: n in after.dir && after.dir[n].complete ==>
      n in box.dir && after.dir[n] == box.dir[n].(readAs := after.dir[n].readAs)
    requires FaultsGrow(box.faults, after.faults)
    ensures Serials(after)
    ensures Separated(after, unit) && Covered(after, now, unit) && FreshIsFresh(after, unit)
    ensures CacheSound(after) && DoubtsAreCaused(after)
  {
    hide DatePrefix, InCalendar, Window, MailOk;
    forall n1, n2, id | id != "" && Copy(after, n1, id) && Copy(after, n2, id)
      && after.dir[n1].serial < after.dir[n2].serial && after.dir[n2].doubt <= after.dir[n1].serial
      ensures after.dir[n1].receivedAt + Window(unit) <= after.dir[n2].checkedAt
    {
      assert Copy(box, n1, id) && Copy(box, n2, id);
    }
    if after.cache.Some? {
      forall name, id | id != "" && Copy(after, name, id) && DoubtOf(after, id) <= after.dir[name].serial
        ensures Remembered(after, name, id, now, unit)
      {
        assert Copy(box, name, id) && DoubtOf(box, id) <= box.dir[name].serial;
        assert Remembered(box, name, id, now, unit);
      }
    }
    if after.holder.Some? && after.holder.value.section.Fresh? && after.holder.value.id != "" {
      forall name | Copy(after, name, after.holder.value.id)
        && after.holder.value.section.doubt <= after.dir[name].serial
        ensures after.dir[name].receivedAt + Window(unit) <= after.holder.value.section.checkedAt
      {
        assert Copy(box, name, after.holder.value.id);
      }
    }
  }

  lemma RecordKeeps(box: Box, cleared: set<string>, now: nat, unit: nat)
    requires BoxInv(box, now, unit) && CanRecord(box, cleared, now)
    ensures BoxInv(AfterRecord(box, cleared, now, unit), now, unit)
  {
    hide DatePrefix, InCalendar, Window, Ttl;
    var g := box.holder.value;
    var after := AfterRecord(box, cleared, now, unit);
    SameDisk(box, after, now, unit);
    WindowWithinTtl(unit);
    if after.cache.Some? {
      forall name, id | id != "" && Copy(after, name, id) && DoubtOf(after, id) <= after.dir[name].serial
        ensures Remembered(after, name, id, now, unit)
      {
        assert MailOk(box, name, now, unit);
        assert Copy(box, name, id) && DoubtOf(box, id) <= box.dir[name].serial;
        assert Remembered(box, name, id, now, unit);
      }
      forall id | id in after.cache.value && Honest(after.faults, id)
        ensures Delivered(after, id)
      {
        if id in box.cache.value {
          StillDelivered(box, after, id);
        } else {
          assert g.worker in after.written;
        }
      }
    }
  }

  lemma UnlockKeeps(box: Box, now: nat, unit: nat)
    requires BoxInv(box, now, unit) && box.holder.Some? && box.holder.value.section.Recorded?
    ensures BoxInv(box.(holder := None), now, unit)
  {
    hide DatePrefix, InCalendar, Window;
    SameDisk(box, box.(holder := None), now, unit);
  }

  lemma DeleteKeeps(box: Box, name: string, now: nat, unit: nat)
    requires BoxInv(box, now, unit)
    ensures BoxInv(box.(dir := box.dir - {name}), now, unit)
  {
    hide DatePrefix, InCalendar, Window;
    var after := box.(dir := box.dir - {name});
    forall n | n in after.dir
      ensures MailOk(after, n, now, unit)
    {
      assert MailOk(box, n, now, unit);
    }
    SameCopies(box, after, now, unit);
  }

  lemma RewriteKeeps(box: Box, name: string, readAs: Option<Reading>, now: nat, unit: nat)
    requires BoxInv(box, now, unit) && box.holder.None? && name in box.dir
    ensures BoxInv(AfterRewrite(box, name, readAs), now, unit)
  {
    hide DatePrefix, InCalendar, Window;
    var after := AfterRewrite(box, name, readAs);
    forall n | n in after.dir
      ensures MailOk(after, n, now, unit)
    {
      assert MailOk(box, n, now, unit);
    }
    SameCopies(box, after, now, unit);
  }

  lemma RestartKeeps(box: Box, now: nat, unit: nat)
    requires BoxInv(box, now, unit)
    ensures BoxInv(AfterRestart(box), now, unit)
  {
    hide DatePrefix, InCalendar, Window;
    SameDisk(box, AfterRestart(box), now, unit);
  }

  lemma EmptyBoxInv(now: nat, unit: nat)
    requires unit > 0
    ensures BoxInv(EMPTY_BOX, now, unit)
  {
  }

  // ---- the whole system --------------------------------------------------------

  ghost predicate WorkerOk(s: State, w: nat, unit: nat)
    requires w in s.workers
  {
    var worker := s.workers[w];
    var box := BoxOf(s, worker.box);
    match worker.progress
    case Received(r) => r <= s.now && w !in box.written
    case Named(r, n) => r <= n <= s.now && InCalendar(n, unit) && w !in box.written
    case Inside => box.holder.Some? && box.holder.value.worker == w && box.holder.value.id == worker.id
    case Done(outcome) =>
      && (outcome.Stored? ==> w in box.written && box.written[w] == worker.id)
      && (outcome.Absorbed? ==> worker.id != "" && w !in box.written)
      && (outcome.Absorbed? && Honest(box.faults, worker.id) ==> Delivered(box, worker.id))
      && (outcome.Failed? ==> w !in box.written)
  }

  /** A lock is held by a delivery inside that mailbox; only deliveries to it have written there. */
  predicate Ownership(s: State, b: string) {
    var box := BoxOf(s, b);
    && (box.holder.Some? ==>
          var w := box.holder.value.worker;
          w in s.workers && s.workers[w].box == b && s.workers[w].progress.Inside?)
    && (forall v :: v in box.written ==> v in s.workers && s.workers[v].box == b)
  }

  ghost predicate Inv(s: State, unit: nat) {
    && Clock(s.now, unit)
    && (forall b :: BoxInv(BoxOf(s, b), s.now, unit) && Ownership(s, b))
    && (forall w :: w in s.workers ==> WorkerOk(s, w, unit))
  }

  /** What one step does to the mailbox it works on; `WorkerOk` looks at no more than this. */
  predicate Grows(before: Box, after: Box) {
    && (forall v :: v in before.written ==> v in after.written && after.written[v] == before.written[v])
    && FaultsGrow(before.faults, after.faults)
  }

  predicate AbsorbedHonestly(s: State, w: nat)
    requires w in s.workers
  {
    var worker := s.workers[w];
    worker.progress.Done? && worker.progress.outcome.Absorbed? && Honest(BoxOf(s, worker.box).faults, worker.id)
  }

  lemma DeliveredGrows(before: Box, after: Box, id: string)
    requires Grows(before, after) && Delivered(before, id)
    ensures Delivered(after, id)
  {
    StillDelivered(before, after, id);
  }

  /** A step of worker `w` in its mailbox, once that mailbox is shown to keep its invariant. */
  lemma BoxStepKeeps(s: State, t: State, w: nat, unit: nat)
    requires Inv(s, unit) && w in s.workers && w in t.workers && t.now == s.now
    requires var b := s.workers[w].box;
             && t.boxes == s.boxes[b := BoxOf(t, b)] && t.workers == s.workers[w := t.workers[w]]
             && t.workers[w].box == b && t.workers[w].id == s.workers[w].id
             && BoxInv(BoxOf(t, b), t.now, unit) && Ownership(t, b) && WorkerOk(t, w, unit)
             && Grows(BoxOf(s, b), BoxOf(t, b))
             && (forall v :: v in BoxOf(t, b).written ==> v in BoxOf(s, b).written || v == w)
             && (BoxOf(s, b).holder.Some? ==> BoxOf(s, b).holder.value.worker == w)
    ensures Inv(t, unit)
  {
    hide DatePrefix, InCalendar, Window, BoxInv, Clock;
    var b := s.workers[w].box;
    forall c
      ensures BoxInv(BoxOf(t, c), t.now, unit) && Ownership(t, c)
    {
      if c != b {
        assert BoxOf(t, c) == BoxOf(s, c);
        assert BoxInv(BoxOf(s, c), s.now, unit) && Ownership(s, c);
      }
    }
    forall v | v in t.workers
      ensures WorkerOk(t, v, unit)
    {
      if v != w {
        assert WorkerOk(s, v, unit);
        if s.workers[v].box == b {
          if AbsorbedHonestly(s, v) {
            DeliveredGrows(BoxOf(s, b), BoxOf(t, b), s.workers[v].id);
          }
        } else {
          assert BoxOf(t, s.workers[v].box) == BoxOf(s, s.workers[v].box);
        }
      }
    }
  }

  lemma RestartKeepsAll(s: State, unit: nat)
    requires Inv(s, unit)
    ensures Inv(Step(s, Restart, unit), unit)
  {
    hide DatePrefix, InCalendar, Window, BoxInv, Clock;
    var t := Step(s, Restart, unit);
    forall b
      ensures BoxInv(BoxOf(t, b), t.now, unit) && Ownership(t, b)
    {
      assert BoxInv(BoxOf(s, b), s.now, unit) && Ownership(s, b);
      RestartKeeps(BoxOf(s, b), s.now, unit);
      assert BoxOf(t, b) == AfterRestart(BoxOf(s, b));
    }
    forall w | w in t.workers
      ensures WorkerOk(t, w, unit)
    {
      assert WorkerOk(s, w, unit);
      assert BoxOf(t, s.workers[w].box) == AfterRestart(BoxOf(s, s.workers[w].box));
      if AbsorbedHonestly(s, w) {
        DeliveredGrows(BoxOf(s, s.workers[w].box), BoxOf(t, s.workers[w].box), s.workers[w].id);
      }
    }
  }

  /** A file of some mailbox is deleted or rewritten. */
  lemma FileStepKeeps(s: State, a: Action, b: string, name: string, unit: nat)
    requires Inv(s, unit) && Enabled(s, a, unit)
    requires a == Delete(b, name) || (a.Rewrite? && a.box == b && a.name == name)
    ensures Inv(Step(s, a, unit), unit)
  {
    hide DatePrefix, InCalendar, Window, BoxInv, Clock, NotedRead;
    var t := Step(s, a, unit);
    forall c
      ensures BoxInv(BoxOf(t, c), t.now, unit) && Ownership(t, c)
    {
      assert BoxInv(BoxOf(s, c), s.now, unit) && Ownership(s, c);
      if c != b {
        assert BoxOf(t, c) == BoxOf(s, c);
      } else if a.Delete? {
        DeleteKeeps(BoxOf(s, b), name, s.now, unit);
      } else {
        RewriteKeeps(BoxOf(s, b), name, a.readAs, s.now, unit);
      }
    }
    if a.Rewrite? {
      RewriteGrows(BoxOf(s, b), name, a.readAs);
    }
    forall w | w in t.workers
      ensures WorkerOk(t, w, unit)
    {
      assert WorkerOk(s, w, unit);
      if s.workers[w].box != b {
        assert BoxOf(t, s.workers[w].box) == BoxOf(s, s.workers[w].box);
      } else if AbsorbedHonestly(s, w) {
        DeliveredGrows(BoxOf(s, b), BoxOf(t, b), s.workers[w].id);
      }
    }
  }

  lemma RewriteGrows(box: Box, name: string, readAs: Option<Reading>)
    requires name in box.dir
    ensures Grows(box, AfterRewrite(box, name, readAs))
  {
  }

  /** Steps that touch no mailbox: the clock, a new delivery, a filename timestamp. */
  lemma OutsideKeeps(s: State, a: Action, unit: nat)
    requires Inv(s, unit) && Enabled(s, a, unit) && Clock(Step(s, a, unit).now, unit)
    requires a.Tick? || a.Receive? || a.PickName?
    ensures Inv(Step(s, a, unit), unit)
  {
    hide DatePrefix, InCalendar, Window, BoxInv, WorkerOk, Ownership, Clock;
    var t := Step(s, a, unit);
    forall b
      ensures BoxInv(BoxOf(t, b), t.now, unit) && Ownership(t, b)
    {
      assert BoxOf(t, b) == BoxOf(s, b);
      assert BoxInv(BoxOf(s, b), s.now, unit) && Ownership(s, b);
      TimePasses(BoxOf(s, b), s.now, t.now, unit);
      OutsideOwners(s, a, b, unit);
    }
    forall w | w in t.workers
      ensures WorkerOk(t, w, unit)
    {
      OutsideWorkers(s, a, w, unit);
    }
  }

  lemma OutsideOwners(s: State, a: Action, b: string, unit: nat)
    requires Clock(s.now, unit) && Enabled(s, a, unit) && (a.Tick? || a.Receive? || a.PickName?) && Ownership(s, b)
    ensures Ownership(Step(s, a, unit), b)
  {
    hide Clock;
  }

  lemma OutsideWorkers(s: State, a: Action, w: nat, unit: nat)
    requires Inv(s, unit) && Enabled(s, a, unit) && (a.Tick? || a.Receive? || a.PickName?)
    requires Clock(Step(s, a, unit).now, unit) && w in Step(s, a, unit).workers
    ensures WorkerOk(Step(s, a, unit), w, unit)
  {
    hide DatePrefix, InCalendar, BoxInv, Clock;
    ClockParts(s.now, unit);
    var t := Step(s, a, unit);
    assert BoxOf(t, t.workers[w].box) == BoxOf(s, t.workers[w].box);
    if w in s.workers {
      assert WorkerOk(s, w, unit);
    } else {
      assert Ownership(s, t.workers[w].box);
    }
  }

  lemma CheckKeepsAll(s: State, w: nat, scan: Scan, found: bool, unit: nat)
    requires Inv(s, unit) && Enabled(s, Check(w, scan, found), unit)
    ensures Inv(Step(s, Check(w, scan, found), unit), unit)
  {
    hide DatePrefix, InCalendar, Window, BoxInv, Clock, Rebuilt, Refusals, Misorderings, Missed, InOrder;
    var t := Step(s, Check(w, scan, found), unit);
    var b := s.workers[w].box;
    assert WorkerOk(s, w, unit) && BoxInv(BoxOf(s, b), s.now, unit) && Ownership(s, b);
    CheckKeeps(BoxOf(s, b), scan, found, s.now, unit);
    assert BoxOf(t, b) == AfterCheck(BoxOf(s, b), scan, found, s.now, unit);
    assert t.workers == s.workers[w := t.workers[w]];
    NotYetWritten(BoxOf(s, b), s.now, unit);
    if found && Honest(BoxOf(t, b).faults, BoxOf(s, b).holder.value.id) {
      CacheKnowsDelivered(BoxOf(t, b), BoxOf(s, b).holder.value.id, s.now, unit);
    }
    BoxStepKeeps(s, t, w, unit);
  }

  lemma NotYetWritten(box: Box, now: nat, unit: nat)
    requires BoxInv(box, now, unit) && box.holder.Some?
    ensures box.holder.value.section.Entered? || box.holder.value.section.Fresh?
      ==> box.holder.value.worker !in box.written
    ensures box.holder.value.section.Wrote? || box.holder.value.section.Recorded?
      ==> box.holder.value.worker in box.written && box.written[box.holder.value.worker] == box.holder.value.id
  {
    hide DatePrefix, InCalendar, Window;
  }

  lemma CacheKnowsDelivered(box: Box, id: string, now: nat, unit: nat)
    requires BoxInv(box, now, unit) && Honest(box.faults, id) && box.cache.Some? && id in box.cache.value
    ensures Delivered(box, id)
  {
    hide DatePrefix, InCalendar, Window;
  }

  /** Every enabled step keeps the invariant. */
  lemma StepKeeps(s: State, a: Action, unit: nat)
    requires Inv(s, unit) && Enabled(s, a, unit) && Clock(Step(s, a, unit).now, unit)
    ensures Inv(Step(s, a, unit), unit)
  {
    hide DatePrefix, InCalendar, Window, BoxInv, Clock, Rebuilt;
    match a
    case Tick(_) => OutsideKeeps(s, a, unit);
    case Receive(_, _, _) => OutsideKeeps(s, a, unit);
    case PickName(_) => OutsideKeeps(s, a, unit);
    case Restart => RestartKeepsAll(s, unit);
    case Delete(b, name) => FileStepKeeps(s, a, b, name, unit);
    case Rewrite(b, name, _) => FileStepKeeps(s, a, b, name, unit);
    case Check(w, scan, found) => CheckKeepsAll(s, w, scan, found, unit);
    case Lock(w) => EnterOrLeaveKeeps(s, a, w, unit);
    case Write(w, name, readAs) => WriteStepKeeps(s, w, name, readAs, unit);
    case FailWrite(w, partial) => FailStepKeeps(s, w, partial, unit);
    case Record(w, cleared) => RecordStepKeeps(s, w, cleared, unit);
    case Unlock(w) => EnterOrLeaveKeeps(s, a, w, unit);
  }

  lemma EnterOrLeaveKeeps(s: State, a: Action, w: nat, unit: nat)
    requires Inv(s, unit) && Enabled(s, a, unit) && (a.Lock? || a.Unlock?) && w == a.w
    ensures Inv(Step(s, a, unit), unit)
  {
    hide DatePrefix, InCalendar, Window, BoxInv, Clock, Ttl;
    var t := Step(s, a, unit);
    var b := s.workers[w].box;
    var box := BoxOf(s, b);
    assert WorkerOk(s, w, unit) && BoxInv(box, s.now, unit) && Ownership(s, b);
    match a {
      case Lock(_) =>
        var progress := s.workers[w].progress;
        LockKeeps(box, Guard(w, s.workers[w].id, progress.receivedAt, progress.nameAt, Entered(s.now)), s.now, unit);
      case Unlock(_) => NotYetWritten(box, s.now, unit); UnlockKeeps(box, s.now, unit);
    }
    assert t.workers == s.workers[w := t.workers[w]];
    BoxStepKeeps(s, t, w, unit);
  }

  lemma WriteStepKeeps(s: State, w: nat, name: string, readAs: Option<Reading>, unit: nat)
    requires Inv(s, unit) && Enabled(s, Write(w, name, readAs), unit)
    ensures Inv(Step(s, Write(w, name, readAs), unit), unit)
  {
    hide DatePrefix, InCalendar, Window, BoxInv, Clock, Ttl, NotedRead;
    var t := Step(s, Write(w, name, readAs), unit);
    var b := s.workers[w].box;
    var box := BoxOf(s, b);
    assert WorkerOk(s, w, unit) && BoxInv(box, s.now, unit) && Ownership(s, b);
    NotYetWritten(box, s.now, unit);
    WriteKeeps(box, name, readAs, s.now, unit);
    WriteGrows(box, name, readAs);
    assert t.workers == s.workers[w := t.workers[w]];
    BoxStepKeeps(s, t, w, unit);
  }

  lemma WriteGrows(box: Box, name: string, readAs: Option<Reading>)
    requires box.holder.Some? && box.holder.value.section.Fresh? && box.holder.value.worker !in box.written
    ensures Grows(box, AfterWrite(box, name, readAs))
  {
  }

  lemma FailStepKeeps(s: State, w: nat, partial: Partial, unit: nat)
    requires Inv(s, unit) && Enabled(s, FailWrite(w, partial), unit)
    ensures Inv(Step(s, FailWrite(w, partial), unit), unit)
  {
    hide DatePrefix, InCalendar, Window, BoxInv, Clock, Ttl;
    var t := Step(s, FailWrite(w, partial), unit);
    var b := s.workers[w].box;
    var box := BoxOf(s, b);
    assert WorkerOk(s, w, unit) && BoxInv(box, s.now, unit) && Ownership(s, b);
    NotYetWritten(box, s.now, unit);
    FailKeeps(box, partial, s.now, unit);
    assert t.workers == s.workers[w := t.workers[w]];
    BoxStepKeeps(s, t, w, unit);
  }

  lemma RecordStepKeeps(s: State, w: nat, cleared: set<string>, unit: nat)
    requires Inv(s, unit) && Enabled(s, Record(w, cleared), unit)
    ensures Inv(Step(s, Record(w, cleared), unit), unit)
  {
    hide DatePrefix, InCalendar, Window, BoxInv, Clock, Ttl;
    var t := Step(s, Record(w, cleared), unit);
    var b := s.workers[w].box;
    var box := BoxOf(s, b);
    assert WorkerOk(s, w, unit) && BoxInv(box, s.now, unit) && Ownership(s, b);
    RecordKeeps(box, cleared, s.now, unit);
    assert t.workers == s.workers[w := t.workers[w]];
    BoxStepKeeps(s, t, w, unit);
  }

  lemma StartInv(unit: nat)
    requires unit > 0
    ensures Inv(START, unit)
  {
    hide BoxInv;
    ClockStarts(unit);
    EmptyBoxInv(0, unit);
  }

  /** ... and so does every run. */
  lemma {:induction false} RunKeeps(s: State, acts: seq<Action>, unit: nat)
    requires Inv(s, unit) && Runs(s, acts, unit)
    ensures Inv(Run(s, acts, unit), unit)
    decreases |acts|
  {
    hide Enabled, Step, WorkerOk, Ownership, BoxInv;
    if acts != [] {
      StepKeeps(s, acts[0], unit);
      RunKeeps(Step(s, acts[0], unit), acts[1..], unit);
    }
  }

  // ---- the promises --------------------------------------------------------------

  lemma ReachableInv(s: State, unit: nat)
    requires Reachable(s, unit)
    ensures Inv(s, unit)
    ensures forall b :: BoxInv(BoxOf(s, b), s.now, unit)
  {
    hide Run, Runs, BoxInv;
    StartInv(unit);
    var acts :| Runs(START, acts, unit) && Run(START, acts, unit) == s;
    RunKeeps(START, acts, unit);
  }

  /** No duplicate inside the window: of two stored copies of one id in one mailbox, the
      later was checked at least a window after the earlier was received, unless the cache in which
      the later was looked up had its doubts about the earlier. */
  lemma NoDuplicateInWindow(s: State, unit: nat, b: string, n1: string, n2: string, id: string)
    requires Reachable(s, unit)
    requires var box := BoxOf(s, b);
      id != "" && Copy(box, n1, id) && Copy(box, n2, id) && box.dir[n1].serial < box.dir[n2].serial
      && box.dir[n2].doubt <= box.dir[n1].serial
    ensures BoxOf(s, b).dir[n1].receivedAt + Ttl(unit) - (unit - 1) <= BoxOf(s, b).dir[n2].checkedAt
  {
    hide Reachable, BoxInv, Ttl;
    ReachableInv(s, unit);
    CopiesAreSeparated(BoxOf(s, b), s.now, unit);
  }

  lemma CopiesAreSeparated(box: Box, now: nat, unit: nat)
    requires BoxInv(box, now, unit)
    ensures Separated(box, unit)
  {
    hide Separated, Covered, MailsOk;
  }

  /** A check has doubts only about an id of which an insert was refused, an older entry decided in a
      rebuild, or a rebuild did not read a whole live message as it was written. */
  lemma DoubtHasCause(s: State, unit: nat, b: string, name: string)
    requires Reachable(s, unit) && name in BoxOf(s, b).dir && BoxOf(s, b).dir[name].complete
    requires BoxOf(s, b).dir[name].doubt > 0
    ensures var faults, id := BoxOf(s, b).faults, BoxOf(s, b).dir[name].messageId;
      id in faults.refused || id in faults.misordered || id in faults.missed
  {
    hide Reachable, BoxInv, MailsOk, DatePrefix, InCalendar, WellNamed;
    ReachableInv(s, unit);
    MailsAreOk(BoxOf(s, b), s.now, unit, name);
  }

  lemma MailsAreOk(box: Box, now: nat, unit: nat, name: string)
    requires BoxInv(box, now, unit) && name in box.dir
    ensures MailOk(box, name, now, unit)
  {
    hide DatePrefix, InCalendar, MailOk, Separated, Covered, Serials, FreshIsFresh;
  }

  /** On a whole-second clock the window is the full TTL. No directory order can spoil it as
      long as no file speaks for the id of another. */
  lemma NoDuplicateInWholeSeconds(s: State, b: string, n1: string, n2: string, id: string)
    requires Reachable(s, 1)
    requires var box := BoxOf(s, b);
      id != "" && Copy(box, n1, id) && Copy(box, n2, id) && box.dir[n1].serial < box.dir[n2].serial
      && (box.dir[n2].doubt <= box.dir[n1].serial ||
          (id !in box.faults.refused && id !in box.faults.missed
           && id !in box.faults.unreadable && Honest(box.faults, id)))
    ensures BoxOf(s, b).dir[n1].receivedAt + DEDUP_TTL_SECS <= BoxOf(s, b).dir[n2].checkedAt
  {
    hide Reachable, BoxInv, Honest, DoubtOf;
    ReachableInv(s, 1);
    var box := BoxOf(s, b);
    if box.dir[n2].doubt > box.dir[n1].serial {
      HonestIsOrdered(box, id, s.now);
      DoubtHasCause(s, 1, b, n2);
    }
    NoDuplicateInWindow(s, 1, b, n1, n2, id);
  }

  lemma HonestIsOrdered(box: Box, id: string, now: nat)
    requires BoxInv(box, now, 1) && Honest(box.faults, id)
    requires id !in box.faults.refused && id !in box.faults.unreadable && id !in box.faults.missed
    ensures id !in box.faults.misordered
  {
    hide DatePrefix, InCalendar, MailOk, Remembered, Separated;
  }

  /** Two stored copies are never tied: one of them is the later delivery. */
  lemma CopiesAreOrdered(s: State, unit: nat, b: string, n1: string, n2: string)
    requires Reachable(s, unit) && n1 != n2
    requires n1 in BoxOf(s, b).dir && n2 in BoxOf(s, b).dir
    requires BoxOf(s, b).dir[n1].complete && BoxOf(s, b).dir[n2].complete
    ensures BoxOf(s, b).dir[n1].serial != BoxOf(s, b).dir[n2].serial
  {
    hide Reachable;
    ReachableInv(s, unit);
  }

  /** No mail is lost to dedup: an accepted delivery stored its own whole copy, or was
      absorbed by an id that another delivery to the same mailbox had stored whole, unless a
      truncated or misread file speaks for that id. A failed one stored nothing. */
  lemma NoMailIsLost(s: State, unit: nat, w: nat)
    requires Reachable(s, unit) && w in s.workers && s.workers[w].progress.Done?
    requires var faults := BoxOf(s, s.workers[w].box).faults;
      s.workers[w].id !in faults.leftover && s.workers[w].id !in faults.misread
    ensures var worker := s.workers[w];
            var written := BoxOf(s, worker.box).written;
            && (worker.progress.outcome.Stored? ==> w in written && written[w] == worker.id)
            && (worker.progress.outcome.Absorbed? ==>
                  worker.id != "" && exists v :: v in written && v != w && written[v] == worker.id)
            && (worker.progress.outcome.Failed? ==> w !in written)
  {
    hide Reachable;
    ReachableInv(s, unit);
    assert WorkerOk(s, w, unit);
  }

  /** Every cached id was delivered whole, but those that a truncated or misread file speaks for. */
  lemma CacheHoldsDeliveredIds(s: State, unit: nat, b: string, id: string)
    requires Reachable(s, unit) && id !in BoxOf(s, b).faults.leftover && id !in BoxOf(s, b).faults.misread
    requires BoxOf(s, b).cache.Some? && id in BoxOf(s, b).cache.value
    ensures Delivered(BoxOf(s, b), id)
  {
    hide Reachable;
    ReachableInv(s, unit);
    CacheKnowsDelivered(BoxOf(s, b), id, s.now, unit);
  }

  /** A file that brings in its id is enough for a check to find that id. */
  lemma OneVisitFinds(box: Box, name: string, id: string, start: nat, now: nat, unit: nat)
    requires Clock(now, unit) && box.cache.None? && box.holder.Some? && box.holder.value.section.Entered?
    requires box.holder.value.id == id != "" && Clock(start, unit) && box.holder.value.section.since <= start <= now
    requires BringsIn(box.dir, name, id, start, unit)
    ensures CanCheck(box, Scan(start, [Visit(name, start)]), true, now, unit)
  {
    hide DatePrefix, InCalendar, Loads, RemainingSecs, Ttl, TimeAt;
    ShortEnough(TimeAt(box.dir, name), start, unit);
    NothingRebuilt(box.dir, start, unit);
    assert [Visit(name, start)][..0] == [];
    assert id in Rebuilt(box.dir, [Visit(name, start)], start, unit);
  }

  /** When mail can be lost: the next check of an id that nobody delivered can take it for a
      duplicate exactly when a truncated or misread file brings in that id. */
  lemma NextCheckSwallowsIff(s: State, unit: nat, b: string, start: nat)
    requires Reachable(s, unit) && Clock(s.now, unit) && Clock(start, unit)
    requires var box := BoxOf(s, b);
      box.cache.None? && box.holder.Some? && box.holder.value.section.Entered?
      && box.holder.value.section.since <= start <= s.now
      && box.holder.value.id != "" && !Delivered(box, box.holder.value.id)
    ensures var box, id := BoxOf(s, b), BoxOf(s, b).holder.value.id;
      (exists visits :: CanCheck(box, Scan(start, visits), true, s.now, unit))
      <==> (exists name :: SpeaksForAnother(box.dir, name) && BringsIn(box.dir, name, id, start, unit))
  {
    hide Reachable, DatePrefix, InCalendar, Clock, Loads, Rebuilt, RemainingSecs, Ttl, TimeAt, BoxInv;
    ReachableInv(s, unit);
    var box, id := BoxOf(s, b), BoxOf(s, b).holder.value.id;
    if visits :| CanCheck(box, Scan(start, visits), true, s.now, unit) {
      RebuiltFromDir(box.dir, visits, start, unit);
      var name :| BringsIn(box.dir, name, id, start, unit);
      UndeliveredSpeaksForAnother(box, name, id, start, s.now, unit);
    }
    if name :| SpeaksForAnother(box.dir, name) && BringsIn(box.dir, name, id, start, unit) {
      OneVisitFinds(box, name, id, start, s.now, unit);
    }
  }

  lemma WholeIsDelivered(box: Box, name: string, now: nat, unit: nat)
    requires MailsOk(box, now, unit) && name in box.dir && box.dir[name].complete
    ensures Delivered(box, box.dir[name].messageId)
  {
    hide DatePrefix, InCalendar, WellNamed, ReadsTrue;
    assert MailOk(box, name, now, unit);
    assert box.dir[name].writer in box.written;
  }

  lemma UndeliveredSpeaksForAnother(box: Box, name: string, id: string, start: nat, now: nat, unit: nat)
    requires BoxInv(box, now, unit) && !Delivered(box, id) && Clock(start, unit)
    requires LoadsId(box.dir, name, id, start, unit)
    ensures SpeaksForAnother(box.dir, name)
  {
    hide DatePrefix, InCalendar, Clock, Loads, WellNamed, MailOk, Separated, Covered, Serials, GuardOk, FreshIsFresh;
    if !SpeaksForAnother(box.dir, name) {
      WholeIsDelivered(box, name, now, unit);
    }
  }
}
