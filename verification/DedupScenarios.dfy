/** Runs of the code that show why the dedup promises carry their conditions. In each of them
    lookups answer and inserts clear as `AsCoded` says. */
module DedupScenarios {
  import opened Text
  import opened Frontmatter
  import opened FrontmatterReadBack
  import opened TtlCache
  import opened DedupRebuild
  import opened DedupProtocol
  import opened DedupSafety
  import opened IngestSection

  const ID := "<a@b>"
  const OTHER := "<c@d>"
  const BOX := "alice"

  /** A state that can be gone on from. */
  ghost predicate Ready(s: State, unit: nat) {
    Attainable(s, unit) && Clock(s.now, unit)
  }

  /** One more step of the code. */
  ghost function After(s: State, a: Action, unit: nat): (t: State)
    requires Ready(s, unit) && Enabled(s, a, unit) && Clock(Step(s, a, unit).now, unit) && AsCoded(s, a, unit)
    ensures t == Step(s, a, unit) && Ready(t, unit)
  {
    AttainStep(s, a, unit);
    Step(s, a, unit)
  }

  // ---- parts of runs -------------------------------------------------------------------

  /** A header that reads as it was written. */
  function AsWritten(id: string, at: nat): Option<Reading> {
    Some(Reading(id, at))
  }

  /** A message that was received, checked and stored in one moment. */
  function WholeMail(w: nat, id: string, at: nat, doubt: nat, serial: nat): Mail {
    Mail(w, id, at, at, at, doubt, serial, true, AsWritten(id, at))
  }

  /** What the lock holder carries when all of a delivery happens in one moment. */
  function Holder(w: nat, id: string, now: nat, section: Section): Option<Guard> {
    Some(Guard(w, id, now, now, section))
  }

  lemma Wait(s: State, ticks: nat, unit: nat) returns (t: State)
    requires Ready(s, unit) && Clock(s.now + ticks, unit)
    ensures Ready(t, unit) && t == s.(now := s.now + ticks)
  {
    hide Clock, Attainable;
    t := After(s, Tick(ticks), unit);
  }

  lemma RestartBox(s: State, unit: nat) returns (t: State)
    requires Ready(s, unit) && BoxOf(s, BOX).holder.None?
    requires forall w :: w in s.workers ==> s.workers[w].progress.Done?
    ensures Ready(t, unit) && t.now == s.now && t.workers == s.workers
    ensures BoxOf(t, BOX) == BoxOf(s, BOX).(cache := None, doubts := map[])
  {
    hide Clock, Attainable;
    t := After(s, Restart, unit);
  }

  /** A delivery arrives and takes the lock. */
  lemma Enter(s: State, w: nat, id: string, unit: nat) returns (t: State)
    requires Ready(s, unit) && w !in s.workers && BoxOf(s, BOX).holder.None?
    ensures Ready(t, unit) && t.now == s.now
    ensures t.workers == s.workers[w := Worker(BOX, id, Inside)]
    ensures BoxOf(t, BOX) == BoxOf(s, BOX).(holder := Holder(w, id, s.now, Entered(s.now)))
  {
    hide Clock, Attainable;
    var s1 := After(s, Receive(w, BOX, id), unit);
    var s2 := After(s1, PickName(w), unit);
    t := After(s2, Lock(w), unit);
  }

  /** A delivery passes a duplicate check that builds the cache. */
  lemma Build(s: State, w: nat, id: string, visits: seq<Visit>, unit: nat) returns (t: State)
    requires Ready(s, unit) && w !in s.workers && BoxOf(s, BOX).holder.None? && id != ""
    requires BoxOf(s, BOX).cache.None? && InOrder(visits, s.now, s.now)
    requires id !in Rebuilt(BoxOf(s, BOX).dir, visits, s.now, unit)
    ensures Ready(t, unit) && t.now == s.now
    ensures t.workers == s.workers[w := Worker(BOX, id, Inside)]
    ensures var box := BoxOf(s, BOX);
      BoxOf(t, BOX) == Looked(box, Scan(s.now, visits), unit).(
        holder := Holder(w, id, s.now, Fresh(s.now, DoubtOf(Looked(box, Scan(s.now, visits), unit), id))))
  {
    hide Clock, Attainable, Rebuilt, NotedScan, Unsure, InOrder, Doubting;
    var s1 := Enter(s, w, id, unit);
    t := After(s1, Check(w, Scan(s.now, visits), false), unit);
  }

  /** ... and then fails without leaving a file. */
  lemma Probe(s: State, w: nat, id: string, visits: seq<Visit>, unit: nat) returns (t: State)
    requires Ready(s, unit) && w !in s.workers && BoxOf(s, BOX).holder.None? && id != ""
    requires BoxOf(s, BOX).cache.None? && InOrder(visits, s.now, s.now)
    requires id !in Rebuilt(BoxOf(s, BOX).dir, visits, s.now, unit)
    ensures Ready(t, unit) && t.now == s.now
    ensures t.workers == s.workers[w := Worker(BOX, id, Done(Failed))]
    ensures BoxOf(t, BOX) == Looked(BoxOf(s, BOX), Scan(s.now, visits), unit)
  {
    hide Clock, Attainable, Rebuilt, NotedScan, Unsure, InOrder, Doubting, DoubtOf;
    var s1 := Build(s, w, id, visits, unit);
    t := After(s1, FailWrite(w, Nothing), unit);
  }

  /** A delivery passes the duplicate check and builds the cache from an empty directory. */
  lemma PassFirst(s: State, w: nat, id: string, unit: nat) returns (t: State)
    requires Ready(s, unit) && w !in s.workers && BoxOf(s, BOX) == EMPTY_BOX && id != ""
    ensures Ready(t, unit) && t.now == s.now
    ensures t.workers == s.workers[w := Worker(BOX, id, Inside)]
    ensures BoxOf(t, BOX) == EMPTY_BOX.(cache := Some(map[]), holder := Holder(w, id, s.now, Fresh(s.now, 0)))
  {
    hide Clock, Attainable, Rebuilt, NotedScan, Unsure;
    EmptyRebuild(s.now, unit);
    t := Build(s, w, id, [], unit);
  }

  /** A delivery passes the duplicate check against a cache that is already there. */
  lemma Pass(s: State, w: nat, id: string, unit: nat) returns (t: State)
    requires Ready(s, unit) && w !in s.workers && BoxOf(s, BOX).holder.None? && id != ""
    requires BoxOf(s, BOX).cache.Some? && id !in BoxOf(s, BOX).cache.value
    ensures Ready(t, unit) && t.now == s.now
    ensures t.workers == s.workers[w := Worker(BOX, id, Inside)]
    ensures BoxOf(t, BOX) == BoxOf(s, BOX).(
              holder := Holder(w, id, s.now, Fresh(s.now, DoubtOf(BoxOf(s, BOX), id))))
  {
    hide Clock, Attainable;
    var s1 := Enter(s, w, id, unit);
    t := After(s1, Check(w, Scan(s.now, []), false), unit);
  }

  /** The write. */
  lemma WriteInto(s: State, w: nat, id: string, doubt: nat, name: string, readAs: Option<Reading>, unit: nat)
    returns (t: State)
    requires Ready(s, unit) && w in s.workers && s.workers[w] == Worker(BOX, id, Inside)
    requires BoxOf(s, BOX).holder == Holder(w, id, s.now, Fresh(s.now, doubt))
    requires name !in BoxOf(s, BOX).dir
    requires InCalendar(s.now, unit) && |name| >= 10 && name[..10] == DatePrefix(s.now, unit)
    ensures Ready(t, unit) && t.now == s.now && t.workers == s.workers
    ensures var box, mail := BoxOf(s, BOX), Mail(w, id, s.now, s.now, s.now, doubt, BoxOf(s, BOX).serial, true, readAs);
      BoxOf(t, BOX) == box.(
        holder := Holder(w, id, s.now, Wrote),
        dir := box.dir[name := mail],
        serial := box.serial + 1,
        written := box.written[w := id],
        faults := NotedRead(box.faults, mail))
  {
    hide Clock, Attainable, DatePrefix, InCalendar, NotedRead;
    t := After(s, Write(w, name, readAs), unit);
  }

  /** What has been written is put into the cache, and the lock is left. */
  lemma Settle(s: State, w: nat, id: string, unit: nat) returns (t: State)
    requires Ready(s, unit) && w in s.workers && s.workers[w] == Worker(BOX, id, Inside) && id != ""
    requires BoxOf(s, BOX).cache.Some? && |BoxOf(s, BOX).cache.value| < DEDUP_MAX_ITEMS
    requires BoxOf(s, BOX).holder == Holder(w, id, s.now, Wrote)
    ensures Ready(t, unit) && t.now == s.now
    ensures t.workers == s.workers[w := Worker(BOX, id, Done(Stored))]
    ensures BoxOf(t, BOX) == BoxOf(s, BOX).(
              cache := Some(Live(BoxOf(s, BOX).cache.value, s.now)[id := s.now + Ttl(unit)]), holder := None)
  {
    hide Attainable, Clock, Ttl, Live, ExpiredKeys;
    var cache := BoxOf(s, BOX).cache.value;
    ClearedIsLive(cache, s.now);
    LiveSize(cache, s.now);
    ClearsExpired(cache, s.now);
    var s1 := After(s, Record(w, ExpiredKeys(cache, s.now)), unit);
    t := After(s1, Unlock(w), unit);
  }

  lemma ClearsExpired(data: Expiries, now: nat)
    ensures forall k :: k in ExpiredKeys(data, now) && k in data ==> data[k] <= now
  {
  }

  lemma WholeIsNoFault(faults: Faults, w: nat, id: string, at: nat, doubt: nat, serial: nat)
    ensures NotedRead(faults, WholeMail(w, id, at, doubt, serial)) == faults
  {
  }

  /** A delivery passes the duplicate check and is stored. */
  lemma Store(s: State, w: nat, id: string, name: string, unit: nat) returns (t: State)
    requires Ready(s, unit) && w !in s.workers && BoxOf(s, BOX).holder.None? && id != ""
    requires BoxOf(s, BOX).cache.Some? && id !in BoxOf(s, BOX).cache.value
    requires |BoxOf(s, BOX).cache.value| < DEDUP_MAX_ITEMS && name !in BoxOf(s, BOX).dir
    requires InCalendar(s.now, unit) && |name| >= 10 && name[..10] == DatePrefix(s.now, unit)
    ensures Ready(t, unit) && t.now == s.now
    ensures t.workers == s.workers[w := Worker(BOX, id, Done(Stored))]
    ensures var box := BoxOf(s, BOX);
      BoxOf(t, BOX) == box.(
        cache := Some(Live(box.cache.value, s.now)[id := s.now + Ttl(unit)]),
        dir := box.dir[name := WholeMail(w, id, s.now, DoubtOf(box, id), box.serial)],
        serial := box.serial + 1,
        written := box.written[w := id])
  {
    hide Attainable, DatePrefix, Ttl, InCalendar, Clock, NotedRead, Live, DoubtOf;
    var doubt := DoubtOf(BoxOf(s, BOX), id);
    var s1 := Pass(s, w, id, unit);
    var s2 := WriteInto(s1, w, id, doubt, name, AsWritten(id, s.now), unit);
    t := Settle(s2, w, id, unit);
    WholeIsNoFault(BoxOf(s, BOX).faults, w, id, s.now, doubt, BoxOf(s, BOX).serial);
  }

  /** Another message comes and is deleted again. What had expired in the cache is gone. */
  lemma Flush(s: State, w: nat, unit: nat) returns (t: State)
    requires Ready(s, unit) && w !in s.workers && BoxOf(s, BOX).holder.None?
    requires BoxOf(s, BOX).cache.Some? && OTHER !in BoxOf(s, BOX).cache.value
    requires |BoxOf(s, BOX).cache.value| < DEDUP_MAX_ITEMS && InCalendar(s.now, unit)
    requires forall name :: name in BoxOf(s, BOX).dir ==> |name| != 16
    ensures Ready(t, unit) && t.now == s.now
    ensures t.workers == s.workers[w := Worker(BOX, OTHER, Done(Stored))]
    ensures var box := BoxOf(s, BOX);
      BoxOf(t, BOX) == box.(
        cache := Some(Live(box.cache.value, s.now)[OTHER := s.now + Ttl(unit)]),
        serial := box.serial + 1,
        written := box.written[w := OTHER])
  {
    hide Attainable, DatePrefix, Ttl, InCalendar, Clock, Live, DoubtOf;
    var file := FileAt(s.now, unit, "-other");
    assert |file| == 16;
    var s1 := Store(s, w, OTHER, file, unit);
    t := After(s1, Delete(BOX, file), unit);
    assert BoxOf(t, BOX).dir == BoxOf(s, BOX).dir;
  }

  /** Once its time has come and another message has been stored, an id is stored again. */
  lemma StoreAgain(s: State, w1: nat, w2: nat, id: string, name: string, unit: nat) returns (t: State)
    requires Ready(s, unit) && w1 !in s.workers && w2 !in s.workers && w1 != w2 && BoxOf(s, BOX).holder.None?
    requires id != "" && id != OTHER && BoxOf(s, BOX).cache.Some? && BoxOf(s, BOX).cache.value.Keys == {id}
    requires BoxOf(s, BOX).cache.value[id] <= s.now
    requires forall file :: file in BoxOf(s, BOX).dir ==> |file| != 16 && file != name
    requires InCalendar(s.now, unit) && |name| >= 10 && name[..10] == DatePrefix(s.now, unit)
    ensures Ready(t, unit) && t.now == s.now
    ensures t.workers == s.workers[w1 := Worker(BOX, OTHER, Done(Stored))][w2 := Worker(BOX, id, Done(Stored))]
    ensures var box := BoxOf(s, BOX);
      && BoxOf(t, BOX).holder.None? && BoxOf(t, BOX).faults == box.faults
      && BoxOf(t, BOX).dir == box.dir[name := WholeMail(w2, id, s.now, DoubtOf(box, id), box.serial + 1)]
      && BoxOf(t, BOX).serial == box.serial + 2
  {
    hide Attainable, DatePrefix, Ttl, InCalendar, Clock, Live;
    NothingLive(BoxOf(s, BOX).cache.value, id, s.now);
    var s1 := Flush(s, w1, unit);
    t := Store(s1, w2, id, name, unit);
  }

  lemma NothingLive(data: Expiries, id: string, now: nat)
    requires data.Keys == {id} && data[id] <= now
    ensures Live(data, now) == map[]
  {
  }

  /** A retry after a restart is absorbed by what the one file in the mailbox is read as. */
  lemma AbsorbedAfterRestart(s: State, w: nat, id: string, file: string, unit: nat) returns (t: State)
    requires Ready(s, unit) && w !in s.workers && id != "" && BoxOf(s, BOX).holder.None?
    requires forall v :: v in s.workers ==> s.workers[v].progress.Done?
    requires var dir := BoxOf(s, BOX).dir;
      dir.Keys == {file} && WellNamed(file, dir[file], unit) && dir[file].readAs == AsWritten(id, dir[file].receivedAt)
      && dir[file].receivedAt <= s.now && StillLive(dir[file].receivedAt, s.now, unit)
    ensures Ready(t, unit) && t.workers == s.workers[w := Worker(BOX, id, Done(Absorbed))]
    ensures BoxOf(t, BOX).dir == BoxOf(s, BOX).dir && BoxOf(t, BOX).written == BoxOf(s, BOX).written
    ensures var faults := BoxOf(s, BOX).faults;
      BoxOf(t, BOX).faults == faults.(missed := faults.missed + Misread(BoxOf(s, BOX).dir, file))
  {
    hide Clock, Attainable, DatePrefix, InCalendar, Rebuilt, NotedScan, Unsure, StillLive, Expiry, Misread;
    ClockParts(s.now, unit);
    var s1 := RestartBox(s, unit);
    var visits := [Visit(file, s.now)];
    OneEntryLoads(BoxOf(s, BOX).dir, file, id, s.now, unit);
    OnlyMissedNoted(BoxOf(s, BOX).faults, BoxOf(s, BOX).dir, visits, s.now, unit);
    ExpiryBounds(BoxOf(s, BOX).dir[file].receivedAt, s.now, s.now, unit);
    var s2 := Enter(s1, w, id, unit);
    t := After(s2, Check(w, Scan(s.now, visits), true), unit);
  }

  // ---- clocks and files -------------------------------------------------------------------

  /** The clock is fine on the first days of 1970. */
  lemma EarlyClock(t: nat, unit: nat)
    requires unit > 0 && t < 2 * (DEDUP_TTL_SECS * unit)
    ensures Clock(t, unit) && InCalendar(t, unit)
  {
    QuotientBound(t, DEDUP_TTL_SECS * unit);
    QuotientBound(t - DEDUP_TTL_SECS * unit, DEDUP_TTL_SECS * unit);
  }

  lemma QuotientBound(a: int, k: int)
    requires k > 0 && -k <= a < 2 * k
    ensures -1 <= a / k <= 1
  {
    var q := a / k;
    if 2 <= q {
      MulMonotone(2, q, k);
    }
    if q <= -2 {
      MulMonotone(q, -2, k);
    }
  }

  function FileAt(t: nat, unit: nat, tag: string): (name: string)
    requires InCalendar(t, unit)
    ensures |name| == 10 + |tag| && name[..10] == DatePrefix(t, unit)
  {
    DatePrefix(t, unit) + tag
  }

  // ---- what small directories load ------------------------------------------------------------

  lemma EmptyRebuild(now: nat, unit: nat)
    requires Clock(now, unit)
    ensures Rebuilt(map[], [], now, unit) == map[]
    ensures NotedScan(NO_FAULTS, map[], Scan(now, []), unit) == NO_FAULTS && Unsure(map[], Scan(now, []), unit) == {}
  {
    hide DatePrefix, InCalendar, LastIsNewest;
  }

  /** The id of a whole message that does not read as it was written. */
  function Misread(dir: Directory, name: string): set<string>
    requires name in dir
  {
    if dir[name].complete && dir[name].messageId != "" && !ReadsTrue(dir[name]) then {dir[name].messageId} else {}
  }

  lemma OnlyMissedNoted(faults: Faults, dir: Directory, visits: seq<Visit>, now: nat, unit: nat)
    requires Clock(now, unit) && Refusals(dir, visits, now, unit) == {}
    requires Misorderings(dir, visits, now, unit) == {}
    ensures NotedScan(faults, dir, Scan(now, visits), unit)
         == faults.(missed := faults.missed + Missed(dir, visits, now, unit))
    ensures Unsure(dir, Scan(now, visits), unit) == Missed(dir, visits, now, unit)
  {
    hide Refusals, Misorderings, Missed;
  }

  lemma AllVisitedNoneMissed(dir: Directory, visits: seq<Visit>, now: nat, unit: nat)
    requires forall name :: name in dir ==> Visited(visits, name) && (dir[name].complete ==> ReadsTrue(dir[name]))
    ensures Missed(dir, visits, now, unit) == {}
  {
    hide ReadsTrue, Visited;
  }

  /** A live message that reads as the id it is asked for. */
  predicate LiveEntry(dir: Directory, name: string, id: string, now: nat, unit: nat) {
    && name in dir && WellNamed(name, dir[name], unit) && id != ""
    && dir[name].readAs == AsWritten(id, dir[name].receivedAt)
    && dir[name].receivedAt <= now && StillLive(dir[name].receivedAt, now, unit)
  }

  lemma LiveEntryLoads(dir: Directory, name: string, id: string, now: nat, unit: nat)
    requires Clock(now, unit) && LiveEntry(dir, name, id, now, unit)
    ensures LoadsId(dir, name, id, now, unit) && TimeAt(dir, name) == dir[name].receivedAt
    ensures RemainingSecs(TimeAt(dir, name), now, unit) * unit <= Ttl(unit)
  {
    hide DatePrefix, InCalendar, NameTooOld, RemainingSecs, Ttl;
    PrefixFilterKeepsLive(name, dir[name], now, unit);
    RemainingAtMostTtl(dir[name].receivedAt, now, unit);
  }

  /** A directory of one live entry loads that entry. */
  lemma OneEntryLoads(dir: Directory, name: string, id: string, now: nat, unit: nat)
    requires Clock(now, unit) && dir.Keys == {name} && LiveEntry(dir, name, id, now, unit)
    ensures var visits := [Visit(name, now)];
      && Refusals(dir, visits, now, unit) == {} && Misorderings(dir, visits, now, unit) == {}
      && Missed(dir, visits, now, unit) == Misread(dir, name)
      && Rebuilt(dir, visits, now, unit) == map[id := Expiry(dir[name].receivedAt, now, now, unit)]
  {
    hide DatePrefix, InCalendar, Clock, Ttl, RemainingSecs, LoadsId, LiveEntry, TimeAt, IdAt, LastIsNewest, StillLive,
        Missed, Misread;
    var visits := [Visit(name, now)];
    assert visits[..0] == [] && visits[0] == Visit(name, now);
    LoadedOne(dir, name, id, now, unit);
    OneMissed(dir, name, id, now, unit);
    forall i
      ensures i !in Misorderings(dir, visits, now, unit)
    {
      MisorderingsMean(dir, visits, i, now, unit);
      OneIsNewest(dir, name, i, now, unit);
    }
  }

  lemma OneMissed(dir: Directory, name: string, id: string, now: nat, unit: nat)
    requires dir.Keys == {name} && LiveEntry(dir, name, id, now, unit)
    ensures Missed(dir, [Visit(name, now)], now, unit) == Misread(dir, name)
  {
    hide DatePrefix, InCalendar, ReadsTrue, StillLive, WellNamed;
    assert [Visit(name, now)][0].name == name;
  }

  lemma OneIsNewest(dir: Directory, name: string, id: string, now: nat, unit: nat)
    requires Clock(now, unit)
    ensures LastIsNewest(dir, [Visit(name, now)], id, now, unit)
  {
    hide DatePrefix, InCalendar, Clock, LoadsId, TimeAt, IdAt;
  }

  lemma LoadedOne(dir: Directory, name: string, id: string, now: nat, unit: nat)
    requires Clock(now, unit) && LiveEntry(dir, name, id, now, unit)
    ensures Refusals(dir, [Visit(name, now)], now, unit) == {}
    ensures Rebuilt(dir, [Visit(name, now)], now, unit) == map[id := Expiry(dir[name].receivedAt, now, now, unit)]
  {
    hide DatePrefix, InCalendar, Clock, Ttl, RemainingSecs, NameTooOld, Loads, LiveEntry;
    LiveEntryLoads(dir, name, id, now, unit);
    assert [Visit(name, now)][..0] == [];
  }

  /** Two entries of one id, listed newest first: the older one's expiry stays. */
  lemma TwoEntriesLoad(dir: Directory, newer: string, older: string, id: string, now: nat, unit: nat)
    requires Clock(now, unit) && dir.Keys == {newer, older} && newer != older
    requires LiveEntry(dir, newer, id, now, unit) && LiveEntry(dir, older, id, now, unit)
    requires forall name :: name in dir && dir[name].complete ==> ReadsTrue(dir[name])
    ensures var visits := [Visit(newer, now), Visit(older, now)];
      && Refusals(dir, visits, now, unit) == {} && Misorderings(dir, visits, now, unit) <= {id}
      && Missed(dir, visits, now, unit) == {}
      && Rebuilt(dir, visits, now, unit) == map[id := Expiry(dir[older].receivedAt, now, now, unit)]
  {
    hide DatePrefix, InCalendar, Clock, Ttl, RemainingSecs, LiveEntry, LastIsNewest, Loads, Rebuilt, Refusals, Missed,
        ReadsTrue;
    var visits := [Visit(newer, now), Visit(older, now)];
    assert visits[..1] == [Visit(newer, now)] && visits[0].name == newer && visits[1].name == older;
    LiveEntryLoads(dir, newer, id, now, unit);
    LiveEntryLoads(dir, older, id, now, unit);
    AllVisitedNoneMissed(dir, visits, now, unit);
    LoadedOne(dir, newer, id, now, unit);
    LoadedAgain(dir, newer, older, id, now, unit);
  }

  lemma LoadedAgain(dir: Directory, newer: string, older: string, id: string, now: nat, unit: nat)
    requires Clock(now, unit) && LoadsId(dir, older, id, now, unit)
    requires RemainingSecs(TimeAt(dir, older), now, unit) * unit <= Ttl(unit)
    requires Refusals(dir, [Visit(newer, now)], now, unit) == {}
    requires exists expiry :: Rebuilt(dir, [Visit(newer, now)], now, unit) == map[id := expiry]
    ensures var visits := [Visit(newer, now), Visit(older, now)];
      && Refusals(dir, visits, now, unit) == {}
      && Rebuilt(dir, visits, now, unit) == map[id := Expiry(TimeAt(dir, older), now, now, unit)]
  {
    hide DatePrefix, InCalendar, Clock, Ttl, RemainingSecs, Loads, TimeAt;
    var visits := [Visit(newer, now), Visit(older, now)];
    assert visits[..1] == [Visit(newer, now)];
    LiveSize(Rebuilt(dir, [Visit(newer, now)], now, unit), now);
  }

  // ---- mail that is lost ------------------------------------------------------------------------

  /** A delivery was absorbed although its id was never stored in that mailbox. */
  ghost predicate WasSwallowed(s: State, w: nat) {
    && w in s.workers && s.workers[w].progress == Done(Absorbed)
    && !Delivered(BoxOf(s, s.workers[w].box), s.workers[w].id)
  }

  /** The mailbox has one file, which the reader takes as it does `content`. */
  ghost predicate HoldsOnly(box: Box, content: Content, complete: bool, readTime: ReadTime) {
    exists name :: box.dir.Keys == {name} && box.dir[name].complete == complete
      && box.dir[name].readAs == ReadingOf(readTime, content)
  }

  /** A restart after a failed write that left the header of a plainly printed message: the retry
      is taken for a duplicate. */
  lemma LeftoverSwallowsRetry(render: Render, readTime: ReadTime, meta: Meta, body: string, at: nat, n: nat, more: nat,
                              unit: nat)
    requires Clock(at, unit) && IsPlainHeader(render, readTime, meta, at)
    requires meta.messageId != "" && PrintsPlain(render, meta.messageId) && n <= |Formatted(render, meta, body)|
    requires var left := Content(Formatted(render, meta, body)[..n], more);
      HeadIsText(left) && Reaches(render, meta, left.text)
    ensures exists s, w :: Attainable(s, unit) && WasSwallowed(s, w) && s.workers[w].id == meta.messageId
              && BoxOf(s, s.workers[w].box).faults == NO_FAULTS.(leftover := {meta.messageId})
              && HoldsOnly(BoxOf(s, s.workers[w].box), Content(Formatted(render, meta, body)[..n], more), false,
                           readTime)
  {
    hide DatePrefix, InCalendar, Attainable, Clock, IdPair, Formatted, Reaches, IsPlainHeader, PrintsPlain, HeadIsText;
    var left := Content(Formatted(render, meta, body)[..n], more);
    var id := meta.messageId;
    ClockParts(at, unit);
    CutMessageReads(render, readTime, meta, body, at, n, more);
    ClockStarts(unit);
    AttainStart(unit);
    var file := FileAt(at, unit, "-hello");
    var s := Wait(START, at, unit);
    s := PassFirst(s, 0, id, unit);
    s := After(s, FailWrite(0, Truncated(file, ReadingOf(readTime, left))), unit);
    LiveAtOnce(at, unit);
    s := AbsorbedAfterRestart(s, 1, id, file, unit);
    assert WasSwallowed(s, 1);
    assert BoxOf(s, BOX).dir.Keys == {file};
  }

  lemma LiveAtOnce(at: nat, unit: nat)
    requires unit > 0
    ensures StillLive(at, at, unit)
  {
  }

  /** A whole message whose id is printed with escapes: after a restart a genuine delivery whose id
      is the escaped text is taken for a duplicate, with no failed write anywhere. */
  lemma MisreadSwallowsMail(escape: Escape, readTime: ReadTime, meta: Meta, body: string, at: nat, unit: nat)
    requires Clock(at, unit) && IsPlainHeader(Basic(escape), readTime, meta, at)
    requires EscapesQuotes(escape) && '"' !in meta.messageId && Escaped(escape, meta.messageId) != meta.messageId
    requires Reaches(Basic(escape), meta, Formatted(Basic(escape), meta, body))
    ensures exists s, w :: Attainable(s, unit) && WasSwallowed(s, w)
              && s.workers[w].id == Escaped(escape, meta.messageId)
              && BoxOf(s, s.workers[w].box).faults
                 == NO_FAULTS.(unreadable := {meta.messageId}, misread := {Escaped(escape, meta.messageId)},
                               missed := {meta.messageId})
              && HoldsOnly(BoxOf(s, s.workers[w].box), AllText(Formatted(Basic(escape), meta, body)), true, readTime)
  {
    hide DatePrefix, InCalendar, Attainable, Clock, IdPair, Formatted, Reaches, IsPlainHeader, NotedRead, Basic;
    var text := Formatted(Basic(escape), meta, body);
    var id, other := meta.messageId, Escaped(escape, meta.messageId);
    ClockParts(at, unit);
    EscapedIdReads(escape, readTime, meta, body, at);
    EscapedIdIsMisread(escape, readTime, meta, body, Guard(0, id, at, at, Fresh(at, 0)), 0);
    ClockStarts(unit);
    AttainStart(unit);
    var file := FileAt(at, unit, "-hello");
    var s := Wait(START, at, unit);
    s := PassFirst(s, 0, id, unit);
    s := WriteInto(s, 0, id, 0, file, ReadingOf(readTime, AllText(text)), unit);
    s := Settle(s, 0, id, unit);
    LiveAtOnce(at, unit);
    s := AbsorbedAfterRestart(s, 1, other, file, unit);
    assert BoxOf(s, BOX).written == map[0 := id];
    assert WasSwallowed(s, 1);
    assert BoxOf(s, BOX).dir.Keys == {file};
  }

  // ---- duplicates that get in -------------------------------------------------------------------

  /** Two whole copies of one id, the later checked less than a window after the earlier was
      received. Nothing was refused, and both read as they were written. */
  ghost predicate DuplicateInsideWindow(s: State, id: string, n1: string, n2: string, unit: nat) {
    var box := BoxOf(s, BOX);
    && Copy(box, n1, id) && Copy(box, n2, id) && box.dir[n1].serial < box.dir[n2].serial
    && box.dir[n2].checkedAt < box.dir[n1].receivedAt + Ttl(unit)
    && box.faults.refused == {} && box.faults.unreadable == {} && box.faults.misread == {}
  }

  /** After a restart the directory cannot be read: a retry of any id is stored a second time, at
      any moment of its window. */
  lemma FailedScanLetsDuplicateIn(id: string, delay: nat, unit: nat)
    requires id != "" && unit > 0 && delay < Ttl(unit)
    ensures exists s, n1, n2 :: Attainable(s, unit) && DuplicateInsideWindow(s, id, n1, n2, unit)
              && BoxOf(s, BOX).dir[n2].checkedAt == BoxOf(s, BOX).dir[n1].receivedAt + delay
              && BoxOf(s, BOX).faults == NO_FAULTS.(missed := {id})
  {
    hide DatePrefix, InCalendar, Attainable, Clock, Rebuilt, NotedScan, Unsure, Live, NotedRead;
    EarlyClock(0, unit);
    EarlyClock(delay, unit);
    AttainStart(unit);
    var n1, n2 := FileAt(0, unit, "-one"), FileAt(delay, unit, "-again");
    assert |n1| == 14 && |n2| == 16;
    var s := PassFirst(START, 0, id, unit);
    s := WriteInto(s, 0, id, 0, n1, AsWritten(id, 0), unit);
    WholeIsNoFault(NO_FAULTS, 0, id, 0, 0, 0);
    s := Settle(s, 0, id, unit);
    s := RestartBox(s, unit);
    s := Wait(s, delay, unit);
    MissedOne(BoxOf(s, BOX).dir, n1, id, delay, unit);
    s := Build(s, 1, id, [], unit);
    s := WriteInto(s, 1, id, 1, n2, AsWritten(id, delay), unit);
    WholeIsNoFault(NO_FAULTS.(missed := {id}), 1, id, delay, 1, 1);
    s := Settle(s, 1, id, unit);
    assert DuplicateInsideWindow(s, id, n1, n2, unit);
  }

  lemma MissedOne(dir: Directory, name: string, id: string, now: nat, unit: nat)
    requires Clock(now, unit) && dir.Keys == {name} && dir[name].complete && ReadsTrue(dir[name])
    requires dir[name].messageId == id != "" && StillLive(dir[name].receivedAt, now, unit)
    ensures Rebuilt(dir, [], now, unit) == map[]
    ensures NotedScan(NO_FAULTS, dir, Scan(now, []), unit) == NO_FAULTS.(missed := {id})
    ensures Unsure(dir, Scan(now, []), unit) == {id}
  {
    hide DatePrefix, InCalendar, Clock, LastIsNewest, RemainingSecs, Loads, IdAt, StillLive, ReadsTrue;
    assert Missed(dir, [], now, unit) == {id} by {
      assert !Visited([], name) && IsMissed(dir, [], name, now, unit);
    }
  }

  /** On a half-second clock, two rebuilds and an unlucky directory order let a duplicate in
      one second after the copy it repeats, with no file left over and none missed. */
  lemma DirectoryOrderLetsDuplicateIn()
    ensures exists s, n1, n2 :: Attainable(s, 2) && DuplicateInsideWindow(s, ID, n1, n2, 2)
              && BoxOf(s, BOX).dir[n2].checkedAt == BoxOf(s, BOX).dir[n1].receivedAt + 2
              && BoxOf(s, BOX).faults.leftover == {} && BoxOf(s, BOX).faults.missed == {}
  {
    hide DatePrefix, InCalendar, Attainable, Clock, DoubtOf;
    LaterClock();
    var s := SecondCopy();
    var n0, n1, n2 := FileAt(1, 2, "-one"), FileAt(172800, 2, "-second"), FileAt(172802, 2, "-a-third");
    assert |n0| == 14 && |n1| == 17 && |n2| == 18;
    s := Wait(s, 2, 2);
    s := StoreAgain(s, 6, 7, ID, n2, 2);
    assert DuplicateInsideWindow(s, ID, n1, n2, 2);
  }

  lemma LaterClock()
    ensures Ttl(2) == 172800
    ensures Clock(0, 2) && Clock(1, 2) && Clock(2, 2) && Clock(172800, 2) && Clock(172802, 2)
    ensures InCalendar(1, 2) && InCalendar(172800, 2) && InCalendar(172802, 2)
  {
    hide InCalendar;
    EarlyClock(0, 2);
    EarlyClock(1, 2);
    EarlyClock(2, 2);
    EarlyClock(172800, 2);
    EarlyClock(172802, 2);
  }

  /** The copy received at tick 1, and the cache that a rebuild at tick 2 makes of it. */
  lemma FirstCopy() returns (s: State)
    ensures InCalendar(1, 2)
    ensures Ready(s, 2) && s.now == 2 && s.workers.Keys == {0, 1, 5}
    ensures forall w :: w in s.workers ==> s.workers[w].progress.Done?
    ensures BoxOf(s, BOX) == Box(
              None, Some(map[ID := 172800]), map[], map[FileAt(1, 2, "-one") := WholeMail(0, ID, 1, 0, 0)], 1,
              map[0 := ID], NO_FAULTS)
  {
    hide DatePrefix, InCalendar, Attainable, Clock, Rebuilt, NotedScan, Unsure, Expiry, Live;
    LaterClock();
    AttainStart(2);
    var file := FileAt(1, 2, "-one");
    s := Wait(START, 1, 2);
    EmptyRebuild(1, 2);
    s := Probe(s, 5, OTHER, [], 2);
    assert BoxOf(s, BOX) == EMPTY_BOX.(cache := Some(map[]));
    s := Store(s, 0, ID, file, 2);
    s := RestartBox(s, 2);
    s := Wait(s, 1, 2);
    s := Remember(s, file);
  }

  lemma Remember(s: State, file: string) returns (t: State)
    requires Ready(s, 2) && s.now == 2 && 1 !in s.workers && WellNamed(file, WholeMail(0, ID, 1, 0, 0), 2)
    requires BoxOf(s, BOX)
          == Box(None, None, map[], map[file := WholeMail(0, ID, 1, 0, 0)], 1, map[0 := ID], NO_FAULTS)
    ensures Ready(t, 2) && t.now == 2 && t.workers == s.workers[1 := Worker(BOX, OTHER, Done(Failed))]
    ensures BoxOf(t, BOX) == BoxOf(s, BOX).(cache := Some(map[ID := 172800]))
  {
    hide DatePrefix, InCalendar, Attainable, Clock, Rebuilt, NotedScan, Unsure, Expiry, StillLive, Missed;
    HalfSecondExpiries();
    OneEntryLoads(BoxOf(s, BOX).dir, file, ID, 2, 2);
    OnlyMissedNoted(NO_FAULTS, BoxOf(s, BOX).dir, [Visit(file, 2)], 2, 2);
    t := Probe(s, 1, OTHER, [Visit(file, 2)], 2);
  }

  lemma HalfSecondExpiries()
    ensures StillLive(1, 2, 2) && Expiry(1, 2, 2, 2) == 172800
    ensures StillLive(1, 172800, 2) && Expiry(1, 172800, 172800, 2) == 172802
    ensures StillLive(172800, 172800, 2)
  {
  }

  /** At tick 172800 the first copy's time has come: a second one is stored, and a rebuild gives
      the id the second that the first is said to have left. */
  lemma SecondCopy() returns (s: State)
    ensures InCalendar(1, 2) && InCalendar(172800, 2)
    ensures Ready(s, 2) && s.now == 172800 && s.workers.Keys == {0, 1, 2, 3, 4, 5}
    ensures var n0, n1 := FileAt(1, 2, "-one"), FileAt(172800, 2, "-second");
      && BoxOf(s, BOX).holder.None? && BoxOf(s, BOX).cache == Some(map[ID := 172802])
      && BoxOf(s, BOX).dir == map[n0 := WholeMail(0, ID, 1, 0, 0), n1 := WholeMail(3, ID, 172800, 0, 2)]
      && BoxOf(s, BOX).serial == 3
      && BoxOf(s, BOX).faults.(misordered := {}) == NO_FAULTS
  {
    hide DatePrefix, InCalendar, Attainable, Clock, Rebuilt, NotedScan;
    LaterClock();
    s := FirstCopy();
    var n0, n1 := FileAt(1, 2, "-one"), FileAt(172800, 2, "-second");
    assert |n0| == 14 && |n1| == 17;
    s := Wait(s, 172800 - 2, 2);
    s := StoreAgain(s, 2, 3, ID, n1, 2);
    s := RestartBox(s, 2);
    s := RememberBoth(s, n1, n0);
  }

  lemma RememberBoth(s: State, newer: string, older: string) returns (t: State)
    requires Ready(s, 2) && s.now == 172800 && 4 !in s.workers && newer != older
    requires BoxOf(s, BOX).holder.None? && BoxOf(s, BOX).cache.None? && BoxOf(s, BOX).faults == NO_FAULTS
    requires BoxOf(s, BOX).dir == map[older := WholeMail(0, ID, 1, 0, 0), newer := WholeMail(3, ID, 172800, 0, 2)]
    requires WellNamed(newer, WholeMail(3, ID, 172800, 0, 2), 2) && WellNamed(older, WholeMail(0, ID, 1, 0, 0), 2)
    ensures Ready(t, 2) && t.now == 172800 && t.workers == s.workers[4 := Worker(BOX, OTHER, Done(Failed))]
    ensures BoxOf(t, BOX).(cache := None, doubts := BoxOf(s, BOX).doubts, faults := NO_FAULTS) == BoxOf(s, BOX)
    ensures BoxOf(t, BOX).cache == Some(map[ID := 172802]) && BoxOf(t, BOX).faults.(misordered := {}) == NO_FAULTS
  {
    hide DatePrefix, InCalendar, Attainable, Clock, Rebuilt, NotedScan;
    OlderEntryWins(BoxOf(s, BOX).dir, newer, older);
    t := Probe(s, 4, OTHER, [Visit(newer, 172800), Visit(older, 172800)], 2);
  }

  lemma OlderEntryWins(dir: Directory, newer: string, older: string)
    requires Clock(172800, 2) && dir.Keys == {newer, older} && newer != older
    requires WellNamed(newer, dir[newer], 2) && WellNamed(older, dir[older], 2)
    requires dir[newer] == WholeMail(3, ID, 172800, 0, 2) && dir[older] == WholeMail(0, ID, 1, 0, 0)
    ensures var visits := [Visit(newer, 172800), Visit(older, 172800)];
      && Rebuilt(dir, visits, 172800, 2) == map[ID := 172802]
      && NotedScan(NO_FAULTS, dir, Scan(172800, visits), 2).(misordered := {}) == NO_FAULTS
  {
    hide DatePrefix, InCalendar, Clock, Rebuilt, Refusals, Misorderings, Missed, Expiry, StillLive;
    HalfSecondExpiries();
    TwoEntriesLoad(dir, newer, older, ID, 172800, 2);
  }

  /** What a failed write of moment 0 left. */
  function LeftAtZero(): Mail {
    Mail(0, ID, 0, 0, 0, 0, 0, false, AsWritten(ID, 0))
  }

  /** On a whole-second clock the same takes a truncated file: it is older than the copy, is
      listed after it, and its expiry stays. */
  lemma LeftoverShortensWindow()
    ensures exists s, n1, n2 :: Attainable(s, 1) && DuplicateInsideWindow(s, ID, n1, n2, 1)
              && BoxOf(s, BOX).faults.leftover == {ID} && BoxOf(s, BOX).faults.missed == {}
  {
    hide DatePrefix, InCalendar, Attainable, Clock, WellNamed;
    DayOneClock();
    var s := LeftoverDecided();
    var n0, n1, n2 := FileAt(0, 1, "-left"), FileAt(10, 1, "-copied"), FileAt(86405, 1, "-repeated");
    assert |n0| == 15 && |n1| == 17 && |n2| == 19;
    s := Wait(s, 86385, 1);
    s := StoreAgain(s, 3, 4, ID, n2, 1);
    assert DuplicateInsideWindow(s, ID, n1, n2, 1);
  }

  /** At 20 a rebuild has given the copy of 10 the expiry of what was left at 0. */
  lemma LeftoverDecided() returns (s: State)
    ensures InCalendar(0, 1) && InCalendar(10, 1)
    ensures Ready(s, 1) && s.now == 20 && s.workers.Keys == {0, 1, 2}
    ensures var n0, n1 := FileAt(0, 1, "-left"), FileAt(10, 1, "-copied");
      && BoxOf(s, BOX).holder.None? && BoxOf(s, BOX).cache == Some(map[ID := 86400])
      && BoxOf(s, BOX).dir == map[n0 := LeftAtZero(), n1 := WholeMail(1, ID, 10, 0, 0)]
      && BoxOf(s, BOX).serial == 1
      && BoxOf(s, BOX).faults.(misordered := {}) == NO_FAULTS.(leftover := {ID})
  {
    hide DatePrefix, InCalendar, Attainable, Clock;
    DayOneClock();
    var n0, n1 := FileAt(0, 1, "-left"), FileAt(10, 1, "-copied");
    assert |n0| == 15 && |n1| == 17;
    s := LeftAndCopied(n0, n1);
    s := Wait(s, 10, 1);
    s := RememberLeftover(s, n1, n0);
  }

  lemma RememberLeftover(s: State, newer: string, older: string) returns (t: State)
    requires Ready(s, 1) && s.now == 20 && 2 !in s.workers && newer != older
    requires BoxOf(s, BOX).holder.None? && BoxOf(s, BOX).cache.None?
    requires BoxOf(s, BOX).faults == NO_FAULTS.(leftover := {ID})
    requires BoxOf(s, BOX).dir == map[older := LeftAtZero(),
                                      newer := WholeMail(1, ID, 10, 0, 0)]
    requires WellNamed(newer, BoxOf(s, BOX).dir[newer], 1) && WellNamed(older, BoxOf(s, BOX).dir[older], 1)
    ensures Ready(t, 1) && t.now == 20 && t.workers == s.workers[2 := Worker(BOX, OTHER, Done(Failed))]
    ensures BoxOf(t, BOX).(cache := None, doubts := BoxOf(s, BOX).doubts, faults := NO_FAULTS)
         == BoxOf(s, BOX).(faults := NO_FAULTS)
    ensures BoxOf(t, BOX).cache == Some(map[ID := 86400])
    ensures BoxOf(t, BOX).faults.(misordered := {}) == NO_FAULTS.(leftover := {ID})
  {
    hide DatePrefix, InCalendar, Attainable, Clock, Rebuilt, NotedScan;
    LeftoverDecides(BoxOf(s, BOX).dir, newer, older);
    t := Probe(s, 2, OTHER, [Visit(newer, 20), Visit(older, 20)], 1);
  }

  lemma DayOneClock()
    ensures Ttl(1) == 86400
    ensures Clock(0, 1) && Clock(10, 1) && Clock(20, 1) && Clock(86405, 1)
    ensures InCalendar(0, 1) && InCalendar(10, 1) && InCalendar(86405, 1)
  {
    hide InCalendar;
    EarlyClock(0, 1);
    EarlyClock(10, 1);
    EarlyClock(20, 1);
    EarlyClock(86405, 1);
  }

  lemma LeftoverDecides(dir: Directory, newer: string, older: string)
    requires Clock(20, 1) && dir.Keys == {newer, older} && newer != older
    requires WellNamed(newer, dir[newer], 1) && WellNamed(older, dir[older], 1)
    requires dir[newer] == WholeMail(1, ID, 10, 0, 0) && dir[older] == LeftAtZero()
    ensures var visits := [Visit(newer, 20), Visit(older, 20)];
      && Rebuilt(dir, visits, 20, 1) == map[ID := 86400]
      && NotedScan(NO_FAULTS.(leftover := {ID}), dir, Scan(20, visits), 1).(misordered := {})
         == NO_FAULTS.(leftover := {ID})
  {
    hide DatePrefix, InCalendar, Clock, Rebuilt, Refusals, Misorderings, Missed, Expiry, StillLive;
    TwentyLive();
    TwoEntriesLoad(dir, newer, older, ID, 20, 1);
    WholeSecondExpiry(0, 20, 20);
  }

  lemma TwentyLive()
    ensures StillLive(0, 20, 1) && StillLive(10, 20, 1)
  {
  }

  /** A failed write at 0 leaves a readable file, a copy is stored at 10, the daemon restarts. */
  lemma LeftAndCopied(n0: string, n1: string) returns (s: State)
    requires n0 != n1 && InCalendar(0, 1) && InCalendar(10, 1) && Clock(0, 1) && Clock(10, 1)
    requires |n0| >= 10 && n0[..10] == DatePrefix(0, 1) && |n1| >= 10 && n1[..10] == DatePrefix(10, 1)
    ensures Ready(s, 1) && s.now == 10 && s.workers.Keys == {0, 1}
    ensures forall w :: w in s.workers ==> s.workers[w].progress.Done?
    ensures BoxOf(s, BOX) == Box(
              None, None, map[], map[n0 := LeftAtZero(), n1 := WholeMail(1, ID, 10, 0, 0)],
              1, map[1 := ID], NO_FAULTS.(leftover := {ID}))
  {
    hide DatePrefix, InCalendar, Attainable, Clock, Rebuilt, NotedScan;
    AttainStart(1);
    s := PassFirst(START, 0, ID, 1);
    s := After(s, FailWrite(0, Truncated(n0, AsWritten(ID, 0))), 1);
    s := Wait(s, 10, 1);
    s := Store(s, 1, ID, n1, 1);
    s := RestartBox(s, 1);
  }
}
