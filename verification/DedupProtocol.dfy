/** Inbound Message-Id dedup as a protocol: any number of concurrent deliveries to
    any number of mailboxes, with failing writes, refused inserts, rebuilds that read only
    part of the directory, rewritten and deleted files, and daemon restarts. A run is a
    sequence of actions from the empty state. */
module DedupProtocol {
  import opened Text
  import opened Frontmatter
  import opened TtlCache
  import opened DedupRebuild

  /** How far the holder of a mailbox lock, taken at `since`, has come in the critical section. */
  datatype Section = Entered(since: nat) | Fresh(checkedAt: nat, doubt: nat) | Wrote | Recorded

  /** What the lock holder carries. */
  datatype Guard = Guard(worker: nat, id: string, receivedAt: nat, nameAt: nat, section: Section)

  /** What went wrong in a mailbox so far, for which ids. */
  datatype Faults = Faults(
    refused: set<string>,     // a cache insert of the id was refused
    unreadable: set<string>,  // a whole message of the id was stored and does not read as it was written
    leftover: set<string>,    // a failed write left a file that reads as the id
    misread: set<string>,     // a whole message of another id was stored and reads as this one
    misordered: set<string>,  // in a rebuild an older entry of the id decided
    missed: set<string>)      // a rebuild did not read a whole live message of the id as it was written

  const NO_FAULTS := Faults({}, {}, {}, {}, {}, {})

  /** One mailbox. `doubts`, `written` and `faults` are history. `doubts`: the ids of which the cache may
      not know all copies, those with a serial number below the one given here. `written`: which delivery
      stored which id. */
  datatype Box = Box(
    holder: Option<Guard>,
    cache: Option<Expiries>,
    doubts: map<string, nat>,
    dir: Directory,
    serial: nat,
    written: map<nat, string>,
    faults: Faults)

  const EMPTY_BOX := Box(None, None, map[], map[], 0, map[], NO_FAULTS)

  datatype Outcome = Stored | Absorbed | Failed | Aborted

  datatype Progress =
    | Received(receivedAt: nat)
    | Named(receivedAt: nat, nameAt: nat)
    | Inside
    | Done(outcome: Outcome)

  datatype Worker = Worker(box: string, id: string, progress: Progress)

  datatype State = State(now: nat, workers: map<nat, Worker>, boxes: map<string, Box>)

  const START := State(0, map[], map[])

  /** The lock map creates a mailbox's state on first use. */
  function BoxOf(s: State, b: string): Box {
    if b in s.boxes then s.boxes[b] else EMPTY_BOX
  }

  /** What a failed write leaves: nothing, or a file and what the reader makes of it. */
  datatype Partial = Nothing | Truncated(name: string, readAs: Option<Reading>)

  datatype Action =
    | Tick(ticks: nat)
    | Receive(w: nat, box: string, id: string)
    | PickName(w: nat)
    | Lock(w: nat)
    | Check(w: nat, scan: Scan, found: bool)
    | Write(w: nat, name: string, readAs: Option<Reading>)
    | FailWrite(w: nat, partial: Partial)
    | Record(w: nat, cleared: set<string>)
    | Unlock(w: nat)
    | Rewrite(box: string, name: string, readAs: Option<Reading>)
    | Delete(box: string, name: string)
    | Restart

  // ---- steps inside one mailbox ----------------------------------------------

  /** The cache the duplicate check looks into, built from disk when missing. */
  function CacheAtCheck(box: Box, scan: Scan, unit: nat): Expiries
    requires box.cache.None? ==> Clock(scan.start, unit)
  {
    if box.cache.Some? then box.cache.value else Rebuilt(box.dir, scan.visits, scan.start, unit)
  }

  /** `contains_key`: never a key that is absent, always a key that is live. */
  predicate MayAnswer(cache: Expiries, id: string, now: nat, found: bool) {
    && (found ==> id in cache)
    && (id in cache && now < cache[id] ==> found)
  }

  /** A scan takes place with the lock held. It may miss any part of the directory. */
  predicate IsTimely(scan: Scan, since: nat, now: nat, unit: nat): (r: bool)
    requires Clock(now, unit)
    ensures r ==> Clock(scan.start, unit)
  {
    if since <= scan.start <= now then
      ClockEarlier(scan.start, now, unit);
      InOrder(scan.visits, scan.start, now)
    else false
  }

  predicate CanCheck(box: Box, scan: Scan, found: bool, now: nat, unit: nat)
    requires Clock(now, unit)
  {
    && box.holder.Some? && box.holder.value.section.Entered?
    && (if box.holder.value.id == "" then !found
        else
          && (box.cache.None? ==> IsTimely(scan, box.holder.value.section.since, now, unit))
          && MayAnswer(CacheAtCheck(box, scan, unit), box.holder.value.id, now, found))
  }

  /** The ids of which a rebuild may not know all copies for their window. */
  function Unsure(dir: Directory, scan: Scan, unit: nat): set<string>
    requires Clock(scan.start, unit)
  {
    Refusals(dir, scan.visits, scan.start, unit) + Misorderings(dir, scan.visits, scan.start, unit)
    + Missed(dir, scan.visits, scan.start, unit)
  }

  /** A whole message of `id`, live at the start of the scan, is not visited or does not read as written. */
  predicate MissesCopy(dir: Directory, scan: Scan, id: string, name: string, unit: nat) {
    && name in dir && dir[name].complete && dir[name].messageId == id != ""
    && scan.start < dir[name].receivedAt + DEDUP_TTL_SECS * unit
    && ((forall i :: 0 <= i < |scan.visits| ==> scan.visits[i].name != name)
        || dir[name].readAs != Some(Reading(id, dir[name].receivedAt)))
  }

  /** A rebuild is unsure of an id exactly when an insert of it was refused, an older entry decides, or a
      live copy was missed. */
  lemma UnsureMeans(dir: Directory, scan: Scan, id: string, unit: nat)
    requires Clock(scan.start, unit)
    ensures id in Unsure(dir, scan, unit) <==>
      || (exists i: nat :: RefusedAt(dir, scan.visits, i, id, scan.start, unit))
      || !LastIsNewest(dir, scan.visits, id, scan.start, unit)
      || (exists name :: MissesCopy(dir, scan, id, name, unit))
  {
    hide Clock, Refusals, Misorderings, RefusedAt, LastIsNewest;
    RefusalsMean(dir, scan.visits, id, scan.start, unit);
    MisorderingsMean(dir, scan.visits, id, scan.start, unit);
    forall name | name in dir && dir[name].messageId == id
      ensures IsMissed(dir, scan.visits, name, scan.start, unit) <==> MissesCopy(dir, scan, id, name, unit)
    {
    }
    MissedNames(dir, scan, id, unit);
  }

  lemma MissedNames(dir: Directory, scan: Scan, id: string, unit: nat)
    requires forall name | name in dir && dir[name].messageId == id ::
      IsMissed(dir, scan.visits, name, scan.start, unit) <==> MissesCopy(dir, scan, id, name, unit)
    ensures id in Missed(dir, scan.visits, scan.start, unit) <==> exists name :: MissesCopy(dir, scan, id, name, unit)
  {
    hide IsMissed;
    if id in Missed(dir, scan.visits, scan.start, unit) {
      var name :| name in dir && IsMissed(dir, scan.visits, name, scan.start, unit) && dir[name].messageId == id;
      assert MissesCopy(dir, scan, id, name, unit);
    }
  }

  /** What goes wrong in a rebuild. */
  function NotedScan(faults: Faults, dir: Directory, scan: Scan, unit: nat): Faults
    requires Clock(scan.start, unit)
  {
    faults.(
      refused := faults.refused + Refusals(dir, scan.visits, scan.start, unit),
      misordered := faults.misordered + Misorderings(dir, scan.visits, scan.start, unit),
      missed := faults.missed + Missed(dir, scan.visits, scan.start, unit))
  }

  function Doubting(ids: set<string>, serial: nat): map<string, nat> {
    map id | id in ids :: serial
  }

  function DoubtOf(box: Box, id: string): nat {
    if id in box.doubts then box.doubts[id] else 0
  }

  /** The mailbox as the look into its cache leaves it. */
  function Looked(box: Box, scan: Scan, unit: nat): Box
    requires box.cache.None? ==> Clock(scan.start, unit)
  {
    if box.cache.Some? then box
    else box.(
      cache := Some(CacheAtCheck(box, scan, unit)),
      doubts := Doubting(Unsure(box.dir, scan, unit), box.serial),
      faults := NotedScan(box.faults, box.dir, scan, unit))
  }

  function AfterCheck(box: Box, scan: Scan, found: bool, now: nat, unit: nat): Box
    requires Clock(now, unit) && CanCheck(box, scan, found, now, unit)
  {
    var g := box.holder.value;
    var looked := if g.id == "" then box else Looked(box, scan, unit);
    looked.(holder := if found then None else Some(g.(section := Fresh(now, DoubtOf(looked, g.id)))))
  }

  predicate CanWrite(box: Box, name: string, unit: nat) {
    && box.holder.Some? && box.holder.value.section.Fresh?
    && name !in box.dir
    && InCalendar(box.holder.value.nameAt, unit)
    && |name| >= 10 && name[..10] == DatePrefix(box.holder.value.nameAt, unit)
  }

  function MailOf(box: Box, complete: bool, readAs: Option<Reading>): Mail
    requires box.holder.Some? && box.holder.value.section.Fresh?
  {
    var g := box.holder.value;
    Mail(g.worker, g.id, g.receivedAt, g.nameAt, g.section.checkedAt, g.section.doubt, box.serial, complete, readAs)
  }

  /** A whole message that reads as written is no fault; without an id there is nothing to read. */
  function NotedRead(faults: Faults, m: Mail): Faults {
    faults.(
      unreadable := faults.unreadable + (if m.messageId != "" && !ReadsTrue(m) then {m.messageId} else {}),
      misread := faults.misread +
        (if m.readAs.Some? && m.readAs.value.id != m.messageId then {m.readAs.value.id} else {}))
  }

  function AfterWrite(box: Box, name: string, readAs: Option<Reading>): Box
    requires box.holder.Some? && box.holder.value.section.Fresh?
  {
    var g := box.holder.value;
    box.(
      dir := box.dir[name := MailOf(box, true, readAs)],
      serial := box.serial + 1,
      written := box.written[g.worker := g.id],
      holder := Some(g.(section := Wrote)),
      faults := NotedRead(box.faults, MailOf(box, true, readAs)))
  }

  function NotedLeft(faults: Faults, readAs: Option<Reading>): Faults {
    faults.(leftover := faults.leftover + (if readAs.Some? then {readAs.value.id} else {}))
  }

  /** A failed flat write may leave a truncated file behind. */
  function AfterFail(box: Box, partial: Partial): Box
    requires box.holder.Some? && box.holder.value.section.Fresh?
  {
    if partial.Nothing? then box.(holder := None)
    else box.(
      holder := None,
      dir := box.dir[partial.name := MailOf(box, false, partial.readAs)],
      faults := NotedLeft(box.faults, partial.readAs))
  }

  /** An insert clears any expired entries first, and is refused only by a full cache. */
  predicate CanRecord(box: Box, cleared: set<string>, now: nat) {
    && box.holder.Some? && box.holder.value.section.Wrote?
    && (box.cache.Some? ==> forall k :: k in cleared && k in box.cache.value ==> box.cache.value[k] <= now)
  }

  function AfterRecord(box: Box, cleared: set<string>, now: nat, unit: nat): Box
    requires CanRecord(box, cleared, now)
  {
    var g := box.holder.value;
    var noted := box.(holder := Some(g.(section := Recorded)));
    if g.id == "" || box.cache.None? then noted
    else
      var kept := box.cache.value - cleared;
      noted.(
        cache := Some(Put(kept, g.id, now + Ttl(unit), DEDUP_MAX_ITEMS)),
        doubts := if Accepts(kept, g.id, DEDUP_MAX_ITEMS) then box.doubts else box.doubts[g.id := box.serial],
        faults := box.faults.(
          refused := box.faults.refused + (if Accepts(kept, g.id, DEDUP_MAX_ITEMS) then {} else {g.id})))
  }

  /** A MARK request writes the header anew; the lock is free before and after. */
  function AfterRewrite(box: Box, name: string, readAs: Option<Reading>): Box
    requires name in box.dir
  {
    var m := box.dir[name].(readAs := readAs);
    box.(
      dir := box.dir[name := m],
      faults := if m.complete then NotedRead(box.faults, m) else NotedLeft(box.faults, readAs))
  }

  function AfterRestart(box: Box): Box {
    box.(holder := None, cache := None, doubts := map[])
  }

  // ---- steps of the whole system ----------------------------------------------

  predicate InsideBox(s: State, w: nat) {
    && w in s.workers && s.workers[w].progress.Inside?
    && BoxOf(s, s.workers[w].box).holder.Some?
    && BoxOf(s, s.workers[w].box).holder.value.worker == w
  }

  predicate Enabled(s: State, a: Action, unit: nat)
    requires Clock(s.now, unit)
  {
    match a
    case Tick(ticks) => Clock(s.now + ticks, unit)
    case Receive(w, _, _) => w !in s.workers
    case PickName(w) => w in s.workers && s.workers[w].progress.Received?
    case Lock(w) => w in s.workers && s.workers[w].progress.Named? && BoxOf(s, s.workers[w].box).holder.None?
    case Check(w, scan, found) =>
      InsideBox(s, w) && CanCheck(BoxOf(s, s.workers[w].box), scan, found, s.now, unit)
    case Write(w, name, _) => InsideBox(s, w) && CanWrite(BoxOf(s, s.workers[w].box), name, unit)
    case FailWrite(w, partial) =>
      && InsideBox(s, w) && BoxOf(s, s.workers[w].box).holder.value.section.Fresh?
      && (partial.Truncated? ==> CanWrite(BoxOf(s, s.workers[w].box), partial.name, unit))
    case Record(w, cleared) => InsideBox(s, w) && CanRecord(BoxOf(s, s.workers[w].box), cleared, s.now)
    case Unlock(w) => InsideBox(s, w) && BoxOf(s, s.workers[w].box).holder.value.section.Recorded?
    case Rewrite(b, name, _) => BoxOf(s, b).holder.None? && name in BoxOf(s, b).dir
    case Delete(b, name) => name in BoxOf(s, b).dir
    case Restart => true
  }

  function Finish(s: State, w: nat, box: Box, outcome: Outcome): State
    requires w in s.workers
  {
    s.(workers := s.workers[w := s.workers[w].(progress := Done(outcome))],
       boxes := s.boxes[s.workers[w].box := box])
  }

  function Aborting(worker: Worker): Worker {
    if worker.progress.Done? then worker else worker.(progress := Done(Aborted))
  }

  function Step(s: State, a: Action, unit: nat): State
    requires Clock(s.now, unit) && Enabled(s, a, unit)
  {
    match a
    case Tick(ticks) => s.(now := s.now + ticks)
    case Receive(w, b, id) => s.(workers := s.workers[w := Worker(b, id, Received(s.now))])
    case PickName(w) =>
      var worker := s.workers[w];
      s.(workers := s.workers[w := worker.(progress := Named(worker.progress.receivedAt, s.now))])
    case Lock(w) =>
      var worker := s.workers[w];
      var guard := Guard(w, worker.id, worker.progress.receivedAt, worker.progress.nameAt, Entered(s.now));
      s.(workers := s.workers[w := worker.(progress := Inside)],
         boxes := s.boxes[worker.box := BoxOf(s, worker.box).(holder := Some(guard))])
    case Check(w, scan, found) =>
      var b := s.workers[w].box;
      var box := AfterCheck(BoxOf(s, b), scan, found, s.now, unit);
      if found then Finish(s, w, box, Absorbed) else s.(boxes := s.boxes[b := box])
    case Write(w, name, readAs) =>
      var b := s.workers[w].box;
      s.(boxes := s.boxes[b := AfterWrite(BoxOf(s, b), name, readAs)])
    case FailWrite(w, partial) => Finish(s, w, AfterFail(BoxOf(s, s.workers[w].box), partial), Failed)
    case Record(w, cleared) =>
      var b := s.workers[w].box;
      s.(boxes := s.boxes[b := AfterRecord(BoxOf(s, b), cleared, s.now, unit)])
    case Unlock(w) => Finish(s, w, BoxOf(s, s.workers[w].box).(holder := None), Stored)
    case Rewrite(b, name, readAs) => s.(boxes := s.boxes[b := AfterRewrite(BoxOf(s, b), name, readAs)])
    case Delete(b, name) => s.(boxes := s.boxes[b := BoxOf(s, b).(dir := BoxOf(s, b).dir - {name})])
    case Restart =>
      State(s.now, map w | w in s.workers :: Aborting(s.workers[w]), map b | b in s.boxes :: AfterRestart(s.boxes[b]))
  }

  /** The actions can be taken one after another from `s`. */
  predicate Runs(s: State, acts: seq<Action>, unit: nat)
    requires Clock(s.now, unit)
    decreases |acts|
  {
    acts == [] ||
    (Enabled(s, acts[0], unit) && Clock(Step(s, acts[0], unit).now, unit)
        && Runs(Step(s, acts[0], unit), acts[1..], unit))
  }

  function Run(s: State, acts: seq<Action>, unit: nat): State
    requires Clock(s.now, unit) && Runs(s, acts, unit)
    decreases |acts|
  {
    if acts == [] then s else Run(Step(s, acts[0], unit), acts[1..], unit)
  }

  ghost predicate Reachable(s: State, unit: nat) {
    Clock(0, unit) && exists acts :: Runs(START, acts, unit) && Run(START, acts, unit) == s
  }

  // ---- runs of the code ------------------------------------------------------------

  function ExpiredKeys(data: Expiries, now: nat): set<string> {
    set k | k in data && data[k] <= now
  }

  /** What the code answers: whether the id is among the keys, expired or not. */
  predicate Finds(box: Box, id: string, scan: Scan, unit: nat)
    requires box.cache.None? && id != "" ==> Clock(scan.start, unit)
  {
    id != "" && id in CacheAtCheck(box, scan, unit)
  }

  /** The keys that the code's insert clears. */
  function Cleared(box: Box, now: nat): set<string> {
    if box.cache.Some? then ExpiredKeys(box.cache.value, now) else {}
  }

  /** The protocol leaves open how expired keys answer and when they go; the code does not. */
  predicate AsCoded(s: State, a: Action, unit: nat)
    requires Clock(s.now, unit) && Enabled(s, a, unit)
  {
    match a
    case Check(w, scan, found) =>
      var box := BoxOf(s, s.workers[w].box);
      found <==> Finds(box, box.holder.value.id, scan, unit)
    case Record(w, cleared) => cleared == Cleared(BoxOf(s, s.workers[w].box), s.now)
    case _ => true
  }

  /** All actions of the run are the code's. */
  predicate AllAsCoded(s: State, acts: seq<Action>, unit: nat)
    requires Clock(s.now, unit) && Runs(s, acts, unit)
    decreases |acts|
  {
    acts == [] || (AsCoded(s, acts[0], unit) && AllAsCoded(Step(s, acts[0], unit), acts[1..], unit))
  }

  /** The code can get to `s`. */
  ghost predicate Attainable(s: State, unit: nat) {
    Clock(0, unit) && exists acts ::
      Runs(START, acts, unit) && AllAsCoded(START, acts, unit) && Run(START, acts, unit) == s
  }

  lemma AttainableIsReachable(s: State, unit: nat)
    requires Attainable(s, unit)
    ensures Reachable(s, unit)
  {
  }

  lemma {:induction false} RunsExtend(s: State, acts: seq<Action>, a: Action, unit: nat)
    requires Clock(s.now, unit) && Runs(s, acts, unit) && Clock(Run(s, acts, unit).now, unit)
    requires Enabled(Run(s, acts, unit), a, unit) && Clock(Step(Run(s, acts, unit), a, unit).now, unit)
    ensures Runs(s, acts + [a], unit) && Run(s, acts + [a], unit) == Step(Run(s, acts, unit), a, unit)
    ensures AllAsCoded(s, acts, unit) && AsCoded(Run(s, acts, unit), a, unit) ==> AllAsCoded(s, acts + [a], unit)
    decreases |acts|
  {
    hide Enabled, Step, Clock, AsCoded;
    if acts == [] {
      assert [a][1..] == [];
      assert acts + [a] == [a];
    } else {
      assert (acts + [a])[0] == acts[0] && (acts + [a])[1..] == acts[1..] + [a];
      RunsExtend(Step(s, acts[0], unit), acts[1..], a, unit);
    }
  }

  lemma AttainStart(unit: nat)
    requires unit > 0
    ensures Attainable(START, unit)
  {
    hide Clock;
    ClockStarts(unit);
    assert Runs(START, [], unit) && AllAsCoded(START, [], unit) && Run(START, [], unit) == START;
  }

  lemma AttainStep(s: State, a: Action, unit: nat)
    requires Attainable(s, unit) && Clock(s.now, unit) && Enabled(s, a, unit) && Clock(Step(s, a, unit).now, unit)
    requires AsCoded(s, a, unit)
    ensures Attainable(Step(s, a, unit), unit)
  {
    hide Clock, Enabled, Step, Runs, Run, AsCoded, AllAsCoded;
    var acts :| Runs(START, acts, unit) && AllAsCoded(START, acts, unit) && Run(START, acts, unit) == s;
    RunsExtend(START, acts, a, unit);
  }
}
