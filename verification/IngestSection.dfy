/** The critical section of one delivery, statement by statement, against the steps of
    the dedup protocol; and the map that hands out the mailbox states. */
module IngestSection {
  import opened Text
  import opened Frontmatter
  import opened FrontmatterReadBack
  import opened TtlCache
  import opened DedupRebuild
  import opened DedupProtocol
  import opened DedupSafety

  /** Per-mailbox state: the dedup cache, absent until the first delivery. */
  class MailboxState {
    var seen: TtlCache?

    constructor ()
      ensures seen == null
    {
      seen := null;
    }
  }

  class MailboxLocks {
    var states: map<string, MailboxState>

    constructor ()
      ensures states == map[]
    {
      states := map[];
    }

    ghost predicate Distinct()
      reads this
    {
      forall a, b :: a in states && b in states && a != b ==> states[a] != states[b]
    }

    /** One state per mailbox name, made on first use and the same from then on. */
    method LockFor(mailbox: string) returns (state: MailboxState)
      requires Distinct()
      modifies this
      ensures Distinct() && mailbox in states && states[mailbox] == state
      ensures states == old(states)[mailbox := state]
      ensures mailbox in old(states) ==> state == old(states)[mailbox]
      ensures mailbox !in old(states) ==> fresh(state) && state.seen == null
    {
      if mailbox !in states {
        var made := new MailboxState();
        states := states[mailbox := made];
      }
      state := states[mailbox];
    }
  }

  /** How the write of the message ends; the environment decides. A write that breaks may leave
      a file, with whatever has reached the disk. */
  datatype WriteEnd = Works(name: string) | Breaks(left: Option<(string, Content)>)

  /** The same for the protocol, which knows a file by what the reader makes of it. */
  datatype WriteResult = Written(name: string, readAs: Option<Reading>) | Broken(partial: Partial)

  function Seen(readTime: ReadTime, text: string, end: WriteEnd): WriteResult {
    match end
    case Works(name) => Written(name, ReadingOf(readTime, AllText(text)))
    case Breaks(None) => Broken(Nothing)
    case Breaks(Some(left)) => Broken(Truncated(left.0, ReadingOf(readTime, left.1)))
  }

  /** When the stages of a delivery take place: it arrives, gets its file name's date, takes the lock,
      samples the clock for a rebuild, checks the id, records it. */
  datatype Times = Times(receivedAt: nat, nameAt: nat, lockedAt: nat, scanAt: nat, checkedAt: nat, recordedAt: nat)

  class Inbox {
    const state: MailboxState
    const readTime: ReadTime
    var files: Files
    ghost var dir: Directory
    ghost var doubts: map<string, nat>
    ghost var serial: nat
    ghost var written: map<nat, string>
    ghost var faults: Faults

    constructor (state: MailboxState, readTime: ReadTime, files: Files, ghost dir: Directory)
      requires IsRead(readTime, files, dir)
      ensures this.state == state && this.readTime == readTime && this.files == files && this.dir == dir
    {
      this.state := state;
      this.readTime := readTime;
      this.files := files;
      this.dir := dir;
    }

    /** The directory of the protocol is what the header reader makes of the files. */
    ghost predicate Valid(unit: nat)
      reads this, state
    {
      && IsRead(readTime, files, dir)
      && (state.seen != null ==> state.seen.maxItems == DEDUP_MAX_ITEMS && state.seen.maxTtl == Ttl(unit))
    }

    /** The mailbox of the protocol that this object stands for, locked by `holder`. */
    ghost function Abstract(holder: Option<Guard>): Box
      reads this, state, state.seen
    {
      Box(holder, if state.seen == null then None else Some(state.seen.data), doubts, dir, serial, written, faults)
    }

    /** The duplicate check, which builds the cache on the first delivery. Whatever part of the
        directory can be read then, down to nothing, it goes on. */
    method IsDuplicate(ghost g: Guard, id: string, listing: Option<seq<Entry>>, start: nat, ghost now: nat, unit: nat)
      returns (found: bool)
      requires Valid(unit) && g.id == id && g.section.Entered?
      requires Clock(now, unit) && IsTimely(Scan(start, VisitsOf(listing)), g.section.since, now, unit)
      modifies this`faults, this`doubts, state
      ensures Valid(unit) && (id != "" ==> state.seen != null)
      ensures state.seen != null ==> state.seen == old(state.seen) || fresh(state.seen)
      ensures found <==> id != "" && id in state.seen.data
      ensures old(state.seen) != null ==> state.seen == old(state.seen) && state.seen.data == old(state.seen.data)
      ensures old(state.seen) == null && listing.None? ==> !found
      ensures old(state.seen) == null && id != "" && listing.Some?
              && (ListingFits(readTime, files, listing.value, start)
                  || id !in Refusals(old(dir), VisitsOf(listing), start, unit)) ==>
                AnswersAsListed(readTime, files, listing.value, found, id, now, start, unit)
      ensures found <==> Finds(old(Abstract(Some(g))), id, Scan(start, VisitsOf(listing)), unit)
      ensures CanCheck(old(Abstract(Some(g))), Scan(start, VisitsOf(listing)), found, now, unit)
      ensures
        var after := AfterCheck(old(Abstract(Some(g))), Scan(start, VisitsOf(listing)), found, now, unit);
        Abstract(after.holder) == after
    {
      hide Rebuilt, Unsure, NotedScan, Clock, Ttl, IsRead, InOrder, VisitsOf, FromListing, AnswersAsListed, ListingFits,
          Refusals;
      if id == "" {
        return false;
      }
      if state.seen == null {
        var built := BuildDedupCacheFromDisk(readTime, files, listing, start, unit, dir);
        state.seen := built;
        doubts := Doubting(Unsure(dir, Scan(start, VisitsOf(listing)), unit), serial);
        faults := NotedScan(faults, dir, Scan(start, VisitsOf(listing)), unit);
      }
      found := state.seen.ContainsKey(id);
      if old(state.seen) == null && listing.Some? && FromListing(readTime, files, listing.value, state.seen.data, id,
                                                                 now, start, unit) {
        ListingAnswers(readTime, files, listing.value, state.seen.data, id, now, start, unit);
      }
    }

    /** The write: the whole text under a name, or, when it fails, at most what has reached the disk. */
    method WriteMail(ghost g: Guard, text: string, end: WriteEnd, unit: nat) returns (ok: bool)
      requires Valid(unit) && g.section.Fresh?
      modifies this
      ensures Valid(unit) && (ok <==> end.Works?)
      ensures state.seen == old(state.seen)
      ensures files == match end
                       case Works(name) => old(files)[name := Content(text, 0)]
                       case Breaks(None) => old(files)
                       case Breaks(Some(left)) => old(files)[left.0 := left.1]
      ensures Abstract(if ok then Some(g.(section := Wrote)) else None)
           == match Seen(readTime, text, end)
              case Broken(partial) => AfterFail(old(Abstract(Some(g))), partial)
              case Written(name, readAs) => AfterWrite(old(Abstract(Some(g))), name, readAs)
    {
      hide IdPair, Ttl;
      ghost var before := Abstract(Some(g));
      match end
      case Breaks(None) =>
        ok := false;
      case Breaks(Some(left)) =>
        files := files[left.0 := left.1];
        ghost var readAs := ReadingOf(readTime, left.1);
        dir := dir[left.0 := MailOf(before, false, readAs)];
        faults := NotedLeft(faults, readAs);
        ok := false;
      case Works(name) =>
        files := files[name := AllText(text)];
        ghost var mail := MailOf(before, true, ReadingOf(readTime, AllText(text)));
        dir := dir[name := mail];
        serial, written := serial + 1, written[g.worker := g.id];
        faults := NotedRead(faults, mail);
        ok := true;
    }

    /** The insert before the lock is released. */
    method RecordId(ghost g: Guard, id: string, now: nat, unit: nat)
      requires Valid(unit) && g.id == id && g.section.Wrote?
      modifies this`faults, this`doubts, state.seen
      ensures Valid(unit)
      ensures state.seen != null && id != "" ==>
                KeepsUntil(state.seen.data, id, now + DEDUP_TTL_SECS * unit, DEDUP_MAX_ITEMS)
      ensures Abstract(Some(g.(section := Recorded)))
           == AfterRecord(old(Abstract(Some(g))), Cleared(old(Abstract(Some(g))), now), now, unit)
    {
      hide Ttl, IsRead, Live, ExpiredKeys, Accepts, KeepsUntil, Put;
      TtlIs(unit);
      if id != "" && state.seen != null {
        ClearedIsLive(state.seen.data, now);
        InsertedKey(state.seen.data, Insert(id, Ttl(unit), now), DEDUP_MAX_ITEMS, Ttl(unit));
        var ok := state.seen.SetWithTtl(id, Ttl(unit), now);
        faults := faults.(refused := faults.refused + (if ok then {} else {id}));
        doubts := if ok then doubts else doubts[id := serial];
      }
    }

    /** One delivery, with the mailbox lock held from start to end. `listing` is what reading the
        directory would give, `end` how the write ends. */
    method Deliver(worker: nat, render: Render, meta: Meta, body: string, at: Times, listing: Option<seq<Entry>>,
                   end: WriteEnd, unit: nat)
      returns (outcome: Outcome)
      requires Valid(unit) && Clock(at.checkedAt, unit)
      requires IsTimely(Scan(at.scanAt, VisitsOf(listing)), at.lockedAt, at.checkedAt, unit)
      modifies this, state, state.seen
      ensures Valid(unit)
      ensures match outcome
              case Absorbed => files == old(files)
              case Failed => end.Breaks? && (files == old(files) || (end.left.Some?
                  && files == old(files)[end.left.value.0 := end.left.value.1]))
              case Stored => end.Works?
                && files == old(files)[end.name := Content(Formatted(render, meta, body), 0)]
              case Aborted => false
      ensures state.seen != null || meta.messageId == ""
      ensures meta.messageId == "" ==> outcome != Absorbed
      ensures old(state.seen) != null && meta.messageId != "" ==>
                (outcome == Absorbed <==> meta.messageId in old(state.seen.data))
      ensures old(state.seen) == null && listing.None? ==> outcome != Absorbed
      ensures old(state.seen) == null && meta.messageId != "" && listing.Some?
              && (ListingFits(readTime, old(files), listing.value, at.scanAt)
                  || meta.messageId !in Refusals(old(dir), VisitsOf(listing), at.scanAt, unit)) ==>
                AnswersAsListed(readTime, old(files), listing.value, outcome == Absorbed, meta.messageId,
                                at.checkedAt, at.scanAt, unit)
      ensures outcome == Stored && meta.messageId != "" ==>
                KeepsUntil(state.seen.data, meta.messageId, at.recordedAt + DEDUP_TTL_SECS * unit, DEDUP_MAX_ITEMS)
      ensures var result := Seen(readTime, Formatted(render, meta, body), end);
        && Abstract(None)
           == Delivering(old(Abstract(None)), worker, meta.messageId, at, VisitsOf(listing), result, unit)
        && outcome == DeliveryOutcome(old(Abstract(None)), meta.messageId, at, VisitsOf(listing), result, unit)
    {
      hide AfterCheck, AfterFail, AfterWrite, AfterRecord, CanCheck, Finds, Rebuilt, Clock, Ttl, ReadingOf, Formatted,
          IsRead, IsTimely, VisitsOf, Reaches, Told, Cleared, KeepsUntil,
          AnswersAsListed, ListingFits, Refusals;
      var id := meta.messageId;
      ghost var g := Guard(worker, id, at.receivedAt, at.nameAt, Entered(at.lockedAt));
      ghost var before := Abstract(Some(g));
      FindsAlike(Abstract(None), Some(g), id, Scan(at.scanAt, VisitsOf(listing)), unit);
      var found := IsDuplicate(g, id, listing, at.scanAt, at.checkedAt, unit);
      GuardAfterCheck(before, Scan(at.scanAt, VisitsOf(listing)), found, at.checkedAt, unit);
      if found {
        return Absorbed;
      }
      g := AfterCheck(before, Scan(at.scanAt, VisitsOf(listing)), false, at.checkedAt, unit).holder.value;
      var text := FormatFrontmatter(render, meta, body, readTime);
      var ok := WriteMail(g, text, end, unit);
      if !ok {
        return Failed;
      }
      RecordId(g.(section := Wrote), id, at.recordedAt, unit);
      UnlockAbstract(g.(section := Recorded));
      outcome := Stored;
    }

    lemma UnlockAbstract(g: Guard)
      ensures Abstract(None) == Abstract(Some(g)).(holder := None)
    {
    }
  }

  lemma TtlIs(unit: nat)
    ensures Ttl(unit) == DEDUP_TTL_SECS * unit
  {
  }

  lemma ClearedIsLive(data: Expiries, now: nat)
    ensures data - ExpiredKeys(data, now) == Live(data, now)
  {
  }

  /** What is found has nothing to do with who holds the lock. */
  lemma FindsAlike(box: Box, holder: Option<Guard>, id: string, scan: Scan, unit: nat)
    requires Clock(scan.start, unit)
    ensures Finds(box.(holder := holder), id, scan, unit) == Finds(box, id, scan, unit)
  {
    hide Clock, Rebuilt;
  }

  /** Who passes the check keeps the lock. */
  lemma GuardAfterCheck(box: Box, scan: Scan, found: bool, now: nat, unit: nat)
    requires Clock(now, unit) && CanCheck(box, scan, found, now, unit)
    ensures var after := AfterCheck(box, scan, found, now, unit);
      if found then after.holder.None?
      else after.holder.Some? && after.holder.value.section.Fresh? && after.holder.value.id == box.holder.value.id
           && after.holder.value == box.holder.value.(section := after.holder.value.section)
  {
    hide Clock, Rebuilt, Unsure, NotedScan;
  }

  function DeliveryOutcome(box: Box, id: string, at: Times, visits: seq<Visit>, result: WriteResult, unit: nat): Outcome
    requires Clock(at.scanAt, unit)
  {
    if Finds(box, id, Scan(at.scanAt, visits), unit) then Absorbed
    else if result.Broken? then Failed
    else Stored
  }

  /** The protocol steps of one undisturbed delivery, one after another. */
  ghost function Delivering(box: Box, worker: nat, id: string, at: Times, visits: seq<Visit>, result: WriteResult,
      unit: nat): (after: Box)
    requires box.holder.None? && Clock(at.checkedAt, unit)
    requires IsTimely(Scan(at.scanAt, visits), at.lockedAt, at.checkedAt, unit)
    ensures after.holder.None?
  {
    hide Rebuilt, Unsure, NotedScan, Clock, Ttl, InOrder;
    var scan := Scan(at.scanAt, visits);
    var entered := box.(holder := Some(Guard(worker, id, at.receivedAt, at.nameAt, Entered(at.lockedAt))));
    var found := Finds(entered, id, scan, unit);
    var checked := AfterCheck(entered, scan, found, at.checkedAt, unit);
    if found then checked
    else match result
      case Broken(partial) => AfterFail(checked, partial)
      case Written(name, readAs) =>
        var stored := AfterWrite(checked, name, readAs);
        AfterRecord(stored, Cleared(stored, at.recordedAt), at.recordedAt, unit).(holder := None)
  }

  /** The file name the write uses, if it leaves a file: fresh and dated by `nameAt`. */
  predicate FreshName(box: Box, nameAt: nat, result: WriteResult, unit: nat) {
    result == Broken(Nothing) ||
    (var name := if result.Written? then result.name else result.partial.name;
     name !in box.dir && |name| >= 10 && InCalendar(nameAt, unit) && name[..10] == DatePrefix(nameAt, unit))
  }

  /** So the statements of a delivery keep everything the protocol keeps. */
  lemma DeliveryKeeps(box: Box, worker: nat, id: string, at: Times, visits: seq<Visit>, result: WriteResult, unit: nat)
    requires BoxInv(box, at.lockedAt, unit) && box.holder.None?
    requires at.receivedAt <= at.nameAt <= at.lockedAt && at.checkedAt <= at.recordedAt && Clock(at.checkedAt, unit)
    requires IsTimely(Scan(at.scanAt, visits), at.lockedAt, at.checkedAt, unit) && InCalendar(at.nameAt, unit)
    requires worker !in box.written && FreshName(box, at.nameAt, result, unit)
    ensures BoxInv(Delivering(box, worker, id, at, visits, result, unit), at.recordedAt, unit)
  {
    hide Rebuilt, Unsure, NotedScan, Clock, Ttl, BoxInv, DatePrefix, InCalendar, InOrder, NotedRead;
    var scan := Scan(at.scanAt, visits);
    var g := Guard(worker, id, at.receivedAt, at.nameAt, Entered(at.lockedAt));
    var entered := box.(holder := Some(g));
    LockKeeps(box, g, at.lockedAt, unit);
    TimePasses(entered, at.lockedAt, at.checkedAt, unit);
    var found := Finds(entered, id, scan, unit);
    CheckKeeps(entered, scan, found, at.checkedAt, unit);
    var checked := AfterCheck(entered, scan, found, at.checkedAt, unit);
    if found {
      TimePasses(checked, at.checkedAt, at.recordedAt, unit);
    } else {
      match result
      case Broken(partial) =>
        FailKeeps(checked, partial, at.checkedAt, unit);
        TimePasses(AfterFail(checked, partial), at.checkedAt, at.recordedAt, unit);
      case Written(name, readAs) =>
        WriteKeeps(checked, name, readAs, at.checkedAt, unit);
        var stored := AfterWrite(checked, name, readAs);
        TimePasses(stored, at.checkedAt, at.recordedAt, unit);
        RecordKeeps(stored, Cleared(stored, at.recordedAt), at.recordedAt, unit);
        UnlockKeeps(AfterRecord(stored, Cleared(stored, at.recordedAt), at.recordedAt, unit), at.recordedAt, unit);
    }
  }

  /** The cache after a stored delivery of `id`. */
  lemma StoredCache(box: Box, worker: nat, id: string, at: Times, visits: seq<Visit>, result: WriteResult, unit: nat)
    requires box.holder.None? && Clock(at.checkedAt, unit)
    requires IsTimely(Scan(at.scanAt, visits), at.lockedAt, at.checkedAt, unit)
    requires box.cache.Some? && id != "" && DeliveryOutcome(box, id, at, visits, result, unit).Stored?
    ensures Delivering(box, worker, id, at, visits, result, unit).cache
         == Some(Put(Live(box.cache.value, at.recordedAt), id, at.recordedAt + Ttl(unit), DEDUP_MAX_ITEMS))
  {
    hide Clock, Ttl, Live, Put, NotedRead;
    ClearedIsLive(box.cache.value, at.recordedAt);
  }

  /** When an id is accepted again: after it and then another message were stored, its next copy is
      absorbed exactly if the other message was recorded within 24 hours of it. */
  lemma AcceptedAgainIff(box: Box, w1: nat, id: string, at1: Times, v1: seq<Visit>, r1: WriteResult,
      w2: nat, other: string, at2: Times, v2: seq<Visit>, r2: WriteResult,
      at3: Times, v3: seq<Visit>, r3: WriteResult, unit: nat)
    requires box.holder.None? && box.cache.Some? && |box.cache.value| < DEDUP_MAX_ITEMS
    requires id != "" && other != "" && id != other
    requires Clock(at1.checkedAt, unit) && Clock(at2.checkedAt, unit) && Clock(at3.scanAt, unit)
    requires IsTimely(Scan(at1.scanAt, v1), at1.lockedAt, at1.checkedAt, unit)
    requires IsTimely(Scan(at2.scanAt, v2), at2.lockedAt, at2.checkedAt, unit)
    requires DeliveryOutcome(box, id, at1, v1, r1, unit).Stored?
    requires var next := Delivering(box, w1, id, at1, v1, r1, unit);
      DeliveryOutcome(next, other, at2, v2, r2, unit).Stored?
    ensures var later := Delivering(Delivering(box, w1, id, at1, v1, r1, unit), w2, other, at2, v2, r2, unit);
      DeliveryOutcome(later, id, at3, v3, r3, unit).Absorbed? <==> at2.recordedAt < at1.recordedAt + Ttl(unit)
  {
    hide Clock, Ttl, Delivering, InOrder;
    StoredCache(box, w1, id, at1, v1, r1, unit);
    LiveSize(box.cache.value, at1.recordedAt);
    var next := Delivering(box, w1, id, at1, v1, r1, unit);
    StoredCache(next, w2, other, at2, v2, r2, unit);
  }

  // ---- which headers are faults -----------------------------------------------------------

  /** A header whose fields take one line each, with a time that is printed as it is. */
  ghost predicate IsPlainHeader(render: Render, readTime: ReadTime, meta: Meta, receivedAt: nat) {
    && IsHeader(HeaderLines(render, meta)) && AllQuiet(meta.rest)
    && PrintsPlain(render, meta.receivedAt) && readTime(meta.receivedAt) == Some(receivedAt)
  }

  /** The mail that a whole write stores. */
  function StoredMail(g: Guard, serial: nat, readTime: ReadTime, text: string): Mail
    requires g.section.Fresh?
  {
    Mail(g.worker, g.id, g.receivedAt, g.nameAt, g.section.checkedAt, g.section.doubt, serial, true,
         ReadingOf(readTime, AllText(text)))
  }

  /** A stored message adds no fault exactly when its id is printed as it is and its header lies
      within the readable head. */
  lemma StoredIsNoFaultIff(render: Render, readTime: ReadTime, meta: Meta, body: string, g: Guard, serial: nat)
    requires g.section.Fresh? && IsPlainHeader(render, readTime, meta, g.receivedAt) && g.id == meta.messageId != ""
    ensures var text := Formatted(render, meta, body);
      NotedRead(NO_FAULTS, StoredMail(g, serial, readTime, text)) == NO_FAULTS
      <==> Reaches(render, meta, text) && PrintsPlain(render, meta.messageId)
  {
    hide IdPair, Formatted, Reaches, PrintsPlain, IsHeader, HeaderLines, AllQuiet;
    ReadsTrueIff(render, readTime, meta, body, g.receivedAt);
  }

  function Basic(escape: Escape): Render {
    v => BasicString(escape, v)
  }

  /** An id with escaped characters, printed as a basic string, is read as its escaped form. */
  lemma EscapedIdReads(escape: Escape, readTime: ReadTime, meta: Meta, body: string, receivedAt: nat)
    requires IsPlainHeader(Basic(escape), readTime, meta, receivedAt)
    requires EscapesQuotes(escape) && '"' !in meta.messageId && meta.messageId != ""
    requires Reaches(Basic(escape), meta, Formatted(Basic(escape), meta, body))
    ensures Escaped(escape, meta.messageId) != ""
    ensures ReadingOf(readTime, AllText(Formatted(Basic(escape), meta, body)))
         == Some(Reading(Escaped(escape, meta.messageId), receivedAt))
  {
    hide IdPair, Formatted, Reaches, IsHeader, HeaderLines, AllQuiet, ParseTomlStringValue, Told, Head, PrintsPlain;
    ReadBack(Basic(escape), readTime, meta, body);
    OneLineTold(Basic(escape), readTime, meta);
    BasicStringReads(escape, meta.messageId);
    EscapedShape(escape, meta.messageId);
    PlainParses(Basic(escape), meta.receivedAt);
  }

  /** ... so the message is unreadable under its own id and is misread as another's. */
  lemma EscapedIdIsMisread(escape: Escape, readTime: ReadTime, meta: Meta, body: string, g: Guard, serial: nat)
    requires g.section.Fresh? && IsPlainHeader(Basic(escape), readTime, meta, g.receivedAt) && g.id == meta.messageId
    requires EscapesQuotes(escape) && '"' !in g.id && Escaped(escape, g.id) != g.id
    requires Reaches(Basic(escape), meta, Formatted(Basic(escape), meta, body))
    ensures var text := Formatted(Basic(escape), meta, body);
      NotedRead(NO_FAULTS, StoredMail(g, serial, readTime, text))
      == NO_FAULTS.(unreadable := {g.id}, misread := {Escaped(escape, g.id)})
  {
    hide IdPair, Formatted, Reaches, IsPlainHeader;
    EscapedIdReads(escape, readTime, meta, body, g.receivedAt);
  }

  lemma PlainParses(render: Render, value: string)
    requires PrintsPlain(render, value)
    ensures ParseTomlStringValue(" = " + render(value)) == Some(value)
  {
    hide ParseTomlStringValue, TrimStart, StartsWith;
    ParseMeans(render(value), value);
  }

  /** What a broken write leaves of a plainly printed message, `n` whole characters and `more` bytes,
      is read as that message exactly when the head is text and reaches the end of the header, and
      speaks for nobody otherwise. */
  lemma CutMessageReads(render: Render, readTime: ReadTime, meta: Meta, body: string, receivedAt: nat, n: nat,
                        more: nat)
    requires IsPlainHeader(render, readTime, meta, receivedAt) && PrintsPlain(render, meta.messageId)
    requires n <= |Formatted(render, meta, body)| && meta.messageId != ""
    ensures var left := Content(Formatted(render, meta, body)[..n], more);
      ReadingOf(readTime, left) ==
        if HeadIsText(left) && Reaches(render, meta, left.text) then Some(Reading(meta.messageId, receivedAt))
        else None
  {
    hide IdPair, Formatted, Reaches, IsHeader, HeaderLines, AllQuiet, ParseTomlStringValue, Told, PrintsPlain, ByteLen;
    PrefixReads(render, readTime, meta, body, n, more);
    OneLineTold(render, readTime, meta);
    PlainParses(render, meta.messageId);
    PlainParses(render, meta.receivedAt);
  }
}
