/** The dedup cache that is rebuilt from the inbox directory.

    Time is counted in ticks since 1970-01-01, `unit` ticks to the second. */
module DedupRebuild {
  import opened Text
  import opened CivilDate
  import opened DateText
  import opened Frontmatter
  import opened TtlCache

  const DEDUP_TTL_SECS: nat := 24 * 60 * 60
  const DEDUP_MAX_ITEMS: nat := 100_000

  /** One inbox entry, flat or bundle. `readAs`: what the header reader returns for it.
      `complete`: the whole message is there. `serial` counts the deliveries into the
      mailbox, `checkedAt` is the time of the duplicate check that let the message in, and
      `doubt` what that check has to say of the cache: copies with a lower serial number may
      have been missing from it. */
  datatype Mail = Mail(
    writer: nat,
    messageId: string,
    receivedAt: nat,
    nameAt: nat,
    checkedAt: nat,
    doubt: nat,
    serial: nat,
    complete: bool,
    readAs: Option<Reading>)

  /** The reader returns the id and the time that were written. */
  predicate ReadsTrue(m: Mail) {
    m.readAs == Some(Reading(m.messageId, m.receivedAt))
  }

  type Directory = map<string, Mail>

  function Ttl(unit: nat): nat {
    DEDUP_TTL_SECS * unit
  }

  function DayNumber(t: int, unit: nat): int
    requires unit > 0
  {
    t / (DEDUP_TTL_SECS * unit)
  }

  const LAST_DAY := 2_932_896 // 9999-12-31

  predicate InCalendar(t: int, unit: nat) {
    unit > 0 && -1 <= DayNumber(t, unit) <= LAST_DAY
  }

  lemma CalendarYears(day: int)
    requires -1 <= day <= LAST_DAY
    ensures FourDigitYear(CivilFromDays(day))
  {
    hide CivilFromDays, DaysFromCivil;
    CalendarEnds();
    if -1 < day {
      CivilIsMonotone(-1, day);
    }
    if day < LAST_DAY {
      CivilIsMonotone(day, LAST_DAY);
    }
  }

  lemma CalendarEnds()
    ensures CivilFromDays(-1) == Date(1969, 12, 31) && CivilFromDays(LAST_DAY) == Date(9999, 12, 31)
  {
    hide CivilFromDays;
    CivilRoundTrip(Date(1969, 12, 31));
    CivilRoundTrip(Date(9999, 12, 31));
  }

  /** `%Y-%m-%d` of a time. */
  function DatePrefix(t: int, unit: nat): (s: string)
    requires InCalendar(t, unit)
    ensures |s| == 10
  {
    CalendarYears(DayNumber(t, unit));
    FormatDate(CivilFromDays(DayNumber(t, unit)))
  }

  lemma MulMonotone(x: int, y: int, k: int)
    requires k > 0 && x <= y
    ensures k * x <= k * y
  {
    assert k * (y - x) >= 0;
  }

  lemma DivMonotone(a: int, b: int, k: int)
    requires k > 0 && a <= b
    ensures a / k <= b / k
  {
    if b / k < a / k {
      MulMonotone(b / k + 1, a / k, k);
    }
  }

  lemma DayNumberMonotone(a: int, b: int, unit: nat)
    requires unit > 0 && a <= b
    ensures DayNumber(a, unit) <= DayNumber(b, unit)
  {
    DivMonotone(a, b, DEDUP_TTL_SECS * unit);
  }

  lemma DatePrefixMonotone(a: int, b: int, unit: nat)
    requires InCalendar(a, unit) && InCalendar(b, unit) && a <= b
    ensures !Less(DatePrefix(b, unit), DatePrefix(a, unit))
  {
    hide CivilFromDays, FormatDate;
    DayNumberMonotone(a, b, unit);
    var p, q := DayNumber(a, unit), DayNumber(b, unit);
    CalendarYears(p);
    CalendarYears(q);
    if p < q {
      CivilIsMonotone(p, q);
    }
    DateOrderIsTextOrder(CivilFromDays(q), CivilFromDays(p));
  }

  /** The filename filter: too old by name. */
  predicate NameTooOld(name: string, now: nat, unit: nat)
    requires InCalendar(now - Ttl(unit), unit)
  {
    |name| >= 10 && Less(name[..10], DatePrefix(now - Ttl(unit), unit))
  }

  /** A name that is dated is too old exactly when its date is before the day, on the calendar, that was
      24 hours ago; one too short for a date never is. */
  lemma TooOldMeans(name: string, d: Date, now: nat, unit: nat)
    requires Clock(now, unit) && ValidDate(d) && FourDigitYear(d)
    ensures |name| >= 10 && name[..10] == FormatDate(d) ==>
              (NameTooOld(name, now, unit)
               <==> DateBefore(d, StepFromEpoch((now - DEDUP_TTL_SECS * unit) / (DEDUP_TTL_SECS * unit))))
    ensures |name| < 10 ==> !NameTooOld(name, now, unit)
  {
    hide CivilFromDays, FormatDate, StepFromEpoch, Less;
    var day := DayNumber(now - Ttl(unit), unit);
    CalendarYears(day);
    CivilIsCalendar(day);
    DateOrderIsTextOrder(d, CivilFromDays(day));
  }

  predicate StillLive(at: nat, now: nat, unit: nat) {
    now - at < Ttl(unit)
  }

  /** The entry gets as far as the insert. */
  predicate Loads(name: string, m: Mail, now: nat, unit: nat)
    requires InCalendar(now - Ttl(unit), unit)
  {
    && !NameTooOld(name, now, unit)
    && m.readAs.Some? && m.readAs.value.id != "" && StillLive(m.readAs.value.at, now, unit)
  }

  /** Whole seconds left, at least one. */
  function RemainingSecs(at: nat, now: nat, unit: nat): nat
    requires unit > 0
  {
    var left := (Ttl(unit) - (now - at)) / unit;
    if left < 1 then 1 else left
  }

  /** The seconds left at `now` count from the moment of the insert. */
  function Expiry(at: nat, now: nat, moment: nat, unit: nat): nat
    requires unit > 0
  {
    moment + RemainingSecs(at, now, unit) * unit
  }

  predicate Clock(now: nat, unit: nat) {
    unit > 0 && InCalendar(now, unit) && InCalendar(now - Ttl(unit), unit)
  }

  lemma ClockParts(now: nat, unit: nat)
    requires Clock(now, unit)
    ensures unit > 0 && InCalendar(now, unit) && InCalendar(now - Ttl(unit), unit)
  {
  }

  lemma MinusOneDay(k: int)
    requires k > 0
    ensures (0 - k) / k == -1 && 0 / k == 0
  {
  }

  lemma ClockStarts(unit: nat)
    requires unit > 0
    ensures Clock(0, unit)
  {
    MinusOneDay(DEDUP_TTL_SECS * unit);
  }

  /** What is on the calendar now was on it before. */
  lemma ClockEarlier(earlier: nat, now: nat, unit: nat)
    requires Clock(now, unit) && earlier <= now
    ensures Clock(earlier, unit)
  {
    MinusOneDay(DEDUP_TTL_SECS * unit);
    DayNumberMonotone(0, earlier, unit);
    DayNumberMonotone(earlier, now, unit);
    DayNumberMonotone(0 - Ttl(unit), earlier - Ttl(unit), unit);
    DayNumberMonotone(earlier - Ttl(unit), now - Ttl(unit), unit);
  }

  // ---- the scan ---------------------------------------------------------------------

  /** A file that the scan could read, and the moment at which its insert is due. */
  datatype Visit = Visit(name: string, at: nat)

  /** `start`: when the scan samples the clock. The visits need not be all of the directory. */
  datatype Scan = Scan(start: nat, visits: seq<Visit>)

  predicate InOrder(visits: seq<Visit>, from: nat, to: nat) {
    && (forall i :: 0 <= i < |visits| ==> from <= visits[i].at <= to)
    && (forall i, j :: 0 <= i < j < |visits| ==> visits[i].at <= visits[j].at)
  }

  predicate Visited(visits: seq<Visit>, name: string) {
    exists i :: 0 <= i < |visits| && visits[i].name == name
  }

  /** What the reader returns for a file, if anything. */
  function IdAt(dir: Directory, name: string): string {
    if name in dir && dir[name].readAs.Some? then dir[name].readAs.value.id else ""
  }

  function TimeAt(dir: Directory, name: string): nat {
    if name in dir && dir[name].readAs.Some? then dir[name].readAs.value.at else 0
  }

  predicate LoadsId(dir: Directory, name: string, id: string, now: nat, unit: nat)
    requires Clock(now, unit)
  {
    name in dir && Loads(name, dir[name], now, unit) && IdAt(dir, name) == id
  }

  lemma LoadsIdMeans(dir: Directory, name: string, id: string, now: nat, unit: nat)
    requires Clock(now, unit) && LoadsId(dir, name, id, now, unit)
    ensures name in dir && dir[name].readAs == Some(Reading(id, TimeAt(dir, name))) && id != ""
    ensures StillLive(TimeAt(dir, name), now, unit)
  {
    hide DatePrefix, InCalendar, NameTooOld;
  }

  function InsertOf(dir: Directory, v: Visit, now: nat, unit: nat): Insert
    requires unit > 0
  {
    Insert(IdAt(dir, v.name), RemainingSecs(TimeAt(dir, v.name), now, unit) * unit, v.at)
  }

  function ExpiryOf(dir: Directory, v: Visit, now: nat, unit: nat): nat
    requires unit > 0
  {
    Expiry(TimeAt(dir, v.name), now, v.at, unit)
  }

  /** The inserts of the visited entries, one after another. */
  function Rebuilt(dir: Directory, visits: seq<Visit>, now: nat, unit: nat): Expiries
    requires Clock(now, unit)
  {
    if visits == [] then map[]
    else
      var before, v := Rebuilt(dir, visits[..|visits| - 1], now, unit), visits[|visits| - 1];
      if LoadsId(dir, v.name, IdAt(dir, v.name), now, unit)
      then AfterInsert(before, InsertOf(dir, v, now, unit), DEDUP_MAX_ITEMS, Ttl(unit))
      else before
  }

  /** The ids an insert of which is refused in the rebuild. */
  function Refusals(dir: Directory, visits: seq<Visit>, now: nat, unit: nat): set<string>
    requires Clock(now, unit)
  {
    if visits == [] then {}
    else
      var before, v := visits[..|visits| - 1], visits[|visits| - 1];
      Refusals(dir, before, now, unit) +
      if LoadsId(dir, v.name, IdAt(dir, v.name), now, unit)
        && !IsAccepted(Rebuilt(dir, before, now, unit), InsertOf(dir, v, now, unit), DEDUP_MAX_ITEMS, Ttl(unit))
      then {IdAt(dir, v.name)} else {}
  }

  /** A whole live message that the scan did not read as it was written. */
  predicate IsMissed(dir: Directory, visits: seq<Visit>, name: string, now: nat, unit: nat) {
    && name in dir && dir[name].complete && dir[name].messageId != "" && StillLive(dir[name].receivedAt, now, unit)
    && !(Visited(visits, name) && ReadsTrue(dir[name]))
  }

  function Missed(dir: Directory, visits: seq<Visit>, now: nat, unit: nat): set<string> {
    set name | name in dir && IsMissed(dir, visits, name, now, unit) :: dir[name].messageId
  }

  lemma MissedMeans(dir: Directory, visits: seq<Visit>, name: string, now: nat, unit: nat)
    requires name in dir && dir[name].messageId !in Missed(dir, visits, now, unit)
    ensures !IsMissed(dir, visits, name, now, unit)
  {
    hide IsMissed;
  }

  // ---- the loop -----------------------------------------------------------------------

  type Files = map<string, Content>

  /** The directory is what the header reader makes of the files. */
  predicate IsRead(readTime: ReadTime, files: Files, dir: Directory) {
    files.Keys == dir.Keys && forall name :: name in files ==> dir[name].readAs == ReadingOf(readTime, files[name])
  }

  /** What the directory listing gives: an entry that cannot be had, or a name. `opens`: the file
      behind it can be opened and read; `at`: when its insert is due. */
  datatype Entry = Lost | Entry(name: string, opens: bool, at: nat)

  function Opened(entries: seq<Entry>): seq<Visit> {
    if entries == [] then []
    else
      var last := entries[|entries| - 1];
      Opened(entries[..|entries| - 1]) + (if last.Entry? && last.opens then [Visit(last.name, last.at)] else [])
  }

  /** Without a listing nothing is visited. */
  function VisitsOf(listing: Option<seq<Entry>>): seq<Visit> {
    match listing
    case None => []
    case Some(entries) => Opened(entries)
  }

  /** `places`: where the entries stand that open, first to last. */
  predicate ArePlaces(entries: seq<Entry>, places: seq<nat>) {
    && (forall k :: 0 <= k < |places| ==>
          places[k] < |entries| && entries[places[k]].Entry? && entries[places[k]].opens)
    && (forall k, l :: 0 <= k < l < |places| ==> places[k] < places[l])
    && (forall i :: 0 <= i < |entries| && entries[i].Entry? && entries[i].opens ==> i in places)
  }

  /** One visit for each place, with that entry's name and moment. */
  predicate AreVisits(entries: seq<Entry>, places: seq<nat>, visits: seq<Visit>) {
    && |visits| == |places|
    && forall k :: 0 <= k < |visits| ==>
         && places[k] < |entries| && entries[places[k]].Entry?
         && visits[k] == Visit(entries[places[k]].name, entries[places[k]].at)
  }

  lemma OneMorePlace(entries: seq<Entry>, places: seq<nat>)
    requires entries != [] && ArePlaces(entries[..|entries| - 1], places)
    ensures var n := |entries| - 1;
      ArePlaces(entries, if entries[n].Entry? && entries[n].opens then places + [n] else places)
  {
    var n := |entries| - 1;
    assert forall i :: 0 <= i < n ==> entries[..n][i] == entries[i];
    var more := places + [n];
    assert more[|places|] == n && forall k :: 0 <= k < |places| ==> more[k] == places[k];
    assert n in more && forall i :: i in places ==> i in more;
  }

  lemma OneMoreVisit(entries: seq<Entry>, places: seq<nat>, visits: seq<Visit>)
    requires entries != [] && AreVisits(entries[..|entries| - 1], places, visits)
    ensures AreVisits(entries, places, visits)
    ensures var n := |entries| - 1;
      entries[n].Entry? ==> AreVisits(entries, places + [n], visits + [Visit(entries[n].name, entries[n].at)])
  {
  }

  /** The visits are exactly the entries that open, in their order and each at its own moment. */
  lemma {:induction false} VisitsAreOpenings(entries: seq<Entry>) returns (places: seq<nat>)
    ensures VisitsOf(None) == []
    ensures ArePlaces(entries, places) && AreVisits(entries, places, VisitsOf(Some(entries)))
  {
    hide ArePlaces, AreVisits;
    places := [];
    if entries == [] {
      NoVisits();
    } else {
      var n := |entries| - 1;
      places := VisitsAreOpenings(entries[..n]);
      OneMorePlace(entries, places);
      OneMoreVisit(entries, places, Opened(entries[..n]));
      if entries[n].Entry? && entries[n].opens {
        places := places + [n];
      } else {
        assert Opened(entries[..n]) + [] == Opened(entries[..n]);
      }
    }
  }

  lemma NoVisits()
    ensures ArePlaces([], []) && AreVisits([], [], [])
  {
  }

  lemma NextOpened(dir: Directory, entries: seq<Entry>, i: nat, now: nat, unit: nat)
    requires Clock(now, unit) && i < |entries|
    ensures var before, e := Rebuilt(dir, Opened(entries[..i]), now, unit), entries[i];
      Rebuilt(dir, Opened(entries[..i + 1]), now, unit) ==
        if e.Entry? && e.opens && LoadsId(dir, e.name, IdAt(dir, e.name), now, unit)
        then AfterInsert(before, InsertOf(dir, Visit(e.name, e.at), now, unit), DEDUP_MAX_ITEMS, Ttl(unit))
        else before
  {
    hide LoadsId, InsertOf, AfterInsert;
    assert entries[..i + 1][..i] == entries[..i];
    var front := Opened(entries[..i]);
    if entries[i].Entry? && entries[i].opens {
      var v := Visit(entries[i].name, entries[i].at);
      assert (front + [v])[..|front|] == front;
    } else {
      assert front + [] == front;
    }
  }

  /** One turn of the loop: reads the header of a file that may still matter, and inserts its id. */
  method LoadEntry(kv: TtlCache, readTime: ReadTime, files: Files, e: Entry, cutoff: string, now: nat, unit: nat,
                   ghost dir: Directory)
    requires Clock(now, unit) && IsRead(readTime, files, dir) && cutoff == DatePrefix(now - Ttl(unit), unit)
    requires kv.maxItems == DEDUP_MAX_ITEMS && kv.maxTtl == Ttl(unit)
    modifies kv
    ensures kv.data ==
      if e.Entry? && e.opens && LoadsId(dir, e.name, IdAt(dir, e.name), now, unit)
      then AfterInsert(old(kv.data), InsertOf(dir, Visit(e.name, e.at), now, unit), DEDUP_MAX_ITEMS, Ttl(unit))
      else old(kv.data)
  {
    hide DatePrefix, DayNumber, Ttl, Less, IdPair, AfterInsert, IsAccepted, InCalendar;
    if e.Lost? {
      return;
    }
    if |e.name| >= 10 && Less(e.name[..10], cutoff) {
      return;
    }
    if !e.opens || e.name !in files {
      return;
    }
    var pair := ReadFrontmatterIdPair(readTime, files[e.name]);
    if pair.None? {
      return;
    }
    var elapsed := now - pair.value.at;
    if elapsed >= Ttl(unit) {
      return;
    }
    var left := (Ttl(unit) - elapsed) / unit;
    var remaining := if left < 1 then 1 else left;
    var _ := kv.SetWithTtl(pair.value.id, remaining * unit, e.at);
  }

  /** The scan of the directory, as far as it can be read. */
  method BuildDedupCacheFromDisk(readTime: ReadTime, files: Files, listing: Option<seq<Entry>>, now: nat, unit: nat,
                                 ghost dir: Directory)
    returns (kv: TtlCache)
    requires Clock(now, unit) && IsRead(readTime, files, dir)
    ensures fresh(kv) && kv.maxItems == DEDUP_MAX_ITEMS && kv.maxTtl == Ttl(unit)
    ensures kv.data == Rebuilt(dir, VisitsOf(listing), now, unit)
    ensures listing.None? ==> kv.data == map[]
    ensures listing.Some? ==> forall id, to: nat ::
              InOrder(VisitsOf(listing), now, to)
                && (ListingFits(readTime, files, listing.value, now)
                    || id !in Refusals(dir, VisitsOf(listing), now, unit))
              ==> FromListing(readTime, files, listing.value, kv.data, id, to, now, unit)
  {
    hide DatePrefix, Ttl, Rebuilt, AfterInsert, InCalendar, IsRead, LoadsId, Opened, InOrder, FromListing, ListingFits,
        Refusals;
    kv := new TtlCache(DEDUP_MAX_ITEMS, Ttl(unit));
    NothingRebuilt(dir, now, unit);
    ClockParts(now, unit);
    var cutoff := DatePrefix(now - Ttl(unit), unit);
    if listing.None? {
      return;
    }
    var entries := listing.value;
    for i := 0 to |entries|
      invariant fresh(kv) && kv.maxItems == DEDUP_MAX_ITEMS && kv.maxTtl == Ttl(unit)
      invariant kv.data == Rebuilt(dir, Opened(entries[..i]), now, unit)
    {
      NextOpened(dir, entries, i, now, unit);
      LoadEntry(kv, readTime, files, entries[i], cutoff, now, unit, dir);
    }
    assert entries[..|entries|] == entries;
    forall id, to: nat | InOrder(Opened(entries), now, to)
      && (ListingFits(readTime, files, entries, now) || id !in Refusals(dir, Opened(entries), now, unit))
      ensures FromListing(readTime, files, entries, Rebuilt(dir, Opened(entries), now, unit), id, to, now, unit)
    {
      if ListingFits(readTime, files, entries, now) {
        FittingListing(readTime, files, dir, entries, now, unit);
      }
      RebuiltFromListing(readTime, files, dir, entries, id, to, now, unit);
    }
  }

  lemma NothingRebuilt(dir: Directory, now: nat, unit: nat)
    requires Clock(now, unit)
    ensures Rebuilt(dir, [], now, unit) == map[] && Opened([]) == []
  {
  }

  // ---- what a rebuild keeps -------------------------------------------------

  /** No header speaks of the future. */
  predicate ReadBy(dir: Directory, now: nat) {
    forall name :: name in dir ==> TimeAt(dir, name) <= now
  }

  lemma RemainingAtMostTtl(at: nat, now: nat, unit: nat)
    requires unit > 0 && at <= now
    ensures RemainingSecs(at, now, unit) * unit <= Ttl(unit)
  {
    DivMonotone(Ttl(unit) - (now - at), DEDUP_TTL_SECS * unit, unit);
    assert DEDUP_TTL_SECS * unit / unit == DEDUP_TTL_SECS;
    MulMonotone(RemainingSecs(at, now, unit), DEDUP_TTL_SECS, unit);
  }

  lemma LiveSize(data: Expiries, now: nat)
    ensures |Live(data, now)| <= |data|
  {
    SubsetSize(Live(data, now).Keys, data.Keys);
  }

  lemma InsertSize(data: Expiries, i: Insert, maxItems: nat, maxTtl: nat)
    ensures |AfterInsert(data, i, maxItems, maxTtl)| <= |data| + 1
  {
    LiveSize(data, i.now);
  }

  lemma {:induction false} RebuiltSize(dir: Directory, visits: seq<Visit>, now: nat, unit: nat)
    requires Clock(now, unit)
    ensures |Rebuilt(dir, visits, now, unit)| <= |visits|
  {
    hide LoadsId, InsertOf, AfterInsert;
    if visits != [] {
      var before, v := visits[..|visits| - 1], visits[|visits| - 1];
      RebuiltSize(dir, before, now, unit);
      InsertSize(Rebuilt(dir, before, now, unit), InsertOf(dir, v, now, unit), DEDUP_MAX_ITEMS, Ttl(unit));
    }
  }

  /** A directory within the cap that does not speak of the future always fits. */
  lemma {:induction false} SmallDirectoryFits(dir: Directory, visits: seq<Visit>, now: nat, unit: nat)
    requires Clock(now, unit) && |visits| <= DEDUP_MAX_ITEMS
    requires forall i :: 0 <= i < |visits| ==> TimeAt(dir, visits[i].name) <= now
    ensures Refusals(dir, visits, now, unit) == {}
  {
    hide DatePrefix, Ttl, RemainingSecs, Rebuilt, NameTooOld, Live;
    if visits != [] {
      var before, v := visits[..|visits| - 1], visits[|visits| - 1];
      SmallDirectoryFits(dir, before, now, unit);
      RebuiltSize(dir, before, now, unit);
      LiveSize(Rebuilt(dir, before, now, unit), v.at);
      RemainingAtMostTtl(TimeAt(dir, v.name), now, unit);
    }
  }

  /** The insert of `id` that is due at visit `i` is refused. */
  predicate RefusedAt(dir: Directory, visits: seq<Visit>, i: nat, id: string, now: nat, unit: nat)
    requires Clock(now, unit)
  {
    && i < |visits| && LoadsId(dir, visits[i].name, id, now, unit)
    && !IsAccepted(Rebuilt(dir, visits[..i], now, unit), InsertOf(dir, visits[i], now, unit), DEDUP_MAX_ITEMS,
                   Ttl(unit))
  }

  lemma {:induction false} RefusalsMean(dir: Directory, visits: seq<Visit>, id: string, now: nat, unit: nat)
    requires Clock(now, unit)
    ensures id in Refusals(dir, visits, now, unit) <==> exists i: nat :: RefusedAt(dir, visits, i, id, now, unit)
  {
    hide DatePrefix, Ttl, Rebuilt, Loads, IsAccepted, InsertOf;
    if visits != [] {
      var n := |visits| - 1;
      RefusalsMean(dir, visits[..n], id, now, unit);
      forall i: nat | i < n
        ensures RefusedAt(dir, visits, i, id, now, unit) <==> RefusedAt(dir, visits[..n], i, id, now, unit)
      {
        assert visits[..n][..i] == visits[..i];
      }
      if id in Refusals(dir, visits, now, unit) && id !in Refusals(dir, visits[..n], now, unit) {
        assert RefusedAt(dir, visits, n, id, now, unit);
      }
    }
  }

  /** The visit whose insert of `id` is the last one. */
  function LastLoaded(dir: Directory, visits: seq<Visit>, id: string, now: nat, unit: nat): (last: Option<Visit>)
    requires Clock(now, unit)
    ensures last.Some? ==> last.value in visits && LoadsId(dir, last.value.name, id, now, unit)
    ensures last.None? ==> forall name :: Visited(visits, name) ==> !LoadsId(dir, name, id, now, unit)
  {
    if visits == [] then None
    else
      var v := visits[|visits| - 1];
      if LoadsId(dir, v.name, id, now, unit) then Some(v)
      else LastLoaded(dir, visits[..|visits| - 1], id, now, unit)
  }

  /** The moment of the last insert; it clears what has expired by then. */
  function LastInsert(dir: Directory, visits: seq<Visit>, now: nat, unit: nat): nat
    requires Clock(now, unit)
  {
    if visits == [] then 0
    else
      var v := visits[|visits| - 1];
      if LoadsId(dir, v.name, IdAt(dir, v.name), now, unit) then v.at
      else LastInsert(dir, visits[..|visits| - 1], now, unit)
  }

  lemma {:induction false} LastInsertInOrder(dir: Directory, visits: seq<Visit>, from: nat, to: nat, now: nat,
                                             unit: nat)
    requires Clock(now, unit) && InOrder(visits, from, to)
    ensures LastInsert(dir, visits, now, unit) <= to
  {
    hide LoadsId;
    if visits != [] {
      LastInsertInOrder(dir, visits[..|visits| - 1], from, to, now, unit);
    }
  }

  /** The id is loaded and its time has not come by the last insert. */
  predicate Outlasts(dir: Directory, visits: seq<Visit>, id: string, now: nat, unit: nat)
    requires Clock(now, unit)
  {
    var last := LastLoaded(dir, visits, id, now, unit);
    last.Some? && LastInsert(dir, visits, now, unit) < ExpiryOf(dir, last.value, now, unit)
  }

  /** The rebuilt cache holds exactly the loaded ids whose time has not come by the last insert,
      each with the expiry of its last entry. */
  lemma {:induction false} RebuiltIsLastLoaded(dir: Directory, visits: seq<Visit>, id: string, from: nat, to: nat,
                                               now: nat, unit: nat)
    requires Clock(now, unit) && id !in Refusals(dir, visits, now, unit) && InOrder(visits, from, to)
    ensures id in Rebuilt(dir, visits, now, unit) <==> Outlasts(dir, visits, id, now, unit)
    ensures id in Rebuilt(dir, visits, now, unit) ==>
              Rebuilt(dir, visits, now, unit)[id]
              == ExpiryOf(dir, LastLoaded(dir, visits, id, now, unit).value, now, unit)
  {
    hide DatePrefix, Ttl, RemainingSecs, NameTooOld, StillLive;
    if visits != [] {
      var before, v := visits[..|visits| - 1], visits[|visits| - 1];
      RebuiltIsLastLoaded(dir, before, id, from, v.at, now, unit);
      LastInsertInOrder(dir, before, from, v.at, now, unit);
      SecondsArePositive(TimeAt(dir, v.name), now, unit);
    }
  }

  lemma SecondsArePositive(at: nat, now: nat, unit: nat)
    requires unit > 0
    ensures RemainingSecs(at, now, unit) * unit >= unit
  {
    MulMonotone(1, RemainingSecs(at, now, unit), unit);
  }

  // ---- what a listing leaves in the cache --------------------------------------------

  /** The entry opens and reads as a live message of `id`, under a name that is not too old. */
  predicate ReadsLive(readTime: ReadTime, files: Files, e: Entry, id: string, now: nat, unit: nat)
    requires Clock(now, unit)
  {
    && e.Entry? && e.opens && e.name in files && !NameTooOld(e.name, now, unit)
    && ReadingOf(readTime, files[e.name]).Some?
    && ReadingOf(readTime, files[e.name]).value.id == id
    && now < ReadingOf(readTime, files[e.name]).value.at + DEDUP_TTL_SECS * unit
  }

  /** Entry `i` does, and none behind it. */
  predicate ReadsLast(readTime: ReadTime, files: Files, entries: seq<Entry>, i: nat, id: string, now: nat, unit: nat)
    requires Clock(now, unit)
  {
    && i < |entries| && ReadsLive(readTime, files, entries[i], id, now, unit)
    && forall j :: i < j < |entries| ==> !ReadsLive(readTime, files, entries[j], id, now, unit)
  }

  /** When the insert of an entry that reads as a message expires. */
  function ListedUntil(readTime: ReadTime, files: Files, e: Entry, now: nat, unit: nat): nat
    requires Clock(now, unit) && e.Entry? && e.name in files && ReadingOf(readTime, files[e.name]).Some?
  {
    Expiry(ReadingOf(readTime, files[e.name]).value.at, now, e.at, unit)
  }

  /** No header of a listed file speaks of the future, and there are not too many entries. */
  predicate ListingFits(readTime: ReadTime, files: Files, entries: seq<Entry>, now: nat) {
    && |entries| <= DEDUP_MAX_ITEMS
    && forall i :: 0 <= i < |entries| && entries[i].Entry? && entries[i].name in files ==>
         var reading := ReadingOf(readTime, files[entries[i].name]);
         reading.Some? ==> reading.value.at <= now
  }

  lemma LoadsWhatReadsLive(readTime: ReadTime, files: Files, dir: Directory, e: Entry, id: string, now: nat, unit: nat)
    requires Clock(now, unit) && IsRead(readTime, files, dir)
    ensures ReadsLive(readTime, files, e, id, now, unit)
      <==> e.Entry? && e.opens && LoadsId(dir, e.name, id, now, unit)
    ensures ReadsLive(readTime, files, e, id, now, unit) ==>
              TimeAt(dir, e.name) == ReadingOf(readTime, files[e.name]).value.at
              && ListedUntil(readTime, files, e, now, unit) == ExpiryOf(dir, Visit(e.name, e.at), now, unit)
  {
    hide DatePrefix, InCalendar, NameTooOld, ReadingOf, RemainingSecs;
  }

  lemma LastOfOpened(dir: Directory, entries: seq<Entry>, id: string, now: nat, unit: nat)
    requires Clock(now, unit) && entries != []
    ensures var e, front := entries[|entries| - 1], entries[..|entries| - 1];
      LastLoaded(dir, Opened(entries), id, now, unit) ==
        if e.Entry? && e.opens && LoadsId(dir, e.name, id, now, unit) then Some(Visit(e.name, e.at))
        else LastLoaded(dir, Opened(front), id, now, unit)
  {
    hide DatePrefix, Clock, LoadsId;
    var e, visits := entries[|entries| - 1], Opened(entries[..|entries| - 1]);
    if e.Entry? && e.opens {
      assert (visits + [Visit(e.name, e.at)])[..|visits|] == visits;
    } else {
      assert visits + [] == visits;
    }
  }

  /** The visit that decides is the last entry that reads live as the id. */
  lemma {:induction false} LastEntryDecides(readTime: ReadTime, files: Files, dir: Directory, entries: seq<Entry>,
                                            id: string, now: nat, unit: nat) returns (i: nat)
    requires Clock(now, unit) && IsRead(readTime, files, dir)
    ensures var last := LastLoaded(dir, Opened(entries), id, now, unit);
      && (last.None? ==>
            forall j :: 0 <= j < |entries| ==> !ReadsLive(readTime, files, entries[j], id, now, unit))
      && (last.Some? ==>
            && ReadsLast(readTime, files, entries, i, id, now, unit)
            && last.value == Visit(entries[i].name, entries[i].at))
  {
    hide DatePrefix, Clock, LoadsId, ReadsLive, IsRead, Opened, LastLoaded;
    i := 0;
    if entries == [] {
      NothingOpens(dir, id, now, unit);
    } else {
      var n := |entries| - 1;
      assert forall j :: 0 <= j < n ==> entries[..n][j] == entries[j];
      LoadsWhatReadsLive(readTime, files, dir, entries[n], id, now, unit);
      LastOfOpened(dir, entries, id, now, unit);
      if ReadsLive(readTime, files, entries[n], id, now, unit) {
        i := n;
      } else {
        i := LastEntryDecides(readTime, files, dir, entries[..n], id, now, unit);
      }
    }
  }

  lemma NothingOpens(dir: Directory, id: string, now: nat, unit: nat)
    requires Clock(now, unit)
    ensures LastLoaded(dir, Opened([]), id, now, unit) == None
  {
  }

  lemma {:induction false} OpenedSize(entries: seq<Entry>)
    ensures |Opened(entries)| <= |entries|
  {
    if entries != [] {
      OpenedSize(entries[..|entries| - 1]);
    }
  }

  /** What the cache says of an id comes from the last entry that reads live as it, and what that entry
      says stays until it expires. */
  ghost predicate FromListing(readTime: ReadTime, files: Files, entries: seq<Entry>, data: Expiries,
                              id: string, to: nat, now: nat, unit: nat)
    requires Clock(now, unit)
  {
    && (id in data ==>
          exists i: nat :: ReadsLast(readTime, files, entries, i, id, now, unit)
            && data[id] == ListedUntil(readTime, files, entries[i], now, unit))
    && (forall i: nat ::
          ReadsLast(readTime, files, entries, i, id, now, unit)
            && to < ListedUntil(readTime, files, entries[i], now, unit)
          ==> id in data)
  }

  /** So an id is found only if an entry reads live as it, and until the last one expires it is. */
  ghost predicate AnswersAsListed(readTime: ReadTime, files: Files, entries: seq<Entry>, found: bool,
                                  id: string, to: nat, now: nat, unit: nat)
    requires Clock(now, unit)
  {
    && (found ==> exists i: nat :: ReadsLast(readTime, files, entries, i, id, now, unit))
    && (forall i: nat ::
          ReadsLast(readTime, files, entries, i, id, now, unit)
            && to < ListedUntil(readTime, files, entries[i], now, unit)
          ==> found)
  }

  lemma ListingAnswers(readTime: ReadTime, files: Files, entries: seq<Entry>, data: Expiries,
                       id: string, to: nat, now: nat, unit: nat)
    requires Clock(now, unit) && FromListing(readTime, files, entries, data, id, to, now, unit)
    ensures AnswersAsListed(readTime, files, entries, id in data, id, to, now, unit)
  {
  }

  /** Whatever a listing gives: the cache rebuilt from it is as its last entries say. */
  lemma RebuiltFromListing(readTime: ReadTime, files: Files, dir: Directory, entries: seq<Entry>,
                           id: string, to: nat, now: nat, unit: nat)
    requires Clock(now, unit) && IsRead(readTime, files, dir) && InOrder(Opened(entries), now, to)
    requires id !in Refusals(dir, Opened(entries), now, unit)
    ensures FromListing(readTime, files, entries, Rebuilt(dir, Opened(entries), now, unit), id, to, now, unit)
  {
    hide DatePrefix, Clock, LoadsId, NameTooOld, ReadingOf, IsRead, Rebuilt, Refusals, ExpiryOf, ListedUntil, InOrder,
        Opened, LastInsert, LastLoaded, FromListing;
    ClockParts(now, unit);
    RebuiltIsLastLoaded(dir, Opened(entries), id, now, to, now, unit);
    LastInsertInOrder(dir, Opened(entries), now, to, now, unit);
    var last := LastEntryDecides(readTime, files, dir, entries, id, now, unit);
    if last < |entries| {
      LoadsWhatReadsLive(readTime, files, dir, entries[last], id, now, unit);
    }
    forall i: nat | ReadsLast(readTime, files, entries, i, id, now, unit)
      ensures i == last
    {
    }
    LastSays(readTime, files, entries, Rebuilt(dir, Opened(entries), now, unit), last, id, to, now, unit);
  }

  lemma LastSays(readTime: ReadTime, files: Files, entries: seq<Entry>, data: Expiries, last: nat, id: string,
                 to: nat, now: nat, unit: nat)
    requires Clock(now, unit)
    requires id in data ==>
      && ReadsLast(readTime, files, entries, last, id, now, unit)
      && data[id] == ListedUntil(readTime, files, entries[last], now, unit)
    requires forall i: nat | ReadsLast(readTime, files, entries, i, id, now, unit) ::
               i == last && (to < ListedUntil(readTime, files, entries[i], now, unit) ==> id in data)
    ensures FromListing(readTime, files, entries, data, id, to, now, unit)
  {
  }

  /** ... and nothing is refused if it fits. */
  lemma {:induction false} FittingListing(readTime: ReadTime, files: Files, dir: Directory, entries: seq<Entry>,
                                          now: nat, unit: nat)
    requires Clock(now, unit) && IsRead(readTime, files, dir) && ListingFits(readTime, files, entries, now)
    ensures Refusals(dir, Opened(entries), now, unit) == {}
  {
    hide Clock, Refusals, ReadingOf;
    OpenedSize(entries);
    var places := VisitsAreOpenings(entries);
    forall k | 0 <= k < |Opened(entries)|
      ensures TimeAt(dir, Opened(entries)[k].name) <= now
    {
      assert places[k] < |entries| && entries[places[k]].Entry?;
    }
    SmallDirectoryFits(dir, Opened(entries), now, unit);
  }

  /** If the newest live entry of an id is the last one, the id stays to the end of the window of each. */
  lemma NewestLastCovers(readTime: ReadTime, files: Files, entries: seq<Entry>, last: nat, j: nat, id: string,
                         now: nat, unit: nat)
    requires Clock(now, unit) && ReadsLast(readTime, files, entries, last, id, now, unit)
    requires j < |entries| && ReadsLive(readTime, files, entries[j], id, now, unit) && now <= entries[last].at
    requires ReadingOf(readTime, files[entries[j].name]).value.at
          <= ReadingOf(readTime, files[entries[last].name]).value.at
    ensures ReadingOf(readTime, files[entries[j].name]).value.at + Window(unit)
         <= ListedUntil(readTime, files, entries[last], now, unit)
  {
    hide DatePrefix, InCalendar, NameTooOld, ReadingOf, Window, Expiry;
    ClockParts(now, unit);
    ExpiryBounds(ReadingOf(readTime, files[entries[last].name]).value.at, now, entries[last].at, unit);
  }

  /** The entry that decides the expiry of `id` is the latest one. */
  predicate LastIsNewest(dir: Directory, visits: seq<Visit>, id: string, now: nat, unit: nat)
    requires Clock(now, unit)
  {
    var last := LastLoaded(dir, visits, id, now, unit);
    last.Some? ==>
      forall name :: name in dir && Visited(visits, name) && LoadsId(dir, name, id, now, unit)
          ==> TimeAt(dir, name) <= TimeAt(dir, last.value.name)
  }

  /** The ids of which an older entry decides. */
  function Misorderings(dir: Directory, visits: seq<Visit>, now: nat, unit: nat): set<string>
    requires Clock(now, unit)
  {
    set v | v in visits && LoadsId(dir, v.name, IdAt(dir, v.name), now, unit)
            && !LastIsNewest(dir, visits, IdAt(dir, v.name), now, unit) :: IdAt(dir, v.name)
  }

  lemma MisorderingsMean(dir: Directory, visits: seq<Visit>, id: string, now: nat, unit: nat)
    requires Clock(now, unit)
    ensures id in Misorderings(dir, visits, now, unit) <==> !LastIsNewest(dir, visits, id, now, unit)
  {
    hide DatePrefix, InCalendar, Loads, TimeAt, Visited;
    if !LastIsNewest(dir, visits, id, now, unit) {
      var v := LastLoaded(dir, visits, id, now, unit).value;
      assert v in visits && IdAt(dir, v.name) == id;
    }
  }

  /** How long an entry is sure to stay: the window less what whole seconds cut off. */
  function Window(unit: nat): int {
    Ttl(unit) - unit + 1
  }

  /** A rebuilt entry is early by less than the second that truncation can take, and late by less
      than a second more than the insert came after the clock was sampled. It is late exactly when
      less than a second was left, or the insert came later than the fraction cut off makes up for. */
  lemma ExpiryBounds(at: nat, now: nat, moment: nat, unit: nat)
    requires unit > 0 && StillLive(at, now, unit) && now <= moment
    ensures at + Window(unit) <= Expiry(at, now, moment, unit) - (moment - now) < at + Ttl(unit) + unit
    ensures var left := at + Ttl(unit) - now;
      Expiry(at, now, moment, unit) > at + Ttl(unit) <==> left < unit || moment - now > left % unit
  {
    hide Ttl;
    WholeUnits(at + Ttl(unit) - now, unit);
  }

  lemma WholeUnits(rem: nat, unit: nat)
    requires unit > 0
    ensures rem == rem / unit * unit + rem % unit && 0 <= rem % unit < unit
    ensures rem / unit < 1 <==> rem < unit
  {
    if rem / unit >= 1 {
      assert rem / unit * unit >= unit;
    }
  }

  lemma WholeSecondExpiry(at: nat, now: nat, moment: nat)
    requires StillLive(at, now, 1)
    ensures Expiry(at, now, moment, 1) == at + DEDUP_TTL_SECS + moment - now
  {
  }

  /** On a whole-second clock, a rebuild covers every entry of an id for the full window exactly
      when the entry that decides is older than the latest by no more than its insert was late. */
  lemma WholeWindowIff(dir: Directory, visits: seq<Visit>, id: string, to: nat, now: nat)
    requires Clock(now, 1) && InOrder(visits, now, to)
    requires id !in Refusals(dir, visits, now, 1) && id in Rebuilt(dir, visits, now, 1)
    ensures LastLoaded(dir, visits, id, now, 1).Some?
    ensures var last := LastLoaded(dir, visits, id, now, 1).value;
      (forall name :: Visited(visits, name) && LoadsId(dir, name, id, now, 1)
         ==> TimeAt(dir, name) + DEDUP_TTL_SECS <= Rebuilt(dir, visits, now, 1)[id])
      <==> (forall name :: Visited(visits, name) && LoadsId(dir, name, id, now, 1)
              ==> TimeAt(dir, name) - TimeAt(dir, last.name) <= last.at - now)
  {
    hide DatePrefix, InCalendar, Loads, Rebuilt, Refusals, Expiry, StillLive, TimeAt, IdAt, Visited, LastInsert;
    RebuiltIsLastLoaded(dir, visits, id, now, to, now, 1);
    var last := LastLoaded(dir, visits, id, now, 1).value;
    LoadsIdMeans(dir, last.name, id, now, 1);
    WholeSecondExpiry(TimeAt(dir, last.name), now, last.at);
  }

  /** Filename prefixes as ingest writes them, sampled after `received_at`. */
  predicate WellNamed(name: string, m: Mail, unit: nat) {
    && InCalendar(m.nameAt, unit)
    && m.receivedAt <= m.nameAt
    && |name| >= 10 && name[..10] == DatePrefix(m.nameAt, unit)
  }

  /** The filename filter never drops an entry that is still inside the window. */
  lemma PrefixFilterKeepsLive(name: string, m: Mail, now: nat, unit: nat)
    requires Clock(now, unit) && WellNamed(name, m, unit) && StillLive(m.receivedAt, now, unit)
    ensures !NameTooOld(name, now, unit)
  {
    hide DatePrefix, InCalendar;
    DatePrefixMonotone(now - Ttl(unit), m.nameAt, unit);
  }

  /** A message that reads as written and is inside its window is loaded. */
  lemma LiveMailLoads(dir: Directory, name: string, now: nat, unit: nat)
    requires Clock(now, unit) && name in dir && WellNamed(name, dir[name], unit) && ReadsTrue(dir[name])
    requires dir[name].messageId != "" && StillLive(dir[name].receivedAt, now, unit)
    ensures LoadsId(dir, name, dir[name].messageId, now, unit)
  {
    hide DatePrefix, InCalendar, NameTooOld;
    PrefixFilterKeepsLive(name, dir[name], now, unit);
  }

  /** Completeness: a message that reads as written, is inside its window and was visited is
      remembered to the end of its window, unless an older entry of its id decides. */
  lemma RebuildIsComplete(dir: Directory, visits: seq<Visit>, name: string, to: nat, now: nat, unit: nat)
    requires Clock(now, unit) && InOrder(visits, now, to) && Visited(visits, name) && name in dir
    requires WellNamed(name, dir[name], unit) && ReadsTrue(dir[name])
    requires dir[name].messageId != "" && StillLive(dir[name].receivedAt, now, unit)
    requires dir[name].messageId !in Refusals(dir, visits, now, unit)
    requires LastIsNewest(dir, visits, dir[name].messageId, now, unit)
    ensures var id := dir[name].messageId;
      || dir[name].receivedAt + Window(unit) <= to
      || (id in Rebuilt(dir, visits, now, unit)
          && dir[name].receivedAt + Window(unit) <= Rebuilt(dir, visits, now, unit)[id])
  {
    hide DatePrefix, InCalendar, Rebuilt, Refusals, Window, Expiry, NameTooOld, StillLive, Visited, LoadsId, LastInsert;
    var id := dir[name].messageId;
    LiveMailLoads(dir, name, now, unit);
    RebuiltIsLastLoaded(dir, visits, id, now, to, now, unit);
    LastInsertInOrder(dir, visits, now, to, now, unit);
    var last := LastLoaded(dir, visits, id, now, unit).value;
    LoadsIdMeans(dir, name, id, now, unit);
    LoadsIdMeans(dir, last.name, id, now, unit);
    ExpiryBounds(TimeAt(dir, last.name), now, last.at, unit);
  }

  // ---- when the directory order matters -------------------------------------

  predicate IsListing(listing: seq<string>, dir: Directory) {
    && (forall i :: 0 <= i < |listing| ==> listing[i] in dir)
    && (forall name :: name in dir ==> name in listing)
    && (forall i, j :: 0 <= i < j < |listing| ==> listing[i] != listing[j])
  }

  /** All files are read and inserted at one moment. */
  function AllAt(listing: seq<string>, moment: nat): (visits: seq<Visit>)
    ensures |visits| == |listing|
    ensures forall i :: 0 <= i < |listing| ==> visits[i] == Visit(listing[i], moment)
  {
    seq(|listing|, i requires 0 <= i < |listing| => Visit(listing[i], moment))
  }

  lemma AllAreVisited(listing: seq<string>, moment: nat, name: string)
    ensures Visited(AllAt(listing, moment), name) <==> name in listing
  {
    var visits := AllAt(listing, moment);
    if i :| 0 <= i < |listing| && listing[i] == name {
      assert visits[i].name == name;
    }
  }

  ghost function SomeListing(names: set<string>): (listing: seq<string>)
    ensures forall name :: name in listing <==> name in names
    ensures forall i, j :: 0 <= i < j < |listing| ==> listing[i] != listing[j]
    ensures |listing| == |names|
  {
    if names == {} then []
    else
      var name :| name in names;
      SomeListing(names - {name}) + [name]
  }

  predicate SameExpiries(dir: Directory, now: nat, unit: nat)
    requires Clock(now, unit)
  {
    forall n1, n2 :: n1 in dir && n2 in dir
      && LoadsId(dir, n1, IdAt(dir, n1), now, unit) && LoadsId(dir, n2, IdAt(dir, n1), now, unit)
      ==> RemainingSecs(TimeAt(dir, n1), now, unit) == RemainingSecs(TimeAt(dir, n2), now, unit)
  }

  ghost predicate OrderIndependent(dir: Directory, moment: nat, now: nat, unit: nat)
    requires Clock(now, unit)
  {
    forall l1, l2 :: IsListing(l1, dir) && IsListing(l2, dir) ==>
      Rebuilt(dir, AllAt(l1, moment), now, unit) == Rebuilt(dir, AllAt(l2, moment), now, unit)
  }

  lemma ListingSize(listing: seq<string>, dir: Directory)
    requires IsListing(listing, dir)
    ensures |listing| == |dir|
  {
    DistinctSize(listing);
    assert (set name | name in listing) == dir.Keys;
  }

  lemma {:induction false} DistinctSize(listing: seq<string>)
    requires forall i, j :: 0 <= i < j < |listing| ==> listing[i] != listing[j]
    ensures |set name | name in listing| == |listing|
  {
    if listing != [] {
      var n := |listing| - 1;
      DistinctSize(listing[..n]);
      assert (set name | name in listing) == (set name | name in listing[..n]) + {listing[n]};
    }
  }

  /** With one moment for all inserts, nothing expires on the way. */
  lemma RebuiltAtOnce(dir: Directory, listing: seq<string>, id: string, moment: nat, now: nat, unit: nat)
    requires Clock(now, unit) && ReadBy(dir, now) && |dir| <= DEDUP_MAX_ITEMS && IsListing(listing, dir)
    ensures var visits := AllAt(listing, moment);
            var last := LastLoaded(dir, visits, id, now, unit);
            && (id in Rebuilt(dir, visits, now, unit) <==> last.Some?)
            && (last.Some? ==> last.value.name in dir && last.value.at == moment)
            && (last.Some? ==> Rebuilt(dir, visits, now, unit)[id] == ExpiryOf(dir, last.value, now, unit))
  {
    hide DatePrefix, Loads, RemainingSecs, Rebuilt, Refusals, TimeAt, IdAt, LastInsert, Visited;
    var visits := AllAt(listing, moment);
    ListingSize(listing, dir);
    SmallDirectoryFits(dir, visits, now, unit);
    RebuiltIsLastLoaded(dir, visits, id, moment, moment, now, unit);
    LastInsertInOrder(dir, visits, moment, moment, now, unit);
    var last := LastLoaded(dir, visits, id, now, unit);
    if last.Some? {
      SecondsArePositive(TimeAt(dir, last.value.name), now, unit);
    }
  }

  lemma SameExpiriesSuffice(dir: Directory, l1: seq<string>, l2: seq<string>, moment: nat, now: nat, unit: nat)
    requires Clock(now, unit) && ReadBy(dir, now) && |dir| <= DEDUP_MAX_ITEMS
    requires SameExpiries(dir, now, unit) && IsListing(l1, dir) && IsListing(l2, dir)
    ensures Rebuilt(dir, AllAt(l1, moment), now, unit) == Rebuilt(dir, AllAt(l2, moment), now, unit)
  {
    hide DatePrefix, Loads, RemainingSecs, Rebuilt, Refusals, TimeAt, IdAt, Visited;
    var v1, v2 := AllAt(l1, moment), AllAt(l2, moment);
    forall id
      ensures id in Rebuilt(dir, v1, now, unit) <==> id in Rebuilt(dir, v2, now, unit)
      ensures id in Rebuilt(dir, v1, now, unit) ==> Rebuilt(dir, v1, now, unit)[id] == Rebuilt(dir, v2, now, unit)[id]
    {
      RebuiltAtOnce(dir, l1, id, moment, now, unit);
      RebuiltAtOnce(dir, l2, id, moment, now, unit);
      OneLoadedOneVisited(dir, l1, l2, id, moment, now, unit);
      OneLoadedOneVisited(dir, l2, l1, id, moment, now, unit);
    }
  }

  lemma OneLoadedOneVisited(dir: Directory, l1: seq<string>, l2: seq<string>, id: string, moment: nat, now: nat,
                            unit: nat)
    requires Clock(now, unit) && IsListing(l1, dir) && IsListing(l2, dir)
    ensures LastLoaded(dir, AllAt(l1, moment), id, now, unit).Some?
      ==> LastLoaded(dir, AllAt(l2, moment), id, now, unit).Some?
  {
    hide DatePrefix, Loads, TimeAt, IdAt, Visited;
    var last := LastLoaded(dir, AllAt(l1, moment), id, now, unit);
    if last.Some? {
      AllAreVisited(l2, moment, last.value.name);
    }
  }

  /** A listing of the directory that ends with the two given entries. */
  ghost function EndingWith(dir: Directory, n1: string, n2: string): (listing: seq<string>)
    requires n1 in dir && n2 in dir && n1 != n2
    ensures IsListing(listing, dir) && listing != [] && listing[|listing| - 1] == n2
  {
    var rest := SomeListing(dir.Keys - {n1, n2});
    AppendTwo(dir, rest, n1, n2);
    rest + [n1, n2]
  }

  lemma AppendTwo(dir: Directory, rest: seq<string>, n1: string, n2: string)
    requires n1 in dir && n2 in dir && n1 != n2
    requires forall name :: name in rest <==> name in dir && name != n1 && name != n2
    requires forall i, j :: 0 <= i < j < |rest| ==> rest[i] != rest[j]
    ensures IsListing(rest + [n1, n2], dir)
  {
    var all := rest + [n1, n2];
    assert forall i :: 0 <= i < |rest| ==> all[i] == rest[i] && rest[i] in rest;
    assert all[|rest|] == n1 && all[|rest| + 1] == n2;
    forall name | name in dir
      ensures name in all
    {
      assert name in rest || name == n1 || name == n2;
    }
  }

  /** The entry listed last decides. */
  lemma LastDecides(dir: Directory, listing: seq<string>, id: string, moment: nat, now: nat, unit: nat)
    requires Clock(now, unit) && ReadBy(dir, now) && |dir| <= DEDUP_MAX_ITEMS && IsListing(listing, dir)
    requires listing != [] && LoadsId(dir, listing[|listing| - 1], id, now, unit)
    ensures id in Rebuilt(dir, AllAt(listing, moment), now, unit)
    ensures Rebuilt(dir, AllAt(listing, moment), now, unit)[id]
         == Expiry(TimeAt(dir, listing[|listing| - 1]), now, moment, unit)
  {
    hide DatePrefix, LoadsId, RemainingSecs, Rebuilt, Refusals, TimeAt, IdAt, Visited, IsListing;
    RebuiltAtOnce(dir, listing, id, moment, now, unit);
  }

  /** The two entries listed last, in either order. */
  lemma SwapShows(dir: Directory, n1: string, n2: string, moment: nat, now: nat, unit: nat)
    requires Clock(now, unit) && ReadBy(dir, now) && |dir| <= DEDUP_MAX_ITEMS
    requires n1 in dir && n2 in dir && n1 != n2
    requires LoadsId(dir, n1, IdAt(dir, n1), now, unit) && LoadsId(dir, n2, IdAt(dir, n1), now, unit)
    requires OrderIndependent(dir, moment, now, unit)
    ensures RemainingSecs(TimeAt(dir, n1), now, unit) == RemainingSecs(TimeAt(dir, n2), now, unit)
  {
    hide DatePrefix, LoadsId, RemainingSecs, Rebuilt, IsListing, TimeAt, IdAt;
    var l1, l2 := EndingWith(dir, n2, n1), EndingWith(dir, n1, n2);
    LastDecides(dir, l1, IdAt(dir, n1), moment, now, unit);
    LastDecides(dir, l2, IdAt(dir, n1), moment, now, unit);
    SameProduct(RemainingSecs(TimeAt(dir, n1), now, unit), RemainingSecs(TimeAt(dir, n2), now, unit), unit);
  }

  /** With all inserts at one moment, the rebuilt cache depends on the directory order exactly when
      two loaded entries of one id have different whole seconds left. */
  lemma RebuildOrderMatters(dir: Directory, moment: nat, now: nat, unit: nat)
    requires Clock(now, unit) && ReadBy(dir, now) && |dir| <= DEDUP_MAX_ITEMS
    ensures OrderIndependent(dir, moment, now, unit) <==> SameExpiries(dir, now, unit)
  {
    hide DatePrefix, LoadsId, RemainingSecs, Rebuilt, IsListing, TimeAt, IdAt;
    if SameExpiries(dir, now, unit) {
      forall l1, l2 | IsListing(l1, dir) && IsListing(l2, dir)
        ensures Rebuilt(dir, AllAt(l1, moment), now, unit) == Rebuilt(dir, AllAt(l2, moment), now, unit)
      {
        SameExpiriesSuffice(dir, l1, l2, moment, now, unit);
      }
    }
    if OrderIndependent(dir, moment, now, unit) {
      forall n1, n2 | n1 in dir && n2 in dir
        && LoadsId(dir, n1, IdAt(dir, n1), now, unit) && LoadsId(dir, n2, IdAt(dir, n1), now, unit)
        ensures RemainingSecs(TimeAt(dir, n1), now, unit) == RemainingSecs(TimeAt(dir, n2), now, unit)
      {
        if n1 != n2 {
          SwapShows(dir, n1, n2, moment, now, unit);
        }
      }
    }
  }

  lemma SameProduct(a: nat, b: nat, unit: nat)
    requires unit > 0 && a * unit == b * unit
    ensures a == b
  {
    assert (a - b) * unit == 0;
  }

  // ---- ids that nobody delivered --------------------------------------------

  predicate HasComplete(dir: Directory, id: string) {
    exists name :: name in dir && dir[name].complete && dir[name].messageId == id
  }

  /** A truncated file, or one that is read as another message. */
  predicate SpeaksForAnother(dir: Directory, name: string) {
    name in dir && (!dir[name].complete || dir[name].messageId != IdAt(dir, name))
  }

  /** Each id of the rebuilt cache belongs to a whole message exactly when no truncated or
      misread file brings in, to stay, an id that has no whole message beside it. */
  lemma RebuildLosesNothing(dir: Directory, visits: seq<Visit>, to: nat, now: nat, unit: nat)
    requires Clock(now, unit) && Refusals(dir, visits, now, unit) == {} && InOrder(visits, now, to)
    ensures (forall id :: id in Rebuilt(dir, visits, now, unit) ==> HasComplete(dir, id))
      <==> (forall name :: SpeaksForAnother(dir, name) && Visited(visits, name)
              && LoadsId(dir, name, IdAt(dir, name), now, unit) && Outlasts(dir, visits, IdAt(dir, name), now, unit)
              ==> HasComplete(dir, IdAt(dir, name)))
  {
    hide DatePrefix, Loads, Rebuilt, Refusals, LastInsert, ExpiryOf, HasComplete;
    forall id
      ensures id in Rebuilt(dir, visits, now, unit) <==> Outlasts(dir, visits, id, now, unit)
    {
      RebuiltIsLastLoaded(dir, visits, id, now, to, now, unit);
    }
    forall id | Outlasts(dir, visits, id, now, unit) && !HasComplete(dir, id)
      ensures exists name :: SpeaksForAnother(dir, name) && Visited(visits, name) && IdAt(dir, name) == id
                && LoadsId(dir, name, IdAt(dir, name), now, unit)
    {
      var name := LastLoaded(dir, visits, id, now, unit).value.name;
      if !SpeaksForAnother(dir, name) {
        IsComplete(dir, name);
      }
      assert SpeaksForAnother(dir, name) && Visited(visits, name) && IdAt(dir, name) == id;
    }
  }

  lemma IsComplete(dir: Directory, name: string)
    requires name in dir && dir[name].complete
    ensures HasComplete(dir, dir[name].messageId)
  {
  }
}
