/** The two hook listings: the daemon's (sort, then filter) and the command line's (filter,
    then sort). The map of mailboxes is walked in no particular order in both. */
module HookListing {
  import opened Text
  import opened HookNames
  import opened HookConfig

  // ---- stable sorting by a key -----------------------------------------------------

  datatype Key = Key(mailbox: string, event: string, name: string)

  predicate KeyLess(a: Key, b: Key) {
    || Less(a.mailbox, b.mailbox)
    || (a.mailbox == b.mailbox && Less(a.event, b.event))
    || (a.mailbox == b.mailbox && a.event == b.event && Less(a.name, b.name))
  }

  lemma KeyOrder(a: Key, b: Key)
    ensures !KeyLess(a, a)
    ensures KeyLess(a, b) || a == b || KeyLess(b, a)
    ensures !(KeyLess(a, b) && KeyLess(b, a))
  {
    LessOrder(a.mailbox, b.mailbox);
    LessOrder(a.event, b.event);
    LessOrder(a.name, b.name);
  }

  lemma LessOrder(a: string, b: string)
    ensures !Less(a, a)
    ensures Less(a, b) || a == b || Less(b, a)
    ensures !(Less(a, b) && Less(b, a))
  {
    LessIrreflexive(a);
    LessTotal(a, b);
    if Less(a, b) && Less(b, a) {
      LessTransitive(a, b, a);
    }
  }

  lemma KeyTransitive(a: Key, b: Key, c: Key)
    requires !KeyLess(b, a) && !KeyLess(c, b)
    ensures !KeyLess(c, a)
  {
    hide Less;
    LessOrder(a.mailbox, b.mailbox);
    LessOrder(b.mailbox, c.mailbox);
    LessOrder(a.mailbox, c.mailbox);
    LessOrder(a.event, b.event);
    LessOrder(b.event, c.event);
    LessOrder(a.event, c.event);
    LessOrder(a.name, b.name);
    LessOrder(b.name, c.name);
    LessOrder(a.name, c.name);
    AtMost(a.mailbox, b.mailbox, c.mailbox);
    AtMost(a.event, b.event, c.event);
    AtMost(a.name, b.name, c.name);
  }

  lemma AtMost(a: string, b: string, c: string)
    ensures Less(a, b) && Less(b, c) ==> Less(a, c)
  {
    if Less(a, b) && Less(b, c) {
      LessTransitive(a, b, c);
    }
  }

  predicate Sorted<T>(rows: seq<T>, key: T -> Key) {
    forall i, j :: 0 <= i < j < |rows| ==> !KeyLess(key(rows[j]), key(rows[i]))
  }

  /** The rows of one key, in their order. */
  function WithKey<T>(rows: seq<T>, key: T -> Key, k: Key): seq<T> {
    if rows == [] then []
    else if key(rows[0]) == k then [rows[0]] + WithKey(rows[1..], key, k)
    else WithKey(rows[1..], key, k)
  }

  lemma {:induction false} WithKeyConcat<T>(a: seq<T>, b: seq<T>, key: T -> Key, k: Key)
    ensures WithKey(a + b, key, k) == WithKey(a, key, k) + WithKey(b, key, k)
  {
    if a == [] {
      assert a + b == b;
    } else {
      assert (a + b)[1..] == a[1..] + b;
      WithKeyConcat(a[1..], b, key, k);
    }
  }

  lemma {:induction false} WithKeyMembers<T>(rows: seq<T>, key: T -> Key, k: Key, row: T)
    ensures row in WithKey(rows, key, k) <==> row in rows && key(row) == k
  {
    if rows != [] {
      WithKeyMembers(rows[1..], key, k, row);
      assert rows == [rows[0]] + rows[1..];
    }
  }

  /** Puts a row behind all rows that are not after it. */
  function Insert<T>(row: T, rows: seq<T>, key: T -> Key): seq<T> {
    if rows == [] then [row]
    else
      var last := rows[|rows| - 1];
      if KeyLess(key(row), key(last)) then Insert(row, rows[..|rows| - 1], key) + [last] else rows + [row]
  }

  function StableSort<T>(rows: seq<T>, key: T -> Key): seq<T> {
    if rows == [] then [] else Insert(rows[|rows| - 1], StableSort(rows[..|rows| - 1], key), key)
  }

  lemma LastIsGreatest<T>(rows: seq<T>, key: T -> Key, row: T)
    requires Sorted(rows, key) && row in rows
    ensures !KeyLess(key(rows[|rows| - 1]), key(row))
  {
    KeyOrder(key(row), key(row));
  }

  lemma {:induction false} InsertMembers<T>(row: T, rows: seq<T>, key: T -> Key, x: T)
    requires x in Insert(row, rows, key)
    ensures x == row || x in rows
  {
    if rows != [] && KeyLess(key(row), key(rows[|rows| - 1])) && x in Insert(row, rows[..|rows| - 1], key) {
      InsertMembers(row, rows[..|rows| - 1], key, x);
    }
  }

  lemma {:induction false} InsertSorts<T>(row: T, rows: seq<T>, key: T -> Key)
    requires Sorted(rows, key)
    ensures Sorted(Insert(row, rows, key), key)
  {
    hide KeyLess;
    if rows != [] {
      var front, last := rows[..|rows| - 1], rows[|rows| - 1];
      assert rows == front + [last];
      if KeyLess(key(row), key(last)) {
        InsertSorts(row, front, key);
        var result := Insert(row, front, key);
        KeyOrder(key(row), key(last));
        forall i | 0 <= i < |result|
          ensures !KeyLess(key(last), key(result[i]))
        {
          InsertMembers(row, front, key, result[i]);
          if result[i] in front {
            LastIsGreatest(rows, key, result[i]);
          }
        }
      } else {
        forall i | 0 <= i < |rows|
          ensures !KeyLess(key(row), key(rows[i]))
        {
          KeyOrder(key(rows[i]), key(rows[i]));
          KeyTransitive(key(rows[i]), key(last), key(row));
        }
      }
    }
  }

  lemma {:induction false} InsertIsStable<T>(row: T, rows: seq<T>, key: T -> Key, k: Key)
    requires Sorted(rows, key)
    ensures WithKey(Insert(row, rows, key), key, k) == WithKey(rows + [row], key, k)
  {
    hide KeyLess;
    WithKeyConcat(rows, [row], key, k);
    if rows != [] {
      var front, last := rows[..|rows| - 1], rows[|rows| - 1];
      assert rows == front + [last];
      WithKeyConcat(front, [last], key, k);
      if KeyLess(key(row), key(last)) {
        InsertIsStable(row, front, key, k);
        WithKeyConcat(Insert(row, front, key), [last], key, k);
        WithKeyConcat(front, [row], key, k);
        KeyOrder(key(row), key(last));
      }
    }
  }

  lemma {:induction false} SortIsStable<T>(rows: seq<T>, key: T -> Key)
    ensures Sorted(StableSort(rows, key), key)
    ensures forall k :: WithKey(StableSort(rows, key), key, k) == WithKey(rows, key, k)
  {
    if rows != [] {
      var front, last := rows[..|rows| - 1], rows[|rows| - 1];
      SortIsStable(front, key);
      var sorted := StableSort(front, key);
      InsertSorts(last, sorted, key);
      assert rows == front + [last];
      forall k
        ensures WithKey(StableSort(rows, key), key, k) == WithKey(rows, key, k)
      {
        InsertIsStable(last, sorted, key, k);
        WithKeyConcat(sorted, [last], key, k);
        WithKeyConcat(front, [last], key, k);
      }
    }
  }

  /** A sorted list is determined by its rows of each key. */
  lemma {:induction false} SortedIsUnique<T>(a: seq<T>, b: seq<T>, key: T -> Key)
    requires Sorted(a, key) && Sorted(b, key)
    requires forall k :: WithKey(a, key, k) == WithKey(b, key, k)
    ensures a == b
  {
    hide KeyLess;
    if a == [] {
      if b != [] {
        FirstHasKey(b, key);
      }
    } else {
      var k := key(a[0]);
      assert WithKey(b, key, k) == WithKey(a, key, k);
      assert a[0] in WithKey(b, key, k);
      WithKeyMembers(b, key, k, a[0]);
      FirstIsLeast(b, key, a[0]);
      assert WithKey(a, key, key(b[0])) == WithKey(b, key, key(b[0]));
      assert b[0] in WithKey(a, key, key(b[0]));
      WithKeyMembers(a, key, key(b[0]), b[0]);
      FirstIsLeast(a, key, b[0]);
      KeyOrder(k, key(b[0]));
      assert a[0] == WithKey(a, key, k)[0] == b[0];
      forall k
        ensures WithKey(a[1..], key, k) == WithKey(b[1..], key, k)
      {
        assert WithKey(a, key, k) == WithKey(b, key, k);
        WithoutFirst(a, key, k);
        WithoutFirst(b, key, k);
      }
      SortedIsUnique(a[1..], b[1..], key);
      assert a == [a[0]] + a[1..] && b == [b[0]] + b[1..];
    }
  }

  lemma FirstIsLeast<T>(rows: seq<T>, key: T -> Key, row: T)
    requires Sorted(rows, key) && row in rows
    ensures !KeyLess(key(row), key(rows[0]))
  {
    KeyOrder(key(row), key(row));
  }

  lemma FirstHasKey<T>(rows: seq<T>, key: T -> Key)
    requires rows != []
    ensures WithKey(rows, key, key(rows[0])) != []
  {
  }

  lemma WithoutFirst<T>(rows: seq<T>, key: T -> Key, k: Key)
    requires rows != []
    ensures WithKey(rows[1..], key, k)
         == if key(rows[0]) == k then WithKey(rows, key, k)[1..] else WithKey(rows, key, k)
  {
  }

  // ---- rows --------------------------------------------------------------------------

  datatype Row = Row(name: string, mailbox: string, event: HookEvent, cmd: seq<string>, fireOnUntrusted: bool,
                     timeoutSecs: nat)

  function RowKey(row: Row): Key {
    Key(row.mailbox, EventName(row.event), row.name)
  }

  function RowOf(sha: Sha, m: string, hook: Hook): Row {
    Row(EffectiveName(sha, hook), m, hook.event, hook.cmd, hook.fireOnUntrusted, hook.timeoutSecs)
  }

  function RowsOf(sha: Sha, m: string, hooks: seq<Hook>): (rows: seq<Row>)
    ensures |rows| == |hooks| && forall i :: 0 <= i < |hooks| ==> rows[i] == RowOf(sha, m, hooks[i])
  {
    seq(|hooks|, i requires 0 <= i < |hooks| => RowOf(sha, m, hooks[i]))
  }

  /** Resolves an owner's name to a user id, if there is such a user. */
  type Users = string -> Option<nat>

  predicate CallerOwns(cfg: Config, users: Users, m: string, uid: nat) {
    m in cfg.mailboxes && users(cfg.mailboxes[m].owner) == Some(uid)
  }

  predicate IsVisible(cfg: Config, users: Users, m: string, uid: nat) {
    uid == 0 || CallerOwns(cfg, users, m, uid)
  }

  /** The rows of key `k` that a listing restricted to mailboxes `shown` holds. */
  function Expected(sha: Sha, cfg: Config, shown: string -> bool, k: Key): seq<Row> {
    if k.mailbox in cfg.mailboxes && shown(k.mailbox)
    then WithKey(RowsOf(sha, k.mailbox, cfg.mailboxes[k.mailbox].hooks), RowKey, k)
    else []
  }

  /** The listing of a configuration: sorted, and for each key the hooks of that key in
      the order the configuration gives them. */
  ghost predicate IsListing(sha: Sha, cfg: Config, shown: string -> bool, rows: seq<Row>) {
    Sorted(rows, RowKey) && forall k :: WithKey(rows, RowKey, k) == Expected(sha, cfg, shown, k)
  }

  /** There is one such list, whatever order the mailboxes are met in. */
  lemma ListingIsUnique(sha: Sha, cfg: Config, shown: string -> bool, a: seq<Row>, b: seq<Row>)
    requires IsListing(sha, cfg, shown, a) && IsListing(sha, cfg, shown, b)
    ensures a == b
  {
    hide Expected, Sorted;
    forall k
      ensures WithKey(a, RowKey, k) == WithKey(b, RowKey, k)
    {
      assert WithKey(a, RowKey, k) == Expected(sha, cfg, shown, k);
    }
    SortedIsUnique(a, b, RowKey);
  }

  /** It lists exactly the hooks of the shown mailboxes. */
  lemma ListingIsExact(sha: Sha, cfg: Config, shown: string -> bool, rows: seq<Row>, row: Row)
    requires IsListing(sha, cfg, shown, rows)
    ensures row in rows <==>
      exists m, i :: At(cfg, m, i) && shown(m) && row == RowOf(sha, m, cfg.mailboxes[m].hooks[i])
  {
    hide EffectiveName, Sorted;
    var k := RowKey(row);
    WithKeyMembers(rows, RowKey, k, row);
    assert WithKey(rows, RowKey, k) == Expected(sha, cfg, shown, k);
    if k.mailbox in cfg.mailboxes && shown(k.mailbox) {
      var own := RowsOf(sha, k.mailbox, cfg.mailboxes[k.mailbox].hooks);
      WithKeyMembers(own, RowKey, k, row);
      if i :| 0 <= i < |own| && own[i] == row {
        assert At(cfg, k.mailbox, i);
      }
    }
    if m, i :| At(cfg, m, i) && shown(m) && row == RowOf(sha, m, cfg.mailboxes[m].hooks[i]) {
      assert RowsOf(sha, m, cfg.mailboxes[m].hooks)[i] == row;
    }
  }

  /** The row tells the hook at place `i` of mailbox `m`, under the name that the hook answers to. */
  predicate Describes(sha: Sha, cfg: Config, m: string, i: int, row: Row) {
    && At(cfg, m, i) && row.mailbox == m
    && GoesBy(sha, cfg.mailboxes[m].hooks[i], row.name)
    && row.event == cfg.mailboxes[m].hooks[i].event
    && row.cmd == cfg.mailboxes[m].hooks[i].cmd
    && row.fireOnUntrusted == cfg.mailboxes[m].hooks[i].fireOnUntrusted
    && row.timeoutSecs == cfg.mailboxes[m].hooks[i].timeoutSecs
  }

  lemma RowDescribes(sha: Sha, cfg: Config, m: string, i: int, row: Row)
    requires At(cfg, m, i)
    ensures row == RowOf(sha, m, cfg.mailboxes[m].hooks[i]) <==> Describes(sha, cfg, m, i, row)
  {
    hide EffectiveName, GoesBy;
    GoesByItsName(sha, cfg.mailboxes[m].hooks[i], row.name);
  }

  /** By mailbox, then `after_send` before `on_receive`, then by name. */
  predicate IsBefore(a: Row, b: Row) {
    || Less(a.mailbox, b.mailbox)
    || (a.mailbox == b.mailbox && a.event == AfterSend && b.event == OnReceive)
    || (a.mailbox == b.mailbox && a.event == b.event && Less(a.name, b.name))
  }

  lemma EventOrder(a: HookEvent, b: HookEvent)
    ensures Less(EventName(a), EventName(b)) <==> a == AfterSend && b == OnReceive
    ensures EventName(a) == EventName(b) <==> a == b
  {
    assert EventName(AfterSend)[0] == 'a' && EventName(OnReceive)[0] == 'o';
    LessIrreflexive(EventName(a));
  }

  lemma BeforeMeans(a: Row, b: Row)
    ensures KeyLess(RowKey(a), RowKey(b)) <==> IsBefore(a, b)
  {
    hide Less, EventName;
    EventOrder(a.event, b.event);
  }

  /** The mailboxes of a listing: the one asked for, or all; of these root sees each, and anybody else
      those whose owner is the caller. */
  function SeenBy(cfg: Config, users: Users, uid: nat, filter: Option<string>): set<string> {
    set m | m in cfg.mailboxes && (filter.None? || filter.value == m)
            && (uid == 0 || users(cfg.mailboxes[m].owner) == Some(uid))
  }

  /** Exactly the hooks of the mailboxes in `seen`, no row before one that should come earlier. */
  ghost predicate Lists(sha: Sha, cfg: Config, seen: set<string>, rows: seq<Row>) {
    && (forall row :: row in rows <==> exists m, i :: m in seen && Describes(sha, cfg, m, i, row))
    && (forall i, j :: 0 <= i < j < |rows| ==> !IsBefore(rows[j], rows[i]))
  }

  lemma ListingLists(sha: Sha, cfg: Config, shown: string -> bool, seen: set<string>, rows: seq<Row>)
    requires IsListing(sha, cfg, shown, rows)
    requires forall m :: m in cfg.mailboxes ==> (shown(m) <==> m in seen)
    ensures Lists(sha, cfg, seen, rows)
  {
    hide Describes, RowOf, Expected, WithKey, IsBefore, KeyLess;
    forall i, j | 0 <= i < j < |rows|
      ensures !IsBefore(rows[j], rows[i])
    {
      BeforeMeans(rows[j], rows[i]);
    }
    forall row
      ensures row in rows <==> exists m, i :: m in seen && Describes(sha, cfg, m, i, row)
    {
      ListingIsExact(sha, cfg, shown, rows, row);
      forall m, i | At(cfg, m, i)
        ensures row == RowOf(sha, m, cfg.mailboxes[m].hooks[i]) <==> Describes(sha, cfg, m, i, row)
      {
        RowDescribes(sha, cfg, m, i, row);
      }
      forall m, i | Describes(sha, cfg, m, i, row)
        ensures At(cfg, m, i)
      {
        DescribedIsThere(sha, cfg, m, i, row);
      }
    }
  }

  lemma {:induction false} WithKeyCounts<T>(rows: seq<T>, key: T -> Key, row: T)
    ensures multiset(WithKey(rows, key, key(row)))[row] == multiset(rows)[row]
  {
    if rows != [] {
      WithKeyCounts(rows[1..], key, row);
      assert rows == [rows[0]] + rows[1..];
    }
  }

  /** Each row stands in a listing as often as among the hooks of its mailbox. */
  lemma ListingCounts(sha: Sha, cfg: Config, shown: string -> bool, rows: seq<Row>, row: Row)
    requires IsListing(sha, cfg, shown, rows)
    ensures multiset(rows)[row] ==
      if row.mailbox in cfg.mailboxes && shown(row.mailbox)
      then multiset(RowsOf(sha, row.mailbox, cfg.mailboxes[row.mailbox].hooks))[row] else 0
  {
    hide EffectiveName, Sorted, WithKey;
    var k := RowKey(row);
    WithKeyCounts(rows, RowKey, row);
    assert WithKey(rows, RowKey, k) == Expected(sha, cfg, shown, k);
    if row.mailbox in cfg.mailboxes && shown(row.mailbox) {
      WithKeyCounts(RowsOf(sha, row.mailbox, cfg.mailboxes[row.mailbox].hooks), RowKey, row);
    }
  }

  lemma DescribedIsThere(sha: Sha, cfg: Config, m: string, i: int, row: Row)
    requires Describes(sha, cfg, m, i, row)
    ensures At(cfg, m, i)
  {
  }

  /** Hooks with different names never tie, so then the order is strict. */
  lemma ListingIsStrict(sha: Sha, cfg: Config, shown: string -> bool, rows: seq<Row>, i: nat, j: nat)
    requires IsListing(sha, cfg, shown, rows) && NamesUnique(sha, cfg) && i < j < |rows|
    ensures KeyLess(RowKey(rows[i]), RowKey(rows[j]))
  {
    hide EffectiveName, KeyLess;
    var a, b := RowKey(rows[i]), RowKey(rows[j]);
    KeyOrder(a, b);
    if a == b {
      TwoOfOneKey(rows, i, j);
      assert WithKey(rows, RowKey, a) == Expected(sha, cfg, shown, a);
      var hooks := cfg.mailboxes[a.mailbox].hooks;
      forall x, y | 0 <= x < y < |hooks|
        ensures RowsOf(sha, a.mailbox, hooks)[x].name != RowsOf(sha, a.mailbox, hooks)[y].name
      {
        assert At(cfg, a.mailbox, x) && At(cfg, a.mailbox, y);
        assert NameAt(sha, cfg, a.mailbox, x) != NameAt(sha, cfg, a.mailbox, y);
      }
      OneOfEachKey(RowsOf(sha, a.mailbox, hooks), a);
    }
  }

  lemma TwoOfOneKey(rows: seq<Row>, i: nat, j: nat)
    requires i < j < |rows| && RowKey(rows[i]) == RowKey(rows[j])
    ensures |WithKey(rows, RowKey, RowKey(rows[i]))| >= 2
  {
    var k := RowKey(rows[i]);
    WithKeyConcat(rows[..j], rows[j..], RowKey, k);
    assert rows == rows[..j] + rows[j..];
    WithKeyMembers(rows[..j], RowKey, k, rows[i]);
    WithKeyMembers(rows[j..], RowKey, k, rows[j]);
    assert rows[i] == rows[..j][i] && rows[j] == rows[j..][0];
  }

  lemma {:induction false} OneOfEachKey(rows: seq<Row>, k: Key)
    requires forall x, y :: 0 <= x < y < |rows| ==> rows[x].name != rows[y].name
    ensures |WithKey(rows, RowKey, k)| <= 1
  {
    if rows != [] {
      var rest := WithKey(rows[1..], RowKey, k);
      OneOfEachKey(rows[1..], k);
      if RowKey(rows[0]) == k && rest != [] {
        WithKeyMembers(rows[1..], RowKey, k, rest[0]);
      }
    }
  }

  // ---- the daemon's listing --------------------------------------------------------------

  lemma {:induction false} ForeignRows(rows: seq<Row>, m: string, k: Key)
    requires k.mailbox != m && forall i :: 0 <= i < |rows| ==> rows[i].mailbox == m
    ensures WithKey(rows, RowKey, k) == []
  {
    if rows != [] {
      ForeignRows(rows[1..], m, k);
    }
  }

  /** `rows` are gathered from the mailboxes in `done` that are shown. */
  ghost predicate Gathered(sha: Sha, cfg: Config, done: set<string>, shown: string -> bool, rows: seq<Row>) {
    forall k :: WithKey(rows, RowKey, k) == if k.mailbox in done then Expected(sha, cfg, shown, k) else []
  }

  lemma GatherOne(sha: Sha, cfg: Config, done: set<string>, shown: string -> bool, rows: seq<Row>, m: string)
    requires Gathered(sha, cfg, done, shown, rows) && m in cfg.mailboxes && m !in done
    ensures Gathered(sha, cfg, done + {m}, shown,
              if shown(m) then rows + RowsOf(sha, m, cfg.mailboxes[m].hooks) else rows)
  {
    hide EffectiveName;
    var own := RowsOf(sha, m, cfg.mailboxes[m].hooks);
    forall k
      ensures WithKey(rows + own, RowKey, k) == WithKey(rows, RowKey, k) + WithKey(own, RowKey, k)
      ensures k.mailbox != m ==> WithKey(own, RowKey, k) == []
    {
      WithKeyConcat(rows, own, RowKey, k);
      if k.mailbox != m {
        ForeignRows(own, m, k);
      }
    }
  }

  /** Walks the mailboxes in any order and appends the rows of those that are shown. */
  method GatherRows(sha: Sha, cfg: Config, shown: string -> bool) returns (rows: seq<Row>)
    ensures Gathered(sha, cfg, cfg.mailboxes.Keys, shown, rows)
  {
    hide EffectiveName, Expected, Gathered;
    rows := [];
    var todo := cfg.mailboxes.Keys;
    NothingGathered(sha, cfg, shown);
    assert cfg.mailboxes.Keys - todo == {};
    while todo != {}
      invariant todo <= cfg.mailboxes.Keys
      invariant Gathered(sha, cfg, cfg.mailboxes.Keys - todo, shown, rows)
    {
      var m :| m in todo;
      ghost var done, start := cfg.mailboxes.Keys - todo, rows;
      todo := todo - {m};
      assert cfg.mailboxes.Keys - todo == done + {m};
      GatherOne(sha, cfg, done, shown, rows, m);
      if !shown(m) {
        continue;
      }
      var hooks := cfg.mailboxes[m].hooks;
      for i := 0 to |hooks|
        invariant rows == start + RowsOf(sha, m, hooks)[..i]
      {
        rows := rows + [RowOf(sha, m, hooks[i])];
      }
      assert rows == start + RowsOf(sha, m, hooks);
    }
    assert cfg.mailboxes.Keys - todo == cfg.mailboxes.Keys;
  }

  lemma NothingGathered(sha: Sha, cfg: Config, shown: string -> bool)
    ensures Gathered(sha, cfg, {}, shown, [])
  {
  }

  function VisibleTo(cfg: Config, users: Users, uid: nat): string -> bool {
    m => IsVisible(cfg, users, m, uid)
  }

  /** HOOK-LIST: the listing of what the caller may see. */
  method CollectRows(sha: Sha, cfg: Config, users: Users, uid: nat) returns (rows: seq<Row>)
    ensures IsListing(sha, cfg, VisibleTo(cfg, users, uid), rows)
    ensures Lists(sha, cfg, SeenBy(cfg, users, uid, None), rows)
  {
    hide EffectiveName, StableSort, Lists;
    rows := GatherRows(sha, cfg, VisibleTo(cfg, users, uid));
    SortIsStable(rows, RowKey);
    rows := StableSort(rows, RowKey);
    ListingLists(sha, cfg, VisibleTo(cfg, users, uid), SeenBy(cfg, users, uid, None), rows);
  }

  // ---- the command line's two listings ------------------------------------------------------

  datatype Line = Line(name: string, mailbox: string, event: string, cmd: string, timeoutSecs: nat)

  function LineKey(line: Line): Key {
    Key(line.mailbox, line.event, line.name)
  }

  /** How an argv is shown: a JSON array. */
  type Display = seq<string> -> string

  function LineOf(display: Display, row: Row): Line {
    Line(row.name, row.mailbox, EventName(row.event), display(row.cmd), row.timeoutSecs)
  }

  function Lines(display: Display, rows: seq<Row>): (lines: seq<Line>)
    ensures |lines| == |rows| && forall i :: 0 <= i < |rows| ==> lines[i] == LineOf(display, rows[i])
  {
    seq(|rows|, i requires 0 <= i < |rows| => LineOf(display, rows[i]))
  }

  function Wanted(filter: Option<string>): string -> bool {
    m => filter.None? || filter.value == m
  }

  function WantedAndVisible(filter: Option<string>, cfg: Config, users: Users, uid: nat): string -> bool {
    m => Wanted(filter)(m) && IsVisible(cfg, users, m, uid)
  }

  /** Keeps the rows of some mailboxes. */
  function Keep<T>(rows: seq<T>, key: T -> Key, kept: string -> bool): seq<T> {
    if rows == [] then []
    else if kept(key(rows[0]).mailbox) then [rows[0]] + Keep(rows[1..], key, kept)
    else Keep(rows[1..], key, kept)
  }

  lemma {:induction false} KeepMembers<T>(rows: seq<T>, key: T -> Key, kept: string -> bool)
    ensures forall row :: row in Keep(rows, key, kept) ==> row in rows
  {
    if rows != [] {
      KeepMembers(rows[1..], key, kept);
    }
  }

  lemma {:induction false} KeepSorted<T>(rows: seq<T>, key: T -> Key, kept: string -> bool)
    requires Sorted(rows, key)
    ensures Sorted(Keep(rows, key, kept), key)
  {
    hide KeyLess;
    if rows != [] {
      var rest := Keep(rows[1..], key, kept);
      KeepSorted(rows[1..], key, kept);
      KeepMembers(rows[1..], key, kept);
      forall i | 0 <= i < |rest|
        ensures !KeyLess(key(rest[i]), key(rows[0]))
      {
        assert rest[i] in rest;
        var j :| 0 <= j < |rows[1..]| && rows[1..][j] == rest[i];
        assert rows[j + 1] == rest[i];
      }
    }
  }

  lemma {:induction false} KeepWithKey<T>(rows: seq<T>, key: T -> Key, kept: string -> bool, k: Key)
    ensures WithKey(Keep(rows, key, kept), key, k) == if kept(k.mailbox) then WithKey(rows, key, k) else []
  {
    if rows != [] {
      KeepWithKey(rows[1..], key, kept, k);
    }
  }

  lemma {:induction false} KeepLines(display: Display, rows: seq<Row>, kept: string -> bool)
    ensures Keep(Lines(display, rows), LineKey, kept) == Lines(display, Keep(rows, RowKey, kept))
  {
    if rows != [] {
      KeepLines(display, rows[1..], kept);
      assert Lines(display, rows)[1..] == Lines(display, rows[1..]);
    }
  }

  lemma {:induction false} InsertLines(display: Display, row: Row, rows: seq<Row>)
    ensures Insert(LineOf(display, row), Lines(display, rows), LineKey) == Lines(display, Insert(row, rows, RowKey))
  {
    hide KeyLess;
    if rows != [] {
      InsertLines(display, row, rows[..|rows| - 1]);
      assert Lines(display, rows)[..|rows| - 1] == Lines(display, rows[..|rows| - 1]);
    }
  }

  lemma {:induction false} SortLines(display: Display, rows: seq<Row>)
    ensures StableSort(Lines(display, rows), LineKey) == Lines(display, StableSort(rows, RowKey))
  {
    hide Insert;
    if rows != [] {
      var front := rows[..|rows| - 1];
      SortLines(display, front);
      assert Lines(display, rows)[..|rows| - 1] == Lines(display, front);
      InsertLines(display, rows[|rows| - 1], StableSort(front, RowKey));
    }
  }

  /** The local listing: gather what is asked for, keep what the caller owns, sort. */
  method ListLocal(sha: Sha, cfg: Config, users: Users, uid: nat, filter: Option<string>, display: Display)
    returns (result: Option<seq<Line>>, ghost listed: seq<Row>)
    ensures result.None? <==> filter.Some? && filter.value !in cfg.mailboxes
    ensures IsListing(sha, cfg, WantedAndVisible(filter, cfg, users, uid), listed)
    ensures result.Some? ==> result.value == Lines(display, listed)
    ensures Lists(sha, cfg, SeenBy(cfg, users, uid, filter), listed)
    ensures result.Some? ==>
      && |result.value| == |listed|
      && forall i :: 0 <= i < |listed| ==>
           && result.value[i].name == listed[i].name && result.value[i].mailbox == listed[i].mailbox
           && result.value[i].event == (if listed[i].event == OnReceive then "on_receive" else "after_send")
           && result.value[i].cmd == display(listed[i].cmd) && result.value[i].timeoutSecs == listed[i].timeoutSecs
  {
    hide EffectiveName, StableSort, Gathered, Lists;
    var rows := GatherRows(sha, cfg, Wanted(filter));
    ghost var own := Keep(rows, RowKey, VisibleTo(cfg, users, uid));
    KeptIsListing(sha, cfg, users, uid, filter, rows);
    listed := StableSort(own, RowKey);
    ListingLists(sha, cfg, WantedAndVisible(filter, cfg, users, uid), SeenBy(cfg, users, uid, filter), listed);
    if filter.Some? && filter.value !in cfg.mailboxes {
      return None, listed;
    }
    var lines := Lines(display, rows);
    if uid != 0 {
      var owned: string -> bool := m => CallerOwns(cfg, users, m, uid);
      KeepSame(lines, LineKey, owned, VisibleTo(cfg, users, uid));
      lines := Keep(lines, LineKey, owned);
    } else {
      KeepAll(lines, LineKey, VisibleTo(cfg, users, uid));
    }
    KeepLines(display, rows, VisibleTo(cfg, users, uid));
    SortLines(display, own);
    result := Some(StableSort(lines, LineKey));
  }

  lemma {:induction false} KeepSame<T>(rows: seq<T>, key: T -> Key, kept1: string -> bool, kept2: string -> bool)
    requires forall m :: kept1(m) == kept2(m)
    ensures Keep(rows, key, kept1) == Keep(rows, key, kept2)
  {
    if rows != [] {
      KeepSame(rows[1..], key, kept1, kept2);
    }
  }

  lemma {:induction false} KeepAll<T>(rows: seq<T>, key: T -> Key, kept: string -> bool)
    requires forall m :: kept(m)
    ensures Keep(rows, key, kept) == rows
  {
    if rows != [] {
      KeepAll(rows[1..], key, kept);
    }
  }

  lemma KeptIsListing(sha: Sha, cfg: Config, users: Users, uid: nat, filter: Option<string>, rows: seq<Row>)
    requires Gathered(sha, cfg, cfg.mailboxes.Keys, Wanted(filter), rows)
    ensures IsListing(sha, cfg, WantedAndVisible(filter, cfg, users, uid),
              StableSort(Keep(rows, RowKey, VisibleTo(cfg, users, uid)), RowKey))
  {
    hide EffectiveName, StableSort, WithKey, Sorted, IsVisible;
    var own := Keep(rows, RowKey, VisibleTo(cfg, users, uid));
    SortIsStable(own, RowKey);
    forall k
      ensures WithKey(own, RowKey, k) == Expected(sha, cfg, WantedAndVisible(filter, cfg, users, uid), k)
    {
      KeepWithKey(rows, RowKey, VisibleTo(cfg, users, uid), k);
    }
  }

  /** What the command line makes of the daemon's rows. */
  function ViaDaemon(display: Display, rows: seq<Row>, filter: Option<string>): seq<Line> {
    Lines(display, Keep(rows, RowKey, Wanted(filter)))
  }

  /** Both listings show the same lines, for every configuration, caller and filter. */
  lemma ListingsAgree(sha: Sha, cfg: Config, users: Users, uid: nat, filter: Option<string>, display: Display,
                      daemon: seq<Row>, local: seq<Row>)
    requires IsListing(sha, cfg, VisibleTo(cfg, users, uid), daemon)
    requires IsListing(sha, cfg, WantedAndVisible(filter, cfg, users, uid), local)
    ensures Lines(display, local) == ViaDaemon(display, daemon, filter)
    ensures filter.Some? && filter.value !in cfg.mailboxes ==> ViaDaemon(display, daemon, filter) == []
  {
    hide EffectiveName, Sorted, IsVisible, WithKey;
    var picked := Keep(daemon, RowKey, Wanted(filter));
    KeepSorted(daemon, RowKey, Wanted(filter));
    forall k
      ensures WithKey(picked, RowKey, k) == Expected(sha, cfg, WantedAndVisible(filter, cfg, users, uid), k)
    {
      KeepWithKey(daemon, RowKey, Wanted(filter), k);
      assert WithKey(daemon, RowKey, k) == Expected(sha, cfg, VisibleTo(cfg, users, uid), k);
    }
    ListingIsUnique(sha, cfg, WantedAndVisible(filter, cfg, users, uid), picked, local);
    if filter.Some? && filter.value !in cfg.mailboxes && picked != [] {
      WithKeyMembers(picked, RowKey, RowKey(picked[0]), picked[0]);
    }
  }
}
