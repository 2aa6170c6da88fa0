# Verified model of the aimx mail daemon

aimx receives mail over SMTP, stores each message as a Markdown file in a mailbox directory, and
runs hooks. This project models the parts of it where several operations have to agree, and proves
what they promise together. It is checked with `dafny verify dfyconfig.toml` (Dafny 4.11).

* **Message-Id dedup** (`TtlCache`, `DedupRebuild`, `DedupProtocol`, `DedupSafety`, `IngestSection`,
  `DedupScenarios`). Any number of deliveries race for one lock per mailbox; the cache of seen ids
  is built on first use from those stored files that can be read, is lost in a restart, refuses
  inserts when full, and writes fail. `Reachable` states allow expired keys to be found or cleared
  at any time; `Attainable` ones, which are among them (`DedupProtocol.AttainableIsReachable`), are
  those that the code's own lookups and inserts lead to. Time is counted in ticks, `unit` ticks to
  the second, so that both whole-second and finer clocks are covered. `Window(unit)` is what
  whole-second truncation leaves of the 24 hours.
* **Stored headers** (`Frontmatter`, `FrontmatterReadBack`). The printer of a message header and the
  hand-written reader that the cache rebuild applies to it, for every header and body, for files cut
  short, and for the ways in which TOML can write a value. The dedup modules know a stored file by
  what this reader returns for it (`readAs`), which may be nothing, the truth, or another id.
* **Civil dates** (`CivilDate`, `DateText`). The day-number conversion of the build script, against
  a calendar stepped day by day. The dedup file-name filter relies on it.
* **Attachments** (`AttachmentNames`, `AttachmentStore`, `FileNames`). The file-name sanitiser, the
  searches for free names, and the write loop.
* **Hooks in the configuration** (`HookNames`, `HookConfig`, `HookDaemon`, `HookListing`). The
  validator, the bytes that name an unnamed hook, the daemon's handlers and the command line's
  direct edits, and both listings. `HookSteps` ties the handlers to the protocol below.
* **Configuration edits as a protocol** (`HookProtocol`, `HookSafety`, `HookScenarios`). Hook and
  mailbox requests, reloads, failing writes, edits of the file by hand and restarts, interleaved
  step by step.
* **Lock order** (`LockOrder`), **mailbox directories** (`MailboxLayout`), **shell quoting**
  (`ShellQuote`) and the **recipe rewriter** (`Recipe`).

Maps that the source walks in hash order are walked here in an arbitrary order. SHA-256, Unicode
normalisation, the TOML, JSON and RFC 3339 routines, the resolution of user names and the
authorisation test are parameters, so that what is proved holds for any of them; where something
is asked of such a parameter it stands in a `requires`. What the environment decides (which write
fails, in which order a directory is listed, when a process dies) is a parameter or a choice.

## Where code and comments disagree

The model follows the code. Each point is a theorem.

* A restart is said not to extend the dedup window (`src/ingest.rs:608-612`). It does, exactly when
  less than a second is left, or when the insert comes later after the clock was sampled than the
  fraction of a second cut off makes up for (`DedupRebuild.ExpiryBounds`).
* The cache is said to be rebuilt from the files on disk (`src/mailbox_locks.rs:47-48`). When the
  directory or a file cannot be read the rebuild goes on without it, and the result stays: a retry
  is then stored again at any moment of its window (`DedupScenarios.FailedScanLetsDuplicateIn`). The
  promise holds for each check by a cache that missed no earlier copy
  (`DedupSafety.NoDuplicateInWindow`, `DedupSafety.DoubtHasCause`).
* Entries are said to go after 24 hours (`src/mailbox_locks.rs:45`). Without a restart an id is
  accepted again only once another message has been recorded after that time
  (`IngestSection.AcceptedAgainIff`).
* An `Ok` should mean stored or already stored. Two kinds of file make it mean less, and without
  them it holds (`DedupSafety.NoMailIsLost`, `DedupSafety.NextCheckSwallowsIff`). A failed write can
  leave a truncated file whose header still reads; after a restart it absorbs the retry, and no
  whole copy exists (`DedupScenarios.LeftoverSwallowsRetry`). A stored message can read as another
  id: an id with characters that TOML escapes, printed as a basic string, is read in its escaped
  form (`IngestSection.EscapedIdIsMisread`), and after a restart a genuine message whose id is that
  text is taken for a duplicate (`DedupScenarios.MisreadSwallowsMail`).
* The rebuilt expiry of an id is that of its entry listed last. In whole seconds this shortens the
  24 hours exactly when that entry is older than the latest by more than its insert was late
  (`DedupRebuild.WholeWindowIff`). It takes a truncated or misread file
  (`DedupScenarios.LeftoverShortensWindow`, `DedupSafety.NoDuplicateInWholeSeconds`); on a finer
  clock the directory order is enough (`DedupScenarios.DirectoryOrderLetsDuplicateIn`,
  `DedupRebuild.RebuildOrderMatters`).
* The comment on the reader (`src/ingest.rs:742-747`) says that values in other forms give the wrong
  answer or none. Which one: `FrontmatterReadBack.BasicStringReads`, `LiteralStringIsNotRead`,
  `MultiLineStringReadsEmpty`. A value printed over several lines can also give the message another
  time of receipt (`FrontmatterReadBack.SecondLineSetsTime`).
* The separator byte 0x1F is said never to occur in a hook's arguments (`src/hook.rs:199-200`). TOML
  and JSON both have escapes for it, and then two different hooks hash alike
  (`HookNames.SeparatorBreaksInjectivity`).
* Taking the config lock first is said to deadlock (`src/mailbox_locks.rs:34-37`). If all do it,
  nothing can deadlock; mixing both orders can (`LockOrder.InverseAloneIsFine`,
  `LockOrder.MixedOrdersDeadlock`).
* A config reload (`src/serve.rs:364-385`) stores outside the config lock, so an acknowledged
  request can vanish (`HookScenarios.ReloadLosesUpdate`). What is written into the file by hand
  vanishes with the next request unless it was reloaded (`HookScenarios.HandEditIsLost`). Such
  events part memory and file; some promises of `HookSafety` are silent from there until both are
  together again (`HookSafety.EditsLinearise`, `HookSafety.ReloadStartsEpoch`), the others are for
  every run.
* The catchall check of a create is said to keep hooks off the catchall even when the configuration
  has just changed (`src/hook_handler.rs:83-86`). It is made before the locks and not under them: if
  the mailbox is made the catchall meanwhile and the file is reloaded, the create is answered Ok and
  leaves a file that does not load (`HookScenarios.HookLandsOnCatchall`,
  `HookSafety.EditSpoilsIff`).
* A mailbox that the daemon deletes is said to be empty by then (`src/mailbox_handler.rs:563-565`).
  It is but for entries that the count could not list; a directory that cannot be read counts as
  empty (`MailboxLayout.DeleteMeans`).
* The direct hook creation does not repeat the catchall check (`src/hooks.rs:568-583`) and then
  leaves a file that does not load (`HookDaemon.CreatePathsAgree`).
* A forced mailbox delete is said to have no window in which mail is lost while the mailbox stays
  (`src/mailbox_handler.rs:524-530`). The wipe comes before the save, so there is one
  (`MailboxLayout.ForcedDeleteCanEmpty`).
* The header reader's second closing delimiter can never be found
  (`Frontmatter.FallbackDelimiterIsDead`).

## Model

| member | source | states |
|---|---|---|
| DedupSafety.NoDuplicateInWindow | src/ingest.rs:325-536 | In every run of concurrent deliveries, failures, rebuilds that read any part of the directory, rewritten and deleted files, and restarts: of two whole copies of an id, the later was checked at least a window after the earlier was received, unless since the earlier was stored the cache that served the check had a refused insert of the id, or was rebuilt without reading a whole live message of the id as written or with an older entry deciding |
| DedupSafety.DoubtHasCause | src/ingest.rs:514-669 | A check has doubts only about an id of which an insert was refused, an older entry decided in a rebuild, or a rebuild did not read a whole live message as it was written |
| DedupProtocol.UnsureMeans | src/ingest.rs:613-669 | A rebuild is unsure of an id exactly when an insert of it was refused, the entry of it that was read last is not its newest, or some whole live message of it was not visited or does not read as written |
| DedupSafety.NoDuplicateInWholeSeconds | src/ingest.rs:366-382 | On a whole-second clock that window is the full 24 hours; there no directory order matters: without the condition on the check it holds for an id that no truncated or misread file speaks for, every copy of which reads as written, and of which no insert was refused and no live message missed |
| DedupSafety.CopiesAreOrdered | src/ingest.rs:346-347 | Two whole copies in one mailbox are never the same delivery, so the statements above cover every pair |
| DedupSafety.NoMailIsLost | src/ingest.rs:366-534 | A delivery answered Ok stored its own whole copy, or was absorbed by an id that another delivery to that mailbox stored whole, unless a truncated or misread file speaks for that id; a failed one stored nothing |
| DedupSafety.NextCheckSwallowsIff | src/ingest.rs:366-382 | In every run: a check that builds the cache can take an id that nobody delivered for a duplicate exactly when a truncated or misread file in the directory loads as that id |
| DedupSafety.CacheHoldsDeliveredIds | src/ingest.rs:462-534 | Every cached id was delivered whole, unless a truncated or misread file speaks for it |
| DedupSafety.StepKeeps | src/ingest.rs:346-536 | Every single step of any delivery, the clock, a rewritten or deleted file or a restart keeps the invariant from which the promises follow |
| DedupSafety.RebuildCovers | src/ingest.rs:613-669 | Whatever part of the directory a rebuild reads, it remembers for its window each copy of an id that is not refused, every whole live message of which it read as written, and whose latest entry decides |
| IngestSection.MailboxLocks.LockFor | src/mailbox_locks.rs:120-128 | One state for a mailbox name, made on first use, the same ever after, and different from those of other names |
| IngestSection.Inbox.IsDuplicate | src/ingest.rs:366-382 | An id is found exactly when it is in the cache, which stays as it is if there was one. Otherwise it is built: then an id that is not refused is found only if an entry of the listing opens and reads live as it, and it is found until the last such entry expires; nothing is found without a listing. For the protocol this is its check step |
| IngestSection.Inbox.WriteMail | src/ingest.rs:462-471 | A write that works puts exactly the whole text under its name and leaves the other files; one that breaks leaves all files, or one with what has reached the disk. For the protocol this is the write or fail step, the file being known by what the reader returns for it |
| IngestSection.Inbox.RecordId | src/ingest.rs:501-534 | Afterwards the id is in the cache for 24 hours from then, or the cache is full of others; for the protocol this is its record step, a refusal included |
| IngestSection.Inbox.Deliver | src/ingest.rs:346-536 | A whole critical section. Stored: the files are the old ones and exactly the whole printed message; Absorbed: they are the old ones; Failed: at most what the broken write left is new. It is absorbed exactly when its id was in the cache, or, after a start, as the listing says (an entry opens and reads live as it; until the last one expires that is enough). A stored id is then cached for 24 hours or the cache is full. The mailbox goes where the protocol's steps take it |
| IngestSection.DeliveryKeeps | src/ingest.rs:346-536 | So the statements of one delivery keep the protocol's invariant, whatever fails |
| IngestSection.AcceptedAgainIff | src/ingest.rs:372-532 | After an id and then another message were stored, the next copy of the id is absorbed exactly when the other message was recorded less than 24 hours after it |
| IngestSection.StoredIsNoFaultIff | src/ingest.rs:691-738 | A stored message with a header of single lines adds no fault exactly when its id is printed as it is and the readable head reaches the end of the header |
| IngestSection.EscapedIdIsMisread | src/ingest.rs:744-756 | An id with escaped characters, printed as a basic string, makes its message unreadable under its own id and misread as the escaped one |
| IngestSection.CutMessageReads | src/ingest.rs:407-411 | Whatever bytes of a plainly printed message a failed write leaves: they read as that message exactly when the readable head is text and reaches the end of the header, and not at all otherwise |
| TtlCache.LookupMeans | src/ingest.rs:372-373 | After any history of inserts a lookup finds a key exactly from its last accepted insert until the first insert of any key after its time, so a live key always and an expired one perhaps |
| TtlCache.ForgottenIff | src/ingest.rs:372-373 | While other keys are inserted, a key is found until the first of those inserts at its time or later |
| TtlCache.TtlCache.SetWithTtl | src/ingest.rs:514-532 | An insert clears what has expired and is refused exactly when the time is too long or the cache is full and the key new |
| TtlCache.InsertedKey | src/ingest.rs:514-532 | After an insert of a legal time the key has that time, or the cache is full of others |
| TtlCache.OtherKeys | src/ingest.rs:514-532 | Of the other keys those whose time has not come stay as they are and the rest goes |
| DedupRebuild.LoadEntry | src/ingest.rs:625-667 | One turn of the scan inserts the id that the reader returns for a file that could be read, is not too old by name and still live, at the moment of that insert, and else nothing |
| DedupRebuild.BuildDedupCacheFromDisk | src/ingest.rs:613-669 | Whatever a listing gives: an id in the cache has the expiry of the last entry that opens and reads live as it, and an id with such an entry is there unless that expiry has passed by the last insert; this is for ids that are not refused, which are all ids where the listing is within the item cap and no header speaks of the future. Without a listing the cache is empty |
| DedupRebuild.VisitsAreOpenings | src/ingest.rs:620-653 | What a scan visits is exactly the entries that open, in the order of the listing and each at its own moment |
| DedupRebuild.RebuiltFromListing | src/ingest.rs:613-669 | The cache of those visits is what the last entries of the listing say, as above |
| DedupRebuild.NewestLastCovers | src/ingest.rs:654-666 | If the newest live entry of an id is the last one, its expiry lies behind the window of each |
| DedupRebuild.RebuiltIsLastLoaded | src/ingest.rs:627-667 | The rebuilt cache holds exactly the ids that are loaded, not refused and whose time has not come by the last insert, each with the expiry of the last entry read |
| DedupRebuild.RebuildIsComplete | src/ingest.rs:615-667 | Every message that reads as written, is inside the window and is read by the scan is remembered to the end of its window, if its id is not refused and its latest entry decides |
| DedupRebuild.WholeWindowIff | src/ingest.rs:654-666 | In whole seconds, a rebuild covers all entries of an id that it read for 24 hours exactly when the entry that decides is older than the latest by no more than its insert came after the clock was sampled |
| DedupRebuild.PrefixFilterKeepsLive | src/ingest.rs:633-638 | The file-name filter never drops a live message, as the name is dated after `received_at` |
| DedupRebuild.TooOldMeans | src/ingest.rs:633-640 | It drops a dated name exactly when its date is before the calendar day of 24 hours ago, and no shorter name |
| DedupRebuild.ExpiryBounds | src/ingest.rs:615-666 | A rebuilt entry is less than a second early, and late by less than a second more than the insert came after the clock was sampled; it is late exactly when less than a second was left or that delay exceeds the fraction cut off |
| DedupRebuild.RebuildOrderMatters | src/ingest.rs:627-667 | With all inserts at one moment, the listing order makes a difference exactly when two loaded entries of one id have different whole seconds left |
| DedupRebuild.RebuildLosesNothing | src/ingest.rs:648-667 | All rebuilt ids belong to whole messages exactly when no truncated or misread file brings in, to stay, an id without a whole message beside it |
| DedupRebuild.SmallDirectoryFits | src/ingest.rs:60-60 | No rebuild insert is refused for a directory within the item cap whose headers do not speak of the future |
| DedupRebuild.RefusalsMean | src/ingest.rs:662-666 | An id is refused exactly when some visit loads it and the cache of the visits before does not accept it |
| DedupScenarios.LeftoverSwallowsRetry | src/ingest.rs:407-411 | For every header with a plainly printed id and every cut of its message whose head reaches the end of the header, the code can come to absorb the retry with no whole copy of its id ever stored; the truncated file is the only fault |
| DedupScenarios.MisreadSwallowsMail | src/ingest.rs:744-756 | For every header whose id is printed with escapes, the code can come to absorb a genuine message whose id is the escaped text by the whole message with that header, with no failed write anywhere |
| DedupScenarios.LeftoverShortensWindow | src/ingest.rs:660-666 | On a whole-second clock, the code can store two copies less than 24 hours apart, where a truncated file decided in a rebuild and no file was missed |
| DedupScenarios.DirectoryOrderLetsDuplicateIn | src/ingest.rs:660-666 | With two ticks to the second, the code can check and store a copy one second after another was received, with no file left over and none missed |
| DedupScenarios.FailedScanLetsDuplicateIn | src/ingest.rs:621-624 | For any id and any moment of its window, the code can store a second copy at that moment when the directory could not be read after a restart |
| FrontmatterReadBack.FormatFrontmatter | src/frontmatter.rs:336-349 | What the printer writes ends, for every header, in the blank line behind the delimiter and the body, with a newline exactly if it had none at its end. With values on single lines it falls apart into what went in: its header lines are `key = value` for each field in order and then the rest, each key assigns its own field, and behind the delimiter stands the body. The reader returns what the header says when the readable head reaches its end, and nothing otherwise |
| FrontmatterReadBack.FileFallsApart | src/frontmatter.rs:336-349 | With values on single lines: the lines between the delimiters are those of the fields and the rest, and what follows is a blank line and the body |
| FrontmatterReadBack.FieldReadsBack | src/frontmatter.rs:336-349 | There the first line that assigns to a key assigns its field |
| FrontmatterReadBack.ReachesIff | src/ingest.rs:691-704 | There the readable head reaches the end of the header exactly when header and delimiters have at most 16 KiB and no character lies across the end of the head |
| Frontmatter.HeadMeans | src/ingest.rs:693-696 | The head is the prefix of 16 KiB, or the whole shorter text; there is none exactly when a character lies across that boundary |
| Frontmatter.ReadFrontmatterIdPair | src/ingest.rs:691-738 | The reader's loop gives the first `message_id` and `received_at` of the header block of a readable head |
| FrontmatterReadBack.ReadBack | src/ingest.rs:691-738 | For every header, body and way of printing values: the reader returns the first id and time that lines of the shown header give, when the readable 16 KiB head reaches its end, and nothing otherwise |
| FrontmatterReadBack.PrefixReads | src/ingest.rs:691-738 | The same for a file that was written up to any byte |
| FrontmatterReadBack.ReadsTrueIff | src/ingest.rs:691-756 | With values on single lines, the true pair is read back exactly when the head reaches the end of the header and the id is printed between quotes as it is |
| FrontmatterReadBack.OneLineTold | src/ingest.rs:706-728 | With values on single lines, the header says what stands behind its two keys, escaped or not |
| FrontmatterReadBack.ScanIsFirst | src/ingest.rs:707-725 | One scan for both keys finds, for each, the first line that gives it a value |
| FrontmatterReadBack.CrLfReads | src/ingest.rs:698-709 | Lines and delimiters that end in CR LF read as those that end in LF |
| FrontmatterReadBack.BasicStringReads | src/ingest.rs:740-756 | Of a basic TOML string the reader returns the escaped text, so the value itself exactly when nothing in it is escaped |
| FrontmatterReadBack.LiteralStringIsNotRead | src/ingest.rs:735-756 | A literal TOML string is never read |
| FrontmatterReadBack.SecondLineSetsTime | src/ingest.rs:706-725 | A value printed over two lines, the second like a receipt, gives its own time to the message |
| Frontmatter.ParseMeans | src/ingest.rs:750-756 | A value is read back exactly when it was printed between double quotes and contains none |
| FrontmatterReadBack.HeaderOfHead | src/ingest.rs:697-704 | From any head of a printed text the shown header is taken exactly when the head reaches the delimiter behind it |
| Frontmatter.FallbackDelimiterIsDead | src/ingest.rs:701-703 | Where the first delimiter is missing, so is the second |
| CivilDate.CivilFromDays | build.rs:64-78 | Every unsigned subtraction stays non-negative, and the result is a valid date, for every integer day |
| CivilDate.CivilIsCalendar | build.rs:64-78 | The conversion equals stepping the Gregorian calendar day by day from 1970-01-01, for every integer |
| CivilDate.DaysRoundTrip | build.rs:64-78 | Day number to date and back is the identity |
| CivilDate.CivilRoundTrip | build.rs:64-78 | Date to day number and back is the identity, for every valid date |
| CivilDate.YearOfEraBrackets | build.rs:70-72 | The division chain finds the year of the era that contains the day, between 0 and 399 |
| CivilDate.CivilIsMonotone | build.rs:64-78 | An earlier day has an earlier date |
| DateText.DateOrderIsTextOrder | src/ingest.rs:629-638 | For four-digit years, comparing printed dates byte by byte compares the dates |
| DateText.FormatDateReads | src/ingest.rs:618-618 | A printed date reads as its year, month and day, in four, two and two digits with dashes between |
| AttachmentNames.SanitizeAttachmentFilename | src/ingest.rs:1144-1201 | The passes and loops of the sanitiser compute `Sanitized` |
| AttachmentNames.SanitizedIsSafe | src/ingest.rs:1144-1225 | A sanitised name is not empty, has no separator, control, bidi or invisible character (by code point), no trimmed character at an end, at most 200 bytes, and stays in its directory |
| AttachmentNames.SanitizedIsFixed | src/ingest.rs:1144-1201 | Sanitising a sanitised name changes nothing, once it is normalised |
| AttachmentNames.GoodNameIsKept | src/ingest.rs:1144-1201 | A normalised name of at most 200 bytes with no unsafe character and no trimmed one at an end is kept as it is |
| AttachmentNames.EmptyNameIsNumbered | src/ingest.rs:1196-1198 | A name with nothing to keep becomes `attachment-` and the index |
| AttachmentNames.FileNameMeans | src/ingest.rs:1151-1154 | The name taken from a path is its last component that is neither empty nor `.`; there is none if that is `..` or there is no such component |
| AttachmentNames.FallbackIff | src/ingest.rs:1179-1200 | The fallback is used exactly when the name has nothing but unsafe and trimmed characters; the byte cap never causes it |
| AttachmentNames.CollapseKeepsLetters | src/ingest.rs:1161-1173 | Collapsing keeps all safe characters in order and makes no run of underscores |
| AttachmentNames.CutIsPrefix | src/ingest.rs:1184-1189 | The cut keeps the longest prefix of whole characters that fits |
| AttachmentNames.CapBytes | src/ingest.rs:1183-1194 | The boundary loop finds that cut |
| AttachmentStore.DeduplicateFilename | src/ingest.rs:1257-1279 | The unbounded search ends in every directory. A free name is kept; otherwise the answer is the name with the least number that makes it free, before the extension if it has one |
| AttachmentStore.FreeNameMeans | src/ingest.rs:1257-1279 | The name is unchanged if free; otherwise its number, which stands behind the stem, is the least free one and at most the number of files, which bounds the length |
| AttachmentStore.CandidateMeans | src/ingest.rs:1262-1275 | Number i of `stem.ext` is `stem-i.ext`, of a name without a dot, or with only one in front, `name-i` |
| AttachmentStore.Pigeonhole | src/ingest.rs:1268-1276 | As many suffixes can be taken as there are files besides the first |
| AttachmentStore.StoredNameIsBounded | src/ingest.rs:1120-1279 | A sanitised name is stored under at most 200 + 1 + digits bytes and stays in its directory |
| AttachmentStore.Bundle.WriteAttachments | src/ingest.rs:1227-1255 | With n attachments there are n new files under different names, no file is overwritten, and the k-th path reads back the k-th body; on failure too, old files are untouched |
| AttachmentStore.StoredNamesAreNew | src/ingest.rs:1234-1251 | The stored names are pairwise different and none was there before, for any list of names |
| AttachmentStore.StoredNamesAreNumbered | src/ingest.rs:1234-1235 | Each attachment keeps its name if that is free when its turn comes, and gets the least free number otherwise |
| AttachmentStore.Bundle.WriteMarkdown | src/ingest.rs:1281-1293 | The message is written last and never over an existing file |
| AttachmentStore.WriteBundle | src/ingest.rs:403-471 | A bundle with all attachments and the message is stored exactly when every write works and no attachment was stored under the message's name; otherwise it is removed again, but for what cannot be removed |
| FileNames.AllocateFilename | src/slug.rs:78-109 | The search ends within one more than the number of files; the stem is the base, or the base with the least number from 2 on, for which file and bundle names are both free |
| HookNames.FeedHasher | src/hook.rs:211-222 | The hash is fed the UTF-8 of event, arguments and flag byte with U+001F between them |
| HookNames.DeriveHookName | src/hook.rs:211-231 | The name is, for each of the first six bytes of the hash of that, its higher and its lower hexadecimal digit |
| HookNames.EncodeMeans | src/hook.rs:211-222 | The bytes of a character are its row of the table in section 3 of RFC 3629 |
| HookNames.PreimageInjective | src/hook.rs:197-222 | Without U+001F in an argument, the hashed bytes determine event, arguments and flag |
| HookNames.PreimageCollision | src/hook.rs:197-222 | In general they are equal exactly when event, flag and the pieces between separators are |
| HookNames.SeparatorBreaksInjectivity | src/hook.rs:199-203 | One argument with the separator hashes like two without, for any two |
| HookNames.DerivedNameIsValid | src/hook.rs:204-205 | A derived name has 12 characters and is a legal hook name |
| HookNames.HookNameMeans | src/hook.rs:181-195 | A hook name is legal when it has 1 to 128 letters, digits, `_`, `.` and `-` and starts with neither of the last two |
| HookConfig.ValidateHooks | src/config.rs:676-768 | The validator accepts exactly the configurations whose hooks can all be run and of which no two answer to one name: an explicit name, or the derived one of a hook without |
| HookConfig.LoadableMeans | src/config.rs:653-768 | A configuration loads exactly when that holds and no hook is on a mailbox whose address is `*@` and the domain, in any case |
| HookConfig.AloneIsValid | src/config.rs:676-817 | The check of one hook and the check of a configuration, which are written twice, agree: a hook passes the first exactly when, alone, it passes the second, and both say that it has a legal name, an absolute program, the one kind, a timeout within bounds, and fires on untrusted mail only on receipt |
| HookConfig.FindHookOwner | src/hook_handler.rs:366-375 | Finds a mailbox with a hook that answers to the name, by its own name or, if it has none, by the derived one, or there is no such hook |
| HookConfig.OwnerIsUnique | src/hook_handler.rs:366-375 | With unique names the answer does not depend on the order of the map |
| HookConfig.PushIsValid | src/hook_handler.rs:182-189 | After a push everything is valid exactly when it was before, the hook is valid and its name is new |
| HookConfig.RemoveCutsOne | src/hook_handler.rs:276-277 | Retaining all other names cuts out exactly one hook |
| HookConfig.RemoveSplices | src/hook_handler.rs:276-277 | In the hooks' own terms: the list of the mailbox loses the place of the hook that answers to the name, and all else stays |
| HookConfig.RetainIsFilter | src/hook_handler.rs:276-277 | Of any list a retain takes out the hooks that answer to the name and keeps the others in order |
| HookConfig.RemoveKeepsValid | src/hook_handler.rs:264-284 | It leaves no hook of that name anywhere and keeps the configuration valid |
| HookConfig.CreateThenDelete | src/hook_handler.rs:182-277 | Creating and deleting a hook restores the configuration, order included |
| HookConfig.CreatedIsNotCatchall | src/mailbox.rs:159-188 | A mailbox with an accepted name is never the catchall |
| HookConfig.CatchallMeans | src/config.rs:332-335 | A mailbox is the catchall exactly when its address has the characters `*@` and then those of the domain, each up to the case of an ASCII letter |
| HookConfig.MailboxNameMeans | src/mailbox.rs:159-188 | A mailbox name is legal when it is not reserved and has lower-case letters, digits, `_`, `-`, and dots none of which is at an end or beside another |
| HookDaemon.Daemon.HandleHookCreate | src/hook_handler.rs:55-209 | Every answer exactly: Denied without permission, OnCatchall on a mailbox of the snapshot whose address is `*@` and the domain in any case, Enoent where the mailbox is missing before or under the locks, Io when only the write fails, Validation for what else is wrong, Ok when the hook can be run, clashes with none and the write works. Then file and memory are the old memory with the hook behind the others of its mailbox, which is the edit of the protocol; otherwise both are unchanged |
| HookDaemon.Daemon.HandleHookDelete | src/hook_handler.rs:211-304 | For a snapshot in which no two hooks answer to one name: Ok exactly when a permitted mailbox has, there and in memory, a hook that answers to the name, by its own name or, if it has none, by the derived one, and the write works; a hook of someone else and no hook give the same answer. Then file and memory are the old memory without that one place, which is the edit of the protocol; otherwise both are unchanged |
| HookDaemon.ApplyCreateDirect | src/hooks.rs:568-583 | The direct create writes the configuration with the hook behind the others exactly when all hooks can then be run and none clash, and else leaves the file |
| HookDaemon.ApplyDeleteDirect | src/hooks.rs:585-603 | The direct delete writes the configuration without that name anywhere, of a valid one without the one hook that answers to it, if there is one, and else leaves the file |
| HookDaemon.CreatePathsAgree | src/hooks.rs:568-583 | Direct and daemon create agree exactly off the catchall, where the direct result does not load |
| HookDaemon.DeletePathsAgree | src/hooks.rs:585-603 | Removing everywhere is removing from one mailbox exactly when no other has the name |
| HookDaemon.DirectDeleteCutsOne | src/hooks.rs:585-603 | On a valid configuration both deletes cut out the same one hook and leave it valid |
| HookListing.CollectRows | src/hook_list_handler.rs:73-99 | The listing has exactly the hooks of the mailboxes that the caller may see, root all and others those whose owner is the caller, each with its name, mailbox, event, arguments, flag and timeout, by mailbox, event and name |
| HookListing.ListLocal | src/hooks.rs:72-97 | The local listing has exactly the hooks of what is asked for and visible, in the same order, each as its line; it is an error exactly when the filter mailbox does not exist |
| HookListing.ListingIsUnique | src/hook_list_handler.rs:70-99 | A configuration has one listing for a caller, whatever the order of the map, even with repeated names |
| HookListing.ListingIsExact | src/hook_list_handler.rs:73-92 | It lists exactly the hooks of the visible mailboxes |
| HookListing.ListingCounts | src/hook_list_handler.rs:73-92 | It has each row as often as the mailbox has such a hook |
| HookListing.ListingIsStrict | src/hook_list_handler.rs:93-98 | With unique names its order is strict |
| HookListing.ListingsAgree | src/hooks.rs:105-135 | The local listing is the projection of the daemon's filtered rows, for every configuration, caller and filter |
| HookListing.SortIsStable | src/hook_list_handler.rs:93-98 | The sort orders by key and keeps the rows of each key in their order |
| HookSafety.StepKeeps | src/hook_handler.rs:158-199 | Every step of any request, reload, edit by hand or restart keeps the invariant |
| HookSafety.EditsLinearise | src/hook_handler.rs:158-293 | In every run, since memory and file were last together (the epoch): the file is the replay of edits that the sequential system accepts, each made to what the edits before it give, and memory equals file whenever the config lock is free. After they have parted an epoch begins as soon as they hold the same loadable configuration, no edit is under way, and no create or reload under way was overtaken by what the file holds |
| HookSafety.EpochLasts | src/serve.rs:364-385 | Only a reload that stores an outdated configuration and a change of the file by hand end an epoch |
| HookSafety.ReloadStartsEpoch | src/serve.rs:355-385 | A reload that reads the present file while no edit is under way and nothing was overtaken, and every restart, leave memory and file together, and after a parting begin an epoch |
| HookSafety.AcknowledgedOnce | src/hook_handler.rs:167-293 | In every run, whatever reloads and edits by hand do: a request answered Ok is in the history exactly once, as the edit and on the mailbox it named; a refused or unanswered one is not, one lost in a restart at most once |
| HookSafety.RealTimeOrder | src/hook_handler.rs:158-199 | In every run, a request answered before another was made stands before it in the history |
| HookSteps.ServedBySteps | src/hook_handler.rs:158-199 | What a handler does once its checks are passed is a run of the protocol's steps: lock, edit, save, swap, unlock, or give up |
| HookSafety.ConfigStaysLoadable | src/config.rs:653-768 | In every run, whatever reloads and edits by hand do: the hooks in memory are valid and have unique names, and so have those in the file unless it was last written by hand. Within an epoch both are also free of hooks on the catchall |
| HookSafety.EditSpoilsIff | src/hook_handler.rs:83-189 | In every run: an edit makes a loadable configuration unloadable exactly when it adds a hook to a mailbox that is the catchall by then |
| HookSafety.DeleteRemovesExactlyOne | src/hook_handler.rs:264-293 | In every run, each delete that reached the file cut out one hook of the configuration in memory, and left none of that name in any mailbox |
| HookSafety.FileIsLastEdit | src/hook_handler.rs:190-199 | In every run, the file is what the last edit made of the configuration in memory, unless it was written by hand since |
| HookSafety.ReloadIsSafeIff | src/serve.rs:364-385 | In every run, a reload leaves memory and file together exactly when the file it read is still the file, or when a save that is still in the file is about to replace what it puts into memory |
| HookProtocol.LegalEdit | src/config.rs:653-768 | Each edit that the sequential system accepts keeps a loadable configuration loadable and does just what it says: one hook at the end of a list, one cut out, one empty mailbox under its address, or one mailbox less |
| HookProtocol.LegalMeans | src/config.rs:653-768 | What the sequential system asks of an edit, in the hooks' own terms |
| HookProtocol.AcceptedEdit | src/hook_handler.rs:182-284 | What the handlers check under their locks is enough to keep valid hooks valid, and for each edit to do just what it says; a delete cuts out exactly one |
| HookProtocol.AcceptedMeans | src/hook_handler.rs:170-284 | What the handlers check under their locks, in the hooks' own terms |
| HookScenarios.ReloadLosesUpdate | src/serve.rs:364-385 | For any two creates there is a run in which the first is answered Ok, is never deleted, and its hook is gone |
| HookScenarios.HandEditIsLost | src/hook_handler.rs:166-199 | Whatever was written into the file by hand and not reloaded, an acknowledged create replaces it by the configuration in memory with its hook |
| HookScenarios.HookLandsOnCatchall | src/hook_handler.rs:83-199 | For any hook and any loadable configuration that makes its mailbox the catchall there is a run, with that edit by hand and a reload between the check and the locks, in which the create is answered Ok and the file does not load |
| LockOrder.NoDeadlock | src/mailbox_locks.rs:16-37 | Threads that take locks in rising rank never block for good: while one is unfinished, one can run |
| LockOrder.DaemonNeverDeadlocks | src/mailbox_locks.rs:16-37 | Any number of messages to any number of recipients, hook requests, mailbox requests, marks, listings and reloads, each with the looks at the configuration it takes, have that property |
| LockOrder.ProgramsTake | src/mailbox_locks.rs:16-37 | Which locks each of them takes, in order |
| LockOrder.MutualExclusion | src/mailbox_locks.rs:16-37 | In every run no lock is held by two threads |
| LockOrder.StartedThreadsFinish | src/mailbox_locks.rs:20-32 | However they are scheduled, started threads have only so many steps to take, and when none is left to take all are at their end |
| LockOrder.MixedOrdersDeadlock | src/mailbox_locks.rs:34-37 | One thread in each order can block for good |
| LockOrder.InverseAloneIsFine | src/mailbox_locks.rs:34-37 | If all threads take the config lock first, none can |
| MailboxLayout.AlwaysWhole | src/mailbox.rs:190-357 | At every crash point of any sequence of creates and deletes, with any failures, each saved mailbox has both directories |
| MailboxLayout.MailIsKept | src/mailbox.rs:190-357 | A mailbox that nobody deletes keeps its entry and all its mail at every such point |
| MailboxLayout.StepsKeepOthers | src/mailbox.rs:206-236 | No file operation touches another registered mailbox; rollback never removes one's directories |
| MailboxLayout.DeleteSavesFirst | src/mailbox.rs:307-350 | A delete that is not forced touches no directory before the mailbox has left the saved configuration |
| MailboxLayout.ForcedDeleteCanEmpty | src/mailbox_handler.rs:524-562 | A forced delete whose wipe leaves nothing that counts and whose save fails leaves the mailbox registered and empty, but for entries the wipe did not see |
| MailboxLayout.DaemonCreateKeepsAll | src/mailbox_handler.rs:318-447 | The daemon's create removes no directory that was there before, not even an unregistered one |
| MailboxLayout.DirectCreateDropsInbox | src/mailbox.rs:204-236 | The direct create removes an unregistered inbox of its name exactly when its rollback runs to the end |
| MailboxLayout.CreateMeans | src/mailbox.rs:190-250 | A create adds one new mailbox, with the address of its name and the domain, its owner, no hooks and both directories, or leaves the configuration |
| MailboxLayout.DeleteMeans | src/mailbox_handler.rs:485-566 | A delete removes one mailbox, or leaves the configuration; the daemon's leaves nothing in either directory but what its count did not see |
| MailboxLayout.Store.CreateMailbox | src/mailbox.rs:190-250 | The statements go through exactly the listed disk states, and succeed exactly when every operation does; then the disk is the old one with that mailbox registered and both directories there |
| MailboxLayout.Store.DeleteMailbox | src/mailbox.rs:298-357 | The statements go through exactly the listed disk states; the mailbox has left the configuration or nothing has changed, and Ok means that both directories are gone and no other |
| MailboxLayout.Store.DaemonCreateMailbox | src/mailbox_handler.rs:318-447 | The statements of the daemon's create go through exactly the listed disk states, and succeed exactly when every operation does, with the same result; where its rollback is not disturbed a failed one leaves no trace |
| MailboxLayout.Store.DaemonDeleteMailbox | src/mailbox_handler.rs:493-566 | The statements of the daemon's delete, wipe and count included, go through exactly the listed disk states; Ok means that exactly this mailbox has left the saved configuration. Unforced it touches no directory, and works exactly when name, permission and save are right and nothing counts in either directory |
| ShellQuote.PosixSingleQuote | src/agents_setup.rs:430-443 | The loop gives the quoted form |
| ShellQuote.QuoteRoundTrip | src/agents_setup.rs:427-443 | Section 2.2 quote removal of the POSIX.1-2017 shell reads the quoted form of every string as that string, also inside a longer word |
| Recipe.RewriteRecipeDataDir | src/agents_setup.rs:1495-1543 | Ok exactly when there is an injection point, and then the output is the input with the two added lines in front of it |
| Recipe.RewrittenLines | src/agents_setup.rs:1514-1526 | The output's lines are the input's lines with exactly two in one place: `- --data-dir` and below it the quoted path, both as deep as the item behind them |
| Recipe.InArgsMeans | src/agents_setup.rs:1501-1531 | What an injection point is: an item after an `args:` line with only blank and indented lines between |
| Recipe.LineMeans | src/agents_setup.rs:1500-1530 | What an `args:` line, an item and a line that leaves the block are, character by character, with or without a newline |

## Left out

- Deliveries by the command-line `aimx ingest`, which has its own lock map: the dedup promises are for one process.
- The clock going backwards, and years after 9999.
- How MARK-READ and MARK-UNREAD rewrite a header: the dedup protocol has a step that writes a header anew and leaves open what the reader then makes of it.
- File systems that treat different names as equal.
- The code of the SparKV cache is not part of this model: `TtlCache` is its contract, and `DedupProtocol.Reachable` also allows expired entries to be cleared or found at other times.
- The values stored beside the ids in the dedup cache; only ids and times are used.
- A short read of the first 16 KiB, and file names shorter than or splitting a character at ten bytes: names are those the daemon writes.
- The parsing of HOOK-CREATE bodies and of command-line arguments: a request arrives as a hook.
- The choice that the TOML library makes between its kinds of strings; each kind is treated.
- FrontmatterReadBack.ReadsTrueIff: for headers whose values take one line each and whose other keys are not the two that are read, as all keys of a message are; `FrontmatterReadBack.ReadBack` has no such condition.
- FrontmatterReadBack.FileFallsApart: for headers whose values take one line each; of the others `FrontmatterReadBack.FormatFrontmatter` says that the file ends in delimiter, blank line and body.
- AttachmentNames.SanitizedIsFixed: asks that the result is normalised, because normalisation is a parameter.
- DedupSafety.NoMailIsLost: for ids that no truncated or misread file speaks for, because otherwise it is false (`DedupScenarios.LeftoverSwallowsRetry`, `DedupScenarios.MisreadSwallowsMail`).
- DedupSafety.NoDuplicateInWholeSeconds: for ids that no truncated or misread file speaks for, or checks without doubts, because otherwise it is false (`DedupScenarios.LeftoverShortensWindow`).
- HookSafety.EditsLinearise: says nothing from an outdated reload or a change of the file by hand until memory and file are together again, because there it is false (`HookScenarios.ReloadLosesUpdate`, `HookScenarios.HandEditIsLost`).
- HookSafety.ConfigStaysLoadable: the part about the catchall is for epochs, because otherwise it is false (`HookScenarios.HookLandsOnCatchall`).
- DedupSafety.NoDuplicateInWindow: for checks without one of the named doubts, because otherwise it is false (`DedupScenarios.FailedScanLetsDuplicateIn`, `DedupScenarios.DirectoryOrderLetsDuplicateIn`).
- The write of a message and its attachments is one step of the dedup protocol; what a bundle goes through is in `AttachmentStore`.
- `src/slug.rs:31-66`, the slug itself: `FileNames` takes any stem without a dot.
- Ownership and modes of files, beyond whether setting them fails.
- The other fields of a mailbox and of the configuration, and the other checks of loading it.
- SMTP, DNS, DKIM, MIME parsing, hook execution, sandboxing, and all user interface code.
- `format_stderr_tail` and `indent_block`.
