/** Storing a message with attachments: free names by bounded search, and a write loop
    that loses nothing. */
module AttachmentStore {
  import opened Text
  import opened AttachmentNames

  // ---- stem and extension ---------------------------------------------------------------

  /** The place of the last dot, or the length when there is none. */
  function LastDot(s: string): (i: nat)
    ensures i <= |s| && (i < |s| <==> '.' in s) && (i < |s| ==> s[i] == '.')
  {
    if s == [] then 0
    else if s[|s| - 1] == '.' then |s| - 1
    else
      var i := LastDot(s[..|s| - 1]);
      if i == |s| - 1 then |s| else i
  }

  /** Where the suffix goes: before the extension. A name that only starts with a dot has none. */
  function StemLength(name: string): (n: nat)
    ensures n <= |name|
  {
    var i := LastDot(name);
    if i == 0 then |name| else i
  }

  function Candidate(name: string, i: nat): string {
    name[..StemLength(name)] + "-" + Decimal(i) + name[StemLength(name)..]
  }

  /** The number stands behind the stem, before the extension if there is one. */
  predicate IsNumbered(name: string, i: nat, numbered: string) {
    && (forall d :: 0 < d < |name| && name[d] == '.' && '.' !in name[d + 1..] ==>
          numbered == name[..d] + "-" + Decimal(i) + "." + name[d + 1..])
    && ((forall d :: 0 < d < |name| ==> name[d] != '.') ==> numbered == name + "-" + Decimal(i))
  }

  lemma CandidateIsNumbered(name: string, i: nat)
    ensures IsNumbered(name, i, Candidate(name, i))
  {
    hide Decimal;
    var last := LastDot(name);
    LastDotIsLast(name);
    forall d | 0 < d < |name| && name[d] == '.' && '.' !in name[d + 1..]
      ensures d == last
      ensures name[d..] == "." + name[d + 1..]
    {
      InTail(name, d);
    }
    if forall d :: 0 < d < |name| ==> name[d] != '.' {
      assert StemLength(name) == |name|;
      assert name[..|name|] == name && name[|name|..] == "";
    }
  }

  lemma InTail(s: string, d: nat)
    requires d < |s|
    ensures forall k :: d < k < |s| ==> s[k] in s[d + 1..]
  {
    forall k | d < k < |s|
      ensures s[k] in s[d + 1..]
    {
      assert s[d + 1..][k - d - 1] == s[k];
    }
  }

  lemma {:induction false} LastDotIsLast(s: string)
    ensures forall i :: LastDot(s) < i < |s| ==> s[i] != '.'
  {
    if s != [] && s[|s| - 1] != '.' {
      LastDotIsLast(s[..|s| - 1]);
    }
  }

  /** So any name with an extension and any without get theirs. */
  lemma CandidateMeans(stem: string, extension: string, i: nat)
    requires '.' !in extension && stem != ""
    ensures Candidate(stem + "." + extension, i) == stem + "-" + Decimal(i) + "." + extension
    ensures '.' !in stem ==> Candidate(stem, i) == stem + "-" + Decimal(i)
    ensures Candidate("." + extension, i) == "." + extension + "-" + Decimal(i)
  {
    hide Candidate, Decimal;
    var name := stem + "." + extension;
    CandidateIsNumbered(name, i);
    assert name[..|stem|] == stem && name[|stem|] == '.' && name[|stem| + 1..] == extension;
    CandidateIsNumbered(stem, i);
    var hidden := "." + extension;
    CandidateIsNumbered(hidden, i);
    assert forall d :: 0 < d < |hidden| ==> hidden[d] == extension[d - 1];
  }

  lemma CandidatesDiffer(name: string, i: nat, j: nat)
    requires Candidate(name, i) == Candidate(name, j)
    ensures i == j
  {
    hide Decimal, StemLength;
    var n := StemLength(name);
    var a, b := Candidate(name, i), Candidate(name, j);
    assert a[n + 1..][..|Decimal(i)|] == Decimal(i) && b[n + 1..][..|Decimal(j)|] == Decimal(j);
    DecimalInjective(i, j);
  }

  lemma CandidateDiffersFromName(name: string, i: nat)
    ensures |Candidate(name, i)| > |name|
  {
  }

  lemma CandidateIsPlain(name: string, i: nat)
    requires IsPlain(name)
    ensures IsPlain(Candidate(name, i))
  {
    hide Decimal, StemLength;
    DecimalDigits(i);
    DecimalNonEmpty(i);
    assert '/' !in "-" && '/' !in Decimal(i);
    assert |Candidate(name, i)| >= 3;
  }

  // ---- the search ends ---------------------------------------------------------------------

  function Taken(name: string, i: nat): set<string> {
    if i == 0 then {name} else Taken(name, i - 1) + {Candidate(name, i)}
  }

  lemma {:induction false} TakenMembers(name: string, i: nat)
    ensures |Taken(name, i)| == i + 1
    ensures forall x :: x in Taken(name, i) <==> x == name || exists j :: 1 <= j <= i && x == Candidate(name, j)
  {
    hide Candidate;
    if i > 0 {
      TakenMembers(name, i - 1);
      forall j | 1 <= j <= i - 1
        ensures Candidate(name, j) != Candidate(name, i)
      {
        if Candidate(name, j) == Candidate(name, i) {
          CandidatesDiffer(name, j, i);
        }
      }
      CandidateDiffersFromName(name, i);
    }
  }

  /** `name` and its candidates below `i` are all in use. */
  predicate Occupied(dir: set<string>, name: string, i: nat) {
    name in dir && forall j :: 1 <= j < i ==> Candidate(name, j) in dir
  }

  /** No more candidates can be in use than there are files besides the first. */
  lemma Pigeonhole(dir: set<string>, name: string, i: nat)
    requires i >= 1 && Occupied(dir, name, i)
    ensures i <= |dir|
  {
    hide Candidate, Taken;
    TakenMembers(name, i - 1);
    SubsetSize(Taken(name, i - 1), dir);
  }

  function Search(dir: set<string>, name: string, i: nat): (found: string)
    requires i >= 1 && Occupied(dir, name, i)
    ensures found !in dir
    ensures exists j :: i <= j <= |dir| && found == Candidate(name, j) && Occupied(dir, name, j)
    decreases |dir| - i
  {
    Pigeonhole(dir, name, i);
    if Candidate(name, i) !in dir then Candidate(name, i)
    else
      Pigeonhole(dir, name, i + 1);
      Search(dir, name, i + 1)
  }

  function FreeName(dir: set<string>, name: string): (free: string)
    ensures free !in dir
  {
    if name !in dir then name else Search(dir, name, 1)
  }

  /** The free name is the name itself, or its first candidate not in use; the suffix is at
      most the number of files, which bounds the length. */
  lemma FreeNameMeans(dir: set<string>, name: string)
    ensures name !in dir ==> FreeName(dir, name) == name
    ensures name in dir ==>
      exists i :: 1 <= i <= |dir| && FreeName(dir, name) == Candidate(name, i) && Occupied(dir, name, i)
        && IsNumbered(name, i, FreeName(dir, name))
    ensures ByteLen(FreeName(dir, name)) <= ByteLen(name) + 1 + |Decimal(|dir|)|
    ensures IsPlain(name) ==> IsPlain(FreeName(dir, name))
  {
    hide Candidate, Occupied, IsPlain, ByteLen, Decimal, IsNumbered;
    if name in dir {
      var i :| 1 <= i <= |dir| && FreeName(dir, name) == Candidate(name, i) && Occupied(dir, name, i);
      CandidateIsNumbered(name, i);
      CandidateBytes(name, i);
      DecimalMonotone(i, |dir|);
      if IsPlain(name) {
        CandidateIsPlain(name, i);
      }
    }
  }

  lemma CandidateBytes(name: string, i: nat)
    ensures ByteLen(Candidate(name, i)) == ByteLen(name) + 1 + |Decimal(i)|
  {
    hide Decimal, StemLength, ByteLen;
    var stem, rest := name[..StemLength(name)], name[StemLength(name)..];
    assert name == stem + rest;
    var suffix := "-" + Decimal(i);
    DecimalDigits(i);
    forall k | 0 <= k < |suffix|
      ensures suffix[k] < '\U{80}'
    {
      if k > 0 {
        assert suffix[k] == Decimal(i)[k - 1];
        assert suffix[k] in Decimal(i);
      }
    }
    AsciiByteLen(suffix);
    assert Candidate(name, i) == stem + suffix + rest;
    ByteLenConcat(stem, suffix);
    ByteLenConcat(stem + suffix, rest);
    ByteLenConcat(stem, rest);
  }

  /** A sanitised name grows to at most 200 + 1 + digits bytes. */
  lemma StoredNameIsBounded(dir: set<string>, nfc: Nfc, raw: string, index: nat)
    requires index < 0x1_0000_0000_0000_0000
    ensures var stored := FreeName(dir, Sanitized(nfc, raw, index));
      IsPlain(stored) && ByteLen(stored) <= ATTACHMENT_FILENAME_MAX_BYTES + 1 + |Decimal(|dir|)|
  {
    hide Sanitized, FreeName, ByteLen, Decimal, IsSafe;
    SanitizedIsSafe(nfc, raw, index);
    FreeNameMeans(dir, Sanitized(nfc, raw, index));
  }

  method DeduplicateFilename(dir: set<string>, name: string) returns (free: string)
    ensures free == FreeName(dir, name)
    ensures free !in dir && (name !in dir ==> free == name)
    ensures name in dir ==> exists i :: 1 <= i <= |dir| && IsNumbered(name, i, free) && Occupied(dir, name, i)
  {
    hide Candidate, IsNumbered, Decimal;
    FreeNameMeans(dir, name);
    if name !in dir {
      return name;
    }
    var i: nat := 1;
    while true
      invariant i >= 1 && Occupied(dir, name, i)
      invariant FreeName(dir, name) == Search(dir, name, i)
      decreases |dir| - i
    {
      Pigeonhole(dir, name, i);
      var candidate := Candidate(name, i);
      if candidate !in dir {
        return candidate;
      }
      Pigeonhole(dir, name, i + 1);
      i := i + 1;
    }
  }

  // ---- the write loop -----------------------------------------------------------------------

  type Body = seq<bv8>

  datatype Attachment = Attachment(filename: string, contentType: string, body: Body)
  datatype Meta = Meta(filename: string, contentType: string, size: nat, path: string)

  /** The names the attachments get, one after the other. */
  function StoredNames(dir: set<string>, names: seq<string>): (stored: seq<string>)
    ensures |stored| == |names|
  {
    if names == [] then []
    else
      var front := StoredNames(dir, names[..|names| - 1]);
      front + [FreeName(dir + (set x | x in front), names[|names| - 1])]
  }

  predicate AreNew(dir: set<string>, stored: seq<string>) {
    && (forall i, j :: 0 <= i < j < |stored| ==> stored[i] != stored[j])
    && (forall i :: 0 <= i < |stored| ==> stored[i] !in dir)
  }

  lemma {:induction false} StoredNamesAreNew(dir: set<string>, names: seq<string>)
    ensures AreNew(dir, StoredNames(dir, names))
  {
    hide FreeName;
    if names != [] {
      var front := StoredNames(dir, names[..|names| - 1]);
      StoredNamesAreNew(dir, names[..|names| - 1]);
      var free := FreeName(dir + (set x | x in front), names[|names| - 1]);
      assert free !in front && free !in dir;
      assert StoredNames(dir, names) == front + [free];
    }
  }

  /** Each attachment keeps its name if that is free when its turn comes, and gets the least free number
      otherwise. */
  lemma {:induction false} StoredNamesAreNumbered(dir: set<string>, names: seq<string>, k: nat)
    requires k < |names|
    ensures var stored := StoredNames(dir, names);
      var taken := dir + (set x | x in stored[..k]);
      if names[k] !in taken then stored[k] == names[k]
      else exists i :: 1 <= i <= |taken| && IsNumbered(names[k], i, stored[k]) && Occupied(taken, names[k], i)
  {
    hide FreeName, IsNumbered, Occupied;
    var n := |names| - 1;
    var front, stored := StoredNames(dir, names[..n]), StoredNames(dir, names);
    assert front == stored[..n];
    if k < n {
      StoredNamesAreNumbered(dir, names[..n], k);
      assert front[..k] == stored[..k] && names[..n][k] == names[k];
    } else {
      FreeNameMeans(dir + (set x | x in front), names[n]);
    }
  }

  function NamesOf(attachments: seq<Attachment>): (names: seq<string>)
    ensures |names| == |attachments| && forall i :: 0 <= i < |names| ==> names[i] == attachments[i].filename
  {
    seq(|attachments|, i requires 0 <= i < |attachments| => attachments[i].filename)
  }

  function MetaOf(attachment: Attachment, name: string): Meta {
    Meta(name, attachment.contentType, |attachment.body|, name)
  }

  function ToSet(names: seq<string>): set<string> {
    set x | x in names
  }

  type Files = map<string, Body>

  /** Attachments are stored under the names `stored` and nothing else has changed. */
  ghost predicate StoredAs(before: Files, files: Files, attachments: seq<Attachment>, metas: seq<Meta>,
                           stored: seq<string>)
  {
    && |metas| == |stored| <= |attachments|
    && Added(before, files, stored)
    && Describes(attachments, metas, stored)
    && ReadsBack(files, attachments, stored)
  }

  /** The files of `stored` are new, and the old ones are as they were. */
  ghost predicate Added(before: Files, files: Files, stored: seq<string>) {
    && files.Keys == before.Keys + ToSet(stored)
    && |files| == |before| + |stored|
    && (forall f :: f in before ==> files[f] == before[f])
  }

  predicate Describes(attachments: seq<Attachment>, metas: seq<Meta>, stored: seq<string>)
    requires |metas| == |stored| <= |attachments|
  {
    forall j :: 0 <= j < |stored| ==> metas[j] == MetaOf(attachments[j], stored[j])
  }

  predicate ReadsBack(files: Files, attachments: seq<Attachment>, stored: seq<string>)
    requires |stored| <= |attachments|
  {
    forall j :: 0 <= j < |stored| ==> stored[j] in files && files[stored[j]] == attachments[j].body
  }

  ghost predicate Stored(before: Files, files: Files, attachments: seq<Attachment>, metas: seq<Meta>, k: nat) {
    k <= |attachments|
    && StoredAs(before, files, attachments, metas, StoredNames(before.Keys, NamesOf(attachments)[..k]))
  }

  lemma NothingStored(files: Files, attachments: seq<Attachment>)
    ensures Stored(files, files, attachments, [], 0)
  {
    assert NamesOf(attachments)[..0] == [];
    assert files.Keys + ToSet([]) == files.Keys;
    assert |files.Keys| == |files|;
  }

  lemma StoreOne(before: Files, files: Files, attachments: seq<Attachment>, metas: seq<Meta>, stored: seq<string>,
                 name: string)
    requires StoredAs(before, files, attachments, metas, stored) && |stored| < |attachments| && name !in files
    ensures var att := attachments[|stored|];
      StoredAs(before, files[name := att.body], attachments, metas + [MetaOf(att, name)], stored + [name])
  {
    hide MetaOf, Added, Describes, ReadsBack;
    AddOne(before, files, stored, name, attachments[|stored|].body);
    DescribeOne(attachments, metas, stored, name);
    ReadBackOne(files, attachments, stored, name);
  }

  lemma AddOne(before: Files, files: Files, stored: seq<string>, name: string, body: Body)
    requires Added(before, files, stored) && name !in files
    ensures Added(before, files[name := body], stored + [name])
  {
    hide ToSet;
    var after, next := files[name := body], stored + [name];
    assert after.Keys == before.Keys + ToSet(next) by {
      AddedFile(files, name, body);
      AddedName(stored, name);
      Regroup(before.Keys, ToSet(stored), {name});
    }
    assert |after| == |before| + |next| by {
      AddedFile(files, name, body);
    }
    OldFilesStay(before, files, name, body);
  }

  lemma Regroup(a: set<string>, b: set<string>, c: set<string>)
    ensures (a + b) + c == a + (b + c)
  {
  }

  lemma OldFilesStay(before: Files, files: Files, name: string, body: Body)
    requires name !in files && before.Keys <= files.Keys && forall f :: f in before ==> files[f] == before[f]
    ensures forall f :: f in before ==> files[name := body][f] == before[f]
  {
  }

  lemma DescribeOne(attachments: seq<Attachment>, metas: seq<Meta>, stored: seq<string>, name: string)
    requires |metas| == |stored| < |attachments| && Describes(attachments, metas, stored)
    ensures Describes(attachments, metas + [MetaOf(attachments[|stored|], name)], stored + [name])
  {
  }

  lemma ReadBackOne(files: Files, attachments: seq<Attachment>, stored: seq<string>, name: string)
    requires |stored| < |attachments| && name !in files && ReadsBack(files, attachments, stored)
    ensures ReadsBack(files[name := attachments[|stored|].body], attachments, stored + [name])
  {
    var next := stored + [name];
    forall j | 0 <= j < |stored|
      ensures next[j] in files && files[next[j]] == attachments[j].body
    {
      assert next[j] == stored[j];
    }
  }

  lemma AddedName(stored: seq<string>, name: string)
    ensures ToSet(stored + [name]) == ToSet(stored) + {name}
  {
  }

  lemma OneMoreStored(before: Files, files: Files, attachments: seq<Attachment>, metas: seq<Meta>, k: nat)
    requires Stored(before, files, attachments, metas, k) && k < |attachments|
    ensures var name := FreeName(files.Keys, attachments[k].filename);
      Stored(before, files[name := attachments[k].body], attachments, metas + [MetaOf(attachments[k], name)], k + 1)
  {
    hide FreeName, StoredNames, MetaOf, ToSet;
    var names := NamesOf(attachments);
    NextName(before.Keys, names, k);
    StoreOne(before, files, attachments, metas, StoredNames(before.Keys, names[..k]),
        FreeName(files.Keys, attachments[k].filename));
  }

  lemma AddedFile(files: Files, name: string, body: Body)
    requires name !in files
    ensures |files[name := body]| == |files| + 1 && files[name := body].Keys == files.Keys + {name}
  {
    assert files[name := body].Keys == files.Keys + {name};
    assert |files[name := body].Keys| == |files[name := body]| && |files.Keys| == |files|;
  }

  lemma StoredKeeps(before: Files, files: Files, attachments: seq<Attachment>, metas: seq<Meta>, k: nat)
    requires Stored(before, files, attachments, metas, k)
    ensures |metas| == k <= |attachments| && forall f :: f in before ==> f in files && files[f] == before[f]
  {
  }

  /** Exactly one new file for each attachment, under a name of its own, and the path of the
      k-th entry reads back the k-th body. */
  ghost predicate AllKept(before: Files, after: Files, attachments: seq<Attachment>, metas: seq<Meta>) {
    && |metas| == |attachments| && |after| == |before| + |attachments|
    && (forall j, k :: 0 <= j < k < |metas| ==> metas[j].path != metas[k].path)
    && (forall f :: f in after <==> f in before || exists k :: 0 <= k < |metas| && metas[k].path == f)
    && (forall k :: 0 <= k < |metas| ==>
          && metas[k].path == metas[k].filename == StoredNames(before.Keys, NamesOf(attachments))[k]
          && metas[k].path in after && metas[k].path !in before
          && after[metas[k].path] == attachments[k].body
          && metas[k].size == |attachments[k].body| && metas[k].contentType == attachments[k].contentType)
  }

  lemma AllStored(before: Files, files: Files, attachments: seq<Attachment>, metas: seq<Meta>)
    requires Stored(before, files, attachments, metas, |attachments|)
    ensures AllKept(before, files, attachments, metas)
    ensures forall f :: f in before ==> f in files && files[f] == before[f]
  {
    hide StoredNames, Describes, ReadsBack, AreNew, Added;
    var names := NamesOf(attachments);
    assert names[..|attachments|] == names;
    var stored := StoredNames(before.Keys, names);
    StoredNamesAreNew(before.Keys, names);
    PathsAre(attachments, metas, stored);
    FilesAre(before, files, metas, stored);
    BodiesAre(before, files, attachments, stored);
  }

  lemma PathsAre(attachments: seq<Attachment>, metas: seq<Meta>, stored: seq<string>)
    requires |metas| == |stored| == |attachments| && Describes(attachments, metas, stored)
    ensures forall k :: 0 <= k < |metas| ==>
      && metas[k].path == metas[k].filename == stored[k]
      && metas[k].size == |attachments[k].body| && metas[k].contentType == attachments[k].contentType
  {
  }

  lemma FilesAre(before: Files, files: Files, metas: seq<Meta>, stored: seq<string>)
    requires Added(before, files, stored)
    requires |metas| == |stored| && forall k :: 0 <= k < |metas| ==> metas[k].path == stored[k]
    ensures |files| == |before| + |stored|
    ensures forall f :: f in files <==> f in before || exists k :: 0 <= k < |metas| && metas[k].path == f
    ensures forall f :: f in before ==> f in files && files[f] == before[f]
  {
    forall f
      ensures f in ToSet(stored) <==> exists k :: 0 <= k < |metas| && metas[k].path == f
    {
      if k :| 0 <= k < |metas| && metas[k].path == f {
        assert stored[k] == f;
      }
      if f in stored {
        var k :| 0 <= k < |stored| && stored[k] == f;
        assert metas[k].path == f;
      }
    }
    assert forall f :: f in files <==> f in files.Keys;
  }

  lemma BodiesAre(before: Files, files: Files, attachments: seq<Attachment>, stored: seq<string>)
    requires |stored| == |attachments| && ReadsBack(files, attachments, stored) && AreNew(before.Keys, stored)
    ensures forall k :: 0 <= k < |stored| ==>
      stored[k] in files && stored[k] !in before && files[stored[k]] == attachments[k].body
    ensures forall j, k :: 0 <= j < k < |stored| ==> stored[j] != stored[k]
  {
  }

  lemma NextName(dir: set<string>, names: seq<string>, k: nat)
    requires k < |names|
    ensures var front, next := StoredNames(dir, names[..k]), StoredNames(dir, names[..k + 1]);
      next == front + [FreeName(dir + ToSet(front), names[k])]
  {
    hide FreeName;
    assert names[..k + 1][..k] == names[..k];
  }

  /** The bundle directory: file names and contents. */
  class Bundle {
    var files: map<string, Body>

    constructor ()
      ensures files == map[]
    {
      files := map[];
    }

    /** A failing write may leave a part of the file behind. */
    method Write(name: string, body: Body, works: bool) returns (ok: bool)
      modifies this
      ensures ok == works
      ensures ok ==> files == old(files)[name := body]
      ensures !ok ==> files == old(files) || (name in files && files == old(files)[name := files[name]])
    {
      ok := works;
      if works {
        files := files[name := body];
      } else if * {
        var n :| 0 <= n <= |body|;
        files := files[name := body[..n]];
      }
    }

    /** Exactly one new file for each attachment, under its own name; no other file is touched;
        the path of each entry reads back that attachment. */
    method WriteAttachments(attachments: seq<Attachment>, works: nat -> bool) returns (result: Option<seq<Meta>>)
      modifies this
      ensures result.Some? <==> forall k :: 0 <= k < |attachments| ==> works(k)
      ensures forall f :: f in old(files) ==> f in files && files[f] == old(files)[f]
      ensures result.Some? ==> AllKept(old(files), files, attachments, result.value)
    {
      hide FreeName, StoredNames, Stored, MetaOf, AreNew;
      var metas := [];
      NothingStored(files, attachments);
      for k := 0 to |attachments|
        invariant forall j :: 0 <= j < k ==> works(j)
        invariant Stored(old(files), files, attachments, metas, k)
      {
        StoredKeeps(old(files), files, attachments, metas, k);
        OneMoreStored(old(files), files, attachments, metas, k);
        var name := DeduplicateFilename(files.Keys, attachments[k].filename);
        var ok := Write(name, attachments[k].body, works(k));
        if !ok {
          return None;
        }
        metas := metas + [MetaOf(attachments[k], name)];
      }
      AllStored(old(files), files, attachments, metas);
      result := Some(metas);
    }

    /** The removal of the whole directory after a failure. */
    method RemoveAll(stuck: set<string>)
      modifies this
      ensures files == map f | f in old(files) && f in stuck :: old(files)[f]
    {
      files := map f | f in files && f in stuck :: files[f];
    }

    /** The message itself goes last and never over an existing file. */
    method WriteMarkdown(name: string, text: Body, works: bool) returns (ok: bool)
      modifies this
      ensures ok <==> works && name !in old(files)
      ensures ok ==> files == old(files)[name := text]
      ensures forall f :: f in old(files) ==> f in files && files[f] == old(files)[f]
    {
      if name in files {
        return false;
      }
      ok := Write(name, text, works);
    }
  }

  /** Writes a bundle into a new directory: it works exactly when every write does and no
      attachment has been given the name of the message. Otherwise the directory is removed
      again, but for the files of `stuck`, which cannot be. */
  method WriteBundle(stem: string, attachments: seq<Attachment>, text: Body, works: nat -> bool, stuck: set<string>)
    returns (bundle: Bundle, ok: bool)
    ensures fresh(bundle)
    ensures ok <==>
      && (forall k :: 0 <= k <= |attachments| ==> works(k))
      && stem + ".md" !in StoredNames({}, NamesOf(attachments))
    ensures ok ==>
      && |bundle.files| == |attachments| + 1
      && stem + ".md" in bundle.files && bundle.files[stem + ".md"] == text
      && exists metas :: AllKept(map[], bundle.files - {stem + ".md"}, attachments, metas)
    ensures !ok ==> bundle.files.Keys <= stuck
  {
    hide StoredNames;
    bundle := new Bundle();
    var metas := bundle.WriteAttachments(attachments, works);
    if metas.None? {
      bundle.RemoveAll(stuck);
      return bundle, false;
    }
    ghost var stored := bundle.files;
    ok := bundle.WriteMarkdown(stem + ".md", text, works(|attachments|));
    assert stem + ".md" !in stored ==> stored[stem + ".md" := text] - {stem + ".md"} == stored;
    if !ok {
      bundle.RemoveAll(stuck);
    }
  }
}
