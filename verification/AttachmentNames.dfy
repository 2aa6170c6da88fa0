/** The name under which an attachment is stored, made from a name chosen by the sender. */
module AttachmentNames {
  import opened Text

  const ATTACHMENT_FILENAME_MAX_BYTES := 200

  // ---- the last component of a path ----------------------------------------------------

  function AfterLastSlash(path: string): (piece: string)
    ensures |piece| <= |path| && '/' !in piece
    ensures |piece| < |path| ==> path[|path| - |piece| - 1] == '/'
    ensures path[|path| - |piece|..] == piece
  {
    if path == [] || path[|path| - 1] == '/' then []
    else AfterLastSlash(path[..|path| - 1]) + [path[|path| - 1]]
  }

  /** Empty and `.` components do not count; `..` has no name. */
  function FileName(path: string): (name: Option<string>)
    ensures name.Some? ==> IsPlain(name.value)
    decreases |path|
  {
    var piece := AfterLastSlash(path);
    if piece == ".." then None
    else if piece != "" && piece != "." then Some(piece)
    else if |piece| == |path| then None
    else FileName(path[..|path| - |piece| - 1])
  }

  /** A name that stays inside its directory. */
  predicate IsPlain(name: string) {
    name != "" && name != "." && name != ".." && '/' !in name
  }

  lemma {:induction false} NoSlash(name: string)
    requires '/' !in name
    ensures AfterLastSlash(name) == name
  {
    if name != [] {
      NoSlash(name[..|name| - 1]);
    }
  }

  /** The pieces between slashes, from the front; never none. */
  function Components(path: string): (parts: seq<string>)
    ensures parts != []
  {
    if path == "" then [""]
    else
      var rest := Components(path[1..]);
      if path[0] == '/' then [""] + rest else [[path[0]] + rest[0]] + rest[1..]
  }

  lemma {:induction false} ComponentsAtSlash(a: string, b: string)
    ensures Components(a + "/" + b) == Components(a) + Components(b)
  {
    var whole := a + "/" + b;
    if a == "" {
      assert whole[1..] == b;
    } else {
      assert whole[1..] == a[1..] + "/" + b;
      ComponentsAtSlash(a[1..], b);
    }
  }

  lemma {:induction false} ComponentsOfPiece(piece: string)
    requires '/' !in piece
    ensures Components(piece) == [piece]
  {
    if piece != "" {
      ComponentsOfPiece(piece[1..]);
      assert piece == [piece[0]] + piece[1..];
    }
  }

  predicate Counts(part: string) {
    part != "" && part != "."
  }

  /** Where the last component stands that counts. */
  predicate LastThatCounts(parts: seq<string>, k: nat) {
    && k < |parts| && Counts(parts[k])
    && forall j :: k < j < |parts| ==> !Counts(parts[j])
  }

  /** The last component that counts, unless that is `..`. */
  ghost predicate IsLastName(parts: seq<string>, name: string) {
    name != ".." && exists k: nat :: LastThatCounts(parts, k) && parts[k] == name
  }

  /** This is the name that is taken, and there is none where there is no such component. */
  lemma {:induction false} FileNameMeans(path: string, name: string)
    ensures FileName(path) == Some(name) <==> IsLastName(Components(path), name)
    decreases |path|
  {
    hide Components, Counts, IsLastName, LastThatCounts, AfterLastSlash;
    var piece := AfterLastSlash(path);
    ComponentsOfPiece(piece);
    if |piece| == |path| {
      assert path == piece && [] + [piece] == [piece];
      LastPiece([], piece, name);
    } else {
      var front := path[..|path| - |piece| - 1];
      assert path == front + "/" + piece;
      ComponentsAtSlash(front, piece);
      LastPiece(Components(front), piece, name);
      if !Counts(piece) {
        FileNameMeans(front, name);
      }
    }
    CountsMeans(piece);
    NoPartsNoName(name);
  }

  lemma CountsMeans(part: string)
    ensures Counts(part) <==> part != "" && part != "."
  {
  }

  lemma NoPartsNoName(name: string)
    ensures !IsLastName([], name)
  {
  }

  /** The last piece decides if it counts, and else those before it. */
  lemma LastPiece(before: seq<string>, piece: string, name: string)
    ensures IsLastName(before + [piece], name) <==>
      if Counts(piece) then piece == name != ".." else IsLastName(before, name)
  {
    hide Counts;
    var parts := before + [piece];
    assert parts[|before|] == piece && forall j :: 0 <= j < |before| ==> parts[j] == before[j];
    if Counts(piece) {
      assert LastThatCounts(parts, |before|);
    } else {
      forall k: nat
        ensures LastThatCounts(parts, k) <==> LastThatCounts(before, k)
      {
        SameLast(before, piece, k);
      }
    }
  }

  lemma SameLast(before: seq<string>, piece: string, k: nat)
    requires !Counts(piece)
    ensures LastThatCounts(before + [piece], k) <==> LastThatCounts(before, k)
  {
    var parts := before + [piece];
    assert forall j :: 0 <= j < |before| ==> parts[j] == before[j];
    assert parts[|before|] == piece;
  }

  // ---- the passes ----------------------------------------------------------------------

  predicate IsUnsafe(c: char) {
    || c == '/' || c == '\\' || IsControl(c)
    || '\U{200B}' <= c <= '\U{200F}' || '\U{202A}' <= c <= '\U{202E}'
    || '\U{2066}' <= c <= '\U{2069}' || c == '\U{FEFF}'
  }

  predicate IsTrimmed(c: char) {
    IsWhitespace(c) || c == '.' || c == '-' || c == '_'
  }

  /** The characters that are never kept, by their code points. */
  lemma UnsafeMeans(c: char)
    ensures var n := c as int;
      IsUnsafe(c) <==>
        || n <= 0x1F || n == 0x2F || n == 0x5C || 0x7F <= n <= 0x9F
        || n == 0x200B || n == 0x200C || n == 0x200D || n == 0x200E || n == 0x200F
        || n == 0x202A || n == 0x202B || n == 0x202C || n == 0x202D || n == 0x202E
        || n == 0x2066 || n == 0x2067 || n == 0x2068 || n == 0x2069 || n == 0xFEFF
  {
  }

  /** ... and those that are cut off at the ends: white space, `.`, `-` and `_`. */
  lemma TrimmedMeans(c: char)
    ensures var n := c as int;
      IsTrimmed(c) <==>
        || n == 0x2E || n == 0x2D || n == 0x5F
        || n == 0x09 || n == 0x0A || n == 0x0B || n == 0x0C || n == 0x0D || n == 0x20 || n == 0x85 || n == 0xA0
        || n == 0x1680 || n == 0x2000 || n == 0x2001 || n == 0x2002 || n == 0x2003 || n == 0x2004 || n == 0x2005
        || n == 0x2006 || n == 0x2007 || n == 0x2008 || n == 0x2009 || n == 0x200A || n == 0x2028 || n == 0x2029
        || n == 0x202F || n == 0x205F || n == 0x3000
  {
  }

  function Collapse(s: string, afterUnsafe: bool): string {
    if s == [] then []
    else if !IsUnsafe(s[0]) then [s[0]] + Collapse(s[1..], false)
    else if afterUnsafe then Collapse(s[1..], true)
    else "_" + Collapse(s[1..], true)
  }

  function TrimLeft(s: string): string {
    if s != [] && IsTrimmed(s[0]) then TrimLeft(s[1..]) else s
  }

  function TrimRight(s: string): string {
    if s != [] && IsTrimmed(s[|s| - 1]) then TrimRight(s[..|s| - 1]) else s
  }

  /** The longest prefix of whole characters that fits in `cap` bytes. */
  function Cut(s: string, cap: nat): string {
    if s == [] || cap < CharBytes(s[0]) then [] else [s[0]] + Cut(s[1..], cap - CharBytes(s[0]))
  }

  function Capped(s: string): string {
    if ByteLen(s) > ATTACHMENT_FILENAME_MAX_BYTES then TrimRight(Cut(s, ATTACHMENT_FILENAME_MAX_BYTES)) else s
  }

  function CleanOrEmpty(s: string): string {
    Capped(TrimRight(TrimLeft(Collapse(s, false))))
  }

  function Fallback(index: nat): string {
    "attachment-" + Decimal(index)
  }

  function Clean(s: string, index: nat): string {
    if CleanOrEmpty(s) == "" then Fallback(index) else CleanOrEmpty(s)
  }

  /** Unicode normalisation, left open. */
  type Nfc = string -> string

  function Sanitized(nfc: Nfc, raw: string, index: nat): string {
    var base := FileName(raw);
    Clean(nfc(if base.Some? then base.value else ""), index)
  }

  // ---- what a pass does ------------------------------------------------------------------

  predicate IsSafe(s: string) {
    forall i :: 0 <= i < |s| ==> !IsUnsafe(s[i])
  }

  lemma {:induction false} CollapseIsSafe(s: string, afterUnsafe: bool)
    ensures IsSafe(Collapse(s, afterUnsafe))
  {
    if s != [] {
      CollapseIsSafe(s[1..], IsUnsafe(s[0]));
    }
  }

  lemma {:induction false} CollapseOfSafe(s: string, afterUnsafe: bool)
    requires IsSafe(s)
    ensures Collapse(s, afterUnsafe) == s
  {
    if s != [] {
      CollapseOfSafe(s[1..], false);
    }
  }

  /** The safe characters other than the underscore, in order. */
  function Letters(s: string): string {
    if s == [] then []
    else if IsUnsafe(s[0]) || s[0] == '_' then Letters(s[1..])
    else [s[0]] + Letters(s[1..])
  }

  /** Collapsing loses and reorders no safe character, and leaves no run of underscores
      that the name did not have. */
  lemma {:induction false} CollapseKeepsLetters(s: string, afterUnsafe: bool)
    ensures Letters(Collapse(s, afterUnsafe)) == Letters(s)
    ensures '_' !in s ==> forall i :: 0 <= i < |Collapse(s, afterUnsafe)| - 1 ==>
                            Collapse(s, afterUnsafe)[i] != '_' || Collapse(s, afterUnsafe)[i + 1] != '_'
    ensures '_' !in s && afterUnsafe && Collapse(s, afterUnsafe) != [] ==> Collapse(s, afterUnsafe)[0] != '_'
  {
    if s != [] {
      var rest := Collapse(s[1..], IsUnsafe(s[0]));
      CollapseKeepsLetters(s[1..], IsUnsafe(s[0]));
      assert ([s[0]] + rest)[1..] == rest && ("_" + rest)[1..] == rest;
    }
  }

  lemma {:induction false} TrimLeftIsSuffix(s: string)
    ensures |TrimLeft(s)| <= |s| && TrimLeft(s) == s[|s| - |TrimLeft(s)|..]
    ensures TrimLeft(s) != [] ==> !IsTrimmed(TrimLeft(s)[0])
    ensures forall i :: 0 <= i < |s| - |TrimLeft(s)| ==> IsTrimmed(s[i])
  {
    if s != [] && IsTrimmed(s[0]) {
      TrimLeftIsSuffix(s[1..]);
      forall i | 0 <= i < |s| - |TrimLeft(s)|
        ensures IsTrimmed(s[i])
      {
        assert i > 0 ==> s[i] == s[1..][i - 1];
      }
    }
  }

  lemma {:induction false} TrimRightIsPrefix(s: string)
    ensures |TrimRight(s)| <= |s| && TrimRight(s) == s[..|TrimRight(s)|]
    ensures TrimRight(s) != [] ==> !IsTrimmed(TrimRight(s)[|TrimRight(s)| - 1])
    ensures forall i :: |TrimRight(s)| <= i < |s| ==> IsTrimmed(s[i])
  {
    if s != [] && IsTrimmed(s[|s| - 1]) {
      TrimRightIsPrefix(s[..|s| - 1]);
    }
  }

  lemma {:induction false} CutIsPrefix(s: string, cap: nat)
    ensures |Cut(s, cap)| <= |s| && Cut(s, cap) == s[..|Cut(s, cap)|]
    ensures ByteLen(Cut(s, cap)) <= cap
    ensures Cut(s, cap) != s ==> cap < ByteLen(Cut(s, cap)) + CharBytes(s[|Cut(s, cap)|])
  {
    if s != [] && CharBytes(s[0]) <= cap {
      CutIsPrefix(s[1..], cap - CharBytes(s[0]));
      assert s == [s[0]] + s[1..];
      assert Cut(s, cap)[1..] == Cut(s[1..], cap - CharBytes(s[0]));
    }
  }

  /** What a clean name is; empty only when nothing is left to keep. */
  predicate IsTidy(s: string) {
    && IsSafe(s)
    && (s != "" ==> !IsTrimmed(s[0]) && !IsTrimmed(s[|s| - 1]))
    && ByteLen(s) <= ATTACHMENT_FILENAME_MAX_BYTES
  }

  lemma SliceIsSafe(s: string, i: nat, j: nat)
    requires IsSafe(s) && i <= j <= |s|
    ensures IsSafe(s[i..j])
  {
  }

  lemma CleanIsTidy(s: string)
    ensures IsTidy(CleanOrEmpty(s))
  {
    hide IsUnsafe, IsTrimmed, IsSafe, Collapse, TrimLeft, TrimRight, Cut, ByteLen;
    var a := Collapse(s, false);
    var b := TrimLeft(a);
    var c := TrimRight(b);
    CollapseIsSafe(s, false);
    TrimLeftIsSuffix(a);
    SliceIsSafe(a, |a| - |b|, |a|);
    TrimRightIsPrefix(b);
    SliceIsSafe(b, 0, |c|);
    if c != "" {
      assert c[0] == b[0];
    }
    var d := Cut(c, ATTACHMENT_FILENAME_MAX_BYTES);
    CutIsPrefix(c, ATTACHMENT_FILENAME_MAX_BYTES);
    SliceIsSafe(c, 0, |d|);
    var e := TrimRight(d);
    TrimRightIsPrefix(d);
    SliceIsSafe(d, 0, |e|);
    PrefixBytes(d, |e|, |d|);
    assert d[..|d|] == d;
    if e != "" {
      assert e[0] == d[0] == c[0];
    }
  }

  lemma TidyIsFixed(s: string)
    requires IsTidy(s)
    ensures CleanOrEmpty(s) == s
  {
    hide IsUnsafe, IsTrimmed;
    CollapseOfSafe(s, false);
  }

  predicate OnlyTrimmed(s: string) {
    forall c | c in s :: IsTrimmed(c)
  }

  predicate NothingToKeep(s: string) {
    forall c | c in s :: IsUnsafe(c) || IsTrimmed(c)
  }

  lemma {:induction false} CollapseToTrimmed(s: string, afterUnsafe: bool)
    ensures OnlyTrimmed(Collapse(s, afterUnsafe)) <==> NothingToKeep(s)
  {
    hide IsUnsafe, IsWhitespace;
    if s != [] {
      var rest := Collapse(s[1..], IsUnsafe(s[0]));
      CollapseToTrimmed(s[1..], IsUnsafe(s[0]));
      assert s == [s[0]] + s[1..];
      assert OnlyTrimmed("_" + rest) <==> OnlyTrimmed(rest);
      assert OnlyTrimmed([s[0]] + rest) <==> IsTrimmed(s[0]) && OnlyTrimmed(rest) by {
        assert s[0] in [s[0]] + rest;
      }
      assert NothingToKeep(s) <==> (IsUnsafe(s[0]) || IsTrimmed(s[0])) && NothingToKeep(s[1..]);
    }
  }

  lemma {:induction false} TrimToNothing(s: string)
    ensures TrimRight(TrimLeft(s)) == "" <==> OnlyTrimmed(s)
  {
    hide IsTrimmed;
    if s != [] && IsTrimmed(s[0]) {
      TrimToNothing(s[1..]);
      assert s == [s[0]] + s[1..];
    } else if s != [] {
      assert s[0] in s;
      TrimRightIsPrefix(s);
    }
  }

  /** The result is empty, so the fallback is used, exactly when the name has nothing but
      unsafe and trimmed characters. The byte cap never empties a name. */
  lemma FallbackIff(s: string)
    ensures CleanOrEmpty(s) == "" <==> NothingToKeep(s)
  {
    hide IsUnsafe, IsTrimmed, NothingToKeep, OnlyTrimmed;
    var a := Collapse(s, false);
    CollapseToTrimmed(s, false);
    TrimToNothing(a);
    var b := TrimLeft(a);
    var c := TrimRight(b);
    TrimLeftIsSuffix(a);
    TrimRightIsPrefix(b);
    if c != "" {
      var d := Cut(c, ATTACHMENT_FILENAME_MAX_BYTES);
      CutIsPrefix(c, ATTACHMENT_FILENAME_MAX_BYTES);
      assert d[0] == c[0] == b[0];
      TrimRightIsPrefix(d);
    }
  }

  // ---- the fallback ------------------------------------------------------------------------

  lemma {:induction false} DecimalLength(n: nat, k: nat)
    requires k >= 1 && n < Power10(k)
    ensures |Decimal(n)| <= k
  {
    if n >= 10 {
      DecimalLength(n / 10, k - 1);
    }
  }

  lemma FallbackIsTidy(index: nat)
    requires index < 0x1_0000_0000_0000_0000
    ensures IsTidy(Fallback(index)) && Fallback(index) != ""
  {
    hide Decimal;
    var digits := Decimal(index);
    assert Power10(4) == 10_000;
    assert Power10(8) == 100_000_000;
    assert Power10(12) == 1_000_000_000_000;
    assert Power10(16) == 10_000_000_000_000_000;
    assert Power10(20) == 100_000_000_000_000_000_000;
    DecimalLength(index, 20);
    DecimalDigits(index);
    DecimalNonEmpty(index);
    var name := Fallback(index);
    forall i | 0 <= i < |name|
      ensures name[i] == '-' || 'a' <= name[i] <= 'z' || '0' <= name[i] <= '9'
    {
      assert forall c | c in "attachment-" :: c == '-' || 'a' <= c <= 'z';
      if i < 11 {
        assert name[i] in "attachment-";
      } else {
        assert name[i] == digits[i - 11];
        assert name[i] in digits;
      }
    }
    AsciiByteLen(name);
    assert name[0] == 'a' && name[|name| - 1] == digits[|digits| - 1];
    assert digits[|digits| - 1] in digits;
  }

  // ---- the sanitiser -------------------------------------------------------------------------

  /** Every stored name is safe, tidy, not empty, and stays inside its directory. */
  lemma SanitizedIsSafe(nfc: Nfc, raw: string, index: nat)
    requires index < 0x1_0000_0000_0000_0000
    ensures Sanitized(nfc, raw, index) != "" && IsTidy(Sanitized(nfc, raw, index))
        && IsPlain(Sanitized(nfc, raw, index))
    ensures HasPlainCharacters(Sanitized(nfc, raw, index)) && ByteLen(Sanitized(nfc, raw, index)) <= 200
  {
    hide IsTidy, CleanOrEmpty, FileName, Fallback, IsPlain, HasPlainCharacters, ByteLen;
    var base := FileName(raw);
    CleanIsTidy(nfc(if base.Some? then base.value else ""));
    FallbackIsTidy(index);
    TidyIsPlain(Sanitized(nfc, raw, index));
    TidyCharacters(Sanitized(nfc, raw, index));
  }

  /** No control character, separator, bidirectional or invisible one; white space, `.`, `-` and `_` only
      inside. */
  predicate HasPlainCharacters(name: string) {
    && (forall i :: 0 <= i < |name| ==>
          var n := name[i] as int;
          && n >= 0x20 && name[i] != '/' && name[i] != '\\' && !(0x7F <= n <= 0x9F) && !(0x200B <= n <= 0x200F)
          && !(0x202A <= n <= 0x202E) && !(0x2066 <= n <= 0x2069) && n != 0xFEFF)
    && (name != "" ==> name[0] !in " .-_" && name[|name| - 1] !in " .-_")
  }

  lemma TidyCharacters(name: string)
    requires IsTidy(name)
    ensures HasPlainCharacters(name) && ByteLen(name) <= 200
  {
    hide ByteLen;
  }

  lemma TidyIsPlain(name: string)
    requires IsTidy(name) && name != ""
    ensures IsPlain(name)
  {
  }

  /** Sanitising a stored name changes nothing, whatever its index, as long as it is already normalised. */
  lemma SanitizedIsFixed(nfc: Nfc, raw: string, index: nat, other: nat)
    requires index < 0x1_0000_0000_0000_0000
    requires nfc(Sanitized(nfc, raw, index)) == Sanitized(nfc, raw, index)
    ensures Sanitized(nfc, Sanitized(nfc, raw, index), other) == Sanitized(nfc, raw, index)
  {
    hide IsTidy, Clean, CleanOrEmpty, AfterLastSlash;
    var name := Sanitized(nfc, raw, index);
    SanitizedIsSafe(nfc, raw, index);
    NoSlash(name);
    assert FileName(name) == Some(name);
    CleanOfTidy(name, other);
  }

  lemma CleanOfTidy(s: string, index: nat)
    requires IsTidy(s) && s != ""
    ensures Clean(s, index) == s
  {
    TidyIsFixed(s);
  }

  /** A name with nothing to object to is kept as it is. */
  lemma GoodNameIsKept(nfc: Nfc, name: string, index: nat)
    requires name != "" && '/' !in name && nfc(name) == name && ByteLen(name) <= 200
    requires forall i :: 0 <= i < |name| ==> !IsUnsafe(name[i])
    requires !IsTrimmed(name[0]) && !IsTrimmed(name[|name| - 1])
    ensures Sanitized(nfc, name, index) == name
  {
    hide Clean, IsUnsafe, AfterLastSlash, ByteLen;
    NoSlash(name);
    assert name != "." && name != "..";
    CleanOfTidy(name, index);
  }

  /** ... and of one with nothing to keep, or none at all, the index makes a name. */
  lemma EmptyNameIsNumbered(nfc: Nfc, raw: string, index: nat)
    requires var base := FileName(raw); NothingToKeep(nfc(if base.Some? then base.value else ""))
    ensures Sanitized(nfc, raw, index) == "attachment-" + Decimal(index)
  {
    hide CleanOrEmpty, NothingToKeep, FileName, Decimal;
    var base := FileName(raw);
    FallbackIff(nfc(if base.Some? then base.value else ""));
  }

  lemma {:induction false} LastBoundary(s: string, end: nat, cap: nat)
    requires end <= cap && IsCharBoundary(s, end)
    requires forall b :: end < b <= cap ==> !IsCharBoundary(s, b)
    ensures TakeBytes(s, end) == Cut(s, cap)
  {
    if end == 0 {
      FirstBoundary(s);
    } else {
      var n := CharBytes(s[0]);
      forall b | end - n < b <= cap - n
        ensures !IsCharBoundary(s[1..], b)
      {
        assert !IsCharBoundary(s, b + n);
      }
      LastBoundary(s[1..], end - n, cap - n);
    }
  }

  lemma CollapseFirst(s: string, afterUnsafe: bool)
    requires s != ""
    ensures Collapse(s, afterUnsafe) ==
      (if !IsUnsafe(s[0]) then [s[0]] else if afterUnsafe then "" else "_") + Collapse(s[1..], IsUnsafe(s[0]))
  {
    assert "" + Collapse(s[1..], true) == Collapse(s[1..], true);
  }

  lemma CollapseEmpty(afterUnsafe: bool)
    ensures Collapse("", afterUnsafe) == ""
  {
  }

  /** The first loop: unsafe runs become one underscore. */
  method CollapseUnsafe(s: string) returns (out: string)
    ensures out == Collapse(s, false)
  {
    hide IsUnsafe, Collapse;
    out := "";
    var lastWasUnderscore := false;
    assert s[0..] == s;
    for i := 0 to |s|
      invariant out + Collapse(s[i..], lastWasUnderscore) == Collapse(s, false)
    {
      assert s[i..][1..] == s[i + 1..];
      CollapseFirst(s[i..], lastWasUnderscore);
      if IsUnsafe(s[i]) {
        if !lastWasUnderscore {
          out := out + "_";
          lastWasUnderscore := true;
        }
      } else {
        out := out + [s[i]];
        lastWasUnderscore := false;
      }
    }
    assert s[|s|..] == "";
    CollapseEmpty(lastWasUnderscore);
  }

  /** The second loop: a long name is cut at the last character boundary that fits. */
  method CapBytes(s: string) returns (capped: string)
    ensures capped == Capped(s)
  {
    hide IsCharBoundary, TakeBytes, Cut, ByteLen, TrimRight;
    if ByteLen(s) <= ATTACHMENT_FILENAME_MAX_BYTES {
      return s;
    }
    var end: nat := ATTACHMENT_FILENAME_MAX_BYTES;
    while end > 0 && !IsCharBoundary(s, end)
      invariant end <= ATTACHMENT_FILENAME_MAX_BYTES
      invariant forall b :: end < b <= ATTACHMENT_FILENAME_MAX_BYTES ==> !IsCharBoundary(s, b)
    {
      end := end - 1;
    }
    StartIsBoundary(s);
    LastBoundary(s, end, ATTACHMENT_FILENAME_MAX_BYTES);
    capped := TrimRight(TakeBytes(s, end));
  }

  /** The sanitiser, pass by pass. */
  method SanitizeAttachmentFilename(nfc: Nfc, raw: string, index: nat) returns (name: string)
    ensures name == Sanitized(nfc, raw, index)
  {
    hide FileName, Collapse, TrimLeft, TrimRight, Capped, Decimal;
    var file := FileName(raw);
    var out := CollapseUnsafe(nfc(if file.Some? then file.value else ""));
    name := CapBytes(TrimRight(TrimLeft(out)));
    if name == "" {
      name := Fallback(index);
    }
  }
}
