/** Hook names: the bytes that are hashed for an unnamed hook, and what they determine. */
module HookNames {
  import opened Text

  newtype byte = x: int | 0 <= x < 256

  type Bytes = seq<byte>

  /** The hash function, left open. */
  type Sha = Bytes -> Bytes

  const SEPARATOR: byte := 0x1F

  datatype HookEvent = OnReceive | AfterSend

  function EventName(event: HookEvent): string {
    match event
    case OnReceive => "on_receive"
    case AfterSend => "after_send"
  }

  // ---- UTF-8 ------------------------------------------------------------------

  function EncodeChar(c: char): (b: Bytes)
    ensures |b| == CharBytes(c)
  {
    var n := c as int;
    if n < 0x80 then [n as byte]
    else if n < 0x800 then [(0xC0 + n / 64) as byte, (0x80 + n % 64) as byte]
    else if n < 0x10000 then [(0xE0 + n / 4096) as byte, (0x80 + n / 64 % 64) as byte, (0x80 + n % 64) as byte]
    else [(0xF0 + n / 262144) as byte, (0x80 + n / 4096 % 64) as byte, (0x80 + n / 64 % 64) as byte,
          (0x80 + n % 64) as byte]
  }

  function Utf8(s: string): Bytes {
    if s == [] then [] else EncodeChar(s[0]) + Utf8(s[1..])
  }

  lemma CodeParts(n: nat)
    ensures n == n / 64 * 64 + n % 64
    ensures n == n / 4096 * 4096 + n / 64 % 64 * 64 + n % 64
    ensures n == n / 262144 * 262144 + n / 4096 % 64 * 4096 + n / 64 % 64 * 64 + n % 64
  {
    var a := n / 64;
    var b := a / 64;
    var c := b / 64;
    assert b == n / 4096;
    assert c == n / 262144;
    assert a == 64 * b + a % 64 && b == 64 * c + b % 64;
  }

  /** The number of a byte sequence in the table of RFC 3629, section 3: how many bytes there are is seen
      from the first, and what they leave free holds the code point. */
  function CodePoint(b: Bytes): Option<nat> {
    if |b| == 1 && b[0] < 0x80 then Some(b[0] as nat)
    else if |b| == 2 && 0xC0 <= b[0] < 0xE0 && AllFollow(b[1..]) then
      Some((b[0] as nat - 0xC0) * 0x40 + (b[1] as nat - 0x80))
    else if |b| == 3 && 0xE0 <= b[0] < 0xF0 && AllFollow(b[1..]) then
      Some((b[0] as nat - 0xE0) * 0x1000 + (b[1] as nat - 0x80) * 0x40 + (b[2] as nat - 0x80))
    else if |b| == 4 && 0xF0 <= b[0] < 0xF8 && AllFollow(b[1..]) then
      Some((b[0] as nat - 0xF0) * 0x40000 + (b[1] as nat - 0x80) * 0x1000 + (b[2] as nat - 0x80) * 0x40
           + (b[3] as nat - 0x80))
    else None
  }

  predicate AllFollow(b: Bytes) {
    forall i :: 0 <= i < |b| ==> 0x80 <= b[i] < 0xC0
  }

  lemma EncodeMeans(c: char)
    ensures CodePoint(EncodeChar(c)) == Some(c as nat)
  {
    CodeParts(c as int);
  }

  lemma EncodePrefixFree(c: char, d: char, x: Bytes, y: Bytes)
    requires EncodeChar(c) + x == EncodeChar(d) + y
    ensures c == d && x == y
  {
    var l, r := EncodeChar(c) + x, EncodeChar(d) + y;
    assert l[0] == EncodeChar(c)[0] && r[0] == EncodeChar(d)[0];
    assert CharBytes(c) == CharBytes(d);
    assert EncodeChar(c) == l[..CharBytes(c)] == r[..CharBytes(d)] == EncodeChar(d);
    assert x == l[CharBytes(c)..] && y == r[CharBytes(d)..];
    CodeParts(c as int);
    CodeParts(d as int);
    forall i | 0 <= i < CharBytes(c)
      ensures EncodeChar(c)[i] == EncodeChar(d)[i]
    {
    }
    assert c as int == d as int;
  }

  lemma {:induction false} Utf8Injective(a: string, b: string)
    requires Utf8(a) == Utf8(b)
    ensures a == b
  {
    if a != [] && b != [] {
      EncodePrefixFree(a[0], b[0], Utf8(a[1..]), Utf8(b[1..]));
      Utf8Injective(a[1..], b[1..]);
      assert a == [a[0]] + a[1..] && b == [b[0]] + b[1..];
    }
  }

  /** The separator byte stands for the character U+001F and nothing else. */
  lemma {:induction false} SeparatorInUtf8(s: string)
    ensures SEPARATOR in Utf8(s) <==> '\U{1F}' in s
  {
    if s != [] {
      SeparatorInUtf8(s[1..]);
      assert SEPARATOR in EncodeChar(s[0]) <==> s[0] == '\U{1F}';
      assert s == [s[0]] + s[1..];
    }
  }

  // ---- joining and splitting ---------------------------------------------------

  function Join(parts: seq<Bytes>): Bytes {
    if parts == [] then []
    else if |parts| == 1 then parts[0]
    else parts[0] + [SEPARATOR] + Join(parts[1..])
  }

  /** The pieces between separators; never empty. */
  function Split(b: Bytes): (parts: seq<Bytes>)
    ensures parts != []
  {
    if b == [] then [[]]
    else
      var rest := Split(b[1..]);
      if b[0] == SEPARATOR then [[]] + rest else [[b[0]] + rest[0]] + rest[1..]
  }

  lemma {:induction false} JoinAfterSplit(b: Bytes)
    ensures Join(Split(b)) == b
  {
    if b != [] {
      JoinAfterSplit(b[1..]);
      var rest := Split(b[1..]);
      assert b == [b[0]] + b[1..];
      hide Split;
      if b[0] == SEPARATOR {
        assert ([[]] + rest)[1..] == rest;
      } else {
        JoinLonger(b[0], rest);
      }
    }
  }

  lemma JoinLonger(first: byte, parts: seq<Bytes>)
    requires parts != []
    ensures Join([[first] + parts[0]] + parts[1..]) == [first] + Join(parts)
  {
    var longer := [[first] + parts[0]] + parts[1..];
    assert longer[1..] == parts[1..];
    hide Join;
    JoinFirst(longer);
    JoinFirst(parts);
  }

  lemma JoinFirst(parts: seq<Bytes>)
    requires parts != []
    ensures Join(parts) == if |parts| == 1 then parts[0] else parts[0] + [SEPARATOR] + Join(parts[1..])
  {
  }

  lemma {:induction false} SplitAtSeparator(a: Bytes, b: Bytes)
    ensures Split(a + [SEPARATOR] + b) == Split(a) + Split(b)
  {
    var whole := a + [SEPARATOR] + b;
    if a == [] {
      assert whole[1..] == b;
    } else {
      assert whole[1..] == a[1..] + [SEPARATOR] + b;
      SplitAtSeparator(a[1..], b);
    }
  }

  lemma {:induction false} SplitWithoutSeparator(b: Bytes)
    requires SEPARATOR !in b
    ensures Split(b) == [b]
  {
    if b != [] {
      SplitWithoutSeparator(b[1..]);
      assert b == [b[0]] + b[1..];
    }
  }

  /** All pieces of all parts, in order. */
  function Pieces(parts: seq<Bytes>): seq<Bytes> {
    if parts == [] then [] else Split(parts[0]) + Pieces(parts[1..])
  }

  lemma {:induction false} SplitAfterJoin(parts: seq<Bytes>)
    requires parts != []
    ensures Split(Join(parts)) == Pieces(parts)
  {
    if |parts| == 1 {
      assert Pieces(parts[1..]) == [];
    } else {
      SplitAfterJoin(parts[1..]);
      SplitAtSeparator(parts[0], Join(parts[1..]));
    }
  }

  lemma {:induction false} PiecesWithoutSeparator(parts: seq<Bytes>)
    requires forall i :: 0 <= i < |parts| ==> SEPARATOR !in parts[i]
    ensures Pieces(parts) == parts
  {
    if parts != [] {
      SplitWithoutSeparator(parts[0]);
      PiecesWithoutSeparator(parts[1..]);
    }
  }

  // ---- the preimage ------------------------------------------------------------

  function ArgBytes(cmd: seq<string>): (parts: seq<Bytes>)
    ensures |parts| == |cmd|
    ensures forall i :: 0 <= i < |cmd| ==> parts[i] == Utf8(cmd[i])
  {
    seq(|cmd|, i requires 0 <= i < |cmd| => Utf8(cmd[i]))
  }

  function Preimage(event: HookEvent, cmd: seq<string>, fire: bool): Bytes {
    Utf8(EventName(event)) + [SEPARATOR] + Join(ArgBytes(cmd)) + [SEPARATOR] + [if fire then 1 else 0]
  }

  lemma EventBytes(event: HookEvent)
    ensures |Utf8(EventName(event))| == 10
    ensures Utf8(EventName(event))[0] == (if event.OnReceive? then 'o' else 'a') as int as byte
  {
    Utf8Length(EventName(event));
    AsciiByteLen(EventName(event));
  }

  lemma {:induction false} Utf8Length(s: string)
    ensures |Utf8(s)| == ByteLen(s)
  {
    if s != [] {
      Utf8Length(s[1..]);
    }
  }

  /** Two hooks feed the hash the same bytes exactly when event and flag agree and the
      arguments break into the same pieces at U+001F. */
  lemma PreimageCollision(e1: HookEvent, c1: seq<string>, f1: bool, e2: HookEvent, c2: seq<string>, f2: bool)
    requires c1 != [] && c2 != []
    ensures Preimage(e1, c1, f1) == Preimage(e2, c2, f2)
      <==> e1 == e2 && f1 == f2 && Pieces(ArgBytes(c1)) == Pieces(ArgBytes(c2))
  {
    hide Join, Split, Utf8, Pieces, EventName;
    var p1, p2 := Preimage(e1, c1, f1), Preimage(e2, c2, f2);
    var j1, j2 := Join(ArgBytes(c1)), Join(ArgBytes(c2));
    EventBytes(e1);
    EventBytes(e2);
    SplitAfterJoin(ArgBytes(c1));
    SplitAfterJoin(ArgBytes(c2));
    if p1 == p2 {
      assert p1[0] == Utf8(EventName(e1))[0] && p2[0] == Utf8(EventName(e2))[0];
      assert p1[|p1| - 1] == (if f1 then 1 else 0) && p2[|p2| - 1] == (if f2 then 1 else 0);
      assert p1[11..|p1| - 2] == j1 && p2[11..|p2| - 2] == j2;
    }
    if Pieces(ArgBytes(c1)) == Pieces(ArgBytes(c2)) {
      JoinAfterSplit(j1);
      JoinAfterSplit(j2);
    }
  }

  predicate NoSeparator(cmd: seq<string>) {
    forall i :: 0 <= i < |cmd| ==> '\U{1F}' !in cmd[i]
  }

  /** Without U+001F in an argument the bytes determine the hook's event, argv and flag. */
  lemma PreimageInjective(e1: HookEvent, c1: seq<string>, f1: bool, e2: HookEvent, c2: seq<string>, f2: bool)
    requires c1 != [] && c2 != [] && NoSeparator(c1) && NoSeparator(c2)
    requires Preimage(e1, c1, f1) == Preimage(e2, c2, f2)
    ensures e1 == e2 && c1 == c2 && f1 == f2
  {
    PreimageCollision(e1, c1, f1, e2, c2, f2);
    forall i | 0 <= i < |c1|
      ensures SEPARATOR !in ArgBytes(c1)[i]
    {
      SeparatorInUtf8(c1[i]);
    }
    forall i | 0 <= i < |c2|
      ensures SEPARATOR !in ArgBytes(c2)[i]
    {
      SeparatorInUtf8(c2[i]);
    }
    PiecesWithoutSeparator(ArgBytes(c1));
    PiecesWithoutSeparator(ArgBytes(c2));
    forall i | 0 <= i < |c1|
      ensures c1[i] == c2[i]
    {
      assert Utf8(c1[i]) == ArgBytes(c1)[i] == ArgBytes(c2)[i] == Utf8(c2[i]);
      Utf8Injective(c1[i], c2[i]);
    }
  }

  /** With it, one argument looks like two: every such pair collides. */
  lemma SeparatorBreaksInjectivity(event: HookEvent, a: string, b: string, fire: bool)
    ensures Preimage(event, [a + "\U{1F}" + b], fire) == Preimage(event, [a, b], fire)
  {
    var unit: string := "\U{1F}";
    assert unit[1..] == [] && Utf8([]) == [];
    assert Utf8(unit) == [SEPARATOR];
    Utf8Concat(a + unit, b);
    Utf8Concat(a, unit);
    assert ArgBytes([a, b])[1..] == [Utf8(b)];
    assert Join(ArgBytes([a, b])) == Utf8(a) + [SEPARATOR] + Utf8(b);
    assert Join(ArgBytes([a + unit + b])) == Utf8(a + unit + b);
  }

  lemma {:induction false} Utf8Concat(a: string, b: string)
    ensures Utf8(a + b) == Utf8(a) + Utf8(b)
  {
    if a == [] {
      assert a + b == b;
    } else {
      assert (a + b)[1..] == a[1..] + b;
      Utf8Concat(a[1..], b);
    }
  }

  // ---- names -------------------------------------------------------------------

  const DERIVED_HOOK_NAME_LEN := 12
  const HOOK_NAME_MAX_LEN := 128

  function HexDigit(n: nat): char
    requires n < 16
  {
    if n < 10 then '0' + n as char else 'a' + (n - 10) as char
  }

  function Hex(bytes: Bytes): (s: string)
    ensures |s| == 2 * |bytes|
  {
    if bytes == [] then ""
    else
      var last := bytes[|bytes| - 1] as int;
      Hex(bytes[..|bytes| - 1]) + [HexDigit(last / 16), HexDigit(last % 16)]
  }

  const HEX_DIGITS := "0123456789abcdef"

  lemma HexDigitMeans(n: nat)
    requires n < 16
    ensures HexDigit(n) == HEX_DIGITS[n]
  {
    HexCodes();
  }

  lemma HexCodes()
    ensures |HEX_DIGITS| == 16
    ensures forall i :: 0 <= i < 10 ==> HEX_DIGITS[i] as int == 48 + i
    ensures forall i :: 10 <= i < 16 ==> HEX_DIGITS[i] as int == 87 + i
  {
  }

  /** The two digits of a byte. */
  predicate AreDigitsOf(b: byte, high: char, low: char) {
    high == HEX_DIGITS[b as int / 16] && low == HEX_DIGITS[b as int % 16]
  }

  lemma DigitsOfByte(b: byte)
    ensures AreDigitsOf(b, HexDigit(b as int / 16), HexDigit(b as int % 16))
  {
    HexDigitMeans(b as int / 16);
    HexDigitMeans(b as int % 16);
  }

  /** Two digits for a byte, the higher first. */
  lemma {:induction false} HexMeans(bytes: Bytes, i: nat)
    requires i < |bytes|
    ensures |Hex(bytes)| == 2 * |bytes| && AreDigitsOf(bytes[i], Hex(bytes)[2 * i], Hex(bytes)[2 * i + 1])
  {
    hide AreDigitsOf, HexDigit;
    var n := |bytes| - 1;
    if i < n {
      HexMeans(bytes[..n], i);
      assert bytes[..n][i] == bytes[i];
    } else {
      DigitsOfByte(bytes[n]);
    }
  }

  function Take(bytes: Bytes, n: nat): Bytes {
    if n <= |bytes| then bytes[..n] else bytes
  }

  function DerivedName(sha: Sha, event: HookEvent, cmd: seq<string>, fire: bool): string {
    Hex(Take(sha(Preimage(event, cmd, fire)), DERIVED_HOOK_NAME_LEN / 2))
  }

  predicate IsNameStart(c: char) {
    'a' <= c <= 'z' || 'A' <= c <= 'Z' || '0' <= c <= '9' || c == '_'
  }

  predicate IsValidHookName(s: string) {
    && 1 <= |s| <= HOOK_NAME_MAX_LEN
    && IsNameStart(s[0])
    && forall i :: 1 <= i < |s| ==> IsNameStart(s[i]) || s[i] == '.' || s[i] == '-'
  }

  predicate IsNameLetter(c: char) {
    c in LOWER || c in UPPER || c in DIGITS || c in "_.-"
  }

  lemma NameLetters(c: char)
    ensures IsNameLetter(c) <==> IsNameStart(c) || c == '.' || c == '-'
    ensures IsNameStart(c) ==> c != '.' && c != '-'
  {
    InAlphabet(c);
  }

  /** Up to 128 letters, digits, `_`, `.` and `-`, neither of the last two in front. */
  lemma HookNameMeans(s: string)
    ensures IsValidHookName(s) <==>
      && 1 <= |s| <= 128 && s[0] != '.' && s[0] != '-'
      && forall i :: 0 <= i < |s| ==> IsNameLetter(s[i])
  {
    hide IsNameLetter, IsNameStart;
    forall i | 0 <= i < |s|
      ensures IsNameLetter(s[i]) <==> IsNameStart(s[i]) || s[i] == '.' || s[i] == '-'
      ensures IsNameStart(s[i]) ==> s[i] != '.' && s[i] != '-'
    {
      NameLetters(s[i]);
    }
  }

  lemma {:induction false} HexIsAlphanumeric(bytes: Bytes)
    ensures forall i :: 0 <= i < |Hex(bytes)| ==> IsNameStart(Hex(bytes)[i])
  {
    if bytes != [] {
      HexIsAlphanumeric(bytes[..|bytes| - 1]);
    }
  }

  /** A derived name is a legal hook name of 12 characters, for any 32-byte hash. */
  lemma DerivedNameIsValid(sha: Sha, event: HookEvent, cmd: seq<string>, fire: bool)
    requires |sha(Preimage(event, cmd, fire))| == 32
    ensures |DerivedName(sha, event, cmd, fire)| == DERIVED_HOOK_NAME_LEN
    ensures IsValidHookName(DerivedName(sha, event, cmd, fire))
  {
    HexIsAlphanumeric(Take(sha(Preimage(event, cmd, fire)), DERIVED_HOOK_NAME_LEN / 2));
  }

  /** An incremental hash: it remembers what it was fed. */
  class Hasher {
    var fed: Bytes

    constructor ()
      ensures fed == []
    {
      fed := [];
    }

    method Update(bytes: Bytes)
      modifies this
      ensures fed == old(fed) + bytes
    {
      fed := fed + bytes;
    }
  }

  lemma {:induction false} JoinSnoc(parts: seq<Bytes>, part: Bytes)
    requires parts != []
    ensures Join(parts + [part]) == Join(parts) + [SEPARATOR] + part
  {
    if |parts| == 1 {
      assert (parts + [part])[1..] == [part];
    } else {
      assert (parts + [part])[1..] == parts[1..] + [part];
      JoinSnoc(parts[1..], part);
    }
  }

  /** The arguments with U+001F between them. */
  function Joined(cmd: seq<string>): string {
    if cmd == [] then ""
    else if |cmd| == 1 then cmd[0]
    else Joined(cmd[..|cmd| - 1]) + "\U{1F}" + cmd[|cmd| - 1]
  }

  /** The text behind the hashed bytes: event, arguments and flag, with U+001F between them. */
  function HashedText(event: HookEvent, cmd: seq<string>, fire: bool): string {
    (if event == OnReceive then "on_receive" else "after_send") + "\U{1F}" + Joined(cmd) + "\U{1F}"
    + (if fire then "\U{1}" else "\U{0}")
  }

  lemma {:induction false} JoinedBytes(cmd: seq<string>)
    ensures Join(ArgBytes(cmd)) == Utf8(Joined(cmd))
  {
    hide EncodeChar;
    if cmd == [] {
      assert ArgBytes(cmd) == [];
    } else if |cmd| == 1 {
      assert ArgBytes(cmd) == [Utf8(cmd[0])];
    } else {
      var front, last := cmd[..|cmd| - 1], cmd[|cmd| - 1];
      JoinedBytes(front);
      assert ArgBytes(cmd) == ArgBytes(front) + [Utf8(last)];
      JoinSnoc(ArgBytes(front), Utf8(last));
      Utf8Concat(Joined(front) + "\U{1F}", last);
      Utf8Concat(Joined(front), "\U{1F}");
      SmallBytes();
    }
  }

  lemma SmallBytes()
    ensures Utf8("\U{1F}") == [0x1F] && Utf8("\U{1}") == [1] && Utf8("\U{0}") == [0] && Utf8("") == []
  {
    assert "\U{1F}"[1..] == "" && "\U{1}"[1..] == "" && "\U{0}"[1..] == "";
  }

  lemma PreimageMeans(event: HookEvent, cmd: seq<string>, fire: bool)
    ensures Preimage(event, cmd, fire) == Utf8(HashedText(event, cmd, fire))
  {
    hide Utf8, Join, Joined;
    var name := if event == OnReceive then "on_receive" else "after_send";
    var flag := if fire then "\U{1}" else "\U{0}";
    JoinedBytes(cmd);
    SmallBytes();
    Utf8Concat(name + "\U{1F}" + Joined(cmd) + "\U{1F}", flag);
    Utf8Concat(name + "\U{1F}" + Joined(cmd), "\U{1F}");
    Utf8Concat(name + "\U{1F}", Joined(cmd));
    Utf8Concat(name, "\U{1F}");
  }

  /** The hash input, fed piece by piece. */
  method FeedHasher(hasher: Hasher, event: HookEvent, cmd: seq<string>, fire: bool)
    requires hasher.fed == []
    modifies hasher
    ensures hasher.fed == Preimage(event, cmd, fire)
    ensures hasher.fed == Utf8(HashedText(event, cmd, fire))
  {
    hide Utf8, EventName, HashedText;
    PreimageMeans(event, cmd, fire);
    hasher.Update(Utf8(EventName(event)));
    hasher.Update([SEPARATOR]);
    ghost var head := hasher.fed;
    assert ArgBytes(cmd[..0]) == [];
    for i := 0 to |cmd|
      invariant hasher.fed == head + Join(ArgBytes(cmd[..i]))
    {
      assert ArgBytes(cmd[..i + 1]) == ArgBytes(cmd[..i]) + [Utf8(cmd[i])];
      if i > 0 {
        JoinSnoc(ArgBytes(cmd[..i]), Utf8(cmd[i]));
        hasher.Update([SEPARATOR]);
      }
      hasher.Update(Utf8(cmd[i]));
    }
    assert cmd[..|cmd|] == cmd;
    hasher.Update([SEPARATOR]);
    hasher.Update([if fire then 1 else 0]);
  }

  /** Two digits for each of the first six bytes, the higher first. */
  predicate IsHexOfSix(digest: Bytes, name: string) {
    && |name| == (if |digest| < 6 then 2 * |digest| else 12)
    && forall i :: 0 <= i < |digest| && i < 6 ==> AreDigitsOf(digest[i], name[2 * i], name[2 * i + 1])
  }

  lemma HexOfSix(digest: Bytes)
    ensures IsHexOfSix(digest, Hex(Take(digest, DERIVED_HOOK_NAME_LEN / 2)))
  {
    hide Hex, AreDigitsOf;
    var taken := Take(digest, DERIVED_HOOK_NAME_LEN / 2);
    forall i | 0 <= i < |taken|
      ensures taken[i] == digest[i] && AreDigitsOf(taken[i], Hex(taken)[2 * i], Hex(taken)[2 * i + 1])
    {
      HexMeans(taken, i);
    }
  }

  method DeriveHookName(sha: Sha, event: HookEvent, cmd: seq<string>, fire: bool) returns (name: string)
    ensures name == DerivedName(sha, event, cmd, fire)
    ensures IsHexOfSix(sha(Utf8(HashedText(event, cmd, fire))), name)
  {
    hide Preimage, HashedText, Utf8, IsHexOfSix;
    PreimageMeans(event, cmd, fire);
    HexOfSix(sha(Preimage(event, cmd, fire)));
    var hasher := new Hasher();
    FeedHasher(hasher, event, cmd, fire);
    var taken := Take(sha(hasher.fed), DERIVED_HOOK_NAME_LEN / 2);
    name := "";
    for i := 0 to |taken|
      invariant name == Hex(taken[..i])
    {
      assert taken[..i + 1][..i] == taken[..i];
      name := name + [HexDigit(taken[i] as int / 16), HexDigit(taken[i] as int % 16)];
    }
    assert taken[..|taken|] == taken;
  }
}
