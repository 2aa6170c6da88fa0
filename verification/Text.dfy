/** Characters, UTF-8 lengths, decimal numerals and byte order: the text
    facts that the other modules share. */
module Text {

  datatype Option<+T> = None | Some(value: T)

  /** The Unicode White_Space property. */
  predicate IsWhitespace(c: char) {
    || '\t' <= c <= '\r'
    || c == ' ' || c == '\U{85}' || c == '\U{A0}' || c == '\U{1680}'
    || '\U{2000}' <= c <= '\U{200A}'
    || c == '\U{2028}' || c == '\U{2029}' || c == '\U{202F}' || c == '\U{205F}' || c == '\U{3000}'
  }

  /** The Unicode general category Cc: C0, DEL and C1. */
  predicate IsControl(c: char) {
    c <= '\U{1F}' || '\U{7F}' <= c <= '\U{9F}'
  }

  /** Bytes that UTF-8 spends on a character. */
  function CharBytes(c: char): (n: nat)
    ensures 1 <= n <= 4
  {
    if c < '\U{80}' then 1 else if c < '\U{800}' then 2 else if c < '\U{10000}' then 3 else 4
  }

  function ByteLen(s: string): nat {
    if s == [] then 0 else CharBytes(s[0]) + ByteLen(s[1..])
  }

  lemma {:induction false} ByteLenConcat(a: string, b: string)
    ensures ByteLen(a + b) == ByteLen(a) + ByteLen(b)
  {
    if a == [] {
      assert a + b == b;
    } else {
      assert (a + b)[1..] == a[1..] + b;
      ByteLenConcat(a[1..], b);
    }
  }

  lemma {:induction false} ByteLenBounds(s: string)
    ensures |s| <= ByteLen(s) <= 4 * |s|
  {
    if s != [] {
      ByteLenBounds(s[1..]);
    }
  }

  lemma {:induction false} AsciiByteLen(s: string)
    requires forall i | 0 <= i < |s| :: s[i] < '\U{80}'
    ensures ByteLen(s) == |s|
  {
    if s != [] {
      AsciiByteLen(s[1..]);
    }
  }

  /** `b` bytes of `s` are a number of whole characters. */
  predicate IsCharBoundary(s: string, b: nat) {
    b == 0 || (s != [] && CharBytes(s[0]) <= b && IsCharBoundary(s[1..], b - CharBytes(s[0])))
  }

  function TakeBytes(s: string, b: nat): string
    requires IsCharBoundary(s, b)
  {
    if b == 0 then [] else [s[0]] + TakeBytes(s[1..], b - CharBytes(s[0]))
  }

  lemma StartIsBoundary(s: string)
    ensures IsCharBoundary(s, 0)
  {
  }

  lemma FirstBoundary(s: string)
    ensures s != [] ==> IsCharBoundary(s, CharBytes(s[0]))
  {
  }

  lemma {:induction false} TakeBytesIsPrefix(s: string, b: nat)
    requires IsCharBoundary(s, b)
    ensures |TakeBytes(s, b)| <= |s| && TakeBytes(s, b) == s[..|TakeBytes(s, b)|]
    ensures ByteLen(TakeBytes(s, b)) == b
  {
    if b > 0 {
      TakeBytesIsPrefix(s[1..], b - CharBytes(s[0]));
      assert TakeBytes(s, b)[1..] == TakeBytes(s[1..], b - CharBytes(s[0]));
    }
  }

  /** Of a longer prefix there are more bytes. */
  lemma {:induction false} PrefixBytes(s: string, m: nat, n: nat)
    requires m <= n <= |s|
    ensures ByteLen(s[..m]) <= ByteLen(s[..n]) && (m < n ==> ByteLen(s[..m]) < ByteLen(s[..n]))
  {
    assert s[..n] == s[..m] + s[m..n];
    ByteLenConcat(s[..m], s[m..n]);
    ByteLenBounds(s[m..n]);
  }

  /** A boundary is where some number of whole characters ends. */
  lemma {:induction false} BoundaryMeans(s: string, b: nat)
    ensures IsCharBoundary(s, b) <==> exists n: nat :: n <= |s| && ByteLen(s[..n]) == b
  {
    if b == 0 {
      assert ByteLen(s[..0]) == 0;
    } else if s != [] {
      var first := CharBytes(s[0]);
      forall n: nat | 1 <= n <= |s|
        ensures ByteLen(s[..n]) == first + ByteLen(s[1..][..n - 1])
      {
        assert s[..n][1..] == s[1..][..n - 1];
      }
      if first <= b {
        BoundaryMeans(s[1..], b - first);
        if IsCharBoundary(s, b) {
          var n: nat :| n <= |s[1..]| && ByteLen(s[1..][..n]) == b - first;
          assert ByteLen(s[..n + 1]) == b;
        }
      }
      if n: nat :| n <= |s| && ByteLen(s[..n]) == b {
        assert ByteLen(s[1..][..n - 1]) == b - first;
      }
    }
  }

  function TrimStart(s: string): string {
    if s != [] && IsWhitespace(s[0]) then TrimStart(s[1..]) else s
  }

  /** White space goes from the front, and nothing else. */
  lemma {:induction false} TrimStartMeans(s: string)
    ensures |TrimStart(s)| <= |s| && TrimStart(s) == s[|s| - |TrimStart(s)|..]
    ensures forall i :: 0 <= i < |s| - |TrimStart(s)| ==> IsWhitespace(s[i])
    ensures TrimStart(s) != "" ==> !IsWhitespace(TrimStart(s)[0])
  {
    if s != [] && IsWhitespace(s[0]) {
      TrimStartMeans(s[1..]);
      forall i | 0 <= i < |s| - |TrimStart(s)|
        ensures IsWhitespace(s[i])
      {
        assert i > 0 ==> s[i] == s[1..][i - 1];
      }
    }
  }

  predicate StartsWith(s: string, prefix: string) {
    |prefix| <= |s| && s[..|prefix|] == prefix
  }

  function Digit(n: nat): char
    requires n < 10
  {
    '0' + n as char
  }

  /** Decimal numeral without leading zeros. */
  function Decimal(n: nat): string {
    if n < 10 then [Digit(n)] else Decimal(n / 10) + [Digit(n % 10)]
  }

  lemma {:induction false} DecimalInjective(a: nat, b: nat)
    requires Decimal(a) == Decimal(b)
    ensures a == b
  {
    var s := Decimal(a);
    assert s[|s| - 1] == Digit(a % 10) == Digit(b % 10);
    if a >= 10 && b >= 10 {
      assert Decimal(a / 10) == s[..|s| - 1] == Decimal(b / 10);
      DecimalInjective(a / 10, b / 10);
    } else if a >= 10 {
      DecimalNonEmpty(a / 10);
    } else if b >= 10 {
      DecimalNonEmpty(b / 10);
    }
  }

  lemma DecimalNonEmpty(n: nat)
    ensures |Decimal(n)| >= 1
  {
  }

  predicate IsDigits(s: string) {
    forall c | c in s :: '0' <= c <= '9'
  }

  lemma {:induction false} DecimalDigits(n: nat)
    ensures IsDigits(Decimal(n))
  {
    if n >= 10 {
      DecimalDigits(n / 10);
    }
  }

  /** The number that a numeral stands for, read from left to right. */
  function ReadNumber(s: string): int {
    if s == "" then 0 else 10 * ReadNumber(s[..|s| - 1]) + (s[|s| - 1] as int - '0' as int)
  }

  /** A decimal numeral is read as its number, and starts with a zero only if it is one. */
  lemma {:induction false} DecimalReads(n: nat)
    ensures IsDigits(Decimal(n)) && ReadNumber(Decimal(n)) == n
    ensures Decimal(n) != "" && (Decimal(n)[0] == '0' <==> n == 0) && (n == 0 ==> |Decimal(n)| == 1)
  {
    if n >= 10 {
      DecimalReads(n / 10);
      var s := Decimal(n);
      assert s[..|s| - 1] == Decimal(n / 10);
    } else {
      assert Decimal(n)[..0] == "";
    }
  }

  lemma {:induction false} DecimalMonotone(a: nat, b: nat)
    requires a <= b
    ensures |Decimal(a)| <= |Decimal(b)|
  {
    if a >= 10 {
      DecimalMonotone(a / 10, b / 10);
    } else {
      DecimalNonEmpty(b);
    }
  }

  /** `n` in exactly `width` digits, high digits dropped. */
  function Padded(n: nat, width: nat): (s: string)
    ensures |s| == width
  {
    if width == 0 then "" else Padded(n / 10, width - 1) + [Digit(n % 10)]
  }

  function Power10(k: nat): nat {
    if k == 0 then 1 else 10 * Power10(k - 1)
  }

  /** ... and so is a numeral of fixed width, if the number fits. */
  lemma {:induction false} PaddedReads(n: nat, width: nat)
    requires n < Power10(width)
    ensures IsDigits(Padded(n, width)) && ReadNumber(Padded(n, width)) == n
  {
    if width > 0 {
      PaddedReads(n / 10, width - 1);
      var s := Padded(n, width);
      assert s[..|s| - 1] == Padded(n / 10, width - 1);
    }
  }

  /** Strict byte order of strings. UTF-8 keeps it equal to scalar-value order. */
  predicate Less(a: string, b: string) {
    b != [] && (a == [] || a[0] < b[0] || (a[0] == b[0] && Less(a[1..], b[1..])))
  }

  /** The first difference decides; a proper prefix comes first. */
  predicate FirstDiffers(a: string, b: string, i: nat) {
    && i <= |a| && i < |b| && a[..i] == b[..i]
    && (i < |a| ==> a[i] < b[i])
  }

  lemma {:induction false} LessMeans(a: string, b: string)
    ensures Less(a, b) <==> exists i: nat :: FirstDiffers(a, b, i)
  {
    forall i: nat | 0 < i <= |a| && i < |b| && a[..i] == b[..i]
      ensures a[0] == b[0]
    {
      assert a[..i][0] == b[..i][0];
    }
    if b != [] && a == [] {
      assert FirstDiffers(a, b, 0);
    } else if b != [] && a[0] != b[0] {
      assert a[0] < b[0] ==> FirstDiffers(a, b, 0);
    } else if b != [] {
      LessMeans(a[1..], b[1..]);
      if i: nat :| FirstDiffers(a[1..], b[1..], i) {
        assert a[..i + 1] == [a[0]] + a[1..][..i] && b[..i + 1] == [b[0]] + b[1..][..i];
        assert FirstDiffers(a, b, i + 1);
      }
      if i: nat :| FirstDiffers(a, b, i) {
        assert i > 0;
        assert a[1..][..i - 1] == a[..i][1..] && b[1..][..i - 1] == b[..i][1..];
        assert FirstDiffers(a[1..], b[1..], i - 1);
      }
    }
  }

  lemma {:induction false} LessIrreflexive(a: string)
    ensures !Less(a, a)
  {
    if a != [] {
      LessIrreflexive(a[1..]);
    }
  }

  lemma {:induction false} LessTotal(a: string, b: string)
    ensures Less(a, b) || a == b || Less(b, a)
  {
    if a != [] && b != [] && a[0] == b[0] {
      LessTotal(a[1..], b[1..]);
      assert a == [a[0]] + a[1..] && b == [b[0]] + b[1..];
    }
  }

  lemma {:induction false} LessTransitive(a: string, b: string, c: string)
    requires Less(a, b) && Less(b, c)
    ensures Less(a, c)
  {
    if a != [] && a[0] == b[0] == c[0] {
      LessTransitive(a[1..], b[1..], c[1..]);
    }
  }

  /** A common prefix does not decide an order. */
  lemma {:induction false} LessAfterPrefix(p: string, a: string, b: string)
    ensures Less(p + a, p + b) == Less(a, b)
  {
    if p == [] {
      assert p + a == a && p + b == b;
    } else {
      assert (p + a)[1..] == p[1..] + a && (p + b)[1..] == p[1..] + b;
      LessAfterPrefix(p[1..], a, b);
    }
  }

  /** The first difference decides, whatever follows. */
  lemma {:induction false} LessBeforeSuffix(a: string, b: string, x: string, y: string)
    requires |a| == |b| && Less(a, b)
    ensures Less(a + x, b + y)
  {
    assert (a + x)[0] == a[0] && (b + y)[0] == b[0];
    if a[0] == b[0] {
      assert (a + x)[1..] == a[1..] + x && (b + y)[1..] == b[1..] + y;
      LessBeforeSuffix(a[1..], b[1..], x, y);
    }
  }

  /** Among numerals of one width, byte order is numeric order. */
  lemma {:induction false} PaddedOrder(a: nat, b: nat, width: nat)
    requires a < b < Power10(width)
    ensures Less(Padded(a, width), Padded(b, width))
  {
    var p, q := Padded(a / 10, width - 1), Padded(b / 10, width - 1);
    if a / 10 < b / 10 {
      PaddedOrder(a / 10, b / 10, width - 1);
      LessBeforeSuffix(p, q, [Digit(a % 10)], [Digit(b % 10)]);
    } else {
      LessAfterPrefix(p, [Digit(a % 10)], [Digit(b % 10)]);
    }
  }

  // ---- alphabets ----------------------------------------------------------------

  const LOWER := "abcdefghijklmnopqrstuvwxyz"
  const UPPER := "ABCDEFGHIJKLMNOPQRSTUVWXYZ"
  const DIGITS := "0123456789"

  lemma AlphabetCodes()
    ensures |LOWER| == |UPPER| == 26 && |DIGITS| == 10
    ensures forall i :: 0 <= i < 26 ==> LOWER[i] as int == 97 + i && UPPER[i] as int == 65 + i
    ensures forall i :: 0 <= i < 10 ==> DIGITS[i] as int == 48 + i
  {
  }

  lemma InAlphabet(c: char)
    ensures c in LOWER <==> 'a' <= c <= 'z'
    ensures c in UPPER <==> 'A' <= c <= 'Z'
    ensures c in DIGITS <==> '0' <= c <= '9'
  {
    AlphabetCodes();
    if 'a' <= c <= 'z' {
      assert LOWER[c as int - 97] == c;
    }
    if 'A' <= c <= 'Z' {
      assert UPPER[c as int - 65] == c;
    }
    if '0' <= c <= '9' {
      assert DIGITS[c as int - 48] == c;
    }
  }

  // ---- sets -------------------------------------------------------------------

  lemma {:induction false} SubsetSize(a: set<string>, b: set<string>)
    requires a <= b
    ensures |a| <= |b|
  {
    if x :| x in a {
      SubsetSize(a - {x}, b - {x});
    }
  }
}
