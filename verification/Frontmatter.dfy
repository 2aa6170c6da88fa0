/** The printer of a stored message's header and the small reader that the dedup rebuild
    applies to it. */
module Frontmatter {
  import opened Text

  // ---- printing -----------------------------------------------------------------------

  /** How the TOML library writes a string value. */
  type Render = string -> string

  /** The fields up to `received_at`; `rest` are the lines that follow it. */
  datatype Meta = Meta(
    id: string, messageId: string, threadId: string,
    from: string, to: string, cc: Option<string>, replyTo: Option<string>, deliveredTo: string,
    subject: string, date: string, receivedAt: string,
    rest: seq<string>)

  function FieldLine(render: Render, key: string, value: string): string {
    key + " = " + render(value)
  }

  function OptionalLine(render: Render, key: string, value: Option<string>): seq<string> {
    match value
    case None => []
    case Some(v) => [FieldLine(render, key, v)]
  }

  /** The lines between `message_id` and `received_at`. */
  function MiddleLines(render: Render, meta: Meta): seq<string> {
    [FieldLine(render, "thread_id", meta.threadId), FieldLine(render, "from", meta.from),
     FieldLine(render, "to", meta.to)]
    + OptionalLine(render, "cc", meta.cc)
    + OptionalLine(render, "reply_to", meta.replyTo)
    + [FieldLine(render, "delivered_to", meta.deliveredTo), FieldLine(render, "subject", meta.subject),
       FieldLine(render, "date", meta.date)]
  }

  /** The lines up to `received_at`. */
  function LeadingLines(render: Render, meta: Meta): seq<string> {
    [FieldLine(render, "id", meta.id), FieldLine(render, "message_id", meta.messageId)] + MiddleLines(render, meta)
  }

  function HeaderLines(render: Render, meta: Meta): seq<string> {
    LeadingLines(render, meta) + [FieldLine(render, "received_at", meta.receivedAt)] + meta.rest
  }

  function Block(lines: seq<string>): string {
    if lines == [] then "" else lines[0] + "\n" + Block(lines[1..])
  }

  predicate EndsWithNewline(s: string) {
    s != "" && s[|s| - 1] == '\n'
  }

  function Formatted(render: Render, meta: Meta, body: string): string {
    "+++\n" + Block(HeaderLines(render, meta)) + "+++\n\n" + body + (if EndsWithNewline(body) then "" else "\n")
  }

  // ---- reading --------------------------------------------------------------------------

  const HEAD_BYTES := 16 * 1024

  /** The first 16 KiB, unless they end within a character. */
  function Head(text: string): Option<string> {
    if ByteLen(text) <= HEAD_BYTES then Some(text)
    else if IsCharBoundary(text, HEAD_BYTES) then Some(TakeBytes(text, HEAD_BYTES))
    else None
  }

  /** The head is as many whole characters as make up 16 KiB, or the whole text if it is shorter; there is
      none if a character lies across that boundary. */
  lemma HeadMeans(text: string)
    ensures Head(text).Some? ==>
      && |Head(text).value| <= |text| && Head(text).value == text[..|Head(text).value|]
      && ByteLen(Head(text).value) == (if ByteLen(text) <= 16384 then ByteLen(text) else 16384)
    ensures Head(text).None? <==>
      ByteLen(text) > 16384 && forall n: nat :: n <= |text| ==> ByteLen(text[..n]) != 16384
  {
    BoundaryMeans(text, HEAD_BYTES);
    if ByteLen(text) <= HEAD_BYTES {
      assert text[..|text|] == text;
    } else if IsCharBoundary(text, HEAD_BYTES) {
      TakeBytesIsPrefix(text, HEAD_BYTES);
    }
  }

  function Find(s: string, pattern: string): (at: Option<nat>)
    ensures at.Some? ==> at.value <= |s| && StartsWith(s[at.value..], pattern)
    ensures at.Some? ==> forall i :: 0 <= i < at.value ==> !StartsWith(s[i..], pattern)
    ensures at.None? ==> forall i :: 0 <= i <= |s| ==> !StartsWith(s[i..], pattern)
  {
    if StartsWith(s, pattern) then
      assert s[0..] == s;
      Some(0)
    else if s == [] then
      assert s[0..] == s;
      None
    else
      var rest := Find(s[1..], pattern);
      assert forall i :: 1 <= i <= |s| ==> s[i..] == s[1..][i - 1..];
      assert s[0..] == s;
      if rest.Some? then Some(rest.value + 1) else None
  }

  function StripCr(line: string): string {
    if line != "" && line[|line| - 1] == '\r' then line[..|line| - 1] else line
  }

  function TextLines(s: string): seq<string>
    decreases |s|
  {
    if s == "" then []
    else
      var at := Find(s, "\n");
      if at.None? then [s] else [StripCr(s[..at.value])] + TextLines(s[at.value + 1..])
  }

  /** What follows the key of a `key = "value"` line. */
  function ParseTomlStringValue(afterKey: string): Option<string> {
    var a := TrimStart(afterKey);
    if !StartsWith(a, "=") then None
    else
      var b := TrimStart(a[1..]);
      if !StartsWith(b, "\"") then None
      else
        var end := Find(b[1..], "\"");
        if end.None? then None else Some(b[1..][..end.value])
  }

  type Found = (Option<string>, Option<string>)

  function ScanLine(raw: string, found: Found): Found {
    var line := TrimStart(raw);
    if found.0.None? && StartsWith(line, "message_id") && ParseTomlStringValue(line[10..]).Some? then
      (ParseTomlStringValue(line[10..]), found.1)
    else if found.1.None? && StartsWith(line, "received_at") && ParseTomlStringValue(line[11..]).Some? then
      (found.0, ParseTomlStringValue(line[11..]))
    else found
  }

  function Scan(lines: seq<string>, found: Found): Found {
    if lines == [] then found else Scan(lines[1..], ScanLine(lines[0], found))
  }

  /** Once both values are found, nothing changes them. */
  lemma {:induction false} ScanIsDone(lines: seq<string>, found: Found)
    requires found.0.Some? && found.1.Some?
    ensures Scan(lines, found) == found
  {
    if lines != [] {
      ScanIsDone(lines[1..], found);
    }
  }

  /** The lines between the delimiters. */
  function HeaderBlock(head: string): Option<string> {
    if !StartsWith(head, "+++\n") && !StartsWith(head, "+++\r\n") then None
    else
      var rest := if StartsWith(head, "+++\n") then head[4..] else head[5..];
      var end := Find(rest, "\n+++");
      if end.Some? then Some(rest[..end.value]) else None
  }

  /** Reading a time stamp, left open. */
  type ReadTime = string -> Option<nat>

  /** What a stored header is taken to say: an id and when it was received. */
  datatype Reading = Reading(id: string, at: nat)

  /** The bytes of a file: those of the longest prefix that is text, and `more` bytes behind it. */
  datatype Content = Content(text: string, more: nat)

  function AllText(text: string): Content {
    Content(text, 0)
  }

  /** The bytes that are read hold none of those behind the text. */
  predicate HeadIsText(content: Content) {
    content.more == 0 || ByteLen(content.text) >= HEAD_BYTES
  }

  function Combine(readTime: ReadTime, found: Found): Option<Reading> {
    if found.0.None? || found.0.value == "" || found.1.None? then None
    else
      var time := readTime(found.1.value);
      if time.None? then None else Some(Reading(found.0.value, time.value))
  }

  function IdPair(readTime: ReadTime, text: string): Option<Reading> {
    var head := Head(text);
    if head.None? then None
    else
      var header := HeaderBlock(head.value);
      if header.None? then None else Combine(readTime, Scan(TextLines(header.value), (None, None)))
  }

  function ReadingOf(readTime: ReadTime, content: Content): (reading: Option<Reading>)
    ensures reading.Some? ==> reading.value.id != ""
  {
    if HeadIsText(content) then IdPair(readTime, content.text) else None
  }

  /** The second delimiter the reader tries can never be found: the first is part of it. */
  lemma FallbackDelimiterIsDead(s: string)
    ensures Find(s, "\n+++").None? ==> Find(s, "\r\n+++").None?
  {
    if i: nat :| i <= |s| && StartsWith(s[i..], "\r\n+++") {
      assert s[i..][..5] == "\r\n+++";
      assert s[i + 1..][..4] == s[i..][..5][1..] == "\n+++";
      assert StartsWith(s[i + 1..], "\n+++");
    }
  }

  method ReadFrontmatterIdPair(readTime: ReadTime, content: Content) returns (pair: Option<Reading>)
    ensures pair == ReadingOf(readTime, content)
    ensures content.more > 0 && ByteLen(content.text) < 16384 ==> pair == None
  {
    hide ScanLine, Find, TextLines, Head, ByteLen;
    if content.more != 0 && ByteLen(content.text) < HEAD_BYTES {
      return None;
    }
    var head := Head(content.text);
    if head.None? {
      return None;
    }
    var rest := head.value;
    if StartsWith(rest, "+++\n") {
      rest := rest[4..];
    } else if StartsWith(rest, "+++\r\n") {
      rest := rest[5..];
    } else {
      return None;
    }
    var end := Find(rest, "\n+++");
    if end.None? {
      FallbackDelimiterIsDead(rest);
      end := Find(rest, "\r\n+++");
    }
    if end.None? {
      return None;
    }
    var lines := TextLines(rest[..end.value]);
    var messageId: Option<string>, receivedAt: Option<string> := None, None;
    var i := 0;
    while i < |lines|
      invariant i <= |lines|
      invariant Scan(lines[i..], (messageId, receivedAt)) == Scan(lines, (None, None))
    {
      assert lines[i..][1..] == lines[i + 1..];
      var found := ScanLine(lines[i], (messageId, receivedAt));
      messageId, receivedAt := found.0, found.1;
      i := i + 1;
      if messageId.Some? && receivedAt.Some? {
        ScanIsDone(lines[i..], (messageId, receivedAt));
        break;
      }
    }
    if messageId.None? || messageId.value == "" || receivedAt.None? {
      return None;
    }
    var time := readTime(receivedAt.value);
    if time.None? {
      return None;
    }
    pair := Some(Reading(messageId.value, time.value));
  }

  // ---- one value ------------------------------------------------------------------------

  /** Exactly the text up to the next quote is returned: a value is read back when it was
      printed between quotes and has none itself. */
  lemma ParseMeans(printed: string, value: string)
    ensures ParseTomlStringValue(" = " + printed) == Some(value)
      <==> '"' !in value && StartsWith(TrimStart(printed), "\"" + value + "\"")
  {
    var b := TrimStart(printed);
    TrimKeepsFirst(" = " + printed, printed);
    assert "\"" + value + "\"" == ['"'] + (value + "\"");
    StartsWithFirst(b, '"', value + "\"");
    StartsWithFirst(b, '"', "");
    assert ['"'] + "" == "\"";
    if b != "" && b[0] == '"' {
      QuoteEnds(b[1..], value);
    }
  }

  lemma StartsAt(s: string, i: nat, pattern: string)
    requires i <= |s|
    ensures StartsWith(s[i..], pattern)
      <==> i + |pattern| <= |s| && forall k :: 0 <= k < |pattern| ==> s[i + k] == pattern[k]
  {
    if i + |pattern| <= |s| {
      assert s[i..][..|pattern|] == s[i..i + |pattern|];
    }
  }

  lemma CharAt(s: string, i: nat, c: char)
    requires i <= |s|
    ensures StartsWith(s[i..], [c]) <==> i < |s| && s[i] == c
  {
    if i < |s| {
      assert s[i..][..1] == [s[i]];
    }
  }

  lemma StartsHere(s: string, pattern: string)
    ensures StartsWith(s, pattern) <==> |pattern| <= |s| && forall k :: 0 <= k < |pattern| ==> s[k] == pattern[k]
  {
    if |pattern| <= |s| && forall k :: 0 <= k < |pattern| ==> s[k] == pattern[k] {
      assert s[..|pattern|] == pattern;
    }
    if StartsWith(s, pattern) {
      forall k | 0 <= k < |pattern|
        ensures s[k] == pattern[k]
      {
        assert s[..|pattern|][k] == s[k];
      }
    }
  }

  lemma StartsWithFirst(s: string, first: char, pattern: string)
    ensures StartsWith(s, [first] + pattern) <==> s != "" && s[0] == first && StartsWith(s[1..], pattern)
  {
    if s != "" && |pattern| < |s| {
      assert s[..|pattern| + 1] == [s[0]] + s[1..][..|pattern|];
      assert ([s[0]] + s[1..][..|pattern|])[1..] == s[1..][..|pattern|];
      assert ([first] + pattern)[1..] == pattern && ([first] + pattern)[0] == first;
    }
  }

  lemma TrimKeepsFirst(s: string, printed: string)
    requires s == " = " + printed
    ensures TrimStart(s) == "= " + printed && StartsWith(TrimStart(s), "=")
    ensures TrimStart(TrimStart(s)[1..]) == TrimStart(printed)
  {
    var t := "= " + printed;
    assert s[0] == ' ' && s[1..] == t;
    assert t[0] == '=' && t[..1] == "=" && TrimStart(t) == t;
    assert t[1..] == " " + printed;
    assert (" " + printed)[0] == ' ' && (" " + printed)[1..] == printed;
  }

  lemma QuoteEnds(s: string, value: string)
    ensures (Find(s, "\"").Some? && s[..Find(s, "\"").value] == value)
      <==> '"' !in value && StartsWith(s, value + "\"")
  {
    hide Find, StartsWith;
    var end := Find(s, "\"");
    forall i | 0 <= i <= |s|
      ensures StartsWith(s[i..], "\"") <==> i < |s| && s[i] == '"'
    {
      CharAt(s, i, '"');
      assert ['"'] == "\"";
    }
    StartsHere(s, value + "\"");
    assert (value + "\"")[|value|] == '"';
    assert forall i :: 0 <= i < |value| ==> (value + "\"")[i] == value[i];
    if end.Some? && s[..end.value] == value {
      forall i | 0 <= i < |value|
        ensures value[i] != '"'
      {
        assert !StartsWith(s[i..], "\"");
        assert value[i] == s[i];
      }
    }
    if '"' !in value && StartsWith(s, value + "\"") {
      assert s[|value|] == '"';
      forall i | 0 <= i < |value|
        ensures s[i] != '"'
      {
        assert (value + "\"")[i] == value[i] && value[i] in value;
      }
      assert StartsWith(s[|value|..], "\"");
      assert end.Some? && end.value == |value|;
      assert s[..|value|] == value;
    }
  }
}
