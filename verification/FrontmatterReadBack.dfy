/** What the header reader makes of what the printer wrote: for every header and body, for
    files cut short, and for the ways in which TOML can write a value. */
module FrontmatterReadBack {
  import opened Text
  import opened Frontmatter

  // ---- the block that is read --------------------------------------------------------------

  /** What is found in a whole is found in a prefix that holds all of it, and in no shorter one. */
  lemma FindInPrefix(s: string, t: string, pattern: string)
    requires |t| <= |s| && t == s[..|t|]
    ensures Find(t, pattern) ==
      if Find(s, pattern).Some? && Find(s, pattern).value + |pattern| <= |t| then Find(s, pattern) else None
  {
    hide Find, StartsWith;
    forall i | 0 <= i <= |t|
      ensures StartsWith(t[i..], pattern) <==> i + |pattern| <= |t| && StartsWith(s[i..], pattern)
    {
      SameStart(s, t, i, pattern);
    }
    var whole, part := Find(s, pattern), Find(t, pattern);
    if whole.Some? && whole.value <= |t| && part.Some? {
      assert whole.value == part.value;
    }
  }

  lemma SameStart(s: string, t: string, i: nat, pattern: string)
    requires i <= |t| <= |s| && t == s[..|t|]
    ensures StartsWith(t[i..], pattern) <==> i + |pattern| <= |t| && StartsWith(s[i..], pattern)
  {
    if i + |pattern| <= |t| {
      assert t[i..][..|pattern|] == s[i..][..|pattern|];
    }
  }

  lemma StartsWithItself(s: string)
    ensures StartsWith(s, s)
  {
    assert s[..|s|] == s;
  }

  /** The part of a printed block that the reader takes for the header: all of it, unless a
      value printed over several lines shows the closing delimiter early. */
  function Shown(block: string): (shown: string)
    ensures |shown| <= |block|
  {
    var end := Find(block + "+++", "\n+++");
    if end.Some? && end.value <= |block| then block[..end.value] else block
  }

  lemma ClosedTail(block: string)
    requires EndsWithNewline(block)
    ensures (block + "+++")[|block| - 1..] == "\n+++"
  {
  }

  lemma ShownEnds(block: string)
    requires EndsWithNewline(block)
    ensures var end := Find(block + "+++", "\n+++");
      end.Some? && end.value < |block| && Shown(block) == block[..end.value]
  {
    hide Find, StartsWith;
    var s := block + "+++";
    ClosedTail(block);
    StartsWithItself("\n+++");
    var end := Find(s, "\n+++");
    assert StartsWith(s[|block| - 1..], "\n+++") && end.Some?;
  }

  lemma HeaderOfHead(block: string, tail: string, head: string)
    requires EndsWithNewline(block)
    requires var text := "+++\n" + block + "+++" + tail; |head| <= |text| && head == text[..|head|]
    ensures HeaderBlock(head) == if |head| >= |Shown(block)| + 8 then Some(Shown(block)) else None
  {
    hide Find, StartsWith;
    var text := "+++\n" + block + "+++" + tail;
    StartsHere(head, "+++\n");
    StartsHere(head, "+++\r\n");
    ShownEnds(block);
    assert text[0] == text[1] == text[2] == '+' && text[3] == '\n';
    if |head| >= 4 {
      var all, closed, rest := block + "+++" + tail, block + "+++", head[4..];
      assert closed == all[..|closed|];
      assert rest == all[..|rest|];
      FindInPrefix(all, closed, "\n+++");
      FindInPrefix(all, rest, "\n+++");
      if |rest| >= |Shown(block)| + 4 {
        assert rest[..|Shown(block)|] == block[..|Shown(block)|];
      }
    }
  }

  /** The value of the first line that gives `key` one. */
  function ValueOf(line: string, key: string): Option<string> {
    var trimmed := TrimStart(line);
    if StartsWith(trimmed, key) then ParseTomlStringValue(trimmed[|key|..]) else None
  }

  function FirstValue(lines: seq<string>, key: string): Option<string> {
    if lines == [] then None
    else if ValueOf(lines[0], key).Some? then ValueOf(lines[0], key)
    else FirstValue(lines[1..], key)
  }

  function OrElse(a: Option<string>, b: Option<string>): Option<string> {
    if a.Some? then a else b
  }

  lemma OneKeyPerLine(line: string)
    ensures ValueOf(line, "message_id").None? || ValueOf(line, "received_at").None?
  {
    hide ParseTomlStringValue;
    StartsHere(TrimStart(line), "message_id");
    StartsHere(TrimStart(line), "received_at");
    assert "message_id"[0] == 'm' && "received_at"[0] == 'r';
  }

  /** One scan for both keys finds for each the first line that gives it a value. */
  lemma {:induction false} ScanIsFirst(lines: seq<string>, found: Found)
    ensures Scan(lines, found)
         == (OrElse(found.0, FirstValue(lines, "message_id")), OrElse(found.1, FirstValue(lines, "received_at")))
  {
    hide ParseTomlStringValue, TrimStart;
    if lines != [] {
      OneKeyPerLine(lines[0]);
      ScanIsFirst(lines[1..], ScanLine(lines[0], found));
    }
  }

  // ---- every header, every body, every cut ---------------------------------------------------

  /** What a printed header says to the reader. */
  function Told(render: Render, readTime: ReadTime, meta: Meta): Option<Reading> {
    var lines := TextLines(Shown(Block(HeaderLines(render, meta))));
    Combine(readTime, (FirstValue(lines, "message_id"), FirstValue(lines, "received_at")))
  }

  /** The head of the file is text and goes as far as the delimiter that ends the header. */
  predicate Reaches(render: Render, meta: Meta, text: string) {
    Head(text).Some? && |Head(text).value| >= |Shown(Block(HeaderLines(render, meta)))| + 8
  }

  lemma {:induction false} BlockEnds(lines: seq<string>)
    requires lines != []
    ensures EndsWithNewline(Block(lines))
  {
    if |lines| > 1 {
      BlockEnds(lines[1..]);
      assert Block(lines)[|Block(lines)| - 1] == Block(lines[1..])[|Block(lines[1..])| - 1];
    } else {
      assert Block(lines) == lines[0] + "\n" + Block([]);
    }
  }

  lemma HeaderNotEmpty(render: Render, meta: Meta)
    ensures HeaderLines(render, meta) != []
  {
  }

  lemma HeadIsPrefix(text: string)
    requires Head(text).Some?
    ensures |Head(text).value| <= |text| && Head(text).value == text[..|Head(text).value|]
  {
    if ByteLen(text) > HEAD_BYTES {
      TakeBytesIsPrefix(text, HEAD_BYTES);
    }
  }

  /** A message that was written up to any byte, `n` whole characters and `more` bytes, reads as its
      header says when the head is text and reaches the end of the header, and not at all otherwise. */
  lemma PrefixReads(render: Render, readTime: ReadTime, meta: Meta, body: string, n: nat, more: nat)
    requires n <= |Formatted(render, meta, body)|
    ensures var part := Content(Formatted(render, meta, body)[..n], more);
      ReadingOf(readTime, part)
      == if HeadIsText(part) && Reaches(render, meta, part.text) then Told(render, readTime, meta) else None
  {
    hide HeaderLines, HeaderBlock, Scan, TextLines, Head, Shown, FirstValue, Combine, ByteLen;
    var text := Formatted(render, meta, body);
    var part := text[..n];
    var block := Block(HeaderLines(render, meta));
    var tail := "\n\n" + body + (if EndsWithNewline(body) then "" else "\n");
    assert text == "+++\n" + block + "+++" + tail;
    HeaderNotEmpty(render, meta);
    BlockEnds(HeaderLines(render, meta));
    if Head(part).Some? {
      var head := Head(part).value;
      HeadIsPrefix(part);
      assert head == text[..|head|];
      HeaderOfHead(block, tail, head);
      ScanIsFirst(TextLines(Shown(block)), (None, None));
    }
  }

  /** ... so does a whole message, whatever its fields, its body and the way they are printed. */
  lemma ReadBack(render: Render, readTime: ReadTime, meta: Meta, body: string)
    ensures var text := Formatted(render, meta, body);
      IdPair(readTime, text) == if Reaches(render, meta, text) then Told(render, readTime, meta) else None
  {
    var text := Formatted(render, meta, body);
    assert text[..|text|] == text;
    PrefixReads(render, readTime, meta, body, |text|, 0);
  }

  // ---- headers of single lines -----------------------------------------------------------------

  predicate IsSingleLine(line: string) {
    forall i :: 0 <= i < |line| ==> line[i] != '\n' && line[i] != '\r'
  }

  /** Lines none of which looks like the delimiter. */
  predicate IsHeader(lines: seq<string>) {
    forall i :: 0 <= i < |lines| ==> IsSingleLine(lines[i]) && (lines[i] == "" || lines[i][0] != '+')
  }

  lemma {:induction false} BlockShape(lines: seq<string>)
    requires IsHeader(lines)
    ensures Block(lines) != "" ==> Block(lines)[0] != '+'
    ensures forall i :: 0 <= i < |Block(lines)| - 1 && Block(lines)[i] == '\n' ==> Block(lines)[i + 1] != '+'
  {
    if lines != [] {
      var line, rest := lines[0], Block(lines[1..]);
      BlockShape(lines[1..]);
      assert Block(lines) == line + "\n" + rest;
      forall i | 0 <= i < |Block(lines)| - 1 && Block(lines)[i] == '\n'
        ensures Block(lines)[i + 1] != '+'
      {
        if i > |line| {
          assert rest[i - |line| - 1] == Block(lines)[i] && rest[i - |line|] == Block(lines)[i + 1];
        } else if i == |line| {
          assert rest[0] == Block(lines)[i + 1];
        }
      }
    }
  }

  /** The whole block is shown, but for its last newline. */
  lemma ShownIsAll(block: string)
    requires EndsWithNewline(block)
    requires forall i :: 0 <= i < |block| - 1 && block[i] == '\n' ==> block[i + 1] != '+'
    ensures Shown(block) == block[..|block| - 1]
  {
    hide Find, StartsWith;
    var s := block + "+++";
    ShownEnds(block);
    var end := Find(s, "\n+++").value;
    StartsAt(s, end, "\n+++");
    assert "\n+++"[0] == '\n' && "\n+++"[1] == '+';
    assert s[end + 0] == '\n' && s[end + 1] == '+';
    assert forall i :: 0 <= i < |block| ==> s[i] == block[i];
  }

  lemma FirstLine(line: string, tail: string)
    requires IsSingleLine(line)
    ensures TextLines(line + "\n" + tail) == [line] + TextLines(tail)
    ensures line != "" ==> TextLines(line) == [line]
  {
    hide Find;
    var s := line + "\n" + tail;
    assert ['\n'] == "\n";
    CharAt(s, |line|, '\n');
    assert s[|line|] == '\n';
    assert forall i :: 0 <= i < |line| ==> s[i] == line[i];
    var at := Find(s, "\n");
    assert at.Some?;
    CharAt(s, at.value, '\n');
    assert at.value == |line|;
    assert s[..|line|] == line && s[|line| + 1..] == tail;
    if line != "" {
      var none := Find(line, "\n");
      if none.Some? {
        CharAt(line, none.value, '\n');
      }
    }
  }

  /** Lines and an opening delimiter that end in CR LF read as those that end in LF. */
  lemma CrLfReads(line: string, tail: string)
    requires IsSingleLine(line)
    ensures TextLines(line + "\r\n" + tail) == [line] + TextLines(tail)
    ensures HeaderBlock("+++\r\n" + tail) == HeaderBlock("+++\n" + tail)
  {
    hide Find, StartsWith;
    var s := line + "\r\n" + tail;
    CrLfLine(line, tail);
    forall i | 0 <= i <= |s|
      ensures StartsWith(s[i..], "\n") <==> i < |s| && s[i] == '\n'
    {
      CharAt(s, i, '\n');
      assert ['\n'] == "\n";
    }
    var at := Find(s, "\n");
    assert StartsWith(s[|line| + 1..], "\n") && at.Some? && at.value == |line| + 1;
    OpensHeader(tail);
  }

  lemma CrLfLine(line: string, tail: string)
    requires IsSingleLine(line)
    ensures var s := line + "\r\n" + tail;
      && s[|line|] == '\r' && s[|line| + 1] == '\n' && (forall i :: 0 <= i <= |line| ==> s[i] != '\n')
      && StripCr(s[..|line| + 1]) == line && s[|line| + 2..] == tail
  {
    var s := line + "\r\n" + tail;
    assert forall i :: 0 <= i < |line| ==> s[i] == line[i];
    assert s[..|line| + 1] == line + "\r";
  }

  lemma OpensHeader(tail: string)
    ensures HeaderBlock("+++\r\n" + tail) == HeaderBlock("+++\n" + tail)
  {
    hide Find;
    var a, b := "+++\r\n" + tail, "+++\n" + tail;
    assert a[3] == '\r' && a[..5] == "+++\r\n" && a[5..] == tail;
    assert b[..4] == "+++\n" && b[4..] == tail;
    assert a[..4] != "+++\n";
  }

  /** Lines are found again in a block without its last newline; an empty last line is not seen. */
  lemma {:induction false} LinesOfBlock(lines: seq<string>)
    requires IsHeader(lines) && lines != []
    ensures TextLines(Block(lines)[..|Block(lines)| - 1])
         == if lines[|lines| - 1] == "" then lines[..|lines| - 1] else lines
  {
    hide TextLines, Block, IsSingleLine;
    var line, rest := lines[0], lines[1..];
    BlockFirst(lines);
    if rest == [] {
      assert Block(lines)[..|Block(lines)| - 1] == line;
      FirstLine(line, "");
      NoLines();
    } else {
      LinesOfBlock(rest);
      BlockEnds(rest);
      var more := Block(rest)[..|Block(rest)| - 1];
      assert Block(lines)[..|Block(lines)| - 1] == line + "\n" + more by { DropLast(line + "\n", Block(rest)); }
      FirstLine(line, more);
      assert [line] + rest == lines && [line] + rest[..|rest| - 1] == lines[..|lines| - 1];
    }
  }

  lemma BlockFirst(lines: seq<string>)
    requires lines != []
    ensures Block(lines) == lines[0] + "\n" + Block(lines[1..]) && Block([]) == ""
  {
  }

  lemma DropLast(a: string, b: string)
    requires b != ""
    ensures (a + b)[..|a + b| - 1] == a + b[..|b| - 1]
  {
  }

  lemma NoLines()
    ensures TextLines("") == []
  {
  }

  lemma {:induction false} FirstValueConcat(a: seq<string>, b: seq<string>, key: string)
    ensures FirstValue(a + b, key) == OrElse(FirstValue(a, key), FirstValue(b, key))
  {
    hide ValueOf;
    if a == [] {
      assert a + b == b;
    } else {
      assert (a + b)[1..] == a[1..] + b;
      FirstValueConcat(a[1..], b, key);
    }
  }

  /** So the values are those of the printed lines themselves. */
  lemma HeaderShows(lines: seq<string>, key: string)
    requires IsHeader(lines) && lines != [] && key != ""
    ensures FirstValue(TextLines(Shown(Block(lines))), key) == FirstValue(lines, key)
  {
    hide Shown, TextLines, Block, FirstValue, IsHeader;
    BlockEnds(lines);
    BlockShape(lines);
    ShownIsAll(Block(lines));
    LinesOfBlock(lines);
    var front, last := lines[..|lines| - 1], lines[|lines| - 1];
    assert lines == front + [last];
    FirstValueConcat(front, [last], key);
    EmptyGivesNothing(key);
  }

  lemma EmptyGivesNothing(key: string)
    requires key != ""
    ensures FirstValue([""], key) == None
  {
    hide ParseTomlStringValue;
    assert FirstValue([""], key) == OrElse(ValueOf("", key), FirstValue([], key));
  }

  /** A line that gives neither key a value. */
  predicate IsQuiet(line: string) {
    !StartsWith(TrimStart(line), "message_id") && !StartsWith(TrimStart(line), "received_at")
  }

  predicate AllQuiet(lines: seq<string>) {
    forall i :: 0 <= i < |lines| ==> IsQuiet(lines[i])
  }

  lemma {:induction false} QuietGivesNothing(lines: seq<string>)
    requires AllQuiet(lines)
    ensures FirstValue(lines, "message_id").None? && FirstValue(lines, "received_at").None?
  {
    hide ParseTomlStringValue;
    if lines != [] {
      QuietGivesNothing(lines[1..]);
    }
  }

  lemma FieldIsQuiet(render: Render, key: string, value: string)
    requires |key| >= 2 && !IsWhitespace(key[0])
    requires key[0] != 'm' && (key[0] != 'r' || (|key| >= 3 && key[2] != 'c'))
    ensures IsQuiet(FieldLine(render, key, value))
  {
    var line := FieldLine(render, key, value);
    assert line[0] == key[0] && TrimStart(line) == line;
    StartsHere(line, "message_id");
    StartsHere(line, "received_at");
    assert "message_id"[0] == 'm' && "received_at"[0] == 'r' && "received_at"[2] == 'c';
    assert |key| >= 3 ==> line[2] == key[2];
  }

  lemma MiddleIsQuiet(render: Render, meta: Meta)
    ensures AllQuiet(MiddleLines(render, meta))
  {
    hide IsQuiet, FieldLine;
    FieldIsQuiet(render, "thread_id", meta.threadId);
    FieldIsQuiet(render, "from", meta.from);
    FieldIsQuiet(render, "to", meta.to);
    if meta.cc.Some? {
      FieldIsQuiet(render, "cc", meta.cc.value);
    }
    if meta.replyTo.Some? {
      FieldIsQuiet(render, "reply_to", meta.replyTo.value);
    }
    FieldIsQuiet(render, "delivered_to", meta.deliveredTo);
    FieldIsQuiet(render, "subject", meta.subject);
    FieldIsQuiet(render, "date", meta.date);
  }

  lemma FieldValues(render: Render, id: string, at: string)
    ensures FirstValue([FieldLine(render, "message_id", id)], "message_id") == ParseTomlStringValue(" = " + render(id))
    ensures FirstValue([FieldLine(render, "message_id", id)], "received_at") == None
    ensures FirstValue([FieldLine(render, "received_at", at)], "received_at")
        == ParseTomlStringValue(" = " + render(at))
    ensures FirstValue([FieldLine(render, "received_at", at)], "message_id") == None
  {
    hide ParseTomlStringValue;
    var a, b := FieldLine(render, "message_id", id), FieldLine(render, "received_at", at);
    assert a[0] == 'm' && TrimStart(a) == a && a[..10] == "message_id" && a[10..] == " = " + render(id);
    assert b[0] == 'r' && TrimStart(b) == b && b[..11] == "received_at" && b[11..] == " = " + render(at);
    StartsHere(a, "received_at");
    StartsHere(b, "message_id");
    assert "message_id"[0] == 'm' && "received_at"[0] == 'r';
    assert FirstValue([a][1..], "message_id") == None && FirstValue([b][1..], "received_at") == None;
  }

  lemma FirstOfHeader(render: Render, meta: Meta)
    requires AllQuiet(meta.rest)
    ensures FirstValue(HeaderLines(render, meta), "message_id") == ParseTomlStringValue(" = " + render(meta.messageId))
    ensures FirstValue(HeaderLines(render, meta), "received_at")
        == ParseTomlStringValue(" = " + render(meta.receivedAt))
  {
    hide FirstValue, FieldLine, MiddleLines, ParseTomlStringValue, IsQuiet;
    var first, idLine := FieldLine(render, "id", meta.id), FieldLine(render, "message_id", meta.messageId);
    var middle, stamp := MiddleLines(render, meta), FieldLine(render, "received_at", meta.receivedAt);
    FieldIsQuiet(render, "id", meta.id);
    MiddleIsQuiet(render, meta);
    FieldValues(render, meta.messageId, meta.receivedAt);
    QuietGivesNothing([first]);
    QuietGivesNothing(middle);
    QuietGivesNothing(meta.rest);
    assert HeaderLines(render, meta) == [first] + ([idLine] + (middle + ([stamp] + meta.rest)));
    forall key
      ensures FirstValue(HeaderLines(render, meta), key) ==
        OrElse(FirstValue([first], key), OrElse(FirstValue([idLine], key),
               OrElse(FirstValue(middle, key), OrElse(FirstValue([stamp], key), FirstValue(meta.rest, key)))))
    {
      FirstValueConcat([first], [idLine] + (middle + ([stamp] + meta.rest)), key);
      FirstValueConcat([idLine], middle + ([stamp] + meta.rest), key);
      FirstValueConcat(middle, [stamp] + meta.rest, key);
      FirstValueConcat([stamp], meta.rest, key);
    }
  }

  /** When every value is printed on one line, the header says what stands behind the two keys,
      escaped or not. */
  lemma OneLineTold(render: Render, readTime: ReadTime, meta: Meta)
    requires IsHeader(HeaderLines(render, meta)) && AllQuiet(meta.rest)
    ensures Told(render, readTime, meta) == Combine(readTime,
              (ParseTomlStringValue(" = " + render(meta.messageId)),
               ParseTomlStringValue(" = " + render(meta.receivedAt))))
  {
    hide HeaderLines, TextLines, Shown, FirstValue, ParseTomlStringValue, Combine, IsHeader, IsQuiet;
    HeaderNotEmpty(render, meta);
    HeaderShows(HeaderLines(render, meta), "message_id");
    HeaderShows(HeaderLines(render, meta), "received_at");
    FirstOfHeader(render, meta);
  }

  /** The value is printed between quotes and has none itself. */
  predicate PrintsPlain(render: Render, value: string) {
    '"' !in value && StartsWith(TrimStart(render(value)), "\"" + value + "\"")
  }

  /** The true id and time are read back exactly when the head reaches the end of the header and
      both are printed as they are. */
  lemma ReadsTrueIff(render: Render, readTime: ReadTime, meta: Meta, body: string, time: nat)
    requires IsHeader(HeaderLines(render, meta)) && AllQuiet(meta.rest)
    requires PrintsPlain(render, meta.receivedAt) && readTime(meta.receivedAt) == Some(time)
    ensures IdPair(readTime, Formatted(render, meta, body)) == Some(Reading(meta.messageId, time)) <==>
      && Reaches(render, meta, Formatted(render, meta, body))
      && meta.messageId != "" && PrintsPlain(render, meta.messageId)
  {
    hide HeaderLines, Told, Reaches, ParseTomlStringValue, TrimStart, StartsWith, Formatted, IdPair, IsHeader, IsQuiet;
    ReadBack(render, readTime, meta, body);
    OneLineTold(render, readTime, meta);
    ParseMeans(render(meta.messageId), meta.messageId);
    ParseMeans(render(meta.receivedAt), meta.receivedAt);
  }

  // ---- the whole file, taken apart again ---------------------------------------------------------

  /** The keys of a header in their order, each with its value. */
  function Fields(meta: Meta): seq<(string, string)> {
    [("id", meta.id), ("message_id", meta.messageId), ("thread_id", meta.threadId),
     ("from", meta.from), ("to", meta.to)]
    + (if meta.cc.Some? then [("cc", meta.cc.value)] else [])
    + (if meta.replyTo.Some? then [("reply_to", meta.replyTo.value)] else [])
    + [("delivered_to", meta.deliveredTo), ("subject", meta.subject), ("date", meta.date),
       ("received_at", meta.receivedAt)]
  }

  /** Every value is printed on one line, and what follows the fields is lines too. */
  predicate PrintsLines(render: Render, meta: Meta) {
    && (forall i :: 0 <= i < |Fields(meta)| ==> IsSingleLine(render(Fields(meta)[i].1)))
    && IsHeader(meta.rest)
  }

  /** What stands in the file behind the line that ends the header. */
  function BehindHeader(text: string): Option<string> {
    if !StartsWith(text, "+++\n") then None
    else
      var end := Find(text[4..], "\n+++");
      if end.None? then None else Some(text[4..][end.value + 4..])
  }

  /** The lines of the header as the reader takes them from the file. */
  function HeaderOf(text: string): seq<string> {
    var block := HeaderBlock(text);
    if block.None? then [] else TextLines(block.value)
  }

  /** The first line that assigns to a key, and what it assigns. */
  function Assigned(lines: seq<string>, key: string): Option<string> {
    if lines == [] then None
    else if StartsWith(lines[0], key + " = ") then Some(lines[0][|key| + 3..])
    else Assigned(lines[1..], key)
  }

  predicate IsKey(key: string) {
    key != "" && key[0] != '+' && IsSingleLine(key) && ' ' !in key
  }

  function FieldLines(render: Render, fields: seq<(string, string)>): (lines: seq<string>)
    ensures |lines| == |fields|
    ensures forall i :: 0 <= i < |fields| ==> lines[i] == fields[i].0 + " = " + render(fields[i].1)
  {
    seq(|fields|, i requires 0 <= i < |fields| => fields[i].0 + " = " + render(fields[i].1))
  }

  lemma FieldLineIsOne(render: Render, key: string, value: string)
    requires IsKey(key) && IsSingleLine(render(value))
    ensures var line := key + " = " + render(value); IsSingleLine(line) && line != "" && line[0] != '+'
  {
  }

  const KEYS := ["id", "message_id", "thread_id", "from", "to", "cc", "reply_to", "delivered_to", "subject", "date",
                 "received_at"]

  lemma KeysAreApart()
    ensures forall i :: 0 <= i < |KEYS| ==> IsKey(KEYS[i])
    ensures forall i, j :: 0 <= i < j < |KEYS| ==> KEYS[i] != KEYS[j]
  {
  }

  /** Where among all keys the key of field `i` stands. */
  function Rank(meta: Meta, i: nat): nat {
    if i < 5 then i
    else if meta.cc.Some? && (meta.replyTo.Some? || i == 5) then i
    else if meta.cc.None? && meta.replyTo.None? then i + 2
    else i + 1
  }

  lemma FieldsAreRanked(meta: Meta)
    ensures forall i :: 0 <= i < |Fields(meta)| ==> Rank(meta, i) < |KEYS| && Fields(meta)[i].0 == KEYS[Rank(meta, i)]
  {
  }

  lemma FieldsAreApart(meta: Meta)
    ensures forall i :: 0 <= i < |Fields(meta)| ==> IsKey(Fields(meta)[i].0)
    ensures forall i, j :: 0 <= i < j < |Fields(meta)| ==> Fields(meta)[i].0 != Fields(meta)[j].0
  {
    hide IsKey, Fields;
    KeysAreApart();
    FieldsAreRanked(meta);
  }

  /** Two assignments start alike only if they are to the same key. */
  lemma SameKey(key: string, other: string, rest: string)
    requires IsKey(key) && IsKey(other) && StartsWith(other + " = " + rest, key + " = ")
    ensures key == other
  {
    var line, start := other + " = " + rest, key + " = ";
    StartsHere(line, start);
    assert line[|other|] == ' ' && start[|key|] == ' ';
    assert forall k :: 0 <= k < |key| ==> start[k] == key[k] && key[k] in key;
    assert forall k :: 0 <= k < |other| ==> line[k] == other[k] && other[k] in other;
  }

  lemma {:induction false} AssignedIs(render: Render, fields: seq<(string, string)>, rest: seq<string>, i: nat)
    requires i < |fields| && forall j :: 0 <= j < |fields| ==> IsKey(fields[j].0)
    requires forall j, k :: 0 <= j < k < |fields| ==> fields[j].0 != fields[k].0
    ensures Assigned(FieldLines(render, fields) + rest, fields[i].0) == Some(render(fields[i].1))
  {
    hide IsKey;
    var lines, line := FieldLines(render, fields) + rest, fields[0].0 + " = " + render(fields[0].1);
    assert lines[0] == line && lines[1..] == FieldLines(render, fields[1..]) + rest;
    if i == 0 {
      var start := fields[0].0 + " = ";
      assert line[..|start|] == start && line[|start|..] == render(fields[0].1);
    } else {
      if StartsWith(line, fields[i].0 + " = ") {
        SameKey(fields[i].0, fields[0].0, render(fields[0].1));
      }
      assert fields[i] == fields[1..][i - 1];
      AssignedIs(render, fields[1..], rest, i - 1);
    }
  }

  /** Values on single lines make a header of single lines. */
  lemma PrintedLinesAreHeader(render: Render, meta: Meta)
    requires PrintsLines(render, meta)
    ensures IsHeader(HeaderLines(render, meta))
  {
    hide Fields, HeaderLines, IsKey, IsSingleLine;
    HeaderIsFields(render, meta);
    FieldsAreApart(meta);
    forall i | 0 <= i < |Fields(meta)|
      ensures var line := FieldLines(render, Fields(meta))[i]; IsSingleLine(line) && line != "" && line[0] != '+'
    {
      FieldLineIsOne(render, Fields(meta)[i].0, Fields(meta)[i].1);
    }
  }

  /** What is left of lines when an empty last one is not seen. */
  function LinesSeen(lines: seq<string>): seq<string> {
    if lines != [] && lines[|lines| - 1] == "" then lines[..|lines| - 1] else lines
  }

  lemma HeaderIsSplit(block: string, tail: string)
    requires EndsWithNewline(block)
    ensures var text := "+++\n" + block + "+++" + tail;
      && HeaderBlock(text) == Some(Shown(block))
      && (|Shown(block)| == |block| - 1 ==> BehindHeader(text) == Some(tail))
  {
    hide Find, Shown, StartsWith;
    var text := "+++\n" + block + "+++" + tail;
    ShownEnds(block);
    assert text == text[..|text|];
    HeaderOfHead(block, tail, text);
    Delimited(block, tail);
  }

  lemma Delimited(block: string, tail: string)
    ensures var text := "+++\n" + block + "+++" + tail;
      StartsWith(text, "+++\n") && text[4..][|block| + 3..] == tail
  {
    var text := "+++\n" + block + "+++" + tail;
    assert text == "+++\n" + (block + "+++" + tail);
    assert text[..4] == "+++\n" && text[4..] == block + "+++" + tail;
    assert (block + "+++")[|block|..] == "+++" && |block + "+++"| == |block| + 3;
    BehindPrefix(block + "+++", tail);
  }

  lemma BehindPrefix(front: string, tail: string)
    ensures (front + tail)[|front|..] == tail
  {
  }

  /** A stored file with a header of single lines falls apart into what went in: the lines of the header,
      and behind the blank line the body, to whose end a newline was added exactly if it had none. */
  lemma FileFallsApart(render: Render, meta: Meta, body: string)
    requires PrintsLines(render, meta)
    ensures BehindHeader(Formatted(render, meta, body))
         == Some("\n\n" + body + (if body != "" && body[|body| - 1] == '\n' then "" else "\n"))
    ensures HeaderOf(Formatted(render, meta, body)) == FieldLines(render, Fields(meta)) + LinesSeen(meta.rest)
  {
    hide HeaderLines, Block, Shown, HeaderBlock, BehindHeader, TextLines, IsHeader, Fields, PrintsLines, FieldLines,
        LinesSeen, Formatted;
    PrintedLinesAreHeader(render, meta);
    HeaderIsFields(render, meta);
    HeaderNotEmpty(render, meta);
    BlockIsShown(HeaderLines(render, meta));
    var block := Block(HeaderLines(render, meta));
    var tail := "\n\n" + body + (if body != "" && body[|body| - 1] == '\n' then "" else "\n");
    FormattedIsDelimited(render, meta, body);
    HeaderIsSplit(block, tail);
    LastOfHeader(render, meta);
  }

  lemma FormattedIsDelimited(render: Render, meta: Meta, body: string)
    ensures Formatted(render, meta, body) == "+++\n" + Block(HeaderLines(render, meta)) + "+++"
         + ("\n\n" + body + (if body != "" && body[|body| - 1] == '\n' then "" else "\n"))
  {
    hide Block, HeaderLines;
    var nl := if EndsWithNewline(body) then "" else "\n";
    Regrouped("+++\n" + Block(HeaderLines(render, meta)), body, nl);
  }

  lemma Regrouped(front: string, body: string, nl: string)
    ensures front + "+++\n\n" + body + nl == front + "+++" + ("\n\n" + body + nl)
  {
  }

  /** The reader sees a block of single lines as these lines, but for an empty last one. */
  lemma BlockIsShown(lines: seq<string>)
    requires IsHeader(lines) && lines != []
    ensures EndsWithNewline(Block(lines)) && |Shown(Block(lines))| == |Block(lines)| - 1
    ensures TextLines(Shown(Block(lines))) == LinesSeen(lines)
  {
    hide Block, Shown, TextLines, IsHeader;
    BlockEnds(lines);
    BlockShape(lines);
    ShownIsAll(Block(lines));
    LinesOfBlock(lines);
  }

  lemma LastOfHeader(render: Render, meta: Meta)
    ensures LinesSeen(FieldLines(render, Fields(meta)) + meta.rest)
         == FieldLines(render, Fields(meta)) + LinesSeen(meta.rest)
  {
    var fields := FieldLines(render, Fields(meta));
    if meta.rest != [] {
      assert (fields + meta.rest)[..|fields + meta.rest| - 1] == fields + meta.rest[..|meta.rest| - 1];
    } else {
      assert fields + meta.rest == fields && fields[|fields| - 1] != "";
    }
  }

  /** So each key assigns its own field. */
  lemma FieldReadsBack(render: Render, meta: Meta, body: string, i: nat)
    requires PrintsLines(render, meta) && i < |Fields(meta)|
    ensures Assigned(HeaderOf(Formatted(render, meta, body)), Fields(meta)[i].0) == Some(render(Fields(meta)[i].1))
  {
    hide Fields, PrintsLines, HeaderOf, Formatted, IsKey, Assigned;
    FileFallsApart(render, meta, body);
    FieldsAreApart(meta);
    AssignedIs(render, Fields(meta), LinesSeen(meta.rest), i);
  }

  lemma HeaderIsFields(render: Render, meta: Meta)
    ensures HeaderLines(render, meta) == FieldLines(render, Fields(meta)) + meta.rest
  {
    assert FieldLines(render, Fields(meta))
        == LeadingLines(render, meta) + [FieldLine(render, "received_at", meta.receivedAt)];
  }

  /** When the head of a stored file reaches the end of its header: the header and its delimiters have at
      most 16 KiB, and no character lies across the end of the head. */
  lemma ReachesIff(render: Render, meta: Meta, body: string)
    requires PrintsLines(render, meta)
    ensures var text := Formatted(render, meta, body);
      Reaches(render, meta, text) <==>
        && ByteLen(Block(HeaderLines(render, meta))) + 7 <= 16384
        && (ByteLen(text) <= 16384 || exists n: nat :: n <= |text| && ByteLen(text[..n]) == 16384)
  {
    hide HeaderLines, Block, Shown, Head, IsHeader, PrintsLines, ByteLen;
    PrintedLinesAreHeader(render, meta);
    HeaderNotEmpty(render, meta);
    var text, block := Formatted(render, meta, body), Block(HeaderLines(render, meta));
    BlockEnds(HeaderLines(render, meta));
    BlockShape(HeaderLines(render, meta));
    ShownIsAll(block);
    HeadMeans(text);
    var n := |block| + 7;
    var tail := "\n\n" + body + (if EndsWithNewline(body) then "" else "\n");
    assert text == "+++\n" + block + "+++" + tail;
    assert text[..n] == "+++\n" + block + "+++";
    DelimitedBytes(block);
    PrefixBytes(text, n, |text|);
    assert text[..|text|] == text;
    if Head(text).Some? {
      var k := |Head(text).value|;
      if n <= k {
        PrefixBytes(text, n, k);
      } else {
        PrefixBytes(text, k, n);
      }
    }
  }

  lemma DelimitedBytes(block: string)
    ensures ByteLen("+++\n" + block + "+++") == ByteLen(block) + 7
  {
    AsciiByteLen("+++\n");
    AsciiByteLen("+++");
    ByteLenConcat("+++\n" + block, "+++");
    ByteLenConcat("+++\n", block);
  }

  lemma BodyIsLast(render: Render, meta: Meta, body: string)
    ensures var text := Formatted(render, meta, body);
      var behind := "+++\n\n" + body + (if body != "" && body[|body| - 1] == '\n' then "" else "\n");
      |behind| <= |text| && text[|text| - |behind|..] == behind
  {
    hide Block, HeaderLines;
    var front := "+++\n" + Block(HeaderLines(render, meta));
    var behind := "+++\n\n" + body + (if EndsWithNewline(body) then "" else "\n");
    assert Formatted(render, meta, body) == front + behind;
    assert (front + behind)[|front|..] == behind;
  }

  /** The printer. What it writes falls apart into what went in, and the reader takes from it what its
      header says. */
  method FormatFrontmatter(render: Render, meta: Meta, body: string, ghost readTime: ReadTime) returns (text: string)
    ensures text == Formatted(render, meta, body)
    ensures ReadingOf(readTime, AllText(text))
        == if Reaches(render, meta, text) then Told(render, readTime, meta) else None
    ensures var behind := "+++\n\n" + body + (if body != "" && body[|body| - 1] == '\n' then "" else "\n");
      |behind| <= |text| && text[|text| - |behind|..] == behind
    ensures PrintsLines(render, meta) ==>
      && HeaderOf(text) == FieldLines(render, Fields(meta)) + LinesSeen(meta.rest)
      && BehindHeader(text) == Some("\n\n" + body + (if body != "" && body[|body| - 1] == '\n' then "" else "\n"))
    ensures PrintsLines(render, meta) ==>
              forall i :: 0 <= i < |Fields(meta)| ==>
                Assigned(HeaderOf(text), Fields(meta)[i].0) == Some(render(Fields(meta)[i].1))
  {
    hide Reaches, Told, IdPair, PrintsLines, HeaderOf, BehindHeader, Fields, LinesSeen, Assigned, Block, HeaderLines;
    text := "";
    text := text + "+++\n";
    text := text + Block(HeaderLines(render, meta));
    text := text + "+++\n\n";
    text := text + body;
    if !EndsWithNewline(body) {
      text := text + "\n";
    }
    assert text == Formatted(render, meta, body);
    BodyIsLast(render, meta, body);
    ReadBack(render, readTime, meta, body);
    if PrintsLines(render, meta) {
      FileFallsApart(render, meta, body);
      forall i | 0 <= i < |Fields(meta)|
        ensures Assigned(HeaderOf(text), Fields(meta)[i].0) == Some(render(Fields(meta)[i].1))
      {
        FieldReadsBack(render, meta, body, i);
      }
    }
  }

  // ---- the ways to write a TOML string -----------------------------------------------------------

  /** A basic string of TOML writes some characters as escapes. */
  type Escape = char -> string

  ghost predicate EscapesQuotes(escape: Escape) {
    && (forall c :: escape(c) == [c] || |escape(c)| >= 2)
    && (forall c :: c != '"' ==> '"' !in escape(c))
  }

  function Escaped(escape: Escape, s: string): string {
    if s == "" then "" else escape(s[0]) + Escaped(escape, s[1..])
  }

  function BasicString(escape: Escape, s: string): string {
    "\"" + Escaped(escape, s) + "\""
  }

  lemma {:induction false} EscapedShape(escape: Escape, s: string)
    requires EscapesQuotes(escape) && '"' !in s
    ensures '"' !in Escaped(escape, s)
    ensures Escaped(escape, s) == s <==> forall c | c in s :: escape(c) == [c]
    ensures |Escaped(escape, s)| >= |s|
    ensures |Escaped(escape, s)| == |s| ==> Escaped(escape, s) == s
  {
    if s != "" {
      EscapedShape(escape, s[1..]);
      assert s == [s[0]] + s[1..];
      if escape(s[0]) == [s[0]] {
        assert ([s[0]] + Escaped(escape, s[1..]))[1..] == Escaped(escape, s[1..]);
      }
    }
  }

  /** Of a basic string the reader returns the escaped text, so the value itself exactly when
      nothing in it is escaped. */
  lemma BasicStringReads(escape: Escape, s: string)
    requires EscapesQuotes(escape) && '"' !in s
    ensures ParseTomlStringValue(" = " + BasicString(escape, s)) == Some(Escaped(escape, s))
    ensures ParseTomlStringValue(" = " + BasicString(escape, s)) == Some(s) <==> forall c | c in s :: escape(c) == [c]
  {
    hide ParseTomlStringValue;
    EscapedShape(escape, s);
    var printed := BasicString(escape, s);
    assert printed[0] == '"' && TrimStart(printed) == printed;
    assert printed[..|printed|] == printed;
    ParseMeans(printed, Escaped(escape, s));
  }

  /** A literal string is not read, whatever it says. */
  lemma LiteralStringIsNotRead(s: string)
    ensures ParseTomlStringValue(" = " + ("'" + s + "'")).None?
  {
    var printed := "'" + s + "'";
    assert printed[0] == '\'' && TrimStart(printed) == printed;
    TrimKeepsFirst(" = " + printed, printed);
    assert printed[0..] == printed && ['"'] == "\"";
    CharAt(printed, 0, '"');
  }

  /** A multi-line string is read as the empty string. */
  lemma MultiLineStringReadsEmpty(s: string)
    ensures ParseTomlStringValue(" = " + ("\"\"\"" + s)) == Some("")
  {
    hide ParseTomlStringValue;
    var printed := "\"\"\"" + s;
    assert printed[0] == '"' && TrimStart(printed) == printed;
    assert printed[..2] == "\"" + "" + "\"";
    ParseMeans(printed, "");
  }

  lemma BlockSplit(line: string, next: string, rest: seq<string>)
    ensures Block([line + "\n" + next] + rest) == Block([line, next] + rest)
  {
    var a, b := [line + "\n" + next] + rest, [line, next] + rest;
    assert a[1..] == rest && b[1..] == [next] + rest && b[1..][1..] == rest;
    assert Block(b) == line + "\n" + (next + "\n" + Block(rest));
  }

  lemma {:induction false} BlockConcat(a: seq<string>, b: seq<string>)
    ensures Block(a + b) == Block(a) + Block(b)
  {
    if a == [] {
      assert a + b == b;
    } else {
      assert (a + b)[1..] == a[1..] + b;
      BlockConcat(a[1..], b);
    }
  }

  /** A value printed over two lines, whose second looks like a receipt, gives its own time to the
      message. `before` are the lines printed before it, `after` those behind it. */
  lemma SecondLineSetsTime(before: seq<string>, line: string, stamp: string, after: seq<string>)
    requires IsHeader(before + [line, "received_at = \"" + stamp + "\""] + after) && '"' !in stamp
    requires FirstValue(before, "received_at").None? && IsQuiet(line)
    ensures var lines := before + [line + "\n" + "received_at = \"" + stamp + "\""] + after;
      FirstValue(TextLines(Shown(Block(lines))), "received_at") == Some(stamp)
  {
    hide TextLines, Shown, Block, IsHeader, FirstValue, ParseTomlStringValue;
    var next := "received_at = \"" + stamp + "\"";
    var lines, split := before + [line + "\n" + next] + after, before + [line, next] + after;
    assert lines == before + ([line + "\n" + next] + after) && split == before + ([line, next] + after);
    assert line + "\n" + "received_at = \"" + stamp + "\"" == line + "\n" + next;
    BlockConcat(before, [line + "\n" + next] + after);
    BlockConcat(before, [line, next] + after);
    BlockSplit(line, next, after);
    HeaderShows(split, "received_at");
    FirstValueConcat(before, [line] + ([next] + after), "received_at");
    FirstValueConcat([line], [next] + after, "received_at");
    FirstValueConcat([next], after, "received_at");
    assert split == before + ([line] + ([next] + after));
    QuietGivesNothing([line]);
    var render: Render := v => "\"" + v + "\"";
    assert next == FieldLine(render, "received_at", stamp);
    FieldValues(render, "", stamp);
    QuotedReads(stamp);
  }

  lemma QuotedReads(value: string)
    requires '"' !in value
    ensures ParseTomlStringValue(" = " + ("\"" + value + "\"")) == Some(value)
  {
    hide ParseTomlStringValue;
    var printed := "\"" + value + "\"";
    assert printed[0] == '"' && TrimStart(printed) == printed;
    assert printed[..|printed|] == printed;
    ParseMeans(printed, value);
  }
}
