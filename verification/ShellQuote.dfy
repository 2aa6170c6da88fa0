/** Single quoting for the POSIX shell, against the shell's own quote removal. */
module ShellQuote {
  import opened Text

  function QuotedChars(s: string): string {
    if s == "" then ""
    else (if s[0] == '\'' then "'\\''" else [s[0]]) + QuotedChars(s[1..])
  }

  function Quoted(s: string): string {
    "'" + QuotedChars(s) + "'"
  }

  method PosixSingleQuote(s: string) returns (out: string)
    ensures out == Quoted(s)
  {
    out := "'";
    for i := 0 to |s|
      invariant out + QuotedChars(s[i..]) == "'" + QuotedChars(s)
    {
      assert s[i..][1..] == s[i + 1..];
      if s[i] == '\'' {
        out := out + "'\\''";
      } else {
        out := out + [s[i]];
      }
    }
    out := out + "'";
  }

  // ---- the shell's reading (XCU 2.2, 2.6.7 of POSIX.1-2017) --------------------------------

  /** Characters that do not stand for themselves outside quotes. */
  predicate IsSpecial(c: char) {
    c in "|&;<>()$`\"*?[#~=% \t\n"
  }

  /** The one word that the shell reads, or nothing when the text is more or less than a
      word without expansions. */
  function Word(text: string, inQuotes: bool): Option<string>
    decreases |text|
  {
    if text == "" then (if inQuotes then None else Some(""))
    else if inQuotes then
      if text[0] == '\'' then Word(text[1..], false) else Prefixed([text[0]], Word(text[1..], true))
    else if text[0] == '\'' then Word(text[1..], true)
    else if text[0] == '\\' then
      if |text| == 1 then None
      else if text[1] == '\n' then Word(text[2..], false)
      else Prefixed([text[1]], Word(text[2..], false))
    else if IsSpecial(text[0]) then None
    else Prefixed([text[0]], Word(text[1..], false))
  }

  function Prefixed(prefix: string, word: Option<string>): Option<string> {
    match word
    case None => None
    case Some(w) => Some(prefix + w)
  }

  lemma {:induction false} CharsRoundTrip(s: string, rest: string)
    ensures Word(QuotedChars(s) + ("'" + rest), true) == Prefixed(s, Word(rest, false))
  {
    hide IsSpecial;
    var tail := "'" + rest;
    assert tail[1..] == rest;
    if s == "" {
      assert QuotedChars(s) + tail == tail;
      if Word(rest, false).Some? {
        assert s + Word(rest, false).value == Word(rest, false).value;
      }
    } else {
      hide Word;
      var more := QuotedChars(s[1..]) + tail;
      CharsRoundTrip(s[1..], rest);
      if Word(rest, false).Some? {
        assert [s[0]] + (s[1..] + Word(rest, false).value) == s + Word(rest, false).value;
      }
      if s[0] == '\'' {
        assert QuotedChars(s) + tail == "'\\''" + more;
        ReopenQuotes(more);
      } else {
        assert QuotedChars(s) + tail == [s[0]] + more;
        PlainInQuotes(s[0], more);
      }
    }
  }

  lemma PlainInQuotes(c: char, more: string)
    requires c != '\''
    ensures Word([c] + more, true) == Prefixed([c], Word(more, true))
  {
    assert ([c] + more)[1..] == more;
  }

  lemma ReopenQuotes(more: string)
    ensures Word("'\\''" + more, true) == Prefixed("'", Word(more, true))
  {
    var a := "'\\''" + more;
    assert a[1..] == "\\''" + more;
    assert a[1..][2..] == "'" + more;
    assert a[1..][2..][1..] == more;
    assert a[0] == '\'' && a[1..][0] == '\\' && a[1..][1] == '\'' && a[1..][2..][0] == '\'';
    assert Word(a, true) == Word(a[1..], false);
    assert Word(a[1..], false) == Prefixed("'", Word(a[1..][2..], false));
  }

  /** For every string: the shell reads the quoted form as that string, also when more of the
      word follows. */
  lemma QuoteRoundTrip(s: string, rest: string)
    ensures Word(Quoted(s) + rest, false) == Prefixed(s, Word(rest, false))
    ensures Word(Quoted(s), false) == Some(s)
  {
    hide IsSpecial;
    CharsRoundTrip(s, rest);
    CharsRoundTrip(s, "");
    assert Quoted(s) + rest == "'" + (QuotedChars(s) + ("'" + rest));
    assert ("'" + (QuotedChars(s) + ("'" + rest)))[1..] == QuotedChars(s) + ("'" + rest);
    assert Quoted(s)[1..] == QuotedChars(s) + ("'" + "");
    assert s + "" == s;
  }
}
