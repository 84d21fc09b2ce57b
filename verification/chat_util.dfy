/** The definitions shared by the chat client and server (chatUtil.h): the
    configuration constants, the wire message, `parseMessage`, and the
    `sprintf("%i %s %s")` step that both sides' `sendMessage` perform. */
module ChatUtil {
  import opened Wrappers
  import opened CFormat

  /** Size of every text buffer, terminator included. */
  const MAX_LINE: nat := 80
  /** Highest client identity; the server's table has MAX_CLIENTS + 1 entries. */
  const MAX_CLIENTS: nat := 10
  /** The identity a client puts in a join request. */
  const JOIN_CID_CODE: int := 0
  const JOIN_STRING: string := "JOIN"
  const QUIT_STRING: string := "QUIT"
  /** Size of the datagram buffers of `sendMessage` and of both receive routines. */
  const WIRE_BUFFER: nat := 3 * MAX_LINE

  /** A transport endpoint (`struct sockaddr_in`). The protocol only stores
      and returns addresses; it never looks inside one. */
  datatype Address = Address(host: nat, port: nat)

  /** `struct message`: an identity and two strings. `str1` is a command
      (JOIN, QUIT) or a display name; `str2` is a display name or chat text. */
  datatype Message = Message(cid: int, str1: string, str2: string)

  /** A string that fits a `char[MAX_LINE]` together with its terminator. */
  predicate FitsField(s: string) { |s| < MAX_LINE }

  /** A value a `struct message` can hold. */
  predicate ValidMessage(m: Message) {
    IsInt32(m.cid) && FitsField(m.str1) && FitsField(m.str2)
  }

  /** A whitespace-free, non-empty field that fits its buffer: what `%s`
      reads back unchanged. */
  predicate IsToken(s: string) {
    s != [] && NoSpace(s) && FitsField(s)
  }

  /** A last field that `%[^\n]` reads back unchanged after the skip of the
      preceding " " directive. */
  predicate IsLineField(s: string) {
    s != [] && !IsSpace(s[0]) && NoNewline(s) && FitsField(s)
  }

  /** The messages whose encoding decodes to themselves. */
  predicate WireSafe(m: Message) {
    IsInt32(m.cid) && IsToken(m.str1) && IsLineField(m.str2)
  }

  /** The encoding step of `sendMessage`, `sprintf(buffer, "%i %s %s", ...)`,
      on both client and server. The text always fits the datagram buffer
      with its terminator. */
  function FormatMessage(m: Message): (r: string)
    requires ValidMessage(m)
    ensures |r| < WIRE_BUFFER
  {
    IntToDecimalLength(m.cid);
    IntToDecimal(m.cid) + (" " + (m.str1 + (" " + m.str2)))
  }

  /** The " %s" part of the format: optional whitespace, then the longest
      run of non-whitespace characters. None when there is none, or when it
      does not fit `char rstr1[MAX_LINE]` (which `%s` would overflow). */
  function ScanToken(s: string): (r: Option<Scanned<string>>)
    ensures r.Some? ==> IsToken(r.value.value)
    ensures r.Some? ==> r.value.rest == [] || IsSpace(r.value.rest[0])
  {
    var t := Span(SkipSpace(s), NonSpace);
    if t.0 == [] || !FitsField(t.0) then None else Some(Scanned(t.0, t.1))
  }

  lemma ScanTokenOf(ws: string, tok: string, rest: string)
    requires AllSpace(ws) && IsToken(tok)
    requires rest == [] || IsSpace(rest[0])
    ensures ScanToken(ws + (tok + rest)) == Some(Scanned(tok, rest))
  {
    SkipSpaceOf(ws, tok + rest);
    SpanOf(tok, rest, NonSpace);
  }

  /** The " %W[^\n]" part of the format: optional whitespace (newlines
      included), then at most `width` characters up to the next newline.
      None at the end of the input, where the scanset matches nothing. */
  function ScanLine(s: string, width: nat): (r: Option<string>)
    requires width >= 1
    ensures r.Some? ==> r.value != [] && !IsSpace(r.value[0])
    ensures r.Some? ==> NoNewline(r.value) && |r.value| <= width
  {
    var line := SkipSpace(s);
    var field := SpanLine(line, width).0;
    if field == [] then None else assert field[0] == line[0]; Some(field)
  }

  lemma ScanLineOf(ws: string, line: string, tail: string, width: nat)
    requires width >= 1 && AllSpace(ws)
    requires line != [] && !IsSpace(line[0]) && NoNewline(line) && |line| <= width
    requires |line| == width || tail == [] || tail[0] == '\n'
    ensures ScanLine(ws + (line + tail), width) == Some(line)
  {
    SkipSpaceOf(ws, line + tail);
    SpanLineOf(line, tail, width);
  }

  /** `sscanf(buffer, "%i %s %W[^\n]", ...)` followed by the copies into a
      `struct message`. None stands for a conversion that does not match
      (no number, no second token, nothing after it), where the C code reads
      an uninitialised field; for a `%s` token of MAX_LINE characters or
      more, which overruns `rstr1`; and for `%i` input the model does not
      cover (see CFormat.ScanInt). With W = 80, as written, a last field of
      80 characters is returned although it overruns `rstr2`; W = 79 keeps
      it within the field. */
  function Parse(buffer: string, width: nat): (r: Option<Message>)
    requires width >= 1
    ensures r.Some? ==> ScanInt(buffer).Some? && r.value.cid == ScanInt(buffer).value.value
    ensures r.Some? ==> IsInt32(r.value.cid) && IsToken(r.value.str1)
    ensures r.Some? ==> r.value.str2 != [] && !IsSpace(r.value.str2[0])
    ensures r.Some? ==> NoNewline(r.value.str2) && |r.value.str2| <= width
  {
    match ScanInt(buffer)
    case None => None
    case Some(n) =>
      match ScanToken(n.rest)
      case None => None
      case Some(t) =>
        match ScanLine(t.rest, width)
        case None => None
        case Some(line) => Some(Message(n.value, t.value, line))
  }

  /** Width of the `%80[^\n]` conversion as written in `parseMessage`. */
  const STR2_WIDTH_AS_WRITTEN: nat := MAX_LINE

  /** Width that leaves room for the terminator in `char rstr2[MAX_LINE]`. */
  const STR2_WIDTH: nat := MAX_LINE - 1

  /** `parseMessage` with the scanset width as written: `%80[^\n]` may
      store 80 characters and a terminator into the 80-byte `rstr2`. */
  function ParseMessageAsWritten(buffer: string): (r: Option<Message>)
    ensures r.Some? ==> FitsField(r.value.str1) && |r.value.str2| <= MAX_LINE
  {
    Parse(buffer, STR2_WIDTH_AS_WRITTEN)
  }

  /** `parseMessage` with the scanset bounded to 79 characters: every message
      it produces fits `struct message` and re-encodes to itself. */
  function ParseMessage(buffer: string): (r: Option<Message>)
    ensures r.Some? ==> ValidMessage(r.value) && WireSafe(r.value)
  {
    Parse(buffer, STR2_WIDTH)
  }

  /** How `parseMessage` reads any text laid out as an integer, a token and
      a line: leading whitespace is skipped, fields may be separated by any
      whitespace, the number may be negative, and the last field stops at
      a newline or after `width` characters, whatever follows. */
  lemma ParseLayout(lead: string, x: int, sep1: string, str1: string, sep2: string,
                    str2: string, tail: string, width: nat)
    requires AllSpace(lead) && AllSpace(sep1) && sep1 != [] && AllSpace(sep2) && sep2 != []
    requires IsInt32(x) && IsToken(str1)
    requires str2 != [] && !IsSpace(str2[0]) && NoNewline(str2) && 1 <= |str2| <= width
    requires |str2| == width || tail == [] || tail[0] == '\n'
    ensures Parse(lead + (IntToDecimal(x) + (sep1 + (str1 + (sep2 + (str2 + tail))))), width)
            == Some(Message(x, str1, str2))
  {
    var afterLine := sep2 + (str2 + tail);
    var afterInt := sep1 + (str1 + afterLine);
    ScanIntOf(lead, x, afterInt);
    ScanTokenOf(sep1, str1, afterLine);
    ScanLineOf(sep2, str2, tail, width);
  }

  /** Decoding an encoded message gives it back, for the messages whose
      fields the format can delimit. */
  lemma RoundTrip(m: Message)
    requires WireSafe(m)
    ensures ValidMessage(m)
    ensures ParseMessage(FormatMessage(m)) == Some(m)
  {
    ParseLayout("", m.cid, " ", m.str1, " ", m.str2, "", STR2_WIDTH);
    assert m.str2 + "" == m.str2;
    var text := IntToDecimal(m.cid) + (" " + (m.str1 + (" " + m.str2)));
    assert "" + text == text;
  }

  /** Decoding normalises: whatever text a message was read from, encoding
      it and decoding again gives the same message. */
  lemma ParseThenFormat(buffer: string)
    requires ParseMessage(buffer).Some?
    ensures ParseMessage(FormatMessage(ParseMessage(buffer).value)) == ParseMessage(buffer)
  {
    RoundTrip(ParseMessage(buffer).value);
  }

  /** A line longer than 79 characters is cut to its first 79. */
  lemma ParseTruncates(x: int, str1: string, str2: string, tail: string)
    requires IsInt32(x) && IsToken(str1)
    requires |str2| == STR2_WIDTH && !IsSpace(str2[0]) && NoNewline(str2)
    ensures ParseMessage(IntToDecimal(x) + (" " + (str1 + (" " + (str2 + tail)))))
            == Some(Message(x, str1, str2))
  {
    ParseLayout("", x, " ", str1, " ", str2, tail, STR2_WIDTH);
    var text := IntToDecimal(x) + (" " + (str1 + (" " + (str2 + tail))));
    assert "" + text == text;
  }

  /** The datagram "1 a xxx...x" with an 80-character last field: the
      as-written conversion stores all 80 characters, which with the
      terminator do not fit the 80-byte field. */
  lemma AsWrittenStr2Overflows()
    ensures var line := seq(MAX_LINE, _ => 'x');
            var m := ParseMessageAsWritten("1" + (" " + ("a" + (" " + line))));
            m == Some(Message(1, "a", line)) && !FitsField(m.value.str2)
  {
    assert IntToDecimal(1) == "1";
    var line := seq(MAX_LINE, _ => 'x');
    var text := "1" + (" " + ("a" + (" " + (line + ""))));
    assert line + "" == line;
    assert "" + text == text;
    ParseLayout("", 1, " ", "a", " ", line, "", STR2_WIDTH_AS_WRITTEN);
  }

  /** The same datagram through the bounded conversion: the last field is
      cut to 79 characters and fits. */
  lemma BoundedStr2Fits()
    ensures var line := seq(MAX_LINE, _ => 'x');
            var m := ParseMessage("1" + (" " + ("a" + (" " + line))));
            m == Some(Message(1, "a", line[..STR2_WIDTH])) && FitsField(m.value.str2)
  {
    assert IntToDecimal(1) == "1";
    var line := seq(MAX_LINE, _ => 'x');
    assert line == line[..STR2_WIDTH] + "x";
    ParseTruncates(1, "a", line[..STR2_WIDTH], "x");
  }

  /** The two control words differ, both are tokens of the wire format,
      and the join code and the capacity are as configured. */
  lemma ControlWords()
    ensures JOIN_STRING != QUIT_STRING
    ensures IsToken(JOIN_STRING) && IsToken(QUIT_STRING)
    ensures JOIN_CID_CODE == 0 && MAX_CLIENTS == 10
  {
  }
}
