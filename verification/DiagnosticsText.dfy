/** The JSON text of a record, on disk and in a page, and that the sizes the log and the
    pages reckon with are the lengths of these texts. */
module DiagnosticsText {
  import opened Bytes
  import opened Utf8Order
  import opened DiagnosticsRecords
  import opened DiagnosticsPaging

  // ---- Numbers -----------------------------------------------------------

  function Digit(n: nat): char
    requires n < 10
  {
    "0123456789"[n]
  }

  function Decimal(n: nat): (s: string)
    ensures |s| == Digits(n) && forall c | c in s :: '0' <= c <= '9'
  {
    if n < 10 then [Digit(n)] else Decimal(n / 10) + [Digit(n % 10)]
  }

  // ---- Strings -----------------------------------------------------------

  function HexDigit(n: nat): (c: char)
    requires n < 16
    ensures '0' <= c <= 'f'
  {
    "0123456789abcdef"[n]
  }

  /** A backslash, `u` and the four hexadecimal digits of one UTF-16 unit. */
  function UnitEscape(unit: nat): (s: string)
    requires unit < 0x10000
    ensures |s| == 6 && forall c | c in s :: 0x20 <= c as int < 0x7f
  {
    "\\u" + [HexDigit(unit / 0x1000)] + [HexDigit(unit / 0x100 % 0x10)] + [HexDigit(unit / 0x10 % 0x10)]
    + [HexDigit(unit % 0x10)]
  }

  /** The two-character escapes of JSON. */
  function ShortEscape(c: char): (s: string)
    ensures s == "" || (|s| == 2 && s[0] == '\\' && 0x20 <= s[1] as int < 0x7f)
  {
    if c == '\"' then "\\\"" else if c == '\\' then "\\\\"
    else if c == '\n' then "\\n" else if c == '\r' then "\\r" else if c == '\t' then "\\t"
    else if c as int == 8 then "\\b" else if c as int == 12 then "\\f"
    else ""
  }

  /** One character of a string in a line on disk: only quotes, backslashes and control
      characters are escaped. */
  function DiskChar(c: char): (s: string) {
    if ShortEscape(c) != "" then ShortEscape(c)
    else if c as int < 0x20 then UnitEscape(c as int)
    else [c]
  }

  /** One character of a string in a page: all that is not printable ASCII is escaped,
      above the basic plane as a surrogate pair. */
  function PageChar(c: char): (s: string) {
    if ShortEscape(c) != "" then ShortEscape(c)
    else if 0x20 <= c as int < 0x7f then [c]
    else if c as int < 0x10000 then UnitEscape(c as int)
    else UnitEscape(0xD800 + (c as int - 0x10000) / 0x400) + UnitEscape(0xDC00 + (c as int - 0x10000) % 0x400)
  }

  function DiskString(s: string): string {
    if s == "" then "" else DiskChar(s[0]) + DiskString(s[1..])
  }

  function PageString(s: string): string {
    if s == "" then "" else PageChar(s[0]) + PageString(s[1..])
  }

  // ---- Records -----------------------------------------------------------

  function Head(r: Record): string {
    "{\"sequence\":" + Decimal(r.sequence) + ",\"timestamp\":\""
  }

  const STREAM := "\",\"stream\":\""
  const LEVEL := "\",\"level\":\""
  const SOURCE := "\",\"source\":\"runtime\""
  const MESSAGE := ",\"message\":\""

  function Middle(r: Record): string {
    STREAM + StreamName(r.stream) + LEVEL + Level(r.stream) + SOURCE + Flag(r) + MESSAGE
  }

  function Flag(r: Record): string {
    if r.truncated then ",\"truncated\":true" else ",\"truncated\":false"
  }

  const TAIL := "\"}"

  /** The compact object of a record, its strings already escaped. */
  function Object(r: Record, timestamp: string, message: string): string {
    Head(r) + (timestamp + (Middle(r) + (message + TAIL)))
  }

  /** The line of `_record`. */
  function LineText(r: Record): string {
    Object(r, DiskString(r.timestamp), DiskString(r.message)) + "\n"
  }

  /** A record inside the page's response. */
  function PageText(r: Record): string {
    Object(r, PageString(r.timestamp), PageString(r.message))
  }

  /** The page as a compact array. */
  function ArrayText(items: seq<Record>): string {
    "[" + ItemsText(items) + "]"
  }

  function ItemsText(items: seq<Record>): string {
    if items == [] then ""
    else if |items| == 1 then PageText(items[0])
    else ItemsText(items[..|items| - 1]) + "," + PageText(items[|items| - 1])
  }

  // ---- The sizes are lengths ---------------------------------------------

  lemma {:induction false} FrameLengths(r: Record)
    ensures |Head(r)| + |Middle(r)| + |TAIL| == FrameChars(r) + Digits(r.sequence)
  {
  }

  lemma {:induction false} ObjectLength(r: Record, timestamp: string, message: string)
    ensures |Object(r, timestamp, message)| == FrameChars(r) + Digits(r.sequence) + |timestamp| + |message|
  {
    FrameLengths(r);
  }

  lemma {:induction false} PageStringLength(s: string)
    ensures |PageString(s)| == PageLength(s)
  {
    if s != "" {
      PageStringLength(s[1..]);
    }
  }

  lemma {:induction false} PageTextLength(r: Record)
    ensures |PageText(r)| == JsonChars(r)
  {
    PageStringLength(r.timestamp);
    PageStringLength(r.message);
    ObjectLength(r, PageString(r.timestamp), PageString(r.message));
  }

  lemma {:induction false} ItemsLength(items: seq<Record>)
    ensures |ItemsText(items)| == JsonSum(items) + if items == [] then 0 else |items| - 1
  {
    if items != [] {
      PageTextLength(items[|items| - 1]);
      if |items| > 1 {
        ItemsLength(items[..|items| - 1]);
      } else {
        assert items[..0] == [] && items == [items[0]];
      }
    }
  }

  /** What `page` measures is the length of the page's compact JSON text. */
  lemma {:induction false} PageCharsIsTheLength(items: seq<Record>)
    ensures |ArrayText(items)| == PageChars(items)
  {
    ItemsLength(items);
  }

  lemma {:induction false} EncodeInParts(a: string, b: string)
    ensures Encode(a + b) == Encode(a) + Encode(b)
  {
    if a == "" {
      assert a + b == b;
    } else {
      assert (a + b)[1..] == a[1..] + b;
      EncodeInParts(a[1..], b);
    }
  }

  lemma {:induction false} AsciiIsOneByteEach(s: string)
    requires forall i | 0 <= i < |s| :: s[i] as int < 0x80
    ensures |Encode(s)| == |s|
  {
    if s != "" {
      AsciiIsOneByteEach(s[1..]);
    }
  }

  lemma {:induction false} DiskCharBytes(c: char)
    ensures |Encode(DiskChar(c))| == DiskCost(c)
  {
    if ShortEscape(c) != "" || c as int < 0x20 {
      AsciiIsOneByteEach(DiskChar(c));
    } else {
      assert [c][1..] == "";
    }
  }

  lemma {:induction false} DiskStringBytes(s: string)
    ensures |Encode(DiskString(s))| == DiskLength(s)
  {
    if s != "" {
      DiskCharBytes(s[0]);
      DiskStringBytes(s[1..]);
      EncodeInParts(DiskChar(s[0]), DiskString(s[1..]));
    }
  }

  lemma {:induction false} HeadIsAscii(r: Record)
    ensures |Encode(Head(r))| == |Head(r)|
  {
    assert forall i | 0 <= i < |Decimal(r.sequence)| :: Decimal(r.sequence)[i] in Decimal(r.sequence);
    AsciiIsOneByteEach(Head(r));
  }

  predicate IsAscii(s: string) {
    forall c | c in s :: c as int < 0x80
  }

  lemma {:induction false} AsciiInParts(a: string, b: string)
    requires IsAscii(a) && IsAscii(b)
    ensures IsAscii(a + b)
  {
  }

  lemma {:induction false} WordsAreAscii(r: Record)
    ensures IsAscii(StreamName(r.stream)) && IsAscii(Level(r.stream)) && IsAscii(Flag(r))
  {
  }

  lemma {:induction false} FrameIsAscii()
    ensures IsAscii(STREAM) && IsAscii(LEVEL) && IsAscii(SOURCE) && IsAscii(MESSAGE)
  {
  }

  lemma {:induction false} MiddleIsAscii(r: Record)
    ensures |Encode(Middle(r))| == |Middle(r)|
  {
    WordsAreAscii(r);
    FrameIsAscii();
    AsciiInParts(STREAM, StreamName(r.stream));
    AsciiInParts(STREAM + StreamName(r.stream), LEVEL);
    AsciiInParts(STREAM + StreamName(r.stream) + LEVEL, Level(r.stream));
    AsciiInParts(STREAM + StreamName(r.stream) + LEVEL + Level(r.stream), SOURCE);
    AsciiInParts(STREAM + StreamName(r.stream) + LEVEL + Level(r.stream) + SOURCE, Flag(r));
    AsciiInParts(STREAM + StreamName(r.stream) + LEVEL + Level(r.stream) + SOURCE + Flag(r), MESSAGE);
    AsciiText(Middle(r));
  }

  lemma {:induction false} AsciiText(s: string)
    requires IsAscii(s)
    ensures |Encode(s)| == |s|
  {
    assert forall i | 0 <= i < |s| :: s[i] in s;
    AsciiIsOneByteEach(s);
  }

  lemma {:induction false} ObjectBytes(r: Record, timestamp: string, message: string)
    ensures |Encode(Object(r, timestamp, message) + "\n")| ==
              FrameChars(r) + Digits(r.sequence) + |Encode(timestamp)| + |Encode(message)| + 1
  {
    EncodeInParts(Object(r, timestamp, message), "\n");
    EncodeInParts(Head(r), timestamp + (Middle(r) + (message + TAIL)));
    EncodeInParts(timestamp, Middle(r) + (message + TAIL));
    EncodeInParts(Middle(r), message + TAIL);
    EncodeInParts(message, TAIL);
    HeadIsAscii(r);
    MiddleIsAscii(r);
    FrameLengths(r);
    AsciiIsOneByteEach(TAIL);
    AsciiIsOneByteEach("\n");
  }

  /** What the log counts for a record is the number of UTF-8 bytes of its line. */
  lemma {:induction false} LineBytesIsTheLength(r: Record)
    ensures |Encode(LineText(r))| == LineBytes(r)
  {
    DiskStringBytes(r.timestamp);
    DiskStringBytes(r.message);
    ObjectBytes(r, DiskString(r.timestamp), DiskString(r.message));
  }
}
