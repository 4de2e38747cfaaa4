/** One diagnostic record of a serving process, the NDJSON line it becomes on
    disk, and the JSON it becomes in a page. */
module DiagnosticsRecords {

  const MAX_LINE_CHARS: nat := 4096
  const PAGE_MAX_CHARS: nat := 1048576
  const MAX_TIMESTAMP_CHARS: nat := 32

  datatype Stream = Stdout | Stderr

  datatype Record = Record(sequence: nat, timestamp: string, stream: Stream, truncated: bool, message: string)

  /** What `_record` builds for the text of one output line. */
  function MakeRecord(sequence: nat, timestamp: string, stream: Stream, text: string): (r: Record)
    ensures r.sequence == sequence && r.timestamp == timestamp && r.stream == stream
    ensures |text| <= MAX_LINE_CHARS ==> r.message == text
    ensures |text| > MAX_LINE_CHARS ==> |r.message| == MAX_LINE_CHARS && r.message <= text
    ensures r.truncated <==> r.message != text
  {
    Record(sequence, timestamp, stream, |text| > MAX_LINE_CHARS,
           if |text| > MAX_LINE_CHARS then text[..MAX_LINE_CHARS] else text)
  }

  function Digits(n: nat): (d: nat)
    ensures d >= 1
  {
    if n < 10 then 1 else 1 + Digits(n / 10)
  }

  /** Bytes of one character in a line on disk (`ensure_ascii=False`, UTF-8). */
  function DiskCost(c: char): (k: nat)
    ensures 1 <= k <= 6
  {
    if c == '\"' || c == '\\' || c == '\n' || c == '\r' || c == '\t' || c as int == 8 || c as int == 12 then 2
    else if c as int < 0x20 then 6
    else if c as int < 0x80 then 1
    else if c as int < 0x800 then 2
    else if c as int < 0x10000 then 3
    else 4
  }

  /** Characters of one character in a page (`ensure_ascii=True`). */
  function PageCost(c: char): (k: nat)
    ensures 1 <= k <= 12
  {
    if c == '\"' || c == '\\' || c == '\n' || c == '\r' || c == '\t' || c as int == 8 || c as int == 12 then 2
    else if 0x20 <= c as int < 0x7f then 1
    else if c as int < 0x10000 then 6
    else 12
  }

  function DiskLength(s: string): (k: nat)
    ensures |s| <= k <= 6 * |s|
  {
    if s == [] then 0 else DiskCost(s[0]) + DiskLength(s[1..])
  }

  function PageLength(s: string): (k: nat)
    ensures |s| <= k <= 12 * |s|
  {
    if s == [] then 0 else PageCost(s[0]) + PageLength(s[1..])
  }

  function StreamName(stream: Stream): string {
    match stream case Stdout => "stdout" case Stderr => "stderr"
  }

  function Level(stream: Stream): string {
    match stream case Stdout => "info" case Stderr => "warn"
  }

  /** The JSON object without the sequence digits, the timestamp and the message. */
  function FrameText(r: Record): string {
    var head := "{\"sequence\":";
    var stamp := ",\"timestamp\":\"";
    var stream := "\",\"stream\":\"";
    var level := "\",\"level\":\"";
    var source := "\",\"source\":\"runtime\"";
    var truncated := if r.truncated then ",\"truncated\":true" else ",\"truncated\":false";
    var message := ",\"message\":\"";
    head + stamp + stream + StreamName(r.stream) + level + Level(r.stream) + source + truncated + message + "\"}"
  }

  function FrameChars(r: Record): nat {
    if r.truncated then 110 else 111
  }

  lemma FrameCharsCountsTheFrame(r: Record)
    ensures |FrameText(r)| == FrameChars(r)
  {
  }

  /** Bytes of the line on disk, with its newline. */
  function LineBytes(r: Record): (k: nat)
    ensures k >= 1
  {
    FrameChars(r) + Digits(r.sequence) + DiskLength(r.timestamp) + DiskLength(r.message) + 1
  }

  /** Characters of the record inside a page. */
  function JsonChars(r: Record): nat {
    FrameChars(r) + Digits(r.sequence) + PageLength(r.timestamp) + PageLength(r.message)
  }

  /** What `_record` guarantees of a record: the message and timestamp are bounded. */
  predicate Bounded(r: Record) {
    |r.message| <= MAX_LINE_CHARS && |r.timestamp| <= MAX_TIMESTAMP_CHARS
  }

  /** The largest line a record with `digits` sequence digits can take on disk. */
  function MaxLineBytes(digits: nat): nat {
    111 + digits + 6 * MAX_TIMESTAMP_CHARS + 6 * MAX_LINE_CHARS + 1
  }

  lemma BoundedLine(r: Record)
    requires Bounded(r)
    ensures LineBytes(r) <= MaxLineBytes(Digits(r.sequence))
  {
  }

  /** One bounded record always fits a page by itself, up to a sequence number of
      some nine hundred thousand digits. */
  lemma OneRecordFitsAPage(r: Record)
    requires Bounded(r) && Digits(r.sequence) <= 900000
    ensures JsonChars(r) + 2 <= PAGE_MAX_CHARS
    ensures JsonChars(r) == |FrameText(r)| + Digits(r.sequence) + PageLength(r.timestamp) + PageLength(r.message)
  {
    FrameCharsCountsTheFrame(r);
  }

  /** The characters that `json.dumps(ensure_ascii=False)` leaves in a line and
      `str.splitlines` splits on. */
  predicate SplitsLines(c: char) {
    c as int == 0x85 || c as int == 0x2028 || c as int == 0x2029
  }

  function Splits(s: string): nat {
    if s == [] then 0 else (if SplitsLines(s[0]) then 1 else 0) + Splits(s[1..])
  }

  predicate Readable(r: Record) {
    Splits(r.message) == 0
  }
}
