/** The deterministic YAML of the capability catalog: the printer, and a parser that
    undoes it. */
module CatalogYaml {
  import opened Wrappers

  datatype Node = Str(text: string) | List(items: seq<Node>) | Dict(fields: seq<Field>) | Other

  datatype Field = Field(key: string, value: Node)

  datatype Fault = UnsupportedNode | NotAString

  type Lines = Result<seq<string>, Fault>

  // ---- Scalars -----------------------------------------------------------

  predicate IsDigit(c: char) {
    '0' <= c <= '9'
  }

  predicate IsSafeChar(c: char) {
    'A' <= c <= 'Z' || 'a' <= c <= 'z' || IsDigit(c) || c == '_' || c == '.' || c == '/' || c == '-'
  }

  /** `[A-Za-z0-9_./\-]+` */
  predicate IsSafe(s: string) {
    s != [] && forall i | 0 <= i < |s| :: IsSafeChar(s[i])
  }

  /** `\d+(\.\d+)*` on a safe string: digits and dots, a digit on each side of a dot. */
  predicate IsNumeric(s: string) {
    && s != [] && IsDigit(s[0]) && IsDigit(s[|s| - 1])
    && (forall i | 0 <= i < |s| :: IsDigit(s[i]) || s[i] == '.')
    && (forall i | 0 < i < |s| && s[i] == '.' :: IsDigit(s[i - 1]))
  }

  function Lower(s: string): string {
    if s == [] then [] else [if 'A' <= s[0] <= 'Z' then s[0] + (32 as char) else s[0]] + Lower(s[1..])
  }

  predicate IsReserved(s: string) {
    Lower(s) in {"true", "false", "null", "yes", "no", "on", "off", "~"}
  }

  function Escaped(s: string): string {
    if s == [] then []
    else (if s[0] == '\\' then "\\\\" else if s[0] == '\"' then "\\\"" else [s[0]]) + Escaped(s[1..])
  }

  /** `_yaml_scalar`. */
  function Scalar(s: string): string {
    if IsSafe(s) && !IsNumeric(s) && !IsReserved(s) then s else "\"" + Escaped(s) + "\""
  }

  /** The text between the quotes of an escaped string, up to its closing quote. */
  function Unescaped(s: string): Option<string> {
    if s == [] then None
    else if s[0] == '\"' then if |s| == 1 then Some([]) else None
    else if s[0] == '\\' then
      if |s| >= 2 && Unescaped(s[2..]).Some? then Some([s[1]] + Unescaped(s[2..]).value) else None
    else if Unescaped(s[1..]).Some? then Some([s[0]] + Unescaped(s[1..]).value)
    else None
  }

  function ParseScalar(s: string): Option<string> {
    if s != [] && s[0] == '\"' then Unescaped(s[1..]) else Some(s)
  }

  lemma {:induction false} UnescapedUndoesEscaped(s: string)
    ensures Unescaped(Escaped(s) + "\"") == Some(s)
  {
    if s != [] {
      UnescapedUndoesEscaped(s[1..]);
      var head := if s[0] == '\\' then "\\\\" else if s[0] == '\"' then "\\\"" else [s[0]];
      var text := Escaped(s) + "\"";
      assert text == head + (Escaped(s[1..]) + "\"");
      assert text[|head|..] == Escaped(s[1..]) + "\"";
      assert s == [s[0]] + s[1..];
    } else {
      assert Escaped(s) + "\"" == "\"";
    }
  }

  /** A scalar reads back as itself, quoted or not. */
  lemma {:induction false} ScalarRoundTrip(s: string)
    ensures ParseScalar(Scalar(s)) == Some(s)
    ensures Scalar(s) != [] && Scalar(s) != "[]" && Scalar(s) != "{}"
    ensures Scalar(s)[0] == '\"' || forall i | 0 <= i < |Scalar(s)| :: Scalar(s)[i] != ':'
  {
    if IsSafe(s) && !IsNumeric(s) && !IsReserved(s) {
      assert IsSafeChar(s[0]);
    } else {
      UnescapedUndoesEscaped(s);
      assert Scalar(s)[1..] == Escaped(s) + "\"";
      assert Scalar(s)[0] == '\"';
    }
  }

  // ---- The printer -------------------------------------------------------

  function Pad(indent: nat): (p: string)
    ensures |p| == 2 * indent && forall i | 0 <= i < |p| :: p[i] == ' '
  {
    if indent == 0 then [] else "  " + Pad(indent - 1)
  }

  function Then(a: Lines, b: Lines): Lines {
    if a.Err? then a else if b.Err? then b else Ok(a.value + b.value)
  }

  /** `_render_yaml`. */
  function Render(node: Node, indent: nat): Lines
    decreases node, 2
  {
    match node
    case Dict(fields) => RenderFields(fields, indent)
    case List(items) => RenderItems(items, indent)
    case Str(_) => Err(UnsupportedNode)
    case Other => Err(UnsupportedNode)
  }

  function RenderFields(fields: seq<Field>, indent: nat): Lines
    decreases fields, 1
  {
    if fields == [] then Ok([]) else Then(RenderField(fields[0], indent), RenderFields(fields[1..], indent))
  }

  function RenderField(field: Field, indent: nat): Lines
    decreases field, 0
  {
    var head := Pad(indent) + field.key + ":";
    match field.value
    case List(items) => if items == [] then Ok([head + " []"]) else Then(Ok([head]), Render(field.value, indent + 1))
    case Dict(fields) => if fields == [] then Ok([head + " {}"]) else Then(Ok([head]), Render(field.value, indent + 1))
    case Str(text) => Ok([head + " " + Scalar(text)])
    case Other => Err(NotAString)
  }

  function RenderItems(items: seq<Node>, indent: nat): Lines
    decreases items, 1
  {
    if items == [] then Ok([]) else Then(RenderItem(items[0], indent), RenderItems(items[1..], indent))
  }

  function RenderItem(item: Node, indent: nat): Lines
    decreases item, 3
  {
    match item
    case Str(text) => Ok([Pad(indent) + "- " + Scalar(text)])
    case Dict(fields) => if fields == [] then Err(UnsupportedNode) else Dashed(Render(item, indent + 1), indent)
    case List(_) => Err(UnsupportedNode)
    case Other => Err(UnsupportedNode)
  }

  /** The dash goes where the first line has its deepest indentation. */
  function Dashed(rendered: Lines, indent: nat): Lines {
    if rendered.Err? || rendered.value == [] || |rendered.value[0]| < 2 * (indent + 1) then rendered
    else Ok([Pad(indent) + "- " + rendered.value[0][2 * (indent + 1)..]] + rendered.value[1..])
  }

  function Join(lines: seq<string>): string {
    if lines == [] then [] else if |lines| == 1 then lines[0] else lines[0] + "\n" + Join(lines[1..])
  }

  /** `render_catalog`. */
  function RenderCatalog(document: Node): Result<string, Fault> {
    var lines := Render(document, 0);
    if lines.Err? then Err(lines.error) else Ok(Join(lines.value) + "\n")
  }

  // ---- The layout ----------------------------------------------------------

  /** Quotes around a number and around a reserved word. */
  lemma {:induction false} QuotedExamples()
    ensures Scalar("1.0") == "\"1.0\"" && Scalar("On") == "\"On\""
  {
    assert Escaped("1.0") == "1.0";
    assert Lower("On") == "on" && Escaped("On") == "On";
  }

  /** Backslashes and quotes are escaped with a backslash. */
  lemma {:induction false} EscapedExample()
    ensures Escaped("a\\b\"") == "a\\\\b\\\""
  {
    assert Escaped("\"") == "\\\"";
    assert Escaped("b\"") == "b" + Escaped("\"");
    assert Escaped("\\b\"") == "\\\\" + Escaped("b\"");
  }

  /** A field, a list of a text and of a dictionary, and empty collections, as printed
      at any depth. */
  lemma {:induction false} LayoutExample(indent: nat, key: string, inner: string, other: string)
    ensures
      var pad := Pad(indent);
      var item := Dict([Field(inner, Str("x")), Field(other, Str("y"))]);
      && RenderField(Field(key, Str("v1")), indent) == Ok([pad + key + ": v1"])
      && RenderField(Field(key, List([])), indent) == Ok([pad + key + ": []"])
      && RenderField(Field(key, Dict([])), indent) == Ok([pad + key + ": {}"])
      && RenderField(Field(key, item), indent) ==
           Ok([pad + key + ":", pad + "  " + inner + ": x", pad + "  " + other + ": y"])
      && RenderField(Field(key, List([Str("x"), item])), indent) ==
           Ok([pad + key + ":", pad + "  - x", pad + "  - " + inner + ": x", pad + "    " + other + ": y"])
  {
    PlainLetters();
    TextLayout(indent, key, "v1");
    assert Pad(indent) + key + ": " + "v1" == Pad(indent) + key + ": v1";
    assert Pad(indent) + key + ":" + " []" == Pad(indent) + key + ": []";
    assert Pad(indent) + key + ":" + " {}" == Pad(indent) + key + ": {}";
    PairLayout(indent + 1, inner, other);
    PaddedTwice(indent);
    ListLayout(indent, inner, other);
    var pad := Pad(indent);
    var item := Dict([Field(inner, Str("x")), Field(other, Str("y"))]);
    assert Render(List([Str("x"), item]), indent + 1) == RenderItems([Str("x"), item], indent + 1);
    assert RenderField(Field(key, item), indent) == Then(Ok([pad + key + ":"]), Render(item, indent + 1));
    assert RenderField(Field(key, List([Str("x"), item])), indent) ==
           Then(Ok([pad + key + ":"]), Render(List([Str("x"), item]), indent + 1));
    assert [pad + key + ":"] + [pad + "  " + inner + ": x", pad + "  " + other + ": y"]
        == [pad + key + ":", pad + "  " + inner + ": x", pad + "  " + other + ": y"];
    assert [pad + key + ":"] + [pad + "  - x", pad + "  - " + inner + ": x", pad + "    " + other + ": y"]
        == [pad + key + ":", pad + "  - x", pad + "  - " + inner + ": x", pad + "    " + other + ": y"];
  }

  lemma {:induction false} ListLayout(indent: nat, inner: string, other: string)
    ensures RenderItems([Str("x"), Dict([Field(inner, Str("x")), Field(other, Str("y"))])], indent + 1) ==
              Ok([Pad(indent) + "  - x", Pad(indent) + "  - " + inner + ": x", Pad(indent) + "    " + other + ": y"])
  {
    PlainLetters();
    PaddedTwice(indent);
    var item := Dict([Field(inner, Str("x")), Field(other, Str("y"))]);
    var items := [Str("x"), item];
    DashedPair(indent + 1, inner, other);
    ItemsInOrder(Str("x"), [item], indent + 1);
    ItemsInOrder(item, [], indent + 1);
    assert items == [Str("x")] + [item] && [item] + [] == [item];
    ThenNothing(RenderItem(item, indent + 1));
    assert RenderItem(Str("x"), indent + 1) == Ok([Pad(indent + 1) + "- " + "x"]);
    assert Pad(indent) + "  " + "- " + "x" == Pad(indent) + "  - x";
    assert Pad(indent) + "  " + "- " + inner + ": x" == Pad(indent) + "  - " + inner + ": x";
    TwoInOrder([Pad(indent) + "  - x"], RenderItem(item, indent + 1).value);
  }

  lemma {:induction false} PlainLetters()
    ensures Scalar("x") == "x" && Scalar("y") == "y" && Scalar("v1") == "v1"
  {
    assert Lower("x") == "x" && Lower("y") == "y" && Lower("v1") == "v1";
    assert "v1"[0] == 'v';
  }

  lemma {:induction false} PaddedTwice(indent: nat)
    ensures Pad(indent + 1) == Pad(indent) + "  " && Pad(indent + 2) == Pad(indent) + "    "
  {
    assert |Pad(indent + 2)| == |Pad(indent) + "    "|;
  }

  lemma {:induction false} TextLayout(indent: nat, key: string, text: string)
    requires Scalar(text) == text
    ensures RenderField(Field(key, Str(text)), indent) == Ok([Pad(indent) + key + ": " + text])
  {
    assert Pad(indent) + key + ":" + " " + text == Pad(indent) + key + ": " + text;
  }

  lemma {:induction false} PairLayout(indent: nat, inner: string, other: string)
    ensures Render(Dict([Field(inner, Str("x")), Field(other, Str("y"))]), indent) ==
              Ok([Pad(indent) + inner + ": x", Pad(indent) + other + ": y"])
  {
    PlainLetters();
    var fields := [Field(inner, Str("x")), Field(other, Str("y"))];
    TextLayout(indent, inner, "x");
    TextLayout(indent, other, "y");
    FieldsInOrder(fields[0], [fields[1]], indent);
    FieldsInOrder(fields[1], [], indent);
    assert fields == [fields[0]] + [fields[1]] && [fields[1]] + [] == [fields[1]];
    ThenNothing(RenderField(fields[1], indent));
    assert RenderFields([], indent) == Ok([]);
    assert RenderFields([fields[1]], indent) == RenderField(fields[1], indent);
    assert RenderFields(fields, indent) == Then(RenderField(fields[0], indent), RenderField(fields[1], indent));
    assert Render(Dict(fields), indent) == RenderFields(fields, indent);
    assert Pad(indent) + inner + ": " + "x" == Pad(indent) + inner + ": x";
    assert Pad(indent) + other + ": " + "y" == Pad(indent) + other + ": y";
    TwoInOrder([Pad(indent) + inner + ": x"], [Pad(indent) + other + ": y"]);
  }

  lemma {:induction false} TwoInOrder(a: seq<string>, b: seq<string>)
    ensures Then(Ok(a), Ok(b)) == Ok(a + b)
    ensures |a| == 1 && |b| == 1 ==> a + b == [a[0], b[0]]
    ensures |a| == 1 && |b| == 2 ==> a + b == [a[0], b[0], b[1]]
  {
  }

  lemma {:induction false} DashedPair(indent: nat, inner: string, other: string)
    ensures RenderItem(Dict([Field(inner, Str("x")), Field(other, Str("y"))]), indent) ==
              Ok([Pad(indent) + "- " + inner + ": x", Pad(indent + 1) + other + ": y"])
  {
    PairLayout(indent + 1, inner, other);
    var item := Dict([Field(inner, Str("x")), Field(other, Str("y"))]);
    var first := Pad(indent + 1) + inner + ": x";
    assert RenderItem(item, indent) == Dashed(Render(item, indent + 1), indent);
    assert first == Pad(indent + 1) + (inner + ": x");
    assert first[2 * (indent + 1)..] == inner + ": x";
    assert Pad(indent) + "- " + (inner + ": x") == Pad(indent) + "- " + inner + ": x";
    TwoInOrder([Pad(indent) + "- " + inner + ": x"], [Pad(indent + 1) + other + ": y"]);
  }

  /** The fields of a dictionary are printed in their order. */
  lemma {:induction false} FieldsInOrder(field: Field, fields: seq<Field>, indent: nat)
    ensures RenderFields([field] + fields, indent) == Then(RenderField(field, indent), RenderFields(fields, indent))
  {
    assert ([field] + fields)[1..] == fields;
  }

  /** And so are the items of a list. */
  lemma {:induction false} ItemsInOrder(item: Node, items: seq<Node>, indent: nat)
    ensures RenderItems([item] + items, indent) == Then(RenderItem(item, indent), RenderItems(items, indent))
  {
    assert ([item] + items)[1..] == items;
  }

  // ---- The parser --------------------------------------------------------

  datatype Parsed<T> = Parsed(value: T, rest: seq<string>) | Malformed

  /** Position of the first colon. */
  function Colon(s: string): (i: nat)
    ensures i <= |s| && (i < |s| ==> s[i] == ':') && forall j | 0 <= j < i :: s[j] != ':'
  {
    if s == [] || s[0] == ':' then 0 else 1 + Colon(s[1..])
  }

  /** The first line belongs to a block at `indent`. */
  predicate Inside(lines: seq<string>, indent: nat) {
    lines != [] && Pad(indent) <= lines[0]
  }

  /** A list if its first line has a dash, a dictionary otherwise. */
  function ParseBlock(lines: seq<string>, indent: nat): (r: Parsed<Node>)
    ensures r.Parsed? ==> |r.rest| <= |lines|
    decreases |lines|, 3
  {
    if Inside(lines, indent) && Pad(indent) + "- " <= lines[0] then
      var r := ParseItems(lines, indent);
      if r.Malformed? then Malformed else Parsed(List(r.value), r.rest)
    else
      var r := ParseFields(lines, indent);
      if r.Malformed? then Malformed else Parsed(Dict(r.value), r.rest)
  }

  function ParseFields(lines: seq<string>, indent: nat): (r: Parsed<seq<Field>>)
    ensures r.Parsed? ==> |r.rest| <= |lines|
    ensures r.Parsed? && r.value != [] ==> |r.rest| < |lines|
    decreases |lines|, 1
  {
    if !Inside(lines, indent) then Parsed([], lines)
    else
      var first := ParseField(lines, indent);
      if first.Malformed? then Malformed
      else
        var others := ParseFields(first.rest, indent);
        if others.Malformed? then Malformed else Parsed([first.value] + others.value, others.rest)
  }

  function ParseField(lines: seq<string>, indent: nat): (r: Parsed<Field>)
    requires Inside(lines, indent)
    ensures r.Parsed? ==> |r.rest| < |lines|
    decreases |lines|, 0
  {
    var content := lines[0][2 * indent..];
    var i := Colon(content);
    if i == |content| then Malformed
    else
      var key, tail := content[..i], content[i + 1..];
      if tail == [] then
        var block := ParseBlock(lines[1..], indent + 1);
        if block.Malformed? then Malformed else Parsed(Field(key, block.value), block.rest)
      else if tail == " []" then Parsed(Field(key, List([])), lines[1..])
      else if tail == " {}" then Parsed(Field(key, Dict([])), lines[1..])
      else
        var scalar := ParseScalar(tail[1..]);
        if tail[0] != ' ' || scalar.None? then Malformed else Parsed(Field(key, Str(scalar.value)), lines[1..])
  }

  function ParseItems(lines: seq<string>, indent: nat): (r: Parsed<seq<Node>>)
    ensures r.Parsed? ==> |r.rest| <= |lines|
    decreases |lines|, 2
  {
    if !Inside(lines, indent) then Parsed([], lines)
    else
      var first := ParseItem(lines, indent);
      if first.Malformed? then Malformed
      else
        var others := ParseItems(first.rest, indent);
        if others.Malformed? then Malformed else Parsed([first.value] + others.value, others.rest)
  }

  function ParseItem(lines: seq<string>, indent: nat): (r: Parsed<Node>)
    requires Inside(lines, indent)
    ensures r.Parsed? ==> |r.rest| < |lines|
    decreases |lines|, 2, 0
  {
    if !(Pad(indent) + "- " <= lines[0]) then Malformed
    else
      var content := lines[0][2 * (indent + 1)..];
      if content != [] && content[0] != '\"' && Colon(content) < |content| then
        var r := ParseFields([Pad(indent + 1) + content] + lines[1..], indent + 1);
        if r.Malformed? || r.value == [] then Malformed else Parsed(Dict(r.value), r.rest)
      else
        var scalar := ParseScalar(content);
        if scalar.None? then Malformed else Parsed(Str(scalar.value), lines[1..])
  }

  function Split(text: string): (lines: seq<string>)
    ensures lines != []
  {
    if text == [] then [[]]
    else if text[0] == '\n' then [[]] + Split(text[1..])
    else var lines := Split(text[1..]); [[text[0]] + lines[0]] + lines[1..]
  }

  /** The document of a catalog text. */
  function ParseCatalog(text: string): Option<Node> {
    if text == [] || text[|text| - 1] != '\n' then None
    else if |text| == 1 then Some(Dict([]))
    else
      var r := ParseFields(Split(text[..|text| - 1]), 0);
      if r.Parsed? && r.rest == [] then Some(Dict(r.value)) else None
  }

  // ---- The parser undoes the printer -------------------------------------

  /** Keys such as identifiers: no colon, no line break, and a first character that
      opens neither an indentation nor a dash nor a quote. */
  predicate PlainKey(key: string) {
    key != [] && key[0] != ' ' && key[0] != '-' && key[0] != '\"' && ':' !in key && '\n' !in key
  }

  predicate Clean(node: Node)
    decreases node, 2
  {
    match node
    case Str(text) => '\n' !in text
    case List(items) => CleanItems(items)
    case Dict(fields) => CleanFields(fields)
    case Other => true
  }

  predicate CleanFields(fields: seq<Field>)
    decreases fields, 1
  {
    fields == [] || (PlainKey(fields[0].key) && Clean(fields[0].value) && CleanFields(fields[1..]))
  }

  predicate CleanItems(items: seq<Node>)
    decreases items, 1
  {
    items == [] || (Clean(items[0]) && CleanItems(items[1..]))
  }

  lemma {:induction false} DeeperPad(indent: nat)
    ensures Pad(indent + 1) == Pad(indent) + "  "
  {
    var a, b := Pad(indent + 1), Pad(indent) + "  ";
    assert |a| == |b|;
    forall i | 0 <= i < |a| ensures a[i] == b[i] {
    }
  }

  /** What begins with an indentation begins with every shallower one. */
  lemma {:induction false} InsideShallower(lines: seq<string>, indent: nat)
    ensures Inside(lines, indent + 1) ==> Inside(lines, indent)
  {
    DeeperPad(indent);
  }

  /** A line whose text starts right after the indentation is not deeper. */
  lemma {:induction false} TextIsNotDeeper(line: string, indent: nat, text: string, more: seq<string>)
    requires line == Pad(indent) + text && text != [] && text[0] != ' '
    ensures Inside([line] + more, indent) && !Inside([line] + more, indent + 1)
    ensures line[2 * indent..] == text
  {
    assert line[2 * indent] == text[0];
    assert Pad(indent + 1)[2 * indent] == ' ';
  }

  /** The colon after a plain key is the first one. */
  lemma {:induction false} ColonAfterKey(key: string, tail: string)
    requires ':' !in key
    ensures Colon(key + ":" + tail) == |key|
    ensures (key + ":" + tail)[..|key|] == key && (key + ":" + tail)[|key| + 1..] == tail
  {
    var content := key + ":" + tail;
    assert content[|key|] == ':';
    assert forall j | 0 <= j < |key| :: content[j] == key[j];
  }

  /** Values that stay on the line of their key. */
  predicate Inline(value: Node) {
    value.Str? || value == List([]) || value == Dict([])
  }

  /** The rendered field, as a first line and what follows it. */
  lemma {:induction false} FirstLine(field: Field, indent: nat) returns (tail: string)
    requires RenderField(field, indent).Ok?
    ensures RenderField(field, indent).value != []
    ensures RenderField(field, indent).value[0] == Pad(indent) + (field.key + ":" + tail)
    ensures Inline(field.value) ==>
              |RenderField(field, indent).value| == 1 && tail == match field.value
                case Str(text) => " " + Scalar(text)
                case List(_) => " []"
                case _ => " {}"
    ensures !Inline(field.value) ==>
              tail == [] && Render(field.value, indent + 1).Ok? &&
              RenderField(field, indent).value ==
                [RenderField(field, indent).value[0]] + Render(field.value, indent + 1).value
  {
    match field.value {
      case Str(text) => tail := " " + Scalar(text);
      case List(items) => tail := if items == [] then " []" else "";
      case Dict(fields) => tail := if fields == [] then " {}" else "";
      case Other => assert false;
    }
    assert Pad(indent) + field.key + ":" + tail == Pad(indent) + (field.key + ":" + tail);
    if tail == [] {
      assert Pad(indent) + field.key + ":" == Pad(indent) + (field.key + ":" + tail);
    }
  }

  /** A field and whatever follows it outside its block. */
  lemma {:induction false} FieldRoundTrip(field: Field, indent: nat, rest: seq<string>)
    requires RenderField(field, indent).Ok? && PlainKey(field.key) && Clean(field.value) && !Inside(rest, indent + 1)
    ensures
      var lines := RenderField(field, indent).value + rest;
      Inside(lines, indent) && !Inside(lines, indent + 1) && ParseField(lines, indent) == Parsed(field, rest)
    decreases field, 0
  {
    var tail := FirstLine(field, indent);
    var mine := RenderField(field, indent).value;
    var lines := mine + rest;
    var content := field.key + ":" + tail;
    assert content[0] == field.key[0];
    assert lines == [mine[0]] + (mine[1..] + rest);
    TextIsNotDeeper(mine[0], indent, content, mine[1..] + rest);
    ColonAfterKey(field.key, tail);
    if Inline(field.value) {
      assert lines[1..] == rest;
      InlineRoundTrip(field, tail, lines, indent);
    } else {
      var inner := Render(field.value, indent + 1).value;
      assert lines[1..] == inner + rest;
      BlockRoundTrip(field.value, indent + 1, rest);
    }
  }

  /** What a field line without a block says, once its key and tail are known. */
  function InlineValue(tail: string): Option<Node>
    requires tail != []
  {
    if tail == " []" then Some(List([]))
    else if tail == " {}" then Some(Dict([]))
    else
      var scalar := ParseScalar(tail[1..]);
      if tail[0] != ' ' || scalar.None? then None else Some(Str(scalar.value))
  }

  lemma {:induction false} InlineField(lines: seq<string>, indent: nat, key: string, tail: string)
    requires Inside(lines, indent) && lines[0][2 * indent..] == key + ":" + tail && ':' !in key && tail != []
    ensures ParseField(lines, indent) ==
            if InlineValue(tail).Some? then Parsed(Field(key, InlineValue(tail).value), lines[1..]) else Malformed
  {
    ColonAfterKey(key, tail);
  }

  lemma {:induction false} InlineText(text: string)
    ensures InlineValue(" " + Scalar(text)) == Some(Str(text))
  {
    var tail := " " + Scalar(text);
    ScalarRoundTrip(text);
    assert tail[1..] == Scalar(text);
    assert " []"[1..] == "[]" && " {}"[1..] == "{}";
  }

  lemma {:induction false} InlineRoundTrip(field: Field, tail: string, lines: seq<string>, indent: nat)
    requires Inside(lines, indent) && lines[0][2 * indent..] == field.key + ":" + tail && ':' !in field.key
    requires match field.value
             case Str(text) => tail == " " + Scalar(text)
             case List(items) => items == [] && tail == " []"
             case Dict(fields) => fields == [] && tail == " {}"
             case Other => false
    ensures ParseField(lines, indent) == Parsed(field, lines[1..])
  {
    InlineField(lines, indent, field.key, tail);
    if field.value.Str? {
      InlineText(field.value.text);
    }
  }

  /** A nested block of either kind. */
  lemma {:induction false} BlockRoundTrip(value: Node, indent: nat, rest: seq<string>)
    requires Render(value, indent).Ok? && Clean(value) && !Inside(rest, indent)
    requires (value.List? && value.items != []) || (value.Dict? && value.fields != [])
    ensures ParseBlock(Render(value, indent).value + rest, indent) == Parsed(value, rest)
    decreases value, 2
  {
    var lines := Render(value, indent).value + rest;
    if value.List? {
      ItemsRoundTrip(value.items, indent, rest);
      ItemStarts(value.items[0], indent);
      StartsWith(value.items, indent, rest);
    } else {
      FieldsRoundTrip(value.fields, indent, rest);
      FieldHasNoDash(value.fields, indent, rest);
    }
  }

  lemma {:induction false} FieldHasNoDash(fields: seq<Field>, indent: nat, rest: seq<string>)
    requires fields != [] && RenderFields(fields, indent).Ok? && PlainKey(fields[0].key)
    ensures
      var lines := RenderFields(fields, indent).value + rest;
      lines != [] && !(Pad(indent) + "- " <= lines[0])
  {
    var tail := FirstLine(fields[0], indent);
    var line := RenderField(fields[0], indent).value[0];
    assert line[2 * indent] == fields[0].key[0];
    assert (Pad(indent) + "- ")[2 * indent] == '-';
  }

  lemma {:induction false} ItemStarts(item: Node, indent: nat)
    requires RenderItem(item, indent).Ok? && Clean(item)
    ensures RenderItem(item, indent).value != [] && Pad(indent) + "- " <= RenderItem(item, indent).value[0]
  {
    if item.Dict? {
      DashedLines(item.fields, indent);
    }
  }

  lemma {:induction false} StartsWith(items: seq<Node>, indent: nat, rest: seq<string>)
    requires items != [] && RenderItems(items, indent).Ok? && RenderItem(items[0], indent).value != []
    ensures
      var lines := RenderItems(items, indent).value + rest;
      lines != [] && lines[0] == RenderItem(items[0], indent).value[0]
  {
  }

  /** `mine` is `inner` with a dash put into its first line, and that line starts a
      dictionary. */
  ghost predicate IsDashed(inner: seq<string>, mine: seq<string>, indent: nat) {
    && inner != [] && mine != [] && Pad(indent) + "- " <= mine[0] && mine[1..] == inner[1..]
    && (var content := mine[0][2 * (indent + 1)..];
        inner[0] == Pad(indent + 1) + content && content != [] && content[0] != '\"' && Colon(content) < |content|)
  }

  /** Putting the dash and taking it away again. */
  lemma {:induction false} DashedLines(fields: seq<Field>, indent: nat)
    requires fields != [] && RenderFields(fields, indent + 1).Ok? && CleanFields(fields)
    ensures
      var inner := RenderFields(fields, indent + 1).value;
      Dashed(Ok(inner), indent).Ok? && IsDashed(inner, Dashed(Ok(inner), indent).value, indent)
  {
    var tail := FirstLine(fields[0], indent + 1);
    var inner := RenderFields(fields, indent + 1).value;
    var content := fields[0].key + ":" + tail;
    assert inner[0] == Pad(indent + 1) + content && content[0] == fields[0].key[0];
    ColonAfterKey(fields[0].key, tail);
    DashedContent(inner, content, indent);
  }

  lemma {:induction false} DashedContent(inner: seq<string>, content: string, indent: nat)
    requires inner != [] && inner[0] == Pad(indent + 1) + content
    requires content != [] && content[0] != '\"' && Colon(content) < |content|
    ensures Dashed(Ok(inner), indent).Ok? && IsDashed(inner, Dashed(Ok(inner), indent).value, indent)
  {
    assert inner[0][2 * (indent + 1)..] == content;
    var line := Pad(indent) + "- " + content;
    assert line[2 * (indent + 1)..] == content;
    assert line[..2 * (indent + 1)] == Pad(indent) + "- ";
    assert Dashed(Ok(inner), indent) == Ok([line] + inner[1..]);
  }

  lemma {:induction false} ItemRoundTrip(item: Node, indent: nat, rest: seq<string>)
    requires RenderItem(item, indent).Ok? && Clean(item) && !Inside(rest, indent + 1)
    ensures
      var lines := RenderItem(item, indent).value + rest;
      Inside(lines, indent) && !Inside(lines, indent + 1) && ParseItem(lines, indent) == Parsed(item, rest)
    decreases item, 3
  {
    ItemStarts(item, indent);
    var mine := RenderItem(item, indent).value;
    var lines := mine + rest;
    HeadAndTail(mine, rest);
    DashIsInside(mine[0], mine[1..] + rest, indent);
    if item.Str? {
      PlainItem(item.text, lines, indent);
      assert mine[1..] + rest == rest;
    } else {
      DictItemRoundTrip(item.fields, mine, indent, rest);
    }
  }

  lemma {:induction false} HeadAndTail(mine: seq<string>, rest: seq<string>)
    requires mine != []
    ensures mine + rest == [mine[0]] + (mine[1..] + rest) && (mine + rest)[1..] == mine[1..] + rest
  {
  }

  lemma {:induction false} DictItemRoundTrip(fields: seq<Field>, mine: seq<string>, indent: nat, rest: seq<string>)
    requires fields != [] && RenderFields(fields, indent + 1).Ok? && CleanFields(fields)
    requires Ok(mine) == Dashed(RenderFields(fields, indent + 1), indent)
    requires !Inside(rest, indent + 1) && Inside(mine + rest, indent)
    ensures ParseItem(mine + rest, indent) == Parsed(Dict(fields), rest)
    decreases fields, 2
  {
    DashedLines(fields, indent);
    FieldsRoundTrip(fields, indent + 1, rest);
    DashedItem(fields, RenderFields(fields, indent + 1).value, mine, indent, rest);
  }

  lemma {:induction false} PlainItem(text: string, lines: seq<string>, indent: nat)
    requires Inside(lines, indent) && lines[0] == Pad(indent) + "- " + Scalar(text)
    ensures ParseItem(lines, indent) == Parsed(Str(text), lines[1..])
  {
    ScalarRoundTrip(text);
    assert lines[0][2 * (indent + 1)..] == Scalar(text);
    assert lines[0][..2 * (indent + 1)] == Pad(indent) + "- ";
  }

  lemma {:induction false} DashedItem(fields: seq<Field>, inner: seq<string>, mine: seq<string>, indent: nat,
                                      rest: seq<string>)
    requires IsDashed(inner, mine, indent) && Inside(mine + rest, indent) && fields != []
    requires ParseFields(inner + rest, indent + 1) == Parsed(fields, rest)
    ensures ParseItem(mine + rest, indent) == Parsed(Dict(fields), rest)
  {
    var content := mine[0][2 * (indent + 1)..];
    UndashedLines(inner, mine, Pad(indent + 1) + content, rest);
    ItemIsDict(fields, mine + rest, content, indent, rest);
  }

  lemma {:induction false} UndashedLines(inner: seq<string>, mine: seq<string>, first: string, rest: seq<string>)
    requires inner != [] && mine != [] && inner[0] == first && mine[1..] == inner[1..]
    ensures (mine + rest)[0] == mine[0] && inner + rest == [first] + (mine + rest)[1..]
  {
    assert (mine + rest)[1..] == mine[1..] + rest;
    assert inner == [first] + inner[1..];
  }

  lemma {:induction false} ItemIsDict(fields: seq<Field>, lines: seq<string>, content: string, indent: nat,
                                      rest: seq<string>)
    requires Inside(lines, indent) && Pad(indent) + "- " <= lines[0] && content == lines[0][2 * (indent + 1)..]
               && fields != []
    requires content != [] && content[0] != '\"' && Colon(content) < |content|
    requires ParseFields([Pad(indent + 1) + content] + lines[1..], indent + 1) == Parsed(fields, rest)
    ensures ParseItem(lines, indent) == Parsed(Dict(fields), rest)
  {
  }

  lemma {:induction false} DashIsInside(line: string, more: seq<string>, indent: nat)
    requires Pad(indent) + "- " <= line
    ensures Inside([line] + more, indent) && !Inside([line] + more, indent + 1)
  {
    assert line[2 * indent] == (Pad(indent) + "- ")[2 * indent] == '-';
    assert Pad(indent + 1)[2 * indent] == ' ';
    assert line[..2 * indent] == (Pad(indent) + "- ")[..2 * indent] == Pad(indent);
  }

  lemma {:induction false} Regroup(a: seq<string>, b: seq<string>, c: seq<string>)
    ensures a + b + c == a + (b + c)
  {
  }

  lemma {:induction false} FieldsRoundTrip(fields: seq<Field>, indent: nat, rest: seq<string>)
    requires RenderFields(fields, indent).Ok? && CleanFields(fields) && !Inside(rest, indent)
    ensures
      var lines := RenderFields(fields, indent).value + rest;
      !Inside(lines, indent + 1) && ParseFields(lines, indent) == Parsed(fields, rest)
    decreases fields, 1
  {
    InsideShallower(rest, indent);
    if fields == [] {
      assert [] + rest == rest;
    } else {
      var others := RenderFields(fields[1..], indent).value + rest;
      FieldsRoundTrip(fields[1..], indent, rest);
      FieldRoundTrip(fields[0], indent, others);
      Regroup(RenderField(fields[0], indent).value, RenderFields(fields[1..], indent).value, rest);
      assert [fields[0]] + fields[1..] == fields;
    }
  }

  lemma {:induction false} ItemsRoundTrip(items: seq<Node>, indent: nat, rest: seq<string>)
    requires RenderItems(items, indent).Ok? && CleanItems(items) && !Inside(rest, indent)
    ensures
      var lines := RenderItems(items, indent).value + rest;
      !Inside(lines, indent + 1) && ParseItems(lines, indent) == Parsed(items, rest)
    decreases items, 1
  {
    InsideShallower(rest, indent);
    if items == [] {
      assert [] + rest == rest;
    } else {
      var others := RenderItems(items[1..], indent).value + rest;
      ItemsRoundTrip(items[1..], indent, rest);
      ItemRoundTrip(items[0], indent, others);
      Regroup(RenderItem(items[0], indent).value, RenderItems(items[1..], indent).value, rest);
      assert [items[0]] + items[1..] == items;
    }
  }

  // ---- The text ----------------------------------------------------------

  ghost predicate NoBreaks(lines: Lines) {
    lines.Ok? ==> forall i | 0 <= i < |lines.value| :: '\n' !in lines.value[i]
  }

  lemma {:induction false} EscapedHasNoBreak(s: string)
    requires '\n' !in s
    ensures '\n' !in Escaped(s)
  {
    if s != [] {
      EscapedHasNoBreak(s[1..]);
    }
  }

  lemma {:induction false} ThenHasNoBreaks(a: Lines, b: Lines)
    requires NoBreaks(a) && NoBreaks(b)
    ensures NoBreaks(Then(a, b))
  {
  }

  lemma {:induction false} FieldsHaveNoBreaks(fields: seq<Field>, indent: nat)
    requires CleanFields(fields)
    ensures NoBreaks(RenderFields(fields, indent))
    decreases fields, 1
  {
    if fields != [] {
      FieldHasNoBreaks(fields[0], indent);
      FieldsHaveNoBreaks(fields[1..], indent);
      ThenHasNoBreaks(RenderField(fields[0], indent), RenderFields(fields[1..], indent));
    }
  }

  lemma {:induction false} FieldHasNoBreaks(field: Field, indent: nat)
    requires PlainKey(field.key) && Clean(field.value)
    ensures NoBreaks(RenderField(field, indent))
    decreases field, 0
  {
    if field.value.Str? {
      EscapedHasNoBreak(field.value.text);
    } else if field.value.List? {
      ItemsHaveNoBreaks(field.value.items, indent + 1);
    } else if field.value.Dict? {
      FieldsHaveNoBreaks(field.value.fields, indent + 1);
    }
  }

  lemma {:induction false} ItemsHaveNoBreaks(items: seq<Node>, indent: nat)
    requires CleanItems(items)
    ensures NoBreaks(RenderItems(items, indent))
    decreases items, 1
  {
    if items != [] {
      ItemHasNoBreaks(items[0], indent);
      ItemsHaveNoBreaks(items[1..], indent);
      ThenHasNoBreaks(RenderItem(items[0], indent), RenderItems(items[1..], indent));
    }
  }

  lemma {:induction false} ItemHasNoBreaks(item: Node, indent: nat)
    requires Clean(item)
    ensures NoBreaks(RenderItem(item, indent))
    decreases item, 0
  {
    if item.Str? {
      EscapedHasNoBreak(item.text);
    } else if item.Dict? {
      FieldsHaveNoBreaks(item.fields, indent + 1);
    }
  }

  lemma {:induction false} SplitOfLine(line: string, text: string)
    requires '\n' !in line
    ensures Split(line) == [line]
    ensures Split(line + "\n" + text) == [line] + Split(text)
  {
    var whole := line + "\n" + text;
    if line == [] {
      assert whole == "\n" + text && whole[1..] == text;
    } else {
      SplitOfLine(line[1..], text);
      assert whole[1..] == line[1..] + "\n" + text;
      assert [line[0]] + line[1..] == line;
    }
  }

  lemma {:induction false} SplitUndoesJoin(lines: seq<string>)
    requires lines != [] && forall i | 0 <= i < |lines| :: '\n' !in lines[i]
    ensures Split(Join(lines)) == lines
  {
    if |lines| == 1 {
      SplitOfLine(lines[0], []);
    } else {
      SplitUndoesJoin(lines[1..]);
      SplitOfLine(lines[0], Join(lines[1..]));
    }
  }

  lemma {:induction false} JoinedIsNotEmpty(lines: seq<string>)
    requires lines != [] && lines[0] != []
    ensures Join(lines) != []
  {
  }

  /** Every document the printer accepts, with plain keys and line-break-free
      strings, is recovered exactly from its text. */
  lemma {:induction false} CatalogRoundTrip(fields: seq<Field>)
    requires CleanFields(fields) && RenderCatalog(Dict(fields)).Ok?
    ensures ParseCatalog(RenderCatalog(Dict(fields)).value) == Some(Dict(fields))
  {
    var lines := RenderFields(fields, 0).value;
    var text := Join(lines) + "\n";
    assert text[..|text| - 1] == Join(lines);
    if fields != [] {
      var tail := FirstLine(fields[0], 0);
      assert lines != [] && lines[0] == RenderField(fields[0], 0).value[0];
      JoinedIsNotEmpty(lines);
      FieldsHaveNoBreaks(fields, 0);
      SplitUndoesJoin(lines);
      FieldsRoundTrip(fields, 0, []);
      assert lines + [] == lines;
    }
  }

  /** What `--check` compares: equal texts come from equal documents. */
  lemma {:induction false} EqualTextMeansEqualCatalog(a: seq<Field>, b: seq<Field>)
    requires CleanFields(a) && CleanFields(b)
    requires RenderCatalog(Dict(a)).Ok? && RenderCatalog(Dict(a)) == RenderCatalog(Dict(b))
    ensures a == b
  {
    CatalogRoundTrip(a);
    CatalogRoundTrip(b);
  }

  /** The printer accepts exactly the documents built of strings, dictionaries and
      lists of strings and non-empty dictionaries. */
  predicate Printable(node: Node)
    decreases node, 2
  {
    match node
    case Str(_) => false
    case Other => false
    case Dict(fields) => PrintableFields(fields)
    case List(items) => PrintableItems(items)
  }

  predicate PrintableFields(fields: seq<Field>)
    decreases fields, 1
  {
    fields == [] || ((fields[0].value.Str? || Printable(fields[0].value)) && PrintableFields(fields[1..]))
  }

  predicate PrintableItems(items: seq<Node>)
    decreases items, 1
  {
    items == [] ||
    ((items[0].Str? || (items[0].Dict? && items[0].fields != [] && Printable(items[0]))) && PrintableItems(items[1..]))
  }

  lemma {:induction false} FieldsPrintExactly(fields: seq<Field>, indent: nat)
    ensures RenderFields(fields, indent).Ok? <==> PrintableFields(fields)
    decreases fields, 1
  {
    if fields != [] {
      FieldsPrintExactly(fields[1..], indent);
      FieldPrintsExactly(fields[0], indent);
    }
  }

  lemma {:induction false} FieldPrintsExactly(field: Field, indent: nat)
    ensures RenderField(field, indent).Ok? <==> field.value.Str? || Printable(field.value)
    decreases field, 0
  {
    if field.value.Dict? {
      FieldsPrintExactly(field.value.fields, indent + 1);
    } else if field.value.List? {
      ItemsPrintExactly(field.value.items, indent + 1);
    }
  }

  lemma {:induction false} ItemsPrintExactly(items: seq<Node>, indent: nat)
    ensures RenderItems(items, indent).Ok? <==> PrintableItems(items)
    decreases items, 1
  {
    if items != [] {
      ItemsPrintExactly(items[1..], indent);
      ItemPrintsExactly(items[0], indent);
    }
  }

  lemma {:induction false} ItemPrintsExactly(item: Node, indent: nat)
    ensures RenderItem(item, indent).Ok? <==> item.Str? || (item.Dict? && item.fields != [] && Printable(item))
    decreases item, 0
  {
    if item.Dict? {
      FieldsPrintExactly(item.fields, indent + 1);
    }
  }

  lemma {:induction false} PrinterAcceptsExactly(document: Node)
    ensures RenderCatalog(document).Ok? <==> Printable(document)
  {
    match document {
      case Dict(fields) => FieldsPrintExactly(fields, 0);
      case List(items) => ItemsPrintExactly(items, 0);
      case _ =>
    }
  }

  // ---- The printer as it runs --------------------------------------------

  lemma {:induction false} ThenIsAssociative(a: Lines, b: Lines, c: Lines)
    ensures Then(Then(a, b), c) == Then(a, Then(b, c))
  {
    if a.Ok? && b.Ok? && c.Ok? {
      assert a.value + b.value + c.value == a.value + (b.value + c.value);
    }
  }

  lemma {:induction false} ThenNothing(a: Lines)
    ensures Then(a, Ok([])) == a == Then(Ok([]), a)
  {
    if a.Ok? {
      assert a.value + [] == a.value == [] + a.value;
    }
  }

  lemma {:induction false} FieldsInTwoParts(before: seq<Field>, after: seq<Field>, indent: nat)
    ensures RenderFields(before + after, indent) == Then(RenderFields(before, indent), RenderFields(after, indent))
  {
    if before == [] {
      assert before + after == after;
      ThenNothing(RenderFields(after, indent));
    } else {
      assert (before + after)[1..] == before[1..] + after;
      FieldsInTwoParts(before[1..], after, indent);
      ThenIsAssociative(RenderField(before[0], indent), RenderFields(before[1..], indent), RenderFields(after, indent));
    }
  }

  lemma {:induction false} ItemsInTwoParts(before: seq<Node>, after: seq<Node>, indent: nat)
    ensures RenderItems(before + after, indent) == Then(RenderItems(before, indent), RenderItems(after, indent))
  {
    if before == [] {
      assert before + after == after;
      ThenNothing(RenderItems(after, indent));
    } else {
      assert (before + after)[1..] == before[1..] + after;
      ItemsInTwoParts(before[1..], after, indent);
      ThenIsAssociative(RenderItem(before[0], indent), RenderItems(before[1..], indent), RenderItems(after, indent));
    }
  }

  /** The next field of a loop over the fields: one more part, then the others. */
  lemma {:induction false} NextField(fields: seq<Field>, i: nat, indent: nat)
    requires i < |fields|
    ensures RenderFields(fields[..i + 1], indent) ==
              Then(RenderFields(fields[..i], indent), RenderField(fields[i], indent))
    ensures RenderFields(fields, indent) == Then(RenderFields(fields[..i + 1], indent),
              RenderFields(fields[i + 1..], indent))
  {
    assert fields[..i + 1] == fields[..i] + [fields[i]] && fields == fields[..i + 1] + fields[i + 1..];
    FieldsInTwoParts(fields[..i], [fields[i]], indent);
    FieldsInTwoParts(fields[..i + 1], fields[i + 1..], indent);
    assert [fields[i]][1..] == [];
    ThenNothing(RenderField(fields[i], indent));
  }

  lemma {:induction false} NextItem(items: seq<Node>, i: nat, indent: nat)
    requires i < |items|
    ensures RenderItems(items[..i + 1], indent) == Then(RenderItems(items[..i], indent), RenderItem(items[i], indent))
    ensures RenderItems(items, indent) == Then(RenderItems(items[..i + 1], indent), RenderItems(items[i + 1..], indent))
  {
    assert items[..i + 1] == items[..i] + [items[i]] && items == items[..i + 1] + items[i + 1..];
    ItemsInTwoParts(items[..i], [items[i]], indent);
    ItemsInTwoParts(items[..i + 1], items[i + 1..], indent);
    assert [items[i]][1..] == [];
    ThenNothing(RenderItem(items[i], indent));
  }

  /** `_render_yaml` with its loops: lines are appended field by field and item by
      item, and the first fault ends it. */
  method RenderYaml(node: Node, indent: nat) returns (lines: Lines)
    ensures lines == Render(node, indent)
    decreases node
  {
    match node {
      case Dict(fields) => lines := AppendFields(fields, indent);
      case List(items) => lines := AppendItems(items, indent);
      case _ => lines := Err(UnsupportedNode);
    }
  }

  method AppendFields(fields: seq<Field>, indent: nat) returns (lines: Lines)
    ensures lines == RenderFields(fields, indent)
    decreases fields
  {
    var out: seq<string> := [];
    for i := 0 to |fields|
      invariant RenderFields(fields[..i], indent) == Ok(out)
    {
      NextField(fields, i, indent);
      var head := Pad(indent) + fields[i].key + ":";
      match fields[i].value {
        case Str(text) => out := out + [head + " " + Scalar(text)];
        case Other => return Err(NotAString);
        case List(items) =>
          if items == [] {
            out := out + [head + " []"];
          } else {
            var inner := RenderYaml(fields[i].value, indent + 1);
            if inner.Err? {
              return inner;
            }
            out := out + ([head] + inner.value);
          }
        case Dict(inside) =>
          if inside == [] {
            out := out + [head + " {}"];
          } else {
            var inner := RenderYaml(fields[i].value, indent + 1);
            if inner.Err? {
              return inner;
            }
            out := out + ([head] + inner.value);
          }
      }
    }
    assert fields[..|fields|] == fields;
    lines := Ok(out);
  }

  method AppendItems(items: seq<Node>, indent: nat) returns (lines: Lines)
    ensures lines == RenderItems(items, indent)
    decreases items
  {
    var out: seq<string> := [];
    for i := 0 to |items|
      invariant RenderItems(items[..i], indent) == Ok(out)
    {
      NextItem(items, i, indent);
      if items[i].Dict? && items[i].fields != [] {
        var rendered := RenderYaml(items[i], indent + 1);
        var dashed := Dashed(rendered, indent);
        if dashed.Err? {
          return dashed;
        }
        out := out + dashed.value;
      } else if items[i].Str? {
        out := out + [Pad(indent) + "- " + Scalar(items[i].text)];
      } else {
        return Err(UnsupportedNode);
      }
    }
    assert items[..|items|] == items;
    lines := Ok(out);
  }
}
