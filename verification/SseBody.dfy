/** Server-sent event bodies as structured chunks: the parser, the printer, and the loops behind them. */
module SseBody {
  import opened Text

  datatype Field = Field(key: string, value: string)

  datatype Chunk = Chunk(ts: int, data: seq<Field>)

  predicate IsNewline(c: char) { c == '\n' }

  predicate IsReturn(c: char) { c == '\r' }

  /**
   * What lower-casing a field name rune by rune must keep; `unicode.ToLower` does, and so does the ASCII map.
   * It is idempotent, white space stays white space, and no other character becomes a colon or a line break.
   */
  ghost predicate CaseMap(lower: char -> char) {
    && (forall c :: lower(lower(c)) == lower(c) && (IsSpace(lower(c)) <==> IsSpace(c)))
    && (forall c :: (lower(c) == ':' <==> c == ':'))
    && (forall c :: (lower(c) == '\n' <==> c == '\n') && (lower(c) == '\r' <==> c == '\r'))
    && MapChars(lower, "comment") == "comment"
  }

  lemma {:induction false} AsciiIsCaseMap()
    ensures CaseMap(LowerAscii)
  {
    var s := "comment";
    assert forall i :: 0 <= i < |s| ==> LowerAscii(s[i]) == s[i];
    assert MapChars(LowerAscii, s) == s;
  }

  /** `strings.EqualFold` against "data" or "comment", whose letters have no case variants but their capitals. */
  predicate FoldsTo(lower: char -> char, s: string, name: string) { MapChars(lower, s) == name }

  // ---- Parsing ----

  function NormalizeLineEndings(body: string): string {
    ReplaceAll(ReplaceAll(body, "\r\n", "\n"), "\r", "\n")
  }

  /** Frame texts: parts between blank lines, trimmed of newlines, without blank ones. */
  function Frames(parts: seq<string>): seq<string> {
    if parts == [] then []
    else Frames(parts[..|parts| - 1]) + FrameOf(parts[|parts| - 1])
  }

  function FrameOf(part: string): seq<string> {
    var part := Trim(IsNewline, part);
    if TrimSpace(part) == "" then [] else [part]
  }

  function SplitFrames(body: string): seq<string> {
    Frames(Split(NormalizeLineEndings(body), "\n\n"))
  }

  /** The field on a line that is neither blank nor a comment. */
  function ParseField(lower: char -> char, line: string): Field {
    var colon := Index(line, ":");
    if colon.None? then Field(MapChars(lower, TrimSpace(TrimSpace(line))), "")
    else
      var value := line[colon.value + 1..];
      Field(MapChars(lower, TrimSpace(line[..colon.value])), if HasPrefix(value, " ") then value[1..] else value)
  }

  function AddField(lower: char -> char, fields: seq<Field>, f: Field): seq<Field> {
    var n := |fields|;
    if f.key == "data" && n > 0 && FoldsTo(lower, fields[n - 1].key, "data")
    then fields[n - 1 := fields[n - 1].(value := fields[n - 1].value + "\n" + f.value)]
    else fields + [f]
  }

  function AddLine(lower: char -> char, fields: seq<Field>, line: string): seq<Field> {
    var line := TrimRight(IsReturn, line);
    if TrimSpace(line) == "" then fields
    else if HasPrefix(line, ":") then fields + [Field("comment", line[1..])]
    else AddField(lower, fields, ParseField(lower, line))
  }

  function ParseLines(lower: char -> char, lines: seq<string>): seq<Field> {
    if lines == [] then [] else AddLine(lower, ParseLines(lower, lines[..|lines| - 1]), lines[|lines| - 1])
  }

  /** The fields of each frame that has any. */
  function ParseFrames(lower: char -> char, frames: seq<string>): seq<seq<Field>> {
    if frames == [] then []
    else ParseFrames(lower, frames[..|frames| - 1]) + FieldsOf(lower, frames[|frames| - 1])
  }

  function FieldsOf(lower: char -> char, frame: string): seq<seq<Field>> {
    var fields := ParseLines(lower, Split(frame, "\n"));
    if fields == [] then [] else [fields]
  }

  function Parse(lower: char -> char, body: string): seq<seq<Field>> {
    ParseFrames(lower, SplitFrames(NormalizeLineEndings(body)))
  }

  function Stamped(ts: int, datas: seq<seq<Field>>): seq<Chunk> {
    seq(|datas|, i requires 0 <= i < |datas| => Chunk(ts, datas[i]))
  }

  /** `parseSSEBodyToChunks`. */
  method ParseSSEBodyToChunks(lower: char -> char, body: string, ts: int) returns (chunks: seq<Chunk>)
    ensures chunks == Stamped(ts, Parse(lower, body))
  {
    var frames := SplitModelSSEFrames(NormalizeLineEndings(body));
    chunks := ParseEach(lower, frames, ts);
  }

  method ParseEach(lower: char -> char, frames: seq<string>, ts: int) returns (chunks: seq<Chunk>)
    ensures chunks == Stamped(ts, ParseFrames(lower, frames))
  {
    hide ParseLines;
    chunks := [];
    for i := 0 to |frames|
      invariant chunks == Stamped(ts, ParseFrames(lower, frames[..i]))
    {
      assert frames[..i + 1][..i] == frames[..i];
      assert ParseFrames(lower, frames[..i + 1]) == ParseFrames(lower, frames[..i]) + FieldsOf(lower, frames[i]);
      var fields := FrameFields(lower, Split(frames[i], "\n"));
      if fields == [] { continue; }
      StampedSnoc(ts, ParseFrames(lower, frames[..i]), fields);
      chunks := chunks + [Chunk(ts, fields)];
    }
    assert frames[..|frames|] == frames;
  }

  lemma {:induction false} StampedSnoc(ts: int, datas: seq<seq<Field>>, fields: seq<Field>)
    ensures Stamped(ts, datas + [fields]) == Stamped(ts, datas) + [Chunk(ts, fields)]
  {
  }

  method FrameFields(lower: char -> char, lines: seq<string>) returns (fields: seq<Field>)
    ensures fields == ParseLines(lower, lines)
  {
    fields := [];
    for j := 0 to |lines|
      invariant fields == ParseLines(lower, lines[..j])
    {
      assert lines[..j + 1][..j] == lines[..j];
      fields := AppendLine(lower, fields, lines[j]);
    }
    assert lines[..|lines|] == lines;
  }

  /** The body of the parser's loop over the lines of a frame. */
  method AppendLine(lower: char -> char, fields: seq<Field>, text: string) returns (fields': seq<Field>)
    ensures fields' == AddLine(lower, fields, text)
  {
    var line := TrimRight(IsReturn, text);
    if TrimSpace(line) == "" { return fields; }
    if HasPrefix(line, ":") { return fields + [Field("comment", line[1..])]; }
    var f := ParseField(lower, line);
    if f.key == "data" && |fields| > 0 && FoldsTo(lower, fields[|fields| - 1].key, "data") {
      var last := fields[|fields| - 1];
      return fields[|fields| - 1 := last.(value := last.value + "\n" + f.value)];
    }
    return fields + [f];
  }

  /** `splitModelSSEFrames`. */
  method SplitModelSSEFrames(body: string) returns (frames: seq<string>)
    ensures frames == SplitFrames(body)
  {
    frames := KeepFrames(Split(NormalizeLineEndings(body), "\n\n"));
  }

  method KeepFrames(parts: seq<string>) returns (frames: seq<string>)
    ensures frames == Frames(parts)
  {
    frames := [];
    for i := 0 to |parts|
      invariant frames == Frames(parts[..i])
    {
      assert parts[..i + 1][..i] == parts[..i];
      assert Frames(parts[..i + 1]) == Frames(parts[..i]) + FrameOf(parts[i]);
      var part := Trim(IsNewline, parts[i]);
      if TrimSpace(part) == "" { continue; }
      frames := frames + [part];
    }
    assert parts[..|parts|] == parts;
  }

  // ---- Printing ----

  /** The line of a field: comments lose their key, fields with a blank key are dropped. */
  function PrintField(lower: char -> char, f: Field): seq<string> {
    var key := TrimSpace(f.key);
    if FoldsTo(lower, key, "comment") then [":" + f.value]
    else if key == "" then []
    else [MapChars(lower, key) + ":" + f.value]
  }

  function PrintLines(lower: char -> char, fields: seq<Field>): seq<string> {
    if fields == [] then [] else PrintLines(lower, fields[..|fields| - 1]) + PrintField(lower, fields[|fields| - 1])
  }

  function PrintFrames(lower: char -> char, datas: seq<seq<Field>>): seq<string> {
    if datas == [] then []
    else PrintFrames(lower, datas[..|datas| - 1]) + PrintFrame(lower, datas[|datas| - 1])
  }

  function PrintFrame(lower: char -> char, fields: seq<Field>): seq<string> {
    var lines := PrintLines(lower, fields);
    if lines == [] then [] else [Join(lines, "\n")]
  }

  function Print(lower: char -> char, datas: seq<seq<Field>>): string {
    Join(PrintFrames(lower, datas), "\n\n")
  }

  function Datas(chunks: seq<Chunk>): seq<seq<Field>> {
    seq(|chunks|, i requires 0 <= i < |chunks| => chunks[i].data)
  }

  /** `streamChunksToLegacyBody` for server-sent events. */
  method StreamChunksToLegacyBody(lower: char -> char, chunks: seq<Chunk>) returns (body: string)
    ensures body == Print(lower, Datas(chunks))
  {
    if |chunks| == 0 { return ""; }
    var frames := [];
    for i := 0 to |chunks|
      invariant frames == PrintFrames(lower, Datas(chunks[..i]))
    {
      assert Datas(chunks[..i + 1])[..i] == Datas(chunks[..i]);
      var lines := LinesOf(lower, chunks[i].data);
      if |lines| == 0 { continue; }
      frames := frames + [Join(lines, "\n")];
    }
    assert chunks[..|chunks|] == chunks;
    body := Join(frames, "\n\n");
  }

  method LinesOf(lower: char -> char, data: seq<Field>) returns (lines: seq<string>)
    ensures lines == PrintLines(lower, data)
  {
    lines := [];
    for j := 0 to |data|
      invariant lines == PrintLines(lower, data[..j])
    {
      assert data[..j + 1][..j] == data[..j];
      assert PrintLines(lower, data[..j + 1]) == PrintLines(lower, data[..j]) + PrintField(lower, data[j]);
      var key := TrimSpace(data[j].key);
      if FoldsTo(lower, key, "comment") {
        lines := lines + [":" + data[j].value];
        continue;
      }
      if key == "" { continue; }
      lines := lines + [MapChars(lower, key) + ":" + data[j].value];
    }
    assert data[..|data|] == data;
  }
}
