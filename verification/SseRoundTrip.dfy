/** Parsing a printed body gives back every list of normalised chunks. */
module SseRoundTrip {
  import opened Text
  import opened SseBody

  /** No line break of any kind. */
  predicate OneLine(s: string) { forall i :: 0 <= i < |s| ==> s[i] != '\n' && s[i] != '\r' }

  predicate NoReturn(s: string) { forall i :: 0 <= i < |s| ==> s[i] != '\r' }

  predicate NoColon(s: string) { forall i :: 0 <= i < |s| ==> s[i] != ':' }

  /** A lower-case, trimmed field name without colon or line break. */
  predicate NormalKey(lower: char -> char, k: string) {
    MapChars(lower, k) == k && TrimSpace(k) == k && NoColon(k) && OneLine(k)
  }

  predicate NormalField(lower: char -> char, f: Field) {
    NormalKey(lower, f.key) && f.key != "" && OneLine(f.value) && (f.key == "comment" || !HasPrefix(f.value, " "))
  }

  predicate NoAdjacentData(fields: seq<Field>) {
    forall i :: 0 < i < |fields| ==> !(fields[i - 1].key == "data" && fields[i].key == "data")
  }

  predicate NormalChunk(lower: char -> char, fields: seq<Field>) {
    fields != [] && NoAdjacentData(fields) && forall i :: 0 <= i < |fields| ==> NormalField(lower, fields[i])
  }

  predicate Normalised(lower: char -> char, datas: seq<seq<Field>>) {
    forall i :: 0 <= i < |datas| ==> NormalChunk(lower, datas[i])
  }

  // ---- Normalised chunks survive ----

  function LineOf(f: Field): string { if f.key == "comment" then ":" + f.value else f.key + ":" + f.value }

  /** A printable line: not empty, without line breaks. */
  predicate GoodLine(s: string) { s != "" && OneLine(s) }

  lemma {:induction false} PrintsOneLine(lower: char -> char, f: Field)
    requires NormalField(lower, f)
    ensures PrintField(lower, f) == [LineOf(f)] && GoodLine(LineOf(f))
  {
  }

  lemma {:induction false} LineNotBlank(line: string, i: nat)
    requires i < |line| && line[i] == ':' && OneLine(line)
    ensures TrimRight(IsReturn, line) == line && TrimSpace(line) != ""
  {
    TrimKeeps(IsSpace, line, i);
  }

  lemma {:induction false} FirstColon(key: string, value: string)
    requires NoColon(key)
    ensures Index(key + ":" + value, ":") == Some(|key|)
  {
    var line := key + ":" + value;
    assert line[|key|..|key| + 1] == ":";
    assert OccursAt(line, ":", |key|);
    forall i | 0 <= i < |key| ensures !OccursAt(line, ":", i) {
      assert line[i] == key[i];
      assert line[i..i + 1][0] == key[i];
    }
  }

  lemma {:induction false} LineParsesBack(lower: char -> char, f: Field)
    requires NormalField(lower, f) && f.key != "comment"
    ensures ParseField(lower, LineOf(f)) == f
  {
    var line := LineOf(f);
    FirstColon(f.key, f.value);
    assert line[..|f.key|] == f.key && line[|f.key| + 1..] == f.value;
  }

  lemma {:induction false} AddsField(lower: char -> char, fields: seq<Field>, f: Field)
    requires NormalField(lower, f)
    requires fields != [] && f.key == "data" ==>
        NormalKey(lower, fields[|fields| - 1].key) && fields[|fields| - 1].key != "data"
    ensures AddLine(lower, fields, LineOf(f)) == fields + [f]
  {
    hide AddLine, LineOf, TrimSpace;
    if f.key == "comment" {
      AddsComment(lower, fields, f);
    } else {
      AddsNamed(lower, fields, f);
    }
  }

  lemma {:induction false} AddsComment(lower: char -> char, fields: seq<Field>, f: Field)
    requires NormalField(lower, f) && f.key == "comment"
    ensures AddLine(lower, fields, LineOf(f)) == fields + [f]
  {
    hide ParseField, AddField, TrimRight, TrimSpace;
    PrintsOneLine(lower, f);
    LineNotBlank(LineOf(f), 0);
    assert LineOf(f)[1..] == f.value;
  }

  lemma {:induction false} AddsNamed(lower: char -> char, fields: seq<Field>, f: Field)
    requires NormalField(lower, f) && f.key != "comment"
    ensures AddLine(lower, fields, LineOf(f)) == AddField(lower, fields, f)
  {
    hide ParseField, AddField, TrimRight, TrimSpace;
    PrintsOneLine(lower, f);
    LineNotBlank(LineOf(f), |f.key|);
    assert LineOf(f)[0] == f.key[0] != ':';
    LineParsesBack(lower, f);
  }

  lemma {:induction false} PrintSnoc(lower: char -> char, fields: seq<Field>, f: Field)
    ensures PrintLines(lower, fields + [f]) == PrintLines(lower, fields) + PrintField(lower, f)
  {
    assert (fields + [f])[..|fields|] == fields;
  }

  lemma {:induction false} ParseSnoc(lower: char -> char, lines: seq<string>, line: string)
    ensures ParseLines(lower, lines + [line]) == AddLine(lower, ParseLines(lower, lines), line)
  {
    assert (lines + [line])[..|lines|] == lines;
  }

  predicate GoodLines(lines: seq<string>) { forall i :: 0 <= i < |lines| ==> GoodLine(lines[i]) }

  predicate AllNormal(lower: char -> char, fields: seq<Field>) {
    NoAdjacentData(fields) && forall i :: 0 <= i < |fields| ==> NormalField(lower, fields[i])
  }

  predicate Follows(lower: char -> char, before: seq<Field>, f: Field) {
    before != [] && f.key == "data" ==> NormalKey(lower, before[|before| - 1].key) && before[|before| - 1].key != "data"
  }

  lemma {:induction false} AllNormalLast(lower: char -> char, fields: seq<Field>)
    requires AllNormal(lower, fields) && fields != []
    ensures var before, f := fields[..|fields| - 1], fields[|fields| - 1];
            fields == before + [f] && AllNormal(lower, before) && NormalField(lower, f) && Follows(lower, before, f)
  {
    hide NormalKey, OneLine, HasPrefix;
    var before := fields[..|fields| - 1];
    assert forall i :: 0 <= i < |before| ==> before[i] == fields[i];
  }

  predicate ParsesBack(lower: char -> char, fields: seq<Field>) {
    |PrintLines(lower, fields)| == |fields| && GoodLines(PrintLines(lower, fields))
        && ParseLines(lower, PrintLines(lower, fields)) == fields
  }

  lemma {:induction false} LinesParseBack(lower: char -> char, fields: seq<Field>)
    requires AllNormal(lower, fields)
    ensures ParsesBack(lower, fields)
    decreases |fields|
  {
    if fields != [] {
      hide AllNormal, ParsesBack, NormalField, Follows;
      AllNormalLast(lower, fields);
      LinesParseBack(lower, fields[..|fields| - 1]);
      SnocParsesBack(lower, fields[..|fields| - 1], fields[|fields| - 1]);
    }
  }

  lemma {:induction false} SnocParsesBack(lower: char -> char, before: seq<Field>, f: Field)
    requires NormalField(lower, f) && Follows(lower, before, f) && ParsesBack(lower, before)
    ensures ParsesBack(lower, before + [f])
  {
    hide AddLine, PrintField, GoodLine;
    PrintSnoc(lower, before, f);
    PrintsOneLine(lower, f);
    ParseSnoc(lower, PrintLines(lower, before), LineOf(f));
    AddsField(lower, before, f);
  }

  lemma {:induction false} CleanOneLine(s: string)
    requires OneLine(s)
    ensures Clean(s, "\n")
  {
    forall i | 0 <= i < |s| ensures !OccursAt(s + "\n", "\n", i) {
      var t := s + "\n";
      assert t[i..i + 1][0] == t[i] == s[i] != '\n';
    }
  }

  /** A frame: starts and ends with text, has no blank line inside, and no carriage return. */
  predicate GoodFrame(s: string) {
    && s != "" && s[0] != '\n' && s[|s| - 1] != '\n'
    && (forall i :: 0 <= i < |s| - 1 ==> s[i] != '\n' || s[i + 1] != '\n')
    && (forall i :: 0 <= i < |s| ==> s[i] != '\r')
  }

  lemma {:induction false} LineBeforeFrame(head: string, rest: string)
    requires GoodLine(head) && GoodFrame(rest)
    ensures GoodFrame(head + "\n" + rest)
  {
    var s := head + "\n" + rest;
    forall i | 0 <= i < |s| ensures s[i] != '\r' && (i < |s| - 1 ==> s[i] != '\n' || s[i + 1] != '\n') {
      if i < |head| {
        assert s[i] == head[i];
      } else if i > |head| {
        assert s[i] == rest[i - |head| - 1];
      }
    }
  }

  lemma {:induction false} JoinGoodLines(lines: seq<string>)
    requires lines != [] && GoodLines(lines)
    ensures GoodFrame(Join(lines, "\n"))
  {
    if |lines| > 1 {
      assert GoodLines(lines[1..]) by { hide GoodLine; }
      JoinGoodLines(lines[1..]);
      hide OneLine, GoodFrame;
      LineBeforeFrame(lines[0], Join(lines[1..], "\n"));
    }
  }

  lemma {:induction false} FrameIsClean(s: string)
    requires GoodFrame(s)
    ensures Clean(s, "\n\n")
  {
    var t := s + "\n\n";
    forall i | 0 <= i < |s| ensures !OccursAt(t, "\n\n", i) {
      assert t[i..i + 2][0] == t[i] && t[i..i + 2][1] == t[i + 1];
    }
  }

  lemma {:induction false} FrameIsKept(s: string)
    requires GoodFrame(s) && ':' in s
    ensures FrameOf(s) == [s] && Clean(s, "\n\n")
  {
    hide Trim, Clean;
    TrimStable(IsNewline, s);
    var i :| 0 <= i < |s| && s[i] == ':';
    TrimKeeps(IsSpace, s, i);
    FrameIsClean(s);
  }

  lemma {:induction false} NoReturnsUnchanged(s: string)
    requires forall i :: 0 <= i < |s| ==> s[i] != '\r'
    ensures NormalizeLineEndings(s) == s
  {
    forall i | 0 <= i <= |s| ensures !OccursAt(s, "\r\n", i) && !OccursAt(s, "\r", i) {
      assert i < |s| ==> s[i..i + 1][0] == s[i];
      assert i < |s| - 1 ==> s[i..i + 2][0] == s[i];
    }
    SplitAbsent(s, "\r\n");
    SplitAbsent(s, "\r");
  }

  lemma {:induction false} ChunkSurvives(lower: char -> char, fields: seq<Field>)
    requires NormalChunk(lower, fields)
    ensures var frame := Join(PrintLines(lower, fields), "\n");
            PrintFrame(lower, fields) == [frame] && GoodFrame(frame) && ':' in frame
                && FieldsOf(lower, frame) == [fields]
  {
    LinesParseBack(lower, fields);
    var lines := PrintLines(lower, fields);
    JoinGoodLines(lines);
    forall p | p in lines ensures Clean(p, "\n") {
      CleanOneLine(p);
    }
    SplitJoin(lines, "\n");
    ColonInFirstLine(lower, fields);
  }

  lemma {:induction false} ColonInFirstLine(lower: char -> char, fields: seq<Field>)
    requires NormalChunk(lower, fields) && |PrintLines(lower, fields)| == |fields|
    ensures ':' in Join(PrintLines(lower, fields), "\n")
  {
    hide PrintLines, NormalField;
    var lines := PrintLines(lower, fields);
    FirstPrintedLine(lower, fields);
    PrintsOneLine(lower, fields[0]);
    assert ':' in LineOf(fields[0]);
    assert HasPrefix(Join(lines, "\n"), lines[0]);
    var i :| 0 <= i < |lines[0]| && lines[0][i] == ':';
    assert Join(lines, "\n")[i] == lines[0][i];
  }

  lemma {:induction false} FirstPrintedLine(lower: char -> char, fields: seq<Field>)
    requires fields != [] && NormalField(lower, fields[0]) && |PrintLines(lower, fields)| == |fields|
    ensures PrintLines(lower, fields)[0] == LineOf(fields[0])
    decreases |fields|
  {
    PrintsOneLine(lower, fields[0]);
    if |fields| > 1 {
      AtMostOneLineEach(lower, fields[..|fields| - 1]);
      assert fields[..|fields| - 1][0] == fields[0];
      FirstPrintedLine(lower, fields[..|fields| - 1]);
    } else {
      assert fields[..0] == [];
    }
  }

  lemma {:induction false} AtMostOneLineEach(lower: char -> char, fields: seq<Field>)
    ensures |PrintLines(lower, fields)| <= |fields|
    decreases |fields|
  {
    if fields != [] {
      AtMostOneLineEach(lower, fields[..|fields| - 1]);
    }
  }

  predicate GoodFrames(frames: seq<string>) {
    forall i :: 0 <= i < |frames| ==> GoodFrame(frames[i]) && ':' in frames[i]
  }

  lemma {:induction false} FramesSnoc(frames: seq<string>, frame: string)
    ensures Frames(frames + [frame]) == Frames(frames) + FrameOf(frame)
  {
    assert (frames + [frame])[..|frames|] == frames;
  }

  lemma {:induction false} ParseFramesSnoc(lower: char -> char, frames: seq<string>, frame: string)
    ensures ParseFrames(lower, frames + [frame]) == ParseFrames(lower, frames) + FieldsOf(lower, frame)
  {
    assert (frames + [frame])[..|frames|] == frames;
  }

  predicate Survive(lower: char -> char, datas: seq<seq<Field>>) {
    var frames := PrintFrames(lower, datas);
    |frames| == |datas| && GoodFrames(frames) && Frames(frames) == frames && ParseFrames(lower, frames) == datas
  }

  lemma {:induction false} FramesSurvive(lower: char -> char, datas: seq<seq<Field>>)
    requires Normalised(lower, datas)
    ensures Survive(lower, datas)
    decreases |datas|
  {
    hide NormalChunk, PrintFrame, FrameOf, FieldsOf, GoodFrame;
    if datas != [] {
      FramesSurvive(lower, datas[..|datas| - 1]);
      SnocSurvives(lower, datas[..|datas| - 1], datas[|datas| - 1]);
      assert datas[..|datas| - 1] + [datas[|datas| - 1]] == datas;
    }
  }

  lemma {:induction false} PrintFramesSnoc(lower: char -> char, datas: seq<seq<Field>>, fields: seq<Field>)
    ensures PrintFrames(lower, datas + [fields]) == PrintFrames(lower, datas) + PrintFrame(lower, fields)
  {
    assert (datas + [fields])[..|datas|] == datas;
  }

  lemma {:induction false} SnocSurvives(lower: char -> char, datas: seq<seq<Field>>, fields: seq<Field>)
    requires Survive(lower, datas) && NormalChunk(lower, fields)
    ensures Survive(lower, datas + [fields])
  {
    ChunkSurvives(lower, fields);
    var frame := Join(PrintLines(lower, fields), "\n");
    FrameIsKept(frame);
    PrintFramesSnoc(lower, datas, fields);
    AppendFrame(lower, datas, fields, PrintFrames(lower, datas), frame);
  }

  lemma {:induction false} AppendFrame(lower: char -> char, datas: seq<seq<Field>>, fields: seq<Field>,
                                       frames: seq<string>, frame: string)
    requires GoodFrames(frames) && Frames(frames) == frames && ParseFrames(lower, frames) == datas
    requires GoodFrame(frame) && ':' in frame && FrameOf(frame) == [frame] && FieldsOf(lower, frame) == [fields]
    ensures var frames' := frames + [frame];
            GoodFrames(frames') && Frames(frames') == frames' && ParseFrames(lower, frames') == datas + [fields]
  {
    hide GoodFrame, FrameOf, FieldsOf;
    FramesSnoc(frames, frame);
    ParseFramesSnoc(lower, frames, frame);
  }

  lemma {:induction false} JoinFramesHasNoReturns(frames: seq<string>)
    requires GoodFrames(frames)
    ensures forall i :: 0 <= i < |Join(frames, "\n\n")| ==> Join(frames, "\n\n")[i] != '\r'
  {
    if |frames| > 1 {
      JoinFramesHasNoReturns(frames[1..]);
    }
  }

  /** Normalised chunks are recovered from their printed body. */
  lemma {:induction false} NormalisedRoundTrips(lower: char -> char, datas: seq<seq<Field>>)
    requires Normalised(lower, datas)
    ensures Parse(lower, Print(lower, datas)) == datas
  {
    FramesSurvive(lower, datas);
    var frames, body := PrintFrames(lower, datas), Print(lower, datas);
    JoinFramesHasNoReturns(frames);
    NoReturnsUnchanged(body);
    if datas == [] {
      EmptyBody();
    } else {
      forall p | p in frames ensures Clean(p, "\n\n") {
        FrameIsKept(p);
      }
      SplitJoin(frames, "\n\n");
    }
  }

  lemma {:induction false} EmptyBody()
    ensures SplitFrames("") == []
  {
    NoReturnsUnchanged("");
    SplitAbsent("", "\n\n");
    TrimStable(IsNewline, "");
    TrimStable(IsSpace, "");
    assert [""][..0] == [];
  }
}
