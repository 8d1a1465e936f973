/** What a body says is what is parsed from it: every usual spelling of fields, frames and line ends. */
module SseSpelling {
  import opened Text
  import opened SseBody
  import opened SseRoundTrip

  /**
   * A line that gives `key` the value `value`: the name in any case and with blanks around it, then a colon and one
   * space, or a colon alone before a value that does not start with a space, or no colon for the empty value.
   */
  ghost predicate Says(lower: char -> char, line: string, key: string, value: string) {
    OneLine(value) && key != "" && exists name :: Names(lower, name, key) && Line(line, name, value)
  }

  predicate Line(line: string, name: string, value: string) {
    || line == name + ": " + value
    || (line == name + ":" + value && (value == "" || value[0] != ' '))
    || (line == name && value == "")
  }

  ghost predicate Names(lower: char -> char, name: string, key: string) {
    OneLine(name) && NoColon(name) && MapChars(lower, TrimSpace(name)) == key
  }

  /** The lines of one field: a comment, the lines of its data one by one, or a single line. */
  ghost predicate Spells(lower: char -> char, lines: seq<string>, f: Field) {
    if f.key == "comment" then lines == [":" + f.value] && OneLine(f.value)
    else if f.key == "data" then
      lines != [] && exists parts :: f.value == Join(parts, "\n") && SaysEach(lower, lines, parts)
    else |lines| == 1 && Says(lower, lines[0], f.key, f.value)
  }

  ghost predicate SaysEach(lower: char -> char, lines: seq<string>, parts: seq<string>) {
    |parts| == |lines| && forall i :: 0 <= i < |lines| ==> Says(lower, lines[i], "data", parts[i])
  }

  /** The lines of the fields of a chunk, one after another; adjacent data would be one field. */
  ghost predicate SpellsAll(lower: char -> char, lines: seq<string>, fields: seq<Field>)
    decreases |fields|
  {
    if fields == [] then lines == []
    else
      var before, f := fields[..|fields| - 1], fields[|fields| - 1];
      && (f.key == "data" && before != [] ==> before[|before| - 1].key != "data")
      && exists n: nat :: n <= |lines| && SpellsAll(lower, lines[..n], before) && Spells(lower, lines[n..], f)
  }

  // ---- One line ----

  /** The value is what follows the colon, without one space if there is one. */
  lemma {:induction false} ValueAfterColon(lower: char -> char, name: string, value: string)
    requires NoColon(name)
    ensures ParseField(lower, name + ": " + value) == Field(MapChars(lower, TrimSpace(name)), value)
    ensures (value == "" || value[0] != ' ') ==>
              ParseField(lower, name + ":" + value) == Field(MapChars(lower, TrimSpace(name)), value)
  {
    hide TrimSpace;
    var spaced, tight := name + ": " + value, name + ":" + value;
    assert spaced == name + ":" + (" " + value);
    FirstColon(name, " " + value);
    FirstColon(name, value);
    assert spaced[..|name|] == name && spaced[|name| + 1..] == " " + value && (" " + value)[1..] == value;
    assert tight[..|name|] == name && tight[|name| + 1..] == value;
    assert HasPrefix(" " + value, " ");
    if HasPrefix(value, " ") { assert value[0] == ' '; }
  }

  lemma {:induction false} NameAlone(lower: char -> char, name: string)
    requires NoColon(name)
    ensures ParseField(lower, name) == Field(MapChars(lower, TrimSpace(name)), "")
  {
    forall i | 0 <= i <= |name| ensures !OccursAt(name, ":", i) {
      assert i < |name| ==> name[i..i + 1][0] == name[i];
    }
    TrimEnds(IsSpace, name);
    TrimStable(IsSpace, TrimSpace(name));
  }

  lemma {:induction false} SaidLine(lower: char -> char, line: string, key: string, value: string)
    requires Says(lower, line, key, value)
    ensures ParseField(lower, line) == Field(key, value)
    ensures GoodLine(line) && TrimSpace(line) != "" && !HasPrefix(line, ":")
  {
    hide Names, Line, ParseField, TrimSpace;
    var name :| Names(lower, name, key) && Line(line, name, value);
    NamedLineParses(lower, line, name, key, value);
    NamedLineIsGood(lower, line, name, key, value);
  }

  lemma {:induction false} NamedLineParses(lower: char -> char, line: string, name: string, key: string, value: string)
    requires Names(lower, name, key) && Line(line, name, value)
    ensures ParseField(lower, line) == Field(key, value)
  {
    hide ParseField, TrimSpace;
    NameAlone(lower, name);
    ValueAfterColon(lower, name, value);
  }

  lemma {:induction false} NamedLineIsGood(lower: char -> char, line: string, name: string, key: string, value: string)
    requires Names(lower, name, key) && key != "" && Line(line, name, value) && OneLine(value)
    ensures GoodLine(line) && TrimSpace(line) != "" && !HasPrefix(line, ":")
  {
    hide Trim, IsSpace;
    SolidName(lower, name, key);
    var i :| 0 <= i < |name| && !IsSpace(name[i]);
    assert line[i] == name[i] && line[0] == name[0];
    TrimKeeps(IsSpace, line, i);
    assert line[0] != ':';
  }

  /** A name that is not blank has a character that is not white space. */
  lemma {:induction false} SolidName(lower: char -> char, name: string, key: string)
    requires Names(lower, name, key) && key != ""
    ensures exists i :: 0 <= i < |name| && !IsSpace(name[i])
  {
    if forall i :: 0 <= i < |name| ==> IsSpace(name[i]) {
      TrimBlank(name);
    }
  }

  lemma {:induction false} NotTrimmed(line: string)
    requires OneLine(line)
    ensures TrimRight(IsReturn, line) == line
  {
  }

  lemma {:induction false} AddsSaid(lower: char -> char, fields: seq<Field>, line: string, key: string, value: string)
    requires Says(lower, line, key, value)
    ensures AddLine(lower, fields, line) == AddField(lower, fields, Field(key, value))
  {
    hide ParseField, AddField, TrimSpace, TrimRight, Says;
    SaidLine(lower, line, key, value);
    NotTrimmed(line);
  }

  lemma {:induction false} CommentIsGood(value: string)
    requires OneLine(value)
    ensures var line := ":" + value; GoodLine(line) && TrimRight(IsReturn, line) == line && TrimSpace(line) != ""
  {
    hide TrimSpace, TrimRight;
    LineNotBlank(":" + value, 0);
  }

  lemma {:induction false} AddsSaidComment(lower: char -> char, fields: seq<Field>, value: string)
    requires OneLine(value)
    ensures AddLine(lower, fields, ":" + value) == fields + [Field("comment", value)]
  {
    hide ParseField, AddField, TrimSpace, TrimRight;
    CommentIsGood(value);
    assert (":" + value)[1..] == value;
  }

  // ---- The lines of a chunk ----

  /** A name that is read as a key leaves the key as it is when it is lower-cased again. */
  lemma {:induction false} KeyIsLower(lower: char -> char, name: string, key: string)
    requires CaseMap(lower) && Names(lower, name, key)
    ensures MapChars(lower, key) == key
  {
    hide TrimSpace, IsSpace;
    var t := TrimSpace(name);
    assert forall i :: 0 <= i < |t| ==> key[i] == lower(t[i]);
  }

  lemma {:induction false} SaidKeyIsLower(lower: char -> char, line: string, key: string, value: string)
    requires CaseMap(lower) && Says(lower, line, key, value)
    ensures MapChars(lower, key) == key
  {
    hide Names;
    var name :| Names(lower, name, key);
    KeyIsLower(lower, name, key);
  }

  /** The keys that parsing leaves are lower-cased. */
  ghost predicate LowerKeys(lower: char -> char, fields: seq<Field>) {
    forall i :: 0 <= i < |fields| ==> MapChars(lower, fields[i].key) == fields[i].key
  }

  /** Lines of data after a field that is not data become one field, joined by line breaks. */
  lemma {:induction false} DataLines(lower: char -> char, lines: seq<string>, before: seq<string>, fields: seq<Field>,
                                     parts: seq<string>)
    requires CaseMap(lower) && ParseLines(lower, before) == fields && LowerKeys(lower, fields)
    requires fields != [] ==> fields[|fields| - 1].key != "data"
    requires lines != [] && SaysEach(lower, lines, parts)
    ensures ParseLines(lower, before + lines) == fields + [Field("data", Join(parts, "\n"))]
    ensures MapChars(lower, "data") == "data"
    decreases |lines|
  {
    hide Says, ParseLines, AddLine;
    var n := |lines| - 1;
    var head, line, first := lines[..n], lines[n], parts[..n];
    assert before + lines == (before + head) + [line];
    ParseSnoc(lower, before + head, line);
    SaidKeyIsLower(lower, line, "data", parts[n]);
    if n == 0 {
      assert before + head == before && parts == [parts[0]];
      AddsSaid(lower, fields, line, "data", parts[0]);
    } else {
      assert forall i :: 0 <= i < n ==> head[i] == lines[i] && first[i] == parts[i];
      DataLines(lower, head, before, fields, first);
      AddsSaid(lower, ParseLines(lower, before + head), line, "data", parts[n]);
      JoinSnoc(first, parts[n], "\n");
      assert parts == first + [parts[n]];
    }
  }

  lemma {:induction false} JoinSnoc(parts: seq<string>, last: string, sep: string)
    requires parts != []
    ensures Join(parts + [last], sep) == Join(parts, sep) + sep + last
  {
    if |parts| == 1 {
      assert (parts + [last])[1..] == [last];
    } else {
      assert (parts + [last])[1..] == parts[1..] + [last];
      JoinSnoc(parts[1..], last, sep);
    }
  }

  lemma {:induction false} SpelledLines(lower: char -> char, lines: seq<string>, fields: seq<Field>)
    requires CaseMap(lower) && SpellsAll(lower, lines, fields)
    ensures ParseLines(lower, lines) == fields && LowerKeys(lower, fields)
    decreases |fields|
  {
    hide Spells, CaseMap, LowerKeys, SpellsAll;
    if fields == [] {
      NothingSpelled(lower, lines);
    } else {
      hide ParseLines;
      var n := LastSpelled(lower, lines, fields);
      SpelledLines(lower, lines[..n], fields[..|fields| - 1]);
      SpelledLast(lower, lines, fields, n);
    }
  }

  lemma {:induction false} SpelledLast(lower: char -> char, lines: seq<string>, fields: seq<Field>, n: nat)
    requires CaseMap(lower) && fields != [] && n <= |lines|
    requires var before, f := fields[..|fields| - 1], fields[|fields| - 1];
             && ParseLines(lower, lines[..n]) == before && LowerKeys(lower, before) && Spells(lower, lines[n..], f)
             && (f.key == "data" && before != [] ==> before[|before| - 1].key != "data")
    ensures ParseLines(lower, lines) == fields && LowerKeys(lower, fields)
  {
    hide ParseLines, CaseMap, LowerKeys, Spells;
    var before, f := fields[..|fields| - 1], fields[|fields| - 1];
    SpelledField(lower, lines[..n], lines[n..], before, f);
    assert fields == before + [f] && lines == lines[..n] + lines[n..];
  }

  lemma {:induction false} NothingSpelled(lower: char -> char, lines: seq<string>)
    requires SpellsAll(lower, lines, [])
    ensures ParseLines(lower, lines) == [] && LowerKeys(lower, [])
  {
  }

  /** Where the lines of the last field start. */
  lemma {:induction false} LastSpelled(lower: char -> char, lines: seq<string>, fields: seq<Field>) returns (n: nat)
    requires SpellsAll(lower, lines, fields) && fields != []
    ensures var before, f := fields[..|fields| - 1], fields[|fields| - 1];
            && n <= |lines| && SpellsAll(lower, lines[..n], before) && Spells(lower, lines[n..], f)
            && (f.key == "data" && before != [] ==> before[|before| - 1].key != "data")
  {
    hide Spells;
    n :| n <= |lines| && SpellsAll(lower, lines[..n], fields[..|fields| - 1])
         && Spells(lower, lines[n..], fields[|fields| - 1]);
  }

  lemma {:induction false} SpelledField(lower: char -> char, head: seq<string>, tail: seq<string>, before: seq<Field>,
                                        f: Field)
    requires CaseMap(lower) && ParseLines(lower, head) == before && LowerKeys(lower, before) && Spells(lower, tail, f)
    requires f.key == "data" && before != [] ==> before[|before| - 1].key != "data"
    ensures ParseLines(lower, head + tail) == before + [f] && LowerKeys(lower, before + [f])
  {
    hide ParseLines, AddLine, Says;
    if f.key == "data" {
      var parts :| f.value == Join(parts, "\n") && SaysEach(lower, tail, parts);
      DataLines(lower, tail, head, before, parts);
    } else {
      assert tail == [tail[0]];
      ParseSnoc(lower, head, tail[0]);
      if f.key == "comment" {
        AddsSaidComment(lower, before, f.value);
        assert f == Field("comment", f.value);
      } else {
        AddsSaid(lower, before, tail[0], f.key, f.value);
        SaidKeyIsLower(lower, tail[0], f.key, f.value);
        assert f == Field(f.key, f.value);
      }
    }
  }

  // ---- Frames and bodies ----

  lemma {:induction false} SaidLinesAreGood(lower: char -> char, lines: seq<string>, fields: seq<Field>)
    requires SpellsAll(lower, lines, fields)
    ensures GoodLines(lines) && (fields != [] ==> lines != [] && TrimSpace(lines[0]) != "")
    decreases |fields|
  {
    if fields != [] {
      hide Spells, TrimSpace, GoodLine, SpellsAll;
      var before, f := fields[..|fields| - 1], fields[|fields| - 1];
      var n := LastSpelled(lower, lines, fields);
      SaidLinesAreGood(lower, lines[..n], before);
      FieldLinesAreGood(lower, lines[n..], f);
      forall i | 0 <= i < |lines| ensures GoodLine(lines[i]) {
        if i < n { assert lines[i] == lines[..n][i]; } else { assert lines[i] == lines[n..][i - n]; }
      }
    }
  }

  lemma {:induction false} FieldLinesAreGood(lower: char -> char, lines: seq<string>, f: Field)
    requires Spells(lower, lines, f)
    ensures lines != [] && forall i :: 0 <= i < |lines| ==> GoodLine(lines[i]) && TrimSpace(lines[i]) != ""
  {
    hide Says, TrimSpace, GoodLine;
    forall i | 0 <= i < |lines| ensures GoodLine(lines[i]) && TrimSpace(lines[i]) != "" {
      if f.key == "comment" {
        CommentIsGood(f.value);
      } else if f.key == "data" {
        var parts :| f.value == Join(parts, "\n") && SaysEach(lower, lines, parts);
        SaidLine(lower, lines[i], "data", parts[i]);
      } else {
        SaidLine(lower, lines[i], f.key, f.value);
      }
    }
  }

  /** A frame of good lines, the first of them not blank, is kept whole and read line by line. */
  lemma {:induction false} SpelledFrame(lower: char -> char, lines: seq<string>, fields: seq<Field>)
    requires CaseMap(lower) && SpellsAll(lower, lines, fields) && fields != []
    ensures var frame := Join(lines, "\n");
            GoodFrame(frame) && FrameOf(frame) == [frame] && FieldsOf(lower, frame) == [fields]
  {
    hide CaseMap, SpellsAll, ParseLines, Trim, TrimSpace, GoodFrame, GoodLine;
    var frame := Join(lines, "\n");
    SpelledLines(lower, lines, fields);
    SaidLinesAreGood(lower, lines, fields);
    JoinGoodLines(lines);
    SolidFrameIsKept(lines);
    forall p | p in lines ensures Clean(p, "\n") { GoodLineIsClean(p); }
    hide Clean;
    SplitJoin(lines, "\n");
  }

  lemma {:induction false} GoodLineIsClean(line: string)
    requires GoodLine(line)
    ensures Clean(line, "\n")
  {
    CleanOneLine(line);
  }

  lemma {:induction false} SolidFrameIsKept(lines: seq<string>)
    requires lines != [] && TrimSpace(lines[0]) != "" && GoodFrame(Join(lines, "\n"))
    ensures FrameOf(Join(lines, "\n")) == [Join(lines, "\n")]
  {
    var frame := Join(lines, "\n");
    if forall i :: 0 <= i < |lines[0]| ==> IsSpace(lines[0][i]) { TrimBlank(lines[0]); }
    hide IsSpace, TrimSpace;
    var i :| 0 <= i < |lines[0]| && !IsSpace(lines[0][i]);
    assert frame[i] == lines[0][i];
    TrimKeeps(IsSpace, frame, i);
    TrimStable(IsNewline, frame);
  }

  /** The chunks, each spelled by some lines. */
  ghost predicate SpellsBody(lower: char -> char, frames: seq<seq<string>>, datas: seq<seq<Field>>) {
    && |frames| == |datas|
    && forall i :: 0 <= i < |datas| ==> datas[i] != [] && SpellsAll(lower, frames[i], datas[i])
  }

  function Texts(frames: seq<seq<string>>): seq<string> {
    seq(|frames|, i requires 0 <= i < |frames| => Join(frames[i], "\n"))
  }

  lemma {:induction false} SpelledFrames(lower: char -> char, frames: seq<seq<string>>, datas: seq<seq<Field>>)
    requires CaseMap(lower) && SpellsBody(lower, frames, datas)
    ensures var texts := Texts(frames);
            && Frames(texts) == texts && ParseFrames(lower, texts) == datas
            && forall i :: 0 <= i < |texts| ==> GoodFrame(texts[i])
    decreases |frames|
  {
    hide CaseMap, SpellsAll, FrameOf, FieldsOf, GoodFrame;
    if frames != [] {
      var n := |frames| - 1;
      var before, text := Texts(frames[..n]), Join(frames[n], "\n");
      SpelledFrames(lower, frames[..n], datas[..n]);
      SpelledFrame(lower, frames[n], datas[n]);
      assert Texts(frames) == before + [text] && datas == datas[..n] + [datas[n]];
      FramesSnoc(before, text);
      ParseFramesSnoc(lower, before, text);
    }
  }

  /**
   * Any body, with any line ends, whose frames spell the given chunks parses to those chunks, with or without a blank
   * line at its end.
   */
  lemma {:induction false} SpelledBodyParses(lower: char -> char, body: string, frames: seq<seq<string>>,
                                             datas: seq<seq<Field>>)
    requires CaseMap(lower) && SpellsBody(lower, frames, datas) && datas != []
    requires var text := Join(Texts(frames), "\n\n");
             NormalizeLineEndings(body) == text || NormalizeLineEndings(body) == text + "\n\n"
    ensures Parse(lower, body) == datas
  {
    hide CaseMap, SpellsAll, ParseFrames, NormalizeLineEndings, FrameOf, GoodFrame, SplitFrames, Join;
    var texts := Texts(frames);
    SpelledFrames(lower, frames, datas);
    FramesOfTexts(texts);
    FramesOfTexts(texts + [""]);
    FramesSnoc(texts, "");
    EmptyFrame();
    JoinSnoc(texts, "", "\n\n");
    assert Join(texts, "\n\n") + "\n\n" + "" == Join(texts, "\n\n") + "\n\n" && texts + [] == texts;
  }

  lemma {:induction false} EmptyFrame()
    ensures FrameOf("") == []
  {
    TrimStable(IsNewline, "");
    TrimStable(IsSpace, "");
  }

  lemma {:induction false} FramesOfTexts(texts: seq<string>)
    requires texts != [] && forall i :: 0 <= i < |texts| ==> GoodFrame(texts[i]) || texts[i] == ""
    ensures var text := Join(texts, "\n\n");
            NormalizeLineEndings(text) == text && SplitFrames(text) == Frames(texts)
  {
    NoReturnInTexts(texts);
    NoReturnsUnchanged(Join(texts, "\n\n"));
    forall p | p in texts ensures Clean(p, "\n\n") {
      if p != "" { FrameIsClean(p); }
    }
    SplitJoin(texts, "\n\n");
  }

  lemma {:induction false} NoReturnInTexts(texts: seq<string>)
    requires forall i :: 0 <= i < |texts| ==> GoodFrame(texts[i]) || texts[i] == ""
    ensures forall i :: 0 <= i < |Join(texts, "\n\n")| ==> Join(texts, "\n\n")[i] != '\r'
  {
    if |texts| > 1 {
      NoReturnInTexts(texts[1..]);
    }
  }
}
