/** Only normalised chunks survive a round trip: reprinting never adds text, and it loses text on anything else. */
module SseExactness {
  import opened Text
  import opened SseBody
  import opened SseRoundTrip

  /** The number of characters other than colons. */
  function Weight(s: string): nat {
    if s == "" then 0 else Weight(s[..|s| - 1]) + if s[|s| - 1] == ':' then 0 else 1
  }

  lemma {:induction false} WeightConcat(s: string, t: string)
    ensures Weight(s + t) == Weight(s) + Weight(t)
  {
    if t == "" {
      assert s + t == s;
    } else {
      assert (s + t)[..|s + t| - 1] == s + t[..|t| - 1];
      WeightConcat(s, t[..|t| - 1]);
    }
  }

  lemma {:induction false} WeightSlice(s: string, i: nat, j: nat)
    requires i <= j <= |s|
    ensures Weight(s[..i]) + Weight(s[i..j]) + Weight(s[j..]) == Weight(s)
  {
    assert s == s[..i] + s[i..j] + s[j..];
    WeightConcat(s[..i] + s[i..j], s[j..]);
    WeightConcat(s[..i], s[i..j]);
  }

  lemma {:induction false} WeightNoColon(s: string)
    requires NoColon(s)
    ensures Weight(s) == |s|
  {
    if s != "" {
      WeightNoColon(s[..|s| - 1]);
    }
  }

  lemma {:induction false} WeightLower(lower: char -> char, s: string)
    requires CaseMap(lower)
    ensures Weight(MapChars(lower, s)) == Weight(s)
  {
    if s != "" {
      assert MapChars(lower, s)[..|s| - 1] == MapChars(lower, s[..|s| - 1]);
      assert MapChars(lower, s)[|s| - 1] == lower(s[|s| - 1]);
      assert lower(s[|s| - 1]) == ':' <==> s[|s| - 1] == ':';
      WeightLower(lower, s[..|s| - 1]);
    }
  }

  lemma {:induction false} WeightTrim(cut: char -> bool, s: string)
    ensures Weight(Trim(cut, s)) <= Weight(s)
  {
    var t := TrimLeft(cut, s);
    WeightSlice(s, FirstKept(cut, s, 0), |s|);
    assert s[FirstKept(cut, s, 0)..|s|] == t;
    WeightSlice(t, 0, LastKept(cut, t, |t|));
    assert t[0..LastKept(cut, t, |t|)] == Trim(cut, s);
  }

  /** Total weight of the parts, with `k` more for each. */
  function Cost(parts: seq<string>, k: nat): nat {
    if parts == [] then 0 else Weight(parts[0]) + k + Cost(parts[1..], k)
  }

  lemma {:induction false} CostConcat(a: seq<string>, b: seq<string>, k: nat)
    ensures Cost(a + b, k) == Cost(a, k) + Cost(b, k)
  {
    if a == [] {
      assert a + b == b;
    } else {
      assert (a + b)[1..] == a[1..] + b;
      CostConcat(a[1..], b, k);
    }
  }

  lemma {:induction false} CostJoin(parts: seq<string>, sep: string)
    requires parts != []
    ensures Weight(Join(parts, sep)) + Weight(sep) == Cost(parts, Weight(sep))
  {
    if |parts| > 1 {
      CostJoin(parts[1..], sep);
      var rest := Join(parts[1..], sep);
      WeightConcat(parts[0] + sep, rest);
      WeightConcat(parts[0], sep);
    }
  }

  lemma {:induction false} CostSplit(s: string, sep: string)
    requires sep != ""
    ensures Cost(Split(s, sep), Weight(sep)) == Weight(s) + Weight(sep)
  {
    JoinSplit(s, sep);
    CostJoin(Split(s, sep), sep);
  }

  lemma {:induction false} CostMonotone(parts: seq<string>, j: nat, k: nat)
    requires j <= k && parts != []
    ensures Cost(parts, j) + (k - j) <= Cost(parts, k)
  {
    if |parts| > 1 {
      CostMonotone(parts[1..], j, k);
    }
  }

  lemma {:induction false} WeightReplace(s: string, from: string, to: string)
    requires from != "" && Weight(to) <= Weight(from)
    ensures Weight(ReplaceAll(s, from, to)) <= Weight(s)
  {
    var parts := Split(s, from);
    CostSplit(s, from);
    CostJoin(parts, to);
    CostMonotone(parts, Weight(to), Weight(from));
  }

  lemma {:induction false} WeightNormalize(s: string)
    ensures Weight(NormalizeLineEndings(s)) <= Weight(s)
  {
    assert "\r\n"[..1] == "\r" && "\r"[..0] == "" && "\n"[..0] == "";
    WeightReplace(s, "\r\n", "\n");
    WeightReplace(ReplaceAll(s, "\r\n", "\n"), "\r", "\n");
  }

  // ---- What a parsed field owes to its line ----

  function Newlines(s: string): nat {
    if s == "" then 0 else Newlines(s[..|s| - 1]) + if s[|s| - 1] == '\n' then 1 else 0
  }

  lemma {:induction false} NewlinesConcat(s: string, t: string)
    ensures Newlines(s + t) == Newlines(s) + Newlines(t)
  {
    if t == "" {
      assert s + t == s;
    } else {
      assert (s + t)[..|s + t| - 1] == s + t[..|t| - 1];
      NewlinesConcat(s, t[..|t| - 1]);
    }
  }

  lemma {:induction false} NewlinesZero(s: string)
    ensures Newlines(s) == 0 <==> forall i :: 0 <= i < |s| ==> s[i] != '\n'
  {
    if s != "" {
      NewlinesZero(s[..|s| - 1]);
      assert forall i :: 0 <= i < |s| - 1 ==> s[..|s| - 1][i] == s[i];
    }
  }

  /** A key that printing drops, and a leading space that reparsing would strip. */
  function KeyPenalty(f: Field): nat { if f.key == "" then 1 else 0 }

  function SpacePenalty(f: Field): nat { if f.key != "comment" && HasPrefix(f.value, " ") then 1 else 0 }

  function Penalty(f: Field): nat { Newlines(f.value) + KeyPenalty(f) + SpacePenalty(f) }

  function Penalties(fields: seq<Field>): nat {
    if fields == [] then 0 else Penalties(fields[..|fields| - 1]) + Penalty(fields[|fields| - 1])
  }

  lemma {:induction false} LowerKeepsEnds(lower: char -> char, s: string)
    requires CaseMap(lower)
    requires s == "" || (!IsSpace(s[0]) && !IsSpace(s[|s| - 1]))
    ensures TrimSpace(MapChars(lower, s)) == MapChars(lower, s)
    ensures MapChars(lower, MapChars(lower, s)) == MapChars(lower, s)
  {
    var t := MapChars(lower, s);
    if s != "" {
      assert t[0] == lower(s[0]) && t[|t| - 1] == lower(s[|s| - 1]);
    }
    TrimStable(IsSpace, t);
    forall i | 0 <= i < |t| ensures lower(t[i]) == t[i] {
      assert t[i] == lower(s[i]);
    }
    assert MapChars(lower, t) == t;
  }

  lemma {:induction false} TrimKeepsLine(raw: string)
    requires OneLine(raw) && NoColon(raw)
    ensures OneLine(TrimSpace(raw)) && NoColon(TrimSpace(raw))
  {
    hide Trim;
    var pre, post := TrimSplits(IsSpace, raw);
    var t := TrimSpace(raw);
    assert forall i :: 0 <= i < |t| ==> t[i] == raw[|pre| + i];
  }

  lemma {:induction false} LowerKeepsLine(lower: char -> char, t: string)
    requires CaseMap(lower)
    requires OneLine(t) && NoColon(t)
    ensures OneLine(MapChars(lower, t)) && NoColon(MapChars(lower, t))
  {
    var k := MapChars(lower, t);
    assert forall i :: 0 <= i < |k| ==> k[i] == lower(t[i]);
  }

  /** The key of any parsed field is normal. */
  lemma {:induction false} NormalisedKey(lower: char -> char, raw: string)
    requires CaseMap(lower)
    requires OneLine(raw) && NoColon(raw)
    ensures NormalKey(lower, MapChars(lower, TrimSpace(raw))) && Weight(MapChars(lower, TrimSpace(raw))) <= |raw|
  {
    hide MapChars, Trim, OneLine, NoColon, Weight;
    var t := TrimSpace(raw);
    TrimEnds(IsSpace, raw);
    LowerKeepsEnds(lower, t);
    TrimKeepsLine(raw);
    LowerKeepsLine(lower, t);
    WeightLower(lower, t);
    WeightTrim(IsSpace, raw);
    WeightNoColon(raw);
  }

  lemma {:induction false} HeadWeight(s: string)
    requires HasPrefix(s, " ")
    ensures Weight(s) == 1 + Weight(s[1..])
  {
    WeightSlice(s, 0, 1);
    assert s[..0] == "" && s[0..1] == " " && " "[..0] == "";
  }

  /** The text of a parsed field, plus its penalties, fits in the text of its line. */
  lemma {:induction false} FieldFitsLine(lower: char -> char, line: string)
    requires CaseMap(lower)
    requires OneLine(line) && line != "" && !HasPrefix(line, ":")
    ensures var f := ParseField(lower, line);
            && NormalKey(lower, f.key) && OneLine(f.value)
            && Weight(f.key) + Weight(f.value) + KeyPenalty(f) + SpacePenalty(f) <= Weight(line)
  {
    var colon := Index(line, ":");
    if colon.None? {
      forall i | 0 <= i < |line| ensures line[i] != ':' {
        assert !OccursAt(line, ":", i);
        assert line[i..i + 1] == [line[i]];
      }
      WholeLineKey(lower, line);
    } else {
      ColonSplits(lower, line, colon.value);
    }
  }

  lemma {:induction false} WholeLineKey(lower: char -> char, line: string)
    requires CaseMap(lower)
    requires OneLine(line) && NoColon(line) && line != "" && Index(line, ":").None?
    ensures var f := ParseField(lower, line);
            && NormalKey(lower, f.key) && OneLine(f.value)
            && Weight(f.key) + Weight(f.value) + KeyPenalty(f) + SpacePenalty(f) <= Weight(line)
  {
    TrimEnds(IsSpace, line);
    TrimStable(IsSpace, TrimSpace(line));
    NormalisedKey(lower, line);
    WeightNoColon(line);
    assert ParseField(lower, line) == Field(MapChars(lower, TrimSpace(line)), "");
  }

  lemma {:induction false} BeforeColon(line: string, i: nat)
    requires !HasPrefix(line, ":") && Index(line, ":") == Some(i)
    ensures 0 < i < |line| && line[i] == ':' && NoColon(line[..i])
  {
    assert line[i..i + 1][0] == ':';
    assert line[..1] == [line[0]];
    forall j | 0 <= j < i ensures line[..i][j] != ':' {
      assert !OccursAt(line, ":", j);
      assert line[j..j + 1] == [line[j]];
    }
  }

  lemma {:induction false} ColonSplits(lower: char -> char, line: string, i: nat)
    requires CaseMap(lower)
    requires OneLine(line) && !HasPrefix(line, ":") && Index(line, ":") == Some(i)
    ensures var f := ParseField(lower, line);
            && NormalKey(lower, f.key) && OneLine(f.value)
            && Weight(f.key) + Weight(f.value) + KeyPenalty(f) + SpacePenalty(f) <= Weight(line)
  {
    hide MapChars, Trim;
    BeforeColon(line, i);
    var raw, value := line[..i], line[i + 1..];
    assert OneLine(raw) && OneLine(value);
    NormalisedKey(lower, raw);
    WeightNoColon(raw);
    WeightSlice(line, i, i + 1);
    assert Weight(line) >= |raw| + Weight(value);
    ValueFits(value);
  }

  /** Stripping one leading space pays for a second one. */
  lemma {:induction false} ValueFits(value: string)
    requires OneLine(value)
    ensures var v := if HasPrefix(value, " ") then value[1..] else value;
            OneLine(v) && Weight(v) + (if HasPrefix(v, " ") then 1 else 0) <= Weight(value)
  {
    if HasPrefix(value, " ") {
      HeadWeight(value);
    }
  }

  // ---- Reprinting what was parsed never adds weight ----

  /** What the parser guarantees of the fields of a frame. */
  predicate Parsed(lower: char -> char, fields: seq<Field>) {
    NoAdjacentData(fields) && forall i :: 0 <= i < |fields| ==>
        NormalKey(lower, fields[i].key) && NoReturn(fields[i].value)
  }

  /** Lines printed for the fields, plus penalties. */
  function Budget(lower: char -> char, fields: seq<Field>): nat {
    Cost(PrintLines(lower, fields), 1) + Penalties(fields)
  }

  lemma {:induction false} PenaltiesSnoc(fields: seq<Field>, f: Field)
    ensures Penalties(fields + [f]) == Penalties(fields) + Penalty(f)
  {
    assert (fields + [f])[..|fields|] == fields;
  }

  lemma {:induction false} BudgetSnoc(lower: char -> char, fields: seq<Field>, f: Field)
    ensures Budget(lower, fields + [f]) == Budget(lower, fields) + Cost(PrintField(lower, f), 1) + Penalty(f)
  {
    PrintSnoc(lower, fields, f);
    CostConcat(PrintLines(lower, fields), PrintField(lower, f), 1);
    PenaltiesSnoc(fields, f);
  }

  lemma {:induction false} CostOne(s: string, k: nat)
    ensures Cost([s], k) == Weight(s) + k
  {
    assert [s][1..] == [];
  }

  lemma {:induction false} PrintedWeight(lower: char -> char, f: Field)
    requires NormalKey(lower, f.key)
    ensures Cost(PrintField(lower, f), 1) <= Weight(f.key) + Weight(f.value) + 1
    ensures f.key == "comment" ==> Cost(PrintField(lower, f), 1) == Weight(f.value) + 1
    ensures f.key == "" ==> Cost(PrintField(lower, f), 1) == 0
    ensures f.key != "comment" && f.key != "" ==> Cost(PrintField(lower, f), 1) == Weight(f.key) + Weight(f.value) + 1
  {
    WeightConcat(":", f.value);
    WeightConcat(f.key + ":", f.value);
    WeightConcat(f.key, ":");
    assert ":"[..0] == "";
    CostOne(":" + f.value, 1);
    CostOne(f.key + ":" + f.value, 1);
  }

  lemma {:induction false} CommentLine(lower: char -> char, fields: seq<Field>, line: string)
    requires CaseMap(lower)
    requires Parsed(lower, fields) && OneLine(line) && HasPrefix(line, ":")
    ensures var fields' := fields + [Field("comment", line[1..])];
            Parsed(lower, fields') && Budget(lower, fields') <= Budget(lower, fields) + Weight(line) + 1
  {
    hide Budget, NormalKey, PrintField;
    var f := Field("comment", line[1..]);
    CommentKey(lower);
    BudgetSnoc(lower, fields, f);
    PrintedWeight(lower, f);
    NewlinesZero(f.value);
    WeightSlice(line, 0, 1);
    assert line[..0] == "" && line[0..1] == ":" && ":"[..0] == "";
  }

  lemma {:induction false} CommentKey(lower: char -> char)
    requires CaseMap(lower)
    ensures NormalKey(lower, "comment")
  {
    TrimStable(IsSpace, "comment");
  }

  lemma {:induction false} FieldLine(lower: char -> char, fields: seq<Field>, line: string)
    requires CaseMap(lower)
    requires Parsed(lower, fields) && OneLine(line) && line != "" && !HasPrefix(line, ":")
    ensures var fields' := AddField(lower, fields, ParseField(lower, line));
            Parsed(lower, fields') && Budget(lower, fields') <= Budget(lower, fields) + Weight(line) + 1
  {
    FieldFitsLine(lower, line);
    FieldAdded(lower, fields, ParseField(lower, line), Weight(line));
  }

  lemma {:induction false} FieldAdded(lower: char -> char, fields: seq<Field>, f: Field, w: nat)
    requires Parsed(lower, fields) && NormalKey(lower, f.key) && OneLine(f.value)
    requires Weight(f.key) + Weight(f.value) + KeyPenalty(f) + SpacePenalty(f) <= w
    ensures Parsed(lower, AddField(lower, fields, f))
    ensures Budget(lower, AddField(lower, fields, f)) <= Budget(lower, fields) + w + 1
  {
    hide Budget, AddField, NormalKey, NoAdjacentData;
    var n := |fields| - 1;
    AddFieldCases(lower, fields, f);
    if f.key == "data" && fields != [] && fields[n].key == "data" {
      assert fields == fields[..n] + [fields[n]];
      MergeLine(lower, fields[..n], fields[n], f);
      DataWeight();
    } else {
      FieldAppended(lower, fields, f, w);
    }
  }

  lemma {:induction false} AddFieldCases(lower: char -> char, fields: seq<Field>, f: Field)
    requires Parsed(lower, fields)
    ensures var n := |fields| - 1;
            AddField(lower, fields, f) ==
            if f.key == "data" && fields != [] && fields[n].key == "data" then fields[..n] + [Merged(fields[n], f)]
                else fields + [f]
  {
    var n := |fields| - 1;
    if fields != [] {
      assert NormalKey(lower, fields[n].key);
      assert fields[n := Merged(fields[n], f)] == fields[..n] + [Merged(fields[n], f)];
    }
  }

  lemma {:induction false} FieldAppended(lower: char -> char, fields: seq<Field>, f: Field, w: nat)
    requires Parsed(lower, fields) && NormalKey(lower, f.key) && OneLine(f.value)
    requires Weight(f.key) + Weight(f.value) + KeyPenalty(f) + SpacePenalty(f) <= w
    requires fields != [] ==> !(fields[|fields| - 1].key == "data" && f.key == "data")
    ensures Parsed(lower, fields + [f]) && Budget(lower, fields + [f]) <= Budget(lower, fields) + w + 1
  {
    hide NormalKey, HasPrefix, PrintField;
    NewlinesZero(f.value);
    BudgetSnoc(lower, fields, f);
    PrintedWeight(lower, f);
    var ys := fields + [f];
    forall i | 0 <= i < |ys| ensures NormalKey(lower, ys[i].key) && NoReturn(ys[i].value) {
      assert i < |fields| ==> ys[i] == fields[i];
    }
  }

  lemma {:induction false} DataWeight()
    ensures Weight("data") == 4
  {
    WeightNoColon("data");
  }

  function Merged(last: Field, f: Field): Field { last.(value := last.value + "\n" + f.value) }

  lemma {:induction false} MergeLine(lower: char -> char, before: seq<Field>, last: Field, f: Field)
    requires Parsed(lower, before + [last]) && last.key == "data" && OneLine(f.value)
    ensures Parsed(lower, before + [Merged(last, f)])
    ensures Budget(lower, before + [Merged(last, f)]) <= Budget(lower, before + [last]) + Weight(f.value) + 2
  {
    var merged := Merged(last, f);
    assert (before + [last])[|before|] == last;
    BudgetSnoc(lower, before, last);
    BudgetSnoc(lower, before, merged);
    PrintedWeight(lower, last);
    PrintedWeight(lower, merged);
    MergedWeight(last.value, f.value);
    MergedParsed(lower, before, last, f);
  }

  lemma {:induction false} MergedWeight(a: string, b: string)
    requires OneLine(b)
    ensures Weight(a + "\n" + b) == Weight(a) + Weight(b) + 1 && Newlines(a + "\n" + b) == Newlines(a) + 1
    ensures HasPrefix(a + "\n" + b, " ") ==> HasPrefix(a, " ")
  {
    WeightConcat(a + "\n", b);
    WeightConcat(a, "\n");
    NewlinesConcat(a + "\n", b);
    NewlinesConcat(a, "\n");
    NewlinesZero(b);
    assert "\n"[..0] == "";
    assert (a + "\n" + b)[..1] == if a == "" then "\n" else a[..1];
  }

  lemma {:induction false} MergedParsed(lower: char -> char, before: seq<Field>, last: Field, f: Field)
    requires Parsed(lower, before + [last]) && OneLine(f.value)
    ensures Parsed(lower, before + [Merged(last, f)])
  {
    var xs, ys := before + [last], before + [Merged(last, f)];
    assert xs[|before|] == last;
    forall i | 0 <= i < |ys| ensures ys[i].key == xs[i].key && NormalKey(lower, ys[i].key) && NoReturn(ys[i].value) {
      assert NormalKey(lower, xs[i].key) && NoReturn(xs[i].value);
    }
  }

  lemma {:induction false} LinesFit(lower: char -> char, lines: seq<string>)
    requires CaseMap(lower)
    requires forall i :: 0 <= i < |lines| ==> OneLine(lines[i])
    ensures Parsed(lower, ParseLines(lower, lines)) && Budget(lower, ParseLines(lower, lines)) <= Cost(lines, 1)
    decreases |lines|
  {
    if lines != [] {
      hide Parsed, Budget, AddLine, OneLine, ParseLines, Cost;
      var before, line := lines[..|lines| - 1], lines[|lines| - 1];
      LinesFit(lower, before);
      assert before + [line] == lines;
      ParseSnoc(lower, before, line);
      CostConcat(before, [line], 1);
      CostOne(line, 1);
      LineFits(lower, ParseLines(lower, before), line);
    }
  }

  lemma {:induction false} LineFits(lower: char -> char, fields: seq<Field>, line: string)
    requires CaseMap(lower)
    requires Parsed(lower, fields) && OneLine(line)
    ensures Parsed(lower, AddLine(lower, fields, line))
    ensures Budget(lower, AddLine(lower, fields, line)) <= Budget(lower, fields) + Weight(line) + 1
  {
    assert TrimRight(IsReturn, line) == line;
    if TrimSpace(line) != "" {
      if HasPrefix(line, ":") {
        CommentLine(lower, fields, line);
      } else {
        FieldLine(lower, fields, line);
      }
    }
  }

  // ---- From frames to whole bodies ----

  lemma {:induction false} SplitPartsLackChar(s: string, c: char)
    ensures forall i, j :: 0 <= i < |Split(s, [c])| && 0 <= j < |Split(s, [c])[i]| ==> Split(s, [c])[i][j] != c
    decreases |s|
  {
    var at := Index(s, [c]);
    forall j | 0 <= j < |s| && s[j] == c ensures OccursAt(s, [c], j) {
      assert s[j..j + 1] == [c];
    }
    if at.Some? {
      SplitPartsLackChar(s[at.value + 1..], c);
    }
  }

  lemma {:induction false} SplitPartsKeepNoReturn(s: string, sep: string)
    requires sep != "" && NoReturn(s)
    ensures forall p :: p in Split(s, sep) ==> NoReturn(p)
    decreases |s|
  {
    var at := Index(s, sep);
    if at.Some? {
      SplitPartsKeepNoReturn(s[at.value + |sep|..], sep);
    }
  }

  lemma {:induction false} JoinNoReturn(parts: seq<string>, sep: string)
    requires NoReturn(sep) && forall p :: p in parts ==> NoReturn(p)
    ensures NoReturn(Join(parts, sep))
  {
    if |parts| > 1 {
      JoinNoReturn(parts[1..], sep);
      assert parts[0] in parts;
    } else if |parts| == 1 {
      assert parts[0] in parts;
    }
  }

  lemma {:induction false} NormalizedHasNoReturn(s: string)
    ensures NoReturn(NormalizeLineEndings(s))
  {
    var t := ReplaceAll(s, "\r\n", "\n");
    SplitPartsLackChar(t, '\r');
    JoinNoReturn(Split(t, "\r"), "\n");
  }

  function AllPenalties(datas: seq<seq<Field>>): nat {
    if datas == [] then 0 else AllPenalties(datas[..|datas| - 1]) + Penalties(datas[|datas| - 1])
  }

  predicate AllParsed(lower: char -> char, datas: seq<seq<Field>>) {
    forall i :: 0 <= i < |datas| ==> datas[i] != [] && Parsed(lower, datas[i])
  }

  lemma {:induction false} FrameFits(lower: char -> char, frame: string)
    requires CaseMap(lower)
    requires NoReturn(frame)
    ensures var fields := ParseLines(lower, Split(frame, "\n"));
            Parsed(lower, fields) && Cost(PrintFrame(lower, fields), 2) + Penalties(fields) <= Weight(frame) + 2
  {
    var lines := Split(frame, "\n");
    SplitPartsLackChar(frame, '\n');
    SplitPartsKeepNoReturn(frame, "\n");
    forall i | 0 <= i < |lines| ensures OneLine(lines[i]) {
      assert lines[i] in lines;
    }
    LinesFit(lower, lines);
    CostSplit(frame, "\n");
    assert "\n"[..0] == "" && Weight("\n") == 1;
    var printed := PrintLines(lower, ParseLines(lower, lines));
    if printed != [] {
      CostJoin(printed, "\n");
      CostOne(Join(printed, "\n"), 2);
    }
  }

  /** Printing `datas` costs no more than the frames they came from, penalties included. */
  predicate Fits(lower: char -> char, datas: seq<seq<Field>>, frames: seq<string>) {
    AllParsed(lower, datas) && Cost(PrintFrames(lower, datas), 2) + AllPenalties(datas) <= Cost(frames, 2)
  }

  lemma {:induction false} FitsSnoc(lower: char -> char, datas: seq<seq<Field>>, frames: seq<string>, frame: string)
    requires CaseMap(lower)
    requires Fits(lower, datas, frames) && NoReturn(frame)
    ensures Fits(lower, datas + FieldsOf(lower, frame), frames + [frame])
  {
    CostConcat(frames, [frame], 2);
    CostOne(frame, 2);
    FrameFits(lower, frame);
    var fields := ParseLines(lower, Split(frame, "\n"));
    if fields == [] {
      assert datas + FieldsOf(lower, frame) == datas;
    } else {
      FrameAppended(lower, datas, fields);
    }
  }

  lemma {:induction false} FramesFit(lower: char -> char, frames: seq<string>) returns (datas: seq<seq<Field>>)
    requires CaseMap(lower)
    requires AllNoReturn(frames)
    ensures datas == ParseFrames(lower, frames) && Fits(lower, datas, frames)
    decreases |frames|
  {
    if frames == [] {
      datas := [];
    } else {
      var before, frame := frames[..|frames| - 1], frames[|frames| - 1];
      assert frames == before + [frame];
      var datas' := FramesFit(lower, before);
      FitsSnoc(lower, datas', before, frame);
      datas := datas' + FieldsOf(lower, frame);
    }
  }

  lemma {:induction false} FrameAppended(lower: char -> char, datas: seq<seq<Field>>, fields: seq<Field>)
    requires AllParsed(lower, datas) && Parsed(lower, fields) && fields != []
    ensures AllParsed(lower, datas + [fields])
    ensures AllPenalties(datas + [fields]) == AllPenalties(datas) + Penalties(fields)
    ensures Cost(PrintFrames(lower, datas + [fields]), 2)
        == Cost(PrintFrames(lower, datas), 2) + Cost(PrintFrame(lower, fields), 2)
  {
    hide PrintFrame, PrintFrames, Penalties;
    assert (datas + [fields])[..|datas|] == datas;
    PrintFramesSnoc(lower, datas, fields);
    CostConcat(PrintFrames(lower, datas), PrintFrame(lower, fields), 2);
  }

  predicate AllNoReturn(parts: seq<string>) { forall i :: 0 <= i < |parts| ==> NoReturn(parts[i]) }

  lemma {:induction false} TrimKeepsNoReturn(cut: char -> bool, s: string)
    requires NoReturn(s)
    ensures NoReturn(Trim(cut, s))
  {
    hide Trim;
    var pre, post := TrimSplits(cut, s);
    var t := Trim(cut, s);
    assert forall i :: 0 <= i < |t| ==> t[i] == s[|pre| + i];
  }

  lemma {:induction false} TrimmedPart(part: string)
    requires NoReturn(part)
    ensures Cost(FrameOf(part), 2) <= Weight(part) + 2 && AllNoReturn(FrameOf(part))
  {
    WeightTrim(IsNewline, part);
    CostOne(Trim(IsNewline, part), 2);
    TrimKeepsNoReturn(IsNewline, part);
  }

  lemma {:induction false} PartFits(frames: seq<string>, parts: seq<string>, part: string)
    requires Cost(frames, 2) <= Cost(parts, 2) && AllNoReturn(frames) && NoReturn(part)
    ensures Cost(frames + FrameOf(part), 2) <= Cost(parts + [part], 2) && AllNoReturn(frames + FrameOf(part))
  {
    TrimmedPart(part);
    CostConcat(parts, [part], 2);
    CostOne(part, 2);
    CostConcat(frames, FrameOf(part), 2);
  }

  lemma {:induction false} PartsFit(parts: seq<string>)
    requires AllNoReturn(parts)
    ensures Cost(Frames(parts), 2) <= Cost(parts, 2) && AllNoReturn(Frames(parts))
    decreases |parts|
  {
    hide FrameOf, NoReturn;
    if parts != [] {
      var before, part := parts[..|parts| - 1], parts[|parts| - 1];
      PartsFit(before);
      PartFits(Frames(before), before, part);
      assert before + [part] == parts;
    }
  }

  /** The frames of a body cost no more than the body. */
  lemma {:induction false} BodyFits(body: string)
    ensures Cost(SplitFrames(body), 2) <= Weight(body) + 2
    ensures AllNoReturn(SplitFrames(body))
  {
    var b := NormalizeLineEndings(body);
    WeightNormalize(body);
    NormalizedHasNoReturn(body);
    var parts := Split(b, "\n\n");
    SplitPartsKeepNoReturn(b, "\n\n");
    assert forall i :: 0 <= i < |parts| ==> parts[i] in parts;
    CostSplit(b, "\n\n");
    assert Weight("\n\n") == 2 by { WeightNoColon("\n\n"); }
    PartsFit(parts);
  }

  /** Reprinting a parsed body weighs at most the body, less a penalty for every defect of the chunks. */
  lemma {:induction false} ReprintNeverGrows(lower: char -> char, body: string)
    requires CaseMap(lower)
    ensures AllParsed(lower, Parse(lower, body))
    ensures PrintFrames(lower, Parse(lower, body)) != [] ==>
        Weight(Print(lower, Parse(lower, body))) + AllPenalties(Parse(lower, body)) <= Weight(body)
  {
    hide NormalizeLineEndings, SplitFrames, PrintFrames, AllParsed, AllPenalties, Weight;
    var b := NormalizeLineEndings(body);
    WeightNormalize(body);
    BodyFits(b);
    var datas := FramesFit(lower, SplitFrames(b));
    var printed := PrintFrames(lower, datas);
    if printed != [] {
      CostJoin(printed, "\n\n");
      assert Weight("\n\n") == 2 by { WeightNoColon("\n\n"); }
    }
  }

  lemma {:induction false} NoPenaltiesNormal(lower: char -> char, datas: seq<seq<Field>>)
    requires AllParsed(lower, datas) && AllPenalties(datas) == 0
    ensures Normalised(lower, datas)
    decreases |datas|
  {
    hide NormalKey, HasPrefix;
    if datas != [] {
      var before, last := datas[..|datas| - 1], datas[|datas| - 1];
      assert forall i :: 0 <= i < |before| ==> before[i] == datas[i];
      NoPenaltiesNormal(lower, before);
      forall i | 0 <= i < |last| ensures NormalField(lower, last[i]) {
        PenaltyOf(last, i);
        NewlinesZero(last[i].value);
      }
    }
  }

  lemma {:induction false} PenaltyOf(fields: seq<Field>, i: nat)
    requires i < |fields|
    ensures Penalty(fields[i]) <= Penalties(fields)
    decreases |fields|
  {
    if i < |fields| - 1 {
      PenaltyOf(fields[..|fields| - 1], i);
    }
  }

  lemma {:induction false} NothingPrinted(lower: char -> char)
    ensures Print(lower, []) == Join([], "\n\n")
  {
  }

  /** Parsing the printed body gives the chunks back exactly when they are normalised. */
  lemma {:induction false} RoundTripIff(lower: char -> char, datas: seq<seq<Field>>)
    requires CaseMap(lower)
    ensures Parse(lower, Print(lower, datas)) == datas <==> Normalised(lower, datas)
  {
    hide Parse, PrintFrames, CaseMap, AllParsed, NormalChunk, Weight, AllPenalties;
    if Normalised(lower, datas) {
      NormalisedRoundTrips(lower, datas);
    }
    if Parse(lower, Print(lower, datas)) == datas {
      var body := Print(lower, datas);
      ReprintNeverGrows(lower, body);
      if PrintFrames(lower, datas) == [] {
        NothingPrinted(lower);
        NormalisedRoundTrips(lower, []);
      } else {
        NoPenaltiesNormal(lower, datas);
      }
    }
  }

  /** Outside that class: a key that is not in lower case is lost, whatever its alphabet. */
  lemma {:induction false} CapitalKeyIsLost(lower: char -> char, f: Field)
    requires CaseMap(lower) && MapChars(lower, f.key) != f.key
    ensures Parse(lower, Print(lower, [[f]])) != [[f]]
  {
    hide Parse, Print;
    RoundTripIff(lower, [[f]]);
    assert ([[f]])[0][0] == f;
  }

  /** Outside that class: two adjacent data fields always come back as one two-line value. */
  lemma {:induction false} AdjacentDataMerges(lower: char -> char, a: Field, b: Field)
    requires NormalField(lower, a) && NormalField(lower, b) && a.key == "data" == b.key
    ensures Parse(lower, Print(lower, [[a, b]])) == [[Merged(a, b)]]
  {
    var lines := [LineOf(a), LineOf(b)];
    TwoLines(lower, a, b);
    MergesInFrame(lower, a, b);
    PrintsOneLine(lower, a);
    PrintsOneLine(lower, b);
    JoinGoodLines(lines);
    CleanOneLine(lines[0]);
    CleanOneLine(lines[1]);
    SplitJoin(lines, "\n");
    OneFrameBody(lower, [a, b], Join(lines, "\n"));
  }

  lemma {:induction false} TwoLines(lower: char -> char, a: Field, b: Field)
    requires NormalField(lower, a) && NormalField(lower, b)
    ensures PrintLines(lower, [a, b]) == [LineOf(a), LineOf(b)]
  {
    PrintSnoc(lower, [], a);
    PrintSnoc(lower, [a], b);
    PrintsOneLine(lower, a);
    PrintsOneLine(lower, b);
    assert [] + [a] == [a] && [a] + [b] == [a, b];
  }

  lemma {:induction false} MergesInFrame(lower: char -> char, a: Field, b: Field)
    requires NormalField(lower, a) && NormalField(lower, b) && a.key == "data" == b.key
    ensures ParseLines(lower, [LineOf(a), LineOf(b)]) == [Merged(a, b)]
  {
    assert [] + [LineOf(a)] == [LineOf(a)] && [LineOf(a)] + [LineOf(b)] == [LineOf(a), LineOf(b)] && [] + [a] == [a];
    ParseSnoc(lower, [], LineOf(a));
    ParseSnoc(lower, [LineOf(a)], LineOf(b));
    AddsField(lower, [], a);
    MergesWith(lower, a, b);
  }

  lemma {:induction false} MergesWith(lower: char -> char, a: Field, b: Field)
    requires NormalField(lower, a) && NormalField(lower, b) && a.key == "data" == b.key
    ensures AddLine(lower, [a], LineOf(b)) == [Merged(a, b)]
  {
    var line := LineOf(b);
    PrintsOneLine(lower, b);
    LineNotBlank(line, 4);
    assert line[0] == 'd';
    LineParsesBack(lower, b);
    assert AddField(lower, [a], b) == [Merged(a, b)];
  }

  /** A body of one frame is parsed as that frame. */
  lemma {:induction false} OneFrameBody(lower: char -> char, fields: seq<Field>, frame: string)
    requires PrintLines(lower, fields) != [] && frame == Join(PrintLines(lower, fields), "\n") && GoodFrame(frame)
    requires ':' in frame
    ensures Parse(lower, Print(lower, [fields])) == FieldsOf(lower, frame)
  {
    PrintsOneFrame(lower, fields, frame);
    ParsesOneFrame(lower, frame);
  }

  lemma {:induction false} PrintsOneFrame(lower: char -> char, fields: seq<Field>, frame: string)
    requires PrintFrame(lower, fields) == [frame]
    ensures Print(lower, [fields]) == frame
  {
    assert [] + [fields] == [fields];
    PrintFramesSnoc(lower, [], fields);
    assert PrintFrames(lower, [fields]) == [frame];
  }

  lemma {:induction false} ParsesOneFrame(lower: char -> char, frame: string)
    requires GoodFrame(frame) && ':' in frame
    ensures Parse(lower, frame) == FieldsOf(lower, frame)
  {
    hide FrameOf, FieldsOf, NormalizeLineEndings, Clean;
    assert [] + [frame] == [frame];
    FramesSnoc([], frame);
    ParseFramesSnoc(lower, [], frame);
    FrameIsKept(frame);
    SplitJoin([frame], "\n\n");
    NoReturnsUnchanged(frame);
  }
}
