/** The frames of a live stream against those of the batch splitter: when the two agree. */
module SseStream {
  import opened Text
  import opened SseBody
  import opened SseRoundTrip
  import opened SseScan

  /** What the stream comparison makes of the tokens: normalised, trimmed, blank ones skipped. */
  function StreamFrames(tokens: seq<string>): seq<string> {
    if tokens == [] then [] else FrameOf(NormalizeLineEndings(tokens[0])) + StreamFrames(tokens[1..])
  }

  // ---- Normalising line endings, one character at a time ----

  predicate StartsCrLf(s: string) { |s| > 1 && s[0] == '\r' && s[1] == '\n' }

  /** The first character of the normalised text, and how many characters it stands for. */
  function Head(s: string): char
    requires s != ""
  {
    if s[0] == '\r' then '\n' else s[0]
  }

  function Width(s: string): (n: nat)
    requires s != ""
    ensures 1 <= n <= |s|
  {
    if StartsCrLf(s) then 2 else 1
  }

  function Norm(s: string): string {
    if s == "" then "" else [Head(s)] + Norm(s[Width(s)..])
  }

  lemma {:induction false} OccursInTail(s: string, t: string, i: nat)
    requires 1 <= i <= |s|
    ensures OccursAt(s, t, i) <==> OccursAt(s[1..], t, i - 1)
  {
    var tail := s[1..];
    if i + |t| <= |s| {
      var here, there := s[i..i + |t|], tail[i - 1..i - 1 + |t|];
      forall k | 0 <= k < |t| ensures here[k] == there[k] {
        assert here[k] == s[i + k] && there[k] == tail[i - 1 + k];
      }
      assert here == there;
    }
  }

  lemma {:induction false} IndexTail(s: string, t: string)
    requires s != "" && t != "" && !HasPrefix(s, t)
    ensures Index(s, t) == match Index(s[1..], t) { case None => None case Some(i) => Some(i + 1) }
  {
    var tail := s[1..];
    forall i | 1 <= i <= |s| ensures OccursAt(s, t, i) <==> OccursAt(tail, t, i - 1) {
      OccursInTail(s, t, i);
    }
    assert !OccursAt(s, t, 0);
    var r, r' := Index(s, t), Index(tail, t);
    if r.Some? { assert OccursAt(tail, t, r.value - 1); }
    if r'.Some? { assert OccursAt(s, t, r'.value + 1); }
  }

  lemma {:induction false} JoinHead(head: string, head': string, rest: seq<string>, sep: string, c: char)
    requires head == [c] + head'
    ensures Join([head] + rest, sep) == [c] + Join([head'] + rest, sep)
  {
    assert ([head] + rest)[1..] == rest && ([head'] + rest)[1..] == rest;
    assert rest != [] ==> head + sep + Join(rest, sep) == [c] + (head' + sep + Join(rest, sep));
  }

  /** `strings.ReplaceAll`, one character or one occurrence at a time. */
  lemma {:induction false} ReplaceNext(s: string, from: string, to: string)
    requires from != "" && s != ""
    ensures ReplaceAll(s, from, to)
         == if HasPrefix(s, from) then to + ReplaceAll(s[|from|..], from, to) else [s[0]] + ReplaceAll(s[1..], from, to)
  {
    hide IndexFrom;
    if HasPrefix(s, from) {
      assert OccursAt(s, from, 0);
      var rest := Split(s[|from|..], from);
      assert Split(s, from) == [""] + rest;
      assert ([""] + rest)[1..] == rest;
      assert "" + to + Join(rest, to) == to + Join(rest, to);
    } else {
      IndexTail(s, from);
      var tail := s[1..];
      var i := Index(tail, from);
      if i.None? {
        assert Split(s, from) == [s] && Split(tail, from) == [tail];
        assert s == [s[0]] + tail;
      } else {
        assert s[..i.value + 1] == [s[0]] + tail[..i.value];
        assert s[i.value + 1 + |from|..] == tail[i.value + |from|..];
        JoinHead(s[..i.value + 1], tail[..i.value], Split(tail[i.value + |from|..], from), to, s[0]);
      }
    }
  }

  lemma {:induction false} ReplaceEmpty(from: string, to: string)
    requires from != ""
    ensures ReplaceAll("", from, to) == ""
  {
  }

  lemma {:induction false} NormalizeIsNorm(s: string)
    ensures NormalizeLineEndings(s) == Norm(s)
    decreases |s|
  {
    hide ReplaceAll, IndexFrom;
    if s == "" {
      ReplaceEmpty("\r\n", "\n");
      ReplaceEmpty("\r", "\n");
    } else {
      ReplaceNext(s, "\r\n", "\n");
      var once := ReplaceAll(s, "\r\n", "\n");
      ReplaceNext(once, "\r", "\n");
      if HasPrefix(s, "\r\n") {
        assert s[..2][0] == s[0] && s[..2][1] == s[1];
        NormalizeIsNorm(s[2..]);
        assert once[1..] == ReplaceAll(s[2..], "\r\n", "\n");
        assert once[..1] == "\n";
      } else {
        assert |s| > 1 && s[0] == '\r' ==> s[1] != '\n' by { assert |s| > 1 ==> s[..2] == [s[0], s[1]]; }
        NormalizeIsNorm(s[1..]);
        assert once[1..] == ReplaceAll(s[1..], "\r\n", "\n");
        assert once[..1] == [s[0]];
      }
    }
  }

  /** Normalising works piece by piece unless a piece ends between CR and LF. */
  lemma {:induction false} NormConcat(t: string, u: string)
    requires t == "" || u == "" || t[|t| - 1] != '\r' || u[0] != '\n'
    ensures Norm(t + u) == Norm(t) + Norm(u)
    decreases |t|
  {
    if t == "" {
      assert t + u == u;
    } else {
      var s, n := t + u, Width(t);
      assert Width(s) == n && Head(s) == Head(t);
      assert s[n..] == t[n..] + u;
      NormConcat(t[n..], u);
    }
  }

  // ---- Splitting at blank lines ----

  /** The frames of a normalised text. */
  function Batch(s: string): seq<string> { Frames(Split(s, "\n\n")) }

  lemma {:induction false} ConcatAssociates(a: seq<string>, b: seq<string>, c: seq<string>)
    ensures (a + b) + c == a + (b + c)
  {
  }

  lemma {:induction false} FramesCons(part: string, parts: seq<string>)
    ensures Frames([part] + parts) == FrameOf(part) + Frames(parts)
    decreases |parts|
  {
    hide FrameOf, Frames;
    if parts == [] {
      assert [part] + parts == [] + [part];
      FramesSnoc([], part);
      FramesNone();
    } else {
      var before, last := parts[..|parts| - 1], parts[|parts| - 1];
      assert parts == before + [last];
      FramesCons(part, before);
      FramesSnoc(before, last);
      FramesSnoc([part] + before, last);
      ConcatAssociates([part], before, [last]);
      ConcatAssociates(FrameOf(part), Frames(before), FrameOf(last));
    }
  }

  lemma {:induction false} BatchNext(s: string)
    ensures var i := Index(s, "\n\n");
            Batch(s) == if i.None? then FrameOf(s) else FrameOf(s[..i.value]) + Batch(s[i.value + 2..])
  {
    hide FrameOf, Frames;
    var i := Index(s, "\n\n");
    if i.None? {
      FramesCons(s, []);
      FramesNone();
      assert [s] + [] == [s] && FrameOf(s) + [] == FrameOf(s);
    } else {
      FramesCons(s[..i.value], Split(s[i.value + 2..], "\n\n"));
    }
  }

  lemma {:induction false} FramesNone()
    ensures Frames([]) == []
  {
  }

  lemma {:induction false} TrimLeadingNewline(s: string)
    ensures Trim(IsNewline, "\n" + s) == Trim(IsNewline, s)
  {
    var t := "\n" + s;
    FirstKeptShift(s, 0);
    assert TrimLeft(IsNewline, t) == TrimLeft(IsNewline, s);
  }

  lemma {:induction false} FirstKeptShift(s: string, i: nat)
    requires i <= |s|
    ensures FirstKept(IsNewline, "\n" + s, i + 1) == FirstKept(IsNewline, s, i) + 1
    decreases |s| - i
  {
    if i < |s| {
      assert ("\n" + s)[i + 1] == s[i];
      FirstKeptShift(s, i + 1);
    }
  }

  lemma {:induction false} TrimTrailingNewline(s: string)
    ensures Trim(IsNewline, s + "\n") == Trim(IsNewline, s)
  {
    var t := s + "\n";
    var i := FirstKept(IsNewline, s, 0);
    var j := FirstKept(IsNewline, t, 0);
    assert forall k :: 0 <= k < |s| ==> t[k] == s[k];
    if i < |s| {
      assert j == i;
      var u := TrimLeft(IsNewline, s);
      assert TrimLeft(IsNewline, t) == u + "\n";
      LastKeptPrefix(u, "\n", |u|);
      assert (u + "\n")[..LastKept(IsNewline, u, |u|)] == u[..LastKept(IsNewline, u, |u|)];
    } else {
      assert j == |t|;
      assert TrimLeft(IsNewline, t) == "" && TrimLeft(IsNewline, s) == "";
    }
  }

  lemma {:induction false} LastKeptPrefix(u: string, more: string, n: nat)
    requires n <= |u|
    ensures LastKept(IsNewline, u + more, n) == LastKept(IsNewline, u, n)
    decreases n
  {
    if n > 0 {
      assert (u + more)[n - 1] == u[n - 1];
      LastKeptPrefix(u, more, n - 1);
    }
  }

  lemma {:induction false} FrameOfEdges(s: string)
    ensures FrameOf("\n" + s) == FrameOf(s) == FrameOf(s + "\n")
  {
    TrimLeadingNewline(s);
    TrimTrailingNewline(s);
  }

  lemma {:induction false} EmptyFrame()
    ensures FrameOf("") == [] && Batch("") == []
  {
    TrimStable(IsNewline, "");
    TrimStable(IsSpace, "");
    BatchNext("");
  }

  lemma {:induction false} BreakAt(s: string, i: nat)
    ensures OccursAt(s, "\n\n", i) <==> i + 2 <= |s| && s[i] == '\n' && s[i + 1] == '\n'
  {
    if i + 2 <= |s| { assert s[i..i + 2] == [s[i], s[i + 1]]; }
  }

  lemma {:induction false} BreaksWithin(a: string, more: string)
    ensures forall k: nat :: k + 2 <= |a| ==> (OccursAt(a + more, "\n\n", k) <==> OccursAt(a, "\n\n", k))
  {
    forall k: nat ensures k + 2 <= |a| ==> (OccursAt(a + more, "\n\n", k) <==> OccursAt(a, "\n\n", k)) {
      BreakAt(a + more, k);
      BreakAt(a, k);
    }
  }

  /** Newlines before and after a text do not change its frames. */
  lemma {:induction false} BatchLeading(s: string)
    ensures Batch("\n" + s) == Batch(s)
    decreases |s|
  {
    hide Batch, FrameOf;
    var t := "\n" + s;
    BatchNext(t);
    BatchNext(s);
    BreakAt(t, 0);
    if s != "" && s[0] == '\n' {
      assert t[..0] == "" && t[2..] == s[1..] && s == "\n" + s[1..];
      EmptyFrame();
      BatchLeading(s[1..]);
    } else {
      assert !HasPrefix(t, "\n\n") by { assert HasPrefix(t, "\n\n") ==> OccursAt(t, "\n\n", 0); }
      IndexTail(t, "\n\n");
      assert t[1..] == s;
      var i := Index(s, "\n\n");
      if i.None? {
        FrameOfEdges(s);
      } else {
        FrameOfEdges(s[..i.value]);
        assert t[..i.value + 1] == "\n" + s[..i.value] && t[i.value + 3..] == s[i.value + 2..];
      }
    }
  }

  lemma {:induction false} IndexIs(s: string, t: string, i: nat)
    requires OccursAt(s, t, i) && forall k :: 0 <= k < i ==> !OccursAt(s, t, k)
    ensures Index(s, t) == Some(i)
  {
    var r := Index(s, t);
    assert 0 <= i < |s| + 1;
  }

  /** Where the first blank line of `a`, a blank line, and `b` starts. */
  lemma {:induction false} BreakIndex(a: string, b: string)
    ensures var i := Index(a, "\n\n");
            Index(a + "\n\n" + b, "\n\n")
            == if i.Some? then i else if a != "" && a[|a| - 1] == '\n' then Some(|a| - 1) else Some(|a|)
  {
    hide IndexFrom, OccursAt;
    var s, i := a + "\n\n" + b, Index(a, "\n\n");
    assert s == a + ("\n\n" + b);
    BreaksWithin(a, "\n\n" + b);
    BreakAt(s, |a|);
    if a != "" { BreakAt(s, |a| - 1); }
    if i.Some? { BreakAt(a, i.value); }
    IndexIs(s, "\n\n", if i.Some? then i.value else if a != "" && a[|a| - 1] == '\n' then |a| - 1 else |a|);
  }

  /** A blank line separates: the frames before it, then the frames after it. */
  lemma {:induction false} BatchBreak(a: string, b: string)
    ensures Batch(a + "\n\n" + b) == Batch(a) + Batch(b)
    decreases |a|
  {
    hide Batch, FrameOf, IndexFrom, OccursAt;
    var s := a + "\n\n" + b;
    BatchNext(a);
    BatchNext(s);
    BreakIndex(a, b);
    var i := Index(a, "\n\n");
    if i.Some? {
      BreakAt(a, i.value);
      var rest := a[i.value + 2..];
      assert s[..i.value] == a[..i.value] && s[i.value + 2..] == rest + "\n\n" + b;
      BatchBreak(rest, b);
    } else if a != "" && a[|a| - 1] == '\n' {
      var n := |a| - 1;
      assert s[..n] == a[..n] && s[n + 2..] == "\n" + b && a == a[..n] + "\n";
      FrameOfEdges(a[..n]);
      BatchLeading(b);
    } else {
      assert s[..|a|] == a && s[|a| + 2..] == b;
    }
  }

  lemma {:induction false} BatchTrailing(a: string)
    ensures Batch(a + "\n") == Batch(a)
    decreases |a|
  {
    hide Batch, FrameOf, IndexFrom;
    var s := a + "\n";
    BatchNext(a);
    BatchNext(s);
    var i := Index(a, "\n\n");
    BreaksWithin(a, "\n");
    if i.Some? {
      IndexIs(s, "\n\n", i.value);
      var rest := a[i.value + 2..];
      assert s[..i.value] == a[..i.value] && s[i.value + 2..] == rest + "\n";
      BatchTrailing(rest);
    } else if a != "" && a[|a| - 1] == '\n' {
      var n := |a| - 1;
      BreakAt(s, n);
      IndexIs(s, "\n\n", n);
      assert s[..n] == a[..n] && s[n + 2..] == "" && a == a[..n] + "\n";
      FrameOfEdges(a[..n]);
      EmptyFrame();
    } else {
      assert Index(s, "\n\n").None? by {
        if Index(s, "\n\n").Some? { BreakAt(s, Index(s, "\n\n").value); BreakAt(a, Index(s, "\n\n").value); }
      }
      FrameOfEdges(a);
    }
  }

  // ---- The batch splitter, token by token ----

  /** The frames the batch splitter finds in each token. */
  function BatchEach(tokens: seq<string>): seq<string> {
    if tokens == [] then [] else SplitFrames(tokens[0]) + BatchEach(tokens[1..])
  }

  lemma {:induction false} SplitFramesIsBatch(s: string)
    ensures SplitFrames(s) == Batch(Norm(s))
  {
    NormalizeIsNorm(s);
  }

  lemma {:induction false} NormEnds()
    ensures Norm("\r") == "\n" && Norm("\n") == "\n" && Norm("\r\n") == "\n"
  {
    assert "\r"[1..] == "" && "\n"[1..] == "" && "\r\n"[2..] == "";
  }

  lemma {:induction false} NormBreaks(rest: string)
    ensures Norm("\n\n" + rest) == "\n\n" + Norm(rest)
    ensures Norm("\r\n\n" + rest) == "\n\n" + Norm(rest)
    ensures Norm("\r\n\r\n" + rest) == "\n\n" + Norm(rest)
  {
    hide Norm;
    NormEnds();
    assert "\n\n" == "\n" + "\n" && "\r\n\n" == "\r\n" + "\n" && "\r\n\r\n" == "\r\n" + "\r\n";
    NormConcat("\n", "\n");
    NormConcat("\r\n", "\n");
    NormConcat("\r\n", "\r\n");
    NormConcat("\n\n", rest);
    NormConcat("\r\n\n", rest);
    NormConcat("\r\n\r\n", rest);
  }

  lemma {:induction false} LfBreaks(t: string, rest: string)
    ensures Batch(Norm(t + "\n\n" + rest)) == Batch(Norm(t)) + Batch(Norm(rest))
  {
    hide Batch, Norm;
    var u := "\n\n" + rest;
    assert t + "\n\n" + rest == t + u;
    NormBreaks(rest);
    if t != "" && t[|t| - 1] == '\r' {
      var t' := t[..|t| - 1];
      var v := "\r\n\n" + rest;
      assert t + u == t' + v && t == t' + "\r";
      NormConcat(t', v);
      NormConcat(t', "\r");
      NormEnds();
      BatchTrailing(Norm(t'));
      assert Norm(t') + ("\n\n" + Norm(rest)) == Norm(t') + "\n\n" + Norm(rest);
      BatchBreak(Norm(t'), Norm(rest));
    } else {
      NormConcat(t, u);
      assert Norm(t) + ("\n\n" + Norm(rest)) == Norm(t) + "\n\n" + Norm(rest);
      BatchBreak(Norm(t), Norm(rest));
    }
  }

  lemma {:induction false} CrLfBreaks(t: string, rest: string)
    ensures Batch(Norm(t + "\r\n\r\n" + rest)) == Batch(Norm(t)) + Batch(Norm(rest))
  {
    hide Batch, Norm;
    var u := "\r\n\r\n" + rest;
    assert t + "\r\n\r\n" + rest == t + u;
    NormBreaks(rest);
    NormConcat(t, u);
    assert Norm(t) + ("\n\n" + Norm(rest)) == Norm(t) + "\n\n" + Norm(rest);
    BatchBreak(Norm(t), Norm(rest));
  }

  lemma {:induction false} TokenBreaks(body: string)
    requires body != ""
    ensures var (advance, token) := SplitToken(body, true);
            SplitFrames(body) == SplitFrames(token.value) + SplitFrames(body[advance..])
  {
    hide SplitFrames, Batch, Norm, IndexFrom;
    var (advance, token) := SplitToken(body, true);
    var t, rest := token.value, body[advance..];
    SplitFramesIsBatch(body);
    SplitFramesIsBatch(t);
    SplitFramesIsBatch(rest);
    if advance == |t| + 2 {
      var i := |t|;
      assert OccursAt(body, "\n\n", i);
      assert body == t + "\n\n" + rest;
      LfBreaks(t, rest);
    } else if advance == |t| + 4 {
      var i := |t|;
      assert OccursAt(body, "\r\n\r\n", i);
      assert body == t + "\r\n\r\n" + rest;
      CrLfBreaks(t, rest);
    } else {
      assert rest == "" && t == body;
      NormEmpty();
      EmptyFrame();
      assert Batch(Norm(body)) + [] == Batch(Norm(body));
    }
  }

  lemma {:induction false} NormEmpty()
    ensures Norm("") == ""
  {
  }

  /** Cutting the body into tokens first loses no frame of the batch splitter, for any body. */
  lemma {:induction false} BatchIsTokenwise(body: string)
    ensures SplitFrames(body) == BatchEach(Tokens(body))
    decreases |body|
  {
    hide SplitFrames, SplitToken;
    if body == "" {
      SplitFramesIsBatch("");
      NormEmpty();
      EmptyFrame();
    } else {
      var (advance, token) := SplitToken(body, true);
      TokenBreaks(body);
      BatchIsTokenwise(body[advance..]);
      assert Tokens(body)[1..] == Tokens(body[advance..]);
    }
  }

  // ---- Which tokens hold more than one frame ----

  predicate IsLineEnd(c: char) { c == '\n' || c == '\r' }

  /**
   * A token with text and, between the line ends around that text, an LF or CR followed by a CR:
   * the blank line this makes is not one of the stream's delimiters.
   */
  predicate HidesBreak(token: string) {
    var text := Trim(IsLineEnd, token);
    !Blank(text) && (Contains(text, "\n\r") || Contains(text, "\r\r"))
  }

  /** The same after normalising: a blank line inside the text. */
  predicate NormalisedBreak(token: string) {
    var text := Trim(IsNewline, NormalizeLineEndings(token));
    TrimSpace(text) != "" && Contains(text, "\n\n")
  }

  lemma {:induction false} FrameOfBlank(s: string)
    ensures FrameOf(s) == [] <==> Blank(s)
  {
    hide Trim;
    var t := Trim(IsNewline, s);
    TrimBlank(t);
    TrimWithin(IsNewline, s);
    if Blank(s) {
      var a :| 0 <= a <= |s| && OccursAt(s, t, a);
      forall i | 0 <= i < |t| ensures IsSpace(t[i]) { assert s[a..a + |t|][i] == s[a + i]; }
    } else {
      var i :| 0 <= i < |s| && !IsSpace(s[i]);
      assert s[i] in t;
    }
  }

  lemma {:induction false} BlankBreak(s: string, i: nat)
    requires OccursAt(s, "\n\n", i)
    ensures Blank(s) <==> Blank(s[..i]) && Blank(s[i + 2..])
  {
    BreakAt(s, i);
    var a, b := s[..i], s[i + 2..];
    if Blank(a) && Blank(b) {
      forall k | 0 <= k < |s| ensures IsSpace(s[k]) {
        if k < i { assert s[k] == a[k]; } else if k >= i + 2 { assert s[k] == b[k - i - 2]; }
      }
    }
  }

  lemma {:induction false} BatchBlank(s: string)
    ensures Batch(s) == [] <==> Blank(s)
    decreases |s|
  {
    hide Batch, FrameOf, Blank;
    BatchNext(s);
    var i := Index(s, "\n\n");
    if i.None? {
      FrameOfBlank(s);
    } else {
      FrameOfBlank(s[..i.value]);
      BatchBlank(s[i.value + 2..]);
      BlankBreak(s, i.value);
    }
  }

  lemma {:induction false} BatchTrim(s: string)
    ensures Batch(s) == Batch(Trim(IsNewline, s))
    decreases |s|
  {
    hide Batch, Trim;
    if s != "" && s[0] == '\n' {
      assert s == "\n" + s[1..];
      BatchLeading(s[1..]);
      TrimLeadingNewline(s[1..]);
      BatchTrim(s[1..]);
    } else if s != "" && s[|s| - 1] == '\n' {
      var t := s[..|s| - 1];
      assert s == t + "\n";
      BatchTrailing(t);
      TrimTrailingNewline(t);
      BatchTrim(t);
    } else {
      TrimStable(IsNewline, s);
    }
  }

  lemma {:induction false} TrimHoldsNoBreak(part: string)
    requires !Contains(part, "\n\n")
    ensures forall f :: f in FrameOf(part) ==> !Contains(f, "\n\n")
  {
    hide Trim, Contains;
    TrimWithin(IsNewline, part);
    if Contains(Trim(IsNewline, part), "\n\n") { ContainsTrans(part, Trim(IsNewline, part), "\n\n"); }
  }

  lemma {:induction false} PrefixHoldsNoBreak(s: string, i: nat)
    requires i <= |s| && forall k :: 0 <= k < i ==> !OccursAt(s, "\n\n", k)
    ensures !Contains(s[..i], "\n\n")
  {
    forall k | 0 <= k <= i ensures !OccursAt(s[..i], "\n\n", k) {
      BreakAt(s, k);
      BreakAt(s[..i], k);
    }
  }

  lemma {:induction false} FramesHoldNoBreak(s: string)
    ensures forall f :: f in Batch(s) ==> !Contains(f, "\n\n")
    decreases |s|
  {
    hide Batch, FrameOf, IndexFrom;
    BatchNext(s);
    var i := Index(s, "\n\n");
    if i.None? {
      TrimHoldsNoBreak(s);
    } else {
      PrefixHoldsNoBreak(s, i.value);
      TrimHoldsNoBreak(s[..i.value]);
      FramesHoldNoBreak(s[i.value + 2..]);
    }
  }

  lemma {:induction false} OneFrame(text: string)
    requires !Contains(text, "\n\n")
    ensures Batch(text) == FrameOf(text)
  {
    BatchNext(text);
  }

  lemma {:induction false} FrameOfTrimmed(s: string)
    ensures FrameOf(Trim(IsNewline, s)) == FrameOf(s)
  {
    TrimEnds(IsNewline, s);
    TrimStable(IsNewline, Trim(IsNewline, s));
  }

  /**
   * The batch splitter finds in a token what the stream makes of it exactly when its normalised text has no blank
   * line.
   */
  lemma {:induction false} TokenAgreesIff(token: string)
    ensures FrameOf(NormalizeLineEndings(token)) == SplitFrames(token) <==> !NormalisedBreak(token)
    ensures |FrameOf(NormalizeLineEndings(token))| <= |SplitFrames(token)|
  {
    hide Batch, Trim, TrimSpace, Contains, Norm, NormalizeLineEndings, SplitFrames;
    var x := NormalizeLineEndings(token);
    var text := Trim(IsNewline, x);
    SplitFramesIsBatch(token);
    NormalizeIsNorm(token);
    BatchTrim(x);
    FrameOfBlank(x);
    BatchBlank(x);
    FrameOfTrimmed(x);
    if TrimSpace(text) != "" {
      if Contains(text, "\n\n") {
        FramesHoldNoBreak(x);
        assert text in [text];
      } else {
        OneFrame(text);
      }
    }
  }

  lemma {:induction false} ConcatEqual(a: seq<string>, a': seq<string>, b: seq<string>, b': seq<string>)
    requires |a| <= |b| && |a'| <= |b'|
    ensures a + a' == b + b' <==> a == b && a' == b'
  {
    if a + a' == b + b' {
      assert |a| == |b|;
      assert a == (a + a')[..|a|] && b == (b + b')[..|b|] && a' == (a + a')[|a|..] && b' == (b + b')[|b|..];
    }
  }

  lemma {:induction false} TokensAgreeIff(tokens: seq<string>)
    ensures StreamFrames(tokens) == BatchEach(tokens) <==> forall i :: 0 <= i < |tokens| ==> !NormalisedBreak(tokens[i])
    ensures |StreamFrames(tokens)| <= |BatchEach(tokens)|
    decreases tokens
  {
    hide NormalisedBreak, FrameOf, SplitFrames, NormalizeLineEndings;
    if tokens != [] {
      var first, rest := tokens[0], tokens[1..];
      TokenAgreesIff(first);
      TokensAgreeIff(rest);
      ConcatEqual(FrameOf(NormalizeLineEndings(first)), StreamFrames(rest), SplitFrames(first), BatchEach(rest));
      assert tokens == [first] + rest;
    }
  }

  // ---- The same condition on the raw token ----

  /** Two line ends in a row that are not one CRLF. */
  predicate EndsTwice(s: string, i: nat) {
    i + 1 < |s| && IsLineEnd(s[i]) && IsLineEnd(s[i + 1]) && !(s[i] == '\r' && s[i + 1] == '\n')
  }

  ghost predicate HasBreak(s: string) { exists i: nat :: EndsTwice(s, i) }

  lemma {:induction false} HasBreakNext(s: string)
    requires s != ""
    ensures var tail := s[Width(s)..];
            HasBreak(s) <==> (Head(s) == '\n' && tail != "" && IsLineEnd(tail[0])) || HasBreak(tail)
  {
    var n := Width(s);
    var tail := s[n..];
    if HasBreak(s) {
      var i: nat :| EndsTwice(s, i);
      if i >= n { assert EndsTwice(tail, i - n); }
    }
    if HasBreak(tail) {
      var i: nat :| EndsTwice(tail, i);
      assert EndsTwice(s, i + n);
    }
    if Head(s) == '\n' && tail != "" && IsLineEnd(tail[0]) { assert EndsTwice(s, n - 1); }
  }

  lemma {:induction false} ContainsPair(s: string, a: char, b: char)
    ensures Contains(s, [a, b]) <==> exists i: nat :: i + 1 < |s| && s[i] == a && s[i + 1] == b
  {
    if Contains(s, [a, b]) {
      var i :| 0 <= i <= |s| && OccursAt(s, [a, b], i);
      assert s[i..i + 2][0] == s[i] && s[i..i + 2][1] == s[i + 1];
    }
    if i: nat :| i + 1 < |s| && s[i] == a && s[i + 1] == b {
      assert s[i..i + 2] == [a, b];
      assert OccursAt(s, [a, b], i);
    }
  }

  lemma {:induction false} HasBreakIsPair(s: string)
    ensures HasBreak(s) <==> Contains(s, "\n\n") || Contains(s, "\n\r") || Contains(s, "\r\r")
  {
    hide Contains;
    ContainsPair(s, '\n', '\n');
    ContainsPair(s, '\n', '\r');
    ContainsPair(s, '\r', '\r');
    if HasBreak(s) {
      var i: nat :| EndsTwice(s, i);
    }
    if i: nat :| i + 1 < |s| && s[i] == '\n' && s[i + 1] == '\n' { assert EndsTwice(s, i); }
    if i: nat :| i + 1 < |s| && s[i] == '\n' && s[i + 1] == '\r' { assert EndsTwice(s, i); }
    if i: nat :| i + 1 < |s| && s[i] == '\r' && s[i + 1] == '\r' { assert EndsTwice(s, i); }
  }

  lemma {:induction false} BreakCons(c: char, w: string)
    ensures Contains([c] + w, "\n\n") <==> (c == '\n' && w != "" && w[0] == '\n') || Contains(w, "\n\n")
  {
    hide Contains;
    var s := [c] + w;
    ContainsPair(s, '\n', '\n');
    ContainsPair(w, '\n', '\n');
    if i: nat :| i + 1 < |s| && s[i] == '\n' && s[i + 1] == '\n' {
      if i > 0 { assert w[i - 1] == '\n' && w[i - 1 + 1] == '\n'; }
    }
    if i: nat :| i + 1 < |w| && w[i] == '\n' && w[i + 1] == '\n' { assert s[i + 1] == '\n' && s[i + 1 + 1] == '\n'; }
    if c == '\n' && w != "" && w[0] == '\n' { assert s[0] == '\n' && s[0 + 1] == '\n'; }
  }

  /** Normalising makes a blank line exactly of two line ends in a row. */
  lemma {:induction false} NormHasBreak(s: string)
    ensures Contains(Norm(s), "\n\n") <==> HasBreak(s)
    decreases |s|
  {
    hide Contains, HasBreak;
    if s == "" {
      assert Norm(s) == "";
      EmptyHasNoBreak();
    } else {
      var tail := s[Width(s)..];
      NormHasBreak(tail);
      HasBreakNext(s);
      BreakCons(Head(s), Norm(tail));
    }
  }

  lemma {:induction false} EmptyHasNoBreak()
    ensures !Contains("", "\n\n") && !HasBreak("")
  {
  }

  lemma {:induction false} NormLineEnds(s: string)
    requires All(IsLineEnd, s)
    ensures All(IsNewline, Norm(s))
    decreases |s|
  {
    if s != "" { NormLineEnds(s[Width(s)..]); }
  }

  lemma {:induction false} BlankSplit(s: string, n: nat)
    requires n <= |s|
    ensures Blank(s) <==> Blank(s[..n]) && Blank(s[n..])
  {
    if Blank(s[..n]) && Blank(s[n..]) {
      forall i | 0 <= i < |s| ensures IsSpace(s[i]) { assert s[i] == if i < n then s[..n][i] else s[n..][i - n]; }
    }
  }

  lemma {:induction false} NormBlank(s: string)
    ensures Blank(Norm(s)) <==> Blank(s)
    decreases |s|
  {
    if s != "" {
      var n, w := Width(s), Norm(s);
      NormBlank(s[n..]);
      BlankSplit(s, n);
      BlankSplit(w, 1);
      assert w[1..] == Norm(s[n..]) && w[..1] == [Head(s)];
      assert w[..1][0] == Head(s) && s[..n][0] == s[0] && (n == 2 ==> s[..n][1] == '\n');
    }
  }

  lemma {:induction false} NormEdges(u: string)
    requires u != "" && !IsLineEnd(u[0]) && !IsLineEnd(u[|u| - 1])
    ensures var w := Norm(u); w != "" && !IsNewline(w[0]) && !IsNewline(w[|w| - 1])
  {
    var front, last := u[..|u| - 1], [u[|u| - 1]];
    assert u == front + last;
    NormConcat(front, last);
    assert last[1..] == "" && Norm(last) == last;
  }

  /** Trimming after normalising is normalising after trimming. */
  lemma {:induction false} TrimOfNorm(t: string)
    ensures Trim(IsNewline, Norm(t)) == Norm(Trim(IsLineEnd, t))
  {
    hide Norm, Trim;
    var u := Trim(IsLineEnd, t);
    var pre, post := TrimSplits(IsLineEnd, t);
    TrimEnds(IsLineEnd, t);
    NormEmpty();
    if u == "" {
      assert All(IsLineEnd, t);
      NormLineEnds(t);
      TrimAll(IsNewline, Norm(t));
    } else {
      NormLineEnds(pre);
      NormLineEnds(post);
      NormEdges(u);
      NormConcat(pre, u);
      NormConcat(pre + u, post);
      TrimBetween(IsNewline, Norm(pre), Norm(u), Norm(post));
    }
  }

  /** A token of the stream has a blank line in its normalised text exactly when it hides one. */
  lemma {:induction false} BreakIsHidden(token: string)
    requires !Contains(token, "\n\n")
    ensures NormalisedBreak(token) <==> HidesBreak(token)
  {
    hide Contains, Trim, TrimSpace, Norm, NormalizeLineEndings, Blank, HasBreak;
    var text := Trim(IsLineEnd, token);
    NormalizeIsNorm(token);
    TrimOfNorm(token);
    TrimBlank(Norm(text));
    NormBlank(text);
    NormHasBreak(text);
    HasBreakIsPair(text);
    TrimWithin(IsLineEnd, token);
    if Contains(text, "\n\n") { ContainsTrans(token, text, "\n\n"); }
  }

  lemma {:induction false} TokenLacksBreak(body: string)
    requires body != ""
    ensures !Contains(SplitToken(body, true).1.value, "\n\n")
  {
    hide IndexFrom, Contains;
    var token := SplitToken(body, true).1.value;
    PrefixHoldsNoBreak(body, |token|);
    assert token == body[..|token|];
  }

  lemma {:induction false} TokensLackBreaks(body: string)
    ensures forall i :: 0 <= i < |Tokens(body)| ==> !Contains(Tokens(body)[i], "\n\n")
    decreases |body|
  {
    hide SplitToken, Contains;
    if body != "" {
      TokenLacksBreak(body);
      TokensLackBreaks(body[SplitToken(body, true).0..]);
    }
  }

  /** For every body: stream and batch find the same frames exactly when no token hides a blank line. */
  lemma {:induction false} StreamMatchesBatchIff(body: string)
    ensures StreamFrames(Tokens(body)) == SplitFrames(body)
       <==> forall i :: 0 <= i < |Tokens(body)| ==> !HidesBreak(Tokens(body)[i])
  {
    hide StreamFrames, BatchEach, SplitFrames, HidesBreak, NormalisedBreak, Tokens;
    BatchIsTokenwise(body);
    var tokens := Tokens(body);
    TokensAgreeIff(tokens);
    TokensLackBreaks(body);
    forall i | 0 <= i < |tokens| ensures NormalisedBreak(tokens[i]) <==> HidesBreak(tokens[i]) {
      BreakIsHidden(tokens[i]);
    }
  }

  lemma {:induction false} PlainToken(token: string)
    requires NoReturn(token)
    ensures !HidesBreak(token)
  {
    hide Contains, Trim;
    var text := Trim(IsLineEnd, token);
    var pre, post := TrimSplits(IsLineEnd, token);
    forall i | 0 <= i < |text| ensures text[i] != '\r' { assert text[i] == token[|pre| + i]; }
    ContainsPair(text, '\n', '\r');
    ContainsPair(text, '\r', '\r');
  }

  lemma {:induction false} PlainTokens(body: string)
    requires NoReturn(body)
    ensures forall i :: 0 <= i < |Tokens(body)| ==> !HidesBreak(Tokens(body)[i])
    decreases |body|
  {
    hide HidesBreak, IndexFrom;
    if body != "" {
      var (advance, token) := SplitToken(body, true);
      assert token.value == body[..|token.value|];
      PlainToken(token.value);
      PlainTokens(body[advance..]);
      assert Tokens(body) == [token.value] + Tokens(body[advance..]);
    }
  }

  /** On bodies without carriage returns the stream's frames are those of the batch splitter. */
  lemma {:induction false} StreamMatchesBatch(body: string)
    requires NoReturn(body)
    ensures StreamFrames(Tokens(body)) == SplitFrames(body)
  {
    hide StreamFrames, SplitFrames, HidesBreak, Tokens;
    StreamMatchesBatchIff(body);
    PlainTokens(body);
  }

  /** A body without delimiters is one token; if it hides a blank line, stream and batch differ on it. */
  lemma {:induction false} OneTokenDisagrees(body: string, i: nat)
    requires body != "" && Index(body, "\n\n").None? && Index(body, "\r\n\r\n").None?
    requires i + 1 < |body| && body[i + 1] == '\r' && IsLineEnd(body[i])
    requires !IsSpace(body[0]) && !IsSpace(body[|body| - 1])
    ensures StreamFrames(Tokens(body)) != SplitFrames(body)
  {
    assert Tokens(body) == [body] by { assert body[|body|..] == ""; }
    hide StreamFrames, SplitFrames, Tokens, Trim, IndexFrom, Contains;
    TrimStable(IsLineEnd, body);
    ContainsPair(body, body[i], '\r');
    assert HidesBreak(body);
    StreamMatchesBatchIff(body);
  }

  /** Two bare carriage returns, and an LF before a CRLF, end a frame for the batch splitter but not for the stream. */
  lemma {:induction false} HiddenBreaksDisagree()
    ensures StreamFrames(Tokens("a\r\rb")) != SplitFrames("a\r\rb")
    ensures StreamFrames(Tokens("a\n\r\nb")) != SplitFrames("a\n\r\nb")
  {
    hide StreamFrames, SplitFrames, Tokens, IndexFrom;
    var bare, mixed := "a\r\rb", "a\n\r\nb";
    forall i: nat ensures !OccursAt(bare, "\n\n", i) && !OccursAt(mixed, "\n\n", i) {
      BreakAt(bare, i);
      BreakAt(mixed, i);
    }
    assert bare[0..4][0] == 'a' && mixed[0..4][0] == 'a' && mixed[1..5][0] == '\n';
    assert !OccursAt(bare, "\r\n\r\n", 0) && !OccursAt(mixed, "\r\n\r\n", 0) && !OccursAt(mixed, "\r\n\r\n", 1);
    OneTokenDisagrees(bare, 1);
    OneTokenDisagrees(mixed, 1);
  }
}
