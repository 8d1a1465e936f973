/** The string operations of Go's `strings` package that the modelled code relies on. */
module Text {

  datatype Option<+T> = None | Some(value: T) {
    predicate IsFailure() { None? }
    function PropagateFailure<U>(): Option<U> requires None? { None }
    function Extract(): T requires Some? { value }
  }

  /** Maps every character; `strings.ToLower` maps a string rune by rune. */
  function MapChars(f: char -> char, s: string): (r: string)
    ensures |r| == |s|
  {
    seq(|s|, i requires 0 <= i < |s| => f(s[i]))
  }

  lemma {:induction false} MapCharsConcat(f: char -> char, s: string, t: string)
    ensures MapChars(f, s + t) == MapChars(f, s) + MapChars(f, t)
  {
  }

  function LowerAscii(c: char): char {
    if 'A' <= c <= 'Z' then (c as int + 32) as char else c
  }

  /** `unicode.IsSpace`. */
  predicate IsSpace(c: char) {
    || '\t' <= c <= '\r' || c == ' ' || c == '\U{85}' || c == '\U{a0}' || c == '\U{1680}'
    || c == '\U{2028}' || c == '\U{2029}' || c == '\U{202f}' || c == '\U{205f}' || c == '\U{3000}'
    || '\U{2000}' <= c <= '\U{200a}'
  }

  /** The first index from `i` on whose character is not cut. */
  function FirstKept(cut: char -> bool, s: string, i: nat): (r: nat)
    requires i <= |s|
    ensures i <= r <= |s| && (r < |s| ==> !cut(s[r]))
    ensures forall j :: i <= j < r ==> cut(s[j])
    decreases |s| - i
  {
    if i < |s| && cut(s[i]) then FirstKept(cut, s, i + 1) else i
  }

  /** The length of the longest prefix of `s[..n]` that does not end in a cut character. */
  function LastKept(cut: char -> bool, s: string, n: nat): (r: nat)
    requires n <= |s|
    ensures r <= n && (r > 0 ==> !cut(s[r - 1]))
    ensures forall j :: r <= j < n ==> cut(s[j])
  {
    if n > 0 && cut(s[n - 1]) then LastKept(cut, s, n - 1) else n
  }

  function TrimLeft(cut: char -> bool, s: string): string {
    s[FirstKept(cut, s, 0)..]
  }

  function TrimRight(cut: char -> bool, s: string): string {
    s[..LastKept(cut, s, |s|)]
  }

  function Trim(cut: char -> bool, s: string): string {
    TrimRight(cut, TrimLeft(cut, s))
  }

  function TrimSpace(s: string): string {
    Trim(IsSpace, s)
  }

  /** `t` occurs in `s` at offset `i`. */
  predicate OccursAt(s: string, t: string, i: int) {
    0 <= i <= |s| - |t| && s[i..i + |t|] == t
  }

  predicate Contains(s: string, t: string) {
    exists i :: 0 <= i <= |s| && OccursAt(s, t, i)
  }

  predicate HasPrefix(s: string, t: string) {
    |t| <= |s| && s[..|t|] == t
  }

  lemma {:induction false} ContainsTrans(s: string, t: string, u: string)
    requires Contains(s, t) && Contains(t, u)
    ensures Contains(s, u)
  {
    var i :| 0 <= i <= |s| && OccursAt(s, t, i);
    var j :| 0 <= j <= |t| && OccursAt(t, u, j);
    forall k | 0 <= k < |u|
      ensures s[i + j + k] == u[k]
    {
      assert t[j + k] == s[i..i + |t|][j + k] && u[k] == t[j..j + |u|][k];
    }
    assert OccursAt(s, u, i + j);
  }

  /** `strings.Index`: the least offset at which `t` occurs, if any. */
  function Index(s: string, t: string): (r: Option<nat>)
    ensures r.Some? ==> OccursAt(s, t, r.value)
    ensures forall i :: 0 <= i < (if r.Some? then r.value else |s| + 1) ==> !OccursAt(s, t, i)
  {
    IndexFrom(s, t, 0)
  }

  function IndexFrom(s: string, t: string, i: nat): (r: Option<nat>)
    requires i <= |s| + 1
    ensures r.Some? ==> r.value >= i && OccursAt(s, t, r.value)
    ensures forall j :: i <= j < (if r.Some? then r.value else |s| + 1) ==> !OccursAt(s, t, j)
    decreases |s| + 1 - i
  {
    if i > |s| then None
    else if OccursAt(s, t, i) then Some(i)
    else IndexFrom(s, t, i + 1)
  }

  /** `strings.Split` for a non-empty separator. */
  function Split(s: string, sep: string): (r: seq<string>)
    requires sep != ""
    ensures r != []
    decreases |s|
  {
    var i := Index(s, sep);
    if i.None? then [s] else [s[..i.value]] + Split(s[i.value + |sep|..], sep)
  }

  function Join(parts: seq<string>, sep: string): string {
    if parts == [] then "" else if |parts| == 1 then parts[0] else parts[0] + sep + Join(parts[1..], sep)
  }

  function ReplaceAll(s: string, from: string, to: string): string
    requires from != ""
  {
    Join(Split(s, from), to)
  }

  lemma {:induction false} JoinSplit(s: string, sep: string)
    requires sep != ""
    ensures Join(Split(s, sep), sep) == s
    decreases |s|
  {
    var i := Index(s, sep);
    if i.Some? {
      JoinSplit(s[i.value + |sep|..], sep);
      assert s == s[..i.value] + sep + s[i.value + |sep|..];
    }
  }

  /** `sep` first occurs in `part` followed by `sep` at the very end of `part`. */
  predicate Clean(part: string, sep: string) {
    forall i :: 0 <= i < |part| ==> !OccursAt(part + sep, sep, i)
  }

  lemma {:induction false} SplitJoin(parts: seq<string>, sep: string)
    requires sep != "" && parts != [] && forall p :: p in parts ==> Clean(p, sep)
    ensures Split(Join(parts, sep), sep) == parts
  {
    var p, s := parts[0], Join(parts, sep);
    assert p in parts && Clean(p, sep);
    if |parts| == 1 {
      forall i | 0 <= i <= |s| ensures !OccursAt(s, sep, i) {
        if i + |sep| <= |s| { OccursWithin(p, sep, sep, i); }
      }
    } else {
      var rest := Join(parts[1..], sep);
      assert s == (p + sep) + rest;
      forall i | 0 <= i <= |p| ensures OccursAt(s, sep, i) <==> OccursAt(p + sep, sep, i) {
        OccursWithin(p + sep, rest, sep, i);
      }
      assert OccursAt(p + sep, sep, |p|);
      assert Index(s, sep) == Some(|p|);
      assert s[..|p|] == p && s[|p| + |sep|..] == rest;
      SplitJoin(parts[1..], sep);
    }
  }

  /** Whether `sep` occurs at `i` is decided by the text up to its end. */
  lemma {:induction false} OccursWithin(s: string, t: string, sep: string, i: nat)
    requires i + |sep| <= |s|
    ensures OccursAt(s + t, sep, i) <==> OccursAt(s, sep, i)
  {
    assert (s + t)[i..i + |sep|] == s[i..i + |sep|];
  }

  /** Text without the separator is one part, and replacing an absent text changes nothing. */
  lemma {:induction false} SplitAbsent(s: string, sep: string)
    requires sep != "" && forall i :: 0 <= i <= |s| ==> !OccursAt(s, sep, i)
    ensures Split(s, sep) == [s]
    ensures forall to :: ReplaceAll(s, sep, to) == s
  {
  }

  lemma {:induction false} TrimStable(cut: char -> bool, s: string)
    requires s == "" || (!cut(s[0]) && !cut(s[|s| - 1]))
    ensures Trim(cut, s) == s
  {
    assert TrimLeft(cut, s) == s;
  }

  /** What is left after trimming starts and ends with characters that are kept. */
  lemma {:induction false} TrimEnds(cut: char -> bool, s: string)
    ensures var t := Trim(cut, s); t == "" || (!cut(t[0]) && !cut(t[|t| - 1]))
  {
  }

  lemma {:induction false} TrimKeeps(cut: char -> bool, s: string, i: nat)
    requires i < |s| && !cut(s[i])
    ensures Trim(cut, s) != ""
  {
    var t := TrimLeft(cut, s);
    assert t[i - (|s| - |t|)] == s[i];
  }

  predicate Blank(s: string) { forall i :: 0 <= i < |s| ==> IsSpace(s[i]) }

  lemma {:induction false} TrimBlank(s: string)
    ensures TrimSpace(s) == "" <==> Blank(s)
  {
    if !Blank(s) {
      var i :| 0 <= i < |s| && !IsSpace(s[i]);
      TrimKeeps(IsSpace, s, i);
    }
  }

  /** Trimming cuts off both ends and keeps the middle. */
  lemma {:induction false} TrimWithin(cut: char -> bool, s: string)
    ensures Contains(s, Trim(cut, s))
    ensures forall i :: 0 <= i < |s| && !cut(s[i]) ==> s[i] in Trim(cut, s)
  {
    var a, u := FirstKept(cut, s, 0), TrimLeft(cut, s);
    var t := Trim(cut, s);
    assert s[a..a + |t|] == t;
    assert OccursAt(s, t, a);
    forall i | 0 <= i < |s| && !cut(s[i]) ensures s[i] in t {
      assert u[i - a] == s[i] && t[i - a] == u[i - a];
    }
  }

  predicate All(p: char -> bool, s: string) { forall i :: 0 <= i < |s| ==> p(s[i]) }

  /** Trimming cuts off what surrounds a text that starts and ends with kept characters. */
  lemma {:induction false} TrimBetween(cut: char -> bool, pre: string, text: string, post: string)
    requires All(cut, pre) && All(cut, post) && text != "" && !cut(text[0]) && !cut(text[|text| - 1])
    ensures Trim(cut, pre + text + post) == text
  {
    var s := pre + text + post;
    assert s[|pre|] == text[0];
    assert forall j :: 0 <= j < |pre| ==> s[j] == pre[j];
    assert FirstKept(cut, s, 0) == |pre|;
    var left := TrimLeft(cut, s);
    assert left == text + post;
    assert left[|text| - 1] == text[|text| - 1];
    assert forall j :: |text| <= j < |left| ==> left[j] == post[j - |text|];
    assert LastKept(cut, left, |left|) == |text|;
  }

  lemma {:induction false} TrimAll(cut: char -> bool, s: string)
    requires All(cut, s)
    ensures Trim(cut, s) == ""
  {
    assert FirstKept(cut, s, 0) == |s|;
  }

  /** A text is what trimming leaves of it, between characters that are cut. */
  lemma {:induction false} TrimSplits(cut: char -> bool, s: string) returns (pre: string, post: string)
    ensures s == pre + Trim(cut, s) + post && All(cut, pre) && All(cut, post)
  {
    var u := TrimLeft(cut, s);
    var n := LastKept(cut, u, |u|);
    pre, post := s[..FirstKept(cut, s, 0)], u[n..];
    assert s == pre + u && u == u[..n] + post;
  }
}
