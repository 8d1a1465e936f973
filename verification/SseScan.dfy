/** Splitting a live event stream: the tokens do not depend on how the bytes arrive. */
module SseScan {
  import opened Text

  /** `splitSSEFrames`: how far to advance, and the token if a frame is complete. */
  function SplitToken(data: string, atEOF: bool): (r: (nat, Option<string>))
    ensures r.0 <= |data| && (r.1.Some? ==> r.0 > 0)
    ensures r.1.None? <==> r.0 == 0
    ensures atEOF ==> (r.1.None? <==> data == "")
  {
    if atEOF && data == "" then (0, None)
    else
      var lf := Index(data, "\n\n");
      var crlf := Index(data, "\r\n\r\n");
      if lf.None? && crlf.None? then
        if atEOF then (|data|, Some(data)) else (0, None)
      else if lf.None? then (crlf.value + 4, Some(data[..crlf.value]))
      else if crlf.None? then (lf.value + 2, Some(data[..lf.value]))
      else if lf.value < crlf.value then (lf.value + 2, Some(data[..lf.value]))
      else (crlf.value + 4, Some(data[..crlf.value]))
  }

  lemma {:induction false} IndexStable(data: string, more: string, t: string)
    requires Index(data, t).Some?
    ensures Index(data + more, t) == Index(data, t)
  {
    var i := Index(data, t).value;
    forall j | 0 <= j <= i ensures OccursAt(data + more, t, j) <==> j == i {
      OccursWithin(data, more, t, j);
    }
    var r := Index(data + more, t);
    assert OccursAt(data + more, t, i);
    assert r.Some? && OccursAt(data + more, t, r.value);
  }

  /** A delimiter completed by later bytes starts too late to matter. */
  lemma {:induction false} LateIndex(data: string, more: string, t: string, j: nat)
    requires Index(data, t).None? && OccursAt(data + more, t, j)
    ensures j + |t| > |data|
  {
    if j + |t| <= |data| {
      OccursWithin(data, more, t, j);
    }
  }

  /** A token found in a prefix is the token of every extension. */
  lemma {:induction false} TokenStable(data: string, more: string, atEOF: bool)
    requires SplitToken(data, false).1.Some?
    ensures SplitToken(data + more, atEOF) == SplitToken(data, false)
  {
    var all := data + more;
    var lf, crlf := Index(data, "\n\n"), Index(data, "\r\n\r\n");
    var lf', crlf' := Index(all, "\n\n"), Index(all, "\r\n\r\n");
    if lf.Some? {
      IndexStable(data, more, "\n\n");
      assert all[..lf.value] == data[..lf.value];
    }
    if crlf.Some? {
      IndexStable(data, more, "\r\n\r\n");
      assert all[..crlf.value] == data[..crlf.value];
    }
    if lf.Some? && crlf.None? && crlf'.Some? {
      LateIndex(data, more, "\r\n\r\n", crlf'.value);
      DelimitersDisjoint(all, lf.value, crlf'.value);
    }
    if lf.None? && crlf.Some? && lf'.Some? {
      LateIndex(data, more, "\n\n", lf'.value);
    }
  }

  lemma {:induction false} DelimitersDisjoint(s: string, i: nat, j: nat)
    requires OccursAt(s, "\n\n", i) && OccursAt(s, "\r\n\r\n", j)
    ensures j != i && j + 1 != i
  {
    assert s[i..i + 2][0] == s[i] && s[i..i + 2][1] == s[i + 1];
    assert s[j..j + 4][0] == s[j] && s[j..j + 4][2] == s[j + 2];
  }

  /** The tokens of a complete body. */
  function Tokens(body: string): seq<string>
    decreases |body|
  {
    if body == "" then []
    else
      var (advance, token) := SplitToken(body, true);
      [token.value] + Tokens(body[advance..])
  }

  /**
   * Reading with any schedule of read sizes, the scanner hands out the tokens of the whole body, whether the reader
   * reports the end of input with the last bytes or in a read of its own.
   */
  method Scan(body: string, schedule: seq<nat>, endWithLast: bool) returns (tokens: seq<string>)
    ensures tokens == Tokens(body)
  {
    hide SplitToken;
    tokens := [];
    var buffer, unread, step, eof := "", body, 0, false;
    assert buffer + unread == body && tokens + Tokens(body) == Tokens(body);
    while !eof || buffer != ""
      invariant step <= |schedule| && (eof ==> unread == "")
      invariant tokens + Tokens(buffer + unread) == Tokens(body)
      decreases |buffer| + |unread|, |unread|, |schedule| - step, if eof then 0 else 1
    {
      var (advance, token) := SplitToken(buffer, eof);
      if token.Some? {
        NextToken(buffer, unread, eof);
        assert tokens + ([token.value] + Tokens(buffer[advance..] + unread))
            == (tokens + [token.value]) + Tokens(buffer[advance..] + unread);
        tokens := tokens + [token.value];
        buffer := buffer[advance..];
      } else if unread == "" {
        eof := true;
      } else {
        var n := |unread|;
        if step < |schedule| {
          n := if schedule[step] <= |unread| then schedule[step] else |unread|;
          step := step + 1;
        }
        assert (buffer + unread[..n]) + unread[n..] == buffer + unread;
        buffer, unread := buffer + unread[..n], unread[n..];
        if unread == "" && endWithLast { eof := true; }
      }
    }
    assert buffer + unread == "";
  }

  lemma {:induction false} NextToken(buffer: string, unread: string, eof: bool)
    requires eof ==> unread == ""
    requires SplitToken(buffer, eof).1.Some?
    ensures var (advance, token) := SplitToken(buffer, eof);
            Tokens(buffer + unread) == [token.value] + Tokens(buffer[advance..] + unread)
  {
    var all := buffer + unread;
    var (advance, token) := SplitToken(buffer, eof);
    if eof {
      assert all == buffer && buffer[advance..] + unread == buffer[advance..];
    } else {
      TokenStable(buffer, unread, true);
      assert all[advance..] == buffer[advance..] + unread;
    }
  }
}
