/** Cutting a program's output into log pieces as it arrives: ScanLogLines in internal/fbui/logview.go. */
module LogSplit {
  import opened GoStrings

  /** A split function's answer: read more, or one token and how much input it used up. */
  datatype Cut = Wait | Cut(advance: nat, token: Bytes)

  predicate IsBreak(b: byte) { b == NL || b == CR }

  /** The index of the first newline or carriage return, or |s|. */
  function FirstBreak(s: Bytes): (i: nat)
    ensures i <= |s| && (i < |s| ==> IsBreak(s[i]))
    ensures NL !in s[..i] && CR !in s[..i]
  {
    if s == [] || IsBreak(s[0]) then 0
    else
      var i := 1 + FirstBreak(s[1..]);
      assert s[..i] == [s[0]] + s[1..][..i - 1];
      i
  }

  lemma {:induction false} FirstBreakIs(s: Bytes, i: nat)
    requires i <= |s| && NL !in s[..i] && CR !in s[..i] && (i < |s| ==> IsBreak(s[i]))
    ensures FirstBreak(s) == i
  {
    if i > 0 {
      assert s[..i][0] == s[0];
      assert s[1..][..i - 1] == s[..i][1..];
      FirstBreakIs(s[1..], i - 1);
    }
  }

  /** The cut made at index i of the data. */
  function CutAt(data: Bytes, i: nat, atEof: bool): Cut
    requires i < |data|
  {
    if data[i] == NL then Cut(i + 1, data[..i])
    else if i + 1 == |data| && !atEof then Wait
    else if i + 1 < |data| && data[i + 1] == NL then Cut(i + 2, data[..i])
    else Cut(i + 1, data[..i + 1])
  }

  function ScanLog(data: Bytes, atEof: bool): (c: Cut)
    ensures c.Cut? ==> 0 < c.advance <= |data|
  {
    var i := FirstBreak(data);
    if i < |data| then CutAt(data, i, atEof)
    else if atEof && data != [] then Cut(|data|, data)
    else Wait
  }

  method ScanLogLines(data: Bytes, atEof: bool) returns (c: Cut)
    ensures c == ScanLog(data, atEof)
  {
    if atEof && data == [] {
      return Wait;
    }
    for i := 0 to |data|
      invariant NL !in data[..i] && CR !in data[..i]
    {
      if IsBreak(data[i]) {
        FirstBreakIs(data, i);
      }
      if data[i] == NL {
        return Cut(i + 1, data[..i]);
      }
      if data[i] == CR {
        if i + 1 == |data| && !atEof {
          return Wait;
        }
        if i + 1 < |data| && data[i + 1] == NL {
          return Cut(i + 2, data[..i]);
        }
        return Cut(i + 1, data[..i + 1]);
      }
      assert data[..i + 1] == data[..i] + [data[i]];
    }
    assert data[..|data|] == data;
    FirstBreakIs(data, |data|);
    if atEof {
      return Cut(|data|, data);
    }
    return Wait;
  }

  /** Everything that can be cut now, and what is left over. */
  function Drain(data: Bytes, atEof: bool): (r: (seq<Bytes>, Bytes))
    ensures atEof ==> r.1 == []
    ensures |r.1| <= |data|
    decreases |data|
  {
    match ScanLog(data, atEof)
    case Wait => ([], data)
    case Cut(n, token) => ([token] + Drain(data[n..], atEof).0, Drain(data[n..], atEof).1)
  }

  /** The tokens of a stream that is already there in full. */
  function Tokens(stream: Bytes): seq<Bytes> { Drain(stream, true).0 }

  /** bufio.Scanner's use of the split function: it cuts after every read and once more at the end of the stream. */
  function ScanChunks(held: Bytes, chunks: seq<Bytes>): seq<Bytes>
    decreases |chunks|
  {
    if chunks == [] then Drain(held, true).0
    else
      var r := Drain(held + chunks[0], false);
      r.0 + ScanChunks(r.1, chunks[1..])
  }

  function Concat(chunks: seq<Bytes>): Bytes
    decreases |chunks|
  {
    if chunks == [] then [] else chunks[0] + Concat(chunks[1..])
  }

  /** A cut made before the end is known is the cut that any longer input gets. */
  lemma CutIsFinal(data: Bytes, more: Bytes)
    requires ScanLog(data, false).Cut?
    ensures ScanLog(data + more, true) == ScanLog(data, false)
  {
    var i := FirstBreak(data);
    assert (data + more)[..i] == data[..i];
    FirstBreakIs(data + more, i);
    assert (data + more)[..i + 1] == data[..i + 1];
  }

  lemma {:induction false} DrainIsAPrefix(data: Bytes, more: Bytes)
    ensures Tokens(data + more) == Drain(data, false).0 + Tokens(Drain(data, false).1 + more)
    decreases |data|
  {
    hide ScanLog;
    var c := ScanLog(data, false);
    if c.Cut? {
      CutIsFinal(data, more);
      assert (data + more)[c.advance..] == data[c.advance..] + more;
      DrainIsAPrefix(data[c.advance..], more);
    }
  }

  /** However the stream is cut into reads, the tokens are those of the whole stream. */
  lemma {:induction false} ChunksDoNotMatter(held: Bytes, chunks: seq<Bytes>)
    ensures ScanChunks(held, chunks) == Tokens(held + Concat(chunks))
    decreases |chunks|
  {
    hide Drain;
    if chunks == [] {
      assert held + Concat(chunks) == held;
    } else {
      var r := Drain(held + chunks[0], false);
      ChunksDoNotMatter(r.1, chunks[1..]);
      DrainIsAPrefix(held + chunks[0], Concat(chunks[1..]));
      assert held + Concat(chunks) == held + chunks[0] + Concat(chunks[1..]);
    }
  }

  // ----- nothing of the stream is lost

  /** What ended each token. */
  function Endings(stream: Bytes): (e: seq<Bytes>)
    ensures |e| == |Tokens(stream)|
    decreases |stream|
  {
    var c := ScanLog(stream, true);
    if c.Wait? then [] else [stream[MinLen(c.token, c.advance)..c.advance]] + Endings(stream[c.advance..])
  }

  function MinLen(token: Bytes, n: nat): nat { if |token| <= n then |token| else n }

  function Weave(tokens: seq<Bytes>, endings: seq<Bytes>): Bytes
    requires |tokens| == |endings|
    decreases |tokens|
  {
    if tokens == [] then [] else tokens[0] + endings[0] + Weave(tokens[1..], endings[1..])
  }

  /** A token ends at a newline or "\r\n", which it loses, or at a carriage return, which it keeps; only the last one
      can end with the stream. Inside it there is no line break. */
  predicate TokenOk(token: Bytes, ending: Bytes, last: bool) {
    && NL !in token
    && (ending == [NL] || ending == [CR, NL] ==> CR !in token)
    && (ending != [NL] && ending != [CR, NL] ==>
          && ending == [] && token != [] && CR !in token[..|token| - 1]
          && (token[|token| - 1] == CR || last))
  }

  lemma CutOk(stream: Bytes)
    requires stream != []
    ensures var c := ScanLog(stream, true);
            && c.Cut? && |c.token| <= c.advance && stream[..|c.token|] == c.token
            && TokenOk(c.token, stream[|c.token|..c.advance], c.advance == |stream|)
  {
    var i := FirstBreak(stream);
    if i < |stream| && stream[i] == CR {
      assert stream[..i + 1] == stream[..i] + [CR];
      assert stream[..i + 1][..i] == stream[..i];
    } else if i == |stream| {
      assert stream[..i] == stream;
      assert CR !in stream[..i - 1] by {
        assert forall k | 0 <= k < i - 1 :: stream[..i][k] == stream[k];
      }
    }
  }

  lemma {:induction false} TokensRebuildTheStream(stream: Bytes)
    ensures Weave(Tokens(stream), Endings(stream)) == stream
    ensures forall k | 0 <= k < |Tokens(stream)| ::
              TokenOk(Tokens(stream)[k], Endings(stream)[k], k == |Tokens(stream)| - 1)
    decreases |stream|
  {
    hide ScanLog, TokenOk;
    if stream != [] {
      CutOk(stream);
      var c := ScanLog(stream, true);
      var rest := stream[c.advance..];
      TokensRebuildTheStream(rest);
      assert Tokens(stream) == [c.token] + Tokens(rest);
      assert Tokens(stream)[1..] == Tokens(rest) && Endings(stream)[1..] == Endings(rest);
      assert stream == c.token + stream[|c.token|..c.advance] + rest;
      LastOnlyAtTheEnd(rest);
      forall k | 0 <= k < |Tokens(stream)|
        ensures TokenOk(Tokens(stream)[k], Endings(stream)[k], k == |Tokens(stream)| - 1)
      {
        if k > 0 {
          assert TokenOk(Tokens(rest)[k - 1], Endings(rest)[k - 1], k - 1 == |Tokens(rest)| - 1);
        }
      }
    }
  }

  lemma LastOnlyAtTheEnd(stream: Bytes)
    ensures Tokens(stream) == [] <==> stream == []
  {
  }
}
