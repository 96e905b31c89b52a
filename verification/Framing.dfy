/** NUL-delimited messages over a buffered reader, with a hard size limit. */
module Framing {
  import opened Bytes
  import opened Wrappers

  const NUL: byte := 0

  /** Longest payload a reader takes. */
  const MAX_MESSAGE_SIZE := 8 * 1024 * 1024

  datatype FrameError = TooLarge | ClosedBeforeNul

  predicate NulFree(s: seq<byte>) {
    forall i :: 0 <= i < |s| ==> s[i] != NUL
  }

  /** Index of the first NUL, or the length when there is none. */
  function FirstNul(s: seq<byte>): (n: nat)
    ensures n <= |s|
    ensures NulFree(s[..n])
    ensures n < |s| ==> s[n] == NUL
  {
    if s == [] || s[0] == NUL then 0
    else
      var n := FirstNul(s[1..]);
      assert s[..n + 1] == [s[0]] + s[1..][..n];
      n + 1
  }

  lemma FirstNulIsFirst(s: seq<byte>)
    ensures forall i :: 0 <= i < FirstNul(s) ==> s[i] != NUL
  {
    forall i | 0 <= i < FirstNul(s)
      ensures s[i] != NUL
    {
      assert s[..FirstNul(s)][i] == s[i];
    }
  }

  lemma {:induction false} FirstNulIsUnique(s: seq<byte>, n: nat)
    requires n <= |s| && NulFree(s[..n]) && (n < |s| ==> s[n] == NUL)
    ensures FirstNul(s) == n
  {
    if n > 0 {
      assert s[..n] == [s[0]] + s[1..][..n - 1];
      FirstNulIsUnique(s[1..], n - 1);
    }
  }

  // ---------------------------------------------------------------------------
  // What one read does to the bytes still to come
  // ---------------------------------------------------------------------------

  function ReadResult(s: seq<byte>): Result<seq<byte>, FrameError> {
    var n := FirstNul(s);
    if n < |s| && n <= MAX_MESSAGE_SIZE then Ok(s[..n])
    else if |s| > MAX_MESSAGE_SIZE then Err(TooLarge)
    else Err(ClosedBeforeNul)
  }

  function Consumed(s: seq<byte>): (n: nat)
    ensures n <= |s|
  {
    if ReadResult(s).Ok? then FirstNul(s) + 1
    else if |s| > MAX_MESSAGE_SIZE then MAX_MESSAGE_SIZE + 1
    else |s|
  }

  // ---------------------------------------------------------------------------
  // The reader
  // ---------------------------------------------------------------------------

  function Flatten(chunks: seq<seq<byte>>): seq<byte> {
    if chunks == [] then [] else chunks[0] + Flatten(chunks[1..])
  }

  /** A buffered reader over a stream whose bytes arrive in arbitrary non-empty chunks. */
  class BufReader {
    var chunks: seq<seq<byte>>
    var buffer: seq<byte>

    constructor (chunks: seq<seq<byte>>)
      requires forall i :: 0 <= i < |chunks| ==> chunks[i] != []
      ensures Valid() && Remaining() == Flatten(chunks)
    {
      this.chunks := chunks;
      buffer := [];
    }

    ghost predicate Valid()
      reads this
    {
      forall i :: 0 <= i < |chunks| ==> chunks[i] != []
    }

    /** Every byte not consumed yet. */
    ghost function Remaining(): seq<byte>
      reads this
    {
      buffer + Flatten(chunks)
    }

    /** Makes buffered bytes available; none means the stream has ended. */
    method FillBuf()
      requires Valid()
      modifies this
      ensures Valid() && Remaining() == old(Remaining())
      ensures buffer == [] ==> Remaining() == []
    {
      if buffer == [] && chunks != [] {
        buffer := chunks[0];
        chunks := chunks[1..];
      }
    }

    method Consume(n: nat)
      requires Valid() && n <= |buffer|
      modifies this
      ensures Valid() && Remaining() == old(Remaining())[n..]
    {
      buffer := buffer[n..];
    }
  }

  /** The last byte is the only NUL. */
  predicate EndsWithNul(part: seq<byte>) {
    part != [] && NulFree(part[..|part| - 1]) && part[|part| - 1] == NUL
  }

  /** What is available now, within the limit, up to and including the first NUL. */
  method ReadPart(reader: BufReader, limit: nat) returns (part: seq<byte>, ended: bool)
    requires reader.Valid()
    modifies reader
    ensures reader.Valid()
    ensures old(reader.Remaining()) == part + reader.Remaining()
    ensures |part| <= limit
    ensures !ended ==> part != [] && NulFree(part)
    ensures ended ==> EndsWithNul(part) || (part == [] && (limit == 0 || reader.Remaining() == []))
  {
    if limit == 0 {
      return [], true;
    }
    reader.FillBuf();
    var available := if limit < |reader.buffer| then reader.buffer[..limit] else reader.buffer;
    var at := FirstNul(available);
    var used := if at < |available| then at + 1 else at;
    part := available[..used];
    assert at < |available| ==> part[..|part| - 1] == available[..at];
    assert part == reader.buffer[..used] == reader.Remaining()[..used];
    reader.Consume(used);
    ended := at < |available| || used == 0;
  }

  lemma Glue(s: seq<byte>, buf: seq<byte>, part: seq<byte>, rest: seq<byte>)
    requires s == buf + (part + rest)
    ensures s == (buf + part) + rest
    ensures NulFree(buf) && EndsWithNul(part) ==> EndsWithNul(buf + part)
  {
    if part != [] {
      assert (buf + part)[..|buf + part| - 1] == buf + part[..|part| - 1];
    }
  }

  /** One read: at most MAX_MESSAGE_SIZE + 1 bytes, up to and including the first NUL. The
      result depends on the bytes to come alone, not on how they are chunked or buffered. */
  method ReadMessage(reader: BufReader) returns (r: Result<seq<byte>, FrameError>)
    requires reader.Valid()
    modifies reader
    ensures reader.Valid()
    ensures r == ReadResult(old(reader.Remaining()))
    ensures reader.Remaining() == old(reader.Remaining())[Consumed(old(reader.Remaining()))..]
  {
    ghost var s := reader.Remaining();
    var buf, limit, ended := [], MAX_MESSAGE_SIZE + 1, false;
    while !ended
      invariant reader.Valid()
      invariant s == buf + reader.Remaining()
      invariant 0 <= limit && |buf| + limit == MAX_MESSAGE_SIZE + 1
      invariant !ended ==> NulFree(buf)
      invariant ended ==> EndsWithNul(buf) || (NulFree(buf) && (limit == 0 || reader.Remaining() == []))
      decreases !ended, limit
    {
      var part, stop := ReadPart(reader, limit);
      Glue(s, buf, part, reader.Remaining());
      assert part == [] ==> buf + part == buf;
      buf, limit, ended := buf + part, limit - |part|, stop;
    }
    WhatWasRead(s, buf, reader.Remaining());
    if buf != [] && buf[|buf| - 1] == NUL {
      return Ok(buf[..|buf| - 1]);
    } else if |buf| > MAX_MESSAGE_SIZE {
      return Err(TooLarge);
    } else {
      return Err(ClosedBeforeNul);
    }
  }

  /** The bytes collected decide the result, and what is consumed is what was collected. */
  lemma {:induction false} WhatWasRead(s: seq<byte>, buf: seq<byte>, rest: seq<byte>)
    requires s == buf + rest && |buf| <= MAX_MESSAGE_SIZE + 1
    requires EndsWithNul(buf) || (NulFree(buf) && (|buf| == MAX_MESSAGE_SIZE + 1 || rest == []))
    ensures ReadResult(s) == if buf != [] && buf[|buf| - 1] == NUL then Ok(buf[..|buf| - 1])
                             else if |buf| > MAX_MESSAGE_SIZE then Err(TooLarge) else Err(ClosedBeforeNul)
    ensures s[Consumed(s)..] == rest
  {
    assert s[..|buf|] == buf && s[|buf|..] == rest;
    if EndsWithNul(buf) {
      assert s[..|buf| - 1] == buf[..|buf| - 1];
      FirstNulIsUnique(s, |buf| - 1);
    } else {
      NoNulIn(s, |buf|);
    }
  }

  lemma {:induction false} NoNulIn(s: seq<byte>, n: nat)
    requires n <= |s| && NulFree(s[..n])
    ensures FirstNul(s) >= n
  {
    if n > 0 {
      assert s[..n] == [s[0]] + s[1..][..n - 1];
      NoNulIn(s[1..], n - 1);
    }
  }

  // ---------------------------------------------------------------------------
  // The writer
  // ---------------------------------------------------------------------------

  function Frame(payload: seq<byte>): seq<byte> {
    payload + [NUL]
  }

  function Frames(payloads: seq<seq<byte>>): seq<byte> {
    if payloads == [] then [] else Frame(payloads[0]) + Frames(payloads[1..])
  }

  class Writer {
    var written: seq<byte>

    method WriteMessage(payload: seq<byte>)
      modifies this
      ensures written == old(written) + Frame(payload)
    {
      written := written + payload;
      written := written + [NUL];
    }
  }

  // ---------------------------------------------------------------------------
  // Main results
  // ---------------------------------------------------------------------------

  /** A message is accepted exactly when a NUL is among the first MAX_MESSAGE_SIZE + 1 bytes. */
  lemma AcceptedIffNulInReach(s: seq<byte>)
    ensures ReadResult(s).Ok? <==> exists i :: 0 <= i < |s| && i <= MAX_MESSAGE_SIZE && s[i] == NUL
  {
    FirstNulIsFirst(s);
  }

  /** Without a NUL in reach, a message is too large exactly when there are more than 8,388,608 bytes,
      and cut off otherwise; with one, it is what stands before the first. */
  lemma ReadKinds(s: seq<byte>)
    ensures NulFree(s) ==> ReadResult(s) == Err(if |s| > 8_388_608 then TooLarge else ClosedBeforeNul)
    ensures NulFree(s) ==> Consumed(s) == if |s| > 8_388_608 then 8_388_609 else |s|
    ensures forall i :: 0 <= i < |s| && s[i] == NUL && NulFree(s[..i]) ==>
      && ReadResult(s) == (if i <= 8_388_608 then Ok(s[..i]) else Err(TooLarge))
      && Consumed(s) == (if i <= 8_388_608 then i + 1 else 8_388_609)
  {
    assert s[..|s|] == s;
    FirstNulIsFirst(s);
    forall i | 0 <= i < |s| && s[i] == NUL && NulFree(s[..i])
      ensures FirstNul(s) == i
    {
      FirstNulIsUnique(s, i);
    }
  }

  /** A written message is its payload and a zero byte. */
  lemma FrameForm(payload: seq<byte>)
    ensures |Frame(payload)| == |payload| + 1
    ensures Frame(payload)[..|payload|] == payload && Frame(payload)[|payload|] == 0
  {
  }

  /** A NUL-free payload is read back exactly when it is within the limit. */
  lemma FrameIsReadBack(payload: seq<byte>, rest: seq<byte>)
    requires NulFree(payload)
    ensures |payload| <= MAX_MESSAGE_SIZE ==>
      && ReadResult(Frame(payload) + rest) == Ok(payload)
      && (Frame(payload) + rest)[Consumed(Frame(payload) + rest)..] == rest
    ensures |payload| > MAX_MESSAGE_SIZE ==> ReadResult(Frame(payload) + rest) == Err(TooLarge)
  {
    var s := Frame(payload) + rest;
    assert s[..|payload|] == payload;
    FirstNulIsUnique(s, |payload|);
  }

  /** The results of n reads one after another, and the bytes left. */
  function ReadMany(n: nat, s: seq<byte>): (seq<Result<seq<byte>, FrameError>>, seq<byte>) {
    if n == 0 then ([], s)
    else
      var (tail, rest) := ReadMany(n - 1, s[Consumed(s)..]);
      ([ReadResult(s)] + tail, rest)
  }

  function Accepted(payloads: seq<seq<byte>>): seq<Result<seq<byte>, FrameError>> {
    seq(|payloads|, i requires 0 <= i < |payloads| => Ok(payloads[i]))
  }

  lemma {:induction false} FrameThenMany(payload: seq<byte>, n: nat, tail: seq<byte>)
    requires NulFree(payload) && |payload| <= MAX_MESSAGE_SIZE
    ensures var (results, rest) := ReadMany(n, tail);
      ReadMany(n + 1, Frame(payload) + tail) == ([Ok(payload)] + results, rest)
  {
    FrameIsReadBack(payload, tail);
  }

  lemma AcceptedStep(payloads: seq<seq<byte>>)
    requires payloads != []
    ensures Accepted(payloads) == [Ok(payloads[0])] + Accepted(payloads[1..])
  {
  }

  /** Payloads written back to back are read back in order, and nothing else is consumed. */
  lemma {:induction false} FramesAreReadBack(payloads: seq<seq<byte>>, rest: seq<byte>)
    requires forall i :: 0 <= i < |payloads| ==> NulFree(payloads[i]) && |payloads[i]| <= MAX_MESSAGE_SIZE
    ensures ReadMany(|payloads|, Frames(payloads) + rest) == (Accepted(payloads), rest)
  {
    if payloads == [] {
      assert Frames(payloads) + rest == rest;
    } else {
      var tail := Frames(payloads[1..]) + rest;
      ConcatAssociative(Frame(payloads[0]), Frames(payloads[1..]), rest);
      FrameThenMany(payloads[0], |payloads| - 1, tail);
      FramesAreReadBack(payloads[1..], rest);
      AcceptedStep(payloads);
    }
  }
}
