/**
 NUL framing of the private DevTools pipe: frames are read through a buffered reader that may
 cut the stream anywhere, and written through a writer that may accept any part of a request.
 */
module Framing {
  type Byte = b: int | 0 <= b < 256

  const MAX_FRAME: nat := 16777216   // terminator included
  const MAX_REQUEST: nat := 8388608  // terminator excluded

  datatype ReadResult =
    | Frame(bytes: seq<Byte>)
    | Oversized
    | Broken

  // ---- what a stream means, without buffers ---------------------------------------------------

  /** The position of the first NUL, or the length if there is none. */
  function FirstNul(s: seq<Byte>): (k: nat)
    ensures k <= |s| && (k < |s| ==> s[k] == 0) && forall i :: 0 <= i < k ==> s[i] != 0
  {
    if s == [] then 0 else if s[0] == 0 then 0 else
      var k := FirstNul(s[1..]);
      assert forall i :: 0 < i <= k ==> s[i] == s[1..][i - 1];
      1 + k
  }

  function NextResult(s: seq<Byte>): ReadResult {
    var k := FirstNul(s);
    if k == |s| then Broken else if k + 1 > MAX_FRAME then Oversized else Frame(s[..k])
  }

  /** What is left once the next terminator has been consumed. */
  function NextRest(s: seq<Byte>): seq<Byte> {
    var k := FirstNul(s);
    if k == |s| then [] else s[k + 1..]
  }

  /** All results of the read loop up to the end of the stream. */
  function Results(s: seq<Byte>): seq<ReadResult>
    decreases |s|
  {
    if NextResult(s) == Broken then [] else [NextResult(s)] + Results(NextRest(s))
  }

  predicate NulFree(s: seq<Byte>) { forall i :: 0 <= i < |s| ==> s[i] != 0 }

  function Encode(frames: seq<seq<Byte>>): seq<Byte> {
    if frames == [] then [] else frames[0] + [0] + Encode(frames[1..])
  }

  /** What the reader owes for one NUL-free frame. */
  function Owed(frame: seq<Byte>): ReadResult {
    if |frame| + 1 > MAX_FRAME then Oversized else Frame(frame)
  }

  lemma FirstNulUnique(s: seq<Byte>, k: nat)
    requires k < |s| && s[k] == 0 && forall i :: 0 <= i < k ==> s[i] != 0
    ensures FirstNul(s) == k
  {
    var j := FirstNul(s);
    assert !(j < k) && !(k < j);
  }

  lemma HeadFrameReadsBack(f: seq<Byte>, rest: seq<Byte>)
    requires NulFree(f)
    ensures NextResult(f + [0] + rest) == Owed(f) && NextRest(f + [0] + rest) == rest
  {
    var s := f + [0] + rest;
    assert forall i :: 0 <= i < |f| ==> s[i] == f[i];
    FirstNulUnique(s, |f|);
    assert s[..|f|] == f && s[|f| + 1..] == rest;
  }

  /**
   Any sequence of NUL-free frames is read back frame by frame; one that is too long costs only
   itself, and reading resumes right after its terminator.
   */
  lemma {:induction false} EncodedFramesReadBack(frames: seq<seq<Byte>>)
    requires forall i :: 0 <= i < |frames| ==> NulFree(frames[i])
    ensures |Results(Encode(frames))| == |frames|
    ensures forall i :: 0 <= i < |frames| ==> Results(Encode(frames))[i] == Owed(frames[i])
  {
    if frames == [] {
      assert Results([]) == [];
    } else {
      var rest := frames[1..];
      HeadFrameReadsBack(frames[0], Encode(rest));
      EncodedFramesReadBack(rest);
      assert Results(Encode(frames)) == [Owed(frames[0])] + Results(Encode(rest));
    }
  }

  /** Every request of at most eight mebibytes fits; the limit is sixteen mebibytes with the terminator. */
  lemma RequestsFitTheFrameLimit(frame: seq<Byte>)
    ensures |frame| <= 8388608 ==> Owed(frame) == Frame(frame)
    ensures Owed(frame) == if |frame| < 16777216 then Frame(frame) else Oversized
    ensures MAX_REQUEST == 8388608
  {
  }

  // ---- the buffered reader --------------------------------------------------------------------

  predicate Positive(rooms: seq<nat>) { forall i :: 0 <= i < |rooms| ==> rooms[i] > 0 }

  datatype SliceStatus = Found | BufferFull | EndOfStream

  /** One buffered read up to the delimiter, with a buffer that holds `room` bytes this time. */
  method ReadSlice(input: seq<Byte>, room: nat) returns (part: seq<Byte>, status: SliceStatus)
    requires room > 0
    ensures part <= input
    ensures status == Found ==> FirstNul(input) < |input| && |part| == FirstNul(input) + 1
    ensures status == BufferFull ==> 0 < |part| <= FirstNul(input)
    ensures status == EndOfStream ==> FirstNul(input) == |input| && part == input
  {
    var k := FirstNul(input);
    if k < |input| && k < room {
      return input[..k + 1], Found;
    } else if room < |input| || k < |input| {
      return input[..room], BufferFull;
    } else {
      return input, EndOfStream;
    }
  }

  lemma FirstNulAfterPrefix(s: seq<Byte>, n: nat)
    requires n <= FirstNul(s)
    ensures FirstNul(s[n..]) == FirstNul(s) - n
  {
    var k := FirstNul(s);
    if k < |s| {
      FirstNulUnique(s[n..], k - n);
    } else {
      assert forall i :: 0 <= i < |s| - n ==> s[n..][i] == s[n + i];
    }
  }

  /** One frame, whatever the sizes of the parts that the buffer delivers. */
  method ReadCaptureFrame(input: seq<Byte>, rooms: seq<nat>) returns (result: ReadResult, rest: seq<Byte>)
    requires Positive(rooms)
    ensures result == NextResult(input) && rest == NextRest(input)
  {
    var frame: seq<Byte> := [];
    var oversized := false;
    var n, turn := 0, 0;
    while true
      invariant 0 <= n <= FirstNul(input) && 0 <= turn
      invariant oversized <==> n > MAX_FRAME
      invariant !oversized ==> frame == input[..n]
      decreases |input| - n
    {
      FirstNulAfterPrefix(input, n);
      var room := if turn < |rooms| then rooms[turn] else 32768;
      turn := turn + 1;
      var part, status := ReadSlice(input[n..], room);
      if !oversized {
        if |part| > MAX_FRAME - |frame| {
          oversized := true;
          frame := [];
        } else {
          frame := frame + part;
        }
      }
      n := n + |part|;
      assert part == input[n - |part|..n];
      match status
      case BufferFull =>
      case EndOfStream => return Broken, [];
      case Found =>
        if oversized { return Oversized, input[n..]; }
        assert frame == input[..n] && n == FirstNul(input) + 1;
        return Frame(frame[..|frame| - 1]), input[n..];
    }
  }

  /** The read loop until the stream ends. */
  method ReadLoop(input: seq<Byte>, rooms: seq<seq<nat>>) returns (results: seq<ReadResult>)
    requires forall i :: 0 <= i < |rooms| ==> Positive(rooms[i])
    ensures results == Results(input)
  {
    results := [];
    var left := input;
    var turn := 0;
    while true
      invariant results + Results(left) == Results(input) && 0 <= turn
      decreases |left|
    {
      var r, rest := ReadCaptureFrame(left, if turn < |rooms| then rooms[turn] else []);
      turn := turn + 1;
      if r == Broken {
        assert results + [] == results;
        break;
      }
      assert results + ([r] + Results(rest)) == results + [r] + Results(rest);
      results := results + [r];
      left := rest;
    }
  }

  // ---- the short-write loop --------------------------------------------------------------------

  /** What one Write call answers: how many bytes it took, and whether it failed. */
  datatype WriteAnswer = WriteAnswer(taken: int, err: bool)

  predicate Willing(answers: seq<WriteAnswer>) {
    forall i :: 0 <= i < |answers| ==> answers[i].taken > 0 && !answers[i].err
  }

  /** Success means exactly the frame reached the pipe; failure leaves a prefix of it there. */
  method WriteCaptureFrame(frame: seq<Byte>, answers: seq<WriteAnswer>) returns (ok: bool, written: seq<Byte>)
    ensures ok ==> written == frame
    ensures written <= frame
    ensures Willing(answers) ==> ok
  {
    var left := frame;
    var turn := 0;
    written := [];
    while left != []
      invariant written + left == frame && 0 <= turn
      decreases |left|
    {
      var a := if turn < |answers| then answers[turn] else WriteAnswer(|left|, false);
      turn := turn + 1;
      var taken := if a.taken > |left| then |left| else a.taken;
      if a.err {
        written := written + left[..if taken > 0 then taken else 0];
        return false, written;
      }
      if taken <= 0 { return false, written; }
      written := written + left[..taken];
      left := left[taken..];
    }
    ok := true;
  }

  /** A written batch of requests is read back as those requests, for every chunking on both sides. */
  method SendAndReceive(frames: seq<seq<Byte>>, answers: seq<seq<WriteAnswer>>, rooms: seq<seq<nat>>)
      returns (results: seq<ReadResult>)
    requires forall i :: 0 <= i < |answers| ==> Willing(answers[i])
    requires forall i :: 0 <= i < |frames| ==> NulFree(frames[i]) && |frames[i]| <= MAX_REQUEST
    requires forall i :: 0 <= i < |rooms| ==> Positive(rooms[i])
    ensures |results| == |frames| && forall i :: 0 <= i < |frames| ==> results[i] == Frame(frames[i])
  {
    var pipe: seq<Byte> := [];
    var i := 0;
    while i < |frames|
      invariant 0 <= i <= |frames|
      invariant pipe == Encode(frames[..i])
    {
      var _, written := WriteCaptureFrame(frames[i] + [0], if i < |answers| then answers[i] else []);
      EncodeAppend(frames[..i], frames[i]);
      assert frames[..i + 1] == frames[..i] + [frames[i]];
      assert pipe + (frames[i] + [0]) == pipe + frames[i] + [0];
      pipe := pipe + written;
      i := i + 1;
    }
    assert frames[..i] == frames;
    results := ReadLoop(pipe, rooms);
    EncodedFramesReadBack(frames);
  }

  lemma {:induction false} EncodeAppend(frames: seq<seq<Byte>>, f: seq<Byte>)
    ensures Encode(frames + [f]) == Encode(frames) + f + [0]
  {
    if frames == [] {
      assert frames + [f] == [f] && [f][1..] == [];
    } else {
      assert (frames + [f])[1..] == frames[1..] + [f];
      EncodeAppend(frames[1..], f);
      var head, tail := frames[0] + [0], Encode(frames[1..]);
      assert head + (tail + f + [0]) == head + tail + f + [0];
    }
  }
}
