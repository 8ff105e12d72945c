/**
 Brace-counted framing of JSON-RPC messages. Braces inside JSON strings are counted like any
 other, as the peer implementation does.
 */
module JsonFraming {
  import opened Bytes

  const OPEN: byte := 123
  const CLOSE: byte := 125
  const MAX_MESSAGE_SIZE := 0x10_0000

  function Change(b: byte): int {
    if b == OPEN then 1 else if b == CLOSE then -1 else 0
  }

  /** Opening minus closing braces. */
  function Depth(s: seq<byte>): int {
    if s == [] then 0 else Depth(s[..|s| - 1]) + Change(s[|s| - 1])
  }

  /** A message: it starts with a brace, all braces close, and they do so only with the last byte. */
  ghost predicate Balanced(m: seq<byte>) {
    m != [] && m[0] == OPEN && Depth(m) == 0 && forall k :: 0 < k < |m| ==> Depth(m[..k]) > 0
  }

  /** The first brace at or after `start` is at `i`, and no segment from there ending before `end` closes it. */
  ghost predicate Opens(data: seq<byte>, start: nat, i: int, end: int) {
    && start <= i < |data| && end <= |data| + 1
    && data[i] == OPEN
    && (forall k :: start <= k < i ==> data[k] != OPEN)
    && (forall j :: i < j < end ==> Depth(data[i..j]) > 0)
  }

  /** The stream ends inside the message opened at `i`, within the size limit. */
  ghost predicate NeverCloses(data: seq<byte>, start: nat, i: int) {
    |data| - i <= MAX_MESSAGE_SIZE && Opens(data, start, i, |data| + 1)
  }

  ghost predicate NeverOpens(data: seq<byte>, start: nat, end: nat) {
    end <= |data| && forall k :: start <= k < end ==> data[k] != OPEN
  }

  datatype Frame = Complete(message: seq<byte>) | TooLarge | EndOfStream

  /** `f` is the answer a reader at position `start` of the stream owes, and `end` the position it then has. */
  ghost predicate Answers(data: seq<byte>, start: nat, f: Frame, end: nat) {
    && start <= end <= |data|
    && match f
       case Complete(m) =>
         && 0 < |m| <= end - start && |m| <= MAX_MESSAGE_SIZE
         && m == data[end - |m|..end] && Depth(m) == 0
         && Opens(data, start, end - |m|, end)
       case TooLarge =>
         Opens(data, start, end - MAX_MESSAGE_SIZE - 1, end)
       case EndOfStream =>
         && end == |data|
         && (NeverOpens(data, start, end) || exists i :: NeverCloses(data, start, i))
  }

  lemma CompleteIsBalanced(data: seq<byte>, start: nat, m: seq<byte>, end: nat)
    requires Answers(data, start, Complete(m), end)
    ensures Balanced(m)
  {
    var i := end - |m|;
    assert m[0] == data[i];
    forall k | 0 < k < |m|
      ensures Depth(m[..k]) > 0
    {
      assert m[..k] == data[i..i + k];
    }
  }

  /** The bytes of the stream decide the answer and how far it reaches. */
  lemma AnswerIsUnique(data: seq<byte>, start: nat, f: Frame, end: nat, g: Frame, end': nat)
    requires Answers(data, start, f, end) && Answers(data, start, g, end')
    ensures f == g && end == end'
  {
  }

  class Reader {
    const data: seq<byte>
    var pos: nat

    constructor (data: seq<byte>)
      ensures this.data == data && pos == 0
    {
      this.data := data;
      pos := 0;
    }

    /** Reads byte by byte until the braces opened so far are all closed. */
    method ReadRaw() returns (f: Frame)
      requires pos <= |data|
      modifies this
      ensures Answers(data, old(pos), f, pos)
    {
      hide Answers, Scanned, Depth;
      var buf: seq<byte> := [];
      var depth := 0;
      var started := false;
      NothingScanned(data, pos);
      while true
        invariant old(pos) <= pos <= |data|
        invariant started <==> buf != []
        invariant |buf| <= MAX_MESSAGE_SIZE && (!started ==> depth == 0)
        invariant Scanned(data, old(pos), pos, buf, depth)
        decreases |data| - pos
      {
        if pos == |data| {
          EndOfScan(data, old(pos), buf, depth);
          return EndOfStream;
        }
        var b := data[pos];
        if started || b == OPEN {
          CountStep(data, old(pos), pos, buf, depth);
        } else {
          SkipStep(data, old(pos), pos, depth);
        }
        pos := pos + 1;
        if b == OPEN {
          depth := depth + 1;
          started := true;
        } else if b == CLOSE {
          if started {
            depth := depth - 1;
          }
        }
        if started {
          buf := buf + [b];
          if |buf| > MAX_MESSAGE_SIZE {
            return TooLarge;
          }
        }
        if started && depth == 0 {
          return Complete(buf);
        }
      }
    }
  }

  /** What the loop knows at position `pos`, without an answer so far. */
  ghost predicate Scanned(data: seq<byte>, start: nat, pos: nat, buf: seq<byte>, depth: int) {
    && start <= pos <= |data|
    && depth == Depth(buf)
    && if buf == [] then NeverOpens(data, start, pos)
       else
         && |buf| <= pos - start && |buf| <= MAX_MESSAGE_SIZE
         && buf == data[pos - |buf|..pos]
         && Opens(data, start, pos - |buf|, pos + 1)
  }

  lemma NothingScanned(data: seq<byte>, start: nat)
    requires start <= |data|
    ensures Scanned(data, start, start, [], 0)
  {
  }

  lemma SkipStep(data: seq<byte>, start: nat, pos: nat, depth: int)
    requires Scanned(data, start, pos, [], depth) && pos < |data| && data[pos] != OPEN
    ensures Scanned(data, start, pos + 1, [], depth)
  {
  }

  lemma CountStep(data: seq<byte>, start: nat, pos: nat, buf: seq<byte>, depth: int)
    requires Scanned(data, start, pos, buf, depth) && pos < |data|
    requires buf == [] ==> data[pos] == OPEN
    ensures |buf| == MAX_MESSAGE_SIZE ==> Answers(data, start, TooLarge, pos + 1)
    ensures |buf| < MAX_MESSAGE_SIZE ==>
            if depth + Change(data[pos]) == 0 then Answers(data, start, Complete(buf + [data[pos]]), pos + 1)
            else Scanned(data, start, pos + 1, buf + [data[pos]], depth + Change(data[pos]))
  {
    var i, buf' := pos - |buf|, buf + [data[pos]];
    assert buf' == data[i..pos + 1];
    assert buf'[..|buf|] == buf;
    assert Opens(data, start, i, pos + 1);
    assert depth >= 0 by {
      if buf != [] {
        assert Depth(data[i..pos]) > 0;
      }
    }
    assert buf == [] ==> depth == 0;
    assert depth + Change(data[pos]) >= 0;
  }

  lemma EndOfScan(data: seq<byte>, start: nat, buf: seq<byte>, depth: int)
    requires Scanned(data, start, |data|, buf, depth)
    ensures Answers(data, start, EndOfStream, |data|)
  {
    if buf != [] {
      assert NeverCloses(data, start, |data| - |buf|);
    }
  }

  // ---------------------------------------------------------------- whole streams

  /** A '{'-free gap followed by a message. */
  datatype Segment = Segment(gap: seq<byte>, message: seq<byte>)

  ghost predicate WellFormed(g: Segment) {
    OPEN !in g.gap && Balanced(g.message) && |g.message| <= MAX_MESSAGE_SIZE
  }

  function Flatten(gs: seq<Segment>): seq<byte> {
    if gs == [] then [] else gs[0].gap + gs[0].message + Flatten(gs[1..])
  }

  function Messages(gs: seq<Segment>): seq<seq<byte>> {
    if gs == [] then [] else [gs[0].message] + Messages(gs[1..])
  }

  /** Repeated reading from `start` yields the messages `ms` and then the end of the stream. */
  ghost predicate Reads(data: seq<byte>, start: nat, ms: seq<seq<byte>>)
    decreases |ms|
  {
    if ms == [] then Answers(data, start, EndOfStream, |data|)
    else exists end: nat :: Answers(data, start, Complete(ms[0]), end) && Reads(data, end, ms[1..])
  }

  lemma SegmentAnswers(before: seq<byte>, g: Segment, rest: seq<byte>)
    requires WellFormed(g)
    ensures Answers(before + g.gap + g.message + rest, |before|, Complete(g.message), |before + g.gap + g.message|)
  {
    var data, i := before + g.gap + g.message + rest, |before + g.gap|;
    var end := i + |g.message|;
    assert data[i..end] == g.message;
    forall k | |before| <= k < i
      ensures data[k] != OPEN
    {
      assert data[k] == g.gap[k - |before|];
    }
    forall j | i < j < end
      ensures Depth(data[i..j]) > 0
    {
      assert data[i..j] == g.message[..j - i];
    }
  }

  /** Balanced messages within the limit, kept apart by '{'-free bytes, are read back exactly and in order. */
  lemma {:induction false} StreamIsReadBack(before: seq<byte>, gs: seq<Segment>, tail: seq<byte>)
    requires forall i :: 0 <= i < |gs| ==> WellFormed(gs[i])
    requires OPEN !in tail
    ensures Reads(before + Flatten(gs) + tail, |before|, Messages(gs))
    decreases |gs|
  {
    var data := before + Flatten(gs) + tail;
    if gs == [] {
      assert data == before + tail;
      assert NeverOpens(data, |before|, |data|);
    } else {
      var g := gs[0];
      var next := before + g.gap + g.message;
      assert data == next + (Flatten(gs[1..]) + tail);
      SegmentAnswers(before, g, Flatten(gs[1..]) + tail);
      assert data == next + Flatten(gs[1..]) + tail;
      StreamIsReadBack(next, gs[1..], tail);
      assert Messages(gs)[1..] == Messages(gs[1..]);
    }
  }

  lemma FirstRead(data: seq<byte>, start: nat, ms: seq<seq<byte>>) returns (f: Frame, end: nat)
    requires Reads(data, start, ms)
    ensures Answers(data, start, f, end)
    ensures if ms == [] then f == EndOfStream else f == Complete(ms[0]) && Reads(data, end, ms[1..])
  {
    if ms == [] {
      f, end := EndOfStream, |data|;
    } else {
      f := Complete(ms[0]);
      end :| Answers(data, start, Complete(ms[0]), end) && Reads(data, end, ms[1..]);
    }
  }

  lemma FirstReadsAgree(data: seq<byte>, start: nat, ms: seq<seq<byte>>, ms': seq<seq<byte>>) returns (end: nat)
    requires Reads(data, start, ms) && Reads(data, start, ms')
    ensures ms == [] <==> ms' == []
    ensures ms != [] ==> ms[0] == ms'[0] && Reads(data, end, ms[1..]) && Reads(data, end, ms'[1..])
  {
    hide Answers, Reads;
    var f, e := FirstRead(data, start, ms);
    var f', e' := FirstRead(data, start, ms');
    AnswerIsUnique(data, start, f, e, f', e');
    end := e;
  }

  /** No stream can be read in two ways. */
  lemma {:induction false} ReadingIsDeterministic(data: seq<byte>, start: nat, ms: seq<seq<byte>>, ms': seq<seq<byte>>)
    requires Reads(data, start, ms) && Reads(data, start, ms')
    ensures ms == ms'
    decreases |ms|
  {
    hide Answers, Reads;
    var end := FirstReadsAgree(data, start, ms, ms');
    if ms != [] {
      ReadingIsDeterministic(data, end, ms[1..], ms'[1..]);
      assert ms == [ms[0]] + ms[1..] && ms' == [ms'[0]] + ms'[1..];
    }
  }
}
