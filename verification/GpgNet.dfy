/**
 The GPGNet binary protocol spoken with the game: little-endian integers, length-prefixed
 strings, and messages made of a header string and a typed argument list.
 Strings are byte sequences, as Go strings are.
 */
module GpgNet {
  import opened Bytes
  import opened Escapes

  const FIELD_TYPE_INT: byte := 0
  const FIELD_TYPE_STRING: byte := 1
  const MAX_CHUNKS := 10
  const MAX_STRING_LENGTH := 65535

  type Text = seq<byte>

  /** A float64 whose integer part is an int32; Go leaves the conversion of any other undefined. */
  type JsonNumber = f: real | -2147483649.0 < f < 2147483648.0

  /** The dynamic types the argument writer distinguishes; Other stands for every type it rejects. */
  datatype Arg =
    | GoInt(i: int)
    | Int32(v: i32)
    | Uint16(h: u16)
    | Uint32(w: u32)
    | Float64(f: JsonNumber)
    | Str(s: Text)
    | Other

  datatype Chunk = IntChunk(v: i32) | StrChunk(s: Text)

  datatype Message = Message(header: Text, args: seq<Arg>)
  datatype Received = Received(header: Text, chunks: seq<Chunk>)

  /** Truncation toward zero, Go's float-to-integer conversion. */
  function Truncate(f: JsonNumber): (r: i32)
    ensures f >= 0.0 ==> r as real <= f < r as real + 1.0
    ensures f <= 0.0 ==> r as real - 1.0 < f <= r as real
  {
    if f >= 0.0 then f.Floor else -((0.0 - f as real).Floor)
  }

  /** What the receiver is meant to see of an argument: a 32-bit integer or an unescaped string. */
  function Seen(a: Arg): Chunk
    requires !a.Other?
  {
    match a
    case GoInt(i) => IntChunk(Wrap32(i))
    case Int32(v) => IntChunk(v)
    case Uint16(h) => IntChunk(h)
    case Uint32(w) => IntChunk(Wrap32(w))
    case Float64(f) => IntChunk(Truncate(f))
    case Str(s) => StrChunk(Unescape(s))
  }

  // ---------------------------------------------------------------- writing

  /** Bytes appended to the output, and whether the write was accepted to its end. */
  datatype Written = Written(bytes: seq<byte>, ok: bool)

  function EncodeText(s: Text): Written {
    if |s| > MAX_STRING_LENGTH then Written([], false) else Written(LittleEndian32(|s|) + s, true)
  }

  /** The integer handed to the four-byte encoder for a numeric argument. */
  function IntOf(a: Arg): int
    requires !a.Str? && !a.Other?
  {
    match a
    case GoInt(i) => i
    case Int32(v) => v
    case Uint16(h) => h
    case Uint32(w) => w
    case Float64(f) => Truncate(f)
  }

  function EncodeArg(a: Arg): Written {
    if a.Other? then Written([], false)
    else if a.Str? then Written([FIELD_TYPE_STRING] + EncodeText(a.s).bytes, EncodeText(a.s).ok)
    else Written([FIELD_TYPE_INT] + LittleEndian32(IntOf(a)), true)
  }

  /** The arguments up to and including the first that is rejected. */
  function EncodeArgs(args: seq<Arg>): Written {
    if args == [] then Written([], true)
    else
      var first := EncodeArg(args[0]);
      if !first.ok then first
      else
        var rest := EncodeArgs(args[1..]);
        Written(first.bytes + rest.bytes, rest.ok)
  }

  function EncodeMessage(m: Message): Written {
    var header := EncodeText(m.header);
    if !header.ok then header
    else
      var args := EncodeArgs(m.args);
      Written(header.bytes + LittleEndian32(|m.args|) + args.bytes, args.ok)
  }

  function EncodeAll(ms: seq<Message>): seq<byte> {
    if ms == [] then [] else EncodeMessage(ms[0]).bytes + EncodeAll(ms[1..])
  }

  function After(done: seq<byte>, w: Written): Written {
    Written(done + w.bytes, w.ok)
  }

  lemma UnrollArgs(done: seq<byte>, args: seq<Arg>, i: nat)
    requires i < |args|
    ensures After(done, EncodeArgs(args[i..])) ==
            if EncodeArg(args[i]).ok then After(done + EncodeArg(args[i]).bytes, EncodeArgs(args[i + 1..]))
            else After(done, EncodeArg(args[i]))
  {
  }

  class Writer {
    var out: seq<byte>

    constructor ()
      ensures out == []
    {
      out := [];
    }

    method WriteInt(v: int)
      modifies this
      ensures out == old(out) + LittleEndian32(v)
    {
      out := out + LittleEndian32(v);
    }

    method WriteString(s: Text) returns (ok: bool)
      modifies this
      ensures Written(out, ok) == Written(old(out) + EncodeText(s).bytes, EncodeText(s).ok)
    {
      if |s| > MAX_STRING_LENGTH {
        return false;
      }
      WriteInt(|s|);
      out := out + s;
      ok := true;
    }

    method WriteArgs(args: seq<Arg>) returns (ok: bool)
      modifies this
      ensures out == old(out) + LittleEndian32(|args|) + EncodeArgs(args).bytes
      ensures ok == EncodeArgs(args).ok
    {
      WriteInt(|args|);
      ok := WriteArgList(args);
    }

    method WriteArgList(args: seq<Arg>) returns (ok: bool)
      modifies this
      ensures out == old(out) + EncodeArgs(args).bytes
      ensures ok == EncodeArgs(args).ok
    {
      ghost var whole := After(out, EncodeArgs(args));
      var i := 0;
      assert args[0..] == args;
      while i < |args|
        invariant 0 <= i <= |args|
        invariant After(out, EncodeArgs(args[i..])) == whole
      {
        UnrollArgs(out, args, i);
        ok := WriteArg(args[i]);
        if !ok {
          return;
        }
        i := i + 1;
      }
      ok := true;
    }

    method WriteArg(a: Arg) returns (ok: bool)
      modifies this
      ensures out == old(out) + EncodeArg(a).bytes
      ensures ok == EncodeArg(a).ok
    {
      if a.Other? {
        return false;
      }
      if a.Str? {
        out := out + [FIELD_TYPE_STRING];
        ok := WriteString(a.s);
      } else {
        out := out + [FIELD_TYPE_INT];
        WriteInt(IntOf(a));
        ok := true;
      }
    }

    /** A rejected message leaves what was already written of it in front of the next one. */
    method WriteMessage(m: Message) returns (ok: bool)
      modifies this
      ensures out == old(out) + EncodeMessage(m).bytes
      ensures ok == EncodeMessage(m).ok
    {
      ok := WriteString(m.header);
      if ok {
        ok := WriteArgs(m.args);
      }
    }
  }

  // ---------------------------------------------------------------- reading

  /** Panics is the run-time failure of allocating a chunk list of negative capacity. */
  datatype Parse<+T> = Got(value: T, rest: seq<byte>) | Fails | Panics

  function DecodeInt(s: seq<byte>): (r: Parse<i32>)
    ensures !r.Panics?
    ensures r.Got? ==> |r.rest| + 4 == |s|
  {
    if |s| < 4 then Fails else Got(FromLittleEndian32(s[..4]), s[4..])
  }

  function DecodeText(s: seq<byte>): (r: Parse<Text>)
    ensures !r.Panics?
    ensures r.Got? ==> |r.rest| + 4 <= |s|
  {
    var size := DecodeInt(s);
    if !size.Got? || size.value < 0 || size.value > MAX_STRING_LENGTH || size.value > |size.rest| then Fails
    else Got(size.rest[..size.value], size.rest[size.value..])
  }

  function DecodeChunk(s: seq<byte>): (r: Parse<Chunk>)
    ensures !r.Panics?
    ensures r.Got? ==> |r.rest| < |s|
  {
    if s == [] then Fails
    else if s[0] == FIELD_TYPE_INT then
      var v := DecodeInt(s[1..]);
      if v.Got? then Got(IntChunk(v.value), v.rest) else Fails
    else
      var t := DecodeText(s[1..]);
      if t.Got? then Got(StrChunk(ReplaceEscapes(t.value)), t.rest) else Fails
  }

  function DecodeChunkList(s: seq<byte>, n: nat): (r: Parse<seq<Chunk>>)
    ensures !r.Panics?
    ensures r.Got? ==> |r.value| == n && |r.rest| <= |s|
    decreases n
  {
    if n == 0 then Got([], s)
    else
      var first := DecodeChunk(s);
      if !first.Got? then Fails
      else
        var more := DecodeChunkList(first.rest, n - 1);
        if !more.Got? then Fails else Got([first.value] + more.value, more.rest)
  }

  function DecodeChunks(s: seq<byte>): (r: Parse<seq<Chunk>>)
    ensures r.Got? ==> |r.rest| < |s|
  {
    var count := DecodeInt(s);
    if !count.Got? || count.value > MAX_CHUNKS then Fails
    else if count.value < 0 then Panics
    else DecodeChunkList(count.rest, count.value)
  }

  function DecodeMessage(s: seq<byte>): (r: Parse<Received>)
    ensures r.Got? ==> |r.rest| < |s|
  {
    var header := DecodeText(s);
    if !header.Got? then Fails
    else
      var chunks := DecodeChunks(header.rest);
      if chunks.Got? then Got(Received(header.value, chunks.value), chunks.rest)
      else if chunks.Panics? then Panics
      else Fails
  }

  /** How the read loop ends: the messages read, the bytes then left, and whether it crashed on them. */
  datatype Reading = Reading(messages: seq<Received>, rest: seq<byte>, crashed: bool)

  /** The read loop: messages until one cannot be read. */
  function DecodeAll(s: seq<byte>): Reading
    decreases |s|
  {
    var first := DecodeMessage(s);
    if !first.Got? then Reading([], s, first.Panics?)
    else
      var more := DecodeAll(first.rest);
      more.(messages := [first.value] + more.messages)
  }

  /** The reader advances a position over the bytes of its stream. */
  class Reader {
    const data: seq<byte>
    var pos: nat

    ghost predicate Valid()
      reads this
    {
      pos <= |data|
    }

    ghost function Rest(): seq<byte>
      requires Valid()
      reads this
    {
      data[pos..]
    }

    constructor (data: seq<byte>)
      ensures Valid() && Rest() == data
    {
      this.data := data;
      pos := 0;
    }

    method ReadInt() returns (v: Option<i32>)
      requires Valid()
      modifies this
      ensures Valid()
      ensures v.Some? <==> DecodeInt(old(Rest())).Got?
      ensures v.Some? ==> DecodeInt(old(Rest())) == Got(v.value, Rest())
    {
      if |data| - pos < 4 {
        return None;
      }
      assert Rest()[..4] == data[pos..pos + 4];
      v := Some(FromLittleEndian32(data[pos..pos + 4]));
      pos := pos + 4;
    }

    method ReadString() returns (t: Option<Text>)
      requires Valid()
      modifies this
      ensures Valid()
      ensures t.Some? <==> DecodeText(old(Rest())).Got?
      ensures t.Some? ==> DecodeText(old(Rest())) == Got(t.value, Rest())
    {
      var size := ReadInt();
      if size.None? || size.value < 0 || size.value > MAX_STRING_LENGTH || |data| - pos < size.value {
        return None;
      }
      assert Rest()[..size.value] == data[pos..pos + size.value];
      t := Some(data[pos..pos + size.value]);
      pos := pos + size.value;
    }

    method ReadChunk() returns (c: Option<Chunk>)
      requires Valid()
      modifies this
      ensures Valid()
      ensures c.Some? <==> DecodeChunk(old(Rest())).Got?
      ensures c.Some? ==> DecodeChunk(old(Rest())) == Got(c.value, Rest())
    {
      if pos == |data| {
        return None;
      }
      var kind := data[pos];
      assert data[pos + 1..] == Rest()[1..];
      pos := pos + 1;
      if kind == FIELD_TYPE_INT {
        var v := ReadInt();
        c := if v.Some? then Some(IntChunk(v.value)) else None;
      } else {
        var t := ReadString();
        c := if t.Some? then Some(StrChunk(ReplaceEscapes(t.value))) else None;
      }
    }

    /** Reads a chunk list; a negative count, which the code does not refuse, is the caller's to exclude. */
    method ReadChunks() returns (cs: Option<seq<Chunk>>)
      requires Valid()
      requires !DecodeChunks(Rest()).Panics?
      modifies this
      ensures Valid()
      ensures cs.Some? <==> DecodeChunks(old(Rest())).Got?
      ensures cs.Some? ==> DecodeChunks(old(Rest())) == Got(cs.value, Rest())
    {
      var count := ReadInt();
      if count.None? || count.value > MAX_CHUNKS {
        return None;
      }
      cs := ReadChunkList(count.value);
    }

    method ReadChunkList(n: nat) returns (cs: Option<seq<Chunk>>)
      requires Valid()
      modifies this
      ensures Valid()
      ensures cs.Some? <==> DecodeChunkList(old(Rest()), n).Got?
      ensures cs.Some? ==> DecodeChunkList(old(Rest()), n) == Got(cs.value, Rest())
    {
      hide DecodeChunk, DecodeChunkList, ContinuesAs;
      ghost var whole := DecodeChunkList(Rest(), n);
      ChunksBegin(Rest(), n);
      var chunks: seq<Chunk> := [];
      var i := 0;
      while i < n
        invariant 0 <= i <= n
        invariant Valid()
        invariant ContinuesAs(whole, chunks, Rest(), n - i)
      {
        UnrollChunks(whole, chunks, Rest(), n - i);
        var c := ReadChunk();
        if c.None? {
          return None;
        }
        chunks := chunks + [c.value];
        i := i + 1;
      }
      ChunksEnd(whole, chunks, Rest());
      cs := Some(chunks);
    }

    method ReadMessage() returns (m: Option<Received>)
      requires Valid()
      requires !DecodeMessage(Rest()).Panics?
      modifies this
      ensures Valid()
      ensures m.Some? <==> DecodeMessage(old(Rest())).Got?
      ensures m.Some? ==> DecodeMessage(old(Rest())) == Got(m.value, Rest())
    {
      var header := ReadString();
      if header.None? {
        return None;
      }
      var chunks := ReadChunks();
      m := if chunks.Some? then Some(Received(header.value, chunks.value)) else None;
    }
  }

  /** Reading `whole` amounts to having collected `done` and reading n more chunks from `s`. */
  ghost predicate ContinuesAs(whole: Parse<seq<Chunk>>, done: seq<Chunk>, s: seq<byte>, n: nat) {
    if n == 0 then whole == Got(done, s)
    else
      var more := DecodeChunkList(s, n);
      if more.Got? then whole == Got(done + more.value, more.rest) else whole.Fails?
  }

  lemma ChunksBegin(s: seq<byte>, n: nat)
    ensures ContinuesAs(DecodeChunkList(s, n), [], s, n)
  {
    var whole := DecodeChunkList(s, n);
    assert whole.Got? ==> [] + whole.value == whole.value;
  }

  lemma ChunksEnd(whole: Parse<seq<Chunk>>, done: seq<Chunk>, s: seq<byte>)
    requires ContinuesAs(whole, done, s, 0)
    ensures whole == Got(done, s)
  {
  }

  lemma UnrollChunks(whole: Parse<seq<Chunk>>, done: seq<Chunk>, s: seq<byte>, n: nat)
    requires n > 0 && ContinuesAs(whole, done, s, n)
    ensures DecodeChunk(s).Fails? ==> whole.Fails?
    ensures DecodeChunk(s).Got? ==> ContinuesAs(whole, done + [DecodeChunk(s).value], DecodeChunk(s).rest, n - 1)
  {
    var first := DecodeChunk(s);
    if first.Got? {
      var more := DecodeChunkList(first.rest, n - 1);
      if more.Got? {
        assert done + ([first.value] + more.value) == done + [first.value] + more.value;
        assert n == 1 ==> done + [first.value] + [] == done + [first.value];
      }
    }
  }

  // ---------------------------------------------------------------- the round trip

  /** The stream begins with a readable header and a negative count. */
  predicate NegativeCount(s: seq<byte>) {
    DecodeText(s).Got? && DecodeInt(DecodeText(s).rest).Got? && DecodeInt(DecodeText(s).rest).value < 0
  }

  /** What is left of the stream after `n` messages, if that many can be read. */
  function AfterMessages(s: seq<byte>, n: nat): Option<seq<byte>>
    decreases n
  {
    if n == 0 then Some(s)
    else if DecodeMessage(s).Got? then AfterMessages(DecodeMessage(s).rest, n - 1)
    else None
  }

  ghost predicate CrashesAt(s: seq<byte>, n: nat) {
    AfterMessages(s, n).Some? && NegativeCount(AfterMessages(s, n).value)
  }

  /** For every byte stream, the read loop crashes exactly when some message boundary is followed by a readable header and a negative count. */
  lemma {:induction false} ReaderPanicsIffCountNegative(s: seq<byte>)
    ensures DecodeAll(s).crashed <==> exists n: nat :: CrashesAt(s, n)
    decreases |s|
  {
    var first := DecodeMessage(s);
    if first.Got? {
      ReaderPanicsIffCountNegative(first.rest);
      if n: nat :| CrashesAt(first.rest, n) {
        assert CrashesAt(s, n + 1);
      }
      if n: nat :| CrashesAt(s, n) {
        assert n > 0;
        assert CrashesAt(first.rest, n - 1);
      }
    } else {
      assert first.Panics? <==> NegativeCount(s);
      assert CrashesAt(s, 0) <==> NegativeCount(s);
      assert forall n: nat :: n > 0 ==> AfterMessages(s, n).None?;
    }
  }

  /** Any accepted header followed by a negative count, whatever comes next, crashes the reader. */
  lemma NegativeCountPanics(h: Text, n: int, rest: seq<byte>)
    requires |h| <= MAX_STRING_LENGTH && -0x8000_0000 <= n < 0
    ensures DecodeMessage(EncodeText(h).bytes + (LittleEndian32(n) + rest)) == Panics
  {
    TextRoundTrip(h, LittleEndian32(n) + rest);
    var tail := LittleEndian32(n) + rest;
    assert tail[..4] == LittleEndian32(n);
    LittleEndian32RoundTrip(n);
  }

  lemma TextRoundTrip(s: Text, rest: seq<byte>)
    requires EncodeText(s).ok
    ensures DecodeText(EncodeText(s).bytes + rest) == Got(s, rest)
  {
    var w := EncodeText(s).bytes + rest;
    LittleEndian32RoundTrip(|s|);
    assert w[..4] == LittleEndian32(|s|);
    assert w[4..] == s + rest;
    assert (s + rest)[..|s|] == s && (s + rest)[|s|..] == rest;
  }

  // ---------------------------------------------------------------- what the writer accepts

  /** A text the writer takes; its length fits the reader's limit. */
  predicate ShortEnough(s: Text) {
    |s| <= 65535
  }

  /** An argument the writer takes: any number, or a text that is not too long. */
  predicate Acceptable(a: Arg) {
    !a.Other? && (a.Str? ==> ShortEnough(a.s))
  }

  ghost predicate AllAcceptable(args: seq<Arg>) {
    forall i :: 0 <= i < |args| ==> Acceptable(args[i])
  }

  /** A message the writer takes. */
  ghost predicate Writable(m: Message) {
    ShortEnough(m.header) && AllAcceptable(m.args)
  }

  lemma {:induction false} ArgsAreWrittenIff(args: seq<Arg>)
    ensures EncodeArgs(args).ok <==> AllAcceptable(args)
  {
    if args != [] {
      ArgsAreWrittenIff(args[1..]);
      assert EncodeArg(args[0]).ok <==> Acceptable(args[0]);
      hide EncodeArg, Acceptable;
      if AllAcceptable(args[1..]) && Acceptable(args[0]) {
        forall i | 0 <= i < |args|
          ensures Acceptable(args[i])
        {
          if i > 0 {
            assert args[i] == args[1..][i - 1];
          }
        }
      }
      if AllAcceptable(args) {
        forall i | 0 <= i < |args[1..]|
          ensures Acceptable(args[1..][i])
        {
          assert args[1..][i] == args[i + 1];
        }
      }
    }
  }

  /** A message is written exactly when its header and every text in it have at most 65535 bytes and no argument is of an unknown type. */
  lemma MessageIsWrittenIff(m: Message)
    ensures EncodeMessage(m).ok <==> Writable(m)
  {
    ArgsAreWrittenIff(m.args);
  }

  /** On the wire an integer is a zero byte and its four bytes, lowest first; a text is a one, its length likewise, and its bytes. */
  lemma ArgumentBytes(a: Arg)
    requires Acceptable(a)
    ensures !a.Str? ==>
              var w := Low32(IntOf(a));
              EncodeArg(a).bytes == [0, w % 256, w / 256 % 256, w / 65536 % 256, w / 16777216]
    ensures a.Str? ==> EncodeArg(a).bytes == [1, |a.s| % 256, |a.s| / 256, 0, 0] + a.s
  {
    hide LittleEndian32, Low32, IntOf;
    if a.Str? {
      TextBytes(a.s);
      hide EncodeText;
    } else {
      LittleEndian32Bytes(IntOf(a));
    }
  }

  lemma TextBytes(s: Text)
    requires ShortEnough(s)
    ensures EncodeText(s).bytes == [|s| % 256, |s| / 256, 0, 0] + s
  {
    LittleEndian32Bytes(|s|);
    hide LittleEndian32;
  }

  // ---------------------------------------------------------------- reading back

  /** A text can be read exactly when its announced length lies within the limit and within the stream. */
  lemma TextIsReadIff(n: i32, rest: seq<byte>)
    ensures DecodeText(LittleEndian32(n) + rest) ==
            if 0 <= n <= 65535 && n <= |rest| then Got(rest[..n], rest[n..]) else Fails
  {
    var s := LittleEndian32(n) + rest;
    LittleEndian32RoundTrip(n);
    assert s[..4] == LittleEndian32(n) && s[4..] == rest;
  }

  /** Every chunk type but zero announces a text. */
  lemma OtherTypesAreText(t: byte, s: Text, rest: seq<byte>)
    requires t != 0 && ShortEnough(s)
    ensures DecodeChunk([t] + EncodeText(s).bytes + rest) == Got(StrChunk(Unescape(s)), rest)
  {
    assert ([t] + EncodeText(s).bytes + rest)[1..] == EncodeText(s).bytes + rest;
    TextRoundTrip(s, rest);
    TwoPassesAreOne(s);
  }

  lemma IntFieldRoundTrip(v: int, rest: seq<byte>)
    ensures DecodeChunk([FIELD_TYPE_INT] + LittleEndian32(v) + rest) == Got(IntChunk(Wrap32(v)), rest)
  {
    var w := [FIELD_TYPE_INT] + LittleEndian32(v) + rest;
    LittleEndian32RoundTrip(v);
    assert w[1..][..4] == LittleEndian32(v) && w[1..][4..] == rest;
  }

  lemma ArgRoundTrip(a: Arg, rest: seq<byte>)
    requires Acceptable(a)
    ensures DecodeChunk(EncodeArg(a).bytes + rest) == Got(Seen(a), rest)
  {
    if a.Str? {
      TextRoundTrip(a.s, rest);
      TwoPassesAreOne(a.s);
      assert (EncodeArg(a).bytes + rest)[1..] == EncodeText(a.s).bytes + rest;
    } else {
      IntFieldRoundTrip(IntOf(a), rest);
    }
  }

  ghost predicate Supported(args: seq<Arg>) {
    forall i :: 0 <= i < |args| ==> !args[i].Other?
  }

  function SeenAll(args: seq<Arg>): (r: seq<Chunk>)
    requires Supported(args)
    ensures |r| == |args|
  {
    seq(|args|, i requires 0 <= i < |args| => Seen(args[i]))
  }

  /** The message as the far end is meant to see it. */
  function Expected(m: Message): Received
    requires Supported(m.args)
  {
    Received(m.header, SeenAll(m.args))
  }

  lemma {:induction false} ArgsRoundTrip(args: seq<Arg>, rest: seq<byte>)
    requires AllAcceptable(args)
    ensures Supported(args)
    ensures DecodeChunkList(EncodeArgs(args).bytes + rest, |args|) == Got(SeenAll(args), rest)
    decreases args, 1
  {
    if args == [] {
      assert EncodeArgs(args).bytes + rest == rest;
    } else {
      ArgsRoundTripMore(args, rest);
      hide EncodeArgs, DecodeChunkList, SeenAll;
    }
  }

  lemma {:induction false} AcceptableSplit(args: seq<Arg>)
    requires args != [] && AllAcceptable(args)
    ensures Acceptable(args[0]) && EncodeArg(args[0]).ok && AllAcceptable(args[1..])
  {
  }

  lemma {:induction false} EncodeSplit(args: seq<Arg>, rest: seq<byte>)
    requires args != [] && EncodeArg(args[0]).ok
    ensures EncodeArgs(args).bytes + rest == EncodeArg(args[0]).bytes + (EncodeArgs(args[1..]).bytes + rest)
  {
    hide EncodeArg;
    var first, more := EncodeArg(args[0]).bytes, EncodeArgs(args[1..]).bytes;
    assert first + more + rest == first + (more + rest);
  }

  lemma {:induction false} SeenSplit(args: seq<Arg>)
    requires args != [] && Supported(args)
    ensures SeenAll(args) == [Seen(args[0])] + SeenAll(args[1..])
  {
    hide Seen;
  }

  lemma {:induction false} ArgsRoundTripMore(args: seq<Arg>, rest: seq<byte>)
    requires args != [] && AllAcceptable(args) && Supported(args)
    ensures DecodeChunkList(EncodeArgs(args).bytes + rest, |args|) == Got(SeenAll(args), rest)
    decreases args, 0
  {
    hide EncodeArg, EncodeArgs, DecodeChunk, DecodeChunkList, Seen, SeenAll, AllAcceptable, Acceptable;
    AcceptableSplit(args);
    EncodeSplit(args, rest);
    SeenSplit(args);
    var tail := EncodeArgs(args[1..]).bytes + rest;
    ArgRoundTrip(args[0], tail);
    ArgsRoundTrip(args[1..], rest);
    NextChunk(EncodeArg(args[0]).bytes + tail, |args|, Seen(args[0]), tail);
  }

  lemma NextChunk(s: seq<byte>, n: nat, c: Chunk, rest: seq<byte>)
    requires n > 0 && DecodeChunk(s) == Got(c, rest) && DecodeChunkList(rest, n - 1).Got?
    ensures var more := DecodeChunkList(rest, n - 1); DecodeChunkList(s, n) == Got([c] + more.value, more.rest)
  {
    hide DecodeChunk;
  }

  lemma CountRoundTrip(n: nat, tail: seq<byte>)
    requires n < 0x8000_0000
    ensures DecodeChunks(LittleEndian32(n) + tail) == if n <= MAX_CHUNKS then DecodeChunkList(tail, n) else Fails
  {
    var s := LittleEndian32(n) + tail;
    LittleEndian32RoundTrip(n);
    assert s[..4] == LittleEndian32(n) && s[4..] == tail;
  }

  lemma HeaderRoundTrip(m: Message, rest: seq<byte>)
    requires Writable(m) && |m.args| < 0x8000_0000
    ensures DecodeText(EncodeMessage(m).bytes + rest).Got?
    ensures var body := DecodeText(EncodeMessage(m).bytes + rest);
      body.value == m.header && body.rest == LittleEndian32(|m.args|) + (EncodeArgs(m.args).bytes + rest)
  {
    hide EncodeArgs, AllAcceptable;
    var body := LittleEndian32(|m.args|) + (EncodeArgs(m.args).bytes + rest);
    assert EncodeMessage(m).bytes + rest == EncodeText(m.header).bytes + body;
    TextRoundTrip(m.header, body);
  }

  /** One written message is read back, whatever follows it on the stream. */
  lemma MessageRoundTrip(m: Message, rest: seq<byte>)
    requires Writable(m) && |m.args| <= 10
    ensures Supported(m.args)
    ensures DecodeMessage(EncodeMessage(m).bytes + rest) == Got(Expected(m), rest)
  {
    HeaderRoundTrip(m, rest);
    CountRoundTrip(|m.args|, EncodeArgs(m.args).bytes + rest);
    ArgsRoundTrip(m.args, rest);
    hide EncodeMessage, EncodeArgs, DecodeChunkList, DecodeText, SeenAll;
  }

  /** A message of more than ten arguments is written in full and then refused by every reader. */
  lemma TooManyArgsAreRefused(m: Message, rest: seq<byte>)
    requires Writable(m) && 10 < |m.args| < 0x8000_0000
    ensures DecodeMessage(EncodeMessage(m).bytes + rest) == Fails
  {
    HeaderRoundTrip(m, rest);
    CountRoundTrip(|m.args|, EncodeArgs(m.args).bytes + rest);
  }

  function ExpectedAll(ms: seq<Message>): (r: seq<Received>)
    requires forall i :: 0 <= i < |ms| ==> Supported(ms[i].args)
    ensures |r| == |ms| && forall i :: 0 <= i < |ms| ==> r[i] == Expected(ms[i])
  {
    if ms == [] then [] else [Expected(ms[0])] + ExpectedAll(ms[1..])
  }

  ghost predicate Readable(ms: seq<Message>) {
    forall i :: 0 <= i < |ms| ==> Writable(ms[i]) && Supported(ms[i].args) && |ms[i].args| <= 10
  }

  lemma ReadFirst(s: seq<byte>, m: Received, rest: seq<byte>)
    requires DecodeMessage(s) == Got(m, rest)
    ensures DecodeAll(s) == DecodeAll(rest).(messages := [m] + DecodeAll(rest).messages)
  {
  }

  /** Successfully written messages are read back first, whatever follows them in the stream. */
  lemma {:induction false} StreamPrefix(ms: seq<Message>, tail: seq<byte>)
    requires Readable(ms)
    ensures DecodeAll(EncodeAll(ms) + tail) == DecodeAll(tail).(messages := ExpectedAll(ms) + DecodeAll(tail).messages)
  {
    hide DecodeAll, DecodeMessage, EncodeMessage;
    var last := DecodeAll(tail);
    if ms == [] {
      assert EncodeAll(ms) + tail == tail && ExpectedAll(ms) + last.messages == last.messages;
    } else {
      StreamPrefix(ms[1..], tail);
      OneMore(ms, tail, last);
    }
  }

  lemma OneMore(ms: seq<Message>, tail: seq<byte>, last: Reading)
    requires Readable(ms) && ms != []
    requires DecodeAll(EncodeAll(ms[1..]) + tail) == last.(messages := ExpectedAll(ms[1..]) + last.messages)
    ensures DecodeAll(EncodeAll(ms) + tail) == last.(messages := ExpectedAll(ms) + last.messages)
  {
    var first, rest := EncodeMessage(ms[0]).bytes, EncodeAll(ms[1..]) + tail;
    MessageRoundTrip(ms[0], rest);
    EncodeAllSplits(ms, tail);
    ExpectedAllSplits(ms, last.messages);
    hide EncodeMessage, DecodeMessage, EncodeAll, ExpectedAll;
    ReadFirst(first + rest, Expected(ms[0]), rest);
    hide DecodeAll, Expected;
  }

  lemma {:induction false} EncodeAllSplits(ms: seq<Message>, tail: seq<byte>)
    requires ms != []
    ensures EncodeAll(ms) + tail == EncodeMessage(ms[0]).bytes + (EncodeAll(ms[1..]) + tail)
  {
    hide EncodeMessage;
  }

  lemma {:induction false} ExpectedAllSplits(ms: seq<Message>, more: seq<Received>)
    requires ms != [] && forall i :: 0 <= i < |ms| ==> Supported(ms[i].args)
    ensures ExpectedAll(ms) + more == [Expected(ms[0])] + (ExpectedAll(ms[1..]) + more)
  {
  }

  /** Any concatenation of successfully written messages is read back as the same sequence, to the last byte. */
  lemma StreamRoundTrip(ms: seq<Message>)
    requires Readable(ms)
    ensures DecodeAll(EncodeAll(ms)) == Reading(ExpectedAll(ms), [], false)
  {
    StreamPrefix(ms, []);
    assert EncodeAll(ms) + [] == EncodeAll(ms);
  }
}
