/** The WebSocket client of src/model/ws_client.cpp over a byte stream that arrives, and leaves, in
    pieces of any size. A timeout is the end of the input; `room` is what the peer still accepts. */
module WsClient {
  import opened Arith
  import opened Collections
  import opened WsFrame

  const TEXT: nat := 1
  const CONTINUATION: nat := 0
  const CLOSE: nat := 8
  const PING: nat := 9
  const PONG: nat := 10

  /** The answer to a ping: the length byte has room for seven bits only. */
  function PongBytes(key: u32, payload: seq<Byte>): seq<Byte> {
    [TOP_BIT + PONG, TOP_BIT + |payload| % TOP_BIT] + KeyBytes(key) + Masked(payload, KeyBytes(key))
  }

  function PongFrame(key: u32, payload: seq<Byte>): Frame {
    Frame(10, Some(key), payload)
  }

  /** A pong says what the ping said if and only if the ping kept to the 125 bytes that section 5.5 of
      RFC 6455 allows a control frame. */
  lemma {:induction false} PongEchoesIffShort(key: u32, payload: seq<Byte>)
    requires |payload| <= MAX_PAYLOAD
    ensures ParseFrame(PongBytes(key, payload)) == Got(PONG, payload, |PongBytes(key, payload)|)
        <==> |payload| <= 125
  {
    if |payload| <= 125 {
      ShortPongEchoes(key, payload);
    } else {
      LongPongFallsShort(PongBytes(key, payload), payload);
    }
  }

  lemma {:induction false} ShortPongEchoes(key: u32, payload: seq<Byte>)
    requires |payload| <= 125
    ensures ParseFrame(PongBytes(key, payload)) == Got(PONG, payload, |PongBytes(key, payload)|)
  {
    FrameRoundTrip(PongFrame(key, payload), []);
    assert Wire(PongFrame(key, payload)) + [] == PongBytes(key, payload);
  }

  /** The length byte of such a pong announces something else. */
  lemma {:induction false} LongPongFallsShort(pong: seq<Byte>, payload: seq<Byte>)
    requires |payload| > 125 && |pong| == 6 + |payload| && pong[1] == TOP_BIT + |payload| % TOP_BIT
    ensures ParseFrame(pong) != Got(PONG, payload, |pong|)
  {
    assert pong[1..][0] == pong[1];
  }

  function TextOf(key: u32, msg: seq<Byte>): (f: Frame)
    ensures |msg| < U64 ==> ValidFrame(f)
  {
    Frame(TEXT, Some(key), msg)
  }

  // ---- receiving ----

  datatype Outcome =
    | Text(payload: seq<Byte>)
    | Closed
    | Failed

  /** How a call of RecvText ends, what it sends meanwhile, and what it leaves unread. */
  datatype Reception = Reception(outcome: Outcome, sent: seq<Byte>, rest: seq<Byte>)

  /** What RecvText does about the next frame: end, read past it, or answer it. */
  datatype Reaction =
    | End(reception: Reception)
    | Pass(rest: seq<Byte>)
    | Answer(pong: seq<Byte>, rest: seq<Byte>)

  function Decide(opcode: nat, payload: seq<Byte>, rest: seq<Byte>, key: u32, room: nat): Reaction {
    if opcode == TEXT then End(Reception(Text(payload), [], rest))
    else if opcode == CONTINUATION then End(Reception(Text([]), [], rest))
    else if opcode == CLOSE then End(Reception(Closed, [], []))
    else if opcode == PING then
      var pong := PongBytes(key, payload);
      if room < |pong| then End(Reception(Failed, pong[..room], rest)) else Answer(pong, rest)
    else if opcode == PONG then Pass(rest)
    else End(Reception(Failed, [], rest))
  }

  function React(s: seq<Byte>, key: u32, room: nat): (r: Reaction)
    ensures !r.End? ==> |r.rest| < |s|
    ensures r.Answer? ==> |r.pong| <= room
  {
    ParseConsumes(s);
    var p := ParseFrame(s);
    if p.Got? then Decide(p.opcode, p.payload, s[p.consumed..], key, room) else End(Reception(Failed, [], []))
  }

  function Receive(s: seq<Byte>, key: u32, room: nat): Reception {
    match React(s, key, room)
    case End(r) => r
    case Pass(rest) => Receive(rest, key, room)
    case Answer(pong, rest) => Prefixed(pong, Receive(rest, key, room - |pong|))
  }

  /** What was sent earlier comes first. */
  function Prefixed(sent: seq<Byte>, r: Reception): Reception {
    Reception(r.outcome, sent + r.sent, r.rest)
  }

  lemma {:induction false} PrefixedTwice(a: seq<Byte>, b: seq<Byte>, r: Reception)
    ensures Prefixed(a, Prefixed(b, r)) == Prefixed(a + b, r)
  {
    assert a + (b + r.sent) == a + b + r.sent;
  }

  lemma {:induction false} Concatenated(a: seq<Byte>, b: seq<Byte>, c: seq<Byte>)
    ensures a + b + c == a + (b + c)
  {
  }

  lemma {:induction false} ParseConsumes(s: seq<Byte>)
    ensures ParseFrame(s).Got? ==> 2 <= ParseFrame(s).consumed <= |s|
  {
  }

  lemma {:induction false} ReceiveUnfolds(s: seq<Byte>, key: u32, room: nat, r: Reaction)
    requires r == React(s, key, room)
    ensures match r
            case End(reception) => Receive(s, key, room) == reception
            case Pass(rest) => Receive(s, key, room) == Receive(rest, key, room)
            case Answer(pong, rest) =>
              |pong| <= room && Receive(s, key, room) == Prefixed(pong, Receive(rest, key, room - |pong|))
  {
  }

  /** One more reaction, after some pongs have been sent. */
  lemma {:induction false} SentSoFar(
      whole: Reception, acc: seq<Byte>, s: seq<Byte>, key: u32, room: nat, r: Reaction)
    requires r == React(s, key, room) && whole == Prefixed(acc, Receive(s, key, room))
    ensures match r
            case End(reception) => whole == Prefixed(acc, reception)
            case Pass(rest) => whole == Prefixed(acc, Receive(rest, key, room))
            case Answer(pong, rest) =>
              |pong| <= room && whole == Prefixed(acc + pong, Receive(rest, key, room - |pong|))
  {
    ReceiveUnfolds(s, key, room, r);
    if r.Answer? {
      PrefixedTwice(acc, r.pong, Receive(r.rest, key, room - |r.pong|));
    }
  }

  // ---- what a stream of frames brings ----

  /** Frames that RecvText reads past: pings it can answer, and pongs. */
  ghost predicate Passable(frames: seq<Frame>) {
    Readable(frames) && forall i :: 0 <= i < |frames| ==>
      frames[i].opcode == 10 || (frames[i].opcode == 9 && |frames[i].payload| <= 125)
  }

  /** One pong for each ping, in order. */
  function Pongs(frames: seq<Frame>, key: u32): seq<Frame> {
    if frames == [] then []
    else (if frames[0].opcode == 9 then [PongFrame(key, frames[0].payload)] else []) + Pongs(frames[1..], key)
  }

  lemma {:induction false} PongsAreReadable(frames: seq<Frame>, key: u32)
    requires Passable(frames)
    ensures Readable(Pongs(frames, key))
  {
    if frames != [] {
      PongsAreReadable(frames[1..], key);
    }
  }

  lemma {:induction false} ReactToFrame(f: Frame, rest: seq<Byte>, key: u32, room: nat)
    requires ValidFrame(f) && |f.payload| <= MAX_PAYLOAD
    ensures React(Wire(f) + rest, key, room) == Decide(f.opcode, f.payload, rest, key, room)
  {
    FrameRoundTrip(f, rest);
    assert (Wire(f) + rest)[|Wire(f)|..] == rest;
  }

  lemma {:induction false} StreamStep(frames: seq<Frame>, tail: seq<Byte>)
    requires frames != [] && Readable(frames)
    ensures Stream(frames) + tail == Wire(frames[0]) + (Stream(frames[1..]) + tail)
  {
  }

  lemma {:induction false} PongsStep(frames: seq<Frame>, key: u32)
    requires frames != [] && Passable(frames)
    ensures Passable(frames[1..]) && Readable(Pongs(frames, key)) && Readable(Pongs(frames[1..], key))
    ensures Stream(Pongs(frames, key)) ==
            if frames[0].opcode == PONG then Stream(Pongs(frames[1..], key))
            else PongBytes(key, frames[0].payload) + Stream(Pongs(frames[1..], key))
  {
    PongsAreReadable(frames, key);
    PongsAreReadable(frames[1..], key);
    if frames[0].opcode == PONG {
      assert Pongs(frames, key) == Pongs(frames[1..], key);
    } else {
      assert Pongs(frames, key)[1..] == Pongs(frames[1..], key);
    }
  }

  /** What the first frame that is neither ping nor pong decides, after the pongs `sent`: a text is
      delivered, a continuation taken for an empty one; a close and any other frame end in failure. */
  ghost predicate Decides(f: Frame, rest: seq<Byte>, sent: seq<Byte>, r: Reception) {
    && r.sent == sent
    && (f.opcode == 1 ==> r.outcome == Text(f.payload) && r.rest == rest)
    && (f.opcode == 0 ==> r.outcome == Text([]) && r.rest == rest)
    && (f.opcode == 8 ==> r.outcome == Closed)
    && (f.opcode != 0 && f.opcode != 1 && f.opcode != 8 ==> r.outcome == Failed && r.rest == rest)
  }

  /** A stream of unfragmented frames: pings and pongs, then `f`, then more; and room for the pongs. */
  ghost predicate Brings(
      input: seq<Byte>, frames: seq<Frame>, f: Frame, rest: seq<Byte>, key: u32, room: nat) {
    && Passable(frames) && ValidFrame(f) && |f.payload| <= MAX_PAYLOAD && f.opcode != 9 && f.opcode != 10
    && Readable(Pongs(frames, key)) && |Stream(Pongs(frames, key))| <= room
    && input == Stream(frames) + (Wire(f) + rest)
  }

  lemma {:induction false} BroughtIsThere(
      input: seq<Byte>, frames: seq<Frame>, f: Frame, rest: seq<Byte>, key: u32, room: nat)
    requires Brings(input, frames, f, rest, key, room)
    ensures input != []
  {
    assert |Wire(f)| >= 1;
  }

  /** RecvText over any stream of unfragmented frames: past pings and pongs, the first other frame
      decides; one pong per ping has been sent, in order, each a frame that parses back to the ping's
      payload; and what follows is untouched. */
  lemma {:induction false} ReceiveOverFrames(
      input: seq<Byte>, frames: seq<Frame>, f: Frame, rest: seq<Byte>, key: u32, room: nat)
    requires Brings(input, frames, f, rest, key, room)
    ensures Decides(f, rest, Stream(Pongs(frames, key)), Receive(input, key, room))
  {
    AnswersAreThePongs(frames, key);
    var left := room - |Answers(frames, key)|;
    ReceiveDecides(f, rest, key, left);
    ReceivedAfter(frames, Wire(f) + rest, key, left, room);
    assert Answers(frames, key) + [] == Answers(frames, key);
  }

  lemma {:induction false} ReceiveOverAnyFrames(input: seq<Byte>, key: u32, room: nat)
    ensures forall frames, f, rest :: Brings(input, frames, f, rest, key, room) ==>
              input != [] && Decides(f, rest, Stream(Pongs(frames, key)), Receive(input, key, room))
  {
    forall frames, f, rest | Brings(input, frames, f, rest, key, room)
      ensures input != [] && Decides(f, rest, Stream(Pongs(frames, key)), Receive(input, key, room))
    {
      BroughtIsThere(input, frames, f, rest, key, room);
      ReceiveOverFrames(input, frames, f, rest, key, room);
    }
  }

  function Receiver(key: u32): (seq<Byte>, nat) -> Reception {
    (s: seq<Byte>, room: nat) => Receive(s, key, room)
  }

  /** One step of any receiver: it does with the next frame what RecvText does. */
  ghost predicate Stepwise(receive: (seq<Byte>, nat) -> Reception, key: u32, s: seq<Byte>, room: nat) {
    match React(s, key, room)
    case End(r) => receive(s, room) == r
    case Pass(rest) => receive(s, room) == receive(rest, room)
    case Answer(pong, rest) => |pong| <= room && receive(s, room) == Prefixed(pong, receive(rest, room - |pong|))
  }

  lemma {:induction false} ReceiverIsStepwise(key: u32, s: seq<Byte>, room: nat)
    ensures Stepwise(Receiver(key), key, s, room)
  {
    ReceiveUnfolds(s, key, room, React(s, key, room));
  }

  lemma {:induction false} ReceivedPast(
      receive: (seq<Byte>, nat) -> Reception, key: u32, f: Frame, past: seq<Byte>, room: nat)
    requires ValidFrame(f) && Passable([f]) && Stepwise(receive, key, Wire(f) + past, |AnswerTo(f, key)| + room)
    ensures Passing(receive, key, f, past, room)
  {
    assert [f][0] == f;
    ReactToFrame(f, past, key, |AnswerTo(f, key)| + room);
    assert React(Wire(f) + past, key, |AnswerTo(f, key)| + room)
        == if f.opcode == PONG then Pass(past) else Answer(AnswerTo(f, key), past);
    EmptyPrefix(receive(past, room));
  }

  lemma {:induction false} EmptyPrefix(r: Reception)
    ensures Prefixed([], r) == r
  {
    assert [] + r.sent == r.sent;
  }

  lemma {:induction false} AllPass(receive: (seq<Byte>, nat) -> Reception, key: u32)
    requires forall s, n: nat :: Stepwise(receive, key, s, n)
    ensures forall f, past, n: nat :: Passable([f]) ==> Passing(receive, key, f, past, n)
  {
    forall f, past, n: nat | Passable([f])
      ensures Passing(receive, key, f, past, n)
    {
      assert [f][0] == f;
      ReceivedPast(receive, key, f, past, n);
    }
  }

  lemma {:induction false} ReceivedAfter(frames: seq<Frame>, tail: seq<Byte>, key: u32, left: nat, room: nat)
    requires Passable(frames) && room == |Answers(frames, key)| + left
    ensures Receive(Stream(frames) + tail, key, room) == Prefixed(Answers(frames, key), Receive(tail, key, left))
  {
    forall s, n: nat
      ensures Stepwise(Receiver(key), key, s, n)
    {
      ReceiverIsStepwise(key, s, n);
    }
    AnyReceiver(Receiver(key), frames, tail, key, left, room);
  }

  lemma {:induction false} AnyReceiver(receive: (seq<Byte>, nat) -> Reception, frames: seq<Frame>, tail: seq<Byte>,
                                       key: u32, left: nat, room: nat)
    requires Passable(frames) && room == |Answers(frames, key)| + left
    requires forall s, n: nat :: Stepwise(receive, key, s, n)
    ensures receive(Stream(frames) + tail, room) == Prefixed(Answers(frames, key), receive(tail, left))
  {
    AllPass(receive, key);
    PassedOver(receive, frames, tail, key, left);
  }

  /** The bytes sent for some frames. */
  function Answers(frames: seq<Frame>, key: u32): seq<Byte> {
    if frames == [] then [] else AnswerTo(frames[0], key) + Answers(frames[1..], key)
  }

  function AnswerTo(f: Frame, key: u32): seq<Byte> {
    if f.opcode == PING then PongBytes(key, f.payload) else []
  }

  lemma {:induction false} AnswersAreThePongs(frames: seq<Frame>, key: u32)
    requires Passable(frames)
    ensures Readable(Pongs(frames, key)) && Answers(frames, key) == Stream(Pongs(frames, key))
  {
    if frames != [] {
      PongsStep(frames, key);
      AnswersAreThePongs(frames[1..], key);
    }
  }

  /** A frame is read past, its answer sent first. */
  ghost predicate Passing(
      receive: (seq<Byte>, nat) -> Reception, key: u32, f: Frame, past: seq<Byte>, room: nat) {
    && ValidFrame(f)
    && receive(Wire(f) + past, |AnswerTo(f, key)| + room) == Prefixed(AnswerTo(f, key), receive(past, room))
  }

  /** What is received after pings and pongs comes after their answers. */
  lemma {:induction false} PassedOver(receive: (seq<Byte>, nat) -> Reception, frames: seq<Frame>, tail: seq<Byte>,
                                      key: u32, room: nat)
    requires Passable(frames)
    requires forall f, past, n: nat :: Passable([f]) ==> Passing(receive, key, f, past, n)
    ensures receive(Stream(frames) + tail, |Answers(frames, key)| + room)
         == Prefixed(Answers(frames, key), receive(tail, room))
    decreases |frames|
  {
    if frames == [] {
      assert Stream(frames) + tail == tail;
    } else {
      var past := Stream(frames[1..]) + tail;
      PassedOver(receive, frames[1..], tail, key, room);
      assert [frames[0]][0] == frames[0];
      assert Passing(receive, key, frames[0], past, |Answers(frames[1..], key)| + room);
      PassedFirst(receive, frames, past, tail, key, room);
    }
  }

  lemma {:induction false} PassedFirst(receive: (seq<Byte>, nat) -> Reception, frames: seq<Frame>, past: seq<Byte>,
                                       tail: seq<Byte>, key: u32, room: nat)
    requires frames != [] && Readable(frames) && past == Stream(frames[1..]) + tail
    requires Passing(receive, key, frames[0], past, |Answers(frames[1..], key)| + room)
    requires receive(past, |Answers(frames[1..], key)| + room)
          == Prefixed(Answers(frames[1..], key), receive(tail, room))
    ensures receive(Stream(frames) + tail, |Answers(frames, key)| + room)
         == Prefixed(Answers(frames, key), receive(tail, room))
  {
    StreamStep(frames, tail);
    PrefixedTwice(AnswerTo(frames[0], key), Answers(frames[1..], key), receive(tail, room));
  }

  lemma {:induction false} ReceiveDecides(f: Frame, rest: seq<Byte>, key: u32, room: nat)
    requires ValidFrame(f) && |f.payload| <= MAX_PAYLOAD && f.opcode != PING && f.opcode != PONG
    ensures Decides(f, rest, [], Receive(Wire(f) + rest, key, room))
  {
    ReactToFrame(f, rest, key, room);
    ReceiveUnfolds(Wire(f) + rest, key, room, Decide(f.opcode, f.payload, rest, key, room));
  }

  class WsClient {
    var open: bool
    const maskKey: u32
    var input: seq<Byte>
    var room: nat
    var output: seq<Byte>

    constructor (key: u32, input: seq<Byte>, room: nat)
      ensures Valid() && open && maskKey == key && this.input == input && this.room == room && output == []
    {
      open, maskKey := true, key;
      this.input, this.room, output := input, room, [];
    }

    /** Nothing arrives on a closed connection. */
    ghost predicate Valid()
      reads this
    {
      !open ==> input == []
    }

    method Close()
      modifies this`open, this`input
      ensures !open && Valid()
    {
      open, input := false, [];
    }

    /** Some of the bytes that are there, up to `max`; nothing at the end of the input. */
    method Recv(max: nat) returns (chunk: seq<Byte>)
      requires max >= 1
      modifies this`input
      ensures |chunk| <= max && old(input) == chunk + input
      ensures chunk == [] <==> old(input) == []
    {
      if input == [] {
        return [];
      }
      var k :| 1 <= k <= max && k <= |input|;
      chunk := input[..k];
      input := input[k..];
    }

    /** Collects exactly `n` bytes, whatever the pieces; fails if and only if there are fewer. */
    method ReadExact(n: nat) returns (ok: bool, buf: seq<Byte>)
      modifies this`input
      ensures ok <==> |old(input)| >= n
      ensures ok ==> buf == old(input)[..n] && input == old(input)[n..]
      ensures !ok ==> input == []
    {
      buf := [];
      while |buf| < n
        invariant |buf| <= n && old(input) == buf + input
        decreases n - |buf|
      {
        var chunk := Recv(n - |buf|);
        if chunk == [] {
          return false, buf;
        }
        buf := buf + chunk;
      }
      ok := true;
    }

    /** The announced payload length; `first` is the byte after the opcode. */
    method ReadLength(first: Byte) returns (ok: bool, len: nat)
      modifies this`input
      ensures var l := ParseLength([first] + old(input));
              (ok <==> l.Length?) && (ok ==> len == l.n && input == old(input)[l.used - 1..])
      ensures |input| <= |old(input)|
    {
      len := first % TOP_BIT;
      ok := true;
      ghost var s := [first] + input;
      if len == 126 {
        assert |input| >= 2 ==> s[1..3] == input[..2];
        var ext;
        ok, ext := ReadExact(2);
        if ok {
          assert ext[..1] + [ext[1]] == ext && Value(ext[..1]) == ext[0];
          len := ext[0] as nat * 256 + ext[1] as nat;
        }
      } else if len == 127 {
        assert |input| >= 8 ==> s[1..9] == input[..8];
        var ext;
        ok, ext := ReadExact(8);
        if ok {
          len := Accumulate(ext);
        }
      }
    }

    method ReadBody(masked: bool, n: nat) returns (ok: bool, payload: seq<Byte>)
      modifies this`input
      ensures var b := ParseBody(old(input), masked, n);
              (ok <==> b.Some?) && (ok ==> payload == b.value)
      ensures ok ==> n + (if masked then 4 else 0) <= |old(input)|
                     && input == old(input)[n + (if masked then 4 else 0)..]
      ensures |input| <= |old(input)|
    {
      var key := [0, 0, 0, 0];
      if masked {
        ok, key := ReadExact(4);
        if !ok {
          return false, [];
        }
      }
      ok, payload := ReadExact(n);
      if ok && masked {
        payload := Unmask(payload, key);
      }
    }

    /** Reads one frame: exactly what parsing the stream gives, and not a byte more. */
    method ReadFrame() returns (ok: bool, opcode: nat, payload: seq<Byte>)
      modifies this`input
      ensures var p := ParseFrame(old(input));
              && (ok <==> p.Got?)
              && (ok ==> opcode == p.opcode && payload == p.payload)
              && (ok ==> 2 <= p.consumed <= |old(input)| && input == old(input)[p.consumed..])
      ensures |input| <= |old(input)|
    {
      opcode, payload := 0, [];
      ghost var s := input;
      var hdr;
      ok, hdr := ReadExact(2);
      if !ok {
        return;
      }
      opcode := hdr[0] % 16;
      assert s[1..] == [hdr[1]] + input;
      var len;
      ok, len := ReadLength(hdr[1]);
      if !ok || len > MAX_PAYLOAD {
        return false, opcode, payload;
      }
      assert input == s[1 + ParseLength(s[1..]).used..];
      ok, payload := ReadBody(hdr[1] >= TOP_BIT, len);
    }

    /** Sends as the peer takes it; fails if and only if the peer stops first. */
    method SendAll(frame: seq<Byte>) returns (ok: bool)
      modifies this`output, this`room
      ensures ok <==> old(room) >= |frame|
      ensures output == old(output) + frame[..Min(|frame|, old(room))]
      ensures room == old(room) - Min(|frame|, old(room))
    {
      var sent := 0;
      while sent < |frame|
        invariant sent <= |frame| && sent + room == old(room)
        invariant output == old(output) + frame[..sent]
        decreases |frame| - sent
      {
        if room == 0 {
          return false;
        }
        var r :| 1 <= r <= room && r <= |frame| - sent;
        assert frame[..sent + r] == frame[..sent] + frame[sent..sent + r];
        output := output + frame[sent..sent + r];
        room := room - r;
        sent := sent + r;
      }
      ok := true;
      assert frame[..|frame|] == frame;
    }

    /** One masked text frame in wire form. */
    method SendText(msg: seq<Byte>) returns (ok: bool)
      requires |msg| < U64
      modifies this`output, this`room
      ensures ok <==> open && old(room) >= |Wire(TextOf(maskKey, msg))|
      ensures open ==>
                var wire := Wire(TextOf(maskKey, msg));
                output == old(output) + wire[..Min(|wire|, old(room))]
      ensures !open ==> output == old(output)
    {
      if !open {
        return false;
      }
      var frame := TextFrame(maskKey, msg);
      ok := SendAll(frame);
    }

    /** Sends the pong of a ping. */
    method SendPong(payload: seq<Byte>) returns (ok: bool)
      modifies this`output, this`room
      ensures var pong := PongBytes(maskKey, payload);
              && (ok <==> old(room) >= |pong|)
              && output == old(output) + pong[..Min(|pong|, old(room))]
              && room == old(room) - Min(|pong|, old(room))
    {
      var pong := [TOP_BIT + PONG, TOP_BIT + |payload| % TOP_BIT];
      var mask := KeyBytes(maskKey);
      pong := pong + mask;
      ghost var head, masked := pong, Masked(payload, mask);
      for i := 0 to |payload|
        invariant pong == head + masked[..i]
      {
        assert masked[..i + 1] == masked[..i] + [masked[i]];
        pong := pong + [XorByte(payload[i], mask[i % 4])];
      }
      assert masked[..|payload|] == masked;
      ok := SendAll(pong);
    }

    /** By opcode: a text is delivered, a continuation taken for an empty one, a close ends the connection, a
        ping is answered if the peer takes the pong, a pong is passed over, anything else is a failure. */
    ghost predicate ActsOn(p: Parsed, rest: seq<Byte>, output0: seq<Byte>, room0: nat, open0: bool,
                           go: bool, ok: bool, out: seq<Byte>)
      requires p.Got?
      reads this
    {
      && (p.opcode != 8 ==> open == open0)
      && (p.opcode != 9 ==> output == output0)
      && (p.opcode == 1 ==> !go && ok && out == p.payload && input == rest)
      && (p.opcode == 0 ==> !go && ok && out == [] && input == rest)
      && (p.opcode == 8 ==> !go && !ok && !open)
      && (p.opcode == 9 ==>
            var pong := PongBytes(maskKey, p.payload);
            go == ok == (|pong| <= room0) && output == output0 + pong[..Min(|pong|, room0)] && input == rest)
      && (p.opcode == 10 ==> go && input == rest)
      && (p.opcode != 0 && p.opcode != 1 && p.opcode != 8 && p.opcode != 9 && p.opcode != 10 ==>
            !go && !ok && input == rest)
    }

    /** Reads one frame and does what it calls for; `go` says that receiving goes on. */
    method HandleFrame() returns (go: bool, ok: bool, out: seq<Byte>, ghost reaction: Reaction)
      requires Valid()
      modifies this`input, this`output, this`room, this`open
      ensures Valid() && (go ==> ok && open == old(open))
      ensures reaction == React(old(input), maskKey, old(room))
      ensures match reaction
              case End(r) =>
                !go && output == old(output) + r.sent && (ok <==> r.outcome.Text?)
                && (ok ==> out == r.outcome.payload && input == r.rest)
                && open == (old(open) && !r.outcome.Closed?)
              case Pass(rest) => go && input == rest && output == old(output) && room == old(room)
              case Answer(pong, rest) =>
                go && input == rest && output == old(output) + pong && room == old(room) - |pong|
      ensures var p := ParseFrame(old(input));
              if p.Got? then ActsOn(p, old(input)[p.consumed..], old(output), old(room), old(open), go, ok, out)
              else !go && !ok && output == old(output) && open == old(open)
    {
      ParseConsumes(input);
      reaction := React(input, maskKey, room);
      var more, opcode, payload := ReadFrame();
      go, ok, out := false, false, [];
      if more {
        if opcode == TEXT {
          ok, out := true, payload;
        } else if opcode == CONTINUATION {
          ok := true;
        } else if opcode == CLOSE {
          Close();
        } else if opcode == PING {
          ok := SendPong(payload);
          go := ok;
        } else if opcode == PONG {
          go, ok := true, true;
        }
      }
    }

    /** Reads frame after frame until one ends it. */
    method HandleFrames() returns (ok: bool, out: seq<Byte>)
      requires Valid()
      modifies this`input, this`output, this`room, this`open
      ensures Valid()
      ensures var r := Receive(old(input), maskKey, old(room));
              && output == old(output) + r.sent
              && (ok <==> r.outcome.Text?)
              && (ok ==> out == r.outcome.payload && input == r.rest)
              && open == (old(open) && !r.outcome.Closed?)
    {
      ghost var acc: seq<Byte> := [];
      ghost var whole := Receive(input, maskKey, room);
      while true
        invariant Valid() && open == old(open)
        invariant output == old(output) + acc
        invariant whole == Prefixed(acc, Receive(input, maskKey, room))
        decreases |input|
      {
        ghost var s0, room0 := input, room;
        var go;
        ghost var reaction;
        go, ok, out, reaction := HandleFrame();
        SentSoFar(whole, acc, s0, maskKey, room0, reaction);
        if !go {
          Concatenated(old(output), acc, reaction.reception.sent);
          return;
        }
        if reaction.Answer? {
          Concatenated(old(output), acc, reaction.pong);
          acc := acc + reaction.pong;
        }
      }
    }

    /** Receives one text message, answering pings on the way. */
    method RecvText() returns (ok: bool, out: seq<Byte>)
      requires Valid()
      modifies this`input, this`output, this`room, this`open
      ensures Valid()
      ensures var r := Receive(old(input), maskKey, old(room));
              && output == old(output) + r.sent
              && (ok <==> r.outcome.Text?)
              && (ok ==> out == r.outcome.payload && input == r.rest)
              && open == (old(open) && !r.outcome.Closed?)
      ensures forall frames, f, rest :: Brings(old(input), frames, f, rest, maskKey, old(room)) ==>
                && output == old(output) + Stream(Pongs(frames, maskKey))
                && (f.opcode == 1 ==> ok && out == f.payload && input == rest)
                && (f.opcode == 0 ==> ok && out == [] && input == rest)
                && (f.opcode == 8 ==> !ok && !open)
                && (f.opcode != 0 && f.opcode != 1 && f.opcode != 8 ==> !ok && open)
    {
      ReceiveOverAnyFrames(input, maskKey, room);
      ok, out := HandleFrames();
    }
  }

  method Accumulate(ext: seq<Byte>) returns (len: nat)
    ensures len == Value(ext)
  {
    len := 0;
    for i := 0 to |ext|
      invariant len == Value(ext[..i])
    {
      assert ext[..i + 1][..i] == ext[..i];
      len := len * 256 + ext[i];
    }
    assert ext[..|ext|] == ext;
  }

  method Unmask(data: seq<Byte>, key: seq<Byte>) returns (payload: seq<Byte>)
    requires |key| == 4
    ensures payload == Masked(data, key)
  {
    payload := data;
    for i := 0 to |data|
      invariant |payload| == |data|
      invariant forall k :: 0 <= k < i ==> payload[k] == XorByte(data[k], key[k % 4])
      invariant forall k :: i <= k < |data| ==> payload[k] == data[k]
    {
      payload := payload[i := XorByte(payload[i], key[i % 4])];
    }
  }

  /** The frame of a text message, byte by byte. */
  method TextFrame(key: u32, msg: seq<Byte>) returns (frame: seq<Byte>)
    requires |msg| < U64
    ensures frame == Wire(TextOf(key, msg))
  {
    frame := TextHeader(key, msg);
    ghost var header, masked := frame, Masked(msg, KeyBytes(key));
    frame := frame + [key / 0x100_0000];
    frame := frame + [key / 0x1_0000 % 256];
    frame := frame + [key / 0x100 % 256];
    frame := frame + [key % 256];
    assert frame == header + KeyBytes(key);
    for i := 0 to |msg|
      invariant frame == header + KeyBytes(key) + masked[..i]
    {
      assert masked[..i + 1] == masked[..i] + [masked[i]];
      frame := frame + [XorByte(msg[i], KeyBytes(key)[i % 4])];
    }
    assert masked[..|msg|] == masked;
    assert header + KeyBytes(key) + masked == header + (KeyBytes(key) + masked);
  }

  method TextHeader(key: u32, msg: seq<Byte>) returns (frame: seq<Byte>)
    requires |msg| < U64
    ensures frame == Header(TextOf(key, msg))
  {
    var n := |msg|;
    frame := [0x81];
    if n < 126 {
      frame := frame + [TOP_BIT + n];
    } else if n < 65536 {
      frame := frame + [TOP_BIT + 126];
      frame := frame + [n / 256];
      frame := frame + [n % 256];
      assert BigEndian(n, 2) == BigEndian(n / 256 / 256, 0) + [n / 256 % 256] + [n % 256];
    } else {
      frame := frame + [TOP_BIT + 127];
      var ext := LengthBytes(n);
      frame := frame + ext;
    }
  }

  /** A number shifted right by `i` bytes. */
  function Shifted(n: nat, i: nat): nat {
    if i == 0 then n else Shifted(n, i - 1) / 256
  }

  /** The eight length bytes, the most significant first. */
  method LengthBytes(n: nat) returns (ext: seq<Byte>)
    ensures ext == BigEndian(n, 8)
  {
    ext := [];
    var i := 8;
    while i > 0
      invariant 0 <= i <= 8 && ext == BigEndian(Shifted(n, i), 8 - i)
    {
      i := i - 1;
      ext := ext + [Shifted(n, i) % 256];
    }
  }
}
