/** Framed JSON over a stream socket: whatever the chunks, the receiver reads back the frames that were sent. */
module Protocol {
  import opened Wrappers

  newtype Byte = b: int | 0 <= b <= 255
  type Bytes = seq<Byte>

  const PROTOCOL_VERSION := 1
  const MAX_HEADER_BYTES := 64 * 1024
  const MAX_BODY_BYTES := 16 * 1024 * 1024
  const CHUNK := 65_536
  const NEWLINE: Byte := 10

  /** A header field as JSON holds it. */
  datatype Field = Missing | NotAnInt | Int(value: int)

  datatype Header = Header(version: Field, bodyLen: Field, others: string)

  /** JSON text of a header and its reader, which strips the line; `None` is any refusal to read. */
  datatype Codec = Codec(encode: Header -> Bytes, decode: Bytes -> Option<Header>) {
    ghost predicate Lawful() {
      forall h :: NEWLINE !in encode(h) && decode(encode(h) + [NEWLINE]) == Some(h)
    }
  }

  datatype Failure = BodyTooLong | HeaderTooLong | ClosedInHeader | ClosedInFrame | BadHeader | BadBodyLen

  // ----- What the byte stream holds -----

  /** The bytes up to and with the first newline; all of them if there is none. */
  function Line(stream: Bytes): (line: Bytes)
    ensures |line| <= |stream| && stream[..|line|] == line
  {
    if stream == [] then []
    else if stream[0] == NEWLINE then [NEWLINE]
    else
      var rest := Line(stream[1..]);
      assert stream[..1 + |rest|] == [stream[0]] + stream[1..][..|rest|];
      [stream[0]] + rest
  }

  predicate EndsLine(line: Bytes) {
    line != [] && line[|line| - 1] == NEWLINE
  }

  /** The header and how many bytes it took. */
  function ReadHeader(codec: Codec, stream: Bytes): Result<(Header, nat), Failure> {
    var line := Line(stream);
    if |line| > MAX_HEADER_BYTES then Err(HeaderTooLong)
    else if !EndsLine(line) then Err(ClosedInHeader)
    else
      var header := codec.decode(line);
      if header.None? || header.value.version != Int(PROTOCOL_VERSION) then Err(BadHeader)
      else Ok((header.value, |line|))
  }

  /** One frame and what follows it. */
  function ReadFrame(codec: Codec, stream: Bytes): Result<(Header, Bytes, Bytes), Failure> {
    match ReadHeader(codec, stream)
    case Err(e) => Err(e)
    case Ok((header, used)) =>
      var length := header.bodyLen;
      if !length.Int? || length.value < 0 || length.value > MAX_BODY_BYTES then Err(BadBodyLen)
      else if |stream| < used + length.value then Err(ClosedInFrame)
      else if used > |stream| then Err(ClosedInFrame)
      else Ok((header, stream[used..used + length.value], stream[used + length.value..]))
  }

  /** `send_frame`: the version and the body's length are set here. */
  function Stamp(header: Header, body: Bytes): Header {
    header.(version := Int(PROTOCOL_VERSION), bodyLen := Int(|body|))
  }

  function FrameBytes(codec: Codec, header: Header, body: Bytes): Result<Bytes, Failure> {
    if |body| > MAX_BODY_BYTES then Err(BodyTooLong)
    else
      var line := codec.encode(Stamp(header, body));
      if |line| > MAX_HEADER_BYTES then Err(HeaderTooLong) else Ok(line + [NEWLINE] + body)
  }

  // ----- The socket -----

  class Socket {
    /** The bytes the peer still delivers before it closes. */
    var incoming: Bytes
    var sent: Bytes

    constructor (incoming: Bytes)
      ensures this.incoming == incoming && sent == []
    {
      this.incoming := incoming;
      sent := [];
    }

    /** Any nonempty part of what is coming, up to `count` bytes; nothing once the peer has closed. */
    method Recv(count: nat) returns (chunk: Bytes)
      requires count > 0
      modifies this`incoming
      ensures |chunk| <= count && |chunk| <= |old(incoming)|
      ensures chunk == old(incoming)[..|chunk|] && incoming == old(incoming)[|chunk|..]
      ensures chunk == [] <==> old(incoming) == []
    {
      if incoming == [] {
        return [];
      }
      var most := if count <= |incoming| then count else |incoming|;
      var n :| 1 <= n <= most;
      chunk := incoming[..n];
      incoming := incoming[n..];
    }

    method SendAll(data: Bytes)
      modifies this`sent
      ensures sent == old(sent) + data
    {
      sent := sent + data;
    }

    /** `_recv_exact`. */
    method RecvExact(count: nat) returns (r: Result<Bytes, Failure>)
      modifies this`incoming
      ensures if count <= |old(incoming)|
              then r == Ok(old(incoming)[..count]) && incoming == old(incoming)[count..]
              else r == Err(ClosedInFrame) && incoming == []
    {
      var chunks: Bytes := [];
      var remaining := count;
      while remaining > 0
        invariant remaining >= 0 && |chunks| + remaining == count && |chunks| <= |old(incoming)|
        invariant chunks == old(incoming)[..|chunks|] && incoming == old(incoming)[|chunks|..]
      {
        var chunk := Recv(if remaining <= CHUNK then remaining else CHUNK);
        if chunk == [] {
          return Err(ClosedInFrame);
        }
        ghost var all := old(incoming);
        assert all[|chunks|..][|chunk|..] == all[|chunks| + |chunk|..];
        assert all[..|chunks| + |chunk|] == all[..|chunks|] + all[|chunks|..][..|chunk|];
        chunks := chunks + chunk;
        remaining := remaining - |chunk|;
      }
      r := Ok(chunks);
    }

    /** `_recv_header`, a byte at a time. */
    method RecvHeader(codec: Codec) returns (r: Result<Header, Failure>)
      modifies this`incoming
      ensures match ReadHeader(codec, old(incoming))
              case Err(e) => r == Err(e)
              case Ok((header, used)) => r == Ok(header) && used <= |old(incoming)| && incoming == old(incoming)[used..]
    {
      var line: Bytes := [];
      while !EndsLine(line)
        invariant |line| <= |old(incoming)| && |line| <= MAX_HEADER_BYTES
        invariant line == old(incoming)[..|line|] && incoming == old(incoming)[|line|..]
        invariant NEWLINE !in line[..if |line| > 0 then |line| - 1 else 0]
        decreases |old(incoming)| - |line|
      {
        ghost var all := old(incoming);
        var piece := Recv(1);
        if piece == [] {
          NoNewline(line);
          assert all[..|line|] == all;
          return Err(ClosedInHeader);
        }
        assert all[|line|..][1..] == all[|line| + 1..];
        assert all[..|line| + 1] == all[..|line|] + all[|line|..][..1];
        assert NEWLINE !in line by {
          assert line != [] ==> line == line[..|line| - 1] + [line[|line| - 1]];
        }
        line := line + piece;
        assert line[..|line| - 1] == all[..|line| - 1];
        if |line| > MAX_HEADER_BYTES {
          LongLine(all, |line|);
          return Err(HeaderTooLong);
        }
      }
      FirstLine(old(incoming), |line|);
      var header := codec.decode(line);
      if header.None? || header.value.version != Int(PROTOCOL_VERSION) {
        return Err(BadHeader);
      }
      r := Ok(header.value);
    }

    /** `recv_frame`: the result depends on the bytes alone, never on how they arrive. */
    method RecvFrame(codec: Codec) returns (r: Result<(Header, Bytes), Failure>)
      modifies this`incoming
      ensures match ReadFrame(codec, old(incoming))
              case Err(e) => r == Err(e)
              case Ok((header, body, rest)) => r == Ok((header, body)) && incoming == rest
    {
      var header := RecvHeader(codec);
      if header.Err? {
        return Err(header.error);
      }
      var length := header.value.bodyLen;
      if !length.Int? || length.value < 0 || length.value > MAX_BODY_BYTES {
        return Err(BadBodyLen);
      }
      ghost var all, used := old(incoming), ReadHeader(codec, old(incoming)).value.1;
      assert length.value <= |all| - used ==>
               all[used..][..length.value] == all[used..used + length.value]
               && all[used..][length.value..] == all[used + length.value..];
      var body := RecvExact(length.value);
      if body.Err? {
        return Err(body.error);
      }
      r := Ok((header.value, body.value));
    }

    method SendFrame(codec: Codec, header: Header, body: Bytes) returns (r: Result<(), Failure>)
      modifies this`sent
      ensures match FrameBytes(codec, header, body)
              case Err(e) => r == Err(e) && sent == old(sent)
              case Ok(bytes) => r == Ok(()) && sent == old(sent) + bytes
    {
      if |body| > MAX_BODY_BYTES {
        return Err(BodyTooLong);
      }
      var line := codec.encode(header.(version := Int(PROTOCOL_VERSION), bodyLen := Int(|body|)));
      if |line| > MAX_HEADER_BYTES {
        return Err(HeaderTooLong);
      }
      SendAll(line + [NEWLINE] + body);
      r := Ok(());
    }
  }

  // ----- Lines -----

  lemma {:induction false} NoNewline(stream: Bytes)
    requires NEWLINE !in stream
    ensures Line(stream) == stream && !EndsLine(stream)
  {
    if stream != [] {
      NoNewline(stream[1..]);
      assert stream == [stream[0]] + stream[1..];
    }
  }

  lemma {:induction false} FirstLine(stream: Bytes, n: nat)
    requires 0 < n <= |stream| && stream[n - 1] == NEWLINE && NEWLINE !in stream[..n - 1]
    ensures Line(stream) == stream[..n]
    decreases n
  {
    if n > 1 {
      assert stream[0] == stream[..n - 1][0];
      assert stream[1..][..n - 2] == stream[..n - 1][1..];
      FirstLine(stream[1..], n - 1);
      assert stream[..n] == [stream[0]] + stream[1..][..n - 1];
    }
  }

  /** Without a newline before position `n` the line is at least that long. */
  lemma {:induction false} LongLine(stream: Bytes, n: nat)
    requires 0 < n <= |stream| && NEWLINE !in stream[..n - 1]
    ensures |Line(stream)| >= n
    decreases n
  {
    if n > 1 {
      assert stream[0] == stream[..n - 1][0];
      assert stream[1..][..n - 2] == stream[..n - 1][1..];
      LongLine(stream[1..], n - 1);
    }
  }

  // ----- What was sent is what is received -----

  /** A frame the sender accepts is read back, with the stamped header and the same body, and what follows is left
      alone, exactly when its header line is shorter than the cap: the reader counts the newline. */
  lemma SentIsReceivedIff(codec: Codec, header: Header, body: Bytes, rest: Bytes)
    requires codec.Lawful() && FrameBytes(codec, header, body).Ok?
    ensures var line := codec.encode(Stamp(header, body));
            ReadFrame(codec, FrameBytes(codec, header, body).value + rest)
            == if |line| < MAX_HEADER_BYTES then Ok((Stamp(header, body), body, rest)) else Err(HeaderTooLong)
  {
    var line := codec.encode(Stamp(header, body));
    var stream := line + [NEWLINE] + body + rest;
    var used := |line| + 1;
    assert stream[..|line|] == line;
    FirstLine(stream, used);
    assert stream[..used] == line + [NEWLINE];
    if |line| < MAX_HEADER_BYTES {
      assert stream[used..used + |body|] == body && stream[used + |body|..] == rest;
    }
  }

  /** A stream cut anywhere inside a frame is an error, never a partial frame. */
  lemma CutFrameIsError(codec: Codec, header: Header, body: Bytes, n: nat)
    requires codec.Lawful() && FrameBytes(codec, header, body).Ok? && n < |FrameBytes(codec, header, body).value|
    ensures ReadFrame(codec, FrameBytes(codec, header, body).value[..n]).Err?
  {
    var line := codec.encode(Stamp(header, body));
    var all := FrameBytes(codec, header, body).value;
    var stream := all[..n];
    if n <= |line| {
      assert stream == line[..n];
      assert NEWLINE !in stream;
      NoNewline(stream);
    } else {
      assert all[|line|] == NEWLINE && all[..|line|] == line;
      assert stream[..|line|] == line && stream[|line|] == NEWLINE;
      FirstLine(stream, |line| + 1);
      assert stream[..|line| + 1] == line + [NEWLINE];
    }
  }

  /** Frames sent one after the other. */
  function Stream(codec: Codec, frames: seq<(Header, Bytes)>): Bytes {
    if frames == [] then []
    else
      var first := FrameBytes(codec, frames[0].0, frames[0].1);
      (if first.Ok? then first.value else []) + Stream(codec, frames[1..])
  }

  /** Up to `count` frames read one after the other; the first error ends it. */
  function ReadFrames(codec: Codec, stream: Bytes, count: nat): Result<(seq<(Header, Bytes)>, Bytes), Failure> {
    if count == 0 then Ok(([], stream))
    else
      match ReadFrame(codec, stream)
      case Err(e) => Err(e)
      case Ok((header, body, rest)) =>
        match ReadFrames(codec, rest, count - 1)
        case Err(e) => Err(e)
        case Ok((more, end)) => Ok(([(header, body)] + more, end))
  }

  predicate Receivable(codec: Codec, frame: (Header, Bytes)) {
    |frame.1| <= MAX_BODY_BYTES && |codec.encode(Stamp(frame.0, frame.1))| < MAX_HEADER_BYTES
  }

  function Stamped(frames: seq<(Header, Bytes)>): seq<(Header, Bytes)> {
    seq(|frames|, i requires 0 <= i < |frames| => (Stamp(frames[i].0, frames[i].1), frames[i].1))
  }

  lemma ReadsOneThen(codec: Codec, stream: Bytes, frame: (Header, Bytes), rest: Bytes, more: seq<(Header, Bytes)>,
                     end: Bytes, count: nat)
    requires ReadFrame(codec, stream) == Ok((frame.0, frame.1, rest)) && count > 0
    requires ReadFrames(codec, rest, count - 1) == Ok((more, end))
    ensures ReadFrames(codec, stream, count) == Ok(([frame] + more, end))
  {
  }

  lemma StreamUnfolds(codec: Codec, frames: seq<(Header, Bytes)>, rest: Bytes)
    requires frames != [] && FrameBytes(codec, frames[0].0, frames[0].1).Ok?
    ensures Stream(codec, frames) + rest
            == FrameBytes(codec, frames[0].0, frames[0].1).value + (Stream(codec, frames[1..]) + rest)
  {
  }

  lemma StampedUnfolds(frames: seq<(Header, Bytes)>)
    requires frames != []
    ensures Stamped(frames) == [(Stamp(frames[0].0, frames[0].1), frames[0].1)] + Stamped(frames[1..])
  {
  }

  lemma ReceivableIsSent(codec: Codec, frame: (Header, Bytes))
    requires Receivable(codec, frame)
    ensures FrameBytes(codec, frame.0, frame.1).Ok?
  {
  }

  /** Frames sent back to back are received in order, each as it was sent, and nothing is left over. */
  lemma {:induction false} FramesInOrder(codec: Codec, frames: seq<(Header, Bytes)>, rest: Bytes)
    requires codec.Lawful() && forall i :: 0 <= i < |frames| ==> Receivable(codec, frames[i])
    ensures ReadFrames(codec, Stream(codec, frames) + rest, |frames|) == Ok((Stamped(frames), rest))
    decreases |frames|
  {
    if frames == [] {
      assert Stream(codec, frames) + rest == rest && Stamped(frames) == [];
    } else {
      var frame, tail := frames[0], Stream(codec, frames[1..]) + rest;
      ReceivableIsSent(codec, frame);
      StreamUnfolds(codec, frames, rest);
      SentIsReceivedIff(codec, frame.0, frame.1, tail);
      FramesInOrder(codec, frames[1..], rest);
      StampedUnfolds(frames);
      ReadsOneThen(codec, Stream(codec, frames) + rest, (Stamp(frame.0, frame.1), frame.1), tail,
                   Stamped(frames[1..]), rest, |frames|);
    }
  }

  // ----- A header at the cap -----

  /** A number as that many zeros and a one. */
  function Unary(n: nat): (b: Bytes)
    ensures |b| == n + 1 && b[n] == 1 && forall i :: 0 <= i < n ==> b[i] == 0
  {
    if n == 0 then [1] else [0] + Unary(n - 1)
  }

  function Unaries(ns: seq<nat>): (b: Bytes)
    ensures NEWLINE !in b
  {
    if ns == [] then [] else Unary(ns[0]) + Unaries(ns[1..])
  }

  lemma {:induction false} UnariesInjective(a: seq<nat>, b: seq<nat>)
    requires Unaries(a) == Unaries(b)
    ensures a == b
    decreases |a|
  {
    if a != [] && b != [] {
      var all := Unaries(a);
      assert all[a[0]] == 1 && all[b[0]] == 1;
      assert all[a[0] + 1..] == Unaries(a[1..]) && all[b[0] + 1..] == Unaries(b[1..]);
      UnariesInjective(a[1..], b[1..]);
      assert a == [a[0]] + a[1..] && b == [b[0]] + b[1..];
    }
  }

  function FieldNumber(f: Field): nat {
    match f
    case Missing => 0
    case NotAnInt => 1
    case Int(value) => if value >= 0 then 2 + 2 * value else 1 - 2 * value
  }

  lemma FieldNumberInjective(a: Field, b: Field)
    requires FieldNumber(a) == FieldNumber(b)
    ensures a == b
  {
  }

  function HeaderNumbers(h: Header): seq<nat> {
    [FieldNumber(h.version), FieldNumber(h.bodyLen)]
    + seq(|h.others|, i requires 0 <= i < |h.others| => h.others[i] as nat)
  }

  lemma HeaderNumbersInjective(a: Header, b: Header)
    requires HeaderNumbers(a) == HeaderNumbers(b)
    ensures a == b
  {
    var m, n := HeaderNumbers(a), HeaderNumbers(b);
    assert m[0] == n[0] && m[1] == n[1];
    FieldNumberInjective(a.version, b.version);
    FieldNumberInjective(a.bodyLen, b.bodyLen);
    assert |a.others| == |b.others|;
    forall i | 0 <= i < |a.others|
      ensures a.others[i] == b.others[i]
    {
      assert m[i + 2] == n[i + 2];
    }
  }

  function SpelledOut(h: Header): Bytes {
    Unaries(HeaderNumbers(h))
  }

  /** There is a codec that meets what is asked of one. */
  lemma SomeCodecIsLawful() returns (codec: Codec)
    ensures codec.Lawful() && forall h :: codec.encode(h) == SpelledOut(h)
  {
    codec := Codec(h => SpelledOut(h),
                   line => if exists h :: SpelledOut(h) + [NEWLINE] == line then
                             var h :| SpelledOut(h) + [NEWLINE] == line; Some(h)
                           else None);
    forall h, k | SpelledOut(h) + [NEWLINE] == SpelledOut(k) + [NEWLINE]
      ensures h == k
    {
      var line := SpelledOut(h) + [NEWLINE];
      assert line[..|line| - 1] == SpelledOut(h);
      assert (SpelledOut(k) + [NEWLINE])[..|line| - 1] == SpelledOut(k);
      UnariesInjective(HeaderNumbers(h), HeaderNumbers(k));
      HeaderNumbersInjective(h, k);
    }
  }

  lemma {:induction false} UnariesLength(ns: seq<nat>, zeros: nat)
    requires zeros <= |ns| && forall i :: |ns| - zeros <= i < |ns| ==> ns[i] == 0
    ensures |Unaries(ns)| == |Unaries(ns[..|ns| - zeros])| + zeros
    decreases |ns|
  {
    if zeros == |ns| {
      assert ns[..0] == [];
      if ns != [] {
        UnariesLength(ns[1..], zeros - 1);
        assert ns[1..][..0] == [];
      }
    } else {
      UnariesLength(ns[1..], zeros);
      var front := ns[..|ns| - zeros];
      assert front[1..] == ns[1..][..|ns| - 1 - zeros] && front[0] == ns[0];
    }
  }

  /** The sender lets a header line of exactly the cap through, and the receiver refuses it, whatever the codec. */
  lemma HeaderAtCapIsRefused(codec: Codec, header: Header, body: Bytes, rest: Bytes)
    requires codec.Lawful() && |body| <= MAX_BODY_BYTES
    requires |codec.encode(Stamp(header, body))| == MAX_HEADER_BYTES
    ensures FrameBytes(codec, header, body).Ok?
    ensures ReadFrame(codec, FrameBytes(codec, header, body).value + rest) == Err(HeaderTooLong)
  {
    SentIsReceivedIff(codec, header, body, rest);
  }

  /** There is such a header. */
  lemma SomeHeaderIsAtCap() returns (codec: Codec, header: Header)
    ensures codec.Lawful() && |codec.encode(Stamp(header, []))| == MAX_HEADER_BYTES
  {
    codec := SomeCodecIsLawful();
    var padding := seq(MAX_HEADER_BYTES - 8, i => 0 as char);
    header := Stamp(Header(Missing, Missing, padding), []);
    var ns := HeaderNumbers(header);
    UnariesLength(ns, |padding|);
    assert ns[..2] == [4, 2];
    assert ns[..2][1..] == [2] && [2 as nat][1..] == [];
  }
}
