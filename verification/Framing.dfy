/** Length-prefixed frames on a byte stream: a big-endian 32-bit size and then that many bytes. An
    empty frame is a heartbeat. Messages are read into buffers that are reused and that grow. */
module Framing {
  import opened Entries
  import opened Octets

  const SIZE_LEN := 4
  const WORD := 0x1_0000_0000

  // ---- The format ----

  /** A length cut to the 32 bits of the size field. */
  function Low32(n: nat): (r: nat)
    ensures r < WORD && (r == n <==> n < WORD)
  {
    n % WORD
  }

  function Encode(p: Bytes): Bytes { Digits(Low32(|p|), SIZE_LEN) + p }

  function EncodeAll(ps: seq<Bytes>): Bytes {
    if ps == [] then [] else Encode(ps[0]) + EncodeAll(ps[1..])
  }

  datatype Outcome =
    | Frame(payload: Bytes, rest: Bytes)
    | ShortSize                            // the stream ends inside the size
    | TooBig(size: int, rest: Bytes)       // the size exceeds the limit; nothing after it is read
    | ShortData(size: int)                 // the stream ends inside the payload

  /** What one read makes of a stream, for a limit of `max` bytes on a payload. */
  function Parse(s: Bytes, max: int): (o: Outcome)
    ensures o.Frame? ==> |o.rest| < |s|
  {
    if |s| < SIZE_LEN then ShortSize
    else
      var n := BigEndian(s[..SIZE_LEN]);
      if n == 0 then Frame([], s[SIZE_LEN..])
      else if n > max then TooBig(n, s[SIZE_LEN..])
      else if |s| - SIZE_LEN < n then ShortData(n)
      else Frame(s[SIZE_LEN..SIZE_LEN + n], s[SIZE_LEN + n..])
  }

  /** Payloads that can be sent: the size fits into its field and the receiver's limit. */
  predicate Fits(p: Bytes, max: int) { |p| < WORD && (p == [] || |p| <= max) }

  lemma SizeRoundTrip(n: nat)
    requires n < WORD
    ensures BigEndian(Digits(n, SIZE_LEN)) == n
  {
    FourBytes();
    DigitsRoundTrip(n, SIZE_LEN);
  }

  lemma SizeEncoded(h: Bytes, p: Bytes)
    requires |h| == SIZE_LEN && BigEndian(h) == |p|
    ensures |p| < WORD && Encode(p) == h + p
  {
    FourBytes();
    BigEndianUnique(h);
  }

  /** Reading a frame returns the payload that was sent and leaves what follows it, exactly when
      the payload fits. */
  lemma FrameRoundTrip(p: Bytes, rest: Bytes, max: int)
    ensures Parse(Encode(p) + rest, max) == Frame(p, rest) <==> Fits(p, max)
  {
    var s := Encode(p) + rest;
    assert s[..SIZE_LEN] == Digits(Low32(|p|), SIZE_LEN);
    SizeRoundTrip(Low32(|p|));
    if |p| < WORD {
      assert s[SIZE_LEN..SIZE_LEN + |p|] == p;
      assert s[SIZE_LEN + |p|..] == rest;
    }
  }

  lemma FrameParts(s: Bytes, max: int)
    requires Parse(s, max).Frame?
    ensures |s| >= SIZE_LEN
    ensures var p := Parse(s, max).payload;
            |p| == BigEndian(s[..SIZE_LEN]) && (p == [] || |p| <= max) && s == s[..SIZE_LEN] + p + Parse(s, max).rest
  {
  }

  /** Conversely, whatever is read as a frame is the encoding of its payload: no two payloads share
      an encoding, and none is the beginning of another. */
  lemma FrameUnique(s: Bytes, max: int)
    requires Parse(s, max).Frame?
    ensures Fits(Parse(s, max).payload, max)
    ensures s == Encode(Parse(s, max).payload) + Parse(s, max).rest
  {
    FrameParts(s, max);
    SizeEncoded(s[..SIZE_LEN], Parse(s, max).payload);
  }

  // ---- Whole streams ----

  /** All payloads read before the stream ends or breaks. */
  function ReadAll(s: Bytes, max: int): seq<Bytes>
    decreases |s|
  {
    match Parse(s, max)
    case Frame(p, rest) => [p] + ReadAll(rest, max)
    case _ => []
  }

  /** How reading ends. */
  function Ending(s: Bytes, max: int): (o: Outcome)
    ensures !o.Frame?
    decreases |s|
  {
    match Parse(s, max)
    case Frame(_, rest) => Ending(rest, max)
    case o => o
  }

  predicate AllFit(ps: seq<Bytes>, max: int) {
    forall i :: 0 <= i < |ps| ==> Fits(ps[i], max)
  }

  lemma FirstFrame(p: Bytes, rest: Bytes, max: int)
    requires Fits(p, max)
    ensures ReadAll(Encode(p) + rest, max) == [p] + ReadAll(rest, max)
    ensures Ending(Encode(p) + rest, max) == Ending(rest, max)
  {
    FrameRoundTrip(p, rest, max);
  }

  lemma Whole(ps: seq<Bytes>, qs: seq<Bytes>)
    requires ps != []
    ensures [ps[0]] + (ps[1..] + qs) == ps + qs
  {
  }

  /** Reading what was sent gives exactly the payloads, in order, and then goes on with the rest. */
  lemma {:induction false} StreamRoundTrip(ps: seq<Bytes>, rest: Bytes, max: int)
    requires AllFit(ps, max)
    ensures ReadAll(EncodeAll(ps) + rest, max) == ps + ReadAll(rest, max)
    ensures Ending(EncodeAll(ps) + rest, max) == Ending(rest, max)
    decreases |ps|
  {
    if ps == [] {
      assert EncodeAll(ps) + rest == rest;
    } else {
      var tail := EncodeAll(ps[1..]) + rest;
      assert EncodeAll(ps) + rest == Encode(ps[0]) + tail;
      FirstFrame(ps[0], tail, max);
      StreamRoundTrip(ps[1..], rest, max);
      Whole(ps, ReadAll(rest, max));
    }
  }

  /** Any stream at all is the encoding of what is read from it, followed by what is not. */
  lemma {:induction false} StreamUnique(s: Bytes, max: int)
    ensures AllFit(ReadAll(s, max), max)
    ensures EncodeAll(ReadAll(s, max)) <= s
    decreases |s|
  {
    if Parse(s, max).Frame? {
      var p, rest := Parse(s, max).payload, Parse(s, max).rest;
      FrameUnique(s, max);
      StreamUnique(rest, max);
      var ps := ReadAll(s, max);
      assert ps[0] == p && ps[1..] == ReadAll(rest, max);
    }
  }

  /** A frame that is cut short is reported as such: inside its size, or inside its payload. */
  lemma Truncated(p: Bytes, s: Bytes, max: int)
    requires Fits(p, max) && s <= Encode(p) && s != Encode(p)
    ensures Parse(s, max) == if |s| < SIZE_LEN then ShortSize else ShortData(|p|)
  {
    SizeRoundTrip(Low32(|p|));
    assert |s| >= SIZE_LEN ==> s[..SIZE_LEN] == Encode(p)[..SIZE_LEN] == Digits(Low32(|p|), SIZE_LEN);
    assert |s| == |Encode(p)| ==> s == Encode(p);
  }

  /** A frame over the limit is refused with its size, and nothing of its payload is read. */
  lemma Oversize(p: Bytes, rest: Bytes, max: int)
    requires p != [] && max < |p| < WORD
    ensures Parse(Encode(p) + rest, max) == TooBig(|p|, p + rest)
  {
    var s := Encode(p) + rest;
    assert s[..SIZE_LEN] == Digits(Low32(|p|), SIZE_LEN);
    SizeRoundTrip(|p|);
    assert s[SIZE_LEN..] == p + rest;
  }

  /** Cut anywhere, a stream still yields only payloads that were sent, from the first one on. */
  lemma {:induction false} CutStream(ps: seq<Bytes>, s: Bytes, max: int)
    requires AllFit(ps, max) && s <= EncodeAll(ps)
    ensures ReadAll(s, max) <= ps
    decreases |ps|
  {
    if ps != [] {
      var f := Encode(ps[0]);
      if |f| <= |s| {
        var tail := s[|f|..];
        assert f == EncodeAll(ps)[..|f|] == s[..|f|];
        assert s == f + tail;
        assert tail <= EncodeAll(ps[1..]) by { assert EncodeAll(ps)[|f|..] == EncodeAll(ps[1..]); }
        FrameRoundTrip(ps[0], tail, max);
        CutStream(ps[1..], tail, max);
      } else {
        assert s <= f;
        Truncated(ps[0], s, max);
      }
    }
  }

  // ---- Heartbeats ----

  /** The next frame that is not a heartbeat, or the error that comes before it. */
  function NextRequest(s: Bytes, max: int): (o: Outcome)
    ensures o.Frame? ==> |o.rest| < |s| && o.payload != []
    decreases |s|
  {
    match Parse(s, max)
    case Frame(p, rest) => if p == [] then NextRequest(rest, max) else Frame(p, rest)
    case o => o
  }

  function Filled(ps: seq<Bytes>): seq<Bytes> {
    if ps == [] then [] else (if ps[0] == [] then [] else [ps[0]]) + Filled(ps[1..])
  }

  lemma {:induction false} FilledAppend(ps: seq<Bytes>, qs: seq<Bytes>)
    ensures Filled(ps + qs) == Filled(ps) + Filled(qs)
    decreases |ps|
  {
    if ps == [] {
      assert ps + qs == qs;
    } else {
      assert (ps + qs)[1..] == ps[1..] + qs && (ps + qs)[0] == ps[0];
      FilledAppend(ps[1..], qs);
      var head := if ps[0] == [] then [] else [ps[0]];
      assert head + (Filled(ps[1..]) + Filled(qs)) == (head + Filled(ps[1..])) + Filled(qs);
    }
  }

  lemma {:induction false} FilledAll(ps: seq<Bytes>)
    requires forall i :: 0 <= i < |ps| ==> ps[i] != []
    ensures Filled(ps) == ps
    decreases |ps|
  {
    if ps != [] { FilledAll(ps[1..]); }
  }

  /** Dropping the empty payloads keeps all others, in order: a list without heartbeats is kept, and
      a heartbeat anywhere in a list makes no difference. */
  lemma {:induction false} FilledExact(ps: seq<Bytes>, qs: seq<Bytes>)
    ensures (forall i :: 0 <= i < |ps| ==> ps[i] != []) ==> Filled(ps) == ps
    ensures Filled(ps + ([[]] + qs)) == Filled(ps + qs)
  {
    if forall i :: 0 <= i < |ps| ==> ps[i] != [] { FilledAll(ps); }
    FilledAppend(ps, qs);
    FilledAppend(ps, [[]] + qs);
    assert ([[]] + qs)[1..] == qs;
  }

  /** Skipping heartbeats one request at a time is dropping the empty payloads of the stream. */
  lemma {:induction false} RequestsAreFilled(s: Bytes, max: int)
    ensures var o := NextRequest(s, max); var all := Filled(ReadAll(s, max));
            if o.Frame? then all == [o.payload] + Filled(ReadAll(o.rest, max)) && Ending(s, max) == Ending(o.rest, max)
            else all == [] && Ending(s, max) == o
    decreases |s|
  {
    var o := Parse(s, max);
    if o.Frame? {
      var all := ReadAll(s, max);
      assert all[0] == o.payload && all[1..] == ReadAll(o.rest, max);
      RequestsAreFilled(o.rest, max);
    }
  }

  // ---- Sending ----

  /** A scratch buffer, with whatever an earlier use left in it. */
  class Buffer {
    var bytes: Bytes

    method Reset()
      modifies this
      ensures bytes == []
    {
      bytes := [];
    }

    method Write(more: Bytes)
      modifies this
      ensures bytes == old(bytes) + more
    {
      bytes := bytes + more;
    }
  }

  /** The frame handed to the sender. */
  method SendBytes(data: Bytes, buf: Buffer) returns (frame: Bytes)
    modifies buf
    ensures frame == Encode(data)
  {
    buf.Reset();
    buf.Write(Digits(Low32(|data|), SIZE_LEN));
    if |data| > 0 { buf.Write(data); }
    frame := buf.bytes;
  }

  // ---- Reading into a reused buffer ----

  /** A connection's incoming bytes, ending where `stream` does. */
  class Reader {
    var stream: Bytes

    constructor (stream: Bytes)
      ensures this.stream == stream
    {
      this.stream := stream;
    }

    /** One read returns some of the wanted bytes, however many have arrived. */
    method Read(buf: array<Octet>, from: nat, upto: nat) returns (k: nat)
      requires from < upto <= buf.Length && stream != []
      modifies this, buf
      ensures 1 <= k <= upto - from && k <= |old(stream)|
      ensures stream == old(stream)[k..]
      ensures forall j :: 0 <= j < from ==> buf[j] == old(buf[j])
      ensures forall j :: 0 <= j < k ==> buf[from + j] == old(stream)[j]
    {
      k :| 1 <= k <= upto - from && k <= |stream|;
      var i := 0;
      while i < k
        invariant 0 <= i <= k && stream == old(stream)
        invariant forall j :: 0 <= j < from ==> buf[j] == old(buf[j])
        invariant forall j :: 0 <= j < i ==> buf[from + j] == stream[j]
      {
        buf[from + i] := stream[i];
        i := i + 1;
      }
      stream := stream[k..];
    }

    /** Fill the first `n` bytes of the buffer, in as many reads as it takes, or fail at the end. */
    method ReadFull(buf: array<Octet>, n: nat) returns (ok: bool)
      requires n <= buf.Length
      modifies this, buf
      ensures ok <==> n <= |old(stream)|
      ensures ok ==> buf[..n] == old(stream)[..n] && stream == old(stream)[n..]
      ensures !ok ==> stream == []
    {
      var got := 0;
      while got < n && stream != []
        invariant 0 <= got <= n && got <= |old(stream)|
        invariant stream == old(stream)[got..] && buf[..got] == old(stream)[..got]
        decreases n - got
      {
        ghost var was, before := buf[..got], stream;
        var k := Read(buf, got, n);
        assert buf[..got] == was;
        assert buf[got..got + k] == before[..k] == old(stream)[got..got + k];
        assert buf[..got + k] == buf[..got] + buf[got..got + k];
        got := got + k;
      }
      ok := got == n;
    }
  }

  datatype ReadError = SizeFrame | ExceedsLimit(size: int) | DataFrame

  /** `data` stands for the whole capacity of the message's slice. */
  class Message {
    var data: array<Octet>
    var size: int

    constructor ()
      ensures Ready() && fresh(data) && size == 0 && data.Length == 4 * 1024
    {
      data := new Octet[4 * 1024](_ => 0);
      size := 0;
    }

    /** Room for at least the size field. */
    ghost predicate Ready()
      reads this
    {
      data.Length >= SIZE_LEN
    }

    function Payload(): Bytes
      requires 0 <= size <= data.Length
      reads this, data
    {
      data[..size]
    }

    method Reset()
      modifies this`size
      ensures size == 0
    {
      size := 0;
    }

    /** Append to the full slice: a new array with the old bytes and room for `n`. */
    method Grow(n: int)
      requires n > data.Length
      modifies this`data
      ensures fresh(data) && data.Length >= n
      ensures data[..old(data.Length)] == old(data[..])
    {
      var was := data;
      var room :| room >= n;
      var bigger := new Octet[room](i requires 0 <= i reads was => if i < was.Length then was[i] else 0);
      data := bigger;
    }
  }

  /** What a read that met this outcome leaves in the message and of the stream. */
  ghost predicate Left(o: Outcome, err: Option<ReadError>, msg: Message, r: Reader)
    reads msg, msg.data, r
  {
    match o
    case Frame(p, rest) => err == None && msg.size == |p| <= msg.data.Length && msg.Payload() == p && r.stream == rest
    case ShortSize => err == Some(SizeFrame) && r.stream == []
    case TooBig(n, rest) => err == Some(ExceedsLimit(n)) && msg.size == n && r.stream == rest
    case ShortData(n) => err == Some(DataFrame) && msg.size == n && r.stream == []
  }

  /** Read one frame; what the buffer held before does not matter. */
  method ReadMessage(r: Reader, msg: Message, max: int) returns (err: Option<ReadError>)
    requires msg.Ready()
    modifies r, msg, msg.data
    ensures msg.Ready() && msg.data.Length >= old(msg.data.Length)
    ensures msg.data == old(msg.data) || fresh(msg.data)
    ensures Left(Parse(old(r.stream), max), err, msg, r)
  {
    var s := r.stream;
    var ok := r.ReadFull(msg.data, SIZE_LEN);
    if !ok { return Some(SizeFrame); }
    msg.size := BigEndian(msg.data[..SIZE_LEN]);
    if msg.size == 0 { return None; }
    if msg.size > max { return Some(ExceedsLimit(msg.size)); }
    if msg.size > msg.data.Length { msg.Grow(msg.size); }
    ok := r.ReadFull(msg.data, msg.size);
    if !ok { return Some(DataFrame); }
    return None;
  }

  /** Buffers waiting to be reused. No two share an array, and none is left out of step. */
  class MessagePool {
    var free: seq<Message>

    ghost predicate Valid()
      reads this, free
    {
      && (forall i :: 0 <= i < |free| ==> free[i].Ready())
      && (forall i, j :: 0 <= i < j < |free| ==> free[i] != free[j] && free[i].data != free[j].data)
    }

    ghost function Arrays(): set<array<Octet>>
      reads this, free
    {
      set m | m in free :: m.data
    }

    constructor ()
      ensures Valid() && free == []
    {
      free := [];
    }

    method Get() returns (msg: Message)
      requires Valid()
      modifies this, free
      ensures Valid() && msg.Ready() && msg.size == 0
      ensures if old(free) == [] then free == [] && fresh(msg) && fresh(msg.data)
              else msg == old(free)[0] && free == old(free)[1..] && msg.data == old(msg.data)
      ensures forall i :: 0 <= i < |free| ==> free[i] != msg && free[i].data != msg.data
      ensures forall m :: m in old(free) ==> m.data == old(m.data)
    {
      if free != [] {
        msg := free[0];
        free := free[1..];
        msg.Reset();
      } else {
        msg := new Message();
      }
    }

    method Put(msg: Message)
      requires Valid() && msg.Ready()
      requires forall i :: 0 <= i < |free| ==> free[i] != msg && free[i].data != msg.data
      modifies this`free
      ensures Valid()
      ensures free == if |old(free)| < 1024 then old(free) + [msg] else old(free)
    {
      if |free| < 1024 { free := free + [msg]; }
    }
  }

  /** What the caller gets from a stream whose next request is this. */
  predicate Gives(o: Outcome, payload: Option<Bytes>, err: Option<ReadError>, rest: Bytes) {
    match o
    case Frame(p, tail) => payload == Some(p) && err == None && rest == tail
    case ShortSize => payload == None && err == Some(SizeFrame)
    case TooBig(n, _) => payload == None && err == Some(ExceedsLimit(n))
    case ShortData(_) => payload == None && err == Some(DataFrame)
  }

  /** Read frames into the same buffer until one is not a heartbeat. */
  method ReadRequest(r: Reader, msg: Message, max: int) returns (payload: Option<Bytes>, err: Option<ReadError>)
    requires msg.Ready()
    modifies r, msg, msg.data
    ensures msg.Ready() && (msg.data == old(msg.data) || fresh(msg.data))
    ensures Gives(NextRequest(old(r.stream), max), payload, err, r.stream)
  {
    while true
      invariant msg.Ready() && (msg.data == old(msg.data) || fresh(msg.data))
      invariant NextRequest(r.stream, max) == NextRequest(old(r.stream), max)
      decreases |r.stream|
    {
      err := ReadMessage(r, msg, max);
      if err.Some? { return None, err; }
      if msg.size > 0 { return Some(msg.Payload()), None; }
    }
  }

  /** Receive one request through a pooled buffer, which goes back to the pool. */
  method Recv(r: Reader, pool: MessagePool, max: int) returns (payload: Option<Bytes>, err: Option<ReadError>)
    requires pool.Valid()
    modifies r, pool, pool.free, pool.Arrays()
    ensures pool.Valid()
    ensures forall m :: m in pool.free ==> (fresh(m) || m in old(pool.free)) && (fresh(m.data) || m.data in old(pool.Arrays()))
    ensures Gives(NextRequest(old(r.stream), max), payload, err, r.stream)
  {
    var msg := pool.Get();
    payload, err := ReadRequest(r, msg, max);
    pool.Put(msg);
  }

  lemma Onward(done: seq<Bytes>, p: Bytes, rest: seq<Bytes>)
    ensures done + ([p] + rest) == (done + [p]) + rest
  {
  }

  /** A session's reading loop: requests until the first error. The buffers that carried earlier
      frames leave no trace in what is returned. */
  method ReceiveRequests(r: Reader, pool: MessagePool, max: int) returns (requests: seq<Bytes>, err: ReadError)
    requires pool.Valid()
    modifies r, pool, pool.free, pool.Arrays()
    ensures pool.Valid()
    ensures requests == Filled(ReadAll(old(r.stream), max))
    ensures match Ending(old(r.stream), max)
            case ShortSize => err == SizeFrame
            case TooBig(n, _) => err == ExceedsLimit(n)
            case ShortData(_) => err == DataFrame
            case Frame(_, _) => false
  {
    requests := [];
    while true
      invariant pool.Valid()
      invariant forall m :: m in pool.free ==> (fresh(m) || m in old(pool.free)) && (fresh(m.data) || m.data in old(pool.Arrays()))
      invariant Filled(ReadAll(old(r.stream), max)) == requests + Filled(ReadAll(r.stream, max))
      invariant Ending(r.stream, max) == Ending(old(r.stream), max)
      decreases |r.stream|
    {
      RequestsAreFilled(r.stream, max);
      var payload, failure := Recv(r, pool, max);
      if failure.Some? { return requests, failure.value; }
      Onward(requests, payload.value, Filled(ReadAll(r.stream, max)));
      requests := requests + [payload.value];
    }
  }

  /** What a session receives of a stream that carries these payloads and then ends cleanly: the
      non-empty ones, in order. */
  lemma SentIsReceived(ps: seq<Bytes>, max: int)
    requires AllFit(ps, max)
    ensures Filled(ReadAll(EncodeAll(ps), max)) == Filled(ps) && Ending(EncodeAll(ps), max) == ShortSize
  {
    StreamRoundTrip(ps, [], max);
    assert EncodeAll(ps) + [] == EncodeAll(ps);
    assert ps + ReadAll([], max) == ps;
  }
}
