/** The packet codec: a head of a 16-bit id and a 32-bit length in network order, then the payload. */
module Codec {
  import opened Collections
  import R = Ring
  import RI = RingIndex

  newtype Byte = x: int | 0 <= x < 256

  const HEADER_SIZE: nat := 6
  const MAX_ID: nat := 0xffff
  const RPC_REQUEST_ID: nat := MAX_ID - 1
  const RPC_RESPONSE_ID: nat := MAX_ID - 2
  const RPC_NOTIFY_ID: nat := MAX_ID - 3

  // ---- Packets ---------------------------------------------------------------------------------

  datatype Flag = Readable | Writeable | CallRequest | CallResponse | CallNotify

  datatype Packet = Packet(id: nat, payload: seq<Byte>, flags: set<Flag>)

  /** packet::Basic::Impl::set_flag: clearing any flag clears the readable one. */
  function SetFlag(flags: set<Flag>, on: bool, flag: Flag): set<Flag> {
    if on then flags + {flag} else flags - {Readable}
  }

  /** Clearing a flag takes away that flag and no other exactly if it is the readable one, or neither it
      nor the readable one was set. */
  lemma ClearingExactly(flags: set<Flag>, flag: Flag)
    ensures SetFlag(flags, false, flag) == flags - {flag}
            <==> flag == Readable || (flag !in flags && Readable !in flags)
  {
    assert flag != Readable && flag in flags ==> flag in SetFlag(flags, false, flag);
    assert flag != Readable && Readable in flags ==> Readable in flags - {flag};
  }

  /** packet::Basic::write */
  function WriteTo(p: Packet, bytes: seq<Byte>): Packet {
    if Writeable in p.flags then p.(payload := p.payload + bytes) else p
  }

  /** Nothing is written to a packet that is not writeable, and to one that is only at the end of its payload. */
  lemma WritesBehind(p: Packet, bytes: seq<Byte>)
    ensures WriteTo(p, bytes) == Packet(p.id, if Writeable in p.flags then p.payload + bytes else p.payload, p.flags)
  {
  }

  /** The packet decode makes of an id and a payload. */
  function Made(id: nat, payload: seq<Byte>): Packet {
    var p0 := Packet(id, [], SetFlag({}, true, Writeable));
    var p1 := WriteTo(p0, payload);
    var p2 := p1.(flags := SetFlag(SetFlag(p1.flags, false, Writeable), true, Readable));
    if id == RPC_REQUEST_ID then p2.(flags := SetFlag(p2.flags, true, CallRequest))
    else if id == RPC_RESPONSE_ID then p2.(flags := SetFlag(p2.flags, true, CallResponse))
    else if id == RPC_NOTIFY_ID then p2.(flags := SetFlag(p2.flags, true, CallNotify))
    else p2
  }

  /** A decoded packet can be read; it can also still be written, although decode has asked otherwise. */
  lemma MadeIs(id: nat, payload: seq<Byte>)
    ensures
      var p := Made(id, payload);
      && p.id == id && p.payload == payload && Readable in p.flags && Writeable in p.flags
      && (CallRequest in p.flags <==> id == 65534)
      && (CallResponse in p.flags <==> id == 65533)
      && (CallNotify in p.flags <==> id == 65532)
  {
  }

  // ---- The wire --------------------------------------------------------------------------------

  function Be16(n: nat): seq<Byte>
    requires n < 0x1_0000
  {
    [(n / 0x100) as Byte, (n % 0x100) as Byte]
  }

  function Be32(n: nat): seq<Byte>
    requires n < 0x1_0000_0000
  {
    Be16(n / 0x1_0000) + Be16(n % 0x1_0000)
  }

  function From16(s: seq<Byte>): nat
    requires |s| == 2
  {
    (s[0] as int) * 0x100 + s[1] as int
  }

  function From32(s: seq<Byte>): nat
    requires |s| == 4
  {
    From16(s[..2]) * 0x1_0000 + From16(s[2..])
  }

  lemma RoundTrip16(n: nat)
    requires n < 0x1_0000
    ensures From16(Be16(n)) == n
  {
  }

  lemma Back16(s: seq<Byte>)
    requires |s| == 2
    ensures From16(s) < 0x1_0000 && Be16(From16(s)) == s
  {
  }

  lemma RoundTrip32(n: nat)
    requires n < 0x1_0000_0000
    ensures From32(Be32(n)) == n
  {
    RoundTrip16(n / 0x1_0000);
    RoundTrip16(n % 0x1_0000);
    assert Be32(n)[..2] == Be16(n / 0x1_0000) && Be32(n)[2..] == Be16(n % 0x1_0000);
  }

  lemma Back32(s: seq<Byte>)
    requires |s| == 4
    ensures From32(s) < 0x1_0000_0000 && Be32(From32(s)) == s
  {
    hide From16, Be16;
    var a, b := From16(s[..2]), From16(s[2..]);
    Back16(s[..2]);
    Back16(s[2..]);
    HighLow(a, b);
    assert s == s[..2] + s[2..];
  }

  lemma HighLow(a: nat, b: nat)
    requires b < 0x1_0000
    ensures (a * 0x1_0000 + b) / 0x1_0000 == a && (a * 0x1_0000 + b) % 0x1_0000 == b
  {
  }

  datatype Limit = Limit(maxId: nat, maxLength: nat)

  datatype Frame = Frame(id: nat, payload: seq<Byte>)

  /** What can be sent under the limits. */
  predicate Within(f: Frame, limit: Limit) {
    0 < f.id <= limit.maxId && f.id <= MAX_ID && |f.payload| <= limit.maxLength && |f.payload| < 0x1_0000_0000
  }

  /** encode; the length is cut to 32 bits. */
  function Encode(f: Frame): (r: seq<Byte>)
    requires f.id <= MAX_ID
    ensures |r| == HEADER_SIZE + |f.payload|
  {
    Be16(f.id) + Be32(|f.payload| % 0x1_0000_0000) + f.payload
  }

  /** The frame byte by byte: the id and the length in network order, the most significant byte first, and
      the payload behind them. */
  lemma EncodedBytes(f: Frame)
    requires f.id <= MAX_ID && |f.payload| < 0x1_0000_0000
    ensures
      var r := Encode(f);
      && |r| == 6 + |f.payload|
      && r[0] as int * 256 + r[1] as int == f.id
      && ((r[2] as int * 256 + r[3] as int) * 256 + r[4] as int) * 256 + r[5] as int == |f.payload|
      && r[6..] == f.payload
  {
    var hi, lo := |f.payload| / 0x1_0000, |f.payload| % 0x1_0000;
    assert hi / 0x100 * 0x100 + hi % 0x100 == hi && lo / 0x100 * 0x100 + lo % 0x100 == lo;
  }

  datatype Outcome = CantFill | Invalid | NeedRecv | Got(frame: Frame)

  /** What decode makes of the bytes that wait in a stream. */
  function Parse(s: seq<Byte>, limit: Limit): (r: Outcome)
    ensures r.Got? ==> HEADER_SIZE + |r.frame.payload| <= |s|
  {
    if |s| < HEADER_SIZE then CantFill
    else
      var id, length := From16(s[..2]), From32(s[2..6]);
      if id == 0 || id > limit.maxId || length > limit.maxLength then Invalid
      else if length + HEADER_SIZE > |s| then NeedRecv
      else Got(Frame(id, s[HEADER_SIZE..HEADER_SIZE + length]))
  }

  /** And the bytes a decoder reads them from, with the limits it tests. */
  lemma ParsedBytes(s: seq<Byte>, limit: Limit)
    requires |s| >= 6
    ensures
      var id := s[0] as int * 256 + s[1] as int;
      var length := ((s[2] as int * 256 + s[3] as int) * 256 + s[4] as int) * 256 + s[5] as int;
      Parse(s, limit) == if id == 0 || id > limit.maxId || length > limit.maxLength then Invalid
                         else if |s| < 6 + length then NeedRecv
                         else Got(Frame(id, s[6..6 + length]))
  {
    assert s[2..6][..2] == s[2..4] && s[2..6][2..] == s[4..6];
  }

  lemma Sizes(id: nat, length: nat)
    requires id < 0x1_0000 && length < 0x1_0000_0000
    ensures |Be16(id)| == 2 && |Be32(length)| == 4
  {
  }

  lemma Slices(a: seq<Byte>, b: seq<Byte>, c: seq<Byte>, rest: seq<Byte>)
    requires |a| == 2 && |b| == 4
    ensures var s := a + b + c + rest; s[..2] == a && s[2..6] == b && s[6..6 + |c|] == c
  {
  }

  /** A frame is read back, whatever follows it, exactly if it is within the limits. */
  lemma ParseEncoded(f: Frame, rest: seq<Byte>, limit: Limit)
    requires f.id <= MAX_ID && |f.payload| < 0x1_0000_0000
    ensures Parse(Encode(f) + rest, limit)
            == if 0 < f.id <= limit.maxId && |f.payload| <= limit.maxLength then Got(f) else Invalid
    ensures Within(f, limit) <==> Parse(Encode(f) + rest, limit) == Got(f)
  {
    hide Be16, Be32, From16, From32;
    var id, length := Be16(f.id), Be32(|f.payload|);
    RoundTrip16(f.id);
    RoundTrip32(|f.payload|);
    Sizes(f.id, |f.payload|);
    assert Encode(f) == id + length + f.payload;
    hide Encode;
    Slices(id, length, f.payload, rest);
  }

  /** And only what encode makes is read: the decoder accepts no other bytes. */
  lemma ParsedIsEncoded(s: seq<Byte>, limit: Limit)
    requires Parse(s, limit).Got?
    ensures
      var f := Parse(s, limit).frame;
      f.id <= MAX_ID && |f.payload| < 0x1_0000_0000 && f.id > 0 && s == Encode(f) + s[|Encode(f)|..]
  {
    var f := Parse(s, limit).frame;
    Back16(s[..2]);
    Back32(s[2..6]);
    hide Be16, Be32, From16, From32;
    var n := |f.payload|;
    assert s == s[..2] + s[2..6] + s[6..6 + n] + s[6 + n..];
  }

  /** Of a frame that is not complete nothing is taken. */
  lemma ParsePartial(f: Frame, s: seq<Byte>, limit: Limit)
    requires Within(f, limit) && s < Encode(f)
    ensures Parse(s, limit) == if |s| < HEADER_SIZE then CantFill else NeedRecv
  {
    if |s| >= HEADER_SIZE {
      hide Be16, Be32, From16, From32;
      var id, length := Be16(f.id), Be32(|f.payload|);
      RoundTrip16(f.id);
      RoundTrip32(|f.payload|);
      Sizes(f.id, |f.payload|);
      var rest := Encode(f)[|s|..];
      assert Encode(f) == id + length + f.payload && Encode(f) == s + rest;
      hide Encode;
      Slices(id, length, f.payload, []);
      assert id + length + f.payload + [] == s + rest;
      assert s[..2] == (s + rest)[..2] && s[2..6] == (s + rest)[2..6];
    }
  }

  // ---- Decoding from a stream ------------------------------------------------------------------

  datatype Error = RunTime | PacketCantFill | PacketInvalid | PacketNeedRecv

  datatype Result = Ok(packet: Packet) | Err(error: Error)

  function Outcomes(o: Outcome): Result {
    match o
    case CantFill => Err(PacketCantFill)
    case Invalid => Err(PacketInvalid)
    case NeedRecv => Err(PacketNeedRecv)
    case Got(f) => Ok(Made(f.id, f.payload))
  }

  /** The header alone tells what decode makes of the bytes. */
  lemma HeadParsed(s: seq<Byte>, head: seq<Byte>, limit: Limit)
    requires head == s[..if |s| < HEADER_SIZE then |s| else HEADER_SIZE]
    ensures |head| != HEADER_SIZE <==> |s| < HEADER_SIZE
    ensures |head| != HEADER_SIZE ==> Parse(s, limit) == CantFill
    ensures |head| == HEADER_SIZE ==>
              var id, length := From16(head[..2]), From32(head[2..6]);
              Parse(s, limit) == if id == 0 || id > limit.maxId || length > limit.maxLength then Invalid
                                 else if length + HEADER_SIZE > |s| then NeedRecv
                                 else Got(Frame(id, s[HEADER_SIZE..HEADER_SIZE + length]))
  {
    hide From16, From32;
    if |s| >= HEADER_SIZE {
      assert head[..2] == s[..2] && head[2..6] == s[2..6];
    }
  }

  lemma TwoCuts(s: seq<Byte>, a: nat, b: nat)
    requires a + b <= |s|
    ensures s[a..][..b] == s[a..a + b] && s[a..][b..] == s[a + b..]
  {
  }

  /** decode: takes exactly one frame out of the stream, or nothing. */
  method Decode(input: R.Ring?<Byte>, limit: Limit) returns (r: Result)
    requires input != null ==> input.Valid()
    modifies if input != null then {input} else {}
    ensures input == null ==> r == Err(RunTime)
    ensures input != null ==> input.Valid() && input.buffer == old(input.buffer)
    ensures input != null ==>
              var parsed := Parse(old(input.Contents()), limit);
              && r == Outcomes(parsed)
              && input.Contents() == if parsed.Got? then old(input.Contents())[HEADER_SIZE + |parsed.frame.payload|..]
                                     else old(input.Contents())
  {
    hide From16, From32, Made, R.View, R.Distance, RI.Capacity, Parse;
    if input == null { return Err(RunTime); }
    ghost var was := input.Contents();
    var head := input.Read(HEADER_SIZE, true);
    HeadParsed(was, head, limit);
    if |head| != HEADER_SIZE { return Err(PacketCantFill); }
    var id, length := From16(head[..2]), From32(head[2..6]);
    if id == 0 || id > limit.maxId || length > limit.maxLength { return Err(PacketInvalid); }
    if length + HEADER_SIZE > input.ReadAvail() { return Err(PacketNeedRecv); }
    var removed := input.Remove(HEADER_SIZE);
    var bytes := input.Read(length, false);
    TwoCuts(was, HEADER_SIZE, length);
    if |bytes| != length { return Err(RunTime); }
    r := Ok(Made(id, bytes));
  }

  // ---- Any fragmentation -----------------------------------------------------------------------

  function Wire(frames: seq<Frame>): seq<Byte>
    requires forall i :: 0 <= i < |frames| ==> frames[i].id <= MAX_ID
  {
    if frames == [] then [] else Encode(frames[0]) + Wire(frames[1..])
  }

  /** Decoding until there is no complete frame: the frames and the bytes that stay. */
  function DecodeAll(s: seq<Byte>, limit: Limit): (r: (seq<Frame>, seq<Byte>))
    decreases |s|
  {
    var p := Parse(s, limit);
    if p.Got? then
      var rest := DecodeAll(s[HEADER_SIZE + |p.frame.payload|..], limit);
      ([p.frame] + rest.0, rest.1)
    else ([], s)
  }

  /** Bytes arrive in chunks; after each the stream is decoded as far as it goes. */
  function Receive(waiting: seq<Byte>, chunks: seq<seq<Byte>>, limit: Limit): (seq<Frame>, seq<Byte>)
    decreases |chunks|
  {
    if chunks == [] then ([], waiting)
    else
      var now := DecodeAll(waiting + chunks[0], limit);
      var later := Receive(now.1, chunks[1..], limit);
      (now.0 + later.0, later.1)
  }

  predicate AllWithin(frames: seq<Frame>, limit: Limit) {
    forall i :: 0 <= i < |frames| ==> Within(frames[i], limit)
  }

  /** Two ways to cut the same bytes. */
  lemma Cut(s: seq<Byte>, tail: seq<Byte>, first: seq<Byte>, others: seq<Byte>)
    requires s + tail == first + others
    ensures |s| < |first| ==> s < first
    ensures |s| >= |first| ==> s == first + s[|first|..] && s[|first|..] + tail == others
  {
    var all := s + tail;
    assert s == all[..|s|] && first == all[..|first|];
    if |s| >= |first| {
      assert s[..|first|] == first;
      assert s[|first|..] + tail == all[|first|..];
      assert others == all[|first|..];
    }
  }

  lemma DecodeOne(f: Frame, rest: seq<Byte>, limit: Limit)
    requires Within(f, limit)
    ensures DecodeAll(Encode(f) + rest, limit) == ([f] + DecodeAll(rest, limit).0, DecodeAll(rest, limit).1)
  {
    hide Parse, Be16, Be32;
    ParseEncoded(f, rest, limit);
    assert (Encode(f) + rest)[HEADER_SIZE + |f.payload|..] == rest;
  }

  lemma DecodeNone(f: Frame, s: seq<Byte>, limit: Limit)
    requires Within(f, limit) && s < Encode(f)
    ensures DecodeAll(s, limit) == ([], s)
  {
    hide Parse, Be16, Be32;
    ParsePartial(f, s, limit);
  }

  /** Of the beginning of a row of frames the complete ones come out, and what stays is the beginning of
      the next, of which nothing is taken. */
  lemma {:induction false} DecodePrefix(frames: seq<Frame>, s: seq<Byte>, tail: seq<Byte>, limit: Limit) returns (k: nat)
    requires AllWithin(frames, limit) && s + tail == Wire(frames)
    ensures k <= |frames| && DecodeAll(s, limit).0 == frames[..k] && DecodeAll(s, limit).1 + tail == Wire(frames[k..])
    ensures k == |frames| || |DecodeAll(s, limit).1| < |Encode(frames[k])|
    decreases |frames|
  {
    hide Be16, Be32, From16, From32, Made;
    if frames == [] {
      assert s == [];
      k := 0;
    } else {
      var first, others := Encode(frames[0]), Wire(frames[1..]);
      assert s + tail == first + others;
      hide DecodeAll, Encode, Wire, Parse;
      Cut(s, tail, first, others);
      if |s| < |first| {
        DecodeNone(frames[0], s, limit);
        k := 0;
        assert frames[0..] == frames;
      } else {
        var rest := s[|first|..];
        DecodeOne(frames[0], rest, limit);
        var j := DecodePrefix(frames[1..], rest, tail, limit);
        k := j + 1;
        assert frames[..k] == [frames[0]] + frames[1..][..j];
        assert frames[k..] == frames[1..][j..];
      }
    }
  }

  /** However the bytes of a row of packets are cut into chunks, exactly those packets come out, in order,
      and nothing stays. */
  lemma {:induction false} AnyFragmentation(frames: seq<Frame>, waiting: seq<Byte>, chunks: seq<seq<Byte>>, limit: Limit)
    requires AllWithin(frames, limit) && waiting + Concat(chunks) == Wire(frames)
    requires frames == [] || |waiting| < |Encode(frames[0])|
    ensures Receive(waiting, chunks, limit) == (frames, [])
    decreases |chunks|
  {
    if chunks == [] {
      assert waiting == Wire(frames);
    } else {
      hide DecodeAll, Encode, Wire, Within;
      var s := waiting + chunks[0];
      ConcatFirst(chunks[0], chunks[1..]);
      assert chunks == [chunks[0]] + chunks[1..];
      assert s + Concat(chunks[1..]) == waiting + Concat(chunks);
      var k := DecodePrefix(frames, s, Concat(chunks[1..]), limit);
      hide Concat;
      AnyFragmentation(frames[k..], DecodeAll(s, limit).1, chunks[1..], limit);
      assert frames == frames[..k] + frames[k..];
    }
  }
}
