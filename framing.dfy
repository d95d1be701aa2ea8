/**
 * The chunked-read framing convention shared by the TCP pipe, the UDP listener
 * and the UDP reply manager: reads into a CHUNKSIZE buffer are appended to a
 * message until one returns a length other than CHUNKSIZE; that read ends the
 * message.  The three loops differ only in what they do with a read error.
 *
 * A socket is abstracted as the finite sequence of results its reads return;
 * when the sequence runs out the next read would block, and the message is
 * still pending.
 */
module Framing {
  import opened Common

  /** CHUNKSIZE: the size of the read buffer. */
  const ChunkSize: nat := 16384

  /** What accompanied a read: no error, io.EOF, net.ErrClosed, or any other error. */
  datatype ReadErr = NoError | EndOfFile | Closed | OtherError

  /** One read: the bytes placed in the buffer, the error, and (for ReadFromUDP) the sender's "ip:port". */
  datatype ReadResult = ReadResult(data: seq<Byte>, err: ReadErr, from: string)

  /** The three loops that use the convention. */
  datatype Reader =
    | TcpPipe      // NetworkPipeTCP: EOF is a normal read, any other error ends the pipe
    | UdpListener  // CreateUDPListener: every error ends the listener
    | UdpReplies   // UDPReplyManager: closed ends the loop, any other error is skipped

  /** What a loop does with one read. */
  datatype Step = Append | Skip | Stop

  function Classify(reader: Reader, err: ReadErr): Step {
    match err
    case NoError => Append
    case Closed => Stop
    case EndOfFile =>
      (match reader case TcpPipe => Append case UdpListener => Stop case UdpReplies => Skip)
    case OtherError =>
      (match reader case UdpReplies => Skip case _ => Stop)
  }

  /** The result of reading one message. */
  datatype Frame =
    | Message(bytes: seq<Byte>, consumed: nat, from: string)  // reassembled from the first `consumed` reads
    | Stopped(consumed: nat)                                  // the loop returned at read number `consumed`
    | Pending                                                 // every read so far asks for more

  /** The bytes the loop appends from one read. */
  function Piece(reader: Reader, r: ReadResult): seq<Byte> {
    if Classify(reader, r.err) == Append then r.data else []
  }

  /** The bytes the loop appends from the reads `rs[lo..hi]`, in order. */
  function Kept(reader: Reader, rs: seq<ReadResult>, lo: nat, hi: nat): seq<Byte>
    requires lo <= hi <= |rs|
    decreases hi - lo
  {
    if lo == hi then [] else Piece(reader, rs[lo]) + Kept(reader, rs, lo + 1, hi)
  }

  lemma {:induction false} KeptSplit(reader: Reader, rs: seq<ReadResult>, lo: nat, mid: nat, hi: nat)
    requires lo <= mid <= hi <= |rs|
    ensures Kept(reader, rs, lo, hi) == Kept(reader, rs, lo, mid) + Kept(reader, rs, mid, hi)
    decreases mid - lo
  {
    if lo < mid {
      KeptSplit(reader, rs, lo + 1, mid, hi);
      var p := Piece(reader, rs[lo]);
      assert p + (Kept(reader, rs, lo + 1, mid) + Kept(reader, rs, mid, hi))
          == (p + Kept(reader, rs, lo + 1, mid)) + Kept(reader, rs, mid, hi);
    } else {
      assert [] + Kept(reader, rs, mid, hi) == Kept(reader, rs, mid, hi);
    }
  }

  /** No read in `rs[lo..hi]` makes the loop return. */
  ghost predicate NoStop(reader: Reader, rs: seq<ReadResult>, lo: nat, hi: nat) {
    forall j :: lo <= j < hi && j < |rs| ==> Classify(reader, rs[j].err) != Stop
  }

  /** Every read in `rs[lo..hi]` that the loop appends is a full chunk. */
  ghost predicate FullChunks(reader: Reader, rs: seq<ReadResult>, lo: nat, hi: nat) {
    forall j :: lo <= j < hi && j < |rs| && Classify(reader, rs[j].err) == Append ==> |rs[j].data| == ChunkSize
  }

  /** Account for `n` more reads, taken before the ones `f` describes, that appended `pre`. */
  function Extend(pre: seq<Byte>, n: nat, f: Frame): Frame {
    match f
    case Message(b, k, from) => Message(pre + b, k + n, from)
    case Stopped(k) => Stopped(k + n)
    case Pending => Pending
  }

  /** One message from the reads `rs`, starting at read `i`, as the three loops read it. */
  function Reassemble(reader: Reader, rs: seq<ReadResult>, i: nat): Frame
    requires i <= |rs|
    decreases |rs| - i
  {
    if i == |rs| then Pending
    else
      var r := rs[i];
      match Classify(reader, r.err)
      case Stop => Stopped(1)
      case Skip => Extend([], 1, Reassemble(reader, rs, i + 1))
      case Append =>
        if |r.data| != ChunkSize then Message(r.data, 1, r.from)
        else Extend(r.data, 1, Reassemble(reader, rs, i + 1))
  }

  /**
   * What Reassemble yields from read `i` on.  A message is the in-order
   * concatenation of the appended reads up to and including the first appended
   * read that is not a full chunk; every earlier appended read is a full chunk;
   * its sender is that of its last read.  The loop instead returns at the first
   * read whose error stops it, and is still waiting when neither has happened.
   */
  lemma {:induction false} ReassembleMeaning(reader: Reader, rs: seq<ReadResult>, i: nat)
    requires i <= |rs|
    ensures var f := Reassemble(reader, rs, i);
      && (f.Message? ==>
           && 1 <= f.consumed && i + f.consumed <= |rs|
           && NoStop(reader, rs, i, i + f.consumed)
           && FullChunks(reader, rs, i, i + f.consumed - 1)
           && Classify(reader, rs[i + f.consumed - 1].err) == Append
           && |rs[i + f.consumed - 1].data| != ChunkSize
           && f.bytes == Kept(reader, rs, i, i + f.consumed)
           && f.from == rs[i + f.consumed - 1].from)
      && (f.Stopped? ==>
           && 1 <= f.consumed && i + f.consumed <= |rs|
           && NoStop(reader, rs, i, i + f.consumed - 1)
           && FullChunks(reader, rs, i, i + f.consumed - 1)
           && Classify(reader, rs[i + f.consumed - 1].err) == Stop)
      && (f.Pending? ==> NoStop(reader, rs, i, |rs|) && FullChunks(reader, rs, i, |rs|))
    decreases |rs| - i
  {
    if i < |rs| {
      var r := rs[i];
      var step := Classify(reader, r.err);
      if step == Append && |r.data| != ChunkSize {
        assert Kept(reader, rs, i, i + 1) == r.data + [];
      } else if step != Stop {
        ReassembleMeaning(reader, rs, i + 1);
        var g := Reassemble(reader, rs, i + 1);
        assert Reassemble(reader, rs, i) == Extend(Piece(reader, r), 1, g);
      }
    }
  }

  /** A message or a stop always consumes at least one read, and never more than there are. */
  lemma ReassembleConsumes(reader: Reader, rs: seq<ReadResult>, i: nat)
    requires i <= |rs|
    ensures !Reassemble(reader, rs, i).Pending? ==> 1 <= Reassemble(reader, rs, i).consumed <= |rs| - i
  {
    ReassembleMeaning(reader, rs, i);
  }

  /** A message's bytes are the kept bytes of the reads it consumed. */
  lemma MessageKept(reader: Reader, rs: seq<ReadResult>, i: nat)
    requires i <= |rs| && Reassemble(reader, rs, i).Message?
    ensures var f := Reassemble(reader, rs, i);
      1 <= f.consumed && i + f.consumed <= |rs| && f.bytes == Kept(reader, rs, i, i + f.consumed)
  {
    ReassembleMeaning(reader, rs, i);
  }

  lemma ExtendExtend(a: seq<Byte>, n: nat, b: seq<Byte>, m: nat, f: Frame)
    ensures Extend(a, n, Extend(b, m, f)) == Extend(a + b, n + m, f)
  {
    if f.Message? {
      assert a + (b + f.bytes) == (a + b) + f.bytes;
    }
  }

  /**
   * The inner read loop of the three readers: read from position `start` until
   * a message is complete, the loop stops, or the reads run out.
   */
  method ReadMessage(reader: Reader, rs: seq<ReadResult>, start: nat) returns (f: Frame)
    requires start <= |rs|
    ensures f == Reassemble(reader, rs, start)
  {
    var res: seq<Byte> := [];
    var i := start;
    while i < |rs|
      invariant start <= i <= |rs|
      invariant Reassemble(reader, rs, start) == Extend(res, i - start, Reassemble(reader, rs, i))
    {
      var r := rs[i];
      match Classify(reader, r.err)
      case Stop =>
        return Stopped(i - start + 1);
      case Skip =>
        ExtendExtend(res, i - start, [], 1, Reassemble(reader, rs, i + 1));
        assert res + [] == res;
        i := i + 1;
      case Append =>
        if |r.data| != ChunkSize {
          return Message(res + r.data, i - start + 1, r.from);
        }
        ExtendExtend(res, i - start, r.data, 1, Reassemble(reader, rs, i + 1));
        res := res + r.data;
        i := i + 1;
    }
    return Pending;
  }

  /** What a sender that writes `msg` in CHUNKSIZE pieces delivers: full chunks, then a short (maybe empty) rest. */
  function Chunked(msg: seq<Byte>): (chunks: seq<seq<Byte>>)
    decreases |msg|
  {
    if |msg| < ChunkSize then [msg] else [msg[..ChunkSize]] + Chunked(msg[ChunkSize..])
  }

  /** The reads that deliver `chunks`, without error, from `from`. */
  function AsReads(chunks: seq<seq<Byte>>, from: string): (rs: seq<ReadResult>)
    ensures |rs| == |chunks|
  {
    if |chunks| == 0 then [] else [ReadResult(chunks[0], NoError, from)] + AsReads(chunks[1..], from)
  }

  /**
   * Round trip: a message delivered as full chunks followed by a short one is
   * reassembled byte for byte, whatever reads come before and after it, by each
   * of the three readers.
   */
  lemma {:induction false} ReassembleChunked(reader: Reader, before: seq<ReadResult>, msg: seq<Byte>, from: string,
                                             after: seq<ReadResult>)
    ensures |before| <= |before + AsReads(Chunked(msg), from) + after|
    ensures Reassemble(reader, before + AsReads(Chunked(msg), from) + after, |before|)
         == Message(msg, |Chunked(msg)|, from)
    decreases |msg|
  {
    var rs := before + AsReads(Chunked(msg), from) + after;
    var first := ReadResult(Chunked(msg)[0], NoError, from);
    assert rs[|before|] == first;
    if |msg| >= ChunkSize {
      var before' := before + [first];
      ReassembleChunked(reader, before', msg[ChunkSize..], from, after);
      assert rs == before' + AsReads(Chunked(msg[ChunkSize..]), from) + after;
      assert msg == msg[..ChunkSize] + msg[ChunkSize..];
    }
  }

  /**
   * The convention cannot tell a message that happens to fill the buffer
   * exactly from one that continues: a full-chunk message followed by another
   * message is reassembled as one message holding both.
   */
  lemma FullChunkMergesWithNext(reader: Reader, m1: seq<Byte>, m2: seq<Byte>, from: string)
    requires |m1| == ChunkSize
    ensures Reassemble(reader, [ReadResult(m1, NoError, from)] + AsReads(Chunked(m2), from), 0)
         == Message(m1 + m2, 1 + |Chunked(m2)|, from)
  {
    var rs := [ReadResult(m1, NoError, from)] + AsReads(Chunked(m2), from);
    ReassembleChunked(reader, [ReadResult(m1, NoError, from)], m2, from, []);
    assert rs == [ReadResult(m1, NoError, from)] + AsReads(Chunked(m2), from) + [];
  }

  /** What a relay loop did with a stream of reads. */
  datatype RelayOutcome = RelayOutcome(writes: seq<seq<Byte>>, consumed: nat, stopped: bool)

  function Concat(ws: seq<seq<Byte>>): seq<Byte> {
    if |ws| == 0 then [] else ws[0] + Concat(ws[1..])
  }

  /** Account for writes made, and reads consumed, before those `o` describes. */
  function Prefixed(ws: seq<seq<Byte>>, n: nat, o: RelayOutcome): RelayOutcome {
    RelayOutcome(ws + o.writes, n + o.consumed, o.stopped)
  }

  /**
   * The outer loop of the TCP pipe and of the UDP reply manager, from read `i`
   * on: reassemble a message, write it, repeat.
   */
  function Relayed(reader: Reader, rs: seq<ReadResult>, i: nat): (o: RelayOutcome)
    requires i <= |rs|
    ensures o.consumed <= |rs| - i
    decreases |rs| - i
  {
    ReassembleConsumes(reader, rs, i);
    match Reassemble(reader, rs, i)
    case Pending => RelayOutcome([], 0, false)
    case Stopped(_) => RelayOutcome([], 0, true)
    case Message(b, k, _) => Prefixed([b], k, Relayed(reader, rs, i + k))
  }

  /** The writes of the relay from read `i` on, concatenated, are the appended bytes of the reads it consumed. */
  ghost predicate KeepsBytes(reader: Reader, rs: seq<ReadResult>, i: nat)
    requires i <= |rs|
  {
    Concat(Relayed(reader, rs, i).writes) == Kept(reader, rs, i, i + Relayed(reader, rs, i).consumed)
  }

  /** No byte is dropped, added or reordered by the relay, from any read on. */
  lemma {:induction false} RelayKeepsBytes(reader: Reader, rs: seq<ReadResult>, i: nat)
    requires i <= |rs|
    ensures KeepsBytes(reader, rs, i)
    decreases |rs| - i
  {
    var f := Reassemble(reader, rs, i);
    if f.Message? {
      ReassembleConsumes(reader, rs, i);
      RelayKeepsBytes(reader, rs, i + f.consumed);
      RelayKeepsBytesStep(reader, rs, i);
    } else {
      RelayKeepsNothing(reader, rs, i);
    }
  }

  /** A relay that starts with a message: its bytes, then what the rest of the relay keeps. */
  lemma RelayKeepsBytesStep(reader: Reader, rs: seq<ReadResult>, i: nat)
    requires i <= |rs| && Reassemble(reader, rs, i).Message?
    requires var k := Reassemble(reader, rs, i).consumed; i + k <= |rs| && KeepsBytes(reader, rs, i + k)
    ensures KeepsBytes(reader, rs, i)
  {
    var f := Reassemble(reader, rs, i);
    var k := f.consumed;
    MessageKept(reader, rs, i);
    RelayedMessage(reader, rs, i);
    var o, o' := Relayed(reader, rs, i), Relayed(reader, rs, i + k);
    ConsKept(reader, rs, i, k, f.bytes, o.writes, o.consumed, o'.writes, o'.consumed);
  }

  /** The relay's first message, then the rest of the relay. */
  lemma RelayedMessage(reader: Reader, rs: seq<ReadResult>, i: nat)
    requires i <= |rs| && Reassemble(reader, rs, i).Message?
    ensures var f := Reassemble(reader, rs, i);
      && i + f.consumed <= |rs|
      && Relayed(reader, rs, i).writes == [f.bytes] + Relayed(reader, rs, i + f.consumed).writes
      && Relayed(reader, rs, i).consumed == f.consumed + Relayed(reader, rs, i + f.consumed).consumed
  {
    ReassembleConsumes(reader, rs, i);
  }

  /** A relay that starts by stopping or waiting writes nothing and consumes nothing. */
  lemma RelayKeepsNothing(reader: Reader, rs: seq<ReadResult>, i: nat)
    requires i <= |rs| && !Reassemble(reader, rs, i).Message?
    ensures KeepsBytes(reader, rs, i)
  {
    assert Relayed(reader, rs, i) == RelayOutcome([], 0, Reassemble(reader, rs, i).Stopped?);
    assert Kept(reader, rs, i, i) == [];
  }

  /** Writes that start with the bytes of `rs[i..i + k]` and go on as `ws'` does keep the bytes of the reads. */
  lemma ConsKept(reader: Reader, rs: seq<ReadResult>, i: nat, k: nat, b: seq<Byte>,
                 ws: seq<seq<Byte>>, c: nat, ws': seq<seq<Byte>>, c': nat)
    requires c == k + c' && i + c <= |rs|
    requires ws == [b] + ws'
    requires b == Kept(reader, rs, i, i + k)
    requires Concat(ws') == Kept(reader, rs, i + k, i + k + c')
    ensures Concat(ws) == Kept(reader, rs, i, i + c)
  {
    KeptSplit(reader, rs, i, i + k, i + c);
    assert ws[1..] == ws';
  }

  /** The relay ends at a read that stops the loop, or with an unfinished message when the reads run out. */
  lemma {:induction false} RelayEnds(reader: Reader, rs: seq<ReadResult>, i: nat)
    requires i <= |rs|
    ensures var o := Relayed(reader, rs, i);
      && (o.stopped <==> Reassemble(reader, rs, i + o.consumed).Stopped?)
      && (!o.stopped ==> Reassemble(reader, rs, i + o.consumed).Pending?)
    decreases |rs| - i
  {
    var f := Reassemble(reader, rs, i);
    ReassembleConsumes(reader, rs, i);
    if f.Message? {
      RelayEnds(reader, rs, i + f.consumed);
    }
  }

  /**
   * No byte is dropped or reordered: the writes, concatenated, are exactly the
   * appended bytes of the reads they consumed; the loop ends only where the next
   * message runs into a read that stops it, and otherwise what is left over is
   * an unfinished message.
   */
  lemma RelayPreservesBytes(reader: Reader, rs: seq<ReadResult>)
    ensures var o := Relayed(reader, rs, 0);
      && Concat(o.writes) == Kept(reader, rs, 0, o.consumed)
      && (o.stopped <==> Reassemble(reader, rs, o.consumed).Stopped?)
      && (!o.stopped ==> Reassemble(reader, rs, o.consumed).Pending?)
  {
    RelayKeepsBytes(reader, rs, 0);
    assert KeepsBytes(reader, rs, 0);
    RelayEnds(reader, rs, 0);
  }

  lemma PrefixedPrefixed(a: seq<seq<Byte>>, n: nat, b: seq<seq<Byte>>, m: nat, o: RelayOutcome)
    ensures Prefixed(a, n, Prefixed(b, m, o)) == Prefixed(a + b, n + m, o)
  {
    assert a + (b + o.writes) == (a + b) + o.writes;
  }

  /**
   * One turn of the outer loop of a relay: read a message starting at read
   * `pos`, or report how the loop ends.
   */
  method RelayNext(reader: Reader, rs: seq<ReadResult>, pos: nat)
    returns (done: bool, o: RelayOutcome, msg: seq<Byte>, next: nat)
    requires pos <= |rs|
    ensures done ==> o == Relayed(reader, rs, pos)
    ensures !done ==> pos < next <= |rs|
    ensures !done ==> Relayed(reader, rs, pos) == Prefixed([msg], next - pos, Relayed(reader, rs, next))
  {
    var f := ReadMessage(reader, rs, pos);
    ReassembleConsumes(reader, rs, pos);
    if !f.Message? {
      return true, RelayOutcome([], 0, f.Stopped?), [], pos;
    }
    return false, RelayOutcome([], 0, false), f.bytes, pos + f.consumed;
  }

  /** `NetworkPipeTCP` (reader TcpPipe) and `UDPReplyManager` (reader UdpReplies): the writes made from the reads. */
  method Relay(reader: Reader, rs: seq<ReadResult>) returns (o: RelayOutcome)
    ensures o == Relayed(reader, rs, 0)
  {
    var writes: seq<seq<Byte>> := [];
    var pos := 0;
    while true
      invariant pos <= |rs|
      invariant Relayed(reader, rs, 0) == Prefixed(writes, pos, Relayed(reader, rs, pos))
      decreases |rs| - pos
    {
      var done, last, msg, next := RelayNext(reader, rs, pos);
      if done {
        PrefixedPrefixed(writes, pos, [], 0, last);
        assert writes + [] == writes;
        return Prefixed(writes, pos, last);
      }
      PrefixedPrefixed(writes, pos, [msg], next - pos, Relayed(reader, rs, next));
      writes := writes + [msg];
      pos := next;
    }
  }
}
