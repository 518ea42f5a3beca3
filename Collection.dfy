/**
 * The collection loop: inbound messages are read until the requested number
 * of waterfall lines has been gathered or a receive fails. A message counts
 * as a waterfall line when its bytes contain the tag "W/F"; its first 16
 * bytes are a header, and every remaining byte becomes one bin in dBm. Any
 * other message is chatter between client and server and is ignored.
 *
 * Each line is written into the row `time` of a preallocated
 * `length` x `bins` matrix of zeros. Writing a payload into a row follows
 * numpy's broadcasting: a payload of exactly `bins` bytes fills the row bin
 * by bin, a single byte fills the whole row with its value, and any other
 * length raises an error that ends the program.
 */
module Collection {
  import opened Wrappers
  import opened Kiwi

  /** Bytes of header in front of the bins of a waterfall message. */
  const HeaderBytes: nat := 16

  /** Whether the bytes contain "W/F" (87, 47, 70) anywhere. */
  predicate IsWaterfall(data: seq<Byte>)
  {
    exists i | 0 <= i && i + 2 < |data| :: data[i] == 87 && data[i + 1] == 47 && data[i + 2] == 70
  }

  /** The message with its header removed; empty when the message is shorter than the header. */
  function Payload(data: seq<Byte>): (p: seq<Byte>)
    ensures |p| == if |data| >= HeaderBytes then |data| - HeaderBytes else 0
    ensures forall j | 0 <= j < |p| :: p[j] == data[HeaderBytes + j]
  {
    if |data| >= HeaderBytes then data[HeaderBytes..] else []
  }

  /** The level in dBm of one bin: the byte mirrored below 255, less the 13 dB calibration. */
  function DecodeByte(b: Byte): (v: int)
    ensures -268 <= v <= -13
    ensures v + 268 == b
  {
    -(255 - b) - 13
  }

  /** Decoding keeps the order of the raw bytes, strictly. */
  lemma DecodeMonotone(a: Byte, b: Byte)
    ensures a < b <==> DecodeByte(a) < DecodeByte(b)
    ensures a == b <==> DecodeByte(a) == DecodeByte(b)
  {
  }

  /** Whether numpy can write a payload into a row of `bins` values. */
  predicate Broadcastable(payload: seq<Byte>, bins: nat)
  {
    |payload| == bins || |payload| == 1
  }

  /** A message holding the tag "W/F" anywhere, whatever surrounds it, is a waterfall line. */
  lemma TagMakesWaterfall(before: seq<Byte>, after: seq<Byte>)
    ensures IsWaterfall(before + [87, 47, 70] + after)
  {
    var data := before + [87, 47, 70] + after;
    var i := |before|;
    assert data[i] == 87 && data[i + 1] == 47 && data[i + 2] == 70;
  }

  /**
   * For a line of at least one bin, a message can be written into a row
   * exactly when it carries a full line of bins or a single byte after its
   * header; a message no longer than the header never can.
   */
  lemma MessageBroadcastable(data: seq<Byte>, bins: nat)
    requires bins > 0
    ensures Broadcastable(Payload(data), bins) <==> |data| == HeaderBytes + bins || |data| == HeaderBytes + 1
    ensures |data| <= HeaderBytes ==> !Broadcastable(Payload(data), bins)
  {
  }

  /** The row a broadcastable payload becomes. */
  function DecodeRow(payload: seq<Byte>, bins: nat): (row: seq<int>)
    requires Broadcastable(payload, bins)
    ensures |row| == bins
    ensures |payload| == bins ==> forall j | 0 <= j < bins :: row[j] == DecodeByte(payload[j])
    ensures |payload| != bins ==> forall j | 0 <= j < bins :: row[j] == DecodeByte(payload[0])
    ensures forall j | 0 <= j < bins :: -268 <= row[j] <= -13
  {
    seq(bins, j requires 0 <= j < bins => DecodeByte(if |payload| == bins then payload[j] else payload[0]))
  }

  /** The outcome of the loop: the rows gathered and the events left unread, or the crash. */
  datatype Gathered = Gathered(rows: seq<seq<int>>, rest: seq<Inbound>) | Crashed(rest: seq<Inbound>)

  /**
   * The loop as a function of the inbound events: `want` more rows are wanted.
   * A failed receive, or the end of the events, stops it short.
   */
  function Gather(events: seq<Inbound>, want: nat, bins: nat): (g: Gathered)
    ensures g.Gathered? ==> |g.rows| <= want
    ensures g.Gathered? ==> forall i | 0 <= i < |g.rows| :: |g.rows[i]| == bins
    ensures g.Gathered? ==> forall i, j | 0 <= i < |g.rows| && 0 <= j < bins :: -268 <= g.rows[i][j] <= -13
    decreases |events|
  {
    if want == 0 then Gathered([], events)
    else if events == [] then Gathered([], [])
    else
      match events[0]
      case ReceiveFailure => Gathered([], events[1..])
      case Message(data) =>
        if !IsWaterfall(data) then Gather(events[1..], want, bins)
        else if !Broadcastable(Payload(data), bins) then Crashed(events[1..])
        else Prepend([DecodeRow(Payload(data), bins)], Gather(events[1..], want - 1, bins))
  }

  function Prepend(done: seq<seq<int>>, g: Gathered): Gathered
  {
    match g
    case Gathered(rows, rest) => Gathered(done + rows, rest)
    case Crashed(rest) => Crashed(rest)
  }

  /** Writes the decoded payload into row `t`, leaving every other row as it was. */
  method WriteRow(wf: array2<int>, t: nat, payload: seq<Byte>)
    requires t < wf.Length0 && Broadcastable(payload, wf.Length1)
    modifies wf
    ensures forall i, j | 0 <= i < wf.Length0 && 0 <= j < wf.Length1 ::
      wf[i, j] == if i == t then DecodeRow(payload, wf.Length1)[j] else old(wf[i, j])
  {
    var bins := wf.Length1;
    for j := 0 to bins
      invariant forall i, j' | 0 <= i < wf.Length0 && 0 <= j' < bins ::
        wf[i, j'] == if i == t && j' < j then DecodeRow(payload, bins)[j'] else old(wf[i, j'])
    {
      wf[t, j] := DecodeByte(if |payload| == bins then payload[j] else payload[0]);
    }
  }

  /**
   * Reads events until `length` waterfall lines are in the matrix or a
   * receive fails; `time` is the number of lines gathered.
   */
  method Collect(stream: KiwiStream, length: nat, bins: nat) returns (wf: array2<int>, time: nat, crashed: bool)
    modifies stream
    ensures fresh(wf) && wf.Length0 == length && wf.Length1 == bins
    ensures stream.sent == old(stream.sent)
    ensures match Gather(old(stream.inbound), length, bins)
      case Crashed(rest) => crashed && stream.inbound == rest
      case Gathered(rows, rest) =>
        && !crashed && stream.inbound == rest && time == |rows| <= length
        && (forall i | 0 <= i < |rows| :: |rows[i]| == bins)
        && forall i, j | 0 <= i < length && 0 <= j < bins :: wf[i, j] == if i < time then rows[i][j] else 0
  {
    wf := new int[length, bins]((i, j) => 0);
    time := 0;
    crashed := false;
    ghost var rows: seq<seq<int>> := [];
    ghost var all := Gather(stream.inbound, length, bins);
    assert all.Gathered? ==> [] + all.rows == all.rows;
    while time < length
      invariant time <= length && |rows| == time
      invariant forall i | 0 <= i < time :: |rows[i]| == bins
      invariant stream.sent == old(stream.sent)
      invariant all == Prepend(rows, Gather(stream.inbound, length - time, bins))
      invariant forall i, j | 0 <= i < length && 0 <= j < bins :: wf[i, j] == if i < time then rows[i][j] else 0
      decreases |stream.inbound|
    {
      ghost var before := stream.inbound;
      var event := stream.ReceiveMessage();
      if event.ReceiveFailure? {
        assert Gather(before, length - time, bins) == Gathered([], stream.inbound);
        assert rows + [] == rows;
        break;
      }
      var data := event.data;
      if IsWaterfall(data) {
        var payload := Payload(data);
        if !Broadcastable(payload, bins) {
          crashed := true;
          return;
        }
        WriteRow(wf, time, payload);
        ghost var row := DecodeRow(payload, bins);
        PrependTwice(rows, [row], Gather(stream.inbound, length - time - 1, bins));
        rows := rows + [row];
        time := time + 1;
      }
    }
    if time == length {
      assert rows + [] == rows;
    }
    assert all == Gathered(rows, stream.inbound);
  }

  lemma PrependTwice(done: seq<seq<int>>, more: seq<seq<int>>, g: Gathered)
    ensures Prepend(done, Prepend(more, g)) == Prepend(done + more, g)
  {
    if g.Gathered? {
      assert done + (more + g.rows) == done + more + g.rows;
    }
  }

  // ---------------------------------------------------------------------------
  // What the loop gathers, stated over the waterfall messages
  // ---------------------------------------------------------------------------

  /** Whether every event is a message, no receive failing. */
  predicate NoFailure(events: seq<Inbound>)
  {
    forall i | 0 <= i < |events| :: events[i].Message?
  }

  /** The payloads of the waterfall messages among the events, in order. */
  function Frames(events: seq<Inbound>): seq<seq<Byte>>
  {
    if events == [] then []
    else
      (if events[0].Message? && IsWaterfall(events[0].data) then [Payload(events[0].data)] else [])
      + Frames(events[1..])
  }

  predicate AllBroadcastable(frames: seq<seq<Byte>>, bins: nat)
  {
    forall i | 0 <= i < |frames| :: Broadcastable(frames[i], bins)
  }

  function DecodeAll(frames: seq<seq<Byte>>, bins: nat): seq<seq<int>>
    requires AllBroadcastable(frames, bins)
  {
    seq(|frames|, i requires 0 <= i < |frames| => DecodeRow(frames[i], bins))
  }

  /**
   * Before the wanted number of lines is reached and while every receive
   * succeeds, each waterfall message adds its decoded payload as the next
   * row and every other message is passed over.
   */
  lemma {:induction false} GatherThrough(events: seq<Inbound>, tail: seq<Inbound>, want: nat, bins: nat)
    requires NoFailure(events) && AllBroadcastable(Frames(events), bins) && |Frames(events)| < want
    ensures Gather(events + tail, want, bins)
         == Prepend(DecodeAll(Frames(events), bins), Gather(tail, want - |Frames(events)|, bins))
    decreases |events|
  {
    var frames := Frames(events);
    if events == [] {
      assert events + tail == tail;
      var g := Gather(tail, want, bins);
      if g.Gathered? {
        assert [] + g.rows == g.rows;
      }
    } else {
      var e, rest := events[0], events[1..];
      assert events + tail == [e] + (rest + tail);
      assert NoFailure(rest) by {
        forall i | 0 <= i < |rest| ensures rest[i].Message? {
          assert rest[i] == events[i + 1];
        }
      }
      var data := e.data;
      assert e == Message(data);
      if !IsWaterfall(data) {
        GatherChatter(data, rest + tail, want, bins);
        assert Frames(events) == Frames(rest);
        GatherThrough(rest, tail, want, bins);
      } else {
        var p := Payload(data);
        assert frames == [p] + Frames(rest);
        assert frames[0] == p && Broadcastable(p, bins);
        assert AllBroadcastable(Frames(rest), bins) by {
          forall i | 0 <= i < |Frames(rest)| ensures Broadcastable(Frames(rest)[i], bins) {
            assert Frames(rest)[i] == frames[i + 1];
          }
        }
        var row, decoded := DecodeRow(p, bins), DecodeAll(Frames(rest), bins);
        var g := Gather(tail, want - |frames|, bins);
        GatherFrame(data, rest + tail, want, bins);
        assert Gather(events + tail, want, bins) == Prepend([row], Gather(rest + tail, want - 1, bins));
        GatherThrough(rest, tail, want - 1, bins);
        assert Gather(rest + tail, want - 1, bins) == Prepend(decoded, g);
        PrependTwice([row], decoded, g);
        DecodeAllCons(p, Frames(rest), bins);
      }
    }
  }

  lemma DecodeAllCons(p: seq<Byte>, frames: seq<seq<Byte>>, bins: nat)
    requires Broadcastable(p, bins) && AllBroadcastable(frames, bins)
    ensures AllBroadcastable([p] + frames, bins)
    ensures DecodeAll([p] + frames, bins) == [DecodeRow(p, bins)] + DecodeAll(frames, bins)
  {
    assert forall i | 1 <= i < |frames| + 1 :: ([p] + frames)[i] == frames[i - 1];
  }

  /** A message that is not a waterfall line is passed over. */
  lemma GatherChatter(data: seq<Byte>, more: seq<Inbound>, want: nat, bins: nat)
    requires want > 0 && !IsWaterfall(data)
    ensures Gather([Message(data)] + more, want, bins) == Gather(more, want, bins)
  {
    assert ([Message(data)] + more)[1..] == more;
  }

  /** A waterfall line that fills a row becomes the next row. */
  lemma GatherFrame(data: seq<Byte>, more: seq<Inbound>, want: nat, bins: nat)
    requires want > 0 && IsWaterfall(data) && Broadcastable(Payload(data), bins)
    ensures Gather([Message(data)] + more, want, bins)
         == Prepend([DecodeRow(Payload(data), bins)], Gather(more, want - 1, bins))
  {
    assert ([Message(data)] + more)[1..] == more;
  }

  /**
   * The loop stops with `length` rows right after the message that brings the
   * count up: the rows are the decoded waterfall payloads, in order, and
   * everything after that message is left unread.
   */
  lemma GatherCompletes(events: seq<Inbound>, later: seq<Inbound>, want: nat, bins: nat)
    requires want > 0 && |events| > 0 && NoFailure(events) && AllBroadcastable(Frames(events), bins)
    requires |Frames(events)| == want && IsWaterfall(events[|events| - 1].data)
    ensures Gather(events + later, want, bins) == Gathered(DecodeAll(Frames(events), bins), later)
  {
    var front, last := events[..|events| - 1], events[|events| - 1];
    assert events == front + [last];
    FramesAppend(front, last);
    var p := Payload(last.data);
    assert Frames(events) == Frames(front) + [p];
    assert NoFailure(front) by {
      forall i | 0 <= i < |front| ensures front[i].Message? {
        assert front[i] == events[i];
      }
    }
    assert AllBroadcastable(Frames(front), bins) by {
      forall i | 0 <= i < |Frames(front)| ensures Broadcastable(Frames(front)[i], bins) {
        assert Frames(front)[i] == Frames(events)[i];
      }
    }
    assert Broadcastable(p, bins) by {
      assert p == Frames(events)[|Frames(events)| - 1];
    }
    assert events + later == front + ([last] + later);
    GatherThrough(front, [last] + later, want, bins);
    assert ([last] + later)[1..] == later;
    assert Gather([last] + later, 1, bins) == Gathered([DecodeRow(p, bins)] + [], later);
    assert DecodeAll(Frames(front), bins) + ([DecodeRow(p, bins)] + []) == DecodeAll(Frames(events), bins);
  }

  lemma {:induction false} FramesAppend(events: seq<Inbound>, e: Inbound)
    ensures Frames(events + [e]) == Frames(events) + Frames([e])
    decreases |events|
  {
    if events == [] {
      assert events + [e] == [e];
    } else {
      assert (events + [e])[1..] == events[1..] + [e];
      FramesAppend(events[1..], e);
    }
  }

  /**
   * A failed receive before `length` rows ends the loop: the rows are the
   * decoded waterfall payloads read so far and the events after the failure
   * are left unread. Running out of events ends it the same way.
   */
  lemma GatherStopsShort(events: seq<Inbound>, later: seq<Inbound>, want: nat, bins: nat)
    requires NoFailure(events) && AllBroadcastable(Frames(events), bins) && |Frames(events)| < want
    ensures Gather(events + [ReceiveFailure] + later, want, bins) == Gathered(DecodeAll(Frames(events), bins), later)
    ensures Gather(events, want, bins) == Gathered(DecodeAll(Frames(events), bins), [])
  {
    var decoded := DecodeAll(Frames(events), bins);
    assert events + [ReceiveFailure] + later == events + ([ReceiveFailure] + later);
    GatherThrough(events, [ReceiveFailure] + later, want, bins);
    assert ([ReceiveFailure] + later)[1..] == later;
    assert decoded + [] == decoded;
    GatherThrough(events, [], want, bins);
    assert events + [] == events;
  }

  /**
   * A waterfall message whose payload cannot be written into a row, arriving
   * before `length` rows, ends the program.
   */
  lemma GatherCrashes(events: seq<Inbound>, data: seq<Byte>, later: seq<Inbound>, want: nat, bins: nat)
    requires NoFailure(events) && AllBroadcastable(Frames(events), bins) && |Frames(events)| < want
    requires IsWaterfall(data) && !Broadcastable(Payload(data), bins)
    ensures Gather(events + [Message(data)] + later, want, bins) == Crashed(later)
  {
    assert events + [Message(data)] + later == events + ([Message(data)] + later);
    GatherThrough(events, [Message(data)] + later, want, bins);
    assert ([Message(data)] + later)[1..] == later;
  }
}
