/**
 * The receiver side of the WebSocket connection to the KiwiSDR, as the
 * sampler sees it: configuration messages go out, binary messages come in.
 *
 * The inbound side is the sequence of events the server delivers: a message
 * with its bytes, or a failure (a timeout or any other error of the
 * receive). Once the sequence is exhausted every further receive fails,
 * as a receive on a silent socket times out.
 */
module Kiwi {
  import opened Wrappers
  import opened Text

  type Byte = b: int | 0 <= b < 256

  datatype Inbound = Message(data: seq<Byte>) | ReceiveFailure

  class KiwiStream {
    /** The text messages sent so far, in order. */
    var sent: seq<string>
    /** The events the server has still to deliver, in order. */
    var inbound: seq<Inbound>

    constructor (events: seq<Inbound>)
      ensures sent == [] && inbound == events
    {
      sent := [];
      inbound := events;
    }

    method SendMessage(msg: string)
      modifies this
      ensures sent == old(sent) + [msg] && inbound == old(inbound)
    {
      sent := sent + [msg];
    }

    /** The next inbound event, consumed; a failure once nothing is left. */
    method ReceiveMessage() returns (event: Inbound)
      modifies this
      ensures old(inbound) == [] ==> event == ReceiveFailure && inbound == []
      ensures old(inbound) != [] ==> event == old(inbound)[0] && inbound == old(inbound)[1..]
      ensures sent == old(sent)
    {
      if inbound == [] {
        event := ReceiveFailure;
      } else {
        event := inbound[0];
        inbound := inbound[1..];
      }
    }
  }

  const AuthPrefix: string := "SET auth t=kiwi p="

  /** The password "NONE" stands for no password. */
  function AuthMessage(password: string): (msg: string)
    ensures |msg| >= |AuthPrefix| && msg[..|AuthPrefix|] == AuthPrefix
    ensures msg[|AuthPrefix|..] == if password == "NONE" then "" else password
  {
    AuthPrefix + (if password != "NONE" then password else "")
  }

  function ZoomMessage(zoom: int, start: int): string
  {
    "SET zoom=" + IntToString(zoom) + " start=" + IntToString(start)
  }

  /** The configuration sent before any data is read, in the order it is sent. */
  function Commands(zoom: int, start: int, password: string): (msgs: seq<string>)
    ensures |msgs| == 5 && msgs[0] == AuthMessage(password)
    ensures ParseZoomMessage(msgs[1]) == Some((zoom, start))
  {
    ZoomMessageRoundTrip(zoom, start);
    [AuthMessage(password), ZoomMessage(zoom, start),
     "SET maxdb=0 mindb=-100", "SET wf_speed=4", "SET wf_comp=0"]
  }

  method SendCommands(stream: KiwiStream, zoom: int, start: int, password: string)
    modifies stream
    ensures stream.sent == old(stream.sent) + Commands(zoom, start, password)
    ensures stream.inbound == old(stream.inbound)
  {
    var msgs := Commands(zoom, start, password);
    for i := 0 to |msgs|
      invariant stream.sent == old(stream.sent) + msgs[..i]
      invariant stream.inbound == old(stream.inbound)
    {
      stream.SendMessage(msgs[i]);
      assert msgs[..i + 1] == msgs[..i] + [msgs[i]];
    }
    assert msgs[..|msgs|] == msgs;
  }

  /** How the receiver reads a zoom command: its zoom factor and start offset. */
  function ParseZoomMessage(msg: string): Option<(int, int)>
  {
    var prefix := "SET zoom=";
    if |msg| < |prefix| || msg[..|prefix|] != prefix then None
    else
      var fields := Split(msg[|prefix|..], ' ');
      if |fields| != 2 || |fields[1]| < 6 || fields[1][..6] != "start=" then None
      else
        match (ParseInt(fields[0]), ParseInt(fields[1][6..]))
        case (Some(z), Some(s)) => Some((z, s))
        case _ => None
  }

  lemma ZoomMessageRoundTrip(zoom: int, start: int)
    ensures ParseZoomMessage(ZoomMessage(zoom, start)) == Some((zoom, start))
  {
    var z, s := IntToString(zoom), IntToString(start);
    ZoomTextFields(z, s);
    var tail := "start=" + s;
    assert tail[..6] == "start=" && tail[6..] == s;
    IntRoundTrip(zoom);
    IntRoundTrip(start);
  }

  /** The text of a zoom command with any two numerals splits into the zoom numeral and the start field. */
  lemma ZoomTextFields(z: string, s: string)
    requires IsNumeral(z) && IsNumeral(s)
    ensures var msg := "SET zoom=" + z + " start=" + s;
      |msg| >= 9 && msg[..9] == "SET zoom=" && Split(msg[9..], ' ') == [z, "start=" + s]
  {
    var tail := "start=" + s;
    var msg := "SET zoom=" + z + " start=" + s;
    assert msg[..9] == "SET zoom=" && msg[9..] == z + [' '] + tail by {
      assert msg == "SET zoom=" + (z + [' '] + tail);
    }
    NumeralHasNoSpace(z);
    NumeralHasNoSpace(s);
    assert ' ' !in tail;
    SplitAtFirst(z, ' ', tail);
    SplitWithoutSep(tail, ' ');
  }

  lemma NumeralHasNoSpace(s: string)
    requires IsNumeral(s)
    ensures ' ' !in s
  {
  }

  /**
   * The five configuration messages, as the receiver reads them: the
   * password first (empty for "NONE"), then the zoom factor and start offset,
   * then the fixed level range, speed and compression settings.
   */
  lemma CommandsRead(zoom: int, start: int, password: string)
    ensures var msgs := Commands(zoom, start, password);
      && |msgs| == 5
      && msgs[0][..|AuthPrefix|] == AuthPrefix
      && msgs[0][|AuthPrefix|..] == (if password == "NONE" then "" else password)
      && ParseZoomMessage(msgs[1]) == Some((zoom, start))
      && msgs[2..] == ["SET maxdb=0 mindb=-100", "SET wf_speed=4", "SET wf_comp=0"]
  {
    ZoomMessageRoundTrip(zoom, start);
  }
}
