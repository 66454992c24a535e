/** The keepalive that the TURN core queues is ChannelData as the framing layer defines it. */
module Keepalive {
  import opened Bytes
  import TurnState
  import TurnInvariant
  import TurnStream

  lemma OneByteFrame(channel: U16)
    ensures Be16(channel) + Be16(1) + [0xff, 0, 0, 0] == TurnStream.ChannelData(channel, [0xff])
  {
    hide Be16, TurnStream.Padding;
    TurnStream.PaddingIs(1);
    assert Zeros(3) == [0, 0, 0];
    TurnStream.Assembled(channel, [0xff]);
    assert [0xff] + Zeros(3) == [0xff, 0, 0, 0];
    assert Be16(channel) + Be16(1) + [0xff] + Zeros(3) == Be16(channel) + Be16(1) + ([0xff] + Zeros(3));
  }

  lemma KeepaliveBytes()
    ensures TurnStream.ChannelData(TurnState.CHANNEL_NUMBER, [0xff]) == [0x40, 0, 0, 1, 0xff, 0, 0, 0]
  {
    hide Be16, TurnStream.ChannelData;
    OneByteFrame(TurnState.CHANNEL_NUMBER);
    Be16Is(TurnState.CHANNEL_NUMBER);
    Be16Is(1);
  }

  /**
   In any state the core can be in, a keepalive goes to the end of the queue, in place of the oldest packet
   if the queue is full, as a one-byte frame that reads back on any stream; without a channel there is none.
   */
  lemma KeepaliveIsFramed(c: TurnState.Core, cfg: TurnState.Config, rest: seq<Byte>)
    requires TurnInvariant.Inv(c, cfg)
    ensures c.channel.None? ==> c.QueueKeepalive() == c
    ensures c.channel.Some? ==>
              var wire := TurnStream.ChannelData(c.channel.value, [0xff]);
              var kept := if |c.controls| == TurnState.CONTROL_CAPACITY then c.controls[1..] else c.controls;
              && c.QueueKeepalive().(events := c.events) == c.(controls := kept + [wire])
              && |kept| < TurnState.CONTROL_CAPACITY
              && wire == [0x40, 0, 0, 1, 0xff, 0, 0, 0]
              && TurnStream.ChannelDataHeader(wire) == Some((c.channel.value, 1))
              && TurnStream.Decode(wire + rest) == TurnStream.Found(TurnStream.Data(wire), rest)
  {
    hide TurnStream.ChannelData, TurnStream.Decode, TurnStream.ChannelDataHeader, Be16, TurnInvariant.TableOk,
         TurnInvariant.TeardownPacket, TurnState.Core.PushEvent;
    if c.channel.Some? {
      var channel := c.channel.value;
      OneByteFrame(channel);
      KeepaliveBytes();
      TurnStream.ChannelDataReadsBack(channel, [0xff]);
      TurnStream.StreamTakesChannelData(channel, [0xff], rest);
      TurnStream.PaddingIs(1);
      var kept := if |c.controls| > 0 then c.controls[1..] else [];
      TurnInvariant.PushEventFrame(c.(controls := kept), TurnState.ControlOverflow);
    }
  }
}
