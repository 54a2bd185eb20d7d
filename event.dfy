/**
 * The base event of the event channel: a flag that records whether a listener has
 * consumed the event, the source that sent it and a timestamp in milliseconds.
 */
module Events {
  /** A C++ `int`: 32 bits, two's complement. */
  newtype Int32 = x: int | -0x8000_0000 <= x < 0x8000_0000

  /** The unsigned 32-bit tick count of the clock. */
  newtype Uint32 = x: int | 0 <= x < 0x1_0000_0000

  /**
   * The conversion of the clock's unsigned tick count to the signed timestamp:
   * the same 32 bits, so counts from 2^31 on become negative.
   */
  function TicksToInt(ticks: Uint32): (t: Int32)
    ensures (t as int - ticks as int) % 0x1_0000_0000 == 0
    ensures ticks < 0x8000_0000 <==> t >= 0
  {
    if ticks < 0x8000_0000 then ticks as int as Int32 else (ticks as int - 0x1_0000_0000) as Int32
  }

  /** Two timestamps with the same 32 bits are the same timestamp: the conversion loses nothing. */
  lemma TicksToIntInjective(a: Uint32, b: Uint32)
    requires TicksToInt(a) == TicksToInt(b)
    ensures a == b
  {
    var ta, tb := TicksToInt(a) as int, TicksToInt(b) as int;
    assert (a as int - b as int) % 0x1_0000_0000 == 0 by {
      assert a as int - b as int == (a as int - ta) - (b as int - tb);
    }
  }

  /** Whatever sends events. */
  class EventSource {
  }

  /** Event: consumed flag, source (null until set) and timestamp. */
  class Event {
    var consumed: bool
    var source: EventSource?
    var timeStamp: Int32

    /** A new event is unconsumed, has no source and is stamped with the clock's current ticks. */
    constructor (ticks: Uint32)
      ensures !consumed && source == null && timeStamp == TicksToInt(ticks)
    {
      consumed := false;
      source := null;
      timeStamp := TicksToInt(ticks);
    }

    /** consume: marks the event as consumed; there is no way back. */
    method Consume()
      modifies this`consumed
      ensures IsConsumed()
    {
      consumed := true;
    }

    function IsConsumed(): bool
      reads this`consumed
    {
      consumed
    }

    function GetSource(): EventSource?
      reads this`source
    {
      source
    }

    /** setSource: getSource returns what was set; the flag and the timestamp stay. */
    method SetSource(s: EventSource?)
      modifies this`source
      ensures GetSource() == s
    {
      source := s;
    }

    function GetTimeStamp(): Int32
      reads this`timeStamp
    {
      timeStamp
    }

    /** setTimeStamp: getTimeStamp returns what was set; the flag and the source stay. */
    method SetTimeStamp(t: Int32)
      modifies this`timeStamp
      ensures GetTimeStamp() == t
    {
      timeStamp := t;
    }
  }
}
