/**
 The monitor through which the manager thread hands bytes to a thread blocked in Read.
 */
module Channels {
  import opened Bytes
  import opened Common

  const ECONNRESET: int := 104

  /** The fields of a channel; `pos` is where mBuffer points, relative to the reader's buffer. */
  datatype Monitor = Monitor(ready: bool, closed: bool, pos: nat, len: nat)

  /** One round of Read's loop, up to its wait: ask for what is missing after the first `len` bytes. */
  function Ask(m: Monitor, size: nat): Monitor
    requires m.len < size
  {
    Monitor(true, m.closed, m.len, size - m.len)
  }

  /** Read up to its first wait. */
  function Enter(m: Monitor, size: nat): Monitor {
    var cleared := m.(len := 0);
    if 0 < size then Ask(cleared, size) else cleared
  }

  /** ReadDone. It replaces the length; it does not add to what earlier hand-offs supplied. */
  function Done(m: Monitor, size: nat): Monitor {
    m.(ready := false, len := size)
  }

  function Overwrite<T>(s: seq<T>, at: nat, data: seq<T>): (r: seq<T>)
    requires at + |data| <= |s|
    ensures |r| == |s|
    ensures r[at..at + |data|] == data
  {
    s[..at] + data + s[at + |data|..]
  }

  /**
   A reader whose first hand-off was short. Whatever is handed to it later is short as well.
   */
  predicate Stuck(m: Monitor, size: nat) {
    if m.ready then 0 < m.pos < size && m.len == size - m.pos else 0 < m.len < size
  }

  class Channel {
    var readReady: bool
    var closed: bool
    var bufferPos: nat
    var bufferLen: nat

    ghost function View(): Monitor
      reads this
    {
      Monitor(readReady, closed, bufferPos, bufferLen)
    }

    constructor ()
      ensures View() == Monitor(false, false, 0, 0)
    {
      readReady, closed, bufferPos, bufferLen := false, false, 0, 0;
    }

    method Close()
      modifies this
      ensures View() == old(View()).(closed := true)
    {
      closed := true;
    }

    /**
     What the manager thread sees at the end of its wait, which is when the monitor is ready or closed,
     or else when the wait has taken its full period.
     */
    method WaitRead() returns (err: Error, pos: nat, size: nat)
      ensures err == if closed then Runtime else if readReady then NoError else Timeout
      ensures err.IsNone() ==> pos == View().pos && size == View().len
    {
      if !(readReady || closed) {
        return Timeout, 0, 0;
      }
      if closed {
        return Runtime, 0, 0;
      }
      return NoError, bufferPos, bufferLen;
    }

    method ReadDone(size: nat)
      modifies this
      ensures View() == Done(old(View()), size)
    {
      readReady, bufferLen := false, size;
    }

    /** Read's announcement, before it waits, of where the missing bytes go. */
    method AskFor(size: nat)
      requires bufferLen < size
      modifies this
      ensures View() == Ask(old(View()), size)
    {
      readReady, bufferPos, bufferLen := true, bufferLen, size - bufferLen;
    }

    /**
     Blocks until the buffer is full or the channel is closed. Each wait ends with the next of
     `handOffs`, of which the manager copies as much as is asked for, or with a close when there
     are no more. Read succeeds exactly when one hand-off, the first, supplies every byte.
     */
    method Read(buffer: array<byte>, size: nat, handOffs: seq<seq<byte>>) returns (ret: int)
      requires size <= buffer.Length
      requires forall i :: 0 <= i < |handOffs| ==> handOffs[i] != []
      requires !closed
      modifies this, buffer
      ensures ret == size || ret == -ECONNRESET
      ensures ret == size <==> size == 0 || (handOffs != [] && size <= |handOffs[0]|)
      ensures ret == size > 0 ==> buffer[..size] == handOffs[0][..size]
      ensures buffer[size..] == old(buffer[size..])
    {
      var next := 0;
      bufferLen := 0;
      while bufferLen < size
        invariant next <= |handOffs| && !closed
        invariant next == 0 ==> bufferLen == 0
        invariant next > 0 ==> 0 < bufferLen <= size
        invariant next > 0 && size <= |handOffs[0]| ==> bufferLen == size && buffer[..size] == handOffs[0][..size]
        invariant next > 0 && |handOffs[0]| < size ==> bufferLen < size
        invariant buffer[size..] == old(buffer[size..])
        decreases |handOffs| - next
      {
        AskFor(size);
        if next == |handOffs| {
          Close();
          return -ECONNRESET;
        }
        var err, pos, asked := WaitRead();
        var chunk := handOffs[next];
        var n := Min(asked, |chunk|);
        forall i | 0 <= i < n {
          buffer[pos + i] := chunk[i];
        }
        ReadDone(n);
        next := next + 1;
      }
      return size;
    }
  }
}
