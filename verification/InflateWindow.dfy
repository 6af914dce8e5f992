/** Inflate's output: the buffer of the current call and the ring that holds the last 64 KiB of all output. */
module InflateWindow {
  import opened LowBits

  const WINDOW: nat := 0x10000

  /** Two positions less than a window apart have different places in the ring. */
  lemma PlacesDiffer(k: nat, n: nat)
    requires k < n < k + WINDOW
    ensures k % WINDOW != n % WINDOW
  {
    assert (n - k) % WINDOW != 0;
  }

  class Output {
    const window: array<Byte>
    var offset: nat
    var room: nat               // what is left of the output buffer
    var produced: seq<Byte>     // what has been written to it
    ghost var before: seq<Byte> // the output of earlier calls
    ghost var capacity: nat
    ghost var history: seq<Byte>

    /** The ring agrees with the end of the unbounded history. */
    ghost predicate Valid()
      reads this, window
    {
      && window.Length == WINDOW && offset == |history| && history == before + produced
      && |produced| + room == capacity
      && forall k :: 0 <= k < |history| <= k + WINDOW ==> window[k % WINDOW] == history[k]
    }

    constructor ()
      ensures Valid() && history == [] && fresh(window)
    {
      window := new Byte[WINDOW](_ => 0);
      offset, room, produced := 0, 0, [];
      history, before, capacity := [], [], 0;
    }

    lemma LengthKnown()
      requires Valid()
      ensures offset == |history| && window.Length == WINDOW
    {
    }

    /** Supplies the buffer for further output. */
    method Attach(size: nat)
      requires Valid()
      modifies this`room, this`produced, this`before, this`capacity
      ensures Valid() && room == capacity == size && produced == [] && before == history
    {
      room, produced := size, [];
      before, capacity := history, size;
    }

    method Put(value: Byte)
      requires Valid() && room > 0
      modifies this`produced, this`room, this`offset, this`history, window
      ensures Valid() && history == old(history) + [value] && room == old(room) - 1
    {
      produced := produced + [value];
      room := room - 1;
      window[offset % WINDOW] := value;
      forall k | 0 <= k < |history| < k + WINDOW ensures k % WINDOW != offset % WINDOW {
        PlacesDiffer(k, offset);
      }
      offset := offset + 1;
      history := history + [value];
    }

    /** The byte `back` positions before the end of the history. */
    method Look(back: nat) returns (value: Byte)
      requires Valid() && 1 <= back <= |history| && back <= WINDOW
      ensures value == history[|history| - back]
    {
      value := window[(offset - back) % WINDOW];
    }
  }
}
