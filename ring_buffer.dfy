/** The moving-average buffer of the acquisition task: a fixed array of 16
    `u16` slots, a write cursor and a count of valid entries, updated in place
    the way a `heapless::HistoryBuf<u16, 16>` is. */
module RingBuffer {
  import opened Samples

  /** Number of slots of the history buffer. */
  const CAPACITY: nat := 16

  /** The window, oldest sample first, after one more sample is written:
      appended while there is room, otherwise the oldest one is evicted. */
  function Write(s: seq<u16>, v: u16): (r: seq<u16>)
    requires |s| <= CAPACITY
    ensures |r| == if |s| < CAPACITY then |s| + 1 else CAPACITY
  {
    if |s| < CAPACITY then s + [v] else s[1..] + [v]
  }

  /** The window after writing `vs` in order. */
  function Writes(s: seq<u16>, vs: seq<u16>): (r: seq<u16>)
    requires |s| <= CAPACITY
    ensures |r| <= CAPACITY
    decreases |vs|
  {
    if vs == [] then s else Writes(Write(s, vs[0]), vs[1..])
  }

  /** The last `CAPACITY` elements of a sequence (all of it when shorter). */
  function LastWindow(t: seq<u16>): seq<u16> {
    if |t| <= CAPACITY then t else t[|t| - CAPACITY..]
  }

  /** One write keeps the last `CAPACITY` samples written. */
  lemma WriteIsLastWindow(s: seq<u16>, v: u16)
    requires |s| <= CAPACITY
    ensures Write(s, v) == LastWindow(s + [v])
  {
  }

  lemma LastWindowAppend(t: seq<u16>, u: seq<u16>)
    ensures LastWindow(LastWindow(t) + u) == LastWindow(t + u)
  {
    if |t| > CAPACITY {
      var w := t[|t| - CAPACITY..];
      assert w + u == (t + u)[|t| - CAPACITY..];
      if |w + u| > CAPACITY {
        assert (w + u)[|w + u| - CAPACITY..] == (t + u)[|t + u| - CAPACITY..];
      }
    }
  }

  /** However many samples are written, the buffer holds exactly the last
      16 of everything written, in write order. */
  lemma {:induction false} WritesKeepLastWindow(s: seq<u16>, vs: seq<u16>)
    requires |s| <= CAPACITY
    ensures Writes(s, vs) == LastWindow(s + vs)
    decreases |vs|
  {
    if vs == [] {
      assert s + vs == s;
    } else {
      var s' := Write(s, vs[0]);
      WriteIsLastWindow(s, vs[0]);
      WritesKeepLastWindow(s', vs[1..]);
      LastWindowAppend(s + [vs[0]], vs[1..]);
      assert s + [vs[0]] + vs[1..] == s + vs;
    }
  }

  /** Seventeen writes into an empty buffer leave the last sixteen, in
      write order; the first one written has been evicted. */
  lemma SeventeenWrites(vs: seq<u16>)
    requires |vs| == CAPACITY + 1
    ensures Writes([], vs) == vs[1..]
  {
    WritesKeepLastWindow([], vs);
    assert [] + vs == vs;
  }

  class HeaplessMutexRingBuffer {
    /** The slots; only the first `len` of them hold samples. */
    var data: array<u16>
    /** Index of the slot the next write goes to. */
    var cursor: nat
    /** Number of valid entries. */
    var len: nat

    ghost predicate Valid()
      reads this
    {
      data.Length == CAPACITY && cursor < CAPACITY && len <= CAPACITY &&
      (len < CAPACITY ==> cursor == len)
    }

    /** The valid entries in write order, oldest first: the slots below the
        cursor until the buffer fills, afterwards the ring starting at the
        cursor (the oldest slot). */
    ghost function Contents(): (s: seq<u16>)
      reads this, data
      requires Valid()
      ensures |s| == len
    {
      if len < CAPACITY then data[..len] else data[cursor..] + data[..cursor]
    }

    /** A new, empty buffer. */
    constructor ()
      ensures Valid() && fresh(data)
      ensures Contents() == []
    {
      data := new u16[CAPACITY](_ => 0);
      cursor := 0;
      len := 0;
    }

    /** Stores `value` in the slot under the cursor and advances the cursor;
        a full buffer thereby loses its oldest sample. */
    method Add(value: u16)
      requires Valid()
      modifies this, data
      ensures Valid() && data == old(data)
      ensures cursor == (old(cursor) + 1) % CAPACITY
      ensures old(len) < CAPACITY ==> len == old(len) + 1 && Contents() == old(Contents()) + [value]
      ensures old(len) == CAPACITY ==> len == CAPACITY && Contents() == old(Contents())[1..] + [value]
      ensures Contents() == Write(old(Contents()), value)
    {
      ghost var before := Contents();
      ghost var slots := data[..];
      data[cursor] := value;
      if len < CAPACITY {
        assert data[..len + 1] == before + [value];
        len := len + 1;
      } else {
        assert data[cursor + 1..] == slots[cursor + 1..];
        assert data[..cursor + 1] == slots[..cursor] + [value];
        assert before[1..] == slots[cursor + 1..] + slots[..cursor];
      }
      cursor := if cursor + 1 == CAPACITY then 0 else cursor + 1;
      assert len == CAPACITY && cursor == 0 ==> data[..] == data[..len];
    }

    /** The average of the valid entries: their `u16` sum, taken in slot
        order, divided with truncation by their number. A Rust division by
        zero panics, so the buffer must not be empty. */
    function GetAll(): (avg: int)
      reads this, data
      requires Valid() && len > 0
      ensures avg == WindowAverage(Contents())
      ensures IsTwelveBit(Contents()) ==> NoOverflow(data[..len])
      ensures IsTwelveBit(Contents()) ==> avg == Sum(Contents()) / len
      ensures IsTwelveBit(Contents()) ==> SeqMin(Contents()) <= avg <= SeqMax(Contents())
    {
      SlotsSum();
      SlotsTwelveBit();
      WrappingSum(data[..len]) / len
    }

    /** The valid slots, in storage order, have the same sum as the window. */
    lemma SlotsSum()
      requires Valid()
      ensures Sum(data[..len]) == Sum(Contents())
    {
      if len == CAPACITY {
        assert data[..len] == data[..];
        SumRotation(data[..], cursor);
        assert data[..][cursor..] + data[..][..cursor] == Contents();
      }
    }

    /** Twelve-bit entries in the window never overflow the slot-order fold. */
    lemma SlotsTwelveBit()
      requires Valid()
      ensures IsTwelveBit(Contents()) ==> NoOverflow(data[..len])
    {
      if IsTwelveBit(Contents()) {
        SlotsAreTwelveBit();
        TwelveBitNoOverflow(data[..len]);
      }
    }

    lemma SlotsAreTwelveBit()
      requires Valid() && IsTwelveBit(Contents())
      ensures IsTwelveBit(data[..len])
    {
      if len == CAPACITY {
        var c := Contents();
        forall i | 0 <= i < len
          ensures data[..len][i] <= ADC_MAX
        {
          if i < cursor {
            assert data[i] == c[CAPACITY - cursor + i];
          } else {
            assert data[i] == c[i - cursor];
          }
        }
      }
    }
  }
}
