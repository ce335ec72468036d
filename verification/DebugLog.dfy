/** The in-memory debug log: a ring buffer under a wrapping byte counter, and the log it stands for. */
module DebugLog {

  const RING: nat := 48 * 1024
  const WRAP: nat := 0x1_0000_0000

  function Max(a: int, b: int): int {
    if a < b then b else a
  }

  // ----- what the buffer stands for

  /** What an ideal log of the last RING bytes answers. */
  function Window(log: string, from: nat): string {
    if from >= |log| then "" else log[Max(from, |log| - RING)..]
  }

  /** What the buffer answers: offsets are taken modulo the counter's width. */
  function Fetched(log: string, from: nat): string {
    var end := |log| % WRAP;
    if from >= end then "" else log[|log| - end + Max(from, end - RING)..]
  }

  /** The buffer is the ideal log exactly as long as the counter has not wrapped. */
  lemma RingIsTheLogUntilTheWrap(log: string)
    ensures (forall from: nat :: Fetched(log, from) == Window(log, from)) <==> |log| < WRAP
  {
    var end := |log| % WRAP;
    if |log| >= WRAP {
      assert end < WRAP;
      assert Fetched(log, end) == "";
      assert |Window(log, end)| > 0;
    } else {
      assert end == |log|;
    }
  }

  /** Before the wrap, fetching from the start gives the last 48 KiB. */
  lemma LastBytesAreKept(log: string)
    requires |log| < 0x1_0000_0000
    ensures Fetched(log, 0) == if |log| <= 49152 then log else log[|log| - 49152..]
  {
    assert |log| % WRAP == |log|;
  }

  // ----- a reader that polls

  function Flatten(chunks: seq<string>): string {
    if chunks == [] then "" else Flatten(chunks[..|chunks| - 1]) + chunks[|chunks| - 1]
  }

  /** What a reader collects who fetches after every chunk, from the offset the last fetch gave. */
  function Polled(chunks: seq<string>): string {
    if chunks == [] then ""
    else
      var earlier := chunks[..|chunks| - 1];
      Polled(earlier) + Fetched(Flatten(chunks), |Flatten(earlier)| % WRAP)
  }

  function Tail(chunk: string): string {
    if |chunk| <= RING then chunk else chunk[|chunk| - RING..]
  }

  lemma FetchAfterChunk(log: string, chunk: string)
    requires |log| + |chunk| < WRAP
    ensures Fetched(log + chunk, |log| % WRAP) == Tail(chunk)
  {
    var all := log + chunk;
    assert |log| % WRAP == |log| && |all| % WRAP == |all|;
    SuffixOfChunk(log, chunk, Max(|log|, |all| - RING));
  }

  lemma SuffixOfChunk(log: string, chunk: string, from: nat)
    requires |log| <= from <= |log| + |chunk|
    ensures (log + chunk)[from..] == chunk[from - |log|..]
  {
  }

  predicate NeverBehind(chunks: seq<string>) {
    forall k :: 0 <= k < |chunks| ==> |chunks[k]| <= RING
  }

  lemma {:induction false} PolledIsNoLonger(chunks: seq<string>)
    requires |Flatten(chunks)| < WRAP
    ensures |Polled(chunks)| <= |Flatten(chunks)|
    ensures |Polled(chunks)| == |Flatten(chunks)| ==> NeverBehind(chunks)
  {
    if chunks != [] {
      var earlier, last := chunks[..|chunks| - 1], chunks[|chunks| - 1];
      PolledIsNoLonger(earlier);
      FetchAfterChunk(Flatten(earlier), last);
      if |Polled(chunks)| == |Flatten(chunks)| {
        forall k | 0 <= k < |chunks| ensures |chunks[k]| <= RING {
          if k < |earlier| {
            assert earlier[k] == chunks[k];
          }
        }
      }
    }
  }

  /** Before the wrap, a polling reader reassembles the log exactly when no chunk written between two
      polls is longer than the buffer. */
  lemma {:induction false} PollingReassemblesExactly(chunks: seq<string>)
    requires |Flatten(chunks)| < WRAP
    ensures Polled(chunks) == Flatten(chunks) <==> NeverBehind(chunks)
  {
    PolledIsNoLonger(chunks);
    if chunks != [] && NeverBehind(chunks) {
      var earlier, last := chunks[..|chunks| - 1], chunks[|chunks| - 1];
      assert NeverBehind(earlier) && |last| <= RING by {
        assert forall k :: 0 <= k < |earlier| ==> earlier[k] == chunks[k];
      }
      PollingReassemblesExactly(earlier);
      FetchAfterChunk(Flatten(earlier), last);
    }
  }

  /** A poll that straddles the wrap of the counter gets nothing, whatever was written. */
  lemma PollAcrossTheWrapIsLost(log: string, chunk: string)
    requires |chunk| < WRAP && |log| / WRAP < |log + chunk| / WRAP
    ensures Fetched(log + chunk, |log| % WRAP) == ""
  {
    assert |log + chunk| / WRAP == |log| / WRAP + 1;
  }

  // ----- the buffer

  /** The cells behind the counter hold the end of the log. */
  ghost predicate Holds(cells: seq<char>, total: nat, log: string) {
    && |cells| == RING && total == |log| % WRAP
    && forall i :: Max(0, total - RING) <= i < total ==> cells[i % RING] == log[|log| - total + i]
  }

  /** Cells of one window are distinct. */
  lemma OtherCell(i: nat, total: nat)
    requires total - RING < i < total
    ensures i % RING != total % RING
  {
  }

  lemma CellAfterByte(cells: seq<char>, total: nat, log: string, c: char, i: nat)
    requires Holds(cells, total, log) && Max(0, total + 1 - RING) <= i <= total
    ensures cells[total % RING := c][i % RING] == (log + [c])[|log| - total + i]
  {
    if i < total {
      OtherCell(i, total);
      assert cells[i % RING] == log[|log| - total + i];
    }
  }

  lemma WindowHolds(cells: seq<char>, total: nat, log: string)
    requires |cells| == RING && total == |log| % WRAP
    requires forall i: nat :: Max(0, total - RING) <= i < total ==> cells[i % RING] == log[|log| - total + i]
    ensures Holds(cells, total, log)
  {
  }

  lemma HoldsAfterByte(cells: seq<char>, total: nat, log: string, c: char)
    requires Holds(cells, total, log)
    ensures Holds(cells[total % RING := c], (total + 1) % WRAP, log + [c])
  {
    WrapStep(|log|);
    assert total < WRAP && |cells| == RING && total == |log| % WRAP;
    hide Holds;
    var next := cells[total % RING := c];
    if total + 1 < WRAP {
      assert (total + 1) % WRAP == total + 1;
      forall i: nat | Max(0, total + 1 - RING) <= i < total + 1
        ensures next[i % RING] == (log + [c])[|log + [c]| - (total + 1) + i]
      {
        CellAfterByte(cells, total, log, c, i);
      }
      WindowHolds(next, total + 1, log + [c]);
    } else {
      assert (total + 1) % WRAP == 0;
      WindowHolds(next, 0, log + [c]);
    }
  }

  class RingLog {
    const buffer: array?<char>
    var writeTotal: nat
    ghost var log: string

    ghost predicate Valid()
      reads this, buffer
    {
      if buffer == null then writeTotal == 0 && log == ""
      else buffer.Length == RING && Holds(buffer[..], writeTotal, log)
    }

    /** debug_log_init: the memory may be missing, and then nothing is ever kept. */
    constructor (haveMemory: bool)
      ensures Valid() && log == "" && (buffer == null <==> !haveMemory)
      ensures buffer != null ==> fresh(buffer)
    {
      if haveMemory {
        buffer := new char[RING];
      } else {
        buffer := null;
      }
      writeTotal := 0;
      log := "";
    }

    /** buf_write */
    method BufWrite(data: string)
      requires Valid() && buffer != null
      modifies this, buffer
      ensures Valid() && log == old(log) + data
    {
      for i := 0 to |data|
        invariant Valid() && log == old(log) + data[..i]
      {
        Put(data[i]);
        assert old(log) + data[..i + 1] == old(log) + data[..i] + [data[i]];
      }
      assert data[..|data|] == data;
    }

    method Put(c: char)
      requires Valid() && buffer != null
      modifies this, buffer
      ensures Valid() && log == old(log) + [c]
    {
      hide Holds;
      HoldsAfterByte(buffer[..], writeTotal, log, c);
      buffer[writeTotal % RING] := c;
      writeTotal := (writeTotal + 1) % WRAP;
      log := log + [c];
    }

    /** debug_log_fetch */
    method Fetch(from: nat) returns (result: string, end: nat)
      requires Valid()
      ensures result == Fetched(log, from)
      ensures end == |log| % WRAP
    {
      end := writeTotal;
      if from >= end || buffer == null {
        return "", end;
      }
      var validStart := if end > RING then end - RING else 0;
      var start := if from < validStart then validStart else from;
      result := "";
      ghost var base := |log| - end;
      for i := 0 to end - start
        invariant result == log[base + start..base + start + i]
      {
        ghost var at := base + start;
        assert buffer[..][(start + i) % RING] == log[at + i];
        assert log[at..at + (i + 1)] == log[at..at + i] + [log[at + i]];
        result := result + [buffer[(start + i) % RING]];
      }
      assert log[base + start..|log|] == log[base + start..];
    }

    method EndOffset() returns (end: nat)
      requires Valid()
      ensures end == |log| % WRAP
    {
      end := writeTotal;
    }
  }

  lemma WrapStep(n: nat)
    ensures (n + 1) % WRAP == (n % WRAP + 1) % WRAP
  {
  }
}
