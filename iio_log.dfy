/** The fixed-capacity history of the occupancy collector (`iio_log`):
    entries, slot selection by `log_index % LOG_SIZE`, and the contents of
    the ring after a sequence of appends. */
module IioLog {
  import opened Machine

  /** Number of slots of the ring. */
  const LOG_SIZE: nat := 100000

  /** `struct log_entry`: one sample as recorded by `update_log`. */
  datatype LogEntry = LogEntry(
    lTsc: U64,
    tdNs: U64,
    avgOcc: U64,
    sAvgOcc: U64,
    sAvgOccLongterm: U64,
    core: Int32)

  /** A never-written slot after initialisation: all numbers zero and the
      core set to the number of logical cores, which no real core id equals. */
  function Sentinel(numLcores: Int32): LogEntry
  {
    LogEntry(0, 0, 0, 0, 0, numLcores)
  }

  /** The slot written for a given `log_index`. */
  function Slot(logIndex: U32): (k: nat)
    ensures k < LOG_SIZE
    ensures logIndex < LOG_SIZE ==> k == logIndex
  {
    logIndex % LOG_SIZE
  }

  /** Successive appends move to the next slot, wrapping from the last slot
      to the first, except when the 32-bit `log_index` itself wraps: 2^32 is
      not a multiple of LOG_SIZE, so after slot 67295 the ring restarts at
      slot 0 and slots 67296 .. 99999 are skipped for one round. */
  lemma NextSlot(logIndex: U32)
    ensures Slot(Inc32(logIndex)) == (Slot(logIndex) + 1) % LOG_SIZE <==> logIndex != TWO_32 - 1
    ensures logIndex == TWO_32 - 1 ==> Slot(logIndex) == 67295 && Slot(Inc32(logIndex)) == 0
  {
    if logIndex != TWO_32 - 1 {
      var q := logIndex / LOG_SIZE;
      assert logIndex == q * LOG_SIZE + Slot(logIndex);
      if Slot(logIndex) == LOG_SIZE - 1 {
        assert logIndex + 1 == (q + 1) * LOG_SIZE;
      } else {
        assert logIndex + 1 == q * LOG_SIZE + (Slot(logIndex) + 1);
      }
    }
  }

  /** The ring `log` after appending `entries` in order, starting at
      `log_index == start`; the index wraps as a `uint32_t`. */
  function Replay(log: seq<LogEntry>, start: U32, entries: seq<LogEntry>): (r: seq<LogEntry>)
    requires |log| == LOG_SIZE
    ensures |r| == LOG_SIZE
  {
    if entries == [] then log
    else
      var n := |entries| - 1;
      Replay(log, start, entries[..n])[Slot((start + n) % TWO_32) := entries[n]]
  }

  /** One more append writes the next entry into the slot of the current
      index. */
  lemma ReplayAppend(log: seq<LogEntry>, start: U32, entries: seq<LogEntry>, e: LogEntry)
    requires |log| == LOG_SIZE
    ensures Replay(log, start, entries + [e]) == Replay(log, start, entries)[Slot((start + |entries|) % TWO_32) := e]
  {
    assert (entries + [e])[..|entries|] == entries;
  }

  /** The 32-bit index after `n` appends from `start`, incremented once
      more, is the index after `n + 1` appends. */
  lemma IndexStep(start: U32, n: nat)
    ensures Inc32((start + n) % TWO_32) == (start + n + 1) % TWO_32
  {
  }

  /** Two indices less than LOG_SIZE apart select different slots. */
  lemma DistinctSlots(a: nat, b: nat)
    requires a < b < a + LOG_SIZE
    ensures a % LOG_SIZE != b % LOG_SIZE
  {
    var qa, qb := a / LOG_SIZE, b / LOG_SIZE;
    assert a == qa * LOG_SIZE + a % LOG_SIZE;
    assert b == qb * LOG_SIZE + b % LOG_SIZE;
    assert b - a == (qb - qa) * LOG_SIZE + (b % LOG_SIZE - a % LOG_SIZE);
  }

  /** While the index does not wrap, an entry survives in its slot until an
      append LOG_SIZE places later overwrites it. */
  lemma {:induction false} LatestWins(log: seq<LogEntry>, start: U32, entries: seq<LogEntry>, t: nat)
    requires |log| == LOG_SIZE && start + |entries| <= TWO_32
    requires t < |entries| <= t + LOG_SIZE
    ensures Replay(log, start, entries)[Slot(start + t)] == entries[t]
  {
    var n := |entries| - 1;
    if t < n {
      LatestWins(log, start, entries[..n], t);
      DistinctSlots(start + t, start + n);
    }
  }

  /** While the index does not wrap, a slot no append selected keeps its
      previous contents. */
  lemma {:induction false} Untouched(log: seq<LogEntry>, start: U32, entries: seq<LogEntry>, k: nat)
    requires |log| == LOG_SIZE && start + |entries| <= TWO_32 && k < LOG_SIZE
    requires forall i :: start <= i < start + |entries| ==> Slot(i) != k
    ensures Replay(log, start, entries)[k] == log[k]
  {
    if entries != [] {
      var n := |entries| - 1;
      Untouched(log, start, entries[..n], k);
    }
  }

  /** Appending LOG_SIZE + j entries from index 0 (0 < j <= LOG_SIZE) leaves
      the last j entries in slots 0 .. j-1 and the others in slot order. */
  lemma RingWrap(log: seq<LogEntry>, entries: seq<LogEntry>, j: nat, k: nat)
    requires |log| == LOG_SIZE && 0 < j <= LOG_SIZE && |entries| == LOG_SIZE + j
    requires k < LOG_SIZE
    ensures k < j ==> Replay(log, 0, entries)[k] == entries[LOG_SIZE + k]
    ensures j <= k ==> Replay(log, 0, entries)[k] == entries[k]
  {
    if k < j {
      LatestWins(log, 0, entries, LOG_SIZE + k);
      assert Slot(LOG_SIZE + k) == k;
    } else {
      LatestWins(log, 0, entries, k);
    }
  }

  /** On a ring that starts as all sentinels, and while the index does not
      wrap, a slot holds the sentinel exactly when no append selected it,
      provided every appended entry comes from a real core. */
  lemma {:induction false} SentinelMarksUnwritten(log: seq<LogEntry>, numLcores: Int32, start: U32, entries: seq<LogEntry>, k: nat)
    requires |log| == LOG_SIZE && forall j :: 0 <= j < LOG_SIZE ==> log[j] == Sentinel(numLcores)
    requires start + |entries| <= TWO_32 && k < LOG_SIZE
    requires forall i :: 0 <= i < |entries| ==> 0 <= entries[i].core < numLcores
    ensures Replay(log, start, entries)[k] == Sentinel(numLcores)
      <==> forall i :: start <= i < start + |entries| ==> Slot(i) != k
  {
    if entries != [] {
      var n := |entries| - 1;
      SentinelMarksUnwritten(log, numLcores, start, entries[..n], k);
      if Slot(start + n) == k {
        assert entries[n].core != numLcores;
      }
    }
  }
}
