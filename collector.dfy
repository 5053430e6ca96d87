/** The program-wide state of `collect_iio_occ` and the functions that
    update it in place: sampling the occupancy counter and the TSC, the rate
    and smoothing update, the ring log, its initialisation and its dump.

    The MSR device and the `rdtscp` instruction are not modelled: the value a
    register read returns and the EAX/EDX/ECX halves `rdtscp` produces are
    parameters, and every access to the device or the TSC is appended, in
    program order, to the ghost trace `accesses`. */
module Collector {
  import opened Machine
  import opened Occupancy
  import opened IioLog

  /** One access to the hardware: a read of model-specific register
      `register` on logical processor `core`, a write of `value` to one, or
      a read of the time-stamp counter. */
  datatype Access =
    | MsrRead(core: Int32, register: U64)
    | MsrWrite(core: Int32, register: U64, value: U64)
    | TscRead
  /** One data row of the dump `main_exit` writes: slot number and contents. */
  datatype Row = Row(index: int, entry: LogEntry)

  /** An all-zero entry, as C leaves a static `struct log_entry`. */
  const ZERO_ENTRY: LogEntry := LogEntry(0, 0, 0, 0, 0, 0)

  class Collector {
    var iioLog: array<LogEntry>
    var logIndex: U32
    var counter: U32
    var prevRdtsc: U64
    var curRdtsc: U64
    var prevCumOcc: U64
    var curCumOcc: U64
    var tscSample: U64
    var cumOccSample: U64
    var msrNum: U64
    var latestTimeDeltaNs: U64
    var latestAvgOcc: U64
    var smoothedAvgOcc: U64
    var smoothedAvgOccLongterm: U64
    var smoothedAvgOccF: real
    var smoothedAvgOccLongtermF: real

    /** The ring as it was when the history started, the index it started
        from, and every entry appended since, oldest first. */
    ghost var base: seq<LogEntry>
    ghost var baseIndex: U32
    ghost var appended: seq<LogEntry>
    /** Every hardware access so far, oldest first. */
    ghost var accesses: seq<Access>

    /** The values `update_occ` reads and writes besides the samples. */
    ghost function Occ(): OccState
      reads this
    {
      OccState(latestTimeDeltaNs, latestAvgOcc, smoothedAvgOcc, smoothedAvgOccLongterm,
               smoothedAvgOccF, smoothedAvgOccLongtermF)
    }

    /** The ring holds LOG_SIZE entries and is exactly what replaying the
        appended entries from the start of the history gives; the smoother
        state is consistent. */
    ghost predicate Valid()
      reads this, iioLog
    {
      && iioLog.Length == LOG_SIZE
      && Consistent(Occ())
      && |base| == LOG_SIZE
      && iioLog[..] == Replay(base, baseIndex, appended)
      && logIndex == (baseIndex + |appended|) % TWO_32
    }

    /** Program start: every global is zero, as C initialises static storage. */
    constructor ()
      ensures Valid() && fresh(iioLog)
      ensures Occ() == ZERO_STATE && logIndex == 0 && counter == 0
      ensures prevRdtsc == curRdtsc == prevCumOcc == curCumOcc == 0
      ensures tscSample == cumOccSample == msrNum == 0
      ensures forall k :: 0 <= k < LOG_SIZE ==> iioLog[k] == ZERO_ENTRY
      ensures appended == [] && accesses == []
    {
      iioLog := new LogEntry[LOG_SIZE](_ => ZERO_ENTRY);
      logIndex, counter := 0, 0;
      prevRdtsc, curRdtsc, prevCumOcc, curCumOcc := 0, 0, 0, 0;
      tscSample, cumOccSample, msrNum := 0, 0, 0;
      latestTimeDeltaNs, latestAvgOcc, smoothedAvgOcc, smoothedAvgOccLongterm := 0, 0, 0, 0;
      smoothedAvgOccF, smoothedAvgOccLongtermF := 0.0, 0.0;
      new;
      base, baseIndex, appended, accesses := iioLog[..], 0, [], [];
    }

    /** `update_occ_ctl_reg`: program the control register of the stack with
        the occupancy event selector. */
    method ArmControlRegister(core: Int32, stack: Int32)
      requires StackInRange(stack)
      modifies this`msrNum, this`accesses
      ensures msrNum == CtlAddress(stack)
      ensures accesses == old(accesses) + [MsrWrite(core, CtlAddress(stack), IRP_OCC_VAL)]
    {
      msrNum := CtlAddress(stack);
      accesses := accesses + [MsrWrite(core, msrNum, IRP_OCC_VAL)];
    }

    /** `main_init`: set every slot to the sentinel, then arm the counter. */
    method MainInit(numLcores: Int32, core: Int32, stack: Int32)
      requires Valid() && StackInRange(stack)
      modifies this`base, this`baseIndex, this`appended, this`msrNum, this`accesses, iioLog
      ensures Valid()
      ensures forall k :: 0 <= k < LOG_SIZE ==> iioLog[k] == Sentinel(numLcores)
      ensures base == iioLog[..] && baseIndex == logIndex == old(logIndex) && appended == []
      ensures accesses == old(accesses) + [MsrWrite(core, CtlAddress(stack), IRP_OCC_VAL)]
      ensures msrNum == CtlAddress(stack)
      ensures Occ() == old(Occ()) && counter == old(counter)
      ensures prevRdtsc == old(prevRdtsc) && curRdtsc == old(curRdtsc)
      ensures prevCumOcc == old(prevCumOcc) && curCumOcc == old(curCumOcc)
    {
      var i := 0;
      while i < LOG_SIZE
        invariant 0 <= i <= LOG_SIZE
        invariant forall k :: 0 <= k < i ==> iioLog[k] == Sentinel(numLcores)
        modifies iioLog
      {
        iioLog[i] := Sentinel(numLcores);
        i := i + 1;
      }
      base, baseIndex, appended := iioLog[..], logIndex, [];
      ArmControlRegister(core, stack);
    }

    /** The start of `main` once the devices are open: `main_init`, which
        arms the control register, then a second arming of the same
        register. Both writes are identical. */
    method Startup(numLcores: Int32, core: Int32, stack: Int32)
      requires Valid() && StackInRange(stack)
      modifies this`base, this`baseIndex, this`appended, this`msrNum, this`accesses, iioLog
      ensures Valid()
      ensures forall k :: 0 <= k < LOG_SIZE ==> iioLog[k] == Sentinel(numLcores)
      ensures base == iioLog[..] && appended == [] && logIndex == old(logIndex)
      ensures msrNum == CtlAddress(stack)
      ensures accesses == old(accesses) + [MsrWrite(core, CtlAddress(stack), IRP_OCC_VAL), MsrWrite(core, CtlAddress(stack), IRP_OCC_VAL)]
    {
      MainInit(numLcores, core, stack);
      ArmControlRegister(core, stack);
    }

    /** `sample_iio_occ_counter`: read the occupancy counter of the stack
        and shift the previous/current pair. */
    method SampleIioOccCounter(core: Int32, stack: Int32, rdVal: U64)
      requires StackInRange(stack)
      modifies this`msrNum, this`cumOccSample, this`prevCumOcc, this`curCumOcc, this`accesses
      ensures msrNum == CtrAddress(stack)
      ensures accesses == old(accesses) + [MsrRead(core, CtrAddress(stack))]
      ensures cumOccSample == rdVal
      ensures prevCumOcc == old(curCumOcc) && curCumOcc == rdVal
    {
      msrNum := CtrAddress(stack);
      accesses := accesses + [MsrRead(core, msrNum)];
      cumOccSample := rdVal;
      prevCumOcc := curCumOcc;
      curCumOcc := cumOccSample;
    }

    /** `sample_time_counter`: read the TSC (`rdtscp` returned EAX = `a`,
        EDX = `d`) and shift the previous/current pair. */
    method SampleTimeCounter(a: bv64, d: bv64)
      requires a < 0x1_0000_0000 && d < 0x1_0000_0000
      modifies this`tscSample, this`prevRdtsc, this`curRdtsc, this`accesses
      ensures accesses == old(accesses) + [TscRead]
      ensures tscSample == Rdtsc(a, d) as int
      ensures prevRdtsc == old(curRdtsc) && curRdtsc == Rdtsc(a, d) as int
    {
      accesses := accesses + [TscRead];
      tscSample := Rdtsc(a, d) as int;
      prevRdtsc := curRdtsc;
      curRdtsc := tscSample;
    }

    /** `sample_counters`: the occupancy counter first, the TSC last. */
    method SampleCounters(core: Int32, stack: Int32, rdVal: U64, a: bv64, d: bv64)
      requires StackInRange(stack)
      requires a < 0x1_0000_0000 && d < 0x1_0000_0000
      modifies this`msrNum, this`cumOccSample, this`prevCumOcc, this`curCumOcc
      modifies this`tscSample, this`prevRdtsc, this`curRdtsc, this`accesses
      ensures accesses == old(accesses) + [MsrRead(core, CtrAddress(stack)), TscRead]
      ensures msrNum == CtrAddress(stack) && cumOccSample == rdVal && tscSample == curRdtsc
      ensures prevCumOcc == old(curCumOcc) && curCumOcc == rdVal
      ensures prevRdtsc == old(curRdtsc) && curRdtsc == Rdtsc(a, d) as int
    {
      SampleIioOccCounter(core, stack, rdVal);
      SampleTimeCounter(a, d);
    }

    /** `update_occ`, with the corrected guard and smoother (see `OccStep`).
        `TimeDeltaNs` and `AvgOcc` are its two `uint64_t` expressions. */
    method UpdateOcc()
      requires Valid()
      modifies this`latestTimeDeltaNs, this`latestAvgOcc, this`smoothedAvgOcc,
               this`smoothedAvgOccLongterm, this`smoothedAvgOccF, this`smoothedAvgOccLongtermF
      ensures Valid()
      ensures Occ() == OccStep(old(Occ()), prevRdtsc, curRdtsc, prevCumOcc, curCumOcc)
    {
      latestTimeDeltaNs := TimeDeltaNs(prevRdtsc, curRdtsc);
      if latestTimeDeltaNs / 2 > 0 {
        latestAvgOcc := AvgOcc(prevCumOcc, curCumOcc, latestTimeDeltaNs);
        if latestAvgOcc > NOISE_FLOOR {
          SmoothAverages();
        }
      }
    }

    /** The four assignments of `update_occ` that move both moving averages
        toward the latest average occupancy, in the corrected form of
        `Smooth`: the short-term average is computed from its own
        accumulator, not from the long-term one as the code has it. */
    method SmoothAverages()
      requires Consistent(Occ())
      modifies this`smoothedAvgOcc, this`smoothedAvgOccLongterm, this`smoothedAvgOccF, this`smoothedAvgOccLongtermF
      ensures Occ() == Smooth(old(Occ()), latestAvgOcc)
    {
      smoothedAvgOccF := Ewma(smoothedAvgOccF, latestAvgOcc as real, WEIGHT_FACTOR);
      smoothedAvgOcc := Trunc(smoothedAvgOccF);
      smoothedAvgOccLongtermF := Ewma(smoothedAvgOccLongtermF, latestAvgOcc as real, WEIGHT_FACTOR_LONG_TERM);
      smoothedAvgOccLongterm := Trunc(smoothedAvgOccLongtermF);
    }

    /** The entry `update_log` records for the current state: it is tagged
        with the core, and in a consistent state its two smoothed averages
        are the truncations of the float accumulators. */
    ghost function Entry(core: Int32): (e: LogEntry)
      reads this
      ensures e.core == core && e.lTsc == curRdtsc
      ensures Consistent(Occ()) ==>
        && e.sAvgOcc as real <= smoothedAvgOccF < e.sAvgOcc as real + 1.0
        && e.sAvgOccLongterm as real <= smoothedAvgOccLongtermF < e.sAvgOccLongterm as real + 1.0
    {
      LogEntry(curRdtsc, latestTimeDeltaNs, latestAvgOcc, smoothedAvgOcc, smoothedAvgOccLongterm, core)
    }

    /** `update_log`: record the current values in slot `log_index % LOG_SIZE`
        and advance the 32-bit index. */
    method UpdateLog(core: Int32)
      requires Valid()
      modifies this`logIndex, this`appended, iioLog
      ensures Valid()
      ensures iioLog[..] == old(iioLog[..])[Slot(old(logIndex)) := Entry(core)]
      ensures logIndex == Inc32(old(logIndex))
      ensures appended == old(appended) + [Entry(core)]
    {
      var e := LogEntry(curRdtsc, latestTimeDeltaNs, latestAvgOcc, smoothedAvgOcc, smoothedAvgOccLongterm, core);
      ReplayAppend(base, baseIndex, appended, e);
      IndexStep(baseIndex, |appended|);
      iioLog[logIndex % LOG_SIZE] := e;
      appended := appended + [e];
      logIndex := (logIndex + 1) % TWO_32;
    }

    /** `main_exit`: the dump, one row per slot in slot order (the header
        line and the text formatting are not modelled). It is the ring as
        replayed from the start of the history. */
    method MainExit() returns (rows: seq<Row>)
      requires Valid()
      ensures |rows| == LOG_SIZE
      ensures forall i :: 0 <= i < LOG_SIZE ==> rows[i] == Row(i, iioLog[i])
      ensures forall i :: 0 <= i < LOG_SIZE ==> rows[i].entry == Replay(base, baseIndex, appended)[i]
    {
      rows := [];
      var i := 0;
      while i < LOG_SIZE
        invariant 0 <= i <= LOG_SIZE && |rows| == i
        invariant forall k :: 0 <= k < i ==> rows[k] == Row(k, iioLog[k])
      {
        rows := rows + [Row(i, iioLog[i])];
        i := i + 1;
      }
    }

    /** One iteration of the sampling loop of `main`: sample, update the
        rate and the moving averages, append to the log, count. */
    method Iterate(core: Int32, stack: Int32, rdVal: U64, a: bv64, d: bv64)
      requires Valid() && StackInRange(stack)
      requires a < 0x1_0000_0000 && d < 0x1_0000_0000
      modifies this`msrNum, this`cumOccSample, this`prevCumOcc, this`curCumOcc
      modifies this`tscSample, this`prevRdtsc, this`curRdtsc, this`accesses
      modifies this`latestTimeDeltaNs, this`latestAvgOcc, this`smoothedAvgOcc,
               this`smoothedAvgOccLongterm, this`smoothedAvgOccF, this`smoothedAvgOccLongtermF
      modifies this`logIndex, this`appended, this`counter, iioLog
      ensures Valid()
      ensures accesses == old(accesses) + [MsrRead(core, CtrAddress(stack)), TscRead]
      ensures msrNum == CtrAddress(stack) && cumOccSample == rdVal && tscSample == curRdtsc
      ensures prevCumOcc == old(curCumOcc) && curCumOcc == rdVal
      ensures prevRdtsc == old(curRdtsc) && curRdtsc == Rdtsc(a, d) as int
      ensures Occ() == OccStep(old(Occ()), old(curRdtsc), Rdtsc(a, d) as int, old(curCumOcc), rdVal)
      ensures iioLog[..] == old(iioLog[..])[Slot(old(logIndex)) := Entry(core)]
      ensures appended == old(appended) + [Entry(core)]
      ensures logIndex == Inc32(old(logIndex)) && counter == Inc32(old(counter))
    {
      SampleCounters(core, stack, rdVal, a, d);
      assert Valid();
      UpdateOcc();
      UpdateLog(core);
      counter := (counter + 1) % TWO_32;
    }
  }
}
