/** `cpu_util.py`: average CPU utilisation from a per-CPU `sar -P ALL`
    listing. Lines mentioning "CPU" (headers) are skipped; every other line
    must have eight whitespace-separated fields, the second being the CPU id
    and the eighth its idle percentage. The script sums `100 - idle` and
    counts lines per CPU, turns each sum into a per-CPU mean, and reports
    the mean of those means.

    Python's `int()` and `float()` are the parameters `parseInt` and
    `parseFloat`; floats are modelled as `real`. Dictionaries are maps, and
    the key order of `cpu_util` (Python dictionaries iterate in insertion
    order) is kept as a sequence of CPU ids. */
module CpuUtil {

  datatype Option<T> = None | Some(value: T)

  /** Either the script's result or the failed `assert len(elements) == 8`,
      with the index of the offending line. */
  datatype Result<T> = Ok(value: T) | AssertionFailed(line: nat)

  /** The characters for which Python's `str.isspace` holds, on which
      `str.split()` splits. */
  predicate IsSpace(c: char)
  {
    || '\t' <= c <= '\r'
    || '\U{1C}' <= c <= ' '
    || c == '\U{85}' || c == '\U{A0}' || c == '\U{1680}'
    || '\U{2000}' <= c <= '\U{200A}'
    || c == '\U{2028}' || c == '\U{2029}' || c == '\U{202F}' || c == '\U{205F}' || c == '\U{3000}'
  }

  /** `s` without its leading whitespace. */
  function TrimStart(s: string): (r: string)
    ensures |r| <= |s|
    ensures r == [] || !IsSpace(r[0])
  {
    if s != [] && IsSpace(s[0]) then TrimStart(s[1..]) else s
  }

  /** `TrimStart` removes exactly the whitespace before the first other
      character. */
  lemma {:induction false} TrimStartDrops(s: string)
    ensures TrimStart(s) == s[|s| - |TrimStart(s)|..]
    ensures forall i :: 0 <= i < |s| - |TrimStart(s)| ==> IsSpace(s[i])
  {
    if s != [] && IsSpace(s[0]) {
      TrimStartDrops(s[1..]);
    }
  }

  /** The longest prefix of `s` that contains no whitespace. */
  function Word(s: string): (w: string)
    ensures |w| <= |s|
    ensures s != [] && !IsSpace(s[0]) ==> w != []
  {
    if s == [] || IsSpace(s[0]) then [] else [s[0]] + Word(s[1..])
  }

  /** `Word` is a prefix free of whitespace, followed by the end of `s` or
      by whitespace. */
  lemma {:induction false} WordPrefix(s: string)
    ensures Word(s) == s[..|Word(s)|]
    ensures forall c <- Word(s) :: !IsSpace(c)
    ensures |Word(s)| == |s| || IsSpace(s[|Word(s)|])
  {
    if s != [] && !IsSpace(s[0]) {
      WordPrefix(s[1..]);
      assert s[..|Word(s)|] == [s[0]] + s[1..][..|Word(s[1..])|];
    }
  }

  /** A field as `str.split()` produces it: non-empty, without whitespace. */
  predicate IsWord(w: string)
  {
    w != [] && forall c <- w :: !IsSpace(c)
  }

  /** `str.split()` without arguments: the maximal runs of non-whitespace,
      in order. Every field is non-empty and free of whitespace. */
  function Split(s: string): (ws: seq<string>)
    ensures forall w <- ws :: IsWord(w)
    decreases |s|, 1
  {
    SplitTrimmed(TrimStart(s))
  }

  /** `Split` of a string without leading whitespace: its first word, then
      the split of the rest. */
  function SplitTrimmed(t: string): (ws: seq<string>)
    requires t == [] || !IsSpace(t[0])
    ensures forall w <- ws :: IsWord(w)
    decreases |t|, 0
  {
    if t == [] then []
    else
      var w := Word(t);
      WordPrefix(t);
      [w] + Split(t[|w|..])
  }

  /** Words joined by single spaces. */
  function Join(ws: seq<string>): string
  {
    if ws == [] then "" else if |ws| == 1 then ws[0] else ws[0] + " " + Join(ws[1..])
  }

  /** A word followed by nothing or by whitespace is read back whole. */
  lemma {:induction false} WordOfPrefix(w: string, tail: string)
    requires forall c <- w :: !IsSpace(c)
    requires tail == [] || IsSpace(tail[0])
    ensures Word(w + tail) == w
  {
    if w != [] {
      assert (w + tail)[1..] == w[1..] + tail;
      WordOfPrefix(w[1..], tail);
    }
  }

  /** A word followed by nothing or by whitespace is split off first. */
  lemma SplitWordThen(w: string, tail: string)
    requires IsWord(w)
    requires tail == [] || IsSpace(tail[0])
    ensures Split(w + tail) == [w] + Split(tail)
  {
    assert w[0] in w;
    assert (w + tail)[0] == w[0];
    assert TrimStart(w + tail) == w + tail;
    WordOfPrefix(w, tail);
    assert (w + tail)[|w|..] == tail;
    if tail != [] {
      assert TrimStart(tail) == TrimStart(tail[1..]);
    }
  }

  /** Leading whitespace does not change the split. */
  lemma SplitSkipsSpace(c: char, s: string)
    requires IsSpace(c)
    ensures Split([c] + s) == Split(s)
  {
    assert ([c] + s)[1..] == s;
    assert TrimStart([c] + s) == TrimStart(s);
  }

  /** A word, a space and more text split into the word and the split of
      the rest. */
  lemma SplitCons(w: string, rest: string)
    requires IsWord(w)
    ensures Split(w + " " + rest) == [w] + Split(rest)
  {
    var tail := [' '] + rest;
    assert w + " " + rest == w + tail;
    assert tail[0] == ' ';
    SplitWordThen(w, tail);
    SplitSkipsSpace(' ', rest);
  }

  /** A single word splits into itself. */
  lemma SplitOne(w: string)
    requires IsWord(w)
    ensures Split(w) == [w]
  {
    SplitWordThen(w, "");
    assert w + "" == w;
    assert TrimStart("") == "";
    assert Split("") == [];
    assert [w] + [] == [w];
  }

  /** Splitting undoes joining with single spaces. */
  lemma {:induction false} SplitJoin(ws: seq<string>)
    requires forall w <- ws :: IsWord(w)
    ensures Split(Join(ws)) == ws
  {
    if ws != [] {
      assert ws[0] in ws;
      if |ws| == 1 {
        SplitOne(ws[0]);
      } else {
        assert forall w <- ws[1..] :: w in ws;
        SplitJoin(ws[1..]);
        SplitCons(ws[0], Join(ws[1..]));
      }
    }
  }

  /** `text` begins with "CPU". */
  predicate StartsWithCpu(text: string)
  {
    |text| >= 3 && text[..3] == "CPU"
  }

  /** The test `"CPU" in line`: some suffix of the line begins with "CPU". */
  predicate ContainsCpu(line: string): (b: bool)
    ensures b <==> exists i :: 0 <= i <= |line| && StartsWithCpu(line[i..])
  {
    assert forall i :: 0 <= i <= |line| ==> (StartsWithCpu(line[i..]) <==> i < |line| && CpuAt(line, i));
    exists i :: 0 <= i < |line| && CpuAt(line, i)
  }

  /** `"CPU"` occurs in `line` at position `i`. */
  predicate CpuAt(line: string, i: nat)
  {
    i + 3 <= |line| && line[i] == 'C' && line[i + 1] == 'P' && line[i + 2] == 'U'
  }

  /** One parsed line: the CPU id and its idle percentage. */
  datatype Sample = Sample(cpu: int, idle: real)

  /** What the first loop does with one line. */
  datatype LineKind = Skip | Reject | Accept(sample: Sample)

  function Classify(line: string, parseInt: string -> int, parseFloat: string -> real): (k: LineKind)
    ensures k.Skip? <==> ContainsCpu(line)
    ensures k.Reject? <==> !ContainsCpu(line) && |Split(line)| != 8
    ensures k.Accept? ==> IsWord(Split(line)[1]) && k.sample.cpu == parseInt(Split(line)[1])
    ensures k.Accept? ==> IsWord(Split(line)[7]) && k.sample.idle == parseFloat(Split(line)[7])
  {
    if ContainsCpu(line) then Skip
    else
      var elements := Split(line);
      if |elements| != 8 then Reject
      else Accept(Sample(parseInt(elements[1]), parseFloat(elements[7])))
  }

  /** A data line made of eight fields separated by single spaces is read
      back as the sample of its second and eighth field. */
  lemma ClassifyFields(ws: seq<string>, parseInt: string -> int, parseFloat: string -> real)
    requires |ws| == 8 && forall w <- ws :: IsWord(w)
    requires !ContainsCpu(Join(ws))
    ensures Classify(Join(ws), parseInt, parseFloat) == Accept(Sample(parseInt(ws[1]), parseFloat(ws[7])))
  {
    SplitJoin(ws);
  }

  /** The samples of all accepted lines in order, or the first line that
      fails the field-count assertion. */
  function Samples(lines: seq<string>, parseInt: string -> int, parseFloat: string -> real): (r: Result<seq<Sample>>)
    ensures r.AssertionFailed? ==> r.line < |lines| && Classify(lines[r.line], parseInt, parseFloat).Reject?
    ensures r.Ok? ==> |r.value| <= |lines|
  {
    if lines == [] then Ok([])
    else
      var n := |lines| - 1;
      var prefix := Samples(lines[..n], parseInt, parseFloat);
      var last := Classify(lines[n], parseInt, parseFloat);
      if prefix.AssertionFailed? then prefix
      else if last.Reject? then AssertionFailed(n)
      else if last.Accept? then Ok(prefix.value + [last.sample])
      else prefix
  }

  /** The first loop stops at the first line that has no "CPU" and does not
      split into eight fields; otherwise it keeps at most one sample per line. */
  lemma {:induction false} SamplesOutcome(lines: seq<string>, parseInt: string -> int, parseFloat: string -> real)
    ensures var r := Samples(lines, parseInt, parseFloat);
      r.AssertionFailed? ==> forall j :: 0 <= j < r.line ==> !Classify(lines[j], parseInt, parseFloat).Reject?
    ensures var r := Samples(lines, parseInt, parseFloat);
      r.Ok? ==> forall j :: 0 <= j < |lines| ==> !Classify(lines[j], parseInt, parseFloat).Reject?
  {
    if lines != [] {
      var n := |lines| - 1;
      assert forall j :: 0 <= j < n ==> lines[..n][j] == lines[j];
      SamplesOutcome(lines[..n], parseInt, parseFloat);
    }
  }

  /** One more line extends the result of its prefix as `Classify` says. */
  lemma SamplesStep(lines: seq<string>, i: nat, parseInt: string -> int, parseFloat: string -> real)
    requires i < |lines|
    ensures Samples(lines[..i + 1], parseInt, parseFloat) ==
      match Samples(lines[..i], parseInt, parseFloat)
      case AssertionFailed(k) => AssertionFailed(k)
      case Ok(prefix) =>
        match Classify(lines[i], parseInt, parseFloat)
        case Skip => Ok(prefix)
        case Reject => AssertionFailed(i)
        case Accept(s) => Ok(prefix + [s])
  {
    assert lines[..i + 1][..i] == lines[..i];
  }

  /** Once a prefix of the input fails the assertion, the whole input fails
      at the same line. */
  lemma {:induction false} FailurePersists(lines: seq<string>, k: nat, parseInt: string -> int, parseFloat: string -> real)
    requires k <= |lines|
    requires Samples(lines[..k], parseInt, parseFloat).AssertionFailed?
    ensures Samples(lines, parseInt, parseFloat) == Samples(lines[..k], parseInt, parseFloat)
    decreases |lines| - k
  {
    if k < |lines| {
      var n := |lines| - 1;
      assert lines[..n][..k] == lines[..k];
      FailurePersists(lines[..n], k, parseInt, parseFloat);
    } else {
      assert lines[..k] == lines;
    }
  }

  /** Number of samples of CPU `cpu` (`num_samples[cpu]`). */
  function Count(samples: seq<Sample>, cpu: int): nat
  {
    if samples == [] then 0
    else Count(samples[..|samples| - 1], cpu) + (if samples[|samples| - 1].cpu == cpu then 1 else 0)
  }

  /** Sum of `100 - idle` over the samples of CPU `cpu` (`cpu_util[cpu]`). */
  function Sum(samples: seq<Sample>, cpu: int): real
  {
    if samples == [] then 0.0
    else
      var s := samples[|samples| - 1];
      Sum(samples[..|samples| - 1], cpu) + (if s.cpu == cpu then 100.0 - s.idle else 0.0)
  }

  /** Each accepted line adds one to its own CPU's count and `100 - idle` to
      its own CPU's sum, and changes no other CPU's. */
  lemma TallyStep(samples: seq<Sample>, s: Sample, cpu: int)
    ensures Count(samples + [s], cpu) == Count(samples, cpu) + (if s.cpu == cpu then 1 else 0)
    ensures Sum(samples + [s], cpu) == Sum(samples, cpu) + (if s.cpu == cpu then 100.0 - s.idle else 0.0)
  {
    assert (samples + [s])[..|samples|] == samples;
  }

  /** A CPU without samples has count and sum zero. */
  lemma {:induction false} Unseen(samples: seq<Sample>, cpu: int)
    requires forall i :: 0 <= i < |samples| ==> samples[i].cpu != cpu
    ensures Count(samples, cpu) == 0 && Sum(samples, cpu) == 0.0
  {
    if samples != [] {
      Unseen(samples[..|samples| - 1], cpu);
    }
  }

  /** The distinct CPU ids in order of first appearance: the key order of
      both dictionaries. Every CPU seen is a key, and every key has at least
      one sample. */
  function Cpus(samples: seq<Sample>): (cs: seq<int>)
    ensures forall i :: 0 <= i < |samples| ==> samples[i].cpu in cs
    ensures forall c <- cs :: Count(samples, c) >= 1
    ensures forall i, j :: 0 <= i < j < |cs| ==> cs[i] != cs[j]
  {
    if samples == [] then []
    else
      var prefix := Cpus(samples[..|samples| - 1]);
      var c := samples[|samples| - 1].cpu;
      if c in prefix then prefix else prefix + [c]
  }

  /** The two dictionaries after the first loop over `samples`, with `cpus`
      the key order. */
  datatype Tally = Tally(cpus: seq<int>, cpuUtil: map<int, real>, numSamples: map<int, real>)

  ghost predicate Tallies(t: Tally, samples: seq<Sample>)
  {
    && t.cpus == Cpus(samples)
    && t.cpuUtil.Keys == t.numSamples.Keys == set c | c in t.cpus
    && Tallied(t.cpuUtil, t.numSamples, samples)
  }

  /** Every key holds its CPU's sum and count. */
  ghost predicate Tallied(cpuUtil: map<int, real>, numSamples: map<int, real>, samples: seq<Sample>)
  {
    forall c :: c in cpuUtil ==> cpuUtil[c] == Sum(samples, c) && c in numSamples && numSamples[c] == Count(samples, c) as real
  }

  /** A `defaultdict(float)` read: a missing key reads as 0.0. */
  function Lookup(d: map<int, real>, key: int): real
  {
    if key in d then d[key] else 0.0
  }

  /** One accepted line of CPU `cpu` with idle percentage `idle`:
      `cpu_util[cpu] += 100 - idle` and `num_samples[cpu] += 1` on
      dictionaries that default to 0.0, with a new key appended to the key
      order, keep the dictionaries the tallies of the samples so far. */
  lemma TallyPreserved(samples: seq<Sample>, cpus: seq<int>, cpuUtil: map<int, real>, numSamples: map<int, real>,
                       cpu: int, idle: real)
    requires Tallies(Tally(cpus, cpuUtil, numSamples), samples)
    ensures Tallies(Tally(if cpu in cpuUtil then cpus else cpus + [cpu],
                          cpuUtil[cpu := Lookup(cpuUtil, cpu) + (100.0 - idle)],
                          numSamples[cpu := Lookup(numSamples, cpu) + 1.0]),
                    samples + [Sample(cpu, idle)])
  {
    var samples' := samples + [Sample(cpu, idle)];
    var cpus' := if cpu in cpuUtil then cpus else cpus + [cpu];
    var util' := cpuUtil[cpu := Lookup(cpuUtil, cpu) + (100.0 - idle)];
    var num' := numSamples[cpu := Lookup(numSamples, cpu) + 1.0];
    assert cpus' == Cpus(samples') by {
      CpusStep(samples, Sample(cpu, idle));
      assert cpu in cpuUtil <==> cpu in Cpus(samples);
    }
    assert util'.Keys == set c | c in cpus' by {
      KeysStep(cpus, cpuUtil, cpu, Lookup(cpuUtil, cpu) + (100.0 - idle), cpus');
    }
    assert num'.Keys == set c | c in cpus' by {
      assert cpu in cpuUtil <==> cpu in numSamples;
      KeysStep(cpus, numSamples, cpu, Lookup(numSamples, cpu) + 1.0, cpus');
    }
    assert Tallied(util', num', samples') by {
      ValuesStep(samples, cpus, cpuUtil, numSamples, cpu, idle);
    }
  }

  /** The per-CPU sums and counts after one accepted line. */
  lemma ValuesStep(samples: seq<Sample>, cpus: seq<int>, cpuUtil: map<int, real>, numSamples: map<int, real>,
                   cpu: int, idle: real)
    requires Tallies(Tally(cpus, cpuUtil, numSamples), samples)
    ensures Tallied(cpuUtil[cpu := Lookup(cpuUtil, cpu) + (100.0 - idle)],
                    numSamples[cpu := Lookup(numSamples, cpu) + 1.0],
                    samples + [Sample(cpu, idle)])
  {
    var s := Sample(cpu, idle);
    var util' := cpuUtil[cpu := Lookup(cpuUtil, cpu) + (100.0 - idle)];
    var num' := numSamples[cpu := Lookup(numSamples, cpu) + 1.0];
    forall c | c in util'
      ensures util'[c] == Sum(samples + [s], c) && c in num' && num'[c] == Count(samples + [s], c) as real
    {
      TallyStep(samples, s, c);
      if c !in cpuUtil {
        assert c !in Cpus(samples);
        Unseen(samples, c);
      }
    }
  }

  /** Storing under a key keeps the keys those of the key order, with a new
      key appended. */
  lemma KeysStep(cpus: seq<int>, d: map<int, real>, cpu: int, v: real, cpus': seq<int>)
    requires d.Keys == set c | c in cpus
    requires cpus' == if cpu in d then cpus else cpus + [cpu]
    ensures d[cpu := v].Keys == set c | c in cpus'
  {
  }

  /** A new CPU id is appended to the key order; a known one leaves it as
      it is. */
  lemma CpusStep(samples: seq<Sample>, s: Sample)
    ensures Cpus(samples + [s]) == if s.cpu in Cpus(samples) then Cpus(samples) else Cpus(samples) + [s.cpu]
  {
    assert (samples + [s])[..|samples|] == samples;
  }

  /** A line mentioning "CPU" is skipped. */
  lemma SkipLine(lines: seq<string>, i: nat, parseInt: string -> int, parseFloat: string -> real, samples: seq<Sample>)
    requires i < |lines| && Samples(lines[..i], parseInt, parseFloat) == Ok(samples)
    requires ContainsCpu(lines[i])
    ensures Samples(lines[..i + 1], parseInt, parseFloat) == Ok(samples)
  {
    SamplesStep(lines, i, parseInt, parseFloat);
  }

  /** A line without "CPU" that does not split into eight fields stops the
      script at that line. */
  lemma RejectLine(lines: seq<string>, i: nat, parseInt: string -> int, parseFloat: string -> real, samples: seq<Sample>)
    requires i < |lines| && Samples(lines[..i], parseInt, parseFloat) == Ok(samples)
    requires !ContainsCpu(lines[i]) && |Split(lines[i])| != 8
    ensures Samples(lines, parseInt, parseFloat) == AssertionFailed(i)
  {
    SamplesStep(lines, i, parseInt, parseFloat);
    FailurePersists(lines, i + 1, parseInt, parseFloat);
  }

  /** A line without "CPU" that splits into eight fields adds its sample,
      and the dictionary updates keep the tallies. */
  lemma AcceptLine(lines: seq<string>, i: nat, parseInt: string -> int, parseFloat: string -> real,
                   samples: seq<Sample>, cpus: seq<int>, cpuUtil: map<int, real>, numSamples: map<int, real>,
                   cpu: int, idle: real)
    requires i < |lines| && Samples(lines[..i], parseInt, parseFloat) == Ok(samples)
    requires !ContainsCpu(lines[i]) && |Split(lines[i])| == 8
    requires cpu == parseInt(Split(lines[i])[1]) && idle == parseFloat(Split(lines[i])[7])
    requires Tallies(Tally(cpus, cpuUtil, numSamples), samples)
    ensures Samples(lines[..i + 1], parseInt, parseFloat) == Ok(samples + [Sample(cpu, idle)])
    ensures Tallies(Tally(if cpu in cpuUtil then cpus else cpus + [cpu],
                          cpuUtil[cpu := Lookup(cpuUtil, cpu) + (100.0 - idle)],
                          numSamples[cpu := Lookup(numSamples, cpu) + 1.0]),
                    samples + [Sample(cpu, idle)])
  {
    SamplesStep(lines, i, parseInt, parseFloat);
    TallyPreserved(samples, cpus, cpuUtil, numSamples, cpu, idle);
  }

  /** The first loop (lines 9-17): filter, split, check, accumulate. */
  method Accumulate(lines: seq<string>, parseInt: string -> int, parseFloat: string -> real) returns (r: Result<Tally>)
    ensures r.AssertionFailed? <==> Samples(lines, parseInt, parseFloat).AssertionFailed?
    ensures r.AssertionFailed? ==> r.line == Samples(lines, parseInt, parseFloat).line
    ensures r.Ok? ==> Tallies(r.value, Samples(lines, parseInt, parseFloat).value)
  {
    var cpus: seq<int> := [];
    var cpuUtil: map<int, real> := map[];
    var numSamples: map<int, real> := map[];
    ghost var samples: seq<Sample> := [];
    var i := 0;
    while i < |lines|
      invariant 0 <= i <= |lines|
      invariant Samples(lines[..i], parseInt, parseFloat) == Ok(samples)
      invariant Tallies(Tally(cpus, cpuUtil, numSamples), samples)
    {
      var line := lines[i];
      if ContainsCpu(line) {
        SkipLine(lines, i, parseInt, parseFloat, samples);
      } else {
        var elements := Split(line);
        if |elements| != 8 {
          RejectLine(lines, i, parseInt, parseFloat, samples);
          return AssertionFailed(i);
        }
        var cpu := parseInt(elements[1]);
        var idle := parseFloat(elements[7]);
        AcceptLine(lines, i, parseInt, parseFloat, samples, cpus, cpuUtil, numSamples, cpu, idle);
        if cpu !in cpuUtil {
          cpus := cpus + [cpu];
        }
        cpuUtil := cpuUtil[cpu := Lookup(cpuUtil, cpu) + (100.0 - idle)];
        numSamples := numSamples[cpu := Lookup(numSamples, cpu) + 1.0];
        samples := samples + [Sample(cpu, idle)];
      }
      i := i + 1;
    }
    assert lines[..|lines|] == lines;
    return Ok(Tally(cpus, cpuUtil, numSamples));
  }

  /** Sum of the per-CPU means over the keys `cs`, skipping keys whose count
      is zero, as the guard of the second loop does. */
  function SumOfMeans(cs: seq<int>, t: Tally): real
  {
    if cs == [] then 0.0 else SumOfMeans(cs[..|cs| - 1], t) + Share(t, cs[|cs| - 1])
  }

  /** What the second loop adds to its total for the key `c`. */
  function Share(t: Tally, c: int): real
  {
    if Lookup(t.numSamples, c) != 0.0 then Lookup(t.cpuUtil, c) / t.numSamples[c] else 0.0
  }

  /** Number of keys among `cs` whose count is not zero. */
  function Counted(cs: seq<int>, t: Tally): nat
  {
    if cs == [] then 0
    else Counted(cs[..|cs| - 1], t) + (if Lookup(t.numSamples, cs[|cs| - 1]) != 0.0 then 1 else 0)
  }

  /** After the second loop has visited the keys `done`, each visited key
      with a non-zero count holds its mean and every other key its sum. */
  ghost predicate MeansSoFar(means: map<int, real>, t: Tally, done: seq<int>)
    requires means.Keys == t.cpuUtil.Keys
  {
    forall c :: c in means ==>
      means[c] == if c in done && Lookup(t.numSamples, c) != 0.0 then t.cpuUtil[c] / t.numSamples[c] else t.cpuUtil[c]
  }

  /** One iteration of the second loop on a key not visited before. */
  lemma MeansStep(means: map<int, real>, t: Tally, done: seq<int>, cpu: int)
    requires means.Keys == t.cpuUtil.Keys && MeansSoFar(means, t, done)
    requires cpu in means && cpu !in done
    ensures var means' := if Lookup(t.numSamples, cpu) != 0.0 then means[cpu := means[cpu] / t.numSamples[cpu]] else means;
      means'.Keys == t.cpuUtil.Keys && MeansSoFar(means', t, done + [cpu])
  {
  }

  /** The running total and count over one more key. */
  lemma TotalsStep(cs: seq<int>, j: nat, t: Tally)
    requires j < |cs|
    ensures SumOfMeans(cs[..j + 1], t) == SumOfMeans(cs[..j], t) + Share(t, cs[j])
    ensures Counted(cs[..j + 1], t) == Counted(cs[..j], t) + (if Lookup(t.numSamples, cs[j]) != 0.0 then 1 else 0)
  {
    assert cs[..j + 1][..j] == cs[..j];
  }

  /** The second loop (lines 19-27): each CPU's sum becomes its mean, and the
      means and their number are accumulated. The dictionary iterates over
      its own keys, once each. */
  method Average(t: Tally) returns (means: map<int, real>, totalUtil: real, numCpus: nat)
    requires forall i, j :: 0 <= i < j < |t.cpus| ==> t.cpus[i] != t.cpus[j]
    requires forall c <- t.cpus :: c in t.cpuUtil
    requires forall c :: c in t.cpuUtil ==> c in t.cpus
    ensures means.Keys == t.cpuUtil.Keys
    ensures forall c :: c in means ==>
      means[c] == if Lookup(t.numSamples, c) != 0.0 then t.cpuUtil[c] / t.numSamples[c] else t.cpuUtil[c]
    ensures totalUtil == SumOfMeans(t.cpus, t)
    ensures numCpus == Counted(t.cpus, t)
  {
    means, totalUtil, numCpus := t.cpuUtil, 0.0, 0;
    var j := 0;
    while j < |t.cpus|
      invariant 0 <= j <= |t.cpus|
      invariant means.Keys == t.cpuUtil.Keys
      invariant MeansSoFar(means, t, t.cpus[..j])
      invariant totalUtil == SumOfMeans(t.cpus[..j], t)
      invariant numCpus == Counted(t.cpus[..j], t)
    {
      var cpu := t.cpus[j];
      assert t.cpus[..j + 1] == t.cpus[..j] + [cpu];
      assert cpu !in t.cpus[..j];
      MeansStep(means, t, t.cpus[..j], cpu);
      TotalsStep(t.cpus, j, t);
      if Lookup(t.numSamples, cpu) != 0.0 {
        means := means[cpu := means[cpu] / t.numSamples[cpu]];
        totalUtil := totalUtil + means[cpu];
        numCpus := numCpus + 1;
      }
      j := j + 1;
    }
    assert t.cpus[..|t.cpus|] == t.cpus;
    MeansDone(means, t);
  }

  /** Once every key has been visited, every key holds its mean. */
  lemma MeansDone(means: map<int, real>, t: Tally)
    requires means.Keys == t.cpuUtil.Keys && MeansSoFar(means, t, t.cpus)
    requires forall c :: c in t.cpuUtil ==> c in t.cpus
    ensures forall c :: c in means ==>
      means[c] == if Lookup(t.numSamples, c) != 0.0 then t.cpuUtil[c] / t.numSamples[c] else t.cpuUtil[c]
  {
  }

  /** Sum over the CPUs `cs` of their mean utilisation. */
  function MeanSum(cs: seq<int>, samples: seq<Sample>): real
    requires forall c <- cs :: Count(samples, c) >= 1
  {
    if cs == [] then 0.0
    else
      var c := cs[|cs| - 1];
      MeanSum(cs[..|cs| - 1], samples) + Sum(samples, c) / Count(samples, c) as real
  }

  /** The reported figure: the mean over CPUs of each CPU's mean
      utilisation (not the mean over all lines). */
  function MeanOfMeans(samples: seq<Sample>): real
    requires samples != []
  {
    MeanSum(Cpus(samples), samples) / |Cpus(samples)| as real
  }

  /** On the tallies of the first loop, the guard of the second loop never
      skips a CPU, so the second loop sums exactly the per-CPU means. */
  lemma {:induction false} SecondLoopSumsMeans(cs: seq<int>, t: Tally, samples: seq<Sample>)
    requires Tallies(t, samples)
    requires forall i :: 0 <= i < |cs| ==> cs[i] in t.cpus
    ensures SumOfMeans(cs, t) == MeanSum(cs, samples)
    ensures Counted(cs, t) == |cs|
  {
    if cs != [] {
      var n := |cs| - 1;
      SecondLoopSumsMeans(cs[..n], t, samples);
      assert cs[n] in t.cpuUtil;
    }
  }

  /** What the script prints: both dictionaries after the second loop and
      the average, where `None` stands for the empty string. */
  datatype Report = Report(cpuUtil: map<int, real>, numSamples: map<int, real>, avgCpuUtil: Option<real>)

  /** The whole script. */
  method CpuUtilReport(lines: seq<string>, parseInt: string -> int, parseFloat: string -> real) returns (r: Result<Report>)
    ensures r.AssertionFailed? <==> Samples(lines, parseInt, parseFloat).AssertionFailed?
    ensures r.AssertionFailed? ==> r.line == Samples(lines, parseInt, parseFloat).line
    ensures r.Ok? ==>
      var samples := Samples(lines, parseInt, parseFloat).value;
      && (r.value.avgCpuUtil.None? <==> samples == [])
      && (samples != [] ==> r.value.avgCpuUtil == Some(MeanOfMeans(samples)))
      && r.value.numSamples.Keys == r.value.cpuUtil.Keys
      && (forall c :: c in r.value.cpuUtil <==> c in Cpus(samples))
      && forall c :: c in r.value.cpuUtil ==>
           && Count(samples, c) >= 1
           && r.value.numSamples[c] == Count(samples, c) as real
           && r.value.cpuUtil[c] == Sum(samples, c) / Count(samples, c) as real
  {
    var tallied := Accumulate(lines, parseInt, parseFloat);
    if tallied.AssertionFailed? {
      return AssertionFailed(tallied.line);
    }
    var t := tallied.value;
    ghost var samples := Samples(lines, parseInt, parseFloat).value;
    assert forall c :: c in t.cpuUtil ==> c in t.cpus;
    var means, totalUtil, numCpus := Average(t);
    MeansOfTallies(t, samples, means);
    AverageOfTallies(t, samples, totalUtil, numCpus);
    var avg := if numCpus == 0 then None else Some(totalUtil / numCpus as real);
    return Ok(Report(means, t.numSamples, avg));
  }

  /** On the tallies of the first loop, the second loop turns every sum into
      its CPU's mean. */
  lemma MeansOfTallies(t: Tally, samples: seq<Sample>, means: map<int, real>)
    requires Tallies(t, samples)
    requires means.Keys == t.cpuUtil.Keys
    requires forall c :: c in means ==>
      means[c] == if Lookup(t.numSamples, c) != 0.0 then t.cpuUtil[c] / t.numSamples[c] else t.cpuUtil[c]
    ensures t.numSamples.Keys == means.Keys
    ensures forall c :: c in means <==> c in Cpus(samples)
    ensures forall c :: c in means ==>
      && Count(samples, c) >= 1
      && t.numSamples[c] == Count(samples, c) as real
      && means[c] == Sum(samples, c) / Count(samples, c) as real
  {
    forall c | c in means
      ensures Count(samples, c) >= 1
    {
      assert c in Cpus(samples);
    }
  }

  /** On the tallies of the first loop, the second loop's total over its
      count is the mean of the per-CPU means, and the count is zero exactly
      when no line was accepted. */
  lemma AverageOfTallies(t: Tally, samples: seq<Sample>, totalUtil: real, numCpus: nat)
    requires Tallies(t, samples)
    requires totalUtil == SumOfMeans(t.cpus, t) && numCpus == Counted(t.cpus, t)
    ensures numCpus == 0 <==> samples == []
    ensures samples != [] ==> numCpus > 0 && totalUtil / numCpus as real == MeanOfMeans(samples)
  {
    SecondLoopSumsMeans(t.cpus, t, samples);
    if samples != [] {
      assert samples[0].cpu in t.cpus;
    }
  }

  /** Idle percentages between 0 and 100 keep every CPU sum between 0 and
      100 times its count. */
  lemma {:induction false} SumBounded(samples: seq<Sample>, cpu: int)
    requires forall s <- samples :: 0.0 <= s.idle <= 100.0
    ensures 0.0 <= Sum(samples, cpu) <= 100.0 * Count(samples, cpu) as real
  {
    if samples != [] {
      var n := |samples| - 1;
      assert forall s <- samples[..n] :: s in samples;
      SumBounded(samples[..n], cpu);
    }
  }

  /** A total of at most `hi` per item, over `k` items, has a mean between
      0 and `hi`. */
  lemma MeanBetween(total: real, k: real, hi: real)
    requires k > 0.0 && 0.0 <= total <= hi * k
    ensures 0.0 <= total / k <= hi
  {
    var m := total / k;
    assert total == m * k;
  }

  /** Idle percentages between 0 and 100 keep every per-CPU mean, and their
      sum over `cs`, within [0, 100] per CPU. */
  lemma {:induction false} MeanSumBounded(cs: seq<int>, samples: seq<Sample>)
    requires forall s <- samples :: 0.0 <= s.idle <= 100.0
    requires forall c <- cs :: Count(samples, c) >= 1
    ensures 0.0 <= MeanSum(cs, samples) <= 100.0 * |cs| as real
  {
    if cs != [] {
      var n := |cs| - 1;
      var c := cs[n];
      assert forall d <- cs[..n] :: d in cs;
      MeanSumBounded(cs[..n], samples);
      SumBounded(samples, c);
      MeanBetween(Sum(samples, c), Count(samples, c) as real, 100.0);
    }
  }

  /** Idle percentages between 0 and 100 give a reported average between
      0 and 100. */
  lemma AverageBounded(samples: seq<Sample>)
    requires samples != []
    requires forall s <- samples :: 0.0 <= s.idle <= 100.0
    ensures 0.0 <= MeanOfMeans(samples) <= 100.0
  {
    var cs := Cpus(samples);
    assert samples[0].cpu in cs;
    MeanSumBounded(cs, samples);
    MeanBetween(MeanSum(cs, samples), |cs| as real, 100.0);
  }
}
