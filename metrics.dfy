/** The rolling metrics store of the system monitor: two bounded CPU and
    memory histories appended in lockstep, plus the latest disk usage and
    cumulative network transfer. Operating-system readings arrive as a
    `Sample` argument instead of being read inside the store. */
module Metrics {

  /** The history length used when none is given. */
  const DefaultHistoryLength: nat := 10

  /** Bytes in one megabyte (1024 squared). */
  const BytesPerMegabyte: real := 1048576.0

  /** One reading of the host: CPU, memory and disk in percent, and the
      cumulative bytes sent and received since boot. */
  datatype Sample = Sample(cpu: real, mem: real, disk: real, bytesSent: nat, bytesRecv: nat)

  /** Cumulative network transfer in megabytes: (sent, received). */
  datatype NetIo = NetIo(sentMb: real, recvMb: real)

  /** Converts a byte count to megabytes; the inverse of scaling by 1024 squared. */
  function ToMegabytes(bytes: nat): (mb: real)
    ensures mb * BytesPerMegabyte == bytes as real
    ensures 0.0 <= mb
  {
    bytes as real / BytesPerMegabyte
  }

  /** The network pair the store keeps for a sample. */
  function NetIoOf(s: Sample): (io: NetIo)
    ensures io.sentMb * BytesPerMegabyte == s.bytesSent as real
    ensures io.recvMb * BytesPerMegabyte == s.bytesRecv as real
  {
    NetIo(ToMegabytes(s.bytesSent), ToMegabytes(s.bytesRecv))
  }

  /** Two MB sent and one MB received read back as (2.0, 1.0). */
  lemma NetIoExample()
    ensures NetIoOf(Sample(0.0, 0.0, 0.0, 2 * 1024 * 1024, 1024 * 1024)) == NetIo(2.0, 1.0)
  {
  }

  /** The last `n` elements of `s`, oldest first (all of `s` when it is shorter):
      the reference meaning of a sliding window of capacity `n`. */
  function LastN(s: seq<real>, n: nat): (r: seq<real>)
    ensures |r| == if |s| <= n then |s| else n
    ensures forall i :: 0 <= i < |r| ==> r[i] == s[|s| - |r| + i]
  {
    if |s| <= n then s else s[|s| - n..]
  }

  /** Appending to a bounded deque: the element goes on the right, and when the
      deque then holds more than `cap` elements the leftmost one is dropped. */
  function Append(h: seq<real>, x: real, cap: nat): (r: seq<real>)
    ensures |h| <= cap ==> |r| == if |h| < cap then |h| + 1 else cap
    ensures cap > 0 ==> |r| > 0 && r[|r| - 1] == x
    ensures |h| < cap ==> r[..|h|] == h
    ensures |h| == cap > 0 ==> r[..|h| - 1] == h[1..]
  {
    var s := h + [x];
    if |s| > cap then s[1..] else s
  }

  /** Appending to a full window slides it: appending `x` to the window of `xs`
      gives the window of `xs + [x]`. */
  lemma AppendSlides(xs: seq<real>, x: real, cap: nat)
    ensures Append(LastN(xs, cap), x, cap) == LastN(xs + [x], cap)
  {
    var w := LastN(xs, cap);
    var ys := xs + [x];
    if |xs| < cap {
      assert w == xs;
    } else {
      assert |w| == cap;
      assert LastN(ys, cap) == ys[|ys| - cap..];
      if cap > 0 {
        assert w[1..] + [x] == ys[|ys| - cap..];
      } else {
        assert LastN(ys, cap) == [];
      }
    }
  }

  /** The history after appending each of `xs` in turn to an empty deque of
      capacity `cap`. */
  function Replay(xs: seq<real>, cap: nat): (h: seq<real>)
    ensures |h| <= cap && |h| <= |xs|
    ensures cap > 0 && xs != [] ==> h != [] && h[|h| - 1] == xs[|xs| - 1]
  {
    if xs == [] then [] else Append(Replay(xs[..|xs| - 1], cap), xs[|xs| - 1], cap)
  }

  /** After any number of updates the history holds exactly the last `cap`
      values, oldest first. */
  lemma {:induction false} ReplayIsLastN(xs: seq<real>, cap: nat)
    ensures Replay(xs, cap) == LastN(xs, cap)
  {
    if xs != [] {
      var init := xs[..|xs| - 1];
      ReplayIsLastN(init, cap);
      AppendSlides(init, xs[|xs| - 1], cap);
      assert init + [xs[|xs| - 1]] == xs;
    }
  }

  /** The window never exceeds its capacity, grows by one per update until it
      reaches the capacity, and then stays there. */
  lemma {:induction false} ReplayLength(xs: seq<real>, cap: nat)
    ensures |Replay(xs, cap)| == if |xs| <= cap then |xs| else cap
  {
    ReplayIsLastN(xs, cap);
  }

  /** With capacity one, samples 30 then 70 leave only 70. */
  lemma CapacityOneKeepsNewest()
    ensures Replay([30.0, 70.0], 1) == [70.0]
  {
    assert [30.0, 70.0][..1] == [30.0];
    assert [30.0][..0] == [];
  }

  /** The CPU readings of a log of samples, in order. */
  function CpuSeries(log: seq<Sample>): (c: seq<real>)
  {
    seq(|log|, i requires 0 <= i < |log| => log[i].cpu)
  }

  /** The memory readings of a log of samples, in order. */
  function MemSeries(log: seq<Sample>): (m: seq<real>)
  {
    seq(|log|, i requires 0 <= i < |log| => log[i].mem)
  }

  /** Taking one more reading extends each series by that reading's value. */
  lemma SeriesExtend(log: seq<Sample>, s: Sample)
    ensures CpuSeries(log + [s]) == CpuSeries(log) + [s.cpu]
    ensures MemSeries(log + [s]) == MemSeries(log) + [s.mem]
  {
  }

  /** The store. `samples` is the ghost log of every reading taken so far. */
  class SystemMetrics {
    const historyLength: nat
    var cpuHistory: seq<real>
    var memHistory: seq<real>
    var diskUsage: real
    var netIo: NetIo
    ghost var samples: seq<Sample>

    /** Both histories are the sliding windows of the log, and the single-slot
        fields hold the newest reading (or zero before the first one). */
    ghost predicate Valid()
      reads this
    {
      && cpuHistory == LastN(CpuSeries(samples), historyLength)
      && memHistory == LastN(MemSeries(samples), historyLength)
      && (samples == [] ==> diskUsage == 0.0 && netIo == NetIo(0.0, 0.0))
      && (samples != [] ==> diskUsage == samples[|samples| - 1].disk
                            && netIo == NetIoOf(samples[|samples| - 1]))
    }

    /** Both histories are equally long and within the capacity. */
    lemma Lockstep()
      requires Valid()
      ensures |cpuHistory| == |memHistory| <= historyLength
    {
    }

    constructor (historyLength: nat)
      ensures Valid()
      ensures this.historyLength == historyLength && samples == []
      ensures cpuHistory == [] && memHistory == []
      ensures diskUsage == 0.0 && netIo == NetIo(0.0, 0.0)
    {
      this.historyLength := historyLength;
      cpuHistory := [];
      memHistory := [];
      diskUsage := 0.0;
      netIo := NetIo(0.0, 0.0);
      samples := [];
    }

    /** Takes one reading: both histories get the new value appended (evicting
        the oldest at capacity) and disk and network are overwritten. */
    method UpdateData(s: Sample)
      requires Valid()
      modifies this
      ensures Valid()
      ensures samples == old(samples) + [s]
      ensures cpuHistory == Append(old(cpuHistory), s.cpu, historyLength)
      ensures memHistory == Append(old(memHistory), s.mem, historyLength)
      ensures |cpuHistory| == |memHistory| == if |old(cpuHistory)| < historyLength then |old(cpuHistory)| + 1 else historyLength
      ensures historyLength > 0 ==> cpuHistory[|cpuHistory| - 1] == s.cpu && memHistory[|memHistory| - 1] == s.mem
      ensures diskUsage == s.disk && netIo == NetIoOf(s)
    {
      AppendSlides(CpuSeries(samples), s.cpu, historyLength);
      AppendSlides(MemSeries(samples), s.mem, historyLength);
      SeriesExtend(samples, s);
      cpuHistory := Append(cpuHistory, s.cpu, historyLength);
      memHistory := Append(memHistory, s.mem, historyLength);
      diskUsage := s.disk;
      netIo := NetIoOf(s);
      samples := samples + [s];
    }

    /** The CPU history, oldest first: the last `historyLength` CPU readings. */
    function GetCpuHistory(): (h: seq<real>)
      reads this
      requires Valid()
      ensures h == Replay(CpuSeries(samples), historyLength)
      ensures |h| == if |samples| <= historyLength then |samples| else historyLength
      ensures historyLength > 0 && samples != [] ==> h[|h| - 1] == samples[|samples| - 1].cpu
    {
      ReplayIsLastN(CpuSeries(samples), historyLength);
      cpuHistory
    }

    /** The memory history, oldest first: the last `historyLength` memory readings. */
    function GetMemHistory(): (h: seq<real>)
      reads this
      requires Valid()
      ensures h == Replay(MemSeries(samples), historyLength)
      ensures |h| == if |samples| <= historyLength then |samples| else historyLength
      ensures historyLength > 0 && samples != [] ==> h[|h| - 1] == samples[|samples| - 1].mem
    {
      ReplayIsLastN(MemSeries(samples), historyLength);
      memHistory
    }

    /** The disk usage of the newest reading, zero before any. */
    function GetDiskUsage(): (d: real)
      reads this
      requires Valid()
      ensures samples == [] ==> d == 0.0
      ensures samples != [] ==> d == samples[|samples| - 1].disk
    {
      diskUsage
    }

    /** The cumulative network transfer of the newest reading in megabytes,
        (0, 0) before any. */
    function GetNetworkIo(): (io: NetIo)
      reads this
      requires Valid()
      ensures samples == [] ==> io == NetIo(0.0, 0.0)
      ensures samples != [] ==> io.sentMb * BytesPerMegabyte == samples[|samples| - 1].bytesSent as real
      ensures samples != [] ==> io.recvMb * BytesPerMegabyte == samples[|samples| - 1].bytesRecv as real
    {
      netIo
    }
  }
}
