/** The controller's threshold check and its refresh cycle. The calls the
    controller makes into the view are returned as values. */
module Monitor {
  import opened Metrics

  const CpuLimit: real := 90.0
  const MemLimit: real := 85.0
  const DiskLimit: real := 80.0

  datatype Metric = Cpu | Memory | Disk

  /** The outcome of one check: a warning naming the metric and its reading,
      or no warning. */
  datatype Alert = High(metric: Metric, value: real) | Clear

  /** Reading the newest element of an empty history fails. */
  datatype Result<T> = Ok(value: T) | IndexError

  /** The priority rule: CPU above its limit wins, else memory above its limit,
      else disk above its limit, else no alert. Limits are strict. */
  function Evaluate(cpu: real, mem: real, disk: real): (a: Alert)
    ensures a == High(Cpu, cpu) <==> cpu > CpuLimit
    ensures a == High(Memory, mem) <==> cpu <= CpuLimit && mem > MemLimit
    ensures a == High(Disk, disk) <==> cpu <= CpuLimit && mem <= MemLimit && disk > DiskLimit
    ensures a == Clear <==> cpu <= CpuLimit && mem <= MemLimit && disk <= DiskLimit
  {
    if cpu > CpuLimit then High(Cpu, cpu)
    else if mem > MemLimit then High(Memory, mem)
    else if disk > DiskLimit then High(Disk, disk)
    else Clear
  }

  /** One threshold test: a metric, its reading and its limit. */
  datatype Check = Check(metric: Metric, value: real, limit: real)

  /** The first check whose reading is strictly above its limit, or `Clear`. */
  function FirstBreach(checks: seq<Check>): (a: Alert)
    ensures a == Clear <==> forall i :: 0 <= i < |checks| ==> checks[i].value <= checks[i].limit
    ensures a.High? ==> exists k :: 0 <= k < |checks| && a == High(checks[k].metric, checks[k].value)
                          && checks[k].value > checks[k].limit
                          && forall i :: 0 <= i < k ==> checks[i].value <= checks[i].limit
  {
    if checks == [] then Clear
    else if checks[0].value > checks[0].limit then High(checks[0].metric, checks[0].value)
    else
      var rest := FirstBreach(checks[1..]);
      if rest.High? then
        var k :| 0 <= k < |checks[1..]| && rest == High(checks[1..][k].metric, checks[1..][k].value)
                 && checks[1..][k].value > checks[1..][k].limit
                 && forall i :: 0 <= i < k ==> checks[1..][i].value <= checks[1..][i].limit;
        assert rest == High(checks[k + 1].metric, checks[k + 1].value);
        assert forall i :: 0 <= i < k + 1 ==> checks[i].value <= checks[i].limit by {
          forall i | 0 <= i < k + 1 ensures checks[i].value <= checks[i].limit {
            if i > 0 { assert checks[i] == checks[1..][i - 1]; }
          }
        }
        rest
      else
        assert forall i :: 1 <= i < |checks| ==> checks[i] == checks[1..][i - 1];
        rest
  }

  /** The checks in the controller's priority order. */
  function PriorityOrder(cpu: real, mem: real, disk: real): (checks: seq<Check>)
  {
    [Check(Cpu, cpu, CpuLimit), Check(Memory, mem, MemLimit), Check(Disk, disk, DiskLimit)]
  }

  /** The if/elif chain is the first-breach rule over CPU, memory, disk. */
  lemma EvaluateIsFirstBreach(cpu: real, mem: real, disk: real)
    ensures Evaluate(cpu, mem, disk) == FirstBreach(PriorityOrder(cpu, mem, disk))
  {
    var cs := PriorityOrder(cpu, mem, disk);
    var last := [Check(Disk, disk, DiskLimit)];
    assert cs[1..] == [Check(Memory, mem, MemLimit)] + last;
    assert cs[1..][1..] == last && last[1..] == [];
    assert FirstBreach(last) == if disk > DiskLimit then High(Disk, disk) else Clear;
    assert FirstBreach(cs[1..]) == if mem > MemLimit then High(Memory, mem) else FirstBreach(last);
  }

  /** A simultaneous CPU, memory and disk breach reports only CPU. */
  lemma CpuWinsOverAll()
    ensures Evaluate(95.0, 90.0, 90.0) == High(Cpu, 95.0)
  {
  }

  /** Readings exactly at the limits raise nothing. */
  lemma LimitsAreStrict()
    ensures Evaluate(CpuLimit, MemLimit, DiskLimit) == Clear
  {
  }

  /** `check_thresholds`: the newest CPU and memory readings and the disk
      usage, run through the priority rule. */
  function CheckThresholds(cpuHistory: seq<real>, memHistory: seq<real>, disk: real): (r: Result<Alert>)
    ensures r.Ok? <==> cpuHistory != [] && memHistory != []
    ensures r.Ok? ==> r.value == Evaluate(cpuHistory[|cpuHistory| - 1], memHistory[|memHistory| - 1], disk)
  {
    if cpuHistory == [] || memHistory == [] then IndexError
    else Ok(Evaluate(cpuHistory[|cpuHistory| - 1], memHistory[|memHistory| - 1], disk))
  }

  /** What the alert label shows. */
  datatype Label = Warning(metric: Metric, value: real) | Blank

  /** A call into the view: redraw the readouts, redraw the charts, show an
      alert popup, or set the alert label. */
  datatype ViewCall =
    | RefreshMetrics
    | RefreshPlot
    | ShowPopup(metric: Metric, value: real)
    | UpdateLabel(text: Label)

  /** The view calls made for an alert: an alert shows a popup and sets the
      label; no alert only blanks the label. */
  function ViewCalls(a: Alert): (calls: seq<ViewCall>)
    ensures |calls| > 0 && calls[|calls| - 1].UpdateLabel?
    ensures forall i :: 0 <= i < |calls| - 1 ==> calls[i].ShowPopup?
    ensures a == Clear <==> calls == [UpdateLabel(Blank)]
    ensures a.High? ==> ShowPopup(a.metric, a.value) in calls
                        && calls[|calls| - 1] == UpdateLabel(Warning(a.metric, a.value))
  {
    match a
    case High(m, v) => [ShowPopup(m, v), UpdateLabel(Warning(m, v))]
    case Clear => [UpdateLabel(Blank)]
  }

  /** The number of label updates in a list of view calls. */
  function LabelUpdates(calls: seq<ViewCall>): (n: nat)
  {
    if calls == [] then 0 else (if calls[0].UpdateLabel? then 1 else 0) + LabelUpdates(calls[1..])
  }

  /** The number of popups in a list of view calls. */
  function Popups(calls: seq<ViewCall>): (n: nat)
  {
    if calls == [] then 0 else (if calls[0].ShowPopup? then 1 else 0) + Popups(calls[1..])
  }

  /** Every check updates the label exactly once and shows at most one popup;
      a popup names the same metric and value as the label, and both name the
      alert's metric and reading. */
  lemma OneLabelAtMostOnePopup(a: Alert)
    ensures LabelUpdates(ViewCalls(a)) == 1
    ensures Popups(ViewCalls(a)) == if a.High? then 1 else 0
    ensures forall i :: 0 <= i < |ViewCalls(a)| && ViewCalls(a)[i].ShowPopup? ==>
              ViewCalls(a)[|ViewCalls(a)| - 1].text == Warning(ViewCalls(a)[i].metric, ViewCalls(a)[i].value)
    ensures a.High? ==> ShowPopup(a.metric, a.value) in ViewCalls(a)
                        && ViewCalls(a)[|ViewCalls(a)| - 1] == UpdateLabel(Warning(a.metric, a.value))
  {
    var calls := ViewCalls(a);
    if a.High? {
      assert calls[1..] == [UpdateLabel(Warning(a.metric, a.value))] && calls[1..][1..] == [];
      assert LabelUpdates(calls[1..][1..]) == 0 && Popups(calls[1..][1..]) == 0;
      assert LabelUpdates(calls[1..]) == 1 && Popups(calls[1..]) == 0;
    } else {
      assert calls[1..] == [];
    }
  }

  /** The controller: it owns the store and, on every timer tick, updates the
      store and then checks the thresholds. */
  class SystemMonitorController {
    const model: SystemMetrics

    ghost predicate Valid()
      reads this, model
    {
      model.Valid() && model.historyLength == DefaultHistoryLength
    }

    constructor ()
      ensures Valid() && fresh(model)
      ensures model.samples == []
    {
      model := new SystemMetrics(DefaultHistoryLength);
    }

    /** `update_model_and_view`: the store is updated first, so the histories
        are non-empty when the thresholds are checked, and the check sees the
        sample just taken. */
    method UpdateModelAndView(s: Sample) returns (calls: seq<ViewCall>)
      requires Valid()
      modifies model
      ensures Valid()
      ensures model.samples == old(model.samples) + [s]
      ensures CheckThresholds(model.cpuHistory, model.memHistory, model.diskUsage) == Ok(Evaluate(s.cpu, s.mem, s.disk))
      ensures calls == [RefreshMetrics, RefreshPlot] + ViewCalls(Evaluate(s.cpu, s.mem, s.disk))
    {
      model.UpdateData(s);
      calls := [RefreshMetrics, RefreshPlot];
      var cpuHistory := model.GetCpuHistory();
      var memHistory := model.GetMemHistory();
      var r := CheckThresholds(cpuHistory, memHistory, model.GetDiskUsage());
      match r
      case Ok(alert) => calls := calls + ViewCalls(alert);
      case IndexError => assert false;
    }
  }
}
