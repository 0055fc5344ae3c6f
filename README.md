# SysGauge core in Dafny

SysGauge is a desktop system monitor. On every tick of a 250 ms timer its
controller asks the metrics store (`SystemMetrics`) to take one reading of the
host, redraws the view, and then runs `check_thresholds`, which raises at most
one alert for CPU, memory or disk usage.

This project models the two pieces of that cycle with real logic in them:

- `metrics.dfy`, module `Metrics`: the store. The class `SystemMetrics` keeps
  two bounded histories (`cpuHistory`, `memHistory`) that behave like Python's
  `deque(maxlen=history_length)`. It also keeps two single-slot fields,
  `diskUsage` and `netIo`, which every update overwrites. A ghost log
  `samples` records every reading taken. The invariant `Valid()` says that
  each history is the last `historyLength` values of its metric in that log,
  and that the single-slot fields hold the newest reading (zero before the
  first one). Deque append is `Append`: append on the right, then drop the
  leftmost element if the deque is over capacity. `LastN` is the reference
  meaning of a sliding window. `Replay` is what any number of appends to an
  empty deque produce, and `ReplayIsLastN` proves the two agree.
  Network counters are converted to megabytes by dividing by 1024².
- `monitor.dfy`, module `Monitor`: the controller. `Evaluate` is the
  priority rule (CPU > 90, else memory > 85, else disk > 80, else clear).
  `FirstBreach` is an independent reference definition of the same rule: the
  first check, in priority order, whose reading is above its limit.
  `CheckThresholds` reads the newest history elements; if a history is empty
  it returns `IndexError`, as Python's `[-1]` would raise. The calls the
  controller makes into the view come back as a list of `ViewCall` values.
  `SystemMonitorController.UpdateModelAndView` runs the store update first.
  So the check always succeeds and judges the sample just taken.

Percentages and megabytes are `real`; byte counters are `nat`. The
operating-system readings that `update_data` takes from `psutil` are a
`Sample` parameter of `UpdateData`.

The getters are functions over the store's fields, so they cannot change
state. Histories are `seq` values, so what a getter returns cannot be changed
by a later update. That is the guarantee Python gets by copying the deque
into a new `list`.

Two details of the code worth stating:

- A history length of 0 is accepted, as `deque(maxlen=0)` accepts it. It is
  not rejected when the store is built. Such a store keeps empty histories,
  so `CheckThresholds` then yields `IndexError`.
- The initial disk usage and network pair are the integers `0` and `(0, 0)`.
  The model holds them as `0.0` and `NetIo(0.0, 0.0)`, which have the same
  value.

## Model

| member | source | states |
|---|---|---|
| `Metrics.ToMegabytes` | system_metrics.py:21 | the result times 1024² is the byte count, and it is never negative |
| `Metrics.NetIoOf` | system_metrics.py:20-21 | both sent and received megabytes times 1024² give back the cumulative byte counters of the sample |
| `Metrics.NetIoExample` | system_metrics.py:21 | 2·1024² bytes sent and 1024² bytes received give (2.0, 1.0) |
| `Metrics.LastN` | system_metrics.py:10-11 | a window of capacity n over s has min(len s, n) elements, and they are the newest ones oldest-first: its i-th element is element (len s - len r + i) of s |
| `Metrics.Append` | system_metrics.py:17-18 | a deque append grows the history by one below capacity and stays at capacity otherwise; the new value is last; below capacity the old contents are kept as a prefix, and at capacity the oldest element is dropped |
| `Metrics.AppendSlides` | system_metrics.py:17-18 | appending to the window of xs gives the window of xs + [x] (FIFO sliding window) |
| `Metrics.Replay` | system_metrics.py:17-18 | replaying updates into a deque of capacity C never holds more than C values nor more than were appended, and for C > 0 the newest value appended is last |
| `Metrics.ReplayIsLastN` | system_metrics.py:17-18 | after any number of appends to an empty deque, the history is exactly the last C values, oldest first |
| `Metrics.ReplayLength` | system_metrics.py:10-11 | the history length is the number of updates until it reaches C, and C after that |
| `Metrics.CapacityOneKeepsNewest` | system_metrics.py:24-25 | with capacity 1, readings 30 then 70 leave [70] |
| `Metrics.SeriesExtend` | system_metrics.py:17-18 | one more reading extends the CPU series by its CPU value and the memory series by its memory value, leaving earlier values in place |
| `Metrics.SystemMetrics.Lockstep` | system_metrics.py:17-18 | the CPU and memory histories always have equal length, at most the capacity |
| `Metrics.SystemMetrics.constructor` | system_metrics.py:7-13 | a new store has empty histories, disk usage 0 and network pair (0, 0), and keeps the given capacity |
| `Metrics.SystemMetrics.UpdateData` | system_metrics.py:16-21 | both histories get the new reading appended with deque eviction, in lockstep; the newest element is the reading; disk usage and network pair are overwritten with this reading's values; the invariant is kept |
| `Metrics.SystemMetrics.GetCpuHistory` | system_metrics.py:24-25 | the CPU history is what replaying all CPU readings into a deque of the capacity gives; its length is min(updates, C); its last element is the newest reading |
| `Metrics.SystemMetrics.GetMemHistory` | system_metrics.py:27-28 | the same for the memory history |
| `Metrics.SystemMetrics.GetDiskUsage` | system_metrics.py:30-31 | 0 before any update, otherwise the disk usage of the newest reading |
| `Metrics.SystemMetrics.GetNetworkIo` | system_metrics.py:33-34 | (0, 0) before any update, otherwise the newest cumulative byte counters in megabytes |
| `Monitor.Evaluate` | system_monitor_controller.py:27-38 | CPU alert iff CPU > 90; memory alert iff CPU ≤ 90 and memory > 85; disk alert iff CPU ≤ 90, memory ≤ 85 and disk > 80; clear iff none is exceeded |
| `Monitor.FirstBreach` | system_monitor_controller.py:26-38 | clear iff no check is above its limit; otherwise the alert names a check above its limit with every earlier check at or below its own |
| `Monitor.EvaluateIsFirstBreach` | system_monitor_controller.py:27-36 | the if/elif chain is the first breach in the order CPU, memory, disk |
| `Monitor.CpuWinsOverAll` | system_monitor_controller.py:27-29 | CPU 95, memory 90, disk 90 report only the CPU alert |
| `Monitor.LimitsAreStrict` | system_monitor_controller.py:27-35 | readings exactly at 90, 85 and 80 raise no alert |
| `Monitor.CheckThresholds` | system_monitor_controller.py:21-38 | fails iff a history is empty; otherwise it is the priority rule over the newest CPU and memory readings and the disk usage |
| `Monitor.ViewCalls` | system_monitor_controller.py:27-38 | the last call sets the label, and every call before it is a popup; the label is blanked and nothing else is done exactly when there is no alert; for an alert, the popup and the label name the alert's metric and reading |
| `Monitor.OneLabelAtMostOnePopup` | system_monitor_controller.py:27-38 | exactly one label update; one popup for an alert and none otherwise; the popup and the label name the same metric and value, which are the alert's metric and reading |
| `Monitor.SystemMonitorController.constructor` | system_monitor_controller.py:10-13 | the controller owns a fresh, empty store with the default capacity of 10 |
| `Monitor.SystemMonitorController.UpdateModelAndView` | system_monitor_controller.py:40-44 | the store is updated before the check, so the check succeeds and judges the sample just taken; the calls are redraw, replot, then the alert's view calls |

## Left out

- The `psutil` readings (CPU percent with its sampling interval, virtual memory, disk usage of `/`, network counters) are not made by the model. They become the `Sample` argument of `UpdateData`. If `psutil` raises, the exception leaves `update_data` with the store only partly updated. The model has no such failure path.
- A negative `history_length` makes `deque` raise `ValueError`, and `history_length=None` builds an unbounded deque. The model types the capacity as `nat`, so it cannot express either case; no caller passes them.
- Floating point: percentages and megabytes are exact reals. Python's float division by 1024² can round for very large counters, and the model does not capture that rounding.
- Metrics.ToMegabytes: states the exact real quotient, not the rounded IEEE double result.
- The deque and the copied `list` are both `seq` values. Object identity and aliasing of the Python lists are not modelled.
- The alert text (the f-strings with the rendered value and the warning sign) is not modelled. The label and popup carry the metric and its value instead.
- `view.update_metrics()` and `view.update_plot()` appear only as the `RefreshMetrics` and `RefreshPlot` calls. Everything in `system_monitor_view.py` is not part of this model: widgets, themes, charts, and the popup dialog.
- The `QApplication` and `QTimer` set-up in the controller's constructor is not modelled, and neither is the 250 ms schedule or `app.py`. Each timer tick corresponds to one `UpdateModelAndView` call.
- Nested ticks under the modal popup are not modelled. `show_alert_popup` runs the dialog with `exec_()` (system_monitor_view.py:298), a nested event loop in which the 250 ms timer keeps firing, so `update_model_and_view` can run again before the outer call reaches its `update_alert_label`. The outer call can then overwrite a newer label: CPU 95 on one tick opens the popup, an all-clear tick blanks the label, and closing the popup sets the CPU warning again. `UpdateModelAndView` states the calls of one invocation run to completion; it does not capture this interleaving.
- `sys-info.py` is not part of this model. It only wraps `psutil`, and nothing calls it.
