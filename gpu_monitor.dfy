/** The GPU monitor (gpu_monitor.py): one metrics record per NVML device, or
    a single virtual device when NVML cannot be used. The driver itself is
    outside the model: what it reports is passed in as `DeviceReading`s. */
module GpuMonitor {
  import opened Wrappers

  const GiB: int := 1073741824

  /** Temperature at or above which a device is reported unhealthy. */
  const HotTemperature: int := 85

  datatype GpuMetrics = GpuMetrics(
    gpuId: int,
    name: string,
    memoryTotal: int,
    memoryUsed: int,
    temperature: Option<int>,
    utilization: Option<int>,
    isHealthy: bool)

  /** What NVML returns for one device index; a query that raised is `None`. */
  datatype DeviceReading = DeviceReading(
    name: string,
    memoryTotal: int,
    memoryUsed: int,
    temperature: Option<int>,
    utilization: Option<int>)

  /** The device the monitor reports when NVML is unavailable. */
  const VirtualGpu: GpuMetrics := GpuMetrics(0, "virtual-gpu-0", 16 * GiB, 0, None, None, true)

  /** The health rule: unknown temperature, or below 85 degrees. */
  predicate Healthy(temperature: Option<int>) {
    temperature.None? || temperature.value < HotTemperature
  }

  /** What `list_gpus` reports: the virtual device alone without NVML,
      otherwise one record per device index, in index order, carrying the
      driver's figures unchanged. */
  function Listing(nvmlAvailable: bool, readings: seq<DeviceReading>): (ms: seq<GpuMetrics>)
    ensures !nvmlAvailable ==> ms == [VirtualGpu]
    ensures nvmlAvailable ==> |ms| == |readings|
    ensures nvmlAvailable ==> forall i :: 0 <= i < |readings| ==>
              && ms[i].gpuId == i
              && ms[i].name == readings[i].name
              && ms[i].memoryTotal == readings[i].memoryTotal
              && ms[i].memoryUsed == readings[i].memoryUsed
              && ms[i].temperature == readings[i].temperature
              && ms[i].utilization == readings[i].utilization
              && (ms[i].isHealthy <==> Healthy(readings[i].temperature))
  {
    if !nvmlAvailable then [VirtualGpu]
    else seq(|readings|, i requires 0 <= i < |readings| =>
               var r := readings[i];
               GpuMetrics(i, r.name, r.memoryTotal, r.memoryUsed, r.temperature, r.utilization, Healthy(r.temperature)))
  }

  class GpuMonitor {
    var nvmlAvailable: bool

    /** `importOk`: `import pynvml` succeeded; `initOk`: `nvmlInit()` did not
        raise. Availability is fixed here and never re-examined. */
    constructor (importOk: bool, initOk: bool)
      ensures nvmlAvailable <==> importOk && initOk
    {
      nvmlAvailable := false;
      if importOk {
        if initOk {
          nvmlAvailable := true;
        } else {
          nvmlAvailable := false;
        }
      }
    }

    /** `list_gpus()`, given what the driver reports for device indices
        0 .. |readings|-1. */
    method ListGpus(readings: seq<DeviceReading>) returns (metrics: seq<GpuMetrics>)
      ensures metrics == Listing(nvmlAvailable, readings)
    {
      if !nvmlAvailable {
        return [VirtualGpu];
      }
      metrics := [];
      for idx := 0 to |readings|
        invariant metrics == Listing(true, readings[..idx])
      {
        var r := readings[idx];
        var isHealthy := true;
        if r.temperature.Some? && r.temperature.value >= HotTemperature {
          isHealthy := false;
        }
        metrics := metrics + [GpuMetrics(idx, r.name, r.memoryTotal, r.memoryUsed, r.temperature, r.utilization, isHealthy)];
      }
      assert readings[..|readings|] == readings;
    }
  }
}
