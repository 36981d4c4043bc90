// Metrics per plugin config (src/utils/plugin-metrics.ts:38-73).
module PluginMetrics {

  datatype Operation = Increment | Max | Min

  type Metrics = map<string, int>

  function Value(metrics: Metrics, name: string): int {
    if name in metrics then metrics[name] else 0
  }

  // A value of 0 is treated as absent.
  function Updated(metrics: Metrics, operation: Operation, name: string, value: int): Metrics {
    var current := Value(metrics, name);
    metrics[name :=
      if current == 0 then value
      else match operation
           case Increment => current + value
           case Max => if value > current then value else current
           case Min => if value < current then value else current]
  }

  // For Increment that shortcut makes no difference.
  lemma IncrementAdds(metrics: Metrics, name: string, value: int, other: string)
    ensures Value(Updated(metrics, Increment, name, value), other)
            == Value(metrics, other) + if other == name then value else 0
  {
  }

  // From the first value on, Max keeps the greatest and Min the least, and no other metric changes.
  lemma ExtremesAreKept(metrics: Metrics, name: string, value: int, other: string)
    ensures var most := Updated(metrics, Max, name, value);
            var least := Updated(metrics, Min, name, value);
            && (Value(metrics, name) == 0 ==> Value(most, name) == Value(least, name) == value)
            && (Value(metrics, name) != 0 ==>
                  && Value(most, name) >= value && Value(most, name) >= Value(metrics, name)
                  && Value(least, name) <= value && Value(least, name) <= Value(metrics, name)
                  && Value(most, name) in {value, Value(metrics, name)}
                  && Value(least, name) in {value, Value(metrics, name)})
            && (other != name ==> Value(most, other) == Value(least, other) == Value(metrics, other))
  {
  }

  function MetricsOf(all: map<int, Metrics>, pluginConfig: int): Metrics {
    if pluginConfig in all then all[pluginConfig] else map[]
  }

  class PluginMetricsManager {
    var metricsPerPluginConfig: map<int, Metrics>

    constructor ()
      ensures metricsPerPluginConfig == map[]
    {
      metricsPerPluginConfig := map[];
    }

    // hasPlugin: pluginConfig.plugin is set
    method UpdateMetric(operation: Operation, pluginConfig: int, hasPlugin: bool, name: string, value: int)
      modifies this
      ensures !hasPlugin ==> metricsPerPluginConfig == old(metricsPerPluginConfig)
      ensures hasPlugin ==>
                metricsPerPluginConfig
                == old(metricsPerPluginConfig)[pluginConfig :=
                     Updated(MetricsOf(old(metricsPerPluginConfig), pluginConfig), operation, name, value)]
    {
      if !hasPlugin {
        return;
      }
      if pluginConfig !in metricsPerPluginConfig {
        metricsPerPluginConfig := metricsPerPluginConfig[pluginConfig := map[]];
      }
      var metrics := metricsPerPluginConfig[pluginConfig];
      if name !in metrics || metrics[name] == 0 {
        metricsPerPluginConfig := metricsPerPluginConfig[pluginConfig := metrics[name := value]];
        return;
      }
      match operation {
        case Increment => metrics := metrics[name := metrics[name] + value];
        case Max => metrics := metrics[name := if value > metrics[name] then value else metrics[name]];
        case Min => metrics := metrics[name := if value < metrics[name] then value else metrics[name]];
      }
      metricsPerPluginConfig := metricsPerPluginConfig[pluginConfig := metrics];
    }
  }
}
