/** From container readings to the resources to freeze: extremes per container, maxima per dotted key. */
module ResourceMetrics {
  import opened Wrappers
  import opened ResourceMapping

  const CPU_FLOOR := 100
  const MEMORY_FLOOR := 128
  const CEILING := 999999

  /** The rounded samples of one container over the query period, and whether the series had labels at all. */
  datatype Reading = Reading(labelled: bool, pod: string, container: string, values: seq<int>)

  datatype Usage = Usage(pod: string, container: string, cpuMax: int, cpuMin: int, memoryMax: int, memoryMin: int)

  function Max(a: int, b: int): int {
    if a < b then b else a
  }

  function Min(a: int, b: int): int {
    if a < b then a else b
  }

  function Highest(floor: int, values: seq<int>): int {
    if values == [] then floor else Max(Highest(floor, values[..|values| - 1]), values[|values| - 1])
  }

  function Lowest(values: seq<int>): int {
    if values == [] then CEILING else Min(Lowest(values[..|values| - 1]), values[|values| - 1])
  }

  /** Twice the highest sample, half the lowest one. */
  method Extremes(values: seq<int>, floor: int) returns (top: int, bottom: int)
    ensures top == 2 * Highest(floor, values) && bottom == Lowest(values) / 2
  {
    top, bottom := floor, CEILING;
    for i := 0 to |values|
      invariant top == Highest(floor, values[..i]) && bottom == Lowest(values[..i])
    {
      assert values[..i + 1][..i] == values[..i];
      top := Max(top, values[i]);
      bottom := Min(bottom, values[i]);
    }
    assert values[..|values|] == values;
    top := top * 2;
    bottom := bottom / 2;
  }

  lemma {:induction false} HighestIsMaximum(floor: int, values: seq<int>)
    ensures floor <= Highest(floor, values) && (forall x :: x in values ==> x <= Highest(floor, values))
    ensures Highest(floor, values) == floor || Highest(floor, values) in values
  {
    if values != [] {
      var n := |values| - 1;
      HighestIsMaximum(floor, values[..n]);
      assert values == values[..n] + [values[n]];
    }
  }

  lemma {:induction false} LowestIsMinimum(values: seq<int>)
    ensures Lowest(values) <= CEILING && (forall x :: x in values ==> Lowest(values) <= x)
    ensures Lowest(values) == CEILING || Lowest(values) in values
  {
    if values != [] {
      var n := |values| - 1;
      LowestIsMinimum(values[..n]);
      assert values == values[..n] + [values[n]];
    }
  }

  /** One container's request is at most its limit exactly when it was sampled at all. */
  lemma SampledExactly(floor: int, values: seq<int>)
    requires 0 <= floor < CEILING / 4
    ensures Lowest(values) / 2 <= 2 * Highest(floor, values) <==> values != []
  {
    HighestIsMaximum(floor, values);
    LowestIsMinimum(values);
    if values != [] {
      assert values[0] in values;
    }
  }

  /** A sampled container asks for half its lowest sample and gets twice its highest, within the starting values. */
  lemma UsageMeans(c: Container, cpu: seq<int>, memory: seq<int>, low: int, high: int, least: int, most: int)
    requires low in cpu && high in cpu && forall x :: x in cpu ==> low <= x <= high
    requires least in memory && most in memory && forall x :: x in memory ==> least <= x <= most
    ensures var u := UsageOf(c, cpu, memory);
            && (u.pod, u.container) == c
            && u.cpuMin == (if low < 999999 then low else 999999) / 2
            && u.cpuMax == 2 * (if high > 100 then high else 100)
            && u.memoryMin == (if least < 999999 then least else 999999) / 2
            && u.memoryMax == 2 * (if most > 128 then most else 128)
  {
    LowestIsMinimum(cpu);
    LowestIsMinimum(memory);
    HighestIsMaximum(CPU_FLOOR, cpu);
    HighestIsMaximum(MEMORY_FLOOR, memory);
  }

  // Collecting the readings

  type Container = (string, string)

  function Named(r: Reading): Container {
    (r.pod, r.container)
  }

  predicate Countable(r: Reading) {
    r.labelled && r.pod != "" && r.container != ""
  }

  /** The last reading of a container wins. */
  function LastCpu(readings: seq<Reading>): map<Container, seq<int>> {
    if readings == [] then map[]
    else
      var r := readings[|readings| - 1];
      var before := LastCpu(readings[..|readings| - 1]);
      if Countable(r) then before[Named(r) := r.values] else before
  }

  function LastMemory(readings: seq<Reading>): map<Container, seq<int>> {
    if readings == [] then map[]
    else
      var r := readings[|readings| - 1];
      var before := LastMemory(readings[..|readings| - 1]);
      if r.labelled then before[Named(r) := r.values] else before
  }

  /** The reading at `i` is the last one of its container, among those with labels and names. */
  predicate LastNamed(readings: seq<Reading>, i: nat) {
    && i < |readings| && readings[i].labelled && readings[i].pod != "" && readings[i].container != ""
    && forall j :: i < j < |readings| && readings[j].labelled ==>
         readings[j].pod != readings[i].pod || readings[j].container != readings[i].container
  }

  /** The same, among those with labels. */
  predicate LastLabelled(readings: seq<Reading>, i: nat) {
    && i < |readings| && readings[i].labelled
    && forall j :: i < j < |readings| && readings[j].labelled ==>
         readings[j].pod != readings[i].pod || readings[j].container != readings[i].container
  }

  lemma LastInInit(readings: seq<Reading>, i: nat)
    requires i < |readings| - 1
    ensures LastNamed(readings, i) ==> LastNamed(readings[..|readings| - 1], i)
    ensures LastLabelled(readings, i) ==> LastLabelled(readings[..|readings| - 1], i)
  {
  }

  /** A container's CPU samples are those of its last reading. */
  lemma {:induction false} LastCpuReading(readings: seq<Reading>, i: nat)
    requires LastNamed(readings, i)
    ensures var c := (readings[i].pod, readings[i].container);
            c in LastCpu(readings) && LastCpu(readings)[c] == readings[i].values
    decreases |readings|
  {
    var n := |readings| - 1;
    if i < n {
      LastInInit(readings, i);
      LastCpuReading(readings[..n], i);
    }
  }

  lemma {:induction false} LastMemoryReading(readings: seq<Reading>, i: nat)
    requires LastLabelled(readings, i)
    ensures var c := (readings[i].pod, readings[i].container);
            c in LastMemory(readings) && LastMemory(readings)[c] == readings[i].values
    decreases |readings|
  {
    var n := |readings| - 1;
    if i < n {
      LastInInit(readings, i);
      LastMemoryReading(readings[..n], i);
    }
  }

  /** No container is there without a reading of its own. */
  lemma {:induction false} ReadingsOnly(readings: seq<Reading>, c: Container)
    ensures c in LastCpu(readings) ==>
              exists i :: 0 <= i < |readings| && readings[i].labelled && (readings[i].pod, readings[i].container) == c
    ensures c in LastCpu(readings) ==> c.0 != "" && c.1 != ""
    ensures c in LastMemory(readings) ==>
              exists i :: 0 <= i < |readings| && readings[i].labelled && (readings[i].pod, readings[i].container) == c
    decreases |readings|
  {
    if readings != [] {
      var n := |readings| - 1;
      ReadingsOnly(readings[..n], c);
      assert forall i :: 0 <= i < n ==> readings[..n][i] == readings[i];
    }
  }

  function UsageOf(c: Container, cpu: seq<int>, memory: seq<int>): Usage {
    Usage(c.0, c.1, 2 * Highest(CPU_FLOOR, cpu), Lowest(cpu) / 2, 2 * Highest(MEMORY_FLOOR, memory), Lowest(memory) / 2)
  }

  datatype Partial = Partial(cpu: Option<(int, int)>, memory: Option<(int, int)>)

  function CpuPart(values: seq<int>): (int, int) {
    (2 * Highest(CPU_FLOOR, values), Lowest(values) / 2)
  }

  function MemoryPart(values: seq<int>): (int, int) {
    (2 * Highest(MEMORY_FLOOR, values), Lowest(values) / 2)
  }

  method CollectCpu(cpu: seq<Reading>) returns (result: map<Container, Partial>)
    ensures result == map c | c in LastCpu(cpu) :: Partial(Some(CpuPart(LastCpu(cpu)[c])), None)
  {
    result := map[];
    for i := 0 to |cpu|
      invariant result == map c | c in LastCpu(cpu[..i]) :: Partial(Some(CpuPart(LastCpu(cpu[..i])[c])), None)
    {
      assert cpu[..i + 1][..i] == cpu[..i];
      if Countable(cpu[i]) {
        var top, bottom := Extremes(cpu[i].values, CPU_FLOOR);
        result := result[Named(cpu[i]) := Partial(Some((top, bottom)), None)];
      }
    }
    assert cpu[..|cpu|] == cpu;
  }

  /** Adds the memory readings; `None` at the first one of a container without CPU readings. */
  method AddMemory(cpus: map<Container, Partial>, memory: seq<Reading>)
    returns (result: Option<map<Container, Partial>>)
    ensures result.Some? <==> LastMemory(memory).Keys <= cpus.Keys
    ensures result.Some? ==> result.value == map c | c in cpus :: WithMemory(cpus[c], LastMemory(memory), c)
  {
    var sums := cpus;
    NoMemory(cpus);
    for i := 0 to |memory|
      invariant LastMemory(memory[..i]).Keys <= cpus.Keys
      invariant sums == map c | c in cpus :: WithMemory(cpus[c], LastMemory(memory[..i]), c)
    {
      assert memory[..i + 1][..i] == memory[..i];
      if memory[i].labelled {
        var c := Named(memory[i]);
        var top, bottom := Extremes(memory[i].values, MEMORY_FLOOR);
        if c !in sums {
          LastMemoryGrows(memory, i);
          return None;
        }
        sums := sums[c := sums[c].(memory := Some((top, bottom)))];
      }
    }
    assert memory[..|memory|] == memory;
    return Some(sums);
  }

  function WithMemory(p: Partial, memory: map<Container, seq<int>>, c: Container): Partial {
    if c in memory then p.(memory := Some(MemoryPart(memory[c]))) else p
  }

  lemma NoMemory(cpus: map<Container, Partial>)
    ensures cpus == map c | c in cpus :: WithMemory(cpus[c], LastMemory([]), c)
  {
  }

  /** `None` where Python would raise a KeyError: some container has one kind of reading only. */
  method GetMetrics(cpu: seq<Reading>, memory: seq<Reading>) returns (flat: Option<map<Container, Usage>>)
    ensures flat.Some? <==> LastCpu(cpu).Keys == LastMemory(memory).Keys
    ensures flat.Some? ==> flat.value == map c | c in LastCpu(cpu) && c in LastMemory(memory) ::
                             UsageOf(c, LastCpu(cpu)[c], LastMemory(memory)[c])
  {
    var cpus := CollectCpu(cpu);
    var sums := AddMemory(cpus, memory);
    if sums.None? {
      return None;
    }
    var result := sums.value;
    if c :| c in result && result[c].memory.None? {
      return None;
    }
    forall c | c in LastCpu(cpu)
      ensures c in LastMemory(memory)
    {
      assert result[c].memory.Some?;
    }
    return Some(map c | c in result ::
      Usage(c.0, c.1, result[c].cpu.value.0, result[c].cpu.value.1,
            result[c].memory.value.0, result[c].memory.value.1));
  }

  lemma {:induction false} LastMemoryGrows(memory: seq<Reading>, i: nat)
    requires i < |memory| && memory[i].labelled
    ensures Named(memory[i]) in LastMemory(memory)
  {
    var n := |memory| - 1;
    if i < n {
      LastMemoryGrows(memory[..n], i);
    }
  }

  // Maxima per dotted key

  predicate StartsWith(s: string, prefix: string) {
    prefix <= s
  }

  /** The first rule whose prefix fits the pod. */
  function RuleFor(rules: seq<PodRule>, pod: string): Option<PodRule> {
    if rules == [] then None else if StartsWith(pod, rules[0].prefix) then Some(rules[0]) else RuleFor(rules[1..], pod)
  }

  /** The dotted key that the mapping gives the container. */
  function KeyFor(rules: seq<PodRule>, u: Usage): Option<string> {
    match RuleFor(rules, u.pod)
    case None => None
    case Some(rule) => if u.container in rule.containers then Some(rule.containers[u.container]) else None
  }

  /** The rule at `i` is the first one whose prefix begins the pod's name. */
  predicate FirstRule(rules: seq<PodRule>, pod: string, i: int) {
    0 <= i < |rules| && rules[i].prefix <= pod && forall k :: 0 <= k < i ==> !(rules[k].prefix <= pod)
  }

  lemma {:induction false} RuleForExactly(rules: seq<PodRule>, pod: string)
    ensures match RuleFor(rules, pod)
            case Some(rule) => exists i :: FirstRule(rules, pod, i) && rules[i] == rule
            case None => forall i :: 0 <= i < |rules| ==> !(rules[i].prefix <= pod)
  {
    if rules != [] {
      if rules[0].prefix <= pod {
        assert FirstRule(rules, pod, 0);
      } else {
        RuleForExactly(rules[1..], pod);
        if RuleFor(rules, pod).Some? {
          var i :| FirstRule(rules[1..], pod, i) && rules[1..][i] == RuleFor(rules, pod).value;
          assert FirstRule(rules, pod, i + 1) by {
            assert forall k :: 0 < k < i + 1 ==> rules[k] == rules[1..][k - 1];
          }
          assert rules[i + 1] == rules[1..][i];
        } else {
          assert forall i :: 0 < i < |rules| ==> rules[i] == rules[1..][i - 1];
        }
      }
    }
  }

  /** A container's key is that of the first rule for its pod, if that rule has the container. */
  lemma KeyForExactly(rules: seq<PodRule>, u: Usage, key: string)
    ensures KeyFor(rules, u) == Some(key) <==>
            exists i :: FirstRule(rules, u.pod, i) && GivesKey(rules[i], u.container, key)
  {
    RuleForExactly(rules, u.pod);
    if i :| FirstRule(rules, u.pod, i) && GivesKey(rules[i], u.container, key) {
      var i' :| FirstRule(rules, u.pod, i') && RuleFor(rules, u.pod) == Some(rules[i']);
      assert i == i';
    }
  }

  /** What is frozen is mapped, so unfreezing looks for it. */
  lemma FrozenKeysAreMapped(mapping: Mapping, ns: string, items: seq<Usage>)
    requires ns in mapping
    ensures Aggregate(mapping[ns], items).Keys <= MappedKeys(mapping)
  {
    forall key | key in Aggregate(mapping[ns], items)
      ensures key in MappedKeys(mapping)
    {
      AggregateIsMaximum(mapping[ns], items, key);
      var u :| u in items && KeyFor(mapping[ns], u) == Some(key);
      KeyIsMapped(mapping, ns, u, key);
    }
  }

  lemma KeyIsMapped(mapping: Mapping, ns: string, u: Usage, key: string)
    requires ns in mapping && KeyFor(mapping[ns], u) == Some(key)
    ensures key in MappedKeys(mapping)
  {
    KeyForExactly(mapping[ns], u, key);
    var i :| FirstRule(mapping[ns], u.pod, i) && GivesKey(mapping[ns][i], u.container, key);
    RuleKeysExactly(mapping[ns], key);
    assert key in mapping[ns][i].containers.Values;
  }

  function ResourceOf(u: Usage): Resource {
    Resource(u.cpuMin, u.memoryMin, u.cpuMax, u.memoryMax)
  }

  function Join(a: Resource, b: Resource): Resource {
    Resource(Max(a.cpuRequest, b.cpuRequest), Max(a.memoryRequest, b.memoryRequest),
             Max(a.cpuLimit, b.cpuLimit), Max(a.memoryLimit, b.memoryLimit))
  }

  function Aggregate(rules: seq<PodRule>, items: seq<Usage>): map<string, Resource> {
    if items == [] then map[]
    else
      var n := |items| - 1;
      var before := Aggregate(rules, items[..n]);
      match KeyFor(rules, items[n])
      case None => before
      case Some(key) =>
        before[key := if key in before then Join(before[key], ResourceOf(items[n])) else ResourceOf(items[n])]
  }

  method FindRule(rules: seq<PodRule>, pod: string) returns (rule: Option<PodRule>)
    ensures rule == RuleFor(rules, pod)
  {
    for i := 0 to |rules|
      invariant RuleFor(rules, pod) == RuleFor(rules[i..], pod)
    {
      if StartsWith(pod, rules[i].prefix) {
        return Some(rules[i]);
      }
    }
    return None;
  }

  /** Without rules for the namespace there is nothing to freeze. */
  method GetResourceConfig(mapping: Mapping, namespace: string, items: seq<Usage>)
    returns (configs: map<string, Resource>)
    ensures configs == if namespace in mapping then Aggregate(mapping[namespace], items) else map[]
  {
    configs := map[];
    if namespace !in mapping {
      return;
    }
    var rules := mapping[namespace];
    for i := 0 to |items|
      invariant configs == Aggregate(rules, items[..i])
    {
      assert items[..i + 1][..i] == items[..i];
      var rule := FindRule(rules, items[i].pod);
      if rule.Some? && items[i].container in rule.value.containers {
        var key := rule.value.containers[items[i].container];
        if key !in configs {
          configs := configs[key := ResourceOf(items[i])];
        } else {
          configs := configs[key := Join(configs[key], ResourceOf(items[i]))];
        }
      }
    }
    assert items[..|items|] == items;
  }

  /** `r` is at least every contribution to `key`, field by field, and each field is one of them. */
  ghost predicate IsMaximum(r: Resource, rules: seq<PodRule>, items: seq<Usage>, key: string) {
    && (forall u :: u in items && KeyFor(rules, u) == Some(key) ==>
          && u.cpuMin <= r.cpuRequest && u.memoryMin <= r.memoryRequest
          && u.cpuMax <= r.cpuLimit && u.memoryMax <= r.memoryLimit)
    && (exists u :: u in items && KeyFor(rules, u) == Some(key) && u.cpuMin == r.cpuRequest)
    && (exists u :: u in items && KeyFor(rules, u) == Some(key) && u.memoryMin == r.memoryRequest)
    && (exists u :: u in items && KeyFor(rules, u) == Some(key) && u.cpuMax == r.cpuLimit)
    && (exists u :: u in items && KeyFor(rules, u) == Some(key) && u.memoryMax == r.memoryLimit)
  }

  /** Every key some container maps to is there, with the maxima over all of its containers. */
  lemma {:induction false} AggregateIsMaximum(rules: seq<PodRule>, items: seq<Usage>, key: string)
    ensures key in Aggregate(rules, items) <==> exists u :: u in items && KeyFor(rules, u) == Some(key)
    ensures key in Aggregate(rules, items) ==> IsMaximum(Aggregate(rules, items)[key], rules, items, key)
  {
    if items != [] {
      var n := |items| - 1;
      AggregateIsMaximum(rules, items[..n], key);
      assert items == items[..n] + [items[n]];
      assert items[n] in items;
    }
  }

  /** The order in which pods are reported does not matter. */
  lemma PodOrderIrrelevant(rules: seq<PodRule>, items: seq<Usage>, items': seq<Usage>)
    requires forall u :: u in items <==> u in items'
    ensures Aggregate(rules, items) == Aggregate(rules, items')
  {
    var a, b := Aggregate(rules, items), Aggregate(rules, items');
    forall key
      ensures key in a <==> key in b
      ensures key in a ==> a[key] == b[key]
    {
      AggregateIsMaximum(rules, items, key);
      AggregateIsMaximum(rules, items', key);
      if key in a {
        SameMaximum(a[key], b[key], rules, items, items', key);
      }
    }
  }

  lemma SameMaximum(r: Resource, r': Resource, rules: seq<PodRule>, items: seq<Usage>, items': seq<Usage>, key: string)
    requires forall u :: u in items <==> u in items'
    requires IsMaximum(r, rules, items, key) && IsMaximum(r', rules, items', key)
    ensures r == r'
  {
  }

  // Bounds on what is frozen

  /** One container with the samples its usage was computed from. */
  datatype Load = Load(container: Container, cpu: seq<int>, memory: seq<int>)

  function UsagesOf(loads: seq<Load>): (items: seq<Usage>)
    ensures |items| == |loads|
    ensures forall i :: 0 <= i < |loads| ==> items[i] == UsageOf(loads[i].container, loads[i].cpu, loads[i].memory)
  {
    seq(|loads|, i requires 0 <= i < |loads| => UsageOf(loads[i].container, loads[i].cpu, loads[i].memory))
  }

  /** Every limit is at least twice each sample of each container under the key, and at least the floor. */
  lemma LimitsCoverSamples(rules: seq<PodRule>, loads: seq<Load>, i: nat, key: string)
    requires i < |loads| && KeyFor(rules, UsagesOf(loads)[i]) == Some(key)
    ensures var all := Aggregate(rules, UsagesOf(loads));
            && key in all
            && all[key].cpuLimit >= 200 && (forall x :: x in loads[i].cpu ==> all[key].cpuLimit >= 2 * x)
            && all[key].memoryLimit >= 256 && (forall x :: x in loads[i].memory ==> all[key].memoryLimit >= 2 * x)
  {
    var items := UsagesOf(loads);
    assert items[i] in items;
    AggregateIsMaximum(rules, items, key);
    HighestIsMaximum(CPU_FLOOR, loads[i].cpu);
    HighestIsMaximum(MEMORY_FLOOR, loads[i].memory);
  }

  predicate AllSampled(rules: seq<PodRule>, loads: seq<Load>, key: string, cpu: bool) {
    forall i :: 0 <= i < |loads| && KeyFor(rules, UsagesOf(loads)[i]) == Some(key) ==>
      (if cpu then loads[i].cpu else loads[i].memory) != []
  }

  /** Some container under the key has a sample that doubled reaches half the starting value of the minimum. */
  predicate SomeSampleHigh(rules: seq<PodRule>, loads: seq<Load>, key: string, cpu: bool) {
    exists i :: 0 <= i < |loads| && KeyFor(rules, UsagesOf(loads)[i]) == Some(key) &&
      High(if cpu then loads[i].cpu else loads[i].memory)
  }

  predicate High(values: seq<int>) {
    exists x :: x in values && 2 * x >= CEILING / 2
  }

  lemma HighExactly(floor: int, values: seq<int>)
    requires 0 <= floor < CEILING / 4
    ensures 2 * Highest(floor, values) >= CEILING / 2 <==> High(values)
  {
    HighestIsMaximum(floor, values);
  }

  /**
   A frozen request is at most its limit exactly when every container under the key was sampled,
   or some sample of one of them is so high that no request can exceed the limit.
   */
  lemma RequestWithinLimitExactly(rules: seq<PodRule>, loads: seq<Load>, key: string)
    requires key in Aggregate(rules, UsagesOf(loads))
    ensures var r := Aggregate(rules, UsagesOf(loads))[key];
            && (r.cpuRequest <= r.cpuLimit <==>
                  AllSampled(rules, loads, key, true) || SomeSampleHigh(rules, loads, key, true))
            && (r.memoryRequest <= r.memoryLimit <==>
                  AllSampled(rules, loads, key, false) || SomeSampleHigh(rules, loads, key, false))
  {
    var items := UsagesOf(loads);
    AggregateIsMaximum(rules, items, key);
    forall i | 0 <= i < |loads|
      ensures items[i] in items
      ensures items[i].cpuMin <= CEILING / 2 && items[i].memoryMin <= CEILING / 2
      ensures if loads[i].cpu == [] then items[i].cpuMin == CEILING / 2 else items[i].cpuMin <= items[i].cpuMax
      ensures if loads[i].memory == [] then items[i].memoryMin == CEILING / 2
              else items[i].memoryMin <= items[i].memoryMax
      ensures items[i].cpuMax >= CEILING / 2 <==> High(loads[i].cpu)
      ensures items[i].memoryMax >= CEILING / 2 <==> High(loads[i].memory)
    {
      LowestIsMinimum(loads[i].cpu);
      LowestIsMinimum(loads[i].memory);
      SampledExactly(CPU_FLOOR, loads[i].cpu);
      SampledExactly(MEMORY_FLOOR, loads[i].memory);
      HighExactly(CPU_FLOOR, loads[i].cpu);
      HighExactly(MEMORY_FLOOR, loads[i].memory);
    }
  }

  /** A container that never was sampled freezes to a request above its limit. */
  lemma UnsampledRequestExceedsLimit(rules: seq<PodRule>, c: Container, key: string)
    requires KeyFor(rules, UsageOf(c, [], [])) == Some(key)
    ensures var all := Aggregate(rules, UsagesOf([Load(c, [], [])]));
            key in all && all[key] == Resource(499999, 499999, 200, 256)
  {
    var items := UsagesOf([Load(c, [], [])]);
    assert items == [UsageOf(c, [], [])];
    assert items[..0] == [];
  }
}
