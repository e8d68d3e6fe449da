/** What the resource-limit tool reads and writes: `mapping.yaml`, and the resources of a container. */
module ResourceMapping {
  /** One pod of `mapping.yaml`: the prefix of its name, and the dotted key of each container. */
  datatype PodRule = PodRule(prefix: string, containers: map<string, string>)

  type Mapping = map<string, seq<PodRule>>

  datatype Resource = Resource(cpuRequest: int, memoryRequest: int, cpuLimit: int, memoryLimit: int)

  function RuleKeys(rules: seq<PodRule>): set<string> {
    if rules == [] then {} else rules[0].containers.Values + RuleKeys(rules[1..])
  }

  /** Every dotted key the mapping mentions. */
  function MappedKeys(mapping: Mapping): set<string> {
    set ns, key | ns in mapping && key in RuleKeys(mapping[ns]) :: key
  }

  lemma {:induction false} RuleKeysExactly(rules: seq<PodRule>, key: string)
    ensures key in RuleKeys(rules) <==> exists i :: 0 <= i < |rules| && key in rules[i].containers.Values
  {
    if rules != [] {
      RuleKeysExactly(rules[1..], key);
      if i :| 0 <= i < |rules| && key in rules[i].containers.Values {
        if i > 0 {
          assert rules[1..][i - 1] == rules[i];
        }
      }
      if i :| 0 <= i < |rules[1..]| && key in rules[1..][i].containers.Values {
        assert rules[i + 1] == rules[1..][i];
      }
    }
  }

  /** A key is mapped exactly if some namespace has a rule that gives it to some container. */
  lemma MappedKeysExactly(mapping: Mapping, key: string)
    ensures key in MappedKeys(mapping) <==>
            exists ns, i, c :: ns in mapping && 0 <= i < |mapping[ns]| && GivesKey(mapping[ns][i], c, key)
  {
    forall ns | ns in mapping
      ensures key in RuleKeys(mapping[ns]) <==>
              exists i :: 0 <= i < |mapping[ns]| && key in mapping[ns][i].containers.Values
    {
      RuleKeysExactly(mapping[ns], key);
    }
    if key in MappedKeys(mapping) {
      var ns :| ns in mapping && key in RuleKeys(mapping[ns]);
      var i :| 0 <= i < |mapping[ns]| && key in mapping[ns][i].containers.Values;
      var c :| c in mapping[ns][i].containers && mapping[ns][i].containers[c] == key;
      assert GivesKey(mapping[ns][i], c, key);
    }
  }

  predicate GivesKey(rule: PodRule, container: string, key: string) {
    container in rule.containers && rule.containers[container] == key
  }
}
