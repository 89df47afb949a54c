/** The objects of a namespace as far as the scenario controller reads and writes them. */
module ClusterObjects {
  import opened Wrappers

  datatype Kind = Deployment | ConfigMap | Service

  datatype Key = Key(kind: Kind, name: string)

  type Labels = map<string, string>

  /** `value` is absent for a variable the kubelet fills in. */
  datatype EnvVar = EnvVar(name: string, value: Option<string>)

  datatype Container = Container(name: string, image: string, env: seq<EnvVar>, memoryLimitMib: int)

  /** `replicas` and the rest as a client reads them back; an object made by someone else may
      leave any of it out. */
  datatype DeploymentSpec = DeploymentSpec(
    replicas: Option<int>, selector: Labels, containers: seq<Container>, antiAffinity: Option<Labels>,
    scriptVolume: Option<string>)

  datatype Object =
    | Workload(labels: Labels, templateLabels: Labels, spec: DeploymentSpec)
    | Script(labels: Labels, data: map<string, string>)
    | Endpoint(labels: Labels)

  type Objects = map<Key, Object>

  /** A deployment as a scenario builds it. `sharedLabels` is set when its two label
      dictionaries are one and the same Python object. */
  datatype Body = Body(name: string, labels: Labels, templateLabels: Labels, sharedLabels: bool, spec: DeploymentSpec)

  const MANAGED_LABEL := "app.kubernetes.io/managed-by"
  const MODULE_LABEL := "k8s-scenario-controller/module"
  const PART_OF_LABEL := "app.kubernetes.io/part-of"
  const MANAGED_BY := "k8s-scenario-controller"

  function ManagedLabels(moduleName: string): Labels {
    map[MANAGED_LABEL := MANAGED_BY, MODULE_LABEL := moduleName, PART_OF_LABEL := "splunk-opentelemetry-demo"]
  }

  /** `stamp`: copying a body keeps shared dictionaries shared, so the labels meant for the
      metadata reach the pod template too when the body used one dictionary for both. */
  function Stamp(b: Body, moduleName: string): Object {
    var labels := b.labels + ManagedLabels(moduleName);
    var templateLabels := (if b.sharedLabels then labels else b.templateLabels)
                          + map[MANAGED_LABEL := MANAGED_BY, MODULE_LABEL := moduleName];
    Workload(labels, templateLabels, b.spec)
  }

  predicate Selects(selector: Labels, labels: Labels) {
    forall k | k in selector :: k in labels && labels[k] == selector[k]
  }

  /** The labels stamping may overwrite on the pods. */
  function StampedOnPods(b: Body): set<string> {
    {MANAGED_LABEL, MODULE_LABEL} + if b.sharedLabels then {PART_OF_LABEL} else {}
  }

  /** Stamping marks the object and its pods as managed and leaves the spec alone; a selector
      that matched the pods still does if and only if it asks for no other value of a label
      that is stamped on them. */
  lemma StampKeepsSelector(b: Body, moduleName: string)
    requires b.sharedLabels ==> b.labels == b.templateLabels
    requires Selects(b.spec.selector, b.templateLabels)
    ensures var o := Stamp(b, moduleName);
            && o.spec == b.spec
            && Selects(ManagedLabels(moduleName), o.labels)
            && o.templateLabels.Keys >= {MANAGED_LABEL, MODULE_LABEL}
            && (b.sharedLabels ==> o.templateLabels == o.labels)
            && o.templateLabels[MODULE_LABEL] == moduleName && o.templateLabels[MANAGED_LABEL] == MANAGED_BY
            && (forall k | k in b.templateLabels && k !in StampedOnPods(b) ::
                  k in o.templateLabels && o.templateLabels[k] == b.templateLabels[k])
            && (forall k | k in b.labels && k !in ManagedLabels(moduleName) ::
                  k in o.labels && o.labels[k] == b.labels[k])
            && (Selects(o.spec.selector, o.templateLabels) <==>
                forall k | k in b.spec.selector && k in StampedOnPods(b) ::
                  b.spec.selector[k] == ManagedLabels(moduleName)[k])
  {
    var o := Stamp(b, moduleName);
    LabelNamesDiffer();
    assert b.sharedLabels ==> o.templateLabels == o.labels;
    forall k | k in o.templateLabels
      ensures o.templateLabels[k]
           == if k in StampedOnPods(b) then ManagedLabels(moduleName)[k] else b.templateLabels[k]
    {
    }
  }

  lemma LabelNamesDiffer()
    ensures MANAGED_LABEL != MODULE_LABEL && MANAGED_LABEL != PART_OF_LABEL && MODULE_LABEL != PART_OF_LABEL
  {
  }

  // ---------- Comparing namespaces ----------

  predicate SameAt(a: Objects, b: Objects, k: Key) {
    (k in a <==> k in b) && (k in a ==> a[k] == b[k])
  }

  ghost predicate SameOn(a: Objects, b: Objects, keys: set<Key>) {
    forall k | k in keys :: SameAt(a, b, k)
  }

  ghost predicate SameOutside(a: Objects, b: Objects, keys: set<Key>) {
    forall k | k !in keys :: SameAt(a, b, k)
  }

  lemma SameEverywhere(a: Objects, b: Objects)
    requires forall k :: SameAt(a, b, k)
    ensures a == b
  {
    assert forall k :: k in a <==> k in b by {
      forall k
        ensures k in a <==> k in b
      {
        assert SameAt(a, b, k);
      }
    }
    forall k | k in a
      ensures a[k] == b[k]
    {
      assert SameAt(a, b, k);
    }
  }
}
