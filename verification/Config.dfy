// Configuration records and the comparisons the server makes between them
// (config/config.go, protos/config/configs.proto).
module Config {
  import opened Prelude

  const GLOBAL_NAMESPACE := "___GLOBAL___"
  const DEFAULT_BUCKET_NAME := "___DEFAULT_BUCKET___"
  const DYNAMIC_BUCKET_TEMPLATE_NAME := "___DYNAMIC_BUCKET_TPL___"

  datatype BucketConfig = BucketConfig(
    name: string,
    namespace: string,
    size: int,
    fillRate: int,
    waitTimeoutMillis: int,
    maxIdleMillis: int,
    maxDebtMillis: int,
    maxTokensPerRequest: int)

  datatype NamespaceConfig = NamespaceConfig(
    name: string,
    defaultBucket: Option<BucketConfig>,
    dynamicBucketTemplate: Option<BucketConfig>,
    maxDynamicBuckets: int,
    buckets: map<string, BucketConfig>)

  datatype ServiceConfig = ServiceConfig(
    globalDefaultBucket: Option<BucketConfig>,
    namespaces: map<string, NamespaceConfig>,
    version: int,
    user: string,
    date: int)

  function FullyQualifiedName(namespace: string, bucketName: string): string {
    namespace + ":" + bucketName
  }

  // ---- Comparing configurations ---------------------------------------------

  predicate DifferentBucketConfigs(c1: Option<BucketConfig>, c2: Option<BucketConfig>) {
    match (c1, c2)
    case (None, None) => false
    case (Some(b1), Some(b2)) =>
      b1.name != b2.name ||
      b1.namespace != b2.namespace ||
      b1.size != b2.size ||
      b1.fillRate != b2.fillRate ||
      b1.waitTimeoutMillis != b2.waitTimeoutMillis ||
      b1.maxIdleMillis != b2.maxIdleMillis ||
      b1.maxDebtMillis != b2.maxDebtMillis ||
      b1.maxTokensPerRequest != b2.maxTokensPerRequest
    case _ => true
  }

  lemma BucketComparisonIsExact(c1: Option<BucketConfig>, c2: Option<BucketConfig>)
    ensures DifferentBucketConfigs(c1, c2) <==> c1 != c2
  {
  }

  /** A subset of the same size is the whole set. */
  lemma SubsetOfSameSize<T>(a: set<T>, b: set<T>)
    requires a <= b && |a| == |b|
    ensures a == b
  {
    assert b == a + (b - a);
  }

  /** The field-by-field comparison, which looks names up in one direction only,
      is exact: it reports a difference if and only if the records differ. */
  method DifferentNamespaceConfigs(c1: NamespaceConfig, c2: NamespaceConfig) returns (different: bool)
    ensures different <==> c1 != c2
  {
    different :=
      c1.name != c2.name ||
      c1.maxDynamicBuckets != c2.maxDynamicBuckets ||
      DifferentBucketConfigs(c1.defaultBucket, c2.defaultBucket) ||
      DifferentBucketConfigs(c1.dynamicBucketTemplate, c2.dynamicBucketTemplate) ||
      |c1.buckets| != |c2.buckets|;
    BucketComparisonIsExact(c1.defaultBucket, c2.defaultBucket);
    BucketComparisonIsExact(c1.dynamicBucketTemplate, c2.dynamicBucketTemplate);
    if different {
      return true;
    }
    var pending := c1.buckets.Keys;
    while pending != {}
      invariant pending <= c1.buckets.Keys
      invariant forall n :: n in c1.buckets.Keys - pending ==> n in c2.buckets && c1.buckets[n] == c2.buckets[n]
      decreases pending
    {
      var name :| name in pending;
      if name in c2.buckets {
        BucketComparisonIsExact(Some(c1.buckets[name]), Some(c2.buckets[name]));
      }
      if name !in c2.buckets || DifferentBucketConfigs(Some(c1.buckets[name]), Some(c2.buckets[name])) {
        return true;
      }
      pending := pending - {name};
    }
    SubsetOfSameSize(c1.buckets.Keys, c2.buckets.Keys);
    assert c1.buckets == c2.buckets;
    return false;
  }

  // ---- Defaults ---------------------------------------------------------------

  function BucketDefaults(b: BucketConfig): BucketConfig {
    var fillRate := if b.fillRate == 0 then 50 else b.fillRate;
    b.(size := if b.size == 0 then 100 else b.size,
       fillRate := fillRate,
       waitTimeoutMillis := if b.waitTimeoutMillis == 0 then 1000 else b.waitTimeoutMillis,
       maxIdleMillis := if b.maxIdleMillis == 0 then -1 else b.maxIdleMillis,
       maxDebtMillis := if b.maxDebtMillis == 0 then 10000 else b.maxDebtMillis,
       maxTokensPerRequest := if b.maxTokensPerRequest == 0 then fillRate else b.maxTokensPerRequest)
  }

  function NewDefaultBucketConfig(name: string): BucketConfig {
    BucketConfig(name, "", 100, 50, 1000, -1, 10000, 0)
  }

  /** A setting left at zero means the value of the default bucket configuration, whose
      request limit in turn is its fill rate; a setting that is given is kept. */
  lemma ZeroMeansDefault(b: BucketConfig)
    ensures
      var d, r := NewDefaultBucketConfig(b.name), BucketDefaults(b);
      && r.name == b.name && r.namespace == b.namespace && Filled(r)
      && r.size in {b.size, d.size} && (b.size != 0 ==> r.size == b.size)
      && r.fillRate in {b.fillRate, d.fillRate} && (b.fillRate != 0 ==> r.fillRate == b.fillRate)
      && r.waitTimeoutMillis in {b.waitTimeoutMillis, d.waitTimeoutMillis} &&
           (b.waitTimeoutMillis != 0 ==> r.waitTimeoutMillis == b.waitTimeoutMillis)
      && r.maxIdleMillis in {b.maxIdleMillis, d.maxIdleMillis} &&
           (b.maxIdleMillis != 0 ==> r.maxIdleMillis == b.maxIdleMillis)
      && r.maxDebtMillis in {b.maxDebtMillis, d.maxDebtMillis} &&
           (b.maxDebtMillis != 0 ==> r.maxDebtMillis == b.maxDebtMillis)
      && r.maxTokensPerRequest in {b.maxTokensPerRequest, r.fillRate}
      && (b.maxTokensPerRequest != 0 ==> r.maxTokensPerRequest == b.maxTokensPerRequest)
  {
  }

  function NamedBucketDefaults(b: BucketConfig, name: string, namespace: string): BucketConfig {
    BucketDefaults(b).(name := name, namespace := namespace)
  }

  function OptionalDefaults(b: Option<BucketConfig>, name: string, namespace: string): Option<BucketConfig> {
    if b.None? then None else Some(NamedBucketDefaults(b.value, name, namespace))
  }

  function NamespaceDefaults(ns: NamespaceConfig, name: string): NamespaceConfig {
    NamespaceConfig(
      name,
      OptionalDefaults(ns.defaultBucket, DEFAULT_BUCKET_NAME, name),
      OptionalDefaults(ns.dynamicBucketTemplate, DYNAMIC_BUCKET_TEMPLATE_NAME, name),
      ns.maxDynamicBuckets,
      map n | n in ns.buckets :: NamedBucketDefaults(ns.buckets[n], n, name))
  }

  predicate Conflicting(ns: NamespaceConfig) {
    ns.defaultBucket.Some? && ns.dynamicBucketTemplate.Some?
  }

  /** The configuration with defaults filled in; none when some namespace asks
      for both a default bucket and dynamic buckets, which the server refuses by
      panicking. */
  function Defaulted(sc: ServiceConfig): Option<ServiceConfig> {
    if exists k :: k in sc.namespaces && Conflicting(sc.namespaces[k]) then None
    else Some(sc.(
      globalDefaultBucket :=
        if sc.globalDefaultBucket.None? then None
        else Some(BucketDefaults(sc.globalDefaultBucket.value).(name := DEFAULT_BUCKET_NAME)),
      namespaces := map k | k in sc.namespaces :: NamespaceDefaults(sc.namespaces[k], k)))
  }

  method ApplyDefaults(sc: ServiceConfig) returns (r: Option<ServiceConfig>)
    ensures r == Defaulted(sc)
    ensures r.None? <==> HasConflict(sc)
    ensures r.Some? ==>
      FillsSettings(sc, r.value) && r.value.version == sc.version && r.value.user == sc.user && r.value.date == sc.date
  {
    if Defaulted(sc).Some? {
      DefaultsExactly(sc, Defaulted(sc).value);
    } else {
      DefaultsExactly(sc, sc);
    }
    var global := sc.globalDefaultBucket;
    if global.Some? {
      global := Some(BucketDefaults(global.value).(name := DEFAULT_BUCKET_NAME));
    }
    var namespaces := sc.namespaces;
    var pending := namespaces.Keys;
    while pending != {}
      invariant pending <= sc.namespaces.Keys == namespaces.Keys
      invariant forall k :: k in sc.namespaces.Keys - pending ==>
        !Conflicting(sc.namespaces[k]) && namespaces[k] == NamespaceDefaults(sc.namespaces[k], k)
      invariant forall k :: k in pending ==> namespaces[k] == sc.namespaces[k]
      decreases pending
    {
      var name :| name in pending;
      var ns := namespaces[name];
      if ns.defaultBucket.Some? && ns.dynamicBucketTemplate.Some? {
        assert Conflicting(sc.namespaces[name]);
        return None;
      }
      var buckets := DefaultBucketMap(ns.buckets, name);
      namespaces := namespaces[name := NamespaceConfig(
        name,
        OptionalDefaults(ns.defaultBucket, DEFAULT_BUCKET_NAME, name),
        OptionalDefaults(ns.dynamicBucketTemplate, DYNAMIC_BUCKET_TEMPLATE_NAME, name),
        ns.maxDynamicBuckets,
        buckets)];
      pending := pending - {name};
    }
    r := Some(sc.(globalDefaultBucket := global, namespaces := namespaces));
    assert namespaces == map k | k in sc.namespaces :: NamespaceDefaults(sc.namespaces[k], k);
  }

  method DefaultBucketMap(buckets: map<string, BucketConfig>, namespace: string) returns (r: map<string, BucketConfig>)
    ensures r == map n | n in buckets :: NamedBucketDefaults(buckets[n], n, namespace)
  {
    r := buckets;
    var pending := buckets.Keys;
    while pending != {}
      invariant pending <= buckets.Keys == r.Keys
      invariant forall n :: n in buckets.Keys - pending ==> r[n] == NamedBucketDefaults(buckets[n], n, namespace)
      invariant forall n :: n in pending ==> r[n] == buckets[n]
      decreases pending
    {
      var n :| n in pending;
      r := r[n := NamedBucketDefaults(r[n], n, namespace)];
      pending := pending - {n};
    }
  }

  /** Every setting is filled in. */
  ghost predicate Filled(b: BucketConfig) {
    b.size != 0 && b.fillRate != 0 && b.waitTimeoutMillis != 0 && b.maxIdleMillis != 0 &&
    b.maxDebtMillis != 0 && b.maxTokensPerRequest != 0
  }

  ghost predicate FilledAs(b: Option<BucketConfig>, name: string, namespace: string) {
    b.Some? ==> Filled(b.value) && b.value.name == name && b.value.namespace == namespace
  }

  ghost predicate NormalisedNamespace(ns: NamespaceConfig, name: string) {
    && ns.name == name
    && !Conflicting(ns)
    && FilledAs(ns.defaultBucket, DEFAULT_BUCKET_NAME, name)
    && FilledAs(ns.dynamicBucketTemplate, DYNAMIC_BUCKET_TEMPLATE_NAME, name)
    && forall n :: n in ns.buckets ==> FilledAs(Some(ns.buckets[n]), n, name)
  }

  /** What the rest of the server relies on: names agree with map keys, no
      setting is left at zero, and no namespace has both kinds of fallback. */
  ghost predicate Normalised(sc: ServiceConfig) {
    && (sc.globalDefaultBucket.Some? ==>
          Filled(sc.globalDefaultBucket.value) && sc.globalDefaultBucket.value.name == DEFAULT_BUCKET_NAME)
    && forall k :: k in sc.namespaces ==> NormalisedNamespace(sc.namespaces[k], k)
  }

  /** Normalised configurations are exactly those that filling in defaults
      leaves alone. */
  lemma NormalisedIffUnchanged(sc: ServiceConfig)
    ensures Normalised(sc) <==> Defaulted(sc) == Some(sc)
  {
    if Normalised(sc) {
      forall k | k in sc.namespaces
        ensures NamespaceDefaults(sc.namespaces[k], k) == sc.namespaces[k]
      {
        var ns := sc.namespaces[k];
        assert (map n | n in ns.buckets :: NamedBucketDefaults(ns.buckets[n], n, k)) == ns.buckets;
      }
      assert (map k | k in sc.namespaces :: NamespaceDefaults(sc.namespaces[k], k)) == sc.namespaces;
    }
    if Defaulted(sc) == Some(sc) {
      DefaultsNormalise(sc);
    }
  }

  /** Filling in defaults normalises; in particular doing it twice is doing it once. */
  lemma DefaultsNormalise(sc: ServiceConfig)
    ensures Defaulted(sc).Some? ==> Normalised(Defaulted(sc).value)
  {
    if Defaulted(sc).Some? {
      var d := Defaulted(sc).value;
      forall k | k in d.namespaces
        ensures NormalisedNamespace(d.namespaces[k], k)
      {
        assert !Conflicting(sc.namespaces[k]);
      }
    }
  }

  // ---- What filling in defaults means -------------------------------------------

  /** A setting that is given is kept, and zero becomes `default`. */
  predicate Settles(given: int, default: int, result: int) {
    (given != 0 ==> result == given) && (given == 0 ==> result == default)
  }

  /** `d` is `b` with its defaults filled in, setting by setting. */
  predicate FillsBucket(b: BucketConfig, d: BucketConfig, name: string, namespace: string) {
    && d.name == name && d.namespace == namespace
    && Settles(b.size, 100, d.size)
    && Settles(b.fillRate, 50, d.fillRate)
    && Settles(b.waitTimeoutMillis, 1000, d.waitTimeoutMillis)
    && Settles(b.maxIdleMillis, -1, d.maxIdleMillis)
    && Settles(b.maxDebtMillis, 10000, d.maxDebtMillis)
    && Settles(b.maxTokensPerRequest, d.fillRate, d.maxTokensPerRequest)
  }

  predicate FillsIfAny(b: Option<BucketConfig>, d: Option<BucketConfig>, name: string, namespace: string) {
    (b.Some? <==> d.Some?) && (b.Some? ==> FillsBucket(b.value, d.value, name, namespace))
  }

  ghost predicate FillsNamespace(ns: NamespaceConfig, d: NamespaceConfig, k: string) {
    && d.name == k && d.maxDynamicBuckets == ns.maxDynamicBuckets
    && FillsIfAny(ns.defaultBucket, d.defaultBucket, DEFAULT_BUCKET_NAME, k)
    && FillsIfAny(ns.dynamicBucketTemplate, d.dynamicBucketTemplate, DYNAMIC_BUCKET_TEMPLATE_NAME, k)
    && d.buckets.Keys == ns.buckets.Keys
    && forall n :: n in ns.buckets ==> FillsBucket(ns.buckets[n], d.buckets[n], n, k)
  }

  /** The settings of `d` are those of `sc` with defaults filled in, whoever made them and
      when. */
  ghost predicate FillsSettings(sc: ServiceConfig, d: ServiceConfig) {
    && (sc.globalDefaultBucket.Some? <==> d.globalDefaultBucket.Some?)
    && (sc.globalDefaultBucket.Some? ==>
          FillsBucket(sc.globalDefaultBucket.value, d.globalDefaultBucket.value, DEFAULT_BUCKET_NAME,
                      sc.globalDefaultBucket.value.namespace))
    && d.namespaces.Keys == sc.namespaces.Keys
    && forall k :: k in sc.namespaces ==> FillsNamespace(sc.namespaces[k], d.namespaces[k], k)
  }

  /** Some namespace asks for both kinds of fallback. */
  ghost predicate HasConflict(sc: ServiceConfig) {
    exists k :: k in sc.namespaces &&
      sc.namespaces[k].defaultBucket.Some? && sc.namespaces[k].dynamicBucketTemplate.Some?
  }

  /** Filling in defaults fails exactly on a conflict, and otherwise gives the one
      configuration with the same names and given settings and the defaults for the
      rest. */
  lemma DefaultsExactly(sc: ServiceConfig, d: ServiceConfig)
    ensures Defaulted(sc) == None <==> HasConflict(sc)
    ensures Defaulted(sc) == Some(d) <==>
      !HasConflict(sc) && FillsSettings(sc, d) && d.version == sc.version && d.user == sc.user && d.date == sc.date
  {
    if HasConflict(sc) {
      var k :| k in sc.namespaces && sc.namespaces[k].defaultBucket.Some? &&
        sc.namespaces[k].dynamicBucketTemplate.Some?;
      assert Conflicting(sc.namespaces[k]);
    } else {
      assert forall k :: k in sc.namespaces ==> !Conflicting(sc.namespaces[k]);
      var r := Defaulted(sc).value;
      forall k | k in sc.namespaces
        ensures FillsNamespace(sc.namespaces[k], r.namespaces[k], k)
      {
        NamespaceDefaultsFill(sc.namespaces[k], k);
      }
      if FillsSettings(sc, d) {
        forall k | k in sc.namespaces
          ensures d.namespaces[k] == r.namespaces[k]
        {
          assert FillsNamespace(sc.namespaces[k], d.namespaces[k], k);
          FillsOneWay(sc.namespaces[k], d.namespaces[k], r.namespaces[k], k);
        }
        assert d.namespaces == r.namespaces;
      }
    }
  }

  lemma NamespaceDefaultsFill(ns: NamespaceConfig, k: string)
    ensures FillsNamespace(ns, NamespaceDefaults(ns, k), k)
  {
    var d := NamespaceDefaults(ns, k);
    OptionalDefaultsFill(ns.defaultBucket, DEFAULT_BUCKET_NAME, k);
    OptionalDefaultsFill(ns.dynamicBucketTemplate, DYNAMIC_BUCKET_TEMPLATE_NAME, k);
    forall n | n in ns.buckets
      ensures FillsBucket(ns.buckets[n], d.buckets[n], n, k)
    {
      BucketDefaultsFill(ns.buckets[n], n, k);
    }
  }

  lemma OptionalDefaultsFill(b: Option<BucketConfig>, name: string, namespace: string)
    ensures FillsIfAny(b, OptionalDefaults(b, name, namespace), name, namespace)
  {
    if b.Some? {
      BucketDefaultsFill(b.value, name, namespace);
    }
  }

  lemma BucketDefaultsFill(b: BucketConfig, name: string, namespace: string)
    ensures FillsBucket(b, NamedBucketDefaults(b, name, namespace), name, namespace)
  {
  }

  /** There is only one way to fill in defaults. */
  lemma FillsOneWay(ns: NamespaceConfig, d: NamespaceConfig, e: NamespaceConfig, k: string)
    requires FillsNamespace(ns, d, k) && FillsNamespace(ns, e, k)
    ensures d == e
  {
    forall n | n in ns.buckets
      ensures d.buckets[n] == e.buckets[n]
    {
      assert FillsBucket(ns.buckets[n], d.buckets[n], n, k) && FillsBucket(ns.buckets[n], e.buckets[n], n, k);
    }
    assert d.buckets == e.buckets;
  }
}
