/**
  Capability negotiation: the license features reported by the array and the
  product name fixed at initialisation determine eight boolean capabilities.
  The feature set is of an arbitrary type `F`; whether a named feature is
  licensed is decided by `isSupportFeature`, the library helper whose body is
  not part of this model.
 */
module Capabilities {
  import opened GoValues

  const Dorado: string := "Dorado"
  const DoradoV6: string := "DoradoV6"

  /** The eight keys of the capability map. */
  const CapabilityNames: set<string> := {
    "SupportThin", "SupportThick", "SupportQoS", "SupportMetro",
    "SupportReplication", "SupportApplicationType", "SupportClone", "SupportMetroNAS"
  }

  /** The license features the capabilities depend on. */
  const LicenseFeatures: set<string> := {"SmartThin", "SmartQoS", "HyperMetro", "HyperMetroNAS", "HyperReplication"}

  /** A product that cannot provision thick LUNs. */
  predicate IsDoradoFamily(product: string)
  {
    product == Dorado || product == DoradoV6
  }

  /** The capability map built from a feature set and a product name. */
  function Derive<F>(features: F, product: string, isSupportFeature: (F, string) -> bool): (caps: map<string, Value>)
    ensures forall k | k in caps :: caps[k].Bool?
  {
    map[]
      ["SupportThin" := Bool(isSupportFeature(features, "SmartThin"))]
      ["SupportThick" := Bool(product != Dorado && product != DoradoV6)]
      ["SupportQoS" := Bool(isSupportFeature(features, "SmartQoS"))]
      ["SupportMetro" := Bool(isSupportFeature(features, "HyperMetro"))]
      ["SupportReplication" := Bool(isSupportFeature(features, "HyperReplication"))]
      ["SupportApplicationType" := Bool(product == DoradoV6)]
      ["SupportClone" := Bool(true)]
      ["SupportMetroNAS" := Bool(isSupportFeature(features, "HyperMetroNAS"))]
  }

  /** Exactly the eight capabilities are reported, whatever the input. */
  lemma DeriveKeys<F>(features: F, product: string, isSupportFeature: (F, string) -> bool)
    ensures Derive(features, product, isSupportFeature).Keys == CapabilityNames
  {
  }

  /** Each licensed capability follows its license feature; thick provisioning
      is reported for every product outside the Dorado family, application
      types for DoradoV6 alone, and cloning always. */
  lemma DeriveFlags<F>(features: F, product: string, isSupportFeature: (F, string) -> bool)
    ensures var caps := Derive(features, product, isSupportFeature);
            && caps["SupportThin"] == Bool(isSupportFeature(features, "SmartThin"))
            && caps["SupportQoS"] == Bool(isSupportFeature(features, "SmartQoS"))
            && caps["SupportMetro"] == Bool(isSupportFeature(features, "HyperMetro"))
            && caps["SupportMetroNAS"] == Bool(isSupportFeature(features, "HyperMetroNAS"))
            && caps["SupportReplication"] == Bool(isSupportFeature(features, "HyperReplication"))
            && (caps["SupportThick"] == Bool(true) <==> !IsDoradoFamily(product))
            && (caps["SupportApplicationType"] == Bool(true) <==> product == DoradoV6)
            && caps["SupportClone"] == Bool(true)
  {
  }

  /** A product supporting application types is a Dorado V6, which never supports
      thick provisioning: the two flags are never both set. */
  lemma ThickExcludesApplicationType<F>(features: F, product: string, isSupportFeature: (F, string) -> bool)
    ensures var caps := Derive(features, product, isSupportFeature);
            !(caps["SupportThick"] == Bool(true) && caps["SupportApplicationType"] == Bool(true))
  {
  }

  /** Only the five named features matter: two feature sets that agree on them
      give the same capability map. */
  lemma OnlyNamedFeaturesMatter<F>(f1: F, f2: F, product: string, isSupportFeature: (F, string) -> bool)
    requires forall n | n in LicenseFeatures :: isSupportFeature(f1, n) == isSupportFeature(f2, n)
    ensures Derive(f1, product, isSupportFeature) == Derive(f2, product, isSupportFeature)
  {
  }

  /** The product only affects the thick and application-type flags. */
  lemma ProductOnlyAffectsTwoFlags<F>(features: F, p1: string, p2: string, isSupportFeature: (F, string) -> bool)
    ensures var c1 := Derive(features, p1, isSupportFeature);
            var c2 := Derive(features, p2, isSupportFeature);
            forall k | k in c1 && k != "SupportThick" && k != "SupportApplicationType" :: k in c2 && c1[k] == c2[k]
  {
  }

  /** A DoradoV6 with only thin provisioning licensed. */
  lemma DoradoV6ThinOnly()
    ensures var caps := Derive(map["SmartThin" := true], DoradoV6, (f: map<string, bool>, n: string) => n in f && f[n]);
            && caps["SupportThin"] == Bool(true)
            && caps["SupportThick"] == Bool(false)
            && caps["SupportApplicationType"] == Bool(true)
            && caps["SupportClone"] == Bool(true)
            && caps["SupportQoS"] == Bool(false)
  {
  }
}
