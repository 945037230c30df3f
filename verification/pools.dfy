/**
  A Go loop `for i := range keys { m[keys[i]] = vals[i] }` over a fresh map:
  every key gets an entry, and a repeated key keeps its last value.
 */
module LastWins {

  /** No later position of `keys` than `i` holds the same key. */
  ghost predicate LastOf(keys: seq<string>, i: int)
    requires 0 <= i < |keys|
  {
    forall j | i < j < |keys| :: keys[j] != keys[i]
  }

  function AssignAll<V>(keys: seq<string>, vals: seq<V>): (m: map<string, V>)
    requires |keys| == |vals|
    ensures m.Keys == set i | 0 <= i < |keys| :: keys[i]
  {
    if |keys| == 0 then map[]
    else
      var n := |keys| - 1;
      var m := AssignAll(keys[..n], vals[..n]);
      assert forall i | 0 <= i < n :: keys[..n][i] == keys[i];
      m[keys[n] := vals[n]]
  }

  /** The last value written for a key is the one it keeps. */
  lemma {:induction false} AssignAllLast<V>(keys: seq<string>, vals: seq<V>, i: int)
    requires |keys| == |vals| && 0 <= i < |keys| && LastOf(keys, i)
    ensures keys[i] in AssignAll(keys, vals) && AssignAll(keys, vals)[keys[i]] == vals[i]
    decreases |keys|
  {
    var n := |keys| - 1;
    if i < n {
      assert LastOf(keys[..n], i) by {
        forall j | i < j < n
          ensures keys[..n][j] != keys[..n][i]
        {
          assert keys[..n][j] == keys[j];
        }
      }
      AssignAllLast(keys[..n], vals[..n], i);
      assert keys[n] != keys[i];
    }
  }

  /** Every entry was written from some position of the lists. */
  lemma {:induction false} AssignAllFrom<V>(keys: seq<string>, vals: seq<V>, k: string) returns (i: int)
    requires |keys| == |vals| && k in AssignAll(keys, vals)
    ensures 0 <= i < |keys| && keys[i] == k && AssignAll(keys, vals)[k] == vals[i]
    decreases |keys|
  {
    var n := |keys| - 1;
    if keys[n] == k {
      i := n;
    } else {
      i := AssignAllFrom(keys[..n], vals[..n], k);
      assert keys[..n][i] == keys[i];
    }
  }
}

/**
  Pool capacity reporting: the configured pool names are looked up in the
  array's pool catalog, the pools fit for the backend's usage type are kept,
  and each kept pool's free capacity is reported in bytes under its name.
 */
module Pools {
  import opened GoValues
  import opened GoStd
  import opened LastWins

  /** A DoradoV6 pool serves every usage type. */
  const DoradoV6PoolUsageType: string := "0"

  /** The array reports capacities in 512-byte sectors. */
  const SectorBytes: int := 512

  /** `pools[name].(map[string]interface{})`: the catalog entry, when it is an object. */
  function Lookup(catalog: map<string, Value>, name: string): (r: Option<map<string, Value>>)
    ensures r.Some? <==> name in catalog && catalog[name].Object?
    ensures r.Some? ==> catalog[name] == Object(r.value)
  {
    match Index(catalog, name)
    case Object(fields) => Some(fields)
    case _ => None
  }

  /** A pool fit for `usageType`: its USAGETYPE is that type or the DoradoV6
      type, or it carries a string NEWUSAGETYPE equal to the DoradoV6 type. */
  predicate Qualifies(pool: map<string, Value>, usageType: string)
  {
    || Index(pool, "USAGETYPE") == Str(usageType)
    || Index(pool, "USAGETYPE") == Str(DoradoV6PoolUsageType)
    || AsString(Index(pool, "NEWUSAGETYPE")) == Some(DoradoV6PoolUsageType)
  }

  /** The configured name resolves to a pool fit for `usageType`. */
  predicate Selected(catalog: map<string, Value>, name: string, usageType: string)
  {
    Lookup(catalog, name).Some? && Qualifies(Lookup(catalog, name).value, usageType)
  }

  /** The kept pools, in the order of `poolNames`, repeats included. */
  function ValidPools(catalog: map<string, Value>, poolNames: seq<string>, usageType: string): (r: seq<map<string, Value>>)
    ensures |r| <= |poolNames|
  {
    if |poolNames| == 0 then []
    else
      var n := |poolNames| - 1;
      var kept := ValidPools(catalog, poolNames[..n], usageType);
      if Selected(catalog, poolNames[n], usageType) then kept + [Lookup(catalog, poolNames[n]).value] else kept
  }

  /** Every kept pool comes from a configured name that selects it. */
  lemma {:induction false} ValidPoolsSound(catalog: map<string, Value>, poolNames: seq<string>, usageType: string, j: int)
    returns (i: int)
    requires 0 <= j < |ValidPools(catalog, poolNames, usageType)|
    ensures 0 <= i < |poolNames| && Selected(catalog, poolNames[i], usageType)
    ensures ValidPools(catalog, poolNames, usageType)[j] == Lookup(catalog, poolNames[i]).value
    decreases |poolNames|
  {
    var n := |poolNames| - 1;
    var kept := ValidPools(catalog, poolNames[..n], usageType);
    if j < |kept| {
      i := ValidPoolsSound(catalog, poolNames[..n], usageType, j);
      assert poolNames[..n][i] == poolNames[i];
    } else {
      i := n;
    }
  }

  /** Every configured name that selects a pool has that pool kept. */
  lemma {:induction false} ValidPoolsComplete(catalog: map<string, Value>, poolNames: seq<string>, usageType: string, i: int)
    returns (j: int)
    requires 0 <= i < |poolNames| && Selected(catalog, poolNames[i], usageType)
    ensures 0 <= j < |ValidPools(catalog, poolNames, usageType)|
    ensures ValidPools(catalog, poolNames, usageType)[j] == Lookup(catalog, poolNames[i]).value
    decreases |poolNames|
  {
    var n := |poolNames| - 1;
    var kept := ValidPools(catalog, poolNames[..n], usageType);
    if i < n {
      assert poolNames[..n][i] == poolNames[i];
      j := ValidPoolsComplete(catalog, poolNames[..n], usageType, i);
    } else {
      j := |kept|;
    }
  }

  /** Selection works name by name: the pools kept for two lists one after the
      other are those kept for each list, concatenated. */
  lemma {:induction false} ValidPoolsAppend(catalog: map<string, Value>, a: seq<string>, b: seq<string>, usageType: string)
    ensures ValidPools(catalog, a + b, usageType) == ValidPools(catalog, a, usageType) + ValidPools(catalog, b, usageType)
    decreases |b|
  {
    if |b| > 0 {
      var n := |b| - 1;
      assert (a + b)[..|a + b| - 1] == a + b[..n];
      ValidPoolsAppend(catalog, a, b[..n], usageType);
    } else {
      assert a + b == a;
    }
  }

  /** What the capacity loop reads from a pool without panicking. */
  predicate WellFormedPool(pool: map<string, Value>)
  {
    "NAME" in pool && pool["NAME"].Str? && "USERFREECAPACITY" in pool && pool["USERFREECAPACITY"].Str?
  }

  function PoolName(pool: map<string, Value>): string
    requires WellFormedPool(pool)
  {
    pool["NAME"].s
  }

  /** `freeCapacity * 512` in int64 arithmetic, where `freeCapacity` is what
      `ParseInt` leaves, whether or not it reported an error. */
  function FreeCapacity(pool: map<string, Value>): (c: int)
    requires WellFormedPool(pool)
    ensures InInt64(c)
    ensures c % SectorBytes == 0
    ensures var s := pool["USERFREECAPACITY"].s;
            IsIntegerSyntax(s) && InInt64(SyntaxValue(s)) ==> c == WrapInt64(SyntaxValue(s) * SectorBytes)
    ensures var s := pool["USERFREECAPACITY"].s;
            IsIntegerSyntax(s) && InInt64(SyntaxValue(s) * SectorBytes) ==> c == SyntaxValue(s) * SectorBytes
  {
    var sectors := ParseInt(pool["USERFREECAPACITY"].s).value;
    WrapMultiple(sectors);
    WrapInt64(sectors * SectorBytes)
  }

  /** Wrapping a multiple of 512 keeps it a multiple of 512, since 2^64 is one. */
  lemma WrapMultiple(sectors: int)
    ensures WrapInt64(sectors * SectorBytes) % SectorBytes == 0
  {
    var x := sectors * SectorBytes;
    var r := WrapInt64(x);
    var q := (x - r) / TwoTo64;
    assert x - r == q * TwoTo64;
    assert r == SectorBytes * (sectors - q * 0x80_0000_0000_0000);
  }

  /** The capability entry of one pool. */
  function CapacityEntry(pool: map<string, Value>): Value
    requires WellFormedPool(pool)
  {
    Object(map["FreeCapacity" := Int64(FreeCapacity(pool))])
  }

  function Names(pools: seq<map<string, Value>>): (r: seq<string>)
    requires forall j | 0 <= j < |pools| :: WellFormedPool(pools[j])
    ensures |r| == |pools|
    ensures forall j | 0 <= j < |pools| :: r[j] == PoolName(pools[j])
  {
    seq(|pools|, j requires 0 <= j < |pools| && WellFormedPool(pools[j]) => PoolName(pools[j]))
  }

  function Entries(pools: seq<map<string, Value>>): (r: seq<Value>)
    requires forall j | 0 <= j < |pools| :: WellFormedPool(pools[j])
    ensures |r| == |pools|
    ensures forall j | 0 <= j < |pools| :: r[j] == CapacityEntry(pools[j])
  {
    seq(|pools|, j requires 0 <= j < |pools| && WellFormedPool(pools[j]) => CapacityEntry(pools[j]))
  }

  /** One entry per pool name; where a name repeats, the last pool wins. */
  function AnalyzePoolsCapacity(pools: seq<map<string, Value>>): (caps: map<string, Value>)
    requires forall j | 0 <= j < |pools| :: WellFormedPool(pools[j])
    ensures caps.Keys == set j | 0 <= j < |pools| :: PoolName(pools[j])
  {
    var names := Names(pools);
    assert (set j | 0 <= j < |names| :: names[j]) == set j | 0 <= j < |pools| :: PoolName(pools[j]);
    AssignAll(names, Entries(pools))
  }

  /** A pool whose name does not recur later in the list reports its own capacity. */
  lemma AnalyzeLastWins(pools: seq<map<string, Value>>, i: int)
    requires forall j | 0 <= j < |pools| :: WellFormedPool(pools[j])
    requires 0 <= i < |pools| && LastOf(Names(pools), i)
    ensures AnalyzePoolsCapacity(pools)[PoolName(pools[i])] == CapacityEntry(pools[i])
  {
    AssignAllLast(Names(pools), Entries(pools), i);
  }

  /** Every reported capacity is that of a pool of the list carrying the name. */
  lemma AnalyzeFrom(pools: seq<map<string, Value>>, name: string) returns (j: int)
    requires forall j | 0 <= j < |pools| :: WellFormedPool(pools[j])
    requires name in AnalyzePoolsCapacity(pools)
    ensures 0 <= j < |pools| && PoolName(pools[j]) == name
    ensures AnalyzePoolsCapacity(pools)[name] == CapacityEntry(pools[j])
  {
    j := AssignAllFrom(Names(pools), Entries(pools), name);
  }

  /** `updatePoolCapabilities`: a failure to fetch the catalog is passed on;
      otherwise the capacities of the kept pools. */
  function UpdatePoolCapabilities(poolNames: seq<string>, usageType: string,
                                  catalog: Result<map<string, Value>>): (r: Result<map<string, Value>>)
    requires catalog.Ok? ==> forall i | 0 <= i < |poolNames| && Selected(catalog.value, poolNames[i], usageType) ::
                                WellFormedPool(Lookup(catalog.value, poolNames[i]).value)
    ensures catalog.Err? ==> r == Err(catalog.error)
    ensures catalog.Ok? ==> r.Ok?
  {
    match catalog
    case Err(e) => Err(e)
    case Ok(pools) =>
      var valid := ValidPools(pools, poolNames, usageType);
      assert forall j | 0 <= j < |valid| :: WellFormedPool(valid[j]) by {
        forall j | 0 <= j < |valid|
          ensures WellFormedPool(valid[j])
        {
          var i := ValidPoolsSound(pools, poolNames, usageType, j);
        }
      }
      Ok(AnalyzePoolsCapacity(valid))
  }

  /** Every pool object in the catalog is readable and filed under its own NAME. */
  ghost predicate ConsistentCatalog(catalog: map<string, Value>)
  {
    forall name | name in catalog && catalog[name].Object? ::
      WellFormedPool(catalog[name].fields) && PoolName(catalog[name].fields) == name
  }

  /** The capacity of every configured name that resolves to a fit pool,
      filed under that name. */
  function ByName(poolNames: seq<string>, usageType: string, catalog: map<string, Value>): map<string, Value>
    requires ConsistentCatalog(catalog)
  {
    map name | name in poolNames && Selected(catalog, name, usageType) :: CapacityEntry(Lookup(catalog, name).value)
  }

  /** The capacities, stated name by name: with a catalog filed by NAME, the
      result has an entry for exactly the configured names that resolve to a
      fit pool, holding that pool's capacity. */
  lemma CapabilitiesByName(poolNames: seq<string>, usageType: string, catalog: map<string, Value>)
    requires ConsistentCatalog(catalog)
    ensures UpdatePoolCapabilities(poolNames, usageType, Ok(catalog)) == Ok(ByName(poolNames, usageType, catalog))
  {
    KeptWellFormed(poolNames, usageType, catalog);
    var caps := AnalyzePoolsCapacity(ValidPools(catalog, poolNames, usageType));
    var expected := ByName(poolNames, usageType, catalog);
    forall name | name in caps
      ensures name in expected && caps[name] == expected[name]
    {
      ReportedIsSelected(poolNames, usageType, catalog, name);
    }
    forall name | name in expected
      ensures name in caps
    {
      SelectedIsReported(poolNames, usageType, catalog, name);
    }
    SameMaps(caps, expected);
  }

  /** Two maps with the same entries are the same map. */
  lemma SameMaps(a: map<string, Value>, b: map<string, Value>)
    requires forall k | k in a :: k in b && a[k] == b[k]
    requires forall k | k in b :: k in a
    ensures a == b
  {
  }

  /** A catalog filed by NAME keeps only readable pools. */
  lemma KeptWellFormed(poolNames: seq<string>, usageType: string, catalog: map<string, Value>)
    requires ConsistentCatalog(catalog)
    ensures forall j | 0 <= j < |ValidPools(catalog, poolNames, usageType)| :: WellFormedPool(ValidPools(catalog, poolNames, usageType)[j])
  {
    forall j | 0 <= j < |ValidPools(catalog, poolNames, usageType)|
      ensures WellFormedPool(ValidPools(catalog, poolNames, usageType)[j])
    {
      var i := ValidPoolsSound(catalog, poolNames, usageType, j);
    }
  }

  lemma ReportedIsSelected(poolNames: seq<string>, usageType: string, catalog: map<string, Value>, name: string)
    requires ConsistentCatalog(catalog)
    requires forall j | 0 <= j < |ValidPools(catalog, poolNames, usageType)| :: WellFormedPool(ValidPools(catalog, poolNames, usageType)[j])
    requires name in AnalyzePoolsCapacity(ValidPools(catalog, poolNames, usageType))
    ensures name in poolNames && Selected(catalog, name, usageType)
    ensures AnalyzePoolsCapacity(ValidPools(catalog, poolNames, usageType))[name] == CapacityEntry(Lookup(catalog, name).value)
  {
    var valid := ValidPools(catalog, poolNames, usageType);
    var j := AnalyzeFrom(valid, name);
    var i := ValidPoolsSound(catalog, poolNames, usageType, j);
    assert poolNames[i] == name;
  }

  lemma SelectedIsReported(poolNames: seq<string>, usageType: string, catalog: map<string, Value>, name: string)
    requires ConsistentCatalog(catalog)
    requires forall j | 0 <= j < |ValidPools(catalog, poolNames, usageType)| :: WellFormedPool(ValidPools(catalog, poolNames, usageType)[j])
    requires name in poolNames && Selected(catalog, name, usageType)
    ensures name in AnalyzePoolsCapacity(ValidPools(catalog, poolNames, usageType))
  {
    var valid := ValidPools(catalog, poolNames, usageType);
    var i :| 0 <= i < |poolNames| && poolNames[i] == name;
    var j := ValidPoolsComplete(catalog, poolNames, usageType, i);
    assert PoolName(valid[j]) == name;
  }

  /** With a catalog filed by NAME, neither the order of the configured names
      nor their repetition matters. */
  lemma NameOrderIrrelevant(names1: seq<string>, names2: seq<string>, usageType: string, catalog: map<string, Value>)
    requires ConsistentCatalog(catalog)
    requires forall n :: n in names1 <==> n in names2
    ensures UpdatePoolCapabilities(names1, usageType, Ok(catalog)) == UpdatePoolCapabilities(names2, usageType, Ok(catalog))
  {
    CapabilitiesByName(names1, usageType, catalog);
    CapabilitiesByName(names2, usageType, catalog);
    SameMaps(ByName(names1, usageType, catalog), ByName(names2, usageType, catalog));
  }

  /** A capacity spelled as an int64 whose byte count fits in an int64 is
      reported exactly, in bytes. */
  lemma FreeCapacityExact(pool: map<string, Value>, sectors: int)
    requires WellFormedPool(pool) && pool["USERFREECAPACITY"] == Str(FormatInt(sectors))
    requires InInt64(sectors) && InInt64(sectors * SectorBytes)
    ensures FreeCapacity(pool) == sectors * SectorBytes
  {
    ParseFormatRoundTrip(sectors);
  }

  /** A capacity that is not a decimal integer is reported as 0 bytes: the
      parse error is ignored and the pool is still listed. */
  lemma FreeCapacityUnparsable(pool: map<string, Value>)
    requires WellFormedPool(pool)
    requires !IsIntegerSyntax(pool["USERFREECAPACITY"].s) && !PrefixOverflows(pool["USERFREECAPACITY"].s)
    ensures FreeCapacity(pool) == 0
  {
  }

  /** A capacity whose digits run past the integer range is clamped to the
      largest int64 by the parser, and the multiplication then wraps: the pool
      reports -512 bytes. */
  lemma FreeCapacityTooLarge(pool: map<string, Value>)
    requires WellFormedPool(pool)
    requires var s := pool["USERFREECAPACITY"].s;
             (IsIntegerSyntax(s) && SyntaxValue(s) > MaxInt64) || (PrefixOverflows(s) && s[0] != '-')
    ensures FreeCapacity(pool) == -SectorBytes
  {
  }

  /** A capacity below the int64 range, or a negative one whose digits
      overflow, is clamped to the smallest int64, and MinInt64 * 512 wraps to
      0: the pool reports 0 bytes. */
  lemma FreeCapacityTooSmall(pool: map<string, Value>)
    requires WellFormedPool(pool)
    requires var s := pool["USERFREECAPACITY"].s;
             (IsIntegerSyntax(s) && SyntaxValue(s) < MinInt64) || (PrefixOverflows(s) && s[0] == '-')
    ensures FreeCapacity(pool) == 0
  {
  }

  // A block backend configured with "gold" (a block pool with 1000 free
  // sectors), "silver" (a file pool) and "archive" (absent from the array).
  const ExampleGold: map<string, Value> := map["NAME" := Str("gold"), "USAGETYPE" := Str("1"), "USERFREECAPACITY" := Str("1000")]
  const ExampleSilver: map<string, Value> := map["NAME" := Str("silver"), "USAGETYPE" := Str("2"), "USERFREECAPACITY" := Str("7")]
  const ExampleCatalog: map<string, Value> := map["gold" := Object(ExampleGold), "silver" := Object(ExampleSilver)]
  const ExampleNames: seq<string> := ["gold", "silver", "archive"]

  lemma ExampleCatalogConsistent()
    ensures ConsistentCatalog(ExampleCatalog)
  {
  }

  lemma ExampleGoldCapacity()
    ensures WellFormedPool(ExampleGold) && FreeCapacity(ExampleGold) == 512000
  {
    assert FormatInt(1000) == "1000";
    FreeCapacityExact(ExampleGold, 1000);
  }

  lemma ExampleSelection()
    ensures Selected(ExampleCatalog, "gold", "1")
    ensures !Selected(ExampleCatalog, "silver", "1")
    ensures !Selected(ExampleCatalog, "archive", "1")
  {
  }

  lemma ExampleByName()
    ensures ConsistentCatalog(ExampleCatalog) && ByName(ExampleNames, "1", ExampleCatalog) == map["gold" := Object(map["FreeCapacity" := Int64(512000)])]
  {
    ExampleCatalogConsistent();
    ExampleGoldCapacity();
    ExampleSelection();
    var byName := ByName(ExampleNames, "1", ExampleCatalog);
    assert "gold" in ExampleNames;
    SameMaps(byName, map["gold" := Object(map["FreeCapacity" := Int64(512000)])]);
  }

  /** The example reports the gold pool alone, with 512000 bytes free. */
  lemma SinglePoolExample()
    ensures UpdatePoolCapabilities(ExampleNames, "1", Ok(ExampleCatalog))
            == Ok(map["gold" := Object(map["FreeCapacity" := Int64(512000)])])
  {
    ExampleCatalogConsistent();
    CapabilitiesByName(ExampleNames, "1", ExampleCatalog);
    ExampleByName();
  }

  // A Dorado V6 pool whose new usage type is the wildcard "0" serves a block
  // backend even though its old usage type says file; its capacity is spelled
  // with a leading plus sign.
  const ExampleBronze: map<string, Value> :=
    map["NAME" := Str("bronze"), "USAGETYPE" := Str("2"), "NEWUSAGETYPE" := Str("0"), "USERFREECAPACITY" := Str("+8")]

  lemma ExampleBronzeCapacity()
    ensures WellFormedPool(ExampleBronze) && FreeCapacity(ExampleBronze) == 4096
  {
    assert Unsigned("+8") == "8";
  }

  /** The wildcard new usage type selects the pool for any usage type. */
  lemma WildcardExample()
    ensures UpdatePoolCapabilities(["bronze"], "1", Ok(map["bronze" := Object(ExampleBronze)]))
            == Ok(map["bronze" := Object(map["FreeCapacity" := Int64(4096)])])
  {
    var catalog := map["bronze" := Object(ExampleBronze)];
    assert Selected(catalog, "bronze", "1");
    ExampleBronzeCapacity();
    assert ValidPools(catalog, ["bronze"], "1") == [ExampleBronze];
  }
}
