/**
  Sequential insertion into a map, the shape of each of the plugin's loops that
  walks a fixed list of keys and sets an entry for some of them.
 */
module KeyInsert {
  import opened GoValues

  /** Walking `outKeys` in order, sets `outKeys[i] := v` wherever `values[i]` is
      `Some(v)` and leaves the entry alone where it is `None`. */
  function InsertAll<V>(acc: map<string, V>, outKeys: seq<string>, values: seq<Option<V>>): (m: map<string, V>)
    requires |values| == |outKeys|
    requires forall i, j | 0 <= i < j < |outKeys| :: outKeys[i] != outKeys[j]
    ensures forall i | 0 <= i < |outKeys| && values[i].Some? :: outKeys[i] in m && m[outKeys[i]] == values[i].value
    ensures forall i | 0 <= i < |outKeys| && values[i].None? ::
              (outKeys[i] in m <==> outKeys[i] in acc) && (outKeys[i] in acc ==> m[outKeys[i]] == acc[outKeys[i]])
    ensures forall k | k !in outKeys :: (k in m <==> k in acc) && (k in acc ==> m[k] == acc[k])
  {
    if |outKeys| == 0 then acc
    else
      var n := |outKeys| - 1;
      var m := InsertAll(acc, outKeys[..n], values[..n]);
      assert forall i | 0 <= i < n :: outKeys[..n][i] == outKeys[i] && values[..n][i] == values[i];
      match values[n]
      case Some(v) => m[outKeys[n] := v]
      case None => m
  }
}

/**
  Provisioning-parameter resolution: the loosely typed parameter bag a volume
  request arrives with becomes the canonical map handed to the array client.
  `roundUpSize` and `strToBool` are the library helpers whose bodies are not
  part of this model.
 */
module Params {
  import opened GoValues
  import opened GoStd
  import opened KeyInsert

  const Description: string := "Created from Kubernetes CSI"
  const SectorSize: int := 512

  /** Keys copied when present and not "", under their lower-cased names. */
  const ParamKeys: seq<string> := [
    "storagepool", "allocType", "qos", "authClient", "cloneFrom", "cloneSpeed",
    "metroDomain", "remoteStoragePool", "sourceSnapshotName", "sourceVolumeName",
    "snapshotParentId", "applicationType"
  ]

  /** `ParamKeys` after `strings.ToLower` (`ParamKeysLowered`). */
  const LoweredParamKeys: seq<string> := [
    "storagepool", "alloctype", "qos", "authclient", "clonefrom", "clonespeed",
    "metrodomain", "remotestoragepool", "sourcesnapshotname", "sourcevolumename",
    "snapshotparentid", "applicationtype"
  ]

  /** String-valued keys stored as booleans under the same name. */
  const BoolKeys: seq<string> := ["replication"]

  /** String-valued keys copied verbatim under the same name. */
  const StringKeys: seq<string> := ["replicationSyncPeriod", "vStorePairID"]

  // `ParamKeysLowered` below is assembled from one lemma per pair of
  // allow-list positions; each names the two keys it lower-cases.
  lemma ParamKeysLowered0To1()
    ensures forall i | 0 <= i < 2 :: ToLower(ParamKeys[i]) == LoweredParamKeys[i]
  {
    ToLowerIs("storagepool", "storagepool");
    ToLowerIs("allocType", "alloctype");
  }

  lemma ParamKeysLowered2To3()
    ensures forall i | 2 <= i < 4 :: ToLower(ParamKeys[i]) == LoweredParamKeys[i]
  {
    ToLowerIs("qos", "qos");
    ToLowerIs("authClient", "authclient");
  }

  lemma ParamKeysLowered4To5()
    ensures forall i | 4 <= i < 6 :: ToLower(ParamKeys[i]) == LoweredParamKeys[i]
  {
    ToLowerIs("cloneFrom", "clonefrom");
    ToLowerIs("cloneSpeed", "clonespeed");
  }

  lemma ParamKeysLowered6To7()
    ensures forall i | 6 <= i < 8 :: ToLower(ParamKeys[i]) == LoweredParamKeys[i]
  {
    ToLowerIs("metroDomain", "metrodomain");
    ToLowerIs("remoteStoragePool", "remotestoragepool");
  }

  lemma ParamKeysLowered8To9()
    ensures forall i | 8 <= i < 10 :: ToLower(ParamKeys[i]) == LoweredParamKeys[i]
  {
    ToLowerIs("sourceSnapshotName", "sourcesnapshotname");
    ToLowerIs("sourceVolumeName", "sourcevolumename");
  }

  lemma ParamKeysLowered10To11()
    ensures forall i | 10 <= i < 12 :: ToLower(ParamKeys[i]) == LoweredParamKeys[i]
  {
    ToLowerIs("snapshotParentId", "snapshotparentid");
    ToLowerIs("applicationType", "applicationtype");
  }

  /** `ParamKeys` lower-cases to `LoweredParamKeys`. */
  lemma ParamKeysLowered()
    ensures |ParamKeys| == |LoweredParamKeys|
    ensures forall i | 0 <= i < |ParamKeys| :: ToLower(ParamKeys[i]) == LoweredParamKeys[i]
  {
    ParamKeysLowered0To1();
    ParamKeysLowered2To3();
    ParamKeysLowered4To5();
    ParamKeysLowered6To7();
    ParamKeysLowered8To9();
    ParamKeysLowered10To11();
  }

  /** The lowered allow-list names are pairwise distinct. */
  lemma LoweredParamKeysDistinct()
    ensures forall i, j | 0 <= i < j < |LoweredParamKeys| :: LoweredParamKeys[i] != LoweredParamKeys[j]
  {
  }

  predicate Distinct(s: seq<string>)
  {
    forall i, j | 0 <= i < j < |s| :: s[i] != s[j]
  }

  /** The key lists the resolver walks: the allow-list with the names its
      entries are stored under, the boolean keys and the string keys. */
  datatype KeyLists = KeyLists(copyKeys: seq<string>, copyAs: seq<string>, boolKeys: seq<string>, stringKeys: seq<string>)

  /** The keys written outside the loops. */
  const FixedKeys: set<string> := {"name", "description", "capacity", "hypermetro"}

  /** No loop writes a key twice, and no two writers share a key. */
  predicate WellFormed(t: KeyLists)
  {
    && |t.copyKeys| == |t.copyAs|
    && Distinct(t.copyAs) && Distinct(t.boolKeys) && Distinct(t.stringKeys)
    && (forall k | k in t.copyAs :: k !in FixedKeys && k !in t.boolKeys && k !in t.stringKeys)
    && (forall k | k in t.boolKeys :: k !in FixedKeys && k !in t.stringKeys)
    && (forall k | k in t.stringKeys :: k !in FixedKeys)
  }

  /** The plugin's key lists. */
  const Lists: KeyLists := KeyLists(ParamKeys, LoweredParamKeys, BoolKeys, StringKeys)

  /** An allow-list name is not one of the keys written by another part of
      `getParams`; `CopyAsApart0To3` and its siblings state it for the
      allow-list positions they name. */
  predicate CopyAsApart(k: string)
  {
    k !in FixedKeys && k !in BoolKeys && k !in StringKeys
  }

  lemma CopyAsApart0To3()
    ensures forall i | 0 <= i < 4 :: CopyAsApart(LoweredParamKeys[i])
  {
  }

  lemma CopyAsApart4To7()
    ensures forall i | 4 <= i < 8 :: CopyAsApart(LoweredParamKeys[i])
  {
  }

  lemma CopyAsApart8To11()
    ensures forall i | 8 <= i < 12 :: CopyAsApart(LoweredParamKeys[i])
  {
  }

  lemma ListsWellFormed()
    ensures WellFormed(Lists)
  {
    LoweredParamKeysDistinct();
    CopyAsApart0To3();
    CopyAsApart4To7();
    CopyAsApart8To11();
  }

  /** The caller must pass the requested size as an int64 under "size". */
  predicate HasSize(parameters: map<string, Value>)
  {
    "size" in parameters && parameters["size"].Int64? && InInt64(parameters["size"].i)
  }

  /** The allow-list loop's decision for one key: copy the value if present and not "". */
  function CopyEntry(parameters: map<string, Value>, key: string): Option<Value>
  {
    if Present(parameters, key) then Some(parameters[key]) else None
  }

  /** A boolean key's decision: a non-empty string is parsed by `strToBool`. */
  function BoolEntry(parameters: map<string, Value>, strToBool: string -> bool, key: string): Option<Value>
  {
    match NonEmptyString(parameters, key)
    case Some(v) => Some(Bool(strToBool(v)))
    case None => None
  }

  /** A string key's decision: a non-empty string is kept as is. */
  function StringEntry(parameters: map<string, Value>, key: string): Option<Value>
  {
    match NonEmptyString(parameters, key)
    case Some(v) => Some(Str(v))
    case None => None
  }

  /** Each loop's decisions, one per key it walks. */
  function CopyEntries(t: KeyLists, parameters: map<string, Value>): (r: seq<Option<Value>>)
    ensures |r| == |t.copyKeys|
    ensures forall i | 0 <= i < |r| :: r[i] == CopyEntry(parameters, t.copyKeys[i])
  {
    seq(|t.copyKeys|, i requires 0 <= i < |t.copyKeys| => CopyEntry(parameters, t.copyKeys[i]))
  }

  function BoolEntries(t: KeyLists, parameters: map<string, Value>, strToBool: string -> bool): (r: seq<Option<Value>>)
    ensures |r| == |t.boolKeys|
    ensures forall i | 0 <= i < |r| :: r[i] == BoolEntry(parameters, strToBool, t.boolKeys[i])
  {
    seq(|t.boolKeys|, i requires 0 <= i < |t.boolKeys| => BoolEntry(parameters, strToBool, t.boolKeys[i]))
  }

  function StringEntries(t: KeyLists, parameters: map<string, Value>): (r: seq<Option<Value>>)
    ensures |r| == |t.stringKeys|
    ensures forall i | 0 <= i < |r| :: r[i] == StringEntry(parameters, t.stringKeys[i])
  {
    seq(|t.stringKeys|, i requires 0 <= i < |t.stringKeys| => StringEntry(parameters, t.stringKeys[i]))
  }

  /** Entries every request gets. */
  function FixedPart(name: string, parameters: map<string, Value>, roundUpSize: (int, int) -> int): (m: map<string, Value>)
    requires HasSize(parameters)
    ensures m.Keys == {"name", "description", "capacity"}
    ensures m["name"] == Str(name) && m["description"] == Str(Description)
    ensures m["capacity"] == Int64(roundUpSize(parameters["size"].i, SectorSize))
  {
    map[]
      ["name" := Str(name)]
      ["description" := Str(Description)]
      ["capacity" := Int64(roundUpSize(parameters["size"].i, SectorSize))]
  }

  /** A map that `acc` already agrees with outside `keys`. */
  ghost predicate SameOutside(m: map<string, Value>, acc: map<string, Value>, keys: seq<string>)
  {
    forall k | k !in keys :: (k in m <==> k in acc) && (k in acc ==> m[k] == acc[k])
  }

  /** The allow-list loop. */
  function CopyLayer(t: KeyLists, parameters: map<string, Value>, acc: map<string, Value>): (m: map<string, Value>)
    requires |t.copyKeys| == |t.copyAs| && Distinct(t.copyAs)
    ensures forall i | 0 <= i < |t.copyAs| && Present(parameters, t.copyKeys[i]) ::
              t.copyAs[i] in m && m[t.copyAs[i]] == parameters[t.copyKeys[i]]
    ensures forall i | 0 <= i < |t.copyAs| && !Present(parameters, t.copyKeys[i]) ::
              (t.copyAs[i] in m <==> t.copyAs[i] in acc) && (t.copyAs[i] in acc ==> m[t.copyAs[i]] == acc[t.copyAs[i]])
    ensures SameOutside(m, acc, t.copyAs)
  {
    InsertAll(acc, t.copyAs, CopyEntries(t, parameters))
  }

  /** The "hyperMetro" step. */
  function MetroLayer(parameters: map<string, Value>, strToBool: string -> bool, acc: map<string, Value>): (m: map<string, Value>)
    ensures NonEmptyString(parameters, "hyperMetro").Some? ==>
              "hypermetro" in m && m["hypermetro"] == Bool(strToBool(NonEmptyString(parameters, "hyperMetro").value))
    ensures NonEmptyString(parameters, "hyperMetro").None? ==> m == acc
    ensures SameOutside(m, acc, ["hypermetro"])
  {
    match NonEmptyString(parameters, "hyperMetro")
    case Some(v) => acc["hypermetro" := Bool(strToBool(v))]
    case None => acc
  }

  /** The boolean-key loop. */
  function BoolLayer(t: KeyLists, parameters: map<string, Value>, strToBool: string -> bool, acc: map<string, Value>): (m: map<string, Value>)
    requires Distinct(t.boolKeys)
    ensures forall i | 0 <= i < |t.boolKeys| && NonEmptyString(parameters, t.boolKeys[i]).Some? ::
              t.boolKeys[i] in m && m[t.boolKeys[i]] == Bool(strToBool(NonEmptyString(parameters, t.boolKeys[i]).value))
    ensures forall i | 0 <= i < |t.boolKeys| && NonEmptyString(parameters, t.boolKeys[i]).None? ::
              (t.boolKeys[i] in m <==> t.boolKeys[i] in acc) && (t.boolKeys[i] in acc ==> m[t.boolKeys[i]] == acc[t.boolKeys[i]])
    ensures SameOutside(m, acc, t.boolKeys)
  {
    InsertAll(acc, t.boolKeys, BoolEntries(t, parameters, strToBool))
  }

  /** The string-key loop. */
  function StringLayer(t: KeyLists, parameters: map<string, Value>, acc: map<string, Value>): (m: map<string, Value>)
    requires Distinct(t.stringKeys)
    ensures forall i | 0 <= i < |t.stringKeys| && NonEmptyString(parameters, t.stringKeys[i]).Some? ::
              t.stringKeys[i] in m && m[t.stringKeys[i]] == Str(NonEmptyString(parameters, t.stringKeys[i]).value)
    ensures forall i | 0 <= i < |t.stringKeys| && NonEmptyString(parameters, t.stringKeys[i]).None? ::
              (t.stringKeys[i] in m <==> t.stringKeys[i] in acc) && (t.stringKeys[i] in acc ==> m[t.stringKeys[i]] == acc[t.stringKeys[i]])
    ensures SameOutside(m, acc, t.stringKeys)
  {
    InsertAll(acc, t.stringKeys, StringEntries(t, parameters))
  }

  /** The resolution over arbitrary well-formed key lists: the three fixed
      entries, then each step of the plugin in turn. */
  function Resolve(t: KeyLists, name: string, parameters: map<string, Value>,
                   roundUpSize: (int, int) -> int, strToBool: string -> bool): map<string, Value>
    requires WellFormed(t) && HasSize(parameters)
  {
    var fixed := FixedPart(name, parameters, roundUpSize);
    var copied := CopyLayer(t, parameters, fixed);
    var metro := MetroLayer(parameters, strToBool, copied);
    var bools := BoolLayer(t, parameters, strToBool, metro);
    StringLayer(t, parameters, bools)
  }

  lemma ResolveFixed(t: KeyLists, name: string, parameters: map<string, Value>,
                     roundUpSize: (int, int) -> int, strToBool: string -> bool)
    requires WellFormed(t) && HasSize(parameters)
    ensures var params := Resolve(t, name, parameters, roundUpSize, strToBool);
            && "name" in params && params["name"] == Str(name)
            && "description" in params && params["description"] == Str(Description)
            && "capacity" in params && params["capacity"] == Int64(roundUpSize(parameters["size"].i, SectorSize))
  {
  }

  lemma ResolveCopied(t: KeyLists, name: string, parameters: map<string, Value>,
                      roundUpSize: (int, int) -> int, strToBool: string -> bool)
    requires WellFormed(t) && HasSize(parameters)
    ensures var params := Resolve(t, name, parameters, roundUpSize, strToBool);
            forall i | 0 <= i < |t.copyKeys| ::
              && (t.copyAs[i] in params <==> Present(parameters, t.copyKeys[i]))
              && (Present(parameters, t.copyKeys[i]) ==> params[t.copyAs[i]] == parameters[t.copyKeys[i]])
  {
  }

  lemma ResolveHyperMetro(t: KeyLists, name: string, parameters: map<string, Value>,
                          roundUpSize: (int, int) -> int, strToBool: string -> bool)
    requires WellFormed(t) && HasSize(parameters)
    ensures var params := Resolve(t, name, parameters, roundUpSize, strToBool);
            var v := NonEmptyString(parameters, "hyperMetro");
            && ("hypermetro" in params <==> v.Some?)
            && (v.Some? ==> params["hypermetro"] == Bool(strToBool(v.value)))
  {
  }

  lemma ResolveBool(t: KeyLists, name: string, parameters: map<string, Value>,
                    roundUpSize: (int, int) -> int, strToBool: string -> bool)
    requires WellFormed(t) && HasSize(parameters)
    ensures var params := Resolve(t, name, parameters, roundUpSize, strToBool);
            forall i | 0 <= i < |t.boolKeys| ::
              var v := NonEmptyString(parameters, t.boolKeys[i]);
              && (t.boolKeys[i] in params <==> v.Some?)
              && (v.Some? ==> params[t.boolKeys[i]] == Bool(strToBool(v.value)))
  {
  }

  lemma ResolveString(t: KeyLists, name: string, parameters: map<string, Value>,
                      roundUpSize: (int, int) -> int, strToBool: string -> bool)
    requires WellFormed(t) && HasSize(parameters)
    ensures var params := Resolve(t, name, parameters, roundUpSize, strToBool);
            forall i | 0 <= i < |t.stringKeys| ::
              var v := NonEmptyString(parameters, t.stringKeys[i]);
              && (t.stringKeys[i] in params <==> v.Some?)
              && (v.Some? ==> params[t.stringKeys[i]] == Str(v.value))
  {
  }

  lemma ResolveOnly(t: KeyLists, name: string, parameters: map<string, Value>,
                    roundUpSize: (int, int) -> int, strToBool: string -> bool)
    requires WellFormed(t) && HasSize(parameters)
    ensures forall k | k in Resolve(t, name, parameters, roundUpSize, strToBool) ::
              k in FixedKeys || k in t.copyAs || k in t.boolKeys || k in t.stringKeys
  {
  }
  /** The input keys the resolution looks at. */
  function InputKeys(t: KeyLists): set<string>
  {
    {"size", "hyperMetro"} + (set k | k in t.copyKeys) + (set k | k in t.boolKeys) + (set k | k in t.stringKeys)
  }

  /** Two parameter bags that hold the same entries at `keys`. */
  ghost predicate AgreeOn(p1: map<string, Value>, p2: map<string, Value>, keys: set<string>)
  {
    forall k | k in keys :: (k in p1 <==> k in p2) && (k in p1 ==> p1[k] == p2[k])
  }

  /** Bags that agree on the input keys lead every step to the same decisions. */
  lemma EntriesAgree(t: KeyLists, p1: map<string, Value>, p2: map<string, Value>, strToBool: string -> bool)
    requires AgreeOn(p1, p2, InputKeys(t))
    ensures HasSize(p1) <==> HasSize(p2)
    ensures HasSize(p1) ==> p1["size"] == p2["size"]
    ensures NonEmptyString(p1, "hyperMetro") == NonEmptyString(p2, "hyperMetro")
    ensures CopyEntries(t, p1) == CopyEntries(t, p2)
    ensures BoolEntries(t, p1, strToBool) == BoolEntries(t, p2, strToBool)
    ensures StringEntries(t, p1) == StringEntries(t, p2)
  {
    assert "size" in InputKeys(t);
    assert "hyperMetro" in InputKeys(t);
    assert forall i | 0 <= i < |t.copyKeys| :: t.copyKeys[i] in InputKeys(t);
    assert forall i | 0 <= i < |t.boolKeys| :: t.boolKeys[i] in InputKeys(t);
    assert forall i | 0 <= i < |t.stringKeys| :: t.stringKeys[i] in InputKeys(t);
  }

  lemma ResolveReadsOnly(t: KeyLists, name: string, p1: map<string, Value>, p2: map<string, Value>,
                         roundUpSize: (int, int) -> int, strToBool: string -> bool)
    requires WellFormed(t) && HasSize(p1) && AgreeOn(p1, p2, InputKeys(t))
    ensures HasSize(p2)
    ensures Resolve(t, name, p1, roundUpSize, strToBool) == Resolve(t, name, p2, roundUpSize, strToBool)
  {
    EntriesAgree(t, p1, p2, strToBool);
    var fixed := FixedPart(name, p1, roundUpSize);
    assert fixed == FixedPart(name, p2, roundUpSize);
    var copied := CopyLayer(t, p1, fixed);
    assert copied == CopyLayer(t, p2, fixed);
    var metro := MetroLayer(p1, strToBool, copied);
    assert metro == MetroLayer(p2, strToBool, copied);
    var bools := BoolLayer(t, p1, strToBool, metro);
    assert bools == BoolLayer(t, p2, strToBool, metro);
    assert StringLayer(t, p1, bools) == StringLayer(t, p2, bools);
  }

  /** The resolved provisioning parameters of a volume called `name`. */
  function GetParams(name: string, parameters: map<string, Value>,
                     roundUpSize: (int, int) -> int, strToBool: string -> bool): map<string, Value>
    requires HasSize(parameters)
  {
    ListsWellFormed();
    Resolve(Lists, name, parameters, roundUpSize, strToBool)
  }

  /** The three entries every request gets, whatever else it carries. */
  lemma FixedEntries(name: string, parameters: map<string, Value>,
                     roundUpSize: (int, int) -> int, strToBool: string -> bool)
    requires HasSize(parameters)
    ensures var params := GetParams(name, parameters, roundUpSize, strToBool);
            && "name" in params && params["name"] == Str(name)
            && "description" in params && params["description"] == Str(Description)
            && "capacity" in params && params["capacity"] == Int64(roundUpSize(parameters["size"].i, SectorSize))
  {
    ListsWellFormed();
    ResolveFixed(Lists, name, parameters, roundUpSize, strToBool);
  }

  /** An allow-listed key is stored under its lower-cased name exactly when it
      is present and not "", with its value unchanged. */
  lemma AllowListEntries(name: string, parameters: map<string, Value>,
                         roundUpSize: (int, int) -> int, strToBool: string -> bool)
    requires HasSize(parameters)
    ensures var params := GetParams(name, parameters, roundUpSize, strToBool);
            forall i | 0 <= i < |ParamKeys| ::
              && (ToLower(ParamKeys[i]) in params <==> Present(parameters, ParamKeys[i]))
              && (Present(parameters, ParamKeys[i]) ==> params[ToLower(ParamKeys[i])] == parameters[ParamKeys[i]])
  {
    ListsWellFormed();
    ParamKeysLowered();
    ResolveCopied(Lists, name, parameters, roundUpSize, strToBool);
  }

  /** "hypermetro" is set exactly when "hyperMetro" holds a non-empty string,
      to what `strToBool` makes of it. */
  lemma HyperMetroEntry(name: string, parameters: map<string, Value>,
                        roundUpSize: (int, int) -> int, strToBool: string -> bool)
    requires HasSize(parameters)
    ensures var params := GetParams(name, parameters, roundUpSize, strToBool);
            && ("hypermetro" in params <==> "hyperMetro" in parameters && parameters["hyperMetro"].Str? && parameters["hyperMetro"].s != "")
            && ("hypermetro" in params ==> params["hypermetro"] == Bool(strToBool(parameters["hyperMetro"].s)))
  {
    ListsWellFormed();
    ResolveHyperMetro(Lists, name, parameters, roundUpSize, strToBool);
  }

  /** "replication" is set exactly when it holds a non-empty string, to what
      `strToBool` makes of it. */
  lemma ReplicationEntry(name: string, parameters: map<string, Value>,
                         roundUpSize: (int, int) -> int, strToBool: string -> bool)
    requires HasSize(parameters)
    ensures var params := GetParams(name, parameters, roundUpSize, strToBool);
            && ("replication" in params <==> "replication" in parameters && parameters["replication"].Str? && parameters["replication"].s != "")
            && ("replication" in params ==> params["replication"] == Bool(strToBool(parameters["replication"].s)))
  {
    ListsWellFormed();
    ResolveBool(Lists, name, parameters, roundUpSize, strToBool);
    assert BoolKeys[0] == "replication";
  }

  /** "replicationSyncPeriod" and "vStorePairID" are copied exactly when they
      hold a non-empty string; a value of any other type is dropped. */
  lemma StringKeyEntries(name: string, parameters: map<string, Value>,
                      roundUpSize: (int, int) -> int, strToBool: string -> bool)
    requires HasSize(parameters)
    ensures var params := GetParams(name, parameters, roundUpSize, strToBool);
            forall k | k in StringKeys ::
              && (k in params <==> k in parameters && parameters[k].Str? && parameters[k].s != "")
              && (k in params ==> params[k] == parameters[k])
  {
    ListsWellFormed();
    ResolveString(Lists, name, parameters, roundUpSize, strToBool);
  }

  /** Nothing else is written: every key of the result is a fixed key, a
      lowered allow-list name, or one of the typed keys. */
  lemma OnlyKnownKeys(name: string, parameters: map<string, Value>,
                      roundUpSize: (int, int) -> int, strToBool: string -> bool)
    requires HasSize(parameters)
    ensures forall k | k in GetParams(name, parameters, roundUpSize, strToBool) ::
              k in FixedKeys || k in LoweredParamKeys || k in BoolKeys || k in StringKeys
  {
    ListsWellFormed();
    ResolveOnly(Lists, name, parameters, roundUpSize, strToBool);
  }

  /** Only the recognised input keys matter: adding or changing any other key
      of the request leaves the result unchanged. */
  lemma UnknownKeysIgnored(name: string, parameters: map<string, Value>, k: string, v: Value,
                           roundUpSize: (int, int) -> int, strToBool: string -> bool)
    requires HasSize(parameters)
    requires k !in InputKeys(Lists)
    ensures HasSize(parameters[k := v])
    ensures GetParams(name, parameters[k := v], roundUpSize, strToBool) == GetParams(name, parameters, roundUpSize, strToBool)
  {
    ListsWellFormed();
    ResolveReadsOnly(Lists, name, parameters, parameters[k := v], roundUpSize, strToBool);
  }

  lemma EvilUnrecognised()
    ensures "evil" !in FixedKeys && "evil" !in LoweredParamKeys && "evil" !in BoolKeys && "evil" !in StringKeys
  {
  }

  /** A request carrying "storagepool" and an unrecognised "evil" key keeps
      the pool and drops the other. */
  lemma AllowListExample(roundUpSize: (int, int) -> int, strToBool: string -> bool)
    ensures var parameters := map["size" := Int64(1024), "storagepool" := Str("p1"), "evil" := Str("x")];
            var params := GetParams("vol", parameters, roundUpSize, strToBool);
            && "storagepool" in params && params["storagepool"] == Str("p1")
            && "evil" !in params
  {
    var parameters := map["size" := Int64(1024), "storagepool" := Str("p1"), "evil" := Str("x")];
    AllowListEntries("vol", parameters, roundUpSize, strToBool);
    assert ToLower(ParamKeys[0]) == "storagepool" by { ParamKeysLowered(); }
    OnlyKnownKeys("vol", parameters, roundUpSize, strToBool);
    EvilUnrecognised();
  }
}
