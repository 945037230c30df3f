# OceanStor backend plugin — a Dafny model

This project models the core of the OceanStor storage backend plugin of the
Huawei CSI driver (`csi/backend/plugin/oceanstor.go`). It covers the plugin's
four jobs and proves properties about each:

- **Initialisation (`init`).** The backend configuration is checked in the
  source's order: urls, then user, then password. A client is built from the
  configuration, the plugin logs in, and it reads the product name from the
  array's system information. On success it logs out again unless told to
  keep the session; a failure after login returns without logging out. The client and product are stored only when every step succeeds.
- **Capability negotiation (`UpdateBackendCapabilities`).** The array's
  license features and the product name decide eight boolean capabilities.
  The capability map is stored on the plugin.
- **Provisioning-parameter resolution (`getParams`).** The loosely typed
  parameter bag of a volume request becomes the map handed to the array
  client. It always holds the volume name, a fixed description and the
  rounded capacity. On top of that come:
  - the allow-listed keys, under their lower-cased names;
  - "hypermetro" and "replication", parsed as booleans;
  - "replicationSyncPeriod" and "vStorePairID", copied as strings.

  Nothing else is kept.
- **Pool capacity reporting (`updatePoolCapabilities`,
  `analyzePoolsCapacity`).** The configured pool names are looked up in the
  array's pool catalog, and the pools fit for the backend's usage type are
  kept. Each kept pool's free capacity is reported under its name:
  - the capacity is given in 512-byte sectors and reported in bytes;
  - the multiplication uses int64 arithmetic and wraps on overflow.

Go's dynamic values are the datatype `GoValues.Value`. A `(T, error)` return
is `GoValues.Result`.

The array client's replies are inputs to the model:
- the login error;
- the system information;
- the license features;
- the pool catalog.

`init` also returns the sequence of client calls it made.

Four library helpers whose bodies are outside this model are passed in as
function parameters:
- `utils.RoundUpSize`
- `utils.StrToBool`
- `utils.IsSupportFeature`
- `utils.GetProductVersion`

The plugin relies on three parts of Go's standard library, which are written
out in `gostd.dfy`:
- `strings.ToLower`;
- `strconv.ParseInt(s, 10, 64)`, including its clamping on overflow;
- int64 wrap-around.

The modules are:
- `GoValues` (values.dfy)
- `GoStd` (gostd.dfy)
- `Capabilities` (capabilities.dfy)
- `KeyInsert` and `Params` (params.dfy)
- `LastWins` and `Pools` (pools.dfy)
- `OceanstorPlugin` (plugin.dfy)

## Model

| member | source | states |
|---|---|---|
| GoValues.NonEmptyString | csi/backend/plugin/oceanstor.go:139 | `m[k].(string)` followed by `!= ""` yields a value exactly when the key holds a non-empty string, and the value is that string |
| GoStd.ToLowerChars | csi/backend/plugin/oceanstor.go:135 | lower-casing works character by character: position i of the result is the lowered character i of the input |
| GoStd.WrapInt64 | csi/backend/plugin/oceanstor.go:202 | int64 arithmetic leaves a value in the int64 range that is congruent to the exact result modulo 2^64, and equal to it when the exact result fits |
| GoStd.ParseInt | csi/backend/plugin/oceanstor.go:199 | success exactly for sign-and-digits text denoting an int64, with that value; syntax errors give 0; values beyond the range give the nearest bound; an overflow met before a bad character is a range error |
| GoStd.DecimalValue | csi/backend/plugin/oceanstor.go:199 | the decimal spelling of n denotes n |
| GoStd.ParseFormatRoundTrip | csi/backend/plugin/oceanstor.go:199 | parsing the decimal spelling of any int64 gives that int64 back, without error |
| Capabilities.Derive | csi/backend/plugin/oceanstor.go:95-104 | every capability value is a boolean |
| Capabilities.DeriveKeys | csi/backend/plugin/oceanstor.go:95-104 | exactly the eight capability names are reported, for every feature set and product |
| Capabilities.DeriveFlags | csi/backend/plugin/oceanstor.go:85-104 | each licensed capability follows its license feature; thick provisioning iff the product is neither Dorado nor DoradoV6; application types iff DoradoV6; clone always |
| Capabilities.ThickExcludesApplicationType | csi/backend/plugin/oceanstor.go:87-93 | no product is reported with both thick provisioning and application types |
| Capabilities.OnlyNamedFeaturesMatter | csi/backend/plugin/oceanstor.go:87-93 | two feature sets that agree on the five named features give the same capability map |
| Capabilities.ProductOnlyAffectsTwoFlags | csi/backend/plugin/oceanstor.go:87-93 | changing the product changes no capability except thick provisioning and application types |
| Capabilities.DoradoV6ThinOnly | csi/backend/plugin/oceanstor.go:85-104 | a DoradoV6 licensed for thin provisioning alone: thin yes, thick no, application types yes, clone yes, QoS no |
| OceanstorPlugin.ConfigProblem | csi/backend/plugin/oceanstor.go:28-46 | no configuration error exactly when urls is a non-empty list and user and password are strings; otherwise the message of the first failing check, urls before user before password |
| OceanstorPlugin.StringOrEmpty | csi/backend/plugin/oceanstor.go:48-49 | an optional setting is its string value, or "" when it is missing or not a string |
| OceanstorPlugin.ConfiguredClient | csi/backend/plugin/oceanstor.go:33-51 | the client carries the configured urls in order, the configured user and password, and vstoreName and parallelNum when they are strings, "" otherwise |
| OceanstorPlugin.Init | csi/backend/plugin/oceanstor.go:27-76 | a failed init changes nothing; it succeeds exactly when the configuration is complete and login, system query and product lookup succeed; success stores the configured client and the product; the array is not contacted before the configuration passes; a failed login, system query or product lookup returns that step's own error; logout happens exactly on success without keepLogin; a successful init makes the calls login, system query and, without keepLogin, logout, in that order |
| OceanstorPlugin.InitRetry | csi/backend/plugin/oceanstor.go:27-76 | after a failed init, initialising again behaves as on the untouched plugin |
| OceanstorPlugin.InitFailureAfterLoginKeepsSession | csi/backend/plugin/oceanstor.go:51-71 | when the system query or the product lookup fails after login, init returns after the calls login and system query, with no logout, whatever keepLogin says |
| OceanstorPlugin.UpdateBackendCapabilities | csi/backend/plugin/oceanstor.go:78-108 | a license-query error is returned with the plugin unchanged; otherwise the eight capabilities follow the license features and product as stated above, and the plugin stores exactly the returned map |
| OceanstorPlugin.InitThenCapabilities | csi/backend/plugin/oceanstor.go:63-93 | the product fixed by a successful init decides the thick and application-type capabilities reported afterwards |
| OceanstorPlugin.CapabilitiesRefreshIdempotent | csi/backend/plugin/oceanstor.go:78-108 | refreshing the capabilities a second time with the same license reply changes neither the plugin nor the result |
| KeyInsert.InsertAll | csi/backend/plugin/oceanstor.go:133-137 | walking distinct keys sets each key with a value, leaves each key without one as it was, and touches no other key |
| Params.ParamKeysLowered | csi/backend/plugin/oceanstor.go:118-135 | the allow-list lower-cases to the twelve names the entries are stored under |
| Params.FixedEntries | csi/backend/plugin/oceanstor.go:112-116 | every result of `Params.GetParams`, the model of getParams, holds the volume name, the fixed description and the size rounded up to 512 |
| Params.AllowListEntries | csi/backend/plugin/oceanstor.go:118-137 | an allow-listed key appears under its lower-cased name exactly when it is present and not "", with its value unchanged whatever its type |
| Params.HyperMetroEntry | csi/backend/plugin/oceanstor.go:139-141 | "hypermetro" appears exactly when "hyperMetro" holds a non-empty string, as the boolean that string parses to |
| Params.ReplicationEntry | csi/backend/plugin/oceanstor.go:143-150 | "replication" appears exactly when it holds a non-empty string in the request, as the boolean that string parses to |
| Params.StringKeyEntries | csi/backend/plugin/oceanstor.go:152-160 | "replicationSyncPeriod" and "vStorePairID" are copied exactly when they hold non-empty strings |
| Params.OnlyKnownKeys | csi/backend/plugin/oceanstor.go:110-163 | every key of the result is a fixed key, a lowered allow-list name or a typed key |
| Params.UnknownKeysIgnored | csi/backend/plugin/oceanstor.go:110-163 | adding or changing a request key that the resolution does not read leaves the result unchanged |
| Params.AllowListExample | csi/backend/plugin/oceanstor.go:118-137 | a request with "storagepool" and "evil" keeps the pool and drops "evil" |
| Pools.Lookup | csi/backend/plugin/oceanstor.go:177 | a catalog entry is found exactly when the name is present and holds an object |
| Pools.ValidPoolsSound | csi/backend/plugin/oceanstor.go:174-188 | every pool `Pools.ValidPools` keeps is the catalog object of a configured name that is fit for the usage type (`Pools.Qualifies`: USAGETYPE equal to it or to "0", or NEWUSAGETYPE the string "0") |
| Pools.ValidPoolsComplete | csi/backend/plugin/oceanstor.go:174-188 | every configured name that resolves to a fit pool has that pool kept |
| Pools.ValidPoolsAppend | csi/backend/plugin/oceanstor.go:174-188 | selection is name by name: the pools kept for two name lists in a row are the two selections concatenated |
| Pools.FreeCapacity | csi/backend/plugin/oceanstor.go:197-203 | the reported byte count is an int64 and a multiple of 512; for any integer spelling (sign, leading zeros) of an int64 sector count it is that count times 512 wrapped to int64, and exactly that product when it fits |
| Pools.FreeCapacityExact | csi/backend/plugin/oceanstor.go:199-202 | a capacity written as an int64 whose byte count fits in an int64 is reported exactly, times 512 |
| Pools.FreeCapacityUnparsable | csi/backend/plugin/oceanstor.go:199-202 | a capacity that is not a decimal integer and whose leading digits do not overflow is reported as 0 bytes, and the pool stays listed |
| Pools.FreeCapacityTooLarge | csi/backend/plugin/oceanstor.go:199-202 | a capacity above the int64 range, or one without a minus sign whose leading digits overflow, is clamped to MaxInt64 and then wraps, so the pool reports -512 bytes |
| Pools.FreeCapacityTooSmall | csi/backend/plugin/oceanstor.go:199-202 | a capacity below the int64 range, or a negative one whose leading digits overflow, is clamped to MinInt64 and then wraps, so the pool reports 0 bytes |
| Pools.AnalyzePoolsCapacity | csi/backend/plugin/oceanstor.go:194-207 | the result has one entry per distinct pool name of the list |
| LastWins.AssignAllLast | csi/backend/plugin/oceanstor.go:196-204 | when a name repeats, the last assignment to it is the one kept |
| Pools.AnalyzeLastWins | csi/backend/plugin/oceanstor.go:196-204 | a pool whose name does not recur later in the list reports its own capacity |
| Pools.AnalyzeFrom | csi/backend/plugin/oceanstor.go:196-204 | every reported capacity is that of a listed pool carrying the reported name |
| Pools.UpdatePoolCapabilities | csi/backend/plugin/oceanstor.go:165-192 | a catalog-fetch error is returned as is; otherwise the call succeeds, whatever names are missing or unfit |
| Pools.CapabilitiesByName | csi/backend/plugin/oceanstor.go:165-207 | with a catalog that files every pool under its own NAME, the result is exactly the map from each configured name resolving to a fit pool to that pool's capacity |
| Pools.NameOrderIrrelevant | csi/backend/plugin/oceanstor.go:174-190 | with such a catalog, the order and repetition of the configured names do not matter |
| Pools.SinglePoolExample | csi/backend/plugin/oceanstor.go:165-207 | names gold, silver and archive; gold is a block pool with 1000 free sectors, silver a file pool, archive absent; the result is gold alone, with 512000 bytes |
| Pools.WildcardExample | csi/backend/plugin/oceanstor.go:177-181 | a pool with USAGETYPE "2" but NEWUSAGETYPE "0" and capacity "+8" is kept for usage type "1" and reports 4096 bytes |

## Left out

- `duplicateClient` (lines 209-216) is not modelled: it only logs the existing client in again and returns it.
- `Logout` (lines 224-228) is not modelled: it only calls the client's logout when a client exists.
- `SupportQoSParameters` (lines 219-221) is not modelled: it delegates to `smartx.CheckQoSParameterSupport`, and the smartx package is not part of this model.
- The array client itself is not modelled:
  - `NewClient`, `Login`, `GetSystem`, `GetLicenseFeature`, `GetAllPools` and `Logout` and their HTTP traffic are outside the model;
  - their results are inputs;
  - `init` records the calls it makes as a sequence of `ClientCall`.
- `utils.RoundUpSize`, `utils.StrToBool`, `utils.IsSupportFeature` and `utils.GetProductVersion` are function parameters. Their bodies are outside this model, so nothing is proved about rounding, about which boolean tokens are accepted, or about how product versions are recognised.
- Params.FixedEntries: the stored capacity is whatever the `RoundUpSize` parameter returns, and the model does not bound it to the int64 range. The Go helper returns an int64, but its body is outside the model.
- Logging, `context.Context` and the embedded `basePlugin` are not modelled. None of them affects results.
- The plugin's mutable fields become a `Plugin` value returned by each operation. Concurrency is not modelled.
- Type assertions that panic in the source become preconditions, because a panic is not a result:
  - `parameters["size"].(int64)` becomes `Params.HasSize`;
  - each url `i.(string)` becomes `OceanstorPlugin.UrlsAreStrings`;
  - a kept pool's `NAME` and `USERFREECAPACITY` must be strings (`Pools.WellFormedPool`);
  - `UpdateBackendCapabilities` requires a client, as the source dereferences it.
- GoStd.ToLower: lowers ASCII letters only. Go's full Unicode case mapping is not modelled. Every key the plugin lowers is ASCII.
- GoStd.ParseInt: models the base-10, 64-bit call only. The error value is reduced to a flag, since the plugin ignores the error.
- Pools.UpdatePoolCapabilities: its own contract states error pass-through and success only. What the result contains is stated by `Pools.CapabilitiesByName` for catalogs filed by NAME, and for any catalog by `Pools.AnalyzeLastWins` and `Pools.AnalyzeFrom` together with the `ValidPools` lemmas.
- Capabilities.Derive: its own contract says only that every value is boolean. Its key set and values are stated by `Capabilities.DeriveKeys` and `Capabilities.DeriveFlags`.

Behaviour of the code a reader might not expect:
- `getParams` does not reject a size of zero or below. Whatever `RoundUpSize` returns is stored.
- `getParams` does not reject an empty volume name.
- A boolean parameter with an unrecognised token is not an error: the value is whatever `StrToBool` returns.
- A pool whose free capacity does not parse is not skipped. It is reported with the value the failed parse leaves, times 512 in int64 arithmetic: 0 bytes for a syntax error, -512 bytes when the count overflows upwards (clamped to MaxInt64), and 0 bytes when it overflows downwards (clamped to MinInt64).
- A repeated pool name is reported once, with the last pool's capacity.
