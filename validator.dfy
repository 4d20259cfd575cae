/**
 * `ConfigValidator`, `DataValidator` and the frequency-words file check.
 * Loaded configuration and API items are dynamically typed; `Value` gives
 * them Python's types, truth values and equality. Where Python would raise
 * a `TypeError` or `AttributeError` instead of a validation error, the model
 * says so with its own outcome.
 */
module Validator {
  import opened Wrappers
  import opened Text
  import opened Dicts
  import opened FileUtils

  // ---------------------------------------------------------------------------
  // Dynamically typed values
  // ---------------------------------------------------------------------------

  datatype Value =
    | Null
    | Bool(b: bool)
    | Int(i: int)
    | Float(x: real)
    | Str(s: string)
    | List(items: seq<Value>)
    | Obj(fields: map<string, Value>)
  {
    /** `bool(v)` */
    predicate Truthy() {
      match this
      case Null => false
      case Bool(b) => b
      case Int(i) => i != 0
      case Float(x) => x != 0.0
      case Str(s) => |s| > 0
      case List(items) => |items| > 0
      case Obj(fields) => |fields| > 0
    }

    /** `isinstance(v, (int, float))`; `bool` is a subclass of `int`. */
    predicate IsNumber() {
      Bool? || Int? || Float?
    }

    function Number(): real
      requires IsNumber()
    {
      if Bool? then (if b then 1.0 else 0.0) else if Int? then i as real else x
    }

    /** Usable as a set element: lists and dicts are not hashable. */
    predicate Hashable() {
      !List? && !Obj?
    }
  }

  /** Python's `==` on hashable values: numbers compare by value, whatever their type. */
  predicate SameKey(a: Value, b: Value) {
    if a.IsNumber() && b.IsNumber() then a.Number() == b.Number() else a == b
  }

  type Config = map<string, Value>

  /** `config.get(key, default)` */
  function Lookup(config: Config, key: string, default: Value): Value {
    if key in config then config[key] else default
  }

  function Abs(x: real): real {
    if x < 0.0 then -x else x
  }

  // ---------------------------------------------------------------------------
  // ConfigValidator
  // ---------------------------------------------------------------------------

  datatype ConfigError =
    | MissingKeys(keys: seq<string>)
    | EmptyWeights
    | MissingWeight(name: string)
    | WeightNotNumber(name: string)
    | WeightOutOfRange(name: string)
    | WeightSumOff
    | EmptyPlatforms
    | PlatformsNotList
    | PlatformNotDict(position: nat)
    | PlatformMissingId(position: nat)
    | DuplicatePlatformId(id: Value)
    | NoReportMode
    | BadReportMode(mode: Value)
    | BadWebhook(key: string)
      /** Python raises a `TypeError` or `AttributeError` before the check can fail. */
    | TypeFailure

  const RequiredKeys: seq<string> := ["WEIGHT_CONFIG", "PLATFORMS", "REPORT_MODE"]
  const WeightNames: seq<string> := ["RANK_WEIGHT", "FREQUENCY_WEIGHT", "HOTNESS_WEIGHT"]
  const ReportModes: seq<string> := ["daily", "incremental", "current"]
  const WebhookKeys: seq<string> := ["FEISHU_WEBHOOK_URL", "DINGTALK_WEBHOOK_URL", "WEWORK_WEBHOOK_URL"]

  /** The required keys absent from `config`, in the order they are required. */
  function MissingKeysOf(config: Config): (r: seq<string>)
    ensures forall k :: k in r <==> k in RequiredKeys && k !in config
  {
    FilterSeq(RequiredKeys, (k: string) => k !in config)
  }

  /** `_check_required_keys` */
  function KeysError(config: Config): Option<ConfigError> {
    var missing := MissingKeysOf(config);
    if |missing| > 0 then Some(MissingKeys(missing)) else None
  }

  /** `_check_required_keys`, as the loop that collects the missing keys. */
  method CheckRequiredKeys(config: Config) returns (err: Option<ConfigError>)
    ensures err == KeysError(config)
  {
    ghost var absent := (k: string) => k !in config;
    var missing: seq<string> := [];
    var i := 0;
    while i < |RequiredKeys|
      invariant 0 <= i <= |RequiredKeys|
      invariant missing == FilterSeq(RequiredKeys[..i], absent)
    {
      var key := RequiredKeys[i];
      assert RequiredKeys[..i + 1] == RequiredKeys[..i] + [key];
      FilterSeqSnoc(RequiredKeys[..i], key, absent);
      if key !in config {
        missing := missing + [key];
      }
      i := i + 1;
    }
    assert RequiredKeys[..i] == RequiredKeys;
    err := if |missing| > 0 then Some(MissingKeys(missing)) else None;
  }

  /** The required-keys check passes iff every required key is present. */
  lemma KeysErrorIff(config: Config)
    ensures KeysError(config).None? <==> forall k :: k in RequiredKeys ==> k in config
    ensures KeysError(config).Some? ==> KeysError(config).value.keys == MissingKeysOf(config)
  {
    if forall k :: k in RequiredKeys ==> k in config {
      FilterSeqNone(RequiredKeys, (k: string) => k !in config);
    }
  }

  /** `weight_name in weight_config` for a truthy container; `None` when `in` raises. */
  function HasName(wc: Value, name: string): Option<bool> {
    match wc
    case Obj(fields) => Some(name in fields)
    case List(items) => Some(Str(name) in items)
    case Str(s) => Some(Contains(s, name))
    case _ => None
  }

  /** A weight that passes: present in a dict, a number, within [0, 1]. */
  predicate WeightOk(wc: Value, name: string) {
    && wc.Obj? && name in wc.fields
    && wc.fields[name].IsNumber()
    && 0.0 <= wc.fields[name].Number() <= 1.0
  }

  /** The per-weight checks of `_validate_weights`, in order: the first failing weight decides. */
  function WeightNamesError(wc: Value, names: seq<string>): (r: Option<ConfigError>)
    ensures r.None? <==> forall i :: 0 <= i < |names| ==> WeightOk(wc, names[i])
    decreases |names|
  {
    if |names| == 0 then None
    else
      var name := names[0];
      match HasName(wc, name)
      case None => Some(TypeFailure)
      case Some(present) =>
        if !present then Some(MissingWeight(name))
        else if !wc.Obj? then Some(TypeFailure)
        else if !wc.fields[name].IsNumber() then Some(WeightNotNumber(name))
        else if !(0.0 <= wc.fields[name].Number() <= 1.0) then Some(WeightOutOfRange(name))
        else
          var rest := WeightNamesError(wc, names[1..]);
          assert forall i :: 1 <= i < |names| ==> names[i] == names[1..][i - 1];
          rest
  }

  function WeightSum(wc: Value): real
    requires WeightOk(wc, "RANK_WEIGHT") && WeightOk(wc, "FREQUENCY_WEIGHT") && WeightOk(wc, "HOTNESS_WEIGHT")
  {
    wc.fields["RANK_WEIGHT"].Number() + wc.fields["FREQUENCY_WEIGHT"].Number() + wc.fields["HOTNESS_WEIGHT"].Number()
  }

  /** `_validate_weights` */
  function WeightsError(config: Config): Option<ConfigError> {
    var wc := Lookup(config, "WEIGHT_CONFIG", Obj(map[]));
    if !wc.Truthy() then Some(EmptyWeights)
    else
      var e := WeightNamesError(wc, WeightNames);
      if e.Some? then e
      else
        assert WeightOk(wc, WeightNames[0]) && WeightOk(wc, WeightNames[1]) && WeightOk(wc, WeightNames[2]);
        if Abs(WeightSum(wc) - 1.0) > 0.01 then Some(WeightSumOff) else None
  }

  /** The weights as the check wants them. */
  predicate WeightsAccepted(config: Config) {
    && "WEIGHT_CONFIG" in config
    && var wc := config["WEIGHT_CONFIG"];
    && WeightOk(wc, "RANK_WEIGHT") && WeightOk(wc, "FREQUENCY_WEIGHT") && WeightOk(wc, "HOTNESS_WEIGHT")
    && Abs(WeightSum(wc) - 1.0) <= 0.01
  }

  /** The weights pass iff all three are numbers in [0, 1] in a dict and they sum to 1 within 0.01. */
  lemma WeightsErrorIff(config: Config)
    ensures WeightsError(config).None? <==> WeightsAccepted(config)
  {
    var wc := Lookup(config, "WEIGHT_CONFIG", Obj(map[]));
    if WeightsAccepted(config) {
      assert "RANK_WEIGHT" in wc.fields;
      assert wc.Truthy();
      assert forall i :: 0 <= i < |WeightNames| ==> WeightOk(wc, WeightNames[i]);
    }
  }

  /** The ids of the platforms of `ps` that have one, in order. */
  function IdsOf(ps: seq<Value>): seq<Value>
    decreases |ps|
  {
    if |ps| == 0 then []
    else
      var p := ps[|ps| - 1];
      IdsOf(ps[..|ps| - 1]) + (if p.Obj? && "id" in p.fields then [p.fields["id"]] else [])
  }

  /** `id in platform_ids` under Python's equality. */
  function Seen(ids: seq<Value>, id: Value): (r: bool)
    ensures r <==> exists j :: 0 <= j < |ids| && SameKey(ids[j], id)
    decreases |ids|
  {
    if |ids| == 0 then false
    else if SameKey(ids[|ids| - 1], id) then true
    else
      var r := Seen(ids[..|ids| - 1], id);
      assert forall j :: 0 <= j < |ids| - 1 ==> ids[..|ids| - 1][j] == ids[j];
      r
  }

  /** The loop of `_validate_platforms` over the entries: the first bad entry decides. */
  function PlatformItemsError(ps: seq<Value>): Option<ConfigError>
    decreases |ps|
  {
    if |ps| == 0 then None
    else
      var n := |ps| - 1;
      var e := PlatformItemsError(ps[..n]);
      if e.Some? then e else PlatformError(ps[n], n + 1, IdsOf(ps[..n]))
  }

  /** The check of the `number`-th entry, given the ids of the entries before it. */
  function PlatformError(p: Value, number: nat, ids: seq<Value>): Option<ConfigError> {
    if !p.Obj? then Some(PlatformNotDict(number))
    else if "id" !in p.fields then Some(PlatformMissingId(number))
    else if !p.fields["id"].Hashable() then Some(TypeFailure)
    else if Seen(ids, p.fields["id"]) then Some(DuplicatePlatformId(p.fields["id"]))
    else None
  }

  /** `_validate_platforms` */
  function PlatformsError(config: Config): Option<ConfigError> {
    var ps := Lookup(config, "PLATFORMS", List([]));
    if !ps.Truthy() then Some(EmptyPlatforms)
    else if !ps.List? then Some(PlatformsNotList)
    else PlatformItemsError(ps.items)
  }

  /** Every entry is a dict with a hashable id. */
  predicate EntriesHaveIds(ps: seq<Value>) {
    forall i :: 0 <= i < |ps| ==> ps[i].Obj? && "id" in ps[i].fields && ps[i].fields["id"].Hashable()
  }

  /** No two entries have equal ids. */
  predicate IdsDistinct(ps: seq<Value>)
    requires EntriesHaveIds(ps)
  {
    forall i, j :: 0 <= i < j < |ps| ==> !SameKey(ps[i].fields["id"], ps[j].fields["id"])
  }

  lemma {:induction false} IdsOfAll(ps: seq<Value>)
    requires EntriesHaveIds(ps)
    ensures |IdsOf(ps)| == |ps|
    ensures forall i :: 0 <= i < |ps| ==> IdsOf(ps)[i] == ps[i].fields["id"]
    decreases |ps|
  {
    if |ps| > 0 {
      IdsOfAll(ps[..|ps| - 1]);
    }
  }

  lemma PlatformItemsPass(ps: seq<Value>)
    requires PlatformItemsError(ps).None?
    ensures EntriesHaveIds(ps) && IdsDistinct(ps)
  {
    PassHasIds(ps);
    PassDistinct(ps);
  }

  /** Entries that pass are dicts with hashable ids. */
  lemma {:induction false} PassHasIds(ps: seq<Value>)
    requires PlatformItemsError(ps).None?
    ensures EntriesHaveIds(ps)
    decreases |ps|
  {
    if |ps| > 0 {
      var n := |ps| - 1;
      var front := ps[..n];
      PassHasIds(front);
      assert PlatformError(ps[n], n + 1, IdsOf(front)) == None;
      forall i | 0 <= i < |ps|
        ensures ps[i].Obj? && "id" in ps[i].fields && ps[i].fields["id"].Hashable()
      {
        if i < n {
          assert front[i] == ps[i];
        }
      }
    }
  }

  /** Entries that pass have pairwise distinct ids. */
  lemma PassDistinct(ps: seq<Value>)
    requires PlatformItemsError(ps).None? && EntriesHaveIds(ps)
    ensures IdsDistinct(ps)
  {
    forall i, j | 0 <= i < j < |ps|
      ensures !SameKey(ps[i].fields["id"], ps[j].fields["id"])
    {
      PassDistinctAt(ps, i, j);
    }
  }

  /** The front of entries that all have ids has ids too. */
  lemma HaveIdsPrefix(ps: seq<Value>, n: nat)
    requires n <= |ps| && EntriesHaveIds(ps)
    ensures EntriesHaveIds(ps[..n])
  {
    forall i | 0 <= i < n
      ensures ps[..n][i].Obj? && "id" in ps[..n][i].fields && ps[..n][i].fields["id"].Hashable()
    {
      assert ps[..n][i] == ps[i];
    }
  }

  /** Two entries of a list that passes have different ids: the later one's check saw the earlier id. */
  lemma PassDistinctAt(ps: seq<Value>, i: nat, j: nat)
    requires PlatformItemsError(ps).None? && EntriesHaveIds(ps) && i < j < |ps|
    ensures !SameKey(ps[i].fields["id"], ps[j].fields["id"])
  {
    var ids := IdsOf(ps[..j]);
    var id := ps[j].fields["id"];
    assert !Seen(ids, id) by {
      PassedAt(ps, j);
      PassedNotSeen(ps[j], j + 1, ids);
    }
    assert i < |ids| && ids[i] == ps[i].fields["id"] by {
      HaveIdsPrefix(ps, j);
      IdsOfAll(ps[..j]);
    }
    NotSeenAt(ids, id, i);
  }

  /** The check of each entry of a list that passes found nothing wrong. */
  lemma PassedAt(ps: seq<Value>, j: nat)
    requires PlatformItemsError(ps).None? && j < |ps|
    ensures PlatformError(ps[j], j + 1, IdsOf(ps[..j])) == None
  {
    PrefixPasses(ps, j);
    PrefixPasses(ps, j + 1);
    PlatformStep(ps, j);
  }

  /** An entry that passes its check has an id not seen before. */
  lemma PassedNotSeen(p: Value, number: nat, ids: seq<Value>)
    requires PlatformError(p, number, ids) == None
    ensures p.Obj? && "id" in p.fields && !Seen(ids, p.fields["id"])
  {
  }

  /** Every prefix of entries that pass passes. */
  lemma PrefixPasses(ps: seq<Value>, k: nat)
    requires k <= |ps| && PlatformItemsError(ps).None?
    ensures PlatformItemsError(ps[..k]).None?
  {
    if PlatformItemsError(ps[..k]).Some? {
      PlatformItemsErrorSticks(ps, k);
    }
  }

  /** An id not seen among `ids` equals none of them. */
  lemma NotSeenAt(ids: seq<Value>, id: Value, i: nat)
    requires i < |ids| && !Seen(ids, id)
    ensures !SameKey(ids[i], id)
  {
  }

  lemma {:induction false} PlatformItemsAccepted(ps: seq<Value>)
    requires EntriesHaveIds(ps) && IdsDistinct(ps)
    ensures PlatformItemsError(ps).None?
    decreases |ps|
  {
    if |ps| > 0 {
      var n := |ps| - 1;
      var front := ps[..n];
      assert EntriesHaveIds(front) by {
        forall i | 0 <= i < n
          ensures front[i].Obj? && "id" in front[i].fields && front[i].fields["id"].Hashable()
        {
          assert front[i] == ps[i];
        }
      }
      assert IdsDistinct(front) by {
        forall i, j | 0 <= i < j < n
          ensures !SameKey(front[i].fields["id"], front[j].fields["id"])
        {
          assert front[i] == ps[i] && front[j] == ps[j];
        }
      }
      PlatformItemsAccepted(front);
      IdsOfAll(front);
      var id := ps[n].fields["id"];
      forall j | 0 <= j < |IdsOf(front)|
        ensures !SameKey(IdsOf(front)[j], id)
      {
        assert IdsOf(front)[j] == ps[j].fields["id"];
      }
      assert !Seen(IdsOf(front), id);
    }
  }

  /** The entries pass iff each is a dict with a hashable id and the ids are pairwise distinct. */
  lemma PlatformItemsErrorIff(ps: seq<Value>)
    ensures PlatformItemsError(ps).None? <==> EntriesHaveIds(ps) && IdsDistinct(ps)
  {
    if PlatformItemsError(ps).None? {
      PlatformItemsPass(ps);
    }
    if EntriesHaveIds(ps) && IdsDistinct(ps) {
      PlatformItemsAccepted(ps);
    }
  }

  /** Once a prefix of the entries fails, the whole list fails the same way. */
  lemma {:induction false} PlatformItemsErrorSticks(ps: seq<Value>, k: nat)
    requires k <= |ps| && PlatformItemsError(ps[..k]).Some?
    ensures PlatformItemsError(ps) == PlatformItemsError(ps[..k])
    decreases |ps| - k
  {
    if k < |ps| {
      assert ps[..k + 1][..k] == ps[..k];
      PlatformItemsErrorSticks(ps, k + 1);
    } else {
      assert ps[..k] == ps;
    }
  }

  /** The platforms as the check wants them. */
  predicate PlatformsAccepted(config: Config) {
    && "PLATFORMS" in config
    && config["PLATFORMS"].List? && |config["PLATFORMS"].items| > 0
    && EntriesHaveIds(config["PLATFORMS"].items)
    && IdsDistinct(config["PLATFORMS"].items)
  }

  /** The platforms pass iff they are a non-empty list of dicts with pairwise distinct ids. */
  lemma PlatformsErrorIff(config: Config)
    ensures PlatformsError(config).None? <==> PlatformsAccepted(config)
  {
    var ps := Lookup(config, "PLATFORMS", List([]));
    if ps.List? {
      PlatformItemsErrorIff(ps.items);
    }
  }

  /** One entry more after entries that passed: the entry's own check against the ids so far. */
  lemma PlatformStep(ps: seq<Value>, i: nat)
    requires i < |ps| && PlatformItemsError(ps[..i]) == None
    ensures PlatformItemsError(ps[..i + 1]) == PlatformError(ps[i], i + 1, IdsOf(ps[..i]))
    ensures var p := ps[i];
      IdsOf(ps[..i + 1]) == IdsOf(ps[..i]) + (if p.Obj? && "id" in p.fields then [p.fields["id"]] else [])
  {
    assert ps[..i + 1][..i] == ps[..i] && ps[..i + 1][i] == ps[i];
  }

  /** The body of the loop over the entries: a dict with a hashable id not seen before passes. */
  method CheckPlatform(platform: Value, number: nat, platformIds: seq<Value>) returns (bad: Option<ConfigError>)
    ensures bad == PlatformError(platform, number, platformIds)
  {
    bad := None;
    if !platform.Obj? {
      bad := Some(PlatformNotDict(number));
    } else if "id" !in platform.fields {
      bad := Some(PlatformMissingId(number));
    } else {
      var id := platform.fields["id"];
      if !id.Hashable() {
        bad := Some(TypeFailure);
      } else if Seen(platformIds, id) {
        bad := Some(DuplicatePlatformId(id));
      }
    }
  }

  /** `_validate_platforms`, as the loop that grows the set of ids seen. */
  method ValidatePlatforms(config: Config) returns (err: Option<ConfigError>)
    ensures err == PlatformsError(config)
  {
    var platforms := Lookup(config, "PLATFORMS", List([]));
    if !platforms.Truthy() {
      return Some(EmptyPlatforms);
    }
    if !platforms.List? {
      return Some(PlatformsNotList);
    }
    var ps := platforms.items;
    var platformIds: seq<Value> := [];
    var i := 0;
    while i < |ps|
      invariant 0 <= i <= |ps|
      invariant PlatformItemsError(ps[..i]) == None
      invariant platformIds == IdsOf(ps[..i])
    {
      var platform := ps[i];
      PlatformStep(ps, i);
      var bad := CheckPlatform(platform, i + 1, platformIds);
      if bad.Some? {
        PlatformItemsErrorSticks(ps, i + 1);
        return bad;
      }
      platformIds := platformIds + [platform.fields["id"]];
      i := i + 1;
    }
    assert ps[..i] == ps;
    err := None;
  }

  /** `_validate_report_mode` */
  function ModeError(config: Config): (r: Option<ConfigError>)
    ensures r.None? <==> exists m :: m in ReportModes && Lookup(config, "REPORT_MODE", Null) == Str(m)
  {
    var mode := Lookup(config, "REPORT_MODE", Null);
    if !mode.Truthy() then Some(NoReportMode)
    else if !(mode.Str? && mode.s in ReportModes) then Some(BadReportMode(mode))
    else None
  }

  /** A webhook setting that passes: absent, empty, or an http(s) URL. */
  predicate WebhookOk(config: Config, key: string) {
    var url := Lookup(config, key, Str(""));
    !url.Truthy() || (url.Str? && (StartsWith(url.s, "http://") || StartsWith(url.s, "https://")))
  }

  /** The loop of `_validate_webhooks`: the first bad setting decides. */
  function WebhooksError(config: Config, keys: seq<string>): (r: Option<ConfigError>)
    ensures r.None? <==> forall i :: 0 <= i < |keys| ==> WebhookOk(config, keys[i])
    decreases |keys|
  {
    if |keys| == 0 then None
    else
      var key := keys[0];
      var url := Lookup(config, key, Str(""));
      if url.Truthy() && !url.Str? then Some(TypeFailure)
      else if url.Truthy() && !(StartsWith(url.s, "http://") || StartsWith(url.s, "https://")) then Some(BadWebhook(key))
      else
        var rest := WebhooksError(config, keys[1..]);
        assert forall i :: 1 <= i < |keys| ==> keys[i] == keys[1..][i - 1];
        rest
  }

  /** `validate`: the checks run in a fixed order and the first failure is reported. */
  function ConfigErrorOf(config: Config): Option<ConfigError> {
    if KeysError(config).Some? then KeysError(config)
    else if WeightsError(config).Some? then WeightsError(config)
    else if PlatformsError(config).Some? then PlatformsError(config)
    else if ModeError(config).Some? then ModeError(config)
    else WebhooksError(config, WebhookKeys)
  }

  /** Everything `validate` demands of a configuration. */
  predicate ConfigAccepted(config: Config) {
    && (forall k :: k in RequiredKeys ==> k in config)
    && WeightsAccepted(config)
    && PlatformsAccepted(config)
    && (exists m :: m in ReportModes && Lookup(config, "REPORT_MODE", Null) == Str(m))
    && (forall k :: k in WebhookKeys ==> WebhookOk(config, k))
  }

  /** `validate` passes iff the configuration meets every demand. */
  lemma ValidateIff(config: Config)
    ensures ConfigErrorOf(config).None? <==> ConfigAccepted(config)
  {
    KeysErrorIff(config);
    WeightsErrorIff(config);
    PlatformsErrorIff(config);
    var w := WebhooksError(config, WebhookKeys);
    assert w.None? <==> forall k :: k in WebhookKeys ==> WebhookOk(config, k) by {
      assert forall k :: k in WebhookKeys <==> exists i :: 0 <= i < |WebhookKeys| && WebhookKeys[i] == k;
    }
  }

  /** A missing key is reported, listing every missing key in order, whatever else is wrong. */
  lemma MissingKeysFirst(config: Config)
    requires exists k :: k in RequiredKeys && k !in config
    ensures ConfigErrorOf(config) == Some(MissingKeys(MissingKeysOf(config)))
  {
    KeysErrorIff(config);
  }

  /** With the keys present, a weight problem is reported before any platform, mode or webhook problem. */
  lemma WeightsBeforeTheRest(config: Config)
    requires forall k :: k in RequiredKeys ==> k in config
    requires !WeightsAccepted(config)
    ensures ConfigErrorOf(config) == WeightsError(config)
  {
    KeysErrorIff(config);
    WeightsErrorIff(config);
  }

  /** `validate`, as the sequence of checks that raise. */
  method Validate(config: Config) returns (err: Option<ConfigError>)
    ensures err == ConfigErrorOf(config)
    ensures err.None? <==> ConfigAccepted(config)
  {
    ValidateIff(config);
    err := CheckRequiredKeys(config);
    if err.Some? {
      return;
    }
    err := WeightsError(config);
    if err.Some? {
      return;
    }
    err := ValidatePlatforms(config);
    if err.Some? {
      return;
    }
    err := ModeError(config);
    if err.Some? {
      return;
    }
    err := WebhooksError(config, WebhookKeys);
  }

  // ---------------------------------------------------------------------------
  // DataValidator: the URL pattern of `_is_valid_url`
  // ---------------------------------------------------------------------------

  predicate AsciiLetter(c: char) {
    'a' <= c <= 'z' || 'A' <= c <= 'Z'
  }

  predicate AsciiAlnum(c: char) {
    AsciiLetter(c) || IsDigit(c)
  }

  /** The characters a host name of the pattern can hold. */
  predicate HostChar(c: char) {
    AsciiAlnum(c) || c == '.' || c == '-'
  }

  /** The longest prefix of `s` whose characters all satisfy `p`. */
  function TakeWhile(s: string, p: char -> bool): (r: string)
    ensures |r| <= |s|
    ensures forall i :: 0 <= i < |r| ==> r[i] == s[i] && p(s[i])
    ensures |r| < |s| ==> !p(s[|r|])
    decreases |s|
  {
    if |s| > 0 && p(s[0]) then [s[0]] + TakeWhile(s[1..], p) else []
  }

  /** One dotted label of a domain: 1 to 63 letters, digits or hyphens, not starting or ending with a hyphen. */
  predicate IsLabel(l: string) {
    && 1 <= |l| <= 63
    && AsciiAlnum(l[0]) && AsciiAlnum(l[|l| - 1])
    && forall i :: 0 <= i < |l| ==> AsciiAlnum(l[i]) || l[i] == '-'
  }

  /** A top-level domain: 2 to 6 letters. */
  predicate IsTld(t: string) {
    2 <= |t| <= 6 && forall i :: 0 <= i < |t| ==> AsciiLetter(t[i])
  }

  /** `(?:label\.)+tld\.?` over the whole host. */
  predicate IsDomain(h: string) {
    var core := if |h| > 0 && h[|h| - 1] == '.' then h[..|h| - 1] else h;
    var parts := Split(core, ".");
    && |parts| >= 2
    && IsTld(parts[|parts| - 1])
    && forall i :: 0 <= i < |parts| - 1 ==> IsLabel(parts[i])
  }

  /** Four dot-separated groups of one to three digits. */
  predicate IsIPv4(h: string) {
    var parts := Split(h, ".");
    |parts| == 4 && forall i :: 0 <= i < 4 ==> 1 <= |parts[i]| <= 3 && IsDigits(parts[i])
  }

  /** The length of a case-insensitive "http://" or "https://" at the start. */
  function SchemeLength(u: string): (r: Option<nat>)
    ensures r.Some? ==> r.value <= |u|
  {
    if |u| >= 7 && Lower(u[..7]) == "http://" then Some(7)
    else if |u| >= 8 && Lower(u[..8]) == "https://" then Some(8)
    else None
  }

  /** `(?:/?|[/?]\S+)` over the whole rest. */
  predicate TailOk(t: string) {
    || t == "" || t == "/"
    || (|t| >= 2 && (t[0] == '/' || t[0] == '?') && forall i :: 1 <= i < |t| ==> !IsSpace(t[i]))
  }

  /** An optional `:port` and then the tail. */
  predicate PortAndTailOk(r: string) {
    if |r| > 0 && r[0] == ':' then
      var digits := TakeWhile(r[1..], IsDigit);
      |digits| > 0 && TailOk(r[1 + |digits|..])
    else TailOk(r)
  }

  /**
   * The whole of `u` matches the pattern. A host can only hold letters,
   * digits, dots and hyphens and what follows it starts with ':', '/', '?'
   * or ends the text, so the host is the longest run of those characters.
   */
  predicate FullMatch(u: string) {
    match SchemeLength(u)
    case None => false
    case Some(n) =>
      var rest := u[n..];
      var host := TakeWhile(rest, HostChar);
      && (IsDomain(host) || Lower(host) == "localhost" || IsIPv4(host))
      && PortAndTailOk(rest[|host|..])
  }

  /** `_is_valid_url`: `$` also matches before one final line break. */
  predicate IsValidUrl(u: string) {
    && u != ""
    && FullMatch(if |u| > 0 && u[|u| - 1] == '\n' then u[..|u| - 1] else u)
  }

  lemma LowerKeepsSpaces(s: string)
    ensures |Lower(s)| == |s|
    ensures forall i :: 0 <= i < |s| ==> (IsSpace(Lower(s)[i]) <==> IsSpace(s[i]))
  {
  }

  /** What follows the host of a match holds no whitespace. */
  lemma PortAndTailHasNoSpace(r: string)
    requires PortAndTailOk(r)
    ensures forall i :: 0 <= i < |r| ==> !IsSpace(r[i])
  {
    if |r| > 0 && r[0] == ':' {
      var digits := TakeWhile(r[1..], IsDigit);
      var tail := r[1 + |digits|..];
      forall i | 0 <= i < |r|
        ensures !IsSpace(r[i])
      {
        if 1 <= i < 1 + |digits| {
          assert r[i] == digits[i - 1];
        } else if i >= 1 + |digits| {
          assert r[i] == tail[i - 1 - |digits|];
        }
      }
    }
  }

  /** A full match holds no whitespace. */
  lemma FullMatchHasNoSpace(v: string)
    requires FullMatch(v)
    ensures forall i :: 0 <= i < |v| ==> !IsSpace(v[i])
  {
    var n := SchemeLength(v).value;
    LowerKeepsSpaces(v[..n]);
    var rest := v[n..];
    var host := TakeWhile(rest, HostChar);
    var after := rest[|host|..];
    PortAndTailHasNoSpace(after);
    forall i | 0 <= i < |v|
      ensures !IsSpace(v[i])
    {
      if i < n {
        assert v[i] == v[..n][i];
        assert Lower(v[..n]) == "http://" || Lower(v[..n]) == "https://";
      } else if i < n + |host| {
        assert v[i] == rest[i - n];
      } else {
        assert v[i] == after[i - n - |host|];
      }
    }
  }

  /** An accepted URL holds no whitespace, except possibly one final line break. */
  lemma ValidUrlHasNoSpace(u: string)
    requires IsValidUrl(u)
    ensures forall i :: 0 <= i < |u| - 1 ==> !IsSpace(u[i])
    ensures IsSpace(u[|u| - 1]) ==> u[|u| - 1] == '\n'
  {
    var v := if u[|u| - 1] == '\n' then u[..|u| - 1] else u;
    FullMatchHasNoSpace(v);
    assert forall i :: 0 <= i < |v| ==> u[i] == v[i];
  }

  lemma {:induction false} TakeWhileOf(a: string, b: string, p: char -> bool)
    requires forall i :: 0 <= i < |a| ==> p(a[i])
    requires b == [] || !p(b[0])
    ensures TakeWhile(a + b, p) == a
    decreases |a|
  {
    if |a| == 0 {
      assert a + b == b;
    } else {
      assert (a + b)[0] == a[0] && (a + b)[1..] == a[1..] + b;
      TakeWhileOf(a[1..], b, p);
    }
  }

  /** A URL is accepted when its scheme, host and rest each pass. */
  lemma AcceptedByParts(u: string, n: nat, host: string, after: string)
    requires |u| > 0 && u[|u| - 1] != '\n'
    requires SchemeLength(u) == Some(n) && u[n..] == host + after
    requires TakeWhile(host + after, HostChar) == host
    requires IsDomain(host) || Lower(host) == "localhost" || IsIPv4(host)
    requires PortAndTailOk(after)
    ensures IsValidUrl(u)
  {
    assert (host + after)[|host|..] == after;
  }

  lemma HttpsScheme(u: string)
    requires |u| >= 8 && Lower(u[..8]) == "https://"
    ensures SchemeLength(u) == Some(8)
  {
    assert Lower(u[..7])[4] == Lower(u[..8])[4] == 's' != "http://"[4];
  }

  lemma HttpScheme(u: string)
    requires |u| >= 7 && Lower(u[..7]) == "http://"
    ensures SchemeLength(u) == Some(7)
  {
  }

  /** Accepted: localhost with a port, in capitals. */
  lemma LocalhostUrlAccepted()
    ensures IsValidUrl("HTTP://localhost:8080")
  {
    var l := "HTTP://localhost:8080";
    LocalhostScheme(l);
    LocalhostHost();
    PortExample();
    AcceptedByParts(l, 7, "localhost", ":8080");
  }

  lemma LocalhostScheme(l: string)
    requires l == "HTTP://localhost:8080"
    ensures SchemeLength(l) == Some(7) && l[7..] == "localhost" + ":8080"
  {
    assert Lower(l[..7]) == "http://" by {
      assert forall i :: 0 <= i < 7 ==> Lower(l[..7])[i] == "http://"[i];
    }
  }

  lemma LocalhostHost()
    ensures TakeWhile("localhost" + ":8080", HostChar) == "localhost"
    ensures Lower("localhost") == "localhost"
  {
    TakeWhileOf("localhost", ":8080", HostChar);
  }

  lemma PortExample()
    ensures PortAndTailOk(":8080")
  {
    assert ":8080"[1..] == "8080" + "";
    TakeWhileOf("8080", "", IsDigit);
    assert ":8080"[5..] == "";
  }

  /** Refused: another scheme. */
  lemma FtpUrlRefused()
    ensures !IsValidUrl("ftp://example.com")
  {
    var f := "ftp://example.com";
    assert Lower(f[..7])[0] == 'f' && Lower(f[..8])[0] == 'f';
  }

  /** Refused: a space in the path. */
  lemma SpacedUrlRefused()
    ensures !IsValidUrl("http://example.com/a b")
  {
    ValidUrlSpaceRefused("http://example.com/a b", 20);
  }

  /** An accepted URL starts with "http://" or "https://", in any case. */
  lemma ValidUrlHasScheme(u: string)
    requires IsValidUrl(u)
    ensures (|u| >= 7 && Lower(u[..7]) == "http://") || (|u| >= 8 && Lower(u[..8]) == "https://")
  {
    var v := if u[|u| - 1] == '\n' then u[..|u| - 1] else u;
    assert FullMatch(v);
    if SchemeLength(v) == Some(7) {
      assert v[..7] == u[..7];
    } else {
      assert v[..8] == u[..8];
    }
  }

  /** A URL with whitespace before its last character is refused. */
  lemma ValidUrlSpaceRefused(u: string, i: nat)
    requires i < |u| - 1 && IsSpace(u[i])
    ensures !IsValidUrl(u)
  {
    if IsValidUrl(u) {
      ValidUrlHasNoSpace(u);
    }
  }

  // ---------------------------------------------------------------------------
  // DataValidator: items
  // ---------------------------------------------------------------------------

  type NewsItem = map<string, Value>

  /** The outcome of `validate_news_item` for one item. */
  datatype Verdict = Accepted | Rejected | Raises

  /** `len(v)`; `None` where Python raises. */
  function Len(v: Value): Option<nat> {
    match v
    case Str(s) => Some(|s|)
    case List(items) => Some(|items|)
    case Obj(fields) => Some(|fields|)
    case _ => None
  }

  /** `field in item and item[field]` */
  predicate Present(item: NewsItem, field: string) {
    field in item && item[field].Truthy()
  }

  /** `validate_news_item` */
  function ItemVerdict(item: NewsItem): (r: Verdict)
    ensures r == Accepted <==>
      && Present(item, "title") && Present(item, "url")
      && Len(item["title"]).Some? && Len(item["title"]).value <= 500
      && item["url"].Str? && IsValidUrl(item["url"].s)
    ensures r == Raises <==>
      && Present(item, "title") && Present(item, "url")
      && (Len(item["title"]).None? || (Len(item["title"]).value <= 500 && !item["url"].Str?))
  {
    if !Present(item, "title") || !Present(item, "url") then Rejected
    else
      match Len(item["title"])
      case None => Raises
      case Some(n) =>
        if n > 500 then Rejected
        else if !item["url"].Str? then Raises
        else if IsValidUrl(item["url"].s) then Accepted
        else Rejected
  }

  /** `" ".join(s.split())` */
  function NormaliseSpaces(s: string): string {
    Join(Words(s), " ")
  }

  lemma {:induction false} JoinClean(ws: seq<string>)
    requires forall i :: 0 <= i < |ws| ==> IsWord(ws[i])
    ensures IsClean(Join(ws, " "))
    decreases |ws|
  {
    if |ws| > 1 {
      JoinClean(ws[1..]);
      var w, rest := ws[0], Join(ws[1..], " ");
      var t := w + " " + rest;
      assert rest[0] == ws[1][0];
      forall i | 0 <= i < |t| && IsSpace(t[i])
        ensures t[i] == ' '
      {
        if i > |w| {
          assert t[i] == rest[i - |w| - 1];
        }
      }
      forall i | 0 <= i < |t| - 1
        ensures !(t[i] == ' ' && t[i + 1] == ' ')
      {
        if i > |w| {
          assert t[i] == rest[i - |w| - 1] && t[i + 1] == rest[i - |w|];
        } else if i == |w| {
          assert t[i + 1] == rest[0];
        }
      }
      assert t[|t| - 1] == rest[|rest| - 1];
    }
  }

  /**
   * The normalised text has the same words as the input, is single-spaced
   * with no space at either end, and normalising again changes nothing.
   */
  lemma NormaliseSpacesMeans(s: string)
    ensures Words(NormaliseSpaces(s)) == Words(s)
    ensures IsClean(NormaliseSpaces(s))
    ensures NormaliseSpaces(NormaliseSpaces(s)) == NormaliseSpaces(s)
  {
    WordsAreWords(s);
    WordsOfJoin(Words(s));
    JoinClean(Words(s));
  }

  /** The item cleaner's whitespace collapse agrees with `clean_title`. */
  lemma NormaliseSpacesIsCleanTitle(s: string)
    ensures NormaliseSpaces(s) == CleanTitle(s)
  {
    CleanTitleIsJoin(s);
  }

  /** A title longer than 200 characters becomes its first 197 and "...". */
  function Shorten(t: string): (r: string)
    ensures |r| <= 200
    ensures |t| <= 200 ==> r == t
    ensures |t| > 200 ==> |r| == 200 && r[..197] == t[..197] && r[197..] == "..."
  {
    if |t| > 200 then t[..197] + "..." else t
  }

  /** `_clean_news_item` */
  function CleanNewsItem(item: NewsItem): (r: NewsItem)
    ensures r.Keys == item.Keys
    ensures forall k :: k in item && k != "title" && k != "url" ==> r[k] == item[k]
    ensures "title" in item && item["title"].Str? ==> r["title"] == Str(Shorten(NormaliseSpaces(item["title"].s)))
    ensures "url" in item && item["url"].Str? ==> r["url"] == Str(Strip(item["url"].s))
  {
    var titled := if "title" in item && item["title"].Str? then item["title" := Str(Shorten(NormaliseSpaces(item["title"].s)))] else item;
    if "url" in titled && titled["url"].Str? then titled["url" := Str(Strip(titled["url"].s))] else titled
  }

  /**
   * A cleaned string title is at most 200 characters; a short one keeps
   * exactly the words of the original, single-spaced and trimmed.
   */
  lemma CleanedTitle(item: NewsItem)
    requires "title" in item && item["title"].Str?
    ensures var t := CleanNewsItem(item)["title"];
      && t.Str? && |t.s| <= 200
      && (|NormaliseSpaces(item["title"].s)| <= 200 ==> Words(t.s) == Words(item["title"].s) && IsClean(t.s))
  {
    NormaliseSpacesMeans(item["title"].s);
  }

  /** `validate_and_clean` when no item raises: the cleaned accepted items, in order. */
  function Cleaned(items: seq<NewsItem>): seq<NewsItem>
    decreases |items|
  {
    if |items| == 0 then []
    else
      var x := items[|items| - 1];
      Cleaned(items[..|items| - 1]) + (if ItemVerdict(x) == Accepted then [CleanNewsItem(x)] else [])
  }

  /** The number of rejected items. */
  function RejectedCount(items: seq<NewsItem>): nat
    decreases |items|
  {
    if |items| == 0 then 0
    else RejectedCount(items[..|items| - 1]) + (if ItemVerdict(items[|items| - 1]) == Rejected then 1 else 0)
  }

  /** Some item's check raises. */
  predicate SomeRaises(items: seq<NewsItem>)
    decreases |items|
  {
    |items| > 0 && (SomeRaises(items[..|items| - 1]) || ItemVerdict(items[|items| - 1]) == Raises)
  }

  /** Some item raises iff there is an index whose item raises. */
  lemma SomeRaisesMeans(items: seq<NewsItem>)
    ensures SomeRaises(items) <==> exists i :: 0 <= i < |items| && ItemVerdict(items[i]) == Raises
  {
    if SomeRaises(items) {
      var i := RaisingIndex(items);
    }
    if exists i :: 0 <= i < |items| && ItemVerdict(items[i]) == Raises {
      var i :| 0 <= i < |items| && ItemVerdict(items[i]) == Raises;
      assert items[..i + 1][i] == items[i];
      RaisesSticks(items, i + 1);
    }
  }

  /** An index whose item raises, when some item raises. */
  lemma {:induction false} RaisingIndex(items: seq<NewsItem>) returns (i: nat)
    requires SomeRaises(items)
    ensures i < |items| && ItemVerdict(items[i]) == Raises
    decreases |items|
  {
    var n := |items| - 1;
    if SomeRaises(items[..n]) {
      i := RaisingIndex(items[..n]);
      FrontPrefix(items, n, i);
    } else {
      i := n;
    }
  }

  /** Once a prefix has an item that raises, so do the items. */
  lemma {:induction false} RaisesSticks(items: seq<NewsItem>, k: nat)
    requires k <= |items| && SomeRaises(items[..k])
    ensures SomeRaises(items)
    decreases |items| - k
  {
    if k < |items| {
      assert items[..k + 1][..k] == items[..k];
      RaisesSticks(items, k + 1);
    } else {
      assert items[..k] == items;
    }
  }

  /** Without an item that raises, the kept and the rejected items account for every item. */
  lemma {:induction false} CountsAddUp(items: seq<NewsItem>)
    requires !SomeRaises(items)
    ensures |Cleaned(items)| + RejectedCount(items) == |items|
    decreases |items|
  {
    if |items| > 0 {
      var n := |items| - 1;
      CountsAddUp(items[..n]);
      CleanStep(items, n);
      assert items[..n + 1] == items;
      assert ItemVerdict(items[n]) != Raises;
    }
  }

  function Accepts(): NewsItem -> bool {
    (x: NewsItem) => ItemVerdict(x) == Accepted
  }

  function CleanEach(xs: seq<NewsItem>): (r: seq<NewsItem>)
    ensures |r| == |xs|
    ensures forall i :: 0 <= i < |xs| ==> r[i] == CleanNewsItem(xs[i])
  {
    seq(|xs|, i requires 0 <= i < |xs| => CleanNewsItem(xs[i]))
  }

  /** The kept items are the accepted items, in input order, each cleaned. */
  lemma {:induction false} CleanedIsFilterThenClean(items: seq<NewsItem>)
    ensures Cleaned(items) == CleanEach(FilterSeq(items, Accepts()))
    decreases |items|
  {
    if |items| > 0 {
      var n := |items| - 1;
      assert items == items[..n] + [items[n]];
      CleanedIsFilterThenClean(items[..n]);
      FilterSeqSnoc(items[..n], items[n], Accepts());
    }
  }

  /** One more item that does not raise keeps the prefix free of items that raise. */
  lemma NoRaiseStep(items: seq<NewsItem>, i: nat)
    requires i < |items| && !SomeRaises(items[..i]) && ItemVerdict(items[i]) != Raises
    ensures !SomeRaises(items[..i + 1])
  {
    assert items[..i + 1][..i] == items[..i];
  }

  /** One more item: the kept and rejected items grow by it. */
  lemma CleanStep(items: seq<NewsItem>, i: nat)
    requires i < |items|
    ensures Cleaned(items[..i + 1])
      == Cleaned(items[..i]) + (if ItemVerdict(items[i]) == Accepted then [CleanNewsItem(items[i])] else [])
    ensures RejectedCount(items[..i + 1])
      == RejectedCount(items[..i]) + (if ItemVerdict(items[i]) == Rejected then 1 else 0)
  {
    var done := items[..i + 1];
    assert done[..i] == items[..i] && done[i] == items[i];
  }

  /** `validate_and_clean`; `invalidCount` is the number the source logs, `raised` says a check raised. */
  method ValidateAndClean(items: seq<NewsItem>) returns (valid: seq<NewsItem>, invalidCount: nat, raised: bool)
    ensures raised <==> SomeRaises(items)
    ensures !raised ==> valid == Cleaned(items) && invalidCount == RejectedCount(items)
  {
    valid, invalidCount, raised := [], 0, false;
    var i := 0;
    while i < |items|
      invariant 0 <= i <= |items|
      invariant !SomeRaises(items[..i])
      invariant valid == Cleaned(items[..i]) && invalidCount == RejectedCount(items[..i])
    {
      var item := items[i];
      var verdict := ItemVerdict(item);
      if verdict == Raises {
        assert items[..i + 1][..i] == items[..i];
        RaisesSticks(items, i + 1);
        return [], 0, true;
      }
      NoRaiseStep(items, i);
      CleanStep(items, i);
      if verdict == Accepted {
        valid := valid + [CleanNewsItem(item)];
      } else {
        invalidCount := invalidCount + 1;
      }
      i := i + 1;
    }
    assert items[..i] == items;
  }

  // ---------------------------------------------------------------------------
  // validate_frequency_words_file: the per-line check
  // ---------------------------------------------------------------------------

  datatype WordsFileError = EmptyFile | EmptyKeyword(line: nat) | WeightNotInteger(line: nat) | NoValidLines

  /** What the check makes of one line. */
  datatype LineKind = Skipped | Counted | Bad(error: WordsFileError)

  /** Digits with single underscores between them, as `int()` reads them. */
  predicate IsDigitGroups(s: string) {
    && |s| > 0 && IsDigit(s[0]) && IsDigit(s[|s| - 1])
    && forall i :: 0 <= i < |s| ==> IsDigit(s[i]) || (s[i] == '_' && 0 < i < |s| - 1 && IsDigit(s[i + 1]))
  }

  /** `int(s)` succeeds on an already stripped `s`: an optional sign, then digit groups. */
  predicate IsIntLiteral(s: string) {
    if |s| > 0 && (s[0] == '+' || s[0] == '-') then IsDigitGroups(s[1..]) else IsDigitGroups(s)
  }

  /** Every integer written out by `str` reads back with `int`. */
  lemma IntLiteralOfInt(i: int)
    ensures IsIntLiteral(IntToString(i))
  {
    var d := NatToString(if i < 0 then -i else i);
    assert IsDigits(d);
    if i < 0 {
      assert IntToString(i)[1..] == d;
    }
  }

  /** One line of the file, numbered from 1. */
  function LineKindOf(line: string, number: nat): (r: LineKind)
    ensures r.Bad? ==> Contains(Strip(line), ":")
    ensures r == Skipped <==> Strip(line) == "" || StartsWith(Strip(line), "#")
  {
    var l := Strip(line);
    if l == "" || StartsWith(l, "#") then Skipped
    else
      match SplitOnce(l, ":")
      case None => Counted
      case Some(parts) =>
        if Strip(parts.0) == "" then Bad(EmptyKeyword(number))
        else if !IsIntLiteral(Strip(parts.1)) then Bad(WeightNotInteger(number))
        else Counted
  }

  /** The loop over the lines: the number of counted lines, or the first bad line's error. */
  function ScanLines(lines: seq<string>): Result<nat, WordsFileError>
    decreases |lines|
  {
    if |lines| == 0 then Success(0)
    else
      var n := |lines| - 1;
      match ScanLines(lines[..n])
      case Failure(e) => Failure(e)
      case Success(c) =>
        match LineKindOf(lines[n], n + 1)
        case Skipped => Success(c)
        case Counted => Success(c + 1)
        case Bad(e) => Failure(e)
  }

  /** The per-line check of `validate_frequency_words_file` on the lines of the file. */
  function CheckWordsFile(lines: seq<string>): Result<nat, WordsFileError> {
    if |lines| == 0 then Failure(EmptyFile)
    else
      match ScanLines(lines)
      case Failure(e) => Failure(e)
      case Success(c) => if c == 0 then Failure(NoValidLines) else Success(c)
  }

  predicate NoBadLine(lines: seq<string>) {
    forall i :: 0 <= i < |lines| ==> !LineKindOf(lines[i], i + 1).Bad?
  }

  /** The number of counted lines. */
  function CountedLines(lines: seq<string>): nat
    decreases |lines|
  {
    if |lines| == 0 then 0
    else CountedLines(lines[..|lines| - 1]) + (if LineKindOf(lines[|lines| - 1], |lines|) == Counted then 1 else 0)
  }

  /** The lines have no bad line iff the front has none and the last line is not bad. */
  lemma NoBadLineSnoc(lines: seq<string>)
    requires |lines| > 0
    ensures var n := |lines| - 1;
      NoBadLine(lines) <==> NoBadLine(lines[..n]) && !LineKindOf(lines[n], n + 1).Bad?
  {
    var n := |lines| - 1;
    assert forall i :: 0 <= i < n ==> lines[..n][i] == lines[i];
  }

  /** The scan succeeds iff no line is bad. */
  lemma {:induction false} ScanSucceedsIff(lines: seq<string>)
    ensures ScanLines(lines).Success? <==> NoBadLine(lines)
    decreases |lines|
  {
    if |lines| > 0 {
      var n := |lines| - 1;
      ScanSucceedsIff(lines[..n]);
      NoBadLineSnoc(lines);
    }
  }

  /** A successful scan counts exactly the counted lines. */
  lemma {:induction false} ScanCounts(lines: seq<string>)
    requires ScanLines(lines).Success?
    ensures ScanLines(lines).value == CountedLines(lines)
    decreases |lines|
  {
    if |lines| > 0 {
      ScanCounts(lines[..|lines| - 1]);
    }
  }

  /** Indexing and slicing the front of a sequence below its end is indexing and slicing the sequence. */
  lemma FrontPrefix<T>(s: seq<T>, n: nat, i: nat)
    requires i < n <= |s|
    ensures s[..n][i] == s[i] && s[..n][..i] == s[..i]
  {
  }

  /** A failed scan reports a bad line with no bad line before it. */
  lemma {:induction false} ScanFailsAtFirstBad(lines: seq<string>)
    requires ScanLines(lines).Failure?
    ensures exists i :: 0 <= i < |lines| && LineKindOf(lines[i], i + 1) == Bad(ScanLines(lines).error) && NoBadLine(lines[..i])
    decreases |lines|
  {
    var n := |lines| - 1;
    var front := lines[..n];
    if ScanLines(front).Failure? {
      ScanFailsAtFirstBad(front);
      assert ScanLines(lines) == ScanLines(front);
      var i :| 0 <= i < n && LineKindOf(front[i], i + 1) == Bad(ScanLines(front).error) && NoBadLine(front[..i]);
      FrontPrefix(lines, n, i);
      assert LineKindOf(lines[i], i + 1) == Bad(ScanLines(lines).error) && NoBadLine(lines[..i]);
    } else {
      ScanSucceedsIff(front);
      assert ScanLines(lines) == Failure(LineKindOf(lines[n], n + 1).error);
      assert LineKindOf(lines[n], n + 1) == Bad(ScanLines(lines).error) && NoBadLine(lines[..n]);
    }
  }

  /** The scan succeeds iff no line is bad, and then it counts the counted lines; otherwise it reports the first bad line. */
  lemma ScanLinesMeans(lines: seq<string>)
    ensures ScanLines(lines).Success? <==> NoBadLine(lines)
    ensures ScanLines(lines).Success? ==> ScanLines(lines).value == CountedLines(lines)
    ensures ScanLines(lines).Failure? ==>
      (exists i :: 0 <= i < |lines| && LineKindOf(lines[i], i + 1) == Bad(ScanLines(lines).error) && NoBadLine(lines[..i]))
  {
    ScanSucceedsIff(lines);
    if ScanLines(lines).Success? {
      ScanCounts(lines);
    } else {
      ScanFailsAtFirstBad(lines);
    }
  }

  /** The file passes iff it has lines, none of them bad, and at least one counted. */
  lemma CheckWordsFileIff(lines: seq<string>)
    ensures CheckWordsFile(lines).Success? <==> |lines| > 0 && NoBadLine(lines) && CountedLines(lines) > 0
    ensures CheckWordsFile(lines).Success? ==> CheckWordsFile(lines).value == CountedLines(lines)
  {
    ScanLinesMeans(lines);
  }

  /** `validate_frequency_words_file` after reading the lines. */
  method ValidateFrequencyWordsFile(lines: seq<string>) returns (r: Result<nat, WordsFileError>)
    ensures r == CheckWordsFile(lines)
  {
    if |lines| == 0 {
      return Failure(EmptyFile);
    }
    var scanned := CountValidLines(lines);
    match scanned {
      case Failure(e) =>
        r := Failure(e);
      case Success(validLines) =>
        r := if validLines == 0 then Failure(NoValidLines) else Success(validLines);
    }
  }

  /** The loop that counts the valid lines, stopping at the first bad one. */
  method CountValidLines(lines: seq<string>) returns (r: Result<nat, WordsFileError>)
    ensures r == ScanLines(lines)
  {
    var validLines := 0;
    var i := 0;
    while i < |lines|
      invariant 0 <= i <= |lines|
      invariant ScanLines(lines[..i]) == Success(validLines)
    {
      ScanStep(lines, i);
      var kind := ClassifyLine(lines[i], i + 1);
      match kind {
        case Skipped =>
        case Counted =>
          validLines := validLines + 1;
        case Bad(e) =>
          ScanStopsAt(lines, i + 1);
          return Failure(e);
      }
      i := i + 1;
    }
    assert lines[..i] == lines;
    r := Success(validLines);
  }

  /** The body of the loop over the lines: blank and comment lines are skipped, a "keyword:weight" line needs both parts. */
  method ClassifyLine(line: string, number: nat) returns (kind: LineKind)
    ensures kind == LineKindOf(line, number)
  {
    var l := Strip(line);
    if l == "" || StartsWith(l, "#") {
      return Skipped;
    }
    if Contains(l, ":") {
      var parts := SplitOnce(l, ":").value;
      if Strip(parts.0) == "" {
        return Bad(EmptyKeyword(number));
      }
      if !IsIntLiteral(Strip(parts.1)) {
        return Bad(WeightNotInteger(number));
      }
    }
    return Counted;
  }

  /** One more line after a clean prefix: skipped, counted, or the scan's error. */
  lemma ScanStep(lines: seq<string>, i: nat)
    requires i < |lines| && ScanLines(lines[..i]).Success?
    ensures var c := ScanLines(lines[..i]).value;
      ScanLines(lines[..i + 1]) == match LineKindOf(lines[i], i + 1)
        case Skipped => Success(c)
        case Counted => Success(c + 1)
        case Bad(e) => Failure(e)
  {
    assert lines[..i + 1][..i] == lines[..i];
  }

  /** Once a prefix of the lines fails, the whole scan fails the same way. */
  lemma {:induction false} ScanStopsAt(lines: seq<string>, k: nat)
    requires k <= |lines| && ScanLines(lines[..k]).Failure?
    ensures ScanLines(lines) == ScanLines(lines[..k])
    decreases |lines| - k
  {
    if k < |lines| {
      assert lines[..k + 1][..k] == lines[..k];
      ScanStopsAt(lines, k + 1);
    } else {
      assert lines[..k] == lines;
    }
  }
}
