/**
 * `ConfigManager` (`utils/config_manager.py`): read-only projections of the
 * parsed settings file. Reading and parsing the YAML file is left to the
 * caller; the model starts from the parsed document.
 */
module ConfigManager {

  import opened Wrappers
  import opened PyValues
  import opened PyStrings

  /** `v.get(key, default)`: only dicts have `get`. */
  function DictGet(v: Json, key: string, default: Json): (r: Result<Json, Error>)
    ensures r.Err? <==> !v.JObj?
    ensures r.Err? ==> r.error == AttributeError("get")
    ensures r.Ok? ==> r.value == ObjGet(v.fields, key).GetOr(default)
  {
    if v.JObj? then Ok(ObjGet(v.fields, key).GetOr(default)) else Err(AttributeError("get"))
  }

  /** `v[key]` with a string key: KeyError on a dict without it, TypeError on anything but a dict. */
  function Subscript(v: Json, key: string): (r: Result<Json, Error>)
    ensures r.Ok? <==> v.JObj? && ObjGet(v.fields, key).Some?
    ensures r.Ok? ==> r.value == ObjGet(v.fields, key).value
    ensures r.Err? ==> r.error == (if v.JObj? then KeyError(key) else TypeError)
  {
    if !v.JObj? then Err(TypeError)
    else match ObjGet(v.fields, key)
      case Some(x) => Ok(x)
      case None => Err(KeyError(key))
  }

  /** `get_websites()`: the `websites` section, `{}` when absent. */
  function GetWebsites(config: Json): (r: Result<Json, Error>)
    ensures r.Err? <==> !config.JObj?
    ensures r.Ok? && ObjGet(config.fields, "websites").None? ==> r.value == JObj([])
    ensures r.Ok? && ObjGet(config.fields, "websites").Some? ==>
      r.value == ObjGet(config.fields, "websites").value
  {
    DictGet(config, "websites", JObj([]))
  }

  /** `get_site(name)`: `None` for an unknown site; raises when `websites` is absent. */
  function GetSite(config: Json, name: string): (r: Result<Json, Error>)
    ensures !config.JObj? ==> r == Err(TypeError)
    ensures config.JObj? && ObjGet(config.fields, "websites").None? ==> r == Err(KeyError("websites"))
    ensures config.JObj? && ObjGet(config.fields, "websites").Some? ==>
      var ws := ObjGet(config.fields, "websites").value;
      && (!ws.JObj? ==> r == Err(AttributeError("get")))
      && (ws.JObj? ==> r == Ok(ObjGet(ws.fields, name).GetOr(JNull)))
  {
    var websites :- Subscript(config, "websites");
    DictGet(websites, name, JNull)
  }

  /** `get_path()`: the `path` section, `None` when absent. */
  function GetPath(config: Json): (r: Result<Json, Error>)
    ensures r.Err? <==> !config.JObj?
    ensures r.Ok? ==> r.value == ObjGet(config.fields, "path").GetOr(JNull)
  {
    DictGet(config, "path", JNull)
  }

  /** `get_model_info()`: the `model` section; raises when absent. */
  function GetModelInfo(config: Json): (r: Result<Json, Error>)
    ensures r.Ok? <==> config.JObj? && ObjGet(config.fields, "model").Some?
    ensures r.Ok? ==> r.value == ObjGet(config.fields, "model").value
    ensures r.Err? ==> r.error == (if config.JObj? then KeyError("model") else TypeError)
  {
    Subscript(config, "model")
  }

  /**
   * `get_site` agrees with `get_websites` wherever both succeed, and differs
   * only in raising where `get_websites` falls back to `{}`.
   */
  lemma SiteFromWebsites(config: Json, name: string)
    requires config.JObj?
    ensures GetWebsites(config).Ok?
    ensures ObjGet(config.fields, "websites").None? <==> GetSite(config, name) == Err(KeyError("websites"))
    ensures ObjGet(config.fields, "websites").Some? ==>
      GetSite(config, name) == DictGet(GetWebsites(config).value, name, JNull)
  {
  }

  /** A site missing from the `websites` dict reads as `None`. */
  lemma UnknownSiteIsNone(config: Json, name: string)
    requires config.JObj? && ObjGet(config.fields, "websites").Some?
    requires var ws := ObjGet(config.fields, "websites").value; ws.JObj? && ObjGet(ws.fields, name).None?
    ensures GetSite(config, name) == Ok(JNull)
  {
  }

  // ---------------------------------------------------------------------------
  // get_spider_configs
  // ---------------------------------------------------------------------------

  /** One scheduler entry: `{'spider': name, 'interval': ...}`. */
  datatype SpiderConfig = SpiderConfig(spider: string, interval: Json)

  /** The loop of `get_spider_configs` over the website entries. */
  function SpiderConfigsOf(sites: seq<(string, Json)>): (r: Result<seq<SpiderConfig>, Error>)
    ensures r.Ok? ==> |r.value| <= |sites|
    decreases |sites|
  {
    if |sites| == 0 then Ok([])
    else
      var (name, cfg) := sites[0];
      var endDate :- Subscript(cfg, "end_date");
      if Truthy(endDate) then SpiderConfigsOf(sites[1..])
      else
        // `cfg` is a dict here, so `cfg.get('interval', 15)` cannot raise
        var interval := ObjGet(cfg.fields, "interval").GetOr(JInt(15));
        var rest :- SpiderConfigsOf(sites[1..]);
        Ok([SpiderConfig(name, interval)] + rest)
  }

  /** `get_spider_configs()`; `.items()` needs the `websites` section to be a dict. */
  function GetSpiderConfigs(config: Json): (r: Result<seq<SpiderConfig>, Error>)
    ensures !config.JObj? ==> r == Err(AttributeError("get"))
    ensures config.JObj? && ObjGet(config.fields, "websites").None? ==> r == Ok([])
    ensures config.JObj? && ObjGet(config.fields, "websites").Some? ==>
      var ws := ObjGet(config.fields, "websites").value;
      && (!ws.JObj? ==> r == Err(AttributeError("items")))
      && (ws.JObj? ==> (r.Ok? <==> forall i :: 0 <= i < |ws.fields| ==> HasEndDate(ws.fields[i].1)))
      && (ws.JObj? && r.Ok? ==> |r.value| <= |ws.fields|)
  {
    var websites :- GetWebsites(config);
    if !websites.JObj? then Err(AttributeError("items"))
    else
      SpiderConfigsOk(websites.fields);
      SpiderConfigsOf(websites.fields)
  }

  /** An entry has a readable `end_date`: it is a dict holding that key. */
  predicate HasEndDate(cfg: Json) {
    Subscript(cfg, "end_date").Ok?
  }

  /** An entry the scheduler runs: its `end_date` is falsy. */
  predicate Enabled(cfg: Json)
    requires HasEndDate(cfg)
  {
    !Truthy(Subscript(cfg, "end_date").value)
  }

  /** The loop succeeds exactly when every entry is a dict with an `end_date` key. */
  lemma {:induction false} SpiderConfigsOk(sites: seq<(string, Json)>)
    ensures SpiderConfigsOf(sites).Ok? <==> forall i :: 0 <= i < |sites| ==> HasEndDate(sites[i].1)
    decreases |sites|
  {
    if |sites| > 0 {
      SpiderConfigsOk(sites[1..]);
      assert forall i :: 1 <= i < |sites| ==> sites[i] == sites[1..][i - 1];
    }
  }

  /** The first entry without a readable `end_date` decides the error: KeyError for a dict. */
  lemma {:induction false} SpiderConfigsError(sites: seq<(string, Json)>, k: nat)
    requires k < |sites| && !HasEndDate(sites[k].1)
    requires forall i :: 0 <= i < k ==> HasEndDate(sites[i].1)
    ensures SpiderConfigsOf(sites) == Err(Subscript(sites[k].1, "end_date").error)
    ensures sites[k].1.JObj? ==> SpiderConfigsOf(sites) == Err(KeyError("end_date"))
    decreases k
  {
    if k > 0 {
      SpiderConfigsError(sites[1..], k - 1);
    }
  }

  /** Configs of consecutive runs of websites follow each other: website order is kept. */
  lemma {:induction false} SpiderConfigsAppend(a: seq<(string, Json)>, b: seq<(string, Json)>)
    requires SpiderConfigsOf(a).Ok? && SpiderConfigsOf(b).Ok?
    ensures SpiderConfigsOf(a + b) == Ok(SpiderConfigsOf(a).value + SpiderConfigsOf(b).value)
    decreases |a|
  {
    if |a| == 0 {
      assert a + b == b;
      assert SpiderConfigsOf(a).value + SpiderConfigsOf(b).value == SpiderConfigsOf(b).value;
    } else {
      assert (a + b)[0] == a[0];
      assert (a + b)[1..] == a[1..] + b;
      var cfg := a[0].1;
      assert Subscript(cfg, "end_date").Ok?;
      assert SpiderConfigsOf(a[1..]).Ok?;
      SpiderConfigsAppend(a[1..], b);
      if !Truthy(Subscript(cfg, "end_date").value) {
        var c := [SpiderConfig(a[0].0, ObjGet(cfg.fields, "interval").GetOr(JInt(15)))];
        assert SpiderConfigsOf(a).value == c + SpiderConfigsOf(a[1..]).value;
        ConcatAssoc(c, SpiderConfigsOf(a[1..]).value, SpiderConfigsOf(b).value);
      }
    }
  }

  /**
   * A website is scheduled exactly when its `end_date` is falsy, under its
   * own name, with its `interval` or 15 when the key is absent.
   */
  lemma {:induction false} SpiderConfigsMembers(sites: seq<(string, Json)>, c: SpiderConfig)
    requires SpiderConfigsOf(sites).Ok?
    ensures c in SpiderConfigsOf(sites).value <==> exists i :: 0 <= i < |sites| && Scheduled(sites[i], c)
    decreases |sites|
  {
    if |sites| > 0 {
      SpiderConfigsOk(sites);
      SpiderConfigsMembers(sites[1..], c);
      ScheduledTail(sites, c);
    }
  }

  /** An entry yields `c`: it is enabled, and `c` is its name with its interval or 15. */
  predicate Scheduled(site: (string, Json), c: SpiderConfig) {
    && HasEndDate(site.1) && Enabled(site.1)
    && c == SpiderConfig(site.0, ObjGet(site.1.fields, "interval").GetOr(JInt(15)))
  }

  /** An entry yielding `c` is the first one or one of the rest. */
  lemma ScheduledTail(sites: seq<(string, Json)>, c: SpiderConfig)
    requires |sites| > 0
    ensures (exists i :: 0 <= i < |sites| && Scheduled(sites[i], c)) <==>
      Scheduled(sites[0], c) || exists j :: 0 <= j < |sites[1..]| && Scheduled(sites[1..][j], c)
  {
    if exists i :: 0 <= i < |sites| && Scheduled(sites[i], c) {
      var i :| 0 <= i < |sites| && Scheduled(sites[i], c);
      if i > 0 {
        assert sites[1..][i - 1] == sites[i];
      }
    }
    if exists j :: 0 <= j < |sites[1..]| && Scheduled(sites[1..][j], c) {
      var j :| 0 <= j < |sites[1..]| && Scheduled(sites[1..][j], c);
      assert sites[j + 1] == sites[1..][j];
    }
  }


  // ---------------------------------------------------------------------------
  // get_website_date_config
  // ---------------------------------------------------------------------------

  /** One entry: `{'name': ..., 'start_date': ..., 'end_date': ...}`. */
  datatype DateConfig = DateConfig(name: string, startDate: Json, endDate: Json)

  /** The loop of `get_website_date_config` over the website entries. */
  function DateConfigsOf(sites: seq<(string, Json)>): (r: Result<seq<DateConfig>, Error>)
    ensures r.Ok? <==> forall i :: 0 <= i < |sites| ==> sites[i].1.JObj?
    ensures r.Err? ==> r.error == AttributeError("get")
    ensures r.Ok? ==> |r.value| == |sites| && forall i :: 0 <= i < |sites| ==>
      r.value[i] == DateConfig(sites[i].0,
                               ObjGet(sites[i].1.fields, "start_date").GetOr(JInt(15)),
                               ObjGet(sites[i].1.fields, "end_date").GetOr(JNull))
    decreases |sites|
  {
    if |sites| == 0 then Ok([])
    else
      var (name, cfg) := sites[0];
      var start :- DictGet(cfg, "start_date", JInt(15));
      var end := ObjGet(cfg.fields, "end_date").GetOr(JNull);
      var rest :- DateConfigsOf(sites[1..]);
      assert forall i :: 1 <= i < |sites| ==> sites[i] == sites[1..][i - 1];
      Ok([DateConfig(name, start, end)] + rest)
  }

  /** `get_website_date_config()`. */
  function GetWebsiteDateConfig(config: Json): (r: Result<seq<DateConfig>, Error>)
    ensures !config.JObj? ==> r == Err(AttributeError("get"))
    ensures config.JObj? && ObjGet(config.fields, "websites").None? ==> r == Ok([])
    ensures config.JObj? && ObjGet(config.fields, "websites").Some? ==>
      var ws := ObjGet(config.fields, "websites").value;
      && (!ws.JObj? ==> r == Err(AttributeError("items")))
      && (ws.JObj? ==> (r.Ok? <==> forall i :: 0 <= i < |ws.fields| ==> ws.fields[i].1.JObj?))
      && (ws.JObj? && r.Ok? ==> |r.value| == |ws.fields|)
      && (ws.JObj? && r.Ok? ==> forall i :: 0 <= i < |ws.fields| ==> r.value[i].name == ws.fields[i].0)
  {
    var websites :- GetWebsites(config);
    if !websites.JObj? then Err(AttributeError("items"))
    else DateConfigsOf(websites.fields)
  }
}
