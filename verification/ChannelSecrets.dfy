/**
 * Channel configurations: what the client is shown of the secrets, and how its edit is merged
 * back. Configurations are parsed JSON objects; channel types are in their canonical lower case.
 */
module ChannelSecrets {
  import opened Basics
  import opened Text

  datatype Json = Str(text: string) | Object(members: map<string, Json>) | OtherJson(raw: string)

  type Config = map<string, Json>

  function SecretFields(channelType: string): set<string> {
    if channelType == "smtp" then {"password"}
    else if channelType == "resend" then {"api_key"}
    else if channelType == "telegram" then {"bot_token"}
    else if channelType == "webhook" then {"secret"}
    else if channelType == "gotify" then {"token"}
    else if channelType == "ntfy" then {"token", "password"}
    else if channelType == "bark" then {"device_key"}
    else if channelType == "serverchan" then {"send_key"}
    else if channelType == "feishu" then {"webhook_url", "secret"}
    else if channelType == "wecom" then {"webhook_url"}
    else if channelType == "dingtalk" then {"webhook_url", "secret"}
    else if channelType == "pushdeer" then {"push_key"}
    else if channelType == "pushplus" then {"token"}
    else if channelType == "pushover" then {"token", "user"}
    else if channelType == "napcat" then {"access_token"}
    else {}
  }

  const WEBHOOK := "webhook"
  const HEADERS := "headers"

  /** A string that TrimSpace does not empty. */
  predicate Filled(v: Json) {
    v.Str? && !Blank(v.text)
  }

  function Get(c: Config, field: string): Option<Json> {
    if field in c then Some(c[field]) else None
  }

  // ---- masking ----

  function MaskValue(v: Json): Json {
    if Filled(v) then Str("") else v
  }

  function MaskHeaders(headers: Config): Config {
    map k | k in headers :: MaskValue(headers[k])
  }

  function MaskField(channelType: string, field: string, v: Json): Json {
    if field in SecretFields(channelType) then MaskValue(v)
    else if channelType == WEBHOOK && field == HEADERS && v.Object? then Object(MaskHeaders(v.members))
    else v
  }

  function Mask(channelType: string, c: Config): Config {
    map f | f in c :: MaskField(channelType, f, c[f])
  }

  function FilledKeys(c: Config): set<string> {
    set k | k in c && Filled(c[k])
  }

  function HeadersOf(channelType: string, c: Config): Config {
    if channelType == WEBHOOK && HEADERS in c && c[HEADERS].Object? then c[HEADERS].members else map[]
  }

  /** The keys of a set, in sort.Strings order. */
  ghost predicate SortedListOf(list: seq<string>, keys: set<string>) {
    StrictlySorted(list) && forall k :: k in list <==> k in keys
  }

  method BlankOut(config: Config, keys: set<string>) returns (masked: Config, touched: seq<string>)
    ensures masked == map k | k in config :: if k in keys then MaskValue(config[k]) else config[k]
    ensures SortedListOf(touched, FilledKeys(config) * keys)
  {
    masked, touched := config, [];
    var todo := keys;
    while todo != {}
      invariant todo <= keys && masked.Keys == config.Keys
      invariant forall k | k in config :: masked[k] == if k in keys - todo then MaskValue(config[k]) else config[k]
      invariant Distinct(touched) && forall k :: k in touched <==> k in FilledKeys(config) * (keys - todo)
      decreases |todo|
    {
      var k :| k in todo;
      assert k !in touched;
      todo := todo - {k};
      if k in masked && Filled(masked[k]) {
        masked := masked[k := Str("")];
        touched := touched + [k];
      }
    }
    SortSorts(touched);
    touched := Sort(touched);
  }

  method SanitizeConfig(channelType: string, config: Config)
    returns (masked: Config, fields: seq<string>, headerKeys: seq<string>)
    ensures masked == Mask(channelType, config)
    ensures SortedListOf(fields, FilledKeys(config) * SecretFields(channelType))
    ensures SortedListOf(headerKeys, FilledKeys(HeadersOf(channelType, config)))
  {
    masked, fields := BlankOut(config, SecretFields(channelType));
    headerKeys := [];
    if channelType == WEBHOOK && HEADERS in masked && masked[HEADERS].Object? {
      var headers := masked[HEADERS].members;
      var h, keys := BlankOut(headers, headers.Keys);
      assert FilledKeys(headers) * headers.Keys == FilledKeys(headers);
      assert h == MaskHeaders(headers);
      masked, headerKeys := masked[HEADERS := Object(h)], keys;
    }
    assert forall f | f in config :: masked[f] == MaskField(channelType, f, config[f]);
  }

  // ---- merging ----

  function MergeSecret(existing: Option<Json>, incoming: Option<Json>, cleared: bool): Option<Json> {
    if cleared then Some(Str(""))
    else
      match incoming
      case None => existing
      case Some(v) =>
        if v.Str? && Blank(v.text) && existing.Some? && Filled(existing.value) then existing else incoming
  }

  function MergeHeaders(existing: Config, incoming: Config, cleared: seq<string>): Config {
    map k | k in incoming :: MergeSecret(Get(existing, k), Some(incoming[k]), k in cleared).value
  }

  function MergeField(channelType: string, field: string, existing: Option<Json>, incoming: Option<Json>,
                      clearedFields: seq<string>, clearedHeaders: seq<string>): Option<Json>
  {
    if field in SecretFields(channelType) then MergeSecret(existing, incoming, field in clearedFields)
    else if channelType == WEBHOOK && field == HEADERS && existing.Some? && existing.value.Object? then
      if incoming.None? then existing
      else if incoming.value.Object? then
        Some(Object(MergeHeaders(existing.value.members, incoming.value.members, clearedHeaders)))
      else incoming
    else incoming
  }

  function Merge(channelType: string, existing: Config, incoming: Config,
                 clearedFields: seq<string>, clearedHeaders: seq<string>): Config
  {
    map f | f in existing.Keys + incoming.Keys + SecretFields(channelType)
            && MergeField(channelType, f, Get(existing, f), Get(incoming, f), clearedFields, clearedHeaders).Some? ::
      MergeField(channelType, f, Get(existing, f), Get(incoming, f), clearedFields, clearedHeaders).value
  }

  method MergeSecrets(existing: Config, incoming: Config, secrets: set<string>, cleared: seq<string>)
    returns (merged: Config)
    ensures forall f :: Get(merged, f) ==
              if f in secrets then MergeSecret(Get(existing, f), Get(incoming, f), f in cleared) else Get(incoming, f)
  {
    merged := incoming;
    var todo := secrets;
    while todo != {}
      invariant todo <= secrets
      invariant forall f :: Get(merged, f) ==
                  if f in secrets && f !in todo then MergeSecret(Get(existing, f), Get(incoming, f), f in cleared)
                  else Get(incoming, f)
      decreases |todo|
    {
      var field :| field in todo;
      ghost var before := merged;
      assert Get(before, field) == Get(incoming, field);
      todo := todo - {field};
      if field in cleared {
        merged := merged[field := Str("")];
      } else if field !in merged {
        if field in existing {
          merged := merged[field := existing[field]];
        }
      } else if merged[field].Str? && Blank(merged[field].text) {
        if field in existing && Filled(existing[field]) {
          merged := merged[field := existing[field]];
        }
      }
      assert Get(merged, field) == MergeSecret(Get(existing, field), Get(incoming, field), field in cleared);
      assert forall f | f != field :: Get(merged, f) == Get(before, f);
    }
  }

  method MergeConfig(channelType: string, existing: Config, incoming: Config,
                     clearedFields: seq<string>, clearedHeaders: seq<string>) returns (merged: Config)
    ensures merged == Merge(channelType, existing, incoming, clearedFields, clearedHeaders)
  {
    hide SecretFields, MergeSecret;
    var secrets := SecretFields(channelType);
    KnownSecrets();
    if secrets == {} {
      FieldsDecideMerge(channelType, existing, incoming, clearedFields, clearedHeaders, incoming);
      return incoming;
    }
    merged := MergeSecrets(existing, incoming, secrets, clearedFields);
    ghost var afterSecrets := merged;
    if channelType == WEBHOOK && HEADERS in existing && existing[HEADERS].Object? {
      assert Get(merged, HEADERS) == Get(incoming, HEADERS);
      if HEADERS !in merged {
        merged := merged[HEADERS := existing[HEADERS]];
      } else if merged[HEADERS].Object? {
        var headers := MergeHeaderValues(existing[HEADERS].members, merged[HEADERS].members, clearedHeaders);
        merged := merged[HEADERS := Object(headers)];
      }
    }
    forall f
      ensures Get(merged, f)
              == MergeField(channelType, f, Get(existing, f), Get(incoming, f), clearedFields, clearedHeaders)
    {
      assert channelType != WEBHOOK || f != HEADERS ==> Get(merged, f) == Get(afterSecrets, f);
    }
    FieldsDecideMerge(channelType, existing, incoming, clearedFields, clearedHeaders, merged);
  }

  lemma KnownSecrets()
    ensures SecretFields(WEBHOOK) == {"secret"} && HEADERS !in SecretFields(WEBHOOK)
  {
  }

  method MergeHeaderValues(existing: Config, incoming: Config, cleared: seq<string>) returns (merged: Config)
    ensures merged == MergeHeaders(existing, incoming, cleared)
  {
    hide Blank, Filled, MergeHeaders;
    MergedKeys(existing, incoming, cleared);
    merged := incoming;
    var todo := incoming.Keys;
    while todo != {}
      invariant todo <= incoming.Keys && merged.Keys == incoming.Keys
      invariant forall k | k in incoming ::
                  merged[k] == if k in todo then incoming[k] else MergeHeaders(existing, incoming, cleared)[k]
      decreases |todo|
    {
      var key :| key in todo;
      todo := todo - {key};
      MergedHeader(existing, incoming, cleared, key);
      if key in cleared {
        merged := merged[key := Str("")];
      } else if merged[key].Str? && Blank(merged[key].text) && key in existing && Filled(existing[key]) {
        merged := merged[key := existing[key]];
      }
    }
  }

  lemma MergedKeys(existing: Config, incoming: Config, cleared: seq<string>)
    ensures MergeHeaders(existing, incoming, cleared).Keys == incoming.Keys
  {
  }

  lemma MergedHeader(existing: Config, incoming: Config, cleared: seq<string>, key: string)
    requires key in incoming
    ensures MergeHeaders(existing, incoming, cleared)[key]
            == MergeSecret(Get(existing, key), Some(incoming[key]), key in cleared).value
  {
  }

  /** A configuration is determined by what its fields read as. */
  lemma FieldsDecideMerge(channelType: string, existing: Config, incoming: Config,
                          clearedFields: seq<string>, clearedHeaders: seq<string>, c: Config)
    requires forall f ::
               Get(c, f)
               == MergeField(channelType, f, Get(existing, f), Get(incoming, f), clearedFields, clearedHeaders)
    ensures c == Merge(channelType, existing, incoming, clearedFields, clearedHeaders)
  {
    var m := Merge(channelType, existing, incoming, clearedFields, clearedHeaders);
    forall f ensures Get(c, f) == Get(m, f) {
      assert Get(c, f) == MergeField(channelType, f, Get(existing, f), Get(incoming, f), clearedFields, clearedHeaders);
      assert Get(m, f) == MergeField(channelType, f, Get(existing, f), Get(incoming, f), clearedFields, clearedHeaders);
    }
    forall f ensures f in c <==> f in m {
      assert Get(c, f) == Get(m, f);
    }
    forall f | f in c ensures c[f] == m[f] {
      assert Get(c, f) == Get(m, f);
    }
  }

  // ---- what the pair promises ----

  /** Saving back exactly what was shown, with nothing cleared, changes nothing. */
  lemma MaskThenMergeIsIdentity(channelType: string, c: Config)
    ensures Merge(channelType, c, Mask(channelType, c), [], []) == c
  {
    forall f ensures Get(c, f) == MergeField(channelType, f, Get(c, f), Get(Mask(channelType, c), f), [], []) {
      if f in c {
        if f in SecretFields(channelType) {
          MaskedValueComesBack(c[f]);
        } else if channelType == WEBHOOK && f == HEADERS && c[f].Object? {
          var h := c[f].members;
          forall k | k in h ensures MergeHeaders(h, MaskHeaders(h), [])[k] == h[k] { MaskedValueComesBack(h[k]); }
          assert MergeHeaders(h, MaskHeaders(h), []) == h;
        }
      }
    }
    FieldsDecideMerge(channelType, c, Mask(channelType, c), [], [], c);
  }

  lemma MaskedValueComesBack(v: Json)
    ensures MergeSecret(Some(v), Some(MaskValue(v)), false) == Some(v)
  {
  }

  /** In any merge, a secret that is neither cleared nor replaced keeps its old value. */
  lemma UntouchedSecretsSurvive(channelType: string, existing: Config, incoming: Config,
                                clearedFields: seq<string>, clearedHeaders: seq<string>, field: string)
    requires field in SecretFields(channelType) && field !in clearedFields
    requires field in existing && Filled(existing[field])
    requires field in incoming ==> incoming[field].Str? && Blank(incoming[field].text)
    ensures Get(Merge(channelType, existing, incoming, clearedFields, clearedHeaders), field) == Some(existing[field])
  {
  }

  /** A stored webhook header the client still lists, blank and not cleared, keeps its old value. */
  lemma UntouchedHeadersSurvive(existing: Config, incoming: Config, clearedFields: seq<string>,
                                clearedHeaders: seq<string>, key: string)
    requires HEADERS in existing && existing[HEADERS].Object? && key in existing[HEADERS].members
    requires Filled(existing[HEADERS].members[key]) && key !in clearedHeaders
    requires HEADERS in incoming ==> incoming[HEADERS].Object? && key in incoming[HEADERS].members
                                     && incoming[HEADERS].members[key].Str?
                                     && Blank(incoming[HEADERS].members[key].text)
    ensures var merged := Merge(WEBHOOK, existing, incoming, clearedFields, clearedHeaders);
            HEADERS in merged && merged[HEADERS].Object?
            && Get(merged[HEADERS].members, key) == Some(existing[HEADERS].members[key])
  {
  }

  /** The two configurations differ at most in what their filled secrets and headers say. */
  ghost predicate SameButForSecrets(channelType: string, a: Config, b: Config) {
    && a.Keys == b.Keys
    && forall f | f in a ::
         || a[f] == b[f]
         || (f in SecretFields(channelType) && Filled(a[f]) && Filled(b[f]))
         || (&& channelType == WEBHOOK && f == HEADERS && a[f].Object? && b[f].Object?
             && a[f].members.Keys == b[f].members.Keys
             && forall k | k in a[f].members ::
                a[f].members[k] == b[f].members[k] || (Filled(a[f].members[k]) && Filled(b[f].members[k])))
  }

  /** The client learns nothing about a filled secret but that it is filled. */
  lemma MaskHidesSecrets(channelType: string, a: Config, b: Config)
    requires SameButForSecrets(channelType, a, b)
    ensures Mask(channelType, a) == Mask(channelType, b)
  {
    forall f | f in a ensures Mask(channelType, a)[f] == Mask(channelType, b)[f] {
      if a[f] != b[f] && f !in SecretFields(channelType) {
        assert MaskHeaders(a[f].members) == MaskHeaders(b[f].members);
      }
    }
  }

  // ---- exactly what a merge gives ----

  ghost predicate BlankText(v: Json) {
    v.Str? && TrimSpace(v.text) == ""
  }

  lemma BlankTextExactly(v: Json)
    ensures BlankText(v) <==> v.Str? && Blank(v.text)
    ensures Filled(v) <==> v.Str? && !BlankText(v)
  {
    if v.Str? { BlankIffTrimsToNothing(v.text); }
  }

  /**
   * A secret after a merge: empty if cleared; otherwise what came in, unless nothing or only blank
   * text came in for it, in which case the stored one stays (if there is one to stay).
   */
  lemma SecretMergesExactly(channelType: string, existing: Config, incoming: Config,
                            clearedFields: seq<string>, clearedHeaders: seq<string>, field: string)
    requires field in SecretFields(channelType)
    ensures var merged := Merge(channelType, existing, incoming, clearedFields, clearedHeaders);
            && (field in clearedFields ==> Get(merged, field) == Some(Str("")))
            && (field !in clearedFields && field in incoming && !BlankText(incoming[field]) ==>
                  Get(merged, field) == Some(incoming[field]))
            && (field !in clearedFields && field !in incoming ==> Get(merged, field) == Get(existing, field))
            && (field !in clearedFields && field in incoming && BlankText(incoming[field]) ==>
                  Get(merged, field) == if field in existing && existing[field].Str? && !BlankText(existing[field])
                                        then Some(existing[field]) else Some(incoming[field]))
  {
    if field in incoming { BlankTextExactly(incoming[field]); }
    if field in existing { BlankTextExactly(existing[field]); }
    hide Blank, BlankText;
  }

  /** Everything that is no secret, and no webhook header, is as it came in. */
  lemma OtherFieldsMergeExactly(channelType: string, existing: Config, incoming: Config,
                                clearedFields: seq<string>, clearedHeaders: seq<string>, field: string)
    requires field !in SecretFields(channelType) && !(channelType == "webhook" && field == "headers")
    ensures Get(Merge(channelType, existing, incoming, clearedFields, clearedHeaders), field) == Get(incoming, field)
  {
  }

  /**
   * The headers of a webhook after a merge are those that came in, by name; each by the rule of
   * secrets. Sent without any header object, they stay as they were.
   */
  lemma HeadersMergeExactly(existing: Config, incoming: Config, clearedFields: seq<string>, clearedHeaders: seq<string>)
    requires "headers" in existing && existing["headers"].Object?
    ensures var merged := Merge("webhook", existing, incoming, clearedFields, clearedHeaders);
            && ("headers" !in incoming ==> Get(merged, "headers") == Some(existing["headers"]))
            && ("headers" in incoming && !incoming["headers"].Object? ==>
                Get(merged, "headers") == Some(incoming["headers"]))
            && ("headers" in incoming && incoming["headers"].Object? ==>
                  "headers" in merged && merged["headers"].Object?
                  && var kept, sent := existing["headers"].members, incoming["headers"].members;
                     var after := merged["headers"].members;
                     && after.Keys == sent.Keys
                     && forall k | k in after ::
                          after[k] == if k in clearedHeaders then Str("")
                                    else if BlankText(sent[k]) && k in kept && kept[k].Str? && !BlankText(kept[k])
                                      then kept[k]
                                    else sent[k])
  {
    if "headers" in incoming && incoming["headers"].Object? {
      var kept, sent := existing["headers"].members, incoming["headers"].members;
      forall v ensures (BlankText(v) <==> v.Str? && Blank(v.text)) && (Filled(v) <==> v.Str? && !BlankText(v)) {
        BlankTextExactly(v);
      }
      hide BlankText, Blank, Filled;
      MergedKeys(kept, sent, clearedHeaders);
      forall k | k in sent
        ensures MergeHeaders(kept, sent, clearedHeaders)[k]
                == if k in clearedHeaders then Str("")
                   else if BlankText(sent[k]) && k in kept && kept[k].Str? && !BlankText(kept[k]) then kept[k]
                   else sent[k]
      {
        MergedHeader(kept, sent, clearedHeaders, k);
      }
    }
  }

  /** What the client sees: filled secrets and headers as empty texts, everything else as it is. */
  lemma MaskExactly(channelType: string, c: Config, field: string)
    requires field in c
    ensures var shown := Mask(channelType, c);
            && shown.Keys == c.Keys
            && (field in SecretFields(channelType) && c[field].Str? ==>
                shown[field].Str? && TrimSpace(shown[field].text) == "")
            && (field in SecretFields(channelType) && c[field].Str? && TrimSpace(c[field].text) != "" ==>
                shown[field] == Str(""))
            && (field !in SecretFields(channelType)
                && !(channelType == "webhook" && field == "headers" && c[field].Object?) ==>
                  shown[field] == c[field])
            && (channelType == "webhook" && field == "headers" && c[field].Object? ==>
                  && shown[field].Object? && shown[field].members.Keys == c[field].members.Keys
                  && forall k | k in c[field].members ::
                       shown[field].members[k] == if c[field].members[k].Str? && !BlankText(c[field].members[k])
                         then Str("")
                                                  else c[field].members[k])
  {
    KnownSecrets();
    BlankTextExactly(c[field]);
    BlankTextExactly(Str(""));
    assert TrimSpace("") == "";
    if c[field].Object? {
      forall k | k in c[field].members
        ensures Filled(c[field].members[k]) <==> c[field].members[k].Str? && !BlankText(c[field].members[k])
      {
        BlankTextExactly(c[field].members[k]);
      }
    }
    hide TrimSpace, Blank;
  }

  const CHANNEL_TYPES := ["smtp", "resend", "telegram", "webhook", "gotify", "ntfy", "bark", "serverchan", "feishu",
                          "wecom", "dingtalk", "pushdeer", "pushplus", "pushover", "napcat"]

  /** The secrets there are, as pairs of a channel type and one of its fields. */
  const SECRETS := {("smtp", "password"), ("resend", "api_key"), ("telegram", "bot_token"),
                    ("webhook", "secret"), ("gotify", "token"), ("ntfy", "token"), ("ntfy", "password"),
                    ("bark", "device_key"), ("serverchan", "send_key"), ("feishu", "webhook_url"),
                    ("feishu", "secret"), ("wecom", "webhook_url"), ("dingtalk", "webhook_url"),
                    ("dingtalk", "secret"), ("pushdeer", "push_key"), ("pushplus", "token"),
                    ("pushover", "token"), ("pushover", "user"), ("napcat", "access_token")}

  lemma SecretsExactly(channelType: string, field: string)
    ensures field in SecretFields(channelType) <==> (channelType, field) in SECRETS
  {
    hide TrimSpace;
  }

  /** Every channel type keeps something from the client, and nothing is kept for a type that does not exist. */
  lemma EveryTypeHasSecrets(channelType: string)
    ensures SecretFields(channelType) != {} <==> channelType in CHANNEL_TYPES
  {
    hide TrimSpace;
    if channelType in CHANNEL_TYPES {
      var i :| 0 <= i < |CHANNEL_TYPES| && CHANNEL_TYPES[i] == channelType;
    }
  }
}
