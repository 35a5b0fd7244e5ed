/** Saving a configuration and loading it again. */
module ConfigLaws {
  import opened Bytes
  import Duration
  import opened DurationLaws
  import opened Config

  // ---- strings ----

  lemma {:induction false} CStrIsNulFree(s: string)
    ensures NulFree(CStr(s)) && (NulFree(s) ==> CStr(s) == s)
    decreases |s|
  {
    if |s| > 0 && s[0] != '\0' {
      CStrIsNulFree(s[1..]);
      assert s == [s[0]] + s[1..];
      if NulFree(s) {
        assert NulFree(s[1..]) by { assert forall k :: 0 <= k < |s| - 1 ==> s[1..][k] == s[k + 1]; }
      }
    }
  }

  predicate AllNulFree(ss: seq<string>) {
    forall s :: s in ss ==> NulFree(s)
  }

  lemma TextReadsBack(j: Json, key: string, s: string, def: string)
    requires Member(j, key) == Some(Text(s)) && NulFree(s)
    ensures GetString(j, key, def) == s
  {
    CStrIsNulFree(s);
  }

  lemma {:induction false} TextArrayReadsBack(ss: seq<string>)
    requires AllNulFree(ss)
    ensures StringsOf(TextArray(ss)) == ss
    decreases |ss|
  {
    if |ss| > 0 {
      var n := |ss| - 1;
      TextArrayReadsBack(ss[..n]);
      CStrIsNulFree(ss[n]);
      assert TextArray(ss)[..n] == TextArray(ss[..n]);
      assert ss == ss[..n] + [ss[n]];
    }
  }

  lemma {:induction false} StringsAreNulFree(items: seq<Json>)
    ensures AllNulFree(StringsOf(items))
    decreases |items|
  {
    if |items| > 0 {
      StringsAreNulFree(items[..|items| - 1]);
      if items[|items| - 1].Str? {
        CStrIsNulFree(items[|items| - 1].s);
      }
    }
  }

  lemma GetStringIsNulFree(j: Json, key: string, def: string)
    requires NulFree(def)
    ensures NulFree(GetString(j, key, def))
  {
    match Member(j, key)
    case Some(Str(s)) => CStrIsNulFree(s);
    case _ =>
  }

  lemma {:induction false} DigitsNulFree(n: nat)
    ensures NulFree(Duration.Digits(n))
  {
    if n >= 10 {
      DigitsNulFree(n / 10);
    }
  }

  lemma ComponentNulFree(n: nat, unit: string)
    requires NulFree(unit)
    ensures NulFree(Duration.Component(n, unit))
    ensures n > 0 ==> Duration.Component(n, unit) != ""
  {
    DigitsNulFree(n);
  }

  lemma FormatIsText(ms: int)
    ensures NulFree(Duration.Format(ms)) && Duration.Format(ms) != ""
  {
    if ms > 0 {
      var h, m, s, l := Duration.Hours(ms), Duration.Minutes(ms), Duration.Seconds(ms), Duration.Millis(ms);
      Duration.ComponentsSumUp(ms);
      ComponentNulFree(h, "h");
      ComponentNulFree(m, "m");
      ComponentNulFree(s, "s");
      ComponentNulFree(l, "ms");
      hide Duration.Component, Duration.Hours, Duration.Minutes, Duration.Seconds, Duration.Millis;
    }
  }

  // ---- durations ----

  /** What a duration reads back as, the default standing in when it does not parse. */
  function Reread(ms: int, def: int): int {
    Duration.ParseMs(Duration.Format(ms), def)
  }

  lemma DurationReadsBack(j: Json, key: string, ms: int, def: int)
    requires Member(j, key) == Some(Text(Duration.Format(ms)))
    ensures GetDuration(j, key, def) == Reread(ms, def)
  {
    FormatIsText(ms);
    TextReadsBack(j, key, Duration.Format(ms), "");
  }

  // ---- sections ----

  predicate NulFreeAccount(a: AccountConfig) {
    && NulFree(a.privateKey) && NulFree(a.endpointV4) && NulFree(a.endpointV6) && NulFree(a.endpointH2V4)
    && NulFree(a.endpointH2V6) && NulFree(a.endpointPubKey) && NulFree(a.license) && NulFree(a.id)
    && NulFree(a.accessToken) && NulFree(a.ipv4) && NulFree(a.ipv6)
  }

  predicate NulFreeConfig(cfg: FullConfig) {
    && NulFreeAccount(cfg.account)
    && NulFree(cfg.tun.name) && AllNulFree(cfg.tun.dns)
    && NulFree(cfg.outbound.tag) && NulFree(cfg.outbound.sniAddress)
    && NulFree(cfg.outbound.onConnect) && NulFree(cfg.outbound.onDisconnect)
  }

  lemma AccountReadsBack(a: AccountConfig)
    requires NulFreeAccount(a)
    ensures ParseAccount(AccountJson(a)) == a
  {
    hide CStr, NulFree, Text, GetString;
    var j := AccountJson(a);
    TextReadsBack(j, "private_key", a.privateKey, "");
    TextReadsBack(j, "endpoint_v4", a.endpointV4, "");
    TextReadsBack(j, "endpoint_v6", a.endpointV6, "");
    TextReadsBack(j, "endpoint_h2_v4", a.endpointH2V4, "");
    TextReadsBack(j, "endpoint_h2_v6", a.endpointH2V6, "");
    TextReadsBack(j, "endpoint_pub_key", a.endpointPubKey, "");
    TextReadsBack(j, "license", a.license, "");
    TextReadsBack(j, "id", a.id, "");
    TextReadsBack(j, "access_token", a.accessToken, "");
    TextReadsBack(j, "ipv4", a.ipv4, "");
    TextReadsBack(j, "ipv6", a.ipv6, "");
  }

  lemma TunMembers(t: TunSettings)
    ensures var j := TunJson(t);
      && Member(j, "name") == Some(Text(t.name)) && Member(j, "mtu") == Some(Int(t.mtu))
      && Member(j, "ipv4") == Some(Bool(t.ipv4)) && Member(j, "ipv6") == Some(Bool(t.ipv6))
      && Member(j, "persist") == Some(Bool(t.persist)) && Member(j, "tun_fd") == Some(Int(t.tunFd))
      && Member(j, "auto_route") == Some(Bool(t.autoRoute)) && Member(j, "dns") == Some(Arr(TextArray(t.dns)))
  {
    hide Text, TextArray;
  }

  lemma TunReadsBack(t: TunSettings)
    requires NulFree(t.name) && AllNulFree(t.dns)
    ensures ParseTun(TunJson(t)) == t
  {
    TunMembers(t);
    TextReadsBack(TunJson(t), "name", t.name, "");
    TextArrayReadsBack(t.dns);
    hide CStr, NulFree, Text, GetString, StringsOf, TextArray, AllNulFree, TunJson, Member;
  }

  lemma CongestionReadsBack(c: CongestionConfig)
    ensures ParseCongestion(CongestionJson(c)) == c
  {
    hide CStr, Text, GetString;
    var j := CongestionJson(c);
    assert NulFree(KindText(c.kind)) && NulFree(ProfileText(c.profile));
    TextReadsBack(j, "type", KindText(c.kind), "bbr");
    TextReadsBack(j, "bbr_profile", ProfileText(c.profile), "standard");
    TextsDiffer();
  }

  lemma TextsDiffer()
    ensures forall k :: ParseKind(KindText(k)) == k
    ensures forall p :: ParseProfile(ProfileText(p)) == p
  {
    assert |"reno"| == 4 && |"brutal"| == 6 && |"bbr"| == 3;
    assert |"conservative"| == 12 && |"aggressive"| == 10 && |"standard"| == 8;
  }

  function RereadNoise(n: NoiseConfig): NoiseConfig {
    n.(delayMinMs := Reread(n.delayMinMs, 0), delayMaxMs := Reread(n.delayMaxMs, 0))
  }

  lemma NoiseReadsBack(n: NoiseConfig)
    ensures ParseNoise(NoiseJson(n)) == RereadNoise(n)
  {
    hide Text, GetDuration, Reread;
    DurationReadsBack(NoiseJson(n), "delay_min", n.delayMinMs, 0);
    DurationReadsBack(NoiseJson(n), "delay_max", n.delayMaxMs, 0);
  }

  /** The settings read back with durations that may have changed, and without the tag. */
  function RereadOutbound(o: OutboundSettings): OutboundSettings {
    o.(tag := "warp", keepaliveMs := Reread(o.keepaliveMs, 30000), reconnectMs := Reread(o.reconnectMs, 1000),
       noise := RereadNoise(o.noise), preNoise := RereadNoise(o.preNoise))
  }

  lemma OutboundNumbers(o: OutboundSettings)
    ensures var j := OutboundJson(o);
      Member(j, "port") == Some(Int(o.port)) && Member(j, "initial_packet_size") == Some(Int(o.initialPacketSize))
  {
    hide Text, NoiseJson, CongestionJson;
  }

  lemma OutboundFlags(o: OutboundSettings)
    ensures var j := OutboundJson(o);
      && Member(j, "use_ipv6") == Some(Bool(o.useIpv6)) && Member(j, "use_http2") == Some(Bool(o.useHttp2))
      && Member(j, "always_reconnect") == Some(Bool(o.alwaysReconnect))
      && Member(j, "insecure") == Some(Bool(o.insecure))
  {
    hide Text, NoiseJson, CongestionJson;
  }

  lemma OutboundSections(o: OutboundSettings)
    ensures var j := OutboundJson(o);
      && Member(j, "tag") == None
      && Member(j, "congestion") == Some(CongestionJson(o.congestion))
      && Member(j, "noise") == Some(NoiseJson(o.noise)) && Member(j, "pre_noise") == Some(NoiseJson(o.preNoise))
  {
    hide Text, NoiseJson, CongestionJson;
  }

  lemma OutboundScalarsReadBack(o: OutboundSettings)
    ensures var j := OutboundJson(o);
      && GetInt(j, "port", 443) == o.port && GetUint16(j, "initial_packet_size", 0) == o.initialPacketSize
      && GetBool(j, "use_ipv6", false) == o.useIpv6 && GetBool(j, "use_http2", false) == o.useHttp2
      && GetBool(j, "always_reconnect", false) == o.alwaysReconnect && GetBool(j, "insecure", false) == o.insecure
  {
    hide OutboundJson, Member;
    OutboundNumbers(o);
    OutboundFlags(o);
  }

  lemma OutboundTextsReadBack(o: OutboundSettings)
    requires NulFree(o.sniAddress) && NulFree(o.onConnect) && NulFree(o.onDisconnect)
    ensures var j := OutboundJson(o);
      && GetString(j, "sni_address", "") == o.sniAddress
      && GetString(j, "on_connect", "") == o.onConnect && GetString(j, "on_disconnect", "") == o.onDisconnect
      && GetDuration(j, "keepalive_period", 30000) == Reread(o.keepaliveMs, 30000)
      && GetDuration(j, "reconnect_delay", 1000) == Reread(o.reconnectMs, 1000)
  {
    hide Text, GetDuration, GetString, Reread, NulFree, NoiseJson, CongestionJson;
    var j := OutboundJson(o);
    TextReadsBack(j, "sni_address", o.sniAddress, "");
    TextReadsBack(j, "on_connect", o.onConnect, "");
    TextReadsBack(j, "on_disconnect", o.onDisconnect, "");
    DurationReadsBack(j, "keepalive_period", o.keepaliveMs, 30000);
    DurationReadsBack(j, "reconnect_delay", o.reconnectMs, 1000);
  }

  lemma OutboundHasNoTag(o: OutboundSettings)
    ensures GetString(OutboundJson(o), "tag", "warp") == "warp"
  {
    hide OutboundJson;
    OutboundSections(o);
  }

  lemma OutboundReadsBack(o: OutboundSettings)
    requires NulFree(o.sniAddress) && NulFree(o.onConnect) && NulFree(o.onDisconnect)
    ensures ParseOutbound(OutboundJson(o)) == RereadOutbound(o)
  {
    OutboundHasNoTag(o);
    hide OutboundJson, GetDuration, GetString, GetInt, GetUint16, GetBool, Member, Reread, NulFree,
         RereadNoise, NoiseJson, CongestionJson, ParseNoise, ParseCongestion;
    OutboundScalarsReadBack(o);
    OutboundSections(o);
    OutboundTextsReadBack(o);
    CongestionReadsBack(o.congestion);
    NoiseReadsBack(o.noise);
    NoiseReadsBack(o.preNoise);
  }

  // ---- the document ----

  function RereadConfig(cfg: FullConfig): FullConfig {
    var ob := RereadOutbound(cfg.outbound);
    cfg.(outbound := if cfg.outbound.tag == "" then ob else ob.(tag := cfg.outbound.tag))
  }

  lemma OutboundOfDocument(cfg: FullConfig)
    requires NulFreeConfig(cfg)
    ensures OutboundOf(Document(cfg)) == RereadConfig(cfg).outbound
  {
    hide Text, TunJson, AccountJson, OutboundJson, ParseOutbound, RereadOutbound, GetString;
    var o := cfg.outbound;
    var outbound := Obj(map["tag" := Text(o.tag), "settings" := OutboundJson(o)]);
    assert Member(Document(cfg), "outbound") == Some(outbound);
    assert Member(outbound, "settings") == Some(OutboundJson(o));
    TextReadsBack(outbound, "tag", o.tag, "");
    OutboundReadsBack(o);
  }

  lemma TunOfDocument(t: TunSettings)
    requires NulFree(t.name) && AllNulFree(t.dns)
    ensures var inbound := Obj(map["type" := Text("tun"), "settings" := TunJson(t)]);
      TunOf(inbound) == t && GetString(inbound, "type", "") == "tun"
  {
    var inbound := Obj(map["type" := Text("tun"), "settings" := TunJson(t)]);
    TextReadsBack(inbound, "type", "tun", "");
    hide Text, TunJson, ParseTun, GetString;
    assert Member(inbound, "settings") == Some(TunJson(t));
    TunReadsBack(t);
  }

  lemma LoadOfDocument(cfg: FullConfig)
    requires NulFreeConfig(cfg)
    ensures Load(Document(cfg)) == Settle(RereadConfig(cfg))
  {
    hide Text, Settle, TunJson, AccountJson, OutboundJson, TunOf, OutboundOf, ParseAccount, RereadOutbound, GetString;
    var doc := Document(cfg);
    assert Member(doc, "inbound") == Some(Obj(map["type" := Text("tun"), "settings" := TunJson(cfg.tun)]));
    assert Member(doc, "account") == Some(AccountJson(cfg.account));
    AccountReadsBack(cfg.account);
    TunOfDocument(cfg.tun);
    OutboundOfDocument(cfg);
  }

  // ---- the round trip ----

  /** What every successfully loaded configuration satisfies. */
  predicate Settled(cfg: FullConfig) {
    && NulFreeConfig(cfg)
    && cfg.outbound.port != 0 && cfg.outbound.keepaliveMs != 0 && cfg.outbound.reconnectMs != 0
    && cfg.outbound.sniAddress != "" && cfg.tun.dns != []
    && Complaint(cfg) == ""
  }

  lemma SettledIsFixed(cfg: FullConfig)
    requires Settled(cfg)
    ensures cfg.tun.mtu > 0 && WithDefaults(cfg) == cfg
  {
  }

  /** The durations a double holds exactly. */
  predicate ExactDurations(cfg: FullConfig) {
    var o := cfg.outbound;
    && o.keepaliveMs < 0x20_0000_0000_0000 && o.reconnectMs < 0x20_0000_0000_0000
    && o.noise.delayMinMs < 0x20_0000_0000_0000 && o.noise.delayMaxMs < 0x20_0000_0000_0000
    && o.preNoise.delayMinMs < 0x20_0000_0000_0000 && o.preNoise.delayMaxMs < 0x20_0000_0000_0000
  }

  /** A duration that is not negative and prints as a single component. */
  predicate Plain(ms: int) {
    ms >= 0 && ComponentCount(ms) <= 1
  }

  predicate PlainDurations(cfg: FullConfig) {
    var o := cfg.outbound;
    && Plain(o.keepaliveMs) && Plain(o.reconnectMs)
    && Plain(o.noise.delayMinMs) && Plain(o.noise.delayMaxMs)
    && Plain(o.preNoise.delayMinMs) && Plain(o.preNoise.delayMaxMs)
  }

  /** With a plain default, exactly the plain durations read back; the others read back as 0 or the default. */
  lemma RereadIff(ms: int, def: int)
    requires ms < 0x20_0000_0000_0000 && Plain(def)
    ensures Reread(ms, def) == ms <==> Plain(ms)
    ensures !Plain(ms) ==> Reread(ms, def) == if ms < 0 then 0 else def
  {
    hide ComponentCount, Duration.ParseMs, Duration.Format;
    RoundTripIff(ms, def);
    if ms >= 0 {
      ParseOfFormat(ms, def);
    } else {
      ParseOfFormat(0, def);
      ZeroHasNoComponent();
      NegativeFormat(ms);
    }
  }

  lemma NegativeFormat(ms: int)
    requires ms < 0
    ensures Duration.Format(ms) == Duration.Format(0)
  {
  }

  lemma DefaultsArePlain()
    ensures Plain(0) && Plain(1000) && Plain(30000)
  {
  }

  lemma NoiseRereadIff(n: NoiseConfig)
    requires n.delayMinMs < 0x20_0000_0000_0000 && n.delayMaxMs < 0x20_0000_0000_0000
    ensures RereadNoise(n) == n <==> Plain(n.delayMinMs) && Plain(n.delayMaxMs)
  {
    hide Reread, Plain;
    DefaultsArePlain();
    RereadIff(n.delayMinMs, 0);
    RereadIff(n.delayMaxMs, 0);
  }

  /** Reading back is the identity exactly on plain durations and a tag, and defaults cannot repair it. */
  lemma RereadConfigIff(cfg: FullConfig)
    requires Settled(cfg) && ExactDurations(cfg)
    ensures WithDefaults(RereadConfig(cfg)) == cfg <==> PlainDurations(cfg) && cfg.outbound.tag != ""
  {
    SettledIsFixed(cfg);
    var o, tun := cfg.outbound, cfg.tun;
    assert o.keepaliveMs != 0 && o.reconnectMs != 0 && o.port != 0 && o.sniAddress != "";
    assert tun.dns != [] && tun.mtu != 0;
    DefaultsArePlain();
    RereadIff(o.keepaliveMs, 30000);
    RereadIff(o.reconnectMs, 1000);
    NoiseRereadIff(o.noise);
    NoiseRereadIff(o.preNoise);
    hide Reread, Plain, RereadNoise, Settled;
  }

  // ---- what is loaded is settled ----

  lemma ParsedAccountIsNulFree(j: Json)
    ensures NulFreeAccount(ParseAccount(j))
  {
    hide GetString, NulFree;
    assert NulFree("") by { EmptyIsNulFree(); }
    GetStringIsNulFree(j, "private_key", "");
    GetStringIsNulFree(j, "endpoint_v4", "");
    GetStringIsNulFree(j, "endpoint_v6", "");
    GetStringIsNulFree(j, "endpoint_h2_v4", "");
    GetStringIsNulFree(j, "endpoint_h2_v6", "");
    GetStringIsNulFree(j, "endpoint_pub_key", "");
    GetStringIsNulFree(j, "license", "");
    GetStringIsNulFree(j, "id", "");
    GetStringIsNulFree(j, "access_token", "");
    GetStringIsNulFree(j, "ipv4", "");
    GetStringIsNulFree(j, "ipv6", "");
  }

  lemma EmptyIsNulFree()
    ensures NulFree("") && NulFree("warp")
  {
  }

  lemma ParsedTunIsNulFree(inbound: Json)
    ensures NulFree(TunOf(inbound).name) && AllNulFree(TunOf(inbound).dns)
  {
    hide GetString, StringsOf;
    match Member(inbound, "settings")
    case Some(Obj(m)) =>
      GetStringIsNulFree(Obj(m), "name", "");
      match Member(Obj(m), "dns") {
        case Some(Arr(items)) => StringsAreNulFree(items);
        case _ =>
      }
    case _ =>
  }

  predicate NulFreeOutbound(o: OutboundSettings) {
    NulFree(o.tag) && NulFree(o.sniAddress) && NulFree(o.onConnect) && NulFree(o.onDisconnect)
  }

  lemma ParsedSettingsAreNulFree(j: Json)
    ensures NulFreeOutbound(ParseOutbound(j))
  {
    hide GetString, GetDuration, GetInt, GetBool, GetUint16, ParseCongestion, ParseNoise, NulFree;
    assert NulFree("") && NulFree("warp") by { EmptyIsNulFree(); }
    GetStringIsNulFree(j, "tag", "warp");
    GetStringIsNulFree(j, "sni_address", "");
    GetStringIsNulFree(j, "on_connect", "");
    GetStringIsNulFree(j, "on_disconnect", "");
  }

  lemma DefaultIsNulFree()
    ensures NulFreeOutbound(DEFAULT_OUTBOUND)
  {
  }

  lemma ParsedOutboundIsNulFree(doc: Json)
    ensures NulFreeOutbound(OutboundOf(doc))
  {
    DefaultIsNulFree();
    assert NulFree("");
    hide GetString, ParseOutbound, NulFree;
    match Member(doc, "outbound")
    case Some(Obj(m)) =>
      GetStringIsNulFree(Obj(m), "tag", "");
      match Member(Obj(m), "settings") {
        case Some(Obj(k)) => ParsedSettingsAreNulFree(Obj(k));
        case _ =>
      }
    case _ =>
  }

  lemma LoadedIsSettled(doc: Json)
    requires Load(doc).Loaded?
    ensures Settled(Load(doc).config)
  {
    hide ParseAccount, TunOf, OutboundOf, NulFreeAccount, GetString;
    match Member(doc, "account")
    case Some(Obj(account)) =>
      match Member(doc, "inbound") {
        case Some(Obj(inbound)) =>
          ParsedAccountIsNulFree(Obj(account));
          ParsedTunIsNulFree(Obj(inbound));
          ParsedOutboundIsNulFree(doc);
          SettleIsSettled(FullConfig(ParseAccount(Obj(account)), TunOf(Obj(inbound)), OutboundOf(doc)));
        case _ =>
      }
    case _ =>
  }

  lemma SettleIsSettled(cfg: FullConfig)
    requires NulFreeConfig(cfg) && Settle(cfg).Loaded?
    ensures Settled(Settle(cfg).config)
  {
    hide NulFreeAccount, Complaint;
    assert NulFree(DEFAULT_SNI);
    assert AllNulFree(["1.1.1.1", "2606:4700:4700::1111"]);
  }

  /**
   Saving a loaded configuration and loading the document again gives it back exactly when its tag is not
   empty and each of its durations is non-negative and prints as a single component.
   */
  lemma SaveThenLoadIff(doc: Json)
    requires Load(doc).Loaded? && ExactDurations(Load(doc).config)
    ensures var cfg := Load(doc).config;
      Load(Document(cfg)) == Loaded(cfg) <==> PlainDurations(cfg) && cfg.outbound.tag != ""
  {
    hide Load, Document, RereadConfig, PlainDurations, NulFreeConfig, WithDefaults, Complaint, ExactDurations;
    var cfg := Load(doc).config;
    LoadedIsSettled(doc);
    LoadOfDocument(cfg);
    RereadConfigIff(cfg);
  }

  /** A minimal document with a keepalive of one and a half minutes. */
  function NinetySeconds(): Json {
    Obj(map[
      "account" := Obj(map["private_key" := Str("k")]),
      "inbound" := Obj(map["type" := Str("tun")]),
      "outbound" := Obj(map["settings" := Obj(map["keepalive_period" := Str("90s")])])])
  }

  lemma NinetySecondsParse()
    ensures Duration.ParseMs("90s", 30000) == 90000
  {
    assert Duration.Digits(9) == "9" && Duration.Digits(90) == "90";
    assert "90" + "s" == "90s";
    WholeFactor(90, S);
    hide Duration.ParseMs;
    OneComponentParses(90, S, 30000);
  }

  lemma ShortTexts()
    ensures CStr("k") == "k" && CStr("tun") == "tun" && CStr("90s") == "90s"
  {
    assert NulFree("k") && NulFree("tun") && NulFree("90s");
    CStrIsNulFree("k");
    CStrIsNulFree("tun");
    CStrIsNulFree("90s");
  }

  /** Without noise, only the account, the MTU and the congestion section are checked. */
  lemma QuietSettles(cfg: FullConfig)
    requires cfg.account.privateKey != "" && cfg.tun.mtu > 0 && CongestionError(cfg.outbound.congestion) == ""
    requires !cfg.outbound.noise.enabled && !cfg.outbound.preNoise.enabled
    ensures Settle(cfg) == Loaded(WithDefaults(cfg))
  {
    hide CongestionError;
  }

  /** A document without inbound settings, congestion and noise is loaded with its keepalive. */
  lemma PlainDocumentLoads(doc: Json, account: Json, inbound: Json, outbound: Json, settings: Json, ms: int)
    requires doc.Obj? && account.Obj? && inbound.Obj? && outbound.Obj? && settings.Obj?
    requires Member(doc, "account") == Some(account) && Member(doc, "inbound") == Some(inbound)
    requires Member(doc, "outbound") == Some(outbound) && Member(outbound, "settings") == Some(settings)
    requires GetString(account, "private_key", "") != "" && GetString(inbound, "type", "") == "tun"
    requires Member(inbound, "settings") == None && Member(settings, "congestion") == None
    requires Member(settings, "noise") == None && Member(settings, "pre_noise") == None
    requires GetDuration(settings, "keepalive_period", 30000) == ms != 0
    ensures var r := Load(doc);
      r.Loaded? && r.config.outbound.keepaliveMs == ms
      && r.config.outbound.noise == DEFAULT_NOISE && r.config.outbound.preNoise == DEFAULT_NOISE
  {
    hide Member, GetString, GetDuration, GetInt, GetBool, GetUint16, ParseCongestion, ParseNoise;
    var ob := OutboundOf(doc);
    SettingsWithKeepalive(settings, ms);
    assert ob == ParseOutbound(settings) || ob == ParseOutbound(settings).(tag := GetString(outbound, "tag", ""));
    assert TunOf(inbound) == DEFAULT_TUN;
    assert ParseAccount(account).privateKey != "";
    hide OutboundOf, TunOf, ParseAccount, ParseOutbound;
    var cfg := FullConfig(ParseAccount(account), DEFAULT_TUN, ob);
    assert Load(doc) == Settle(cfg);
    hide Load, Settle;
    QuietSettles(cfg);
  }

  lemma SettingsWithKeepalive(settings: Json, ms: int)
    requires GetDuration(settings, "keepalive_period", 30000) == ms
    requires Member(settings, "congestion") == None && Member(settings, "noise") == None
    requires Member(settings, "pre_noise") == None
    ensures var ob := ParseOutbound(settings);
      ob.keepaliveMs == ms && ob.congestion == DEFAULT_CONGESTION && ob.noise == ob.preNoise == DEFAULT_NOISE
  {
    hide Member, GetString, GetDuration, GetInt, GetBool, GetUint16;
  }

  lemma NinetySecondsMembers()
    ensures var doc := NinetySeconds();
      var account, inbound := Obj(map["private_key" := Str("k")]), Obj(map["type" := Str("tun")]);
      var settings := Obj(map["keepalive_period" := Str("90s")]);
      var outbound := Obj(map["settings" := settings]);
      && doc.Obj? && Member(doc, "account") == Some(account) && Member(doc, "inbound") == Some(inbound)
      && Member(doc, "outbound") == Some(outbound) && Member(outbound, "settings") == Some(settings)
      && Member(account, "private_key") == Some(Str("k")) && Member(inbound, "type") == Some(Str("tun"))
      && Member(inbound, "settings") == None && Member(settings, "congestion") == None
      && Member(settings, "noise") == None && Member(settings, "pre_noise") == None
      && Member(settings, "keepalive_period") == Some(Str("90s"))
  {
  }

  lemma NinetySecondsLoad()
    ensures var r := Load(NinetySeconds());
      r.Loaded? && r.config.outbound.keepaliveMs == 90000
      && r.config.outbound.noise == DEFAULT_NOISE && r.config.outbound.preNoise == DEFAULT_NOISE
  {
    NinetySecondsMembers();
    ShortTexts();
    NinetySecondsParse();
    hide CStr, Duration.ParseMs, Member, NinetySeconds;
    var account, inbound := Obj(map["private_key" := Str("k")]), Obj(map["type" := Str("tun")]);
    var settings := Obj(map["keepalive_period" := Str("90s")]);
    var outbound := Obj(map["settings" := settings]);
    assert GetDuration(settings, "keepalive_period", 30000) == 90000;
    assert GetString(account, "private_key", "") == "k" && GetString(inbound, "type", "") == "tun";
    hide GetDuration, GetString, Load;
    PlainDocumentLoads(NinetySeconds(), account, inbound, outbound, settings, 90000);
  }

  /** A configuration without noise is saved and loaded with the keepalive that its text reads back as. */
  lemma SavedKeepalive(cfg: FullConfig)
    requires Settled(cfg) && cfg.outbound.noise == DEFAULT_NOISE && cfg.outbound.preNoise == DEFAULT_NOISE
    requires Reread(cfg.outbound.keepaliveMs, 30000) == 30000
    ensures var again := Load(Document(cfg)); again.Loaded? && again.config.outbound.keepaliveMs == 30000
  {
    hide NulFreeConfig, CongestionError, Reread;
    assert NulFreeConfig(cfg) && CongestionError(cfg.outbound.congestion) == "" && cfg.tun.mtu > 0;
    assert cfg.account.privateKey != "";
    hide Settled, Load, Document, Settle;
    LoadOfDocument(cfg);
    var r := RereadConfig(cfg);
    assert r.outbound.keepaliveMs == 30000 && r.outbound.congestion == cfg.outbound.congestion;
    assert !r.outbound.noise.enabled && !r.outbound.preNoise.enabled;
    assert r.account == cfg.account && r.tun == cfg.tun;
    hide RereadConfig, TunWithDefaults;
    QuietSettles(r);
  }

  /** A keepalive of one and a half minutes is loaded, saved as `1m30s`, and loaded again as the default. */
  lemma NinetySecondsAreReset()
    ensures var r := Load(NinetySeconds());
      && r.Loaded? && r.config.outbound.keepaliveMs == 90000
      && var again := Load(Document(r.config));
         again.Loaded? && again.config.outbound.keepaliveMs == 30000
  {
    NinetySecondsLoad();
    LoadedIsSettled(NinetySeconds());
    NinetySecondsAreLost(30000);
    assert Reread(90000, 30000) == 30000;
    hide Load, Document, NinetySeconds, Settled, Reread, Duration.ParseMs, Duration.Format;
    SavedKeepalive(Load(NinetySeconds()).config);
  }
}
