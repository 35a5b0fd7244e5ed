/**
 What a document has to say to be loaded, what the settings become that it leaves out, and how single members
 are read, with every name and number written out.
 */
module ConfigRules {
  import opened Bytes
  import opened Config
  import opened ConfigLaws
  import Duration

  // ---- validation ----

  /** The rules for the congestion section. */
  predicate CongestionRule(c: CongestionConfig) {
    match c.kind
    case Reno => c.brutalBps == 0
    case Bbr => c.brutalBps == 0
    case Brutal => c.brutalBps > 0
  }

  /** The rules for a noise section; one that is not enabled may say anything. */
  predicate NoiseRule(n: NoiseConfig) {
    n.enabled ==> n.count >= 0 && n.minSize <= n.maxSize && n.delayMinMs <= n.delayMaxMs
  }

  predicate Rules(c: FullConfig) {
    && c.account.privateKey != ""
    && c.tun.mtu > 0
    && CongestionRule(c.outbound.congestion)
    && NoiseRule(c.outbound.noise)
    && NoiseRule(c.outbound.preNoise)
  }

  /** What a broken rule is called. */
  function CongestionText(c: CongestionConfig): string {
    match c.kind
    case Reno => "congestion: reno must not set brutal_bps"
    case Bbr => "congestion: bbr must not set brutal_bps"
    case Brutal => "congestion: brutal requires brutal_bps > 0"
  }

  function NoiseText(n: NoiseConfig, section: string): string {
    if n.count < 0 then section + ": count must be >= 0"
    else if n.minSize > n.maxSize then section + ": min_size must be <= max_size"
    else section + ": delay_min must be <= delay_max"
  }

  lemma CongestionMessage(c: CongestionConfig)
    ensures CongestionError(c) == if CongestionRule(c) then "" else CongestionText(c)
    ensures CongestionText(c) != ""
  {
  }

  lemma NoiseMessage(n: NoiseConfig, section: string)
    ensures NoiseError(n, section) == if NoiseRule(n) then "" else NoiseText(n, section)
    ensures NoiseText(n, section) != ""
  {
    assert |section + ": count must be >= 0"| > 0 && |section + ": min_size must be <= max_size"| > 0;
    assert |section + ": delay_min must be <= delay_max"| > 0;
  }

  /** The first rule that is broken, in the order of the sections, gives the message. */
  lemma Verdict(cfg: FullConfig)
    ensures var c := WithDefaults(cfg);
      Settle(cfg) ==
        if c.account.privateKey == "" then Rejected("account: private_key is required")
        else if c.tun.mtu <= 0 then Rejected("inbound: mtu must be positive")
        else if !CongestionRule(c.outbound.congestion) then Rejected(CongestionText(c.outbound.congestion))
        else if !NoiseRule(c.outbound.noise) then Rejected(NoiseText(c.outbound.noise, "noise"))
        else if !NoiseRule(c.outbound.preNoise) then Rejected(NoiseText(c.outbound.preNoise, "pre_noise"))
        else Loaded(c)
    ensures Settle(cfg).Loaded? <==> Rules(WithDefaults(cfg))
  {
    var c := WithDefaults(cfg);
    CongestionMessage(c.outbound.congestion);
    NoiseMessage(c.outbound.noise, "noise");
    NoiseMessage(c.outbound.preNoise, "pre_noise");
    hide WithDefaults, CongestionError, NoiseError, CongestionRule, NoiseRule, CongestionText, NoiseText;
  }

  predicate HasObject(doc: Json, key: string) {
    doc.Obj? && key in doc.members && doc.members[key].Obj?
  }

  /** The configuration that the sections of a document spell, before defaults. */
  function Spelled(doc: Json): FullConfig
    requires HasObject(doc, "account") && HasObject(doc, "inbound")
  {
    FullConfig(ParseAccount(doc.members["account"]), TunOf(doc.members["inbound"]), OutboundOf(doc))
  }

  /**
   A document is loaded exactly when it is an object with an `account` object and an `inbound` object of type
   `tun`, and its settings, defaults filled in, keep the rules.
   */
  lemma LoadedIff(doc: Json)
    ensures Load(doc).Loaded? <==>
      && HasObject(doc, "account") && HasObject(doc, "inbound")
      && GetString(doc.members["inbound"], "type", "") == "tun"
      && Rules(WithDefaults(Spelled(doc)))
  {
    ShapeMessages(doc);
    if HasObject(doc, "account") && HasObject(doc, "inbound") {
      Verdict(Spelled(doc));
    }
    hide Load, Settle, Spelled, GetString, Rules, WithDefaults;
  }

  /** What a document of another shape is told, first things first. */
  lemma ShapeMessages(doc: Json)
    ensures Load(doc) ==
      if !doc.Obj? then Rejected("config must be a JSON object")
      else if !HasObject(doc, "account") then Rejected("missing or invalid 'account' section")
      else if !HasObject(doc, "inbound") then Rejected("missing or invalid 'inbound' section")
      else if GetString(doc.members["inbound"], "type", "") != "tun" then
        Rejected("unsupported inbound type: " + GetString(doc.members["inbound"], "type", "")
                 + " (only 'tun' is supported)")
      else Settle(Spelled(doc))
  {
    hide Settle, ParseAccount, TunOf, OutboundOf, GetString;
  }

  function WithNoise(cfg: FullConfig, n: NoiseConfig): FullConfig {
    cfg.(outbound := cfg.outbound.(noise := n))
  }

  /** In a configuration that keeps the rules otherwise, the noise section decides. */
  lemma NoiseDecides(cfg: FullConfig, n: NoiseConfig)
    requires Rules(WithDefaults(cfg))
    ensures Settle(WithNoise(cfg, n)) ==
      if NoiseRule(n) then Loaded(WithDefaults(WithNoise(cfg, n))) else Rejected(NoiseText(n, "noise"))
  {
    assert WithDefaults(WithNoise(cfg, n)) == WithNoise(WithDefaults(cfg), n);
    Verdict(WithNoise(cfg, n));
    hide Settle, WithDefaults, NoiseText, CongestionText, CongestionRule, NoiseRule;
  }

  lemma BadSizes(n: NoiseConfig)
    requires n.enabled && n.count >= 0 && n.minSize > n.maxSize
    ensures NoiseText(n, "noise") == "noise: min_size must be <= max_size"
  {
    assert "noise" + ": min_size must be <= max_size" == "noise: min_size must be <= max_size";
  }

  /** Noise of 40 to 1200 octets is fine; of 1200 to 40 it is not. */
  lemma NoiseSizes(cfg: FullConfig)
    requires Rules(WithDefaults(cfg))
    ensures Settle(WithNoise(cfg, NoiseConfig(true, 5, 40, 1200, 0, 0))).Loaded?
    ensures Settle(WithNoise(cfg, NoiseConfig(true, 5, 1200, 40, 0, 0))) ==
      Rejected("noise: min_size must be <= max_size")
  {
    var good, bad := NoiseConfig(true, 5, 40, 1200, 0, 0), NoiseConfig(true, 5, 1200, 40, 0, 0);
    assert NoiseRule(good) && !NoiseRule(bad);
    BadSizes(bad);
    hide Settle, NoiseText, NoiseRule, Rules, WithDefaults, WithNoise;
    NoiseDecides(cfg, good);
    NoiseDecides(cfg, bad);
  }

  // ---- defaults ----

  /** What `apply_defaults` fills in. */
  lemma DefaultValues(cfg: FullConfig)
    ensures var c, o := WithDefaults(cfg), cfg.outbound;
      && c.account == cfg.account
      && c.outbound == o.(port := if o.port == 0 then 443 else o.port,
                          keepaliveMs := if o.keepaliveMs == 0 then 30000 else o.keepaliveMs,
                          reconnectMs := if o.reconnectMs == 0 then 1000 else o.reconnectMs,
                          sniAddress := if o.sniAddress == "" then "consumer-masque.cloudflareclient.com"
                                        else o.sniAddress)
      && c.tun == cfg.tun.(mtu := if cfg.tun.mtu == 0 then 1280 else cfg.tun.mtu,
                           dns := if cfg.tun.dns == [] then ["1.1.1.1", "2606:4700:4700::1111"] else cfg.tun.dns)
  {
  }

  /** The settings of an empty object, and of a missing one. */
  lemma EmptyInbound(inbound: Json)
    requires Member(inbound, "settings") == Some(Obj(map[])) || Member(inbound, "settings") == None
    ensures TunOf(inbound) == TunSettings("", 1280, true, true, false, 0, true, [])
  {
    NothingToRead();
    hide Member, GetString, GetInt, GetBool;
  }

  lemma NothingToRead()
    ensures forall key :: Member(Obj(map[]), key) == None
    ensures forall key, d :: GetString(Obj(map[]), key, d) == d
    ensures forall key, d :: GetInt(Obj(map[]), key, d) == d
    ensures forall key, d :: GetBool(Obj(map[]), key, d) == d
    ensures forall key, d :: GetUint16(Obj(map[]), key, d) == d
    ensures forall key, d :: GetDuration(Obj(map[]), key, d) == d
  {
  }

  lemma EmptySettings()
    ensures ParseOutbound(Obj(map[])) ==
      OutboundSettings("warp", 443, false, false, "", 30000, 0, 1000, false, false, "", "",
                       CongestionConfig(Bbr, 0, Standard), NoiseConfig(false, 0, 0, 0, 0, 0),
                       NoiseConfig(false, 0, 0, 0, 0, 0))
  {
    NothingToRead();
    hide Member, GetString, GetInt, GetBool, GetUint16, GetDuration, ParseCongestion, ParseNoise;
  }

  lemma EmptyOutbound(doc: Json, outbound: Json)
    requires Member(doc, "outbound") == Some(outbound) && outbound.Obj? && GetString(outbound, "tag", "") == ""
    ensures Member(outbound, "settings") == Some(Obj(map[])) ==>
      OutboundOf(doc) ==
      OutboundSettings("warp", 443, false, false, "", 30000, 0, 1000, false, false, "", "",
                       CongestionConfig(Bbr, 0, Standard), NoiseConfig(false, 0, 0, 0, 0, 0),
                       NoiseConfig(false, 0, 0, 0, 0, 0))
    ensures Member(outbound, "settings") == None ==>
      OutboundOf(doc) ==
      OutboundSettings("warp", 443, false, false, "consumer-masque.cloudflareclient.com", 30000, 0, 1000, false, false,
                       "", "", CongestionConfig(Bbr, 0, Standard), NoiseConfig(false, 0, 0, 0, 0, 0),
                       NoiseConfig(false, 0, 0, 0, 0, 0))
  {
    EmptySettings();
    hide Member, GetString, ParseOutbound;
  }

  /** The tag beside the settings wins when it is not empty. */
  lemma TagOf(doc: Json, outbound: Json)
    requires Member(doc, "outbound") == Some(outbound) && outbound.Obj?
    ensures var inner := match Member(outbound, "settings")
        case Some(Obj(m)) => GetString(Obj(m), "tag", "warp")
        case _ => "warp";
      OutboundOf(doc).tag == if GetString(outbound, "tag", "") != "" then GetString(outbound, "tag", "") else inner
  {
    hide Member, GetString, GetInt, GetBool, GetUint16, GetDuration, ParseCongestion, ParseNoise;
  }

  // ---- single members ----

  /** A string ends at its first NUL. */
  lemma {:induction false} CStrCuts(a: string, b: string)
    requires NulFree(a)
    ensures CStr(a + "\0" + b) == a
    decreases |a|
  {
    var s := a + "\0" + b;
    if |a| > 0 {
      assert s[0] == a[0] && s[1..] == a[1..] + "\0" + b;
      CStrCuts(a[1..], b);
    }
  }

  /** So does a string that is saved. */
  lemma TextCuts(a: string, b: string)
    requires NulFree(a)
    ensures Text(a + "\0" + b) == Str(a)
  {
    CStrCuts(a, b);
  }

  /** How numbers are read: what fits is taken, 32-bit unsigned numbers wrap, and anything else is the default. */
  lemma NumbersRead(key: string, n: int)
    ensures var j := Obj(map[key := Int(n)]);
      && (-0x8000_0000 <= n < 0x8000_0000 ==> forall d :: GetInt(j, key, d) == n)
      && (0x8000_0000 <= n < 0x1_0000_0000 ==> forall d :: GetInt(j, key, d) == n - 0x1_0000_0000)
      && (n < -0x8000_0000 || n >= 0x1_0000_0000 ==> forall d :: GetInt(j, key, d) == d)
      && (0 <= n < 0x1_0000_0000 ==> forall d :: GetUint16(j, key, d) == n % 0x1_0000)
      && (n < 0 || n >= 0x1_0000_0000 ==> forall d :: GetUint16(j, key, d) == d)
      && (0 <= n < 0x1_0000_0000_0000_0000 ==> forall d :: GetUint64(j, key, d) == n)
      && (n < 0 || n >= 0x1_0000_0000_0000_0000 ==> forall d :: GetUint64(j, key, d) == d)
      && (forall d :: GetBool(j, key, d) == d) && (forall d :: GetString(j, key, d) == d)
  {
  }

  /** A member of another kind counts as missing. */
  lemma OtherKinds(key: string, v: Json)
    ensures var j := Obj(map[key := v]);
      && (!v.Int? ==> forall d :: GetInt(j, key, d) == d)
      && (!v.Int? ==> forall d :: GetUint16(j, key, d) == d)
      && (!v.Int? ==> forall d :: GetUint64(j, key, d) == d)
      && (!v.Bool? ==> forall d :: GetBool(j, key, d) == d)
      && (v.Bool? ==> forall d :: GetBool(j, key, d) == v.b)
      && (!v.Str? ==> forall d :: GetString(j, key, d) == d)
      && (v.Str? ==> forall d :: GetString(j, key, d) == CStr(v.s))
  {
  }

  /** A duration is read from a string; a missing or empty one is the default. */
  lemma DurationsRead(j: Json, key: string, d: int)
    ensures GetString(j, key, "") == "" ==> GetDuration(j, key, d) == d
    ensures GetString(j, key, "") != "" ==> GetDuration(j, key, d) == Duration.ParseMs(GetString(j, key, ""), d)
  {
  }

  /** The two names of congestion control that are recognised besides the default, and the two profiles. */
  lemma NamesRead(s: string)
    ensures ParseKind(s) == Reno <==> s == "reno"
    ensures ParseKind(s) == Brutal <==> s == "brutal"
    ensures ParseProfile(s) == Conservative <==> s == "conservative"
    ensures ParseProfile(s) == Aggressive <==> s == "aggressive"
  {
  }

  /** The DNS list keeps the strings of the array, in order, and skips the rest. */
  lemma {:induction false} StringsOfParts(a: seq<Json>, b: seq<Json>)
    ensures StringsOf(a + b) == StringsOf(a) + StringsOf(b)
    ensures forall s :: StringsOf([Str(s)]) == [CStr(s)]
    ensures forall j: Json :: !j.Str? ==> StringsOf([j]) == []
    decreases |b|
  {
    OneItem();
    if |b| == 0 {
      assert a + b == a;
    } else {
      assert (a + b)[..|a + b| - 1] == a + b[..|b| - 1];
      StringsOfParts(a, b[..|b| - 1]);
    }
  }

  lemma OneItem()
    ensures forall s :: StringsOf([Str(s)]) == [CStr(s)]
    ensures forall j: Json :: !j.Str? ==> StringsOf([j]) == []
  {
    forall j: Json ensures StringsOf([j]) == if j.Str? then [CStr(j.s)] else [] {
      assert [j][..0] == [];
    }
  }

  // ---- the names in a saved document ----

  lemma SavedAccount(a: AccountConfig)
    ensures AccountJson(a) == Obj(map[
      "private_key" := Text(a.privateKey), "endpoint_v4" := Text(a.endpointV4), "endpoint_v6" := Text(a.endpointV6),
      "endpoint_h2_v4" := Text(a.endpointH2V4), "endpoint_h2_v6" := Text(a.endpointH2V6),
      "endpoint_pub_key" := Text(a.endpointPubKey), "license" := Text(a.license), "id" := Text(a.id),
      "access_token" := Text(a.accessToken), "ipv4" := Text(a.ipv4), "ipv6" := Text(a.ipv6)])
  {
  }

  lemma SavedSections(cfg: FullConfig)
    ensures Document(cfg) == Obj(map[
      "account" := AccountJson(cfg.account),
      "inbound" := Obj(map["type" := Text("tun"), "settings" := TunJson(cfg.tun)]),
      "outbound" := Obj(map["tag" := Text(cfg.outbound.tag), "settings" := OutboundJson(cfg.outbound)])])
    ensures NoiseJson(cfg.outbound.noise) == Obj(map[
      "enabled" := Bool(cfg.outbound.noise.enabled), "count" := Int(cfg.outbound.noise.count),
      "min_size" := Int(cfg.outbound.noise.minSize), "max_size" := Int(cfg.outbound.noise.maxSize),
      "delay_min" := Text(Duration.Format(cfg.outbound.noise.delayMinMs)),
      "delay_max" := Text(Duration.Format(cfg.outbound.noise.delayMaxMs))])
  {
  }
}
