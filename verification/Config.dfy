/** The configuration: its JSON document, loading (parse, defaults, validate) and saving. */
module Config {
  import opened Bytes
  import Duration

  type int32 = n: int | -0x8000_0000 <= n < 0x8000_0000

  // ---- JSON ----

  /** A JSON value. An object maps each name to the value `FindMember` finds, the first one. */
  datatype Json =
    | Null
    | Bool(b: bool)
    | Int(n: int)
    | Double(x: real)
    | Str(s: string)
    | Arr(items: seq<Json>)
    | Obj(members: map<string, Json>)

  /** A string seen through `c_str()`: it ends at the first NUL. */
  function CStr(s: string): (r: string)
    ensures |r| <= |s|
  {
    if |s| == 0 || s[0] == '\0' then "" else [s[0]] + CStr(s[1..])
  }

  predicate NulFree(s: string) {
    forall k :: 0 <= k < |s| ==> s[k] != '\0'
  }

  function Member(j: Json, key: string): Option<Json> {
    if j.Obj? && key in j.members then Some(j.members[key]) else None
  }

  function GetString(j: Json, key: string, def: string): string {
    match Member(j, key)
    case Some(Str(s)) => CStr(s)
    case _ => def
  }

  /** An unsigned value beyond the signed range is cast, and wraps to a negative one. */
  function GetInt(j: Json, key: string, def: int32): int32 {
    match Member(j, key)
    case Some(Int(n)) =>
      if -0x8000_0000 <= n < 0x8000_0000 then n
      else if 0 <= n < 0x1_0000_0000 then n - 0x1_0000_0000
      else def
    case _ => def
  }

  function GetUint16(j: Json, key: string, def: uint16): uint16 {
    match Member(j, key)
    case Some(Int(n)) => if 0 <= n < 0x1_0000_0000 then n % 0x1_0000 else def
    case _ => def
  }

  function GetUint64(j: Json, key: string, def: uint64): uint64 {
    match Member(j, key)
    case Some(Int(n)) => if 0 <= n < 0x1_0000_0000_0000_0000 then n else def
    case _ => def
  }

  function GetBool(j: Json, key: string, def: bool): bool {
    match Member(j, key)
    case Some(Bool(b)) => b
    case _ => def
  }

  function GetDuration(j: Json, key: string, def: int): int {
    var s := GetString(j, key, "");
    if s == "" then def else Duration.ParseMs(s, def)
  }

  // ---- the structures ----

  datatype AccountConfig = AccountConfig(
    privateKey: string, endpointV4: string, endpointV6: string, endpointH2V4: string, endpointH2V6: string,
    endpointPubKey: string, license: string, id: string, accessToken: string, ipv4: string, ipv6: string)

  datatype TunSettings = TunSettings(
    name: string, mtu: int32, ipv4: bool, ipv6: bool, persist: bool, tunFd: int32, autoRoute: bool,
    dns: seq<string>)

  datatype CongestionType = Reno | Bbr | Brutal

  datatype BbrProfile = Conservative | Standard | Aggressive

  datatype CongestionConfig = CongestionConfig(kind: CongestionType, brutalBps: uint64, profile: BbrProfile)

  datatype NoiseConfig = NoiseConfig(
    enabled: bool, count: int32, minSize: int32, maxSize: int32, delayMinMs: int, delayMaxMs: int)

  datatype OutboundSettings = OutboundSettings(
    tag: string, port: int32, useIpv6: bool, useHttp2: bool, sniAddress: string, keepaliveMs: int,
    initialPacketSize: uint16, reconnectMs: int, alwaysReconnect: bool, insecure: bool,
    onConnect: string, onDisconnect: string, congestion: CongestionConfig, noise: NoiseConfig,
    preNoise: NoiseConfig)

  datatype FullConfig = FullConfig(account: AccountConfig, tun: TunSettings, outbound: OutboundSettings)

  const DEFAULT_SNI := "consumer-masque.cloudflareclient.com"
  const DEFAULT_CONGESTION := CongestionConfig(Bbr, 0, Standard)
  const DEFAULT_NOISE := NoiseConfig(false, 0, 0, 0, 0, 0)
  const DEFAULT_TUN := TunSettings("", 1280, true, true, false, 0, true, [])
  const DEFAULT_OUTBOUND := OutboundSettings("warp", 443, false, false, DEFAULT_SNI, 30000, 0, 1000, false, false,
                                            "", "", DEFAULT_CONGESTION, DEFAULT_NOISE, DEFAULT_NOISE)

  // ---- loading ----

  function ParseNoise(j: Json): NoiseConfig {
    NoiseConfig(GetBool(j, "enabled", false), GetInt(j, "count", 0), GetInt(j, "min_size", 0), GetInt(j, "max_size", 0),
                GetDuration(j, "delay_min", 0), GetDuration(j, "delay_max", 0))
  }

  function ParseKind(s: string): CongestionType {
    if s == "reno" then Reno else if s == "brutal" then Brutal else Bbr
  }

  function ParseProfile(s: string): BbrProfile {
    if s == "conservative" then Conservative else if s == "aggressive" then Aggressive else Standard
  }

  function ParseCongestion(j: Json): CongestionConfig {
    CongestionConfig(ParseKind(GetString(j, "type", "bbr")), GetUint64(j, "brutal_bps", 0),
                     ParseProfile(GetString(j, "bbr_profile", "standard")))
  }

  function ParseAccount(j: Json): AccountConfig {
    AccountConfig(GetString(j, "private_key", ""), GetString(j, "endpoint_v4", ""), GetString(j, "endpoint_v6", ""),
                  GetString(j, "endpoint_h2_v4", ""), GetString(j, "endpoint_h2_v6", ""),
                  GetString(j, "endpoint_pub_key", ""), GetString(j, "license", ""),
                  GetString(j, "id", ""), GetString(j, "access_token", ""), GetString(j, "ipv4", ""),
                  GetString(j, "ipv6", ""))
  }

  /** The strings of an array, other items skipped. */
  function StringsOf(items: seq<Json>): seq<string> {
    if |items| == 0 then []
    else
      var last := items[|items| - 1];
      StringsOf(items[..|items| - 1]) + (if last.Str? then [CStr(last.s)] else [])
  }

  function DnsOf(j: Json): seq<string> {
    match Member(j, "dns")
    case Some(Arr(items)) => StringsOf(items)
    case _ => []
  }

  function ParseTun(j: Json): TunSettings {
    TunSettings(GetString(j, "name", ""), GetInt(j, "mtu", 1280), GetBool(j, "ipv4", true), GetBool(j, "ipv6", true),
                GetBool(j, "persist", false), GetInt(j, "tun_fd", 0), GetBool(j, "auto_route", true), DnsOf(j))
  }

  function ParseOutbound(j: Json): OutboundSettings {
    OutboundSettings(
      GetString(j, "tag", "warp"), GetInt(j, "port", 443), GetBool(j, "use_ipv6", false),
      GetBool(j, "use_http2", false), GetString(j, "sni_address", ""), GetDuration(j, "keepalive_period", 30000),
      GetUint16(j, "initial_packet_size", 0),
      GetDuration(j, "reconnect_delay", 1000), GetBool(j, "always_reconnect", false), GetBool(j, "insecure", false),
      GetString(j, "on_connect", ""), GetString(j, "on_disconnect", ""),
      match Member(j, "congestion") { case Some(Obj(m)) => ParseCongestion(Obj(m)) case _ => DEFAULT_CONGESTION },
      match Member(j, "noise") { case Some(Obj(m)) => ParseNoise(Obj(m)) case _ => DEFAULT_NOISE },
      match Member(j, "pre_noise") { case Some(Obj(m)) => ParseNoise(Obj(m)) case _ => DEFAULT_NOISE })
  }

  function OutboundWithDefaults(ob: OutboundSettings): OutboundSettings {
    ob.(
      port := if ob.port == 0 then 443 else ob.port,
      keepaliveMs := if ob.keepaliveMs == 0 then 30000 else ob.keepaliveMs,
      reconnectMs := if ob.reconnectMs == 0 then 1000 else ob.reconnectMs,
      sniAddress := if ob.sniAddress == "" then DEFAULT_SNI else ob.sniAddress)
  }

  function TunWithDefaults(tun: TunSettings): TunSettings {
    tun.(
      mtu := if tun.mtu == 0 then 1280 else tun.mtu,
      dns := if tun.dns == [] then ["1.1.1.1", "2606:4700:4700::1111"] else tun.dns)
  }

  function WithDefaults(cfg: FullConfig): FullConfig {
    cfg.(outbound := OutboundWithDefaults(cfg.outbound), tun := TunWithDefaults(cfg.tun))
  }

  function CongestionError(c: CongestionConfig): string {
    match c.kind
    case Reno => if c.brutalBps != 0 then "congestion: reno must not set brutal_bps" else ""
    case Brutal => if c.brutalBps == 0 then "congestion: brutal requires brutal_bps > 0" else ""
    case Bbr => if c.brutalBps != 0 then "congestion: bbr must not set brutal_bps" else ""
  }

  function NoiseError(n: NoiseConfig, section: string): string {
    if !n.enabled then ""
    else if n.count < 0 then section + ": count must be >= 0"
    else if n.minSize > n.maxSize then section + ": min_size must be <= max_size"
    else if n.delayMinMs > n.delayMaxMs then section + ": delay_min must be <= delay_max"
    else ""
  }

  /** `validate`: the first complaint, or the empty string. */
  function Complaint(cfg: FullConfig): string {
    if cfg.account.privateKey == "" then "account: private_key is required"
    else if cfg.tun.mtu <= 0 then "inbound: mtu must be positive"
    else if CongestionError(cfg.outbound.congestion) != "" then CongestionError(cfg.outbound.congestion)
    else if NoiseError(cfg.outbound.noise, "noise") != "" then NoiseError(cfg.outbound.noise, "noise")
    else NoiseError(cfg.outbound.preNoise, "pre_noise")
  }

  datatype ParseResult = Loaded(config: FullConfig) | Rejected(error: string)

  function Settle(cfg: FullConfig): ParseResult {
    var c := WithDefaults(cfg);
    if Complaint(c) == "" then Loaded(c) else Rejected(Complaint(c))
  }

  function TunOf(inbound: Json): TunSettings {
    match Member(inbound, "settings")
    case Some(Obj(m)) => ParseTun(Obj(m))
    case _ => DEFAULT_TUN
  }

  /** A tag beside the settings wins over one inside them. */
  function OutboundOf(doc: Json): OutboundSettings {
    match Member(doc, "outbound")
    case Some(Obj(m)) =>
      var ob :=
        match Member(Obj(m), "settings")
        case Some(Obj(k)) => ParseOutbound(Obj(k))
        case _ => DEFAULT_OUTBOUND;
      var tag := GetString(Obj(m), "tag", "");
      if tag == "" then ob else ob.(tag := tag)
    case _ => DEFAULT_OUTBOUND
  }

  /** The result of `parse_document`. */
  function Load(doc: Json): ParseResult {
    if !doc.Obj? then Rejected("config must be a JSON object")
    else match Member(doc, "account")
      case Some(Obj(account)) =>
        (match Member(doc, "inbound")
         case Some(Obj(inbound)) =>
           var kind := GetString(Obj(inbound), "type", "");
           if kind != "tun" then Rejected("unsupported inbound type: " + kind + " (only 'tun' is supported)")
           else Settle(FullConfig(ParseAccount(Obj(account)), TunOf(Obj(inbound)), OutboundOf(doc)))
         case _ => Rejected("missing or invalid 'inbound' section"))
      case _ => Rejected("missing or invalid 'account' section")
  }

  // ---- saving ----

  /** A string value made from `c_str()`. */
  function Text(s: string): Json {
    Str(CStr(s))
  }

  function NoiseJson(n: NoiseConfig): (j: Json)
    ensures j.Obj?
  {
    Obj(map[
      "enabled" := Bool(n.enabled), "count" := Int(n.count), "min_size" := Int(n.minSize), "max_size" := Int(n.maxSize),
      "delay_min" := Text(Duration.Format(n.delayMinMs)), "delay_max" := Text(Duration.Format(n.delayMaxMs))])
  }

  function KindText(k: CongestionType): string {
    match k case Reno => "reno" case Brutal => "brutal" case Bbr => "bbr"
  }

  function ProfileText(p: BbrProfile): string {
    match p case Conservative => "conservative" case Aggressive => "aggressive" case Standard => "standard"
  }

  function CongestionJson(c: CongestionConfig): (j: Json)
    ensures j.Obj?
  {
    Obj(map["type" := Text(KindText(c.kind)), "brutal_bps" := Int(c.brutalBps),
            "bbr_profile" := Text(ProfileText(c.profile))])
  }

  function AccountJson(a: AccountConfig): (j: Json)
    ensures j.Obj?
  {
    Obj(map[
      "private_key" := Text(a.privateKey), "endpoint_v4" := Text(a.endpointV4), "endpoint_v6" := Text(a.endpointV6),
      "endpoint_h2_v4" := Text(a.endpointH2V4), "endpoint_h2_v6" := Text(a.endpointH2V6),
      "endpoint_pub_key" := Text(a.endpointPubKey), "license" := Text(a.license), "id" := Text(a.id),
      "access_token" := Text(a.accessToken), "ipv4" := Text(a.ipv4), "ipv6" := Text(a.ipv6)])
  }

  function TextArray(ss: seq<string>): (r: seq<Json>)
    ensures |r| == |ss|
  {
    if |ss| == 0 then [] else TextArray(ss[..|ss| - 1]) + [Text(ss[|ss| - 1])]
  }

  function TunJson(t: TunSettings): (j: Json)
    ensures j.Obj?
  {
    Obj(map[
      "name" := Text(t.name), "mtu" := Int(t.mtu), "ipv4" := Bool(t.ipv4), "ipv6" := Bool(t.ipv6),
      "persist" := Bool(t.persist), "tun_fd" := Int(t.tunFd), "auto_route" := Bool(t.autoRoute),
      "dns" := Arr(TextArray(t.dns))])
  }

  function OutboundJson(o: OutboundSettings): (j: Json)
    ensures j.Obj?
  {
    Obj(map[
      "port" := Int(o.port), "use_ipv6" := Bool(o.useIpv6), "use_http2" := Bool(o.useHttp2),
      "sni_address" := Text(o.sniAddress), "keepalive_period" := Text(Duration.Format(o.keepaliveMs)),
      "initial_packet_size" := Int(o.initialPacketSize), "reconnect_delay" := Text(Duration.Format(o.reconnectMs)),
      "always_reconnect" := Bool(o.alwaysReconnect), "insecure" := Bool(o.insecure),
      "on_connect" := Text(o.onConnect), "on_disconnect" := Text(o.onDisconnect),
      "congestion" := CongestionJson(o.congestion), "noise" := NoiseJson(o.noise),
      "pre_noise" := NoiseJson(o.preNoise)])
  }

  /** The document that `usque_config_save_file` writes. The tag is written beside the settings only. */
  function Document(cfg: FullConfig): Json {
    Obj(map[
      "account" := AccountJson(cfg.account),
      "inbound" := Obj(map["type" := Text("tun"), "settings" := TunJson(cfg.tun)]),
      "outbound" := Obj(map["tag" := Text(cfg.outbound.tag), "settings" := OutboundJson(cfg.outbound)])])
  }

  // ---- the code that updates in place ----

  /** `usque_config`. */
  class UsqueConfig {
    var data: FullConfig

    constructor (data: FullConfig)
      ensures this.data == data
    {
      this.data := data;
    }
  }

  /** `apply_defaults`. */
  method ApplyDefaults(cfg: UsqueConfig)
    modifies cfg
    ensures cfg.data == WithDefaults(old(cfg.data))
  {
    hide OutboundWithDefaults, TunWithDefaults;
    OutboundDefaults(cfg);
    TunDefaults(cfg);
  }

  method OutboundDefaults(cfg: UsqueConfig)
    modifies cfg
    ensures cfg.data == old(cfg.data).(outbound := OutboundWithDefaults(old(cfg.data.outbound)))
  {
    var port, sni := cfg.data.outbound.port, cfg.data.outbound.sniAddress;
    var keepalive, reconnect := cfg.data.outbound.keepaliveMs, cfg.data.outbound.reconnectMs;
    if port == 0 { port := 443; }
    if keepalive == 0 { keepalive := 30000; }
    if reconnect == 0 { reconnect := 1000; }
    if sni == "" { sni := DEFAULT_SNI; }
    cfg.data := cfg.data.(outbound := cfg.data.outbound.(
      port := port, keepaliveMs := keepalive, reconnectMs := reconnect, sniAddress := sni));
  }

  method TunDefaults(cfg: UsqueConfig)
    modifies cfg
    ensures cfg.data == old(cfg.data).(tun := TunWithDefaults(old(cfg.data.tun)))
  {
    var mtu, dns := cfg.data.tun.mtu, cfg.data.tun.dns;
    if mtu == 0 { mtu := 1280; }
    if dns == [] {
      dns := dns + ["1.1.1.1"];
      dns := dns + ["2606:4700:4700::1111"];
    }
    cfg.data := cfg.data.(tun := cfg.data.tun.(mtu := mtu, dns := dns));
  }

  /** The loop of `parse_tun_settings` over the `dns` array. */
  method PushDns(items: seq<Json>) returns (dns: seq<string>)
    ensures dns == StringsOf(items)
  {
    dns := [];
    assert items[..0] == [];
    for i := 0 to |items|
      invariant dns == StringsOf(items[..i])
    {
      assert items[..i + 1][..i] == items[..i];
      if items[i].Str? {
        dns := dns + [CStr(items[i].s)];
      }
    }
    assert items[..|items|] == items;
  }

  /** The `settings` of the inbound section, filled in over the defaults of the structure. */
  method FillTun(inbound: Json) returns (tun: TunSettings)
    ensures tun == TunOf(inbound)
  {
    tun := DEFAULT_TUN;
    match Member(inbound, "settings")
    case Some(Obj(m)) =>
      var obj := Obj(m);
      tun := tun.(name := GetString(obj, "name", ""), mtu := GetInt(obj, "mtu", 1280));
      tun := tun.(ipv4 := GetBool(obj, "ipv4", true), ipv6 := GetBool(obj, "ipv6", true));
      tun := tun.(persist := GetBool(obj, "persist", false), tunFd := GetInt(obj, "tun_fd", 0));
      tun := tun.(autoRoute := GetBool(obj, "auto_route", true));
      match Member(obj, "dns") {
        case Some(Arr(items)) =>
          var dns := PushDns(items);
          tun := tun.(dns := dns);
        case _ =>
      }
    case _ =>
  }

  /** The outbound section, filled in over the defaults of the structure; its own tag comes last. */
  method FillOutbound(doc: Json) returns (ob: OutboundSettings)
    ensures ob == OutboundOf(doc)
  {
    hide ParseOutbound, GetString;
    ob := DEFAULT_OUTBOUND;
    match Member(doc, "outbound")
    case Some(Obj(m)) =>
      var outbound := Obj(m);
      match Member(outbound, "settings") {
        case Some(Obj(k)) => ob := ParseOutbound(Obj(k));
        case _ =>
      }
      var tag := GetString(outbound, "tag", "");
      if tag != "" {
        ob := ob.(tag := tag);
      }
    case _ =>
  }

  /** `parse_document`. */
  method ParseDocument(doc: Json) returns (r: ParseResult)
    ensures r == Load(doc)
  {
    hide ParseAccount, TunOf, OutboundOf, Settle, GetString;
    if !doc.Obj? { return Rejected("config must be a JSON object"); }
    var acct := Member(doc, "account");
    if acct.None? || !acct.value.Obj? { return Rejected("missing or invalid 'account' section"); }
    var account := ParseAccount(acct.value);
    var inb := Member(doc, "inbound");
    if inb.None? || !inb.value.Obj? { return Rejected("missing or invalid 'inbound' section"); }
    var kind := GetString(inb.value, "type", "");
    if kind != "tun" { return Rejected("unsupported inbound type: " + kind + " (only 'tun' is supported)"); }
    var tun := FillTun(inb.value);
    var outbound := FillOutbound(doc);
    r := Finish(account, tun, outbound);
  }

  /** The end of `parse_document`, from the parsed sections to the result. */
  method Finish(account: AccountConfig, tun: TunSettings, outbound: OutboundSettings) returns (r: ParseResult)
    ensures r == Settle(FullConfig(account, tun, outbound))
  {
    var cfg := new UsqueConfig(FullConfig(account, tun, outbound));
    ApplyDefaults(cfg);
    var verr := Complaint(cfg.data);
    if verr != "" { return Rejected(verr); }
    return Loaded(cfg.data);
  }

  /** The loop of `usque_config_save_file` over the DNS servers. */
  method DnsArray(ss: seq<string>) returns (items: seq<Json>)
    ensures items == TextArray(ss)
  {
    items := [];
    assert ss[..0] == [];
    for i := 0 to |ss|
      invariant items == TextArray(ss[..i])
    {
      assert ss[..i + 1][..i] == ss[..i];
      items := items + [Text(ss[i])];
    }
    assert ss[..|ss|] == ss;
  }

  /** `add_noise`. */
  method AddNoise(obj: map<string, Json>, key: string, n: NoiseConfig) returns (r: map<string, Json>)
    ensures r == obj[key := NoiseJson(n)]
  {
    hide Text;
    var delayMin := Duration.FormatDurationMs(n.delayMinMs);
    var delayMax := Duration.FormatDurationMs(n.delayMaxMs);
    var noise: map<string, Json> := map[];
    noise := noise["enabled" := Bool(n.enabled)];
    noise := noise["count" := Int(n.count)];
    noise := noise["min_size" := Int(n.minSize)];
    noise := noise["max_size" := Int(n.maxSize)];
    noise := noise["delay_min" := Text(delayMin)];
    noise := noise["delay_max" := Text(delayMax)];
    r := obj[key := Obj(noise)];
  }

  /** The `settings` of the inbound section. */
  method SaveTun(t: TunSettings) returns (j: Json)
    ensures j == TunJson(t)
  {
    hide Text;
    var settings: map<string, Json> := map[];
    settings := settings["name" := Text(t.name)];
    settings := settings["mtu" := Int(t.mtu)];
    settings := settings["ipv4" := Bool(t.ipv4)];
    settings := settings["ipv6" := Bool(t.ipv6)];
    settings := settings["persist" := Bool(t.persist)];
    settings := settings["tun_fd" := Int(t.tunFd)];
    settings := settings["auto_route" := Bool(t.autoRoute)];
    var dns := DnsArray(t.dns);
    settings := settings["dns" := Arr(dns)];
    j := Obj(settings);
  }

  /** The `settings` of the outbound section. */
  method SaveOutbound(o: OutboundSettings) returns (j: Json)
    ensures j == OutboundJson(o)
  {
    hide Text, NoiseJson, CongestionJson;
    var settings: map<string, Json> := map[];
    settings := settings["port" := Int(o.port)];
    settings := settings["use_ipv6" := Bool(o.useIpv6)];
    settings := settings["use_http2" := Bool(o.useHttp2)];
    settings := settings["sni_address" := Text(o.sniAddress)];
    var keepalive := Duration.FormatDurationMs(o.keepaliveMs);
    settings := settings["keepalive_period" := Text(keepalive)];
    settings := settings["initial_packet_size" := Int(o.initialPacketSize)];
    var reconnect := Duration.FormatDurationMs(o.reconnectMs);
    settings := settings["reconnect_delay" := Text(reconnect)];
    settings := settings["always_reconnect" := Bool(o.alwaysReconnect)];
    settings := settings["insecure" := Bool(o.insecure)];
    settings := settings["on_connect" := Text(o.onConnect)];
    settings := settings["on_disconnect" := Text(o.onDisconnect)];
    settings := settings["congestion" := CongestionJson(o.congestion)];
    settings := AddNoise(settings, "noise", o.noise);
    settings := AddNoise(settings, "pre_noise", o.preNoise);
    j := Obj(settings);
  }

  /** `usque_config_save_file` up to the document. */
  method SaveDocument(cfg: FullConfig) returns (doc: Json)
    ensures doc == Document(cfg)
  {
    hide Text, AccountJson, TunJson, OutboundJson;
    var root: map<string, Json> := map[];
    root := root["account" := AccountJson(cfg.account)];
    var tun := SaveTun(cfg.tun);
    var inbound: map<string, Json> := map["type" := Text("tun")];
    inbound := inbound["settings" := tun];
    root := root["inbound" := Obj(inbound)];
    var settings := SaveOutbound(cfg.outbound);
    var outbound: map<string, Json> := map["tag" := Text(cfg.outbound.tag)];
    outbound := outbound["settings" := settings];
    root := root["outbound" := Obj(outbound)];
    doc := Obj(root);
  }
}
