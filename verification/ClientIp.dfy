/** Client address resolution behind trusted proxies (app/request_client_ip.py).

    IPv6 text is not modelled: `Env` reads it, as an address or as the address and prefix of a network. */
module ClientIp {
  import opened PyText
  import opened IpNetwork
  import opened Ipv4Text

  datatype Env = Env(v6: string -> Option<nat>, v6Net: string -> Option<(nat, nat)>, isTest: bool)

  datatype Request = Request(
    peer: Option<string>, xReal: Option<string>, xForwardedFor: Option<string>, xPortal: Option<string>)

  // ----- Addresses

  function OrEmpty(s: Option<string>): string { if s.Some? then s.value else "" }

  // The address a text denotes, with its version.
  function AddressOf(env: Env, ip: string): Option<(Version, nat)> {
    match ParseAddress(ip)
    case Some(a) => Some((V4, a))
    case None =>
      match env.v6(ip)
      case Some(a) => Some((V6, a))
      case None => None
  }

  predicate IsAddress(env: Env, ip: string) { AddressOf(env, ip).Some? }

  predicate InNetworks(nets: seq<Network>, v: Version, a: nat)
    requires forall i :: 0 <= i < |nets| ==> nets[i].prefix <= Width(nets[i].version)
  {
    exists i :: 0 <= i < |nets| && nets[i].version == v && Contains(nets[i], a)
  }

  // Blank or unreadable text counts as an infrastructure hop; IPv6 addresses never do.
  predicate IsInfraHop(env: Env, ip: string) {
    var t := Strip(ip);
    || t == [] || !IsAddress(env, t)
    || (ParseAddress(t).Some? && InNetworks(INFRA_NETWORKS[..3], V4, ParseAddress(t).value))
  }

  // A real client: a valid address outside the infrastructure networks.
  predicate IsClient(env: Env, ip: string) { ip != [] && IsAddress(env, ip) && !IsInfraHop(env, ip) }

  // ----- Trusted proxies

  function JoinBars(parts: seq<string>): string {
    if parts == [] then [] else if |parts| == 1 then parts[0] else parts[0] + ['|'] + JoinBars(parts[1..])
  }

  // The network an entry denotes, of either version; blank and unreadable entries denote none.
  function EntryNetwork(env: Env, item: string): (r: Option<Network>)
    ensures r.Some? ==> r.value.prefix <= Width(r.value.version)
  {
    if ParseNetwork(item).Some? then ParseNetwork(item)
    else
      var text := Strip(item);
      if text == [] then None
      else
        match env.v6Net(text)
        case Some((addr, prefix)) => if prefix <= 128 then Some(NetworkOf(V6, addr, prefix)) else None
        case None => None
  }

  // `_parse_cidrs`: blank and unreadable entries are dropped.
  function ParseCidrs(env: Env, items: seq<string>): (r: seq<Network>)
    ensures forall i :: 0 <= i < |r| ==> r[i].prefix <= Width(r[i].version)
  {
    if items == [] then []
    else
      var rest := ParseCidrs(env, items[1..]);
      match EntryNetwork(env, items[0])
      case Some(n) => [n] + rest
      case None => rest
  }

  method ParseCidrList(env: Env, items: seq<string>) returns (out: seq<Network>)
    ensures out == ParseCidrs(env, items)
  {
    out := [];
    for i := 0 to |items|
      invariant out + ParseCidrs(env, items[i..]) == ParseCidrs(env, items)
    {
      var parsed := EntryNetwork(env, items[i]);
      ParseCidrsStep(env, items, i, out);
      if parsed.Some? {
        out := out + [parsed.value];
      }
    }
  }

  lemma ParseCidrsStep(env: Env, items: seq<string>, i: nat, found: seq<Network>)
    requires i < |items|
    ensures var parsed, rest := EntryNetwork(env, items[i]), ParseCidrs(env, items[i + 1..]);
      found + ParseCidrs(env, items[i..]) == (if parsed.Some? then found + [parsed.value] else found) + rest
  {
    assert items[i..][1..] == items[i + 1..];
  }

  // The one-entry cache in front of the parser, keyed by the joined settings.
  class ProxyCache {
    const env: Env
    var key: Option<string>
    var networks: seq<Network>

    ghost predicate Valid()
      reads this
    {
      key.Some? ==> networks == ParseCidrs(env, Split(key.value, '|'))
    }

    constructor (env: Env)
      ensures Valid() && this.env == env
    {
      this.env, key, networks := env, None, [];
    }

    // Empties the cache, so that the next answer is parsed anew.
    method Clear()
      modifies this
      ensures Valid() && key.None?
    {
      key, networks := None, [];
    }

    // Whatever was cached before, the answer is that of the settings given now.
    method Lookup(cidrs: seq<string>) returns (nets: seq<Network>)
      requires Valid()
      modifies this
      ensures Valid()
      ensures nets == ParseCidrs(env, Split(JoinBars(cidrs), '|'))
    {
      var k := JoinBars(cidrs);
      if key != Some(k) {
        networks := ParseCidrList(env, Split(k, '|'));
        key := Some(k);
      }
      nets := networks;
    }
  }

  function TrustedNetworks(env: Env, cidrs: seq<string>): (r: seq<Network>)
    ensures forall i :: 0 <= i < |r| ==> r[i].prefix <= Width(r[i].version)
  {
    ParseCidrs(env, Split(JoinBars(cidrs), '|'))
  }

  predicate IsTrustedPeer(env: Env, cidrs: seq<string>, peer: string) {
    var t := Strip(peer);
    if t == [] then false
    else if t == "testclient" then env.isTest
    else match AddressOf(env, t)
      case Some((v, a)) => InNetworks(TrustedNetworks(env, cidrs), v, a)
      case None => false
  }

  // The entries that the settings name: a bar inside a setting separates further entries.
  function Entries(cidrs: seq<string>): seq<string> {
    if cidrs == [] then [] else Split(cidrs[0], '|') + Entries(cidrs[1..])
  }

  lemma {:induction false} SplitAtBar(a: string, b: string)
    ensures Split(a + ['|'] + b, '|') == Split(a, '|') + Split(b, '|')
  {
    if a == [] {
      assert a + ['|'] + b == ['|'] + b;
    } else {
      SplitAtBar(a[1..], b);
      assert (a + ['|'] + b)[0] == a[0] && (a + ['|'] + b)[1..] == a[1..] + ['|'] + b;
      SplitStep(a, Split(b, '|'));
    }
  }

  lemma SplitStep(a: string, more: seq<string>)
    requires a != []
    ensures var rest := Split(a[1..], '|') + more;
      Split(a, '|') + more == if a[0] == '|' then [[]] + rest else [[a[0]] + rest[0]] + rest[1..]
  {
    var first := Split(a[1..], '|');
    assert (first + more)[0] == first[0] && (first + more)[1..] == first[1..] + more;
  }

  lemma {:induction false} SplitJoined(cidrs: seq<string>)
    requires cidrs != []
    ensures Split(JoinBars(cidrs), '|') == Entries(cidrs)
  {
    if |cidrs| == 1 {
      assert Entries(cidrs[1..]) == [];
    } else {
      SplitJoined(cidrs[1..]);
      SplitAtBar(cidrs[0], JoinBars(cidrs[1..]));
    }
  }

  lemma {:induction false} PlainEntries(cidrs: seq<string>)
    requires forall i :: 0 <= i < |cidrs| ==> '|' !in cidrs[i]
    ensures Entries(cidrs) == cidrs
  {
    if cidrs != [] {
      SplitOne(cidrs[0], '|');
      PlainEntries(cidrs[1..]);
      assert cidrs == [cidrs[0]] + cidrs[1..];
    }
  }

  // Joining the settings into one cache key and splitting it again gives exactly their entries, and the
  // settings themselves when none holds a bar.
  lemma JoinedSettings(env: Env, cidrs: seq<string>)
    ensures TrustedNetworks(env, cidrs) == ParseCidrs(env, Entries(cidrs))
    ensures (forall i :: 0 <= i < |cidrs| ==> '|' !in cidrs[i]) ==> Entries(cidrs) == cidrs
  {
    if cidrs == [] {
      BlankEntryIsDropped(env);
    } else {
      SplitJoined(cidrs);
    }
    if forall i :: 0 <= i < |cidrs| ==> '|' !in cidrs[i] {
      PlainEntries(cidrs);
    }
  }

  lemma BlankEntryIsDropped(env: Env)
    ensures ParseCidrs(env, [""]) == []
  {
    assert Strip("") == "" && EntryNetwork(env, "").None?;
    assert [""][1..] == [] && ParseCidrs(env, [""][1..]) == [];
  }

  // Main result: a peer is trusted exactly when it is an address that one of the configured entries contains, of
  // its own version, or the test client under test settings.
  lemma TrustExactly(env: Env, cidrs: seq<string>, peer: string)
    ensures var t := Strip(peer);
      IsTrustedPeer(env, cidrs, peer)
      <==> if t == "testclient" then env.isTest
           else t != "" && AddressOf(env, t).Some?
                && SomeEntryContains(env, Entries(cidrs), AddressOf(env, t).value.0, AddressOf(env, t).value.1)
  {
    var t := Strip(peer);
    JoinedSettings(env, cidrs);
    if AddressOf(env, t).Some? {
      ParsedMembership(env, Entries(cidrs), AddressOf(env, t).value.0, AddressOf(env, t).value.1);
    }
  }

  // An IPv4 peer is trusted exactly when one of the configured entries contains it.
  lemma TrustIsMembership(env: Env, cidrs: seq<string>, addr: nat)
    requires addr < 0x1_0000_0000
    ensures IsTrustedPeer(env, cidrs, Dotted(addr)) <==> SomeEntryContains(env, Entries(cidrs), V4, addr)
  {
    AddressRoundTrip(addr);
    DottedIsPlain(addr);
    StripNoop(Dotted(addr));
    assert ParseAddress("testclient").None? by { SplitOne("testclient", '.'); }
    TrustExactly(env, cidrs, Dotted(addr));
  }

  predicate EntryContains(env: Env, cidr: string, v: Version, addr: nat) {
    var net := EntryNetwork(env, cidr);
    net.Some? && net.value.version == v && Contains(net.value, addr)
  }

  ghost predicate SomeEntryContains(env: Env, cidrs: seq<string>, v: Version, addr: nat) {
    exists i :: 0 <= i < |cidrs| && EntryContains(env, cidrs[i], v, addr)
  }

  lemma SomeEntryCons(env: Env, cidrs: seq<string>, v: Version, addr: nat)
    requires cidrs != []
    ensures SomeEntryContains(env, cidrs, v, addr)
       <==> EntryContains(env, cidrs[0], v, addr) || SomeEntryContains(env, cidrs[1..], v, addr)
  {
    var tail := cidrs[1..];
    assert forall i :: 0 <= i < |tail| ==> tail[i] == cidrs[i + 1];
    assert forall i :: 1 <= i < |cidrs| ==> cidrs[i] == tail[i - 1];
  }

  lemma {:induction false} ParsedMembership(env: Env, cidrs: seq<string>, v: Version, addr: nat)
    ensures InNetworks(ParseCidrs(env, cidrs), v, addr) <==> SomeEntryContains(env, cidrs, v, addr)
  {
    if cidrs != [] {
      ParsedMembership(env, cidrs[1..], v, addr);
      InNetworksCons(EntryNetwork(env, cidrs[0]), ParseCidrs(env, cidrs[1..]), v, addr);
      SomeEntryCons(env, cidrs, v, addr);
    }
  }

  lemma InNetworksCons(head: Option<Network>, tail: seq<Network>, v: Version, addr: nat)
    requires head.Some? ==> head.value.prefix <= Width(head.value.version)
    requires forall i :: 0 <= i < |tail| ==> tail[i].prefix <= Width(tail[i].version)
    ensures var nets := match head { case Some(n) => [n] + tail case None => tail };
      InNetworks(nets, v, addr)
      <==> (head.Some? && head.value.version == v && Contains(head.value, addr)) || InNetworks(tail, v, addr)
  {
    if head.Some? {
      var nets := [head.value] + tail;
      assert nets[0] == head.value;
      assert forall i :: 0 <= i < |tail| ==> nets[i + 1] == tail[i];
      assert forall i :: 1 <= i < |nets| ==> nets[i] == tail[i - 1];
    }
  }

  // Infrastructure hops: blank and unreadable text, and the IPv4 addresses 10.5.x.x, 172.17.x.x and 127.x.x.x; no
  // IPv6 address.
  lemma HopsExactly(env: Env, ip: string)
    ensures var t := Strip(ip);
      IsInfraHop(env, ip)
      <==> t == "" || match AddressOf(env, t) {
             case None => true
             case Some((v, a)) => v == V4 && (a / 65536 == 10 * 256 + 5 || a / 65536 == 172 * 256 + 17 || a / 16777216 == 127)
           }
  {
    var t := Strip(ip);
    if ParseAddress(t).Some? {
      var a := ParseAddress(t).value;
      InfrastructureAddresses(V4, a);
      assert forall i :: 0 <= i < 3 ==> INFRA_NETWORKS[..3][i] == INFRA_NETWORKS[i];
      assert INFRA_NETWORKS[3].version == V6;
    }
  }

  // Real clients: addresses of either version, none of them in the three IPv4 networks of the infrastructure.
  lemma ClientsExactly(env: Env, text: string)
    ensures var t := Strip(text);
      IsClient(env, t)
      <==> t != "" && match AddressOf(env, t) {
             case None => false
             case Some((v, a)) => v == V6 || !(a / 65536 == 10 * 256 + 5 || a / 65536 == 172 * 256 + 17 || a / 16777216 == 127)
           }
  {
    StripIdempotent(text);
    HopsExactly(env, Strip(text));
  }

  // An entry denotes its IPv4 network, else the IPv6 network its text reads as, down to a single address.
  lemma EntriesExactly(env: Env, item: string, addr: nat, prefix: nat)
    ensures ParseNetwork(item).Some? ==> EntryNetwork(env, item) == ParseNetwork(item)
    ensures ParseNetwork(item).None? && Strip(item) != "" && env.v6Net(Strip(item)) == Some((addr, prefix)) && prefix < 129 ==>
      EntryNetwork(env, item) == Some(NetworkOf(V6, addr, prefix))
    ensures Strip(item) == "" || (ParseNetwork(item).None? && env.v6Net(Strip(item)).None?) ==> EntryNetwork(env, item).None?
  {}

  // ----- Resolution

  // Left-to-right entries of X-Forwarded-For that are real clients.
  function Clients(env: Env, parts: seq<string>): seq<string> {
    if parts == [] then []
    else (if IsClient(env, Strip(parts[0])) then [Strip(parts[0])] else []) + Clients(env, parts[1..])
  }

  lemma ClientsStep(env: Env, parts: seq<string>, i: nat, found: seq<string>)
    requires i < |parts|
    ensures var ip, rest := Strip(parts[i]), Clients(env, parts[i + 1..]);
      found + Clients(env, parts[i..]) == (if IsClient(env, ip) then found + [ip] else found) + rest
  {
    assert parts[i..][1..] == parts[i + 1..];
  }

  method XffClientCandidates(env: Env, xff: string) returns (out: seq<string>)
    ensures out == Clients(env, Split(xff, ','))
  {
    var parts := Split(xff, ',');
    out := [];
    for i := 0 to |parts|
      invariant out + Clients(env, parts[i..]) == Clients(env, parts)
    {
      var ip := Strip(parts[i]);
      ClientsStep(env, parts, i, out);
      if IsClient(env, ip) {
        out := out + [ip];
      }
    }
  }

  function ResolveViaProxy(env: Env, r: Request): string {
    var direct := Strip(OrEmpty(r.xReal));
    if IsClient(env, direct) then direct
    else
      var candidates := Clients(env, Split(OrEmpty(r.xForwardedFor), ','));
      if candidates != [] then candidates[0]
      else
        var portal := Strip(OrEmpty(r.xPortal));
        if IsClient(env, portal) then portal else ""
  }

  function ClientIpFromRequest(env: Env, cidrs: seq<string>, r: Request): string {
    var peer := OrEmpty(r.peer);
    if IsTrustedPeer(env, cidrs, peer) then ResolveViaProxy(env, r) else peer
  }

  ghost predicate OffersClient(env: Env, parts: seq<string>) {
    exists i :: 0 <= i < |parts| && IsClient(env, Strip(parts[i]))
  }

  lemma {:induction false} ClientsAreClients(env: Env, parts: seq<string>)
    ensures forall i :: 0 <= i < |Clients(env, parts)| ==> IsClient(env, Clients(env, parts)[i])
    ensures Clients(env, parts) != [] <==> OffersClient(env, parts)
  {
    if parts != [] {
      var tail := parts[1..];
      ClientsAreClients(env, tail);
      assert forall i :: 1 <= i < |parts| ==> parts[i] == tail[i - 1];
      assert forall i :: 0 <= i < |tail| ==> tail[i] == parts[i + 1];
    }
  }

  // Main result: headers matter only for a trusted peer. Then the answer is a valid address outside
  // the infrastructure networks, or empty exactly when no header offers one.
  lemma HeadersNeedTrust(env: Env, cidrs: seq<string>, r: Request, r': Request)
    requires r'.peer == r.peer
    ensures !IsTrustedPeer(env, cidrs, OrEmpty(r.peer)) ==>
      ClientIpFromRequest(env, cidrs, r) == ClientIpFromRequest(env, cidrs, r') == OrEmpty(r.peer)
    ensures IsTrustedPeer(env, cidrs, OrEmpty(r.peer)) ==>
      var ip := ClientIpFromRequest(env, cidrs, r);
      && (ip == "" || IsClient(env, ip))
      && (ip != "" <==>
           || IsClient(env, Strip(OrEmpty(r.xReal))) || IsClient(env, Strip(OrEmpty(r.xPortal)))
           || OffersClient(env, Split(OrEmpty(r.xForwardedFor), ',')))
  {
    ClientsAreClients(env, Split(OrEmpty(r.xForwardedFor), ','));
  }

  // Where a trusted peer's request may name its client, in order of precedence.
  function Sources(r: Request): seq<string> {
    [OrEmpty(r.xReal)] + Split(OrEmpty(r.xForwardedFor), ',') + [OrEmpty(r.xPortal)]
  }

  lemma {:induction false} ClientsOfConcat(env: Env, a: seq<string>, b: seq<string>)
    ensures Clients(env, a + b) == Clients(env, a) + Clients(env, b)
  {
    if a == [] {
      assert a + b == b;
    } else {
      ClientsOfConcat(env, a[1..], b);
      assert (a + b)[0] == a[0] && (a + b)[1..] == a[1..] + b;
      JoinAssociates(if IsClient(env, Strip(a[0])) then [Strip(a[0])] else [], Clients(env, a[1..]), Clients(env, b));
    }
  }

  lemma {:induction false} FirstClient(env: Env, parts: seq<string>)
    requires Clients(env, parts) != []
    ensures exists i :: (&& 0 <= i < |parts| && Strip(parts[i]) == Clients(env, parts)[0]
                         && forall j :: 0 <= j < i ==> !IsClient(env, Strip(parts[j])))
  {
    if IsClient(env, Strip(parts[0])) {
      assert Strip(parts[0]) == Clients(env, parts)[0];
    } else {
      FirstClient(env, parts[1..]);
      var i :| && 0 <= i < |parts[1..]| && Strip(parts[1..][i]) == Clients(env, parts[1..])[0]
               && forall j :: 0 <= j < i ==> !IsClient(env, Strip(parts[1..][j]));
      forall j | 0 <= j < i + 1 ensures !IsClient(env, Strip(parts[j])) {
        assert j == 0 || parts[j] == parts[1..][j - 1];
      }
      assert Strip(parts[i + 1]) == Clients(env, parts)[0];
    }
  }

  lemma ClientsOfSources(env: Env, r: Request)
    ensures ResolveViaProxy(env, r) == if Clients(env, Sources(r)) == [] then "" else Clients(env, Sources(r))[0]
  {
    var direct, parts, portal := [OrEmpty(r.xReal)], Split(OrEmpty(r.xForwardedFor), ','), [OrEmpty(r.xPortal)];
    ClientsOfConcat(env, direct + parts, portal);
    ClientsOfConcat(env, direct, parts);
    ClientsOfOne(env, OrEmpty(r.xReal));
    ClientsOfOne(env, OrEmpty(r.xPortal));
  }

  lemma ClientsOfOne(env: Env, s: string)
    ensures Clients(env, [s]) == if IsClient(env, Strip(s)) then [Strip(s)] else []
  {}

  // Main result: behind a trusted peer the answer is the first real client in the order X-Real-IP,
  // X-Forwarded-For from left to right, portal header; every earlier source is no client.
  lemma FirstSourceWins(env: Env, cidrs: seq<string>, r: Request)
    ensures IsTrustedPeer(env, cidrs, OrEmpty(r.peer)) ==>
      var ip, sources := ClientIpFromRequest(env, cidrs, r), Sources(r);
      if ip == "" then forall i :: 0 <= i < |sources| ==> !IsClient(env, Strip(sources[i]))
      else exists i :: (&& 0 <= i < |sources| && Strip(sources[i]) == ip && IsClient(env, ip)
                        && forall j :: 0 <= j < i ==> !IsClient(env, Strip(sources[j])))
  {
    ClientsOfSources(env, r);
    ClientsAreClients(env, Sources(r));
    if Clients(env, Sources(r)) != [] {
      FirstClient(env, Sources(r));
    }
  }

  // ----- Keeping the best address of a session

  function Blank(s: Option<string>): Option<string> {
    if Strip(OrEmpty(s)) == [] then None else Some(Strip(OrEmpty(s)))
  }

  function PreferClientIp(env: Env, existing: Option<string>, sighting: Option<string>): Option<string> {
    var n, e := Blank(sighting), Blank(existing);
    if n.None? then e
    else if e.None? then n
    else if IsInfraHop(env, e.value) && !IsInfraHop(env, n.value) then n
    else e
  }

  function FoldPrefer(env: Env, start: Option<string>, sightings: seq<Option<string>>): Option<string>
    decreases |sightings|
  {
    if sightings == [] then start
    else FoldPrefer(env, PreferClientIp(env, start, sightings[0]), sightings[1..])
  }

  predicate RealClient(env: Env, s: Option<string>) { !IsInfraHop(env, OrEmpty(s)) }

  // The first real client address, stripped; None when there is none.
  function FirstReal(env: Env, sightings: seq<Option<string>>): Option<string> {
    if sightings == [] then None
    else if RealClient(env, sightings[0]) then Blank(sightings[0])
    else FirstReal(env, sightings[1..])
  }

  function FirstNonBlank(sightings: seq<Option<string>>): Option<string> {
    if sightings == [] then None
    else if Blank(sightings[0]).Some? then Blank(sightings[0])
    else FirstNonBlank(sightings[1..])
  }

  function Best(env: Env, sightings: seq<Option<string>>): Option<string> {
    if FirstReal(env, sightings).Some? then FirstReal(env, sightings) else FirstNonBlank(sightings)
  }

  lemma BlankIdempotent(env: Env, s: Option<string>)
    ensures Blank(Blank(s)) == Blank(s)
    ensures RealClient(env, Blank(s)) <==> RealClient(env, s)
    ensures RealClient(env, s) ==> Blank(s).Some?
  {
    StripIdempotent(OrEmpty(s));
    assert Strip("") == "";
  }

  // Of two sightings the first real client is preferred, else the first non-blank one.
  lemma PreferredOfTwo(env: Env, a: Option<string>, b: Option<string>)
    ensures var m := PreferClientIp(env, a, b);
      && (RealClient(env, m) <==> RealClient(env, a) || RealClient(env, b))
      && Blank(m) == if RealClient(env, a) then Blank(a) else if RealClient(env, b) then Blank(b)
                     else if Blank(a).Some? then Blank(a) else Blank(b)
  {
    BlankIdempotent(env, a);
    BlankIdempotent(env, b);
  }

  // Looking at one more sighting does not change what is best overall.
  lemma MergeTwo(env: Env, a: Option<string>, b: Option<string>, rest: seq<Option<string>>)
    ensures Best(env, [PreferClientIp(env, a, b)] + rest) == Best(env, [a, b] + rest)
  {
    var m := PreferClientIp(env, a, b);
    PreferredOfTwo(env, a, b);
    BestCons(env, m, rest);
    BestCons(env, a, [b] + rest);
    BestCons(env, b, rest);
    assert [a, b] + rest == [a] + ([b] + rest);
    BlankIdempotent(env, m);
  }

  lemma BestCons(env: Env, s: Option<string>, rest: seq<Option<string>>)
    ensures FirstReal(env, [s] + rest) == if RealClient(env, s) then Blank(s) else FirstReal(env, rest)
    ensures FirstNonBlank([s] + rest) == if Blank(s).Some? then Blank(s) else FirstNonBlank(rest)
  {
    assert ([s] + rest)[1..] == rest;
  }

  // A merged address is stripped, whatever was stored.
  lemma PreferredIsStripped(env: Env, a: Option<string>, b: Option<string>)
    ensures Blank(PreferClientIp(env, a, b)) == PreferClientIp(env, a, b)
  {
    BlankIdempotent(env, a);
    BlankIdempotent(env, b);
  }

  // Main result: folding any sightings onto a stored address gives the first real client address among them all,
  // else the first non-blank one; only without sightings is the stored text left untouched.
  lemma {:induction false} FoldGivesBest(env: Env, start: Option<string>, sightings: seq<Option<string>>)
    ensures FoldPrefer(env, start, sightings) == if sightings == [] then start else Best(env, [start] + sightings)
    decreases |sightings|
  {
    if sightings != [] {
      var next, rest := PreferClientIp(env, start, sightings[0]), sightings[1..];
      FoldGivesBest(env, next, rest);
      PreferredIsStripped(env, start, sightings[0]);
      if rest == [] {
        BestOfOne(env, next);
      }
      MergeTwo(env, start, sightings[0], rest);
      assert [start, sightings[0]] + rest == [start] + sightings;
    }
  }

  lemma BestOfOne(env: Env, s: Option<string>)
    ensures Best(env, [s] + []) == Blank(s)
  {
    BestCons(env, s, []);
    BlankIdempotent(env, s);
  }

  lemma FoldFromNothing(env: Env, sightings: seq<Option<string>>)
    ensures FoldPrefer(env, None, sightings) == Best(env, sightings)
  {
    assert Strip("") == "";
    FoldGivesBest(env, None, sightings);
    BestCons(env, None, sightings);
  }
}
