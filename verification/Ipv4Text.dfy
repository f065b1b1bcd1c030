/** IPv4 text of networks as the standard library reads and prints it, and the canonical
    form of app/ip_cidrs.py: a bare address for a single host, else `address/prefix`. */
module Ipv4Text {
  import opened PyText
  import opened IpNetwork

  // One to three digits, no leading zero, at most 255.
  function ParseOctet(s: string): Option<nat> {
    if s == [] || !AllDigits(s) || |s| > 3 || (s != "0" && s[0] == '0') then None
    else if DecimalValue(s) > 255 then None
    else Some(DecimalValue(s))
  }

  function ParseAddress(s: string): Option<nat> {
    var p := Split(s, '.');
    if |p| != 4 then None
    else
      match (ParseOctet(p[0]), ParseOctet(p[1]), ParseOctet(p[2]), ParseOctet(p[3]))
      case (Some(a), Some(b), Some(c), Some(d)) => Some(((a * 256 + b) * 256 + c) * 256 + d)
      case _ => None
  }

  // The prefix whose netmask is `mask`, if any.
  function MaskPrefix(mask: nat, p: nat): Option<nat>
    requires p <= 32
    decreases 32 - p
  {
    if mask == 0x1_0000_0000 - Pow2(32 - p) then Some(p)
    else if p == 32 then None
    else MaskPrefix(mask, p + 1)
  }

  // Digits (at most 32), else a netmask, else a host mask.
  function ParsePrefix(s: string): Option<nat> {
    if s != [] && AllDigits(s) && DecimalValue(s) <= 32 then Some(DecimalValue(s))
    else match ParseAddress(s)
      case None => None
      case Some(m) =>
        if MaskPrefix(m, 0).Some? then MaskPrefix(m, 0)
        else if m < 0x1_0000_0000 then MaskPrefix(0xFFFF_FFFF - m, 0)
        else None
  }

  predicate IsAscii(s: string) { forall i :: 0 <= i < |s| ==> s[i] as int < 128 }

  // The IPv4 reading of an operand; host bits are allowed and masked off.
  function ParseNetwork(raw: string): (r: Option<Network>)
    ensures r.Some? ==> r.value.version.V4? && r.value.prefix <= 32
  {
    var value := Strip(raw);
    if value == [] || !IsAscii(value) then None
    else
      var parts := Split(value, '/');
      if |parts| > 2 then None
      else
        match (ParseAddress(parts[0]), if |parts| == 1 then Some(32) else ParsePrefix(parts[1]))
        case (Some(addr), Some(prefix)) => if prefix <= 32 then Some(NetworkOf(V4, addr, prefix)) else None
        case _ => None
  }

  // The four bytes of the address, most significant first.
  function Dotted(addr: nat): string {
    Decimal(addr / 256 / 256 / 256 % 256) + "." + Decimal(addr / 256 / 256 % 256) + "."
    + Decimal(addr / 256 % 256) + "." + Decimal(addr % 256)
  }

  function NetworkText(n: Network): string { Dotted(n.base) + "/" + Decimal(n.prefix) }

  function Canonical(raw: string): Option<string> {
    match ParseNetwork(raw)
    case None => None
    case Some(n) => Some(if n.prefix == 32 then Dotted(n.base) else NetworkText(n))
  }

  // ----- Parsing what was printed

  lemma OctetRoundTrip(n: nat)
    requires n < 256
    ensures ParseOctet(Decimal(n)) == Some(n)
    ensures '.' !in Decimal(n) && '/' !in Decimal(n) && ':' !in Decimal(n)
  {
    DecimalRoundTrip(n);
    DecimalByteLength(n);
    DecimalNotBlank(n);
    if n == 0 {
      assert Decimal(0) == "0";
    }
  }

  lemma SplitFour(a: string, b: string, c: string, d: string)
    requires '.' !in a && '.' !in b && '.' !in c && '.' !in d
    ensures Split(a + "." + b + "." + c + "." + d, '.') == [a, b, c, d]
  {
    JoinAssociates(a + ['.'], b + ['.'], c + ['.'] + d);
    JoinAssociates(a + ['.'], b, ['.']);
    JoinAssociates(a + ['.'] + b + ['.'], c + ['.'], d);
    JoinAssociates(a + ['.'] + b + ['.'], c, ['.']);
    SplitCons(a, '.', b + ['.'] + (c + ['.'] + d));
    SplitCons(b, '.', c + ['.'] + d);
    SplitCons(c, '.', d);
    SplitOne(d, '.');
  }

  lemma FourOctets(pa: string, pb: string, pc: string, pd: string)
    requires '.' !in pa && '.' !in pb && '.' !in pc && '.' !in pd
    requires ParseOctet(pa).Some? && ParseOctet(pb).Some? && ParseOctet(pc).Some? && ParseOctet(pd).Some?
    ensures ParseAddress(pa + "." + pb + "." + pc + "." + pd)
         == Some(((ParseOctet(pa).value * 256 + ParseOctet(pb).value) * 256 + ParseOctet(pc).value) * 256
                 + ParseOctet(pd).value)
  {
    SplitFour(pa, pb, pc, pd);
  }

  lemma AddressRoundTrip(addr: nat)
    requires addr < 0x1_0000_0000
    ensures ParseAddress(Dotted(addr)) == Some(addr)
  {
    var a, b, c, d := addr / 256 / 256 / 256 % 256, addr / 256 / 256 % 256, addr / 256 % 256, addr % 256;
    OctetRoundTrip(a);
    OctetRoundTrip(b);
    OctetRoundTrip(c);
    OctetRoundTrip(d);
    FourOctets(Decimal(a), Decimal(b), Decimal(c), Decimal(d));
    BytesOf(addr);
  }

  lemma BytesOf(addr: nat)
    requires addr < 0x1_0000_0000
    ensures ((addr / 256 / 256 / 256 % 256 * 256 + addr / 256 / 256 % 256) * 256 + addr / 256 % 256) * 256 + addr % 256
         == addr
  {
    var h := addr / 256;
    var g := h / 256;
    assert g / 256 < 256 && g / 256 * 256 + g % 256 == g;
  }

  // Printed text is plain: non-empty, ASCII, without blanks at its ends or slashes.
  lemma DottedIsPlain(addr: nat)
    ensures IsAscii(Dotted(addr)) && '/' !in Dotted(addr)
    ensures Dotted(addr) != [] && !IsSpace(Dotted(addr)[0]) && Trimmed(Dotted(addr))
  {
    var a, d := addr / 256 / 256 / 256 % 256, addr % 256;
    DecimalNotBlank(a);
    DecimalNotBlank(addr / 256 / 256 % 256);
    DecimalNotBlank(addr / 256 % 256);
    DecimalNotBlank(d);
    var text := Dotted(addr);
    assert text[0] == Decimal(a)[0] && text[|text| - 1] == Decimal(d)[|Decimal(d)| - 1];
  }

  // An address and a prefix text joined by a slash are read as these two parts.
  lemma ParseJoined(a: string, p: string, addr: nat, prefix: nat)
    requires a != [] && p != [] && !IsSpace(a[0]) && !IsSpace(p[|p| - 1])
    requires IsAscii(a) && IsAscii(p) && '/' !in a && '/' !in p
    requires ParseAddress(a) == Some(addr) && ParsePrefix(p) == Some(prefix) && prefix <= 32
    ensures ParseNetwork(a + "/" + p) == Some(NetworkOf(V4, addr, prefix))
  {
    var text := a + ['/'] + p;
    assert text[0] == a[0] && text[|text| - 1] == p[|p| - 1];
    StripNoop(text);
    SplitCons(a, '/', p);
    SplitOne(p, '/');
  }

  lemma ParseWithPrefix(addr: nat, prefix: nat)
    requires addr < 0x1_0000_0000 && prefix <= 32
    ensures ParseNetwork(Dotted(addr) + "/" + Decimal(prefix)) == Some(NetworkOf(V4, addr, prefix))
  {
    AddressRoundTrip(addr);
    DottedIsPlain(addr);
    DecimalRoundTrip(prefix);
    DecimalNotBlank(prefix);
    ParseJoined(Dotted(addr), Decimal(prefix), addr, prefix);
  }

  lemma ParseBare(addr: nat)
    requires addr < 0x1_0000_0000
    ensures ParseNetwork(Dotted(addr)) == Some(NetworkOf(V4, addr, 32))
  {
    AddressRoundTrip(addr);
    DottedIsPlain(addr);
    StripNoop(Dotted(addr));
    SplitOne(Dotted(addr), '/');
  }

  // Reading a printed network gives the network back, with and without its prefix.
  lemma NetworkRoundTrip(n: Network)
    requires ValidNetwork(n) && n.version.V4?
    ensures ParseNetwork(NetworkText(n)) == Some(n)
    ensures n.prefix == 32 ==> ParseNetwork(Dotted(n.base)) == Some(n)
  {
    Powers();
    ParseWithPrefix(n.base, n.prefix);
    ParseBare(n.base);
    MaskOfMember(n, n.base);
  }

  lemma ParsedIsValid(raw: string)
    requires ParseNetwork(raw).Some?
    ensures ValidNetwork(ParseNetwork(raw).value) && ParseNetwork(raw).value.version.V4?
  {
    Powers();
    var parts := Split(Strip(raw), '/');
    var prefix := if |parts| == 1 then 32 else ParsePrefix(parts[1]).value;
    MaskedIsValid(V4, ParseAddress(parts[0]).value, prefix);
  }

  // Main result: the canonical text denotes the same network and is its own canonical form.
  lemma CanonicalIsStable(raw: string)
    requires ParseNetwork(raw).Some?
    ensures Canonical(raw).Some?
    ensures ParseNetwork(Canonical(raw).value) == ParseNetwork(raw)
    ensures Canonical(Canonical(raw).value) == Canonical(raw)
  {
    ParsedIsValid(raw);
    NetworkRoundTrip(ParseNetwork(raw).value);
  }

  // Main result: two operands have equal canonical text exactly when they denote the same set of addresses.
  lemma CanonicalDecidesAddresses(r1: string, r2: string)
    requires ParseNetwork(r1).Some? && ParseNetwork(r2).Some?
    ensures Canonical(r1) == Canonical(r2)
       <==> forall x :: Contains(ParseNetwork(r1).value, x) <==> Contains(ParseNetwork(r2).value, x)
  {
    CanonicalIsStable(r1);
    CanonicalIsStable(r2);
    ParsedIsValid(r1);
    ParsedIsValid(r2);
    if forall x :: Contains(ParseNetwork(r1).value, x) <==> Contains(ParseNetwork(r2).value, x) {
      SameAddressesSameNetwork(ParseNetwork(r1).value, ParseNetwork(r2).value);
    }
  }

  // The canonical text of a single host is bare, that of any other network has its prefix.
  lemma CanonicalIsBare(raw: string)
    requires ParseNetwork(raw).Some?
    ensures var n := ParseNetwork(raw).value;
      && ('/' in Canonical(raw).value <==> n.prefix < 32)
      && Canonical(raw).value == Dotted(n.base) + if n.prefix < 32 then "/" + Decimal(n.prefix) else ""
  {
    var n := ParseNetwork(raw).value;
    DottedIsPlain(n.base);
    assert Dotted(n.base) + "" == Dotted(n.base);
    assert '/' in NetworkText(n) by {
      assert NetworkText(n)[|Dotted(n.base)|] == '/';
    }
    assert NetworkText(n) == Dotted(n.base) + ("/" + Decimal(n.prefix));
  }

  // Host bits below the prefix do not change the canonical text.
  lemma CanonicalIgnoresHostBits(n: Network, addr: nat)
    requires ValidNetwork(n) && n.version.V4? && Contains(n, addr)
    ensures Canonical(Dotted(addr) + "/" + Decimal(n.prefix)) == Canonical(NetworkText(n))
  {
    Powers();
    ParseWithPrefix(addr, n.prefix);
    NetworkRoundTrip(n);
    MaskOfMember(n, addr);
  }

  lemma MaskOfMember(n: Network, addr: nat)
    requires ValidNetwork(n) && Contains(n, addr)
    ensures NetworkOf(n.version, addr, n.prefix) == n
  {
    RemainderInBlock(n.base, addr, Size(n));
  }

  lemma RemainderInBlock(base: nat, addr: nat, s: nat)
    requires s > 0 && base % s == 0 && base <= addr < base + s
    ensures addr % s == addr - base
  {
    assert base == base / s * s;
    QuotientInBlock(base / s, addr - base, s);
  }

  lemma QuotientInBlock(q: nat, r: nat, s: nat)
    requires r < s
    ensures (q * s + r) % s == r
  {
    var k := (q * s + r) / s;
    if k < q {
      MultiplyMonotone(k + 1, q, s);
    } else if k > q {
      MultiplyMonotone(q + 1, k, s);
    }
  }

  // ----- What text is read at all

  lemma OctetsExactly(s: string, n: nat)
    ensures ParseOctet(s) == Some(n) <==> n < 256 && s == Decimal(n)
  {
    if ParseOctet(s).Some? {
      DecimalOfValue(s);
    }
    if n < 256 && s == Decimal(n) {
      OctetRoundTrip(n);
    }
  }

  // Main result: an IPv4 address is read from its dotted form and from no other text.
  lemma AddressesExactly(s: string, addr: nat)
    ensures ParseAddress(s) == Some(addr) <==> addr < 0x1_0000_0000 && s == Dotted(addr)
  {
    if ParseAddress(s) == Some(addr) {
      ReadIsDotted(s);
    }
    if addr < 0x1_0000_0000 && s == Dotted(addr) {
      AddressRoundTrip(addr);
    }
  }

  lemma ReadIsDotted(s: string)
    requires ParseAddress(s).Some?
    ensures ParseAddress(s).value < 0x1_0000_0000 && s == Dotted(ParseAddress(s).value)
  {
    var p := Split(s, '.');
    var a, b, c, d := ParseOctet(p[0]).value, ParseOctet(p[1]).value, ParseOctet(p[2]).value, ParseOctet(p[3]).value;
    OctetsExactly(p[0], a);
    OctetsExactly(p[1], b);
    OctetsExactly(p[2], c);
    OctetsExactly(p[3], d);
    SplitJoins(s, '.');
    JoinFour(p);
    FourBytes(a, b, c, d);
  }

  lemma JoinFour(p: seq<string>)
    requires |p| == 4
    ensures JoinOn(p, '.') == p[0] + "." + p[1] + "." + p[2] + "." + p[3]
  {
    assert p[1..][1..] == p[2..] && p[2..][1..] == p[3..] && p[3..] == [p[3]];
    assert JoinOn(p[2..], '.') == p[2] + "." + p[3];
    assert JoinOn(p[1..], '.') == p[1] + "." + (p[2] + "." + p[3]);
  }

  lemma FourBytes(a: nat, b: nat, c: nat, d: nat)
    requires a < 256 && b < 256 && c < 256 && d < 256
    ensures var n := ((a * 256 + b) * 256 + c) * 256 + d;
      && n < 0x1_0000_0000
      && n / 256 / 256 / 256 % 256 == a && n / 256 / 256 % 256 == b && n / 256 % 256 == c && n % 256 == d
  {}

  // A mask is read as the one prefix whose netmask it is.
  lemma {:induction false} MasksExactly(mask: nat, from: nat, p: nat)
    requires from <= 32
    ensures MaskPrefix(mask, from) == Some(p) <==> from <= p <= 32 && mask == 0x1_0000_0000 - Pow2(32 - p)
    decreases 32 - from
  {
    Powers();
    if mask == 0x1_0000_0000 - Pow2(32 - from) {
      if from < p <= 32 {
        Pow2Grows(32 - p, 32 - from);
      }
    } else if from < 32 {
      MasksExactly(mask, from + 1, p);
    }
  }

  function Netmask(p: nat): int
    requires p <= 32
  {
    0x1_0000_0000 - Pow2(32 - p)
  }

  predicate IsNetmask(m: nat) { exists q: nat :: q <= 32 && m == Netmask(q) }

  // The mask of a prefix, or else the complement of one.
  predicate MaskReads(m: nat, p: nat) {
    p < 33 && (m == Netmask(p) || (!IsNetmask(m) && 0xFFFF_FFFF - m == Netmask(p)))
  }

  // A prefix is a number up to 32, else a netmask, else the complement of a netmask.
  lemma PrefixesExactly(t: string, p: nat)
    ensures ParsePrefix(t) == Some(p)
       <==> if t != "" && AllDigits(t) && DecimalValue(t) < 33 then p == DecimalValue(t)
            else exists m: nat :: m < 0x1_0000_0000 && t == Dotted(m) && MaskReads(m, p)
  {
    if !(t != "" && AllDigits(t) && DecimalValue(t) < 33) {
      forall m: nat
        ensures ParseAddress(t) == Some(m) <==> m < 0x1_0000_0000 && t == Dotted(m)
      {
        AddressesExactly(t, m);
      }
      if ParseAddress(t).Some? {
        MaskReadsExactly(ParseAddress(t).value, p);
      }
    }
  }

  lemma MaskReadsExactly(m: nat, p: nat)
    requires m < 0x1_0000_0000
    ensures (if MaskPrefix(m, 0).Some? then MaskPrefix(m, 0) else MaskPrefix(0xFFFF_FFFF - m, 0)) == Some(p) <==> MaskReads(m, p)
  {
    SomeMask(m);
    if IsNetmask(m) {
      NetmaskReads(m, p);
    } else {
      ComplementReads(m, p);
    }
  }

  lemma NetmaskReads(m: nat, p: nat)
    requires IsNetmask(m)
    ensures MaskPrefix(m, 0) == Some(p) <==> MaskReads(m, p)
  {
    MaskIs(m, p);
  }

  lemma ComplementReads(m: nat, p: nat)
    requires m < 0x1_0000_0000 && !IsNetmask(m)
    ensures MaskPrefix(0xFFFF_FFFF - m, 0) == Some(p) <==> MaskReads(m, p)
  {
    MaskIs(0xFFFF_FFFF - m, p);
  }

  lemma MaskIs(m: nat, p: nat)
    ensures MaskPrefix(m, 0) == Some(p) <==> p < 33 && m == Netmask(p)
  {
    MasksExactly(m, 0, p);
  }

  lemma SomeMask(m: nat)
    ensures MaskPrefix(m, 0).Some? <==> IsNetmask(m)
  {
    if MaskPrefix(m, 0).Some? {
      var found := MaskPrefix(m, 0).value;
      MaskIs(m, found);
      assert m == Netmask(found);
    }
    if q: nat :| q <= 32 && m == Netmask(q) {
      MaskIs(m, q);
    }
  }

  // Main result: an IPv4 operand is a dotted address, alone or with a slash and a readable prefix, and nothing else.
  lemma NetworksExactly(raw: string, n: Network)
    ensures ParseNetwork(raw) == Some(n)
       <==> exists addr: nat :: IsOperand(Strip(raw), addr, n)
  {
    if ParseNetwork(raw) == Some(n) {
      ReadIsOperand(raw);
    }
    if addr: nat :| IsOperand(Strip(raw), addr, n) {
      OperandIsRead(raw, addr, n);
    }
  }

  // The address and the prefix text of what was read.
  lemma ReadIsOperand(raw: string)
    requires ParseNetwork(raw).Some?
    ensures exists addr: nat :: IsOperand(Strip(raw), addr, ParseNetwork(raw).value)
  {
    var value, parts := Strip(raw), Split(Strip(raw), '/');
    SplitJoins(value, '/');
    ReadIsDotted(parts[0]);
    var addr := ParseAddress(parts[0]).value;
    if |parts| == 2 {
      TwoParts(parts);
      assert value == Dotted(addr) + "/" + parts[1];
      AsciiTail(Dotted(addr) + "/", parts[1]);
    }
    assert IsOperand(value, addr, ParseNetwork(raw).value);
  }

  lemma TwoParts(parts: seq<string>)
    requires |parts| == 2
    ensures JoinOn(parts, '/') == parts[0] + "/" + parts[1]
  {
    assert parts[1..] == [parts[1]];
  }

  lemma AsciiTail(a: string, b: string)
    requires IsAscii(a + b)
    ensures IsAscii(b)
  {
    assert forall i :: 0 <= i < |b| ==> b[i] == (a + b)[|a| + i];
  }

  ghost predicate IsOperand(value: string, addr: nat, n: Network) {
    && addr < 0x1_0000_0000
    && ((value == Dotted(addr) && n == NetworkOf(V4, addr, 32))
        || exists t :: IsAscii(t) && '/' !in t && value == Dotted(addr) + "/" + t && ParsePrefix(t).Some?
                       && ParsePrefix(t).value <= 32 && n == NetworkOf(V4, addr, ParsePrefix(t).value))
  }

  lemma OperandIsRead(raw: string, addr: nat, n: Network)
    requires IsOperand(Strip(raw), addr, n)
    ensures ParseNetwork(raw) == Some(n)
  {
    var value := Strip(raw);
    AddressRoundTrip(addr);
    DottedIsPlain(addr);
    if value == Dotted(addr) {
      SplitOne(value, '/');
    } else {
      var t :| IsAscii(t) && '/' !in t && value == Dotted(addr) + "/" + t && ParsePrefix(t).Some?
               && ParsePrefix(t).value <= 32 && n == NetworkOf(V4, addr, ParsePrefix(t).value);
      SplitCons(Dotted(addr), '/', t);
      SplitOne(t, '/');
      assert value == Dotted(addr) + ['/'] + t;
      assert IsAscii(value);
    }
  }

  // ----- Operands of either version

  // A text that is no IPv4 operand is given to the IPv6 reader, if it is not blank and plain ASCII.
  function ReadOperand(raw: string, v6: string -> Option<Network>): Option<Network> {
    if ParseNetwork(raw).Some? then ParseNetwork(raw)
    else if Strip(raw) == [] || !IsAscii(Strip(raw)) then None
    else v6(Strip(raw))
  }

  // Blank text and text with a character past 127 is unreadable; of any other the IPv4 reading comes first.
  lemma OperandsAreRead(raw: string, v6: string -> Option<Network>)
    ensures Strip(raw) == "" || (exists c :: c in Strip(raw) && c as int > 127) ==> ReadOperand(raw, v6) == None
    ensures ParseNetwork(raw).Some? ==> ReadOperand(raw, v6) == ParseNetwork(raw)
    ensures ParseNetwork(raw).None? && Strip(raw) != "" && (forall c :: c in Strip(raw) ==> c as int <= 127) ==>
      ReadOperand(raw, v6) == v6(Strip(raw))
  {
    var text := Strip(raw);
    assert forall i :: 0 <= i < |text| ==> text[i] in text;
    if c :| c in text && c as int > 127 {
      var i :| 0 <= i < |text| && text[i] == c;
      assert !IsAscii(text);
    } else {
      assert IsAscii(text);
    }
  }

  ghost predicate ReadsV6(v6: string -> Option<Network>) {
    forall s :: v6(s).Some? ==> v6(s).value.version.V6? && ValidNetwork(v6(s).value)
  }

  function OperandProblem(raw: string, deny: bool, v6: string -> Option<Network>): Option<Problem>
    requires ReadsV6(v6)
  {
    WafProblem(ReadOperand(raw, v6), deny)
  }

  // Main result: whatever the text, it is accepted as an operand exactly when it can be read as a network that is
  // not too broad, neither all unspecified nor all multicast, and for deny shares nothing with the infrastructure.
  lemma OperandAcceptedExactly(raw: string, deny: bool, v6: string -> Option<Network>)
    requires ReadsV6(v6)
    ensures OperandProblem(raw, deny, v6).None?
       <==> match ReadOperand(raw, v6) {
              case None => false
              case Some(net) =>
                && ValidNetwork(net) && Size(net) <= MaxSize(net.version) && !AllUnspecified(net) && !AllMulticast(net)
                && (deny ==> !SharesInfrastructure(net))
            }
    ensures OperandProblem(raw, deny, v6) == Some(Invalid) <==> ReadOperand(raw, v6).None?
  {
    if ParseNetwork(raw).Some? {
      ParsedIsValid(raw);
    }
    ReasonExactly(ReadOperand(raw, v6), deny);
  }
}
