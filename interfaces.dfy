/**
  Local interface enumeration (`obtener_interfaces`) and the /24 network to
  sweep (`calcular_red`), with IPv4 addresses as four octets.
*/
module Interfaces {
  import opened Common
  import opened Text

  /** The address families an adapter address can have. */
  datatype AddressFamily = AfInet | AfInet6 | AfLink

  /** One address of an adapter, as the operating system reports it. */
  datatype AdapterAddress = AdapterAddress(family: AddressFamily, address: string, netmask: Option<string>)

  /** One adapter with its addresses, in the order the operating system lists them. */
  datatype Adapter = Adapter(name: string, addresses: seq<AdapterAddress>)

  /** An interface offered for scanning: `{"nombre", "ip", "mascara"}`. */
  datatype NetworkInterface = NetworkInterface(name: string, ip: string, netmask: Option<string>)

  /** An address is kept when it is IPv4 and does not start with `127.`. */
  predicate Kept(e: AdapterAddress) {
    e.family == AfInet && !StartsWith(e.address, "127.")
  }

  /** The interfaces one adapter contributes, in address order. */
  function AdapterInterfaces(name: string, addresses: seq<AdapterAddress>): seq<NetworkInterface>
    decreases |addresses|
  {
    if addresses == [] then []
    else
      var e := addresses[|addresses| - 1];
      AdapterInterfaces(name, addresses[..|addresses| - 1]) +
        if Kept(e) then [NetworkInterface(name, e.address, e.netmask)] else []
  }

  /** The interfaces of all adapters, adapter by adapter. */
  function InterfacesOf(adapters: seq<Adapter>): seq<NetworkInterface>
    decreases |adapters|
  {
    if adapters == [] then []
    else
      var a := adapters[|adapters| - 1];
      InterfacesOf(adapters[..|adapters| - 1]) + AdapterInterfaces(a.name, a.addresses)
  }

  /** `obtener_interfaces()`: two nested loops appending every kept address. */
  method GetInterfaces(adapters: seq<Adapter>) returns (interfaces: seq<NetworkInterface>)
    ensures interfaces == InterfacesOf(adapters)
  {
    interfaces := [];
    for i := 0 to |adapters|
      invariant interfaces == InterfacesOf(adapters[..i])
    {
      var adapter := adapters[i];
      ghost var before := interfaces;
      for j := 0 to |adapter.addresses|
        invariant interfaces == before + AdapterInterfaces(adapter.name, adapter.addresses[..j])
      {
        var e := adapter.addresses[j];
        assert adapter.addresses[..j + 1][..j] == adapter.addresses[..j];
        if e.family == AfInet && !StartsWith(e.address, "127.") {
          interfaces := interfaces + [NetworkInterface(adapter.name, e.address, e.netmask)];
        }
      }
      assert adapter.addresses[..|adapter.addresses|] == adapter.addresses;
      assert adapters[..i + 1][..i] == adapters[..i];
    }
    assert adapters[..|adapters|] == adapters;
  }

  /** The interfaces of one adapter are exactly its kept addresses. */
  lemma {:induction false} AdapterInterfacesMembership(name: string, addresses: seq<AdapterAddress>, x: NetworkInterface)
    ensures x in AdapterInterfaces(name, addresses) <==>
      exists e :: e in addresses && Kept(e) && x == NetworkInterface(name, e.address, e.netmask)
    decreases |addresses|
  {
    if addresses != [] {
      var n := |addresses| - 1;
      AdapterInterfacesMembership(name, addresses[..n], x);
      assert addresses == addresses[..n] + [addresses[n]];
    }
  }

  /**
    An interface is offered exactly when some adapter has a kept address
    with that name, address and netmask: nothing else, and nothing missed.
  */
  lemma {:induction false} InterfacesMembership(adapters: seq<Adapter>, x: NetworkInterface)
    ensures x in InterfacesOf(adapters) <==>
      exists a, e :: a in adapters && e in a.addresses && Kept(e) && x == NetworkInterface(a.name, e.address, e.netmask)
    decreases |adapters|
  {
    if adapters != [] {
      var n := |adapters| - 1;
      var last := adapters[n];
      InterfacesMembership(adapters[..n], x);
      AdapterInterfacesMembership(last.name, last.addresses, x);
      assert adapters == adapters[..n] + [last];
      if exists a, e :: a in adapters && e in a.addresses && Kept(e) && x == NetworkInterface(a.name, e.address, e.netmask) {
        var a, e :| a in adapters && e in a.addresses && Kept(e) && x == NetworkInterface(a.name, e.address, e.netmask);
        if a != last {
          assert a in adapters[..n];
        }
      }
    }
  }

  /** No offered interface is IPv6 or has an address starting with `127.`. */
  lemma NoLoopbackOffered(adapters: seq<Adapter>, x: NetworkInterface)
    requires x in InterfacesOf(adapters)
    ensures !StartsWith(x.ip, "127.")
  {
    InterfacesMembership(adapters, x);
  }

  /** An IPv4 address as its four octets. */
  type Octet = n: nat | n < 256

  datatype IPv4 = IPv4(a: Octet, b: Octet, c: Octet, d: Octet)

  /** Dotted-decimal text of an address, as `str()` of an address gives it. */
  function Dotted(ip: IPv4): string {
    Decimal(ip.a) + "." + Decimal(ip.b) + "." + Decimal(ip.c) + "." + Decimal(ip.d)
  }

  /** One octet as the address parser accepts it: 1 to 3 ASCII digits, no leading zero, at most 255. */
  function ParseOctet(s: string): Option<Octet> {
    if s == [] || !AllDigits(s) || |s| > 3 || (s != "0" && s[0] == '0') then None
    else
      var v := DecimalValue(s);
      if v > 255 then None else Some(v)
  }

  /** The address parser: exactly four dot-separated octets, or a parse error (`None`). */
  function ParseIPv4(s: string): Option<IPv4> {
    var parts := Split(s, '.');
    if |parts| != 4 then None
    else
      match (ParseOctet(parts[0]), ParseOctet(parts[1]), ParseOctet(parts[2]), ParseOctet(parts[3]))
      case (Some(a), Some(b), Some(c), Some(d)) => Some(IPv4(a, b, c, d))
      case _ => None
  }

  /** A network given by its base address and prefix length. */
  datatype Ipv4Network = Ipv4Network(base: IPv4, prefixLen: nat)

  /** `a.b.c.d/n`, as `str()` of a network gives it. */
  function NetworkText(n: Ipv4Network): string {
    Dotted(n.base) + "/" + Decimal(n.prefixLen)
  }

  /** The /24 network of an address: the last octet zeroed, whatever the interface's own mask. */
  function Slash24(ip: IPv4): Ipv4Network {
    Ipv4Network(IPv4(ip.a, ip.b, ip.c, 0), 24)
  }

  /**
    `calcular_red(ip)`: the text of the /24 network of `ip`, its base being
    the address with the last octet zeroed; `None` when the address does not
    parse.
  */
  function NetworkToScan(ipText: string): (r: Option<string>)
    ensures r.Some? <==> ParseIPv4(ipText).Some?
    ensures r.Some? ==> r.value == Dotted(ParseIPv4(ipText).value.(d := 0)) + "/24"
  {
    match ParseIPv4(ipText)
    case None => None
    case Some(ip) => ExampleDecimals(); Some(NetworkText(Slash24(ip)))
  }

  /**
    Every address, written in dotted decimal, gives the network whose base
    is that address with the last octet zeroed, and two addresses give the
    same network exactly when their first three octets agree.
  */
  lemma NetworkOfAddress(ip: IPv4, x: IPv4)
    ensures NetworkToScan(Dotted(ip)) == Some(Dotted(IPv4(ip.a, ip.b, ip.c, 0)) + "/24")
    ensures NetworkToScan(Dotted(x)) == NetworkToScan(Dotted(ip)) <==> x.a == ip.a && x.b == ip.b && x.c == ip.c
  {
    ParseDotted(ip);
    ParseDotted(x);
    if NetworkToScan(Dotted(x)) == NetworkToScan(Dotted(ip)) {
      var bx, bi := IPv4(x.a, x.b, x.c, 0), IPv4(ip.a, ip.b, ip.c, 0);
      assert Dotted(bx) + "/24" == Dotted(bi) + "/24";
      assert Dotted(bx) == Dotted(bi) by {
        assert |Dotted(bx)| == |Dotted(bi)|;
        assert Dotted(bx) == (Dotted(bx) + "/24")[..|Dotted(bx)|];
      }
      ParseDotted(bx);
      ParseDotted(bi);
    }
  }

  /** The address as a 32-bit number, most significant octet first. */
  function ToInt(ip: IPv4): nat {
    ((ip.a * 256 + ip.b) * 256 + ip.c) * 256 + ip.d
  }

  /**
    Zeroing the last octet is masking with 255.255.255.0: the base address is
    the number of `ip` with its low 8 bits cleared, and two addresses share a
    /24 network exactly when their numbers agree above the low 8 bits.
  */
  lemma Slash24Masks(ip: IPv4, x: IPv4)
    ensures ToInt(Slash24(ip).base) == ToInt(ip) - ToInt(ip) % 256
    ensures Slash24(x) == Slash24(ip) <==> ToInt(x) / 256 == ToInt(ip) / 256
  {
    var hi := (ip.a * 256 + ip.b) * 256 + ip.c;
    var xhi := (x.a * 256 + x.b) * 256 + x.c;
    assert ToInt(ip) == hi * 256 + ip.d;
    assert ToInt(ip) % 256 == ip.d;
    assert ToInt(ip) / 256 == hi;
    assert ToInt(x) / 256 == xhi;
    if xhi == hi {
      assert x.c == ip.c;
      assert x.a * 256 + x.b == ip.a * 256 + ip.b;
      assert x.b == ip.b;
    }
  }

  /** The decimal text of an octet has at most three digits. */
  lemma OctetDigits(n: Octet)
    ensures |Decimal(n)| <= 3
  {
    if n >= 10 {
      assert Decimal(n) == Decimal(n / 10) + [Digit(n % 10)];
      if n / 10 >= 10 {
        assert Decimal(n / 10) == Decimal(n / 100) + [Digit((n / 10) % 10)];
      }
    }
  }

  /** The parser reads back the text of every octet. */
  lemma ParseOctetRendered(n: Octet)
    ensures ParseOctet(Decimal(n)) == Some(n)
  {
    OctetDigits(n);
    DecimalRoundTrip(n);
  }

  /** Dotted text splits at the dots into the four octets' texts. */
  lemma DottedPieces(ip: IPv4)
    ensures Split(Dotted(ip), '.') == [Decimal(ip.a), Decimal(ip.b), Decimal(ip.c), Decimal(ip.d)]
  {
    var da, db, dc, dd := Decimal(ip.a), Decimal(ip.b), Decimal(ip.c), Decimal(ip.d);
    DigitsAvoid(da);
    DigitsAvoid(db);
    DigitsAvoid(dc);
    DigitsAvoid(dd);
    assert Dotted(ip) == da + ['.'] + (db + ['.'] + (dc + ['.'] + dd));
    SplitAt(da, '.', db + ['.'] + (dc + ['.'] + dd));
    SplitAt(db, '.', dc + ['.'] + dd);
    SplitAt(dc, '.', dd);
    SplitAbsent(dd, '.');
  }

  /** Parsing the dotted text of an address gives the address back. */
  lemma ParseDotted(ip: IPv4)
    ensures ParseIPv4(Dotted(ip)) == Some(ip)
  {
    DottedPieces(ip);
    ParseOctetRendered(ip.a);
    ParseOctetRendered(ip.b);
    ParseOctetRendered(ip.c);
    ParseOctetRendered(ip.d);
  }

  /** A text of one to three digits followed by a dot starts with `127.` exactly when the digits are `127`. */
  lemma DigitsBeforeDot(da: string, rest: string)
    requires AllDigits(da) && 1 <= |da| <= 3
    ensures StartsWith(da + "." + rest, "127.") <==> da == "127"
  {
    var s := da + "." + rest;
    if StartsWith(s, "127.") {
      assert s[|da|] == '.';
      assert s[|da|] == "127."[|da|];
      assert |da| == 3;
      assert da == s[..3];
    }
    if da == "127" {
      assert s[..4] == "127.";
    }
  }

  /**
    For every address the interface filter's text test is the octet test:
    the dotted text starts with `127.` exactly when the first octet is 127,
    so no address of 127.0.0.0/8 is offered and no other address is dropped.
  */
  lemma LoopbackText(ip: IPv4)
    ensures StartsWith(Dotted(ip), "127.") <==> ip.a == 127
  {
    var da := Decimal(ip.a);
    var rest := Decimal(ip.b) + "." + Decimal(ip.c) + "." + Decimal(ip.d);
    assert Dotted(ip) == da + "." + rest;
    OctetDigits(ip.a);
    DigitsBeforeDot(da, rest);
    assert Decimal(127) == "127" by {
      assert Decimal(12) == Decimal(1) + [Digit(2)];
    }
    if da == "127" {
      DecimalInjective(ip.a, 127);
    }
  }

  /** The decimal texts of the octets and the prefix length in the example network. */
  lemma ExampleDecimals()
    ensures Decimal(192) == "192" && Decimal(168) == "168" && Decimal(1) == "1"
    ensures Decimal(50) == "50" && Decimal(0) == "0" && Decimal(24) == "24"
  {
    assert Decimal(19) == Decimal(1) + [Digit(9)];
    assert Decimal(16) == Decimal(1) + [Digit(6)];
    assert Decimal(50) == Decimal(5) + [Digit(0)];
    assert Decimal(24) == Decimal(2) + [Digit(4)];
  }

  /** The dotted text of the example address. */
  lemma ExampleDotted()
    ensures Dotted(IPv4(192, 168, 1, 50)) == "192.168.1.50"
    ensures Dotted(IPv4(192, 168, 1, 0)) == "192.168.1.0"
  {
    ExampleDecimals();
  }

  /** The example interface address parses to its four octets. */
  lemma ExampleParse()
    ensures ParseIPv4("192.168.1.50") == Some(IPv4(192, 168, 1, 50))
  {
    ExampleDotted();
    ParseDotted(IPv4(192, 168, 1, 50));
  }

  /** The text of the example /24 network. */
  lemma ExampleNetworkText()
    ensures NetworkText(Slash24(IPv4(192, 168, 1, 50))) == "192.168.1.0/24"
  {
    ExampleDotted();
    ExampleDecimals();
    assert NetworkText(Slash24(IPv4(192, 168, 1, 50))) == "192.168.1.0" + "/" + "24";
  }

  /** The example network: the interface address 192.168.1.50 gives `192.168.1.0/24`. */
  lemma ExampleNetwork()
    ensures NetworkToScan("192.168.1.50") == Some("192.168.1.0/24")
  {
    ExampleParse();
    ExampleNetworkText();
  }
}
