/** SOCKS5 addresses and their bytes on the wire (section 5 of RFC 1928). */
module SocksAddress {
  import opened ByteOrder
  import opened Options

  type Port = b: Bytes | |b| == 2 witness [0, 0]
  type Ip4 = b: Bytes | |b| == 4 witness [0, 0, 0, 0]
  type Ip6 = b: Bytes | |b| == 16 witness [0, 0, 0, 0, 0, 0, 0, 0, 0, 0, 0, 0, 0, 0, 0, 0]
  type Domain = b: Bytes | |b| <= 255 witness []

  const IPV4: Byte := 1
  const NAME: Byte := 3
  const IPV6: Byte := 4

  datatype Addr = V4(ip4: Ip4, port: Port) | V6(ip6: Ip6, port: Port) | Name(name: Domain, port: Port)

  /** A socket address: an IPv6 address, perhaps one that maps an IPv4 address. */
  datatype Sock = Sock(ip: Ip6, port: Port)

  function Encode(a: Addr): (r: Bytes)
    ensures |r| >= 4
  {
    match a
    case V4(ip, port) => [IPV4] + ip + port
    case V6(ip, port) => [IPV6] + ip + port
    case Name(name, port) => [NAME, |name|] + name + port
  }

  /** The length of an encoded address from its first two bytes, as the tables in the
      readers have it. */
  function EncodedLength(atype: Byte, second: Byte): Option<nat> {
    if atype == IPV4 then Some(7) else if atype == IPV6 then Some(19) else if atype == NAME then Some(4 + second) else None
  }

  /** Reads an encoded address of the right length. */
  function Decode(s: Bytes): (r: Addr)
    requires |s| >= 2 && EncodedLength(s[0], s[1]) == Some(|s|)
  {
    if s[0] == IPV4 then V4(s[1..5], s[5..7])
    else if s[0] == IPV6 then V6(s[1..17], s[17..19])
    else Name(s[2..2 + s[1]], s[2 + s[1]..])
  }

  lemma DecodeEncodes(a: Addr)
    ensures var s := Encode(a); EncodedLength(s[0], s[1]) == Some(|s|) && Decode(s) == a
  {
    match a
    case V4(ip, port) =>
      assert Encode(a)[1..5] == ip && Encode(a)[5..7] == port;
    case V6(ip, port) =>
      assert Encode(a)[1..17] == ip && Encode(a)[17..19] == port;
    case Name(name, port) =>
      assert Encode(a)[2..2 + |name|] == name && Encode(a)[2 + |name|..] == port;
  }

  lemma EncodeDecodes(s: Bytes)
    requires |s| >= 2 && EncodedLength(s[0], s[1]) == Some(|s|)
    ensures Encode(Decode(s)) == s
  {
    if s[0] == IPV4 {
      assert s == [s[0]] + s[1..5] + s[5..7];
    } else if s[0] == IPV6 {
      assert s == [s[0]] + s[1..17] + s[17..19];
    } else {
      assert s == [s[0], s[1]] + s[2..2 + s[1]] + s[2 + s[1]..];
    }
  }

  const MAPPED: Bytes := [0, 0, 0, 0, 0, 0, 0, 0, 0, 0, 0xff, 0xff]

  predicate IsMapped(ip: Ip6) {
    ip[..12] == MAPPED
  }

  function FromSock(s: Sock): Addr {
    if IsMapped(s.ip) then V4(s.ip[12..], s.port) else V6(s.ip, s.port)
  }

  /** The socket address of an address; names go to the resolver. */
  function IntoSock(a: Addr, resolve: (Bytes, Bytes) -> Option<Sock>): Option<Sock> {
    match a
    case V4(ip, port) => Some(Sock(MAPPED + ip, port))
    case V6(ip, port) => Some(Sock(ip, port))
    case Name(name, port) => resolve(name, port)
  }

  /** Through a socket address and back, an address stays as it is, unless it is an IPv6
      address that maps an IPv4 one: that comes back as the IPv4 address. */
  lemma SockRoundTripExactly(a: Addr, resolve: (Bytes, Bytes) -> Option<Sock>)
    requires !a.Name?
    ensures FromSock(IntoSock(a, resolve).value) == a <==> !(a.V6? && IsMapped(a.ip6))
  {
    if a.V4? {
      assert (MAPPED + a.ip4)[..12] == MAPPED && (MAPPED + a.ip4)[12..] == a.ip4;
    }
  }

  /** And every socket address comes back from the address it is written as. */
  lemma SockFromAddress(s: Sock, resolve: (Bytes, Bytes) -> Option<Sock>)
    ensures IntoSock(FromSock(s), resolve) == Some(s)
  {
    if IsMapped(s.ip) {
      assert MAPPED + s.ip[12..] == s.ip;
    }
  }

  /** ::ffff:1.2.3.4 comes back as 1.2.3.4. */
  lemma MappedComesBack(resolve: (Bytes, Bytes) -> Option<Sock>)
    ensures var ip: Ip6 := [0, 0, 0, 0, 0, 0, 0, 0, 0, 0, 255, 255, 1, 2, 3, 4];
      IntoSock(V6(ip, [0, 53]), resolve).Some? && FromSock(IntoSock(V6(ip, [0, 53]), resolve).value) == V4([1, 2, 3, 4], [0, 53])
  {
    var ip: Ip6 := [0, 0, 0, 0, 0, 0, 0, 0, 0, 0, 255, 255, 1, 2, 3, 4];
    assert ip[12..] == [1, 2, 3, 4];
  }
}
