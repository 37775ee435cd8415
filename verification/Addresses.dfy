/** IP addresses as octet sequences, with the classifications the sender relies on. */
module Addresses {
  import opened Base

  type Ipv4Addr = s: seq<byte> | |s| == 4 witness [0, 0, 0, 0]
  type Ipv6Addr = s: seq<byte> | |s| == 16 witness [0, 0, 0, 0, 0, 0, 0, 0, 0, 0, 0, 0, 0, 0, 0, 0]

  const UNSPECIFIED: Ipv6Addr := [0, 0, 0, 0, 0, 0, 0, 0, 0, 0, 0, 0, 0, 0, 0, 0]

  datatype Family = Ipv4 | Ipv6

  datatype IpAddr = V4(v4: Ipv4Addr) | V6(v6: Ipv6Addr) {
    function Octets(): seq<byte> {
      match this case V4(a) => a case V6(a) => a
    }

    function AddressFamily(): Family {
      if V4? then Ipv4 else Ipv6
    }

    predicate IsUnspecified() {
      forall i :: 0 <= i < |Octets()| ==> Octets()[i] == 0
    }

    /** 224.0.0.0/4 or ff00::/8. */
    predicate IsMulticast() {
      match this
      case V4(a) => a[0] / 16 == 14
      case V6(a) => a[0] == 0xff
    }

    /** fe80::/10. */
    predicate IsUnicastLinkLocal() {
      V6? && v6[0] == 0xfe && v6[1] / 64 == 2
    }
  }

  datatype Ipv6Scope =
    InterfaceLocal | LinkLocal | RealmLocal | AdminLocal | SiteLocal | OrganizationLocal | Global | Other(code: byte)

  function Ipv6MulticastScope(group: Ipv6Addr): Option<Ipv6Scope> {
    if !V6(group).IsMulticast() then None else
    var scope := group[1] % 16;
    Some(
      if scope == 1 then InterfaceLocal
      else if scope == 2 then LinkLocal
      else if scope == 3 then RealmLocal
      else if scope == 4 then AdminLocal
      else if scope == 5 then SiteLocal
      else if scope == 8 then OrganizationLocal
      else if scope == 14 then Global
      else Other(scope))
  }
}
