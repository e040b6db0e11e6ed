/**
  Internet addresses as Go's `net` package represents them once parsed:
  `net.ParseIP` yields a 16-byte slice (an IPv4 address in its IPv4-mapped
  IPv6 form) or nil. Only the two predicates the bucket setters consult are
  modelled; parsing itself is not.
 */
module Net {
  import opened Wrappers

  type byte = x: int | 0 <= x < 0x100

  /** The 16-byte form of an address. */
  type IP = s: seq<byte> | |s| == 16 witness [0, 0, 0, 0, 0, 0, 0, 0, 0, 0, 0, 0, 0, 0, 0, 0]

  /** net.IPv4(a, b, c, d) */
  function IPv4(a: byte, b: byte, c: byte, d: byte): IP {
    [0, 0, 0, 0, 0, 0, 0, 0, 0, 0, 0xff, 0xff, a, b, c, d]
  }

  const IPv4Zero: IP := IPv4(0, 0, 0, 0)
  const IPv4Bcast: IP := IPv4(255, 255, 255, 255)
  const IPv6Unspecified: IP := [0, 0, 0, 0, 0, 0, 0, 0, 0, 0, 0, 0, 0, 0, 0, 0]
  const IPv6Loopback: IP := [0, 0, 0, 0, 0, 0, 0, 0, 0, 0, 0, 0, 0, 0, 0, 1]

  /** True when `ip.To4()` is not nil: ten zero bytes, then 0xff 0xff. */
  predicate IsIPv4Mapped(ip: IP) {
    ip[..10] == [0, 0, 0, 0, 0, 0, 0, 0, 0, 0] && ip[10] == 0xff && ip[11] == 0xff
  }

  /** `ip.IsUnspecified()`; a nil address (None) equals neither zero address. */
  predicate IsUnspecified(ip: Option<IP>) {
    ip.Some? && (ip.value == IPv4Zero || ip.value == IPv6Unspecified)
  }

  /** `ip.IsLoopback()`: 127/8 for IPv4, ::1 otherwise; false for nil. */
  predicate IsLoopback(ip: Option<IP>) {
    ip.Some? && if IsIPv4Mapped(ip.value) then ip.value[12] == 127 else ip.value == IPv6Loopback
  }

  /** An IPv4 address is unspecified exactly when it is 0.0.0.0. */
  lemma UnspecifiedIPv4(a: byte, b: byte, c: byte, d: byte)
    ensures IsUnspecified(Some(IPv4(a, b, c, d))) <==> a == 0 && b == 0 && c == 0 && d == 0
  {
  }

  /** An IPv4 address is a loopback address exactly when its first octet is 127. */
  lemma LoopbackIPv4(a: byte, b: byte, c: byte, d: byte)
    ensures IsLoopback(Some(IPv4(a, b, c, d))) <==> a == 127
  {
  }
}
