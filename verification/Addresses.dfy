/** IP addresses as `net/netip` values: 32-bit and 128-bit numbers, with an optional IPv6 zone. */
module Addresses {
  type Bits32 = n: nat | n < 0x1_0000_0000
  type Bits128 = n: nat | n < 0x1_0000_0000_0000_0000_0000_0000_0000_0000

  /** NoAddr is the zero `netip.Addr`; as the content of a stored record it stands for text that is no address. */
  datatype Addr = NoAddr | V4(bits4: Bits32) | V6(bits6: Bits128, zone: string)

  predicate IsValid(a: Addr) { !a.NoAddr? }

  /** ::ffff:0:0/96, the IPv4-mapped IPv6 addresses. */
  predicate Is4In6(a: Addr) { a.V6? && a.bits6 / 0x1_0000_0000 == 0xffff }

  function Unmap(a: Addr): Addr {
    if Is4In6(a) then V4(a.bits6 % 0x1_0000_0000) else a
  }

  /** The addresses a caller may ask for: valid, unzoned and not IPv4-mapped. */
  predicate Canonical(a: Addr) {
    IsValid(a) && !Is4In6(a) && (a.V6? ==> a.zone == "")
  }

  datatype Family = IP4 | IP6

  /** Whether an address belongs to a family, after unmapping. */
  predicate Matches(f: Family, a: Addr) {
    match f
    case IP4 => Unmap(a).V4?
    case IP6 => Unmap(a).V6?
  }
}
