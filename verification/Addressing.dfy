/** Guest addresses handed out in the node's IPv4 block (prefix notation of section 3.1 of
    RFC 4632), with the arithmetic of 32-bit words. */
module Addressing {
  import opened Types
  import opened Base64Url
  import opened KernelArgs

  const WORD := 0x1_0000_0000

  type Ip = n: nat | n < WORD witness 0

  function Pow2(k: nat): (p: nat)
    ensures p > 0
  {
    if k == 0 then 1 else 2 * Pow2(k - 1)
  }

  /** What the mask keeps of an address: all but its `k` low bits. */
  function Drop(x: nat, k: nat): nat {
    if k == 0 then x else Drop(x / 2, k - 1)
  }

  /** What the mask clears: the value of the `k` low bits. */
  function Low(x: nat, k: nat): (r: nat)
    ensures r < Pow2(k)
  {
    if k == 0 then 0 else x % 2 + 2 * Low(x / 2, k - 1)
  }

  /** vm_subnet: the address as it is written, which need not be the network address, and the
      prefix length. */
  datatype Subnet = Subnet(address: Ip, ones: nat)
  {
    predicate Valid() {
      ones <= 32
    }

    function HostCount(): (n: nat)
      requires Valid()
      ensures n > 0
    {
      Pow2(32 - ones)
    }

    /** Every address with the same prefix is in the block. */
    predicate Contains(ip: Ip)
      requires Valid()
    {
      Drop(ip, 32 - ones) == Drop(address, 32 - ones)
    }

    /** How far the written address lies above the network address. */
    function HostBits(): nat
      requires Valid()
    {
      Low(address, 32 - ones)
    }

    function Network(): int
      requires Valid()
    {
      address - HostBits()
    }

    function Broadcast(): int
      requires Valid()
    {
      Network() + HostCount() - 1
    }
  }

  function Add32(a: nat, b: nat): Ip {
    (a + b) % WORD
  }

  /** guestIPv4ForIndex */
  function GuestIP(net: Subnet, idx: int): Option<Ip>
    requires net.Valid()
  {
    if idx < 0 then None
    else if net.ones > 30 then None
    else
      var offset := idx + 2;
      if offset >= net.HostCount() - 1 then None
      else
        var candidate := Add32(net.address, offset);
        if !net.Contains(candidate) then None else Some(candidate)
  }

  /** guestMACForIndex: AA:FC and the four bytes of idx + 1, most significant first. */
  function GuestMAC(idx: nat): seq<nat> {
    var n := (idx + 1) % WORD;
    [0xAA, 0xFC, n / 0x100_0000, n / 0x1_0000 % 0x100, n / 0x100 % 0x100, n % 0x100]
  }

  // ------------------------------------------------------------------------ arithmetic

  lemma Pow2Word()
    ensures Pow2(32) == WORD
  {
    assert Pow2(8) == 0x100;
    assert Pow2(16) == 0x1_0000;
    assert Pow2(24) == 0x100_0000;
  }

  /** Adding less than what is left of the block does not reach the mask. */
  lemma {:induction false} DropBelow(x: nat, y: nat, k: nat)
    requires Low(x, k) + y < Pow2(k)
    ensures Drop(x + y, k) == Drop(x, k)
    decreases k
  {
    if k > 0 {
      var carried := y / 2 + (x % 2 + y % 2) / 2;
      assert (x + y) / 2 == x / 2 + carried;
      DropBelow(x / 2, carried, k - 1);
    }
  }

  /** Adding at most one block, past the end of this one, leads into the next. */
  lemma {:induction false} DropAbove(x: nat, y: nat, k: nat)
    requires y <= Pow2(k) <= Low(x, k) + y
    ensures Drop(x + y, k) == Drop(x, k) + 1
    decreases k
  {
    if k > 0 {
      var carried := y / 2 + (x % 2 + y % 2) / 2;
      assert (x + y) / 2 == x / 2 + carried;
      DropAbove(x / 2, carried, k - 1);
    }
  }

  lemma {:induction false} DropWhole(x: nat, k: nat, m: nat)
    ensures Drop(x + Pow2(m + k), k) == Drop(x, k) + Pow2(m)
    decreases k
  {
    if k > 0 {
      assert Pow2(m + k) == 2 * Pow2(m + (k - 1));
      assert (x + Pow2(m + k)) / 2 == x / 2 + Pow2(m + (k - 1));
      DropWhole(x / 2, k - 1, m);
    }
  }

  lemma {:induction false} DropSmall(x: nat, k: nat, m: nat)
    requires x < Pow2(m + k)
    ensures Drop(x, k) < Pow2(m)
    decreases k
  {
    if k > 0 {
      assert Pow2(m + k) == 2 * Pow2(m + (k - 1));
      DropSmall(x / 2, k - 1, m);
    }
  }

  lemma {:induction false} BlockBelow(x: nat, k: nat, m: nat)
    requires x < Pow2(m + k)
    ensures Low(x, k) <= x && x - Low(x, k) + Pow2(k) <= Pow2(m + k)
    decreases k
  {
    if k == 0 {
    } else {
      assert Pow2(m + k) == 2 * Pow2(m + (k - 1));
      BlockBelow(x / 2, k - 1, m);
    }
  }

  /** A block ends at or below the end of the address space. */
  lemma BlockFits(net: Subnet)
    requires net.Valid()
    ensures 0 <= net.Network() && net.HostBits() < net.HostCount() && net.Network() + net.HostCount() <= WORD
  {
    Pow2Word();
    BlockBelow(net.address, 32 - net.ones, net.ones);
  }

  lemma InsideBlock(net: Subnet, offset: nat)
    requires net.Valid() && net.HostBits() + offset < net.HostCount()
    ensures Add32(net.address, offset) == net.address + offset
    ensures net.Contains(Add32(net.address, offset))
  {
    BlockFits(net);
    DropBelow(net.address, offset, 32 - net.ones);
  }

  /** One block up, or wrapped around to the bottom of `m + k` bits: another block. */
  lemma NextBlock(x: nat, y: nat, k: nat, m: nat, z: nat)
    requires m > 0 && x < Pow2(m + k) && y <= Pow2(k) <= Low(x, k) + y
    requires z == x + y || z + Pow2(m + k) == x + y
    ensures Drop(z, k) != Drop(x, k)
  {
    DropAbove(x, y, k);
    if z + Pow2(m + k) == x + y {
      DropWhole(z, k, m);
      assert Pow2(m) == 2 * Pow2(m - 1);
    }
  }

  /** So the sum is not in the block, unless the block is all there is. */
  lemma OutsideBlock(net: Subnet, offset: nat)
    requires net.Valid() && 0 < net.ones && offset < net.HostCount() <= net.HostBits() + offset
    ensures !net.Contains(Add32(net.address, offset))
  {
    BlockFits(net);
    var k, m := 32 - net.ones, net.ones;
    assert m + k == 32 && Pow2(m + k) == WORD by {
      Pow2Word();
    }
    NextBlock(net.address, offset, k, m, Add32(net.address, offset));
  }

  // ---------------------------------------------------------------------- one address

  /** An address is handed out exactly while it lies below the end of the block, counting
      from the written address, and below the block's size less one. There is no wrap. */
  lemma GuestIPExactly(net: Subnet, idx: nat)
    requires net.Valid() && 0 < net.ones
    ensures GuestIP(net, idx) ==
            if net.ones <= 30 && idx + 2 < net.HostCount() - 1 && net.HostBits() + idx + 2 < net.HostCount()
            then Some(net.address + idx + 2) else None
    ensures GuestIP(net, idx).Some? ==> net.Network() + 2 <= GuestIP(net, idx).value <= net.Broadcast()
  {
    BlockFits(net);
    if net.ones <= 30 && idx + 2 < net.HostCount() - 1 {
      if net.HostBits() + idx + 2 < net.HostCount() {
        InsideBlock(net, idx + 2);
      } else {
        OutsideBlock(net, idx + 2);
      }
    }
  }

  /** With the subnet written as its network address, index i gets base + i + 2 exactly when
      that is below the broadcast address; the containment test never fails. */
  lemma GuestIPFromNetworkAddress(net: Subnet, idx: nat)
    requires net.Valid() && net.ones <= 30 && net.address == net.Network()
    ensures GuestIP(net, idx) ==
            if net.address + idx + 2 < net.Broadcast() then Some(net.address + idx + 2) else None
  {
    assert net.HostBits() == 0;
    if idx + 2 < net.HostCount() - 1 {
      InsideBlock(net, idx + 2);
    }
  }

  /** The broadcast address is handed out exactly when the subnet is written with host bits
      and at least three addresses of the block lie from the written one on. */
  lemma BroadcastHandedOut(net: Subnet)
    requires net.Valid() && 0 < net.ones <= 30
    ensures (exists idx: nat :: GuestIP(net, idx) == Some(net.Broadcast())) <==>
            net.HostBits() > 0 && net.HostBits() + 3 <= net.HostCount()
  {
    BlockFits(net);
    if net.HostBits() > 0 && net.HostBits() + 3 <= net.HostCount() {
      var idx := net.HostCount() - net.HostBits() - 3;
      GuestIPExactly(net, idx);
      assert GuestIP(net, idx) == Some(net.Broadcast());
    }
    if idx: nat :| GuestIP(net, idx) == Some(net.Broadcast()) {
      GuestIPExactly(net, idx);
    }
  }

  function FromBytes(a: int, b: int, c: int, d: int): int {
    a * 0x100_0000 + b * 0x1_0000 + c * 0x100 + d
  }

  lemma BytesDetermine(n: nat)
    ensures FromBytes(n / 0x100_0000, n / 0x1_0000 % 0x100, n / 0x100 % 0x100, n % 0x100) == n
  {
    assert n / 0x100 == n / 0x1_0000 * 0x100 + n / 0x100 % 0x100;
    assert n / 0x1_0000 == n / 0x100_0000 * 0x100 + n / 0x1_0000 % 0x100;
  }

  function IndexOf(mac: seq<nat>): int
    requires |mac| == 6
  {
    FromBytes(mac[2], mac[3], mac[4], mac[5]) - 1
  }

  /** A MAC tells its index, so MACs differ; all begin with AA:FC, so they are unicast and locally
      administered. */
  lemma MacTellsIndex(idx: nat)
    requires idx + 1 < WORD
    ensures IndexOf(GuestMAC(idx)) == idx
    ensures var mac := GuestMAC(idx);
            |mac| == 6 && mac[0] == 0xAA && mac[1] == 0xFC && forall i :: 0 <= i < 6 ==> mac[i] < 0x100
  {
    var n := (idx + 1) % WORD;
    assert n == idx + 1;
    BytesDetermine(n);
    assert GuestMAC(idx)[2..] == [n / 0x100_0000, n / 0x1_0000 % 0x100, n / 0x100 % 0x100, n % 0x100];
  }

  // ------------------------------------------------------------------- all services

  /** A service as far as addressing goes. */
  datatype Guest = Guest(networked: bool, ip: Option<Ip>, mac: seq<nat>, args: Bytes)

  // "ip="
  const IP_PREFIX: Bytes := [105, 112, 61]

  /** The kernel arguments with the address in them, unless they bring an address of their own. */
  function WithIpArg(args: Bytes, ipArg: Bytes): Bytes {
    if HasArg(args, IP_PREFIX) then args else Insert(args, ipArg)
  }

  function Networked(guests: seq<Guest>): nat {
    if guests == [] then 0 else Networked(guests[..|guests| - 1]) + if guests[|guests| - 1].networked then 1 else 0
  }

  lemma {:induction false} NetworkedGrows(guests: seq<Guest>, i: nat, j: nat)
    requires i <= j <= |guests|
    ensures Networked(guests[..i]) <= Networked(guests[..j])
    ensures i < j && guests[i].networked ==> Networked(guests[..i]) < Networked(guests[..j])
    decreases j
  {
    if i < j {
      assert guests[..j][..j - 1] == guests[..j - 1];
      NetworkedGrows(guests, i, j - 1);
    }
  }

  /** The guest at `i` got the address of its rank among the networked ones; `ipArg` spells an
      address as a kernel argument. */
  ghost predicate Assigned(net: Subnet, ipArg: Ip -> Bytes, before: seq<Guest>, i: nat, guest: Guest)
    requires net.Valid() && i < |before|
  {
    var rank := Networked(before[..i]);
    guest == if before[i].networked && GuestIP(net, rank).Some?
             then Guest(true, GuestIP(net, rank), GuestMAC(rank),
                        WithIpArg(before[i].args, ipArg(GuestIP(net, rank).value)))
             else before[i]
  }

  /** A block of all addresses contains whatever the sum wraps around to. */
  lemma WholeSpace(net: Subnet, idx: nat)
    requires net.Valid() && net.ones == 0
    ensures GuestIP(net, idx) == if idx + 2 < WORD - 1 then Some(Add32(net.address, idx + 2)) else None
  {
    Pow2Word();
    assert net.HostCount() == WORD;
    DropSmall(net.address, 32, 0);
    DropSmall(Add32(net.address, idx + 2), 32, 0);
  }

  lemma NoneAfterNone(net: Subnet, i: nat, j: nat)
    requires net.Valid() && i <= j && GuestIP(net, i).None?
    ensures GuestIP(net, j).None?
  {
    if net.ones == 0 {
      WholeSpace(net, i);
      WholeSpace(net, j);
    } else {
      GuestIPExactly(net, i);
      GuestIPExactly(net, j);
    }
  }

  /** assignNetworking: numbers the networked services and stops when the block is full. */
  method AssignNetworking(net: Subnet, ipArg: Ip -> Bytes, guests: array<Guest>)
    requires net.Valid()
    modifies guests
    ensures forall i :: 0 <= i < guests.Length ==> Assigned(net, ipArg, old(guests[..]), i, guests[i])
  {
    ghost var before := guests[..];
    var idx := 0;
    var i := 0;
    while i < guests.Length
      invariant 0 <= i <= guests.Length && idx == Networked(before[..i])
      invariant forall k :: 0 <= k < i ==> Assigned(net, ipArg, before, k, guests[k])
      invariant forall k :: i <= k < guests.Length ==> guests[k] == before[k]
    {
      assert before[..i + 1][..i] == before[..i];
      if guests[i].networked {
        var ip := GuestIP(net, idx);
        if ip.None? {
          forall k | i <= k < guests.Length ensures Assigned(net, ipArg, before, k, guests[k]) {
            NetworkedGrows(before, i, k);
            NoneAfterNone(net, idx, Networked(before[..k]));
          }
          return;
        }
        var args := guests[i].args;
        var own := HasKernelArgPrefix(args, IP_PREFIX);
        if !own {
          args := InsertKernelArg(args, ipArg(ip.value));
        }
        guests[i] := Guest(true, ip, GuestMAC(idx), args);
        idx := idx + 1;
      }
      i := i + 1;
    }
  }

  /** In a block of all addresses the sum wraps at most once, so different ranks still get
      different addresses. */
  lemma WrappedAddressesDiffer(net: Subnet, i: nat, j: nat)
    requires net.Valid() && net.ones == 0 && i < j && GuestIP(net, j).Some?
    ensures GuestIP(net, i).Some? && GuestIP(net, i).value != GuestIP(net, j).value
  {
    WholeSpace(net, i);
    WholeSpace(net, j);
    WrapsOnce(net.address, i + 2);
    WrapsOnce(net.address, j + 2);
  }

  lemma WrapsOnce(a: nat, b: nat)
    requires a < WORD && b < WORD
    ensures Add32(a, b) == if a + b < WORD then a + b else a + b - WORD
  {
  }

  /** Everyone served has an address and a MAC of its own, for any subnet, and the served ones
      are the first of the networked services. Unless the subnet is all addresses written with
      host bits, the addresses rise with the rank and lie inside the block, above its first
      host; with the subnet written as its network address nobody gets the broadcast address. */
  lemma AddressesAreDistinct(net: Subnet, ipArg: Ip -> Bytes, before: seq<Guest>, after: seq<Guest>, i: nat, j: nat)
    requires net.Valid() && i < j < |before| == |after|
    requires Assigned(net, ipArg, before, i, after[i]) && Assigned(net, ipArg, before, j, after[j])
    requires before[i].networked && before[j].networked && GuestIP(net, Networked(before[..j])).Some?
    ensures after[i].ip.Some? && after[j].ip.Some?
    ensures after[i].ip.value != after[j].ip.value && after[i].mac != after[j].mac
    ensures 0 < net.ones || net.address == net.Network() ==>
              after[i].ip.value < after[j].ip.value && net.Network() + 1 < after[i].ip.value < net.Broadcast()
    ensures net.address == net.Network() ==> after[j].ip.value < net.Broadcast()
  {
    var ri, rj := Networked(before[..i]), Networked(before[..j]);
    NetworkedGrows(before, i, j);
    RanksGetAddresses(net, ri, rj);
    MacTellsIndex(ri);
    MacTellsIndex(rj);
  }

  lemma RanksGetAddresses(net: Subnet, i: nat, j: nat)
    requires net.Valid() && i < j && GuestIP(net, j).Some?
    ensures GuestIP(net, i).Some? && GuestIP(net, i).value != GuestIP(net, j).value && j + 1 < WORD
    ensures 0 < net.ones || net.address == net.Network() ==>
              GuestIP(net, i).value < GuestIP(net, j).value
                && net.Network() + 1 < GuestIP(net, i).value < net.Broadcast()
    ensures net.address == net.Network() ==> GuestIP(net, j).value < net.Broadcast()
  {
    BlockFits(net);
    if net.ones == 0 {
      WrappedAddressesDiffer(net, i, j);
      if net.address == net.Network() {
        GuestIPFromNetworkAddress(net, i);
        GuestIPFromNetworkAddress(net, j);
      }
    } else {
      GuestIPExactly(net, i);
      GuestIPExactly(net, j);
    }
  }

  /** A served guest boots with an address argument before any "--"; one of its own stays. */
  lemma ServedGuestHasAddressArgument(args: Bytes, ipArg: Bytes)
    requires Token(ipArg) && IP_PREFIX <= ipArg
    ensures HasArg(WithIpArg(args, ipArg), IP_PREFIX) && Text(IP_PREFIX) == "ip="
    ensures HasArg(args, IP_PREFIX) ==> WithIpArg(args, ipArg) == args
  {
    if !HasArg(args, IP_PREFIX) {
      InsertSplices(args, ipArg);
      TokenIsOneField(ipArg);
      var parts := Fields(args);
      var i := SeparatorAt(parts);
      var after := Spliced(parts, [ipArg]);
      assert ipArg != SEPARATOR by {
        assert ipArg[0] == IP_PREFIX[0];
      }
      assert after[i] == ipArg && forall k :: 0 <= k < i ==> after[k] == parts[k];
      assert i < SeparatorAt(after);
    }
  }
}
