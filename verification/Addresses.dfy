/**
 MAC and IP arithmetic: big-endian byte strings, 64-bit identifiers, and the address of a
 numbered host in a network.
 */
module Addresses {
  import opened Wrappers
  import opened Volumes

  const TWO_TO_63: nat := 0x8000_0000_0000_0000
  const TWO_TO_64: nat := 0x1_0000_0000_0000_0000

  /** A machine word; conversions to a signed word reinterpret the upper half. */
  type UInt = x: int | 0 <= x < 0x1_0000_0000_0000_0000

  /** The identifiers up to the first one whose MAC overflows; the program means 32-bit ones. */
  type VmId = x: int | 0 <= x < 0xADAC_0000_0000

  function Signed(x: UInt): int {
    if x < TWO_TO_63 then x else x - TWO_TO_64
  }

  function Abs(x: int): nat {
    if x < 0 then -x else x
  }

  // ---------------------------------------------------------------- big-endian numbers

  function Pow256(k: nat): (r: nat)
    ensures r > 0
  {
    if k == 0 then 1 else 256 * Pow256(k - 1)
  }

  function FromBytes(b: Bytes): nat {
    if b == [] then 0 else 256 * FromBytes(b[..|b| - 1]) + b[|b| - 1]
  }

  /** Without leading zeros. */
  function ToBytes(n: nat): Bytes {
    if n == 0 then [] else ToBytes(n / 256) + [n % 256]
  }

  function Zeros(k: nat): (r: Bytes)
    ensures |r| == k && forall i :: 0 <= i < k ==> r[i] == 0
  {
    seq(k, i => 0)
  }

  lemma {:induction false} FromToBytes(n: nat)
    ensures FromBytes(ToBytes(n)) == n
  {
    if n != 0 {
      FromToBytes(n / 256);
      assert ToBytes(n)[..|ToBytes(n)| - 1] == ToBytes(n / 256);
    }
  }

  lemma {:induction false} ToBytesLength(n: nat, k: nat)
    ensures |ToBytes(n)| <= k <==> n < Pow256(k)
    decreases k
  {
    if n != 0 && k > 0 {
      ToBytesLength(n / 256, k - 1);
    }
  }

  /** Zero padding does not change the number. */
  lemma {:induction false} PaddedValue(k: nat, b: Bytes)
    ensures FromBytes(Zeros(k) + b) == FromBytes(b)
    decreases k + |b|
  {
    var s := Zeros(k) + b;
    if b != [] {
      assert s[..|s| - 1] == Zeros(k) + b[..|b| - 1];
      PaddedValue(k, b[..|b| - 1]);
    } else if k > 0 {
      assert s[..|s| - 1] == Zeros(k - 1) + b;
      PaddedValue(k - 1, b);
    }
  }

  // ---------------------------------------------------------------- MAC addresses

  datatype MacError = Overflow

  /** The padded big-endian sum; the addend counts as a signed word, the sum without its sign. */
  function AddMac(mac: Bytes, addend: UInt): Result<Bytes, MacError> {
    var sum := ToBytes(Abs(FromBytes(mac) + Signed(addend)));
    if |sum| > |mac| then Failure(Overflow) else Success(Zeros(|mac| - |sum|) + sum)
  }

  /**
   Fails exactly when the sum needs more bytes than the address has; otherwise the result has the
   same length and is the sum.
   */
  method AddToMAC(mac: Bytes, addend: UInt) returns (r: Result<Bytes, MacError>)
    ensures r == AddMac(mac, addend)
    ensures r.Success? <==> Abs(FromBytes(mac) + Signed(addend)) < Pow256(|mac|)
    ensures r.Success? ==> |r.value| == |mac| && FromBytes(r.value) == Abs(FromBytes(mac) + Signed(addend))
  {
    var value := FromBytes(mac) + Signed(addend);
    var valueBytes := ToBytes(Abs(value));
    AddMacValue(mac, addend);
    if |valueBytes| > |mac| {
      return Failure(Overflow);
    }
    var out := Padded(valueBytes, |mac|);
    return Success(out);
  }

  /** Copies the bytes to the end of a zeroed buffer. */
  method Padded(valueBytes: Bytes, length: nat) returns (r: Bytes)
    requires |valueBytes| <= length
    ensures r == Zeros(length - |valueBytes|) + valueBytes
  {
    var out := new Byte[length](_ => 0);
    var start := length - |valueBytes|;
    for i := 0 to |valueBytes|
      invariant forall k :: 0 <= k < start ==> out[k] == 0
      invariant forall k :: 0 <= k < i ==> out[start + k] == valueBytes[k]
    {
      out[start + i] := valueBytes[i];
    }
    forall k | 0 <= k < length ensures out[k] == (Zeros(start) + valueBytes)[k] {
      if k >= start {
        assert out[start + (k - start)] == valueBytes[k - start];
      }
    }
    return out[..];
  }

  lemma {:induction false} AddMacValue(mac: Bytes, addend: UInt)
    ensures var r, v := AddMac(mac, addend), Abs(FromBytes(mac) + Signed(addend));
            && (r.Success? <==> v < Pow256(|mac|))
            && (r.Success? ==> |r.value| == |mac| && FromBytes(r.value) == v)
  {
    var v := Abs(FromBytes(mac) + Signed(addend));
    ToBytesLength(v, |mac|);
    FromToBytes(v);
    if |ToBytes(v)| <= |mac| {
      PaddedValue(|mac| - |ToBytes(v)|, ToBytes(v));
    }
  }

  /** The identifier behind an address, as the low 64 bits of the difference. */
  function IdFromMac(mac: Bytes, base: Bytes): UInt {
    (FromBytes(mac) - FromBytes(base)) % TWO_TO_64
  }

  /** IdFromMac undoes AddToMAC, for every address and addend whose sum is not negative. */
  lemma {:induction false} IdFromMacUndoesAdd(mac: Bytes, addend: UInt)
    requires AddMac(mac, addend).Success? && FromBytes(mac) + Signed(addend) >= 0
    ensures IdFromMac(AddMac(mac, addend).value, mac) == addend
  {
    AddMacValue(mac, addend);
  }

  /** The two sums only differ in sign, which is lost. */
  predicate Opposite(mac: Bytes, a: UInt, b: UInt) {
    FromBytes(mac) + Signed(a) == -(FromBytes(mac) + Signed(b))
  }

  /** Distinct addends give distinct addresses, except exactly if their sums only differ in sign. */
  lemma {:induction false} AddMacCollides(mac: Bytes, a: UInt, b: UInt)
    requires AddMac(mac, a).Success? && AddMac(mac, b).Success?
    ensures AddMac(mac, a) == AddMac(mac, b) <==> a == b || Opposite(mac, a, b)
  {
    AddMacValue(mac, a);
    AddMacValue(mac, b);
  }

  /** Distinct addends below 2^63 give distinct addresses. */
  lemma {:induction false} AddMacInjective(mac: Bytes, a: UInt, b: UInt)
    requires a < TWO_TO_63 && b < TWO_TO_63
    requires AddMac(mac, a).Success? && AddMac(mac, b).Success?
    ensures AddMac(mac, a) == AddMac(mac, b) <==> a == b
  {
    AddMacCollides(mac, a, b);
  }

  const QEMU_BASE: Bytes := [0x52, 0x54, 0, 0, 0, 0]

  /** The identifiers QemuMAC does not panic on. */
  predicate QemuFits(id: UInt) {
    AddMac(QEMU_BASE, id).Success?
  }

  function QemuMAC(id: UInt): Bytes
    requires QemuFits(id)
  {
    AddMac(QEMU_BASE, id).value
  }

  lemma {:induction false} QemuBaseValue()
    ensures FromBytes(QEMU_BASE) == 0x5254_0000_0000 && Pow256(6) == 0x1_0000_0000_0000
  {
    var b: Bytes := [0x52, 0x54, 0, 0, 0, 0];
    assert b[..5] == [0x52, 0x54, 0, 0, 0] && b[..5][..4] == [0x52, 0x54, 0, 0]
           && b[..5][..4][..3] == [0x52, 0x54, 0] && b[..5][..4][..3][..2] == [0x52, 0x54]
           && b[..5][..4][..3][..2][..1] == [0x52];
    assert FromBytes([0x52]) == 0x52;
    assert FromBytes([0x52, 0x54]) == 0x5254;
    assert FromBytes([0x52, 0x54, 0]) == 0x525400;
    assert FromBytes([0x52, 0x54, 0, 0]) == 0x52540000;
    assert FromBytes([0x52, 0x54, 0, 0, 0]) == 0x5254000000;
    assert Pow256(2) == 0x1_0000 && Pow256(4) == 256 * Pow256(3) && Pow256(3) == 256 * Pow256(2);
  }

  /** Below 2^63 exactly these identifiers have an address. */
  lemma {:induction false} QemuFitsExactly(id: UInt)
    requires id < TWO_TO_63
    ensures QemuFits(id) <==> id < 0xADAC_0000_0000
  {
    QemuBaseValue();
    AddMacValue(QEMU_BASE, id);
  }

  /** Every one of them has an address, and no two share one. */
  lemma {:induction false} QemuMacTotal(id: VmId)
    ensures QemuFits(id) && |QemuMAC(id)| == 6 && IdFromMac(QemuMAC(id), QEMU_BASE) == id
  {
    QemuBaseValue();
    AddMacValue(QEMU_BASE, id);
    IdFromMacUndoesAdd(QEMU_BASE, id);
  }

  lemma {:induction false} QemuMacInjective(a: VmId, b: VmId)
    ensures QemuFits(a) && QemuFits(b)
    ensures QemuMAC(a) == QemuMAC(b) <==> a == b
  {
    QemuMacTotal(a);
    QemuMacTotal(b);
  }

  // ---------------------------------------------------------------- consecutive identifiers

  /** The i-th identifier from dhcpID on, on machine words. */
  function IdAt(dhcpID: UInt, i: nat): UInt {
    (dhcpID + i) % TWO_TO_64
  }

  lemma {:induction false} IdAtValue(dhcpID: UInt, i: nat)
    requires i < TWO_TO_64
    ensures IdAt(dhcpID, i) == if dhcpID + i < TWO_TO_64 then dhcpID + i else dhcpID + i - TWO_TO_64
  {
  }

  // ---------------------------------------------------------------- hosts in a network

  function Pow2(k: nat): (r: nat)
    ensures r > 0
  {
    if k == 0 then 1 else 2 * Pow2(k - 1)
  }

  /** The address with its host bits masked out. */
  function NetworkAddress(address: nat, hostBits: nat): (r: nat)
    ensures r <= address < r + Pow2(hostBits)
  {
    if hostBits == 0 then address else 2 * NetworkAddress(address / 2, hostBits - 1)
  }

  lemma {:induction false} NetworkAddressMultiple(address: nat, hostBits: nat) returns (m: nat)
    ensures NetworkAddress(address, hostBits) == Pow2(hostBits) * m
  {
    if hostBits == 0 {
      m := address;
    } else {
      m := NetworkAddressMultiple(address / 2, hostBits - 1);
      TwiceTheProduct(Pow2(hostBits - 1), m);
    }
  }

  lemma {:induction false} TwiceTheProduct(a: nat, m: nat)
    ensures 2 * (a * m) == (2 * a) * m
  {
  }

  lemma {:induction false} RemainderIs(a: nat, size: nat, m: nat)
    requires size > 0 && size * m <= a < size * m + size
    ensures a / size == m && a % size == a - size * m
  {
    var d := a / size;
    assert a == size * d + a % size;
    assert d < m ==> size * (d + 1) <= size * m;
    assert d > m ==> size * (m + 1) <= size * d;
  }

  /** Masking out the host bits leaves the multiple of the network's size below the address. */
  lemma {:induction false} NetworkAddressValue(address: nat, hostBits: nat)
    ensures NetworkAddress(address, hostBits) == address - address % Pow2(hostBits)
  {
    var m := NetworkAddressMultiple(address, hostBits);
    RemainderIs(address, Pow2(hostBits), m);
  }

  /** Host `num` of a network; negative numbers count from the end.  None if there is no such host. */
  function CidrHost(network: nat, hostBits: nat, num: int): Option<nat> {
    var max := Pow2(hostBits) - 1;
    if num >= 0 then (if num > max then None else Some(network + num))
    else if -num - 1 > max then None
    else Some(network + max + 1 + num)
  }
}
