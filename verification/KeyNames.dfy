/**
 * How typed keys become the 15-character names of the flat NVS namespace
 * (firmware/components/crypto/store.c): peer ids folded by XOR to four bytes and printed in hex,
 * numeric ids printed in decimal, each behind its own prefix.
 */
module KeyNames {
  import opened Bytes
  import opened Packet

  const NVS_KEY_MAX := 15

  datatype KeyKind = OneTime | Signed

  datatype Slot =
    | Session(peer: NodeId)
    | Identity(peer: NodeId)
    | PreKey(kind: KeyKind, id: u32)
    | IdPub
    | IdPriv
    | RegId
    | NextPkId

  function TwoTo(k: nat): nat {
    if k == 0 then 1 else 2 * TwoTo(k - 1)
  }

  /** Exclusive or of the low `k` bits, bit by bit. */
  function XorBits(a: nat, b: nat, k: nat): (x: nat)
    ensures x < TwoTo(k)
  {
    if k == 0 then 0 else (if a % 2 == b % 2 then 0 else 1) + 2 * XorBits(a / 2, b / 2, k - 1)
  }

  function Xor(a: byte, b: byte): byte {
    assert TwoTo(4) == 16 && TwoTo(6) == 64 && TwoTo(8) == 256;
    XorBits(a, b, 8)
  }

  lemma {:induction false} XorBitsCancel(a: nat, b: nat, c: nat, k: nat)
    requires a < TwoTo(k) && b < TwoTo(k)
    requires XorBits(a, c, k) == XorBits(b, c, k)
    ensures a == b
  {
    if k > 0 {
      var p, q := XorBits(a / 2, c / 2, k - 1), XorBits(b / 2, c / 2, k - 1);
      assert a % 2 == b % 2 && p == q;
      XorBitsCancel(a / 2, b / 2, c / 2, k - 1);
    }
  }

  lemma {:induction false} XorBitsSymmetric(a: nat, b: nat, k: nat)
    ensures XorBits(a, b, k) == XorBits(b, a, k)
    ensures XorBits(a, a, k) == 0
  {
    if k > 0 {
      XorBitsSymmetric(a / 2, b / 2, k - 1);
    }
  }

  lemma XorCancels(a: byte, b: byte, c: byte)
    ensures Xor(a, c) == Xor(b, c) ==> a == b
    ensures Xor(c, a) == Xor(a, c)
    ensures Xor(a, a) == 0
  {
    assert TwoTo(4) == 16 && TwoTo(6) == 64 && TwoTo(8) == 256;
    if Xor(a, c) == Xor(b, c) { XorBitsCancel(a, b, c, 8); }
    XorBitsSymmetric(a, c, 8);
  }

  function Fold(id: NodeId): (f: seq<byte>)
    ensures |f| == 4
  {
    [Xor(id[0], id[4]), Xor(id[1], id[5]), Xor(id[2], id[6]), Xor(id[3], id[7])]
  }

  const HEX_DIGITS := "0123456789abcdef"

  function Hex(b: seq<byte>): (s: string)
    ensures |s| == 2 * |b|
  {
    if b == [] then "" else [HEX_DIGITS[b[0] / 16], HEX_DIGITS[b[0] % 16]] + Hex(b[1..])
  }

  lemma HexDigitsDiffer(i: nat, j: nat)
    requires i < 16 && j < 16 && HEX_DIGITS[i] == HEX_DIGITS[j]
    ensures i == j
  {
  }

  lemma {:induction false} HexIsInjective(a: seq<byte>, b: seq<byte>)
    requires Hex(a) == Hex(b)
    ensures a == b
  {
    if a != [] {
      var x, y := Hex(a), Hex(b);
      assert |a| == |b|;
      assert x[2..] == Hex(a[1..]) && y[2..] == Hex(b[1..]);
      HexIsInjective(a[1..], b[1..]);
      HexDigitsDiffer(a[0] / 16, b[0] / 16);
      HexDigitsDiffer(a[0] % 16, b[0] % 16);
      assert a == [a[0]] + a[1..] && b == [b[0]] + b[1..];
    }
  }

  /** The digits printf's %u produces. */
  function Decimal(n: nat): (s: string)
    ensures |s| >= 1
  {
    if n < 10 then [HEX_DIGITS[n]] else Decimal(n / 10) + [HEX_DIGITS[n % 10]]
  }

  lemma {:induction false} DecimalIsInjective(m: nat, n: nat)
    requires Decimal(m) == Decimal(n)
    ensures m == n
  {
    var s, t := Decimal(m), Decimal(n);
    var last := |s| - 1;
    HexDigitsDiffer(m % 10, n % 10) by {
      assert s[last] == HEX_DIGITS[m % 10] && t[last] == HEX_DIGITS[n % 10];
    }
    if m >= 10 && n >= 10 {
      assert s[..last] == Decimal(m / 10) && t[..last] == Decimal(n / 10);
      DecimalIsInjective(m / 10, n / 10);
    }
  }

  /** The number a string of decimal digits stands for. */
  function Number(s: string): int {
    if s == "" then 0 else 10 * Number(s[..|s| - 1]) + (s[|s| - 1] as int - '0' as int)
  }

  lemma DigitIs(n: nat)
    requires n < 16
    ensures n < 10 ==> HEX_DIGITS[n] as int == '0' as int + n
    ensures n >= 10 ==> HEX_DIGITS[n] as int == 'a' as int + n - 10
  {
  }

  /** Reading the printed digits back gives the number; only digits are printed, and no leading zero. */
  lemma {:induction false} DecimalReads(n: nat)
    ensures Number(Decimal(n)) == n
    ensures forall i :: 0 <= i < |Decimal(n)| ==> '0' <= Decimal(n)[i] <= '9'
    ensures Decimal(n)[0] == '0' <==> n == 0
  {
    DigitIs(n % 10);
    if n >= 10 {
      DecimalReads(n / 10);
      var s := Decimal(n);
      assert s[..|s| - 1] == Decimal(n / 10);
    } else {
      DigitIs(n);
      assert Decimal(n)[..0] == "";
    }
  }

  /** What a hexadecimal digit stands for. */
  function Nibble(c: char): int {
    if '0' <= c <= '9' then c as int - '0' as int else c as int - 'a' as int + 10
  }

  /** Two lower-case digits a byte, the high one first. */
  lemma {:induction false} HexReads(b: seq<byte>, i: nat)
    requires i < |b|
    ensures var high, low := Hex(b)[2 * i], Hex(b)[2 * i + 1];
            && ('0' <= high <= '9' || 'a' <= high <= 'f') && ('0' <= low <= '9' || 'a' <= low <= 'f')
            && 16 * Nibble(high) + Nibble(low) == b[i]
  {
    if i > 0 {
      HexReads(b[1..], i - 1);
    } else {
      DigitIs(b[0] / 16);
      DigitIs(b[0] % 16);
    }
  }

  function TenTo(k: nat): nat {
    if k == 0 then 1 else 10 * TenTo(k - 1)
  }

  lemma {:induction false} DecimalLength(n: nat, k: nat)
    requires k >= 1 && n < TenTo(k)
    ensures |Decimal(n)| <= k
  {
    if n >= 10 {
      assert k >= 2;
      DecimalLength(n / 10, k - 1);
    }
  }

  function Prefix(kind: KeyKind): string {
    match kind case OneTime => "pk_" case Signed => "spk_"
  }

  /** The NVS name a typed key ends up under. */
  function KeyOf(slot: Slot): string {
    match slot
    case Session(p) => "ss_" + Hex(Fold(p))
    case Identity(p) => "ik_" + Hex(Fold(p))
    case PreKey(kind, id) => Prefix(kind) + Decimal(id)
    case IdPub => "id_pub"
    case IdPriv => "id_priv"
    case RegId => "reg_id"
    case NextPkId => "next_pk_id"
  }

  /** Every name fits an NVS key, so snprintf never cuts one short. */
  lemma KeyFits(slot: Slot)
    ensures 1 <= |KeyOf(slot)| <= NVS_KEY_MAX
  {
    if slot.PreKey? {
      assert TenTo(10) == 10000000000 by {
        assert TenTo(5) == 100000;
        assert TenTo(6) == 1000000 && TenTo(7) == 10000000 && TenTo(8) == 100000000 && TenTo(9) == 1000000000;
      }
      DecimalLength(slot.id, 10);
    }
  }

  /** Two typed keys the fold cannot tell apart. */
  predicate Aliased(a: Slot, b: Slot) {
    || (a.Session? && b.Session? && Fold(a.peer) == Fold(b.peer))
    || (a.Identity? && b.Identity? && Fold(a.peer) == Fold(b.peer))
  }

  lemma PreKeyNames(a: Slot, b: Slot)
    requires a.PreKey? && b.PreKey? && a.kind == b.kind && KeyOf(a) == KeyOf(b)
    ensures a == b
  {
    hide Decimal, Prefix;
    BehindPrefix(Prefix(a.kind), Decimal(a.id), Decimal(b.id));
    DecimalIsInjective(a.id, b.id);
  }

  lemma PeerNames(a: Slot, b: Slot)
    requires (a.Session? && b.Session?) || (a.Identity? && b.Identity?)
    ensures KeyOf(a) == KeyOf(b) <==> Fold(a.peer) == Fold(b.peer)
  {
    hide Hex, Fold;
    if KeyOf(a) == KeyOf(b) {
      BehindPrefix(if a.Session? then "ss_" else "ik_", Hex(Fold(a.peer)), Hex(Fold(b.peer)));
      HexIsInjective(Fold(a.peer), Fold(b.peer));
    }
  }

  /** Names collide exactly when the keys are equal or are same-store peers with the same fold. */
  lemma KeyOfIff(a: Slot, b: Slot)
    ensures KeyOf(a) == KeyOf(b) <==> a == b || Aliased(a, b)
  {
    hide KeyOf, Fold;
    if KeyOf(a) == KeyOf(b) {
      SameFamily(a, b);
      if a.PreKey? { PreKeyNames(a, b); }
    }
    if (a.Session? && b.Session?) || (a.Identity? && b.Identity?) { PeerNames(a, b); }
  }

  lemma BehindPrefix(p: string, s: string, t: string)
    requires p + s == p + t
    ensures s == t
  {
    assert s == (p + s)[|p|..] && t == (p + t)[|p|..];
  }

  /** The first characters of a name tell its family, and tell one-time from signed prekeys. */
  function Family(slot: Slot): nat {
    match slot
    case Session(_) => 0
    case Identity(_) => 1
    case PreKey(kind, _) => if kind.OneTime? then 2 else 3
    case IdPub => 4
    case IdPriv => 5
    case RegId => 6
    case NextPkId => 7
  }

  function FamilyOfName(s: string): nat
    requires |s| >= 4
  {
    if s[0] == 's' then (if s[1] == 's' then 0 else 3)
    else if s[0] == 'i' then (if s[1] == 'k' then 1 else if |s| == 6 then 4 else 5)
    else if s[0] == 'p' then 2
    else if s[0] == 'r' then 6 else 7
  }

  lemma NameTellsFamily(slot: Slot)
    ensures |KeyOf(slot)| >= 4 && FamilyOfName(KeyOf(slot)) == Family(slot)
  {
  }

  lemma SameFamily(a: Slot, b: Slot)
    requires KeyOf(a) == KeyOf(b)
    ensures Family(a) == Family(b)
  {
    NameTellsFamily(a);
    NameTellsFamily(b);
  }

  // ----- when peers alias -----

  /** The ids the firmware gives itself: the chip's MAC followed by AA BB. */
  predicate MadeByFirmware(id: NodeId) {
    id[6] == 0xAA && id[7] == 0xBB
  }

  /**
   * Firmware ids fold to the same four bytes exactly when bytes 2 and 3 of their MACs agree and
   * bytes 0, 4 and 1, 5 agree under XOR.
   */
  lemma FirmwareFoldIff(a: NodeId, b: NodeId)
    requires MadeByFirmware(a) && MadeByFirmware(b)
    ensures Fold(a) == Fold(b) <==>
            a[2] == b[2] && a[3] == b[3] && Xor(a[0], a[4]) == Xor(b[0], b[4]) && Xor(a[1], a[5]) == Xor(b[1], b[5])
  {
    XorCancels(a[2], b[2], 0xAA);
    XorCancels(a[3], b[3], 0xBB);
    hide Xor;
    assert Fold(a) == Fold(b) <==> forall i :: 0 <= i < 4 ==> Fold(a)[i] == Fold(b)[i];
  }

  /** So peers whose MACs share their first two bytes never alias. */
  lemma SameVendorNeverAliases(a: NodeId, b: NodeId)
    requires MadeByFirmware(a) && MadeByFirmware(b)
    requires a[0] == b[0] && a[1] == b[1]
    ensures Fold(a) == Fold(b) <==> a == b
  {
    if Fold(a) == Fold(b) {
      FirmwareFoldIff(a, b);
      XorCancels(a[4], b[4], a[0]);
      XorCancels(b[4], a[4], a[0]);
      XorCancels(a[5], b[5], a[1]);
      XorCancels(b[5], a[5], a[1]);
      hide Xor;
      assert a == b;
    }
  }

  /** Without that, two different firmware ids can share one name. */
  lemma DifferentVendorsCanAlias()
    ensures exists a: NodeId, b: NodeId ::
              MadeByFirmware(a) && MadeByFirmware(b) && a != b && KeyOf(Session(a)) == KeyOf(Session(b))
  {
    var a: NodeId := [0, 0, 0, 0, 0, 0, 0xAA, 0xBB];
    var b: NodeId := [1, 0, 0, 0, 1, 0, 0xAA, 0xBB];
    XorCancels(0, 0, 0);
    XorCancels(1, 1, 0);
    hide Xor, Hex;
    FirmwareFoldIff(a, b);
    hide Fold;
    assert KeyOf(Session(a)) == KeyOf(Session(b));
    assert MadeByFirmware(a) && MadeByFirmware(b) && a[0] != b[0];
  }

  /** crypto_node_key: the fold loop, then prefix and hex digits. */
  method NodeKey(id: NodeId, prefix: string) returns (key: string)
    ensures key == prefix + Hex(Fold(id))
    ensures |key| == |prefix| + 8 && prefix <= key
    ensures forall i :: 0 <= i < 4 ==>
              16 * Nibble(key[|prefix| + 2 * i]) + Nibble(key[|prefix| + 2 * i + 1]) == Xor(id[i], id[i + 4])
  {
    forall i | 0 <= i < 4
      ensures 16 * Nibble(Hex(Fold(id))[2 * i]) + Nibble(Hex(Fold(id))[2 * i + 1]) == Fold(id)[i]
    {
      HexReads(Fold(id), i);
    }
    hide Nibble, Xor, Hex;
    var folded := new byte[4];
    var i := 0;
    while i < 4
      invariant 0 <= i <= 4
      invariant forall j :: 0 <= j < i ==> folded[j] == Fold(id)[j]
    {
      folded[i] := Xor(id[i], id[i + 4]);
      i := i + 1;
    }
    assert folded[..] == Fold(id);
    key := prefix + Hex(folded[..]);
  }
}
