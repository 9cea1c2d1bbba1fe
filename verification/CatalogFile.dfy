/** The `.tcat` catalog cache file (`tempr_workspace/src/catalog.rs`): a header that guards a body with a hash. */
module CatalogFile {
  import opened Utf8
  import opened Wrappers

  const MODULUS: nat := 0x1_0000_0000_0000_0000
  const OFFSET_BASIS: nat := 0xcbf2_9ce4_8422_2325
  const PRIME: nat := 0x1000_0000_01b3

  // --- the hash ---

  function TwoTo(n: nat): nat { if n == 0 then 1 else 2 * TwoTo(n - 1) }

  /** Exclusive or of the low `bits` bits. */
  function Xor(a: nat, b: nat, bits: nat): (r: nat)
    ensures r < TwoTo(bits)
  {
    if bits == 0 then 0 else (a + b) % 2 + 2 * Xor(a / 2, b / 2, bits - 1)
  }

  lemma XorHalves(a: nat, b: nat, bits: nat, x: nat)
    requires bits > 0 && x == Xor(a, b, bits)
    ensures x / 2 == Xor(a / 2, b / 2, bits - 1) && x % 2 == (a + b) % 2
  {
  }

  lemma FromHalves(x: nat, y: nat)
    requires x / 2 == y / 2 && x % 2 == y % 2
    ensures x == y
  {
  }

  lemma BitUndone(a: nat, b: nat, x: nat)
    requires x % 2 == (a + b) % 2
    ensures (x + b) % 2 == a % 2
  {
  }

  lemma HalfBound(a: nat, bits: nat)
    requires bits > 0 && a < TwoTo(bits)
    ensures a / 2 < TwoTo(bits - 1)
  {
  }

  lemma {:induction false} XorUndone(a: nat, b: nat, bits: nat, x: nat, y: nat)
    requires a < TwoTo(bits) && x == Xor(a, b, bits) && y == Xor(x, b, bits)
    ensures y == a
    decreases bits
  {
    if bits > 0 {
      HalfBound(a, bits);
      XorHalves(a, b, bits, x);
      XorHalves(x, b, bits, y);
      XorUndone(a / 2, b / 2, bits - 1, x / 2, y / 2);
      BitUndone(a, b, x);
      FromHalves(y, a);
    }
  }

  lemma {:induction false} XorCommutes(a: nat, b: nat, bits: nat)
    ensures Xor(a, b, bits) == Xor(b, a, bits)
  {
    if bits > 0 { XorCommutes(a / 2, b / 2, bits - 1); }
  }

  lemma EightBits()
    ensures TwoTo(8) == 256
  {
    assert TwoTo(4) == 16;
  }

  /** One round on a 64-bit state: the byte into the low bits, then a wrapping multiplication. */
  function Mixed(hash: nat, b: byte): nat { hash - hash % 256 + Xor(hash % 256, b as nat, 8) }

  function Round(hash: nat, b: byte): (r: nat)
    ensures r < MODULUS
  {
    Mixed(hash, b) * PRIME % MODULUS
  }

  function HashFrom(hash: nat, body: seq<byte>): (r: nat)
    ensures hash < MODULUS ==> r < MODULUS
    decreases |body|
  {
    if body == [] then hash else HashFrom(Round(hash, body[0]), body[1..])
  }

  function Hash(body: seq<byte>): (r: nat)
    ensures r < MODULUS
  {
    HashFrom(OFFSET_BASIS, body)
  }

  /** The multiplier is odd, so it has an inverse modulo 2^64. */
  const INVERSE: nat := 0xB46DD957AFF6957B
  const QUOTIENT: nat := 0xB46DD957C32

  lemma TimesPrimeInjective(a: nat, b: nat)
    requires a < MODULUS && b < MODULUS
    requires a * PRIME % MODULUS == b * PRIME % MODULUS
    ensures a == b
  {
    var p, q := a * PRIME / MODULUS, b * PRIME / MODULUS;
    assert PRIME * INVERSE == QUOTIENT * MODULUS + 1;
    assert (a - b) * PRIME == (p - q) * MODULUS;
    assert a - b == MODULUS * ((p - q) * INVERSE - QUOTIENT * (a - b));
  }

  lemma LowByte(h: nat, low: nat)
    requires low < 256
    ensures (h - h % 256 + low) / 256 == h / 256 && (h - h % 256 + low) % 256 == low
    ensures h < MODULUS ==> h - h % 256 + low < MODULUS
  {
  }

  lemma MixedParts(h: nat, x: byte)
    ensures Mixed(h, x) / 256 == h / 256 && Mixed(h, x) % 256 == Xor(h % 256, x as nat, 8)
    ensures h < MODULUS ==> Mixed(h, x) < MODULUS
  {
    EightBits();
    LowByte(h, Xor(h % 256, x as nat, 8));
  }

  lemma MixedInjective(h: nat, k: nat, x: byte, y: byte)
    requires Mixed(h, x) == Mixed(k, y)
    ensures h == k ==> x == y
    ensures x == y ==> h == k
  {
    MixedParts(h, x);
    MixedParts(k, y);
    EightBits();
    var a, b, u, v := h % 256, k % 256, x as nat, y as nat;
    XorCommutes(a, u, 8);
    XorCommutes(b, v, 8);
    if h == k { SameXor(u, v, a); }
    if x == y { SameXor(a, b, u); }
  }

  /** Exclusive or with one byte is injective. */
  lemma SameXor(a: nat, b: nat, c: nat)
    requires a < 256 && b < 256 && Xor(a, c, 8) == Xor(b, c, 8)
    ensures a == b
  {
    EightBits();
    var x := Xor(a, c, 8);
    XorUndone(a, c, 8, x, Xor(x, c, 8));
    XorUndone(b, c, 8, x, Xor(x, c, 8));
  }

  /** A round is a bijection of the state for each byte, and different bytes never meet. */
  lemma RoundInjective(h: nat, k: nat, x: byte, y: byte)
    requires h < MODULUS && k < MODULUS && Round(h, x) == Round(k, y)
    ensures h == k ==> x == y
    ensures x == y ==> h == k
  {
    MixedParts(h, x);
    MixedParts(k, y);
    TimesPrimeInjective(Mixed(h, x), Mixed(k, y));
    MixedInjective(h, k, x, y);
  }

  lemma {:induction false} HashFromInjective(h: nat, k: nat, body: seq<byte>)
    requires h < MODULUS && k < MODULUS && HashFrom(h, body) == HashFrom(k, body)
    ensures h == k
    decreases |body|
  {
    if body != [] {
      HashFromInjective(Round(h, body[0]), Round(k, body[0]), body[1..]);
      RoundInjective(h, k, body[0], body[0]);
    }
  }

  /** Changing one byte always changes the hash. */
  lemma {:induction false} OneByteChangesHash(hash: nat, body: seq<byte>, i: nat, b: byte)
    requires hash < MODULUS && i < |body| && body[i] != b
    ensures HashFrom(hash, body[i := b]) != HashFrom(hash, body)
    decreases |body|
  {
    var changed := body[i := b];
    if i == 0 {
      assert changed[1..] == body[1..];
      if HashFrom(hash, changed) == HashFrom(hash, body) {
        HashFromInjective(Round(hash, b), Round(hash, body[0]), body[1..]);
        RoundInjective(hash, hash, b, body[0]);
      }
    } else {
      assert changed[1..] == body[1..][i - 1 := b];
      OneByteChangesHash(Round(hash, body[0]), body[1..], i - 1, b);
    }
  }

  lemma {:induction false} HashAppend(hash: nat, body: seq<byte>, b: byte)
    ensures HashFrom(hash, body + [b]) == Round(HashFrom(hash, body), b)
    decreases |body|
  {
    if body == [] {
      assert [b][1..] == [];
    } else {
      assert (body + [b])[1..] == body[1..] + [b];
      HashAppend(Round(hash, body[0]), body[1..], b);
    }
  }

  /** `content_hash`. */
  method ContentHash(body: seq<byte>) returns (hash: nat)
    ensures hash == Hash(body)
  {
    hash := OFFSET_BASIS;
    assert body[..|body|] == body;
    for i := 0 to |body|
      invariant hash == HashFrom(OFFSET_BASIS, body[..i])
    {
      assert body[..i + 1] == body[..i] + [body[i]];
      HashAppend(OFFSET_BASIS, body[..i], body[i]);
      hash := Mixed(hash, body[i]);
      hash := hash * PRIME % MODULUS;
    }
  }

  // --- little-endian numbers ---

  function Little(n: nat, width: nat): (r: seq<byte>)
    ensures |r| == width
  {
    if width == 0 then [] else [(n % 256) as byte] + Little(n / 256, width - 1)
  }

  function FromLittle(bytes: seq<byte>): nat {
    if bytes == [] then 0 else bytes[0] as nat + 256 * FromLittle(bytes[1..])
  }

  function ByteTo(n: nat): nat { if n == 0 then 1 else 256 * ByteTo(n - 1) }

  lemma {:induction false} LittleRoundTrip(n: nat, width: nat)
    requires n < ByteTo(width)
    ensures FromLittle(Little(n, width)) == n
  {
    if width > 0 { LittleRoundTrip(n / 256, width - 1); }
  }

  lemma {:induction false} FromLittleInjective(a: seq<byte>, b: seq<byte>)
    requires |a| == |b| && FromLittle(a) == FromLittle(b)
    ensures a == b
  {
    if a != [] {
      assert a[0] as nat == FromLittle(a) % 256 && b[0] as nat == FromLittle(b) % 256;
      FromLittleInjective(a[1..], b[1..]);
      assert a == [a[0]] + a[1..] && b == [b[0]] + b[1..];
    }
  }

  // --- the file ---

  const MAGIC: seq<byte> := [0x54, 0x43, 0x41, 0x54]
  const FORMAT_VERSION: nat := 3
  const HEADER_LEN: nat := 16

  datatype Corrupted = Corrupted

  /** The wire mirror of a snapshot and its serializer, which may refuse to write. */
  datatype Codec<!S, !W> = Codec(toWire: S -> W, fromWire: W -> S, write: W -> Option<seq<byte>>, read: seq<byte> -> Option<W>)

  /** What `encode_catalog` and `decode_catalog` rely on: nothing is lost in the mirror or the serializer. */
  ghost predicate Faithful<S(!new), W(!new)>(c: Codec<S, W>) {
    && (forall s :: c.fromWire(c.toWire(s)) == s)
    && (forall w :: c.write(w).Some? ==> c.read(c.write(w).value) == Some(w))
  }

  function File(body: seq<byte>): seq<byte> {
    MAGIC + Little(FORMAT_VERSION, 2) + Little(0, 2) + Little(Hash(body), 8) + body
  }

  /** `encode_catalog`: header fields one after the other, then the body. */
  method EncodeCatalog<S(!new), W(!new)>(c: Codec<S, W>, s: S) returns (r: Result<seq<byte>, Corrupted>)
    ensures r == Encoded(c, s)
    ensures Faithful(c) && r.Ok? ==> Decode(c, r.value) == Some(s)
  {
    var body := c.write(c.toWire(s));
    if body.None? { return Err(Corrupted); }
    var hash := ContentHash(body.value);
    var out := MAGIC;
    out := out + Little(FORMAT_VERSION, 2);
    out := out + Little(0, 2);
    out := out + Little(hash, 8);
    out := out + body.value;
    if Faithful(c) { RoundTrip(c, s); }
    return Ok(out);
  }

  function Encoded<S, W>(c: Codec<S, W>, s: S): Result<seq<byte>, Corrupted> {
    match c.write(c.toWire(s))
    case None => Err(Corrupted)
    case Some(body) => Ok(File(body))
  }

  /** `decode_catalog`: `None` means the file is discarded. */
  function Decode<S, W>(c: Codec<S, W>, bytes: seq<byte>): Option<S> {
    if |bytes| < HEADER_LEN || bytes[..4] != MAGIC then None
    else if FromLittle(bytes[4..6]) != FORMAT_VERSION then None
    else if Hash(bytes[HEADER_LEN..]) != FromLittle(bytes[8..16]) then None
    else
      match c.read(bytes[HEADER_LEN..])
      case None => None
      case Some(w) => Some(c.fromWire(w))
  }

  lemma Widths()
    ensures ByteTo(2) == 0x1_0000 && ByteTo(8) == MODULUS
  {
    assert ByteTo(2) == 0x1_0000;
    assert ByteTo(4) == 0x1_0000_0000;
    assert ByteTo(6) == 0x1_0000_0000_0000;
  }

  /** Where everything is in a file. */
  lemma Layout(body: seq<byte>)
    ensures
      var f := File(body);
      && |f| == HEADER_LEN + |body| && f[..4] == MAGIC && f[4..6] == Little(FORMAT_VERSION, 2)
      && f[8..16] == Little(Hash(body), 8) && f[HEADER_LEN..] == body
    ensures FromLittle(Little(FORMAT_VERSION, 2)) == FORMAT_VERSION
    ensures FromLittle(Little(Hash(body), 8)) == Hash(body)
  {
    Widths();
    LittleRoundTrip(FORMAT_VERSION, 2);
    LittleRoundTrip(Hash(body), 8);
  }

  /** Decoding what was encoded gives the snapshot back. */
  lemma RoundTrip<S(!new), W(!new)>(c: Codec<S, W>, s: S)
    requires Faithful(c) && Encoded(c, s).Ok?
    ensures Decode(c, Encoded(c, s).value) == Some(s)
  {
    Layout(c.write(c.toWire(s)).value);
  }

  lemma SliceChange(f: seq<byte>, i: nat, b: byte, from: nat, to: nat)
    requires i < |f| && from <= to <= |f|
    ensures f[i := b][from..to] == if from <= i < to then f[from..to][i - from := b] else f[from..to]
  {
  }

  /** Of all changes of a single byte in a file, exactly those of the two reserved flag bytes go unnoticed. */
  lemma OneByteDiscards<S(!new), W(!new)>(c: Codec<S, W>, s: S, i: nat, b: byte)
    requires Faithful(c) && Encoded(c, s).Ok? && i < |Encoded(c, s).value| && Encoded(c, s).value[i] != b
    ensures
      var changed := Encoded(c, s).value[i := b];
      Decode(c, changed) == if i == 6 || i == 7 then Some(s) else None
  {
    var body := c.write(c.toWire(s)).value;
    var f := File(body);
    var changed := f[i := b];
    Layout(body);
    SliceChange(f, i, b, 0, 4);
    SliceChange(f, i, b, 4, 6);
    SliceChange(f, i, b, 8, 16);
    SliceChange(f, i, b, HEADER_LEN, |f|);
    if i < 4 {
      assert changed[..4][i] != MAGIC[i];
    } else if i < 6 {
      assert changed[4..6][i - 4] != f[4..6][i - 4];
      DifferentNumbers(changed[4..6], f[4..6]);
    } else if i < 8 {
    } else if i < 16 {
      assert changed[8..16][i - 8] != f[8..16][i - 8];
      DifferentNumbers(changed[8..16], f[8..16]);
    } else {
      OneByteChangesHash(OFFSET_BASIS, body, i - 16, b);
    }
  }

  lemma DifferentNumbers(a: seq<byte>, b: seq<byte>)
    requires |a| == |b| && a != b
    ensures FromLittle(a) != FromLittle(b)
  {
    if FromLittle(a) == FromLittle(b) { FromLittleInjective(a, b); }
  }

  // --- the numbers and the layout, byte by byte ---

  lemma DivTwice(x: nat, m: nat)
    requires m > 0
    ensures x / (2 * m) == x / 2 / m
  {
    var q, r := x / 2 / m, x / 2 % m;
    assert x / 2 == q * m + r && x == 2 * (x / 2) + x % 2;
    assert x == q * (2 * m) + (2 * r + x % 2) && 2 * r + x % 2 < 2 * m;
    QuotientIs(x, 2 * m, q, 2 * r + x % 2);
  }

  lemma QuotientIs(x: nat, m: nat, q: nat, r: nat)
    requires m > 0 && x == q * m + r && r < m
    ensures x / m == q
  {
    var d := q - x / m;
    assert d * m == q * m - x / m * m;
    assert d * m == x % m - r;
    MultipleOf(d, m);
  }

  lemma MultipleOf(d: int, m: int)
    requires m > 0 && 0 - m < d * m < m
    ensures d == 0
  {
    assert d > 0 ==> (d - 1) * m >= 0;
    assert d < 0 ==> (0 - d - 1) * m >= 0;
  }

  /** Bit `i` of the exclusive or is set exactly when one of the two bits is. */
  lemma {:induction false} XorBit(a: nat, b: nat, bits: nat, i: nat)
    requires i < bits
    ensures TwoTo(i) > 0
    ensures Xor(a, b, bits) / TwoTo(i) % 2 == (a / TwoTo(i) + b / TwoTo(i)) % 2
    decreases bits
  {
    if i > 0 {
      XorBit(a / 2, b / 2, bits - 1, i - 1);
      XorHalves(a, b, bits, Xor(a, b, bits));
      DivTwice(Xor(a, b, bits), TwoTo(i - 1));
      DivTwice(a, TwoTo(i - 1));
      DivTwice(b, TwoTo(i - 1));
    }
  }

  /** Byte `k` of a little-endian number. */
  lemma {:induction false} LittleByte(n: nat, width: nat, k: nat)
    requires k < width
    ensures ByteTo(k) > 0
    ensures Little(n, width)[k] as nat == n / ByteTo(k) % 256
  {
    if k > 0 {
      LittleByte(n / 256, width - 1, k - 1);
      DivByte(n, ByteTo(k - 1));
    }
  }

  lemma DivByte(x: nat, m: nat)
    requires m > 0
    ensures x / (256 * m) == x / 256 / m
  {
    var q, r := x / 256 / m, x / 256 % m;
    assert x / 256 == q * m + r && x == 256 * (x / 256) + x % 256;
    assert x == q * (256 * m) + (256 * r + x % 256) && 256 * r + x % 256 < 256 * m;
    QuotientIs(x, 256 * m, q, 256 * r + x % 256);
  }

  /** The letters TCAT, version 3, two zero bytes, the hash from its low byte up, and the body. */
  lemma Header(body: seq<byte>, k: nat)
    requires k < 8
    ensures |File(body)| == 16 + |body| && File(body)[..8] == [0x54, 0x43, 0x41, 0x54, 3, 0, 0, 0] && File(body)[16..] == body
    ensures ByteTo(k) > 0 && File(body)[8 + k] as nat == Hash(body) / ByteTo(k) % 256
  {
    LittleByte(Hash(body), 8, k);
    assert Little(3, 2) == [3, 0] && Little(0, 2) == [0, 0];
  }

  lemma Numbers()
    ensures PRIME == 0x1000_0000_01b3 && MODULUS == 0x1_0000_0000_0000_0000 && Hash([]) == 0xcbf2_9ce4_8422_2325
  {
  }

  /** A round works on the low byte bit by bit, and multiplies. */
  lemma RoundSays(hash: nat, b: byte, mixed: nat)
    requires hash < MODULUS && mixed / 256 == hash / 256
    requires forall i: nat :: i < 8 ==> TwoTo(i) > 0 && mixed % 256 / TwoTo(i) % 2 == (hash % 256 / TwoTo(i) + b as nat / TwoTo(i)) % 2
    ensures Round(hash, b) == mixed * PRIME % MODULUS
  {
    MixedParts(hash, b);
    EightBits();
    forall i: nat | i < 8 ensures mixed % 256 / TwoTo(i) % 2 == Mixed(hash, b) % 256 / TwoTo(i) % 2 {
      XorBit(hash % 256, b as nat, 8, i);
    }
    SameBits(mixed % 256, Mixed(hash, b) % 256, 8);
    FromParts(mixed, Mixed(hash, b));
    assert Round(hash, b) == Mixed(hash, b) * PRIME % MODULUS;
  }

  lemma FromParts(x: nat, y: nat)
    requires x / 256 == y / 256 && x % 256 == y % 256
    ensures x == y
  {
  }

  lemma {:induction false} SameBits(x: nat, y: nat, bits: nat)
    requires x < TwoTo(bits) && y < TwoTo(bits)
    requires forall i: nat :: i < bits ==> TwoTo(i) > 0 && x / TwoTo(i) % 2 == y / TwoTo(i) % 2
    ensures x == y
    decreases bits
  {
    if bits > 0 {
      assert TwoTo(0) == 1 && x % 2 == y % 2;
      forall i: nat | i < bits - 1 ensures TwoTo(i) > 0 && x / 2 / TwoTo(i) % 2 == y / 2 / TwoTo(i) % 2 {
        assert TwoTo(i + 1) == 2 * TwoTo(i) > 0;
        DivTwice(x, TwoTo(i));
        DivTwice(y, TwoTo(i));
      }
      HalfBound(x, bits);
      HalfBound(y, bits);
      SameBits(x / 2, y / 2, bits - 1);
      FromHalves(x, y);
    }
  }
}
