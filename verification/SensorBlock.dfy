/** The OCC sensor block: layout, decoder and scans (ibm_power_features.c and .h).

    A block is a sequence of bytes: a 24-byte header, 48-byte name entries, and two areas, ping and
    pong, that hold the same readings at the same offsets.  All words are big-endian and packed.
 */
module SensorBlock {
  import opened Arithmetic

  type byte = x: int | 0 <= x < 256

  const HEADER_SIZE: nat := 24
  const ENTRY_SIZE: nat := 48
  const RECORD_SIZE: nat := 48
  const COUNTER_SIZE: nat := 24

  const OCC_SENSOR_READING_FULL: byte := 1

  // ----- words ---------------------------------------------------------------------------------

  /** be16toh, be32toh and be64toh, for any width. */
  function BigEndian(b: seq<byte>): nat {
    if b == [] then 0 else 256 * BigEndian(b[..|b| - 1]) + b[|b| - 1]
  }

  /** The word of `width` bytes at offset `at`. */
  function Word(buf: seq<byte>, at: nat, width: nat): nat
    requires at + width <= |buf|
  {
    BigEndian(buf[at..at + width])
  }

  // ----- header and name entries ---------------------------------------------------------------

  predicate HasHeader(buf: seq<byte>) {
    |buf| >= HEADER_SIZE
  }

  function NrSensors(buf: seq<byte>): nat
    requires HasHeader(buf)
  {
    Word(buf, 2, 2)
  }

  function NamesOffset(buf: seq<byte>): nat
    requires HasHeader(buf)
  {
    Word(buf, 8, 4)
  }

  function PingOffset(buf: seq<byte>): nat
    requires HasHeader(buf)
  {
    Word(buf, 16, 4)
  }

  function PongOffset(buf: seq<byte>): nat
    requires HasHeader(buf)
  {
    Word(buf, 20, 4)
  }

  function EntryAt(buf: seq<byte>, i: nat): nat
    requires HasHeader(buf)
  {
    NamesOffset(buf) + i * ENTRY_SIZE
  }

  predicate HasEntry(buf: seq<byte>, i: nat) {
    HasHeader(buf) && EntryAt(buf, i) + ENTRY_SIZE <= |buf|
  }

  /** strcmp(md[i].name, name) == 0, for a name shorter than the field. */
  predicate NameIs(buf: seq<byte>, i: nat, name: string)
    requires HasEntry(buf, i) && |name| < 16
  {
    var at := EntryAt(buf, i);
    && (forall k :: 0 <= k < |name| ==> buf[at + k] == name[k] as int)
    && buf[at + |name|] == 0
  }

  function ScaleFactor(buf: seq<byte>, i: nat): nat
    requires HasEntry(buf, i)
  {
    Word(buf, EntryAt(buf, i) + 26, 4)
  }

  function StructureType(buf: seq<byte>, i: nat): byte
    requires HasEntry(buf, i)
  {
    buf[EntryAt(buf, i) + 34]
  }

  function ReadingOffset(buf: seq<byte>, i: nat): nat
    requires HasEntry(buf, i)
  {
    Word(buf, EntryAt(buf, i) + 35, 4)
  }

  // ----- readings ------------------------------------------------------------------------------

  datatype Side = Ping | Pong

  datatype Choice = Chosen(side: Side) | Neither

  datatype Attribute = SENSOR_SAMPLE | SENSOR_ACCUMULATOR | OTHER_ATTRIBUTE

  function AreaAt(buf: seq<byte>, side: Side): nat
    requires HasHeader(buf)
  {
    if side.Ping? then PingOffset(buf) else PongOffset(buf)
  }

  /** A reading of `size` bytes at `offset` lies inside the block on both sides. */
  predicate InBlock(buf: seq<byte>, offset: nat, size: nat) {
    && HasHeader(buf)
    && PingOffset(buf) + offset + size <= |buf|
    && PongOffset(buf) + offset + size <= |buf|
  }

  predicate IsValid(buf: seq<byte>, side: Side)
    requires HasHeader(buf) && AreaAt(buf, side) < |buf|
  {
    buf[AreaAt(buf, side)] != 0
  }

  /** The timestamp is at byte 2 of records and of counters alike. */
  function Timestamp(buf: seq<byte>, side: Side, offset: nat): nat
    requires InBlock(buf, offset, COUNTER_SIZE)
  {
    Word(buf, AreaAt(buf, side) + offset + 2, 8)
  }

  /** The buffer both read functions take a reading from: by valid byte first, then by the timestamp
      of that one reading, ties going to pong. */
  function Select(buf: seq<byte>, offset: nat): Choice
    requires InBlock(buf, offset, COUNTER_SIZE)
  {
    var ping, pong := IsValid(buf, Ping), IsValid(buf, Pong);
    if ping && pong then
      Chosen(if Timestamp(buf, Ping, offset) > Timestamp(buf, Pong, offset) then Ping else Pong)
    else if ping then Chosen(Ping)
    else if pong then Chosen(Pong)
    else Neither
  }

  function ReadCounter(buf: seq<byte>, offset: nat): nat
    requires InBlock(buf, offset, COUNTER_SIZE)
  {
    match Select(buf, offset)
    case Neither => 0
    case Chosen(side) => Word(buf, AreaAt(buf, side) + offset + 10, 8)
  }

  function ReadSensor(buf: seq<byte>, offset: nat, attr: Attribute): nat
    requires InBlock(buf, offset, RECORD_SIZE)
  {
    match Select(buf, offset)
    case Neither => 0
    case Chosen(side) =>
      match attr
      case SENSOR_SAMPLE => Word(buf, AreaAt(buf, side) + offset + 10, 2)
      case SENSOR_ACCUMULATOR => Word(buf, AreaAt(buf, side) + offset + 28, 8)
      case OTHER_ATTRIBUTE => 0
  }

  // ----- scaling -------------------------------------------------------------------------------

  function Pow10(e: nat): (p: nat)
    ensures p > 0
  {
    if e == 0 then 1 else 10 * Pow10(e - 1)
  }

  /** A byte read as int8_t. */
  function Signed(b: byte): int {
    if b < 128 then b else b - 256
  }

  /** TO_FP: a 24-bit mantissa times a signed power of ten. */
  function ToFp(f: nat): real {
    var e := Signed(f % 256);
    if e >= 0 then (f / 256) as real * Pow10(e) as real else (f / 256) as real / Pow10(-e) as real
  }

  /** `(uint64_t)(sample * TO_FP(scale))` over the reals. */
  function Scaled(sample: nat, scale: nat): int {
    (sample as real * ToFp(scale)).Floor
  }

  /** The powers of ten turn sums into products. */
  lemma {:induction false} PowersOfTen(a: nat, b: nat)
    ensures Pow10(0) == 1 && Pow10(1) == 10 && Pow10(a + b) == Pow10(a) * Pow10(b)
  {
    if a > 0 {
      PowersOfTen(a - 1, b);
      assert Pow10(a + b) == 10 * Pow10(a - 1 + b);
    }
  }

  /** The word with mantissa `m` and exponent `e` in two's complement. */
  lemma WordParts(m: nat, e: int)
    requires -128 <= e < 128
    ensures var f := m * 256 + e % 256; f / 256 == m && Signed(f % 256) == e
  {
    assert e % 256 == if e < 0 then e + 256 else e;
  }

  /** For every mantissa and every exponent of 8 bits with its sign, scaling is an integer product with
      the power of ten, or a floor division by it for a negative exponent. */
  lemma ScaledExactly(sample: nat, m: nat, e: int)
    requires -128 <= e < 128
    ensures Scaled(sample, m * 256 + e % 256) == if e >= 0 then sample * m * Pow10(e) else sample * m / Pow10(-e)
  {
    hide *;
    WordParts(m, e);
    ScaledWord(sample, m * 256 + e % 256);
  }

  lemma ScaledWord(sample: nat, scale: nat)
    ensures var m, e := scale / 256, Signed(scale % 256);
            Scaled(sample, scale) == if e >= 0 then sample * m * Pow10(e) else sample * m / Pow10(-e)
  {
    hide *;
    var m, e := scale / 256, Signed(scale % 256);
    ScaledParts(sample, scale);
    if e >= 0 {
      FloorOfProduct(sample, m, Pow10(e));
    } else {
      FloorOfQuotient(sample, m, Pow10(-e));
    }
  }

  lemma ScaledParts(sample: nat, scale: nat)
    ensures var m, e := scale / 256, Signed(scale % 256);
            Scaled(sample, scale)
            == if e >= 0 then (sample as real * (m as real * Pow10(e) as real)).Floor
               else (sample as real * (m as real / Pow10(-e) as real)).Floor
  {
    hide Pow10, Signed;
  }

  lemma FloorOfProduct(s: nat, m: nat, p: nat)
    ensures (s as real * (m as real * p as real)).Floor == s * m * p
  {
    assert s as real * (m as real * p as real) == (s * m * p) as real;
  }

  lemma FloorOfQuotient(s: nat, m: nat, d: nat)
    requires d > 0
    ensures (s as real * (m as real / d as real)).Floor == s * m / d
  {
    var x := s as real * (m as real / d as real);
    assert x * d as real == (s * m) as real;
    var q := s * m / d;
    DivBounds(s * m, d);
    assert (q * d) as real <= x * d as real < (q * d + d) as real;
    assert q as real <= x < (q + 1) as real;
  }

  lemma ToFpNotNegative(f: nat)
    ensures ToFp(f) >= 0.0
  {
    var e := Signed(f % 256);
    NotNegative((f / 256) as real, Pow10(if e >= 0 then e else -e) as real);
  }

  lemma NotNegative(m: real, p: real)
    requires m >= 0.0 && p > 0.0
    ensures m * p >= 0.0 && m / p >= 0.0
  {
  }

  /** A larger sample never scales to fewer units. */
  lemma ScaledMonotone(s: nat, t: nat, scale: nat)
    requires s <= t
    ensures 0 <= Scaled(s, scale) <= Scaled(t, scale)
  {
    ToFpNotNegative(scale);
    hide ToFp;
    MulOrder(s as real, t as real, ToFp(scale));
  }

  lemma MulOrder(a: real, b: real, c: real)
    requires 0.0 <= a <= b && c >= 0.0
    ensures 0.0 <= a * c <= b * c
  {
  }
}
