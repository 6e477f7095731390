/** The writer's side of the sensor block, and the round trip through the decoder.

    The encoder lays a table of sensors out as the structures of ibm_power_features.h describe, with
    arbitrary gaps between the sections.
 */
module SensorEncoding {
  import opened Arithmetic
  import opened SensorBlock
  import opened Options

  // ----- pieces of a byte sequence -------------------------------------------------------------

  /** `piece` stands in `buf` at offset `at`. */
  predicate At(buf: seq<byte>, at: nat, piece: seq<byte>) {
    at + |piece| <= |buf| && buf[at..at + |piece|] == piece
  }

  lemma AtWithin(buf: seq<byte>, at: nat, piece: seq<byte>, inner: nat, part: seq<byte>)
    requires At(buf, at, piece) && At(piece, inner, part)
    ensures At(buf, at + inner, part)
  {
    var s := buf[at..at + |piece|];
    assert s == piece && s[inner..inner + |part|] == part;
    assert forall k :: 0 <= k < |part| ==> part[k] == s[inner + k] == buf[at + inner + k];
  }

  lemma AtMiddle(before: seq<byte>, piece: seq<byte>, after: seq<byte>)
    ensures At(before + piece + after, |before|, piece)
  {
  }

  lemma AtEnd(before: seq<byte>, piece: seq<byte>)
    ensures At(before + piece, |before|, piece)
  {
  }

  function Concat(parts: seq<seq<byte>>): seq<byte> {
    if parts == [] then [] else Concat(parts[..|parts| - 1]) + parts[|parts| - 1]
  }

  /** Where part `i` starts. */
  function Start(parts: seq<seq<byte>>, i: nat): nat
    requires i <= |parts|
  {
    |Concat(parts[..i])|
  }

  lemma {:induction false} PartAt(parts: seq<seq<byte>>, i: nat)
    requires i < |parts|
    ensures At(Concat(parts), Start(parts, i), parts[i])
    ensures Start(parts, i + 1) == Start(parts, i) + |parts[i]| <= |Concat(parts)|
  {
    var n := |parts| - 1;
    assert parts[..i + 1][..i] == parts[..i];
    if i == n {
      assert parts[..i + 1] == parts;
      AtMiddle(Concat(parts[..n]), parts[n], []);
      assert Concat(parts) == Concat(parts[..n]) + parts[n] + [];
    } else {
      PartAt(parts[..n], i);
      assert parts[..n][..i] == parts[..i] && parts[..n][..i + 1] == parts[..i + 1];
      AtMiddle([], Concat(parts[..n]), parts[n]);
      assert Concat(parts) == [] + Concat(parts[..n]) + parts[n];
      AtWithin(Concat(parts), 0, Concat(parts[..n]), Start(parts, i), parts[i]);
    }
  }

  // ----- words ---------------------------------------------------------------------------------

  function Pow256(w: nat): nat {
    if w == 0 then 1 else 256 * Pow256(w - 1)
  }

  function ToBigEndian(v: nat, width: nat): (b: seq<byte>)
    ensures |b| == width
  {
    if width == 0 then [] else ToBigEndian(v / 256, width - 1) + [v % 256]
  }

  lemma {:induction false} WordRoundTrip(v: nat, width: nat)
    requires v < Pow256(width)
    ensures BigEndian(ToBigEndian(v, width)) == v
  {
    if width > 0 {
      WordRoundTrip(v / 256, width - 1);
      var b := ToBigEndian(v, width);
      assert b[..|b| - 1] == ToBigEndian(v / 256, width - 1);
    }
  }

  /** The last bytes of a word are those of the same number in fewer bytes, which keep it modulo their
      range; the first bytes are those of its quotient. */
  lemma {:induction false} LastBytes(v: nat, width: nat, k: nat)
    requires k <= width
    ensures ToBigEndian(v, width)[width - k..] == ToBigEndian(v, k)
  {
    if k > 0 {
      LastBytes(v / 256, width - 1, k - 1);
      var b := ToBigEndian(v / 256, width - 1);
      assert ToBigEndian(v, width) == b + [v % 256];
      assert (b + [v % 256])[width - k..] == b[width - k..] + [v % 256];
    }
  }

  lemma {:induction false} FirstBytes(v: nat, width: nat, k: nat)
    requires k <= width
    ensures Pow256(width - k) > 0
    ensures ToBigEndian(v, width)[..k] == ToBigEndian(v / Pow256(width - k), k)
    decreases width
  {
    if k == width {
      assert ToBigEndian(v, width)[..k] == ToBigEndian(v, width);
    } else {
      FirstBytes(v / 256, width - 1, k);
      var b := ToBigEndian(v / 256, width - 1);
      assert (b + [v % 256])[..k] == b[..k];
      DivDiv(v, 256, Pow256(width - 1 - k));
    }
  }

  lemma DivDiv(v: nat, a: nat, b: nat)
    requires a > 0 && b > 0
    ensures a * b > 0 && (v / a) / b == v / (a * b)
  {
    MulMono(1, a, b);
    DivBounds(v, a);
    DivBounds(v / a, b);
    DivDivBounds(v, a, b, v / a, v / a / b);
    DivUnique(v, a * b, v / a / b);
  }

  lemma DivDivBounds(v: nat, a: nat, b: nat, q: nat, r: nat)
    requires a > 0 && b > 0 && q * a <= v < q * a + a && r * b <= q < r * b + b
    ensures r * (a * b) <= v < r * (a * b) + a * b
  {
    MulAssoc(r, a, b);
    MulMono(r * b, q, a);
    MulMono(q + 1, r * b + b, a);
    AddTimes(q, 1, a);
    AddTimes(r * b, b, a);
  }

  lemma {:induction false} WordModulo(v: nat, width: nat)
    ensures Pow256(width) > 0 && BigEndian(ToBigEndian(v, width)) == v % Pow256(width)
  {
    if width > 0 {
      WordModulo(v / 256, width - 1);
      var b := ToBigEndian(v, width);
      assert b[..|b| - 1] == ToBigEndian(v / 256, width - 1);
      ModStep(v, Pow256(width - 1));
    }
  }

  lemma ModStep(v: nat, p: nat)
    requires p > 0
    ensures 256 * (v / 256 % p) + v % 256 == v % (256 * p)
  {
    var q := v / 256;
    var c, r := q / p, q % p;
    DivBounds(q, p);
    MulAssoc(c, 256, p);
    assert v == c * (256 * p) + (256 * r + v % 256);
    DivModUnique(v, 256 * p, c, 256 * r + v % 256);
  }

  lemma {:induction false} BigEndianJoins(a: seq<byte>, b: seq<byte>)
    ensures BigEndian(a + b) == BigEndian(a) * Pow256(|b|) + BigEndian(b)
    decreases |b|
  {
    if b == [] {
      assert a + b == a;
    } else {
      var c := b[..|b| - 1];
      assert (a + b)[..|a + b| - 1] == a + c;
      BigEndianJoins(a, c);
      MulAssoc(BigEndian(a), 256, Pow256(|c|));
    }
  }

  lemma WordAt(buf: seq<byte>, at: nat, v: nat, width: nat)
    requires At(buf, at, ToBigEndian(v, width)) && v < Pow256(width)
    ensures Word(buf, at, width) == v
  {
    WordRoundTrip(v, width);
  }

  // ----- the table -----------------------------------------------------------------------------

  /** One reading.  `bounds`, `rest` and `pad` are the fields the decoder does not look at. */
  datatype Reading =
    | Record(gsid: nat, timestamp: nat, sample: nat, bounds: seq<byte>, accumulator: nat, rest: seq<byte>)
    | Counter(gsid: nat, timestamp: nat, accumulator: nat, last: byte, pad: seq<byte>)

  /** A sensor: its name entry and its readings on the two sides. */
  datatype Sensor = Sensor(
    name: string, units: seq<byte>, gsid: nat, freq: nat, scale: nat, kind: nat, location: nat,
    data: byte, pad: seq<byte>, ping: Reading, pong: Reading)

  datatype Block = Block(
    sensors: seq<Sensor>, pingFlag: byte, pongFlag: byte, lead: seq<byte>,
    fixed: seq<byte>, gapNames: seq<byte>, gapPing: seq<byte>, gapPong: seq<byte>, tail: seq<byte>)

  predicate ReadingOk(r: Reading) {
    && r.gsid < Pow256(2) && r.timestamp < Pow256(8) && r.accumulator < Pow256(8)
    && match r
       case Record(_, _, sample, bounds, _, rest) => sample < Pow256(2) && |bounds| == 16 && |rest| == 12
       case Counter(_, _, _, _, pad) => |pad| == 5
  }

  predicate SensorOk(s: Sensor) {
    && |s.name| < 16 && (forall k :: 0 <= k < |s.name| ==> 0 < s.name[k] as int < 256)
    && |s.units| == 4 && |s.pad| == 8
    && s.gsid < Pow256(2) && s.freq < Pow256(4) && s.scale < Pow256(4)
    && s.kind < Pow256(2) && s.location < Pow256(2)
    && ReadingOk(s.ping) && ReadingOk(s.pong) && s.ping.Record? == s.pong.Record?
  }

  function EncodeReading(r: Reading): seq<byte> {
    match r
    case Record(gsid, timestamp, sample, bounds, accumulator, rest) =>
      ToBigEndian(gsid, 2) + ToBigEndian(timestamp, 8) + ToBigEndian(sample, 2) + bounds
      + ToBigEndian(accumulator, 8) + rest
    case Counter(gsid, timestamp, accumulator, last, pad) =>
      ToBigEndian(gsid, 2) + ToBigEndian(timestamp, 8) + ToBigEndian(accumulator, 8) + [last] + pad
  }

  function ReadingOn(s: Sensor, side: Side): Reading {
    if side.Ping? then s.ping else s.pong
  }

  /** The readings of one side, in table order. */
  function Readings(sensors: seq<Sensor>, side: Side): seq<seq<byte>> {
    seq(|sensors|, i requires 0 <= i < |sensors| => EncodeReading(ReadingOn(sensors[i], side)))
  }

  function Area(b: Block, side: Side): seq<byte> {
    [if side.Ping? then b.pingFlag else b.pongFlag] + b.lead + Concat(Readings(b.sensors, side))
  }

  /** Offset of a sensor's reading in either area. */
  function OffsetOf(b: Block, i: nat): nat
    requires i <= |b.sensors|
  {
    1 + |b.lead| + Start(Readings(b.sensors, Ping), i)
  }

  /** A char of the name as a byte, or the NULs after it. */
  function NameField(name: string): seq<byte>
    requires |name| < 16 && forall k :: 0 <= k < |name| ==> 0 < name[k] as int < 256
  {
    seq(16, k requires 0 <= k < 16 => if k < |name| then name[k] as int else 0)
  }

  function EncodeEntry(s: Sensor, offset: nat): seq<byte>
    requires SensorOk(s)
  {
    NameField(s.name) + s.units + ToBigEndian(s.gsid, 2) + ToBigEndian(s.freq, 4)
    + ToBigEndian(s.scale, 4) + ToBigEndian(s.kind, 2) + ToBigEndian(s.location, 2)
    + [if s.ping.Record? then 1 else 2] + ToBigEndian(offset, 4) + [s.data] + s.pad
  }

  predicate SensorsOk(b: Block) {
    forall i :: 0 <= i < |b.sensors| ==> SensorOk(b.sensors[i])
  }

  function EncodedEntry(b: Block, i: nat): seq<byte>
    requires SensorsOk(b) && i < |b.sensors|
  {
    EncodeEntry(b.sensors[i], OffsetOf(b, i))
  }

  function Entries(b: Block): seq<seq<byte>>
    requires SensorsOk(b)
  {
    seq(|b.sensors|, i requires 0 <= i < |b.sensors| => EncodedEntry(b, i))
  }

  /** The header; `fixed` holds the bytes the decoder does not look at. */
  function Header(b: Block, names: nat, ping: nat, pong: nat): seq<byte>
    requires |b.fixed| == 10
  {
    b.fixed[..2] + ToBigEndian(|b.sensors|, 2) + b.fixed[2..6] + ToBigEndian(names, 4)
    + b.fixed[6..10] + ToBigEndian(ping, 4) + ToBigEndian(pong, 4)
  }

  function NamesStart(b: Block): nat {
    HEADER_SIZE + |b.gapNames|
  }

  function AreaStart(b: Block, side: Side): nat
    requires SensorsOk(b)
  {
    var ping := NamesStart(b) + |Concat(Entries(b))| + |b.gapPing|;
    if side.Ping? then ping else ping + |Area(b, Ping)| + |b.gapPong|
  }

  function Encode(b: Block): seq<byte>
    requires SensorsOk(b) && |b.fixed| == 10
  {
    Header(b, NamesStart(b), AreaStart(b, Ping), AreaStart(b, Pong)) + b.gapNames + Concat(Entries(b))
    + b.gapPing + Area(b, Ping) + b.gapPong + Area(b, Pong) + b.tail
  }

  /** Every field fits its width. */
  predicate BlockOk(b: Block) {
    && SensorsOk(b) && |b.fixed| == 10
    && |b.sensors| < Pow256(2)
    && NamesStart(b) < Pow256(4) && AreaStart(b, Ping) < Pow256(4) && AreaStart(b, Pong) < Pow256(4)
    && OffsetOf(b, |b.sensors|) <= Pow256(4)
  }

  // ----- where things are ----------------------------------------------------------------------

  lemma HeaderFields(b: Block, names: nat, ping: nat, pong: nat)
    requires |b.fixed| == 10
    ensures var h := Header(b, names, ping, pong);
            && |h| == HEADER_SIZE
            && At(h, 2, ToBigEndian(|b.sensors|, 2)) && At(h, 8, ToBigEndian(names, 4))
            && At(h, 16, ToBigEndian(ping, 4)) && At(h, 20, ToBigEndian(pong, 4))
  {
  }

  lemma RecordFields(r: Reading)
    requires ReadingOk(r) && r.Record?
    ensures var e := EncodeReading(r);
            && |e| == RECORD_SIZE
            && At(e, 2, ToBigEndian(r.timestamp, 8)) && At(e, 10, ToBigEndian(r.sample, 2))
            && At(e, 28, ToBigEndian(r.accumulator, 8))
  {
  }

  lemma CounterFields(r: Reading)
    requires ReadingOk(r) && r.Counter?
    ensures var e := EncodeReading(r);
            && |e| == COUNTER_SIZE
            && At(e, 2, ToBigEndian(r.timestamp, 8)) && At(e, 10, ToBigEndian(r.accumulator, 8))
  {
  }

  lemma EntryFields(s: Sensor, offset: nat)
    requires SensorOk(s)
    ensures var e := EncodeEntry(s, offset);
            && |e| == ENTRY_SIZE
            && At(e, 0, NameField(s.name)) && At(e, 26, ToBigEndian(s.scale, 4))
            && At(e, 34, [if s.ping.Record? then 1 else 2]) && At(e, 35, ToBigEndian(offset, 4))
  {
  }

  lemma Sections(b: Block)
    requires SensorsOk(b) && |b.fixed| == 10
    ensures var e := Encode(b);
            && At(e, 0, Header(b, NamesStart(b), AreaStart(b, Ping), AreaStart(b, Pong)))
            && At(e, NamesStart(b), Concat(Entries(b)))
            && At(e, AreaStart(b, Ping), Area(b, Ping))
            && At(e, AreaStart(b, Pong), Area(b, Pong))
  {
    hide Header, Concat, Area, Entries, SensorOk, At;
    var h := Header(b, NamesStart(b), AreaStart(b, Ping), AreaStart(b, Pong));
    HeaderFields(b, NamesStart(b), AreaStart(b, Ping), AreaStart(b, Pong));
    InOrder(h, b.gapNames, Concat(Entries(b)), b.gapPing, Area(b, Ping), b.gapPong, Area(b, Pong), b.tail);
  }

  lemma InOrder(h: seq<byte>, g0: seq<byte>, n: seq<byte>, g1: seq<byte>, p: seq<byte>, g2: seq<byte>,
                q: seq<byte>, t: seq<byte>)
    ensures var e := h + g0 + n + g1 + p + g2 + q + t;
            && At(e, 0, h)
            && At(e, |h| + |g0|, n)
            && At(e, |h| + |g0| + |n| + |g1|, p)
            && At(e, |h| + |g0| + |n| + |g1| + |p| + |g2|, q)
  {
  }

  // ----- the decoder finds them ----------------------------------------------------------------

  lemma HeaderDecoded(b: Block)
    requires BlockOk(b)
    ensures var e := Encode(b);
            && HasHeader(e) && NrSensors(e) == |b.sensors| && NamesOffset(e) == NamesStart(b)
            && PingOffset(e) == AreaStart(b, Ping) && PongOffset(e) == AreaStart(b, Pong)
  {
    hide Encode, Header, Word, SensorsOk, Concat, Area;
    var e := Encode(b);
    var names, ping, pong := NamesStart(b), AreaStart(b, Ping), AreaStart(b, Pong);
    var h := Header(b, names, ping, pong);
    Sections(b);
    HeaderFields(b, names, ping, pong);
    AtWithin(e, 0, h, 2, ToBigEndian(|b.sensors|, 2));
    WordAt(e, 2, |b.sensors|, 2);
    AtWithin(e, 0, h, 8, ToBigEndian(names, 4));
    WordAt(e, 8, names, 4);
    AtWithin(e, 0, h, 16, ToBigEndian(ping, 4));
    WordAt(e, 16, ping, 4);
    AtWithin(e, 0, h, 20, ToBigEndian(pong, 4));
    WordAt(e, 20, pong, 4);
  }

  /** Equal pieces of equal length take equal room. */
  lemma {:induction false} EvenStart(parts: seq<seq<byte>>, i: nat, size: nat)
    requires i <= |parts| && forall k :: 0 <= k < |parts| ==> |parts[k]| == size
    ensures Start(parts, i) == i * size
  {
    if i > 0 {
      EvenStart(parts, i - 1, size);
      PartAt(parts, i - 1);
      AddTimes(i - 1, 1, size);
    }
  }

  lemma EntryPlaced(b: Block, i: nat)
    requires BlockOk(b) && i < |b.sensors|
    ensures HasEntry(Encode(b), i)
    ensures At(Encode(b), EntryAt(Encode(b), i), EncodedEntry(b, i))
  {
    EntriesEven(b, i);
    hide EncodedEntry, Encode, Area, Concat, Entries, OffsetOf, AreaStart, Header, NamesStart, At, SensorOk, NamesOffset;
    HeaderDecoded(b);
    Sections(b);
    EntryWithin(Encode(b), Concat(Entries(b)), i, EncodedEntry(b, i));
  }

  lemma EntryWithin(buf: seq<byte>, entries: seq<byte>, i: nat, entry: seq<byte>)
    requires HasHeader(buf) && At(buf, NamesOffset(buf), entries)
    requires At(entries, i * ENTRY_SIZE, entry) && |entry| == ENTRY_SIZE
    ensures HasEntry(buf, i) && At(buf, EntryAt(buf, i), entry)
  {
    AtWithin(buf, NamesOffset(buf), entries, i * ENTRY_SIZE, entry);
  }

  lemma EntriesEven(b: Block, i: nat)
    requires SensorsOk(b) && i < |b.sensors|
    ensures At(Concat(Entries(b)), i * ENTRY_SIZE, EncodedEntry(b, i))
    ensures |EncodedEntry(b, i)| == ENTRY_SIZE
  {
    hide EncodeEntry, OffsetOf, Concat, At;
    forall k | 0 <= k < |b.sensors|
      ensures |Entries(b)[k]| == ENTRY_SIZE
    {
      EntryFields(b.sensors[k], OffsetOf(b, k));
    }
    EvenStart(Entries(b), i, ENTRY_SIZE);
    PartAt(Entries(b), i);
  }

  /** Two sides lay their readings out alike. */
  lemma {:induction false} SameStart(sensors: seq<Sensor>, i: nat)
    requires i <= |sensors| && forall k :: 0 <= k < |sensors| ==> SensorOk(sensors[k])
    ensures Start(Readings(sensors, Ping), i) == Start(Readings(sensors, Pong), i)
  {
    if i > 0 {
      SameStart(sensors, i - 1);
      PartAt(Readings(sensors, Ping), i - 1);
      PartAt(Readings(sensors, Pong), i - 1);
      ReadingSize(sensors[i - 1].ping);
      ReadingSize(sensors[i - 1].pong);
    }
  }

  lemma ReadingSize(r: Reading)
    requires ReadingOk(r)
    ensures |EncodeReading(r)| == if r.Record? then RECORD_SIZE else COUNTER_SIZE
  {
    if r.Record? { RecordFields(r); } else { CounterFields(r); }
  }

  lemma ReadingPlaced(b: Block, i: nat, side: Side)
    requires BlockOk(b) && i < |b.sensors|
    ensures At(Area(b, side), OffsetOf(b, i), EncodeReading(ReadingOn(b.sensors[i], side)))
  {
    hide EncodeReading, Concat, At, SensorOk;
    var r := Readings(b.sensors, side);
    SameStart(b.sensors, i);
    PartAt(r, i);
    AtEnd([if side.Ping? then b.pingFlag else b.pongFlag] + b.lead, Concat(r));
    AtWithin(Area(b, side), 1 + |b.lead|, Concat(r), Start(r, i), r[i]);
  }


  /** A C string without NUL inside, short enough for the name field. */
  predicate CString(name: string) {
    |name| < 16 && forall k :: 0 <= k < |name| ==> name[k] as int > 0
  }

  lemma NameMatches(buf: seq<byte>, i: nat, name: string, literal: string)
    requires HasEntry(buf, i) && CString(literal)
    requires |name| < 16 && forall k :: 0 <= k < |name| ==> 0 < name[k] as int < 256
    requires At(buf, EntryAt(buf, i), NameField(name))
    ensures NameIs(buf, i, literal) <==> name == literal
  {
    var at := EntryAt(buf, i);
    assert forall k :: 0 <= k < 16 ==> buf[at + k] == buf[at..at + 16][k] == NameField(name)[k];
    if NameIs(buf, i, literal) {
      assert forall k :: 0 <= k < |literal| ==> NameField(name)[k] == literal[k] as int;
      SameString(name, literal);
    }
  }

  lemma SameString(name: string, literal: string)
    requires CString(name) && CString(literal) && forall k :: 0 <= k < |name| ==> name[k] as int < 256
    requires forall k :: 0 <= k < |literal| ==> NameField(name)[k] == literal[k] as int
    requires NameField(name)[|literal|] == 0
    ensures name == literal
  {
    assert NameField(name)[|name|] == 0;
  }

  /** The offset of a sensor is stored exactly. */
  lemma OffsetFits(b: Block, i: nat)
    requires BlockOk(b) && i < |b.sensors|
    ensures OffsetOf(b, i) < Pow256(4)
  {
    var r := Readings(b.sensors, Ping);
    PartAt(r, i);
    ReadingSize(b.sensors[i].ping);
    assert r[..|r|] == r;
  }

  /** Every name entry is decoded to what was encoded; a name comparison succeeds for that name only. */
  lemma EntryDecoded(b: Block, i: nat, literal: string)
    requires BlockOk(b) && i < |b.sensors| && CString(literal)
    ensures var e := Encode(b);
            && HasEntry(e, i)
            && (NameIs(e, i, literal) <==> b.sensors[i].name == literal)
            && ScaleFactor(e, i) == b.sensors[i].scale
            && (StructureType(e, i) == OCC_SENSOR_READING_FULL <==> b.sensors[i].ping.Record?)
            && ReadingOffset(e, i) == OffsetOf(b, i)
  {
    var e, s, offset := Encode(b), b.sensors[i], OffsetOf(b, i);
    EntryPlaced(b, i);
    OffsetFits(b, i);
    assert SensorOk(s);
    hide Encode, OffsetOf, Word, EntryAt, HasHeader;
    EntryFieldsDecoded(e, i, s, offset);
    NameMatches(e, i, s.name, literal);
  }

  lemma EntryFieldsDecoded(e: seq<byte>, i: nat, s: Sensor, offset: nat)
    requires SensorOk(s) && offset < Pow256(4)
    requires HasEntry(e, i) && At(e, EntryAt(e, i), EncodeEntry(s, offset))
    ensures At(e, EntryAt(e, i), NameField(s.name))
    ensures ScaleFactor(e, i) == s.scale
    ensures StructureType(e, i) == OCC_SENSOR_READING_FULL <==> s.ping.Record?
    ensures ReadingOffset(e, i) == offset
  {
    var at, entry := EntryAt(e, i), EncodeEntry(s, offset);
    EntryFields(s, offset);
    hide EncodeEntry, Word, EntryAt, NameField;
    AtWithin(e, at, entry, 0, NameField(s.name));
    AtWithin(e, at, entry, 26, ToBigEndian(s.scale, 4));
    WordAt(e, at + 26, s.scale, 4);
    var full := [if s.ping.Record? then 1 else 2];
    AtWithin(e, at, entry, 34, full);
    assert e[at + 34..at + 35][0] == full[0];
    AtWithin(e, at, entry, 35, ToBigEndian(offset, 4));
    WordAt(e, at + 35, offset, 4);
  }

  // ----- the round trip ------------------------------------------------------------------------

  /** The reading a decoder should return: from the only valid side, or the newer of two. */
  function Latest(b: Block, s: Sensor): Option<Reading> {
    if b.pingFlag != 0 && (b.pongFlag == 0 || s.ping.timestamp > s.pong.timestamp) then Some(s.ping)
    else if b.pongFlag != 0 then Some(s.pong)
    else None
  }

  function Flag(b: Block, side: Side): byte {
    if side.Ping? then b.pingFlag else b.pongFlag
  }

  /** What a decoder sees of one reading on one side. */
  predicate Sees(e: seq<byte>, side: Side, offset: nat, flag: byte, r: Reading)
    requires HasHeader(e)
  {
    var area, at := AreaAt(e, side), AreaAt(e, side) + offset;
    && area < |e| && e[area] == flag
    && if r.Record? then
         && at + RECORD_SIZE <= |e|
         && Word(e, at + 2, 8) == r.timestamp && Word(e, at + 10, 2) == r.sample
         && Word(e, at + 28, 8) == r.accumulator
       else
         && at + COUNTER_SIZE <= |e|
         && Word(e, at + 2, 8) == r.timestamp && Word(e, at + 10, 8) == r.accumulator
  }

  lemma AreaWithin(e: seq<byte>, at: nat, area: seq<byte>, offset: nat, enc: seq<byte>)
    requires At(e, at, area) && At(area, offset, enc) && |area| > 0
    ensures At(e, at + offset, enc) && at < |e| && e[at] == area[0]
  {
    assert e[at..at + |area|][0] == area[0];
    AtWithin(e, at, area, offset, enc);
  }

  lemma AreaPlaced(b: Block, side: Side)
    requires BlockOk(b)
    ensures var e := Encode(b);
            HasHeader(e) && At(e, AreaAt(e, side), Area(b, side))
  {
    HeaderDecoded(b);
    Sections(b);
  }

  lemma AreaHead(b: Block, side: Side)
    ensures |Area(b, side)| > 0 && Area(b, side)[0] == Flag(b, side)
  {
  }

  lemma SensorReadingOk(s: Sensor, side: Side)
    requires SensorOk(s)
    ensures ReadingOk(ReadingOn(s, side))
  {
  }

  /** The bytes of a reading stand at its offset on its side. */
  lemma ReadingAt(b: Block, i: nat, side: Side)
    requires BlockOk(b) && i < |b.sensors|
    ensures HasHeader(Encode(b)) && AreaAt(Encode(b), side) < |Encode(b)|
    ensures At(Encode(b), AreaAt(Encode(b), side) + OffsetOf(b, i), EncodeReading(ReadingOn(b.sensors[i], side)))
  {
    hide Encode, EncodeReading, OffsetOf, Area, Flag, AreaAt, At, ReadingOk, SensorOk;
    var e, area, r := Encode(b), Area(b, side), ReadingOn(b.sensors[i], side);
    AreaHead(b, side);
    AreaPlaced(b, side);
    ReadingPlaced(b, i, side);
    hide BlockOk, ReadingOn;
    AreaWithin(e, AreaAt(e, side), area, OffsetOf(b, i), EncodeReading(r));
  }

  lemma SideDecoded(b: Block, i: nat, side: Side)
    requires BlockOk(b) && i < |b.sensors|
    ensures HasHeader(Encode(b))
    ensures Sees(Encode(b), side, OffsetOf(b, i), Flag(b, side), ReadingOn(b.sensors[i], side))
  {
    hide Encode, EncodeReading, OffsetOf, Area, Flag, AreaAt, At, ReadingOk, SensorOk, Sees;
    var e, area, r := Encode(b), Area(b, side), ReadingOn(b.sensors[i], side);
    AreaHead(b, side);
    SensorReadingOk(b.sensors[i], side);
    AreaPlaced(b, side);
    ReadingPlaced(b, i, side);
    hide Encode, EncodeReading, OffsetOf, Area, Flag, AreaAt, At, ReadingOk, SensorOk, BlockOk, Sees, ReadingOn;
    AreaWithin(e, AreaAt(e, side), area, OffsetOf(b, i), EncodeReading(r));
    ReadingDecoded(e, side, OffsetOf(b, i), Flag(b, side), r);
  }

  lemma ReadingDecoded(e: seq<byte>, side: Side, offset: nat, flag: byte, r: Reading)
    requires ReadingOk(r) && HasHeader(e)
    requires AreaAt(e, side) < |e| && e[AreaAt(e, side)] == flag
    requires At(e, AreaAt(e, side) + offset, EncodeReading(r))
    ensures Sees(e, side, offset, flag, r)
  {
    var at, enc := AreaAt(e, side) + offset, EncodeReading(r);
    if r.Record? {
      RecordFields(r);
      hide EncodeReading, Word;
      AtWithin(e, at, enc, 10, ToBigEndian(r.sample, 2));
      WordAt(e, at + 10, r.sample, 2);
      AtWithin(e, at, enc, 28, ToBigEndian(r.accumulator, 8));
      WordAt(e, at + 28, r.accumulator, 8);
    } else {
      CounterFields(r);
      hide EncodeReading, Word;
      AtWithin(e, at, enc, 10, ToBigEndian(r.accumulator, 8));
      WordAt(e, at + 10, r.accumulator, 8);
    }
    hide EncodeReading, Word;
    AtWithin(e, at, enc, 2, ToBigEndian(r.timestamp, 8));
    WordAt(e, at + 2, r.timestamp, 8);
  }

  /** The read functions on a block that shows `ping` and `pong` at `offset`. */
  predicate ReadsLatest(e: seq<byte>, offset: nat, latest: Option<Reading>, record: bool) {
    && InBlock(e, offset, if record then RECORD_SIZE else COUNTER_SIZE)
    && match latest
       case Some(r) =>
         if record then
           && r.Record?
           && ReadSensor(e, offset, SENSOR_SAMPLE) == r.sample
           && ReadSensor(e, offset, SENSOR_ACCUMULATOR) == r.accumulator
         else ReadCounter(e, offset) == r.accumulator
       case None =>
         if record then ReadSensor(e, offset, SENSOR_SAMPLE) == 0 == ReadSensor(e, offset, SENSOR_ACCUMULATOR)
         else ReadCounter(e, offset) == 0
  }

  lemma SeenIsRead(e: seq<byte>, offset: nat, b: Block, s: Sensor)
    requires HasHeader(e) && SensorOk(s)
    requires Sees(e, Ping, offset, b.pingFlag, s.ping) && Sees(e, Pong, offset, b.pongFlag, s.pong)
    ensures ReadsLatest(e, offset, Latest(b, s), s.ping.Record?)
  {
    hide Word, PingOffset, PongOffset;
  }

  /** Round trip: decoding an encoded table gives back every sensor's latest sample and accumulator,
      and 0 exactly where neither side is valid. */
  lemma RoundTrip(b: Block, i: nat)
    requires BlockOk(b) && i < |b.sensors|
    ensures var e, s := Encode(b), b.sensors[i];
            HasEntry(e, i) && ReadsLatest(e, ReadingOffset(e, i), Latest(b, s), s.ping.Record?)
  {
    EntryDecoded(b, i, "");
    SideDecoded(b, i, Ping);
    SideDecoded(b, i, Pong);
    assert SensorOk(b.sensors[i]);
    hide Encode, OffsetOf, BlockOk, Sees, ReadsLatest, ReadingOffset, EntryAt, Latest;
    SeenIsRead(Encode(b), OffsetOf(b, i), b, b.sensors[i]);
  }
}
