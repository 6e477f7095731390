/** The table of all sensors: its header line and its rows (print_all_sensors_header and
    print_all_sensors of ibm_power_features.c).
 */
module SensorTable {
  import opened Arithmetic
  import opened Options
  import opened SensorBlock
  import opened SensorEncoding
  import opened SensorScans

  const OCC_SENSOR_TYPE_POWER: nat := 0x0080

  function Frequency(buf: seq<byte>, i: nat): nat
    requires HasEntry(buf, i)
  {
    Word(buf, EntryAt(buf, i) + 22, 4)
  }

  function Kind(buf: seq<byte>, i: nat): nat
    requires HasEntry(buf, i)
  {
    Word(buf, EntryAt(buf, i) + 30, 2)
  }

  /** What the row printer relies on: the readings it looks at are inside the block.  For a power sensor
      it looks at a record, whatever the structure type. */
  predicate Printable(buf: seq<byte>) {
    && HasHeader(buf)
    && forall i :: 0 <= i < NrSensors(buf) ==> EntryPrintable(buf, i)
  }

  predicate EntryPrintable(buf: seq<byte>, i: nat) {
    && HasEntry(buf, i)
    && InBlock(buf, ReadingOffset(buf, i), COUNTER_SIZE)
    && (StructureType(buf, i) == OCC_SENSOR_READING_FULL || Kind(buf, i) == OCC_SENSOR_TYPE_POWER ==>
          InBlock(buf, ReadingOffset(buf, i), RECORD_SIZE))
  }

  // ----- one entry -----------------------------------------------------------------------------

  /** The sample of a full reading, the accumulator of a counter. */
  function ValueOf(buf: seq<byte>, i: nat): nat
    requires EntryPrintable(buf, i)
  {
    if StructureType(buf, i) == OCC_SENSOR_READING_FULL
    then ReadSensor(buf, ReadingOffset(buf, i), SENSOR_SAMPLE)
    else ReadCounter(buf, ReadingOffset(buf, i))
  }

  /** `(uint64_t)(energy / TO_FP(freq))` over the reals; nothing for a division by 0. */
  function Energy(accumulator: nat, freq: nat): Option<int> {
    if ToFp(freq) == 0.0 then None else Some((accumulator as real / ToFp(freq)).Floor)
  }

  /** For every mantissa and every exponent of 8 bits with its sign, the division is a floor division of
      integers; it is undefined exactly for a mantissa of 0. */
  lemma EnergyExactly(accumulator: nat, m: nat, e: int)
    requires -128 <= e < 128
    ensures Energy(accumulator, m * 256 + e % 256)
            == if m == 0 then None
               else if e >= 0 then (PowProduct(m, e); Some(accumulator / (m * Pow10(e))))
               else Some(accumulator * Pow10(-e) / m)
  {
    WordParts(m, e);
    hide Pow10, Signed;
    if e >= 0 {
      PowProduct(m, e);
      assert ToFp(m * 256 + e % 256) == (m * Pow10(e)) as real;
      if m > 0 { FloorOfDivision(accumulator, m * Pow10(e)); }
    } else {
      FloorOfInverse(accumulator, m, Pow10(-e));
    }
  }

  lemma PowProduct(m: nat, e: nat)
    ensures m * Pow10(e) >= 0 && (m > 0 ==> m * Pow10(e) > 0) && (m == 0 ==> m * Pow10(e) == 0)
  {
    hide Pow10;
    if m > 0 { MulMono(1, m, Pow10(e)); }
  }

  lemma FloorOfDivision(a: nat, d: nat)
    requires d > 0
    ensures (a as real / d as real).Floor == a / d
  {
    var x, q := a as real / d as real, a / d;
    assert x * d as real == a as real;
    DivBounds(a, d);
    assert (q * d) as real <= x * d as real < (q * d + d) as real;
    assert q as real <= x < (q + 1) as real;
  }

  lemma FloorOfInverse(a: nat, m: nat, p: nat)
    requires p > 0
    ensures m as real / p as real == 0.0 <==> m == 0
    ensures m > 0 ==> (a as real / (m as real / p as real)).Floor == a * p / m
  {
    if m > 0 {
      var y := m as real / p as real;
      assert y * p as real == m as real;
      var x := a as real / y;
      assert x * y == a as real;
      assert x * m as real == x * y * p as real == (a * p) as real;
      FloorOfDivision(a * p, m);
      assert (a * p) as real / m as real == x;
    }
  }

  // ----- header and row ------------------------------------------------------------------------

  /** A column of the table: a sensor's value, or the energy of a power sensor. */
  datatype Column = ValueColumn(sensor: nat) | EnergyColumn(sensor: nat)

  predicate IsPower(buf: seq<byte>, i: nat)
    requires EntryPrintable(buf, i)
  {
    Kind(buf, i) == OCC_SENSOR_TYPE_POWER
  }

  function ColumnsOf(buf: seq<byte>, i: nat): seq<Column>
    requires EntryPrintable(buf, i)
  {
    if IsPower(buf, i) then [ValueColumn(i), EnergyColumn(i)] else [ValueColumn(i)]
  }

  /** What belongs under a column. */
  function CellOf(buf: seq<byte>, c: Column): Option<int>
    requires EntryPrintable(buf, c.sensor)
    requires c.EnergyColumn? ==> Kind(buf, c.sensor) == OCC_SENSOR_TYPE_POWER
  {
    match c
    case ValueColumn(i) => Some(Scaled(ValueOf(buf, i), ScaleFactor(buf, i)))
    case EnergyColumn(i) =>
      Energy(ReadSensor(buf, ReadingOffset(buf, i), SENSOR_ACCUMULATOR), Frequency(buf, i))
  }

  /** The columns of the first `n` sensors: one for every sensor, in order, and one more after it for
      every power sensor. */
  function Columns(buf: seq<byte>, n: nat): seq<Column>
    requires Printable(buf) && n <= NrSensors(buf)
  {
    if n == 0 then []
    else
      assert EntryPrintable(buf, n - 1);
      Columns(buf, n - 1) + ColumnsOf(buf, n - 1)
  }

  method PrintAllSensorsHeader(buf: seq<byte>) returns (columns: seq<Column>)
    requires Printable(buf)
    ensures columns == Columns(buf, NrSensors(buf))
  {
    columns := [];
    for i := 0 to NrSensors(buf)
      invariant columns == Columns(buf, i)
    {
      assert EntryPrintable(buf, i);
      hide NrSensors;
      if Kind(buf, i) == OCC_SENSOR_TYPE_POWER {
        columns := columns + [ValueColumn(i), EnergyColumn(i)];
      } else {
        columns := columns + [ValueColumn(i)];
      }
    }
  }

  /** Every cell stands under the column it belongs to. */
  predicate Matches(buf: seq<byte>, columns: seq<Column>, row: seq<Option<int>>) {
    && |row| == |columns|
    && forall p :: 0 <= p < |row| ==> Cell(buf, columns[p], row[p])
  }

  predicate Cell(buf: seq<byte>, c: Column, cell: Option<int>) {
    && EntryPrintable(buf, c.sensor)
    && (c.EnergyColumn? ==> Kind(buf, c.sensor) == OCC_SENSOR_TYPE_POWER)
    && cell == CellOf(buf, c)
  }

  /** The row fits the header: as many cells as columns, each the value or energy its column names. */
  method PrintAllSensors(buf: seq<byte>) returns (row: seq<Option<int>>)
    requires Printable(buf)
    ensures Matches(buf, Columns(buf, NrSensors(buf)), row)
  {
    row := [];
    assert HasHeader(buf);
    hide NrSensors, Printable, Matches, ColumnsOf, EntryPrintable, HasHeader;
    NoColumns(buf);
    for i := 0 to NrSensors(buf)
      invariant Matches(buf, Columns(buf, i), row)
    {
      ColumnsNext(buf, i);
      var cells := RowCells(buf, i);
      MatchesBoth(buf, Columns(buf, i), row, ColumnsOf(buf, i), cells);
      row := row + cells;
    }
  }

  lemma NoColumns(buf: seq<byte>)
    requires Printable(buf)
    ensures Matches(buf, Columns(buf, 0), [])
  {
  }

  lemma ColumnsNext(buf: seq<byte>, i: nat)
    requires Printable(buf) && i < NrSensors(buf)
    ensures EntryPrintable(buf, i) && Columns(buf, i + 1) == Columns(buf, i) + ColumnsOf(buf, i)
  {
    assert EntryPrintable(buf, i);
  }

  lemma MatchesBoth(buf: seq<byte>, c: seq<Column>, r: seq<Option<int>>, d: seq<Column>, t: seq<Option<int>>)
    requires Matches(buf, c, r) && Matches(buf, d, t)
    ensures Matches(buf, c + d, r + t)
  {
    hide Cell;
  }

  /** The cells one sensor adds to the row. */
  method RowCells(buf: seq<byte>, i: nat) returns (cells: seq<Option<int>>)
    requires EntryPrintable(buf, i)
    ensures Matches(buf, ColumnsOf(buf, i), cells)
  {
    hide ReadSensor, ReadCounter, Scaled, Energy, HasEntry, ReadingOffset, ScaleFactor, Frequency;
    var offset, scale := ReadingOffset(buf, i), ScaleFactor(buf, i);
    var sample: nat;
    if StructureType(buf, i) == OCC_SENSOR_READING_FULL {
      sample := ReadSensor(buf, offset, SENSOR_SAMPLE);
    } else {
      sample := ReadCounter(buf, offset);
    }
    if Kind(buf, i) == OCC_SENSOR_TYPE_POWER {
      var energy, freq := ReadSensor(buf, offset, SENSOR_ACCUMULATOR), Frequency(buf, i);
      cells := [Some(Scaled(sample, scale)), Energy(energy, freq)];
    } else {
      cells := [Some(Scaled(sample, scale))];
    }
  }

  // ----- the table of an encoded block ---------------------------------------------------------

  lemma EntryKindFields(s: Sensor, offset: nat)
    requires SensorOk(s)
    ensures var e := EncodeEntry(s, offset);
            At(e, 22, ToBigEndian(s.freq, 4)) && At(e, 30, ToBigEndian(s.kind, 2))
  {
    hide ToBigEndian, NameField, At;
    FourthAndSixth(NameField(s.name), s.units, ToBigEndian(s.gsid, 2), ToBigEndian(s.freq, 4), ToBigEndian(s.scale, 4),
                   ToBigEndian(s.kind, 2), ToBigEndian(s.location, 2), [if s.ping.Record? then 1 else 2],
                   ToBigEndian(offset, 4), [s.data], s.pad);
    assert |NameField(s.name)| == 16 by { NameFieldSize(s.name); }
  }

  lemma NameFieldSize(name: string)
    requires |name| < 16 && forall k :: 0 <= k < |name| ==> 0 < name[k] as int < 256
    ensures |NameField(name)| == 16
  {
  }

  lemma FourthAndSixth(a: seq<byte>, b: seq<byte>, c: seq<byte>, d: seq<byte>, e: seq<byte>, f: seq<byte>,
                       g: seq<byte>, h: seq<byte>, i: seq<byte>, j: seq<byte>, k: seq<byte>)
    ensures var s := a + b + c + d + e + f + g + h + i + j + k;
            At(s, |a| + |b| + |c|, d) && At(s, |a| + |b| + |c| + |d| + |e|, f)
  {
  }

  lemma KindDecoded(b: Block, i: nat)
    requires BlockOk(b) && i < |b.sensors|
    ensures var e := Encode(b);
            HasEntry(e, i) && Frequency(e, i) == b.sensors[i].freq && Kind(e, i) == b.sensors[i].kind
  {
    var e, s, offset := Encode(b), b.sensors[i], OffsetOf(b, i);
    EntryPlaced(b, i);
    assert SensorOk(s);
    hide Encode, OffsetOf, BlockOk, HasHeader, Word, EntryAt, At;
    KindFieldsDecoded(e, i, s, offset);
  }

  lemma KindFieldsDecoded(e: seq<byte>, i: nat, s: Sensor, offset: nat)
    requires SensorOk(s) && HasEntry(e, i) && At(e, EntryAt(e, i), EncodeEntry(s, offset))
    ensures Frequency(e, i) == s.freq && Kind(e, i) == s.kind
  {
    var at, entry := EntryAt(e, i), EncodeEntry(s, offset);
    EntryKindFields(s, offset);
    hide EncodeEntry, Word, EntryAt, At;
    AtWithin(e, at, entry, 22, ToBigEndian(s.freq, 4));
    WordAt(e, at + 22, s.freq, 4);
    AtWithin(e, at, entry, 30, ToBigEndian(s.kind, 2));
    WordAt(e, at + 30, s.kind, 2);
  }

  /** What a sensor's value column should show. */
  function LatestValue(b: Block, s: Sensor): nat {
    match Latest(b, s)
    case Some(Record(_, _, sample, _, _, _)) => sample
    case Some(Counter(_, _, accumulator, _, _)) => accumulator
    case None => 0
  }

  function LatestAccumulator(b: Block, s: Sensor): nat {
    match Latest(b, s)
    case Some(r) => r.accumulator
    case None => 0
  }

  /** The side from which a sensor is read. */
  function LatestSide(b: Block, s: Sensor): Choice {
    if b.pingFlag != 0 && (b.pongFlag == 0 || s.ping.timestamp > s.pong.timestamp) then Chosen(Ping)
    else if b.pongFlag != 0 then Chosen(Pong)
    else Neither
  }

  /** Bytes 4 to 11 of a reading: the low six bytes of its timestamp and two bytes more. */
  function InnerWord(r: Reading): nat {
    (r.timestamp % Pow256(6)) * Pow256(2) + match r
                                            case Record(_, _, sample, _, _, _) => sample
                                            case Counter(_, _, accumulator, _, _) => (PowPositive(6); accumulator / Pow256(6))
  }

  lemma PowPositive(k: nat)
    ensures Pow256(k) > 0
  {
    WordModulo(0, k);
  }

  /** The sensor has its own energy in the block, or a sensor after it. */
  predicate HasEnergy(b: Block, i: nat)
    requires i < |b.sensors|
  {
    b.sensors[i].ping.Record? || i + 1 < |b.sensors|
  }

  /** The word the row printer takes for a power sensor's energy: a record's accumulator, and for a counter
      a word inside the next sensor's reading on the same side. */
  function EnergyWord(b: Block, i: nat): nat
    requires i < |b.sensors| && HasEnergy(b, i)
  {
    match LatestSide(b, b.sensors[i])
    case Neither => 0
    case Chosen(side) =>
      if b.sensors[i].ping.Record? then ReadingOn(b.sensors[i], side).accumulator
      else InnerWord(ReadingOn(b.sensors[i + 1], side))
  }

  /** That word is the sensor's own latest accumulator if and only if the sensor is a record, nothing is
      valid, or a counter's accumulator happens to equal that word of the next sensor. */
  lemma OwnEnergyExactly(b: Block, i: nat)
    requires BlockOk(b) && i < |b.sensors| && HasEnergy(b, i)
    ensures var s := b.sensors[i];
            EnergyWord(b, i) == LatestAccumulator(b, s)
            <==> match LatestSide(b, s)
                 case Neither => true
                 case Chosen(side) =>
                   s.ping.Record? || ReadingOn(s, side).accumulator == InnerWord(ReadingOn(b.sensors[i + 1], side))
  {
    assert SensorOk(b.sensors[i]);
    hide InnerWord, BlockOk;
  }

  /** No power sensor that is a counter is the last one. */
  predicate EnergyInBlock(b: Block) {
    forall i :: 0 <= i < |b.sensors| && b.sensors[i].kind == 0x80 ==> HasEnergy(b, i)
  }

  lemma SensorPrinted(b: Block, i: nat)
    requires BlockOk(b) && i < |b.sensors|
    requires b.sensors[i].kind == OCC_SENSOR_TYPE_POWER ==> HasEnergy(b, i)
    ensures Shown(Encode(b), i, b)
  {
    assert SensorOk(b.sensors[i]);
    var e := Encode(b);
    hide Encode, BlockOk, NameIs, HasEntry, OffsetOf, SensorOk, Shown, ReadsLatest, EnergyWord, InBlock, ReadSensor;
    EntryDecoded(b, i, "");
    KindDecoded(b, i);
    RoundTrip(b, i);
    if HasEnergy(b, i) { EnergyRead(b, i); }
    ReadIsShown(e, i, b);
  }

  /** The cells of entry `i` are those of its sensor. */
  predicate Shown(buf: seq<byte>, i: nat, b: Block)
    requires i < |b.sensors|
    requires b.sensors[i].kind == OCC_SENSOR_TYPE_POWER ==> HasEnergy(b, i)
  {
    var s := b.sensors[i];
    && EntryPrintable(buf, i)
    && Kind(buf, i) == s.kind
    && CellOf(buf, ValueColumn(i)) == Some(Scaled(LatestValue(b, s), s.scale))
    && (s.kind == OCC_SENSOR_TYPE_POWER ==> CellOf(buf, EnergyColumn(i)) == Energy(EnergyWord(b, i), s.freq))
  }

  lemma ReadIsShown(buf: seq<byte>, i: nat, b: Block)
    requires i < |b.sensors| && HasEntry(buf, i) && SensorOk(b.sensors[i])
    requires StructureType(buf, i) == OCC_SENSOR_READING_FULL <==> b.sensors[i].ping.Record?
    requires ScaleFactor(buf, i) == b.sensors[i].scale && Kind(buf, i) == b.sensors[i].kind
    requires Frequency(buf, i) == b.sensors[i].freq
    requires ReadsLatest(buf, ReadingOffset(buf, i), Latest(b, b.sensors[i]), b.sensors[i].ping.Record?)
    requires b.sensors[i].kind == OCC_SENSOR_TYPE_POWER ==> HasEnergy(b, i)
    requires HasEnergy(b, i) ==>
               && InBlock(buf, ReadingOffset(buf, i), RECORD_SIZE)
               && ReadSensor(buf, ReadingOffset(buf, i), SENSOR_ACCUMULATOR) == EnergyWord(b, i)
    ensures Shown(buf, i, b)
  {
    hide Scaled, Energy, ReadSensor, ReadCounter, HasEntry, Kind, Frequency, StructureType, ReadingOffset, ScaleFactor,
         InBlock, EnergyWord;
    SmallerReading(buf, ReadingOffset(buf, i));
  }

  /** The word in the encoded block. */
  lemma EnergyRead(b: Block, i: nat)
    requires BlockOk(b) && i < |b.sensors| && HasEnergy(b, i)
    ensures InBlock(Encode(b), OffsetOf(b, i), RECORD_SIZE)
    ensures ReadSensor(Encode(b), OffsetOf(b, i), SENSOR_ACCUMULATOR) == EnergyWord(b, i)
  {
    var e, s := Encode(b), b.sensors[i];
    assert SensorOk(s);
    if s.ping.Record? {
      hide Encode, OffsetOf, BlockOk, NameIs, HasEntry, ReadingOffset, InBlock, ReadSensor, SensorOk;
      OffsetDecoded(b, i);
      RoundTrip(b, i);
      RecordSides(s);
    } else {
      hide Encode, OffsetOf, BlockOk, InBlock, Sees, ReadSensor, Select, LatestSide, SensorOk, EncodeReading, At, InnerWord;
      CounterEnergyRead(b, i);
    }
  }

  lemma RecordSides(s: Sensor)
    requires SensorOk(s)
    ensures s.ping.Record? == s.pong.Record?
  {
  }

  lemma CounterEnergyRead(b: Block, i: nat)
    requires BlockOk(b) && i + 1 < |b.sensors| && b.sensors[i].ping.Counter?
    ensures InBlock(Encode(b), OffsetOf(b, i), RECORD_SIZE)
    ensures ReadSensor(Encode(b), OffsetOf(b, i), SENSOR_ACCUMULATOR) == EnergyWord(b, i)
  {
    hide *;
    Encodable(b);
    var e, s := Encode(b), b.sensors[i];
    CounterTakes(b, i);
    FitsBlock(b, i);
    FitsBlock(b, i + 1);
    SelectsSide(b, i);
    InnerWordAt(b, i + 1, Ping);
    InnerWordAt(b, i + 1, Pong);
    CounterEnergy(e, OffsetOf(b, i), b, i);
  }

  lemma SelectsSide(b: Block, i: nat)
    requires BlockOk(b) && i < |b.sensors|
    ensures InBlock(Encode(b), OffsetOf(b, i), COUNTER_SIZE)
    ensures Select(Encode(b), OffsetOf(b, i)) == LatestSide(b, b.sensors[i])
  {
    var e := Encode(b);
    assert HasHeader(e) by { HeaderDecoded(b); }
    hide Encode, OffsetOf, BlockOk, InBlock, Sees, Select, LatestSide;
    FitsBlock(b, i);
    SideDecoded(b, i, Ping);
    SideDecoded(b, i, Pong);
    SeenSide(e, OffsetOf(b, i), b, b.sensors[i]);
  }

  lemma SeenSide(buf: seq<byte>, offset: nat, b: Block, s: Sensor)
    requires HasHeader(buf) && InBlock(buf, offset, COUNTER_SIZE)
    requires Sees(buf, Ping, offset, b.pingFlag, s.ping) && Sees(buf, Pong, offset, b.pongFlag, s.pong)
    ensures Select(buf, offset) == LatestSide(b, s)
  {
    hide Word, PingOffset, PongOffset;
  }

  /** The word 4 bytes into the reading at an offset. */
  predicate HoldsInner(buf: seq<byte>, side: Side, offset: nat, r: Reading) {
    && HasHeader(buf)
    && var at := AreaAt(buf, side) + offset;
       at + 12 <= |buf| && Word(buf, at + 4, 8) == InnerWord(r)
  }

  lemma InnerWordAt(b: Block, i: nat, side: Side)
    requires BlockOk(b) && i < |b.sensors|
    ensures HoldsInner(Encode(b), side, OffsetOf(b, i), ReadingOn(b.sensors[i], side))
  {
    hide *;
    var r := ReadingOn(b.sensors[i], side);
    Encodable(b);
    SensorIsOk(b, i);
    SensorReadingOk(b.sensors[i], side);
    ReadingAt(b, i, side);
    InnerBytes(r);
    InnerStands(Encode(b), side, OffsetOf(b, i), r);
  }

  lemma InnerStands(buf: seq<byte>, side: Side, offset: nat, r: Reading)
    requires HasHeader(buf) && At(buf, AreaAt(buf, side) + offset, EncodeReading(r))
    requires |EncodeReading(r)| >= 12 && BigEndian(EncodeReading(r)[4..12]) == InnerWord(r)
    ensures HoldsInner(buf, side, offset, r)
  {
    hide EncodeReading, InnerWord, AreaAt, At, Word;
    WordInside(buf, AreaAt(buf, side) + offset, EncodeReading(r));
  }

  lemma WordInside(buf: seq<byte>, at: nat, piece: seq<byte>)
    requires At(buf, at, piece) && |piece| >= 12
    ensures at + 12 <= |buf| && Word(buf, at + 4, 8) == BigEndian(piece[4..12])
  {
    AtWithin(buf, at, piece, 4, piece[4..12]);
  }

  lemma InnerBytes(r: Reading)
    requires ReadingOk(r)
    ensures |EncodeReading(r)| >= 12 && BigEndian(EncodeReading(r)[4..12]) == InnerWord(r)
  {
    var stamp, next := ToBigEndian(r.timestamp, 8)[2..], NextBytes(r);
    InnerSplit(r);
    LastBytes(r.timestamp, 8, 6);
    WordModulo(r.timestamp, 6);
    NextBytesValue(r);
    BigEndianJoins(stamp, next);
    hide EncodeReading, ToBigEndian, BigEndian, Pow256, NextBytes, ReadingOk;
  }

  /** The two bytes behind the timestamp. */
  function NextBytes(r: Reading): (b: seq<byte>)
    ensures |b| == 2
  {
    if r.Record? then ToBigEndian(r.sample, 2) else ToBigEndian(r.accumulator, 8)[..2]
  }

  lemma NextBytesValue(r: Reading)
    requires ReadingOk(r)
    ensures Pow256(6) > 0
    ensures BigEndian(NextBytes(r)) == match r
                                       case Record(_, _, sample, _, _, _) => sample
                                       case Counter(_, _, accumulator, _, _) => accumulator / Pow256(6)
  {
    PowPositive(6);
    hide BigEndian, ToBigEndian, Pow256;
    if r.Record? {
      WordRoundTrip(r.sample, 2);
    } else {
      FirstBytes(r.accumulator, 8, 2);
      SmallQuotient(r.accumulator);
      WordRoundTrip(r.accumulator / Pow256(6), 2);
    }
  }

  lemma InnerSplit(r: Reading)
    requires ReadingOk(r)
    ensures |EncodeReading(r)| >= 12
    ensures EncodeReading(r)[4..12]
            == ToBigEndian(r.timestamp, 8)[2..] + NextBytes(r)
  {
    hide ToBigEndian;
  }

  lemma SmallQuotient(v: nat)
    requires v < Pow256(8)
    ensures Pow256(6) > 0 && v / Pow256(6) < Pow256(2)
  {
    assert Pow256(8) == Pow256(2) * Pow256(6) by {
      assert Pow256(7) == 256 * Pow256(6) && Pow256(8) == 256 * Pow256(7);
      assert Pow256(1) == 256 && Pow256(2) == 256 * Pow256(1);
    }
    PowPositive(6);
    hide Pow256;
    DivBounds(v, Pow256(6));
    MulLess(v / Pow256(6), Pow256(2), Pow256(6));
  }

  lemma CounterEnergy(buf: seq<byte>, offset: nat, b: Block, i: nat)
    requires i + 1 < |b.sensors| && b.sensors[i].ping.Counter?
    requires InBlock(buf, offset, COUNTER_SIZE) && InBlock(buf, offset + COUNTER_SIZE, COUNTER_SIZE)
    requires Select(buf, offset) == LatestSide(b, b.sensors[i])
    requires HoldsInner(buf, Ping, offset + COUNTER_SIZE, ReadingOn(b.sensors[i + 1], Ping))
    requires HoldsInner(buf, Pong, offset + COUNTER_SIZE, ReadingOn(b.sensors[i + 1], Pong))
    ensures InBlock(buf, offset, RECORD_SIZE)
    ensures ReadSensor(buf, offset, SENSOR_ACCUMULATOR) == EnergyWord(b, i)
  {
    hide Select, LatestSide, Word, InnerWord, PingOffset, PongOffset;
  }

  lemma SmallerReading(buf: seq<byte>, offset: nat)
    requires InBlock(buf, offset, RECORD_SIZE) || InBlock(buf, offset, COUNTER_SIZE)
    ensures InBlock(buf, offset, COUNTER_SIZE)
  {
  }

  /** End to end: for every table without a counter as a last power sensor the header and the row agree
      with it column by column: the latest sample or accumulator of every sensor, scaled, and for every
      power sensor the energy word above. */
  lemma TablePrinted(b: Block, row: seq<Option<int>>, p: nat)
    requires BlockOk(b) && EnergyInBlock(b)
    ensures Printable(Encode(b)) && NrSensors(Encode(b)) == |b.sensors|
    ensures var columns := Columns(Encode(b), |b.sensors|);
            Matches(Encode(b), columns, row) && p < |columns| ==>
              && columns[p].sensor < |b.sensors|
              && var s := b.sensors[columns[p].sensor];
                 if columns[p].ValueColumn? then row[p] == Some(Scaled(LatestValue(b, s), s.scale))
                 else HasEnergy(b, columns[p].sensor) && row[p] == Energy(EnergyWord(b, columns[p].sensor), s.freq)
  {
    EncodedScannable(b);
    EncodedPrintable(b);
    hide Encode, BlockOk, Printable, NrSensors, EntryPrintable, LatestValue, LatestAccumulator, Energy, Scaled, CellOf;
    var columns := Columns(Encode(b), |b.sensors|);
    if Matches(Encode(b), columns, row) && p < |columns| {
      ColumnSensors(Encode(b), |b.sensors|, p);
      assert Cell(Encode(b), columns[p], row[p]);
      SensorPrinted(b, columns[p].sensor);
    }
  }

  lemma EncodedPrintable(b: Block)
    requires BlockOk(b) && EnergyInBlock(b)
    ensures Printable(Encode(b))
  {
    EncodedScannable(b);
    hide Encode, BlockOk, EntryPrintable, Scannable;
    forall i | 0 <= i < |b.sensors|
      ensures EntryPrintable(Encode(b), i)
    {
      SensorPrinted(b, i);
    }
    assert HasHeader(Encode(b)) by { HeaderDecoded(b); }
  }

  lemma {:induction false} ColumnSensors(buf: seq<byte>, n: nat, p: nat)
    requires Printable(buf) && n <= NrSensors(buf) && p < |Columns(buf, n)|
    ensures Columns(buf, n)[p].sensor < n
  {
    hide *;
    if n == 0 {
      NoColumns(buf);
    } else {
      ColumnsNext(buf, n - 1);
      OwnColumns(buf, n - 1);
      if p < |Columns(buf, n - 1)| { ColumnSensors(buf, n - 1, p); }
    }
  }

  /** The columns of one sensor among others: its value, and its energy exactly for a power sensor. */
  predicate HasColumns(columns: seq<Column>, i: nat, power: bool) {
    ValueColumn(i) in columns && (EnergyColumn(i) in columns <==> power)
  }

  /** Every sensor has a value column; it has an energy column exactly if it is a power sensor. */
  lemma {:induction false} ColumnsComplete(buf: seq<byte>, n: nat, i: nat)
    requires Printable(buf) && n <= NrSensors(buf) && i < n
    ensures EntryPrintable(buf, i)
    ensures HasColumns(Columns(buf, n), i, IsPower(buf, i))
  {
    hide *;
    ColumnsNext(buf, n - 1);
    ColumnsNext(buf, i);
    OwnColumns(buf, n - 1);
    if i < n - 1 {
      ColumnsComplete(buf, n - 1, i);
      ColumnsStay(Columns(buf, n - 1), ColumnsOf(buf, n - 1), n - 1, i, IsPower(buf, i));
    } else {
      EarlierColumns(buf, i);
      ColumnsAdded(Columns(buf, i), ColumnsOf(buf, i), i, IsPower(buf, i));
    }
  }

  lemma OwnColumns(buf: seq<byte>, i: nat)
    requires EntryPrintable(buf, i)
    ensures HasColumns(ColumnsOf(buf, i), i, IsPower(buf, i))
    ensures forall c :: c in ColumnsOf(buf, i) ==> c.sensor == i
  {
  }

  lemma ColumnsStay(before: seq<Column>, added: seq<Column>, n: nat, i: nat, power: bool)
    requires HasColumns(before, i, power) && i != n && forall c :: c in added ==> c.sensor == n
    ensures HasColumns(before + added, i, power)
  {
  }

  lemma ColumnsAdded(before: seq<Column>, added: seq<Column>, i: nat, power: bool)
    requires HasColumns(added, i, power) && ValueColumn(i) !in before && EnergyColumn(i) !in before
    ensures HasColumns(before + added, i, power)
  {
  }

  lemma EarlierColumns(buf: seq<byte>, n: nat)
    requires Printable(buf) && n <= NrSensors(buf)
    ensures ValueColumn(n) !in Columns(buf, n) && EnergyColumn(n) !in Columns(buf, n)
  {
    hide Columns, Printable, NrSensors;
    forall c | c in Columns(buf, n)
      ensures c.sensor < n
    {
      var p :| 0 <= p < |Columns(buf, n)| && Columns(buf, n)[p] == c;
      ColumnSensors(buf, n, p);
    }
  }

  /** The power sensors, those of kind 0x80, among the first `n`. */
  function Powers(b: Block, n: nat): nat
    requires n <= |b.sensors|
  {
    if n == 0 then 0 else Powers(b, n - 1) + if b.sensors[n - 1].kind == 0x80 then 1 else 0
  }

  /** Sensor `i` has its value column behind one column for each sensor and one for each power sensor
      before it, and its energy column, if it is a power sensor, right behind that. */
  predicate PlacedAt(columns: seq<Column>, b: Block, i: nat)
    requires i < |b.sensors|
  {
    var p := i + Powers(b, i);
    && p < |columns| && columns[p] == ValueColumn(i)
    && (b.sensors[i].kind == 0x80 ==> p + 1 < |columns| && columns[p + 1] == EnergyColumn(i))
  }

  /** The columns of an encoded table, one by one. */
  lemma {:induction false} ColumnsPlaced(b: Block, n: nat, i: nat)
    requires BlockOk(b) && EnergyInBlock(b) && n <= |b.sensors|
    ensures Printable(Encode(b)) && n <= NrSensors(Encode(b))
    ensures |Columns(Encode(b), n)| == n + Powers(b, n)
    ensures i < n ==> PlacedAt(Columns(Encode(b), n), b, i)
  {
    hide *;
    Encodable(b);
    SensorsCounted(b);
    if n == 0 {
      NothingPlaced(Encode(b), b);
    } else {
      PowerKind(b, n - 1);
      ColumnsPlaced(b, n - 1, i);
      ColumnsNext(Encode(b), n - 1);
      MoreColumns(Columns(Encode(b), n - 1), ColumnsOf(Encode(b), n - 1), b, n - 1, i);
    }
  }

  lemma SensorsCounted(b: Block)
    requires BlockOk(b) && EnergyInBlock(b)
    ensures Printable(Encode(b)) && NrSensors(Encode(b)) == |b.sensors|
  {
    EncodedPrintable(b);
    HeaderDecoded(b);
    hide *;
  }

  lemma NothingPlaced(buf: seq<byte>, b: Block)
    requires Printable(buf)
    ensures |Columns(buf, 0)| == 0 == Powers(b, 0)
  {
  }

  lemma PowerKind(b: Block, i: nat)
    requires BlockOk(b) && EnergyInBlock(b) && i < |b.sensors|
    ensures EntryPrintable(Encode(b), i)
    ensures ColumnsOf(Encode(b), i) == [ValueColumn(i)] + if b.sensors[i].kind == 0x80 then [EnergyColumn(i)] else []
  {
    hide Encode, BlockOk, HasEntry, Kind, EntryPrintable;
    SensorPrinted(b, i);
    KindDecoded(b, i);
  }

  lemma MoreColumns(before: seq<Column>, added: seq<Column>, b: Block, n: nat, i: nat)
    requires n < |b.sensors| && |before| == n + Powers(b, n)
    requires added == [ValueColumn(n)] + if b.sensors[n].kind == 0x80 then [EnergyColumn(n)] else []
    requires i < n ==> PlacedAt(before, b, i)
    ensures |before + added| == n + 1 + Powers(b, n + 1)
    ensures i <= n ==> PlacedAt(before + added, b, i)
  {
  }

  /** The energy read for a reading at `offset` is a word inside the reading at `next`. */
  predicate ReadsInside(buf: seq<byte>, offset: nat, next: nat) {
    && InBlock(buf, offset, RECORD_SIZE) && InBlock(buf, next, COUNTER_SIZE)
    && match Select(buf, offset)
       case Chosen(side) => ReadSensor(buf, offset, SENSOR_ACCUMULATOR) == Word(buf, AreaAt(buf, side) + next + 4, 8)
       case Neither => false
  }

  /** The energy read for entry `i` is a word inside the reading of the entry after it. */
  predicate ReadsNextEntry(buf: seq<byte>, i: nat) {
    && HasEntry(buf, i) && HasEntry(buf, i + 1)
    && ReadsInside(buf, ReadingOffset(buf, i), ReadingOffset(buf, i + 1))
  }

  /** The energy of a power sensor that is a counter is not its own: a record's accumulator would lie
      behind the counter, inside the next sensor's reading. */
  lemma PowerCounterReadsNext(b: Block, i: nat)
    requires BlockOk(b) && i + 1 < |b.sensors| && b.sensors[i].ping.Counter?
    requires b.pingFlag != 0 || b.pongFlag != 0
    ensures ReadsNextEntry(Encode(b), i)
  {
    hide *;
    Encodable(b);
    var e := Encode(b);
    OffsetDecoded(b, i);
    OffsetDecoded(b, i + 1);
    CounterTakes(b, i);
    ChoosesSide(b, i);
    FitsBlock(b, i + 1);
    InsideNext(e, OffsetOf(b, i));
    NextEntry(e, i);
  }

  lemma OffsetDecoded(b: Block, i: nat)
    requires BlockOk(b) && i < |b.sensors|
    ensures HasEntry(Encode(b), i) && ReadingOffset(Encode(b), i) == OffsetOf(b, i)
  {
    EntryDecoded(b, i, "");
  }

  lemma SensorIsOk(b: Block, i: nat)
    requires BlockOk(b) && i < |b.sensors|
    ensures SensorOk(b.sensors[i])
  {
    hide SensorOk;
  }

  lemma Encodable(b: Block)
    requires BlockOk(b)
    ensures SensorsOk(b) && |b.fixed| == 10
  {
  }

  lemma NextEntry(buf: seq<byte>, i: nat)
    requires HasEntry(buf, i) && HasEntry(buf, i + 1)
    requires ReadsInside(buf, ReadingOffset(buf, i), ReadingOffset(buf, i + 1))
    ensures ReadsNextEntry(buf, i)
  {
  }

  lemma FitsBlock(b: Block, i: nat)
    requires BlockOk(b) && i < |b.sensors|
    ensures InBlock(Encode(b), OffsetOf(b, i), COUNTER_SIZE)
  {
    var e := Encode(b);
    hide Encode, OffsetOf, BlockOk, NameIs, HasEntry, ReadingOffset, Latest, InBlock;
    EntryDecoded(b, i, "");
    RoundTrip(b, i);
    SmallerReading(e, OffsetOf(b, i));
  }

  lemma ChoosesSide(b: Block, i: nat)
    requires BlockOk(b) && i < |b.sensors| && (b.pingFlag != 0 || b.pongFlag != 0)
    ensures InBlock(Encode(b), OffsetOf(b, i), COUNTER_SIZE) && Select(Encode(b), OffsetOf(b, i)).Chosen?
  {
    hide Encode, OffsetOf, BlockOk, InBlock, Select;
    SelectsSide(b, i);
  }

  lemma InsideNext(buf: seq<byte>, offset: nat)
    requires InBlock(buf, offset, COUNTER_SIZE) && Select(buf, offset).Chosen?
    requires InBlock(buf, offset + COUNTER_SIZE, COUNTER_SIZE)
    ensures ReadsInside(buf, offset, offset + COUNTER_SIZE)
  {
    hide Select, Word, AreaAt, PingOffset, PongOffset;
  }

  /** The energy read for a reading at `offset` is a word `from` bytes into its side. */
  predicate ReadsFrom(buf: seq<byte>, offset: nat, from: nat) {
    && InBlock(buf, offset, RECORD_SIZE)
    && match Select(buf, offset)
       case Chosen(side) =>
         && AreaAt(buf, side) + from + 8 <= |buf|
         && ReadSensor(buf, offset, SENSOR_ACCUMULATOR) == Word(buf, AreaAt(buf, side) + from, 8)
       case Neither => false
  }

  /** For the last sensor of the table it would lie behind the whole side, so that it is read only if the
      block goes on there, and then from whatever that is. */
  lemma LastPowerCounterReadsOutside(b: Block, i: nat)
    requires BlockOk(b) && i + 1 == |b.sensors| && b.sensors[i].ping.Counter?
    requires b.pingFlag != 0 || b.pongFlag != 0
    requires InBlock(Encode(b), OffsetOf(b, i), RECORD_SIZE)
    ensures |Area(b, Ping)| == |Area(b, Pong)|
    ensures HasEntry(Encode(b), i) && ReadingOffset(Encode(b), i) == OffsetOf(b, i)
    ensures ReadsFrom(Encode(b), OffsetOf(b, i), |Area(b, Ping)| + 4)
  {
    hide *;
    Encodable(b);
    var e := Encode(b);
    OffsetDecoded(b, i);
    CounterTakes(b, i);
    ChoosesSide(b, i);
    AreaEnds(b);
    BehindCounter(e, OffsetOf(b, i));
  }

  /** Both sides end where the readings do. */
  lemma AreaEnds(b: Block)
    requires SensorsOk(b)
    ensures |Area(b, Ping)| == |Area(b, Pong)| == OffsetOf(b, |b.sensors|)
  {
    SameStart(b.sensors, |b.sensors|);
    WholeStart(Readings(b.sensors, Ping));
    WholeStart(Readings(b.sensors, Pong));
    hide Start, Concat, EncodeReading;
  }

  lemma WholeStart(parts: seq<seq<byte>>)
    ensures Start(parts, |parts|) == |Concat(parts)|
  {
    assert parts[..|parts|] == parts;
  }

  lemma BehindCounter(buf: seq<byte>, offset: nat)
    requires InBlock(buf, offset, RECORD_SIZE) && InBlock(buf, offset, COUNTER_SIZE) && Select(buf, offset).Chosen?
    ensures ReadsFrom(buf, offset, offset + COUNTER_SIZE + 4)
  {
    hide Select, Word, PingOffset, PongOffset;
  }

  lemma CounterTakes(b: Block, i: nat)
    requires BlockOk(b) && i < |b.sensors| && b.sensors[i].ping.Counter?
    ensures OffsetOf(b, i + 1) == OffsetOf(b, i) + COUNTER_SIZE
  {
    assert SensorOk(b.sensors[i]);
    PartAt(Readings(b.sensors, Ping), i);
    ReadingSize(b.sensors[i].ping);
  }

  // ----- a table that is printed wrongly -------------------------------------------------------

  function Zeros(n: nat): seq<byte> {
    seq(n, _ => 0)
  }

  /** A power sensor that is a counter with accumulator 5. */
  const POWER_COUNTER := Sensor("", Zeros(4), 0, 0, 0, OCC_SENSOR_TYPE_POWER, 0, 0, Zeros(8),
                                Counter(0, 0, 5, 0, Zeros(5)), Counter(0, 0, 5, 0, Zeros(5)))

  /** A record with sample 7. */
  const PLAIN_RECORD := Sensor("", Zeros(4), 0, 0, 0, 0, 0, 0, Zeros(8),
                               Record(0, 0, 7, Zeros(16), 0, Zeros(12)), Record(0, 0, 7, Zeros(16), 0, Zeros(12)))

  const TWO_SENSORS := Block([POWER_COUNTER, PLAIN_RECORD], 1, 1, [], Zeros(10), [], [], [], [])

  /** The energy word printed for the counter is the next sensor's sample. */
  lemma WrongEnergy()
    ensures BlockOk(TWO_SENSORS) && EnergyInBlock(TWO_SENSORS)
    ensures LatestAccumulator(TWO_SENSORS, POWER_COUNTER) == 5 && EnergyWord(TWO_SENSORS, 0) == 7
  {
    TwoSensorsOk();
    PowPositive(6);
    assert InnerWord(PLAIN_RECORD.pong) == 7;
  }

  lemma TwoSensorsOk()
    ensures BlockOk(TWO_SENSORS)
  {
    var b := TWO_SENSORS;
    SensorsFit();
    TwoEntries();
    AreaEnds(b);
    TwoReadings();
    Widths();
    hide Pow256, Entries, Concat, Area, OffsetOf, SensorsOk;
  }

  lemma Widths()
    ensures Pow256(2) == 0x1_0000 && Pow256(4) == 0x1_0000_0000 && Pow256(8) >= 0x1_0000_0000
  {
    assert Pow256(1) == 256;
    assert Pow256(3) == 256 * Pow256(2);
    assert Pow256(5) == 256 * Pow256(4);
    assert Pow256(7) == 256 * (256 * Pow256(5));
  }

  lemma SensorsFit()
    ensures SensorsOk(TWO_SENSORS)
  {
    Widths();
    hide Pow256;
    assert SensorOk(POWER_COUNTER) && SensorOk(PLAIN_RECORD);
  }

  lemma TwoEntries()
    requires SensorsOk(TWO_SENSORS)
    ensures |Concat(Entries(TWO_SENSORS))| == 2 * ENTRY_SIZE
  {
    var b := TWO_SENSORS;
    hide EncodeEntry, OffsetOf, Concat, SensorsOk;
    assert SensorOk(b.sensors[0]) && SensorOk(b.sensors[1]) by { SensorsFit2(); }
    forall k | 0 <= k < 2
      ensures |Entries(b)[k]| == ENTRY_SIZE
    {
      EntryFields(b.sensors[k], OffsetOf(b, k));
    }
    EvenStart(Entries(b), 2, ENTRY_SIZE);
    WholeStart(Entries(b));
  }

  lemma SensorsFit2()
    ensures SensorOk(TWO_SENSORS.sensors[0]) && SensorOk(TWO_SENSORS.sensors[1])
  {
    SensorsFit();
    hide SensorOk;
  }

  /** A valid byte, a counter and a record. */
  lemma TwoReadings()
    ensures OffsetOf(TWO_SENSORS, 2) == 1 + COUNTER_SIZE + RECORD_SIZE
  {
    var b := TWO_SENSORS;
    SensorsFit2();
    PartAt(Readings(b.sensors, Ping), 0);
    PartAt(Readings(b.sensors, Ping), 1);
    ReadingSize(b.sensors[0].ping);
    ReadingSize(b.sensors[1].ping);
    hide EncodeReading, At, Pow256;
    assert Start(Readings(b.sensors, Ping), 0) == 0;
  }
}
