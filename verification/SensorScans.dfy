/** The scans over a sensor block that look for power sensors by name (ibm_power_features.c). */
module SensorScans {
  import opened Options
  import opened SensorBlock
  import opened SensorEncoding

  /** What the scans rely on: the name entries, and every full record they refer to, are inside the
      block. */
  predicate Scannable(buf: seq<byte>) {
    && HasHeader(buf)
    && forall i :: 0 <= i < NrSensors(buf) ==> EntryReadable(buf, i)
  }

  predicate EntryReadable(buf: seq<byte>, i: nat) {
    && HasEntry(buf, i)
    && (StructureType(buf, i) == OCC_SENSOR_READING_FULL ==> InBlock(buf, ReadingOffset(buf, i), RECORD_SIZE))
  }

  /** The comparison each scan makes on entry `i`. */
  predicate Named(buf: seq<byte>, i: nat, name: string)
    requires Scannable(buf) && i < NrSensors(buf) && |name| < 16
  {
    assert EntryReadable(buf, i);
    NameIs(buf, i, name)
  }

  /** The scaled sample of entry `i`; the sample is 0 unless the entry is a full reading. */
  function WattsOf(buf: seq<byte>, i: nat): int
    requires EntryReadable(buf, i)
  {
    var sample := if StructureType(buf, i) == OCC_SENSOR_READING_FULL
                  then ReadSensor(buf, ReadingOffset(buf, i), SENSOR_SAMPLE) else 0;
    Scaled(sample, ScaleFactor(buf, i))
  }

  /** Entry `i` is the last of the first `n` with that name. */
  predicate IsLast(buf: seq<byte>, name: string, n: nat, i: int)
    requires Scannable(buf) && n <= NrSensors(buf) && |name| < 16
  {
    0 <= i < n && Named(buf, i, name) && forall j :: i < j < n ==> !Named(buf, j, name)
  }

  predicate NoneNamed(buf: seq<byte>, name: string, n: nat)
    requires Scannable(buf) && n <= NrSensors(buf) && |name| < 16
  {
    forall j :: 0 <= j < n ==> !Named(buf, j, name)
  }

  /** `w` is the power the first `n` entries give under that name: that of the last such entry, or 0. */
  ghost predicate Gives(buf: seq<byte>, name: string, n: nat, w: int)
    requires Scannable(buf) && n <= NrSensors(buf) && |name| < 16
  {
    || (w == 0 && NoneNamed(buf, name, n))
    || exists i :: IsLast(buf, name, n, i) && w == WattsOf(buf, i)
  }

  lemma GivesNothing(buf: seq<byte>, name: string)
    requires Scannable(buf) && |name| < 16
    ensures Gives(buf, name, 0, 0)
  {
  }

  lemma GivesNext(buf: seq<byte>, name: string, n: nat, w: int)
    requires Scannable(buf) && n < NrSensors(buf) && |name| < 16
    requires Gives(buf, name, n, w)
    ensures EntryReadable(buf, n)
    ensures Gives(buf, name, n + 1, if Named(buf, n, name) then WattsOf(buf, n) else w)
  {
    assert EntryReadable(buf, n);
    hide Named, WattsOf, HasHeader, NrSensors, HasEntry;
    if Named(buf, n, name) {
      assert IsLast(buf, name, n + 1, n);
    } else if NoneNamed(buf, name, n) && w == 0 {
      assert NoneNamed(buf, name, n + 1);
    } else {
      var i :| IsLast(buf, name, n, i) && w == WattsOf(buf, i);
      assert IsLast(buf, name, n + 1, i);
    }
  }

  /** A block gives one value under a name, so all scans that end with `Gives` agree. */
  lemma ScansAgree(buf: seq<byte>, name: string, v: int, w: int)
    requires Scannable(buf) && |name| < 16
    requires Gives(buf, name, NrSensors(buf), v) && Gives(buf, name, NrSensors(buf), w)
    ensures v == w
  {
    hide Named, WattsOf, HasHeader, NrSensors, HasEntry;
    var n := NrSensors(buf);
    if !NoneNamed(buf, name, n) {
      var i :| IsLast(buf, name, n, i) && v == WattsOf(buf, i);
      var j :| IsLast(buf, name, n, j) && w == WattsOf(buf, j);
      assert Named(buf, i, name) && Named(buf, j, name);
    }
  }

  // ----- the scans -----------------------------------------------------------------------------

  /** One pass of a scan: `w` after entry `i` has been looked at. */
  method ScanEntry(buf: seq<byte>, i: nat, name: string, w: int) returns (w': int)
    requires Scannable(buf) && i < NrSensors(buf) && |name| < 16
    requires Gives(buf, name, i, w)
    ensures Gives(buf, name, i + 1, w')
  {
    GivesNext(buf, name, i, w);
    hide Gives, Scannable;
    var offset, scale := ReadingOffset(buf, i), ScaleFactor(buf, i);
    var sample := 0;
    if StructureType(buf, i) == OCC_SENSOR_READING_FULL {
      sample := ReadSensor(buf, offset, SENSOR_SAMPLE);
    }
    w' := w;
    if NameIs(buf, i, name) {
      w' := Scaled(sample, scale);
    }
  }

  method GetNodePower(buf: seq<byte>) returns (pwrsys: int)
    requires Scannable(buf)
    ensures Gives(buf, "PWRSYS", NrSensors(buf), pwrsys)
  {
    pwrsys := 0;
    GivesNothing(buf, "PWRSYS");
    hide Gives, Scannable;
    for i := 0 to NrSensors(buf)
      invariant Gives(buf, "PWRSYS", i, pwrsys)
    {
      pwrsys := ScanEntry(buf, i, "PWRSYS", pwrsys);
    }
  }

  method PrintPowerSensors(buf: seq<byte>) returns (pwrsys: int, pwrproc: int, pwrmem: int, pwrgpu: int)
    requires Scannable(buf)
    ensures Gives(buf, "PWRSYS", NrSensors(buf), pwrsys) && Gives(buf, "PWRPROC", NrSensors(buf), pwrproc)
    ensures Gives(buf, "PWRMEM", NrSensors(buf), pwrmem) && Gives(buf, "PWRGPU", NrSensors(buf), pwrgpu)
  {
    pwrsys, pwrproc, pwrmem, pwrgpu := 0, 0, 0, 0;
    GivesNothing(buf, "PWRSYS");
    GivesNothing(buf, "PWRPROC");
    GivesNothing(buf, "PWRMEM");
    GivesNothing(buf, "PWRGPU");
    hide Gives, Scannable;
    for i := 0 to NrSensors(buf)
      invariant Gives(buf, "PWRSYS", i, pwrsys) && Gives(buf, "PWRPROC", i, pwrproc)
      invariant Gives(buf, "PWRMEM", i, pwrmem) && Gives(buf, "PWRGPU", i, pwrgpu)
    {
      pwrsys := ScanEntry(buf, i, "PWRSYS", pwrsys);
      pwrproc := ScanEntry(buf, i, "PWRPROC", pwrproc);
      pwrmem := ScanEntry(buf, i, "PWRMEM", pwrmem);
      pwrgpu := ScanEntry(buf, i, "PWRGPU", pwrgpu);
    }
  }

  /** The loop of json_get_power_sensors. */
  method JsonScan(buf: seq<byte>) returns (pwrsys: int, pwrproc: int, pwrmem: int)
    requires Scannable(buf)
    ensures Gives(buf, "PWRSYS", NrSensors(buf), pwrsys) && Gives(buf, "PWRPROC", NrSensors(buf), pwrproc)
    ensures Gives(buf, "PWRMEM", NrSensors(buf), pwrmem)
  {
    pwrsys, pwrproc, pwrmem := 0, 0, 0;
    GivesNothing(buf, "PWRSYS");
    GivesNothing(buf, "PWRPROC");
    GivesNothing(buf, "PWRMEM");
    hide Gives, Scannable;
    for i := 0 to NrSensors(buf)
      invariant Gives(buf, "PWRSYS", i, pwrsys) && Gives(buf, "PWRPROC", i, pwrproc)
      invariant Gives(buf, "PWRMEM", i, pwrmem)
    {
      pwrsys := ScanEntry(buf, i, "PWRSYS", pwrsys);
      pwrproc := ScanEntry(buf, i, "PWRPROC", pwrproc);
      pwrmem := ScanEntry(buf, i, "PWRMEM", pwrmem);
    }
  }

  datatype SocketPower = SocketPower(cpuWatts: int, memWatts: int)

  /** The JSON node object the power query fills in. */
  class NodeObject {
    var nodeWatts: Option<int>
    var sockets: map<nat, SocketPower>

    constructor ()
      ensures nodeWatts == None && sockets == map[]
    {
      nodeWatts, sockets := None, map[];
    }

    /** json_get_power_sensors: the node power comes from chip 0, every chip gets its own object. */
    method JsonGetPowerSensors(chipid: nat, buf: seq<byte>)
      requires Scannable(buf)
      modifies this
      ensures chipid == 0 ==> nodeWatts.Some? && Gives(buf, "PWRSYS", NrSensors(buf), nodeWatts.value)
      ensures chipid != 0 ==> nodeWatts == old(nodeWatts)
      ensures chipid in sockets && sockets == old(sockets)[chipid := sockets[chipid]]
      ensures Gives(buf, "PWRPROC", NrSensors(buf), sockets[chipid].cpuWatts)
      ensures Gives(buf, "PWRMEM", NrSensors(buf), sockets[chipid].memWatts)
    {
      var pwrsys, pwrproc, pwrmem := JsonScan(buf);
      hide *;
      if chipid == 0 {
        nodeWatts := Some(pwrsys);
      }
      sockets := sockets[chipid := SocketPower(pwrproc, pwrmem)];
    }
  }

  // ----- end to end ----------------------------------------------------------------------------

  /** The power a table of sensors gives under a name: the latest sample of its last such record,
      scaled; 0 for a counter and for a name that does not occur. */
  function TableWatts(b: Block, name: string, n: nat): int
    requires n <= |b.sensors|
  {
    if n == 0 then 0
    else if b.sensors[n - 1].name == name then SensorWatts(b, b.sensors[n - 1])
    else TableWatts(b, name, n - 1)
  }

  function SensorWatts(b: Block, s: Sensor): int {
    match Latest(b, s)
    case Some(Record(_, _, sample, _, _, _)) => Scaled(sample, s.scale)
    case _ => Scaled(0, s.scale)
  }

  lemma EncodedEntryReadable(b: Block, i: nat, name: string)
    requires BlockOk(b) && i < |b.sensors| && CString(name)
    ensures var e := Encode(b);
            && EntryReadable(e, i)
            && (NameIs(e, i, name) <==> b.sensors[i].name == name)
            && WattsOf(e, i) == SensorWatts(b, b.sensors[i])
  {
    assert SensorOk(b.sensors[i]);
    var e := Encode(b);
    hide Encode, BlockOk, NameIs, HasEntry, OffsetOf, SensorOk, ReadsLatest, EntryReadable, WattsOf, SensorWatts;
    EntryDecoded(b, i, name);
    RoundTrip(b, i);
    ReadIsWatts(e, i, b, b.sensors[i]);
  }

  lemma ReadIsWatts(buf: seq<byte>, i: nat, b: Block, s: Sensor)
    requires HasEntry(buf, i) && SensorOk(s) && ScaleFactor(buf, i) == s.scale
    requires StructureType(buf, i) == OCC_SENSOR_READING_FULL <==> s.ping.Record?
    requires ReadsLatest(buf, ReadingOffset(buf, i), Latest(b, s), s.ping.Record?)
    ensures EntryReadable(buf, i) && WattsOf(buf, i) == SensorWatts(b, s)
  {
    hide Scaled, ReadSensor, ReadCounter, HasEntry, StructureType, ReadingOffset, ScaleFactor, InBlock;
  }

  lemma EncodedScannable(b: Block)
    requires BlockOk(b)
    ensures Scannable(Encode(b)) && NrSensors(Encode(b)) == |b.sensors|
  {
    HeaderDecoded(b);
    hide Encode, BlockOk, EntryReadable;
    forall i | 0 <= i < |b.sensors|
      ensures EntryReadable(Encode(b), i)
    {
      EncodedEntryReadable(b, i, "");
    }
  }

  lemma {:induction false} EncodedGives(b: Block, name: string, n: nat)
    requires BlockOk(b) && CString(name) && n <= |b.sensors|
    requires Scannable(Encode(b)) && NrSensors(Encode(b)) == |b.sensors|
    ensures Gives(Encode(b), name, n, TableWatts(b, name, n))
  {
    hide Encode, SensorsOk, Gives, Scannable, EntryReadable, WattsOf, SensorWatts, NrSensors;
    if n == 0 {
      GivesNothing(Encode(b), name);
    } else {
      EncodedGives(b, name, n - 1);
      EncodedEntryReadable(b, n - 1, name);
      GivesNext(Encode(b), name, n - 1, TableWatts(b, name, n - 1));
    }
  }

  /** End to end: on an encoded table every scan finds the power the table gives, and only that. */
  lemma ScanOfEncoded(b: Block, name: string, w: int)
    requires BlockOk(b) && CString(name)
    ensures Scannable(Encode(b))
    ensures Gives(Encode(b), name, NrSensors(Encode(b)), w) <==> w == TableWatts(b, name, |b.sensors|)
  {
    EncodedScannable(b);
    hide Encode, BlockOk, Gives, Scannable, NrSensors, TableWatts;
    EncodedGives(b, name, |b.sensors|);
    if Gives(Encode(b), name, NrSensors(Encode(b)), w) {
      ScansAgree(Encode(b), name, w, TableWatts(b, name, |b.sensors|));
    }
  }
}
