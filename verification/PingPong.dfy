/** The ping/pong protocol between the firmware, which writes a sensor block byte by byte, and the
    decoder, which reads snapshots of it (ibm_power_features.c).

    A writer fills one side at a time: it clears that side's valid byte, stores bytes into the side,
    and publishes it by setting the valid byte again.
 */
module PingPong {
  import opened SensorBlock

  /** What the writer does not change: the size of a side and the offsets of the readings in it. */
  datatype Layout = Layout(size: nat, offsets: set<nat>)

  /** The block, the side published last, and the bytes that side was published with. */
  datatype State = State(buf: seq<byte>, latest: Side, committed: seq<byte>)

  datatype Action =
    | Clear(side: Side)
    | Store(side: Side, at: nat, value: byte)
    | Publish(side: Side, flag: byte)

  function Other(side: Side): Side {
    if side.Ping? then Pong else Ping
  }

  predicate SideFits(y: Layout, buf: seq<byte>, side: Side)
    requires HasHeader(buf)
  {
    HEADER_SIZE <= AreaAt(buf, side) && AreaAt(buf, side) + y.size <= |buf|
  }

  /** Both sides lie inside the block, apart from each other and from the header, and every reading
      lies inside its side, behind the valid byte. */
  predicate LayoutOk(y: Layout, buf: seq<byte>) {
    && HasHeader(buf) && y.size > 0
    && SideFits(y, buf, Ping) && SideFits(y, buf, Pong)
    && (PingOffset(buf) + y.size <= PongOffset(buf) || PongOffset(buf) + y.size <= PingOffset(buf))
    && forall o :: o in y.offsets ==> 1 <= o && o + RECORD_SIZE <= y.size
  }

  /** The reading at `offset` is newer on `side` than on the other one; a tie is newer on pong. */
  predicate Newer(buf: seq<byte>, side: Side, offset: nat)
    requires InBlock(buf, offset, COUNTER_SIZE)
  {
    if side.Ping? then Timestamp(buf, Ping, offset) > Timestamp(buf, Pong, offset)
    else Timestamp(buf, Pong, offset) >= Timestamp(buf, Ping, offset)
  }

  predicate AllNewer(y: Layout, buf: seq<byte>, side: Side)
    requires LayoutOk(y, buf)
  {
    forall o :: o in y.offsets ==> Newer(buf, side, o)
  }

  function SideBytes(y: Layout, buf: seq<byte>, side: Side): seq<byte>
    requires LayoutOk(y, buf)
  {
    buf[AreaAt(buf, side)..AreaAt(buf, side) + y.size]
  }

  predicate Enabled(y: Layout, s: State, a: Action)
    requires LayoutOk(y, s.buf)
  {
    match a
    case Clear(side) => side != s.latest
    case Store(side, at, _) => !IsValid(s.buf, side) && 0 < at < y.size
    case Publish(side, flag) => flag != 0 && !IsValid(s.buf, side) && AllNewer(y, s.buf, side)
  }

  /** The block with byte `at` of a side changed. */
  function SetByte(y: Layout, buf: seq<byte>, side: Side, at: nat, v: byte): seq<byte>
    requires LayoutOk(y, buf) && at < y.size
  {
    buf[AreaAt(buf, side) + at := v]
  }

  function Do(y: Layout, s: State, a: Action): State
    requires LayoutOk(y, s.buf)
    requires a.Store? ==> a.at < y.size
  {
    match a
    case Clear(side) => s.(buf := SetByte(y, s.buf, side, 0, 0))
    case Store(side, at, value) => s.(buf := SetByte(y, s.buf, side, at, value))
    case Publish(side, flag) =>
      SideFrame(y, s.buf, side, 0, flag);
      var buf := SetByte(y, s.buf, side, 0, flag);
      State(buf, side, SideBytes(y, buf, side))
  }

  /** The side published last is valid and intact, and a valid other side is older. */
  predicate Inv(y: Layout, s: State) {
    && LayoutOk(y, s.buf)
    && IsValid(s.buf, s.latest)
    && SideBytes(y, s.buf, s.latest) == s.committed
    && (IsValid(s.buf, Other(s.latest)) ==> AllNewer(y, s.buf, s.latest))
  }

  // ----- one byte changes ----------------------------------------------------------------------

  lemma WordFrame(buf: seq<byte>, j: nat, v: byte, at: nat, width: nat)
    requires j < |buf| && at + width <= |buf| && !(at <= j < at + width)
    ensures Word(buf[j := v], at, width) == Word(buf, at, width)
  {
    assert buf[j := v][at..at + width] == buf[at..at + width];
  }

  /** A byte inside a side moves nothing. */
  lemma HeaderFrame(buf: seq<byte>, j: nat, v: byte)
    requires HasHeader(buf) && HEADER_SIZE <= j < |buf|
    ensures HasHeader(buf[j := v])
    ensures PingOffset(buf[j := v]) == PingOffset(buf) && PongOffset(buf[j := v]) == PongOffset(buf)
  {
    WordFrame(buf, j, v, 16, 4);
    WordFrame(buf, j, v, 20, 4);
  }

  /** A byte changed in one side leaves the layout and the whole other side alone. */
  lemma SideFrame(y: Layout, buf: seq<byte>, side: Side, at: nat, v: byte)
    requires LayoutOk(y, buf) && at < y.size
    ensures var t := SetByte(y, buf, side, at, v);
            && |t| == |buf| && LayoutOk(y, t)
            && AreaAt(t, Ping) == AreaAt(buf, Ping) && AreaAt(t, Pong) == AreaAt(buf, Pong)
            && SideBytes(y, t, Other(side)) == SideBytes(y, buf, Other(side))
            && IsValid(t, Other(side)) == IsValid(buf, Other(side))
            && IsValid(t, side) == if at == 0 then v != 0 else IsValid(buf, side)
  {
    HeaderFrame(buf, AreaAt(buf, side) + at, v);
    hide Word, PingOffset, PongOffset;
    var t := SetByte(y, buf, side, at, v);
    assert LayoutOk(y, t);
    assert SideBytes(y, t, Other(side)) == SideBytes(y, buf, Other(side));
  }

  /** The valid byte is no part of any timestamp. */
  lemma FlagFrame(y: Layout, buf: seq<byte>, side: Side, v: byte, o: nat)
    requires LayoutOk(y, buf) && o in y.offsets
    ensures var t := SetByte(y, buf, side, 0, v);
            && LayoutOk(y, t)
            && Timestamp(t, Ping, o) == Timestamp(buf, Ping, o) && Timestamp(t, Pong, o) == Timestamp(buf, Pong, o)
  {
    SideFrame(y, buf, side, 0, v);
    FlagFrameOn(y, buf, side, v, o, Ping);
    FlagFrameOn(y, buf, side, v, o, Pong);
    hide SetByte, LayoutOk, Timestamp;
  }

  lemma FlagFrameOn(y: Layout, buf: seq<byte>, side: Side, v: byte, o: nat, on: Side)
    requires LayoutOk(y, buf) && o in y.offsets
    ensures var t := SetByte(y, buf, side, 0, v);
            LayoutOk(y, t) && Timestamp(t, on, o) == Timestamp(buf, on, o)
  {
    SideFrame(y, buf, side, 0, v);
    FlagApart(y, buf, side, o, on);
    hide Word, PingOffset, PongOffset, AreaAt, LayoutOk;
    WordFrame(buf, AreaAt(buf, side), v, AreaAt(buf, on) + o + 2, 8);
  }

  lemma FlagApart(y: Layout, buf: seq<byte>, side: Side, o: nat, on: Side)
    requires LayoutOk(y, buf) && o in y.offsets
    ensures InBlock(buf, o, COUNTER_SIZE) && AreaAt(buf, side) < |buf|
    ensures var at := AreaAt(buf, on) + o + 2;
            at + 8 <= |buf| && !(at <= AreaAt(buf, side) < at + 8)
  {
    hide Word, PingOffset, PongOffset;
  }

  // ----- every action keeps it -----------------------------------------------------------------

  lemma KeepsInv(y: Layout, s: State, a: Action)
    requires Inv(y, s) && Enabled(y, s, a)
    ensures Inv(y, Do(y, s, a))
  {
    match a
    case Clear(side) =>
      hide Word, PingOffset, PongOffset, SetByte, SideBytes, Newer;
      SideFrame(y, s.buf, side, 0, 0);
    case Store(side, at, value) =>
      hide Word, PingOffset, PongOffset, SetByte, SideBytes, Newer;
      SideFrame(y, s.buf, side, at, value);
    case Publish(side, flag) =>
      hide Word, PingOffset, PongOffset, SetByte, SideBytes;
      SideFrame(y, s.buf, side, 0, flag);
      forall o | o in y.offsets
        ensures Newer(SetByte(y, s.buf, side, 0, flag), side, o)
      {
        FlagFrame(y, s.buf, side, flag, o);
        assert Newer(s.buf, side, o);
      }
      hide SetByte, Newer, IsValid, Word, PingOffset, PongOffset;
  }

  ghost predicate Run(y: Layout, states: seq<State>) {
    && |states| > 0 && Inv(y, states[0])
    && forall i :: 0 <= i < |states| - 1 ==> Next(y, states[i], states[i + 1])
  }

  ghost predicate Next(y: Layout, s: State, t: State) {
    LayoutOk(y, s.buf) && exists a :: Enabled(y, s, a) && t == Do(y, s, a)
  }

  lemma {:induction false} Always(y: Layout, states: seq<State>, i: nat)
    requires Run(y, states) && i < |states|
    ensures Inv(y, states[i])
  {
    if i > 0 {
      Always(y, states, i - 1);
      hide Inv, Do, Enabled;
      assert Next(y, states[i - 1], states[i]);
      var a :| Enabled(y, states[i - 1], a) && states[i] == Do(y, states[i - 1], a);
      KeepsInv(y, states[i - 1], a);
    }
  }

  // ----- what a reader of a snapshot gets ------------------------------------------------------

  /** On any block at all: a reading comes from a valid side, and from none exactly if neither is
      valid; of two valid sides it comes from the newer. */
  lemma SelectsValid(buf: seq<byte>, offset: nat)
    requires InBlock(buf, offset, RECORD_SIZE)
    ensures match Select(buf, offset)
            case Chosen(side) => IsValid(buf, side) && (IsValid(buf, Other(side)) ==> Newer(buf, side, offset))
            case Neither => !IsValid(buf, Ping) && !IsValid(buf, Pong)
                            && ReadSensor(buf, offset, SENSOR_SAMPLE) == 0 == ReadCounter(buf, offset)
  {
  }

  lemma WordInSide(y: Layout, buf: seq<byte>, side: Side, at: nat, width: nat)
    requires LayoutOk(y, buf) && at + width <= y.size
    ensures Word(buf, AreaAt(buf, side) + at, width) == Word(SideBytes(y, buf, side), at, width)
  {
    SliceOfSlice(buf, AreaAt(buf, side), y.size, at, width);
  }

  lemma SliceOfSlice(s: seq<byte>, start: nat, size: nat, at: nat, width: nat)
    requires start + size <= |s| && at + width <= size
    ensures s[start..start + size][at..at + width] == s[start + at..start + at + width]
  {
    var t, u := s[start..start + size][at..at + width], s[start + at..start + at + width];
    assert forall k :: 0 <= k < width ==> t[k] == u[k];
  }

  /** The read functions see the side they select and nothing else. */
  lemma ReadsSide(y: Layout, buf: seq<byte>, side: Side, o: nat)
    requires LayoutOk(y, buf) && o in y.offsets && InBlock(buf, o, RECORD_SIZE) && Select(buf, o) == Chosen(side)
    ensures var bytes := SideBytes(y, buf, side);
            && ReadSensor(buf, o, SENSOR_SAMPLE) == Word(bytes, o + 10, 2)
            && ReadSensor(buf, o, SENSOR_ACCUMULATOR) == Word(bytes, o + 28, 8)
            && ReadCounter(buf, o) == Word(bytes, o + 10, 8)
  {
    hide Word, PingOffset, PongOffset, Select;
    WordInSide(y, buf, side, o + 10, 2);
    WordInSide(y, buf, side, o + 28, 8);
    WordInSide(y, buf, side, o + 10, 8);
  }

  lemma SelectsLatest(y: Layout, s: State, o: nat)
    requires Inv(y, s) && o in y.offsets
    ensures InBlock(s.buf, o, RECORD_SIZE) && Select(s.buf, o) == Chosen(s.latest)
  {
    hide Word, PingOffset, PongOffset, SideBytes;
  }

  /** Over every run, every snapshot gives every reading as it was published last, whatever the writer
      has stored into the other side since. */
  lemma ReadsLastPublished(y: Layout, states: seq<State>, i: nat, o: nat)
    requires Run(y, states) && i < |states| && o in y.offsets
    ensures var s := states[i];
            && InBlock(s.buf, o, RECORD_SIZE)
            && Select(s.buf, o) == Chosen(s.latest)
            && |s.committed| == y.size && o + RECORD_SIZE <= y.size
            && ReadSensor(s.buf, o, SENSOR_SAMPLE) == Word(s.committed, o + 10, 2)
            && ReadSensor(s.buf, o, SENSOR_ACCUMULATOR) == Word(s.committed, o + 28, 8)
            && ReadCounter(s.buf, o) == Word(s.committed, o + 10, 8)
  {
    Always(y, states, i);
    var s := states[i];
    SelectsLatest(y, s, o);
    hide Word, PingOffset, PongOffset, Select, AllNewer, IsValid;
    ReadsSide(y, s.buf, s.latest, o);
  }

  // ----- the writer's rules are exact ----------------------------------------------------------

  /** The invariant survives clearing a side exactly if it is not the side published last. */
  lemma ClearKeepsInv(y: Layout, s: State, side: Side)
    requires Inv(y, s)
    ensures Inv(y, Do(y, s, Clear(side))) <==> side != s.latest
  {
    SideFrame(y, s.buf, side, 0, 0);
    if side != s.latest {
      ClearOther(y, s, side);
    }
    hide Word, PingOffset, PongOffset, SetByte, SideBytes, AllNewer;
  }

  lemma ClearOther(y: Layout, s: State, side: Side)
    requires Inv(y, s) && side == Other(s.latest)
    ensures Inv(y, Do(y, s, Clear(side)))
  {
    SideFrame(y, s.buf, side, 0, 0);
    hide Word, PingOffset, PongOffset, SetByte, SideBytes, AllNewer;
  }

  /** It survives publishing the other side exactly if every reading there is newer. */
  lemma PublishKeepsInv(y: Layout, s: State, side: Side, flag: byte)
    requires Inv(y, s) && side == Other(s.latest) && flag != 0
    ensures Inv(y, Do(y, s, Publish(side, flag))) <==> AllNewer(y, s.buf, side)
  {
    SideFrame(y, s.buf, side, 0, flag);
    FlagNewer(y, s.buf, side, flag);
    hide Word, PingOffset, PongOffset, SetByte, AllNewer;
  }

  lemma FlagNewer(y: Layout, buf: seq<byte>, side: Side, flag: byte)
    requires LayoutOk(y, buf)
    ensures var t := SetByte(y, buf, side, 0, flag);
            LayoutOk(y, t) && (AllNewer(y, t, side) <==> AllNewer(y, buf, side))
  {
    SideFrame(y, buf, side, 0, flag);
    var t := SetByte(y, buf, side, 0, flag);
    forall o | o in y.offsets
      ensures InBlock(t, o, COUNTER_SIZE) && InBlock(buf, o, COUNTER_SIZE)
      ensures Newer(t, side, o) <==> Newer(buf, side, o)
    {
      FlagFrame(y, buf, side, flag, o);
    }
    hide Newer, SetByte, LayoutOk;
  }

  /** Leaving some side valid is not enough: while both are, clearing a side keeps readers on the last
      published values exactly if it is not the side published last. */
  lemma ClearExact(y: Layout, s: State, side: Side, o: nat)
    requires Inv(y, s) && IsValid(s.buf, Other(s.latest)) && o in y.offsets
    ensures var t := Do(y, s, Clear(side));
            && InBlock(t.buf, o, RECORD_SIZE)
            && (Select(t.buf, o) == Chosen(s.latest) <==> side != s.latest)
  {
    hide Word, PingOffset, PongOffset;
    SideFrame(y, s.buf, side, 0, 0);
  }

  /** A published side is read at an offset exactly if its reading there is newer, with a tie counting
      as newer for pong only. */
  lemma PublishExact(y: Layout, s: State, side: Side, flag: byte, o: nat)
    requires Inv(y, s) && side == Other(s.latest) && flag != 0 && o in y.offsets
    ensures var t := Do(y, s, Publish(side, flag));
            && InBlock(t.buf, o, RECORD_SIZE)
            && (Select(t.buf, o) == Chosen(side) <==> Newer(s.buf, side, o))
  {
    SideFrame(y, s.buf, side, 0, flag);
    FlagFrame(y, s.buf, side, flag, o);
    hide Word, PingOffset, PongOffset, SetByte, Timestamp, SideBytes;
  }
}
