/** Assembling sensor blocks from short reads, and the power queries built on it (Power9.c). */
module Power9 {
  import opened Options
  import opened SensorBlock
  import opened SensorEncoding
  import opened SensorScans

  const OCC_SENSOR_DATA_BLOCK_SIZE: nat := 0x0002_5800

  /** The open sensor file.  How much each read delivers, and whether it fails, is up to a schedule
      indexed by the number of reads made so far: a negative entry is an error, any other entry is
      the number of bytes the kernel is willing to deliver. */
  class SensorFile {
    const contents: seq<byte>
    const schedule: nat -> int
    var pos: nat
    var readCount: nat

    constructor (contents: seq<byte>, schedule: nat -> int)
      ensures this.contents == contents && this.schedule == schedule && pos == 0 && readCount == 0
    {
      this.contents, this.schedule, pos, readCount := contents, schedule, 0, 0;
    }

    /** read(2) of up to `want` bytes into `buf` from `at` on: -1 on an error, 0 at the end of the
        file, otherwise at least one byte. */
    method Read(buf: array<byte>, at: nat, want: nat) returns (rc: int)
      requires want > 0 && at + want <= buf.Length
      modifies this, buf
      ensures readCount == old(readCount) + 1
      ensures rc < 0 <==> schedule(old(readCount)) < 0
      ensures rc == 0 ==> old(pos) >= |contents|
      ensures rc > 0 ==> rc <= want && old(pos) + rc <= |contents|
      ensures rc > 0 ==> buf[..at + rc] == old(buf[..at]) + contents[old(pos)..old(pos) + rc]
      ensures pos == old(pos) + if rc > 0 then rc else 0
    {
      var offer := schedule(readCount);
      readCount := readCount + 1;
      if offer < 0 {
        return -1;
      }
      if pos >= |contents| {
        return 0;
      }
      rc := if offer < 1 then 1 else offer;
      if rc > want { rc := want; }
      if rc > |contents| - pos { rc := |contents| - pos; }
      ghost var before := buf[..at];
      for i := 0 to rc
        invariant buf[..at] == before
        invariant forall k :: at <= k < at + i ==> buf[k] == contents[pos + k - at]
        modifies buf
      {
        buf[at + i] := contents[pos + i];
      }
      assert buf[..at + rc] == before + contents[pos..pos + rc];
      pos := pos + rc;
    }

    method Seek(to: nat)
      modifies this`pos
      ensures pos == to
    {
      pos := to;
    }
  }

  /** A whole block lies in the file at `at`. */
  predicate HasBlock(contents: seq<byte>, at: nat) {
    at + OCC_SENSOR_DATA_BLOCK_SIZE <= |contents|
  }

  function BlockAt(contents: seq<byte>, at: nat): seq<byte>
    requires HasBlock(contents, at)
  {
    contents[at..at + OCC_SENSOR_DATA_BLOCK_SIZE]
  }

  /** The reads from number `from` up to number `to` all went without an error. */
  predicate NoError(schedule: nat -> int, from: nat, to: nat) {
    forall c: nat :: from <= c < to ==> schedule(c) >= 0
  }

  /** The assembly loop: whatever the schedule of short reads, it ends, and it succeeds exactly if the
      whole block is in the file and no read it made failed; the block is then the file's bytes. */
  method Assemble(file: SensorFile) returns (ok: bool, block: seq<byte>)
    modifies file
    ensures file.readCount >= old(file.readCount)
    ensures ok <==> HasBlock(file.contents, old(file.pos)) && NoError(file.schedule, old(file.readCount), file.readCount)
    ensures ok ==> block == BlockAt(file.contents, old(file.pos))
  {
    var buf := new byte[OCC_SENSOR_DATA_BLOCK_SIZE];
    ghost var start := file.pos;
    var rc, bytes := 0, 0;
    while bytes < OCC_SENSOR_DATA_BLOCK_SIZE
      invariant 0 <= bytes <= OCC_SENSOR_DATA_BLOCK_SIZE && file.pos == start + bytes
      invariant bytes > 0 ==> start + bytes <= |file.contents| && buf[..bytes] == file.contents[start..start + bytes]
      invariant file.readCount >= old(file.readCount) && NoError(file.schedule, old(file.readCount), file.readCount)
      decreases OCC_SENSOR_DATA_BLOCK_SIZE - bytes
    {
      rc := file.Read(buf, bytes, OCC_SENSOR_DATA_BLOCK_SIZE - bytes);
      if rc == 0 || rc < 0 {
        break;
      }
      assert file.contents[start..start + bytes + rc]
          == file.contents[start..start + bytes] + file.contents[start + bytes..start + bytes + rc];
      bytes := bytes + rc;
    }
    if bytes != OCC_SENSOR_DATA_BLOCK_SIZE {
      return false, [];
    }
    assert buf[..] == buf[..bytes];
    return true, buf[..];
  }

  // ----- one block for each socket -------------------------------------------------------------

  /** `iter * OCC_SENSOR_DATA_BLOCK_SIZE`, an unsigned 32-bit product. */
  function BlockOffset(socket: nat): nat {
    (socket * OCC_SENSOR_DATA_BLOCK_SIZE) % 0x1_0000_0000
  }

  /** Blocks are 153600 bytes long; the product is exact up to socket 27962 and for no other.  The next
      socket's offset is 149504, inside block 0. */
  lemma BlockOffsetExact(socket: nat)
    ensures BlockOffset(socket) == 153600 * socket <==> socket <= 27962
    ensures BlockOffset(27963) == 149504
  {
  }

  /** So each of these sockets has its own block, the bytes from 153600 times its number on. */
  lemma BlockBytes(contents: seq<byte>, socket: nat, k: nat)
    requires socket <= 27962 && k < 153600
    ensures HasBlock(contents, BlockOffset(socket)) <==> 153600 * (socket + 1) <= |contents|
    ensures 153600 * (socket + 1) <= |contents| ==>
              && |BlockAt(contents, BlockOffset(socket))| == 153600
              && BlockAt(contents, BlockOffset(socket))[k] == contents[153600 * socket + k]
  {
    BlockOffsetExact(socket);
  }

  /** What the decoder relies on: every block that is there is well formed. */
  predicate BlocksOk(contents: seq<byte>, nsockets: nat) {
    forall s :: 0 <= s < nsockets ==> BlockOkAt(contents, BlockOffset(s))
  }

  predicate BlockOkAt(contents: seq<byte>, at: nat) {
    HasBlock(contents, at) ==> Scannable(BlockAt(contents, at))
  }

  /** Socket `s` has the power its own block gives. */
  ghost predicate SocketOk(contents: seq<byte>, s: nat, p: SocketPower) {
    && HasBlock(contents, BlockOffset(s)) && Scannable(BlockAt(contents, BlockOffset(s)))
    && var b := BlockAt(contents, BlockOffset(s));
       Gives(b, "PWRPROC", NrSensors(b), p.cpuWatts) && Gives(b, "PWRMEM", NrSensors(b), p.memWatts)
  }

  ghost predicate NodeOk(contents: seq<byte>, w: int) {
    && HasBlock(contents, 0) && Scannable(BlockAt(contents, 0))
    && var b := BlockAt(contents, 0);
       Gives(b, "PWRSYS", NrSensors(b), w)
  }

  /** ibm_cpu_p9_get_power_json: each socket reports its own block and the node reports the first;
      it fails exactly if a block is missing or a read failed. */
  method GetPowerJson(file: SensorFile, nsockets: nat) returns (rc: int, node: NodeObject)
    requires BlocksOk(file.contents, nsockets)
    modifies file
    ensures fresh(node)
    ensures rc == 0 || rc == -1
    ensures rc == 0 <==> (forall s :: 0 <= s < nsockets ==> HasBlock(file.contents, BlockOffset(s)))
                         && NoError(file.schedule, old(file.readCount), file.readCount)
    ensures rc == 0 ==> forall s: nat :: s in node.sockets <==> s < nsockets
    ensures forall s: nat :: s in node.sockets ==> SocketOk(file.contents, s, node.sockets[s])
    ensures rc == 0 && nsockets > 0 ==> node.nodeWatts.Some? && NodeOk(file.contents, node.nodeWatts.value)
  {
    hide Gives, Scannable, NrSensors;
    node := new NodeObject();
    var iter := 0;
    while iter < nsockets
      invariant iter <= nsockets && fresh(node)
      invariant file.readCount >= old(file.readCount) && NoError(file.schedule, old(file.readCount), file.readCount)
      invariant forall s :: 0 <= s < iter ==> HasBlock(file.contents, BlockOffset(s))
      invariant forall s: nat :: s in node.sockets <==> s < iter
      invariant forall s: nat :: s in node.sockets ==> SocketOk(file.contents, s, node.sockets[s])
      invariant iter > 0 ==> node.nodeWatts.Some? && NodeOk(file.contents, node.nodeWatts.value)
    {
      file.Seek(BlockOffset(iter));
      var ok, block := Assemble(file);
      if !ok {
        return -1, node;
      }
      assert BlockOkAt(file.contents, BlockOffset(iter));
      node.JsonGetPowerSensors(iter, block);
      iter := iter + 1;
    }
    return 0, node;
  }

  /** The file holds the encoded table of socket `s` in its block. */
  predicate HoldsTable(contents: seq<byte>, s: nat, b: Block) {
    && BlockOk(b) && 153600 * (s + 1) <= |contents|
    && Encode(b) == contents[153600 * s..153600 * (s + 1)]
  }

  /** End to end: a socket reports the powers its own table gives for processor and memory, and the node
      the power that the table of socket 0 gives for the system. */
  lemma ReportedPowers(contents: seq<byte>, s: nat, b: Block, p: SocketPower, w: int)
    requires HoldsTable(contents, s, b) && s <= 27962
    ensures SocketOk(contents, s, p) ==>
              && p.cpuWatts == TableWatts(b, "PWRPROC", |b.sensors|)
              && p.memWatts == TableWatts(b, "PWRMEM", |b.sensors|)
    ensures s == 0 && NodeOk(contents, w) ==> w == TableWatts(b, "PWRSYS", |b.sensors|)
  {
    BlockOffsetExact(s);
    var e := Encode(b);
    hide Encode, BlockOk, Gives, Scannable, NrSensors, TableWatts;
    assert BlockAt(contents, BlockOffset(s)) == e;
    ScanOfEncoded(b, "PWRPROC", p.cpuWatts);
    ScanOfEncoded(b, "PWRMEM", p.memWatts);
    ScanOfEncoded(b, "PWRSYS", w);
  }

  /** take_measurement: the node power of block 0, or `(unsigned long)-1` if it could not be read. */
  method TakeMeasurement(file: SensorFile) returns (power: int)
    requires BlockOkAt(file.contents, 0)
    modifies file
    ensures if HasBlock(file.contents, 0) && NoError(file.schedule, old(file.readCount), file.readCount)
            then NodeOk(file.contents, power)
            else power == 0xFFFF_FFFF_FFFF_FFFF
  {
    file.Seek(0);
    var ok, block := Assemble(file);
    if !ok {
      return 0xFFFF_FFFF_FFFF_FFFF;
    }
    power := GetNodePower(block);
  }
}
