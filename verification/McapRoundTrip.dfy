/**
 Typed records, how a writer serialises them, and what the recovery reader makes of the result:
 reading back any well-formed file, whole or truncated, applies exactly the records it holds.
 */
module McapRoundTrip {
  import opened Options
  import opened McapFormat
  import opened McapRecovery

  datatype Record =
    | Schema(id: nat, name: Bytes, tail: Bytes)
    | Channel(id: nat, schema: nat, topic: Bytes, encoding: Bytes, tail: Bytes)
    | Msg(channel: nat, sequence: nat, logTime: nat, publishTime: nat, data: Bytes)
    | Chunk(startTime: nat, endTime: nat, crc: nat, records: seq<Record>)
    | Other(op: Byte, content: Bytes)

  // ---- serialising

  function StringBytes(s: Bytes): Bytes { ToLe(|s|, 4) + s }

  function ChunkBody(startTime: nat, endTime: nat, crc: nat, nested: Bytes): Bytes {
    ToLe(startTime, 8) + ToLe(endTime, 8) + ToLe(|nested|, 8) + ToLe(crc, 4) + StringBytes([]) + ToLe(|nested|, 8) + nested
  }

  function Encode(r: Record): Frame
    decreases r, 0
  {
    match r
    case Schema(id, name, tail) => Frame(OP_SCHEMA, ToLe(id, 2) + StringBytes(name) + tail)
    case Channel(id, schema, topic, encoding, tail) =>
      Frame(OP_CHANNEL, ToLe(id, 2) + ToLe(schema, 2) + StringBytes(topic) + StringBytes(encoding) + tail)
    case Msg(channel, sequence, logTime, publishTime, data) =>
      Frame(OP_MESSAGE, ToLe(channel, 2) + ToLe(sequence, 4) + ToLe(logTime, 8) + ToLe(publishTime, 8) + data)
    case Chunk(startTime, endTime, crc, records) =>
      Frame(OP_CHUNK, ChunkBody(startTime, endTime, crc, AllFrameBytes(EncodeAll(records))))
    case Other(op, content) => Frame(op, content)
  }

  function EncodeAll(rs: seq<Record>): (fs: seq<Frame>)
    ensures |fs| == |rs|
    decreases rs, 1
  {
    if rs == [] then [] else [Encode(rs[0])] + EncodeAll(rs[1..])
  }

  /** Field widths are respected, strings are UTF-8, and a stated checksum is the right one. */
  ghost predicate WellFormed(cfg: Config, r: Record)
    decreases r, 0
  {
    && |Encode(r).content| < Pow256(8)
    && match r
       case Schema(id, name, tail) => id < Pow256(2) && |name| < Pow256(4) && IsUtf8(name)
       case Channel(id, schema, topic, encoding, tail) =>
         id < Pow256(2) && schema < Pow256(2) && |topic| < Pow256(4) && IsUtf8(topic) && |encoding| < Pow256(4) && IsUtf8(encoding)
       case Msg(channel, sequence, logTime, publishTime, data) =>
         channel < Pow256(2) && sequence < Pow256(4) && logTime < Pow256(8) && publishTime < Pow256(8)
       case Chunk(startTime, endTime, crc, records) =>
         startTime < Pow256(8) && endTime < Pow256(8) && crc < Pow256(4) &&
         (crc != 0 ==> crc == cfg.crc32(AllFrameBytes(EncodeAll(records)))) && AllWellFormed(cfg, records)
       case Other(op, content) => op != OP_SCHEMA && op != OP_CHANNEL && op != OP_MESSAGE && op != OP_CHUNK
  }

  ghost predicate AllWellFormed(cfg: Config, rs: seq<Record>)
    decreases rs, 1
  {
    rs == [] || (WellFormed(cfg, rs[0]) && AllWellFormed(cfg, rs[1..]))
  }

  // ---- what a record means

  function Apply(cfg: Config, t: Tables, r: Record): (Tables, bool)
    decreases r, 0
  {
    match r
    case Schema(id, name, _) => (AddSchema(t, id, name), true)
    case Channel(id, schema, topic, _, _) => (AddChannel(t, id, schema, topic), true)
    case Msg(channel, _, logTime, _, data) =>
      if channel in t.channels then (AddMessage(cfg, t, channel, logTime, data), true) else (t, false)
    case Chunk(_, _, _, records) => ApplyNested(cfg, t, records)
    case Other(_, _) => (t, true)
  }

  function ApplyNested(cfg: Config, t: Tables, rs: seq<Record>): (Tables, bool)
    decreases rs, 1
  {
    if rs == [] then (t, true)
    else
      var (t', ok) := Apply(cfg, t, rs[0]);
      if !ok then (t', false) else ApplyNested(cfg, t', rs[1..])
  }

  /** A whole file: records in order until one refers to an unknown channel, or the footer. */
  function ApplyFile(cfg: Config, t: Tables, rs: seq<Record>): Tables
    decreases |rs|
  {
    if rs == [] then t
    else
      var (t', ok) := Apply(cfg, t, rs[0]);
      if !ok || Encode(rs[0]).op == OP_FOOTER then t' else ApplyFile(cfg, t', rs[1..])
  }

  // ---- reading fields back

  lemma UintRead(c: Bytes, at: nat, v: nat, k: nat)
    requires v < Pow256(k) && at + k <= |c| && c[at..at + k] == ToLe(v, k)
    ensures UintAt(c, at, k) == Some((v, at + k))
  {
    LeRoundTrip(v, k);
  }

  lemma StringRead(c: Bytes, at: nat, s: Bytes)
    requires IsUtf8(s) && |s| < Pow256(4) && at + 4 + |s| <= |c| && c[at..at + 4 + |s|] == StringBytes(s)
    ensures StringAt(c, at) == Some((s, at + 4 + |s|))
  {
    hide StringBytes, ToLe, Pow256, FromLe, IsUtf8;
    StringSlices(c, at, s);
    UintRead(c, at, |s|, 4);
    assert TakeAt(c, at + 4, |s|) == Some((s, at + 4 + |s|));
    hide UintAt, TakeAt;
  }

  lemma StringSlices(c: Bytes, at: nat, s: Bytes)
    requires at + 4 + |s| <= |c| && c[at..at + 4 + |s|] == StringBytes(s)
    ensures c[at..at + 4] == ToLe(|s|, 4) && c[at + 4..at + 4 + |s|] == s
  {
    hide ToLe;
    var field := c[at..at + 4 + |s|];
    assert field[..4] == ToLe(|s|, 4) && field[4..] == s;
    assert c[at..at + 4] == field[..4];
    assert c[at + 4..at + 4 + |s|] == field[4..];
  }

  lemma SchemaRead(id: nat, name: Bytes, tail: Bytes)
    requires id < Pow256(2) && |name| < Pow256(4) && IsUtf8(name)
    ensures ParseSchema(ToLe(id, 2) + StringBytes(name) + tail) == Some((id, name))
  {
    hide ToLe, Pow256, FromLe, IsUtf8;
    var c := ToLe(id, 2) + StringBytes(name) + tail;
    assert c[0..2] == ToLe(id, 2);
    UintRead(c, 0, id, 2);
    assert c[2..6 + |name|] == StringBytes(name);
    StringRead(c, 2, name);
  }

  lemma ChannelRead(id: nat, schema: nat, topic: Bytes, encoding: Bytes, tail: Bytes)
    requires id < Pow256(2) && schema < Pow256(2) && |topic| < Pow256(4) && IsUtf8(topic) && |encoding| < Pow256(4) && IsUtf8(encoding)
    ensures ParseChannel(ToLe(id, 2) + ToLe(schema, 2) + StringBytes(topic) + StringBytes(encoding) + tail) == Some((id, schema, topic))
  {
    hide ToLe, Pow256, FromLe, IsUtf8, StringBytes, UintAt, StringAt;
    var c := ToLe(id, 2) + ToLe(schema, 2) + StringBytes(topic) + StringBytes(encoding) + tail;
    StringLength(topic);
    StringLength(encoding);
    UintRead(c, 0, id, 2);
    UintRead(c, 2, schema, 2);
    StringRead(c, 4, topic);
    StringRead(c, 8 + |topic|, encoding);
  }

  lemma StringLength(s: Bytes)
    ensures |StringBytes(s)| == 4 + |s|
  {
  }

  lemma MessageRead(channel: nat, sequence: nat, logTime: nat, publishTime: nat, data: Bytes)
    requires channel < Pow256(2) && sequence < Pow256(4) && logTime < Pow256(8) && publishTime < Pow256(8)
    ensures ParseMessage(ToLe(channel, 2) + ToLe(sequence, 4) + ToLe(logTime, 8) + ToLe(publishTime, 8) + data) == Some((channel, logTime, data))
  {
    hide ToLe, Pow256, FromLe, IsUtf8;
    var c := ToLe(channel, 2) + ToLe(sequence, 4) + ToLe(logTime, 8) + ToLe(publishTime, 8) + data;
    assert c[0..2] == ToLe(channel, 2) && c[2..6] == ToLe(sequence, 4);
    assert c[6..14] == ToLe(logTime, 8) && c[14..22] == ToLe(publishTime, 8) && c[22..] == data;
    UintRead(c, 0, channel, 2);
    UintRead(c, 2, sequence, 4);
    UintRead(c, 6, logTime, 8);
    UintRead(c, 14, publishTime, 8);
  }

  lemma EmptyString()
    ensures IsUtf8([]) && 0 < Pow256(4)
  {
  }

  lemma ChunkRead(cfg: Config, startTime: nat, endTime: nat, crc: nat, nested: Bytes)
    requires startTime < Pow256(8) && endTime < Pow256(8) && crc < Pow256(4) && |nested| < Pow256(8)
    requires crc != 0 ==> crc == cfg.crc32(nested)
    ensures DecodeChunk(cfg, ChunkBody(startTime, endTime, crc, nested)) == Some(nested)
  {
    hide ToLe, Pow256, FromLe, IsUtf8;
    var c := ChunkBody(startTime, endTime, crc, nested);
    assert c[0..8] == ToLe(startTime, 8) && c[8..16] == ToLe(endTime, 8) && c[16..24] == ToLe(|nested|, 8);
    assert c[24..28] == ToLe(crc, 4) && c[28..32] == StringBytes([]) && c[32..40] == ToLe(|nested|, 8);
    assert c[40..40 + |nested|] == nested;
    UintRead(c, 0, startTime, 8);
    UintRead(c, 8, endTime, 8);
    UintRead(c, 16, |nested|, 8);
    UintRead(c, 24, crc, 4);
    EmptyString();
    StringRead(c, 28, []);
    UintRead(c, 32, |nested|, 8);
  }

  // ---- round trips

  /** Reading a serialised record does to the tables what the record means. */
  lemma {:induction false} ProcessEncoded(cfg: Config, t: Tables, r: Record)
    requires WellFormed(cfg, r)
    ensures Process(cfg, t, Encode(r)) == Apply(cfg, t, r)
    decreases r, 0
  {
    match r
    case Schema(id, name, tail) => SchemaRead(id, name, tail);
    case Channel(id, schema, topic, encoding, tail) => ChannelRead(id, schema, topic, encoding, tail);
    case Msg(channel, sequence, logTime, publishTime, data) => MessageRead(channel, sequence, logTime, publishTime, data);
    case Chunk(startTime, endTime, crc, records) =>
      ChunkRead(cfg, startTime, endTime, crc, AllFrameBytes(EncodeAll(records)));
      NestedEncoded(cfg, t, records);
    case Other(op, content) =>
  }

  lemma {:induction false} NestedEncoded(cfg: Config, t: Tables, rs: seq<Record>)
    requires AllWellFormed(cfg, rs)
    ensures ProcessNested(cfg, t, AllFrameBytes(EncodeAll(rs))) == ApplyNested(cfg, t, rs)
    decreases rs, 1
  {
    if rs != [] {
      var f, rest := Encode(rs[0]), AllFrameBytes(EncodeAll(rs[1..]));
      assert EncodeAll(rs)[1..] == EncodeAll(rs[1..]);
      assert AllFrameBytes(EncodeAll(rs)) == FrameBytes(f) + rest;
      FrameRoundTrip(f, rest);
      ProcessEncoded(cfg, t, rs[0]);
      NestedEncoded(cfg, Apply(cfg, t, rs[0]).0, rs[1..]);
    }
  }

  lemma {:induction false} AllEncoded(cfg: Config, t: Tables, rs: seq<Record>)
    requires AllWellFormed(cfg, rs)
    ensures ProcessAll(cfg, t, EncodeAll(rs)) == ApplyFile(cfg, t, rs)
    decreases |rs|
  {
    if rs != [] {
      assert EncodeAll(rs)[1..] == EncodeAll(rs[1..]);
      ProcessEncoded(cfg, t, rs[0]);
      AllEncoded(cfg, Apply(cfg, t, rs[0]).0, rs[1..]);
    }
  }

  lemma {:induction false} EncodedFits(cfg: Config, rs: seq<Record>)
    requires AllWellFormed(cfg, rs)
    ensures Fits(EncodeAll(rs))
    decreases |rs|
  {
    if rs != [] {
      EncodedFits(cfg, rs[1..]);
    }
  }

  lemma {:induction false} EncodePrefix(rs: seq<Record>, k: nat)
    requires k <= |rs|
    ensures EncodeAll(rs[..k]) == EncodeAll(rs)[..k]
    decreases |rs|
  {
    if k > 0 {
      assert rs[..k][1..] == rs[1..][..k - 1];
      EncodePrefix(rs[1..], k - 1);
    }
  }

  lemma {:induction false} PrefixWellFormed(cfg: Config, rs: seq<Record>, k: nat)
    requires AllWellFormed(cfg, rs) && k <= |rs|
    ensures AllWellFormed(cfg, rs[..k])
    decreases |rs|
  {
    if k > 0 {
      assert rs[..k][1..] == rs[1..][..k - 1];
      PrefixWellFormed(cfg, rs[1..], k - 1);
    }
  }

  function FileBytes(rs: seq<Record>): Bytes {
    MAGIC + AllFrameBytes(EncodeAll(rs))
  }

  /** Reading back a serialised file frames exactly its records and applies them. */
  lemma RecoverEncoded(cfg: Config, rs: seq<Record>)
    requires AllWellFormed(cfg, rs)
    ensures Frames(FileBytes(rs)[|MAGIC|..]) == EncodeAll(rs)
    ensures Recover(cfg, FileBytes(rs)).Some? && Recover(cfg, FileBytes(rs)).value.tables == ApplyFile(cfg, EMPTY, rs)
  {
    assert FileBytes(rs)[|MAGIC|..] == AllFrameBytes(EncodeAll(rs));
    EncodedFits(cfg, rs);
    FramesRoundTrip(EncodeAll(rs));
    TopLoopProcessesFrames(cfg, EMPTY, AllFrameBytes(EncodeAll(rs)));
    AllEncoded(cfg, EMPTY, rs);
  }

  /**
   A well-formed file cut at byte `n` yields the records that lie wholly before the cut, no more and
   no less, and their messages are a prefix of the whole file's messages.
   */
  lemma TruncatedFileRecovers(cfg: Config, rs: seq<Record>, n: nat) returns (k: nat)
    requires AllWellFormed(cfg, rs) && |MAGIC| <= n <= |FileBytes(rs)|
    ensures Recover(cfg, FileBytes(rs)[..n]).Some?
    ensures var t := Recover(cfg, FileBytes(rs)[..n]).value.tables;
            && k <= |rs| && t == ApplyFile(cfg, EMPTY, rs[..k])
            && (forall i :: 0 <= i <= |rs| ==> (FrameEnd(EncodeAll(rs), i) <= n - |MAGIC| <==> i <= k))
            && t.messages <= ApplyFile(cfg, EMPTY, rs).messages
  {
    RecoverEncoded(cfg, rs);
    k := TruncationRecoversPrefix(cfg, FileBytes(rs), n);
    EncodePrefix(rs, k);
    PrefixWellFormed(cfg, rs, k);
    AllEncoded(cfg, EMPTY, rs[..k]);
  }

  // ---- chunks are transparent

  function Leaves(rs: seq<Record>): seq<Record>
    decreases rs, 1
  {
    if rs == [] then [] else LeavesOf(rs[0]) + Leaves(rs[1..])
  }

  function LeavesOf(r: Record): seq<Record>
    decreases r, 0
  {
    match r
    case Chunk(_, _, _, records) => Leaves(records)
    case _ => [r]
  }

  lemma {:induction false} ApplyAppend(cfg: Config, t: Tables, a: seq<Record>, b: seq<Record>)
    ensures ApplyNested(cfg, t, a + b) ==
            (var (t', ok) := ApplyNested(cfg, t, a); if ok then ApplyNested(cfg, t', b) else (t', false))
    decreases |a|
  {
    if a == [] {
      assert a + b == b;
    } else {
      assert (a + b)[1..] == a[1..] + b;
      ApplyAppend(cfg, Apply(cfg, t, a[0]).0, a[1..], b);
    }
  }

  /** However records are grouped into nested chunks, the tables are those of the flat record list. */
  lemma {:induction false} ChunksAreTransparent(cfg: Config, t: Tables, rs: seq<Record>)
    ensures ApplyNested(cfg, t, rs) == ApplyNested(cfg, t, Leaves(rs))
    decreases rs, 1
  {
    if rs != [] {
      LeafOf(cfg, t, rs[0]);
      ApplyAppend(cfg, t, LeavesOf(rs[0]), Leaves(rs[1..]));
      ChunksAreTransparent(cfg, Apply(cfg, t, rs[0]).0, rs[1..]);
    }
  }

  lemma {:induction false} LeafOf(cfg: Config, t: Tables, r: Record)
    ensures Apply(cfg, t, r) == ApplyNested(cfg, t, LeavesOf(r))
    decreases r, 0
  {
    if r.Chunk? {
      ChunksAreTransparent(cfg, t, r.records);
    }
  }
}
