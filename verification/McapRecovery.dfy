/**
 Recovering messages from a possibly truncated or damaged MCAP file: what processing a record does
 to the tables, how the top-level loop stops, and what a truncated file still yields.
 */
module McapRecovery {
  import opened Options
  import opened McapFormat

  datatype Message = Message(topic: Bytes, data: Bytes, receiveNs: nat)

  datatype Tables = Tables(
    schemas: map<nat, Bytes>, channels: map<nat, (Bytes, nat)>, topicTypes: map<Bytes, Bytes>,
    messages: seq<Message>, count: nat, startNs: Option<nat>, endNs: Option<nat>)

  const EMPTY: Tables := Tables(map[], map[], map[], [], 0, None, None)

  /** The topics to keep, and the checksum of the zlib library. */
  datatype Config = Config(retained: set<Bytes>, crc32: Bytes -> nat)

  // ---- record contents

  function ParseSchema(c: Bytes): Option<(nat, Bytes)> {
    var (id, at) :- UintAt(c, 0, 2);
    var (name, at) :- StringAt(c, at);
    Some((id, name))
  }

  function ParseChannel(c: Bytes): Option<(nat, nat, Bytes)> {
    var (id, at) :- UintAt(c, 0, 2);
    var (schema, at) :- UintAt(c, at, 2);
    var (topic, at) :- StringAt(c, at);
    var (encoding, at) :- StringAt(c, at);
    Some((id, schema, topic))
  }

  function ParseMessage(c: Bytes): Option<(nat, nat, Bytes)> {
    var (channel, at) :- UintAt(c, 0, 2);
    var (sequence, at) :- UintAt(c, at, 4);
    var (receiveNs, at) :- UintAt(c, at, 8);
    var (publishNs, at) :- UintAt(c, at, 8);
    Some((channel, receiveNs, c[at..]))
  }

  /** The nested bytes of an uncompressed chunk whose size and checksum agree. */
  function DecodeChunk(cfg: Config, c: Bytes): (r: Option<Bytes>)
    ensures r.Some? ==> |r.value| < |c|
  {
    var (startNs, at) :- UintAt(c, 0, 8);
    var (endNs, at) :- UintAt(c, at, 8);
    var (size, at) :- UintAt(c, at, 8);
    var (crc, at) :- UintAt(c, at, 4);
    var (compression, at) :- StringAt(c, at);
    var (records, at) :- Bytes64At(c, at);
    if compression != [] then None
    else if |records| != size then None
    else if crc != 0 && cfg.crc32(records) != crc then None
    else Some(records)
  }

  // ---- processing

  function MinOf(o: Option<nat>, x: nat): Option<nat> {
    if o.None? || x < o.value then Some(x) else o
  }

  function MaxOf(o: Option<nat>, x: nat): Option<nat> {
    if o.None? || x > o.value then Some(x) else o
  }

  function NoteType(t: Tables, topic: Bytes, schema: nat): Tables {
    if schema in t.schemas then t.(topicTypes := t.topicTypes[topic := t.schemas[schema]]) else t
  }

  function AddSchema(t: Tables, id: nat, name: Bytes): Tables {
    t.(schemas := t.schemas[id := name])
  }

  function AddChannel(t: Tables, id: nat, schema: nat, topic: Bytes): Tables {
    NoteType(t.(channels := t.channels[id := (topic, schema)]), topic, schema)
  }

  function AddMessage(cfg: Config, t: Tables, channel: nat, receiveNs: nat, data: Bytes): Tables
    requires channel in t.channels
  {
    var (topic, schema) := t.channels[channel];
    var t := NoteType(t, topic, schema);
    var t := t.(count := t.count + 1, startNs := MinOf(t.startNs, receiveNs), endNs := MaxOf(t.endNs, receiveNs));
    if topic in cfg.retained then t.(messages := t.messages + [Message(topic, data, receiveNs)]) else t
  }

  /** One record; the flag is false when the record is malformed, the tables then keep what came before the fault. */
  function Process(cfg: Config, t: Tables, f: Frame): (Tables, bool)
    decreases |f.content|, 0
  {
    if f.op == OP_SCHEMA then
      match ParseSchema(f.content)
      case None => (t, false)
      case Some((id, name)) => (AddSchema(t, id, name), true)
    else if f.op == OP_CHANNEL then
      match ParseChannel(f.content)
      case None => (t, false)
      case Some((id, schema, topic)) => (AddChannel(t, id, schema, topic), true)
    else if f.op == OP_MESSAGE then
      match ParseMessage(f.content)
      case None => (t, false)
      case Some((channel, receiveNs, data)) =>
        if channel !in t.channels then (t, false) else (AddMessage(cfg, t, channel, receiveNs, data), true)
    else if f.op == OP_CHUNK then
      match DecodeChunk(cfg, f.content)
      case None => (t, false)
      case Some(records) => ProcessNested(cfg, t, records)
    else (t, true)
  }

  /** The records of a chunk, in order, up to the first fault. */
  function ProcessNested(cfg: Config, t: Tables, data: Bytes): (Tables, bool)
    decreases |data|, 1
  {
    if data == [] then (t, true)
    else if !HasFrame(data) then (t, false)
    else
      var (t', ok) := Process(cfg, t, FirstFrame(data));
      if !ok then (t', false) else ProcessNested(cfg, t', AfterFrame(data))
  }

  datatype Stop = CleanEnd | TruncatedHeader | TruncatedRecord | Malformed | FooterSeen

  /** The top-level loop over what follows the magic. */
  function TopLoop(cfg: Config, t: Tables, data: Bytes): (Tables, Stop)
    decreases |data|
  {
    if data == [] then (t, CleanEnd)
    else if |data| < 9 then (t, TruncatedHeader)
    else if !HasFrame(data) then (t, TruncatedRecord)
    else
      var (t', ok) := Process(cfg, t, FirstFrame(data));
      if !ok then (t', Malformed)
      else if data[0] == OP_FOOTER then (t', FooterSeen)
      else TopLoop(cfg, t', AfterFrame(data))
  }

  datatype Recovered = Recovered(tables: Tables, stop: Stop, truncated: bool)

  predicate ClosingMagic(file: Bytes) {
    |file| >= |MAGIC| && file[|file| - |MAGIC|..] == MAGIC
  }

  /** None stands for the exception raised when the file does not start with the magic. */
  function Recover(cfg: Config, file: Bytes): Option<Recovered> {
    if !(MAGIC <= file) then None
    else
      var (t, stop) := TopLoop(cfg, EMPTY, file[|MAGIC|..]);
      Some(Recovered(t, stop, !stop.FooterSeen? || !ClosingMagic(file)))
  }

  // ---- the loop as a fold over whole frames

  function ProcessAll(cfg: Config, t: Tables, fs: seq<Frame>): Tables
    decreases |fs|
  {
    if fs == [] then t
    else
      var (t', ok) := Process(cfg, t, fs[0]);
      if !ok || fs[0].op == OP_FOOTER then t' else ProcessAll(cfg, t', fs[1..])
  }

  /** The loop processes exactly the complete frames, in order, until a fault or the footer. */
  lemma {:induction false} TopLoopProcessesFrames(cfg: Config, t: Tables, data: Bytes)
    ensures TopLoop(cfg, t, data).0 == ProcessAll(cfg, t, Frames(data))
    decreases |data|
  {
    if HasFrame(data) {
      var (t', ok) := Process(cfg, t, FirstFrame(data));
      assert Frames(data)[1..] == Frames(AfterFrame(data));
      TopLoopProcessesFrames(cfg, t', AfterFrame(data));
    }
  }

  ghost predicate Extends(t: Tables, t': Tables) {
    t.messages <= t'.messages && t.count <= t'.count
  }

  /** Processing only appends messages. */
  lemma {:induction false} ProcessExtends(cfg: Config, t: Tables, f: Frame)
    ensures Extends(t, Process(cfg, t, f).0)
    decreases |f.content|, 0
  {
    if f.op == OP_CHUNK {
      var r := DecodeChunk(cfg, f.content);
      if r.Some? {
        NestedExtends(cfg, t, r.value);
      }
    }
  }

  lemma {:induction false} NestedExtends(cfg: Config, t: Tables, data: Bytes)
    ensures Extends(t, ProcessNested(cfg, t, data).0)
    decreases |data|, 1
  {
    if HasFrame(data) {
      ProcessExtends(cfg, t, FirstFrame(data));
      var (t', ok) := Process(cfg, t, FirstFrame(data));
      if ok {
        NestedExtends(cfg, t', AfterFrame(data));
      }
    }
  }

  lemma {:induction false} ProcessAllExtends(cfg: Config, t: Tables, fs: seq<Frame>)
    ensures Extends(t, ProcessAll(cfg, t, fs))
    decreases |fs|
  {
    if fs != [] {
      ProcessExtends(cfg, t, fs[0]);
      ProcessAllExtends(cfg, Process(cfg, t, fs[0]).0, fs[1..]);
    }
  }

  lemma {:induction false} ProcessPrefix(cfg: Config, t: Tables, fs: seq<Frame>, k: nat)
    requires k <= |fs|
    ensures Extends(ProcessAll(cfg, t, fs[..k]), ProcessAll(cfg, t, fs))
    decreases |fs|
  {
    if k == 0 {
      ProcessAllExtends(cfg, t, fs);
    } else {
      assert fs[..k][1..] == fs[1..][..k - 1];
      ProcessPrefix(cfg, Process(cfg, t, fs[0]).0, fs[1..], k - 1);
    }
  }

  /**
   Cut any file, damaged or not, anywhere after the magic. What is recovered from the rest is what
   the wholly contained top-level records give, and its messages are a prefix of the full file's.
   */
  lemma TruncationRecoversPrefix(cfg: Config, file: Bytes, n: nat) returns (k: nat)
    requires MAGIC <= file && |MAGIC| <= n <= |file|
    ensures Recover(cfg, file).Some? && Recover(cfg, file[..n]).Some?
    ensures var fs := Frames(file[|MAGIC|..]);
            && k <= |fs| && Recover(cfg, file[..n]).value.tables == ProcessAll(cfg, EMPTY, fs[..k])
            && forall i :: 0 <= i <= |fs| ==> (FrameEnd(fs, i) <= n - |MAGIC| <==> i <= k)
    ensures Extends(Recover(cfg, file[..n]).value.tables, Recover(cfg, file).value.tables)
  {
    var cut, rest := file[..n], file[|MAGIC|..];
    assert MAGIC <= cut;
    assert cut[|MAGIC|..] == rest[..n - |MAGIC|];
    var fs := Frames(rest);
    FramesOfPrefix(rest, n - |MAGIC|);
    k := |Frames(rest[..n - |MAGIC|])|;
    assert Frames(rest[..n - |MAGIC|]) == fs[..k];
    TopLoopProcessesFrames(cfg, EMPTY, rest);
    TopLoopProcessesFrames(cfg, EMPTY, rest[..n - |MAGIC|]);
    ProcessPrefix(cfg, EMPTY, fs, k);
  }
}
