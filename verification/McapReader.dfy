/** The recovery reader as the program runs it: a buffer reader with an offset, and record loops over mutable tables. */
module McapReader {
  import opened Options
  import opened McapFormat
  import opened McapRecovery

  class BufferReader {
    const data: Bytes
    var offset: nat

    constructor (data: Bytes)
      ensures this.data == data && offset == 0
    {
      this.data, offset := data, 0;
    }

    method Take(size: int) returns (r: Option<Bytes>)
      modifies this
      ensures size < 0 ==> r == None && offset == old(offset)
      ensures size >= 0 ==>
                match TakeAt(data, old(offset), size)
                case None => r == None && offset == old(offset)
                case Some((b, next)) => r == Some(b) && offset == next
    {
      var end := offset + size;
      if size < 0 || end > |data| {
        return None;
      }
      r := Some(data[offset..end]);
      offset := end;
    }

    method Uint(k: nat) returns (r: Option<nat>)
      modifies this
      ensures match UintAt(data, old(offset), k)
              case None => r == None
              case Some((v, next)) => r == Some(v) && offset == next
    {
      var b := Take(k);
      if b.None? {
        return None;
      }
      return Some(FromLe(b.value));
    }

    method String() returns (r: Option<Bytes>)
      modifies this
      ensures match StringAt(data, old(offset))
              case None => r == None
              case Some((s, next)) => r == Some(s) && offset == next
    {
      var n := Uint(4);
      if n.None? {
        return None;
      }
      var s := Take(n.value);
      if s.None? || !IsUtf8(s.value) {
        return None;
      }
      return s;
    }

    method Bytes64() returns (r: Option<Bytes>)
      modifies this
      ensures match Bytes64At(data, old(offset))
              case None => r == None
              case Some((s, next)) => r == Some(s) && offset == next
    {
      var n := Uint(8);
      if n.None? {
        return None;
      }
      r := Take(n.value);
    }

    method RemainingBytes() returns (r: Option<Bytes>)
      requires offset <= |data|
      modifies this
      ensures r == Some(data[old(offset)..]) && offset == |data|
    {
      assert data[offset..|data|] == data[offset..];
      r := Take(|data| - offset);
    }
  }

  method ReadChunk(cfg: Config, content: Bytes) returns (r: Option<Bytes>)
    ensures r == DecodeChunk(cfg, content)
  {
    hide IsUtf8, FromLe;
    var reader := new BufferReader(content);
    var startNs := reader.Uint(8);
    if startNs.None? { return None; }
    var endNs := reader.Uint(8);
    if endNs.None? { return None; }
    var size := reader.Uint(8);
    if size.None? { return None; }
    var crc := reader.Uint(4);
    if crc.None? { return None; }
    var compression := reader.String();
    if compression.None? { return None; }
    var records := reader.Bytes64();
    if records.None? { return None; }
    if compression.value != [] { return None; }
    if |records.value| != size.value { return None; }
    if crc.value != 0 && cfg.crc32(records.value) != crc.value { return None; }
    return records;
  }

  method ReadSchema(content: Bytes) returns (r: Option<(nat, Bytes)>)
    ensures r == ParseSchema(content)
  {
    hide IsUtf8, FromLe;
    var reader := new BufferReader(content);
    var id := reader.Uint(2);
    if id.None? { return None; }
    var name := reader.String();
    if name.None? { return None; }
    return Some((id.value, name.value));
  }

  method ReadChannel(content: Bytes) returns (r: Option<(nat, nat, Bytes)>)
    ensures r == ParseChannel(content)
  {
    hide IsUtf8, FromLe;
    var reader := new BufferReader(content);
    var id := reader.Uint(2);
    if id.None? { return None; }
    var schema := reader.Uint(2);
    if schema.None? { return None; }
    var topic := reader.String();
    if topic.None? { return None; }
    var encoding := reader.String();
    if encoding.None? { return None; }
    return Some((id.value, schema.value, topic.value));
  }

  method ReadMessage(content: Bytes) returns (r: Option<(nat, nat, Bytes)>)
    ensures r == ParseMessage(content)
  {
    hide FromLe;
    var reader := new BufferReader(content);
    var channel := reader.Uint(2);
    if channel.None? { return None; }
    var sequence := reader.Uint(4);
    if sequence.None? { return None; }
    var receiveNs := reader.Uint(8);
    if receiveNs.None? { return None; }
    var publishNs := reader.Uint(8);
    if publishNs.None? { return None; }
    var rest := reader.RemainingBytes();
    return Some((channel.value, receiveNs.value, rest.value));
  }

  class Recovery {
    const cfg: Config
    var schemas: map<nat, Bytes>
    var channels: map<nat, (Bytes, nat)>
    var topicTypes: map<Bytes, Bytes>
    var messages: seq<Message>
    var messageCount: nat
    var startNs: Option<nat>
    var endNs: Option<nat>

    ghost function View(): Tables
      reads this
    {
      Tables(schemas, channels, topicTypes, messages, messageCount, startNs, endNs)
    }

    constructor (cfg: Config)
      ensures View() == EMPTY && this.cfg == cfg
    {
      this.cfg := cfg;
      schemas, channels, topicTypes, messages, messageCount, startNs, endNs := map[], map[], map[], [], 0, None, None;
    }

    method NoteTopicType(topic: Bytes, schema: nat)
      modifies this
      ensures View() == NoteType(old(View()), topic, schema)
    {
      if schema in schemas {
        topicTypes := topicTypes[topic := schemas[schema]];
      }
    }

    method RecordMessage(channel: nat, receiveNs: nat, data: Bytes)
      requires channel in channels
      modifies this
      ensures View() == AddMessage(cfg, old(View()), channel, receiveNs, data)
    {
      var topic, schema := channels[channel].0, channels[channel].1;
      NoteTopicType(topic, schema);
      messageCount := messageCount + 1;
      if startNs.None? || receiveNs < startNs.value {
        startNs := Some(receiveNs);
      }
      if endNs.None? || receiveNs > endNs.value {
        endNs := Some(receiveNs);
      }
      if topic in cfg.retained {
        messages := messages + [Message(topic, data, receiveNs)];
      }
    }

    /** Processes one record; false stands for the parse error raised, after which the tables keep their state. */
    method ProcessRecord(op: Byte, content: Bytes) returns (ok: bool)
      modifies this
      ensures (View(), ok) == Process(cfg, old(View()), Frame(op, content))
      decreases |content|, 0
    {
      hide ParseSchema, ParseChannel, ParseMessage, DecodeChunk, AddMessage;
      if op == OP_SCHEMA {
        var r := ReadSchema(content);
        if r.None? {
          return false;
        }
        schemas := schemas[r.value.0 := r.value.1];
      } else if op == OP_CHANNEL {
        var r := ReadChannel(content);
        if r.None? {
          return false;
        }
        channels := channels[r.value.0 := (r.value.2, r.value.1)];
        NoteTopicType(r.value.2, r.value.1);
      } else if op == OP_MESSAGE {
        var r := ReadMessage(content);
        if r.None? || r.value.0 !in channels {
          return false;
        }
        RecordMessage(r.value.0, r.value.1, r.value.2);
      } else if op == OP_CHUNK {
        var r := ReadChunk(cfg, content);
        if r.None? {
          return false;
        }
        ok := ProcessNestedRecords(r.value);
        return;
      }
      return true;
    }

    /** The loop over the records inside a chunk. */
    method ProcessNestedRecords(data: Bytes) returns (ok: bool)
      modifies this
      ensures (View(), ok) == ProcessNested(cfg, old(View()), data)
      decreases |data|, 1
    {
      hide FromLe, Process;
      var offset := 0;
      assert data[0..] == data;
      while offset < |data|
        invariant offset <= |data|
        invariant ProcessNested(cfg, View(), data[offset..]) == ProcessNested(cfg, old(View()), data)
      {
        var rest := data[offset..];
        if |data| - offset < 9 {
          return false;
        }
        var op, length := rest[0], FromLe(rest[1..9]);
        if offset + 9 + length > |data| {
          return false;
        }
        assert FirstFrame(rest) == Frame(op, rest[9..9 + length]);
        var good := ProcessRecord(op, rest[9..9 + length]);
        if !good {
          return false;
        }
        assert AfterFrame(rest) == data[offset + 9 + length..];
        offset := offset + 9 + length;
      }
      return true;
    }

    /** The top-level loop: reads framed records until the stream ends, a record is cut or malformed, or the footer. */
    method RecoverRecords(data: Bytes) returns (stop: Stop)
      modifies this
      ensures (View(), stop) == TopLoop(cfg, old(View()), data)
    {
      hide FromLe, Process;
      var offset := 0;
      assert data[0..] == data;
      while offset < |data|
        invariant offset <= |data|
        invariant TopLoop(cfg, View(), data[offset..]) == TopLoop(cfg, old(View()), data)
      {
        var rest := data[offset..];
        if |rest| < 9 {
          return TruncatedHeader;
        }
        var op, length := rest[0], FromLe(rest[1..9]);
        if 9 + length > |rest| {
          return TruncatedRecord;
        }
        assert FirstFrame(rest) == Frame(op, rest[9..9 + length]);
        var good := ProcessRecord(op, rest[9..9 + length]);
        if !good {
          return Malformed;
        }
        if op == OP_FOOTER {
          return FooterSeen;
        }
        assert AfterFrame(rest) == data[offset + 9 + length..];
        offset := offset + 9 + length;
      }
      return CleanEnd;
    }
  }

  /** Recovers one file; None is the exception for a missing magic. */
  method RecoverFile(cfg: Config, file: Bytes) returns (r: Option<Recovered>)
    ensures r == Recover(cfg, file)
  {
    if |file| < |MAGIC| || file[..|MAGIC|] != MAGIC {
      return None;
    }
    assert file == MAGIC + file[|MAGIC|..];
    var recovery := new Recovery(cfg);
    var stop := recovery.RecoverRecords(file[|MAGIC|..]);
    var tables := Tables(recovery.schemas, recovery.channels, recovery.topicTypes, recovery.messages,
                         recovery.messageCount, recovery.startNs, recovery.endNs);
    return Some(Recovered(tables, stop, stop != FooterSeen || !ClosingMagic(file)));
  }
}
