/**
 What the recovered tables say of a file, in terms of its flat list of records: which messages are
 kept with what content, how many there were, and which span of receive times they cover.
 */
module McapContents {
  import opened Options
  import opened McapFormat
  import opened McapRecovery
  import opened McapRoundTrip

  ghost predicate Flat(rs: seq<Record>) {
    forall i :: 0 <= i < |rs| ==> !rs[i].Chunk?
  }

  /** The topic that the latest channel record before position `n` gives to channel `id`. */
  ghost function TopicBefore(rs: seq<Record>, n: nat, id: nat): Option<Bytes>
    requires n <= |rs|
  {
    if n == 0 then None
    else if rs[n - 1].Channel? && rs[n - 1].id == id then Some(rs[n - 1].topic)
    else TopicBefore(rs, n - 1, id)
  }

  /** A message on a channel that a record before it declares. */
  ghost predicate OnChannel(rs: seq<Record>, i: nat)
    requires i < |rs|
  {
    rs[i].Msg? && TopicBefore(rs, i, rs[i].channel).Some?
  }

  ghost predicate IsKept(cfg: Config, rs: seq<Record>, i: nat)
    requires i < |rs|
  {
    OnChannel(rs, i) && TopicBefore(rs, i, rs[i].channel).value in cfg.retained
  }

  ghost function Read(cfg: Config, rs: seq<Record>, n: nat): (Tables, bool)
    requires n <= |rs|
  {
    ApplyNested(cfg, EMPTY, rs[..n])
  }

  lemma ReadOneMore(cfg: Config, rs: seq<Record>, n: nat)
    requires n < |rs|
    ensures Read(cfg, rs, n + 1) ==
            if Read(cfg, rs, n).1 then Apply(cfg, Read(cfg, rs, n).0, rs[n]) else (Read(cfg, rs, n).0, false)
    ensures Read(cfg, rs, 0) == (EMPTY, true)
  {
    assert rs[..n + 1] == rs[..n] + [rs[n]];
    ApplyAppend(cfg, EMPTY, rs[..n], [rs[n]]);
    var t := Read(cfg, rs, n).0;
    assert ApplyNested(cfg, t, [rs[n]]) == Apply(cfg, t, rs[n]) by {
      assert [rs[n]][1..] == [];
    }
  }

  /** A channel is known exactly when a record before declared it, with the latest topic; reading goes on exactly that far. */
  lemma {:induction false} KnownChannels(cfg: Config, rs: seq<Record>, n: nat)
    requires Flat(rs) && n <= |rs|
    ensures Read(cfg, rs, n).1 <==> forall i: nat :: i < n && rs[i].Msg? ==> OnChannel(rs, i)
    ensures Read(cfg, rs, n).1 ==>
              forall id: nat :: (id in Read(cfg, rs, n).0.channels <==> TopicBefore(rs, n, id).Some?) &&
                (id in Read(cfg, rs, n).0.channels ==> TopicBefore(rs, n, id) == Some(Read(cfg, rs, n).0.channels[id].0))
  {
    if n == 0 {
      assert rs[..0] == [];
    } else {
      KnownChannels(cfg, rs, n - 1);
      ReadOneMore(cfg, rs, n - 1);
      hide Read;
    }
  }

  /** The messages kept are exactly those on retained topics, with their topic, data and time, in order. */
  lemma {:induction false} MessagesAre(cfg: Config, rs: seq<Record>, n: nat) returns (from: seq<nat>)
    requires Flat(rs) && n <= |rs| && Read(cfg, rs, n).1
    ensures var t := Read(cfg, rs, n).0;
            && |from| == |t.messages|
            && (forall k :: 0 <= k < |from| ==> from[k] < n)
            && (forall k :: 0 <= k < |from| ==> OnChannel(rs, from[k]))
            && (forall k :: 0 <= k < |from| ==>
                  t.messages[k] == Message(TopicBefore(rs, from[k], rs[from[k]].channel).value, rs[from[k]].data, rs[from[k]].logTime))
            && (forall k, l :: 0 <= k < l < |from| ==> from[k] < from[l])
    ensures forall i: nat :: i in from <==> i < n && IsKept(cfg, rs, i)
  {
    if n == 0 {
      assert rs[..0] == [];
      from := [];
    } else {
      var last: nat := n - 1;
      ReadOneMore(cfg, rs, last);
      KnownChannels(cfg, rs, last);
      from := MessagesAre(cfg, rs, last);
      hide Read;
      if IsKept(cfg, rs, last) {
        from := from + [last];
      }
    }
  }

  ghost function MessagesIn(rs: seq<Record>, n: nat): set<nat>
    requires n <= |rs|
  {
    set i: nat | i < n && rs[i].Msg?
  }

  lemma OneMoreMessage(rs: seq<Record>, n: nat)
    requires n < |rs|
    ensures |MessagesIn(rs, n + 1)| == |MessagesIn(rs, n)| + if rs[n].Msg? then 1 else 0
  {
    assert MessagesIn(rs, n + 1) == MessagesIn(rs, n) + if rs[n].Msg? then {n} else {};
  }

  /** The count is that of all messages, kept or not. */
  lemma {:induction false} CountIs(cfg: Config, rs: seq<Record>, n: nat)
    requires Flat(rs) && n <= |rs| && Read(cfg, rs, n).1
    ensures Read(cfg, rs, n).0.count == |MessagesIn(rs, n)|
  {
    if n == 0 {
      assert rs[..0] == [];
    } else {
      var last: nat := n - 1;
      ReadOneMore(cfg, rs, last);
      CountIs(cfg, rs, last);
      OneMoreMessage(rs, last);
      hide Read, MessagesIn;
    }
  }

  /** Start and end are the least and the greatest receive time, of all messages; there is none without a message. */
  ghost predicate Spans(rs: seq<Record>, n: nat, start: Option<nat>, end: Option<nat>)
    requires n <= |rs|
  {
    && (start.Some? <==> exists i :: 0 <= i < n && rs[i].Msg?)
    && (end.Some? <==> exists i :: 0 <= i < n && rs[i].Msg?)
    && (start.Some? ==> exists i :: 0 <= i < n && rs[i].Msg? && rs[i].logTime == start.value)
    && (end.Some? ==> exists i :: 0 <= i < n && rs[i].Msg? && rs[i].logTime == end.value)
    && (start.Some? && end.Some? ==> forall i :: 0 <= i < n && rs[i].Msg? ==> start.value <= rs[i].logTime <= end.value)
  }

  lemma {:induction false} SpanIs(cfg: Config, rs: seq<Record>, n: nat)
    requires Flat(rs) && n <= |rs| && Read(cfg, rs, n).1
    ensures Spans(rs, n, Read(cfg, rs, n).0.startNs, Read(cfg, rs, n).0.endNs)
  {
    if n == 0 {
      assert rs[..0] == [];
    } else {
      var last: nat := n - 1;
      ReadOneMore(cfg, rs, last);
      SpanIs(cfg, rs, last);
      var t, t' := Read(cfg, rs, last).0, Read(cfg, rs, n).0;
      hide Read;
      if rs[last].Msg? {
        assert t'.startNs == MinOf(t.startNs, rs[last].logTime) && t'.endNs == MaxOf(t.endNs, rs[last].logTime);
      }
    }
  }

  // ---- files

  lemma {:induction false} FileIsNested(cfg: Config, t: Tables, rs: seq<Record>)
    requires ApplyNested(cfg, t, rs).1 && forall i :: 0 <= i < |rs| - 1 ==> Encode(rs[i]).op != OP_FOOTER
    ensures ApplyFile(cfg, t, rs) == ApplyNested(cfg, t, rs).0
    decreases |rs|
  {
    if rs != [] {
      forall i | 0 <= i < |rs[1..]| - 1
        ensures Encode(rs[1..][i]).op != OP_FOOTER
      {
        assert rs[1..][i] == rs[i + 1];
      }
      FileIsNested(cfg, Apply(cfg, t, rs[0]).0, rs[1..]);
    }
  }

  lemma {:induction false} LeavesAreFlat(rs: seq<Record>)
    ensures Flat(Leaves(rs))
    decreases rs, 1
  {
    if rs != [] {
      if rs[0].Chunk? {
        LeavesAreFlat(rs[0].records);
      }
      LeavesAreFlat(rs[1..]);
    }
  }

  /**
   A serialised file whose messages are on declared channels, and whose footer, if any, comes last:
   what is recovered from its bytes, however the records are grouped into chunks.
   */
  lemma RecoveredContents(cfg: Config, rs: seq<Record>) returns (from: seq<nat>)
    requires AllWellFormed(cfg, rs) && forall i :: 0 <= i < |rs| - 1 ==> Encode(rs[i]).op != OP_FOOTER
    requires forall i: nat :: i < |Leaves(rs)| && Leaves(rs)[i].Msg? ==> OnChannel(Leaves(rs), i)
    ensures Recover(cfg, FileBytes(rs)).Some?
    ensures var t, all := Recover(cfg, FileBytes(rs)).value.tables, Leaves(rs);
            && |from| == |t.messages|
            && (forall k :: 0 <= k < |from| ==> from[k] < |all|)
            && (forall k :: 0 <= k < |from| ==> OnChannel(all, from[k]))
            && (forall k :: 0 <= k < |from| ==>
                  t.messages[k] == Message(TopicBefore(all, from[k], all[from[k]].channel).value, all[from[k]].data, all[from[k]].logTime))
            && (forall k, l :: 0 <= k < l < |from| ==> from[k] < from[l])
            && (forall i: nat :: i in from <==> i < |all| && IsKept(cfg, all, i))
            && t.count == |MessagesIn(all, |all|)|
            && Spans(all, |all|, t.startNs, t.endNs)
  {
    var all := Leaves(rs);
    LeavesAreFlat(rs);
    assert all[..|all|] == all;
    KnownChannels(cfg, all, |all|);
    ChunksAreTransparent(cfg, EMPTY, rs);
    FileIsNested(cfg, EMPTY, rs);
    RecoverEncoded(cfg, rs);
    assert Recover(cfg, FileBytes(rs)).value.tables == Read(cfg, all, |all|).0;
    CountIs(cfg, all, |all|);
    SpanIs(cfg, all, |all|);
    from := MessagesAre(cfg, all, |all|);
  }
}
