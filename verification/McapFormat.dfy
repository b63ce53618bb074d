/**
 The byte level of MCAP as the recovery reader sees it: little-endian integers, length-prefixed
 strings, and framed records (one opcode byte, an eight-byte length, the content).
 */
module McapFormat {
  import opened Options

  type Byte = x: int | 0 <= x < 256
  type Bytes = seq<Byte>

  const MAGIC: Bytes := [0x89, 0x4D, 0x43, 0x41, 0x50, 0x30, 0x0D, 0x0A]
  const OP_FOOTER: Byte := 0x02
  const OP_SCHEMA: Byte := 0x03
  const OP_CHANNEL: Byte := 0x04
  const OP_MESSAGE: Byte := 0x05
  const OP_CHUNK: Byte := 0x06

  // ---- integers

  function Pow256(k: nat): nat {
    if k == 0 then 1 else 256 * Pow256(k - 1)
  }

  function ToLe(v: nat, k: nat): (b: Bytes)
    ensures |b| == k
  {
    if k == 0 then [] else [v % 256] + ToLe(v / 256, k - 1)
  }

  function FromLe(b: Bytes): nat {
    if b == [] then 0 else b[0] + 256 * FromLe(b[1..])
  }

  lemma {:induction false} LeRoundTrip(v: nat, k: nat)
    requires v < Pow256(k)
    ensures FromLe(ToLe(v, k)) == v
  {
    if k > 0 {
      LeRoundTrip(v / 256, k - 1);
      assert ToLe(v, k)[1..] == ToLe(v / 256, k - 1);
    }
  }

  lemma {:induction false} LeBounded(b: Bytes)
    ensures FromLe(b) < Pow256(|b|)
  {
    if b != [] {
      LeBounded(b[1..]);
    }
  }

  // ---- strict UTF-8

  predicate Cont(b: Byte) { 0x80 <= b <= 0xBF }

  /** Length of the well-formed UTF-8 sequence at the front, 0 if there is none. */
  function Utf8Unit(s: Bytes): nat
    requires |s| > 0
    ensures Utf8Unit(s) <= |s|
  {
    var a := s[0];
    if a < 0x80 then 1
    else if 0xC2 <= a <= 0xDF && |s| >= 2 && Cont(s[1]) then 2
    else if |s| >= 3 && Cont(s[1]) && Cont(s[2]) &&
            ((a == 0xE0 && s[1] >= 0xA0) || (0xE1 <= a <= 0xEF && a != 0xED) || (a == 0xED && s[1] <= 0x9F)) then 3
    else if |s| >= 4 && Cont(s[1]) && Cont(s[2]) && Cont(s[3]) &&
            ((a == 0xF0 && s[1] >= 0x90) || 0xF1 <= a <= 0xF3 || (a == 0xF4 && s[1] <= 0x8F)) then 4
    else 0
  }

  predicate IsUtf8(s: Bytes) {
    s == [] || (Utf8Unit(s) > 0 && IsUtf8(s[Utf8Unit(s)..]))
  }

  // ---- reading fields at an offset

  function TakeAt(data: Bytes, at: nat, n: nat): Option<(Bytes, nat)> {
    if at + n > |data| then None else Some((data[at..at + n], at + n))
  }

  function UintAt(data: Bytes, at: nat, k: nat): Option<(nat, nat)> {
    var (b, next) :- TakeAt(data, at, k);
    Some((FromLe(b), next))
  }

  function StringAt(data: Bytes, at: nat): Option<(Bytes, nat)> {
    var (n, next) :- UintAt(data, at, 4);
    var (s, next) :- TakeAt(data, next, n);
    if IsUtf8(s) then Some((s, next)) else None
  }

  function Bytes64At(data: Bytes, at: nat): Option<(Bytes, nat)> {
    var (n, next) :- UintAt(data, at, 8);
    TakeAt(data, next, n)
  }

  // ---- framed records

  datatype Frame = Frame(op: Byte, content: Bytes)

  function FrameBytes(f: Frame): Bytes {
    [f.op] + ToLe(|f.content|, 8) + f.content
  }

  /** Length of the first frame when the bytes hold all of it. */
  predicate HasFrame(data: Bytes) {
    |data| >= 9 && 9 + FromLe(data[1..9]) <= |data|
  }

  function FirstFrame(data: Bytes): Frame
    requires HasFrame(data)
  {
    Frame(data[0], data[9..9 + FromLe(data[1..9])])
  }

  function AfterFrame(data: Bytes): (rest: Bytes)
    requires HasFrame(data)
    ensures |rest| < |data|
  {
    data[9 + FromLe(data[1..9])..]
  }

  /** The complete frames at the front of the bytes. */
  function Frames(data: Bytes): seq<Frame>
    decreases |data|
  {
    if HasFrame(data) then [FirstFrame(data)] + Frames(AfterFrame(data)) else []
  }

  /** How many bytes the first `i` frames take. */
  function FrameEnd(fs: seq<Frame>, i: nat): nat
    requires i <= |fs|
  {
    if i == 0 then 0 else 9 + |fs[0].content| + FrameEnd(fs[1..], i - 1)
  }

  lemma FrameRoundTrip(f: Frame, tail: Bytes)
    requires |f.content| < Pow256(8)
    ensures HasFrame(FrameBytes(f) + tail) && FirstFrame(FrameBytes(f) + tail) == f && AfterFrame(FrameBytes(f) + tail) == tail
  {
    var d := FrameBytes(f) + tail;
    LeRoundTrip(|f.content|, 8);
    assert d[1..9] == ToLe(|f.content|, 8);
    assert d[9..9 + |f.content|] == f.content;
    assert d[9 + |f.content|..] == tail;
  }

  ghost predicate Fits(fs: seq<Frame>) {
    forall i :: 0 <= i < |fs| ==> |fs[i].content| < Pow256(8)
  }

  function AllFrameBytes(fs: seq<Frame>): Bytes {
    if fs == [] then [] else FrameBytes(fs[0]) + AllFrameBytes(fs[1..])
  }

  /** Reading back serialised frames yields those frames. */
  lemma {:induction false} FramesRoundTrip(fs: seq<Frame>)
    requires Fits(fs)
    ensures Frames(AllFrameBytes(fs)) == fs
  {
    if fs != [] {
      FrameRoundTrip(fs[0], AllFrameBytes(fs[1..]));
      FramesRoundTrip(fs[1..]);
    }
  }

  lemma HeaderOfPrefix(data: Bytes, n: nat)
    requires 9 <= n <= |data|
    ensures data[..n][1..9] == data[1..9] && data[..n][0] == data[0]
  {
  }

  /**
   Cutting any bytes anywhere keeps exactly the frames that lie wholly before the cut:
   the frames of the prefix are the longest run of frames ending at or before it.
   */
  lemma {:induction false} FramesOfPrefix(data: Bytes, n: nat)
    requires n <= |data|
    ensures Frames(data[..n]) <= Frames(data)
    ensures forall i :: 0 <= i <= |Frames(data)| ==> (FrameEnd(Frames(data), i) <= n <==> i <= |Frames(data[..n])|)
    decreases |data|
  {
    var cut, fs := data[..n], Frames(data);
    if HasFrame(cut) {
      HeaderOfPrefix(data, n);
      var len := 9 + FromLe(data[1..9]);
      assert AfterFrame(cut) == AfterFrame(data)[..n - len];
      assert FirstFrame(cut) == FirstFrame(data);
      FramesOfPrefix(AfterFrame(data), n - len);
      assert fs[1..] == Frames(AfterFrame(data)) && Frames(cut)[1..] == Frames(AfterFrame(cut));
    } else {
      if fs != [] && n >= 9 {
        HeaderOfPrefix(data, n);
      }
      forall i | 0 < i <= |fs|
        ensures FrameEnd(fs, i) > n
      {
        FrameEndMonotone(fs, 1, i);
        assert FrameEnd(fs[1..], 0) == 0;
      }
    }
  }

  lemma {:induction false} FrameEndMonotone(fs: seq<Frame>, i: nat, j: nat)
    requires i <= j <= |fs|
    ensures FrameEnd(fs, i) <= FrameEnd(fs, j)
  {
    if i > 0 {
      FrameEndMonotone(fs[1..], i - 1, j - 1);
    }
  }
}
