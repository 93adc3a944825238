/** The audio capture ring buffers: `AudioFilterStream` (fed by the native
    audio callback) and `AudioRecordTool` (fed by Unity's audio filter). Both
    keep a byte array of bounded capacity with a read and a write index;
    `Write` appends at the write index, wrapping once around the end, and
    `Flush` hands out everything between the read and the write index in ring
    order and then catches the read index up. */
module AudioRing {
  import opened Wrappers
  import CSharp
  import opened Bytes

  /** `MaxBufferSize`: 2048 * 20 bytes. */
  const MaxBufferSize: int := 40960

  /** What a C# call in this module can throw. */
  datatype Fault =
    | ArgumentNull        // `lock` on a buffer that was never allocated
    | ArgumentError       // `Array.Copy` past the end of the destination
    | DivideByZero        // integer division by a zero channel count
    | Overflow            // `new T[n]` with a negative length
    | IndexOutOfRange     // reading past the end of the sample array

  /** The buffer (null until the first callback), the read index and the
      write index. */
  datatype Ring = Ring(buffer: Option<seq<Byte>>, readIndex: int, writeIndex: int)

  function Capacity(s: Ring): nat {
    if s.buffer.Some? then |s.buffer.value| else 0
  }

  /** Both indices lie inside the buffer; without a buffer both are zero. */
  predicate Valid(s: Ring) {
    match s.buffer
    case None => s.readIndex == 0 && s.writeIndex == 0
    case Some(b) => 0 <= s.readIndex <= |b| && 0 <= s.writeIndex <= |b|
  }

  /** The bytes written but not yet flushed, in ring order: from the read index
      up to the write index, wrapping around the end when the write index is
      behind. */
  function Pending(s: Ring): (p: seq<Byte>)
    requires Valid(s)
  {
    match s.buffer
    case None => []
    case Some(b) =>
      if s.readIndex <= s.writeIndex then b[s.readIndex..s.writeIndex]
      else b[s.readIndex..] + b[..s.writeIndex]
  }

  /** A fresh stream: no buffer, both indices at zero. */
  function NewStream(): (s: Ring)
    ensures Valid(s) && Pending(s) == []
    ensures s.readIndex == 0 && s.writeIndex == 0
  {
    Ring(None, 0, 0)
  }

  /** `Dispose` rewinds both indices and keeps the buffer. */
  function Dispose(s: Ring): (t: Ring)
    requires Valid(s)
    ensures Valid(t) && Pending(t) == []
    ensures t.buffer == s.buffer && t.readIndex == 0 && t.writeIndex == 0
  {
    Ring(s.buffer, 0, 0)
  }

  /** The length of the array `InitBuffer(len)` allocates. */
  function InitCapacity(len: nat): (c: nat)
    ensures c <= MaxBufferSize
    ensures c == len || c == MaxBufferSize
    ensures len <= MaxBufferSize <==> c == len
  {
    if len <= MaxBufferSize then len else MaxBufferSize
  }

  /** `InitBuffer`: a zeroed array of the capped length; the indices are left
      alone. */
  function InitBuffer(s: Ring, len: nat): (t: Ring)
    requires s.buffer.None? && Valid(s)
    ensures Valid(t) && t.buffer.Some? && Capacity(t) == InitCapacity(len)
    ensures t.readIndex == s.readIndex && t.writeIndex == s.writeIndex
    ensures Pending(t) == []
  {
    Ring(Some(seq(InitCapacity(len), _ => 0)), s.readIndex, s.writeIndex)
  }

  /** `buf` with `src` copied over it at offset `at`. */
  function Blit(buf: seq<Byte>, at: nat, src: seq<Byte>): (r: seq<Byte>)
    requires at + |src| <= |buf|
    ensures |r| == |buf|
    ensures r[at..at + |src|] == src
    ensures forall i :: 0 <= i < |buf| && !(at <= i < at + |src|) ==> r[i] == buf[i]
  {
    buf[..at] + src + buf[at + |src|..]
  }

  /** The state after a `Write`, and whether it threw part way. */
  datatype WriteOutcome = Written(ring: Ring) | Threw(ring: Ring, fault: Fault)

  /** `Write(byte[])`. Without a buffer the `lock` throws. When the bytes fit
      before the end they are copied at the write index. Otherwise the first
      `left = cap - w` bytes fill the tail, the write index restarts at 0 and
      the rest is copied at the front; if the rest is longer than the whole
      buffer that second copy throws, leaving the tail written and the write
      index at 0. The read index is never consulted, so unread bytes can be
      overwritten. */
  function Write(s: Ring, data: seq<Byte>): (o: WriteOutcome)
    requires Valid(s)
    ensures Valid(o.ring)
    ensures o.ring.readIndex == s.readIndex
    ensures o.ring.buffer.Some? <==> s.buffer.Some?
    ensures Capacity(o.ring) == Capacity(s)
    ensures s.buffer.None? ==> o == Threw(s, ArgumentNull)
    ensures s.buffer.Some? && s.writeIndex + |data| <= Capacity(s) ==>
      && o.Written?
      && o.ring.writeIndex == s.writeIndex + |data|
      && o.ring.buffer.value[s.writeIndex..o.ring.writeIndex] == data
    ensures s.buffer.Some? && s.writeIndex + |data| > Capacity(s) ==>
      var left := Capacity(s) - s.writeIndex;
      && (o.Threw? || |data| - left <= s.writeIndex ==>
            o.ring.buffer.value[s.writeIndex..] == data[..left])
      && (o.Written? <==> |data| - left <= Capacity(s))
      && (o.Written? ==> o.ring.writeIndex == |data| - left
                         && o.ring.buffer.value[..o.ring.writeIndex] == data[left..])
      && (o.Threw? ==> o.fault == ArgumentError && o.ring.writeIndex == 0)
  {
    match s.buffer
    case None => Threw(s, ArgumentNull)
    case Some(b) =>
      var w := s.writeIndex;
      if w + |data| <= |b| then
        Written(Ring(Some(Blit(b, w, data)), s.readIndex, w + |data|))
      else
        var left := |b| - w;
        var tail := Blit(b, w, data[..left]);
        if |data| - left <= |b| then
          Written(Ring(Some(Blit(tail, 0, data[left..])), s.readIndex, |data| - left))
        else
          Threw(Ring(Some(tail), s.readIndex, 0), ArgumentError)
  }

  /** Writing data that fits in the free space appends it to the pending
      bytes: the ring behaves as a FIFO queue as long as the reader keeps up.
      Filling the ring exactly would make the write index meet the read index
      and lose everything, hence the strict bound. */
  lemma WriteAppendsToPending(s: Ring, data: seq<Byte>)
    requires Valid(s) && s.buffer.Some?
    requires |Pending(s)| + |data| < Capacity(s)
    ensures Write(s, data).Written?
    ensures Pending(Write(s, data).ring) == Pending(s) + data
  {
    var b := s.buffer.value;
    var r, w := s.readIndex, s.writeIndex;
    if w + |data| <= |b| {
      var b' := Blit(b, w, data);
      assert Write(s, data) == Written(Ring(Some(b'), r, w + |data|));
      if r <= w {
        AppendInPlaceAhead(b, r, w, data);
      } else {
        AppendInPlaceBehind(b, r, w, data);
      }
    } else {
      var left := |b| - w;
      var b' := Blit(Blit(b, w, data[..left]), 0, data[left..]);
      assert Write(s, data) == Written(Ring(Some(b'), r, |data| - left));
      AppendAcrossEnd(b, r, w, data);
    }
  }

  /** Non-wrapping write with the reader at or behind the writer. */
  lemma AppendInPlaceAhead(b: seq<Byte>, r: nat, w: nat, data: seq<Byte>)
    requires r <= w && w + |data| <= |b|
    ensures Blit(b, w, data)[r..w + |data|] == b[r..w] + data
  {
    var b' := Blit(b, w, data);
    assert b'[r..w + |data|] == b'[r..w] + b'[w..w + |data|];
    assert b'[r..w] == b[r..w];
  }

  /** Non-wrapping write that stays short of a reader ahead of the writer. */
  lemma AppendInPlaceBehind(b: seq<Byte>, r: nat, w: nat, data: seq<Byte>)
    requires w + |data| < r <= |b|
    ensures Blit(b, w, data)[r..] + Blit(b, w, data)[..w + |data|] == b[r..] + b[..w] + data
  {
    var b' := Blit(b, w, data);
    assert b'[r..] == b[r..];
    assert b'[..w + |data|] == b'[..w] + b'[w..w + |data|];
    assert b'[..w] == b[..w];
  }

  /** Copying over the front of a buffer leaves everything from `r` on. */
  lemma BlitFront(tail: seq<Byte>, r: nat, src: seq<Byte>)
    requires |src| < r <= |tail|
    ensures Blit(tail, 0, src)[r..] == tail[r..]
    ensures Blit(tail, 0, src)[..|src|] == src
  {
    var b' := Blit(tail, 0, src);
    assert b'[..|src|] == b'[0..|src|];
  }

  /** Filling the end of a buffer from `w` appends to what lies in `[r, w)`. */
  lemma BlitEnd(b: seq<Byte>, r: nat, w: nat, src: seq<Byte>)
    requires r <= w && w + |src| == |b|
    ensures Blit(b, w, src)[r..] == b[r..w] + src
  {
    var t := Blit(b, w, src);
    assert t[w..] == t[w..w + |src|];
    assert t[r..w] == b[r..w];
    assert t[r..] == t[r..w] + t[w..];
  }

  /** Wrapping write whose front part stays short of the reader. */
  lemma AppendAcrossEnd(b: seq<Byte>, r: nat, w: nat, data: seq<Byte>)
    requires r <= w <= |b| < w + |data|
    requires |data| - (|b| - w) < r
    ensures var left := |b| - w;
      var b' := Blit(Blit(b, w, data[..left]), 0, data[left..]);
      b'[r..] + b'[..|data| - left] == b[r..w] + data
  {
    var left := |b| - w;
    var tail := Blit(b, w, data[..left]);
    var front, back := data[..left], data[left..];
    BlitEnd(b, r, w, front);
    BlitFront(tail, r, back);
    JoinParts(b[r..w], front, back, data);
  }

  /** Appending the two halves of `data` one after the other appends `data`. */
  lemma JoinParts(x: seq<Byte>, front: seq<Byte>, back: seq<Byte>, data: seq<Byte>)
    requires data == front + back
    ensures (x + front) + back == x + data
  {
  }

  /** `Flush(ref outBytes)`. Nothing to hand out (no buffer, or read = write):
      returns false and leaves `outBytes` as it was. Otherwise hands out
      `w - r` bytes when r < w, else `(cap - r) + w` bytes, copying in ring
      order, and sets the read index to the write index. */
  method Flush(s: Ring, outBytes: Option<seq<Byte>>) returns (ok: bool, out: Option<seq<Byte>>, t: Ring)
    requires Valid(s)
    ensures Valid(t)
    ensures !ok <==> s.buffer.None? || s.readIndex == s.writeIndex
    ensures !ok ==> out == outBytes && t == s
    ensures ok ==> out == Some(Pending(s))
    ensures ok ==> |out.value| == (if s.readIndex < s.writeIndex then s.writeIndex - s.readIndex
                                   else Capacity(s) - s.readIndex + s.writeIndex)
    ensures ok ==> t.buffer == s.buffer && t.readIndex == s.writeIndex && t.writeIndex == s.writeIndex
    ensures Pending(t) == []
  {
    if s.buffer.None? || s.readIndex == s.writeIndex {
      return false, outBytes, s;
    }
    var b := s.buffer.value;
    var r, w := s.readIndex, s.writeIndex;
    var count := if r < w then w - r else |b| - r + w;
    var acc: seq<Byte> := [];
    var k := 0;
    while k < count
      invariant 0 <= k <= count
      invariant |acc| == k
      invariant forall j :: 0 <= j < k ==> acc[j] == b[if r + j < |b| then r + j else r + j - |b|]
    {
      var at := if r + k < |b| then r + k else r + k - |b|;
      acc := acc + [b[at]];
      k := k + 1;
    }
    assert acc == Pending(s) by {
      var p := Pending(s);
      assert |p| == count;
      forall j | 0 <= j < count ensures acc[j] == p[j] {
        if r > w && r + j >= |b| {
          assert p[j] == b[..w][r + j - |b|];
        }
      }
    }
    ok, out, t := true, Some(acc), Ring(s.buffer, w, w);
  }

  /** `AudioFilterStream.OnAudioDataRead(ptr, size)`. `memory` stands for the
      native bytes at `ptr`. The first call allocates `size * 10` (a `uint`
      product, so it wraps modulo 2^32) capped at 40960; then `Write(ptr,
      (int)size)` copies the bytes, unless the pointer is zero or the size,
      read as a signed `int`, is not positive. */
  function OnAudioDataRead(s: Ring, ptrIsZero: bool, memory: seq<Byte>, size: int): (o: WriteOutcome)
    requires Valid(s) && CSharp.IsUInt32(size)
    requires CSharp.ToInt32(size) <= |memory|
    ensures Valid(o.ring)
    ensures s.buffer.None? ==> Capacity(o.ring) == InitCapacity(CSharp.ToUInt32(size * 10))
    ensures s.buffer.Some? ==> o.ring.buffer.Some? && Capacity(o.ring) == Capacity(s)
    ensures (ptrIsZero || CSharp.ToInt32(size) <= 0) ==>
      o.Written? && o.ring.readIndex == s.readIndex && o.ring.writeIndex == s.writeIndex
  {
    var s1 := if s.buffer.None? then InitBuffer(s, CSharp.ToUInt32(size * 10)) else s;
    var n := CSharp.ToInt32(size);
    if ptrIsZero || n <= 0 then Written(s1)
    else Write(s1, memory[..n])
  }

  /** With room to spare, a callback of a positive size appends exactly those
      bytes to what is pending. */
  lemma OnAudioDataReadAppends(s: Ring, memory: seq<Byte>, size: int)
    requires Valid(s) && s.buffer.Some? && CSharp.IsUInt32(size)
    requires 0 < size <= |memory| && size < CSharp.TwoTo31
    requires |Pending(s)| + size < Capacity(s)
    ensures OnAudioDataRead(s, false, memory, size).Written?
    ensures Pending(OnAudioDataRead(s, false, memory, size).ring) == Pending(s) + memory[..size]
  {
    WriteAppendsToPending(s, memory[..size]);
  }

  // ---------------------------------------------------------------------
  // AudioRecordTool: the same ring behind a recording flag, fed with
  // interleaved float samples that are reduced to one 16-bit channel.

  /** The component's state: its ring and whether it is recording. */
  datatype Recorder = Recorder(ring: Ring, recording: bool)

  /** The state after a callback, and what it threw, if anything. */
  datatype RecorderOutcome = Updated(rec: Recorder) | Raised(rec: Recorder, fault: Fault)

  /** After `Awake`: no buffer, indices at zero, not recording. */
  function NewRecorder(): (m: Recorder)
    ensures Valid(m.ring) && !m.recording
    ensures m.ring.readIndex == 0 && m.ring.writeIndex == 0
  {
    Recorder(NewStream(), false)
  }

  function StartRecord(m: Recorder): (m': Recorder)
    ensures m'.recording && m'.ring == m.ring
  {
    m.(recording := true)
  }

  function StopRecord(m: Recorder): (m': Recorder)
    ensures !m'.recording && m'.ring == m.ring
  {
    m.(recording := false)
  }

  /** C# `(Int16)(x * 32767)`: truncation toward zero, then the low 16 bits
      read as a signed value (the float rounding itself is not modelled). */
  function SampleToInt16(x: real): (v: int)
    ensures -32768 <= v < 32768
  {
    var y := x * 32767.0;
    var t := if y >= 0.0 then y.Floor else -((-y).Floor);
    var m := t % 65536;
    if m < 32768 then m else m - 65536
  }

  /** `BitConverter.GetBytes(short)` on a little-endian machine. */
  function Int16Le(v: int): (b: seq<Byte>)
    requires -32768 <= v < 32768
    ensures |b| == 2
  {
    var u := if v < 0 then v + 65536 else v;
    [(u % 256) as Byte, (u / 256) as Byte]
  }

  /** Reads a little-endian signed 16-bit value back. */
  function DecodeInt16Le(b: seq<Byte>): (v: int)
    requires |b| == 2
    ensures -32768 <= v < 32768
  {
    var u := b[0] as int + 256 * (b[1] as int);
    if u < 32768 then u else u - 65536
  }

  lemma Int16LeRoundTrip(v: int)
    requires -32768 <= v < 32768
    ensures DecodeInt16Le(Int16Le(v)) == v
  {
    var u := if v < 0 then v + 65536 else v;
    assert u == u % 256 + 256 * (u / 256);
  }

  lemma MulMonotone(a: nat, b: nat, c: nat)
    requires b <= c
    ensures a * b <= a * c
  {
  }

  /** With `n / channels` frames, the first channel of the last frame lies
      inside the array. */
  lemma LastFrameInside(n: nat, channels: int)
    ensures channels > 0 ==> CSharp.Div(n, channels) == n / channels
    ensures channels > 0 ==> n / channels == 0 || channels * (n / channels - 1) < n
  {
    if channels > 0 {
      var q := n / channels;
      assert n == channels * q + n % channels;
      assert channels * (q - 1) == channels * q - channels;
    }
  }

  /** The little-endian encoding of the samples `data[stride * i]` for
      `i < count`, two bytes each. */
  function EncodeSamples(data: seq<real>, stride: nat, count: nat): (b: seq<Byte>)
    requires count == 0 || stride * (count - 1) < |data|
    ensures |b| == 2 * count
    decreases count
  {
    if count == 0 then []
    else
      MulMonotone(stride, if count >= 2 then count - 2 else 0, count - 1);
      EncodeSamples(data, stride, count - 1) + Int16Le(SampleToInt16(data[stride * (count - 1)]))
  }

  /** Each two-byte pair of the encoding decodes to its sample. */
  lemma {:induction false} EncodeSamplesDecode(data: seq<real>, stride: nat, count: nat, i: nat)
    requires count == 0 || stride * (count - 1) < |data|
    requires i < count
    ensures stride * i < |data|
    ensures DecodeInt16Le(EncodeSamples(data, stride, count)[2 * i..2 * i + 2])
         == SampleToInt16(data[stride * i])
    decreases count
  {
    MulMonotone(stride, i, count - 1);
    var prefix := EncodeSamples(data, stride, count - 1);
    var b := EncodeSamples(data, stride, count);
    if i < count - 1 {
      MulMonotone(stride, count - 2, count - 1);
      EncodeSamplesDecode(data, stride, count - 1, i);
      assert b[2 * i..2 * i + 2] == prefix[2 * i..2 * i + 2];
    } else {
      assert b[2 * i..2 * i + 2] == Int16Le(SampleToInt16(data[stride * i]));
      Int16LeRoundTrip(SampleToInt16(data[stride * i]));
    }
  }

  /** `ConvertToSinChaAndWrite`'s conversion, as written: an `Int16` per
      `n / channels` (truncating division), taken from `dataSource[i * 2]`
      whatever the channel count, then two little-endian bytes each. A zero
      channel count divides by zero, a negative quotient is a negative array
      length, and an index `2 * i` past the end throws. */
  function ConvertToSingleChannel(data: seq<real>, channels: int): (r: Result<seq<Byte>, Fault>)
    ensures channels == 0 <==> r == Failure(DivideByZero)
    ensures channels != 0 && CSharp.Div(|data|, channels) < 0 <==> r == Failure(Overflow)
    ensures channels != 0 && CSharp.Div(|data|, channels) > 0
            && 2 * (CSharp.Div(|data|, channels) - 1) >= |data|
            <==> r == Failure(IndexOutOfRange)
    ensures r.Success? ==> |r.value| == 2 * CSharp.Div(|data|, channels)
  {
    if channels == 0 then Failure(DivideByZero)
    else
      var count := CSharp.Div(|data|, channels);
      if count < 0 then Failure(Overflow)
      else if count > 0 && 2 * (count - 1) >= |data| then Failure(IndexOutOfRange)
      else Success(EncodeSamples(data, 2, count))
  }

  /** When the conversion succeeds, pair `i` of the output is the sample at
      index `2 * i`, converted to `Int16`. */
  lemma ConvertToSingleChannelSamples(data: seq<real>, channels: int, i: nat)
    requires ConvertToSingleChannel(data, channels).Success?
    requires i < CSharp.Div(|data|, channels)
    ensures 2 * i < |data|
    ensures DecodeInt16Le(ConvertToSingleChannel(data, channels).value[2 * i..2 * i + 2])
         == SampleToInt16(data[2 * i])
  {
    EncodeSamplesDecode(data, 2, CSharp.Div(|data|, channels), i);
  }

  /** A mono callback with two or more samples makes the as-written
      conversion read past the end of the array. */
  lemma MonoConversionThrows(data: seq<real>)
    requires |data| >= 2
    ensures ConvertToSingleChannel(data, 1) == Failure(IndexOutOfRange)
  {
  }

  /** The conversion the comment "audio data is interlaced" calls for: the
      first channel of every frame, `dataSource[i * channels]`. */
  function ConvertFirstChannel(data: seq<real>, channels: int): (r: Result<seq<Byte>, Fault>)
    ensures channels == 0 <==> r == Failure(DivideByZero)
    ensures channels > 0 ==> r.Success? && |r.value| == 2 * (|data| / channels)
  {
    if channels == 0 then Failure(DivideByZero)
    else if channels < 0 then
      if |data| >= -channels then Failure(Overflow) else Success([])
    else
      var stride: nat := channels;
      var count := |data| / stride;
      LastFrameInside(|data|, stride);
      assert count == 0 || stride * (count - 1) < |data|;
      var bytes := EncodeSamples(data, stride, count);
      assert |bytes| == 2 * count;
      Success(bytes)
  }

  /** For every positive channel count the corrected conversion succeeds and
      pair `i` holds the first channel of frame `i`. */
  lemma ConvertFirstChannelSamples(data: seq<real>, channels: int, i: nat)
    requires channels > 0 && i < |data| / channels
    ensures ConvertFirstChannel(data, channels).Success?
    ensures channels * i < |data|
    ensures DecodeInt16Le(ConvertFirstChannel(data, channels).value[2 * i..2 * i + 2])
         == SampleToInt16(data[channels * i])
  {
    var count := |data| / channels;
    LastFrameInside(|data|, channels);
    EncodeSamplesDecode(data, channels, count, i);
  }

  /** For stereo input the two conversions agree. */
  lemma StereoConversionsAgree(data: seq<real>)
    ensures ConvertToSingleChannel(data, 2) == ConvertFirstChannel(data, 2)
  {
  }

  /** `OnAudioFilterRead(data, channels)`. Ignored unless recording; the first
      call allocates `data.Length * 10` (an `int` product, so it wraps, and a
      negative length throws) capped at 40960; then the converted bytes are
      written. A conversion that throws writes nothing. */
  function OnAudioFilterRead(m: Recorder, data: seq<real>, channels: int): (o: RecorderOutcome)
    requires Valid(m.ring)
    ensures !m.recording ==> o == Updated(m)
    ensures o.rec.recording == m.recording && Valid(o.rec.ring)
    ensures m.recording && m.ring.buffer.None? ==>
      (CSharp.ToInt32(|data| * 10) < 0 <==> o == Raised(m, Overflow))
    ensures m.recording && m.ring.buffer.None? && CSharp.ToInt32(|data| * 10) >= 0 ==>
      Capacity(o.rec.ring) == InitCapacity(CSharp.ToInt32(|data| * 10))
    ensures m.recording && m.ring.buffer.Some? ==> Capacity(o.rec.ring) == Capacity(m.ring)
    ensures (m.recording && ConvertToSingleChannel(data, channels).Failure?
             && !(m.ring.buffer.None? && CSharp.ToInt32(|data| * 10) < 0)) ==>
      o.Raised? && o.fault == ConvertToSingleChannel(data, channels).error
      && o.rec.ring.readIndex == m.ring.readIndex && o.rec.ring.writeIndex == m.ring.writeIndex
  {
    if !m.recording then Updated(m)
    else
      var len := CSharp.ToInt32(|data| * 10);
      if m.ring.buffer.None? && len < 0 then Raised(m, Overflow)
      else
        var ring := if m.ring.buffer.None? then InitBuffer(m.ring, len) else m.ring;
        match ConvertToSingleChannel(data, channels)
        case Failure(e) => Raised(Recorder(ring, m.recording), e)
        case Success(bytes) =>
          match Write(ring, bytes)
          case Written(t) => Updated(Recorder(t, m.recording))
          case Threw(t, e) => Raised(Recorder(t, m.recording), e)
  }

  /** While recording with room to spare, a stereo callback appends its
      converted samples to what is pending. */
  lemma OnAudioFilterReadAppends(m: Recorder, data: seq<real>)
    requires Valid(m.ring) && m.recording && m.ring.buffer.Some?
    requires |Pending(m.ring)| + 2 * (|data| / 2) < Capacity(m.ring)
    ensures ConvertToSingleChannel(data, 2).Success?
    ensures OnAudioFilterRead(m, data, 2).Updated?
    ensures Pending(OnAudioFilterRead(m, data, 2).rec.ring)
         == Pending(m.ring) + ConvertToSingleChannel(data, 2).value
  {
    WriteAppendsToPending(m.ring, ConvertToSingleChannel(data, 2).value);
  }

  /** `AudioRecordTool.Flush`: the ring's flush; the recording flag is
      untouched. */
  method FlushRecorder(m: Recorder, outBytes: Option<seq<Byte>>) returns (ok: bool, out: Option<seq<Byte>>, m': Recorder)
    requires Valid(m.ring)
    ensures m'.recording == m.recording && Valid(m'.ring)
    ensures ok <==> m.ring.buffer.Some? && m.ring.readIndex != m.ring.writeIndex
    ensures ok ==> out == Some(Pending(m.ring)) && m'.ring.readIndex == m'.ring.writeIndex
    ensures !ok ==> out == outBytes && m' == m
  {
    var t;
    ok, out, t := Flush(m.ring, outBytes);
    m' := Recorder(t, m.recording);
  }
}
