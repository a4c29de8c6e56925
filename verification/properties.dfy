/**
 Properties that relate the operations of the port manager to each other:
 handle rejection, the Open/GetStatus and Open/Output round trips, the order
 in which Open hands out slots, and the meaning of the SetVolume mask.
 */
module Properties {
  import opened Common
  import opened Formats
  import opened Bits
  import opened Ports
  import opened Manager

  /** Every operation that takes a handle refuses one outside 1..|t| and
      leaves the table as it was. */
  lemma InvalidHandleRejected(t: Table, h: int, buf: Buffer, accepted: bool, flag: S32, values: seq<int>)
    requires WellFormed(t)
    requires !IsValidHandle(t, h)
    ensures Output(t, h, buf, accepted) == OutputResult(InvalidPort, None)
    ensures SetVolume(t, h, flag, values) == VolumeResult(t, false)
    ensures GetStatus(t, h) == None
  {
  }

  /** The null-buffer check comes before the isOpen check: an in-range handle
      with a null buffer succeeds without submitting, open or not. */
  lemma NullBufferIsNoOp(t: Table, h: int, accepted: bool)
    requires IsValidHandle(t, h)
    ensures Output(t, h, Null, accepted) == OutputResult(Ok, None)
  {
  }

  /** GetStatus answers for a closed slot too. */
  lemma GetStatusIgnoresIsOpen(t: Table, h: int)
    requires IsValidHandle(t, h) && !t[h - 1].isOpen
    ensures GetStatus(t, h) == Some(StatusReport(t[h - 1].kind, t[h - 1].channels))
  {
  }

  /** A successful Open fills the slot behind its handle with the caller's
      values verbatim, unity gain on every channel of the format, and the
      host's stream. */
  lemma OpenedSlotContents(t: Table, kind: int, samples: U32, freq: U32, fmt: Format, host: Option<nat>)
    requires Open(t, kind, samples, freq, fmt, host).handle != -1
    ensures var r := Open(t, kind, samples, freq, fmt, host);
            var p := r.table[r.handle - 1];
            && host.Some?
            && !t[r.handle - 1].isOpen
            && p.isOpen && p.kind == kind && p.samples == samples && p.freq == freq && p.format == fmt
            && p.channels == LayoutChannels(LayoutOf(fmt))
            && p.sampleSize == KindBytes(KindOf(fmt))
            && p.stream == HostStream(host.value)
            && (forall i :: 0 <= i < p.channels ==> p.volume[i] == Volume0dB)
  {

  }

  /** Open, then GetStatus on the returned handle: the type passed in and the
      channel count of the format. */
  lemma OpenThenGetStatus(t: Table, kind: int, samples: U32, freq: U32, fmt: Format, host: Option<nat>)
    requires Open(t, kind, samples, freq, fmt, host).handle != -1
    ensures var r := Open(t, kind, samples, freq, fmt, host);
            GetStatus(r.table, r.handle) == Some(StatusReport(kind, LayoutChannels(LayoutOf(fmt))))
  {

  }

  /** Open, then Output on the returned handle: exactly one buffer of
      `samples` frames of the format is submitted. */
  lemma OpenThenOutput(t: Table, kind: int, samples: U32, freq: U32, fmt: Format, host: Option<nat>, accepted: bool)
    requires Open(t, kind, samples, freq, fmt, host).handle != -1
    ensures var r := Open(t, kind, samples, freq, fmt, host);
            Output(r.table, r.handle, Data, accepted) ==
              OutputResult(if accepted then Ok else SubmitFailed,
                           Some(samples * KindBytes(KindOf(fmt)) * LayoutChannels(LayoutOf(fmt))))
  {

  }

  /** As written, a host failure costs a slot: Open answers -1 but leaves the
      lowest closed slot marked open, with a null stream, so no caller holds
      a handle for it. */
  lemma OpenFailureLeaksSlot(t: Table, s: nat, kind: int, samples: U32, freq: U32, fmt: Format)
    requires LowestClosed(t, s)
    ensures var r := Open(t, kind, samples, freq, fmt, None);
            && r.handle == -1
            && r.table[s].isOpen && r.table[s].stream == NoStream
            && r.table != t
  {

  }

  /** With the rollback, the same host failure leaves every slot as it was. */
  lemma RollbackOpenFailureKeepsTable(t: Table, s: nat, kind: int, samples: U32, freq: U32, fmt: Format)
    requires LowestClosed(t, s)
    ensures var r := OpenWithRollback(t, kind, samples, freq, fmt, None);
            r.handle == -1 && r.table == t && !r.table[s].isOpen
  {
  }

  /** One call of Open with its arguments and the host's answer. */
  datatype OpenCall = OpenCall(kind: int, samples: U32, freq: U32, format: Format, host: Option<nat>)

  /** A sequence of Open calls, each on the table the previous one left:
      the final table and the handles returned, in order. */
  function OpenEach(t: Table, calls: seq<OpenCall>): (r: (Table, seq<int>))
    decreases |calls|
  {
    if calls == [] then (t, [])
    else
      var c := calls[0];
      var o := Open(t, c.kind, c.samples, c.freq, c.format, c.host);
      var rest := OpenEach(o.table, calls[1..]);
      (rest.0, [o.handle] + rest.1)
  }

  /** Exactly the first `m` slots are open. */
  predicate PrefixOpen(t: Table, m: nat) {
    m <= |t| && forall i :: 0 <= i < |t| ==> (t[i].isOpen <==> i < m)
  }

  function Min(a: nat, b: nat): nat {
    if a <= b then a else b
  }

  /** One Open on a table whose first `m` slots are open takes slot `m`,
      whether or not the host stream opens. */
  lemma OpenTakesNextSlot(t: Table, m: nat, c: OpenCall)
    requires PrefixOpen(t, m)
    ensures var o := Open(t, c.kind, c.samples, c.freq, c.format, c.host);
            && o.handle == (if m < |t| && c.host.Some? then m + 1 else -1)
            && PrefixOpen(o.table, if m < |t| then m + 1 else m)
  {
    var o := Open(t, c.kind, c.samples, c.freq, c.format, c.host);
    if m < |t| {
      assert LowestClosed(t, m);
    }
  }

  /** Opens fill the table in slot order: the k-th call gets handle m + k + 1
      when a slot is left and its stream opens, and -1 otherwise. */
  lemma {:induction false} OpenEachFillsInOrder(t: Table, m: nat, calls: seq<OpenCall>)
    requires PrefixOpen(t, m)
    ensures |OpenEach(t, calls).1| == |calls|
    ensures forall k :: 0 <= k < |calls| ==>
              OpenEach(t, calls).1[k] == (if m + k < |t| && calls[k].host.Some? then m + k + 1 else -1)
    ensures PrefixOpen(OpenEach(t, calls).0, Min(m + |calls|, |t|))
    decreases |calls|
  {
    if calls != [] {
      var c := calls[0];
      var o := Open(t, c.kind, c.samples, c.freq, c.format, c.host);
      OpenTakesNextSlot(t, m, c);
      var m' := if m < |t| then m + 1 else m;
      OpenEachFillsInOrder(o.table, m', calls[1..]);
      var hs := OpenEach(t, calls).1;
      forall k | 0 <= k < |calls|
        ensures hs[k] == (if m + k < |t| && calls[k].host.Some? then m + k + 1 else -1)
      {
        if k > 0 {
          assert hs[k] == OpenEach(o.table, calls[1..]).1[k - 1];
          assert calls[1..][k - 1] == calls[k];
        }
      }
    }
  }

  /** From a table with every slot closed, the handles handed out are
      distinct and in 1..|t|, and once |t| calls have been made every further
      Open fails. */
  lemma OpenHandlesDistinct(t: Table, calls: seq<OpenCall>)
    requires forall i :: 0 <= i < |t| ==> !t[i].isOpen
    ensures var hs := OpenEach(t, calls).1;
            && |hs| == |calls|
            && (forall k :: 0 <= k < |hs| ==> hs[k] == -1 || 1 <= hs[k] <= |t|)
            && (forall j, k :: 0 <= j < k < |hs| && hs[j] != -1 ==> hs[j] != hs[k])
            && (forall k :: |t| <= k < |hs| ==> hs[k] == -1)
  {
    assert PrefixOpen(t, 0);
    OpenEachFillsInOrder(t, 0, calls);
  }

  /** A zero mask changes no volume: SetVolume returns the table unchanged. */
  lemma ZeroMaskChangesNothing(t: Table, h: int, values: seq<int>)
    requires WellFormed(t)
    ensures VolumeReadsInBounds(t, h, 0, values)
    ensures SetVolume(t, h, 0, values).table == t
  {
    forall i: nat
      ensures !Bit(0, i)
    {
      ZeroHasNoBits(i);
    }
  }

  /** Mask bits at channel positions the port does not have are ignored:
      two masks that agree below the channel count do the same. */
  lemma MaskBeyondChannelsIgnored(t: Table, h: int, f1: S32, f2: S32, values: seq<int>)
    requires WellFormed(t) && IsValidHandle(t, h)
    requires forall i: nat :: i < t[h - 1].channels ==> Bit(f1, i) == Bit(f2, i)
    requires VolumeReadsInBounds(t, h, f1, values)
    ensures VolumeReadsInBounds(t, h, f2, values)
    ensures SetVolume(t, h, f1, values) == SetVolume(t, h, f2, values)
  {
    var r1 := SetVolume(t, h, f1, values);
    var r2 := SetVolume(t, h, f2, values);
    if r1.ok {
      assert r1.table[h - 1].volume == r2.table[h - 1].volume;
      assert r1.table[h - 1] == r2.table[h - 1];
      assert r1.table == r2.table;
    }
  }

  /** On a standard eight-channel port, the mask 0b11110000 gives channels
      4, 5, 6, 7 the caller volumes 6, 7, 4, 5 and leaves channels 0 to 3. */
  lemma StdRearRemap(t: Table, h: int, values: seq<int>)
    requires WellFormed(t) && IsValidHandle(t, h) && t[h - 1].isOpen
    requires IsStd(t[h - 1].format) && |values| >= 8
    ensures VolumeReadsInBounds(t, h, 0xF0, values)
    ensures var v := SetVolume(t, h, 0xF0, values).table[h - 1].volume;
            && v[4] == values[6] && v[5] == values[7] && v[6] == values[4] && v[7] == values[5]
            && v[..4] == t[h - 1].volume[..4]
  {
    forall i: nat | i < 8
      ensures Bit(0xF0, i) <==> 4 <= i
    {
      RearMaskBits(i);
    }
  }

  /** On every other port the same mask copies caller volume i to channel i
      for each channel 4 to 7 the port has, and leaves channels 0 to 3. */
  lemma LinearRearCopy(t: Table, h: int, values: seq<int>)
    requires WellFormed(t) && IsValidHandle(t, h) && t[h - 1].isOpen
    requires !IsStd(t[h - 1].format) && |values| >= 8
    ensures VolumeReadsInBounds(t, h, 0xF0, values)
    ensures var v := SetVolume(t, h, 0xF0, values).table[h - 1].volume;
            && (forall i :: 4 <= i < 8 ==> v[i] == (if i < t[h - 1].channels then values[i] else t[h - 1].volume[i]))
            && v[..4] == t[h - 1].volume[..4]
  {
    forall i: nat | i < 8
      ensures Bit(0xF0, i) <==> 4 <= i
    {
      RearMaskBits(i);
    }
  }

  /** Applying the same SetVolume twice is the same as applying it once. */
  lemma SetVolumeIdempotent(t: Table, h: int, flag: S32, values: seq<int>)
    requires WellFormed(t)
    requires VolumeReadsInBounds(t, h, flag, values)
    ensures VolumeReadsInBounds(SetVolume(t, h, flag, values).table, h, flag, values)
    ensures var t1 := SetVolume(t, h, flag, values).table;
            SetVolume(t1, h, flag, values).table == t1
  {
    var t1 := SetVolume(t, h, flag, values).table;
    var r2 := SetVolume(t1, h, flag, values);
    if r2.ok {
      assert r2.table[h - 1].volume == t1[h - 1].volume;
      assert r2.table[h - 1] == t1[h - 1];
    }
  }

  /** SetVolume changes no status a caller can read back. */
  lemma SetVolumeKeepsStatus(t: Table, h: int, flag: S32, values: seq<int>, h': int)
    requires WellFormed(t)
    requires VolumeReadsInBounds(t, h, flag, values)
    ensures GetStatus(SetVolume(t, h, flag, values).table, h') == GetStatus(t, h')
  {
  }
}
