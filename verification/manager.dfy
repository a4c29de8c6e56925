/**
 The four public operations of the port manager (AudioOutOpen, AudioOutOutput,
 AudioOutSetVolume, AudioOutGetStatus), each a pure function from the table
 (and the host's answers) to the new table and the caller-visible result.
 */
module Manager {
  import opened Common
  import opened Formats
  import opened Bits
  import opened Ports

  /** The parameters AudioOutOpen asks of SDL_OpenAudioDeviceStream. The
      rate field of SDL_AudioSpec is an `int`, so the `u32` rate is narrowed. */
  datatype StreamRequest = StreamRequest(encoding: HostEncoding, channels: nat, freq: S32)

  /** The table after Open, the returned handle (-1 on failure), and the
      stream request it made of the host, if it got that far. */
  datatype OpenResult = OpenResult(table: Table, handle: int, request: Option<StreamRequest>)

  /** The host's answer to a stream request as the port stores it. */
  function StreamOf(host: Option<nat>): (s: Stream)
    ensures s.HostStream? <==> host.Some?
  {
    match host
    case Some(id) => HostStream(id)
    case None => NoStream
  }

  /** The record AudioOutOpen writes into the slot `p` it chose. The volume
      loop runs over the channels of the new format only, so entries beyond
      them keep whatever the slot held before. */
  function OpenedPort(p: Port, kind: int, samples: U32, freq: U32, fmt: Format, stream: Stream): (q: Port)
    ensures q.isOpen && Consistent(q)
    ensures q.kind == kind && q.samples == samples && q.freq == freq && q.format == fmt && q.stream == stream
    ensures forall i :: 0 <= i < q.channels ==> q.volume[i] == Volume0dB
    ensures forall i :: q.channels <= i < MaxChannels ==> q.volume[i] == p.volume[i]
  {
    var tr := Translate(fmt);
    var vol := seq(MaxChannels, i requires 0 <= i < MaxChannels => if i < tr.channels then Volume0dB else p.volume[i]);
    Port(true, kind, samples, freq, fmt, tr.channels, tr.sampleSize, vol, stream)
  }

  /** The slot `s` is the lowest closed one of `t`. */
  predicate LowestClosed(t: Table, s: int) {
    && 0 <= s < |t|
    && !t[s].isOpen
    && forall j :: 0 <= j < s ==> t[j].isOpen
  }

  /** AudioOutOpen as written. `host` is the host's answer to the stream
      request: a stream, or None for a null stream. The chosen slot is marked
      open and filled before the host is asked, and is not reset when the
      host fails. */
  function Open(t: Table, kind: int, samples: U32, freq: U32, fmt: Format, host: Option<nat>): (r: OpenResult)
    ensures r.handle == -1 || 1 <= r.handle <= |t|
    ensures |r.table| == |t|
    ensures (forall i :: 0 <= i < |t| ==> t[i].isOpen) ==> r == OpenResult(t, -1, None)
    ensures forall s :: LowestClosed(t, s) ==>
              && r.table == t[s := OpenedPort(t[s], kind, samples, freq, fmt, StreamOf(host))]
              && r.handle == (if host.Some? then s + 1 else -1)
              && r.request == Some(StreamRequest(Translate(fmt).encoding, Translate(fmt).channels, AsSigned32(freq)))
    ensures WellFormed(t) ==> WellFormed(r.table)
  {
    match FirstClosed(t, 0)
    case None => OpenResult(t, -1, None)
    case Some(s) =>
      var tr := Translate(fmt);
      var port := OpenedPort(t[s], kind, samples, freq, fmt, StreamOf(host));
      OpenResult(t[s := port], if host.Some? then s + 1 else -1, Some(StreamRequest(tr.encoding, tr.channels, AsSigned32(freq))))
  }

  /** Open with the failed stream rolled back, so that a slot is open exactly
      when it holds a stream some caller got a handle for. The rollback
      restores the slot's whole earlier record, not only its `isOpen` flag. */
  function OpenWithRollback(t: Table, kind: int, samples: U32, freq: U32, fmt: Format, host: Option<nat>): (r: OpenResult)
    ensures r.handle == -1 ==> r.table == t
    ensures |r.table| == |t|
    ensures forall i :: 0 <= i < |t| && r.table[i].isOpen && !t[i].isOpen ==>
              r.table[i].stream.HostStream? && r.handle == i + 1
    ensures r.handle != -1 ==> r == Open(t, kind, samples, freq, fmt, host)
    ensures WellFormed(t) ==> WellFormed(r.table)
  {
    var o := Open(t, kind, samples, freq, fmt, host);
    if o.handle == -1 then OpenResult(t, -1, o.request) else o
  }

  /** Whether the caller's sample pointer is null; its contents are not modelled. */
  datatype Buffer = Null | Data

  /** ORBIS_OK (0), ORBIS_AUDIO_OUT_ERROR_INVALID_PORT (an error code defined
      in a header that is not part of this model), and -1 for a submission
      the host refused. */
  datatype OutputStatus = Ok | InvalidPort | SubmitFailed

  /** The status and the number of bytes handed to the host stream, if any. */
  datatype OutputResult = OutputResult(status: OutputStatus, submitted: Option<nat>)

  /** AudioOutOutput. `accepted` is the host's answer to the submission.
      Output never changes the table. */
  function Output(t: Table, h: int, buf: Buffer, accepted: bool): (r: OutputResult)
    ensures r.submitted.Some? <==> IsValidHandle(t, h) && buf.Data? && t[h - 1].isOpen
    ensures r.status == InvalidPort <==> !IsValidHandle(t, h) || (buf.Data? && !t[h - 1].isOpen)
    ensures r.submitted.Some? ==>
              && r.submitted.value == t[h - 1].samples * t[h - 1].sampleSize * t[h - 1].channels
              && (r.status == Ok <==> accepted)
    ensures r.submitted.None? ==> r.status != SubmitFailed
  {
    if !IsValidHandle(t, h) then OutputResult(InvalidPort, None)
    else if buf.Null? then OutputResult(Ok, None)
    else
      var p := t[h - 1];
      if !p.isOpen then OutputResult(InvalidPort, None)
      else
        var dataSize := p.samples * p.sampleSize * p.channels;
        OutputResult(if accepted then Ok else SubmitFailed, Some(dataSize))
  }

  /** Every caller volume AudioOutSetVolume reads lies inside the caller's
      array: required only when the port is reached, and only for the
      selected channels. */
  predicate VolumeReadsInBounds(t: Table, h: int, flag: int, values: seq<int>) {
    IsValidHandle(t, h) && t[h - 1].isOpen ==>
      forall i: nat :: i < t[h - 1].channels && Bit(flag, i) ==> SourceIndex(t[h - 1].format, i) < |values|
  }

  /** The loop of AudioOutSetVolume from channel `i` on. The loop shifts the
      mask right once per channel and tests its lowest bit, which is reading
      Bit(flag, i) of the original mask. */
  function ApplyMask(vol: Volumes, fmt: Format, channels: nat, i: nat, flag: int, values: seq<int>): (r: Volumes)
    requires channels <= MaxChannels
    requires forall k: nat :: i <= k < channels && Bit(flag, k) ==> SourceIndex(fmt, k) < |values|
    decreases channels - i
    ensures forall k :: 0 <= k < MaxChannels ==>
              r[k] == (if i <= k < channels && Bit(flag, k) then values[SourceIndex(fmt, k)] else vol[k])
  {
    if i >= channels then vol
    else
      var vol' := if Bit(flag, i) then vol[i := values[SourceIndex(fmt, i)]] else vol;
      ApplyMask(vol', fmt, channels, i + 1, flag, values)
  }

  /** The table after SetVolume and its boolean result. */
  datatype VolumeResult = VolumeResult(table: Table, ok: bool)

  /** AudioOutSetVolume. On an open port, channel `i` below the channel count
      whose mask bit is set takes the caller volume at SourceIndex(format, i);
      nothing else anywhere changes. */
  function SetVolume(t: Table, h: int, flag: S32, values: seq<int>): (r: VolumeResult)
    requires WellFormed(t)
    requires VolumeReadsInBounds(t, h, flag, values)
    ensures r.ok <==> IsValidHandle(t, h) && t[h - 1].isOpen
    ensures !r.ok ==> r.table == t
    ensures |r.table| == |t| && WellFormed(r.table)
    ensures forall j :: 0 <= j < |t| && j != h - 1 ==> r.table[j] == t[j]
    ensures r.ok ==> r.table[h - 1] == t[h - 1].(volume := r.table[h - 1].volume)
    ensures r.ok ==> forall i :: 0 <= i < MaxChannels ==>
              r.table[h - 1].volume[i] ==
                (if i < t[h - 1].channels && Bit(flag, i) then values[SourceIndex(t[h - 1].format, i)]
                 else t[h - 1].volume[i])
  {
    if !IsValidHandle(t, h) then VolumeResult(t, false)
    else
      var p := t[h - 1];
      if !p.isOpen then VolumeResult(t, false)
      else
        assert Consistent(p);
        var vol := ApplyMask(p.volume, p.format, p.channels, 0, flag, values);
        VolumeResult(t[h - 1 := p.(volume := vol)], true)
  }

  /** What AudioOutGetStatus writes through its two out pointers. */
  datatype StatusReport = StatusReport(kind: int, channels: nat)

  /** AudioOutGetStatus: a range check only, then the slot's type and channel
      count, whether or not the slot is open. */
  function GetStatus(t: Table, h: int): (r: Option<StatusReport>)
    ensures r.Some? <==> IsValidHandle(t, h)
    ensures r.Some? ==> r.value.kind == t[h - 1].kind && r.value.channels == t[h - 1].channels
  {
    if !IsValidHandle(t, h) then None
    else Some(StatusReport(t[h - 1].kind, t[h - 1].channels))
  }
}
