/**
 The guest audio formats (OrbisAudioOutParamFormat), their translation to host
 stream parameters, and the channel remapping AudioOutSetVolume applies to the
 "standard" eight-channel layouts.
 */
module Formats {
  import opened Common

  /** The eight guest formats a port can be opened with. A value outside these
      eight is a fatal programming error in the source, so it has no
      representation here. */
  datatype Format =
    | S16Mono | FloatMono
    | S16Stereo | FloatStereo
    | S16Ch8 | FloatCh8
    | S16Ch8Std | FloatCh8Std

  /** The element type a format carries. */
  datatype SampleKind = S16 | Float

  /** The channel layout a format carries; Ch8Std orders its surround
      channels differently from Ch8. */
  datatype Layout = Mono | Stereo | Ch8 | Ch8Std

  /** The host sample encodings (SDL_AUDIO_S16, SDL_AUDIO_F32). */
  datatype HostEncoding = HostS16 | HostF32

  /** What a guest format asks of the host stream and of the port record. */
  datatype Translation = Translation(encoding: HostEncoding, channels: nat, sampleSize: nat)

  function KindOf(f: Format): SampleKind {
    match f
    case S16Mono | S16Stereo | S16Ch8 | S16Ch8Std => S16
    case FloatMono | FloatStereo | FloatCh8 | FloatCh8Std => Float
  }

  function LayoutOf(f: Format): Layout {
    match f
    case S16Mono | FloatMono => Mono
    case S16Stereo | FloatStereo => Stereo
    case S16Ch8 | FloatCh8 => Ch8
    case S16Ch8Std | FloatCh8Std => Ch8Std
  }

  /** The format with a given element type and layout: formats are exactly
      the pairs of the two. */
  function FormatOf(k: SampleKind, l: Layout): (f: Format)
    ensures KindOf(f) == k && LayoutOf(f) == l
  {
    match (k, l)
    case (S16, Mono) => S16Mono
    case (Float, Mono) => FloatMono
    case (S16, Stereo) => S16Stereo
    case (Float, Stereo) => FloatStereo
    case (S16, Ch8) => S16Ch8
    case (Float, Ch8) => FloatCh8
    case (S16, Ch8Std) => S16Ch8Std
    case (Float, Ch8Std) => FloatCh8Std
  }

  /** FormatOf inverts the decomposition of a format into kind and layout. */
  lemma FormatDecomposes(f: Format)
    ensures FormatOf(KindOf(f), LayoutOf(f)) == f
  {
  }

  /** Bytes per sample of an element type. */
  function KindBytes(k: SampleKind): nat {
    match k
    case S16 => 2
    case Float => 4
  }

  function KindEncoding(k: SampleKind): HostEncoding {
    match k
    case S16 => HostS16
    case Float => HostF32
  }

  function LayoutChannels(l: Layout): nat {
    match l
    case Mono => 1
    case Stereo => 2
    case Ch8 => 8
    case Ch8Std => 8
  }

  /** The format switch of AudioOutOpen. The encoding and the sample size
      depend on the element type alone, the channel count on the layout alone. */
  function Translate(f: Format): (r: Translation)
    ensures r.encoding == KindEncoding(KindOf(f))
    ensures r.sampleSize == KindBytes(KindOf(f))
    ensures r.channels == LayoutChannels(LayoutOf(f))
    ensures 1 <= r.channels <= MaxChannels
    ensures r.sampleSize == 2 || r.sampleSize == 4
  {
    match f
    case S16Mono => Translation(HostS16, 1, 2)
    case FloatMono => Translation(HostF32, 1, 4)
    case S16Stereo => Translation(HostS16, 2, 2)
    case FloatStereo => Translation(HostF32, 2, 4)
    case S16Ch8 => Translation(HostS16, 8, 2)
    case FloatCh8 => Translation(HostF32, 8, 4)
    case S16Ch8Std => Translation(HostS16, 8, 2)
    case FloatCh8Std => Translation(HostF32, 8, 4)
  }

  /** The linear and the standard eight-channel layouts ask the same of the
      host; they differ only in how volumes are remapped. */
  lemma StdTranslatesLikeLinear(k: SampleKind)
    ensures Translate(FormatOf(k, Ch8Std)) == Translate(FormatOf(k, Ch8))
  {
  }

  /** The two formats whose volumes are remapped. */
  predicate IsStd(f: Format) {
    f == FloatCh8Std || f == S16Ch8Std
  }

  /** The index of the caller's volume array that feeds destination channel
      `i`. Only the standard layouts move anything, and then only channels 4
      to 7, each to the other pair. */
  function SourceIndex(f: Format, i: int): (src: int)
    ensures !IsStd(f) || i < 4 || 7 < i ==> src == i
    ensures IsStd(f) && 4 <= i <= 7 ==> 4 <= src <= 7 && (src < 6 <==> 6 <= i) && src % 2 == i % 2
  {
    if IsStd(f) then
      if i == 4 then 6
      else if i == 5 then 7
      else if i == 6 then 4
      else if i == 7 then 5
      else i
    else i
  }

  /** Applying the remap twice gives back the destination: it is an involution. */
  lemma RemapInvolution(f: Format, i: int)
    ensures SourceIndex(f, SourceIndex(f, i)) == i
  {
  }

  /** Within the channels of any format the remap is onto, hence (being an
      involution) a permutation of the channel indices. */
  lemma RemapPermutesChannels(f: Format)
    ensures forall i :: 0 <= i < Translate(f).channels ==> 0 <= SourceIndex(f, i) < Translate(f).channels
    ensures forall j :: 0 <= j < Translate(f).channels ==>
              0 <= SourceIndex(f, j) < Translate(f).channels && SourceIndex(f, SourceIndex(f, j)) == j
    ensures IsStd(f) ==> (set i | 4 <= i < 8 :: SourceIndex(f, i)) == {4, 5, 6, 7}
  {
    forall j | 0 <= j < Translate(f).channels
      ensures SourceIndex(f, SourceIndex(f, j)) == j
    {
      RemapInvolution(f, j);
    }
    if IsStd(f) {
      var image := set i | 4 <= i < 8 :: SourceIndex(f, i);
      assert SourceIndex(f, 4) == 6 && SourceIndex(f, 5) == 7;
      assert SourceIndex(f, 6) == 4 && SourceIndex(f, 7) == 5;
      assert {4, 5, 6, 7} <= image;
    }
  }
}
