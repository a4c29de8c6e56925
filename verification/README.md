# SDL audio port manager, modelled in Dafny

This project models the audio-output port manager of the shadPS4 emulator
(`Audio::SDLAudio`). The manager keeps a fixed table of output ports. A guest
opens a port with a port type, a buffer size in samples, a sample rate and one
of eight `OrbisAudioOutParamFormat` formats, and gets back a 1-based handle.
It then submits sample buffers, sets per-channel volumes through a bit mask,
and reads back the port's type and channel count.

The model is sequential and functional. The table is a `seq<Port>` of
immutable records. Each public operation is a pure function from the table to
the new table and the caller-visible result:

- `common.dfy`: shared types (`U32`, `S32`, the 8-entry volume array) and
  constants (eight channels, unity gain 32768).
- `formats.dfy`: the eight guest formats and their split into element type
  and layout. Also the translation to host encoding, channel count and bytes
  per sample, and the channel remap for the two "standard" 8-channel layouts.
- `bits.dfy`: how the volume loop reads its signed 32-bit mask. It shifts
  right and tests the low bit, which is bit `i` of the two's-complement value.
- `ports.dfy`: the port record, handle validation, the table invariant and the
  first-free-slot scan.
- `manager.dfy`: Open, Output, SetVolume and GetStatus. Also a corrected Open
  that rolls back a failed stream open (see Findings).
- `properties.dfy`: lemmas relating the operations. They cover handle
  rejection, the Open/GetStatus and Open/Output round trips, and the order in
  which Open hands out slots. They also cover what the volume mask means.

The host audio library (SDL) is not modelled. Where its answers matter they are
parameters:
- `Open` takes `host: Option<nat>`, the stream SDL_OpenAudioDeviceStream
  returned, or `None` for a null stream.
- `Output` takes `accepted: bool`, the verdict of SDL_PutAudioStreamData.

`Open` also returns the stream request it would make: encoding, channels and
rate, the rate narrowed to the signed `int` that SDL_AudioSpec holds.

SetVolume requires the table invariant `Ports.WellFormed`: every open port's
channel count and sample size match its format. An all-closed table
satisfies it, and Open and SetVolume preserve it (Output and GetStatus do not
change the table). The source relies on it too, because
the volume loop writes `volume[i]` for every channel below the port's channel
count.

Two behaviours of the code are easy to miss:
- A handle is valid when it lies in 1..capacity. Output and SetVolume check
  separately whether the slot is open. GetStatus does not check at all, so it
  answers for closed slots.
- When the host stream fails to open, Open returns -1 but the slot stays
  marked open with a null stream. This is logged under Findings.

## Model

| member | source | states |
|---|---|---|
| Formats.Translate | src/audio_core/sdl_audio.cpp:38-81 | The format switch. Encoding and bytes per sample depend only on the element type: S16 gives 2 bytes, float gives 4. The channel count depends only on the layout: mono 1, stereo 2, both 8-channel layouts 8. Every result has 1..8 channels. |
| Formats.FormatOf | src/audio_core/sdl_audio.cpp:38-78 | Each (element type, layout) pair names exactly one of the eight case labels. |
| Formats.FormatDecomposes | src/audio_core/sdl_audio.cpp:38-78 | Splitting a format into element type and layout and rebuilding it gives the same format back. |
| Formats.StdTranslatesLikeLinear | src/audio_core/sdl_audio.cpp:59-78 | A `_8CH_STD` format translates exactly like its `_8CH` counterpart. |
| Formats.SourceIndex | src/audio_core/sdl_audio.cpp:148-158 | The volume source index. Only the two STD formats remap, and only for channels 4..7: each takes the same-parity channel of the other pair. Everywhere else the source index is the destination index. |
| Formats.RemapInvolution | src/audio_core/sdl_audio.cpp:151-156 | Applying the remap twice gives back the channel. |
| Formats.RemapPermutesChannels | src/audio_core/sdl_audio.cpp:146-158 | For every format the remap maps the channel range into itself and is its own inverse there, so it is a permutation. For STD formats the image of {4,5,6,7} is {4,5,6,7}. |
| Bits.ShrIsDivPow2 | src/audio_core/sdl_audio.cpp:146-147 | Shifting the mask right i times is floor division by 2^i. So the bit the loop tests at channel i is binary digit i of the mask. |
| Bits.ZeroHasNoBits | src/audio_core/sdl_audio.cpp:146-147 | A zero mask has no bit set at any channel. |
| Bits.RearMaskBits | src/audio_core/sdl_audio.cpp:146-147 | Among channels 0..7, mask 0xF0 selects exactly channels 4..7. |
| Ports.IsValidHandle | src/audio_core/sdl_audio.cpp:19-21 | A handle is valid exactly when it lies in 1..capacity; whether the slot is open is not consulted. |
| Bits.Shr | src/audio_core/sdl_audio.cpp:146 | The mask after i iterations of `bitflag >>= 1u`: an arithmetic shift, floor division by 2 per step (see Bits.ShrIsDivPow2). |
| Bits.Bit | src/audio_core/sdl_audio.cpp:147 | The test `bitflag & 1u` at channel i: the lowest two's-complement bit of the shifted mask, that is binary digit i of the original. |
| Common.AsSigned32 | src/audio_core/sdl_audio.cpp:91 | The `u32` rate stored into SDL_AudioSpec's `int` field keeps its 32 bits: it agrees with the rate modulo 2^32 and is negative exactly when the rate is 2^31 or more. |
| Ports.FirstClosed | src/audio_core/sdl_audio.cpp:28-30 | The slot scan finds the lowest-indexed closed slot, or reports that every slot is open. |
| Manager.StreamOf | src/audio_core/sdl_audio.cpp:93-94 | The port holds a stream exactly when the host returned one. |
| Manager.OpenedPort | src/audio_core/sdl_audio.cpp:31-85 | The chosen slot becomes open and consistent with its format. It stores type, sample count, rate and format verbatim. Every channel of the format gets unity gain. Volume entries beyond the channel count keep their previous values. |
| Manager.Open | src/audio_core/sdl_audio.cpp:23-104 | If every slot is open, Open returns -1 and changes nothing. Otherwise it fills only the lowest closed slot and requests the translated encoding and channel count, with the rate narrowed to a signed 32-bit `int` as SDL_AudioSpec stores it. It returns slot + 1 if the stream opened and -1 if not, so every result is -1 or in 1..capacity. It keeps the table invariant. |
| Manager.Output | src/audio_core/sdl_audio.cpp:106-130 | The checks run in order: range, null buffer, isOpen. The result is InvalidPort exactly for an out-of-range handle, or a non-null buffer on a closed slot. Bytes are submitted exactly for an in-range open slot with a buffer, and the count is samples × sample size × channels. The status is Ok exactly when the host accepts. No submission means no SubmitFailed. |
| Manager.ApplyMask | src/audio_core/sdl_audio.cpp:146-160 | The loop from channel i on. Every channel k in i..channels with mask bit k set takes the caller volume at SourceIndex(format, k). Every other entry is unchanged. |
| Manager.SetVolume | src/audio_core/sdl_audio.cpp:133-163 | Returns true exactly for an in-range open slot. On false the table is unchanged. On true only the volume array of that slot changes: channel i takes values[SourceIndex(format, i)] exactly when i < channel count and bit i is set. No other port changes and the table invariant holds. |
| Manager.GetStatus | src/audio_core/sdl_audio.cpp:165-176 | Answers exactly for in-range handles. It reports the slot's type and channel count. |
| Manager.OpenWithRollback | src/audio_core/sdl_audio.cpp:93-96 | Corrected Open. A failed stream leaves the table unchanged. Every slot it opens holds a stream and is the one whose handle it returned. On success it is identical to Open. |
| Properties.InvalidHandleRejected | src/audio_core/sdl_audio.cpp:19-21 | For a handle outside 1..capacity, Output returns InvalidPort without submitting. SetVolume returns false with the table unchanged. GetStatus fails. |
| Properties.NullBufferIsNoOp | src/audio_core/sdl_audio.cpp:106-113 | An in-range handle with a null buffer returns 0 without submitting, whether or not the slot is open. |
| Properties.GetStatusIgnoresIsOpen | src/audio_core/sdl_audio.cpp:165-176 | GetStatus on a closed in-range slot succeeds and reports the slot's fields. |
| Properties.OpenedSlotContents | src/audio_core/sdl_audio.cpp:28-99 | A handle from Open names a slot that was closed before and is now open. The slot holds the caller's values, the translated shape, the host's stream, and unity gain on every channel. |
| Properties.OpenThenGetStatus | src/audio_core/sdl_audio.cpp:165-176 | GetStatus on a handle Open returned reports the type passed in and the channel count of the format's layout. |
| Properties.OpenThenOutput | src/audio_core/sdl_audio.cpp:122-130 | Output on a handle Open returned submits samples × bytes of the element type × channels of the layout. |
| Properties.OpenFailureLeaksSlot | src/audio_core/sdl_audio.cpp:31-96 | As written, a failed stream open returns -1 but leaves the lowest closed slot open with a null stream, so the table changes. |
| Properties.RollbackOpenFailureKeepsTable | src/audio_core/sdl_audio.cpp:93-96 | With the rollback, the same failure leaves the table unchanged and the slot closed. |
| Properties.OpenTakesNextSlot | src/audio_core/sdl_audio.cpp:28-31 | If exactly the first m slots are open, Open takes slot m whatever the host answers. It returns m + 1 only when the stream opens. |
| Properties.OpenEachFillsInOrder | src/audio_core/sdl_audio.cpp:28-103 | In a run of Opens, call k returns m + k + 1 when a slot remains and its stream opens, and -1 otherwise. The slots fill in index order. |
| Properties.OpenHandlesDistinct | src/audio_core/sdl_audio.cpp:28-103 | Starting from an all-closed table, the handles returned are distinct and lie in 1..capacity. Every Open after the first capacity calls returns -1. |
| Properties.ZeroMaskChangesNothing | src/audio_core/sdl_audio.cpp:146-160 | SetVolume with mask 0 reads no caller volume and leaves the table unchanged. |
| Properties.MaskBeyondChannelsIgnored | src/audio_core/sdl_audio.cpp:146-160 | Two masks that agree on the port's channels give the same result. Bits at or above the channel count change nothing. |
| Properties.StdRearRemap | src/audio_core/sdl_audio.cpp:146-160 | On an STD port, mask 0b11110000 sets channels 4, 5, 6, 7 to values 6, 7, 4, 5 and leaves channels 0..3 unchanged. |
| Properties.LinearRearCopy | src/audio_core/sdl_audio.cpp:146-160 | On any other open port the same mask copies values[i] into channel i for each existing channel 4..7, and leaves channels 0..3 unchanged. |
| Properties.SetVolumeIdempotent | src/audio_core/sdl_audio.cpp:133-163 | Repeating a SetVolume call changes nothing further. |
| Properties.SetVolumeKeepsStatus | src/audio_core/sdl_audio.cpp:133-176 | SetVolume never changes what GetStatus reports for any handle. |

## Left out

- Host stream calls are not modelled: SDL_OpenAudioDeviceStream, SDL_ResumeAudioDevice, SDL_PutAudioStreamData and SDL_GetAudioStreamDevice. They are a foreign library. Their answers are parameters of Open and Output, and the stream is an opaque id.
- The backpressure wait in AudioOutOutput (src/audio_core/sdl_audio.cpp:126-128) is not modelled. It spins on SDL_GetAudioStreamAvailable with SDL_Delay(0) and no timeout. Its termination depends on the host draining the stream, so it is a liveness property outside this model. Output returns as soon as the submission is judged.
- Locks on `m_mutex` are left out. The unique lock in Open and the shared locks elsewhere only serialise access. The model is sequential, so the race between two SetVolume calls on one port under shared locks is not represented.
- Manager.Output: does not model a fixed-width overflow of `samples_num * sample_size * channels_num`. The product is an unbounded natural.
- Sample buffer contents and raw pointers are left out. The buffer is only null or non-null. The caller's volume array is a `seq<int>`, and SetVolume requires it to cover every index the loop reads.
- UNREACHABLE for an unknown format is not modelled. `Format` has exactly the eight valid values, so the fatal path cannot be represented.
- The table's capacity and its contents before any Open are not modelled. They come from `sdl_audio.h`, which is not part of this model. Capacity is the sequence length, and the lemmas start from an arbitrary table with every slot closed.
- Closing a port is not modelled because no operation in the modelled file closes one. Properties about reopening a slot with a different format are left out with it.
- Numeric values of SCE_AUDIO_OUT_VOLUME_0DB and ORBIS_AUDIO_OUT_ERROR_INVALID_PORT are not taken from source. Both come from headers that are not part of this model. The first is taken as 32768. The second is the `InvalidPort` status, not a number.
- The notification overlay in `src/core/libraries/np_trophy/trophy_ui.cpp` is left out. It is UI rendering driven by a floating-point frame timer and file and PNG loading, with no port logic.

## Findings

| source | as written | input that shows it | evidently intended | confidence | as-written member | corrected member |
|---|---|---|---|---|---|---|
| src/audio_core/sdl_audio.cpp:31-96 | The slot is marked open before the host stream is created. When SDL_OpenAudioDeviceStream returns null, Open returns -1 without resetting `isOpen`. | Any table with a closed slot, when the host returns a null stream. The result is -1, and the slot is now open with a null stream and no handle. | A failed open leaves the slot closed, so no slot is consumed without a handle. The corrected member restores the slot's whole earlier record, not only `isOpen`. Resetting just `isOpen` before the `return -1` would still leave the new type and channel count for GetStatus to report, since GetStatus does not check `isOpen`. | medium, not executed | Properties.OpenFailureLeaksSlot (on Manager.Open) | Manager.OpenWithRollback, with Properties.RollbackOpenFailureKeepsTable |

The other operations and lemmas model the code as written and use `Manager.Open`.
The corrected `Manager.OpenWithRollback` sits beside it and is identical to it
whenever the stream opens.
