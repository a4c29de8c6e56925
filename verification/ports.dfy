/**
 The port table: a fixed number of PortOut records, addressed by 1-based handles.
 */
module Ports {
  import opened Common
  import opened Formats

  /** The host stream a port owns. NoStream is the null pointer that a failed
      SDL_OpenAudioDeviceStream leaves behind. */
  datatype Stream = NoStream | HostStream(id: nat)

  /** One PortOut record. `kind` is the caller's port type, stored and
      reported back but never interpreted. */
  datatype Port = Port(
    isOpen: bool,
    kind: int,
    samples: U32,
    freq: U32,
    format: Format,
    channels: nat,
    sampleSize: nat,
    volume: Volumes,
    stream: Stream)

  /** The table has as many slots as the handles it accepts. */
  type Table = seq<Port>

  /** isValidHandle: a range check against the table size, and nothing else;
      in particular it does not look at `isOpen`. */
  predicate IsValidHandle(t: Table, h: int) {
    1 <= h <= |t|
  }

  /** An open port's shape is the translation of its format. */
  predicate Consistent(p: Port) {
    p.isOpen ==>
      && p.channels == Translate(p.format).channels
      && p.sampleSize == Translate(p.format).sampleSize
  }

  /** The invariant every table reached through the operations keeps. */
  predicate WellFormed(t: Table) {
    forall i :: 0 <= i < |t| ==> Consistent(t[i])
  }

  /** The slot scan of AudioOutOpen from index `from` on: the lowest closed
      slot, or None when every slot from there on is open. */
  function FirstClosed(t: Table, from: nat): (r: Option<nat>)
    requires from <= |t|
    decreases |t| - from
    ensures r.Some? ==>
              && from <= r.value < |t|
              && !t[r.value].isOpen
              && forall j :: from <= j < r.value ==> t[j].isOpen
    ensures r.None? ==> forall j :: from <= j < |t| ==> t[j].isOpen
  {
    if from == |t| then None
    else if !t[from].isOpen then Some(from)
    else FirstClosed(t, from + 1)
  }
}
