/**
 * Normalisation of the extractor's raw format records into the caller-facing
 * format descriptors: a field-by-field map followed by a filter on the direct URL.
 */
module Formats {
  import opened Wrappers
  import opened Text

  /** One raw format record as the extractor reports it; absent properties are `None`. */
  datatype RawFormat = RawFormat(
    formatId: Option<string>,
    ext: Option<string>,
    filesize: Option<nat>,
    filesizeApprox: Option<nat>,
    resolution: Option<string>,
    abr: Option<real>,
    formatNote: Option<string>,
    url: Option<string>)

  /** One format descriptor as the endpoint returns it. */
  datatype Format = Format(
    formatId: Option<string>,
    ext: Option<string>,
    filesize: Option<nat>,
    resolution: string,
    formatNote: Option<string>,
    url: Option<string>)

  // ---------------------------------------------------------------------------
  // JavaScript truthiness of the optional properties
  // ---------------------------------------------------------------------------

  /** A size is truthy when it is present and not zero. */
  predicate TruthySize(n: Option<nat>) { n.Some? && n.value != 0 }

  /** A bitrate is truthy when it is present and not zero. */
  predicate TruthyRate(x: Option<real>) { x.Some? && x.value != 0.0 }

  // ---------------------------------------------------------------------------
  // The map step
  // ---------------------------------------------------------------------------

  /** Rounding to the nearest integer, halves rounded up. */
  function Round(x: real): (r: int)
    ensures r as real - 0.5 <= x < r as real + 0.5
  {
    (x + 0.5).Floor
  }

  /** Rounding picks the only integer at most half a unit below and less than half a unit above. */
  lemma RoundUnique(x: real, n: int)
    requires n as real - 0.5 <= x < n as real + 0.5
    ensures Round(x) == n
  {
  }

  /** The number part of a bitrate label: everything before the `kbps` suffix. */
  function LabelNumber(text: string): string
    requires |text| >= 4
  {
    text[..|text| - 4]
  }

  /** A label of the form `<canonical integer>kbps`. */
  predicate IsKbpsLabel(text: string)
  {
    |text| >= 5 && text[|text| - 4..] == "kbps" && IsCanonicalInt(LabelNumber(text))
  }

  /** The label of an audio-only format: the rounded bitrate, written as an integer, followed by `kbps`. */
  function BitrateLabel(abr: real): (text: string)
    ensures IsKbpsLabel(text)
  {
    var number := IntToDecimal(Round(abr));
    assert (number + "kbps")[..|number|] == number;
    number + "kbps"
  }

  /** The number in a bitrate label reads back as the rounded bitrate. */
  lemma BitrateLabelReadsBack(abr: real)
    ensures var text := BitrateLabel(abr);
      |text| >= 5 && ParseInt(LabelNumber(text)) == Some(Round(abr))
  {
    var text := BitrateLabel(abr);
    assert LabelNumber(text) == IntToDecimal(Round(abr));
    IntDecimalRoundTrip(Round(abr));
  }

  /**
   * The reported size: the exact size when it is truthy, else the approximate one,
   * whatever that is. Whatever is reported is one of the two raw sizes.
   */
  function Filesize(f: RawFormat): (size: Option<nat>)
    ensures size.Some? ==> size == f.filesize || size == f.filesizeApprox
  {
    if TruthySize(f.filesize) then f.filesize else f.filesizeApprox
  }

  /**
   * The reported resolution: the raw resolution when it is truthy, else the label of a
   * truthy audio bitrate, else `Audio`. It is never empty.
   */
  function Resolution(f: RawFormat): (r: string)
    ensures r != ""
  {
    if TruthyString(f.resolution) then f.resolution.value
    else if TruthyRate(f.abr) then BitrateLabel(f.abr.value)
    else "Audio"
  }

  /**
   * The size: the exact size when it is truthy, otherwise the approximate size,
   * so an exact size of 0 also falls back. The result is truthy exactly when
   * one of the two raw sizes is.
   */
  lemma FilesizeFallback(f: RawFormat)
    ensures var s := Filesize(f);
      && (TruthySize(f.filesize) ==> s == f.filesize)
      && (!TruthySize(f.filesize) ==> s == f.filesizeApprox)
      && (TruthySize(s) <==> TruthySize(f.filesize) || TruthySize(f.filesizeApprox))
  {
  }

  /**
   * The resolution: the raw resolution when it is truthy; otherwise, when the bitrate is
   * truthy, a canonical integer followed by `kbps` whose number reads back as the rounded
   * bitrate; otherwise `Audio`.
   */
  lemma ResolutionCases(f: RawFormat)
    ensures var r := Resolution(f);
      && (TruthyString(f.resolution) ==> Some(r) == f.resolution)
      && (!TruthyString(f.resolution) && TruthyRate(f.abr) ==>
            IsKbpsLabel(r) && ParseInt(LabelNumber(r)) == Some(Round(f.abr.value)))
      && (!TruthyString(f.resolution) && !TruthyRate(f.abr) ==> r == "Audio")
  {
    if !TruthyString(f.resolution) && TruthyRate(f.abr) {
      BitrateLabelReadsBack(f.abr.value);
    }
  }

  /**
   * What a descriptor states about the raw record it came from, field by field:
   * four fields copied, the size and the resolution chosen by their fallbacks.
   */
  predicate DescribesRecord(g: Format, f: RawFormat)
  {
    && g.formatId == f.formatId
    && g.ext == f.ext
    && g.formatNote == f.formatNote
    && g.url == f.url
    && (TruthySize(f.filesize) ==> g.filesize == f.filesize)
    && (!TruthySize(f.filesize) ==> g.filesize == f.filesizeApprox)
    && (TruthyString(f.resolution) ==> Some(g.resolution) == f.resolution)
    && (!TruthyString(f.resolution) && TruthyRate(f.abr) ==>
          IsKbpsLabel(g.resolution) && ParseInt(LabelNumber(g.resolution)) == Some(Round(f.abr.value)))
    && (!TruthyString(f.resolution) && !TruthyRate(f.abr) ==> g.resolution == "Audio")
  }

  /** The field-by-field description pins a descriptor down: at most one descriptor fits a record. */
  lemma DescribesRecordUnique(g: Format, h: Format, f: RawFormat)
    requires DescribesRecord(g, f) && DescribesRecord(h, f)
    ensures g == h
  {
    if !TruthyString(f.resolution) && TruthyRate(f.abr) {
      var n := Round(f.abr.value);
      CanonicalIntUnique(LabelNumber(g.resolution), n);
      CanonicalIntUnique(LabelNumber(h.resolution), n);
      assert g.resolution == LabelNumber(g.resolution) + "kbps";
      assert h.resolution == LabelNumber(h.resolution) + "kbps";
    }
  }

  /** The map callback: one raw record to the one descriptor that describes it. */
  function Normalize(f: RawFormat): (g: Format)
    ensures DescribesRecord(g, f)
  {
    FilesizeFallback(f);
    ResolutionCases(f);
    Format(f.formatId, f.ext, Filesize(f), Resolution(f), f.formatNote, f.url)
  }

  /** The map step over the whole list, in order. */
  function NormalizeEach(raws: seq<RawFormat>): (fs: seq<Format>)
    ensures |fs| == |raws|
    ensures forall i :: 0 <= i < |raws| ==> fs[i] == Normalize(raws[i])
  {
    seq(|raws|, i requires 0 <= i < |raws| => Normalize(raws[i]))
  }

  // ---------------------------------------------------------------------------
  // The filter step
  // ---------------------------------------------------------------------------

  /** The filter step: keeps, in order, the descriptors whose direct URL is truthy. */
  function KeepWithUrl(fs: seq<Format>): (kept: seq<Format>)
    ensures |kept| <= |fs|
    ensures forall g :: g in kept ==> g in fs && TruthyString(g.url)
    decreases |fs|
  {
    if fs == [] then []
    else
      var last := fs[|fs| - 1];
      KeepWithUrl(fs[..|fs| - 1]) + (if TruthyString(last.url) then [last] else [])
  }

  /** The positions, in increasing order, of the descriptors whose direct URL is truthy. */
  function KeptPositions(fs: seq<Format>): (ps: seq<nat>)
    ensures forall k :: 0 <= k < |ps| ==> ps[k] < |fs|
    decreases |fs|
  {
    if fs == [] then []
    else KeptPositions(fs[..|fs| - 1]) + (if TruthyString(fs[|fs| - 1].url) then [|fs| - 1] else [])
  }

  predicate StrictlyIncreasing(ps: seq<nat>)
  {
    forall k, l :: 0 <= k < l < |ps| ==> ps[k] < ps[l]
  }

  /** The kept positions are listed in increasing order. */
  lemma {:induction false} KeptPositionsIncrease(fs: seq<Format>)
    ensures StrictlyIncreasing(KeptPositions(fs))
    decreases |fs|
  {
    if fs != [] {
      KeptPositionsIncrease(fs[..|fs| - 1]);
    }
  }

  /** A position is kept if and only if the URL there is truthy. */
  lemma {:induction false} KeptPositionsExact(fs: seq<Format>)
    ensures forall i :: 0 <= i < |fs| ==> (i in KeptPositions(fs) <==> TruthyString(fs[i].url))
    decreases |fs|
  {
    if fs != [] {
      var init := fs[..|fs| - 1];
      KeptPositionsExact(init);
      assert forall i :: 0 <= i < |init| ==> init[i] == fs[i];
    }
  }

  /** The filter output lists the descriptors at the kept positions. */
  lemma {:induction false} KeepWithUrlAtPositions(fs: seq<Format>)
    ensures var ps := KeptPositions(fs);
      && |KeepWithUrl(fs)| == |ps|
      && forall k :: 0 <= k < |ps| ==> KeepWithUrl(fs)[k] == fs[ps[k]]
    decreases |fs|
  {
    if fs != [] {
      var init := fs[..|fs| - 1];
      KeepWithUrlAtPositions(init);
      assert forall i :: 0 <= i < |init| ==> init[i] == fs[i];
    }
  }

  /**
   * The filter keeps exactly the descriptors with a truthy direct URL, each once,
   * in their original order: the output is the subsequence of `fs` at `KeptPositions(fs)`,
   * and a position is kept if and only if its URL is truthy.
   */
  lemma KeepWithUrlIsSubsequence(fs: seq<Format>)
    ensures var ps := KeptPositions(fs);
      && StrictlyIncreasing(ps)
      && |KeepWithUrl(fs)| == |ps|
      && (forall k :: 0 <= k < |ps| ==> KeepWithUrl(fs)[k] == fs[ps[k]])
      && (forall i :: 0 <= i < |fs| ==> (i in ps <==> TruthyString(fs[i].url)))
  {
    KeptPositionsIncrease(fs);
    KeptPositionsExact(fs);
    KeepWithUrlAtPositions(fs);
  }

  // ---------------------------------------------------------------------------
  // The whole pipeline
  // ---------------------------------------------------------------------------

  /**
   * The whole normalisation: map every raw record, then keep the descriptors with a
   * direct URL. Nothing is added, and every descriptor kept has a truthy URL.
   */
  function NormalizeAll(raws: seq<RawFormat>): (out: seq<Format>)
    ensures |out| <= |raws|
    ensures forall g :: g in out ==> TruthyString(g.url)
  {
    KeepWithUrl(NormalizeEach(raws))
  }

  /**
   * The pipeline keeps, in their original order, the normalised forms of exactly the
   * raw records whose direct URL is truthy: the output is no longer than the input,
   * every descriptor in it has a truthy URL, and a raw record with a missing or
   * empty URL contributes nothing.
   */
  lemma NormalizeAllSpec(raws: seq<RawFormat>)
    ensures var out, ps := NormalizeAll(raws), KeptPositions(NormalizeEach(raws));
      && |out| == |ps| <= |raws|
      && StrictlyIncreasing(ps)
      && (forall k :: 0 <= k < |ps| ==> ps[k] < |raws| && out[k] == Normalize(raws[ps[k]]))
      && (forall i :: 0 <= i < |raws| ==> (i in ps <==> TruthyString(raws[i].url)))
      && (forall g :: g in out ==> TruthyString(g.url))
  {
    KeepWithUrlIsSubsequence(NormalizeEach(raws));
  }

  /** The output is empty exactly when no raw record has a truthy direct URL. */
  lemma NormalizeAllEmptyIff(raws: seq<RawFormat>)
    ensures NormalizeAll(raws) == [] <==> forall i :: 0 <= i < |raws| ==> !TruthyString(raws[i].url)
  {
    NormalizeAllSpec(raws);
    var ps := KeptPositions(NormalizeEach(raws));
    if NormalizeAll(raws) == [] {
      assert ps == [];
    } else {
      assert ps[0] in ps;
    }
  }
}
