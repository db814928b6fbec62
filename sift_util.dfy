/** The SIFT descriptor utilities of sift/sift_util.cc and sift/sift_util.py:
    turning a descriptor into a (location-weighted) byte vector, the
    two-frame length-prefixed .sift file layout, merging and counting
    descriptor sets, and loading sampled descriptors into one matrix. */
module SiftUtil {
  import opened Common
  import Util

  type byte = b: int | 0 <= b < 256

  /** One SIFT descriptor: its location, scale and histogram bins. The
      bins are unsigned integers of the message, not yet narrowed. */
  datatype SiftDescriptor = SiftDescriptor(x: real, y: real, scale: real, bins: seq<nat>)

  /** The parameters a descriptor set was extracted with: the fields the
      extraction scripts compare, and resolution_factor, which they do
      not. GridMethod has exactly the five values of the message's enum. */
  datatype GridMethod = Fixed3x3 | Fixed8x8 | Scaled3x3 | ScaledBinWidth | ScaledDoubleBinWidth

  datatype ExtractionParameters = ExtractionParameters(
    rotationInvariance: bool, normalizationThreshold: real, discardUnnormalized: bool,
    multiscale: bool, percentage: real, minimumRadius: real, fractionalXy: bool,
    resolutionFactor: int,
    topLeftX: int, topLeftY: int, bottomRightX: int, bottomRightY: int,
    implementation: int, gridMethod: GridMethod, smoothed: bool,
    firstLevelSmoothing: real, fast: bool)

  /** A descriptor set; None as parameters is a message whose parameters
      field was never set. */
  datatype DescriptorSet = DescriptorSet(parameters: Option<ExtractionParameters>, descriptors: seq<SiftDescriptor>)

  // ---------------------------------------------------------------------
  // Descriptor to weighted array.

  /** The conversion of an integer to uint8_t: reduction modulo 256. */
  function Narrow(v: int): byte
  {
    v % 256
  }

  function NarrowAll(bins: seq<nat>): (r: seq<byte>)
    ensures |r| == |bins|
    ensures forall i :: 0 <= i < |bins| ==> r[i] == Narrow(bins[i])
  {
    if |bins| == 0 then [] else NarrowAll(bins[..|bins| - 1]) + [Narrow(bins[|bins| - 1])]
  }

  /** static_cast<int> of a real: truncation toward zero. */
  function Trunc(r: real): int
  {
    if r >= 0.0 then r.Floor else -((-r).Floor)
  }

  /** A coordinate in [0, 1] scaled to [0, 127] * alpha and rounded. */
  function LocationValue(coordinate: real, alpha: real): byte
  {
    Narrow(Trunc(coordinate * 127.0 * alpha + 0.5))
  }

  /** Number of entries the C++ conversion writes. */
  function WeightedLength(binCount: nat, alpha: real): nat
  {
    if alpha > 0.0 then binCount + 2 else binCount
  }

  /** What ConvertProtobufDescriptorToWeightedArray writes: the narrowed
      bins, then the two weighted location entries when alpha > 0. */
  function WeightedArray(d: SiftDescriptor, alpha: real): (r: seq<byte>)
    ensures |r| == WeightedLength(|d.bins|, alpha)
    ensures forall i :: 0 <= i < |d.bins| ==> r[i] == Narrow(d.bins[i])
    ensures alpha > 0.0 ==> r[|d.bins|] == LocationValue(d.x, alpha) && r[|d.bins| + 1] == LocationValue(d.y, alpha)
  {
    NarrowAll(d.bins) + (if alpha > 0.0 then [LocationValue(d.x, alpha), LocationValue(d.y, alpha)] else [])
  }

  /** The C++ conversion into the caller's buffer. It writes exactly the
      first WeightedLength entries and returns that count. */
  method ConvertToWeightedArray(descriptor: SiftDescriptor, alpha: real, destination: array<byte>)
    returns (dimensions: int)
    requires WeightedLength(|descriptor.bins|, alpha) <= destination.Length
    modifies destination
    ensures dimensions == WeightedLength(|descriptor.bins|, alpha)
    ensures destination[..dimensions] == WeightedArray(descriptor, alpha)
    ensures destination[dimensions..] == old(destination[dimensions..])
  {
    dimensions := |descriptor.bins|;
    if alpha > 0.0 {
      dimensions := dimensions + 2;
    }
    for i := 0 to |descriptor.bins|
      invariant forall k :: 0 <= k < i ==> destination[k] == Narrow(descriptor.bins[k])
      invariant forall k :: i <= k < destination.Length ==> destination[k] == old(destination[k])
    {
      destination[i] := Narrow(descriptor.bins[i]);
    }
    if alpha > 0.0 {
      destination[dimensions - 2] := LocationValue(descriptor.x, alpha);
      destination[dimensions - 1] := LocationValue(descriptor.y, alpha);
    }
    ghost var expected := WeightedArray(descriptor, alpha);
    assert forall k :: 0 <= k < |descriptor.bins| ==> destination[k] == expected[k];
    assert alpha > 0.0 ==> destination[dimensions - 2] == expected[dimensions - 2];
    assert alpha > 0.0 ==> destination[dimensions - 1] == expected[dimensions - 1];
    assert forall k :: 0 <= k < dimensions ==> destination[k] == expected[k];
  }

  /** For bins that fit in a byte and a location in [0, 1] whose weighted
      value stays below 256, the array holds the bins unchanged and the
      location rounded to the nearest integer of [0, 127 * alpha + 0.5]. */
  lemma WeightedArrayValues(d: SiftDescriptor, alpha: real)
    requires forall i :: 0 <= i < |d.bins| ==> d.bins[i] < 256
    requires alpha > 0.0 && 0.0 <= d.x <= 1.0 && 0.0 <= d.y <= 1.0
    requires 127.0 * alpha + 0.5 < 256.0
    ensures forall i :: 0 <= i < |d.bins| ==> WeightedArray(d, alpha)[i] == d.bins[i]
    ensures var loc := WeightedArray(d, alpha)[|d.bins|];
      loc == (d.x * 127.0 * alpha + 0.5).Floor && loc as real <= 127.0 * alpha + 0.5
  {
    forall i | 0 <= i < |d.bins|
      ensures WeightedArray(d, alpha)[i] == d.bins[i]
    {
      assert WeightedArray(d, alpha)[i] == Narrow(d.bins[i]);
    }
    LocationInByte(d.x, alpha);
  }

  /** A location in [0, 1] whose weighted value stays below 256 is stored
      rounded to the nearest integer, at most 127 * alpha + 0.5. */
  lemma LocationInByte(x: real, alpha: real)
    requires alpha > 0.0 && 0.0 <= x <= 1.0 && 127.0 * alpha + 0.5 < 256.0
    ensures LocationValue(x, alpha) == (x * 127.0 * alpha + 0.5).Floor
    ensures LocationValue(x, alpha) as real <= 127.0 * alpha + 0.5
  {
    ScaleBounds(x, 127.0, alpha);
    var v := x * 127.0 * alpha + 0.5;
    RoundedInByte(v);
    assert LocationValue(x, alpha) == Narrow(Trunc(v));
    assert LocationValue(x, alpha) == v.Floor;
    assert v.Floor as real <= v;
    assert v <= 127.0 * alpha + 0.5;
  }

  /** A value in [0, 256) is rounded down and stored unchanged. */
  lemma RoundedInByte(v: real)
    requires 0.0 <= v < 256.0
    ensures Narrow(Trunc(v)) == v.Floor && v.Floor as real <= v
  {
    assert Trunc(v) == v.Floor;
    assert 0 <= v.Floor < 256;
  }

  lemma ScaleBounds(x: real, c: real, alpha: real)
    requires 0.0 <= x <= 1.0 && c > 0.0 && alpha > 0.0
    ensures 0.0 <= x * c * alpha <= c * alpha
  {
    var a := c * alpha;
    assert x * c * alpha == x * a;
    assert (1.0 - x) * a >= 0.0;
  }

  /** convert_protobuf_descriptor_to_weighted_array: the length grows by
      two whenever alpha != 0, but the location is written only when
      alpha > 0, so a negative alpha leaves two zero entries. */
  function PyWeightedArray(d: SiftDescriptor, alpha: real): (r: seq<byte>)
    ensures |r| == |d.bins| + (if alpha == 0.0 then 0 else 2)
  {
    NarrowAll(d.bins) +
      (if alpha == 0.0 then []
       else if alpha > 0.0 then [LocationValue(d.x, alpha), LocationValue(d.y, alpha)]
       else [0, 0])
  }

  /** The two conversions agree for alpha >= 0; for a negative alpha the
      script's array is the C++ array followed by two zeros. */
  lemma PyAndCppConversions(d: SiftDescriptor, alpha: real)
    ensures alpha >= 0.0 ==> PyWeightedArray(d, alpha) == WeightedArray(d, alpha)
    ensures alpha < 0.0 ==> PyWeightedArray(d, alpha) == WeightedArray(d, alpha) + [0, 0]
  {
  }

  // ---------------------------------------------------------------------
  // The .sift file layout: [int32 n][n bytes of parameters][int32 m][m bytes of set].

  const Int32Limit: int := 0x8000_0000

  /** A native little-endian 32-bit int holding a non-negative size. */
  function EncodeInt32(n: int): (r: seq<byte>)
    requires 0 <= n < Int32Limit
    ensures |r| == 4
  {
    var q1 := n / 256;
    var q2 := q1 / 256;
    [n % 256, q1 % 256, q2 % 256, q2 / 256]
  }

  /** Reading four bytes back as a signed 32-bit int. */
  function DecodeInt32(b: seq<byte>): int
    requires |b| == 4
  {
    var u: int := b[0] as int + 256 * (b[1] as int) + 65536 * (b[2] as int) + 16777216 * (b[3] as int);
    if u >= Int32Limit then u - 2 * Int32Limit else u
  }

  lemma Int32RoundTrip(n: int)
    requires 0 <= n < Int32Limit
    ensures DecodeInt32(EncodeInt32(n)) == n
  {
    var q1 := n / 256;
    var q2 := q1 / 256;
    var q3 := q2 / 256;
    assert n == 256 * q1 + n % 256 && q1 < 8388608;
    assert q1 == 256 * q2 + q1 % 256 && q2 < 32768;
    assert q2 == 256 * q3 + q2 % 256 && q3 < 128;
  }

  /** WriteDescriptorSetToFile, and the same layout written by
      convert_bare_set_to_set_with_params: both payloads are serialized
      messages, opaque here. */
  function EncodeFrames(parameters: seq<byte>, payload: seq<byte>): (r: seq<byte>)
    requires |parameters| < Int32Limit && |payload| < Int32Limit
    ensures |r| == 8 + |parameters| + |payload|
  {
    EncodeInt32(|parameters|) + parameters + EncodeInt32(|payload|) + payload
  }

  /** The first frame's payload (ReadParametersFromFile,
      get_extraction_parameters); None when the file is too short for the
      length it announces. */
  function FirstFrame(file: seq<byte>): Option<seq<byte>>
  {
    if |file| < 4 then None
    else
      var n := DecodeInt32(file[..4]);
      if n < 0 || 4 + n > |file| then None else Some(file[4..4 + n])
  }

  /** The second frame's payload, found by skipping the first frame
      (ReadDescriptorSetFromFile, load_descriptors). */
  function SecondFrame(file: seq<byte>): Option<seq<byte>>
  {
    if |file| < 4 then None
    else
      var n := DecodeInt32(file[..4]);
      if n < 0 || 8 + n > |file| then None
      else
        var m := DecodeInt32(file[4 + n..8 + n]);
        if m < 0 || 8 + n + m > |file| then None else Some(file[8 + n..8 + n + m])
  }

  /** Writing then reading gives back both payloads. */
  lemma FramesRoundTrip(parameters: seq<byte>, payload: seq<byte>)
    requires |parameters| < Int32Limit && |payload| < Int32Limit
    ensures FirstFrame(EncodeFrames(parameters, payload)) == Some(parameters)
    ensures SecondFrame(EncodeFrames(parameters, payload)) == Some(payload)
  {
    var file := EncodeFrames(parameters, payload);
    var n := |parameters|;
    assert file[..4] == EncodeInt32(n);
    Int32RoundTrip(n);
    assert file[4..4 + n] == parameters;
    assert file[4 + n..8 + n] == EncodeInt32(|payload|);
    Int32RoundTrip(|payload|);
    assert file[8 + n..8 + n + |payload|] == payload;
  }

  /** And a file both frames of which read back, with nothing after the
      second, is exactly the encoding of its two payloads. */
  lemma FramesDecodeEncode(file: seq<byte>)
    requires FirstFrame(file).Some? && SecondFrame(file).Some?
    requires |file| == 8 + |FirstFrame(file).value| + |SecondFrame(file).value|
    ensures |FirstFrame(file).value| < Int32Limit && |SecondFrame(file).value| < Int32Limit
    ensures EncodeFrames(FirstFrame(file).value, SecondFrame(file).value) == file
  {
    var p := FirstFrame(file).value;
    var s := SecondFrame(file).value;
    var n := |p|;
    DecodeInt32Range(file[..4]);
    DecodeInt32Range(file[4 + n..8 + n]);
    DecodeEncodeInt32(file[..4]);
    DecodeEncodeInt32(file[4 + n..8 + n]);
    assert file == file[..4] + file[4..4 + n] + file[4 + n..8 + n] + file[8 + n..];
  }

  lemma DecodeInt32Range(b: seq<byte>)
    requires |b| == 4
    ensures DecodeInt32(b) < Int32Limit
  {
  }

  lemma DecodeEncodeInt32(b: seq<byte>)
    requires |b| == 4 && 0 <= DecodeInt32(b)
    ensures EncodeInt32(DecodeInt32(b)) == b
  {
    var n := DecodeInt32(b);
    var q2 := b[2] as int + 256 * (b[3] as int);
    var q1 := b[1] as int + 256 * q2;
    assert n == b[0] as int + 256 * q1;
    DivModUnique(n, 256, q1, b[0]);
    DivModUnique(q1, 256, q2, b[1]);
    DivModUnique(q2, 256, b[3], b[2]);
  }

  /** The file written under a name; other files are untouched. */
  function WriteDescriptorSetToFile(files: map<string, seq<byte>>, filename: string,
                                    parameters: seq<byte>, payload: seq<byte>): (r: map<string, seq<byte>>)
    requires |parameters| < Int32Limit && |payload| < Int32Limit
    ensures filename in r && FirstFrame(r[filename]) == Some(parameters) && SecondFrame(r[filename]) == Some(payload)
    ensures forall f :: f in files && f != filename ==> f in r && r[f] == files[f]
  {
    FramesRoundTrip(parameters, payload);
    files[filename := EncodeFrames(parameters, payload)]
  }

  /** Reading the serialized set back: the name is home-expanded, a
      missing file is fatal, and the result replaces the caller's set
      entirely. A file too short for its frame lengths is reported as
      fatal here. */
  function ReadDescriptorSetFromFile(files: map<string, seq<byte>>, filename: string,
                                     home: Option<string>, userProfile: Option<string>): (r: Result<seq<byte>>)
    ensures r.Ok? ==> var e := Util.ExpandUser(filename, home, userProfile);
      e.Ok? && e.value in files && SecondFrame(files[e.value]) == Some(r.value)
  {
    match Util.ExpandUser(filename, home, userProfile)
    case Fatal(why) => Fatal(why)
    case Ok(path) =>
      if path !in files then Fatal(path + " doesn't exist.")
      else
        match SecondFrame(files[path])
        case None => Fatal("truncated descriptor file")
        case Some(payload) => Ok(payload)
  }

  /** Write then read under a plain (non-'~') name round-trips. */
  lemma WriteThenRead(files: map<string, seq<byte>>, filename: string, parameters: seq<byte>, payload: seq<byte>,
                      home: Option<string>, userProfile: Option<string>)
    requires |parameters| < Int32Limit && |payload| < Int32Limit
    requires |filename| == 0 || filename[0] != '~'
    ensures ReadDescriptorSetFromFile(WriteDescriptorSetToFile(files, filename, parameters, payload),
                                      filename, home, userProfile) == Ok(payload)
  {
  }

  // ---------------------------------------------------------------------
  // Counting and merging descriptor sets.

  /** count_descriptors_in_list over the loaded sets: the sum of their sizes. */
  function CountInList(sets: seq<DescriptorSet>): nat
  {
    if |sets| == 0 then 0 else CountInList(sets[..|sets| - 1]) + |sets[|sets| - 1].descriptors|
  }

  /** All descriptors of the sets, set by set, in order. */
  function AllDescriptors(sets: seq<DescriptorSet>): (r: seq<SiftDescriptor>)
    ensures |r| == CountInList(sets)
  {
    if |sets| == 0 then [] else AllDescriptors(sets[..|sets| - 1]) + sets[|sets| - 1].descriptors
  }

  /** Counting a concatenation of lists adds the counts. */
  lemma {:induction false} CountInListAppend(s: seq<DescriptorSet>, t: seq<DescriptorSet>)
    ensures CountInList(s + t) == CountInList(s) + CountInList(t)
    decreases |t|
  {
    if |t| == 0 {
      assert s + t == s;
    } else {
      assert (s + t)[..|s + t| - 1] == s + t[..|t| - 1];
      CountInListAppend(s, t[..|t| - 1]);
    }
  }

  /** The parameters field after CopyFrom: the source's message, or a
      present message of default values when the source's field was
      never set. */
  function CopiedParameters(source: Option<ExtractionParameters>, defaults: ExtractionParameters)
    : (r: Option<ExtractionParameters>)
    ensures r.Some?
    ensures source.Some? ==> r == source
  {
    if source.Some? then source else Some(defaults)
  }

  /** merge_descriptor_sets: every descriptor of every set, in order,
      under the parameters of the last set (unset for an empty list).
      CopyFrom marks the field present even when the last set's was never
      set, so a non-empty list always yields parameters; defaults is the
      message's default value. */
  method MergeDescriptorSets(sets: seq<DescriptorSet>, defaults: ExtractionParameters) returns (merged: DescriptorSet)
    ensures merged.descriptors == AllDescriptors(sets)
    ensures |merged.descriptors| == CountInList(sets)
    ensures merged.parameters.Some? <==> |sets| > 0
    ensures |sets| > 0 && sets[|sets| - 1].parameters.Some? ==> merged.parameters == sets[|sets| - 1].parameters
    ensures |sets| > 0 && sets[|sets| - 1].parameters.None? ==> merged.parameters == Some(defaults)
  {
    merged := DescriptorSet(None, []);
    for s := 0 to |sets|
      invariant merged.descriptors == AllDescriptors(sets[..s])
      invariant merged.parameters == if s == 0 then None else CopiedParameters(sets[s - 1].parameters, defaults)
    {
      var fileSet := sets[s];
      assert sets[..s + 1][..s] == sets[..s];
      for k := 0 to |fileSet.descriptors|
        invariant merged.descriptors == AllDescriptors(sets[..s]) + fileSet.descriptors[..k]
      {
        var descriptor := fileSet.descriptors[k];
        var copy := SiftDescriptor(descriptor.x, descriptor.y, descriptor.scale, descriptor.bins);
        assert fileSet.descriptors[..k + 1] == fileSet.descriptors[..k] + [copy];
        merged := merged.(descriptors := merged.descriptors + [copy]);
      }
      assert fileSet.descriptors[..|fileSet.descriptors|] == fileSet.descriptors;
      merged := merged.(parameters := CopiedParameters(fileSet.parameters, defaults));
    }
    assert sets[..|sets|] == sets;
  }

  // ---------------------------------------------------------------------
  // load_array_from_files.

  const InitialArraySize: nat := 500
  const SiftBins: nat := 128

  /** The share of descriptors to keep: all of them without a cap,
      otherwise cap / available, at most 1, and 0 when nothing is available. */
  function PercentageToLoad(maxPoints: Option<int>, available: nat): (p: real)
    ensures 0.0 <= p <= 1.0 || (maxPoints.Some? && maxPoints.value < 0)
  {
    if maxPoints.None? then 1.0
    else if available > 0 then
      (if 1.0 <= maxPoints.value as real / available as real then 1.0 else maxPoints.value as real / available as real)
    else 0.0
  }

  /** Whether another descriptor may still be considered. */
  predicate Room(maxPoints: Option<int>, taken: nat)
  {
    maxPoints.None? || taken < maxPoints.value
  }

  /** What the sampling has done after the descriptors ds: the ones it
      kept, and how many draws it used. A draw is used only for a
      descriptor considered while there is room, and it keeps the
      descriptor iff it is below the percentage. */
  datatype Sampling = Sampling(kept: seq<SiftDescriptor>, used: nat)

  function Sample(ds: seq<SiftDescriptor>, draws: seq<real>, percentage: real, maxPoints: Option<int>): (r: Sampling)
    requires |draws| >= |ds|
    ensures r.used <= |ds| && |r.kept| <= r.used
    ensures maxPoints.Some? && 0 <= maxPoints.value ==> |r.kept| <= maxPoints.value
  {
    if |ds| == 0 then Sampling([], 0)
    else
      var before := Sample(ds[..|ds| - 1], draws, percentage, maxPoints);
      if Room(maxPoints, |before.kept|) then
        if draws[before.used] < percentage then Sampling(before.kept + [ds[|ds| - 1]], before.used + 1)
        else Sampling(before.kept, before.used + 1)
      else before
  }

  /** With every draw below the percentage and a cap (if any) no smaller
      than the number of descriptors, every descriptor is kept. */
  lemma {:induction false} SampleKeepsAll(ds: seq<SiftDescriptor>, draws: seq<real>, percentage: real,
                                          maxPoints: Option<int>)
    requires |draws| >= |ds|
    requires forall i :: 0 <= i < |draws| ==> draws[i] < percentage
    requires maxPoints.Some? ==> |ds| <= maxPoints.value
    ensures Sample(ds, draws, percentage, maxPoints).kept == ds
    ensures Sample(ds, draws, percentage, maxPoints).used == |ds|
  {
    if |ds| > 0 {
      var init, last := ds[..|ds| - 1], ds[|ds| - 1];
      assert init + [last] == ds;
      SampleKeepsAll(init, draws, percentage, maxPoints);
      SampleStep(init, last, draws, percentage, maxPoints);
      assert draws[|init|] < percentage;
    }
  }

  /** Without a cap, or with a cap at least the number available, the
      whole list is loaded (random draws lie in [0, 1)). */
  lemma LoadsEverything(files: seq<DescriptorSet>, draws: seq<real>, maxPoints: Option<int>)
    requires |draws| >= CountInList(files)
    requires forall i :: 0 <= i < |draws| ==> 0.0 <= draws[i] < 1.0
    requires maxPoints.Some? ==> maxPoints.value >= CountInList(files)
    ensures Sample(AllDescriptors(files), draws, PercentageToLoad(maxPoints, CountInList(files)), maxPoints).kept
            == AllDescriptors(files)
  {
    var n := CountInList(files);
    if n == 0 {
      assert AllDescriptors(files) == [];
    } else {
      assert PercentageToLoad(maxPoints, n) == 1.0 by {
        if maxPoints.Some? {
          RatioAtLeastOne(maxPoints.value, n);
        }
      }
      SampleKeepsAll(AllDescriptors(files), draws, 1.0, maxPoints);
    }
  }

  lemma RatioAtLeastOne(m: int, n: int)
    requires m >= n > 0
    ensures m as real / n as real >= 1.0
  {
  }

  predicate Shaped(d: SiftDescriptor)
  {
    |d.bins| == SiftBins || |d.bins| == 1
  }

  /** Every kept descriptor's bins fill the 128 bin columns. */
  predicate AllShaped(kept: seq<SiftDescriptor>)
  {
    forall i :: 0 <= i < |kept| ==> Shaped(kept[i])
  }

  /** Sampling more descriptors only appends to what was kept. */
  lemma {:induction false} SampleKeptPrefix(ds: seq<SiftDescriptor>, n: nat, draws: seq<real>, percentage: real,
                                            maxPoints: Option<int>)
    requires n <= |ds| <= |draws|
    ensures Sample(ds[..n], draws, percentage, maxPoints).kept <= Sample(ds, draws, percentage, maxPoints).kept
    decreases |ds|
  {
    if n == |ds| {
      assert ds[..n] == ds;
    } else {
      var init := ds[..|ds| - 1];
      SampleKeptPrefix(init, n, draws, percentage, maxPoints);
      assert init[..n] == ds[..n];
    }
  }

  /** Once a kept descriptor cannot fill the bin columns, no later
      descriptor makes the load succeed. */
  lemma UnshapedPersists(ds: seq<SiftDescriptor>, all: seq<SiftDescriptor>, draws: seq<real>, percentage: real,
                         maxPoints: Option<int>)
    requires ds <= all && |all| <= |draws|
    requires !AllShaped(Sample(ds, draws, percentage, maxPoints).kept)
    ensures !AllShaped(Sample(all, draws, percentage, maxPoints).kept)
  {
    assert all[..|ds|] == ds;
    SampleKeptPrefix(all, |ds|, draws, percentage, maxPoints);
  }

  /** The descriptors of the first n sets come first among all of them. */
  lemma {:induction false} AllDescriptorsPrefix(files: seq<DescriptorSet>, n: nat)
    requires n <= |files|
    ensures AllDescriptors(files[..n]) <= AllDescriptors(files)
    decreases |files|
  {
    if n == |files| {
      assert files[..n] == files;
    } else {
      var init := files[..|files| - 1];
      AllDescriptorsPrefix(init, n);
      assert init[..n] == files[..n];
    }
  }

  /** A row of the matrix: the 128 bin columns (a single bin is broadcast
      over all of them), then two location columns when alpha != 0,
      written only when alpha > 0. */
  function MatrixRow(d: SiftDescriptor, alpha: real): (r: seq<byte>)
    requires Shaped(d)
    ensures |r| == (if alpha == 0.0 then SiftBins else SiftBins + 2)
  {
    var bins := if |d.bins| == 1 then seq(SiftBins, _ => Narrow(d.bins[0])) else NarrowAll(d.bins);
    bins + (if alpha == 0.0 then []
            else if alpha > 0.0 then [LocationValue(d.x, alpha), LocationValue(d.y, alpha)]
            else [0, 0])
  }

  /** A full-width descriptor becomes the same vector as the script's own
      conversion. */
  lemma MatrixRowIsConversion(d: SiftDescriptor, alpha: real)
    requires |d.bins| == SiftBins
    ensures MatrixRow(d, alpha) == PyWeightedArray(d, alpha)
  {
  }

  function MatrixRows(ds: seq<SiftDescriptor>, alpha: real): (r: seq<seq<byte>>)
    requires forall i :: 0 <= i < |ds| ==> Shaped(ds[i])
    ensures |r| == |ds|
    ensures forall i :: 0 <= i < |ds| ==> r[i] == MatrixRow(ds[i], alpha)
  {
    if |ds| == 0 then [] else MatrixRows(ds[..|ds| - 1], alpha) + [MatrixRow(ds[|ds| - 1], alpha)]
  }

  function Zeros(width: nat): seq<byte>
  {
    seq(width, _ => 0)
  }

  lemma CountInListPrefix(files: seq<DescriptorSet>, f: nat)
    requires f < |files|
    ensures CountInList(files[..f]) + |files[f].descriptors| <= CountInList(files)
  {
    CountInListAppend(files[..f + 1], files[f + 1..]);
    assert files[..f + 1] + files[f + 1..] == files;
    assert files[..f + 1][..f] == files[..f];
  }

  /** numpy's in-place resize to twice the rows: old rows kept, new rows zero. */
  method Grow(points: array<seq<byte>>, width: nat) returns (bigger: array<seq<byte>>)
    ensures fresh(bigger)
    ensures bigger.Length == 2 * points.Length
    ensures bigger[..points.Length] == points[..]
    ensures forall i :: points.Length <= i < bigger.Length ==> bigger[i] == Zeros(width)
  {
    bigger := new seq<byte>[2 * points.Length](_ => Zeros(width));
    for i := 0 to points.Length
      invariant bigger[..i] == points[..i]
      invariant forall k :: points.Length <= k < bigger.Length ==> bigger[k] == Zeros(width)
    {
      bigger[i] := points[i];
    }
  }

  /** The matrix holding the rows of the kept descriptors: the first
      pIndex rows are theirs, the rest are still zero. */
  predicate Stored(rows: seq<seq<byte>>, pIndex: nat, kept: seq<SiftDescriptor>, alpha: real,
                   maxPoints: Option<int>)
  {
    pIndex <= |rows| && pIndex == |kept| &&
    (forall i :: 0 <= i < pIndex ==> Shaped(kept[i])) &&
    rows[..pIndex] == MatrixRows(kept, alpha) &&
    (maxPoints.None? ==> |rows| >= InitialArraySize) &&
    (maxPoints.Some? ==> |rows| == maxPoints.value) &&
    forall i :: pIndex <= i < |rows| ==> rows[i] == Zeros(if alpha == 0.0 then SiftBins else SiftBins + 2)
  }

  /** The matrix after the sampling has gone through some descriptors,
      with next draws used. */
  predicate Loaded(rows: seq<seq<byte>>, pIndex: nat, next: nat, st: Sampling, alpha: real,
                   maxPoints: Option<int>)
  {
    next == st.used && Stored(rows, pIndex, st.kept, alpha, maxPoints)
  }

  /** What one more descriptor does to the sampling. */
  lemma SampleStep(prefix: seq<SiftDescriptor>, d: SiftDescriptor, draws: seq<real>, percentage: real,
                   maxPoints: Option<int>)
    requires |prefix| < |draws|
    ensures var st := Sample(prefix, draws, percentage, maxPoints);
      Sample(prefix + [d], draws, percentage, maxPoints) ==
        if !Room(maxPoints, |st.kept|) then st
        else if draws[st.used] < percentage then Sampling(st.kept + [d], st.used + 1)
        else Sampling(st.kept, st.used + 1)
  {
    assert (prefix + [d])[..|prefix|] == prefix;
  }

  /** The row the script writes for a kept descriptor into a zero row:
      the bins into the first 128 columns, then the location if alpha > 0. */
  method WriteRow(d: SiftDescriptor, alpha: real, zeroRow: seq<byte>) returns (row: seq<byte>)
    requires Shaped(d) && zeroRow == Zeros(if alpha == 0.0 then SiftBins else SiftBins + 2)
    ensures row == MatrixRow(d, alpha)
  {
    var dimensions := |zeroRow|;
    var bins := if |d.bins| == 1 then seq(SiftBins, _ => Narrow(d.bins[0])) else NarrowAll(d.bins);
    row := bins + zeroRow[SiftBins..];
    if alpha > 0.0 {
      row := row[dimensions - 2 := LocationValue(d.x, alpha)];
      row := row[dimensions - 1 := LocationValue(d.y, alpha)];
    }
  }

  /** Writes the row of a kept descriptor at pIndex, growing the matrix
      first when it is full; false when the bins cannot be assigned. */
  method AppendRow(points: array<seq<byte>>, pIndex: nat, d: SiftDescriptor, alpha: real,
                   maxPoints: Option<int>, ghost kept: seq<SiftDescriptor>)
    returns (ok: bool, points': array<seq<byte>>)
    requires Stored(points[..], pIndex, kept, alpha, maxPoints) && Room(maxPoints, pIndex)
    modifies points
    ensures points' == points || fresh(points')
    ensures ok <==> Shaped(d)
    ensures ok ==> Stored(points'[..], pIndex + 1, kept + [d], alpha, maxPoints)
  {
    var dimensions := if alpha == 0.0 then SiftBins else SiftBins + 2;
    points' := points;
    if pIndex >= points.Length {
      points' := Grow(points, dimensions);
    }
    if !Shaped(d) {
      return false, points';
    }
    ghost var before := points'[..];
    var row := WriteRow(d, alpha, points'[pIndex]);
    points'[pIndex] := row;
    assert points'[..] == before[pIndex := row];
    assert points'[..pIndex + 1] == before[..pIndex] + [row];
    return true, points';
  }

  /** One descriptor of the loop: consider it if there is room, draw,
      and write its row if the draw keeps it. Returns false when the
      kept descriptor's bins cannot be assigned. */
  method LoadOne(points: array<seq<byte>>, pIndex: nat, next: nat, d: SiftDescriptor, alpha: real,
                 maxPoints: Option<int>, draws: seq<real>, percentage: real, ghost prefix: seq<SiftDescriptor>)
    returns (ok: bool, points': array<seq<byte>>, pIndex': nat, next': nat)
    requires |prefix| < |draws|
    requires Loaded(points[..], pIndex, next, Sample(prefix, draws, percentage, maxPoints), alpha, maxPoints)
    modifies points
    ensures points' == points || fresh(points')
    ensures ok ==> Loaded(points'[..], pIndex', next', Sample(prefix + [d], draws, percentage, maxPoints), alpha, maxPoints)
    ensures !ok ==> !AllShaped(Sample(prefix + [d], draws, percentage, maxPoints).kept)
  {
    SampleStep(prefix, d, draws, percentage, maxPoints);
    points', pIndex', next' := points, pIndex, next;
    if maxPoints.None? || pIndex < maxPoints.value {
      var draw := draws[next];
      next' := next + 1;
      if draw < percentage {
        ghost var kept := Sample(prefix, draws, percentage, maxPoints).kept;
        ok, points' := AppendRow(points, pIndex, d, alpha, maxPoints, kept);
        pIndex' := pIndex + 1;
        assert (kept + [d])[|kept|] == d;
        return;
      }
    }
    return true, points', pIndex', next';
  }

  lemma ExtendedIsPrefix(done: seq<SiftDescriptor>, descriptors: seq<SiftDescriptor>, k: nat)
    requires k < |descriptors|
    ensures done + descriptors[..k] + [descriptors[k]] <= done + descriptors
  {
    assert done + descriptors[..k] + [descriptors[k]] == (done + descriptors)[..|done| + k + 1];
  }

  /** A descriptor of the file that fails the load fails the whole file. */
  lemma FailedWithin(done: seq<SiftDescriptor>, descriptors: seq<SiftDescriptor>, k: nat, prefix: seq<SiftDescriptor>,
                     draws: seq<real>, percentage: real, maxPoints: Option<int>)
    requires k < |descriptors| && prefix == done + descriptors[..k] && |done| + |descriptors| <= |draws|
    requires !AllShaped(Sample(prefix + [descriptors[k]], draws, percentage, maxPoints).kept)
    ensures !AllShaped(Sample(done + descriptors, draws, percentage, maxPoints).kept)
  {
    ExtendedIsPrefix(done, descriptors, k);
    UnshapedPersists(prefix + [descriptors[k]], done + descriptors, draws, percentage, maxPoints);
  }

  /** The loop over the descriptors of one file. */
  method LoadFile(points: array<seq<byte>>, pIndex: nat, next: nat, descriptors: seq<SiftDescriptor>,
                  alpha: real, maxPoints: Option<int>, draws: seq<real>, percentage: real,
                  ghost done: seq<SiftDescriptor>)
    returns (ok: bool, points': array<seq<byte>>, pIndex': nat, next': nat)
    requires |done| + |descriptors| <= |draws|
    requires Loaded(points[..], pIndex, next, Sample(done, draws, percentage, maxPoints), alpha, maxPoints)
    modifies points
    ensures points' == points || fresh(points')
    ensures ok ==> Loaded(points'[..], pIndex', next', Sample(done + descriptors, draws, percentage, maxPoints), alpha, maxPoints)
    ensures !ok ==> !AllShaped(Sample(done + descriptors, draws, percentage, maxPoints).kept)
  {
    points', pIndex', next' := points, pIndex, next;
    ghost var prefix := done;
    for k := 0 to |descriptors|
      invariant prefix == done + descriptors[..k]
      invariant |prefix| == |done| + k
      invariant points' == points || fresh(points')
      invariant Loaded(points'[..], pIndex', next', Sample(prefix, draws, percentage, maxPoints), alpha, maxPoints)
    {
      var d := descriptors[k];
      PrefixExtend(descriptors, k);
      ok, points', pIndex', next' := LoadOne(points', pIndex', next', d, alpha, maxPoints,
                                             draws, percentage, prefix);
      if !ok {
        FailedWithin(done, descriptors, k, prefix, draws, percentage, maxPoints);
        return;
      }
      prefix := prefix + [d];
    }
    assert descriptors[..|descriptors|] == descriptors;
    return true, points', pIndex', next';
  }

  /** The descriptors of one more set extend those of the sets before it. */
  lemma AllDescriptorsStep(files: seq<DescriptorSet>, f: nat)
    requires f < |files|
    ensures AllDescriptors(files[..f + 1]) == AllDescriptors(files[..f]) + files[f].descriptors
  {
    assert files[..f + 1][..f] == files[..f];
  }

  /** A load that fails inside set f fails over the whole list. */
  lemma FileFailedWithin(files: seq<DescriptorSet>, f: nat, draws: seq<real>, percentage: real,
                         maxPoints: Option<int>)
    requires f < |files| && CountInList(files[..f]) + |files[f].descriptors| <= CountInList(files) <= |draws|
    requires !AllShaped(Sample(AllDescriptors(files[..f]) + files[f].descriptors, draws, percentage, maxPoints).kept)
    ensures !AllShaped(Sample(AllDescriptors(files), draws, percentage, maxPoints).kept)
  {
    AllDescriptorsStep(files, f);
    AllDescriptorsPrefix(files, f + 1);
    UnshapedPersists(AllDescriptors(files[..f + 1]), AllDescriptors(files), draws, percentage, maxPoints);
  }

  /** The sampling loop with its growing matrix. A kept descriptor whose
      bins cannot be assigned to the 128 bin columns raises, and so does
      a negative cap, which cannot size the matrix. */
  method LoadArrayFromFiles(files: seq<DescriptorSet>, alpha: real, maxPoints: Option<int>, draws: seq<real>)
    returns (r: Result<seq<seq<byte>>>)
    requires |draws| >= CountInList(files)
    ensures maxPoints.Some? && maxPoints.value < 0 ==> r.Fatal?
    ensures r.Ok? <==>
      (maxPoints.None? || maxPoints.value >= 0) &&
      AllShaped(Sample(AllDescriptors(files), draws, PercentageToLoad(maxPoints, CountInList(files)), maxPoints).kept)
    ensures r.Ok? ==>
      var kept := Sample(AllDescriptors(files), draws, PercentageToLoad(maxPoints, CountInList(files)), maxPoints).kept;
      AllShaped(kept) && r.value == MatrixRows(kept, alpha)
    ensures r.Ok? && maxPoints.Some? ==> |r.value| <= maxPoints.value
    ensures r.Ok? ==> forall i :: 0 <= i < |r.value| ==> |r.value[i]| == if alpha == 0.0 then SiftBins else SiftBins + 2
  {
    var arraySize := if maxPoints.Some? then maxPoints.value else InitialArraySize;
    if arraySize < 0 {
      return Fatal("negative dimensions are not allowed");
    }
    var dimensions := if alpha == 0.0 then SiftBins else SiftBins + 2;
    var points: array<seq<byte>> := new seq<byte>[arraySize](_ => Zeros(dimensions));
    var pIndex: nat := 0;
    var percentage := PercentageToLoad(maxPoints, CountInList(files));
    var next: nat := 0;
    for f := 0 to |files|
      invariant fresh(points)
      invariant CountInList(files[..f]) <= CountInList(files)
      invariant Loaded(points[..], pIndex, next, Sample(AllDescriptors(files[..f]), draws, percentage, maxPoints), alpha, maxPoints)
    {
      CountInListPrefix(files, f);
      var ok;
      ok, points, pIndex, next := LoadFile(points, pIndex, next, files[f].descriptors, alpha, maxPoints,
                                           draws, percentage, AllDescriptors(files[..f]));
      if !ok {
        FileFailedWithin(files, f, draws, percentage, maxPoints);
        return Fatal("could not broadcast the bins into 128 columns");
      }
      AllDescriptorsStep(files, f);
    }
    assert files[..|files|] == files;
    r := Ok(points[..pIndex]);
  }
}
