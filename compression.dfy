/** `CompressionAlgorithm` and `CompressionSettings` (Sources/Quay/Compression/Compression.swift):
    raw-value mappings and field copies between the settings and their protobuf record. */
module Compression {
  import opened Shared
  import opened Errors
  import opened Protobuf

  datatype CompressionAlgorithm = NoCompression | Brotli | Gzip | Zstd

  /** The enumeration's raw values: none = 0, brotli, gzip, zstd counting up. */
  function RawValue(a: CompressionAlgorithm): (v: int)
    ensures 0 <= v <= 3
  {
    match a
    case NoCompression => 0
    case Brotli => 1
    case Gzip => 2
    case Zstd => 3
  }

  /** `fromProtobuf`: the algorithm with that raw value, or `invalidHeader`. */
  function FromRawValue(raw: int): (r: Result<CompressionAlgorithm>)
    ensures r.Ok? <==> 0 <= raw <= 3
    ensures r.Ok? ==> RawValue(r.value) == raw
    ensures r.Err? ==> r.failure == Thrown(InvalidHeader)
  {
    if raw == 0 then Ok(NoCompression)
    else if raw == 1 then Ok(Brotli)
    else if raw == 2 then Ok(Gzip)
    else if raw == 3 then Ok(Zstd)
    else Err(Thrown(InvalidHeader))
  }

  datatype CompressionSettings = CompressionSettings(algorithm: CompressionAlgorithm, quality: i32)

  const TransportDefault := CompressionSettings(Brotli, 1)
  const LongTermDefault := CompressionSettings(Brotli, 9)
  const NoneSettings := CompressionSettings(NoCompression, 0)

  /** `init(protobuf:)`. */
  function SettingsFromPB(pb: PBCompressionSettings): (r: Result<CompressionSettings>)
    ensures r.Ok? <==> 0 <= pb.algorithm <= 3
    ensures r.Ok? ==> RawValue(r.value.algorithm) == pb.algorithm && r.value.quality == pb.quality
    ensures r.Err? ==> r.failure == Thrown(InvalidHeader)
  {
    var algorithm :- FromRawValue(pb.algorithm);
    Ok(CompressionSettings(algorithm, pb.quality))
  }

  /** `protobuf()`. */
  function SettingsToPB(s: CompressionSettings): (pb: PBCompressionSettings)
    ensures pb.algorithm == RawValue(s.algorithm) && pb.quality == s.quality
  {
    PBCompressionSettings(RawValue(s.algorithm), s.quality)
  }

  /** Every algorithm survives the trip through its raw value. */
  lemma RawValueRoundTrip(a: CompressionAlgorithm)
    ensures FromRawValue(RawValue(a)) == Ok(a)
  {
  }

  /** Settings survive the trip through their protobuf record, quality included. */
  lemma SettingsRoundTrip(s: CompressionSettings)
    ensures SettingsFromPB(SettingsToPB(s)) == Ok(s)
  {
    RawValueRoundTrip(s.algorithm);
  }

  /** Conversely, a record that decodes is the record of what it decodes to. */
  lemma SettingsRecordRoundTrip(pb: PBCompressionSettings)
    requires SettingsFromPB(pb).Ok?
    ensures SettingsToPB(SettingsFromPB(pb).value) == pb
  {
  }

  /** The named settings: brotli at quality 1 for transport, brotli at 9 for long-term storage,
      and no compression at quality 0. */
  lemma NamedSettings()
    ensures RawValue(TransportDefault.algorithm) == 1 && TransportDefault.quality == 1
    ensures RawValue(LongTermDefault.algorithm) == 1 && LongTermDefault.quality == 9
    ensures RawValue(NoneSettings.algorithm) == 0 && NoneSettings.quality == 0
  {
  }
}
