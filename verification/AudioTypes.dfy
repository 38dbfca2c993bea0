// Audio formats, limits and errors (crates/obs-rs-audio/src/types.rs, error.rs).
module AudioTypes {
  import opened Numbers

  const MAX_AUDIO_FRAMES := 1_048_576
  const MAX_CALLBACK_CORRECTION_PPM := 10_000
  const MAX_AUDIO_SYNC_OFFSET_MILLISECONDS := 5_000

  datatype AudioChannelLayout =
    | Mono | Stereo | TwoPointOne | Quad | FivePointOne | SevenPointOne
    | Discrete(count: u16)
  {
    function Channels(): u16 {
      match this
      case Mono => 1
      case Stereo => 2
      case TwoPointOne => 3
      case Quad => 4
      case FivePointOne => 6
      case SevenPointOne => 8
      case Discrete(count) => count
    }
  }

  datatype RawAudioFormat = AudioFormat(sampleRate: u32, channels: u16, layout: AudioChannelLayout)

  // Only formats that pass the constructors' checks exist.
  type AudioFormat = f: RawAudioFormat |
      f.sampleRate > 0 && f.channels > 0 && f.layout.Channels() == f.channels
    witness AudioFormat(1, 1, Mono)

  datatype AudioError =
    | ScheduleOverflow
    | ZeroBlock
    | ZeroCapacity
    | BufferTooLarge(frames: nat)
    | FormatMismatch(expectedFormat: AudioFormat, actualFormat: AudioFormat)
    | FrameCountMismatch(expectedFrames: nat, actualFrames: nat)
    | BufferTimestampMismatch(expectedTimestamp: u64, actualTimestamp: u64)
    | CallbackTimestampRegression(previous: u64, actual: u64)
    | CallbackCorrectionOutOfRange(ppm: int)
    | InvalidSyncOffset(milliseconds: nat)
}
