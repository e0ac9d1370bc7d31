/** The numeric configuration of the tuner (the static fields of Constants). */
module Config {
  const PreferredBitsPerSample: int := 8
  const PreferredSamplesPerSecond: int := 44100
  const MinFreq: int := 60
  const MaxFreq: int := 1300
  const PeaksCount: int := 1
  const FftLength: int := 8192
  const Downsample: real := 1.0
  const ConcertAFreq: real := 440.0
}
