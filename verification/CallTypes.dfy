/** Codecs and quality profiles shared by the call pipeline models. */
module CallTypes {
  datatype CodecId =
    | Opus24k | Opus16k | Opus6k | Opus32k | Opus48k | Opus64k
    | Codec2_3200 | Codec2_1200 | ComfortNoise
  {
    predicate IsOpus() {
      Opus24k? || Opus16k? || Opus6k? || Opus32k? || Opus48k? || Opus64k?
    }
  }

  type U8 = x: int | 0 <= x < 256

  datatype QualityProfile = QualityProfile(codec: CodecId, fecRatio: real, frameMs: U8, framesPerBlock: U8)

  const GOOD := QualityProfile(Opus24k, 0.2, 20, 5)
  const DEGRADED := QualityProfile(Opus6k, 0.5, 40, 10)
  const CATASTROPHIC := QualityProfile(Codec2_1200, 1.0, 40, 8)

  const WORD32: int := 0x1_0000_0000
  type U32 = x: int | 0 <= x < 0x1_0000_0000

  /** `wrapping_add` and `wrapping_sub` on u32. */
  function Add32(a: U32, b: U32): U32 { if a + b < WORD32 then a + b else a + b - WORD32 }
  function Sub32(a: U32, b: U32): U32 { if a >= b then a - b else a - b + WORD32 }

  /** The u32 a running total shows. */
  function Wrap32(n: nat): U32 { n % WORD32 }

  /** A wrapping counter shows the wrapped total. */
  lemma AddWraps(n: nat, b: U32)
    ensures Add32(Wrap32(n), b) == Wrap32(n + b)
  {}

  /** Distances survive wrapping. */
  lemma SubWraps(a: nat, b: nat)
    requires b <= a < b + WORD32
    ensures Sub32(Wrap32(a), Wrap32(b)) == a - b
  {
    AddWraps(b, a - b);
  }

  /** Going backwards shows up as a huge forward distance. */
  lemma SubWrapsBack(a: nat, b: nat)
    requires a < b < a + WORD32
    ensures Sub32(Wrap32(a), Wrap32(b)) == WORD32 - (b - a)
  {
    AddWraps(a, b - a);
  }
}
