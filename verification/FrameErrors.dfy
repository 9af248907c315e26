/** What the checksums' guarantees mean on the line: a corrupted copy of a frame is never
    delivered, wherever in a stream it turns up. */
module FrameErrors {
  import opened Checksums
  import opened DoubleErrors
  import opened ErrorDetection
  import opened Framing
  import opened Gf2

  lemma OnlyValidFramesArrive(debug: bool, s: Bytes, t: Bytes)
    requires !Valid16(t)
    ensures t !in Frames(SerialLine(debug), s)
  {
    hide Valid16, Valid8;
    if t in Frames(SerialLine(debug), s) {
      DeliveredIsWellFormed(SerialLine(debug), s, t);
    }
  }

  /** Neither a frame with any nonempty set of bits flipped within 16 consecutive ones. */
  lemma BurstIsNotDelivered(debug: bool, s: Bytes, f: Bytes, i: nat, w: Bits, j: nat, t: Bytes)
    requires WellFormed(SerialLine(debug), f) && |w| <= 16 && w != Zeros(|w|)
    requires Flipped(f, Zeros(i) + w + Zeros(j), t)
    ensures t !in Frames(SerialLine(debug), s)
  {
    hide Valid16, Valid8, Flipped;
    BurstDetected16(f, i, w, j, t);
    OnlyValidFramesArrive(debug, s, t);
  }

  /** Nor one with an odd number of bits flipped, or with two. */
  lemma FewErrorsAreNotDelivered(debug: bool, s: Bytes, f: Bytes, e: Bits, t: Bytes)
    requires WellFormed(SerialLine(debug), f) && (Odd(e) || Weight(e) == 2) && Flipped(f, e, t)
    ensures t !in Frames(SerialLine(debug), s)
  {
    hide Valid16, Valid8, Flipped, Weight, Odd;
    if Odd(e) {
      OddErrorDetected16(f, e, t);
    } else {
      UpToThreeErrorsDetected16(f, e, t);
    }
    OnlyValidFramesArrive(debug, s, t);
  }
}
