/**
 * The video transformer: a red scan line that sweeps across each frame, and
 * the detection that feeds the session store. Drawing, colour conversion and
 * symbol decoding are outside the model; a frame is its width and the
 * decoder's payload texts.
 */
module ScanLine {

  import Extraction
  import Session

  /** Pixels the line moves per frame. */
  const Speed := 5

  /** One frame of the oscillator on (position, direction): the line moves by
      exactly 5 in its current direction, the direction stays 1 or -1, and it
      flips exactly when the new position is outside [0, width]. */
  function Step(position: int, direction: int, width: nat): (r: (int, int))
    ensures direction == 1 ==> r.0 == position + Speed
    ensures direction == -1 ==> r.0 == position - Speed
    ensures direction == 1 || direction == -1 ==> r.1 == 1 || r.1 == -1
    ensures direction == 1 || direction == -1 ==> (r.1 != direction <==> r.0 > width || r.0 < 0)
  {
    var p := position + direction * Speed;
    (p, if p > width || p < 0 then direction * -1 else direction)
  }

  /** Where the line can be while it sweeps a frame of the given width. */
  ghost predicate Swept(position: int, direction: int, width: nat) {
    && (direction == 1 || direction == -1)
    && -Speed <= position <= width + Speed
    && position % Speed == 0
    && (direction == 1 ==> position <= width)
    && (direction == -1 ==> position >= 0)
  }

  lemma StepKeepsSwept(position: int, direction: int, width: nat)
    requires Swept(position, direction, width)
    ensures Swept(Step(position, direction, width).0, Step(position, direction, width).1, width)
  {
  }

  /** The oscillator after n frames of a fixed width, from the constructor's (0, 1). */
  function Run(n: nat, width: nat): (int, int)
  {
    if n == 0 then (0, 1) else Step(Run(n - 1, width).0, Run(n - 1, width).1, width)
  }

  /** From (0, 1), the line stays within [-5, width + 5] on multiples of 5,
      and its direction is always 1 or -1. */
  lemma {:induction false} RunStaysSwept(n: nat, width: nat)
    ensures Swept(Run(n, width).0, Run(n, width).1, width)
  {
    if n > 0 {
      RunStaysSwept(n - 1, width);
      StepKeepsSwept(Run(n - 1, width).0, Run(n - 1, width).1, width);
    }
  }

  class VideoTransformer {
    var linePosition: int
    var direction: int

    ghost predicate Valid()
      reads this
    {
      direction == 1 || direction == -1
    }

    constructor ()
      ensures Valid()
      ensures linePosition == 0 && direction == 1
    {
      linePosition := 0;
      direction := 1;
    }

    /** One frame: advance the scan line, then offer the frame's first
        decoded symbol to the session store. */
    method Transform(width: nat, decoded: seq<string>, session: Session.SessionState)
      requires Valid()
      requires Session.Truthy(Extraction.GetBarcode(decoded)) ==> Session.BarcodeKey in session.entries
      modifies this, session
      ensures Valid()
      ensures (linePosition, direction) == Step(old(linePosition), old(direction), width)
      ensures old(Swept(linePosition, direction, width)) ==> Swept(linePosition, direction, width)
      ensures session.entries == Session.Accepted(old(session.entries), Extraction.GetBarcode(decoded))
    {
      linePosition := linePosition + direction * Speed;
      if linePosition > width || linePosition < 0 {
        direction := direction * -1;
      }
      if old(Swept(linePosition, direction, width)) {
        StepKeepsSwept(old(linePosition), old(direction), width);
      }
      var barcode := Extraction.GetBarcode(decoded);
      session.Accept(barcode);
    }
  }

}
