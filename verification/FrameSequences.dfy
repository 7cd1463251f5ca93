/** What a whole sequence of frames leads to: which sequences are kept to, and what each frame gives out. */
module FrameSequences {
  import opened Wrappers
  import opened Frames

  function Front(frames: seq<Frame>): seq<Frame>
    requires frames != []
  {
    frames[..|frames| - 1]
  }

  function Last(frames: seq<Frame>): Frame
    requires frames != []
  {
    frames[|frames| - 1]
  }

  /** Opcodes 1 and 2 start a message, opcode 0 goes on with one; the others are control frames. */
  predicate Starts(frame: Frame) {
    frame.opcode == 1 || frame.opcode == 2
  }

  /** The opcode of the message that has been started and not ended. */
  function OpenedBy(frames: seq<Frame>): Option<Byte> {
    if frames == [] then None
    else if Last(frames).opcode > 2 then OpenedBy(Front(frames))
    else if Last(frames).final then None
    else if Starts(Last(frames)) then Some(Last(frames).opcode)
    else OpenedBy(Front(frames))
  }

  /** The payloads since the last start of a message. */
  function Collected(frames: seq<Frame>): Bytes {
    if frames == [] then []
    else if Last(frames).opcode > 2 then Collected(Front(frames))
    else if Starts(Last(frames)) then Last(frames).payload
    else Collected(Front(frames)) + Last(frames).payload
  }

  /**
   A frame the connection goes on after: a ping or a pong, the start of a message, or more of one
   that is open; and a message that ends is text.
  */
  predicate Fits(before: seq<Frame>, frame: Frame) {
    || frame.opcode == 9 || frame.opcode == 10
    || (Starts(frame) && (frame.final ==> frame.opcode == 1))
    || (frame.opcode == 0 && OpenedBy(before).Some? && (frame.final ==> OpenedBy(before) == Some(1)))
  }

  predicate AllFit(frames: seq<Frame>) {
    frames == [] || (AllFit(Front(frames)) && Fits(Front(frames), Last(frames)))
  }

  function First125(payload: Bytes): (r: Bytes)
    ensures r <= payload && |r| == if |payload| < 125 then |payload| else 125
  {
    if |payload| < 125 then payload else payload[..125]
  }

  /** What one frame gives out after those before it. */
  function Given(before: seq<Frame>, frame: Frame): seq<Output> {
    if !AllFit(before) then []
    else if frame.opcode == 8 then [Closing(First125(frame.payload))]
    else if frame.opcode == 9 then [Pong(First125(frame.payload))]
    else if frame.opcode <= 2 && frame.final && Fits(before, frame) then [Message(Collected(before + [frame]))]
    else []
  }

  function AllGiven(frames: seq<Frame>): seq<Output> {
    if frames == [] then [] else AllGiven(Front(frames)) + Given(Front(frames), Last(frames))
  }

  lemma Joined(frames: seq<Frame>)
    requires frames != []
    ensures Front(frames) + [Last(frames)] == frames
  {
  }

  lemma ClippedIs(payload: Bytes)
    ensures Clipped(payload) == First125(payload)
  {
  }

  ghost predicate ReaderIs(r: Reader, frames: seq<Frame>) {
    && r.live && r.opcode == OpenedBy(frames)
    && (r.opcode.Some? ==> r.fragments == Collected(frames))
  }

  lemma NextFrame(r: Reader, before: seq<Frame>, frame: Frame)
    requires AllFit(before) && ReaderIs(r, before)
    ensures var frames := before + [frame];
            var (after, out) := Take(r, frame);
            && out == Given(before, frame)
            && (if AllFit(frames) then ReaderIs(after, frames) else !after.live)
  {
    var frames := before + [frame];
    assert Front(frames) == before && Last(frames) == frame;
    ClippedIs(frame.payload);
  }

  /**
   The connection goes on as long as every frame fits those before it; while it does, a ping is
   answered with the first 125 bytes of its payload, the end of a text message gives the message with
   all payloads since its start, a close frame is answered and is the last to be, and nothing else is
   given out.
  */
  lemma {:induction false} SequenceIsExact(frames: seq<Frame>)
    ensures TakeAll(IDLE, frames).0.live <==> AllFit(frames)
    ensures AllFit(frames) ==> ReaderIs(TakeAll(IDLE, frames).0, frames)
    ensures TakeAll(IDLE, frames).1 == AllGiven(frames)
  {
    if frames != [] {
      SequenceIsExact(Front(frames));
      Joined(frames);
      if AllFit(Front(frames)) {
        NextFrame(TakeAll(IDLE, Front(frames)).0, Front(frames), Last(frames));
      }
    }
  }
}
