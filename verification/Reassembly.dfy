/** Per-request reassembly: what a request id receives is decided by its own frames alone, in
    order, under a size cap. */
module Reassembly {
  import opened Basics
  import opened Frames
  import opened IoLoop

  // ---- Requests do not interfere ----

  /** The frame can only be about request c. */
  predicate Concerns(decode: EnvelopeCid, frame: Frame, c: nat) {
    match frame
    case Ping(cid) => cid == c
    case Raw(cid, _, _, _) => cid == c
    case Realtime(payload) => RealtimeCid(decode, payload) == Some(c)
  }

  function FramesOf(decode: EnvelopeCid, frames: seq<Frame>, c: nat): seq<Frame> {
    if frames == [] then []
    else (if Concerns(decode, frames[0], c) then [frames[0]] else []) + FramesOf(decode, frames[1..], c)
  }

  function MessagesOf(out: seq<Message>, c: nat): seq<Message> {
    if out == [] then []
    else (if out[0].cid == c then [out[0]] else []) + MessagesOf(out[1..], c)
  }

  lemma {:induction false} MessagesOfAppend(a: seq<Message>, b: seq<Message>, c: nat)
    ensures MessagesOf(a + b, c) == MessagesOf(a, c) + MessagesOf(b, c)
  {
    if a == [] {
      assert a + b == b;
    } else {
      TailOfAppend(a, b);
      MessagesOfAppend(a[1..], b, c);
      Associative(if a[0].cid == c then [a[0]] else [], MessagesOf(a[1..], c), MessagesOf(b, c));
    }
  }

  /** Two states that request c cannot tell apart. */
  predicate SameFor(a: Core, b: Core, c: nat) {
    MessagesOf(a.out, c) == MessagesOf(b.out, c) && ChunksOf(a.streams, c) == ChunksOf(b.streams, c)
  }

  /** A frame of another request leaves no trace on c. */
  lemma ForeignFrame(decode: EnvelopeCid, a: Core, frame: Frame, c: nat)
    requires !Concerns(decode, frame, c)
    ensures SameFor(ApplyFrame(decode, a, frame), a, c)
  {
    hide RealtimeCid, Concat, Buffered;
    var e := Emitted(decode, a.streams, frame);
    MessagesOfAppend(a.out, e, c);
    assert MessagesOf(e, c) == [] by {
      assert e != [] ==> e[1..] == [] && e[0].cid != c;
    }
  }

  /** A frame of c does the same in states that c cannot tell apart. */
  lemma OwnFrame(decode: EnvelopeCid, a: Core, b: Core, frame: Frame, c: nat)
    requires SameFor(a, b, c) && Concerns(decode, frame, c)
    ensures SameFor(ApplyFrame(decode, a, frame), ApplyFrame(decode, b, frame), c)
  {
    hide RealtimeCid, Concat, Buffered, MessagesOf;
    MessagesOfAppend(a.out, Emitted(decode, a.streams, frame), c);
    MessagesOfAppend(b.out, Emitted(decode, b.streams, frame), c);
  }

  lemma SameForTransitive(x: Core, y: Core, z: Core, c: nat)
    requires SameFor(x, y, c) && SameFor(y, z, c)
    ensures SameFor(x, z, c)
  {
  }

  lemma {:induction false} NonInterferenceFrom(decode: EnvelopeCid, a: Core, b: Core, frames: seq<Frame>, c: nat)
    requires SameFor(a, b, c)
    ensures SameFor(ApplyAll(decode, a, frames), ApplyAll(decode, b, FramesOf(decode, frames, c)), c)
    decreases |frames|
  {
    hide ApplyFrame, SameFor, Concerns;
    if frames != [] {
      var a', rest := ApplyFrame(decode, a, frames[0]), FramesOf(decode, frames[1..], c);
      if Concerns(decode, frames[0], c) {
        OwnFrame(decode, a, b, frames[0], c);
        assert FramesOf(decode, frames, c)[1..] == rest;
        NonInterferenceFrom(decode, a', ApplyFrame(decode, b, frames[0]), frames[1..], c);
      } else {
        ForeignFrame(decode, a, frames[0], c);
        assert SameFor(a', b, c) by { SameForTransitive(a', a, b, c); }
        assert FramesOf(decode, frames, c) == rest;
        NonInterferenceFrom(decode, a', b, frames[1..], c);
      }
    }
  }

  /** The messages of request c, and its partial response, are those of a connection that carried
      the frames of c and nothing else. */
  lemma NonInterference(decode: EnvelopeCid, core: Core, frames: seq<Frame>, c: nat)
    ensures SameFor(ApplyAll(decode, core, frames), ApplyAll(decode, core, FramesOf(decode, frames, c)), c)
  {
    NonInterferenceFrom(decode, core, core, frames, c);
  }

  // ---- What a delivered body is ----

  predicate RawFor(frame: Frame, c: nat) {
    frame.Raw? && frame.cid == c
  }

  function PayloadFor(frame: Frame, c: nat): seq<Byte> {
    if RawFor(frame, c) then frame.payload else []
  }

  /** Payloads of the raw frames of c among frames[i..k], joined in order. */
  function Joined(frames: seq<Frame>, i: nat, k: nat, c: nat): seq<Byte>
    requires i <= k <= |frames|
    decreases k - i
  {
    if i == k then [] else Joined(frames, i, k - 1, c) + PayloadFor(frames[k - 1], c)
  }

  /** Bytes of c received and not yet answered after the first k frames. */
  function Pending(frames: seq<Frame>, k: nat, c: nat): seq<Byte>
    requires k <= |frames|
    decreases k, 0
  {
    if k == 0 || EndsAt(frames, k - 1, c) then []
    else Pending(frames, k - 1, c) + PayloadFor(frames[k - 1], c)
  }

  /** Frame i closes the response of c: it is final, or it overflows the cap. */
  predicate EndsAt(frames: seq<Frame>, i: nat, c: nat)
    requires i < |frames|
    decreases i, 1
  {
    && RawFor(frames[i], c)
    && (frames[i].fin || |Pending(frames, i, c) + frames[i].payload| > MAX_API_RESPONSE_LEN)
  }

  /** Pending bytes are the payloads since the last frame that closed a response. */
  lemma {:induction false} PendingIsSinceLastEnd(frames: seq<Frame>, k: nat, c: nat) returns (j: nat)
    requires k <= |frames|
    ensures j <= k && (j == 0 || EndsAt(frames, j - 1, c))
    ensures forall i :: j <= i < k ==> !EndsAt(frames, i, c)
    ensures Pending(frames, k, c) == Joined(frames, j, k, c)
    decreases k
  {
    if k == 0 || EndsAt(frames, k - 1, c) {
      j := k;
    } else {
      j := PendingIsSinceLastEnd(frames, k - 1, c);
    }
  }

  lemma {:induction false} PendingIsCapped(frames: seq<Frame>, k: nat, c: nat)
    requires k <= |frames|
    ensures |Pending(frames, k, c)| <= MAX_API_RESPONSE_LEN
    decreases k
  {
    if k > 0 {
      PendingIsCapped(frames, k - 1, c);
    }
  }

  const FRESH := Core(map[], [])

  function After(decode: EnvelopeCid, frames: seq<Frame>, k: nat): Core
    requires k <= |frames|
  {
    ApplyAll(decode, FRESH, frames[..k])
  }

  lemma {:induction false} ApplyAllSnoc(decode: EnvelopeCid, core: Core, frames: seq<Frame>, last: Frame)
    ensures ApplyAll(decode, core, frames + [last]) == ApplyFrame(decode, ApplyAll(decode, core, frames), last)
    decreases |frames|
  {
    hide ApplyFrame;
    if frames == [] {
      assert (frames + [last])[1..] == [];
    } else {
      assert (frames + [last])[1..] == frames[1..] + [last];
      ApplyAllSnoc(decode, ApplyFrame(decode, core, frames[0]), frames[1..], last);
    }
  }

  lemma AfterStep(decode: EnvelopeCid, frames: seq<Frame>, k: nat)
    requires k < |frames|
    ensures After(decode, frames, k + 1) == ApplyFrame(decode, After(decode, frames, k), frames[k])
  {
    assert frames[..k + 1] == frames[..k] + [frames[k]];
    ApplyAllSnoc(decode, FRESH, frames[..k], frames[k]);
  }

  /** The chunk lists hold exactly the pending bytes. */
  lemma {:induction false} ChunksArePending(decode: EnvelopeCid, frames: seq<Frame>, k: nat, c: nat)
    requires k <= |frames|
    ensures Concat(ChunksOf(After(decode, frames, k).streams, c)) == Pending(frames, k, c)
    decreases k
  {
    hide *;
    if k == 0 {
      NothingAfterNothing(decode, frames, c);
    } else {
      AfterStep(decode, frames, k - 1);
      ChunksArePending(decode, frames, k - 1, c);
      ChunksStep(After(decode, frames, k - 1).streams, frames[k - 1], c);
      AppliedStreams(decode, After(decode, frames, k - 1), frames[k - 1]);
      PendingStep(frames, k - 1, c);
    }
  }

  lemma NothingAfterNothing(decode: EnvelopeCid, frames: seq<Frame>, c: nat)
    ensures Concat(ChunksOf(After(decode, frames, 0).streams, c)) == [] == Pending(frames, 0, c)
  {
    assert frames[..0] == [];
  }

  lemma AppliedStreams(decode: EnvelopeCid, core: Core, frame: Frame)
    ensures ApplyFrame(decode, core, frame).streams == StreamsAfter(core.streams, frame)
  {
  }

  /** Frame closes the response of c, given the bytes held so far. */
  predicate Closes(frame: Frame, held: seq<Byte>, c: nat) {
    RawFor(frame, c) && (frame.fin || |held + frame.payload| > MAX_API_RESPONSE_LEN)
  }

  lemma ChunksStep(streams: Streams, frame: Frame, c: nat)
    ensures var held := Concat(ChunksOf(streams, c));
            Concat(ChunksOf(StreamsAfter(streams, frame), c)) ==
            if Closes(frame, held, c) then [] else held + PayloadFor(frame, c)
  {
    hide Concat;
    NothingConcatenated<Byte>();
    if RawFor(frame, c) {
      ConcatSnoc(ChunksOf(streams, c), frame.payload);
    }
  }

  lemma PendingStep(frames: seq<Frame>, k: nat, c: nat)
    requires k < |frames|
    ensures var held := Pending(frames, k, c);
            Pending(frames, k + 1, c) ==
            if Closes(frames[k], held, c) then [] else held + PayloadFor(frames[k], c)
  {
  }

  /** What each raw frame delivers: a final frame the joined payloads of its request since the
      last end, an overflowing one the failure code, any other nothing. */
  lemma RawFrameDelivers(decode: EnvelopeCid, frames: seq<Frame>, k: nat) returns (j: nat)
    requires k < |frames| && frames[k].Raw?
    ensures var f := frames[k];
            && j <= k && (j == 0 || EndsAt(frames, j - 1, f.cid))
            && (forall i :: j <= i < k ==> !EndsAt(frames, i, f.cid))
            && Emitted(decode, After(decode, frames, k).streams, f) ==
               if f.fin then [Message(f.cid, f.code, Joined(frames, j, k + 1, f.cid))]
               else if |Joined(frames, j, k + 1, f.cid)| > MAX_API_RESPONSE_LEN
               then [Message(f.cid, RESPONSE_CODE_TOO_LARGE, [])]
               else []
  {
    hide ApplyAll, After, EndsAt, Concat;
    var f := frames[k];
    j := PendingIsSinceLastEnd(frames, k, f.cid);
    ChunksArePending(decode, frames, k, f.cid);
    ConcatSnoc(ChunksOf(After(decode, frames, k).streams, f.cid), f.payload);
  }

  /** Between frames a request never holds more than 16 MiB, and no body over 32 MiB is delivered. */
  lemma ReassemblyIsBounded(decode: EnvelopeCid, frames: seq<Frame>, k: nat, c: nat)
    requires k <= |frames|
    requires forall f :: f in frames && f.Raw? ==> |f.payload| <= MAX_API_RESPONSE_LEN
    ensures Buffered(ChunksOf(After(decode, frames, k).streams, c)) <= MAX_API_RESPONSE_LEN
    ensures k < |frames| && frames[k].Raw? ==>
              forall m :: m in Emitted(decode, After(decode, frames, k).streams, frames[k])
                          ==> |m.body| <= 2 * MAX_API_RESPONSE_LEN
  {
    hide ApplyAll, After, Pending;
    ChunksArePending(decode, frames, k, c);
    PendingIsCapped(frames, k, c);
    if k < |frames| && frames[k].Raw? {
      ChunksArePending(decode, frames, k, frames[k].cid);
      PendingIsCapped(frames, k, frames[k].cid);
    }
  }

  /** Frames that come out of the decoder meet the payload bound. */
  lemma {:induction false} DecodedPayloadsAreBounded(buf: seq<Byte>)
    ensures forall f :: f in DecodeAll(buf).frames && f.Raw? ==> |f.payload| <= MAX_API_RESPONSE_LEN
    decreases |buf|
  {
    hide DecodeFrame;
    if buf != [] && DecodeFrame(buf).Whole? {
      DecodedPayloadsAreBounded(buf[DecodeFrame(buf).consumed..]);
    }
  }
}
