/** What an attached client is sent (core/agent_attach.go): the replay of its
    history snapshot, cut into frames of 512 KiB, and then live output; and why
    the queue stream that reads these frames accepts all of them. */
module HistoryReplay {
  import opened Bytes

  const HISTORY_REPLAY_CHUNK: nat := 512 * 1024

  /** An output frame; the stamp is present under the integrity protocol. */
  datatype OutputFrame = OutputFrame(payload: seq<byte>, stamp: Option<Stamp>)
  datatype Stamp = Stamp(sequence: nat, cursor: nat)

  /** Output frames for the given payloads, stamped from (sequence, cursor). */
  function StampAll(payloads: seq<seq<byte>>, integrity: bool, sequence: nat, cursor: nat): seq<OutputFrame>
    decreases |payloads|
  {
    if payloads == [] then []
    else
      [OutputFrame(payloads[0], if integrity then Some(Stamp(sequence, cursor)) else None)]
      + StampAll(payloads[1..], integrity, sequence + 1, cursor + |payloads[0]|)
  }

  lemma {:induction false} StampAppend(a: seq<seq<byte>>, b: seq<seq<byte>>, integrity: bool, sequence: nat, cursor: nat)
    ensures StampAll(a + b, integrity, sequence, cursor)
         == StampAll(a, integrity, sequence, cursor)
          + StampAll(b, integrity, sequence + |a|, cursor + |Flatten(a)|)
    decreases |a|
  {
    if a == [] {
      assert a + b == b;
    } else {
      StampAppend(a[1..], b, integrity, sequence + 1, cursor + |a[0]|);
      assert (a + b)[1..] == a[1..] + b;
      var head := OutputFrame(a[0], if integrity then Some(Stamp(sequence, cursor)) else None);
      Assoc([head], StampAll(a[1..], integrity, sequence + 1, cursor + |a[0]|),
            StampAll(b, integrity, sequence + |a|, cursor + |Flatten(a)|));
    }
  }

  /** Stamps count 1, 2, 3, ... and each names the cursor where the previous
      frame ended, across the replay and the live output that follows it. */
  lemma {:induction false} StampsContiguous(payloads: seq<seq<byte>>, sequence: nat, cursor: nat, k: nat)
    requires k < |payloads|
    ensures var frames := StampAll(payloads, true, sequence, cursor);
            && |frames| == |payloads| && frames[k].payload == payloads[k]
            && frames[k].stamp == Some(Stamp(sequence + k, cursor + |Flatten(payloads[..k])|))
    decreases |payloads|
  {
    if k == 0 {
      assert payloads[..0] == [];
      StampsLength(payloads, true, sequence, cursor);
    } else {
      StampsContiguous(payloads[1..], sequence + 1, cursor + |payloads[0]|, k - 1);
      assert payloads[..k][1..] == payloads[1..][..k - 1];
    }
  }

  /** Every frame carries its payload, and a stamp exactly under the integrity protocol. */
  lemma {:induction false} StampsExactly(payloads: seq<seq<byte>>, integrity: bool, sequence: nat, cursor: nat, k: nat)
    requires k < |payloads|
    ensures var frames := StampAll(payloads, integrity, sequence, cursor);
            |frames| == |payloads| && frames[k].payload == payloads[k] && (frames[k].stamp.Some? <==> integrity)
    decreases |payloads|
  {
    StampsLength(payloads, integrity, sequence, cursor);
    if k > 0 {
      StampsExactly(payloads[1..], integrity, sequence + 1, cursor + |payloads[0]|, k - 1);
    }
  }

  lemma {:induction false} StampsLength(payloads: seq<seq<byte>>, integrity: bool, sequence: nat, cursor: nat)
    ensures |StampAll(payloads, integrity, sequence, cursor)| == |payloads|
    decreases |payloads|
  {
    if payloads != [] {
      StampsLength(payloads[1..], integrity, sequence + 1, cursor + |payloads[0]|);
    }
  }

  /** The output frames of a replay and the positions it leaves for live output. */
  method WriteHistoryReplay(chunks: seq<seq<byte>>, integrity: bool, sequence0: nat, cursor0: nat)
    returns (frames: seq<OutputFrame>, sequence: nat, cursor: nat)
    ensures frames == StampAll(Pieces(Flatten(chunks), HISTORY_REPLAY_CHUNK), integrity, sequence0, cursor0)
    ensures integrity ==> sequence == sequence0 + |frames| && cursor == cursor0 + |Flatten(chunks)|
    ensures !integrity ==> sequence == sequence0 && cursor == cursor0
  {
    hide Pieces;
    frames, sequence, cursor := [], sequence0, cursor0;
    var pending: seq<byte> := [];
    ghost var flushed: seq<seq<byte>> := [];
    for i := 0 to |chunks|
      invariant Flushing(flushed, frames, integrity, sequence0, cursor0, sequence, cursor)
      invariant Flatten(flushed) + pending == Flatten(chunks[..i])
      invariant |pending| <= HISTORY_REPLAY_CHUNK
    {
      var chunk := chunks[i];
      assert chunks[..i + 1] == chunks[..i] + [chunk];
      FlattenSnoc(chunks[..i], chunk);
      ghost var before := Flatten(chunks[..i]);
      while |chunk| > 0
        invariant Flushing(flushed, frames, integrity, sequence0, cursor0, sequence, cursor)
        invariant Flatten(flushed) + pending + chunk == before + chunks[i]
        invariant |pending| <= HISTORY_REPLAY_CHUNK
        decreases |chunk|
      {
        var available := HISTORY_REPLAY_CHUNK - |pending|;
        if available == 0 {
          frames, sequence, cursor := Flush(pending, frames, integrity, sequence, cursor, flushed, sequence0, cursor0);
          FlattenSnoc(flushed, pending);
          flushed := flushed + [pending];
          pending := [];
          available := HISTORY_REPLAY_CHUNK;
        }
        var size := Min(|chunk|, available);
        assert Flatten(flushed) + (pending + chunk[..size]) + chunk[size..] == Flatten(flushed) + pending + chunk;
        pending := pending + chunk[..size];
        chunk := chunk[size..];
      }
    }
    assert chunks[..|chunks|] == chunks;
    AllPieces(flushed, pending);
    if |pending| > 0 {
      frames, sequence, cursor := Flush(pending, frames, integrity, sequence, cursor, flushed, sequence0, cursor0);
      FlattenSnoc(flushed, pending);
      flushed := flushed + [pending];
    } else {
      assert Flatten(flushed) + pending == Flatten(flushed) && flushed + [] == flushed;
    }
    StampsLength(flushed, integrity, sequence0, cursor0);
  }

  /** Everything flushed so far went out in full frames with the right stamps. */
  ghost predicate Flushing(flushed: seq<seq<byte>>, frames: seq<OutputFrame>, integrity: bool,
                           sequence0: nat, cursor0: nat, sequence: nat, cursor: nat)
  {
    && frames == StampAll(flushed, integrity, sequence0, cursor0)
    && (forall i :: 0 <= i < |flushed| ==> |flushed[i]| == HISTORY_REPLAY_CHUNK)
    && sequence == (if integrity then sequence0 + |flushed| else sequence0)
    && cursor == (if integrity then cursor0 + |Flatten(flushed)| else cursor0)
  }

  method Flush(pending: seq<byte>, frames0: seq<OutputFrame>, integrity: bool, sequence0: nat, cursor0: nat,
               ghost flushed: seq<seq<byte>>, ghost firstSequence: nat, ghost firstCursor: nat)
    returns (frames: seq<OutputFrame>, sequence: nat, cursor: nat)
    requires pending != []
    requires Flushing(flushed, frames0, integrity, firstSequence, firstCursor, sequence0, cursor0)
    ensures frames == StampAll(flushed + [pending], integrity, firstSequence, firstCursor)
    ensures sequence == (if integrity then sequence0 + 1 else sequence0)
    ensures cursor == (if integrity then cursor0 + |pending| else cursor0)
  {
    StampAppend(flushed, [pending], integrity, firstSequence, firstCursor);
    assert [pending][1..] == [];
    if integrity {
      frames := frames0 + [OutputFrame(pending, Some(Stamp(sequence0, cursor0)))];
      sequence := sequence0 + 1;
      cursor := cursor0 + |pending|;
    } else {
      frames := frames0 + [OutputFrame(pending, None)];
      sequence, cursor := sequence0, cursor0;
    }
  }

  lemma {:induction false} AllPieces(flushed: seq<seq<byte>>, rest: seq<byte>)
    requires forall i :: 0 <= i < |flushed| ==> |flushed[i]| == HISTORY_REPLAY_CHUNK
    requires |rest| <= HISTORY_REPLAY_CHUNK
    ensures Pieces(Flatten(flushed) + rest, HISTORY_REPLAY_CHUNK) == flushed + (if rest == [] then [] else [rest])
    decreases |flushed|
  {
    if flushed == [] {
      assert Flatten(flushed) + rest == rest;
    } else {
      AllPieces(flushed[1..], rest);
      var data := Flatten(flushed) + rest;
      assert data == flushed[0] + (Flatten(flushed[1..]) + rest);
      assert data[HISTORY_REPLAY_CHUNK..] == Flatten(flushed[1..]) + rest;
      assert data[..HISTORY_REPLAY_CHUNK] == flushed[0];
    }
  }
}
