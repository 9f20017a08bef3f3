/** `RecordFace._run`: the enrolment loop that stores one embedding per frame
    with a looking face until `n_frames` have been stored or it is stopped. */
module RecordFace {
  import opened Vision
  import opened Gaze
  import opened FaceDb

  /** What one turn of the loop finds: the stop flag set, or a captured frame
      with its face detections. */
  datatype Tick = Stopped | Captured(frame: Frame, detections: seq<Detection>)

  /** Detections the gaze test can be applied to, with full-width embeddings. */
  predicate WellformedTick(t: Tick)
  {
    t.Captured? ==>
      && AllNonDegenerate(t.detections)
      && forall d :: d in t.detections ==> |d.encoding| == EncodingWidth
  }

  predicate Wellformed(ticks: seq<Tick>)
  {
    forall i :: 0 <= i < |ticks| ==> WellformedTick(ticks[i])
  }

  /** The embedding of the first detection that passes the gaze test, if any. */
  function FirstEncoding(dets: seq<Detection>): (encs: seq<Encoding>)
    requires AllNonDegenerate(dets)
    ensures |encs| <= 1
  {
    if dets == [] then []
    else
      assert AllNonDegenerate(dets[1..]);
      if Looking(dets[0]) then [dets[0].encoding] else FirstEncoding(dets[1..])
  }

  /** `encodings[0]` of the looking boxes is the first looking face's embedding. */
  lemma {:induction false} FirstEncodingOfLooking(dets: seq<Detection>)
    requires AllNonDegenerate(dets)
    ensures FirstEncoding(dets)
         == if LookingDetections(dets) == [] then [] else [LookingDetections(dets)[0].encoding]
  {
    if dets != [] {
      assert AllNonDegenerate(dets[1..]);
      FirstEncodingOfLooking(dets[1..]);
    }
  }

  /** What one turn contributes when `remaining` more embeddings are wanted:
      the embedding of the first looking face of a captured frame, if any. */
  function Taken(t: Tick, remaining: nat): (encs: seq<Encoding>)
    requires WellformedTick(t)
    ensures |encs| <= 1 && |encs| <= remaining
  {
    if remaining == 0 || t.Stopped? then [] else FirstEncoding(t.detections)
  }

  /** The embeddings the loop appends when `remaining` more are wanted: the
      first looking face of each frame that has one, until enough are stored,
      the stop flag is seen, or the frames run out. */
  function Recorded(ticks: seq<Tick>, remaining: nat): (encs: seq<Encoding>)
    requires Wellformed(ticks)
    ensures |encs| <= remaining
    decreases |ticks|
  {
    if remaining == 0 || ticks == [] || ticks[0].Stopped? then []
    else
      assert WellformedTick(ticks[0]);
      var taken := Taken(ticks[0], remaining);
      taken + Recorded(ticks[1..], remaining - |taken|)
  }

  /** The number of frames with a looking face before the stop flag is seen. */
  function LookingFrames(ticks: seq<Tick>): nat
    requires Wellformed(ticks)
    decreases |ticks|
  {
    if ticks == [] || ticks[0].Stopped? then 0
    else
      assert WellformedTick(ticks[0]);
      |FirstEncoding(ticks[0].detections)| + LookingFrames(ticks[1..])
  }

  function Min(a: nat, b: nat): nat
  {
    if a <= b then a else b
  }

  /** The loop stores exactly `remaining` embeddings when at least that many
      frames show a looking face before a stop, and one per such frame otherwise. */
  lemma {:induction false} RecordedCount(ticks: seq<Tick>, remaining: nat)
    requires Wellformed(ticks)
    ensures |Recorded(ticks, remaining)| == Min(remaining, LookingFrames(ticks))
    decreases |ticks|
  {
    if remaining == 0 || ticks == [] || ticks[0].Stopped? {
    } else {
      assert WellformedTick(ticks[0]);
      RecordedCount(ticks[1..], remaining - |Taken(ticks[0], remaining)|);
    }
  }

  /** The reported progress, `counter * 100 / n_frames`. */
  function Progress(counter: nat, nFrames: nat): real
    requires nFrames > 0
  {
    (counter as real) * 100.0 / (nFrames as real)
  }

  /** The `recording_face` events after `counter` stored embeddings. */
  function ProgressEvents(counter: nat, nFrames: nat): seq<Event>
    requires counter <= nFrames
  {
    seq(counter, k requires 0 <= k < counter => RecordingFace(Progress(k + 1, nFrames)))
  }

  lemma DivideMonotone(x: real, y: real, n: real)
    requires x < y && n > 0.0
    ensures x / n < y / n
  {
    assert y / n - x / n == (y - x) / n;
  }

  /** Every stored embedding reports progress within (0, 100], and the last
      one reports exactly 100, whatever `n_frames` is. */
  lemma ProgressWithinRange(a: nat, nFrames: nat)
    requires 1 <= a <= nFrames
    ensures 0.0 < Progress(a, nFrames) <= 100.0
    ensures Progress(nFrames, nFrames) == 100.0
  {
    var n := nFrames as real;
    DivideMonotone(0.0, (a as real) * 100.0, n);
    if a < nFrames {
      DivideMonotone((a as real) * 100.0, n * 100.0, n);
    }
    assert n * 100.0 / n == 100.0;
  }

  /** Progress rises strictly from one stored embedding to the next. */
  lemma ProgressIncreases(a: nat, b: nat, nFrames: nat)
    requires 1 <= a < b <= nFrames
    ensures 0.0 < Progress(a, nFrames) < Progress(b, nFrames) <= 100.0
  {
    DivideMonotone((a as real) * 100.0, (b as real) * 100.0, nFrames as real);
    ProgressWithinRange(a, nFrames);
    ProgressWithinRange(b, nFrames);
  }

  lemma ProgressEventsSnoc(counter: nat, nFrames: nat)
    requires counter < nFrames
    ensures ProgressEvents(counter + 1, nFrames)
         == ProgressEvents(counter, nFrames) + [RecordingFace(Progress(counter + 1, nFrames))]
  {
  }

  lemma RepeatSnoc(name: string, counter: nat)
    ensures seq(counter + 1, _ => name) == seq(counter, _ => name) + [name]
  {
  }

  /** What the loop has stored when it ends, if it reaches turn `i` having
      stored `done` with `remaining` still wanted. */
  function Finish(ticks: seq<Tick>, i: nat, remaining: nat, done: seq<Encoding>): seq<Encoding>
    requires Wellformed(ticks) && i <= |ticks|
    decreases |ticks| - i
  {
    if remaining == 0 || i == |ticks| || ticks[i].Stopped? then done
    else
      var taken := Taken(ticks[i], remaining);
      Finish(ticks, i + 1, remaining - |taken|, done + taken)
  }

  lemma WellformedSuffix(ticks: seq<Tick>, i: nat)
    requires Wellformed(ticks) && i <= |ticks|
    ensures Wellformed(ticks[i..])
  {
    var tail := ticks[i..];
    forall j | 0 <= j < |tail| ensures tail[j] == ticks[i + j] { }
  }

  /** `Recorded` over the frames from turn `i` on, one turn unfolded. */
  lemma RecordedUnfold(ticks: seq<Tick>, i: nat, remaining: nat)
    requires Wellformed(ticks) && i < |ticks| && Wellformed(ticks[i..]) && Wellformed(ticks[i + 1..])
    requires remaining > 0 && ticks[i].Captured?
    ensures Recorded(ticks[i..], remaining)
         == Taken(ticks[i], remaining) + Recorded(ticks[i + 1..], remaining - |Taken(ticks[i], remaining)|)
  {
    assert ticks[i..][0] == ticks[i] && ticks[i..][1..] == ticks[i + 1..];
  }

  /** The loop, run from turn `i`, appends to `done` what `Recorded` gives for
      the frames from `i` on. */
  lemma {:induction false} FinishIsRecorded(ticks: seq<Tick>, i: nat, remaining: nat, done: seq<Encoding>)
    requires Wellformed(ticks) && i <= |ticks|
    ensures Wellformed(ticks[i..])
    ensures Finish(ticks, i, remaining, done) == done + Recorded(ticks[i..], remaining)
    decreases |ticks| - i
  {
    WellformedSuffix(ticks, i);
    if remaining == 0 || i == |ticks| || ticks[i].Stopped? {
      assert done + [] == done;
    } else {
      var taken := Taken(ticks[i], remaining);
      FinishIsRecorded(ticks, i + 1, remaining - |taken|, done + taken);
      RecordedUnfold(ticks, i, remaining);
      SeqAssoc(done, taken, Recorded(ticks[i + 1..], remaining - |taken|));
    }
  }

  lemma RowsSnoc(name: string, done: seq<Encoding>, enc: Encoding, fmt: real -> string)
    ensures Rows(name, done + [enc], fmt) == Rows(name, done, fmt) + EncodeRow(name, enc, fmt)
  {
    assert (done + [enc])[..|done|] == done;
  }

  /** The store holds what it held before (`names0`, `encs0`, `file0`) followed
      by the samples `done`, all under `name`. */
  ghost predicate Extended(db: FaceDb, names0: seq<string>, encs0: seq<Encoding>, file0: string,
                           name: string, done: seq<Encoding>, fmt: real -> string)
    reads db
  {
    && db.Valid()
    && db.names == names0 + seq(|done|, _ => name)
    && db.encodings == encs0 + done
    && db.file == file0 + Rows(name, done, fmt)
  }

  /** The `FaceDB.append(name, encoding)` of one turn: the store then holds one
      more sample of the run. */
  method Store(db: FaceDb, name: string, enc: Encoding, fmt: real -> string,
               ghost names0: seq<string>, ghost encs0: seq<Encoding>, ghost file0: string,
               ghost done: seq<Encoding>)
    requires Extended(db, names0, encs0, file0, name, done, fmt) && |enc| == EncodingWidth
    modifies db
    ensures Extended(db, names0, encs0, file0, name, done + [enc], fmt)
  {
    db.Append(name, enc, fmt);
    RepeatSnoc(name, |done|);
    SeqAssoc(names0, seq(|done|, _ => name), [name]);
    SeqAssoc(encs0, done, [enc]);
    RowsSnoc(name, done, enc, fmt);
    SeqAssoc(file0, Rows(name, done, fmt), EncodeRow(name, enc, fmt));
  }

  /** One turn of the `while` loop of `RecordFace._run` on a captured frame:
      the store, the counter and the events advance by what `Taken` says the
      frame contributes. */
  method Turn(db: FaceDb, name: string, tick: Tick, nFrames: nat, fmt: real -> string,
              counter: nat, events: seq<Event>, ghost names0: seq<string>, ghost encs0: seq<Encoding>,
              ghost file0: string, ghost done: seq<Encoding>)
    returns (counter': nat, events': seq<Event>, ghost done': seq<Encoding>)
    requires WellformedTick(tick) && tick.Captured? && counter < nFrames && |done| == counter
    requires Extended(db, names0, encs0, file0, name, done, fmt)
    requires events == ProgressEvents(counter, nFrames)
    modifies db
    ensures done' == done + Taken(tick, nFrames - counter)
    ensures counter' == counter + |Taken(tick, nFrames - counter)| <= nFrames
    ensures Extended(db, names0, encs0, file0, name, done', fmt)
    ensures events' == ProgressEvents(counter', nFrames)
  {
    counter', events', done' := counter, events, done;
    var detections := tick.detections;
    FirstEncodingOfLooking(detections);
    if detections != [] {
      var looking := LookingDetections(detections);
      if looking != [] {
        var encoding := looking[0].encoding;
        Store(db, name, encoding, fmt, names0, encs0, file0, done);
        ProgressEventsSnoc(counter, nFrames);
        done' := done + [encoding];
        counter' := counter + 1;
        events' := events + [RecordingFace(Progress(counter', nFrames))];
      } else {
        assert done + [] == done;
      }
    } else {
      assert LookingDetections(detections) == [];
      assert done + [] == done;
    }
  }

  /** `RecordFace._run(name, n_frames)` (`n_frames` is 6 by default) over the
      frames it gets to see. Returns the final `counter` and the
      `recording_face` events. */
  method Run(db: FaceDb, name: string, ticks: seq<Tick>, nFrames: nat, fmt: real -> string)
    returns (counter: nat, events: seq<Event>)
    requires db.Valid() && Wellformed(ticks)
    modifies db
    ensures db.Valid()
    ensures counter == |Recorded(ticks, nFrames)| <= nFrames
    ensures db.names == old(db.names) + seq(counter, _ => name)
    ensures db.encodings == old(db.encodings) + Recorded(ticks, nFrames)
    ensures db.file == old(db.file) + Rows(name, Recorded(ticks, nFrames), fmt)
    ensures events == ProgressEvents(counter, nFrames)
  {
    counter, events := 0, [];
    ghost var done: seq<Encoding> := [];
    var i := 0;
    assert old(db.names) + [] == old(db.names) && old(db.encodings) + [] == old(db.encodings);
    assert old(db.file) + "" == old(db.file);
    while counter < nFrames && i < |ticks| && !ticks[i].Stopped?
      invariant 0 <= i <= |ticks| && counter <= nFrames && |done| == counter
      invariant Finish(ticks, i, nFrames - counter, done) == Finish(ticks, 0, nFrames, [])
      invariant Extended(db, old(db.names), old(db.encodings), old(db.file), name, done, fmt)
      invariant events == ProgressEvents(counter, nFrames)
      decreases |ticks| - i
    {
      ghost var remaining := nFrames - counter;
      counter, events, done :=
        Turn(db, name, ticks[i], nFrames, fmt, counter, events, old(db.names), old(db.encodings), old(db.file), done);
      assert nFrames - counter == remaining - |Taken(ticks[i], remaining)|;
      i := i + 1;
    }
    FinishIsRecorded(ticks, 0, nFrames, []);
    assert ticks[0..] == ticks;
    assert [] + Recorded(ticks, nFrames) == Recorded(ticks, nFrames);
  }
}
