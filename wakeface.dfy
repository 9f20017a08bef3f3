/** The wake-face pipeline: one detector iteration feeding the face queue, the
    recogniser's vote over store matches, and its debounce gate and history. */
module Wakeface {
  import opened Wrappers
  import opened Vision
  import opened Gaze

  /** `(frame, boxes)` as the detector puts it on the queue; `(None, [])` ends an episode. */
  datatype QueueItem = QueueItem(frame: Option<Frame>, boxes: seq<BBox>)

  /** The item the detector publishes when nobody is looking. */
  const EndOfEpisode: QueueItem := QueueItem(None, [])

  /** `face_queue`: an unbounded first-in first-out queue. */
  class FaceQueue {
    var items: seq<QueueItem>

    constructor ()
      ensures items == []
    {
      items := [];
    }

    predicate IsEmpty()
      reads this
    {
      items == []
    }

    /** `put`: at the back. */
    method Put(x: QueueItem)
      modifies this
      ensures items == old(items) + [x]
    {
      items := items + [x];
    }

    /** `get`: the front item, or `None` where `queue.Empty` is raised. */
    method Get() returns (x: Option<QueueItem>)
      modifies this
      ensures old(items) == [] ==> x == None && items == []
      ensures old(items) != [] ==> x == Some(old(items)[0]) && items == old(items)[1..]
    {
      if items == [] {
        x := None;
      } else {
        x := Some(items[0]);
        items := items[1..];
      }
    }
  }

  /** `while not face_queue.empty(): face_queue.get()`. */
  method Drain(q: FaceQueue)
    modifies q
    ensures q.items == []
  {
    while !q.IsEmpty()
      decreases |q.items|
    {
      var _ := q.Get();
    }
  }

  /** One iteration of `_run_detector` on a captured frame and its detections:
      the event reported and what the face queue then holds. */
  method DetectorStep(q: FaceQueue, frame: Frame, dets: seq<Detection>) returns (event: Event)
    requires AllNonDegenerate(dets)
    modifies q
    ensures dets == [] ==> event == NotFaces && q.items == [EndOfEpisode]
    ensures dets != [] && LookingDetections(dets) == [] ==>
              event == FaceNotListen && q.items == [EndOfEpisode]
    ensures LookingDetections(dets) != [] ==>
              && event == FaceListen
              && q.items == old(q.items)
                            + [QueueItem(Some(frame), LookingBoxes(dets, frame.width as real, frame.height as real))]
  {
    var w, h := frame.width as real, frame.height as real;
    if dets == [] {
      event := NotFaces;
      Drain(q);
      q.Put(EndOfEpisode);
    } else {
      var looking := LookingBoxes(dets, w, h);
      if looking == [] {
        event := FaceNotListen;
        Drain(q);
        q.Put(EndOfEpisode);
      } else {
        event := FaceListen;
        q.Put(QueueItem(Some(frame), looking));
      }
    }
  }

  // ---------------------------------------------------------------------------
  // The vote of `recognize`

  /** Store entry `i` matched and is enrolled under `n`. */
  predicate VotesFor(matches: seq<bool>, names: seq<string>, i: nat, n: string)
    requires |matches| == |names| && i < |matches|
  {
    matches[i] && names[i] == n
  }

  /** How many of the first `k` store entries vote for `n`. */
  function Votes(matches: seq<bool>, names: seq<string>, n: string, k: nat): nat
    requires |matches| == |names| && k <= |matches|
  {
    if k == 0 then 0
    else Votes(matches, names, n, k - 1) + (if VotesFor(matches, names, k - 1, n) then 1 else 0)
  }

  lemma {:induction false} VotesMonotone(matches: seq<bool>, names: seq<string>, n: string, j: nat, k: nat)
    requires |matches| == |names| && j <= k <= |matches|
    ensures Votes(matches, names, n, j) <= Votes(matches, names, n, k)
  {
    if j < k {
      VotesMonotone(matches, names, n, j, k - 1);
    }
  }

  lemma {:induction false} VoteCounts(matches: seq<bool>, names: seq<string>, n: string, i: nat, k: nat)
    requires |matches| == |names| && i < k <= |matches|
    requires VotesFor(matches, names, i, n)
    ensures Votes(matches, names, n, k) > 0
  {
    if i < k - 1 {
      VoteCounts(matches, names, n, i, k - 1);
    }
  }

  /** `r` is what the vote must return for one face: `None` when no store
      entry matched; otherwise a name with the most matching entries, and
      among names with as many, the one whose first match comes earliest. */
  ghost predicate IsVote(matches: seq<bool>, names: seq<string>, r: Name)
    requires |matches| == |names|
  {
    match r
    case None => forall i :: 0 <= i < |matches| ==> !matches[i]
    case Some(n) =>
      && Votes(matches, names, n, |matches|) > 0
      && (forall m :: Votes(matches, names, m, |matches|) <= Votes(matches, names, n, |matches|))
      && (forall m :: m != n && Votes(matches, names, m, |matches|) == Votes(matches, names, n, |matches|) ==>
            exists i :: 0 <= i < |matches| && VotesFor(matches, names, i, n) && Votes(matches, names, m, i) == 0)
  }

  lemma {:induction false} VotedSomewhere(matches: seq<bool>, names: seq<string>, n: string, k: nat)
    requires |matches| == |names| && k <= |matches|
    requires Votes(matches, names, n, k) > 0
    ensures exists i :: 0 <= i < k && VotesFor(matches, names, i, n)
  {
    if !VotesFor(matches, names, k - 1, n) {
      VotedSomewhere(matches, names, n, k - 1);
    }
  }

  /** The vote is fully determined by the matches and the store's names. */
  lemma VoteIsUnique(matches: seq<bool>, names: seq<string>, r1: Name, r2: Name)
    requires |matches| == |names|
    requires IsVote(matches, names, r1) && IsVote(matches, names, r2)
    ensures r1 == r2
  {
    if r1.Some? && r2.Some? && r1.value != r2.value {
      var n1, n2 := r1.value, r2.value;
      var i1 :| 0 <= i1 < |matches| && VotesFor(matches, names, i1, n1) && Votes(matches, names, n2, i1) == 0;
      var i2 :| 0 <= i2 < |matches| && VotesFor(matches, names, i2, n2) && Votes(matches, names, n1, i2) == 0;
      if i1 < i2 {
        VoteCounts(matches, names, n1, i1, i2);
      } else if i2 < i1 {
        VoteCounts(matches, names, n2, i2, i1);
      }
    } else if r1.Some? && r2.None? {
      VotedSomewhere(matches, names, r1.value, |matches|);
    } else if r1.None? && r2.Some? {
      VotedSomewhere(matches, names, r2.value, |matches|);
    }
  }

  /** What the tally loop of `recognize` knows after the first `i` store entries:
      `counts` holds every name voted for so far with its number of votes, and
      `order` lists those names in the order of their first vote, which
      `firsts` records. */
  ghost predicate Tallied(matches: seq<bool>, names: seq<string>, i: nat,
                          counts: map<string, nat>, order: seq<string>, firsts: seq<nat>)
    requires |matches| == |names| && i <= |matches|
  {
    && |firsts| == |order|
    && (forall n :: n in counts <==> n in order)
    && (forall n :: n in counts ==> counts[n] == Votes(matches, names, n, i))
    && (forall n :: Votes(matches, names, n, i) > 0 ==> n in counts)
    && (forall a :: 0 <= a < |order| ==>
          && firsts[a] < i
          && VotesFor(matches, names, firsts[a], order[a])
          && Votes(matches, names, order[a], firsts[a]) == 0)
    && (forall a, b :: 0 <= a < b < |order| ==> firsts[a] < firsts[b])
  }

  /** Entry `i` either leaves the tally alone, adds a vote to a name already
      seen, or brings in a new name with its first vote. */
  lemma TallySkip(matches: seq<bool>, names: seq<string>, i: nat,
                  counts: map<string, nat>, order: seq<string>, firsts: seq<nat>)
    requires |matches| == |names| && i < |matches| && !matches[i]
    requires Tallied(matches, names, i, counts, order, firsts)
    ensures Tallied(matches, names, i + 1, counts, order, firsts)
  {
  }

  lemma TallyAgain(matches: seq<bool>, names: seq<string>, i: nat,
                   counts: map<string, nat>, order: seq<string>, firsts: seq<nat>)
    requires |matches| == |names| && i < |matches| && matches[i] && names[i] in counts
    requires Tallied(matches, names, i, counts, order, firsts)
    ensures Tallied(matches, names, i + 1, counts[names[i] := counts[names[i]] + 1], order, firsts)
  {
  }

  lemma TallyNew(matches: seq<bool>, names: seq<string>, i: nat,
                 counts: map<string, nat>, order: seq<string>, firsts: seq<nat>)
    requires |matches| == |names| && i < |matches| && matches[i] && names[i] !in counts
    requires Tallied(matches, names, i, counts, order, firsts)
    ensures Tallied(matches, names, i + 1, counts[names[i] := 1], order + [names[i]], firsts + [i])
  {
    var n := names[i];
    assert Votes(matches, names, n, i) == 0;
    var order', firsts' := order + [n], firsts + [i];
    forall a | 0 <= a < |order'|
      ensures firsts'[a] < i + 1 && VotesFor(matches, names, firsts'[a], order'[a])
      ensures Votes(matches, names, order'[a], firsts'[a]) == 0
    {
      if a < |order| {
        assert order'[a] == order[a] && firsts'[a] == firsts[a];
      }
    }
  }

  /** The loop over the matched indexes that fills the `counts` dictionary. */
  method Tally(matches: seq<bool>, names: seq<string>)
    returns (counts: map<string, nat>, order: seq<string>, ghost firsts: seq<nat>)
    requires |matches| == |names|
    ensures Tallied(matches, names, |matches|, counts, order, firsts)
  {
    counts, order, firsts := map[], [], [];
    var i := 0;
    while i < |matches|
      invariant 0 <= i <= |matches|
      invariant Tallied(matches, names, i, counts, order, firsts)
    {
      if matches[i] {
        var n := names[i];
        if n in counts {
          TallyAgain(matches, names, i, counts, order, firsts);
          counts := counts[n := counts[n] + 1];
        } else {
          TallyNew(matches, names, i, counts, order, firsts);
          counts := counts[n := 1];
          order := order + [n];
          firsts := firsts + [i];
        }
      } else {
        TallySkip(matches, names, i, counts, order, firsts);
      }
      i := i + 1;
    }
  }

  /** The first name of `order` with the largest count wins the vote. */
  lemma TallyWinner(matches: seq<bool>, names: seq<string>,
                    counts: map<string, nat>, order: seq<string>, firsts: seq<nat>, best: nat)
    requires |matches| == |names|
    requires Tallied(matches, names, |matches|, counts, order, firsts)
    requires best < |order|
    requires forall c :: 0 <= c < |order| ==> counts[order[c]] <= counts[order[best]]
    requires forall c :: 0 <= c < best ==> counts[order[c]] < counts[order[best]]
    ensures IsVote(matches, names, Some(order[best]))
  {
    var n := order[best];
    VoteCounts(matches, names, n, firsts[best], |matches|);
    forall m | m != n && Votes(matches, names, m, |matches|) == Votes(matches, names, n, |matches|)
      ensures exists i :: 0 <= i < |matches| && VotesFor(matches, names, i, n) && Votes(matches, names, m, i) == 0
    {
      assert m in order;
      var c :| 0 <= c < |order| && order[c] == m;
      VotesMonotone(matches, names, m, firsts[best], firsts[c]);
    }
    forall m ensures Votes(matches, names, m, |matches|) <= Votes(matches, names, n, |matches|) {
      if Votes(matches, names, m, |matches|) > 0 {
        var c :| 0 <= c < |order| && order[c] == m;
      }
    }
  }

  /** The vote of `recognize` for one face embedding, given which store entries
      `compare_faces` matched: tallies the matching entries by name and takes
      the first name with the largest tally (`max(counts, key=counts.get)`). */
  method Vote(matches: seq<bool>, names: seq<string>) returns (r: Name)
    requires |matches| == |names|
    ensures IsVote(matches, names, r)
  {
    if !(true in matches) {
      return None;
    }
    var counts, order, firsts := Tally(matches, names);
    var k :| 0 <= k < |matches| && matches[k];
    VoteCounts(matches, names, names[k], k, |matches|);
    assert names[k] in order;
    var best := 0;
    var j := 1;
    while j < |order|
      invariant 0 <= best < j <= |order|
      invariant forall c :: 0 <= c < j ==> counts[order[c]] <= counts[order[best]]
      invariant forall c :: 0 <= c < best ==> counts[order[c]] < counts[order[best]]
    {
      if counts[order[j]] > counts[order[best]] {
        best := j;
      }
      j := j + 1;
    }
    TallyWinner(matches, names, counts, order, firsts, best);
    r := Some(order[best]);
  }

  /** `recognize`: one vote per embedding, in embedding order. `matchVectors[k]`
      is what `compare_faces` reports for the k-th embedding against the store. */
  method Recognize(matchVectors: seq<seq<bool>>, names: seq<string>) returns (r: seq<Name>)
    requires forall k :: 0 <= k < |matchVectors| ==> |matchVectors[k]| == |names|
    ensures |r| == |matchVectors|
    ensures forall k :: 0 <= k < |r| ==> IsVote(matchVectors[k], names, r[k])
  {
    r := [];
    for k := 0 to |matchVectors|
      invariant |r| == k
      invariant forall c :: 0 <= c < k ==> IsVote(matchVectors[c], names, r[c])
    {
      var name := Vote(matchVectors[k], names);
      r := r + [name];
    }
  }

  // ---------------------------------------------------------------------------
  // The debounce gate and the name history of `_run_recognize`

  /** Python's `not name`: no name, or the empty string. */
  predicate Falsy(n: Name)
  {
    n.None? || n.value == ""
  }

  /** Line 167: recognise again only while the history is empty or holds
      nothing but unknown faces seen fewer than three times. */
  predicate GateOpen(h: History)
  {
    h == map[] || forall n :: n in h ==> (if Falsy(n) then h[n] < 3 else false)
  }

  /** The gate is open iff every key is unknown with a count below three; so a
      single real name in the history closes it. */
  lemma GateOpenIff(h: History)
    ensures GateOpen(h) <==> forall n :: n in h ==> Falsy(n) && h[n] < 3
    ensures (exists n :: n in h && !Falsy(n)) ==> !GateOpen(h)
  {
  }

  /** `set(names)`. */
  function Dedup(names: seq<Name>): set<Name>
  {
    set n | n in names
  }

  /** Line 170: `{name: face_history.get(name, 0) + 1 for name in names}`. */
  function Updated(h: History, names: set<Name>): History
  {
    map n | n in names :: (if n in h then h[n] else 0) + 1
  }

  /** What every history the recogniser holds satisfies: a real name has
      count one, an unknown face a count from one to three. */
  ghost predicate HistoryInvariant(h: History)
  {
    forall n :: n in h ==> if Falsy(n) then 1 <= h[n] <= 3 else h[n] == 1
  }

  /** Whatever a frame recognises, an update through an open gate yields a
      history satisfying the invariant. */
  lemma UpdateThroughOpenGate(h: History, names: set<Name>)
    requires GateOpen(h)
    ensures HistoryInvariant(Updated(h, names))
  {
    forall n | n in Updated(h, names)
      ensures if Falsy(n) then 1 <= Updated(h, names)[n] <= 3 else Updated(h, names)[n] == 1
    {
      if n in h {
        assert Falsy(n) && h[n] < 3;
      }
    }
  }

  /** A frame that recognises a real name leaves it with count one and
      closes the gate. */
  lemma RecognisedNameClosesGate(h: History, names: set<Name>, n: Name)
    requires GateOpen(h) && n in names && !Falsy(n)
    ensures n in Updated(h, names) && Updated(h, names)[n] == 1
    ensures !GateOpen(Updated(h, names))
  {
    assert n !in h;
  }

  /** An unknown face is looked up on three frames in a row, then no more. */
  lemma UnknownRetriedThreeTimes()
    ensures Updated(map[], {None}) == map[None := 1] && GateOpen(map[None := 1])
    ensures Updated(map[None := 1], {None}) == map[None := 2] && GateOpen(map[None := 2])
    ensures Updated(map[None := 2], {None}) == map[None := 3] && !GateOpen(map[None := 3])
  {
    assert Falsy(None);
  }

  /** One iteration of `_run_recognize` once `get` has returned `item`;
      `matchVectors` are the store matches of the embeddings of its boxes.
      There is one match vector per box, as `face_encodings` yields one
      embedding per box. Returns the new history, the callback event, and
      the names `recognize` produced (when it ran). */
  method RecognizeStep(history: History, item: QueueItem, matchVectors: seq<seq<bool>>, storeNames: seq<string>)
    returns (history': History, event: Option<Event>, recognized: seq<Name>)
    requires |matchVectors| == |item.boxes|
    requires forall k :: 0 <= k < |matchVectors| ==> |matchVectors[k]| == |storeNames|
    ensures item.boxes == [] ==> history' == map[] && event == None
    ensures item.boxes != [] && !GateOpen(history) ==> history' == history && event == None
    ensures item.boxes != [] && GateOpen(history) ==>
              && |recognized| == |matchVectors|
              && (forall k :: 0 <= k < |recognized| ==> IsVote(matchVectors[k], storeNames, recognized[k]))
              && history'.Keys == Dedup(recognized)
              && (forall n :: n in history' ==> history'[n] == (if n in history then history[n] else 0) + 1)
              && event == Some(FaceRecognized(history'))
    ensures HistoryInvariant(history) ==> HistoryInvariant(history')
  {
    recognized := [];
    if item.boxes == [] {
      history', event := map[], None;
    } else if GateOpen(history) {
      recognized := Recognize(matchVectors, storeNames);
      var names := Dedup(recognized);
      history' := Updated(history, names);
      UpdateThroughOpenGate(history, names);
      event := Some(FaceRecognized(history'));
    } else {
      history', event := history, None;
    }
  }

  /** What a `get(timeout=.5)` of the recogniser yields: `queue.Empty`, or an
      item with the store matches of its faces' embeddings. */
  datatype Received = Timeout | Got(item: QueueItem, matchVectors: seq<seq<bool>>)

  /** One match vector per box, each as long as the store. */
  predicate WellformedReceive(r: Received, storeNames: seq<string>)
  {
    r.Got? ==>
      && |r.matchVectors| == |r.item.boxes|
      && forall k :: 0 <= k < |r.matchVectors| ==> |r.matchVectors[k]| == |storeNames|
  }

  /** Receive `r` makes the recogniser run `recognize` and report. */
  predicate Reports(h: History, r: Received)
  {
    r.Got? && r.item.boxes != [] && GateOpen(h)
  }

  /** How one receive moves the history from `h` to `h'`, given the names
      `votes` that `recognize` returned when it ran: a timeout or a closed
      gate leaves it, an end of episode clears it, and an open gate records
      each distinct recognised name at its old count plus one. */
  ghost predicate Stepped(h: History, r: Received, votes: seq<Name>, h': History, storeNames: seq<string>)
    requires WellformedReceive(r, storeNames)
  {
    if r.Timeout? then h' == h
    else if r.item.boxes == [] then h' == map[]
    else if !GateOpen(h) then h' == h
    else
      && |votes| == |r.matchVectors|
      && (forall k :: 0 <= k < |votes| ==> IsVote(r.matchVectors[k], storeNames, votes[k]))
      && h'.Keys == Dedup(votes)
      && (forall n :: n in h' ==> h'[n] == (if n in h then h[n] else 0) + 1)
  }

  /** The `face_recognized` payloads over the histories `hs` the receives
      pass through, in order: one per receive that reports. */
  function Reported(received: seq<Received>, hs: seq<History>): seq<Event>
    requires |hs| == |received| + 1
  {
    if received == [] then []
    else
      var i := |received| - 1;
      Reported(received[..i], hs[..i + 1]) + (if Reports(hs[i], received[i]) then [FaceRecognized(hs[i + 1])] else [])
  }

  /** One pass of `_run_recognize`'s loop: a timeout changes nothing, an item
      goes through `RecognizeStep`. The result is one step of `Stepped`, and
      an event exactly when the receive `Reports`. */
  method Receive(history: History, r: Received, storeNames: seq<string>)
    returns (history': History, event: Option<Event>, recognized: seq<Name>)
    requires WellformedReceive(r, storeNames)
    ensures Stepped(history, r, recognized, history', storeNames)
    ensures event == (if Reports(history, r) then Some(FaceRecognized(history')) else None)
    ensures HistoryInvariant(history) ==> HistoryInvariant(history')
  {
    history', event, recognized := history, None, [];
    if r.Got? {
      history', event, recognized := RecognizeStep(history, r.item, r.matchVectors, storeNames);
    }
  }

  /** `_run_recognize` over a run of receives, starting from an empty history.
      `hs` are the histories it passes through and `votes` what `recognize`
      returned at each receive: every step follows `Stepped`, the events are
      exactly the reports in order, and every history satisfies the invariant. */
  method RunRecognize(received: seq<Received>, storeNames: seq<string>)
    returns (history: History, events: seq<Event>, ghost hs: seq<History>, ghost votes: seq<seq<Name>>)
    requires forall i :: 0 <= i < |received| ==> WellformedReceive(received[i], storeNames)
    ensures |hs| == |received| + 1 && |votes| == |received|
    ensures hs[0] == map[] && history == hs[|received|]
    ensures forall i :: 0 <= i < |received| ==> Stepped(hs[i], received[i], votes[i], hs[i + 1], storeNames)
    ensures events == Reported(received, hs)
    ensures forall i :: 0 <= i <= |received| ==> HistoryInvariant(hs[i])
    ensures HistoryInvariant(history) && |events| <= |received|
    ensures forall e :: e in events ==> e.FaceRecognized? && HistoryInvariant(e.usernames)
  {
    history, events, hs, votes := map[], [], [map[]], [];
    for i := 0 to |received|
      invariant |hs| == i + 1 && |votes| == i
      invariant hs[0] == map[] && history == hs[i]
      invariant forall j :: 0 <= j < i ==> Stepped(hs[j], received[j], votes[j], hs[j + 1], storeNames)
      invariant events == Reported(received[..i], hs)
      invariant forall j :: 0 <= j <= i ==> HistoryInvariant(hs[j])
    {
      var history', event, recognized := Receive(history, received[i], storeNames);
      Extend(received, storeNames, hs, votes, events, i, history', recognized, event);
      history, hs, votes := history', hs + [history'], votes + [recognized];
      if event.Some? {
        events := events + [event.value];
      }
    }
    assert received[..|received|] == received;
    ReportedInvariant(received, hs);
  }

  /** At most one report per receive, each the history it leads to. */
  lemma {:induction false} ReportedInvariant(received: seq<Received>, hs: seq<History>)
    requires |hs| == |received| + 1
    requires forall i :: 0 <= i <= |received| ==> HistoryInvariant(hs[i])
    ensures |Reported(received, hs)| <= |received|
    ensures forall e :: e in Reported(received, hs) ==> e.FaceRecognized? && HistoryInvariant(e.usernames)
  {
    if received != [] {
      var i := |received| - 1;
      ReportedInvariant(received[..i], hs[..i + 1]);
    }
  }

  /** The loop invariant of `RunRecognize` carried over one more receive. */
  lemma Extend(received: seq<Received>, storeNames: seq<string>, hs: seq<History>, votes: seq<seq<Name>>,
               events: seq<Event>, i: nat, h': History, recognized: seq<Name>, event: Option<Event>)
    requires i < |received| && |hs| == i + 1 && |votes| == i
    requires WellformedReceive(received[i], storeNames)
    requires forall j :: 0 <= j < i ==> WellformedReceive(received[j], storeNames)
    requires forall j :: 0 <= j < i ==> Stepped(hs[j], received[j], votes[j], hs[j + 1], storeNames)
    requires events == Reported(received[..i], hs)
    requires forall j :: 0 <= j <= i ==> HistoryInvariant(hs[j])
    requires Stepped(hs[i], received[i], recognized, h', storeNames)
    requires event == (if Reports(hs[i], received[i]) then Some(FaceRecognized(h')) else None)
    requires HistoryInvariant(h')
    ensures forall j :: 0 <= j < i + 1 ==>
      Stepped((hs + [h'])[j], received[j], (votes + [recognized])[j], (hs + [h'])[j + 1], storeNames)
    ensures events + (if event.Some? then [event.value] else []) == Reported(received[..i + 1], hs + [h'])
    ensures forall j :: 0 <= j <= i + 1 ==> HistoryInvariant((hs + [h'])[j])
  {
    var hs' := hs + [h'];
    assert received[..i + 1][..i] == received[..i];
    assert hs'[..i + 1] == hs;
    forall j | 0 <= j < i + 1
      ensures Stepped(hs'[j], received[j], (votes + [recognized])[j], hs'[j + 1], storeNames)
    {
      if j < i {
        assert hs'[j] == hs[j] && hs'[j + 1] == hs[j + 1] && (votes + [recognized])[j] == votes[j];
      }
    }
  }
}
