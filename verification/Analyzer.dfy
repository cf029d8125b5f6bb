/** The protocol analyzer's stream demultiplexing and loss accounting. Packets of several senders
    arrive mixed, duplicated and reordered; each is assigned to the first stream whose last
    sequence number is a short way behind it, or starts a new stream. One table covers both users:
    audio participants (window 50, any codec) and the video probe (window 80, keyed by wire stream
    and codec). */
module Analyzer {
  import opened Basics
  import opened CallTypes

  datatype Media = Media(seqNo: U32, codec: nat, wireId: nat)

  /** `frameCodec` is the codec of a video frame this packet completed, if any. */
  datatype Arrival = Arrival(media: Media, frameCodec: Option<nat>)

  datatype Rules = Rules(keyed: bool, window: nat)

  /** Per-stream counters. `codecSwitches` is kept for participants only. */
  datatype Stream = Stream(
    id: nat, codec: nat, wireId: nat, packets: nat, lost: nat,
    lastSeq: U32, seqInitialized: bool, codecSwitches: nat)

  // ---------------------------------------------------------------- the table

  /** A stream can take the packet next. */
  predicate Matches(s: Stream, p: Media, rules: Rules) {
    && s.seqInitialized
    && (rules.keyed ==> s.wireId == p.wireId && s.codec == p.codec)
    && 0 < Sub32(p.seqNo, s.lastSeq) < rules.window
  }

  function NewStream(id: nat, p: Media): Stream {
    Stream(id, p.codec, p.wireId, 0, 0, 0, false, 0)
  }

  /** The codec a stream shows after a packet. */
  function CodecAfter(a: Arrival): nat {
    if a.frameCodec.Some? then a.frameCodec.value else a.media.codec
  }

  /** `ingest` of one stream: count the packet, add the sequence gap to the losses. */
  function Ingested(s: Stream, a: Arrival, rules: Rules): Stream {
    var p := a.media;
    var gap := Sub32(p.seqNo, Add32(s.lastSeq, 1));
    Stream(s.id, CodecAfter(a), s.wireId, s.packets + 1,
           if s.seqInitialized && 0 < gap < 100 then s.lost + gap else s.lost,
           p.seqNo, true, if p.codec != s.codec && !rules.keyed then s.codecSwitches + 1 else s.codecSwitches)
  }

  /** The first stream from `from` on that can take the packet; their number if none can. */
  function FirstMatch(ss: seq<Stream>, p: Media, rules: Rules, from: nat): (i: nat)
    requires from <= |ss|
    ensures from <= i <= |ss|
    ensures i < |ss| ==> Matches(ss[i], p, rules)
    ensures forall j :: from <= j < i ==> !Matches(ss[j], p, rules)
    decreases |ss| - from
  {
    if from == |ss| || Matches(ss[from], p, rules) then from else FirstMatch(ss, p, rules, from + 1)
  }

  /** The streams, and for each packet processed the stream it went to. */
  datatype Table = Table(streams: seq<Stream>, owners: seq<nat>)

  function StepTable(t: Table, a: Arrival, rules: Rules): Table {
    var i := FirstMatch(t.streams, a.media, rules, 0);
    if i < |t.streams|
    then Table(t.streams[i := Ingested(t.streams[i], a, rules)], t.owners + [i])
    else Table(t.streams + [Ingested(NewStream(i, a.media), a, rules)], t.owners + [i])
  }

  function TableOf(arrivals: seq<Arrival>, rules: Rules): Table
    decreases |arrivals|
  {
    if arrivals == [] then Table([], [])
    else StepTable(TableOf(arrivals[..|arrivals| - 1], rules), arrivals[|arrivals| - 1], rules)
  }

  lemma TableSnoc(arrivals: seq<Arrival>, a: Arrival, rules: Rules)
    ensures TableOf(arrivals + [a], rules) == StepTable(TableOf(arrivals, rules), a, rules)
  {
    assert (arrivals + [a])[..|arrivals|] == arrivals;
  }

  // ---------------------------------------------------------------- loss accounting

  /** Sum over a stream's history of the forward steps between consecutive packets, mod 2^32. */
  function Distance(h: seq<U32>): nat {
    if |h| < 2 then 0 else Distance(h[..|h| - 1]) + Sub32(h[|h| - 1], h[|h| - 2])
  }

  lemma DistanceSnoc(h: seq<U32>, x: U32)
    requires h != []
    ensures Distance(h + [x]) == Distance(h) + Sub32(x, h[|h| - 1])
  {
    assert (h + [x])[..|h|] == h;
  }

  /** The k-th packet is a short forward step from the one before. */
  predicate ShortStep(h: seq<U32>, k: nat, window: nat)
    requires 0 < k < |h|
  {
    0 < Sub32(h[k], h[k - 1]) < window
  }

  /** What the counters of a stream with history h must be. */
  ghost predicate Accounts(s: Stream, h: seq<U32>, window: nat) {
    && h != [] && s.seqInitialized && s.lastSeq == h[|h| - 1]
    && s.packets == |h|
    && s.packets + s.lost == 1 + Distance(h)
    && (forall k :: 0 < k < |h| ==> ShortStep(h, k, window))
  }

  lemma IngestKeepsAccounts(s: Stream, h: seq<U32>, a: Arrival, rules: Rules)
    requires Accounts(s, h, rules.window) && Matches(s, a.media, rules) && rules.window <= 100
    ensures Accounts(Ingested(s, a, rules), h + [a.media.seqNo], rules.window)
  {
    var x := a.media.seqNo;
    DistanceSnoc(h, x);
    forall k | 0 < k < |h + [x]| ensures ShortStep(h + [x], k, rules.window) {
      if k < |h| {
        assert ShortStep(h, k, rules.window);
      }
    }
  }

  /** Each lost packet was skipped by a step shorter than the window. */
  lemma {:induction false} LossBound(h: seq<U32>, window: nat)
    requires h != [] && window >= 2
    requires forall k :: 0 < k < |h| ==> ShortStep(h, k, window)
    ensures Distance(h) <= (window - 1) * (|h| - 1)
    decreases |h|
  {
    if |h| < 2 {
    } else {
      var init := h[..|h| - 1];
      forall k | 0 < k < |init| ensures ShortStep(init, k, window) {
        assert ShortStep(h, k, window);
      }
      assert ShortStep(h, |h| - 1, window);
      LossBound(init, window);
      Distribute(window - 1, |h| - 1);
    }
  }

  lemma Distribute(w: int, n: int)
    ensures w * n == w * (n - 1) + w
  {}

  /** Lost packets per stream: at most window - 2 for each packet after the first. */
  lemma LostIsBounded(s: Stream, h: seq<U32>, window: nat)
    requires Accounts(s, h, window) && window >= 2
    ensures s.lost <= (window - 2) * (s.packets - 1)
  {
    LossBound(h, window);
    assert (window - 1) * (|h| - 1) == (window - 2) * (|h| - 1) + (|h| - 1);
  }

  function Total(ss: seq<Stream>): nat {
    if ss == [] then 0 else Total(ss[..|ss| - 1]) + ss[|ss| - 1].packets
  }

  lemma {:induction false} TotalUpdate(ss: seq<Stream>, i: nat, s: Stream)
    requires i < |ss|
    ensures Total(ss[i := s]) == Total(ss) - ss[i].packets + s.packets
    decreases |ss|
  {
    var init := ss[..|ss| - 1];
    if i == |ss| - 1 {
      assert ss[i := s][..|ss| - 1] == init;
    } else {
      TotalUpdate(init, i, s);
      assert ss[i := s][..|ss| - 1] == init[i := s];
    }
  }

  function SeqNos(arrivals: seq<Arrival>): (r: seq<U32>)
    ensures |r| == |arrivals|
  {
    seq(|arrivals|, i requires 0 <= i < |arrivals| => arrivals[i].media.seqNo)
  }

  lemma SeqNosSnoc(arrivals: seq<Arrival>)
    requires arrivals != []
    ensures var n := |arrivals| - 1; SeqNos(arrivals) == SeqNos(arrivals[..n]) + [arrivals[n].media.seqNo]
  {}

  /** The entries of `xs` tagged i, in order. */
  function Subsequence<T>(xs: seq<T>, tags: seq<nat>, i: nat): seq<T>
    requires |xs| == |tags|
  {
    if xs == [] then []
    else
      var n := |xs| - 1;
      Subsequence(xs[..n], tags[..n], i) + if tags[n] == i then [xs[n]] else []
  }

  lemma SubsequenceSnoc<T>(xs: seq<T>, tags: seq<nat>, x: T, tag: nat, i: nat)
    requires |xs| == |tags|
    ensures Subsequence(xs + [x], tags + [tag], i) ==
            Subsequence(xs, tags, i) + if tag == i then [x] else []
  {
    assert (xs + [x])[..|xs|] == xs && (tags + [tag])[..|xs|] == tags;
  }

  lemma {:induction false} NothingTagged<T>(xs: seq<T>, tags: seq<nat>, i: nat)
    requires |xs| == |tags| && forall k :: 0 <= k < |tags| ==> tags[k] != i
    ensures Subsequence(xs, tags, i) == []
    decreases |xs|
  {
    if xs == [] {
    } else {
      NothingTagged(xs[..|xs| - 1], tags[..|xs| - 1], i);
    }
  }

  /** The packets are an order-preserving interleaving of the streams' histories, every stream's counters
      account for its history, and the packet counts add up. */
  ghost predicate Balanced(t: Table, xs: seq<U32>, window: nat) {
    && |t.owners| == |xs|
    && (forall k :: 0 <= k < |t.owners| ==> t.owners[k] < |t.streams|)
    && (forall i :: 0 <= i < |t.streams| ==> Accounts(t.streams[i], Subsequence(xs, t.owners, i), window))
    && Total(t.streams) == |xs|
  }

  /** The history and counters of stream j after one more packet. */
  lemma StreamBalances(t: Table, xs: seq<U32>, a: Arrival, rules: Rules, j: nat)
    requires Balanced(t, xs, rules.window) && 2 <= rules.window <= 100
    requires j < |StepTable(t, a, rules).streams|
    ensures var t' := StepTable(t, a, rules);
            |xs + [a.media.seqNo]| == |t'.owners| &&
            Accounts(t'.streams[j], Subsequence(xs + [a.media.seqNo], t'.owners, j), rules.window)
  {
    var x, i := a.media.seqNo, FirstMatch(t.streams, a.media, rules, 0);
    SubsequenceSnoc(xs, t.owners, x, i, j);
    var h := Subsequence(xs, t.owners, j);
    if j != i {
      assert h + [] == h;
    } else if i < |t.streams| {
      IngestKeepsAccounts(t.streams[i], h, a, rules);
    } else {
      NothingTagged(xs, t.owners, i);
      FirstOfStream(a, i, rules);
    }
  }

  lemma FirstOfStream(a: Arrival, id: nat, rules: Rules)
    ensures Accounts(Ingested(NewStream(id, a.media), a, rules), [] + [a.media.seqNo], rules.window)
  {}

  lemma StepTotal(t: Table, a: Arrival, rules: Rules)
    ensures Total(StepTable(t, a, rules).streams) == Total(t.streams) + 1
  {
    var i, ss := FirstMatch(t.streams, a.media, rules, 0), StepTable(t, a, rules).streams;
    if i < |t.streams| {
      TotalUpdate(t.streams, i, ss[i]);
    } else {
      assert ss[..i] == t.streams;
    }
  }

  lemma StepBalances(t: Table, xs: seq<U32>, a: Arrival, rules: Rules)
    requires Balanced(t, xs, rules.window) && 2 <= rules.window <= 100
    ensures Balanced(StepTable(t, a, rules), xs + [a.media.seqNo], rules.window)
  {
    var t' := StepTable(t, a, rules);
    forall j | 0 <= j < |t'.streams|
      ensures |xs + [a.media.seqNo]| == |t'.owners|
      ensures Accounts(t'.streams[j], Subsequence(xs + [a.media.seqNo], t'.owners, j), rules.window)
    {
      StreamBalances(t, xs, a, rules, j);
    }
    StepTotal(t, a, rules);
  }

  /** Every packet sequence, duplicates, reordering and interleaved senders included: for each stream,
      packets + lost = 1 + the distance its packets advanced; every packet is in exactly one stream. */
  lemma {:induction false} EveryTableBalances(arrivals: seq<Arrival>, rules: Rules)
    requires 2 <= rules.window <= 100
    ensures Balanced(TableOf(arrivals, rules), SeqNos(arrivals), rules.window)
    decreases |arrivals|
  {
    if arrivals == [] {
    } else {
      var init, a := arrivals[..|arrivals| - 1], arrivals[|arrivals| - 1];
      EveryTableBalances(init, rules);
      StepBalances(TableOf(init, rules), SeqNos(init), a, rules);
      SeqNosSnoc(arrivals);
    }
  }

  /** Audio participants and video streams. */
  const PARTICIPANTS := Rules(false, 50)
  const VIDEO := Rules(true, 80)

  /** Every run: a participant has lost at most 48 packets, a video stream at most 78, for each packet after
      its first. */
  lemma LossPerPacket(arrivals: seq<Arrival>, i: nat)
    ensures var ss := TableOf(arrivals, PARTICIPANTS).streams; i < |ss| ==> ss[i].lost <= 48 * (ss[i].packets - 1)
    ensures var ss := TableOf(arrivals, VIDEO).streams; i < |ss| ==> ss[i].lost <= 78 * (ss[i].packets - 1)
  {
    LossUnder(arrivals, PARTICIPANTS, i);
    LossUnder(arrivals, VIDEO, i);
  }

  lemma LossUnder(arrivals: seq<Arrival>, rules: Rules, i: nat)
    requires 2 <= rules.window <= 100
    ensures var ss := TableOf(arrivals, rules).streams;
            i < |ss| ==> ss[i].lost <= (rules.window - 2) * (ss[i].packets - 1)
  {
    EveryTableBalances(arrivals, rules);
    var t := TableOf(arrivals, rules);
    if i < |t.streams| {
      LostIsBounded(t.streams[i], Subsequence(SeqNos(arrivals), t.owners, i), rules.window);
    }
  }

  /** How often the codec changes along a history. */
  function Changes(h: seq<Arrival>): nat {
    if |h| < 2 then 0
    else
      var n := |h| - 1;
      Changes(h[..n]) + if h[n].media.codec != CodecAfter(h[n - 1]) then 1 else 0
  }

  lemma ChangesSnoc(h: seq<Arrival>, a: Arrival)
    ensures Changes(h + [a]) ==
            if h == [] then 0 else Changes(h) + if a.media.codec != CodecAfter(h[|h| - 1]) then 1 else 0
  {
    assert (h + [a])[..|h|] == h;
  }

  /** A stream is numbered by its place, shows the latest codec and counts the changes. */
  ghost predicate Labelled(s: Stream, h: seq<Arrival>, i: nat, rules: Rules) {
    && h != [] && s.id == i && s.codec == CodecAfter(h[|h| - 1])
    && s.codecSwitches == if rules.keyed then 0 else Changes(h)
  }

  ghost predicate AllLabelled(t: Table, arrivals: seq<Arrival>, rules: Rules) {
    && |t.owners| == |arrivals| && (forall k :: 0 <= k < |t.owners| ==> t.owners[k] < |t.streams|)
    && forall i :: 0 <= i < |t.streams| ==> Labelled(t.streams[i], Subsequence(arrivals, t.owners, i), i, rules)
  }

  lemma StreamLabelled(t: Table, arrivals: seq<Arrival>, a: Arrival, rules: Rules, j: nat)
    requires AllLabelled(t, arrivals, rules) && j < |StepTable(t, a, rules).streams|
    ensures var t' := StepTable(t, a, rules);
            |t'.owners| == |arrivals + [a]| &&
            Labelled(t'.streams[j], Subsequence(arrivals + [a], t'.owners, j), j, rules)
  {
    var i := FirstMatch(t.streams, a.media, rules, 0);
    SubsequenceSnoc(arrivals, t.owners, a, i, j);
    var h := Subsequence(arrivals, t.owners, j);
    if j != i {
      assert h + [] == h;
    } else {
      ChangesSnoc(h, a);
      if i == |t.streams| {
        NothingTagged(arrivals, t.owners, i);
      }
    }
  }

  /** Every run: streams are numbered in order of appearance, and a participant's switch counter is the
      number of codec changes among its packets. */
  lemma {:induction false} EveryTableIsLabelled(arrivals: seq<Arrival>, rules: Rules)
    ensures AllLabelled(TableOf(arrivals, rules), arrivals, rules)
    decreases |arrivals|
  {
    if arrivals == [] {
    } else {
      var init, a := arrivals[..|arrivals| - 1], arrivals[|arrivals| - 1];
      EveryTableIsLabelled(init, rules);
      assert arrivals == init + [a];
      var t := TableOf(init, rules);
      forall j | 0 <= j < |StepTable(t, a, rules).streams|
        ensures Labelled(StepTable(t, a, rules).streams[j],
                         Subsequence(init + [a], StepTable(t, a, rules).owners, j), j, rules)
      {
        StreamLabelled(t, init, a, rules, j);
      }
    }
  }

  // ---------------------------------------------------------------- demultiplexing

  /** k is the last entry tagged i. */
  ghost predicate LastIs(tags: seq<nat>, i: nat, k: nat) {
    k < |tags| && tags[k] == i && forall m :: k < m < |tags| ==> tags[m] != i
  }

  lemma {:induction false} FindLast(tags: seq<nat>, i: nat) returns (k: nat)
    requires i in tags
    ensures LastIs(tags, i, k)
    decreases |tags|
  {
    var n := |tags| - 1;
    if tags[n] == i {
      k := n;
    } else {
      k := FindLast(tags[..n], i);
    }
  }

  /** A stream whose latest packet was a can take b next. */
  predicate Follows(a: Arrival, b: Arrival, rules: Rules) {
    && (rules.keyed ==> a.media.wireId == b.media.wireId && CodecAfter(a) == b.media.codec)
    && 0 < Sub32(b.media.seqNo, a.media.seqNo) < rules.window
  }

  /** The stream's state is that of its latest packet. */
  ghost predicate Current(s: Stream, a: Arrival, rules: Rules) {
    && s.seqInitialized && s.lastSeq == a.media.seqNo && s.codec == CodecAfter(a)
    && (rules.keyed ==> s.wireId == a.media.wireId)
  }

  /** Every stream has packets and shows the state of its latest. */
  ghost predicate Tracks(t: Table, arrivals: seq<Arrival>, rules: Rules) {
    && |t.owners| == |arrivals|
    && (forall k :: 0 <= k < |t.owners| ==> t.owners[k] < |t.streams|)
    && (forall i :: 0 <= i < |t.streams| ==> i in t.owners)
    && (forall i: nat, k: nat :: i < |t.streams| && LastIs(t.owners, i, k) ==>
          Current(t.streams[i], arrivals[k], rules))
  }

  lemma LastSnoc(tags: seq<nat>, x: nat, i: nat, k: nat)
    requires LastIs(tags + [x], i, k)
    ensures if x == i then k == |tags| else LastIs(tags, i, k)
  {
    var more := tags + [x];
    assert more[|tags|] == x;
    assert forall m :: 0 <= m < |tags| ==> tags[m] == more[m];
  }

  lemma StepTracks(t: Table, arrivals: seq<Arrival>, a: Arrival, rules: Rules)
    requires Tracks(t, arrivals, rules)
    ensures Tracks(StepTable(t, a, rules), arrivals + [a], rules)
  {
    var t', n := StepTable(t, a, rules), |arrivals|;
    var i := FirstMatch(t.streams, a.media, rules, 0);
    assert t'.owners[n] == i;
    forall j: nat, k: nat | j < |t'.streams| && LastIs(t'.owners, j, k)
      ensures Current(t'.streams[j], (arrivals + [a])[k], rules)
    {
      LastSnoc(t.owners, i, j, k);
    }
    forall j | 0 <= j < |t'.streams| ensures j in t'.owners {
      if j != i {
        assert j in t.owners;
      }
    }
  }

  lemma {:induction false} EveryTableTracks(arrivals: seq<Arrival>, rules: Rules)
    ensures Tracks(TableOf(arrivals, rules), arrivals, rules)
    decreases |arrivals|
  {
    if arrivals == [] {
    } else {
      var init, a := arrivals[..|arrivals| - 1], arrivals[|arrivals| - 1];
      EveryTableTracks(init, rules);
      StepTracks(TableOf(init, rules), init, a, rules);
      assert arrivals == init + [a];
    }
  }

  /** When packet n of `arrivals` comes in, it follows the latest packet of its own sender and of no other
      sender seen so far. */
  ghost predicate SeparatedAt(arrivals: seq<Arrival>, src: seq<nat>, rules: Rules, n: nat)
    requires |src| == |arrivals| && n < |arrivals|
  {
    forall j :: 0 <= j < n && LastIs(src[..n], src[j], j) ==>
      (Follows(arrivals[j], arrivals[n], rules) <==> src[j] == src[n])
  }

  ghost predicate Separated(arrivals: seq<Arrival>, src: seq<nat>, rules: Rules) {
    |src| == |arrivals| && forall n :: 0 <= n < |arrivals| ==> SeparatedAt(arrivals, src, rules, n)
  }

  /** Two packets share a stream exactly if they share a sender. */
  ghost predicate SamePartition(owners: seq<nat>, src: seq<nat>) {
    |owners| == |src| &&
    forall j, k :: 0 <= j < |owners| && 0 <= k < |owners| ==> (owners[j] == owners[k] <==> src[j] == src[k])
  }

  /** A stream matches the next packet exactly if it belongs to that packet's sender. */
  lemma MatchesOwnSender(t: Table, arrivals: seq<Arrival>, src: seq<nat>, rules: Rules, n: nat, i: nat, j: nat)
    requires |src| == |arrivals| && n < |arrivals| && SeparatedAt(arrivals, src, rules, n)
    requires Tracks(t, arrivals[..n], rules) && SamePartition(t.owners, src[..n])
    requires j < n && t.owners[j] == i
    ensures Matches(t.streams[i], arrivals[n].media, rules) <==> src[j] == src[n]
  {
    var k := FindLast(t.owners, i);
    assert LastIs(src[..n], src[k], k);
    assert Current(t.streams[i], arrivals[..n][k], rules);
    assert t.owners[k] == t.owners[j];
  }

  /** The stream chosen for packet n is that of packet j exactly if they share the sender. */
  lemma OwnerIsSender(t: Table, arrivals: seq<Arrival>, src: seq<nat>, rules: Rules, n: nat, j: nat)
    requires |src| == |arrivals| && n < |arrivals| && SeparatedAt(arrivals, src, rules, n)
    requires Tracks(t, arrivals[..n], rules) && SamePartition(t.owners, src[..n]) && j < n
    ensures t.owners[j] == FirstMatch(t.streams, arrivals[n].media, rules, 0) <==> src[j] == src[n]
  {
    var i := FirstMatch(t.streams, arrivals[n].media, rules, 0);
    MatchesOwnSender(t, arrivals, src, rules, n, t.owners[j], j);
    if i < |t.streams| {
      var k := FindLast(t.owners, i);
      MatchesOwnSender(t, arrivals, src, rules, n, i, k);
      assert t.owners[j] == t.owners[k] <==> src[..n][j] == src[..n][k];
    }
  }

  lemma ExtendPartition(owners: seq<nat>, src: seq<nat>, i: nat, a: nat)
    requires SamePartition(owners, src)
    requires forall j :: 0 <= j < |owners| ==> (owners[j] == i <==> src[j] == a)
    ensures SamePartition(owners + [i], src + [a])
  {}

  lemma StepDemultiplexes(t: Table, arrivals: seq<Arrival>, src: seq<nat>, rules: Rules, n: nat)
    requires |src| == |arrivals| && n < |arrivals| && SeparatedAt(arrivals, src, rules, n)
    requires Tracks(t, arrivals[..n], rules) && SamePartition(t.owners, src[..n])
    ensures SamePartition(StepTable(t, arrivals[n], rules).owners, src[..n + 1])
  {
    var i := FirstMatch(t.streams, arrivals[n].media, rules, 0);
    forall j | 0 <= j < n ensures t.owners[j] == i <==> src[..n][j] == src[n] {
      OwnerIsSender(t, arrivals, src, rules, n, j);
    }
    ExtendPartition(t.owners, src[..n], i, src[n]);
    assert src[..n + 1] == src[..n] + [src[n]];
  }

  /** Demultiplexing is sound: if every packet follows the latest packet of its own sender and of no
      other sender's, the streams are exactly the senders. */
  lemma {:induction false} StreamsAreSenders(arrivals: seq<Arrival>, src: seq<nat>, rules: Rules, n: nat)
    requires Separated(arrivals, src, rules) && n <= |arrivals|
    ensures SamePartition(TableOf(arrivals[..n], rules).owners, src[..n])
    decreases n
  {
    if n == 0 {
    } else {
      StreamsAreSenders(arrivals, src, rules, n - 1);
      EveryTableTracks(arrivals[..n - 1], rules);
      StepDemultiplexes(TableOf(arrivals[..n - 1], rules), arrivals, src, rules, n - 1);
      assert arrivals[..n] == arrivals[..n - 1] + [arrivals[n - 1]];
      TableSnoc(arrivals[..n - 1], arrivals[n - 1], rules);
    }
  }

  /** `at[k]` is how many packets the sender of packet k had sent before it: numbers show it mod 2^32, and
      each sender's packets arrive in sending order. */
  ghost predicate Positions(arrivals: seq<Arrival>, src: seq<nat>, at: seq<nat>) {
    && |src| == |arrivals| == |at|
    && (forall k :: 0 <= k < |at| ==> arrivals[k].media.seqNo == Wrap32(at[k]))
    && (forall j, k :: 0 <= j < k < |at| && LastIs(src[..k], src[k], j) ==> at[j] < at[k] < at[j] + WORD32)
  }

  /** f is the first packet of its sender. */
  ghost predicate FirstIs(src: seq<nat>, f: nat) {
    f < |src| && forall m :: 0 <= m < f ==> src[m] != src[f]
  }

  /** The packets of sender a among the first n. */
  function PacketsOf(arrivals: seq<Arrival>, src: seq<nat>, a: nat, n: nat): seq<U32>
    requires n <= |src| == |arrivals|
  {
    Subsequence(SeqNos(arrivals[..n]), src[..n], a)
  }

  lemma PacketsOfSnoc(arrivals: seq<Arrival>, src: seq<nat>, a: nat, n: nat)
    requires n < |src| == |arrivals|
    ensures var h := PacketsOf(arrivals, src, a, n);
            PacketsOf(arrivals, src, a, n + 1) == if src[n] == a then h + [arrivals[n].media.seqNo] else h
  {
    assert SeqNos(arrivals[..n + 1]) == SeqNos(arrivals[..n]) + [arrivals[n].media.seqNo];
    assert src[..n + 1] == src[..n] + [src[n]];
    SubsequenceSnoc(SeqNos(arrivals[..n]), src[..n], arrivals[n].media.seqNo, src[n], a);
  }

  /** The packets of a sender, the last of which is packet l, span the positions from packet f to l. */
  ghost predicate Spans(h: seq<U32>, arrivals: seq<Arrival>, at: seq<nat>, f: nat, l: nat)
    requires f < |at| && l < |at| == |arrivals|
  {
    h != [] && h[|h| - 1] == arrivals[l].media.seqNo && Distance(h) + at[f] == at[l]
  }

  lemma SpanExtends(h: seq<U32>, arrivals: seq<Arrival>, src: seq<nat>, at: seq<nat>, f: nat, k: nat, l: nat)
    requires Positions(arrivals, src, at) && f < |at| && k < l < |at|
    requires LastIs(src[..l], src[l], k) && Spans(h, arrivals, at, f, k)
    ensures Spans(h + [arrivals[l].media.seqNo], arrivals, at, f, l)
  {
    DistanceSnoc(h, arrivals[l].media.seqNo);
    SubWraps(at[l], at[k]);
  }

  lemma FirstPacketSpans(arrivals: seq<Arrival>, src: seq<nat>, at: seq<nat>, f: nat)
    requires |src| == |arrivals| == |at| && FirstIs(src, f)
    ensures Spans(PacketsOf(arrivals, src, src[f], f + 1), arrivals, at, f, f)
  {
    NothingTagged(SeqNos(arrivals[..f]), src[..f], src[f]);
    PacketsOfSnoc(arrivals, src, src[f], f);
  }

  /** The distance a sender's packets advance is the span of their positions. */
  lemma {:induction false} DistanceIsSpan(arrivals: seq<Arrival>, src: seq<nat>, at: seq<nat>, f: nat, n: nat, l: nat)
    requires Positions(arrivals, src, at) && f < n <= |at| && FirstIs(src, f)
    requires LastIs(src[..n], src[f], l)
    ensures Spans(PacketsOf(arrivals, src, src[f], n), arrivals, at, f, l)
    decreases n
  {
    PacketsOfSnoc(arrivals, src, src[f], n - 1);
    assert src[..n] == src[..n - 1] + [src[n - 1]];
    LastSnoc(src[..n - 1], src[n - 1], src[f], l);
    if f == n - 1 {
      FirstPacketSpans(arrivals, src, at, f);
    } else if src[n - 1] != src[f] {
      DistanceIsSpan(arrivals, src, at, f, n - 1, l);
    } else {
      assert src[..n - 1][f] == src[f];
      var k := FindLast(src[..n - 1], src[f]);
      DistanceIsSpan(arrivals, src, at, f, n - 1, k);
      SpanExtends(PacketsOf(arrivals, src, src[f], n - 1), arrivals, src, at, f, k, l);
    }
  }

  lemma {:induction false} SameSubsequence(xs: seq<U32>, owners: seq<nat>, i: nat, src: seq<nat>, a: nat)
    requires |xs| == |owners| == |src|
    requires forall k :: 0 <= k < |xs| ==> (owners[k] == i <==> src[k] == a)
    ensures Subsequence(xs, owners, i) == Subsequence(xs, src, a)
    decreases |xs|
  {
    if xs == [] {
    } else {
      var n := |xs| - 1;
      SameSubsequence(xs[..n], owners[..n], i, src[..n], a);
    }
  }

  /** And then `lost` is the true loss: what the sender sent from its first to its last packet seen, less
      what arrived. */
  lemma LostIsTrueLoss(arrivals: seq<Arrival>, src: seq<nat>, at: seq<nat>, rules: Rules, f: nat, l: nat, s: Stream)
    requires Separated(arrivals, src, rules) && Positions(arrivals, src, at) && 2 <= rules.window <= 100
    requires FirstIs(src, f) && LastIs(src, src[f], l)
    requires var t := TableOf(arrivals, rules);
             f < |t.owners| && t.owners[f] < |t.streams| && s == t.streams[t.owners[f]]
    ensures s.packets == |Subsequence(SeqNos(arrivals), src, src[f])|
    ensures s.packets + s.lost == at[l] as int - at[f] + 1
  {
    var n, t := |arrivals|, TableOf(arrivals, rules);
    assert arrivals[..n] == arrivals && src[..n] == src;
    var i := t.owners[f];
    assert SamePartition(t.owners, src) by {
      StreamsAreSenders(arrivals, src, rules, n);
    }
    SameSubsequence(SeqNos(arrivals), t.owners, i, src, src[f]);
    DistanceIsSpan(arrivals, src, at, f, n, l);
    assert Accounts(s, Subsequence(SeqNos(arrivals), t.owners, i), rules.window) by {
      EveryTableBalances(arrivals, rules);
    }
  }

  // ---------------------------------------------------------------- the object

  class StreamTable {
    const rules: Rules
    var streams: seq<Stream>
    /** Every packet processed. */
    ghost var arrivals: seq<Arrival>

    ghost predicate Valid()
      reads this
    {
      streams == TableOf(arrivals, rules).streams
    }

    constructor (rules: Rules)
      ensures Valid() && arrivals == [] && this.rules == rules
    {
      this.rules := rules;
      streams, arrivals := [], [];
    }

    /** `find_or_create_participant` and `VideoProbe::find_or_create_stream`: the first match, else a
        new, still empty stream at the end. */
    method FindOrCreate(p: Media) returns (idx: nat)
      modifies this`streams
      ensures idx == FirstMatch(old(streams), p, rules, 0)
      ensures streams == if idx < |old(streams)| then old(streams) else old(streams) + [NewStream(idx, p)]
    {
      var i := 0;
      while i < |streams|
        invariant 0 <= i <= |streams|
        invariant FirstMatch(streams, p, rules, 0) == FirstMatch(streams, p, rules, i)
        invariant unchanged(this)
      {
        if Matches(streams[i], p, rules) {
          return i;
        }
        i := i + 1;
      }
      idx := |streams|;
      streams := streams + [NewStream(idx, p)];
    }

    /** One packet of the receive loop: find its stream, account for it there. */
    method Process(a: Arrival) returns (idx: nat)
      requires Valid()
      modifies this
      ensures Valid() && arrivals == old(arrivals) + [a]
      ensures TableOf(arrivals, rules).owners == TableOf(old(arrivals), rules).owners + [idx]
    {
      TableSnoc(arrivals, a, rules);
      idx := FindOrCreate(a.media);
      streams := streams[idx := Ingested(streams[idx], a, rules)];
      arrivals := arrivals + [a];
    }

    /** Any packet sequence on a fresh table. */
    method ProcessAll(packets: seq<Arrival>) returns (owners: seq<nat>)
      requires Valid() && arrivals == []
      modifies this
      ensures Valid() && arrivals == packets
      ensures Table(streams, owners) == TableOf(packets, rules)
    {
      owners := [];
      for i := 0 to |packets|
        invariant Valid() && arrivals == packets[..i]
        invariant owners == TableOf(arrivals, rules).owners
      {
        var idx := Process(packets[i]);
        owners := owners + [idx];
      }
    }
  }
}
