/** The key-frame decoder: an index of intervals between key frames, and a decoder that avoids
    seeking when the stream already stands inside the wanted interval.

    The demuxer and the codec are a stream of packets and a queue: packets are read in order,
    the codec gives back the pictures of the packets it was sent in order, after a delay that
    may depend on anything it has seen since the last flush, and on end of file it gives back
    what it still holds. */
module KeyFrames {

  import opened Sequences

  type Picture = seq<int>

  const MAX_UNSIGNED: nat := 0xFFFF_FFFF

  datatype Interval = Interval(start: nat, end: nat)

  datatype Decoded = Decoded(idx: nat, picture: Picture)

  datatype Status = Ok | NoKeyFrames | NoRequest | NothingDecoded

  // ------------------------------------------------------------- key frames

  ghost predicate Ascending(xs: seq<nat>) {
    forall i, j :: 0 <= i < j < |xs| ==> xs[i] <= xs[j]
  }

  ghost predicate StrictlyAscending(xs: seq<nat>) {
    forall i, j :: 0 <= i < j < |xs| ==> xs[i] < xs[j]
  }

  function Insert(x: nat, xs: seq<nat>): (r: seq<nat>)
    ensures |r| == |xs| + 1
    ensures forall y :: y in r <==> y == x || y in xs
  {
    if xs == [] || x <= xs[0] then [x] + xs else [xs[0]] + Insert(x, xs[1..])
  }

  function Sorted(xs: seq<nat>): (r: seq<nat>)
    ensures |r| == |xs|
    ensures forall y :: y in r <==> y in xs
  {
    if xs == [] then [] else Insert(xs[0], Sorted(xs[1..]))
  }

  lemma {:induction false} InsertPermutes(x: nat, xs: seq<nat>)
    ensures multiset(Insert(x, xs)) == multiset{x} + multiset(xs)
  {
    if xs != [] && x > xs[0] {
      InsertPermutes(x, xs[1..]);
      assert xs == [xs[0]] + xs[1..];
    }
  }

  lemma {:induction false} InsertAscending(x: nat, xs: seq<nat>)
    requires Ascending(xs)
    ensures Ascending(Insert(x, xs))
  {
    if xs != [] && x > xs[0] {
      InsertAscending(x, xs[1..]);
      var t := Insert(x, xs[1..]);
      forall j | 0 <= j < |t| ensures xs[0] <= t[j] {
        assert t[j] in t;
      }
    }
  }

  /** Sorting the key frames loses and adds none. */
  lemma {:induction false} SortedSorts(xs: seq<nat>)
    ensures Ascending(Sorted(xs)) && multiset(Sorted(xs)) == multiset(xs)
  {
    if xs != [] {
      SortedSorts(xs[1..]);
      InsertAscending(xs[0], Sorted(xs[1..]));
      InsertPermutes(xs[0], Sorted(xs[1..]));
      assert xs == [xs[0]] + xs[1..];
    }
  }

  lemma SortedStart(xs: seq<nat>)
    requires xs != []
    ensures Ascending(Sorted(xs))
    ensures Sorted(xs)[0] == 0 <==> 0 in xs
    ensures forall k :: 0 <= k < |Sorted(xs)| ==> Sorted(xs)[k] in xs
  {
    var r := Sorted(xs);
    SortedSorts(xs);
    assert forall k :: 0 <= k < |r| ==> r[k] in r;
    if 0 in xs {
      var k :| 0 <= k < |r| && r[k] == 0;
    }
  }

  /** Intervals that follow each other from 0 to the largest unsigned number. */
  ghost predicate Tiling(ivs: seq<Interval>) {
    && ivs != [] && ivs[0].start == 0 && ivs[|ivs| - 1].end == MAX_UNSIGNED
    && (forall i :: 0 <= i < |ivs| ==> ivs[i].start <= ivs[i].end)
    && (forall i, j :: 0 <= i < |ivs| && j == i + 1 < |ivs| ==> ivs[i].end == ivs[j].start)
  }

  lemma {:induction false} TilingOrder(ivs: seq<Interval>, i: nat, j: nat)
    requires Tiling(ivs) && i < j < |ivs|
    ensures ivs[i].end <= ivs[j].start
    decreases j
  {
    assert ivs[j - 1].end == ivs[j].start;
    if i < j - 1 { TilingOrder(ivs, i, j - 1); }
  }

  /** A tiling is a partition: every frame number below the maximum is in exactly one interval. */
  lemma TilingPartitions(ivs: seq<Interval>, f: nat)
    requires Tiling(ivs) && f < 4294967295
    ensures exists i :: 0 <= i < |ivs| && ivs[i].start <= f < ivs[i].end
    ensures forall i, j :: 0 <= i < j < |ivs| ==> !(ivs[i].start <= f < ivs[i].end && ivs[j].start <= f < ivs[j].end)
  {
    forall i, j | 0 <= i < j < |ivs| ensures ivs[i].end <= ivs[j].start {
      TilingOrder(ivs, i, j);
    }
    var i := Locate(ivs, f, |ivs| - 1);
  }

  lemma {:induction false} Locate(ivs: seq<Interval>, f: nat, k: nat) returns (i: nat)
    requires Tiling(ivs) && k < |ivs| && f < ivs[k].end
    ensures i < |ivs| && ivs[i].start <= f < ivs[i].end
  {
    if ivs[k].start <= f {
      i := k;
    } else {
      assert ivs[k - 1].end == ivs[k].start;
      i := Locate(ivs, f, k - 1);
    }
  }

  /** The end of the `j`-th interval: the next key frame, or the largest number. */
  function EndOf(sorted: seq<nat>, j: nat): nat {
    if j + 1 < |sorted| then sorted[j + 1] else MAX_UNSIGNED
  }

  lemma MadeTiling(sorted: seq<nat>, ivs: seq<Interval>)
    requires sorted != [] && sorted[0] == 0 && Ascending(sorted) && forall j :: 0 <= j < |sorted| ==> sorted[j] <= MAX_UNSIGNED
    requires |ivs| == |sorted| && forall j :: 0 <= j < |ivs| ==> ivs[j] == Interval(sorted[j], EndOf(sorted, j))
    ensures Tiling(ivs)
  {
  }

  // ---------------------------------------------------------------- buckets

  /** The first index from `k` on whose frame is not below `end`. */
  function RunEnd(frames: seq<nat>, k: nat, end: nat): (r: nat)
    requires k <= |frames|
    ensures k <= r <= |frames|
    decreases |frames| - k
  {
    if k < |frames| && frames[k] < end then RunEnd(frames, k + 1, end) else k
  }

  /** Where the bucket of interval `i` starts in the request. */
  function Cut(ivs: seq<Interval>, frames: seq<nat>, i: nat): (r: nat)
    requires i <= |ivs|
    ensures r <= |frames|
  {
    if i == 0 then 0 else RunEnd(frames, Cut(ivs, frames, i - 1), ivs[i - 1].end)
  }

  function Bucket(ivs: seq<Interval>, frames: seq<nat>, i: nat): seq<nat>
    requires i < |ivs|
  {
    frames[Cut(ivs, frames, i)..Cut(ivs, frames, i + 1)]
  }

  lemma {:induction false} RunEndStops(frames: seq<nat>, k: nat, end: nat)
    requires k <= |frames|
    ensures forall j :: k <= j < RunEnd(frames, k, end) ==> frames[j] < end
    ensures RunEnd(frames, k, end) < |frames| ==> frames[RunEnd(frames, k, end)] >= end
    decreases |frames| - k
  {
    if k < |frames| && frames[k] < end { RunEndStops(frames, k + 1, end); }
  }

  lemma {:induction false} CutStops(ivs: seq<Interval>, frames: seq<nat>, i: nat)
    requires Tiling(ivs) && i <= |ivs|
    ensures i < |ivs| && Cut(ivs, frames, i) < |frames| ==> frames[Cut(ivs, frames, i)] >= ivs[i].start
    ensures i == |ivs| && (forall k :: 0 <= k < |frames| ==> frames[k] < MAX_UNSIGNED) ==> Cut(ivs, frames, i) == |frames|
  {
    if i > 0 {
      RunEndStops(frames, Cut(ivs, frames, i - 1), ivs[i - 1].end);
      assert i < |ivs| ==> ivs[i - 1].end == ivs[i].start;
    }
  }

  /** For an ascending request every frame of a bucket lies in the bucket's interval. */
  lemma BucketInside(ivs: seq<Interval>, frames: seq<nat>, i: nat)
    requires Tiling(ivs) && i < |ivs| && Ascending(frames)
    ensures forall f :: f in Bucket(ivs, frames, i) ==> ivs[i].start <= f < ivs[i].end
  {
    var a, b := Cut(ivs, frames, i), Cut(ivs, frames, i + 1);
    CutStops(ivs, frames, i);
    RunEndStops(frames, a, ivs[i].end);
    forall f | f in Bucket(ivs, frames, i) ensures ivs[i].start <= f < ivs[i].end {
      var j :| a <= j < b && frames[j] == f;
      assert frames[a] <= frames[j];
    }
  }

  /** An interval without frames of its own gets no bucket, whatever the request. */
  lemma EmptyIntervalEmptyBucket(ivs: seq<Interval>, frames: seq<nat>, i: nat)
    requires Tiling(ivs) && i < |ivs| && ivs[i].start == ivs[i].end
    ensures Bucket(ivs, frames, i) == []
  {
    CutStops(ivs, frames, i);
  }

  /** The first `n` buckets in order. */
  function Joined(ivs: seq<Interval>, frames: seq<nat>, n: nat): seq<nat>
    requires n <= |ivs|
  {
    if n == 0 then [] else Joined(ivs, frames, n - 1) + Bucket(ivs, frames, n - 1)
  }

  /** The buckets of any request below the maximum concatenate to the request. */
  lemma BucketsJoin(ivs: seq<Interval>, frames: seq<nat>)
    requires Tiling(ivs) && forall k :: 0 <= k < |frames| ==> frames[k] < MAX_UNSIGNED
    ensures Joined(ivs, frames, |ivs|) == frames
  {
    JoinedPrefix(ivs, frames, |ivs|);
    CutStops(ivs, frames, |ivs|);
  }

  lemma {:induction false} JoinedPrefix(ivs: seq<Interval>, frames: seq<nat>, n: nat)
    requires n <= |ivs|
    ensures Joined(ivs, frames, n) == frames[..Cut(ivs, frames, n)]
  {
    if n > 0 {
      JoinedPrefix(ivs, frames, n - 1);
    }
  }

  // ------------------------------------------------------- what decoding gives

  /** Always seeking: walk from frame `i` to `end`, or to the end of the video, and pick the
      wanted frames from index `k` on, each when its number comes up. */
  function Scan(video: seq<Picture>, i: nat, end: nat, frames: seq<nat>, k: nat): seq<Decoded>
    decreases |video| - i
  {
    if i >= end || i >= |video| || k >= |frames| then []
    else if i == frames[k] then [Decoded(i, video[i])] + Scan(video, i + 1, end, frames, k + 1)
    else Scan(video, i + 1, end, frames, k)
  }

  /** Nothing is lost by starting later, as long as the next wanted frame is not passed. */
  lemma {:induction false} ScanSkips(video: seq<Picture>, i: nat, j: nat, end: nat, frames: seq<nat>, k: nat)
    requires i <= j && k < |frames| && j <= frames[k]
    ensures Scan(video, i, end, frames, k) == Scan(video, j, end, frames, k)
    decreases j - i
  {
    if i < j {
      if i < end && i < |video| {
        ScanSkips(video, i + 1, j, end, frames, k);
      } else {
        ScanEmpty(video, j, end, frames, k);
      }
    }
  }

  lemma ScanEmpty(video: seq<Picture>, j: nat, end: nat, frames: seq<nat>, k: nat)
    requires j >= end || j >= |video|
    ensures Scan(video, j, end, frames, k) == []
  {
  }

  /** The pictures of a request: one for each frame that the video has. */
  function Pictures(video: seq<Picture>, frames: seq<nat>, k: nat): seq<Decoded>
    decreases |frames| - k
  {
    if k >= |frames| then []
    else (if frames[k] < |video| then [Decoded(frames[k], video[frames[k]])] else []) + Pictures(video, frames, k + 1)
  }

  lemma {:induction false} NoPictures(video: seq<Picture>, frames: seq<nat>, k: nat)
    requires forall j :: k <= j < |frames| ==> frames[j] >= |video|
    ensures Pictures(video, frames, k) == []
    decreases |frames| - k
  {
    if k < |frames| { NoPictures(video, frames, k + 1); }
  }

  /** Of a strictly ascending request, read place by place: the frames that the video has come
      first, and each gives its own picture. */
  lemma {:induction false} PicturesAre(video: seq<Picture>, frames: seq<nat>, k: nat)
    requires StrictlyAscending(frames) && k <= |frames|
    ensures var r := Pictures(video, frames, k);
            && |r| <= |frames| - k
            && (forall j :: k <= j < |frames| ==> (j - k < |r| <==> frames[j] < |video|))
            && (forall j :: 0 <= j < |r| ==> frames[k + j] < |video| && r[j] == Decoded(frames[k + j], video[frames[k + j]]))
    decreases |frames| - k
  {
    if k < |frames| {
      if frames[k] < |video| { PicturesAre(video, frames, k + 1); } else { NoPictures(video, frames, k); }
    }
  }

  /** Always seeking gives every wanted picture of the interval, in order. */
  lemma {:induction false} ScanIsPictures(video: seq<Picture>, i: nat, end: nat, frames: seq<nat>, k: nat)
    requires StrictlyAscending(frames)
    requires forall j :: k <= j < |frames| ==> i <= frames[j] < end
    ensures Scan(video, i, end, frames, k) == Pictures(video, frames, k)
    decreases |video| - i
  {
    if k < |frames| {
      if i >= |video| {
        NoPictures(video, frames, k);
      } else if i == frames[k] {
        ScanIsPictures(video, i + 1, end, frames, k + 1);
      } else {
        ScanIsPictures(video, i + 1, end, frames, k);
      }
    }
  }

  /** What a whole request gives when every interval is decoded by seeking to its start:
      the scans of the first `n` buckets. */
  function SeekDecode(video: seq<Picture>, ivs: seq<Interval>, frames: seq<nat>, n: nat): seq<Decoded>
    requires n <= |ivs|
  {
    if n == 0 then []
    else SeekDecode(video, ivs, frames, n - 1)
         + Scan(video, ivs[n - 1].start, ivs[n - 1].end, Bucket(ivs, frames, n - 1), 0)
  }

  lemma {:induction false} PicturesAppend(video: seq<Picture>, a: seq<nat>, b: seq<nat>, k: nat)
    requires k <= |a|
    ensures Pictures(video, a + b, k) == Pictures(video, a, k) + Pictures(video, b, 0)
    decreases |a| - k
  {
    if k < |a| {
      PicturesAppend(video, a, b, k + 1);
    } else {
      PicturesShift(video, a, b, 0);
    }
  }

  lemma {:induction false} PicturesShift(video: seq<Picture>, a: seq<nat>, b: seq<nat>, k: nat)
    ensures Pictures(video, a + b, |a| + k) == Pictures(video, b, k)
    decreases |b| - k
  {
    if k < |b| { PicturesShift(video, a, b, k + 1); }
  }

  /** For a strictly ascending request below the maximum, that is every wanted picture. */
  lemma {:induction false} SeekDecodeIsPictures(video: seq<Picture>, ivs: seq<Interval>, frames: seq<nat>, n: nat)
    requires Tiling(ivs) && n <= |ivs| && StrictlyAscending(frames)
    ensures SeekDecode(video, ivs, frames, n) == Pictures(video, Joined(ivs, frames, n), 0)
  {
    if n > 0 {
      SeekDecodeIsPictures(video, ivs, frames, n - 1);
      BucketInside(ivs, frames, n - 1);
      var b := Bucket(ivs, frames, n - 1);
      assert forall j :: 0 <= j < |b| ==> b[j] in b;
      ScanIsPictures(video, ivs[n - 1].start, ivs[n - 1].end, b, 0);
      PicturesAppend(video, Joined(ivs, frames, n - 1), b, 0);
    }
  }

  // ---------------------------------------------------------------- decoder

  /** The loop that pairs up key frames, and the auxiliary last interval. */
  method BuildIntervals(sorted: seq<nat>) returns (ivs: seq<Interval>, empty: seq<seq<nat>>)
    requires sorted != []
    ensures |ivs| == |empty| == |sorted|
    ensures forall j :: 0 <= j < |ivs| ==> ivs[j] == Interval(sorted[j], EndOf(sorted, j))
    ensures forall j :: 0 <= j < |empty| ==> empty[j] == []
  {
    ivs, empty := [], [];
    for i := 0 to |sorted| - 1
      invariant |ivs| == |empty| == i
      invariant forall j :: 0 <= j < i ==> ivs[j] == Interval(sorted[j], EndOf(sorted, j))
      invariant forall j :: 0 <= j < i ==> empty[j] == []
    {
      ivs := ivs + [Interval(sorted[i], sorted[i + 1])];
      empty := empty + [[]];
    }
    ivs := ivs + [Interval(sorted[|sorted| - 1], MAX_UNSIGNED)];
    empty := empty + [[]];
  }

  class KeyFrameDecoder {
    const video: seq<Picture>
    const ready: (nat, nat) -> bool   // packets read, pictures held: does the codec answer?

    var intervals: seq<Interval>
    var buckets: seq<seq<nat>>
    var frameList: seq<Decoded>
    var lastConsumed: int
    var position: nat                 // the next packet of the stream
    var next: nat                     // the next picture the codec will give

    /** The stream stands right behind the last consumed frame. */
    ghost predicate Synced()
      reads this
    {
      lastConsumed + 1 == next <= position <= |video|
    }

    ghost predicate Valid()
      reads this
    {
      && Synced()
      && |buckets| == |intervals|
      && (intervals != [] ==> Tiling(intervals) && forall i :: 0 <= i < |intervals| ==> intervals[i].start < |video|)
    }

    constructor (v: seq<Picture>, r: (nat, nat) -> bool)
      ensures Valid() && video == v && intervals == [] && frameList == []
    {
      video, ready := v, r;
      intervals, buckets, frameList := [], [], [];
      lastConsumed, position, next := -1, 0, 0;
    }

    /** Builds the intervals between key frames; only once, and frame 0 has to be one. */
    method PopulateIntervals(keyFrames: seq<nat>) returns (status: Status)
      requires Valid() && forall k :: k in keyFrames ==> k < |video| && k <= MAX_UNSIGNED
      modifies this`intervals, this`buckets
      ensures Valid()
      ensures status == if keyFrames == [] || old(intervals) != [] || 0 !in keyFrames then NoKeyFrames else Ok
      ensures status == Ok ==> |intervals| == |keyFrames|
                               && (forall i :: 0 <= i < |intervals| ==> intervals[i].start == Sorted(keyFrames)[i])
                               && forall i :: 0 <= i < |buckets| ==> buckets[i] == []
      ensures status != Ok ==> intervals == old(intervals) && buckets == old(buckets)
    {
      if keyFrames == [] || intervals != [] {
        return NoKeyFrames;
      }
      var sorted := Sorted(keyFrames);
      SortedStart(keyFrames);
      if sorted[0] != 0 {
        return NoKeyFrames;
      }
      var ivs, empty := BuildIntervals(sorted);
      MadeTiling(sorted, ivs);
      intervals, buckets := ivs, empty;
      status := Ok;
    }

    /** Forgets the previous request. */
    method Clear()
      requires Valid()
      modifies this`frameList, this`buckets
      ensures Valid() && frameList == [] && forall i :: 0 <= i < |buckets| ==> buckets[i] == []
    {
      frameList := [];
      buckets := seq(|intervals|, _ => []);
    }

    /** Deals the requested frames out to the intervals. */
    method PopulateIntervalMap(frames: seq<nat>) returns (status: Status)
      requires Valid() && intervals != [] && forall i :: 0 <= i < |buckets| ==> buckets[i] == []
      modifies this`buckets
      ensures Valid()
      ensures status == if frames == [] then NoRequest else Ok
      ensures status == Ok ==> forall i :: 0 <= i < |intervals| ==> buckets[i] == Bucket(intervals, frames, i)
    {
      if frames == [] {
        return NoRequest;
      }
      var k, i := 0, 0;
      while i < |intervals|
        invariant |buckets| == |intervals| && i <= |intervals| && k == Cut(intervals, frames, i) < |frames|
        invariant forall j :: 0 <= j < i ==> buckets[j] == Bucket(intervals, frames, j)
        invariant forall j :: i <= j < |intervals| ==> buckets[j] == []
      {
        k := FillBucket(i, frames, k);
        i := i + 1;
        if k == |frames| {
          AllDealt(intervals, frames, i);
          return Ok;
        }
      }
      status := Ok;
    }

    /** Moves frames below the interval's end into its bucket. */
    method FillBucket(i: nat, frames: seq<nat>, from: nat) returns (k: nat)
      requires i < |intervals| == |buckets| && from < |frames| && buckets[i] == []
      modifies this`buckets
      ensures k == RunEnd(frames, from, intervals[i].end)
      ensures buckets == old(buckets)[i := frames[from..k]]
    {
      k := from;
      while frames[k] < intervals[i].end
        invariant from <= k < |frames|
        invariant RunEnd(frames, k, intervals[i].end) == RunEnd(frames, from, intervals[i].end)
        invariant |buckets| == |old(buckets)| && buckets == old(buckets)[i := buckets[i]]
        invariant buckets[i] == frames[from..k]
        decreases |frames| - k
      {
        buckets := buckets[i := buckets[i] + [frames[k]]];
        k := k + 1;
        assert frames[from..k] == frames[from..k - 1] + [frames[k - 1]];
        if k == |frames| {
          return;
        }
      }
    }

    /** Takes the next picture from the codec and keeps it if it is wanted. */
    method Receive(idx: nat, frames: seq<nat>, found: nat) returns (k: nat)
      requires idx == next < |video| && found < |frames|
      modifies this`next, this`lastConsumed, this`frameList
      ensures next == idx + 1 && lastConsumed == idx
      ensures k == if idx == frames[found] then found + 1 else found
      ensures frameList == if idx == frames[found] then old(frameList) + [Decoded(idx, video[idx])] else old(frameList)
    {
      var picture := video[next];
      next := next + 1;
      lastConsumed := idx;
      k := found;
      if idx == frames[k] {
        frameList := frameList + [Decoded(idx, picture)];
        k := k + 1;
      }
    }

    /** Decodes the frames of one interval. The stream is only moved to the interval's key
        frame when it does not already stand inside the interval and before the first wanted
        frame; either way the result is that of always moving it. */
    method DecodeInterval(start: nat, end: nat, frames: seq<nat>)
      requires Synced() && frames != [] && start < end && start < |video|
      modifies this`frameList, this`lastConsumed, this`position, this`next
      ensures Synced()
      ensures frameList == old(frameList) + Scan(video, start, end, frames, 0)
    {
      var seek := !(frames[0] > lastConsumed && lastConsumed >= start);
      if seek {
        position, next := start, start;
      }
      var idx: nat := if seek then start else lastConsumed + 1;
      var found, eof := 0, false;
      if !seek {
        ScanSkips(video, start, idx, end, frames, 0);
      }
      ghost var goal := frameList + Scan(video, start, end, frames, 0);
      while idx < end
        invariant idx == next <= position <= |video| && found < |frames|
        invariant start <= idx && ((idx == start && seek) || lastConsumed + 1 == idx)
        invariant eof ==> position == |video|
        invariant frameList + Scan(video, idx, end, frames, found) == goal
        decreases |video| - position, !eof, position - next
      {
        if !eof {
          if position == |video| {
            eof := true;
            continue;
          }
          position := position + 1;
        }
        if next == position || (!eof && !ready(position, position - next)) {
          if eof {
            break;
          }
          continue;
        }
        ghost var before := frameList;
        found := Receive(idx, frames, found);
        ConcatAssociates(before, [Decoded(idx, video[idx])], Scan(video, idx + 1, end, frames, found));
        if found == |frames| {
          break;
        }
        idx := idx + 1;
      }
    }

    /** A whole request. Its pictures depend on the request alone, not on earlier ones: they
        are those of seeking to every interval anew, and for a strictly ascending request
        below the maximum those of all requested frames that the video has. */
    method Decode(frames: seq<nat>) returns (status: Status)
      requires Valid()
      modifies this
      ensures Valid() && intervals == old(intervals)
      ensures intervals == [] ==> status == NoKeyFrames
      ensures intervals != [] && frames == [] ==> status == NoRequest
      ensures intervals != [] && frames != [] ==>
                && frameList == SeekDecode(video, intervals, frames, |intervals|)
                && status == (if frameList == [] then NothingDecoded else Ok)
      ensures intervals != [] && frames != [] && StrictlyAscending(frames) && (forall k :: 0 <= k < |frames| ==> frames[k] < 4294967295) ==>
                && frameList == Pictures(video, frames, 0) && |frameList| <= |frames|
                && (forall k :: 0 <= k < |frames| ==> (k < |frameList| <==> frames[k] < |video|))
                && (forall k :: 0 <= k < |frameList| ==> frames[k] < |video| && frameList[k] == Decoded(frames[k], video[frames[k]]))
    {
      Clear();
      if intervals == [] {
        return NoKeyFrames;
      }
      status := PopulateIntervalMap(frames);
      if status != Ok {
        return;
      }
      DecodeBuckets(frames);
      if StrictlyAscending(frames) && forall k :: 0 <= k < |frames| ==> frames[k] < MAX_UNSIGNED {
        PicturesAre(video, frames, 0);
        SeekDecodeIsPictures(video, intervals, frames, |intervals|);
        BucketsJoin(intervals, frames);
      }
      if frameList == [] {
        status := NothingDecoded;
      }
    }

    method DecodeBuckets(frames: seq<nat>)
      requires Valid() && intervals != [] && frameList == []
      requires forall i :: 0 <= i < |intervals| ==> buckets[i] == Bucket(intervals, frames, i)
      modifies this`frameList, this`lastConsumed, this`position, this`next
      ensures Valid() && frameList == SeekDecode(video, intervals, frames, |intervals|)
    {
      for i := 0 to |intervals|
        invariant Valid() && frameList == SeekDecode(video, intervals, frames, i)
      {
        if buckets[i] != [] {
          if intervals[i].start == intervals[i].end {
            EmptyIntervalEmptyBucket(intervals, frames, i);
          }
          DecodeInterval(intervals[i].start, intervals[i].end, buckets[i]);
        }
      }
    }
  }

  /** Once the whole request is dealt out, the remaining buckets are empty. */
  lemma {:induction false} AllDealt(ivs: seq<Interval>, frames: seq<nat>, n: nat)
    requires n <= |ivs| && Cut(ivs, frames, n) == |frames|
    ensures forall j :: n <= j < |ivs| ==> Bucket(ivs, frames, j) == []
    decreases |ivs| - n
  {
    if n < |ivs| { AllDealt(ivs, frames, n + 1); }
  }
}