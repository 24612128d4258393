/** How a pool run notices its markers in the output of the init process: the two drained streams, the
    bounded buffers in front of the disk logs, and the watches that the runs register and remove. */
module OutputWatch {
  import opened Frames
  import opened Spans

  const HIGH := 64 * 1024 * 1024
  const KEEP := 32 * 1024 * 1024
  const READ := 65536

  // ----- the streams, never discarded -----

  /** One read of a drainer: which stream, what was read, and when it was observed. */
  datatype Chunk = Chunk(index: int, data: seq<byte>, time: int)

  ghost function Stream(log: seq<Chunk>, index: int): seq<byte> {
    if log == [] then [] else
      var c := log[|log| - 1];
      Stream(log[..|log| - 1], index) + if c.index == index then c.data else []
  }

  predicate At(s: seq<byte>, m: seq<byte>, i: int) { 0 <= i && i + |m| <= |s| && s[i..i + |m|] == m }

  ghost predicate OccursFrom(s: seq<byte>, m: seq<byte>, from: int) { exists i :: from <= i && At(s, m, i) }

  /** The position of the stream when a watch was registered after the first `born` chunks. */
  ghost function Origin(log: seq<Chunk>, born: int, index: int): int
    requires 0 <= born <= |log|
  {
    |Stream(log[..born], index)|
  }

  /** The marker occurs in one of the complete streams, from the position of registration on. */
  ghost predicate Hit(log: seq<Chunk>, born: int, m: seq<byte>)
    requires 0 <= born <= |log|
  {
    OccursFrom(Stream(log, 0), m, Origin(log, born, 0)) || OccursFrom(Stream(log, 1), m, Origin(log, born, 1))
  }

  /** When the first chunk since registration completed an occurrence, if one has. */
  ghost function Stamp(log: seq<Chunk>, born: int, m: seq<byte>): Option<int>
    requires 0 <= born <= |log|
  {
    if |log| == born then None else
      var before := Stamp(log[..|log| - 1], born, m);
      if before.Some? then before else if Hit(log, born, m) then Some(log[|log| - 1].time) else None
  }

  // ----- what the drainer does to one watch -----

  /** `marker in buffer`. */
  predicate Contains(s: seq<byte>, m: seq<byte>) { exists i | 0 <= i <= |s| - |m| :: At(s, m, i) }

  function From(s: seq<byte>, start: int): seq<byte>
    requires start >= 0
  {
    if start <= |s| then s[start..] else []
  }

  datatype State = State(marker: seq<byte>, offsets: seq<int>, timestamp: Option<int>)

  predicate WellFormed(w: State) { |w.offsets| == 2 && w.offsets[0] >= 0 && w.offsets[1] >= 0 }

  /** The watch after the buffer has been extended and searched from the resume offset. */
  function Observed(w: State, buffer: seq<byte>, index: int, time: int): (v: State)
    requires WellFormed(w) && 0 <= index < 2
    ensures WellFormed(v) && v.marker == w.marker
  {
    if w.timestamp.Some? then w
    else if Contains(From(buffer, w.offsets[index]), w.marker) then w.(timestamp := Some(time))
    else
      var resume := |buffer| - |w.marker| + 1;
      w.(offsets := w.offsets[index := if resume > w.offsets[index] then resume else w.offsets[index]])
  }

  /** The watch after the first bytes of the buffer were discarded. */
  function Rebased(w: State, index: int, discarded: int): (v: State)
    requires WellFormed(w) && 0 <= index < 2
    ensures WellFormed(v) && v.marker == w.marker
  {
    var moved := w.offsets[index] - discarded;
    w.(offsets := w.offsets[index := if moved > 0 then moved else 0])
  }

  // ----- the buffers and one watch after a run of chunks -----

  predicate Directed(log: seq<Chunk>) { forall k | 0 <= k < |log| :: 0 <= log[k].index < 2 }

  function Trimmed(buffer: seq<byte>): seq<byte> {
    if |buffer| > HIGH then buffer[|buffer| - KEEP..] else buffer
  }

  ghost function Buffer(log: seq<Chunk>, index: int): (buffer: seq<byte>)
    ensures |buffer| <= HIGH
  {
    if log == [] then [] else
      var c, before := log[|log| - 1], Buffer(log[..|log| - 1], index);
      if c.index == index then Trimmed(before + c.data) else before
  }

  /** How many bytes of the stream have been discarded. */
  ghost function Base(log: seq<Chunk>, index: int): int { |Stream(log, index)| - |Buffer(log, index)| }

  /** The watch after one chunk, which has already joined the buffer. */
  function Shown(w: State, buffer: seq<byte>, c: Chunk): (v: State)
    requires WellFormed(w) && 0 <= c.index < 2
    ensures WellFormed(v) && v.marker == w.marker
  {
    var seen := Observed(w, buffer, c.index, c.time);
    if |buffer| > HIGH then Rebased(seen, c.index, |buffer| - KEEP) else seen
  }

  /** The watch that was registered after the first `born` chunks. */
  ghost function Watched(log: seq<Chunk>, born: int, m: seq<byte>): (w: State)
    requires Directed(log) && 0 <= born <= |log|
    ensures WellFormed(w) && w.marker == m
  {
    if |log| == born then State(m, [|Buffer(log, 0)|, |Buffer(log, 1)|], None) else
      var c, before := log[|log| - 1], log[..|log| - 1];
      Shown(Watched(before, born, m), Buffer(before, c.index) + c.data, c)
  }

  lemma BufferAppend(log: seq<Chunk>, c: Chunk, index: int)
    ensures Buffer(log + [c], index)
         == if c.index == index then Trimmed(Buffer(log, index) + c.data) else Buffer(log, index)
  {
    assert (log + [c])[..|log|] == log;
  }

  lemma WatchedAppend(log: seq<Chunk>, c: Chunk, born: int, m: seq<byte>)
    requires Directed(log + [c]) && Directed(log) && 0 <= c.index < 2 && 0 <= born <= |log|
    ensures Watched(log + [c], born, m) == Shown(Watched(log, born, m), Buffer(log, c.index) + c.data, c)
  {
    assert (log + [c])[..|log|] == log;
  }

  /** A buffer is the end of its stream. */
  lemma {:induction false} BufferIsEnd(log: seq<Chunk>, index: int)
    ensures 0 <= Base(log, index) && Buffer(log, index) == Stream(log, index)[Base(log, index)..]
    decreases |log|
  {
    if log != [] {
      var before, c := log[..|log| - 1], log[|log| - 1];
      BufferIsEnd(before, index);
      if c.index == index {
        var s, base := Stream(before, index), Base(before, index);
        assert s[base..] + c.data == (s + c.data)[base..];
      }
    }
  }

  // ----- what a watch is meant to know -----

  /** Markers the buffers can hold on to. */
  predicate Trackable(m: seq<byte>) { 1 <= |m| <= KEEP + 1 }

  /** Where the search resumes: nothing before it can begin an occurrence that is still to be completed. */
  ghost function Resume(log: seq<Chunk>, born: int, m: seq<byte>, index: int): int
    requires 0 <= born <= |log|
  {
    var origin, tail := Origin(log, born, index), |Stream(log, index)| - |m| + 1;
    if tail > origin then tail else origin
  }

  /** The timestamp is the time of the first completing chunk, and a waiting watch resumes at the right
      place in both streams. `base` counts the bytes discarded from each stream. */
  ghost predicate Tracks(w: State, born: int, log: seq<Chunk>, base: seq<int>) {
    && WellFormed(w) && |base| == 2 && 0 <= born <= |log|
    && (Trackable(w.marker) ==>
         && w.timestamp == Stamp(log, born, w.marker)
         && (w.timestamp == None ==> Resumes(w, born, log, base, 0) && Resumes(w, born, log, base, 1)))
  }

  ghost predicate Resumes(w: State, born: int, log: seq<Chunk>, base: seq<int>, index: int)
    requires WellFormed(w) && |base| == 2 && 0 <= born <= |log| && 0 <= index < 2
  {
    base[index] + w.offsets[index] == Resume(log, born, w.marker, index)
  }

  lemma StreamAppend(log: seq<Chunk>, c: Chunk, index: int)
    ensures Stream(log + [c], index) == Stream(log, index) + if c.index == index then c.data else []
  {
    assert (log + [c])[..|log|] == log;
  }

  lemma OriginAppend(log: seq<Chunk>, c: Chunk, born: int, index: int)
    requires 0 <= born <= |log|
    ensures Origin(log + [c], born, index) == Origin(log, born, index) <= |Stream(log, index)|
  {
    assert (log + [c])[..born] == log[..born];
    StreamGrows(log, born, index);
  }

  lemma {:induction false} StreamGrows(log: seq<Chunk>, born: int, index: int)
    requires 0 <= born <= |log|
    ensures |Stream(log[..born], index)| <= |Stream(log, index)|
    decreases |log|
  {
    if born == |log| {
      assert log[..born] == log;
    } else {
      var t := log[..|log| - 1];
      StreamGrows(t, born, index);
      assert t[..born] == log[..born];
    }
  }

  lemma StampAppend(log: seq<Chunk>, c: Chunk, born: int, m: seq<byte>)
    requires 0 <= born <= |log|
    ensures Stamp(log + [c], born, m)
         == if Stamp(log, born, m).Some? then Stamp(log, born, m)
            else if Hit(log + [c], born, m) then Some(c.time) else None
  {
    assert (log + [c])[..|log|] == log;
  }

  /** Until the stamp is set nothing has occurred. */
  lemma UnstampedUnhit(log: seq<Chunk>, born: int, m: seq<byte>)
    requires 0 <= born <= |log| && m != [] && Stamp(log, born, m) == None
    ensures !Hit(log, born, m)
  {
    if |log| == born {
      assert log[..born] == log;
    }
  }

  lemma OldOccurrence(s: seq<byte>, data: seq<byte>, m: seq<byte>, i: int)
    requires At(s + data, m, i) && i + |m| <= |s|
    ensures At(s, m, i)
  {
    assert (s + data)[i..i + |m|] == s[i..i + |m|];
  }

  /** A longer stream has a new occurrence exactly when one begins at the resume position or later. */
  lemma NewOccurrence(s: seq<byte>, data: seq<byte>, m: seq<byte>, origin: int, resume: int)
    requires m != [] && 0 <= origin <= |s| && !OccursFrom(s, m, origin)
    requires resume == if |s| - |m| + 1 > origin then |s| - |m| + 1 else origin
    ensures OccursFrom(s + data, m, origin) <==> OccursFrom(s + data, m, resume)
  {
    forall i | origin <= i && At(s + data, m, i) ensures resume <= i {
      if i + |m| <= |s| {
        OldOccurrence(s, data, m, i);
      }
    }
  }

  lemma SliceAt(s: seq<byte>, start: int, m: seq<byte>, i: int)
    requires 0 <= start <= |s| && 0 <= i
    ensures At(s[start..], m, i) <==> At(s, m, start + i)
  {
    if start + i + |m| <= |s| {
      assert s[start..][i..i + |m|] == s[start + i..start + i + |m|];
    }
  }

  /** Searching the buffer from an offset is searching the whole stream from that position. */
  lemma BufferSearch(s: seq<byte>, base: int, offset: int, m: seq<byte>)
    requires 0 <= base <= |s| && 0 <= offset && m != []
    ensures Contains(From(s[base..], offset), m) <==> OccursFrom(s, m, base + offset)
  {
    if offset <= |s| - base {
      assert From(s[base..], offset) == s[base + offset..];
      var tail, start := s[base + offset..], base + offset;
      if i :| 0 <= i <= |tail| - |m| && At(tail, m, i) {
        SliceAt(s, start, m, i);
      }
      if i :| start <= i && At(s, m, i) {
        SliceAt(s, start, m, i - start);
        assert At(tail, m, i - start);
      }
    }
  }

  // ----- one chunk -----

  lemma ChunkHits(w: State, born: int, log: seq<Chunk>, base: seq<int>, c: Chunk)
    requires Tracks(w, born, log, base) && Trackable(w.marker) && w.timestamp == None && 0 <= c.index < 2
    requires 0 <= base[c.index] <= |Stream(log, c.index)|
    ensures Hit(log + [c], born, w.marker)
       <==> Contains(From(Stream(log + [c], c.index)[base[c.index]..], w.offsets[c.index]), w.marker)
  {
    var m, other, s := w.marker, 1 - c.index, Stream(log, c.index);
    UnstampedUnhit(log, born, m);
    StreamAppend(log, c, 0);
    StreamAppend(log, c, 1);
    OriginAppend(log, c, born, 0);
    OriginAppend(log, c, born, 1);
    assert Stream(log + [c], other) == Stream(log, other);
    assert !OccursFrom(Stream(log, 0), m, Origin(log, born, 0)) && !OccursFrom(Stream(log, 1), m, Origin(log, born, 1));
    NewOccurrence(s, c.data, m, Origin(log, born, c.index), Resume(log, born, m, c.index));
    BufferSearch(s + c.data, base[c.index], w.offsets[c.index], m);
  }

  lemma ChunkResumes(w: State, born: int, log: seq<Chunk>, base: seq<int>, c: Chunk, buffer: seq<byte>)
    requires Tracks(w, born, log, base) && Trackable(w.marker) && w.timestamp == None && 0 <= c.index < 2
    requires |buffer| == |Stream(log + [c], c.index)| - base[c.index]
    requires Observed(w, buffer, c.index, c.time).timestamp == None
    ensures var after := Observed(w, buffer, c.index, c.time);
            WellFormed(after) && Resumes(after, born, log + [c], base, 0) && Resumes(after, born, log + [c], base, 1)
  {
    StreamAppend(log, c, 0);
    StreamAppend(log, c, 1);
    OriginAppend(log, c, born, 0);
    OriginAppend(log, c, born, 1);
  }

  lemma ObserveKeeps(w: State, born: int, log: seq<Chunk>, base: seq<int>, c: Chunk, buffer: seq<byte>)
    requires Tracks(w, born, log, base) && 0 <= c.index < 2 && 0 <= base[c.index] <= |Stream(log, c.index)|
    requires |Stream(log, c.index)| <= |Stream(log + [c], c.index)|
             && buffer == Stream(log + [c], c.index)[base[c.index]..]
    ensures Tracks(Observed(w, buffer, c.index, c.time), born, log + [c], base)
  {
    if Trackable(w.marker) {
      StampAppend(log, c, born, w.marker);
      if w.timestamp == None {
        ChunkHits(w, born, log, base, c);
        if Observed(w, buffer, c.index, c.time).timestamp == None {
          ChunkResumes(w, born, log, base, c, buffer);
        }
      }
    }
  }

  /** Discarding all but the last KEEP bytes loses nothing a trackable marker still needs. */
  lemma RebaseKeeps(w: State, born: int, log: seq<Chunk>, base: seq<int>, index: int, discarded: int)
    requires Tracks(w, born, log, base) && 0 <= index < 2 && discarded >= 0
    requires base[index] + discarded == |Stream(log, index)| - KEEP
    ensures Tracks(Rebased(w, index, discarded), born, log, base[index := base[index] + discarded])
  {
  }

  // ----- whole runs -----

  ghost function Bases(log: seq<Chunk>): seq<int> { [Base(log, 0), Base(log, 1)] }

  /** After every chunk a watch is exact. */
  lemma {:induction false} WatchTracks(log: seq<Chunk>, born: int, m: seq<byte>)
    requires Directed(log) && 0 <= born <= |log|
    ensures Tracks(Watched(log, born, m), born, log, Bases(log))
    decreases |log|
  {
    if |log| == born {
      assert log[..|log|] == log;
    } else {
      var before, c := log[..|log| - 1], log[|log| - 1];
      assert log == before + [c];
      WatchTracks(before, born, m);
      ShownTracks(before, c, born, m);
    }
  }

  lemma ShownTracks(log: seq<Chunk>, c: Chunk, born: int, m: seq<byte>)
    requires Directed(log) && Directed(log + [c]) && 0 <= c.index < 2 && 0 <= born <= |log|
    requires Tracks(Watched(log, born, m), born, log, Bases(log))
    ensures Tracks(Watched(log + [c], born, m), born, log + [c], Bases(log + [c]))
  {
    var w, buffer, base := Watched(log, born, m), Buffer(log, c.index) + c.data, Bases(log);
    ExtendedBuffer(log, c);
    WatchedAppend(log, c, born, m);
    ObserveKeeps(w, born, log, base, c, buffer);
    NextBases(log, c);
    if |buffer| > HIGH {
      RebaseKeeps(Observed(w, buffer, c.index, c.time), born, log + [c], base, c.index, |buffer| - KEEP);
    }
  }

  /** The buffer with the chunk in it is the end of the longer stream. */
  lemma ExtendedBuffer(log: seq<Chunk>, c: Chunk)
    requires 0 <= c.index < 2
    ensures |Stream(log, c.index)| <= |Stream(log + [c], c.index)| && 0 <= Base(log, c.index) <= |Stream(log, c.index)|
    ensures Buffer(log, c.index) + c.data == Stream(log + [c], c.index)[Base(log, c.index)..]
  {
    BufferIsEnd(log, c.index);
    StreamAppend(log, c, c.index);
    var s, base := Stream(log, c.index), Base(log, c.index);
    assert s[base..] + c.data == (s + c.data)[base..];
  }

  lemma {:induction false} NextBases(log: seq<Chunk>, c: Chunk)
    requires 0 <= c.index < 2
    ensures var size := |Buffer(log, c.index) + c.data|;
            && Bases(log + [c]) == Bases(log)[c.index := Base(log, c.index) + if size > HIGH then size - KEEP else 0]
            && (size > HIGH ==> Base(log, c.index) + size - KEEP == |Stream(log + [c], c.index)| - KEEP)
  {
    StreamAppend(log, c, 0);
    StreamAppend(log, c, 1);
    BufferAppend(log, c, 0);
    BufferAppend(log, c, 1);
  }

  /** A drainer reads at most 65536 bytes at once. */
  predicate Reads(log: seq<Chunk>) {
    forall k | 0 <= k < |log| :: 0 <= log[k].index < 2 && 0 < |log[k].data| <= READ
  }

  /** The timestamp is that of the first chunk after which the marker occurs. */
  ghost predicate ExactOn(log: seq<Chunk>, born: int, m: seq<byte>)
    requires Directed(log) && 0 <= born <= |log|
  {
    Watched(log, born, m).timestamp == Stamp(log, born, m)
  }

  /** An empty marker is found in the first chunk, and occurs there. */
  lemma {:induction false} EmptyMarkerIsExact(log: seq<Chunk>, born: int)
    requires Directed(log) && 0 <= born <= |log|
    ensures ExactOn(log, born, []) && (|log| > born ==> Stamp(log, born, []).Some?)
    decreases |log|
  {
    if |log| > born {
      var before, c := log[..|log| - 1], log[|log| - 1];
      assert log == before + [c];
      EmptyMarkerIsExact(before, born);
      EmptyMarkerHits(log, born);
      StampAppend(before, c, born, []);
      WatchedAppend(before, c, born, []);
      EmptyMarkerIsFound(Watched(before, born, []), Buffer(before, c.index) + c.data, c);
    }
  }

  lemma EmptyMarkerHits(log: seq<Chunk>, born: int)
    requires 0 <= born <= |log|
    ensures Hit(log, born, [])
  {
    StreamGrows(log, born, 0);
    assert At(Stream(log, 0), [], Origin(log, born, 0));
  }

  lemma EmptyMarkerIsFound(w: State, buffer: seq<byte>, c: Chunk)
    requires WellFormed(w) && w.marker == [] && 0 <= c.index < 2
    ensures Shown(w, buffer, c).timestamp == if w.timestamp.Some? then w.timestamp else Some(c.time)
  {
    assert At(From(buffer, w.offsets[c.index]), [], 0);
  }

  // ----- a marker that is too long -----

  /** Every byte read by itself from the first stream. */
  ghost function Bytewise(s: seq<byte>): (log: seq<Chunk>)
    ensures |log| == |s| && Reads(log) && Directed(log)
  {
    seq(|s|, k requires 0 <= k < |s| => Chunk(0, [s[k]], 0))
  }

  lemma BytewiseNext(s: seq<byte>, b: byte)
    ensures Bytewise(s + [b]) == Bytewise(s) + [Chunk(0, [b], 0)]
  {
  }

  lemma {:induction false} BytewiseStreams(s: seq<byte>)
    ensures Stream(Bytewise(s), 0) == s && Stream(Bytewise(s), 1) == []
    decreases |s|
  {
    if s != [] {
      var t, b := s[..|s| - 1], s[|s| - 1];
      assert s == t + [b];
      BytewiseStreams(t);
      BytewiseNext(t, b);
      StreamAppend(Bytewise(t), Chunk(0, [b], 0), 0);
      StreamAppend(Bytewise(t), Chunk(0, [b], 0), 1);
    }
  }

  /** The buffer's length: it grows to the bound, and is then cut every KEEP + 1 bytes. */
  ghost predicate Level(size: int, length: int) {
    if size <= HIGH then length == size
    else length == KEEP + (size - HIGH - 1) % (KEEP + 1)
  }

  lemma {:induction false} BytewiseLevel(s: seq<byte>)
    ensures Level(|s|, |Buffer(Bytewise(s), 0)|)
    decreases |s|
  {
    if s != [] {
      var t, b := s[..|s| - 1], s[|s| - 1];
      assert s == t + [b];
      BytewiseLevel(t);
      BytewiseNext(t, b);
      BufferAppend(Bytewise(t), Chunk(0, [b], 0), 0);
      LevelNext(|t|, |Buffer(Bytewise(t), 0)|);
    }
  }

  lemma LevelNext(size: int, length: int)
    requires 0 <= size && Level(size, length)
    ensures Level(size + 1, if length + 1 > HIGH then KEEP else length + 1)
  {
    if size > HIGH {
      TurnNext(size - HIGH - 1);
    }
  }

  lemma TurnNext(x: int)
    requires 0 <= x
    ensures (x + 1) % (KEEP + 1) == if x % (KEEP + 1) == KEEP then 0 else x % (KEEP + 1) + 1
  {
  }

  /** Without an occurrence there is no timestamp, however long the marker. */
  lemma {:induction false} SilentWhileAbsent(log: seq<Chunk>, born: int, m: seq<byte>)
    requires Directed(log) && 0 <= born <= |log| && m != []
    requires !OccursFrom(Stream(log, 0), m, 0) && !OccursFrom(Stream(log, 1), m, 0)
    ensures Watched(log, born, m).timestamp == None
    decreases |log|
  {
    if |log| > born {
      var before, c := log[..|log| - 1], log[|log| - 1];
      assert log == before + [c];
      AbsentBefore(before, c, m, 0);
      AbsentBefore(before, c, m, 1);
      SilentWhileAbsent(before, born, m);
      ExtendedBuffer(before, c);
      BufferSearch(Stream(log, c.index), Base(before, c.index), Watched(before, born, m).offsets[c.index], m);
    }
  }

  lemma AbsentBefore(log: seq<Chunk>, c: Chunk, m: seq<byte>, index: int)
    requires !OccursFrom(Stream(log + [c], index), m, 0)
    ensures !OccursFrom(Stream(log, index), m, 0)
  {
    StreamAppend(log, c, index);
    var s, t := Stream(log, index), Stream(log + [c], index);
    if i :| 0 <= i && At(s, m, i) {
      assert t[i..i + |m|] == s[i..i + |m|];
      assert At(t, m, i);
    }
  }

  /** Filler that cannot begin the marker, and then all of the marker but its last byte. */
  ghost function Prelude(m: seq<byte>, filler: byte, count: nat): seq<byte>
    requires m != []
  {
    seq(count, k => filler) + m[..|m| - 1]
  }

  lemma FirstByte(s: seq<byte>, m: seq<byte>, i: int)
    requires m != [] && At(s, m, i)
    ensures s[i] == m[0]
  {
    assert s[i..i + |m|][0] == s[i];
  }

  lemma PreludeIsSilent(m: seq<byte>, filler: byte, count: nat)
    requires m != [] && filler != m[0]
    ensures !OccursFrom(Prelude(m, filler, count), m, 0)
    ensures At(Prelude(m, filler, count) + [m[|m| - 1]], m, count)
  {
    var s := Prelude(m, filler, count);
    forall i | 0 <= i && At(s, m, i) ensures false {
      FirstByte(s, m, i);
    }
    assert (s + [m[|m| - 1]])[count..count + |m|] == m[..|m| - 1] + [m[|m| - 1]];
  }

  /** For every marker of more than 32 MiB + 1 bytes there is a run of the pool that misses it: the buffer
      is cut just before the marker's last byte, and no longer holds its first. */
  lemma LongMarkerIsMissed(m: seq<byte>) returns (log: seq<Chunk>)
    requires |m| > 32 * 1024 * 1024 + 1
    ensures Reads(log) && Directed(log) && Watched(log, 0, m).timestamp == None && Stamp(log, 0, m).Some?
    ensures |log| <= |m| + 64 * 1024 * 1024
  {
    var filler: byte := if m[0] == 0 then 1 else 0;
    var cuts := Cuts(|m|);
    var count := HIGH + 1 + cuts * (KEEP + 1) - (|m| - 1);
    var s, b := Prelude(m, filler, count), m[|m| - 1];
    PreludeIsSilent(m, filler, count);
    BytewiseStreams(s);
    SilentWhileAbsent(Bytewise(s), 0, m);
    BytewiseLevel(s);
    CutAtPrelude(cuts);
    log := Bytewise(s + [b]);
    LastByteIsMissed(s, b, m);
    LastByteIsStamped(s + [b], m, count);
  }

  lemma LastByteIsMissed(s: seq<byte>, b: byte, m: seq<byte>)
    requires |Buffer(Bytewise(s), 0)| == KEEP && |m| > KEEP + 1 && Watched(Bytewise(s), 0, m).timestamp == None
    ensures Watched(Bytewise(s + [b]), 0, m).timestamp == None
  {
    BytewiseNext(s, b);
    WatchedAppend(Bytewise(s), Chunk(0, [b], 0), 0, m);
  }

  lemma LastByteIsStamped(s: seq<byte>, m: seq<byte>, i: int)
    requires m != [] && At(s, m, i)
    ensures Stamp(Bytewise(s), 0, m).Some?
  {
    var log := Bytewise(s);
    BytewiseStreams(s);
    assert log[..0] == [];
    assert Hit(log, 0, m);
  }

  /** How often the buffer is cut before the one that hits a marker of the length: as often as it takes to
      have room for all of it but the last byte. */
  function Cuts(length: int): (cuts: int)
    requires length > KEEP + 1
    ensures cuts >= 0 && 0 <= HIGH + 1 + cuts * (KEEP + 1) - (length - 1) <= HIGH - 1
  {
    if length - 1 <= HIGH + 1 then 0 else (length - HIGH - 2 + KEEP) / (KEEP + 1)
  }

  lemma CutAtPrelude(n: int)
    requires n >= 0
    ensures Level(HIGH + 1 + n * (KEEP + 1), KEEP)
  {
  }

  /** The pool is exact for a marker, on all runs of reads and wherever it is registered, if and only if
      the marker has at most 32 MiB + 1 bytes. */
  lemma ExactIffShort(m: seq<byte>)
    ensures (forall log, born | Reads(log) && Directed(log) && 0 <= born <= |log| :: ExactOn(log, born, m))
       <==> |m| <= 32 * 1024 * 1024 + 1
  {
    if |m| <= KEEP + 1 {
      forall log, born | Reads(log) && Directed(log) && 0 <= born <= |log| ensures ExactOn(log, born, m) {
        if m == [] {
          EmptyMarkerIsExact(log, born);
        } else {
          WatchTracks(log, born, m);
        }
      }
    } else {
      var log := LongMarkerIsMissed(m);
      assert !ExactOn(log, 0, m);
    }
  }

  // ----- the pool -----

  class Watch {
    const marker: seq<byte>
    var offsets: seq<int>
    var timestamp: Option<int>
    ghost const born: int

    function Value(): State
      reads this
    {
      State(marker, offsets, timestamp)
    }

    constructor (marker: seq<byte>, offsets: seq<int>, ghost born: int)
      ensures Value() == State(marker, offsets, None) && this.born == born
    {
      this.marker, this.offsets, this.timestamp, this.born := marker, offsets, None, born;
    }

    method Observe(buffer: seq<byte>, index: int, time: int)
      requires WellFormed(Value()) && 0 <= index < 2
      modifies this
      ensures Value() == Observed(old(Value()), buffer, index, time)
    {
      if timestamp == None {
        var start := offsets[index];
        if Contains(From(buffer, start), marker) {
          timestamp := Some(time);
        } else {
          var resume := |buffer| - |marker| + 1;
          offsets := offsets[index := if resume > start then resume else start];
        }
      }
    }

    method Rebase(index: int, discarded: int)
      requires WellFormed(Value()) && 0 <= index < 2
      modifies this
      ensures Value() == Rebased(old(Value()), index, discarded)
    {
      offsets := offsets[index := if offsets[index] - discarded > 0 then offsets[index] - discarded else 0];
    }
  }

  ghost predicate Distinct(watches: seq<Watch>) { forall i, j | 0 <= i < j < |watches| :: watches[i] != watches[j] }

  /** What the watches hold, in order. */
  ghost function Values(watches: seq<Watch>): (values: seq<State>)
    reads watches
  {
    seq(|watches|, i requires 0 <= i < |watches| reads watches => watches[i].Value())
  }

  /** Every watch is where the chunks since its registration have brought it. */
  ghost predicate AllWatch(values: seq<State>, watches: seq<Watch>, log: seq<Chunk>)
    requires Directed(log)
  {
    |values| == |watches| && forall i | 0 <= i < |values| :: Watches(values[i], watches[i].born, log)
  }

  ghost predicate Watches(w: State, born: int, log: seq<Chunk>)
    requires Directed(log)
  {
    0 <= born <= |log| && w == Watched(log, born, w.marker)
  }

  ghost predicate AllWellFormed(values: seq<State>) { forall i | 0 <= i < |values| :: WellFormed(values[i]) }

  lemma AllWatchWellFormed(values: seq<State>, watches: seq<Watch>, log: seq<Chunk>)
    requires Directed(log) && AllWatch(values, watches, log)
    ensures AllWellFormed(values)
  {
    forall i | 0 <= i < |values| ensures WellFormed(values[i]) {
      assert Watches(values[i], watches[i].born, log);
    }
  }

  /** What a watch says is true, whenever the buffers can hold on to its marker. */
  ghost predicate Truthful(w: State, born: int, log: seq<Chunk>) {
    0 <= born <= |log| && (|w.marker| <= KEEP + 1 ==> w.timestamp == Stamp(log, born, w.marker))
  }

  lemma WatchIsTruthful(w: State, born: int, log: seq<Chunk>)
    requires Directed(log) && Watches(w, born, log)
    ensures Truthful(w, born, log)
  {
    if w.marker == [] {
      EmptyMarkerIsExact(log, born);
    } else {
      WatchTracks(log, born, w.marker);
    }
  }

  class Pool {
    var buffers: seq<seq<byte>>
    var watches: seq<Watch>
    ghost var log: seq<Chunk>

    ghost predicate Valid()
      reads this, watches
    {
      Directed(log) && buffers == [Buffer(log, 0), Buffer(log, 1)] && Distinct(watches)
          && AllWatch(Values(watches), watches, log)
    }

    constructor ()
      ensures Valid() && log == [] && watches == []
    {
      buffers, watches, log := [[], []], [], [];
    }

    /** One chunk of one drainer, under the lock: every watch is shown the extended buffer, and when that
        is too long all but its end goes and the watches are told. */
    method Receive(c: Chunk)
      requires Valid() && 0 <= c.index < 2
      modifies this, watches
      ensures Valid() && log == old(log) + [c] && watches == old(watches)
      ensures |buffers| == 2 && |buffers[0]| <= 64 * 1024 * 1024 && |buffers[1]| <= 64 * 1024 * 1024
      ensures forall i | 0 <= i < |watches| :: Truthful(Values(watches)[i], watches[i].born, log)
    {
      Take(c);
      AllAreTruthful(Values(watches), watches, log);
    }

    method Take(c: Chunk)
      requires Valid() && 0 <= c.index < 2
      modifies this, watches
      ensures Valid() && log == old(log) + [c] && watches == old(watches)
    {
      var buffer := buffers[c.index] + c.data;
      ShowAll(buffer, c);
      Store(if |buffer| > HIGH then buffer[|buffer| - KEEP..] else buffer, c);
    }

    /** The watches have been shown the chunk; now the buffer is stored. */
    method Store(buffer: seq<byte>, c: Chunk)
      requires Directed(log) && 0 <= c.index < 2 && buffers == [Buffer(log, 0), Buffer(log, 1)]
      requires Distinct(watches) && Directed(log + [c]) && AllWatch(Values(watches), watches, log + [c])
      requires buffer == Trimmed(Buffer(log, c.index) + c.data)
      modifies `buffers, `log
      ensures Valid() && log == old(log) + [c]
    {
      NextBuffers(log, c);
      buffers := buffers[c.index := buffer];
      log := log + [c];
    }

    /** What a chunk does to the watches. */
    method ShowAll(buffer: seq<byte>, c: Chunk)
      requires Directed(log) && 0 <= c.index < 2 && buffer == Buffer(log, c.index) + c.data
      requires Distinct(watches) && AllWatch(Values(watches), watches, log)
      modifies watches
      ensures Directed(log + [c]) && AllWatch(Values(watches), watches, log + [c])
    {
      ghost var before := Values(watches);
      AllWatchWellFormed(before, watches, log);
      ShowEach(buffer, c);
      AllShown(before, Values(watches), watches, log, c);
    }

    method ShowEach(buffer: seq<byte>, c: Chunk)
      requires 0 <= c.index < 2 && Distinct(watches) && AllWellFormed(Values(watches))
      modifies watches
      ensures AllBecame(old(Values(watches)), Values(watches), (w: State) requires WellFormed(w) => Shown(w, buffer, c))
    {
      ObserveAll(buffer, c);
      if |buffer| > HIGH {
        RebaseAll(c.index, |buffer| - KEEP);
      }
    }

    /** Every watch is shown the extended buffer. */
    method ObserveAll(buffer: seq<byte>, c: Chunk)
      requires 0 <= c.index < 2 && Distinct(watches) && AllWellFormed(Values(watches))
      modifies watches
      ensures AllBecame(old(Values(watches)), Values(watches),
                        (w: State) requires WellFormed(w) => Observed(w, buffer, c.index, c.time))
    {
      ghost var before := Values(watches);
      for k := 0 to |watches|
        invariant forall i | 0 <= i < k :: watches[i].Value() == Observed(before[i], buffer, c.index, c.time)
        invariant forall i | k <= i < |watches| :: watches[i].Value() == before[i]
      {
        assert WellFormed(before[k]);
        watches[k].Observe(buffer, c.index, c.time);
      }
    }

    /** Every watch is told how much of the buffer is discarded. */
    method RebaseAll(index: int, discarded: int)
      requires 0 <= index < 2 && Distinct(watches) && AllWellFormed(Values(watches))
      modifies watches
      ensures AllBecame(old(Values(watches)), Values(watches),
              (w: State) requires WellFormed(w) => Rebased(w, index, discarded))
    {
      ghost var before := Values(watches);
      for k := 0 to |watches|
        invariant forall i | 0 <= i < k :: watches[i].Value() == Rebased(before[i], index, discarded)
        invariant forall i | k <= i < |watches| :: watches[i].Value() == before[i]
      {
        assert WellFormed(before[k]);
        watches[k].Rebase(index, discarded);
      }
    }

    /** A run registers its markers at the current ends of both buffers. */
    method Register(markers: seq<seq<byte>>) returns (own: seq<Watch>)
      requires Valid()
      modifies this
      ensures Valid() && log == old(log) && watches == old(watches) + own && |own| == |markers|
      ensures |buffers| == 2 && buffers == old(buffers)
      ensures forall i | 0 <= i < |own| :: fresh(own[i]) && own[i].born == |log|
      ensures forall i | 0 <= i < |own| :: own[i].Value() == State(markers[i], [|buffers[0]|, |buffers[1]|], None)
    {
      own := [];
      var offsets := [|buffers[0]|, |buffers[1]|];
      for k := 0 to |markers|
        invariant buffers == old(buffers) && log == old(log) && watches == old(watches) && Valid()
        invariant |own| == k && forall i | 0 <= i < k :: fresh(own[i]) && own[i].born == |log|
        invariant Distinct(own) && forall i | 0 <= i < k :: own[i].Value() == State(markers[i], offsets, None)
      {
        var w := new Watch(markers[k], offsets, |log|);
        own := own + [w];
      }
      watches := watches + own;
    }

    /** A run takes one of its watches out again: the first entry with the same contents goes, which need
        not be the run's own watch. A negative k stands for the failure when there is none. */
    method Remove(w: Watch) returns (k: int)
      requires Valid()
      modifies `watches
      ensures Valid()
      ensures k < 0 ==>
              watches == old(watches) && forall j | 0 <= j < |old(watches)| :: old(watches)[j].Value() != w.Value()
      ensures k >= 0 ==> k < |old(watches)| && old(watches)[k].Value() == w.Value()
      ensures k >= 0 ==> watches == old(watches)[..k] + old(watches)[k + 1..]
      ensures forall j | 0 <= j < k :: old(watches)[j].Value() != w.Value()
      ensures forall i | 0 <= i < |old(watches)| && old(watches)[i] == w ::
                w !in watches <==> forall j | 0 <= j < i :: old(watches)[j].Value() != w.Value()
    {
      k := 0;
      while k < |watches| && watches[k].Value() != w.Value()
        invariant 0 <= k <= |watches|
        invariant forall j | 0 <= j < k :: watches[j].Value() != w.Value()
      {
        k := k + 1;
      }
      if k == |watches| {
        return -1;
      }
      TakeOut(Values(watches), watches, k, w, log);
      assert Values(watches[..k] + watches[k + 1..]) == Values(watches)[..k] + Values(watches)[k + 1..];
      watches := watches[..k] + watches[k + 1..];
    }
  }

  /** Two runs wait for the same marker from the same position. When the later one is done and takes its
      watch out, the list loses the watch of the other run and keeps its own: removal goes by contents. */
  method LaterRunRemovesEarlierWatch(pool: Pool, marker: seq<byte>) returns (earlier: Watch, later: Watch)
    requires pool.Valid() && pool.watches == []
    modifies pool
    ensures pool.Valid() && earlier != later && pool.watches == [later]
  {
    var first := pool.Register([marker]);
    var second := pool.Register([marker]);
    earlier, later := first[0], second[0];
    assert pool.watches == [earlier, later];
    assert pool.watches[0].Value() == later.Value();
    var k := pool.Remove(later);
    assert k == 0 by {
      assert 0 <= 0 < |[earlier, later]| && [earlier, later][0] == earlier;
    }
    assert [earlier, later][..0] + [earlier, later][1..] == [later];
  }

  lemma TakeOut(values: seq<State>, watches: seq<Watch>, k: int, w: Watch, log: seq<Chunk>)
    requires Directed(log) && 0 <= k < |watches| && Distinct(watches) && AllWatch(values, watches, log)
    ensures var rest := watches[..k] + watches[k + 1..];
            && Distinct(rest) && AllWatch(values[..k] + values[k + 1..], rest, log)
            && (w in watches ==> (w !in rest <==> watches[k] == w))
  {
    var rest := watches[..k] + watches[k + 1..];
    if i :| 0 <= i < |watches| && i != k && watches[i] == w {
      assert rest[if i < k then i else i - 1] == w;
    }
  }

  ghost predicate AllBecame(before: seq<State>, after: seq<State>, change: State --> State) {
    && |after| == |before|
    && forall i | 0 <= i < |before| :: change.requires(before[i]) && after[i] == change(before[i])
  }

  lemma AllShown(before: seq<State>, after: seq<State>, watches: seq<Watch>, log: seq<Chunk>, c: Chunk)
    requires Directed(log) && AllWatch(before, watches, log) && 0 <= c.index < 2
    requires AllBecame(before, after, (w: State) requires WellFormed(w) => Shown(w, Buffer(log, c.index) + c.data, c))
    ensures Directed(log + [c]) && AllWatch(after, watches, log + [c])
  {
    forall i | 0 <= i < |after| ensures Watches(after[i], watches[i].born, log + [c]) {
      assert Watches(before[i], watches[i].born, log);
      WatchedAppend(log, c, watches[i].born, before[i].marker);
    }
  }

  lemma NextBuffers(log: seq<Chunk>, c: Chunk)
    requires 0 <= c.index < 2
    ensures [Buffer(log + [c], 0), Buffer(log + [c], 1)]
         == [Buffer(log, 0), Buffer(log, 1)][c.index := Trimmed(Buffer(log, c.index) + c.data)]
  {
    BufferAppend(log, c, 0);
    BufferAppend(log, c, 1);
  }

  lemma AllAreTruthful(values: seq<State>, watches: seq<Watch>, log: seq<Chunk>)
    requires Directed(log) && AllWatch(values, watches, log)
    ensures forall i | 0 <= i < |watches| :: Truthful(values[i], watches[i].born, log)
  {
    forall i | 0 <= i < |watches| ensures Truthful(values[i], watches[i].born, log) {
      assert Watches(values[i], watches[i].born, log);
      WatchIsTruthful(values[i], watches[i].born, log);
    }
  }
}
