/** How long a disk request takes: seek, wait for the sector to come round, transfer. */
module DiskTiming {
  const SECTORS_PER_TRACK := 32
  const ROTATION_TIME := 500
  const SEEK_TIME := 500

  function Diff(a: nat, b: nat): nat {
    if a > b then a - b else b - a
  }

  function SeekTime(lastSector: nat, newSector: nat): nat {
    Diff(newSector / SECTORS_PER_TRACK, lastSector / SECTORS_PER_TRACK) * SEEK_TIME
  }

  /** No time within a track, one seek time more for each track further out, in either direction. */
  lemma SeekPerTrack(a: nat, b: nat)
    ensures a / 32 == b / 32 ==> SeekTime(a, b) == 0
    ensures a / 32 <= b / 32 ==> SeekTime(a, b + 32) == SeekTime(a, b) + 500
    ensures SeekTime(a, b) == SeekTime(b, a)
  {
  }

  /** Seeking over a track in between takes as long as stopping there. */
  lemma SeekAdds(a: nat, b: nat, c: nat)
    requires a / 32 <= b / 32 <= c / 32
    ensures SeekTime(a, c) == SeekTime(a, b) + SeekTime(b, c)
  {
  }

  /** The sector under the head at a sector-aligned instant, counted within its track. */
  function UnderHead(time: nat): nat {
    time / ROTATION_TIME % SECTORS_PER_TRACK
  }

  /** An instant at which the transfer of `sector` can begin. */
  predicate Ready(time: nat, sector: nat) {
    time % ROTATION_TIME == 0 && UnderHead(time) == sector % SECTORS_PER_TRACK
  }

  /** The first sector boundary at or after `t`. */
  function Boundary(t: nat): (b: nat)
    ensures t <= b < t + ROTATION_TIME && b % ROTATION_TIME == 0
  {
    (t + ROTATION_TIME - 1) / ROTATION_TIME * ROTATION_TIME
  }

  /** The sector has passed under the head, whole, between the two boundaries. */
  predicate Buffered(from: nat, to: nat, sector: nat) {
    exists d :: 0 <= d < SECTORS_PER_TRACK && PassedAt(from, to, sector, d)
  }

  predicate PassedAt(from: nat, to: nat, sector: nat, d: nat) {
    from <= to && d < (to - from) / ROTATION_TIME && Ahead(from / ROTATION_TIME, d, sector)
  }

  /** `d` sectors on from `from`, the head is over `to`. */
  predicate Ahead(from: nat, d: nat, to: nat) {
    (from + d) % SECTORS_PER_TRACK == to % SECTORS_PER_TRACK
  }

  class RotatingDisk {
    var lastSector: nat
    var bufferInit: nat
    ghost var busyUntil: nat   // when the last request completes

    /** The track buffer began to fill before the last request was over. */
    ghost predicate Valid()
      reads this
    {
      bufferInit <= busyUntil
    }

    constructor ()
      ensures Valid() && busyUntil == 0 && lastSector == 0
    {
      lastSector, bufferInit, busyUntil := 0, 0, 0;
    }

    /** Time to reach the track, and from there to the next sector boundary. */
    method TimeToSeek(newSector: nat, totalTicks: nat) returns (seek: nat, rotation: nat)
      ensures seek == SeekTime(lastSector, newSector)
      ensures newSector / 32 >= lastSector / 32 ==> seek == 500 * (newSector / 32 - lastSector / 32)
      ensures newSector / 32 <= lastSector / 32 ==> seek == 500 * (lastSector / 32 - newSector / 32)
      ensures rotation < ROTATION_TIME && (totalTicks + seek + rotation) % ROTATION_TIME == 0
      ensures totalTicks + seek + rotation == Boundary(totalTicks + seek)
    {
      var newTrack := newSector / SECTORS_PER_TRACK;
      var oldTrack := lastSector / SECTORS_PER_TRACK;
      seek := Diff(newTrack, oldTrack) * SEEK_TIME;
      var over := (totalTicks + seek) % ROTATION_TIME;
      rotation := 0;
      if over > 0 {
        rotation := ROTATION_TIME - over;
      }
    }

    /** Sectors from `from` forward to `to` on the rotating track. */
    static method ModuloDiff(to: nat, from: nat) returns (d: nat)
      ensures d < SECTORS_PER_TRACK && Ahead(from, d, to) && (from + d) % 32 == to % 32
      ensures forall d' :: 0 <= d' < SECTORS_PER_TRACK && Ahead(from, d', to) ==> d' == d
      ensures d == (to % 32 + 32 - from % 32) % 32
    {
      var toOffset := to % SECTORS_PER_TRACK;
      var fromOffset := from % SECTORS_PER_TRACK;
      d := (toOffset - fromOffset + SECTORS_PER_TRACK) % SECTORS_PER_TRACK;
    }

    /**
     Outside the track buffer, the transfer begins at the first instant after the seek at
     which the sector comes under the head.  A read is served from the buffer, in one transfer
     time, exactly if the sector has passed under the head since the buffer began to fill.
     */
    method ComputeLatency(newSector: nat, writing: bool, totalTicks: nat) returns (latency: nat, ghost fromBuffer: bool)
      requires bufferInit <= totalTicks
      ensures fromBuffer <==>
        !writing && SeekTime(lastSector, newSector) == 0 && Buffered(bufferInit, Boundary(totalTicks), newSector)
      ensures fromBuffer ==> latency == ROTATION_TIME
      ensures !fromBuffer ==>
        && latency >= SeekTime(lastSector, newSector) + ROTATION_TIME
        && Ready(totalTicks + latency - ROTATION_TIME, newSector)
        && forall t :: totalTicks + SeekTime(lastSector, newSector) <= t < totalTicks + latency - ROTATION_TIME ==>
             !Ready(t, newSector)
      ensures latency < SeekTime(lastSector, newSector) + (SECTORS_PER_TRACK + 1) * ROTATION_TIME
      ensures
        var tracks := newSector / 32 - lastSector / 32;
        var seek, first := 500 * (if tracks >= 0 then tracks else -tracks), totalTicks + latency - 500;
        && 500 <= latency < seek + 16500
        && (!fromBuffer ==>
             && totalTicks + seek <= first && first % 500 == 0 && first / 500 % 32 == newSector % 32
             && first < totalTicks + seek + 16000)
        && (fromBuffer <==>
             && !writing && tracks == 0
             && (Boundary(totalTicks) - bufferInit) / 500 > (newSector % 32 + 32 - bufferInit / 500 % 32) % 32)
    {
      var seek, rotation := TimeToSeek(newSector, totalTicks);
      var timeAfter := totalTicks + seek + rotation;
      fromBuffer := false;
      if !writing && seek == 0 {
        var behind := ModuloDiff(newSector, bufferInit / ROTATION_TIME);
        if (timeAfter - bufferInit) / ROTATION_TIME > behind {
          assert PassedAt(bufferInit, timeAfter, newSector, behind);
          return ROTATION_TIME, true;
        }
      }
      var wait := ModuloDiff(newSector, timeAfter / ROTATION_TIME);
      FirstReady(totalTicks + seek, rotation, wait, newSector);
      latency := seek + (rotation + wait * ROTATION_TIME) + ROTATION_TIME;
    }

    /** `UpdateLast`. */
    method UpdateLast(newSector: nat, totalTicks: nat)
      modifies this`lastSector, this`bufferInit
      ensures lastSector == newSector
      ensures bufferInit ==
        if SeekTime(old(lastSector), newSector) == 0 then old(bufferInit)
        else Boundary(totalTicks + SeekTime(old(lastSector), newSector))
    {
      var seek, rotate := TimeToSeek(newSector, totalTicks);
      if seek != 0 {
        bufferInit := totalTicks + seek + rotate;
      }
      lastSector := newSector;
    }

    /** The timing of `ReadRequest` and `WriteRequest`, which come only when the last request is over. */
    method Request(newSector: nat, writing: bool, totalTicks: nat) returns (latency: nat)
      requires Valid() && busyUntil <= totalTicks
      modifies this
      ensures Valid() && busyUntil == totalTicks + latency && lastSector == newSector
      ensures ROTATION_TIME <= latency < SeekTime(old(lastSector), newSector) + (SECTORS_PER_TRACK + 1) * ROTATION_TIME
    {
      ghost var fromBuffer;
      latency, fromBuffer := ComputeLatency(newSector, writing, totalTicks);
      UpdateLast(newSector, totalTicks);
      busyUntil := totalTicks + latency;
    }
  }

  /**
   The next aligned instant from `t0` on, `wait` sectors later, is the first at which the sector is
   under the head.
   */
  lemma FirstReady(t0: nat, rotation: nat, wait: nat, sector: nat)
    requires rotation < ROTATION_TIME && (t0 + rotation) % ROTATION_TIME == 0 && wait < SECTORS_PER_TRACK
    requires ((t0 + rotation) / ROTATION_TIME + wait) % SECTORS_PER_TRACK == sector % SECTORS_PER_TRACK
    ensures Ready(t0 + rotation + wait * ROTATION_TIME, sector)
    ensures forall t :: t0 <= t < t0 + rotation + wait * ROTATION_TIME ==> !Ready(t, sector)
  {
    var k := (t0 + rotation) / ROTATION_TIME;
    assert t0 + rotation + wait * ROTATION_TIME == (k + wait) * ROTATION_TIME;
    forall t | t0 <= t < t0 + rotation + wait * ROTATION_TIME
      ensures !Ready(t, sector)
    {
      if t % ROTATION_TIME == 0 {
        var j := t / ROTATION_TIME;
        assert k <= j < k + wait;
        DifferentSector(k, wait, j - k, sector);
      }
    }
  }

  lemma DifferentSector(k: nat, wait: nat, d: nat, sector: nat)
    requires d < wait < SECTORS_PER_TRACK && (k + wait) % SECTORS_PER_TRACK == sector % SECTORS_PER_TRACK
    ensures (k + d) % SECTORS_PER_TRACK != sector % SECTORS_PER_TRACK
  {
  }
}
