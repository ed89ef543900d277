/** The pipe of kernel/pipe.c: a ring of 512 bytes with 32-bit counters, any number of readers
    and writers, and sleeping on full and empty.

    Each method is what one process does between taking and giving up the pipe's lock: a call
    runs until it returns or sleeps, and starts again from the loop test when it was woken. A
    run is any interleaving of these. `sent` and `got` are all bytes ever put in and taken out. */
module Pipe {

  import opened Common
  import opened Blocks

  const SIZE: nat := 512

  /** How a turn ends. */
  datatype Turn = Returned(n: nat) | Failed | Slept(i: nat)

  lemma WrapExact(a: nat, b: nat)
    requires b <= a <= b + SIZE
    ensures a % U32 == b % U32 <==> a == b
    ensures a % U32 == (b % U32 + SIZE) % U32 <==> a == b + SIZE
  {}

  lemma WrapPlace(a: nat)
    ensures a % U32 % SIZE == a % SIZE && (a % U32 + 1) % U32 == (a + 1) % U32
  {}

  lemma PlacesDiffer(a: nat, b: nat)
    requires b < a < b + SIZE
    ensures a % SIZE != b % SIZE
  {}

  /** The ring holds what was sent and not yet got, each byte at its count modulo the size. */
  ghost predicate Holds(ring: seq<Byte>, sent: seq<Byte>, got: nat)
  {
    |ring| == SIZE && got <= |sent| <= got + SIZE && forall k: nat :: got <= k < |sent| ==> ring[k % SIZE] == sent[k]
  }

  lemma HoldsStore(ring: seq<Byte>, sent: seq<Byte>, got: nat, b: Byte)
    requires Holds(ring, sent, got) && |sent| < got + SIZE
    ensures Holds(ring[|sent| % SIZE := b], sent + [b], got)
  {
    forall k: nat | got <= k < |sent| ensures k % SIZE != |sent| % SIZE { PlacesDiffer(|sent|, k); }
  }

  lemma HoldsBounds(ring: seq<Byte>, sent: seq<Byte>, got: nat)
    requires Holds(ring, sent, got)
    ensures got <= |sent| <= got + SIZE
  {}

  lemma HoldsNext(ring: seq<Byte>, sent: seq<Byte>, got: nat)
    requires Holds(ring, sent, got) && got < |sent|
    ensures ring[got % SIZE] == sent[got] && Holds(ring, sent, got + 1)
  {}

  class PipeBuf {
    const data: array<Byte>
    var nread: nat
    var nwrite: nat
    var readopen: bool
    var writeopen: bool
    var readers: set<nat>  // asleep until bytes arrive
    var writers: set<nat>  // asleep until there is room
    ghost var sent: seq<Byte>
    ghost var got: seq<Byte>

    /** Bytes come out in the order they went in, and the counters agree modulo 2^32. */
    ghost predicate Valid()
      reads this, data
    {
      && data.Length == SIZE && got <= sent && Holds(data[..], sent, |got|)
      && nread == |got| % U32 && nwrite == |sent| % U32
    }

    /** Who sleeps has a reason to: no wakeup was lost. */
    ghost predicate Justified()
      reads this
    {
      && (readers != {} ==> |sent| == |got| && writeopen)
      && (writers != {} ==> |sent| == |got| + SIZE && readopen)
    }

    constructor ()
      ensures Valid() && Justified() && fresh(data) && sent == [] && got == [] && readopen && writeopen
        && readers == {} && writers == {}
    {
      data := new Byte[SIZE](i => 0);
      nread, nwrite, readopen, writeopen := 0, 0, true, true;
      readers, writers, sent, got := {}, {}, [], [];
    }

    /** pipewrite from byte i on. The user's memory is readable for |buf| bytes. The turn stores
        bytes in order until the call is done, the memory ends or the ring is full. Sleepers
        stay justified exactly when no writer gives up on a ring it filled over sleeping readers. */
    method Write(pid: nat, buf: seq<Byte>, n: nat, start: nat, killed: bool) returns (turn: Turn)
      requires Valid() && start <= n && start <= |buf|
      modifies this`nwrite, this`readers, this`writers, this`sent, data
      ensures Valid()
      ensures var most := if n < |buf| then n else |buf|;
        var room := start + SIZE - (|old(sent)| - |got|);
        var end := if most < room then most else room;
        && start <= end <= |buf| && sent == old(sent) + buf[start..end]
        && turn == if n <= room || |buf| < room then Returned(end) else if !readopen || killed then Failed
          else Slept(end)
      ensures readers == (if turn.Failed? then old(readers) else {})
        && writers == old(writers) + (if turn.Slept? then {pid} else {})
      ensures old(Justified()) ==>
        (Justified() <==> !(old(readers) != {} && (killed || !readopen) && n - start > SIZE && |buf| - start >= SIZE))
    {
      hide Holds;
      HoldsBounds(data[..], sent, |got|);
      var i := start;
      assert buf[start..start] == [];
      ghost var gap := |sent| - |got|;
      while i < n
        invariant Valid() && start <= i <= n && i <= |buf| && i - start + gap <= SIZE
        invariant sent == old(sent) + buf[start..i] && readers == old(readers) && writers == old(writers)
        invariant i > start ==> gap < SIZE
      {
        WrapExact(|sent|, |got|);
        if nwrite == (nread + SIZE) % U32 {
          if !readopen || killed { return Failed; }
          readers := {};
          writers := writers + {pid};
          return Slept(i);
        }
        if i == |buf| { break; }
        WrapPlace(|sent|);
        HoldsStore(data[..], sent, |got|, buf[i]);
        data[nwrite % SIZE] := buf[i];
        nwrite := (nwrite + 1) % U32;
        assert buf[start..i + 1] == buf[start..i] + [buf[i]];
        sent := sent + [buf[i]];
        i := i + 1;
      }
      readers := {};
      return Returned(i);
    }

    /** piperead. The user's memory is writable for `room` bytes. The turn takes out bytes in
        order; one that cannot be delivered is gone. */
    method Read(pid: nat, n: nat, room: nat, killed: bool) returns (turn: Turn, out: seq<Byte>)
      requires Valid()
      modifies this`nread, this`readers, this`writers, this`got
      ensures Valid() && (old(Justified()) ==> Justified())
      ensures readers == old(readers) + (if turn.Slept? then {pid} else {})
        && writers == if turn.Returned? then {} else old(writers)
      ensures var there := |sent| - |old(got)|;
        var most := if n < there then n else there;
        if there == 0 && writeopen then got == old(got) && out == [] && turn == (if killed then Failed else Slept(0))
        else if most <= room then
          out == sent[|old(got)|..|old(got)| + most] && got == old(got) + out && turn == Returned(most)
        else
          out == sent[|old(got)|..|old(got)| + room] && got == old(got) + out + [sent[|old(got)| + room]]
          && turn == Returned(room)
    {
      hide Holds;
      out := [];
      HoldsBounds(data[..], sent, |got|);
      WrapExact(|sent|, |got|);
      if nread == nwrite && writeopen {
        if killed { return Failed, out; }
        readers := readers + {pid};
        return Slept(0), out;
      }
      assert old(Justified()) ==> readers == {};
      var i;
      i, out := Drain(n, room);
      writers := {};
      turn := Returned(i);
    }

    /** The copy loop of piperead. */
    method Drain(n: nat, room: nat) returns (i: nat, out: seq<Byte>)
      requires Valid()
      modifies this`nread, this`got
      ensures Valid() && |old(got)| <= |sent|
      ensures var there := |sent| - |old(got)|;
        var most := if n < there then n else there;
        if most <= room then out == sent[|old(got)|..|old(got)| + most] && got == old(got) + out && i == most
        else
          out == sent[|old(got)|..|old(got)| + room] && got == old(got) + out + [sent[|old(got)| + room]]
          && i == room
    {
      hide Holds;
      out, i := [], 0;
      while i < n
        invariant Valid() && i <= n && |out| == i <= room && |old(got)| + i <= |sent|
        invariant out == sent[|old(got)|..|old(got)| + i] && got == old(got) + out
      {
        HoldsBounds(data[..], sent, |got|);
        WrapExact(|sent|, |got|);
        if nread == nwrite { break; }
        WrapPlace(|got|);
        HoldsNext(data[..], sent, |got|);
        var ch := data[nread % SIZE];
        nread := (nread + 1) % U32;
        got := got + [ch];
        if i == room { break; }
        out := out + [ch];
        i := i + 1;
      }
    }

    /** pipeclose of one end; the memory goes with the second, when no one sleeps on it. */
    method Close(writable: bool) returns (gone: bool)
      requires Valid()
      modifies this`readopen, this`writeopen, this`readers, this`writers
      ensures Valid() && gone == (!readopen && !writeopen)
      ensures old(Justified()) ==> Justified() && (gone ==> readers == {} && writers == {})
      ensures if writable then !writeopen && readopen == old(readopen) && readers == {} && writers == old(writers)
              else !readopen && writeopen == old(writeopen) && writers == {} && readers == old(readers)
    {
      if writable {
        writeopen := false;
        readers := {};
      } else {
        readopen := false;
        writers := {};
      }
      gone := !readopen && !writeopen;
    }

    /** kill wakes a sleeper. */
    method Wake(pid: nat)
      requires Valid()
      modifies this`readers, this`writers
      ensures Valid() && (old(Justified()) ==> Justified()) && readers == old(readers) - {pid}
        && writers == old(writers) - {pid}
    {
      readers, writers := readers - {pid}, writers - {pid};
    }

    /** A writer killed in its sleep fails at once, and leaves every sleeper justified. */
    method KillWriter(pid: nat, buf: seq<Byte>, n: nat, i: nat) returns (turn: Turn)
      requires Valid() && Justified() && pid in writers && i < n && i <= |buf|
      modifies this`nwrite, this`readers, this`writers, this`sent, data
      ensures Valid() && Justified() && turn == Failed && sent == old(sent)
      ensures readers == {} && writers == old(writers) - {pid}
    {
      hide Holds;
      HoldsBounds(data[..], sent, |got|);
      assert readers == {};
      Wake(pid);
      turn := Write(pid, buf, n, i, true);
    }
  }

  /** The exception is real: a reader sleeps on the new pipe, a killed process writes 513 bytes,
      and the reader is left asleep before a full ring. */
  method LostReader() returns (p: PipeBuf)
    ensures fresh(p) && fresh(p.data) && p.Valid() && !p.Justified() && p.readopen && p.writeopen
    ensures p.readers == {1} && p.got == [] && |p.sent| == SIZE
  {
    p := new PipeBuf();
    var turn, out := p.Read(1, 1, 1, false);
    var buf: seq<Byte> := seq(513, i => 7);
    turn := p.Write(2, buf, 513, 0, true);
  }
}
