/** Runs of bget() and brelse() of kernel/bio.c: whether a buffer that is in use can be
    recycled for another block. */
module CacheRuns {
  import opened Common
  import opened Blocks
  import opened BufferCache

  /** The cache as far as references go; `users` counts the references that are out. */
  datatype Refs = Refs(buf: seq<Buf>, ring: seq<nat>, users: seq<int>)

  ghost predicate Sound(s: Refs, pins: seq<int>)
  {
    && Links(s.buf, s.ring) && Complete(s.ring) && Unique(s.buf) && Counted(s.buf, s.users, pins)
    && (forall i :: 0 <= i < NBUF ==> 0 <= s.users[i] < UINT - 1)
  }

  /** bget() of block b of the disk gives buffer i. */
  ghost predicate Gets(s: Refs, b: nat, i: nat, t: Refs)
  {
    && i < NBUF == |s.users| && |s.buf| == NBUF + 1
    && t.ring == s.ring && t.users == s.users[i := s.users[i] + 1]
    && if Cached(s.buf, ROOTDEV, b) then
         Caches(s.buf, i, ROOTDEV, b) && t.buf == s.buf[i := Referenced(s.buf[i])]
       else
         LeastRecent(s.buf, s.ring, i) && t.buf == s.buf[i := Recycled(s.buf[i], ROOTDEV, b)]
  }

  /** brelse() of a buffer by one who holds it. */
  ghost predicate Drops(s: Refs, i: nat, t: Refs)
  {
    && i < NBUF == |s.users| && |s.buf| == NBUF + 1 == |t.buf| && s.users[i] > 0
    && t.users == s.users[i := s.users[i] - 1] && SamePayload(t.buf, s.buf[i := Dereferenced(s.buf[i])])
    && t.ring == if t.buf[i].refcnt == 0 then [i] + Removed(s.ring, i) else s.ring
  }

  datatype Act = Get(b: nat, i: nat) | Drop(i: nat)

  /** A step, of a disk of n blocks and with fewer references than the count can hold. */
  ghost predicate StepOf(s: Refs, a: Act, t: Refs, pins: seq<int>, n: nat)
  {
    Sound(t, pins) && if a.Get? then a.b < n && Gets(s, a.b, a.i, t) else Drops(s, a.i, t)
  }

  ghost predicate Run(states: seq<Refs>, acts: seq<Act>, pins: seq<int>, n: nat)
  {
    |states| == |acts| + 1 && forall k :: 0 <= k < |acts| ==> StepOf(states[k], acts[k], states[k + 1], pins, n)
  }

  ghost predicate Reaches(s: Refs, t: Refs, pins: seq<int>, n: nat)
  {
    exists states, acts :: Run(states, acts, pins, n) && states[0] == s && states[|acts|] == t
  }

  /** The next bget() may give a new block the buffer that someone holds. */
  ghost predicate Steals(s: Refs, n: nat)
  {
    exists b: nat, i: nat, t :: b < n && Gets(s, b, i, t) && !Cached(s.buf, ROOTDEV, b) && s.users[i] > 0
  }

  lemma ReachesSelf(s: Refs, pins: seq<int>, n: nat)
    ensures Reaches(s, s, pins, n)
  {
    assert Run([s], [], pins, n);
  }

  lemma ReachesOn(s: Refs, t: Refs, a: Act, u: Refs, pins: seq<int>, n: nat)
    requires Reaches(s, t, pins, n) && StepOf(t, a, u, pins, n)
    ensures Reaches(s, u, pins, n)
  {
    hide StepOf;
    var states, acts :| Run(states, acts, pins, n) && states[0] == s && states[|acts|] == t;
    var states', acts' := states + [u], acts + [a];
    forall k | 0 <= k < |acts'| ensures StepOf(states'[k], acts'[k], states'[k + 1], pins, n) {
      if k < |acts| { assert StepOf(states[k], acts[k], states[k + 1], pins, n); }
    }
    assert Run(states', acts', pins, n) && states'[|acts'|] == u;
  }

  // -------------------------------------------------------------- with every pin real

  /** Counts are exact as long as no pin was given back that was not taken. */
  lemma NoSteal(s: Refs, pins: seq<int>, n: nat)
    requires Sound(s, pins) && forall i :: 0 <= i < NBUF ==> 0 <= pins[i] <= 1
    ensures !Steals(s, n)
  {
    hide Links, Complete, Unique, Cached;
  }

  lemma {:induction false} RunSound(states: seq<Refs>, acts: seq<Act>, pins: seq<int>, n: nat, k: nat)
    requires Run(states, acts, pins, n) && k < |states| && Sound(states[0], pins)
    ensures Sound(states[k], pins)
  {
    hide Sound;
    if k > 0 { assert StepOf(states[k - 1], acts[k - 1], states[k], pins, n); }
  }

  lemma NeverSteals(s: Refs, t: Refs, pins: seq<int>, n: nat)
    requires Sound(s, pins) && (forall i :: 0 <= i < NBUF ==> 0 <= pins[i] <= 1) && Reaches(s, t, pins, n)
    ensures !Steals(t, n)
  {
    var states, acts :| Run(states, acts, pins, n) && states[0] == s && states[|acts|] == t;
    RunSound(states, acts, pins, n, |acts|);
    NoSteal(t, pins, n);
  }

  // ------------------------------------------------------------ with a pin overdrawn

  ghost function UnusedOf(buf: seq<Buf>): (s: set<nat>) { set i: nat | i < NBUF && Unused(buf, i) }

  ghost function NumbersOf(buf: seq<Buf>, k: nat): (s: set<nat>)
    requires k <= |buf|
  {
    set i | 0 <= i < k :: buf[i].blockno
  }

  lemma {:induction false} NumbersFew(buf: seq<Buf>, k: nat)
    requires k <= |buf|
    ensures |NumbersOf(buf, k)| <= k
  {
    if k > 0 {
      NumbersFew(buf, k - 1);
      assert NumbersOf(buf, k) == NumbersOf(buf, k - 1) + {buf[k - 1].blockno};
    }
  }

  ghost function Below(n: nat): (s: set<nat>)
    ensures |s| == n && forall x: nat :: x in s <==> x < n
  {
    if n == 0 then {} else Below(n - 1) + {n - 1}
  }

  /** Some block is not cached. */
  lemma Uncached(buf: seq<Buf>, n: nat) returns (b: nat)
    requires |buf| == NBUF + 1 && n > NBUF
    ensures b < n && !Cached(buf, ROOTDEV, b)
  {
    NumbersFew(buf, NBUF);
    if Below(n) <= NumbersOf(buf, NBUF) {
      SubsetSize(Below(n), NumbersOf(buf, NBUF));
      assert false;
    }
    b :| b in Below(n) && b !in NumbersOf(buf, NBUF);
    forall i ensures !Caches(buf, i, ROOTDEV, b) {
      assert 0 <= i < NBUF ==> buf[i].blockno in NumbersOf(buf, NBUF);
    }
  }

  /** Of the unused buffers one is least recent. */
  lemma {:induction false} LeastFrom(buf: seq<Buf>, ring: seq<nat>, k: int) returns (i: nat)
    requires -1 <= k < |ring| && Distinct(ring) && (forall j :: k < j < |ring| ==> !Unused(buf, ring[j]))
      && exists j :: 0 <= j < |ring| && Unused(buf, ring[j])
    ensures LeastRecent(buf, ring, i)
    decreases k
  {
    if Unused(buf, ring[k]) {
      i := ring[k];
    } else {
      i := LeastFrom(buf, ring, k - 1);
    }
  }

  lemma Least(s: Refs, pins: seq<int>, u: nat) returns (i: nat)
    requires Sound(s, pins) && Unused(s.buf, u)
    ensures LeastRecent(s.buf, s.ring, i) && i < NBUF
  {
    assert u in s.ring;
    var j :| 0 <= j < |s.ring| && s.ring[j] == u;
    i := LeastFrom(s.buf, s.ring, |s.ring| - 1);
  }

  /** A step to buffer i keeps the cache sound. */
  lemma GetsSound(s: Refs, b: nat, i: nat, t: Refs, pins: seq<int>)
    requires Sound(s, pins) && Gets(s, b, i, t) && s.users[i] < UINT - 2
    ensures Sound(t, pins)
  {
    hide Links, Complete, Unique, Counted, Cached, LeastRecent;
    if Cached(s.buf, ROOTDEV, b) {
      ReferencedKeeps(s.buf, s.ring, s.users, pins, i);
    } else {
      LeastIsUnused(s.buf, s.ring, i);
      RecycledKeeps(s.buf, s.ring, i, ROOTDEV, b);
      RecycledCounted(s.buf, s.users, pins, i, ROOTDEV, b);
    }
  }

  /** A buffer that is held with a count of zero is recycled once enough other blocks are read. */
  lemma {:induction false} StolenSoon(s0: Refs, s: Refs, pins: seq<int>, n: nat, u: nat) returns (t: Refs)
    requires Sound(s, pins) && Reaches(s0, s, pins, n) && n > NBUF && (forall i :: 0 <= i < NBUF ==> s.users[i] <= 1)
    requires Unused(s.buf, u) && s.users[u] > 0
    ensures Reaches(s0, t, pins, n) && Steals(t, n)
    decreases |UnusedOf(s.buf)|
  {
    var b := Uncached(s.buf, n);
    var i := Least(s, pins, u);
    t := Refs(s.buf[i := Recycled(s.buf[i], ROOTDEV, b)], s.ring, s.users[i := s.users[i] + 1]);
    assert Gets(s, b, i, t);
    if s.users[i] > 0 {
      t := s;
    } else {
      GetsSound(s, b, i, t, pins);
      ReachesOn(s0, s, Get(b, i), t, pins, n);
      FewerUnused(s.buf, t.buf, i);
      t := StolenSoon(s0, t, pins, n, u);
    }
  }

  lemma FewerUnused(buf: seq<Buf>, buf': seq<Buf>, i: nat)
    requires |buf| == |buf'| == NBUF + 1 && Unused(buf, i) && buf' == buf[i := buf'[i]] && buf'[i].refcnt != 0
    ensures |UnusedOf(buf')| < |UnusedOf(buf)|
  {
    assert UnusedOf(buf') == UnusedOf(buf) - {i};
  }

  /** A buffer in use can be recycled exactly when some pin is overdrawn. */
  lemma StealsExactly(s: Refs, pins: seq<int>, n: nat)
    requires Sound(s, pins) && (forall i :: 0 <= i < NBUF ==> s.users[i] == 0 && -1 <= pins[i] <= 0) && n > NBUF
    requires forall i :: 0 <= i < NBUF && pins[i] == -1 ==> s.buf[i].dev == ROOTDEV && s.buf[i].blockno < n
    ensures (exists t :: Reaches(s, t, pins, n) && Steals(t, n)) <==> exists i :: 0 <= i < NBUF && pins[i] == -1
  {
    if u :| 0 <= u < NBUF && pins[u] == -1 {
      var b := s.buf[u].blockno;
      assert Caches(s.buf, u, ROOTDEV, b);
      var s1 := Refs(s.buf[u := Referenced(s.buf[u])], s.ring, s.users[u := 1]);
      assert Gets(s, b, u, s1);
      GetsSound(s, b, u, s1, pins);
      ReachesSelf(s, pins, n);
      ReachesOn(s, s, Get(b, u), s1, pins, n);
      assert s.buf[u].refcnt == UINT - 1 && Unused(s1.buf, u);
      var t := StolenSoon(s, s1, pins, n, u);
    } else {
      forall t | Reaches(s, t, pins, n) ensures !Steals(t, n) { NeverSteals(s, t, pins, n); }
    }
  }
}
