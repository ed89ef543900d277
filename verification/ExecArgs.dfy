/** The arguments exec() of kernel/exec.c pushes on the new stack: the strings from the top of
    the stack page down, then the array of pointers to them.

    The stack page is a sequence of bytes; `base` is its user address. */
module ExecArgs {
  import opened Blocks
  import opened Kalloc
  import opened PageBytes

  const MAXARG: nat := 32

  function Pointers(ps: seq<nat>): (s: Bytes)
    ensures |s| == 8 * |ps|
  {
    if ps == [] then [] else Pointers(ps[..|ps| - 1]) + Bytes8(ps[|ps| - 1])
  }

  lemma {:induction false} PointerAt(ps: seq<nat>, k: nat)
    requires k < |ps|
    ensures Pointers(ps)[8 * k..8 * k + 8] == Bytes8(ps[k])
    decreases |ps|
  {
    if k < |ps| - 1 {
      PointerAt(ps[..|ps| - 1], k);
      assert Pointers(ps)[8 * k..8 * k + 8] == Pointers(ps[..|ps| - 1])[8 * k..8 * k + 8];
    }
  }

  // ---------------------------------------------------------------- the layout

  /** A C string without its NUL. */
  predicate Text(s: Bytes) { forall k: nat :: k < |s| ==> s[k] != 0 }

  /** Where the stack pointer is after a string. */
  function Below(sp: int, n: nat): (r: int) { var x := sp - n; x - x % 16 }

  function SpAfter(sp: int, argv: seq<Bytes>): (r: int)
    decreases |argv|
  {
    if argv == [] then sp else Below(SpAfter(sp, argv[..|argv| - 1]), |argv[|argv| - 1]| + 1)
  }

  function FinalSp(top: nat, argv: seq<Bytes>): (r: int) { Below(SpAfter(top, argv), 8 * (|argv| + 1)) }

  /** exec accepts exactly the argument lists that fit the stack page, at most 32 of them. */
  predicate FitsStack(base: nat, argv: seq<Bytes>) { |argv| <= MAXARG && FinalSp(base + 4096, argv) >= base }

  function Up16(n: nat): (r: nat) { (n + 15) / 16 * 16 }

  /** The room the strings take, each with its NUL. */
  function StringRoom(argv: seq<Bytes>): (n: nat)
  {
    if argv == [] then 0 else StringRoom(argv[..|argv| - 1]) + Up16(|argv[|argv| - 1]| + 1)
  }

  lemma BelowIs(sp: int, n: nat)
    requires sp % 16 == 0
    ensures Below(sp, n) == sp - Up16(n) && Below(sp, n) % 16 == 0
  {}

  lemma {:induction false} SpAfterIs(sp: int, argv: seq<Bytes>)
    requires sp % 16 == 0
    ensures SpAfter(sp, argv) == sp - StringRoom(argv) && SpAfter(sp, argv) % 16 == 0
    decreases |argv|
  {
    hide Below, Up16;
    if argv != [] {
      var before := argv[..|argv| - 1];
      SpAfterIs(sp, before);
      BelowIs(SpAfter(sp, before), |argv[|argv| - 1]| + 1);
    }
  }

  /** exec() takes the arguments exactly when there are at most 32, and they fit one page with
      their pointers and the null pointer, everything in multiples of 16. */
  lemma FitsExactly(base: nat, argv: seq<Bytes>)
    requires base % 4096 == 0
    ensures FitsStack(base, argv) <==> |argv| <= 32 && StringRoom(argv) + Up16(8 * |argv| + 8) <= 4096
  {
    assert (base + 4096) % 16 == 0;
    hide Below, Up16, SpAfter, StringRoom;
    SpAfterIs(base + 4096, argv);
    BelowIs(SpAfter(base + 4096, argv), 8 * (|argv| + 1));
  }

  lemma {:induction false} SpFalls(sp: int, argv: seq<Bytes>, k: nat)
    requires k <= |argv|
    ensures SpAfter(sp, argv) <= SpAfter(sp, argv[..k])
    decreases |argv|
  {
    if k < |argv| {
      SpFalls(sp, argv[..|argv| - 1], k);
      assert argv[..|argv| - 1][..k] == argv[..k];
    } else {
      assert argv[..k] == argv;
    }
  }

  /** A string and its NUL at a user address in the page. */
  ghost predicate StringAt(page: Bytes, base: nat, p: nat, s: Bytes)
  {
    base <= p && p - base + |s| + 1 <= |page| && page[p - base..p - base + |s| + 1] == s + [0]
  }

  ghost predicate Strings(page: Bytes, base: nat, sp: nat, ptrs: seq<nat>, argv: seq<Bytes>)
  {
    |ptrs| == |argv| && forall k: nat ::
      k < |ptrs| ==> ptrs[k] >= sp && ptrs[k] % 16 == 0 && StringAt(page, base, ptrs[k], argv[k])
  }

  lemma StringsKept(page: Bytes, base: nat, sp: nat, ptrs: seq<nat>, argv: seq<Bytes>, at: nat, s: Bytes)
    requires Strings(page, base, sp, ptrs, argv) && base <= at && at + |s| <= sp && sp - base <= |page|
    ensures Strings(Splice(page, at - base, s), base, at, ptrs, argv)
  {
    forall k: nat | k < |ptrs| ensures ptrs[k] >= at && StringAt(Splice(page, at - base, s), base, ptrs[k], argv[k]) {
      assert StringAt(page, base, ptrs[k], argv[k]);
      SplicedOut(page, at - base, s, ptrs[k] - base, ptrs[k] - base + |argv[k]| + 1);
    }
  }

  /** What main() finds: argv at sp, each entry pointing at its string, a null pointer last. */
  ghost predicate ArgvAt(page: Bytes, base: nat, sp: nat, argv: seq<Bytes>)
  {
    && base <= sp && sp % 16 == 0 && sp - base + 8 * (|argv| + 1) <= |page|
    && Word8(Slice8(page, sp - base + 8 * |argv|)) == 0
    && forall k: nat :: k < |argv| ==> StringAt(page, base, Word8(Slice8(page, sp - base + 8 * k)), argv[k])
  }

  function Slice8(page: Bytes, at: nat): (s: Bytes)
    ensures |s| == 8
  {
    if at + 8 <= |page| then page[at..at + 8] else [0, 0, 0, 0, 0, 0, 0, 0]
  }

  lemma PointersRead(page: Bytes, at: nat, ps: seq<nat>, k: nat)
    requires at + 8 * |ps| <= |page| && page[at..at + 8 * |ps|] == Pointers(ps) && k < |ps| && ps[k] < U64
    ensures Word8(Slice8(page, at + 8 * k)) == ps[k]
  {
    hide Word8, Bytes8, Pointers;
    PointerAt(ps, k);
    WordOfBytes(ps[k]);
    SliceOfSlice(page, at, 8 * |ps|, 8 * k);
  }

  lemma SliceOfSlice(page: Bytes, at: nat, n: nat, off: nat)
    requires at + n <= |page| && off + 8 <= n
    ensures Slice8(page, at + off) == page[at..at + n][off..off + 8]
  {
    var a, b := page[at..at + n][off..off + 8], page[at + off..at + off + 8];
    forall k: nat | k < 8 ensures a[k] == b[k] {}
    assert a == b;
  }

  /** The string pushed next keeps those above it. */
  lemma Pushed(page: Bytes, base: nat, sp: nat, ptrs: seq<nat>, argv: seq<Bytes>, at: nat, s: Bytes)
    requires Strings(page, base, sp, ptrs, argv) && base <= at && at + |s| + 1 <= sp && sp - base <= |page|
      && at % 16 == 0
    ensures Strings(Splice(page, at - base, s + [0]), base, at, ptrs + [at], argv + [s])
  {
    StringsKept(page, base, sp, ptrs, argv, at, s + [0]);
    SplicedIn(page, at - base, s + [0]);
    hide Splice;
  }

  /** The pointers pushed last are what main() reads. */
  lemma PointersPushed(page: Bytes, base: nat, top: nat, ptrs: seq<nat>, argv: seq<Bytes>, sp: nat)
    requires Strings(page, base, top, ptrs, argv) && base <= sp && sp + 8 * (|argv| + 1) <= top && top - base <= |page|
    requires sp % 16 == 0 && base + |page| <= U64
    ensures ArgvAt(Splice(page, sp - base, Pointers(ptrs + [0])), base, sp, argv)
  {
    hide Splice, Pointers, Word8, StringAt;
    var all := ptrs + [0];
    var page' := Splice(page, sp - base, Pointers(all));
    StringsKept(page, base, top, ptrs, argv, sp, Pointers(all));
    SplicedIn(page, sp - base, Pointers(all));
    PointersRead(page', sp - base, all, |argv|);
    forall k: nat | k < |argv| ensures StringAt(page', base, Word8(Slice8(page', sp - base + 8 * k)), argv[k]) {
      assert StringAt(page', base, ptrs[k], argv[k]);
      StringWithin(page', base, ptrs[k], argv[k]);
      PointersRead(page', sp - base, all, k);
    }
  }

  lemma StringWithin(page: Bytes, base: nat, p: nat, s: Bytes)
    requires StringAt(page, base, p, s)
    ensures p < base + |page|
  {}

  lemma SpNext(sp: int, argv: seq<Bytes>, i: nat)
    requires i < |argv|
    ensures SpAfter(sp, argv[..i + 1]) == Below(SpAfter(sp, argv[..i]), |argv[i]| + 1)
    ensures argv[..i + 1] == argv[..i] + [argv[i]]
  {
    assert argv[..i + 1][..i] == argv[..i];
  }

  /** The push loop: it succeeds exactly on the arguments that fit, and main() finds them. The
      strings come from sys_exec, which takes none longer than a page. */
  method Push(base: nat, argv: seq<Bytes>, page0: Bytes) returns (ok: bool, page: Bytes, sp: nat)
    requires 4096 <= base && base + 4096 < U64 && |page0| == 4096 && forall k: nat :: k < |argv| ==> |argv[k]| < 4096
    ensures ok <==> FitsStack(base, argv)
    ensures ok ==> |page| == 4096 && sp == FinalSp(base + 4096, argv) && ArgvAt(page, base, sp, argv)
  {
    hide Splice, Strings, ArgvAt, Pointers, SpAfter;
    var i: nat, ptrs: seq<nat> := 0, [];
    page, sp := page0, base + 4096;
    StartStack(page, base, argv);
    while i < |argv|
      invariant i <= |argv| && i <= MAXARG && |page| == 4096 && base <= sp <= base + 4096
      invariant |ptrs| == i && sp == SpAfter(base + 4096, argv[..i]) && Strings(page, base, sp, ptrs, argv[..i])
    {
      if i >= MAXARG { return false, page, sp; }
      SpNext(base + 4096, argv, i);
      SpFalls(base + 4096, argv, i + 1);
      var next := sp - (|argv[i]| + 1);
      next := next - next % 16;
      if next < base { return false, page, sp; }
      Pushed(page, base, sp, ptrs, argv[..i], next, argv[i]);
      page := Splice(page, next - base, argv[i] + [0]);
      sp, ptrs, i := next, ptrs + [next], i + 1;
    }
    assert argv[..i] == argv;
    var last := sp - 8 * (|argv| + 1);
    last := last - last % 16;
    if last < base { return false, page, sp; }
    PointersPushed(page, base, sp, ptrs, argv, last);
    page := Splice(page, last - base, Pointers(ptrs + [0]));
    return true, page, last;
  }

  lemma StartStack(page: Bytes, base: nat, argv: seq<Bytes>)
    ensures argv[..0] == [] && SpAfter(base + 4096, []) == base + 4096 && Strings(page, base, base + 4096, [], [])
  {}

  /** The C string a pointer shows. */
  function CString(page: Bytes, at: nat): (s: Bytes)
    decreases |page| - at
  {
    if at >= |page| || page[at] == 0 then [] else [page[at]] + CString(page, at + 1)
  }

  lemma {:induction false} StringRead(page: Bytes, at: nat, s: Bytes)
    requires at + |s| + 1 <= |page| && page[at..at + |s| + 1] == s + [0] && Text(s)
    ensures CString(page, at) == s
    decreases |s|
  {
    assert page[at] == (s + [0])[0];
    if s != [] {
      assert page[at + 1..at + |s| + 1] == page[at..at + |s| + 1][1..] == s[1..] + [0];
      StringRead(page, at + 1, s[1..]);
    }
  }

  /** Read through the pointers, the stack gives back the arguments. */
  lemma ArgsRoundTrip(page: Bytes, base: nat, sp: nat, argv: seq<Bytes>, k: nat)
    requires ArgvAt(page, base, sp, argv) && k < |argv| && Text(argv[k])
    ensures var p := Word8(Slice8(page, sp - base + 8 * k)); p >= base && CString(page, p - base) == argv[k]
  {
    hide Word8;
    var p := Word8(Slice8(page, sp - base + 8 * k));
    assert StringAt(page, base, p, argv[k]);
    StringRead(page, p - base, argv[k]);
  }
}
