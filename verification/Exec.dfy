/** exec() of kernel/exec.c on a process's memory: a new image is built beside the old one
    and replaces it whole, or every page taken for it is given back.

    The file is its bytes, and what the pages it takes held before is not looked at. */
module Exec {
  import opened Kalloc
  import opened PageTable
  import opened Uvm
  import opened AddressSpace
  import opened Processes
  import opened PageBytes
  import opened ExecArgs
  import opened Blocks
  import opened Elf
  import Files

  /** The first n pages are memory a program can use. */
  ghost predicate AllUser(mem: Ram, t: Tree, n: nat)
  {
    Resident(mem, t) && forall v: nat :: v < n ==> Usable(Entry(mem, t, v))
  }

  lemma GrownAllUser(mem: Ram, t: Tree, n: nat, mem': Ram, t': Tree, us': seq<nat>)
    requires AllUser(mem, t, n) && NewEntries(mem, t, n, mem', t', us')
    ensures AllUser(mem', t', |us'|)
  {
    hide Entry, Pte, WithV, Usable;
    forall v: nat | v < |us'| ensures Usable(Entry(mem', t', v)) {
      if v >= n { FreshUsable(us'[v]); }
    }
  }

  /** walkaddr(). */
  method WalkAddr(m: Memory, root: nat, va: nat, ghost t: Tree) returns (pa: nat)
    requires m.Valid() && Table(m.mem, t) && Apart(t, m.free) && t.root == root
    modifies m
    ensures m.mem == old(m.mem) && m.free == old(m.free) && m.Valid() && Resident(m.mem, t)
    ensures pa == if va < MAXVA && Entry(m.mem, t, Vpn(va)) != 0
      && IsU(Entry(m.mem, t, Vpn(va))) then Pa(m.mem, t, Vpn(va)) else 0
  {
    hide Table, Apart, Threaded, NoDup, D0, D1, D2, Vpn, IsLeaf, IsV, PtePa, IsU;
    TableResident(m.mem, t);
    if va >= MAXVA {
      return 0;
    }
    var w;
    ghost var t';
    w, t' := Walk(m, root, va, false, t);
    NoEntry(m.mem, t, Vpn(va));
    if !w.Found? {
      return 0;
    }
    WalkedEntry(t, m.mem, m.free, t, m.mem, m.free, Vpn(va));
    var pte := m.mem[w.page][w.index];
    if !IsV(pte) || !IsU(pte) {
      return 0;
    }
    pa := PtePa(pte);
  }

  /** The new image so far. */
  ghost predicate Building(mem0: Ram, free0: seq<nat>, mem: Ram, free: seq<nat>, t: Tree, us: seq<nat>, root: nat,
      tf: nat, tr: nat, sz: nat)
  {
    && t.root == root && Space(mem, t, us, tf, tr) && Moved(mem0, free0, {}, mem, free, Used(t, us))
    && sz <= MAXVA && |us| == Pages(sz) && AllUser(mem, t, |us|) && |mem| <= RAM_PAGES
  }

  lemma BuildingParts(mem0: Ram, free0: seq<nat>, mem: Ram, free: seq<nat>, t: Tree, us: seq<nat>, root: nat, tf: nat,
      tr: nat, sz: nat)
    requires Building(mem0, free0, mem, free, t, us, root, tf, tr, sz)
    ensures Table(mem, t) && Apart(t, free) && t.root == root && Used(t, us) !! Elems(free)
      && Space(mem, t, us, tf, tr) && Resident(mem, t)
  {
    MovedApart(mem0, free0, {}, mem, free, Used(t, us));
    SpaceApart(mem, t, us, free, tf, tr);
  }

  /** A page of the program arrived. */
  lemma BuildingFilled(mem0: Ram, free0: seq<nat>, mem: Ram, free: seq<nat>, t: Tree, us: seq<nat>, root: nat,
      tf: nat, tr: nat, sz: nat, v: nat, data: Page)
    requires Building(mem0, free0, mem, free, t, us, root, tf, tr, sz) && v < |us|
    ensures us[v] in mem && us[v] !in free && Building(mem0, free0, mem[us[v] := data], free, t, us, root, tf, tr, sz)
  {
    hide Space, Used, Moved, Table, Pages, Entry;
    BuildingParts(mem0, free0, mem, free, t, us, root, tf, tr, sz);
    FilledSpace(mem, t, us, free, tf, tr, v, data);
    var mem' := mem[us[v] := data];
    MovedTrans(mem0, free0, {}, mem, free, Used(t, us), mem', free, Used(t, us));
    assert mem'.Keys == mem.Keys && |mem'| == |mem'.Keys|;
    SpaceResident(mem', t, us, tf, tr);
  }

  lemma SpaceNoDup(mem: Ram, t: Tree, us: seq<nat>, tf: nat, tr: nat)
    requires Space(mem, t, us, tf, tr)
    ensures NoDup(us)
  {}

  lemma SpaceResident(mem: Ram, t: Tree, us: seq<nat>, tf: nat, tr: nat)
    requires Space(mem, t, us, tf, tr)
    ensures Resident(mem, t)
  {}

  lemma MappedUser(mem: Ram, t: Tree, us: seq<nat>, tf: nat, tr: nat, v: nat)
    requires Space(mem, t, us, tf, tr) && AllUser(mem, t, |us|) && v < |us|
    ensures Resident(mem, t) && Entry(mem, t, v) != 0 && IsU(Entry(mem, t, v)) && Pa(mem, t, v) == us[v]
  {
    hide Entry, IsU;
    MapsAt(mem, t, us, v);
  }

  /** What user memory holds, from address 0 on. */
  ghost predicate Holds(mem: Ram, us: seq<nat>, img: Bytes)
  {
    && |img| == 4096 * |us|
    && forall v :: 0 <= v < |us| ==> us[v] in mem && BytesOf(mem[us[v]]) == img[4096 * v..4096 * v + 4096]
  }

  /** A page with the bytes s read in at its start. */
  function ReadIn(p: Page, s: Bytes): (q: Page)
    requires |s| <= 4096
  {
    WordsOf(Splice(BytesOf(p), 0, s))
  }

  lemma HoldsFill(mem: Ram, us: seq<nat>, img: Bytes, v: nat, s: Bytes)
    requires Holds(mem, us, img) && NoDup(us) && v < |us| && |s| <= 4096
    ensures Holds(mem[us[v] := ReadIn(mem[us[v]], s)], us, Splice(img, 4096 * v, s))
  {
    hide BytesOf, WordsOf;
    var p := Splice(BytesOf(mem[us[v]]), 0, s);
    var img' := Splice(img, 4096 * v, s);
    PageRound(p);
    assert p == img'[4096 * v..4096 * v + 4096];
    forall w | 0 <= w < |us| && w != v ensures img'[4096 * w..4096 * w + 4096] == img[4096 * w..4096 * w + 4096] {
      SplicedOut(img, 4096 * v, s, 4096 * w, 4096 * w + 4096);
    }
    hide Splice;
  }

  lemma ZeroBytes()
    ensures BytesOf(Filled(0)) == Zeroed(4096)
  {}

  lemma HoldsGrow(mem: Ram, us: seq<nat>, img: Bytes, mem': Ram, us': seq<nat>)
    requires Holds(mem, us, img) && us <= us' && ZerosFrom(mem', us', |us|)
      && forall q :: q in us ==> q in mem && q in mem' && mem'[q] == mem[q]
    ensures Holds(mem', us', img + Zeroed(4096 * (|us'| - |us|)))
  {
    hide BytesOf, Filled;
    ZeroBytes();
    var img' := img + Zeroed(4096 * (|us'| - |us|));
    forall v | 0 <= v < |us'| ensures us'[v] in mem' && BytesOf(mem'[us'[v]]) == img'[4096 * v..4096 * v + 4096] {
      if v < |us| {
        assert us[v] in us && us'[v] == us[v];
        assert img'[4096 * v..4096 * v + 4096] == img[4096 * v..4096 * v + 4096];
      } else {
        assert img'[4096 * v..4096 * v + 4096] == Zeroed(4096);
      }
    }
  }

  lemma HoldsKept(mem: Ram, mem': Ram, us: seq<nat>, img: Bytes)
    requires Holds(mem, us, img) && mem'.Keys == mem.Keys && forall q :: q in us && q in mem ==> mem'[q] == mem[q]
    ensures Holds(mem', us, img)
  {
    hide BytesOf;
    forall v | 0 <= v < |us| ensures us[v] in mem' && mem'[us[v]] == mem[us[v]] { assert us[v] in us; }
  }

  /** Every byte of the file part is on a mapped page. */
  lemma SegmentMapped(va: nat, i: nat, filesz: nat, sz: nat)
    requires i < filesz && va + filesz <= sz <= MAXVA
    ensures Vpn(va + i) < Pages(sz) && va + i < MAXVA
  {
    PagesIs(sz);
    PageOrder(Vpn(va + i), Pages(sz));
  }

  /** loadseg(): never panics on pages the image has; false exactly when the file ends before
      the segment does. */
  method LoadSeg(m: Memory, root: nat, va: nat, file: Bytes, off: nat, filesz: nat, ghost mem0: Ram,
      ghost free0: seq<nat>, ghost t: Tree, ghost us: seq<nat>, ghost tf: nat, ghost tr: nat, ghost sz: nat,
      ghost img: Bytes)
      returns (ok: bool)
    requires m.Valid() && Building(mem0, free0, m.mem, m.free, t, us, root, tf, tr, sz) && Aligned(va)
      && va + filesz <= sz <= |img| && Holds(m.mem, us, img)
    requires |file| < WORD_LIMIT && off < WORD_LIMIT
    modifies m
    ensures m.Valid() && Building(mem0, free0, m.mem, m.free, t, us, root, tf, tr, sz) && m.free == old(m.free)
    ensures ok <==> Whole(file, off, filesz)
    ensures ok ==> Holds(m.mem, us, Splice(img, va, Part(file, off, filesz)))
  {
    hide Building, Memory.Valid, NoDup, Aligned, Pages, Holds, Vpn, Part, Splice, Files.ReadAt;
    var i: nat := 0;
    PartNone(file, off);
    SpliceNone(img, va);
    while i < filesz
      invariant i <= filesz && (i == filesz || i % 4096 == 0)
      invariant m.Valid() && Building(mem0, free0, m.mem, m.free, t, us, root, tf, tr, sz) && m.free == old(m.free)
      invariant Whole(file, off, i) && Holds(m.mem, us, Splice(img, va, Part(file, off, i)))
    {
      var n := if filesz - i < 4096 then filesz - i else 4096;
      var s := Files.ReadAt(file, (off + i) % WORD_LIMIT, n);
      ReadPart(file, off, i, n);
      PageAt(va, i);
      LoadPage(m, root, va + i, s, mem0, free0, t, us, tf, tr, sz, Splice(img, va, Part(file, off, i)));
      if |s| != n {
        return false;
      }
      SpliceNext(img, va, Part(file, off, i), s);
      i := i + n;
    }
    ok := true;
  }

  lemma PartNone(file: Bytes, off: nat)
    ensures Part(file, off, 0) == []
  {}

  lemma SpliceNone(img: Bytes, at: nat)
    requires at <= |img|
    ensures Splice(img, at, []) == img
  {}

  lemma SpliceNext(img: Bytes, at: nat, s: Bytes, s': Bytes)
    requires at + |s| + |s'| <= |img|
    ensures Splice(Splice(img, at, s), at + |s|, s') == Splice(img, at, s + s')
  {}

  /** A read is complete exactly when the file goes that far. */
  lemma ReadPart(file: Bytes, off: nat, i: nat, n: nat)
    requires |file| < WORD_LIMIT && off < WORD_LIMIT && 0 < n && Whole(file, off, i)
    ensures var s := Files.ReadAt(file, (off + i) % WORD_LIMIT, n);
      && |s| <= n && (|s| == n <==> Whole(file, off, i + n))
      && (|s| == n ==> Part(file, off, i + n) == Part(file, off, i) + s)
  {}

  lemma PageAt(va: nat, i: nat)
    requires Aligned(va) && i % 4096 == 0
    ensures 4096 * Vpn(va + i) == va + i
  {}

  /** One turn of that loop. */
  method LoadPage(m: Memory, root: nat, va: nat, s: Bytes, ghost mem0: Ram, ghost free0: seq<nat>, ghost t: Tree,
      ghost us: seq<nat>, ghost tf: nat, ghost tr: nat, ghost sz: nat, ghost img: Bytes)
    requires m.Valid() && Building(mem0, free0, m.mem, m.free, t, us, root, tf, tr, sz) && va < sz
      && Holds(m.mem, us, img) && |s| <= 4096
    modifies m
    ensures m.Valid() && Building(mem0, free0, m.mem, m.free, t, us, root, tf, tr, sz) && m.free == old(m.free)
    ensures 4096 * Vpn(va) + |s| <= |img| && Holds(m.mem, us, Splice(img, 4096 * Vpn(va), s))
  {
    hide Table, Apart, Threaded, NoDup, Entry, Vpn, IsU, Holds, Building, ReadIn, Splice;
    LoadReady(mem0, free0, m.mem, m.free, t, us, root, tf, tr, sz, va);
    HoldsSize(m.mem, us, img);
    ghost var v := Vpn(va);
    BuildingFilled(mem0, free0, m.mem, m.free, t, us, root, tf, tr, sz, v, ReadIn(m.mem[us[v]], s));
    HoldsFill(m.mem, us, img, v, s);
    var pa := WalkAddr(m, root, va, t);
    assert pa == us[v];
    FillPage(m, pa, ReadIn(m.mem[pa], s));
  }

  lemma LoadReady(mem0: Ram, free0: seq<nat>, mem: Ram, free: seq<nat>, t: Tree, us: seq<nat>, root: nat, tf: nat,
      tr: nat, sz: nat, va: nat)
    requires Building(mem0, free0, mem, free, t, us, root, tf, tr, sz) && va < sz
    ensures Table(mem, t) && Apart(t, free) && t.root == root && NoDup(us) && Resident(mem, t) && va < MAXVA
    ensures var v := Vpn(va); v < |us| && Entry(mem, t, v) != 0 && IsU(Entry(mem, t, v)) && Pa(mem, t, v) == us[v]
  {
    BuildingParts(mem0, free0, mem, free, t, us, root, tf, tr, sz);
    SpaceNoDup(mem, t, us, tf, tr);
    hide Table, Apart, NoDup, Space, Used, Moved, Pages, Entry, Vpn, IsU;
    SegmentMapped(0, va, sz, sz);
    MappedUser(mem, t, us, tf, tr, Vpn(va));
  }

  lemma BuildingGrown(mem0: Ram, free0: seq<nat>, mem: Ram, free: seq<nat>, t: Tree, us: seq<nat>, root: nat, tf: nat,
      tr: nat, sz: nat, mem': Ram, free': seq<nat>, t': Tree, us': seq<nat>, ok: bool, sz': nat)
    requires Building(mem0, free0, mem, free, t, us, root, tf, tr, sz)
      && Moved(mem, free, Used(t, us), mem', free', Used(t', us'))
    requires Space(mem', t', us', tf, tr) && t'.root == root
      && (ok ==> sz' <= MAXVA && |us'| == Pages(sz') && NewEntries(mem, t, |us|, mem', t', us'))
    ensures ok ==> Building(mem0, free0, mem', free', t', us', root, tf, tr, sz')
    ensures Moved(mem0, free0, {}, mem', free', Used(t', us'))
  {
    hide Space, Used, Moved, Pages, Entry, AllUser, NewEntries;
    MovedTrans(mem0, free0, {}, mem, free, Used(t, us), mem', free', Used(t', us'));
    MovedApart(mem, free, Used(t, us), mem', free', Used(t', us'));
    assert |mem'| == |mem'.Keys| == |mem.Keys| == |mem|;
    if ok { GrownAllUser(mem, t, |us|, mem', t', us'); }
  }

  /** The n pages of the image and their tables came out of n0 free pages, of which some are
      left. t0 is the table they were hung in. */
  ghost predicate Paid(t0: Tree, n0: nat, t: Tree, n: nat, left: nat)
  {
    Paved(t0, 0, n, t) && left + Cost(t0, 0, n) == n0
  }

  lemma PaidNone(t0: Tree, n0: nat)
    ensures Paid(t0, n0, t0, 0, n0)
  {
    PavedNone(t0, 0);
  }

  /** What the next k pages take is what there is too little of, if n + k are too many. */
  lemma PaidNext(t0: Tree, n0: nat, t: Tree, n: nat, left: nat, k: nat)
    requires Paid(t0, n0, t, n, left)
    ensures Cost(t, n, k) <= left <==> Cost(t0, 0, n + k) <= n0
  {
    hide Paved, Cost;
    CostNext(t0, 0, n, t, k);
  }

  lemma PaidMore(t0: Tree, n0: nat, t: Tree, n: nat, left: nat, k: nat, t': Tree, left': nat)
    requires Paid(t0, n0, t, n, left) && Paved(t, n, k, t') && left' == left - Cost(t, n, k)
    ensures Paid(t0, n0, t', n + k, left')
  {
    hide Paved, Cost;
    CostNext(t0, 0, n, t, k);
    PavedNext(t0, 0, n, t, k, t');
  }

  lemma PagesForIs(sz: nat)
    requires sz <= MAXVA
    ensures Pages(sz) == PagesFor(sz)
  {}

  lemma MoreIsRest(sz: nat, newsz: nat)
    requires sz <= MAXVA && sz <= newsz
    ensures Pages(sz) + MorePages(sz, newsz) == PagesFor(newsz)
  {
    PagesForIs(sz);
  }

  /** What is left of an attempt that failed: a whole space, of the old size. */
  ghost predicate Abandoned(mem0: Ram, free0: seq<nat>, mem: Ram, free: seq<nat>, t: Tree, us: seq<nat>, root: nat,
      tf: nat, tr: nat, sz: nat)
  {
    && t.root == root && Space(mem, t, us, tf, tr) && Moved(mem0, free0, {}, mem, free, Used(t, us))
    && sz <= MAXVA && |us| == Pages(sz)
  }

  function Larger(a: nat, b: nat): (r: nat) { if b < a then a else b }

  lemma LargerIs(a: nat, b: nat)
    ensures Larger(a, b) >= a
  {}

  lemma BuildingSpace(mem0: Ram, free0: seq<nat>, mem: Ram, free: seq<nat>, t: Tree, us: seq<nat>, root: nat, tf: nat,
      tr: nat, sz: nat)
    requires Building(mem0, free0, mem, free, t, us, root, tf, tr, sz)
    ensures Used(t, us) !! Elems(free) && Space(mem, t, us, tf, tr) && t.root == root
  {
    hide Space, Used, Moved, AllUser, Elems;
    MovedApart(mem0, free0, {}, mem, free, Used(t, us));
  }

  /** uvmalloc() from sz to newsz on the image being built; the code takes a result of 0
      for failure. */
  method Extend(m: Memory, root: nat, sz: nat, newsz: nat, ghost mem0: Ram, ghost free0: seq<nat>, ghost t: Tree,
      ghost us: seq<nat>, ghost tf: nat, ghost tr: nat, ghost img: Bytes, ghost t0: Tree, ghost n0: nat)
      returns (ok: bool, sz': nat, ghost t': Tree, ghost us': seq<nat>)
    requires m.Valid() && Building(mem0, free0, m.mem, m.free, t, us, root, tf, tr, sz) && newsz < U64
      && Holds(m.mem, us, img) && Paid(t0, n0, t, |us|, |m.free|)
    modifies m
    ensures m.Valid() && Abandoned(mem0, free0, m.mem, m.free, t', us', root, tf, tr, sz')
    ensures sz' == if ok then Larger(sz, newsz) else sz
    ensures ok ==>
      Building(mem0, free0, m.mem, m.free, t', us', root, tf, tr, sz') && Paid(t0, n0, t', |us'|, |m.free|)
      && |us'| >= |us| && Holds(m.mem, us', img + Zeroed(4096 * (|us'| - |us|)))
    ensures ok <==> Larger(sz, newsz) > 0 && Cost(t0, 0, PagesFor(Larger(sz, newsz))) <= n0
  {
    hide Memory.Valid, Space, Used, Moved, Pages, NewEntries, Holds, Zeroed, Building, Abandoned, Paid, Cost, PagesFor,
      Elems, Larger;
    BuildingSpace(mem0, free0, m.mem, m.free, t, us, root, tf, tr, sz);
    BuildingSize(mem0, free0, m.mem, m.free, t, us, root, tf, tr, sz);
    assert Larger(sz, newsz) >= sz by { LargerIs(sz, newsz); }
    var grown, r;
    grown, r, t', us' := GrowHeld(m, root, sz, newsz, t, us, tf, tr, img, t0, n0);
    Extended(mem0, free0, old(m.mem), old(m.free), t, us, root, tf, tr, sz, m.mem, m.free, t', us', grown, r);
    ok := r != 0;
    sz' := if ok then r else sz;
  }

  method GrowHeld(m: Memory, root: nat, sz: nat, newsz: nat, ghost t: Tree, ghost us: seq<nat>, ghost tf: nat,
      ghost tr: nat, ghost img: Bytes, ghost t0: Tree, ghost n0: nat)
      returns (ok: bool, r: nat, ghost t': Tree, ghost us': seq<nat>)
    requires m.Valid() && |m.mem| <= RAM_PAGES && Space(m.mem, t, us, tf, tr) && Used(t, us) !! Elems(m.free)
      && t.root == root
    requires sz <= MAXVA && |us| == Pages(sz) && newsz < U64 && Holds(m.mem, us, img)
      && Paid(t0, n0, t, |us|, |m.free|)
    modifies m
    ensures m.Valid() && Space(m.mem, t', us', tf, tr) && t'.root == root
      && Moved(old(m.mem), old(m.free), Used(t, us), m.mem, m.free, Used(t', us'))
    ensures ok ==>
      r == Larger(sz, newsz) && r <= MAXVA && |us| <= |us'| == Pages(r)
      && NewEntries(old(m.mem), t, |us|, m.mem, t', us')
    ensures ok ==>
      Holds(m.mem, us', img + Zeroed(4096 * (|us'| - |us|))) && Paid(t0, n0, t', |us'|, |m.free|)
    ensures !ok ==> r == 0 && us' == us
    ensures ok <==> Cost(t0, 0, PagesFor(Larger(sz, newsz))) <= n0
  {
    hide Memory.Valid, Space, Used, Moved, Pages, NewEntries, ZerosFrom, Holds, Zeroed, Paid, Cost, Paved, MorePages,
      PagesFor, Elems;
    Affords(t0, n0, t, |us|, |m.free|, sz, newsz);
    ok, r, t', us' := GrowSpace(m, root, sz, newsz, t, us, tf, tr);
    if ok {
      HoldsGrow(old(m.mem), us, img, m.mem, us');
      PaidMore(t0, n0, t, |us|, |old(m.free)|, |us'| - |us|, t', |m.free|);
    }
  }

  lemma Affords(t0: Tree, n0: nat, t: Tree, n: nat, left: nat, sz: nat, newsz: nat)
    requires Paid(t0, n0, t, n, left) && sz <= MAXVA && n == Pages(sz)
    ensures newsz < sz || Cost(t, n, MorePages(sz, newsz)) <= left <==> Cost(t0, 0, PagesFor(Larger(sz, newsz))) <= n0
  {
    hide Cost, Pages, PagesFor, MorePages, Paved;
    if newsz < sz {
      PagesForIs(sz);
    } else {
      PaidNext(t0, n0, t, n, left, MorePages(sz, newsz));
      MoreIsRest(sz, newsz);
    }
  }

  lemma BuildingSize(mem0: Ram, free0: seq<nat>, mem: Ram, free: seq<nat>, t: Tree, us: seq<nat>, root: nat, tf: nat,
      tr: nat, sz: nat)
    requires Building(mem0, free0, mem, free, t, us, root, tf, tr, sz)
    ensures |mem| <= RAM_PAGES && sz <= MAXVA && |us| == Pages(sz)
  {}

  lemma Extended(mem0: Ram, free0: seq<nat>, mem: Ram, free: seq<nat>, t: Tree, us: seq<nat>, root: nat, tf: nat,
      tr: nat, sz: nat, mem': Ram, free': seq<nat>, t': Tree, us': seq<nat>, grown: bool, r: nat)
    requires Building(mem0, free0, mem, free, t, us, root, tf, tr, sz)
      && Moved(mem, free, Used(t, us), mem', free', Used(t', us'))
    requires Space(mem', t', us', tf, tr) && t'.root == root && (r != 0 ==> grown) && (!grown ==> us' == us)
    requires grown ==> r >= sz && r <= MAXVA && |us'| == Pages(r) && NewEntries(mem, t, |us|, mem', t', us')
    ensures r != 0 ==> Building(mem0, free0, mem', free', t', us', root, tf, tr, r)
    ensures Abandoned(mem0, free0, mem', free', t', us', root, tf, tr, if r != 0 then r else sz)
  {
    hide Space, Used, Moved, Pages, NewEntries, AllUser;
    BuildingGrown(mem0, free0, mem, free, t, us, root, tf, tr, sz, mem', free', t', us', grown, r);
  }

  /** A segment: checked, given memory, and read in. */
  method LoadSegment(m: Memory, root: nat, sz: nat, file: Bytes, h: Header, ghost mem0: Ram, ghost free0: seq<nat>,
      ghost t: Tree, ghost us: seq<nat>, ghost tf: nat, ghost tr: nat, ghost img: Bytes, ghost t0: Tree,
      ghost n0: nat)
      returns (ok: bool, sz': nat, ghost t': Tree, ghost us': seq<nat>)
    requires m.Valid() && Building(mem0, free0, m.mem, m.free, t, us, root, tf, tr, sz) && Holds(m.mem, us, img)
      && Paid(t0, n0, t, |us|, |m.free|)
    requires h.Load? && h.off < WORD_LIMIT && h.vaddr < U64 && h.memsz < U64 && |file| < WORD_LIMIT
    modifies m
    ensures m.Valid() && Abandoned(mem0, free0, m.mem, m.free, t', us', root, tf, tr, sz')
    ensures ok ==>
      Building(mem0, free0, m.mem, m.free, t', us', root, tf, tr, sz') && sz' == SizeAfter(sz, h)
      && Paid(t0, n0, t', |us'|, |m.free|)
    ensures ok <==> Good(file, sz, h) && Cost(t0, 0, PagesFor(SizeAfter(sz, h))) <= n0
    ensures ok ==> |img| == 4096 * PagesFor(sz) && Holds(m.mem, us', ImageAfter(file, img, sz, h))
  {
    hide Building, Abandoned, Memory.Valid, Holds, Splice, Zeroed, Pages, PagesFor, Paid, Cost, Whole, Part, ImageAfter;
    StillBuilding(mem0, free0, m.mem, m.free, t, us, root, tf, tr, sz);
    NoWrap(h.vaddr, h.memsz);
    sz', t', us' := sz, t, us;
    if h.memsz < h.filesz || Sum64(h.vaddr, h.memsz) < h.vaddr {
      return false, sz', t', us';
    }
    hide Sum64;
    ImageSize(mem0, free0, m.mem, m.free, t, us, root, tf, tr, sz, img);
    ok, sz', t', us' := Extend(m, root, sz, Sum64(h.vaddr, h.memsz), mem0, free0, t, us, tf, tr, img, t0, n0);
    if ok {
      if h.vaddr % 4096 == 0 {
        ghost var grown := img + Zeroed(4096 * (|us'| - |us|));
        ImageSize(mem0, free0, m.mem, m.free, t', us', root, tf, tr, sz', grown);
        InMemory(m, mem0, free0, t', us', root, tf, tr, sz', h.vaddr, h.filesz);
        ok := LoadSeg(m, root, h.vaddr, file, h.off, h.filesz % WORD_LIMIT, mem0, free0, t', us', tf, tr, sz', grown);
        StillBuilding(mem0, free0, m.mem, m.free, t', us', root, tf, tr, sz');
        if ok { ImageAfterIs(file, img, sz, h, |us|, |us'|); }
      } else {
        ok := false;
      }
    }
  }

  /** The segment fits memory, so its size is a 32-bit number. */
  lemma InMemory(m: Memory, mem0: Ram, free0: seq<nat>, t: Tree, us: seq<nat>, root: nat, tf: nat, tr: nat, sz: nat,
      va: nat, filesz: nat)
    requires m.Valid() && Building(mem0, free0, m.mem, m.free, t, us, root, tf, tr, sz) && va + filesz <= sz
    ensures filesz % WORD_LIMIT == filesz
  {
    hide Building, Memory.Valid, Pages;
    BuildingFits(m, mem0, free0, t, us, root, tf, tr, sz);
    PagesForIs(sz);
  }

  lemma ImageSize(mem0: Ram, free0: seq<nat>, mem: Ram, free: seq<nat>, t: Tree, us: seq<nat>, root: nat, tf: nat,
      tr: nat, sz: nat, img: Bytes)
    requires Building(mem0, free0, mem, free, t, us, root, tf, tr, sz) && Holds(mem, us, img)
    ensures |us| == PagesFor(sz) && |img| == 4096 * PagesFor(sz) && sz <= |img|
  {
    BuildingSize(mem0, free0, mem, free, t, us, root, tf, tr, sz);
    hide Building, Holds, Pages;
    HoldsSize(mem, us, img);
    PagesForIs(sz);
  }

  lemma ImageAfterIs(file: Bytes, img: Bytes, sz: nat, h: Header, n: nat, n': nat)
    requires h.Load? && Good(file, sz, h) && n == PagesFor(sz) && n' == PagesFor(SizeAfter(sz, h)) && n <= n'
      && |img| == 4096 * n
    ensures h.vaddr + h.filesz <= 4096 * n'
    ensures ImageAfter(file, img, sz, h) == Splice(img + Zeroed(4096 * (n' - n)), h.vaddr, Part(file, h.off, h.filesz))
  {
    hide Splice, Part, Zeroed;
  }

  /** One program header. */
  method LoadHeader(m: Memory, root: nat, sz: nat, file: Bytes, h: Header, ghost mem0: Ram, ghost free0: seq<nat>,
      ghost t: Tree, ghost us: seq<nat>, ghost tf: nat, ghost tr: nat, ghost img: Bytes, ghost t0: Tree,
      ghost n0: nat)
      returns (ok: bool, sz': nat, ghost t': Tree, ghost us': seq<nat>)
    requires m.Valid() && Building(mem0, free0, m.mem, m.free, t, us, root, tf, tr, sz) && Holds(m.mem, us, img)
      && Paid(t0, n0, t, |us|, |m.free|)
    requires (h.Load? ==> h.off < WORD_LIMIT && h.vaddr < U64 && h.memsz < U64) && |file| < WORD_LIMIT
    modifies m
    ensures m.Valid() && Abandoned(mem0, free0, m.mem, m.free, t', us', root, tf, tr, sz')
    ensures ok ==>
      Building(mem0, free0, m.mem, m.free, t', us', root, tf, tr, sz') && sz' == SizeAfter(sz, h)
      && Paid(t0, n0, t', |us'|, |m.free|)
    ensures ok <==> Good(file, sz, h) && Cost(t0, 0, PagesFor(SizeAfter(sz, h))) <= n0
    ensures ok ==> |img| == 4096 * PagesFor(sz) && Holds(m.mem, us', ImageAfter(file, img, sz, h))
  {
    hide Building, Abandoned, Memory.Valid, Holds, PagesFor, Paid, Cost, ImageAfter, Zeroed;
    if h.Load? {
      ok, sz', t', us' := LoadSegment(m, root, sz, file, h, mem0, free0, t, us, tf, tr, img, t0, n0);
    } else {
      StillBuilding(mem0, free0, m.mem, m.free, t, us, root, tf, tr, sz);
      ImageSize(mem0, free0, m.mem, m.free, t, us, root, tf, tr, sz, img);
      if h.Skipped? { SkippedSame(file, img, sz, h); }
      PaidFits(t0, n0, t, |us|, |m.free|);
      ok, sz', t', us' := h.Skipped?, sz, t, us;
    }
  }

  lemma PaidFits(t0: Tree, n0: nat, t: Tree, n: nat, left: nat)
    requires Paid(t0, n0, t, n, left)
    ensures Cost(t0, 0, n) <= n0
  {}

  lemma SkippedSame(file: Bytes, img: Bytes, sz: nat, h: Header)
    requires h.Skipped? && |img| == 4096 * PagesFor(sz)
    ensures ImageAfter(file, img, sz, h) == img
  {
    assert Zeroed(0) == [];
  }

  /** 64-bit addition. */
  function Sum64(a: nat, b: nat): (r: nat) { (a + b) % U64 }

  lemma NoWrap(a: nat, b: nat)
    requires a < U64 && b < U64
    ensures Sum64(a, b) < U64 && (Sum64(a, b) >= a ==> Sum64(a, b) == a + b)
  {}

  lemma ImageNone(file: Bytes, hs: seq<Header>)
    ensures SizeUpTo(hs, 0) == 0 && GoodUpTo(file, hs, 0) && Image(file, hs, 0) == []
  {}

  lemma ImageNext(file: Bytes, hs: seq<Header>, i: nat)
    requires i < |hs| && GoodUpTo(file, hs, i)
    ensures SizeUpTo(hs, i + 1) == SizeAfter(SizeUpTo(hs, i), hs[i])
    ensures GoodUpTo(file, hs, i + 1) <==> Good(file, SizeUpTo(hs, i), hs[i])
    ensures Good(file, SizeUpTo(hs, i), hs[i]) ==>
      Image(file, hs, i + 1) == ImageAfter(file, Image(file, hs, i), SizeUpTo(hs, i), hs[i])
  {
    hide ImageAfter, Good, SizeAfter, PagesFor;
  }

  lemma GoodPrefix(file: Bytes, hs: seq<Header>, i: nat, n: nat)
    requires i <= n <= |hs| && GoodUpTo(file, hs, n)
    ensures GoodUpTo(file, hs, i)
  {
    hide Good, SizeUpTo;
  }

  lemma StillBuilding(mem0: Ram, free0: seq<nat>, mem: Ram, free: seq<nat>, t: Tree, us: seq<nat>, root: nat, tf: nat,
      tr: nat, sz: nat)
    requires Building(mem0, free0, mem, free, t, us, root, tf, tr, sz)
    ensures Abandoned(mem0, free0, mem, free, t, us, root, tf, tr, sz)
  {}

  /** The headers all load in n0 free pages. */
  ghost predicate Loads(file: Bytes, hs: seq<Header>, n: nat, t0: Tree, n0: nat)
    requires n <= |hs|
  {
    GoodUpTo(file, hs, n) && Cost(t0, 0, PagesFor(SizeUpTo(hs, n))) <= n0
  }

  lemma LoadsPrefix(file: Bytes, hs: seq<Header>, i: nat, n: nat, t0: Tree, n0: nat)
    requires i <= n <= |hs| && Loads(file, hs, n, t0, n0)
    ensures Loads(file, hs, i, t0, n0)
  {
    hide Good, SizeUpTo, GoodUpTo, PagesFor, Cost;
    GoodPrefix(file, hs, i, n);
    SizesGrow(hs, i, n);
    CostMore(t0, 0, PagesFor(SizeUpTo(hs, i)), PagesFor(SizeUpTo(hs, n)));
  }

  lemma LoadsNone(file: Bytes, hs: seq<Header>, t0: Tree, n0: nat)
    ensures Loads(file, hs, 0, t0, n0)
  {
    assert PagesFor(0) == 0;
  }

  lemma LoadsNext(file: Bytes, hs: seq<Header>, i: nat, t0: Tree, n0: nat)
    requires i < |hs| && Loads(file, hs, i, t0, n0)
    ensures Loads(file, hs, i + 1, t0, n0) <==>
      Good(file, SizeUpTo(hs, i), hs[i]) && Cost(t0, 0, PagesFor(SizeAfter(SizeUpTo(hs, i), hs[i]))) <= n0
  {
    hide Good, PagesFor, Cost, SizeAfter, GoodUpTo, SizeUpTo;
    ImageNext(file, hs, i);
  }

  /** The loop over the program headers. */
  method LoadAll(m: Memory, root: nat, file: Bytes, hs: seq<Header>, ghost mem0: Ram, ghost free0: seq<nat>,
      ghost t: Tree, ghost tf: nat, ghost tr: nat)
      returns (ok: bool, sz: nat, ghost t': Tree, ghost us: seq<nat>)
    requires m.Valid() && Building(mem0, free0, m.mem, m.free, t, [], root, tf, tr, 0) && |file| < WORD_LIMIT
    requires forall i :: 0 <= i < |hs| && hs[i].Load? ==>
      hs[i].off < WORD_LIMIT && hs[i].vaddr < U64 && hs[i].memsz < U64
    modifies m
    ensures m.Valid() && Abandoned(mem0, free0, m.mem, m.free, t', us, root, tf, tr, sz)
    ensures ok <==> Loads(file, hs, |hs|, t, |old(m.free)|)
    ensures ok ==> GoodUpTo(file, hs, |hs|)
    ensures ok ==>
      Building(mem0, free0, m.mem, m.free, t', us, root, tf, tr, sz) && sz == SizeUpTo(hs, |hs|)
      && Holds(m.mem, us, Image(file, hs, |hs|)) && Paid(t, |old(m.free)|, t', |us|, |m.free|)
  {
    hide Building, Abandoned, Memory.Valid, SizeAfter, SizeUpTo, Holds, ImageAfter, Image, Good, GoodUpTo, Loads, Paid,
      Cost, PagesFor;
    StillBuilding(mem0, free0, m.mem, m.free, t, [], root, tf, tr, 0);
    HoldsNone(m.mem);
    ImageNone(file, hs);
    PaidNone(t, |m.free|);
    LoadsNone(file, hs, t, |m.free|);
    sz, t', us := 0, t, [];
    ghost var n0 := |m.free|;
    var i := 0;
    while i < |hs|
      invariant i <= |hs| && m.Valid() && Building(mem0, free0, m.mem, m.free, t', us, root, tf, tr, sz)
        && sz == SizeUpTo(hs, i)
      invariant GoodUpTo(file, hs, i) && Loads(file, hs, i, t, n0)
      invariant Holds(m.mem, us, Image(file, hs, i)) && Paid(t, n0, t', |us|, |m.free|)
    {
      LoadsNext(file, hs, i, t, n0);
      ImageNext(file, hs, i);
      ok, sz, t', us := LoadHeader(m, root, sz, file, hs[i], mem0, free0, t', us, tf, tr, Image(file, hs, i), t, n0);
      if !ok {
        NotLoads(file, hs, i + 1, t, n0);
        return;
      }
      i := i + 1;
    }
    StillBuilding(mem0, free0, m.mem, m.free, t', us, root, tf, tr, sz);
    ok := true;
  }

  lemma HoldsNone(mem: Ram)
    ensures Holds(mem, [], [])
  {}

  lemma NotLoads(file: Bytes, hs: seq<Header>, i: nat, t0: Tree, n0: nat)
    requires i <= |hs| && !Loads(file, hs, i, t0, n0)
    ensures !Loads(file, hs, |hs|, t0, n0)
  {
    hide Loads;
    if Loads(file, hs, |hs|, t0, n0) { LoadsPrefix(file, hs, i, |hs|, t0, n0); }
  }

  /** Mapped, but not for user code. */
  predicate Forbidden(pte: nat) { IsV(pte) && IsR(pte) && IsW(pte) && IsX(pte) && !IsU(pte) }

  /** The finished image: one guard page that user code cannot touch below the stack page
      at the top, everything else user memory. */
  ghost predicate Guarded(mem: Ram, t: Tree, n: nat)
  {
    && n >= 2 && Resident(mem, t)
    && forall v: nat :: v < n ==> if v == n - 2 then Forbidden(Entry(mem, t, v)) else Usable(Entry(mem, t, v))
  }

  ghost predicate Finished(mem0: Ram, free0: seq<nat>, mem: Ram, free: seq<nat>, t: Tree, us: seq<nat>, root: nat,
      tf: nat, tr: nat, sz: nat)
  {
    Abandoned(mem0, free0, mem, free, t, us, root, tf, tr, sz) && Guarded(mem, t, |us|) && sz == PageAddr(|us|)
  }

  lemma StackPages(sz: nat)
    requires sz <= MAXVA && Pages(sz) <= RAM_PAGES
    ensures var top := RoundUp(sz) + 2 * PGSIZE;
      && top < U64 && RoundUp(sz) <= MAXVA && Pages(RoundUp(sz)) == Pages(sz) && top == PageAddr(Pages(sz) + 2)
      && RoundUp(sz) < top && PagesFor(top) == Pages(sz) + 2
      && Pages(top) == Pages(sz) + 2 && Vpn(top - 2 * PGSIZE) == Pages(sz) && top - 2 * PGSIZE < MAXVA
      && Vpn(top - PGSIZE) == Pages(sz) + 1
  {
    PagesIs(sz);
    var k := Pages(sz);
    assert RoundUp(sz) == k * 4096;
    assert ((k + 2) * 4096 + 4095) / 4096 == k + 2;
    assert (k * 4096 + 4095) / 4096 == k;
  }

  lemma Rebased(mem0: Ram, free0: seq<nat>, mem: Ram, free: seq<nat>, t: Tree, us: seq<nat>, root: nat, tf: nat,
      tr: nat, sz: nat, base: nat)
    requires Building(mem0, free0, mem, free, t, us, root, tf, tr, sz) && base <= MAXVA && Pages(base) == Pages(sz)
    ensures Building(mem0, free0, mem, free, t, us, root, tf, tr, base)
  {}

  lemma BuildingFits(m: Memory, mem0: Ram, free0: seq<nat>, t: Tree, us: seq<nat>, root: nat, tf: nat, tr: nat, sz: nat)
    requires m.Valid() && Building(mem0, free0, m.mem, m.free, t, us, root, tf, tr, sz)
    ensures Pages(sz) <= RAM_PAGES && sz <= MAXVA && |us| == Pages(sz)
  {
    hide Space, Used, Moved, Pages, NoDup, Threaded, RoomToGrow;
    BuildingParts(mem0, free0, m.mem, m.free, t, us, root, tf, tr, sz);
    FreeInMem(m.mem, m.freelist, m.free);
    RoomFor(m.mem, t, us, m.free, tf, tr);
  }

  lemma GuardedClear(mem: Ram, t: Tree, n: nat, mem': Ram)
    requires AllUser(mem, t, n) && n >= 2 && Resident(mem', t)
    requires forall w: nat :: Entry(mem', t, w) == if w == n - 2 then ClearU(Entry(mem, t, w)) else Entry(mem, t, w)
    ensures Guarded(mem', t, n)
  {
    hide Entry, ClearU, IsU, IsV, IsR, IsW, IsX;
    ClearUBits(Entry(mem, t, n - 2));
    assert Usable(Entry(mem, t, n - 2));
  }

  /** The last page is the stack; storing the arguments there leaves the map alone. */
  lemma GuardedStore(mem: Ram, t: Tree, n: nat, mem': Ram)
    requires Guarded(mem, t, n) && Resident(mem, t) && Resident(mem', t) && SameMap(mem, t, mem', t)
    ensures Guarded(mem', t, n)
  {
    hide Entry, Usable, Forbidden;
    forall v: nat | v < n ensures Entry(mem', t, v) == Entry(mem, t, v) {}
  }

  /** Two pages at the next page boundary: an inaccessible guard and the stack. */
  method AddStack(m: Memory, root: nat, sz: nat, argv: seq<Bytes>, ghost mem0: Ram, ghost free0: seq<nat>,
      ghost t: Tree, ghost us: seq<nat>, ghost tf: nat, ghost tr: nat, ghost img: Bytes, ghost t0: Tree,
      ghost n0: nat)
      returns (ok: bool, sz': nat, sp: nat, ghost t': Tree, ghost us': seq<nat>, ghost stack: Bytes)
    requires m.Valid() && Building(mem0, free0, m.mem, m.free, t, us, root, tf, tr, sz) && Holds(m.mem, us, img)
      && Short(argv) && Paid(t0, n0, t, |us|, |m.free|)
    modifies m
    ensures m.Valid() && Abandoned(mem0, free0, m.mem, m.free, t', us', root, tf, tr, sz')
    ensures ok ==> Argued(|us| + 1, argv, sp, stack) && |us'| == |us| + 2
    ensures ok ==> Stacked(mem0, free0, m.mem, m.free, t', us', root, tf, tr, sz', img + Zeroed(4096) + stack)
    ensures ok <==> Cost(t0, 0, |us| + 2) <= n0 && FitsStack(PageAddr(|us| + 1), argv)
  {
    hide Building, Abandoned, Stacked, Memory.Valid, Pages, PageAddr, Holds, Zeroed, Argued, Short, Splice, Cost, Paid,
      FitsStack;
    sp, stack := 0, [];
    ok, sz', t', us' := AddTwo(m, root, sz, mem0, free0, t, us, tf, tr, img, t0, n0);
    if ok {
      HoldsSize(m.mem, us', img + Zeroed(8192));
      ok, sp, stack := FillStack(m, root, sz', argv, mem0, free0, t', us', tf, tr, img + Zeroed(8192));
      if ok {
        ArguedSize(|us'| - 1, argv, sp, stack);
        StackOnTop(img, stack);
      }
    }
  }

  lemma StackOnTop(img: Bytes, stack: Bytes)
    requires |stack| == 4096
    ensures |img + Zeroed(8192)| == |img| + 8192
    ensures Splice(img + Zeroed(8192), |img| + 4096, stack) == img + Zeroed(4096) + stack
  {
    var a, b := Splice(img + Zeroed(8192), |img| + 4096, stack), img + Zeroed(4096) + stack;
    assert |a| == |b| && forall k :: 0 <= k < |a| ==> a[k] == b[k];
  }

  lemma HoldsSize(mem: Ram, us: seq<nat>, img: Bytes)
    requires Holds(mem, us, img)
    ensures |img| == 4096 * |us| && forall v: nat :: v < |us| ==> us[v] in mem
  {}

  method AddTwo(m: Memory, root: nat, sz: nat, ghost mem0: Ram, ghost free0: seq<nat>, ghost t: Tree,
      ghost us: seq<nat>, ghost tf: nat, ghost tr: nat, ghost img: Bytes, ghost t0: Tree, ghost n0: nat)
      returns (ok: bool, sz': nat, ghost t': Tree, ghost us': seq<nat>)
    requires m.Valid() && Building(mem0, free0, m.mem, m.free, t, us, root, tf, tr, sz) && Holds(m.mem, us, img)
      && Paid(t0, n0, t, |us|, |m.free|)
    modifies m
    ensures m.Valid() && Abandoned(mem0, free0, m.mem, m.free, t', us', root, tf, tr, sz')
    ensures ok ==>
      Building(mem0, free0, m.mem, m.free, t', us', root, tf, tr, sz') && |us'| == |us| + 2 && sz' == PageAddr(|us'|)
    ensures ok ==> Holds(m.mem, us', img + Zeroed(8192))
    ensures ok <==> Cost(t0, 0, |us| + 2) <= n0
  {
    hide Building, Abandoned, Memory.Valid, Pages, RoundUp, PageAddr, Vpn, Holds, Zeroed, Cost, Paid, PagesFor;
    BuildingFits(m, mem0, free0, t, us, root, tf, tr, sz);
    StackPages(sz);
    var base := RoundUp(sz);
    Rebased(mem0, free0, m.mem, m.free, t, us, root, tf, tr, sz, base);
    ok, sz', t', us' := Extend(m, root, base, base + 2 * PGSIZE, mem0, free0, t, us, tf, tr, img, t0, n0);
    if ok { BuildingPages(mem0, free0, m.mem, m.free, t', us', root, tf, tr, sz'); }
  }

  method FillStack(m: Memory, root: nat, sz: nat, argv: seq<Bytes>, ghost mem0: Ram, ghost free0: seq<nat>,
      ghost t: Tree, ghost us: seq<nat>, ghost tf: nat, ghost tr: nat, ghost img: Bytes)
      returns (ok: bool, sp: nat, ghost stack: Bytes)
    requires m.Valid() && Building(mem0, free0, m.mem, m.free, t, us, root, tf, tr, sz) && 2 <= |us|
      && |img| == 4096 * |us| && sz == PageAddr(|us|) && Holds(m.mem, us, img)
    requires Short(argv)
    modifies m
    ensures m.Valid() && Abandoned(mem0, free0, m.mem, m.free, t, us, root, tf, tr, sz)
    ensures ok <==> FitsStack(PageAddr(|us| - 1), argv)
    ensures ok ==>
      Argued(|us| - 1, argv, sp, stack) && |stack| == 4096
      && Stacked(mem0, free0, m.mem, m.free, t, us, root, tf, tr, sz, Splice(img, |img| - 4096, stack))
  {
    hide Building, Abandoned, Finished, Memory.Valid, Guarded, Holds, WordsOf, Argued, Short, Pages, PageAddr, Splice,
      FitsStack;
    BuildingSize(mem0, free0, m.mem, m.free, t, us, root, tf, tr, sz);
    Guard(m, root, sz, mem0, free0, t, us, tf, tr, img);
    StillAbandoned(mem0, free0, m.mem, m.free, t, us, root, tf, tr, sz);
    var page;
    ok, page, sp := PushArgs(|us|, sz, argv);
    stack := page;
    if !ok {
      return;
    }
    ArguedSize(|us| - 1, argv, sp, stack);
    PutStack(m, root, sz, page, mem0, free0, t, us, tf, tr, img);
    StillAbandoned(mem0, free0, m.mem, m.free, t, us, root, tf, tr, sz);
  }

  /** ... with the program in its pages and the arguments in the stack page. */
  ghost predicate Stacked(mem0: Ram, free0: seq<nat>, mem: Ram, free: seq<nat>, t: Tree, us: seq<nat>, root: nat,
      tf: nat, tr: nat, sz: nat, img: Bytes)
  {
    Finished(mem0, free0, mem, free, t, us, root, tf, tr, sz) && Holds(mem, us, img)
  }

  lemma BuildingPages(mem0: Ram, free0: seq<nat>, mem: Ram, free: seq<nat>, t: Tree, us: seq<nat>, root: nat, tf: nat,
      tr: nat, sz: nat)
    requires Building(mem0, free0, mem, free, t, us, root, tf, tr, sz)
    ensures |us| == Pages(sz)
  {}

  lemma StillAbandoned(mem0: Ram, free0: seq<nat>, mem: Ram, free: seq<nat>, t: Tree, us: seq<nat>, root: nat,
      tf: nat, tr: nat, sz: nat)
    requires Finished(mem0, free0, mem, free, t, us, root, tf, tr, sz)
    ensures Abandoned(mem0, free0, mem, free, t, us, root, tf, tr, sz)
  {}

  /** No argument is longer than the page it came in. */
  predicate Short(argv: seq<Bytes>) { forall k: nat :: k < |argv| ==> |argv[k]| < 4096 }

  /** The arguments fit the stack page, number v of the image, and main() finds them at sp. */
  ghost predicate Argued(v: nat, argv: seq<Bytes>, sp: nat, stack: Bytes)
  {
    && |stack| == 4096 && FitsStack(PageAddr(v), argv)
    && sp == FinalSp(PageAddr(v) + 4096, argv) && ArgvAt(stack, PageAddr(v), sp, argv)
  }

  /** The arguments on the fresh stack page at the top of an image of n pages. */
  method PushArgs(ghost n: nat, sz: nat, argv: seq<Bytes>) returns (ok: bool, page: Bytes, sp: nat)
    requires 2 <= n && sz == PageAddr(n) <= MAXVA && Short(argv)
    ensures ok <==> FitsStack(PageAddr(n - 1), argv)
    ensures ok ==> Argued(n - 1, argv, sp, page)
  {
    hide FitsStack, ArgvAt, FinalSp, BytesOf;
    ok, page, sp := Push(sz - PGSIZE, argv, BytesOf(Filled(0)));
  }

  lemma ArguedSize(v: nat, argv: seq<Bytes>, sp: nat, stack: Bytes)
    requires Argued(v, argv, sp, stack)
    ensures |stack| == 4096
  {}

  /** uvmclear() of the page below the last. */
  method Guard(m: Memory, root: nat, sz: nat, ghost mem0: Ram, ghost free0: seq<nat>, ghost t: Tree,
      ghost us: seq<nat>, ghost tf: nat, ghost tr: nat, ghost img: Bytes)
    requires m.Valid() && Building(mem0, free0, m.mem, m.free, t, us, root, tf, tr, sz) && 2 <= |us|
      && sz == PageAddr(|us|) && Holds(m.mem, us, img)
    modifies m
    ensures m.Valid() && Finished(mem0, free0, m.mem, m.free, t, us, root, tf, tr, sz) && Holds(m.mem, us, img)
  {
    BuildingParts(mem0, free0, m.mem, m.free, t, us, root, tf, tr, sz);
    GuardAt(|us|);
    assert AllUser(m.mem, t, |us|) && sz <= MAXVA && |us| == Pages(sz)
      && Moved(mem0, free0, {}, m.mem, m.free, Used(t, us));
    hide Building, Memory.Valid, Pages, PageAddr, Vpn, Guarded, Space, Used, Moved, Table, Apart, AllUser, Entry,
      ClearU, Resident, Holds;
    ghost var mem1, free1 := m.mem, m.free;
    var ok := UvmClear(m, root, sz - 2 * PGSIZE, t, us, tf, tr);
    GuardedClear(mem1, t, |us|, m.mem);
    MovedKeys(mem1, free1, Used(t, us), m.mem, m.free, Used(t, us));
    HoldsKept(mem1, m.mem, us, img);
    MovedTrans(mem0, free0, {}, mem1, free1, Used(t, us), m.mem, m.free, Used(t, us));
  }

  lemma MovedKeys(mem: Ram, free: seq<nat>, u: set<nat>, mem': Ram, free': seq<nat>, u': set<nat>)
    requires Moved(mem, free, u, mem', free', u')
    ensures mem'.Keys == mem.Keys
  {}

  lemma GuardAt(n: nat)
    requires 2 <= n && PageAddr(n) <= MAXVA
    ensures PageAddr(n) >= 2 * PGSIZE && Vpn(PageAddr(n) - 2 * PGSIZE) == n - 2 && PageAddr(n) - 2 * PGSIZE < MAXVA
    ensures Vpn(PageAddr(n) - PGSIZE) == n - 1 && PageAddr(n) - PGSIZE < MAXVA
  {
    assert PageAddr(n) - 2 * PGSIZE == (n - 2) * 4096 && PageAddr(n) - PGSIZE == (n - 1) * 4096;
  }

  /** copyout() of the arguments to the last page. */
  method PutStack(m: Memory, root: nat, sz: nat, stack: Bytes, ghost mem0: Ram, ghost free0: seq<nat>, ghost t: Tree,
      ghost us: seq<nat>, ghost tf: nat, ghost tr: nat, ghost img: Bytes)
    requires m.Valid() && Finished(mem0, free0, m.mem, m.free, t, us, root, tf, tr, sz) && Holds(m.mem, us, img)
      && |stack| == 4096
    modifies m
    ensures m.Valid() && Finished(mem0, free0, m.mem, m.free, t, us, root, tf, tr, sz) && |img| >= 8192
    ensures Holds(m.mem, us, Splice(img, |img| - 4096, stack))
  {
    hide Threaded, NoDup, Finished, Table, Apart, Entry, IsU, Vpn, Holds, Splice, ReadIn;
    HoldsSize(m.mem, us, img);
    FinishedNoDup(mem0, free0, m.mem, m.free, t, us, root, tf, tr, sz);
    StackReady(mem0, free0, m.mem, m.free, t, us, root, tf, tr, sz);
    StackStored(mem0, free0, m.mem, m.free, t, us, root, tf, tr, sz, ReadIn(m.mem[us[|us| - 1]], stack));
    HoldsFill(m.mem, us, img, |us| - 1, stack);
    var pa := WalkAddr(m, root, sz - PGSIZE, t);
    FillPage(m, pa, ReadIn(m.mem[pa], stack));
  }

  lemma FinishedNoDup(mem0: Ram, free0: seq<nat>, mem: Ram, free: seq<nat>, t: Tree, us: seq<nat>, root: nat, tf: nat,
      tr: nat, sz: nat)
    requires Finished(mem0, free0, mem, free, t, us, root, tf, tr, sz)
    ensures NoDup(us)
  {
    SpaceNoDup(mem, t, us, tf, tr);
  }

  /** The last page is there, for user code. */
  lemma StackReady(mem0: Ram, free0: seq<nat>, mem: Ram, free: seq<nat>, t: Tree, us: seq<nat>, root: nat, tf: nat,
      tr: nat, sz: nat)
    requires Finished(mem0, free0, mem, free, t, us, root, tf, tr, sz)
    ensures Table(mem, t) && Apart(t, free) && t.root == root && |us| >= 2 && Resident(mem, t) && PGSIZE <= sz
      && sz - PGSIZE < MAXVA
    ensures var v := Vpn(sz - PGSIZE);
      v == |us| - 1 && Entry(mem, t, v) != 0 && IsU(Entry(mem, t, v)) && Pa(mem, t, v) == us[v]
  {
    hide Space, Used, Moved, Table, Apart, Entry, IsU, Vpn, PageAddr, Pages;
    MovedApart(mem0, free0, {}, mem, free, Used(t, us));
    SpaceApart(mem, t, us, free, tf, tr);
    GuardAt(|us|);
    StackIsUser(mem, t, us, tf, tr);
  }

  lemma StackStored(mem0: Ram, free0: seq<nat>, mem: Ram, free: seq<nat>, t: Tree, us: seq<nat>, root: nat, tf: nat,
      tr: nat, sz: nat, stack: Page)
    requires Finished(mem0, free0, mem, free, t, us, root, tf, tr, sz)
    ensures |us| >= 2 && us[|us| - 1] in mem && us[|us| - 1] !in free
    ensures Finished(mem0, free0, mem[us[|us| - 1] := stack], free, t, us, root, tf, tr, sz)
  {
    assert |us| >= 2;
    hide Space, Used, Moved, Pages, PageAddr, Guarded, Resident, SameMap;
    var v := |us| - 1;
    MovedApart(mem0, free0, {}, mem, free, Used(t, us));
    FilledSpace(mem, t, us, free, tf, tr, v, stack);
    var mem' := mem[us[v] := stack];
    MovedTrans(mem0, free0, {}, mem, free, Used(t, us), mem', free, Used(t, us));
    SpaceResident(mem', t, us, tf, tr);
    GuardedStore(mem, t, |us|, mem');
  }

  lemma StackIsUser(mem: Ram, t: Tree, us: seq<nat>, tf: nat, tr: nat)
    requires Space(mem, t, us, tf, tr) && Guarded(mem, t, |us|)
    ensures Resident(mem, t) && Entry(mem, t, |us| - 1) != 0 && IsU(Entry(mem, t, |us| - 1))
      && Pa(mem, t, |us| - 1) == us[|us| - 1]
  {
    hide Entry, IsU;
    MapsAt(mem, t, us, |us| - 1);
  }

  // ---------------------------------------------------------------------- exec

  /** The memory of the new program: its segments, a guard page and the stack. */
  function FullImage(file: Bytes, stack: Bytes): (r: Bytes)
    requires HeaderOk(file) && GoodUpTo(file, Headers(file), |Headers(file)|)
  {
    Image(file, Headers(file), |Headers(file)|) + Zeroed(4096) + stack
  }

  /** The pages of the program's segments. */
  function ProgramPages(file: Bytes): (n: nat)
    requires HeaderOk(file)
  {
    PagesFor(SizeUpTo(Headers(file), |Headers(file)|))
  }

  /** Every byte below the guard page is the file's, or zero. */
  lemma ProgramByte(mem: Ram, us: seq<nat>, file: Bytes, stack: Bytes, a: nat)
    requires HeaderOk(file) && GoodUpTo(file, Headers(file), |Headers(file)|) && a < 4096 * ProgramPages(file)
    requires Holds(mem, us, FullImage(file, stack)) && |us| >= ProgramPages(file)
    ensures us[a / 4096] in mem
    ensures BytesOf(mem[us[a / 4096]])[a % 4096] == ByteAt(file, Headers(file), |Headers(file)|, a)
  {
    hide HeaderOk, GoodUpTo, Headers, Image, BytesOf, SizeUpTo, PagesFor;
    var img, v := FullImage(file, stack), a / 4096;
    assert BytesOf(mem[us[v]]) == img[4096 * v..4096 * v + 4096];
    assert img[a] == Image(file, Headers(file), |Headers(file)|)[a];
    ImageBytes(file, Headers(file), |Headers(file)|, a);
  }

  /** exec() can run the file with the arguments if there are as many free pages: three for the
      top of the page table, the rest for the segments, the guard and the stack. */
  predicate Runnable(file: Bytes, argv: seq<Bytes>, free: nat)
  {
    && HeaderOk(file) && GoodUpTo(file, Headers(file), |Headers(file)|)
    && FitsStack(PageAddr(ProgramPages(file) + 1), argv) && 3 + PageCost(ProgramPages(file) + 2) <= free
  }

  lemma EmptyBuilding(mem0: Ram, free0: seq<nat>, mem: Ram, free: seq<nat>, t: Tree, root: nat, trapframe: nat,
      trampoline: nat)
    requires ProcSpace(mem, t, [], trapframe, trampoline) && t.root == root
      && Moved(mem0, free0, {}, mem, free, Used(t, [])) && |mem0| <= RAM_PAGES
    ensures Building(mem0, free0, mem, free, t, [], root, TrapframeEntry(trapframe), TrampolineEntry(trampoline), 0)
  {
    MovedApart(mem0, free0, {}, mem, free, Used(t, []));
    assert |mem| == |mem.Keys| == |mem0.Keys| == |mem0|;
    SpaceResident(mem, t, [], TrapframeEntry(trapframe), TrampolineEntry(trampoline));
  }

  /** The label `bad`: the image is given back. */
  method Discard(m: Memory, root: nat, sz: nat, ghost mem0: Ram, ghost free0: seq<nat>, ghost t: Tree,
      ghost us: seq<nat>, ghost trapframe: nat, ghost trampoline: nat)
    requires m.Valid() && Abandoned(mem0, free0, m.mem, m.free, t, us, root, TrapframeEntry(trapframe),
      TrampolineEntry(trampoline), sz)
    modifies m
    ensures m.Valid() && Moved(mem0, free0, {}, m.mem, m.free, {})
  {
    hide Memory.Valid, Space, Used, Moved, Pages, TrapframeEntry, TrampolineEntry;
    MovedApart(mem0, free0, {}, m.mem, m.free, Used(t, us));
    ghost var mem1, free1 := m.mem, m.free;
    ProcFreePagetable(m, root, sz, t, us, trapframe, trampoline);
    MovedTrans(mem0, free0, {}, mem1, free1, Used(t, us), m.mem, m.free, {});
  }

  /** The new image, or nothing taken. */
  method Build(m: Memory, file: Bytes, argv: seq<Bytes>, trapframe: nat, trampoline: nat)
      returns (ok: bool, root: nat, sz: nat, sp: nat, ghost t: Tree, ghost us: seq<nat>, ghost stack: Bytes)
    requires m.Valid() && Aligned(trapframe) && Aligned(trampoline) && |m.mem| <= RAM_PAGES
      && |file| < WORD_LIMIT && Short(argv)
    modifies m
    ensures m.Valid()
    ensures !ok ==> Moved(old(m.mem), old(m.free), {}, m.mem, m.free, {})
    ensures ok <==> Runnable(file, argv, |old(m.free)|)
    ensures ok ==> |us| == ProgramPages(file) + 2 && Argued(|us| - 1, argv, sp, stack)
    ensures ok ==>
      Stacked(old(m.mem), old(m.free), m.mem, m.free, t, us, root, TrapframeEntry(trapframe),
      TrampolineEntry(trampoline), sz, FullImage(file, stack))
  {
    hide Memory.Valid, Space, Used, Moved, Pages, TrapframeEntry, TrampolineEntry, Building, Abandoned, Stacked,
      Aligned, SizeUpTo, FullImage, Argued, Short, TopTables, HeaderOk, Headers, Loads, FitsStack, PagesFor, Cost,
      PageCost, PageAddr, Start, GoodUpTo;
    ok, root, sz, sp, t, us, stack := false, 0, 0, 0, Tree(0, map[], map[]), [], [];
    NotMoved(m.mem, m.free);
    if !HeaderOk(file) {
      return;
    }
    FreePages(m);
    root, t := ProcPagetable(m, trapframe, trampoline);
    if root == 0 {
      return;
    }
    EmptyBuilding(old(m.mem), old(m.free), m.mem, m.free, t, root, trapframe, trampoline);
    RunnableIs(file, argv, |old(m.free)|, t);
    ok, sz, sp, t, us, stack := Fill(m, root, file, argv, old(m.mem), old(m.free), t,
      TrapframeEntry(trapframe), TrampolineEntry(trampoline));
    if !ok {
      Discard(m, root, sz, old(m.mem), old(m.free), t, us, trapframe, trampoline);
    }
  }

  lemma FreePages(m: Memory)
    requires m.Valid() && |m.mem| <= RAM_PAGES
    ensures |m.free| <= RAM_PAGES
  {
    FreeInMem(m.mem, m.freelist, m.free);
    MemoryBounds(m.mem, [], m.free);
  }

  lemma RunnableIs(file: Bytes, argv: seq<Bytes>, free: nat, t: Tree)
    requires HeaderOk(file) && TopTables(t) && 3 <= free <= RAM_PAGES
    ensures Runnable(file, argv, free) <==>
      && GoodUpTo(file, Headers(file), |Headers(file)|) && FitsStack(PageAddr(ProgramPages(file) + 1), argv)
      && Cost(t, 0, ProgramPages(file) + 2) <= free - 3
  {
    hide HeaderOk, Headers, TopTables, GoodUpTo, FitsStack, PageAddr, ProgramPages, Cost;
    var n := ProgramPages(file) + 2;
    if n <= 2 * RAM_PAGES { FreshCost(t, n); }
  }

  method Fill(m: Memory, root: nat, file: Bytes, argv: seq<Bytes>, ghost mem0: Ram, ghost free0: seq<nat>,
      ghost t: Tree, ghost tf: nat, ghost tr: nat)
      returns (ok: bool, sz: nat, sp: nat, ghost t': Tree, ghost us: seq<nat>, ghost stack: Bytes)
    requires m.Valid() && Building(mem0, free0, m.mem, m.free, t, [], root, tf, tr, 0) && HeaderOk(file)
      && |file| < WORD_LIMIT && Short(argv)
    modifies m
    ensures m.Valid() && Abandoned(mem0, free0, m.mem, m.free, t', us, root, tf, tr, sz)
    ensures ok <==>
      GoodUpTo(file, Headers(file), |Headers(file)|) && FitsStack(PageAddr(ProgramPages(file) + 1), argv)
      && Cost(t, 0, ProgramPages(file) + 2) <= |old(m.free)|
    ensures ok ==> |us| == ProgramPages(file) + 2 && Argued(|us| - 1, argv, sp, stack)
    ensures ok ==> Stacked(mem0, free0, m.mem, m.free, t', us, root, tf, tr, sz, FullImage(file, stack))
  {
    hide Memory.Valid, Pages, Building, Abandoned, Stacked, SizeUpTo, Image, Holds, Short, Headers, HeaderOk, GoodUpTo,
      PagesFor, Cost, Paid, FitsStack, PageAddr, Argued, Zeroed;
    sp, stack := 0, [];
    ghost var n := ProgramPages(file);
    CostMore(t, 0, n, n + 2);
    ok, sz, t', us := LoadAll(m, root, file, Headers(file), mem0, free0, t, tf, tr);
    if ok {
      ImageSize(mem0, free0, m.mem, m.free, t', us, root, tf, tr, sz, Image(file, Headers(file), |Headers(file)|));
      ok, sz, sp, t', us, stack := AddStack(m, root, sz, argv, mem0, free0, t', us, tf, tr,
        Image(file, Headers(file), |Headers(file)|), t, |old(m.free)|);
    }
  }

  /** The new image in place of the old one: pages of both, then pages of the new one. */
  lemma Replaced(mem0: Ram, free0: seq<nat>, old': set<nat>, mem1: Ram, free1: seq<nat>, new': set<nat>, mem2: Ram,
      free2: seq<nat>)
    requires Moved(mem0, free0, {}, mem1, free1, new') && old' !! Elems(free0)
      && Moved(mem1, free1, old', mem2, free2, {})
    ensures Moved(mem0, free0, old', mem2, free2, new')
    ensures forall q :: q in new' && q in mem1 ==> mem2[q] == mem1[q]
  {
    MovedBeside(mem0, free0, {}, mem1, free1, new', old');
    assert {} + old' == old';
    MovedApart(mem0, free0, {}, mem1, free1, new');
    MovedBeside(mem1, free1, old', mem2, free2, {}, new');
    assert {} + new' == new' && new' + old' == old' + new';
    MovedTrans(mem0, free0, old', mem1, free1, old' + new', mem2, free2, new');
  }

  /** While the new image is built, the process's own is untouched. */
  lemma OldKept(mem0: Ram, free0: seq<nat>, mem1: Ram, free1: seq<nat>, u': set<nat>, t: Tree, us: seq<nat>, tf: nat,
      tr: nat)
    requires Moved(mem0, free0, {}, mem1, free1, u') && Space(mem0, t, us, tf, tr) && Used(t, us) !! Elems(free0)
    ensures Space(mem1, t, us, tf, tr) && Used(t, us) !! Elems(free1)
  {
    hide Space, Used, Moved;
    MovedBeside(mem0, free0, {}, mem1, free1, u', Used(t, us));
    MovedApart(mem0, free0, {}, mem1, free1, u');
    forall q | q in mem0 && IsTreePage(t, q) ensures mem1[q] == mem0[q] { UsedIs(t, us, q); }
    hide IsTreePage;
    SpaceFrame(mem0, mem1, t, us, tf, tr);
  }

  lemma NewKept(mem1: Ram, mem2: Ram, t: Tree, us: seq<nat>, tf: nat, tr: nat)
    requires Space(mem1, t, us, tf, tr) && Guarded(mem1, t, |us|) && mem2.Keys == mem1.Keys
    requires forall q :: q in Used(t, us) && q in mem1 ==> mem2[q] == mem1[q]
    ensures Space(mem2, t, us, tf, tr) && Guarded(mem2, t, |us|)
    ensures forall q :: q in us && q in mem1 ==> mem2[q] == mem1[q]
  {
    hide Space, Used, Guarded, SameMap;
    forall q | q in mem1 && IsTreePage(t, q) ensures mem2[q] == mem1[q] { UsedIs(t, us, q); }
    forall q | q in us && q in mem1 ensures mem2[q] == mem1[q] { UsedIs(t, us, q); }
    hide IsTreePage;
    SpaceFrame(mem1, mem2, t, us, tf, tr);
    SpaceResident(mem2, t, us, tf, tr);
    GuardedStore(mem1, t, |us|, mem2);
  }

  /** proc_freepagetable() of the old image under the new one. */
  method Replace(m: Memory, oldroot: nat, oldsz: nat, ghost root: nat, ghost sz: nat, ghost img: Bytes,
      ghost mem0: Ram, ghost free0: seq<nat>, ghost t0: Tree, ghost us0: seq<nat>, ghost t: Tree, ghost us: seq<nat>,
      ghost trapframe: nat, ghost trampoline: nat)
    requires m.Valid() && Stacked(mem0, free0, m.mem, m.free, t, us, root, TrapframeEntry(trapframe),
      TrampolineEntry(trampoline), sz, img)
    requires ProcSpace(mem0, t0, us0, trapframe, trampoline) && Used(t0, us0) !! Elems(free0) && t0.root == oldroot
      && oldsz <= MAXVA && |us0| == Pages(oldsz)
    modifies m
    ensures m.Valid() && Moved(mem0, free0, Used(t0, us0), m.mem, m.free, Used(t, us))
    ensures ProcSpace(m.mem, t, us, trapframe, trampoline) && Guarded(m.mem, t, |us|)
    ensures Holds(m.mem, us, img)
  {
    hide Memory.Valid, Space, Used, Moved, Pages, TrapframeEntry, TrampolineEntry, Guarded, PageAddr, Holds;
    OldKept(mem0, free0, m.mem, m.free, Used(t, us), t0, us0, TrapframeEntry(trapframe), TrampolineEntry(trampoline));
    ghost var mem1, free1 := m.mem, m.free;
    ProcFreePagetable(m, oldroot, oldsz, t0, us0, trapframe, trampoline);
    Replaced(mem0, free0, Used(t0, us0), mem1, free1, Used(t, us), m.mem, m.free);
    MovedApart(mem1, free1, Used(t0, us0), m.mem, m.free, {});
    NewKept(mem1, m.mem, t, us, TrapframeEntry(trapframe), TrampolineEntry(trampoline));
    HoldsKept(mem1, m.mem, us, img);
  }

  const EPC: nat := 3
  const SP: nat := 6
  const A1: nat := 15

  /** The registers exec() sets. */
  function Started(frame: Page, entry: nat, sp: nat): (r: Page)
    ensures forall w :: 0 <= w < ENTRIES && w !in {EPC, SP, A1} ==> r[w] == frame[w]
    ensures r[EPC] == entry && r[SP] == sp && r[A1] == sp
  {
    frame[A1 := sp][EPC := entry][SP := sp]
  }

  /** exec() by process i: its memory is the new program's, or nothing has changed and
      every page taken is free again. The result is the number of arguments, or -1. */
  method Run(k: Kernel, i: nat, file: Bytes, argv: seq<Bytes>) returns (r: int, ghost sp: nat, ghost stack: Bytes)
    requires k.Valid() && k.Live(i) && |file| < WORD_LIMIT && Short(argv)
    modifies k.m, k`proc, k`img
    ensures k.Valid() && k.Live(i) && |k.proc| == |old(k.proc)| && |k.img| == |old(k.img)|
    ensures r == if Runnable(file, argv, |old(k.m.free)|) then |argv| else -1
    ensures r < 0 ==>
      k.proc == old(k.proc) && k.img == old(k.img) && Moved(old(k.m.mem), old(k.m.free), {}, k.m.mem, k.m.free, {})
    ensures r >= 0 ==>
      k.proc == old(k.proc)[i := old(k.proc)[i].(pagetable := k.proc[i].pagetable, sz := k.proc[i].sz)]
      && k.img == old(k.img)[i := k.img[i]]
    ensures r >= 0 ==>
      Moved(old(k.m.mem), old(k.m.free), old(Owned(k.proc[i], k.img[i])), k.m.mem, k.m.free, Owned(k.proc[i], k.img[i]))
    ensures r >= 0 ==>
      k.proc[i].sz == PageAddr(ProgramPages(file) + 2)
      && Guarded(k.m.mem, k.img[i].t, |k.img[i].us|)
    ensures r >= 0 ==>
      Argued(ProgramPages(file) + 1, argv, sp, stack) && Holds(k.m.mem, k.img[i].us, FullImage(file, stack))
    ensures r >= 0 ==> k.proc[i].trapframe in k.m.mem && k.proc[i].trapframe in old(k.m.mem)
    ensures r >= 0 ==> k.m.mem[k.proc[i].trapframe] == Started(old(k.m.mem)[k.proc[i].trapframe], Start(file), sp)
  {
    hide Space, Used, Moved, Inv, Owned, SlotOk, Threaded, NoDup, Pages, TrapframeEntry, TrampolineEntry, Stacked,
      Runnable, ProgramPages, PageAddr, Aligned, Started, FullImage, Holds, Argued, Short, HeaderOk, Start, GoodUpTo,
      Headers;
    if Runnable(file, argv, |k.m.free|) { RunnableHeader(file, argv, |k.m.free|); }
    SlotFacts(k.m.mem, k.m.free, k.proc, k.img, k.kern, k.trampoline, i);
    SlotSize(k.m.mem, k.m.freelist, k.m.free, k.proc, k.img, k.kern, k.trampoline, i);
    assert Aligned(k.proc[i].trapframe);
    ghost var mem0, free0, s := k.m.mem, k.m.free, k.img[i];
    var ok, root, sz, sp1;
    ghost var t, us;
    ok, root, sz, sp1, t, us, stack := Build(k.m, file, argv, k.proc[i].trapframe, k.trampoline);
    sp := sp1;
    if !ok {
      InvKept(mem0, free0, k.proc, k.img, k.kern, k.trampoline, i, k.m.mem, k.m.free);
      return -1, sp, stack;
    }
    ArguedSize(|us| - 1, argv, sp, stack);
    Sizes2(mem0, free0, k.m.mem, k.m.free, t, us, root, TrapframeEntry(k.proc[i].trapframe),
      TrampolineEntry(k.trampoline), sz, FullImage(file, stack));
    Replace(k.m, k.proc[i].pagetable, k.proc[i].sz, root, sz, FullImage(file, stack), mem0, free0, s.t,
      s.us, t, us, k.proc[i].trapframe, k.trampoline);
    var p' := k.proc[i].(pagetable := root, sz := sz);
    Resettled(mem0, free0, k.proc, k.img, k.kern, k.trampoline, i, k.m.mem, k.m.free, p', Img(t, us));
    k.proc := k.proc[i := p'];
    k.img := k.img[i := Img(t, us)];
    ghost var mem2, free2 := k.m.mem, k.m.free;
    SlotFacts(k.m.mem, k.m.free, k.proc, k.img, k.kern, k.trampoline, i);
    Launch(k, i, Start(file), sp1, FullImage(file, stack));
    MovedTrans(mem0, free0, Owned(old(k.proc)[i], s), mem2, free2, Owned(k.proc[i], k.img[i]), k.m.mem, k.m.free,
      Owned(k.proc[i], k.img[i]));
    r := |argv|;
  }

  lemma RunnableHeader(file: Bytes, argv: seq<Bytes>, free: nat)
    requires Runnable(file, argv, free)
    ensures HeaderOk(file) && GoodUpTo(file, Headers(file), |Headers(file)|)
  {}

  /** The registers of process i, set for its first instruction. */
  method Launch(k: Kernel, i: nat, entry: nat, sp: nat, ghost image: Bytes)
    requires k.Valid() && k.Live(i) && Guarded(k.m.mem, k.img[i].t, |k.img[i].us|) && Holds(k.m.mem, k.img[i].us, image)
    modifies k.m`mem
    ensures k.Valid() && k.proc[i].trapframe in old(k.m.mem)
    ensures k.m.mem == old(k.m.mem)[k.proc[i].trapframe := Started(old(k.m.mem)[k.proc[i].trapframe], entry, sp)]
    ensures Moved(old(k.m.mem), k.m.free, Owned(k.proc[i], k.img[i]), k.m.mem, k.m.free, Owned(k.proc[i], k.img[i]))
    ensures Guarded(k.m.mem, k.img[i].t, |k.img[i].us|) && Holds(k.m.mem, k.img[i].us, image)
  {
    hide Space, Used, Moved, Inv, Owned, SlotOk, Threaded, NoDup, Started, TrapframeEntry, TrampolineEntry, Guarded,
      Holds;
    SlotFacts(k.m.mem, k.m.free, k.proc, k.img, k.kern, k.trampoline, i);
    var pa := k.proc[i].trapframe;
    var frame := Started(k.m.mem[pa], entry, sp);
    FrameStored(k.m.mem, k.m.free, k.proc, k.img, k.kern, k.trampoline, i, frame);
    FillPage(k.m, pa, frame);
    assert forall q :: q in Used(k.img[i].t, k.img[i].us) && q in old(k.m.mem) ==> k.m.mem[q] == old(k.m.mem)[q];
    NewKept(old(k.m.mem), k.m.mem, k.img[i].t, k.img[i].us, TrapframeEntry(pa), TrampolineEntry(k.trampoline));
    HoldsKept(old(k.m.mem), k.m.mem, k.img[i].us, image);
  }

  lemma InvKept(mem: Ram, free: seq<nat>, ps: seq<Proc>, ss: seq<Img>, kern: set<nat>, trampoline: nat, i: nat,
      mem': Ram, free': seq<nat>)
    requires Inv(mem, free, ps, ss, kern, trampoline) && i < |ps| && Moved(mem, free, {}, mem', free', {})
    ensures Inv(mem', free', ps, ss, kern, trampoline)
  {
    hide Inv, Owned, SlotOk, Moved, Elems;
    InvSizes(mem, free, ps, ss, kern, trampoline);
    InvSlot(mem, free, ps, ss, kern, trampoline, i);
    var o := Owned(ps[i], ss[i]);
    MovedBeside(mem, free, {}, mem', free', {}, o);
    assert {} + o == o;
    MovedApart(mem, free, {}, mem', free', {});
    SlotFrame(mem, mem', ps[i], ss[i], trampoline);
    InvStep(mem, free, ps, ss, kern, trampoline, i, mem', free', ps[i], ss[i]);
    assert ps[i := ps[i]] == ps && ss[i := ss[i]] == ss;
  }

  lemma Sizes2(mem0: Ram, free0: seq<nat>, mem: Ram, free: seq<nat>, t: Tree, us: seq<nat>, root: nat, tf: nat,
      tr: nat, sz: nat, img: Bytes)
    requires Stacked(mem0, free0, mem, free, t, us, root, tf, tr, sz, img)
    ensures sz == PageAddr(|us|) && sz <= MAXVA && |us| == Pages(sz) && t.root == root
  {}
}
