/** copyout, copyin and copyinstr of kernel/vm.c: the kernel moves bytes to and from user memory
    page by page through the page table.

    `TableOf` reads off a page-table tree what walkaddr finds: the physical page of each page
    that user code may touch. A user address then shows one byte, and the copies are stated on
    that view. */
module UserCopy {

  import opened Common
  import opened Blocks
  import opened Kalloc
  import opened PageTable
  import opened Uvm
  import opened AddressSpace
  import opened PageBytes
  import Exec

  const MAXPAGE: nat := 0x400_0000  // MAXVA / PGSIZE

  type PageMap = map<nat, seq<Byte>>

  type UserTable = map<nat, nat>

  /** The pages of one address space are there, and distinct. */
  ghost predicate Translates(mem: PageMap, table: UserTable)
  {
    && (forall v :: v in table ==> v < MAXPAGE && table[v] != 0 && table[v] in mem && |mem[table[v]]| == PGSIZE)
    && (forall v, w :: v in table && w in table && v != w ==> table[v] != table[w])
  }

  predicate Visible(table: UserTable, va: nat) { va / PGSIZE in table }

  function At(mem: PageMap, table: UserTable, va: nat): (b: Byte)
    requires Translates(mem, table) && Visible(table, va)
  {
    mem[table[va / PGSIZE]][va % PGSIZE]
  }

  /** The bytes at lo on are s, every other user byte and every other page is as before. */
  ghost predicate Wrote(mem: PageMap, mem': PageMap, table: UserTable, lo: nat, s: seq<Byte>)
    requires Translates(mem, table) && Translates(mem', table)
  {
    && mem'.Keys == mem.Keys
    && (forall va: nat :: lo <= va < lo + |s| ==> Visible(table, va))
    && (forall va: nat ::
      Visible(table, va) ==> At(mem', table, va) == if lo <= va < lo + |s| then s[va - lo] else At(mem, table, va))
    && (forall p :: p in mem && p !in table.Values ==> mem'[p] == mem[p])
  }

  lemma SamePage(va: nat, n: nat, x: nat)
    requires va % PGSIZE + n <= PGSIZE
    ensures va <= x < va + n <==> x / PGSIZE == va / PGSIZE && va % PGSIZE <= x % PGSIZE < va % PGSIZE + n
    ensures va <= x < va + n ==> x % PGSIZE == va % PGSIZE + (x - va)
  {
    if va <= x < va + n {
      assert x == va / PGSIZE * PGSIZE + (va % PGSIZE + (x - va));
    }
  }

  /** One page's share of a copyout. */
  lemma WroteNext(mem0: PageMap, mem: PageMap, table: UserTable, lo: nat, s: seq<Byte>, t: seq<Byte>)
    requires Translates(mem0, table) && Translates(mem, table) && Wrote(mem0, mem, table, lo, s)
    requires Visible(table, lo + |s|) && (lo + |s|) % PGSIZE + |t| <= PGSIZE
    ensures var va := lo + |s|;
      var pa := table[va / PGSIZE];
      var mem' := mem[pa := Splice(mem[pa], va % PGSIZE, t)];
      Translates(mem', table) && Wrote(mem0, mem', table, lo, s + t)
  {
    var va := lo + |s|;
    var pa := table[va / PGSIZE];
    var mem' := mem[pa := Splice(mem[pa], va % PGSIZE, t)];
    forall x: nat | Visible(table, x) ensures At(mem', table, x)
      == if va <= x < va + |t| then t[x - va] else At(mem, table, x) {
      SamePage(va, |t|, x);
    }
    forall x: nat | lo <= x < lo + |s + t| ensures Visible(table, x) { SamePage(va, |t|, x); }
    hide Splice;
  }

  /** How many of n bytes from va on come before the first unmapped page. */
  function Reach(table: UserTable, va: nat, n: nat): (r: nat)
    ensures r <= n
    decreases n
  {
    if n == 0 || !Visible(table, va) then 0 else 1 + Reach(table, va + 1, n - 1)
  }

  ghost predicate AllVisible(table: UserTable, va: nat, n: nat)
  {
    forall x: nat :: va <= x < va + n ==> Visible(table, x)
  }

  lemma {:induction false} ReachAll(table: UserTable, va: nat, n: nat)
    ensures Reach(table, va, n) == n <==> AllVisible(table, va, n)
    decreases n
  {
    if n > 0 {
      ReachAll(table, va + 1, n - 1);
      hide Visible;
      assert AllVisible(table, va, n) <==> Visible(table, va) && AllVisible(table, va + 1, n - 1);
    }
  }

  lemma {:induction false} ReachPage(table: UserTable, va: nat, n: nat, m: nat)
    requires Visible(table, va) && va % PGSIZE + m <= PGSIZE && m <= n
    ensures Reach(table, va, n) == m + Reach(table, va + m, n - m)
    decreases m
  {
    if m > 0 {
      if m > 1 {
        SamePage(va, m, va + 1);
        ReachPage(table, va + 1, n - 1, m - 1);
      }
    }
  }

  /** The user bytes from va on are s. */
  ghost predicate Shows(mem: PageMap, table: UserTable, va: nat, s: seq<Byte>)
    requires Translates(mem, table)
  {
    forall x: nat :: va <= x < va + |s| ==> Visible(table, x) && At(mem, table, x) == s[x - va]
  }

  lemma ShowsNext(mem: PageMap, table: UserTable, va: nat, s: seq<Byte>, t: seq<Byte>)
    requires Translates(mem, table) && Shows(mem, table, va, s) && Visible(table, va + |s|)
      && (va + |s|) % PGSIZE + |t| <= PGSIZE
    requires t == mem[table[(va + |s|) / PGSIZE]][(va + |s|) % PGSIZE..(va + |s|) % PGSIZE + |t|]
    ensures Shows(mem, table, va, s + t)
  {
    var at := va + |s|;
    forall x: nat | va <= x < va + |s + t| ensures Visible(table, x) && At(mem, table, x) == (s + t)[x - va] {
      SamePage(at, |t|, x);
      if x >= at { assert t[x - at] == mem[table[at / PGSIZE]][at % PGSIZE + (x - at)]; }
    }
  }

  /** What copyout wrote is what copyin reads. */
  lemma RoundTrip(mem: PageMap, mem': PageMap, table: UserTable, va: nat, s: seq<Byte>, d: seq<Byte>)
    requires Translates(mem, table) && Translates(mem', table) && Wrote(mem, mem', table, va, s)
      && Shows(mem', table, va, d) && |d| == |s|
    ensures d == s
  {
    forall k: nat | k < |s| ensures d[k] == s[k] { assert Visible(table, va + k); }
  }

  /** Where the string at va ends: its first NUL, if it comes within n bytes that are mapped. */
  function Nul(mem: PageMap, table: UserTable, va: nat, n: nat): (r: Option<nat>)
    requires Translates(mem, table)
    decreases n
  {
    if n == 0 || !Visible(table, va) then None
    else if At(mem, table, va) == 0 then Some(0)
    else
      var r := Nul(mem, table, va + 1, n - 1);
      if r.None? then None else Some(r.value + 1)
  }

  lemma {:induction false} NulIs(mem: PageMap, table: UserTable, va: nat, n: nat, s: seq<Byte>)
    requires Translates(mem, table) && Shows(mem, table, va, s) && |s| <= n && NoNul(s)
    ensures var r, more := Nul(mem, table, va, n), Nul(mem, table, va + |s|, n - |s|);
      r == if more.None? then None else Some(|s| + more.value)
    decreases |s|
  {
    if |s| > 0 {
      hide Translates, Visible, At;
      assert Visible(table, va) && At(mem, table, va) == s[0];
      forall x: nat | va + 1 <= x < va + |s| ensures Visible(table, x) && At(mem, table, x) == s[1..][x - (va + 1)] {}
      NulIs(mem, table, va + 1, n - 1, s[1..]);
    }
  }

  /** The string is there exactly when all bytes before its first NUL are mapped and not NUL. */
  lemma {:induction false} NulMeaning(mem: PageMap, table: UserTable, va: nat, n: nat, k: nat)
    requires Translates(mem, table)
    ensures Nul(mem, table, va, n) == Some(k) <==>
      k < n && AllVisible(table, va, k + 1) && At(mem, table, va + k) == 0
        && forall x: nat :: va <= x < va + k ==> At(mem, table, x) != 0
    decreases n
  {
    if n > 0 && Visible(table, va) {
      if k > 0 {
        NulMeaning(mem, table, va + 1, n - 1, k - 1);
        hide Visible;
        assert AllVisible(table, va, k + 1) <==> AllVisible(table, va + 1, k);
      }
    } else if n > 0 {
      assert !AllVisible(table, va, k + 1);
    }
  }

  lemma WroteNone(mem: PageMap, table: UserTable, va: nat)
    requires Translates(mem, table)
    ensures Wrote(mem, mem, table, va, []) && Shows(mem, table, va, [])
  {}

  lemma PageOf(mem: PageMap, table: UserTable, va: nat)
    requires Translates(mem, table)
    ensures va / PGSIZE * PGSIZE % PGSIZE == 0 && va / PGSIZE * PGSIZE / PGSIZE == va / PGSIZE
      && va - va / PGSIZE * PGSIZE == va % PGSIZE
    ensures Visible(table, va / PGSIZE * PGSIZE) == Visible(table, va) == (va / PGSIZE in table)
    ensures Visible(table, va) ==>
      table[va / PGSIZE] != 0 && table[va / PGSIZE] in mem && |mem[table[va / PGSIZE]]| == PGSIZE
  {}

  lemma NoReach(table: UserTable, va: nat, n: nat)
    requires n == 0 || !Visible(table, va)
    ensures Reach(table, va, n) == 0
  {}

  ghost predicate NoNul(s: seq<Byte>) { forall k: nat :: k < |s| ==> s[k] != 0 }

  lemma NulEnd(mem: PageMap, table: UserTable, va: nat, n: nat)
    requires Translates(mem, table) && (n == 0 || !Visible(table, va))
    ensures Nul(mem, table, va, n) == None
  {}

  lemma NulHere(mem: PageMap, table: UserTable, va: nat, n: nat)
    requires Translates(mem, table) && n > 0 && Visible(table, va) && At(mem, table, va) == 0
    ensures Nul(mem, table, va, n) == Some(0)
  {}

  lemma ShowsOne(mem: PageMap, table: UserTable, va: nat, s: seq<Byte>, b: Byte)
    requires Translates(mem, table) && Shows(mem, table, va, s) && Visible(table, va + |s|)
      && At(mem, table, va + |s|) == b
    ensures Shows(mem, table, va, s + [b])
  {}

  /** One page's share of a string. */
  method StrPage(srcva: nat, max: nat, part: Bytes, n: nat, dst0: Bytes, ghost mem: PageMap, ghost table: UserTable)
      returns (got: bool, dst: Bytes)
    requires Translates(mem, table) && Shows(mem, table, srcva, dst0) && NoNul(dst0) && |dst0| + n <= max
    requires Visible(table, srcva + |dst0|) && (srcva + |dst0|) % PGSIZE + n <= PGSIZE
    requires part == mem[table[(srcva + |dst0|) / PGSIZE]][(srcva + |dst0|) % PGSIZE..(srcva + |dst0|) % PGSIZE + n]
    ensures Shows(mem, table, srcva, dst)
    ensures if got then Nul(mem, table, srcva, max) == Some(|dst| - 1) && |dst| > 0
      else |dst| == |dst0| + n && NoNul(dst)
  {
    PageOf(mem, table, srcva + |dst0|);
    hide Shows, Nul, Translates;
    var i := 0;
    dst := dst0;
    while i < n
      invariant i <= n && |dst| == |dst0| + i && NoNul(dst) && Shows(mem, table, srcva, dst)
    {
      var ch := part[i];
      SamePage(srcva + |dst0|, n, srcva + |dst|);
      ShowsOne(mem, table, srcva, dst, ch);
      if ch == 0 {
        NulIs(mem, table, srcva, max, dst);
        NulHere(mem, table, srcva + |dst|, max - |dst|);
        return true, dst + [ch];
      }
      dst := dst + [ch];
      i := i + 1;
    }
    got := false;
  }

  // --------------------------------------------------------------- the page-table tree

  ghost function ByteView(mem: Ram): (r: PageMap) { map p | p in mem :: BytesOf(mem[p]) }

  /** Page v is there for user code. */
  ghost predicate ForUser(mem: Ram, t: Tree, v: nat)
    requires Resident(mem, t)
  {
    Entry(mem, t, v) != 0 && IsU(Entry(mem, t, v))
  }

  ghost function TableOf(mem: Ram, t: Tree): (r: UserTable)
    requires Resident(mem, t)
  {
    map v: nat | v < MAXPAGE && ForUser(mem, t, v) :: Pa(mem, t, v)
  }

  /** An address space whose trapframe and trampoline are not user memory. */
  ghost predicate UserSpace(mem: Ram, free: seq<nat>, t: Tree, us: seq<nat>, tf: nat, tr: nat)
  {
    Space(mem, t, us, tf, tr) && Used(t, us) !! Elems(free) && !IsU(tf) && !IsU(tr) && 0 !in mem
  }

  lemma NotUser(pa: nat, perm: nat)
    requires perm < 16
    ensures !IsU(Pte(pa, perm))
  {
    var q := pa / 4096;
    assert Pte(pa, perm) == (q * 64) * 16 + perm;
    assert Pte(pa, perm) / 16 == q * 64;
  }

  /** Every process's address space is one. */
  lemma ProcIsUserSpace(mem: Ram, free: seq<nat>, t: Tree, us: seq<nat>, trapframe: nat, trampoline: nat)
    requires ProcSpace(mem, t, us, trapframe, trampoline) && Used(t, us) !! Elems(free) && 0 !in mem
    ensures UserSpace(mem, free, t, us, TrapframeEntry(trapframe), TrampolineEntry(trampoline))
  {
    NotUser(trapframe, WithV(TRAPFRAME_PERM));
    NotUser(trampoline, WithV(TRAMPOLINE_PERM));
  }

  lemma UserPage(mem: Ram, t: Tree, us: seq<nat>, tf: nat, tr: nat, v: nat)
    requires Space(mem, t, us, tf, tr) && !IsU(tf) && !IsU(tr) && ForUser(mem, t, v)
    ensures v < |us| && v < MAXPAGE && Pa(mem, t, v) == us[v] && us[v] in mem && NoDup(us)
  {
    hide Entry, IsU, PageTable.Table;
    if v < |us| { MapsAt(mem, t, us, v); }
  }

  /** A process's table and memory, seen as bytes. */
  lemma TreeMaps(mem: Ram, free: seq<nat>, t: Tree, us: seq<nat>, tf: nat, tr: nat)
    requires UserSpace(mem, free, t, us, tf, tr)
    ensures Resident(mem, t) && Translates(ByteView(mem), TableOf(mem, t))
  {
    hide Entry, IsU, PageTable.Table, BytesOf, Used;
    forall v: nat | ForUser(mem, t, v) ensures v < |us| && Pa(mem, t, v) == us[v] && us[v] in mem && NoDup(us) {
      UserPage(mem, t, us, tf, tr, v);
    }
    hide Space, ForUser;
  }

  lemma StoredView(mem: Ram, p: nat, b: Bytes)
    requires p in mem && |b| == 4096
    ensures ByteView(mem[p := WordsOf(b)]) == ByteView(mem)[p := b]
  {
    PageRound(b);
    hide BytesOf, WordsOf;
  }

  lemma SameTable(mem: Ram, mem': Ram, t: Tree)
    requires Resident(mem, t) && Resident(mem', t) && SameMap(mem, t, mem', t)
    ensures TableOf(mem', t) == TableOf(mem, t)
  {
    hide Entry, IsU;
    forall w: nat ensures ForUser(mem', t, w) == ForUser(mem, t, w) && Pa(mem', t, w) == Pa(mem, t, w) {
      assert Entry(mem', t, w) == Entry(mem, t, w);
    }
    hide ForUser, Pa;
  }

  lemma InTable(mem: Ram, t: Tree, us: seq<nat>, tf: nat, tr: nat, v: nat)
    requires Space(mem, t, us, tf, tr) && !IsU(tf) && !IsU(tr) && Resident(mem, t) && v in TableOf(mem, t)
    ensures v < |us| && TableOf(mem, t)[v] == us[v]
  {
    hide Entry, IsU, PageTable.Table, Space;
    UserPage(mem, t, us, tf, tr, v);
  }

  /** Bytes stored in a user page change that page of the view and nothing else. */
  lemma TreeStore(mem: Ram, free: seq<nat>, t: Tree, us: seq<nat>, tf: nat, tr: nat, v: nat, b: Bytes)
    requires UserSpace(mem, free, t, us, tf, tr) && Resident(mem, t) && v in TableOf(mem, t) && |b| == 4096
    ensures var p := TableOf(mem, t)[v];
      var mem' := mem[p := WordsOf(b)];
      && p in mem && p !in free && UserSpace(mem', free, t, us, tf, tr) && Resident(mem', t)
      && TableOf(mem', t) == TableOf(mem, t) && ByteView(mem') == ByteView(mem)[p := b]
  {
    hide Entry, IsU, PageTable.Table, BytesOf, WordsOf, Used, Space, TableOf, ByteView, SameMap, Resident;
    InTable(mem, t, us, tf, tr, v);
    FilledSpace(mem, t, us, free, tf, tr, v, WordsOf(b));
    var mem' := mem[us[v] := WordsOf(b)];
    Exec.SpaceResident(mem', t, us, tf, tr);
    StoredView(mem, us[v], b);
    SameTable(mem, mem', t);
  }

  /** What walkaddr looks at is what the table shows. */
  lemma WalkFinds(mem: Ram, t: Tree, va: nat)
    requires Resident(mem, t)
    ensures Vpn(va) == va / PGSIZE && (va < MAXVA <==> va / PGSIZE < MAXPAGE)
    ensures Visible(TableOf(mem, t), va) <==>
      va < MAXVA && Entry(mem, t, Vpn(va)) != 0 && IsU(Entry(mem, t, Vpn(va)))
  {
    hide Entry, IsU;
  }

  class User {
    const m: Memory
    const root: nat
    ghost const t: Tree
    ghost const us: seq<nat>
    ghost const tf: nat
    ghost const tr: nat

    constructor (m: Memory, root: nat, ghost t: Tree, ghost us: seq<nat>, ghost tf: nat, ghost tr: nat)
      requires m.Valid() && t.root == root && UserSpace(m.mem, m.free, t, us, tf, tr)
      ensures Valid() && this.m == m
    {
      this.m, this.root, this.t, this.us, this.tf, this.tr := m, root, t, us, tf, tr;
    }

    ghost predicate Valid()
      reads m
    {
      m.Valid() && t.root == root && UserSpace(m.mem, m.free, t, us, tf, tr)
    }

    ghost function Mem(): (r: PageMap)
      reads m
    {
      ByteView(m.mem)
    }

    ghost function Tab(): (r: UserTable)
      requires Valid()
      reads m
    {
      TreeMaps(m.mem, m.free, t, us, tf, tr);
      TableOf(m.mem, t)
    }

    lemma Seen()
      requires Valid()
      ensures Translates(Mem(), Tab())
    {
      TreeMaps(m.mem, m.free, t, us, tf, tr);
    }

    method WalkAddr(va: nat) returns (pa: nat)
      requires Valid()
      modifies m
      ensures Valid() && m.mem == old(m.mem) && Mem() == old(Mem()) && Tab() == old(Tab())
      ensures pa == if Visible(Tab(), va) then Tab()[va / PGSIZE] else 0
    {
      TreeMaps(m.mem, m.free, t, us, tf, tr);
      SpaceApart(m.mem, t, us, m.free, tf, tr);
      hide Memory.Valid, PageTable.Table, PageTable.Apart, Space, Used, Entry, IsU, Translates;
      WalkFinds(m.mem, t, va);
      pa := Exec.WalkAddr(m, root, va, t);
    }

    /** memmove() into the page that user page v shows. */
    method Store(pa: nat, b: Bytes, ghost v: nat)
      requires Valid() && v in Tab() && pa == Tab()[v] && |b| == 4096
      modifies m
      ensures Valid() && Mem() == old(Mem())[pa := b] && Tab() == old(Tab())
    {
      TreeStore(m.mem, m.free, t, us, tf, tr, v, b);
      hide Space, Used, ByteView, TableOf, WordsOf, Threaded, NoDup;
      FillPage(m, pa, WordsOf(b));
    }

    method Load(pa: nat, ghost v: nat) returns (b: Bytes)
      requires Valid() && v in Tab() && pa == Tab()[v]
      ensures pa in Mem() && b == Mem()[pa] && |b| == 4096
    {
      Seen();
      b := BytesOf(m.mem[pa]);
    }

    /** One turn of copyout's loop: part goes to the page of va, if it is there. */
    method PutPart(va: nat, part: Bytes) returns (found: bool)
      requires Valid() && va % 4096 + |part| <= 4096
      modifies m
      ensures Valid() && Tab() == old(Tab()) && found == Visible(Tab(), va)
      ensures !found ==> Mem() == old(Mem())
      ensures found ==>
        var pa := Tab()[va / PGSIZE];
        && pa in old(Mem()) && |old(Mem())[pa]| == 4096
        && Mem() == old(Mem())[pa := Splice(old(Mem())[pa], va % 4096, part)]
    {
      hide User.Valid, User.Mem, User.Tab, Translates, Splice, UserSpace, ByteView, TableOf, Memory.Valid;
      Seen();
      PageOf(Mem(), Tab(), va);
      var va0 := va / PGSIZE * PGSIZE;
      var pa0 := WalkAddr(va0);
      found := pa0 != 0;
      if found {
        var page := Load(pa0, va / PGSIZE);
        Store(pa0, Splice(page, va - va0, part), va / PGSIZE);
      }
    }

    /** One turn of copyin's and copyinstr's: n bytes from the page of va, if it is there. */
    method GetPart(va: nat, n: nat) returns (found: bool, part: Bytes)
      requires Valid() && va % 4096 + n <= 4096
      modifies m
      ensures Valid() && m.mem == old(m.mem) && Mem() == old(Mem()) && Tab() == old(Tab())
        && found == Visible(Tab(), va)
      ensures found ==>
        var pa := Tab()[va / PGSIZE]; pa in Mem() && |Mem()[pa]| == 4096 && part == Mem()[pa][va % 4096..va % 4096 + n]
    {
      hide User.Valid, User.Mem, User.Tab, Translates, UserSpace, ByteView, TableOf, Memory.Valid;
      Seen();
      PageOf(Mem(), Tab(), va);
      var va0 := va / PGSIZE * PGSIZE;
      var pa0 := WalkAddr(va0);
      found, part := pa0 != 0, [];
      if found {
        var page := Load(pa0, va / PGSIZE);
        part := page[va - va0..va - va0 + n];
      }
    }

    /** All of src, or the part before the first page that is not there. */
    method CopyOut(dstva: nat, src: seq<Byte>) returns (ok: bool)
      requires Valid()
      modifies m
      ensures Valid() && Tab() == old(Tab()) && ok == AllVisible(Tab(), dstva, |src|)
      ensures Translates(old(Mem()), Tab()) && Translates(Mem(), Tab())
      ensures Wrote(old(Mem()), Mem(), Tab(), dstva, src[..Reach(Tab(), dstva, |src|)])
    {
      hide Visible, At, Wrote, Translates, Splice, Reach, AllVisible, User.Valid, User.Mem, User.Tab;
      Seen();
      ghost var mem0, table := Mem(), Tab();
      ReachAll(table, dstva, |src|);
      WroteNone(mem0, table, dstva);
      var done: nat := 0;
      assert src[..0] == [];
      while done < |src|
        invariant done <= |src| && Valid() && Tab() == table && Translates(Mem(), table)
          && Wrote(mem0, Mem(), table, dstva, src[..done])
        invariant Reach(table, dstva, |src|) == done + Reach(table, dstva + done, |src| - done)
      {
        var va := dstva + done;
        var n := PGSIZE - va % PGSIZE;
        if n > |src| - done { n := |src| - done; }
        var part := src[done..done + n];
        assert src[..done] + part == src[..done + n];
        ghost var mem1 := Mem();
        var found := PutPart(va, part);
        if !found {
          NoReach(table, va, |src| - done);
          return false;
        }
        ReachPage(table, va, |src| - done, n);
        WroteNext(mem0, mem1, table, dstva, src[..done], part);
        done := done + n;
      }
      NoReach(table, dstva + done, 0);
      assert src[..done] == src;
      return true;
    }

    /** All len bytes, or those before the first page that is not there. */
    method CopyIn(srcva: nat, len: nat) returns (ok: bool, dst: seq<Byte>)
      requires Valid()
      modifies m
      ensures Valid() && m.mem == old(m.mem) && Tab() == old(Tab()) && Translates(Mem(), Tab())
      ensures ok == AllVisible(Tab(), srcva, len) && |dst| == Reach(Tab(), srcva, len)
        && Shows(Mem(), Tab(), srcva, dst)
    {
      hide Visible, At, Shows, Translates, Reach, AllVisible, User.Valid, User.Mem, User.Tab;
      Seen();
      ghost var mem, table := Mem(), Tab();
      ReachAll(table, srcva, len);
      WroteNone(mem, table, srcva);
      dst := [];
      while |dst| < len
        invariant Valid() && m.mem == old(m.mem) && Mem() == mem && Tab() == table && |dst| <= len
          && Shows(mem, table, srcva, dst)
        invariant Reach(table, srcva, len) == |dst| + Reach(table, srcva + |dst|, len - |dst|)
      {
        var va := srcva + |dst|;
        var n := PGSIZE - va % PGSIZE;
        if n > len - |dst| { n := len - |dst|; }
        var found, part := GetPart(va, n);
        if !found {
          NoReach(table, va, len - |dst|);
          return false, dst;
        }
        ReachPage(table, va, len - |dst|, n);
        ShowsNext(mem, table, srcva, dst, part);
        dst := dst + part;
      }
      NoReach(table, srcva + |dst|, 0);
      return true, dst;
    }

    /** The string up to its first NUL, within max bytes. */
    method CopyInStr(srcva: nat, max: nat) returns (ok: bool, dst: seq<Byte>)
      requires Valid()
      modifies m
      ensures Valid() && m.mem == old(m.mem) && Tab() == old(Tab()) && Translates(Mem(), Tab())
      ensures ok == Nul(Mem(), Tab(), srcva, max).Some?
      ensures ok ==> |dst| == Nul(Mem(), Tab(), srcva, max).value + 1 && Shows(Mem(), Tab(), srcva, dst)
    {
      hide Visible, At, Shows, Translates, Nul, User.Valid, User.Mem, User.Tab;
      Seen();
      ghost var mem, table := Mem(), Tab();
      WroteNone(mem, table, srcva);
      dst := [];
      while |dst| < max
        invariant Valid() && m.mem == old(m.mem) && Mem() == mem && Tab() == table
        invariant |dst| <= max && Shows(mem, table, srcva, dst) && NoNul(dst)
      {
        var va := srcva + |dst|;
        var n := PGSIZE - va % PGSIZE;
        if n > max - |dst| { n := max - |dst|; }
        var found, part := GetPart(va, n);
        NulIs(mem, table, srcva, max, dst);
        if !found {
          NulEnd(mem, table, va, max - |dst|);
          return false, dst;
        }
        var got;
        got, dst := StrPage(srcva, max, part, n, dst, mem, table);
        if got { return true, dst; }
      }
      NulIs(mem, table, srcva, max, dst);
      NulEnd(mem, table, srcva + |dst|, 0);
      return false, dst;
    }
  }
}
