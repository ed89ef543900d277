/** Link counts and directory entries: create, link, unlink and the reclaiming of inodes
    (kernel/sysfile.c, kernel/fs.c).

    An inode holds, beside its on-disk fields, the number of in-memory references kept between
    calls (open files and current directories). A directory's contents are its entries; inode
    number 0 marks an empty one. Calls run one at a time. */
module Links {

  const ROOT: nat := 1
  const MAX_ENTS: nat := 17152  // MAXFILE * BSIZE / sizeof(struct dirent)

  datatype Kind = Free | Dir | File | Device

  datatype Dirent = Dirent(inum: nat, name: string)

  datatype Inode = Inode(kind: Kind, nlink: int, ents: seq<Dirent>, refs: nat)

  type Table = seq<Inode>

  /** nlink is a short. */
  function Up(n: int): (r: int) { if n == 32767 then -32768 else n + 1 }

  function Down(n: int): (r: int) { if n == -32768 then 32767 else n - 1 }

  predicate IsDot(name: string) { name == "." || name == ".." }

  // ------------------------------------------------------------------ one directory

  predicate Match(ents: seq<Dirent>, k: nat, name: string)
    requires k < |ents|
  {
    ents[k].inum != 0 && ents[k].name == name
  }

  function Lookup(ents: seq<Dirent>, name: string, from: nat): (k: nat)
    requires from <= |ents|
    ensures from <= k <= |ents| && (k < |ents| ==> Match(ents, k, name))
    ensures forall j: nat :: from <= j < k ==> !Match(ents, j, name)
    decreases |ents| - from
  {
    if from == |ents| || Match(ents, from, name) then from else Lookup(ents, name, from + 1)
  }

  function Slot(ents: seq<Dirent>, from: nat): (k: nat)
    requires from <= |ents|
    ensures from <= k <= |ents| && (k < |ents| ==> ents[k].inum == 0)
    ensures forall j: nat :: from <= j < k ==> ents[j].inum != 0
    decreases |ents| - from
  {
    if from == |ents| || ents[from].inum == 0 then from else Slot(ents, from + 1)
  }

  /** The entries after dirlink: the first empty one is filled, or one is added. */
  function Entered(ents: seq<Dirent>, name: string, inum: nat): (r: seq<Dirent>)
  {
    var k := Slot(ents, 0);
    if k < |ents| then ents[k := Dirent(inum, name)] else ents + [Dirent(inum, name)]
  }

  lemma EnteredAt(ents: seq<Dirent>, name: string, inum: nat)
    ensures var r, s := Entered(ents, name, inum), Slot(ents, 0);
      && |ents| <= |r| && s < |r| && r[s] == Dirent(inum, name)
      && (forall k: nat :: k < |r| && k != s ==> k < |ents| && r[k] == ents[k])
      && (forall k: nat :: k < |ents| && ents[k].inum != 0 ==> k != s)
  {}

  predicate Empty(ents: seq<Dirent>) { forall k: nat :: 2 <= k < |ents| ==> ents[k].inum == 0 }

  ghost predicate Unique(ents: seq<Dirent>)
  {
    forall j: nat, k: nat :: j < k < |ents| && ents[j].inum != 0 && ents[k].inum != 0 ==> ents[j].name != ents[k].name
  }

  // ------------------------------------------------------------------ the whole table

  predicate LinkedDir(ino: Table, d: nat) { d < |ino| && ino[d].kind.Dir? && ino[d].nlink >= 1 }

  /** Entry k of directory d counts as a name of inode i: the directory is itself linked and
      the entry is not ".". */
  ghost predicate Counts(ino: Table, d: nat, k: nat, i: nat)
  {
    LinkedDir(ino, d) && k < |ino[d].ents| && ino[d].ents[k].inum == i && ino[d].ents[k].name != "."
  }

  ghost function Names(ino: Table, i: nat): (s: set<(nat, nat)>)
  {
    set d: nat, k: nat | d < |ino| && k < |ino[d].ents| && Counts(ino, d, k, i) :: (d, k)
  }

  ghost predicate HasParent(ino: Table, c: nat) { exists d: nat, k: nat :: k >= 2 && Counts(ino, d, k, c) }

  ghost predicate DirOk(ino: Table, i: nat)
    requires i < |ino|
  {
    var ents := ino[i].ents;
    && i != 0 && |ents| >= 2 && ents[0] == Dirent(i, ".") && ents[1].name == ".." && ents[1].inum != 0 && Unique(ents)
    && (ino[i].nlink == 0 ==> Empty(ents))
    && (ino[i].nlink >= 1 && i != ROOT ==> HasParent(ino, i))
  }

  /** An inode is allocated exactly while it has a name or a reference, and its link count is
      the number of its names. */
  ghost predicate InodeOk(ino: Table, i: nat)
    requires i < |ino|
  {
    && (ino[i].kind.Free? ==> ino[i].refs == 0)
    && (!ino[i].kind.Free? ==> ino[i].nlink == |Names(ino, i)| <= 32767 && (ino[i].nlink >= 1 || ino[i].refs >= 1))
    && (ino[i].kind.Dir? ==> DirOk(ino, i))
  }

  /** Entries of linked directories name allocated inodes; ".." names a directory; a directory
      has one other name, in the directory its ".." names. */
  ghost predicate EntryOk(ino: Table, d: nat, k: nat)
    requires LinkedDir(ino, d) && 0 < k < |ino[d].ents| && ino[d].ents[k].inum != 0
  {
    var t := ino[d].ents[k].inum;
    && t < |ino| && !ino[t].kind.Free?
    && (k == 1 ==> ino[t].kind.Dir?)
    && (k >= 2 ==>
      t != ROOT && (ino[t].kind.Dir? ==> |ino[t].ents| >= 2 && ino[t].ents[1].inum == d && Sole(ino[d].ents, k)))
  }

  ghost predicate Sole(ents: seq<Dirent>, k: nat)
    requires k < |ents|
  {
    forall j: nat :: 2 <= j < |ents| && j != k ==> ents[j].inum != ents[k].inum
  }

  ghost predicate EntriesOk(ino: Table)
  {
    forall d: nat, k: nat ::
      LinkedDir(ino, d) && 0 < k < |ino[d].ents| && ino[d].ents[k].inum != 0 ==> EntryOk(ino, d, k)
  }

  ghost predicate Inv(ino: Table)
  {
    && |ino| > 1 && ino[0].kind.Free? && LinkedDir(ino, ROOT) && |ino[ROOT].ents| >= 2 && ino[ROOT].ents[1].inum == ROOT
    && (forall i: nat :: i < |ino| ==> InodeOk(ino, i))
    && EntriesOk(ino)
  }

  // ----------------------------------------------------------------------- counting

  lemma NamesSame(ino: Table, ino': Table, i: nat)
    requires forall d: nat, k: nat :: Counts(ino', d, k, i) <==> Counts(ino, d, k, i)
    ensures Names(ino', i) == Names(ino, i)
  {
    forall d: nat, k: nat ensures (d, k) in Names(ino', i) <==> (d, k) in Names(ino, i) {
      assert Counts(ino', d, k, i) <==> Counts(ino, d, k, i);
    }
  }

  lemma NamesPlus(ino: Table, ino': Table, i: nat, d0: nat, k0: nat)
    requires !Counts(ino, d0, k0, i)
    requires forall d: nat, k: nat :: Counts(ino', d, k, i) <==> Counts(ino, d, k, i) || (d == d0 && k == k0)
    ensures |Names(ino', i)| == |Names(ino, i)| + 1
  {
    forall d: nat, k: nat ensures (d, k) in Names(ino', i) <==> (d, k) in Names(ino, i) + {(d0, k0)} {
      assert Counts(ino', d, k, i) <==> Counts(ino, d, k, i) || (d == d0 && k == k0);
    }
    assert Names(ino', i) == Names(ino, i) + {(d0, k0)};
    assert (d0, k0) !in Names(ino, i);
  }

  lemma NamesNone(ino: Table, i: nat)
    requires |Names(ino, i)| == 0
    ensures forall d: nat, k: nat :: !Counts(ino, d, k, i)
  {
    forall d: nat, k: nat ensures !Counts(ino, d, k, i) {
      assert (d, k) !in Names(ino, i);
    }
  }

  lemma NamesSome(ino: Table, i: nat, d: nat, k: nat)
    requires Counts(ino, d, k, i)
    ensures |Names(ino, i)| >= 1
  {
    assert (d, k) in Names(ino, i);
  }

  lemma EntryCounts(ino: Table, d: nat, k: nat)
    requires LinkedDir(ino, d) && DirOk(ino, d) && 0 < k < |ino[d].ents| && ino[d].ents[k].inum != 0
    ensures Counts(ino, d, k, ino[d].ents[k].inum)
  {
    assert ino[d].ents[0].inum != 0;
  }

  /** What an entry of a linked directory names is linked. */
  lemma NamedLinked(ino: Table, d: nat, k: nat)
    requires Inv(ino) && LinkedDir(ino, d) && k < |ino[d].ents| && ino[d].ents[k].inum != 0
    ensures ino[d].ents[k].inum < |ino| && !ino[ino[d].ents[k].inum].kind.Free? && ino[ino[d].ents[k].inum].nlink >= 1
  {
    assert InodeOk(ino, d);
    if k > 0 {
      assert EntryOk(ino, d, k);
      EntryCounts(ino, d, k);
      NamesSome(ino, ino[d].ents[k].inum, d, k);
      assert InodeOk(ino, ino[d].ents[k].inum);
    }
  }

  // ------------------------------------------------------------------------- iput

  /** iput of the last reference of the running call. */
  function Reaped(ino: Table, i: nat): (r: Table)
    requires i < |ino|
  {
    if ino[i].refs == 0 && ino[i].nlink == 0 && !ino[i].kind.Free? then ino[i := ino[i].(kind := Free, ents := [])]
      else ino
  }

  /** An inode is freed only when no entry of a linked directory names it. */
  lemma ReapedUnnamed(ino: Table, i: nat)
    requires i < |ino| && ino[i].nlink == |Names(ino, i)| && Reaped(ino, i) != ino
    ensures forall d: nat, k: nat :: !Counts(ino, d, k, i)
  {
    NamesNone(ino, i);
  }

  /** All of Inv but for an inode that lost its last name or reference. */
  ghost predicate InvBut(ino: Table, x: nat)
  {
    && |ino| > 1 && ino[0].kind.Free? && LinkedDir(ino, ROOT) && |ino[ROOT].ents| >= 2 && ino[ROOT].ents[1].inum == ROOT
    && x < |ino| && AlmostOk(ino, x) && (forall i: nat :: i < |ino| && i != x ==> InodeOk(ino, i))
    && EntriesOk(ino)
  }

  ghost predicate AlmostOk(ino: Table, i: nat)
    requires i < |ino|
  {
    && (ino[i].kind.Free? ==> ino[i].refs == 0)
    && (!ino[i].kind.Free? ==> ino[i].nlink == |Names(ino, i)| <= 32767)
    && (ino[i].kind.Dir? ==> DirOk(ino, i))
  }

  lemma ReapedCounts(ino: Table, x: nat, d: nat, k: nat, i: nat)
    requires x < |ino|
    ensures Counts(Reaped(ino, x), d, k, i) <==> Counts(ino, d, k, i)
  {}

  lemma SameParent(ino: Table, ino': Table, c: nat)
    requires forall d: nat, k: nat :: Counts(ino, d, k, c) ==> Counts(ino', d, k, c)
    requires HasParent(ino, c)
    ensures HasParent(ino', c)
  {
    var d: nat, k: nat :| k >= 2 && Counts(ino, d, k, c);
    assert Counts(ino', d, k, c);
  }

  lemma ReapKeeps(ino: Table, x: nat)
    requires InvBut(ino, x)
    ensures Inv(Reaped(ino, x))
  {
    var ino' := Reaped(ino, x);
    if ino' == ino { assert InodeOk(ino, x); return; }
    ReapedUnnamed(ino, x);
    forall i: nat | i < |ino'| ensures InodeOk(ino', i) {
      forall d: nat, k: nat ensures Counts(ino', d, k, i) <==> Counts(ino, d, k, i) { ReapedCounts(ino, x, d, k, i); }
      NamesSame(ino, ino', i);
      if i != x { assert InodeOk(ino, i); }
      if i != x && ino[i].kind.Dir? && ino[i].nlink >= 1 && i != ROOT { SameParent(ino, ino', i); }
    }
    forall d: nat, k: nat | LinkedDir(ino', d) && 0 < k < |ino'[d].ents| && ino'[d].ents[k].inum != 0
      ensures EntryOk(ino', d, k) {
      assert EntryOk(ino, d, k) && InodeOk(ino, d);
      EntryCounts(ino, d, k);
      assert !Counts(ino, d, k, x);
    }
  }

  // ------------------------------------------------------------------------ create

  /** The table after create: the new inode, one reference to it for the caller, and its
      entry; a directory starts with "." and "..", and ".." counts for the parent. */
  function Created(ino: Table, dp: nat, name: string, kind: Kind, i: nat): (r: Table)
    requires dp < |ino| && i < |ino|
  {
    var ents := if kind.Dir? then [Dirent(i, "."), Dirent(dp, "..")] else [];
    var nlink := if kind.Dir? then Up(ino[dp].nlink) else ino[dp].nlink;
    ino[i := Inode(kind, 1, ents, 1)][dp := ino[dp].(ents := Entered(ino[dp].ents, name, i), nlink := nlink)]
  }

  ghost predicate CanCreate(ino: Table, dp: nat, name: string, kind: Kind, i: nat)
  {
    && Inv(ino) && dp < |ino| && ino[dp].kind.Dir? && Lookup(ino[dp].ents, name, 0) == |ino[dp].ents|
    && 0 < i < |ino| && ino[i].kind.Free? && !kind.Free?
  }

  ghost predicate CreateFits(ino: Table, dp: nat, kind: Kind)
    requires dp < |ino|
  {
    ino[dp].nlink >= 1 && (kind.Dir? ==> ino[dp].nlink < 32767)
  }

  lemma CreateFacts(ino: Table, dp: nat, name: string, kind: Kind, i: nat)
    requires CanCreate(ino, dp, name, kind, i)
    ensures dp != i && dp != 0 && !IsDot(name) && Slot(ino[dp].ents, 0) >= 2 && DirOk(ino, dp)
    ensures forall d: nat, k: nat :: !Counts(ino, d, k, i)
  {
    assert InodeOk(ino, dp);
    var ents := ino[dp].ents;
    assert !Match(ents, 0, name) && !Match(ents, 1, name);
    forall d: nat, k: nat ensures !Counts(ino, d, k, i) {
      if LinkedDir(ino, d) && k < |ino[d].ents| && ino[d].ents[k].inum != 0 { NamedLinked(ino, d, k); }
    }
  }

  lemma CreatedCounts(ino: Table, dp: nat, name: string, kind: Kind, i: nat, d: nat, k: nat, x: nat)
    requires CanCreate(ino, dp, name, kind, i) && CreateFits(ino, dp, kind) && x != 0
    ensures Counts(Created(ino, dp, name, kind, i), d, k, x) <==>
      Counts(ino, d, k, x) || (x == i && d == dp && k == Slot(ino[dp].ents, 0))
        || (kind.Dir? && x == dp && d == i && k == 1)
  {
    CreateFacts(ino, dp, name, kind, i);
    EnteredAt(ino[dp].ents, name, i);
    hide Inv, InodeOk, DirOk, Entered, Slot;
  }

  lemma CreatedNames(ino: Table, dp: nat, name: string, kind: Kind, i: nat, x: nat)
    requires CanCreate(ino, dp, name, kind, i) && CreateFits(ino, dp, kind) && x != 0
    ensures |Names(Created(ino, dp, name, kind, i), x)| == |Names(ino, x)|
      + if x == i || (kind.Dir? && x == dp) then 1 else 0
    ensures x == i ==> |Names(ino, x)| == 0
  {
    var ino' := Created(ino, dp, name, kind, i);
    CreateFacts(ino, dp, name, kind, i);
    forall d: nat, k: nat
      ensures Counts(ino', d, k, x) <==>
        Counts(ino, d, k, x) || (x == i && d == dp && k == Slot(ino[dp].ents, 0))
        || (kind.Dir? && x == dp && d == i && k == 1)
    {
      CreatedCounts(ino, dp, name, kind, i, d, k, x);
    }
    if x == i { assert Names(ino, i) == {}; }
    assert !LinkedDir(ino, i);
    hide Created, CanCreate, CreateFits, Names;
    if x == i { NamesPlus(ino, ino', x, dp, Slot(ino[dp].ents, 0)); }
    else if kind.Dir? && x == dp { NamesPlus(ino, ino', x, i, 1); }
    else { NamesSame(ino, ino', x); }
  }

  lemma CreatedUnique(ents: seq<Dirent>, name: string, i: nat)
    requires Unique(ents) && Lookup(ents, name, 0) == |ents|
    ensures Unique(Entered(ents, name, i))
  {
    EnteredAt(ents, name, i);
    var r := Entered(ents, name, i);
    hide Entered, Slot;
    forall j: nat, k: nat | j < k < |r| && r[j].inum != 0 && r[k].inum != 0 ensures r[j].name != r[k].name {
      assert j < |ents| ==> !Match(ents, j, name);
      assert k < |ents| ==> !Match(ents, k, name);
    }
  }

  lemma CreatedInode(ino: Table, dp: nat, name: string, kind: Kind, i: nat, x: nat)
    requires CanCreate(ino, dp, name, kind, i) && CreateFits(ino, dp, kind) && x < |ino|
    ensures InodeOk(Created(ino, dp, name, kind, i), x)
  {
    var ino' := Created(ino, dp, name, kind, i);
    CreateFacts(ino, dp, name, kind, i);
    assert InodeOk(ino, x) && InodeOk(ino, 0);
    if x == 0 { return; }
    CreatedNames(ino, dp, name, kind, i, x);
    CreatedUnique(ino[dp].ents, name, i);
    EnteredAt(ino[dp].ents, name, i);
    if ino'[x].kind.Dir? && ino'[x].nlink >= 1 && x != ROOT { CreatedParent(ino, dp, name, kind, i, x); }
    hide CanCreate, Entered, Names, HasParent, Slot, Unique, Counts;
  }

  lemma CreatedParent(ino: Table, dp: nat, name: string, kind: Kind, i: nat, x: nat)
    requires CanCreate(ino, dp, name, kind, i) && CreateFits(ino, dp, kind) && 0 < x < |ino|
    requires x == i || (ino[x].kind.Dir? && ino[x].nlink >= 1 && x != ROOT)
    ensures HasParent(Created(ino, dp, name, kind, i), x)
  {
    CreateFacts(ino, dp, name, kind, i);
    if x == i {
      CreatedCounts(ino, dp, name, kind, i, dp, Slot(ino[dp].ents, 0), x);
    } else {
      assert InodeOk(ino, x);
      forall d: nat, k: nat | Counts(ino, d, k, x) ensures Counts(Created(ino, dp, name, kind, i), d, k, x) {
        CreatedCounts(ino, dp, name, kind, i, d, k, x);
      }
      SameParent(ino, Created(ino, dp, name, kind, i), x);
    }
  }

  lemma CreatedEntry(ino: Table, dp: nat, name: string, kind: Kind, i: nat, d: nat, k: nat)
    requires CanCreate(ino, dp, name, kind, i) && CreateFits(ino, dp, kind)
    requires var ino' := Created(ino, dp, name, kind, i);
      LinkedDir(ino', d) && 0 < k < |ino'[d].ents| && ino'[d].ents[k].inum != 0
    ensures EntryOk(Created(ino, dp, name, kind, i), d, k)
  {
    CreateFacts(ino, dp, name, kind, i);
    EnteredAt(ino[dp].ents, name, i);
    var ino' := Created(ino, dp, name, kind, i);
    var s := Slot(ino[dp].ents, 0);
    forall j: nat | 0 < j < |ino[dp].ents| && ino[dp].ents[j].inum != 0 ensures ino[dp].ents[j].inum != i {
      EntryCounts(ino, dp, j);
      assert !Counts(ino, dp, j, i);
    }
    if d != i && !(d == dp && k == s) {
      assert EntryOk(ino, d, k) && InodeOk(ino, d);
      EntryCounts(ino, d, k);
      assert !Counts(ino, d, k, i);
    }
    hide Entered, Slot, Inv, Counts, CanCreate, DirOk;
  }

  /** create keeps the link counts exactly when the parent directory is itself linked and its
      count can go up. */
  lemma CreateKeeps(ino: Table, dp: nat, name: string, kind: Kind, i: nat)
    requires CanCreate(ino, dp, name, kind, i)
    ensures Inv(Created(ino, dp, name, kind, i)) <==> CreateFits(ino, dp, kind)
  {
    var ino' := Created(ino, dp, name, kind, i);
    if CreateFits(ino, dp, kind) {
      forall x: nat | x < |ino'| ensures InodeOk(ino', x) { CreatedInode(ino, dp, name, kind, i, x); }
      forall d: nat, k: nat | LinkedDir(ino', d) && 0 < k < |ino'[d].ents| && ino'[d].ents[k].inum != 0
        ensures EntryOk(ino', d, k) {
        CreatedEntry(ino, dp, name, kind, i, d, k);
      }
      CreatedRoot(ino, dp, name, kind, i);
    } else if ino[dp].nlink >= 1 {
      assert InodeOk(ino, dp);
      CreateOverflows(ino, dp, name, kind, i);
    } else {
      CreateOrphans(ino, dp, name, kind, i);
    }
  }

  lemma CreatedRoot(ino: Table, dp: nat, name: string, kind: Kind, i: nat)
    requires CanCreate(ino, dp, name, kind, i) && CreateFits(ino, dp, kind)
    ensures var ino' := Created(ino, dp, name, kind, i);
      ino'[0].kind.Free? && LinkedDir(ino', ROOT) && |ino'[ROOT].ents| >= 2 && ino'[ROOT].ents[1].inum == ROOT
  {
    CreateFacts(ino, dp, name, kind, i);
    EnteredAt(ino[dp].ents, name, i);
  }

  lemma CreateOverflows(ino: Table, dp: nat, name: string, kind: Kind, i: nat)
    requires CanCreate(ino, dp, name, kind, i) && kind.Dir? && ino[dp].nlink == 32767
    ensures !Inv(Created(ino, dp, name, kind, i))
  {
    assert InodeOk(ino, dp);
    CreateFacts(ino, dp, name, kind, i);
    assert !InodeOk(Created(ino, dp, name, kind, i), dp);
  }

  /** A file in a directory without links has a count but no name; a directory in it gives its
      parent a count again, but no name. */
  lemma CreateOrphans(ino: Table, dp: nat, name: string, kind: Kind, i: nat)
    requires CanCreate(ino, dp, name, kind, i) && ino[dp].nlink < 1
    ensures !Inv(Created(ino, dp, name, kind, i))
  {
    var ino' := Created(ino, dp, name, kind, i);
    CreateFacts(ino, dp, name, kind, i);
    assert InodeOk(ino, dp);
    EnteredAt(ino[dp].ents, name, i);
    if kind.Dir? {
      NamesNone(ino, dp);
      forall d: nat, k: nat | k >= 2 ensures !Counts(ino', d, k, dp) { assert !Counts(ino, d, k, dp); }
      assert !HasParent(ino', dp);
      assert !InodeOk(ino', dp);
    } else {
      forall d: nat, k: nat ensures !Counts(ino', d, k, i) { assert !Counts(ino, d, k, i); }
      assert Names(ino', i) == {};
      assert !InodeOk(ino', i);
    }
  }

  // -------------------------------------------------------------------------- link

  /** The table after link: one more link and one more entry. */
  function LinkedTo(ino: Table, ip: nat, dp: nat, name: string): (r: Table)
    requires dp < |ino| && ip < |ino|
  {
    ino[ip := ino[ip].(nlink := Up(ino[ip].nlink))][dp := ino[dp].(ents := Entered(ino[dp].ents, name, ip))]
  }

  ghost predicate CanLink(ino: Table, ip: nat, dp: nat, name: string)
  {
    && Inv(ino) && dp < |ino| && ino[dp].kind.Dir? && Lookup(ino[dp].ents, name, 0) == |ino[dp].ents|
    && 0 < ip < |ino| && !ino[ip].kind.Free? && !ino[ip].kind.Dir?
  }

  lemma LinkFacts(ino: Table, ip: nat, dp: nat, name: string)
    requires CanLink(ino, ip, dp, name)
    ensures dp != ip && dp != 0 && ip != ROOT && !IsDot(name) && Slot(ino[dp].ents, 0) >= 2 && DirOk(ino, dp)
  {
    assert InodeOk(ino, dp);
    assert !Match(ino[dp].ents, 0, name) && !Match(ino[dp].ents, 1, name);
  }

  lemma LinkedNames(ino: Table, ip: nat, dp: nat, name: string, x: nat)
    requires CanLink(ino, ip, dp, name) && x != 0
    ensures |Names(LinkedTo(ino, ip, dp, name), x)| == |Names(ino, x)| + if x == ip && ino[dp].nlink >= 1 then 1 else 0
    ensures forall d: nat, k: nat :: Counts(ino, d, k, x) ==> Counts(LinkedTo(ino, ip, dp, name), d, k, x)
  {
    var ino', s := LinkedTo(ino, ip, dp, name), Slot(ino[dp].ents, 0);
    LinkFacts(ino, ip, dp, name);
    EnteredAt(ino[dp].ents, name, ip);
    hide Inv, InodeOk, DirOk, Entered, Slot, Names;
    forall d: nat, k: nat ensures Counts(ino', d, k, x) <==>
      Counts(ino, d, k, x) || (x == ip && ino[dp].nlink >= 1 && d == dp && k == s) {}
    assert x == ip ==> !Counts(ino, dp, s, x);
    hide LinkedTo;
    if x == ip && ino[dp].nlink >= 1 { NamesPlus(ino, ino', x, dp, s); } else { NamesSame(ino, ino', x); }
  }

  lemma LinkedInode(ino: Table, ip: nat, dp: nat, name: string, x: nat)
    requires CanLink(ino, ip, dp, name) && ino[dp].nlink >= 1 && ino[ip].nlink < 32767 && x < |ino|
    ensures InodeOk(LinkedTo(ino, ip, dp, name), x)
  {
    var ino' := LinkedTo(ino, ip, dp, name);
    LinkFacts(ino, ip, dp, name);
    assert InodeOk(ino, x) && InodeOk(ino, 0);
    if x == 0 { return; }
    LinkedNames(ino, ip, dp, name, x);
    CreatedUnique(ino[dp].ents, name, ip);
    EnteredAt(ino[dp].ents, name, ip);
    if ino[x].kind.Dir? && ino[x].nlink >= 1 && x != ROOT { SameParent(ino, ino', x); }
    hide CanLink, Entered, Names, HasParent, Slot, Unique, Counts;
  }

  lemma LinkedEntry(ino: Table, ip: nat, dp: nat, name: string, d: nat, k: nat)
    requires CanLink(ino, ip, dp, name) && ino[dp].nlink >= 1
    requires var ino' := LinkedTo(ino, ip, dp, name);
      LinkedDir(ino', d) && 0 < k < |ino'[d].ents| && ino'[d].ents[k].inum != 0
    ensures EntryOk(LinkedTo(ino, ip, dp, name), d, k)
  {
    LinkFacts(ino, ip, dp, name);
    EnteredAt(ino[dp].ents, name, ip);
    if !(d == dp && k == Slot(ino[dp].ents, 0)) { assert EntryOk(ino, d, k); }
    assert InodeOk(ino, ip);
    hide Entered, Slot, Inv, Counts, CanLink, DirOk;
  }

  /** link keeps the link counts exactly when the directory of the new name is itself linked
      and the file's count can go up. */
  lemma LinkKeeps(ino: Table, ip: nat, dp: nat, name: string)
    requires CanLink(ino, ip, dp, name)
    ensures Inv(LinkedTo(ino, ip, dp, name)) <==> ino[dp].nlink >= 1 && ino[ip].nlink < 32767
  {
    var ino' := LinkedTo(ino, ip, dp, name);
    LinkFacts(ino, ip, dp, name);
    if ino[dp].nlink >= 1 && ino[ip].nlink < 32767 {
      forall x: nat | x < |ino'| ensures InodeOk(ino', x) { LinkedInode(ino, ip, dp, name, x); }
      forall d: nat, k: nat | LinkedDir(ino', d) && 0 < k < |ino'[d].ents| && ino'[d].ents[k].inum != 0
        ensures EntryOk(ino', d, k) {
        LinkedEntry(ino, ip, dp, name, d, k);
      }
      EnteredAt(ino[dp].ents, name, ip);
    } else {
      assert InodeOk(ino, ip);
      LinkedNames(ino, ip, dp, name, ip);
      assert !InodeOk(ino', ip);
    }
  }

  // ------------------------------------------------------------------------ unlink

  /** The table after unlink took out entry k of dp, before the last iput. */
  function Cut(ino: Table, dp: nat, k: nat): (r: Table)
    requires dp < |ino| && k < |ino[dp].ents| && ino[dp].ents[k].inum < |ino|
  {
    var t := ino[dp].ents[k].inum;
    var nlink := if ino[t].kind.Dir? then Down(ino[dp].nlink) else ino[dp].nlink;
    var ino1 := ino[dp := ino[dp].(ents := ino[dp].ents[k := Dirent(0, "")], nlink := nlink)];
    ino1[t := ino1[t].(nlink := Down(ino1[t].nlink))]
  }

  ghost predicate CanCut(ino: Table, dp: nat, k: nat)
  {
    && Inv(ino) && dp < |ino| && ino[dp].kind.Dir? && 2 <= k < |ino[dp].ents| && 0 < ino[dp].ents[k].inum < |ino|
    && (ino[ino[dp].ents[k].inum].kind.Dir? ==> Empty(ino[ino[dp].ents[k].inum].ents))
  }

  /** An entry to remove is in a linked directory, and its target has a link to lose: unlink
      cannot panic. */
  lemma CutFacts(ino: Table, dp: nat, k: nat)
    requires CanCut(ino, dp, k)
    ensures LinkedDir(ino, dp) && dp != 0 && DirOk(ino, dp)
    ensures var t := ino[dp].ents[k].inum;
      t < |ino| && !ino[t].kind.Free? && ino[t].nlink >= 1 && t != dp && t != ROOT && EntryOk(ino, dp, k)
        && Counts(ino, dp, k, t)
  {
    assert InodeOk(ino, dp);
    NamedLinked(ino, dp, k);
    assert EntryOk(ino, dp, k);
    EntryCounts(ino, dp, k);
  }

  lemma ParentNotEmpty(ino: Table, d: nat)
    requires Inv(ino) && LinkedDir(ino, d) && d != ROOT
    ensures |ino[d].ents| >= 2 && ino[d].ents[1].inum < |ino| && !Empty(ino[ino[d].ents[1].inum].ents)
  {
    assert InodeOk(ino, d);
    var e: nat, m: nat :| m >= 2 && Counts(ino, e, m, d);
    assert EntryOk(ino, e, m);
  }

  /** A directory without subdirectories is named once: no ".." but its own root's can name it. */
  lemma EmptyNamedOnce(ino: Table, dp: nat, k: nat, d: nat, j: nat)
    requires CanCut(ino, dp, k) && ino[ino[dp].ents[k].inum].kind.Dir?
    requires Counts(ino, d, j, ino[dp].ents[k].inum)
    ensures d == dp && j == k
  {
    CutFacts(ino, dp, k);
    var t := ino[dp].ents[k].inum;
    assert InodeOk(ino, d) && EntryOk(ino, d, j);
    if j == 1 && d != ROOT { ParentNotEmpty(ino, d); }
  }

  lemma CutDirNlink(ino: Table, dp: nat, k: nat)
    requires CanCut(ino, dp, k) && ino[ino[dp].ents[k].inum].kind.Dir?
    ensures ino[ino[dp].ents[k].inum].nlink == 1 && ino[dp].nlink >= 2
  {
    CutFacts(ino, dp, k);
    var t := ino[dp].ents[k].inum;
    assert InodeOk(ino, t) && InodeOk(ino, dp);
    forall p | p in Names(ino, t) ensures p == (dp, k) { EmptyNamedOnce(ino, dp, k, p.0, p.1); }
    assert (dp, k) in Names(ino, t);
    assert Names(ino, t) == {(dp, k)};
    assert Counts(ino, t, 1, dp) && (t, 1) in Names(ino, dp);
    var d: nat, j: nat := dp, 1;
    if dp != ROOT { d, j :| j >= 2 && Counts(ino, d, j, dp); }
    assert (d, j) in Names(ino, dp) && (d, j) != (t, 1);
    assert {(t, 1), (d, j)} <= Names(ino, dp);
    Two(Names(ino, dp), (t, 1), (d, j));
  }

  lemma Two<T>(s: set<T>, a: T, b: T)
    requires a in s && b in s && a != b
    ensures |s| >= 2
  {
    assert b in s - {a};
    assert |s - {a}| == |s| - 1;
  }

  lemma CutCounts(ino: Table, dp: nat, k: nat, d: nat, j: nat, x: nat)
    requires CanCut(ino, dp, k) && x != 0
    ensures var t := ino[dp].ents[k].inum;
      Counts(ino, d, j, x) <==>
        Counts(Cut(ino, dp, k), d, j, x) || (x == t && d == dp && j == k)
        || (ino[t].kind.Dir? && x == dp && d == t && j == 1)
    ensures var t := ino[dp].ents[k].inum;
      !((x == t && d == dp && j == k) || (ino[t].kind.Dir? && x == dp && d == t && j == 1))
        || !Counts(Cut(ino, dp, k), d, j, x)
  {
    CutFacts(ino, dp, k);
    var t := ino[dp].ents[k].inum;
    assert InodeOk(ino, t);
    if ino[t].kind.Dir? { CutDirNlink(ino, dp, k); }
    hide Inv, Names, InodeOk, HasParent, Sole;
  }

  lemma CutNames(ino: Table, dp: nat, k: nat, x: nat)
    requires CanCut(ino, dp, k) && x != 0
    ensures var t := ino[dp].ents[k].inum;
      |Names(ino, x)| == |Names(Cut(ino, dp, k), x)| + if x == t || (ino[t].kind.Dir? && x == dp) then 1 else 0
  {
    var ino', t := Cut(ino, dp, k), ino[dp].ents[k].inum;
    CutFacts(ino, dp, k);
    forall d: nat, j: nat
      ensures Counts(ino, d, j, x) <==>
        Counts(ino', d, j, x) || (x == t && d == dp && j == k) || (ino[t].kind.Dir? && x == dp && d == t && j == 1)
    {
      CutCounts(ino, dp, k, d, j, x);
    }
    if x == t { CutCounts(ino, dp, k, dp, k, x); }
    if x == dp { CutCounts(ino, dp, k, t, 1, x); }
    hide Cut, CanCut, Names, DirOk, EntryOk;
    if x == t { NamesPlus(ino', ino, x, dp, k); }
    else if ino[t].kind.Dir? && x == dp { NamesPlus(ino', ino, x, t, 1); }
    else { NamesSame(ino', ino, x); }
  }

  lemma CutInode(ino: Table, dp: nat, k: nat, x: nat)
    requires CanCut(ino, dp, k) && x < |ino|
    ensures AlmostOk(Cut(ino, dp, k), x) && (x != ino[dp].ents[k].inum ==> InodeOk(Cut(ino, dp, k), x))
  {
    var ino', t := Cut(ino, dp, k), ino[dp].ents[k].inum;
    CutFacts(ino, dp, k);
    assert InodeOk(ino, x) && InodeOk(ino, 0) && InodeOk(ino, dp);
    if x == 0 { return; }
    CutNames(ino, dp, k, x);
    if ino[t].kind.Dir? { CutDirNlink(ino, dp, k); }
    if x != t && ino[x].kind.Dir? && ino[x].nlink >= 1 && x != ROOT { CutParent(ino, dp, k, x); }
    hide CanCut, Names, HasParent, Counts, EntryOk;
  }

  lemma CutParent(ino: Table, dp: nat, k: nat, x: nat)
    requires CanCut(ino, dp, k) && 0 < x < |ino| && x != ino[dp].ents[k].inum && HasParent(ino, x)
    ensures HasParent(Cut(ino, dp, k), x)
  {
    var d: nat, j: nat :| j >= 2 && Counts(ino, d, j, x);
    CutCounts(ino, dp, k, d, j, x);
  }

  lemma CutEntry(ino: Table, dp: nat, k: nat, d: nat, j: nat)
    requires CanCut(ino, dp, k)
    requires var ino' := Cut(ino, dp, k); LinkedDir(ino', d) && 0 < j < |ino'[d].ents| && ino'[d].ents[j].inum != 0
    ensures EntryOk(Cut(ino, dp, k), d, j)
  {
    CutFacts(ino, dp, k);
    assert EntryOk(ino, d, j);
    hide Inv, Counts, CanCut, DirOk;
  }

  /** unlink keeps the link counts, without a condition on the directory; the target is freed
      exactly when it lost its last link and no one holds it. */
  lemma UnlinkKeeps(ino: Table, dp: nat, k: nat)
    requires CanCut(ino, dp, k)
    ensures Inv(Reaped(Cut(ino, dp, k), ino[dp].ents[k].inum))
  {
    CutFacts(ino, dp, k);
    var ino', t := Cut(ino, dp, k), ino[dp].ents[k].inum;
    forall x: nat | x < |ino'| ensures AlmostOk(ino', x) && (x != t ==> InodeOk(ino', x)) { CutInode(ino, dp, k, x); }
    forall d: nat, j: nat | LinkedDir(ino', d) && 0 < j < |ino'[d].ents| && ino'[d].ents[j].inum != 0
      ensures EntryOk(ino', d, j) {
      CutEntry(ino, dp, k, d, j);
    }
    if ino[t].kind.Dir? { CutDirNlink(ino, dp, k); }
    assert InvBut(ino', t);
    ReapKeeps(ino', t);
  }

  // ---------------------------------------------------------------- references

  /** A reference taken (open, chdir) or dropped (close). */
  function Held(ino: Table, i: nat): (r: Table)
    requires i < |ino|
  {
    ino[i := ino[i].(refs := ino[i].refs + 1)]
  }

  function Dropped(ino: Table, i: nat): (r: Table)
    requires i < |ino| && ino[i].refs > 0
  {
    Reaped(ino[i := ino[i].(refs := ino[i].refs - 1)], i)
  }

  lemma SameExceptRefs(ino: Table, i: nat, refs: nat)
    requires Inv(ino) && i < |ino| && !ino[i].kind.Free?
    ensures InvBut(ino[i := ino[i].(refs := refs)], i)
  {
    var ino' := ino[i := ino[i].(refs := refs)];
    forall x: nat | x < |ino'| ensures AlmostOk(ino', x) && (x != i ==> InodeOk(ino', x)) {
      assert InodeOk(ino, x);
      forall d: nat, k: nat ensures Counts(ino', d, k, x) <==> Counts(ino, d, k, x) {}
      NamesSame(ino, ino', x);
      if ino[x].kind.Dir? && ino[x].nlink >= 1 && x != ROOT { SameParent(ino, ino', x); }
    }
    forall d: nat, k: nat | LinkedDir(ino', d) && 0 < k < |ino'[d].ents| && ino'[d].ents[k].inum != 0
      ensures EntryOk(ino', d, k) {
      assert EntryOk(ino, d, k);
    }
  }

  lemma HoldKeeps(ino: Table, i: nat)
    requires Inv(ino) && i < |ino| && !ino[i].kind.Free?
    ensures Inv(Held(ino, i))
  {
    SameExceptRefs(ino, i, ino[i].refs + 1);
    ReapKeeps(Held(ino, i), i);
  }

  lemma DropKeeps(ino: Table, i: nat)
    requires Inv(ino) && i < |ino| && ino[i].refs > 0
    ensures Inv(Dropped(ino, i))
  {
    assert InodeOk(ino, i);
    SameExceptRefs(ino, i, ino[i].refs - 1);
    ReapKeeps(ino[i := ino[i].(refs := ino[i].refs - 1)], i);
  }

  // ------------------------------------------------------------------------ paths

  /** Where a path leads: an inode, nowhere, or into the "ilock: no type" panic. */
  datatype Walk = At(inum: nat) | Missing | NoType

  function Resolve(ino: Table, start: nat, path: seq<string>): (w: Walk)
    decreases |path|
  {
    if start >= |ino| || ino[start].kind.Free? then NoType
    else if path == [] then At(start)
    else if !ino[start].kind.Dir? then Missing
    else
      var k := Lookup(ino[start].ents, path[0], 0);
      if k == |ino[start].ents| then Missing else Resolve(ino, ino[start].ents[k].inum, path[1..])
  }

  function Parent(ino: Table, start: nat, path: seq<string>): (w: Walk)
  {
    if path == [] then Missing else
      var w := Resolve(ino, start, path[..|path| - 1]);
      if w.At? && w.inum < |ino| && !ino[w.inum].kind.Dir? then Missing else w
  }

  ghost predicate Linked(ino: Table, i: nat) { i < |ino| && !ino[i].kind.Free? && ino[i].nlink >= 1 }

  /** From a linked inode a path leads to linked inodes only: no lookup meets a freed inode. */
  lemma {:induction false} ResolveLinked(ino: Table, start: nat, path: seq<string>)
    requires Inv(ino) && Linked(ino, start)
    ensures var w := Resolve(ino, start, path); !w.NoType? && (w.At? ==> Linked(ino, w.inum))
    decreases |path|
  {
    if path != [] && ino[start].kind.Dir? {
      var k := Lookup(ino[start].ents, path[0], 0);
      if k < |ino[start].ents| {
        NamedLinked(ino, start, k);
        ResolveLinked(ino, ino[start].ents[k].inum, path[1..]);
      }
    }
  }

  /** Climbing n times to "..", through directories that have lost their last link, ends at a
      freed inode. */
  predicate FreeAbove(ino: Table, i: nat, n: nat)
    decreases n
  {
    if n == 0 then i >= |ino| || ino[i].kind.Free?
    else
      i < |ino| && ino[i].kind.Dir? && ino[i].nlink == 0 && |ino[i].ents| >= 2
      && FreeAbove(ino, ino[i].ents[1].inum, n - 1)
  }

  ghost predicate Dangles(ino: Table, i: nat) { exists n: nat :: FreeAbove(ino, i, n) }

  function Ups(n: nat): (path: seq<string>) { seq(n, k => "..") }

  /** What a directory without links still shows: itself and its "..". */
  lemma OnlyDots(ino: Table, d: nat, name: string)
    requires Inv(ino) && d < |ino| && ino[d].kind.Dir? && ino[d].nlink == 0
    ensures |ino[d].ents| >= 2
    ensures Lookup(ino[d].ents, name, 0) == if name == "." then 0 else if name == ".." then 1 else |ino[d].ents|
  {
    assert InodeOk(ino, d);
    var ents := ino[d].ents;
    var k := Lookup(ents, name, 0);
    assert ents[0].inum == d && ents[0].name == "." && ents[1].name == "..";
    if name == "." { assert Match(ents, 0, name); }
    if name == ".." { assert Match(ents, 1, name) && !Match(ents, 0, name); }
    if k < |ents| { assert Match(ents, k, name) && k < 2; }
  }

  lemma {:induction false} UpsDangle(ino: Table, i: nat, n: nat)
    requires Inv(ino) && FreeAbove(ino, i, n)
    ensures Resolve(ino, i, Ups(n)).NoType?
    decreases n
  {
    if n > 0 {
      OnlyDots(ino, i, "..");
      assert Ups(n)[0] == ".." && Ups(n)[1..] == Ups(n - 1);
      UpsDangle(ino, ino[i].ents[1].inum, n - 1);
    }
  }

  lemma {:induction false} DanglesFrom(ino: Table, i: nat, path: seq<string>)
    requires Inv(ino) && Resolve(ino, i, path).NoType?
    ensures Dangles(ino, i)
    decreases |path|
  {
    if i >= |ino| || ino[i].kind.Free? {
      assert FreeAbove(ino, i, 0);
    } else {
      assert InodeOk(ino, i);
      if ino[i].nlink >= 1 {
        ResolveLinked(ino, i, path);
        assert false;
      }
      OnlyDots(ino, i, path[0]);
      DanglesFrom(ino, ino[i].ents[Lookup(ino[i].ents, path[0], 0)].inum, path[1..]);
      if path[0] == ".." {
        var n: nat :| FreeAbove(ino, ino[i].ents[1].inum, n);
        assert FreeAbove(ino, i, n + 1);
      }
    }
  }

  /** Some path from an inode runs into the panic exactly when the chain of ".." through
      unlinked directories above it ends at a freed inode. */
  lemma PanicsExactly(ino: Table, i: nat)
    requires Inv(ino)
    ensures (exists path :: Resolve(ino, i, path).NoType?) <==> Dangles(ino, i)
  {
    if Dangles(ino, i) {
      var n: nat :| FreeAbove(ino, i, n);
      UpsDangle(ino, i, n);
    }
    forall path | Resolve(ino, i, path).NoType? ensures Dangles(ino, i) { DanglesFrom(ino, i, path); }
  }

  lemma {:induction false} ResolveOn(ino: Table, i: nat, path: seq<string>, more: seq<string>)
    requires Resolve(ino, i, path).At?
    ensures Resolve(ino, i, path + more) == Resolve(ino, Resolve(ino, i, path).inum, more)
    decreases |path|
  {
    if path == [] {
      assert path + more == more;
    } else {
      assert (path + more)[1..] == path[1..] + more;
      ResolveOn(ino, ino[i].ents[Lookup(ino[i].ents, path[0], 0)].inum, path[1..], more);
    }
  }

  lemma {:induction false} ResolveAllocated(ino: Table, i: nat, path: seq<string>)
    ensures var w := Resolve(ino, i, path); w.At? ==> w.inum < |ino| && !ino[w.inum].kind.Free?
    decreases |path|
  {
    if i < |ino| && path != [] && ino[i].kind.Dir? {
      var k := Lookup(ino[i].ents, path[0], 0);
      if k < |ino[i].ents| { ResolveAllocated(ino, ino[i].ents[k].inum, path[1..]); }
    }
  }

  // -------------------------------------------------------------------- whole calls

  /** Full: out of inodes or directory space. Broken: a panic over the table's own state. */
  datatype Outcome = Done(ino: Table) | Refused | Full | Broken

  function FreeInode(ino: Table, from: nat): (i: nat)
    requires from <= |ino|
    ensures from <= i <= |ino| && (i < |ino| ==> ino[i].kind.Free?)
    ensures forall j: nat :: from <= j < i ==> !ino[j].kind.Free?
    decreases |ino| - from
  {
    if from == |ino| || ino[from].kind.Free? then from else FreeInode(ino, from + 1)
  }

  predicate NoSpace(ents: seq<Dirent>) { Slot(ents, 0) == |ents| && |ents| >= MAX_ENTS }

  function CreateIn(ino: Table, dp: nat, name: string, kind: Kind): (r: Outcome)
    requires |ino| > 1 && dp < |ino|
  {
    var ents := ino[dp].ents;
    var k := Lookup(ents, name, 0);
    if k < |ents| then
      if ents[k].inum >= |ino| || ino[ents[k].inum].kind.Free? then Broken
      else if kind.File? && !ino[ents[k].inum].kind.Dir? then Done(Held(ino, ents[k].inum)) else Refused
    else
      var i := FreeInode(ino, 1);
      if i == |ino| || NoSpace(ents) then Full else Done(Created(ino, dp, name, kind, i))
  }

  function LinkIn(ino: Table, ip: nat, dp: Walk, name: string): (r: Outcome)
    requires ip < |ino| && (dp.At? ==> dp.inum < |ino|)
  {
    if ino[ip].kind.Dir? || dp.Missing? then Refused
    else if dp.NoType? then Broken
    else
      var ents := ino[dp.inum].ents;
      if Lookup(ents, name, 0) < |ents| then Refused
      else if NoSpace(ents) then Full else Done(LinkedTo(ino, ip, dp.inum, name))
  }

  function UnlinkIn(ino: Table, dp: nat, name: string): (r: Outcome)
    requires dp < |ino|
  {
    var ents := ino[dp].ents;
    var k := Lookup(ents, name, 0);
    if IsDot(name) || k == |ents| then Refused
    else if ents[k].inum >= |ino| || ino[ents[k].inum].kind.Free? || ino[ents[k].inum].nlink < 1 then Broken
    else if ino[ents[k].inum].kind.Dir? && !Empty(ino[ents[k].inum].ents) then Refused
    else Done(Reaped(Cut(ino, dp, k), ents[k].inum))
  }

  /** create makes a new inode only where its parent's count allows; it panics over the table
      only at a ".." that dangles. */
  lemma {:induction false} CreateInKeeps(ino: Table, dp: nat, name: string, kind: Kind)
    requires Inv(ino) && dp < |ino| && ino[dp].kind.Dir? && !kind.Free?
    ensures var r := CreateIn(ino, dp, name, kind);
      r.Done? ==> |r.ino| == |ino| && (Inv(r.ino) <==> Exists(ino, dp, name) || CreateFits(ino, dp, kind))
    ensures CreateIn(ino, dp, name, kind).Broken? ==> Resolve(ino, dp, [name]).NoType?
  {
    var k := Lookup(ino[dp].ents, name, 0);
    if k < |ino[dp].ents| {
      var t := ino[dp].ents[k].inum;
      if t < |ino| && !ino[t].kind.Free? { HoldKeeps(ino, t); }
    } else if FreeInode(ino, 1) < |ino| {
      CreateKeeps(ino, dp, name, kind, FreeInode(ino, 1));
    }
  }

  predicate Exists(ino: Table, dp: nat, name: string)
    requires dp < |ino|
  {
    Lookup(ino[dp].ents, name, 0) < |ino[dp].ents|
  }

  lemma LinkInKeeps(ino: Table, ip: nat, dp: Walk, name: string)
    requires Inv(ino) && 0 < ip < |ino| && !ino[ip].kind.Free? && (dp.At? ==> dp.inum < |ino| && ino[dp.inum].kind.Dir?)
    ensures var r := LinkIn(ino, ip, dp, name);
      r.Done? ==> |r.ino| == |ino| && (Inv(r.ino) <==> ino[dp.inum].nlink >= 1 && ino[ip].nlink < 32767)
    ensures LinkIn(ino, ip, dp, name).Broken? ==> dp.NoType?
  {
    if LinkIn(ino, ip, dp, name).Done? { LinkKeeps(ino, ip, dp.inum, name); }
  }

  lemma UnlinkInKeeps(ino: Table, dp: nat, name: string)
    requires Inv(ino) && dp < |ino| && ino[dp].kind.Dir?
    ensures var r := UnlinkIn(ino, dp, name); !r.Broken? && (r.Done? ==> Inv(r.ino) && |r.ino| == |ino|)
  {
    var ents := ino[dp].ents;
    var k := Lookup(ents, name, 0);
    assert InodeOk(ino, dp);
    if k < |ents| && !IsDot(name) {
      assert k >= 2;
      NamedLinked(ino, dp, k);
      if UnlinkIn(ino, dp, name).Done? { UnlinkKeeps(ino, dp, k); }
    }
  }

  // -------------------------------------------------------------------------- runs

  /** A call, with the inode each of its paths starts from: the root or the current directory. */
  datatype Op =
    | Create(start: nat, path: seq<string>, kind: Kind)
    | Link(start: nat, path: seq<string>, start2: nat, path2: seq<string>)
    | Unlink(start: nat, path: seq<string>)
    | Open(start: nat, path: seq<string>)
    | Close(inum: nat)

  function Apply(ino: Table, op: Op): (r: Outcome)
    requires |ino| > 1
  {
    match op
    case Create(start, path, kind) =>
      var d := Parent(ino, start, path);
      if d.Missing? then Refused else if d.NoType? || d.inum >= |ino| then Broken
        else CreateIn(ino, d.inum, path[|path| - 1], kind)
    case Link(start, path, start2, path2) =>
      var w := Resolve(ino, start, path);
      if w.Missing? || path2 == [] then Refused else if w.NoType? || w.inum >= |ino| then Broken else
        var d := Parent(ino, start2, path2);
        if d.At? && d.inum >= |ino| then Broken else LinkIn(ino, w.inum, d, path2[|path2| - 1])
    case Unlink(start, path) =>
      var d := Parent(ino, start, path);
      if d.Missing? then Refused else if d.NoType? || d.inum >= |ino| then Broken
        else UnlinkIn(ino, d.inum, path[|path| - 1])
    case Open(start, path) =>
      var w := Resolve(ino, start, path);
      if w.Missing? then Refused else if w.NoType? || w.inum >= |ino| then Broken else Done(Held(ino, w.inum))
    case Close(i) =>
      if i < |ino| && ino[i].refs > 0 then Done(Dropped(ino, i)) else Refused
  }

  /** The guard a call must meet to keep the link counts: a new entry goes into a directory
      that is itself linked, and a count that goes up is below the top of a short. */
  ghost predicate Guard(ino: Table, op: Op)
  {
    match op
    case Create(start, path, kind) =>
      var d := Parent(ino, start, path);
      d.At? && d.inum < |ino| && !Exists(ino, d.inum, path[|path| - 1]) ==> CreateFits(ino, d.inum, kind)
    case Link(start, path, start2, path2) =>
      var w, d := Resolve(ino, start, path), Parent(ino, start2, path2);
      w.At? && d.At? && w.inum < |ino| && d.inum < |ino| ==> ino[d.inum].nlink >= 1 && ino[w.inum].nlink < 32767
    case _ => true
  }

  /** The paths of a call start at allocated inodes. */
  ghost predicate Starts(ino: Table, op: Op)
  {
    && (!op.Close? ==> op.start < |ino| && !ino[op.start].kind.Free?) && (op.Create? ==> !op.kind.Free?)
    && (op.Link? ==> op.start2 < |ino| && !ino[op.start2].kind.Free?)
  }

  /** Where no path of the call can run into the panic. */
  ghost predicate Safe(ino: Table, op: Op)
  {
    (!op.Close? ==> !Dangles(ino, op.start)) && (op.Link? ==> !Dangles(ino, op.start2))
  }

  lemma ParentDir(ino: Table, start: nat, path: seq<string>)
    requires Inv(ino)
    ensures var w := Parent(ino, start, path); w.At? ==> path != [] && w.inum < |ino| && ino[w.inum].kind.Dir?
    ensures Parent(ino, start, path).NoType? ==> Dangles(ino, start)
  {
    if path != [] {
      ResolveAllocated(ino, start, path[..|path| - 1]);
      if Resolve(ino, start, path[..|path| - 1]).NoType? { DanglesFrom(ino, start, path[..|path| - 1]); }
    }
  }

  lemma ParentName(ino: Table, start: nat, path: seq<string>)
    requires Inv(ino) && Parent(ino, start, path).At? && Resolve(ino, Parent(ino, start, path).inum,
      [path[|path| - 1]]).NoType?
    ensures Dangles(ino, start)
  {
    var n := |path| - 1;
    ResolveOn(ino, start, path[..n], [path[n]]);
    assert path[..n] + [path[n]] == path;
    DanglesFrom(ino, start, path);
  }

  /** A call keeps every link count exactly when it meets its guard, and panics over the table
      only from a start that dangles. */
  lemma ApplyExact(ino: Table, op: Op)
    requires Inv(ino) && Starts(ino, op)
    ensures var r := Apply(ino, op); r.Done? ==> |r.ino| == |ino| && (Guard(ino, op) ==> Inv(r.ino))
    ensures var r := Apply(ino, op); r.Done? && Inv(r.ino) ==> Guard(ino, op)
    ensures Apply(ino, op).Broken? ==> !Safe(ino, op)
  {
    hide Inv, InodeOk, Dangles, CreateFits, Lookup;
    match op
    case Create(start, path, kind) => ApplyCreate(ino, start, path, kind);
    case Link(start, path, start2, path2) => ApplyLink(ino, start, path, start2, path2);
    case Unlink(start, path) =>
      ParentDir(ino, start, path);
      var d := Parent(ino, start, path);
      if d.At? { UnlinkInKeeps(ino, d.inum, path[|path| - 1]); }
    case Open(start, path) =>
      ResolveAllocated(ino, start, path);
      var w := Resolve(ino, start, path);
      if w.At? { HoldKeeps(ino, w.inum); } else if w.NoType? { DanglesFrom(ino, start, path); }
    case Close(i) =>
      if i < |ino| && ino[i].refs > 0 { DropKeeps(ino, i); }
  }

  lemma ApplyCreate(ino: Table, start: nat, path: seq<string>, kind: Kind)
    requires Inv(ino) && !kind.Free?
    ensures |ino| > 1
    ensures var r := Apply(ino, Create(start, path, kind));
      && (r.Done? ==> |r.ino| == |ino| && (Inv(r.ino) <==> Guard(ino, Create(start, path, kind))))
      && (r.Broken? ==> Dangles(ino, start))
  {
    assert |ino| > 1;
    hide Inv, Dangles, CreateFits, Lookup;
    ParentDir(ino, start, path);
    var d := Parent(ino, start, path);
    if d.At? {
      CreateInKeeps(ino, d.inum, path[|path| - 1], kind);
      if CreateIn(ino, d.inum, path[|path| - 1], kind).Broken? { ParentName(ino, start, path); }
    }
  }

  lemma ApplyLink(ino: Table, start: nat, path: seq<string>, start2: nat, path2: seq<string>)
    requires Inv(ino)
    ensures |ino| > 1
    ensures var r := Apply(ino, Link(start, path, start2, path2));
      && (r.Done? ==> |r.ino| == |ino| && (Inv(r.ino) <==> Guard(ino, Link(start, path, start2, path2))))
      && (r.Broken? ==> Dangles(ino, start) || Dangles(ino, start2))
  {
    assert |ino| > 1 && ino[0].kind.Free?;
    hide Inv, Dangles, Lookup;
    ResolveAllocated(ino, start, path);
    ParentDir(ino, start2, path2);
    var w, d := Resolve(ino, start, path), Parent(ino, start2, path2);
    if w.At? && path2 != [] { LinkInKeeps(ino, w.inum, d, path2[|path2| - 1]); }
    if w.NoType? { DanglesFrom(ino, start, path); }
  }

  /** A run of calls; one that is refused changes nothing. */
  ghost predicate Run(tables: seq<Table>, ops: seq<Op>)
  {
    && |tables| == |ops| + 1 && (forall n: nat :: n < |tables| ==> |tables[n]| > 1)
    && (forall n: nat ::
      n < |ops| ==> Starts(tables[n], ops[n]) && Guard(tables[n], ops[n]) && Took(tables[n], ops[n], tables[n + 1]))
  }

  ghost predicate Took(ino: Table, op: Op, ino': Table)
    requires |ino| > 1
  {
    var r := Apply(ino, op);
    (r.Done? && ino' == r.ino) || (r.Refused? && ino' == ino)
  }

  /** In every run whose calls meet their guards, every allocated inode's link count is the
      number of its names, and a call panics over the table only from a start that dangles. */
  lemma {:induction false} RunKeeps(tables: seq<Table>, ops: seq<Op>, n: nat)
    requires Run(tables, ops) && Inv(tables[0]) && n < |tables|
    ensures Inv(tables[n]) && (n < |ops| && Safe(tables[n], ops[n]) ==> !Apply(tables[n], ops[n]).Broken?)
  {
    hide Guard, Inv, Starts;
    if n > 0 {
      RunKeeps(tables, ops, n - 1);
      assert Took(tables[n - 1], ops[n - 1], tables[n]);
      ApplyExact(tables[n - 1], ops[n - 1]);
    }
    if n < |ops| {
      assert Starts(tables[n], ops[n]);
      ApplyExact(tables[n], ops[n]);
    }
  }

  /** A start that is linked never dangles. */
  lemma LinkedIsSafe(ino: Table, i: nat)
    requires Inv(ino) && Linked(ino, i)
    ensures !Dangles(ino, i)
  {
    forall path ensures !Resolve(ino, i, path).NoType? { ResolveLinked(ino, i, path); }
    PanicsExactly(ino, i);
  }

  // ------------------------------------------------------------- mkfs, and a removed directory

  const NO_ENT := Dirent(0, "")

  function NoEnts(n: nat): (ents: seq<Dirent>) { seq(n, j => NO_ENT) }

  /** What mkfs makes: the root directory and a file for each name. The root's size goes up to
      the next block, 64 entries each, even from the end of one. */
  function MkfsTable(names: seq<string>, n: nat): (ino: Table)
    requires |names| + 2 <= n
  {
    var used := [Dirent(ROOT, "."), Dirent(ROOT, "..")]
      + seq(|names|, j requires 0 <= j < |names| => Dirent(j + 2, names[j]));
    var root := used + NoEnts(64 - |used| % 64);
    seq(n, i => if i == ROOT then Inode(Dir, 1, root, 0) else if 2 <= i < |names| + 2 then Inode(File, 1, [], 0)
      else Inode(Free, 0, [], 0))
  }

  lemma MkfsNames(names: seq<string>, n: nat, i: nat)
    requires |names| + 2 <= n && 0 < i < |names| + 2 && forall j: nat :: j < |names| ==> !IsDot(names[j])
    ensures Names(MkfsTable(names, n), i) == {(ROOT, i)}
  {
    var ino := MkfsTable(names, n);
    forall d: nat, k: nat ensures Counts(ino, d, k, i) <==> d == ROOT && k == i {}
    assert (ROOT, i) in Names(ino, i);
  }

  lemma MkfsInv(names: seq<string>, n: nat)
    requires |names| + 2 <= n && (forall j: nat :: j < |names| ==> !IsDot(names[j]))
      && forall j: nat, k: nat :: j < k < |names| ==> names[j] != names[k]
    ensures Inv(MkfsTable(names, n))
  {
    var ino := MkfsTable(names, n);
    forall i: nat | i < |ino| ensures InodeOk(ino, i) {
      if 0 < i < |names| + 2 { MkfsNames(names, n, i); }
    }
    forall d: nat, k: nat | LinkedDir(ino, d) && 0 < k < |ino[d].ents| && ino[d].ents[k].inum != 0
      ensures EntryOk(ino, d, k) {}
  }

  const UNUSED := Inode(Free, 0, [], 0)

  function Dots(i: nat, up: nat): (ents: seq<Dirent>) { [Dirent(i, "."), Dirent(up, "..")] }

  /** Four inodes: the root with one entry, and the next two. */
  function Stage(nlink: int, ent: Dirent, a: Inode, b: Inode): (ino: Table)
  {
    [UNUSED, Inode(Dir, nlink, Dots(ROOT, ROOT) + [ent] + NoEnts(61), 0), a, b]
  }

  const ENT_A := Dirent(2, "a")
  const ENT_B := Dirent(3, "b")

  /** mkdir a; mkdir a/b; cd a/b; then a/b and a are removed. */
  ghost function RemovalOps(): (ops: seq<Op>)
  {
    [Create(ROOT, ["a"], Dir), Close(2), Create(ROOT, ["a", "b"], Dir), Close(3), Open(ROOT, ["a", "b"]),
      Unlink(ROOT, ["a", "b"]), Unlink(ROOT, ["a"])]
  }

  ghost function RemovalTables(): (tables: seq<Table>)
  {
    var full := Inode(Dir, 2, Dots(2, ROOT) + [ENT_B], 0);
    [Stage(1, NO_ENT, UNUSED, UNUSED),
      Stage(2, ENT_A, Inode(Dir, 1, Dots(2, ROOT), 1), UNUSED),
      Stage(2, ENT_A, Inode(Dir, 1, Dots(2, ROOT), 0), UNUSED),
      Stage(2, ENT_A, full, Inode(Dir, 1, Dots(3, 2), 1)),
      Stage(2, ENT_A, full, Inode(Dir, 1, Dots(3, 2), 0)),
      Stage(2, ENT_A, full, Inode(Dir, 1, Dots(3, 2), 1)),
      Stage(2, ENT_A, Inode(Dir, 1, Dots(2, ROOT) + [NO_ENT], 0), Inode(Dir, 0, Dots(3, 2), 1)),
      Stage(1, NO_ENT, UNUSED, Inode(Dir, 0, Dots(3, 2), 1))]
  }

  /** The condition on starting directories is needed: a process that stays in a directory that
      was removed, and whose parent was then removed too, runs into a freed inode at "..". */
  lemma RemovedParent() returns (tables: seq<Table>, ops: seq<Op>)
    ensures Run(tables, ops) && tables[0] == MkfsTable([], 4)
    ensures var ino := tables[|ops|];
      Inv(ino) && 3 < |ino| && ino[3].kind.Dir? && ino[3].refs > 0 && Apply(ino, Open(3, [".."])).Broken?
  {
    hide Inv, Starts, Guard, Apply, Stage, NoEnts, Took;
    tables, ops := RemovalTables(), RemovalOps();
    RemovalRuns();
    MkfsStage();
    MkfsInv([], 4);
    RunKeeps(tables, ops, |ops|);
    LastTable();
  }

  ghost predicate Goes(ino: Table, op: Op, ino': Table)
  {
    |ino| > 1 && Starts(ino, op) && Guard(ino, op) && Apply(ino, op) == Done(ino')
  }

  lemma RemovalRuns()
    ensures Run(RemovalTables(), RemovalOps())
  {
    hide Starts, Guard, Apply, Stage;
    var t: seq<Table>, ops := RemovalTables(), RemovalOps();
    MakesA();
    MakesB();
    OpensB();
    RemovesB();
    RemovesA();
    forall n: nat | n < |ops| ensures Starts(t[n], ops[n]) && Guard(t[n], ops[n]) && Took(t[n], ops[n], t[n + 1]) {
      assert Goes(t[n], ops[n], t[n + 1]);
    }
    forall n: nat | n < |t| ensures |t[n]| > 1 {
      if n < |ops| {
        assert Goes(t[n], ops[n], t[n + 1]);
      } else {
        StageSize(1, NO_ENT, UNUSED, Inode(Dir, 0, Dots(3, 2), 1));
      }
    }
  }

  lemma StageSize(nlink: int, ent: Dirent, a: Inode, b: Inode)
    ensures |Stage(nlink, ent, a, b)| == 4
  {}

  lemma MakesA()
    ensures var t, ops := RemovalTables(), RemovalOps(); Goes(t[0], ops[0], t[1]) && Goes(t[1], ops[1], t[2])
  {
    var t: seq<Table> := RemovalTables();
    var ents := t[0][1].ents;
    assert ents[0].inum != 0 && ents[1].inum != 0 && ents[2].inum == 0;
    assert Slot(ents, 0) == 2;
    assert Entered(ents, "a", 2) == t[1][1].ents;
    MakeGoes(t[0], ROOT, ["a"], ROOT, "a", 2, t[1]);
  }

  lemma MakesB()
    ensures var t, ops := RemovalTables(), RemovalOps(); Goes(t[2], ops[2], t[3]) && Goes(t[3], ops[3], t[4])
  {
    var t: seq<Table> := RemovalTables();
    FindA(t[2]);
    var ents := t[2][2].ents;
    assert Slot(ents, 0) == 2;
    assert Entered(ents, "b", 3) == t[3][2].ents;
    assert !t[2][1].kind.Free? && !t[2][2].kind.Free? && t[2][3].kind.Free?;
    assert FreeInode(t[2], 1) == 3;
    MakeGoes(t[2], ROOT, ["a", "b"], 2, "b", 3, t[3]);
  }

  lemma OpensB()
    ensures var t, ops := RemovalTables(), RemovalOps(); Goes(t[4], ops[4], t[5])
  {
    FindB(RemovalTables()[4]);
  }

  lemma RemovesB()
    ensures var t, ops := RemovalTables(), RemovalOps(); Goes(t[5], ops[5], t[6])
  {
    var t: seq<Table> := RemovalTables();
    FindB(t[5]);
    assert t[5][2].ents[2 := NO_ENT] == t[6][2].ents;
    assert Cut(t[5], 2, 2) == t[6];
    assert Empty(t[5][3].ents);
  }

  lemma RemovesA()
    ensures var t, ops := RemovalTables(), RemovalOps(); Goes(t[6], ops[6], t[7])
  {
    var t: seq<Table> := RemovalTables();
    FindA(t[6]);
    assert t[6][1].ents[2 := NO_ENT] == t[7][1].ents;
    assert Reaped(Cut(t[6], ROOT, 2), 2) == t[7];
    assert Parent(t[6], ROOT, ["a"]) == At(ROOT) by { assert ["a"][..0] == []; }
    assert Empty(t[6][2].ents);
  }

  lemma MakeGoes(ino: Table, start: nat, path: seq<string>, dp: nat, name: string, i: nat, ino': Table)
    requires |ino| == 4 && path != [] && name == path[|path| - 1] && Parent(ino, start, path) == At(dp) && dp < 4
      && start < 4 && !ino[start].kind.Free?
    requires !IsDot(name) && i == FreeInode(ino, 1) < 4 && 1 <= ino[dp].nlink < 100
      && (forall k: nat :: 2 <= k < |ino[dp].ents| ==> ino[dp].ents[k].inum == 0) && |ino[dp].ents| < MAX_ENTS
      && |ino[dp].ents| >= 2 && IsDot(ino[dp].ents[0].name) && IsDot(ino[dp].ents[1].name)
    requires Created(ino, dp, name, Dir, i) == ino'
    ensures Goes(ino, Create(start, path, Dir), ino')
  {
    assert forall k: nat :: k < |ino[dp].ents| ==> !Match(ino[dp].ents, k, name);
  }

  lemma FindA(ino: Table)
    requires |ino| == 4 && ino[1].kind.Dir? && ino[1].ents == Dots(ROOT, ROOT) + [ENT_A] + NoEnts(61)
      && ino[2].kind.Dir?
    ensures Lookup(ino[1].ents, "a", 0) == 2 && Resolve(ino, ROOT, ["a"]) == At(2)
    ensures Parent(ino, ROOT, ["a", "b"]) == At(2)
  {
    var ents := ino[1].ents;
    assert !Match(ents, 0, "a") && !Match(ents, 1, "a") && Match(ents, 2, "a");
    assert ["a"][1..] == [] && ["a", "b"][..1] == ["a"];
  }

  lemma FindB(ino: Table)
    requires |ino| == 4 && ino[1].kind.Dir? && ino[1].ents == Dots(ROOT, ROOT) + [ENT_A] + NoEnts(61)
      && ino[2].kind.Dir? && ino[2].ents == Dots(2, ROOT) + [ENT_B] && ino[3].kind.Dir?
    ensures Lookup(ino[2].ents, "b", 0) == 2 && Resolve(ino, ROOT, ["a", "b"]) == At(3)
    ensures Parent(ino, ROOT, ["a", "b"]) == At(2)
  {
    FindA(ino);
    var ents := ino[2].ents;
    assert !Match(ents, 0, "b") && !Match(ents, 1, "b") && Match(ents, 2, "b");
    assert Resolve(ino, 2, ["b"]) == At(3) by { assert ["b"][1..] == []; }
    assert ["a", "b"][1..] == ["b"];
  }

  lemma MkfsStage()
    ensures MkfsTable([], 4) == Stage(1, NO_ENT, UNUSED, UNUSED)
  {
    assert MkfsTable([], 4)[1].ents == Dots(ROOT, ROOT) + [NO_ENT] + NoEnts(61);
  }

  lemma LastTable()
    ensures var ino := RemovalTables()[7];
      |ino| == 4 && ino[3].kind.Dir? && ino[3].refs > 0 && Apply(ino, Open(3, [".."])).Broken?
  {
    var ino: Table := RemovalTables()[7];
    var ents := ino[3].ents;
    assert !Match(ents, 0, "..") && Match(ents, 1, "..");
    assert Resolve(ino, 3, [".."]) == NoType;
  }

  // --------------------------------------------------------- the code, step by step

  datatype Status = Success | Failure | NoRoom | Panic

  /** What a call reports and leaves, against its outcome on values. A panic stops the machine. */
  ghost predicate Agrees(status: Status, was: Table, now: Table, r: Outcome)
  {
    match r
    case Done(ino) => status.Success? && now == ino
    case Refused => status.Failure? && now == was
    case Full => status.NoRoom?
    case Broken => status.Panic?
  }

  lemma NothingReaped(ino: Table, i: nat)
    requires Inv(ino) && i < |ino|
    ensures Reaped(ino, i) == ino
  {
    assert InodeOk(ino, i);
  }

  class Inodes {
    var ino: Table

    constructor (names: seq<string>, n: nat)
      requires |names| + 2 <= n && (forall j: nat :: j < |names| ==> !IsDot(names[j]))
        && forall j: nat, k: nat :: j < k < |names| ==> names[j] != names[k]
      ensures ino == MkfsTable(names, n) && Inv(ino)
    {
      ino := MkfsTable(names, n);
      MkfsInv(names, n);
    }

    method DirLookup(d: nat, name: string) returns (k: nat)
      requires d < |ino|
      ensures k == Lookup(ino[d].ents, name, 0)
    {
      k := 0;
      while k < |ino[d].ents| && !(ino[d].ents[k].inum != 0 && ino[d].ents[k].name == name)
        invariant k <= |ino[d].ents| && Lookup(ino[d].ents, name, 0) == Lookup(ino[d].ents, name, k)
      {
        k := k + 1;
      }
    }

    /** Fails on a name already there; a full directory is a panic. */
    method DirLink(d: nat, name: string, inum: nat) returns (status: Status)
      requires d < |ino|
      modifies this
      ensures var ents := old(ino)[d].ents;
        if Lookup(ents, name, 0) < |ents| then status.Failure? && ino == old(ino)
        else if NoSpace(ents) then status.NoRoom?
        else status.Success? && ino == old(ino)[d := old(ino)[d].(ents := Entered(ents, name, inum))]
    {
      var k := DirLookup(d, name);
      if k < |ino[d].ents| { return Failure; }
      var off: nat := 0;
      while off < |ino[d].ents| && ino[d].ents[off].inum != 0
        invariant off <= |ino[d].ents| && Slot(ino[d].ents, 0) == Slot(ino[d].ents, off)
      {
        off := off + 1;
      }
      var ents := ino[d].ents;
      if off < |ents| {
        ents := ents[off := Dirent(inum, name)];
      } else if off < MAX_ENTS {
        ents := ents + [Dirent(inum, name)];
      } else {
        return NoRoom;
      }
      ino := ino[d := ino[d].(ents := ents)];
      return Success;
    }

    method IsDirEmpty(d: nat) returns (r: bool)
      requires d < |ino|
      ensures r == Empty(ino[d].ents)
    {
      var off: nat := 2;
      while off < |ino[d].ents|
        invariant forall k: nat :: 2 <= k < off && k < |ino[d].ents| ==> ino[d].ents[k].inum == 0
      {
        if ino[d].ents[off].inum != 0 { return false; }
        off := off + 1;
      }
      return true;
    }

    method FindFree() returns (i: nat)
      requires |ino| > 1
      ensures i == FreeInode(ino, 1)
    {
      i := 1;
      while i < |ino| && !ino[i].kind.Free?
        invariant 1 <= i <= |ino| && FreeInode(ino, 1) == FreeInode(ino, i)
      {
        i := i + 1;
      }
    }

    /** iput of the last reference of this call. */
    method Iput(i: nat)
      requires i < |ino|
      modifies this
      ensures ino == Reaped(old(ino), i)
    {
      if ino[i].refs == 0 && ino[i].nlink == 0 && !ino[i].kind.Free? {
        ino := ino[i := ino[i].(kind := Free, ents := [])];
      }
    }

    method Namex(start: nat, path: seq<string>) returns (w: Walk)
      ensures w == Resolve(ino, start, path)
    {
      var ip: nat, n: nat := start, 0;
      while n < |path|
        invariant n <= |path| && Resolve(ino, start, path) == Resolve(ino, ip, path[n..])
        decreases |path| - n
      {
        if ip >= |ino| || ino[ip].kind.Free? { return NoType; }
        if !ino[ip].kind.Dir? { return Missing; }
        assert path[n..][0] == path[n] && path[n..][1..] == path[n + 1..];
        var k := DirLookup(ip, path[n]);
        if k == |ino[ip].ents| { return Missing; }
        ip, n := ino[ip].ents[k].inum, n + 1;
      }
      assert path[n..] == [];
      if ip >= |ino| || ino[ip].kind.Free? { return NoType; }
      return At(ip);
    }

    /** create, once the parent is found. */
    method Create(dp: nat, name: string, kind: Kind) returns (status: Status)
      requires Inv(ino) && dp < |ino| && ino[dp].kind.Dir? && !kind.Free?
      modifies this
      ensures Agrees(status, old(ino), ino, CreateIn(old(ino), dp, name, kind))
    {
      var was := ino;
      var k := DirLookup(dp, name);
      if k < |ino[dp].ents| {
        var t := ino[dp].ents[k].inum;
        if t >= |ino| || ino[t].kind.Free? { return Panic; }
        if kind.File? && !ino[t].kind.Dir? {
          ino := ino[t := ino[t].(refs := ino[t].refs + 1)];
          return Success;
        }
        NothingReaped(ino, t);
        Iput(t);
        return Failure;
      }
      var i := FindFree();
      if i == |ino| { return NoRoom; }
      CreateFacts(ino, dp, name, kind, i);
      ino := ino[i := Inode(kind, 1, [], 1)];
      if kind.Dir? {
        ino := ino[dp := ino[dp].(nlink := Up(ino[dp].nlink))];
        Dots(i, dp);
      }
      status := DirLink(dp, name, i);
      assert status.Success? ==> ino == Created(was, dp, name, kind, i);
    }

    /** The entries a new directory starts with. */
    method Dots(i: nat, dp: nat)
      requires i < |ino| && ino[i].ents == [] && i != 0
      modifies this
      ensures ino == old(ino)[i := old(ino)[i].(ents := [Dirent(i, "."), Dirent(dp, "..")])]
    {
      var s1 := DirLink(i, ".", i);
      assert ino[i].ents == [Dirent(i, ".")];
      assert !Match(ino[i].ents, 0, "..") && Slot(ino[i].ents, 0) == 1;
      var s2 := DirLink(i, "..", dp);
      assert ino[i].ents == [Dirent(i, "."), Dirent(dp, "..")];
    }

    /** link, once both paths were followed: the count goes up first and back down when the
        new name cannot be made. */
    method Link(ip: nat, dp: Walk, name: string) returns (status: Status)
      requires Inv(ino) && ip < |ino| && !ino[ip].kind.Free? && (dp.At? ==> dp.inum < |ino| && ino[dp.inum].kind.Dir?)
      modifies this
      ensures Agrees(status, old(ino), ino, LinkIn(old(ino), ip, dp, name))
    {
      var was := ino;
      NothingReaped(was, ip);
      if ino[ip].kind.Dir? {
        Iput(ip);
        return Failure;
      }
      ino := ino[ip := ino[ip].(nlink := Up(ino[ip].nlink))];
      if dp.NoType? { return Panic; }
      if dp.At? {
        var s := DirLink(dp.inum, name, ip);
        if s.NoRoom? { return NoRoom; }
        if s.Success? { return Success; }
      }
      ino := ino[ip := ino[ip].(nlink := Down(ino[ip].nlink))];
      assert InodeOk(was, ip);
      assert ino == was;
      Iput(ip);
      return Failure;
    }

    /** unlink, once the parent is found. */
    method Unlink(dp: nat, name: string) returns (status: Status)
      requires Inv(ino) && dp < |ino| && ino[dp].kind.Dir?
      modifies this
      ensures Agrees(status, old(ino), ino, UnlinkIn(old(ino), dp, name))
    {
      var was := ino;
      NothingReaped(ino, dp);
      if name == "." || name == ".." {
        Iput(dp);
        return Failure;
      }
      var k := DirLookup(dp, name);
      if k == |ino[dp].ents| {
        Iput(dp);
        return Failure;
      }
      var t := ino[dp].ents[k].inum;
      if t >= |ino| || ino[t].kind.Free? || ino[t].nlink < 1 { return Panic; }
      var isDir := ino[t].kind.Dir?;
      if isDir {
        var empty := IsDirEmpty(t);
        if !empty {
          NothingReaped(ino, t);
          Iput(t);
          Iput(dp);
          return Failure;
        }
      }
      Removable(ino, dp, name);
      ino := ino[dp := ino[dp].(ents := ino[dp].ents[k := Dirent(0, "")])];
      if isDir { ino := ino[dp := ino[dp].(nlink := Down(ino[dp].nlink))]; }
      assert Reaped(ino, dp) == ino;
      Iput(dp);
      ino := ino[t := ino[t].(nlink := Down(ino[t].nlink))];
      assert ino == Cut(was, dp, k);
      Iput(t);
      return Success;
    }
  }

  lemma Removable(ino: Table, dp: nat, name: string)
    requires Inv(ino) && dp < |ino| && ino[dp].kind.Dir? && !IsDot(name)
    requires var k := Lookup(ino[dp].ents, name, 0);
      k < |ino[dp].ents| && ino[dp].ents[k].inum < |ino|
        && (ino[ino[dp].ents[k].inum].kind.Dir? ==> Empty(ino[ino[dp].ents[k].inum].ents))
    ensures var k := Lookup(ino[dp].ents, name, 0);
      ino[dp].ents[k].inum != dp && if ino[ino[dp].ents[k].inum].kind.Dir? then ino[dp].nlink >= 2
        else ino[dp].nlink >= 1
  {
    var k := Lookup(ino[dp].ents, name, 0);
    assert InodeOk(ino, dp);
    CutFacts(ino, dp, k);
    if ino[ino[dp].ents[k].inum].kind.Dir? { CutDirNlink(ino, dp, k); }
  }
}
