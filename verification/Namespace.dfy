/** What create, link and unlink do to names (kernel/sysfile.c): when each goes through, and
    where every path leads afterwards. */
module Namespace {
  import opened Links

  /** The inode a name stands for in directory d, or 0. */
  function Find(ino: Table, d: nat, name: string): (i: nat)
    requires d < |ino|
  {
    var k := Lookup(ino[d].ents, name, 0);
    if k < |ino[d].ents| then ino[d].ents[k].inum else 0
  }

  /** Some entry of d gives inode i that name. */
  ghost predicate Named(ino: Table, d: nat, name: string, i: nat)
    requires d < |ino|
  {
    i != 0 && exists k: nat :: k < |ino[d].ents| && ino[d].ents[k] == Dirent(i, name)
  }

  /** Names are looked up as the entries say. */
  lemma FindIs(ino: Table, d: nat, name: string, i: nat)
    requires Inv(ino) && d < |ino| && ino[d].kind.Dir?
    ensures Named(ino, d, name, i) <==> i != 0 && Find(ino, d, name) == i
    ensures Find(ino, d, name) == 0 <==> !Exists(ino, d, name)
  {
    assert InodeOk(ino, d);
    var ents := ino[d].ents;
    var k := Lookup(ents, name, 0);
    if k < |ents| { assert ents[k] == Dirent(ents[k].inum, name); }
    if Named(ino, d, name, i) {
      var j: nat :| j < |ents| && ents[j] == Dirent(i, name);
      assert Match(ents, j, name) && k <= j && Match(ents, k, name);
    }
  }

  /** A name alone leads where it stands for. */
  lemma ResolveName(ino: Table, d: nat, name: string)
    requires d < |ino| && ino[d].kind.Dir?
    ensures var i := Find(ino, d, name);
      Resolve(ino, d, [name]) == if i == 0 then Missing else if i >= |ino| || ino[i].kind.Free? then NoType else At(i)
  {
    assert [name][1..] == [];
  }

  /** A directory with an entry beside its dots. */
  ghost predicate Occupied(ino: Table, d: nat)
    requires d < |ino|
  {
    ino[d].kind.Dir? && exists name: string, i: nat :: !IsDot(name) && Named(ino, d, name, i)
  }

  lemma OccupiedIs(ino: Table, d: nat)
    requires Inv(ino) && d < |ino|
    ensures Occupied(ino, d) <==> ino[d].kind.Dir? && !Empty(ino[d].ents)
  {
    assert InodeOk(ino, d);
    var ents := ino[d].ents;
    if ino[d].kind.Dir? && !Empty(ents) {
      var k: nat :| 2 <= k < |ents| && ents[k].inum != 0;
      assert ents[0].name != ents[k].name && ents[1].name != ents[k].name;
      assert ents[k] == Dirent(ents[k].inum, ents[k].name);
      assert Named(ino, d, ents[k].name, ents[k].inum);
    }
    if Occupied(ino, d) {
      var name: string, i: nat :| !IsDot(name) && Named(ino, d, name, i);
      var k: nat :| k < |ents| && ents[k] == Dirent(i, name);
      assert k >= 2;
    }
  }

  // ------------------------------------------------------------- entries, changed

  lemma EnteredFind(ents: seq<Dirent>, name: string, i: nat, n: string)
    requires i != 0 && Lookup(ents, name, 0) == |ents|
    ensures var r := Entered(ents, name, i);
      var k, j := Lookup(ents, n, 0), Lookup(r, n, 0);
      if n == name then j < |r| && r[j].inum == i
      else (k < |ents| <==> j < |r|) && (k < |ents| ==> r[j].inum == ents[k].inum)
  {
    EnteredAt(ents, name, i);
    var r, s := Entered(ents, name, i), Slot(ents, 0);
    hide Entered, Slot;
    var k, j := Lookup(ents, n, 0), Lookup(r, n, 0);
    assert Match(r, s, name);
    if n == name {
      assert forall x: nat :: x < |r| && x != s && Match(r, x, name) ==> Match(ents, x, name);
    } else {
      if k < |ents| { assert k != s && Match(r, k, n) && j <= k; }
      if j < |r| { assert j != s && Match(ents, j, n) && k <= j; }
    }
  }

  lemma CutFind(ents: seq<Dirent>, k: nat, n: string)
    requires k < |ents| && ents[k].inum != 0 && Unique(ents)
    ensures var r := ents[k := Dirent(0, "")];
      var a, b := Lookup(ents, n, 0), Lookup(r, n, 0);
      if n == ents[k].name then b == |r|
      else (a < |ents| <==> b < |r|) && (a < |ents| ==> r[b].inum == ents[a].inum)
  {
    var r := ents[k := Dirent(0, "")];
    var a, b := Lookup(ents, n, 0), Lookup(r, n, 0);
    if b < |r| { assert b != k && Match(ents, b, n) && a <= b; }
    if a < |ents| && a != k { assert Match(r, a, n) && b <= a; }
  }

  // ---------------------------------------------------------------- where paths lead

  /** A path looks up that name in directory dp. */
  predicate Passes(ino: Table, start: nat, path: seq<string>, dp: nat, name: string)
    decreases |path|
  {
    path != [] && start < |ino| && ino[start].kind.Dir?
    && ((start == dp && path[0] == name)
        || (Find(ino, start, path[0]) != 0 && Passes(ino, Find(ino, start, path[0]), path[1..], dp, name)))
  }

  /** Linked inodes keep their kind, and their entries but for that name. */
  ghost predicate Alike(ino: Table, ino': Table, dp: nat, name: string)
  {
    && |ino'| == |ino|
    && (forall d: nat :: Linked(ino, d) && Linked(ino', d) ==> ino'[d].kind == ino[d].kind)
    && (forall d: nat, n: string ::
          Linked(ino, d) && Linked(ino', d) && ino[d].kind.Dir? && (d, n) != (dp, name) ==>
            Find(ino', d, n) == Find(ino, d, n))
  }

  lemma FindLinked(ino: Table, d: nat, name: string)
    requires Inv(ino) && Linked(ino, d) && ino[d].kind.Dir? && Find(ino, d, name) != 0
    ensures Linked(ino, Find(ino, d, name))
  {
    NamedLinked(ino, d, Lookup(ino[d].ents, name, 0));
  }

  /** A path that does not look the name up leads where it led. */
  lemma {:induction false} SamePath(ino: Table, ino': Table, start: nat, path: seq<string>, dp: nat, name: string)
    requires Inv(ino) && Inv(ino') && Alike(ino, ino', dp, name) && Linked(ino, start) && Linked(ino', start)
    requires !Passes(ino, start, path, dp, name)
    ensures Resolve(ino', start, path) == Resolve(ino, start, path)
    decreases |path|
  {
    hide Inv;
    if path != [] && ino[start].kind.Dir? {
      var next := Find(ino, start, path[0]);
      assert Find(ino', start, path[0]) == next;
      if next != 0 {
        FindLinked(ino, start, path[0]);
        FindLinked(ino', start, path[0]);
        SamePath(ino, ino', next, path[1..], dp, name);
      }
    }
  }

  /** A path that looks up a name that is not there leads nowhere. */
  lemma {:induction false} DeadEnd(ino: Table, start: nat, path: seq<string>, dp: nat, name: string)
    requires Inv(ino) && Linked(ino, start) && dp < |ino| && Find(ino, dp, name) == 0
    requires Passes(ino, start, path, dp, name)
    ensures Resolve(ino, start, path) == Missing
    decreases |path|
  {
    hide Inv;
    var next := Find(ino, start, path[0]);
    if !(start == dp && path[0] == name) {
      FindLinked(ino, start, path[0]);
      DeadEnd(ino, next, path[1..], dp, name);
    }
  }

  /** Where a name is gone, so is every path through it. */
  lemma {:induction false} CutOff(ino: Table, ino': Table, start: nat, path: seq<string>, dp: nat, name: string)
    requires Inv(ino) && Inv(ino') && Alike(ino, ino', dp, name) && Linked(ino, start) && Linked(ino', start)
    requires dp < |ino| && Find(ino', dp, name) == 0 && Passes(ino, start, path, dp, name)
    ensures Resolve(ino', start, path) == Missing
    decreases |path|
  {
    hide Inv;
    var next := Find(ino, start, path[0]);
    if !(start == dp && path[0] == name) {
      assert Find(ino', start, path[0]) == next;
      FindLinked(ino, start, path[0]);
      FindLinked(ino', start, path[0]);
      CutOff(ino, ino', next, path[1..], dp, name);
    }
  }

  // ------------------------------------------------------------------------ unlink

  /** unlink goes through exactly when the name is there, is no dot, and does not stand for a
      directory with entries of its own; otherwise it is refused. */
  lemma UnlinkExactly(ino: Table, dp: nat, name: string)
    requires Inv(ino) && dp < |ino| && ino[dp].kind.Dir?
    ensures UnlinkIn(ino, dp, name).Done? <==>
      !IsDot(name) && exists i: nat :: Named(ino, dp, name, i) && i < |ino| && !Occupied(ino, i)
    ensures !UnlinkIn(ino, dp, name).Done? ==> UnlinkIn(ino, dp, name).Refused?
  {
    hide Inv, Named, Occupied, Empty;
    UnlinkInKeeps(ino, dp, name);
    var t := Find(ino, dp, name);
    FindIs(ino, dp, name, t);
    forall i: nat | Named(ino, dp, name, i) ensures i == t { FindIs(ino, dp, name, i); }
    if t != 0 && t < |ino| { OccupiedIs(ino, t); }
  }

  /** Afterwards the name is gone, every other name of every directory stands for what it
      did, and the target itself is gone only with its last link and reference. */
  lemma UnlinkNames(ino: Table, dp: nat, name: string)
    requires Inv(ino) && dp < |ino| && ino[dp].kind.Dir? && UnlinkIn(ino, dp, name).Done?
    ensures var r, t := UnlinkIn(ino, dp, name).ino, Find(ino, dp, name);
      && |r| == |ino| && 0 < t < |ino| && t != dp && Inv(r)
      && (forall n: string :: Find(r, dp, n) == if n == name then 0 else Find(ino, dp, n))
      && (forall d: nat :: d < |ino| && d != dp && d != t ==> r[d] == ino[d])
      && r[t].nlink == ino[t].nlink - 1 && r[t].refs == ino[t].refs && r[dp].refs == ino[dp].refs
      && r[dp].kind.Dir? && r[dp].nlink == ino[dp].nlink - (if ino[t].kind.Dir? then 1 else 0)
      && if ino[t].nlink == 1 && ino[t].refs == 0 then r[t].kind.Free? && r[t].ents == []
         else r[t].kind == ino[t].kind && r[t].ents == ino[t].ents
  {
    UnlinkInKeeps(ino, dp, name);
    var ents := ino[dp].ents;
    var k := Lookup(ents, name, 0);
    assert InodeOk(ino, dp);
    assert k >= 2;
    NamedLinked(ino, dp, k);
    CutFacts(ino, dp, k);
    assert InodeOk(ino, ents[k].inum);
    if ino[ents[k].inum].kind.Dir? { CutDirNlink(ino, dp, k); }
    forall n: string
      ensures Find(UnlinkIn(ino, dp, name).ino, dp, n) == if n == name then 0 else Find(ino, dp, n) {
      CutFind(ents, k, n);
    }
  }

  lemma UnlinkAlike(ino: Table, dp: nat, name: string)
    requires Inv(ino) && dp < |ino| && ino[dp].kind.Dir? && UnlinkIn(ino, dp, name).Done?
    ensures Alike(ino, UnlinkIn(ino, dp, name).ino, dp, name)
  {
    hide Inv, UnlinkIn;
    UnlinkNames(ino, dp, name);
  }

  /** Of the paths from an inode that stays linked, those that look the name up now lead
      nowhere, and all others where they led. */
  lemma UnlinkPaths(ino: Table, dp: nat, name: string, start: nat, path: seq<string>)
    requires Inv(ino) && dp < |ino| && ino[dp].kind.Dir? && UnlinkIn(ino, dp, name).Done?
    requires Linked(ino, start) && Linked(UnlinkIn(ino, dp, name).ino, start)
    ensures Resolve(UnlinkIn(ino, dp, name).ino, start, path)
      == if Passes(ino, start, path, dp, name) then Missing else Resolve(ino, start, path)
  {
    hide Inv, UnlinkIn, Alike, Passes;
    UnlinkNames(ino, dp, name);
    UnlinkAlike(ino, dp, name);
    var r := UnlinkIn(ino, dp, name).ino;
    if Passes(ino, start, path, dp, name) {
      CutOff(ino, r, start, path, dp, name);
    } else {
      SamePath(ino, r, start, path, dp, name);
    }
  }

  // ------------------------------------------------------------------------ create

  /** There is an inode to allocate and room for an entry. */
  ghost predicate Room(ino: Table, dp: nat)
    requires dp < |ino|
  {
    (exists i: nat :: 0 < i < |ino| && ino[i].kind.Free?) && RoomIn(ino, dp)
  }

  ghost predicate RoomIn(ino: Table, dp: nat)
    requires dp < |ino|
  {
    |ino[dp].ents| < MAX_ENTS || exists k: nat :: k < |ino[dp].ents| && ino[dp].ents[k].inum == 0
  }

  /** create of a name that is there only opens a file or device, for a file; of a new name it
      goes through exactly when there is room. */
  lemma CreateExactly(ino: Table, dp: nat, name: string, kind: Kind)
    requires Inv(ino) && dp < |ino| && ino[dp].kind.Dir? && !kind.Free?
    ensures var r, t := CreateIn(ino, dp, name, kind), Find(ino, dp, name);
      && (r.Done? <==>
            if t == 0 then Room(ino, dp)
            else kind.File? && t < |ino| && (ino[t].kind.File? || ino[t].kind.Device?))
      && (r.Broken? <==> t != 0 && (t >= |ino| || ino[t].kind.Free?)) && (r.Full? <==> t == 0 && !Room(ino, dp))
      && (r.Done? && t != 0 ==> r.ino == ino[t := ino[t].(refs := ino[t].refs + 1)])
  {
    FindIs(ino, dp, name, 0);
    var i := FreeInode(ino, 1);
    hide FreeInode;
    assert (i < |ino|) <==> exists j: nat :: 0 < j < |ino| && ino[j].kind.Free?;
    assert NoSpace(ino[dp].ents) <==> !RoomIn(ino, dp);
  }

  /** A new name stands for an inode that was free; every other name of every directory
      stands for what it did; a new directory holds its dots alone. */
  lemma CreateNames(ino: Table, dp: nat, name: string, kind: Kind) returns (i: nat)
    requires Inv(ino) && dp < |ino| && ino[dp].kind.Dir? && !kind.Free? && Find(ino, dp, name) == 0
    requires CreateIn(ino, dp, name, kind).Done?
    ensures var r := CreateIn(ino, dp, name, kind).ino;
      && |r| == |ino| && 0 < i < |ino| && i != dp && ino[i].kind.Free?
      && r[i].kind == kind && r[i].nlink == 1 && r[i].refs == 1
      && (forall n: string :: Find(r, dp, n) == if n == name then i else Find(ino, dp, n))
      && (forall n: string :: Find(r, i, n)
            == if !kind.Dir? then 0 else if n == "." then i else if n == ".." then dp else 0)
      && r[dp].kind.Dir? && r[dp].refs == ino[dp].refs
      && (forall d: nat :: d < |ino| && d != dp && d != i ==> r[d] == ino[d])
  {
    FindIs(ino, dp, name, 0);
    i := FreeInode(ino, 1);
    CreateFacts(ino, dp, name, kind, i);
    var r := CreateIn(ino, dp, name, kind).ino;
    assert r == Created(ino, dp, name, kind, i);
    forall n: string ensures Find(r, dp, n) == if n == name then i else Find(ino, dp, n) {
      EnteredFind(ino[dp].ents, name, i, n);
    }
    forall n: string
      ensures Find(r, i, n) == if !kind.Dir? then 0 else if n == "." then i else if n == ".." then dp else 0 {
      if kind.Dir? {
        DotsFind(i, dp, n);
      }
    }
  }

  lemma DotsFind(i: nat, dp: nat, n: string)
    requires i != 0 && dp != 0
    ensures var ents := [Dirent(i, "."), Dirent(dp, "..")];
      Lookup(ents, n, 0) == if n == "." then 0 else if n == ".." then 1 else 2
  {
    var ents := [Dirent(i, "."), Dirent(dp, "..")];
    assert Match(ents, 0, n) <==> n == ".";
    assert Match(ents, 1, n) <==> n == "..";
  }

  /** Every path that led somewhere leads there still; one that did not look up the new name
      is the same, and the new name leads to the new inode. */
  lemma CreatePaths(ino: Table, dp: nat, name: string, kind: Kind, start: nat, path: seq<string>)
    requires Inv(ino) && dp < |ino| && ino[dp].kind.Dir? && !kind.Free? && Find(ino, dp, name) == 0
    requires CreateIn(ino, dp, name, kind).Done? && CreateFits(ino, dp, kind) && Linked(ino, start)
    ensures var r := CreateIn(ino, dp, name, kind).ino;
      && (Resolve(ino, start, path) != Missing ==> !Passes(ino, start, path, dp, name))
      && (!Passes(ino, start, path, dp, name) ==> Resolve(r, start, path) == Resolve(ino, start, path))
      && Resolve(r, dp, [name]) == At(Find(r, dp, name))
  {
    CreateInKeeps(ino, dp, name, kind);
    var i := CreateNames(ino, dp, name, kind);
    var r := CreateIn(ino, dp, name, kind).ino;
    assert Linked(r, start) && Alike(ino, r, dp, name) by { hide Inv, CreateIn, Find; }
    hide Inv, CreateIn, Alike, Passes;
    ResolveName(r, dp, name);
    if Passes(ino, start, path, dp, name) {
      DeadEnd(ino, start, path, dp, name);
    } else {
      SamePath(ino, r, start, path, dp, name);
    }
  }

  // -------------------------------------------------------------------------- link

  /** link goes through exactly for an inode that is no directory, to a directory that lacks
      the name and has room for an entry. */
  lemma LinkExactly(ino: Table, ip: nat, dp: Walk, name: string)
    requires Inv(ino) && 0 < ip < |ino| && !ino[ip].kind.Free? && (dp.At? ==> dp.inum < |ino| && ino[dp.inum].kind.Dir?)
    ensures var r := LinkIn(ino, ip, dp, name);
      && (r.Done? <==>
            !ino[ip].kind.Dir? && dp.At? && Find(ino, dp.inum, name) == 0 && RoomIn(ino, dp.inum))
      && (r.Refused? <==> ino[ip].kind.Dir? || dp.Missing? || (dp.At? && Find(ino, dp.inum, name) != 0))
      && (r.Broken? <==> !ino[ip].kind.Dir? && dp.NoType?)
  {
    if dp.At? {
      FindIs(ino, dp.inum, name, 0);
      assert NoSpace(ino[dp.inum].ents) <==> !RoomIn(ino, dp.inum);
    }
  }

  /** Afterwards the name stands for the inode, which has one link more; every other name of
      every directory stands for what it did. */
  lemma LinkNames(ino: Table, ip: nat, dp: nat, name: string)
    requires Inv(ino) && 0 < ip < |ino| && !ino[ip].kind.Free? && dp < |ino| && ino[dp].kind.Dir?
    requires LinkIn(ino, ip, At(dp), name).Done?
    ensures var r := LinkIn(ino, ip, At(dp), name).ino;
      && |r| == |ino| && ip != dp
      && (forall n: string :: Find(r, dp, n) == if n == name then ip else Find(ino, dp, n))
      && r[ip] == ino[ip].(nlink := Up(ino[ip].nlink)) && r[dp] == ino[dp].(ents := r[dp].ents)
      && (forall d: nat :: d < |ino| && d != dp && d != ip ==> r[d] == ino[d])
  {
    LinkFacts(ino, ip, dp, name);
    var r := LinkIn(ino, ip, At(dp), name).ino;
    forall n: string ensures Find(r, dp, n) == if n == name then ip else Find(ino, dp, n) {
      EnteredFind(ino[dp].ents, name, ip, n);
    }
  }

  lemma LinkPaths(ino: Table, ip: nat, dp: nat, name: string, start: nat, path: seq<string>)
    requires Inv(ino) && 0 < ip < |ino| && !ino[ip].kind.Free? && dp < |ino| && ino[dp].kind.Dir?
    requires LinkIn(ino, ip, At(dp), name).Done? && ino[dp].nlink >= 1 && ino[ip].nlink < 32767 && Linked(ino, start)
    ensures var r := LinkIn(ino, ip, At(dp), name).ino;
      && (Resolve(ino, start, path) != Missing ==> !Passes(ino, start, path, dp, name))
      && (!Passes(ino, start, path, dp, name) ==> Resolve(r, start, path) == Resolve(ino, start, path))
      && Resolve(r, dp, [name]) == At(ip)
  {
    LinkInKeeps(ino, ip, At(dp), name);
    LinkNames(ino, ip, dp, name);
    LinkExactly(ino, ip, At(dp), name);
    var r := LinkIn(ino, ip, At(dp), name).ino;
    assert Linked(r, start) && Alike(ino, r, dp, name) by { hide Inv, LinkIn, Find; }
    hide Inv, LinkIn, Alike, Passes;
    ResolveName(r, dp, name);
    if Passes(ino, start, path, dp, name) {
      DeadEnd(ino, start, path, dp, name);
    } else {
      SamePath(ino, r, start, path, dp, name);
    }
  }

  // --------------------------------------------------------------------- the calls

  lemma {:induction false} PassesOn(ino: Table, start: nat, path: seq<string>, dp: nat, name: string)
    requires Resolve(ino, start, path) == At(dp) && dp < |ino| && ino[dp].kind.Dir?
    ensures Passes(ino, start, path + [name], dp, name)
    decreases |path|
  {
    if path == [] {
      assert path + [name] == [name];
    } else {
      assert (path + [name])[1..] == path[1..] + [name];
      var k := Lookup(ino[start].ents, path[0], 0);
      assert Match(ino[start].ents, k, path[0]);
      PassesOn(ino, Find(ino, start, path[0]), path[1..], dp, name);
    }
  }

  /** A path that was unlinked leads nowhere. */
  lemma UnlinkGone(ino: Table, start: nat, path: seq<string>)
    requires Inv(ino) && Linked(ino, start) && |ino| > 1
    requires Apply(ino, Unlink(start, path)).Done? && Linked(Apply(ino, Unlink(start, path)).ino, start)
    ensures Resolve(Apply(ino, Unlink(start, path)).ino, start, path) == Missing
  {
    hide Inv, UnlinkIn, Passes;
    ParentDir(ino, start, path);
    var dp, n := Parent(ino, start, path).inum, |path| - 1;
    PassesOn(ino, start, path[..n], dp, path[n]);
    assert path[..n] + [path[n]] == path;
    UnlinkPaths(ino, dp, path[n], start, path);
  }

  /** A path that was created leads to the inode, of the kind asked for or, for a file that
      was there, to that file. */
  lemma CreateFound(ino: Table, start: nat, path: seq<string>, kind: Kind)
    requires Inv(ino) && Linked(ino, start) && |ino| > 1 && !kind.Free?
    requires Guard(ino, Create(start, path, kind)) && Apply(ino, Create(start, path, kind)).Done?
    ensures var r, w := Apply(ino, Create(start, path, kind)).ino, Resolve(ino, start, path);
      var w' := Resolve(r, start, path);
      && w'.At? && w'.inum < |r| && (w.At? ==> w' == w && kind.File? && !r[w'.inum].kind.Dir?)
      && (!w.At? ==> w.Missing? && r[w'.inum].kind == kind)
  {
    hide Inv, Passes, CreateFits, Alike;
    ParentDir(ino, start, path);
    var dp, n := Parent(ino, start, path).inum, |path| - 1;
    var pre, name := path[..n], path[n];
    assert pre + [name] == path;
    CreateExactly(ino, dp, name, kind);
    FindIs(ino, dp, name, 0);
    ResolveOn(ino, start, pre, [name]);
    ResolveName(ino, dp, name);
    var r := CreateIn(ino, dp, name, kind).ino;
    if Find(ino, dp, name) == 0 {
      var i := CreateNames(ino, dp, name, kind);
      CreatePaths(ino, dp, name, kind, start, pre);
      ResolveOn(r, start, pre, [name]);
      ResolveName(r, dp, name);
    } else {
      HeldPaths(ino, Find(ino, dp, name), start, path);
    }
  }

  /** References do not matter to paths. */
  lemma {:induction false} HeldPaths(ino: Table, i: nat, start: nat, path: seq<string>)
    requires i < |ino|
    ensures Resolve(Held(ino, i), start, path) == Resolve(ino, start, path)
    decreases |path|
  {
    if path != [] && start < |ino| && ino[start].kind.Dir? {
      var k := Lookup(ino[start].ents, path[0], 0);
      if k < |ino[start].ents| { HeldPaths(ino, i, ino[start].ents[k].inum, path[1..]); }
    }
  }

  /** After link(old, new) both paths lead to the same inode. */
  lemma LinkBoth(ino: Table, start: nat, path: seq<string>, start2: nat, path2: seq<string>)
    requires Inv(ino) && Linked(ino, start) && Linked(ino, start2) && |ino| > 1
    requires Guard(ino, Link(start, path, start2, path2)) && Apply(ino, Link(start, path, start2, path2)).Done?
    ensures var r, w := Apply(ino, Link(start, path, start2, path2)).ino, Resolve(ino, start, path);
      w.At? && Resolve(r, start, path) == w && Resolve(r, start2, path2) == w
  {
    assert ino[0].kind.Free?;
    hide Inv, Passes, Alike;
    ResolveAllocated(ino, start, path);
    ParentDir(ino, start2, path2);
    var w := Resolve(ino, start, path);
    var dp, n := Parent(ino, start2, path2).inum, |path2| - 1;
    var pre, name := path2[..n], path2[n];
    assert pre + [name] == path2;
    LinkPaths(ino, w.inum, dp, name, start, path);
    LinkPaths(ino, w.inum, dp, name, start2, pre);
    var r := LinkIn(ino, w.inum, At(dp), name).ino;
    ResolveOn(r, start2, pre, [name]);
  }
}
