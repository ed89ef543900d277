/** The on-disk redo log of kernel/log.c as sequences of atomic block writes.

    `CommitWrites` and `RecoverWrites` are the writes that commit() and
    recover_from_log() issue (module LogLayer proves that the code issues exactly
    these). A crash cuts such a sequence anywhere; the theorems say what the disk
    then means. */
module DiskLog {
  import opened Blocks

  const LOGSIZE: nat := 30

  type Image = seq<Block>

  datatype Write = Write(bno: nat, data: Block)

  /** The log area: a header block at start, then size - 1 data blocks. */
  datatype Layout = Layout(start: nat, size: nat) {
    predicate InLog(b: nat) { start <= b < start + size }
    predicate Fits(d: Image) { 0 < size && start + size <= |d| < WORD_LIMIT }
  }

  ghost predicate WritesFit(d: Image, ws: seq<Write>) { forall i :: 0 <= i < |ws| ==> ws[i].bno < |d| }

  /** The disk after the writes ws, in order. */
  ghost function Apply(d: Image, ws: seq<Write>): (d': Image)
    requires WritesFit(d, ws)
    ensures |d'| == |d|
  {
    if ws == [] then d
    else Apply(d, ws[..|ws| - 1])[ws[|ws| - 1].bno := ws[|ws| - 1].data]
  }

  lemma EmptyApply(d: Image)
    ensures Apply(d, []) == d
  {}

  ghost predicate NoDuplicates(s: seq<nat>) { forall j, k :: 0 <= j < k < |s| ==> s[j] != s[k] }

  /** The data a commit logs for the listed blocks. */
  ghost function DataOf(block: seq<nat>, pending: map<nat, Block>): (data: seq<Block>)
    requires forall k :: 0 <= k < |block| ==> block[k] in pending
    ensures |data| == |block| && forall k :: 0 <= k < |block| ==> data[k] == pending[block[k]]
  {
    seq(|block|, k requires 0 <= k < |block| && block[k] in pending => pending[block[k]])
  }

  lemma ApplySnoc(d: Image, ws: seq<Write>, w: Write)
    requires WritesFit(d, ws) && w.bno < |d|
    ensures WritesFit(d, ws + [w]) && Apply(d, ws + [w]) == Apply(d, ws)[w.bno := w.data]
  {
    assert (ws + [w])[..|ws|] == ws;
  }

  lemma {:induction false} ApplyConcat(d: Image, a: seq<Write>, b: seq<Write>)
    requires WritesFit(d, a) && WritesFit(d, b)
    ensures WritesFit(d, a + b) && Apply(d, a + b) == Apply(Apply(d, a), b)
    decreases |b|
  {
    if b == [] {
      assert a + b == a;
    } else {
      var b', w := b[..|b| - 1], b[|b| - 1];
      ApplyConcat(d, a, b');
      ApplySnoc(d, a + b', w);
      assert a + b == (a + b') + [w];
    }
  }

  // ------------------------------------------------------------- header blocks

  predicate ValidHomes(l: Layout, d: Image, homes: seq<nat>)
  {
    && |homes| < l.size && |homes| <= LOGSIZE
    && forall i :: 0 <= i < |homes| ==> homes[i] < |d| && !l.InLog(homes[i])
  }

  predicate WordsFit(homes: seq<nat>) { |homes| <= LOGSIZE && forall i :: 0 <= i < |homes| ==> homes[i] < WORD_LIMIT }

  /** write_head() after storing the count and k entries. */
  function Stored(h: Block, homes: seq<nat>, k: nat): (h': Block)
    requires WordsFit(homes) && k <= |homes|
    ensures Word(h', 0) == |homes|
    ensures forall i :: 0 <= i < k ==> Word(h', 1 + i) == homes[i]
  {
    if k == 0 then
      WordOfSetWord(h, 0, |homes|, 0);
      SetWord(h, 0, |homes|)
    else
      var g := Stored(h, homes, k - 1);
      WordsOfSetWord(g, k, homes[k - 1]);
      SetWord(g, k, homes[k - 1])
  }

  /** struct logheader as write_head() leaves it: entries beyond n are not touched. */
  function WithHeader(h: Block, homes: seq<nat>): (h': Block)
    requires WordsFit(homes)
    ensures Word(h', 0) == |homes|
    ensures forall i :: 0 <= i < |homes| ==> Word(h', 1 + i) == homes[i]
  {
    Stored(h, homes, |homes|)
  }

  /** The block numbers a header lists. */
  function Listed(h: Block): (homes: seq<nat>)
    requires Word(h, 0) <= LOGSIZE
  {
    seq(Word(h, 0), i requires 0 <= i < Word(h, 0) => Word(h, 1 + i))
  }

  lemma ListedWithHeader(h: Block, homes: seq<nat>)
    requires WordsFit(homes)
    ensures Listed(WithHeader(h, homes)) == homes
  {}

  /** A disk whose header read_head() can take. */
  ghost predicate Readable(l: Layout, d: Image)
  {
    && l.Fits(d)
    && Word(d[l.start], 0) <= LOGSIZE
    && ValidHomes(l, d, Listed(d[l.start]))
  }

  ghost predicate EmptyLog(l: Layout, d: Image) { l.Fits(d) && Word(d[l.start], 0) == 0 }

  // -------------------------------------------------------------------- writes

  /** install_trans(): log block i goes to its home. */
  ghost function InstallWrites(l: Layout, d: Image, homes: seq<nat>): (ws: seq<Write>)
    requires l.Fits(d) && ValidHomes(l, d, homes)
    ensures |ws| == |homes| && WritesFit(d, ws)
  {
    seq(|homes|, i requires 0 <= i < |homes| => Write(homes[i], d[l.start + 1 + i]))
  }

  /** recover_from_log(). */
  ghost function RecoverWrites(l: Layout, d: Image): (ws: seq<Write>)
    requires Readable(l, d)
    ensures WritesFit(d, ws)
  {
    InstallWrites(l, d, Listed(d[l.start])) + [Write(l.start, WithHeader(d[l.start], []))]
  }

  /** write_log(): cached block i goes to log block i. */
  ghost function LogWrites(l: Layout, data: seq<Block>): (ws: seq<Write>)
    ensures |ws| == |data|
  {
    seq(|data|, i requires 0 <= i < |data| => Write(l.start + 1 + i, data[i]))
  }

  /** The blocks homes[i] := data[i], in order. */
  ghost function HomeWrites(homes: seq<nat>, data: seq<Block>): (ws: seq<Write>)
    requires |data| == |homes|
    ensures |ws| == |homes|
  {
    seq(|homes|, i requires 0 <= i < |homes| => Write(homes[i], data[i]))
  }

  /** commit(): write the log, write the header, install, erase the header. */
  ghost function CommitWrites(l: Layout, d: Image, homes: seq<nat>, data: seq<Block>): (ws: seq<Write>)
    requires l.Fits(d) && ValidHomes(l, d, homes) && |data| == |homes|
    ensures WritesFit(d, ws) && |ws| == 2 * |homes| + 2
  {
    var h := WithHeader(d[l.start], homes);
    LogWrites(l, data) + [Write(l.start, h)] + HomeWrites(homes, data) + [Write(l.start, WithHeader(h, []))]
  }

  // ------------------------------------------------------------ meaning of a disk

  /** What a disk stands for: its blocks, with the committed log installed. */
  ghost function Meaning(l: Layout, d: Image): (m: Image)
    requires Readable(l, d)
    ensures |m| == |d|
  {
    Apply(d, InstallWrites(l, d, Listed(d[l.start])))
  }

  /** Equal outside the log area. */
  ghost predicate SameHomes(l: Layout, a: Image, b: Image)
  {
    |a| == |b| && forall x :: 0 <= x < |a| && !l.InLog(x) ==> a[x] == b[x]
  }

  // --------------------------------------------------------------------- lemmas

  /** The last of the first m writes that goes to block b, or -1. */
  ghost function LastTo(ws: seq<Write>, b: nat): (i: int)
    ensures -1 <= i < |ws|
    ensures i >= 0 ==> ws[i].bno == b
    ensures forall j :: i < j < |ws| ==> ws[j].bno != b
  {
    if ws == [] then -1
    else if ws[|ws| - 1].bno == b then |ws| - 1
    else LastTo(ws[..|ws| - 1], b)
  }

  /** A block holds the last write to it. */
  lemma {:induction false} ApplyAt(d: Image, ws: seq<Write>, b: nat)
    requires WritesFit(d, ws) && b < |d|
    ensures Apply(d, ws)[b] == if LastTo(ws, b) < 0 then d[b] else ws[LastTo(ws, b)].data
    decreases |ws|
  {
    if ws != [] {
      ApplyAt(d, ws[..|ws| - 1], b);
    }
  }

  /** Blocks no write names keep their contents. */
  lemma ApplyElsewhere(d: Image, ws: seq<Write>, b: nat)
    requires WritesFit(d, ws) && b < |d|
    requires forall i :: 0 <= i < |ws| ==> ws[i].bno != b
    ensures Apply(d, ws)[b] == d[b]
  {
    ApplyAt(d, ws, b);
  }

  /** Repeating a prefix of the writes first changes nothing in the end. */
  lemma ApplyTwice(d: Image, ws: seq<Write>, k: nat)
    requires WritesFit(d, ws) && k <= |ws|
    ensures Apply(Apply(d, ws[..k]), ws) == Apply(d, ws)
  {
    var d' := Apply(d, ws[..k]);
    forall b | 0 <= b < |d| ensures Apply(d', ws)[b] == Apply(d, ws)[b] {
      ApplyAt(d', ws, b);
      ApplyAt(d, ws, b);
      if LastTo(ws, b) < 0 {
        ApplyElsewhere(d, ws[..k], b);
      }
    }
  }

  /** Installing leaves the log area alone, so the log still reads the same. */
  lemma InstallKeepsLog(l: Layout, d: Image, homes: seq<nat>, k: nat)
    requires l.Fits(d) && ValidHomes(l, d, homes) && k <= |homes|
    ensures var d' := Apply(d, InstallWrites(l, d, homes)[..k]);
      && (forall b: nat :: l.InLog(b) ==> d'[b] == d[b])
      && InstallWrites(l, d', homes) == InstallWrites(l, d, homes)
  {
    var ws := InstallWrites(l, d, homes)[..k];
    forall b: nat | l.InLog(b) ensures Apply(d, ws)[b] == d[b] {
      ApplyElsewhere(d, ws, b);
    }
  }

  /** A disk with an empty log stands for itself. */
  lemma EmptyLogMeaning(l: Layout, d: Image)
    requires EmptyLog(l, d)
    ensures Readable(l, d) && Meaning(l, d) == d
  {
    assert Listed(d[l.start]) == [];
  }

  /** Recovery may be cut after any number of its writes: the disk still reads, and
      stands for what it stood for before. */
  lemma RecoveryKeepsMeaning(l: Layout, d: Image, k: nat)
    requires Readable(l, d) && k <= |RecoverWrites(l, d)|
    ensures var d' := Apply(d, RecoverWrites(l, d)[..k]);
      Readable(l, d') && SameHomes(l, Meaning(l, d'), Meaning(l, d))
  {
    var homes := Listed(d[l.start]);
    var ws := InstallWrites(l, d, homes);
    if k <= |ws| {
      assert RecoverWrites(l, d)[..k] == ws[..k];
      InstallKeepsLog(l, d, homes, k);
      ApplyTwice(d, ws, k);
    } else {
      RecoveryCompletes(l, d);
      assert RecoverWrites(l, d)[..k] == RecoverWrites(l, d);
      EmptyLogMeaning(l, Apply(d, RecoverWrites(l, d)));
    }
  }

  /** A recovery that completes leaves an empty log and, in place, what the disk
      stood for. */
  lemma RecoveryCompletes(l: Layout, d: Image)
    requires Readable(l, d)
    ensures var d' := Apply(d, RecoverWrites(l, d));
      EmptyLog(l, d') && SameHomes(l, d', Meaning(l, d))
  {
    var ws := InstallWrites(l, d, Listed(d[l.start]));
    ApplySnoc(d, ws, Write(l.start, WithHeader(d[l.start], [])));
  }

  /** The disk after recoveries cut at the given points, one after the other. */
  ghost function CutRecoveries(l: Layout, d: Image, cuts: seq<nat>): (d': Image)
    requires Readable(l, d)
    decreases |cuts|
  {
    if cuts == [] then d
    else
      var ws := RecoverWrites(l, d);
      var k := if cuts[0] <= |ws| then cuts[0] else |ws|;
      RecoveryKeepsMeaning(l, d, k);
      CutRecoveries(l, Apply(d, ws[..k]), cuts[1..])
  }

  lemma {:induction false} CutRecoveriesKeepMeaning(l: Layout, d: Image, cuts: seq<nat>)
    requires Readable(l, d)
    ensures var d' := CutRecoveries(l, d, cuts);
      Readable(l, d') && SameHomes(l, Meaning(l, d'), Meaning(l, d))
    decreases |cuts|
  {
    if cuts != [] {
      var ws := RecoverWrites(l, d);
      var k := if cuts[0] <= |ws| then cuts[0] else |ws|;
      RecoveryKeepsMeaning(l, d, k);
      CutRecoveriesKeepMeaning(l, Apply(d, ws[..k]), cuts[1..]);
    }
  }

  // --------------------------------------------------------------------- commit

  /** The disk after the first k writes of a commit. */
  ghost function CutCommit(l: Layout, d: Image, homes: seq<nat>, data: seq<Block>, k: nat): (d': Image)
    requires l.Fits(d) && ValidHomes(l, d, homes) && |data| == |homes|
    requires k <= |CommitWrites(l, d, homes, data)|
    ensures |d'| == |d|
  {
    Apply(d, CommitWrites(l, d, homes, data)[..k])
  }

  /** Up to the header write the homes are untouched and the header still empty. */
  lemma BeforeHeader(l: Layout, d: Image, homes: seq<nat>, data: seq<Block>, k: nat)
    requires EmptyLog(l, d) && ValidHomes(l, d, homes) && |data| == |homes| && k <= |homes|
    ensures var d' := CutCommit(l, d, homes, data, k);
      Readable(l, d') && SameHomes(l, Meaning(l, d'), d)
  {
    var ws := CommitWrites(l, d, homes, data)[..k];
    assert ws == LogWrites(l, data)[..k];
    var d' := Apply(d, ws);
    forall b | 0 <= b < |d| && (b == l.start || !l.InLog(b)) ensures d'[b] == d[b] {
      ApplyElsewhere(d, ws, b);
    }
    EmptyLogMeaning(l, d');
  }

  /** The log blocks as write_log() leaves them. */
  lemma AfterLog(l: Layout, d: Image, data: seq<Block>)
    requires l.Fits(d) && |data| < l.size
    ensures WritesFit(d, LogWrites(l, data))
    ensures forall i :: 0 <= i < |data| ==> Apply(d, LogWrites(l, data))[l.start + 1 + i] == data[i]
    ensures SameHomes(l, Apply(d, LogWrites(l, data)), d)
  {
    var ws := LogWrites(l, data);
    forall i | 0 <= i < |data| ensures Apply(d, ws)[l.start + 1 + i] == data[i] {
      ApplyAt(d, ws, l.start + 1 + i);
      assert ws[i].bno == l.start + 1 + i;
    }
    forall b | 0 <= b < |d| && !l.InLog(b) ensures Apply(d, ws)[b] == d[b] {
      ApplyElsewhere(d, ws, b);
    }
  }

  /** The log and header as the header write leaves them. */
  lemma AtHeader(l: Layout, d: Image, homes: seq<nat>, data: seq<Block>)
    requires EmptyLog(l, d) && ValidHomes(l, d, homes) && |data| == |homes|
    ensures var d' := CutCommit(l, d, homes, data, |homes| + 1);
      && Readable(l, d') && d'[l.start] == WithHeader(d[l.start], homes) && Listed(d'[l.start]) == homes
      && InstallWrites(l, d', homes) == HomeWrites(homes, data)
      && SameHomes(l, d', d)
  {
    CommitPrefix(l, d, homes, data);
    AfterLog(l, d, data);
    var d0, h := Apply(d, LogWrites(l, data)), WithHeader(d[l.start], homes);
    ApplySnoc(d, LogWrites(l, data), Write(l.start, h));
    ListedWithHeader(d[l.start], homes);
    HeaderWritten(l, d0, d0[l.start := h], homes, data);
  }

  lemma CommitPrefix(l: Layout, d: Image, homes: seq<nat>, data: seq<Block>)
    requires l.Fits(d) && ValidHomes(l, d, homes) && |data| == |homes|
    ensures CommitWrites(l, d, homes, data)[..|homes| + 1]
         == LogWrites(l, data) + [Write(l.start, WithHeader(d[l.start], homes))]
  {}

  lemma HeaderWritten(l: Layout, d0: Image, d: Image, homes: seq<nat>, data: seq<Block>)
    requires l.Fits(d0) && ValidHomes(l, d0, homes) && |data| == |homes| && |d| == |d0|
    requires forall i :: 0 <= i < |data| ==> d0[l.start + 1 + i] == data[i]
    requires forall b :: 0 <= b < |d| && b != l.start ==> d[b] == d0[b]
    requires Word(d[l.start], 0) <= LOGSIZE && Listed(d[l.start]) == homes
    ensures Readable(l, d) && SameHomes(l, d, d0)
    ensures InstallWrites(l, d, homes) == HomeWrites(homes, data)
  {
    assert forall i :: 0 <= i < |data| ==> d[l.start + 1 + i] == data[i];
  }

  /** After the header write, the rest of commit is a recovery of the disk it wrote. */
  lemma AfterHeader(l: Layout, d: Image, homes: seq<nat>, data: seq<Block>, k: nat)
    requires EmptyLog(l, d) && ValidHomes(l, d, homes) && |data| == |homes|
    requires |homes| < k <= |CommitWrites(l, d, homes, data)|
    ensures var d1 := CutCommit(l, d, homes, data, |homes| + 1);
      && Readable(l, d1) && k - |homes| - 1 <= |RecoverWrites(l, d1)|
      && CutCommit(l, d, homes, data, k) == Apply(d1, RecoverWrites(l, d1)[..k - |homes| - 1])
  {
    AtHeader(l, d, homes, data);
    var all := CommitWrites(l, d, homes, data);
    var d1 := CutCommit(l, d, homes, data, |homes| + 1);
    var rest := RecoverWrites(l, d1);
    assert all == all[..|homes| + 1] + rest;
    assert all[..k] == all[..|homes| + 1] + rest[..k - |homes| - 1];
    ApplyConcat(d, all[..|homes| + 1], rest[..k - |homes| - 1]);
  }

  /** The homes as the transaction wants them. */
  ghost function Updated(d: Image, homes: seq<nat>, data: seq<Block>): (d': Image)
    requires |data| == |homes| && WritesFit(d, HomeWrites(homes, data))
    ensures |d'| == |d|
  {
    Apply(d, HomeWrites(homes, data))
  }

  lemma UpdateRespectsHomes(l: Layout, a: Image, b: Image, ws: seq<Write>)
    requires SameHomes(l, a, b) && WritesFit(a, ws)
    ensures SameHomes(l, Apply(a, ws), Apply(b, ws))
  {
    forall x | 0 <= x < |a| && !l.InLog(x) ensures Apply(a, ws)[x] == Apply(b, ws)[x] {
      ApplyAt(a, ws, x);
      ApplyAt(b, ws, x);
    }
  }

  /** The header write is the commit point: cut before it, a commit means the old
      disk; cut after it, the new one. */
  lemma CommitPoint(l: Layout, d: Image, homes: seq<nat>, data: seq<Block>, k: nat)
    requires EmptyLog(l, d) && ValidHomes(l, d, homes) && |data| == |homes|
    requires k <= |CommitWrites(l, d, homes, data)|
    ensures var d' := CutCommit(l, d, homes, data, k);
      && Readable(l, d')
      && SameHomes(l, Meaning(l, d'), if k <= |homes| then d else Updated(d, homes, data))
  {
    hide Readable, Meaning, Updated, CutCommit, CommitWrites, RecoverWrites;
    if k <= |homes| {
      BeforeHeader(l, d, homes, data, k);
    } else {
      AfterHeader(l, d, homes, data, k);
      var d1 := CutCommit(l, d, homes, data, |homes| + 1);
      RecoveryKeepsMeaning(l, d1, k - |homes| - 1);
      HeaderMeans(l, d, homes, data);
    }
  }

  /** Right after the header write the disk stands for the new blocks. */
  lemma HeaderMeans(l: Layout, d: Image, homes: seq<nat>, data: seq<Block>)
    requires EmptyLog(l, d) && ValidHomes(l, d, homes) && |data| == |homes|
    ensures var d1 := CutCommit(l, d, homes, data, |homes| + 1);
      Readable(l, d1) && SameHomes(l, Meaning(l, d1), Updated(d, homes, data))
  {
    hide Readable, CutCommit, CommitWrites, InstallWrites, HomeWrites, Apply;
    AtHeader(l, d, homes, data);
    UpdateRespectsHomes(l, CutCommit(l, d, homes, data, |homes| + 1), d, HomeWrites(homes, data));
  }

  /** Crash atomicity. A commit cut after k writes, then any number of recoveries
      each cut anywhere, then one that completes: every home block is as before the
      transaction, or every home block is as the transaction wants it, and which of
      the two depends only on whether the header write was reached. The log ends
      empty. */
  lemma CrashAtomicity(l: Layout, d: Image, homes: seq<nat>, data: seq<Block>, k: nat, cuts: seq<nat>)
    requires EmptyLog(l, d) && ValidHomes(l, d, homes) && |data| == |homes|
    requires k <= |CommitWrites(l, d, homes, data)|
    ensures Readable(l, CutCommit(l, d, homes, data, k))
    ensures var d' := CutRecoveries(l, CutCommit(l, d, homes, data, k), cuts);
      && Readable(l, d')
      && var final := Apply(d', RecoverWrites(l, d'));
      && EmptyLog(l, final)
      && SameHomes(l, final, if k <= |homes| then d else Updated(d, homes, data))
  {
    CommitPoint(l, d, homes, data, k);
    var d0 := CutCommit(l, d, homes, data, k);
    CutRecoveriesKeepMeaning(l, d0, cuts);
    RecoveryCompletes(l, CutRecoveries(l, d0, cuts));
  }

  /** Recovering a recovered disk writes no home block. */
  lemma RecoveryIdempotent(l: Layout, d: Image)
    requires Readable(l, d)
    ensures var d' := Apply(d, RecoverWrites(l, d));
      Readable(l, d') && Apply(d', RecoverWrites(l, d')) == d'
  {
    RecoveryCompletes(l, d);
    var d' := Apply(d, RecoverWrites(l, d));
    EmptyLogMeaning(l, d');
    ApplySnoc(d, InstallWrites(l, d, Listed(d[l.start])), Write(l.start, WithHeader(d[l.start], [])));
    EraseTwice(d[l.start]);
    ApplySnoc(d', [], Write(l.start, WithHeader(d'[l.start], [])));
    assert RecoverWrites(l, d') == [] + [Write(l.start, WithHeader(d'[l.start], []))];
  }

  lemma EraseTwice(h: Block)
    ensures WithHeader(WithHeader(h, []), []) == WithHeader(h, [])
  {
    assert SetWord(SetWord(h, 0, 0), 0, 0) == SetWord(h, 0, 0);
  }

  /** A commit that runs to its end leaves the new blocks in place and an empty log. */
  lemma CommitCompletes(l: Layout, d: Image, homes: seq<nat>, data: seq<Block>)
    requires EmptyLog(l, d) && ValidHomes(l, d, homes) && |data| == |homes|
    ensures var d' := Apply(d, CommitWrites(l, d, homes, data));
      EmptyLog(l, d') && SameHomes(l, d', Updated(d, homes, data))
  {
    var all := CommitWrites(l, d, homes, data);
    assert all[..|all|] == all;
    AfterHeader(l, d, homes, data, |all|);
    var d1 := CutCommit(l, d, homes, data, |homes| + 1);
    assert RecoverWrites(l, d1)[..|all| - |homes| - 1] == RecoverWrites(l, d1);
    RecoveryCompletes(l, d1);
    AtHeader(l, d, homes, data);
    UpdateRespectsHomes(l, d1, d, HomeWrites(homes, data));
  }
}
