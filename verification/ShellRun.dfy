/** How user/sh.c runs a command: runcmd over descriptor tables, in which open, dup and pipe
    take the lowest free descriptors (kernel/sysfile.c), proved to give every program the
    files and pipes the command names and nothing else. */
module ShellRun {
  import opened Common
  import opened Shell

  const O_RDONLY: nat := 0x000
  const O_WRONLY: nat := 0x001
  const O_CREATE: nat := 0x200
  const O_TRUNC: nat := 0x400

  /** Where in a command a part of it stands. */
  type Place = seq<nat>

  /** What a descriptor stands for: something the shell was given, a file opened with flags,
      or an end of the pipe made at a place of the command. */
  datatype End = Given(k: nat) | Opened(file: string, flags: nat) | ReadEnd(at: Place) | WriteEnd(at: Place)

  type Fds = seq<Option<End>>

  /** A program, started with these descriptors. */
  datatype Started = Started(args: seq<string>, fds: Fds)

  function Flags(m: Mode): (n: nat)
  {
    match m
    case In => O_RDONLY
    case Out => O_WRONLY + O_CREATE + O_TRUNC
    case Append => O_WRONLY + O_CREATE
  }

  function FdOf(m: Mode): (fd: nat) { if m.In? then 0 else 1 }

  /** fdalloc(): the lowest free descriptor. */
  function Lowest(fds: Fds, from: nat): (k: nat)
    requires from <= |fds|
    ensures from <= k <= |fds| && (k < |fds| ==> fds[k].None?) && forall j :: from <= j < k ==> fds[j].Some?
    decreases |fds| - from
  {
    if from == |fds| || fds[from].None? then from else Lowest(fds, from + 1)
  }

  /** close(k), then open(): the file goes where there is room first. */
  function Replace(fds: Fds, k: nat, e: End): (r: Fds)
    requires k < |fds|
    ensures |r| == |fds|
  {
    var f := fds[k := None];
    assert f[k].None?;
    f[Lowest(f, 0) := Some(e)]
  }

  /** pipe(): two descriptors, or none where fewer are free. */
  function PipeFds(fds: Fds): (r: Option<(nat, nat)>)
    ensures r.Some? ==> r.value.0 < r.value.1 < |fds| && fds[r.value.0].None? && fds[r.value.1].None?
  {
    var a := Lowest(fds, 0);
    if a == |fds| then None else
      var b := Lowest(fds[a := Some(Given(0))], 0);
      if b == |fds| then None else assert a < b by { assert fds[b].None?; } Some((a, b))
  }

  /** The descriptors of one side of a pipe made at ab: close(k), dup() of its end, and
      close() of both ends. */
  function Side(fds: Fds, ab: (nat, nat), at: Place, k: nat): (r: Fds)
    requires ab.0 < ab.1 < |fds| && k < |fds|
    ensures |r| == |fds|
  {
    var f := fds[ab.0 := Some(ReadEnd(at))][ab.1 := Some(WriteEnd(at))][k := None];
    assert f[k].None?;
    var end := f[if k == 0 then ab.0 else ab.1];
    f[Lowest(f, 0) := end][ab.0 := None][ab.1 := None]
  }

  /** runcmd(): the programs started. An open fails at the places in `fails`, which ends that
      process; so does a pipe that cannot be made. */
  function RunCmd(c: Cmd<string>, fds: Fds, at: Place, fails: set<Place>): (r: seq<Started>)
    requires |fds| >= 2
    decreases c
  {
    match c
    case Exec(args) => if args == [] then [] else [Started(args, fds)]
    case Redir(x, file, mode) =>
      if at in fails then []
      else RunCmd(x, Replace(fds, FdOf(mode), Opened(file, Flags(mode))), at + [0], fails)
    case List(l, r) => RunCmd(l, fds, at + [0], fails) + RunCmd(r, fds, at + [1], fails)
    case Back(x) => RunCmd(x, fds, at + [0], fails)
    case Pipe(l, r) =>
      var ab := PipeFds(fds);
      if ab.None? then []
      else
        RunCmd(l, Side(fds, ab.value, at, 1), at + [0], fails)
        + RunCmd(r, Side(fds, ab.value, at, 0), at + [1], fails)
  }

  // ------------------------------------------------------------------- the meaning

  /** What a command means: its programs, each with its input and output. */
  datatype Program = Program(args: seq<string>, input: End, output: End)

  function Meaning(c: Cmd<string>, input: End, output: End, at: Place, fails: set<Place>): (r: seq<Program>)
    decreases c
  {
    match c
    case Exec(args) => if args == [] then [] else [Program(args, input, output)]
    case Redir(x, file, mode) =>
      var e := Opened(file, Flags(mode));
      if at in fails then [] else
        Meaning(x, if mode.In? then e else input, if mode.In? then output else e, at + [0], fails)
    case List(l, r) => Meaning(l, input, output, at + [0], fails) + Meaning(r, input, output, at + [1], fails)
    case Back(x) => Meaning(x, input, output, at + [0], fails)
    case Pipe(l, r) =>
      Meaning(l, input, WriteEnd(at), at + [0], fails) + Meaning(r, ReadEnd(at), output, at + [1], fails)
  }

  /** Each program with its input and output as descriptors 0 and 1, and beside them what the
      shell had. */
  function Set(fds: Fds, ps: seq<Program>): (r: seq<Started>)
    requires |fds| >= 2
    ensures |r| == |ps|
    ensures forall i :: 0 <= i < |ps| ==>
      r[i] == Started(ps[i].args, fds[0 := Some(ps[i].input)][1 := Some(ps[i].output)])
  {
    seq(|ps|, i requires 0 <= i < |ps| => Started(ps[i].args, fds[0 := Some(ps[i].input)][1 := Some(ps[i].output)]))
  }

  /** Input and output are open and two descriptors are free. */
  ghost predicate Ready(fds: Fds)
  {
    && |fds| >= 2 && fds[0].Some? && fds[1].Some?
    && exists a, b :: 0 <= a < b < |fds| && fds[a].None? && fds[b].None?
  }

  lemma ReplaceIs(fds: Fds, k: nat, e: End)
    requires |fds| >= 2 && k <= 1 && fds[0].Some? && fds[1].Some?
    ensures Replace(fds, k, e) == fds[k := Some(e)]
  {
    var f := fds[k := None];
    assert Lowest(f, 0) == k;
  }

  lemma PipeReady(fds: Fds)
    requires Ready(fds)
    ensures PipeFds(fds).Some? && PipeFds(fds).value.0 >= 2
  {
    var a, b :| 0 <= a < b < |fds| && fds[a].None? && fds[b].None?;
    var x := Lowest(fds, 0);
    assert 2 <= x <= a;
    var g := fds[x := Some(Given(0))];
    assert g[b].None?;
    assert Lowest(g, 0) <= b;
  }

  lemma SideIs(fds: Fds, at: Place, k: nat)
    requires Ready(fds) && k <= 1 && PipeFds(fds).Some? && PipeFds(fds).value.0 >= 2
    ensures Side(fds, PipeFds(fds).value, at, k) == fds[k := Some(if k == 0 then ReadEnd(at) else WriteEnd(at))]
  {
    var ab := PipeFds(fds).value;
    var f := fds[ab.0 := Some(ReadEnd(at))][ab.1 := Some(WriteEnd(at))][k := None];
    assert Lowest(f, 0) == k;
  }

  lemma ReadyStays(fds: Fds, k: nat, e: End)
    requires Ready(fds) && k <= 1
    ensures Ready(fds[k := Some(e)])
  {
    var a, b :| 0 <= a < b < |fds| && fds[a].None? && fds[b].None?;
    assert fds[k := Some(e)][a].None? && fds[k := Some(e)][b].None?;
  }

  lemma SetSame(fds: Fds, k: nat, e: End, ps: seq<Program>)
    requires |fds| >= 2 && k <= 1
    ensures Set(fds[k := Some(e)], ps) == Set(fds, ps)
  {
    forall i | 0 <= i < |ps| ensures Set(fds[k := Some(e)], ps)[i] == Set(fds, ps)[i] {
      var x, y := Some(ps[i].input), Some(ps[i].output);
      assert fds[k := Some(e)][0 := x][1 := y] == fds[0 := x][1 := y];
    }
  }

  lemma SetBoth(fds: Fds, p: seq<Program>, q: seq<Program>)
    requires |fds| >= 2
    ensures Set(fds, p + q) == Set(fds, p) + Set(fds, q)
  {}

  /** Every program of every command runs on the input and output the command gives it; beside
      those it has the shell's own descriptors and no stray end of a pipe. */
  lemma {:induction false} RunMeans(c: Cmd<string>, fds: Fds, at: Place, fails: set<Place>)
    requires Ready(fds)
    ensures RunCmd(c, fds, at, fails) == Set(fds, Meaning(c, fds[0].value, fds[1].value, at, fails))
    decreases c
  {
    hide Ready, Set, PipeFds, Side, Replace;
    ReadyIs(fds);
    match c
    case Exec(args) => SetOne(fds, args);
    case Redir(x, file, mode) =>
      var e := Opened(file, Flags(mode));
      ReplaceIs(fds, FdOf(mode), e);
      var f := fds[FdOf(mode) := Some(e)];
      ReadyStays(fds, FdOf(mode), e);
      RunMeans(x, f, at + [0], fails);
      SetSame(fds, FdOf(mode), e, Meaning(x, f[0].value, f[1].value, at + [0], fails));
      SetOne(fds, []);
    case List(l, r) =>
      RunMeans(l, fds, at + [0], fails);
      RunMeans(r, fds, at + [1], fails);
      SetBoth(fds, Meaning(l, fds[0].value, fds[1].value, at + [0], fails),
        Meaning(r, fds[0].value, fds[1].value, at + [1], fails));
    case Back(x) => RunMeans(x, fds, at + [0], fails);
    case Pipe(l, r) =>
      PipeReady(fds);
      SideIs(fds, at, 0);
      SideIs(fds, at, 1);
      ReadyStays(fds, 0, ReadEnd(at));
      ReadyStays(fds, 1, WriteEnd(at));
      var p, q := Meaning(l, fds[0].value, WriteEnd(at), at + [0], fails),
        Meaning(r, ReadEnd(at), fds[1].value, at + [1], fails);
      RunMeans(l, fds[1 := Some(WriteEnd(at))], at + [0], fails);
      RunMeans(r, fds[0 := Some(ReadEnd(at))], at + [1], fails);
      SetSame(fds, 1, WriteEnd(at), p);
      SetSame(fds, 0, ReadEnd(at), q);
      SetBoth(fds, p, q);
  }

  lemma ReadyIs(fds: Fds)
    requires Ready(fds)
    ensures |fds| >= 2 && fds[0].Some? && fds[1].Some?
  {}

  lemma SetOne(fds: Fds, args: seq<string>)
    requires |fds| >= 2 && fds[0].Some? && fds[1].Some?
    ensures Set(fds, [Program(args, fds[0].value, fds[1].value)]) == [Started(args, fds)] && Set(fds, []) == []
  {
    assert fds[0 := fds[0]][1 := fds[1]] == fds;
  }

  // ----------------------------------------------------------------- redirections

  /** Redirections as they are typed: a sign and a file name each. */
  function Typed(rs: seq<(char, string)>): (toks: seq<Tok>)
  {
    if rs == [] then [] else [Sym(rs[0].0), Word(rs[0].1)] + Typed(rs[1..])
  }

  predicate Signs(rs: seq<(char, string)>) { forall i :: 0 <= i < |rs| ==> rs[i].0 in {'<', '>', '+'} }

  /** What the leftmost of them makes of the input and of the output. */
  function Input(rs: seq<(char, string)>, given: End): (e: End)
  {
    if rs == [] then given else if rs[0].0 == '<' then Opened(rs[0].1, 0) else Input(rs[1..], given)
  }

  function Output(rs: seq<(char, string)>, given: End): (e: End)
  {
    if rs == [] then given
    else if rs[0].0 == '>' then Opened(rs[0].1, 0x601)
    else if rs[0].0 == '+' then Opened(rs[0].1, 0x201)
    else Output(rs[1..], given)
  }

  function Modes(rs: seq<(char, string)>): (r: seq<(string, Mode)>)
    ensures |r| == |rs|
  {
    if rs == [] then [] else [(rs[0].1, ModeOf(rs[0].0))] + Modes(rs[1..])
  }

  lemma {:induction false} TypedIs(rs: seq<(char, string)>)
    requires Signs(rs)
    ensures RedirToks(Modes(rs)) == Typed(rs)
    decreases |rs|
  {
    if rs != [] {
      TypedIs(rs[1..]);
      assert rs[0].0 in {'<', '>', '+'};
      assert Modes(rs)[1..] == Modes(rs[1..]);
    }
  }

  lemma {:induction false} WrapMeans(c: Cmd<string>, rs: seq<(char, string)>, input: End, output: End, at: Place)
      returns (at': Place)
    requires Signs(rs)
    ensures Meaning(Wrap(c, Modes(rs)), input, output, at, {})
      == Meaning(c, Input(rs, input), Output(rs, output), at', {})
    decreases |rs|
  {
    if rs == [] {
      at' := at;
    } else {
      var m := ModeOf(rs[0].0);
      var e := Opened(rs[0].1, Flags(m));
      assert rs[0].0 in {'<', '>', '+'};
      assert Modes(rs)[1..] == Modes(rs[1..]) && Modes(rs)[0] == (rs[0].1, m);
      var at1 := WrapMeans(Redir(c, rs[0].1, m), rs[1..], input, output, at);
      at' := at1 + [0];
    }
  }

  /** A line of words and redirections runs its one program on the files typed: of several
      inputs or outputs the leftmost, since the one parsed last is opened first. */
  lemma LineRuns(args: seq<string>, rs: seq<(char, string)>, fds: Fds)
    requires 0 < |args| < 10 && Signs(rs) && Ready(fds)
    ensures PLine(Words(args) + Typed(rs)) == Ok(Wrap(Exec(args), Modes(rs)), [])
    ensures RunCmd(Wrap(Exec(args), Modes(rs)), fds, [], {})
      == [Started(args, fds[0 := Some(Input(rs, fds[0].value))][1 := Some(Output(rs, fds[1].value))])]
  {
    TypedIs(rs);
    ArgsRead([], args, Modes(rs), []);
    var toks := Words(args) + Typed(rs);
    assert toks + [] == toks;
    assert toks[0] == Word(args[0]) && [] + args == args;
    var c := Wrap(Exec(args), Modes(rs));
    assert PExec(toks) == Ok(c, []);
    assert PPipe(toks) == Ok(c, []);
    RunMeans(c, fds, [], {});
    var at := WrapMeans(Exec(args), rs, fds[0].value, fds[1].value, []);
  }

  // ------------------------------------------------------------------ the beginning

  /** The shell opens the console until a descriptor above 2 comes up, and closes that one. */
  function Startup(fds: Fds, console: End): (r: Fds)
    decreases 3 - Lowest(fds, 0)
  {
    var k := Lowest(fds, 0);
    if k == |fds| || k >= 3 then fds else
      assert Lowest(fds[k := Some(console)], 0) > k; Startup(fds[k := Some(console)], console)
  }

  /** So input, output and error output are open, and what was open stays. */
  lemma {:induction false} StartupReady(fds: Fds, console: End)
    requires |fds| >= 3
    ensures var r := Startup(fds, console);
      |r| == |fds| && forall k :: 0 <= k < |fds| ==> r[k] == if k < 3 && fds[k].None? then Some(console) else fds[k]
    decreases 3 - Lowest(fds, 0)
  {
    var k := Lowest(fds, 0);
    if k < 3 {
      assert Lowest(fds[k := Some(console)], 0) > k;
      StartupReady(fds[k := Some(console)], console);
    }
  }
}
