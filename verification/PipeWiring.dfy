/** Lab 5, zad1: how `exec_command_line` connects the processes of a pipeline.  A process is its table
    of open descriptors; a child starts with a copy of its parent's.  `pipe` and `fork` may fail. */
module PipeWiring {

  /** What a descriptor refers to: something opened earlier, or an end of a pipe made here. */
  datatype File = Other(id: int) | ReadEnd(pipe: nat) | WriteEnd(pipe: nat)

  type Table = map<nat, File>

  const STDIN: nat := 0
  const STDOUT: nat := 1

  datatype Outcome = Launched | PipeFailed(at: nat) | ForkFailed(at: nat)

  /** Pipes are numbered in the order they are made; none of those from `first` on is open. */
  ghost predicate NoPipeFrom(t: Table, first: nat) {
    forall fd :: fd in t ==>
      match t[fd]
      case Other(_) => true
      case ReadEnd(p) => p < first
      case WriteEnd(p) => p < first
  }

  ghost predicate Unused(t: Table, r: nat, w: nat) {
    r !in t && w !in t && r != w
  }

  function WithPipe(t: Table, r: nat, w: nat, pipe: nat): Table {
    t[r := ReadEnd(pipe)][w := WriteEnd(pipe)]
  }

  /** The table of child i of n when it starts its program: the read end of the pipe before it as
      standard input and the write end of its own as standard output.  The last child writes where
      its parent does and still has both ends of its own pipe, in descriptors r and w. */
  function ChildTable(base: Table, i: nat, n: nat, first: nat, r: nat, w: nat): Table
    requires i < n
  {
    var t := if i > 0 then base[STDIN := ReadEnd(first + i - 1)] else base;
    if i < n - 1 then t[STDOUT := WriteEnd(first + i)] else WithPipe(t, r, w, first + i)
  }

  ghost predicate IsChild(t: Table, base: Table, i: nat, n: nat, first: nat)
    requires i < n
  {
    exists r, w :: Unused(base, r, w) && t == ChildTable(base, i, n, first, r, w)
  }

  /** The parent between two rounds: it holds both ends of the pipe before child i. */
  ghost predicate HoldsPrevious(t: Table, base: Table, i: nat, r: nat, w: nat, first: nat) {
    if i == 0 then t == base else Unused(base, r, w) && t == WithPipe(base, r, w, first + i - 1)
  }

  /** The parent when `pipe` failed in round i: the pipe before child i stays open, if there is one. */
  ghost predicate Leaks(t: Table, base: Table, i: nat, first: nat) {
    exists r, w :: HoldsPrevious(t, base, i, r, w, first)
  }

  lemma ClosingUndoesPipe(t: Table, r: nat, w: nat, pipe: nat)
    requires Unused(t, r, w)
    ensures WithPipe(t, r, w, pipe) - {r} - {w} == t
  {
  }

  lemma ClosingOlderPipe(t: Table, r: nat, w: nat, pipe: nat, r': nat, w': nat, pipe': nat)
    requires Unused(t, r, w) && Unused(WithPipe(t, r, w, pipe), r', w')
    ensures WithPipe(WithPipe(t, r, w, pipe), r', w', pipe') - {r} - {w} == WithPipe(t, r', w', pipe')
  {
  }

  lemma InputConnected(t: Table, r: nat, w: nat, pipe: nat, r': nat, w': nat, pipe': nat)
    requires Unused(t, r, w) && Unused(WithPipe(t, r, w, pipe), r', w') && STDIN in t
    ensures (WithPipe(WithPipe(t, r, w, pipe), r', w', pipe') - {w})[STDIN := ReadEnd(pipe)] - {r}
            == WithPipe(t[STDIN := ReadEnd(pipe)], r', w', pipe')
  {
  }

  lemma OutputConnected(t: Table, r: nat, w: nat, pipe: nat)
    requires Unused(t, r, w) && STDOUT in t
    ensures (WithPipe(t, r, w, pipe) - {r})[STDOUT := WriteEnd(pipe)] - {w} == t[STDOUT := WriteEnd(pipe)]
  {
  }

  /** The descriptor tables of a pipeline that got launched: the parent's and the children's. */
  datatype Pipeline = Pipeline(base: Table, first: nat, children: seq<Table>)

  ghost predicate WellWired(p: Pipeline) {
    && NoPipeFrom(p.base, p.first) && STDIN in p.base && STDOUT in p.base
    && forall k :: 0 <= k < |p.children| ==> IsChild(p.children[k], p.base, k, |p.children|, p.first)
  }

  class Process {
    var fds: Table

    constructor (fds: Table)
      ensures this.fds == fds
    {
      this.fds := fds;
    }

    /** The lowest descriptor not in use. */
    method LowestUnused() returns (fd: nat)
      ensures fd !in fds && forall k :: 0 <= k < fd ==> k in fds
    {
      fd := 0;
      ghost var rest := fds.Keys;
      while fd in fds
        invariant forall k :: 0 <= k < fd ==> k in fds
        invariant forall k :: k in fds && k >= fd ==> k in rest
        decreases rest
      {
        rest := rest - {fd};
        fd := fd + 1;
      }
    }

    method Pipe(id: nat) returns (r: nat, w: nat)
      modifies this
      ensures Unused(old(fds), r, w) && fds == WithPipe(old(fds), r, w, id)
    {
      r := LowestUnused();
      fds := fds[r := ReadEnd(id)];
      w := LowestUnused();
      fds := fds[w := WriteEnd(id)];
    }

    method Close(fd: nat)
      modifies this
      ensures fds == old(fds) - {fd}
    {
      fds := fds - {fd};
    }

    method ClosePipe(r: nat, w: nat, ghost t: Table, ghost pipe: nat)
      requires Unused(t, r, w) && fds == WithPipe(t, r, w, pipe)
      modifies this
      ensures fds == t
    {
      ClosingUndoesPipe(t, r, w, pipe);
      Close(r);
      Close(w);
    }

    method Dup2(from: nat, to: nat)
      requires from in fds
      modifies this
      ensures fds == old(fds)[to := old(fds)[from]]
    {
      fds := fds[to := fds[from]];
    }

    method Fork() returns (child: Process)
      ensures fresh(child) && child.fds == fds
    {
      child := new Process(fds);
    }

    /** The first half of what the child does between fork and exec: its standard input becomes the
        read end of the pipe before it. */
    method ConnectInput(r: nat, w: nat, ghost t: Table, ghost pipe: nat, ghost r': nat, ghost w': nat, ghost pipe': nat)
      requires Unused(t, r, w) && Unused(WithPipe(t, r, w, pipe), r', w') && STDIN in t
      requires fds == WithPipe(WithPipe(t, r, w, pipe), r', w', pipe')
      modifies this
      ensures fds == WithPipe(t[STDIN := ReadEnd(pipe)], r', w', pipe')
    {
      InputConnected(t, r, w, pipe, r', w', pipe');
      Close(w);
      Dup2(r, STDIN);
      Close(r);
    }

    /** The second half: its standard output becomes the write end of its own pipe. */
    method ConnectOutput(r: nat, w: nat, ghost t: Table, ghost pipe: nat)
      requires Unused(t, r, w) && STDOUT in t && fds == WithPipe(t, r, w, pipe)
      modifies this
      ensures fds == t[STDOUT := WriteEnd(pipe)]
    {
      OutputConnected(t, r, w, pipe);
      Close(r);
      Dup2(w, STDOUT);
      Close(w);
    }

    method Connect(i: nat, n: nat, prevR: nat, prevW: nat, currR: nat, currW: nat, ghost base: Table, ghost first: nat)
      requires i < n && STDIN in base && STDOUT in base && Unused(base, currR, currW)
      requires if i == 0 then fds == WithPipe(base, currR, currW, first)
               else Unused(base, prevR, prevW) && Unused(WithPipe(base, prevR, prevW, first + i - 1), currR, currW)
                    && fds == WithPipe(WithPipe(base, prevR, prevW, first + i - 1), currR, currW, first + i)
      modifies this
      ensures fds == ChildTable(base, i, n, first, currR, currW)
    {
      ghost var t := base;
      if i > 0 {
        ConnectInput(prevR, prevW, base, first + i - 1, currR, currW, first + i);
        t := base[STDIN := ReadEnd(first + i - 1)];
      }
      if i < n - 1 {
        ConnectOutput(currR, currW, t, first + i);
      }
    }

    /** One round of the loop.  On success the child's table, and the pipe made for it, whose ends the
        parent keeps open for one more round, except in the last round. */
    method LaunchChild(i: nat, n: nat, first: nat, forkOk: bool, prevR: nat, prevW: nat, ghost base: Table)
      returns (child: Table, currR: nat, currW: nat)
      requires i < n && STDIN in base && STDOUT in base && HoldsPrevious(fds, base, i, prevR, prevW, first)
      modifies this
      ensures !forkOk ==> fds == base
      ensures forkOk ==> Unused(base, currR, currW) && child == ChildTable(base, i, n, first, currR, currW)
      ensures forkOk ==> fds == if i == n - 1 then base else WithPipe(base, currR, currW, first + i)
    {
      ghost var before := fds;
      currR, currW := Pipe(first + i);
      if !forkOk {
        child := map[];
        ClosePipe(currR, currW, before, first + i);
        if i > 0 {
          ClosePipe(prevR, prevW, base, first + i - 1);
        }
        return;
      }
      var process := Fork();
      process.Connect(i, n, prevR, prevW, currR, currW, base, first);
      child := process.fds;
      if i > 0 {
        ClosingOlderPipe(base, prevR, prevW, first + i - 1, currR, currW, first + i);
        Close(prevR);
        Close(prevW);
      }
      assert fds == WithPipe(base, currR, currW, first + i);
      if i == n - 1 {
        ClosePipe(currR, currW, base, first + i);
      }
    }

    /** Launches n children.  `pipeOk` and `forkOk` tell which system calls succeed; `first` is the
        number of pipes made so far. */
    method ExecCommandLine(n: nat, first: nat, pipeOk: seq<bool>, forkOk: seq<bool>)
      returns (outcome: Outcome, children: seq<Table>)
      requires STDIN in fds && STDOUT in fds && |pipeOk| == n && |forkOk| == n
      modifies this
      ensures outcome.Launched? ==> fds == old(fds) && |children| == n
      ensures outcome.ForkFailed? ==>
                fds == old(fds) && |children| == outcome.at < n && pipeOk[outcome.at] && !forkOk[outcome.at]
      ensures outcome.PipeFailed? ==> |children| == outcome.at < n && !pipeOk[outcome.at]
      ensures !outcome.Launched? ==> forall k :: 0 <= k < outcome.at ==> pipeOk[k] && forkOk[k]
      ensures outcome.PipeFailed? ==> Leaks(fds, old(fds), outcome.at, first)
      ensures outcome.Launched? <==> forall k :: 0 <= k < n ==> pipeOk[k] && forkOk[k]
      ensures forall k :: 0 <= k < |children| ==> IsChild(children[k], old(fds), k, n, first)
      ensures outcome.Launched? && NoPipeFrom(old(fds), first) ==> WellWired(Pipeline(old(fds), first, children))
    {
      ghost var base := fds;
      var prevR, prevW := 0, 0;
      children := [];
      for i := 0 to n
        invariant |children| == i
        invariant if i == n then fds == base else HoldsPrevious(fds, base, i, prevR, prevW, first)
        invariant forall k :: 0 <= k < i ==> pipeOk[k] && forkOk[k]
        invariant forall k :: 0 <= k < i ==> IsChild(children[k], base, k, n, first)
      {
        if !pipeOk[i] {
          return PipeFailed(i), children;
        }
        var child, currR, currW := LaunchChild(i, n, first, forkOk[i], prevR, prevW, base);
        if !forkOk[i] {
          return ForkFailed(i), children;
        }
        children := children + [child];
        prevR, prevW := currR, currW;
      }
      outcome := Launched;
    }
  }

  // ---------------------------------------------------------------- what the wiring is for

  /** Child k has f open as descriptor fd. */
  predicate Holds(p: Pipeline, k: nat, fd: nat, f: File)
    requires k < |p.children|
  {
    fd in p.children[k] && p.children[k][fd] == f
  }

  lemma OwnPipe(p: Pipeline, k: nat) returns (r: nat, w: nat)
    requires WellWired(p) && k < |p.children|
    ensures Unused(p.base, r, w) && p.children[k] == ChildTable(p.base, k, |p.children|, p.first, r, w)
  {
    assert IsChild(p.children[k], p.base, k, |p.children|, p.first);
    r, w :| Unused(p.base, r, w) && p.children[k] == ChildTable(p.base, k, |p.children|, p.first, r, w);
  }

  /** The write end of the pipe between children j and j + 1 is open only as standard output of j. */
  lemma WriteEndOwner(p: Pipeline, j: nat, k: nat, fd: nat)
    requires WellWired(p) && j < |p.children| - 1 && k < |p.children|
    ensures Holds(p, k, fd, WriteEnd(p.first + j)) <==> k == j && fd == STDOUT
  {
    var r, w := OwnPipe(p, k);
  }

  /** Its read end is open only as standard input of j + 1. */
  lemma ReadEndOwner(p: Pipeline, j: nat, k: nat, fd: nat)
    requires WellWired(p) && j < |p.children| - 1 && k < |p.children|
    ensures Holds(p, k, fd, ReadEnd(p.first + j)) <==> k == j + 1 && fd == STDIN
  {
    var r, w := OwnPipe(p, k);
  }

  /** The pipeline starts where the parent reads and ends where the parent writes. */
  lemma OuterEnds(p: Pipeline)
    requires WellWired(p) && |p.children| > 0
    ensures Holds(p, 0, STDIN, p.base[STDIN])
    ensures Holds(p, |p.children| - 1, STDOUT, p.base[STDOUT])
  {
    var n := |p.children|;
    var r, w := OwnPipe(p, 0);
    var r', w' := OwnPipe(p, n - 1);
  }

  /** Some process that has not exited has f open; the parent has the table it started with. */
  ghost predicate SomeoneHolds(p: Pipeline, exited: set<nat>, f: File) {
    || f in p.base.Values
    || exists k, fd :: 0 <= k < |p.children| && k !in exited && Holds(p, k, fd, f)
  }

  /** At any time, whichever children have exited: the reader of a pipe sees end-of-file exactly when its
      writer is gone, and the writer is told that nobody reads exactly when its reader is gone. */
  lemma EndOfFilePropagates(p: Pipeline, exited: set<nat>, j: nat)
    requires WellWired(p) && j < |p.children| - 1
    ensures !SomeoneHolds(p, exited, WriteEnd(p.first + j)) <==> j in exited
    ensures !SomeoneHolds(p, exited, ReadEnd(p.first + j)) <==> j + 1 in exited
  {
    assert WriteEnd(p.first + j) !in p.base.Values && ReadEnd(p.first + j) !in p.base.Values;
    WriteEndOwner(p, j, j, STDOUT);
    ReadEndOwner(p, j, j + 1, STDIN);
    var write, read := WriteEnd(p.first + j), ReadEnd(p.first + j);
    forall k, fd | 0 <= k < |p.children| && Holds(p, k, fd, write)
      ensures k == j
    {
      WriteEndOwner(p, j, k, fd);
    }
    forall k, fd | 0 <= k < |p.children| && Holds(p, k, fd, read)
      ensures k == j + 1
    {
      ReadEndOwner(p, j, k, fd);
    }
  }

  /** After a failed `pipe` the parent holds the write end of the pipe before the round that failed: the
      read end is never at end-of-file while the parent lives. */
  lemma LeakKeepsPipeOpen(t: Table, base: Table, i: nat, first: nat)
    requires NoPipeFrom(base, first) && Leaks(t, base, i, first)
    ensures i > 0 ==> WriteEnd(first + i - 1) in t.Values && ReadEnd(first + i - 1) in t.Values
    ensures i == 0 ==> t == base
  {
    var r, w :| HoldsPrevious(t, base, i, r, w, first);
    if i > 0 {
      assert t[w] == WriteEnd(first + i - 1) && t[r] == ReadEnd(first + i - 1);
    }
  }

  /** Every other descriptor of a child is the parent's, and none is new but the two ends of the last child's
      own pipe. */
  lemma OtherDescriptors(p: Pipeline, k: nat, fd: nat)
    requires WellWired(p) && k < |p.children|
    ensures fd in p.base && (fd != STDIN || k == 0) && (fd != STDOUT || k == |p.children| - 1) ==>
              Holds(p, k, fd, p.base[fd])
    ensures fd in p.children[k] && fd !in p.base ==>
              k == |p.children| - 1 && p.children[k][fd] in [ReadEnd(p.first + k), WriteEnd(p.first + k)]
  {
    var r, w := OwnPipe(p, k);
  }

  ghost predicate HoldsSomewhere(p: Pipeline, k: nat, f: File)
    requires k < |p.children|
  {
    exists fd :: Holds(p, k, fd, f)
  }

  /** The last child holds both ends of its own pipe, and no other child does hold one. */
  lemma LastPipe(p: Pipeline, k: nat)
    requires WellWired(p) && k < |p.children|
    ensures var last := |p.children| - 1;
            && (HoldsSomewhere(p, k, ReadEnd(p.first + last)) <==> k == last)
            && (HoldsSomewhere(p, k, WriteEnd(p.first + last)) <==> k == last)
  {
    var r, w := OwnPipe(p, k);
    if k == |p.children| - 1 {
      assert Holds(p, k, r, ReadEnd(p.first + k)) && Holds(p, k, w, WriteEnd(p.first + k));
    }
  }
}
