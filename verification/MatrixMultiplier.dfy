/** The matrix multiplications V1, V2 and V3 (MatrixMultiplier/src/MultiplierVersions) over any
    addition and multiplication: nothing is assumed of them, so two results are equal only if
    every cell adds the same terms in the same order.
 */
module MatrixMultiplier {
  import opened Common

  datatype Ops<!T> = Ops(add: (T, T) -> T, mul: (T, T) -> T)

  predicate Square<T>(a: array2<T>, n: nat) {
    a.Length0 == n && a.Length1 == n
  }

  /** Cell (i, j) after its first k terms, in ascending order, on top of what it held. */
  ghost function Cell<T>(f: Ops<T>, a: array2<T>, b: array2<T>, n: nat, init: T, i: nat, j: nat, k: nat): T
    requires Square(a, n) && Square(b, n) && i < n && j < n && k <= n
    reads a, b
  {
    if k == 0 then init else f.add(Cell(f, a, b, n, init, i, j, k - 1), f.mul(a[i, k - 1], b[k - 1, j]))
  }

  // In the methods, `c` is the new matrix, with whatever its memory holds. Matrices of different
  // sizes are refused: `ok` is false.

  /** V1: i, j, k. */
  method MultiplyV1<T>(f: Ops<T>, a: array2<T>, b: array2<T>, c: array2<T>) returns (ok: bool)
    requires Square(a, a.Length0) && Square(b, b.Length0) && Square(c, a.Length0) && c != a && c != b
    modifies c
    ensures ok <==> a.Length0 == b.Length0
    ensures var n := a.Length0; forall i, j :: 0 <= i < n && 0 <= j < n ==>
              c[i, j] == if ok then Cell(f, a, b, n, old(c[i, j]), i, j, n) else old(c[i, j])
  {
    if a.Length0 != b.Length0 { return false; }
    var n := a.Length0;
    for i := 0 to n
      invariant forall r, s :: 0 <= r < i && 0 <= s < n ==> c[r, s] == Cell(f, a, b, n, old(c[r, s]), r, s, n)
      invariant forall r, s :: i <= r < n && 0 <= s < n ==> c[r, s] == old(c[r, s])
    {
      for j := 0 to n
        invariant forall r, s :: 0 <= r < i && 0 <= s < n ==> c[r, s] == Cell(f, a, b, n, old(c[r, s]), r, s, n)
        invariant forall s :: 0 <= s < j ==> c[i, s] == Cell(f, a, b, n, old(c[i, s]), i, s, n)
        invariant forall s :: j <= s < n ==> c[i, s] == old(c[i, s])
        invariant forall r, s :: i < r < n && 0 <= s < n ==> c[r, s] == old(c[r, s])
      {
        for k := 0 to n
          invariant forall r, s :: 0 <= r < i && 0 <= s < n ==> c[r, s] == Cell(f, a, b, n, old(c[r, s]), r, s, n)
          invariant forall s :: 0 <= s < j ==> c[i, s] == Cell(f, a, b, n, old(c[i, s]), i, s, n)
          invariant c[i, j] == Cell(f, a, b, n, old(c[i, j]), i, j, k)
          invariant forall s :: j < s < n ==> c[i, s] == old(c[i, s])
          invariant forall r, s :: i < r < n && 0 <= s < n ==> c[r, s] == old(c[r, s])
        {
          c[i, j] := f.add(c[i, j], f.mul(a[i, k], b[k, j]));
        }
      }
    }
    return true;
  }

  /** V2: i, k, j, which is what a thread of V3 does with its rows. */
  method MultiplyV2<T>(f: Ops<T>, a: array2<T>, b: array2<T>, c: array2<T>) returns (ok: bool)
    requires Square(a, a.Length0) && Square(b, b.Length0) && Square(c, a.Length0) && c != a && c != b
    modifies c
    ensures ok <==> a.Length0 == b.Length0
    ensures var n := a.Length0; forall i, j :: 0 <= i < n && 0 <= j < n ==>
              c[i, j] == if ok then Cell(f, a, b, n, old(c[i, j]), i, j, n) else old(c[i, j])
  {
    if a.Length0 != b.Length0 { return false; }
    MultForThread(f, a, b, a.Length0, c, 0, a.Length0);
    return true;
  }

  /** The rows from `start` up to `end`; no other row changes. */
  method MultForThread<T>(f: Ops<T>, a: array2<T>, b: array2<T>, n: nat, c: array2<T>, start: nat, end: nat)
    requires Square(a, n) && Square(b, n) && Square(c, n) && c != a && c != b && start <= end <= n
    modifies c
    ensures forall i, j :: 0 <= i < n && 0 <= j < n ==>
              c[i, j] == if start <= i < end then Cell(f, a, b, n, old(c[i, j]), i, j, n) else old(c[i, j])
  {
    for i := start to end
      invariant forall r, s :: 0 <= r < n && 0 <= s < n ==>
                  c[r, s] == if start <= r < i then Cell(f, a, b, n, old(c[r, s]), r, s, n) else old(c[r, s])
    {
      for k := 0 to n
        invariant forall r, s :: 0 <= r < n && 0 <= s < n && r != i ==>
                    c[r, s] == if start <= r < i then Cell(f, a, b, n, old(c[r, s]), r, s, n) else old(c[r, s])
        invariant forall s :: 0 <= s < n ==> c[i, s] == Cell(f, a, b, n, old(c[i, s]), i, s, k)
      {
        for j := 0 to n
          invariant forall r, s :: 0 <= r < n && 0 <= s < n && r != i ==>
                      c[r, s] == if start <= r < i then Cell(f, a, b, n, old(c[r, s]), r, s, n) else old(c[r, s])
          invariant forall s :: 0 <= s < n ==> c[i, s] == Cell(f, a, b, n, old(c[i, s]), i, s, if s < j then k + 1 else k)
        {
          c[i, j] := f.add(c[i, j], f.mul(a[i, k], b[k, j]));
        }
      }
    }
  }

  // ----- V3: the rows in contiguous ranges, one for each thread, the rest for the last

  function First(size: nat, threads: nat, w: nat): nat
    requires w < threads
  {
    w * (size / threads)
  }

  function End(size: nat, threads: nat, w: nat): nat
    requires w < threads
  {
    if w == threads - 1 then size else (w + 1) * (size / threads)
  }

  lemma Bounds(size: nat, threads: nat, w: nat)
    requires w < threads
    ensures First(size, threads, w) <= End(size, threads, w) <= size
    ensures w + 1 < threads ==> End(size, threads, w) == First(size, threads, w + 1)
  {
    var d := size / threads;
    assert threads * d <= size;
    Times(w, threads, d);
    Times(w + 1, threads, d);
  }

  lemma Times(x: nat, y: nat, d: nat)
    requires x <= y
    ensures x * d <= y * d
  {
  }

  lemma {:induction false} FirstGrows(size: nat, threads: nat, v: nat, w: nat)
    requires v < w < threads
    ensures End(size, threads, v) <= First(size, threads, w)
  {
    Times(v + 1, w, size / threads);
  }

  predicate Mine(size: nat, threads: nat, w: nat, r: nat) {
    w < threads && First(size, threads, w) <= r < End(size, threads, w)
  }

  /** The rows of the first threads are those before the next one's. */
  lemma {:induction false} OwnerOf(size: nat, threads: nat, r: nat, upto: nat) returns (w: nat)
    requires upto < threads && r < End(size, threads, upto)
    ensures Mine(size, threads, w, r)
  {
    if First(size, threads, upto) <= r {
      w := upto;
    } else {
      if upto > 0 { Bounds(size, threads, upto - 1); }
      w := OwnerOf(size, threads, r, upto - 1);
    }
  }

  /** Every row belongs to exactly one thread, whether or not the size is a multiple of the number
      of threads. */
  lemma RowsPartitioned(size: nat, threads: nat, r: nat)
    requires 1 <= threads && r < size
    ensures exists w: nat :: Mine(size, threads, w, r)
    ensures forall v: nat, w: nat :: Mine(size, threads, v, r) && Mine(size, threads, w, r) ==> v == w
  {
    var w := OwnerOf(size, threads, r, threads - 1);
    forall v: nat, w: nat | Mine(size, threads, v, r) && Mine(size, threads, w, r) ensures v == w {
      if v < w { FirstGrows(size, threads, v, w); }
      if w < v { FirstGrows(size, threads, w, v); }
    }
  }

  // ----- V3: the threads interleave at every load and store of a cell

  /** A run of V3: the inputs, what the memory of C held, and the number of threads. */
  datatype Job<!T> = Job(f: Ops<T>, a: array2<T>, b: array2<T>, n: nat, init: map<(nat, nat), T>, threads: nat)

  /** A thread's loop variables, and the value of C.at(i, j) once it has loaded it. */
  datatype Worker<T> = Worker(i: nat, k: nat, j: nat, end: nat, loaded: Option<T>)

  datatype State<T> = State(cells: map<(nat, nat), T>, workers: seq<Worker<T>>)

  ghost predicate JobOk<T>(job: Job<T>) {
    && Square(job.a, job.n) && Square(job.b, job.n) && job.threads >= 1
    && forall r: nat, s: nat :: r < job.n && s < job.n ==> (r, s) in job.init
  }

  ghost function Start<T>(job: Job<T>): State<T>
    requires JobOk(job)
  {
    State(job.init, seq(job.threads, w requires 0 <= w < job.threads =>
      Worker(First(job.n, job.threads, w), 0, 0, End(job.n, job.threads, w), None)))
  }

  function Advance<T>(n: nat, w: Worker<T>): Worker<T> {
    if w.j + 1 < n then Worker(w.i, w.k, w.j + 1, w.end, None)
    else if w.k + 1 < n then Worker(w.i, w.k + 1, 0, w.end, None)
    else Worker(w.i + 1, 0, 0, w.end, None)
  }

  ghost predicate Running<T>(job: Job<T>, s: State<T>, w: nat) {
    && w < |s.workers| && s.workers[w].i < s.workers[w].end <= job.n
    && s.workers[w].k < job.n && s.workers[w].j < job.n && (s.workers[w].i, s.workers[w].j) in s.cells
  }

  /** Thread w loads a cell, or stores it and goes on. */
  ghost function Step<T>(job: Job<T>, s: State<T>, w: nat): State<T>
    requires JobOk(job) && Running(job, s, w)
    reads job.a, job.b
  {
    var p := s.workers[w];
    if p.loaded.None? then
      s.(workers := s.workers[w := p.(loaded := Some(s.cells[(p.i, p.j)]))])
    else
      State(s.cells[(p.i, p.j) := job.f.add(p.loaded.value, job.f.mul(job.a[p.i, p.k], job.b[p.k, p.j]))],
            s.workers[w := Advance(job.n, p)])
  }

  /** How many terms of cell (r, s) the thread has added. */
  function Terms<T>(n: nat, p: Worker<T>, r: nat, s: nat): (k: nat)
    requires p.k < n || p.k == 0
    ensures k <= n || n == 0
  {
    if r < p.i then n else if r > p.i then 0 else if s < p.j && p.k < n then p.k + 1 else p.k
  }

  ghost predicate WorkerOk<T>(job: Job<T>, s: State<T>, w: nat)
    requires w < |s.workers| && w < job.threads
  {
    var p := s.workers[w];
    && p.end == End(job.n, job.threads, w) && First(job.n, job.threads, w) <= p.i <= p.end
    && (p.i < p.end ==> p.k < job.n && p.j < job.n && p.end <= job.n && (p.i, p.j) in s.cells)
    && (p.i == p.end ==> p.k == 0 && p.j == 0 && p.loaded.None?)
    && (p.loaded.Some? ==> p.loaded.value == s.cells[(p.i, p.j)])
  }

  ghost predicate CellOk<T>(job: Job<T>, s: State<T>, r: nat, c: nat, w: nat)
    requires JobOk(job) && r < job.n && c < job.n && w < |s.workers| && w < job.threads && WorkerOk(job, s, w)
    reads job.a, job.b
  {
    && (r, c) in s.cells
    && s.cells[(r, c)] == Cell(job.f, job.a, job.b, job.n, job.init[(r, c)], r, c, Terms(job.n, s.workers[w], r, c))
  }

  ghost predicate Inv<T>(job: Job<T>, s: State<T>)
    requires JobOk(job)
    reads job.a, job.b
  {
    && |s.workers| == job.threads
    && (forall w :: 0 <= w < job.threads ==> WorkerOk(job, s, w))
    && (forall r: nat, c: nat, w: nat :: r < job.n && c < job.n && Mine(job.n, job.threads, w, r) ==> CellOk(job, s, r, c, w))
  }

  lemma StartOk<T>(job: Job<T>)
    requires JobOk(job)
    ensures Inv(job, Start(job))
  {
    forall w: nat | w < job.threads ensures WorkerOk(job, Start(job), w) {
      Bounds(job.n, job.threads, w);
    }
  }

  lemma InvAt<T>(job: Job<T>, s: State<T>, r: nat, c: nat, w: nat)
    requires JobOk(job) && Inv(job, s) && w < job.threads
    ensures |s.workers| == job.threads && WorkerOk(job, s, w)
    ensures r < job.n && c < job.n && Mine(job.n, job.threads, w, r) ==> CellOk(job, s, r, c, w)
  {
  }

  /** Two threads are never at the same cell. */
  lemma ApartRows<T>(job: Job<T>, s: State<T>, v: nat, w: nat)
    requires JobOk(job) && Inv(job, s) && Running(job, s, v) && Running(job, s, w) && v != w
    ensures s.workers[v].i != s.workers[w].i
  {
    InvAt(job, s, 0, 0, v);
    InvAt(job, s, 0, 0, w);
    RowsPartitioned(job.n, job.threads, s.workers[v].i);
    assert Mine(job.n, job.threads, v, s.workers[v].i) && Mine(job.n, job.threads, w, s.workers[w].i);
  }

  lemma StepOther<T>(job: Job<T>, s: State<T>, w: nat, v: nat)
    requires JobOk(job) && Inv(job, s) && Running(job, s, w) && v < job.threads && v != w
    ensures |Step(job, s, w).workers| == job.threads && WorkerOk(job, Step(job, s, w), v)
  {
    InvAt(job, s, 0, 0, v);
    if s.workers[v].i < s.workers[v].end {
      assert Running(job, s, v);
      ApartRows(job, s, v, w);
    }
    hide Inv, Cell, First, End;
  }

  lemma StepWorker<T>(job: Job<T>, s: State<T>, w: nat, v: nat)
    requires JobOk(job) && Inv(job, s) && Running(job, s, w) && v < job.threads
    ensures |Step(job, s, w).workers| == job.threads && WorkerOk(job, Step(job, s, w), v)
  {
    if v != w {
      StepOther(job, s, w, v);
    } else {
      InvAt(job, s, 0, 0, w);
      var p := s.workers[w];
      assert p.i + 1 < p.end ==> (p.i + 1, 0) in s.cells by { CellsThere(job, s, p.i + 1, 0); }
      assert forall j :: 0 <= j < job.n ==> (p.i, j) in s.cells by {
        forall j | 0 <= j < job.n ensures (p.i, j) in s.cells { CellsThere(job, s, p.i, j); }
      }
      hide Inv, Cell, First, End;
    }
  }

  lemma CellsThere<T>(job: Job<T>, s: State<T>, r: nat, c: nat)
    requires JobOk(job) && Inv(job, s)
    ensures r < job.n && c < job.n ==> (r, c) in s.cells
  {
    if r < job.n && c < job.n {
      RowsPartitioned(job.n, job.threads, r);
      var w: nat :| Mine(job.n, job.threads, w, r);
      InvAt(job, s, r, c, w);
    }
  }

  lemma StepCell<T>(job: Job<T>, s: State<T>, w: nat, r: nat, c: nat, v: nat)
    requires JobOk(job) && Inv(job, s) && Running(job, s, w)
    requires r < job.n && c < job.n && Mine(job.n, job.threads, v, r)
    requires |Step(job, s, w).workers| == job.threads && WorkerOk(job, Step(job, s, w), v)
    ensures CellOk(job, Step(job, s, w), r, c, v)
  {
    InvAt(job, s, r, c, v);
    InvAt(job, s, r, c, w);
    var p := s.workers[w];
    if v == w {
      hide Inv;
    } else {
      RowsPartitioned(job.n, job.threads, r);
      assert !Mine(job.n, job.threads, w, r);
      hide Inv, Cell;
    }
  }

  lemma StepOk<T>(job: Job<T>, s: State<T>, w: nat)
    requires JobOk(job) && Inv(job, s) && Running(job, s, w)
    ensures Inv(job, Step(job, s, w))
  {
    var s' := Step(job, s, w);
    hide Step, CellOk, WorkerOk;
    forall v: nat | v < job.threads ensures |s'.workers| == job.threads && WorkerOk(job, s', v) {
      StepWorker(job, s, w, v);
    }
    forall r: nat, c: nat, v: nat | r < job.n && c < job.n && Mine(job.n, job.threads, v, r) ensures CellOk(job, s', r, c, v) {
      StepCell(job, s, w, r, c, v);
    }
    StepWorker(job, s, w, 0);
  }

  /** The threads' steps, in any order. */
  ghost predicate Run<T>(job: Job<T>, run: seq<State<T>>, turns: seq<nat>)
    requires JobOk(job)
    reads job.a, job.b
  {
    && |run| == |turns| + 1 && run[0] == Start(job)
    && forall i {:trigger turns[i]} :: 0 <= i < |turns| ==>
         Running(job, run[i], turns[i]) && run[i + 1] == Step(job, run[i], turns[i])
  }

  lemma {:induction false} RunOk<T>(job: Job<T>, run: seq<State<T>>, turns: seq<nat>, i: nat)
    requires JobOk(job) && Run(job, run, turns) && i < |run|
    ensures Inv(job, run[i])
  {
    hide Inv, Start, Running, Step;
    if i == 0 {
      StartOk(job);
    } else {
      RunOk(job, run, turns, i - 1);
      assert Running(job, run[i - 1], turns[i - 1]);
      StepOk(job, run[i - 1], turns[i - 1]);
    }
  }

  predicate Joined<T>(s: State<T>) {
    forall w :: 0 <= w < |s.workers| ==> s.workers[w].i == s.workers[w].end
  }

  /** Once all threads are joined, every cell has added its n terms in ascending order, however the
      threads interleaved: V3 returns the matrix that V1 and V2 return. */
  lemma V3IsV1<T>(job: Job<T>, run: seq<State<T>>, turns: seq<nat>, r: nat, c: nat)
    requires JobOk(job) && Run(job, run, turns) && r < job.n && c < job.n
    requires Joined(run[|run| - 1])
    ensures (r, c) in run[|run| - 1].cells
    ensures run[|run| - 1].cells[(r, c)] == Cell(job.f, job.a, job.b, job.n, job.init[(r, c)], r, c, job.n)
  {
    var s := run[|run| - 1];
    RunOk(job, run, turns, |run| - 1);
    RowsPartitioned(job.n, job.threads, r);
    var w: nat :| Mine(job.n, job.threads, w, r);
    InvAt(job, s, r, c, w);
    hide Inv, Run;
  }

  // ----- every run ends, with all threads joined

  /** The loads and stores that a thread still has to do. */
  function Left<T>(n: nat, p: Worker<T>): int {
    2 * ((p.end - p.i) * (n * n) - p.k * n - p.j) - (if p.loaded.Some? then 1 else 0)
  }

  function AllLeft<T>(n: nat, workers: seq<Worker<T>>): int {
    if workers == [] then 0 else AllLeft(n, workers[..|workers| - 1]) + Left(n, workers[|workers| - 1])
  }

  lemma {:induction false} OneLess<T>(n: nat, workers: seq<Worker<T>>, w: nat, p: Worker<T>)
    requires w < |workers|
    ensures AllLeft(n, workers[w := p]) == AllLeft(n, workers) - Left(n, workers[w]) + Left(n, p)
  {
    var last := |workers| - 1;
    if w < last {
      OneLess(n, workers[..last], w, p);
      assert workers[w := p][..last] == workers[..last][w := p];
    } else {
      assert workers[w := p][..last] == workers[..last];
    }
  }

  lemma OneTimesLess(x: int, m: int)
    ensures (x - 1) * m == x * m - m
  {
  }

  lemma AdvanceLess<T>(n: nat, p: Worker<T>)
    requires p.i < p.end && p.k < n && p.j < n && p.loaded.Some?
    ensures Left(n, Advance(n, p)) == Left(n, p) - 1
  {
    if p.j + 1 < n {
    } else if p.k + 1 < n {
      OneTimesLess(p.k + 1, n);
    } else {
      OneTimesLess(n, n);
      OneTimesLess(p.end - p.i, n * n);
      assert p.end - (p.i + 1) == p.end - p.i - 1 && p.k == n - 1;
    }
  }

  /** Each step leaves one less to do. */
  lemma StepLess<T>(job: Job<T>, s: State<T>, w: nat)
    requires JobOk(job) && Running(job, s, w)
    ensures AllLeft(job.n, Step(job, s, w).workers) == AllLeft(job.n, s.workers) - 1
  {
    hide Left, AllLeft, Advance;
    var p := s.workers[w];
    if p.loaded.None? {
      LoadLess(job.n, p, s.cells[(p.i, p.j)]);
    } else {
      AdvanceLess(job.n, p);
    }
    OneLess(job.n, s.workers, w, Step(job, s, w).workers[w]);
  }

  lemma LoadLess<T>(n: nat, p: Worker<T>, v: T)
    requires p.loaded.None?
    ensures Left(n, p.(loaded := Some(v))) == Left(n, p) - 1
  {
  }

  lemma NothingLess<T>(n: nat, p: Worker<T>)
    requires p.i <= p.end && (p.i < p.end ==> p.k < n && p.j < n)
    requires p.i == p.end ==> p.k == 0 && p.j == 0 && p.loaded.None?
    ensures Left(n, p) >= 0
  {
    if p.i < p.end {
      assert (p.k + 1) * n == p.k * n + n;
      Times(p.k + 1, n, n);
      Times(1, p.end - p.i, n * n);
    }
  }

  lemma {:induction false} AllLeftIsNat<T>(job: Job<T>, s: State<T>, m: nat)
    requires JobOk(job) && Inv(job, s) && m <= job.threads
    ensures AllLeft(job.n, s.workers[..m]) >= 0
  {
    hide Inv, Left;
    InvAt(job, s, 0, 0, 0);
    if m > 0 {
      AllLeftIsNat(job, s, m - 1);
      InvAt(job, s, 0, 0, m - 1);
      NothingLess(job.n, s.workers[m - 1]);
      assert s.workers[..m][..m - 1] == s.workers[..m - 1];
    }
  }

  /** As long as not all threads are joined, some thread can take a step. */
  lemma SomeRuns<T>(job: Job<T>, s: State<T>) returns (w: nat)
    requires JobOk(job) && Inv(job, s) && !Joined(s)
    ensures Running(job, s, w)
  {
    InvAt(job, s, 0, 0, 0);
    w :| 0 <= w < |s.workers| && s.workers[w].i != s.workers[w].end;
    InvAt(job, s, 0, 0, w);
    hide Inv;
  }

  lemma {:induction false} RunIsShort<T>(job: Job<T>, run: seq<State<T>>, turns: seq<nat>, i: nat)
    requires JobOk(job) && Run(job, run, turns) && i < |run|
    ensures AllLeft(job.n, run[i].workers) == AllLeft(job.n, run[0].workers) - i
  {
    hide Inv, Start, Running, Step, AllLeft;
    if i > 0 {
      RunIsShort(job, run, turns, i - 1);
      assert Running(job, run[i - 1], turns[i - 1]);
      StepLess(job, run[i - 1], turns[i - 1]);
    }
  }

  ghost predicate CanStep<T>(job: Job<T>, s: State<T>) {
    exists w: nat :: Running(job, s, w)
  }

  /** No run takes more steps than there are loads and stores, and a run that cannot be continued has all
      threads joined: whoever moves when, V3 ends. */
  lemma RunsEndJoined<T>(job: Job<T>, run: seq<State<T>>, turns: seq<nat>)
    requires JobOk(job) && Run(job, run, turns)
    ensures |turns| <= AllLeft(job.n, Start(job).workers)
    ensures CanStep(job, run[|run| - 1]) <==> !Joined(run[|run| - 1])
  {
    hide Start, Step, AllLeft, Inv;
    var s := run[|run| - 1];
    RunOk(job, run, turns, |run| - 1);
    RunIsShort(job, run, turns, |run| - 1);
    InvAt(job, s, 0, 0, 0);
    AllLeftIsNat(job, s, job.threads);
    assert s.workers[..job.threads] == s.workers;
    if !Joined(s) { var w := SomeRuns(job, s); }
  }

  // ----- real numbers

  function Reals(): Ops<real> {
    Ops((x, y) => x + y, (x, y) => x * y)
  }

  /** The mathematical inner product of row i of A and column j of B, up to k. */
  ghost function Dot(a: array2<real>, b: array2<real>, n: nat, i: nat, j: nat, k: nat): real
    requires Square(a, n) && Square(b, n) && i < n && j < n && k <= n
    reads a, b
  {
    if k == 0 then 0.0 else Dot(a, b, n, i, j, k - 1) + a[i, k - 1] * b[k - 1, j]
  }

  lemma {:induction false} CellIsDot(a: array2<real>, b: array2<real>, n: nat, init: real, i: nat, j: nat, k: nat)
    requires Square(a, n) && Square(b, n) && i < n && j < n && k <= n
    ensures Cell(Reals(), a, b, n, init, i, j, k) == init + Dot(a, b, n, i, j, k)
  {
    if k > 0 { CellIsDot(a, b, n, init, i, j, k - 1); }
  }

  /** The constructor clears the first row of C and nothing else. Over the reals the result is
      the product of A and B exactly if the other rows of the fresh memory hold zeros as well. */
  lemma ProductExactlyWhen(a: array2<real>, b: array2<real>, n: nat, init: map<(nat, nat), real>)
    requires Square(a, n) && Square(b, n)
    requires forall r: nat, s: nat :: r < n && s < n ==> (r, s) in init && (r == 0 ==> init[(r, s)] == 0.0)
    ensures (forall r: nat, s: nat :: r < n && s < n ==>
               Cell(Reals(), a, b, n, init[(r, s)], r, s, n) == Dot(a, b, n, r, s, n))
            <==> (forall r: nat, s: nat :: 1 <= r < n && s < n ==> init[(r, s)] == 0.0)
  {
    forall r: nat, s: nat | r < n && s < n
      ensures Cell(Reals(), a, b, n, init[(r, s)], r, s, n) == init[(r, s)] + Dot(a, b, n, r, s, n)
    {
      CellIsDot(a, b, n, init[(r, s)], r, s, n);
    }
  }
}
