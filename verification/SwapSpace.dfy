/** The swap device over whole runs: which swap frame holds which page, for any number of
    processes that share one device. */
module SwapSpace {
  import opened Bits
  import opened PageEntry
  import opened Paging
  import opened Faults
  import MemPhy

  /** All processes and the free frames of their swap device. */
  datatype Swap = Swap(spaces: seq<Space>, free: seq<nat>)

  /** One call by process p: map pages 0 .. req-1 with the RAM frames then free, or access a page. */
  datatype Call = Map(p: nat, req: nat, ramFree: seq<nat>) | Touch(p: nat, pgn: nat)

  ghost predicate Sound(w: Swap) {
    forall p :: 0 <= p < |w.spaces| ==> FifoSound(w.spaces[p])
  }

  predicate CanApply(w: Swap, call: Call) {
    && call.p < |w.spaces| && HasTable(w.spaces[call.p]) && FifoInTable(w.spaces[call.p])
    && match call
       case Map(_, req, _) => req <= MAX_PGN
       case Touch(_, pgn) => pgn < MAX_PGN
  }

  function Apply(w: Swap, call: Call): Swap
    requires CanApply(w, call)
  {
    var sp := w.spaces[call.p];
    match call
    case Map(p, req, ramFree) => w.(spaces := w.spaces[p := AllocFrom(sp, ramFree, [], 0, req).sp])
    case Touch(p, pgn) =>
      var r := GetPage(sp, pgn, w.free);
      Swap(w.spaces[p := r.sp], r.swapFree)
  }

  /** Page i of process p is swapped out to frame f. */
  predicate SwappedTo(w: Swap, p: nat, i: nat, f: nat) {
    && p < |w.spaces| && HasTable(w.spaces[p]) && i < MAX_PGN
    && Swapped(w.spaces[p].pgd[i]) && SwpOff(w.spaces[p].pgd[i]) == f
  }

  /** No swap frame holds two pages or is handed out while it holds one, and none is lost. */
  ghost predicate SwapOk(w: Swap, n: nat) {
    && (forall j, k :: 0 <= j < k < |w.free| ==> w.free[j] != w.free[k])
    && (forall k :: 0 <= k < |w.free| ==> w.free[k] < n)
    && (forall p: nat, i: nat, f: nat :: SwappedTo(w, p, i, f) ==> f < n && f !in w.free)
    && (forall p: nat, i: nat, q: nat, j: nat, f: nat ::
          SwappedTo(w, p, i, f) && SwappedTo(w, q, j, f) ==> p == q && i == j)
    && (forall f: nat :: f < n ==> f in w.free || exists p: nat, i: nat :: SwappedTo(w, p, i, f))
  }

  // ---------------------------------------------------------------- one call

  /** A swapped page is present, so mapping passes it by, and what mapping writes is not swapped. */
  lemma MapSwapped(w: Swap, p: nat, req: nat, ramFree: seq<nat>, q: nat, i: nat, f: nat)
    requires Sound(w) && SwappedArePresent(w) && CanApply(w, Map(p, req, ramFree))
    ensures SwappedTo(Apply(w, Map(p, req, ramFree)), q, i, f) <==> SwappedTo(w, q, i, f)
  {
    hide Present, Swapped, SwpOff, PteSetFpn, AllocFrom;
    if q == p && i < MAX_PGN {
      var sp := w.spaces[p];
      AllocEntries(sp, ramFree, [], 0, req, i);
      if AllocFrom(sp, ramFree, [], 0, req).sp.pgd[i] != sp.pgd[i] {
        MappedEntry(sp.pgd[i], ramFree[Absent(sp, 0, i)]);
      }
    }
  }

  ghost predicate SwappedArePresent(w: Swap) {
    forall p, i :: 0 <= p < |w.spaces| && 0 <= i < |w.spaces[p].pgd| ==>
      Swapped(w.spaces[p].pgd[i]) ==> Present(w.spaces[p].pgd[i])
  }

  lemma MapPresent(w: Swap, p: nat, req: nat, ramFree: seq<nat>)
    requires Sound(w) && SwappedArePresent(w) && CanApply(w, Map(p, req, ramFree))
    ensures SwappedArePresent(Apply(w, Map(p, req, ramFree)))
  {
    hide Present, Swapped, PteSetFpn, AllocFrom;
    var sp := w.spaces[p];
    var t := AllocFrom(sp, ramFree, [], 0, req).sp;
    forall i | 0 <= i < MAX_PGN ensures Swapped(t.pgd[i]) ==> Present(t.pgd[i]) {
      AllocEntries(sp, ramFree, [], 0, req, i);
      if t.pgd[i] != sp.pgd[i] { MappedEntry(sp.pgd[i], ramFree[Absent(sp, 0, i)]); }
    }
  }

  /** A fault adds the victim with the first free swap frame and takes nobody back. */
  lemma TouchSwapped(w: Swap, p: nat, pgn: nat, q: nat, i: nat, f: nat)
    requires Sound(w) && SwappedArePresent(w) && CanApply(w, Touch(p, pgn))
    ensures var sp := w.spaces[p];
      SwappedTo(Apply(w, Touch(p, pgn)), q, i, f) <==>
        SwappedTo(w, q, i, f)
        || (Evicts(sp, pgn, w.free) && q == p && i == Last(sp.fifo) && f == w.free[0] % 0x20_0000)
  {
    hide Present, SwpOff, SwpTyp, Fpn, GetPage, Swapped;
    var sp := w.spaces[p];
    if q == p && i < MAX_PGN { AccessEntries(sp, pgn, w.free, i); }
    if Evicts(sp, pgn, w.free) {
      assert Online(sp.pgd[sp.fifo[|sp.fifo| - 1]]);
      AccessEntries(sp, pgn, w.free, Last(sp.fifo));
    }
  }

  lemma TouchPresent(w: Swap, p: nat, pgn: nat)
    requires Sound(w) && SwappedArePresent(w) && CanApply(w, Touch(p, pgn))
    ensures SwappedArePresent(Apply(w, Touch(p, pgn)))
  {
    hide Present, Swapped, SwpOff, SwpTyp, Fpn, GetPage;
    var t := GetPage(w.spaces[p], pgn, w.free).sp;
    forall i | 0 <= i < MAX_PGN ensures Swapped(t.pgd[i]) ==> Present(t.pgd[i]) {
      AccessEntries(w.spaces[p], pgn, w.free, i);
    }
  }

  // ---------------------------------------------------------------- runs

  ghost predicate Inv(w: Swap, n: nat) {
    Sound(w) && SwappedArePresent(w) && SwapOk(w, n)
  }

  lemma MapInv(w: Swap, n: nat, p: nat, req: nat, ramFree: seq<nat>)
    requires Inv(w, n) && CanApply(w, Map(p, req, ramFree))
    ensures Inv(Apply(w, Map(p, req, ramFree)), n)
  {
    hide SwappedTo, AllocFrom, FifoSound, SwappedArePresent;
    var t := Apply(w, Map(p, req, ramFree));
    AllocFifoSound(w.spaces[p], ramFree, [], 0, req);
    MapPresent(w, p, req, ramFree);
    forall q: nat, i: nat, f: nat ensures SwappedTo(t, q, i, f) <==> SwappedTo(w, q, i, f) {
      MapSwapped(w, p, req, ramFree, q, i, f);
    }
  }

  lemma TouchInv(w: Swap, n: nat, p: nat, pgn: nat)
    requires Inv(w, n) && n <= 0x20_0000 && CanApply(w, Touch(p, pgn))
    ensures Inv(Apply(w, Touch(p, pgn)), n)
  {
    hide SwappedTo, GetPage, FifoSound, SwappedArePresent, Present;
    var t, sp := Apply(w, Touch(p, pgn)), w.spaces[p];
    TouchFifoSound(sp, pgn, w.free);
    TouchPresent(w, p, pgn);
    AccessOutcome(sp, pgn, w.free);
    forall q: nat, i: nat, f: nat
      ensures SwappedTo(t, q, i, f) <==>
        SwappedTo(w, q, i, f) || (Evicts(sp, pgn, w.free) && q == p && i == Last(sp.fifo) && f == w.free[0])
    {
      TouchSwapped(w, p, pgn, q, i, f);
      FirstFree(w, n, p, pgn);
    }
    TakeFirst(w, t, n, p, pgn);
  }

  lemma FirstFree(w: Swap, n: nat, p: nat, pgn: nat)
    requires SwapOk(w, n) && n <= 0x20_0000 && CanApply(w, Touch(p, pgn))
    ensures Evicts(w.spaces[p], pgn, w.free) ==>
      w.spaces[p].fifo != [] && w.free != [] && w.free[0] % 0x20_0000 == w.free[0]
  {
    hide SwappedTo, Present;
  }

  lemma TakeFirst(w: Swap, t: Swap, n: nat, p: nat, pgn: nat)
    requires SwapOk(w, n) && CanApply(w, Touch(p, pgn))
    requires t.free == if Evicts(w.spaces[p], pgn, w.free) then w.free[1..] else w.free
    requires forall q: nat, i: nat, f: nat :: SwappedTo(t, q, i, f) <==>
      SwappedTo(w, q, i, f)
      || (Evicts(w.spaces[p], pgn, w.free) && q == p && i == Last(w.spaces[p].fifo) && f == w.free[0])
    ensures SwapOk(t, n)
  {
    hide SwappedTo, Present;
    var sp := w.spaces[p];
    if Evicts(sp, pgn, w.free) {
      var v, f0 := Last(sp.fifo), w.free[0];
      assert SwappedTo(t, p, v, f0);
      assert w.free == [f0] + t.free;
      forall f: nat | f < n && f !in t.free ensures exists q: nat, i: nat :: SwappedTo(t, q, i, f) {
        if f != f0 {
          assert f !in w.free;
          var q: nat, i: nat :| SwappedTo(w, q, i, f);
          assert SwappedTo(t, q, i, f);
        }
      }
    }
  }

  /** The device just formatted with n frames, and m processes without pages. */
  function Formatted(n: nat, m: nat): Swap {
    Swap(seq(m, i => EmptySpace()), MemPhy.FramesUpTo(n))
  }

  ghost predicate Step(w: Swap, t: Swap) {
    exists call :: CanApply(w, call) && t == Apply(w, call)
  }

  ghost predicate IsRun(run: seq<Swap>, n: nat) {
    && |run| > 0 && (exists m :: run[0] == Formatted(n, m))
    && forall i :: 0 <= i < |run| - 1 ==> Step(run[i], run[i + 1])
  }

  lemma FormattedInv(n: nat, m: nat)
    ensures Inv(Formatted(n, m), n)
  {
    hide Present;
    ZeroNotSwapped();
    var w := Formatted(n, m);
    forall f: nat | f < n ensures f in w.free { assert w.free[f] == f; }
  }

  lemma ZeroNotSwapped()
    ensures !Swapped(0)
  {
  }

  lemma StepInv(w: Swap, n: nat, call: Call)
    requires Inv(w, n) && n <= 0x20_0000 && CanApply(w, call)
    ensures Inv(Apply(w, call), n)
  {
    hide Inv, CanApply, Apply;
    match call
    case Map(p, req, ramFree) => MapInv(w, n, p, req, ramFree);
    case Touch(p, pgn) => TouchInv(w, n, p, pgn);
  }

  /** Over every run of mappings and accesses, failed ones included, of any number of processes on
      a swap device of at most 2^21 frames: swapped pages name distinct frames, none of them
      free, and free frames and those named are exactly 0 .. n-1. */
  lemma {:induction false} SwapConserved(run: seq<Swap>, n: nat, i: nat)
    requires IsRun(run, n) && n <= 0x20_0000 && i < |run|
    ensures Inv(run[i], n)
  {
    hide Inv, CanApply, Apply;
    if i == 0 {
      var m :| run[0] == Formatted(n, m);
      FormattedInv(n, m);
    } else {
      SwapConserved(run, n, i - 1);
      assert Step(run[i - 1], run[i]);
      var call :| CanApply(run[i - 1], call) && run[i] == Apply(run[i - 1], call);
      StepInv(run[i - 1], n, call);
    }
  }

  lemma StaysSwapped(w: Swap, n: nat, call: Call, p: nat, i: nat, f: nat)
    requires Inv(w, n) && CanApply(w, call) && SwappedTo(w, p, i, f)
    ensures SwappedTo(Apply(w, call), p, i, f)
  {
    hide SwappedTo, Apply, SwappedArePresent, FifoSound, SwapOk;
    match call
    case Map(q, req, ramFree) => MapSwapped(w, q, req, ramFree, p, i, f);
    case Touch(q, pgn) => TouchSwapped(w, q, pgn, p, i, f);
  }

  /** Nothing ever comes back: a page once swapped out names the same swap frame in every later
      state. */
  lemma {:induction false} NeverSwappedIn(run: seq<Swap>, n: nat, i: nat, j: nat, p: nat, page: nat, f: nat)
    requires IsRun(run, n) && n <= 0x20_0000 && i <= j < |run| && SwappedTo(run[i], p, page, f)
    ensures SwappedTo(run[j], p, page, f)
    decreases j - i
  {
    hide Inv, CanApply, Apply, SwappedTo;
    if i < j {
      SwapConserved(run, n, i);
      assert Step(run[i], run[i + 1]);
      var call :| CanApply(run[i], call) && run[i + 1] == Apply(run[i], call);
      StaysSwapped(run[i], n, call, p, page, f);
      NeverSwappedIn(run, n, i + 1, j, p, page, f);
    }
  }
}
