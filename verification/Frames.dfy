/** RAM frames over whole runs of `alloc_pages_range`: none is lost and none backs two pages. */
module Frames {
  import opened PageEntry
  import opened Paging
  import MemPhy

  /** All processes sharing one RAM of numfp frames. */
  datatype Machine = Machine(numfp: nat, free: seq<nat>, spaces: seq<Space>)

  /** After `MEMPHY_format`, with n processes whose tables are empty. */
  function Formatted(numfp: nat, n: nat): Machine {
    Machine(numfp, MemPhy.FramesUpTo(numfp), seq(n, i => EmptySpace()))
  }

  predicate Tables(m: Machine) {
    forall p :: 0 <= p < |m.spaces| ==> HasTable(m.spaces[p])
  }

  /** Page i of process p is online in frame f. */
  predicate Backs(m: Machine, p: nat, i: nat, f: nat)
    requires Tables(m)
  {
    p < |m.spaces| && i < MAX_PGN && Online(m.spaces[p].pgd[i]) && Fpn(m.spaces[p].pgd[i]) == f
  }

  /** No frame backs two pages. */
  ghost predicate NoSharing(m: Machine)
    requires Tables(m)
  {
    forall p: nat, i: nat, q: nat, j: nat, f: nat :: Backs(m, p, i, f) && Backs(m, q, j, f) ==> p == q && i == j
  }

  /** Online pages map one to one to frames of the device. */
  ghost predicate Injective(m: Machine) {
    && Tables(m) && NoSharing(m)
    && forall p: nat, i: nat, f: nat :: Backs(m, p, i, f) ==> f < m.numfp
  }

  /** The free frames are distinct frames that back no page, so the next mapping is safe. */
  ghost predicate Usable(m: Machine) {
    && Injective(m) && m.numfp <= 8192
    && (forall j, k :: 0 <= j < k < |m.free| ==> m.free[j] != m.free[k])
    && (forall k :: 0 <= k < |m.free| ==> m.free[k] < m.numfp)
    && (forall p: nat, i: nat, f: nat :: Backs(m, p, i, f) ==> f !in m.free)
  }

  /** No frame is lost. */
  ghost predicate Complete(m: Machine)
    requires Tables(m)
  {
    forall f: nat :: f < m.numfp ==> f in m.free || exists p: nat, i: nat :: Backs(m, p, i, f)
  }

  /** No frame is handed out twice or lost. */
  ghost predicate FramesOk(m: Machine) {
    Usable(m) && Complete(m)
  }

  lemma FormattedOk(numfp: nat, n: nat)
    requires numfp <= 8192
    ensures FramesOk(Formatted(numfp, n))
  {
    hide Present, Swapped, Fpn;
    ZeroEntry();
    var m := Formatted(numfp, n);
    forall f: nat | f < numfp ensures f in m.free {
      assert m.free[f] == f;
    }
  }

  /** Process p's page i takes the first free frame. */
  function Given(m: Machine, p: nat, i: nat): Machine
    requires Tables(m) && p < |m.spaces| && i < MAX_PGN && m.free != []
  {
    m.(free := m.free[1..], spaces := m.spaces[p := MapPage(m.spaces[p], i, m.free[0])])
  }

  lemma GivenBacks(m: Machine, p: nat, i: nat, q: nat, j: nat, f: nat)
    requires Usable(m) && p < |m.spaces| && i < MAX_PGN && m.free != [] && !Present(m.spaces[p].pgd[i])
    ensures Tables(Given(m, p, i))
    ensures Backs(Given(m, p, i), q, j, f) <==> Backs(m, q, j, f) || (q == p && j == i && f == m.free[0])
  {
    hide Present, Swapped, Fpn, PteSetFpn;
    MappedEntry(m.spaces[p].pgd[i], m.free[0]);
  }

  /** Giving a frame to a page shares none and loses none. */
  lemma GivenOk(m: Machine, p: nat, i: nat)
    requires Usable(m) && p < |m.spaces| && i < MAX_PGN && m.free != [] && !Present(m.spaces[p].pgd[i])
    ensures Usable(Given(m, p, i)) && (Complete(m) ==> Complete(Given(m, p, i)))
  {
    hide Present, Swapped, Fpn, PteSetFpn, MapPage;
    var t := Given(m, p, i);
    GivenBacks(m, p, i, p, i, m.free[0]);
    assert m.free == [m.free[0]] + t.free;
    forall q: nat, j: nat, f: nat
      ensures Backs(t, q, j, f) <==> Backs(m, q, j, f) || (q == p && j == i && f == m.free[0])
    {
      GivenBacks(m, p, i, q, j, f);
    }
    forall f: nat | Complete(m) && f < t.numfp && f !in t.free ensures exists q: nat, j: nat :: Backs(t, q, j, f) {
      if f == m.free[0] {
        assert Backs(t, p, i, f);
      } else {
        assert f !in m.free;
        var q: nat, j: nat :| Backs(m, q, j, f);
        assert Backs(t, q, j, f);
      }
    }
  }

  /** One call of `alloc_pages_range` by process p. */
  function AllocRange(m: Machine, p: nat, req: nat): Machine
    requires Tables(m) && p < |m.spaces| && req <= MAX_PGN
  {
    var r := AllocFrom(m.spaces[p], m.free, [], 0, req);
    m.(free := r.free, spaces := m.spaces[p := r.sp])
  }

  lemma {:induction false} AllocLoopOk(m: Machine, p: nat, frames: seq<nat>, i: nat, req: nat)
    requires Usable(m) && p < |m.spaces| && req <= MAX_PGN
    ensures var r := AllocFrom(m.spaces[p], m.free, frames, i, req);
      var t := m.(free := r.free, spaces := m.spaces[p := r.sp]);
      Usable(t) && (Complete(m) ==> Complete(t))
    decreases req - i
  {
    hide Present, Usable, Complete, MapPage;
    assert Tables(m) by { UsableIsInjective(m); }
    if i < req && Present(m.spaces[p].pgd[i]) {
      AllocLoopOk(m, p, frames, i + 1, req);
    } else if i < req && m.free != [] {
      var t := Given(m, p, i);
      GivenOk(m, p, i);
      UsableIsInjective(t);
      AllocLoopOk(t, p, [m.free[0]] + frames, i + 1, req);
      var r := AllocFrom(t.spaces[p], t.free, [m.free[0]] + frames, i + 1, req);
      assert t.spaces[p := r.sp] == m.spaces[p := r.sp];
    } else {
      assert m.spaces[p := m.spaces[p]] == m.spaces;
    }
  }

  lemma UsableIsInjective(m: Machine)
    requires Usable(m)
    ensures Tables(m) && Injective(m)
  {
    hide Backs;
  }

  /** One call, by process p for pages 0 to req - 1. */
  datatype AllocCall = AllocCall(p: nat, req: nat)

  ghost predicate ValidCalls(calls: seq<AllocCall>, n: nat) {
    forall k :: 0 <= k < |calls| ==> calls[k].p < n && calls[k].req <= MAX_PGN
  }

  ghost function Run(numfp: nat, n: nat, calls: seq<AllocCall>): (m: Machine)
    requires ValidCalls(calls, n)
    ensures Tables(m) && |m.spaces| == n
  {
    if calls == [] then Formatted(numfp, n)
    else
      var m := Run(numfp, n, DropLast(calls));
      AllocRange(m, Last(calls).p, Last(calls).req)
  }

  /** Frame conservation and injectivity: after any calls by any number of processes, also when
      some failed part-way, the free list has no duplicates, no frame backs two pages, and free
      and mapped frames together are exactly 0 .. numfp-1. */
  lemma {:induction false} FramesConserved(numfp: nat, n: nat, calls: seq<AllocCall>)
    requires numfp <= 8192 && ValidCalls(calls, n)
    ensures FramesOk(Run(numfp, n, calls)) && Run(numfp, n, calls).numfp == numfp
  {
    hide Usable, Complete, AllocFrom;
    if calls == [] {
      FormattedOk(numfp, n);
    } else {
      FramesConserved(numfp, n, DropLast(calls));
      AllocLoopOk(Run(numfp, n, DropLast(calls)), Last(calls).p, [], 0, Last(calls).req);
    }
  }

  // ---------------------------------------------------------------- the limit of 8192 frames

  /** A fresh process takes the frames in order: page j ends up with an entry made from frame j. */
  lemma {:induction false} FreshAlloc(sp: Space, free: seq<nat>, frames: seq<nat>, i: nat, req: nat)
    requires HasTable(sp) && i <= req <= MAX_PGN && |free| >= req - i
    requires forall j :: i <= j < MAX_PGN ==> sp.pgd[j] == 0
    requires forall k :: 0 <= k < |free| ==> free[k] == i + k
    ensures var r := AllocFrom(sp, free, frames, i, req).sp;
      (forall j :: 0 <= j < i ==> r.pgd[j] == sp.pgd[j]) && (forall j :: i <= j < req ==> r.pgd[j] == PteSetFpn(0, j))
    decreases req - i
  {
    hide Present, PteSetFpn;
    ZeroEntry();
    if i < req {
      FreshAlloc(MapPage(sp, i, free[0]), free[1..], [free[0]] + frames, i + 1, req);
    }
  }

  /** On a device of more than 8192 frames one call suffices to break it: frame 8192 does not
      fit the 13 bits of its entry and reads back as frame 0. */
  lemma LargerDeviceShares(numfp: nat, n: nat)
    requires numfp > 8192 && n >= 1
    ensures !NoSharing(Run(numfp, n, [AllocCall(0, 8193)]))
  {
    hide Present, Swapped, Fpn, PteSetFpn, AllocFrom;
    var calls := [AllocCall(0, 8193)];
    var start, m := Formatted(numfp, n), Run(numfp, n, calls);
    assert DropLast(calls) == [];
    assert Run(numfp, n, []) == start;
    FreshAlloc(start.spaces[0], start.free, [], 0, 8193);
    MappedEntry(0, 0);
    MappedEntry(0, 8192);
    assert Backs(m, 0, 0, 0) && Backs(m, 0, 8192, 0);
  }

  /** So no two pages ever share a frame, whatever the calls, exactly when the device has at
      most 8192 frames. */
  lemma NeverSharedIff(numfp: nat, n: nat)
    requires n >= 1
    ensures numfp <= 8192 <==> forall calls :: ValidCalls(calls, n) ==> NoSharing(Run(numfp, n, calls))
  {
    hide AllocFrom, Backs, Usable, Complete;
    if numfp <= 8192 {
      forall calls | ValidCalls(calls, n) ensures NoSharing(Run(numfp, n, calls)) {
        FramesConserved(numfp, n, calls);
        UsableIsInjective(Run(numfp, n, calls));
      }
    } else {
      LargerDeviceShares(numfp, n);
      assert ValidCalls([AllocCall(0, 8193)], n);
    }
  }
}
