/** Where a server should host its blocks: petals/server/block_selection.py as pure functions over
    exact real arithmetic, with the argument that moving to the best start improves the swarm. */
module BlockSelection {
  import opened Leximin

  /** A server's placed span: blocks start .. start + length, at a throughput of at least 0. */
  datatype Server = Server(start: nat, length: nat, throughput: real) {
    function End(): nat { start + length }

    /** A server whose position cannot change any block's throughput. */
    predicate Inert() { throughput == 0.0 || length == 0 }
  }

  const EPS: real := 0.001

  ghost predicate InRange(servers: seq<Server>, total: nat) {
    forall k :: 0 <= k < |servers| ==> servers[k].End() <= total && servers[k].throughput >= 0.0
  }

  /** Slice assignment v[lo:hi] += x. */
  function AddRange(v: seq<real>, lo: int, hi: int, x: real): (r: seq<real>)
    ensures |r| == |v|
  {
    seq(|v|, i requires 0 <= i < |v| => if lo <= i < hi then v[i] + x else v[i])
  }

  /** Throughput of one block: the sum over the servers holding it. */
  function Load(servers: seq<Server>, block: nat): real {
    if servers == [] then 0.0
    else
      (if servers[0].start <= block < servers[0].End() then servers[0].throughput else 0.0)
      + Load(servers[1..], block)
  }

  /** Throughput of every block. */
  function Throughputs(servers: seq<Server>, total: nat): (v: seq<real>)
    ensures |v| == total
  {
    seq(total, i requires 0 <= i < total => Load(servers, i))
  }

  function Window(v: seq<real>, start: nat, n: nat): seq<real>
    requires start + n <= |v|
  {
    v[start..start + n]
  }

  /** The least (sorted window, start) pair among the starts 0 .. last. */
  function BestAmong(v: seq<real>, n: nat, last: nat): (best: nat)
    requires last + n <= |v|
    ensures best <= last
  {
    if last == 0 then 0
    else
      var best := BestAmong(v, n, last - 1);
      if Worse(Window(v, last, n), Window(v, best, n)) then last else best
  }

  function BestStart(v: seq<real>, n: nat): (best: nat)
    requires n <= |v|
    ensures best + n <= |v|
  {
    BestAmong(v, n, |v| - n)
  }

  /** Swarm throughput as server k sees it before choosing: its own contribution is removed, and a
      little more, so that it prefers to stay. */
  function SeenBy(servers: seq<Server>, total: nat, k: nat): (v: seq<real>)
    requires k < |servers|
    ensures |v| == total
  {
    AddRange(Throughputs(servers, total), servers[k].start, servers[k].End(), -(servers[k].throughput * (1.0 + EPS)))
  }

  function PreferredStart(servers: seq<Server>, total: nat, k: nat): (best: nat)
    requires k < |servers| && servers[k].length <= total
    ensures best + servers[k].length <= total
  {
    BestStart(SeenBy(servers, total, k), servers[k].length)
  }

  function Move(servers: seq<Server>, k: nat, newStart: nat): seq<Server>
    requires k < |servers|
  {
    servers[k := servers[k].(start := newStart)]
  }

  /** No server prefers another start. */
  ghost predicate Settled(servers: seq<Server>, total: nat)
    requires InRange(servers, total)
  {
    forall k :: 0 <= k < |servers| ==> PreferredStart(servers, total, k) == servers[k].start
  }

  // ---- the best start

  lemma NotWorseThanItself(p: seq<real>)
    ensures !Worse(p, p)
  {
    LexIrreflexive(Sorted(p));
  }

  lemma WorseThanLeast(p: seq<real>, least: seq<real>, q: seq<real>)
    requires Worse(p, least) && !Worse(q, least)
    ensures Worse(p, q) && !Worse(q, p)
  {
    LexTotal(Sorted(q), Sorted(least));
    if Worse(least, q) {
      WorseTransitive(p, least, q);
    }
    if Worse(q, p) {
      WorseTransitive(p, q, p);
      LexIrreflexive(Sorted(p));
    }
  }

  /** min() over (sorted window, start): no window is worse than the chosen one, and every earlier
      window is strictly better served. */
  lemma {:induction false} BestAmongIsLeast(v: seq<real>, n: nat, last: nat)
    requires last + n <= |v|
    ensures var best := BestAmong(v, n, last);
            && (forall i :: 0 <= i <= last ==> !Worse(Window(v, i, n), Window(v, best, n)))
            && (forall i :: 0 <= i < best ==> Worse(Window(v, best, n), Window(v, i, n)))
  {
    hide Worse, Window;
    var best := BestAmong(v, n, last);
    NotWorseThanItself(Window(v, last, n));
    if last > 0 {
      BestAmongIsLeast(v, n, last - 1);
      var prev := BestAmong(v, n, last - 1);
      if best == last {
        forall i | 0 <= i < last
          ensures Worse(Window(v, last, n), Window(v, i, n))
          ensures !Worse(Window(v, i, n), Window(v, last, n))
        {
          WorseThanLeast(Window(v, last, n), Window(v, prev, n), Window(v, i, n));
        }
      }
    }
  }

  lemma BestStartIsLeast(v: seq<real>, n: nat)
    requires n <= |v|
    ensures forall i :: 0 <= i <= |v| - n ==> !Worse(Window(v, i, n), Window(v, BestStart(v, n), n))
    ensures forall i :: 0 <= i < BestStart(v, n) ==> Worse(Window(v, BestStart(v, n), n), Window(v, i, n))
  {
    BestAmongIsLeast(v, n, |v| - n);
  }

  // ---- counting under slice assignment

  function Shift(p: seq<real>, x: real): (r: seq<real>)
    ensures |r| == |p|
  {
    seq(|p|, i requires 0 <= i < |p| => p[i] + x)
  }

  lemma {:induction false} CountAppend(p: seq<real>, q: seq<real>, w: real)
    ensures Count(p + q, w) == Count(p, w) + Count(q, w)
  {
    if p == [] {
      assert p + q == q;
    } else {
      assert (p + q)[1..] == p[1..] + q;
      CountAppend(p[1..], q, w);
    }
  }

  lemma {:induction false} CountShift(p: seq<real>, x: real, w: real)
    ensures Count(Shift(p, x), w) == Count(p, w - x)
  {
    if p != [] {
      assert Shift(p, x)[1..] == Shift(p[1..], x);
      CountShift(p[1..], x, w);
    }
  }

  lemma {:induction false} CountMonotone(p: seq<real>, w: real, w': real)
    requires w <= w'
    ensures Count(p, w) <= Count(p, w')
  {
    if p != [] {
      CountMonotone(p[1..], w, w');
    }
  }

  lemma CountSplit(v: seq<real>, lo: nat, mid: nat, hi: nat, w: real)
    requires lo <= mid <= hi <= |v|
    ensures Count(v[lo..hi], w) == Count(v[lo..mid], w) + Count(v[mid..hi], w)
  {
    assert v[lo..hi] == v[lo..mid] + v[mid..hi];
    CountAppend(v[lo..mid], v[mid..hi], w);
  }

  lemma CountAddRange(v: seq<real>, lo: nat, hi: nat, x: real, w: real)
    requires lo <= hi <= |v|
    ensures Count(AddRange(v, lo, hi, x), w) == Count(v, w) - Count(v[lo..hi], w) + Count(v[lo..hi], w - x)
  {
    var r := AddRange(v, lo, hi, x);
    assert r[..lo] == v[..lo];
    assert r[lo..hi] == Shift(v[lo..hi], x);
    assert r[hi..] == v[hi..];
    assert r == r[..lo] + r[lo..hi] + r[hi..];
    assert v == v[..lo] + v[lo..hi] + v[hi..];
    CountAppend(r[..lo] + r[lo..hi], r[hi..], w);
    CountAppend(r[..lo], r[lo..hi], w);
    CountAppend(v[..lo] + v[lo..hi], v[hi..], w);
    CountAppend(v[..lo], v[lo..hi], w);
    CountShift(v[lo..hi], x, w);
  }

  // ---- why the best start improves the swarm

  /** Adding t over the window that has more low entries leaves the swarm better off. */
  lemma AddingWhereLower(v: seq<real>, a: nat, b: nat, n: nat, t: real, x: real)
    requires a + n <= |v| && b + n <= |v| && t > 0.0
    requires MoreAt(Window(v, b, n), Window(v, a, n), x)
    ensures Worse(AddRange(v, a, a + n, t), AddRange(v, b, b + n, t))
  {
    var worse, better := AddRange(v, a, a + n, t), AddRange(v, b, b + n, t);
    forall w | w <= x
      ensures Count(worse, w) - Count(better, w) == Count(Window(v, b, n), w) - Count(Window(v, a, n), w)
    {
      CountAddRange(v, a, a + n, t, w);
      CountAddRange(v, b, b + n, t, w);
      assert w - t < x;
    }
    assert MoreAt(worse, better, x);
    WorseIffMoreAt(worse, better);
  }

  /** The blocks OnlyFrom .. OnlyTo of window a are those that window b leaves out. */
  function OnlyFrom(a: nat, b: nat, n: nat): nat { if a < b then a else if a < b + n then b + n else a }

  function OnlyTo(a: nat, b: nat, n: nat): nat { if a < b && b < a + n then b else a + n }

  lemma AscendingWindows(v: seq<real>, a: nat, b: nat, n: nat, w: real)
    requires a < b && n > 0 && b + n <= |v|
    ensures OnlyTo(a, b, n) <= |v| && OnlyFrom(b, a, n) <= b + n
    ensures Count(Window(v, b, n), w) - Count(Window(v, a, n), w)
         == Count(v[OnlyFrom(b, a, n)..b + n], w) - Count(v[a..OnlyTo(a, b, n)], w)
  {
    if b < a + n {
      CountSplit(v, a, b, a + n, w);
      CountSplit(v, b, a + n, b + n, w);
    }
  }

  /** Overlapping windows differ only by the blocks that are in one of them. */
  lemma CommonBlocksCancel(v: seq<real>, a: nat, b: nat, n: nat, w: real)
    requires a != b && n > 0 && a + n <= |v| && b + n <= |v|
    ensures a <= OnlyFrom(a, b, n) < OnlyTo(a, b, n) <= a + n && b <= OnlyFrom(b, a, n) < OnlyTo(b, a, n) <= b + n
    ensures Count(Window(v, b, n), w) - Count(Window(v, a, n), w)
         == Count(v[OnlyFrom(b, a, n)..OnlyTo(b, a, n)], w) - Count(v[OnlyFrom(a, b, n)..OnlyTo(a, b, n)], w)
  {
    if a < b {
      AscendingWindows(v, a, b, n, w);
    } else {
      AscendingWindows(v, b, a, n, w);
    }
  }

  lemma {:induction false} LeastEntry(p: seq<real>) returns (m: real)
    requires p != []
    ensures Count(p, m) > 0
    ensures forall w :: w < m ==> Count(p, w) == 0
  {
    if |p| == 1 {
      m := p[0];
    } else {
      m := LeastEntry(p[1..]);
      if p[0] < m {
        m := p[0];
      }
    }
  }

  lemma SliceOutside(v: seq<real>, lo: nat, hi: nat, x: real, c: nat, e: nat)
    requires c <= e <= |v| && (e <= lo || hi <= c)
    ensures AddRange(v, lo, hi, x)[c..e] == v[c..e]
  {
  }

  lemma SliceInside(v: seq<real>, lo: nat, hi: nat, x: real, c: nat, e: nat)
    requires lo <= c <= e <= hi <= |v|
    ensures AddRange(v, lo, hi, x)[c..e] == Shift(v[c..e], x)
  {
  }

  /** Lowering window a by d: blocks of window b alone keep their counts, those of a alone shift by d. */
  lemma LoweredParts(v: seq<real>, a: nat, b: nat, n: nat, d: real, w: real)
    requires a != b && n > 0 && a + n <= |v| && b + n <= |v|
    ensures OnlyFrom(a, b, n) < OnlyTo(a, b, n) <= |v| && OnlyFrom(b, a, n) < OnlyTo(b, a, n) <= |v|
    ensures var u := AddRange(v, a, a + n, -d);
            && Count(u[OnlyFrom(b, a, n)..OnlyTo(b, a, n)], w) == Count(v[OnlyFrom(b, a, n)..OnlyTo(b, a, n)], w)
            && Count(u[OnlyFrom(a, b, n)..OnlyTo(a, b, n)], w) == Count(v[OnlyFrom(a, b, n)..OnlyTo(a, b, n)], w + d)
  {
    var a1, a2 := OnlyFrom(a, b, n), OnlyTo(a, b, n);
    SliceOutside(v, a, a + n, -d, OnlyFrom(b, a, n), OnlyTo(b, a, n));
    SliceInside(v, a, a + n, -d, a1, a2);
    CountShift(v[a1..a2], -d, w);
    assert w - (-d) == w + d;
  }

  /** How lowering window a by d changes the difference between windows b and a: by the blocks of a
      alone that lie in (w, w + d]. */
  lemma LoweredWindows(v: seq<real>, a: nat, b: nat, n: nat, d: real, w: real)
    requires a != b && n > 0 && a + n <= |v| && b + n <= |v|
    ensures OnlyFrom(a, b, n) < OnlyTo(a, b, n) <= |v|
    ensures var u := AddRange(v, a, a + n, -d);
            var mine := v[OnlyFrom(a, b, n)..OnlyTo(a, b, n)];
            Count(Window(v, b, n), w) - Count(Window(v, a, n), w)
            == Count(Window(u, b, n), w) - Count(Window(u, a, n), w) + Count(mine, w + d) - Count(mine, w)
  {
    LoweredParts(v, a, b, n, d, w);
    CommonBlocksCancel(v, a, b, n, w);
    CommonBlocksCancel(AddRange(v, a, a + n, -d), a, b, n, w);
  }

  /** A server that moves although its own blocks look d poorer than they are moves to blocks that are
      truly poorer served: u is v lowered by d over window a, and window a of u is not worse than
      window b of u. */
  lemma PreferredIsLower(v: seq<real>, a: nat, b: nat, n: nat, d: real) returns (z: real)
    requires a != b && n > 0 && a + n <= |v| && b + n <= |v| && d > 0.0
    requires var u := AddRange(v, a, a + n, -d); !Worse(Window(u, a, n), Window(u, b, n))
    ensures MoreAt(Window(v, b, n), Window(v, a, n), z)
  {
    var u := AddRange(v, a, a + n, -d);
    LoweredWindows(v, a, b, n, d, 0.0);
    var mine := v[OnlyFrom(a, b, n)..OnlyTo(a, b, n)];
    var va, vb, ua, ub := Window(v, a, n), Window(v, b, n), Window(u, a, n), Window(u, b, n);
    var m := LeastEntry(mine);
    z := m - d;
    NotWorseGivesCounts(ub, ua);
    if x :| MoreAt(ub, ua, x) {
      if x < z {
        z := x;
      }
    }
    assert forall y :: y < z ==> Count(ub, y) == Count(ua, y);
    assert Count(ub, z) >= Count(ua, z);
    LoweredWindows(v, a, b, n, d, z);
    CountMonotone(mine, z, z + d);
    forall y | y < z ensures Count(vb, y) == Count(va, y) {
      LoweredWindows(v, a, b, n, d, y);
      assert y + d < m && y < m;
    }
    if z == m - d {
      assert z + d == m && Count(mine, z) == 0;
    }
  }

  /** One move: taking t away from window a and giving it to the preferred window b strictly raises
      the sorted vector. */
  lemma MoveRaises(v: seq<real>, a: nat, b: nat, n: nat, t: real, before: seq<real>, after: seq<real>)
    requires a + n <= |v| && n > 0 && t > 0.0
    requires b == BestStart(AddRange(v, a, a + n, -(t * EPS)), n) && a != b
    requires before == AddRange(v, a, a + n, t) && after == AddRange(v, b, b + n, t)
    ensures Worse(before, after)
  {
    var u := AddRange(v, a, a + n, -(t * EPS));
    BestStartIsLeast(u, n);
    assert !Worse(Window(u, a, n), Window(u, b, n));
    var z := PreferredIsLower(v, a, b, n, t * EPS);
    AddingWhereLower(v, a, b, n, t, z);
  }

  lemma LowerWindowIsBetter(v: seq<real>, best: nat, other: nat, n: nat, t: real, x: real)
    requires best + n <= |v| && other + n <= |v| && t > 0.0
    requires MoreAt(Window(v, best, n), Window(v, other, n), x)
    ensures !Worse(AddRange(v, best, best + n, t), AddRange(v, other, other + n, t))
  {
    var chosen, rival := AddRange(v, best, best + n, t), AddRange(v, other, other + n, t);
    AddingWhereLower(v, other, best, n, t, x);
    if Worse(chosen, rival) {
      WorseTransitive(chosen, rival, chosen);
      LexIrreflexive(Sorted(chosen));
    }
  }

  lemma EqualWindowsAreEqual(v: seq<real>, best: nat, other: nat, n: nat, t: real)
    requires best + n <= |v| && other + n <= |v|
    requires forall w :: Count(Window(v, best, n), w) == Count(Window(v, other, n), w)
    ensures !Worse(AddRange(v, best, best + n, t), AddRange(v, other, other + n, t))
  {
    var chosen, rival := AddRange(v, best, best + n, t), AddRange(v, other, other + n, t);
    forall w ensures Count(chosen, w) == Count(rival, w) {
      CountAddRange(v, best, best + n, t, w);
      CountAddRange(v, other, other + n, t, w);
      assert Count(Window(v, best, n), w) == Count(Window(v, other, n), w);
      assert Count(Window(v, best, n), w - t) == Count(Window(v, other, n), w - t);
    }
    WorseIffMoreAt(chosen, rival);
  }

  /** choose_best_blocks is optimal: for any positive throughput, no other window of the same size
      leaves the swarm with a larger sorted throughput vector than the chosen one. */
  lemma BestStartIsOptimal(v: seq<real>, n: nat, other: nat, t: real)
    requires n <= |v| && other + n <= |v| && t > 0.0
    ensures var best := BestStart(v, n);
            !Worse(AddRange(v, best, best + n, t), AddRange(v, other, other + n, t))
  {
    var best := BestStart(v, n);
    BestStartIsLeast(v, n);
    NotWorseGivesCounts(Window(v, best, n), Window(v, other, n));
    if x :| MoreAt(Window(v, best, n), Window(v, other, n), x) {
      LowerWindowIsBetter(v, best, other, n, t, x);
    } else {
      EqualWindowsAreEqual(v, best, other, n, t);
    }
  }

  // ---- moves of a swarm

  lemma {:induction false} LoadAfterMove(servers: seq<Server>, k: nat, s: Server, block: nat)
    requires k < |servers|
    ensures Load(servers[k := s], block)
         == Load(servers, block) - Load([servers[k]], block) + Load([s], block)
  {
    if k == 0 {
      assert servers[k := s][1..] == servers[1..];
    } else {
      assert servers[k := s][1..] == servers[1..][k - 1 := s];
      LoadAfterMove(servers[1..], k - 1, s, block);
    }
  }

  /** Swarm throughput with server k taken out. */
  function Without(servers: seq<Server>, total: nat, k: nat): (v: seq<real>)
    requires k < |servers|
    ensures |v| == total
  {
    AddRange(Throughputs(servers, total), servers[k].start, servers[k].End(), -servers[k].throughput)
  }

  /** The incremental edits of the throughput array agree with recomputing it from the spans. */
  lemma ThroughputsAfterMove(servers: seq<Server>, total: nat, k: nat, newStart: nat)
    requires k < |servers|
    ensures var s := servers[k];
            var without := Without(servers, total, k);
            && Throughputs(Move(servers, k, newStart), total)
               == AddRange(without, newStart, newStart + s.length, s.throughput)
            && Throughputs(servers, total) == AddRange(without, s.start, s.End(), s.throughput)
            && SeenBy(servers, total, k) == AddRange(without, s.start, s.End(), -(s.throughput * EPS))
            && AddRange(SeenBy(servers, total, k), s.start, s.End(), s.throughput * EPS) == without
  {
    var s := servers[k];
    var moved := s.(start := newStart);
    forall i | 0 <= i < total
      ensures Load(Move(servers, k, newStart), i)
           == Load(servers, i) - (if s.start <= i < s.End() then s.throughput else 0.0)
                               + (if newStart <= i < newStart + s.length then s.throughput else 0.0)
    {
      LoadAfterMove(servers, k, moved, i);
      assert Load([s][1..], i) == 0.0 && Load([moved][1..], i) == 0.0;
    }
    assert s.throughput * (1.0 + EPS) == s.throughput + s.throughput * EPS;
  }

  /** All but number k. */
  function Others<T>(all: seq<T>, k: nat): (r: seq<T>)
    requires k < |all|
    ensures |r| == |all| - 1 && forall i :: 0 <= i < |r| ==> r[i] == all[if i < k then i else i + 1]
  {
    all[..k] + all[k + 1..]
  }

  lemma {:induction false} LoadIsOthersAndOwn(servers: seq<Server>, k: nat, block: nat)
    requires k < |servers|
    ensures Load(servers, block)
         == Load(Others(servers, k), block)
            + if servers[k].start <= block < servers[k].End() then servers[k].throughput else 0.0
  {
    if k == 0 {
      assert Others(servers, 0) == servers[1..];
    } else {
      LoadIsOthersAndOwn(servers[1..], k - 1, block);
      assert Others(servers, k)[0] == servers[0] && Others(servers, k)[1..] == Others(servers[1..], k - 1);
    }
  }

  /** What server k sees: the throughput of the others, less a thousandth of its own on its own blocks. */
  lemma SeenIsOthers(servers: seq<Server>, total: nat, k: nat, block: nat)
    requires k < |servers| && block < total
    ensures SeenBy(servers, total, k)[block]
         == Load(Others(servers, k), block)
            - if servers[k].start <= block < servers[k].End() then servers[k].throughput * 0.001 else 0.0
  {
    LoadIsOthersAndOwn(servers, k, block);
    var t := servers[k].throughput;
    assert t * (1.0 + EPS) == t + t * 0.001;
  }

  /** The start that server k prefers, among all others by the throughput of the other servers alone, its own
      blocks at a discount of a thousandth of its throughput: no window is more poorly served, and of the most
      poorly served ones it is the first. */
  lemma PreferredIsPoorest(servers: seq<Server>, total: nat, k: nat, v: seq<real>)
    requires k < |servers| && servers[k].length <= total && |v| == total
    requires forall i :: 0 <= i < total ==>
               v[i] == Load(Others(servers, k), i)
                       - if servers[k].start <= i < servers[k].End() then servers[k].throughput * 0.001 else 0.0
    ensures var n, p := servers[k].length, PreferredStart(servers, total, k);
            && p + n <= total
            && (forall i :: 0 <= i <= total - n ==> !Worse(Window(v, i, n), Window(v, p, n)))
            && (forall i :: 0 <= i < p ==> Worse(Window(v, p, n), Window(v, i, n)))
  {
    forall i | 0 <= i < total ensures v[i] == SeenBy(servers, total, k)[i] {
      SeenIsOthers(servers, total, k, i);
    }
    assert v == SeenBy(servers, total, k);
    BestStartIsLeast(v, servers[k].length);
  }

  /** Indices of the servers that change nothing by moving, yet are not where they prefer to be. */
  ghost function RestlessInert(servers: seq<Server>, total: nat): set<int>
    requires InRange(servers, total)
  {
    set k | 0 <= k < |servers| && servers[k].Inert() && PreferredStart(servers, total, k) != servers[k].start
  }

  /** Progress of the local search: the sorted throughput vector rises, or it stays and fewer inert
      servers are out of place. */
  ghost predicate Improved(before: seq<Server>, after: seq<Server>, total: nat)
    requires InRange(before, total) && InRange(after, total)
  {
    var p, q := Throughputs(before, total), Throughputs(after, total);
    Worse(p, q) || (p == q && RestlessInert(after, total) < RestlessInert(before, total))
  }

  lemma ImprovedTransitive(a: seq<Server>, b: seq<Server>, c: seq<Server>, total: nat)
    requires InRange(a, total) && InRange(b, total) && InRange(c, total)
    requires Improved(a, b, total) && Improved(b, c, total)
    ensures Improved(a, c, total)
  {
    if Worse(Throughputs(a, total), Throughputs(b, total)) && Worse(Throughputs(b, total), Throughputs(c, total)) {
      WorseTransitive(Throughputs(a, total), Throughputs(b, total), Throughputs(c, total));
    }
  }

  lemma ImprovedIrreflexive(a: seq<Server>, total: nat)
    requires InRange(a, total)
    ensures !Improved(a, a, total)
  {
    LexIrreflexive(Sorted(Throughputs(a, total)));
  }

  lemma InertChangesNothing(v: seq<real>, s: Server, x: real, lo: nat)
    requires s.Inert() && (s.throughput == 0.0 ==> x == 0.0)
    ensures AddRange(v, lo, lo + s.length, x) == v
  {
  }

  lemma InertSeesAll(servers: seq<Server>, total: nat, k: nat)
    requires k < |servers| && servers[k].Inert() && servers[k].length <= total
    ensures PreferredStart(servers, total, k) == BestStart(Throughputs(servers, total), servers[k].length)
  {
    InertChangesNothing(Throughputs(servers, total), servers[k], -(servers[k].throughput * (1.0 + EPS)),
                        servers[k].start);
  }

  lemma InertMoveKeepsThroughputs(servers: seq<Server>, total: nat, k: nat, newStart: nat)
    requires k < |servers| && servers[k].Inert()
    ensures Throughputs(servers, total) == Throughputs(Move(servers, k, newStart), total)
  {
    var s := servers[k];
    var v := Throughputs(servers, total);
    ThroughputsAfterMove(servers, total, k, newStart);
    InertChangesNothing(v, s, -s.throughput, s.start);
    InertChangesNothing(v, s, s.throughput, newStart);
  }

  lemma InertMove(servers: seq<Server>, total: nat, k: nat)
    requires InRange(servers, total) && k < |servers| && servers[k].Inert()
    requires PreferredStart(servers, total, k) != servers[k].start
    ensures var after := Move(servers, k, PreferredStart(servers, total, k));
            && InRange(after, total)
            && Throughputs(servers, total) == Throughputs(after, total)
            && RestlessInert(after, total) < RestlessInert(servers, total)
  {
    var b := PreferredStart(servers, total, k);
    var after := Move(servers, k, b);
    InertMoveKeepsThroughputs(servers, total, k, b);
    InertSeesAll(servers, total, k);
    InertSeesAll(after, total, k);
    assert k in RestlessInert(servers, total) && k !in RestlessInert(after, total);
    forall j | j in RestlessInert(after, total) ensures j in RestlessInert(servers, total) {
      InertSeesAll(servers, total, j);
      InertSeesAll(after, total, j);
    }
  }

  lemma PreferredOfWithout(servers: seq<Server>, total: nat, k: nat)
    requires k < |servers| && servers[k].length <= total
    ensures var s := servers[k];
            PreferredStart(servers, total, k)
            == BestStart(AddRange(Without(servers, total, k), s.start, s.start + s.length, -(s.throughput * EPS)),
                         s.length)
  {
    ThroughputsAfterMove(servers, total, k, 0);
  }

  lemma ActiveMove(servers: seq<Server>, total: nat, k: nat, b: nat)
    requires InRange(servers, total) && k < |servers| && !servers[k].Inert()
    requires b == PreferredStart(servers, total, k) && b != servers[k].start
    ensures Worse(Throughputs(servers, total), Throughputs(Move(servers, k, b), total))
  {
    hide Worse, Throughputs, AddRange, BestStart;
    var s, without := servers[k], Without(servers, total, k);
    PreferredOfWithout(servers, total, k);
    ThroughputsAfterMove(servers, total, k, b);
    MoveRaises(without, s.start, b, s.length, s.throughput, Throughputs(servers, total),
               Throughputs(Move(servers, k, b), total));
  }

  /** Every move of the local search, by any server at any time, is progress. */
  lemma EveryMoveImproves(servers: seq<Server>, total: nat, k: nat)
    requires InRange(servers, total) && k < |servers|
    requires PreferredStart(servers, total, k) != servers[k].start
    ensures var after := Move(servers, k, PreferredStart(servers, total, k));
            && InRange(after, total)
            && Improved(servers, after, total)
            && (!servers[k].Inert() ==> Worse(Throughputs(servers, total), Throughputs(after, total)))
  {
    var b := PreferredStart(servers, total, k);
    if servers[k].Inert() {
      InertMove(servers, total, k);
    } else {
      ActiveMove(servers, total, k, b);
    }
  }

  // ---- placements are finite

  ghost predicate SameServers(a: seq<Server>, b: seq<Server>) {
    && |a| == |b|
    && forall k :: 0 <= k < |a| ==> a[k].length == b[k].length && a[k].throughput == b[k].throughput
  }

  /** All ways of placing the given servers inside 0 .. total. */
  ghost function Placements(servers: seq<Server>, total: nat): set<seq<Server>> {
    if servers == [] then {[]}
    else
      set first, rest | first in PlacementsOf(servers[0], total) && rest in Placements(servers[1..], total)
        :: [first] + rest
  }

  ghost function PlacementsOf(s: Server, total: nat): set<Server> {
    set b: nat | b <= total && b + s.length <= total :: s.(start := b)
  }

  lemma {:induction false} PlacementsComplete(servers: seq<Server>, placed: seq<Server>, total: nat)
    requires SameServers(servers, placed) && InRange(placed, total)
    ensures placed in Placements(servers, total)
  {
    if servers != [] {
      PlacementsComplete(servers[1..], placed[1..], total);
      assert placed[0] == servers[0].(start := placed[0].start);
      assert placed == [placed[0]] + placed[1..];
    }
  }

  lemma {:induction false} PlacementsSameServers(a: seq<Server>, b: seq<Server>, total: nat)
    requires SameServers(a, b)
    ensures Placements(a, total) == Placements(b, total)
  {
    if a != [] {
      PlacementsSameServers(a[1..], b[1..], total);
      assert forall start: nat :: a[0].(start := start) == b[0].(start := start);
    }
  }

  /** Placements that would serve the swarm strictly better than the current one. */
  ghost function BetterPlacements(servers: seq<Server>, total: nat): set<seq<Server>> {
    set p | p in Placements(servers, total) && Worse(Throughputs(servers, total), Throughputs(p, total))
  }

  /** Progress shrinks a finite set, so the search cannot go on for ever. */
  lemma ImprovedShrinksMeasure(before: seq<Server>, after: seq<Server>, total: nat)
    requires InRange(before, total) && InRange(after, total) && SameServers(before, after)
    requires Improved(before, after, total)
    ensures || BetterPlacements(after, total) < BetterPlacements(before, total)
            || (BetterPlacements(after, total) == BetterPlacements(before, total)
                && RestlessInert(after, total) < RestlessInert(before, total))
  {
    PlacementsSameServers(before, after, total);
    var p, q := Throughputs(before, total), Throughputs(after, total);
    if Worse(p, q) {
      forall r | r in BetterPlacements(after, total) ensures r in BetterPlacements(before, total) {
        WorseTransitive(p, q, Throughputs(r, total));
      }
      PlacementsComplete(before, after, total);
      LexIrreflexive(Sorted(q));
      assert after in BetterPlacements(before, total) && after !in BetterPlacements(after, total);
    }
  }

  /** throughputs.min() */
  function Minimum(v: seq<real>): (m: real)
    requires v != []
    ensures IsMinimum(v, m)
  {
    if |v| == 1 then v[0]
    else
      var rest := Minimum(v[1..]);
      assert forall i :: 0 < i < |v| ==> v[i] == v[1..][i - 1];
      if v[0] <= rest then v[0] else rest
  }

  /** Throughput of the slowest block. */
  function Bottleneck(servers: seq<Server>, total: nat): real
    requires total > 0
  {
    Minimum(Throughputs(servers, total))
  }

  // ---- whole runs

  /** Server k moves to the start it prefers. */
  ghost predicate SearchStep(before: seq<Server>, k: nat, after: seq<Server>, total: nat) {
    && InRange(before, total) && k < |before|
    && PreferredStart(before, total, k) != before[k].start
    && after == Move(before, k, PreferredStart(before, total, k))
  }

  ghost predicate SearchRun(run: seq<seq<Server>>, movers: seq<nat>, total: nat) {
    && |run| == |movers| + 1
    && InRange(run[0], total)
    && forall i :: 0 <= i < |movers| ==> SearchStep(run[i], movers[i], run[i + 1], total)
  }

  lemma StepImproves(before: seq<Server>, k: nat, after: seq<Server>, total: nat)
    requires SearchStep(before, k, after, total)
    ensures InRange(after, total) && Improved(before, after, total)
  {
    EveryMoveImproves(before, total, k);
  }

  lemma {:induction false} RunStaysInRange(run: seq<seq<Server>>, movers: seq<nat>, total: nat, i: nat)
    requires SearchRun(run, movers, total) && i < |run|
    ensures InRange(run[i], total)
  {
    if i > 0 {
      StepImproves(run[i - 1], movers[i - 1], run[i - 1 + 1], total);
    }
  }

  /** In a search of any length and any order of servers, every later placement is an improvement of
      every earlier one. */
  lemma {:induction false} LaterIsImproved(run: seq<seq<Server>>, movers: seq<nat>, total: nat, i: nat, j: nat)
    requires SearchRun(run, movers, total) && i < j < |run|
    ensures InRange(run[i], total) && InRange(run[j], total) && Improved(run[i], run[j], total)
    decreases j
  {
    RunStaysInRange(run, movers, total, i);
    StepImproves(run[j - 1], movers[j - 1], run[j - 1 + 1], total);
    if i < j - 1 {
      LaterIsImproved(run, movers, total, i, j - 1);
      ImprovedTransitive(run[i], run[j - 1], run[j], total);
    }
  }

  /** No placement ever comes back, and the slowest block never gets slower. */
  lemma RunsOnlyImprove(run: seq<seq<Server>>, movers: seq<nat>, total: nat, i: nat, j: nat)
    requires SearchRun(run, movers, total) && i < j < |run| && total > 0
    ensures run[i] != run[j]
    ensures Bottleneck(run[i], total) <= Bottleneck(run[j], total)
  {
    LaterIsImproved(run, movers, total, i, j);
    ImprovedIrreflexive(run[i], total);
    ImprovedKeepsMinimum(run[i], run[j], total);
  }

  lemma ImprovedKeepsMinimum(before: seq<Server>, after: seq<Server>, total: nat)
    requires InRange(before, total) && InRange(after, total) && total > 0
    requires Improved(before, after, total)
    ensures Bottleneck(before, total) <= Bottleneck(after, total)
  {
    var p, q := Throughputs(before, total), Throughputs(after, total);
    MinimumNeverFalls(p, q, Minimum(p), Minimum(q));
  }
}
