/** The call id of a thread, in the arithmetic the macro is computed in: the process id and the thread
    id as 64-bit unsigned integers, their pairing half of that as a double, and the id an int. */
module CallId {
  import opened Bytes

  function Wrap(n: nat): u64 {
    n % U64_LIMIT
  }

  /** Twice the pairing. */
  function Doubled(pid: nat, tid: nat): u64 {
    var n := Wrap(pid + tid);
    Wrap(Wrap(n * Wrap(n + 1)) + tid)
  }

  /** The conversion to an int is defined when half the product, rounded down, is an int. A double holds
      smaller products exactly, and rounding leaves greater ones too great. */
  predicate Defined(pid: nat, tid: nat) {
    Doubled(pid, tid) / 2 < 0x8000_0000
  }

  function CallIdOf(pid: nat, tid: nat): i32
    requires Defined(pid, tid)
  {
    Doubled(pid, tid) / 2
  }

  // ---------------------------------------------------------------- without wrap-around

  /** The pairing over ideal integers. */
  function CantorPair(pid: nat, tid: nat): nat {
    ((pid + tid) * (pid + tid + 1) + tid) / 2
  }

  function Triangle(n: nat): nat {
    if n == 0 then 0 else Triangle(n - 1) + n
  }

  lemma {:induction false} TwiceTriangle(n: nat)
    ensures 2 * Triangle(n) == n * (n + 1)
  {
    if n > 0 {
      TwiceTriangle(n - 1);
      assert n * (n + 1) == (n - 1) * n + 2 * n;
    }
  }

  lemma TriangleGrows(m: nat, n: nat)
    requires m < n
    ensures Triangle(m) + m < Triangle(n)
    decreases n
  {
    if m < n - 1 {
      TriangleGrows(m, n - 1);
    }
  }

  lemma PairIsTriangle(pid: nat, tid: nat)
    ensures CantorPair(pid, tid) == Triangle(pid + tid) + tid / 2
  {
    TwiceTriangle(pid + tid);
  }

  /** Two pairings coincide exactly when the sums of process and thread id do, and the thread ids are
      the same after halving. */
  lemma PairsCoincide(p: nat, t: nat, q: nat, u: nat)
    ensures CantorPair(p, t) == CantorPair(q, u) <==> p + t == q + u && t / 2 == u / 2
  {
    PairIsTriangle(p, t);
    PairIsTriangle(q, u);
    if p + t < q + u {
      TriangleGrows(p + t, q + u);
    } else if q + u < p + t {
      TriangleGrows(q + u, p + t);
    }
  }

  lemma ProductBound(m: nat, n: nat, a: nat, b: nat)
    requires m <= a && n <= b
    ensures m * n <= a * b
  {
    assert m * n <= a * n <= a * b;
  }

  lemma WrapSmall(n: nat)
    ensures n < U64_LIMIT ==> Wrap(n) == n
  {
  }

  lemma WrapTwice(m: nat, t: nat)
    ensures Wrap(Wrap(m) + t) == Wrap(m + t)
  {
  }

  lemma SumDoesNotWrap(pid: nat, tid: nat)
    requires pid + tid + 1 < U64_LIMIT
    ensures Doubled(pid, tid) == Wrap((pid + tid) * (pid + tid + 1) + tid)
  {
    hide Wrap;
    WrapSmall(pid + tid);
    WrapSmall(pid + tid + 1);
    WrapTwice((pid + tid) * (pid + tid + 1), tid);
  }

  lemma NothingWraps(pid: nat, tid: nat)
    requires pid + tid < U32_LIMIT
    ensures Doubled(pid, tid) == (pid + tid) * (pid + tid + 1) + tid
    ensures Doubled(pid, tid) / 2 == CantorPair(pid, tid)
  {
    hide Wrap, Doubled;
    ProductBound(pid + tid, pid + tid + 1, 0xFFFF_FFFF, 0x1_0000_0000);
    SumDoesNotWrap(pid, tid);
    WrapSmall((pid + tid) * (pid + tid + 1) + tid);
  }

  /** As long as nothing wraps, the conversion is defined for ids up to 65535 in sum and for no others:
      for addresses as thread ids it is defined by chance at most. */
  lemma DefinedExactly(pid: nat, tid: nat)
    requires pid + tid < U32_LIMIT
    ensures Defined(pid, tid) <==> pid + tid < 0x1_0000
  {
    var n := pid + tid;
    NothingWraps(pid, tid);
    if n < 0x1_0000 {
      ProductBound(n, n + 1, 0xFFFF, 0x1_0000);
    } else {
      ProductBound(0x1_0000, 0x1_0001, n, n + 1);
    }
  }

  /** Call ids coincide exactly when the sums of process and thread id do, and the thread ids are the
      same after halving. */
  lemma CoincideExactly(p: nat, t: nat, q: nat, u: nat)
    requires p + t < 0x1_0000 && q + u < 0x1_0000
    ensures Defined(p, t) && Defined(q, u)
    ensures CallIdOf(p, t) == ((p + t) * (p + t + 1) + t) / 2
    ensures CallIdOf(p, t) == CallIdOf(q, u) <==> p + t == q + u && t / 2 == u / 2
  {
    hide CantorPair, Doubled;
    DefinedExactly(p, t);
    DefinedExactly(q, u);
    NothingWraps(p, t);
    NothingWraps(q, u);
    PairsCoincide(p, t, q, u);
  }

  /** So threads of one process do not share an id, but threads of two processes can, if one of the
      thread ids is odd. */
  lemma SharedOnlyAcrossProcesses(p: nat, t: nat, u: nat)
    requires p + 2 * t + 1 < 0x1_0000 && p + u < 0x1_0000
    ensures Defined(p, 2 * t) && Defined(p, u) && Defined(p + 1, 2 * t) && Defined(p, 2 * t + 1)
    ensures CallIdOf(p, 2 * t) == CallIdOf(p, u) <==> 2 * t == u
    ensures CallIdOf(p + 1, 2 * t) == CallIdOf(p, 2 * t + 1)
  {
    hide Defined, CallIdOf;
    CoincideExactly(p, 2 * t, p, u);
    CoincideExactly(p + 1, 2 * t, p, 2 * t + 1);
  }

  /** Even thread ids never share one. */
  lemma EvenThreadIdsNeverShare(p: nat, t: nat, q: nat, u: nat)
    requires p + t < 0x1_0000 && q + u < 0x1_0000
    requires t % 2 == 0 && u % 2 == 0
    ensures Defined(p, t) && Defined(q, u)
    ensures CallIdOf(p, t) == CallIdOf(q, u) <==> p == q && t == u
  {
    hide Defined, CallIdOf;
    CoincideExactly(p, t, q, u);
  }

  // ---------------------------------------------------------------- with wrap-around

  lemma WrapMore(m: nat, k: nat)
    ensures Wrap(m + k * U64_LIMIT) == Wrap(m)
  {
  }

  lemma ProductHalfRangeOn(n: nat, tid: nat, half: nat)
    requires 2 * half == U64_LIMIT
    ensures (n + half) * (n + half + 1) + (tid + half) == n * (n + 1) + tid + (n + 1 + half / 2) * U64_LIMIT
  {
    assert (n + half) * (n + half + 1) == n * (n + 1) + 2 * (half * n) + half * half + half;
    assert half * half == half / 2 * U64_LIMIT;
  }

  /** Threads of one process whose ids lie half the range apart always have the same product, and so the
      same call id if they have any. */
  lemma HalfRangeApartShare(pid: nat, tid: nat)
    requires pid + tid + 1 < 0x8000_0000_0000_0000
    ensures Doubled(pid, tid + 0x8000_0000_0000_0000) == Doubled(pid, tid)
  {
    hide Wrap, Doubled;
    var n, half: nat := pid + tid, 0x8000_0000_0000_0000;
    SumDoesNotWrap(pid, tid);
    SumDoesNotWrap(pid, tid + half);
    ProductHalfRangeOn(n, tid, half);
    WrapMore(n * (n + 1) + tid, n + 1 + half / 2);
  }
}
