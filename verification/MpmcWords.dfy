/** The ring of src/logging.cc on 64-bit words: what its masks, signed differences and
    compare-exchanges decide, against the unbounded tickets of MpmcRing. */
module MpmcWords {
  import opened Prelude
  import opened MpmcRing

  // ---------------------------------------------------------------- capacity and mask

  /** Bitwise and of two naturals. */
  function BitAnd(a: nat, b: nat): nat {
    if a == 0 || b == 0 then 0
    else 2 * BitAnd(a / 2, b / 2) + (if a % 2 == 1 && b % 2 == 1 then 1 else 0)
  }

  /** Masking with capacity - 1 picks the cell of a ticket: it is the residue of the ticket. */
  lemma {:induction false} MaskIsResidue(pos: nat, k: nat)
    ensures Pow2(k) >= 1 && BitAnd(pos, Pow2(k) - 1) == pos % Pow2(k)
  {
    if k > 0 {
      var h := Pow2(k - 1);
      MaskIsResidue(pos / 2, k - 1);
      HalveResidue(pos, h);
      HalveMask(pos, h);
    } else {
      assert pos % 1 == 0;
    }
  }

  lemma HalveMask(a: nat, h: nat)
    requires h > 0
    ensures BitAnd(a, 2 * h - 1) == 2 * BitAnd(a / 2, h - 1) + a % 2
  {
    assert (2 * h - 1) / 2 == h - 1 && (2 * h - 1) % 2 == 1;
  }

  lemma HalveResidue(a: nat, h: nat)
    requires h > 0
    ensures a % (2 * h) == 2 * ((a / 2) % h) + a % 2
  {
    var q, r := (a / 2) / h, (a / 2) % h;
    assert a / 2 == q * h + r;
    assert q * (2 * h) == 2 * (q * h);
    DivModUnique(a, 2 * h, q, 2 * r + a % 2);
  }

  /** What p is after k rounds of the 64-bit loop of RoundUpToPowerOf2: the top bit falls off. */
  function Shifted(k: nat): (p: nat)
    ensures p < U64
  {
    if k == 0 then 1
    else if Shifted(k - 1) < HALF then 2 * Shifted(k - 1) else 2 * (Shifted(k - 1) - HALF)
  }

  /** The loop ends exactly for n up to 2^63; above, its shift reaches zero and it goes round for ever. */
  lemma RoundUpEndsIff(n: nat)
    requires n < U64
    ensures (exists k :: Shifted(k) >= n) <==> n <= Pow2(63)
  {
    Pow2Of63();
    ShiftedSmall(63);
    if k :| Shifted(k) >= n {
      if k <= 63 {
        ShiftedSmall(k);
        Pow2Monotone(k, 63);
      } else {
        ShiftedOut(k);
      }
    }
  }

  lemma Pow2Of63()
    ensures Pow2(63) == HALF
  {
    Pow2Of64();
    assert Pow2(64) == 2 * Pow2(63);
  }

  lemma {:induction false} ShiftedSmall(k: nat)
    requires k <= 63
    ensures Shifted(k) == Pow2(k)
  {
    if k > 0 {
      ShiftedSmall(k - 1);
      ShiftFits(k);
    }
  }

  lemma {:induction false} ShiftedOut(k: nat)
    requires k > 63
    ensures Shifted(k) == 0
  {
    var p := k - 1;
    if p > 63 {
      ShiftedOut(p);
    } else {
      ShiftedSmall(p);
      Pow2Of63();
      assert Shifted(p) == HALF;
    }
  }

  lemma ShiftFits(k: nat)
    requires 1 <= k <= 63
    ensures Pow2(k - 1) < HALF
  {
    Pow2Of63();
    Pow2Monotone(k, 63);
    Pow2Monotone(0, k - 1);
  }

  /** The constructor's capacity: the least power of two that is at least n, for the n on which the
      64-bit loop ends. */
  method RoundUpToPowerOf2(n: nat) returns (p: nat)
    requires n <= Pow2(63)
    ensures exists k :: p == Pow2(k)
    ensures p >= n && forall k :: Pow2(k) >= n ==> p <= Pow2(k)
    ensures p == 1 <==> n <= 1
  {
    p := 1;
    ghost var k := 0;
    while p < n
      invariant p == Pow2(k) && (k > 0 ==> Pow2(k - 1) < n)
      decreases n - p
    {
      p := 2 * p;
      k := k + 1;
    }
    forall j: nat | Pow2(j) >= n ensures p <= Pow2(j) {
      if j < k {
        Pow2Monotone(j, k - 1);
      } else {
        Pow2Monotone(k, j);
      }
    }
  }

  // ---------------------------------------------------------------- wrapped tickets

  const HALF: nat := 0x8000_0000_0000_0000

  /** What a std::size_t keeps of a ticket. */
  function Word(n: nat): nat {
    n % U64
  }

  /** static_cast<intptr_t>(a) - static_cast<intptr_t>(b), wrapping around. */
  function SignedDiff(a: nat, b: nat): int {
    var d := (a - b) % U64;
    if d < HALF then d else d - U64
  }

  lemma WordDiff(a: nat, b: nat)
    ensures (Word(a) - Word(b)) % U64 == (a - b) % U64
  {
    var qa, qb := a / U64, b / U64;
    assert Word(a) - Word(b) == a - b - (qa - qb) * U64;
    ModSubPeriod(a - b, qa - qb);
  }

  lemma ModSubPeriod(d: int, k: int)
    ensures (d - k * U64) % U64 == d % U64
  {
    var q, r := d / U64, d % U64;
    assert d - k * U64 == (q - k) * U64 + r;
    DivModUnique(d - k * U64, U64, q - k, r);
  }

  /** The signed difference of two wrapped tickets is their true difference exactly when that fits. */
  lemma SignedDiffIff(a: nat, b: nat)
    ensures SignedDiff(Word(a), Word(b)) == a - b <==> (a < b + HALF && b <= a + HALF)
  {
    WordDiff(a, b);
  }

  /** Wrapping does not change which cell a ticket uses. */
  lemma WordKeepsCell(pos: nat, k: nat)
    requires k <= 64
    ensures Pow2(k) >= 1 && BitAnd(Word(pos), Pow2(k) - 1) == pos % Pow2(k)
  {
    MaskIsResidue(Word(pos), k);
    Pow2Splits(k, 64 - k);
    Pow2Of64();
    ModOfMod(pos, Pow2(k), Pow2(64 - k));
  }

  lemma ModOfMod(n: nat, c: nat, d: nat)
    requires c >= 1 && c * d == U64
    ensures n % U64 % c == n % c
  {
    var w, q := n % U64, n / U64;
    assert n == w + q * U64;
    Reassociate(q, c, d);
    ModAddPeriod(w, q * d, c);
  }

  lemma Reassociate(q: nat, c: nat, d: nat)
    ensures q * (c * d) == (q * d) * c
  {}

  lemma Pow2Of64()
    ensures Pow2(64) == U64
  {
    assert Pow2(8) == 256;
    Pow2Splits(8, 8);
    Pow2Splits(16, 16);
    Pow2Splits(32, 32);
  }

  lemma {:induction false} Pow2Splits(j: nat, k: nat)
    ensures Pow2(j + k) == Pow2(j) * Pow2(k)
  {
    if j > 0 {
      Pow2Splits(j - 1, k);
      assert 2 * (Pow2(j - 1) * Pow2(k)) == Pow2(j) * Pow2(k);
    }
  }

  /** A sequence that a thread has read lies at most one round behind the ticket it read it for. */
  ghost predicate SeenNear(s: State) {
    forall t {:trigger s.threads[t]} :: 0 <= t < |s.threads| ==>
      (s.threads[t].pc.PushTest? || s.threads[t].pc.PopTest?) ==>
        s.threads[t].pc.seen + |s.cells| >= s.threads[t].pc.pos
  }

  lemma CellIsNear(s: State, pos: nat)
    requires Inv(s) && pos <= s.enq
    ensures pos <= s.At(pos).sequence + |s.cells| && s.At(pos).sequence <= s.enq + |s.cells|
  {
    assert CellInv(s, pos % |s.cells|);
  }

  lemma StepKeepsSeenNear(s: State, s': State, t: nat)
    requires Inv(s) && SeenNear(s) && Step(s, s', t)
    ensures SeenNear(s')
  {
    assert ThreadInv(s, t);
    var pc := s.threads[t].pc;
    if pc.PushRead? || pc.PopRead? {
      CellIsNear(s, pc.pos);
    }
  }

  lemma {:induction false} RunKeepsSeenNear(run: seq<State>, k: nat)
    requires Run(run) && Init(run[0]) && |run[0].cells| >= 2 && k < |run|
    ensures Inv(run[k]) && SeenNear(run[k]) && |run[k].cells| == |run[0].cells|
  {
    InitInv(run[0]);
    RunKeepsInv(run, k);
    if k > 0 {
      RunKeepsSeenNear(run, k - 1);
      assert Next(run[k - 1], run[k]);
      var t :| Step(run[k - 1], run[k], t);
      StepKeepsSeenNear(run[k - 1], run[k], t);
    }
  }

  /** For a thread whose ticket is fewer than 2^63 tickets old the signed difference is the true one,
      and the compare-exchange on the wrapped position succeeds exactly when the positions are equal. */
  ghost predicate DecidesAlike(s: State, pc: Pc) {
    && (pc.PushTest? ==> SignedDiff(Word(pc.seen), Word(pc.pos)) == pc.seen - pc.pos)
    && (pc.PushTest? ==> (Word(s.enq) == Word(pc.pos) <==> s.enq == pc.pos))
    && (pc.PopTest? ==> SignedDiff(Word(pc.seen), Word(pc.pos + 1)) == pc.seen - (pc.pos + 1))
    && (pc.PopTest? ==> (Word(s.deq) == Word(pc.pos) <==> s.deq == pc.pos))
  }

  lemma YoungDecidesAlike(s: State, t: nat)
    requires Inv(s) && SeenNear(s) && t < |s.threads| && |s.cells| < HALF
    requires s.threads[t].pc.PushTest? || s.threads[t].pc.PopTest?
    requires s.enq + |s.cells| < s.threads[t].pc.pos + HALF
    ensures DecidesAlike(s, s.threads[t].pc)
  {
    assert ThreadInv(s, t);
    var pc := s.threads[t].pc;
    CellIsNear(s, pc.pos);
    if pc.PushTest? {
      SignedDiffIff(pc.seen, pc.pos);
      WordsEqualIff(s.enq, pc.pos);
    } else {
      SignedDiffIff(pc.seen, pc.pos + 1);
      WordsEqualIff(s.deq, pc.pos);
    }
  }

  /** So in every reachable state, however often the words have wrapped around, such a thread takes the
      branch that unbounded tickets take. */
  lemma WordsDecideAlike(s: State, t: nat)
    requires Reachable(s) && t < |s.threads| && |s.cells| < HALF
    requires s.threads[t].pc.PushTest? || s.threads[t].pc.PopTest?
    requires s.enq + |s.cells| < s.threads[t].pc.pos + HALF
    ensures DecidesAlike(s, s.threads[t].pc)
  {
    var s0 :| Init(s0) && |s0.cells| >= 2 && Reaches(s0, s);
    var run :| Run(run) && run[0] == s0 && run[|run| - 1] == s;
    RunKeepsSeenNear(run, |run| - 1);
    YoungDecidesAlike(s, t);
  }

  lemma WordsEqualIff(a: nat, b: nat)
    requires b <= a < b + U64
    ensures Word(a) == Word(b) <==> a == b
  {
    if Word(a) == Word(b) {
      ModUnique(a, b, U64);
    }
  }
}
