/** The circuit layout of the voting script: `n` voters with `k` qubits each share one quantum
    register of `n * k` qubits and one classical register of the same size. Voter `i` is
    initialised on the slice `[i * k, (i + 1) * k)`, then a controlled-NOT from qubit `i * k` to
    qubit `i * k + 1` is added for every voter but the last, and finally every qubit is measured
    into the classical bit of the same index.

    The operations are kept abstract: their quantum meaning belongs to the simulator. */
module Circuit {
  import opened Wrappers

  datatype Op =
    | Init(voter: nat, lo: nat, hi: nat)          // initialize(state, qr[lo:hi])
    | CX(control: nat, target: nat)               // cx(qr[control], qr[target])
    | Measure(qubits: seq<nat>, clbits: seq<nat>) // measure(qr, cr): qubits[j] into clbits[j]

  datatype Circuit = Circuit(qubits: nat, clbits: nat, ops: seq<Op>)

  /** Indexing a register of `size` qubits at `index` fails when the index is out of range. */
  datatype CircuitError = QubitIndexOutOfRange(index: nat, size: nat)

  /** First qubit of voter `i`'s block; the block ends where voter `i + 1`'s begins. */
  function BlockStart(i: nat, k: nat): nat
  {
    i * k
  }

  /** Whether qubit `q` lies in voter `i`'s block `[i * k, (i + 1) * k)`. */
  predicate InBlock(q: nat, i: nat, k: nat)
  {
    BlockStart(i, k) <= q < BlockStart(i + 1, k)
  }

  /** The indices `0 .. size - 1` in order: both registers, read whole. */
  function Indices(size: nat): (s: seq<nat>)
    ensures |s| == size
    ensures forall j :: 0 <= j < size ==> s[j] == j
  {
    seq(size, j requires 0 <= j < size => j)
  }

  /** Number of controlled-NOTs: one per voter except the last, `range(n - 1)`. */
  function LinkCount(n: nat): nat
  {
    if n == 0 then 0 else n - 1
  }

  /** With at least one qubit per voter, both indices of every controlled-NOT fit the register:
      `i * k + 1 <= (i + 1) * k <= (n - 1) * k < n * k`. */
  lemma LinkInRange(n: nat, k: nat, i: nat)
    requires k >= 1 && i + 1 < n
    ensures BlockStart(i, k) < BlockStart(i, k) + 1 < n * k
  {
    calc {
      BlockStart(i, k) + 1;
    <= i * k + k;
    == (i + 1) * k;
    <= { MulMonotone(i + 1, n - 1, k); }
      (n - 1) * k;
    < (n - 1) * k + k;
    == n * k;
    }
  }

  /** Multiplying by the same natural keeps the order. */
  lemma MulMonotone(a: nat, b: nat, k: nat)
    requires a <= b
    ensures a * k <= b * k
  {
  }

  /** The layout the script builds for `n` voters of `k` qubits each. Registers hold `n * k`
      qubits and bits; the first `n` ops initialise the voters' blocks in voter order; the next
      `max(n - 1, 0)` are the controlled-NOTs, the `i`-th linking qubit `i * k` to `i * k + 1`,
      both inside the register; the last measures qubit `j` into bit `j` for every `j`. With
      no qubits per voter, two voters or more make `qr[0]` index an empty register, which
      fails. */
  method BuildCircuit(n: nat, k: nat) returns (r: Result<Circuit, CircuitError>)
    ensures r.Failure? <==> k == 0 && n >= 2
    ensures r.Failure? ==> r.error == QubitIndexOutOfRange(0, 0)
    ensures r.Success? ==> r.value.qubits == n * k && r.value.clbits == n * k
    ensures r.Success? ==> |r.value.ops| == n + LinkCount(n) + 1
    ensures r.Success? ==> forall i :: 0 <= i < n ==>
      r.value.ops[i] == Init(i, BlockStart(i, k), BlockStart(i + 1, k))
    ensures r.Success? ==> forall j :: n <= j < n + LinkCount(n) ==>
      r.value.ops[j] == CX(BlockStart(j - n, k), BlockStart(j - n, k) + 1)
    ensures r.Success? ==> forall j :: n <= j < n + LinkCount(n) ==>
      r.value.ops[j].CX? && r.value.ops[j].target < r.value.qubits
    ensures r.Success? ==> r.value.ops[n + LinkCount(n)] == Measure(Indices(n * k), Indices(n * k))
  {
    var size := n * k;
    var ops: seq<Op> := [];
    for i := 0 to n
      invariant |ops| == i
      invariant forall v :: 0 <= v < i ==> ops[v] == Init(v, BlockStart(v, k), BlockStart(v + 1, k))
    {
      ops := ops + [Init(i, i * k, (i + 1) * k)];
    }
    for i := 0 to LinkCount(n)
      invariant |ops| == n + i
      invariant forall v :: 0 <= v < n ==> ops[v] == Init(v, BlockStart(v, k), BlockStart(v + 1, k))
      invariant forall j :: n <= j < n + i ==> ops[j] == CX(BlockStart(j - n, k), BlockStart(j - n, k) + 1)
      invariant forall j :: n <= j < n + i ==> ops[j].target < size
      invariant k == 0 ==> i == 0
    {
      if k >= 1 {
        LinkInRange(n, k, i);
      }
      var control, target := i * k, i * k + 1;
      if control >= size {
        return Failure(QubitIndexOutOfRange(control, size));
      }
      // Once `qr[control]` is in range, so is `qr[target]`: `k >= 1` here.
      assert target < size;
      ops := ops + [CX(control, target)];
    }
    ops := ops + [Measure(Indices(size), Indices(size))];
    r := Success(Circuit(size, size, ops));
  }

  /** Every voter's block has exactly `k` qubits and lies inside the `n * k`-qubit register. */
  lemma BlockWithinRegister(n: nat, k: nat, i: nat)
    requires i < n
    ensures BlockStart(i + 1, k) - BlockStart(i, k) == k
    ensures BlockStart(i + 1, k) <= n * k
  {
    MulMonotone(i + 1, n, k);
  }

  /** Blocks of distinct voters share no qubit. */
  lemma BlocksDisjoint(k: nat, i: nat, j: nat, q: nat)
    requires i != j
    ensures !(InBlock(q, i, k) && InBlock(q, j, k))
  {
    if i < j {
      MulMonotone(i + 1, j, k);
    } else {
      MulMonotone(j + 1, i, k);
    }
  }

  /** Every qubit of the register belongs to a voter's block: qubit `q` to voter `q / k`. */
  lemma BlocksCover(n: nat, k: nat, q: nat)
    requires q < n * k
    ensures k > 0 && q / k < n && InBlock(q, q / k, k)
  {
    var v := q / k;
    assert v * k <= q < v * k + k;
    if v >= n {
      MulMonotone(n, v, k);
    }
  }

  /** With two qubits per voter or more, the `i`-th controlled-NOT acts inside voter `i`'s own
      block, on its first and second qubit, and touches no other voter's block. */
  lemma LinkInsideOwnBlock(k: nat, i: nat)
    requires k >= 2
    ensures InBlock(BlockStart(i, k), i, k) && InBlock(BlockStart(i, k) + 1, i, k)
    ensures forall v :: v != i ==> !InBlock(BlockStart(i, k), v, k) && !InBlock(BlockStart(i, k) + 1, v, k)
  {
    forall v | v != i
      ensures !InBlock(BlockStart(i, k), v, k) && !InBlock(BlockStart(i, k) + 1, v, k)
    {
      BlocksDisjoint(k, i, v, BlockStart(i, k));
      BlocksDisjoint(k, i, v, BlockStart(i, k) + 1);
    }
  }

  /** With one qubit per voter, the `i`-th controlled-NOT links voter `i`'s qubit to voter
      `i + 1`'s: the only case in which the pattern crosses voters. */
  lemma LinkCrossesWithOneQubit(i: nat)
    ensures InBlock(BlockStart(i, 1), i, 1) && InBlock(BlockStart(i, 1) + 1, i + 1, 1)
  {
  }
}
