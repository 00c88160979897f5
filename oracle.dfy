/**
 * The collaborators a rootfinder node is built on, as opaque values: the residual
 * function `F(z, p) -> (r, aux...)` (the oracle), the Jacobian function it generates,
 * the Jacobian's sparsity pattern with its structural solve, and the symbolic
 * expression operations used to build derivative functions.
 *
 * Only their interfaces are modelled: every operation is a function value the node
 * receives, constrained by nothing but the shapes of what it returns.
 */
module Oracle {
  import opened Wrappers
  import opened FlatMemory

  /** Sparsity of one input or output: dimensions and number of structural nonzeros. */
  datatype Shape = Shape(rows: nat, cols: nat, nnz: nat) {
    /** Every entry is a structural nonzero. */
    predicate IsDense() { nnz == rows * cols }
    /** A single column. */
    predicate IsColumn() { cols == 1 }
  }

  /**
   * The sparsity pattern of the Jacobian ∂r/∂z: its row count, its structural rank,
   * whether it is structurally singular, and its structural (bitwise OR) solve
   * `spsolve(X, B, transpose)`, which returns the new contents of `X`.
   */
  datatype Pattern = Pattern(
    rows: nat,
    sprank: nat,
    singular: bool,
    spsolve: (seq<Bits>, seq<Bits>, bool) -> seq<Bits>)

  /** A structural solve returns one word per word of `X`. */
  ghost predicate SolveShaped(p: Pattern) {
    forall x, b, tr :: |p.spsolve(x, b, tr)| == |x|
  }

  /** The Jacobian function ∂r/∂z: the work size it asks for, the sparsity of its output,
      and its symbolic evaluation at an argument list. */
  datatype JacFn<!E> = JacFn(szW: nat, pattern: Pattern, eval: seq<E> -> E)

  /**
   * The oracle's structural propagation.
   * `fwd(ins, wanted)`: from the input dependency words (null inputs are `None`) the
   * dependency words of every output; only outputs with a non-null slot are written.
   * `rev(ins, seeds)`: from the contents of the input slots and of the output (seed)
   * slots, the new contents of both; only non-null slots are written.
   */
  datatype BitOracle = BitOracle(
    fwd: (seq<Option<seq<Bits>>>, seq<bool>) -> seq<seq<Bits>>,
    rev: (seq<Option<seq<Bits>>>, seq<Option<seq<Bits>>>) -> (seq<seq<Bits>>, seq<seq<Bits>>))

  /** The oracle produces one buffer per input/output, of that input's/output's nonzero count. */
  ghost predicate BitShaped(o: BitOracle, szIn: seq<nat>, szOut: seq<nat>) {
    (forall ins, wanted :: Sized(o.fwd(ins, wanted), szOut)) &&
    (forall ins, seeds :: Sized(o.rev(ins, seeds).0, szIn) && Sized(o.rev(ins, seeds).1, szOut))
  }

  /**
   * The oracle's symbolic derivative propagation over expressions of type `E`, with
   * the expression operations the rootfinder applies.
   * `zeroIn[i]`/`zeroOut[i]`: an all-structural-zero expression of input/output i's
   * shape (`MX(size_in(i))`); `empty`: a default-constructed expression (`MX()`);
   * `fwd(arg, res, fseed, fsens)`/`rev(arg, res, aseed, asens)`: the oracle's
   * forward/reverse sensitivities, given the sensitivity vectors passed in;
   * `jac(arg)`: the Jacobian function ∂r/∂z applied to `arg` (a rootfinder puts the one it
   * registered as `jac_f_z` here);
   * `solve(J, B, tr)`: the columns of `J \ B` (or `J' \ B` when `tr`) for the columns
   * `B`, batched into one solve.
   */
  datatype SymOracle<!E> = SymOracle(
    zeroIn: seq<E>,
    zeroOut: seq<E>,
    empty: E,
    isEmpty: E -> bool,
    neg: E -> E,
    add: (E, E) -> E,
    fwd: (seq<E>, seq<E>, seq<seq<E>>, seq<seq<E>>) -> seq<seq<E>>,
    rev: (seq<E>, seq<E>, seq<seq<E>>, seq<seq<E>>) -> seq<seq<E>>,
    jac: seq<E> -> E,
    solve: (E, seq<E>, bool) -> seq<E>)

  /** Forward sensitivities come one vector per direction with one entry per output;
      reverse sensitivities one vector per direction with one entry per input; a
      batched solve returns one column per right-hand side; a default-constructed
      expression is empty. */
  ghost predicate SymShaped<E(!new)>(o: SymOracle<E>, nIn: nat, nOut: nat) {
    |o.zeroIn| == nIn && |o.zeroOut| == nOut &&
    (forall a, r, s, t :: |o.fwd(a, r, s, t)| == |s| &&
      forall d :: 0 <= d < |s| ==> |o.fwd(a, r, s, t)[d]| == |r|) &&
    (forall a, r, s, t :: |o.rev(a, r, s, t)| == |s| &&
      forall d :: 0 <= d < |s| ==> |o.rev(a, r, s, t)[d]| == |a|) &&
    (forall j, b, tr :: |o.solve(j, b, tr)| == |b|) &&
    o.isEmpty(o.empty)
  }

  /**
   * Symbolic building blocks of a derivative function: the node's own symbolic inputs
   * and outputs (`mx_in()`, `mx_out()`), a fresh all-structural-zero symbol shaped like
   * a given input (the `_guess` symbol), symbolic seeds (`symbolicFwdSeed`,
   * `symbolicAdjSeed`) and horizontal concatenation.
   */
  datatype Symbols<!E> = Symbols(
    mxIn: seq<E>,
    mxOut: seq<E>,
    guessOf: E -> E,
    fwdSeed: (nat, seq<E>) -> seq<seq<E>>,
    adjSeed: (nat, seq<E>) -> seq<seq<E>>,
    horzcat: seq<E> -> E)

  /** `fwdSeed(k, arg)`/`adjSeed(k, res)` give k directions, each shaped like its template. */
  ghost predicate SymbolsShaped<E(!new)>(s: Symbols<E>, nIn: nat, nOut: nat) {
    |s.mxIn| == nIn && |s.mxOut| == nOut &&
    (forall k, a :: |s.fwdSeed(k, a)| == k && forall d :: 0 <= d < k ==> |s.fwdSeed(k, a)[d]| == |a|) &&
    (forall k, r :: |s.adjSeed(k, r)| == k && forall d :: 0 <= d < k ==> |s.adjSeed(k, r)[d]| == |r|)
  }

  /** The residual function: input and output sparsities, its work size, the Jacobian
      function it generates for a given (input, output) pair, and its propagation. */
  datatype Function<!E> = Function(
    ins: seq<Shape>,
    outs: seq<Shape>,
    szW: nat,
    jacobian: (int, int) -> JacFn<E>,
    bits: BitOracle,
    sym: SymOracle<E>)

  /** Nonzero counts of the inputs (`nnz_in(i)`). */
  function NnzIn<E>(f: Function<E>): (r: seq<nat>)
    ensures |r| == |f.ins| && forall i :: 0 <= i < |f.ins| ==> r[i] == f.ins[i].nnz
  {
    seq(|f.ins|, i requires 0 <= i < |f.ins| => f.ins[i].nnz)
  }

  /** Nonzero counts of the outputs (`nnz_out(i)`). */
  function NnzOut<E>(f: Function<E>): (r: seq<nat>)
    ensures |r| == |f.outs| && forall i :: 0 <= i < |f.outs| ==> r[i] == f.outs[i].nnz
  {
    seq(|f.outs|, i requires 0 <= i < |f.outs| => f.outs[i].nnz)
  }

  /** What a forward structural call of the oracle reads: the buffers behind `args`. */
  function FwdResult(o: BitOracle, m: seq<Bits>, args: seq<Ptr>, ress: seq<Ptr>, szIn: seq<nat>): seq<seq<Bits>>
    requires SlotsFit(args, szIn, |m|)
  {
    o.fwd(Load(m, args, szIn), Mask(ress))
  }

  /** The new buffer contents produced by a reverse structural call of the oracle. */
  function RevResult(o: BitOracle, m: seq<Bits>, args: seq<Ptr>, ress: seq<Ptr>, szIn: seq<nat>, szOut: seq<nat>)
    : (seq<seq<Bits>>, seq<seq<Bits>>)
    requires SlotsFit(args, szIn, |m|) && SlotsFit(ress, szOut, |m|)
  {
    o.rev(Load(m, args, szIn), Load(m, ress, szOut))
  }

  /** `oracle_(arg1, res1, ...)` in forward structural mode: reads the non-null input
      buffers, writes every non-null output buffer. */
  method CallFwd(o: BitOracle, args: seq<Ptr>, ress: seq<Ptr>, szIn: seq<nat>, szOut: seq<nat>, mem: array<Bits>)
    requires BitShaped(o, szIn, szOut)
    requires SlotsFit(args, szIn, mem.Length) && SlotsFit(ress, szOut, mem.Length)
    modifies mem
    ensures mem[..] == StoreAll(old(mem[..]), ress, szOut, FwdResult(o, old(mem[..]), args, ress, szIn))
  {
    var outs := o.fwd(Load(mem[..], args, szIn), Mask(ress));
    WriteAll(mem, ress, szOut, outs);
  }

  /** `oracle_.rev(arg1, res1, ...)`: reads the non-null input and seed buffers, then
      writes every non-null input buffer and every non-null seed buffer. */
  method CallRev(o: BitOracle, args: seq<Ptr>, ress: seq<Ptr>, szIn: seq<nat>, szOut: seq<nat>, mem: array<Bits>)
    requires BitShaped(o, szIn, szOut)
    requires SlotsFit(args, szIn, mem.Length) && SlotsFit(ress, szOut, mem.Length)
    modifies mem
    ensures mem[..] == StoreAll(StoreAll(old(mem[..]), args, szIn, RevResult(o, old(mem[..]), args, ress, szIn, szOut).0),
                                ress, szOut, RevResult(o, old(mem[..]), args, ress, szIn, szOut).1)
  {
    var r := o.rev(Load(mem[..], args, szIn), Load(mem[..], ress, szOut));
    WriteAll(mem, args, szIn, r.0);
    WriteAll(mem, ress, szOut, r.1);
  }
}
